/**
 * The exceptions the bot's core can raise: its own `NegativeError`, with the
 * exact messages it is raised with, and the built-in ones the code runs into
 * on unexpected input.
 */
module Exceptions {
  import opened Json

  datatype PyError =
    | NegativeError(message: string)   // the bot's own exception class
    | KeyError(key: Value)             // `HOMEWORK_STATUSES[status]` with an unknown status
    | AttributeError(typeName: string) // `.get` called on a value that is not a dict
    | TypeError(typeName: string)      // an unhashable list or dict used as a dictionary key

  const NO_HOMEWORKS_LIST := "Нет списка 'homework'"
  const BAD_HOMEWORKS_FORMAT := "Неверный формат 'homework'"
  const NO_STATUS := "Нет статуса работы"
  const NO_NAME := "У домашки нет имени"
  const BAD_SERVER_ANSWER := "Ошибка при получении ответа с сервера"

  /** What `v.get(...)` raises when `v` is not a dict. */
  function NoGet(v: Value): PyError
  {
    AttributeError(TypeName(v))
  }
}
