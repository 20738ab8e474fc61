# homework_bot: the polling bot's validation, formatting and loop rule

The bot polls a homework-review API, checks the answer, is meant to turn the
latest submission into a chat message (as written it never does; see
Findings) and tells the operator about failures. This
project models the pure core of `homework.py`:

- `Json` — decoded JSON values with the Python operations the bot applies to
  them: truthiness, `type(v).__name__`, `dict.get`, hashability, `str()`.
- `Exceptions` — the bot's `NegativeError` with its exact messages, and the
  built-in `KeyError`, `AttributeError` and `TypeError` the code runs into.
- `Statuses` — the three-entry catalog `HOMEWORK_STATUSES`.
- `Formatter` — `parse_status`, the notice template, and a reader that
  recovers the name and the status from a notice.
- `Validator` — `check_response`. Only the first entry of `homeworks` is ever
  inspected, because the loop returns or raises on its first pass.
- `PollLoop` — the start-up rule and the per-cycle update of `current_time`
  and `old_error` in `main`, plus the `from_date` fallback of
  `get_api_answer`. It has a pure transition function and a class `Poller`
  whose methods update the two fields in place. The error type is abstract,
  and only its `!=` is used.
- `Cycle` — one pass of `main`'s `try` block built from the validator and the
  formatter, as written and as evidently intended (see Findings).

Three points where the code does less, or other, than a reader might expect:

- Only the first submission of `homeworks` is ever looked at, not every
  pending one.
- `parse_status` on its own does not reject an unknown status with one of the
  bot's own errors: its dictionary lookup raises `KeyError`, or `TypeError`
  when the status is a list or dict. In the loop that lookup is never reached,
  because `check_response` runs first and raises `NegativeError('Нет статуса
  работы')` for any other unknown status, or `TypeError` for a list or dict.
- The operator dedup compares exception objects by identity, so it never
  suppresses an alert (see Findings).

## Model

| member | source | states |
|---|---|---|
| `Statuses.CatalogIsFixed` | homework.py:25-29 | the catalog has exactly the three keys approved, reviewing, rejected, with pairwise different texts |
| `Formatter.ParseStatus` | homework.py:65-74 | a non-dict fails at `.get` with AttributeError; a missing name fails with "У домашки нет имени" before the status is looked at; a missing status fails with "Нет статуса работы"; a present status outside the catalog fails at the lookup with KeyError carrying that status, or TypeError for a list or dict; it succeeds exactly when the name is present and the status is a catalog key, with the text `Изменился статус проверки работы "<name>". <catalog text>` |
| `Formatter.ReadNotice` | homework.py:74 | any text it reads back is exactly the notice of the name and the catalog status it returns |
| `Formatter.ReadNoticeInverts` | homework.py:74 | round trip: reading a notice gives back the name and the status it was made from, so no two (name, status) pairs share a notice |
| `Formatter.NoticeMentions` | homework.py:73-74 | a successful notice holds the record's name right after the fixed prefix, ends with the catalog text of its status, and reads back to that name and status |
| `Validator.CheckEntry` | homework.py:86-91 | an entry is selected exactly when it is a dict whose status is a catalog key, and it is then returned unchanged; a non-dict fails with AttributeError, a list or dict status with TypeError, any other unknown status with "Нет статуса работы"; it never reports "nothing to do" |
| `Validator.CheckResponse` | homework.py:77-91 | a non-dict answer fails with AttributeError; a missing or null `homeworks` fails with "Нет списка 'homework'"; a non-list fails with "Неверный формат 'homework'"; it reports nothing to do exactly for an empty list; on a non-empty list the verdict is the verdict on the first entry, and it returns a record exactly when that entry is a dict with a catalog status, the record being that entry |
| `Validator.FirstEntryDecides` | homework.py:84-91 | on a non-empty list, the verdict is the verdict on the first entry, whatever entries follow it |
| `Validator.UnknownFirstStatusFails` | homework.py:86-91 | an unknown status on the first entry fails the whole answer with "Нет статуса работы", even when every later entry is well formed |
| `PollLoop.FromDate` | homework.py:48 | the requested `from_date` is the cursor when it is truthy and the clock otherwise, so it is never falsy for a non-zero clock |
| `PollLoop.Transition` | homework.py:100-117 | on success the cursor becomes `current_date`, the notices are sent in order, and `old_error` is kept; on failure the cursor is kept, nothing is sent to the chat but the alert, which goes out exactly when the error differs from `old_error`, followed by exactly one log line, and `old_error` ends as the new error |
| `PollLoop.TransitionAlerts` | homework.py:109-117 | one step alerts with the new error when it differs from `old_error`, and otherwise not at all |
| `PollLoop.AlertsCollapseFailures` | homework.py:97-117 | over any run, the alerted errors are exactly the raised errors with consecutive repeats removed (successes in between do not reset `old_error`), and `old_error` ends as the last error raised |
| `PollLoop.CursorFollowsLastDate` | homework.py:97-107 | over any run, the cursor ends at the `current_date` of the last successful cycle, or where it started when none succeeded |
| `PollLoop.SameErrorAlertsAtMostOnce` | homework.py:109-117 | when every failure of a run is the same error, the operator is alerted at most once, and not at all when it was already the last one reported |
| `PollLoop.DistinctErrorsAllAlert` | homework.py:109-117 | when no two failures of a run are equal and none equals the previously reported error, every failure alerts |
| `PollLoop.Poller.constructor` | homework.py:97-98 | start-up: the cursor is the clock and `old_error` is None |
| `PollLoop.Poller.Step` | homework.py:100-117 | updates the two fields in place exactly as `Transition` prescribes and returns its effects |
| `PollLoop.Poller.Run` | homework.py:99-117 | running the loop over a finite sequence of cycles leaves the fields and the effects that `Replay` prescribes |
| `Cycle.CycleAsWritten` | homework.py:100-107 | as written, a cycle that gets past the `try` block never sends a notice |
| `Cycle.Cycle` | homework.py:100-107 | as intended: a non-200 answer raises "Ошибка при получении ответа с сервера"; a rejected answer raises the validator's error; a selected record that does not format raises the formatter's error; otherwise the cycle completes with the answer's own `current_date`, sending exactly the record's notice when a record was selected and nothing for an empty list |
| `Cycle.ValidatedRecordFormats` | homework.py:65-91 | once `check_response` has selected a record, `parse_status` can only fail on it for a missing name |
| `Cycle.AgreeWithoutRecord` | homework.py:101-107 | where no record is selected, the code as written and as intended behave the same |
| `Cycle.AsWrittenNeverNotifiesRecord` | homework.py:103-106 | as written, a cycle that selects a record raises AttributeError instead of sending, so the cursor does not move |
| `Cycle.CycleDeliversRecord` | homework.py:102-107 | as intended, a selected record with a name is sent as exactly one notice that reads back to its name and status, and the cursor becomes `current_date` |
| `Cycle.ApprovedAnswerCounterexample` | homework.py:103-107 | an answer with one approved "hw1" and server time 1000 raises AttributeError as written; as intended it sends one notice naming "hw1" with the approval text and moves the cursor to 1000 |
| `Cycle.EmptyAnswerFallsBackToClock` | homework.py:48 | an answer with an empty list and no `current_date` sends nothing, keeps `old_error`, sets the cursor to None, and the next request asks from the clock |
| `Cycle.IdentityDedupAlertsEveryFailure` | homework.py:110 | when exceptions are compared by identity and every raise makes a new object, every failure of a run alerts the operator |
| `Cycle.RepeatedOutageCounterexample` | homework.py:110-112 | two identical non-200 failures alert twice when compared by identity, and once when compared by value |
| `Cycle.ValueDedupAlertsOnce` | homework.py:110-117 | compared by class and arguments, a failure that keeps recurring alerts the operator at most once, whatever objects carry it |
| `Cycle.FailuresByValue` | homework.py:109-110 | comparing by value keeps every failure of a run, in order, each reduced to its class and arguments |

## Findings

| source | as written | input that shows it | evidently intended | confidence | as-written member | corrected member |
|---|---|---|---|---|---|---|
| homework.py:103-106 | `for homework in check_result` walks the keys of the selected record, so `parse_status` gets a string and raises AttributeError at `.get`. No submission is ever announced, and the cursor never advances past a cycle that has one. | `{"homeworks": [{"homework_name": "hw1", "status": "approved"}], "current_date": 1000}` | format and send the record itself | high; not executed | `Cycle.AsWrittenNeverNotifiesRecord` | `Cycle.CycleDeliversRecord` |
| homework.py:110 | `error != old_error` compares exception objects by identity, and every failure raises a new object, so the check is always true and the operator is alerted on every cycle | two consecutive cycles that both get a non-200 status | suppress the alert when the same failure recurs | high; not executed | `Cycle.IdentityDedupAlertsEveryFailure` | `Cycle.ValueDedupAlertsOnce` |

## Left out

- `send_message` and the `telegram.Bot` client (homework.py:38-43, 96) are foreign calls. A sent message appears as a `Notify` or `Alert` effect. Swallowing `TelegramError` is not modelled.
- The HTTP request, the status-code check, JSON decoding and the `False` returns of `get_api_answer` (homework.py:46-62) are network I/O. `Cycle.Answer` takes what the function handed back. Only the line-48 fallback is modelled, as `PollLoop.FromDate`, with the clock as a parameter.
- Logging setup, `load_dotenv` and the environment reads (homework.py:9-20) are configuration and I/O. A log line appears as a `LogError` effect carrying the error.
- The alert and log texts (`f'Сбой в работе: {error}'`) depend on Python's `str()` of an exception. The model records the exception instead.
- `time.sleep`, `RETRY_TIME` and the endless `while True` (homework.py:99, 108, 114, 117) are timing. `Poller.Run` covers any finite number of cycles.
- `Json.Repr`: string escapes inside a repr are not modelled, and the entries of a dict come out in an unspecified order, because a `map` does not keep insertion order. This only affects a `homework_name` that is a list or dict.
- JSON floating-point numbers are not part of the `Json` model.
