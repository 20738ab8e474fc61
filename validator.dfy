/**
 * `check_response`: validates a decoded API answer and picks the submission
 * to report. Only the first entry of `homeworks` is ever inspected: the loop
 * over the list returns or raises on its first pass.
 */
module Validator {
  import opened Json
  import opened Exceptions
  import opened Statuses

  /** Raised, nothing to report (`False`), or the record to report. */
  datatype Checked = Failed(error: PyError) | NoWork | Record(homework: map<string, Value>)

  /** `response.get('homeworks')`, for a response that is a dict. */
  function Homeworks(response: Value): Value
    requires response.JObj?
  {
    Get(response.fields, "homeworks")
  }

  /** A status the catalog knows. */
  predicate Known(status: Value)
  {
    status.JStr? && status.s in HOMEWORK_STATUSES
  }

  /** The one pass of the loop: the entry is returned when its status is in the catalog. */
  function CheckEntry(homework: Value): (r: Checked)
    ensures r.Record? <==> homework.JObj? && Known(Get(homework.fields, "status"))
    ensures r.Record? ==> JObj(r.homework) == homework
    ensures !r.NoWork?
    ensures !homework.JObj? ==> r == Failed(AttributeError(TypeName(homework)))
    ensures homework.JObj? && !Hashable(Get(homework.fields, "status")) ==>
      r == Failed(TypeError(TypeName(Get(homework.fields, "status"))))
    ensures (homework.JObj? && Hashable(Get(homework.fields, "status"))
             && !Known(Get(homework.fields, "status"))) ==> r == Failed(NegativeError(NO_STATUS))
  {
    if !homework.JObj? then Failed(NoGet(homework))
    else
      var status := Get(homework.fields, "status");
      if !Hashable(status) then Failed(TypeError(TypeName(status)))
      else if Known(status) then Record(homework.fields)
      else Failed(NegativeError(NO_STATUS))
  }

  /** `check_response(response)`. */
  function CheckResponse(response: Value): (r: Checked)
    ensures !response.JObj? ==> r == Failed(AttributeError(TypeName(response)))
    ensures response.JObj? && Homeworks(response) == JNull ==>
      r == Failed(NegativeError(NO_HOMEWORKS_LIST))
    ensures (response.JObj? && Homeworks(response) != JNull && !Homeworks(response).JList?) ==>
      r == Failed(NegativeError(BAD_HOMEWORKS_FORMAT))
    ensures r.NoWork? <==> response.JObj? && Homeworks(response) == JList([])
    ensures r.Record? <==>
      && response.JObj?
      && Homeworks(response).JList?
      && |Homeworks(response).items| > 0
      && Homeworks(response).items[0].JObj?
      && Known(Get(Homeworks(response).items[0].fields, "status"))
    ensures r.Record? ==> JObj(r.homework) == Homeworks(response).items[0]
    ensures (response.JObj? && Homeworks(response).JList? && Homeworks(response).items != []) ==>
      r == CheckEntry(Homeworks(response).items[0])
  {
    if !response.JObj? then Failed(NoGet(response))
    else
      var homeworks := Homeworks(response);
      if homeworks == JNull then Failed(NegativeError(NO_HOMEWORKS_LIST))
      else if !homeworks.JList? then Failed(NegativeError(BAD_HOMEWORKS_FORMAT))
      else if homeworks.items == [] then NoWork
      else CheckEntry(homeworks.items[0])
  }

  /** A response whose `homeworks` entry is the given list. */
  function WithHomeworks(fields: map<string, Value>, items: seq<Value>): Value
  {
    JObj(fields["homeworks" := JList(items)])
  }

  /**
   * Only the first entry decides: whatever follows it, the verdict on a
   * non-empty list is the verdict on that entry alone.
   */
  lemma FirstEntryDecides(fields: map<string, Value>, items: seq<Value>, rest: seq<Value>)
    requires items != []
    ensures CheckResponse(WithHomeworks(fields, items)) == CheckEntry(items[0])
    ensures CheckResponse(WithHomeworks(fields, items)) == CheckResponse(WithHomeworks(fields, [items[0]] + rest))
  {
    assert Homeworks(WithHomeworks(fields, items)) == JList(items);
    assert Homeworks(WithHomeworks(fields, [items[0]] + rest)) == JList([items[0]] + rest);
  }

  /**
   * An unknown status on the first entry fails the whole response even when
   * every later entry is well formed.
   */
  lemma UnknownFirstStatusFails(fields: map<string, Value>, first: map<string, Value>, rest: seq<Value>)
    requires Hashable(Get(first, "status")) && !Known(Get(first, "status"))
    ensures CheckResponse(WithHomeworks(fields, [JObj(first)] + rest)) == Failed(NegativeError(NO_STATUS))
  {
    FirstEntryDecides(fields, [JObj(first)] + rest, []);
  }
}
