/**
 * One pass of `main`'s `try` block, composed from the validator and the
 * formatter, as written and as evidently intended; and the object identity
 * that Python's `error != old_error` compares.
 */
module Cycle {
  import opened Wrappers
  import opened Json
  import opened Exceptions
  import opened Statuses
  import opened Formatter
  import opened Validator
  import opened PollLoop

  /**
   * What `get_api_answer` handed back: the decoded body (`JBool(false)` when
   * it caught a request or decoding error and returned `False`), or the
   * NegativeError it raises for a status other than 200.
   */
  datatype Answer = Body(value: Value) | NotOk

  /** The `current_date` of a response `check_response` accepted. */
  function CurrentDate(response: Value): Value
    requires response.JObj?
  {
    Get(response.fields, "current_date")
  }

  /**
   * The `try` block as written: on a record, `for homework in check_result`
   * walks the record's keys, so `parse_status` receives a key (a string) and
   * raises at its `.get`. The record is always truthy, since it holds "status".
   */
  ghost function CycleAsWritten(answer: Answer): (o: Outcome<PyError>)
    ensures o.Advanced? ==> o.notices == []
  {
    match answer
    case NotOk => Raised(NegativeError(BAD_SERVER_ANSWER))
    case Body(response) =>
      match CheckResponse(response)
      case Failed(e) => Raised(e)
      case NoWork => Advanced(CurrentDate(response), [])
      case Record(h) =>
        assert "status" in h;
        var key :| key in h;
        Raised(ParseStatus(JStr(key)).error)
  }

  /** The `try` block as evidently intended: the record itself is formatted and sent. */
  ghost function Cycle(answer: Answer): (o: Outcome<PyError>)
    ensures o.Advanced? <==>
      && answer.Body?
      && (|| CheckResponse(answer.value).NoWork?
          || (CheckResponse(answer.value).Record? && ParseStatus(JObj(CheckResponse(answer.value).homework)).Success?))
    ensures o.Advanced? ==> answer.Body? && answer.value.JObj? && o.currentDate == CurrentDate(answer.value)
    ensures answer.NotOk? ==> o == Raised(NegativeError(BAD_SERVER_ANSWER))
    ensures answer.Body? && CheckResponse(answer.value).Failed? ==> o == Raised(CheckResponse(answer.value).error)
    ensures (answer.Body? && CheckResponse(answer.value).Record?
             && ParseStatus(JObj(CheckResponse(answer.value).homework)).Failure?) ==>
      o == Raised(ParseStatus(JObj(CheckResponse(answer.value).homework)).error)
    ensures o.Advanced? ==> o.notices == (if CheckResponse(answer.value).Record?
                                         then [ParseStatus(JObj(CheckResponse(answer.value).homework)).value]
                                         else [])
    ensures o.Advanced? ==> forall k | 0 <= k < |o.notices| :: ReadNotice(o.notices[k]).Some?
  {
    match answer
    case NotOk => Raised(NegativeError(BAD_SERVER_ANSWER))
    case Body(response) =>
      match CheckResponse(response)
      case Failed(e) => Raised(e)
      case NoWork => Advanced(CurrentDate(response), [])
      case Record(h) =>
        match ParseStatus(JObj(h))
        case Failure(e) => Raised(e)
        case Success(text) =>
          NoticeMentions(JObj(h));
          Advanced(CurrentDate(response), [text])
  }

  /**
   * Once `check_response` has accepted a record, `parse_status` can fail on it
   * only for a missing name: the status checks are a repeat of the validator's.
   */
  lemma ValidatedRecordFormats(response: Value)
    requires CheckResponse(response).Record?
    ensures var h := CheckResponse(response).homework;
      && (ParseStatus(JObj(h)).Success? <==> Get(h, "homework_name") != JNull)
      && (ParseStatus(JObj(h)).Failure? ==> ParseStatus(JObj(h)).error == NegativeError(NO_NAME))
  {
  }

  /** Where no record is selected, the code as written and as intended agree. */
  lemma AgreeWithoutRecord(answer: Answer)
    requires answer.Body? ==> !CheckResponse(answer.value).Record?
    ensures CycleAsWritten(answer) == Cycle(answer)
  {
  }

  /**
   * As written, a cycle whose response selects a record never reaches line
   * 107: it raises AttributeError, so no submission is ever notified and the
   * cursor stays where it was.
   */
  lemma AsWrittenNeverNotifiesRecord(answer: Answer)
    requires answer.Body? && CheckResponse(answer.value).Record?
    ensures CycleAsWritten(answer) == Raised(AttributeError("str"))
  {
  }

  /** As intended, a record with a name is sent as exactly one notice and the cursor moves on. */
  lemma CycleDeliversRecord(response: Value)
    requires CheckResponse(response).Record?
    requires Get(CheckResponse(response).homework, "homework_name") != JNull
    ensures var h := CheckResponse(response).homework;
      var name := Display(Get(h, "homework_name"));
      var status := Get(h, "status").s;
      && status in HOMEWORK_STATUSES
      && Cycle(Body(response)) == Advanced(CurrentDate(response), [Notice(name, HOMEWORK_STATUSES[status])])
      && ReadNotice(Cycle(Body(response)).notices[0]) == Some((name, status))
  {
    var h := CheckResponse(response).homework;
    NoticeMentions(JObj(h));
  }

  /** The answer of a first scenario: one approved submission, server time 1000. */
  function ApprovedAnswer(): Value
  {
    JObj(map[
      "homeworks" := JList([JObj(map["homework_name" := JStr("hw1"), "status" := JStr("approved")])]),
      "current_date" := JInt(1000)])
  }

  /**
   * The approved submission is never announced as written; as intended it is
   * announced once, naming "hw1" with the approval text, and the cursor
   * advances to 1000.
   */
  lemma ApprovedAnswerCounterexample(start: Value)
    ensures CycleAsWritten(Body(ApprovedAnswer())) == Raised(AttributeError("str"))
    ensures var text := Notice("hw1", HOMEWORK_STATUSES["approved"]);
      Transition(State(start, None), Cycle(Body(ApprovedAnswer())))
        == (State(JInt(1000), None), [Notify(text)])
  {
    var response := ApprovedAnswer();
    assert Homeworks(response) == JList([JObj(map["homework_name" := JStr("hw1"), "status" := JStr("approved")])]);
    AsWrittenNeverNotifiesRecord(Body(response));
    CycleDeliversRecord(response);
    assert Notifications<PyError>([Notice("hw1", HOMEWORK_STATUSES["approved"])])
      == [Notify(Notice("hw1", HOMEWORK_STATUSES["approved"]))];
  }

  /**
   * An empty list is no failure, but a response without `current_date` sets
   * the cursor to None, so the next request falls back to the clock.
   */
  lemma EmptyAnswerFallsBackToClock(start: Value, old_error: Option<PyError>, now: int)
    ensures var after := Transition(State(start, old_error), Cycle(Body(JObj(map["homeworks" := JList([])]))));
      && after == (State(JNull, old_error), [])
      && FromDate(after.0.cursor, now) == JInt(now)
  {
    var response := JObj(map["homeworks" := JList([])]);
    assert Homeworks(response) == JList([]);
    assert Notifications<PyError>([]) == [];
  }

  /** An exception object: its class and arguments, and the identity `!=` compares it by. */
  datatype Raise = Raise(error: PyError, identity: nat)

  /** Every `raise` creates a new object: no two failures of a run share an identity. */
  predicate FreshObjects(trace: seq<Outcome<Raise>>)
  {
    forall i, j | 0 <= i < j < |Failures(trace)| :: Failures(trace)[i].identity != Failures(trace)[j].identity
  }

  /**
   * As written, `error != old_error` compares exception objects by identity,
   * and each cycle raises a new object: from the start state every failure
   * alerts the operator, the same message included.
   */
  lemma IdentityDedupAlertsEveryFailure(cursor: Value, trace: seq<Outcome<Raise>>)
    requires FreshObjects(trace)
    ensures Alerts(Replay(State(cursor, None), trace).1) == Failures(trace)
  {
    DistinctErrorsAllAlert(State(cursor, None), trace);
  }

  /** Two cycles failing on the same non-200 answer, as two exception objects. */
  function RepeatedOutage(): seq<Outcome<Raise>>
  {
    [Raised(Raise(NegativeError(BAD_SERVER_ANSWER), 0)), Raised(Raise(NegativeError(BAD_SERVER_ANSWER), 1))]
  }

  /** The exceptions of a run compared by class and arguments instead of identity. */
  function ByValue(trace: seq<Outcome<Raise>>): seq<Outcome<PyError>>
  {
    seq(|trace|, k requires 0 <= k < |trace| =>
      match trace[k]
      case Advanced(d, n) => Advanced(d, n)
      case Raised(x) => Raised(x.error))
  }

  lemma FailuresOfTwo<E>(x: E, y: E)
    ensures Failures([Raised(x), Raised(y)]) == [x, y]
  {
    var trace: seq<Outcome<E>> := [Raised(x), Raised(y)];
    assert trace[..1] == [Raised(x)];
    assert trace[..1][..0] == [];
    assert Failures(trace[..1][..0]) == [];
    assert Failures(trace[..1]) == [x];
  }

  /** Forgetting identity keeps the failures of a run, each reduced to its class and arguments. */
  lemma {:induction false} FailuresByValue(trace: seq<Outcome<Raise>>)
    ensures |Failures(ByValue(trace))| == |Failures(trace)|
    ensures forall k | 0 <= k < |Failures(trace)| :: Failures(ByValue(trace))[k] == Failures(trace)[k].error
    decreases |trace|
  {
    if trace != [] {
      var init := trace[..|trace| - 1];
      assert ByValue(trace)[..|trace| - 1] == ByValue(init);
      FailuresByValue(init);
    }
  }

  /**
   * The same outage twice: compared by identity the operator is alerted
   * twice; compared by value, once.
   */
  lemma RepeatedOutageCounterexample(cursor: Value)
    ensures |Alerts(Replay(State(cursor, None), RepeatedOutage()).1)| == 2
    ensures |Alerts(Replay(State(cursor, None), ByValue(RepeatedOutage())).1)| == 1
  {
    var outage := NegativeError(BAD_SERVER_ANSWER);
    FailuresOfTwo(Raise(outage, 0), Raise(outage, 1));
    IdentityDedupAlertsEveryFailure(cursor, RepeatedOutage());
    var values := ByValue(RepeatedOutage());
    assert values == [Raised(outage), Raised(outage)];
    FailuresOfTwo(outage, outage);
    AlertsCollapseFailures(State(cursor, None), values);
    CollapseRepeated(None, [outage, outage], outage);
  }

  /**
   * Compared by value, a failure that keeps recurring with the same class and
   * arguments alerts the operator at most once, however its objects differ.
   */
  lemma ValueDedupAlertsOnce(s: State<PyError>, trace: seq<Outcome<Raise>>, e: PyError)
    requires forall k | 0 <= k < |trace| :: trace[k].Raised? ==> trace[k].error.error == e
    ensures |Alerts(Replay(s, ByValue(trace)).1)| <= 1
  {
    SameErrorAlertsAtMostOnce(s, ByValue(trace), e);
  }
}
