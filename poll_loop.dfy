/**
 * The body of `main`'s `while True` loop, reduced to its state: the time
 * cursor `current_time` and the last reported exception `old_error`. What a
 * cycle did (a parsed answer or a raised exception) is an input; what the
 * step does to the outside world (messages sent, log lines written) is an
 * output. The error type is left abstract: only its `!=` is used.
 */
module PollLoop {
  import opened Wrappers
  import opened Json

  /** How one pass of the `try` block ended. */
  datatype Outcome<E> =
    | Advanced(currentDate: Value, notices: seq<string>)  // reached line 107 after sending `notices`
    | Raised(error: E)                                     // caught by `except Exception`

  /** What a step does outside the loop's own state. */
  datatype Effect<E> =
    | Notify(text: string)   // a submission notice sent to the chat
    | Alert(error: E)        // the operator is told of a failure
    | LogError(error: E)     // an error line in the log

  /** The loop's locals `current_time` and `old_error`. */
  datatype State<E> = State(cursor: Value, oldError: Option<E>)

  /** The `from_date` actually requested: the cursor, or the clock when the cursor is falsy. */
  function FromDate(cursor: Value, now: int): (d: Value)
    ensures Truthy(cursor) ==> d == cursor
    ensures !Truthy(cursor) ==> d == JInt(now)
    ensures now != 0 ==> Truthy(d)
  {
    if Truthy(cursor) then cursor else JInt(now)
  }

  /** The chat messages for the given notices, in order. */
  function Notifications<E>(notices: seq<string>): seq<Effect<E>>
  {
    seq(|notices|, k requires 0 <= k < |notices| => Notify(notices[k]))
  }

  /** One pass of the loop. */
  function Transition<E(==)>(s: State<E>, o: Outcome<E>): (r: (State<E>, seq<Effect<E>>))
    ensures o.Advanced? ==> r.0 == State(o.currentDate, s.oldError) && r.1 == Notifications(o.notices)
    ensures o.Raised? ==> r.0.cursor == s.cursor && r.0.oldError == Some(o.error)
    ensures o.Raised? ==>
      r.1 == (if s.oldError != Some(o.error) then [Alert(o.error)] else []) + [LogError(o.error)]
  {
    match o
    case Advanced(date, notices) => (State(date, s.oldError), Notifications(notices))
    case Raised(error) =>
      if Some(error) != s.oldError then (State(s.cursor, Some(error)), [Alert(error), LogError(error)])
      else (s, [LogError(error)])
  }

  /** The loop run over a finite sequence of cycles, in order. */
  function Replay<E(==)>(s: State<E>, trace: seq<Outcome<E>>): (State<E>, seq<Effect<E>>)
    decreases |trace|
  {
    if trace == [] then (s, [])
    else
      var before := Replay(s, trace[..|trace| - 1]);
      var after := Transition(before.0, trace[|trace| - 1]);
      (after.0, before.1 + after.1)
  }

  /** The errors raised along a trace, in order. */
  function Failures<E>(trace: seq<Outcome<E>>): seq<E>
    decreases |trace|
  {
    if trace == [] then []
    else Failures(trace[..|trace| - 1]) + (if trace[|trace| - 1].Raised? then [trace[|trace| - 1].error] else [])
  }

  /** The `current_date` of the last cycle that got through, or `cursor` when none did. */
  function LastDate<E>(cursor: Value, trace: seq<Outcome<E>>): Value
    decreases |trace|
  {
    if trace == [] then cursor
    else if trace[|trace| - 1].Advanced? then trace[|trace| - 1].currentDate
    else LastDate(cursor, trace[..|trace| - 1])
  }

  /** The errors the operator was alerted of, in order. */
  function Alerts<E>(effects: seq<Effect<E>>): seq<E>
    decreases |effects|
  {
    if effects == [] then []
    else Alerts(effects[..|effects| - 1]) + (if effects[|effects| - 1].Alert? then [effects[|effects| - 1].error] else [])
  }

  /** The last element, or `prev` for an empty sequence. */
  function LastOf<E>(prev: Option<E>, xs: seq<E>): Option<E>
  {
    if xs == [] then prev else Some(xs[|xs| - 1])
  }

  /**
   * Reference definition of the de-duplication policy: keep each error that
   * differs from the one just before it (from `prev` for the first).
   */
  function Collapse<E(==)>(prev: Option<E>, xs: seq<E>): seq<E>
    decreases |xs|
  {
    if xs == [] then []
    else
      var init := xs[..|xs| - 1];
      Collapse(prev, init) + (if LastOf(prev, init) == Some(xs[|xs| - 1]) then [] else [xs[|xs| - 1]])
  }

  lemma {:induction false} AlertsAppend<E>(a: seq<Effect<E>>, b: seq<Effect<E>>)
    ensures Alerts(a + b) == Alerts(a) + Alerts(b)
    decreases |b|
  {
    if b == [] {
      assert a + b == a;
    } else {
      var init := b[..|b| - 1];
      assert (a + b)[..|a + b| - 1] == a + init;
      AlertsAppend(a, init);
    }
  }

  lemma {:induction false} NotificationsRaiseNoAlert<E>(notices: seq<string>)
    ensures Alerts(Notifications<E>(notices)) == []
    decreases |notices|
  {
    if notices != [] {
      var init := notices[..|notices| - 1];
      assert Notifications<E>(notices)[..|notices| - 1] == Notifications<E>(init);
      NotificationsRaiseNoAlert<E>(init);
    }
  }

  /** The alerts one step raises: the new error when it differs from the last one, else none. */
  lemma TransitionAlerts<E>(s: State<E>, o: Outcome<E>)
    ensures Alerts(Transition(s, o).1) ==
      if o.Raised? && s.oldError != Some(o.error) then [o.error] else []
  {
    if o.Advanced? {
      NotificationsRaiseNoAlert<E>(o.notices);
    } else if s.oldError != Some(o.error) {
      var effects: seq<Effect<E>> := [Alert(o.error), LogError(o.error)];
      assert effects[..1] == [Alert(o.error)];
      assert [Alert(o.error)][..0] == [];
      assert Alerts(effects[..1]) == [o.error];
    }
  }

  /**
   * Over any run, the operator is alerted of exactly the raised errors with
   * consecutive repeats removed (successes in between do not reset
   * `old_error`), and `old_error` ends as the last error raised.
   */
  lemma {:induction false} AlertsCollapseFailures<E>(s: State<E>, trace: seq<Outcome<E>>)
    ensures Alerts(Replay(s, trace).1) == Collapse(s.oldError, Failures(trace))
    ensures Replay(s, trace).0.oldError == LastOf(s.oldError, Failures(trace))
    decreases |trace|
  {
    if trace != [] {
      var init := trace[..|trace| - 1];
      var o := trace[|trace| - 1];
      var before := Replay(s, init);
      AlertsCollapseFailures(s, init);
      AlertsAppend(before.1, Transition(before.0, o).1);
      TransitionAlerts(before.0, o);
      var fs := Failures(trace);
      if o.Raised? {
        assert fs[..|fs| - 1] == Failures(init);
      } else {
        assert fs == Failures(init);
      }
    }
  }

  /** Over any run, the cursor ends at the `current_date` of the last successful cycle. */
  lemma {:induction false} CursorFollowsLastDate<E>(s: State<E>, trace: seq<Outcome<E>>)
    ensures Replay(s, trace).0.cursor == LastDate(s.cursor, trace)
    decreases |trace|
  {
    if trace != [] {
      CursorFollowsLastDate(s, trace[..|trace| - 1]);
    }
  }

  lemma {:induction false} CollapseRepeated<E>(prev: Option<E>, xs: seq<E>, e: E)
    requires forall k | 0 <= k < |xs| :: xs[k] == e
    ensures Collapse(prev, xs) == if xs == [] || prev == Some(e) then [] else [e]
    decreases |xs|
  {
    if xs != [] {
      CollapseRepeated(prev, xs[..|xs| - 1], e);
    }
  }

  /**
   * When every failure of a run is the same error, the operator hears of it
   * at most once, and not at all when it was already the last one reported.
   */
  lemma SameErrorAlertsAtMostOnce<E>(s: State<E>, trace: seq<Outcome<E>>, e: E)
    requires forall k | 0 <= k < |trace| :: trace[k].Raised? ==> trace[k].error == e
    ensures |Alerts(Replay(s, trace).1)| <= 1
    ensures s.oldError == Some(e) ==> Alerts(Replay(s, trace).1) == []
  {
    AlertsCollapseFailures(s, trace);
    FailuresFrom(trace, e);
    CollapseRepeated(s.oldError, Failures(trace), e);
  }

  lemma {:induction false} FailuresFrom<E>(trace: seq<Outcome<E>>, e: E)
    requires forall k | 0 <= k < |trace| :: trace[k].Raised? ==> trace[k].error == e
    ensures forall k | 0 <= k < |Failures(trace)| :: Failures(trace)[k] == e
    decreases |trace|
  {
    if trace != [] {
      FailuresFrom(trace[..|trace| - 1], e);
    }
  }

  /** All elements pairwise different. */
  predicate Distinct<E(==)>(xs: seq<E>)
  {
    forall i, j | 0 <= i < j < |xs| :: xs[i] != xs[j]
  }

  lemma {:induction false} CollapseDistinct<E>(prev: Option<E>, xs: seq<E>)
    requires Distinct(xs)
    requires forall k | 0 <= k < |xs| :: prev != Some(xs[k])
    ensures Collapse(prev, xs) == xs
    decreases |xs|
  {
    if xs != [] {
      var init := xs[..|xs| - 1];
      CollapseDistinct(prev, init);
      assert init == [] ==> LastOf(prev, init) == prev;
      assert init != [] ==> LastOf(prev, init) == Some(xs[|xs| - 2]);
    }
  }

  /**
   * When no two failures of a run are equal, and none equals the error
   * reported before it, every failure alerts the operator.
   */
  lemma DistinctErrorsAllAlert<E>(s: State<E>, trace: seq<Outcome<E>>)
    requires Distinct(Failures(trace))
    requires forall k | 0 <= k < |Failures(trace)| :: s.oldError != Some(Failures(trace)[k])
    ensures Alerts(Replay(s, trace).1) == Failures(trace)
  {
    AlertsCollapseFailures(s, trace);
    CollapseDistinct(s.oldError, Failures(trace));
  }

  /** The poll loop's live state, updated in place once per cycle. */
  class Poller<E(==)> {
    var cursor: Value
    var oldError: Option<E>

    function Snapshot(): State<E>
      reads this
    {
      State(cursor, oldError)
    }

    /** Start-up: `current_time = int(time.time())`, `old_error = None`. */
    constructor (now: int)
      ensures cursor == JInt(now) && oldError == None
    {
      cursor := JInt(now);
      oldError := None;
    }

    /** One pass of the loop body after the `try` block ended with `o`. */
    method Step(o: Outcome<E>) returns (effects: seq<Effect<E>>)
      modifies this
      ensures (Snapshot(), effects) == Transition(old(Snapshot()), o)
    {
      match o {
        case Advanced(date, notices) =>
          effects := Notifications(notices);
          cursor := date;
        case Raised(error) =>
          if Some(error) != oldError {
            oldError := Some(error);
            effects := [Alert(error), LogError(error)];
          } else {
            effects := [LogError(error)];
          }
      }
    }

    /** The loop run for as many cycles as `trace` holds. */
    method Run(trace: seq<Outcome<E>>) returns (effects: seq<Effect<E>>)
      modifies this
      ensures (Snapshot(), effects) == Replay(old(Snapshot()), trace)
    {
      effects := [];
      var i := 0;
      while i < |trace|
        invariant 0 <= i <= |trace|
        invariant (Snapshot(), effects) == Replay(old(Snapshot()), trace[..i])
      {
        assert trace[..i + 1][..i] == trace[..i];
        var more := Step(trace[i]);
        effects := effects + more;
        i := i + 1;
      }
      assert trace[..|trace|] == trace;
    }
  }
}
