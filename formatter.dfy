/**
 * `parse_status`: turns one submission record into the notification text,
 * and `ReadNotice`, which reads the name and the status back out of such a text.
 */
module Formatter {
  import opened Wrappers
  import opened Json
  import opened Exceptions
  import opened Statuses

  const PREFIX := "Изменился статус проверки работы \""
  const SEPARATOR := "\". "

  /** The notification template: the quoted name, then the catalog text. */
  function Notice(name: string, verdict: string): string
  {
    PREFIX + name + SEPARATOR + verdict
  }

  /**
   * `parse_status(homework)`: the name is looked up and checked first, then
   * the status; a status that is present but not in the catalog fails at the
   * dictionary lookup itself, with KeyError (or TypeError for a list or dict).
   */
  ghost function ParseStatus(homework: Value): (r: Result<string, PyError>)
    ensures !homework.JObj? ==> r == Failure(AttributeError(TypeName(homework)))
    ensures homework.JObj? && Get(homework.fields, "homework_name") == JNull ==>
      r == Failure(NegativeError(NO_NAME))
    ensures (homework.JObj? && Get(homework.fields, "homework_name") != JNull
             && Get(homework.fields, "status") == JNull) ==> r == Failure(NegativeError(NO_STATUS))
    ensures r.Success? <==>
      && homework.JObj?
      && Get(homework.fields, "homework_name") != JNull
      && Get(homework.fields, "status").JStr?
      && Get(homework.fields, "status").s in HOMEWORK_STATUSES
    ensures r.Success? ==>
      r.value == Notice(Display(Get(homework.fields, "homework_name")),
                        HOMEWORK_STATUSES[Get(homework.fields, "status").s])
    ensures (&& homework.JObj?
             && Get(homework.fields, "homework_name") != JNull
             && Get(homework.fields, "status") != JNull
             && !(Get(homework.fields, "status").JStr? && Get(homework.fields, "status").s in HOMEWORK_STATUSES)) ==>
      r == Failure(if Hashable(Get(homework.fields, "status"))
                   then KeyError(Get(homework.fields, "status"))
                   else TypeError(TypeName(Get(homework.fields, "status"))))
  {
    if !homework.JObj? then Failure(NoGet(homework))
    else
      var name := Get(homework.fields, "homework_name");
      if name == JNull then Failure(NegativeError(NO_NAME))
      else
        var status := Get(homework.fields, "status");
        if status == JNull then Failure(NegativeError(NO_STATUS))
        else if !Hashable(status) then Failure(TypeError(TypeName(status)))
        else if !status.JStr? || status.s !in HOMEWORK_STATUSES then Failure(KeyError(status))
        else Success(Notice(Display(name), HOMEWORK_STATUSES[status.s]))
  }

  /** The tail of a notice for the given status. */
  function Tail(status: string): string
    requires status in HOMEWORK_STATUSES
  {
    SEPARATOR + HOMEWORK_STATUSES[status]
  }

  predicate EndsWith(text: string, tail: string)
  {
    |tail| <= |text| && text[|text| - |tail|..] == tail
  }

  /**
   * The inverse of the template: the name and the status a notice was made
   * from, trying the statuses in catalog order; None when the text is no notice.
   */
  function ReadNotice(text: string): (r: Option<(string, string)>)
    ensures r.Some? ==> (r.value.1 in HOMEWORK_STATUSES
                         && text == Notice(r.value.0, HOMEWORK_STATUSES[r.value.1]))
  {
    ReadNoticeAs(text, STATUS_KEYS)
  }

  function ReadNoticeAs(text: string, keys: seq<string>): (r: Option<(string, string)>)
    requires forall k | 0 <= k < |keys| :: keys[k] in HOMEWORK_STATUSES
    ensures r.Some? ==> (r.value.1 in keys && r.value.1 in HOMEWORK_STATUSES
                         && text == Notice(r.value.0, HOMEWORK_STATUSES[r.value.1]))
  {
    if keys == [] then None
    else
      var tail := Tail(keys[0]);
      if |PREFIX| + |tail| <= |text| && text[..|PREFIX|] == PREFIX && EndsWith(text, tail) then
        SplitAround(text, PREFIX, tail);
        Some((text[|PREFIX|..|text| - |tail|], keys[0]))
      else ReadNoticeAs(text, keys[1..])
  }

  /** A text that starts with head and ends with tail is head, the middle, and tail. */
  lemma SplitAround(text: string, head: string, tail: string)
    requires |head| + |tail| <= |text| && text[..|head|] == head && EndsWith(text, tail)
    ensures text == head + text[|head|..|text| - |tail|] + tail
  {
    assert text == text[..|head|] + text[|head|..|text| - |tail|] + text[|text| - |tail|..];
  }

  /** Two texts that end with tails a and b, a no longer than b: b itself ends with a. */
  lemma EndsWithBoth(text: string, a: string, b: string)
    requires EndsWith(text, a) && EndsWith(text, b) && |a| <= |b|
    ensures EndsWith(b, a)
  {
    assert b[|b| - |a|..] == text[|text| - |a|..];
  }

  /** The last two characters of a text. */
  function LastTwo(text: string): string
    requires |text| >= 2
  {
    text[|text| - 2..]
  }

  /** The catalog texts end in three different pairs of characters. */
  lemma TailEndings(status: string)
    requires status in HOMEWORK_STATUSES
    ensures |Tail(status)| >= 2
    ensures LastTwo(Tail(status)) == (if status == "approved" then "а!"
                                      else if status == "reviewing" then "м."
                                      else "и.")
  {
    Statuses.CatalogIsFixed();
  }

  /** No status's tail ends with another status's tail. */
  lemma TailsAreSuffixFree(a: string, b: string)
    requires a in HOMEWORK_STATUSES && b in HOMEWORK_STATUSES && a != b
    ensures !EndsWith(Tail(b), Tail(a))
  {
    TailEndings(a);
    TailEndings(b);
    EndsWithKeepsLastTwo(Tail(b), Tail(a));
  }

  lemma EndsWithKeepsLastTwo(text: string, tail: string)
    requires |tail| >= 2
    ensures EndsWith(text, tail) ==> |text| >= 2 && LastTwo(text) == LastTwo(tail)
  {
    if EndsWith(text, tail) {
      assert text[|text| - |tail|..][|tail| - 2..] == text[|text| - 2..];
    }
  }

  /** A notice ends with its own status's tail and with no other's. */
  lemma NoticeTailIs(name: string, status: string, other: string)
    requires status in HOMEWORK_STATUSES && other in HOMEWORK_STATUSES
    ensures EndsWith(Notice(name, HOMEWORK_STATUSES[status]), Tail(other)) <==> other == status
  {
    var text := Notice(name, HOMEWORK_STATUSES[status]);
    assert text == (PREFIX + name) + Tail(status);
    assert EndsWith(text, Tail(status));
    if other != status && EndsWith(text, Tail(other)) {
      if |Tail(other)| <= |Tail(status)| {
        EndsWithBoth(text, Tail(other), Tail(status));
        TailsAreSuffixFree(other, status);
      } else {
        EndsWithBoth(text, Tail(status), Tail(other));
        TailsAreSuffixFree(status, other);
      }
    }
  }

  /** Scanning statuses that include the notice's own finds it, with the notice's name. */
  lemma {:induction false} ReadNoticeAsFinds(name: string, status: string, keys: seq<string>)
    requires forall k | 0 <= k < |keys| :: keys[k] in HOMEWORK_STATUSES
    requires status in keys
    ensures ReadNoticeAs(Notice(name, HOMEWORK_STATUSES[status]), keys) == Some((name, status))
  {
    var text := Notice(name, HOMEWORK_STATUSES[status]);
    NoticeTailIs(name, status, keys[0]);
    if keys[0] == status {
      assert text == PREFIX + name + Tail(status);
      assert text[..|PREFIX|] == PREFIX;
      assert text[|PREFIX|..|text| - |Tail(status)|] == name;
    } else {
      ReadNoticeAsFinds(name, status, keys[1..]);
    }
  }

  /** Round trip: reading a notice gives back the name and the status it was made from. */
  lemma ReadNoticeInverts(name: string, status: string)
    requires status in HOMEWORK_STATUSES
    ensures ReadNotice(Notice(name, HOMEWORK_STATUSES[status])) == Some((name, status))
  {
    Statuses.CatalogIsFixed();
    ReadNoticeAsFinds(name, status, STATUS_KEYS);
  }

  /** The notice of a well-formed record names the work and carries the catalog text of its status. */
  lemma NoticeMentions(homework: Value)
    requires ParseStatus(homework).Success?
    ensures var name := Display(Get(homework.fields, "homework_name"));
      var text := ParseStatus(homework).value;
      && text[|PREFIX|..|PREFIX| + |name|] == name
      && EndsWith(text, HOMEWORK_STATUSES[Get(homework.fields, "status").s])
      && ReadNotice(text) == Some((name, Get(homework.fields, "status").s))
  {
    var name := Display(Get(homework.fields, "homework_name"));
    var status := Get(homework.fields, "status").s;
    ReadNoticeInverts(name, status);
    var text := ParseStatus(homework).value;
    assert text == PREFIX + name + SEPARATOR + HOMEWORK_STATUSES[status];
  }
}
