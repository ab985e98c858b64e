/** Whether the audit log shows a notification failure nobody has made good. */
module AuditLog {
  import opened Prelude

  datatype Action = Sent | Failed | Other

  /** An audit entry; a time that cannot be read compares with nothing, and an
      empty template key is none. */
  datatype Entry = Entry(action: Action, createdAt: Option<int>, templateKey: Option<string>)

  function Template(e: Entry): Option<string> {
    if e.templateKey == Some("") then None else e.templateKey
  }

  predicate IsLater(a: Option<int>, b: Option<int>) {
    a.Some? && b.Some? && a.value > b.value
  }

  /** A later success resolves a failure of the same template, or of any when
      either names none. */
  predicate Resolves(success: Entry, failure: Entry) {
    && IsLater(success.createdAt, failure.createdAt)
    && (Template(success).Some? && Template(failure).Some? ==> Template(success) == Template(failure))
  }

  predicate Resolved(log: seq<Entry>, failure: Entry) {
    exists s :: s in log && s.action == Sent && Resolves(s, failure)
  }

  /** `notificationFailureDetected`; `None` for a log that is not a list. */
  predicate Detected(auditLog: Option<seq<Entry>>) {
    auditLog.Some? && exists f :: f in auditLog.value && f.action == Failed && !Resolved(auditLog.value, f)
  }

  /** The two entries may be about the same message: they name the same template, or
      one of them names none. */
  predicate MayMatch(a: Entry, b: Entry) {
    || a.templateKey == None || a.templateKey == Some("") || b.templateKey == None || b.templateKey == Some("")
    || a.templateKey == b.templateKey
  }

  /** The banner shows exactly for a failure that nothing sent at a later time may
      have made good; one whose time cannot be read nothing can. */
  lemma DetectedExactly(log: seq<Entry>)
    ensures Detected(Some(log))
            <==> exists f :: f in log && f.action == Failed
                             && forall s :: s in log && s.action == Sent && s.createdAt.Some? && MayMatch(s, f) ==>
                                              f.createdAt.None? || s.createdAt.value <= f.createdAt.value
    ensures !Detected(None)
  {
    forall f: Entry
      ensures Resolved(log, f)
              <==> exists s :: s in log && s.action == Sent && s.createdAt.Some? && MayMatch(s, f)
                               && f.createdAt.Some? && s.createdAt.value > f.createdAt.value
    {
    }
  }

  // ---- The entries' order does not matter ----

  /** The answer depends only on which entries there are. */
  lemma OrderDoesNotMatter(a: seq<Entry>, b: seq<Entry>)
    requires multiset(a) == multiset(b)
    ensures Detected(Some(a)) <==> Detected(Some(b))
  {
    forall e ensures e in a <==> e in b {
      assert e in a <==> e in multiset(a);
      assert e in b <==> e in multiset(b);
    }
  }

  /** A sent entry can only switch the banner off, a failed one only on, and any
      other entry does nothing. */
  lemma AddingEntries(log: seq<Entry>, e: Entry)
    ensures e.action == Sent && Detected(Some(log + [e])) ==> Detected(Some(log))
    ensures e.action == Failed && Detected(Some(log)) ==> Detected(Some(log + [e]))
    ensures e.action == Other ==> (Detected(Some(log + [e])) <==> Detected(Some(log)))
  {
    var longer := log + [e];
    assert forall x :: x in longer <==> x in log || x == e;
    forall f | e.action != Sent ensures Resolved(longer, f) <==> Resolved(log, f) {
    }
    forall f | e.action == Sent && Resolved(log, f) ensures Resolved(longer, f) {
    }
  }

  // ---- One pass ----

  /** What one pass keeps: the latest times a template, no template, and anything
      at all was sent, and the latest time each failed. */
  datatype Summary = Summary(
    sentFor: map<string, int>,
    sentPlain: Option<int>,
    sentAny: Option<int>,
    failedFor: map<string, int>,
    failedPlain: Option<int>,
    undatedFailure: bool)

  const NOTHING := Summary(map[], None, None, map[], None, false)

  function Latest(a: Option<int>, t: int): Option<int> {
    if a.Some? && a.value >= t then a else Some(t)
  }

  function At(m: map<string, int>, k: string): Option<int> {
    if k in m then Some(m[k]) else None
  }

  function Put(m: map<string, int>, k: string, t: int): map<string, int> {
    m[k := Latest(At(m, k), t).value]
  }

  function Note(s: Summary, e: Entry): Summary {
    match e.action
    case Other => s
    case Sent =>
      if e.createdAt.None? then s
      else
        var t := e.createdAt.value;
        var any := s.(sentAny := Latest(s.sentAny, t));
        if Template(e).Some? then any.(sentFor := Put(s.sentFor, Template(e).value, t))
        else any.(sentPlain := Latest(s.sentPlain, t))
    case Failed =>
      if e.createdAt.None? then s.(undatedFailure := true)
      else if Template(e).Some? then s.(failedFor := Put(s.failedFor, Template(e).value, e.createdAt.value))
      else s.(failedPlain := Latest(s.failedPlain, e.createdAt.value))
  }

  function Summarise(log: seq<Entry>): Summary {
    if log == [] then NOTHING else Note(Summarise(log[..|log| - 1]), log[|log| - 1])
  }

  /** Is the latest failure of a template still open? */
  predicate OpenFor(s: Summary, k: string) {
    k in s.failedFor && !IsLater(At(s.sentFor, k), Some(s.failedFor[k])) && !IsLater(s.sentPlain, Some(s.failedFor[k]))
  }

  predicate OpenPlain(s: Summary) {
    s.failedPlain.Some? && !IsLater(s.sentAny, s.failedPlain)
  }

  ghost predicate ShowsFailure(s: Summary) {
    s.undatedFailure || OpenPlain(s) || exists k :: OpenFor(s, k)
  }

  /** One pass over the log, then one look at each failed template. */
  method OnePass(log: seq<Entry>) returns (detected: bool)
    ensures detected <==> Detected(Some(log))
  {
    var s := NOTHING;
    for i := 0 to |log|
      invariant s == Summarise(log[..i])
    {
      assert log[..i + 1][..i] == log[..i];
      s := Note(s, log[i]);
    }
    assert log[..|log|] == log;
    SummaryShowsExactly(log);
    if s.undatedFailure || OpenPlain(s) {
      return true;
    }
    var keys := s.failedFor.Keys;
    while keys != {}
      invariant keys <= s.failedFor.Keys
      invariant forall k :: k in s.failedFor && k !in keys ==> !OpenFor(s, k)
      decreases |keys|
    {
      var k :| k in keys;
      if OpenFor(s, k) {
        return true;
      }
      keys := keys - {k};
    }
    return false;
  }

  /** Which entries a kept time is about. */
  datatype Scope = AnyTemplate(action: Action) | OnTemplate(action: Action, template: Option<string>)

  predicate InScope(e: Entry, c: Scope) {
    e.action == c.action && (c.OnTemplate? ==> Template(e) == c.template)
  }

  /** `t` is the greatest time among the dated entries in scope. */
  ghost predicate IsGreatest(log: seq<Entry>, t: Option<int>, c: Scope) {
    && (t.Some? ==> exists i :: 0 <= i < |log| && InScope(log[i], c) && log[i].createdAt == t)
    && (forall i :: 0 <= i < |log| && InScope(log[i], c) && log[i].createdAt.Some? ==>
                      t.Some? && log[i].createdAt.value <= t.value)
  }

  ghost predicate Describes(s: Summary, log: seq<Entry>) {
    && (forall k :: IsGreatest(log, At(s.sentFor, k), OnTemplate(Sent, Some(k))))
    && IsGreatest(log, s.sentPlain, OnTemplate(Sent, None))
    && IsGreatest(log, s.sentAny, AnyTemplate(Sent))
    && (forall k :: IsGreatest(log, At(s.failedFor, k), OnTemplate(Failed, Some(k))))
    && IsGreatest(log, s.failedPlain, OnTemplate(Failed, None))
    && (s.undatedFailure <==> exists i :: 0 <= i < |log| && log[i].action == Failed && log[i].createdAt == None)
  }

  lemma GreatestGrows(log: seq<Entry>, e: Entry, t: Option<int>, c: Scope)
    requires IsGreatest(log, t, c)
    ensures IsGreatest(log + [e], if InScope(e, c) && e.createdAt.Some? then Latest(t, e.createdAt.value) else t, c)
  {
    var longer := log + [e];
    var t' := if InScope(e, c) && e.createdAt.Some? then Latest(t, e.createdAt.value) else t;
    if t'.Some? {
      if t' == t {
        var i :| 0 <= i < |log| && InScope(log[i], c) && log[i].createdAt == t;
        assert longer[i] == log[i];
      } else {
        assert longer[|log|] == e;
      }
    }
  }

  lemma NoteAt(s: Summary, e: Entry, k: string)
    ensures At(Note(s, e).sentFor, k)
            == if e.action == Sent && Template(e) == Some(k) && e.createdAt.Some?
               then Latest(At(s.sentFor, k), e.createdAt.value) else At(s.sentFor, k)
    ensures At(Note(s, e).failedFor, k)
            == if e.action == Failed && Template(e) == Some(k) && e.createdAt.Some?
               then Latest(At(s.failedFor, k), e.createdAt.value) else At(s.failedFor, k)
  {
  }

  lemma NoteDescribes(s: Summary, log: seq<Entry>, e: Entry)
    requires Describes(s, log)
    ensures Describes(Note(s, e), log + [e])
  {
    var longer := log + [e];
    forall k
      ensures IsGreatest(longer, At(Note(s, e).sentFor, k), OnTemplate(Sent, Some(k)))
      ensures IsGreatest(longer, At(Note(s, e).failedFor, k), OnTemplate(Failed, Some(k)))
    {
      NoteAt(s, e, k);
      GreatestGrows(log, e, At(s.sentFor, k), OnTemplate(Sent, Some(k)));
      GreatestGrows(log, e, At(s.failedFor, k), OnTemplate(Failed, Some(k)));
    }
    hide IsGreatest;
    GreatestGrows(log, e, s.sentPlain, OnTemplate(Sent, None));
    GreatestGrows(log, e, s.sentAny, AnyTemplate(Sent));
    GreatestGrows(log, e, s.failedPlain, OnTemplate(Failed, None));
    UndatedGrows(log, e);
    hide Latest, At, Put;
  }

  lemma {:induction false} SummaryDescribes(log: seq<Entry>)
    ensures Describes(Summarise(log), log)
  {
    if log != [] {
      var n := |log| - 1;
      hide Describes, Note;
      SummaryDescribes(log[..n]);
      NoteDescribes(Summarise(log[..n]), log[..n], log[n]);
      assert log == log[..n] + [log[n]];
    }
  }

  lemma UndatedGrows(log: seq<Entry>, e: Entry)
    ensures (exists i :: 0 <= i < |log + [e]| && (log + [e])[i].action == Failed && (log + [e])[i].createdAt == None)
            <==> (e.action == Failed && e.createdAt == None)
                 || exists i :: 0 <= i < |log| && log[i].action == Failed && log[i].createdAt == None
  {
    var longer := log + [e];
    if i :| 0 <= i < |log| && log[i].action == Failed && log[i].createdAt == None {
      assert longer[i].action == Failed && longer[i].createdAt == None;
    }
    if e.action == Failed && e.createdAt == None {
      assert longer[|log|].action == Failed && longer[|log|].createdAt == None;
    }
  }

  /** A dated failure of a template is resolved exactly when its own template or
      none was sent later; one without a template when anything was. */
  lemma ResolvedBySummary(s: Summary, log: seq<Entry>, f: Entry)
    requires Describes(s, log) && f.createdAt.Some?
    ensures Template(f).Some? ==>
              (Resolved(log, f)
               <==> IsLater(At(s.sentFor, Template(f).value), f.createdAt) || IsLater(s.sentPlain, f.createdAt))
    ensures Template(f).None? ==> (Resolved(log, f) <==> IsLater(s.sentAny, f.createdAt))
  {
    if Template(f).Some? {
      assert IsGreatest(log, At(s.sentFor, Template(f).value), OnTemplate(Sent, Some(Template(f).value)));
    }
  }

  /** The summary answers as the log does. */
  lemma SummaryShowsExactly(log: seq<Entry>)
    ensures ShowsFailure(Summarise(log)) <==> Detected(Some(log))
  {
    var s := Summarise(log);
    SummaryDescribes(log);
    if ShowsFailure(s) {
      ShownIsDetected(s, log);
    }
    if Detected(Some(log)) {
      DetectedIsShown(s, log);
    }
  }

  lemma ShownIsDetected(s: Summary, log: seq<Entry>)
    requires Describes(s, log) && ShowsFailure(s)
    ensures Detected(Some(log))
  {
    if s.undatedFailure {
      var i :| 0 <= i < |log| && log[i].action == Failed && log[i].createdAt == None;
      assert log[i] in log && !Resolved(log, log[i]);
    } else if OpenPlain(s) {
      var i :| 0 <= i < |log| && log[i].action == Failed && Template(log[i]) == None && log[i].createdAt == s.failedPlain;
      ResolvedBySummary(s, log, log[i]);
      assert log[i] in log;
    } else {
      var k :| OpenFor(s, k);
      assert IsGreatest(log, At(s.failedFor, k), OnTemplate(Failed, Some(k)));
      var i :| 0 <= i < |log| && log[i].action == Failed && Template(log[i]) == Some(k)
               && log[i].createdAt == At(s.failedFor, k);
      ResolvedBySummary(s, log, log[i]);
      assert log[i] in log;
    }
  }

  lemma DetectedIsShown(s: Summary, log: seq<Entry>)
    requires Describes(s, log) && Detected(Some(log))
    ensures ShowsFailure(s)
  {
    var f :| f in log && f.action == Failed && !Resolved(log, f);
    var i :| 0 <= i < |log| && log[i] == f;
    if f.createdAt.Some? {
      ResolvedBySummary(s, log, f);
      if Template(f).Some? {
        var k := Template(f).value;
        assert IsGreatest(log, At(s.failedFor, k), OnTemplate(Failed, Some(k)));
        assert OpenFor(s, k);
      } else {
        assert OpenPlain(s);
      }
    }
  }
}
