/** Overlapping requests of one session. A request loads the session's keys when it
    starts and, if it has written any, commits all of them when it ends, so the
    last commit wins. What that does to the dismissed-for mark and the info
    note. */
module SessionCommits {
  import opened Prelude
  import opened ConcurrentLogin

  datatype Keys = Keys(mark: int, info: Option<int>)

  /** What a committing request has done to the two keys: dismissed the notice
      against a login (`DismissedAgainst`), or written something else. */
  datatype Write = Dismissal(against: int) | OtherWrite

  datatype Event = Load(r: nat) | Commit(r: nat, write: Write)

  function Written(loaded: Keys, write: Write): Keys {
    match write
    case Dismissal(against) => Keys(Max(loaded.mark, against), None)
    case OtherWrite => loaded
  }

  /** The committed keys, and what each open request has loaded. */
  datatype State = State(committed: Keys, open: map<nat, Keys>)

  predicate CanHappen(s: State, e: Event) {
    match e
    case Load(r) => r !in s.open
    case Commit(r, _) => r in s.open
  }

  function After(s: State, e: Event): State
    requires CanHappen(s, e)
  {
    match e
    case Load(r) => s.(open := s.open[r := s.committed])
    case Commit(r, write) => State(Written(s.open[r], write), s.open - {r})
  }

  ghost predicate IsRun(ss: seq<State>, es: seq<Event>) {
    && |ss| == |es| + 1 && ss[0].open == map[]
    && forall i :: 0 <= i < |es| ==> CanHappen(ss[i], es[i]) && ss[i + 1] == After(ss[i], es[i])
  }

  ghost predicate MarkNeverFalls(ss: seq<State>) {
    forall n :: 0 <= n < |ss| - 1 ==> ss[n].committed.mark <= ss[n + 1].committed.mark
  }

  /** Request `es[j].r` was open, loaded at `i`, while another committed at `k`. */
  ghost predicate Overlap(es: seq<Event>, i: int, k: int, j: int) {
    && 0 <= i < k < j < |es|
    && es[j].Commit? && es[i] == Load(es[j].r) && es[k].Commit?
    && forall m :: i < m < j ==> es[m].r != es[j].r
  }

  lemma {:induction false} LoadedAt(ss: seq<State>, es: seq<Event>, n: nat, r: nat) returns (i: nat)
    requires IsRun(ss, es) && n < |ss| && r in ss[n].open
    ensures i < n && es[i] == Load(r) && ss[n].open[r] == ss[i].committed
    ensures forall m :: i < m < n ==> es[m].r != r
  {
    if es[n - 1] == Load(r) {
      i := n - 1;
    } else {
      i := LoadedAt(ss, es, n - 1, r);
    }
  }

  lemma {:induction false} MarkGrows(ss: seq<State>, a: nat, b: nat)
    requires MarkNeverFalls(ss) && a <= b < |ss|
    ensures ss[a].committed.mark <= ss[b].committed.mark
    decreases b
  {
    if a < b {
      MarkGrows(ss, a, b - 1);
    }
  }

  /** The mark that the dismissals committed before `n` would leave one at a time. */
  function Highest(mark: int, es: seq<Event>, n: nat): int
    requires n <= |es|
  {
    if n == 0 then mark
    else
      var before := Highest(mark, es, n - 1);
      if es[n - 1].Commit? && es[n - 1].write.Dismissal? then Max(before, es[n - 1].write.against) else before
  }

  /** A dismissal against a login later than any dismissed before `i`. */
  predicate IsNewsTo(mark: int, es: seq<Event>, i: nat, k: nat)
    requires i <= |es| && k < |es|
  {
    es[k].Commit? && es[k].write.Dismissal? && es[k].write.against > Highest(mark, es, i)
  }

  /** Whenever a request dismisses what is news to one that is open, that one
      dismisses against a login at least as late. */
  ghost predicate NewsIsKept(mark: int, es: seq<Event>) {
    forall i, k, j :: Overlap(es, i, k, j) && IsNewsTo(mark, es, i, k) ==>
                        es[j].write.Dismissal? && es[j].write.against >= es[k].write.against
  }

  lemma {:induction false} HighestGrows(mark: int, es: seq<Event>, a: nat, b: nat)
    requires a <= b <= |es|
    ensures Highest(mark, es, a) <= Highest(mark, es, b)
    decreases b
  {
    if a < b {
      HighestGrows(mark, es, a, b - 1);
    }
  }

  /** If it has risen since `i`, a dismissal since then has raised it there. */
  lemma {:induction false} RaisedBy(mark: int, es: seq<Event>, i: nat, n: nat) returns (k: nat)
    requires i <= n <= |es| && Highest(mark, es, i) < Highest(mark, es, n)
    ensures i <= k < n && IsNewsTo(mark, es, i, k) && es[k].write.against == Highest(mark, es, n)
    decreases n
  {
    if Highest(mark, es, n - 1) == Highest(mark, es, n) {
      k := RaisedBy(mark, es, i, n - 1);
    } else {
      HighestGrows(mark, es, i, n - 1);
      k := n - 1;
    }
  }

  lemma {:induction false} KeptMarkIsHighest(ss: seq<State>, es: seq<Event>, n: nat)
    requires IsRun(ss, es) && n < |ss| && NewsIsKept(ss[0].committed.mark, es)
    ensures forall m :: 0 <= m <= n ==> ss[m].committed.mark == Highest(ss[0].committed.mark, es, m)
  {
    if n > 0 {
      KeptMarkIsHighest(ss, es, n - 1);
      if es[n - 1].Commit? {
        var mark := ss[0].committed.mark;
        var i := LoadedAt(ss, es, n - 1, es[n - 1].r);
        HighestGrows(mark, es, i, n - 1);
        if Highest(mark, es, i) < Highest(mark, es, n - 1) {
          var k := RaisedBy(mark, es, i, n - 1);
          assert es[i].Load?;
          assert Overlap(es, i, k, n - 1);
        }
      }
    }
  }

  lemma {:induction false} GrowingMarkIsHighest(ss: seq<State>, es: seq<Event>, n: nat)
    requires IsRun(ss, es) && n < |ss| && MarkNeverFalls(ss)
    ensures ss[n].committed.mark == Highest(ss[0].committed.mark, es, n)
  {
    if n > 0 {
      GrowingMarkIsHighest(ss, es, n - 1);
      if es[n - 1].Commit? {
        var i := LoadedAt(ss, es, n - 1, es[n - 1].r);
        MarkGrows(ss, i, n - 1);
      }
    }
  }

  lemma GrowingKeepsNews(ss: seq<State>, es: seq<Event>, i: nat, k: nat, j: nat)
    requires IsRun(ss, es) && MarkNeverFalls(ss)
    requires Overlap(es, i, k, j) && IsNewsTo(ss[0].committed.mark, es, i, k)
    ensures es[j].write.Dismissal? && es[j].write.against >= es[k].write.against
  {
    var at := LoadedAt(ss, es, j, es[j].r);
    assert at == i;
    GrowingMarkIsHighest(ss, es, i);
    GrowingMarkIsHighest(ss, es, k + 1);
    MarkGrows(ss, k + 1, j + 1);
  }

  /** In every run of a session's requests, however many overlap, the mark never
      falls exactly when it is always what the dismissals one at a time would
      leave; and exactly when every request that commits while it has missed news
      dismisses against a login at least as late, which is a matter of what the
      requests write and when they load. */
  lemma NeverFallsExactly(ss: seq<State>, es: seq<Event>)
    requires IsRun(ss, es)
    ensures MarkNeverFalls(ss) <==> NewsIsKept(ss[0].committed.mark, es)
    ensures MarkNeverFalls(ss)
            <==> forall n :: 0 <= n < |ss| ==> ss[n].committed.mark == Highest(ss[0].committed.mark, es, n)
  {
    var mark := ss[0].committed.mark;
    if MarkNeverFalls(ss) {
      forall n | 0 <= n < |ss| ensures ss[n].committed.mark == Highest(mark, es, n) {
        GrowingMarkIsHighest(ss, es, n);
      }
      forall i, k, j | Overlap(es, i, k, j) && IsNewsTo(mark, es, i, k)
        ensures es[j].write.Dismissal? && es[j].write.against >= es[k].write.against
      {
        GrowingKeepsNews(ss, es, i, k, j);
      }
    }
    if NewsIsKept(mark, es) {
      KeptMarkIsHighest(ss, es, |es|);
    }
    if forall n :: 0 <= n < |ss| ==> ss[n].committed.mark == Highest(mark, es, n) {
      forall n | 0 <= n < |ss| - 1 ensures ss[n].committed.mark <= ss[n + 1].committed.mark {
        HighestGrows(mark, es, n, n + 1);
      }
    }
  }

  /** With no two requests of the session open at once, it never falls. */
  lemma OneAtATimeNeverFalls(ss: seq<State>, es: seq<Event>)
    requires IsRun(ss, es) && forall i, k, j :: !Overlap(es, i, k, j)
    ensures MarkNeverFalls(ss)
  {
    NeverFallsExactly(ss, es);
  }

  /** Two requests loaded from the same keys. */
  function BothCommitted(s: State, a: nat, first: Write, b: nat, second: Write): State
    requires a != b && a !in s.open && b !in s.open
  {
    After(After(After(After(s, Load(a)), Load(b)), Commit(a, first)), Commit(b, second))
  }

  /** Of two overlapping requests, the second commit keeps what the first wrote to
      the mark exactly when the first did not raise it, or the second is a
      dismissal against a login at least as late. */
  lemma TwoOverlappingExactly(s: State, a: nat, first: Write, b: nat, second: Write)
    requires a != b && a !in s.open && b !in s.open
    ensures Written(s.committed, first).mark <= BothCommitted(s, a, first, b, second).committed.mark
            <==> || first.OtherWrite? || first.against <= s.committed.mark
                 || (second.Dismissal? && second.against >= first.against)
  {
  }

  /** In every run, any other write that commits after a dismissal it overlaps
      puts both keys back as they were when its request loaded them, so the mark
      has fallen if the dismissal was news. */
  lemma OtherWriteUndoesDismissal(ss: seq<State>, es: seq<Event>, i: nat, k: nat, j: nat)
    requires IsRun(ss, es) && Overlap(es, i, k, j) && es[j].write.OtherWrite? && es[k].write.Dismissal?
    ensures ss[j + 1].committed == ss[i].committed
    ensures IsNewsTo(ss[0].committed.mark, es, i, k) ==> !MarkNeverFalls(ss)
  {
    var at := LoadedAt(ss, es, j, es[j].r);
    assert at == i;
    NeverFallsExactly(ss, es);
  }

  /** If every request that commits has dismissed the notice, against logins in the
      order of the commits, the mark never falls. */
  lemma InOrderNeverFalls(ss: seq<State>, es: seq<Event>)
    requires IsRun(ss, es) && forall n :: 0 <= n < |es| && es[n].Commit? ==> es[n].write.Dismissal?
    requires forall m, n :: 0 <= m < n < |es| && es[m].Commit? && es[n].Commit? ==> es[m].write.against <= es[n].write.against
    ensures MarkNeverFalls(ss)
  {
    NeverFallsExactly(ss, es);
  }

  /** So overlapping dismissals never lower it, however many, if they commit in the
      order in which they read the registry and every read found the identity's
      entry. */
  lemma DismissalsInReadOrder(
    ws: seq<World>, ls: seq<Label>, id: SessionId, ss: seq<State>, es: seq<Event>, readAt: seq<nat>, starts: seq<int>)
    requires IsLoginRun(ws, ls) && IsRun(ss, es) && |readAt| == |starts| == |es|
    requires forall n :: 0 <= n < |es| && es[n].Commit? ==>
               && readAt[n] < |ws| && id in ws[readAt[n]].sessions && ReadFor(ws[readAt[n]], id, true).Some?
               && es[n].write == Dismissal(DismissedAgainst(ReadFor(ws[readAt[n]], id, true), starts[n]))
    requires forall m, n :: 0 <= m < n < |es| && es[m].Commit? && es[n].Commit? ==> readAt[m] <= readAt[n]
    ensures MarkNeverFalls(ss)
  {
    hide IsRun, ReadFor;
    forall m, n | 0 <= m < n < |es| && es[m].Commit? && es[n].Commit?
      ensures es[m].write.against <= es[n].write.against
    {
      LaterReadIsLater(ws, ls, readAt[m], readAt[n], id);
    }
    InOrderNeverFalls(ss, es);
  }

  ghost predicate IsLoginRun(ws: seq<World>, ls: seq<Label>) {
    ConcurrentLogin.IsRun(ws, ls)
  }
}
