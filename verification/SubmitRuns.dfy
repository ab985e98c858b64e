/** Whole runs of submits, alone and among everything else that happens to a case:
    what takes effect at most once, and what is never posted. */
module SubmitRuns {
  import opened Prelude
  import opened Engine
  import opened ReAccreditation
  import opened Eligibility
  import opened Lifecycle
  import opened DateText
  import opened SubmitProtocol
  import Deadline
  import Text

  // ---- What every submit keeps ----

  /** When a call may be posted at all. Only self-assigning takes a case over, so
      without it (`strict`) an assignment needs an unheld, duly made case. */
  predicate MayPost(i: Item, call: Call, strict: bool) {
    var c := i.lifecycle;
    match call
    case AssignCall(_) => strict ==> c.assignee.None? && c.state == DulyMade
    case ActionCall(a) => a == StartAssessment && c.state == DulyMade && c.assignee.Some?
    case NoteCall(text) => text != "" && c.state != DulyMade
    case DecisionCall(_) => IsDecisionEntry(c.state) && c.state != DulyMade
    case ExtendCall(reason, _) => reason != "" && c.state != DulyMade
  }

  datatype Kind = Assigning | Starting | Deciding

  predicate TookAs(r: CallRecord, k: Kind) {
    r.took && match k
              case Assigning => r.call.AssignCall?
              case Starting => r.call.ActionCall?
              case Deciding => r.call.DecisionCall?
  }

  ghost predicate AtMostOnce(log: seq<CallRecord>, k: Kind) {
    forall i, j :: 0 <= i < j < |log| ==> !(TookAs(log[i], k) && TookAs(log[j], k))
  }

  /** A case that has left duly made for good: it is neither there nor before, and
      no response or continue-review can take it back. */
  predicate IsPastStart(c: Case) {
    && c.state != Submitted && c.state != DulyMade
    && (c.state == Queried ==> c.origin != Some(DulyMakingStage))
    && (c.state == Updated ==> c.origin != Some(DulyMakingStage) && c.origin != Some(DulyMadeStage))
  }

  /** What the item shows once a call of a kind has taken effect. */
  predicate ShowsIn(i: Item, k: Kind) {
    match k
    case Assigning => i.lifecycle.assignee.Some?
    case Starting => IsPastStart(i.lifecycle)
    case Deciding => InApproval(i.lifecycle.state) || InRefusal(i.lifecycle.state)
  }

  predicate Tracked(k: Kind, strict: bool) {
    strict || k != Assigning
  }

  /** The invariant of every world the submits lead to. */
  ghost predicate Orderly(w: World, strict: bool) {
    && (forall i :: 0 <= i < |w.log| ==> MayPost(w.log[i].before, w.log[i].call, strict))
    && (forall k: Kind :: Tracked(k, strict) ==> AtMostOnce(w.log, k))
    && (forall i, k: Kind :: 0 <= i < |w.log| && Tracked(k, strict) && TookAs(w.log[i], k) ==> ShowsIn(w.item, k))
  }

  lemma EffectShows(i: Item, call: Call, k: Kind, strict: bool)
    requires MayPost(i, call, strict) && Effect(i, call).Some? && Tracked(k, strict)
    ensures ShowsIn(i, k) ==> ShowsIn(Effect(i, call).value, k) && !TookAs(CallRecord(call, i, true, true), k)
    ensures TookAs(CallRecord(call, i, true, true), k) ==> ShowsIn(Effect(i, call).value, k)
    ensures strict && i.lifecycle.assignee.Some? ==> Effect(i, call).value.lifecycle.assignee == i.lifecycle.assignee
  {
    hide Deadline.MovedDeadline;
    if call.ExtendCall? && i.lifecycle.state != DulyMade {
      ExtendApplies(i.lifecycle);
      hide Enabled, Apply;
    }
  }

  /** `w'` is `w` with more calls logged, and whoever held the case holds it. */
  ghost predicate Continues(w: World, w': World, strict: bool) {
    && |w.log| <= |w'.log|
    && (forall i :: 0 <= i < |w.log| ==> w'.log[i] == w.log[i])
    && (strict && w.item.lifecycle.assignee.Some? ==> w'.item.lifecycle.assignee == w.item.lifecycle.assignee)
  }

  lemma PerformKeeps(w: World, call: Call, fate: Fate, strict: bool)
    requires Orderly(w, strict) && MayPost(w.item, call, strict)
    ensures Orderly(Perform(w, call, fate), strict) && Continues(w, Perform(w, call, fate), strict)
  {
    hide Effect, MayPost, ShowsIn;
    var w', n := Perform(w, call, fate), |w.log|;
    forall k: Kind | Tracked(k, strict)
      ensures ShowsIn(w.item, k) ==> ShowsIn(w'.item, k) && !TookAs(w'.log[n], k)
      ensures TookAs(w'.log[n], k) ==> ShowsIn(w'.item, k)
    {
      if w'.log[n].took {
        EffectShows(w.item, call, k, strict);
      }
    }
    if strict && w'.log[n].took {
      EffectShows(w.item, call, Assigning, strict);
    }
    forall k: Kind | Tracked(k, strict) ensures AtMostOnce(w'.log, k) {
      assert AtMostOnce(w.log, k);
    }
  }

  /** What the start step leaves for the post that follows it. */
  lemma EnsureKeeps(w: World, user: User, fates: Fates, strict: bool)
    requires Orderly(w, strict)
    ensures var a := EnsureStarted(w, user, fates);
            && Orderly(a.world, strict) && Continues(w, a.world, strict)
            && (a.result.Started? && w.item.lifecycle.state == DulyMade ==> a.world.item.lifecycle.state == AssessmentStarted)
            && (w.item.lifecycle.state != DulyMade ==> a == After(w, Started(false, false)))
  {
    hide Orderly, StartFor;
    StartForDulyMade(w.item);
    if w.item.lifecycle.state == DulyMade {
      if w.item.lifecycle.assignee.Some? {
        PerformKeeps(w, ActionCall(StartAssessment), fates.start, strict);
      } else if user.id.Some? && Text.Trim(user.id.value) != "" {
        PerformKeeps(w, AssignCall(user.id.value), fates.assign, strict);
        var taken := Perform(w, AssignCall(user.id.value), fates.assign);
        if Succeeds(w, AssignCall(user.id.value), fates.assign) {
          PerformKeeps(taken, ActionCall(StartAssessment), fates.start, strict);
        }
      }
    }
  }

  lemma RecordKeeps(w: World, outcome: Option<Outcome>, decisionNote: string, fates: Fates, strict: bool)
    requires Orderly(w, strict) && IsDecisionEntry(w.item.lifecycle.state) && w.item.lifecycle.state != DulyMade
    ensures var a := RecordDecision(w, outcome, decisionNote, fates);
            Orderly(a.world, strict) && Continues(w, a.world, strict)
  {
    hide Orderly;
    if outcome.Some? {
      var trimmed := Text.Trim(decisionNote);
      if trimmed == "" {
        PerformKeeps(w, DecisionCall(outcome.value), fates.post, strict);
      } else {
        PerformKeeps(w, NoteCall(trimmed), fates.note, strict);
        PerformKeeps(Perform(w, NoteCall(trimmed), fates.note), DecisionCall(outcome.value), fates.post, strict);
      }
    }
  }

  lemma DecisionKeeps(w: World, user: User, decision: Option<Outcome>, decisionNote: string, fates: Fates, strict: bool)
    requires Orderly(w, strict)
    ensures var a := SubmitDecision(w, user, decision, decisionNote, fates);
            Orderly(a.world, strict) && Continues(w, a.world, strict)
  {
    hide Orderly, EnsureStarted, RecordDecision, EvaluateLogDecision;
    LogDecisionExactly(Report(w.item.lifecycle));
    EnsureKeeps(w, user, fates, strict);
    var start := EnsureStarted(w, user, fates);
    if IsDecisionEntry(w.item.lifecycle.state) && start.result.Started? {
      RecordKeeps(start.world, decision, decisionNote, fates, strict);
    }
  }

  lemma ExtendKeeps(w: World, user: User, reason: string, deadline: DateInput, now: int, fates: Fates, strict: bool)
    requires Orderly(w, strict)
    ensures var a := SubmitExtend(w, user, reason, deadline, now, fates);
            Orderly(a.world, strict) && Continues(w, a.world, strict)
  {
    hide Orderly, EnsureStarted, Deadline.ValidateExtendDeadline;
    EnsureKeeps(w, user, fates, strict);
    var start := EnsureStarted(w, user, fates);
    var v := ValidateChange(w.item, reason, deadline, now);
    if v.Valid? && start.result.Started? {
      PerformKeeps(start.world, ExtendCall(v.reason, v.additionalDuration), fates.post, strict);
    }
  }

  lemma SelfAssignKeeps(w: World, user: User, fates: Fates)
    requires Orderly(w, false)
    ensures var a := SelfAssign(w, user, fates);
            Orderly(a.world, false) && Continues(w, a.world, false)
  {
    hide Orderly, StartFor;
    StartForDulyMade(w.item);
    if user.id.Some? && Text.Trim(user.id.value) != "" {
      var assign := AssignCall(user.id.value);
      var taken := Perform(w, assign, fates.assign);
      PerformKeeps(w, assign, fates.assign, false);
      if Succeeds(w, assign, fates.assign) && fates.read == ReadOk && w.item.lifecycle.state == DulyMade {
        PerformKeeps(taken, ActionCall(StartAssessment), fates.start, false);
      }
    }
  }

  datatype Submit =
    | DecisionSubmit(user: User, decision: Option<Outcome>, decisionNote: string, fates: Fates)
    | DeadlineSubmit(user: User, reason: string, deadline: DateInput, now: int, fates: Fates)
    | SelfAssignSubmit(user: User, fates: Fates)

  function Answer(w: World, s: Submit): After<Page> {
    match s
    case DecisionSubmit(user, decision, note, fates) => SubmitDecision(w, user, decision, note, fates)
    case DeadlineSubmit(user, reason, deadline, now, fates) => SubmitExtend(w, user, reason, deadline, now, fates)
    case SelfAssignSubmit(user, fates) => SelfAssign(w, user, fates)
  }

  /** The world after a run of submits, whatever becomes of their calls. */
  function Run(w: World, submits: seq<Submit>): World
    decreases |submits|
  {
    if submits == [] then w else Run(Answer(w, submits[0]).world, submits[1..])
  }

  ghost predicate TakesNoCaseOver(submits: seq<Submit>) {
    forall s :: s in submits ==> !s.SelfAssignSubmit?
  }

  lemma AnswerKeeps(w: World, s: Submit, strict: bool)
    requires Orderly(w, strict) && (strict ==> !s.SelfAssignSubmit?)
    ensures Orderly(Answer(w, s).world, strict) && Continues(w, Answer(w, s).world, strict)
  {
    hide Orderly;
    match s
    case DecisionSubmit(user, decision, note, fates) => DecisionKeeps(w, user, decision, note, fates, strict);
    case DeadlineSubmit(user, reason, deadline, now, fates) => ExtendKeeps(w, user, reason, deadline, now, fates, strict);
    case SelfAssignSubmit(user, fates) => SelfAssignKeeps(w, user, fates);
  }

  lemma {:induction false} RunKeeps(w: World, submits: seq<Submit>, strict: bool)
    requires Orderly(w, strict) && (strict ==> TakesNoCaseOver(submits))
    ensures Orderly(Run(w, submits), strict) && Continues(w, Run(w, submits), strict)
    decreases |submits|
  {
    hide Orderly, Answer;
    if submits != [] {
      AnswerKeeps(w, submits[0], strict);
      RunKeeps(Answer(w, submits[0]).world, submits[1..], strict);
    }
  }

  /** Over any run of the three submits, whatever becomes of their calls, start
      and decision each take effect at most once, and no decision or deadline
      change is even posted while the case is duly made. If none of them is a
      self-assign, a held case also keeps its holder, an assignment is posted only
      for an unheld one, and takes effect at most once. */
  lemma RunIsOrderly(item: Item, submits: seq<Submit>)
    ensures var w := Run(World(item, []), submits);
            && AtMostOnce(w.log, Starting) && AtMostOnce(w.log, Deciding)
            && (forall i :: 0 <= i < |w.log| && (w.log[i].call.DecisionCall? || w.log[i].call.ExtendCall?)
                  ==> w.log[i].before.lifecycle.state != DulyMade)
    ensures TakesNoCaseOver(submits) ==>
              var w := Run(World(item, []), submits);
              && (item.lifecycle.assignee.Some? ==> w.item.lifecycle.assignee == item.lifecycle.assignee)
              && AtMostOnce(w.log, Assigning)
              && (forall i :: 0 <= i < |w.log| && w.log[i].call.AssignCall? ==> w.log[i].before.lifecycle.assignee.None?)
  {
    hide Run;
    var strict := TakesNoCaseOver(submits);
    RunKeeps(World(item, []), submits, strict);
    var w := Run(World(item, []), submits);
    assert forall i :: 0 <= i < |w.log| ==> MayPost(w.log[i].before, w.log[i].call, strict);
    assert Tracked(Starting, strict) && Tracked(Deciding, strict);
  }

  // ---- Submits among everything else ----

  /** Either a submit, or a step of the lifecycle somebody else causes: a query, a
      response, a continue-review, a contact confirmed, an assignment. Such a step
      may also change the deadline. */
  datatype Event = Submitting(s: Submit) | Elsewhere(l: Label)

  ghost predicate Happens(w: World, e: Event, w': World) {
    match e
    case Submitting(s) => w' == Answer(w, s).world
    case Elsewhere(l) => w'.log == w.log && Step(w.item.lifecycle, l, w'.item.lifecycle)
  }

  ghost predicate IsMixedRun(ws: seq<World>, es: seq<Event>) {
    && |ws| == |es| + 1 && ws[0].log == []
    && forall i :: 0 <= i < |es| ==> Happens(ws[i], es[i], ws[i + 1])
  }

  lemma PastStartForGood(c: Case, l: Label, c': Case)
    requires Step(c, l, c') && IsPastStart(c)
    ensures IsPastStart(c')
  {
    if l.Act? {
      TargetIsPastStart(c, l.a);
      RaisedPastStart(c, l.a);
      TargetQueriedOrUpdated(c, l.a);
      hide Target, IsResume, IsContinue, ResumeAction, ContinueAction;
    }
  }

  lemma TargetIsPastStart(c: Case, a: ActionId)
    requires Enabled(c, a) && IsPastStart(c)
    ensures Target(a, c.state).value != Submitted && Target(a, c.state).value != DulyMade
  {
  }

  lemma RaisedPastStart(c: Case, a: ActionId)
    requires Enabled(c, a) && IsPastStart(c)
    ensures RaisedAt(a) != Some(DulyMakingStage) && RaisedAt(a) != Some(DulyMadeStage)
  {
  }

  lemma TargetQueriedOrUpdated(c: Case, a: ActionId)
    requires Enabled(c, a) && IsPastStart(c)
    ensures Target(a, c.state).value == Queried ==> RaisedAt(a).Some? || c.state == Queried
    ensures Target(a, c.state).value == Updated ==> c.state == Queried && c.origin != Some(DulyMadeStage)
  {
    if Target(a, c.state).value == Updated {
      assert IsResume(a);
    }
  }

  lemma StepShows(i: Item, l: Label, i': Item, k: Kind)
    requires Step(i.lifecycle, l, i'.lifecycle) && ShowsIn(i, k) && k != Assigning
    ensures ShowsIn(i', k)
  {
    hide Step, IsPastStart;
    StepStaysOnBranch(i.lifecycle, l, i'.lifecycle);
    if k == Starting {
      PastStartForGood(i.lifecycle, l, i'.lifecycle);
    }
  }

  lemma HappensKeeps(w: World, e: Event, w': World)
    requires Orderly(w, false) && Happens(w, e, w')
    ensures Orderly(w', false)
  {
    hide Answer, MayPost, ShowsIn, TookAs;
    match e
    case Submitting(s) => AnswerKeeps(w, s, false);
    case Elsewhere(l) =>
      hide Step;
      forall k: Kind | k != Assigning && ShowsIn(w.item, k) ensures ShowsIn(w'.item, k) {
        StepShows(w.item, l, w'.item, k);
      }
  }

  lemma {:induction false} MixedRunKeeps(ws: seq<World>, es: seq<Event>, n: nat)
    requires IsMixedRun(ws, es) && n < |ws|
    ensures Orderly(ws[n], false)
  {
    if n > 0 {
      hide Orderly, Happens;
      MixedRunKeeps(ws, es, n - 1);
      HappensKeeps(ws[n - 1], es[n - 1], ws[n]);
    }
  }

  /** With any number of queries, responses, continue-reviews, confirmations and
      assignments in between, from any case at all, the submits' starts and
      decisions each take effect at most once, and none of them posts a decision or
      a deadline change while the case is duly made. */
  lemma MixedRunIsOrderly(ws: seq<World>, es: seq<Event>, n: nat)
    requires IsMixedRun(ws, es) && n < |ws|
    ensures AtMostOnce(ws[n].log, Starting) && AtMostOnce(ws[n].log, Deciding)
    ensures forall i :: 0 <= i < |ws[n].log| && (ws[n].log[i].call.DecisionCall? || ws[n].log[i].call.ExtendCall?)
              ==> ws[n].log[i].before.lifecycle.state != DulyMade
  {
    MixedRunKeeps(ws, es, n);
    hide IsMixedRun;
    assert forall i :: 0 <= i < |ws[n].log| ==> MayPost(ws[n].log[i].before, ws[n].log[i].call, false);
    assert Tracked(Starting, false) && Tracked(Deciding, false);
  }

  // ---- Calls interleaved with everything else ----

  /** A single call of some submit reaching the backend, whatever the submit had
      read and whoever else is at work on the case, or a step somebody else causes. */
  datatype Moment = Posting(call: Call, fate: Fate) | Moving(l: Label)

  ghost predicate Passes(w: World, m: Moment, w': World) {
    match m
    case Posting(call, fate) => (call.ActionCall? ==> call.actionId == StartAssessment) && w' == Perform(w, call, fate)
    case Moving(l) => Happens(w, Elsewhere(l), w')
  }

  ghost predicate IsInterleaving(ws: seq<World>, ms: seq<Moment>) {
    && |ws| == |ms| + 1 && ws[0].log == []
    && forall i :: 0 <= i < |ms| ==> Passes(ws[i], ms[i], ws[i + 1])
  }

  /** What the backend itself sees to, call by call. */
  ghost predicate Guarded(w: World) {
    && (forall k: Kind :: k != Assigning ==> AtMostOnce(w.log, k))
    && (forall i, k: Kind :: 0 <= i < |w.log| && k != Assigning && TookAs(w.log[i], k) ==> ShowsIn(w.item, k))
    && (forall i :: 0 <= i < |w.log| && w.log[i].took ==> MayTake(w.log[i].before.lifecycle.state, w.log[i].call))
  }

  /** In which states a call may take effect: a note in any, anything else only
      while the case is open, a decision or a deadline change not while duly made. */
  predicate MayTake(s: StateId, call: Call) {
    && (IsTerminal(s) ==> call.NoteCall?)
    && (s == DulyMade ==> !call.DecisionCall? && !call.ExtendCall?)
  }

  lemma AnyEffectShows(i: Item, call: Call, k: Kind)
    requires call.ActionCall? ==> call.actionId == StartAssessment
    requires Effect(i, call).Some? && k != Assigning
    ensures ShowsIn(i, k) ==> ShowsIn(Effect(i, call).value, k) && !TookAs(CallRecord(call, i, true, true), k)
    ensures TookAs(CallRecord(call, i, true, true), k) ==> ShowsIn(Effect(i, call).value, k)
    ensures MayTake(i.lifecycle.state, call)
  {
    hide Deadline.MovedDeadline;
    if call.ExtendCall? && i.lifecycle.state != DulyMade {
      ExtendApplies(i.lifecycle);
      hide Enabled, Apply;
    }
  }

  lemma PassesKeeps(w: World, m: Moment, w': World)
    requires Guarded(w) && Passes(w, m, w')
    ensures Guarded(w')
  {
    hide Effect, ShowsIn, Step, MayTake;
    match m
    case Posting(call, fate) =>
      var n := |w.log|;
      if w'.log[n].took {
        AnyEffectShows(w.item, call, Starting);
      }
      forall k: Kind | k != Assigning
        ensures ShowsIn(w.item, k) ==> ShowsIn(w'.item, k) && !TookAs(w'.log[n], k)
        ensures TookAs(w'.log[n], k) ==> ShowsIn(w'.item, k)
      {
        if w'.log[n].took {
          AnyEffectShows(w.item, call, k);
        }
      }
      forall k: Kind | k != Assigning ensures AtMostOnce(w'.log, k) {
        assert AtMostOnce(w.log, k);
      }
    case Moving(l) =>
      forall k: Kind | k != Assigning && ShowsIn(w.item, k) ensures ShowsIn(w'.item, k) {
        StepShows(w.item, l, w'.item, k);
      }
  }

  /** Even when other users' submits and steps come between a submit's read and its
      calls, start and decision each take effect at most once, no decision or
      deadline change takes effect while the case is duly made, and nothing but a
      note once it is closed. */
  lemma {:induction false} InterleavedIsOrderly(ws: seq<World>, ms: seq<Moment>, n: nat)
    requires IsInterleaving(ws, ms) && n < |ws|
    ensures Guarded(ws[n])
    ensures AtMostOnce(ws[n].log, Starting) && AtMostOnce(ws[n].log, Deciding)
    ensures forall i :: 0 <= i < |ws[n].log| && ws[n].log[i].took
              ==> MayTake(ws[n].log[i].before.lifecycle.state, ws[n].log[i].call)
  {
    if n > 0 {
      hide Passes, ShowsIn, MayTake;
      InterleavedIsOrderly(ws, ms, n - 1);
      PassesKeeps(ws[n - 1], ms[n - 1], ws[n]);
    }
  }

  /** The one write of a decision is what the two hops of the lifecycle come to. */
  lemma DecisionIsBothHops(i: Item, outcome: Outcome)
    requires IsDecisionEntry(i.lifecycle.state) && i.lifecycle.state != DulyMade
    ensures var c, d := i.lifecycle, DecisionAction(outcome);
            var hops := if c.state == AwaitingDecision then [d] else [SubmitForDecision, d];
            && ApplyAll(c, hops).Some?
            && Effect(i, DecisionCall(outcome)) == Some(i.(lifecycle := ApplyAll(c, hops).value))
  {
    var c, d := i.lifecycle, DecisionAction(outcome);
    if c.state != AwaitingDecision {
      ApplyTwo(c, SubmitForDecision, d);
      c := Apply(c, SubmitForDecision, c.assignee);
    }
    ApplyOne(c, d);
  }

  /** Once a decision has landed, submitting one again makes no call, even if
      the reply was lost. */
  lemma DecisionIsFinal(w: World, user: User, decision: Option<Outcome>, decisionNote: string, fates: Fates)
    requires ShowsIn(w.item, Deciding) || IsTerminal(w.item.lifecycle.state)
    ensures SubmitDecision(w, user, decision, decisionNote, fates).world == w
  {
    hide EvaluateLogDecision, DecideOn;
    LogDecisionExactly(Report(w.item.lifecycle));
  }
}
