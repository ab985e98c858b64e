/** Whole runs of a re-accreditation case against the backend: what every run
    keeps, and that the controls the page offers always lead to an outcome. */
module Lifecycle {
  import opened Prelude
  import opened Engine
  import opened ReAccreditation
  import opened Eligibility

  /** Where a query was raised. */
  datatype Stage = DulyMakingStage | DulyMadeStage | AssessmentStage | DecisionStage

  function ResumeAction(s: Stage): ActionId {
    match s
    case DulyMakingStage => ResumeDuringDulyMaking
    case DulyMadeStage => ResumeDuringDulyMade
    case AssessmentStage => ResumeDuringAssessment
    case DecisionStage => ResumeDuringDecision
  }

  function ContinueAction(s: Stage): ActionId {
    match s
    case DulyMakingStage => ContinueReviewDuringDulyMaking
    case DulyMadeStage => ContinueReviewDuringDulyMade
    case AssessmentStage => ContinueReviewDuringAssessment
    case DecisionStage => ContinueReviewDuringDecision
  }

  function RaisedAt(a: ActionId): Option<Stage> {
    match a
    case QueryDuringDulyMaking => Some(DulyMakingStage)
    case QueryDuringDulyMade => Some(DulyMadeStage)
    case QueryDuringAssessment => Some(AssessmentStage)
    case QueryDuringDecision => Some(DecisionStage)
    case _ => None
  }

  predicate IsResume(a: ActionId) {
    || a == ResumeDuringDulyMaking || a == ResumeDuringDulyMade
    || a == ResumeDuringAssessment || a == ResumeDuringDecision
  }

  predicate IsContinue(a: ActionId) {
    || a == ContinueReviewDuringDulyMaking || a == ContinueReviewDuringDulyMade
    || a == ContinueReviewDuringAssessment || a == ContinueReviewDuringDecision
  }

  /** A case as the backend keeps it. `origin` is the stage of the last query. */
  datatype Case = Case(state: StateId, origin: Option<Stage>, assignee: Option<string>)

  const NEW_CASE := Case(Submitted, None, None)

  /** Where an action takes a case: the declared transition, or one of the five
      more that v18 of the backend declares under a used action id. */
  function Target(a: ActionId, from: StateId): Option<StateId> {
    if Declared(a).fromStateId == from then Some(Declared(a).toStateId)
    else
      match (a, from)
      case (SubmitForDecision, AssessmentStarted) => Some(AwaitingDecision)
      case (SlaExtend, AssessmentStarted) => Some(AssessmentInProgress)
      case (SlaExtend, Queried) => Some(Queried)
      case (QueryDuringAssessment, AssessmentStarted) => Some(Queried)
      case (WithdrawDuringAssessment, AssessmentStarted) => Some(Withdrawn)
      case _ => None
  }

  /** May the action be applied? A resume or a continue-review is the one the
      recorded query origin resolves to, never the caller's choice. */
  predicate Enabled(c: Case, a: ActionId) {
    && Target(a, c.state).Some?
    && (IsResume(a) ==> c.origin.Some? && a == ResumeAction(c.origin.value))
    && (IsContinue(a) ==> c.origin.Some? && a == ContinueAction(c.origin.value))
  }

  /** Applying an action. Who holds the case may change with it: a query takes
      an unheld case, a response re-assigns the querier. */
  function Apply(c: Case, a: ActionId, holder: Option<string>): Case
    requires Enabled(c, a)
  {
    Case(Target(a, c.state).value,
         if RaisedAt(a).Some? then RaisedAt(a) else c.origin,
         if RaisedAt(a).Some? || IsResume(a) then holder else c.assignee)
  }

  datatype Label = Act(a: ActionId) | Assign

  ghost predicate Step(c: Case, l: Label, c': Case) {
    match l
    case Act(a) => Enabled(c, a) && c' == Apply(c, a, c'.assignee)
    case Assign => !IsTerminal(c.state) && c' == c.(assignee := c'.assignee)
  }

  // ---- The moves of a case ----

  /** The stage a query is raised at, by the state the case is in. */
  function StageOf(s: StateId): Option<Stage> {
    match s
    case Submitted => Some(DulyMakingStage)
    case DulyMade => Some(DulyMadeStage)
    case AssessmentStarted => Some(AssessmentStage)
    case AssessmentInProgress => Some(AssessmentStage)
    case AwaitingDecision => Some(DecisionStage)
    case _ => None
  }

  /** The state a review is taken up again in. */
  function StateOf(s: Stage): StateId {
    match s
    case DulyMakingStage => Submitted
    case DulyMadeStage => DulyMade
    case AssessmentStage => AssessmentInProgress
    case DecisionStage => AwaitingDecision
  }

  /** Where the review itself can go next. */
  predicate MovesOn(s: StateId, to: StateId) {
    || (s == Submitted && to == DulyMade)
    || (s == DulyMade && to == AssessmentStarted)
    || ((s == AssessmentStarted || s == AssessmentInProgress) && (to == AssessmentInProgress || to == AwaitingDecision))
    || (s == AwaitingDecision && (to == ApprovedPendingContact || to == RejectedPendingContact))
    || (s == ApprovedPendingContact && to == Approved)
    || (s == RejectedPendingContact && to == Rejected)
    || (s == Queried && to == Queried)
  }

  /** A case can be withdrawn until its determination has been made. */
  predicate CanBeWithdrawn(s: StateId) {
    !IsTerminal(s) && s != ApprovedPendingContact && s != RejectedPendingContact
  }

  /** A response goes on where the query was raised: a duly made case straight into
      assessment, any other by way of `updated`. */
  predicate Answers(c: Case, to: StateId) {
    || (c.state == Queried && c.origin.Some? && to == if c.origin.value == DulyMadeStage then AssessmentInProgress else Updated)
    || (c.state == Updated && c.origin.Some? && to == StateOf(c.origin.value))
  }

  ghost predicate CanMove(c: Case, to: StateId) {
    exists a :: Enabled(c, a) && Target(a, c.state) == Some(to)
  }

  function ActionOn(s: StateId, to: StateId): ActionId {
    match to
    case DulyMade => DulyMake
    case AssessmentStarted => StartAssessment
    case AwaitingDecision => SubmitForDecision
    case ApprovedPendingContact => MakeDeterminationApproved
    case RejectedPendingContact => MakeDeterminationRejected
    case Approved => ConfirmContactApproved
    case Rejected => ConfirmContactRejected
    case _ => SlaExtend
  }

  function WithdrawFrom(s: StateId): ActionId {
    match s
    case Submitted => Withdraw
    case DulyMade => WithdrawDuringDulyMade
    case AwaitingDecision => WithdrawDuringDecision
    case Queried => WithdrawDuringQuery
    case Updated => WithdrawDuringUpdated
    case _ => WithdrawDuringAssessment
  }

  function QueryAt(s: StateId): ActionId {
    match s
    case Submitted => QueryDuringDulyMaking
    case DulyMade => QueryDuringDulyMade
    case AwaitingDecision => QueryDuringDecision
    case _ => QueryDuringAssessment
  }

  lemma MovesOnWitness(c: Case, to: StateId)
    requires MovesOn(c.state, to)
    ensures Enabled(c, ActionOn(c.state, to)) && Target(ActionOn(c.state, to), c.state) == Some(to)
  {
  }

  lemma WithdrawWitness(c: Case)
    requires CanBeWithdrawn(c.state)
    ensures Enabled(c, WithdrawFrom(c.state)) && Target(WithdrawFrom(c.state), c.state) == Some(Withdrawn)
  {
  }

  lemma QueryWitness(c: Case)
    requires StageOf(c.state).Some?
    ensures Enabled(c, QueryAt(c.state)) && Target(QueryAt(c.state), c.state) == Some(Queried)
  {
  }

  lemma AnswerWitness(c: Case, to: StateId)
    requires Answers(c, to)
    ensures var a := if c.state == Queried then ResumeAction(c.origin.value) else ContinueAction(c.origin.value);
            Enabled(c, a) && Target(a, c.state) == Some(to)
  {
  }

  lemma AnswersWhere(c: Case, a: ActionId)
    requires Enabled(c, a) && (IsResume(a) || IsContinue(a))
    ensures Answers(c, Target(a, c.state).value)
  {
  }

  lemma QueriedWhere(c: Case, a: ActionId)
    requires Enabled(c, a) && RaisedAt(a).Some?
    ensures StageOf(c.state).Some? && Target(a, c.state) == Some(Queried)
  {
  }

  lemma WithdrawnWhere(c: Case, a: ActionId)
    requires Enabled(c, a) && Declared(a).toStateId == Withdrawn
    ensures CanBeWithdrawn(c.state) && Target(a, c.state) == Some(Withdrawn)
  {
  }

  lemma MovesOnWhere(c: Case, a: ActionId)
    requires Enabled(c, a) && !IsResume(a) && !IsContinue(a) && RaisedAt(a).None? && Declared(a).toStateId != Withdrawn
    ensures MovesOn(c.state, Target(a, c.state).value)
  {
  }

  lemma MovesWhere(c: Case, a: ActionId)
    requires Enabled(c, a)
    ensures var to := Target(a, c.state).value;
            || MovesOn(c.state, to) || (CanBeWithdrawn(c.state) && to == Withdrawn)
            || (StageOf(c.state).Some? && to == Queried) || Answers(c, to)
  {
    hide IsResume, IsContinue, RaisedAt, Declared, Target, MovesOn, CanBeWithdrawn, StageOf, Answers;
    if IsResume(a) || IsContinue(a) {
      AnswersWhere(c, a);
    } else if RaisedAt(a).Some? {
      QueriedWhere(c, a);
    } else if Declared(a).toStateId == Withdrawn {
      WithdrawnWhere(c, a);
    } else {
      MovesOnWhere(c, a);
    }
  }

  /** The moves open to a case, whoever makes them: on with the review, withdrawn
      until it is determined, queried at any stage of the review, and back from a
      query to where it was raised; and no others. */
  lemma MovesExactly(c: Case, to: StateId)
    ensures CanMove(c, to)
            <==> || MovesOn(c.state, to) || (CanBeWithdrawn(c.state) && to == Withdrawn)
                 || (StageOf(c.state).Some? && to == Queried) || Answers(c, to)
  {
    hide Enabled, Target, MovesOn, CanBeWithdrawn, StageOf, Answers;
    if a :| Enabled(c, a) && Target(a, c.state) == Some(to) {
      MovesWhere(c, a);
    }
    if MovesOn(c.state, to) {
      MovesOnWitness(c, to);
    }
    if CanBeWithdrawn(c.state) && to == Withdrawn {
      WithdrawWitness(c);
    }
    if StageOf(c.state).Some? && to == Queried {
      QueryWitness(c);
    }
    if Answers(c, to) {
      AnswerWitness(c, to);
    }
  }

  lemma QueryRaises(c: Case, query: ActionId, holder: Option<string>)
    requires RaisedAt(query).Some? && Enabled(c, query)
    ensures StageOf(c.state) == RaisedAt(query)
    ensures Apply(c, query, holder) == Case(Queried, RaisedAt(query), holder)
  {
  }

  lemma ResponseReturns(stage: Stage, holder: Option<string>, querier: Option<string>)
    ensures var queried := Case(Queried, Some(stage), holder);
            && Enabled(queried, ResumeAction(stage))
            && Apply(queried, ResumeAction(stage), querier)
               == Case(if stage == DulyMadeStage then AssessmentInProgress else Updated, Some(stage), querier)
  {
  }

  lemma ReviewReturns(stage: Stage, querier: Option<string>)
    ensures var answered := Case(Updated, Some(stage), querier);
            && Enabled(answered, ContinueAction(stage))
            && Apply(answered, ContinueAction(stage), None) == Case(StateOf(stage), Some(stage), querier)
  {
  }

  /** A query raised at a stage, answered, and the review taken up again: the case is
      back at that stage, except that one queried while duly made is then in
      assessment. */
  lemma QueryReturns(c: Case, query: ActionId, holder: Option<string>, querier: Option<string>)
    requires RaisedAt(query).Some? && Enabled(c, query)
    ensures StageOf(c.state) == RaisedAt(query)
    ensures var stage := RaisedAt(query).value;
            var queried := Apply(c, query, holder);
            && queried == Case(Queried, Some(stage), holder)
            && Enabled(queried, ResumeAction(stage))
            && var answered := Apply(queried, ResumeAction(stage), querier);
            if stage == DulyMadeStage then answered == Case(AssessmentInProgress, Some(stage), querier)
            else
              && answered == Case(Updated, Some(stage), querier)
              && Enabled(answered, ContinueAction(stage))
              && Apply(answered, ContinueAction(stage), None) == Case(StateOf(stage), Some(stage), querier)
  {
    hide Enabled, Apply, RaisedAt, StageOf, ResumeAction, ContinueAction, StateOf;
    QueryRaises(c, query, holder);
    ResponseReturns(RaisedAt(query).value, holder, querier);
    ReviewReturns(RaisedAt(query).value, querier);
  }

  /** What a caseworker may do by hand: start, change the deadline, withdraw, query.
      The rest only the backend does. */
  lemma InvocableExactly(a: ActionId)
    ensures Declared(a).callerInvocable
            <==> || a == StartAssessment || a == SlaExtend || RaisedAt(a).Some? || Declared(a).toStateId == Withdrawn
  {
  }

  /** A run from a new case: the cases passed through and the labels between. */
  ghost predicate IsRun(cs: seq<Case>, ls: seq<Label>) {
    && |cs| == |ls| + 1 && cs[0] == NEW_CASE
    && forall i :: 0 <= i < |ls| ==> Step(cs[i], ls[i], cs[i + 1])
  }

  ghost predicate DulyMadeBefore(ls: seq<Label>, i: int)
    requires 0 <= i <= |ls|
  {
    exists j :: 0 <= j < i && ls[j] == Act(DulyMake)
  }

  /** The states only a duly made case can be in. */
  predicate PastDulyMaking(s: StateId) {
    || s == DulyMade || s == AssessmentStarted || s == AssessmentInProgress || s == AwaitingDecision
    || s == ApprovedPendingContact || s == Approved || s == RejectedPendingContact || s == Rejected
  }

  /** What holds of a case, given whether it has been duly made. */
  ghost predicate Consistent(c: Case, dulyMade: bool) {
    && (PastDulyMaking(c.state) ==> dulyMade)
    && (c.origin.Some? && c.origin != Some(DulyMakingStage) ==> dulyMade)
    && (c.state == Queried || c.state == Updated ==> c.origin.Some?)
    && (c.state == Updated ==> c.origin != Some(DulyMadeStage))
  }

  /** Where an enabled action can lead, as far as the origin goes. */
  lemma TargetKeepsConsistent(c: Case, a: ActionId, dulyMade: bool)
    requires Consistent(c, dulyMade) && Enabled(c, a)
    ensures PastDulyMaking(Target(a, c.state).value) ==> dulyMade || a == DulyMake
    ensures RaisedAt(a).Some? && RaisedAt(a) != Some(DulyMakingStage) ==> dulyMade
  {
  }

  lemma TargetOfQuery(c: Case, a: ActionId, dulyMade: bool)
    requires Consistent(c, dulyMade) && Enabled(c, a)
    ensures Target(a, c.state).value == Queried ==> RaisedAt(a).Some? || c.state == Queried
    ensures Target(a, c.state).value == Updated
            ==> RaisedAt(a).None? && c.state == Queried && c.origin != Some(DulyMadeStage)
  {
    hide PastDulyMaking;
    if Target(a, c.state).value == Updated {
      assert IsResume(a);
    }
  }

  lemma StepKeepsConsistent(c: Case, l: Label, c': Case, dulyMade: bool)
    requires Consistent(c, dulyMade) && Step(c, l, c')
    ensures Consistent(c', dulyMade || l == Act(DulyMake))
  {
    if l.Act? {
      hide Target, RaisedAt, PastDulyMaking;
      TargetKeepsConsistent(c, l.a, dulyMade);
      TargetOfQuery(c, l.a, dulyMade);
    }
  }

  lemma {:induction false} RunIsConsistent(cs: seq<Case>, ls: seq<Label>, i: int)
    requires IsRun(cs, ls) && 0 <= i < |cs|
    ensures Consistent(cs[i], DulyMadeBefore(ls, i))
  {
    if i > 0 {
      RunIsConsistent(cs, ls, i - 1);
      StepKeepsConsistent(cs[i - 1], ls[i - 1], cs[i], DulyMadeBefore(ls, i - 1));
      if ls[i - 1] == Act(DulyMake) {
        assert DulyMadeBefore(ls, i);
      }
    }
  }

  /** In every run, with any number of queries and responses, a case is in a
      duly made, assessment, decision or outcome state only if a duly-make step
      came before. */
  lemma DulyMadeFirst(cs: seq<Case>, ls: seq<Label>, i: int)
    requires IsRun(cs, ls) && 0 <= i < |cs| && PastDulyMaking(cs[i].state)
    ensures exists j :: 0 <= j < i && ls[j] == Act(DulyMake) && cs[j].state == Submitted
  {
    RunIsConsistent(cs, ls, i);
    var j :| 0 <= j < i && ls[j] == Act(DulyMake);
    assert Step(cs[j], ls[j], cs[j + 1]);
  }

  predicate InApproval(s: StateId) {
    s == ApprovedPendingContact || s == Approved
  }

  predicate InRefusal(s: StateId) {
    s == RejectedPendingContact || s == Rejected
  }

  lemma TargetStaysOnBranch(a: ActionId, from: StateId)
    requires Target(a, from).Some?
    ensures InApproval(from) ==> InApproval(Target(a, from).value)
    ensures InRefusal(from) ==> InRefusal(Target(a, from).value)
  {
  }

  lemma TargetIsOutcome(a: ActionId, from: StateId)
    requires Target(a, from).Some?
    ensures Target(a, from).value == Approved ==> from == ApprovedPendingContact && a == ConfirmContactApproved
    ensures Target(a, from).value == Rejected ==> from == RejectedPendingContact && a == ConfirmContactRejected
  {
    if Declared(a).fromStateId != from {
      assert a == SubmitForDecision || a == SlaExtend || a == QueryDuringAssessment || a == WithdrawDuringAssessment;
    }
  }

  lemma TargetLeavesOpen(a: ActionId, from: StateId)
    requires Target(a, from).Some?
    ensures !IsTerminal(from)
  {
    if Declared(a).fromStateId != from {
      assert from == AssessmentStarted || from == Queried;
    }
  }

  lemma StepStaysOnBranch(c: Case, l: Label, c': Case)
    requires Step(c, l, c')
    ensures InApproval(c.state) ==> InApproval(c'.state)
    ensures InRefusal(c.state) ==> InRefusal(c'.state)
    ensures c'.state == Approved && c.state != Approved ==>
              c.state == ApprovedPendingContact && l == Act(ConfirmContactApproved)
    ensures c'.state == Rejected && c.state != Rejected ==>
              c.state == RejectedPendingContact && l == Act(ConfirmContactRejected)
    ensures IsTerminal(c.state) ==> c'.state == c.state
  {
    if l.Act? {
      hide Target, IsTerminal, InApproval, InRefusal;
      TargetStaysOnBranch(l.a, c.state);
      TargetIsOutcome(l.a, c.state);
      TargetLeavesOpen(l.a, c.state);
    }
  }

  /** An outcome is entered only from its own pending-contact state. */
  lemma OutcomesEnteredFromPending(cs: seq<Case>, ls: seq<Label>, i: int)
    requires IsRun(cs, ls) && 0 <= i < |ls| && cs[i].state != cs[i + 1].state
    ensures cs[i + 1].state == Approved ==> cs[i].state == ApprovedPendingContact
    ensures cs[i + 1].state == Rejected ==> cs[i].state == RejectedPendingContact
    ensures !IsTerminal(cs[i].state)
  {
    StepStaysOnBranch(cs[i], ls[i], cs[i + 1]);
  }

  lemma {:induction false} BranchIsKept(cs: seq<Case>, ls: seq<Label>, i: int, j: int)
    requires IsRun(cs, ls) && 0 <= i <= j < |cs|
    ensures InApproval(cs[i].state) ==> InApproval(cs[j].state)
    ensures InRefusal(cs[i].state) ==> InRefusal(cs[j].state)
    decreases j
  {
    hide InApproval, InRefusal, Step, IsTerminal;
    if i < j {
      BranchIsKept(cs, ls, i, j - 1);
      StepStaysOnBranch(cs[j - 1], ls[j - 1], cs[j]);
    }
  }

  /** No run touches both the approval and the refusal branch. */
  lemma BranchesNeverCross(cs: seq<Case>, ls: seq<Label>, i: int, j: int)
    requires IsRun(cs, ls) && 0 <= i < |cs| && 0 <= j < |cs|
    ensures !(InApproval(cs[i].state) && InRefusal(cs[j].state))
  {
    BranchIsKept(cs, ls, i, if i <= j then j else i);
    BranchIsKept(cs, ls, j, if i <= j then j else i);
  }

  // ---- The controls in every reachable case ----

  ghost predicate Reachable(c: Case) {
    exists cs, ls :: IsRun(cs, ls) && cs[|cs| - 1] == c
  }

  /** The work item the backend reports: the origin is resolved only while the
      case waits in `updated`. */
  function Report(c: Case): WorkItem {
    WorkItem(Some(TYPE_ID), Some(c.state),
             Some(if c.state == Updated && c.origin.Some? then Declared(ContinueAction(c.origin.value)).toStateId else c.state),
             c.assignee)
  }

  lemma ReachableIsConsistent(c: Case)
    requires Reachable(c)
    ensures exists dulyMade :: Consistent(c, dulyMade)
  {
    var cs, ls :| IsRun(cs, ls) && cs[|cs| - 1] == c;
    RunIsConsistent(cs, ls, |cs| - 1);
  }

  /** The control a case calls for, read off its state and origin. */
  function ControlsByState(c: Case): Controls {
    Controls(c.state == Submitted || (c.state == Updated && c.origin == Some(DulyMakingStage)),
             IsDecisionEntry(c.state),
             c.state == Updated && c.origin != Some(DulyMakingStage),
             c.state == ApprovedPendingContact || c.state == RejectedPendingContact)
  }

  lemma ReportedOrigin(c: Case, dulyMade: bool)
    requires Consistent(c, dulyMade)
    ensures Report(c).originStateId == Some(Submitted)
            <==> c.state == Submitted || (c.state == Updated && c.origin == Some(DulyMakingStage))
  {
  }

  /** What the page offers on a reachable case, case by case. */
  lemma ControlsOf(c: Case)
    requires Reachable(c)
    ensures Offered(REGISTERED, Report(c)) == ControlsByState(c)
  {
    ReachableIsConsistent(c);
    var dulyMade :| Consistent(c, dulyMade);
    ReportedOrigin(c, dulyMade);
    var item := Report(c);
    OfferedExactly(item);
    ExpectedControls(c, item);
  }

  lemma ExpectedControls(c: Case, item: WorkItem)
    requires item.stateId == Some(c.state)
    requires item.originStateId == Some(Submitted)
             <==> c.state == Submitted || (c.state == Updated && c.origin == Some(DulyMakingStage))
    ensures ControlsByState(c) ==
            Controls(!IsTerminal(c.state) && (c.state == Submitted || item.originStateId == Some(Submitted)),
                     IsDecisionEntry(c.state),
                     c.state == Updated && item.originStateId != Some(Submitted),
                     c.state == ApprovedPendingContact || c.state == RejectedPendingContact)
  {
  }

  lemma OneControlByState(c: Case)
    ensures CountOffered(ControlsByState(c)) == if IsTerminal(c.state) || c.state == Queried then 0 else 1
  {
  }

  /** Exactly one control is offered unless the case is closed or waits for the
      operator, and then none is. */
  lemma ExactlyOneControl(c: Case)
    requires Reachable(c)
    ensures CountOffered(Offered(REGISTERED, Report(c)))
            == if IsTerminal(c.state) || c.state == Queried then 0 else 1
  {
    ControlsOf(c);
    OneControlByState(c);
  }

  // ---- Following the controls ----

  /** The backend steps behind the control offered on a case, or behind the
      operator's response to a query. */
  function Plan(c: Case, outcome: Outcome): seq<ActionId> {
    PlanFor(c, Offered(REGISTERED, Report(c)), outcome)
  }

  function PlanFor(c: Case, controls: Controls, outcome: Outcome): seq<ActionId> {
    if c.state == Queried && c.origin.Some? then [ResumeAction(c.origin.value)]
    else if controls.dulyMake then
      (if c.state == Updated then [ContinueReviewDuringDulyMaking] else []) + [DulyMake]
    else if controls.logDecision then
      (if c.state == DulyMade then [StartAssessment] else [])
      + (if c.state == AwaitingDecision then [] else [SubmitForDecision])
      + [DecisionAction(outcome)]
    else if controls.continueReview && c.origin.Some? then [ContinueAction(c.origin.value)]
    else if controls.confirmContact then
      [if c.state == ApprovedPendingContact then ConfirmContactApproved else ConfirmContactRejected]
    else []
  }

  /** Applying actions one after another; `None` if one is not enabled. */
  function ApplyAll(c: Case, actions: seq<ActionId>): Option<Case>
    decreases |actions|
  {
    if actions == [] then Some(c)
    else if !Enabled(c, actions[0]) then None
    else ApplyAll(Apply(c, actions[0], c.assignee), actions[1..])
  }

  /** How far a case is from its outcome. */
  function Rank(c: Case): nat {
    if IsTerminal(c.state) then 0
    else if c.state == ApprovedPendingContact || c.state == RejectedPendingContact then 1
    else if c.state == Submitted || c.state == Updated then 3
    else if c.state == Queried then 4
    else 2
  }

  lemma StepReaches(c: Case, l: Label, c': Case)
    requires Reachable(c) && Step(c, l, c')
    ensures Reachable(c')
  {
    var cs, ls :| IsRun(cs, ls) && cs[|cs| - 1] == c;
    assert IsRun(cs + [c'], ls + [l]);
    assert (cs + [c'])[|cs + [c']| - 1] == c';
  }

  lemma {:induction false} ApplyAllReaches(c: Case, actions: seq<ActionId>)
    requires Reachable(c) && ApplyAll(c, actions).Some?
    ensures Reachable(ApplyAll(c, actions).value)
    decreases |actions|
  {
    if actions != [] {
      var next := Apply(c, actions[0], c.assignee);
      assert Step(c, Act(actions[0]), next);
      StepReaches(c, Act(actions[0]), next);
      ApplyAllReaches(next, actions[1..]);
    }
  }

  lemma ApplyOne(c: Case, a: ActionId)
    requires Enabled(c, a)
    ensures ApplyAll(c, [a]) == Some(Apply(c, a, c.assignee))
  {
    assert [a][1..] == [];
  }

  lemma ApplyTwo(c: Case, a: ActionId, b: ActionId)
    requires Enabled(c, a) && Enabled(Apply(c, a, c.assignee), b)
    ensures ApplyAll(c, [a, b]) == ApplyAll(Apply(c, a, c.assignee), [b])
  {
    assert [a, b][1..] == [b];
  }

  lemma ApplyThree(c: Case, a: ActionId, b: ActionId, d: ActionId)
    requires Enabled(c, a)
    ensures ApplyAll(c, [a, b, d]) == ApplyAll(Apply(c, a, c.assignee), [b, d])
  {
    assert [a, b, d][1..] == [b, d];
  }

  function PendingState(outcome: Outcome): StateId {
    if outcome == ForApproval then ApprovedPendingContact else RejectedPendingContact
  }

  predicate DecisionLands(c: Case, plan: seq<ActionId>, outcome: Outcome) {
    ApplyAll(c, plan).Some? && ApplyAll(c, plan).value.state == PendingState(outcome)
  }

  lemma DecideAwaiting(c: Case, outcome: Outcome)
    requires c.state == AwaitingDecision
    ensures DecisionLands(c, [DecisionAction(outcome)], outcome)
  {
    ApplyOne(c, DecisionAction(outcome));
  }

  lemma DecideInProgress(c: Case, outcome: Outcome)
    requires c.state == AssessmentInProgress || c.state == AssessmentStarted
    ensures DecisionLands(c, [SubmitForDecision, DecisionAction(outcome)], outcome)
  {
    ApplyTwo(c, SubmitForDecision, DecisionAction(outcome));
    DecideAwaiting(Apply(c, SubmitForDecision, c.assignee), outcome);
  }

  lemma DecideDulyMade(c: Case, outcome: Outcome)
    requires c.state == DulyMade
    ensures DecisionLands(c, [StartAssessment, SubmitForDecision, DecisionAction(outcome)], outcome)
  {
    ApplyThree(c, StartAssessment, SubmitForDecision, DecisionAction(outcome));
    DecideInProgress(Apply(c, StartAssessment, c.assignee), outcome);
  }

  /** The decision taken from an entry state lands on the outcome's own
      pending-contact state. */
  lemma DecisionPlan(c: Case, outcome: Outcome)
    requires IsDecisionEntry(c.state)
    ensures DecisionLands(c, (if c.state == DulyMade then [StartAssessment] else [])
                             + (if c.state == AwaitingDecision then [] else [SubmitForDecision])
                             + [DecisionAction(outcome)], outcome)
  {
    var d := DecisionAction(outcome);
    if c.state == AwaitingDecision {
      assert [] + [] + [d] == [d];
      DecideAwaiting(c, outcome);
    } else if c.state == DulyMade {
      assert [StartAssessment] + [SubmitForDecision] + [d] == [StartAssessment, SubmitForDecision, d];
      DecideDulyMade(c, outcome);
    } else {
      assert [] + [SubmitForDecision] + [d] == [SubmitForDecision, d];
      DecideInProgress(c, outcome);
    }
  }

  lemma DulyMakeFromUpdated(c: Case)
    requires c.state == Updated && c.origin == Some(DulyMakingStage)
    ensures var plan := [ContinueReviewDuringDulyMaking] + [DulyMake];
            ApplyAll(c, plan).Some? && ApplyAll(c, plan).value.state == DulyMade
  {
    var back := Apply(c, ContinueReviewDuringDulyMaking, c.assignee);
    ApplyTwo(c, ContinueReviewDuringDulyMaking, DulyMake);
    ApplyOne(back, DulyMake);
    assert [ContinueReviewDuringDulyMaking] + [DulyMake] == [ContinueReviewDuringDulyMaking, DulyMake];
  }

  /** The single action followed elsewhere. */
  function OneStep(c: Case): ActionId
    requires c.state == Queried || c.state == Updated ==> c.origin.Some?
  {
    match c.state
    case Submitted => DulyMake
    case Queried => ResumeAction(c.origin.value)
    case Updated => ContinueAction(c.origin.value)
    case ApprovedPendingContact => ConfirmContactApproved
    case _ => ConfirmContactRejected
  }

  lemma OneStepPlan(c: Case, outcome: Outcome, dulyMade: bool)
    requires Consistent(c, dulyMade) && !IsTerminal(c.state) && !IsDecisionEntry(c.state)
    requires !(c.state == Updated && c.origin == Some(DulyMakingStage))
    ensures PlanFor(c, ControlsByState(c), outcome) == [OneStep(c)]
    ensures ApplyAll(c, [OneStep(c)]).Some? && Rank(ApplyAll(c, [OneStep(c)]).value) < Rank(c)
  {
    assert [] + [DulyMake] == [DulyMake];
    OneStepAdvances(c, dulyMade);
    ApplyOne(c, OneStep(c));
  }

  lemma OneStepAdvances(c: Case, dulyMade: bool)
    requires Consistent(c, dulyMade) && !IsTerminal(c.state) && !IsDecisionEntry(c.state)
    requires !(c.state == Updated && c.origin == Some(DulyMakingStage))
    ensures Enabled(c, OneStep(c)) && Rank(Apply(c, OneStep(c), c.assignee)) < Rank(c)
  {
    if c.state == Queried || c.state == Updated {
      var stage := c.origin.value;
      assert Target(if c.state == Queried then ResumeAction(stage) else ContinueAction(stage), c.state).Some?;
    }
  }

  lemma PlanByStateAdvances(c: Case, outcome: Outcome, dulyMade: bool)
    requires Consistent(c, dulyMade) && !IsTerminal(c.state)
    ensures var plan := PlanFor(c, ControlsByState(c), outcome);
            ApplyAll(c, plan).Some? && Rank(ApplyAll(c, plan).value) < Rank(c)
  {
    if IsDecisionEntry(c.state) {
      DecisionPlan(c, outcome);
    } else if c.state == Updated && c.origin == Some(DulyMakingStage) {
      DulyMakeFromUpdated(c);
    } else {
      OneStepPlan(c, outcome, dulyMade);
    }
  }

  /** Following the offered control, or the operator's response, is always
      possible and brings an open case strictly closer to an outcome. */
  lemma PlanAdvances(c: Case, outcome: Outcome)
    requires Reachable(c) && !IsTerminal(c.state)
    ensures ApplyAll(c, Plan(c, outcome)).Some?
    ensures Reachable(ApplyAll(c, Plan(c, outcome)).value)
    ensures Rank(ApplyAll(c, Plan(c, outcome)).value) < Rank(c)
  {
    ReachableIsConsistent(c);
    var dulyMade :| Consistent(c, dulyMade);
    ControlsOf(c);
    PlanByStateAdvances(c, outcome, dulyMade);
    assert Plan(c, outcome) == PlanFor(c, ControlsByState(c), outcome);
    ApplyAllReaches(c, Plan(c, outcome));
  }

  /** One follow-up. */
  function Advance(c: Case, outcome: Outcome): Case {
    match ApplyAll(c, Plan(c, outcome))
    case Some(next) => next
    case None => c
  }

  lemma AdvanceIsCloser(c: Case, outcome: Outcome)
    requires Reachable(c) && !IsTerminal(c.state)
    ensures Reachable(Advance(c, outcome)) && Rank(Advance(c, outcome)) < Rank(c)
  {
    PlanAdvances(c, outcome);
  }

  /** Following up once for each outcome in turn, until the case is closed. */
  function FollowUp(c: Case, outcomes: seq<Outcome>): Case
    decreases |outcomes|
  {
    if outcomes == [] || IsTerminal(c.state) then c else FollowUp(Advance(c, outcomes[0]), outcomes[1..])
  }

  lemma {:induction false} FollowUpCloses(c: Case, outcomes: seq<Outcome>)
    requires Reachable(c) && |outcomes| >= Rank(c)
    ensures IsTerminal(FollowUp(c, outcomes).state) && Reachable(FollowUp(c, outcomes))
    decreases |outcomes|
  {
    if !IsTerminal(c.state) {
      AdvanceIsCloser(c, outcomes[0]);
      FollowUpCloses(Advance(c, outcomes[0]), outcomes[1..]);
    }
  }

  /** No case strands: from every reachable one, four follow-ups end in a closed
      case, whichever outcomes are chosen on the way. */
  lemma EveryCaseCloses(c: Case, outcomes: seq<Outcome>)
    requires Reachable(c) && |outcomes| == 4
    ensures IsTerminal(FollowUp(c, outcomes).state) && Reachable(FollowUp(c, outcomes))
  {
    FollowUpCloses(c, outcomes);
  }

  // ---- The deadline control and the buttons ----

  /** What the backend lists for a case: the invocable actions it would apply. */
  ghost predicate IsProjection(c: Case, available: seq<Projected>) {
    && (forall p :: p in available ==> Enabled(c, p.actionId) && p.callerInvocable == Declared(p.actionId).callerInvocable)
    && (forall a :: Enabled(c, a) && Declared(a).callerInvocable && !(a == SlaExtend && c.state == AssessmentStarted)
          ==> exists p :: p in available && p.actionId == a)
  }

  predicate TakesDeadlineChange(s: StateId) {
    s == DulyMade || s == AssessmentStarted || s == AssessmentInProgress || s == Queried
  }

  lemma DeadlineRule(c: Case)
    ensures TakesDeadlineChange(c.state)
            <==> || Enabled(c, SlaExtend)
                 || (Enabled(c, StartAssessment) && Enabled(Apply(c, StartAssessment, c.assignee), SlaExtend))
  {
  }

  lemma SlaExtendProjected(c: Case, available: seq<Projected>)
    requires IsProjection(c, available)
    ensures (exists p :: p in ProjectedActions(available) && p.actionId == SlaExtend)
            ==> c.state == AssessmentInProgress || c.state == AssessmentStarted || c.state == Queried
    ensures c.state == AssessmentInProgress || c.state == Queried
            ==> exists p :: p in ProjectedActions(available) && p.actionId == SlaExtend
  {
    if c.state == AssessmentInProgress || c.state == Queried {
      assert Enabled(c, SlaExtend);
      var p :| p in available && p.actionId == SlaExtend;
      assert p in ProjectedActions(available);
    }
  }

  lemma DeadlineOffered(c: Case, available: seq<Projected>)
    requires IsProjection(c, available)
    ensures CanChangeDueDate(REGISTERED, Report(c), available) <==> TakesDeadlineChange(c.state)
  {
    StartMarker();
    StartsOnlyFromDulyMade(c.state);
    SlaExtendProjected(c, available);
  }

  /** The deadline link shows exactly where the deadline submit can succeed: the
      case takes `sla-extend` as it stands, or does once it has been started. */
  lemma DeadlineLinkExactly(c: Case, available: seq<Projected>)
    requires IsProjection(c, available)
    ensures ShowsDeadlineLink(REGISTERED, Report(c), available) <==> TakesDeadlineChange(c.state)
    ensures TakesDeadlineChange(c.state)
            <==> || Enabled(c, SlaExtend)
                 || (Enabled(c, StartAssessment) && Enabled(Apply(c, StartAssessment, c.assignee), SlaExtend))
  {
    hide CanChangeDueDate, IsProjection, Enabled, Apply;
    DeadlineOffered(c, available);
    DeadlineRule(c);
  }

  lemma QueryIds(a: ActionId)
    requires RaisedAt(a).Some?
    ensures IsQueryActionId(a)
  {
    assert WireId(a)[..6] == "query-";
  }

  /** The ids of queries, and no others, look like a query's. */
  lemma QueryIdsExactly(a: ActionId)
    ensures IsQueryActionId(a) <==> RaisedAt(a).Some?
  {
    if RaisedAt(a).Some? {
      QueryIds(a);
    } else {
      assert WireId(a)[0] != 'q';
    }
  }

  /** The response to a query and the continue-review after it go by the id of its
      stage. */
  lemma ResponseIds()
    ensures WireId(ResumeAction(DulyMakingStage)) == "resume-during-duly-making"
    ensures WireId(ResumeAction(DulyMadeStage)) == "resume-during-duly-made"
    ensures WireId(ResumeAction(AssessmentStage)) == "resume-during-assessment"
    ensures WireId(ResumeAction(DecisionStage)) == "resume-during-decision"
  {
  }

  lemma ContinueReviewIds()
    ensures WireId(ContinueAction(DulyMakingStage)) == "continue-review-during-duly-making"
    ensures WireId(ContinueAction(DulyMadeStage)) == "continue-review-during-duly-made"
    ensures WireId(ContinueAction(AssessmentStage)) == "continue-review-during-assessment"
    ensures WireId(ContinueAction(DecisionStage)) == "continue-review-during-decision"
  {
  }

  lemma WithdrawIds(a: ActionId)
    requires || a == Withdraw || a == WithdrawDuringDulyMade || a == WithdrawDuringAssessment
             || a == WithdrawDuringDecision || a == WithdrawDuringQuery || a == WithdrawDuringUpdated
    ensures IsWithdrawActionId(a)
  {
    if a != Withdraw {
      assert WireId(a)[..9] == "withdraw-";
    }
  }

  lemma QueryOrWithdraw(a: ActionId)
    requires Declared(a).callerInvocable && a != SlaExtend && a != StartAssessment
    ensures IsQueryActionId(a) || IsWithdrawActionId(a)
  {
    if RaisedAt(a).Some? {
      QueryIds(a);
    } else {
      WithdrawIds(a);
    }
  }

  lemma SelfAssignIsStart(a: ActionId)
    ensures IsSelfAssignAction(REGISTERED, a) <==> a == StartAssessment
  {
    assert TRANSITIONS[Position(a)] == Declared(a);
    if IsSelfAssignAction(REGISTERED, a) {
      var k :| 0 <= k < |TRANSITIONS| && TRANSITIONS[k].startsOnSelfAssign && TRANSITIONS[k].actionId == a;
      OnlyStarter(TRANSITIONS[k]);
    }
  }

  lemma NonInvocableIsDeclared(a: ActionId)
    ensures IsDeclaredNonInvocable(REGISTERED, a) <==> !Declared(a).callerInvocable
  {
    hide Declared;
    assert TRANSITIONS[Position(a)] == Declared(a);
    if IsDeclaredNonInvocable(REGISTERED, a) {
      var k :| 0 <= k < |TRANSITIONS| && !TRANSITIONS[k].callerInvocable && TRANSITIONS[k].actionId == a;
      TableHolds(TRANSITIONS[k]);
    }
  }

  lemma ButtonExactly(a: ActionId)
    ensures a != SlaExtend && !IsWithdrawActionId(a) && !IsSelfAssignAction(REGISTERED, a) && !IsDeclaredNonInvocable(REGISTERED, a)
            <==> RaisedAt(a).Some?
  {
    SelfAssignIsStart(a);
    NonInvocableIsDeclared(a);
    hide IsSelfAssignAction, IsDeclaredNonInvocable;
    if RaisedAt(a).Some? {
      QueryIds(a);
      assert WireId(a)[0] == 'q';
    } else if Declared(a).callerInvocable && a != SlaExtend && a != StartAssessment {
      WithdrawIds(a);
    }
  }

  lemma {:induction false} SameButtons(listed: seq<Projected>)
    ensures Filter(listed, (p: Projected) =>
              && p.actionId != SlaExtend && !IsWithdrawActionId(p.actionId)
              && !IsSelfAssignAction(REGISTERED, p.actionId)
              && !IsDeclaredNonInvocable(REGISTERED, p.actionId))
            == Filter(listed, (p: Projected) => RaisedAt(p.actionId).Some?)
  {
    if listed != [] {
      SameButtons(listed[1..]);
      ButtonExactly(listed[0].actionId);
    }
  }

  /** The generic buttons of a re-accreditation are exactly the queries the backend
      lists as open to the caller, in its order. */
  lemma ButtonsExactly(available: seq<Projected>)
    ensures Buttons(REGISTERED, available)
            == Filter(Filter(available, (p: Projected) => p.callerInvocable), (p: Projected) => RaisedAt(p.actionId).Some?)
  {
    SameButtons(ProjectedActions(available));
  }

  /** On a re-accreditation the only generic buttons left are queries. */
  lemma ButtonsAreQueries(c: Case, available: seq<Projected>, p: Projected)
    requires IsProjection(c, available) && p in Buttons(REGISTERED, available)
    ensures IsQueryActionId(p.actionId) && Enabled(c, p.actionId)
  {
    assert TRANSITIONS[Position(p.actionId)] == Declared(p.actionId);
    QueryOrWithdraw(p.actionId);
  }
}
