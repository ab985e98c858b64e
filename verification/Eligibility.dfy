/** The "may I" rules of a re-accreditation and the controls the detail page
    offers. Every rule reads the declaration; none names a state itself. */
module Eligibility {
  import opened Prelude
  import opened Engine
  import opened ReAccreditation
  import Text

  type CaseType = WorkItemType<StateId, ActionId>

  /** The raw work item the backend returns. */
  datatype WorkItem = WorkItem(
    typeId: Option<string>,
    stateId: Option<StateId>,
    originStateId: Option<StateId>,
    assignedToId: Option<string>)

  datatype Outcome = ForApproval | ForRefusal

  /** `DECISION_OUTCOMES` */
  function DecisionAction(outcome: Outcome): ActionId {
    if outcome == ForApproval then MakeDeterminationApproved else MakeDeterminationRejected
  }

  predicate IsOtherType(item: WorkItem) {
    item.typeId.Some? && item.typeId.value != TYPE_ID
  }

  // ---- decision/eligibility.js ----

  function FromStateOf(t: CaseType, a: ActionId): set<StateId> {
    var tr := FindAction(t, a);
    if tr.Some? then {tr.value.fromStateId} else {}
  }

  function SelfAssignStart(t: CaseType): Option<Transition<StateId, ActionId>> {
    Find(t.transitions, (tr: Transition<StateId, ActionId>) => tr.startsOnSelfAssign)
  }

  function DecisionEntries(t: CaseType): set<StateId> {
    var start := SelfAssignStart(t);
    var landing := ResolveSelfAssignLandingState(Some(t));
    FromStateOf(t, MakeDeterminationApproved) + FromStateOf(t, MakeDeterminationRejected)
    + FromStateOf(t, SubmitForDecision)
    + (if start.Some? then {start.value.fromStateId} else {})
    + (if landing.Some? then {landing.value} else {})
  }

  /** `decisionEntryStates`, filling its set step by step. */
  method DecisionEntryStates(t: CaseType) returns (states: set<StateId>)
    ensures states == DecisionEntries(t)
  {
    states := {};
    var outcomes := [MakeDeterminationApproved, MakeDeterminationRejected];
    for i := 0 to |outcomes|
      invariant states == (if i > 0 then FromStateOf(t, MakeDeterminationApproved) else {})
                        + (if i > 1 then FromStateOf(t, MakeDeterminationRejected) else {})
    {
      var transition := FindAction(t, outcomes[i]);
      if transition.Some? {
        states := states + {transition.value.fromStateId};
      }
    }
    var submit := FindAction(t, SubmitForDecision);
    if submit.Some? {
      states := states + {submit.value.fromStateId};
    }
    var start := SelfAssignStart(t);
    if start.Some? {
      states := states + {start.value.fromStateId};
    }
    var landing := ResolveSelfAssignLandingState(Some(t));
    if landing.Some? {
      states := states + {landing.value};
    }
  }

  /** `evaluateLogDecisionEligibility`; `None` for a type not registered. */
  function EvaluateLogDecision(registered: Option<CaseType>, item: WorkItem): Verdict {
    if IsOtherType(item) then Denied(WrongType)
    else if registered.None? then Denied(TypeNotRegistered)
    else if DecisionEntries(registered.value) == {} then Denied(UnknownAction)
    else if item.stateId.None? then Denied(InvalidWorkItem)
    else if IsTerminalState(registered.value, item.stateId.value) then Denied(TerminalState)
    else if item.stateId.value !in DecisionEntries(registered.value) then Denied(InvalidTransition)
    else Allowed
  }

  /** `targetStateForOutcome` */
  function TargetStateForOutcome(registered: Option<CaseType>, outcome: Option<Outcome>): Option<StateId> {
    if outcome.None? || registered.None? then None
    else
      var tr := FindAction(registered.value, DecisionAction(outcome.value));
      if tr.Some? then Some(tr.value.toStateId) else None
  }

  // ---- duly-making/eligibility.js ----

  /** `evaluateDulyMakeEligibility` */
  function EvaluateDulyMake(registered: Option<CaseType>, item: WorkItem): Verdict {
    if IsOtherType(item) then Denied(WrongType)
    else if registered.None? then Denied(TypeNotRegistered)
    else
      var transition := FindAction(registered.value, DulyMake);
      if transition.None? then Denied(UnknownAction)
      else if item.stateId.None? then Denied(InvalidWorkItem)
      else if IsTerminalState(registered.value, item.stateId.value) then Denied(TerminalState)
      else if transition.value.fromStateId == item.stateId.value then Allowed
      else if item.originStateId == Some(transition.value.fromStateId) then Allowed
      else Denied(InvalidTransition)
  }

  // ---- re-accreditation-cta.js ----

  const CONTINUE_REVIEW_ACTION_PREFIX := "continue-review-during-"

  predicate IsContinueReviewAction(a: ActionId) {
    Text.StartsWith(WireId(a), CONTINUE_REVIEW_ACTION_PREFIX)
  }

  /** `isContinueReviewState` */
  predicate IsContinueReviewState(registered: Option<CaseType>, stateId: Option<StateId>) {
    stateId.Some? && registered.Some? &&
    exists k :: 0 <= k < |registered.value.transitions|
                && IsContinueReviewAction(registered.value.transitions[k].actionId)
                && registered.value.transitions[k].fromStateId == stateId.value
  }

  /** `isPreDulyMadeWaypoint` */
  predicate IsPreDulyMadeWaypoint(registered: Option<CaseType>, originStateId: Option<StateId>) {
    originStateId.Some? && registered.Some? &&
    var dulyMake := FindAction(registered.value, DulyMake);
    dulyMake.Some? && dulyMake.value.fromStateId == originStateId.value
  }

  // ---- detail.controller.js ----

  /** The four onward controls of the detail page. */
  datatype Controls = Controls(dulyMake: bool, logDecision: bool, continueReview: bool, confirmContact: bool)

  /** `applyReAccreditationViewModel`, as far as the controls go. */
  function Offered(registered: Option<CaseType>, item: WorkItem): Controls {
    if item.typeId != Some(TYPE_ID) then Controls(false, false, false, false)
    else
      Controls(
        EvaluateDulyMake(registered, item).Allowed?,
        EvaluateLogDecision(registered, item).Allowed?,
        IsContinueReviewState(registered, item.stateId) && !IsPreDulyMadeWaypoint(registered, item.originStateId),
        item.stateId.Some? && item.stateId.value in PENDING_CONTACT_STATE_IDS)
  }

  function CountOffered(c: Controls): nat {
    (if c.dulyMake then 1 else 0) + (if c.logDecision then 1 else 0)
    + (if c.continueReview then 1 else 0) + (if c.confirmContact then 1 else 0)
  }

  predicate IsWithdrawActionId(a: ActionId) {
    WireId(a) == "withdraw" || Text.StartsWith(WireId(a), "withdraw-")
  }

  predicate IsQueryActionId(a: ActionId) {
    WireId(a) == "query" || Text.StartsWith(WireId(a), "query-")
  }

  /** One action as the backend projects it. */
  datatype Projected = Projected(actionId: ActionId, callerInvocable: bool)

  function ProjectedActions(available: seq<Projected>): seq<Projected> {
    Filter(available, (p: Projected) => p.callerInvocable)
  }

  predicate IsSelfAssignAction(registered: Option<CaseType>, a: ActionId) {
    registered.Some? &&
    exists k :: 0 <= k < |registered.value.transitions|
                && registered.value.transitions[k].startsOnSelfAssign
                && registered.value.transitions[k].actionId == a
  }

  predicate IsDeclaredNonInvocable(registered: Option<CaseType>, a: ActionId) {
    registered.Some? &&
    exists k :: 0 <= k < |registered.value.transitions|
                && !registered.value.transitions[k].callerInvocable
                && registered.value.transitions[k].actionId == a
  }

  /** The generic action buttons `decorate` leaves on the page. */
  function Buttons(registered: Option<CaseType>, available: seq<Projected>): seq<Projected> {
    Filter(ProjectedActions(available),
           (p: Projected) =>
             && p.actionId != SlaExtend && !IsWithdrawActionId(p.actionId)
             && !IsSelfAssignAction(registered, p.actionId)
             && !IsDeclaredNonInvocable(registered, p.actionId))
  }

  /** `canChangeDueDateFor` */
  predicate CanChangeDueDate(registered: Option<CaseType>, item: WorkItem, available: seq<Projected>) {
    || (exists p :: p in ProjectedActions(available) && p.actionId == SlaExtend)
    || ResolveSelfAssignTransition(registered, item.stateId).Some?
    || (ResolveSelfAssignLandingState(registered).Some? && ResolveSelfAssignLandingState(registered) == item.stateId)
  }

  /** `canChangeDueDate` on the page of a re-accreditation: never beside a
      determination already made. */
  predicate ShowsDeadlineLink(registered: Option<CaseType>, item: WorkItem, available: seq<Projected>) {
    && !(item.stateId.Some? && item.stateId.value in PENDING_CONTACT_STATE_IDS)
    && CanChangeDueDate(registered, item, available)
  }

  // ---- What the rules come to for the declared type ----

  const REGISTERED: Option<CaseType> := Some(RE_ACCREDITATION)

  ghost predicate IsCase(item: WorkItem) {
    item.typeId == Some(TYPE_ID) && item.stateId.Some?
  }

  predicate IsDecisionEntry(s: StateId) {
    s == DulyMade || s == AssessmentStarted || s == AssessmentInProgress || s == AwaitingDecision
  }

  lemma FromStateDeclared(a: ActionId)
    ensures FromStateOf(RE_ACCREDITATION, a) == {Declared(a).fromStateId}
  {
    LookUp(a);
  }

  lemma EntriesOf(t: CaseType, approve: StateId, refuse: StateId, submit: StateId, start: StateId, landing: StateId,
                  s: StateId)
    requires FromStateOf(t, MakeDeterminationApproved) == {approve}
    requires FromStateOf(t, MakeDeterminationRejected) == {refuse}
    requires FromStateOf(t, SubmitForDecision) == {submit}
    requires SelfAssignStart(t).Some? && SelfAssignStart(t).value.fromStateId == start
    requires ResolveSelfAssignLandingState(Some(t)) == Some(landing)
    ensures s in DecisionEntries(t) <==> s == approve || s == refuse || s == submit || s == start || s == landing
  {
    hide FromStateOf, SelfAssignStart, ResolveSelfAssignLandingState;
  }

  lemma DecisionEntriesAre(s: StateId)
    ensures s in DecisionEntries(RE_ACCREDITATION) <==> IsDecisionEntry(s)
  {
    StartMarker();
    hide FromStateOf, DecisionEntries, FindAction;
    FromStateDeclared(MakeDeterminationApproved);
    FromStateDeclared(MakeDeterminationRejected);
    FromStateDeclared(SubmitForDecision);
    EntriesOf(RE_ACCREDITATION, AwaitingDecision, AwaitingDecision, AssessmentInProgress, DulyMade, AssessmentStarted, s);
  }

  lemma LogDecisionOn(t: CaseType, item: WorkItem, entry: StateId)
    requires IsCase(item) && entry in DecisionEntries(t)
    ensures EvaluateLogDecision(Some(t), item)
            == if IsTerminalState(t, item.stateId.value) then Denied(TerminalState)
               else if item.stateId.value !in DecisionEntries(t) then Denied(InvalidTransition)
               else Allowed
  {
  }

  /** A decision may be logged from a duly made, started, in-progress or
      awaiting case, and from nothing else. */
  lemma LogDecisionExactly(item: WorkItem)
    requires IsCase(item)
    ensures EvaluateLogDecision(REGISTERED, item).Allowed? <==> IsDecisionEntry(item.stateId.value)
    ensures EvaluateLogDecision(REGISTERED, item) == Denied(TerminalState) <==> IsTerminal(item.stateId.value)
  {
    DecisionEntriesAre(AwaitingDecision);
    DecisionEntriesAre(item.stateId.value);
    TerminalStates(item.stateId.value);
    LogDecisionOn(RE_ACCREDITATION, item, AwaitingDecision);
  }

  /** Duly making is open to a submitted case, and to any open case that will
      return to submitted. */
  lemma DulyMakeExactly(item: WorkItem)
    requires IsCase(item)
    ensures EvaluateDulyMake(REGISTERED, item).Allowed?
            <==> !IsTerminal(item.stateId.value)
                 && (item.stateId.value == Submitted || item.originStateId == Some(Submitted))
    ensures EvaluateDulyMake(REGISTERED, item) == Denied(TerminalState) <==> IsTerminal(item.stateId.value)
  {
    LookUp(DulyMake);
    TerminalStates(item.stateId.value);
  }

  /** Why the two rules refuse a work item: the first of these that holds. */
  lemma RefusalsInOrder(item: WorkItem)
    ensures var decide, make := EvaluateLogDecision(REGISTERED, item), EvaluateDulyMake(REGISTERED, item);
            if item.typeId.Some? && item.typeId.value != "re-accreditation" then decide == make == Denied(WrongType)
            else if item.stateId.None? then decide == make == Denied(InvalidWorkItem)
            else if IsTerminal(item.stateId.value) then decide == make == Denied(TerminalState)
            else
              && decide == (if IsDecisionEntry(item.stateId.value) then Allowed else Denied(InvalidTransition))
              && make == (if item.stateId == Some(Submitted) || item.originStateId == Some(Submitted) then Allowed
                          else Denied(InvalidTransition))
    ensures !IsOtherType(item) ==> EvaluateLogDecision(None, item) == EvaluateDulyMake(None, item) == Denied(TypeNotRegistered)
  {
    DecisionEntriesAre(AwaitingDecision);
    LookUp(DulyMake);
    if item.stateId.Some? {
      DecisionEntriesAre(item.stateId.value);
      TerminalStates(item.stateId.value);
    }
  }

  lemma ContinueReviewActions(a: ActionId)
    ensures IsContinueReviewAction(a)
            <==> a in {ContinueReviewDuringDulyMaking, ContinueReviewDuringDulyMade,
                       ContinueReviewDuringAssessment, ContinueReviewDuringDecision}
  {
    var w, p := WireId(a), CONTINUE_REVIEW_ACTION_PREFIX;
    if Text.StartsWith(w, p) {
      assert w[0] == 'c' && w[2] == 'n' && w[3] == 't';
    }
  }

  lemma ContinueReviewLeaves(a: ActionId)
    requires IsContinueReviewAction(a)
    ensures Declared(a).fromStateId == Updated
  {
    ContinueReviewActions(a);
    hide IsContinueReviewAction;
  }

  lemma UpdatedIsContinueReviewState()
    ensures IsContinueReviewState(REGISTERED, Some(Updated))
  {
    var a := ContinueReviewDuringDecision;
    ContinueReviewActions(a);
    assert TRANSITIONS[Position(a)] == Declared(a);
  }

  lemma ContinueReviewStateIsUpdated(s: StateId)
    requires IsContinueReviewState(REGISTERED, Some(s))
    ensures s == Updated
  {
    var k :| 0 <= k < |TRANSITIONS| && IsContinueReviewAction(TRANSITIONS[k].actionId)
             && TRANSITIONS[k].fromStateId == s;
    assert TRANSITIONS[k] == Declared(ActionAt(k));
    ContinueReviewLeaves(ActionAt(k));
  }

  lemma ContinueReviewExactly(item: WorkItem)
    requires IsCase(item)
    ensures IsContinueReviewState(REGISTERED, item.stateId) <==> item.stateId.value == Updated
    ensures IsPreDulyMadeWaypoint(REGISTERED, item.originStateId) <==> item.originStateId == Some(Submitted)
  {
    LookUp(DulyMake);
    UpdatedIsContinueReviewState();
    if IsContinueReviewState(REGISTERED, item.stateId) {
      ContinueReviewStateIsUpdated(item.stateId.value);
    }
  }

  /** All four controls at once. */
  lemma OfferedExactly(item: WorkItem)
    requires IsCase(item)
    ensures var s, origin := item.stateId.value, item.originStateId;
            Offered(REGISTERED, item) ==
            Controls(!IsTerminal(s) && (s == Submitted || origin == Some(Submitted)),
                     IsDecisionEntry(s),
                     s == Updated && origin != Some(Submitted),
                     s == ApprovedPendingContact || s == RejectedPendingContact)
  {
    LogDecisionExactly(item);
    DulyMakeExactly(item);
    ContinueReviewExactly(item);
  }

  /** A work item of any other type, or of none, is offered nothing. */
  lemma OthersOfferedNothing(item: WorkItem)
    requires item.typeId != Some("re-accreditation")
    ensures CountOffered(Offered(REGISTERED, item)) == 0
  {
  }

  /** The outcome of a decision lands on its own pending-contact state. */
  lemma OutcomeLandsOnPending(outcome: Outcome)
    ensures TargetStateForOutcome(REGISTERED, Some(outcome))
            == Some(if outcome == ForApproval then ApprovedPendingContact else RejectedPendingContact)
  {
    var a := DecisionAction(outcome);
    assert Declared(a).toStateId == if outcome == ForApproval then ApprovedPendingContact else RejectedPendingContact;
    LookUp(a);
    assert TargetStateForOutcome(REGISTERED, Some(outcome)) == Some(Declared(a).toStateId);
  }
}
