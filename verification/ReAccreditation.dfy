/** The re-accreditation declaration: states, transitions and the ids they go by
    on the wire. */
module ReAccreditation {
  import opened Prelude
  import opened Engine

  const TYPE_ID := "re-accreditation"

  datatype StateId =
    | Submitted | DulyMade | AssessmentStarted | AssessmentInProgress | AwaitingDecision
    | Queried | Updated | ApprovedPendingContact | Approved | RejectedPendingContact
    | Rejected | Withdrawn

  datatype ActionId =
    | DulyMake | StartAssessment | SlaExtend | SubmitForDecision
    | MakeDeterminationApproved | ConfirmContactApproved
    | MakeDeterminationRejected | ConfirmContactRejected
    | Withdraw | WithdrawDuringDulyMade | WithdrawDuringAssessment
    | WithdrawDuringDecision | WithdrawDuringQuery | WithdrawDuringUpdated
    | QueryDuringDulyMaking | QueryDuringDulyMade | QueryDuringAssessment | QueryDuringDecision
    | ResumeDuringDulyMaking | ResumeDuringDulyMade | ResumeDuringAssessment | ResumeDuringDecision
    | ContinueReviewDuringDulyMaking | ContinueReviewDuringDulyMade
    | ContinueReviewDuringAssessment | ContinueReviewDuringDecision

  /** The id an action has in the declaration and in URLs. */
  function WireId(a: ActionId): string {
    match a
    case DulyMake => "duly-make"
    case StartAssessment => "start-assessment"
    case SlaExtend => "sla-extend"
    case SubmitForDecision => "submit-for-decision"
    case MakeDeterminationApproved => "make-determination-approved"
    case ConfirmContactApproved => "confirm-contact-approved"
    case MakeDeterminationRejected => "make-determination-rejected"
    case ConfirmContactRejected => "confirm-contact-rejected"
    case Withdraw => "withdraw"
    case WithdrawDuringDulyMade => "withdraw-during-duly-made"
    case WithdrawDuringAssessment => "withdraw-during-assessment"
    case WithdrawDuringDecision => "withdraw-during-decision"
    case WithdrawDuringQuery => "withdraw-during-query"
    case WithdrawDuringUpdated => "withdraw-during-updated"
    case QueryDuringDulyMaking => "query-during-duly-making"
    case QueryDuringDulyMade => "query-during-duly-made"
    case QueryDuringAssessment => "query-during-assessment"
    case QueryDuringDecision => "query-during-decision"
    case ResumeDuringDulyMaking => "resume-during-duly-making"
    case ResumeDuringDulyMade => "resume-during-duly-made"
    case ResumeDuringAssessment => "resume-during-assessment"
    case ResumeDuringDecision => "resume-during-decision"
    case ContinueReviewDuringDulyMaking => "continue-review-during-duly-making"
    case ContinueReviewDuringDulyMade => "continue-review-during-duly-made"
    case ContinueReviewDuringAssessment => "continue-review-during-assessment"
    case ContinueReviewDuringDecision => "continue-review-during-decision"
  }

  /** The id a state has in the declaration and on the wire. */
  function StateWireId(s: StateId): string {
    match s
    case Submitted => "submitted"
    case DulyMade => "duly-made"
    case AssessmentStarted => "assessment-started"
    case AssessmentInProgress => "assessment-in-progress"
    case AwaitingDecision => "awaiting-decision"
    case Queried => "queried"
    case Updated => "updated"
    case ApprovedPendingContact => "approved-pending-contact"
    case Approved => "approved"
    case RejectedPendingContact => "rejected-pending-contact"
    case Rejected => "rejected"
    case Withdrawn => "withdrawn"
  }

  /** What a state reads as on every page. */
  function DisplayName(s: StateId): string {
    match s
    case Submitted => "Not started"
    case DulyMade => "Duly made"
    case AssessmentStarted => "Duly made"
    case AssessmentInProgress => "Updated"
    case AwaitingDecision => "Awaiting decision"
    case Queried => "Queried"
    case Updated => "Updated"
    case ApprovedPendingContact => "Approved"
    case Approved => "Granted"
    case RejectedPendingContact => "Refused"
    case Rejected => "Refused"
    case Withdrawn => "Withdrawn"
  }

  /** The declared states, in order. */
  function StateAt(k: int): StateId {
    match k
    case 0 => Submitted
    case 1 => DulyMade
    case 2 => AssessmentStarted
    case 3 => AssessmentInProgress
    case 4 => AwaitingDecision
    case 5 => Queried
    case 6 => Updated
    case 7 => ApprovedPendingContact
    case 8 => Approved
    case 9 => RejectedPendingContact
    case 10 => Rejected
    case _ => Withdrawn
  }

  function DeclaredState(s: StateId): (d: State<StateId>)
    ensures d.id == s
  {
    match s
    case Approved => State(s, true)
    case Rejected => State(s, true)
    case Withdrawn => State(s, true)
    case _ => State(s, false)
  }

  function DeclaredStates(): (r: seq<State<StateId>>)
    ensures |r| == 12 && forall k :: 0 <= k < 12 ==> r[k] == DeclaredState(StateAt(k))
  {
    seq(12, k => DeclaredState(StateAt(k)))
  }

  const STATES: seq<State<StateId>> := DeclaredStates()

  /** `TERMINAL_STATE_IDS`, the list the detail page keeps of closed states. */
  const TERMINAL_STATE_IDS: set<StateId> := {Approved, Rejected, Withdrawn}

  predicate IsTerminal(s: StateId) {
    s in TERMINAL_STATE_IDS
  }

  /** A transition any caller may invoke. */
  function Open(a: ActionId, from: StateId, to: StateId): Transition<StateId, ActionId> {
    Transition(a, from, to, true, false)
  }

  /** A transition only the server applies. */
  function Closed(a: ActionId, from: StateId, to: StateId): Transition<StateId, ActionId> {
    Transition(a, from, to, false, false)
  }

  /** The transition declared for an action. */
  function Declared(a: ActionId): (t: Transition<StateId, ActionId>)
    ensures t.actionId == a
  {
    match a
    case DulyMake => Closed(a, Submitted, DulyMade)
    case StartAssessment => Transition(a, DulyMade, AssessmentStarted, true, true)
    case SlaExtend => Open(a, AssessmentInProgress, AssessmentInProgress)
    case SubmitForDecision => Closed(a, AssessmentInProgress, AwaitingDecision)
    case MakeDeterminationApproved => Closed(a, AwaitingDecision, ApprovedPendingContact)
    case ConfirmContactApproved => Closed(a, ApprovedPendingContact, Approved)
    case MakeDeterminationRejected => Closed(a, AwaitingDecision, RejectedPendingContact)
    case ConfirmContactRejected => Closed(a, RejectedPendingContact, Rejected)
    case Withdraw => Open(a, Submitted, Withdrawn)
    case WithdrawDuringDulyMade => Open(a, DulyMade, Withdrawn)
    case WithdrawDuringAssessment => Open(a, AssessmentInProgress, Withdrawn)
    case WithdrawDuringDecision => Open(a, AwaitingDecision, Withdrawn)
    case WithdrawDuringQuery => Open(a, Queried, Withdrawn)
    case WithdrawDuringUpdated => Open(a, Updated, Withdrawn)
    case QueryDuringDulyMaking => Open(a, Submitted, Queried)
    case QueryDuringDulyMade => Open(a, DulyMade, Queried)
    case QueryDuringAssessment => Open(a, AssessmentInProgress, Queried)
    case QueryDuringDecision => Open(a, AwaitingDecision, Queried)
    case ResumeDuringDulyMaking => Closed(a, Queried, Updated)
    case ResumeDuringDulyMade => Closed(a, Queried, AssessmentInProgress)
    case ResumeDuringAssessment => Closed(a, Queried, Updated)
    case ResumeDuringDecision => Closed(a, Queried, Updated)
    case ContinueReviewDuringDulyMaking => Closed(a, Updated, Submitted)
    case ContinueReviewDuringDulyMade => Closed(a, Updated, DulyMade)
    case ContinueReviewDuringAssessment => Closed(a, Updated, AssessmentInProgress)
    case ContinueReviewDuringDecision => Closed(a, Updated, AwaitingDecision)
  }

  /** The declared transitions, in order. */
  function ActionAt(k: int): ActionId {
    match k
    case 0 => DulyMake
    case 1 => StartAssessment
    case 2 => SlaExtend
    case 3 => SubmitForDecision
    case 4 => MakeDeterminationApproved
    case 5 => ConfirmContactApproved
    case 6 => MakeDeterminationRejected
    case 7 => ConfirmContactRejected
    case 8 => Withdraw
    case 9 => WithdrawDuringDulyMade
    case 10 => WithdrawDuringAssessment
    case 11 => WithdrawDuringDecision
    case 12 => WithdrawDuringQuery
    case 13 => WithdrawDuringUpdated
    case 14 => QueryDuringDulyMaking
    case 15 => QueryDuringDulyMade
    case 16 => QueryDuringAssessment
    case 17 => QueryDuringDecision
    case 18 => ResumeDuringDulyMaking
    case 19 => ResumeDuringDulyMade
    case 20 => ResumeDuringAssessment
    case 21 => ResumeDuringDecision
    case 22 => ContinueReviewDuringDulyMaking
    case 23 => ContinueReviewDuringDulyMade
    case 24 => ContinueReviewDuringAssessment
    case _ => ContinueReviewDuringDecision
  }

  function DeclaredTransitions(): (r: seq<Transition<StateId, ActionId>>)
    ensures |r| == 26 && forall k :: 0 <= k < 26 ==> r[k] == Declared(ActionAt(k))
  {
    seq(26, k => Declared(ActionAt(k)))
  }

  const TRANSITIONS: seq<Transition<StateId, ActionId>> := DeclaredTransitions()

  const RE_ACCREDITATION: WorkItemType<StateId, ActionId> := WorkItemType(STATES, TRANSITIONS)

  /** `PENDING_CONTACT_STATE_IDS` */
  const PENDING_CONTACT_STATE_IDS: set<StateId> := {ApprovedPendingContact, RejectedPendingContact}

  // ---- Reading the table ----

  /** Where an action stands in the table. */
  function Position(a: ActionId): (k: nat)
    ensures k < 26 && ActionAt(k) == a
  {
    match a
    case DulyMake => 0
    case StartAssessment => 1
    case SlaExtend => 2
    case SubmitForDecision => 3
    case MakeDeterminationApproved => 4
    case ConfirmContactApproved => 5
    case MakeDeterminationRejected => 6
    case ConfirmContactRejected => 7
    case Withdraw => 8
    case WithdrawDuringDulyMade => 9
    case WithdrawDuringAssessment => 10
    case WithdrawDuringDecision => 11
    case WithdrawDuringQuery => 12
    case WithdrawDuringUpdated => 13
    case QueryDuringDulyMaking => 14
    case QueryDuringDulyMade => 15
    case QueryDuringAssessment => 16
    case QueryDuringDecision => 17
    case ResumeDuringDulyMaking => 18
    case ResumeDuringDulyMade => 19
    case ResumeDuringAssessment => 20
    case ResumeDuringDecision => 21
    case ContinueReviewDuringDulyMaking => 22
    case ContinueReviewDuringDulyMade => 23
    case ContinueReviewDuringAssessment => 24
    case ContinueReviewDuringDecision => 25
  }

  lemma PositionsAreDistinct(k: nat)
    requires k < 26
    ensures Position(ActionAt(k)) == k
  {
  }

  lemma DeclaredInTable(a: ActionId)
    ensures Declared(a) in TRANSITIONS
  {
    assert TRANSITIONS[Position(a)] == Declared(a);
  }

  function StatePosition(s: StateId): (k: nat)
    ensures k < 12 && StateAt(k) == s
  {
    match s
    case Submitted => 0
    case DulyMade => 1
    case AssessmentStarted => 2
    case AssessmentInProgress => 3
    case AwaitingDecision => 4
    case Queried => 5
    case Updated => 6
    case ApprovedPendingContact => 7
    case Approved => 8
    case RejectedPendingContact => 9
    case Rejected => 10
    case Withdrawn => 11
  }

  lemma StatePositionsAreDistinct(k: nat)
    requires k < 12
    ensures StatePosition(StateAt(k)) == k
  {
  }

  lemma EveryStateDeclared(s: StateId)
    ensures HasState(RE_ACCREDITATION, s)
  {
    assert RE_ACCREDITATION.states[StatePosition(s)].id == s;
  }

  /** The declaration meets the rules every module is held to. */
  lemma DeclarationIsValid()
    ensures IsValid(RE_ACCREDITATION)
  {
    forall i, j | 0 <= i < j < |STATES| ensures STATES[i].id != STATES[j].id {
      StatePositionsAreDistinct(i);
      StatePositionsAreDistinct(j);
    }
    forall i, j | 0 <= i < j < |TRANSITIONS| ensures TRANSITIONS[i].actionId != TRANSITIONS[j].actionId {
      PositionsAreDistinct(i);
      PositionsAreDistinct(j);
    }
    forall i | 0 <= i < |TRANSITIONS|
      ensures HasState(RE_ACCREDITATION, TRANSITIONS[i].fromStateId)
      ensures HasState(RE_ACCREDITATION, TRANSITIONS[i].toStateId)
    {
      EveryStateDeclared(TRANSITIONS[i].fromStateId);
      EveryStateDeclared(TRANSITIONS[i].toStateId);
    }
  }

  /** Looking an action up finds its declaration. */
  lemma LookUp(a: ActionId)
    ensures FindAction(RE_ACCREDITATION, a) == Some(Declared(a))
  {
    DeclarationIsValid();
    DeclaredInTable(a);
    FoundByUniqueId(RE_ACCREDITATION, Declared(a));
  }

  lemma FindState(s: StateId)
    ensures Find(STATES, (st: State<StateId>) => st.id == s) == Some(DeclaredState(s))
  {
    forall k: nat | k < StatePosition(s) ensures STATES[k].id != s {
      StatePositionsAreDistinct(k);
    }
    assert STATES[StatePosition(s)] == DeclaredState(s);
    FindFirst(STATES, (st: State<StateId>) => st.id == s, StatePosition(s));
  }

  /** The three closed states are the ones declared terminal. */
  lemma TerminalStates(s: StateId)
    ensures IsTerminalState(RE_ACCREDITATION, s) <==> IsTerminal(s)
  {
    FindState(s);
  }

  lemma TableHolds(t: Transition<StateId, ActionId>)
    requires t in TRANSITIONS
    ensures t == Declared(t.actionId)
  {
    var k :| 0 <= k < |TRANSITIONS| && TRANSITIONS[k] == t;
  }

  /** The start marker stands on one transition, duly made to started. */
  lemma OnlyStarter(t: Transition<StateId, ActionId>)
    requires t in TRANSITIONS && t.startsOnSelfAssign
    ensures t == Declared(StartAssessment)
  {
    TableHolds(t);
  }

  lemma StartMarker()
    ensures Find(TRANSITIONS, (t: Transition<StateId, ActionId>) => t.startsOnSelfAssign) == Some(Declared(StartAssessment))
    ensures ResolveSelfAssignLandingState(Some(RE_ACCREDITATION)) == Some(AssessmentStarted)
  {
    DeclaredInTable(StartAssessment);
    var found := Find(TRANSITIONS, (t: Transition<StateId, ActionId>) => t.startsOnSelfAssign);
    assert found.Some?;
    OnlyStarter(found.value);
  }

  /** Self-assigning starts a case that is duly made and no other. */
  lemma StartsOnlyFromDulyMade(s: StateId)
    ensures ResolveSelfAssignTransition(Some(RE_ACCREDITATION), Some(s))
            == if s == DulyMade then Some(Declared(StartAssessment)) else None
  {
    TerminalStates(s);
    SelfAssignOn(RE_ACCREDITATION, s, Declared(StartAssessment));
    DeclaredInTable(StartAssessment);
    var r := ResolveSelfAssignTransition(Some(RE_ACCREDITATION), Some(s));
    if r.Some? {
      OnlyStarter(r.value);
    }
  }

  lemma SelfAssignOn(t: WorkItemType<StateId, ActionId>, s: StateId, tr: Transition<StateId, ActionId>)
    ensures var r := ResolveSelfAssignTransition(Some(t), Some(s));
            && (r.Some? ==> r.value in t.transitions)
            && (!IsTerminalState(t, s) && tr in t.transitions && tr.startsOnSelfAssign && tr.fromStateId == s ==> r.Some?)
  {
  }
}
