/** The submits that work on a re-accreditation: logging a decision, changing the
    determination deadline, and "Assign to yourself and start". Each reads the
    item, makes its backend calls in order and reports what happened; a call may
    succeed, be refused with no effect, or take effect and lose its reply. */
module SubmitProtocol {
  import opened Prelude
  import opened Engine
  import opened ReAccreditation
  import opened Eligibility
  import opened Lifecycle
  import opened DateText
  import opened Calendar
  import Deadline
  import SlaDuration
  import Text

  // ---- The backend ----

  datatype Item = Item(lifecycle: Case, slaDueDate: Option<int>, slaStartedAt: Option<int>)

  datatype Call =
    | AssignCall(assigneeId: string)
    | ActionCall(actionId: ActionId)
    | NoteCall(text: string)
    | DecisionCall(outcome: Outcome)
    | ExtendCall(reason: string, additionalDuration: string)

  /** What becomes of a call the backend would accept. A lost call takes effect
      and still reports a failure. */
  datatype Fate = Replied | Refused | Lost

  datatype CallRecord = CallRecord(call: Call, before: Item, took: bool, ok: bool)

  datatype World = World(item: Item, log: seq<CallRecord>)

  /** The item after a call, or `None` where the backend refuses it. A decision
      is one write for both hops; a deadline change is `sla-extend`, refused
      wherever that is not declared, and moves a started case into progress. */
  function Effect(i: Item, call: Call): Option<Item> {
    var c := i.lifecycle;
    match call
    case AssignCall(who) => if IsTerminal(c.state) then None else Some(i.(lifecycle := c.(assignee := Some(who))))
    case ActionCall(a) => if Enabled(c, a) then Some(i.(lifecycle := Apply(c, a, c.assignee))) else None
    case NoteCall(_) => Some(i)
    case DecisionCall(outcome) =>
      if IsDecisionEntry(c.state) && c.state != DulyMade
      then Some(i.(lifecycle := c.(state := PendingState(outcome))))
      else None
    case ExtendCall(_, duration) =>
      if !Enabled(c, SlaExtend) || i.slaDueDate.None? then None
      else
        var moved := Deadline.MovedDeadline(i.slaDueDate.value, duration);
        if moved.None? then None
        else Some(i.(slaDueDate := moved, lifecycle := Apply(c, SlaExtend, c.assignee)))
  }

  function Perform(w: World, call: Call, fate: Fate): World {
    var effect := Effect(w.item, call);
    var took := effect.Some? && fate != Refused;
    World(if took then effect.value else w.item,
          w.log + [CallRecord(call, w.item, took, took && fate == Replied)])
  }

  predicate Succeeds(w: World, call: Call, fate: Fate) {
    Effect(w.item, call).Some? && fate == Replied
  }

  /** Past duly made a change is taken in three states, and moves a started case. */
  lemma ExtendApplies(c: Case)
    requires c.state != DulyMade
    ensures Enabled(c, SlaExtend) <==> TakesDeadlineChange(c.state)
    ensures Enabled(c, SlaExtend) ==>
              Apply(c, SlaExtend, c.assignee) == if c.state == AssessmentStarted then c.(state := AssessmentInProgress) else c
  {
  }

  datatype ReadFate = ReadOk | ReadNotFound | ReadFailed

  /** What happens to the read and the calls of one submit. `saysInvalid` is
      whether a failed post is reported as a bad request. */
  datatype Fates = Fates(read: ReadFate, assign: Fate, start: Fate, note: Fate, post: Fate, saysInvalid: bool)

  /** The current user; `None` when it has no id. */
  datatype User = User(id: Option<string>)

  // ---- ensure-assessment-started.js ----

  datatype FailedStep = AssignStep | StartStep

  /** `Threw` is the id check of the actions service, on a blank user id. */
  datatype StartResult =
    | Started(assignedNow: bool, startedNow: bool)
    | NotStarted(failedStep: FailedStep, assignedNow: bool)
    | Threw

  datatype After<R> = After(world: World, result: R)

  function ApplyStart(w: World, start: ActionId, assignedNow: bool, fates: Fates): After<StartResult> {
    After(Perform(w, ActionCall(start), fates.start),
          if Succeeds(w, ActionCall(start), fates.start) then Started(assignedNow, true)
          else NotStarted(StartStep, assignedNow))
  }

  function EnsureFrom(w: World, start: Option<ActionId>, user: User, fates: Fates): After<StartResult> {
    if start.None? then After(w, Started(false, false))
    else if w.item.lifecycle.assignee.Some? then ApplyStart(w, start.value, false, fates)
    else if user.id.None? then After(w, NotStarted(AssignStep, false))
    else if Text.Trim(user.id.value) == "" then After(w, Threw)
    else
      var call := AssignCall(user.id.value);
      var taken := Perform(w, call, fates.assign);
      if Succeeds(w, call, fates.assign) then ApplyStart(taken, start.value, true, fates)
      else After(taken, NotStarted(AssignStep, false))
  }

  function StartFor(i: Item): Option<ActionId> {
    var start := ResolveSelfAssignTransition(REGISTERED, Report(i.lifecycle).stateId);
    if start.Some? then Some(start.value.actionId) else None
  }

  /** `ensureAssessmentStarted` */
  function EnsureStarted(w: World, user: User, fates: Fates): After<StartResult> {
    EnsureFrom(w, StartFor(w.item), user, fates)
  }

  /** The start is called for on a duly made case and on no other. */
  lemma StartForDulyMade(i: Item)
    ensures StartFor(i) == if i.lifecycle.state == DulyMade then Some(StartAssessment) else None
  {
    StartsOnlyFromDulyMade(i.lifecycle.state);
  }

  /** The user can be named to the backend. */
  predicate Identified(user: User) {
    user.id.Some? && Text.Trim(user.id.value) != ""
  }

  /** The case is held, or gets assigned to the user. */
  predicate AssignOk(i: Item, user: User, fates: Fates) {
    i.lifecycle.assignee.Some? || (Identified(user) && fates.assign == Replied)
  }

  /** The start step lets the submit go on. */
  predicate StartOk(i: Item, user: User, fates: Fates) {
    i.lifecycle.state == DulyMade ==> AssignOk(i, user, fates) && fates.start == Replied
  }

  /** A call of the start step takes effect and loses its reply. */
  predicate StartLost(i: Item, user: User, fates: Fates) {
    && i.lifecycle.state == DulyMade
    && (|| (i.lifecycle.assignee.None? && Identified(user) && fates.assign == Lost)
        || (AssignOk(i, user, fates) && fates.start == Lost))
  }

  /** `describeStartFailure` */
  function DescribeStartFailure(failedStep: FailedStep, assignedNow: bool): string {
    if failedStep == AssignStep then "This application could not be assigned to you"
    else if assignedNow then "This application has been assigned to you, but it could not be started"
    else "This application could not be started"
  }

  /** `describeStartSuccess` */
  function DescribeStartSuccess(assignedNow: bool, startedNow: bool): Option<string> {
    if !startedNow then None
    else if assignedNow then Some("This application has been assigned to you and started.")
    else Some("This application has been started.")
  }

  function FailureText(r: StartResult): string
    requires r.NotStarted?
  {
    DescribeStartFailure(r.failedStep, r.assignedNow)
  }

  function SuccessText(r: StartResult): Option<string>
    requires r.Started?
  {
    DescribeStartSuccess(r.assignedNow, r.startedNow)
  }

  lemma StartResults(w: World, user: User, fates: Fates)
    ensures var r := EnsureStarted(w, user, fates).result;
            && (r.NotStarted? && r.failedStep == AssignStep ==> !r.assignedNow)
            && (r.Started? && r.assignedNow ==> r.startedNow)
  {
    hide StartFor, Effect;
  }

  /** No two outcomes of the start step read the same to the user. */
  lemma StartMessagesTellApart(w1: World, user1: User, fates1: Fates, w2: World, user2: User, fates2: Fates)
    ensures var r1, r2 := EnsureStarted(w1, user1, fates1).result, EnsureStarted(w2, user2, fates2).result;
            && (r1.NotStarted? && r2.NotStarted? && r1 != r2 ==> FailureText(r1) != FailureText(r2))
            && (r1.Started? && r2.Started? && r1 != r2 ==> SuccessText(r1) != SuccessText(r2))
  {
    hide EnsureStarted;
    StartResults(w1, user1, fates1);
    StartResults(w2, user2, fates2);
    assert |DescribeStartFailure(AssignStep, false)| == 45 && |DescribeStartFailure(StartStep, false)| == 37;
  }

  /** What the user reads of the start step, by what the submit found and what became
      of its calls. */
  lemma StartMessagesTell(w: World, user: User, fates: Fates)
    ensures var r, c := EnsureStarted(w, user, fates).result, w.item.lifecycle;
            && (r.Started? <==> StartOk(w.item, user, fates))
            && (r.Threw? <==> c.state == DulyMade && c.assignee.None? && user.id.Some? && !Identified(user))
            && (r.Started? ==> SuccessText(r) ==
                               if c.state != DulyMade then None
                               else if c.assignee.None? then Some("This application has been assigned to you and started.")
                               else Some("This application has been started."))
            && (r.NotStarted? ==> FailureText(r) ==
                                  if !AssignOk(w.item, user, fates) then "This application could not be assigned to you"
                                  else if c.assignee.Some? then "This application could not be started"
                                  else "This application has been assigned to you, but it could not be started")
  {
    hide StartFor;
    StartForDulyMade(w.item);
    if w.item.lifecycle.state == DulyMade {
      EnabledOnDulyMade(w.item);
    }
    hide Effect;
  }

  lemma EnabledOnDulyMade(i: Item)
    requires i.lifecycle.state == DulyMade
    ensures forall who :: Effect(i, AssignCall(who)).Some?
    ensures Effect(i, ActionCall(StartAssessment)).Some?
    ensures forall who :: Effect(Effect(i, AssignCall(who)).value, ActionCall(StartAssessment)).Some?
  {
  }

  // ---- decision/service.js ----

  const NOTE_MAX_LENGTH := 2000

  datatype RecordResult = Recorded | InvalidOutcome | NoteTooLong | NoteFailed | PostFailed

  function PostDecision(w: World, outcome: Outcome, fates: Fates): After<RecordResult> {
    After(Perform(w, DecisionCall(outcome), fates.post),
          if Succeeds(w, DecisionCall(outcome), fates.post) then Recorded else PostFailed)
  }

  /** `recordWorkItemDecision`: the note first, then the decision. */
  function RecordDecision(w: World, outcome: Option<Outcome>, decisionNote: string, fates: Fates): After<RecordResult> {
    var trimmed := Text.Trim(decisionNote);
    if outcome.None? then After(w, InvalidOutcome)
    else if |trimmed| > NOTE_MAX_LENGTH then After(w, NoteTooLong)
    else if trimmed == "" then PostDecision(w, outcome.value, fates)
    else
      var noted := Perform(w, NoteCall(trimmed), fates.note);
      if Succeeds(w, NoteCall(trimmed), fates.note) then PostDecision(noted, outcome.value, fates)
      else After(noted, NoteFailed)
  }

  // ---- decision/controller.js ----

  datatype FieldError = DecisionMissing | DecisionNoteTooLong

  /** What the user is told. `Failed` and `Done` carry what the start step did
      first; `InvalidChange`, the form shown again because the backend called
      the change invalid, does not. */
  datatype Page =
    | NotFoundPage
    | Unavailable
    | InvalidDecision(errors: seq<FieldError>)
    | InvalidReason
    | InvalidDeadline(why: Deadline.Refusal)
    | InvalidChange
    | Ineligible(reason: Reason)
    | StartFailed(failedStep: FailedStep, assignedNow: bool)
    | Failed(assignedNow: bool, startedNow: bool, noteFailed: bool)
    | Done(assignedNow: bool, startedNow: bool)
    | ServerError

  function DecisionErrors(decision: Option<Outcome>, decisionNote: string): seq<FieldError> {
    (if decision.None? then [DecisionMissing] else [])
    + (if |Text.Trim(decisionNote)| > NOTE_MAX_LENGTH then [DecisionNoteTooLong] else [])
  }

  /** What the form is sent back for: a decision that is neither outcome, and then a
      note of more than 2000 characters, white space at its ends aside. */
  lemma FormErrorsExactly(decision: Option<Outcome>, decisionNote: string)
    ensures var missing, long := decision.None?, |Text.Trim(decisionNote)| > 2000;
            DecisionErrors(decision, decisionNote)
            == if missing && long then [DecisionMissing, DecisionNoteTooLong]
               else if missing then [DecisionMissing]
               else if long then [DecisionNoteTooLong]
               else []
  {
  }

  /** The submit once the form is valid and the case may be decided. */
  function DecideOn(w: World, user: User, outcome: Option<Outcome>, decisionNote: string, fates: Fates): After<Page> {
    var start := EnsureStarted(w, user, fates);
    match start.result
    case Threw => After(start.world, ServerError)
    case NotStarted(step, assignedNow) => After(start.world, StartFailed(step, assignedNow))
    case Started(assignedNow, startedNow) =>
      var record := RecordDecision(start.world, outcome, decisionNote, fates);
      After(record.world,
            if record.result.Recorded? then Done(assignedNow, startedNow)
            else Failed(assignedNow, startedNow, record.result.NoteFailed?))
  }

  /** `makeSubmitDecisionController`. A posted decision that is neither outcome
      is `None`, a note that is not text is the empty string. */
  function SubmitDecision(w: World, user: User, decision: Option<Outcome>, decisionNote: string, fates: Fates): After<Page> {
    if fates.read == ReadNotFound then After(w, NotFoundPage)
    else if fates.read == ReadFailed then After(w, Unavailable)
    else if DecisionErrors(decision, decisionNote) != [] then After(w, InvalidDecision(DecisionErrors(decision, decisionNote)))
    else
      var eligibility := EvaluateLogDecision(REGISTERED, Report(w.item.lifecycle));
      if eligibility.Denied? then After(w, Ineligible(eligibility.reason))
      else DecideOn(w, user, decision, decisionNote, fates)
  }

  // ---- sla.controller.js ----

  const REASON_MAX_LENGTH := 500

  /** The change `validateChange` accepts, or the page it is refused with. */
  datatype Validation = Valid(reason: string, additionalDuration: string) | Invalid(page: Page)

  function ValidateChange(i: Item, reason: string, deadline: DateInput, now: int): Validation {
    var trimmed := Text.Trim(reason);
    if trimmed == "" || |trimmed| > REASON_MAX_LENGTH then Invalid(InvalidReason)
    else
      match Deadline.ValidateExtendDeadline(deadline, i.slaDueDate, i.slaStartedAt, now)
      case Accepted(_, duration) => Valid(trimmed, duration)
      case Refused(why) => Invalid(InvalidDeadline(why))
  }

  /** Once the change is valid: start the case if need be, then send it. */
  function ChangeOn(w: World, user: User, call: Call, fates: Fates): After<Page> {
    var start := EnsureStarted(w, user, fates);
    match start.result
    case Threw => After(start.world, ServerError)
    case NotStarted(step, assignedNow) => After(start.world, StartFailed(step, assignedNow))
    case Started(assignedNow, startedNow) =>
      After(Perform(start.world, call, fates.post),
            if Succeeds(start.world, call, fates.post) then Done(assignedNow, startedNow)
            else if fates.saysInvalid then InvalidChange
            else Failed(assignedNow, startedNow, false))
  }

  /** `makeSubmitExtendController` */
  function SubmitExtend(w: World, user: User, reason: string, deadline: DateInput, now: int, fates: Fates): After<Page> {
    if fates.read == ReadNotFound then After(w, NotFoundPage)
    else if fates.read == ReadFailed then After(w, Unavailable)
    else
      match ValidateChange(w.item, reason, deadline, now)
      case Invalid(page) => After(w, page)
      case Valid(trimmed, duration) => ChangeOn(w, user, ExtendCall(trimmed, duration), fates)
  }

  // ---- detail.controller.js: assign to yourself and start ----

  /** `makeSelfAssignController`: it always assigns; a read that fails only
      leaves the start out. */
  function SelfAssign(w: World, user: User, fates: Fates): After<Page> {
    if user.id.None? then After(w, StartFailed(AssignStep, false))
    else if Text.Trim(user.id.value) == "" then After(w, ServerError)
    else
      var start := if fates.read == ReadOk then StartFor(w.item) else None;
      var call := AssignCall(user.id.value);
      var taken := Perform(w, call, fates.assign);
      if !Succeeds(w, call, fates.assign) then After(taken, StartFailed(AssignStep, false))
      else if start.None? then After(taken, Done(true, false))
      else
        var started := ApplyStart(taken, start.value, true, fates);
        After(started.world, if started.result.Started? then Done(true, true) else StartFailed(StartStep, true))
  }

  // ---- The handlers ----

  /** The backend as the handlers reach it, call by call. */
  class Backend {
    var item: Item
    var log: seq<CallRecord>

    function Value(): World
      reads this
    {
      World(item, log)
    }

    constructor (item: Item)
      ensures Value() == World(item, [])
    {
      this.item := item;
      log := [];
    }

    method Post(call: Call, fate: Fate) returns (ok: bool)
      modifies this
      ensures Value() == Perform(old(Value()), call, fate)
      ensures ok == Succeeds(old(Value()), call, fate)
    {
      var effect := Effect(item, call);
      var took := effect.Some? && fate != Refused;
      ok := took && fate == Replied;
      log := log + [CallRecord(call, item, took, ok)];
      if took {
        item := effect.value;
      }
    }
  }

  method EnsureAssessmentStarted(backend: Backend, workItem: Item, user: User, fates: Fates) returns (r: StartResult)
    requires workItem == backend.item
    modifies backend
    ensures After(backend.Value(), r) == EnsureStarted(old(backend.Value()), user, fates)
  {
    var start := StartFor(workItem);
    if start.None? {
      return Started(false, false);
    }
    var assignedNow := false;
    if workItem.lifecycle.assignee.None? {
      if user.id.None? {
        return NotStarted(AssignStep, false);
      }
      if Text.Trim(user.id.value) == "" {
        return Threw;
      }
      var ok := backend.Post(AssignCall(user.id.value), fates.assign);
      if !ok {
        return NotStarted(AssignStep, false);
      }
      assignedNow := true;
    }
    var ok := backend.Post(ActionCall(start.value), fates.start);
    if !ok {
      return NotStarted(StartStep, assignedNow);
    }
    return Started(assignedNow, true);
  }

  method RecordWorkItemDecision(backend: Backend, outcome: Option<Outcome>, decisionNote: string, fates: Fates)
    returns (r: RecordResult)
    modifies backend
    ensures After(backend.Value(), r) == RecordDecision(old(backend.Value()), outcome, decisionNote, fates)
  {
    if outcome.None? {
      return InvalidOutcome;
    }
    var trimmedNote := Text.Trim(decisionNote);
    if |trimmedNote| > NOTE_MAX_LENGTH {
      return NoteTooLong;
    }
    if trimmedNote != "" {
      var noted := backend.Post(NoteCall(trimmedNote), fates.note);
      if !noted {
        return NoteFailed;
      }
    }
    var ok := backend.Post(DecisionCall(outcome.value), fates.post);
    return if ok then Recorded else PostFailed;
  }

  method SubmitDecisionHandler(backend: Backend, user: User, decision: Option<Outcome>, decisionNote: string, fates: Fates)
    returns (page: Page)
    modifies backend
    ensures After(backend.Value(), page) == SubmitDecision(old(backend.Value()), user, decision, decisionNote, fates)
  {
    hide EvaluateLogDecision, Text.Trim, EnsureStarted, RecordDecision;
    if fates.read == ReadNotFound {
      return NotFoundPage;
    }
    if fates.read == ReadFailed {
      return Unavailable;
    }
    var workItem := backend.item;
    var errorItems: seq<FieldError> := [];
    if decision.None? {
      errorItems := errorItems + [DecisionMissing];
    }
    if |Text.Trim(decisionNote)| > NOTE_MAX_LENGTH {
      errorItems := errorItems + [DecisionNoteTooLong];
    }
    assert errorItems == DecisionErrors(decision, decisionNote);
    if |errorItems| > 0 {
      return InvalidDecision(errorItems);
    }
    var eligibility := EvaluateLogDecision(REGISTERED, Report(workItem.lifecycle));
    if eligibility.Denied? {
      return Ineligible(eligibility.reason);
    }
    var started := EnsureAssessmentStarted(backend, workItem, user, fates);
    match started {
      case Threw =>
        return ServerError;
      case NotStarted(step, assignedNow) =>
        return StartFailed(step, assignedNow);
      case Started(assignedNow, startedNow) =>
        var result := RecordWorkItemDecision(backend, decision, decisionNote, fates);
        return if result.Recorded? then Done(assignedNow, startedNow)
               else Failed(assignedNow, startedNow, result.NoteFailed?);
    }
  }

  method SubmitExtendHandler(
    backend: Backend, user: User, reason: string, deadline: DateInput, now: int, fates: Fates)
    returns (page: Page)
    modifies backend
    ensures After(backend.Value(), page) == SubmitExtend(old(backend.Value()), user, reason, deadline, now, fates)
  {
    if fates.read == ReadNotFound {
      return NotFoundPage;
    }
    if fates.read == ReadFailed {
      return Unavailable;
    }
    var workItem := backend.item;
    var validation := ValidateChange(workItem, reason, deadline, now);
    if validation.Invalid? {
      return validation.page;
    }
    var started := EnsureAssessmentStarted(backend, workItem, user, fates);
    match started {
      case Threw =>
        return ServerError;
      case NotStarted(step, assignedNow) =>
        return StartFailed(step, assignedNow);
      case Started(assignedNow, startedNow) =>
        var ok := backend.Post(ExtendCall(validation.reason, validation.additionalDuration), fates.post);
        if ok {
          return Done(assignedNow, startedNow);
        }
        return if fates.saysInvalid then InvalidChange else Failed(assignedNow, startedNow, false);
    }
  }

  method SelfAssignHandler(backend: Backend, user: User, fates: Fates) returns (page: Page)
    modifies backend
    ensures After(backend.Value(), page) == SelfAssign(old(backend.Value()), user, fates)
  {
    if user.id.None? {
      return StartFailed(AssignStep, false);
    }
    var startTransition := if fates.read == ReadOk then StartFor(backend.item) else None;
    if Text.Trim(user.id.value) == "" {
      return ServerError;
    }
    var ok := backend.Post(AssignCall(user.id.value), fates.assign);
    if !ok {
      return StartFailed(AssignStep, false);
    }
    if startTransition.None? {
      return Done(true, false);
    }
    var started := backend.Post(ActionCall(startTransition.value), fates.start);
    return if started then Done(true, true) else StartFailed(StartStep, true);
  }
}
