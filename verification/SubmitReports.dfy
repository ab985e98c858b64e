/** What the answer to a submit says, and what it leaves unsaid. Every condition is
    on what goes into the submit: the item, the user, the form and the fate of each
    call. */
module SubmitReports {
  import opened Prelude
  import opened ReAccreditation
  import opened Eligibility
  import opened Lifecycle
  import opened DateText
  import opened Calendar
  import opened London
  import opened SubmitProtocol
  import Deadline
  import SlaDuration
  import Text

  // ---- No decision without its note ----

  /** Every decision logged from `n` on comes right after the note with that
      text, saved. */
  ghost predicate NotedFirst(w: World, n: nat, note: string) {
    forall i :: n <= i < |w.log| && w.log[i].call.DecisionCall? ==>
                  i > n && w.log[i - 1].call == NoteCall(note) && w.log[i - 1].ok && w.log[i - 1].took
  }

  lemma EnsurePostsNoDecision(w: World, user: User, fates: Fates)
    ensures var w' := EnsureStarted(w, user, fates).world;
            && |w.log| <= |w'.log|
            && (forall i :: |w.log| <= i < |w'.log| ==> w'.log[i].call.AssignCall? || w'.log[i].call.ActionCall?)
  {
    hide StartFor, Effect;
  }

  /** A submit posts its decision only straight after its own note, trimmed, has
      been saved, unless the note is blank. */
  lemma NoteComesFirst(w: World, user: User, decision: Option<Outcome>, decisionNote: string, fates: Fates)
    requires Text.Trim(decisionNote) != ""
    ensures NotedFirst(SubmitDecision(w, user, decision, decisionNote, fates).world, |w.log|, Text.Trim(decisionNote))
  {
    hide EnsureStarted, EvaluateLogDecision, Effect, Text.Trim, DecisionErrors;
    EnsurePostsNoDecision(w, user, fates);
  }

  // ---- No change but the one asked for ----

  /** The only calls a deadline submit makes before its change are those of the start
      step; the change comes last, with the reason typed, trimmed, of 1 to 500
      characters, and a duration that reads as the whole days, forwards or back,
      from the day the deadline reads as to the date typed. */
  ghost predicate AsksFor(w: World, i: int, reason: string, deadline: DateInput, due: int)
    requires 0 <= i < |w.log| && w.log[i].call.ExtendCall?
  {
    var call := w.log[i].call;
    && i == |w.log| - 1
    && call.reason == Text.Trim(reason) && 1 <= |call.reason| <= 500
    && TypedParts(deadline).Some? && IsReal(TypedParts(deadline).value)
    && SlaDuration.ParseSlaDurationMs(Some(call.additionalDuration))
       == Some(((DayOf(TypedParts(deadline).value) - StartOfUtcDay(due)) * MS_PER_DAY) as real)
  }

  /** Every change a deadline submit posts is the one asked for, and is its last
      call; so it posts at most one. */
  lemma ChangeIsAskedFor(w: World, user: User, reason: string, deadline: DateInput, now: int, fates: Fates)
    ensures var w' := SubmitExtend(w, user, reason, deadline, now, fates).world;
            && |w.log| <= |w'.log|
            && (forall i :: |w.log| <= i < |w'.log| && w'.log[i].call.ExtendCall? ==>
                  w.item.slaDueDate.Some? && AsksFor(w', i, reason, deadline, w.item.slaDueDate.value))
  {
    hide SubmitExtend, ChangeOn, EnsureStarted, Effect, ValidateChange, SlaDuration.IsoDayDuration,
         SlaDuration.ParseSlaDurationMs, StartOfUtcDay, DayOf, MakeDay, Text.Trim, TypedParts;
    ExtendReached(w, user, reason, deadline, now, fates);
    if ReachesChange(w.item, reason, deadline, now, fates) {
      var v := ValidateChange(w.item, reason, deadline, now);
      ValidChange(w.item, reason, deadline, now);
      ValidReason(w.item, reason, deadline, now);
      SlaDuration.DayDurationRoundTrip(DayOf(TypedParts(deadline).value) - StartOfUtcDay(w.item.slaDueDate.value));
      ChangePosts(w, user, ExtendCall(v.reason, v.additionalDuration), fates);
    }
  }

  lemma ValidReason(i: Item, reason: string, deadline: DateInput, now: int)
    ensures var v := ValidateChange(i, reason, deadline, now);
            v.Valid? ==> v.reason == Text.Trim(reason) && 1 <= |v.reason| <= 500
  {
    hide Deadline.ValidateExtendDeadline, Text.Trim;
  }

  lemma ChangePosts(w: World, user: User, call: Call, fates: Fates)
    requires call.ExtendCall?
    ensures var w' := ChangeOn(w, user, call, fates).world;
            && |w.log| <= |w'.log|
            && (forall i :: |w.log| <= i < |w'.log| && w'.log[i].call.ExtendCall? ==>
                  i == |w'.log| - 1 && w'.log[i].call == call)
  {
    hide EnsureStarted, Effect;
    EnsurePostsNoDecision(w, user, fates);
  }

  // ---- The report says what changed ----

  /** A call that took effect behind a failed reply. Notes are not reported on. */
  predicate Hidden(r: CallRecord) {
    r.took && !r.ok && !r.call.NoteCall?
  }

  ghost predicate HiddenSince(w: World, n: nat) {
    exists i :: n <= i < |w.log| && Hidden(w.log[i])
  }

  ghost predicate Prefix(w: World, w': World) {
    |w.log| <= |w'.log| && forall i :: 0 <= i < |w.log| ==> w'.log[i] == w.log[i]
  }

  lemma HiddenLater(w: World, mid: World, w': World)
    requires Prefix(w, mid) && Prefix(mid, w') && !HiddenSince(mid, |w.log|)
    ensures Prefix(w, w') && (HiddenSince(w', |w.log|) <==> HiddenSince(w', |mid.log|))
  {
    assert forall i :: |w.log| <= i < |mid.log| ==> !Hidden(mid.log[i]);
    assert forall i :: |w.log| <= i < |mid.log| ==> w'.log[i] == mid.log[i];
  }

  lemma PerformTells(w: World, call: Call, fate: Fate)
    requires Effect(w.item, call).Some? && !call.NoteCall?
    ensures var w' := Perform(w, call, fate);
            && Prefix(w, w')
            && (Succeeds(w, call, fate) <==> fate == Replied)
            && w'.item == (if fate == Refused then w.item else Effect(w.item, call).value)
            && (HiddenSince(w', |w.log|) <==> fate == Lost)
  {
    var w' := Perform(w, call, fate);
    assert Hidden(w'.log[|w.log|]) ==> HiddenSince(w', |w.log|);
  }

  lemma PerformRefused(w: World, call: Call, fate: Fate)
    requires Effect(w.item, call).None?
    ensures var w' := Perform(w, call, fate);
            && Prefix(w, w') && !Succeeds(w, call, fate) && w'.item == w.item && !HiddenSince(w', |w.log|)
            && w'.log == w.log + [CallRecord(call, w.item, false, false)]
  {
  }

  /** The item with what the start step is said to have done. */
  function WithStart(i: Item, user: User, assignedNow: bool, startedNow: bool): Item {
    var c := i.lifecycle;
    i.(lifecycle := Case(if startedNow then AssessmentStarted else c.state, c.origin,
                         if assignedNow then user.id else c.assignee))
  }

  function ToldByStart(i: Item, user: User, r: StartResult): Item {
    match r
    case Started(assignedNow, startedNow) => WithStart(i, user, assignedNow, startedNow)
    case NotStarted(_, assignedNow) => WithStart(i, user, assignedNow, false)
    case Threw => i
  }

  lemma AssignEffect(i: Item, who: string)
    requires i.lifecycle.state == DulyMade && i.lifecycle.assignee.None?
    ensures Effect(i, AssignCall(who)) == Some(WithStart(i, User(Some(who)), true, false))
  {
  }

  lemma StartEffect(i: Item, user: User)
    requires i.lifecycle.state == DulyMade
    ensures Effect(i, ActionCall(StartAssessment)) == Some(WithStart(i, user, false, true))
  {
  }

  /** What the start step leaves, once it lets the submit go on. */
  function StartedItem(i: Item, user: User): Item {
    if i.lifecycle.state == DulyMade then WithStart(i, user, i.lifecycle.assignee.None?, true) else i
  }

  lemma EnsureOnDulyMade(w: World, user: User, fates: Fates)
    requires w.item.lifecycle.state == DulyMade
    ensures var a := EnsureStarted(w, user, fates);
            && Prefix(w, a.world)
            && (a.result.Started? <==> StartOk(w.item, user, fates))
            && (a.result.Started? ==> a.result == Started(w.item.lifecycle.assignee.None?, true)
                                      && a.world.item == StartedItem(w.item, user))
            && (a.world.item == ToldByStart(w.item, user, a.result) <==> !StartLost(w.item, user, fates))
            && (HiddenSince(a.world, |w.log|) <==> StartLost(w.item, user, fates))
  {
    hide StartFor, Effect;
    StartForDulyMade(w.item);
    if w.item.lifecycle.assignee.Some? {
      StartEffect(w.item, user);
      PerformTells(w, ActionCall(StartAssessment), fates.start);
    } else if Identified(user) {
      var assign := AssignCall(user.id.value);
      AssignEffect(w.item, user.id.value);
      PerformTells(w, assign, fates.assign);
      var taken := Perform(w, assign, fates.assign);
      if fates.assign == Replied {
        StartEffect(taken.item, user);
        PerformTells(taken, ActionCall(StartAssessment), fates.start);
        HiddenLater(w, taken, Perform(taken, ActionCall(StartAssessment), fates.start));
      }
    }
  }

  lemma EnsureTells(w: World, user: User, fates: Fates)
    ensures var a := EnsureStarted(w, user, fates);
            && Prefix(w, a.world)
            && (a.result.Started? <==> StartOk(w.item, user, fates))
            && (a.result.Started? ==>
                  && a.result == Started(w.item.lifecycle.state == DulyMade && w.item.lifecycle.assignee.None?,
                                         w.item.lifecycle.state == DulyMade)
                  && a.world.item == StartedItem(w.item, user))
            && (a.world.item == ToldByStart(w.item, user, a.result) <==> !StartLost(w.item, user, fates))
            && (HiddenSince(a.world, |w.log|) <==> StartLost(w.item, user, fates))
  {
    if w.item.lifecycle.state == DulyMade {
      EnsureOnDulyMade(w, user, fates);
    } else {
      hide StartFor;
      StartForDulyMade(w.item);
    }
  }

  lemma StartLostIsNotOk(i: Item, user: User, fates: Fates)
    ensures StartLost(i, user, fates) ==> !StartOk(i, user, fates)
  {
  }

  function Decided(i: Item, outcome: Outcome): Item {
    i.(lifecycle := i.lifecycle.(state := PendingState(outcome)))
  }

  /** The note is blank, or is saved and answered for. */
  predicate NotePasses(decisionNote: string, fates: Fates) {
    Text.Trim(decisionNote) == "" || fates.note == Replied
  }

  lemma RecordTells(w: World, outcome: Outcome, decisionNote: string, fates: Fates)
    requires IsDecisionEntry(w.item.lifecycle.state) && w.item.lifecycle.state != DulyMade
    requires |Text.Trim(decisionNote)| <= NOTE_MAX_LENGTH
    ensures var a := RecordDecision(w, Some(outcome), decisionNote, fates);
            && Prefix(w, a.world)
            && (a.result.Recorded? <==> NotePasses(decisionNote, fates) && fates.post == Replied)
            && a.world.item == (if NotePasses(decisionNote, fates) && fates.post != Refused then Decided(w.item, outcome)
                                else w.item)
            && (HiddenSince(a.world, |w.log|) <==> NotePasses(decisionNote, fates) && fates.post == Lost)
  {
    hide Effect;
    var trimmed, d := Text.Trim(decisionNote), DecisionCall(outcome);
    DecisionEffect(w.item, outcome);
    if trimmed == "" {
      PerformTells(w, d, fates.post);
    } else {
      var noted := Perform(w, NoteCall(trimmed), fates.note);
      NoteEffect(w.item, trimmed);
      assert Prefix(w, noted) && !HiddenSince(noted, |w.log|);
      PerformTells(noted, d, fates.post);
      HiddenLater(w, noted, Perform(noted, d, fates.post));
    }
  }

  lemma DecisionEffect(i: Item, outcome: Outcome)
    requires IsDecisionEntry(i.lifecycle.state) && i.lifecycle.state != DulyMade
    ensures Effect(i, DecisionCall(outcome)) == Some(Decided(i, outcome)) && Decided(i, outcome) != i
  {
  }

  lemma NoteEffect(i: Item, text: string)
    ensures Effect(i, NoteCall(text)) == Some(i)
  {
  }

  /** The item as the answer to a decision submit describes it. */
  function ToldByDecision(i: Item, user: User, decision: Option<Outcome>, page: Page): Item {
    match page
    case StartFailed(_, assignedNow) => WithStart(i, user, assignedNow, false)
    case Failed(assignedNow, startedNow, _) => WithStart(i, user, assignedNow, startedNow)
    case Done(assignedNow, startedNow) =>
      var j := WithStart(i, user, assignedNow, startedNow);
      if decision.Some? then Decided(j, decision.value) else j
    case _ => i
  }

  /** The submit gets as far as the start step. */
  predicate ReachesDecision(i: Item, decision: Option<Outcome>, decisionNote: string, fates: Fates) {
    fates.read == ReadOk && DecisionErrors(decision, decisionNote) == [] && IsDecisionEntry(i.lifecycle.state)
  }

  /** A call of the submit takes effect and loses its reply. */
  predicate DecisionLost(i: Item, user: User, decision: Option<Outcome>, decisionNote: string, fates: Fates) {
    && ReachesDecision(i, decision, decisionNote, fates)
    && (|| StartLost(i, user, fates)
        || (StartOk(i, user, fates) && NotePasses(decisionNote, fates) && fates.post == Lost))
  }

  lemma DecisionReached(w: World, user: User, decision: Option<Outcome>, decisionNote: string, fates: Fates)
    ensures var a := SubmitDecision(w, user, decision, decisionNote, fates);
            if ReachesDecision(w.item, decision, decisionNote, fates)
            then decision.Some? && |Text.Trim(decisionNote)| <= NOTE_MAX_LENGTH
                 && a == DecideOn(w, user, decision, decisionNote, fates)
            else a.world == w && !a.result.Done? && !a.result.Failed? && !a.result.StartFailed?
  {
    hide DecideOn, EvaluateLogDecision;
    LogDecisionExactly(Report(w.item.lifecycle));
  }

  /** After a decision submit the item is what the page says it is, exactly when
      no call took effect behind a failed reply, which is a matter of the fates
      and of how far the submit gets. Success is never claimed wrongly. */
  lemma DecisionReportExactly(w: World, user: User, decision: Option<Outcome>, decisionNote: string, fates: Fates)
    ensures var a := SubmitDecision(w, user, decision, decisionNote, fates);
            && (a.world.item == ToldByDecision(w.item, user, decision, a.result)
                <==> !DecisionLost(w.item, user, decision, decisionNote, fates))
            && (HiddenSince(a.world, |w.log|) <==> DecisionLost(w.item, user, decision, decisionNote, fates))
            && (a.result.Done? ==> decision.Some? && a.world.item == ToldByDecision(w.item, user, decision, a.result))
  {
    hide EnsureStarted, RecordDecision, SubmitDecision, WithStart, StartOk, StartLost, NotePasses, ReachesDecision, StartedItem;
    DecisionReached(w, user, decision, decisionNote, fates);
    EnsureTells(w, user, fates);
    StartLostIsNotOk(w.item, user, fates);
    if ReachesDecision(w.item, decision, decisionNote, fates) && StartOk(w.item, user, fates) {
      var start := EnsureStarted(w, user, fates);
      ReachedEntry(w.item, decision, decisionNote, fates);
      StartedIs(w.item, user);
      RecordTells(start.world, decision.value, decisionNote, fates);
      HiddenLater(w, start.world, RecordDecision(start.world, decision, decisionNote, fates).world);
      DecidedDiffers(start.world.item, decision.value);
    }
  }

  lemma ReachedEntry(i: Item, decision: Option<Outcome>, decisionNote: string, fates: Fates)
    requires ReachesDecision(i, decision, decisionNote, fates)
    ensures IsDecisionEntry(i.lifecycle.state)
  {
  }

  lemma DecidedDiffers(i: Item, outcome: Outcome)
    requires IsDecisionEntry(i.lifecycle.state)
    ensures Decided(i, outcome) != i
  {
  }

  /** After the start step the case is not duly made, and is still where a decision
      or a deadline change may follow. */
  lemma StartedIs(i: Item, user: User)
    ensures StartedItem(i, user).lifecycle.state
            == if i.lifecycle.state == DulyMade then AssessmentStarted else i.lifecycle.state
    ensures StartedItem(i, user).slaDueDate == i.slaDueDate && StartedItem(i, user).slaStartedAt == i.slaStartedAt
    ensures i.lifecycle.state == DulyMade ==> StartedItem(i, user) == WithStart(i, user, i.lifecycle.assignee.None?, true)
    ensures i.lifecycle.state != DulyMade ==> StartedItem(i, user) == i == WithStart(i, user, false, false)
    ensures i.lifecycle.state == DulyMade ==> StartedItem(i, user) != i
  {
  }

  /** The item with its deadline moved to a typed date: by the whole days between
      that date and the day the deadline reads as, whatever its time of day. */
  function MovedTo(i: Item, c: Civil): Item
    requires i.slaDueDate.Some? && 1 <= c.month <= 12
  {
    var due, l := i.slaDueDate.value, i.lifecycle;
    i.(slaDueDate := Some(due + (DayOf(c) - StartOfUtcDay(due)) * MS_PER_DAY),
       lifecycle := if l.state == AssessmentStarted then l.(state := AssessmentInProgress) else l)
  }

  lemma ValidChange(i: Item, reason: string, deadline: DateInput, now: int)
    requires ValidateChange(i, reason, deadline, now).Valid?
    ensures i.slaDueDate.Some? && i.slaStartedAt.Some? && TypedParts(deadline).Some?
    ensures var c := TypedParts(deadline).value;
            && Deadline.TypesRealDate(deadline, c)
            && DayOf(c) != StartOfUtcDay(i.slaDueDate.value)
            && ValidateChange(i, reason, deadline, now).additionalDuration
               == SlaDuration.IsoDayDuration(DayOf(c) - StartOfUtcDay(i.slaDueDate.value))
  {
    hide MakeDay, IsReal, SlaDuration.IsoDayDuration, Deadline.DeadlineFloor, Deadline.ValidateExtendDeadline, TypedParts,
         DayOf, StartOfUtcDay, IsBlank, Text.Trim;
    if TypedParts(deadline).None? {
      Deadline.AcceptsOnlyTyped(deadline, i.slaDueDate, i.slaStartedAt, now);
      assert false;
    }
    var c := TypedParts(deadline).value;
    Deadline.AcceptsExactly(deadline, i.slaDueDate, i.slaStartedAt, now, c);
    Deadline.AcceptedSends(deadline, i.slaDueDate.value, i.slaStartedAt.value, now, c);
  }

  lemma GapMoves(i: Item, c: Civil)
    requires i.slaDueDate.Some? && IsReal(c) && DayOf(c) != StartOfUtcDay(i.slaDueDate.value)
    ensures MovedTo(i, c).slaDueDate != i.slaDueDate
  {
    hide DayOf, StartOfUtcDay;
    assert (DayOf(c) - StartOfUtcDay(i.slaDueDate.value)) * MS_PER_DAY != 0;
  }

  lemma ExtendEffectOf(i: Item, reason: string, duration: string)
    requires i.slaDueDate.Some? && i.lifecycle.state != DulyMade
    ensures var moved, l := Deadline.MovedDeadline(i.slaDueDate.value, duration), i.lifecycle;
            Effect(i, ExtendCall(reason, duration))
            == if TakesDeadlineChange(l.state) && moved.Some?
               then Some(i.(slaDueDate := moved,
                            lifecycle := if l.state == AssessmentStarted then l.(state := AssessmentInProgress) else l))
               else None
  {
    hide Deadline.MovedDeadline;
    ExtendApplies(i.lifecycle);
    hide Enabled, Apply, TakesDeadlineChange;
  }

  /** The backend moves the deadline by what was printed, if the case takes a
      change in the state the start step has left. */
  lemma ExtendEffect(i: Item, c: Civil, reason: string)
    requires i.slaDueDate.Some? && i.lifecycle.state != DulyMade && IsReal(c)
    requires DayOf(c) != StartOfUtcDay(i.slaDueDate.value)
    ensures Effect(i, ExtendCall(reason, SlaDuration.IsoDayDuration(DayOf(c) - StartOfUtcDay(i.slaDueDate.value))))
            == if TakesDeadlineChange(i.lifecycle.state) then Some(MovedTo(i, c)) else None
    ensures MovedTo(i, c) != i
  {
    hide MakeDay, DayOf, Deadline.MovedDeadline, SlaDuration.IsoDayDuration, TakesDeadlineChange, StartOfUtcDay, Effect;
    var gap := DayOf(c) - StartOfUtcDay(i.slaDueDate.value);
    ExtendEffectOf(i, reason, SlaDuration.IsoDayDuration(gap));
    Deadline.MovedByGap(i.slaDueDate.value, gap);
    GapMoves(i, c);
  }

  /** The item as the answer to a deadline submit describes it. */
  function ToldByExtend(i: Item, user: User, deadline: DateInput, page: Page): Item {
    match page
    case StartFailed(_, assignedNow) => WithStart(i, user, assignedNow, false)
    case Failed(assignedNow, startedNow, _) => WithStart(i, user, assignedNow, startedNow)
    case Done(assignedNow, startedNow) =>
      var j, typed := WithStart(i, user, assignedNow, startedNow), TypedParts(deadline);
      if j.slaDueDate.Some? && typed.Some? && 1 <= typed.value.month <= 12 then MovedTo(j, typed.value) else j
    case _ => i
  }

  predicate ReachesChange(i: Item, reason: string, deadline: DateInput, now: int, fates: Fates) {
    fates.read == ReadOk && ValidateChange(i, reason, deadline, now).Valid?
  }

  /** A call of the submit takes effect and loses its reply. */
  predicate ExtendLost(i: Item, user: User, reason: string, deadline: DateInput, now: int, fates: Fates) {
    && ReachesChange(i, reason, deadline, now, fates)
    && (|| StartLost(i, user, fates)
        || (StartOk(i, user, fates) && TakesDeadlineChange(i.lifecycle.state) && fates.post == Lost))
  }

  /** The submit starts the case, the change fails, and the backend calls it
      invalid: the form comes back and says nothing of the start. */
  predicate FormHidesStart(i: Item, user: User, reason: string, deadline: DateInput, now: int, fates: Fates) {
    && ReachesChange(i, reason, deadline, now, fates)
    && i.lifecycle.state == DulyMade && StartOk(i, user, fates)
    && fates.post != Replied && fates.saysInvalid
  }

  lemma ChangeTells(w: World, user: User, c: Civil, reason: string, fates: Fates)
    requires w.item.slaDueDate.Some? && IsReal(c) && DayOf(c) != StartOfUtcDay(w.item.slaDueDate.value)
    requires StartOk(w.item, user, fates)
    ensures var gap := DayOf(c) - StartOfUtcDay(w.item.slaDueDate.value);
            var begun, takes := StartedItem(w.item, user), TakesDeadlineChange(w.item.lifecycle.state);
            var starts := w.item.lifecycle.state == DulyMade;
            var assigns := starts && w.item.lifecycle.assignee.None?;
            var a := ChangeOn(w, user, ExtendCall(reason, SlaDuration.IsoDayDuration(gap)), fates);
            && begun.slaDueDate == w.item.slaDueDate
            && a.world.item == (if takes && fates.post != Refused then MovedTo(begun, c) else begun)
            && MovedTo(begun, c) != begun
            && (HiddenSince(a.world, |w.log|) <==> takes && fates.post == Lost)
            && a.result == (if takes && fates.post == Replied then Done(assigns, starts)
                            else if fates.saysInvalid then InvalidChange
                            else Failed(assigns, starts, false))
  {
    StartedTakes(w.item, user);
    hide EnsureStarted, WithStart, Effect, MovedTo, StartOfUtcDay, MakeDay, SlaDuration.IsoDayDuration, StartedItem, StartOk,
         StartLost, DayOf, DaysInMonth, TakesDeadlineChange;
    var call := ExtendCall(reason, SlaDuration.IsoDayDuration(DayOf(c) - StartOfUtcDay(w.item.slaDueDate.value)));
    EnsureTells(w, user, fates);
    StartLostIsNotOk(w.item, user, fates);
    StartedIs(w.item, user);
    var start := EnsureStarted(w, user, fates);
    ExtendEffect(start.world.item, c, reason);
    if TakesDeadlineChange(w.item.lifecycle.state) {
      PerformTells(start.world, call, fates.post);
    } else {
      PerformRefused(start.world, call, fates.post);
    }
    HiddenLater(w, start.world, Perform(start.world, call, fates.post));
  }

  lemma StartedTakes(i: Item, user: User)
    ensures TakesDeadlineChange(StartedItem(i, user).lifecycle.state) <==> TakesDeadlineChange(i.lifecycle.state)
  {
  }

  lemma ChangeStopped(w: World, user: User, call: Call, fates: Fates)
    requires !StartOk(w.item, user, fates)
    ensures var start := EnsureStarted(w, user, fates);
            var a := ChangeOn(w, user, call, fates);
            && a.world == start.world
            && (match start.result
                case Threw => a.result == ServerError
                case NotStarted(step, assignedNow) => a.result == StartFailed(step, assignedNow)
                case Started(_, _) => false)
  {
    hide EnsureStarted, StartOk, StartLost;
    EnsureTells(w, user, fates);
  }

  lemma ExtendReached(w: World, user: User, reason: string, deadline: DateInput, now: int, fates: Fates)
    ensures var a := SubmitExtend(w, user, reason, deadline, now, fates);
            if ReachesChange(w.item, reason, deadline, now, fates)
            then var v := ValidateChange(w.item, reason, deadline, now);
                 a == ChangeOn(w, user, ExtendCall(v.reason, v.additionalDuration), fates)
            else a.world == w && (a.result.InvalidReason? || a.result.InvalidDeadline? || a.result.NotFoundPage? || a.result.Unavailable?)
  {
    hide ChangeOn, Deadline.ValidateExtendDeadline;
  }

  /** After a deadline submit the item is what the page says it is, exactly when
      no call took effect behind a failed reply and the form was not shown again
      for a case this submit has started. Both are matters of the inputs. */
  lemma ExtendReportExactly(w: World, user: User, reason: string, deadline: DateInput, now: int, fates: Fates)
    ensures var a := SubmitExtend(w, user, reason, deadline, now, fates);
            && (a.world.item == ToldByExtend(w.item, user, deadline, a.result)
                <==> !ExtendLost(w.item, user, reason, deadline, now, fates)
                     && !FormHidesStart(w.item, user, reason, deadline, now, fates))
            && (HiddenSince(a.world, |w.log|) <==> ExtendLost(w.item, user, reason, deadline, now, fates))
            && (a.result == InvalidChange && w.item.lifecycle.state == DulyMade
                <==> FormHidesStart(w.item, user, reason, deadline, now, fates))
            && (a.result.Done? ==> a.world.item == ToldByExtend(w.item, user, deadline, a.result))
  {
    hide SubmitExtend, ChangeOn, EnsureStarted, WithStart, MovedTo, StartOfUtcDay, MakeDay, DaysInMonth,
         SlaDuration.IsoDayDuration, ValidateChange, StartOk, StartLost, StartedItem, DayOf;
    ExtendReached(w, user, reason, deadline, now, fates);
    StartLostIsNotOk(w.item, user, fates);
    if ReachesChange(w.item, reason, deadline, now, fates) {
      var v := ValidateChange(w.item, reason, deadline, now);
      ValidChange(w.item, reason, deadline, now);
      StartedIs(w.item, user);
      if StartOk(w.item, user, fates) {
        ChangeTells(w, user, TypedParts(deadline).value, v.reason, fates);
        MovedState(StartedItem(w.item, user), TypedParts(deadline).value);
      } else {
        EnsureTells(w, user, fates);
        ChangeStopped(w, user, ExtendCall(v.reason, v.additionalDuration), fates);
      }
    }
  }

  lemma MovedState(i: Item, c: Civil)
    requires i.slaDueDate.Some? && 1 <= c.month <= 12 && i.lifecycle.state != DulyMade
    ensures MovedTo(i, c).lifecycle.state != DulyMade
    ensures TakesDeadlineChange(MovedTo(i, c).lifecycle.state) <==> TakesDeadlineChange(i.lifecycle.state)
  {
  }

  /** When the form hides the start, the case has been started, held by whoever
      held it or now by the user; and if the change was refused, nothing else has
      changed. */
  lemma StartGoesUnreported(w: World, user: User, reason: string, deadline: DateInput, now: int, fates: Fates)
    requires FormHidesStart(w.item, user, reason, deadline, now, fates)
    ensures var a := SubmitExtend(w, user, reason, deadline, now, fates);
            && a.result == InvalidChange
            && a.world.item.lifecycle.state != DulyMade
            && a.world.item.lifecycle.assignee
               == (if w.item.lifecycle.assignee.Some? then w.item.lifecycle.assignee else user.id)
            && (fates.post == Refused ==> a.world.item == WithStart(w.item, user, w.item.lifecycle.assignee.None?, true))
  {
    hide SubmitExtend, ChangeOn, StartOfUtcDay, MakeDay, DaysInMonth, SlaDuration.IsoDayDuration, ValidateChange, DayOf;
    ExtendReached(w, user, reason, deadline, now, fates);
    ValidChange(w.item, reason, deadline, now);
    StartedIs(w.item, user);
    ChangeTells(w, user, TypedParts(deadline).value, ValidateChange(w.item, reason, deadline, now).reason, fates);
  }

  lemma ExampleIsValid(i: Item, now: int)
    requires i.slaDueDate.Some? && i.slaStartedAt.Some?
    requires UtcYear(now) == 2026 && UtcYear(i.slaDueDate.value) == 2027 && 100 <= UtcYear(i.slaStartedAt.value) < 2026
    ensures ValidateChange(i, "r", DateInput(Some("1"), Some("12"), Some("2026")), now).Valid?
  {
    hide DayOf, StartOfUtcDay, Deadline.DeadlineFloor, Deadline.ValidateExtendDeadline, ValidateChange, TypedParts,
         CivilOf, DayFromYear;
    var c := Civil(UtcYear(now), 12, 1);
    Text.TrimKeeps("r");
    Deadline.TypedExample();
    Deadline.StartedBeforeThisYear(i.slaStartedAt.value, now);
    DayOrder(Civil(UtcYear(now), 1, 1), c);
    StartOfUtcDayExactly(i.slaDueDate.value);
    UtcYearBounds(i.slaDueDate.value);
    DayWithinYear(c);
    ValidAgain(i, "r", DateInput(Some("1"), Some("12"), Some("2026")), now, c);
  }

  /** For instance an unheld case whose clock started with 2025, due on 1 January
      2027, when 1 December 2026 is asked for and the change is refused. */
  lemma StartGoesUnreportedExample()
    ensures FormHidesStart(Item(Case(DulyMade, None, None), Some(NewYear(2027)), Some(NewYear(2025))), User(Some("u")), "r",
                           DateInput(Some("1"), Some("12"), Some("2026")), NewYear(2026),
                           Fates(ReadOk, Replied, Replied, Replied, Refused, true))
  {
    hide NewYear, ValidateChange, CivilOf, UtcYear;
    NewYearIs(2025);
    NewYearIs(2026);
    NewYearIs(2027);
    Text.TrimKeeps("u");
    ExampleIsValid(Item(Case(DulyMade, None, None), Some(NewYear(2027)), Some(NewYear(2025))), NewYear(2026));
  }

  /** The deadline moves exactly when the submit reaches the change, a duly made case
      gets started, the case takes a change in its state or once started, and the
      post is not refused; and then to the typed date. */
  lemma ExtendMovesExactly(w: World, user: User, reason: string, deadline: DateInput, now: int, fates: Fates)
    ensures var a := SubmitExtend(w, user, reason, deadline, now, fates);
            var moves := ReachesChange(w.item, reason, deadline, now, fates) && StartOk(w.item, user, fates)
                         && TakesDeadlineChange(w.item.lifecycle.state) && fates.post != Refused;
            && (a.world.item.slaDueDate != w.item.slaDueDate <==> moves)
            && (moves ==>
                  && w.item.slaDueDate.Some? && w.item.slaStartedAt.Some?
                  && TypedParts(deadline).Some? && Deadline.TypesRealDate(deadline, TypedParts(deadline).value)
                  && a.world.item == MovedTo(StartedItem(w.item, user), TypedParts(deadline).value)
                  && a.world.item.slaDueDate == MovedTo(w.item, TypedParts(deadline).value).slaDueDate
                  && a.world.item.slaStartedAt == w.item.slaStartedAt)
            && (a.result.Done? ==> moves)
  {
    hide SubmitExtend, ChangeOn, EnsureStarted, WithStart, StartOfUtcDay, MakeDay, DaysInMonth,
         SlaDuration.IsoDayDuration, ValidateChange, StartOk, StartLost, StartedItem, DayOf;
    ExtendReached(w, user, reason, deadline, now, fates);
    if ReachesChange(w.item, reason, deadline, now, fates) {
      var v := ValidateChange(w.item, reason, deadline, now);
      var call := ExtendCall(v.reason, v.additionalDuration);
      ValidChange(w.item, reason, deadline, now);
      if StartOk(w.item, user, fates) {
        ChangeTells(w, user, TypedParts(deadline).value, v.reason, fates);
        StartedIs(w.item, user);
        GapMoves(w.item, TypedParts(deadline).value);
      } else {
        ChangeStopped(w, user, call, fates);
        EnsureKeepsDue(w, user, fates);
      }
    }
  }

  lemma EnsureKeepsDue(w: World, user: User, fates: Fates)
    ensures EnsureStarted(w, user, fates).world.item.slaDueDate == w.item.slaDueDate
  {
    hide StartFor;
    StartForDulyMade(w.item);
  }

  /** A deadline submit that reports success has moved the deadline to the typed
      date, at its old time of day, exactly when the old one was not in the
      years 0 to 99. */
  lemma DoneLands(w: World, user: User, reason: string, deadline: DateInput, now: int, fates: Fates)
    requires SubmitExtend(w, user, reason, deadline, now, fates).result.Done?
    ensures w.item.slaDueDate.Some? && TypedParts(deadline).Some? && IsReal(TypedParts(deadline).value)
    ensures Deadline.LandsUnlessEarly(SubmitExtend(w, user, reason, deadline, now, fates).world.item.slaDueDate,
                                      w.item.slaDueDate.value, DayOf(TypedParts(deadline).value))
  {
    hide SubmitExtend, StartOk, ReachesChange, MovedTo, Deadline.LandsUnlessEarly, DayOf, DaysInMonth;
    ExtendMovesExactly(w, user, reason, deadline, now, fates);
    MovedLands(w.item, TypedParts(deadline).value);
  }

  lemma MovedLands(i: Item, c: Civil)
    requires i.slaDueDate.Some? && IsReal(c)
    ensures Deadline.LandsUnlessEarly(MovedTo(i, c).slaDueDate, i.slaDueDate.value, DayOf(c))
  {
    hide MakeDay, StartOfUtcDay, SlaDuration.IsoDayDuration, Deadline.MovedDeadline;
    var due := i.slaDueDate.value;
    StartOfUtcDayExactly(due);
    Deadline.LandsFrom(due, StartOfUtcDay(due), DayOf(c));
    Deadline.MovedByGap(due, DayOf(c) - StartOfUtcDay(due));
  }

  predicate FitsReason(reason: string) {
    Text.Trim(reason) != "" && |Text.Trim(reason)| <= REASON_MAX_LENGTH
  }

  lemma ValidAgain(i: Item, reason: string, deadline: DateInput, now: int, c: Civil)
    requires TypedParts(deadline) == Some(c) && IsReal(c) && c.year >= 100
    requires i.slaDueDate.Some? && i.slaStartedAt.Some?
    ensures ValidateChange(i, reason, deadline, now).Valid?
            <==> && FitsReason(reason)
                 && DayOf(c) >= Deadline.DeadlineFloor(i.slaStartedAt.value, now).day
                 && StartOfUtcDay(i.slaDueDate.value) != DayOf(c)
  {
    hide MakeDay, SlaDuration.IsoDayDuration, Deadline.DeadlineFloor, Deadline.ValidateExtendDeadline, StartOfUtcDay, DayOf,
         DaysInMonth, TypedParts;
    Deadline.AcceptsExactly(deadline, i.slaDueDate, i.slaStartedAt, now, c);
  }

  /** The moved deadline reads as the typed date, unless the old one was in the
      years 0 to 99; and then, for any date from 2007 on, never. */
  lemma MovedReadsAs(i: Item, c: Civil)
    requires i.slaDueDate.Some? && IsReal(c) && c.year >= 100
    ensures StartOfUtcDay(MovedTo(i, c).slaDueDate.value) != DayOf(c) ==> 0 <= UtcYear(i.slaDueDate.value) <= 99
    ensures c.year >= 2007 && 0 <= UtcYear(i.slaDueDate.value) <= 99 ==>
              StartOfUtcDay(MovedTo(i, c).slaDueDate.value) != DayOf(c)
  {
    hide MakeDay, DayOf, DaysInMonth, StartOfUtcDay;
    var due, moved := i.slaDueDate.value, MovedTo(i, c).slaDueDate.value;
    MovedLands(i, c);
    if 0 <= UtcYear(due) <= 99 {
      if c.year >= 2007 {
        Deadline.EarlyDeadlineReadsElsewhere(due, c);
      }
    } else {
      CivilOfDayOf(c);
      StartOfUtcDayExactly(moved);
    }
  }

  /** Submitting the same date again, after the deadline has moved, goes as far as
      the change exactly when the form still passes and the moved deadline reads
      as another day, and then moves it again unless the post is refused;
      otherwise it makes no call at all, even if the first submit lost its reply.
      That it reads as another day happens only to a deadline that was in the
      years 0 to 99, and to every such one for a date from 2007 on. */
  lemma DeadlineMovesAgainExactly(
    w: World, user1: User, reason1: string, deadline: DateInput, now1: int, fates1: Fates,
    user2: User, reason2: string, now2: int, fates2: Fates)
    requires SubmitExtend(w, user1, reason1, deadline, now1, fates1).world.item.slaDueDate != w.item.slaDueDate
    ensures w.item.slaDueDate.Some? && w.item.slaStartedAt.Some? && TypedParts(deadline).Some?
    ensures IsReal(TypedParts(deadline).value)
    ensures var moved, c := SubmitExtend(w, user1, reason1, deadline, now1, fates1).world, TypedParts(deadline).value;
            var readsElsewhere := StartOfUtcDay(MovedTo(w.item, c).slaDueDate.value) != DayOf(c);
            && (ReachesChange(moved.item, reason2, deadline, now2, fates2)
                <==> && fates2.read == ReadOk && FitsReason(reason2)
                     && DayOf(c) >= Deadline.DeadlineFloor(w.item.slaStartedAt.value, now2).day
                     && readsElsewhere)
            && (SubmitExtend(moved, user2, reason2, deadline, now2, fates2).world.item.slaDueDate != moved.item.slaDueDate
                <==> ReachesChange(moved.item, reason2, deadline, now2, fates2) && fates2.post != Refused)
            && (!ReachesChange(moved.item, reason2, deadline, now2, fates2) ==>
                  SubmitExtend(moved, user2, reason2, deadline, now2, fates2).world == moved)
            && (readsElsewhere ==> 0 <= UtcYear(w.item.slaDueDate.value) <= 99)
            && (c.year >= 2007 && 0 <= UtcYear(w.item.slaDueDate.value) <= 99 ==> readsElsewhere)
  {
    hide SubmitExtend, StartOk, StartOfUtcDay, MakeDay, DayOf, DaysInMonth, ValidateChange, FitsReason, TypedParts,
         Deadline.DeadlineFloor, StartedItem, TakesDeadlineChange;
    ExtendMovesExactly(w, user1, reason1, deadline, now1, fates1);
    var moved, c := SubmitExtend(w, user1, reason1, deadline, now1, fates1).world, TypedParts(deadline).value;
    MovedReadsAs(w.item, c);
    ValidAgain(moved.item, reason2, deadline, now2, c);
    ExtendReached(moved, user2, reason2, deadline, now2, fates2);
    StartedIs(w.item, user1);
    StartedTakes(w.item, user1);
    MovedState(StartedItem(w.item, user1), c);
    AfterFirst(moved.item, user2, fates2);
    ExtendMovesExactly(moved, user2, reason2, deadline, now2, fates2);
  }

  // ---- Saved notes ----

  /** How often a note has been saved from `n` on. */
  function NotesSaved(log: seq<CallRecord>, n: nat): nat
    requires n <= |log|
    decreases |log|
  {
    if |log| == n then 0
    else NotesSaved(log[..|log| - 1], n) + (if log[|log| - 1].call.NoteCall? && log[|log| - 1].took then 1 else 0)
  }

  /** One submit saves its note: it reaches the decision, the case is or gets
      started, the note is not blank and the call for it is not refused. */
  predicate SavesNote(i: Item, user: User, decision: Option<Outcome>, decisionNote: string, fates: Fates) {
    && ReachesDecision(i, decision, decisionNote, fates) && StartOk(i, user, fates)
    && Text.Trim(decisionNote) != "" && fates.note != Refused
  }

  /** Its decision then takes effect too. */
  predicate TakesDecision(i: Item, user: User, decision: Option<Outcome>, decisionNote: string, fates: Fates) {
    && ReachesDecision(i, decision, decisionNote, fates) && StartOk(i, user, fates)
    && NotePasses(decisionNote, fates) && fates.post != Refused
  }

  lemma OneMore(w: World, call: Call, fate: Fate, n: nat)
    requires n <= |w.log|
    ensures var w' := Perform(w, call, fate);
            NotesSaved(w'.log, n)
            == NotesSaved(w.log, n) + (if call.NoteCall? && Effect(w.item, call).Some? && fate != Refused then 1 else 0)
  {
    hide Effect;
    var w' := Perform(w, call, fate);
    assert w'.log[..|w'.log| - 1] == w.log;
  }

  lemma EnsureSavesNone(w: World, user: User, fates: Fates, n: nat)
    requires n <= |w.log|
    ensures |w.log| <= |EnsureStarted(w, user, fates).world.log|
    ensures NotesSaved(EnsureStarted(w, user, fates).world.log, n) == NotesSaved(w.log, n)
  {
    hide StartFor, Effect, NotesSaved;
    StartForDulyMade(w.item);
    if w.item.lifecycle.state == DulyMade {
      if w.item.lifecycle.assignee.Some? {
        OneMore(w, ActionCall(StartAssessment), fates.start, n);
      } else if Identified(user) {
        OneMore(w, AssignCall(user.id.value), fates.assign, n);
        OneMore(Perform(w, AssignCall(user.id.value), fates.assign), ActionCall(StartAssessment), fates.start, n);
      }
    }
  }

  lemma RecordSaves(w: World, outcome: Outcome, decisionNote: string, fates: Fates, n: nat)
    requires n <= |w.log| && |Text.Trim(decisionNote)| <= NOTE_MAX_LENGTH
    ensures n <= |RecordDecision(w, Some(outcome), decisionNote, fates).world.log|
    ensures NotesSaved(RecordDecision(w, Some(outcome), decisionNote, fates).world.log, n)
            == NotesSaved(w.log, n) + (if Text.Trim(decisionNote) != "" && fates.note != Refused then 1 else 0)
  {
    hide Effect, NotesSaved;
    var trimmed := Text.Trim(decisionNote);
    if trimmed == "" {
      OneMore(w, DecisionCall(outcome), fates.post, n);
    } else {
      NoteEffect(w.item, trimmed);
      OneMore(w, NoteCall(trimmed), fates.note, n);
      OneMore(Perform(w, NoteCall(trimmed), fates.note), DecisionCall(outcome), fates.post, n);
    }
  }

  /** A decision submit saves its note, and then once, exactly when `SavesNote`
      says so of its inputs. */
  lemma NoteSavedExactly(w: World, user: User, decision: Option<Outcome>, decisionNote: string, fates: Fates, n: nat)
    requires n <= |w.log|
    ensures var a := SubmitDecision(w, user, decision, decisionNote, fates);
            && n <= |a.world.log|
            && NotesSaved(a.world.log, n)
               == NotesSaved(w.log, n) + (if SavesNote(w.item, user, decision, decisionNote, fates) then 1 else 0)
  {
    hide SubmitDecision, EnsureStarted, RecordDecision, NotesSaved, StartOk, StartLost, ReachesDecision, StartedItem;
    DecisionReached(w, user, decision, decisionNote, fates);
    if ReachesDecision(w.item, decision, decisionNote, fates) {
      EnsureTells(w, user, fates);
      EnsureSavesNone(w, user, fates, n);
      if StartOk(w.item, user, fates) {
        RecordSaves(EnsureStarted(w, user, fates).world, decision.value, decisionNote, fates, n);
      }
    }
  }

  /** What a decision submit leaves of the case, as far as the next one asks. */
  lemma DecisionLeaves(w: World, user: User, decision: Option<Outcome>, decisionNote: string, fates: Fates)
    requires ReachesDecision(w.item, decision, decisionNote, fates) && StartOk(w.item, user, fates)
    ensures decision.Some?
    ensures SubmitDecision(w, user, decision, decisionNote, fates).world.item.lifecycle.state
            == if TakesDecision(w.item, user, decision, decisionNote, fates) then PendingState(decision.value)
               else if w.item.lifecycle.state == DulyMade then AssessmentStarted
               else w.item.lifecycle.state
  {
    hide SubmitDecision, EnsureStarted, RecordDecision, StartOk, StartLost, StartedItem, NotePasses;
    DecisionReached(w, user, decision, decisionNote, fates);
    EnsureTells(w, user, fates);
    StartedIs(w.item, user);
    RecordTells(EnsureStarted(w, user, fates).world, decision.value, decisionNote, fates);
  }

  /** Two submits in a row, whoever sends them and whatever they say, save two
      notes exactly when the first saves its note but its decision takes no effect,
      because the note went unanswered or the decision was refused, and the second
      one's form passes, is read, and has its note not refused. */
  lemma NoteSavedTwiceExactly(
    w: World, user1: User, decision1: Option<Outcome>, note1: string, fates1: Fates,
    user2: User, decision2: Option<Outcome>, note2: string, fates2: Fates)
    ensures var a1 := SubmitDecision(w, user1, decision1, note1, fates1);
            var a2 := SubmitDecision(a1.world, user2, decision2, note2, fates2);
            && |w.log| <= |a2.world.log|
            && (NotesSaved(a2.world.log, |w.log|) == 2
                <==> && SavesNote(w.item, user1, decision1, note1, fates1)
                     && (fates1.note != Replied || fates1.post == Refused)
                     && fates2.read == ReadOk && DecisionErrors(decision2, note2) == []
                     && Text.Trim(note2) != "" && fates2.note != Refused)
  {
    hide SubmitDecision, StartOk, NotesSaved, DecisionErrors;
    NoteSavedExactly(w, user1, decision1, note1, fates1, |w.log|);
    var a1 := SubmitDecision(w, user1, decision1, note1, fates1);
    NoteSavedExactly(a1.world, user2, decision2, note2, fates2, |w.log|);
    assert NotesSaved(w.log, |w.log|) == 0 by { NoneYet(w.log); }
    if SavesNote(w.item, user1, decision1, note1, fates1) {
      DecisionLeaves(w, user1, decision1, note1, fates1);
      AfterFirst(a1.world.item, user2, fates2);
    }
  }

  lemma NoneYet(log: seq<CallRecord>)
    ensures NotesSaved(log, |log|) == 0
  {
  }

  lemma AfterFirst(i: Item, user: User, fates: Fates)
    ensures i.lifecycle.state != DulyMade ==> StartOk(i, user, fates)
  {
  }

  /** For instance a case in progress whose note is saved and whose decision is
      refused: sending the form again saves the note again, and neither page
      mentions it. */
  lemma NoteIsRepeated(w: World, user: User, outcome: Outcome, decisionNote: string)
    requires w.item.lifecycle.state == AssessmentInProgress
    requires 0 < |Text.Trim(decisionNote)| <= NOTE_MAX_LENGTH
    ensures var first := SubmitDecision(w, user, Some(outcome), decisionNote,
                                        Fates(ReadOk, Replied, Replied, Replied, Refused, false));
            var second := SubmitDecision(first.world, user, Some(outcome), decisionNote,
                                         Fates(ReadOk, Replied, Replied, Replied, Replied, false));
            && first.result == Failed(false, false, false) && second.result == Done(false, false)
            && |w.log| <= |second.world.log| && NotesSaved(second.world.log, |w.log|) == 2
  {
    hide SubmitDecision, EnsureStarted, RecordDecision, NotesSaved;
    var first := Fates(ReadOk, Replied, Replied, Replied, Refused, false);
    var second := Fates(ReadOk, Replied, Replied, Replied, Replied, false);
    NoteSavedTwiceExactly(w, user, Some(outcome), decisionNote, first, user, Some(outcome), decisionNote, second);
    DecisionReached(w, user, Some(outcome), decisionNote, first);
    EnsureTells(w, user, first);
    RecordTells(EnsureStarted(w, user, first).world, outcome, decisionNote, first);
    var between := SubmitDecision(w, user, Some(outcome), decisionNote, first).world;
    DecisionLeaves(w, user, Some(outcome), decisionNote, first);
    DecisionReached(between, user, Some(outcome), decisionNote, second);
    EnsureTells(between, user, second);
    RecordTells(EnsureStarted(between, user, second).world, outcome, decisionNote, second);
    RecordPages(EnsureStarted(w, user, first).world, outcome, decisionNote, first);
  }

  lemma RecordPages(w: World, outcome: Outcome, decisionNote: string, fates: Fates)
    requires |Text.Trim(decisionNote)| <= NOTE_MAX_LENGTH && fates.note == Replied
    ensures !RecordDecision(w, Some(outcome), decisionNote, fates).result.NoteFailed?
  {
    NoteEffect(w.item, Text.Trim(decisionNote));
  }

  // ---- Assign to yourself and start ----

  /** The item as the answer to a self-assign describes it. */
  function ToldBySelfAssign(i: Item, user: User, page: Page): Item {
    match page
    case StartFailed(_, assignedNow) => WithStart(i, user, assignedNow, false)
    case Done(assignedNow, startedNow) => WithStart(i, user, assignedNow, startedNow)
    case _ => i
  }

  /** A call of the self-assign changes the case and loses its reply: an assignment
      that is news, or the start. */
  predicate SelfAssignLost(i: Item, user: User, fates: Fates) {
    && Identified(user) && !IsTerminal(i.lifecycle.state)
    && (|| (fates.assign == Lost && i.lifecycle.assignee != user.id)
        || (fates.assign == Replied && fates.read == ReadOk && i.lifecycle.state == DulyMade && fates.start == Lost))
  }

  lemma TakeOverEffect(i: Item, who: string)
    ensures Effect(i, AssignCall(who))
            == if IsTerminal(i.lifecycle.state) then None else Some(WithStart(i, User(Some(who)), true, false))
  {
  }

  /** Self-assigning takes the case over whoever held it, starts it only from duly
      made and only once the assignment has succeeded, and says what it did
      exactly when no call that changed the case lost its reply. */
  lemma SelfAssignTellsExactly(w: World, user: User, fates: Fates)
    ensures var a := SelfAssign(w, user, fates);
            && (a.world.item == ToldBySelfAssign(w.item, user, a.result) <==> !SelfAssignLost(w.item, user, fates))
            && (a.result.Done? ==> a.world.item == ToldBySelfAssign(w.item, user, a.result)
                                   && (a.result.startedNow <==> fates.read == ReadOk && w.item.lifecycle.state == DulyMade))
            && (forall i :: |w.log| <= i < |a.world.log| && a.world.log[i].call.ActionCall? ==>
                  && a.world.log[i].call == ActionCall(StartAssessment)
                  && a.world.log[i].before == WithStart(w.item, user, true, false)
                  && a.world.log[i].before.lifecycle.state == DulyMade)
  {
    hide StartFor, Effect;
    StartForDulyMade(w.item);
    if Identified(user) {
      var assign := AssignCall(user.id.value);
      var taken := Perform(w, assign, fates.assign);
      TakeOverEffect(w.item, user.id.value);
      if Succeeds(w, assign, fates.assign) && w.item.lifecycle.state == DulyMade {
        StartEffect(taken.item, user);
        PerformTells(taken, ActionCall(StartAssessment), fates.start);
      }
    }
  }
}
