/** The boot-time validator of work item modules: two loops that collect ids
    into sets and stop at the first fault. */
module ModuleValidator {
  import opened Prelude
  import opened Text
  import opened Engine

  // A module as it arrives. `None` stands for a value that is not a string, or
  // not an array where an array is wanted.
  datatype RawState = NotAState | RawState(id: Option<string>, isTerminal: bool)

  datatype RawTransition =
    | NotATransition
    | RawTransition(actionId: Option<string>, fromStateId: Option<string>, toStateId: Option<string>,
                    callerInvocable: bool, startsOnSelfAssign: bool)

  datatype RawType = RawType(
    id: Option<string>,
    templateVersion: Option<string>,
    states: Option<seq<RawState>>,
    initialState: Option<string>,
    transitions: Option<seq<RawTransition>>)

  datatype RawModule = NotAnObject | RawModule(typ: Option<RawType>, hasRegister: bool)

  datatype Fault =
    | ModuleNotObject | TypeIdMissing | RegisterMissing | TemplateVersionMissing | StatesMissing
    | StateIdMissing | DuplicateStateId(id: string)
    | InitialStateMissing | InitialStateUnknown(id: string) | TransitionsMissing
    | TransitionNotObject | ActionIdMissing
    | FromStateMissing(actionId: string) | ToStateMissing(actionId: string)
    | UnknownFromState(actionId: string, id: string) | UnknownToState(actionId: string, id: string)
    | DuplicateActionId(actionId: string)

  /** `typeof value !== 'string' || value.trim() === ''` */
  predicate IsMissing(value: Option<string>) {
    value.None? || Trim(value.value) == ""
  }

  /** A field is missing if it is no text, or nothing but white space. */
  lemma MissingExactly(value: Option<string>)
    ensures IsMissing(value) <==> value.None? || AllWhite(value.value)
  {
    if value.Some? {
      TrimmedAway(value.value);
    }
  }

  // ---- What a valid module is, without the loops ----

  ghost predicate GoodStates(states: seq<RawState>) {
    && (forall i :: 0 <= i < |states| ==> states[i].RawState? && !IsMissing(states[i].id))
    && (forall i, j :: 0 <= i < j < |states| ==> states[i].RawState? && states[j].RawState? ==> states[i].id != states[j].id)
  }

  ghost predicate Declares(states: seq<RawState>, id: Option<string>) {
    exists i :: 0 <= i < |states| && states[i].RawState? && states[i].id == id
  }

  ghost predicate GoodTransitions(states: seq<RawState>, transitions: seq<RawTransition>) {
    && (forall i :: 0 <= i < |transitions| ==>
          var tr := transitions[i];
          && tr.RawTransition? && !IsMissing(tr.actionId) && !IsMissing(tr.fromStateId) && !IsMissing(tr.toStateId)
          && Declares(states, tr.fromStateId) && Declares(states, tr.toStateId))
    && (forall i, j :: 0 <= i < j < |transitions| ==>
          transitions[i].RawTransition? && transitions[j].RawTransition? ==> transitions[i].actionId != transitions[j].actionId)
  }

  ghost predicate WellFormed(m: RawModule) {
    && m.RawModule? && m.typ.Some? && !IsMissing(m.typ.value.id) && m.hasRegister
    && var t := m.typ.value;
    && !IsMissing(t.templateVersion)
    && t.states.Some? && t.states.value != [] && GoodStates(t.states.value)
    && !IsMissing(t.initialState) && Declares(t.states.value, t.initialState)
    && t.transitions.Some? && GoodTransitions(t.states.value, t.transitions.value)
  }

  // ---- assertValidWorkItemModule ----

  ghost predicate Collected(states: seq<RawState>, n: int, stateIds: set<string>)
    requires 0 <= n <= |states|
  {
    && (forall i :: 0 <= i < n ==> states[i].RawState? && states[i].id.Some? && states[i].id.value in stateIds)
    && (forall id :: id in stateIds ==> exists i :: 0 <= i < n && states[i].RawState? && states[i].id == Some(id))
  }

  /** What the first faulty state is reported as. */
  ghost predicate FirstStateFault(states: seq<RawState>, fault: Fault) {
    exists i :: 0 <= i < |states| && GoodStates(states[..i]) && StateFaultAt(states, i, fault)
  }

  ghost predicate StateFaultAt(states: seq<RawState>, i: int, fault: Fault)
    requires 0 <= i < |states|
  {
    if states[i].NotAState? || IsMissing(states[i].id) then fault == StateIdMissing
    else Declares(states[..i], states[i].id) && fault == DuplicateStateId(states[i].id.value)
  }

  method CollectStateIds(states: seq<RawState>) returns (fault: Option<Fault>, stateIds: set<string>)
    ensures fault.None? <==> GoodStates(states)
    ensures fault.Some? ==> FirstStateFault(states, fault.value)
    ensures fault.None? ==> Collected(states, |states|, stateIds)
  {
    stateIds := {};
    for n := 0 to |states|
      invariant Collected(states, n, stateIds)
      invariant GoodStates(states[..n])
    {
      var state := states[n];
      assert states[..n + 1] == states[..n] + [state];
      if state.NotAState? || IsMissing(state.id) {
        assert StateFaultAt(states, n, StateIdMissing);
        return Some(StateIdMissing), stateIds;
      }
      if state.id.value in stateIds {
        var k :| 0 <= k < n && states[k].RawState? && states[k].id == Some(state.id.value);
        assert states[..n][k].id == state.id;
        assert StateFaultAt(states, n, DuplicateStateId(state.id.value));
        return Some(DuplicateStateId(state.id.value)), stateIds;
      }
      stateIds := stateIds + {state.id.value};
    }
    assert states[..|states|] == states;
    return None, stateIds;
  }

  /** What the first faulty transition is reported as. */
  ghost predicate FirstTransitionFault(states: seq<RawState>, transitions: seq<RawTransition>, fault: Fault) {
    exists i :: 0 <= i < |transitions| && GoodTransitions(states, transitions[..i])
                && TransitionFaultAt(states, transitions, i, fault)
  }

  ghost predicate TransitionFaultAt(states: seq<RawState>, transitions: seq<RawTransition>, i: int, fault: Fault)
    requires 0 <= i < |transitions|
  {
    var tr := transitions[i];
    if tr.NotATransition? then fault == TransitionNotObject
    else if IsMissing(tr.actionId) then fault == ActionIdMissing
    else if IsMissing(tr.fromStateId) then fault == FromStateMissing(tr.actionId.value)
    else if IsMissing(tr.toStateId) then fault == ToStateMissing(tr.actionId.value)
    else if !Declares(states, tr.fromStateId) then fault == UnknownFromState(tr.actionId.value, tr.fromStateId.value)
    else if !Declares(states, tr.toStateId) then fault == UnknownToState(tr.actionId.value, tr.toStateId.value)
    else
      && (exists k :: 0 <= k < i && transitions[k].RawTransition? && transitions[k].actionId == tr.actionId)
      && fault == DuplicateActionId(tr.actionId.value)
  }

  method CheckTransition(tr: RawTransition, stateIds: set<string>, actionIds: set<string>) returns (fault: Option<Fault>)
    ensures fault ==
      if tr.NotATransition? then Some(TransitionNotObject)
      else if IsMissing(tr.actionId) then Some(ActionIdMissing)
      else if IsMissing(tr.fromStateId) then Some(FromStateMissing(tr.actionId.value))
      else if IsMissing(tr.toStateId) then Some(ToStateMissing(tr.actionId.value))
      else if tr.fromStateId.value !in stateIds then Some(UnknownFromState(tr.actionId.value, tr.fromStateId.value))
      else if tr.toStateId.value !in stateIds then Some(UnknownToState(tr.actionId.value, tr.toStateId.value))
      else if tr.actionId.value in actionIds then Some(DuplicateActionId(tr.actionId.value))
      else None
  {
    if tr.NotATransition? { return Some(TransitionNotObject); }
    if IsMissing(tr.actionId) { return Some(ActionIdMissing); }
    if IsMissing(tr.fromStateId) { return Some(FromStateMissing(tr.actionId.value)); }
    if IsMissing(tr.toStateId) { return Some(ToStateMissing(tr.actionId.value)); }
    if tr.fromStateId.value !in stateIds { return Some(UnknownFromState(tr.actionId.value, tr.fromStateId.value)); }
    if tr.toStateId.value !in stateIds { return Some(UnknownToState(tr.actionId.value, tr.toStateId.value)); }
    if tr.actionId.value in actionIds { return Some(DuplicateActionId(tr.actionId.value)); }
    return None;
  }

  ghost predicate CollectedActions(transitions: seq<RawTransition>, n: int, actionIds: set<string>)
    requires 0 <= n <= |transitions|
  {
    && (forall i :: 0 <= i < n ==>
          transitions[i].RawTransition? && transitions[i].actionId.Some? && transitions[i].actionId.value in actionIds)
    && (forall id :: id in actionIds ==>
          exists i :: 0 <= i < n && transitions[i].RawTransition? && transitions[i].actionId == Some(id))
  }

  lemma DeclaredIffCollected(states: seq<RawState>, stateIds: set<string>, id: string)
    requires Collected(states, |states|, stateIds)
    ensures Declares(states, Some(id)) <==> id in stateIds
  {
  }

  method CheckTransitions(states: seq<RawState>, transitions: seq<RawTransition>, stateIds: set<string>)
    returns (fault: Option<Fault>)
    requires Collected(states, |states|, stateIds)
    ensures fault.None? <==> GoodTransitions(states, transitions)
    ensures fault.Some? ==> FirstTransitionFault(states, transitions, fault.value)
  {
    var actionIds: set<string> := {};
    for n := 0 to |transitions|
      invariant CollectedActions(transitions, n, actionIds)
      invariant GoodTransitions(states, transitions[..n])
    {
      var tr := transitions[n];
      assert transitions[..n + 1] == transitions[..n] + [tr];
      fault := CheckTransition(tr, stateIds, actionIds);
      if tr.RawTransition? && tr.fromStateId.Some? {
        DeclaredIffCollected(states, stateIds, tr.fromStateId.value);
      }
      if tr.RawTransition? && tr.toStateId.Some? {
        DeclaredIffCollected(states, stateIds, tr.toStateId.value);
      }
      if fault.Some? {
        assert TransitionFaultAt(states, transitions, n, fault.value);
        return;
      }
      actionIds := actionIds + {tr.actionId.value};
    }
    assert transitions[..|transitions|] == transitions;
    return None;
  }

  /** The fault reported is the first in the order the checks are made. */
  ghost predicate IsFirstFault(m: RawModule, fault: Fault) {
    if m.NotAnObject? then fault == ModuleNotObject
    else if m.typ.None? || IsMissing(m.typ.value.id) then fault == TypeIdMissing
    else
      var t := m.typ.value;
      if !m.hasRegister then fault == RegisterMissing
      else if IsMissing(t.templateVersion) then fault == TemplateVersionMissing
      else if t.states.None? || t.states.value == [] then fault == StatesMissing
      else if !GoodStates(t.states.value) then FirstStateFault(t.states.value, fault)
      else if IsMissing(t.initialState) then fault == InitialStateMissing
      else if !Declares(t.states.value, t.initialState) then fault == InitialStateUnknown(t.initialState.value)
      else if t.transitions.None? then fault == TransitionsMissing
      else FirstTransitionFault(t.states.value, t.transitions.value, fault)
  }

  /** `assertValidWorkItemModule`: no fault exactly when the module is well
      formed. */
  method AssertValidWorkItemModule(m: RawModule) returns (fault: Option<Fault>)
    ensures fault.None? <==> WellFormed(m)
    ensures fault.Some? ==> IsFirstFault(m, fault.value)
  {
    if m.NotAnObject? { return Some(ModuleNotObject); }
    if m.typ.None? || IsMissing(m.typ.value.id) { return Some(TypeIdMissing); }
    var t := m.typ.value;
    if !m.hasRegister { return Some(RegisterMissing); }
    if IsMissing(t.templateVersion) { return Some(TemplateVersionMissing); }
    if t.states.None? || t.states.value == [] { return Some(StatesMissing); }
    var stateIds: set<string>;
    fault, stateIds := CollectStateIds(t.states.value);
    if fault.Some? { return; }
    if IsMissing(t.initialState) { return Some(InitialStateMissing); }
    DeclaredIffCollected(t.states.value, stateIds, t.initialState.value);
    if t.initialState.value !in stateIds { return Some(InitialStateUnknown(t.initialState.value)); }
    if t.transitions.None? { return Some(TransitionsMissing); }
    fault := CheckTransitions(t.states.value, t.transitions.value, stateIds);
  }

  // ---- What the engine may rely on ----

  /** The type a well-formed module registers. */
  ghost function Denote(m: RawModule): WorkItemType<string, string>
    requires WellFormed(m)
  {
    var t := m.typ.value;
    WorkItemType(
      seq(|t.states.value|, i requires 0 <= i < |t.states.value| =>
        State(t.states.value[i].id.value, t.states.value[i].isTerminal)),
      seq(|t.transitions.value|, i requires 0 <= i < |t.transitions.value| =>
        var tr := t.transitions.value[i];
        Transition(tr.actionId.value, tr.fromStateId.value, tr.toStateId.value, tr.callerInvocable, tr.startsOnSelfAssign)))
  }

  lemma DenotedStates(m: RawModule, id: string)
    requires WellFormed(m) && Declares(m.typ.value.states.value, Some(id))
    ensures HasState(Denote(m), id)
  {
    var states := m.typ.value.states.value;
    var i :| 0 <= i < |states| && states[i].RawState? && states[i].id == Some(id);
    assert Denote(m).states[i].id == id;
  }

  /** A module without a fault has unique state ids, unique action ids and no
      dangling states. */
  lemma WellFormedIsValid(m: RawModule)
    requires WellFormed(m)
    ensures IsValid(Denote(m))
  {
    var t := Denote(m);
    var raw := m.typ.value.transitions.value;
    forall i | 0 <= i < |t.transitions|
      ensures HasState(t, t.transitions[i].fromStateId) && HasState(t, t.transitions[i].toStateId)
    {
      DenotedStates(m, raw[i].fromStateId.value);
      DenotedStates(m, raw[i].toStateId.value);
    }
  }

  /** For every module the validator accepts and every work item, an action is
      allowed exactly when it is listed. */
  lemma AcceptedModulesAgree(m: RawModule, stateId: Option<string>, actionId: string)
    requires WellFormed(m)
    ensures CanApplyAction(Some(Denote(m)), stateId, actionId).Allowed? <==> Lists(Some(Denote(m)), stateId, actionId)
  {
    WellFormedIsValid(m);
    AllowedIffListed(Denote(m), stateId, actionId);
  }
}
