/** The lookups the frontend makes on a work item type's declaration: which
    actions to list, whether one may be applied, and what self-assigning starts.
    State and action ids are type parameters, so the same engine serves the
    string ids of any module and the enumerated ids of re-accreditation. */
module Engine {
  import opened Prelude

  datatype State<+S> = State(id: S, isTerminal: bool)

  /** `callerInvocable` is false only where the declaration says so. */
  datatype Transition<+S, +A> = Transition(
    actionId: A,
    fromStateId: S,
    toStateId: S,
    callerInvocable: bool,
    startsOnSelfAssign: bool)

  datatype WorkItemType<+S, +A> = WorkItemType(states: seq<State<S>>, transitions: seq<Transition<S, A>>)

  // ---- What the module validator guarantees ----

  ghost predicate HasState<S, A>(t: WorkItemType<S, A>, id: S) {
    exists i :: 0 <= i < |t.states| && t.states[i].id == id
  }

  /** Unique state ids, unique action ids, and no transition that leaves or
      enters a state the type does not declare. */
  ghost predicate IsValid<S, A>(t: WorkItemType<S, A>) {
    && (forall i, j :: 0 <= i < j < |t.states| ==> t.states[i].id != t.states[j].id)
    && (forall i, j :: 0 <= i < j < |t.transitions| ==> t.transitions[i].actionId != t.transitions[j].actionId)
    && (forall i :: 0 <= i < |t.transitions| ==>
          HasState(t, t.transitions[i].fromStateId) && HasState(t, t.transitions[i].toStateId))
  }

  // ---- engine.js ----

  /** `type.states?.find((s) => s.id === stateId)?.isTerminal` */
  predicate IsTerminalState<S(==), A>(t: WorkItemType<S, A>, stateId: S) {
    var current := Find(t.states, (s: State<S>) => s.id == stateId);
    current.Some? && current.value.isTerminal
  }

  function FindAction<S, A(==)>(t: WorkItemType<S, A>, actionId: A): (r: Option<Transition<S, A>>)
    ensures r.Some? ==> r.value in t.transitions && r.value.actionId == actionId
  {
    Find(t.transitions, (tr: Transition<S, A>) => tr.actionId == actionId)
  }

  /** `projectWorkItem`. `None` stands for a type that is not registered and for
      an item without a state id. */
  function ProjectWorkItem<S(==), A>(t: Option<WorkItemType<S, A>>, stateId: Option<S>): seq<Transition<S, A>> {
    if t.None? || stateId.None? || IsTerminalState(t.value, stateId.value) then []
    else
      Filter(Filter(t.value.transitions, (tr: Transition<S, A>) => tr.fromStateId == stateId.value),
             (tr: Transition<S, A>) => tr.callerInvocable)
  }

  /** The reason codes of every gate. The last two are only the type-specific
      gates'. */
  datatype Reason =
    | UnknownAction | InvalidWorkItem | TerminalState | InvalidTransition | NotCallerInvocable
    | WrongType | TypeNotRegistered

  datatype Verdict = Allowed | Denied(reason: Reason)

  /** `canApplyAction` */
  function CanApplyAction<S(==), A(==)>(t: Option<WorkItemType<S, A>>, stateId: Option<S>, actionId: A): Verdict {
    var transition := if t.Some? then FindAction(t.value, actionId) else None;
    if transition.None? then Denied(UnknownAction)
    else if stateId.None? then Denied(InvalidWorkItem)
    else if IsTerminalState(t.value, stateId.value) then Denied(TerminalState)
    else if transition.value.fromStateId != stateId.value then Denied(InvalidTransition)
    else if !transition.value.callerInvocable then Denied(NotCallerInvocable)
    else Allowed
  }

  /** `resolveSelfAssignTransition` */
  function ResolveSelfAssignTransition<S(==), A>(
    t: Option<WorkItemType<S, A>>, stateId: Option<S>): (r: Option<Transition<S, A>>)
    ensures r.Some? ==> stateId.Some? && r.value.startsOnSelfAssign && r.value.fromStateId == stateId.value
  {
    if t.None? || stateId.None? || IsTerminalState(t.value, stateId.value) then None
    else Find(t.value.transitions, (tr: Transition<S, A>) => tr.startsOnSelfAssign && tr.fromStateId == stateId.value)
  }

  /** `resolveSelfAssignLandingState` */
  function ResolveSelfAssignLandingState<S, A>(t: Option<WorkItemType<S, A>>): Option<S> {
    var start := if t.Some? then Find(t.value.transitions, (tr: Transition<S, A>) => tr.startsOnSelfAssign) else None;
    if start.Some? then Some(start.value.toStateId) else None
  }

  // ---- Listing an action and allowing it are one rule ----

  ghost predicate Lists<S, A>(t: Option<WorkItemType<S, A>>, stateId: Option<S>, actionId: A) {
    exists tr :: tr in ProjectWorkItem(t, stateId) && tr.actionId == actionId
  }

  lemma FoundByUniqueId<S, A>(t: WorkItemType<S, A>, tr: Transition<S, A>)
    requires IsValid(t) && tr in t.transitions
    ensures FindAction(t, tr.actionId) == Some(tr)
  {
    var k :| 0 <= k < |t.transitions| && t.transitions[k] == tr;
    FindFirst(t.transitions, (x: Transition<S, A>) => x.actionId == tr.actionId, k);
  }

  /** For a type the validator accepts, an action is allowed exactly when it is
      listed. */
  lemma AllowedIffListed<S, A>(t: WorkItemType<S, A>, stateId: Option<S>, actionId: A)
    requires IsValid(t)
    ensures CanApplyAction(Some(t), stateId, actionId).Allowed? <==> Lists(Some(t), stateId, actionId)
  {
    if Lists(Some(t), stateId, actionId) {
      var tr :| tr in ProjectWorkItem(Some(t), stateId) && tr.actionId == actionId;
      FoundByUniqueId(t, tr);
    }
    if CanApplyAction(Some(t), stateId, actionId).Allowed? {
      var tr := FindAction(t, actionId).value;
      assert tr in ProjectWorkItem(Some(t), stateId);
    }
  }

  /** What is listed, on any type at all: the transitions a caller may invoke from the
      item's state, unless the first declaration of that state is terminal. */
  lemma ListedExactly<S, A>(t: WorkItemType<S, A>, s: S, tr: Transition<S, A>)
    ensures tr in ProjectWorkItem(Some(t), Some(s))
            <==> && tr in t.transitions && tr.fromStateId == s && tr.callerInvocable
                 && !exists i :: 0 <= i < |t.states| && t.states[i].id == s && t.states[i].isTerminal
                                 && forall j :: 0 <= j < i ==> t.states[j].id != s
    ensures ProjectWorkItem<S, A>(None, Some(s)) == [] && ProjectWorkItem(Some(t), None) == []
  {
    FirstDeclared(t, s);
  }

  lemma {:induction false} FirstDeclared<S, A>(t: WorkItemType<S, A>, s: S)
    ensures IsTerminalState(t, s)
            <==> exists i :: 0 <= i < |t.states| && t.states[i].id == s && t.states[i].isTerminal
                             && forall j :: 0 <= j < i ==> t.states[j].id != s
  {
    if i :| 0 <= i < |t.states| && t.states[i].id == s && forall j :: 0 <= j < i ==> t.states[j].id != s {
      FindFirst(t.states, (st: State<S>) => st.id == s, i);
    } else {
      NoFirst(t.states, s, |t.states|);
    }
  }

  lemma {:induction false} NoFirst<S>(states: seq<State<S>>, s: S, n: nat)
    requires n <= |states|
    requires forall i :: 0 <= i < |states| && states[i].id == s ==> exists j :: 0 <= j < i && states[j].id == s
    ensures forall i :: 0 <= i < n ==> states[i].id != s
  {
    if n > 0 {
      NoFirst(states, s, n - 1);
    }
  }

  /** What self-assigning starts, on any type: a transition marked so that leaves the
      item's state, if there is one and the state is not terminal. */
  lemma SelfAssignExactly<S, A>(t: WorkItemType<S, A>, s: S)
    ensures var terminal := exists i :: 0 <= i < |t.states| && t.states[i].id == s && t.states[i].isTerminal
                                        && forall j :: 0 <= j < i ==> t.states[j].id != s;
            ResolveSelfAssignTransition(Some(t), Some(s)).Some?
            <==> !terminal && exists tr :: tr in t.transitions && tr.startsOnSelfAssign && tr.fromStateId == s
    ensures ResolveSelfAssignTransition<S, A>(None, Some(s)) == None && ResolveSelfAssignTransition(Some(t), None) == None
  {
    FirstDeclared(t, s);
  }

  /** Why an action is refused: the first of these that holds, in this order. */
  lemma RefusedInOrder<S, A>(t: WorkItemType<S, A>, stateId: Option<S>, actionId: A, tr: Transition<S, A>)
    requires IsValid(t)
    ensures (forall x :: x in t.transitions ==> x.actionId != actionId) ==>
              CanApplyAction(Some(t), stateId, actionId) == Denied(UnknownAction)
    ensures tr in t.transitions && tr.actionId == actionId ==>
              var v := CanApplyAction(Some(t), stateId, actionId);
              if stateId.None? then v == Denied(InvalidWorkItem)
              else if exists st :: st in t.states && st.id == stateId.value && st.isTerminal then v == Denied(TerminalState)
              else if tr.fromStateId != stateId.value then v == Denied(InvalidTransition)
              else if !tr.callerInvocable then v == Denied(NotCallerInvocable)
              else v == Allowed
    ensures CanApplyAction<S, A>(None, stateId, actionId) == Denied(UnknownAction)
  {
    if tr in t.transitions && tr.actionId == actionId {
      FoundByUniqueId(t, tr);
    }
    if stateId.Some? {
      forall st | st in t.states && st.id == stateId.value && st.isTerminal ensures IsTerminalState(t, stateId.value) {
        var i :| 0 <= i < |t.states| && t.states[i] == st;
        FindFirst(t.states, (x: State<S>) => x.id == stateId.value, i);
      }
    }
  }

  /** On any type at all, what is allowed is listed; only the other direction
      leans on the validator. */
  lemma AllowedIsListed<S, A>(t: Option<WorkItemType<S, A>>, stateId: Option<S>, actionId: A)
    requires CanApplyAction(t, stateId, actionId).Allowed?
    ensures Lists(t, stateId, actionId)
  {
    var tr := FindAction(t.value, actionId).value;
    assert tr in ProjectWorkItem(t, stateId);
  }

  /** A second transition under a used action id is listed from its own state
      and never allowed there. */
  lemma DuplicateActionIdsDisagree<S, A>(a: S, b: S, act: A)
    requires a != b
    ensures var t := WorkItemType([State(a, false), State(b, false)],
                                  [Transition(act, a, b, true, false), Transition(act, b, a, true, false)]);
            && Lists(Some(t), Some(b), act)
            && CanApplyAction(Some(t), Some(b), act) == Denied(InvalidTransition)
  {
    var first, second := Transition(act, a, b, true, false), Transition(act, b, a, true, false);
    var t := WorkItemType([State(a, false), State(b, false)], [first, second]);
    FindFirst(t.transitions, (x: Transition<S, A>) => x.actionId == act, 0);
    FindFirst(t.states, (s: State<S>) => s.id == b, 1);
    assert t.transitions[1] == second;
    assert second in ProjectWorkItem(Some(t), Some(b));
  }
}
