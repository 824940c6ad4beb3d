/** Properties of single calls of SetInitialState, ChangeState and
    ReturnToLastState, including the two places where the source leaves the
    re-entrancy guard set after returning. */
module Transitions {
  import opened Descriptors
  import opened Machine

  /** A machine on which ChangeState gets past the lookup and the guard. */
  ghost predicate Ready<T>(m: StateMachine<T>)
  {
    m.currentState in m.states && !m.transitioning
  }

  /** SetInitialState may be repeated: the same machine results and the enter
      callback runs again. */
  lemma SetInitialStateReenters<T>(m: StateMachine<T>, stateName: T)
    requires stateName in m.states && m.states[stateName].hasEnterCallback
    ensures SetInitialState(SetInitialState(m, stateName).machine, stateName).machine
            == SetInitialState(m, stateName).machine
    ensures SetInitialState(SetInitialState(m, stateName).machine, stateName).trace == [Enter(stateName)]
  {
    assert Enter(stateName) in SetInitialState(SetInitialState(m, stateName).machine, stateName).trace;
  }

  /** An unregistered target changes nothing at all: the guard the call set is
      cleared again before it returns. */
  lemma UnknownTargetIsInert<T>(m: StateMachine<T>, stateName: T)
    requires Ready(m) && stateName !in m.states
    ensures ChangeState(m, stateName) == Step(m, UnknownTarget, [])
  {
  }

  /** A transition requested while the guard is set fails fatally and leaves
      the machine as it was, whatever the target. */
  lemma GuardIsFatal<T>(m: StateMachine<T>, stateName: T)
    requires m.currentState in m.states && m.transitioning
    ensures ChangeState(m, stateName) == Step(m, AlreadyTransitioning, [])
  {
  }

  /** A self-transition runs no callback and keeps the current and last
      state, but returns with the guard set, so the next ChangeState fails
      fatally whatever its target. */
  lemma SelfTransitionLeavesGuardSet<T>(m: StateMachine<T>, next: T)
    requires Ready(m)
    ensures ChangeState(m, m.currentState) == Step(m.(transitioning := true), AlreadyInState, [])
    ensures ChangeState(ChangeState(m, m.currentState).machine, next).outcome == AlreadyTransitioning
  {
  }

  /** A target missing from a present allow-list is rejected without a
      callback and without moving the current or last state, but the guard
      stays set, so the next ChangeState fails fatally. */
  lemma RejectionLeavesGuardSet<T>(m: StateMachine<T>, stateName: T, next: T)
    requires Ready(m) && stateName in m.states && stateName != m.currentState
    requires !Permits(m.states[m.currentState], stateName)
    ensures ChangeState(m, stateName) == Step(m.(transitioning := true), NotAllowed, [])
    ensures ChangeState(ChangeState(m, stateName).machine, next).outcome == AlreadyTransitioning
  {
  }

  /** SetInitialState does not consult the guard and clears it, which is the
      only way out of a leaked guard. */
  lemma SetInitialStateClearsLeakedGuard<T>(m: StateMachine<T>, stateName: T, next: T)
    requires m.transitioning && stateName in m.states
    requires next in m.states && next != stateName && Permits(m.states[stateName], next)
    ensures ChangeState(SetInitialState(m, stateName).machine, next).outcome == Committed
  {
  }

  /** A state with an empty allow-list is terminal: no ChangeState out of it
      commits. */
  lemma EmptyAllowListIsTerminal<T>(m: StateMachine<T>, stateName: T)
    requires m.currentState in m.states && m.states[m.currentState].allowedTransitions == Some([])
    ensures ChangeState(m, stateName).outcome != Committed
    ensures ChangeState(m, stateName).machine.currentState == m.currentState
  {
  }

  /** A state without an allow-list reaches every other registered state. */
  lemma AbsentAllowListIsOpen<T>(m: StateMachine<T>, stateName: T)
    requires Ready(m) && m.states[m.currentState].allowedTransitions == None
    requires stateName in m.states && stateName != m.currentState
    ensures ChangeState(m, stateName).outcome == Committed
    ensures ChangeState(m, stateName).machine.currentState == stateName
  {
  }

  /** Leaving restorable A for B records A; leaving non-restorable B for C
      then keeps A as the last state. */
  lemma LastStateSkipsUnrestorable<T>(m: StateMachine<T>, b: T, c: T)
    requires Ready(m) && m.states[m.currentState].canBeRestored
    requires b in m.states && b != m.currentState && Permits(m.states[m.currentState], b)
    requires !m.states[b].canBeRestored
    requires c in m.states && c != b && Permits(m.states[b], c)
    ensures ChangeState(m, b).machine.lastState == m.currentState
    ensures ChangeState(ChangeState(m, b).machine, c).outcome == Committed
    ensures ChangeState(ChangeState(m, b).machine, c).machine.lastState == m.currentState
  {
  }

  /** Returning undoes a transition out of a restorable state whenever the
      target's allow-list lets the machine back: the machine is in the state it
      left, and the state it returned from is now the last state if restorable. */
  lemma ReturnUndoesRestorableTransition<T>(m: StateMachine<T>, stateName: T)
    requires Ready(m) && m.states[m.currentState].canBeRestored
    requires stateName in m.states && stateName != m.currentState
    requires Permits(m.states[m.currentState], stateName) && Permits(m.states[stateName], m.currentState)
    ensures ReturnToLastState(ChangeState(m, stateName).machine).outcome == Committed
    ensures ReturnToLastState(ChangeState(m, stateName).machine).machine.currentState == m.currentState
    ensures m.states[stateName].canBeRestored ==>
              ReturnToLastState(ChangeState(m, stateName).machine).machine.lastState == stateName
    ensures ReturnToLastState(ChangeState(m, stateName).machine).trace
            == (if m.states[stateName].hasExitCallback then [Exit(stateName)] else [])
               + (if m.states[m.currentState].hasEnterCallback then [Enter(m.currentState)] else [])
  {
  }

  /** A commit trace is determined by which callbacks exist: the exit event,
      if any, then the enter event, if any. */
  lemma TraceOfCommit<T>(trace: seq<Event<T>>, from: T, hasExit: bool, to: T, hasEnter: bool)
    requires CommitTrace(trace, from, hasExit, to, hasEnter)
    ensures trace == (if hasExit then [Exit(from)] else []) + (if hasEnter then [Enter(to)] else [])
  {
  }
}
