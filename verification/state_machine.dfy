/** The state machine of StateMachine.cs: a registry of descriptors built once
    at construction, the current and last state identifiers, and the boolean
    guard that rejects a transition requested while another one is running.

    Every operation is a pure step from a machine to a `Step`: the machine
    after the call, an outcome tag saying which branch of the source was
    taken, and the trace of callbacks that ran, in order. A C# exception
    (the failed dictionary lookup of the current state, the re-entrancy throw)
    is a fatal outcome whose machine is the one the call started from. */
module Machine {
  import opened Descriptors

  /** A callback invocation: the enter or exit callback of the named state. */
  datatype Event<T> = Enter(state: T) | Exit(state: T)

  datatype Outcome =
    | CurrentNotRegistered  // the lookup of the current state's descriptor throws
    | AlreadyTransitioning  // the re-entrancy guard throws
    | AlreadyInState        // the target is the current state: early return
    | UnknownTarget         // the target is not registered: logged
    | NotAllowed            // the current allow-list lacks the target: logged
    | Committed             // the transition took place
  {
    /** The outcomes the source signals with an exception. */
    predicate IsFatal()
    {
      CurrentNotRegistered? || AlreadyTransitioning?
    }
  }

  /** `currentState` and `lastState` start as the identifier type's default
      value, which the model takes as a parameter of `Construct`. */
  datatype StateMachine<T> = StateMachine(
    states: map<T, StateData<T>>,
    currentState: T,
    lastState: T,
    transitioning: bool)

  datatype Step<T> = Step(machine: StateMachine<T>, outcome: Outcome, trace: seq<Event<T>>)

  /** The identifiers named by a list of descriptors. */
  ghost function Names<T>(stateList: seq<StateData<T>>): set<T>
  {
    set i | 0 <= i < |stateList| :: stateList[i].stateName
  }

  /** Every descriptor is filed under its own name. */
  ghost predicate WellFiled<T>(states: map<T, StateData<T>>)
  {
    forall k :: k in states ==> states[k].stateName == k
  }

  /** AddState: a descriptor whose name is already registered is dropped
      (and logged); otherwise it is filed under its name. */
  function AddState<T>(states: map<T, StateData<T>>, stateData: StateData<T>): (r: map<T, StateData<T>>)
    ensures r.Keys == states.Keys + {stateData.stateName}
    ensures forall k :: k in states ==> r[k] == states[k]
    ensures stateData.stateName !in states ==> r[stateData.stateName] == stateData
  {
    if stateData.stateName in states then states else states[stateData.stateName := stateData]
  }

  /** The registry the constructor builds by adding the descriptors one by one,
      in list order. */
  function Register<T>(stateList: seq<StateData<T>>): (r: map<T, StateData<T>>)
    ensures r.Keys == Names(stateList)
    ensures WellFiled(r)
    decreases |stateList|
  {
    if stateList == [] then map[]
    else
      var prefix := stateList[..|stateList| - 1];
      assert Names(stateList) == Names(prefix) + {stateList[|stateList| - 1].stateName} by {
        assert forall i :: 0 <= i < |prefix| ==> prefix[i] == stateList[i];
      }
      AddState(Register(prefix), stateList[|stateList| - 1])
  }

  /** The constructor. `dflt` is `default(StateEnum)`, the value C# gives the
      current and last state fields before anything assigns them. */
  function Construct<T>(stateList: seq<StateData<T>>, dflt: T): (m: StateMachine<T>)
    ensures m.states.Keys == Names(stateList) && WellFiled(m.states)
    ensures m.currentState == dflt && m.lastState == dflt
    ensures !m.transitioning
  {
    StateMachine(Register(stateList), dflt, dflt, false)
  }

  /** The events of a committed transition from `from` to `to`: the exit
      callback of `from` if it has one, the enter callback of `to` if it has
      one, each present callback once, nothing else, and every exit before
      every enter. */
  ghost predicate CommitTrace<T>(trace: seq<Event<T>>, from: T, hasExit: bool, to: T, hasEnter: bool)
  {
    && (forall i :: 0 <= i < |trace| ==> trace[i] == Exit(from) || trace[i] == Enter(to))
    && (Exit(from) in trace <==> hasExit)
    && (Enter(to) in trace <==> hasEnter)
    && |trace| == (if hasExit then 1 else 0) + (if hasEnter then 1 else 0)
    && (forall i, j :: 0 <= i < |trace| && 0 <= j < |trace| && trace[i].Exit? && trace[j].Enter? ==> i < j)
  }

  /** The enter callback of `stateName`, if its descriptor has one. */
  function EnterEvents<T>(states: map<T, StateData<T>>, stateName: T): seq<Event<T>>
    requires stateName in states
  {
    if states[stateName].hasEnterCallback then [Enter(stateName)] else []
  }

  /** SetInitialState: no guard check and no allow-list; a registered state
      becomes current and its enter callback runs, an unregistered one is
      ignored without a log. The guard is cleared either way. */
  function SetInitialState<T>(m: StateMachine<T>, stateName: T): (r: Step<T>)
    ensures r.machine.states == m.states && r.machine.lastState == m.lastState
    ensures !r.machine.transitioning
    ensures stateName in m.states ==>
              r.machine.currentState == stateName && r.outcome == Committed
              && CommitTrace(r.trace, stateName, false, stateName, m.states[stateName].hasEnterCallback)
    ensures stateName !in m.states ==>
              r.machine.currentState == m.currentState && r.outcome == UnknownTarget && r.trace == []
  {
    if stateName in m.states then
      Step(m.(currentState := stateName, transitioning := false), Committed, EnterEvents(m.states, stateName))
    else
      Step(m.(transitioning := false), UnknownTarget, [])
  }

  /** The effect a commit promises: the target is current, the guard is clear,
      the state left is recorded as last exactly when it is restorable, and the
      trace is its exit callback followed by the target's enter callback. */
  ghost predicate CommitEffect<T>(m: StateMachine<T>, stateName: T, r: Step<T>)
    requires m.currentState in m.states && stateName in m.states
  {
    var from := m.states[m.currentState];
    && r.machine.currentState == stateName
    && !r.machine.transitioning
    && (from.canBeRestored ==> r.machine.lastState == m.currentState)
    && (!from.canBeRestored ==> r.machine.lastState == m.lastState)
    && CommitTrace(r.trace, m.currentState, from.hasExitCallback, stateName, m.states[stateName].hasEnterCallback)
  }

  /** ChangeState, branch by branch as in the source: look up the current
      descriptor, check the guard, set the guard, return early on a
      self-transition, check that the target exists, check the allow-list,
      then commit and clear the guard. The early returns for a
      self-transition and for a rejected target leave the guard set. */
  function ChangeState<T>(m: StateMachine<T>, stateName: T): (r: Step<T>)
    // the registry is never modified
    ensures r.machine.states == m.states
    // an unregistered current state is reported before the guard is consulted
    ensures r.outcome == CurrentNotRegistered <==> m.currentState !in m.states
    ensures r.outcome == AlreadyTransitioning <==> m.currentState in m.states && m.transitioning
    ensures r.outcome.IsFatal() ==> r.machine == m && r.trace == []
    // nothing but a commit moves the current or last state or runs a callback
    ensures !r.outcome.Committed? ==>
              r.machine.currentState == m.currentState && r.machine.lastState == m.lastState && r.trace == []
    ensures r.outcome == Committed <==>
              && m.currentState in m.states && !m.transitioning
              && stateName != m.currentState && stateName in m.states
              && Permits(m.states[m.currentState], stateName)
    ensures r.outcome == Committed ==> CommitEffect(m, stateName, r)
    // which of the soft failures is reported, once the guard is passed
    ensures r.outcome == AlreadyInState <==>
              m.currentState in m.states && !m.transitioning && stateName == m.currentState
    ensures r.outcome == UnknownTarget <==>
              m.currentState in m.states && !m.transitioning
              && stateName != m.currentState && stateName !in m.states
    ensures r.outcome == NotAllowed <==>
              && m.currentState in m.states && !m.transitioning
              && stateName != m.currentState && stateName in m.states
              && !Permits(m.states[m.currentState], stateName)
    // once the guard is passed, only a commit or an unknown target clears it again
    ensures !r.outcome.IsFatal() ==> (r.machine.transitioning <==> r.outcome in {AlreadyInState, NotAllowed})
  {
    if m.currentState !in m.states then Step(m, CurrentNotRegistered, [])
    else
      var current := m.states[m.currentState];
      if m.transitioning then Step(m, AlreadyTransitioning, [])
      else
        var locked := m.(transitioning := true);
        if m.currentState == stateName then Step(locked, AlreadyInState, [])
        else if stateName !in m.states then Step(locked.(transitioning := false), UnknownTarget, [])
        else if !Permits(current, stateName) then Step(locked, NotAllowed, [])
        else
          var last := if current.canBeRestored then m.currentState else m.lastState;
          var exits := if current.hasExitCallback then [Exit(m.currentState)] else [];
          Step(StateMachine(m.states, stateName, last, false), Committed, exits + EnterEvents(m.states, stateName))
  }

  /** ReturnToLastState: a transition to whatever `lastState` holds, with every
      check of ChangeState, including the default value before any restorable
      state has been left. */
  function ReturnToLastState<T>(m: StateMachine<T>): (r: Step<T>)
    ensures r == ChangeState(m, m.lastState)
  {
    ChangeState(m, m.lastState)
  }
}
