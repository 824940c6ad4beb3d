/** A caller's sequence of requests to one machine, and the invariants every
    such sequence keeps: the registry is fixed, a registered current state
    stays registered, the last state is always the default value or a
    registered restorable state, and a leaked guard blocks every transition
    until SetInitialState is called again. */
module Runs {
  import opened Descriptors
  import opened Machine

  datatype Request<T> = SetInitial(stateName: T) | Change(stateName: T) | ReturnToLast

  function Apply<T>(m: StateMachine<T>, request: Request<T>): Step<T>
  {
    match request
    case SetInitial(s) => SetInitialState(m, s)
    case Change(s) => ChangeState(m, s)
    case ReturnToLast => ReturnToLastState(m)
  }

  datatype RunResult<T> = RunResult(machine: StateMachine<T>, outcomes: seq<Outcome>, trace: seq<Event<T>>)

  /** The requests applied one after another; the outcomes are in request order
      and the trace is the concatenation of the calls' traces. */
  function Run<T>(m: StateMachine<T>, requests: seq<Request<T>>): (r: RunResult<T>)
    ensures |r.outcomes| == |requests|
    ensures r.machine.states == m.states
    decreases |requests|
  {
    if requests == [] then RunResult(m, [], [])
    else
      var first := Apply(m, requests[0]);
      var rest := Run(first.machine, requests[1..]);
      RunResult(rest.machine, [first.outcome] + rest.outcomes, first.trace + rest.trace)
  }

  /** The last state is the identifier type's default value, or a registered
      state that was restorable when the machine left it. */
  ghost predicate LastRecorded<T>(m: StateMachine<T>, dflt: T)
  {
    m.lastState == dflt || (m.lastState in m.states && m.states[m.lastState].canBeRestored)
  }

  lemma ApplyKeepsInvariants<T>(m: StateMachine<T>, dflt: T, request: Request<T>)
    ensures LastRecorded(m, dflt) ==> LastRecorded(Apply(m, request).machine, dflt)
    ensures m.currentState in m.states ==> Apply(m, request).machine.currentState in m.states
  {
  }

  lemma {:induction false} RunKeepsInvariants<T>(m: StateMachine<T>, dflt: T, requests: seq<Request<T>>)
    requires LastRecorded(m, dflt) && m.currentState in m.states
    ensures LastRecorded(Run(m, requests).machine, dflt)
    ensures Run(m, requests).machine.currentState in m.states
    ensures forall i :: 0 <= i < |requests| ==> Run(m, requests).outcomes[i] != CurrentNotRegistered
    decreases |requests|
  {
    if requests != [] {
      var first := Apply(m, requests[0]);
      ApplyKeepsInvariants(m, dflt, requests[0]);
      RunKeepsInvariants(first.machine, dflt, requests[1..]);
    }
  }

  /** From construction, once the machine has an initial registered state, no
      later call fails on the current-state lookup, and ReturnToLastState
      never names an unregistered state unless the last state is still the
      default value. */
  lemma ConstructedMachineStaysConsistent<T>(
    stateList: seq<StateData<T>>, dflt: T, initial: T, requests: seq<Request<T>>)
    requires initial in Names(stateList)
    ensures var m := Run(SetInitialState(Construct(stateList, dflt), initial).machine, requests).machine;
            && m.currentState in m.states
            && (m.lastState != dflt ==> ReturnToLastState(m).outcome != UnknownTarget)
    ensures forall i :: 0 <= i < |requests| ==>
              Run(SetInitialState(Construct(stateList, dflt), initial).machine, requests).outcomes[i]
              != CurrentNotRegistered
  {
    var start := SetInitialState(Construct(stateList, dflt), initial).machine;
    RunKeepsInvariants(start, dflt, requests);
  }

  /** While the guard is set, every ChangeState and ReturnToLastState fails
      fatally and changes nothing, until a SetInitialState clears the guard. */
  lemma {:induction false} LeakedGuardBlocksUntilSetInitial<T>(m: StateMachine<T>, requests: seq<Request<T>>)
    requires m.transitioning && m.currentState in m.states
    requires forall i :: 0 <= i < |requests| ==> !requests[i].SetInitial?
    ensures Run(m, requests) == RunResult(m, seq(|requests|, _ => AlreadyTransitioning), [])
    decreases |requests|
  {
    if requests != [] {
      LeakedGuardBlocksUntilSetInitial(m, requests[1..]);
      assert [AlreadyTransitioning] + seq(|requests| - 1, _ => AlreadyTransitioning)
             == seq(|requests|, _ => AlreadyTransitioning);
    }
  }
}
