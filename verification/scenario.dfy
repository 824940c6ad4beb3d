/** A concrete machine with three phases, each restorable: Idle may go to
    Running, Running to Paused or Idle, Paused to Running. `Idle` is the first
    member of the enumeration, so it is also the C# default value that
    `currentState` and `lastState` hold before they are assigned. */
module Scenario {
  import opened Descriptors
  import opened Machine

  datatype Phase = Idle | Running | Paused

  function PhaseStates(): seq<StateData<Phase>>
  {
    [ NewStateData(Idle, allowedTransitions := Some([Running])),
      NewStateData(Running, allowedTransitions := Some([Paused, Idle])),
      NewStateData(Paused, allowedTransitions := Some([Running])) ]
  }

  function Fresh(): StateMachine<Phase>
  {
    Construct(PhaseStates(), Idle)
  }

  lemma FreshRegistry()
    ensures Fresh().states.Keys == {Idle, Running, Paused}
    ensures Fresh().states[Idle].allowedTransitions == Some([Running])
    ensures Fresh().states[Running].allowedTransitions == Some([Paused, Idle])
    ensures Fresh().states[Paused].allowedTransitions == Some([Running])
    ensures forall p :: p in Fresh().states ==> Fresh().states[p].canBeRestored
  {
    var l := PhaseStates();
    assert [l[0]][..0] == [];
    assert Register([l[0]]) == map[Idle := l[0]];
    assert [l[0], l[1]][..1] == [l[0]];
    assert Register([l[0], l[1]]) == map[Idle := l[0], Running := l[1]];
    assert l[..2] == [l[0], l[1]];
    assert Register(l) == map[Idle := l[0], Running := l[1], Paused := l[2]];
  }

  /** Idle -> Running -> Paused commit and record the state left; Paused ->
      Idle is rejected by Paused's allow-list and the machine stays in Paused,
      but with the guard still set, so the next request fails fatally. */
  lemma PauseScenario()
    ensures var s1 := SetInitialState(Fresh(), Idle);
            var s2 := ChangeState(s1.machine, Running);
            var s3 := ChangeState(s2.machine, Paused);
            var s4 := ChangeState(s3.machine, Idle);
            var s5 := ChangeState(s4.machine, Running);
            && s1.machine.currentState == Idle
            && s2.outcome == Committed && s2.machine.currentState == Running && s2.machine.lastState == Idle
            && s3.outcome == Committed && s3.machine.currentState == Paused && s3.machine.lastState == Running
            && s4.outcome == NotAllowed && s4.machine.currentState == Paused && s4.machine.lastState == Running
            && s5.outcome == AlreadyTransitioning && s5.machine == s4.machine
  {
    FreshRegistry();
  }

  /** Before any restorable state has been left, ReturnToLastState goes to
      the default value Idle, a state that was never entered. */
  lemma ReturnBeforeAnyRestorableState()
    ensures var s1 := SetInitialState(Fresh(), Running);
            var s2 := ReturnToLastState(s1.machine);
            && s1.machine.lastState == Idle
            && s2.outcome == Committed && s2.machine.currentState == Idle && s2.machine.lastState == Running
  {
    FreshRegistry();
  }

  /** ChangeState works before SetInitialState when the default value is a
      registered state: Idle is left although it was never entered. */
  lemma ChangeBeforeInitialState()
    ensures ChangeState(Fresh(), Running).outcome == Committed
    ensures ChangeState(Fresh(), Running).machine.currentState == Running
    ensures ChangeState(Fresh(), Running).machine.lastState == Idle
  {
    FreshRegistry();
  }
}
