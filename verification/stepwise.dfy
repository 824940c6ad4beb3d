/** ChangeState as the source writes it: one statement after another on a
    mutable copy of the machine, with the allow-list searched by the source's
    loop, and the callback trace appended as each callback would run. It is
    proved to agree with the branch-by-branch function `Machine.ChangeState`. */
module Stepwise {
  import opened Descriptors
  import opened Machine

  /** The allow-list search: walk the targets in order and stop at the first
      one equal to `target`. */
  method ContainsTarget<T(==)>(targets: seq<T>, target: T) returns (transitionAllowed: bool)
    ensures transitionAllowed <==> target in targets
  {
    transitionAllowed := false;
    var i := 0;
    while i < |targets|
      invariant 0 <= i <= |targets|
      invariant !transitionAllowed
      invariant forall j :: 0 <= j < i ==> targets[j] != target
    {
      if targets[i] == target {
        transitionAllowed := true;
        break;
      }
      i := i + 1;
    }
  }

  method ChangeStateInOrder<T(==)>(m: StateMachine<T>, stateName: T) returns (r: Step<T>)
    ensures r == ChangeState(m, stateName)
  {
    if m.currentState !in m.states {
      return Step(m, CurrentNotRegistered, []);
    }
    var current := m.states[m.currentState];
    if m.transitioning {
      return Step(m, AlreadyTransitioning, []);
    }
    var machine := m.(transitioning := true);
    if machine.currentState == stateName {
      return Step(machine, AlreadyInState, []);
    }
    if stateName in machine.states {
      if current.allowedTransitions.Some? {
        var transitionAllowed := ContainsTarget(current.allowedTransitions.value, stateName);
        if !transitionAllowed {
          return Step(machine, NotAllowed, []);
        }
      }
      if current.canBeRestored {
        machine := machine.(lastState := machine.currentState);
      }
      var trace: seq<Event<T>> := [];
      if current.hasExitCallback {
        trace := trace + [Exit(machine.currentState)];
      }
      machine := machine.(currentState := stateName);
      if machine.states[stateName].hasEnterCallback {
        trace := trace + [Enter(stateName)];
      }
      machine := machine.(transitioning := false);
      r := Step(machine, Committed, trace);
    } else {
      machine := machine.(transitioning := false);
      r := Step(machine, UnknownTarget, []);
    }
  }
}
