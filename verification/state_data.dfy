/** The descriptor of one state of the machine (class StateData in
    StateData.cs): the state's identifier, its optional enter and exit
    callbacks, its optional allow-list of transition targets, and whether the
    machine remembers it as the last state when it is left.

    The C# class has public mutable fields and keeps the caller's allow-list
    array by reference; the model takes each descriptor as a value fixed at
    the moment it is registered.

    Callback bodies are opaque delegates, so a descriptor keeps only whether
    each callback is present; where a present callback runs is recorded by the
    machine as an event in a trace. */
module Descriptors {

  /** A value that may be absent; `None` plays the part of a C# `null`. */
  datatype Option<T> = None | Some(value: T)

  datatype StateData<T> = StateData(
    stateName: T,
    hasEnterCallback: bool,
    hasExitCallback: bool,
    // None: every registered target is allowed; Some([]): no target is allowed
    allowedTransitions: Option<seq<T>>,
    canBeRestored: bool)

  /** The StateData constructor, with the source's default arguments: no enter
      callback, no exit callback, no allow-list, and restorable. */
  function NewStateData<T>(
    name: T,
    enterStateCallback: bool := false,
    exitStateCallback: bool := false,
    allowedTransitions: Option<seq<T>> := None,
    restorable: bool := true): (d: StateData<T>)
    ensures d.stateName == name
    ensures d.hasEnterCallback == enterStateCallback
    ensures d.hasExitCallback == exitStateCallback
    ensures d.allowedTransitions == allowedTransitions
    ensures d.canBeRestored == restorable
  {
    StateData(name, enterStateCallback, exitStateCallback, allowedTransitions, restorable)
  }

  /** Whether the allow-list of `d` lets the machine move to `target`: an absent
      list lets every target through, a present one only the targets it lists. */
  predicate Permits<T(==)>(d: StateData<T>, target: T)
  {
    match d.allowedTransitions
    case None => true
    case Some(targets) => target in targets
  }

  /** Omitted arguments give a descriptor with no callbacks, no allow-list
      (not an empty one) and the restorable flag set. */
  lemma ConstructorDefaults<T>(name: T)
    ensures NewStateData(name).stateName == name
    ensures !NewStateData(name).hasEnterCallback && !NewStateData(name).hasExitCallback
    ensures NewStateData(name).allowedTransitions == None
    ensures NewStateData(name).canBeRestored
  {
  }

  /** The allow-list is kept as given: same targets, same order, and an absent
      list and an empty list stay distinguishable. */
  lemma AllowListStoredAsGiven<T>(name: T, targets: seq<T>, target: T)
    ensures NewStateData(name, allowedTransitions := Some(targets)).allowedTransitions.value == targets
    ensures Permits(NewStateData(name, allowedTransitions := Some(targets)), target) <==> target in targets
    ensures Permits(NewStateData(name), target)
    ensures !Permits(NewStateData(name, allowedTransitions := Some([])), target)
  {
  }
}
