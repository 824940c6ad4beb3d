# sharp-state: a Dafny model of a generic finite-state machine

sharp-state is a small C# state machine, generic over an enumeration of state
identifiers. Each state has a `StateData` descriptor. The descriptor holds the
state's name, optional enter and exit callbacks, an optional allow-list of
target states and a `canBeRestored` flag. A `StateMachine` is built from a
list of descriptors. It keeps the current state, the last restorable state it
left, and a `_transitioning` guard. Its operations are `SetInitialState`,
`ChangeState` and `ReturnToLastState`.

The model is functional:

- `Descriptors` (`state_data.dfy`): the `StateData` datatype and its
  constructor with the source's default arguments. Callbacks become presence
  flags. A `null` allow-list becomes `None`.
- `Machine` (`state_machine.dfy`): the machine datatype, the registry build
  and the three operations. Each operation is a pure function returning a
  `Step`: the machine after the call, an outcome tag naming the branch taken,
  and the trace of `Exit(s)` / `Enter(t)` callback events in the order they
  run. The identifier type is a type parameter. C#'s `default(StateEnum)` is
  the parameter `dflt` of `Construct`.
- `Stepwise` (`stepwise.dfy`): `ChangeState` written statement by statement
  as in the source, including the allow-list loop with its `break`. It is
  proved equal to the function in `Machine`.
- `Registry`, `Transitions`, `Runs`, `Scenario`: lemmas about the
  constructor's registry, about single calls, about arbitrary sequences of
  calls, and about a concrete three-state machine.

Exceptions are fatal outcomes. For the non-null identifiers the model admits
(see "## Left out"), `ChangeState` can throw in two ways: the dictionary
lookup of the current state fails, or the re-entrancy guard fires.
In both cases nothing has been assigned when the exception is raised, so the
model returns the starting machine with the tag `CurrentNotRegistered` or
`AlreadyTransitioning`.

### Sharp edges of the code, kept in the model

- A self-transition leaves the guard set. `ChangeState` sets `_transitioning`
  at StateMachine.cs:90 and returns at line 93 without clearing it, so every
  later `ChangeState` throws until `SetInitialState` clears the guard
  (`Transitions.SelfTransitionLeavesGuardSet`).
- A rejection by the allow-list also leaves the guard set: the return at
  line 114 comes before the unlock at line 144
  (`Transitions.RejectionLeavesGuardSet`).
- The current state's descriptor is looked up at line 81, before the guard
  check at line 84, so an unregistered current state throws even when the
  guard is set.
- `SetInitialState` with an unregistered identifier leaves the current state
  at whatever value it had, which on a fresh machine is `default(StateEnum)`.
  That default may be a registered state, so `ChangeState` works before
  `SetInitialState` (`Scenario.ChangeBeforeInitialState`), and
  `ReturnToLastState` before any restorable state was left goes to that
  default (`Scenario.ReturnBeforeAnyRestorableState`).

## Model

| member | source | states |
|---|---|---|
| Descriptors.NewStateData | StateData.cs:13-20 | the descriptor keeps the name, both callback flags, the allow-list and the restorable flag exactly as passed |
| Descriptors.ConstructorDefaults | StateData.cs:13-19 | with the optional arguments omitted there are no callbacks, the allow-list is absent rather than empty, and the state is restorable |
| Descriptors.AllowListStoredAsGiven | StateData.cs:13-18 | a given allow-list is stored unchanged and admits exactly its members; an absent list admits every target and an empty one admits none |
| Machine.AddState | StateMachine.cs:41-51 | adding a descriptor whose name is registered changes nothing; otherwise the name is added and maps to that descriptor; existing entries never change |
| Machine.Register | StateMachine.cs:27-33 | the registry built from the list has exactly the list's names as keys, and each descriptor is filed under its own name |
| Machine.Construct | StateMachine.cs:16-33 | a new machine has that registry, the default value as current and last state, and a clear guard |
| Machine.SetInitialState | StateMachine.cs:54-75 | a registered state becomes current and only its enter callback runs, with no exit; an unregistered one leaves the current state as it was with no trace; the last state and registry are untouched and the guard ends clear in both cases (identifiers are non-null) |
| Machine.ChangeState | StateMachine.cs:77-145 | the registry never changes; each outcome is reported exactly when its condition holds: an unregistered current state is fatal before the guard is consulted, a set guard is fatal, then self-transition, unknown target, allow-list rejection and commit; fatal calls leave the machine unchanged; only a commit moves current or last state or runs callbacks; it commits exactly when the target differs, is registered and the allow-list admits it; a commit records the old state as last iff restorable, makes the target current, clears the guard, and runs exit strictly before enter; self-transition and allow-list rejection leave the guard set |
| Machine.ReturnToLastState | StateMachine.cs:147-150 | returning is ChangeState applied to the stored last state, with all of its checks |
| Stepwise.ContainsTarget | StateMachine.cs:101-109 | the allow-list search loop reports true exactly when the target occurs in the list |
| Stepwise.ChangeStateInOrder | StateMachine.cs:77-145 | the source's statement sequence for ChangeState yields the same machine, outcome and callback trace as the branch-wise definition |
| Registry.FirstRegistrationWins | StateMachine.cs:41-51 | the first descriptor in the list with a given name is the one registered under that name |
| Registry.FirstIndexExists | StateMachine.cs:27-33 | every name that occurs in the list has a first occurrence |
| Registry.RegistryIsFirstOccurrence | StateMachine.cs:27-51 | a name is registered iff it occurs in the list, and then it maps to its first occurrence |
| Registry.DuplicateDropped | StateMachine.cs:44-50 | a later descriptor that repeats an earlier name and differs from the first is not the registered one |
| Transitions.SetInitialStateReenters | StateMachine.cs:54-75 | calling SetInitialState again with the same state gives the same machine and runs the enter callback again |
| Transitions.UnknownTargetIsInert | StateMachine.cs:96-144 | an unregistered target leaves the whole machine unchanged, guard included, with no callbacks |
| Transitions.GuardIsFatal | StateMachine.cs:84-87 | with the guard set and the current state registered, every ChangeState fails fatally and changes nothing |
| Transitions.SelfTransitionLeavesGuardSet | StateMachine.cs:90-93 | a self-transition runs no callback and keeps current and last state, but leaves the guard set, so the next ChangeState is fatal whatever its target |
| Transitions.RejectionLeavesGuardSet | StateMachine.cs:99-116 | a target missing from a present allow-list changes neither current nor last state and runs no callback, but leaves the guard set, so the next ChangeState is fatal |
| Transitions.SetInitialStateClearsLeakedGuard | StateMachine.cs:54-75 | SetInitialState ignores and clears a leaked guard, after which an admitted transition commits again |
| Transitions.EmptyAllowListIsTerminal | StateMachine.cs:99-116 | from a state with an empty allow-list no ChangeState commits and the current state stays |
| Transitions.AbsentAllowListIsOpen | StateMachine.cs:99-138 | from a ready state without an allow-list every other registered target commits |
| Transitions.LastStateSkipsUnrestorable | StateMachine.cs:119-122 | leaving restorable A for B records A; leaving non-restorable B for C keeps A as the last state |
| Transitions.ReturnUndoesRestorableTransition | StateMachine.cs:147-150 | after leaving a restorable state for a target whose allow-list admits the way back, returning commits back to it with the target's exit then the origin's enter, and records the target as last if restorable |
| Transitions.TraceOfCommit | StateMachine.cs:125-138 | a commit's trace is exactly the exit event if the old state has an exit callback, followed by the enter event if the target has an enter callback |
| Runs.Run | StateMachine.cs:54-150 | any sequence of calls yields one outcome per call and leaves the registry as constructed |
| Runs.ApplyKeepsInvariants | StateMachine.cs:54-150 | each call keeps a registered current state registered, and keeps the last state either the default value or a registered restorable state |
| Runs.RunKeepsInvariants | StateMachine.cs:54-150 | the same two invariants hold after any sequence of calls, and no call in it fails on the current-state lookup |
| Runs.ConstructedMachineStaysConsistent | StateMachine.cs:27-150 | after construction and SetInitialState with a listed state, no later call fails on the current-state lookup, and ReturnToLastState never hits an unregistered target once the last state is not the default value |
| Runs.LeakedGuardBlocksUntilSetInitial | StateMachine.cs:84-93 | while the guard is set, every ChangeState and ReturnToLastState in a sequence fails fatally and the machine stays as it is until a SetInitialState |
| Scenario.FreshRegistry | StateMachine.cs:27-51 | the three-phase machine registers Idle, Running and Paused with their allow-lists, all restorable |
| Scenario.PauseScenario | StateMachine.cs:77-145 | Idle to Running to Paused commits and records the state left each time; Paused to Idle is rejected and the machine stays in Paused; the next request fails fatally because the guard leaked |
| Scenario.ReturnBeforeAnyRestorableState | StateMachine.cs:147-150 | before any restorable state has been left, returning goes to the default value Idle, a state that was never entered |
| Scenario.ChangeBeforeInitialState | StateMachine.cs:16-17 | when the default value is registered, ChangeState before SetInitialState commits and records the default state as last |

## Left out

- Diagnostic logging through `Debug.Log` and the `ToString` message text (StateMachine.cs:49, 56, 79, 113, 140). The outcome tag says which branch was taken. SetInitialState returns `UnknownTarget` for an unregistered state, although the source writes no log line there.
- Callback bodies. A callback is opaque code. The model keeps only whether each one is present and where it runs in the trace. Callbacks that mutate the machine or throw are not modelled.
- Real re-entrancy, where a callback calls back into the machine. The guard is explicit machine state, so a call with the guard set is a fatal outcome (`Transitions.GuardIsFatal`), but no call happens from inside a callback.
- Threads. The guard is not a lock, and the model is sequential.
- The stale `initialStateIndex` parameter in the constructor's documentation comment (StateMachine.cs:25). It matches no code.
- Hashing in `Dictionary`. The registry is a Dafny `map`.
- The `currentState` property getter (StateMachine.cs:8-14). It is the field `currentState` of the machine datatype.
- The C# default value of the enumeration is not computed. It is the parameter `dflt` of `Construct`.
- Machine.ReturnToLastState: its contract is its definition in terms of ChangeState. What returning achieves is stated in `Transitions.ReturnUndoesRestorableTransition` and `Scenario.ReturnBeforeAnyRestorableState`.
- Mutable descriptors. `StateData`'s fields are public and writable (StateData.cs:7-11), and the allow-list array is stored by reference (StateData.cs:18) and read at transition time (StateMachine.cs:99-104). A caller can therefore change a registered descriptor, even its `stateName`, after construction. The model takes each descriptor as an immutable value, so `WellFiled` (every descriptor filed under its own name) holds only for descriptors that are not changed after registration.
- Registry access from subclasses. `AddState` and the fields are `protected` (StateMachine.cs:16-19, 41), so a subclass can add states or rewrite the current state after construction. The model builds the registry only in `Construct`.
- Null descriptors. A `null` entry in the constructor's list throws at StateMachine.cs:44. A Dafny sequence of datatype values has no null entries.
- Null identifiers. `StateEnum` is unconstrained, so a reference or nullable identifier type admits `null`, and `default(StateEnum)` is then `null`. `Dictionary` throws on a `null` key, so in the source a descriptor named `null` aborts construction at StateMachine.cs:44, `SetInitialState(null)` throws at line 61 after setting the guard at line 58, and `ChangeState(null)` (also `ReturnToLastState` while the last state is still a `null` default) throws at line 96 after setting the guard at line 90; in the last two cases the guard stays set. The model takes identifiers to be non-null values such as enumeration members, for which these throws cannot happen; for a `null` it would report `UnknownTarget` with the guard cleared instead.
