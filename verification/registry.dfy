/** What the constructor's registry holds: exactly the names in the list, each
    filed with the FIRST descriptor that carries it; later descriptors with a
    name already seen are dropped. */
module Registry {
  import opened Descriptors
  import opened Machine

  /** `stateList[i]` is the first descriptor in the list with its name. */
  ghost predicate FirstWithName<T>(stateList: seq<StateData<T>>, i: int)
  {
    && 0 <= i < |stateList|
    && forall j :: 0 <= j < i ==> stateList[j].stateName != stateList[i].stateName
  }

  lemma {:induction false} FirstRegistrationWins<T>(stateList: seq<StateData<T>>, i: int)
    requires FirstWithName(stateList, i)
    ensures stateList[i].stateName in Register(stateList)
    ensures Register(stateList)[stateList[i].stateName] == stateList[i]
  {
    var n := |stateList| - 1;
    var prefix := stateList[..n];
    assert Register(stateList) == AddState(Register(prefix), stateList[n]);
    if i < n {
      assert prefix[i] == stateList[i];
      assert FirstWithName(prefix, i) by {
        forall j | 0 <= j < i
          ensures prefix[j].stateName != prefix[i].stateName
        {
          assert prefix[j] == stateList[j];
        }
      }
      FirstRegistrationWins(prefix, i);
    } else {
      forall j | 0 <= j < |prefix|
        ensures prefix[j].stateName != stateList[n].stateName
      {
        assert prefix[j] == stateList[j];
      }
    }
  }

  /** Every registered name has a first descriptor in the list. */
  lemma {:induction false} FirstIndexExists<T>(stateList: seq<StateData<T>>, name: T)
    requires name in Names(stateList)
    ensures exists i :: FirstWithName(stateList, i) && stateList[i].stateName == name
  {
    var n := |stateList| - 1;
    var prefix := stateList[..n];
    if name in Names(prefix) {
      FirstIndexExists(prefix, name);
      var i :| FirstWithName(prefix, i) && prefix[i].stateName == name;
      assert stateList[i] == prefix[i];
      assert FirstWithName(stateList, i) by {
        forall j | 0 <= j < i
          ensures stateList[j].stateName != stateList[i].stateName
        {
          assert stateList[j] == prefix[j];
        }
      }
    } else {
      forall j | 0 <= j < n
        ensures stateList[j].stateName != name
      {
        assert stateList[j] == prefix[j];
      }
      assert stateList[n].stateName == name;
      assert FirstWithName(stateList, n);
    }
  }

  /** The registry built from a list: its keys are the list's names, and the
      descriptor under each key is the first one in the list with that name. */
  lemma RegistryIsFirstOccurrence<T>(stateList: seq<StateData<T>>, name: T)
    ensures name in Register(stateList) <==> exists i :: 0 <= i < |stateList| && stateList[i].stateName == name
    ensures name in Register(stateList) ==>
              exists i :: FirstWithName(stateList, i) && stateList[i].stateName == name
                          && Register(stateList)[name] == stateList[i]
  {
    if name in Register(stateList) {
      FirstIndexExists(stateList, name);
      var i :| FirstWithName(stateList, i) && stateList[i].stateName == name;
      FirstRegistrationWins(stateList, i);
    }
  }

  /** A later descriptor that repeats an earlier name is not what the registry
      holds for that name, unless it equals the first one. */
  lemma DuplicateDropped<T>(stateList: seq<StateData<T>>, i: int, j: int)
    requires FirstWithName(stateList, i)
    requires i < j < |stateList| && stateList[j].stateName == stateList[i].stateName
    requires stateList[j] != stateList[i]
    ensures Register(stateList)[stateList[j].stateName] != stateList[j]
  {
    FirstRegistrationWins(stateList, i);
  }
}
