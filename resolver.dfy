/**
 * Path repair (registry/src/main.rs:282-374): find the deepest existing ancestor of a key
 * path, create the missing keys below it in order, and remove a key with its subtree.
 * Each operation is specified by a function over a `Hive` value and implemented by a method
 * over the `Store` object.
 */
module Resolver {
  import opened Wrappers
  import opened Exits
  import opened Paths
  import opened KeyStore

  /**
   * The loop of get_valid_parent_key_and_subkeys from the state (`current`, `subkeys`):
   * open `current`; if it is not found, move to its parent and put its last segment in
   * front of `subkeys`.
   */
  function Walk(h: Hive, f: Faults, current: Path, subkeys: seq<string>): (r: Result<(Path, seq<string>), ExitCode>)
    ensures r.Err? ==> r.error == InvalidInput || r.error == RegistryError
    decreases |current|
  {
    match OpenKey(h, f, current)
    case Ok(_) => Ok((current, subkeys))
    case Err(OtherError) => Err(RegistryError)
    case Err(ObjectNameNotFound) =>
      match GetParentKeyPath(current)
      case Err(e) => Err(e)
      case Ok(parent) => Walk(h, f, parent, [SubkeyName(current, parent)] + subkeys)
  }

  /** get_valid_parent_key_and_subkeys: the deepest existing ancestor and the missing segments. */
  function ValidParentAndSubkeys(h: Hive, f: Faults, keyPath: Path): (r: Result<(Path, seq<string>), ExitCode>)
    ensures r.Err? ==> r.error == InvalidInput || r.error == RegistryError
  {
    match GetParentKeyPath(keyPath)
    case Err(e) => Err(e)
    case Ok(parent) => Walk(h, f, parent, [SubkeyName(keyPath, parent)])
  }

  /** Splitting a sequence known to continue with `[name] + rest` after its first `m` elements. */
  lemma SplitAfter(segs: seq<string>, m: nat, name: string, rest: seq<string>)
    requires m < |segs| && segs == segs[..m] + ([name] + rest)
    ensures segs[m] == name && segs[..m + 1] == segs[..m] + [name] && segs == segs[..m + 1] + rest
  {
    assert segs[m] == ([name] + rest)[0];
  }

  /**
   * What a successful walk from (`current`, `subkeys`) found: an existing, openable `parent`;
   * `segs` is the segments the walk put in front of `subkeys`, followed by `subkeys`; those
   * segments lead from `parent` back to `current` and none contains a separator; and every
   * path the walk tried below `parent` was not found.
   */
  lemma {:induction false} WalkSound(h: Hive, f: Faults, current: Path, subkeys: seq<string>, parent: Path, segs: seq<string>)
    requires Walk(h, f, current, subkeys) == Ok((parent, segs))
    ensures parent in h.keys && parent !in f.open
    ensures |subkeys| <= |segs| && segs == segs[..|segs| - |subkeys|] + subkeys
    ensures Join(parent, segs[..|segs| - |subkeys|]) == current
    ensures forall i :: 0 <= i < |segs| - |subkeys| ==> Separator !in segs[i]
    ensures forall k :: 0 < k <= |segs| - |subkeys| ==>
      Join(parent, segs[..k]) !in h.keys && Join(parent, segs[..k]) !in f.open
    decreases |current|
  {
    if OpenKey(h, f, current).Ok? {
      assert segs[..0] == [];
    } else {
      var up := GetParentKeyPath(current).value;
      var name := SubkeyName(current, up);
      assert current == Child(up, name) && Separator !in name;
      assert current !in h.keys && current !in f.open;
      WalkSound(h, f, up, [name] + subkeys, parent, segs);
      var m := |segs| - |subkeys| - 1;
      SplitAfter(segs, m, name, subkeys);
      assert segs[..m + 1][..m] == segs[..m];
      assert Join(parent, segs[..m + 1]) == current;
    }
  }

  /**
   * Why a walk from `current` failed: it went up from `current` through paths that were not
   * found, one segment of `segs` at a time, and stopped at `stop`, which did not open. The
   * failure is a registry error (status 3) exactly when opening `stop` failed with an error
   * other than not-found, and invalid input (status 2) exactly when `stop` was not found and
   * has no `\` left to walk up by.
   */
  lemma {:induction false} WalkFailure(h: Hive, f: Faults, current: Path, subkeys: seq<string>)
    returns (stop: Path, segs: seq<string>)
    requires Walk(h, f, current, subkeys).Err?
    ensures InSubtree(current, stop)
    ensures Join(stop, segs) == current
    ensures forall i :: 0 <= i < |segs| ==> Separator !in segs[i]
    ensures forall k :: 0 < k <= |segs| ==> Join(stop, segs[..k]) !in h.keys && Join(stop, segs[..k]) !in f.open
    ensures stop in f.open || stop !in h.keys
    ensures Walk(h, f, current, subkeys).error == RegistryError <==> stop in f.open
    ensures Walk(h, f, current, subkeys).error == InvalidInput <==>
      stop !in f.open && stop !in h.keys && Separator !in stop
    decreases |current|
  {
    if OpenKey(h, f, current) == Err(ObjectNameNotFound) && GetParentKeyPath(current).Ok? {
      var up := GetParentKeyPath(current).value;
      var name := SubkeyName(current, up);
      assert current == Child(up, name) && Separator !in name;
      var upSegs;
      stop, upSegs := WalkFailure(h, f, up, [name] + subkeys);
      ChildInSubtree(up, name, stop);
      segs := ClimbOneMore(h, f, stop, upSegs, name, current);
    } else {
      stop, segs := current, [];
    }
  }

  /**
   * One more not-found step of a failed climb: if `segs` leads from `stop` to the parent of
   * `current` through missing paths, then `segs + [name]` leads to `current` the same way.
   */
  lemma ClimbOneMore(h: Hive, f: Faults, stop: Path, upSegs: seq<string>, name: string, current: Path)
    returns (segs: seq<string>)
    requires current == Child(Join(stop, upSegs), name) && Separator !in name
    requires current !in h.keys && current !in f.open
    requires forall i :: 0 <= i < |upSegs| ==> Separator !in upSegs[i]
    requires forall k :: 0 < k <= |upSegs| ==> Join(stop, upSegs[..k]) !in h.keys && Join(stop, upSegs[..k]) !in f.open
    ensures segs == upSegs + [name] && Join(stop, segs) == current
    ensures forall i :: 0 <= i < |segs| ==> Separator !in segs[i]
    ensures forall k :: 0 < k <= |segs| ==> Join(stop, segs[..k]) !in h.keys && Join(stop, segs[..k]) !in f.open
  {
    segs := upSegs + [name];
    JoinSnoc(stop, upSegs, name);
    forall k | 0 < k <= |segs|
      ensures Join(stop, segs[..k]) !in h.keys && Join(stop, segs[..k]) !in f.open
    {
      if k <= |upSegs| {
        assert segs[..k] == upSegs[..k];
      } else {
        assert segs[..k] == segs;
      }
    }
  }

  /**
   * Why open_or_create_key could not plan the keys to create: it went up from `keyPath`
   * through paths that were not found and stopped at `stop`, which did not open; status 3
   * exactly when that open failed with an error other than not-found, status 2 exactly when
   * it was not found and has no `\`.
   */
  lemma CreationPlanFailure(h: Hive, f: Faults, keyPath: Path) returns (stop: Path, segs: seq<string>)
    requires CreationPlan(h, f, keyPath).Err?
    ensures InSubtree(keyPath, stop)
    ensures Join(stop, segs) == keyPath
    ensures forall i :: 0 <= i < |segs| ==> Separator !in segs[i]
    ensures forall k :: 0 < k <= |segs| ==> Join(stop, segs[..k]) !in h.keys && Join(stop, segs[..k]) !in f.open
    ensures stop in f.open || stop !in h.keys
    ensures CreationPlan(h, f, keyPath).error == RegistryError <==> stop in f.open
    ensures CreationPlan(h, f, keyPath).error == InvalidInput <==>
      stop !in f.open && stop !in h.keys && Separator !in stop
  {
    if OpenKey(h, f, keyPath) == Err(ObjectNameNotFound) && GetParentKeyPath(keyPath).Ok? {
      var up := GetParentKeyPath(keyPath).value;
      var name := SubkeyName(keyPath, up);
      assert keyPath == Child(up, name) && Separator !in name;
      var upSegs;
      stop, upSegs := WalkFailure(h, f, up, [name]);
      ChildInSubtree(up, name, stop);
      segs := ClimbOneMore(h, f, stop, upSegs, name, keyPath);
    } else {
      stop, segs := keyPath, [];
    }
  }

  /**
   * Properties of get_valid_parent_key_and_subkeys: the parent joined with the subkeys by `\`
   * rebuilds `keyPath`; there is at least one subkey and none contains `\`; the parent exists,
   * and every longer ancestor it tried was not found.
   */
  lemma ValidParentAndSubkeysSound(h: Hive, f: Faults, keyPath: Path, parent: Path, segs: seq<string>)
    requires ValidParentAndSubkeys(h, f, keyPath) == Ok((parent, segs))
    ensures |segs| >= 1 && Join(parent, segs) == keyPath
    ensures parent in h.keys && parent !in f.open
    ensures forall i :: 0 <= i < |segs| ==> Separator !in segs[i]
    ensures forall k :: 0 < k < |segs| ==> Join(parent, segs[..k]) !in h.keys && Join(parent, segs[..k]) !in f.open
  {
    var up := GetParentKeyPath(keyPath).value;
    var name := SubkeyName(keyPath, up);
    assert keyPath == Child(up, name) && Separator !in name;
    WalkSound(h, f, up, [name], parent, segs);
    var m := |segs| - 1;
    assert segs == segs[..m] + [name];
    assert segs[m] == name && segs[..m + 1] == segs;
    JoinStep(parent, segs, m);
    forall i | 0 <= i < |segs|
      ensures Separator !in segs[i]
    {
      if i == m {
        assert segs[i] == name;
      }
    }
  }

  /**
   * The keys open_or_create_key has to create for `keyPath`, shallowest first: none when the
   * key opens, otherwise one per missing segment.
   */
  function CreationPlan(h: Hive, f: Faults, keyPath: Path): (r: Result<seq<Path>, ExitCode>)
    ensures r.Err? ==> r.error == InvalidInput || r.error == RegistryError
    ensures keyPath in f.open ==> r == Err(RegistryError)
  {
    match OpenKey(h, f, keyPath)
    case Ok(_) => Ok([])
    case Err(OtherError) => Err(RegistryError)
    case Err(ObjectNameNotFound) =>
      match ValidParentAndSubkeys(h, f, keyPath)
      case Err(e) => Err(e)
      case Ok((parent, subkeys)) => Ok(Prefixes(parent, subkeys))
  }

  /**
   * The plan creates exactly the missing keys, in order: it is empty iff `keyPath` exists;
   * otherwise it ends at `keyPath`, no planned key exists yet, the first one's parent exists
   * and every later one is a child of the one before it.
   */
  lemma CreationPlanSound(h: Hive, f: Faults, keyPath: Path)
    requires CreationPlan(h, f, keyPath).Ok?
    ensures var ps := CreationPlan(h, f, keyPath).value;
      && keyPath !in f.open
      && (ps == [] <==> keyPath in h.keys)
      && (ps != [] ==> ps[|ps| - 1] == keyPath)
      && (forall i :: 0 <= i < |ps| ==> ps[i] !in h.keys && ps[i] !in f.open)
      && (ps != [] ==> GetParentKeyPath(ps[0]).Ok? && GetParentKeyPath(ps[0]).value in h.keys)
      && (forall i :: 0 < i < |ps| ==> GetParentKeyPath(ps[i]) == Ok(ps[i - 1]))
  {
    if OpenKey(h, f, keyPath).Err? {
      var (parent, segs) := ValidParentAndSubkeys(h, f, keyPath).value;
      ValidParentAndSubkeysSound(h, f, keyPath, parent, segs);
      var ps := Prefixes(parent, segs);
      PrefixesStepwise(parent, segs);
      forall i | 0 <= i < |ps|
        ensures ps[i] !in h.keys && ps[i] !in f.open
      {
        if i + 1 == |segs| {
          assert segs[..i + 1] == segs;
        }
      }
      forall i | 0 < i < |ps|
        ensures GetParentKeyPath(ps[i]) == Ok(ps[i - 1])
      {
        ParentOfChild(ps[i - 1], segs[i]);
      }
      if ps != [] {
        ParentOfChild(parent, segs[0]);
      }
    }
  }

  /** The index of the first path of `ps` that lies in `bad`, or `|ps|` when there is none. */
  function FirstIn(ps: seq<Path>, bad: set<Path>): (n: nat)
    ensures n <= |ps|
    ensures forall i :: 0 <= i < n ==> ps[i] !in bad
    ensures n < |ps| ==> ps[n] in bad
  {
    if ps == [] || ps[0] in bad then 0 else 1 + FirstIn(ps[1..], bad)
  }

  /** The elements of a sequence of paths, as a set. */
  function Members(ps: seq<Path>): set<Path> {
    set p | p in ps
  }

  /** One more element of a prefix adds that element to its members. */
  lemma MembersGrow(ps: seq<Path>, i: nat)
    requires i < |ps|
    ensures Members(ps[..i + 1]) == Members(ps[..i]) + {ps[i]}
  {
    assert ps[..i + 1] == ps[..i] + [ps[i]];
  }

  /** The first index whose path is in `bad`, found by checking all earlier ones. */
  lemma FirstInIs(ps: seq<Path>, bad: set<Path>, i: nat)
    requires i < |ps| && ps[i] in bad
    requires forall j :: 0 <= j < i ==> ps[j] !in bad
    ensures FirstIn(ps, bad) == i
  {
  }

  /**
   * open_or_create_key on a store value: the planned keys are created one after another; the
   * first creation that fails is fatal (the keys created before it stay, see the method).
   */
  function OpenOrCreateEffect(h: Hive, f: Faults, keyPath: Path): (r: Result<Hive, ExitCode>)
    ensures r.Err? ==> r.error == InvalidInput || r.error == RegistryError
  {
    match CreationPlan(h, f, keyPath)
    case Err(e) => Err(e)
    case Ok(ps) =>
      if FirstIn(ps, f.create) < |ps| then Err(RegistryError)
      else Ok(Hive(h.keys + Members(ps), h.values))
  }

  /**
   * The store open_or_create_key leaves behind, whether it succeeds or not: the planned keys
   * before the first failing creation have been created and stay; nothing else changes.
   */
  function OpenOrCreateStore(h: Hive, f: Faults, keyPath: Path): (r: Hive)
    ensures r.values == h.values && h.keys <= r.keys
    ensures OpenOrCreateEffect(h, f, keyPath).Ok? ==> r == OpenOrCreateEffect(h, f, keyPath).value
    ensures CreationPlan(h, f, keyPath).Err? ==> r == h
    ensures CreationPlan(h, f, keyPath).Ok? ==>
      var ps := CreationPlan(h, f, keyPath).value;
      r.keys == h.keys + Members(ps[..FirstIn(ps, f.create)])
  {
    match CreationPlan(h, f, keyPath)
    case Err(_) => h
    case Ok(ps) =>
      assert ps[..|ps|] == ps;
      Hive(h.keys + Members(ps[..FirstIn(ps, f.create)]), h.values)
  }

  /**
   * open_or_create_key keeps the registry a tree, whether it succeeds or stops partway: each
   * key it created has its parent among the existing keys or the keys created before it.
   */
  lemma OpenOrCreateStoreWellFormed(h: Hive, f: Faults, keyPath: Path)
    requires WellFormed(h)
    ensures WellFormed(OpenOrCreateStore(h, f, keyPath))
  {
    if CreationPlan(h, f, keyPath).Ok? {
      CreationPlanSound(h, f, keyPath);
      var ps := CreationPlan(h, f, keyPath).value;
      var n := FirstIn(ps, f.create);
      var r := OpenOrCreateStore(h, f, keyPath);
      forall k | k in r.keys && GetParentKeyPath(k).Ok?
        ensures GetParentKeyPath(k).value in r.keys
      {
        if k !in h.keys {
          assert k in ps[..n];
          var i :| 0 <= i < n && ps[..n][i] == k;
          if i > 0 {
            assert ps[i - 1] == ps[..n][i - 1];
          }
        }
      }
    }
  }

  /**
   * After open_or_create_key succeeds, `keyPath` exists, no value changed and no key went
   * away; a key that already existed leaves the store exactly as it was.
   */
  lemma OpenOrCreateEffectSound(h: Hive, f: Faults, keyPath: Path)
    requires OpenOrCreateEffect(h, f, keyPath).Ok?
    ensures var h' := OpenOrCreateEffect(h, f, keyPath).value;
      && keyPath in h'.keys && keyPath !in f.open
      && h'.values == h.values && h.keys <= h'.keys
      && (keyPath in h.keys ==> h' == h)
  {
    CreationPlanSound(h, f, keyPath);
    var ps := CreationPlan(h, f, keyPath).value;
    if ps != [] {
      assert ps[|ps| - 1] in Members(ps);
    } else {
      assert Members(ps) == {};
    }
  }

  /**
   * remove_key on a store value: a key that is not found is already removed; otherwise it goes
   * with its whole subtree, unless some key in it cannot be deleted.
   */
  function RemoveEffect(h: Hive, f: Faults, keyPath: Path): (r: Result<Hive, ExitCode>)
    ensures r.Err? ==> r.error == RegistryError
    ensures r.Err? <==> keyPath in f.open || (keyPath in h.keys && DeleteBlocked(h, f, keyPath))
    ensures keyPath !in h.keys && keyPath !in f.open ==> r == Ok(h)
  {
    match OpenKey(h, f, keyPath)
    case Err(ObjectNameNotFound) => Ok(h)
    case Err(OtherError) => Err(RegistryError)
    case Ok(_) => if DeleteBlocked(h, f, keyPath) then Err(RegistryError) else Ok(WithoutTree(h, keyPath))
  }

  /**
   * After remove_key succeeds, `keyPath` is gone; when it existed its whole subtree is gone and
   * nothing outside it changed; when it was not found the store is unchanged. Removing again
   * changes nothing.
   */
  lemma RemoveEffectSound(h: Hive, f: Faults, keyPath: Path)
    requires RemoveEffect(h, f, keyPath).Ok?
    ensures var h' := RemoveEffect(h, f, keyPath).value;
      && keyPath !in h'.keys && keyPath !in f.open
      && (keyPath !in h.keys ==> h' == h)
      && (keyPath in h.keys ==> h' == WithoutTree(h, keyPath))
      && (keyPath in h.keys ==> forall k :: k in h.keys ==> (k in h'.keys <==> !InSubtree(k, keyPath)))
      && RemoveEffect(h', f, keyPath) == Ok(h')
  {
  }

  /** get_valid_parent_key_and_subkeys (registry/src/main.rs:342-374). */
  method GetValidParentKeyAndSubkeys(store: Store, keyPath: Path) returns (r: Result<(Path, seq<string>), ExitCode>)
    ensures r == ValidParentAndSubkeys(store.Snapshot(), store.faults, keyPath)
    ensures r.Ok? ==> Join(r.value.0, r.value.1) == keyPath && |r.value.1| >= 1 && r.value.0 in store.keys
    ensures r.Ok? ==> forall i :: 0 <= i < |r.value.1| ==> Separator !in r.value.1[i]
  {
    var parentKeyPath := GetParentKeyPath(keyPath);
    if parentKeyPath.Err? {
      return Err(parentKeyPath.error);
    }
    var subkeys := [SubkeyName(keyPath, parentKeyPath.value)];
    var currentKeyPath := parentKeyPath.value;
    var status := store.Open(currentKeyPath);
    while status == Err(ObjectNameNotFound)
      invariant status == store.Open(currentKeyPath)
      invariant Walk(store.Snapshot(), store.faults, currentKeyPath, subkeys)
             == ValidParentAndSubkeys(store.Snapshot(), store.faults, keyPath)
      decreases |currentKeyPath|
    {
      var up := GetParentKeyPath(currentKeyPath);
      if up.Err? {
        return Err(up.error);
      }
      subkeys := [SubkeyName(currentKeyPath, up.value)] + subkeys;
      currentKeyPath := up.value;
      status := store.Open(currentKeyPath);
    }
    if status.Err? {
      return Err(RegistryError);
    }
    r := Ok((currentKeyPath, subkeys));
    ValidParentAndSubkeysSound(store.Snapshot(), store.faults, keyPath, currentKeyPath, subkeys);
  }

  /**
   * The loop of open_or_create_key (registry/src/main.rs:318-328): create each subkey under
   * the key created just before it, starting at `parent`; a failing creation is fatal and
   * leaves the keys created before it in place.
   */
  method CreateSubkeys(store: Store, parent: Path, subkeys: seq<string>, ghost ps: seq<Path>) returns (r: Result<Path, ExitCode>)
    requires store.Valid() && parent in store.keys
    requires forall i :: 0 <= i < |subkeys| ==> Separator !in subkeys[i]
    requires |ps| == |subkeys| && (ps != [] ==> ps[0] == Child(parent, subkeys[0]))
    requires forall i :: 0 < i < |ps| ==> ps[i] == Child(ps[i - 1], subkeys[i])
    modifies store
    ensures store.Valid() && store.values == old(store.values)
    ensures var n := FirstIn(ps, store.faults.create);
      && store.created == old(store.created) + ps[..n]
      && store.keys == old(store.keys) + Members(ps[..n])
      && (n == |ps| ==> r == Ok(if ps == [] then parent else ps[|ps| - 1]))
      && (n < |ps| ==> r == Err(RegistryError))
  {
    var currentKey := parent;
    for i := 0 to |subkeys|
      invariant store.Valid() && store.values == old(store.values)
      invariant currentKey in store.keys
      invariant currentKey == if i == 0 then parent else ps[i - 1]
      invariant store.created == old(store.created) + ps[..i]
      invariant store.keys == old(store.keys) + Members(ps[..i])
      invariant forall j :: 0 <= j < i ==> ps[j] !in store.faults.create
    {
      var key := store.CreateKey(currentKey, subkeys[i]);
      if key.Err? {
        FirstInIs(ps, store.faults.create, i);
        return Err(RegistryError);
      }
      assert ps[..i + 1] == ps[..i] + [ps[i]];
      MembersGrow(ps, i);
      currentKey := key.value;
    }
    assert ps[..|subkeys|] == ps;
    return Ok(currentKey);
  }

  /**
   * open_or_create_key (registry/src/main.rs:305-340): the keys of the creation plan are
   * created in order, each under the one before; a failing creation stops the walk with the
   * earlier ones already made.
   */
  method OpenOrCreateKey(store: Store, keyPath: Path) returns (r: Result<Path, ExitCode>)
    requires store.Valid()
    modifies store
    ensures store.Valid() && store.values == old(store.values)
    ensures CreationPlan(old(store.Snapshot()), store.faults, keyPath).Err? ==>
      r == Err(CreationPlan(old(store.Snapshot()), store.faults, keyPath).error)
      && store.keys == old(store.keys) && store.created == old(store.created)
    ensures CreationPlan(old(store.Snapshot()), store.faults, keyPath).Ok? ==>
      var ps := CreationPlan(old(store.Snapshot()), store.faults, keyPath).value;
      var n := FirstIn(ps, store.faults.create);
      && store.created == old(store.created) + ps[..n]
      && store.keys == old(store.keys) + Members(ps[..n])
      && (n == |ps| ==> r == Ok(keyPath))
      && (n < |ps| ==> r == Err(RegistryError))
    ensures r.Ok? <==> OpenOrCreateEffect(old(store.Snapshot()), store.faults, keyPath).Ok?
    ensures r.Ok? ==> store.Snapshot() == OpenOrCreateEffect(old(store.Snapshot()), store.faults, keyPath).value
    ensures r.Ok? ==> r.value == keyPath && keyPath in store.keys
    ensures store.Snapshot() == OpenOrCreateStore(old(store.Snapshot()), store.faults, keyPath)
  {
    ghost var before := store.Snapshot();
    match store.Open(keyPath) {
      case Ok(_) =>
        assert Members([]) == {};
        r := Ok(keyPath);
      case Err(OtherError) =>
        r := Err(RegistryError);
      case Err(ObjectNameNotFound) =>
        var found := GetValidParentKeyAndSubkeys(store, keyPath);
        if found.Err? {
          r := Err(found.error);
        } else {
          var (parent, subkeys) := found.value;
          ghost var ps := Prefixes(parent, subkeys);
          assert CreationPlan(before, store.faults, keyPath) == Ok(ps);
          CreationPlanSound(before, store.faults, keyPath);
          PrefixesStepwise(parent, subkeys);
          r := CreateSubkeys(store, parent, subkeys, ps);
          assert ps[..|ps|] == ps;
          if r.Ok? {
            assert ps[|ps| - 1] in Members(ps);
          }
        }
    }
    OpenOrCreateOutcome(before, store.faults, keyPath, store.Snapshot(), r);
  }

  /**
   * What open_or_create_key leaves, read off the creation plan: any store and result that follow
   * the plan up to its first failing creation are the specification's effect and store.
   */
  lemma OpenOrCreateOutcome(h: Hive, f: Faults, keyPath: Path, after: Hive, r: Result<Path, ExitCode>)
    requires after.values == h.values
    requires CreationPlan(h, f, keyPath).Err? ==>
      r == Err(CreationPlan(h, f, keyPath).error) && after.keys == h.keys
    requires CreationPlan(h, f, keyPath).Ok? ==>
      var ps := CreationPlan(h, f, keyPath).value;
      var n := FirstIn(ps, f.create);
      && after.keys == h.keys + Members(ps[..n])
      && (n == |ps| ==> r == Ok(keyPath))
      && (n < |ps| ==> r == Err(RegistryError))
    ensures r.Ok? <==> OpenOrCreateEffect(h, f, keyPath).Ok?
    ensures r.Ok? ==> after == OpenOrCreateEffect(h, f, keyPath).value
    ensures r.Ok? ==> r.value == keyPath && keyPath in after.keys
    ensures after == OpenOrCreateStore(h, f, keyPath)
  {
    if r.Ok? {
      OpenOrCreateEffectSound(h, f, keyPath);
    }
  }

  /** remove_key (registry/src/main.rs:282-303): not found counts as removed. */
  method RemoveKey(store: Store, keyPath: Path) returns (r: Result<(), ExitCode>)
    requires store.Valid()
    modifies store
    ensures store.Valid() && store.created == old(store.created)
    ensures r.Ok? <==> RemoveEffect(old(store.Snapshot()), store.faults, keyPath).Ok?
    ensures r.Ok? ==> store.Snapshot() == RemoveEffect(old(store.Snapshot()), store.faults, keyPath).value
    ensures r.Err? ==> r.error == RegistryError && store.Snapshot() == old(store.Snapshot())
  {
    match store.Open(keyPath) {
      case Ok(key) =>
        var deleted := store.DeleteTree(key);
        if deleted.Err? {
          return Err(RegistryError);
        }
        return Ok(());
      case Err(ObjectNameNotFound) =>
        return Ok(());
      case Err(OtherError) =>
        return Err(RegistryError);
    }
  }
}
