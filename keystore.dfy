/**
 * An in-memory stand-in for the native registry that the resource drives through `ntreg`:
 * a set of existing key paths and the values stored under them. Which calls fail with an
 * error other than "object name not found" is fixed up front in `Faults`.
 */
module KeyStore {
  import opened Wrappers
  import opened Config
  import opened Paths

  /** Value data as the store holds it: the six document kinds plus REG_NONE, "no data". */
  datatype StoreData =
    | RegSz(string)
    | RegExpandSz(string)
    | RegBinary(seq<U8>)
    | RegDword(U32)
    | RegMultiSz(seq<string>)
    | RegQword(U64)
    | RegNone

  /** A value as the store reports it: the name it is stored under, and its data. */
  datatype RegistryValue = RegistryValue(name: string, data: StoreData)

  /** Where a value lives: its key and the name it was looked up by. */
  datatype ValueSlot = ValueSlot(key: Path, name: string)

  /** The two parts of the store as a value. */
  datatype Hive = Hive(keys: set<Path>, values: map<ValueSlot, RegistryValue>)

  /** The paths and slots on which each primitive fails with an error other than not-found. */
  datatype Faults = Faults(
    open: set<Path>,
    create: set<Path>,
    delete: set<Path>,
    read: set<ValueSlot>,
    write: set<ValueSlot>)

  /** The two kinds of store failure the engine tells apart. */
  datatype StoreError = ObjectNameNotFound | OtherError

  /**
   * The registry is a tree: the parent of every key (the path before its last `\`) exists,
   * and values only live under keys that exist.
   */
  ghost predicate WellFormed(h: Hive) {
    && (forall k :: k in h.keys && GetParentKeyPath(k).Ok? ==> GetParentKeyPath(k).value in h.keys)
    && (forall s :: s in h.values ==> s.key in h.keys)
  }

  /**
   * `RegistryKey::new`: open an existing key. Not-found is reported exactly for a missing key
   * whose opening does not fail otherwise; an opened key is the one asked for.
   */
  function OpenKey(h: Hive, f: Faults, p: Path): (r: Result<Path, StoreError>)
    ensures r.Ok? <==> p in h.keys && p !in f.open
    ensures r.Ok? ==> r.value == p
    ensures r == Err(ObjectNameNotFound) <==> p !in h.keys && p !in f.open
  {
    if p in f.open then Err(OtherError)
    else if p in h.keys then Ok(p)
    else Err(ObjectNameNotFound)
  }

  /**
   * `get_value` on an open key. A readable value is returned as stored; not-found is reported
   * exactly for an empty slot that can be read.
   */
  function GetValue(h: Hive, f: Faults, key: Path, name: string): (r: Result<RegistryValue, StoreError>)
    ensures r.Ok? <==> ValueSlot(key, name) in h.values && ValueSlot(key, name) !in f.read
    ensures r.Ok? ==> r.value == h.values[ValueSlot(key, name)]
    ensures r == Err(ObjectNameNotFound) <==> ValueSlot(key, name) !in h.values && ValueSlot(key, name) !in f.read
  {
    var slot := ValueSlot(key, name);
    if slot in f.read then Err(OtherError)
    else if slot in h.values then Ok(h.values[slot])
    else Err(ObjectNameNotFound)
  }

  /** Some key of the subtree at `p` cannot be deleted. */
  predicate DeleteBlocked(h: Hive, f: Faults, p: Path) {
    exists k :: k in h.keys && InSubtree(k, p) && k in f.delete
  }

  /** The store with the key `p` and everything below it, keys and values, removed. */
  function WithoutTree(h: Hive, p: Path): (r: Hive)
    ensures forall k :: k in r.keys <==> k in h.keys && !InSubtree(k, p)
    ensures forall s :: s in r.values <==> s in h.values && !InSubtree(s.key, p)
    ensures forall s :: s in r.values ==> r.values[s] == h.values[s]
  {
    Hive(set k | k in h.keys && !InSubtree(k, p),
         map s | s in h.values && !InSubtree(s.key, p) :: h.values[s])
  }

  /** Removing a whole subtree leaves a tree. */
  lemma WithoutTreeWellFormed(h: Hive, p: Path)
    requires WellFormed(h)
    ensures WellFormed(WithoutTree(h, p))
  {
    var r := WithoutTree(h, p);
    forall k | k in r.keys && GetParentKeyPath(k).Ok?
      ensures GetParentKeyPath(k).value in r.keys
    {
      ParentOutsideSubtree(k, p);
    }
  }

  /** Writing or deleting values under an existing key leaves a tree. */
  lemma WithValuesWellFormed(h: Hive, vs: map<ValueSlot, RegistryValue>, key: Path)
    requires WellFormed(h) && key in h.keys
    requires forall s :: s in vs ==> s in h.values || s.key == key
    ensures WellFormed(Hive(h.keys, vs))
  {
  }

  /** The store itself, updated in place by the primitives the engine calls. */
  class Store {
    var keys: set<Path>
    var values: map<ValueSlot, RegistryValue>
    const faults: Faults
    /** Every key this store created, in the order of creation. */
    ghost var created: seq<Path>

    function Snapshot(): Hive
      reads this
    {
      Hive(keys, values)
    }

    ghost predicate Valid()
      reads this
    {
      WellFormed(Snapshot())
    }

    constructor (h: Hive, f: Faults)
      requires WellFormed(h)
      ensures Valid() && Snapshot() == h && faults == f && created == []
    {
      keys, values, faults := h.keys, h.values, f;
      created := [];
    }

    function Open(p: Path): Result<Path, StoreError>
      reads this
    {
      OpenKey(Snapshot(), faults, p)
    }

    function Get(key: Path, name: string): Result<RegistryValue, StoreError>
      reads this
    {
      GetValue(Snapshot(), faults, key, name)
    }

    /** `create_key` on the open key `parent`: creates its child `name`. */
    method CreateKey(parent: Path, name: string) returns (r: Result<Path, StoreError>)
      requires Valid() && parent in keys && Separator !in name
      modifies this
      ensures Valid() && values == old(values)
      ensures Child(parent, name) in faults.create ==>
        r == Err(OtherError) && keys == old(keys) && created == old(created)
      ensures Child(parent, name) !in faults.create ==>
        r == Ok(Child(parent, name)) && keys == old(keys) + {Child(parent, name)}
        && created == old(created) + [Child(parent, name)]
    {
      var child := Child(parent, name);
      if child in faults.create {
        return Err(OtherError);
      }
      ParentOfChild(parent, name);
      keys := keys + {child};
      created := created + [child];
      return Ok(child);
    }

    /** `delete(true)` on the open key `p`: removes it with its whole subtree. */
    method DeleteTree(p: Path) returns (r: Result<(), StoreError>)
      requires Valid() && p in keys
      modifies this
      ensures Valid() && created == old(created)
      ensures DeleteBlocked(old(Snapshot()), faults, p) ==>
        r == Err(OtherError) && Snapshot() == old(Snapshot())
      ensures !DeleteBlocked(old(Snapshot()), faults, p) ==>
        r == Ok(()) && Snapshot() == WithoutTree(old(Snapshot()), p)
    {
      if DeleteBlocked(Snapshot(), faults, p) {
        return Err(OtherError);
      }
      var rest := WithoutTree(Snapshot(), p);
      WithoutTreeWellFormed(Snapshot(), p);
      keys, values := rest.keys, rest.values;
      return Ok(());
    }

    /** `set_value` on the open key `key`: stores (or overwrites) the value `name`. */
    method SetValue(key: Path, name: string, data: StoreData) returns (r: Result<(), StoreError>)
      requires Valid() && key in keys
      modifies this
      ensures Valid() && keys == old(keys) && created == old(created)
      ensures ValueSlot(key, name) in faults.write ==> r == Err(OtherError) && values == old(values)
      ensures ValueSlot(key, name) !in faults.write ==>
        r == Ok(()) && values == old(values)[ValueSlot(key, name) := RegistryValue(name, data)]
    {
      var slot := ValueSlot(key, name);
      if slot in faults.write {
        return Err(OtherError);
      }
      values := values[slot := RegistryValue(name, data)];
      return Ok(());
    }

    /** `delete_value` on the open key `key`. */
    method DeleteValue(key: Path, name: string) returns (r: Result<(), StoreError>)
      requires Valid()
      modifies this
      ensures Valid() && keys == old(keys) && created == old(created)
      ensures ValueSlot(key, name) in faults.write ==> r == Err(OtherError) && values == old(values)
      ensures ValueSlot(key, name) !in faults.write && ValueSlot(key, name) !in old(values) ==>
        r == Err(ObjectNameNotFound) && values == old(values)
      ensures ValueSlot(key, name) !in faults.write && ValueSlot(key, name) in old(values) ==>
        r == Ok(()) && values == old(values) - {ValueSlot(key, name)}
    {
      var slot := ValueSlot(key, name);
      if slot in faults.write {
        return Err(OtherError);
      }
      if slot !in values {
        return Err(ObjectNameNotFound);
      }
      values := values - {slot};
      return Ok(());
    }
  }
}
