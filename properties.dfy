/**
 * Properties that relate several operations: what Set leaves behind, that repeating a Set
 * changes nothing, what Test and Get report right after a Set, and the documented scenarios.
 */
module Properties {
  import opened Wrappers
  import opened Exits
  import opened Config
  import opened Paths
  import opened KeyStore
  import opened Resolver
  import opened Equality
  import opened Reconcile

  /** Set without a value name leaves the key existing (Present) or gone (Absent). */
  lemma SetKeySound(h: Hive, f: Faults, c: RegistryConfig)
    requires c.valueName.None? && c.ensure.Some? && SetEffect(h, f, c).Ok?
    ensures var h' := SetEffect(h, f, c).value;
      && c.keyPath !in f.open
      && (c.ensure.value == Present ==>
            c.keyPath in h'.keys && h.keys <= h'.keys && h'.values == h.values
            && (c.keyPath in h.keys ==> h' == h))
      && (c.ensure.value == Absent ==>
            c.keyPath !in h'.keys && (c.keyPath !in h.keys ==> h' == h)
            && (c.keyPath in h.keys ==> h' == WithoutTree(h, c.keyPath))
            && (c.keyPath in h.keys ==> forall k :: k in h.keys ==> (k in h'.keys <==> !InSubtree(k, c.keyPath))))
  {
    if c.ensure.value == Present {
      OpenOrCreateEffectSound(h, f, c.keyPath);
    } else {
      RemoveEffectSound(h, f, c.keyPath);
    }
  }

  /**
   * Set with a value name leaves the key existing and changes the values only at the named
   * slot: Absent removes it; Present with data stores that data; Present without data keeps
   * an existing value and otherwise stores REG_NONE.
   */
  lemma SetValueSound(h: Hive, f: Faults, c: RegistryConfig)
    requires c.valueName.Some? && SetEffect(h, f, c).Ok?
    ensures var h' := SetEffect(h, f, c).value;
      var slot := SlotOf(c);
      && c.keyPath !in f.open && c.keyPath in h'.keys && h.keys <= h'.keys
      && (forall s :: s != slot ==> (s in h'.values <==> s in h.values))
      && (forall s :: s != slot && s in h'.values ==> h'.values[s] == h.values[s])
      && (c.ensure == Some(Absent) ==> slot !in h'.values)
      && (c.ensure != Some(Absent) && c.valueData.Some? ==>
            slot in h'.values && h'.values[slot] == RegistryValue(slot.name, ConvertConfigregData(c.valueData.value)))
      && (c.ensure != Some(Absent) && c.valueData.None? ==>
            slot in h'.values
            && h'.values[slot] == if slot in h.values then h.values[slot] else RegistryValue(slot.name, RegNone))
  {
    OpenOrCreateEffectSound(h, f, c.keyPath);
    SetValueResult(h, f, c);
  }

  /** The values a successful value-level Set leaves, slot by slot. */
  ghost function ValuesAfterSet(values: map<ValueSlot, RegistryValue>, c: RegistryConfig): map<ValueSlot, RegistryValue>
    requires c.valueName.Some?
  {
    var slot := SlotOf(c);
    if c.ensure == Some(Absent) then values - {slot}
    else if c.valueData.Some? then values[slot := RegistryValue(slot.name, ConvertConfigregData(c.valueData.value))]
    else if slot in values then values
    else values[slot := RegistryValue(slot.name, RegNone)]
  }

  /** A successful value-level Set keeps the keys open-or-create left and leaves ValuesAfterSet. */
  lemma SetValueResult(h: Hive, f: Faults, c: RegistryConfig)
    requires c.valueName.Some? && SetEffect(h, f, c).Ok?
    ensures OpenOrCreateEffect(h, f, c.keyPath).Ok?
    ensures SetEffect(h, f, c).value ==
      Hive(OpenOrCreateEffect(h, f, c.keyPath).value.keys, ValuesAfterSet(h.values, c))
  {
    OpenOrCreateEffectSound(h, f, c.keyPath);
    var keyed := OpenOrCreateEffect(h, f, c.keyPath).value;
    assert keyed.values == h.values;
    if c.ensure != Some(Absent) && c.valueData.None? && SlotOf(c) in h.values {
      assert SetEffect(h, f, c).value == keyed;
    }
  }

  /**
   * Set Absent of a value succeeds exactly when its key can be opened or created and deleting
   * the value does not fail; a value that is already missing counts as deleted, so under an
   * existing key the store stays as it was.
   */
  lemma SetValueAbsentSound(h: Hive, f: Faults, c: RegistryConfig)
    requires c.valueName.Some? && c.ensure == Some(Absent)
    ensures SetEffect(h, f, c).Ok? <==> OpenOrCreateEffect(h, f, c.keyPath).Ok? && SlotOf(c) !in f.write
    ensures SetEffect(h, f, c).Ok? && c.keyPath in h.keys && SlotOf(c) !in h.values ==>
      SetEffect(h, f, c).value == h
  {
    if SetEffect(h, f, c).Ok? && c.keyPath in h.keys && SlotOf(c) !in h.values {
      OpenOrCreateEffectSound(h, f, c.keyPath);
      assert h.values - {SlotOf(c)} == h.values;
    }
  }

  /**
   * Set Present of a value overwrites whatever the slot holds: with data it succeeds exactly
   * when its key opens or is created and writing the value does not fail; without data it
   * also needs the value to be readable, and writes (REG_NONE) only when the value is missing.
   */
  lemma SetValuePresentSound(h: Hive, f: Faults, c: RegistryConfig)
    requires c.valueName.Some? && c.ensure != Some(Absent)
    ensures SetEffect(h, f, c).Ok? <==>
      && OpenOrCreateEffect(h, f, c.keyPath).Ok?
      && (c.valueData.Some? ==> SlotOf(c) !in f.write)
      && (c.valueData.None? ==> SlotOf(c) !in f.read && (SlotOf(c) !in h.values ==> SlotOf(c) !in f.write))
  {
    if OpenOrCreateEffect(h, f, c.keyPath).Ok? {
      OpenOrCreateEffectSound(h, f, c.keyPath);
    }
  }

  /**
   * Set keeps the registry a tree whose values live under existing keys, also when it stops
   * with an error partway.
   */
  lemma SetKeepsTree(h: Hive, f: Faults, c: RegistryConfig)
    requires c.valueName.None? ==> c.ensure.Some?
    requires WellFormed(h)
    ensures WellFormed(SetStore(h, f, c))
  {
    OpenOrCreateStoreWellFormed(h, f, c.keyPath);
    match c.valueName
    case None =>
      if c.ensure.value == Absent && RemoveEffect(h, f, c.keyPath).Ok? && c.keyPath in h.keys {
        WithoutTreeWellFormed(h, c.keyPath);
      }
    case Some(name) =>
      if SetEffect(h, f, c).Ok? {
        OpenOrCreateEffectSound(h, f, c.keyPath);
        SetValueTouchesOnlyItsSlot(h, f, c);
        var keyed := OpenOrCreateEffect(h, f, c.keyPath).value;
        WithValuesWellFormed(keyed, SetStore(h, f, c).values, c.keyPath);
      }
  }

  /** A successful Set of a named value changes no key beyond opening its key, and only its own slot. */
  lemma SetValueTouchesOnlyItsSlot(h: Hive, f: Faults, c: RegistryConfig)
    requires c.valueName.Some? && SetEffect(h, f, c).Ok?
    ensures OpenOrCreateEffect(h, f, c.keyPath).Ok?
    ensures var keyed := OpenOrCreateEffect(h, f, c.keyPath).value;
      var after := SetEffect(h, f, c).value;
      && after.keys == keyed.keys
      && forall s :: s in after.values ==> s in keyed.values || s == ValueSlot(c.keyPath, c.valueName.value)
  {
    var keyed := OpenOrCreateEffect(h, f, c.keyPath).value;
    var slot := ValueSlot(c.keyPath, c.valueName.value);
    if c.ensure == Some(Absent) {
      assert SetEffect(h, f, c).value.values == keyed.values - {slot};
    } else if c.valueData.Some? {
      assert SetEffect(h, f, c).value.values.Keys == keyed.values.Keys + {slot};
    } else if GetValue(keyed, f, c.keyPath, c.valueName.value).Ok? {
      assert SetEffect(h, f, c).value == keyed;
    } else {
      assert SetEffect(h, f, c).value.values.Keys == keyed.values.Keys + {slot};
    }
  }

  /** Running the same Set a second time succeeds, changes nothing and replies the same. */
  lemma SetIdempotent(h: Hive, f: Faults, c: RegistryConfig, serializes: bool)
    requires c.valueName.None? ==> c.ensure.Some?
    requires SetEffect(h, f, c).Ok?
    ensures SetEffect(SetEffect(h, f, c).value, f, c) == SetEffect(h, f, c)
    ensures SetReply(SetEffect(h, f, c).value, f, c, serializes) == SetReply(h, f, c, serializes)
  {
    var h' := SetEffect(h, f, c).value;
    if c.valueName.None? {
      SetKeySound(h, f, c);
      if c.ensure.value == Present {
        OpenOrCreateEffectSound(h', f, c.keyPath);
      } else {
        RemoveEffectSound(h, f, c.keyPath);
      }
    } else {
      SetValueIdempotent(h, f, c);
    }
  }

  /** The value branch of SetIdempotent: a second value-level Set finds nothing to change. */
  lemma SetValueIdempotent(h: Hive, f: Faults, c: RegistryConfig)
    requires c.valueName.Some? && SetEffect(h, f, c).Ok?
    ensures SetEffect(SetEffect(h, f, c).value, f, c) == SetEffect(h, f, c)
  {
    var h' := SetEffect(h, f, c).value;
    SetValueSound(h, f, c);
    if c.ensure == Some(Absent) {
      SetValueAbsentSound(h, f, c);
    } else {
      SetValuePresentSound(h, f, c);
    }
    assert OpenKey(h', f, c.keyPath).Ok?;
    assert Members([]) == {};
    OpenOrCreateEffectSound(h', f, c.keyPath);
    SetValueAlreadyDone(h', f, c);
  }

  /**
   * A value-level Set on a store where its key opens and its slot already holds what it asks
   * for changes nothing.
   */
  lemma SetValueAlreadyDone(h: Hive, f: Faults, c: RegistryConfig)
    requires c.valueName.Some? && OpenOrCreateEffect(h, f, c.keyPath) == Ok(h)
    requires c.ensure == Some(Absent) ==> SlotOf(c) !in h.values && SlotOf(c) !in f.write
    requires c.ensure != Some(Absent) && c.valueData.Some? ==>
      SlotOf(c) !in f.write && SlotOf(c) in h.values
      && h.values[SlotOf(c)] == RegistryValue(c.valueName.value, ConvertConfigregData(c.valueData.value))
    requires c.ensure != Some(Absent) && c.valueData.None? ==> SlotOf(c) in h.values && SlotOf(c) !in f.read
    ensures SetEffect(h, f, c) == Ok(h)
  {
    var slot := SlotOf(c);
    if c.ensure == Some(Absent) {
      assert h.values - {slot} == h.values;
    } else if c.valueData.Some? {
      assert h.values[slot := h.values[slot]] == h.values;
    }
  }

  /** After a key-level Set, Test on the same document reports in desired state. */
  lemma SetKeyThenTest(h: Hive, f: Faults, c: RegistryConfig, serializes: bool)
    requires c.valueName.None? && c.ensure.Some? && SetEffect(h, f, c).Ok?
    ensures TestReply(SetEffect(h, f, c).value, f, c, serializes) == Ok(Reply(ToJson(Default(), serializes), true))
  {
    SetKeySound(h, f, c);
  }

  /**
   * After Set writes value data, Test on the same document reports in desired state and echoes
   * the data, and Get returns exactly the data that was set.
   */
  lemma SetValueThenTestAndGet(h: Hive, f: Faults, c: RegistryConfig, serializes: bool)
    requires c.valueName.Some? && c.ensure == Some(Present) && c.valueData.Some?
    requires SetEffect(h, f, c).Ok? && SlotOf(c) !in f.read
    ensures var h' := SetEffect(h, f, c).value;
      var doc := Default().(keyPath := c.keyPath, valueName := c.valueName, valueData := c.valueData);
      && TestReply(h', f, c, serializes) == Ok(Reply(ToJson(doc, serializes), true))
      && GetReply(h', f, c, serializes) ==
           if serializes then Ok(RegistryConfig(None, c.keyPath, c.valueName, c.valueData, None, None, None))
           else Err(RegistryError)
  {
    SetValueSound(h, f, c);
    ConvertRoundTrip(c.valueData.value);
  }

  /** After Set removes a value, Test on the same document reports in desired state. */
  lemma SetValueAbsentThenTest(h: Hive, f: Faults, c: RegistryConfig, serializes: bool)
    requires c.valueName.Some? && c.ensure == Some(Absent)
    requires SetEffect(h, f, c).Ok? && SlotOf(c) !in f.read
    ensures TestReply(SetEffect(h, f, c).value, f, c, serializes)
         == Ok(Reply(ToJson(Default().(keyPath := c.keyPath), serializes), true))
  {
    SetValueSound(h, f, c);
  }

  /**
   * Set with a value name but no data creates a missing value as REG_NONE; Test and Get on the
   * same document then stop with a store error, since REG_NONE has no document form.
   */
  lemma SetWithoutDataThenTestFails(h: Hive, f: Faults, c: RegistryConfig, serializes: bool)
    requires c.valueName.Some? && c.ensure == Some(Present) && c.valueData.None?
    requires SlotOf(c) !in h.values && SetEffect(h, f, c).Ok?
    ensures TestReply(SetEffect(h, f, c).value, f, c, serializes) == Err(RegistryError)
    ensures GetReply(SetEffect(h, f, c).value, f, c, serializes) == Err(RegistryError)
  {
    SetValueSound(h, f, c);
  }
}
