/**
 * What Get, Set and Test do to the store and what they report, as functions over a `Hive`
 * value (registry/src/main.rs:91-123, 145-270, 376-523). The methods of module Engine run the
 * same steps against a `Store` object and are proved to agree with these functions.
 */
module Reconcile {
  import opened Wrappers
  import opened Exits
  import opened Config
  import opened Paths
  import opened KeyStore
  import opened Resolver
  import opened Equality

  /** What config_set and config_test return: the printed document and the verdict. */
  datatype Reply = Reply(json: Json, inDesiredState: bool)

  /** The three operations of the `config` subcommand. */
  datatype ConfigSubCommand = Get | Set | Test

  /** How the process ends: its exit status and the document it printed, if any. */
  datatype Exit = Exit(code: ExitCode, printed: Option<RegistryConfig>)

  /** The slot of the value a document names. */
  function SlotOf(c: RegistryConfig): ValueSlot
    requires c.valueName.Some?
  {
    ValueSlot(c.keyPath, c.valueName.value)
  }

  /** A document as the engine receives it: validated, with `ensure` filled in. */
  predicate Prepared(c: RegistryConfig) {
    c.ensure.Some? && (c.valueData.Some? ==> c.valueName.Some?)
  }

  /** validate_config: value data without a value name is invalid input. */
  function ValidateConfig(c: RegistryConfig): (r: Result<(), ExitCode>)
    ensures r.Err? <==> c.valueData.Some? && c.valueName.None?
    ensures r.Err? ==> r.error == InvalidInput
  {
    if c.valueData.Some? && c.valueName.None? then Err(InvalidInput) else Ok(())
  }

  /**
   * The first steps of the `config` subcommand: validate, then default `ensure` to Present.
   * Nothing else in the document changes.
   */
  function Prepare(c: RegistryConfig): (r: Result<RegistryConfig, ExitCode>)
    ensures r.Err? <==> c.valueData.Some? && c.valueName.None?
    ensures r.Err? ==> r.error == InvalidInput
    ensures r.Ok? ==> Prepared(r.value)
    ensures r.Ok? ==> r.value.ensure == Some(if c.ensure == Some(Absent) then Absent else Present)
    ensures r.Ok? ==> r.value.(ensure := c.ensure) == c
  {
    assert c.ensure.Some? ==> c.ensure.value.Present? || c.ensure.value.Absent?;
    match ValidateConfig(c)
    case Err(e) => Err(e)
    case Ok(_) => Ok(if c.ensure.None? then c.(ensure := Some(Present)) else c)
  }

  /**
   * config_get: the key must open (not found is fatal too); with a value name the value must
   * be readable and of a supported kind. The printed document has only the key path and the
   * observed name and data. A serializer failure is a fatal store error here.
   */
  function GetReply(h: Hive, f: Faults, c: RegistryConfig, serializes: bool): (r: Result<RegistryConfig, ExitCode>)
    ensures r.Err? ==> r.error == RegistryError
    ensures r.Ok? <==> (serializes && c.keyPath in h.keys && c.keyPath !in f.open
      && (c.valueName.Some? ==>
            SlotOf(c) !in f.read && SlotOf(c) in h.values && !h.values[SlotOf(c)].data.RegNone?))
    ensures r.Ok? ==> (r.value.keyPath == c.keyPath && r.value.id.None? && r.value.ensure.None?
      && r.value.clobber.None? && r.value.inDesiredState.None?)
    ensures r.Ok? && c.valueName.None? ==> r.value.valueName.None? && r.value.valueData.None?
    ensures r.Ok? && c.valueName.Some? ==>
      r.value.valueName == Some(h.values[SlotOf(c)].name) && r.value.valueData.Some?
      && ConvertConfigregData(r.value.valueData.value) == h.values[SlotOf(c)].data
  {
    match OpenKey(h, f, c.keyPath)
    case Err(_) => Err(RegistryError)
    case Ok(_) =>
      var doc := RegistryConfig(None, c.keyPath, None, None, None, None, None);
      match c.valueName
      case None => if serializes then Ok(doc) else Err(RegistryError)
      case Some(name) =>
        match GetValue(h, f, c.keyPath, name)
        case Err(_) => Err(RegistryError)
        case Ok(v) =>
          match ConvertNtregData(v.data)
          case Err(e) => Err(e)
          case Ok(data) =>
            if serializes then Ok(doc.(valueName := Some(v.name), valueData := Some(data)))
            else Err(RegistryError)
  }

  /**
   * config_set's effect on the store. Without a value name: Present opens or creates the key,
   * Absent removes it with its subtree. With a value name the key is keyed or created first
   * (for Absent too); then Absent deletes the value (not found is fine), Present with data
   * writes it, and Present without data creates a missing value as REG_NONE and leaves an
   * existing one alone.
   */
  function SetEffect(h: Hive, f: Faults, c: RegistryConfig): (r: Result<Hive, ExitCode>)
    requires c.valueName.None? ==> c.ensure.Some?
    ensures r.Err? ==> r.error == InvalidInput || r.error == RegistryError
  {
    match c.valueName
    case None =>
      if c.ensure.value == Present then OpenOrCreateEffect(h, f, c.keyPath)
      else RemoveEffect(h, f, c.keyPath)
    case Some(name) =>
      match OpenOrCreateEffect(h, f, c.keyPath)
      case Err(e) => Err(e)
      case Ok(keyed) =>
        var slot := ValueSlot(c.keyPath, name);
        if c.ensure == Some(Absent) then
          if slot in f.write then Err(RegistryError)
          else Ok(keyed.(values := keyed.values - {slot}))
        else
          match c.valueData
          case Some(data) =>
            if slot in f.write then Err(RegistryError)
            else Ok(keyed.(values := keyed.values[slot := RegistryValue(name, ConvertConfigregData(data))]))
          case None =>
            match GetValue(keyed, f, c.keyPath, name)
            case Ok(_) => Ok(keyed)
            case Err(OtherError) => Err(RegistryError)
            case Err(ObjectNameNotFound) =>
              if slot in f.write then Err(RegistryError)
              else Ok(keyed.(values := keyed.values[slot := RegistryValue(name, RegNone)]))
  }

  /**
   * The store config_set leaves behind, whether it succeeds or stops with an error. A failed
   * Set changes no value and removes no key. A failed key removal changes nothing. Any other
   * failure keeps exactly the keys open_or_create_key created before it stopped. Nothing is
   * rolled back.
   */
  function SetStore(h: Hive, f: Faults, c: RegistryConfig): (r: Hive)
    requires c.valueName.None? ==> c.ensure.Some?
    ensures SetEffect(h, f, c).Ok? ==> r == SetEffect(h, f, c).value
    ensures SetEffect(h, f, c).Err? ==> r.values == h.values && h.keys <= r.keys
    ensures SetEffect(h, f, c).Err? && c.valueName.None? && c.ensure.value == Absent ==> r == h
    ensures SetEffect(h, f, c).Err? && (c.valueName.Some? || c.ensure.value == Present) ==>
      (CreationPlan(h, f, c.keyPath).Err? ==> r.keys == h.keys)
      && (CreationPlan(h, f, c.keyPath).Ok? ==>
            var ps := CreationPlan(h, f, c.keyPath).value;
            r.keys == h.keys + Members(ps[..FirstIn(ps, f.create)]))
  {
    match SetEffect(h, f, c)
    case Ok(after) => after
    case Err(_) =>
      if c.valueName.None? && c.ensure.value == Absent then h
      else OpenOrCreateStore(h, f, c.keyPath)
  }

  /**
   * config_set's reply: always in desired state; the document echoes the key path, the value
   * name and (for Present) the requested data, on top of the default document. A serializer
   * failure is a fatal store error.
   */
  function SetReply(h: Hive, f: Faults, c: RegistryConfig, serializes: bool): (r: Result<Reply, ExitCode>)
    requires c.valueName.None? ==> c.ensure.Some?
    ensures r.Ok? <==> serializes && SetEffect(h, f, c).Ok?
    ensures r.Err? ==> r.error == (if SetEffect(h, f, c).Err? then SetEffect(h, f, c).error else RegistryError)
    ensures r.Ok? ==> r.value.inDesiredState && r.value.json.Text?
    ensures r.Ok? ==> var doc := r.value.json.doc;
      && doc.id == Some(ID) && doc.keyPath == c.keyPath && doc.valueName == c.valueName
      && doc.valueData == (if c.valueName.Some? && c.ensure != Some(Absent) then c.valueData else None)
      && doc.ensure.None? && doc.clobber.None? && doc.inDesiredState.None?
  {
    match SetEffect(h, f, c)
    case Err(e) => Err(e)
    case Ok(_) =>
      var doc := Default().(keyPath := c.keyPath);
      var doc := if c.valueName.None? then doc else doc.(valueName := c.valueName);
      var doc := if c.valueName.Some? && c.ensure != Some(Absent) && c.valueData.Some?
                 then doc.(valueData := c.valueData) else doc;
      if serializes then Ok(Reply(Text(doc), true)) else Err(RegistryError)
  }

  /**
   * test_key: in desired state iff (Present <==> the key exists). The document is the default
   * one, whose key path stays empty except when an Absent key exists.
   */
  function TestKeyReply(h: Hive, f: Faults, c: RegistryConfig, serializes: bool): (r: Result<Reply, ExitCode>)
    requires c.ensure.Some?
    ensures r.Err? <==> c.keyPath in f.open
    ensures r.Err? ==> r.error == RegistryError
    ensures r.Ok? ==> r.value.inDesiredState == ((c.ensure.value == Present) == (c.keyPath in h.keys))
    ensures r.Ok? ==> r.value.json == ToJson(Default().(keyPath :=
      if c.ensure.value == Absent && c.keyPath in h.keys then c.keyPath else ""), serializes)
  {
    match OpenKey(h, f, c.keyPath)
    case Err(OtherError) => Err(RegistryError)
    case _ =>
      var keyExists := OpenKey(h, f, c.keyPath).Ok?;
      var result := Default();
      match c.ensure.value
      case Present =>
        Ok(Reply(ToJson(result, serializes), keyExists))
      case Absent =>
        var result := if keyExists then result.(keyPath := c.keyPath) else result;
        Ok(Reply(ToJson(result, serializes), !keyExists))
  }

  /**
   * test_value: a missing key is not in desired state and reports an empty key path. With the
   * key present, Absent is in desired state iff the value is missing; Present needs the value
   * and reg_values_are_eq. An observed value is echoed in the document; one holding REG_NONE
   * cannot be converted and is a fatal store error.
   */
  function TestValueReply(h: Hive, f: Faults, c: RegistryConfig, serializes: bool): (r: Result<Reply, ExitCode>)
    requires c.valueName.Some? && c.ensure.Some?
    ensures r.Err? <==> (c.keyPath in f.open
      || (c.keyPath in h.keys && (SlotOf(c) in f.read
          || (SlotOf(c) in h.values && h.values[SlotOf(c)].data.RegNone?))))
    ensures r.Err? ==> r.error == RegistryError
    ensures r.Ok? && c.keyPath !in h.keys ==>
      r.value == Reply(ToJson(Default(), serializes), false)
    ensures r.Ok? && c.keyPath in h.keys ==>
      r.value.inDesiredState == if c.ensure.value == Absent then SlotOf(c) !in h.values
                                else SlotOf(c) in h.values && RegValuesAreEq(c, h.values[SlotOf(c)])
    ensures r.Ok? && c.keyPath in h.keys && SlotOf(c) !in h.values ==>
      r.value.json == ToJson(Default().(keyPath := c.keyPath), serializes)
    ensures r.Ok? && c.keyPath in h.keys && SlotOf(c) in h.values && serializes ==>
      r.value.json.Text? &&
      var doc := r.value.json.doc;
      && doc.id == Some(ID) && doc.keyPath == c.keyPath
      && doc.valueName == Some(h.values[SlotOf(c)].name)
      && doc.valueData.Some? && ConvertConfigregData(doc.valueData.value) == h.values[SlotOf(c)].data
    ensures r.Ok? && c.keyPath in h.keys && SlotOf(c) in h.values ==>
      ConvertNtregData(h.values[SlotOf(c)].data).Ok? &&
      r.value.json == ToJson(Default().(keyPath := c.keyPath,
                                        valueName := Some(h.values[SlotOf(c)].name),
                                        valueData := Some(ConvertNtregData(h.values[SlotOf(c)].data).value)), serializes)
  {
    match OpenKey(h, f, c.keyPath)
    case Err(OtherError) => Err(RegistryError)
    case Err(ObjectNameNotFound) => Ok(Reply(ToJson(Default().(keyPath := ""), serializes), false))
    case Ok(_) =>
      var result := Default().(keyPath := c.keyPath);
      match GetValue(h, f, c.keyPath, c.valueName.value)
      case Err(OtherError) => Err(RegistryError)
      case Err(ObjectNameNotFound) =>
        Ok(Reply(ToJson(result, serializes), c.ensure.value == Absent))
      case Ok(observed) =>
        match ConvertNtregData(observed.data)
        case Err(e) => Err(e)
        case Ok(data) =>
          var result := result.(valueName := Some(observed.name), valueData := Some(data));
          Ok(Reply(ToJson(result, serializes), c.ensure.value == Present && RegValuesAreEq(c, observed)))
  }

  /**
   * config_test: a key test without a value name, a value test with one. Its only fatal
   * outcome is a store error, and a serializer failure shows as an empty JSON string.
   */
  function TestReply(h: Hive, f: Faults, c: RegistryConfig, serializes: bool): (r: Result<Reply, ExitCode>)
    requires c.ensure.Some?
    ensures r.Err? ==> r.error == RegistryError
    ensures r.Ok? ==> (r.value.json.EmptyString? <==> !serializes)
  {
    if c.valueName.None? then TestKeyReply(h, f, c, serializes) else TestValueReply(h, f, c, serializes)
  }

  /**
   * The end of main for Set and Test: an empty JSON string exits 5; otherwise the document is
   * printed and the status is 4 when not in desired state, 0 when in it.
   */
  function ExitForReply(reply: Reply): (e: Exit)
    ensures e.code == JsonSerializationFailed <==> reply.json.EmptyString?
    ensures e.code == NotInDesiredState <==> reply.json.Text? && !reply.inDesiredState
    ensures e.code == Success <==> reply.json.Text? && reply.inDesiredState
    ensures e.printed == if reply.json.Text? then Some(reply.json.doc) else None
  {
    match reply.json
    case EmptyString => Exit(JsonSerializationFailed, None)
    case Text(doc) => Exit(if reply.inDesiredState then Success else NotInDesiredState, Some(doc))
  }

  /**
   * The `config` branch of main (registry/src/main.rs:91-123) on a parsed input document:
   * invalid input exits 2 before the store is touched; Get prints and exits 0; Set and Test
   * map their reply through ExitForReply; every fatal error exits with its own status.
   */
  function RunOutcome(h: Hive, f: Faults, sub: ConfigSubCommand, input: RegistryConfig, serializes: bool): (e: Exit)
    ensures input.valueData.Some? && input.valueName.None? ==> e == Exit(InvalidInput, None)
    ensures sub != Test ==> e.code != NotInDesiredState && e.code != JsonSerializationFailed
    ensures e.code == JsonSerializationFailed ==> !serializes
    ensures e.printed.Some? <==> (e.code == Success || e.code == NotInDesiredState)
    ensures Prepare(input).Err? ==> e == Exit(Prepare(input).error, None)
    ensures Prepare(input).Ok? && sub == Get ==> var r := GetReply(h, f, Prepare(input).value, serializes);
      e == if r.Ok? then Exit(Success, Some(r.value)) else Exit(r.error, None)
    ensures Prepare(input).Ok? && sub == Set ==> var r := SetReply(h, f, Prepare(input).value, serializes);
      e == if r.Ok? then Exit(Success, Some(r.value.json.doc)) else Exit(r.error, None)
    ensures Prepare(input).Ok? && sub == Test ==> var r := TestReply(h, f, Prepare(input).value, serializes);
      r.Err? ==> e == Exit(RegistryError, None)
    ensures Prepare(input).Ok? && sub == Test ==> var r := TestReply(h, f, Prepare(input).value, serializes);
      r.Ok? ==> e == ExitForReply(r.value)
    ensures e.code == JsonSerializationFailed <==> (sub == Test && Prepare(input).Ok?
      && TestReply(h, f, Prepare(input).value, serializes).Ok? && !serializes)
    ensures e.code == NotInDesiredState <==> (sub == Test && Prepare(input).Ok?
      && var r := TestReply(h, f, Prepare(input).value, serializes);
      r.Ok? && serializes && !r.value.inDesiredState)
    ensures e.code == Success && sub == Test ==>
      var r := TestReply(h, f, Prepare(input).value, serializes);
      r.Ok? && r.value.inDesiredState && r.value.json.Text? && e.printed == Some(r.value.json.doc)
  {
    match Prepare(input)
    case Err(e) => Exit(e, None)
    case Ok(c) =>
      match sub
      case Get =>
        (match GetReply(h, f, c, serializes)
         case Err(e) => Exit(e, None)
         case Ok(doc) => Exit(Success, Some(doc)))
      case Set =>
        (match SetReply(h, f, c, serializes)
         case Err(e) => Exit(e, None)
         case Ok(reply) => ExitForReply(reply))
      case Test =>
        (match TestReply(h, f, c, serializes)
         case Err(e) => Exit(e, None)
         case Ok(reply) => ExitForReply(reply))
  }
}
