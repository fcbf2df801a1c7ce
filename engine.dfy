/**
 * The reconciliation engine as the resource runs it (registry/src/main.rs:91-270, 376-523):
 * methods that query and update a `Store` step by step and fill the reply document field by
 * field. Each is proved to agree with its function in module Reconcile.
 */
module Engine {
  import opened Wrappers
  import opened Exits
  import opened Config
  import opened Paths
  import opened KeyStore
  import opened Resolver
  import opened Equality
  import opened Reconcile

  /** config_get (registry/src/main.rs:145-182). Reads the store, never changes it. */
  method ConfigGet(store: Store, config: RegistryConfig, serializes: bool) returns (r: Result<RegistryConfig, ExitCode>)
    ensures r == GetReply(store.Snapshot(), store.faults, config, serializes)
  {
    if store.Open(config.keyPath).Err? {
      return Err(RegistryError);
    }
    var regResult := RegistryConfig(None, config.keyPath, None, None, None, None, None);
    if config.valueName.Some? {
      var regValue := store.Get(config.keyPath, config.valueName.value);
      if regValue.Err? {
        return Err(RegistryError);
      }
      var data := ConvertNtregData(regValue.value.data);
      if data.Err? {
        return Err(data.error);
      }
      regResult := regResult.(valueName := Some(regValue.value.name), valueData := Some(data.value));
    }
    if !serializes {
      return Err(RegistryError);
    }
    return Ok(regResult);
  }

  /** config_set (registry/src/main.rs:184-270). */
  method ConfigSet(store: Store, config: RegistryConfig, serializes: bool) returns (r: Result<Reply, ExitCode>)
    requires store.Valid() && (config.valueName.None? ==> config.ensure.Some?)
    modifies store
    ensures store.Valid()
    ensures r == SetReply(old(store.Snapshot()), store.faults, config, serializes)
    ensures store.Snapshot() == SetStore(old(store.Snapshot()), store.faults, config)
  {
    var regResult := Default().(keyPath := config.keyPath);
    match config.valueName {
      case None =>
        if config.ensure.value == Present {
          var key := OpenOrCreateKey(store, config.keyPath);
          if key.Err? {
            return Err(key.error);
          }
        } else {
          var removed := RemoveKey(store, config.keyPath);
          if removed.Err? {
            return Err(removed.error);
          }
        }
      case Some(valueName) =>
        regResult := regResult.(valueName := Some(valueName));
        var written := SetNamedValue(store, config);
        if written.Err? {
          return Err(written.error);
        }
        if config.ensure != Some(Absent) && config.valueData.Some? {
          regResult := regResult.(valueData := config.valueData);
        }
    }
    if !serializes {
      return Err(RegistryError);
    }
    return Ok(Reply(Text(regResult), true));
  }

  /**
   * The value branch of config_set (registry/src/main.rs:201-257): open or create the key,
   * then delete, write or make sure of the value.
   */
  method SetNamedValue(store: Store, config: RegistryConfig) returns (r: Result<(), ExitCode>)
    requires store.Valid() && config.valueName.Some?
    modifies store
    ensures store.Valid()
    ensures r.Ok? <==> SetEffect(old(store.Snapshot()), store.faults, config).Ok?
    ensures r.Err? ==> r.error == SetEffect(old(store.Snapshot()), store.faults, config).error
    ensures store.Snapshot() == SetStore(old(store.Snapshot()), store.faults, config)
  {
    var valueName := config.valueName.value;
    var key := OpenOrCreateKey(store, config.keyPath);
    if key.Err? {
      return Err(key.error);
    }
    ghost var keyed := store.Snapshot();
    var slot := ValueSlot(key.value, valueName);
    if config.ensure == Some(Absent) {
      var deleted := store.DeleteValue(key.value, valueName);
      if deleted == Err(OtherError) {
        return Err(RegistryError);
      }
      assert deleted.Err? ==> keyed.values - {slot} == keyed.values;
      return Ok(());
    }
    match config.valueData {
      case Some(valueData) =>
        var written := store.SetValue(key.value, valueName, ConvertConfigregData(valueData));
        if written.Err? {
          return Err(RegistryError);
        }
      case None =>
        match store.Get(key.value, valueName) {
          case Ok(_) =>
          case Err(ObjectNameNotFound) =>
            var written := store.SetValue(key.value, valueName, RegNone);
            if written.Err? {
              return Err(RegistryError);
            }
          case Err(OtherError) =>
            return Err(RegistryError);
        }
    }
    return Ok(());
  }

  /** config_test (registry/src/main.rs:383-390): dispatch on whether a value is named. */
  method ConfigTest(store: Store, config: RegistryConfig, serializes: bool) returns (r: Result<Reply, ExitCode>)
    requires config.ensure.Some?
    ensures r == TestReply(store.Snapshot(), store.faults, config, serializes)
  {
    if config.valueName.None? {
      r := TestKey(store, config, serializes);
    } else {
      r := TestValue(store, config, serializes);
    }
  }

  /** test_value (registry/src/main.rs:392-460). Reads the store, never changes it. */
  method TestValue(store: Store, config: RegistryConfig, serializes: bool) returns (r: Result<Reply, ExitCode>)
    requires config.valueName.Some? && config.ensure.Some?
    ensures r == TestValueReply(store.Snapshot(), store.faults, config, serializes)
  {
    var regResult := Default();
    var inDesiredState := true;
    match store.Open(config.keyPath) {
      case Ok(_) =>
      case Err(ObjectNameNotFound) =>
        regResult := regResult.(keyPath := "");
        return Ok(Reply(ToJson(regResult, serializes), false));
      case Err(OtherError) =>
        return Err(RegistryError);
    }
    regResult := regResult.(keyPath := config.keyPath);
    var valueName := config.valueName.value;
    var valueExists := false;
    var regValue: RegistryValue;
    match store.Get(config.keyPath, valueName) {
      case Ok(value) =>
        valueExists := true;
        var data := ConvertNtregData(value.data);
        if data.Err? {
          return Err(data.error);
        }
        regResult := regResult.(valueName := Some(value.name), valueData := Some(data.value));
        regValue := value;
      case Err(ObjectNameNotFound) =>
        regValue := RegistryValue("", RegNone);
      case Err(OtherError) =>
        return Err(RegistryError);
    }
    match config.ensure.value {
      case Present =>
        if valueExists {
          inDesiredState := RegValuesAreEq(config, regValue);
        } else {
          inDesiredState := false;
        }
      case Absent =>
        if valueExists {
          inDesiredState := false;
        }
    }
    return Ok(Reply(ToJson(regResult, serializes), inDesiredState));
  }

  /** test_key (registry/src/main.rs:485-523). Reads the store, never changes it. */
  method TestKey(store: Store, config: RegistryConfig, serializes: bool) returns (r: Result<Reply, ExitCode>)
    requires config.ensure.Some?
    ensures r == TestKeyReply(store.Snapshot(), store.faults, config, serializes)
  {
    var regResult := Default();
    var keyExists: bool;
    match store.Open(config.keyPath) {
      case Ok(_) =>
        keyExists := true;
      case Err(ObjectNameNotFound) =>
        keyExists := false;
      case Err(OtherError) =>
        return Err(RegistryError);
    }
    var inDesiredState := true;
    match config.ensure.value {
      case Present =>
        if !keyExists {
          regResult := regResult.(keyPath := "");
          inDesiredState := false;
        }
      case Absent =>
        if keyExists {
          regResult := regResult.(keyPath := config.keyPath);
          inDesiredState := false;
        }
    }
    return Ok(Reply(ToJson(regResult, serializes), inDesiredState));
  }

  /**
   * The `config` branch of main (registry/src/main.rs:91-123) on a parsed input document:
   * validate, default `ensure`, dispatch, and map the outcome to an exit status.
   */
  method RunConfig(store: Store, subcommand: ConfigSubCommand, input: RegistryConfig, serializes: bool) returns (e: Exit)
    requires store.Valid()
    modifies store
    ensures store.Valid()
    ensures e == RunOutcome(old(store.Snapshot()), store.faults, subcommand, input, serializes)
    ensures subcommand != Set || Prepare(input).Err? ==> store.Snapshot() == old(store.Snapshot())
    ensures subcommand == Set && Prepare(input).Ok? ==>
      store.Snapshot() == SetStore(old(store.Snapshot()), store.faults, Prepare(input).value)
  {
    var config := input;
    var valid := ValidateConfig(config);
    if valid.Err? {
      return Exit(valid.error, None);
    }
    if config.ensure.None? {
      config := config.(ensure := Some(Present));
    }
    var reply: Result<Reply, ExitCode>;
    match subcommand {
      case Get =>
        var got := ConfigGet(store, config, serializes);
        if got.Err? {
          return Exit(got.error, None);
        }
        return Exit(Success, Some(got.value));
      case Set =>
        reply := ConfigSet(store, config, serializes);
      case Test =>
        reply := ConfigTest(store, config, serializes);
    }
    if reply.Err? {
      return Exit(reply.error, None);
    }
    if reply.value.json.EmptyString? {
      return Exit(JsonSerializationFailed, None);
    }
    if !reply.value.inDesiredState {
      return Exit(NotInDesiredState, Some(reply.value.json.doc));
    }
    return Exit(Success, Some(reply.value.json.doc));
  }
}
