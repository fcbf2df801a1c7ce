/**
 * Conversions between document data and store data, and the value comparison Test uses
 * (registry/src/main.rs:462-483, 525-549).
 */
module Equality {
  import opened Wrappers
  import opened Exits
  import opened Config
  import opened KeyStore

  /**
   * convert_ntreg_data: store data to document data, kind by kind; REG_NONE has no document
   * counterpart and is a fatal store error.
   */
  function ConvertNtregData(data: StoreData): (r: Result<RegistryValueData, ExitCode>)
    ensures r.Err? <==> data.RegNone?
    ensures r.Err? ==> r.error == RegistryError
    ensures r.Ok? ==> ConvertConfigregData(r.value) == data
  {
    match data
    case RegSz(s) => Ok(String(s))
    case RegMultiSz(ss) => Ok(MultiString(ss))
    case RegBinary(bytes) => Ok(Binary(bytes))
    case RegDword(d) => Ok(DWord(d))
    case RegQword(q) => Ok(QWord(q))
    case RegExpandSz(s) => Ok(ExpandString(s))
    case RegNone => Err(RegistryError)
  }

  /** convert_configreg_data: document data to store data; never produces REG_NONE. */
  function ConvertConfigregData(data: RegistryValueData): (r: StoreData)
    ensures !r.RegNone?
  {
    match data
    case String(s) => RegSz(s)
    case MultiString(ss) => RegMultiSz(ss)
    case Binary(bytes) => RegBinary(bytes)
    case DWord(d) => RegDword(d)
    case QWord(q) => RegQword(q)
    case ExpandString(s) => RegExpandSz(s)
  }

  /** Writing document data to the store and reading it back gives the same document data. */
  lemma ConvertRoundTrip(data: RegistryValueData)
    ensures ConvertNtregData(ConvertConfigregData(data)) == Ok(data)
  {
  }

  /**
   * reg_values_are_eq: the observed value satisfies the document when no data was asked for,
   * whatever its name; otherwise its name must equal `valueName`, its data must not be
   * REG_NONE and it must convert to exactly the requested data.
   */
  function RegValuesAreEq(c: RegistryConfig, observed: RegistryValue): (eq: bool)
    requires c.valueName.Some?
    ensures eq <==> c.valueData.None?
                    || (observed.name == c.valueName.value && !observed.data.RegNone?
                        && ConvertNtregData(observed.data) == Ok(c.valueData.value))
  {
    var nameMatches := observed.name == c.valueName.value;
    if c.valueData.Some? && observed.data == RegNone then false
    else if c.valueData.None? then true
    else nameMatches && ConvertNtregData(observed.data) == Ok(c.valueData.value)
  }
}
