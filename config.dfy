/** The desired-state document that the engine reads and writes (registry/src/config.rs). */
module Config {
  import opened Wrappers

  /** Schema URL a default document carries as its `$id`. */
  const ID: string := "https://developer.microsoft.com/json-schemas/windows/registry/20230303/Microsoft.Windows.Registry.schema.json"

  /** Whether the key or value should exist; the engine matches on both cases exhaustively. */
  datatype EnsureKind = Present | Absent

  newtype U8 = x: int | 0 <= x < 0x100
  newtype U32 = x: int | 0 <= x < 0x1_0000_0000
  newtype U64 = x: int | 0 <= x < 0x1_0000_0000_0000_0000

  /**
   * The six value kinds a document can carry. Dafny's equality on a datatype is structural
   * (same constructor, equal payload), which is what `#[derive(PartialEq)]` gives the source.
   */
  datatype RegistryValueData =
    | String(string)
    | ExpandString(string)
    | Binary(seq<U8>)
    | DWord(U32)
    | MultiString(seq<string>)
    | QWord(U64)

  /** `RegistryConfig`: one key, at most one named value under it, and the metadata fields. */
  datatype RegistryConfig = RegistryConfig(
    id: Option<string>,
    keyPath: string,
    valueName: Option<string>,
    valueData: Option<RegistryValueData>,
    ensure: Option<EnsureKind>,
    clobber: Option<bool>,
    inDesiredState: Option<bool>)

  /** The document `Default::default()` builds: only `$id` is set, the key path is empty. */
  function Default(): (c: RegistryConfig)
    ensures c.id == Some(ID) && c.keyPath == ""
    ensures c.valueName.None? && c.valueData.None? && c.ensure.None?
    ensures c.clobber.None? && c.inDesiredState.None?
  {
    RegistryConfig(Some(ID), "", None, None, None, None, None)
  }

  /**
   * What `to_json` hands back: the serialized document (kept abstract as the document
   * itself) or, when serialization fails, the empty string.
   */
  datatype Json = Text(doc: RegistryConfig) | EmptyString

  /**
   * `to_json`: never an error value. Whether the serializer succeeds is outside the model and
   * arrives as `serializes`.
   */
  function ToJson(c: RegistryConfig, serializes: bool): (j: Json)
    ensures j.EmptyString? <==> !serializes
    ensures j.Text? ==> j.doc == c
  {
    if serializes then Text(c) else EmptyString
  }
}
