# Registry resource: reconciliation core in Dafny

This project models the core of the Windows registry resource of a desired-state configuration
framework. A caller passes one JSON document naming a registry key and, optionally, one value
under it, and asks for `config get`, `config set` or `config test`:

- **Get** reports the key path, the observed value name and the observed value data.
- **Set** makes the registry match the document. It creates missing ancestor keys in order,
  removes a key with its subtree, or writes, deletes or makes sure of a value.
- **Test** reports whether the registry already matches the document.

The process reports its result through its exit status (0 to 5).

The model has these parts:

- **Document** (`config.dfy`):
  - the desired-state record, with its six value-data kinds and `$id`-defaulting `Default`;
  - the JSON serializer, which yields an empty string when it fails.
- **Exit statuses** (`exits.dfy`).
- **Key paths** (`paths.dfy`): backslash-separated paths, the parent of a path (the text before
  its last `\`), and joining a parent with subkey names.
- **Store** (`keystore.dfy`):
  - an in-memory stand-in for the native registry. It is a class `Store` whose fields are the
    set of existing keys and the map of stored values.
  - its primitives (create a subkey, delete a subtree, set a value, delete a value) update those
    fields in place.
  - its invariant is the registry's tree shape: the parent of every key exists, and every value
    lives under an existing key. Each primitive keeps it.
  - a fixed `Faults` record decides which primitive calls fail with an error other than
    "object name not found". This lets every error branch of the source be reached.
- **Path repair** (`resolver.dfy`):
  - the walk up to the deepest existing ancestor;
  - the ordered creation of the missing keys;
  - key removal.
  Each is a function over a store value (`Hive`) and a method over `Store` proved to agree with it.
- **Equality** (`equality.dfy`): the data conversions between store and document, and
  `reg_values_are_eq`.
- **Reconciliation** (`reconcile.dfy`): Get, Set and Test, and the mapping to an exit status, as
  functions over a `Hive`.
- **Engine** (`engine.dfy`): the same operations as methods that run step by step against a
  `Store`. Each method's reply or exit is proved equal to its function in `reconcile.dfy`.
  - Get and Test leave the store unchanged.
  - After Set, whether it succeeds or fails, the store equals `Reconcile.SetStore` of the old
    store. On success that is the effect `Reconcile.SetEffect`.
  - On failure Set changes no value and removes no key. The keys it created before the failure
    stay: nothing is rolled back.
- **Properties** (`properties.dfy`) and **scenarios** (`scenarios.dfy`):
  - what Set leaves behind;
  - that Set is idempotent;
  - what Test and Get report right after a Set;
  - the documents of the resource's own unit tests;
  - a path whose two ancestors are missing.

Behaviour worth knowing, which the model keeps as the code has it:

- **Set without data.** Set with `_ensure: Present`, a value name and no value data creates a
  missing value as REG_NONE. Get or Test on that same document afterwards stops with status 3,
  because the conversion from store data rejects REG_NONE (registry/src/main.rs:224, 533-536).
  This is proved by `Properties.SetWithoutDataThenTestFails`.
- **`$id` in replies.** Set and Test build their reply from `Default`, which fills in `$id`
  (registry/src/config.rs:58-69). So their document carries `$id`, although the JSON expected by
  the unit tests (registry/src/main.rs:551-582) does not show it. The model follows the code
  here: `Scenarios.RegistryValuePresent` states a reply with `id == Some(ID)`.
- **Fields missing from Get's reply.** The record literal in `config_get`
  (registry/src/main.rs:154-160) names neither `$id` nor `_inDesiredState`. The model treats both
  as absent.
- **Serializer failures.** Get and Set treat a serializer failure as a registry error (status 3).
  Test goes through `to_json`, which returns an empty string, so the process exits with status 5.
- **Value name ignored without data.** `reg_values_are_eq` ignores a name mismatch when the
  document has no value data (registry/src/main.rs:465-474).
- **Partial creation.** A failure partway through creating missing ancestors is fatal, and the
  keys created before it stay. `Resolver.OpenOrCreateStore` states exactly which keys remain,
  and `Resolver.OpenOrCreateKey` and `Engine.ConfigSet` are proved to leave that store.

## Model

| member | source | states |
|---|---|---|
| Exits.CodesAreDistinct | registry/src/main.rs:20-25 | the six exit outcomes have distinct status numbers, all in 0..5 |
| Config.Default | registry/src/config.rs:58-70 | the default document has the schema `$id`, an empty key path and every other field absent |
| Config.ToJson | registry/src/config.rs:44-54 | serialization gives the document's text, or the empty string exactly when the serializer fails |
| Paths.LastIndexOf | registry/src/main.rs:273 | `rfind`: no index iff the character does not occur; otherwise the index holds the character and nothing after it does |
| Paths.GetParentKeyPath | registry/src/main.rs:272-280 | a path without `\` is invalid input (status 2); otherwise the parent is a proper prefix, and the path is the parent, `\` and a last segment without `\` |
| Paths.ParentOfChild | registry/src/main.rs:272-280 | the parent of `parent\name` is `parent` when `name` has no `\` |
| Paths.JoinSnoc | registry/src/main.rs:318-328 | appending a subkey name adds it as a child of the path joined so far |
| Paths.PrefixesStepwise | registry/src/main.rs:318-328 | the keys created in turn are each the child of the one before, starting from the parent and ending at the full path |
| KeyStore.OpenKey | registry/src/main.rs:307-313 | `RegistryKey::new` opens exactly the existing keys that do not fail; a missing key that does not fail reports "object name not found" |
| KeyStore.GetValue | registry/src/main.rs:419-441 | `get_value` returns exactly the stored value of an existing, readable slot; an empty slot that does not fail reports "object name not found" |
| KeyStore.WithoutTreeWellFormed | registry/src/main.rs:285 | removing a whole subtree leaves the registry a tree |
| KeyStore.WithoutTree | registry/src/main.rs:285 | `delete(true)` leaves exactly the keys and values outside the deleted subtree, with their data unchanged |
| KeyStore.Store.CreateKey | registry/src/main.rs:319-327 | `create_key` adds exactly `parent\name` and logs it as created, or fails leaving the store unchanged |
| KeyStore.Store.DeleteTree | registry/src/main.rs:285-291 | deleting a key removes its subtree, or fails leaving the store unchanged when some key in it cannot be deleted |
| KeyStore.Store.SetValue | registry/src/main.rs:209-215 | `set_value` stores the value at its slot and changes nothing else, or fails leaving the store unchanged |
| KeyStore.Store.DeleteValue | registry/src/main.rs:244-255 | `delete_value` removes the slot, reports not-found when it is empty, or fails leaving the store unchanged |
| Resolver.Walk | registry/src/main.rs:350-371 | the walk up the path fails only with invalid input or a registry error; WalkFailure says which, and at which path the climb through not-found paths stopped |
| Resolver.WalkSound | registry/src/main.rs:350-371 | a successful walk stops at an existing parent; the subkeys it prepended rebuild the path it started from and hold no `\`; every longer ancestor it tried was not found |
| Resolver.WalkFailure | registry/src/main.rs:350-371 | a failed walk climbed from its start through paths that were all not found, one segment at a time, and stopped at a path that did not open: status 3 exactly when that open failed other than not-found, status 2 exactly when it was not found and has no `\` left |
| Resolver.ValidParentAndSubkeys | registry/src/main.rs:342-348 | the search for the deepest existing ancestor fails only with invalid input or a registry error |
| Resolver.ValidParentAndSubkeysSound | registry/src/main.rs:342-374 | the parent and the subkeys rebuild the key path; there is at least one subkey and none contains `\`; the parent exists, and every deeper ancestor is missing |
| Resolver.GetValidParentKeyAndSubkeys | registry/src/main.rs:342-374 | the loop's result equals the specification walk, so it inherits its soundness |
| Resolver.CreationPlan | registry/src/main.rs:305-316 | the keys to create fail only with invalid input or a registry error; an open of the key itself that fails other than not-found is a registry error (status 3) |
| Resolver.CreationPlanSound | registry/src/main.rs:305-340 | the keys to create are none iff the key exists; otherwise exactly the missing ancestors and the key, outermost first, each the child of the one before |
| Resolver.CreationPlanFailure | registry/src/main.rs:305-374 | a failed plan climbed from the key through paths that were all not found and stopped at one that did not open: status 3 exactly when that open failed other than not-found (main.rs:331-334, 364-367), status 2 exactly when it was not found and has no `\` (main.rs:275-277) |
| Resolver.FirstIn | registry/src/main.rs:318-328 | the index of the first planned key whose creation fails: all keys before it succeed |
| Resolver.CreateSubkeys | registry/src/main.rs:317-329 | given planned keys that are each the child of the one before, the loop creates them in order up to the first failing one; it returns the deepest key, or a registry error at the failure |
| Resolver.OpenOrCreateKey | registry/src/main.rs:305-340 | an existing key is returned untouched; otherwise exactly the planned keys up to the first failure are created, in order; the new store equals OpenOrCreateStore on success and failure alike |
| Resolver.OpenOrCreateEffect | registry/src/main.rs:305-340 | open-or-create fails only with invalid input or a registry error |
| Resolver.OpenOrCreateStore | registry/src/main.rs:305-340 | the store left by open-or-create, on success or failure: no value changes; the new keys are exactly the planned keys before the first failing creation; a failed plan changes nothing |
| Resolver.OpenOrCreateStoreWellFormed | registry/src/main.rs:317-329 | open-or-create keeps the registry a tree even when it stops partway, because each key is created under its parent |
| Resolver.OpenOrCreateOutcome | registry/src/main.rs:305-340 | a store and result that follow the creation plan up to its first failing creation are the effect on success and OpenOrCreateStore in every case |
| Resolver.OpenOrCreateEffectSound | registry/src/main.rs:305-340 | after open-or-create the key exists, no value changed and no key vanished; an existing key leaves the store as it was |
| Resolver.RemoveEffect | registry/src/main.rs:282-303 | removing a key fails, always with a registry error, exactly when its open fails other than not-found or some key of its subtree cannot be deleted; a key that is not found counts as removed and changes nothing |
| Resolver.RemoveEffectSound | registry/src/main.rs:282-303 | after removal the key is gone; when it existed the new store is exactly the old one without that subtree, keys and values alike; when it was not found nothing changed; removing again changes nothing |
| Resolver.RemoveKey | registry/src/main.rs:282-303 | the method's effect and error equal the specification function's; on error the store is unchanged |
| Equality.ConvertNtregData | registry/src/main.rs:525-538 | store data converts unless it is REG_NONE (a registry error), and converting back gives the original |
| Equality.ConvertConfigregData | registry/src/main.rs:540-549 | document data never converts to REG_NONE |
| Equality.ConvertRoundTrip | registry/src/main.rs:525-549 | writing document data and reading it back gives the same document data |
| Equality.RegValuesAreEq | registry/src/main.rs:462-483 | without requested data any observed value matches; with data, the name must match and the observed data must be convertible and equal to the requested data |
| Reconcile.ValidateConfig | registry/src/main.rs:376-381 | the document is rejected iff it has value data without a value name, and then with invalid input (status 2) |
| Reconcile.Prepare | registry/src/main.rs:94-97 | data without a name is invalid input (status 2); otherwise the document is unchanged except that a missing `_ensure` becomes Present |
| Reconcile.GetReply | registry/src/main.rs:145-182 | Get succeeds iff the key opens and the named value (if any) is readable and not REG_NONE; the reply has the key path and the observed name and data |
| Reconcile.SetEffect | registry/src/main.rs:184-259 | Set fails only with invalid input or a registry error |
| Reconcile.SetStore | registry/src/main.rs:184-259 | the store Set leaves: the effect on success; on failure no value changed and no key removed, a failed key removal changes nothing, and otherwise exactly the keys created before the failure were added |
| Reconcile.SetReply | registry/src/main.rs:184-270 | Set's reply is always in desired state; it echoes `$id`, the key path, the value name and (unless Absent) the requested data |
| Reconcile.TestKeyReply | registry/src/main.rs:485-523 | in desired state iff (Present iff the key exists); the reply's key path is empty except for an Absent key that exists |
| Reconcile.TestValueReply | registry/src/main.rs:392-460 | the verdict and the whole reply document of a value test in every branch: the missing key, the missing value, the REG_NONE error, and an observed value echoed as the default document with the key path, its name and its converted data |
| Reconcile.TestReply | registry/src/main.rs:383-390 | Test's only fatal outcome is a registry error; serializer failure shows as an empty JSON string |
| Reconcile.ExitForReply | registry/src/main.rs:112-123 | empty JSON exits 5; otherwise the document is printed and the exit is 4 when not in desired state, 0 when in it |
| Reconcile.RunOutcome | registry/src/main.rs:91-123 | invalid input exits 2 with nothing printed; any error of Get, Set or Test exits with its own status and prints nothing; Get prints GetReply's document and exits 0; a successful Set prints its reply and exits 0; a Test reply goes through ExitForReply; exit 4 exactly when Test's reply serializes and is not in desired state; exit 5 exactly when Test's reply does not serialize |
| Engine.ConfigGet | registry/src/main.rs:145-182 | the method's reply equals GetReply on the current store |
| Engine.ConfigSet | registry/src/main.rs:184-270 | the method's reply equals SetReply, and the new store equals SetStore of the old one, whether Set succeeds or fails |
| Engine.SetNamedValue | registry/src/main.rs:201-257 | the value branch of Set succeeds and fails exactly as SetEffect says, and leaves the store SetStore gives, also on failure |
| Engine.ConfigTest | registry/src/main.rs:383-390 | the method's reply equals TestReply on the current store |
| Engine.TestValue | registry/src/main.rs:392-460 | the method's reply equals TestValueReply on the current store |
| Engine.TestKey | registry/src/main.rs:485-523 | the method's reply equals TestKeyReply on the current store |
| Engine.RunConfig | registry/src/main.rs:91-123 | the exit equals RunOutcome; Get, Test and rejected input leave the store unchanged; Set leaves the store SetStore gives, on success or failure |
| Properties.SetKeySound | registry/src/main.rs:190-199 | after a key-level Set, the key exists with no value changed and no key lost (Present), or the store is exactly the old one without the key's subtree (Absent) |
| Properties.SetValueSound | registry/src/main.rs:201-257 | a value-level Set leaves the key existing and changes values only at the named slot: removed, written, or kept (REG_NONE when it was missing) |
| Properties.SetValueResult | registry/src/main.rs:201-257 | a successful value-level Set keeps the keys open-or-create left, and its values are the old ones with only the named slot removed, written, or filled with REG_NONE when missing |
| Properties.SetValueAbsentSound | registry/src/main.rs:242-256 | Set Absent of a value succeeds exactly when its key opens or is created and deleting the value does not fail; a value already missing under an existing key leaves the store as it was |
| Properties.SetValuePresentSound | registry/src/main.rs:201-240 | Set Present of a value overwrites: with data it succeeds exactly when its key opens or is created and the write does not fail; without data it needs a readable value and writes only when the value is missing |
| Properties.SetKeepsTree | registry/src/main.rs:184-259 | Set keeps the registry a tree with values under existing keys, also when it fails partway |
| Properties.SetValueTouchesOnlyItsSlot | registry/src/main.rs:201-257 | a successful value-level Set keeps the keys open-or-create left and touches no value slot but its own |
| Properties.SetIdempotent | registry/src/main.rs:184-270 | repeating a successful Set changes nothing and gives the same reply |
| Properties.SetValueIdempotent | registry/src/main.rs:201-257 | a second value-level Set on the store the first one left succeeds and changes nothing |
| Properties.SetValueAlreadyDone | registry/src/main.rs:201-257 | a value-level Set whose key opens and whose slot already holds what it asks for succeeds and changes nothing |
| Properties.SetKeyThenTest | registry/src/main.rs:184-199 | Test right after a key-level Set reports in desired state |
| Properties.SetValueThenTestAndGet | registry/src/main.rs:201-216 | after Set writes value data, Test reports in desired state and Get returns exactly that data |
| Properties.SetValueAbsentThenTest | registry/src/main.rs:242-256 | after Set deletes a value, Test on the same document reports in desired state |
| Properties.SetWithoutDataThenTestFails | registry/src/main.rs:217-239 | Set without data creates a missing value as REG_NONE, after which Test and Get stop with a registry error |
| Scenarios.RegistryValuePresent | registry/src/main.rs:551-565 | Test of an existing ProgramFilesPath with no data is in desired state and echoes its expandable-string data |
| Scenarios.RegistryValueAbsent | registry/src/main.rs:567-582 | Test Absent of a missing value is in desired state and the reply carries only the key path |
| Scenarios.MissingKeyPresent | registry/src/main.rs:485-523 | Test Present of a missing key exits 4 and prints an empty key path |
| Scenarios.MissingAncestorsCreatedInOrder | registry/src/main.rs:313-329 | for `HKLM\1\2\3` with only `HKLM` existing, the keys `HKLM\1`, `HKLM\1\2`, `HKLM\1\2\3` are created in that order |

## Left out

- Command-line parsing, stdin handling and UTF-8 decoding (registry/src/main.rs:31-73) are left out. The model starts from a document that has already been parsed.
- The Query, Set, Remove and Find subcommands are left out, because they only print their arguments (registry/src/main.rs:75-90).
- `check_debug` (registry/src/main.rs:126-143) is left out, because it is debugger plumbing.
- The native `ntreg` library is not part of this model. It is replaced by the in-memory `Store`, where:
  - each failing call is chosen in advance through `Faults`;
  - its error kinds are reduced to "object name not found" and "other";
  - of its value kinds outside the six document kinds, only REG_NONE is modelled.
- JSON text is not modelled; serde and schemars are not part of this model.
  - A document is the record itself.
  - Whether serialization succeeds is a parameter.
  - Schema validation of the input and `deny_unknown_fields` are left out.
- Registry paths are compared exactly. The native registry's case-insensitive key names are not modelled.
- Diagnostic messages on stderr and the printing of the reply are not modelled. The reply appears as the `printed` field of the exit.
- KeyStore.Store.DeleteTree: deletion of a subtree is atomic in the model. A native recursive delete that fails partway could leave part of the subtree behind.
- KeyStore.Store.CreateKey: only a single subkey name without `\` is created. The source only passes it the segments of a split path (registry/src/main.rs:318-319), so a name with `\` never reaches it.
- Concurrent changes to the registry by other processes are not modelled.
