/**
 * Concrete runs of the model on the documents of the resource's own unit tests
 * (registry/src/main.rs:551-582) and on a path with missing ancestors.
 */
module Scenarios {
  import opened Wrappers
  import opened Exits
  import opened Config
  import opened Paths
  import opened KeyStore
  import opened Resolver
  import opened Reconcile

  const CurrentVersion: Path := "HKLM\\Software\\Microsoft\\Windows\\CurrentVersion"
  const NoFaults := Faults({}, {}, {}, {}, {})

  /** A store holding the CurrentVersion key and its ProgramFilesPath value. */
  function WindowsHive(): Hive {
    Hive({"HKLM", "HKLM\\Software", "HKLM\\Software\\Microsoft", "HKLM\\Software\\Microsoft\\Windows", CurrentVersion},
         map[ValueSlot(CurrentVersion, "ProgramFilesPath") :=
               RegistryValue("ProgramFilesPath", RegExpandSz("%ProgramFiles%"))])
  }

  /** A document naming the key, a value, and `_ensure`; everything else omitted. */
  function Document(keyPath: Path, valueName: Option<string>, ensure: EnsureKind): RegistryConfig {
    RegistryConfig(None, keyPath, valueName, None, Some(ensure), None, None)
  }

  /**
   * An existing value tested Present without data is in desired state, and the reply echoes
   * the observed name and expandable-string data.
   */
  lemma RegistryValuePresent()
    ensures var c := Document(CurrentVersion, Some("ProgramFilesPath"), Present);
      TestReply(WindowsHive(), NoFaults, c, true)
        == Ok(Reply(Text(Default().(keyPath := CurrentVersion, valueName := Some("ProgramFilesPath"),
                                    valueData := Some(ExpandString("%ProgramFiles%")))), true))
      && RunOutcome(WindowsHive(), NoFaults, Test, c, true).code == Success
  {
  }

  /** A missing value tested Absent is in desired state, and the reply carries only the key path. */
  lemma RegistryValueAbsent()
    ensures var c := Document(CurrentVersion, Some("DoesNotExist"), Absent);
      TestReply(WindowsHive(), NoFaults, c, true)
        == Ok(Reply(Text(Default().(keyPath := CurrentVersion)), true))
      && RunOutcome(WindowsHive(), NoFaults, Test, c, true).code == Success
  {
  }

  /** A missing key tested Present reports an empty key path and exits with status 4. */
  lemma MissingKeyPresent()
    ensures var c := Document("HKLM\\Software\\DoesNotExist", None, Present);
      RunOutcome(WindowsHive(), NoFaults, Test, c, true) == Exit(NotInDesiredState, Some(Default()))
  {
  }

  /** A missing key is passed over by the walk: its last segment joins the subkeys. */
  lemma WalkPastMissing(h: Hive, f: Faults, parent: Path, name: string, subkeys: seq<string>)
    requires Separator !in name && Child(parent, name) !in h.keys && Child(parent, name) !in f.open
    ensures Walk(h, f, Child(parent, name), subkeys) == Walk(h, f, parent, [name] + subkeys)
  {
    ParentOfChild(parent, name);
    assert SubkeyName(Child(parent, name), parent) == name;
  }

  /** From `HKLM\\1` the walk steps up once and stops at `HKLM`. */
  lemma WalkFromFirstMissing()
    ensures Walk(Hive({"HKLM"}, map[]), NoFaults, "HKLM\\1", ["2", "3"]) == Ok(("HKLM", ["1", "2", "3"]))
  {
    assert Child("HKLM", "1") == "HKLM\\1";
    WalkPastMissing(Hive({"HKLM"}, map[]), NoFaults, "HKLM", "1", ["2", "3"]);
    assert ["1"] + ["2", "3"] == ["1", "2", "3"];
  }

  /** From `HKLM\\1\\2` the walk steps up twice and stops at `HKLM`. */
  lemma WalkFromSecondMissing()
    ensures Walk(Hive({"HKLM"}, map[]), NoFaults, "HKLM\\1\\2", ["3"]) == Ok(("HKLM", ["1", "2", "3"]))
  {
    assert Child("HKLM\\1", "2") == "HKLM\\1\\2";
    WalkPastMissing(Hive({"HKLM"}, map[]), NoFaults, "HKLM\\1", "2", ["3"]);
    assert ["2"] + ["3"] == ["2", "3"];
    WalkFromFirstMissing();
  }

  /** The walk from `HKLM\\1\\2\\3` over a store holding only `HKLM` stops at `HKLM`. */
  lemma MissingAncestorsFound()
    ensures ValidParentAndSubkeys(Hive({"HKLM"}, map[]), NoFaults, "HKLM\\1\\2\\3") == Ok(("HKLM", ["1", "2", "3"]))
  {
    assert Child("HKLM\\1\\2", "3") == "HKLM\\1\\2\\3";
    ParentOfChild("HKLM\\1\\2", "3");
    assert SubkeyName("HKLM\\1\\2\\3", "HKLM\\1\\2") == "3";
    WalkFromSecondMissing();
  }

  /** The prefixes of `HKLM` followed by 1, 2 and 3. */
  lemma MissingAncestorsPrefixes()
    ensures Prefixes("HKLM", ["1", "2", "3"]) == ["HKLM\\1", "HKLM\\1\\2", "HKLM\\1\\2\\3"]
  {
    var segs := ["1", "2", "3"];
    JoinSnoc("HKLM", [], "1");
    JoinSnoc("HKLM", ["1"], "2");
    JoinSnoc("HKLM", ["1", "2"], "3");
    assert segs[..1] == [] + ["1"] && segs[..2] == ["1"] + ["2"] && segs[..3] == ["1", "2"] + ["3"];
    assert Child("HKLM", "1") == "HKLM\\1";
    assert Child("HKLM\\1", "2") == "HKLM\\1\\2";
    assert Child("HKLM\\1\\2", "3") == "HKLM\\1\\2\\3";
  }

  /** Setting a key below two missing ancestors creates the three keys, outermost first. */
  lemma MissingAncestorsCreatedInOrder()
    ensures CreationPlan(Hive({"HKLM"}, map[]), NoFaults, "HKLM\\1\\2\\3")
      == Ok(["HKLM\\1", "HKLM\\1\\2", "HKLM\\1\\2\\3"])
  {
    MissingAncestorsFound();
    MissingAncestorsPrefixes();
  }
}
