/**
 * Key paths: `\`-separated strings such as `HKLM\Software\X`. The parent of a path is the
 * prefix before its last `\` (get_parent_key_path, registry/src/main.rs:272-280).
 */
module Paths {
  import opened Wrappers
  import opened Exits

  type Path = string

  const Separator: char := '\\'

  /** The key `name` directly under `parent`. */
  function Child(parent: Path, name: string): Path {
    parent + [Separator] + name
  }

  /** `rfind`: the index of the last occurrence of `c` in `s`, if any. */
  function LastIndexOf(s: string, c: char): (r: Option<nat>)
    ensures r.None? <==> c !in s
    ensures r.Some? ==> r.value < |s| && s[r.value] == c && c !in s[r.value + 1..]
  {
    if s == [] then None
    else if s[|s| - 1] == c then Some(|s| - 1)
    else
      var r := LastIndexOf(s[..|s| - 1], c);
      LastIndexStep(s, c, r);
      r
  }

  /**
   * When `s` does not end in `c`, the last occurrence of `c` in `s` without its last character
   * is the last occurrence in `s`.
   */
  lemma LastIndexStep(s: string, c: char, r: Option<nat>)
    requires s != [] && s[|s| - 1] != c
    requires r.None? <==> c !in s[..|s| - 1]
    requires r.Some? ==> r.value < |s| - 1 && s[..|s| - 1][r.value] == c && c !in s[..|s| - 1][r.value + 1..]
    ensures r.None? <==> c !in s
    ensures r.Some? ==> r.value < |s| && s[r.value] == c && c !in s[r.value + 1..]
  {
    assert s == s[..|s| - 1] + [s[|s| - 1]];
    if r.Some? {
      assert s[r.value + 1..] == s[..|s| - 1][r.value + 1..] + [s[|s| - 1]];
    }
  }

  /**
   * get_parent_key_path: the prefix before the last separator; a path without any separator
   * is fatal invalid input.
   */
  function GetParentKeyPath(keyPath: Path): (r: Result<Path, ExitCode>)
    ensures r.Err? <==> Separator !in keyPath
    ensures r.Err? ==> r.error == InvalidInput
    ensures r.Ok? ==> |r.value| < |keyPath| && keyPath[..|r.value|] == r.value
    ensures r.Ok? ==> keyPath == Child(r.value, keyPath[|r.value| + 1..])
    ensures r.Ok? ==> Separator !in keyPath[|r.value| + 1..]
  {
    match LastIndexOf(keyPath, Separator)
    case None => Err(InvalidInput)
    case Some(i) =>
      assert keyPath == keyPath[..i] + [Separator] + keyPath[i + 1..];
      Ok(keyPath[..i])
  }

  /** The last segment of `keyPath`, the part after its parent and the separator. */
  function SubkeyName(keyPath: Path, parent: Path): string
    requires |parent| < |keyPath|
  {
    keyPath[|parent| + 1..]
  }

  /** The parent of a child built from a segment without separator is the path it was built on. */
  lemma ParentOfChild(parent: Path, name: string)
    requires Separator !in name
    ensures GetParentKeyPath(Child(parent, name)) == Ok(parent)
  {
    var s := Child(parent, name);
    assert s[|parent|] == Separator;
    assert s[..|parent|] == parent;
  }

  /** `parent` followed by `segments`, one separator before each segment. */
  function Join(parent: Path, segments: seq<string>): Path
    decreases |segments|
  {
    if segments == [] then parent
    else Child(Join(parent, segments[..|segments| - 1]), segments[|segments| - 1])
  }

  /** Appending one segment to the list adds it as a child of the joined path. */
  lemma JoinSnoc(parent: Path, segments: seq<string>, last: string)
    ensures Join(parent, segments + [last]) == Child(Join(parent, segments), last)
  {
    assert (segments + [last])[..|segments|] == segments;
  }

  /** Joining one more segment of `segments` extends the path by that segment. */
  lemma JoinStep(parent: Path, segments: seq<string>, i: nat)
    requires i < |segments|
    ensures Join(parent, segments[..i + 1]) == Child(Join(parent, segments[..i]), segments[i])
  {
    assert segments[..i + 1][..i] == segments[..i];
  }

  /** The paths from `parent` down to `Join(parent, segments)`, one per segment, shallowest first. */
  function Prefixes(parent: Path, segments: seq<string>): (ps: seq<Path>)
    ensures |ps| == |segments|
  {
    seq(|segments|, i requires 0 <= i < |segments| => Join(parent, segments[..i + 1]))
  }

  /** The prefix at `i` is the one at `i - 1` with segment `i` appended. */
  lemma PrefixStep(parent: Path, segments: seq<string>, i: nat)
    requires 0 < i < |segments|
    ensures Prefixes(parent, segments)[i] == Child(Prefixes(parent, segments)[i - 1], segments[i])
  {
    JoinStep(parent, segments, i);
  }

  /** The shallowest prefix is the first segment under `parent`; the deepest is the joined path. */
  lemma PrefixesEnds(parent: Path, segments: seq<string>)
    requires segments != []
    ensures Prefixes(parent, segments)[0] == Child(parent, segments[0])
    ensures Prefixes(parent, segments)[|segments| - 1] == Join(parent, segments)
  {
    JoinStep(parent, segments, 0);
    assert segments[..0] == [];
    assert segments[..|segments|] == segments;
  }

  /**
   * Each prefix is the previous one (or `parent`) with the next segment appended, and the
   * deepest is the joined path.
   */
  lemma PrefixesStepwise(parent: Path, segments: seq<string>)
    ensures segments != [] ==> Prefixes(parent, segments)[0] == Child(parent, segments[0])
    ensures forall i :: 0 < i < |segments| ==>
      Prefixes(parent, segments)[i] == Child(Prefixes(parent, segments)[i - 1], segments[i])
    ensures segments != [] ==> Prefixes(parent, segments)[|segments| - 1] == Join(parent, segments)
  {
    forall i | 0 < i < |segments|
      ensures Prefixes(parent, segments)[i] == Child(Prefixes(parent, segments)[i - 1], segments[i])
    {
      PrefixStep(parent, segments, i);
    }
    if segments != [] {
      PrefixesEnds(parent, segments);
    }
  }

  /** `k` is `p` itself or a key somewhere below it. */
  predicate InSubtree(k: Path, p: Path) {
    k == p || (|p| < |k| && k[..|p| + 1] == p + [Separator])
  }

  /** A child of a key in the subtree of `p` is in that subtree too. */
  lemma ChildInSubtree(k: Path, name: string, p: Path)
    requires InSubtree(k, p)
    ensures InSubtree(Child(k, name), p)
  {
    if k != p {
      assert Child(k, name)[..|p| + 1] == k[..|p| + 1];
    }
  }

  /** A key outside the subtree of `p` has its parent outside that subtree too. */
  lemma ParentOutsideSubtree(k: Path, p: Path)
    requires GetParentKeyPath(k).Ok? && !InSubtree(k, p)
    ensures !InSubtree(GetParentKeyPath(k).value, p)
  {
  }
}
