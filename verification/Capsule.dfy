/** Capsule layers as sequences of tar entries with a file index: what a component tree is
    packed into, and which entry sequences may be unpacked. */
module Capsule {
  import opened Text

  const INDEX_PATH := "index.json"

  /** Permission bits, written as Go's octal constants. */
  const EXECUTABLE := 493 // 0755
  const PLAIN_FILE := 420 // 0644

  datatype IndexValue = IndexValue(digest: string, mode: int)

  /** Entry content. The JSON encoding of an index is represented by the map it encodes. */
  datatype Content = Data(bytes: string) | IndexJSON(index: map<string, IndexValue>)

  type Hash = Content -> string

  datatype IndexEntry = IndexEntry(path: string, digest: string, mode: int)

  datatype EntryKind = Directory | Regular | Special

  /** One tar entry; the mode holds permission bits and possibly others above them. */
  datatype Entry = Entry(name: string, kind: EntryKind, mode: nat, content: Content)

  datatype File = File(path: string, content: Content, mode: int)

  /** What a directory walk meets. */
  datatype Visit = Visit(path: string, node: Node)

  datatype Node = Folder | Plainfile(content: Content, permissions: nat, links: nat) | Symlink | Device

  datatype Layer = Layer(entries: seq<Entry>, index: seq<IndexEntry>)

  function EntryPath(e: Entry): string {
    e.name
  }

  function IndexEntryPath(e: IndexEntry): string {
    e.path
  }

  function FilePath(f: File): string {
    f.path
  }

  // Modes

  /** Some execute bit among the nine permission bits. */
  predicate AnyExecute(permissions: nat) {
    permissions % 2 == 1 || permissions / 8 % 2 == 1 || permissions / 64 % 2 == 1
  }

  function NormalizedMode(permissions: nat, directory: bool): int {
    if directory || AnyExecute(permissions) then EXECUTABLE else PLAIN_FILE
  }

  function Perm(mode: nat): int {
    mode % 512
  }

  predicate KnownMode(mode: int) {
    mode == PLAIN_FILE || mode == EXECUTABLE
  }

  // The canonical index

  predicate HexDigit(c: char) {
    '0' <= c <= '9' || 'a' <= c <= 'f'
  }

  /** sha256: and 64 lower-case hexadecimal digits. */
  predicate ValidDigest(d: string) {
    |d| == 71 && HasPrefix(d, "sha256:") && forall i :: 7 <= i < 71 ==> HexDigit(d[i])
  }

  predicate ValidIndexEntry(e: IndexEntry) {
    !Blank(e.path) && ValidDigest(e.digest) && KnownMode(e.mode)
  }

  function IndexMap(index: seq<IndexEntry>): map<string, IndexValue> {
    if index == [] then map[]
    else
      var last := index[|index| - 1];
      IndexMap(index[..|index| - 1])[last.path := IndexValue(last.digest, last.mode)]
  }

  ghost predicate HasPath(index: seq<IndexEntry>, path: string) {
    exists i :: 0 <= i < |index| && index[i].path == path
  }

  ghost predicate DistinctPaths(index: seq<IndexEntry>) {
    forall i, j :: 0 <= i < j < |index| ==> index[i].path != index[j].path
  }

  ghost predicate ValidIndex(index: seq<IndexEntry>) {
    (forall i :: 0 <= i < |index| ==> ValidIndexEntry(index[i])) && DistinctPaths(index)
  }

  lemma {:induction false} IndexMapDomain(index: seq<IndexEntry>, path: string)
    ensures path in IndexMap(index) <==> HasPath(index, path)
    decreases |index|
  {
    if index != [] {
      var init, last := index[..|index| - 1], index[|index| - 1];
      IndexMapDomain(init, path);
      if HasPath(init, path) {
        var i :| 0 <= i < |init| && init[i].path == path;
        assert index[i].path == path;
      }
    }
  }

  lemma {:induction false} IndexMapValue(index: seq<IndexEntry>, i: nat)
    requires DistinctPaths(index) && i < |index|
    ensures index[i].path in IndexMap(index) && IndexMap(index)[index[i].path] == IndexValue(index[i].digest, index[i].mode)
    decreases |index|
  {
    if i < |index| - 1 {
      IndexMapValue(index[..|index| - 1], i);
    }
  }

  lemma {:induction false} IndexMapSize(index: seq<IndexEntry>)
    requires DistinctPaths(index)
    ensures |IndexMap(index)| == |index|
    decreases |index|
  {
    if index != [] {
      var init, last := index[..|index| - 1], index[|index| - 1];
      IndexMapSize(init);
      IndexMapDomain(init, last.path);
    }
  }

  /** CanonicalIndexJSON. */
  method CanonicalIndex(index: seq<IndexEntry>) returns (r: Option<map<string, IndexValue>>)
    ensures r.Some? <==> ValidIndex(index)
    ensures r.Some? ==> r.value == IndexMap(index)
    ensures r.Some? ==> forall i, j :: 0 <= i < j < |index| ==> index[i].path != index[j].path
    ensures r.Some? ==>
              forall i :: 0 <= i < |index| ==>
                index[i].path in r.value && r.value[index[i].path] == IndexValue(index[i].digest, index[i].mode)
  {
    hide ValidIndexEntry;
    var m: map<string, IndexValue> := map[];
    var i := 0;
    while i < |index|
      invariant 0 <= i <= |index| && m == IndexMap(index[..i])
      invariant forall k :: 0 <= k < i ==> ValidIndexEntry(index[k])
      invariant DistinctPaths(index[..i])
    {
      var e := index[i];
      if !ValidIndexEntry(e) {
        return None;
      }
      IndexMapDomain(index[..i], e.path);
      if e.path in m {
        RepeatedPath(index, i);
        return None;
      }
      FreshPath(index, i);
      assert index[..i + 1][..i] == index[..i];
      m := m[e.path := IndexValue(e.digest, e.mode)];
      i := i + 1;
    }
    assert index[..i] == index;
    forall k | 0 <= k < |index|
      ensures index[k].path in m && m[index[k].path] == IndexValue(index[k].digest, index[k].mode)
    {
      IndexMapValue(index, k);
    }
    r := Some(m);
  }

  lemma RepeatedPath(index: seq<IndexEntry>, i: nat)
    requires i < |index| && HasPath(index[..i], index[i].path)
    ensures !DistinctPaths(index)
  {
  }

  lemma FreshPath(index: seq<IndexEntry>, i: nat)
    requires i < |index| && DistinctPaths(index[..i]) && !HasPath(index[..i], index[i].path)
    ensures DistinctPaths(index[..i + 1])
  {
  }
}
