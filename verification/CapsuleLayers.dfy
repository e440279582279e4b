/** Packing a component tree into a layer and unpacking a layer into files. */
module CapsuleLayers {
  import opened Text
  import opened Paths
  import opened Ordering
  import opened Canonical
  import opened Capsule

  // Packing

  predicate Packable(v: Visit) {
    && ValidUSTARPath(v.path) && v.path != INDEX_PATH
    && (v.node.Folder? || (v.node.Plainfile? && v.node.links <= 1))
  }

  function EntryOf(v: Visit): Entry {
    match v.node
    case Folder => Entry(v.path, Directory, EXECUTABLE, Data(""))
    case Plainfile(content, permissions, _) => Entry(v.path, Regular, NormalizedMode(permissions, false), content)
    case _ => Entry(v.path, Special, 0, Data(""))
  }

  function EntriesOf(visits: seq<Visit>): (r: seq<Entry>)
    ensures |r| == |visits| && forall i :: 0 <= i < |r| ==> r[i] == EntryOf(visits[i])
  {
    seq(|visits|, i requires 0 <= i < |visits| => EntryOf(visits[i]))
  }

  function IndexOf(visits: seq<Visit>, hash: Hash): seq<IndexEntry> {
    if visits == [] then []
    else
      var last := visits[|visits| - 1];
      IndexOf(visits[..|visits| - 1], hash) +
      (match last.node
       case Plainfile(content, permissions, _) => [IndexEntry(last.path, hash(content), NormalizedMode(permissions, false))]
       case _ => [])
  }

  /** The tree's regular files, with normalised modes. */
  function TreeFiles(visits: seq<Visit>): seq<File> {
    if visits == [] then []
    else
      var last := visits[|visits| - 1];
      TreeFiles(visits[..|visits| - 1]) +
      (match last.node
       case Plainfile(content, permissions, _) => [File(last.path, content, NormalizedMode(permissions, false))]
       case _ => [])
  }

  /** collectTree. */
  method CollectTree(visits: seq<Visit>, hash: Hash) returns (r: Option<Layer>)
    ensures r.Some? <==> forall i :: 0 <= i < |visits| ==> Packable(visits[i])
    ensures r.Some? ==>
              && r.value.entries == Sort(EntriesOf(visits), EntryPath)
              && r.value.index == Sort(IndexOf(visits, hash), IndexEntryPath)
  {
    hide ValidUSTARPath, Sort;
    var entries: seq<Entry>, index: seq<IndexEntry> := [], [];
    var i := 0;
    while i < |visits|
      invariant 0 <= i <= |visits|
      invariant forall k :: 0 <= k < i ==> Packable(visits[k])
      invariant entries == EntriesOf(visits[..i]) && index == IndexOf(visits[..i], hash)
    {
      var v := visits[i];
      if !ValidUSTARPath(v.path) || v.path == INDEX_PATH {
        return None;
      }
      if v.node.Symlink? || v.node.Device? || (v.node.Plainfile? && v.node.links > 1) {
        return None;
      }
      assert visits[..i + 1][..i] == visits[..i];
      if v.node.Plainfile? {
        index := index + [IndexEntry(v.path, hash(v.node.content), NormalizedMode(v.node.permissions, false))];
      }
      entries := entries + [EntryOf(v)];
      i := i + 1;
      assert entries == EntriesOf(visits[..i]);
    }
    assert visits[..i] == visits;
    r := Some(Layer(Sort(entries, EntryPath), Sort(index, IndexEntryPath)));
  }

  ghost predicate Buildable(visits: seq<Visit>, hash: Hash) {
    && (forall i :: 0 <= i < |visits| ==> Packable(visits[i]))
    && IndexOf(visits, hash) != [] && ValidIndex(Sort(IndexOf(visits, hash), IndexEntryPath))
  }

  ghost function Built(visits: seq<Visit>, hash: Hash): Layer {
    var index := Sort(IndexOf(visits, hash), IndexEntryPath);
    Layer(Sort(EntriesOf(visits), EntryPath) + [Entry(INDEX_PATH, Regular, PLAIN_FILE, IndexJSON(IndexMap(index)))], index)
  }

  /** BuildLayer: the sorted entries, and the canonical index as the last one. */
  method BuildLayer(visits: seq<Visit>, hash: Hash) returns (r: Option<Layer>)
    ensures r.Some? <==> Buildable(visits, hash)
    ensures r.Some? ==> r.value == Built(visits, hash)
  {
    hide Packable, ValidIndex, IndexMap;
    var collected := CollectTree(visits, hash);
    if collected.None? {
      return None;
    }
    var layer := collected.value;
    SortedSize(IndexOf(visits, hash));
    if layer.index == [] {
      return None;
    }
    var canonical := CanonicalIndex(layer.index);
    if canonical.None? {
      return None;
    }
    r := Some(layer.(entries := layer.entries + [Entry(INDEX_PATH, Regular, PLAIN_FILE, IndexJSON(canonical.value))]));
  }

  lemma SortedSize(index: seq<IndexEntry>)
    ensures |Sort(index, IndexEntryPath)| == |index|
  {
    var sorted := Sort(index, IndexEntryPath);
    assert |multiset(sorted)| == |sorted| && |multiset(index)| == |index|;
  }

  // Unpacking

  ghost predicate DistinctNames(entries: seq<Entry>) {
    forall i, j :: 0 <= i < j < |entries| ==> entries[i].name != entries[j].name
  }

  predicate IsFile(e: Entry) {
    e.kind == Regular && e.name != INDEX_PATH
  }

  function FileOf(e: Entry): File {
    File(e.name, e.content, Perm(e.mode))
  }

  function FilesOf(entries: seq<Entry>): seq<File> {
    if entries == [] then []
    else
      var last := entries[|entries| - 1];
      FilesOf(entries[..|entries| - 1]) + (if IsFile(last) then [FileOf(last)] else [])
  }

  /** What one entry must be, given the index. */
  ghost predicate GoodEntry(hash: Hash, index: seq<IndexEntry>, e: Entry) {
    if e.name == INDEX_PATH then e.kind == Regular && ValidIndex(index) && e.content == IndexJSON(IndexMap(index))
    else
      && SafeName(e.name)
      && (e.kind == Directory ||
          (e.kind == Regular && Describes(IndexMap(index), hash(e.content), e)))
  }

  predicate Describes(indexed: map<string, IndexValue>, digest: string, e: Entry) {
    && e.name in indexed && digest == indexed[e.name].digest
    && KnownMode(Perm(e.mode)) && Perm(e.mode) == indexed[e.name].mode
  }

  ghost predicate HasFile(entries: seq<Entry>, path: string) {
    exists k :: 0 <= k < |entries| && IsFile(entries[k]) && entries[k].name == path
  }

  ghost predicate Covered(index: seq<IndexEntry>, entries: seq<Entry>) {
    forall i :: 0 <= i < |index| ==> HasFile(entries, index[i].path)
  }

  ghost predicate Accepts(hash: Hash, layer: Layer) {
    && DistinctPaths(layer.index) && !HasPath(layer.index, INDEX_PATH)
    && DistinctNames(layer.entries)
    && (forall k :: 0 <= k < |layer.entries| ==> GoodEntry(hash, layer.index, layer.entries[k]))
    && Covered(layer.index, layer.entries)
  }

  /** The index as a map, refused if it names itself or repeats a path. */
  method LoadIndex(index: seq<IndexEntry>) returns (r: Option<map<string, IndexValue>>)
    ensures r.Some? <==> DistinctPaths(index) && !HasPath(index, INDEX_PATH)
    ensures r.Some? ==> r.value == IndexMap(index)
  {
    var m: map<string, IndexValue> := map[];
    var i := 0;
    while i < |index|
      invariant 0 <= i <= |index| && m == IndexMap(index[..i])
      invariant DistinctPaths(index[..i])
      invariant forall k :: 0 <= k < i ==> index[k].path != INDEX_PATH
    {
      var e := index[i];
      if e.path == INDEX_PATH {
        return None;
      }
      IndexMapDomain(index[..i], e.path);
      if e.path in m {
        RepeatedPath(index, i);
        return None;
      }
      FreshPath(index, i);
      assert index[..i + 1][..i] == index[..i];
      m := m[e.path := IndexValue(e.digest, e.mode)];
      i := i + 1;
    }
    assert index[..i] == index;
    r := Some(m);
  }

  method CheckEntry(hash: Hash, index: seq<IndexEntry>, indexed: map<string, IndexValue>, e: Entry) returns (ok: bool)
    requires indexed == IndexMap(index)
    ensures ok <==> GoodEntry(hash, index, e)
  {
    hide ValidIndex, SafeName, Describes;
    if e.name == INDEX_PATH {
      if e.kind != Regular {
        return false;
      }
      var canonical := CanonicalIndex(index);
      return canonical.Some? && e.content == IndexJSON(canonical.value);
    }
    if !SafeName(e.name) {
      return false;
    }
    if e.kind == Directory {
      return true;
    }
    ok := e.kind == Regular && Describes(indexed, hash(e.content), e);
  }

  ghost function Names(entries: seq<Entry>): set<string> {
    set k | 0 <= k < |entries| :: entries[k].name
  }

  ghost function FileNames(entries: seq<Entry>): set<string> {
    set k | 0 <= k < |entries| && IsFile(entries[k]) :: entries[k].name
  }

  /** extractCapsuleLayer, after decompression. */
  method ExtractLayer(hash: Hash, layer: Layer) returns (r: Option<seq<File>>)
    ensures r.Some? <==> Accepts(hash, layer)
    ensures r.Some? ==> r.value == Sort(FilesOf(layer.entries), FilePath)
  {
    hide GoodEntry, Sort, IndexMap, IsFile, Covered;
    var index, entries := layer.index, layer.entries;
    var loaded := LoadIndex(index);
    if loaded.None? {
      return None;
    }
    var indexed := loaded.value;
    var seen: set<string>, seenPaths: set<string>, files: seq<File> := {}, {}, [];
    var i := 0;
    while i < |entries|
      invariant 0 <= i <= |entries|
      invariant seenPaths == Names(entries[..i]) && seen == FileNames(entries[..i]) && files == FilesOf(entries[..i])
      invariant DistinctNames(entries[..i])
      invariant forall k :: 0 <= k < i ==> GoodEntry(hash, index, entries[k])
    {
      var e := entries[i];
      Extend(entries, i);
      if e.name in seenPaths {
        return None;
      }
      var good := CheckEntry(hash, index, indexed, e);
      if !good {
        return None;
      }
      seenPaths := seenPaths + {e.name};
      if IsFile(e) {
        seen, files := seen + {e.name}, files + [FileOf(e)];
      }
      i := i + 1;
    }
    assert entries[..i] == entries;
    CoveredExactly(hash, index, entries);
    if |seen| != |indexed| {
      return None;
    }
    r := Some(Sort(files, FilePath));
  }

  /** One more entry. */
  lemma Extend(entries: seq<Entry>, i: nat)
    requires i < |entries| && DistinctNames(entries[..i])
    ensures Names(entries[..i + 1]) == Names(entries[..i]) + {entries[i].name}
    ensures FileNames(entries[..i + 1]) == FileNames(entries[..i]) + (if IsFile(entries[i]) then {entries[i].name} else {})
    ensures FilesOf(entries[..i + 1]) == FilesOf(entries[..i]) + (if IsFile(entries[i]) then [FileOf(entries[i])] else [])
    ensures entries[i].name in Names(entries[..i]) ==> !DistinctNames(entries)
    ensures entries[i].name !in Names(entries[..i]) ==> DistinctNames(entries[..i + 1])
  {
    hide IsFile;
    var shorter, longer := entries[..i], entries[..i + 1];
    assert longer[..i] == shorter && longer[i] == entries[i];
    assert forall k :: 0 <= k < i ==> longer[k] == shorter[k] == entries[k];
    NamesExtend(shorter, longer);
  }

  lemma NamesExtend(shorter: seq<Entry>, longer: seq<Entry>)
    requires |longer| == |shorter| + 1 && longer[..|shorter|] == shorter
    ensures var last := longer[|shorter|];
            && Names(longer) == Names(shorter) + {last.name}
            && FileNames(longer) == FileNames(shorter) + (if IsFile(last) then {last.name} else {})
  {
  }

  lemma SubsetOfSameSize<T>(a: set<T>, b: set<T>)
    requires a <= b
    ensures |a| <= |b| && (|a| == |b| <==> a == b)
  {
    assert b == a + (b - a);
    assert |b| == |a| + |b - a|;
  }

  /** The count the loop ends with tells whether every indexed file was seen. */
  lemma CoveredExactly(hash: Hash, index: seq<IndexEntry>, entries: seq<Entry>)
    requires DistinctPaths(index) && forall k :: 0 <= k < |entries| ==> GoodEntry(hash, index, entries[k])
    ensures |FileNames(entries)| == |IndexMap(index)| <==> Covered(index, entries)
  {
    hide ValidIndex, SafeName, IndexMap;
    var names, keys := FileNames(entries), IndexMap(index).Keys;
    assert names <= keys;
    SubsetOfSameSize(names, keys);
    assert |keys| == |IndexMap(index)|;
    if names == keys {
      forall i | 0 <= i < |index|
        ensures HasFile(entries, index[i].path)
      {
        IndexMapDomain(index, index[i].path);
        assert HasPath(index, index[i].path);
        assert index[i].path in names;
      }
    }
    if Covered(index, entries) {
      forall p | p in keys
        ensures p in names
      {
        IndexMapDomain(index, p);
        var i :| 0 <= i < |index| && index[i].path == p;
        assert HasFile(entries, index[i].path);
      }
      assert names == keys;
    }
  }
}
