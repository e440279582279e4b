/** Packing then unpacking returns the tree's files; whatever is unpacked matches its index. */
module CapsuleLaws {
  import opened Text
  import opened Paths
  import opened Ordering
  import opened Canonical
  import opened Capsule
  import opened CapsuleLayers

  // Which files a sequence of entries holds

  ghost predicate Yields(entries: seq<Entry>, f: File) {
    exists k :: 0 <= k < |entries| && IsFile(entries[k]) && FileOf(entries[k]) == f
  }

  lemma {:induction false} FilesOfHolds(entries: seq<Entry>, f: File)
    ensures f in FilesOf(entries) <==> Yields(entries, f)
    decreases |entries|
  {
    hide IsFile, FileOf;
    if entries != [] {
      var init, last := entries[..|entries| - 1], entries[|entries| - 1];
      FilesOfHolds(init, f);
      assert forall k :: 0 <= k < |init| ==> init[k] == entries[k];
      if Yields(init, f) {
        var k :| 0 <= k < |init| && IsFile(init[k]) && FileOf(init[k]) == f;
        assert IsFile(entries[k]) && FileOf(entries[k]) == f;
      }
    }
  }

  lemma {:induction false} FilesAreDistinct(entries: seq<Entry>)
    requires DistinctNames(entries)
    ensures DistinctKeys(FilesOf(entries), FilePath)
    decreases |entries|
  {
    if entries != [] {
      var init, last := entries[..|entries| - 1], entries[|entries| - 1];
      FilesAreDistinct(init);
      if IsFile(last) {
        var before, all := FilesOf(init), FilesOf(entries);
        forall i | 0 <= i < |before|
          ensures FilePath(before[i]) != FilePath(FileOf(last))
        {
          FilesOfHolds(init, before[i]);
          var k :| 0 <= k < |init| && IsFile(init[k]) && FileOf(init[k]) == before[i];
          assert init[k] == entries[k];
        }
        DistinctWithOneMore(before, FileOf(last));
      }
    }
  }

  lemma DistinctWithOneMore(files: seq<File>, f: File)
    requires DistinctKeys(files, FilePath) && forall i :: 0 <= i < |files| ==> FilePath(files[i]) != FilePath(f)
    ensures DistinctKeys(files + [f], FilePath)
  {
  }

  // Conversely: what is accepted matches its index

  ghost predicate MatchesIndex(hash: Hash, f: File, e: IndexEntry) {
    f.path == e.path && hash(f.content) == e.digest && f.mode == e.mode
  }

  ghost predicate Indexed(hash: Hash, index: seq<IndexEntry>, f: File) {
    exists i :: 0 <= i < |index| && MatchesIndex(hash, f, index[i])
  }

  ghost predicate Unpacked(hash: Hash, files: seq<File>, e: IndexEntry) {
    exists f :: f in files && MatchesIndex(hash, f, e)
  }

  lemma FileMatches(hash: Hash, index: seq<IndexEntry>, e: Entry, i: nat)
    requires DistinctPaths(index) && i < |index| && e.name == index[i].path
    requires GoodEntry(hash, index, e) && IsFile(e)
    ensures MatchesIndex(hash, FileOf(e), index[i]) && SafeName(e.name)
  {
    hide ValidIndex, SafeName, IndexMap;
    IndexMapValue(index, i);
  }

  lemma FileIsIndexed(hash: Hash, index: seq<IndexEntry>, e: Entry)
    requires GoodEntry(hash, index, e) && IsFile(e)
    ensures HasPath(index, e.name)
  {
    hide ValidIndex, SafeName, IndexMap;
    IndexMapDomain(index, e.name);
  }

  /** An accepted layer's files come out in path order and one to one with the index: every
      file is indexed, and every index entry has a file with its digest and mode, whose name
      stays inside the component's root. */
  lemma AcceptedLayersMatchTheirIndex(hash: Hash, layer: Layer)
    requires Accepts(hash, layer)
    ensures var files := Sort(FilesOf(layer.entries), FilePath);
            && StrictlySorted(files, FilePath)
            && (forall f :: f in files ==> Indexed(hash, layer.index, f) && SafeName(f.path))
            && (forall i :: 0 <= i < |layer.index| ==> Unpacked(hash, files, layer.index[i]))
  {
    hide GoodEntry, SafeName, IsFile, FileOf, Sort, FilesOf, DistinctNames, DistinctKeys;
    var entries, index := layer.entries, layer.index;
    var files := Sort(FilesOf(entries), FilePath);
    FilesAreDistinct(entries);
    SortOfDistinct(FilesOf(entries), FilePath);
    forall f | f in files
      ensures Indexed(hash, index, f) && SafeName(f.path)
    {
      FilesOfHolds(entries, f);
      var k :| 0 <= k < |entries| && IsFile(entries[k]) && FileOf(entries[k]) == f;
      FileIsIndexed(hash, index, entries[k]);
      var i :| 0 <= i < |index| && index[i].path == entries[k].name;
      FileMatches(hash, index, entries[k], i);
      PathOfFile(entries[k]);
    }
    forall i | 0 <= i < |index|
      ensures Unpacked(hash, files, index[i])
    {
      assert HasFile(entries, index[i].path);
      var k :| 0 <= k < |entries| && IsFile(entries[k]) && entries[k].name == index[i].path;
      FileMatches(hash, index, entries[k], i);
      FilesOfHolds(entries, FileOf(entries[k]));
      assert Yields(entries, FileOf(entries[k]));
    }
  }

  lemma PathOfFile(e: Entry)
    ensures FileOf(e).path == e.name
  {
  }

  // Packing then unpacking

  /** What a file system guarantees about a walk: each path once, made of proper names. */
  ghost predicate Tree(visits: seq<Visit>) {
    && (forall i, j :: 0 <= i < j < |visits| ==> visits[i].path != visits[j].path)
    && (forall i :: 0 <= i < |visits| ==> AllPlain(Split(visits[i].path, '/')))
  }

  ghost predicate Holds(visits: seq<Visit>, f: File) {
    exists k :: 0 <= k < |visits| && visits[k].node.Plainfile?
      && f == File(visits[k].path, visits[k].node.content, NormalizedMode(visits[k].node.permissions, false))
  }

  lemma {:induction false} TreeFilesHold(visits: seq<Visit>, f: File)
    ensures f in TreeFiles(visits) <==> Holds(visits, f)
    decreases |visits|
  {
    hide NormalizedMode;
    if visits != [] {
      var init, last := visits[..|visits| - 1], visits[|visits| - 1];
      TreeFilesHold(init, f);
      assert forall k :: 0 <= k < |init| ==> init[k] == visits[k];
      if Holds(init, f) {
        var k :| 0 <= k < |init| && init[k].node.Plainfile?
          && f == File(init[k].path, init[k].node.content, NormalizedMode(init[k].node.permissions, false));
        assert visits[k] == init[k];
      }
    }
  }

  lemma {:induction false} IndexOfHolds(visits: seq<Visit>, hash: Hash, e: IndexEntry)
    ensures e in IndexOf(visits, hash) <==> exists f :: f in TreeFiles(visits) && e == IndexEntry(f.path, hash(f.content), f.mode)
    decreases |visits|
  {
    hide NormalizedMode;
    if visits != [] {
      var init, last := visits[..|visits| - 1], visits[|visits| - 1];
      IndexOfHolds(init, hash, e);
      if f :| f in TreeFiles(init) && e == IndexEntry(f.path, hash(f.content), f.mode) {
        assert f in TreeFiles(visits);
      }
      if last.node.Plainfile? {
        var f := File(last.path, last.node.content, NormalizedMode(last.node.permissions, false));
        assert f in TreeFiles(visits);
        assert forall g :: g in TreeFiles(visits) ==> g == f || g in TreeFiles(init);
      }
    }
  }

  /** Index and files are collected side by side. */
  lemma {:induction false} IndexRunsParallel(visits: seq<Visit>, hash: Hash)
    ensures |IndexOf(visits, hash)| == |TreeFiles(visits)|
    ensures forall i :: 0 <= i < |TreeFiles(visits)| ==> IndexOf(visits, hash)[i].path == TreeFiles(visits)[i].path
    decreases |visits|
  {
    if visits != [] {
      IndexRunsParallel(visits[..|visits| - 1], hash);
    }
  }

  lemma {:induction false} TreeFilesAreDistinct(visits: seq<Visit>)
    requires Tree(visits)
    ensures DistinctKeys(TreeFiles(visits), FilePath)
    decreases |visits|
  {
    hide NormalizedMode;
    if visits != [] {
      var init, last := visits[..|visits| - 1], visits[|visits| - 1];
      TreeFilesAreDistinct(init);
      if last.node.Plainfile? {
        var f := File(last.path, last.node.content, NormalizedMode(last.node.permissions, false));
        LastFileIsNew(visits);
        DistinctWithOneMore(TreeFiles(init), f);
      }
    }
  }

  lemma LastFileIsNew(visits: seq<Visit>)
    requires Tree(visits) && visits != []
    ensures var init := visits[..|visits| - 1];
            forall i :: 0 <= i < |TreeFiles(init)| ==> FilePath(TreeFiles(init)[i]) != visits[|visits| - 1].path
  {
    hide NormalizedMode, TreeFiles;
    var init := visits[..|visits| - 1];
    forall i | 0 <= i < |TreeFiles(init)|
      ensures FilePath(TreeFiles(init)[i]) != visits[|visits| - 1].path
    {
      TreeFilesHold(init, TreeFiles(init)[i]);
      var k :| 0 <= k < |init| && init[k].path == TreeFiles(init)[i].path;
      assert init[k] == visits[k];
    }
  }

  lemma IndexIsDistinct(visits: seq<Visit>, hash: Hash)
    requires Tree(visits)
    ensures DistinctPaths(IndexOf(visits, hash)) && DistinctKeys(IndexOf(visits, hash), IndexEntryPath)
  {
    hide TreeFiles, IndexOf;
    TreeFilesAreDistinct(visits);
    IndexRunsParallel(visits, hash);
    var files, index := TreeFiles(visits), IndexOf(visits, hash);
    forall i, j | 0 <= i < j < |index|
      ensures index[i].path != index[j].path
    {
      assert FilePath(files[i]) != FilePath(files[j]);
    }
  }

  lemma EntriesAreSafe(v: Visit)
    requires AllPlain(Split(v.path, '/')) && v.path != INDEX_PATH
    ensures SafeName(v.path)
  {
    SafeNamesStayInside(v.path);
  }

  ghost predicate Packs(visits: seq<Visit>, e: Entry) {
    exists i :: 0 <= i < |visits| && e == EntryOf(visits[i])
  }

  /** The entries of a packed tree, whatever their order, and the index entry after them. */
  ghost predicate PackedFrom(entries: seq<Entry>, visits: seq<Visit>) {
    && (forall k :: 0 <= k < |entries| ==> Packs(visits, entries[k]))
    && (forall i :: 0 <= i < |visits| ==> EntryOf(visits[i]) in entries)
  }

  lemma EntriesAreDistinct(visits: seq<Visit>)
    requires Tree(visits)
    ensures DistinctKeys(EntriesOf(visits), EntryPath)
  {
  }

  lemma StrictNamesAreDistinct(entries: seq<Entry>)
    requires StrictlySorted(entries, EntryPath)
    ensures DistinctNames(entries)
  {
    forall i, j | 0 <= i < j < |entries|
      ensures entries[i].name != entries[j].name
    {
      BelowIsAsymmetric(EntryPath(entries[i]), EntryPath(entries[j]));
    }
  }

  lemma SortedEntries(visits: seq<Visit>)
    requires Tree(visits)
    ensures var sorted := Sort(EntriesOf(visits), EntryPath);
            DistinctNames(sorted) && PackedFrom(sorted, visits)
  {
    hide Sort, EntryOf, EntryPath, StrictlySorted, DistinctKeys, DistinctNames;
    var entries := EntriesOf(visits);
    var sorted := Sort(entries, EntryPath);
    EntriesAreDistinct(visits);
    SortOfDistinct(entries, EntryPath);
    StrictNamesAreDistinct(sorted);
    forall k | 0 <= k < |sorted|
      ensures Packs(visits, sorted[k])
    {
      assert sorted[k] in entries;
      var i :| 0 <= i < |entries| && entries[i] == sorted[k];
      assert sorted[k] == EntryOf(visits[i]);
    }
    forall i | 0 <= i < |visits|
      ensures EntryOf(visits[i]) in sorted
    {
      assert entries[i] in entries;
    }
  }

  lemma KnownNormalizedMode(permissions: nat)
    ensures KnownMode(NormalizedMode(permissions, false)) && Perm(NormalizedMode(permissions, false)) == NormalizedMode(permissions, false)
  {
  }

  /** Packing keeps exactly the tree's files. */
  lemma PackedYields(entries: seq<Entry>, visits: seq<Visit>, tail: Entry, f: File)
    requires PackedFrom(entries, visits) && tail.name == INDEX_PATH
    requires forall i :: 0 <= i < |visits| ==> Packable(visits[i])
    ensures Yields(entries + [tail], f) <==> Holds(visits, f)
  {
    hide ValidUSTARPath, NormalizedMode, Perm, KnownMode;
    var all := entries + [tail];
    if Yields(all, f) {
      var k :| 0 <= k < |all| && IsFile(all[k]) && FileOf(all[k]) == f;
      assert k < |entries| && all[k] == entries[k] && Packs(visits, entries[k]);
      var i :| 0 <= i < |visits| && entries[k] == EntryOf(visits[i]);
      KnownNormalizedMode(visits[i].node.permissions);
    }
    if Holds(visits, f) {
      var i :| 0 <= i < |visits| && visits[i].node.Plainfile?
        && f == File(visits[i].path, visits[i].node.content, NormalizedMode(visits[i].node.permissions, false));
      KnownNormalizedMode(visits[i].node.permissions);
      var k :| 0 <= k < |entries| && entries[k] == EntryOf(visits[i]);
      assert IsFile(all[k]) && FileOf(all[k]) == f;
    }
  }

  // The layer a tree is packed into is accepted

  lemma PackedIndexMap(visits: seq<Visit>, hash: Hash, v: Visit)
    requires Tree(visits) && v in visits && v.node.Plainfile?
    ensures var index := Sort(IndexOf(visits, hash), IndexEntryPath);
            && v.path in IndexMap(index)
            && IndexMap(index)[v.path] == IndexValue(hash(v.node.content), NormalizedMode(v.node.permissions, false))
  {
    hide Sort, IndexMap, NormalizedMode, IndexOf, TreeFiles;
    var plain := IndexOf(visits, hash);
    var index := Sort(plain, IndexEntryPath);
    var f := File(v.path, v.node.content, NormalizedMode(v.node.permissions, false));
    var e := IndexEntry(f.path, hash(f.content), f.mode);
    assert Holds(visits, f);
    TreeFilesHold(visits, f);
    IndexOfHolds(visits, hash, e);
    SortedIndex(visits, hash);
    assert e in index;
    var i :| 0 <= i < |index| && index[i] == e;
    IndexMapValue(index, i);
  }

  lemma SortedIndex(visits: seq<Visit>, hash: Hash)
    requires Tree(visits)
    ensures var index := Sort(IndexOf(visits, hash), IndexEntryPath);
            DistinctPaths(index) && forall e :: e in index <==> e in IndexOf(visits, hash)
  {
    hide Sort, IndexOf;
    IndexIsDistinct(visits, hash);
    SortOfDistinct(IndexOf(visits, hash), IndexEntryPath);
    var index := Sort(IndexOf(visits, hash), IndexEntryPath);
    forall i, j | 0 <= i < j < |index|
      ensures index[i].path != index[j].path
    {
      BelowIsAsymmetric(IndexEntryPath(index[i]), IndexEntryPath(index[j]));
    }
  }

  lemma PackedEntryIsGood(visits: seq<Visit>, hash: Hash, v: Visit)
    requires Tree(visits) && v in visits && Packable(v)
    ensures GoodEntry(hash, Sort(IndexOf(visits, hash), IndexEntryPath), EntryOf(v))
  {
    hide Sort, IndexMap, IndexOf, TreeFiles, ValidUSTARPath, NormalizedMode, Perm, KnownMode, SafeName, ValidIndex;
    EntriesAreSafe(v);
    if v.node.Plainfile? {
      PackedIndexMap(visits, hash, v);
      KnownNormalizedMode(v.node.permissions);
    }
  }

  lemma {:induction false} IndexedFileIsPacked(visits: seq<Visit>, hash: Hash, e: IndexEntry, entries: seq<Entry>)
    requires Tree(visits) && e in IndexOf(visits, hash) && PackedFrom(entries, visits)
    requires forall i :: 0 <= i < |visits| ==> Packable(visits[i])
    ensures HasFile(entries, e.path) && e.path != INDEX_PATH
  {
    hide IndexOf, TreeFiles, ValidUSTARPath, NormalizedMode;
    IndexOfHolds(visits, hash, e);
    var f :| f in TreeFiles(visits) && e == IndexEntry(f.path, hash(f.content), f.mode);
    TreeFilesHold(visits, f);
    var i :| 0 <= i < |visits| && visits[i].node.Plainfile?
      && f == File(visits[i].path, visits[i].node.content, NormalizedMode(visits[i].node.permissions, false));
    assert EntryOf(visits[i]) in entries;
    var k :| 0 <= k < |entries| && entries[k] == EntryOf(visits[i]);
    assert IsFile(entries[k]) && entries[k].name == e.path;
  }

  lemma BuiltLayersAreAccepted(visits: seq<Visit>, hash: Hash)
    requires Tree(visits) && Buildable(visits, hash)
    ensures Accepts(hash, Built(visits, hash))
  {
    hide Sort, IndexMap, IndexOf, TreeFiles, GoodEntry, IsFile, EntryOf, Packable, ValidIndex;
    var layer := Built(visits, hash);
    var sorted := Sort(EntriesOf(visits), EntryPath);
    SortedEntries(visits);
    SortedIndex(visits, hash);
    forall i | 0 <= i < |layer.index|
      ensures HasFile(layer.entries, layer.index[i].path) && layer.index[i].path != INDEX_PATH
    {
      IndexedFileIsPacked(visits, hash, layer.index[i], sorted);
      HasFileStays(sorted, layer.entries[|sorted|], layer.index[i].path);
    }
    forall k | 0 <= k < |layer.entries|
      ensures GoodEntry(hash, layer.index, layer.entries[k])
    {
      if k < |sorted| {
        assert layer.entries[k] == sorted[k] && Packs(visits, sorted[k]);
        var i :| 0 <= i < |visits| && sorted[k] == EntryOf(visits[i]);
        PackedEntryIsGood(visits, hash, visits[i]);
      } else {
        IndexEntryIsGood(hash, layer.index);
      }
    }
    NamesStayDistinct(visits, sorted, layer.entries[|sorted|]);
  }

  lemma IndexEntryIsGood(hash: Hash, index: seq<IndexEntry>)
    requires ValidIndex(index)
    ensures GoodEntry(hash, index, Entry(INDEX_PATH, Regular, PLAIN_FILE, IndexJSON(IndexMap(index))))
  {
  }

  lemma HasFileStays(entries: seq<Entry>, tail: Entry, path: string)
    requires HasFile(entries, path)
    ensures HasFile(entries + [tail], path)
  {
    hide IsFile;
    var k :| 0 <= k < |entries| && IsFile(entries[k]) && entries[k].name == path;
    assert (entries + [tail])[k] == entries[k];
  }

  lemma NamesStayDistinct(visits: seq<Visit>, sorted: seq<Entry>, tail: Entry)
    requires DistinctNames(sorted) && PackedFrom(sorted, visits) && tail.name == INDEX_PATH
    requires forall i :: 0 <= i < |visits| ==> Packable(visits[i])
    ensures DistinctNames(sorted + [tail])
  {
  }

  /** Unpacking a packed tree returns exactly its regular files, in path order, with each mode
      normalised to 0755 or 0644. */
  lemma UnpackingReturnsTheTree(visits: seq<Visit>, hash: Hash)
    requires Tree(visits) && Buildable(visits, hash)
    ensures Accepts(hash, Built(visits, hash))
    ensures Sort(FilesOf(Built(visits, hash).entries), FilePath) == Sort(TreeFiles(visits), FilePath)
    ensures StrictlySorted(Sort(TreeFiles(visits), FilePath), FilePath)
  {
    hide Sort, IndexMap, IndexOf, TreeFiles, FilesOf, IsFile, EntryOf, Packable, ValidIndex, GoodEntry, DistinctKeys, StrictlySorted;
    BuiltLayersAreAccepted(visits, hash);
    var entries := Built(visits, hash).entries;
    var sorted := Sort(EntriesOf(visits), EntryPath);
    SortedEntries(visits);
    FilesAreDistinct(entries);
    TreeFilesAreDistinct(visits);
    SortOfDistinct(FilesOf(entries), FilePath);
    SortOfDistinct(TreeFiles(visits), FilePath);
    forall f
      ensures f in FilesOf(entries) <==> f in TreeFiles(visits)
    {
      FilesOfHolds(entries, f);
      TreeFilesHold(visits, f);
      PackedYields(sorted, visits, entries[|sorted|], f);
    }
    StrictOrderIsUnique(Sort(FilesOf(entries), FilePath), Sort(TreeFiles(visits), FilePath), FilePath);
  }
}
