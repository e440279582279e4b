/** Exactly which trees are packed and which layers are unpacked, entry by entry, and what comes out. */
module CapsuleExtents {
  import opened Text
  import opened Paths
  import opened Ordering
  import opened Canonical
  import opened Capsule
  import opened CapsuleLayers
  import opened CapsuleLaws

  // Single entries

  /** "sha256:" and 64 lower-case hexadecimal digits. */
  predicate IsDigest(d: string) {
    |d| == 71 && d[..7] == "sha256:" && forall c <- d[7..] :: c in "0123456789abcdef"
  }

  /** An index line that may be written down. */
  predicate IsIndexLine(e: IndexEntry) {
    && (exists c <- e.path :: c !in " \t\n\r\U{0B}\U{0C}\U{85}\U{A0}")
    && IsDigest(e.digest) && (e.mode == 0x1A4 || e.mode == 0x1ED)
  }

  lemma DigestExactly(d: string)
    ensures ValidDigest(d) <==> IsDigest(d)
  {
    if |d| == 71 {
      assert HasPrefix(d, "sha256:") <==> d[..7] == "sha256:";
      forall i | 7 <= i < 71
        ensures HexDigit(d[i]) <==> d[i] in "0123456789abcdef"
      {
        HexDigitExactly(d[i]);
      }
      assert forall i :: 7 <= i < 71 ==> d[i] == d[7..][i - 7];
      hide HexDigit;
      if IsDigest(d) {
        forall i | 7 <= i < 71
          ensures HexDigit(d[i])
        {
          assert d[7..][i - 7] in d[7..];
        }
      }
      if ValidDigest(d) {
        forall c <- d[7..]
          ensures c in "0123456789abcdef"
        {
          var j :| 0 <= j < |d[7..]| && d[7..][j] == c;
          assert HexDigit(d[j + 7]);
        }
      }
    }
  }

  lemma HexDigitExactly(c: char)
    ensures HexDigit(c) <==> c in "0123456789abcdef"
  {
    var digits := "0123456789abcdef";
    if HexDigit(c) {
      var i := if c <= '9' then c as int - '0' as int else c as int - 'a' as int + 10;
      assert 0 <= i < 16 && digits[i] == c;
    }
  }

  lemma IndexLineExactly(e: IndexEntry)
    ensures ValidIndexEntry(e) <==> IsIndexLine(e)
  {
    hide Blank, ValidDigest, IsDigest;
    DigestExactly(e.digest);
    BlankExactly(e.path);
  }

  // Unpacking

  /** The JSON map of an index: its paths, each with its digest and mode. */
  ghost predicate Maps(m: map<string, IndexValue>, index: seq<IndexEntry>) {
    && (forall e <- index :: e.path in m && m[e.path] == IndexValue(e.digest, e.mode))
    && forall path :: path in m ==> exists e <- index :: e.path == path
  }

  /** The root itself, or a path of proper names below it. */
  predicate StaysBelow(name: string) {
    name == "." || forall part <- Split(name, '/') :: part != "" && part != "." && part != ".."
  }

  /** An entry that may be unpacked: the canonical index of complete lines, a directory, or a regular file
      that the index lists with the digest of its content and its permissions, which are 0644 or 0755. Its
      name stays below the root. */
  ghost predicate Unpackable(hash: Hash, index: seq<IndexEntry>, e: Entry) {
    if e.name == "index.json" then
      && e.kind == Regular && e.content.IndexJSON? && Maps(e.content.index, index)
      && forall line <- index :: IsIndexLine(line)
    else
      && StaysBelow(e.name)
      && (e.kind == Directory ||
          (&& e.kind == Regular && (e.mode % 512 == 0x1A4 || e.mode % 512 == 0x1ED)
           && IndexEntry(e.name, hash(e.content), e.mode % 512) in index))
  }

  lemma MapsExactly(m: map<string, IndexValue>, index: seq<IndexEntry>)
    requires DistinctPaths(index)
    ensures Maps(m, index) <==> m == IndexMap(index)
  {
    hide IndexMap;
    forall i | 0 <= i < |index|
      ensures index[i].path in IndexMap(index) && IndexMap(index)[index[i].path] == IndexValue(index[i].digest, index[i].mode)
    {
      IndexMapValue(index, i);
    }
    forall path
      ensures path in IndexMap(index) <==> exists e <- index :: e.path == path
    {
      IndexMapDomain(index, path);
      if HasPath(index, path) {
        var i :| 0 <= i < |index| && index[i].path == path;
        assert index[i] in index;
      }
    }
    if Maps(m, index) {
      assert m.Keys == IndexMap(index).Keys;
      forall path | path in m
        ensures m[path] == IndexMap(index)[path]
      {
        var e :| e in index && e.path == path;
        var i :| 0 <= i < |index| && index[i] == e;
      }
    }
  }

  lemma SafeExactly(name: string)
    ensures SafeName(name) <==> StaysBelow(name)
  {
    hide SafeName, Split;
    SafeNamesStayInside(name);
    var fields := Split(name, '/');
    if forall part <- fields :: part != "" && part != "." && part != ".." {
      assert forall i :: 0 <= i < |fields| ==> fields[i] in fields;
    }
  }

  lemma DescribesExactly(hash: Hash, index: seq<IndexEntry>, e: Entry)
    requires DistinctPaths(index)
    ensures Describes(IndexMap(index), hash(e.content), e) <==>
              && (e.mode % 512 == 0x1A4 || e.mode % 512 == 0x1ED)
              && IndexEntry(e.name, hash(e.content), e.mode % 512) in index
  {
    hide IndexMap;
    IndexMapDomain(index, e.name);
    if HasPath(index, e.name) {
      var i :| 0 <= i < |index| && index[i].path == e.name;
      IndexMapValue(index, i);
      assert index[i] in index;
      assert forall line <- index :: line.path == e.name ==> line == index[i];
    }
  }

  lemma GoodExactly(hash: Hash, index: seq<IndexEntry>, e: Entry)
    requires DistinctPaths(index)
    ensures GoodEntry(hash, index, e) <==> Unpackable(hash, index, e)
  {
    hide IndexMap, SafeName, StaysBelow, Describes, Maps, IsIndexLine, ValidIndexEntry;
    if e.name == INDEX_PATH {
      if e.content.IndexJSON? {
        MapsExactly(e.content.index, index);
      }
      forall i | 0 <= i < |index|
        ensures ValidIndexEntry(index[i]) <==> IsIndexLine(index[i])
      {
        IndexLineExactly(index[i]);
      }
      assert (forall line <- index :: IsIndexLine(line)) <==> forall i :: 0 <= i < |index| ==> ValidIndexEntry(index[i]);
    } else {
      SafeExactly(e.name);
      DescribesExactly(hash, index, e);
    }
  }

  /** A layer is unpacked exactly when its index repeats no path and does not list itself, no name repeats,
      every entry may be unpacked, and every line of the index has its regular file. */
  lemma {:induction false} UnpacksExactly(hash: Hash, layer: Layer)
    ensures Accepts(hash, layer) <==>
              && (forall i, j :: 0 <= i < j < |layer.index| ==> layer.index[i].path != layer.index[j].path)
              && (forall line <- layer.index :: line.path != "index.json")
              && (forall i, j :: 0 <= i < j < |layer.entries| ==> layer.entries[i].name != layer.entries[j].name)
              && (forall e <- layer.entries :: Unpackable(hash, layer.index, e))
              && forall line <- layer.index :: exists e <- layer.entries :: e.kind == Regular && e.name == line.path
  {
    hide GoodEntry, Unpackable;
    var index, entries := layer.index, layer.entries;
    if DistinctPaths(index) {
      forall k | 0 <= k < |entries|
        ensures GoodEntry(hash, index, entries[k]) <==> Unpackable(hash, index, entries[k])
      {
        GoodExactly(hash, index, entries[k]);
      }
      assert (forall e <- entries :: Unpackable(hash, index, e)) <==>
               forall k :: 0 <= k < |entries| ==> GoodEntry(hash, index, entries[k]);
      IndexNotListed(index);
      if forall line <- index :: line.path != "index.json" {
        CoveredByFiles(index, entries);
      }
    }
  }

  lemma IndexNotListed(index: seq<IndexEntry>)
    ensures HasPath(index, INDEX_PATH) <==> !(forall line <- index :: line.path != "index.json")
  {
    if HasPath(index, INDEX_PATH) {
      var i :| 0 <= i < |index| && index[i].path == INDEX_PATH;
      assert index[i] in index;
    }
  }

  lemma CoveredByFiles(index: seq<IndexEntry>, entries: seq<Entry>)
    requires forall line <- index :: line.path != "index.json"
    ensures Covered(index, entries) <==> forall line <- index :: exists e <- entries :: e.kind == Regular && e.name == line.path
  {
    forall line <- index
      ensures HasFile(entries, line.path) <==> exists e <- entries :: e.kind == Regular && e.name == line.path
    {
      if HasFile(entries, line.path) {
        var k :| 0 <= k < |entries| && IsFile(entries[k]) && entries[k].name == line.path;
        assert entries[k] in entries;
      }
      if e :| e in entries && e.kind == Regular && e.name == line.path {
        var k :| 0 <= k < |entries| && entries[k] == e;
        assert IsFile(entries[k]);
      }
    }
    hide HasFile;
    if forall line <- index :: HasFile(entries, line.path) {
      assert forall i :: 0 <= i < |index| ==> index[i] in index;
    }
  }

  /** What comes out: for every regular entry but the index one file, under its name, with its content and
      the nine permission bits. */
  lemma UnpackedFiles(layer: Layer, f: File)
    ensures f in Sort(FilesOf(layer.entries), FilePath) <==>
              exists e <- layer.entries :: e.kind == Regular && e.name != "index.json" && f == File(e.name, e.content, e.mode % 512)
  {
    hide Sort, FilesOf;
    var entries := layer.entries;
    FilesOfHolds(entries, f);
    SortSorts(FilesOf(entries), FilePath);
    SameElements(Sort(FilesOf(entries), FilePath), FilesOf(entries), f);
    if Yields(entries, f) {
      var k :| 0 <= k < |entries| && IsFile(entries[k]) && FileOf(entries[k]) == f;
      assert entries[k] in entries;
    }
    if e :| e in entries && e.kind == Regular && e.name != "index.json" && f == File(e.name, e.content, e.mode % 512) {
      var k :| 0 <= k < |entries| && entries[k] == e;
      assert IsFile(entries[k]) && FileOf(entries[k]) == f;
    }
  }

  // Packing

  /** Some of the three execute bits. */
  predicate Executable(permissions: nat) {
    permissions % 2 == 1 || (permissions / 8) % 2 == 1 || (permissions / 64) % 2 == 1
  }

  /** What the walk may meet: a directory, or a regular file with one link, at a path that fits a USTAR
      header and is not the index's; a file's path is not blank and its content has a digest. */
  ghost predicate MayBePacked(v: Visit, hash: Hash) {
    && (forall c <- v.path :: 0 < c as int < 0x80)
    && (|v.path| <= 100 ||
        exists k :: 1 <= k <= 155 && k < |v.path| && v.path[k] == '/' && 1 <= |v.path| - k - 1 <= 100)
    && v.path != "index.json"
    && (v.node.Folder? ||
        (&& v.node.Plainfile? && v.node.links <= 1 && IsDigest(hash(v.node.content))
         && exists c <- v.path :: c !in " \t\n\r\U{0B}\U{0C}\U{85}\U{A0}"))
  }

  lemma USTARExactly(path: string)
    ensures ValidUSTARPath(path) <==>
              && (forall c <- path :: 0 < c as int < 0x80)
              && (|path| <= 100 || exists k :: 1 <= k <= 155 && k < |path| && path[k] == '/' && 1 <= |path| - k - 1 <= 100)
  {
    hide ValidUSTARPath;
    USTARPathsExactlySplit(path);
    if forall c <- path :: 0 < c as int < 0x80 {
      assert forall i :: 0 <= i < |path| ==> path[i] in path;
    }
    if k :| 1 <= k <= 155 && k < |path| && path[k] == '/' && 1 <= |path| - k - 1 <= 100 {
      assert SplitsAt(path, k);
    }
  }

  /** A tree is packed exactly when it holds a regular file and everything in it may be packed. */
  lemma {:induction false} PacksExactly(visits: seq<Visit>, hash: Hash)
    requires Tree(visits)
    ensures Buildable(visits, hash) <==>
              (exists v <- visits :: v.node.Plainfile?) && forall v <- visits :: MayBePacked(v, hash)
  {
    hide Sort, IndexOf, ValidIndexEntry, IsDigest, Packable;
    var plain := IndexOf(visits, hash);
    var index := Sort(plain, IndexEntryPath);
    SortedIndex(visits, hash);
    IndexNotEmpty(visits, hash);
    forall v <- visits
      ensures MayBePacked(v, hash) <==> Packable(v) && (v.node.Plainfile? ==> ValidIndexEntry(LineOf(v, hash)))
    {
      MayBePackedExactly(v, hash);
    }
    LinesOf(visits, hash);
    assert (forall i :: 0 <= i < |visits| ==> Packable(visits[i])) <==> forall v <- visits :: Packable(v);
    assert (forall i :: 0 <= i < |index| ==> ValidIndexEntry(index[i])) <==> forall e <- index :: ValidIndexEntry(e);
    assert (forall e <- index :: ValidIndexEntry(e)) <==> forall v <- visits :: v.node.Plainfile? ==> ValidIndexEntry(LineOf(v, hash));
  }

  function LineOf(v: Visit, hash: Hash): IndexEntry
    requires v.node.Plainfile?
  {
    IndexEntry(v.path, hash(v.node.content), NormalizedMode(v.node.permissions, false))
  }

  lemma MayBePackedExactly(v: Visit, hash: Hash)
    ensures MayBePacked(v, hash) <==> Packable(v) && (v.node.Plainfile? ==> ValidIndexEntry(LineOf(v, hash)))
  {
    hide ValidUSTARPath, IsDigest, ValidDigest, Blank, NormalizedMode;
    USTARExactly(v.path);
    if v.node.Plainfile? {
      DigestExactly(hash(v.node.content));
      BlankExactly(v.path);
      KnownNormalizedMode(v.node.permissions);
    }
  }

  lemma LinesOf(visits: seq<Visit>, hash: Hash)
    ensures forall v <- visits :: v.node.Plainfile? ==> LineOf(v, hash) in IndexOf(visits, hash)
    ensures forall e <- IndexOf(visits, hash) :: exists v <- visits :: v.node.Plainfile? && e == LineOf(v, hash)
  {
    hide IndexOf, TreeFiles, NormalizedMode;
    forall v <- visits | v.node.Plainfile?
      ensures LineOf(v, hash) in IndexOf(visits, hash)
    {
      var f := File(v.path, v.node.content, NormalizedMode(v.node.permissions, false));
      assert Holds(visits, f);
      TreeFilesHold(visits, f);
      IndexOfHolds(visits, hash, LineOf(v, hash));
    }
    forall e <- IndexOf(visits, hash)
      ensures exists v <- visits :: v.node.Plainfile? && e == LineOf(v, hash)
    {
      IndexOfHolds(visits, hash, e);
      var f :| f in TreeFiles(visits) && e == IndexEntry(f.path, hash(f.content), f.mode);
      TreeFilesHold(visits, f);
      var k :| 0 <= k < |visits| && visits[k].node.Plainfile?
        && f == File(visits[k].path, visits[k].node.content, NormalizedMode(visits[k].node.permissions, false));
      assert visits[k] in visits && e == LineOf(visits[k], hash);
    }
  }

  lemma IndexNotEmpty(visits: seq<Visit>, hash: Hash)
    ensures IndexOf(visits, hash) != [] <==> exists v <- visits :: v.node.Plainfile?
  {
    hide IndexOf;
    LinesOf(visits, hash);
    if IndexOf(visits, hash) != [] {
      assert IndexOf(visits, hash)[0] in IndexOf(visits, hash);
    }
  }

  /** The entries of a packed tree: each directory with mode 0755, each regular file with its content and its
      normalised mode, in path order, and the index last. */
  lemma PackedEntries(visits: seq<Visit>, hash: Hash, e: Entry)
    requires Tree(visits) && Buildable(visits, hash)
    ensures var entries := Built(visits, hash).entries;
            && entries != []
            && (e in entries[..|entries| - 1] <==> exists v <- visits ::
                  || (v.node.Folder? && e == Entry(v.path, Directory, 0x1ED, Data("")))
                  || (&& v.node.Plainfile? && e.name == v.path && e.kind == Regular && e.content == v.node.content
                      && e.mode == if Executable(v.node.permissions) then 0x1ED else 0x1A4))
            && StrictlySorted(entries[..|entries| - 1], EntryPath)
            && var last := entries[|entries| - 1];
            && last.name == "index.json" && last.kind == Regular && last.mode == 0x1A4
            && last.content.IndexJSON? && Maps(last.content.index, Built(visits, hash).index)
    ensures forall line :: line in Built(visits, hash).index <==> exists v <- visits ::
              && v.node.Plainfile? && line.path == v.path && line.digest == hash(v.node.content)
              && line.mode == if Executable(v.node.permissions) then 0x1ED else 0x1A4
  {
    assert forall v <- visits :: v.node.Folder? || v.node.Plainfile?;
    hide Sort, IndexOf, IndexMap, Packable, StrictlySorted, ValidIndexEntry, Maps;
    var all := EntriesOf(visits);
    var sorted := Sort(all, EntryPath);
    EntriesAreDistinct(visits);
    SortOfDistinct(all, EntryPath);
    SortedIndex(visits, hash);
    LinesOf(visits, hash);
    MapsExactly(IndexMap(Sort(IndexOf(visits, hash), IndexEntryPath)), Sort(IndexOf(visits, hash), IndexEntryPath));
    assert Built(visits, hash).entries[..|sorted|] == sorted;
    assert e in sorted <==> e in all;
    EntryExactly(visits, e);
    forall line
      ensures line in IndexOf(visits, hash) <==> exists v <- visits ::
                && v.node.Plainfile? && line.path == v.path && line.digest == hash(v.node.content)
                && line.mode == if Executable(v.node.permissions) then 0x1ED else 0x1A4
    {
      LineExactly(visits, hash, line);
    }
  }

  lemma EntryExactly(visits: seq<Visit>, e: Entry)
    requires forall v <- visits :: v.node.Folder? || v.node.Plainfile?
    ensures e in EntriesOf(visits) <==> exists v <- visits ::
              || (v.node.Folder? && e == Entry(v.path, Directory, 0x1ED, Data("")))
              || (&& v.node.Plainfile? && e.name == v.path && e.kind == Regular && e.content == v.node.content
                  && e.mode == if Executable(v.node.permissions) then 0x1ED else 0x1A4)
  {
    var all := EntriesOf(visits);
    if e in all {
      var k :| 0 <= k < |all| && all[k] == e;
      assert visits[k] in visits && e == EntryOf(visits[k]);
    }
    if v :| v in visits && e == EntryOf(v) {
      var k :| 0 <= k < |visits| && visits[k] == v;
      assert all[k] == e;
    }
    forall v <- visits
      ensures e == EntryOf(v) <==>
                || (v.node.Folder? && e == Entry(v.path, Directory, 0x1ED, Data("")))
                || (&& v.node.Plainfile? && e.name == v.path && e.kind == Regular && e.content == v.node.content
                    && e.mode == if Executable(v.node.permissions) then 0x1ED else 0x1A4)
    {
    }
  }

  lemma LineExactly(visits: seq<Visit>, hash: Hash, line: IndexEntry)
    ensures line in IndexOf(visits, hash) <==> exists v <- visits ::
              && v.node.Plainfile? && line.path == v.path && line.digest == hash(v.node.content)
              && line.mode == if Executable(v.node.permissions) then 0x1ED else 0x1A4
  {
    hide IndexOf;
    LinesOf(visits, hash);
    forall v <- visits | v.node.Plainfile?
      ensures line == LineOf(v, hash) <==>
                && line.path == v.path && line.digest == hash(v.node.content)
                && line.mode == if Executable(v.node.permissions) then 0x1ED else 0x1A4
    {
    }
    hide LineOf, Executable;
  }

  /** Every regular file of a packed tree comes out again, and nothing else: under its path, with its content,
      and with mode 0755 if it had an execute bit, 0644 otherwise. */
  lemma RoundTripFiles(visits: seq<Visit>, hash: Hash, f: File)
    requires Tree(visits) && Buildable(visits, hash)
    ensures f in Sort(FilesOf(Built(visits, hash).entries), FilePath) <==>
              exists v <- visits ::
                && v.node.Plainfile? && f.path == v.path && f.content == v.node.content
                && f.mode == if Executable(v.node.permissions) then 0x1ED else 0x1A4
  {
    hide Sort, FilesOf, TreeFiles, Buildable, Built;
    UnpackingReturnsTheTree(visits, hash);
    SortSorts(TreeFiles(visits), FilePath);
    SameElements(Sort(TreeFiles(visits), FilePath), TreeFiles(visits), f);
    TreeFilesHold(visits, f);
    if Holds(visits, f) {
      var k :| 0 <= k < |visits| && visits[k].node.Plainfile?
        && f == File(visits[k].path, visits[k].node.content, NormalizedMode(visits[k].node.permissions, false));
      assert visits[k] in visits;
    }
    if v :| v in visits && v.node.Plainfile? && f.path == v.path && f.content == v.node.content
            && f.mode == if Executable(v.node.permissions) then 0x1ED else 0x1A4 {
      var k :| 0 <= k < |visits| && visits[k] == v;
      assert f == File(v.path, v.node.content, NormalizedMode(v.node.permissions, false));
    }
  }
}
