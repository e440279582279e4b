/** Planning a batch of Profile Materializations and the effect of applying it.
    A file system is the set of its regular files; directories are implied by the
    files below them. A digest is represented by what it was computed from. */
module Materialization {
  import opened Text
  import opened Selectors
  import opened Documents
  import JsonText

  /** The State Component root followed by the components of a clean target. */
  type Location = seq<string>

  /** The text of a file. A document is a text together with the tree it decodes to; opaque
      text does not decode as one JSON document. */
  datatype Content = Document(text: string, tree: Json) | Opaque(text: string)

  /** What json.Marshal makes of a tree. */
  function Canonical(tree: Json): Content {
    Document(JsonText.Encode(tree), tree)
  }

  datatype File = File(content: Content, mode: nat)

  type Files = map<Location, File>

  /** No regular file lies on the path to another. */
  predicate WellFormed(fs: Files) {
    forall a, b :: a in fs && b in fs ==> !(a < b)
  }

  predicate BelowFile(fs: Files, l: Location) {
    exists k :: k in fs && k < l
  }

  predicate DirectoryAt(fs: Files, l: Location) {
    exists k :: k in fs && l < k
  }

  /** The regular files at or below a location. */
  function Within(fs: Files, l: Location): Files {
    map k | k in fs && l <= k :: fs[k]
  }

  function Without(fs: Files, l: Location): Files {
    map k | k in fs && !(l <= k) :: fs[k]
  }

  // ------------------------------------------------------------- observation

  datatype Digest = Absent | OfContent(content: Content) | OfTree(files: Files)

  /** readMaterializedFile: a directory, or a file on the way, is an error. */
  function ReadFile(fs: Files, l: Location): Result<Option<File>> {
    if BelowFile(fs, l) then Err("not a directory")
    else if l in fs then Ok(Some(fs[l]))
    else if DirectoryAt(fs, l) then Err("target is not a regular file")
    else Ok(None)
  }

  function SelectContent(content: Content, path: seq<string>): Result<Option<Json>> {
    match content
    case Opaque(_) => Err("decode JSON target")
    case Document(_, tree) => Select(tree, path)
  }

  function Observe(fs: Files, l: Location, selector: string, directory: bool): Result<Digest>
    requires ValidSyntax(selector)
  {
    if directory then
      if BelowFile(fs, l) || l in fs then Err("directory target is not a real directory")
      else if DirectoryAt(fs, l) then Ok(OfTree(Within(fs, l)))
      else Ok(Absent)
    else
      match ReadFile(fs, l)
      case Err(e) => Err(e)
      case Ok(None) => Ok(Absent)
      case Ok(Some(file)) =>
        if Fields(selector) == [] then Ok(OfContent(file.content))
        else
          match SelectContent(file.content, Fields(selector))
          case Err(e) => Err(e)
          case Ok(None) => Ok(Absent)
          case Ok(Some(value)) => Ok(OfContent(Canonical(value)))
  }

  // ---------------------------------------------------------------- planning

  datatype Intent = Reconcile | Prune

  datatype Mode = Managed | Seeded | Referenced

  datatype Operation = Create | Update | Skip | Drift | Conflict | Orphan | Remove | RequiresInput

  /** PlanMaterialization: the three-way decision between desired, last-applied and
      observed digests. */
  function Decide(mode: Mode, desired: Digest, lastApplied: Digest, observed: Digest,
                  bound: bool, intent: Intent): Result<Operation>
  {
    if desired.Absent? then
      if intent.Prune? then Ok(if observed.Absent? then Skip else Operation.Remove)
      else Ok(Orphan)
    else if intent.Prune? then Err("cannot prune a materialization whose source is present")
    else
      match mode
      case Referenced => Ok(if bound then Skip else RequiresInput)
      case Seeded =>
        Ok(if !lastApplied.Absent? then Skip else if !observed.Absent? then Conflict else Create)
      case Managed =>
        if observed == lastApplied then
          Ok(if desired == lastApplied then Skip else if observed.Absent? then Create else Update)
        else Ok(if desired == lastApplied then Drift else Conflict)
  }

  /** What an item wants installed: nothing once its source is gone. A directory's
      files are named by their full locations, all strictly below the target. */
  datatype Desired = Nothing | FileContent(content: Content) | Tree(files: Files)

  datatype Item = Item(
    id: string, location: Location, selector: string, directory: bool, mode: Mode,
    desired: Desired, fileMode: nat, lastApplied: Digest, observed: Digest,
    bound: bool, cacheKeyChanged: bool, approved: bool)

  datatype Plan = Plan(
    id: string, operation: Operation, location: Location, selector: string, directory: bool,
    reference: bool, desired: Desired, fileMode: nat, observed: Digest)

  predicate JsonTarget(l: Location) {
    l != [] && HasSuffix(l[|l| - 1], ".json")
  }

  /** validateMaterializationSelectorSyntax: fields are selected in JSON targets only. */
  predicate ValidSelector(item: Item) {
    ValidSyntax(item.selector) && (Fields(item.selector) != [] ==> JsonTarget(item.location))
  }

  /** validateRecordedMaterialization once the source is gone, validateReferencedMaterialization
      for metadata only, and validateDesiredMaterialization. A selector is not checked on a
      referenced item whose source is present. */
  predicate ValidItem(item: Item) {
    && !Blank(item.id)
    && match item.desired
       case Nothing => ValidSelector(item)
       case FileContent(content) =>
         if item.mode.Referenced? then item.lastApplied.Absent?
         else ValidSelector(item) && !item.directory && (JsonTarget(item.location) ==> content.Document?)
       case Tree(files) =>
         if item.mode.Referenced? then item.lastApplied.Absent?
         else
           item.directory && ValidSyntax(item.selector) && Fields(item.selector) == []
           && files != map[] && forall k :: k in files ==> item.location < k
  }

  function DesiredDigest(desired: Desired): Digest {
    match desired
    case Nothing => Absent
    case FileContent(content) => OfContent(content)
    case Tree(files) => OfTree(files)
  }

  /** prepareProfileMaterialization followed by the approval rule of the batch. */
  function Prepare(fs: Files, item: Item, intent: Intent): (r: Result<Plan>)
    ensures r.Ok? ==> ValidPlan(r.value)
    ensures r.Ok? && Mutating(r.value) ==> ObservedIn(fs, r.value)
  {
    if !ValidItem(item) then Err("materialization is invalid")
    else
      var observed := if item.mode.Referenced? then Ok(item.observed)
                      else Observe(fs, item.location, item.selector, item.directory);
      if observed != Ok(item.observed) then Err("observation changed")
      else
        match Decide(item.mode, DesiredDigest(item.desired), item.lastApplied, item.observed, item.bound, intent)
        case Err(e) => Err(e)
        case Ok(decided) =>
          var refreshed :=
            if decided.Skip? && item.cacheKeyChanged && !item.desired.Nothing? && !item.mode.Referenced?
            then Update else decided;
          var operation :=
            if item.approved || refreshed.Orphan? || refreshed.Skip? then refreshed else RequiresInput;
          Ok(Plan(item.id, operation, item.location, Normalize(item.selector), item.directory,
                  item.mode.Referenced?, item.desired, item.fileMode, item.observed))
  }

  predicate Mutating(p: Plan) {
    !p.operation.Skip? && !p.operation.Orphan? && !p.reference
  }

  predicate Blocked(p: Plan) {
    p.operation.Drift? || p.operation.Conflict? || p.operation.RequiresInput?
  }

  predicate ValidPlan(p: Plan) {
    && p.selector != "" && (!p.reference ==> ValidSyntax(p.selector))
    && (Mutating(p) ==>
          && (p.operation.Remove? ==> !p.observed.Absent?)
          && (!p.operation.Remove? && !Blocked(p) ==>
                if p.directory then p.desired.Tree? && p.desired.files != map[] && forall k :: k in p.desired.files ==> p.location < k
                else p.desired.FileContent? && (Fields(p.selector) != [] ==> p.desired.content.Document?)))
  }

  predicate ObservedIn(fs: Files, p: Plan)
    requires ValidSyntax(p.selector)
  {
    Observe(fs, p.location, p.selector, p.directory) == Ok(p.observed)
  }

  /** What an item claims of its target; a directory target is owned whole. */
  function Owned(item: Item): string {
    if item.directory then "$" else Normalize(item.selector)
  }

  /** Two items the ownership record accepts together, the later one second. */
  predicate Compatible(earlier: Item, later: Item) {
    earlier.location == later.location ==> !Overlap(Owned(later), Owned(earlier))
  }

  type Ownership = map<Location, seq<string>>

  ghost predicate Claims(items: seq<Item>, l: Location, selector: string) {
    exists item :: item in items && item.location == l && Owned(item) == selector
  }

  /** The record holds exactly the claims of these items. */
  ghost predicate Records(owned: Ownership, items: seq<Item>) {
    forall l, s :: (l in owned && s in owned[l]) <==> Claims(items, l, s)
  }

  /** recordMaterializationOwnership: refuses exactly an overlapping claim. */
  method RecordOwnership(owned: Ownership, ghost items: seq<Item>, item: Item) returns (r: Result<Ownership>)
    requires Records(owned, items)
    ensures r.Ok? ==> Records(r.value, items + [item])
    ensures r.Ok? <==> forall earlier :: earlier in items ==> Compatible(earlier, item)
  {
    var existing := if item.location in owned then owned[item.location] else [];
    assert forall s :: s in existing <==> Claims(items, item.location, s);
    for k := 0 to |existing|
      invariant forall m :: 0 <= m < k ==> !Overlap(Owned(item), existing[m])
    {
      if Overlap(Owned(item), existing[k]) {
        assert Claims(items, item.location, existing[k]);
        return Err("target has overlapping selectors");
      }
    }
    forall earlier | earlier in items
      ensures Compatible(earlier, item)
    {
      if earlier.location == item.location {
        assert Claims(items, item.location, Owned(earlier));
      }
    }
    var next := owned[item.location := existing + [Owned(item)]];
    forall l, s
      ensures (l in next && s in next[l]) <==> Claims(items + [item], l, s)
    {
      assert Claims(items + [item], l, s) <==>
             Claims(items, l, s) || (item.location == l && Owned(item) == s);
    }
    r := Ok(next);
  }

  /** The batch is acceptable against this file system: distinct identities,
      independent claims, every item plannable. */
  predicate Acceptable(fs: Files, items: seq<Item>, intent: Intent) {
    && (forall i, j :: 0 <= i < j < |items| ==> items[i].id != items[j].id)
    && (forall i, j :: 0 <= i < j < |items| ==> Compatible(items[i], items[j]))
    && (forall i :: 0 <= i < |items| ==> Prepare(fs, items[i], intent).Ok?)
  }

  predicate Planned(fs: Files, items: seq<Item>, intent: Intent, plans: seq<Plan>) {
    && Acceptable(fs, items, intent)
    && |plans| == |items|
    && (forall i :: 0 <= i < |items| ==> Prepare(fs, items[i], intent).value == plans[i])
  }

  /** What the planning loop checks of one more item. */
  predicate Joins(fs: Files, earlier: seq<Item>, item: Item, intent: Intent) {
    && (forall i :: 0 <= i < |earlier| ==> earlier[i].id != item.id && Compatible(earlier[i], item))
    && Prepare(fs, item, intent).Ok?
  }

  ghost predicate Identities(seen: set<string>, items: seq<Item>) {
    forall id :: id in seen <==> exists item :: item in items && item.id == id
  }

  lemma SeenDecides(seen: set<string>, earlier: seq<Item>, item: Item)
    requires Identities(seen, earlier)
    ensures item.id in seen <==> exists i :: 0 <= i < |earlier| && earlier[i].id == item.id
    ensures Identities(seen + {item.id}, earlier + [item])
  {
    forall id
      ensures id in seen + {item.id} <==> exists other :: other in earlier + [item] && other.id == id
    {
      assert item in earlier + [item];
      assert forall other :: other in earlier ==> other in earlier + [item];
    }
  }

  /** The checks of one item, as the loop makes them. */
  lemma ChecksDecide(fs: Files, earlier: seq<Item>, item: Item, intent: Intent, seen: set<string>)
    requires Identities(seen, earlier)
    ensures Joins(fs, earlier, item, intent) <==>
              item.id !in seen && (forall other :: other in earlier ==> Compatible(other, item)) && Prepare(fs, item, intent).Ok?
  {
    hide Prepare, Compatible;
    SeenDecides(seen, earlier, item);
    assert forall i :: 0 <= i < |earlier| ==> earlier[i] in earlier;
  }

  lemma PlannedOneMore(fs: Files, earlier: seq<Item>, item: Item, intent: Intent, plans: seq<Plan>)
    requires Planned(fs, earlier, intent, plans) && Joins(fs, earlier, item, intent)
    ensures Planned(fs, earlier + [item], intent, plans + [Prepare(fs, item, intent).value])
  {
    hide Prepare, Compatible;
  }

  lemma AcceptableJoins(fs: Files, items: seq<Item>, n: nat, intent: Intent)
    requires n < |items| && Acceptable(fs, items, intent)
    ensures Joins(fs, items[..n], items[n], intent)
  {
    hide Prepare, Compatible;
  }

  /** The planning loop yields the plans of every acceptable batch and of no other. */
  method PlanBatch(fs: Files, items: seq<Item>, intent: Intent) returns (r: Result<seq<Plan>>)
    ensures r.Ok? <==> Acceptable(fs, items, intent)
    ensures r.Ok? ==> Planned(fs, items, intent, r.value)
  {
    var seen: set<string> := {};
    var owned: Ownership := map[];
    var plans: seq<Plan> := [];
    assert items[..|items|] == items && Planned(fs, items[..0], intent, []) && Identities({}, items[..0]);
    hide Prepare, Compatible, Records, Identities;
    for n := 0 to |items|
      invariant Planned(fs, items[..n], intent, plans)
      invariant Identities(seen, items[..n])
      invariant Records(owned, items[..n])
    {
      hide Acceptable, Planned, Joins;
      var item := items[n];
      ghost var earlier := items[..n];
      assert items[..n + 1] == earlier + [item];
      ChecksDecide(fs, earlier, item, intent, seen);
      SeenDecides(seen, earlier, item);
      if Acceptable(fs, items, intent) {
        AcceptableJoins(fs, items, n, intent);
      }
      if item.id in seen {
        return Err("duplicate identity");
      }
      seen := seen + {item.id};
      var recorded := RecordOwnership(owned, earlier, item);
      if recorded.Err? {
        return Err(recorded.error);
      }
      owned := recorded.value;
      var prepared := Prepare(fs, item, intent);
      if prepared.Err? {
        return Err(prepared.error);
      }
      PlannedOneMore(fs, earlier, item, intent, plans);
      plans := plans + [prepared.value];
    }
    r := Ok(plans);
  }

  // ----------------------------------------------------------------- effects

  /** What a successful plan.apply() leaves behind; an error when the target no
      longer reads as it was observed, or when the edit itself is impossible. */
  function Effect(fs: Files, p: Plan): Result<Files>
    requires ValidPlan(p) && !Blocked(p)
  {
    if !Mutating(p) then Ok(fs)
    else if !ObservedIn(fs, p) then Err("observation changed before mutation")
    else if p.operation.Remove? then
      if p.directory then Ok(Without(fs, p.location))
      else EditFile(fs, p, None)
    else if p.directory then
      if WellFormed(p.desired.files) then Ok(Without(fs, p.location) + p.desired.files)
      else Err("directory plan is not a tree")
    else EditFile(fs, p, Some(p.desired.content))
  }

  /** A file plan rewrites its one file. */
  function EditFile(fs: Files, p: Plan, desired: Option<Content>): Result<Files>
    requires ValidPlan(p) && !p.reference && (desired.Some? && Fields(p.selector) != [] ==> desired.value.Document?)
  {
    match ReadFile(fs, p.location)
    case Err(e) => Err(e)
    case Ok(current) =>
      if Fields(p.selector) == [] then
        if desired.Some? then Ok(fs[p.location := File(desired.value, p.fileMode)])
        else if current.None? then Err("no such file")
        else Ok(fs - {p.location})
      else if desired.None? && current.None? then Err("no such file")
      else if current.Some? && current.value.content.Opaque? then Err("decode JSON target")
      else
        var tree := if current.Some? then current.value.content.tree else EMPTY_OBJECT;
        var mode := if desired.Some? then p.fileMode else current.value.mode;
        match Apply(tree, EditOf(p, desired))
        case Err(e) => Err(e)
        case Ok(edited) => Ok(fs[p.location := File(Canonical(edited), mode)])
  }

  function EditOf(p: Plan, desired: Option<Content>): Edit
    requires ValidPlan(p) && !p.reference && (desired.Some? ==> desired.value.Document?)
  {
    if desired.Some? then Put(Fields(p.selector), desired.value.tree) else Delete(Fields(p.selector))
  }

  predicate Runnable(plans: seq<Plan>) {
    forall i :: 0 <= i < |plans| ==> ValidPlan(plans[i]) && !Blocked(plans[i])
  }

  /** The file system after the first n plans have been applied in order. */
  function StateAfter(fs: Files, plans: seq<Plan>, n: nat): Result<Files>
    requires Runnable(plans) && n <= |plans|
  {
    if n == 0 then Ok(fs)
    else
      match StateAfter(fs, plans, n - 1)
      case Err(e) => Err(e)
      case Ok(before) => Effect(before, plans[n - 1])
  }
}
