/** JSON documents as trees, with the three selector edits of the materialization
    engine: select, merge and remove. Marshalling followed by decoding is taken to
    be the identity on trees. */
module Documents {
  import opened Text
  import opened Selectors

  datatype Json =
    | Null
    | Boolean(flag: bool)
    | Number(literal: string)
    | Text(text: string)
    | Array(elements: seq<Json>)
    | Object(fields: map<string, Json>)

  const EMPTY_OBJECT := Object(map[])
  const CROSSES := "selector crosses a non-object value"

  /** selectJSON: absent is not an error, crossing a non-object is. */
  function Select(value: Json, path: seq<string>): Result<Option<Json>> {
    if path == [] then Ok(Some(value))
    else if !value.Object? then Err(CROSSES)
    else if path[0] !in value.fields then Ok(None)
    else Select(value.fields[path[0]], path[1..])
  }

  /** The object a merge descends into, created when missing. */
  function Child(fields: map<string, Json>, name: string): Json {
    if name in fields then fields[name] else EMPTY_OBJECT
  }

  /** mergeJSONSelection on a decoded document. */
  function Merge(document: Json, path: seq<string>, desired: Json): Result<Json>
    requires path != []
    decreases |path|
  {
    if !document.Object? then Err(CROSSES)
    else if |path| == 1 then Ok(Object(document.fields[path[0] := desired]))
    else
      match Merge(Child(document.fields, path[0]), path[1..], desired)
      case Err(e) => Err(e)
      case Ok(child) => Ok(Object(document.fields[path[0] := child]))
  }

  /** removeJSONSelection on a decoded document: a missing intermediate is an error. */
  function Remove(document: Json, path: seq<string>): Result<Json>
    requires path != []
  {
    if !document.Object? then Err(CROSSES)
    else if |path| == 1 then Ok(Object(document.fields - {path[0]}))
    else if path[0] !in document.fields then Err(CROSSES)
    else
      match Remove(document.fields[path[0]], path[1..])
      case Err(e) => Err(e)
      case Ok(child) => Ok(Object(document.fields[path[0] := child]))
  }

  /** The loop of selectJSON, walking one field at a time. */
  method SelectFields(document: Json, path: seq<string>) returns (r: Result<Option<Json>>)
    ensures r == Select(document, path)
  {
    var value := document;
    for i := 0 to |path|
      invariant Select(document, path) == Select(value, path[i..])
    {
      assert path[i..][1..] == path[i + 1..];
      if !value.Object? {
        return Err(CROSSES);
      }
      if path[i] !in value.fields {
        return Ok(None);
      }
      value := value.fields[path[i]];
    }
    return Ok(Some(value));
  }

  // ---------------------------------------------------------------- one edit

  /** A merge fails exactly when selecting the same path fails. */
  lemma {:induction false} MergeFailsWhenSelectFails(d: Json, p: seq<string>, v: Json)
    requires p != []
    ensures Merge(d, p, v).Err? <==> Select(d, p).Err?
    decreases |p|
  {
    if d.Object? && |p| > 1 {
      MergeFailsWhenSelectFails(Child(d.fields, p[0]), p[1..], v);
    }
  }

  /** Whatever is merged at a path is what that path, and everything below it, reads. */
  lemma {:induction false} MergeReadsBack(d: Json, p: seq<string>, v: Json, below: seq<string>)
    requires p != [] && Merge(d, p, v).Ok?
    ensures Select(Merge(d, p, v).value, p + below) == Select(v, below)
    decreases |p|
  {
    assert (p + below)[1..] == p[1..] + below;
    if |p| > 1 {
      MergeReadsBack(Child(d.fields, p[0]), p[1..], v, below);
    } else {
      assert p[1..] + below == below;
    }
  }

  lemma {:induction false} MergeKeepsDisjoint(d: Json, p: seq<string>, v: Json, q: seq<string>)
    requires p != [] && Merge(d, p, v).Ok? && Disjoint(p, q)
    ensures Select(Merge(d, p, v).value, q) == Select(d, q)
    decreases |p|
  {
    if p[0] == q[0] {
      TailsDisjoint(p, q);
      MergeKeepsDisjoint(Child(d.fields, p[0]), p[1..], v, q[1..]);
    }
  }

  lemma TailsDisjoint(p: seq<string>, q: seq<string>)
    requires p != [] && q != [] && p[0] == q[0] && Disjoint(p, q)
    ensures |p| > 1 && |q| > 1 && Disjoint(p[1..], q[1..])
  {
  }

  lemma {:induction false} RemoveReadsAbsent(d: Json, p: seq<string>)
    requires p != [] && Remove(d, p).Ok?
    ensures Select(Remove(d, p).value, p) == Ok(None)
  {
    if |p| > 1 {
      RemoveReadsAbsent(d.fields[p[0]], p[1..]);
    }
  }

  lemma {:induction false} RemoveKeepsDisjoint(d: Json, p: seq<string>, q: seq<string>)
    requires p != [] && Remove(d, p).Ok? && Disjoint(p, q)
    ensures Select(Remove(d, p).value, q) == Select(d, q)
  {
    if p[0] == q[0] {
      TailsDisjoint(p, q);
      RemoveKeepsDisjoint(d.fields[p[0]], p[1..], q[1..]);
    }
  }

  /** What is observed can be removed. */
  lemma {:induction false} PresentIsRemovable(d: Json, p: seq<string>)
    requires p != [] && Select(d, p).Ok? && Select(d, p).value.Some?
    ensures Remove(d, p).Ok?
  {
    if |p| > 1 {
      PresentIsRemovable(d.fields[p[0]], p[1..]);
    }
  }

  predicate IsObject(r: Result<Option<Json>>) {
    r.Ok? && r.value.Some? && r.value.value.Object?
  }

  /** A removal goes through exactly when everything on the way to its path is an object, whether or not
      the path itself is there. */
  lemma {:induction false} RemovesExactly(d: Json, p: seq<string>)
    requires p != []
    ensures Remove(d, p).Ok? <==> forall k :: 0 <= k < |p| ==> IsObject(Select(d, p[..k]))
    decreases |p|
  {
    assert p[..0] == [];
    if d.Object? && |p| > 1 && p[0] in d.fields {
      RemovesExactly(d.fields[p[0]], p[1..]);
      forall k | 0 < k < |p|
        ensures Select(d, p[..k]) == Select(d.fields[p[0]], p[1..][..k - 1])
      {
        assert p[..k][1..] == p[1..][..k - 1];
      }
      if Remove(d, p).Ok? {
        forall k | 0 <= k < |p|
          ensures IsObject(Select(d, p[..k]))
        {
          assert k == 0 || IsObject(Select(d.fields[p[0]], p[1..][..k - 1]));
        }
      } else {
        var k :| 0 <= k < |p[1..]| && !IsObject(Select(d.fields[p[0]], p[1..][..k]));
        assert Select(d, p[..k + 1]) == Select(d.fields[p[0]], p[1..][..k]);
      }
    } else if d.Object? && |p| > 1 {
      assert Select(d, p[..1]) == Ok(None);
    }
  }

  // --------------------------------------------------------------- two edits

  datatype Edit = Put(path: seq<string>, value: Json) | Delete(path: seq<string>)

  function Apply(d: Json, e: Edit): Result<Json>
    requires e.path != []
  {
    if e.Put? then Merge(d, e.path, e.value) else Remove(d, e.path)
  }

  function ApplyBoth(d: Json, first: Edit, second: Edit): Result<Json>
    requires first.path != [] && second.path != []
  {
    match Apply(d, first)
    case Err(e) => Err(e)
    case Ok(next) => Apply(next, second)
  }

  /** A disjoint merge never turns another merge's success into failure or back. */
  lemma MergeFailureIsIndependent(d: Json, a: Edit, b: Edit)
    requires a.path != [] && b.path != [] && Disjoint(a.path, b.path)
    requires b.Put? && Apply(d, a).Ok?
    ensures Apply(Apply(d, a).value, b).Err? <==> Apply(d, b).Err?
  {
    var next := Apply(d, a).value;
    if a.Put? {
      MergeKeepsDisjoint(d, a.path, a.value, b.path);
    } else {
      RemoveKeepsDisjoint(d, a.path, b.path);
    }
    MergeFailsWhenSelectFails(d, b.path, b.value);
    MergeFailsWhenSelectFails(next, b.path, b.value);
  }

  /** Two merges at disjoint selectors give the same document, or the same failure,
      in either order. */
  lemma MergesCommute(d: Json, p: seq<string>, v: Json, q: seq<string>, w: Json)
    requires p != [] && q != [] && Disjoint(p, q)
    ensures ApplyBoth(d, Put(p, v), Put(q, w)) == ApplyBoth(d, Put(q, w), Put(p, v))
    ensures ApplyBoth(d, Put(p, v), Put(q, w)).Ok? <==> Merge(d, p, v).Ok? && Merge(d, q, w).Ok?
  {
    EditsCommute(d, Put(p, v), Put(q, w));
    if Merge(d, p, v).Ok? {
      MergeFailureIsIndependent(d, Put(p, v), Put(q, w));
    }
    ErrorsAreCrossings(d, Put(p, v));
    ErrorsAreCrossings(d, Put(q, w));
    if Merge(d, p, v).Ok? {
      ErrorsAreCrossings(Merge(d, p, v).value, Put(q, w));
    }
    if Merge(d, q, w).Ok? {
      MergeFailureIsIndependent(d, Put(q, w), Put(p, v));
      ErrorsAreCrossings(Merge(d, q, w).value, Put(p, v));
    }
  }

  lemma {:induction false} ErrorsAreCrossings(d: Json, e: Edit)
    requires e.path != []
    ensures Apply(d, e).Err? ==> Apply(d, e).error == CROSSES
    decreases |e.path|
  {
    if d.Object? && |e.path| > 1 {
      var name := e.path[0];
      if e.Put? {
        ErrorsAreCrossings(Child(d.fields, name), Put(e.path[1..], e.value));
      } else if name in d.fields {
        ErrorsAreCrossings(d.fields[name], Delete(e.path[1..]));
      }
    }
  }

  /** Any two disjoint edits that both succeed on the document commute. */
  lemma {:induction false} EditsCommute(d: Json, a: Edit, b: Edit)
    requires a.path != [] && b.path != [] && Disjoint(a.path, b.path)
    ensures Apply(d, a).Ok? && Apply(d, b).Ok? ==>
              ApplyBoth(d, a, b).Ok? && ApplyBoth(d, a, b) == ApplyBoth(d, b, a)
    decreases |a.path|
  {
    hide Merge, Remove;
    if Apply(d, a).Ok? && Apply(d, b).Ok? {
      if a.path[0] == b.path[0] {
        TailsDisjoint(a.path, b.path);
        EditDescends(d, a);
        EditDescends(d, b);
        EditsCommute(Child(d.fields, a.path[0]), Narrow(a), Narrow(b));
        EditsThroughChild(d, a, b);
        EditsThroughChild(d, b, a);
      } else {
        EditsAtHeads(d, a, b);
        EditsAtHeads(d, b, a);
        var f, p, q := d.fields, a.path[0], b.path[0];
        assert Put1(Put1(f, p, EditAtHead(d, a)), q, EditAtHead(d, b))
            == Put1(Put1(f, q, EditAtHead(d, b)), p, EditAtHead(d, a));
      }
    }
  }

  /** Two edits through the same child are the edits of that child. */
  lemma EditsThroughChild(d: Json, a: Edit, b: Edit)
    requires |a.path| > 1 && |b.path| > 1 && a.path[0] == b.path[0]
    requires Apply(d, a).Ok? && Apply(d, b).Ok?
    requires Apply(Child(d.fields, a.path[0]), Narrow(a)).Ok?
    requires ApplyBoth(Child(d.fields, a.path[0]), Narrow(a), Narrow(b)).Ok?
    ensures ApplyBoth(d, a, b) ==
            Ok(Object(d.fields[a.path[0] := ApplyBoth(Child(d.fields, a.path[0]), Narrow(a), Narrow(b)).value]))
  {
    EditDescends(d, a);
    var next := Apply(d, a).value;
    EditDescends(next, b);
    var both := ApplyBoth(Child(d.fields, a.path[0]), Narrow(a), Narrow(b)).value;
    assert next.fields[a.path[0] := both] == d.fields[a.path[0] := both];
  }

  lemma EditsAtHeads(d: Json, a: Edit, b: Edit)
    requires a.path != [] && b.path != [] && a.path[0] != b.path[0]
    requires Apply(d, a).Ok? && Apply(d, b).Ok?
    ensures d.Object?
    ensures ApplyBoth(d, a, b) ==
            Ok(Object(Put1(Put1(d.fields, a.path[0], EditAtHead(d, a)), b.path[0], EditAtHead(d, b))))
  {
  }

  function Narrow(e: Edit): Edit
    requires |e.path| > 1
  {
    if e.Put? then Put(e.path[1..], e.value) else Delete(e.path[1..])
  }

  /** A longer edit rewrites one child. */
  lemma EditDescends(d: Json, e: Edit)
    requires |e.path| > 1
    ensures Apply(d, e).Ok? <==>
            d.Object? && Apply(Child(d.fields, e.path[0]), Narrow(e)).Ok? &&
            (e.Delete? ==> e.path[0] in d.fields)
    ensures Apply(d, e).Ok? ==>
            Apply(d, e).value == Object(d.fields[e.path[0] := Apply(Child(d.fields, e.path[0]), Narrow(e)).value])
  {
  }

  /** One field of an object set or, for None, dropped. */
  function Put1(f: map<string, Json>, name: string, value: Option<Json>): map<string, Json> {
    if value.Some? then f[name := value.value] else f - {name}
  }

  /** What an edit leaves in the first field of its path. */
  ghost function EditAtHead(d: Json, e: Edit): (x: Option<Json>)
    requires e.path != [] && Apply(d, e).Ok?
    ensures Apply(d, e).value == Object(Put1(d.fields, e.path[0], x))
  {
    if |e.path| == 1 then (if e.Put? then Some(e.value) else None)
    else EditDescends(d, e); Some(Apply(Child(d.fields, e.path[0]), Narrow(e)).value)
  }
}
