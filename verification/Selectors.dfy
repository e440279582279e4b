/** Materialization selectors: dotted paths into a JSON document, written "$.a.b",
    with "$" (or the empty string) naming the whole file. */
module Selectors {
  import opened Text

  /** An omitted selector owns the whole file. */
  function Normalize(selector: string): string {
    if selector == "" then "$" else selector
  }

  /** Every caller checks the file extension separately; the field syntax is this. */
  predicate ValidSyntax(selector: string) {
    selector == "" || selector == "$" ||
    (HasPrefix(selector, "$.") &&
     forall i :: 0 <= i < |Split(selector[2..], '.')| ==> Split(selector[2..], '.')[i] != "")
  }

  /** The field path of an accepted selector; the whole document is the empty path. */
  function Fields(selector: string): (path: seq<string>)
    requires ValidSyntax(selector)
  {
    if Normalize(selector) == "$" then [] else Split(selector[2..], '.')
  }

  /** MaterializationSelectorsOverlap, on the strings themselves. */
  predicate Overlap(left: string, right: string) {
    left == right || left == "$" || right == "$" ||
    HasPrefix(left, right + ".") || HasPrefix(right, left + ".")
  }

  /** Two paths neither of which leads through the other. */
  predicate Disjoint(p: seq<string>, q: seq<string>) {
    !(p <= q) && !(q <= p)
  }

  /** The string test means exactly that one dotted path is a prefix of the other. */
  lemma OverlapIsPrefixRelation(left: string, right: string)
    requires ValidSyntax(left) && ValidSyntax(right)
    ensures Overlap(Normalize(left), Normalize(right)) <==> !Disjoint(Fields(left), Fields(right))
  {
    if Normalize(left) != "$" && Normalize(right) != "$" {
      var l, r := left[2..], right[2..];
      assert left == "$." + l && right == "$." + r;
      PrefixUnderRoot(l, r);
      PrefixUnderRoot(r, l);
      ExtensionIsLongerSplit(l, r, '.');
      ExtensionIsLongerSplit(r, l, '.');
      JoinOfSplit(l, '.');
      JoinOfSplit(r, '.');
      assert Fields(left) == Split(l, '.') && Fields(right) == Split(r, '.');
      assert HasPrefix(left, right + ".") <==> Fields(right) < Fields(left) by {
        assert right + "." == "$." + r + ".";
      }
      assert HasPrefix(right, left + ".") <==> Fields(left) < Fields(right) by {
        assert left + "." == "$." + l + ".";
      }
      assert Fields(left) == Fields(right) <==> left == right;
      EitherPrefix(Fields(left), Fields(right));
    }
  }

  /** A selector is accepted exactly when it names the whole file or a path below the root in which
      neither end is a dot and no two dots meet, and its fields spell it out again. */
  lemma SyntaxExactly(selector: string)
    ensures ValidSyntax(selector) <==>
              || selector == "" || selector == "$"
              || (&& |selector| > 2 && selector[..2] == "$." && selector[2] != '.' && selector[|selector| - 1] != '.'
                  && forall k :: 2 <= k < |selector| - 1 ==> !(selector[k] == '.' && selector[k + 1] == '.'))
    ensures ValidSyntax(selector) ==>
              && (Fields(selector) == [] <==> selector == "" || selector == "$")
              && (Fields(selector) != [] ==>
                    selector == "$." + Join(Fields(selector), '.') && forall f <- Fields(selector) :: f != "" && '.' !in f)
  {
    if HasPrefix(selector, "$.") {
      var rest := selector[2..];
      assert selector == "$." + rest;
      NoEmptyFieldExactly(rest);
      JoinOfSplit(rest, '.');
      assert forall k :: 2 <= k < |selector| ==> selector[k] == rest[k - 2];
      assert forall k :: 0 <= k < |rest| ==> rest[k] == selector[k + 2];
    }
  }

  predicate DotsApart(path: string) {
    && path != "" && path[0] != '.' && path[|path| - 1] != '.'
    && forall k :: 0 <= k < |path| - 1 ==> !(path[k] == '.' && path[k + 1] == '.')
  }

  /** No field of a dotted path is empty exactly when the path is not, and its dots are apart and inside. */
  lemma {:induction false} NoEmptyFieldExactly(path: string)
    ensures (forall i :: 0 <= i < |Split(path, '.')| ==> Split(path, '.')[i] != "") <==> DotsApart(path)
    decreases |path|
  {
    var fields := Split(path, '.');
    JoinOfSplit(path, '.');
    if k :| 0 <= k < |path| && path[k] == '.' {
      var before, after := path[..k], path[k + 1..];
      assert path == before + ['.'] + after;
      SplitOfConcat(before, after, '.');
      NoEmptyFieldExactly(before);
      NoEmptyFieldExactly(after);
      var bs, afs := Split(before, '.'), Split(after, '.');
      assert fields == bs + afs;
      assert (forall i :: 0 <= i < |fields| ==> fields[i] != "") <==>
               (forall i :: 0 <= i < |bs| ==> bs[i] != "") && (forall i :: 0 <= i < |afs| ==> afs[i] != "") by {
        assert forall i :: 0 <= i < |bs| ==> fields[i] == bs[i];
        assert forall i :: 0 <= i < |afs| ==> fields[|bs| + i] == afs[i];
      }
      DotsOfConcat(path, before, after);
    } else {
      SplitWithoutSeparator(path, '.');
    }
  }

  lemma DotsOfConcat(path: string, before: string, after: string)
    requires path == before + ['.'] + after
    ensures DotsApart(path) <==> DotsApart(before) && DotsApart(after)
  {
    var n := |before|;
    assert forall k :: 0 <= k < n ==> path[k] == before[k];
    assert path[n] == '.' && forall k :: 0 <= k < |after| ==> path[n + 1 + k] == after[k];
  }

  lemma EitherPrefix(p: seq<string>, q: seq<string>)
    ensures !Disjoint(p, q) <==> p == q || p < q || q < p
  {
  }

  lemma PrefixUnderRoot(long: string, short: string)
    ensures HasPrefix("$." + long, "$." + short + ".") <==> HasPrefix(long, short + ".")
  {
    var l, s := "$." + long, "$." + short + ".";
    assert l[2..] == long && s[2..] == short + ".";
    if HasPrefix(l, s) {
      assert forall i :: 0 <= i < |short + "."| ==> (short + ".")[i] == s[i + 2] == l[i + 2] == long[i];
    }
    if HasPrefix(long, short + ".") {
      assert forall i :: 2 <= i < |s| ==> s[i] == (short + ".")[i - 2] == long[i - 2] == l[i];
    }
  }

  /** Without normalisation the empty selector, which means the whole file, would
      look disjoint from every field of it. */
  lemma RawEmptySelectorMissesItsFields(field: string)
    requires field != "" && '.' !in field
    ensures ValidSyntax("$." + field) && !Overlap("", "$." + field)
    ensures Overlap(Normalize(""), Normalize("$." + field))
  {
    SplitWithoutSeparator(field, '.');
    assert ("$." + field)[2..] == field;
    assert ("$." + field)[0] == '$';
  }
}
