/** Set-like requirement lists in canonical form, and USTAR path limits. */
module Canonical {
  import opened Ordering

  function Name(s: string): string {
    s
  }

  /** Drops each element equal to the one before it. */
  function Deduplicated(s: seq<string>): seq<string> {
    if |s| < 2 then s
    else if s[|s| - 1] == s[|s| - 2] then Deduplicated(s[..|s| - 1])
    else Deduplicated(s[..|s| - 1]) + [s[|s| - 1]]
  }

  lemma {:induction false} DeduplicatedShape(s: seq<string>)
    ensures |Deduplicated(s)| <= |s|
    ensures s != [] ==> Deduplicated(s) != [] && Deduplicated(s)[|Deduplicated(s)| - 1] == s[|s| - 1]
    ensures forall x :: x in Deduplicated(s) <==> x in s
    decreases |s|
  {
    if |s| >= 2 {
      var init := s[..|s| - 1];
      DeduplicatedShape(init);
      assert s == init + [s[|s| - 1]];
      assert init[|init| - 1] == s[|s| - 2];
      assert s[|s| - 2] in init;
    }
  }

  /** deduplicateSorted compacts in place: a value is written only over places already read. */
  method DeduplicateSorted(values: array<string>) returns (n: nat)
    modifies values
    ensures n <= values.Length && values[..n] == Deduplicated(old(values[..]))
  {
    ghost var was := values[..];
    if values.Length < 2 {
      n := values.Length;
      return;
    }
    n := 1;
    assert Deduplicated(was[..1]) == was[..1];
    var i := 1;
    while i < values.Length
      invariant 1 <= n <= i <= values.Length
      invariant forall k :: i <= k < values.Length ==> values[k] == was[k]
      invariant values[..n] == Deduplicated(was[..i])
    {
      var value := values[i];
      DeduplicatedShape(was[..i]);
      assert was[..i + 1][..i] == was[..i];
      assert values[n - 1] == values[..n][n - 1] == was[i - 1];
      if value != values[n - 1] {
        ghost var kept := values[..n];
        values[n] := value;
        n := n + 1;
        assert values[..n] == kept + [value];
      }
      i := i + 1;
    }
    assert was[..i] == was;
  }

  /** Sorted, then without duplicates. */
  function Canonicalized(names: seq<string>): seq<string> {
    Deduplicated(Sort(names, Name))
  }

  lemma {:induction false} DeduplicatedIsStrict(s: seq<string>)
    requires Sorted(s, Name)
    ensures StrictlySorted(Deduplicated(s), Name)
    decreases |s|
  {
    if |s| >= 2 {
      var init, last := s[..|s| - 1], s[|s| - 1];
      DeduplicatedIsStrict(init);
      DeduplicatedShape(init);
      if last != s[|s| - 2] {
        forall i | 0 <= i < |Deduplicated(init)|
          ensures Below(Deduplicated(init)[i], last)
        {
          var x := Deduplicated(init)[i];
          assert x in init;
          var k :| 0 <= k < |init| && init[k] == x;
          LastIsAbove(s, k);
        }
      }
    }
  }

  lemma LastIsAbove(s: seq<string>, k: nat)
    requires Sorted(s, Name) && |s| >= 2 && s[|s| - 1] != s[|s| - 2] && k < |s| - 1
    ensures Below(s[k], s[|s| - 1])
  {
    var last, before := s[|s| - 1], s[|s| - 2];
    assert !Below(Name(last), Name(before)) && !Below(Name(last), Name(s[k]));
    assert k == |s| - 2 || !Below(Name(before), Name(s[k]));
    BelowIsTotal(before, last);
    BelowIsTotal(s[k], last);
  }

  lemma CanonicalizedHolds(names: seq<string>)
    ensures StrictlySorted(Canonicalized(names), Name)
    ensures forall x :: x in Canonicalized(names) <==> x in names
  {
    SortSorts(names, Name);
    DeduplicatedIsStrict(Sort(names, Name));
    DeduplicatedShape(Sort(names, Name));
    forall x
      ensures x in Sort(names, Name) <==> x in names
    {
      SameElements(Sort(names, Name), names, x);
    }
  }

  /** The canonical form depends on exactly which names there are. */
  lemma CanonicalExactlyOnSets(a: seq<string>, b: seq<string>)
    ensures Canonicalized(a) == Canonicalized(b) <==> forall x :: x in a <==> x in b
  {
    CanonicalizedHolds(a);
    CanonicalizedHolds(b);
    if forall x :: x in a <==> x in b {
      StrictOrderIsUnique(Canonicalized(a), Canonicalized(b), Name);
    }
    if Canonicalized(a) == Canonicalized(b) {
      forall x
        ensures x in a <==> x in b
      {
        assert x in Canonicalized(a) <==> x in a;
        assert x in Canonicalized(b) <==> x in b;
      }
    }
  }

  // USTAR names

  predicate ASCII(path: string) {
    forall i :: 0 <= i < |path| ==> path[i] != 0 as char && path[i] as int <= 0x7F
  }

  /** strings.LastIndex of a slash. */
  function LastSlash(s: string): (k: int)
    ensures -1 <= k < |s|
    ensures k >= 0 ==> s[k] == '/'
    ensures forall i :: k < i < |s| ==> s[i] != '/'
  {
    if s == "" then -1
    else if s[|s| - 1] == '/' then |s| - 1
    else LastSlash(s[..|s| - 1])
  }

  function ValidUSTARPath(path: string): bool {
    if !ASCII(path) then false
    else if |path| <= 100 then true
    else
      var length := if |path| > 155 + 1 then 155 + 1 else if path[|path| - 1] == '/' then |path| - 1 else |path|;
      var separator := LastSlash(path[..length]);
      var nameLength := |path| - separator - 1;
      !(separator <= 0 || nameLength > 100 || nameLength == 0 || separator > 155)
  }

  /** A slash leaves a prefix of 1 to 155 bytes and a name of 1 to 100. */
  predicate SplitsAt(path: string, k: nat) {
    k < |path| && path[k] == '/' && 1 <= k <= 155 && 1 <= |path| - k - 1 <= 100
  }

  /** The greedy search for a split finds one exactly when there is one, as the ustar
      Interchange Format section of the pax utility in IEEE Std 1003.1 allows. */
  lemma USTARPathsExactlySplit(path: string)
    ensures ValidUSTARPath(path) <==> ASCII(path) && (|path| <= 100 || exists k: nat :: SplitsAt(path, k))
  {
    if ASCII(path) && |path| > 100 {
      var length := if |path| > 155 + 1 then 155 + 1 else if path[|path| - 1] == '/' then |path| - 1 else |path|;
      var front := path[..length];
      var separator := LastSlash(front);
      if separator > 0 {
        assert path[separator] == front[separator];
        if ValidUSTARPath(path) {
          assert SplitsAt(path, separator);
        }
      }
      if k: nat :| SplitsAt(path, k) {
        assert k < length && front[k] == '/';
        assert separator >= k;
      }
    }
  }
}
