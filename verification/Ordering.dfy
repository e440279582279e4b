/** Byte-wise string order, sorting by a string key, and sorted sequences without duplicates. */
module Ordering {

  /** Go's < on strings. */
  predicate Below(a: string, b: string) {
    b != "" && (a == "" || a[0] < b[0] || (a[0] == b[0] && Below(a[1..], b[1..])))
  }

  lemma {:induction false} BelowIsTotal(a: string, b: string)
    ensures a == b || Below(a, b) || Below(b, a)
  {
    if a != "" && b != "" && a[0] == b[0] {
      BelowIsTotal(a[1..], b[1..]);
      if a[1..] == b[1..] {
        assert a == [a[0]] + a[1..] && b == [b[0]] + b[1..];
      }
    }
  }

  /** The strings first differ at some place, where the one is less. */
  predicate LessAtDifference(a: string, b: string) {
    exists k :: 0 <= k < |a| && k < |b| && a[..k] == b[..k] && a[k] < b[k]
  }

  lemma SameFirst(c: char, a: string, b: string)
    ensures LessAtDifference([c] + a, [c] + b) <==> LessAtDifference(a, b)
  {
    var x, y := [c] + a, [c] + b;
    if k :| 0 <= k < |x| && k < |y| && x[..k] == y[..k] && x[k] < y[k] {
      assert a[..k - 1] == x[..k][1..] && b[..k - 1] == y[..k][1..];
      assert a[k - 1] < b[k - 1];
    }
    if k :| 0 <= k < |a| && k < |b| && a[..k] == b[..k] && a[k] < b[k] {
      assert x[..k + 1] == [c] + a[..k] && y[..k + 1] == [c] + b[..k];
      assert x[k + 1] < y[k + 1];
    }
  }

  lemma OtherFirst(a: string, b: string)
    requires a != "" && b != "" && a[0] != b[0]
    ensures LessAtDifference(a, b) <==> a[0] < b[0]
  {
    assert a[..0] == b[..0];
    assert forall k :: 0 < k <= |a| ==> a[..k][0] == a[0];
    assert forall k :: 0 < k <= |b| ==> b[..k][0] == b[0];
  }

  /** It is the order of the first difference, a proper prefix coming first. */
  lemma {:induction false} BelowIsLexicographic(a: string, b: string)
    ensures Below(a, b) <==> a < b || exists k :: 0 <= k < |a| && k < |b| && a[..k] == b[..k] && a[k] < b[k]
  {
    assert LessAtDifference(a, b) <==> exists k :: 0 <= k < |a| && k < |b| && a[..k] == b[..k] && a[k] < b[k];
    hide LessAtDifference;
    if a != "" && b != "" && a[0] == b[0] {
      BelowIsLexicographic(a[1..], b[1..]);
      SameFirst(a[0], a[1..], b[1..]);
      assert a == [a[0]] + a[1..] && b == [b[0]] + b[1..];
      LessMeans(a[1..], b[1..]);
    } else if a != "" && b != "" {
      OtherFirst(a, b);
    }
  }

  lemma LessMeans(a: string, b: string)
    ensures LessAtDifference(a, b) <==> exists k :: 0 <= k < |a| && k < |b| && a[..k] == b[..k] && a[k] < b[k]
  {
  }

  lemma {:induction false} BelowIsAsymmetric(a: string, b: string)
    requires Below(a, b)
    ensures !Below(b, a) && a != b
  {
    if a != "" && a[0] == b[0] {
      BelowIsAsymmetric(a[1..], b[1..]);
    }
  }

  lemma {:induction false} BelowIsTransitive(a: string, b: string, c: string)
    requires Below(a, b) && Below(b, c)
    ensures Below(a, c)
  {
    if a != "" && a[0] == b[0] && b[0] == c[0] {
      BelowIsTransitive(a[1..], b[1..], c[1..]);
    }
  }

  /** Sorted by key; repeated keys may be adjacent. */
  ghost predicate Sorted<T>(s: seq<T>, key: T -> string) {
    forall i, j :: 0 <= i < j < |s| ==> !Below(key(s[j]), key(s[i]))
  }

  ghost predicate StrictlySorted<T>(s: seq<T>, key: T -> string) {
    forall i, j :: 0 <= i < j < |s| ==> Below(key(s[i]), key(s[j]))
  }

  function Insert<T>(x: T, s: seq<T>, key: T -> string): (r: seq<T>)
    ensures multiset(r) == multiset(s) + multiset{x}
  {
    if s == [] then [x]
    else if Below(key(s[0]), key(x)) then
      assert s == [s[0]] + s[1..];
      [s[0]] + Insert(x, s[1..], key)
    else [x] + s
  }

  function Sort<T>(s: seq<T>, key: T -> string): (r: seq<T>)
    ensures multiset(r) == multiset(s)
  {
    if s == [] then []
    else
      assert s == [s[0]] + s[1..];
      Insert(s[0], Sort(s[1..], key), key)
  }

  lemma NotBelowChains(a: string, b: string, c: string)
    requires !Below(b, a) && !Below(c, b)
    ensures !Below(c, a)
  {
  }

  lemma SameElements<T>(a: seq<T>, b: seq<T>, x: T)
    requires multiset(a) == multiset(b)
    ensures |a| == |b| && (x in a <==> x in b)
  {
    assert x in a <==> x in multiset(a);
    assert x in b <==> x in multiset(b);
    assert |multiset(a)| == |a| && |multiset(b)| == |b|;
  }

  lemma {:induction false} InsertKeepsSorted<T>(x: T, s: seq<T>, key: T -> string)
    requires Sorted(s, key)
    ensures Sorted(Insert(x, s, key), key)
    decreases |s|
  {
    if s != [] {
      var rest := s[1..];
      if Below(key(s[0]), key(x)) {
        InsertKeepsSorted(x, rest, key);
        var r := Insert(x, rest, key);
        forall j | 0 <= j < |r|
          ensures !Below(key(r[j]), key(s[0]))
        {
          InsertedFrom(x, rest, key, r[j]);
          if r[j] == x {
            BelowIsAsymmetric(key(s[0]), key(x));
          } else {
            var k :| 0 <= k < |rest| && rest[k] == r[j];
            assert s[k + 1] == r[j];
          }
        }
        assert Insert(x, s, key) == [s[0]] + r;
      } else {
        forall j | 0 <= j < |s|
          ensures !Below(key(s[j]), key(x))
        {
          if j > 0 {
            NotBelowChains(key(x), key(s[0]), key(s[j]));
          }
        }
        assert Insert(x, s, key) == [x] + s;
      }
    }
  }

  lemma InsertedFrom<T>(x: T, s: seq<T>, key: T -> string, y: T)
    requires y in Insert(x, s, key)
    ensures y == x || y in s
  {
  }

  lemma {:induction false} SortSorts<T>(s: seq<T>, key: T -> string)
    ensures Sorted(Sort(s, key), key)
    decreases |s|
  {
    if s != [] {
      SortSorts(s[1..], key);
      InsertKeepsSorted(s[0], Sort(s[1..], key), key);
    }
  }

  ghost predicate DistinctKeys<T>(s: seq<T>, key: T -> string) {
    forall i, j :: 0 <= i < j < |s| ==> key(s[i]) != key(s[j])
  }

  lemma EmptyOrInhabited<T>(s: seq<T>)
    ensures s == [] || exists x :: x in s
  {
    if s != [] {
      assert s[0] in s;
    }
  }

  /** Two strictly sorted sequences with the same elements are the same sequence. */
  lemma {:induction false} StrictOrderIsUnique<T>(a: seq<T>, b: seq<T>, key: T -> string)
    requires StrictlySorted(a, key) && StrictlySorted(b, key)
    requires forall x :: x in a <==> x in b
    ensures a == b
    decreases |a|
  {
    if a == [] {
      EmptyOrInhabited(b);
    } else {
      assert a[0] in b && b != [];
      assert b[0] in a;
      FirstIsLeast(a, b[0], key);
      FirstIsLeast(b, a[0], key);
      if a[0] != b[0] {
        BelowIsAsymmetric(key(a[0]), key(b[0]));
      }
      forall x
        ensures x in a[1..] <==> x in b[1..]
      {
        RestOf(a, x, key);
        RestOf(b, x, key);
      }
      StrictOrderIsUnique(a[1..], b[1..], key);
      assert a == [a[0]] + a[1..] && b == [b[0]] + b[1..];
    }
  }

  lemma FirstIsLeast<T>(s: seq<T>, x: T, key: T -> string)
    requires StrictlySorted(s, key) && x in s
    ensures s[0] == x || Below(key(s[0]), key(x))
  {
  }

  lemma RestOf<T>(s: seq<T>, x: T, key: T -> string)
    requires StrictlySorted(s, key) && s != []
    ensures x in s[1..] <==> x in s && x != s[0]
  {
    if x in s[1..] {
      var k :| 0 <= k < |s[1..]| && s[1..][k] == x;
      assert s[k + 1] == x;
      BelowIsAsymmetric(key(s[0]), key(s[k + 1]));
    }
    if x in s && x != s[0] {
      var k :| 0 <= k < |s| && s[k] == x;
      assert s[1..][k - 1] == x;
    }
  }

  /** With distinct keys the sorted form is strictly sorted, so it depends only on the elements. */
  lemma SortOfDistinct<T>(s: seq<T>, key: T -> string)
    requires DistinctKeys(s, key)
    ensures StrictlySorted(Sort(s, key), key)
    ensures forall x :: x in Sort(s, key) <==> x in s
    ensures |Sort(s, key)| == |s|
  {
    var r := Sort(s, key);
    SortSorts(s, key);
    forall x
      ensures x in r <==> x in s
    {
      SameElements(r, s, x);
    }
    assert |multiset(r)| == |r| && |multiset(s)| == |s|;
    forall i, j | 0 <= i < j < |r|
      ensures Below(key(r[i]), key(r[j]))
    {
      BelowIsTotal(key(r[i]), key(r[j]));
      if key(r[i]) == key(r[j]) {
        TwoPlaces(r, s, i, j, key);
      }
    }
  }

  lemma TwoPlaces<T>(r: seq<T>, s: seq<T>, i: nat, j: nat, key: T -> string)
    requires multiset(r) == multiset(s) && DistinctKeys(s, key) && i < j < |r|
    ensures key(r[i]) != key(r[j])
  {
    SameElements(r, s, r[i]);
    SameElements(r, s, r[j]);
    var a :| 0 <= a < |s| && s[a] == r[i];
    var b :| 0 <= b < |s| && s[b] == r[j];
    if key(r[i]) == key(r[j]) {
      assert a == b && r[i] == r[j];
      CountTwo(r, i, j);
      CountOne(s, a, key);
    }
  }

  lemma CountTwo<T>(r: seq<T>, i: nat, j: nat)
    requires i < j < |r| && r[i] == r[j]
    ensures multiset(r)[r[i]] >= 2
  {
    var x := r[i];
    assert r == r[..i] + [x] + r[i + 1..j] + [x] + r[j + 1..];
  }

  lemma CountOne<T>(s: seq<T>, a: nat, key: T -> string)
    requires a < |s| && DistinctKeys(s, key)
    ensures multiset(s)[s[a]] == 1
  {
    assert s == s[..a] + [s[a]] + s[a + 1..];
    assert s[a] !in s[..a] && s[a] !in s[a + 1..];
  }
}
