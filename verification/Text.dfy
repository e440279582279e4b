/** Strings as the Go standard library treats them: splitting and joining on a
    separator, last-separator search, and base-10 rendering of naturals. */
module Text {

  datatype Option<+T> = None | Some(value: T)

  datatype Result<+T> = Ok(value: T) | Err(error: string)

  /** strings.Split for a one-character separator: always at least one field. */
  function Split(s: string, sep: char): (fields: seq<string>)
    ensures |fields| >= 1
    ensures forall i :: 0 <= i < |fields| ==> sep !in fields[i]
  {
    if s == "" then [""] else Prepend(s[0], Split(s[1..], sep), sep)
  }

  /** One more character in front: a separator opens a field, any other extends the first. */
  function Prepend(c: char, fields: seq<string>, sep: char): (r: seq<string>)
    requires |fields| >= 1
    ensures |r| >= 1
  {
    if c == sep then [""] + fields else [[c] + fields[0]] + fields[1..]
  }

  lemma PrependOfConcat(c: char, x: seq<string>, y: seq<string>, sep: char)
    requires |x| >= 1
    ensures Prepend(c, x + y, sep) == Prepend(c, x, sep) + y
  {
  }

  function Join(fields: seq<string>, sep: char): string
    requires |fields| >= 1
  {
    if |fields| == 1 then fields[0] else fields[0] + [sep] + Join(fields[1..], sep)
  }

  lemma {:induction false} JoinOfSplit(s: string, sep: char)
    ensures Join(Split(s, sep), sep) == s
  {
    if s != "" {
      JoinOfSplit(s[1..], sep);
      var rest := Split(s[1..], sep);
      if s[0] == sep {
        assert ([""] + rest)[1..] == rest;
      } else {
        assert ([[s[0]] + rest[0]] + rest[1..])[1..] == rest[1..];
      }
    }
  }

  lemma {:induction false} SplitOfConcat(a: string, b: string, sep: char)
    ensures Split(a + [sep] + b, sep) == Split(a, sep) + Split(b, sep)
  {
    var whole := a + [sep] + b;
    if a == "" {
      assert whole[1..] == b;
    } else {
      SplitOfConcat(a[1..], b, sep);
      assert whole[0] == a[0] && whole[1..] == a[1..] + [sep] + b;
      PrependOfConcat(a[0], Split(a[1..], sep), Split(b, sep), sep);
    }
  }

  lemma {:induction false} JoinOfConcat(x: seq<string>, y: seq<string>, sep: char)
    requires |x| >= 1 && |y| >= 1
    ensures Join(x + y, sep) == Join(x, sep) + [sep] + Join(y, sep)
  {
    if |x| == 1 {
      assert (x + y)[1..] == y;
    } else {
      JoinOfConcat(x[1..], y, sep);
      assert (x + y)[1..] == x[1..] + y;
    }
  }

  /** The text after the last separator is determined by the whole string. */
  lemma {:induction false} LastFieldUnique(a: string, x: string, b: string, y: string, sep: char)
    requires a + [sep] + x == b + [sep] + y
    requires sep !in x && sep !in y
    ensures x == y
  {
    SplitOfConcat(a, x, sep);
    SplitOfConcat(b, y, sep);
    SplitWithoutSeparator(x, sep);
    SplitWithoutSeparator(y, sep);
    var whole := Split(a + [sep] + x, sep);
    assert whole[|whole| - 1] == x;
  }

  lemma {:induction false} SplitWithoutSeparator(s: string, sep: char)
    requires sep !in s
    ensures Split(s, sep) == [s]
  {
    if s != "" {
      SplitWithoutSeparator(s[1..], sep);
      assert [s[0]] + s[1..] == s;
    }
  }

  lemma {:induction false} SplitOfJoin(fields: seq<string>, sep: char)
    requires |fields| >= 1 && forall i :: 0 <= i < |fields| ==> sep !in fields[i]
    ensures Split(Join(fields, sep), sep) == fields
  {
    SplitWithoutSeparator(fields[0], sep);
    if |fields| > 1 {
      SplitOfJoin(fields[1..], sep);
      SplitOfConcat(fields[0], Join(fields[1..], sep), sep);
    }
  }

  predicate HasSuffix(s: string, suffix: string) {
    |suffix| <= |s| && s[|s| - |suffix|..] == suffix
  }

  predicate HasPrefix(s: string, prefix: string) {
    prefix <= s
  }

  /** strings.TrimSpace leaves nothing, for strings of Latin-1 characters. */
  predicate Blank(s: string) {
    forall i :: 0 <= i < |s| ==> s[i] in {' ', '\t', '\n', '\r', '\U{0B}', '\U{0C}', '\U{85}', '\U{A0}'}
  }

  /** A string is not blank exactly when some character of it is no space. */
  lemma BlankExactly(s: string)
    ensures !Blank(s) <==> exists c <- s :: c !in " \t\n\r\U{0B}\U{0C}\U{85}\U{A0}"
  {
    forall i | 0 <= i < |s|
      ensures s[i] in {' ', '\t', '\n', '\r', '\U{0B}', '\U{0C}', '\U{85}', '\U{A0}'} <==> s[i] in " \t\n\r\U{0B}\U{0C}\U{85}\U{A0}"
    {
      SpaceExactly(s[i]);
    }
  }

  lemma SpaceExactly(c: char)
    ensures c in {' ', '\t', '\n', '\r', '\U{0B}', '\U{0C}', '\U{85}', '\U{A0}'} <==> c in " \t\n\r\U{0B}\U{0C}\U{85}\U{A0}"
  {
    var spaces := " \t\n\r\U{0B}\U{0C}\U{85}\U{A0}";
    assert spaces[0] == ' ' && spaces[1] == '\t' && spaces[2] == '\n' && spaces[3] == '\r';
    assert spaces[4] == '\U{0B}' && spaces[5] == '\U{0C}' && spaces[6] == '\U{85}' && spaces[7] == '\U{A0}';
  }

  /** One string extends another past a separator exactly when its fields extend the other's. */
  lemma ExtensionIsLongerSplit(long: string, short: string, sep: char)
    ensures HasPrefix(long, short + [sep]) <==> Split(short, sep) < Split(long, sep)
  {
    var s, l := Split(short, sep), Split(long, sep);
    if HasPrefix(long, short + [sep]) {
      var rest := long[|short| + 1..];
      assert long == short + [sep] + rest;
      SplitOfConcat(short, rest, sep);
    }
    if s < l {
      var rest := l[|s|..];
      assert l == s + rest;
      JoinOfConcat(s, rest, sep);
      JoinOfSplit(short, sep);
      JoinOfSplit(long, sep);
      assert long == (short + [sep]) + Join(rest, sep);
    }
  }

  function Digit(d: nat): (c: char)
    requires d < 10
    ensures '0' <= c <= '9' && c as int - '0' as int == d
  {
    '0' + d as char
  }

  /** strconv.FormatInt for a natural number. */
  function FormatNat(n: nat): (s: string)
    ensures s != "" && forall i :: 0 <= i < |s| ==> '0' <= s[i] <= '9'
  {
    if n < 10 then [Digit(n)] else FormatNat(n / 10) + [Digit(n % 10)]
  }

  /** The number a string of decimal digits denotes. */
  function DigitsValue(s: string): nat
    requires forall i :: 0 <= i < |s| ==> '0' <= s[i] <= '9'
  {
    if s == "" then 0
    else DigitsValue(s[..|s| - 1]) * 10 + (s[|s| - 1] as int - '0' as int)
  }

  lemma {:induction false} ValueOfFormat(n: nat)
    ensures DigitsValue(FormatNat(n)) == n
  {
    var s := FormatNat(n);
    if n < 10 {
      assert s[..|s| - 1] == "";
    } else {
      ValueOfFormat(n / 10);
      assert s[..|s| - 1] == FormatNat(n / 10);
    }
  }

  lemma FormatNatInjective(m: nat, n: nat)
    requires FormatNat(m) == FormatNat(n)
    ensures m == n
  {
    ValueOfFormat(m);
    ValueOfFormat(n);
  }
}
