/** The canonical text of a JSON tree, as encoding/json marshals it: no white space, object
    members in key order, numbers as they were written. It determines the tree. */
module JsonText {
  import opened Ordering
  import opened Documents

  // Strings

  function HexDigit(d: nat): (c: char)
    requires d < 16
    ensures c != '"' && c != '\\'
  {
    if d < 10 then '0' + d as char else 'a' + (d - 10) as char
  }

  function Hex4(n: nat): (s: string)
    requires n < 0x1_0000
    ensures |s| == 4
  {
    [HexDigit(n / 16 / 16 / 16), HexDigit(n / 16 / 16 % 16), HexDigit(n / 16 % 16), HexDigit(n % 16)]
  }

  /** Characters written as a \u escape: controls, the HTML ones, and two line separators. */
  predicate Escaped(c: char) {
    c < ' ' || c in {'<', '>', '&', '\U{2028}', '\U{2029}'}
  }

  /** The short escapes, by the letter that follows the backslash. */
  function Short(c: char): (letter: char)
    ensures letter != 'u'
  {
    if c == '"' then '"'
    else if c == '\\' then '\\'
    else if c == '\n' then 'n'
    else if c == '\r' then 'r'
    else if c == '\t' then 't'
    else if c == '\U{08}' then 'b'
    else if c == '\U{0C}' then 'f'
    else ' '
  }

  function QuoteChar(c: char): (s: string)
    ensures s != ""
  {
    if Short(c) != ' ' then ['\\', Short(c)]
    else if Escaped(c) then "\\u" + Hex4(c as int)
    else [c]
  }

  function QuoteRest(s: string): string {
    if s == "" then "\"" else QuoteChar(s[0]) + QuoteRest(s[1..])
  }

  function Quote(s: string): string {
    "\"" + QuoteRest(s)
  }

  // Trees

  function Least(keys: set<string>): (k: string)
    requires keys != {}
    ensures k in keys && forall j :: j in keys ==> j == k || Below(k, j)
  {
    LeastExists(keys);
    LeastIsUnique(keys);
    var k :| k in keys && IsLeast(keys, k);
    k
  }

  predicate IsLeast(keys: set<string>, k: string) {
    forall j :: j in keys ==> j == k || Below(k, j)
  }

  lemma {:induction false} LeastExists(keys: set<string>)
    requires keys != {}
    ensures exists k :: k in keys && IsLeast(keys, k)
    decreases |keys|
  {
    var x := AnyOf(keys);
    var rest := keys - {x};
    if rest == {} {
      assert keys == {x};
      assert IsLeast(keys, x);
    } else {
      LeastExists(rest);
      var y :| y in rest && IsLeast(rest, y);
      BelowIsTotal(x, y);
      if Below(x, y) {
        forall j | j in keys
          ensures j == x || Below(x, j)
        {
          if j != x && j != y {
            BelowIsTransitive(x, y, j);
          }
        }
        assert IsLeast(keys, x);
      } else {
        assert IsLeast(keys, y);
      }
    }
  }

  ghost function AnyOf<T>(s: set<T>): (x: T)
    requires s != {}
    ensures x in s
  {
    var x :| x in s;
    x
  }

  lemma LeastIsUnique(keys: set<string>)
    ensures forall a, b :: a in keys && b in keys && IsLeast(keys, a) && IsLeast(keys, b) ==> a == b
  {
    forall a, b | a in keys && b in keys && IsLeast(keys, a) && IsLeast(keys, b)
      ensures a == b
    {
      if a != b {
        BelowIsAsymmetric(a, b);
      }
    }
  }

  /** The keys of an object in the order they are written. */
  function KeysInOrder(keys: set<string>): (r: seq<string>)
    ensures forall k :: k in r <==> k in keys
    decreases |keys|
  {
    if keys == {} then []
    else
      var k := Least(keys);
      [k] + KeysInOrder(keys - {k})
  }

  function Encode(value: Json): string
    decreases value, 1
  {
    match value
    case Null => "null"
    case Boolean(flag) => if flag then "true" else "false"
    case Number(literal) => literal
    case Text(text) => Quote(text)
    case Array(elements) => "[" + EncodeElements(elements)
    case Object(fields) => "{" + EncodeMembers(value, KeysInOrder(fields.Keys))
  }

  /** The elements, each but the last followed by a comma, and the closing bracket. */
  function EncodeElements(elements: seq<Json>): string {
    if elements == [] then "]"
    else Encode(elements[0]) + (if |elements| == 1 then "]" else "," + EncodeElements(elements[1..]))
  }

  /** The members under the given keys, and the closing brace. */
  function EncodeMembers(value: Json, keys: seq<string>): string
    requires value.Object? && forall k :: k in keys ==> k in value.fields
    decreases value, 0, |keys|
  {
    if keys == [] then "}"
    else
      Quote(keys[0]) + (":" + (Encode(value.fields[keys[0]]) +
      (if |keys| == 1 then "}" else "," + EncodeMembers(value, keys[1..]))))
  }

  // The canonical text determines the tree

  predicate NumberChar(c: char) {
    '0' <= c <= '9' || c in {'-', '+', '.', 'e', 'E'}
  }

  predicate Literal(s: string) {
    s != "" && (s[0] == '-' || '0' <= s[0] <= '9') && forall i :: 0 <= i < |s| ==> NumberChar(s[i])
  }

  /** Every number is one the decoder can have read. */
  ghost predicate Readable(value: Json) {
    match value
    case Number(literal) => Literal(literal)
    case Array(elements) => forall i :: 0 <= i < |elements| ==> Readable(elements[i])
    case Object(fields) => forall k :: k in fields ==> Readable(fields[k])
    case _ => true
  }

  /** Nothing, or what may follow a value. */
  predicate Ends(x: string) {
    x == "" || x[0] in {',', ']', '}'}
  }

  lemma DropPrefix(p: string, u: string, v: string)
    requires p + u == p + v
    ensures u == v
  {
    assert (p + u)[|p|..] == u && (p + v)[|p|..] == v;
  }

  lemma Regroup(a: string, b: string, c: string)
    ensures (a + b) + c == a + (b + c)
  {
  }

  lemma HexIsUnique(d: nat, e: nat)
    requires d < 16 && e < 16 && HexDigit(d) == HexDigit(e)
    ensures d == e
  {
  }

  lemma SameQuotient(m: nat, n: nat)
    requires m / 16 == n / 16 && m % 16 == n % 16
    ensures m == n
  {
  }

  lemma Hex4IsUnique(m: nat, n: nat)
    requires m < 0x1_0000 && n < 0x1_0000 && Hex4(m) == Hex4(n)
    ensures m == n
  {
    var s, t := Hex4(m), Hex4(n);
    assert s[0] == t[0] && s[1] == t[1] && s[2] == t[2] && s[3] == t[3];
    hide HexDigit;
    HexIsUnique(m / 16 / 16 / 16, n / 16 / 16 / 16);
    HexIsUnique(m / 16 / 16 % 16, n / 16 / 16 % 16);
    HexIsUnique(m / 16 % 16, n / 16 % 16);
    HexIsUnique(m % 16, n % 16);
    SameQuotient(m / 16 / 16, n / 16 / 16);
    SameQuotient(m / 16, n / 16);
    SameQuotient(m, n);
  }

  lemma QuoteCharIsUnique(c: char, d: char, x: string, y: string)
    requires QuoteChar(c) + x == QuoteChar(d) + y
    ensures c == d && x == y
  {
    var a, b := QuoteChar(c), QuoteChar(d);
    assert (a + x)[0] == a[0] && (b + y)[0] == b[0];
    if |a| > 1 && |b| > 1 {
      assert (a + x)[1] == a[1] && (b + y)[1] == b[1];
      if a[1] == 'u' {
        assert (a + x)[2..6] == Hex4(c as int) && (b + y)[2..6] == Hex4(d as int);
        Hex4IsUnique(c as int, d as int);
      }
    }
    DropPrefix(a, x, y);
  }

  lemma QuoteRestCloses(s: string)
    ensures QuoteRest(s) != "" && (QuoteRest(s)[0] == '"' <==> s == "")
  {
  }

  lemma {:induction false} QuoteRestIsUnique(s: string, t: string, x: string, y: string)
    requires QuoteRest(s) + x == QuoteRest(t) + y
    ensures s == t && x == y
    decreases |s|
  {
    var a, b := QuoteRest(s) + x, QuoteRest(t) + y;
    hide QuoteChar;
    QuoteRestCloses(s);
    QuoteRestCloses(t);
    assert a[0] == QuoteRest(s)[0] && b[0] == QuoteRest(t)[0];
    if s == "" {
      DropPrefix("\"", x, y);
    } else {
      assert a == QuoteChar(s[0]) + (QuoteRest(s[1..]) + x);
      assert b == QuoteChar(t[0]) + (QuoteRest(t[1..]) + y);
      QuoteCharIsUnique(s[0], t[0], QuoteRest(s[1..]) + x, QuoteRest(t[1..]) + y);
      QuoteRestIsUnique(s[1..], t[1..], x, y);
      assert s == [s[0]] + s[1..] && t == [t[0]] + t[1..];
    }
  }

  lemma QuoteIsUnique(s: string, t: string, x: string, y: string)
    requires Quote(s) + x == Quote(t) + y
    ensures s == t && x == y
  {
    hide QuoteRest;
    assert Quote(s) + x == "\"" + (QuoteRest(s) + x) && Quote(t) + y == "\"" + (QuoteRest(t) + y);
    DropPrefix("\"", QuoteRest(s) + x, QuoteRest(t) + y);
    QuoteRestIsUnique(s, t, x, y);
  }

  /** How many number characters a text opens with. */
  function Span(u: string): nat {
    if u == "" || !NumberChar(u[0]) then 0 else 1 + Span(u[1..])
  }

  lemma {:induction false} SpanOfLiteral(s: string, x: string)
    requires (forall i :: 0 <= i < |s| ==> NumberChar(s[i])) && Ends(x)
    ensures Span(s + x) == |s|
  {
    if s == "" {
      assert s + x == x;
    } else {
      SpanOfLiteral(s[1..], x);
      assert (s + x)[1..] == s[1..] + x;
    }
  }

  lemma LiteralIsUnique(s: string, t: string, x: string, y: string)
    requires Literal(s) && Literal(t) && Ends(x) && Ends(y) && s + x == t + y
    ensures s == t && x == y
  {
    SpanOfLiteral(s, x);
    SpanOfLiteral(t, y);
    assert (s + x)[..|s|] == s && (t + y)[..|t|] == t;
    DropPrefix(s, x, y);
  }

  /** The first character tells the kind of value. */
  lemma HeadTellsKind(value: Json)
    requires Readable(value)
    ensures Encode(value) != ""
    ensures var c := Encode(value)[0];
            && c != ']'
            && (value.Null? <==> c == 'n') && (value.Boolean? <==> c == 't' || c == 'f')
            && (value.Number? <==> c == '-' || '0' <= c <= '9') && (value.Text? <==> c == '"')
            && (value.Array? <==> c == '[') && (value.Object? <==> c == '{')
  {
    hide QuoteRest, EncodeElements, EncodeMembers, KeysInOrder;
  }

  lemma SameHead(a: Json, b: Json, x: string, y: string)
    requires Readable(a) && Readable(b) && Encode(a) + x == Encode(b) + y
    ensures Encode(a) != "" && Encode(b) != "" && Encode(a)[0] == Encode(b)[0]
  {
    HeadTellsKind(a);
    HeadTellsKind(b);
    hide Encode;
    assert (Encode(a) + x)[0] == Encode(a)[0] && (Encode(b) + y)[0] == Encode(b)[0];
  }

  /** No canonical text followed by a delimiter is another one followed by a delimiter. */
  lemma {:induction false} EncodeIsUnique(a: Json, b: Json, x: string, y: string)
    requires Readable(a) && Readable(b) && Ends(x) && Ends(y)
    requires Encode(a) + x == Encode(b) + y
    ensures a == b && x == y
    decreases a, 1
  {
    hide Quote, EncodeElements, EncodeMembers, KeysInOrder;
    SameHead(a, b, x, y);
    HeadTellsKind(a);
    HeadTellsKind(b);
    match a
    case Null => DropPrefix("null", x, y);
    case Boolean(_) => DropPrefix(Encode(a), x, y);
    case Number(s) => LiteralIsUnique(s, b.literal, x, y);
    case Text(s) => QuoteIsUnique(s, b.text, x, y);
    case Array(es) =>
      var u, v := EncodeElements(es) + x, EncodeElements(b.elements) + y;
      assert Encode(a) + x == "[" + u && Encode(b) + y == "[" + v;
      DropPrefix("[", u, v);
      ElementsAreUnique(es, b.elements, x, y);
    case Object(fs) =>
      var j, k := KeysInOrder(fs.Keys), KeysInOrder(b.fields.Keys);
      var u, v := EncodeMembers(a, j) + x, EncodeMembers(b, k) + y;
      assert Encode(a) + x == "{" + u && Encode(b) + y == "{" + v;
      DropPrefix("{", u, v);
      MembersAreUnique(a, j, b, k, x, y);
      assert fs.Keys == b.fields.Keys by {
        assert forall n :: n in fs.Keys <==> n in b.fields.Keys;
      }
      assert fs == b.fields;
  }

  lemma {:induction false} ElementsAreUnique(es: seq<Json>, fs: seq<Json>, x: string, y: string)
    requires (forall i :: 0 <= i < |es| ==> Readable(es[i])) && (forall i :: 0 <= i < |fs| ==> Readable(fs[i]))
    requires EncodeElements(es) + x == EncodeElements(fs) + y
    ensures es == fs && x == y
    decreases es
  {
    hide Encode, EncodeElements;
    ElementsClose(es);
    ElementsClose(fs);
    assert (EncodeElements(es) + x)[0] == EncodeElements(es)[0] && (EncodeElements(fs) + y)[0] == EncodeElements(fs)[0];
    if es == [] {
      DropPrefix("]", x, y);
    } else {
      ElementsSplit(es, x);
      ElementsSplit(fs, y);
      EncodeIsUnique(es[0], fs[0], ElementsTail(es, x), ElementsTail(fs, y));
      if |es| > 1 {
        DropPrefix(",", EncodeElements(es[1..]) + x, EncodeElements(fs[1..]) + y);
        ElementsAreUnique(es[1..], fs[1..], x, y);
      } else {
        DropPrefix("]", x, y);
      }
      assert es == [es[0]] + es[1..] && fs == [fs[0]] + fs[1..];
    }
  }

  /** What follows the first element. */
  function ElementsTail(es: seq<Json>, x: string): (tail: string)
    requires es != []
    ensures tail != "" && Ends(tail)
  {
    if |es| == 1 then "]" + x else "," + (EncodeElements(es[1..]) + x)
  }

  lemma ElementsSplit(es: seq<Json>, x: string)
    requires es != []
    ensures EncodeElements(es) + x == Encode(es[0]) + ElementsTail(es, x)
  {
    hide Encode;
    if |es| == 1 {
      Regroup(Encode(es[0]), "]", x);
    } else {
      Regroup(Encode(es[0]), "," + EncodeElements(es[1..]), x);
      Regroup(",", EncodeElements(es[1..]), x);
    }
  }

  lemma {:induction false} MembersAreUnique(a: Json, j: seq<string>, b: Json, k: seq<string>, x: string, y: string)
    requires a.Object? && b.Object? && Readable(a) && Readable(b)
    requires (forall n :: n in j ==> n in a.fields) && (forall n :: n in k ==> n in b.fields)
    requires EncodeMembers(a, j) + x == EncodeMembers(b, k) + y
    ensures j == k && x == y && forall n :: n in j ==> a.fields[n] == b.fields[n]
    decreases a, 0, |j|
  {
    hide Encode, Quote, EncodeMembers;
    MembersClose(a, j);
    MembersClose(b, k);
    assert (EncodeMembers(a, j) + x)[0] == EncodeMembers(a, j)[0] && (EncodeMembers(b, k) + y)[0] == EncodeMembers(b, k)[0];
    if j == [] {
      DropPrefix("}", x, y);
    } else {
      MembersSplit(a, j, x);
      MembersSplit(b, k, y);
      var u, v := Encode(a.fields[j[0]]) + MembersTail(a, j, x), Encode(b.fields[k[0]]) + MembersTail(b, k, y);
      QuoteIsUnique(j[0], k[0], ":" + u, ":" + v);
      DropPrefix(":", u, v);
      EncodeIsUnique(a.fields[j[0]], b.fields[k[0]], MembersTail(a, j, x), MembersTail(b, k, y));
      if |j| > 1 {
        DropPrefix(",", EncodeMembers(a, j[1..]) + x, EncodeMembers(b, k[1..]) + y);
        MembersAreUnique(a, j[1..], b, k[1..], x, y);
      } else {
        DropPrefix("}", x, y);
      }
      assert j == [j[0]] + j[1..] && k == [k[0]] + k[1..];
    }
  }

  /** What follows the first member. */
  function MembersTail(value: Json, keys: seq<string>, x: string): (tail: string)
    requires keys != [] && value.Object? && forall k :: k in keys ==> k in value.fields
    ensures tail != "" && Ends(tail)
  {
    if |keys| == 1 then "}" + x else "," + (EncodeMembers(value, keys[1..]) + x)
  }

  lemma {:induction false} MembersSplit(value: Json, keys: seq<string>, x: string)
    requires keys != [] && value.Object? && forall k :: k in keys ==> k in value.fields
    ensures EncodeMembers(value, keys) + x
         == Quote(keys[0]) + (":" + (Encode(value.fields[keys[0]]) + MembersTail(value, keys, x)))
  {
    hide Encode, Quote;
    var rest := if |keys| == 1 then "}" else "," + EncodeMembers(value, keys[1..]);
    var member := Encode(value.fields[keys[0]]);
    Regroup(Quote(keys[0]), ":" + (member + rest), x);
    Regroup(":", member + rest, x);
    Regroup(member, rest, x);
    if |keys| > 1 {
      Regroup(",", EncodeMembers(value, keys[1..]), x);
    }
  }

  lemma ElementsClose(es: seq<Json>)
    requires forall i :: 0 <= i < |es| ==> Readable(es[i])
    ensures EncodeElements(es) != "" && (EncodeElements(es)[0] == ']' <==> es == [])
    ensures es == [] ==> EncodeElements(es) == "]"
  {
    hide Encode;
    if es != [] {
      HeadTellsKind(es[0]);
    }
  }

  lemma MembersClose(value: Json, keys: seq<string>)
    requires value.Object? && forall k :: k in keys ==> k in value.fields
    ensures EncodeMembers(value, keys) != "" && (EncodeMembers(value, keys)[0] == '}' <==> keys == [])
    ensures keys == [] ==> EncodeMembers(value, keys) == "}"
  {
    hide Encode;
  }

  /** An object's canonical text opens its first member at once, without white space. */
  lemma MemberTextFollowsBrace(value: Json, key: string)
    requires value.Object? && key in value.fields
    ensures |Encode(value)| > 1 && Encode(value)[1] == '"'
  {
    hide Quote, KeysInOrder, EncodeMembers;
    var keys := KeysInOrder(value.fields.Keys);
    assert key in keys;
    MembersOpen(value, keys);
    assert Encode(value) == "{" + EncodeMembers(value, keys);
  }

  lemma MembersOpen(value: Json, keys: seq<string>)
    requires keys != [] && value.Object? && forall k :: k in keys ==> k in value.fields
    ensures EncodeMembers(value, keys) != "" && EncodeMembers(value, keys)[0] == '"'
  {
    hide Encode, QuoteRest;
  }

  /** Equal canonical texts are texts of equal trees. */
  lemma CanonicalTextDeterminesTree(a: Json, b: Json)
    requires Readable(a) && Readable(b)
    ensures Encode(a) == Encode(b) <==> a == b
  {
    hide Encode;
    if Encode(a) == Encode(b) {
      EncodeIsUnique(a, b, "", "");
    }
  }

  // An example

  const SAMPLE := Object(map["b" := Array([Number("1"), Null, Boolean(true)]), "a" := Text("x\"<\n")])

  lemma TwoMembers(value: Json, j: string, k: string)
    requires value.Object? && j in value.fields && k in value.fields
    ensures EncodeMembers(value, [j, k]) ==
            Quote(j) + (":" + (Encode(value.fields[j]) + ("," + (Quote(k) + (":" + (Encode(value.fields[k]) + "}"))))))
  {
    assert [j, k][1..] == [k];
    hide Quote, Encode;
    assert EncodeMembers(value, [k]) == Quote(k) + (":" + (Encode(value.fields[k]) + "}"));
  }

  lemma Pieces(x: string, y: string)
    ensures "{" + (("\"" + "a" + "\"") + (":" + (x + ("," + (("\"" + "b" + "\"") + (":" + (y + "}")))))))
         == "{\"a\":" + x + ",\"b\":" + y + "}"
  {
  }

  lemma NameText(k: string)
    requires |k| == 1 && 'a' <= k[0] <= 'z'
    ensures Quote(k) == "\"" + k + "\""
  {
    assert k[1..] == "" && k == [k[0]];
    assert QuoteRest(k[1..]) == "\"";
  }

  lemma QuoteStep(c: char, rest: string)
    ensures QuoteRest([c] + rest) == QuoteChar(c) + QuoteRest(rest)
  {
    hide QuoteChar;
    assert ([c] + rest)[1..] == rest;
  }

  lemma SampleChars()
    ensures QuoteChar('x') == "x" && QuoteChar('"') == "\\\"" && QuoteChar('<') == "\\u003c" && QuoteChar('\n') == "\\n"
  {
  }

  lemma SampleString()
    ensures Encode(Text("x\"<\n")) == "\"x\\\"\\u003c\\n\""
  {
    SampleChars();
    QuoteStep('\n', "");
    QuoteStep('<', "\n");
    QuoteStep('"', "<\n");
    QuoteStep('x', "\"<\n");
    assert QuoteRest("") == "\"";
    hide QuoteChar, QuoteRest;
    assert ['\n'] + "" == "\n" && ['<'] + "\n" == "<\n" && ['"'] + "<\n" == "\"<\n" && ['x'] + "\"<\n" == "x\"<\n";
  }

  lemma SampleArray()
    ensures Encode(Array([Number("1"), Null, Boolean(true)])) == "[1,null,true]"
  {
    var s := [Number("1"), Null, Boolean(true)];
    assert s[1..] == [Null, Boolean(true)] && s[1..][1..] == [Boolean(true)];
    assert EncodeElements([Boolean(true)]) == "true]";
    assert EncodeElements([Null, Boolean(true)]) == "null,true]";
  }

  lemma SampleKeys()
    ensures KeysInOrder({"a", "b"}) == ["a", "b"]
  {
    assert Below("a", "b");
    BelowIsAsymmetric("a", "b");
    assert Least({"a", "b"}) == "a";
    assert {"a", "b"} - {"a"} == {"b"};
    assert Least({"b"}) == "b";
    assert {"b"} - {"b"} == {};
  }

  /** One document as it is written: keys sorted, no white space, quotes and HTML characters escaped. */
  lemma SampleText()
    ensures Encode(SAMPLE) == "{\"a\":" + "\"x\\\"\\u003c\\n\"" + ",\"b\":" + "[1,null,true]" + "}"
  {
    SampleString();
    SampleArray();
    SampleKeys();
    TwoMembers(SAMPLE, "a", "b");
    assert SAMPLE.fields.Keys == {"a", "b"};
    assert Encode(SAMPLE) == "{" + EncodeMembers(SAMPLE, ["a", "b"]);
    NameText("a");
    NameText("b");
    hide Quote, KeysInOrder, EncodeMembers, Encode;
    var x, y := Encode(SAMPLE.fields["a"]), Encode(SAMPLE.fields["b"]);
    assert SAMPLE.fields["a"] == Text("x\"<\n") && SAMPLE.fields["b"] == Array([Number("1"), Null, Boolean(true)]);
    Pieces(x, y);
  }
}
