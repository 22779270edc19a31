/** JSON values and their canonical text (actenon/proof/canonical.py), the text that
    every action hash, replay key, log entry and artifact digest is taken over. */
module CanonicalJson {
  import opened Ordering

  /** The values the canonical form is defined on: floats are refused by the source,
      and a list and a tuple of the same items have one canonical form. */
  datatype Json =
    | Null
    | Bool(flag: bool)
    | Int(num: int)
    | Str(text: string)
    | Arr(items: seq<Json>)
    | Obj(fields: map<string, Json>)

  // ------------------------------------------------------------ integers

  function Digit(d: nat): (c: char)
    requires d < 10
    ensures IsDigit(c)
  {
    '0' + d as char
  }

  predicate IsDigit(c: char) { '0' <= c <= '9' }

  function Decimal(n: nat): (r: string)
    ensures r != [] && forall c :: c in r ==> IsDigit(c)
  {
    if n < 10 then [Digit(n)] else Decimal(n / 10) + [Digit(n % 10)]
  }

  function IntText(i: int): (r: string) {
    if i < 0 then "-" + Decimal(-i) else Decimal(i)
  }

  lemma {:induction false} DecimalInjective(a: nat, b: nat)
    requires Decimal(a) == Decimal(b)
    ensures a == b
  {
    var x, y := Decimal(a), Decimal(b);
    if a >= 10 && b >= 10 {
      assert x[..|x| - 1] == Decimal(a / 10) && y[..|y| - 1] == Decimal(b / 10);
      assert x[|x| - 1] == Digit(a % 10) && y[|y| - 1] == Digit(b % 10);
      DecimalInjective(a / 10, b / 10);
    } else if a < 10 && b < 10 {
      assert x[0] == Digit(a) && y[0] == Digit(b);
    }
  }

  // ------------------------------------------------------------- strings

  const HEX := "0123456789abcdef"

  /** json.dumps with ensure_ascii off. */
  function EscapeChar(c: char): (r: string)
    ensures r != []
  {
    if c == '\"' then "\\\""
    else if c == '\\' then "\\\\"
    else if c == '\n' then "\\n"
    else if c == '\r' then "\\r"
    else if c == '\t' then "\\t"
    else if c == 8 as char then "\\b"
    else if c == 12 as char then "\\f"
    else if (c as int) < 32 then "\\u00" + [HEX[c as int / 16], HEX[c as int % 16]]
    else [c]
  }

  function Escape(s: string): (r: string) {
    if s == [] then [] else EscapeChar(s[0]) + Escape(s[1..])
  }

  function Quote(s: string): (r: string) {
    "\"" + Escape(s) + "\""
  }

  lemma SameSplit(a: string, x: string, b: string, y: string)
    requires a + x == b + y && |a| == |b|
    ensures a == b && x == y
  {
    assert a == (a + x)[..|a|] && b == (b + y)[..|b|];
    assert x == (a + x)[|a|..] && y == (b + y)[|b|..];
  }

  lemma HexInjective(x: int, y: int)
    requires 0 <= x < 32 && 0 <= y < 32 && HEX[x / 16] == HEX[y / 16] && HEX[x % 16] == HEX[y % 16]
    ensures x == y
  {
  }

  lemma EscapeCharInjective(c: char, d: char)
    requires EscapeChar(c) == EscapeChar(d)
    ensures c == d
  {
    var e, f := EscapeChar(c), EscapeChar(d);
    if |e| == 6 {
      assert e[4] == HEX[c as int / 16] && e[5] == HEX[c as int % 16];
      assert f[4] == HEX[d as int / 16] && f[5] == HEX[d as int % 16];
      HexInjective(c as int, d as int);
    }
  }

  /** The first two characters of an escape fix its length. */
  lemma EscapeCharLength(c: char, d: char, x: string, y: string)
    requires EscapeChar(c) + x == EscapeChar(d) + y
    ensures |EscapeChar(c)| == |EscapeChar(d)|
  {
    var e, f := EscapeChar(c), EscapeChar(d);
    assert e[0] == (e + x)[0] == (f + y)[0] == f[0];
    if |e| > 1 && |f| > 1 { assert e[1] == (e + x)[1] == (f + y)[1] == f[1]; }
  }

  lemma EscapeHead(s: string, x: string)
    ensures (Escape(s) + ("\"" + x))[0] == '\"' <==> s == []
  {
  }

  lemma {:induction false} EscapePrefixFree(s: string, t: string, x: string, y: string)
    requires Escape(s) + ("\"" + x) == Escape(t) + ("\"" + y)
    ensures s == t && x == y
  {
    hide EscapeChar;
    if s == [] || t == [] {
      EscapeHead(s, x);
      EscapeHead(t, y);
      assert Escape(s) + ("\"" + x) == "\"" + x && Escape(t) + ("\"" + y) == "\"" + y;
      SameSplit("\"", x, "\"", y);
    } else {
      var u, v := Escape(s[1..]) + ("\"" + x), Escape(t[1..]) + ("\"" + y);
      assert Escape(s) + ("\"" + x) == EscapeChar(s[0]) + u;
      assert Escape(t) + ("\"" + y) == EscapeChar(t[0]) + v;
      EscapeCharLength(s[0], t[0], u, v);
      SameSplit(EscapeChar(s[0]), u, EscapeChar(t[0]), v);
      EscapeCharInjective(s[0], t[0]);
      EscapePrefixFree(s[1..], t[1..], x, y);
      assert s == [s[0]] + s[1..] && t == [t[0]] + t[1..];
    }
  }

  lemma QuotePrefixFree(s: string, t: string, x: string, y: string)
    requires Quote(s) + x == Quote(t) + y
    ensures s == t && x == y
  {
    hide Escape;
    assert Quote(s) + x == "\"" + (Escape(s) + ("\"" + x));
    assert Quote(t) + y == "\"" + (Escape(t) + ("\"" + y));
    SameSplit("\"", Escape(s) + ("\"" + x), "\"", Escape(t) + ("\"" + y));
    EscapePrefixFree(s, t, x, y);
  }

  // -------------------------------------------------------------- values

  ghost function Canonical(v: Json): (r: string)
    decreases v, 1, 0
  {
    match v
    case Null => "null"
    case Bool(b) => if b then "true" else "false"
    case Int(i) => IntText(i)
    case Str(s) => Quote(s)
    case Arr(items) => "[" + Items(v, 0)
    case Obj(fields) => "{" + Fields(v, Listing(fields.Keys))
  }

  /** The items from the `i`-th on, separated by commas, and the closing bracket. */
  ghost function Items(v: Json, i: nat): (r: string)
    requires v.Arr? && i <= |v.items|
    decreases v, 0, |v.items| - i
  {
    if i == |v.items| then "]"
    else (if i == 0 then "" else ",") + Canonical(v.items[i]) + Items(v, i + 1)
  }

  /** The fields named by `keys` in that order, each preceded by its separator. */
  ghost function Fields(v: Json, keys: seq<string>): (r: string)
    requires v.Obj? && forall k :: k in keys ==> k in v.fields
    decreases v, 0, |keys|
  {
    if keys == [] then "}"
    else Quote(keys[0]) + ":" + Canonical(v.fields[keys[0]]) + (if |keys| == 1 then "" else ",") + Fields(v, keys[1..])
  }

  // --------------------------------------------------- unique readability

  /** Text that may follow a value: nothing, or a separator. */
  ghost predicate Follows(r: string) {
    r == [] || r[0] in ",]}"
  }

  /** Leading digits, up to the first separator, are determined by the whole. */
  lemma {:induction false} DigitsPrefixFree(a: string, b: string, x: string, y: string)
    requires (forall c :: c in a ==> IsDigit(c)) && (forall c :: c in b ==> IsDigit(c))
    requires a + x == b + y && Follows(x) && Follows(y)
    ensures a == b && x == y
  {
    assert forall i :: 0 <= i < |a| ==> IsDigit((a + x)[i]);
    assert forall i :: 0 <= i < |b| ==> IsDigit((b + y)[i]);
    assert x != [] ==> !IsDigit((a + x)[|a|]);
    assert y != [] ==> !IsDigit((b + y)[|b|]);
    SameSplit(a, x, b, y);
  }

  lemma IntPrefixFree(i: int, j: int, x: string, y: string)
    requires IntText(i) + x == IntText(j) + y && Follows(x) && Follows(y)
    ensures i == j && x == y
  {
    hide Decimal;
    IntHead(i, x);
    IntHead(j, y);
    if i < 0 {
      SameSplit("-", Decimal(-i) + x, "-", Decimal(-j) + y);
      DigitsPrefixFree(Decimal(-i), Decimal(-j), x, y);
      DecimalInjective(-i, -j);
    } else {
      DigitsPrefixFree(Decimal(i), Decimal(j), x, y);
      DecimalInjective(i, j);
    }
  }

  lemma IntHead(i: int, x: string)
    ensures (IntText(i) + x)[0] == '-' <==> i < 0
    ensures i < 0 ==> IntText(i) + x == "-" + (Decimal(-i) + x)
  {
    hide Decimal;
    if i >= 0 { assert IsDigit(Decimal(i)[0]); }
  }

  /** Which kind of value a first character announces. */
  ghost function Kind(v: Json): nat {
    match v
    case Null => 0 case Bool(b) => if b then 1 else 2 case Int(_) => 3
    case Str(_) => 4 case Arr(_) => 5 case Obj(_) => 6
  }

  lemma FirstChar(v: Json)
    ensures Canonical(v) != []
    ensures var c := Canonical(v)[0];
            Kind(v) == if c == 'n' then 0 else if c == 't' then 1 else if c == 'f' then 2
                       else if c == '\"' then 4 else if c == '[' then 5 else if c == '{' then 6 else 3
    ensures Canonical(v)[0] !in ",]}"
  {
    if v.Int? {
      assert IntText(v.num)[0] == '-' || IntText(v.num)[0] in Decimal(v.num);
    }
  }

  /** A canonical text is readable in one way: the value it starts with, and what is left. */
  lemma {:induction false} CanonicalPrefixFree(v: Json, w: Json, x: string, y: string)
    requires Canonical(v) + x == Canonical(w) + y && Follows(x) && Follows(y)
    ensures v == w && x == y
    decreases v, 1, 0
  {
    hide Canonical, Items, Fields, Escape, Decimal, Listing;
    SameKind(v, w, x, y);
    match v {
      case Arr(items) =>
        BracketText(v, x);
        BracketText(w, y);
        SameSplit("[", Items(v, 0) + x, "[", Items(w, 0) + y);
        ItemsPrefixFree(v, w, 0, x, y);
      case Obj(fields) =>
        var k, l := Listing(fields.Keys), Listing(w.fields.Keys);
        BraceText(v, x);
        BraceText(w, y);
        SameSplit("{", Fields(v, k) + x, "{", Fields(w, l) + y);
        FieldsPrefixFree(v, w, k, l, x, y);
        assert fields == w.fields;
      case _ => ScalarPrefixFree(v, w, x, y);
    }
  }

  lemma ScalarPrefixFree(v: Json, w: Json, x: string, y: string)
    requires Kind(v) == Kind(w) < 5
    requires Canonical(v) + x == Canonical(w) + y && Follows(x) && Follows(y)
    ensures v == w && x == y
  {
    hide Escape, Decimal;
    match v
    case Int(i) => IntPrefixFree(i, w.num, x, y);
    case Str(s) => QuotePrefixFree(s, w.text, x, y);
    case _ => SameSplit(Canonical(v), x, Canonical(w), y);
  }

  lemma SameKind(v: Json, w: Json, x: string, y: string)
    requires Canonical(v) + x == Canonical(w) + y
    ensures Kind(v) == Kind(w)
  {
    FirstChar(v);
    FirstChar(w);
    hide Canonical, Kind;
    assert (Canonical(v) + x)[0] == Canonical(v)[0] && (Canonical(w) + y)[0] == Canonical(w)[0];
  }

  lemma BracketText(v: Json, x: string)
    requires v.Arr?
    ensures Canonical(v) + x == "[" + (Items(v, 0) + x)
  {
    hide Items;
  }

  lemma BraceText(v: Json, x: string)
    requires v.Obj?
    ensures Canonical(v) + x == "{" + (Fields(v, Listing(v.fields.Keys)) + x)
  {
    hide Fields;
  }

  lemma {:induction false} ItemsPrefixFree(v: Json, w: Json, i: nat, x: string, y: string)
    requires v.Arr? && w.Arr? && i <= |v.items| && i <= |w.items|
    requires v.items[..i] == w.items[..i]
    requires Items(v, i) + x == Items(w, i) + y && Follows(x) && Follows(y)
    ensures v == w && x == y
    decreases v, 0, |v.items| - i
  {
    hide Canonical, Items, Follows;
    ItemsShape(v, i, x);
    ItemsShape(w, i, y);
    if i == |v.items| || i == |w.items| {
      SameSplit("]", x, "]", y);
    } else {
      var sep := if i == 0 then "" else ",";
      var u, t := Items(v, i + 1) + x, Items(w, i + 1) + y;
      SameSplit(sep, Canonical(v.items[i]) + u, sep, Canonical(w.items[i]) + t);
      ItemsShape(v, i + 1, x);
      ItemsShape(w, i + 1, y);
      CanonicalPrefixFree(v.items[i], w.items[i], u, t);
      ItemsPrefixFree(v, w, i + 1, x, y);
    }
  }

  lemma {:induction false} ItemsShape(v: Json, i: nat, x: string)
    requires v.Arr? && i <= |v.items|
    ensures i == |v.items| ==> Items(v, i) + x == "]" + x
    ensures i < |v.items| ==>
              Items(v, i) + x == (if i == 0 then "" else ",") + (Canonical(v.items[i]) + (Items(v, i + 1) + x))
    ensures i > 0 ==> Follows(Items(v, i) + x)
    ensures var t := Items(v, i) + x; t != [] && (t[0] == ']' <==> i == |v.items|)
  {
    if i < |v.items| {
      FirstChar(v.items[i]);
      var c, r := Canonical(v.items[i]), Items(v, i + 1);
      assert Items(v, i) == (if i == 0 then "" else ",") + c + r;
      hide Canonical, Items;
      if i == 0 { assert "" + c + r + x == "" + (c + (r + x)); } else { assert "," + c + r + x == "," + (c + (r + x)); }
    }
  }

  lemma {:induction false} FieldsPrefixFree(v: Json, w: Json, k: seq<string>, l: seq<string>, x: string, y: string)
    requires v.Obj? && w.Obj? && (forall a :: a in k ==> a in v.fields) && (forall a :: a in l ==> a in w.fields)
    requires Fields(v, k) + x == Fields(w, l) + y && Follows(x) && Follows(y)
    ensures k == l && x == y && forall a :: a in k ==> v.fields[a] == w.fields[a]
    decreases v, 0, |k|
  {
    hide Canonical, Fields, Quote;
    FieldsShape(v, k, x);
    FieldsShape(w, l, y);
    if k == [] || l == [] {
      SameSplit("}", x, "}", y);
    } else {
      var u := (if |k| == 1 then "" else ",") + (Fields(v, k[1..]) + x);
      var t := (if |l| == 1 then "" else ",") + (Fields(w, l[1..]) + y);
      QuotePrefixFree(k[0], l[0], ":" + (Canonical(v.fields[k[0]]) + u), ":" + (Canonical(w.fields[l[0]]) + t));
      SameSplit(":", Canonical(v.fields[k[0]]) + u, ":", Canonical(w.fields[l[0]]) + t);
      FieldsShape(v, k[1..], x);
      FieldsShape(w, l[1..], y);
      CanonicalPrefixFree(v.fields[k[0]], w.fields[l[0]], u, t);
      var sep := if |k| == 1 then "" else ",";
      SameSplit(sep, Fields(v, k[1..]) + x, sep, Fields(w, l[1..]) + y);
      FieldsPrefixFree(v, w, k[1..], l[1..], x, y);
      assert k == [k[0]] + k[1..] && l == [l[0]] + l[1..];
    }
  }

  lemma {:induction false} FieldsShape(v: Json, k: seq<string>, x: string)
    requires v.Obj? && forall a :: a in k ==> a in v.fields
    ensures k == [] ==> Fields(v, k) + x == "}" + x
    ensures k != [] ==>
              Fields(v, k) + x == Quote(k[0]) + (":" + (Canonical(v.fields[k[0]])
                                  + ((if |k| == 1 then "" else ",") + (Fields(v, k[1..]) + x))))
    ensures var t := Fields(v, k) + x; t != [] && t[0] == if k == [] then '}' else '\"'
  {
  }

  /** Equal canonical texts come from equal values. */
  lemma CanonicalInjective(v: Json, w: Json)
    requires Canonical(v) == Canonical(w)
    ensures v == w
  {
    assert Canonical(v) + [] == Canonical(w) + [];
    CanonicalPrefixFree(v, w, [], []);
  }

  /** Distinct values have distinct digests. */
  ghost predicate CollisionFree(h: Json -> string) {
    forall v, w :: h(v) == h(w) ==> v == w
  }

  /** A hash of canonical text inherits collision-freeness from the hash of strings. */
  lemma CanonicalDigestCollisionFree(sha: string -> string, h: Json -> string)
    requires forall s, t :: sha(s) == sha(t) ==> s == t
    requires forall v :: h(v) == sha(Canonical(v))
    ensures CollisionFree(h)
  {
    hide Canonical;
    forall v, w | h(v) == h(w) ensures v == w {
      CanonicalInjective(v, w);
    }
  }
}
