/** UTF-8 and base64url (section 5 of RFC 4648), the two layers under the proof token
    and the proof header. */
module Codecs {
  import opened Wrappers

  type Byte = b: int | 0 <= b < 256

  // --------------------------------------------------------------- UTF-8

  function High(p: int): int { p / 64 }

  function Low(p: int): (r: int)
    ensures 0 <= r < 64
  {
    p % 64
  }

  function Join(high: int, low: int): int { high * 64 + low }

  lemma SplitJoin(p: int)
    ensures Join(High(p), Low(p)) == p
  {
  }

  lemma JoinSplit(high: int, low: int)
    requires 0 <= low < 64
    ensures High(Join(high, low)) == high && Low(Join(high, low)) == low
    ensures high < 0x10 ==> Join(high, low) < 0x400
    ensures high < 0x400 ==> Join(high, low) < 0x10000
  {
  }

  /** A code point with `n` continuation bytes behind a lead byte marked `mark`. */
  function EncodeChar(c: char): (r: seq<Byte>)
    ensures 1 <= |r| <= 4
  {
    var p := c as int;
    if p < 0x80 then [p]
    else if p < 0x800 then [0xC0 + High(p), 0x80 + Low(p)]
    else if p < 0x10000 then [0xE0 + High(High(p)), 0x80 + Low(High(p)), 0x80 + Low(p)]
    else [0xF0 + High(High(High(p))), 0x80 + Low(High(High(p))), 0x80 + Low(High(p)), 0x80 + Low(p)]
  }

  function EncodeUtf8(s: string): (r: seq<Byte>) {
    if s == [] then [] else EncodeChar(s[0]) + EncodeUtf8(s[1..])
  }

  lemma {:induction false} EncodeUtf8Append(s: string, t: string)
    ensures EncodeUtf8(s + t) == EncodeUtf8(s) + EncodeUtf8(t)
  {
    hide EncodeChar;
    if s == [] {
      assert s + t == t;
    } else {
      assert (s + t)[1..] == s[1..] + t;
      EncodeUtf8Append(s[1..], t);
    }
  }

  /** Every character takes at least one byte. */
  lemma {:induction false} EncodeUtf8Length(s: string)
    ensures |EncodeUtf8(s)| >= |s|
  {
    if s != [] {
      EncodeUtf8Length(s[1..]);
    }
  }

  predicate Continuation(b: Byte) { 0x80 <= b < 0xC0 }

  predicate ScalarValue(p: int) { 0 <= p < 0xD800 || 0xE000 <= p < 0x110000 }

  function Tail(b: Byte): int { b - 0x80 }

  /** The code point at the front and its length; strict, so overlong forms, surrogates
      and stray continuation bytes are refused. */
  function FrontChar(b: seq<Byte>): (r: Option<(char, nat)>)
    requires b != []
    ensures r.Some? ==> 1 <= r.value.1 <= |b|
  {
    var lead: int := b[0];
    if lead < 0x80 then Some((lead as char, 1))
    else if lead < 0xC0 then None
    else if lead < 0xE0 then
      if |b| < 2 || !Continuation(b[1]) then None
      else InRange(Join(lead - 0xC0, Tail(b[1])), 0x80, 2)
    else if lead < 0xF0 then
      if |b| < 3 || !Continuation(b[1]) || !Continuation(b[2]) then None
      else InRange(Join(Join(lead - 0xE0, Tail(b[1])), Tail(b[2])), 0x800, 3)
    else if lead < 0xF8 then
      if |b| < 4 || !Continuation(b[1]) || !Continuation(b[2]) || !Continuation(b[3]) then None
      else InRange(Join(Join(Join(lead - 0xF0, Tail(b[1])), Tail(b[2])), Tail(b[3])), 0x10000, 4)
    else None
  }

  function InRange(p: int, least: int, length: nat): (r: Option<(char, nat)>)
    ensures r.Some? <==> least <= p && ScalarValue(p)
    ensures r.Some? ==> r.value.0 as int == p && r.value.1 == length
  {
    if least <= p && ScalarValue(p) then Some((p as char, length)) else None
  }

  function DecodeUtf8(b: seq<Byte>): (r: Option<string>) {
    if b == [] then Some([])
    else
      var front := FrontChar(b);
      if front.None? then None
      else
        var rest := DecodeUtf8(b[front.value.1..]);
        if rest.None? then None else Some([front.value.0] + rest.value)
  }

  lemma FrontOfEncoded(c: char, rest: seq<Byte>)
    ensures FrontChar(EncodeChar(c) + rest) == Some((c, |EncodeChar(c)|))
  {
    hide High, Low, Join;
    var p, e := c as int, EncodeChar(c);
    SplitJoin(p);
    SplitJoin(High(p));
    SplitJoin(High(High(p)));
    Bounds(p);
    assert forall i :: 0 <= i < |e| ==> (e + rest)[i] == e[i];
  }

  lemma Bounds(p: int)
    requires 0 <= p < 0x110000
    ensures 0 <= High(High(High(p))) <= High(High(p)) <= High(p) <= p
    ensures p < 0x800 ==> High(p) < 32
    ensures p < 0x10000 ==> High(High(p)) < 16
    ensures High(High(High(p))) < 8
  {
  }

  lemma {:induction false} Utf8RoundTrip(s: string)
    ensures DecodeUtf8(EncodeUtf8(s)) == Some(s)
  {
    if s != [] {
      var e, rest := EncodeChar(s[0]), EncodeUtf8(s[1..]);
      FrontOfEncoded(s[0], rest);
      assert (e + rest)[|e|..] == rest;
      Utf8RoundTrip(s[1..]);
      assert s == [s[0]] + s[1..];
    }
  }

  lemma EncodedFront(b: seq<Byte>)
    requires b != [] && FrontChar(b).Some?
    ensures EncodeChar(FrontChar(b).value.0) == b[..FrontChar(b).value.1]
  {
    if 0xC0 <= b[0] < 0xE0 {
      FrontTwo(b);
    } else if 0xE0 <= b[0] < 0xF0 {
      FrontThree(b);
    } else if 0xF0 <= b[0] {
      FrontFour(b);
    }
  }

  lemma FrontTwo(b: seq<Byte>)
    requires b != [] && FrontChar(b).Some? && 0xC0 <= b[0] < 0xE0
    ensures EncodeChar(FrontChar(b).value.0) == b[..FrontChar(b).value.1]
  {
    JoinSplit(b[0] - 0xC0, Tail(b[1]));
  }

  lemma FrontThree(b: seq<Byte>)
    requires b != [] && FrontChar(b).Some? && 0xE0 <= b[0] < 0xF0
    ensures EncodeChar(FrontChar(b).value.0) == b[..FrontChar(b).value.1]
  {
    hide High, Low, Join;
    var q := Join(b[0] - 0xE0, Tail(b[1]));
    JoinSplit(b[0] - 0xE0, Tail(b[1]));
    JoinSplit(q, Tail(b[2]));
  }

  lemma FrontFour(b: seq<Byte>)
    requires b != [] && FrontChar(b).Some? && 0xF0 <= b[0]
    ensures EncodeChar(FrontChar(b).value.0) == b[..FrontChar(b).value.1]
  {
    hide High, Low, Join;
    var q := Join(b[0] - 0xF0, Tail(b[1]));
    JoinSplit(b[0] - 0xF0, Tail(b[1]));
    JoinSplit(q, Tail(b[2]));
    JoinSplit(Join(q, Tail(b[2])), Tail(b[3]));
  }

  /** Strictness: what decodes is exactly the encoding of what it decodes to. */
  lemma {:induction false} Utf8Canonical(b: seq<Byte>)
    requires DecodeUtf8(b).Some?
    ensures EncodeUtf8(DecodeUtf8(b).value) == b
  {
    hide FrontChar, EncodeChar;
    if b != [] {
      var (c, n) := FrontChar(b).value;
      EncodedFront(b);
      Utf8Canonical(b[n..]);
      var s := DecodeUtf8(b).value;
      assert s[0] == c && s[1..] == DecodeUtf8(b[n..]).value;
      assert b == b[..n] + b[n..];
    }
  }

  // ----------------------------------------------------------- base64url

  function CharOf(i: int): (c: char)
    requires 0 <= i < 64
  {
    if i < 26 then 'A' + i as char
    else if i < 52 then 'a' + (i - 26) as char
    else if i < 62 then '0' + (i - 52) as char
    else if i == 62 then '-' else '_'
  }

  /** The decoder maps '-' and '_' onto '+' and '/', so it takes either pair. */
  function IndexOf(c: char): (r: Option<int>)
    ensures r.Some? ==> 0 <= r.value < 64
  {
    if 'A' <= c <= 'Z' then Some(c as int - 'A' as int)
    else if 'a' <= c <= 'z' then Some(c as int - 'a' as int + 26)
    else if '0' <= c <= '9' then Some(c as int - '0' as int + 52)
    else if c == '-' || c == '+' then Some(62)
    else if c == '_' || c == '/' then Some(63)
    else None
  }

  predicate Alphabet(s: string) { forall i :: 0 <= i < |s| ==> IndexOf(s[i]).Some? }

  /** The field of `x` above its low part of size `m`, and that low part. */
  function Above(x: int, m: int): int
    requires m > 0
  {
    x / m
  }

  function Below(x: int, m: int): (r: int)
    requires m > 0
    ensures 0 <= r < m
  {
    x % m
  }

  lemma FieldsOf(x: int, m: int)
    requires m in {4, 16, 64} && 0 <= x < 256
    ensures Above(x, m) * m + Below(x, m) == x
    ensures 0 <= Above(x, m) && Above(x, m) * m <= x
  {
  }

  lemma FieldsFrom(high: int, low: int, m: int)
    requires m in {4, 16} && 0 <= low < m
    ensures Above(high * m + low, m) == high && Below(high * m + low, m) == low
  {
  }

  /** The sextets of three bytes. */
  function Sextets(a: Byte, b: Byte, c: Byte): (r: seq<int>)
    ensures |r| == 4 && forall i :: 0 <= i < 4 ==> 0 <= r[i] < 64
  {
    FieldsOf(a, 4); FieldsOf(b, 16); FieldsOf(c, 64);
    [Above(a, 4), Below(a, 4) * 16 + Above(b, 16), Below(b, 16) * 4 + Above(c, 64), Below(c, 64)]
  }

  /** The bytes of four sextets. */
  function Bytes(i: int, j: int, k: int, l: int): (r: seq<Byte>)
    requires 0 <= i < 64 && 0 <= j < 64 && 0 <= k < 64 && 0 <= l < 64
    ensures |r| == 3
  {
    FieldsOf(j, 16); FieldsOf(k, 4);
    [i * 4 + Above(j, 16), Below(j, 16) * 16 + Above(k, 4), Below(k, 4) * 64 + l]
  }

  lemma SextetsRoundTrip(a: Byte, b: Byte, c: Byte)
    ensures var s := Sextets(a, b, c);
            && Bytes(s[0], s[1], s[2], s[3]) == [a, b, c]
            && (c == 0 ==> Bytes(s[0], s[1], s[2], 0) == [a, b, c])
            && (b == 0 && c == 0 ==> Bytes(s[0], s[1], 0, 0) == [a, b, c])
  {
    hide Above, Below;
    FieldsOf(a, 4); FieldsOf(b, 16); FieldsOf(c, 64);
    FieldsFrom(Below(a, 4), Above(b, 16), 16);
    FieldsFrom(Below(b, 16), Above(c, 64), 4);
  }

  /** The encoding without its padding. */
  function EncodeBody(b: seq<Byte>): (r: string)
    decreases |b|
  {
    if b == [] then []
    else
      var s := Sextets(b[0], if |b| > 1 then b[1] else 0, if |b| > 2 then b[2] else 0);
      if |b| == 1 then [CharOf(s[0]), CharOf(s[1])]
      else if |b| == 2 then [CharOf(s[0]), CharOf(s[1]), CharOf(s[2])]
      else [CharOf(s[0]), CharOf(s[1]), CharOf(s[2]), CharOf(s[3])] + EncodeBody(b[3..])
  }

  lemma {:induction false} EncodeBodyAlphabet(b: seq<Byte>)
    ensures Alphabet(EncodeBody(b)) && |EncodeBody(b)| % 4 != 1
    ensures forall c :: c in EncodeBody(b) ==> IndexOf(c).Some?
    decreases |b|
  {
    hide IndexOf, CharOf;
    if b != [] {
      var s := Sextets(b[0], if |b| > 1 then b[1] else 0, if |b| > 2 then b[2] else 0);
      forall i | 0 <= i < 4 ensures IndexOf(CharOf(s[i])).Some? { IndexOfCharOf(s[i]); }
      if |b| > 2 { EncodeBodyAlphabet(b[3..]); }
    }
  }

  /** "=" repeated -n mod 4 times. */
  function Padding(n: nat): (r: string)
    ensures (n + |r|) % 4 == 0 && |r| < 4 && forall i :: 0 <= i < |r| ==> r[i] == '='
  {
    seq((4 - n % 4) % 4, _ => '=')
  }

  function EncodeBase64(b: seq<Byte>): string {
    EncodeBody(b) + Padding(|EncodeBody(b)|)
  }

  function StripPadding(s: string): (r: string)
    ensures |r| <= |s| && r == s[..|r|]
  {
    if s != [] && s[|s| - 1] == '=' then StripPadding(s[..|s| - 1]) else s
  }

  /** Four characters at a time; the unused low bits of a final group are dropped. */
  function DecodeBody(s: string): (r: seq<Byte>)
    requires Alphabet(s) && |s| % 4 != 1
  {
    if s == [] then []
    else
      var i, j := IndexOf(s[0]).value, IndexOf(s[1]).value;
      var k, l := if |s| > 2 then IndexOf(s[2]).value else 0, if |s| > 3 then IndexOf(s[3]).value else 0;
      if |s| == 2 then Bytes(i, j, k, l)[..1]
      else if |s| == 3 then Bytes(i, j, k, l)[..2]
      else Bytes(i, j, k, l) + DecodeBody(s[4..])
  }

  /** b64decode with validate on: whole groups, at most two '=' and only at the end,
      and nothing outside the alphabet before them. */
  function DecodeBase64(s: string): (r: Option<seq<Byte>>) {
    var body := StripPadding(s);
    if |s| % 4 == 0 && |s| - |body| <= 2 && Alphabet(body) then
      assert |body| % 4 != 1;
      Some(DecodeBody(body))
    else None
  }

  lemma IndexOfCharOf(i: int)
    requires 0 <= i < 64
    ensures IndexOf(CharOf(i)) == Some(i)
  {
  }

  lemma {:induction false} BodyRoundTrip(b: seq<Byte>)
    ensures Alphabet(EncodeBody(b)) && |EncodeBody(b)| % 4 != 1
    ensures DecodeBody(EncodeBody(b)) == b
    decreases |b|
  {
    EncodeBodyAlphabet(b);
    hide IndexOf, CharOf, Sextets, Bytes;
    if b != [] {
      var x, y := if |b| > 1 then b[1] else 0, if |b| > 2 then b[2] else 0;
      var s := Sextets(b[0], x, y);
      SextetsRoundTrip(b[0], x, y);
      forall i | 0 <= i < 4 ensures IndexOf(CharOf(s[i])) == Some(s[i]) { IndexOfCharOf(s[i]); }
      if |b| > 2 {
        BodyRoundTrip(b[3..]);
        assert EncodeBody(b)[4..] == EncodeBody(b[3..]);
        assert b == [b[0], b[1], b[2]] + b[3..];
      }
    }
  }

  lemma {:induction false} StripPaddingOf(s: string, p: string)
    requires (forall i :: 0 <= i < |p| ==> p[i] == '=') && '=' !in s
    ensures StripPadding(s + p) == s
    decreases |p|
  {
    if p == [] {
      assert s + p == s;
    } else {
      assert (s + p)[..|s + p| - 1] == s + p[..|p| - 1];
      StripPaddingOf(s, p[..|p| - 1]);
    }
  }

  /** What `rstrip("=")` leaves of an encoding. */
  lemma StrippedEncoding(b: seq<Byte>)
    ensures StripPadding(EncodeBase64(b)) == EncodeBody(b)
  {
    EncodeBodyAlphabet(b);
    StripPaddingOf(EncodeBody(b), Padding(|EncodeBody(b)|));
  }

  /** Stripping the padding and restoring `-len % 4` of it loses nothing. */
  lemma UnpaddedRoundTrip(b: seq<Byte>)
    ensures var t := StripPadding(EncodeBase64(b));
            DecodeBase64(t + Padding(|t|)) == Some(b)
  {
    hide EncodeBody, StripPadding, DecodeBody;
    var t := EncodeBody(b);
    EncodeBodyAlphabet(b);
    StrippedEncoding(b);
    StripPaddingOf(t, Padding(|t|));
    BodyRoundTrip(b);
  }

  /** `s` without its last `n` characters is over the alphabet, and those are '='. */
  ghost predicate Padded(s: string, n: nat) {
    n <= |s| && Alphabet(s[..|s| - n]) && forall i :: |s| - n <= i < |s| ==> s[i] == '='
  }

  /** Exactly whole groups over the alphabet with at most two '=' at the end are decoded. */
  lemma DecodesIff(s: string)
    ensures DecodeBase64(s).Some? <==> |s| % 4 == 0 && exists n :: 0 <= n <= 2 && Padded(s, n)
  {
    hide DecodeBody, Alphabet;
    var body := StripPadding(s);
    StripPaddingEnds(s);
    if DecodeBase64(s).Some? {
      assert s[..|s| - (|s| - |body|)] == body;
      assert Padded(s, |s| - |body|);
    }
    if n :| 0 <= n <= 2 && Padded(s, n) {
      NoPaddingInside(s[..|s| - n]);
      assert s == s[..|s| - n] + s[|s| - n..];
      StripPaddingOf(s[..|s| - n], s[|s| - n..]);
    }
  }

  lemma {:induction false} StripPaddingEnds(s: string)
    ensures forall i :: |StripPadding(s)| <= i < |s| ==> s[i] == '='
  {
    if s != [] && s[|s| - 1] == '=' {
      StripPaddingEnds(s[..|s| - 1]);
    }
  }

  lemma NoPaddingInside(s: string)
    requires Alphabet(s)
    ensures '=' !in s
  {
    assert IndexOf('=') == None;
  }

  /** The letters are those of table 2 of RFC 4648: capitals, small letters, digits, '-' and
      '_'; the decoder also takes '+' and '/'. */
  lemma LettersIff(i: int, c: char)
    requires 0 <= i < 64
    ensures CharOf(0) == 'A' && CharOf(25) == 'Z' && CharOf(26) == 'a' && CharOf(51) == 'z'
    ensures CharOf(52) == '0' && CharOf(61) == '9' && CharOf(62) == '-' && CharOf(63) == '_'
    ensures i < 61 && i !in {25, 51} ==> CharOf(i + 1) as int == CharOf(i) as int + 1
    ensures IndexOf(c) == Some(i) <==> c == CharOf(i) || (i == 62 && c == '+') || (i == 63 && c == '/')
  {
  }

  /** Four letters hold three bytes, the most significant bits first. */
  lemma SextetsValue(a: Byte, b: Byte, c: Byte)
    ensures var s := Sextets(a, b, c);
            (a * 0x100 + b) * 0x100 + c == ((s[0] * 0x40 + s[1]) * 0x40 + s[2]) * 0x40 + s[3]
  {
    hide Above, Below;
    FieldsOf(a, 4); FieldsOf(b, 16); FieldsOf(c, 64);
  }

  /** One character for each length of its UTF-8 form. */
  lemma Utf8Vectors()
    ensures EncodeUtf8("$") == [0x24] && EncodeUtf8("\U{A3}") == [0xC2, 0xA3]
    ensures EncodeUtf8("\U{20AC}") == [0xE2, 0x82, 0xAC] && EncodeUtf8("\U{10348}") == [0xF0, 0x90, 0x8D, 0x88]
  {
  }
}
