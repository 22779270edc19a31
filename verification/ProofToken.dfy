/** The wire forms of a proof: the boundary's proof token
    (actenon/boundary/__init__.py) and the proof header (actenon/adapters/fastapi.py).

    `load` stands for everything done with the decoded text: the strict JSON loader,
    the object check and the proof's own parser. */
module ProofToken {
  import opened Wrappers
  import opened Codecs

  const PREFIX := "v1."

  /** str.isspace, as used by str.strip. */
  predicate IsSpace(c: char) {
    var p := c as int;
    9 <= p <= 13 || 28 <= p <= 32 || p == 0x85 || p == 0xA0 || p == 0x1680 || 0x2000 <= p <= 0x200A
    || p == 0x2028 || p == 0x2029 || p == 0x202F || p == 0x205F || p == 0x3000
  }

  predicate AllSpace(s: string) { forall i :: 0 <= i < |s| ==> IsSpace(s[i]) }

  /** The whitespace JSON allows around a value (section 2 of RFC 8259). */
  predicate JsonSpace(s: string) { forall i :: 0 <= i < |s| ==> s[i] in " \t\n\r" }

  function TrimLeft(s: string): (r: string) {
    if s != [] && IsSpace(s[0]) then TrimLeft(s[1..]) else s
  }

  function TrimRight(s: string): (r: string) {
    if s != [] && IsSpace(s[|s| - 1]) then TrimRight(s[..|s| - 1]) else s
  }

  function Strip(s: string): string { TrimRight(TrimLeft(s)) }

  function RemovePrefix(s: string): string {
    if PREFIX <= s then s[|PREFIX|..] else s
  }

  function DecodeEncoded<P>(text: string, load: string -> Option<P>): (r: Option<P>) {
    var bytes := DecodeBase64(text + Padding(|text|));
    if bytes.None? then None
    else
      var decoded := DecodeUtf8(bytes.value);
      if decoded.None? then None else load(decoded.value)
  }

  function DecodeProofToken<P>(token: string, load: string -> Option<P>): (r: Option<P>) {
    var text := Strip(token);
    if text != [] && text[0] == '{' then load(text) else DecodeEncoded(RemovePrefix(text), load)
  }

  /** Unpadded base64url of the UTF-8 form of a text. */
  function Encoded(text: string): string {
    StripPadding(EncodeBase64(EncodeUtf8(text)))
  }

  lemma {:induction false} TrimLeftOf(w: string, s: string)
    requires AllSpace(w) && (s == [] || !IsSpace(s[0]))
    ensures TrimLeft(w + s) == s
  {
    if w == [] {
      assert w + s == s;
    } else {
      assert (w + s)[1..] == w[1..] + s;
      TrimLeftOf(w[1..], s);
    }
  }

  lemma {:induction false} TrimRightOf(s: string, w: string)
    requires AllSpace(w) && (s == [] || !IsSpace(s[|s| - 1]))
    ensures TrimRight(s + w) == s
  {
    if w == [] {
      assert s + w == s;
    } else {
      assert (s + w)[..|s + w| - 1] == s + w[..|w| - 1];
      TrimRightOf(s, w[..|w| - 1]);
    }
  }

  lemma StripOf(before: string, s: string, after: string)
    requires AllSpace(before) && AllSpace(after)
    requires s != [] && !IsSpace(s[0]) && !IsSpace(s[|s| - 1])
    ensures Strip(before + s + after) == s
  {
    assert before + s + after == before + (s + after);
    TrimLeftOf(before, s + after);
    TrimRightOf(s, after);
  }

  lemma {:induction false} TrimLeftAll(w: string, s: string)
    requires AllSpace(w)
    ensures TrimLeft(w + s) == TrimLeft(s)
  {
    if w == [] {
      assert w + s == s;
    } else {
      assert (w + s)[1..] == w[1..] + s;
      TrimLeftAll(w[1..], s);
    }
  }

  lemma {:induction false} TrimRightAll(s: string, w: string)
    requires AllSpace(w)
    ensures TrimRight(s + w) == TrimRight(s)
  {
    if w == [] {
      assert s + w == s;
    } else {
      assert (s + w)[..|s + w| - 1] == s + w[..|w| - 1];
      TrimRightAll(s, w[..|w| - 1]);
    }
  }

  lemma {:induction false} TrimLeftKeeps(s: string, w: string)
    requires AllSpace(w)
    ensures TrimRight(TrimLeft(s + w)) == TrimRight(TrimLeft(s))
  {
    if s == [] {
      assert s + w == w + [] && [] + w == w;
      TrimLeftAll(w, []);
    } else if IsSpace(s[0]) {
      assert (s + w)[1..] == s[1..] + w;
      TrimLeftKeeps(s[1..], w);
    } else {
      TrimRightAll(s, w);
    }
  }

  /** Space around a token, in whatever form it comes, makes no difference. */
  lemma OuterSpaceIgnored<P>(before: string, token: string, after: string, load: string -> Option<P>)
    requires AllSpace(before) && AllSpace(after)
    ensures DecodeProofToken(before + token + after, load) == DecodeProofToken(token, load)
  {
    hide DecodeEncoded;
    assert before + token + after == before + (token + after);
    TrimLeftAll(before, token + after);
    TrimLeftKeeps(token, after);
  }

  /** An encoded text holds no brace, dot, '=' or whitespace. */
  lemma EncodedAlphabet(text: string)
    ensures Encoded(text) == EncodeBody(EncodeUtf8(text))
    ensures forall c :: c in Encoded(text) ==> c !in "{.=" && !IsSpace(c)
  {
    hide EncodeBody, EncodeUtf8, EncodeBase64, StripPadding;
    StrippedEncoding(EncodeUtf8(text));
    EncodeBodyAlphabet(EncodeUtf8(text));
  }

  lemma DecodeEncodedOf<P>(text: string, load: string -> Option<P>)
    ensures DecodeEncoded(Encoded(text), load) == load(text)
  {
    hide EncodeBase64, EncodeUtf8, StripPadding, DecodeBase64, DecodeUtf8;
    UnpaddedRoundTrip(EncodeUtf8(text));
    Utf8RoundTrip(text);
  }

  /** An encoded text is not empty, and neither its ends nor its first character are
      space, brace or dot. */
  lemma EncodedEnds(text: string)
    requires text != []
    ensures var e := Encoded(text);
            && e != [] && !IsSpace(e[0]) && !IsSpace(e[|e| - 1]) && e[0] != '{' && '.' !in e
  {
    hide IsSpace, EncodeBody, EncodeUtf8;
    EncodedAlphabet(text);
    EncodeUtf8NonEmpty(text);
    hide Encoded;
    var e := Encoded(text);
    assert e[0] in e && e[|e| - 1] in e;
  }

  lemma EncodeUtf8NonEmpty(text: string)
    requires text != []
    ensures EncodeBody(EncodeUtf8(text)) != []
  {
    EncodeUtf8Length(text);
    hide EncodeUtf8;
    BodyNonEmpty(EncodeUtf8(text));
  }

  lemma BodyNonEmpty(b: seq<Byte>)
    requires b != []
    ensures EncodeBody(b) != []
  {
  }

  lemma StripEncoded(text: string)
    requires text != []
    ensures Strip(Encoded(text)) == Encoded(text) && Strip(PREFIX + Encoded(text)) == PREFIX + Encoded(text)
  {
    hide Encoded, Strip, IsSpace;
    var e := Encoded(text);
    EncodedEnds(text);
    StripOf("", e, "");
    assert "" + e + "" == e;
    var t := PREFIX + e;
    PrefixStart();
    assert t[0] == PREFIX[0] && t[|t| - 1] == e[|e| - 1];
    StripOf("", t, "");
    assert "" + t + "" == t;
  }

  lemma PrefixStart()
    ensures !IsSpace(PREFIX[0]) && PREFIX[0] != '{' && PREFIX[2] == '.' && |PREFIX| == 3
  {
  }

  lemma RemoveFromEncoded(text: string)
    requires text != []
    ensures RemovePrefix(Encoded(text)) == Encoded(text) && RemovePrefix(PREFIX + Encoded(text)) == Encoded(text)
  {
    hide Encoded, IsSpace;
    var e := Encoded(text);
    EncodedEnds(text);
    PrefixStart();
    assert |e| > 2 ==> e[2] in e;
    assert (PREFIX + e)[|PREFIX|..] == e && PREFIX <= PREFIX + e;
  }

  // ---------------------------------------------------------- the three forms

  /** A JSON parser ignores whitespace around the value. */
  ghost predicate IgnoresOuterSpace<P(!new)>(parse: string -> Option<P>) {
    forall before, s, after :: JsonSpace(before) && JsonSpace(after) ==> parse(before + s + after) == parse(s)
  }

  /** The loader refuses a text of more than `maxBytes` bytes before it parses it. */
  function Limited<P>(maxBytes: nat, parse: string -> Option<P>): (load: string -> Option<P>) {
    text => if |EncodeUtf8(text)| > maxBytes then None else parse(text)
  }

  /** What each form of an object text is loaded from: raw JSON is stripped before its
      size is taken, an encoded text is not. */
  lemma FormsLoad<P>(before: string, obj: string, after: string, load: string -> Option<P>)
    requires JsonSpace(before) && JsonSpace(after) && |obj| >= 2 && obj[0] == '{' && obj[|obj| - 1] == '}'
    ensures var text := before + obj + after;
            && DecodeProofToken(text, load) == load(obj)
            && DecodeProofToken(Encoded(text), load) == load(text)
            && DecodeProofToken(PREFIX + Encoded(text), load) == load(text)
  {
    hide Encoded, Strip, DecodeEncoded, RemovePrefix;
    var text := before + obj + after;
    StripOf(before, obj, after);
    EncodedEnds(text);
    StripEncoded(text);
    RemoveFromEncoded(text);
    PrefixStart();
    assert (PREFIX + Encoded(text))[0] == PREFIX[0];
    DecodeEncodedOf(text, load);
  }

  /** The three forms of an object text decode alike exactly when the whole text, outer
      space included, is within the loader's limit, or the object is refused anyway. */
  lemma ProofTokenForms<P(!new)>(before: string, obj: string, after: string, maxBytes: nat, parse: string -> Option<P>)
    requires IgnoresOuterSpace(parse) && JsonSpace(before) && JsonSpace(after)
    requires |obj| >= 2 && obj[0] == '{' && obj[|obj| - 1] == '}'
    ensures var load, text := Limited(maxBytes, parse), before + obj + after;
            && DecodeProofToken(text, load) == load(obj)
            && DecodeProofToken(Encoded(text), load) == DecodeProofToken(PREFIX + Encoded(text), load)
            && (DecodeProofToken(Encoded(text), load) == load(obj) <==>
                |EncodeUtf8(text)| <= maxBytes || load(obj).None?)
  {
    hide DecodeProofToken, Encoded, EncodeUtf8;
    var text := before + obj + after;
    FormsLoad(before, obj, after, Limited(maxBytes, parse));
    EncodeUtf8Append(before + obj, after);
    EncodeUtf8Append(before, obj);
    assert parse(text) == parse(obj);
  }

  /** Space enough around an accepted object: raw it decodes, encoded it is refused. */
  lemma OuterSpaceSeparatesForms<P(!new)>(obj: string, maxBytes: nat, parse: string -> Option<P>)
    requires IgnoresOuterSpace(parse) && Limited(maxBytes, parse)(obj).Some?
    requires |obj| >= 2 && obj[0] == '{' && obj[|obj| - 1] == '}'
    ensures var load, text := Limited(maxBytes, parse), obj + seq(maxBytes + 1, _ => ' ');
            DecodeProofToken(text, load).Some? && DecodeProofToken(Encoded(text), load).None?
  {
    hide DecodeProofToken, Encoded, EncodeUtf8;
    var spaces := seq(maxBytes + 1, _ => ' ');
    assert "" + obj + spaces == obj + spaces;
    FormsLoad("", obj, spaces, Limited(maxBytes, parse));
    EncodeUtf8Append(obj, spaces);
    EncodeUtf8Length(spaces);
  }

  /** The brace test and the prefix test read each token as one form only: a token that
      starts with a brace never reaches the base64 decoder with success, and a second
      prefix is never stripped. */
  lemma FormsAreDisjoint(text: string)
    ensures text != [] && text[0] == '{' ==> DecodeBase64(RemovePrefix(text) + Padding(|RemovePrefix(text)|)).None?
    ensures PREFIX <= RemovePrefix(text) ==> DecodeBase64(RemovePrefix(text) + Padding(|RemovePrefix(text)|)).None?
  {
    var t := RemovePrefix(text);
    if text != [] && text[0] == '{' {
      assert t == text;
      NotAlphabet(t, 0);
    }
    if PREFIX <= t {
      assert t[2] == PREFIX[2];
      NotAlphabet(t, 2);
    }
  }

  lemma NotAlphabet(t: string, i: nat)
    requires i < |t| && IndexOf(t[i]).None? && t[i] != '='
    ensures DecodeBase64(t + Padding(|t|)).None?
  {
    var s := t + Padding(|t|);
    StripKeeps(s, i);
  }

  lemma {:induction false} StripKeeps(s: string, i: nat)
    requires i < |s| && s[i] != '='
    ensures i < |StripPadding(s)| && StripPadding(s)[i] == s[i]
    decreases |s|
  {
    if s[|s| - 1] == '=' { StripKeeps(s[..|s| - 1], i); }
  }

  // -------------------------------------------------------- proof header

  function EncodeJsonHeader<V>(value: V, dumps: V -> string): (r: string) {
    StripPadding(EncodeBase64(EncodeUtf8(dumps(value))))
  }

  function DecodeJsonHeader<V>(header: string, loads: string -> Option<V>): (r: Option<V>) {
    DecodeEncoded(header, loads)
  }

  /** A header decodes to the mapping it was encoded from. */
  lemma HeaderRoundTrip<V>(value: V, dumps: V -> string, loads: string -> Option<V>)
    requires loads(dumps(value)) == Some(value)
    ensures DecodeJsonHeader(EncodeJsonHeader(value, dumps), loads) == Some(value)
  {
    hide DecodeEncoded;
    DecodeEncodedOf(dumps(value), loads);
  }
}
