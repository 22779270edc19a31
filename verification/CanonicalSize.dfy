/** The size of canonical forms (actenon/proof/canonical.py), which both the digest and
    the loader limit to 1,048,576 bytes. */
module CanonicalSize {
  import opened Ordering
  import opened Codecs
  import opened CanonicalJson

  const MAX_BYTES: nat := 1_048_576

  function Bytes(s: string): (n: nat) { |EncodeUtf8(s)| }

  ghost function ByteLength(v: Json): (n: nat) { Bytes(Canonical(v)) }

  lemma BytesAppend(s: string, t: string)
    ensures Bytes(s + t) == Bytes(s) + Bytes(t)
  {
    EncodeUtf8Append(s, t);
  }

  lemma {:induction false} AsciiBytes(s: string)
    requires forall i :: 0 <= i < |s| ==> s[i] as int < 128
    ensures Bytes(s) == |s|
  {
    if s != [] {
      AsciiBytes(s[1..]);
    }
  }

  // ------------------------------------------------------------- strings

  lemma EscapeBytes(c: char)
    ensures 1 <= Bytes(EscapeChar(c)) <= 6
  {
    var e := EscapeChar(c);
    if e == [c] {
      assert EncodeUtf8(e) == EncodeChar(c) + EncodeUtf8([]);
    } else {
      EscapesAreAscii(c);
      AsciiBytes(e);
    }
  }

  lemma EscapesAreAscii(c: char)
    ensures EscapeChar(c) != [c] ==>
              |EscapeChar(c)| <= 6 && forall i :: 0 <= i < |EscapeChar(c)| ==> EscapeChar(c)[i] as int < 128
  {
    assert forall i :: 0 <= i < 16 ==> HEX[i] as int < 128;
  }

  lemma {:induction false} QuoteBytes(s: string)
    ensures |s| + 2 <= Bytes(Quote(s)) <= 6 * |s| + 2
  {
    QuoteIsEscape(s);
    EscapedBytes(s);
  }

  lemma QuoteIsEscape(s: string)
    ensures Bytes(Quote(s)) == Bytes(Escape(s)) + 2
  {
    BytesAppend("\"" + Escape(s), "\"");
    BytesAppend("\"", Escape(s));
    AsciiBytes("\"");
  }

  lemma {:induction false} EscapedBytes(s: string)
    ensures |s| <= Bytes(Escape(s)) <= 6 * |s|
  {
    hide EscapeChar, EncodeUtf8;
    if s == [] {
      AsciiBytes([]);
    } else {
      EscapeBytes(s[0]);
      EscapedBytes(s[1..]);
      BytesAppend(EscapeChar(s[0]), Escape(s[1..]));
    }
  }

  function Filler(n: nat): (s: string) { seq(n, _ => 'a') }

  lemma {:induction false} FillerBytes(n: nat)
    ensures Bytes(Quote(Filler(n))) == n + 2
  {
    QuoteIsEscape(Filler(n));
    FillerEscape(n);
    AsciiBytes(Filler(n));
  }

  lemma {:induction false} FillerEscape(n: nat)
    ensures Escape(Filler(n)) == Filler(n)
  {
    if n > 0 {
      assert Filler(n)[1..] == Filler(n - 1);
      FillerEscape(n - 1);
      assert Filler(n) == ['a'] + Filler(n - 1);
    }
  }

  // ------------------------------------------------------------- objects

  /** What a field adds to an object, apart from the comma. */
  ghost function Weight(m: map<string, Json>, k: string): nat
    requires k in m
  {
    Bytes(Quote(k)) + 1 + ByteLength(m[k])
  }

  ghost function Total(m: map<string, Json>, keys: seq<string>): nat
    requires forall k :: k in keys ==> k in m
  {
    if keys == [] then 0 else Weight(m, keys[0]) + Total(m, keys[1..])
  }

  lemma {:induction false} FieldsBytes(m: map<string, Json>, keys: seq<string>)
    requires forall k :: k in keys ==> k in m
    ensures Bytes(Fields(Obj(m), keys)) == Total(m, keys) + if keys == [] then 1 else |keys|
  {
    if keys == [] {
      AsciiBytes("}");
    } else {
      FieldsBytes(m, keys[1..]);
      hide EncodeUtf8, Quote;
      var v := Obj(m);
      var q, c, rest := Quote(keys[0]), Canonical(m[keys[0]]), Fields(v, keys[1..]);
      var comma := if |keys| == 1 then "" else ",";
      assert Fields(v, keys) == q + ":" + c + comma + rest;
      BytesAppend(q + ":" + c + comma, rest);
      BytesAppend(q + ":" + c, comma);
      BytesAppend(q + ":", c);
      BytesAppend(q, ":");
      AsciiBytes(":");
      AsciiBytes(comma);
    }
  }

  lemma ObjectBytes(m: map<string, Json>)
    ensures var keys := Listing(m.Keys);
            ByteLength(Obj(m)) == 1 + Total(m, keys) + if keys == [] then 1 else |keys|
  {
    hide EncodeUtf8, Fields;
    var keys := Listing(m.Keys);
    assert Canonical(Obj(m)) == "{" + Fields(Obj(m), keys);
    BytesAppend("{", Fields(Obj(m), keys));
    AsciiBytes("{");
    FieldsBytes(m, keys);
  }

  lemma {:induction false} TotalInsert(m: map<string, Json>, k: string, keys: seq<string>)
    requires k in m && k !in keys && forall a :: a in keys ==> a in m
    ensures (forall a :: a in Insert(k, keys) ==> a in m) && Total(m, Insert(k, keys)) == Total(m, keys) + Weight(m, k)
  {
    hide Weight, Less;
    if keys != [] && !Less(k, keys[0]) {
      TotalInsert(m, k, keys[1..]);
      var rest := Insert(k, keys[1..]);
      assert ([keys[0]] + rest)[1..] == rest;
    } else {
      assert ([k] + keys)[1..] == keys;
    }
  }

  lemma {:induction false} TotalSame(m: map<string, Json>, n: map<string, Json>, keys: seq<string>)
    requires forall a :: a in keys ==> a in m && a in n && m[a] == n[a]
    ensures Total(m, keys) == Total(n, keys)
  {
    if keys != [] {
      TotalSame(m, n, keys[1..]);
    }
  }

  lemma ListingInsert(s: set<string>, k: string)
    requires k !in s
    ensures Listing(s + {k}) == Insert(k, Listing(s))
  {
    InsertKeepsOrder(k, Listing(s));
    AscendingUnique(Listing(s + {k}), Insert(k, Listing(s)));
  }

  /** A new field adds its key, a colon, its value and, unless it is the first, a comma. */
  lemma AddField(m: map<string, Json>, k: string, v: Json)
    requires k !in m
    ensures ByteLength(Obj(m[k := v])) ==
            ByteLength(Obj(m)) + Bytes(Quote(k)) + 1 + ByteLength(v) + if m == map[] then 0 else 1
  {
    hide Bytes, Quote, Canonical, Insert;
    var n, keys := m[k := v], Listing(m.Keys);
    assert n.Keys == m.Keys + {k};
    ListingInsert(m.Keys, k);
    ObjectBytes(m);
    ObjectBytes(n);
    TotalInsert(n, k, keys);
    TotalSame(m, n, keys);
    InsertGrows(k, keys);
    assert keys == [] <==> m == map[] by {
      if keys != [] { assert keys[0] in m.Keys; }
      if m != map[] { var a :| a in m.Keys; assert a in keys; }
    }
  }

  /** An object is longer than each of its values. */
  lemma FieldIsShorter(m: map<string, Json>, k: string)
    requires k in m
    ensures ByteLength(m[k]) < ByteLength(Obj(m))
  {
    hide ByteLength;
    assert m == (m - {k})[k := m[k]];
    AddField(m - {k}, k, m[k]);
  }

  /** A string takes at least a byte for each of its characters. */
  lemma StringBytes(s: string)
    ensures |s| + 2 <= ByteLength(Str(s)) <= 6 * |s| + 2
  {
    QuoteBytes(s);
  }

  /** Setting a field, new or not, adds at most this much. */
  lemma PutBound(m: map<string, Json>, k: string, v: Json)
    ensures ByteLength(Obj(m[k := v])) <= ByteLength(Obj(m)) + 6 * |k| + 4 + ByteLength(v)
  {
    hide ByteLength;
    var rest := m - {k};
    assert m[k := v] == rest[k := v];
    AddField(rest, k, v);
    QuoteBytes(k);
    if k in m {
      assert m == rest[k := m[k]];
      AddField(rest, k, m[k]);
    } else {
      assert m == rest;
    }
  }

  lemma SmallBytes()
    ensures ByteLength(Obj(map[])) == 2 && ByteLength(Null) == 4 && ByteLength(Int(1)) == 1
  {
    ObjectBytes(map[]);
    AsciiBytes("null");
    AsciiBytes("1");
    assert IntText(1) == "1";
  }
}
