/** Code-point order on strings, and the one ascending listing of a set of strings. */
module Ordering {

  predicate Less(a: string, b: string) {
    b != [] && (a == [] || a[0] < b[0] || (a[0] == b[0] && Less(a[1..], b[1..])))
  }

  lemma {:induction false} LessTotal(a: string, b: string)
    ensures Less(a, b) || a == b || Less(b, a)
    ensures !(Less(a, b) && Less(b, a)) && !Less(a, a)
  {
    if a != [] && b != [] {
      LessTotal(a[1..], b[1..]);
      LessTotal(a[1..], a[1..]);
      assert a == [a[0]] + a[1..] && b == [b[0]] + b[1..];
    } else if a != [] {
      LessTotal(a[1..], a[1..]);
    }
  }

  lemma {:induction false} LessTransitive(a: string, b: string, c: string)
    requires Less(a, b) && Less(b, c)
    ensures Less(a, c)
  {
    if a != [] && a[0] == b[0] && b[0] == c[0] { LessTransitive(a[1..], b[1..], c[1..]); }
  }

  ghost predicate Ascending(s: seq<string>) {
    forall i, j :: 0 <= i < j < |s| ==> Less(s[i], s[j])
  }

  /** Where `x` belongs in an ascending listing; a duplicate is dropped. */
  function Insert(x: string, s: seq<string>): (r: seq<string>) {
    if s == [] || Less(x, s[0]) then [x] + s
    else if x == s[0] then s
    else [s[0]] + Insert(x, s[1..])
  }

  lemma {:induction false} InsertKeepsOrder(x: string, s: seq<string>)
    requires Ascending(s)
    ensures Ascending(Insert(x, s))
    ensures forall y :: y in Insert(x, s) <==> y == x || y in s
  {
    if s == [] {
    } else if Less(x, s[0]) {
      forall j | 1 <= j < |s| ensures Less(x, s[j]) { LessTransitive(x, s[0], s[j]); }
    } else if x != s[0] {
      LessTotal(x, s[0]);
      InsertKeepsOrder(x, s[1..]);
      var t := Insert(x, s[1..]);
      forall j | 0 <= j < |t| ensures Less(s[0], t[j]) { assert t[j] in t; }
    }
  }

  /** An ascending listing is determined by its elements. */
  lemma {:induction false} AscendingUnique(a: seq<string>, b: seq<string>)
    requires Ascending(a) && Ascending(b)
    requires forall x :: x in a <==> x in b
    ensures a == b
  {
    assert forall i :: 0 <= i < |b| ==> b[i] in b;
    assert b != [] ==> b[0] in a;
    if a != [] {
      assert a[0] in a && a[0] in b;
      assert b[0] in b && b[0] in a;
      LessTotal(a[0], b[0]);
      assert a[0] == b[0];
      forall x ensures x in a[1..] <==> x in b[1..] {
        InTail(a, x);
        InTail(b, x);
      }
      AscendingUnique(a[1..], b[1..]);
    }
  }

  lemma InTail(s: seq<string>, x: string)
    requires Ascending(s) && s != []
    ensures x in s[1..] <==> x in s && x != s[0]
  {
    LessTotal(s[0], s[0]);
  }

  /** The ascending listing of a set. */
  ghost function Listing(s: set<string>): (r: seq<string>)
    ensures Ascending(r)
    ensures forall x :: x in r <==> x in s
  {
    if s == {} then []
    else
      var x :| x in s;
      InsertKeepsOrder(x, Listing(s - {x}));
      Insert(x, Listing(s - {x}))
  }

  lemma {:induction false} InsertGrows(x: string, s: seq<string>)
    requires x !in s
    ensures |Insert(x, s)| == |s| + 1
  {
    if s != [] && !Less(x, s[0]) {
      InsertGrows(x, s[1..]);
    }
  }

  /** Sorts a set into its ascending listing. */
  method Sorted(s: set<string>) returns (r: seq<string>)
    ensures Ascending(r) && |r| == |s|
    ensures forall x :: x in r <==> x in s
  {
    hide Ascending, Insert;
    r := [];
    var left := s;
    AscendingUpTo([]);
    while left != {}
      invariant left <= s && Ascending(r)
      invariant |r| + |left| == |s|
      invariant forall x :: x in r <==> x in s && x !in left
      decreases left
    {
      var x :| x in left;
      InsertKeepsOrder(x, r);
      InsertGrows(x, r);
      r := Insert(x, r);
      left := left - {x};
    }
  }

  lemma AscendingUpTo(s: seq<string>)
    requires |s| <= 1
    ensures Ascending(s)
  {
  }

  lemma {:induction false} ListingSize(s: set<string>)
    ensures |Listing(s)| == |s|
  {
    hide Ascending, Insert;
    if s != {} {
      var x :| x in s;
      ListingSize(s - {x});
      InsertKeepsOrder(x, Listing(s - {x}));
      InsertGrows(x, Listing(s - {x}));
      AscendingUnique(Insert(x, Listing(s - {x})), Listing(s));
      assert s == (s - {x}) + {x};
    }
  }
}
