/** De-duplication of scan findings (actenon/scanner.py). */
module FindingDedupe {
  import opened Wrappers
  import opened Ordering

  /** A finding; `runtime`, `priority` and `severity` are what the scanner's rules make
      of it. */
  datatype Finding = Finding(
    surfaceId: Option<string>, category: string, path: Option<string>, primitive: Option<string>,
    runtime: bool, priority: int, severity: int, confidence: string, line: Option<int>, detail: string)

  datatype Key = Key(surface: string, path: Option<string>, primitive: Option<string>)

  datatype Rank = Rank(runtime: int, priority: int, severity: int, confidence: int, path: string, line: int)

  function KeyOf(f: Finding): Key {
    Key(if f.surfaceId.Some? && f.surfaceId.value != "" then f.surfaceId.value else f.category, f.path, f.primitive)
  }

  function RankOf(f: Finding): Rank {
    Rank(if f.runtime then 1 else 0, f.priority, f.severity, if f.confidence == "high" then 1 else 0,
         if f.path.Some? then f.path.value else "", if f.line.Some? then f.line.value else 0)
  }

  // ------------------------------------------------------------------ ranks

  /** Lexicographic order. */
  predicate Below(a: Rank, b: Rank) {
    if a.runtime != b.runtime then a.runtime < b.runtime
    else if a.priority != b.priority then a.priority < b.priority
    else if a.severity != b.severity then a.severity < b.severity
    else if a.confidence != b.confidence then a.confidence < b.confidence
    else if a.path != b.path then Less(a.path, b.path)
    else a.line < b.line
  }

  predicate Lower(f: Finding, g: Finding) { Below(RankOf(f), RankOf(g)) }

  function OrElse<T>(x: Option<T>, d: T): T { match x case Some(v) => v case None => d }

  /** A finding is lower by the first thing in which the two differ: runtime surface, priority,
      severity, high confidence, path, line. */
  lemma LowerIff(f: Finding, g: Finding)
    ensures var p, q := OrElse(f.path, ""), OrElse(g.path, "");
            Lower(f, g) <==>
            || (g.runtime && !f.runtime)
            || (&& f.runtime == g.runtime
                && (|| f.priority < g.priority
                    || (f.priority == g.priority && f.severity < g.severity)
                    || (&& f.priority == g.priority && f.severity == g.severity
                        && (|| (g.confidence == "high" && f.confidence != "high")
                            || (&& (f.confidence == "high" <==> g.confidence == "high")
                                && (Less(p, q) || (p == q && OrElse(f.line, 0) < OrElse(g.line, 0))))))))
  {
    LessTotal(OrElse(f.path, ""), OrElse(g.path, ""));
  }

  /** Findings are of one key when path and primitive agree and so do the surfaces, a category
      standing in for a surface id that is missing or empty. */
  lemma SameKeyIff(f: Finding, g: Finding)
    ensures KeyOf(f) == KeyOf(g) <==>
            && f.path == g.path && f.primitive == g.primitive
            && (if f.surfaceId in {None, Some("")}
                then (if g.surfaceId in {None, Some("")} then f.category == g.category
                      else g.surfaceId == Some(f.category))
                else (if g.surfaceId in {None, Some("")} then f.surfaceId == Some(g.category)
                      else f.surfaceId == g.surfaceId))
  {
  }

  lemma BelowTotal(a: Rank, b: Rank)
    ensures Below(a, b) || a == b || Below(b, a)
    ensures !(Below(a, b) && Below(b, a))
  {
    LessTotal(a.path, b.path);
  }

  lemma BelowTransitive(a: Rank, b: Rank, c: Rank)
    requires Below(a, b) && Below(b, c)
    ensures Below(a, c)
  {
    if a.path != b.path && b.path != c.path && Less(a.path, b.path) && Less(b.path, c.path) {
      LessTransitive(a.path, b.path, c.path);
    }
    LessTotal(a.path, b.path);
    LessTotal(b.path, c.path);
    LessTotal(a.path, c.path);
  }

  /** Not lower is transitive too. */
  lemma NotLowerTransitive(f: Finding, g: Finding, k: Finding)
    requires !Lower(f, g) && !Lower(g, k)
    ensures !Lower(f, k)
  {
    hide Below, RankOf;
    BelowTotal(RankOf(f), RankOf(g));
    BelowTotal(RankOf(g), RankOf(k));
    if Lower(f, k) && Below(RankOf(g), RankOf(f)) {
      BelowTransitive(RankOf(g), RankOf(f), RankOf(k));
    }
  }

  // ---------------------------------------------------------- one per key

  /** The place of the finding with this key. */
  function Find(s: seq<Finding>, k: Key): (i: nat)
    ensures i <= |s| && (i < |s| ==> KeyOf(s[i]) == k)
    ensures forall j :: 0 <= j < i ==> KeyOf(s[j]) != k
  {
    if s == [] then 0 else if KeyOf(s[0]) == k then 0 else 1 + Find(s[1..], k)
  }

  /** Add a finding unless one of its key and at least its rank is there. */
  function Merge(s: seq<Finding>, f: Finding): (r: seq<Finding>) {
    var i := Find(s, KeyOf(f));
    if i == |s| then s + [f] else if Lower(s[i], f) then s[i := f] else s
  }

  /** The values of the dictionary after the loop, in the order of its keys. */
  function Collapse(s: seq<Finding>): (r: seq<Finding>) {
    if s == [] then [] else Merge(Collapse(s[..|s| - 1]), s[|s| - 1])
  }

  ghost predicate OnePerKey(s: seq<Finding>) {
    forall i, j :: 0 <= i < j < |s| ==> KeyOf(s[i]) != KeyOf(s[j])
  }

  /** `r` holds a finding of `f`'s key that is not lower. */
  ghost predicate Represented(r: seq<Finding>, f: Finding) {
    exists i :: 0 <= i < |r| && KeyOf(r[i]) == KeyOf(f) && !Lower(r[i], f)
  }

  lemma MergeKeeps(s: seq<Finding>, f: Finding, g: Finding)
    requires OnePerKey(s)
    ensures OnePerKey(Merge(s, f)) && Represented(Merge(s, f), f)
    ensures Represented(s, g) ==> Represented(Merge(s, f), g)
    ensures forall x :: x in Merge(s, f) ==> x in s || x == f
  {
    hide KeyOf, Lower;
    var i, r := Find(s, KeyOf(f)), Merge(s, f);
    NotLowerItself(f);
    if i < |s| {
      assert Represented(r, f) by { assert KeyOf(r[i]) == KeyOf(f) && !Lower(r[i], f); }
    } else {
      assert r[|s|] == f;
    }
    if Represented(s, g) {
      var j :| 0 <= j < |s| && KeyOf(s[j]) == KeyOf(g) && !Lower(s[j], g);
      if j == i && Lower(s[i], f) {
        LowerThenNot(s[i], f, g);
      }
      assert KeyOf(r[j]) == KeyOf(g) && !Lower(r[j], g);
    }
  }

  lemma NotLowerItself(f: Finding)
    ensures !Lower(f, f)
  {
    LessTotal(RankOf(f).path, RankOf(f).path);
  }

  lemma LowerThenNot(f: Finding, g: Finding, k: Finding)
    requires Lower(f, g) && !Lower(f, k)
    ensures !Lower(g, k)
  {
    hide Below, RankOf;
    BelowTotal(RankOf(f), RankOf(g));
    NotLowerTransitive(g, f, k);
  }

  lemma {:induction false} CollapseExact(s: seq<Finding>)
    ensures OnePerKey(Collapse(s))
    ensures forall i :: 0 <= i < |s| ==> Represented(Collapse(s), s[i])
    ensures forall x :: x in Collapse(s) ==> x in s
  {
    hide Merge, KeyOf, Lower, Represented, OnePerKey;
    if s == [] {
      NoneTwice();
    } else {
      var n := |s| - 1;
      CollapseExact(s[..n]);
      MergeKeeps(Collapse(s[..n]), s[n], s[n]);
      forall i | 0 <= i < |s| ensures Represented(Collapse(s), s[i]) {
        if i < n {
          assert s[i] == s[..n][i];
          MergeKeeps(Collapse(s[..n]), s[n], s[i]);
        }
      }
    }
  }

  /** `x` is the first of the highest findings of its key. */
  ghost predicate FirstBest(s: seq<Finding>, x: Finding) {
    && (forall k :: 0 <= k < |s| && KeyOf(s[k]) == KeyOf(x) ==> !Lower(x, s[k]))
    && (exists j :: 0 <= j < |s| && FirstAt(s, x, j))
  }

  ghost predicate FirstAt(s: seq<Finding>, x: Finding, j: nat)
    requires j < |s|
  {
    s[j] == x && forall k :: 0 <= k < j && KeyOf(s[k]) == KeyOf(x) ==> Lower(s[k], x)
  }

  lemma LowerByWay(f: Finding, g: Finding, k: Finding)
    requires !Lower(f, g) && Lower(f, k)
    ensures Lower(g, k)
  {
    hide Below, RankOf;
    BelowTotal(RankOf(f), RankOf(g));
    if Below(RankOf(g), RankOf(f)) {
      BelowTransitive(RankOf(g), RankOf(f), RankOf(k));
    }
  }

  /** A finding that stays was the first best before and is not beaten by the new one. */
  lemma StaysFirstBest(s: seq<Finding>, f: Finding, x: Finding)
    requires FirstBest(s, x) && (KeyOf(x) == KeyOf(f) ==> !Lower(x, f))
    ensures FirstBest(s + [f], x)
  {
    hide KeyOf, Lower;
    var j :| 0 <= j < |s| && FirstAt(s, x, j);
    assert FirstAt(s + [f], x, j);
  }

  /** A new finding that beats all earlier ones of its key is the first best. */
  lemma BecomesFirstBest(s: seq<Finding>, f: Finding)
    requires forall k :: 0 <= k < |s| && KeyOf(s[k]) == KeyOf(f) ==> Lower(s[k], f)
    ensures FirstBest(s + [f], f)
  {
    hide KeyOf, RankOf, Below;
    forall k | 0 <= k < |s| + 1 && KeyOf((s + [f])[k]) == KeyOf(f) ensures !Lower(f, (s + [f])[k]) {
      BelowTotal(RankOf((s + [f])[k]), RankOf(f));
      if k == |s| { NotLowerItself(f); }
    }
    assert FirstAt(s + [f], f, |s|);
  }

  lemma {:induction false} CollapseFirstBest(s: seq<Finding>)
    ensures forall x :: x in Collapse(s) ==> FirstBest(s, x)
  {
    hide KeyOf, Lower, FirstBest, Represented;
    if s != [] {
      var n := |s| - 1;
      var t, f := s[..n], s[n];
      var c, i := Collapse(t), Find(Collapse(t), KeyOf(f));
      CollapseFirstBest(t);
      CollapseExact(t);
      assert s == t + [f];
      forall x | x in Collapse(s) ensures FirstBest(s, x) {
        if x in c && (KeyOf(x) == KeyOf(f) ==> !Lower(x, f)) {
          StaysFirstBest(t, f, x);
        } else {
          MergeTakes(c, f, x);
          BeatsAll(t, f);
          BecomesFirstBest(t, f);
        }
      }
    }
  }

  lemma MergeTakes(c: seq<Finding>, f: Finding, x: Finding)
    requires OnePerKey(c) && x in Merge(c, f) && !(x in c && (KeyOf(x) == KeyOf(f) ==> !Lower(x, f)))
    ensures x == f && (Find(c, KeyOf(f)) == |c| || Lower(c[Find(c, KeyOf(f))], f))
  {
    hide KeyOf, Lower;
    NotLowerItself(f);
  }

  /** Whatever the dictionary's finding of the key loses to, all earlier ones lose to. */
  lemma BeatsAll(t: seq<Finding>, f: Finding)
    requires var c := Collapse(t); var i := Find(c, KeyOf(f)); i == |c| || Lower(c[i], f)
    ensures forall k :: 0 <= k < |t| && KeyOf(t[k]) == KeyOf(f) ==> Lower(t[k], f)
  {
    hide KeyOf, Lower, Merge;
    CollapseExact(t);
    var c := Collapse(t);
    forall k | 0 <= k < |t| && KeyOf(t[k]) == KeyOf(f) ensures Lower(t[k], f) {
      assert Represented(c, t[k]);
      var i :| 0 <= i < |c| && KeyOf(c[i]) == KeyOf(t[k]) && !Lower(c[i], t[k]);
      assert i == Find(c, KeyOf(f));
      LowerByWay(c[i], t[k], f);
    }
  }

  lemma NoneTwice()
    ensures OnePerKey([])
  {
  }

  // ---------------------------------------------------------------- sorting

  /** Stable insertion into a descending list: after everything not lower. */
  function InsertDown(f: Finding, s: seq<Finding>): (r: seq<Finding>) {
    if s == [] || !Lower(s[|s| - 1], f) then s + [f]
    else InsertDown(f, s[..|s| - 1]) + [s[|s| - 1]]
  }

  /** Stable sort, highest rank first. */
  function SortDown(s: seq<Finding>): (r: seq<Finding>) {
    if s == [] then [] else InsertDown(s[|s| - 1], SortDown(s[..|s| - 1]))
  }

  ghost predicate Descending(s: seq<Finding>) {
    forall i, j :: 0 <= i < j < |s| ==> !Lower(s[i], s[j])
  }

  lemma {:induction false} InsertDownExact(f: Finding, s: seq<Finding>)
    requires Descending(s)
    ensures Descending(InsertDown(f, s)) && multiset(InsertDown(f, s)) == multiset(s) + multiset{f}
  {
    hide Lower;
    var n, r := |s| - 1, InsertDown(f, s);
    if s != [] && Lower(s[n], f) {
      InsertDownExact(f, s[..n]);
      assert s == s[..n] + [s[n]];
      var front := InsertDown(f, s[..n]);
      LowerNotBack(s[n], f);
      forall i | 0 <= i < |front| ensures !Lower(front[i], s[n]) {
        assert front[i] in multiset(front);
        if front[i] != f {
          assert front[i] in multiset(s[..n]);
          assert front[i] in s[..n];
        }
      }
    } else {
      forall i | 0 <= i < |s| ensures !Lower(s[i], f) {
        if i < n { NotLowerTransitive(s[i], s[n], f); }
      }
    }
  }

  lemma LowerNotBack(f: Finding, g: Finding)
    requires Lower(f, g)
    ensures !Lower(g, f)
  {
    BelowTotal(RankOf(f), RankOf(g));
  }

  lemma {:induction false} SortDownExact(s: seq<Finding>)
    ensures Descending(SortDown(s)) && multiset(SortDown(s)) == multiset(s)
  {
    hide InsertDown;
    if s != [] {
      var n := |s| - 1;
      SortDownExact(s[..n]);
      InsertDownExact(s[n], SortDown(s[..n]));
      assert s == s[..n] + [s[n]];
    }
  }

  /** The findings of one rank. */
  function OfRank(s: seq<Finding>, r: Rank): seq<Finding> {
    if s == [] then [] else OfRank(s[..|s| - 1], r) + (if RankOf(s[|s| - 1]) == r then [s[|s| - 1]] else [])
  }

  lemma {:induction false} InsertDownStable(f: Finding, s: seq<Finding>, r: Rank)
    requires Descending(s)
    ensures OfRank(InsertDown(f, s), r) == OfRank(s, r) + if RankOf(f) == r then [f] else []
  {
    hide RankOf, Below;
    var n := |s| - 1;
    if s == [] || !Lower(s[n], f) {
      assert (s + [f])[..|s|] == s;
    } else {
      InsertDownStable(f, s[..n], r);
      var front := InsertDown(f, s[..n]);
      assert (front + [s[n]])[..|front|] == front;
      BelowTotal(RankOf(s[n]), RankOf(f));
    }
  }

  /** Findings of equal rank keep their order. */
  lemma {:induction false} SortDownStable(s: seq<Finding>, r: Rank)
    ensures OfRank(SortDown(s), r) == OfRank(s, r)
  {
    hide InsertDown, RankOf;
    if s != [] {
      var n := |s| - 1;
      SortDownStable(s[..n], r);
      SortDownExact(s[..n]);
      InsertDownStable(s[n], SortDown(s[..n]), r);
    }
  }

  lemma {:induction false} SortDownFixed(s: seq<Finding>)
    requires Descending(s)
    ensures SortDown(s) == s
  {
    hide Lower;
    if s != [] {
      var n := |s| - 1;
      SortDownFixed(s[..n]);
      assert s == s[..n] + [s[n]];
      assert n > 0 ==> !Lower(s[n - 1], s[n]);
    }
  }

  lemma {:induction false} CollapseFixed(s: seq<Finding>)
    requires OnePerKey(s)
    ensures Collapse(s) == s
  {
    hide KeyOf, Lower;
    if s != [] {
      var n := |s| - 1;
      CollapseFixed(s[..n]);
      assert s == s[..n] + [s[n]];
    }
  }

  // -------------------------------------------------------------- the whole

  function Dedupe(s: seq<Finding>): (r: seq<Finding>) { SortDown(Collapse(s)) }

  /** Exactly one finding for each key, the first of the highest of its key, in
      descending order. */
  lemma DedupeExact(s: seq<Finding>)
    ensures OnePerKey(Dedupe(s)) && Descending(Dedupe(s))
    ensures forall x :: x in Dedupe(s) ==> x in s && FirstBest(s, x)
    ensures forall i :: 0 <= i < |s| ==> Represented(Dedupe(s), s[i])
  {
    hide KeyOf, Lower, Collapse, SortDown, Represented, FirstBest;
    CollapseFirstBest(s);
    CollapseExact(s);
    SortDownExact(Collapse(s));
    SameBag(Collapse(s), Dedupe(s));
    forall i | 0 <= i < |s| ensures Represented(Dedupe(s), s[i]) {
      RepresentedInBag(Collapse(s), Dedupe(s), s[i]);
    }
  }

  lemma RepresentedInBag(a: seq<Finding>, b: seq<Finding>, f: Finding)
    requires multiset(a) == multiset(b) && Represented(a, f)
    ensures Represented(b, f)
  {
    hide KeyOf, Lower;
    var i :| 0 <= i < |a| && KeyOf(a[i]) == KeyOf(f) && !Lower(a[i], f);
    assert a[i] in multiset(a);
    assert a[i] in multiset(b);
    assert a[i] in b;
    var j :| 0 <= j < |b| && b[j] == a[i];
  }

  /** A rearrangement has the same elements, and one per key if the original has. */
  lemma {:induction false} SameBag(a: seq<Finding>, b: seq<Finding>)
    requires multiset(a) == multiset(b) && OnePerKey(a)
    ensures OnePerKey(b) && forall x :: x in b <==> x in a
  {
    hide KeyOf;
    forall x ensures x in b <==> x in a {
      assert x in multiset(a) <==> x in a;
      assert x in multiset(b) <==> x in b;
    }
    forall i, j | 0 <= i < j < |b| ensures KeyOf(b[i]) != KeyOf(b[j]) {
      if KeyOf(b[i]) == KeyOf(b[j]) {
        assert b[i] in a && b[j] in a;
        assert b[i] == b[j];
        TwiceInBag(b, i, j);
        OnceInBag(a, b[i]);
        assert false;
      }
    }
  }

  lemma TwiceInBag(s: seq<Finding>, i: nat, j: nat)
    requires i < j < |s| && s[i] == s[j]
    ensures multiset(s)[s[i]] >= 2
  {
    assert s == s[..j] + s[j..];
    assert s[..j][i] == s[i] && s[j..][0] == s[j];
    assert s[i] in multiset(s[..j]) && s[i] in multiset(s[j..]);
  }

  lemma {:induction false} OnceInBag(s: seq<Finding>, x: Finding)
    requires OnePerKey(s)
    ensures multiset(s)[x] <= 1
  {
    hide KeyOf;
    if s != [] {
      var n := |s| - 1;
      OnceInBag(s[..n], x);
      assert s == s[..n] + [s[n]];
      if s[n] == x {
        assert x !in s[..n];
        assert x !in multiset(s[..n]);
      }
    }
  }

  /** Deduplicating twice is deduplicating once. */
  lemma DedupeIdempotent(s: seq<Finding>)
    ensures Dedupe(Dedupe(s)) == Dedupe(s)
  {
    DedupeExact(s);
    CollapseFixed(Dedupe(s));
    SortDownFixed(Dedupe(s));
  }

  // ---------------------------------------------------------- imperative

  /** `at` is the dictionary: the place of each key among the values. */
  method DedupeFindings(findings: seq<Finding>) returns (r: seq<Finding>)
    ensures r == Dedupe(findings)
  {
    hide KeyOf, Lower, SortDown;
    var values: seq<Finding> := [];
    var at: map<Key, nat> := map[];
    for n := 0 to |findings|
      invariant values == Collapse(findings[..n])
      invariant forall k :: k in at ==> at[k] < |values| && KeyOf(values[at[k]]) == k
      invariant forall i :: 0 <= i < |values| ==> KeyOf(values[i]) in at && at[KeyOf(values[i])] == i
    {
      var f := findings[n];
      assert findings[..n + 1][..n] == findings[..n];
      var k := KeyOf(f);
      if k !in at {
        at := at[k := |values|];
        values := values + [f];
      } else if Lower(values[at[k]], f) {
        values := values[at[k] := f];
      }
    }
    assert findings[..|findings|] == findings;
    r := SortDown(values);
  }
}
