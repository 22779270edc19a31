/** Strict JSON intake (actenon/core/json.py): the duplicate-key hook, the iterative
    depth check, and the loader that applies both. */
module JsonIntake {
  import opened Wrappers

  /** A decoded value. A dict keeps its entries in insertion order; a parse tree is
      the same shape before the hook has seen it, so its keys may repeat. */
  datatype Value =
    | Scalar(token: string)
    | List(items: seq<Value>)
    | Dict(entries: seq<(string, Value)>)

  function Children(v: Value): (r: seq<Value>)
    ensures forall i :: 0 <= i < |r| ==> r[i] < v
  {
    match v
    case Scalar(_) => []
    case List(items) => items
    case Dict(entries) => seq(|entries|, i requires 0 <= i < |entries| => entries[i].1)
  }

  datatype Error = NotPositive | TooLarge | Malformed | DuplicateKey | TooDeep

  // ------------------------------------------------------ duplicate keys

  predicate DistinctKeys<V>(pairs: seq<(string, V)>) {
    forall i, j :: 0 <= i < j < |pairs| ==> pairs[i].0 != pairs[j].0
  }

  predicate HasKey<V>(payload: seq<(string, V)>, key: string) {
    exists i :: 0 <= i < |payload| && payload[i].0 == key
  }

  /** The dictionary after the pairs have been stored one by one; None at a repeated key. */
  function Stored<V>(payload: seq<(string, V)>, pairs: seq<(string, V)>): (r: Option<seq<(string, V)>>)
    decreases |pairs|
  {
    if pairs == [] then Some(payload)
    else if HasKey(payload, pairs[0].0) then None
    else Stored(payload + [pairs[0]], pairs[1..])
  }

  /** The object hook. */
  function Hook<V>(pairs: seq<(string, V)>): (r: Option<seq<(string, V)>>) { Stored([], pairs) }

  lemma {:induction false} StoredExact<V>(payload: seq<(string, V)>, pairs: seq<(string, V)>)
    requires DistinctKeys(payload)
    ensures Stored(payload, pairs) == if DistinctKeys(payload + pairs) then Some(payload + pairs) else None
    decreases |pairs|
  {
    if pairs == [] {
      assert payload + pairs == payload;
    } else {
      var all, longer := payload + pairs, payload + [pairs[0]];
      assert all[|payload|] == pairs[0];
      if HasKey(payload, pairs[0].0) {
        var i :| 0 <= i < |payload| && payload[i].0 == pairs[0].0;
        assert all[i].0 == all[|payload|].0;
      } else {
        StoredExact(longer, pairs[1..]);
        assert longer + pairs[1..] == all;
      }
    }
  }

  /** The hook keeps every pair in its place, or refuses, exactly when a key repeats. */
  lemma HookExact<V>(pairs: seq<(string, V)>)
    ensures Hook(pairs) == if DistinctKeys(pairs) then Some(pairs) else None
  {
    StoredExact([], pairs);
    assert [] + pairs == pairs;
  }

  /** The object hook: stores every pair, or stops at the first key that repeats. */
  method RejectDuplicateObjectPairs<V>(pairs: seq<(string, V)>) returns (r: Result<seq<(string, V)>, string>)
    ensures r.Success? <==> Hook(pairs).Some?
    ensures r.Success? ==> Some(r.value) == Hook(pairs) && r.value == pairs && DistinctKeys(pairs)
    ensures r.Failure? ==> exists j :: 0 <= j < |pairs| && pairs[j].0 == r.error
                             && DistinctKeys(pairs[..j]) && HasKey(pairs[..j], r.error)
  {
    var payload: seq<(string, V)> := [];
    assert pairs[0..] == pairs;
    for j := 0 to |pairs|
      invariant payload == pairs[..j] && DistinctKeys(payload)
      invariant Stored(payload, pairs[j..]) == Hook(pairs)
    {
      assert pairs[j..][1..] == pairs[j + 1..];
      if HasKey(payload, pairs[j].0) {
        return Failure(pairs[j].0);
      }
      payload := payload + [pairs[j]];
    }
    assert payload == pairs;
    return Success(payload);
  }

  function Keyed(entries: seq<(string, Value)>, kids: seq<Value>): (r: seq<(string, Value)>)
    requires |entries| == |kids|
  {
    seq(|entries|, i requires 0 <= i < |entries| => (entries[i].0, kids[i]))
  }

  /** What the decoder returns when every object goes through the hook, innermost first;
      None where the hook refuses one. */
  function Hooked(tree: Value): (r: Option<Value>)
    decreases tree, 1, 0
  {
    var kids := HookedFrom(tree, 0);
    if kids.None? then None
    else
      match tree
      case Scalar(_) => Some(tree)
      case List(_) => Some(List(kids.value))
      case Dict(entries) =>
        var stored := Hook(Keyed(entries, kids.value));
        if stored.None? then None else Some(Dict(stored.value))
  }

  /** The children from the `i`-th on, decoded. */
  function HookedFrom(tree: Value, i: nat): (r: Option<seq<Value>>)
    requires i <= |Children(tree)|
    ensures r.Some? ==> |r.value| == |Children(tree)| - i
    decreases tree, 0, |Children(tree)| - i
  {
    if i == |Children(tree)| then Some([])
    else
      var first := Hooked(Children(tree)[i]);
      if first.None? then None
      else
        var rest := HookedFrom(tree, i + 1);
        if rest.None? then None else Some([first.value] + rest.value)
  }

  lemma {:induction false} HookedFromExact(tree: Value, i: nat)
    requires i <= |Children(tree)|
    ensures HookedFrom(tree, i).Some? <==> forall j :: i <= j < |Children(tree)| ==> Hooked(Children(tree)[j]).Some?
    ensures HookedFrom(tree, i).Some? ==> HookedFrom(tree, i).value == Children(tree)[i..]
    decreases tree, 0, |Children(tree)| - i
  {
    if i < |Children(tree)| {
      HookedUnchanged(Children(tree)[i]);
      HookedFromExact(tree, i + 1);
      assert Children(tree)[i..] == [Children(tree)[i]] + Children(tree)[i + 1..];
    }
  }

  /** No pair is lost: whatever comes out of the hooks is the tree that went in. */
  lemma {:induction false} HookedUnchanged(tree: Value)
    ensures Hooked(tree).Some? ==> Hooked(tree) == Some(tree)
    ensures Hooked(tree).Some? <==>
            && (forall i :: 0 <= i < |Children(tree)| ==> Hooked(Children(tree)[i]).Some?)
            && (tree.Dict? ==> DistinctKeys(tree.entries))
    decreases tree, 1, 0
  {
    hide Hook;
    HookedFromExact(tree, 0);
    var kids := Children(tree);
    assert kids[0..] == kids;
    if tree.Dict? {
      assert Keyed(tree.entries, kids) == tree.entries;
      HookExact(tree.entries);
    }
  }

  /** The decoder's calls of the hook: an object once its children are decoded. */
  method ApplyHook(tree: Value) returns (r: Option<Value>)
    ensures r == Hooked(tree)
    decreases tree, 1
  {
    hide Hook, HookedFrom;
    var kids := DecodeChildren(tree);
    if kids.None? {
      return None;
    }
    match tree
    case Scalar(_) => return Some(tree);
    case List(_) => return Some(List(kids.value));
    case Dict(entries) =>
      var stored := RejectDuplicateObjectPairs(Keyed(entries, kids.value));
      return if stored.Success? then Some(Dict(stored.value)) else None;
  }

  method DecodeChildren(tree: Value) returns (r: Option<seq<Value>>)
    ensures r == HookedFrom(tree, 0)
    decreases tree, 0
  {
    hide Hooked, HookedFrom, Children;
    HookedFromExact(tree, 0);
    var children := Children(tree);
    var kids: seq<Value> := [];
    for i := 0 to |children|
      invariant kids == children[..i]
      invariant forall j :: 0 <= j < i ==> Hooked(children[j]).Some?
    {
      var kid := ApplyHook(children[i]);
      HookedUnchanged(children[i]);
      if kid.None? {
        return None;
      }
      kids := kids + [kid.value];
    }
    assert kids == children && children[0..] == children;
    assert HookedFrom(tree, 0).Some?;
    return Some(kids);
  }

  /** `v` occurs somewhere in `tree`. */
  ghost predicate Within(v: Value, tree: Value)
    decreases tree
  {
    v == tree || exists i :: 0 <= i < |Children(tree)| && Within(v, Children(tree)[i])
  }

  /** Acceptance means that every object at every level had distinct keys, and then the
      tree is unchanged. */
  lemma {:induction false} HookedIff(tree: Value)
    ensures Hooked(tree).Some? <==> forall v :: Within(v, tree) && v.Dict? ==> DistinctKeys(v.entries)
    ensures Hooked(tree).Some? ==> Hooked(tree) == Some(tree)
    decreases tree
  {
    hide Hooked;
    HookedUnchanged(tree);
    var kids := Children(tree);
    forall i | 0 <= i < |kids|
      ensures Hooked(kids[i]).Some? <==> forall v :: Within(v, kids[i]) && v.Dict? ==> DistinctKeys(v.entries)
    {
      HookedIff(kids[i]);
    }
    hide DistinctKeys;
    if Hooked(tree).Some? {
      forall v | Within(v, tree) && v.Dict? ensures DistinctKeys(v.entries) {
        if v != tree {
          var i :| 0 <= i < |kids| && Within(v, kids[i]);
        }
      }
    } else if tree.Dict? && !DistinctKeys(tree.entries) {
      assert Within(tree, tree);
    } else {
      var i :| 0 <= i < |kids| && Hooked(kids[i]).None?;
      var v :| Within(v, kids[i]) && v.Dict? && !DistinctKeys(v.entries);
      assert Within(v, tree);
    }
  }

  // --------------------------------------------------------------- depth

  /** Nesting depth; a scalar has depth one. */
  function Depth(v: Value): (d: nat)
    ensures d >= 1
    decreases v, 1, 0
  {
    1 + MaxDepth(v, 0)
  }

  /** The greatest depth among the children from the `i`-th on. */
  function MaxDepth(v: Value, i: nat): (d: nat)
    requires i <= |Children(v)|
    decreases v, 0, |Children(v)| - i
  {
    if i == |Children(v)| then 0
    else
      var here, rest := Depth(Children(v)[i]), MaxDepth(v, i + 1);
      if here > rest then here else rest
  }

  function Size(v: Value): (n: nat)
    ensures n >= 1
    decreases v, 1, 0
  {
    1 + SumSize(v, 0)
  }

  function SumSize(v: Value, i: nat): (n: nat)
    requires i <= |Children(v)|
    decreases v, 0, |Children(v)| - i
  {
    if i == |Children(v)| then 0 else Size(Children(v)[i]) + SumSize(v, i + 1)
  }

  lemma {:induction false} MaxDepthIff(v: Value, i: nat, n: nat)
    requires i <= |Children(v)|
    ensures MaxDepth(v, i) > n <==> exists j :: i <= j < |Children(v)| && Depth(Children(v)[j]) > n
    decreases |Children(v)| - i
  {
    hide Depth;
    if i < |Children(v)| { MaxDepthIff(v, i + 1, n); }
  }

  function StackSize(stack: seq<(Value, int)>): (n: nat) {
    if stack == [] then 0 else StackSize(stack[..|stack| - 1]) + Size(stack[|stack| - 1].0)
  }

  /** Some pending item would take the nesting past the limit. */
  ghost predicate Exceeds(stack: seq<(Value, int)>, limit: int) {
    exists i :: 0 <= i < |stack| && stack[i].1 - 1 + Depth(stack[i].0) > limit
  }

  function Pending(items: seq<Value>, depth: int): (r: seq<(Value, int)>)
    ensures |r| == |items| && forall i :: 0 <= i < |items| ==> r[i] == (items[i], depth)
  {
    seq(|items|, i requires 0 <= i < |items| => (items[i], depth))
  }

  lemma {:induction false} StackSizeExtend(stack: seq<(Value, int)>, v: Value, i: nat, depth: int)
    requires i <= |Children(v)|
    ensures StackSize(stack + Pending(Children(v)[i..], depth)) == StackSize(stack) + SumSize(v, i)
    decreases |Children(v)| - i
  {
    hide Size;
    var kids := Children(v);
    if i == |kids| {
      assert stack + Pending(kids[i..], depth) == stack;
    } else {
      var s := stack + [(kids[i], depth)];
      assert s[..|s| - 1] == stack;
      assert stack + Pending(kids[i..], depth) == s + Pending(kids[i + 1..], depth);
      StackSizeExtend(s, v, i + 1, depth);
    }
  }

  /** The explicit-stack check raises exactly when the nesting depth exceeds the limit. */
  method ValidateJsonDepth(value: Value, maxDepth: int) returns (r: Result<(), Error>)
    ensures maxDepth <= 0 ==> r == Failure(NotPositive)
    ensures maxDepth > 0 ==> r == if Depth(value) > maxDepth then Failure(TooDeep) else Success(())
  {
    if maxDepth <= 0 {
      return Failure(NotPositive);
    }
    hide Depth, StackSize;
    var stack := [(value, 1)];
    assert stack[0].1 - 1 + Depth(stack[0].0) == Depth(value);
    while stack != []
      invariant Exceeds(stack, maxDepth) <==> Depth(value) > maxDepth
      decreases StackSize(stack)
    {
      var (item, depth) := stack[|stack| - 1];
      var rest := stack[..|stack| - 1];
      if depth > maxDepth {
        assert stack[|stack| - 1].1 - 1 + Depth(stack[|stack| - 1].0) > maxDepth;
        return Failure(TooDeep);
      }
      StackShrinks(stack, depth + 1);
      ExpandTop(stack, maxDepth);
      stack := rest + Pending(Children(item), depth + 1);
    }
    return Success(());
  }

  lemma StackShrinks(stack: seq<(Value, int)>, depth: int)
    requires stack != []
    ensures var n := |stack| - 1;
            StackSize(stack[..n] + Pending(Children(stack[n].0), depth)) < StackSize(stack)
  {
    var n := |stack| - 1;
    StackSizeExtend(stack[..n], stack[n].0, 0, depth);
    assert Children(stack[n].0)[0..] == Children(stack[n].0);
  }

  /** The item at the top, at its level, exceeds the limit exactly when a child does. */
  lemma TopIff(item: Value, depth: int, limit: int)
    requires depth <= limit
    ensures depth - 1 + Depth(item) > limit <==>
            exists i :: 0 <= i < |Children(item)| && depth + Depth(Children(item)[i]) > limit
  {
    DepthIff(item, limit - depth);
    hide Depth, Children;
    if i :| 0 <= i < |Children(item)| && Depth(Children(item)[i]) > limit - depth {
      assert depth + Depth(Children(item)[i]) > limit;
    }
  }

  /** Replacing the top item by its children keeps the verdict. */
  lemma {:induction false} ExpandTop(stack: seq<(Value, int)>, limit: int)
    requires stack != [] && stack[|stack| - 1].1 <= limit
    ensures var (item, depth) := stack[|stack| - 1];
            Exceeds(stack[..|stack| - 1] + Pending(Children(item), depth + 1), limit) <==> Exceeds(stack, limit)
  {
    hide Depth, Children;
    var n := |stack| - 1;
    var (item, depth) := stack[n];
    TopIff(item, depth, limit);
    ExceedsJoin(stack[..n], [stack[n]], limit);
    ExceedsJoin(stack[..n], Pending(Children(item), depth + 1), limit);
    assert stack == stack[..n] + [stack[n]];
    PendingExceeds(Children(item), depth, limit);
    OneExceeds(item, depth, limit);
  }

  lemma ExceedsJoin(a: seq<(Value, int)>, b: seq<(Value, int)>, limit: int)
    ensures Exceeds(a + b, limit) <==> Exceeds(a, limit) || Exceeds(b, limit)
  {
    hide Depth;
    if Exceeds(a, limit) {
      var i :| 0 <= i < |a| && a[i].1 - 1 + Depth(a[i].0) > limit;
      assert (a + b)[i] == a[i];
    }
    if Exceeds(b, limit) {
      var i :| 0 <= i < |b| && b[i].1 - 1 + Depth(b[i].0) > limit;
      assert (a + b)[|a| + i] == b[i];
    }
  }

  lemma OneExceeds(item: Value, depth: int, limit: int)
    ensures Exceeds([(item, depth)], limit) <==> depth - 1 + Depth(item) > limit
  {
    hide Depth;
    var one := [(item, depth)];
    assert one[0] == (item, depth);
  }

  lemma PendingExceeds(kids: seq<Value>, depth: int, limit: int)
    ensures Exceeds(Pending(kids, depth + 1), limit) <==> exists i :: 0 <= i < |kids| && depth + Depth(kids[i]) > limit
  {
    hide Depth;
    var p := Pending(kids, depth + 1);
    if i :| 0 <= i < |kids| && depth + Depth(kids[i]) > limit {
      assert p[i] == (kids[i], depth + 1);
    }
    if Exceeds(p, limit) {
      var i :| 0 <= i < |p| && p[i].1 - 1 + Depth(p[i].0) > limit;
      assert p[i] == (kids[i], depth + 1);
    }
  }

  lemma DepthIff(v: Value, n: int)
    requires n >= 0
    ensures Depth(v) - 1 > n <==> exists i :: 0 <= i < |Children(v)| && Depth(Children(v)[i]) > n
  {
    MaxDepthIff(v, 0, n);
  }

  // -------------------------------------------------------------- loader

  /** Every object at every level has distinct keys. */
  ghost predicate Sound(tree: Value) {
    forall v :: Within(v, tree) && v.Dict? ==> DistinctKeys(v.entries)
  }

  /** The input is within the limit and the grammar accepts it. */
  predicate Parsed(inputBytes: nat, tree: Option<Value>, maxBytes: int) {
    0 < maxBytes && inputBytes <= maxBytes && tree.Some?
  }

  /** `tree` is what the JSON grammar makes of the input, if it accepts it. */
  method LoadsNoDuplicateKeys(inputBytes: nat, tree: Option<Value>, maxBytes: int, maxDepth: int)
    returns (r: Result<Value, Error>)
    ensures r.Success? ==> tree.Some? && r.value == tree.value
    ensures r.Success? <==>
            Parsed(inputBytes, tree, maxBytes) && Sound(tree.value) && 0 < maxDepth && Depth(tree.value) <= maxDepth
    ensures r == Failure(NotPositive) <==>
            maxBytes <= 0 || (Parsed(inputBytes, tree, maxBytes) && Sound(tree.value) && maxDepth <= 0)
    ensures r == Failure(TooLarge) <==> 0 < maxBytes < inputBytes
    ensures r == Failure(Malformed) <==> 0 < maxBytes && inputBytes <= maxBytes && tree.None?
    ensures r == Failure(DuplicateKey) <==> Parsed(inputBytes, tree, maxBytes) && !Sound(tree.value)
    ensures r == Failure(TooDeep) <==>
              Parsed(inputBytes, tree, maxBytes) && Sound(tree.value) && 0 < maxDepth < Depth(tree.value)
  {
    if maxBytes <= 0 {
      return Failure(NotPositive);
    }
    if inputBytes > maxBytes {
      return Failure(TooLarge);
    }
    if tree.None? {
      return Failure(Malformed);
    }
    HookedIff(tree.value);
    var payload := ApplyHook(tree.value);
    if payload.None? {
      return Failure(DuplicateKey);
    }
    var depth := ValidateJsonDepth(payload.value, maxDepth);
    if depth.Failure? {
      return Failure(depth.error);
    }
    return Success(payload.value);
  }
}
