/** Values as the program holds them, before they are written as JSON: some have no canonical
    form, and tuples are written as lists (actenon/proof/canonical.py). */
module PythonValues {
  import opened Wrappers
  import opened CanonicalJson

  /** `PyOther` is what the canonical form refuses besides floats: a string with a lone
      surrogate, a dictionary with keys that are not strings, an object of another type. */
  datatype Py =
    | PyNone
    | PyBool(flag: bool)
    | PyInt(num: int)
    | PyFloat(value: real)
    | PyStr(text: string)
    | PyList(items: seq<Py>)
    | PyTuple(items: seq<Py>)
    | PyDict(fields: map<string, Py>)
    | PyOther(what: string)

  type PyMap = map<string, Py>

  // ------------------------------------------------------- writing and reading

  /** What is written for a value; None where something in it has no canonical form. */
  function Canon(v: Py): (r: Option<Json>)
    decreases v
  {
    match v
    case PyNone => Some(Null)
    case PyBool(b) => Some(Bool(b))
    case PyInt(n) => Some(Int(n))
    case PyFloat(_) => None
    case PyOther(_) => None
    case PyStr(s) => Some(Str(s))
    case PyList(items) => if AllCanon(items) then Some(Arr(CanonItems(items))) else None
    case PyTuple(items) => if AllCanon(items) then Some(Arr(CanonItems(items))) else None
    case PyDict(m) =>
      if forall k :: k in m ==> Canon(m[k]).Some? then Some(Obj(map k | k in m :: Canon(m[k]).value)) else None
  }

  predicate AllCanon(items: seq<Py>)
    decreases items, 0
  {
    forall i :: 0 <= i < |items| ==> Canon(items[i]).Some?
  }

  function CanonItems(items: seq<Py>): (r: seq<Json>)
    requires AllCanon(items)
    decreases items, 1
  {
    seq(|items|, i requires 0 <= i < |items| => Canon(items[i]).value)
  }

  /** What is read back. */
  function Loaded(j: Json): (v: Py)
    decreases j
  {
    match j
    case Null => PyNone
    case Bool(b) => PyBool(b)
    case Int(n) => PyInt(n)
    case Str(s) => PyStr(s)
    case Arr(items) => PyList(seq(|items|, i requires 0 <= i < |items| => Loaded(items[i])))
    case Obj(m) => PyDict(map k | k in m :: Loaded(m[k]))
  }

  /** Nothing without a canonical form anywhere in it. */
  predicate Writable(v: Py)
    decreases v
  {
    match v
    case PyFloat(_) => false
    case PyOther(_) => false
    case PyList(items) => forall i :: 0 <= i < |items| ==> Writable(items[i])
    case PyTuple(items) => forall i :: 0 <= i < |items| ==> Writable(items[i])
    case PyDict(m) => forall k :: k in m ==> Writable(m[k])
    case _ => true
  }

  predicate TupleFree(v: Py)
    decreases v
  {
    match v
    case PyTuple(_) => false
    case PyList(items) => forall i :: 0 <= i < |items| ==> TupleFree(items[i])
    case PyDict(m) => forall k :: k in m ==> TupleFree(m[k])
    case _ => true
  }

  /** A value can be written exactly when there is no such thing anywhere in it. */
  lemma {:induction false} CanonIff(v: Py)
    ensures Canon(v).Some? <==> Writable(v)
    decreases v
  {
    match v
    case PyList(items) => forall i | 0 <= i < |items| { CanonIff(items[i]); }
    case PyTuple(items) => forall i | 0 <= i < |items| { CanonIff(items[i]); }
    case PyDict(m) => forall k | k in m { CanonIff(m[k]); }
    case _ =>
  }

  /** What was read is written as it was. */
  lemma {:induction false} LoadedCanon(j: Json)
    ensures Canon(Loaded(j)) == Some(j)
    decreases j
  {
    match j
    case Arr(items) =>
      forall i | 0 <= i < |items| { LoadedCanon(items[i]); }
      var kids := Loaded(j).items;
      assert forall i :: 0 <= i < |kids| ==> Canon(kids[i]) == Some(items[i]);
      assert CanonItems(kids) == items;
    case Obj(m) =>
      forall k | k in m { LoadedCanon(m[k]); }
      assert Canon(Loaded(j)).value.fields == m;
    case _ =>
  }

  // ---------------------------------------------------------------- equality

  /** Numbers compare by value: True is 1 and 1.0. */
  function Numbers(v: Py): (r: Py)
    decreases v
  {
    match v
    case PyBool(b) => PyFloat(if b then 1.0 else 0.0)
    case PyInt(n) => PyFloat(n as real)
    case PyList(items) => PyList(seq(|items|, i requires 0 <= i < |items| => Numbers(items[i])))
    case PyTuple(items) => PyTuple(seq(|items|, i requires 0 <= i < |items| => Numbers(items[i])))
    case PyDict(m) => PyDict(map k | k in m :: Numbers(m[k]))
    case _ => v
  }

  /** Python's == on such values. */
  predicate PyEqual(a: Py, b: Py) { Numbers(a) == Numbers(b) }

  /** The same on two values read from JSON. */
  predicate JsonEqual(a: Json, b: Json) { PyEqual(Loaded(a), Loaded(b)) }

  /** Objects are equal key by key. */
  lemma ObjEqualIff(x: map<string, Json>, y: map<string, Json>)
    ensures JsonEqual(Obj(x), Obj(y)) <==> x.Keys == y.Keys && forall k :: k in x && k in y ==> JsonEqual(x[k], y[k])
  {
    hide Numbers, Loaded;
    NumbersOf(x);
    NumbersOf(y);
    var a, b := map k | k in x :: Numbers(Loaded(x[k])), map k | k in y :: Numbers(Loaded(y[k]));
    assert a.Keys == x.Keys && b.Keys == y.Keys;
    if a == b {
      assert forall k :: k in x && k in y ==> a[k] == b[k];
    }
  }

  lemma NumbersOf(x: map<string, Json>)
    ensures Numbers(Loaded(Obj(x))) == PyDict(map k | k in x :: Numbers(Loaded(x[k])))
  {
  }

  lemma StrEqualIff(a: string, b: string)
    ensures JsonEqual(Str(a), Str(b)) <==> a == b
  {
  }

  lemma {:induction false} ReloadSame(v: Py)
    requires Canon(v).Some? && TupleFree(v)
    ensures Loaded(Canon(v).value) == v
    decreases v
  {
    match v
    case PyList(items) =>
      forall i | 0 <= i < |items| { ReloadSame(items[i]); }
      assert Loaded(Canon(v).value).items == items;
    case PyDict(m) =>
      forall k | k in m { ReloadSame(m[k]); }
      assert Loaded(Canon(v).value).fields == m;
    case _ =>
  }

  lemma {:induction false} ReloadDiffers(v: Py)
    requires Canon(v).Some? && PyEqual(Loaded(Canon(v).value), v)
    ensures TupleFree(v)
    decreases v
  {
    match v
    case PyList(items) =>
      var back := Loaded(Canon(v).value).items;
      forall i | 0 <= i < |items| ensures TupleFree(items[i]) {
        assert Numbers(PyList(back)).items[i] == Numbers(v).items[i];
        ReloadDiffers(items[i]);
      }
    case PyDict(m) =>
      var back := Loaded(Canon(v).value).fields;
      forall k | k in m ensures TupleFree(m[k]) {
        assert Numbers(PyDict(back)).fields[k] == Numbers(v).fields[k];
        ReloadDiffers(m[k]);
      }
    case _ =>
  }

  /** A value that can be written equals what is read back exactly when it has no tuple. */
  lemma ReloadIff(v: Py)
    requires Canon(v).Some?
    ensures PyEqual(Loaded(Canon(v).value), v) <==> TupleFree(v)
  {
    if TupleFree(v) {
      ReloadSame(v);
    }
    if PyEqual(Loaded(Canon(v).value), v) {
      ReloadDiffers(v);
    }
  }
}
