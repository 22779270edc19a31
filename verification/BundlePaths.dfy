/** Paths of an evidence bundle (actenon/local_runtime.py), resolved lexically. */
module BundlePaths {
  import opened Wrappers

  /** An absolute path, or one below a root, as its segments. */
  type Path = seq<string>

  type Bytes = string

  datatype FileSystem = FileSystem(files: map<Path, Bytes>, dirs: set<Path>)

  /** The parts between slashes. */
  function Split(s: string): (r: seq<string>)
    ensures |r| > 0
  {
    if s == [] then [[]]
    else if s[0] == '/' then [[]] + Split(s[1..])
    else
      var r := Split(s[1..]);
      [[s[0]] + r[0]] + r[1..]
  }

  function Enter(p: Path, segment: string): (r: Path) {
    if segment == "" || segment == "." then p
    else if segment == ".." then if p == [] then [] else p[..|p| - 1]
    else p + [segment]
  }

  function Walk(p: Path, segments: seq<string>): (r: Path)
    decreases |segments|
  {
    if segments == [] then p else Walk(Enter(p, segments[0]), segments[1..])
  }

  function Resolve(root: Path, relative: string): (r: Path) {
    Walk(if relative != [] && relative[0] == '/' then [] else root, Split(relative))
  }

  /** The path a manifest declares, or None if it is not below the root. */
  function Member(root: Path, relative: string): (r: Option<Path>)
    ensures r.Some? ==> root <= r.value
  {
    if '\0' in relative then None
    else
      var target := Resolve(root, relative);
      if root <= target then Some(target) else None
  }

  // ------------------------------------------------------------ posix form

  predicate CleanSegment(s: string) {
    s != "" && s != "." && s != ".." && '/' !in s && '\0' !in s
  }

  /** Segments that a slash-separated string can carry. */
  predicate Writable(p: Path) {
    forall i :: 0 <= i < |p| ==> p[i] != "" && '/' !in p[i] && '\0' !in p[i]
  }

  predicate Clean(p: Path) { forall i :: 0 <= i < |p| ==> CleanSegment(p[i]) }

  function Posix(p: Path): (r: string)
    requires p != []
  {
    if |p| == 1 then p[0] else p[0] + "/" + Posix(p[1..])
  }

  lemma {:induction false} SplitPlain(s: string, rest: string)
    requires '/' !in s
    ensures Split(s + "/" + rest) == [s] + Split(rest) && Split(s) == [s]
  {
    if s == [] {
      assert s + "/" + rest == "/" + rest && ("/" + rest)[1..] == rest;
    } else {
      var t := s + "/" + rest;
      assert t[0] == s[0] && t[1..] == s[1..] + "/" + rest;
      assert s == [s[0]] + s[1..];
      SplitPlain(s[1..], rest);
      assert [s[0]] + s[1..] == s;
    }
  }

  lemma {:induction false} SplitPosix(p: Path)
    requires p != [] && Writable(p)
    ensures Split(Posix(p)) == p
  {
    if |p| == 1 {
      SplitPlain(p[0], "");
    } else {
      SplitPosix(p[1..]);
      SplitPlain(p[0], Posix(p[1..]));
    }
  }

  lemma {:induction false} WalkClean(base: Path, p: Path)
    requires Clean(p)
    ensures Walk(base, p) == base + p
    decreases |p|
  {
    if p != [] {
      WalkClean(base + [p[0]], p[1..]);
      assert base + [p[0]] + p[1..] == base + p;
    } else {
      assert base + p == base;
    }
  }

  lemma {:induction false} PosixChars(p: Path)
    requires p != [] && Writable(p)
    ensures '\0' !in Posix(p) && Posix(p) != [] && Posix(p)[0] != '/'
  {
    assert p[0] != "" && p[0][0] in p[0];
    if |p| > 1 {
      PosixChars(p[1..]);
    }
  }

  /** A path written for the manifest resolves to the place it was written for. */
  lemma MemberOfPosix(root: Path, p: Path)
    requires p != [] && Clean(p)
    ensures Member(root, Posix(p)) == Some(root + p)
  {
    SplitPosix(p);
    PosixChars(p);
    WalkClean(root, p);
  }

  /** A path that goes down and then climbs further than it went down is refused. */
  lemma ClimbingOutRefused(root: Path, p: Path, up: nat)
    requires Clean(p) && up > |p| && root != []
    ensures Member(root, Posix(p + seq(up, _ => ".."))) == None
  {
    var ups := seq(up, _ => "..");
    SplitPosix(p + ups);
    PosixChars(p + ups);
    WalkAppend(root, p, ups);
    WalkClean(root, p);
    WalkUp(root + p, up);
  }

  lemma {:induction false} WalkAppend(base: Path, a: seq<string>, b: seq<string>)
    ensures Walk(base, a + b) == Walk(Walk(base, a), b)
    decreases |a|
  {
    if a == [] {
      assert a + b == b;
    } else {
      WalkAppend(Enter(base, a[0]), a[1..], b);
      assert (a + b)[1..] == a[1..] + b;
    }
  }

  lemma {:induction false} WalkUp(base: Path, up: nat)
    ensures Walk(base, seq(up, _ => "..")) == if up >= |base| then [] else base[..|base| - up]
  {
    if up > 0 {
      assert seq(up, _ => "..")[1..] == seq(up - 1, _ => "..");
      WalkUp(Enter(base, ".."), up - 1);
    }
  }

  /** An absolute path is taken as it is: it is a member exactly when it lies below the root. */
  lemma AbsoluteMember(root: Path, p: Path)
    requires p != [] && Clean(p)
    ensures Member(root, "/" + Posix(p)) == if root <= p then Some(p) else None
  {
    SplitPosix(p);
    PosixChars(p);
    SplitPlain("", Posix(p));
    assert "" + "/" + Posix(p) == "/" + Posix(p);
    WalkAppend([], [""], p);
    assert Walk([], [""]) == [] by { assert [""][1..] == []; }
    WalkClean([], p);
    assert [] + p == p && ("/" + Posix(p))[0] == '/';
  }

  /** Going into a directory and back, or staying where one is, changes nothing. */
  lemma DetourIgnored(root: Path, a: Path, name: string, b: Path)
    requires a + b != [] && Writable(a) && Writable(b) && CleanSegment(name)
    ensures Member(root, Posix(a + [name, ".."] + b)) == Member(root, Posix(a + b))
    ensures Member(root, Posix(a + ["."] + b)) == Member(root, Posix(a + b))
  {
    hide Posix, Split, Walk;
    PosixReads(root, a + b);
    PosixReads(root, a + [name, ".."] + b);
    PosixReads(root, a + ["."] + b);
    var base := Walk(root, a);
    WalkAppend(root, a, b);
    WalkAppend(root, a + [name, ".."], b);
    WalkAppend(root, a, [name, ".."]);
    WalkAppend(root, a + ["."], b);
    WalkAppend(root, a, ["."]);
    InAndOut(base, name);
  }

  lemma PosixReads(root: Path, p: Path)
    requires p != [] && Writable(p)
    ensures var target := Walk(root, p); Member(root, Posix(p)) == if root <= target then Some(target) else None
  {
    hide Walk;
    SplitPosix(p);
    PosixChars(p);
  }

  lemma InAndOut(base: Path, name: string)
    requires CleanSegment(name)
    ensures Walk(base, [name, ".."]) == base && Walk(base, ["."]) == base
  {
    assert [name, ".."][1..] == [".."] && [".."][1..] == [] && ["."][1..] == [];
    assert (base + [name])[..|base|] == base;
    assert Walk(base, [name, ".."]) == Walk(base + [name], [".."]);
    assert Walk(base + [name], [".."]) == Walk(base, []);
  }
}
