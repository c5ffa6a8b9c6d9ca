/**
 * Python's ordering of strings (code point by code point, a proper prefix
 * first) and of relative paths (`pathlib` compares the lists of path
 * components), and `sorted` on a list of paths.
 */
module PathOrder {

  type Path = seq<string>

  /** `a < b` on Python strings */
  predicate StrLess(a: string, b: string)
    decreases |a|
  {
    if a == [] then b != []
    else if b == [] then false
    else if a[0] != b[0] then a[0] < b[0]
    else StrLess(a[1..], b[1..])
  }

  lemma {:induction false} StrLessIrreflexive(a: string)
    ensures !StrLess(a, a)
    decreases |a|
  {
    if a != [] {
      StrLessIrreflexive(a[1..]);
    }
  }

  lemma {:induction false} StrLessTransitive(a: string, b: string, c: string)
    requires StrLess(a, b) && StrLess(b, c)
    ensures StrLess(a, c)
    decreases |a|
  {
    if a != [] && a[0] == b[0] && b[0] == c[0] {
      StrLessTransitive(a[1..], b[1..], c[1..]);
    }
  }

  lemma {:induction false} StrLessTotal(a: string, b: string)
    requires a != b
    ensures StrLess(a, b) || StrLess(b, a)
    decreases |a|
  {
    if a != [] && b != [] && a[0] == b[0] {
      assert a == [a[0]] + a[1..] && b == [b[0]] + b[1..];
      StrLessTotal(a[1..], b[1..]);
    }
  }

  /** `p < q` on paths: the first differing component decides; a proper prefix comes first. */
  predicate PathLess(p: Path, q: Path)
    decreases |p|
  {
    if p == [] then q != []
    else if q == [] then false
    else if p[0] != q[0] then StrLess(p[0], q[0])
    else PathLess(p[1..], q[1..])
  }

  predicate PathLessEq(p: Path, q: Path) {
    p == q || PathLess(p, q)
  }

  lemma {:induction false} PathLessTransitive(p: Path, q: Path, r: Path)
    requires PathLess(p, q) && PathLess(q, r)
    ensures PathLess(p, r)
    decreases |p|
  {
    if p != [] && q != [] && r != [] {
      if p[0] == q[0] && q[0] == r[0] {
        PathLessTransitive(p[1..], q[1..], r[1..]);
      } else if p[0] != q[0] && q[0] != r[0] {
        StrLessTransitive(p[0], q[0], r[0]);
        if p[0] == r[0] {
          StrLessIrreflexive(p[0]);
        }
      } else if p[0] == q[0] {
        assert q[0] != r[0];
      }
    }
  }

  lemma {:induction false} PathLessTotal(p: Path, q: Path)
    requires p != q
    ensures PathLess(p, q) || PathLess(q, p)
    decreases |p|
  {
    if p != [] && q != [] {
      if p[0] == q[0] {
        assert p == [p[0]] + p[1..] && q == [q[0]] + q[1..];
        PathLessTotal(p[1..], q[1..]);
      } else {
        StrLessTotal(p[0], q[0]);
      }
    }
  }

  lemma PathLessEqTransitive(p: Path, q: Path, r: Path)
    requires PathLessEq(p, q) && PathLessEq(q, r)
    ensures PathLessEq(p, r)
  {
    if p != q && q != r {
      PathLessTransitive(p, q, r);
    }
  }

  predicate Sorted(s: seq<Path>) {
    forall i, j :: 0 <= i < j < |s| ==> PathLessEq(s[i], s[j])
  }

  /** An element no greater than the head of a sorted list is no greater than any of it. */
  lemma BelowHead(x: Path, s: seq<Path>)
    requires Sorted(s) && s != [] && PathLessEq(x, s[0])
    ensures forall j :: 0 <= j < |s| ==> PathLessEq(x, s[j])
  {
    forall j | 0 < j < |s| ensures PathLessEq(x, s[j]) {
      PathLessEqTransitive(x, s[0], s[j]);
    }
  }

  /** The head of a sorted list is no greater than anything made of its tail and a larger element. */
  lemma HeadBelowAll(h: Path, x: Path, tail: seq<Path>, rest: seq<Path>)
    requires PathLessEq(h, x)
    requires forall j :: 0 <= j < |tail| ==> PathLessEq(h, tail[j])
    requires multiset(rest) == multiset(tail) + multiset{x}
    ensures forall k :: 0 <= k < |rest| ==> PathLessEq(h, rest[k])
  {
    forall k | 0 <= k < |rest| ensures PathLessEq(h, rest[k]) {
      assert rest[k] in multiset(rest);
      if rest[k] != x {
        assert rest[k] in multiset(tail);
        var j :| 0 <= j < |tail| && tail[j] == rest[k];
      }
    }
  }

  /** `x` placed before the first element it does not exceed. */
  function Insert(x: Path, s: seq<Path>): (r: seq<Path>)
    requires Sorted(s)
    ensures Sorted(r)
    ensures multiset(r) == multiset(s) + multiset{x}
    ensures |r| == |s| + 1
  {
    if s == [] then [x]
    else if PathLessEq(x, s[0]) then
      BelowHead(x, s);
      [x] + s
    else
      var rest := Insert(x, s[1..]);
      PathLessTotal(x, s[0]);
      HeadBelowAll(s[0], x, s[1..], rest);
      assert s == [s[0]] + s[1..];
      [s[0]] + rest
  }

  /** `sorted(paths)`: the same paths, in increasing order. */
  function Sort(paths: seq<Path>): (r: seq<Path>)
    ensures Sorted(r)
    ensures multiset(r) == multiset(paths)
    ensures |r| == |paths|
  {
    if paths == [] then []
    else
      assert paths == paths[..|paths| - 1] + [paths[|paths| - 1]];
      Insert(paths[|paths| - 1], Sort(paths[..|paths| - 1]))
  }
}
