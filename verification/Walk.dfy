/**
  filepath.WalkDir over a tree: directories before their contents, the entries of
  one directory in byte order of their names, and whole subtrees left out when the
  callback says so.
 */
module Walk {

  import opened Paths
  import opened FileTree
  import opened Wrappers

  /** What a walk callback leaves out: the object and, for a directory, its contents. */
  type Skip = Path -> bool

  function Children(fs: Fs, p: Path): (names: set<Name>)
    ensures forall n :: n in names <==> p + [n] in fs
  {
    var names := set q | q in fs && |q| == |p| + 1 && q[..|p|] == p :: q[|p|];
    assert forall n :: n in names <==> p + [n] in fs by {
      forall n
        ensures n in names <==> p + [n] in fs
      {
        if p + [n] in fs { assert (p + [n])[|p|] == n; }
        if n in names {
          var q :| q in fs && |q| == |p| + 1 && q[..|p|] == p && q[|p|] == n;
          assert q == p + [n];
        }
      }
    }
    names
  }

  predicate IsLeast(s: set<Name>, x: Name) {
    x in s && forall y | y in s :: x == y || StrLess(x, y)
  }

  lemma {:induction false} LeastNameExists(s: set<Name>) returns (x: Name)
    requires s != {}
    ensures IsLeast(s, x)
    decreases |s|
  {
    var a :| a in s;
    x := a;
    if s - {a} != {} {
      var b := LeastNameExists(s - {a});
      StrLessTotal(a, b);
      if StrLess(b, a) {
        x := b;
      } else {
        forall y | y in s ensures a == y || StrLess(a, y) {
          if y != a && y != b { StrLessTransitive(a, b, y); }
        }
      }
    }
  }

  lemma LeastNameUnique(s: set<Name>, x: Name, y: Name)
    requires IsLeast(s, x) && IsLeast(s, y)
    ensures x == y
  {
    StrLessTotal(x, y);
  }

  /** The names of a directory in byte order. */
  function SortedNames(s: set<Name>): (names: seq<Name>)
    ensures forall n :: n in names <==> n in s
    ensures forall i, j | 0 <= i < j < |names| :: StrLess(names[i], names[j])
    decreases |s|
  {
    if s == {} then []
    else
      assert exists x :: IsLeast(s, x) by { var _ := LeastNameExists(s); }
      assert forall x, y | IsLeast(s, x) && IsLeast(s, y) :: x == y by {
        forall x, y | IsLeast(s, x) && IsLeast(s, y) ensures x == y { LeastNameUnique(s, x, y); }
      }
      var least :| least in s && IsLeast(s, least);
      [least] + SortedNames(s - {least})
  }

  function Below(fs: Fs, p: Path): set<Path> {
    set q | q in fs && p < q
  }

  lemma BelowShrinks(fs: Fs, p: Path, n: Name)
    requires p + [n] in fs
    ensures |Below(fs, p + [n])| < |Below(fs, p)|
  {
    var small, big := Below(fs, p + [n]), Below(fs, p);
    assert p + [n] in big && p + [n] !in small;
    forall q | q in small ensures q in big { assert p < p + [n]; }
    SubsetSize(small + {p + [n]}, big);
  }

  lemma {:induction false} SubsetSize<T>(a: set<T>, b: set<T>)
    requires a <= b
    ensures |a| <= |b|
  {
    if a != {} {
      var x :| x in a;
      SubsetSize(a - {x}, b - {x});
    }
  }

  /** The paths below directory `p` that a walk hands on, in the order it does. */
  function Visits(fs: Fs, skip: Skip, p: Path): seq<Path>
    decreases |Below(fs, p)|, 1, 0
  {
    VisitNames(fs, skip, p, SortedNames(Children(fs, p)))
  }

  function VisitNames(fs: Fs, skip: Skip, p: Path, names: seq<Name>): seq<Path>
    requires forall n | n in names :: p + [n] in fs
    decreases |Below(fs, p)|, 0, |names|
  {
    if names == [] then []
    else VisitChild(fs, skip, p, names[0]) + VisitNames(fs, skip, p, names[1..])
  }

  function VisitChild(fs: Fs, skip: Skip, p: Path, n: Name): seq<Path>
    requires p + [n] in fs
    decreases |Below(fs, p)|, 0, 0
  {
    BelowShrinks(fs, p, n);
    var q := p + [n];
    if skip(q) then []
    else if fs[q].Dir? then [q] + Visits(fs, skip, q)
    else [q]
  }

  // ----- which paths are visited -----

  /** Nothing from below `p` down to `q` is left out. */
  ghost predicate Reached(skip: Skip, p: Path, q: Path) {
    p <= q && forall k | |p| < k <= |q| :: !skip(q[..k])
  }

  lemma ReachedStep(skip: Skip, p: Path, q: Path)
    requires p < q
    ensures Reached(skip, p, q) <==> !skip(q[..|p| + 1]) && Reached(skip, q[..|p| + 1], q)
  {
  }

  lemma FirstStepBelow(p: Path, n: Name, q: Path)
    ensures p < q && q[|p|] == n <==> p + [n] <= q
    ensures p + [n] <= q ==> q[..|p| + 1] == p + [n]
  {
    if p < q && q[|p|] == n { assert q[..|p| + 1] == p + [n]; }
    if p + [n] <= q { assert q[..|p| + 1] == p + [n]; assert p == q[..|p|]; assert q[|p|] == (p + [n])[|p|]; }
  }

  lemma ChildOnTheWay(fs: Fs, q: Path, p: Path)
    requires IsTree(fs) && p in fs && q < p
    ensures p[|q|] in Children(fs, q)
  {
    FirstStepBelow(q, p[|q|], p);
    if p != q + [p[|q|]] { AncestorIsDir(fs, q + [p[|q|]], p); }
  }

  lemma {:induction false} VisitsMeaning(fs: Fs, skip: Skip, p: Path)
    requires IsTree(fs)
    ensures forall q :: q in Visits(fs, skip, p) <==> q in fs && p < q && Reached(skip, p, q)
    decreases |Below(fs, p)|, 1, 0
  {
    var names := SortedNames(Children(fs, p));
    VisitNamesMeaning(fs, skip, p, names);
    forall q | q in fs && p < q ensures q[|p|] in names {
      ChildOnTheWay(fs, p, q);
    }
  }

  lemma {:induction false} VisitNamesMeaning(fs: Fs, skip: Skip, p: Path, names: seq<Name>)
    requires IsTree(fs)
    requires forall n | n in names :: p + [n] in fs
    ensures forall q :: q in VisitNames(fs, skip, p, names) <==>
                        q in fs && p < q && q[|p|] in names && Reached(skip, p, q)
    decreases |Below(fs, p)|, 0, |names|
  {
    hide VisitChild;
    hide Reached;
    if names != [] {
      VisitNamesMeaning(fs, skip, p, names[1..]);
      VisitChildMeaning(fs, skip, p, names[0]);
      assert VisitNames(fs, skip, p, names) == VisitChild(fs, skip, p, names[0]) + VisitNames(fs, skip, p, names[1..]);
      assert forall n :: n in names <==> n == names[0] || n in names[1..];
    }
  }

  lemma {:induction false} VisitChildMeaning(fs: Fs, skip: Skip, p: Path, n: Name)
    requires IsTree(fs) && p + [n] in fs
    ensures forall q :: q in VisitChild(fs, skip, p, n) <==>
                        q in fs && p < q && q[|p|] == n && Reached(skip, p, q)
    decreases |Below(fs, p)|, 0, 0
  {
    BelowShrinks(fs, p, n);
    var c := p + [n];
    if fs[c].Dir? { VisitsMeaning(fs, skip, c); } else { NothingBelow(fs, c); }
    forall q
      ensures q in VisitChild(fs, skip, p, n) <==> q in fs && p < q && q[|p|] == n && Reached(skip, p, q)
    {
      FirstStepBelow(p, n, q);
      VisitChildOne(fs, skip, p, n, q);
    }
  }

  lemma VisitChildOne(fs: Fs, skip: Skip, p: Path, n: Name, q: Path)
    requires p + [n] in fs
    requires fs[p + [n]].Dir? ==>
               (q in Visits(fs, skip, p + [n]) <==> q in fs && p + [n] < q && Reached(skip, p + [n], q))
    requires !fs[p + [n]].Dir? && q in fs ==> !(p + [n] < q)
    ensures q in VisitChild(fs, skip, p, n) <==> q in fs && p + [n] <= q && Reached(skip, p, q)
  {
    var c := p + [n];
    FirstStepBelow(p, n, q);
    if c <= q { ReachedStep(skip, p, q); }
    assert Reached(skip, c, c);
    if skip(c) {
      assert VisitChild(fs, skip, p, n) == [];
    } else if fs[c].Dir? {
      assert q in VisitChild(fs, skip, p, n) <==> q == c || q in Visits(fs, skip, c);
    } else {
      assert VisitChild(fs, skip, p, n) == [c];
      assert c <= q && q in fs ==> q == c;
    }
  }

  // ----- in which order -----

  /** Each path comes once, and after its parent; `known` are the parents met before. */
  ghost predicate ParentsFirst(known: set<Path>, ps: seq<Path>)
    decreases |ps|
  {
    ps == [] ||
    (ps[0] != [] && ps[0] !in known && Parent(ps[0]) in known && ParentsFirst(known + {ps[0]}, ps[1..]))
  }

  function Elems(ps: seq<Path>): set<Path> {
    set q | q in ps
  }

  lemma {:induction false} ParentsFirstAppend(known: set<Path>, a: seq<Path>, b: seq<Path>)
    requires ParentsFirst(known, a) && ParentsFirst(known + Elems(a), b)
    ensures ParentsFirst(known, a + b)
    decreases |a|
  {
    if a == [] {
      assert a + b == b;
      assert known + Elems(a) == known;
    } else {
      assert known + {a[0]} + Elems(a[1..]) == known + Elems(a);
      ParentsFirstAppend(known + {a[0]}, a[1..], b);
      assert (a + b)[1..] == a[1..] + b;
    }
  }

  lemma {:induction false} VisitsParentsFirst(fs: Fs, skip: Skip, p: Path, known: set<Path>)
    requires IsTree(fs) && p in known
    requires forall q | q in known :: !(p < q)
    ensures ParentsFirst(known, Visits(fs, skip, p))
    decreases |Below(fs, p)|, 1, 0
  {
    VisitNamesParentsFirst(fs, skip, p, SortedNames(Children(fs, p)), known);
  }

  lemma {:induction false} VisitNamesParentsFirst(fs: Fs, skip: Skip, p: Path, names: seq<Name>, known: set<Path>)
    requires IsTree(fs) && p in known
    requires forall n | n in names :: p + [n] in fs
    requires forall i, j | 0 <= i < j < |names| :: StrLess(names[i], names[j])
    requires forall q | q in known && p < q :: q[|p|] !in names
    ensures ParentsFirst(known, VisitNames(fs, skip, p, names))
    decreases |Below(fs, p)|, 0, |names|
  {
    if names != [] {
      var n := names[0];
      var here := VisitChild(fs, skip, p, n);
      VisitChildParentsFirst(fs, skip, p, n, known);
      VisitChildMeaning(fs, skip, p, n);
      assert n !in names[1..] by { StrLessTotal(n, n); }
      VisitNamesParentsFirst(fs, skip, p, names[1..], known + Elems(here));
      ParentsFirstAppend(known, here, VisitNames(fs, skip, p, names[1..]));
    }
  }

  lemma {:induction false} VisitChildParentsFirst(fs: Fs, skip: Skip, p: Path, n: Name, known: set<Path>)
    requires IsTree(fs) && p in known && p + [n] in fs
    requires forall q | q in known && p < q :: q[|p|] != n
    ensures ParentsFirst(known, VisitChild(fs, skip, p, n))
    decreases |Below(fs, p)|, 0, 0
  {
    BelowShrinks(fs, p, n);
    var c := p + [n];
    assert Parent(c) == p;
    if !skip(c) && fs[c].Dir? {
      VisitsParentsFirst(fs, skip, c, known + {c});
      assert ([c] + Visits(fs, skip, c))[1..] == Visits(fs, skip, c);
    }
  }

  /** A walk comes to `a` before `b`: `a` is above `b`, or its name is smaller where their ways part. */
  ghost predicate Precedes(a: Path, b: Path) {
    a < b || exists k :: 0 <= k < |a| && k < |b| && a[..k] == b[..k] && StrLess(a[k], b[k])
  }

  ghost predicate WalkOrder(ps: seq<Path>) {
    forall i, j | 0 <= i < j < |ps| :: Precedes(ps[i], ps[j])
  }

  lemma WalkOrderAppend(a: seq<Path>, b: seq<Path>)
    requires WalkOrder(a) && WalkOrder(b) && forall x, y | x in a && y in b :: Precedes(x, y)
    ensures WalkOrder(a + b)
  {
    hide Precedes;
    var c := a + b;
    forall i, j | 0 <= i < j < |c| ensures Precedes(c[i], c[j]) {
      if i < |a| <= j { assert c[i] in a && c[j] in b; }
      else if |a| <= i { assert c[i] == b[i - |a|] && c[j] == b[j - |a|]; }
    }
  }

  /** Depth first, the entries of every directory in byte order of their names. */
  lemma {:induction false} VisitsInOrder(fs: Fs, skip: Skip, p: Path)
    requires IsTree(fs)
    ensures WalkOrder(Visits(fs, skip, p))
    decreases |Below(fs, p)|, 1, 0
  {
    VisitNamesInOrder(fs, skip, p, SortedNames(Children(fs, p)));
  }

  lemma {:induction false} VisitNamesInOrder(fs: Fs, skip: Skip, p: Path, names: seq<Name>)
    requires IsTree(fs) && (forall n | n in names :: p + [n] in fs)
    requires forall i, j | 0 <= i < j < |names| :: StrLess(names[i], names[j])
    ensures WalkOrder(VisitNames(fs, skip, p, names))
    decreases |Below(fs, p)|, 0, |names|
  {
    hide WalkOrder;
    hide VisitChild;
    hide Reached;
    if names == [] {
      NothingToOrder();
    } else {
      var n, rest := names[0], names[1..];
      VisitChildInOrder(fs, skip, p, n);
      VisitNamesInOrder(fs, skip, p, rest);
      VisitChildMeaning(fs, skip, p, n);
      VisitNamesMeaning(fs, skip, p, rest);
      forall x, y | x in VisitChild(fs, skip, p, n) && y in VisitNames(fs, skip, p, rest) ensures Precedes(x, y) {
        assert x[..|p|] == p == y[..|p|] && y[|p|] in rest;
      }
      WalkOrderAppend(VisitChild(fs, skip, p, n), VisitNames(fs, skip, p, rest));
    }
  }

  lemma NothingToOrder()
    ensures WalkOrder([])
  {
  }

  lemma {:induction false} VisitChildInOrder(fs: Fs, skip: Skip, p: Path, n: Name)
    requires IsTree(fs) && p + [n] in fs
    ensures WalkOrder(VisitChild(fs, skip, p, n))
    decreases |Below(fs, p)|, 0, 0
  {
    BelowShrinks(fs, p, n);
    var c := p + [n];
    if !skip(c) && fs[c].Dir? {
      VisitsInOrder(fs, skip, c);
      VisitsMeaning(fs, skip, c);
      WalkOrderAppend([c], Visits(fs, skip, c));
    }
  }
}
