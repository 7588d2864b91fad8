/** The order in which netfin/internal/filesync/sync.go takes the recorded paths: shallow ones first, then by bytes. */
module RecordOrder {

  import opened Paths

  /** Component by component; it decides only between paths that render alike, which clean paths never do. */
  predicate NamesLess(a: Path, b: Path)
    requires |a| == |b|
  {
    a != [] && (StrLess(a[0], b[0]) || (a[0] == b[0] && NamesLess(a[1..], b[1..])))
  }

  /** The comparison of statePaths. */
  predicate PathLess(a: Path, b: Path) {
    || |a| < |b|
    || (|a| == |b| && a != [] &&
        (StrLess(Render(a), Render(b)) || (Render(a) == Render(b) && NamesLess(a, b))))
  }

  lemma {:induction false} NamesLessTotal(a: Path, b: Path)
    requires |a| == |b|
    ensures a == b || NamesLess(a, b) || NamesLess(b, a)
    ensures NamesLess(a, b) ==> !NamesLess(b, a) && a != b
  {
    if a != [] {
      StrLessTotal(a[0], b[0]);
      NamesLessTotal(a[1..], b[1..]);
      assert a == [a[0]] + a[1..] && b == [b[0]] + b[1..];
    }
  }

  lemma {:induction false} NamesLessTransitive(a: Path, b: Path, c: Path)
    requires |a| == |b| == |c| && NamesLess(a, b) && NamesLess(b, c)
    ensures NamesLess(a, c)
  {
    if StrLess(a[0], b[0]) && StrLess(b[0], c[0]) {
      StrLessTransitive(a[0], b[0], c[0]);
    } else if a[0] == b[0] && b[0] == c[0] {
      NamesLessTransitive(a[1..], b[1..], c[1..]);
    }
  }

  lemma PathLessTotal(a: Path, b: Path)
    ensures a == b || PathLess(a, b) || PathLess(b, a)
    ensures PathLess(a, b) ==> !PathLess(b, a) && a != b
  {
    if |a| == |b| && a != [] {
      StrLessTotal(Render(a), Render(b));
      NamesLessTotal(a, b);
    }
  }

  lemma PathLessTransitive(a: Path, b: Path, c: Path)
    requires PathLess(a, b) && PathLess(b, c)
    ensures PathLess(a, c)
  {
    if |a| == |b| == |c| {
      if StrLess(Render(a), Render(b)) && StrLess(Render(b), Render(c)) {
        StrLessTransitive(Render(a), Render(b), Render(c));
      } else if Render(a) == Render(b) && Render(b) == Render(c) {
        NamesLessTransitive(a, b, c);
      }
    }
  }

  ghost predicate InOrder(s: seq<Path>) {
    forall i, j | 0 <= i < j < |s| :: PathLess(s[i], s[j])
  }

  predicate IsFirst(s: set<Path>, x: Path) {
    x in s && forall y | y in s :: x == y || PathLess(x, y)
  }

  lemma {:induction false} FirstExists(s: set<Path>) returns (x: Path)
    requires s != {}
    ensures IsFirst(s, x)
    decreases |s|
  {
    var a :| a in s;
    x := a;
    if s - {a} == {} {
      forall y | y in s ensures y == a { assert y !in s - {a}; }
    } else {
      var b := FirstExists(s - {a});
      PathLessTotal(a, b);
      if PathLess(b, a) {
        x := b;
        forall y | y in s ensures b == y || PathLess(b, y) {
          if y != a { assert y in s - {a}; }
        }
      } else {
        forall y | y in s ensures a == y || PathLess(a, y) {
          if y != a { assert y in s - {a}; }
          if y != a && y != b { PathLessTransitive(a, b, y); }
        }
      }
    }
  }

  lemma FirstUnique(s: set<Path>, x: Path, y: Path)
    requires IsFirst(s, x) && IsFirst(s, y)
    ensures x == y
  {
    PathLessTotal(x, y);
  }

  /** statePaths: every path of a set once, in order. */
  function SortedPaths(s: set<Path>): (paths: seq<Path>)
    ensures forall p :: p in paths <==> p in s
    ensures InOrder(paths)
    decreases |s|
  {
    if s == {} then []
    else
      assert exists x :: IsFirst(s, x) by { var _ := FirstExists(s); }
      assert forall x, y | IsFirst(s, x) && IsFirst(s, y) :: x == y by {
        forall x, y | IsFirst(s, x) && IsFirst(s, y) ensures x == y { FirstUnique(s, x, y); }
      }
      var first :| first in s && IsFirst(s, first);
      [first] + SortedPaths(s - {first})
  }

  function InsertPath(p: Path, s: seq<Path>): (r: seq<Path>)
    ensures forall q :: q in r <==> q == p || q in s
  {
    if s == [] || PathLess(p, s[0]) then [p] + s else [s[0]] + InsertPath(p, s[1..])
  }

  lemma {:induction false} InsertInOrder(p: Path, s: seq<Path>)
    requires InOrder(s) && p !in s
    ensures InOrder(InsertPath(p, s))
  {
    hide PathLess;
    if s == [] {
    } else if PathLess(p, s[0]) {
      forall j | 0 <= j < |s| ensures PathLess(p, s[j]) {
        if j > 0 { PathLessTransitive(p, s[0], s[j]); }
      }
    } else {
      PathLessTotal(p, s[0]);
      InsertInOrder(p, s[1..]);
      var r := InsertPath(p, s[1..]);
      forall j | 0 <= j < |r| ensures PathLess(s[0], r[j]) {
        assert r[j] in r;
      }
    }
  }

  lemma {:induction false} OrderUnique(a: seq<Path>, b: seq<Path>)
    requires InOrder(a) && InOrder(b) && forall p :: p in a <==> p in b
    ensures a == b
  {
    hide PathLess;
    if a != [] { assert a[0] in b; }
    if b != [] { assert b[0] in a; }
    if a != [] {
      FirstsAgree(a, b);
      forall p ensures p in a[1..] <==> p in b[1..] {
        RestWithoutFirst(a, p);
        RestWithoutFirst(b, p);
      }
      OrderUnique(a[1..], b[1..]);
      assert a == [a[0]] + a[1..] && b == [b[0]] + b[1..];
    }
  }

  lemma FirstsAgree(a: seq<Path>, b: seq<Path>)
    requires a != [] && b != [] && InOrder(a) && InOrder(b) && forall p :: p in a <==> p in b
    ensures a[0] == b[0]
  {
    hide PathLess;
    assert a[0] in b && b[0] in a;
    var i :| 0 <= i < |b| && b[i] == a[0];
    var j :| 0 <= j < |a| && a[j] == b[0];
    assert i > 0 ==> PathLess(b[0], a[0]);
    assert j > 0 ==> PathLess(a[0], b[0]);
    PathLessTotal(a[0], b[0]);
  }

  lemma RestWithoutFirst(a: seq<Path>, p: Path)
    requires a != [] && InOrder(a)
    ensures p in a[1..] <==> p in a && p != a[0]
  {
    hide PathLess;
    if p in a[1..] {
      var i :| 0 <= i < |a[1..]| && a[1..][i] == p;
      assert PathLess(a[0], a[i + 1]);
      PathLessTotal(a[0], a[i + 1]);
    }
  }

  lemma NothingToSort()
    ensures SortedPaths({}) == []
  {
  }

  /** Inserting one path after the other sorts. */
  lemma InsertSorts(s: set<Path>, p: Path)
    requires p !in s
    ensures InsertPath(p, SortedPaths(s)) == SortedPaths(s + {p})
  {
    InsertInOrder(p, SortedPaths(s));
    OrderUnique(InsertPath(p, SortedPaths(s)), SortedPaths(s + {p}));
  }

  /** A path comes before the deeper ones, so before all below it, and among paths of one depth by bytes. */
  lemma OrderMeaning(s: set<Path>, i: nat, j: nat)
    requires i < j < |SortedPaths(s)|
    ensures var a, b := SortedPaths(s)[i], SortedPaths(s)[j];
            && !(b <= a) && |a| <= |b|
            && (|a| == |b| && ValidPath(a) && ValidPath(b) ==> StrLess(Render(a), Render(b)))
  {
    var a, b := SortedPaths(s)[i], SortedPaths(s)[j];
    assert PathLess(a, b);
    PathLessTotal(a, b);
    if |a| == |b| && ValidPath(a) && ValidPath(b) && Render(a) == Render(b) { RenderInjective(a, b); }
  }
}
