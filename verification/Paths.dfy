/**
  Cleaned relative paths of the netfin mirror, as sequences of components, and
  the way the program sees them: as slash-separated strings compared byte by byte.
 */
module Paths {

  type Name = string
  type Path = seq<Name>

  /** A component of a cleaned relative path. */
  predicate ValidName(n: Name) {
    n != "" && n != "." && n != ".." && '/' !in n
  }

  predicate ValidPath(p: Path) {
    p != [] && forall i | 0 <= i < |p| :: ValidName(p[i])
  }

  function Parent(p: Path): Path
    requires p != []
  {
    p[..|p| - 1]
  }

  /** `q` is `p` itself or lies below it. */
  predicate Under(p: Path, q: Path) {
    p <= q
  }

  /** The two paths lie on different branches: neither is an ancestor of the other. */
  predicate Unrelated(p: Path, q: Path) {
    !Under(p, q) && !Under(q, p)
  }

  lemma UnderParent(p: Path, q: Path)
    requires q != []
    ensures Under(p, q) <==> p == q || Under(p, Parent(q))
  {
  }

  // ----- paths as strings -----

  function Render(p: Path): string
    requires p != []
  {
    if |p| == 1 then p[0] else p[0] + "/" + Render(p[1..])
  }

  /** hasPathPrefix */
  predicate HasPathPrefix(path: string, prefix: string) {
    |path| >= |prefix| && path[..|prefix|] == prefix
  }

  /** The test `rel == root || hasPathPrefix(rel, root + "/")` used throughout. */
  predicate StringUnder(root: string, rel: string) {
    rel == root || HasPathPrefix(rel, root + "/")
  }

  /** Byte order of strings. */
  predicate StrLess(a: string, b: string) {
    b != [] && (a == [] || a[0] < b[0] || (a[0] == b[0] && StrLess(a[1..], b[1..])))
  }

  lemma {:induction false} StrLessTotal(a: string, b: string)
    ensures StrLess(a, b) || a == b || StrLess(b, a)
    ensures !(StrLess(a, b) && StrLess(b, a))
    ensures !StrLess(a, a)
  {
    if a != [] {
      StrLessTotal(a[1..], a[1..]);
    }
    if a != [] && b != [] && a[0] == b[0] {
      StrLessTotal(a[1..], b[1..]);
      if a[1..] == b[1..] {
        assert a == [a[0]] + a[1..] == b;
      }
    }
  }

  lemma {:induction false} StrLessTransitive(a: string, b: string, c: string)
    requires StrLess(a, b) && StrLess(b, c)
    ensures StrLess(a, c)
  {
    if a != [] && a[0] == b[0] == c[0] {
      StrLessTransitive(a[1..], b[1..], c[1..]);
    }
  }

  /** Strings are told apart by the first character in which they differ; a proper prefix comes first. */
  lemma {:induction false} StrLessExactly(a: string, b: string)
    ensures StrLess(a, b) <==> a < b || exists k :: 0 <= k < |a| && k < |b| && a[..k] == b[..k] && a[k] < b[k]
  {
    if a != [] && b != [] && a[0] == b[0] {
      var s, t := a[1..], b[1..];
      StrLessExactly(s, t);
      assert a == [a[0]] + s && b == [b[0]] + t;
      if exists k :: 0 <= k < |s| && k < |t| && s[..k] == t[..k] && s[k] < t[k] {
        var k :| 0 <= k < |s| && k < |t| && s[..k] == t[..k] && s[k] < t[k];
        assert a[..k + 1] == [a[0]] + s[..k] && b[..k + 1] == [b[0]] + t[..k] && a[k + 1] < b[k + 1];
      }
      if exists k :: 0 <= k < |a| && k < |b| && a[..k] == b[..k] && a[k] < b[k] {
        var k :| 0 <= k < |a| && k < |b| && a[..k] == b[..k] && a[k] < b[k];
        assert k > 0;
        assert s[..k - 1] == a[..k][1..] && t[..k - 1] == b[..k][1..] && s[k - 1] < t[k - 1];
      }
    } else if a != [] && b != [] {
      if a[0] < b[0] { assert a[..0] == b[..0]; }
      forall k | 0 < k < |a| && k < |b| ensures a[..k] != b[..k] {
        assert a[..k][0] == a[0] && b[..k][0] == b[0];
      }
    }
  }

  lemma {:induction false} ProperPrefixIsLess(a: string, b: string)
    requires a < b
    ensures StrLess(a, b)
  {
    if a != [] {
      ProperPrefixIsLess(a[1..], b[1..]);
    }
  }

  /** A component never contains the separator, so a name followed by a slash is read one way only. */
  lemma {:induction false} SlashSplitsOneWay(a: string, s: string, b: string, t: string)
    requires '/' !in a && '/' !in b
    requires a + "/" + s == b + "/" + t
    ensures a == b && s == t
  {
    var u := a + "/" + s;
    assert u[|a|] == '/' && u[|b|] == '/';
    assert forall i | 0 <= i < |a| :: u[i] == a[i];
    assert forall i | 0 <= i < |b| :: u[i] == b[i];
    assert |a| == |b|;
    assert a == u[..|a|] && b == u[..|b|];
    assert s == u[|a| + 1..] && t == u[|b| + 1..];
  }

  lemma {:induction false} RenderNonEmpty(p: Path)
    requires ValidPath(p)
    ensures Render(p) != ""
    ensures |p| > 1 ==> ValidPath(p[1..]) && Render(p) == p[0] + "/" + Render(p[1..])
    ensures |p| == 1 ==> '/' !in Render(p)
  {
    assert ValidName(p[0]);
    if |p| > 1 {
      assert forall i | 0 <= i < |p[1..]| :: p[1..][i] == p[i + 1];
    }
  }

  /** Descending adds a slash and more text to the string. */
  lemma {:induction false} RenderConcat(p: Path, q: Path)
    requires p != [] && q != []
    ensures Render(p + q) == Render(p) + "/" + Render(q)
  {
    if |p| == 1 {
      assert (p + q)[1..] == q;
    } else {
      assert (p + q)[1..] == p[1..] + q;
      RenderConcat(p[1..], q);
      assert Render(p + q) == p[0] + "/" + (Render(p[1..]) + "/" + Render(q));
      assert p[0] + "/" + (Render(p[1..]) + "/" + Render(q)) == Render(p) + "/" + Render(q);
    }
  }

  lemma {:induction false} UnderImpliesStringUnder(p: Path, q: Path)
    requires p != [] && p <= q
    ensures StringUnder(Render(p), Render(q))
    ensures p < q ==> Render(p) < Render(q)
  {
    if p != q {
      var rest := q[|p|..];
      assert q == p + rest;
      RenderConcat(p, rest);
    }
  }

  lemma SlashMeansMore(p: Path)
    requires ValidPath(p)
    ensures '/' in Render(p) <==> |p| > 1
  {
    RenderNonEmpty(p);
    if |p| > 1 { assert Render(p)[|p[0]|] == '/'; }
  }

  lemma {:induction false} RenderedPrefix(p: Path, q: Path, more: string)
    requires ValidPath(p) && ValidPath(q) && Render(q) == Render(p) + more && (more == "" || more[0] == '/')
    ensures p <= q
    decreases |p|
  {
    RenderNonEmpty(p);
    RenderNonEmpty(q);
    SlashMeansMore(p);
    SlashMeansMore(q);
    assert ValidName(p[0]) && ValidName(q[0]);
    hide Render;
    hide ValidPath;
    assert more != "" ==> Render(q)[|Render(p)|] == '/';
    if |p| == 1 && |q| > 1 {
      assert Render(q) == Render(p) + "/" + more[1..];
      assert Render(p) == p[0] by { OneName(p); }
      SlashSplitsOneWay(p[0], more[1..], q[0], Render(q[1..]));
    } else if |p| > 1 {
      assert |q| > 1 by { assert forall c | c in Render(p) :: c in Render(q); }
      assert Render(q) == p[0] + "/" + (Render(p[1..]) + more);
      SlashSplitsOneWay(p[0], Render(p[1..]) + more, q[0], Render(q[1..]));
      RenderedPrefix(p[1..], q[1..], more);
      assert p == [p[0]] + p[1..] && q == [q[0]] + q[1..];
    } else {
      OneName(p);
      OneName(q);
      assert more == "" && Render(p) + more == Render(p);
      assert p == [p[0]] == q;
    }
  }

  lemma OneName(p: Path)
    requires |p| == 1
    ensures Render(p) == p[0]
  {
  }

  lemma StringUnderImpliesUnder(p: Path, q: Path)
    requires ValidPath(p) && ValidPath(q)
    requires StringUnder(Render(p), Render(q))
    ensures p <= q
  {
    var more := Render(q)[|Render(p)|..];
    assert Render(q) == Render(p) + more;
    assert more != "" ==> more[0] == Render(q)[|Render(p)|] == (Render(p) + "/")[|Render(p)|];
    RenderedPrefix(p, q, more);
  }

  /** The string test and the component test agree: `cache-file` is not under `cache`. */
  lemma StringUnderIsComponentUnder(p: Path, q: Path)
    requires ValidPath(p) && ValidPath(q)
    ensures StringUnder(Render(p), Render(q)) <==> p <= q
  {
    if p <= q {
      UnderImpliesStringUnder(p, q);
    }
    if StringUnder(Render(p), Render(q)) {
      StringUnderImpliesUnder(p, q);
    }
  }

  /** Different paths have different strings. */
  lemma RenderInjective(p: Path, q: Path)
    requires ValidPath(p) && ValidPath(q)
    requires Render(p) == Render(q)
    ensures p == q
  {
    StringUnderIsComponentUnder(p, q);
    StringUnderIsComponentUnder(q, p);
  }

  /** In byte order an ancestor comes strictly before everything below it. */
  lemma AncestorSortsFirst(p: Path, q: Path)
    requires p != [] && p < q
    ensures StrLess(Render(p), Render(q))
  {
    UnderImpliesStringUnder(p, q);
    ProperPrefixIsLess(Render(p), Render(q));
  }
}
