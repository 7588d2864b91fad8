/**
  A queued tree that fails part way: exactly when it leaves nothing inside it that an
  entry dropped in its favour would have done.
 */
module Stalling {

  import opened Paths
  import opened FileTree
  import opened Wrappers
  import opened Walk
  import opened Mirroring
  import opened MirrorFacts
  import opened Reconciling
  import opened Settling
  import opened Collapsing
  import opened Trusting
  import opened Succeeding

  /** Syncing `p` on its own removes what is recorded of it. */
  ghost predicate Removable(env: Env, src: Fs, p: Path) {
    p != [] && (env.excluded(p) || LookUp(src, p).Missing? || LookUp(src, p).Linked?)
  }

  /** No record at or below a path that has lost its source. */
  ghost predicate NothingLost(env: Env, src: Fs, cache: Cache, r: Path) {
    forall p, x | Under(r, p) && x in cache && Under(p, x) :: !Removable(env, src, p)
  }

  /** Inside `r` nothing is left to sync that could be synced. */
  ghost predicate Still(env: Env, src: Fs, m: Mirror, r: Path) {
    && NothingLost(env, src, m.cache, r)
    && forall p | Under(r, p) && Included(env, src, p) && Unmatched(src, m, p) :: !Clear(src, m.dst, p)
  }

  /** Below `r` the source has files and directories only. */
  ghost predicate Ordinary(env: Env, src: Fs, r: Path) {
    forall p | Under(r, p) && Included(env, src, p) :: Mirrored(src[p])
  }

  // ----- where nothing is left to do, no entry does anything -----

  lemma VisitStill(env: Env, src: Fs, m: Mirror, r: Path, p: Path)
    requires Setting(env, src) && IsTree(m.dst) && Still(env, src, m, r) && p != []
    requires Under(r, p) && Included(env, src, p) && Mirrored(src[p])
    ensures forall sweep: bool :: Visit(env, src, m, p, sweep).m == m
  {
    VisitSucceeds(env, src, m, p);
  }

  lemma {:induction false} VisitAllStill(env: Env, src: Fs, m: Mirror, r: Path, ps: seq<Path>)
    requires Setting(env, src) && IsTree(m.dst) && Still(env, src, m, r)
    requires forall p | p in ps :: p in src && p != [] && Under(r, p) && Included(env, src, p) && Mirrored(src[p])
    ensures VisitAll(env, src, m, ps, true).m == m
    ensures VisitAll(env, src, m, ps, true).ok ==> forall p | p in ps :: Clear(src, m.dst, p) || !Unmatched(src, m, p)
    decreases |ps|
  {
    hide Visit;
    hide Still;
    hide Included;
    hide Clear;
    if ps != [] {
      assert ps[0] in ps;
      VisitStill(env, src, m, r, ps[0]);
      if Visit(env, src, m, ps[0], true).ok {
        VisitIsSwept(env, src, m, ps[0]);
        VisitSucceeds(env, src, m, ps[0]);
        forall p | p in ps[1..] ensures p in ps { }
        VisitAllStill(env, src, m, r, ps[1..]);
        forall p | p in ps ensures p == ps[0] || p in ps[1..] { }
      }
    }
  }

  lemma VisitIsSwept(env: Env, src: Fs, m: Mirror, p: Path)
    requires p in src && p != [] && Mirrored(src[p])
    ensures Visit(env, src, m, p, true) == Visit(env, src, m, p, false)
  {
  }

  lemma SyncRelStill(env: Env, src: Fs, m: Mirror, r: Path, p: Path)
    requires Setting(env, src) && Closed(env) && ValidPath(p) && Coherent(m) && Still(env, src, m, r)
    requires Ordinary(env, src, r) && Under(r, p)
    ensures SyncRel(env, src, m, p).m == m
  {
    if Removable(env, src, p) {
      RemoveKnownIdle(env, src, m, p);
    } else if LookUp(src, p).Found? {
      FoundIsIncluded(env, src, p);
      VisitStill(env, src, m, r, p);
      assert Visit(env, src, m, p, false).m == m;
    }
  }

  /** What is recorded below a path without a clash is included. */
  lemma RecordIncluded(env: Env, src: Fs, m: Mirror, r: Path, p: Path, x: Path)
    requires IsTree(src) && Coherent(m) && NothingLost(env, src, m.cache, r) && Ordinary(env, src, r)
    requires Under(r, p) && Included(env, src, p) && src[p].Dir? && x in m.cache && Under(p, x)
    requires forall z | Under(p, z) && Included(env, src, z) :: !Clash(src, m.dst, z)
    ensures Included(env, src, x)
  {
    hide Included;
    hide Removable;
    assert p != [] by { InSource(env, src, p); }
    assert x[..|p|] == p;
    var k := LastIncluded(env, src, p, x, |p|);
    if k < |x| {
      var z, y := x[..k], x[..k + 1];
      assert Under(r, z) && Under(p, z) && Under(r, y) && Under(y, x) && z < x;
      AncestorIsDir(m.dst, z, x);
      InSource(env, src, z);
      assert !Clash(src, m.dst, z) && Mirrored(src[z]);
      NextIsRemovable(env, src, z, y);
    }
    assert x[..|x|] == x;
  }

  lemma InSource(env: Env, src: Fs, p: Path)
    requires IsTree(src) && Included(env, src, p)
    ensures p in src && p != []
  {
  }

  lemma {:induction false} LastIncluded(env: Env, src: Fs, p: Path, x: Path, n: nat) returns (k: nat)
    requires |p| <= n <= |x| && Included(env, src, x[..n])
    ensures n <= k <= |x| && Included(env, src, x[..k]) && (k < |x| ==> !Included(env, src, x[..k + 1]))
    decreases |x| - n
  {
    k := n;
    if n < |x| && Included(env, src, x[..n + 1]) { k := LastIncluded(env, src, p, x, n + 1); }
  }

  /** A child of an included directory that is not included has been excluded, is linked, or is missing. */
  lemma NextIsRemovable(env: Env, src: Fs, z: Path, y: Path)
    requires IsTree(src) && Included(env, src, z) && src[z].Dir? && y != [] && Parent(y) == z && !Included(env, src, y)
    ensures Removable(env, src, y)
  {
    var skip := Skipped(env, src);
    assert y[..|y|] == y;
    assert forall k | 0 < k <= |z| :: z[..k] == y[..k];
    if y !in src || skip(y) {
      if !env.excluded(y) { BelowIsLookedUp(src, z, y, 0); }
    } else {
      assert Reached(skip, [], y) by {
        forall k | 0 < k <= |y| ensures !skip(y[..k]) { if k <= |z| { assert y[..k] == z[..k]; } }
      }
    }
  }

  lemma {:induction false} BelowIsLookedUp(src: Fs, z: Path, y: Path, k: nat)
    requires IsTree(src) && (z == [] || (z in src && src[z].Dir?)) && y != [] && Parent(y) == z && k <= |y|
    requires y in src ==> src[y].Symlink?
    ensures LookupFrom(src, y, k).Missing? || LookupFrom(src, y, k).Linked?
    decreases |y| - k
  {
    assert y[..|y|] == y;
    if 0 < k < |y| {
      assert y[..k] == z[..k];
      if k < |z| { AncestorIsDir(src, z[..k], z); } else { assert z[..k] == z; }
    }
    if k < |y| { BelowIsLookedUp(src, z, y, k + 1); }
  }

  lemma SyncTreeStill(env: Env, src: Fs, m: Mirror, r: Path, p: Path)
    requires Setting(env, src) && Closed(env) && ValidPath(p) && Coherent(m) && Still(env, src, m, r)
    requires Ordinary(env, src, r) && Under(r, p)
    ensures SyncTree(env, src, m, p).m == m
  {
    hide VisitAll;
    hide Included;
    hide SyncRel;
    hide Removable;
    if IsTreeDir(env, src, p) {
      TreeVisitsMeaning(env, src, p);
      var ps := TreeVisits(env, src, p);
      VisitAllStill(env, src, m, r, ps);
      if VisitAll(env, src, m, ps, true).ok {
        forall q | Under(p, q) && Included(env, src, q) ensures !Clash(src, m.dst, q) {
          assert q in ps;
          NoClashVisited(env, src, m, q);
        }
        forall x | x in m.cache && Under(p, x) ensures x in Elems(ps) { RecordIncluded(env, src, m, r, p, x); }
        PruneIdle(env, m, p, Elems(ps));
      }
    } else {
      SyncRelStill(env, src, m, r, p);
    }
  }

  lemma NoClashVisited(env: Env, src: Fs, m: Mirror, q: Path)
    requires IsTree(src) && Coherent(m) && q in src && q != [] && (Clear(src, m.dst, q) || !Unmatched(src, m, q))
    ensures !Clash(src, m.dst, q)
  {
    assert Under(q, q);
  }

  lemma FlushOneStill(env: Env, src: Fs, m: Mirror, r: Path, e: Entry)
    requires Setting(env, src) && Closed(env) && Coherent(m) && Still(env, src, m, r)
    requires Ordinary(env, src, r) && ValidPath(e.rel) && Under(r, e.rel)
    ensures FlushOne(env, src, m, e).m == m
  {
    SyncRelStill(env, src, m, r, e.rel);
    SyncTreeStill(env, src, m, r, e.rel);
  }

  // ----- what a failing tree leaves to do -----

  /** The walk comes to `x` before anything that clashes. */
  ghost predicate ReachedIn(src: Fs, dst: Fs, ps: seq<Path>, x: Path)
    decreases |ps|
  {
    ps != [] && Clear(src, dst, ps[0]) && (ps[0] == x || ReachedIn(src, dst, ps[1..], x))
  }

  lemma MatchedIsClear(src: Fs, m: Mirror, q: Path)
    requires IsTree(src) && Coherent(m) && q in src && Mirrored(src[q]) && !Unmatched(src, m, q)
    ensures Clear(src, m.dst, q)
  {
    assert q in m.dst && Agrees(m.cache[q], m.dst[q]);
    forall x | x != [] && Under(x, q) ensures !Clash(src, m.dst, x) {
      if x != q {
        AncestorIsDir(src, x, q);
        AncestorIsDir(m.dst, x, q);
      }
    }
  }

  lemma {:induction false} ReachedSame(src: Fs, a: Fs, b: Fs, ps: seq<Path>, x: Path)
    requires forall q | q in ps :: Clear(src, a, q) <==> Clear(src, b, q)
    ensures ReachedIn(src, a, ps, x) <==> ReachedIn(src, b, ps, x)
    decreases |ps|
  {
    hide Clear;
    if ps != [] {
      assert ps[0] in ps && forall q | q in ps[1..] :: q in ps;
      ReachedSame(src, a, b, ps[1..], x);
    }
  }

  /** A walk makes the record match exactly where it comes before anything that clashes. */
  lemma {:induction false} WalkMatches(env: Env, src: Fs, m: Mirror, ps: seq<Path>, x: Path)
    requires Setting(env, src) && Coherent(m)
    requires forall p | p in ps :: p in src && p != [] && Mirrored(src[p])
    ensures var m' := VisitAll(env, src, m, ps, true).m;
            && Coherent(m')
            && (Unmatched(src, m', x) <==> Unmatched(src, m, x) && !ReachedIn(src, m.dst, ps, x))
            && (x !in ps ==> (x in m'.cache <==> x in m.cache))
            && (forall q :: Clear(src, m'.dst, q) <==> Clear(src, m.dst, q))
    decreases |ps|
  {
    hide Visit;
    hide Coherent;
    hide Clear;
    if ps != [] {
      var p, o := ps[0], Visit(env, src, m, ps[0], true);
      assert p in ps;
      forall q | q in ps[1..] ensures q in ps { }
      OneVisit(env, src, m, p);
      if o.ok {
        WalkMatches(env, src, o.m, ps[1..], x);
        ReachedSame(src, m.dst, o.m.dst, ps[1..], x);
      }
    }
  }

  lemma OneVisit(env: Env, src: Fs, m: Mirror, p: Path)
    requires Setting(env, src) && Coherent(m) && p in src && p != [] && Mirrored(src[p])
    ensures var o := Visit(env, src, m, p, true);
            && Coherent(o.m) && (o.ok <==> Clear(src, m.dst, p)) && (!o.ok ==> o.m == m)
            && SameRecords(m.cache, o.m.cache, p) && (o.ok ==> !Unmatched(src, o.m, p))
            && (forall x | x != [] :: Clash(src, o.m.dst, x) <==> Clash(src, m.dst, x))
            && (forall q :: Clear(src, o.m.dst, q) <==> Clear(src, m.dst, q))
  {
    var o := Visit(env, src, m, p, true);
    VisitIsSwept(env, src, m, p);
    VisitGood(env, src, m, p, true);
    VisitSucceeds(env, src, m, p);
    VisitEffect(env, src, m, p);
    if !Unmatched(src, m, p) { MatchedIsClear(src, m, p); }
    if o.ok {
      forall x | x != [] ensures Clash(src, o.m.dst, x) <==> Clash(src, m.dst, x) { ClearStays(env, src, m, p, x); }
    }
  }

  /** Every path of the tree can be reached and synced. */
  ghost predicate AllClear(env: Env, src: Fs, dst: Fs, r: Path) {
    forall q | q in TreeVisits(env, src, r) :: Clear(src, dst, q)
  }

  /** What the record does not call up to date comes before the first clash, or behind a clash of its own. */
  ghost predicate NothingLeft(env: Env, src: Fs, m: Mirror, r: Path) {
    forall p | Under(r, p) && Included(env, src, p) && Unmatched(src, m, p) ::
      ReachedIn(src, m.dst, TreeVisits(env, src, r), p) || !Clear(src, m.dst, p)
  }

  lemma {:induction false} WalkFails(env: Env, src: Fs, m: Mirror, ps: seq<Path>, q: Path)
    requires Setting(env, src) && Coherent(m) && q in ps && !Clear(src, m.dst, q)
    requires forall p | p in ps :: p in src && p != [] && Mirrored(src[p])
    ensures !VisitAll(env, src, m, ps, true).ok
    decreases |ps|
  {
    hide Visit;
    hide Coherent;
    hide Clear;
    var o := Visit(env, src, m, ps[0], true);
    assert ps[0] in ps;
    OneVisit(env, src, m, ps[0]);
    if o.ok {
      forall p | p in ps[1..] ensures p in ps { }
      WalkFails(env, src, o.m, ps[1..], q);
    }
  }

  // ----- a tree's turn -----

  /**
    The entries below `r` may be dropped in its favour: `r` is to be removed, or it is found
    and all of it can be synced, or no record below it has lost its source and every path below it is
    recorded as up to date, comes before the first clash, or lies at or behind a clash.
   */
  ghost predicate Droppable(env: Env, src: Fs, m: Mirror, r: Path) {
    || Removable(env, src, r)
    || (r != [] && LookUp(src, r).Found? && AllClear(env, src, m.dst, r))
    || (NothingLost(env, src, m.cache, r) && NothingLeft(env, src, m, r))
  }

  ghost predicate OrdinaryRoot(env: Env, src: Fs, r: Path) {
    Setting(env, src) && Closed(env) && ValidPath(r) && Ordinary(env, src, r)
  }

  lemma VisitsMirrored(env: Env, src: Fs, r: Path)
    requires OrdinaryRoot(env, src, r) && IsTreeDir(env, src, r)
    ensures forall p | p in TreeVisits(env, src, r) :: p in src && p != [] && Mirrored(src[p])
    ensures forall p :: p in TreeVisits(env, src, r) <==> Under(r, p) && Included(env, src, p)
  {
    TreeVisitsMeaning(env, src, r);
  }

  /** A tree that fails leaves the mirror as the walk up to the first clash leaves it. */
  lemma FailedTree(env: Env, src: Fs, m: Mirror, r: Path, x: Path)
    requires OrdinaryRoot(env, src, r) && IsTreeDir(env, src, r) && Coherent(m) && !AllClear(env, src, m.dst, r)
    ensures var m1 := SyncTree(env, src, m, r).m;
            && Coherent(m1)
            && (Unmatched(src, m1, x) <==> Unmatched(src, m, x) && !ReachedIn(src, m.dst, TreeVisits(env, src, r), x))
            && (!Included(env, src, x) ==> (x in m1.cache <==> x in m.cache))
            && (forall q :: Clear(src, m1.dst, q) <==> Clear(src, m.dst, q))
  {
    hide Included;
    hide VisitAll;
    hide Clear;
    hide Coherent;
    VisitsMirrored(env, src, r);
    var ps := TreeVisits(env, src, r);
    var q :| q in ps && !Clear(src, m.dst, q);
    WalkFails(env, src, m, ps, q);
    WalkMatches(env, src, m, ps, x);
  }

  /** What is not a directory of the source and not to be removed has nothing below it, and either syncs or stays as it is. */
  lemma LeafTree(env: Env, src: Fs, m: Mirror, r: Path)
    requires OrdinaryRoot(env, src, r) && !IsTreeDir(env, src, r) && !Removable(env, src, r) && Coherent(m)
    ensures TreeVisits(env, src, r) == [r]
    ensures forall p | Under(r, p) && Included(env, src, p) :: p == r && LookUp(src, r).Found?
    ensures var o := SyncTree(env, src, m, r);
            (o.ok <==> LookUp(src, r).Found? && Clear(src, m.dst, r)) && (!o.ok ==> o.m == m)
  {
    LookupFromMeaning(src, r, 0);
    NothingBelowLeaf(env, src, r);
    if LookUp(src, r).Found? {
      FoundIsIncluded(env, src, r);
      OneVisit(env, src, m, r);
      VisitIsSwept(env, src, m, r);
    } else {
      forall p | Under(r, p) ensures !Included(env, src, p) { NothingIncluded(env, src, r, p); }
    }
  }

  lemma NothingBelowLeaf(env: Env, src: Fs, r: Path)
    requires IsTree(src) && r != [] && !env.excluded(r) && !IsTreeDir(env, src, r)
    ensures forall q | q in src && Under(r, q) :: q == r
    ensures TreeVisits(env, src, r) == [r]
  {
    VisitsMeaning(src, Skipped(env, src), r);
    var below := Visits(src, Skipped(env, src), r);
    if below != [] {
      assert below[0] in below;
      AncestorIsDir(src, r, below[0]);
      FoundFrom(src, r, 0);
    }
    forall q | q in src && Under(r, q) ensures q == r {
      if q != r {
        assert r < q;
        AncestorIsDir(src, r, q);
        FoundFrom(src, r, 0);
      }
    }
  }
}
