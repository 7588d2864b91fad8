/** After a tree sync, syncing anything inside that tree again changes nothing. */
module Settling {

  import opened Paths
  import opened FileTree
  import opened Wrappers
  import opened Walk
  import opened Mirroring
  import opened MirrorFacts
  import opened Reconciling

  /** Excluding a directory excludes what is in it. */
  ghost predicate Closed(env: Env) {
    forall p, q | p != [] && ValidPath(q) && Under(p, q) && env.excluded(p) :: env.excluded(q)
  }

  // ----- looking up -----

  lemma {:induction false} LookupFromMeaning(src: Fs, p: Path, k: nat)
    requires IsTree(src) && p != [] && k <= |p|
    ensures var l := LookupFrom(src, p, k);
            && (l.Missing? || l.NotDirectory? ==> p !in src)
            && (l.Found? ==> !src[p].Symlink?)
            && (l.Linked? ==> exists j :: 0 < j <= |p| && p[..j] in src && src[p[..j]].Symlink?)
    decreases |p| - k
  {
    assert p[..|p|] == p;
    if p in src && 0 < k < |p| { AncestorIsDir(src, p[..k], p); }
    if k < |p| { LookupFromMeaning(src, p, k + 1); }
  }

  /** Below something absent, excluded or linked nothing is included. */
  lemma NothingIncluded(env: Env, src: Fs, p: Path, q: Path)
    requires IsTree(src) && p != [] && Under(p, q)
    requires env.excluded(p) || LookUp(src, p).Linked? || LookUp(src, p).Missing? || LookUp(src, p).NotDirectory?
    ensures !Included(env, src, q)
  {
    LookupFromMeaning(src, p, 0);
    assert p[..|p|] == p == q[..|p|];
    if Included(env, src, q) {
      IncludedAncestor(env, src, p, q);
    }
  }

  lemma FoundIsIncluded(env: Env, src: Fs, p: Path)
    requires IsTree(src) && Closed(env) && ValidPath(p) && !env.excluded(p) && LookUp(src, p).Found?
    ensures Included(env, src, p)
  {
    LookupFromMeaning(src, p, 0);
    forall k | 0 < k <= |p| ensures !Skipped(env, src)(p[..k]) {
      assert Under(p[..k], p);
      if k < |p| { AncestorIsDir(src, p[..k], p); } else { assert p[..k] == p; }
    }
  }

  // ----- settled trees -----

  /** Under `r` the record is exactly what the source asks for. */
  ghost predicate Settled(env: Env, src: Fs, m: Mirror, r: Path) {
    && (forall q | q in m.cache && Under(r, q) :: Included(env, src, q) && Mirrored(src[q]))
    && (forall q | Under(r, q) && Included(env, src, q) && (q != r || Mirrored(src[q])) :: UpToDate(src, m, q))
  }

  /** Work on another branch leaves a settled tree settled. */
  lemma SettledFramed(env: Env, src: Fs, m: Mirror, m': Mirror, r: Path, e: Path)
    requires Settled(env, src, m, r) && Framed(m, m', e) && Unrelated(r, e)
    ensures Settled(env, src, m', r)
  {
    forall q | Under(r, q) ensures !Under(e, q) && !Under(q, e) {
    }
  }

  lemma SyncRelGood(env: Env, src: Fs, m: Mirror, p: Path)
    requires Setting(env, src) && Coherent(m) && p != []
    ensures var o := SyncRel(env, src, m, p); Coherent(o.m) && Framed(m, o.m, p)
  {
    RemoveGood(env, src, m, p);
    if !env.excluded(p) && LookUp(src, p).Found? {
      if src[p].Dir? { SyncDirGood(env, src, m, p); }
      else if src[p].File? { CopyRelGood(env, src, m, p); }
    }
  }

  ghost predicate IsTreeDir(env: Env, src: Fs, p: Path) {
    p != [] && !env.excluded(p) && LookUp(src, p).Found? && LookUp(src, p).node.Dir?
  }

  function TreeVisits(env: Env, src: Fs, p: Path): seq<Path> {
    [p] + Visits(src, Skipped(env, src), p)
  }

  lemma TreeVisitsMeaning(env: Env, src: Fs, p: Path)
    requires IsTree(src) && IsTreeDir(env, src, p)
    ensures forall q | q in TreeVisits(env, src, p) :: q in src && q != [] && Under(p, q)
    ensures Closed(env) && ValidPath(p) ==> forall q :: q in TreeVisits(env, src, p) <==> Under(p, q) && Included(env, src, q)
  {
    var skip := Skipped(env, src);
    VisitsMeaning(src, skip, p);
    if Closed(env) && ValidPath(p) {
      FoundIsIncluded(env, src, p);
      forall q ensures q in TreeVisits(env, src, p) <==> Under(p, q) && Included(env, src, q) {
        if Under(p, q) {
          assert p == q[..|p|];
          assert q != p ==> p < q;
          assert forall k | 0 < k <= |p| :: p[..k] == q[..k];
          assert Reached(skip, [], q) <==> Reached(skip, p, q);
        }
      }
    }
  }

  lemma SyncTreeGood(env: Env, src: Fs, m: Mirror, p: Path)
    requires Setting(env, src) && Coherent(m) && p != []
    ensures var o := SyncTree(env, src, m, p); Coherent(o.m) && Framed(m, o.m, p)
  {
    if IsTreeDir(env, src, p) {
      TreeVisitsMeaning(env, src, p);
      var ps := TreeVisits(env, src, p);
      var o := VisitAll(env, src, m, ps, true);
      VisitAllGood(env, src, m, ps, true, p);
      PruneByStateGood(env, o.m, p, Elems(ps));
      FramedTransitive(m, o.m, WithoutDoomed(env, o.m, p, Elems(ps)), p);
    } else {
      SyncRelGood(env, src, m, p);
    }
  }

  /** Pruning after a complete walk of `r` leaves `r` settled. */
  lemma WalkedTreeSettles(env: Env, src: Fs, w: Mirror, r: Path)
    requires Setting(env, src) && Closed(env) && ValidPath(r) && Coherent(w) && IsTreeDir(env, src, r)
    requires forall q | Under(r, q) && Included(env, src, q) :: UpToDate(src, w, q)
    ensures Settled(env, src, WithoutDoomed(env, w, r, Elems(TreeVisits(env, src, r))), r)
  {
    TreeVisitsMeaning(env, src, r);
    var seen := Elems(TreeVisits(env, src, r));
    forall q | Under(r, q)
      ensures Included(env, src, q) ==> !Doomed(w.cache, r, seen, q)
      ensures q in w.cache && !Included(env, src, q) ==> Doomed(w.cache, r, seen, q)
    {
      assert Under(q, q);
      if Included(env, src, q) {
        forall x | Under(r, x) && Under(x, q) ensures x in seen {
          IncludedAncestor(env, src, x, q);
        }
      }
    }
  }

  lemma SyncTreeSettles(env: Env, src: Fs, m: Mirror, r: Path)
    requires Setting(env, src) && Closed(env) && Coherent(m) && ValidPath(r)
    requires SyncTree(env, src, m, r).ok
    ensures Settled(env, src, SyncTree(env, src, m, r).m, r)
  {
    if IsTreeDir(env, src, r) {
      TreeVisitsMeaning(env, src, r);
      var ps := TreeVisits(env, src, r);
      VisitAllGood(env, src, m, ps, true, r);
      var w := VisitAll(env, src, m, ps, true).m;
      forall q | Under(r, q) && Included(env, src, q) ensures UpToDate(src, w, q) {
        VisitAllKeeps(env, src, m, ps, q);
      }
      WalkedTreeSettles(env, src, w, r);
      PruneByStateGood(env, w, r, Elems(ps));
    } else {
      SyncRelSettlesLeaf(env, src, m, r);
    }
  }

  lemma SyncRelSettlesLeaf(env: Env, src: Fs, m: Mirror, r: Path)
    requires Setting(env, src) && Closed(env) && Coherent(m) && ValidPath(r)
    requires !IsTreeDir(env, src, r) && SyncRel(env, src, m, r).ok
    ensures Settled(env, src, SyncRel(env, src, m, r).m, r)
  {
    SyncRelGood(env, src, m, r);
    if !env.excluded(r) && LookUp(src, r).Found? {
      NothingBelow(src, r);
      assert forall q | Under(r, q) && q != r :: r < q;
      if src[r].File? {
        CopySettlesFile(env, src, m, r);
      } else {
        RemoveGood(env, src, m, r);
      }
    } else {
      RemoveGood(env, src, m, r);
      forall q | Under(r, q) ensures !Included(env, src, q) {
        NothingIncluded(env, src, r, q);
      }
    }
  }

  lemma CopySettlesFile(env: Env, src: Fs, m: Mirror, r: Path)
    requires Setting(env, src) && Closed(env) && Coherent(m) && ValidPath(r) && !env.excluded(r)
    requires LookUp(src, r).Found?
    requires src[r].File? && CopyRel(env, m, r, src[r]).ok
    requires forall q | q in src && Under(r, q) :: q == r
    ensures Settled(env, src, CopyRel(env, m, r, src[r]).m, r)
  {
    var m' := CopyRel(env, m, r, src[r]).m;
    FoundIsIncluded(env, src, r);
    CopyRelGood(env, src, m, r);
    NothingBelow(m'.dst, r);
    assert forall q | Under(r, q) && q != r :: r < q;
  }

  // ----- nothing left to do -----

  lemma RemoveKnownIdle(env: Env, src: Fs, m: Mirror, p: Path)
    requires forall q | Under(p, q) :: q !in m.cache
    ensures RemoveKnownBackupPath(env, m, p).m == m
  {
  }

  lemma SyncRelIdle(env: Env, src: Fs, m: Mirror, r: Path, p: Path)
    requires Setting(env, src) && Closed(env) && ValidPath(p) && Coherent(m)
    requires Settled(env, src, m, r) && r != [] && Under(r, p)
    ensures SyncRel(env, src, m, p).m == m
  {
    if env.excluded(p) || !LookUp(src, p).Found? {
      forall q | Under(p, q) ensures q !in m.cache {
        NothingIncluded(env, src, p, q);
        assert Under(r, q);
      }
      RemoveKnownIdle(env, src, m, p);
    } else {
      FoundIsIncluded(env, src, p);
      if Mirrored(src[p]) {
        assert UpToDate(src, m, p);
      } else {
        NothingBelow(src, p);
        forall q | Under(p, q) ensures q !in m.cache {
          assert Under(r, q);
          assert q != p ==> p < q;
        }
        RemoveKnownIdle(env, src, m, p);
      }
    }
  }

  lemma VisitIdle(env: Env, src: Fs, m: Mirror, p: Path)
    requires Setting(env, src) && Coherent(m) && p in src && p != [] && UpToDate(src, m, p)
    ensures Visit(env, src, m, p, true).m == m
  {
    if !Mirrored(src[p]) {
      NothingBelow(m.dst, p);
      assert forall q | q in m.dst :: !Under(p, q) by {
        forall q | q in m.dst ensures !Under(p, q) { assert q != p ==> Under(p, q) ==> p < q; }
      }
      assert Without(m.dst, p) == m.dst;
      assert Forget(m.cache, p) == m.cache;
    }
  }

  lemma {:induction false} VisitAllIdle(env: Env, src: Fs, m: Mirror, ps: seq<Path>)
    requires Setting(env, src) && Coherent(m)
    requires forall p | p in ps :: p in src && p != [] && UpToDate(src, m, p)
    ensures VisitAll(env, src, m, ps, true).m == m
    decreases |ps|
  {
    if ps != [] {
      VisitIdle(env, src, m, ps[0]);
      assert forall p | p in ps[1..] :: p in ps;
      VisitAllIdle(env, src, m, ps[1..]);
    }
  }

  lemma PruneIdle(env: Env, m: Mirror, p: Path, seen: set<Path>)
    requires Coherent(m) && !env.dryRun && forall q | q in m.cache && Under(p, q) :: q in seen
    ensures PruneByState(env, m, p, seen) == Outcome(m, true)
  {
    hide Coherent;
    hide PruneByState;
    PruneByStateGood(env, m, p, seen);
    NoneDoomed(m.cache, p, seen);
    hide Doomed;
    assert WithoutDoomed(env, m, p, seen) == m;
  }

  lemma NoneDoomed(cache: Cache, p: Path, seen: set<Path>)
    requires forall q | q in cache && Under(p, q) :: q in seen
    ensures forall q :: !Doomed(cache, p, seen, q)
  {
  }

  lemma SyncTreeIdle(env: Env, src: Fs, m: Mirror, r: Path, p: Path)
    requires Setting(env, src) && Closed(env) && ValidPath(p) && Coherent(m)
    requires Settled(env, src, m, r) && r != [] && Under(r, p)
    ensures SyncTree(env, src, m, p).m == m
  {
    if IsTreeDir(env, src, p) {
      TreeVisitsMeaning(env, src, p);
      var ps := TreeVisits(env, src, p);
      forall q | q in ps ensures UpToDate(src, m, q) {
        assert Under(r, q);
        if q == r { assert p == r; }
      }
      VisitAllIdle(env, src, m, ps);
      forall q | q in m.cache && Under(p, q) ensures q in Elems(ps) {
        assert Under(r, q);
      }
      PruneIdle(env, m, p, Elems(ps));
    } else {
      SyncRelIdle(env, src, m, r, p);
    }
  }
}
