/** When syncing a tree succeeds, and with it when a collapsed queue is as good as the whole one. */
module Clashing {

  import opened Paths
  import opened FileTree
  import opened Wrappers
  import opened Walk
  import opened Mirroring
  import opened MirrorFacts
  import opened Reconciling
  import opened Settling
  import opened Collapsing

  /** On the way to `r`, at `r` and below it no included path is a directory on one side and a file on the other. */
  ghost predicate NoClashesNear(env: Env, src: Fs, dst: Fs, r: Path) {
    forall p | Included(env, src, p) && (Under(r, p) || Under(p, r)) :: !Clash(src, dst, p)
  }

  // ----- no step brings a clash about -----

  /** Whatever is there afterwards is of the kind it was before, or of the kind it is in the source. */
  ghost predicate KindsFrom(src: Fs, dst: Fs, dst': Fs) {
    forall q | q in dst' ::
      || (q in dst && dst'[q].Dir? == dst[q].Dir?)
      || (q in src && Mirrored(src[q]) && dst'[q].Dir? == src[q].Dir?)
  }

  lemma KindsTransitive(src: Fs, a: Fs, b: Fs, c: Fs)
    requires KindsFrom(src, a, b) && KindsFrom(src, b, c)
    ensures KindsFrom(src, a, c)
  {
  }

  lemma KindsKeepNoClashes(env: Env, src: Fs, dst: Fs, dst': Fs, r: Path)
    requires NoClashesNear(env, src, dst, r) && KindsFrom(src, dst, dst')
    ensures NoClashesNear(env, src, dst', r)
  {
  }

  lemma SourceAncestors(src: Fs, p: Path)
    requires IsTree(src) && p in src
    ensures forall q | q != [] && Under(q, p) && q != p :: q in src && src[q].Dir?
  {
    forall q | q != [] && Under(q, p) && q != p ensures q in src && src[q].Dir? {
      AncestorIsDir(src, q, p);
    }
  }

  lemma SyncDirKinds(env: Env, src: Fs, m: Mirror, p: Path)
    requires IsTree(src) && IsTree(m.dst) && p in src && src[p].Dir?
    ensures KindsFrom(src, m.dst, SyncDir(env, m, p, src[p]).m.dst)
  {
    SourceAncestors(src, p);
    MkdirAllMeaning(m.dst, p, Created(env, src[p].perm));
  }

  lemma CopyRelKinds(env: Env, src: Fs, m: Mirror, p: Path)
    requires IsTree(src) && IsTree(m.dst) && p in src && src[p].File? && p != []
    ensures KindsFrom(src, m.dst, CopyRel(env, m, p, src[p]).m.dst)
  {
    SourceAncestors(src, p);
    var perm := Created(env, PARENT_PERM);
    forall q | Under(q, Parent(p)) ensures Under(q, p) && q != p { UnderParent(q, p); }
    MkdirAllMeaning(m.dst, Parent(p), perm);
  }

  lemma VisitKinds(env: Env, src: Fs, m: Mirror, p: Path)
    requires IsTree(src) && IsTree(m.dst) && p in src && p != []
    ensures KindsFrom(src, m.dst, Visit(env, src, m, p, true).m.dst)
  {
    if src[p].Dir? {
      SyncDirKinds(env, src, m, p);
    } else if src[p].File? {
      CopyRelKinds(env, src, m, p);
    }
  }

  lemma {:induction false} VisitAllKinds(env: Env, src: Fs, m: Mirror, ps: seq<Path>)
    requires Setting(env, src) && Coherent(m) && forall p | p in ps :: p in src && p != []
    ensures KindsFrom(src, m.dst, VisitAll(env, src, m, ps, true).m.dst)
    decreases |ps|
  {
    hide Visit;
    if ps != [] {
      var o := Visit(env, src, m, ps[0], true);
      VisitGood(env, src, m, ps[0], true);
      VisitKinds(env, src, m, ps[0]);
      if o.ok {
        VisitAllKinds(env, src, o.m, ps[1..]);
        KindsTransitive(src, m.dst, o.m.dst, VisitAll(env, src, o.m, ps[1..], true).m.dst);
      }
    }
  }

  lemma SyncRelKinds(env: Env, src: Fs, m: Mirror, p: Path)
    requires Setting(env, src) && Coherent(m) && p != []
    ensures KindsFrom(src, m.dst, SyncRel(env, src, m, p).m.dst)
  {
    if !env.excluded(p) && LookUp(src, p).Found? {
      if src[p].Dir? { SyncDirKinds(env, src, m, p); }
      else if src[p].File? { CopyRelKinds(env, src, m, p); }
    }
  }

  lemma SyncTreeKinds(env: Env, src: Fs, m: Mirror, p: Path)
    requires Setting(env, src) && Coherent(m) && p != []
    ensures KindsFrom(src, m.dst, SyncTree(env, src, m, p).m.dst)
  {
    if IsTreeDir(env, src, p) {
      TreeVisitsMeaning(env, src, p);
      var ps := TreeVisits(env, src, p);
      var o := VisitAll(env, src, m, ps, true);
      VisitAllKinds(env, src, m, ps);
      VisitAllGood(env, src, m, ps, true, p);
      PruneByStateGood(env, o.m, p, Elems(ps));
      KindsTransitive(src, m.dst, o.m.dst, WithoutDoomed(env, o.m, p, Elems(ps)).dst);
    } else {
      SyncRelKinds(env, src, m, p);
    }
  }

  // ----- without a clash nearby a tree syncs -----

  lemma AncestorsClear(env: Env, src: Fs, dst: Fs, r: Path, p: Path)
    requires IsTree(src) && IsTree(dst) && NoClashesNear(env, src, dst, r) && Included(env, src, p) && Under(r, p)
    ensures forall q | q in dst && Under(q, p) && q != p :: dst[q].Dir?
  {
    forall q | q in dst && Under(q, p) && q != p ensures dst[q].Dir? {
      AncestorIsDir(src, q, p);
      IncludedAncestor(env, src, q, p);
      assert Under(r, q) || Under(q, r);
    }
  }

  lemma VisitClear(env: Env, src: Fs, m: Mirror, r: Path, p: Path)
    requires Setting(env, src) && Coherent(m) && NoClashesNear(env, src, m.dst, r)
    requires Included(env, src, p) && Under(r, p) && p != []
    ensures Visit(env, src, m, p, true).ok
  {
    AncestorsClear(env, src, m.dst, r, p);
    if src[p].Dir? {
      MkdirAllMeaning(m.dst, p, Created(env, src[p].perm));
    } else if src[p].File? {
      forall q | Under(q, Parent(p)) ensures Under(q, p) && q != p { UnderParent(q, p); }
      MkdirAllMeaning(m.dst, Parent(p), Created(env, PARENT_PERM));
    } else {
      forall k: nat | k < |p| && p[..k] in m.dst ensures m.dst[p[..k]].Dir? {
        assert Under(p[..k], p);
      }
    }
  }

  lemma {:induction false} VisitAllClear(env: Env, src: Fs, m: Mirror, r: Path, ps: seq<Path>)
    requires Setting(env, src) && Coherent(m) && NoClashesNear(env, src, m.dst, r)
    requires forall p | p in ps :: Included(env, src, p) && Under(r, p) && p != []
    ensures VisitAll(env, src, m, ps, true).ok
    decreases |ps|
  {
    hide Visit;
    if ps != [] {
      assert Included(env, src, ps[0]);
      var o := Visit(env, src, m, ps[0], true);
      VisitClear(env, src, m, r, ps[0]);
      VisitGood(env, src, m, ps[0], true);
      VisitKinds(env, src, m, ps[0]);
      KindsKeepNoClashes(env, src, m.dst, o.m.dst, r);
      VisitAllClear(env, src, o.m, r, ps[1..]);
    }
  }

  lemma SyncRelClear(env: Env, src: Fs, m: Mirror, p: Path)
    requires Setting(env, src) && Closed(env) && Coherent(m) && NoClashesNear(env, src, m.dst, p) && ValidPath(p)
    ensures SyncRel(env, src, m, p).ok <==> env.excluded(p) || !LookUp(src, p).NotDirectory?
  {
    RemoveGood(env, src, m, p);
    if !env.excluded(p) && LookUp(src, p).Found? && Mirrored(src[p]) {
      FoundIsIncluded(env, src, p);
      VisitClear(env, src, m, p, p);
    }
  }

  /** Without a clash on the way or below, syncing a tree fails only when something on the way is not a directory. */
  lemma SyncTreeClear(env: Env, src: Fs, m: Mirror, p: Path)
    requires Setting(env, src) && Closed(env) && Coherent(m) && NoClashesNear(env, src, m.dst, p) && ValidPath(p)
    ensures SyncTree(env, src, m, p).ok <==> env.excluded(p) || !LookUp(src, p).NotDirectory?
  {
    if IsTreeDir(env, src, p) {
      TreeVisitsMeaning(env, src, p);
      var ps := TreeVisits(env, src, p);
      VisitAllClear(env, src, m, p, ps);
      VisitAllGood(env, src, m, ps, true, p);
      PruneByStateGood(env, VisitAll(env, src, m, ps, true).m, p, Elems(ps));
    } else {
      SyncRelClear(env, src, m, p);
    }
  }

  // ----- the queue -----

  /** What can be checked of the queued trees before they are flushed. */
  ghost predicate Flushable(env: Env, src: Fs, dst: Fs, entries: seq<Entry>) {
    forall e | e in entries && e.tree ::
      && e.rel != [] && (env.excluded(e.rel) || !LookUp(src, e.rel).NotDirectory?)
      && NoClashesNear(env, src, dst, e.rel)
  }

  lemma {:induction false} TreesSucceedClear(env: Env, src: Fs, m: Mirror, entries: seq<Entry>)
    requires Setting(env, src) && Closed(env) && Coherent(m)
    requires ValidEntries(entries) && Flushable(env, src, m.dst, entries)
    ensures TreesSucceed(env, src, m, entries)
    decreases |entries|
  {
    hide SyncTree;
    hide SyncRel;
    hide NoClashesNear;
    if entries != [] {
      var e, rest := entries[0], entries[1..];
      FlushOneGood(env, src, m, e);
      SyncTreeKinds(env, src, m, e.rel);
      SyncRelKinds(env, src, m, e.rel);
      if e.tree { SyncTreeClear(env, src, m, e.rel); }
      var m1 := FlushOne(env, src, m, e).m;
      forall x | x in rest && x.tree ensures NoClashesNear(env, src, m1.dst, x.rel) {
        assert x in entries;
        KindsKeepNoClashes(env, src, m.dst, m1.dst, x.rel);
      }
      TreesSucceedClear(env, src, m1, rest);
    }
  }

  lemma {:induction false} CollapseFromSelects(kept: seq<Entry>, rest: seq<Entry>)
    requires forall k | k in kept :: k.rel != []
    requires forall k | k in rest :: k.rel != []
    ensures forall e | e in CollapseFrom(kept, rest) :: e in kept || e in rest
    decreases |rest|
  {
    if rest != [] {
      CollapseFromSelects(if Covered(kept, rest[0]) then kept else kept + [rest[0]], rest[1..]);
    }
  }

  /**
    Where source and backup agree on what is a directory on the way to, at and below
    the queued trees, and each of these can be looked up, collapsing the queue changes
    nothing: all of it can be checked before the flush.
   */
  lemma FlushCollapsedWithoutClashes(env: Env, src: Fs, m: Mirror, entries: seq<Entry>)
    requires Setting(env, src) && Closed(env) && Coherent(m)
    requires ValidEntries(entries) && DistinctPaths(entries) && Flushable(env, src, m.dst, entries)
    ensures Flush(env, src, m, Collapse(entries)) == Flush(env, src, m, SortEntries(entries))
  {
    hide NoClashesNear;
    CollapseFromSelects([], SortEntries(entries));
    TreesSucceedClear(env, src, m, Collapse(entries));
    FlushCollapsed(env, src, m, entries);
  }

  // ----- and where a tree fails -----

  lemma ClashStaysOnce(env: Env, src: Fs, m: Mirror, p: Path, q: Path)
    requires Setting(env, src) && Coherent(m) && p in src && p != [] && Clash(src, m.dst, q)
    ensures var o := Visit(env, src, m, p, true); Clash(src, o.m.dst, q) && (p == q ==> !o.ok)
  {
    VisitGood(env, src, m, p, true);
    if Under(p, q) && p != q {
      AncestorIsDir(src, p, q);
      MkdirAllMeaning(m.dst, p, Created(env, src[p].perm));
    } else if p == q {
      if src[p].Dir? {
        assert !StateMatches(m.cache, p, StateOf(src[p]));
      } else {
        assert !FileMetadataMatches(env, m.dst, p, src[p]);
        MkdirAllMeaning(m.dst, Parent(p), Created(env, PARENT_PERM));
      }
    }
  }

  lemma {:induction false} ClashFails(env: Env, src: Fs, m: Mirror, ps: seq<Path>, q: Path)
    requires Setting(env, src) && Coherent(m) && Clash(src, m.dst, q)
    requires forall p | p in ps :: p in src && p != []
    ensures var o := VisitAll(env, src, m, ps, true); Clash(src, o.m.dst, q) && (q in ps ==> !o.ok)
    decreases |ps|
  {
    hide Visit;
    if ps != [] {
      ClashStaysOnce(env, src, m, ps[0], q);
      VisitGood(env, src, m, ps[0], true);
      if Visit(env, src, m, ps[0], true).ok {
        ClashFails(env, src, Visit(env, src, m, ps[0], true).m, ps[1..], q);
      }
    }
  }

  /** An included path below the tree that clashes makes syncing the tree fail, and goes on clashing. */
  lemma ClashFailsTree(env: Env, src: Fs, m: Mirror, r: Path, q: Path)
    requires Setting(env, src) && Closed(env) && ValidPath(r) && Coherent(m) && IsTreeDir(env, src, r)
    requires Under(r, q) && Included(env, src, q) && Clash(src, m.dst, q)
    ensures forall p | p in TreeVisits(env, src, r) :: p in src && p != []
    ensures var o := SyncTree(env, src, m, r);
            !o.ok && Clash(src, o.m.dst, q) && o == VisitAll(env, src, m, TreeVisits(env, src, r), true)
  {
    TreeVisitsMeaning(env, src, r);
    ClashFails(env, src, m, TreeVisits(env, src, r), q);
  }
}
