/** A dry run looks and changes nothing. */
module DryRunning {

  import opened Paths
  import opened FileTree
  import opened Walk
  import opened RecordOrder
  import opened Mirroring
  import opened Collapsing

  lemma VisitDry(env: Env, src: Fs, m: Mirror, p: Path, sweep: bool)
    requires env.dryRun && p in src && p != []
    ensures Visit(env, src, m, p, sweep) == Outcome(m, true)
  {
  }

  lemma {:induction false} VisitAllDry(env: Env, src: Fs, m: Mirror, ps: seq<Path>, sweep: bool)
    requires env.dryRun && forall p | p in ps :: p in src && p != []
    ensures VisitAll(env, src, m, ps, sweep) == Outcome(m, true)
    decreases |ps|
  {
    hide Visit;
    if ps != [] {
      VisitDry(env, src, m, ps[0], sweep);
      VisitAllDry(env, src, m, ps[1..], sweep);
    }
  }

  lemma {:induction false} PruneListDry(env: Env, m: Mirror, root: Path, seen: set<Path>, paths: seq<Path>)
    requires env.dryRun
    ensures PruneList(env, m, root, seen, paths) == Outcome(m, true)
    decreases |paths|
  {
    if paths != [] { PruneListDry(env, m, root, seen, paths[1..]); }
  }

  /** A dry reconcile, deep or light, succeeds and leaves backup and record as they were. */
  lemma ReconcileDry(env: Env, src: Fs, m: Mirror, deep: bool)
    requires env.dryRun && IsTree(src)
    ensures Reconcile(env, src, m, deep) == Outcome(m, true)
  {
    hide VisitAll;
    hide PruneList;
    SourceVisitsInSource(env, src, []);
    VisitAllDry(env, src, m, SourceVisits(env, src), false);
    PruneListDry(env, m, [], Elems(SourceVisits(env, src)), SortedPaths(m.cache.Keys));
  }

  /** So does a dry sync of one path; it fails only where the path cannot be looked up. */
  lemma SyncRelDry(env: Env, src: Fs, m: Mirror, p: Path)
    requires env.dryRun
    ensures SyncRel(env, src, m, p) == Outcome(m, p == [] || env.excluded(p) || !LookUp(src, p).NotDirectory?)
  {
  }

  lemma SyncTreeDry(env: Env, src: Fs, m: Mirror, p: Path)
    requires env.dryRun && IsTree(src)
    ensures SyncTree(env, src, m, p) == Outcome(m, p == [] || env.excluded(p) || !LookUp(src, p).NotDirectory?)
  {
    hide VisitAll;
    hide PruneList;
    hide SyncRel;
    SyncRelDry(env, src, m, p);
    if p != [] && !env.excluded(p) && LookUp(src, p).Found? && LookUp(src, p).node.Dir? {
      SourceVisitsInSource(env, src, p);
      var ps := [p] + Visits(src, Skipped(env, src), p);
      VisitAllDry(env, src, m, ps, true);
      PruneListDry(env, m, p, Elems(ps), SortedPaths(m.cache.Keys));
    }
  }

  /** A dry flush of any queue leaves backup and record as they were. */
  lemma {:induction false} FlushDry(env: Env, src: Fs, m: Mirror, entries: seq<Entry>)
    requires env.dryRun && IsTree(src)
    ensures Flush(env, src, m, entries) == m
    decreases |entries|
  {
    hide SyncRel;
    hide SyncTree;
    if entries != [] {
      SyncRelDry(env, src, m, entries[0].rel);
      SyncTreeDry(env, src, m, entries[0].rel);
      FlushDry(env, src, m, entries[1..]);
    }
  }
}
