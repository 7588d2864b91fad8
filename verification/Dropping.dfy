/** The exact condition under which queues may be collapsed, stated before anything is flushed. */
module Dropping {

  import opened Paths
  import opened FileTree
  import opened Wrappers
  import opened Walk
  import opened Mirroring
  import opened MirrorFacts
  import opened Reconciling
  import opened Settling
  import opened Collapsing
  import opened Clashing
  import opened Covering
  import opened Trusting
  import opened Succeeding
  import opened Stalling

  // ----- a droppable tree, once flushed, leaves nothing to do -----

  lemma SettledIsStill(env: Env, src: Fs, m: Mirror, r: Path)
    requires IsTree(src) && Settled(env, src, m, r)
    ensures Still(env, src, m, r)
  {
    forall p, x | Under(r, p) && x in m.cache && Under(p, x) ensures !Removable(env, src, p) {
      assert Under(r, x) && Included(env, src, x);
      if Removable(env, src, p) { NothingIncluded(env, src, p, x); }
    }
  }

  lemma {:induction false} ClearWalk(env: Env, src: Fs, m: Mirror, ps: seq<Path>)
    requires Setting(env, src) && Coherent(m)
    requires forall p | p in ps :: p in src && p != [] && Mirrored(src[p]) && Clear(src, m.dst, p)
    ensures VisitAll(env, src, m, ps, true).ok
    decreases |ps|
  {
    hide Visit;
    hide Coherent;
    hide Clear;
    if ps != [] {
      assert ps[0] in ps;
      OneVisit(env, src, m, ps[0]);
      forall p | p in ps[1..] ensures p in ps { }
      ClearWalk(env, src, Visit(env, src, m, ps[0], true).m, ps[1..]);
    }
  }

  lemma ClearTreeSyncs(env: Env, src: Fs, m: Mirror, r: Path)
    requires OrdinaryRoot(env, src, r) && Coherent(m) && LookUp(src, r).Found? && AllClear(env, src, m.dst, r)
    requires !Removable(env, src, r)
    ensures SyncTree(env, src, m, r).ok
  {
    hide Included;
    hide Clear;
    hide VisitAll;
    if IsTreeDir(env, src, r) {
      VisitsMirrored(env, src, r);
      var ps := TreeVisits(env, src, r);
      ClearWalk(env, src, m, ps);
      VisitAllGood(env, src, m, ps, true, r);
      PruneByStateGood(env, VisitAll(env, src, m, ps, true).m, r, Elems(ps));
    } else {
      LeafTree(env, src, m, r);
    }
  }

  lemma RemovedIsStill(env: Env, src: Fs, m: Mirror, r: Path)
    requires Setting(env, src) && Coherent(m) && Removable(env, src, r)
    ensures Still(env, src, SyncTree(env, src, m, r).m, r)
  {
    RemoveGood(env, src, m, r);
    var m1 := SyncTree(env, src, m, r).m;
    assert m1 == RemoveKnownBackupPath(env, m, r).m;
    forall x | Under(r, x) ensures x !in m1.cache && !Included(env, src, x) { NothingIncluded(env, src, r, x); }
  }

  lemma TreeTurn(env: Env, src: Fs, m: Mirror, r: Path)
    requires OrdinaryRoot(env, src, r) && Coherent(m) && Droppable(env, src, m, r)
    ensures Still(env, src, SyncTree(env, src, m, r).m, r)
  {
    hide SyncTree;
    hide Coherent;
    hide Clear;
    hide Included;
    hide Ordinary;
    if Removable(env, src, r) {
      RemovedIsStill(env, src, m, r);
    } else if LookUp(src, r).Found? && AllClear(env, src, m.dst, r) {
      ClearTreeSyncs(env, src, m, r);
      SyncTreeSettles(env, src, m, r);
      SettledIsStill(env, src, SyncTree(env, src, m, r).m, r);
    } else {
      FailedIsStill(env, src, m, r);
    }
  }

  lemma LostStays(env: Env, src: Fs, r: Path, a: Cache, b: Cache)
    requires IsTree(src) && forall x | Under(r, x) && !Included(env, src, x) :: x in a <==> x in b
    ensures NothingLost(env, src, a, r) <==> NothingLost(env, src, b, r)
  {
    hide Included;
    forall p, x | Under(r, p) && Under(p, x) && Removable(env, src, p) ensures x in a <==> x in b {
      NothingIncluded(env, src, p, x);
    }
  }

  lemma FailedIsStill(env: Env, src: Fs, m: Mirror, r: Path)
    requires OrdinaryRoot(env, src, r) && Coherent(m) && !Removable(env, src, r)
    requires !(LookUp(src, r).Found? && AllClear(env, src, m.dst, r))
    ensures Still(env, src, SyncTree(env, src, m, r).m, r) <==> NothingLost(env, src, m.cache, r) && NothingLeft(env, src, m, r)
  {
    hide SyncTree;
    hide Coherent;
    hide Clear;
    hide Included;
    hide Removable;
    hide NothingLost;
    var m1 := SyncTree(env, src, m, r).m;
    if IsTreeDir(env, src, r) {
      hide ReachedIn;
      forall x
        ensures Unmatched(src, m1, x) <==> Unmatched(src, m, x) && !ReachedIn(src, m.dst, TreeVisits(env, src, r), x)
        ensures !Included(env, src, x) ==> (x in m1.cache <==> x in m.cache)
        ensures forall q :: Clear(src, m1.dst, q) <==> Clear(src, m.dst, q)
      {
        FailedTree(env, src, m, r, x);
      }
      LostStays(env, src, r, m1.cache, m.cache);
    } else {
      LeafTree(env, src, m, r);
      assert m1 == m by { assert r in [r]; }
      forall p | Under(r, p) && Included(env, src, p) ensures !ReachedIn(src, m.dst, [r], p) { assert [r][0] == r; }
    }
  }

  // ----- other entries do not change that -----

  /** Inside `r` and on the way to it nothing has changed that matters. */
  ghost predicate SameFor(src: Fs, m: Mirror, m': Mirror, r: Path) {
    && (forall x | Under(r, x) :: (x in m.cache <==> x in m'.cache) && (x in m.cache ==> m.cache[x] == m'.cache[x]))
    && (forall x | x != [] && (Under(x, r) || Under(r, x)) :: Clash(src, m'.dst, x) <==> Clash(src, m.dst, x))
  }

  lemma SameClear(src: Fs, m: Mirror, m': Mirror, r: Path, q: Path)
    requires SameFor(src, m, m', r) && Under(r, q)
    ensures Clear(src, m'.dst, q) <==> Clear(src, m.dst, q)
  {
    hide Clash;
    assert forall x | Under(x, q) :: Under(x, r) || Under(r, x);
  }

  lemma SameStill(env: Env, src: Fs, m: Mirror, m': Mirror, r: Path)
    requires SameFor(src, m, m', r) && Still(env, src, m, r)
    ensures Still(env, src, m', r)
  {
    hide Clear;
    hide Included;
    hide Removable;
    forall p | Under(r, p) ensures Clear(src, m'.dst, p) <==> Clear(src, m.dst, p) { SameClear(src, m, m', r, p); }
    forall p, x | Under(r, p) && Under(p, x) ensures x in m'.cache <==> x in m.cache { assert Under(r, x); }
  }

  lemma SameDroppable(env: Env, src: Fs, m: Mirror, m': Mirror, r: Path)
    requires OrdinaryRoot(env, src, r) && SameFor(src, m, m', r) && Droppable(env, src, m, r)
    ensures Droppable(env, src, m', r)
  {
    hide Clear;
    hide Included;
    hide Removable;
    hide ReachedIn;
    var ps := TreeVisits(env, src, r);
    VisitsUnder(env, src, r);
    forall p | Under(r, p) ensures Clear(src, m'.dst, p) <==> Clear(src, m.dst, p) { SameClear(src, m, m', r, p); }
    forall p ensures ReachedIn(src, m.dst, ps, p) <==> ReachedIn(src, m'.dst, ps, p) { ReachedSame(src, m.dst, m'.dst, ps, p); }
    forall p, x | Under(r, p) && Under(p, x) ensures x in m'.cache <==> x in m.cache { assert Under(r, x); }
  }

  lemma VisitsUnder(env: Env, src: Fs, r: Path)
    requires IsTree(src)
    ensures forall q | q in TreeVisits(env, src, r) :: Under(r, q)
  {
    VisitsMeaning(src, Skipped(env, src), r);
  }

  lemma FlushOneKinds(env: Env, src: Fs, m: Mirror, e: Entry)
    requires Setting(env, src) && Coherent(m) && e.rel != []
    ensures KindsFrom(src, m.dst, FlushOne(env, src, m, e).m.dst)
  {
    SyncRelKinds(env, src, m, e.rel);
    SyncTreeKinds(env, src, m, e.rel);
  }

  lemma UnrelatedSame(env: Env, src: Fs, m: Mirror, e: Entry, r: Path)
    requires Setting(env, src) && Coherent(m) && e.rel != [] && Unrelated(r, e.rel)
    ensures SameFor(src, m, FlushOne(env, src, m, e).m, r)
  {
    hide FlushOne;
    hide Coherent;
    hide NoAlias;
    hide IsTree;
    FlushOneGood(env, src, m, e);
    FlushOneKinds(env, src, m, e);
    forall x | Under(x, r) || Under(r, x) ensures !Under(e.rel, x) { }
  }

  /** An entry for a directory on the way only makes that directory. */
  lemma AncestorSame(env: Env, src: Fs, m: Mirror, a: Path, r: Path)
    requires Setting(env, src) && Coherent(m) && a != [] && a < r && Included(env, src, a) && src[a].Dir?
    ensures SameFor(src, m, SyncRel(env, src, m, a).m, r)
  {
    IncludedIsFound(env, src, a);
    OneVisit(env, src, m, a);
    assert SyncRel(env, src, m, a) == Visit(env, src, m, a, true);
  }

  lemma FoundAncestor(env: Env, src: Fs, a: Path, r: Path)
    requires Setting(env, src) && Closed(env) && ValidPath(r) && a != [] && a < r
    requires !Removable(env, src, r) && LookUp(src, r).Found?
    ensures Included(env, src, a) && src[a].Dir?
  {
    FoundIsIncluded(env, src, r);
    IncludedAncestor(env, src, a, r);
    AncestorIsDir(src, a, r);
  }

  /** On something above `r`, a single sync adds no record below it. */
  lemma AddsNoRecord(env: Env, src: Fs, m: Mirror, a: Path, r: Path, x: Path)
    requires a < r && Under(r, x) && x in SyncRel(env, src, m, a).m.cache
    ensures x in m.cache
  {
  }

  lemma DroppableStays(env: Env, src: Fs, m: Mirror, e: Entry, r: Path)
    requires OrdinaryRoot(env, src, r) && Coherent(m) && e.rel != [] && !Under(r, e.rel) && !(e.tree && Under(e.rel, r))
    requires Droppable(env, src, m, r)
    ensures Droppable(env, src, FlushOne(env, src, m, e).m, r)
  {
    hide Removable;
    hide SyncRel;
    hide SyncTree;
    hide NothingLeft;
    hide AllClear;
    hide Coherent;
    hide Included;
    var m' := FlushOne(env, src, m, e).m;
    if Removable(env, src, r) {
    } else if Unrelated(r, e.rel) {
      UnrelatedSame(env, src, m, e, r);
      SameDroppable(env, src, m, m', r);
    } else if LookUp(src, r).Found? {
      FoundAncestor(env, src, e.rel, r);
      AncestorSame(env, src, m, e.rel, r);
      SameDroppable(env, src, m, m', r);
    } else {
      forall x | Under(r, x) && x in m'.cache ensures x in m.cache { AddsNoRecord(env, src, m, e.rel, r, x); }
      BehindFile(env, src, m', r);
    }
  }

  lemma BehindFile(env: Env, src: Fs, m: Mirror, r: Path)
    requires IsTree(src) && r != [] && !Removable(env, src, r) && !LookUp(src, r).Found?
    ensures NothingLeft(env, src, m, r)
  {
    forall p | Under(r, p) ensures !Included(env, src, p) { NothingIncluded(env, src, r, p); }
  }

  // ----- whole queues -----

  ghost predicate KeptStill(env: Env, src: Fs, m: Mirror, kept: seq<Entry>) {
    forall k | k in kept && k.tree :: Still(env, src, m, k.rel)
  }

  ghost predicate OrdinaryTrees(env: Env, src: Fs, entries: seq<Entry>) {
    forall k | k in entries && k.tree :: OrdinaryRoot(env, src, k.rel)
  }

  lemma FlushOneKeepsStill(env: Env, src: Fs, m: Mirror, kept: seq<Entry>, e: Entry)
    requires Setting(env, src) && Coherent(m) && KeptStill(env, src, m, kept) && OrdinaryTrees(env, src, [e])
    requires Before(kept, [e]) && !Covered(kept, e) && (e.tree ==> Droppable(env, src, m, e.rel))
    ensures KeptStill(env, src, FlushOne(env, src, m, e).m, kept + [e])
  {
    hide Still;
    hide Droppable;
    hide Coherent;
    hide OrdinaryRoot;
    var m' := FlushOne(env, src, m, e).m;
    assert e in [e];
    forall k | k in kept + [e] && k.tree ensures Still(env, src, m', k.rel) {
      if k in kept {
        KeptUnrelated(kept, k, e);
        UnrelatedSame(env, src, m, e, k.rel);
        SameStill(env, src, m, m', k.rel);
      } else {
        TreeTurn(env, src, m, e.rel);
      }
    }
  }

  lemma KeptUnrelated(kept: seq<Entry>, k: Entry, e: Entry)
    requires Before(kept, [e]) && !Covered(kept, e) && k in kept && k.tree
    ensures e.rel != [] && Unrelated(k.rel, e.rel)
  {
    assert e in [e];
    StringUnderIsComponentUnder(k.rel, e.rel);
    SortedApart(k.rel, e.rel);
  }

  lemma CoveredDoesNothing(env: Env, src: Fs, m: Mirror, kept: seq<Entry>, e: Entry)
    requires Setting(env, src) && Coherent(m) && KeptStill(env, src, m, kept) && OrdinaryTrees(env, src, kept)
    requires Before(kept, [e]) && Covered(kept, e)
    ensures FlushOne(env, src, m, e).m == m
  {
    hide FlushOne;
    hide Still;
    var k :| k in kept && k.tree && StringUnder(Render(k.rel), Render(e.rel));
    assert e in [e];
    StringUnderIsComponentUnder(k.rel, e.rel);
    FlushOneStill(env, src, m, k.rel, e);
  }

  /** The trees still to come may be dropped into, whatever is flushed before them. */
  lemma RestDroppable(env: Env, src: Fs, m: Mirror, all: seq<Entry>, n: nat)
    requires Setting(env, src) && Coherent(m) && Ascending(all) && Uncovered(all) && OrdinaryTrees(env, src, all)
    requires n < |all|
    requires forall e | e in all[n..] && e.tree :: Droppable(env, src, m, e.rel)
    ensures forall e | e in all[n + 1..] && e.tree :: Droppable(env, src, FlushOne(env, src, m, all[n]).m, e.rel)
  {
    hide Droppable;
    hide FlushOne;
    hide OrdinaryRoot;
    hide Coherent;
    forall e | e in all[n + 1..] && e.tree ensures Droppable(env, src, FlushOne(env, src, m, all[n]).m, e.rel) {
      var j :| n + 1 <= j < |all| && all[j] == e;
      assert e in all && all[n..][j - n] == e;
      SortedApart(all[n].rel, e.rel);
      DroppableStays(env, src, m, all[n], e.rel);
    }
  }

  lemma {:induction false} QueueFrom(env: Env, src: Fs, m: Mirror, kept: seq<Entry>, rest: seq<Entry>, all: seq<Entry>)
    requires Setting(env, src) && Coherent(m) && Before(kept, rest) && Ascending(rest) && KeptStill(env, src, m, kept)
    requires all == CollapseFrom(kept, rest) && kept <= all && Ascending(all) && Uncovered(all)
    requires OrdinaryTrees(env, src, all)
    requires forall e | e in all[|kept|..] && e.tree :: Droppable(env, src, m, e.rel)
    ensures Flush(env, src, m, all[|kept|..]) == Flush(env, src, m, rest)
    decreases |rest|
  {
    hide FlushOne;
    hide Droppable;
    hide KeptStill;
    hide Coherent;
    hide OrdinaryRoot;
    hide Uncovered;
    if rest == [] {
      assert all[|kept|..] == [];
    } else {
      var e := rest[0];
      assert Before(kept, [e]);
      hide Before;
      hide Covered;
      if Covered(kept, e) {
        BeforeRest(kept, rest);
        assert OrdinaryTrees(env, src, kept) by { assert forall k | k in kept :: k in all; }
        CoveredDoesNothing(env, src, m, kept, e);
        QueueFrom(env, src, m, kept, rest[1..], all);
      } else {
        CollapseKeeps(kept, rest);
        KeptNext(env, src, m, kept, e, all);
        BeforeStep(kept, rest);
        QueueFrom(env, src, FlushOne(env, src, m, e).m, kept + [e], rest[1..], all);
      }
    }
  }

  lemma KeptNext(env: Env, src: Fs, m: Mirror, kept: seq<Entry>, e: Entry, all: seq<Entry>)
    requires Setting(env, src) && Coherent(m) && Before(kept, [e]) && !Covered(kept, e) && KeptStill(env, src, m, kept)
    requires kept + [e] <= all && Ascending(all) && Uncovered(all) && OrdinaryTrees(env, src, all)
    requires forall x | x in all[|kept|..] && x.tree :: Droppable(env, src, m, x.rel)
    ensures var m' := FlushOne(env, src, m, e).m;
            && Coherent(m') && KeptStill(env, src, m', kept + [e])
            && forall x | x in all[|kept + [e]|..] && x.tree :: Droppable(env, src, m', x.rel)
  {
    hide FlushOne;
    hide Droppable;
    hide KeptStill;
    hide Coherent;
    hide OrdinaryRoot;
    assert all[|kept|] == e && e in all && all[|kept|..][0] == e;
    assert e in [e] && OrdinaryTrees(env, src, [e]);
    FlushOneGood(env, src, m, e);
    FlushOneKeepsStill(env, src, m, kept, e);
    RestDroppable(env, src, m, all, |kept|);
  }

  /** A queue whose kept trees are all droppable, failing or not, may be collapsed. */
  lemma FlushCollapsedDroppable(env: Env, src: Fs, m: Mirror, entries: seq<Entry>)
    requires Setting(env, src) && Coherent(m) && ValidEntries(entries) && DistinctPaths(entries)
    requires OrdinaryTrees(env, src, Collapse(entries))
    requires forall e | e in Collapse(entries) && e.tree :: Droppable(env, src, m, e.rel)
    ensures Flush(env, src, m, Collapse(entries)) == Flush(env, src, m, SortEntries(entries))
  {
    hide Droppable;
    hide OrdinaryRoot;
    SortAscending(entries);
    CollapsedShape([], SortEntries(entries));
    assert Collapse(entries)[0..] == Collapse(entries);
    QueueFrom(env, src, m, [], SortEntries(entries), Collapse(entries));
  }

  // ----- and only then -----

  lemma LostGoes(env: Env, src: Fs, m: Mirror, p: Path, x: Path)
    requires Setting(env, src) && Coherent(m) && Removable(env, src, p) && x in m.cache && Under(p, x)
    ensures x !in SyncRel(env, src, m, p).m.cache
  {
    RemoveGood(env, src, m, p);
  }

  lemma LeftIsSynced(env: Env, src: Fs, m: Mirror, p: Path)
    requires Setting(env, src) && Coherent(m) && p != [] && Included(env, src, p) && Unmatched(src, m, p)
    requires Clear(src, m.dst, p)
    ensures SyncRel(env, src, m, p).m != m
  {
    IncludedIsFound(env, src, p);
    OneVisit(env, src, m, p);
    assert SyncRel(env, src, m, p) == Visit(env, src, m, p, true);
  }

  /** Where something is left to do, some single path has it to do. */
  lemma NotStill(env: Env, src: Fs, m: Mirror, r: Path) returns (p: Path)
    requires Setting(env, src) && Coherent(m) && r != [] && !Still(env, src, m, r)
    ensures Under(r, p) && SyncRel(env, src, m, p).m != m && (p in src || exists x :: x in m.cache && Under(p, x))
  {
    hide SyncRel;
    if !NothingLost(env, src, m.cache, r) {
      var x;
      p, x :| Under(r, p) && x in m.cache && Under(p, x) && Removable(env, src, p);
      LostGoes(env, src, m, p, x);
    } else {
      p :| Under(r, p) && Included(env, src, p) && Unmatched(src, m, p) && Clear(src, m.dst, p);
      LeftIsSynced(env, src, m, p);
    }
  }

  ghost predicate ValidNames(src: Fs, cache: Cache) {
    (forall p | p in src :: ValidPath(p)) && (forall x | x in cache :: ValidPath(x))
  }

  lemma NamesStayValid(env: Env, src: Fs, m: Mirror, r: Path, x: Path)
    requires OrdinaryRoot(env, src, r) && Coherent(m) && ValidNames(src, m.cache) && !Droppable(env, src, m, r)
    requires x in SyncTree(env, src, m, r).m.cache
    ensures ValidPath(x)
  {
    hide SyncTree;
    hide Included;
    hide Clear;
    if IsTreeDir(env, src, r) {
      FailedTree(env, src, m, r, x);
      if Included(env, src, x) { InSource(env, src, x); }
    } else {
      LeafTree(env, src, m, r);
      assert r in [r];
    }
  }

  lemma NotDroppable(env: Env, src: Fs, m: Mirror, r: Path) returns (p: Path)
    requires OrdinaryRoot(env, src, r) && Coherent(m) && ValidNames(src, m.cache) && !Droppable(env, src, m, r)
    ensures ValidPath(p) && Under(r, p)
    ensures var m1 := SyncTree(env, src, m, r).m; SyncRel(env, src, m1, p).m != m1
  {
    hide SyncTree;
    hide SyncRel;
    hide Still;
    hide AllClear;
    hide NothingLost;
    hide NothingLeft;
    var m1 := SyncTree(env, src, m, r).m;
    FailedIsStill(env, src, m, r);
    SyncTreeGood(env, src, m, r);
    p := NotStill(env, src, m1, r);
    if p !in src {
      var x :| x in m1.cache && Under(p, x);
      NamesStayValid(env, src, m, r, x);
      assert forall i | 0 <= i < |p| :: p[i] == x[i];
    }
  }

  /** A tree that is not droppable has an entry below it that may not be dropped. */
  lemma MustStay(env: Env, src: Fs, m: Mirror, r: Path) returns (p: Path)
    requires OrdinaryRoot(env, src, r) && Coherent(m) && ValidNames(src, m.cache) && !Droppable(env, src, m, r)
    ensures var entries := [Entry(r, true), Entry(p, false)];
            && ValidEntries(entries) && DistinctPaths(entries) && Collapse(entries) == [Entry(r, true)]
            && Flush(env, src, m, Collapse(entries)) != Flush(env, src, m, SortEntries(entries))
  {
    hide SyncTree;
    hide SyncRel;
    hide Collapse;
    hide SortEntries;
    p := NotDroppable(env, src, m, r);
    RootDoesNothing(env, src, m, r);
    assert r != p && r < p;
    CollapsedPair(r, p);
    FlushPair(env, src, m, Entry(r, true), Entry(p, false));
  }

  /** Syncing the root of a failed tree once more does nothing. */
  lemma RootDoesNothing(env: Env, src: Fs, m: Mirror, r: Path)
    requires OrdinaryRoot(env, src, r) && Coherent(m) && !Droppable(env, src, m, r)
    ensures var m1 := SyncTree(env, src, m, r).m; SyncRel(env, src, m1, r).m == m1
  {
    hide SyncTree;
    hide Included;
    hide Clear;
    var m1 := SyncTree(env, src, m, r).m;
    SyncTreeGood(env, src, m, r);
    if LookUp(src, r).Found? {
      FoundIsIncluded(env, src, r);
      OneVisit(env, src, m1, r);
      assert SyncRel(env, src, m1, r) == Visit(env, src, m1, r, true);
      RootIsDone(env, src, m, r);
    }
  }

  lemma RootIsDone(env: Env, src: Fs, m: Mirror, r: Path)
    requires OrdinaryRoot(env, src, r) && Coherent(m) && !Droppable(env, src, m, r) && LookUp(src, r).Found?
    ensures var m1 := SyncTree(env, src, m, r).m; !Unmatched(src, m1, r) || !Clear(src, m1.dst, r)
  {
    hide SyncTree;
    hide Clear;
    if IsTreeDir(env, src, r) {
      FailedTree(env, src, m, r, r);
    } else {
      LeafTree(env, src, m, r);
      assert r in [r];
    }
  }

  ghost predicate KeptAmong(entries: seq<Entry>, roots: set<Path>) {
    ValidEntries(entries) && DistinctPaths(entries) && forall e | e in Collapse(entries) && e.tree :: e.rel in roots
  }

  /**
    The queues whose kept trees are among `roots` may all be collapsed exactly when every
    one of these roots is droppable, which can be told before anything is flushed.
   */
  lemma CollapsingExactly(env: Env, src: Fs, m: Mirror, roots: set<Path>)
    requires Setting(env, src) && Coherent(m) && ValidNames(src, m.cache) && forall r | r in roots :: OrdinaryRoot(env, src, r)
    ensures (forall entries | KeptAmong(entries, roots) ::
               Flush(env, src, m, Collapse(entries)) == Flush(env, src, m, SortEntries(entries))) <==>
            forall r | r in roots :: Droppable(env, src, m, r)
  {
    hide Droppable;
    hide OrdinaryRoot;
    hide Collapse;
    hide SortEntries;
    hide Flush;
    if forall r | r in roots :: Droppable(env, src, m, r) {
      forall entries | KeptAmong(entries, roots)
        ensures Flush(env, src, m, Collapse(entries)) == Flush(env, src, m, SortEntries(entries))
      {
        FlushCollapsedDroppable(env, src, m, entries);
      }
    } else {
      var r :| r in roots && !Droppable(env, src, m, r);
      var p := MustStay(env, src, m, r);
      assert KeptAmong([Entry(r, true), Entry(p, false)], roots);
    }
  }
}
