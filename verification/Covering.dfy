/** Where a collapsed queue loses work: a tree that fails, and an entry dropped in its favour. */
module Covering {

  import opened Paths
  import opened FileTree
  import opened Wrappers
  import opened Walk
  import opened Mirroring
  import opened MirrorFacts
  import opened Reconciling
  import opened Settling
  import opened Collapsing
  import opened Clashing

  // ----- the shape of a collapsed queue -----

  /** No tree in the queue stands before something below it. */
  ghost predicate Uncovered(s: seq<Entry>) {
    forall i, j | 0 <= i < j < |s| :: !(s[i].tree && Under(s[i].rel, s[j].rel))
  }

  lemma UncoveredMore(kept: seq<Entry>, e: Entry)
    requires Uncovered(kept) && Before(kept, [e]) && !Covered(kept, e)
    ensures Uncovered(kept + [e])
  {
    forall i | 0 <= i < |kept| ensures !(kept[i].tree && Under(kept[i].rel, e.rel)) {
      assert kept[i] in kept && e in [e];
      StringUnderIsComponentUnder(kept[i].rel, e.rel);
    }
  }

  lemma AscendingMore(kept: seq<Entry>, e: Entry)
    requires Ascending(kept) && Before(kept, [e])
    ensures Ascending(kept + [e])
  {
    forall i | 0 <= i < |kept| ensures StrLess(Render(kept[i].rel), Render(e.rel)) {
      assert kept[i] in kept && e in [e];
    }
  }

  lemma {:induction false} CollapsedShape(kept: seq<Entry>, rest: seq<Entry>)
    requires Ascending(kept) && Ascending(rest) && Before(kept, rest) && Uncovered(kept)
    ensures Ascending(CollapseFrom(kept, rest)) && Uncovered(CollapseFrom(kept, rest))
    decreases |rest|
  {
    if rest != [] {
      var e := rest[0];
      assert Before(kept, [e]);
      if Covered(kept, e) {
        CollapsedShape(kept, rest[1..]);
      } else {
        UncoveredMore(kept, e);
        AscendingMore(kept, e);
        BeforeStep(kept, rest);
        CollapsedShape(kept + [e], rest[1..]);
      }
    }
  }

  /** An entry that has nothing to do with the inside of `r`, or is the tree `r` itself. */
  ghost predicate Outside(e: Entry, r: Path) {
    e == Entry(r, true) || (!Under(r, e.rel) && !(e.tree && Under(e.rel, r)))
  }

  /** Beside a kept tree the collapsed queue holds nothing above it that is a tree and nothing below it. */
  lemma KeptTreeStandsAlone(entries: seq<Entry>, r: Path)
    requires ValidEntries(entries) && DistinctPaths(entries) && Entry(r, true) in Collapse(entries)
    ensures forall e | e in Collapse(entries) :: Outside(e, r)
  {
    SortAscending(entries);
    CollapsedShape([], SortEntries(entries));
    var c := Collapse(entries);
    var i :| 0 <= i < |c| && c[i] == Entry(r, true);
    forall j | 0 <= j < |c| ensures Outside(c[j], r) {
      if j < i {
        SortedApart(c[j].rel, r);
      } else if i < j {
        SortedApart(r, c[j].rel);
      }
    }
  }

  lemma SortedApart(a: Path, b: Path)
    requires a != [] && b != [] && StrLess(Render(a), Render(b))
    ensures !Under(b, a)
  {
    StrLessTotal(Render(a), Render(b));
    if Under(b, a) {
      assert b == a || b < a;
      if b < a { AncestorSortsFirst(b, a); }
    }
  }

  // ----- the collapsed queue keeps the record -----

  /** `p` cannot be in the mirror, and looking it up says so. */
  ghost predicate Lost(env: Env, src: Fs, p: Path) {
    p != [] && !Included(env, src, p) && !LookUp(src, p).NotDirectory?
  }

  lemma {:induction false} LookupBehindFile(src: Fs, p: Path, x: Path, k: nat)
    requires IsTree(src) && x in src && x != [] && x < p && !src[x].Dir? && !src[x].Symlink? && k <= |x|
    ensures LookupFrom(src, p, k).NotDirectory?
    decreases |x| - k
  {
    assert p[..|x|] == x;
    if k < |x| {
      if k > 0 {
        assert p[..k] == x[..k];
        AncestorIsDir(src, x[..k], x);
      }
      LookupBehindFile(src, p, x, k + 1);
    }
  }

  lemma {:induction false} RecordStays(env: Env, src: Fs, m: Mirror, ps: seq<Path>, q: Path)
    requires Setting(env, src) && Coherent(m) && q in m.cache && q !in ps
    requires forall p | p in ps :: p in src && p != [] && (Under(p, q) ==> src[p].Dir?)
    ensures q in VisitAll(env, src, m, ps, true).m.cache
    decreases |ps|
  {
    if ps != [] {
      VisitGood(env, src, m, ps[0], true);
      if src[ps[0]].Dir? { SyncDirGood(env, src, m, ps[0]); }
      var o := Visit(env, src, m, ps[0], true);
      if o.ok {
        forall p | p in ps[1..] ensures p in ps { }
        RecordStays(env, src, o.m, ps[1..], q);
      }
    }
  }

  /** The failing tree leaves the record of a lost path below it. */
  lemma TreeLeavesRecord(env: Env, src: Fs, m: Mirror, r: Path, p: Path, q: Path)
    requires Setting(env, src) && Closed(env) && ValidPath(r) && Coherent(m) && IsTreeDir(env, src, r)
    requires Under(r, q) && Included(env, src, q) && Clash(src, m.dst, q)
    requires Under(r, p) && Lost(env, src, p) && p in m.cache
    ensures p in SyncTree(env, src, m, r).m.cache
  {
    hide VisitAll;
    hide SyncTree;
    hide Included;
    hide Visits;
    hide LookUp;
    ClashFailsTree(env, src, m, r, q);
    TreeVisitsMeaning(env, src, r);
    var ps := TreeVisits(env, src, r);
    forall x | x in ps && Under(x, p) ensures src[x].Dir? {
      AboveLost(env, src, x, p);
    }
    RecordStays(env, src, m, ps, p);
  }

  lemma AboveLost(env: Env, src: Fs, x: Path, p: Path)
    requires IsTree(src) && Included(env, src, x) && x != [] && Under(x, p) && Lost(env, src, p)
    ensures src[x].Dir?
  {
    assert x[..|x|] == x && !src[x].Symlink?;
    assert x < p by { assert x != p; }
    if !src[x].Dir? { LookupBehindFile(src, p, x, 0); }
  }

  /** A directory on the way to `r` is only synced itself. */
  lemma AncestorLeavesRecord(env: Env, src: Fs, m: Mirror, a: Path, r: Path, p: Path, q: Path)
    requires Setting(env, src) && Closed(env) && ValidPath(r) && Coherent(m) && IsTreeDir(env, src, r)
    requires a != [] && a != r && Under(a, r) && Under(r, p) && Under(r, q)
    requires p in m.cache && Clash(src, m.dst, q)
    ensures var o := SyncRel(env, src, m, a); p in o.m.cache && Clash(src, o.m.dst, q)
  {
    FoundIsIncluded(env, src, r);
    AncestorIsDir(src, a, r);
    IncludedAncestor(env, src, a, r);
    IncludedIsFound(env, src, a);
    SyncDirGood(env, src, m, a);
    MkdirAllMeaning(m.dst, a, Created(env, src[a].perm));
  }

  lemma OneEntryLeavesRecord(env: Env, src: Fs, m: Mirror, e: Entry, r: Path, p: Path, q: Path)
    requires Setting(env, src) && Closed(env) && ValidPath(r) && Coherent(m) && IsTreeDir(env, src, r) && e.rel != []
    requires Outside(e, r)
    requires Under(r, q) && Included(env, src, q) && Clash(src, m.dst, q)
    requires Under(r, p) && Lost(env, src, p) && p in m.cache
    ensures var o := FlushOne(env, src, m, e); p in o.m.cache && Clash(src, o.m.dst, q)
  {
    hide SyncTree;
    hide SyncRel;
    FlushOneGood(env, src, m, e);
    if e == Entry(r, true) {
      TreeLeavesRecord(env, src, m, r, p, q);
      ClashFailsTree(env, src, m, r, q);
    } else if Under(e.rel, r) {
      AncestorLeavesRecord(env, src, m, e.rel, r, p, q);
    } else {
      assert !Under(e.rel, p) && !Under(e.rel, q);
    }
  }

  lemma {:induction false} QueueLeavesRecord(env: Env, src: Fs, m: Mirror, entries: seq<Entry>, r: Path, p: Path, q: Path)
    requires Setting(env, src) && Closed(env) && ValidPath(r) && Coherent(m) && IsTreeDir(env, src, r)
    requires forall e | e in entries :: e.rel != [] && Outside(e, r)
    requires Under(r, q) && Included(env, src, q) && Clash(src, m.dst, q)
    requires Under(r, p) && Lost(env, src, p) && p in m.cache
    ensures p in Flush(env, src, m, entries).cache
    decreases |entries|
  {
    hide FlushOne;
    hide Lost;
    if entries != [] {
      OneEntryLeavesRecord(env, src, m, entries[0], r, p, q);
      FlushOneGood(env, src, m, entries[0]);
      QueueLeavesRecord(env, src, FlushOne(env, src, m, entries[0]).m, entries[1..], r, p, q);
    }
  }

  // ----- the whole queue removes it -----

  lemma NeverAdded(env: Env, src: Fs, m: Mirror, e: Entry, p: Path)
    requires Setting(env, src) && Closed(env) && Coherent(m) && ValidPath(e.rel)
    requires !Included(env, src, p) && p !in m.cache
    ensures p !in FlushOne(env, src, m, e).m.cache
  {
    hide VisitAll;
    hide PruneByState;
    hide SyncRel;
    hide Included;
    if e.tree && IsTreeDir(env, src, e.rel) {
      NeverAddedByTree(env, src, m, e.rel, p);
    } else {
      NeverAddedByRel(env, src, m, e.rel, p);
    }
  }

  lemma NeverAddedByRel(env: Env, src: Fs, m: Mirror, x: Path, p: Path)
    requires Setting(env, src) && Closed(env) && ValidPath(x) && !Included(env, src, p) && p !in m.cache
    ensures p !in SyncRel(env, src, m, x).m.cache
  {
    hide Included;
    if !env.excluded(x) && LookUp(src, x).Found? { FoundIsIncluded(env, src, x); }
  }

  lemma NeverAddedByTree(env: Env, src: Fs, m: Mirror, r: Path, p: Path)
    requires Setting(env, src) && Closed(env) && ValidPath(r) && Coherent(m) && IsTreeDir(env, src, r)
    requires !Included(env, src, p) && p !in m.cache
    ensures p !in SyncTree(env, src, m, r).m.cache
  {
    hide Included;
    hide VisitAll;
    hide Visits;
    TreeVisitsMeaning(env, src, r);
    var ps := TreeVisits(env, src, r);
    VisitAllKeeps(env, src, m, ps, p);
    VisitAllGood(env, src, m, ps, true, r);
    PruneByStateGood(env, VisitAll(env, src, m, ps, true).m, r, Elems(ps));
  }

  lemma LostIsForgotten(env: Env, src: Fs, m: Mirror, e: Entry)
    requires Setting(env, src) && Closed(env) && ValidPath(e.rel) && Coherent(m) && Lost(env, src, e.rel)
    ensures e.rel !in FlushOne(env, src, m, e).m.cache
  {
    var p := e.rel;
    if !env.excluded(p) && LookUp(src, p).Found? { FoundIsIncluded(env, src, p); }
    RemoveGood(env, src, m, p);
    assert Under(p, p);
  }

  lemma {:induction false} QueueForgets(env: Env, src: Fs, m: Mirror, entries: seq<Entry>, p: Path)
    requires Setting(env, src) && Closed(env) && Coherent(m) && Lost(env, src, p)
    requires ValidEntries(entries)
    requires p !in m.cache || exists e :: e in entries && e.rel == p
    ensures p !in Flush(env, src, m, entries).cache
    decreases |entries|
  {
    hide FlushOne;
    if entries != [] {
      var e := entries[0];
      if e.rel == p {
        LostIsForgotten(env, src, m, e);
      } else if p !in m.cache {
        NeverAdded(env, src, m, e, p);
      }
      FlushOneGood(env, src, m, e);
      QueueForgets(env, src, FlushOne(env, src, m, e).m, entries[1..], p);
    }
  }

  /**
    A clash below a kept tree makes the tree fail before it prunes. Every recorded path
    that was queued below it and has lost its source is then removed by the whole
    queue, and stays recorded when the queue is collapsed.
   */
  lemma ClashBreaksCollapsing(env: Env, src: Fs, m: Mirror, entries: seq<Entry>, r: Path, p: Path, q: Path)
    requires Setting(env, src) && Closed(env) && Coherent(m) && ValidEntries(entries) && DistinctPaths(entries)
    requires Entry(r, true) in Collapse(entries) && IsTreeDir(env, src, r)
    requires Under(r, q) && Included(env, src, q) && Clash(src, m.dst, q)
    requires Under(r, p) && Lost(env, src, p) && p in m.cache && exists e :: e in entries && e.rel == p
    ensures p in Flush(env, src, m, Collapse(entries)).cache
    ensures p !in Flush(env, src, m, SortEntries(entries)).cache
  {
    hide Flush;
    hide Lost;
    KeptTreeStandsAlone(entries, r);
    CollapseFromSelects([], SortEntries(entries));
    QueueLeavesRecord(env, src, m, Collapse(entries), r, p, q);
    QueueForgets(env, src, m, SortEntries(entries), p);
  }
}
