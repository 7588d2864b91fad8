/** What single steps and whole walks of the mirror keep and establish. */
module MirrorFacts {

  import opened Paths
  import opened FileTree
  import opened Wrappers
  import opened Walk
  import opened RecordOrder
  import opened Mirroring

  /** The setting in which the mirror is meant to work. */
  ghost predicate Setting(env: Env, src: Fs) {
    !env.dryRun && IsTree(src) && NoAlias(env, src)
  }

  /** Outside `r` the record is untouched, and the backup only gains ancestors of `r`. */
  ghost predicate Framed(m: Mirror, m': Mirror, r: Path) {
    && (forall q :: !Under(r, q) ==> (q in m.cache <==> q in m'.cache))
    && (forall q | q in m.cache && !Under(r, q) :: m.cache[q] == m'.cache[q])
    && (forall q | q in m.dst && !Under(r, q) :: q in m'.dst && m'.dst[q] == m.dst[q])
    && (forall q | q in m'.dst && !Under(r, q) && !Under(q, r) :: q in m.dst)
  }

  lemma FramedTransitive(m: Mirror, m1: Mirror, m2: Mirror, r: Path)
    requires Framed(m, m1, r) && Framed(m1, m2, r)
    ensures Framed(m, m2, r)
  {
  }

  lemma FramedUnder(m: Mirror, m': Mirror, r: Path, p: Path)
    requires Under(r, p) && Framed(m, m', p)
    ensures Framed(m, m', r)
  {
    forall q | !Under(r, q)
      ensures !Under(p, q)
      ensures Under(q, p) ==> Under(q, r)
    {
    }
  }

  /** A new directory has the bits asked for that the umask leaves, and no bit of the umask. */
  lemma CreatedMeaning(env: Env, perm: Perm)
    ensures Created(env, perm) & env.umask == 0
    ensures Created(env, perm) | (perm & env.umask) == perm
  {
    NoMaskedBit(perm, env.umask);
    NoOtherBit(perm, env.umask);
  }

  lemma NoMaskedBit(perm: Perm, mask: Perm)
    ensures (perm & !mask) & mask == 0
  {
  }

  lemma NoOtherBit(perm: Perm, mask: Perm)
    ensures (perm & !mask) | (perm & mask) == perm
  {
  }

  // ----- single steps -----

  lemma SyncDirGood(env: Env, src: Fs, m: Mirror, p: Path)
    requires Setting(env, src) && Coherent(m) && p in src && src[p].Dir?
    ensures var o := SyncDir(env, m, p, src[p]);
            && Coherent(o.m) && Framed(m, o.m, p)
            && (o.ok ==> StateMatches(o.m.cache, p, StateOf(src[p])))
            && (forall q | q != p :: q in o.m.cache <==> q in m.cache)
            && (forall q | q in o.m.dst && q !in m.dst :: Under(q, p))
  {
    var perm := Created(env, src[p].perm);
    MkdirAllMeaning(m.dst, p, perm);
    if MkdirAll(m.dst, p, perm).Some? {
      ExtendedIsTree(m.dst, p, perm, MkdirAll(m.dst, p, perm).value);
    }
  }

  lemma ReplaceGood(env: Env, dst: Fs, p: Path, file: Node, perm: Perm)
    requires IsTree(dst) && Plain(dst) && p != [] && file.File?
    requires Replace(dst, p, file, perm).Some?
    ensures var g := Replace(dst, p, file, perm).value;
            && IsTree(g) && Plain(g) && p in g && g[p] == file
            && (forall q | q in dst && q != p :: q in g && g[q] == dst[q])
            && (forall q | q in g && q !in dst :: Under(q, p))
  {
    MkdirAllMeaning(dst, Parent(p), perm);
    var h := MkdirAll(dst, Parent(p), perm).value;
    ExtendedIsTree(dst, Parent(p), perm, h);
    var g := h[p := file];
    NothingBelow(h, p);
    forall q | q in g
      ensures q != [] && HasDir(g, Parent(q))
    {
      assert q in h ==> HasDir(h, Parent(q));
      UnderParent(Parent(q), q);
      assert q in h ==> !(p < q);
      assert Parent(q) < q;
    }
    forall q | q in g && q !in dst
      ensures Under(q, p)
    {
      UnderParent(q, p);
    }
  }

  lemma CopyRelGood(env: Env, src: Fs, m: Mirror, p: Path)
    requires Setting(env, src) && Coherent(m) && p in src && p != [] && src[p].File?
    ensures var o := CopyRel(env, m, p, src[p]);
            && Coherent(o.m) && Framed(m, o.m, p)
            && (o.ok ==> StateMatches(o.m.cache, p, StateOf(src[p])))
            && (forall q | q != p :: q in o.m.cache <==> q in m.cache)
            && (forall q | q in o.m.dst && q !in m.dst :: Under(q, p))
  {
    var perm := Created(env, PARENT_PERM);
    if StateMatches(m.cache, p, StateOf(src[p])) {
    } else if FileMetadataMatches(env, m.dst, p, src[p]) {
      assert m.dst[p].File?;
    } else if Replace(m.dst, p, src[p], perm).Some? {
      ReplaceGood(env, m.dst, p, src[p], perm);
      ReplacedGood(m, p, src[p], Replace(m.dst, p, src[p], perm).value);
    }
  }

  lemma ReplacedGood(m: Mirror, p: Path, file: Node, g: Fs)
    requires Coherent(m) && IsTree(g) && Plain(g) && file.File? && p in g && g[p] == file
    requires forall q | q in m.dst && q != p :: q in g && g[q] == m.dst[q]
    requires forall q | q in g && q !in m.dst :: Under(q, p)
    ensures var m' := Mirror(g, m.cache[p := StateOf(file)]);
            Coherent(m') && Framed(m, m', p)
  {
    assert Under(p, p);
  }

  lemma RemoveGood(env: Env, src: Fs, m: Mirror, p: Path)
    requires Setting(env, src) && Coherent(m) && p != []
    ensures var o := RemoveBackupPath(env, m, p);
            && Coherent(o.m) && Framed(m, o.m, p)
            && (o.ok ==> forall q | Under(p, q) :: q !in o.m.cache && q !in o.m.dst)
            && (forall q | q in o.m.dst :: q in m.dst)
    ensures HasStateTree(m.cache, p) ==> RemoveBackupPath(env, m, p).ok
    ensures var o := RemoveKnownBackupPath(env, m, p);
            && o.ok && Coherent(o.m) && Framed(m, o.m, p)
            && (forall q | Under(p, q) :: q !in o.m.cache)
  {
    WithoutIsTree(m.dst, p);
    if HasStateTree(m.cache, p) {
      var q :| q in m.cache && Under(p, q);
      forall k: nat | k < |p| && p[..k] in m.dst
        ensures m.dst[p[..k]].Dir?
      {
        AncestorIsDir(m.dst, p[..k], q);
      }
    }
  }

  lemma VisitGood(env: Env, src: Fs, m: Mirror, p: Path, sweep: bool)
    requires Setting(env, src) && Coherent(m) && p in src && p != []
    ensures var o := Visit(env, src, m, p, sweep); Coherent(o.m) && Framed(m, o.m, p)
  {
    if src[p].Dir? { SyncDirGood(env, src, m, p); }
    else if src[p].File? { CopyRelGood(env, src, m, p); }
    else { RemoveGood(env, src, m, p); }
  }

  // ----- walks, path by path -----

  /** The record of `q` is what the source says now; a special file inside a synced tree has no backup. */
  ghost predicate UpToDate(src: Fs, m: Mirror, q: Path)
    requires q in src
  {
    if Mirrored(src[q]) then StateMatches(m.cache, q, StateOf(src[q]))
    else q !in m.cache && q !in m.dst
  }

  lemma VisitEstablishes(env: Env, src: Fs, m: Mirror, p: Path)
    requires Setting(env, src) && Coherent(m) && p in src && p != []
    requires Visit(env, src, m, p, true).ok
    ensures UpToDate(src, Visit(env, src, m, p, true).m, p)
  {
    assert Under(p, p);
    if src[p].Dir? { SyncDirGood(env, src, m, p); }
    else if src[p].File? { CopyRelGood(env, src, m, p); }
    else { RemoveGood(env, src, m, p); }
  }

  /** Visiting one path leaves every other path of the source up to date. */
  lemma VisitKeeps(env: Env, src: Fs, m: Mirror, p: Path, q: Path, sweep: bool)
    requires Setting(env, src) && Coherent(m) && p in src && p != []
    requires q in src && UpToDate(src, m, q)
    ensures UpToDate(src, Visit(env, src, m, p, sweep).m, q)
  {
    VisitGood(env, src, m, p, sweep);
    if Under(q, p) && q != p { AncestorIsDir(src, q, p); }
    if Under(p, q) && q != p { AncestorIsDir(src, p, q); }
    if src[p].Dir? { SyncDirGood(env, src, m, p); }
    else if src[p].File? { CopyRelGood(env, src, m, p); }
    else { RemoveGood(env, src, m, p); }
  }

  /** Visiting one path remembers nothing about others. */
  lemma VisitRemembers(env: Env, src: Fs, m: Mirror, p: Path, q: Path, sweep: bool)
    requires Setting(env, src) && p in src && p != [] && q != p
    requires q in Visit(env, src, m, p, sweep).m.cache
    ensures q in m.cache && Visit(env, src, m, p, sweep).m.cache[q] == m.cache[q]
  {
  }

  lemma {:induction false} VisitAllGood(env: Env, src: Fs, m: Mirror, ps: seq<Path>, sweep: bool, r: Path)
    requires Setting(env, src) && Coherent(m)
    requires forall p | p in ps :: p in src && p != [] && Under(r, p)
    ensures var o := VisitAll(env, src, m, ps, sweep); Coherent(o.m) && Framed(m, o.m, r)
    decreases |ps|
  {
    if ps != [] {
      var o := Visit(env, src, m, ps[0], sweep);
      VisitGood(env, src, m, ps[0], sweep);
      FramedUnder(m, o.m, r, ps[0]);
      if o.ok {
        VisitAllGood(env, src, o.m, ps[1..], sweep, r);
        FramedTransitive(m, o.m, VisitAll(env, src, o.m, ps[1..], sweep).m, r);
      }
    }
  }

  lemma {:induction false} VisitAllKeeps(env: Env, src: Fs, m: Mirror, ps: seq<Path>, q: Path)
    requires Setting(env, src) && Coherent(m)
    requires forall p | p in ps :: p in src && p != []
    ensures var o := VisitAll(env, src, m, ps, true);
            && (q in src && UpToDate(src, m, q) ==> UpToDate(src, o.m, q))
            && (q in src && q in ps && o.ok ==> UpToDate(src, o.m, q))
            && (q !in ps && q in o.m.cache ==> q in m.cache && o.m.cache[q] == m.cache[q])
    decreases |ps|
  {
    if ps != [] {
      var o := Visit(env, src, m, ps[0], true);
      VisitGood(env, src, m, ps[0], true);
      if q in src && UpToDate(src, m, q) { VisitKeeps(env, src, m, ps[0], q, true); }
      if q != ps[0] && q in o.m.cache { VisitRemembers(env, src, m, ps[0], q, true); }
      if o.ok {
        VisitEstablishes(env, src, m, ps[0]);
        VisitAllKeeps(env, src, o.m, ps[1..], q);
      }
    }
  }

  // ----- pruning -----

  predicate CutOff(cut: set<Path>, p: Path) {
    exists c :: c in cut && Under(c, p)
  }

  function CutTrees(m: Mirror, cut: set<Path>): Mirror {
    Mirror(map p | p in m.dst && !CutOff(cut, p) :: m.dst[p], map p | p in m.cache && !CutOff(cut, p) :: m.cache[p])
  }

  /** No record lies below something that is not a directory. */
  ghost predicate Unblocked(m: Mirror) {
    forall p, k: nat | p in m.cache && k < |p| && p[..k] in m.dst :: m.dst[p[..k]].Dir?
  }

  lemma CoherentUnblocked(m: Mirror)
    requires Coherent(m)
    ensures Unblocked(m)
  {
    forall p, k: nat | p in m.cache && k < |p| && p[..k] in m.dst ensures m.dst[p[..k]].Dir? {
      AncestorIsDir(m.dst, p[..k], p);
    }
  }

  /** The recorded, unseen paths of a list. */
  ghost function Unseen(m: Mirror, root: Path, seen: set<Path>, paths: seq<Path>): set<Path> {
    set c | c in paths && c in m.cache && c !in seen && Under(root, c)
  }

  lemma CutFirst(m: Mirror, root: Path, seen: set<Path>, paths: seq<Path>)
    requires paths != [] && paths[0] in Unseen(m, root, seen, paths)
    ensures var m1 := Mirror(Without(m.dst, paths[0]), Forget(m.cache, paths[0]));
            CutTrees(m1, Unseen(m1, root, seen, paths[1..])) == CutTrees(m, Unseen(m, root, seen, paths))
  {
    var p := paths[0];
    var m1 := Mirror(Without(m.dst, p), Forget(m.cache, p));
    var all, rest := Unseen(m, root, seen, paths), Unseen(m1, root, seen, paths[1..]);
    forall x ensures CutOff(all, x) <==> Under(p, x) || CutOff(rest, x) {
      if CutOff(all, x) {
        var c :| c in all && Under(c, x);
        assert c in rest || Under(p, c);
      }
      assert p in all;
      assert forall c | c in rest :: c in all;
    }
  }

  /** If it goes through, exactly the trees of the unseen records go; where nothing stands in the way it does. */
  lemma {:induction false} PruneListCuts(env: Env, m: Mirror, root: Path, seen: set<Path>, paths: seq<Path>)
    requires !env.dryRun
    ensures var o := PruneList(env, m, root, seen, paths);
            (o.ok ==> o.m == CutTrees(m, Unseen(m, root, seen, paths))) && (Unblocked(m) ==> o.ok)
    decreases |paths|
  {
    if paths == [] {
      assert CutTrees(m, {}) == m;
    } else if paths[0] in Unseen(m, root, seen, paths) {
      var m1 := Mirror(Without(m.dst, paths[0]), Forget(m.cache, paths[0]));
      var o := RemoveBackupPath(env, m, paths[0]);
      assert Unblocked(m) ==> o == Outcome(m1, true);
      if o.ok {
        CutFirst(m, root, seen, paths);
        PruneListCuts(env, m1, root, seen, paths[1..]);
      }
    } else {
      assert Unseen(m, root, seen, paths) == Unseen(m, root, seen, paths[1..]);
      PruneListCuts(env, m, root, seen, paths[1..]);
    }
  }

  lemma {:induction false} PruneListDry(env: Env, m: Mirror, root: Path, seen: set<Path>, paths: seq<Path>)
    requires env.dryRun
    ensures PruneList(env, m, root, seen, paths) == Outcome(m, true)
    decreases |paths|
  {
    if paths != [] {
      PruneListDry(env, m, root, seen, paths[1..]);
    }
  }

  /** What pruning by the record leaves if it succeeds, and where it does. */
  lemma PruneByStateIs(env: Env, m: Mirror, root: Path, seen: set<Path>)
    ensures var o := PruneByState(env, m, root, seen);
            (o.ok ==> o.m == WithoutDoomed(env, m, root, seen)) && (env.dryRun || Unblocked(m) ==> o.ok)
  {
    var paths := SortedPaths(m.cache.Keys);
    if env.dryRun {
      PruneListDry(env, m, root, seen, paths);
    } else {
      PruneListCuts(env, m, root, seen, paths);
      var cut := Unseen(m, root, seen, paths);
      assert forall p :: CutOff(cut, p) <==> Doomed(m.cache, root, seen, p);
    }
  }

  /** An unseen record inside the root. */
  ghost predicate Stale(m: Mirror, root: Path, seen: set<Path>, p: Path) {
    p in m.cache && p !in seen && Under(root, p)
  }

  /** The topmost of such records lies below something that is not a directory. */
  ghost predicate Stuck(m: Mirror, root: Path, seen: set<Path>, p: Path) {
    && Stale(m, root, seen, p) && (forall c | Stale(m, root, seen, c) :: !(c < p))
    && exists k: nat :: k < |p| && p[..k] in m.dst && !m.dst[p[..k]].Dir?
  }

  lemma StuckLater(m: Mirror, root: Path, seen: set<Path>, p: Path, x: Path)
    requires Stale(m, root, seen, p) && x != p
    ensures var m1 := Mirror(Without(m.dst, p), Forget(m.cache, p)); Stuck(m1, root, seen, x) <==> Stuck(m, root, seen, x)
  {
    var m1 := Mirror(Without(m.dst, p), Forget(m.cache, p));
    if Under(p, x) {
      assert p < x && !Stale(m1, root, seen, x);
    } else {
      forall k: nat | k < |x| ensures x[..k] in m1.dst <==> x[..k] in m.dst {
        assert Under(p, x[..k]) ==> Under(p, x);
      }
      forall c | c < x ensures Stale(m1, root, seen, c) <==> Stale(m, root, seen, c) {
        assert Under(p, c) ==> Under(p, x);
      }
    }
  }

  /** The first of the list has nothing stale above it. */
  lemma FirstIsTop(m: Mirror, root: Path, seen: set<Path>, paths: seq<Path>)
    requires paths != [] && InOrder(paths) && Stale(m, root, seen, paths[0])
    requires forall p | Stale(m, root, seen, p) :: p in paths
    ensures forall c | Stale(m, root, seen, c) :: !(c < paths[0])
  {
    forall c | Stale(m, root, seen, c) ensures !(c < paths[0]) {
      var i :| 0 <= i < |paths| && paths[i] == c;
      if i > 0 {
        assert PathLess(paths[0], c);
        PathLessTotal(paths[0], c);
      }
    }
  }

  lemma {:induction false} PruneListSucceeds(env: Env, m: Mirror, root: Path, seen: set<Path>, paths: seq<Path>)
    requires !env.dryRun && InOrder(paths) && forall p | Stale(m, root, seen, p) :: p in paths
    ensures PruneList(env, m, root, seen, paths).ok <==> forall p :: !Stuck(m, root, seen, p)
    decreases |paths|
  {
    hide PathLess;
    if paths == [] {
      assert forall p :: !Stale(m, root, seen, p);
    } else {
      var p := paths[0];
      forall x ensures x in paths[1..] <==> x in paths && x != p { RestWithoutFirst(paths, x); }
      if Stale(m, root, seen, p) {
        FirstIsTop(m, root, seen, paths);
        var o := RemoveBackupPath(env, m, p);
        assert o.ok <==> !Stuck(m, root, seen, p);
        if o.ok {
          forall x | x != p ensures Stuck(o.m, root, seen, x) <==> Stuck(m, root, seen, x) {
            StuckLater(m, root, seen, p, x);
          }
          assert !Stuck(o.m, root, seen, p) by { assert Under(p, p); }
          PruneListSucceeds(env, o.m, root, seen, paths[1..]);
        }
      } else {
        PruneListSucceeds(env, m, root, seen, paths[1..]);
      }
    }
  }

  /** Over any record: pruning succeeds exactly when no topmost unseen record lies below something that is not a directory. */
  lemma PruneByStateSucceeds(env: Env, m: Mirror, root: Path, seen: set<Path>)
    requires !env.dryRun
    ensures PruneByState(env, m, root, seen).ok <==> forall p :: !Stuck(m, root, seen, p)
  {
    PruneListSucceeds(env, m, root, seen, SortedPaths(m.cache.Keys));
  }

  lemma WithoutDoomedGood(env: Env, m: Mirror, root: Path, seen: set<Path>)
    requires Coherent(m) && !env.dryRun
    ensures Coherent(WithoutDoomed(env, m, root, seen)) && Framed(m, WithoutDoomed(env, m, root, seen), root)
  {
    var m' := WithoutDoomed(env, m, root, seen);
    forall p | p in m'.dst
      ensures p != [] && HasDir(m'.dst, Parent(p))
    {
      assert HasDir(m.dst, Parent(p));
      forall q | Under(q, Parent(p)) ensures Under(q, p) { UnderParent(q, p); }
    }
    forall p | Doomed(m.cache, root, seen, p) ensures Under(root, p) {
    }
  }

  /** Over backed records pruning by the record succeeds, keeps them backed and touches nothing outside the root. */
  lemma PruneByStateGood(env: Env, m: Mirror, root: Path, seen: set<Path>)
    requires Coherent(m) && !env.dryRun
    ensures PruneByState(env, m, root, seen) == Outcome(WithoutDoomed(env, m, root, seen), true)
    ensures Coherent(WithoutDoomed(env, m, root, seen)) && Framed(m, WithoutDoomed(env, m, root, seen), root)
  {
    CoherentUnblocked(m);
    PruneByStateIs(env, m, root, seen);
    WithoutDoomedGood(env, m, root, seen);
  }

  lemma LiveParent(seen: set<Path>, p: Path)
    requires p != []
    ensures Live(seen, p) <==> p in seen && Live(seen, Parent(p))
  {
    assert p == p[..|p|];
    assert forall k | 0 < k < |p| :: p[..k] == Parent(p)[..k];
  }

  lemma DeadEndAbove(dst: Fs, seen: set<Path>, p: Path) returns (q: Path)
    requires IsTree(dst) && p in dst && !Live(seen, p)
    ensures DeadEnd(dst, seen, q) && Under(q, p) && (q != p ==> dst[q].Dir?)
    decreases |p|
  {
    LiveParent(seen, p);
    if Live(seen, Parent(p)) {
      q := p;
    } else {
      assert HasDir(dst, Parent(p));
      q := DeadEndAbove(dst, seen, Parent(p));
      UnderParent(q, p);
    }
  }

  /** Over backed records exactly the records of live paths stay. */
  lemma DroppedIsNotLive(m: Mirror, seen: set<Path>)
    requires Coherent(m)
    ensures forall p | p in m.cache :: Dropped(m.dst, seen, p) <==> !Live(seen, p)
  {
    forall p | p in m.cache ensures Dropped(m.dst, seen, p) <==> !Live(seen, p) {
      DroppedOne(m.dst, seen, p);
    }
  }

  lemma DroppedOne(dst: Fs, seen: set<Path>, p: Path)
    requires IsTree(dst) && p in dst
    ensures Dropped(dst, seen, p) <==> !Live(seen, p)
  {
    if Live(seen, p) {
      forall q | Under(q, p) && q != [] ensures q in seen {
        assert p[..|q|] == q;
      }
    } else {
      var q := DeadEndAbove(dst, seen, p);
    }
  }

  /** Pruning by a walk keeps records backed; a path is left in the backup exactly when it is live. */
  lemma PruneByWalkGood(env: Env, m: Mirror, seen: set<Path>)
    requires Coherent(m) && !env.dryRun
    ensures Coherent(PruneByWalk(env, m, seen))
    ensures forall p :: p in PruneByWalk(env, m, seen).cache <==> p in m.cache && Live(seen, p)
  {
    DroppedIsNotLive(m, seen);
    var m' := PruneByWalk(env, m, seen);
    forall p | p in m'.dst
      ensures p != [] && HasDir(m'.dst, Parent(p))
    {
      assert HasDir(m.dst, Parent(p));
      LiveParent(seen, p);
    }
  }
}
