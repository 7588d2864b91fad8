/** A whole reconcile: when it succeeds, what it leaves, and that the two ways of pruning agree. */
module Reconciling {

  import opened Paths
  import opened FileTree
  import opened Wrappers
  import opened Walk
  import opened Mirroring
  import opened MirrorFacts

  /** What the backup holds at a synced path: the file itself; a directory keeps its old mode. */
  function Expected(env: Env, src: Fs, dst: Fs, p: Path): Node
    requires p in src && Mirrored(src[p])
  {
    if src[p].File? then src[p]
    else if p in dst then dst[p]
    else Dir(Created(env, src[p].perm))
  }

  lemma VisitExact(env: Env, src: Fs, m: Mirror, p: Path)
    requires Setting(env, src) && Coherent(m) && FaithfulMirror(src, m)
    requires p in src && p != [] && Mirrored(src[p]) && HasDir(m.dst, Parent(p))
    ensures var o := Visit(env, src, m, p, false);
            && (o.ok <==> !Clash(src, m.dst, p))
            && (o.ok ==> o.m == Mirror(m.dst[p := Expected(env, src, m.dst, p)],
                                       m.cache[p := StateOf(src[p])]))
            && (!o.ok ==> o.m == m)
  {
    var o := Visit(env, src, m, p, false);
    if src[p].Dir? {
      MkdirAllExistingParent(m.dst, p, Created(env, src[p].perm));
      if p in m.dst { assert m.dst[p := m.dst[p]] == m.dst; }
    } else {
      MkdirAllExistingParent(m.dst, p, Created(env, PARENT_PERM));
      if StateMatches(m.cache, p, StateOf(src[p])) || FileMetadataMatches(env, m.dst, p, src[p]) {
        assert m.dst[p] == src[p];
        assert m.dst[p := m.dst[p]] == m.dst;
      }
    }
    if StateMatches(m.cache, p, StateOf(src[p])) {
      assert m.cache[p := StateOf(src[p])] == m.cache;
    }
  }

  // ----- the walk -----

  /** The visited paths that get a backup. */
  function Backed(src: Fs, ps: seq<Path>): set<Path> {
    set q | q in ps && q in src && Mirrored(src[q])
  }

  ghost predicate WrittenDst(env: Env, src: Fs, dst: Fs, ps: set<Path>, dst': Fs)
    requires forall q | q in ps :: q in src && Mirrored(src[q])
  {
    && dst'.Keys == dst.Keys + ps
    && (forall q | q in dst' :: dst'[q] == if q in ps then Expected(env, src, dst, q) else dst[q])
  }

  ghost predicate WrittenCache(src: Fs, cache: Cache, ps: set<Path>, cache': Cache)
    requires forall q | q in ps :: q in src && Mirrored(src[q])
  {
    && cache'.Keys == cache.Keys + ps
    && (forall q | q in cache' :: cache'[q] == if q in ps then StateOf(src[q]) else cache[q])
  }

  /** Exactly the visited paths have been brought up to date. */
  ghost predicate Written(env: Env, src: Fs, m: Mirror, ps: seq<Path>, m': Mirror) {
    WrittenDst(env, src, m.dst, Backed(src, ps), m'.dst) && WrittenCache(src, m.cache, Backed(src, ps), m'.cache)
  }

  lemma {:induction false} ParentsFirstFresh(known: set<Path>, ps: seq<Path>, q: Path)
    requires ParentsFirst(known, ps) && q in ps
    ensures q !in known
    decreases |ps|
  {
    if q != ps[0] { ParentsFirstFresh(known + {ps[0]}, ps[1..], q); }
  }

  ghost predicate KnownDirs(src: Fs, dst: Fs, known: set<Path>) {
    forall q | q in known :: q == [] || (q in src && (src[q].Dir? ==> HasDir(dst, q)))
  }

  /** One visit of a walk. */
  lemma VisitInWalk(env: Env, src: Fs, m: Mirror, p: Path, known: set<Path>)
    requires Setting(env, src) && Coherent(m) && FaithfulMirror(src, m) && KnownDirs(src, m.dst, known)
    requires p in src && p != [] && Parent(p) in known
    ensures var o := Visit(env, src, m, p, false);
            && Coherent(o.m) && FaithfulMirror(src, o.m)
            && (o.ok <==> !Clash(src, m.dst, p))
            && (o.ok ==> KnownDirs(src, o.m.dst, known + {p}))
            && (o.ok ==> o.m == if Mirrored(src[p]) then
                                  Mirror(m.dst[p := Expected(env, src, m.dst, p)], m.cache[p := StateOf(src[p])])
                                else m)
            && (!o.ok ==> o.m == m)
  {
    VisitGood(env, src, m, p, false);
    if Mirrored(src[p]) {
      assert HasDir(src, Parent(p));
      VisitExact(env, src, m, p);
      if !Clash(src, m.dst, p) { ExpectedKeeps(env, src, m, p, known); }
    }
  }

  lemma ExpectedKeeps(env: Env, src: Fs, m: Mirror, p: Path, known: set<Path>)
    requires p in src && Mirrored(src[p]) && !Clash(src, m.dst, p)
    requires FaithfulMirror(src, m) && KnownDirs(src, m.dst, known)
    ensures var m' := Mirror(m.dst[p := Expected(env, src, m.dst, p)], m.cache[p := StateOf(src[p])]);
            FaithfulMirror(src, m') && KnownDirs(src, m'.dst, known + {p})
  {
  }

  /** A walk succeeds exactly when no visited path changes kind, and then writes exactly the visited paths. */
  lemma {:induction false} VisitAllExact(env: Env, src: Fs, m: Mirror, ps: seq<Path>, known: set<Path>)
    requires Setting(env, src) && Coherent(m) && FaithfulMirror(src, m)
    requires forall p | p in ps :: p in src && p != []
    requires ParentsFirst(known, ps) && KnownDirs(src, m.dst, known)
    ensures var o := VisitAll(env, src, m, ps, false);
            && (o.ok <==> forall p | p in ps :: !Clash(src, m.dst, p))
            && (o.ok ==> Written(env, src, m, ps, o.m))
            && Coherent(o.m) && FaithfulMirror(src, o.m)
    decreases |ps|
  {
    if ps != [] {
      var p := ps[0];
      var o := Visit(env, src, m, p, false);
      VisitInWalk(env, src, m, p, known);
      if o.ok {
        ClashesStay(src, m.dst, o.m.dst, ps, known);
        VisitAllExact(env, src, o.m, ps[1..], known + {p});
        if VisitAll(env, src, o.m, ps[1..], false).ok {
          WrittenStep(env, src, m, o.m, VisitAll(env, src, o.m, ps[1..], false).m, ps);
        }
      }
    }
  }

  /** Writing the first path of a walk decides nothing about the others. */
  lemma ClashesStay(src: Fs, dst: Fs, dst': Fs, ps: seq<Path>, known: set<Path>)
    requires ps != [] && ParentsFirst(known, ps)
    requires forall q | q != ps[0] :: (q in dst' <==> q in dst)
    requires forall q | q != ps[0] && q in dst :: dst'[q] == dst[q]
    ensures ps[0] !in ps[1..]
    ensures (forall q | q in ps[1..] :: !Clash(src, dst', q)) <==> (forall q | q in ps[1..] :: !Clash(src, dst, q))
  {
    forall q | q in ps[1..] ensures q != ps[0] && (Clash(src, dst', q) <==> Clash(src, dst, q)) {
      ParentsFirstFresh(known + {ps[0]}, ps[1..], q);
    }
  }

  lemma WrittenStep(env: Env, src: Fs, m: Mirror, m1: Mirror, m2: Mirror, ps: seq<Path>)
    requires ps != [] && ps[0] in src && ps[0] !in ps[1..]
    requires if Mirrored(src[ps[0]]) then
               m1 == Mirror(m.dst[ps[0] := Expected(env, src, m.dst, ps[0])], m.cache[ps[0] := StateOf(src[ps[0]])])
             else m1 == m
    requires Written(env, src, m1, ps[1..], m2)
    ensures Written(env, src, m, ps, m2)
  {
    BackedStep(src, ps);
    var p := ps[0];
    if Mirrored(src[p]) {
      WrittenDstStep(env, src, m.dst, m1.dst, m2.dst, Backed(src, ps[1..]), p);
      WrittenCacheStep(src, m.cache, m1.cache, m2.cache, Backed(src, ps[1..]), p);
    }
    hide Backed;
  }

  lemma BackedStep(src: Fs, ps: seq<Path>)
    requires ps != [] && ps[0] in src && ps[0] !in ps[1..]
    ensures ps[0] !in Backed(src, ps[1..])
    ensures Backed(src, ps) == Backed(src, ps[1..]) + if Mirrored(src[ps[0]]) then {ps[0]} else {}
  {
  }

  lemma WrittenDstStep(env: Env, src: Fs, a: Fs, b: Fs, c: Fs, rest: set<Path>, p: Path)
    requires p in src && Mirrored(src[p]) && p !in rest && (forall q | q in rest :: q in src && Mirrored(src[q]))
    requires b == a[p := Expected(env, src, a, p)] && WrittenDst(env, src, b, rest, c)
    ensures WrittenDst(env, src, a, rest + {p}, c)
  {
    forall q | q in rest ensures Expected(env, src, b, q) == Expected(env, src, a, q) { }
    hide Expected;
  }

  lemma WrittenCacheStep(src: Fs, a: Cache, b: Cache, c: Cache, rest: set<Path>, p: Path)
    requires p in src && Mirrored(src[p]) && p !in rest && (forall q | q in rest :: q in src && Mirrored(src[q]))
    requires b == a[p := StateOf(src[p])] && WrittenCache(src, b, rest, c)
    ensures WrittenCache(src, a, rest + {p}, c)
  {
    hide StateOf;
  }

  // ----- what was seen -----

  function Seen(env: Env, src: Fs): set<Path> {
    Elems(SourceVisits(env, src))
  }

  /** The walk sees exactly the included paths, hence with each path all its ancestors. */
  lemma SeenMeaning(env: Env, src: Fs)
    requires IsTree(src)
    ensures forall p :: p in Seen(env, src) <==> Included(env, src, p)
    ensures forall p | p != [] :: Live(Seen(env, src), p) <==> p in Seen(env, src)
  {
    var skip := Skipped(env, src);
    VisitsMeaning(src, skip, []);
    forall p | p in src ensures [] < p { assert HasDir(src, Parent(p)); }
    forall p | p != []
      ensures Live(Seen(env, src), p) <==> p in Seen(env, src)
    {
      assert p[..|p|] == p;
      if p in Seen(env, src) {
        forall k | 0 < k <= |p| ensures p[..k] in Seen(env, src) {
          if k < |p| { AncestorIsDir(src, p[..k], p); }
          assert forall j | 0 < j <= k :: p[..k][..j] == p[..j];
          assert Reached(skip, [], p[..k]);
        }
      }
    }
  }

  lemma SourceWalkExact(env: Env, src: Fs, m: Mirror)
    requires Setting(env, src) && Coherent(m) && FaithfulMirror(src, m)
    ensures forall p | p in SourceVisits(env, src) :: p in src && p != []
    ensures var o := VisitAll(env, src, m, SourceVisits(env, src), false);
            && (o.ok <==> forall p | Included(env, src, p) :: !Clash(src, m.dst, p))
            && (o.ok ==> Written(env, src, m, SourceVisits(env, src), o.m))
            && Coherent(o.m) && FaithfulMirror(src, o.m)
  {
    SourceVisitsInSource(env, src, []);
    VisitsParentsFirst(src, Skipped(env, src), [], {[]});
    SeenMeaning(env, src);
    VisitAllExact(env, src, m, SourceVisits(env, src), {[]});
  }

  // ----- the deep reconcile -----

  /** `m'` mirrors `src`, given the backup tree that was there before. */
  ghost predicate Mirrors(env: Env, src: Fs, before: Mirror, m': Mirror) {
    && (forall p :: p in m'.dst <==> Included(env, src, p) && (Mirrored(src[p]) || p in before.dst))
    && (forall p | p in m'.dst :: m'.dst[p] == if Mirrored(src[p]) then Expected(env, src, before.dst, p) else before.dst[p])
    && (forall p :: p in m'.cache <==> Included(env, src, p) && (Mirrored(src[p]) || p in before.cache))
    && (forall p | p in m'.cache :: m'.cache[p] == if Mirrored(src[p]) then StateOf(src[p]) else before.cache[p])
  }

  lemma PrunedMirrors(env: Env, src: Fs, m: Mirror, w: Mirror)
    requires !env.dryRun && IsTree(src) && Coherent(w)
    requires Written(env, src, m, SourceVisits(env, src), w)
    ensures Mirrors(env, src, m, PruneByWalk(env, w, Seen(env, src)))
  {
    var ps := SourceVisits(env, src);
    SeenMeaning(env, src);
    PruneByWalkGood(env, w, Seen(env, src));
    assert forall p :: p in Backed(src, ps) <==> Included(env, src, p) && Mirrored(src[p]);
    assert forall p | p in w.dst :: p != [];
  }

  /**
    A deep reconcile succeeds exactly when no included path has changed between
    file and directory; it then leaves exactly the mirror of the source. When it
    fails, what it leaves can still be trusted by the next one.
   */
  lemma DeepReconcileMirrors(env: Env, src: Fs, m: Mirror)
    requires Setting(env, src) && Coherent(m) && FaithfulMirror(src, m)
    ensures var o := Reconcile(env, src, m, true);
            && (o.ok <==> forall p | Included(env, src, p) :: !Clash(src, m.dst, p))
            && (o.ok ==> Mirrors(env, src, m, o.m))
            && Coherent(o.m) && FaithfulMirror(src, o.m)
  {
    SourceWalkExact(env, src, m);
    var o := VisitAll(env, src, m, SourceVisits(env, src), false);
    if o.ok {
      PrunedMirrors(env, src, m, o.m);
      PruneByWalkGood(env, o.m, Seen(env, src));
    }
  }

  /** Without special files the backup holds the included paths, no others, with equal files. */
  lemma DeepReconcileIsExact(env: Env, src: Fs, m: Mirror)
    requires Setting(env, src) && Coherent(m) && FaithfulMirror(src, m)
    requires forall p | Included(env, src, p) :: Mirrored(src[p])
    requires Reconcile(env, src, m, true).ok
    ensures var m' := Reconcile(env, src, m, true).m;
            && (forall p :: p in m'.dst <==> Included(env, src, p))
            && (forall p | p in m'.dst :: if src[p].File? then m'.dst[p] == src[p] else m'.dst[p].Dir?)
            && (forall p | p in m'.dst && p !in m.dst && src[p].Dir? :: m'.dst[p].perm == Created(env, src[p].perm))
            && m'.cache.Keys == m'.dst.Keys
  {
    DeepReconcileMirrors(env, src, m);
  }

  // ----- light against deep -----

  /** Every backup path that is to go has a remembered path to go at or above it. */
  ghost predicate Tracked(env: Env, src: Fs, m: Mirror, p: Path) {
    exists q :: q in m.cache && !Included(env, src, q) && Under(q, p)
  }

  /** Above an included path everything is included: pruning what was not seen never removes a live path. */
  lemma IncludedAncestor(env: Env, src: Fs, q: Path, p: Path)
    requires IsTree(src) && Included(env, src, p) && q != [] && Under(q, p)
    ensures Included(env, src, q)
  {
    assert p[..|q|] == q;
    if q != p { AncestorIsDir(src, q, p); }
    assert forall j | 0 < j <= |q| :: q[..j] == p[..j];
  }

  lemma {:induction false} FoundFrom(src: Fs, p: Path, k: nat)
    requires IsTree(src) && p in src && p != [] && k <= |p| && !src[p].Symlink?
    ensures LookupFrom(src, p, k) == Found(src[p])
    decreases |p| - k
  {
    assert p[..|p|] == p;
    if 0 < k < |p| { AncestorIsDir(src, p[..k], p); }
    if k < |p| { FoundFrom(src, p, k + 1); }
  }

  lemma IncludedIsFound(env: Env, src: Fs, p: Path)
    requires IsTree(src) && Included(env, src, p) && p != []
    ensures !env.excluded(p) && LookUp(src, p) == Found(src[p])
  {
    assert p[..|p|] == p;
    FoundFrom(src, p, 0);
  }

  lemma TrackedIsGone(env: Env, src: Fs, m: Mirror, p: Path)
    requires IsTree(src) && Coherent(m) && Tracked(env, src, m, p)
    ensures !Included(env, src, p)
  {
    var q :| q in m.cache && !Included(env, src, q) && Under(q, p);
    assert q in m.dst && q != [];
    if Included(env, src, p) { IncludedAncestor(env, src, q, p); }
  }

  lemma DoomedIsTracked(env: Env, src: Fs, m: Mirror, w: Mirror, p: Path)
    requires !env.dryRun && IsTree(src)
    requires Written(env, src, m, SourceVisits(env, src), w)
    ensures Doomed(w.cache, [], Seen(env, src), p) <==> Tracked(env, src, m, p)
  {
    SeenMeaning(env, src);
    forall q
      ensures q in w.cache && q !in Seen(env, src) <==> q in m.cache && !Included(env, src, q)
      ensures Under([], q)
    {
      assert q in Backed(src, SourceVisits(env, src)) ==> q in Seen(env, src);
    }
  }

  /** `light` is `deep` together with the paths of `m` that lost their source and were never recorded. */
  ghost predicate Leftovers(env: Env, src: Fs, m: Mirror, light: Mirror, deep: Mirror) {
    && light.cache == deep.cache
    && (forall p :: p in light.dst <==>
          p in deep.dst || (p in m.dst && !Included(env, src, p) && !Tracked(env, src, m, p)))
    && (forall p | p in light.dst :: light.dst[p] == if p in deep.dst then deep.dst[p] else m.dst[p])
  }

  lemma PrunedAt(env: Env, src: Fs, m: Mirror, w: Mirror, p: Path)
    requires !env.dryRun && IsTree(src) && Coherent(m) && Coherent(w)
    requires Written(env, src, m, SourceVisits(env, src), w)
    ensures p in w.dst ==> (Live(Seen(env, src), p) <==> Included(env, src, p))
    ensures p in w.dst && !Included(env, src, p) ==> p in m.dst && w.dst[p] == m.dst[p]
    ensures p in m.dst ==> p in w.dst
    ensures p in w.cache && !Included(env, src, p) ==> Tracked(env, src, m, p)
    ensures p in w.cache ==> p in w.dst
    ensures Doomed(w.cache, [], Seen(env, src), p) <==> Tracked(env, src, m, p)
    ensures Tracked(env, src, m, p) ==> !Included(env, src, p)
  {
    SeenMeaning(env, src);
    DoomedIsTracked(env, src, m, w, p);
    if Tracked(env, src, m, p) { TrackedIsGone(env, src, m, p); }
    if p in w.cache && !Included(env, src, p) {
      assert p !in Backed(src, SourceVisits(env, src));
      assert p in m.cache && Under(p, p);
    }
  }

  /** Pruning from the record against pruning by walking the backup, after the same walk of the source. */
  lemma PruningsCompared(env: Env, src: Fs, m: Mirror, w: Mirror)
    requires !env.dryRun && IsTree(src) && Coherent(m) && Coherent(w)
    requires Written(env, src, m, SourceVisits(env, src), w)
    ensures Leftovers(env, src, m, WithoutDoomed(env, w, [], Seen(env, src)), PruneByWalk(env, w, Seen(env, src)))
  {
    hide Dropped;
    hide Written;
    hide Coherent;
    hide Tracked;
    hide Included;
    hide Doomed;
    var seen := Seen(env, src);
    PruneByWalkGood(env, w, seen);
    var light, deep := WithoutDoomed(env, w, [], seen), PruneByWalk(env, w, seen);
    forall p
      ensures p in light.cache <==> p in deep.cache
      ensures p in light.dst <==> p in deep.dst || (p in m.dst && !Included(env, src, p) && !Tracked(env, src, m, p))
      ensures p in light.dst ==> light.dst[p] == if p in deep.dst then deep.dst[p] else m.dst[p]
    {
      PrunedAt(env, src, m, w, p);
    }
  }

  /** A light reconcile leaves what the deep one leaves, and in addition the stray paths it never recorded. */
  lemma LightReconcileLeaves(env: Env, src: Fs, m: Mirror)
    requires Setting(env, src) && Coherent(m) && FaithfulMirror(src, m)
    ensures var light, deep := Reconcile(env, src, m, false), Reconcile(env, src, m, true);
            && light.ok == deep.ok
            && (!light.ok ==> light == deep)
            && (light.ok ==> Leftovers(env, src, m, light.m, deep.m))
  {
    SourceWalkExact(env, src, m);
    var o := VisitAll(env, src, m, SourceVisits(env, src), false);
    if o.ok {
      PruningsCompared(env, src, m, o.m);
      PruneByStateGood(env, o.m, [], Seen(env, src));
    }
  }

  lemma NoLeftovers(env: Env, src: Fs, m: Mirror, light: Mirror, deep: Mirror)
    requires Leftovers(env, src, m, light, deep) && Mirrors(env, src, m, deep)
    ensures light == deep <==> forall p | p in m.dst && !Included(env, src, p) :: Tracked(env, src, m, p)
  {
    if forall p | p in m.dst && !Included(env, src, p) :: Tracked(env, src, m, p) {
      assert light.dst == deep.dst;
    }
  }

  /**
    Light and deep reconcile agree exactly when every backup path that has lost its
    source is covered by a record; a record of every backup path is enough.
   */
  lemma LightEqualsDeep(env: Env, src: Fs, m: Mirror)
    requires Setting(env, src) && Coherent(m) && FaithfulMirror(src, m)
    requires Reconcile(env, src, m, true).ok
    ensures Reconcile(env, src, m, false) == Reconcile(env, src, m, true) <==>
            forall p | p in m.dst && !Included(env, src, p) :: Tracked(env, src, m, p)
    ensures m.cache.Keys == m.dst.Keys ==> Reconcile(env, src, m, false) == Reconcile(env, src, m, true)
  {
    LightReconcileLeaves(env, src, m);
    DeepReconcileMirrors(env, src, m);
    NoLeftovers(env, src, m, Reconcile(env, src, m, false).m, Reconcile(env, src, m, true).m);
    if m.cache.Keys == m.dst.Keys {
      forall p | p in m.dst && !Included(env, src, p) ensures Tracked(env, src, m, p) {
        assert p in m.cache && Under(p, p);
      }
    }
  }
}
