/** When a reconcile succeeds, whatever its record claims, and so the exact outcome of a reconcile after any run. */
module Succeeding {

  import opened Paths
  import opened FileTree
  import opened Wrappers
  import opened Walk
  import opened Mirroring
  import opened MirrorFacts
  import opened Reconciling
  import opened Racing
  import opened Trusting

  /** Down to `q` the backup has nothing of the other kind. */
  ghost predicate Clear(src: Fs, dst: Fs, q: Path) {
    forall x | x != [] && Under(x, q) :: !Clash(src, dst, x)
  }

  /** The way is clear to every path that the record does not call up to date. */
  ghost predicate Passable(env: Env, src: Fs, m: Mirror) {
    forall q | Included(env, src, q) && Unmatched(src, m, q) :: Clear(src, m.dst, q)
  }

  // ----- one visit -----

  lemma ClearIsOpen(src: Fs, dst: Fs, q: Path)
    requires IsTree(src) && IsTree(dst) && q in src && q != [] && Mirrored(src[q])
    ensures Clear(src, dst, q) <==>
            (forall x | x in dst && Under(x, Parent(q)) :: dst[x].Dir?) && (q in dst ==> dst[q].Dir? == src[q].Dir?)
  {
    assert [] !in dst;
    forall x | x != [] && Under(x, Parent(q)) ensures Under(x, q) && (Clash(src, dst, x) <==> x in dst && !dst[x].Dir?) {
      UnderParent(x, q);
      AncestorIsDir(src, x, q);
    }
    forall x | Under(x, q) ensures x == q || Under(x, Parent(q)) { UnderParent(x, q); }
    assert Under(q, q);
  }

  /** A visit succeeds exactly when the record matches or the way is clear. */
  lemma VisitSucceeds(env: Env, src: Fs, m: Mirror, q: Path)
    requires Setting(env, src) && IsTree(m.dst) && q in src && q != []
    ensures Visit(env, src, m, q, false).ok <==> (Unmatched(src, m, q) ==> Clear(src, m.dst, q))
  {
    hide Clear;
    hide MkdirAll;
    if Mirrored(src[q]) {
      ClearIsOpen(src, m.dst, q);
      forall x ensures Under(x, q) <==> x == q || Under(x, Parent(q)) { UnderParent(x, q); }
      if src[q].Dir? {
        MkdirAllMeaning(m.dst, q, Created(env, src[q].perm));
      } else {
        MkdirAllMeaning(m.dst, Parent(q), Created(env, PARENT_PERM));
        if q in m.dst && m.dst[q].File? && FileMetadataMatches(env, m.dst, q, src[q]) { AncestorsClear(m.dst, q); }
      }
    }
  }

  lemma AncestorsClear(dst: Fs, q: Path)
    requires IsTree(dst) && q in dst
    ensures forall x | x in dst && Under(x, Parent(q)) :: dst[x].Dir?
  {
    assert HasDir(dst, Parent(q));
    AncestorsAreDirs(dst, Parent(q));
  }

  /** A visit that succeeds decides nothing about the ways to other paths. */
  lemma ClearStays(env: Env, src: Fs, m: Mirror, p: Path, x: Path)
    requires Setting(env, src) && IsTree(m.dst) && Plain(m.dst) && p in src && p != [] && x != []
    requires Visit(env, src, m, p, false).ok
    ensures Clash(src, Visit(env, src, m, p, false).m.dst, x) <==> Clash(src, m.dst, x)
  {
    hide Visit;
    hide NoAlias;
    VisitEffect(env, src, m, p);
    VisitSucceeds(env, src, m, p);
    var dst' := Visit(env, src, m, p, false).m.dst;
    if Unmatched(src, m, p) {
      assert Under(p, p) && !Clash(src, m.dst, p);
      assert !Clash(src, dst', p) by {
        if src[p].File? && dst'[p] != src[p] { assert FileMetadataMatches(env, m.dst, p, src[p]); }
      }
      if x != p && Under(x, p) && x in dst' {
        AncestorIsDir(src, x, p);
        AncestorIsDir(dst', x, p);
      }
    }
  }

  // ----- a whole walk -----

  /** A walk succeeds exactly when the way is clear to all that is not known to be up to date. */
  lemma {:induction false} WalkSucceeds(env: Env, src: Fs, m: Mirror, ps: seq<Path>)
    requires Setting(env, src) && IsTree(m.dst) && Plain(m.dst) && Walkable(src, ps)
    ensures VisitAll(env, src, m, ps, false).ok <==> forall q | q in ps && Unmatched(src, m, q) :: Clear(src, m.dst, q)
    decreases |ps|
  {
    hide Visit;
    hide Clash;
    if ps != [] {
      WalkableRest(src, ps);
      var p, o := ps[0], Visit(env, src, m, ps[0], false);
      VisitSucceeds(env, src, m, p);
      VisitEffect(env, src, m, p);
      if o.ok {
        forall x | x != [] ensures Clash(src, o.m.dst, x) <==> Clash(src, m.dst, x) { ClearStays(env, src, m, p, x); }
        forall q | q in ps ensures q == p || q in ps[1..] { }
        forall q | q in ps[1..] ensures q in ps { }
        WalkSucceeds(env, src, o.m, ps[1..]);
      } else {
        assert p in ps;
      }
    }
  }

  lemma SourceWalkSucceeds(env: Env, src: Fs, m: Mirror)
    requires Setting(env, src) && IsTree(m.dst) && Plain(m.dst)
    ensures Walkable(src, SourceVisits(env, src))
    ensures VisitAll(env, src, m, SourceVisits(env, src), false).ok <==> Passable(env, src, m)
  {
    hide Clear;
    hide Included;
    WalkableSource(env, src);
    WalkSucceeds(env, src, m, SourceVisits(env, src));
  }

  // ----- what is in the way afterwards -----

  /** After the walk this is not a directory. */
  ghost predicate Blocking(env: Env, src: Fs, m: Mirror, x: Path) {
    if Included(env, src, x) && Unmatched(src, m, x) then src[x].File? else x in m.dst && !m.dst[x].Dir?
  }

  /** A record without a source, none above it, below something that is not a directory. */
  ghost predicate StuckRecord(env: Env, src: Fs, m: Mirror, p: Path) {
    && p in m.cache && !Included(env, src, p) && (forall c | c in m.cache && !Included(env, src, c) :: !(c < p))
    && exists k: nat :: k < |p| && Blocking(env, src, m, p[..k])
  }

  /** What a successful walk passes over stays in the way, or out of it. */
  lemma PassedOver(env: Env, src: Fs, m: Mirror, x: Path)
    requires Setting(env, src) && IsTree(m.dst) && Plain(m.dst) && Walkable(src, SourceVisits(env, src))
    requires VisitAll(env, src, m, SourceVisits(env, src), false).ok && Included(env, src, x) && !Unmatched(src, m, x)
    ensures var dst := VisitAll(env, src, m, SourceVisits(env, src), false).m.dst;
            x in dst && !dst[x].Dir? <==> x in m.dst && !m.dst[x].Dir?
  {
    hide VisitAll;
    hide Included;
    var ps := SourceVisits(env, src);
    WalkableSource(env, src);
    SourceWalkSucceeds(env, src, m);
    assert x != [] by { assert x in ps; }
    if Sleeping(src, m, ps, x) {
      WalkPasses(env, src, m, ps, x);
    } else {
      var q :| q in ps && Under(x, q) && Unmatched(src, m, q);
      assert x != q && x < q;
      WalkBringsDir(env, src, m, ps, x, q);
      AncestorIsDir(src, x, q);
      assert !Clash(src, m.dst, x);
    }
  }

  lemma PutInPlace(env: Env, src: Fs, m: Mirror, x: Path)
    requires Setting(env, src) && IsTree(m.dst) && Plain(m.dst) && Walkable(src, SourceVisits(env, src))
    requires VisitAll(env, src, m, SourceVisits(env, src), false).ok && Included(env, src, x) && Unmatched(src, m, x)
    ensures var dst := VisitAll(env, src, m, SourceVisits(env, src), false).m.dst;
            x in dst && (dst[x].Dir? <==> src[x].Dir?)
  {
    hide VisitAll;
    hide Included;
    WalkableSource(env, src);
    WalkPlaces(env, src, m, SourceVisits(env, src), x);
    if src[x].File? && x in m.dst && FileMetadataMatches(env, m.dst, x, src[x]) { assert !m.dst[x].Dir?; }
  }

  lemma BlockingAfterWalk(env: Env, src: Fs, m: Mirror, x: Path)
    requires Setting(env, src) && IsTree(m.dst) && Plain(m.dst) && Walkable(src, SourceVisits(env, src))
    requires VisitAll(env, src, m, SourceVisits(env, src), false).ok
    ensures var dst := VisitAll(env, src, m, SourceVisits(env, src), false).m.dst;
            x in dst && !dst[x].Dir? <==> Blocking(env, src, m, x)
  {
    hide VisitAll;
    if x == [] {
      WalkKeepsTree(env, src, m, SourceVisits(env, src));
      assert x !in src;
    } else if !Included(env, src, x) {
      StraysUntouched(env, src, m, x);
    } else if Unmatched(src, m, x) {
      PutInPlace(env, src, m, x);
    } else {
      PassedOver(env, src, m, x);
    }
  }

  lemma StuckAfterWalk(env: Env, src: Fs, m: Mirror, p: Path)
    requires Setting(env, src) && IsTree(m.dst) && Plain(m.dst) && Walkable(src, SourceVisits(env, src))
    requires [] !in m.cache
    requires VisitAll(env, src, m, SourceVisits(env, src), false).ok
    ensures Stuck(VisitAll(env, src, m, SourceVisits(env, src), false).m, [], Seen(env, src), p) <==>
            StuckRecord(env, src, m, p)
  {
    hide VisitAll;
    hide Blocking;
    hide Included;
    SeenMeaning(env, src);
    NoRootRecord(env, src, m, SourceVisits(env, src));
    var w := VisitAll(env, src, m, SourceVisits(env, src), false).m;
    forall c ensures Stale(w, [], Seen(env, src), c) <==> c in m.cache && !Included(env, src, c) {
      assert Under([], c);
      if c != [] && !Included(env, src, c) { StraysUntouched(env, src, m, c); }
    }
    forall x ensures x in w.dst && !w.dst[x].Dir? <==> Blocking(env, src, m, x) { BlockingAfterWalk(env, src, m, x); }
  }

  // ----- reconciles -----

  /**
    A reconcile over any record succeeds exactly when the way is clear to all that the
    record does not call up to date; a light one may also be stuck on a record below
    something that is not a directory, and only there.
   */
  lemma ReconcileSucceeds(env: Env, src: Fs, m: Mirror, deep: bool)
    requires Setting(env, src) && IsTree(m.dst) && Plain(m.dst) && [] !in m.cache
    ensures Reconcile(env, src, m, deep).ok <==>
            Passable(env, src, m) && (deep || forall p :: !StuckRecord(env, src, m, p))
  {
    hide VisitAll;
    hide Passable;
    hide PruneByState;
    hide PruneByWalk;
    hide StuckRecord;
    hide Stuck;
    SourceWalkSucceeds(env, src, m);
    var w := VisitAll(env, src, m, SourceVisits(env, src), false);
    if w.ok && !deep {
      WalkKeepsTree(env, src, m, SourceVisits(env, src));
      forall p ensures Stuck(w.m, [], Seen(env, src), p) <==> StuckRecord(env, src, m, p) { StuckAfterWalk(env, src, m, p); }
      PruneByStateSucceeds(env, w.m, [], Seen(env, src));
    }
  }

  /** Over trusted records that means that no included path has changed its kind. */
  lemma TrustedPassable(env: Env, src: Fs, m: Mirror)
    requires IsTree(src) && Trusted(env, src, m)
    ensures Passable(env, src, m) <==> forall p | Included(env, src, p) :: !Clash(src, m.dst, p)
  {
    if Passable(env, src, m) {
      forall p | Included(env, src, p) && Mirrored(src[p]) ensures !Clash(src, m.dst, p) {
        assert p != [] by { assert HasDir(src, Parent(p)); }
        assert Under(p, p);
        if Unmatched(src, m, p) { assert Clear(src, m.dst, p); }
      }
    }
    if forall p | Included(env, src, p) :: !Clash(src, m.dst, p) {
      forall q, x | Included(env, src, q) && x != [] && Under(x, q) ensures !Clash(src, m.dst, x) {
        IncludedAncestor(env, src, x, q);
      }
    }
  }

  /** With every matching record backed, a reconcile succeeds exactly without clashes, and then mirrors exactly. */
  lemma TrustedReconcileIsExact(env: Env, src: Fs, m: Mirror)
    requires Setting(env, src) && IsTree(m.dst) && Plain(m.dst) && FaithfulMirror(src, m) && Trusted(env, src, m)
    requires [] !in m.cache
    requires forall p | Included(env, src, p) :: Mirrored(src[p])
    ensures Reconcile(env, src, m, true).ok <==> forall p | Included(env, src, p) :: !Clash(src, m.dst, p)
    ensures Reconcile(env, src, m, true).ok ==> Exact(env, src, Reconcile(env, src, m, true).m.dst)
  {
    hide Reconcile;
    ReconcileSucceeds(env, src, m, true);
    TrustedPassable(env, src, m);
    TrustedIsGood(env, src, m);
    DeepExactly(env, src, m);
  }

  // ----- after any run -----

  /** When a reconcile succeeds while the source stands still, however wildly it changed before. */
  lemma QuietReconcileSucceeds(env: Env, acts: seq<Action>, w: World, deep: bool)
    requires Reachable(env, acts, w) && Setting(env, w.src)
    ensures var m := Mirror(w.dst, w.cache);
            Reconcile(env, w.src, m, deep).ok <==>
            Passable(env, w.src, m) && (deep || forall p :: !StuckRecord(env, w.src, m, p))
  {
    ReachableInv(env, acts, w);
    ReconcileSucceeds(env, w.src, Mirror(w.dst, w.cache), deep);
  }

  /** It succeeds and leaves an exact mirror exactly under conditions on the record and the two trees before it. */
  lemma QuietReconcileIsExact(env: Env, acts: seq<Action>, w: World, deep: bool)
    requires Reachable(env, acts, w) && Setting(env, w.src)
    requires forall p | Included(env, w.src, p) :: Mirrored(w.src[p])
    ensures var m := Mirror(w.dst, w.cache);
            var o := Reconcile(env, w.src, m, deep);
            o.ok && Exact(env, w.src, o.m.dst) <==>
            && Passable(env, w.src, m) && GoodEnough(env, w.src, m)
            && (deep || (AllTracked(env, w.src, m) && forall p :: !StuckRecord(env, w.src, m, p)))
  {
    hide Reachable;
    hide Reconcile;
    QuietReconcileSucceeds(env, acts, w, deep);
    QuietReconcileExactly(env, acts, w, deep);
  }

  /** Without a record that was left behind and matches again, the deep reconcile needs only that no kinds clash. */
  lemma UntornReconcileIsExact(env: Env, acts: seq<Action>, w: World)
    requires Reachable(env, acts, w) && Setting(env, w.src)
    requires forall p | Included(env, w.src, p) :: Mirrored(w.src[p])
    requires forall p | p in w.torn && Included(env, w.src, p) :: !StateMatches(w.cache, p, StateOf(w.src[p]))
    ensures Reconcile(env, w.src, Mirror(w.dst, w.cache), true).ok <==>
            forall p | Included(env, w.src, p) :: !Clash(w.src, w.dst, p)
    ensures Reconcile(env, w.src, Mirror(w.dst, w.cache), true).ok ==>
            Exact(env, w.src, Reconcile(env, w.src, Mirror(w.dst, w.cache), true).m.dst)
  {
    hide Reachable;
    ReachableInv(env, acts, w);
    TimesAreEnough(w.src, Mirror(w.dst, w.cache));
    UntornIsTrusted(env, acts, w);
    TrustedReconcileIsExact(env, w.src, Mirror(w.dst, w.cache));
  }

  /** With no record left behind at all, deep and light reconciles both succeed exactly when no kinds clash. */
  lemma UntornReconcileSucceeds(env: Env, acts: seq<Action>, w: World, deep: bool)
    requires Reachable(env, acts, w) && Setting(env, w.src) && w.torn == {}
    ensures Reconcile(env, w.src, Mirror(w.dst, w.cache), deep).ok <==>
            forall p | Included(env, w.src, p) :: !Clash(w.src, w.dst, p)
  {
    ReachableInv(env, acts, w);
    TimesAreEnough(w.src, Mirror(w.dst, w.cache));
    DeepReconcileMirrors(env, w.src, Mirror(w.dst, w.cache));
    LightReconcileLeaves(env, w.src, Mirror(w.dst, w.cache));
  }
}
