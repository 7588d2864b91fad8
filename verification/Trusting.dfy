/**
  A reconcile trusts its record. What it leaves is an exact mirror exactly when the
  records that match the source are good enough; for the light reconcile, exactly when
  in addition every stray path is covered by a record.
 */
module Trusting {

  import opened Paths
  import opened FileTree
  import opened Wrappers
  import opened Walk
  import opened RecordOrder
  import opened Mirroring
  import opened MirrorFacts
  import opened Reconciling
  import opened Racing

  /** The included paths and no others, with equal files. */
  ghost predicate Exact(env: Env, src: Fs, dst: Fs) {
    && (forall p :: p in dst <==> Included(env, src, p))
    && (forall p | p in dst :: if src[p].File? then dst[p] == src[p] else dst[p].Dir?)
  }

  // ----- records that are backed -----

  /** Where the record says that nothing has changed, the backup says so too. */
  ghost predicate Trusted(env: Env, src: Fs, m: Mirror) {
    forall p | Included(env, src, p) && Mirrored(src[p]) && StateMatches(m.cache, p, StateOf(src[p])) ::
      p in m.dst && Agrees(m.cache[p], m.dst[p])
  }

  // ----- what one visit does to the backup, whatever the record says -----

  /** The record does not say that `q` is up to date. */
  ghost predicate Unmatched(src: Fs, m: Mirror, q: Path) {
    q in src && Mirrored(src[q]) && !StateMatches(m.cache, q, StateOf(src[q]))
  }

  /** Nothing is lost but what stood at `q` itself, and only the way to `q` is new. */
  ghost predicate Grown(a: Fs, b: Fs, q: Path) {
    && (forall x | x in a && (x != q || a[x].Dir?) :: x in b && b[x] == a[x])
    && (forall x | x in b && x !in a :: Under(x, q))
  }

  ghost predicate SameRecords(a: Cache, b: Cache, q: Path) {
    forall x | x != q :: (x in a <==> x in b) && (x in a ==> a[x] == b[x])
  }

  /** The source file stands at `q`, or something that was there and passed for it. */
  ghost predicate Placed(env: Env, src: Fs, before: Fs, dst: Fs, q: Path)
    requires q in src && Mirrored(src[q])
  {
    q in dst &&
    if src[q].Dir? then dst[q].Dir?
    else dst[q] == src[q] || (q in before && dst[q] == before[q] && FileMetadataMatches(env, before, q, src[q]))
  }

  lemma SyncDirEffect(env: Env, src: Fs, m: Mirror, q: Path)
    requires !env.dryRun && IsTree(m.dst) && Plain(m.dst) && q in src && q != [] && src[q].Dir?
    ensures var o := SyncDir(env, m, q, src[q]);
            && IsTree(o.m.dst) && Plain(o.m.dst) && Grown(m.dst, o.m.dst, q)
            && (o.ok && !StateMatches(m.cache, q, StateOf(src[q])) ==> Placed(env, src, m.dst, o.m.dst, q))
  {
    var perm := Created(env, src[q].perm);
    MkdirAllMeaning(m.dst, q, perm);
    if MkdirAll(m.dst, q, perm).Some? {
      ExtendedIsTree(m.dst, q, perm, MkdirAll(m.dst, q, perm).value);
    }
  }

  lemma CopyRelEffect(env: Env, src: Fs, m: Mirror, q: Path)
    requires Setting(env, src) && IsTree(m.dst) && Plain(m.dst) && q in src && q != [] && src[q].File?
    ensures var o := CopyRel(env, m, q, src[q]);
            && IsTree(o.m.dst) && Plain(o.m.dst) && Grown(m.dst, o.m.dst, q)
            && (o.ok && !StateMatches(m.cache, q, StateOf(src[q])) ==> Placed(env, src, m.dst, o.m.dst, q))
  {
    hide NoAlias;
    var perm := Created(env, PARENT_PERM);
    if Replace(m.dst, q, src[q], perm).Some? {
      ReplaceGood(env, m.dst, q, src[q], perm);
      ReplacedWasFile(m.dst, q, src[q], perm);
    }
  }

  lemma ReplacedWasFile(dst: Fs, q: Path, file: Node, perm: Perm)
    requires IsTree(dst) && q != [] && Replace(dst, q, file, perm).Some?
    ensures q in dst ==> !dst[q].Dir?
  {
    MkdirAllMeaning(dst, Parent(q), perm);
  }

  lemma VisitEffect(env: Env, src: Fs, m: Mirror, q: Path)
    requires Setting(env, src) && IsTree(m.dst) && Plain(m.dst) && q in src && q != []
    ensures var o := Visit(env, src, m, q, false);
            && IsTree(o.m.dst) && Plain(o.m.dst) && Grown(m.dst, o.m.dst, q) && SameRecords(m.cache, o.m.cache, q)
            && (!Unmatched(src, m, q) ==> o == Outcome(m, true))
            && (o.ok ==> !Unmatched(src, o.m, q))
            && (o.ok && Unmatched(src, m, q) ==> Placed(env, src, m.dst, o.m.dst, q))
  {
    hide MkdirAll;
    hide Replace;
    hide IsTree;
    hide Plain;
    hide FileMetadataMatches;
    if src[q].Dir? {
      SyncDirEffect(env, src, m, q);
    } else if src[q].File? {
      CopyRelEffect(env, src, m, q);
    }
  }

  // ----- what a whole walk does to one path -----

  /** A list of visits that can be made. */
  ghost predicate Walkable(src: Fs, ps: seq<Path>) {
    forall p | p in ps :: p in src && p != []
  }

  lemma WalkableRest(src: Fs, ps: seq<Path>)
    requires Walkable(src, ps) && ps != []
    ensures Walkable(src, ps[1..]) && ps[0] in src && ps[0] != []
  {
    assert ps[0] in ps;
    forall p | p in ps[1..] ensures p in ps { }
  }

  lemma {:induction false} WalkKeepsTree(env: Env, src: Fs, m: Mirror, ps: seq<Path>)
    requires Setting(env, src) && IsTree(m.dst) && Plain(m.dst) && Walkable(src, ps)
    ensures var o := VisitAll(env, src, m, ps, false); IsTree(o.m.dst) && Plain(o.m.dst)
    decreases |ps|
  {
    hide Visit;
    if ps != [] {
      WalkableRest(src, ps);
      VisitEffect(env, src, m, ps[0]);
      var o := Visit(env, src, m, ps[0], false);
      if o.ok { WalkKeepsTree(env, src, o.m, ps[1..]); }
    }
  }

  /** Directories, and whatever is not visited, stay. */
  lemma {:induction false} WalkKeeps(env: Env, src: Fs, m: Mirror, ps: seq<Path>, x: Path)
    requires Setting(env, src) && IsTree(m.dst) && Plain(m.dst) && Walkable(src, ps)
    requires x in m.dst && (x !in ps || m.dst[x].Dir?)
    ensures var o := VisitAll(env, src, m, ps, false); x in o.m.dst && o.m.dst[x] == m.dst[x]
    decreases |ps|
  {
    hide Visit;
    if ps != [] {
      WalkableRest(src, ps);
      VisitEffect(env, src, m, ps[0]);
      var o := Visit(env, src, m, ps[0], false);
      if o.ok { WalkKeeps(env, src, o.m, ps[1..], x); }
    }
  }

  ghost predicate SameAt(a: Fs, b: Fs, p: Path) {
    (p in a <==> p in b) && (p in a ==> a[p] == b[p])
  }

  /** At or below `x` nothing is visited that the record does not know. */
  ghost predicate Sleeping(src: Fs, m: Mirror, ps: seq<Path>, x: Path) {
    forall q | q in ps && Under(x, q) :: !Unmatched(src, m, q)
  }

  /** What the record claims to know, from `x` down, is not looked at. */
  lemma {:induction false} WalkPasses(env: Env, src: Fs, m: Mirror, ps: seq<Path>, x: Path)
    requires Setting(env, src) && IsTree(m.dst) && Plain(m.dst) && Walkable(src, ps) && Sleeping(src, m, ps, x)
    ensures SameAt(m.dst, VisitAll(env, src, m, ps, false).m.dst, x)
    decreases |ps|
  {
    hide Visit;
    if ps != [] {
      WalkableRest(src, ps);
      VisitEffect(env, src, m, ps[0]);
      var o := Visit(env, src, m, ps[0], false);
      if Under(x, ps[0]) { assert ps[0] in ps && o == Outcome(m, true); }
      if o.ok {
        assert Sleeping(src, o.m, ps[1..], x) by {
          forall q | q in ps[1..] ensures q in ps { }
        }
        WalkPasses(env, src, o.m, ps[1..], x);
      }
    }
  }

  /** What the record does not know is put in place. */
  lemma {:induction false} WalkPlaces(env: Env, src: Fs, m: Mirror, ps: seq<Path>, x: Path)
    requires Setting(env, src) && IsTree(m.dst) && Plain(m.dst) && Walkable(src, ps)
    requires VisitAll(env, src, m, ps, false).ok
    requires x in ps && Unmatched(src, m, x)
    ensures x in VisitAll(env, src, m, ps, false).m.dst
    ensures src[x].Dir? ==> VisitAll(env, src, m, ps, false).m.dst[x].Dir?
    ensures src[x].File? ==> Placed(env, src, m.dst, VisitAll(env, src, m, ps, false).m.dst, x)
    decreases |ps|
  {
    hide Visit;
    hide FileMetadataMatches;
    WalkableRest(src, ps);
    VisitEffect(env, src, m, ps[0]);
    var o := Visit(env, src, m, ps[0], false);
    if ps[0] == x {
      if src[x].Dir? {
        WalkKeeps(env, src, o.m, ps[1..], x);
      } else {
        FileSleeps(src, o.m, ps[1..], x);
        WalkPasses(env, src, o.m, ps[1..], x);
      }
    } else {
      WalkPlaces(env, src, o.m, ps[1..], x);
      if src[x].File? {
        FileUntouched(env, src, m, ps[0], x);
        if x in o.m.dst && FileMetadataMatches(env, o.m.dst, x, src[x]) {
          SameMetadata(env, src, o.m.dst, m.dst, x);
        }
      }
    }
  }

  lemma SameMetadata(env: Env, src: Fs, a: Fs, b: Fs, x: Path)
    requires NoAlias(env, src) && Plain(a) && x in src && src[x].File? && SameAt(a, b, x)
    requires x in a && FileMetadataMatches(env, a, x, src[x])
    ensures FileMetadataMatches(env, b, x, src[x])
  {
  }

  lemma FileSleeps(src: Fs, m: Mirror, ps: seq<Path>, x: Path)
    requires IsTree(src) && x in src && src[x].File? && !Unmatched(src, m, x)
    ensures Sleeping(src, m, ps, x)
  {
    NothingBelow(src, x);
    forall q | q in src && Under(x, q) ensures q == x { assert q != x ==> x < q; }
  }

  lemma FileUntouched(env: Env, src: Fs, m: Mirror, q: Path, x: Path)
    requires Setting(env, src) && IsTree(m.dst) && Plain(m.dst) && q in src && q != []
    requires x in src && src[x].File? && x != q
    ensures SameAt(m.dst, Visit(env, src, m, q, false).m.dst, x)
  {
    hide Visit;
    VisitEffect(env, src, m, q);
    NothingBelow(src, x);
    assert !Under(x, q) by { assert Under(x, q) ==> x < q; }
  }

  /** Something put in place below a directory brings the directory with it. */
  lemma {:induction false} WalkBringsDir(env: Env, src: Fs, m: Mirror, ps: seq<Path>, x: Path, q: Path)
    requires Setting(env, src) && IsTree(m.dst) && Plain(m.dst) && Walkable(src, ps)
    requires VisitAll(env, src, m, ps, false).ok
    requires q in ps && x != [] && x < q && Unmatched(src, m, q)
    ensures x in VisitAll(env, src, m, ps, false).m.dst && VisitAll(env, src, m, ps, false).m.dst[x].Dir?
  {
    hide VisitAll;
    WalkPlaces(env, src, m, ps, q);
    WalkKeepsTree(env, src, m, ps);
    AncestorIsDir(VisitAll(env, src, m, ps, false).m.dst, x, q);
  }

  /** What is not on the way to anything visited does not come into being, nor do records of it. */
  lemma {:induction false} WalkAddsNothingElse(env: Env, src: Fs, m: Mirror, ps: seq<Path>, x: Path)
    requires Setting(env, src) && IsTree(m.dst) && Plain(m.dst) && Walkable(src, ps)
    requires forall q | q in ps :: !Under(x, q)
    ensures var o := VisitAll(env, src, m, ps, false); SameAt(m.dst, o.m.dst, x) && (x in o.m.cache <==> x in m.cache)
    decreases |ps|
  {
    hide Visit;
    if ps != [] {
      WalkableRest(src, ps);
      assert ps[0] in ps && Under(x, x);
      VisitEffect(env, src, m, ps[0]);
      var o := Visit(env, src, m, ps[0], false);
      if o.ok {
        forall q | q in ps[1..] ensures q in ps { }
        WalkAddsNothingElse(env, src, o.m, ps[1..], x);
      }
    }
  }

  // ----- the exact condition -----

  /**
    What a reconcile that looks at the record needs of it: a matching file record is
    backed exactly; a matching directory record has its directory, or something below it
    that the record does not match and that brings the directory along.
   */
  ghost predicate GoodEnough(env: Env, src: Fs, m: Mirror) {
    forall p | Included(env, src, p) :: GoodAt(env, src, m, p)
  }

  ghost predicate GoodAt(env: Env, src: Fs, m: Mirror, p: Path) {
    p in src && Mirrored(src[p]) && StateMatches(m.cache, p, StateOf(src[p])) ==>
      if src[p].File? then p in m.dst && m.dst[p] == src[p]
      else HasDir(m.dst, p) || exists q :: Included(env, src, q) && p < q && Unmatched(src, m, q)
  }

  /** The walk has put the included path where it belongs. */
  ghost predicate InPlace(src: Fs, dst: Fs, p: Path) {
    p in src && p in dst && if src[p].File? then dst[p] == src[p] else dst[p].Dir?
  }

  lemma WalkableSource(env: Env, src: Fs)
    requires IsTree(src)
    ensures Walkable(src, SourceVisits(env, src))
    ensures forall p :: p in SourceVisits(env, src) <==> Included(env, src, p)
  {
    SourceVisitsInSource(env, src, []);
    SeenMeaning(env, src);
  }

  lemma PassedFor(env: Env, src: Fs, dst: Fs, p: Path)
    requires Setting(env, src) && Plain(dst) && Faithful(src, dst) && p in src && src[p].File?
    requires p in dst && FileMetadataMatches(env, dst, p, src[p])
    ensures dst[p] == src[p]
  {
  }

  lemma GoodPath(env: Env, src: Fs, m: Mirror, p: Path)
    requires Setting(env, src) && IsTree(m.dst) && Plain(m.dst) && Faithful(src, m.dst)
    requires (forall x | Included(env, src, x) :: Mirrored(src[x])) && Walkable(src, SourceVisits(env, src))
    requires VisitAll(env, src, m, SourceVisits(env, src), false).ok && GoodEnough(env, src, m) && Included(env, src, p)
    ensures InPlace(src, VisitAll(env, src, m, SourceVisits(env, src), false).m.dst, p)
  {
    hide VisitAll;
    hide Included;
    hide FileMetadataMatches;
    var ps := SourceVisits(env, src);
    WalkableSource(env, src);
    if !StateMatches(m.cache, p, StateOf(src[p])) {
      WalkPlaces(env, src, m, ps, p);
      if src[p].File? && p in m.dst && FileMetadataMatches(env, m.dst, p, src[p]) { PassedFor(env, src, m.dst, p); }
    } else if src[p].File? {
      FileSleeps(src, m, ps, p);
      WalkPasses(env, src, m, ps, p);
    } else if p in m.dst && m.dst[p].Dir? {
      WalkKeeps(env, src, m, ps, p);
    } else {
      assert p != [] by { assert p in ps; }
      var q :| Included(env, src, q) && p < q && Unmatched(src, m, q);
      WalkBringsDir(env, src, m, ps, p, q);
    }
  }

  lemma BadPath(env: Env, src: Fs, m: Mirror, p: Path)
    requires Setting(env, src) && IsTree(m.dst) && Plain(m.dst) && Walkable(src, SourceVisits(env, src))
    requires (forall x | Included(env, src, x) :: Mirrored(src[x])) && Included(env, src, p)
    requires InPlace(src, VisitAll(env, src, m, SourceVisits(env, src), false).m.dst, p)
    ensures GoodAt(env, src, m, p)
  {
    hide VisitAll;
    hide Included;
    var ps := SourceVisits(env, src);
    WalkableSource(env, src);
    if !StateMatches(m.cache, p, StateOf(src[p])) {
    } else if src[p].File? {
      FileSleeps(src, m, ps, p);
      WalkPasses(env, src, m, ps, p);
    } else if !(exists q :: Included(env, src, q) && p < q && Unmatched(src, m, q)) {
      forall q | q in ps && Under(p, q) ensures !Unmatched(src, m, q) { assert q == p || p < q; }
      WalkPasses(env, src, m, ps, p);
    }
  }

  /** After the walk every included path is in place exactly when the record was good enough. */
  lemma WalkExactly(env: Env, src: Fs, m: Mirror)
    requires Setting(env, src) && IsTree(m.dst) && Plain(m.dst) && Faithful(src, m.dst)
    requires (forall p | Included(env, src, p) :: Mirrored(src[p])) && Walkable(src, SourceVisits(env, src))
    requires VisitAll(env, src, m, SourceVisits(env, src), false).ok
    ensures (forall p | Included(env, src, p) :: InPlace(src, VisitAll(env, src, m, SourceVisits(env, src), false).m.dst, p))
            <==> GoodEnough(env, src, m)
  {
    hide VisitAll;
    hide Included;
    hide InPlace;
    hide GoodAt;
    var dst := VisitAll(env, src, m, SourceVisits(env, src), false).m.dst;
    if GoodEnough(env, src, m) {
      forall p | Included(env, src, p) ensures InPlace(src, dst, p) { GoodPath(env, src, m, p); }
    }
    if forall p | Included(env, src, p) :: InPlace(src, dst, p) {
      forall p | Included(env, src, p) ensures GoodAt(env, src, m, p) { BadPath(env, src, m, p); }
    }
  }

  // ----- reconciles, deep and light -----

  lemma DeepExactly(env: Env, src: Fs, m: Mirror)
    requires Setting(env, src) && IsTree(m.dst) && Plain(m.dst) && Faithful(src, m.dst)
    requires forall p | Included(env, src, p) :: Mirrored(src[p])
    ensures var o := Reconcile(env, src, m, true); o.ok ==> (Exact(env, src, o.m.dst) <==> GoodEnough(env, src, m))
  {
    hide VisitAll;
    hide Included;
    hide GoodEnough;
    hide Dropped;
    WalkableSource(env, src);
    SeenMeaning(env, src);
    var o := VisitAll(env, src, m, SourceVisits(env, src), false);
    if o.ok {
      WalkExactly(env, src, m);
      WalkKeepsTree(env, src, m, SourceVisits(env, src));
      LivePart(env, src, o.m.dst, Reconcile(env, src, m, true).m.dst);
    }
  }

  lemma LivePart(env: Env, src: Fs, dst: Fs, dst': Fs)
    requires IsTree(src) && IsTree(dst)
    requires forall p :: p in dst' <==> p in dst && Live(Seen(env, src), p)
    requires forall p | p in dst' :: dst'[p] == dst[p]
    ensures Exact(env, src, dst') <==> forall p | Included(env, src, p) :: InPlace(src, dst, p)
  {
    SeenMeaning(env, src);
    assert forall p | p in dst' :: Included(env, src, p);
    assert forall p | Included(env, src, p) :: p in src && p != [];
  }

  /** Every backup path that is not in the source is covered by a record. */
  ghost predicate AllTracked(env: Env, src: Fs, m: Mirror) {
    forall p | p in m.dst && !Included(env, src, p) :: Tracked(env, src, m, p)
  }

  lemma StraysUntouched(env: Env, src: Fs, m: Mirror, x: Path)
    requires Setting(env, src) && IsTree(m.dst) && Plain(m.dst) && Walkable(src, SourceVisits(env, src))
    requires x != [] && !Included(env, src, x)
    ensures var o := VisitAll(env, src, m, SourceVisits(env, src), false);
            SameAt(m.dst, o.m.dst, x) && (x in o.m.cache <==> x in m.cache)
  {
    hide VisitAll;
    WalkableSource(env, src);
    forall q | q in SourceVisits(env, src) ensures !Under(x, q) {
      if Under(x, q) { IncludedAncestor(env, src, x, q); }
    }
    WalkAddsNothingElse(env, src, m, SourceVisits(env, src), x);
  }

  lemma {:induction false} NoRootRecord(env: Env, src: Fs, m: Mirror, ps: seq<Path>)
    requires Setting(env, src) && IsTree(m.dst) && Plain(m.dst) && Walkable(src, ps) && [] !in m.cache
    ensures [] !in VisitAll(env, src, m, ps, false).m.cache
    decreases |ps|
  {
    hide Visit;
    if ps != [] {
      WalkableRest(src, ps);
      VisitEffect(env, src, m, ps[0]);
      var o := Visit(env, src, m, ps[0], false);
      if o.ok { NoRootRecord(env, src, o.m, ps[1..]); }
    }
  }

  /** After the walk the light reconcile dooms exactly what the record covered before. */
  lemma DoomedIsCovered(env: Env, src: Fs, m: Mirror, p: Path)
    requires Setting(env, src) && IsTree(m.dst) && Plain(m.dst) && Walkable(src, SourceVisits(env, src))
    requires [] !in m.cache
    ensures var o := VisitAll(env, src, m, SourceVisits(env, src), false);
            Doomed(o.m.cache, [], Seen(env, src), p) <==> Tracked(env, src, m, p)
    ensures Tracked(env, src, m, p) ==> !Included(env, src, p)
  {
    hide VisitAll;
    SeenMeaning(env, src);
    NoRootRecord(env, src, m, SourceVisits(env, src));
    var o := VisitAll(env, src, m, SourceVisits(env, src), false);
    forall q | q != [] && !Included(env, src, q) ensures q in o.m.cache <==> q in m.cache && Under([], q) {
      StraysUntouched(env, src, m, q);
    }
    if Tracked(env, src, m, p) && Included(env, src, p) {
      var q :| q in m.cache && !Included(env, src, q) && Under(q, p);
      IncludedAncestor(env, src, q, p);
    }
  }

  lemma LightPart(env: Env, src: Fs, m: Mirror, dst: Fs, dst': Fs)
    requires IsTree(src) && IsTree(dst)
    requires forall p :: p in dst' <==> p in dst && !Tracked(env, src, m, p)
    requires forall p | p in dst' :: dst'[p] == dst[p]
    requires forall p | Tracked(env, src, m, p) :: !Included(env, src, p)
    requires forall p | p != [] && !Included(env, src, p) :: SameAt(m.dst, dst, p)
    requires IsTree(m.dst)
    ensures Exact(env, src, dst') <==> (forall p | Included(env, src, p) :: InPlace(src, dst, p)) && AllTracked(env, src, m)
  {
    hide Tracked;
    assert forall p | Included(env, src, p) :: p in src && p != [];
    assert [] !in dst && [] !in m.dst;
    hide Included;
    hide IsTree;
    hide AllTracked;
    hide Exact;
    hide InPlace;
    if Exact(env, src, dst') { LightForth(env, src, m, dst, dst'); }
    if (forall p | Included(env, src, p) :: InPlace(src, dst, p)) && AllTracked(env, src, m) {
      LightBack(env, src, m, dst, dst');
    }
  }

  lemma LightForth(env: Env, src: Fs, m: Mirror, dst: Fs, dst': Fs)
    requires (forall p :: p in dst' <==> p in dst && !Tracked(env, src, m, p)) && (forall p | p in dst' :: dst'[p] == dst[p])
    requires forall p | p in m.dst && !Included(env, src, p) :: SameAt(m.dst, dst, p)
    requires forall p | Included(env, src, p) :: p in src
    requires Exact(env, src, dst')
    ensures (forall p | Included(env, src, p) :: InPlace(src, dst, p)) && AllTracked(env, src, m)
  {
    hide Tracked;
    hide Included;
    forall p | Included(env, src, p) ensures InPlace(src, dst, p) { assert p in dst'; }
    forall p | p in m.dst && !Included(env, src, p) ensures Tracked(env, src, m, p) {
      assert SameAt(m.dst, dst, p) && p !in dst';
    }
  }

  lemma LightBack(env: Env, src: Fs, m: Mirror, dst: Fs, dst': Fs)
    requires (forall p :: p in dst' <==> p in dst && !Tracked(env, src, m, p)) && (forall p | p in dst' :: dst'[p] == dst[p])
    requires forall p | Tracked(env, src, m, p) :: !Included(env, src, p)
    requires forall p | p in dst && !Included(env, src, p) :: SameAt(m.dst, dst, p)
    requires (forall p | Included(env, src, p) :: InPlace(src, dst, p)) && AllTracked(env, src, m)
    ensures Exact(env, src, dst')
  {
    hide Tracked;
    hide Included;
    forall p | p in dst && !Included(env, src, p) ensures Tracked(env, src, m, p) {
      assert SameAt(m.dst, dst, p);
    }
    forall p | Included(env, src, p) ensures p in dst' {
      assert InPlace(src, dst, p);
    }
  }

  lemma LightExactly(env: Env, src: Fs, m: Mirror)
    requires Setting(env, src) && IsTree(m.dst) && Plain(m.dst) && Faithful(src, m.dst) && [] !in m.cache
    requires forall p | Included(env, src, p) :: Mirrored(src[p])
    ensures var o := Reconcile(env, src, m, false);
            o.ok ==> (Exact(env, src, o.m.dst) <==> GoodEnough(env, src, m) && AllTracked(env, src, m))
  {
    hide VisitAll;
    hide Included;
    hide GoodEnough;
    hide AllTracked;
    hide Tracked;
    hide Doomed;
    hide PruneByState;
    WalkableSource(env, src);
    var w := VisitAll(env, src, m, SourceVisits(env, src), false);
    if w.ok {
      WalkExactly(env, src, m);
      WalkKeepsTree(env, src, m, SourceVisits(env, src));
      PruneByStateIs(env, w.m, [], Seen(env, src));
      forall p ensures Doomed(w.m.cache, [], Seen(env, src), p) <==> Tracked(env, src, m, p)
               ensures Tracked(env, src, m, p) ==> !Included(env, src, p) {
        DoomedIsCovered(env, src, m, p);
      }
      forall p | p != [] && !Included(env, src, p) ensures SameAt(m.dst, w.m.dst, p) { StraysUntouched(env, src, m, p); }
      LightPart(env, src, m, w.m.dst, WithoutDoomed(env, w.m, [], Seen(env, src)).dst);
    }
  }

  lemma TrustedIsGood(env: Env, src: Fs, m: Mirror)
    requires Trusted(env, src, m) && FaithfulMirror(src, m)
    ensures GoodEnough(env, src, m)
  {
  }

  // ----- after any run -----

  /** Records that match are good enough unless the backup was changed behind them. */
  lemma UntornIsTrusted(env: Env, acts: seq<Action>, w: World)
    requires Reachable(env, acts, w)
    requires forall p | p in w.torn && Included(env, w.src, p) && Mirrored(w.src[p]) ::
               !StateMatches(w.cache, p, StateOf(w.src[p]))
    ensures Trusted(env, w.src, Mirror(w.dst, w.cache)) && GoodEnough(env, w.src, Mirror(w.dst, w.cache))
  {
    ReachableInv(env, acts, w);
    TimesAreEnough(w.src, Mirror(w.dst, w.cache));
    TrustedIsGood(env, w.src, Mirror(w.dst, w.cache));
  }

  /**
    However wildly the source changed before: a reconcile that succeeds while it stands
    still leaves an exact mirror exactly when the matching records are good enough and,
    if it was a light one, every stray path was covered by a record.
   */
  lemma QuietReconcileExactly(env: Env, acts: seq<Action>, w: World, deep: bool)
    requires Reachable(env, acts, w) && Setting(env, w.src)
    requires forall p | Included(env, w.src, p) :: Mirrored(w.src[p])
    ensures var m := Mirror(w.dst, w.cache);
            var o := Reconcile(env, w.src, m, deep);
            o.ok ==> (Exact(env, w.src, o.m.dst) <==> GoodEnough(env, w.src, m) && (deep || AllTracked(env, w.src, m)))
  {
    ReachableInv(env, acts, w);
    TimesAreEnough(w.src, Mirror(w.dst, w.cache));
    DeepExactly(env, w.src, Mirror(w.dst, w.cache));
    LightExactly(env, w.src, Mirror(w.dst, w.cache));
  }
}
