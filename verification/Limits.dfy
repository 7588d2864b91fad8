/** Where the mirror's guarantees end: concrete cases outside the conditions of the main results. */
module MirrorLimits {

  import opened Paths
  import opened FileTree
  import opened Wrappers
  import opened Walk
  import opened Mirroring
  import opened MirrorFacts
  import opened Reconciling
  import opened Settling
  import opened Collapsing

  function OneDirOneFile(file: Node): Fs {
    map[["a"] := Dir(0x1ED), ["a", "b"] := file]
  }

  /** A file event inside a directory that was never recorded: the directory is created, not recorded. */
  lemma EventBeforeDirectory(env: Env, file: Node)
    requires !env.dryRun && file.File? && !env.excluded(["a", "b"])
    ensures var d: Fs := map[["a"] := Dir(Created(env, 0x1ED)), ["a", "b"] := file];
            SyncRel(env, OneDirOneFile(file), Mirror(map[], map[]), ["a", "b"]).m ==
            Mirror(d, map[["a", "b"] := StateOf(file)])
  {
    var src := OneDirOneFile(file);
    var p := ["a", "b"];
    assert p[..1] == ["a"] && p[..2] == p && Parent(p) == ["a"] && Parent(["a"]) == [];
    assert LookUp(src, p) == LookupFrom(src, p, 1) == LookupFrom(src, p, 2) == Found(file);
    var perm := Created(env, PARENT_PERM);
    assert MkdirAll(map[], ["a"], perm) == Some(map[["a"] := Dir(perm)]);
  }

  /**
    Once the source directory is gone, whatever else the source holds, the light
    reconcile leaves the unrecorded directory behind, and only a deep one removes it.
   */
  lemma UnrecordedDirectoryStays(env: Env, file: Node, m: Mirror, src: Fs)
    requires file.File? && !env.excluded(["a", "b"])
    requires m == SyncRel(env, OneDirOneFile(file), Mirror(map[], map[]), ["a", "b"]).m
    requires Setting(env, src) && ["a"] !in src && ["c"] in src && Included(env, src, ["c"])
    ensures Coherent(m) && ["a"] in m.dst && ["a"] !in m.cache
    ensures Reconcile(env, src, m, true).ok
    ensures Reconcile(env, src, m, false) != Reconcile(env, src, m, true)
  {
    EventBeforeDirectory(env, file);
    assert Parent(["a", "b"]) == ["a"] && Parent(["a"]) == [];
    assert ["a", "b"] !in src by { assert Parent(["a", "b"]) !in src; }
    assert FaithfulMirror(src, m);
    LeftBehind(env, src, m, ["a"]);
  }

  lemma LeftBehind(env: Env, src: Fs, m: Mirror, p: Path)
    requires Setting(env, src) && Coherent(m) && FaithfulMirror(src, m)
    requires p in m.dst && forall q | q in m.dst :: q !in src
    requires forall q | q in m.cache :: !Under(q, p)
    ensures Reconcile(env, src, m, true).ok
    ensures Reconcile(env, src, m, false) != Reconcile(env, src, m, true)
  {
    NoClashApart(env, src, m);
    assert !Tracked(env, src, m, p);
    LightEqualsDeep(env, src, m);
  }

  lemma NoClashApart(env: Env, src: Fs, m: Mirror)
    requires Setting(env, src) && Coherent(m) && FaithfulMirror(src, m)
    requires forall q | q in m.dst :: q !in src
    ensures Reconcile(env, src, m, true).ok
  {
    DeepReconcileMirrors(env, src, m);
    assert forall q :: !Clash(src, m.dst, q);
  }

  // ----- exclusions that leave something inside an excluded directory -----

  /**
    A path inside an excluded directory that is not excluded itself, as a pattern for the
    directory's base name leaves it: wherever it can be synced, the whole queue syncs it,
    and the collapsed queue does nothing.
   */
  lemma OpenExclusionBreaksCollapsing(env: Env, src: Fs, m: Mirror, p: Path, q: Path)
    requires !env.dryRun && IsTree(src) && ValidPath(p) && ValidPath(q) && p < q
    requires env.excluded(p) && !env.excluded(q) && !HasStateTree(m.cache, p)
    requires LookUp(src, q).Found? && Mirrored(src[q]) && SyncRel(env, src, m, q).ok
    ensures var entries := [Entry(p, true), Entry(q, false)];
            && (forall e | e in entries :: e.rel != [])
            && Flush(env, src, m, Collapse(entries)) == m
            && q in Flush(env, src, m, SortEntries(entries)).cache && q !in m.cache
  {
    hide Collapse;
    hide SortEntries;
    var e1, e2 := Entry(p, true), Entry(q, false);
    CollapsedPair(p, q);
    FlushPair(env, src, m, e1, e2);
    assert FlushOne(env, src, m, e1).m == m;
    assert Under(p, q);
  }

  /** The directories down to `p`. */
  function Chain(p: Path, perm: Perm): (fs: Fs)
    ensures forall x :: x in fs <==> x != [] && Under(x, p)
    ensures forall x | x in fs :: fs[x] == Dir(perm)
    decreases |p|
  {
    if p == [] then map[]
    else
      assert forall x :: Under(x, p) <==> x == p || Under(x, Parent(p)) by {
        forall x ensures Under(x, p) <==> x == p || Under(x, Parent(p)) { UnderParent(x, p); }
      }
      Chain(Parent(p), perm)[p := Dir(perm)]
  }

  lemma ChainIsTree(p: Path, perm: Perm)
    ensures IsTree(Chain(p, perm)) && Plain(Chain(p, perm))
  {
    forall x | x in Chain(p, perm) ensures x != [] && HasDir(Chain(p, perm), Parent(x)) {
      assert Parent(x) <= x && Under(Parent(x), p);
    }
  }

  lemma ChainSyncs(env: Env, m: Mirror, q: Path, perm: Perm)
    requires !env.dryRun && q != [] && !env.excluded(q) && m.dst == map[] && m.cache == map[]
    ensures var src := Chain(q, perm);
            && Setting(env, src) && LookUp(src, q) == Found(src[q]) && src[q].Dir? && SyncRel(env, src, m, q).ok
  {
    var src := Chain(q, perm);
    ChainIsTree(q, perm);
    assert Under(q, q);
    FoundFrom(src, q, 0);
    assert IsTree(m.dst);
    MkdirAllMeaning(m.dst, q, Created(env, perm));
  }

  /** Every queue whose kept trees sync may be collapsed. */
  ghost predicate Collapsible(env: Env) {
    forall src: Fs, m: Mirror, entries: seq<Entry> |
      Setting(env, src) && Coherent(m) && ValidEntries(entries) && DistinctPaths(entries) &&
      TreesSucceed(env, src, m, Collapse(entries)) ::
        Flush(env, src, m, Collapse(entries)) == Flush(env, src, m, SortEntries(entries))
  }

  lemma OpenIsNotCollapsible(env: Env, p: Path, q: Path)
    requires !env.dryRun && p != [] && ValidPath(q) && Under(p, q) && env.excluded(p) && !env.excluded(q)
    ensures !Collapsible(env)
  {
    hide Collapse;
    hide SortEntries;
    hide Chain;
    var src, m, e1, e2 := Chain(q, 0), Mirror(map[], map[]), Entry(p, true), Entry(q, false);
    assert p != q && p < q;
    CollapsedPair(p, q);
    ChainSyncs(env, m, q, 0);
    OpenExclusionBreaksCollapsing(env, src, m, p, q);
    assert TreesSucceed(env, src, m, Collapse([e1, e2])) by { assert [e1][1..] == []; }
    assert Coherent(m);
    assert Flush(env, src, m, Collapse([e1, e2])) != Flush(env, src, m, SortEntries([e1, e2]));
  }

  /** Queues may be collapsed exactly under exclusions that are closed downwards. */
  lemma CollapsibleExactly(env: Env)
    requires !env.dryRun
    ensures Collapsible(env) <==> Closed(env)
  {
    if Closed(env) {
      forall src: Fs, m: Mirror, entries: seq<Entry> |
        Setting(env, src) && Coherent(m) && ValidEntries(entries) && DistinctPaths(entries) &&
        TreesSucceed(env, src, m, Collapse(entries))
        ensures Flush(env, src, m, Collapse(entries)) == Flush(env, src, m, SortEntries(entries))
      {
        FlushCollapsed(env, src, m, entries);
      }
    } else {
      var p, q :| p != [] && ValidPath(q) && Under(p, q) && env.excluded(p) && !env.excluded(q);
      OpenIsNotCollapsible(env, p, q);
    }
  }

  /**
    The kind of the backup object is not compared: a directory that happens to show
    the file's mode, size and time is taken for the file, and the sync reports success.
   */
  lemma AliasedDirectoryIsTakenForFile(env: Env, dst: Fs, p: Path, file: Node)
    requires !env.dryRun && file.File? && p != [] && p in dst && dst[p] == Dir(file.perm)
    requires env.dirStat(dst, p) == Stat(|file.data|, file.mtime)
    ensures var o := CopyRel(env, Mirror(dst, map[]), p, file);
            o.ok && StateMatches(o.m.cache, p, StateOf(file)) && o.m.dst[p].Dir?
    ensures !NoAlias(env, map[p := file])
  {
    assert FileMetadataMatches(env, dst, p, file);
  }
}
