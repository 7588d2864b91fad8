/**
  The syncer against a source that never stands still. Each step below is one
  system call or one update of the record; between any two of them the source may
  change in any way that gives every changed file a modification time it has never
  carried before, and any step may fail.
 */
module Racing {

  import opened Paths
  import opened FileTree
  import opened Wrappers
  import opened Mirroring
  import opened MirrorFacts
  import opened Reconciling

  /** What the single worker is in the middle of. */
  datatype Job =
    | Idle
    | Looked(p: Path, info: PathState)                      // Lstat done
    | Reading(p: Path, info: PathState, data: seq<Byte>)    // temporary file being filled
    | Filled(p: Path, info: PathState, data: seq<Byte>)     // temporary file complete and synced
    | Renamed(p: Path, info: PathState)                     // target replaced, not yet remembered
    | Removed(p: Path, file: bool)                          // backup subtree removed, not yet forgotten

  /**
    `past`: every modification time a path has ever carried. `versions`: every
    complete file ever put under a name of the backup. `doomed`: paths found to have
    lost their source. `torn`: paths whose backup was changed without the record
    being updated, because the directory sync after it failed.
   */
  datatype World = World(src: Fs, past: set<(Path, Time)>, versions: set<(Path, Node)>, dst: Fs, cache: Cache,
                         job: Job, doomed: set<Path>, torn: set<Path>)

  datatype Action =
    | Change(src: Fs)
    | Look(p: Path)
    | Skip
    | Adopt
    | MakeDir(perm: Perm)
    | Open
    | Read(chunk: seq<Byte>)
    | Finish
    | Rename(perm: Perm)
    | Remember
    | Notice(p: Path)
    | Remove(p: Path)
    | ForgetTree
    | ForgetOne
    | Fail
    | Restart
    | PowerLoss(dst: Fs)

  // ----- steps -----

  ghost predicate SameFile(a: Fs, b: Fs, p: Path) {
    p in a && p in b && a[p].File? && b[p].File? && a[p].mtime == b[p].mtime && a[p].data == b[p].data
  }

  function Times(fs: Fs): set<(Path, Time)> {
    set p | p in fs && fs[p].File? :: (p, fs[p].mtime)
  }

  function Files(fs: Fs): set<(Path, Node)> {
    set p | p in fs && fs[p].File? :: (p, fs[p])
  }

  /**
    A backup tree that a power failure may leave: any mixture of complete versions,
    and temporary files with any contents under names the source does not use.
   */
  ghost predicate Survives(w: World, fs: Fs) {
    && IsTree(fs) && Plain(fs)
    && forall p | p in fs && fs[p].File? :: (p, fs[p]) in w.versions || p !in w.src
  }

  /** A file that is new or differs has a time its path has never carried. */
  ghost predicate FreshTimes(w: World, src: Fs) {
    forall p | p in src && src[p].File? && !SameFile(w.src, src, p) :: (p, src[p].mtime) !in w.past
  }

  /** The source file still carries the time that Lstat reported. */
  predicate Unchanged(src: Fs, p: Path, info: PathState) {
    p in src && src[p].File? && src[p].mtime == info.mtime
  }

  ghost predicate Next(env: Env, w: World, a: Action, w': World) {
    match a
    case Change(src) =>
      IsTree(src) && FreshTimes(w, src) && w' == w.(src := src, past := w.past + Times(src))
    case Look(p) =>
      w.job.Idle? && p != [] && !env.excluded(p) && LookUp(w.src, p).Found? && Mirrored(w.src[p]) &&
      w' == w.(job := Looked(p, StateOf(w.src[p])), doomed := set q | q in w.doomed && !Under(q, p))
    case Skip =>
      w.job.Looked? && StateMatches(w.cache, w.job.p, w.job.info) && w' == w.(job := Idle)
    case Adopt =>
      w.job.Looked? && w.job.info.kind.FileKind? &&
      (var p, info := w.job.p, w.job.info;
       p in w.dst && w.dst[p].File? && w.dst[p].perm == info.perm && w.dst[p].mtime == info.mtime &&
       |w.dst[p].data| == info.size &&
       w' == w.(cache := w.cache[p := info], job := Idle, torn := w.torn - {p}))
    case MakeDir(perm) =>
      w.job.Looked? && w.job.info.kind.DirKind? &&
      (var p, info := w.job.p, w.job.info;
       MkdirAll(w.dst, p, perm).Some? &&
       w' == w.(dst := MkdirAll(w.dst, p, perm).value, cache := w.cache[p := info], job := Idle, torn := w.torn - {p}))
    case Open =>
      w.job.Looked? && w.job.info.kind.FileKind? && w' == w.(job := Reading(w.job.p, w.job.info, []))
    case Read(chunk) =>
      w.job.Reading? &&
      (Unchanged(w.src, w.job.p, w.job.info) ==> w.job.data + chunk <= w.src[w.job.p].data) &&
      w' == w.(job := Reading(w.job.p, w.job.info, w.job.data + chunk))
    case Finish =>
      w.job.Reading? &&
      (Unchanged(w.src, w.job.p, w.job.info) ==> |w.job.data| == |w.src[w.job.p].data|) &&
      w' == w.(job := Filled(w.job.p, w.job.info, w.job.data))
    case Rename(perm) =>
      w.job.Filled? && w.job.p != [] &&
      (var p := w.job.p;
       var file := File(w.job.info.perm, w.job.info.mtime, w.job.data);
       Replace(w.dst, p, file, perm).Some? &&
       w' == w.(dst := Replace(w.dst, p, file, perm).value, job := Renamed(p, w.job.info), torn := w.torn + {p},
                versions := w.versions + {(p, file)}))
    case Remember =>
      w.job.Renamed? && w' == w.(cache := w.cache[w.job.p := w.job.info], job := Idle, torn := w.torn - {w.job.p})
    case Notice(p) =>
      w.job.Idle? && p != [] && !(Included(env, w.src, p) && Mirrored(w.src[p])) && w' == w.(doomed := w.doomed + {p})
    case Remove(p) =>
      w.job.Idle? && p in w.doomed && RemoveAll(w.dst, p).Some? &&
      w' == w.(dst := RemoveAll(w.dst, p).value, job := Removed(p, p in w.dst && w.dst[p].File?),
               torn := w.torn + set q | q in w.cache && Under(p, q))
    case ForgetTree =>
      w.job.Removed? &&
      w' == w.(cache := Forget(w.cache, w.job.p), job := Idle, torn := set q | q in w.torn && !Under(w.job.p, q))
    case ForgetOne => // the walk of the backup, after a single file
      w.job.Removed? && w.job.file &&
      w' == w.(cache := w.cache - {w.job.p}, job := Idle, torn := w.torn - {w.job.p})
    case Fail =>
      w' == w.(job := Idle)
    case Restart =>
      w' == w.(cache := map[], job := Idle, doomed := {}, torn := {})
    case PowerLoss(dst) =>
      Survives(w, dst) &&
      w' == w.(dst := dst, past := w.past + Times(dst), versions := w.versions + Files(dst),
               cache := map[], job := Idle, doomed := {}, torn := {})
  }

  /** A fresh process over any plain backup whose times and contents belong together. */
  ghost predicate Init(w: World) {
    && IsTree(w.src) && IsTree(w.dst) && Plain(w.dst) && FaithfulTimes(w.src, w.dst)
    && w.past == Times(w.src) + Times(w.dst) && w.versions == Files(w.dst)
    && w.cache == map[] && w.job == Idle && w.doomed == {} && w.torn == {}
  }

  /** Some run that takes these actions, in this order, ends in `w`. */
  ghost predicate Reachable(env: Env, acts: seq<Action>, w: World)
    decreases |acts|
  {
    if acts == [] then Init(w)
    else
      var before, last := acts[..|acts| - 1], acts[|acts| - 1];
      exists v :: Reachable(env, before, v) && Next(env, v, last, w)
  }

  lemma ReachableStep(env: Env, acts: seq<Action>, w: World, a: Action, w': World)
    requires Reachable(env, acts, w) && Next(env, w, a, w')
    ensures Reachable(env, acts + [a], w')
  {
    hide Next;
    var all := acts + [a];
    assert all[..|all| - 1] == acts && all[|all| - 1] == a;
  }

  // ----- the invariant -----

  /** No component of the path is excluded. */
  ghost predicate Allowed(env: Env, p: Path) {
    forall k | 0 < k <= |p| :: !env.excluded(p[..k])
  }

  ghost predicate RemembersFile(cache: Cache, p: Path) {
    p in cache && cache[p].kind.FileKind?
  }

  /** The record of the file `p` speaks of the current source. */
  ghost predicate Current(w: World, p: Path) {
    RemembersFile(w.cache, p) && p in w.src && w.src[p].File? && w.src[p].mtime == w.cache[p].mtime
  }

  ghost predicate Shapes(w: World) {
    && IsTree(w.src) && IsTree(w.dst) && Plain(w.dst) && FaithfulTimes(w.src, w.dst) && VersionsFaithful(w)
    && [] !in w.cache
  }

  /** Every version is a file whose time is known, and it has the source's contents if it has its time. */
  ghost predicate VersionsFaithful(w: World) {
    && Files(w.dst) <= w.versions
    && forall v | v in w.versions ::
         && v.1.File? && (v.0, v.1.mtime) in w.past
         && (v.0 in w.src && w.src[v.0].File? && w.src[v.0].mtime == v.1.mtime ==> w.src[v.0].data == v.1.data)
  }

  predicate Busy(job: Job) {
    job.Looked? || job.Reading? || job.Filled? || job.Renamed?
  }

  ghost predicate TimesPast(w: World) {
    && Times(w.src) <= w.past && Times(w.dst) <= w.past
    && (forall p | RemembersFile(w.cache, p) :: (p, w.cache[p].mtime) in w.past)
    && (Busy(w.job) && w.job.info.kind.FileKind? ==> (w.job.p, w.job.info.mtime) in w.past)
  }

  ghost predicate JobSound(env: Env, w: World) {
    && (Busy(w.job) ==> w.job.p != [])
    && (Busy(w.job) && !w.job.Looked? ==> w.job.info.kind.FileKind?)
    && (Busy(w.job) && w.job.info.kind.FileKind? && Current(w, w.job.p) ==> Unchanged(w.src, w.job.p, w.job.info))
    && (w.job.Reading? && Unchanged(w.src, w.job.p, w.job.info) ==> w.job.data <= w.src[w.job.p].data)
    && (w.job.Filled? && Unchanged(w.src, w.job.p, w.job.info) ==> w.job.data == w.src[w.job.p].data)
    && (w.job.Renamed? ==> w.job.p in w.dst && Agrees(w.job.info, w.dst[w.job.p]))
  }

  /** A record that speaks of the current source is backed by a file of that time. */
  ghost predicate RecordsBacked(env: Env, w: World) {
    forall p | Current(w, p) && Allowed(env, p) ::
      p in w.dst && w.dst[p].File? && w.dst[p].mtime == w.src[p].mtime
  }

  ghost predicate Gone(env: Env, w: World, q: Path) {
    forall p | Under(q, p) && Allowed(env, p) :: !Current(w, p)
  }

  ghost predicate DoomedGone(env: Env, w: World) {
    && (forall q | q in w.doomed :: q != [] && Gone(env, w, q))
    && (w.job.Removed? ==> w.job.p != [] && Gone(env, w, w.job.p))
    && (Busy(w.job) ==> forall q | q in w.doomed :: !Under(q, w.job.p))
  }

  ghost predicate CoherentOutside(w: World) {
    forall p | p in w.cache && p !in w.torn :: p in w.dst && Agrees(w.cache[p], w.dst[p])
  }

  ghost predicate Inv(env: Env, w: World) {
    Shapes(w) && TimesPast(w) && JobSound(env, w) && RecordsBacked(env, w) && DoomedGone(env, w) && CoherentOutside(w)
  }

  lemma InitInv(env: Env, w: World)
    requires Init(w)
    ensures Inv(env, w)
  {
  }

  // ----- the source changes -----

  lemma ChangeKeepsCurrent(env: Env, w: World, src: Fs, w': World)
    requires Inv(env, w) && Next(env, w, Change(src), w')
    ensures forall p | Current(w', p) :: Current(w, p) && SameFile(w.src, w'.src, p)
    ensures forall p, info: PathState | info.kind.FileKind? && (p, info.mtime) in w.past && Unchanged(src, p, info) ::
              Unchanged(w.src, p, info) && SameFile(w.src, src, p)
  {
  }

  lemma ChangeInv(env: Env, w: World, src: Fs, w': World)
    requires Inv(env, w) && Next(env, w, Change(src), w')
    ensures Inv(env, w')
  {
    ChangeKeepsCurrent(env, w, src, w');
    forall p | p in w'.src && p in w'.dst && w'.src[p].File? && w'.dst[p].File? && w'.src[p].mtime == w'.dst[p].mtime
      ensures w'.src[p].data == w'.dst[p].data
    {
      assert (p, w.dst[p].mtime) in Times(w.dst);
      assert SameFile(w.src, src, p);
    }
  }

  // ----- the syncer moves -----

  lemma IncludedIsAllowed(env: Env, src: Fs, p: Path)
    requires IsTree(src) && p in src && !src[p].Symlink?
    ensures Included(env, src, p) <==> Allowed(env, p)
  {
    forall k | 0 < k <= |p| ensures p[..k] in src && !src[p[..k]].Symlink? {
      if k < |p| { AncestorIsDir(src, p[..k], p); } else { assert p[..k] == p; }
    }
  }

  lemma LookInv(env: Env, w: World, p: Path, w': World)
    requires Inv(env, w) && Next(env, w, Look(p), w')
    ensures Inv(env, w')
  {
    if w.src[p].File? { assert (p, w.src[p].mtime) in Times(w.src); }
    assert forall q :: Current(w', q) <==> Current(w, q);
  }

  lemma CopyStepsInv(env: Env, w: World, a: Action, w': World)
    requires Inv(env, w) && Next(env, w, a, w')
    requires a.Skip? || a.Open? || a.Read? || a.Finish? || a.Fail?
    ensures Inv(env, w')
  {
    assert forall q :: Current(w', q) <==> Current(w, q);
  }

  lemma AdoptInv(env: Env, w: World, w': World)
    requires Inv(env, w) && Next(env, w, Adopt, w')
    ensures Inv(env, w')
  {
    var p := w.job.p;
    assert forall q | q != p :: Current(w', q) <==> Current(w, q);
  }

  lemma RememberInv(env: Env, w: World, w': World)
    requires Inv(env, w) && Next(env, w, Remember, w')
    ensures Inv(env, w')
  {
    var p := w.job.p;
    assert forall q | q != p :: Current(w', q) <==> Current(w, q);
  }

  lemma MakeDirInv(env: Env, w: World, perm: Perm, w': World)
    requires Inv(env, w) && Next(env, w, MakeDir(perm), w')
    ensures Inv(env, w')
  {
    MadeDirs(w.dst, w.job.p, perm);
    MadeDirInv(env, w, w'.dst, w');
  }

  lemma MadeDirInv(env: Env, w: World, g: Fs, w': World)
    requires Inv(env, w) && w.job.Looked? && w.job.info.kind.DirKind?
    requires IsTree(g) && Plain(g) && HasDir(g, w.job.p) && Times(g) == Times(w.dst)
    requires forall q | q in g && g[q].File? :: q in w.dst && g[q] == w.dst[q]
    requires forall q | q in w.dst :: q in g && g[q] == w.dst[q]
    requires w' == World(w.src, w.past, w.versions, g, w.cache[w.job.p := w.job.info], Idle, w.doomed, w.torn - {w.job.p})
    ensures Inv(env, w')
  {
    assert !Current(w', w.job.p);
    assert forall q | q != w.job.p :: Current(w', q) <==> Current(w, q);
  }

  lemma RenameInv(env: Env, w: World, perm: Perm, w': World)
    requires Inv(env, w) && Next(env, w, Rename(perm), w')
    ensures Inv(env, w')
  {
    var p := w.job.p;
    var file := File(w.job.info.perm, w.job.info.mtime, w.job.data);
    ReplaceGood(env, w.dst, p, file, perm);
    ReplacedFiles(w.dst, p, file, perm);
    assert forall q :: Current(w', q) <==> Current(w, q);
    forall t | t in Times(w'.dst) ensures t in w'.past {
      var q :| q in w'.dst && w'.dst[q].File? && t == (q, w'.dst[q].mtime);
      if q != p { assert t in Times(w.dst); }
    }
  }

  lemma MadeDirs(dst: Fs, p: Path, perm: Perm)
    requires IsTree(dst) && Plain(dst) && MkdirAll(dst, p, perm).Some?
    ensures var g := MkdirAll(dst, p, perm).value;
            && IsTree(g) && Plain(g) && HasDir(g, p) && Times(g) == Times(dst)
            && (forall q | q in g && g[q].File? :: q in dst && g[q] == dst[q])
            && (forall q | q in dst :: q in g && g[q] == dst[q])
  {
    MkdirAllMeaning(dst, p, perm);
    ExtendedIsTree(dst, p, perm, MkdirAll(dst, p, perm).value);
  }

  /** Replacing a file brings no other file into being. */
  lemma ReplacedFiles(dst: Fs, p: Path, file: Node, perm: Perm)
    requires IsTree(dst) && p != [] && file.File? && Replace(dst, p, file, perm).Some?
    ensures var g := Replace(dst, p, file, perm).value;
            forall q | q in g && g[q].File? && q != p :: q in dst && dst[q] == g[q]
  {
    MkdirAllMeaning(dst, Parent(p), perm);
  }

  lemma NoticeInv(env: Env, w: World, p: Path, w': World)
    requires Inv(env, w) && Next(env, w, Notice(p), w')
    ensures Inv(env, w')
  {
    assert forall q :: Current(w', q) <==> Current(w, q);
    forall q | Under(p, q) && Allowed(env, q) ensures !Current(w, q) {
      if Current(w, q) {
        IncludedIsAllowed(env, w.src, q);
        IncludedAncestor(env, w.src, p, q);
        if p != q { AncestorIsDir(w.src, p, q); }
      }
    }
  }

  lemma RemoveInv(env: Env, w: World, p: Path, w': World)
    requires Inv(env, w) && Next(env, w, Remove(p), w')
    ensures Inv(env, w')
  {
    WithoutIsTree(w.dst, p);
    assert forall q :: Current(w', q) <==> Current(w, q);
    forall t | t in Times(w'.dst) ensures t in Times(w.dst) {
      var q :| q in w'.dst && w'.dst[q].File? && t == (q, w'.dst[q].mtime);
    }
  }

  lemma ForgetInv(env: Env, w: World, w': World)
    requires Inv(env, w) && (Next(env, w, ForgetTree, w') || Next(env, w, ForgetOne, w'))
    ensures Inv(env, w')
  {
    assert forall q :: Current(w', q) ==> Current(w, q);
  }

  lemma RestartInv(env: Env, w: World, w': World)
    requires Inv(env, w) && Next(env, w, Restart, w')
    ensures Inv(env, w')
  {
  }

  lemma PowerLossInv(env: Env, w: World, dst: Fs, w': World)
    requires Inv(env, w) && Next(env, w, PowerLoss(dst), w')
    ensures Inv(env, w')
  {
    forall p | p in dst && dst[p].File?
      ensures (p, dst[p].mtime) in Times(dst)
      ensures p in w.src && w.src[p].File? && w.src[p].mtime == dst[p].mtime ==> w.src[p].data == dst[p].data
    {
    }
  }

  lemma NextInv(env: Env, w: World, a: Action, w': World)
    requires Inv(env, w) && Next(env, w, a, w')
    ensures Inv(env, w')
  {
    hide Inv;
    hide Next;
    match a
    case Change(src) => ChangeInv(env, w, src, w');
    case Look(p) => LookInv(env, w, p, w');
    case Skip => CopyStepsInv(env, w, a, w');
    case Adopt => AdoptInv(env, w, w');
    case MakeDir(perm) => MakeDirInv(env, w, perm, w');
    case Open => CopyStepsInv(env, w, a, w');
    case Read(_) => CopyStepsInv(env, w, a, w');
    case Finish => CopyStepsInv(env, w, a, w');
    case Rename(perm) => RenameInv(env, w, perm, w');
    case Remember => RememberInv(env, w, w');
    case Notice(p) => NoticeInv(env, w, p, w');
    case Remove(p) => RemoveInv(env, w, p, w');
    case ForgetTree => ForgetInv(env, w, w');
    case ForgetOne => ForgetInv(env, w, w');
    case Fail => CopyStepsInv(env, w, a, w');
    case Restart => RestartInv(env, w, w');
    case PowerLoss(dst) => PowerLossInv(env, w, dst, w');
  }

  lemma {:induction false} ReachableInv(env: Env, acts: seq<Action>, w: World)
    requires Reachable(env, acts, w)
    ensures Inv(env, w)
    decreases |acts|
  {
    if acts == [] {
      InitInv(env, w);
    } else {
      var before, last := acts[..|acts| - 1], acts[|acts| - 1];
      var v :| Reachable(env, before, v) && Next(env, v, last, w);
      ReachableInv(env, before, v);
      NextInv(env, v, last, w);
    }
  }

  // ----- results -----

  /**
    In every state of every run, an included source file whose record or whose
    backup carries its current metadata has a backup with its current contents; and
    where no directory sync failed, a backup that equals it altogether.
   */
  lemma MatchingMetadataMeansMatchingContents(env: Env, acts: seq<Action>, w: World, p: Path)
    requires Reachable(env, acts, w)
    requires Included(env, w.src, p) && w.src[p].File?
    ensures StateMatches(w.cache, p, StateOf(w.src[p])) ==>
              p in w.dst && w.dst[p].File? && w.dst[p].data == w.src[p].data
    ensures StateMatches(w.cache, p, StateOf(w.src[p])) && p !in w.torn ==> p in w.dst && w.dst[p] == w.src[p]
    ensures p in w.dst && w.dst[p].File? && w.dst[p].mtime == w.src[p].mtime ==> w.dst[p].data == w.src[p].data
  {
    ReachableInv(env, acts, w);
    IncludedIsAllowed(env, w.src, p);
    if StateMatches(w.cache, p, StateOf(w.src[p])) { assert Current(w, p); }
  }
}
