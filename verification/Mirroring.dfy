/**
  The mirror of netfin/internal/filesync as functions on values: a backup tree and
  the in-memory record of what was last written there.
 */
module Mirroring {

  import opened Paths
  import opened FileTree
  import opened Wrappers
  import opened Walk
  import opened RecordOrder

  datatype Kind = DirKind | FileKind

  /** What the syncer remembers about one backed-up path. */
  datatype PathState = PathState(kind: Kind, perm: Perm, size: nat, mtime: Time)

  type Cache = map<Path, PathState>

  datatype Mirror = Mirror(dst: Fs, cache: Cache)

  /** An operation that fails keeps what it had already done. */
  datatype Outcome = Outcome(m: Mirror, ok: bool)

  datatype Stat = Stat(size: nat, mtime: Time)

  /**
    The exclusion test, the process umask, the size and modification time the
    system reports for a directory of the backup (any function of the tree), and
    the dry-run switch.
   */
  datatype Env = Env(excluded: Path -> bool, umask: Perm, dirStat: (Fs, Path) -> Stat, dryRun: bool)

  const NO_TIME: Time := 0
  const PARENT_PERM: Perm := 0x1ED // 0755

  function Created(env: Env, perm: Perm): Perm {
    perm & !env.umask
  }

  predicate Mirrored(node: Node) {
    node.Dir? || node.File?
  }

  /** pathStateFromInfo */
  function StateOf(node: Node): PathState
    requires Mirrored(node)
  {
    match node
    case Dir(perm) => PathState(DirKind, perm, 0, NO_TIME)
    case File(perm, mtime, data) => PathState(FileKind, perm, |data|, mtime)
  }

  predicate StateMatches(cache: Cache, p: Path, state: PathState) {
    p in cache && cache[p] == state
  }

  /** fileMetadataMatches: the kind of the backup object is not compared. */
  predicate FileMetadataMatches(env: Env, dst: Fs, p: Path, file: Node)
    requires file.File?
  {
    p in dst &&
    match dst[p]
    case File(perm, mtime, data) => perm == file.perm && |data| == |file.data| && mtime == file.mtime
    case Dir(perm) =>
      var stat := env.dirStat(dst, p);
      perm == file.perm && stat.size == |file.data| && stat.mtime == file.mtime
    case _ => false
  }

  // ----- single paths -----

  function SyncDir(env: Env, m: Mirror, p: Path, node: Node): Outcome
    requires node.Dir?
  {
    if StateMatches(m.cache, p, StateOf(node)) || env.dryRun then Outcome(m, true)
    else match MkdirAll(m.dst, p, Created(env, node.perm))
      case None => Outcome(m, false)
      case Some(dst) => Outcome(Mirror(dst, m.cache[p := StateOf(node)]), true)
  }

  function CopyRel(env: Env, m: Mirror, p: Path, node: Node): Outcome
    requires node.File? && p != []
  {
    if StateMatches(m.cache, p, StateOf(node)) || env.dryRun then Outcome(m, true)
    else if FileMetadataMatches(env, m.dst, p, node) then
      Outcome(Mirror(m.dst, m.cache[p := StateOf(node)]), true)
    else match Replace(m.dst, p, node, Created(env, PARENT_PERM))
      case None => Outcome(m, false)
      case Some(dst) => Outcome(Mirror(dst, m.cache[p := StateOf(node)]), true)
  }

  function Forget(cache: Cache, p: Path): Cache {
    map q | q in cache && !Under(p, q) :: cache[q]
  }

  predicate HasStateTree(cache: Cache, p: Path) {
    exists q :: q in cache && Under(p, q)
  }

  function RemoveBackupPath(env: Env, m: Mirror, p: Path): Outcome {
    if env.dryRun then Outcome(m, true)
    else match RemoveAll(m.dst, p)
      case None => Outcome(m, false)
      case Some(dst) => Outcome(Mirror(dst, Forget(m.cache, p)), true)
  }

  function RemoveKnownBackupPath(env: Env, m: Mirror, p: Path): Outcome {
    if HasStateTree(m.cache, p) then RemoveBackupPath(env, m, p) else Outcome(m, true)
  }

  // ----- looking a path up in the source -----

  /** A missing path, one behind a symbolic link, and one behind a plain file are told apart. */
  datatype Lookup = Found(node: Node) | Missing | Linked | NotDirectory

  /** HasSymlinkInPath followed by Lstat: the components of `p` from position `k` on. */
  function LookupFrom(src: Fs, p: Path, k: nat): (l: Lookup)
    requires k <= |p| && p != []
    ensures l.Found? ==> p in src && l.node == src[p]
    decreases |p| - k
  {
    if k > 0 && p[..k] in src && src[p[..k]].Symlink? then Linked
    else if k == |p| then (if p in src then Found(src[p]) else Missing)
    else if k > 0 && p[..k] !in src then Missing
    else if k > 0 && !src[p[..k]].Dir? then NotDirectory
    else LookupFrom(src, p, k + 1)
  }

  function LookUp(src: Fs, p: Path): Lookup
    requires p != []
  {
    LookupFrom(src, p, 0)
  }

  function SyncRel(env: Env, src: Fs, m: Mirror, p: Path): Outcome {
    if p == [] then Outcome(m, true)
    else if env.excluded(p) then RemoveKnownBackupPath(env, m, p)
    else match LookUp(src, p)
      case NotDirectory => Outcome(m, false)
      case Linked => RemoveKnownBackupPath(env, m, p)
      case Missing => RemoveKnownBackupPath(env, m, p)
      case Found(node) =>
        if node.Dir? then SyncDir(env, m, p, node)
        else if node.File? then CopyRel(env, m, p, node)
        else RemoveKnownBackupPath(env, m, p)
  }

  // ----- walks over the source -----

  function Skipped(env: Env, src: Fs): Skip {
    q => env.excluded(q) || (q in src && src[q].Symlink?)
  }

  /** The walk callback on a path that is not left out; a tree sync also sweeps special files. */
  function Visit(env: Env, src: Fs, m: Mirror, p: Path, sweep: bool): Outcome
    requires p in src && p != []
  {
    if src[p].Dir? then SyncDir(env, m, p, src[p])
    else if src[p].File? then CopyRel(env, m, p, src[p])
    else if sweep then RemoveBackupPath(env, m, p)
    else Outcome(m, true)
  }

  function VisitAll(env: Env, src: Fs, m: Mirror, ps: seq<Path>, sweep: bool): Outcome
    requires forall p | p in ps :: p in src && p != []
    decreases |ps|
  {
    if ps == [] then Outcome(m, true)
    else
      var o := Visit(env, src, m, ps[0], sweep);
      if o.ok then VisitAll(env, src, o.m, ps[1..], sweep) else o
  }

  /** Every component down to `p` is kept by the walk. */
  predicate Live(seen: set<Path>, p: Path) {
    forall k | 0 < k <= |p| :: p[..k] in seen
  }

  /** An entry of the backup where the walk turns from seen to unseen. */
  predicate DeadEnd(dst: Fs, seen: set<Path>, q: Path) {
    q in dst && q != [] && q !in seen && Live(seen, Parent(q))
  }

  /** The records that go with such an entry: a directory's whole tree, a file's own record only. */
  predicate Dropped(dst: Fs, seen: set<Path>, p: Path) {
    exists q :: q in dst && DeadEnd(dst, seen, q) && (p == q || (dst[q].Dir? && Under(q, p)))
  }

  /** removeDeletedByWalkingDestination */
  function PruneByWalk(env: Env, m: Mirror, seen: set<Path>): Mirror {
    if env.dryRun then m
    else Mirror(map p | p in m.dst && Live(seen, p) :: m.dst[p],
                map p | p in m.cache && !Dropped(m.dst, seen, p) :: m.cache[p])
  }

  /** removeDeletedFromStateUnder over the recorded paths in turn; an error ends it. */
  function PruneList(env: Env, m: Mirror, root: Path, seen: set<Path>, paths: seq<Path>): Outcome
    decreases |paths|
  {
    if paths == [] then Outcome(m, true)
    else if !Under(root, paths[0]) || paths[0] in seen || paths[0] !in m.cache then
      PruneList(env, m, root, seen, paths[1..])
    else
      var o := RemoveBackupPath(env, m, paths[0]);
      if o.ok then PruneList(env, o.m, root, seen, paths[1..]) else o
  }

  function PruneByState(env: Env, m: Mirror, root: Path, seen: set<Path>): Outcome {
    PruneList(env, m, root, seen, SortedPaths(m.cache.Keys))
  }

  /** Some remembered path at or above `p`, inside `root`, was not seen. */
  predicate Doomed(cache: Cache, root: Path, seen: set<Path>, p: Path) {
    exists q :: q in cache && q !in seen && Under(root, q) && Under(q, p)
  }

  /** What pruning by the record leaves where nothing stands in its way. */
  function WithoutDoomed(env: Env, m: Mirror, root: Path, seen: set<Path>): Mirror {
    if env.dryRun then m
    else Mirror(map p | p in m.dst && !Doomed(m.cache, root, seen, p) :: m.dst[p],
                map p | p in m.cache && !Doomed(m.cache, root, seen, p) :: m.cache[p])
  }

  function SourceVisits(env: Env, src: Fs): seq<Path> {
    Visits(src, Skipped(env, src), [])
  }

  lemma SourceVisitsInSource(env: Env, src: Fs, p: Path)
    requires IsTree(src)
    ensures forall q | q in Visits(src, Skipped(env, src), p) :: q in src && q != []
  {
    VisitsMeaning(src, Skipped(env, src), p);
  }

  function Reconcile(env: Env, src: Fs, m: Mirror, deep: bool): Outcome
    requires IsTree(src)
  {
    SourceVisitsInSource(env, src, []);
    var ps := SourceVisits(env, src);
    var o := VisitAll(env, src, m, ps, false);
    if !o.ok then o
    else if deep then Outcome(PruneByWalk(env, o.m, Elems(ps)), true)
    else PruneByState(env, o.m, [], Elems(ps))
  }

  function SyncTree(env: Env, src: Fs, m: Mirror, p: Path): Outcome
    requires IsTree(src)
  {
    if p != [] && !env.excluded(p) && LookUp(src, p).Found? && LookUp(src, p).node.Dir? then
      SourceVisitsInSource(env, src, p);
      var ps := [p] + Visits(src, Skipped(env, src), p);
      var o := VisitAll(env, src, m, ps, true);
      if !o.ok then o else PruneByState(env, o.m, p, Elems(ps))
    else SyncRel(env, src, m, p)
  }

  // ----- what the mirror is trusted to satisfy -----

  predicate Agrees(state: PathState, node: Node) {
    if state.kind.DirKind? then node.Dir? else node.File? && node.perm == state.perm && node.mtime == state.mtime
  }

  /** The backup is a plain tree, and what is remembered is there with the remembered kind, mode and time. */
  ghost predicate Coherent(m: Mirror) {
    && IsTree(m.dst) && Plain(m.dst)
    && forall p | p in m.cache :: p in m.dst && Agrees(m.cache[p], m.dst[p])
  }

  /** Files of equal mode, size and modification time, which the syncer cannot tell apart. */
  predicate Alike(a: Node, b: Node) {
    a.File? && b.File? && a.perm == b.perm && |a.data| == |b.data| && a.mtime == b.mtime
  }

  /** Metadata determines contents: a backup file that looks like its source is its source. */
  ghost predicate Faithful(src: Fs, dst: Fs) {
    forall p | p in src && p in dst && Alike(src[p], dst[p]) :: src[p].data == dst[p].data
  }

  /** The same where the size is not looked at because a record vouches for the backup file. */
  ghost predicate FaithfulRecords(src: Fs, m: Mirror) {
    forall p | p in src && p in m.dst && src[p].File? && m.dst[p].File? && StateMatches(m.cache, p, StateOf(src[p])) &&
               src[p].perm == m.dst[p].perm && src[p].mtime == m.dst[p].mtime ::
      src[p].data == m.dst[p].data
  }

  ghost predicate FaithfulMirror(src: Fs, m: Mirror) {
    Faithful(src, m.dst) && FaithfulRecords(src, m)
  }

  /** The modification time alone determines contents. */
  ghost predicate FaithfulTimes(src: Fs, dst: Fs) {
    forall p | p in src && p in dst && src[p].File? && dst[p].File? && src[p].mtime == dst[p].mtime ::
      src[p].data == dst[p].data
  }

  lemma TimesAreEnough(src: Fs, m: Mirror)
    requires FaithfulTimes(src, m.dst)
    ensures FaithfulMirror(src, m)
  {
  }

  /** No backup directory looks, by mode, size and time, like the source file of the same path. */
  ghost predicate NoAlias(env: Env, src: Fs) {
    forall fs: Fs, p | p in src && src[p].File? && p in fs && fs[p].Dir? :: !FileMetadataMatches(env, fs, p, src[p])
  }

  /** A path of the source that belongs in the backup: nothing on the way is excluded or a link. */
  ghost predicate Included(env: Env, src: Fs, p: Path) {
    p in src && Reached(Skipped(env, src), [], p)
  }

  ghost predicate Clash(src: Fs, dst: Fs, p: Path) {
    p in src && p in dst && Mirrored(src[p]) && src[p].Dir? != dst[p].Dir?
  }
}
