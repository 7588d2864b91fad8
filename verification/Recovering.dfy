/** From a power failure during a copy back to an exact mirror. */
module Recovering {

  import opened Paths
  import opened FileTree
  import opened Wrappers
  import opened Mirroring
  import opened MirrorFacts
  import opened Reconciling
  import opened SafeCopy
  import Racing

  /** Whatever may be found on the disk after a power failure is its source if it looks like its source. */
  ghost predicate FaithfulDisk(src: Fs, d: Disk) {
    forall q, node | MayShow(d, q, node) && q in src && Alike(src[q], node) :: node.data == src[q].data
  }

  /** The copy puts nothing on the disk that could be taken for something else. */
  ghost predicate FaithfulCopy(src: Fs, c: Copy) {
    && c.t !in src
    && (c.p in src && Alike(src[c.p], c.file) ==> src[c.p].data == c.file.data)
  }

  /** Copies may follow one another, completed or not: each leaves the disk as trustworthy as it found it. */
  lemma MidwayFaithful(src: Fs, c: Copy, d: Disk)
    requires Fits(c) && Midway(c, d) && FaithfulDisk(src, c.d0) && FaithfulCopy(src, c)
    ensures FaithfulDisk(src, d)
  {
    forall q, node | MayShow(d, q, node) && q in src && Alike(src[q], node) ensures node.data == src[q].data {
      MidwayShows(c, d, q, node);
    }
  }

  /** Between copies directories are made and trees removed without any sync; that keeps it so too. */
  lemma NameChangeFaithful(src: Fs, d: Disk, q: Path, ref: Option<Ref>)
    requires WellFormed(d) && FaithfulDisk(src, d) && (ref.Some? ==> ref.value.DirRef?)
    ensures WellFormed(SetName(d, q, ref)) && FaithfulDisk(src, SetName(d, q, ref))
  {
    PossibleAfterSetName(d, q, ref);
    forall x, node | MayShow(SetName(d, q, ref), x, node) && node.File? ensures MayShow(d, x, node) {
      var r :| Some(r) in Possible(SetName(d, q, ref), x) && MayHold(SetName(d, q, ref), r, node);
      assert Some(r) in Possible(d, x) && MayHold(d, r, node);
    }
  }

  lemma OutcomeFaithful(src: Fs, d: Disk, fs: Fs)
    requires FaithfulDisk(src, d) && SafeCopy.Outcome(d, fs)
    ensures Faithful(src, fs)
  {
  }

  /**
    Power fails at any point of a copy, begun on a disk with anything in flight; the
    next start forgets the record and reconciles deeply. It succeeds exactly when no
    kinds clash; then the backup is an exact mirror again and the stray file is gone.
   */
  lemma CrashThenReconcileIsExact(env: Env, src: Fs, c: Copy, d: Disk, fs: Fs)
    requires Fits(c) && Midway(c, d) && SafeCopy.Outcome(d, fs)
    requires Setting(env, src) && FaithfulDisk(src, c.d0) && FaithfulCopy(src, c)
    requires forall p | Included(env, src, p) :: Mirrored(src[p])
    ensures Reconcile(env, src, Mirror(fs, map[]), true).ok <==> forall p | Included(env, src, p) :: !Clash(src, fs, p)
    ensures Reconcile(env, src, Mirror(fs, map[]), true).ok ==>
              var m := Reconcile(env, src, Mirror(fs, map[]), true).m;
              && (forall p :: p in m.dst <==> Included(env, src, p))
              && (forall p | p in m.dst :: if src[p].File? then m.dst[p] == src[p] else m.dst[p].Dir?)
              && c.t !in m.dst
  {
    hide Reconcile;
    MidwayIsSafe(c, d, fs);
    MidwayFaithful(src, c, d);
    OutcomeFaithful(src, d, fs);
    var m := Mirror(fs, map[]);
    assert Coherent(m);
    DeepReconcileMirrors(env, src, m);
    if Reconcile(env, src, m, true).ok { DeepReconcileIsExact(env, src, m); }
  }

  /** Every file that a power failure might show is a version the running syncer knows. */
  ghost predicate KnownDisk(w: Racing.World, d: Disk) {
    forall q, node | MayShow(d, q, node) && node.File? :: (q, node) in w.versions || q !in w.src
  }

  /**
    Such a power failure is one of those the running syncer is shown to withstand; the
    new version need be known only once the target's name may lead to it.
   */
  lemma CrashSurvives(c: Copy, d: Disk, fs: Fs, w: Racing.World)
    requires Fits(c) && Midway(c, d) && SafeCopy.Outcome(d, fs)
    requires KnownDisk(w, c.d0) && c.t !in w.src
    requires Some(FileRef(c.id)) in Possible(d, c.p) ==> (c.p, c.file) in w.versions
    ensures Racing.Survives(w, fs) && KnownDisk(w, d)
  {
    MidwayIsSafe(c, d, fs);
    forall q, node | MayShow(d, q, node) && node.File? ensures (q, node) in w.versions || q !in w.src {
      MidwayShows(c, d, q, node);
    }
  }
}
