/** restoreFiles: the backup copied back over a target tree. */
module Restoring {

  import opened Paths
  import opened FileTree
  import opened Wrappers
  import opened Walk
  import opened Mirroring
  import opened MirrorFacts
  import opened Reconciling

  function Links(fs: Fs): Skip {
    q => q in fs && fs[q].Symlink?
  }

  /** The walk callback; a special file is passed over. */
  function RestoreOne(env: Env, backup: Fs, target: Fs, p: Path): Option<Fs>
    requires p in backup && p != []
  {
    if env.dryRun then Some(target)
    else match backup[p]
    case Dir(perm) => MkdirAll(target, p, Created(env, perm))
    case File(_, _, _) => Replace(target, p, backup[p], Created(env, PARENT_PERM))
    case _ => Some(target)
  }

  function RestoreAll(env: Env, backup: Fs, target: Fs, ps: seq<Path>): Option<Fs>
    requires forall p | p in ps :: p in backup && p != []
    decreases |ps|
  {
    if ps == [] then Some(target)
    else match RestoreOne(env, backup, target, ps[0])
      case None => None
      case Some(t) => RestoreAll(env, backup, t, ps[1..])
  }

  lemma BackupVisits(backup: Fs)
    requires IsTree(backup)
    ensures forall p | p in Visits(backup, Links(backup), []) :: p in backup && p != []
  {
    VisitsMeaning(backup, Links(backup), []);
  }

  /** What restoring leaves at a path of the backup: existing directories keep their mode. */
  function Restored(env: Env, backup: Fs, target: Fs, p: Path): Node
    requires p in backup
  {
    if backup[p].Dir? then (if p in target then target[p] else Dir(Created(env, backup[p].perm))) else backup[p]
  }

  ghost predicate RestoredAll(env: Env, backup: Fs, target: Fs, done: set<Path>, t: Fs) {
    && t.Keys == target.Keys + (done * backup.Keys)
    && forall q | q in t :: t[q] == if q in done && q in backup then Restored(env, backup, target, q) else target[q]
  }

  lemma RestoreStep(env: Env, backup: Fs, target: Fs, p: Path)
    requires !env.dryRun && IsTree(backup) && Plain(backup) && IsTree(target) && Plain(target)
    requires p in backup && p != [] && HasDir(target, Parent(p))
    ensures RestoreOne(env, backup, target, p).Some? <==> !Clash(backup, target, p)
    ensures RestoreOne(env, backup, target, p).Some? ==>
              var t := RestoreOne(env, backup, target, p).value;
              t == target[p := Restored(env, backup, target, p)] && IsTree(t) && Plain(t)
  {
    if backup[p].Dir? {
      var perm := Created(env, backup[p].perm);
      MkdirAllExistingParent(target, p, perm);
      if p in target {
        assert target[p := target[p]] == target;
      } else {
        MkdirAllMeaning(target, p, perm);
        ExtendedIsTree(target, p, perm, MkdirAll(target, p, perm).value);
      }
    } else {
      MkdirAllExistingParent(target, p, Created(env, PARENT_PERM));
      if RestoreOne(env, backup, target, p).Some? {
        ReplaceGood(env, target, p, backup[p], Created(env, PARENT_PERM));
      }
    }
  }

  lemma {:induction false} RestoreAllExact(env: Env, backup: Fs, target: Fs, ps: seq<Path>, known: set<Path>)
    requires !env.dryRun && IsTree(backup) && Plain(backup) && IsTree(target) && Plain(target)
    requires forall p | p in ps :: p in backup && p != []
    requires ParentsFirst(known, ps) && KnownDirs(backup, target, known)
    ensures RestoreAll(env, backup, target, ps).Some? <==> forall p | p in ps :: !Clash(backup, target, p)
    ensures RestoreAll(env, backup, target, ps).Some? ==>
              RestoredAll(env, backup, target, Elems(ps), RestoreAll(env, backup, target, ps).value)
    decreases |ps|
  {
    if ps != [] {
      var p := ps[0];
      assert HasDir(backup, Parent(p));
      RestoreStep(env, backup, target, p);
      if RestoreOne(env, backup, target, p).Some? {
        var t := RestoreOne(env, backup, target, p).value;
        ClashesStay(backup, target, t, ps, known);
        assert KnownDirs(backup, t, known + {p});
        RestoreAllExact(env, backup, t, ps[1..], known + {p});
        if RestoreAll(env, backup, t, ps[1..]).Some? {
          RestoredStep(env, backup, target, t, ps, RestoreAll(env, backup, t, ps[1..]).value);
        }
      }
    }
  }

  lemma RestoredStep(env: Env, backup: Fs, target: Fs, t: Fs, ps: seq<Path>, result: Fs)
    requires ps != [] && ps[0] in backup && ps[0] !in ps[1..]
    requires t == target[ps[0] := Restored(env, backup, target, ps[0])]
    requires RestoredAll(env, backup, t, Elems(ps[1..]), result)
    ensures RestoredAll(env, backup, target, Elems(ps), result)
  {
    assert Elems(ps) == Elems(ps[1..]) + {ps[0]};
  }

  /** restoreFiles from a plain backup; failing where a file meets a directory. */
  function RestoreFiles(env: Env, backup: Fs, target: Fs): Option<Fs>
    requires IsTree(backup)
  {
    BackupVisits(backup);
    RestoreAll(env, backup, target, Visits(backup, Links(backup), []))
  }

  /** The walk callback applied path by path; an error ends the walk and leaves what was restored so far. */
  method RestoreWalk(env: Env, backup: Fs, target: Fs) returns (result: Fs, ok: bool)
    requires IsTree(backup)
    ensures ok <==> RestoreFiles(env, backup, target).Some?
    ensures ok ==> RestoreFiles(env, backup, target) == Some(result)
  {
    BackupVisits(backup);
    var ps := Visits(backup, Links(backup), []);
    result := target;
    for i := 0 to |ps|
      invariant RestoreFiles(env, backup, target) == RestoreAll(env, backup, result, ps[i..])
    {
      assert ps[i..][1..] == ps[i + 1..];
      match RestoreOne(env, backup, result, ps[i])
      case None => return result, false;
      case Some(t) => result := t;
    }
    return result, true;
  }

  /**
    Restoring succeeds exactly when no path changes kind; it then puts every backup
    file in place, and leaves everything else of the target alone.
   */
  lemma RestoreFilesExact(env: Env, backup: Fs, target: Fs)
    requires !env.dryRun && IsTree(backup) && Plain(backup) && IsTree(target) && Plain(target)
    ensures RestoreFiles(env, backup, target).Some? <==> forall p | p in backup :: !Clash(backup, target, p)
    ensures RestoreFiles(env, backup, target).Some? ==>
              RestoredAll(env, backup, target, backup.Keys, RestoreFiles(env, backup, target).value)
  {
    var skip := Links(backup);
    var ps := Visits(backup, skip, []);
    BackupVisits(backup);
    VisitsMeaning(backup, skip, []);
    VisitsParentsFirst(backup, skip, [], {[]});
    forall p | p in backup ensures p in ps {
      assert HasDir(backup, Parent(p)) && [] < p;
      forall k | 0 < k <= |p| ensures !skip(p[..k]) {
        if k < |p| { AncestorIsDir(backup, p[..k], p); } else { assert p[..k] == p; }
      }
    }
    RestoreAllExact(env, backup, target, ps, {[]});
    assert Elems(ps) == backup.Keys;
    assert backup.Keys * backup.Keys == backup.Keys;
  }

  lemma {:induction false} RestoreAllDry(env: Env, backup: Fs, target: Fs, ps: seq<Path>)
    requires env.dryRun && forall p | p in ps :: p in backup && p != []
    ensures RestoreAll(env, backup, target, ps) == Some(target)
    decreases |ps|
  {
    if ps != [] { RestoreAllDry(env, backup, target, ps[1..]); }
  }

  /** A dry run restores nothing and always succeeds. */
  lemma RestoreDry(env: Env, backup: Fs, target: Fs)
    requires env.dryRun && IsTree(backup)
    ensures RestoreFiles(env, backup, target) == Some(target)
  {
    BackupVisits(backup);
    RestoreAllDry(env, backup, target, Visits(backup, Links(backup), []));
  }

  /** A backup whose directory modes already respect the umask comes back unchanged in an empty directory. */
  lemma RestoreIntoEmpty(env: Env, backup: Fs)
    requires !env.dryRun && IsTree(backup) && Plain(backup)
    requires forall p | p in backup && backup[p].Dir? :: Created(env, backup[p].perm) == backup[p].perm
    ensures RestoreFiles(env, backup, map[]) == Some(backup)
  {
    RestoreFilesExact(env, backup, map[]);
    assert RestoreFiles(env, backup, map[]).value == backup;
  }

  /** Source to an empty backup and back into an empty directory: the included part of the source returns. */
  lemma BackupThenRestore(env: Env, src: Fs)
    requires Setting(env, src) && forall p | Included(env, src, p) :: Mirrored(src[p])
    ensures var o := Reconcile(env, src, Mirror(map[], map[]), true);
            && o.ok && IsTree(o.m.dst)
            && RestoreFiles(env, o.m.dst, map[]) == Some(o.m.dst)
            && (forall p :: p in o.m.dst <==> Included(env, src, p))
            && (forall p | p in o.m.dst :: Mirrored(src[p]) && o.m.dst[p] == Expected(env, src, map[], p))
  {
    var m := Mirror(map[], map[]);
    DeepReconcileMirrors(env, src, m);
    DeepReconcileIsExact(env, src, m);
    var dst := Reconcile(env, src, m, true).m.dst;
    forall p | p in dst && dst[p].Dir? ensures Created(env, dst[p].perm) == dst[p].perm {
      MaskTwice(src[p].perm, env.umask);
    }
    RestoreIntoEmpty(env, dst);
  }

  lemma MaskTwice(perm: Perm, umask: Perm)
    ensures (perm & !umask) & !umask == perm & !umask
  {
  }
}
