/**
  What the syncer does while the source stands still is a run of the racing machine, from
  any state of any run: each operation is one of its action lists, over any record.
 */
module Running {

  import opened Paths
  import opened FileTree
  import opened Wrappers
  import opened Walk
  import opened RecordOrder
  import opened Mirroring
  import opened MirrorFacts
  import opened Reconciling
  import opened Settling
  import opened Collapsing
  import opened Racing

  /** One action after another. */
  ghost predicate Follows(env: Env, w: World, acts: seq<Action>, w': World)
    decreases |acts|
  {
    if acts == [] then w == w'
    else
      var first, rest := acts[0], acts[1..];
      exists v :: Next(env, w, first, v) && Follows(env, v, rest, w')
  }

  lemma FollowsStep(env: Env, w: World, a: Action, v: World, acts: seq<Action>, w': World)
    requires Next(env, w, a, v) && Follows(env, v, acts, w')
    ensures Follows(env, w, [a] + acts, w')
  {
    assert ([a] + acts)[1..] == acts;
  }

  lemma {:induction false} FollowsAppend(env: Env, w: World, a: seq<Action>, v: World, b: seq<Action>, w': World)
    requires Follows(env, w, a, v) && Follows(env, v, b, w')
    ensures Follows(env, w, a + b, w')
    decreases |a|
  {
    hide Next;
    if a == [] {
      assert a + b == b;
    } else {
      var first, rest := a[0], a[1..];
      var u :| Next(env, w, first, u) && Follows(env, u, rest, v);
      FollowsAppend(env, u, rest, v, b, w');
      FollowsStep(env, w, first, u, rest + b, w');
      assert [first] + (rest + b) == a + b;
    }
  }

  /** A run continued is a run. */
  lemma {:induction false} FollowsReachable(env: Env, before: seq<Action>, w: World, acts: seq<Action>, w': World)
    requires Reachable(env, before, w) && Follows(env, w, acts, w')
    ensures Reachable(env, before + acts, w')
    decreases |acts|
  {
    hide Reachable;
    hide Next;
    if acts == [] {
      assert before + acts == before;
    } else {
      var first, rest := acts[0], acts[1..];
      var v :| Next(env, w, first, v) && Follows(env, v, rest, w');
      ReachableStep(env, before, w, first, v);
      FollowsReachable(env, before + [first], v, rest, w');
      assert before + [first] + rest == before + acts;
    }
  }

  lemma {:induction false} FollowsInv(env: Env, w: World, acts: seq<Action>, w': World)
    requires Inv(env, w) && Follows(env, w, acts, w')
    ensures Inv(env, w')
    decreases |acts|
  {
    hide Inv;
    hide Next;
    if acts != [] {
      var first, rest := acts[0], acts[1..];
      var v :| Next(env, w, first, v) && Follows(env, v, rest, w');
      NextInv(env, w, first, v);
      FollowsInv(env, v, rest, w');
    }
  }

  function MirrorOf(w: World): Mirror {
    Mirror(w.dst, w.cache)
  }

  /** The worker is idle again, the source and its history are as they were, and backup and record are those of `m`. */
  ghost predicate Left(w: World, w': World, m: Mirror) {
    w'.src == w.src && w'.past == w.past && w'.job.Idle? && MirrorOf(w') == m
  }

  lemma Two(env: Env, w: World, a: Action, w1: World, b: Action, w2: World)
    requires Next(env, w, a, w1) && Next(env, w1, b, w2)
    ensures Follows(env, w, [a, b], w2)
  {
    FollowsStep(env, w1, b, w2, [], w2);
    FollowsStep(env, w, a, w1, [b] + [], w2);
    assert [a] + ([b] + []) == [a, b];
  }

  lemma Three(env: Env, w: World, a: Action, w1: World, b: Action, w2: World, c: Action, w3: World)
    requires Next(env, w, a, w1) && Next(env, w1, b, w2) && Next(env, w2, c, w3)
    ensures Follows(env, w, [a, b, c], w3)
  {
    Two(env, w1, b, w2, c, w3);
    FollowsStep(env, w, a, w1, [b, c], w3);
    assert [a] + [b, c] == [a, b, c];
  }

  // ----- single paths -----

  /** What SyncRel finds out before it syncs a path. */
  ghost predicate Syncable(env: Env, src: Fs, p: Path) {
    p != [] && !env.excluded(p) && LookUp(src, p).Found? && Mirrored(src[p])
  }

  function Looking(w: World, p: Path, info: PathState): World {
    w.(job := Looked(p, info), doomed := set q | q in w.doomed && !Under(q, p))
  }

  lemma RunSkip(env: Env, w: World, p: Path) returns (acts: seq<Action>, w': World)
    requires w.job.Idle? && Syncable(env, w.src, p) && StateMatches(w.cache, p, StateOf(w.src[p]))
    ensures Follows(env, w, acts, w') && Left(w, w', MirrorOf(w))
  {
    var w1 := Looking(w, p, StateOf(w.src[p]));
    w' := w1.(job := Idle);
    Two(env, w, Look(p), w1, Skip, w');
    acts := [Look(p), Skip];
  }

  lemma RunAdopt(env: Env, w: World, p: Path) returns (acts: seq<Action>, w': World)
    requires w.job.Idle? && Syncable(env, w.src, p) && w.src[p].File? && p in w.dst && w.dst[p].File?
    requires FileMetadataMatches(env, w.dst, p, w.src[p])
    ensures Follows(env, w, acts, w') && Left(w, w', Mirror(w.dst, w.cache[p := StateOf(w.src[p])]))
  {
    var info := StateOf(w.src[p]);
    var w1 := Looking(w, p, info);
    w' := w1.(cache := w1.cache[p := info], job := Idle, torn := w1.torn - {p});
    Two(env, w, Look(p), w1, Adopt, w');
    acts := [Look(p), Adopt];
  }

  lemma RunMakeDir(env: Env, w: World, p: Path, perm: Perm) returns (acts: seq<Action>, w': World)
    requires w.job.Idle? && Syncable(env, w.src, p) && w.src[p].Dir? && MkdirAll(w.dst, p, perm).Some?
    ensures Follows(env, w, acts, w')
    ensures Left(w, w', Mirror(MkdirAll(w.dst, p, perm).value, w.cache[p := StateOf(w.src[p])]))
  {
    hide MkdirAll;
    var info := StateOf(w.src[p]);
    var w1 := Looking(w, p, info);
    w' := w1.(dst := MkdirAll(w1.dst, p, perm).value, cache := w1.cache[p := info], job := Idle, torn := w1.torn - {p});
    Two(env, w, Look(p), w1, MakeDir(perm), w');
    acts := [Look(p), MakeDir(perm)];
  }

  lemma RunRead(env: Env, w: World, p: Path) returns (acts: seq<Action>, w': World)
    requires w.job.Idle? && Syncable(env, w.src, p) && w.src[p].File?
    ensures Follows(env, w, acts, w')
    ensures w' == Looking(w, p, StateOf(w.src[p])).(job := Reading(p, StateOf(w.src[p]), w.src[p].data))
  {
    var data, info := w.src[p].data, StateOf(w.src[p]);
    var w1 := Looking(w, p, info);
    var w2 := w1.(job := Reading(p, info, []));
    assert [] + data == data;
    w' := w2.(job := Reading(p, info, [] + data));
    Three(env, w, Look(p), w1, Open, w2, Read(data), w');
    acts := [Look(p), Open, Read(data)];
  }

  lemma RunFinish(env: Env, w: World, p: Path, perm: Perm) returns (acts: seq<Action>, w': World)
    requires p != [] && p in w.src && w.src[p].File? && w.job == Reading(p, StateOf(w.src[p]), w.src[p].data)
    requires Replace(w.dst, p, w.src[p], perm).Some?
    ensures Follows(env, w, acts, w')
    ensures Left(w, w', Mirror(Replace(w.dst, p, w.src[p], perm).value, w.cache[p := StateOf(w.src[p])]))
  {
    hide Replace;
    var file, info := w.src[p], StateOf(w.src[p]);
    var w1 := w.(job := Filled(p, info, file.data));
    var w2 := w1.(dst := Replace(w.dst, p, file, perm).value, job := Renamed(p, info), torn := w1.torn + {p},
                  versions := w1.versions + {(p, file)});
    w' := w2.(cache := w2.cache[p := info], job := Idle, torn := w2.torn - {p});
    Three(env, w, Finish, w1, Rename(perm), w2, Remember, w');
    acts := [Finish, Rename(perm), Remember];
  }

  lemma RunCopy(env: Env, w: World, p: Path, perm: Perm) returns (acts: seq<Action>, w': World)
    requires w.job.Idle? && Syncable(env, w.src, p) && w.src[p].File? && Replace(w.dst, p, w.src[p], perm).Some?
    ensures Follows(env, w, acts, w')
    ensures Left(w, w', Mirror(Replace(w.dst, p, w.src[p], perm).value, w.cache[p := StateOf(w.src[p])]))
  {
    hide Replace;
    hide Follows;
    var a, v := RunRead(env, w, p);
    var b, u := RunFinish(env, v, p, perm);
    FollowsAppend(env, w, a, v, b, u);
    acts, w' := a + b, u;
  }

  lemma Stay(env: Env, w: World) returns (acts: seq<Action>, w': World)
    requires w.job.Idle?
    ensures Follows(env, w, acts, w') && Left(w, w', MirrorOf(w))
  {
    acts, w' := [], w;
  }

  lemma RunSyncDir(env: Env, w: World, p: Path) returns (acts: seq<Action>, w': World)
    requires !env.dryRun && w.job.Idle? && Syncable(env, w.src, p) && w.src[p].Dir?
    ensures Follows(env, w, acts, w') && Left(w, w', SyncDir(env, MirrorOf(w), p, w.src[p]).m)
  {
    hide Follows;
    hide MkdirAll;
    if StateMatches(w.cache, p, StateOf(w.src[p])) {
      acts, w' := RunSkip(env, w, p);
    } else if MkdirAll(w.dst, p, Created(env, w.src[p].perm)).Some? {
      acts, w' := RunMakeDir(env, w, p, Created(env, w.src[p].perm));
    } else {
      acts, w' := Stay(env, w);
    }
  }

  lemma RunCopyRel(env: Env, w: World, p: Path) returns (acts: seq<Action>, w': World)
    requires Setting(env, w.src) && w.job.Idle? && Syncable(env, w.src, p) && w.src[p].File?
    requires p in w.dst ==> w.dst[p].Dir? || w.dst[p].File?
    ensures Follows(env, w, acts, w') && Left(w, w', CopyRel(env, MirrorOf(w), p, w.src[p]).m)
  {
    hide Follows;
    hide Replace;
    var perm := Created(env, PARENT_PERM);
    if StateMatches(w.cache, p, StateOf(w.src[p])) {
      acts, w' := RunSkip(env, w, p);
    } else if FileMetadataMatches(env, w.dst, p, w.src[p]) {
      acts, w' := RunAdopt(env, w, p);
    } else if Replace(w.dst, p, w.src[p], perm).Some? {
      acts, w' := RunCopy(env, w, p, perm);
    } else {
      acts, w' := Stay(env, w);
    }
  }

  lemma RunRemove(env: Env, w: World, p: Path) returns (acts: seq<Action>, w': World)
    requires !env.dryRun && w.job.Idle? && p != [] && !(Included(env, w.src, p) && Mirrored(w.src[p]))
    ensures Follows(env, w, acts, w') && Left(w, w', RemoveBackupPath(env, MirrorOf(w), p).m)
  {
    hide RemoveAll;
    hide Included;
    hide Forget;
    hide Follows;
    if RemoveAll(w.dst, p).Some? {
      var w1 := w.(doomed := w.doomed + {p});
      var w2 := w1.(dst := RemoveAll(w.dst, p).value, job := Removed(p, p in w.dst && w.dst[p].File?),
                    torn := w1.torn + set q | q in w1.cache && Under(p, q));
      w' := w2.(cache := Forget(w2.cache, p), job := Idle, torn := set q | q in w2.torn && !Under(p, q));
      Three(env, w, Notice(p), w1, Remove(p), w2, ForgetTree, w');
      acts := [Notice(p), Remove(p), ForgetTree];
    } else {
      acts, w' := Stay(env, w);
    }
  }

  // ----- walks over the source -----

  /** A walk may come by `p`: what is mirrored there could also be synced on its own. */
  ghost predicate Visitable(env: Env, src: Fs, p: Path) {
    p in src && p != [] && (Mirrored(src[p]) ==> Syncable(env, src, p))
  }

  lemma RunVisit(env: Env, w: World, p: Path, sweep: bool) returns (acts: seq<Action>, w': World)
    requires Setting(env, w.src) && Plain(w.dst) && w.job.Idle? && Visitable(env, w.src, p)
    ensures Follows(env, w, acts, w') && Left(w, w', Visit(env, w.src, MirrorOf(w), p, sweep).m)
  {
    hide Follows;
    hide SyncDir;
    hide CopyRel;
    hide RemoveBackupPath;
    if w.src[p].Dir? {
      acts, w' := RunSyncDir(env, w, p);
    } else if w.src[p].File? {
      acts, w' := RunCopyRel(env, w, p);
    } else if sweep {
      acts, w' := RunRemove(env, w, p);
    } else {
      acts, w' := Stay(env, w);
    }
  }

  lemma {:induction false} RunVisitAll(env: Env, w: World, ps: seq<Path>, sweep: bool) returns (acts: seq<Action>, w': World)
    requires Setting(env, w.src) && Inv(env, w) && w.job.Idle?
    requires forall p | p in ps :: p in w.src && p != [] && Visitable(env, w.src, p)
    ensures Follows(env, w, acts, w') && Left(w, w', VisitAll(env, w.src, MirrorOf(w), ps, sweep).m)
    decreases |ps|
  {
    hide Follows;
    hide Visit;
    hide Visitable;
    hide Inv;
    if ps == [] {
      acts, w' := Stay(env, w);
    } else {
      InvIsPlain(env, w);
      var a, v := RunVisit(env, w, ps[0], sweep);
      FollowsInv(env, w, a, v);
      acts, w' := a, v;
      if Visit(env, w.src, MirrorOf(w), ps[0], sweep).ok {
        forall p | p in ps[1..] ensures p in ps { }
        var b, u := RunVisitAll(env, v, ps[1..], sweep);
        FollowsAppend(env, w, a, v, b, u);
        acts, w' := a + b, u;
      }
    }
  }

  lemma InvIsPlain(env: Env, w: World)
    requires Inv(env, w)
    ensures IsTree(w.src) && IsTree(w.dst) && Plain(w.dst) && [] !in w.cache
  {
  }

  /** A walk comes by nothing else, and by all that is included. */
  lemma WalksVisitable(env: Env, src: Fs, r: Path)
    requires IsTree(src) && (r == [] || IsTreeDir(env, src, r))
    ensures forall q | q in Visits(src, Skipped(env, src), r) :: Visitable(env, src, q)
    ensures r != [] ==> Visitable(env, src, r)
    ensures forall q | Under(r, q) && q != r && Included(env, src, q) :: q in Visits(src, Skipped(env, src), r)
  {
    var skip := Skipped(env, src);
    VisitsMeaning(src, skip, r);
    forall q | q in Visits(src, skip, r) ensures Visitable(env, src, q) {
      assert q[..|q|] == q && !skip(q);
      FoundFrom(src, q, 0);
    }
    forall q | Under(r, q) && q != r && Included(env, src, q) ensures r < q && Reached(skip, r, q) { }
  }

  // ----- pruning by the record -----

  /** Removing unseen recorded paths one after the other, up to the first error. */
  lemma {:induction false} RunPruneList(env: Env, w: World, root: Path, seen: set<Path>, paths: seq<Path>)
    returns (acts: seq<Action>, w': World)
    requires !env.dryRun && w.job.Idle? && [] !in w.cache
    requires forall p | p in w.cache && Under(root, p) && p !in seen :: !Included(env, w.src, p)
    ensures Follows(env, w, acts, w') && Left(w, w', PruneList(env, MirrorOf(w), root, seen, paths).m)
    decreases |paths|
  {
    hide Follows;
    hide Included;
    hide RemoveAll;
    if paths == [] {
      acts, w' := Stay(env, w);
    } else if !Under(root, paths[0]) || paths[0] in seen || paths[0] !in w.cache {
      acts, w' := RunPruneList(env, w, root, seen, paths[1..]);
    } else {
      var a, v := RunRemove(env, w, paths[0]);
      acts, w' := a, v;
      if RemoveBackupPath(env, MirrorOf(w), paths[0]).ok {
        var b, u := RunPruneList(env, v, root, seen, paths[1..]);
        FollowsAppend(env, w, a, v, b, u);
        acts, w' := a + b, u;
      }
    }
  }

  // ----- pruning by a walk of the backup -----

  /** One entry removed: with a directory go all records below it, with a file only its own. */
  ghost function DropEnd(m: Mirror, q: Path): Mirror
    requires q in m.dst
  {
    Mirror(Without(m.dst, q), if m.dst[q].Dir? then Forget(m.cache, q) else m.cache - {q})
  }

  lemma RunDropEnd(env: Env, w: World, q: Path) returns (acts: seq<Action>, w': World)
    requires IsTree(w.dst) && Plain(w.dst) && w.job.Idle? && q in w.dst && !Included(env, w.src, q)
    ensures Follows(env, w, acts, w') && Left(w, w', DropEnd(MirrorOf(w), q))
  {
    hide Included;
    hide Forget;
    hide Follows;
    assert RemoveAll(w.dst, q) == Some(Without(w.dst, q)) by {
      forall k: nat | k < |q| && q[..k] in w.dst ensures w.dst[q[..k]].Dir? { AncestorIsDir(w.dst, q[..k], q); }
    }
    var w1 := w.(doomed := w.doomed + {q});
    var w2 := w1.(dst := RemoveAll(w.dst, q).value, job := Removed(q, w.dst[q].File?),
                  torn := w1.torn + set x | x in w1.cache && Under(q, x));
    if w.dst[q].Dir? {
      w' := w2.(cache := Forget(w2.cache, q), job := Idle, torn := set x | x in w2.torn && !Under(q, x));
      Three(env, w, Notice(q), w1, Remove(q), w2, ForgetTree, w');
      acts := [Notice(q), Remove(q), ForgetTree];
    } else {
      w' := w2.(cache := w2.cache - {q}, job := Idle, torn := w2.torn - {q});
      Three(env, w, Notice(q), w1, Remove(q), w2, ForgetOne, w');
      acts := [Notice(q), Remove(q), ForgetOne];
    }
  }

  /** Different entries, none above another. */
  ghost predicate Apart(paths: seq<Path>) {
    forall i, j | 0 <= i < |paths| && 0 <= j < |paths| && i != j :: !Under(paths[i], paths[j])
  }

  ghost predicate AreEnds(env: Env, src: Fs, dst: Fs, paths: seq<Path>) {
    Apart(paths) && forall q | q in paths :: q in dst && !Included(env, src, q)
  }

  /** What is left when these entries are dropped. */
  ghost predicate Ended(m: Mirror, paths: seq<Path>, m': Mirror)
    requires forall q | q in paths :: q in m.dst
  {
    && (forall p :: p in m'.dst <==> p in m.dst && forall q | q in paths :: !Under(q, p))
    && (forall p :: p in m'.cache <==> p in m.cache && forall q | q in paths :: p != q && !(m.dst[q].Dir? && Under(q, p)))
    && (forall p | p in m'.dst :: m'.dst[p] == m.dst[p]) && (forall p | p in m'.cache :: m'.cache[p] == m.cache[p])
  }

  lemma EndsRest(env: Env, src: Fs, m: Mirror, paths: seq<Path>)
    requires paths != [] && AreEnds(env, src, m.dst, paths)
    ensures paths[0] in m.dst && AreEnds(env, src, DropEnd(m, paths[0]).dst, paths[1..])
    ensures forall q | q in paths[1..] :: q in paths && DropEnd(m, paths[0]).dst[q] == m.dst[q]
  {
    hide Included;
    assert paths[0] in paths;
    forall q | q in paths[1..] ensures q in paths && !Under(paths[0], q) {
      var j :| 0 <= j < |paths[1..]| && paths[1..][j] == q;
      assert paths[j + 1] == q && !Under(paths[0], paths[j + 1]);
    }
    forall i, j | 0 <= i < |paths[1..]| && 0 <= j < |paths[1..]| && i != j ensures !Under(paths[1..][i], paths[1..][j]) {
      assert !Under(paths[i + 1], paths[j + 1]);
    }
  }

  lemma EndedStep(env: Env, src: Fs, m: Mirror, paths: seq<Path>, m': Mirror)
    requires paths != [] && AreEnds(env, src, m.dst, paths) && paths[0] in m.dst
    requires forall q | q in paths[1..] :: q in paths && q in DropEnd(m, paths[0]).dst && DropEnd(m, paths[0]).dst[q] == m.dst[q]
    requires Ended(DropEnd(m, paths[0]), paths[1..], m')
    ensures Ended(m, paths, m')
  {
    hide Included;
    hide Apart;
    hide Without;
    hide Forget;
    var q0, m1 := paths[0], DropEnd(m, paths[0]);
    DroppedEnd(m, q0);
    hide DropEnd;
    assert forall q :: q in paths <==> q == q0 || q in paths[1..];
    assert Under(q0, q0);
    hide Under;
  }

  lemma DroppedEnd(m: Mirror, q: Path)
    requires q in m.dst
    ensures var m1 := DropEnd(m, q);
            && (forall p :: p in m1.dst <==> p in m.dst && !Under(q, p))
            && (forall p :: p in m1.cache <==> p in m.cache && p != q && !(m.dst[q].Dir? && Under(q, p)))
            && (forall p | p in m1.dst :: m1.dst[p] == m.dst[p]) && (forall p | p in m1.cache :: m1.cache[p] == m.cache[p])
  {
    assert Under(q, q);
  }

  lemma {:induction false} RunDropEnds(env: Env, w: World, paths: seq<Path>) returns (acts: seq<Action>, w': World)
    requires Inv(env, w) && w.job.Idle? && AreEnds(env, w.src, w.dst, paths)
    ensures Follows(env, w, acts, w') && Left(w, w', MirrorOf(w')) && Ended(MirrorOf(w), paths, MirrorOf(w'))
    decreases |paths|
  {
    hide Follows;
    hide Included;
    hide Inv;
    hide DropEnd;
    if paths == [] {
      acts, w' := Stay(env, w);
    } else {
      hide Ended;
      InvIsPlain(env, w);
      EndsRest(env, w.src, MirrorOf(w), paths);
      var a, v := RunDropEnd(env, w, paths[0]);
      FollowsInv(env, w, a, v);
      var b, u := RunDropEnds(env, v, paths[1..]);
      EndedStep(env, w.src, MirrorOf(w), paths, MirrorOf(u));
      FollowsAppend(env, w, a, v, b, u);
      acts, w' := a + b, u;
    }
  }

  ghost function DeadEnds(dst: Fs, seen: set<Path>): set<Path> {
    set q | q in dst && DeadEnd(dst, seen, q)
  }

  /** Every dead path of the backup hangs on one dead end, and only dead paths do. */
  lemma DeadEndAbove(dst: Fs, seen: set<Path>, p: Path)
    requires IsTree(dst) && p in dst
    ensures !Live(seen, p) <==> exists q :: q in DeadEnds(dst, seen) && Under(q, p)
  {
    if !Live(seen, p) {
      var k := FirstUnseen(seen, p, 0);
      var q := p[..k];
      assert Parent(q) == p[..k - 1];
      assert forall j | 0 < j <= k - 1 :: Parent(q)[..j] == p[..j];
      if k < |p| { AncestorIsDir(dst, q, p); } else { assert q == p; }
      assert q in DeadEnds(dst, seen) && Under(q, p);
    }
    if exists q :: q in DeadEnds(dst, seen) && Under(q, p) {
      var q :| q in DeadEnds(dst, seen) && Under(q, p);
      assert p[..|q|] == q;
    }
  }

  lemma {:induction false} FirstUnseen(seen: set<Path>, p: Path, n: nat) returns (k: nat)
    requires n <= |p| && !Live(seen, p) && forall j | 0 < j <= n :: p[..j] in seen
    ensures 0 < k <= |p| && p[..k] !in seen && forall j | 0 < j < k :: p[..j] in seen
    decreases |p| - n
  {
    if p[..n + 1] !in seen { k := n + 1; } else { k := FirstUnseen(seen, p, n + 1); }
  }

  lemma DeadEndsDiffer(dst: Fs, seen: set<Path>, a: Path, b: Path)
    requires DeadEnd(dst, seen, a) && DeadEnd(dst, seen, b) && a != b
    ensures !Under(a, b)
  {
    if |a| <= |b| { assert b[..|a|] != a by { assert |a| < |b| ==> Parent(b)[..|a|] == b[..|a|]; } }
  }

  lemma DeadEndsApart(env: Env, src: Fs, dst: Fs, paths: seq<Path>)
    requires IsTree(src) && (forall q | q in paths :: q in DeadEnds(dst, Seen(env, src)))
    requires InOrder(paths)
    ensures AreEnds(env, src, dst, paths)
  {
    SeenMeaning(env, src);
    var seen := Seen(env, src);
    forall i, j | 0 <= i < |paths| && 0 <= j < |paths| && i != j ensures !Under(paths[i], paths[j]) {
      var a, b := paths[i], paths[j];
      assert a in paths && b in paths && DeadEnd(dst, seen, a) && DeadEnd(dst, seen, b);
      PathLessTotal(a, b);
      DeadEndsDiffer(dst, seen, a, b);
    }
  }

  lemma PruneByWalkEnds(env: Env, m: Mirror, seen: set<Path>, paths: seq<Path>, m': Mirror)
    requires IsTree(m.dst) && !env.dryRun && (forall q :: q in paths <==> q in DeadEnds(m.dst, seen))
    requires Ended(m, paths, m')
    ensures PruneByWalk(env, m, seen) == m'
  {
    hide Live;
    hide DeadEnd;
    hide IsTree;
    var pruned := PruneByWalk(env, m, seen);
    forall p ensures p in pruned.dst <==> p in m'.dst {
      if p in m.dst { DeadEndAbove(m.dst, seen, p); }
    }
    forall p ensures p in pruned.cache <==> p in m'.cache { DroppedWithEnds(m, seen, paths, p); }
  }

  lemma DroppedWithEnds(m: Mirror, seen: set<Path>, paths: seq<Path>, p: Path)
    requires forall q :: q in paths <==> q in DeadEnds(m.dst, seen)
    ensures Dropped(m.dst, seen, p) <==> exists q :: q in paths && (p == q || (m.dst[q].Dir? && Under(q, p)))
  {
    hide DeadEnd;
    if Dropped(m.dst, seen, p) {
      var q :| q in m.dst && DeadEnd(m.dst, seen, q) && (p == q || (m.dst[q].Dir? && Under(q, p)));
      assert q in DeadEnds(m.dst, seen);
    }
  }

  lemma RunPruneByWalk(env: Env, w: World) returns (acts: seq<Action>, w': World)
    requires !env.dryRun && Inv(env, w) && w.job.Idle?
    ensures Follows(env, w, acts, w') && Left(w, w', PruneByWalk(env, MirrorOf(w), Seen(env, w.src)))
  {
    hide Follows;
    hide PruneByWalk;
    hide Inv;
    hide Included;
    hide DeadEnd;
    hide Ended;
    hide Apart;
    var ends := DeadEnds(w.dst, Seen(env, w.src));
    var paths := SortedPaths(ends);
    InvIsPlain(env, w);
    DeadEndsApart(env, w.src, w.dst, paths);
    acts, w' := RunDropEnds(env, w, paths);
    PruneByWalkEnds(env, MirrorOf(w), Seen(env, w.src), paths, MirrorOf(w'));
  }

  // ----- whole operations -----

  /** A reconcile, deep or light, is a run. */
  lemma ReconcileIsARun(env: Env, w: World, deep: bool) returns (acts: seq<Action>, w': World)
    requires Setting(env, w.src) && Inv(env, w) && w.job.Idle?
    ensures Follows(env, w, acts, w') && Left(w, w', Reconcile(env, w.src, MirrorOf(w), deep).m)
  {
    hide Follows;
    hide VisitAll;
    hide PruneByWalk;
    hide Included;
    hide Visitable;
    hide Inv;
    var ps := SourceVisits(env, w.src);
    SourceVisitsInSource(env, w.src, []);
    SeenMeaning(env, w.src);
    WalksVisitable(env, w.src, []);
    var a, v := RunVisitAll(env, w, ps, false);
    FollowsInv(env, w, a, v);
    InvIsPlain(env, v);
    acts, w' := a, v;
    if VisitAll(env, w.src, MirrorOf(w), ps, false).ok {
      var b, u;
      if deep {
        b, u := RunPruneByWalk(env, v);
      } else {
        b, u := RunPruneList(env, v, [], Elems(ps), SortedPaths(v.cache.Keys));
      }
      FollowsAppend(env, w, a, v, b, u);
      acts, w' := a + b, u;
    }
  }

  lemma SyncRelIsARun(env: Env, w: World, p: Path) returns (acts: seq<Action>, w': World)
    requires Setting(env, w.src) && Plain(w.dst) && w.job.Idle?
    ensures Follows(env, w, acts, w') && Left(w, w', SyncRel(env, w.src, MirrorOf(w), p).m)
  {
    hide Follows;
    hide SyncDir;
    hide CopyRel;
    hide RemoveBackupPath;
    if p == [] {
      acts, w' := Stay(env, w);
    } else if Syncable(env, w.src, p) {
      if w.src[p].Dir? { acts, w' := RunSyncDir(env, w, p); } else { acts, w' := RunCopyRel(env, w, p); }
    } else if (!env.excluded(p) && LookUp(w.src, p).NotDirectory?) || !HasStateTree(w.cache, p) {
      acts, w' := Stay(env, w);
    } else {
      if Included(env, w.src, p) { IncludedIsFound(env, w.src, p); }
      acts, w' := RunRemove(env, w, p);
    }
  }

  lemma SyncTreeIsARun(env: Env, w: World, r: Path) returns (acts: seq<Action>, w': World)
    requires Setting(env, w.src) && Inv(env, w) && w.job.Idle?
    ensures Follows(env, w, acts, w') && Left(w, w', SyncTree(env, w.src, MirrorOf(w), r).m)
  {
    hide Follows;
    hide VisitAll;
    hide SyncRel;
    hide Included;
    hide Inv;
    InvIsPlain(env, w);
    if !IsTreeDir(env, w.src, r) {
      acts, w' := SyncRelIsARun(env, w, r);
    } else {
      WalksVisitable(env, w.src, r);
      SourceVisitsInSource(env, w.src, r);
      var ps := TreeVisits(env, w.src, r);
      var a, v := RunVisitAll(env, w, ps, true);
      FollowsInv(env, w, a, v);
      InvIsPlain(env, v);
      acts, w' := a, v;
      if VisitAll(env, w.src, MirrorOf(w), ps, true).ok {
        var b, u := RunPruneList(env, v, r, Elems(ps), SortedPaths(v.cache.Keys));
        FollowsAppend(env, w, a, v, b, u);
        acts, w' := a + b, u;
      }
    }
  }

  /** A flushed queue is a run. */
  lemma {:induction false} FlushIsARun(env: Env, w: World, entries: seq<Entry>) returns (acts: seq<Action>, w': World)
    requires Setting(env, w.src) && Inv(env, w) && w.job.Idle?
    ensures Follows(env, w, acts, w') && Left(w, w', Flush(env, w.src, MirrorOf(w), entries))
    decreases |entries|
  {
    hide Follows;
    hide SyncRel;
    hide SyncTree;
    hide Inv;
    if entries == [] {
      acts, w' := Stay(env, w);
    } else {
      InvIsPlain(env, w);
      var e, a, v := entries[0], [], w;
      if e.tree { a, v := SyncTreeIsARun(env, w, e.rel); } else { a, v := SyncRelIsARun(env, w, e.rel); }
      FollowsInv(env, w, a, v);
      var b, u := FlushIsARun(env, v, entries[1..]);
      FollowsAppend(env, w, a, v, b, u);
      acts, w' := a + b, u;
    }
  }

  // ----- sessions -----

  /** What happens to a syncer: its operations, a changed source, a new start. */
  datatype Event = Syncs(p: Path) | SyncsTree(p: Path) | Reconciles(deep: bool) | Flushes(entries: seq<Entry>)
                 | Becomes(src: Fs) | Restarts

  datatype Scene = Scene(src: Fs, past: set<(Path, Time)>, m: Mirror)

  function After(env: Env, s: Scene, e: Event): Scene
    requires IsTree(s.src)
  {
    match e
    case Syncs(p) => s.(m := SyncRel(env, s.src, s.m, p).m)
    case SyncsTree(p) => s.(m := SyncTree(env, s.src, s.m, p).m)
    case Reconciles(deep) => s.(m := Reconcile(env, s.src, s.m, deep).m)
    case Flushes(entries) => s.(m := Flush(env, s.src, s.m, entries))
    case Becomes(src) => s.(src := src, past := s.past + Times(src))
    case Restarts => s.(m := s.m.(cache := map[]))
  }

  /** A changed file has a time its path has never carried. */
  ghost predicate MayHappen(env: Env, s: Scene, e: Event) {
    e.Becomes? ==>
      Setting(env, e.src) &&
      forall p | p in e.src && e.src[p].File? && !SameFile(s.src, e.src, p) :: (p, e.src[p].mtime) !in s.past
  }

  ghost predicate Plays(env: Env, s: Scene, events: seq<Event>, s': Scene)
    requires IsTree(s.src)
    decreases |events|
  {
    if events == [] then s == s'
    else MayHappen(env, s, events[0]) && Plays(env, After(env, s, events[0]), events[1..], s')
  }

  function SceneOf(w: World): Scene {
    Scene(w.src, w.past, MirrorOf(w))
  }

  lemma EventIsARun(env: Env, w: World, e: Event) returns (acts: seq<Action>, w': World)
    requires Setting(env, w.src) && Inv(env, w) && w.job.Idle? && MayHappen(env, SceneOf(w), e)
    ensures Follows(env, w, acts, w') && w'.job.Idle? && SceneOf(w') == After(env, SceneOf(w), e)
    ensures Setting(env, w'.src)
  {
    hide Follows;
    hide SyncRel;
    hide SyncTree;
    hide Reconcile;
    hide Flush;
    hide Inv;
    InvIsPlain(env, w);
    match e
    case Syncs(p) => acts, w' := SyncRelIsARun(env, w, p);
    case SyncsTree(p) => acts, w' := SyncTreeIsARun(env, w, p);
    case Reconciles(deep) => acts, w' := ReconcileIsARun(env, w, deep);
    case Flushes(entries) => acts, w' := FlushIsARun(env, w, entries);
    case Becomes(src) =>
      w' := w.(src := src, past := w.past + Times(src));
      acts := One(env, w, Change(src), w');
    case Restarts =>
      w' := w.(cache := map[], job := Idle, doomed := {}, torn := {});
      acts := One(env, w, Restart, w');
  }

  lemma One(env: Env, w: World, a: Action, w': World) returns (acts: seq<Action>)
    requires Next(env, w, a, w')
    ensures Follows(env, w, acts, w')
  {
    acts := [a] + [];
    FollowsStep(env, w, a, w', [], w');
  }

  /**
    Operations in any order, with any changes of the source and any restarts between
    them, after any run, make up a run: what holds in every reachable state holds
    after all of them.
   */
  lemma {:induction false} SessionIsARun(env: Env, before: seq<Action>, w: World, events: seq<Event>, s: Scene)
    returns (acts: seq<Action>, w': World)
    requires Reachable(env, before, w) && Setting(env, w.src) && w.job.Idle? && Plays(env, SceneOf(w), events, s)
    ensures Reachable(env, acts, w') && w'.job.Idle? && SceneOf(w') == s
    decreases |events|
  {
    hide Reachable;
    hide Follows;
    hide After;
    hide MayHappen;
    if events == [] {
      acts, w' := before, w;
    } else {
      ReachableInv(env, before, w);
      var a, v := EventIsARun(env, w, events[0]);
      FollowsReachable(env, before, w, a, v);
      acts, w' := SessionIsARun(env, before + a, v, events[1..], s);
    }
  }
}
