/** Runs in which a directory sync fails: the record and the backup part ways, and a later reconcile believes the record. */
module Tearing {

  import opened Paths
  import opened FileTree
  import opened Wrappers
  import opened Walk
  import opened Mirroring
  import opened MirrorFacts
  import opened Reconciling
  import opened Racing
  import opened Trusting
  import opened Succeeding

  /** Where all paths have one component and nothing clashes, a reconcile succeeds, deep or light. */
  lemma ShallowReconcileSucceeds(env: Env, src: Fs, m: Mirror, deep: bool)
    requires Setting(env, src) && IsTree(m.dst) && Plain(m.dst)
    requires (forall p | p in m.cache :: |p| == 1) && (forall p | p in src :: |p| == 1)
    requires forall p | p in src && Unmatched(src, m, p) :: !Clash(src, m.dst, p)
    ensures Reconcile(env, src, m, deep).ok
  {
    assert [] !in m.cache && [] !in m.dst && [] !in src;
    forall q, x | q in src && x != [] && Under(x, q) ensures x == q { }
    forall p | p in m.cache ensures !StuckRecord(env, src, m, p) { assert forall k: nat | k < |p| :: p[..k] == []; }
    ReconcileSucceeds(env, src, m, deep);
  }

  // ----- a file, and its mode set back -----

  function OneFile(file: Node): Fs {
    map[["a"] := file]
  }

  lemma OneFileTree(env: Env, file: Node)
    requires file.File? && !env.excluded(["a"])
    ensures IsTree(OneFile(file)) && Plain(OneFile(file)) && Included(env, OneFile(file), ["a"])
  {
    assert Parent(["a"]) == [];
    forall k | 0 < k <= 1 ensures ["a"][..k] == ["a"] { }
  }

  /** The backup agrees, is adopted, and the file is copied again under a new mode; the directory sync fails. */
  lemma CopiedButNotRecorded(env: Env, file: Node, perm: Perm) returns (acts: seq<Action>, w: World)
    requires file.File? && !env.excluded(["a"])
    ensures Reachable(env, acts, w) && w.job == Idle && IsTree(w.src)
    ensures w.src == OneFile(file.(perm := perm)) && w.dst == OneFile(file.(perm := perm))
    ensures w.cache == map[["a"] := StateOf(file)]
  {
    var p, f1, f2 := ["a"], file, file.(perm := perm);
    OneFileTree(env, f1);
    OneFileTree(env, f2);
    IncludedIsFound(env, OneFile(f1), p);
    var s1, s2 := OneFile(f1), OneFile(f2);
    var w0 := World(s1, Times(s1) + Times(s1), Files(s1), s1, map[], Idle, {}, {});
    assert Reachable(env, [], w0);
    var w1 := w0.(job := Looked(p, StateOf(f1)), doomed := set q | q in w0.doomed && !Under(q, p));
    ReachableStep(env, [], w0, Look(p), w1);
    var w2 := w1.(cache := w1.cache[p := StateOf(f1)], job := Idle, torn := w1.torn - {p});
    ReachableStep(env, [] + [Look(p)], w1, Adopt, w2);
    var w3 := w2.(src := s2, past := w2.past + Times(s2));
    assert SameFile(s1, s2, p);
    ReachableStep(env, [] + [Look(p)] + [Adopt], w2, Change(s2), w3);
    acts, w := CopyThenFail(env, [] + [Look(p)] + [Adopt] + [Change(s2)], w3, f2);
  }

  lemma CopyThenFail(env: Env, acts0: seq<Action>, w3: World, f2: Node) returns (acts: seq<Action>, w: World)
    requires Reachable(env, acts0, w3) && f2.File? && !env.excluded(["a"])
    requires w3.src == OneFile(f2) && w3.job == Idle && w3.dst.Keys == {["a"]} && w3.dst[["a"]].File?
    ensures Reachable(env, acts, w) && w.job == Idle && w.src == w3.src && w.dst == OneFile(f2) && w.cache == w3.cache
  {
    hide Reachable;
    hide Replace;
    var p, info := ["a"], StateOf(f2);
    OneFileTree(env, f2);
    IncludedIsFound(env, OneFile(f2), p);
    var w4 := w3.(job := Looked(p, info), doomed := set q | q in w3.doomed && !Under(q, p));
    ReachableStep(env, acts0, w3, Look(p), w4);
    var w5 := w4.(job := Reading(p, info, []));
    ReachableStep(env, acts0 + [Look(p)], w4, Open, w5);
    assert [] + f2.data == f2.data;
    var w6 := w5.(job := Reading(p, info, [] + f2.data));
    ReachableStep(env, acts0 + [Look(p)] + [Open], w5, Read(f2.data), w6);
    var w7 := w6.(job := Filled(p, info, f2.data));
    ReachableStep(env, acts0 + [Look(p)] + [Open] + [Read(f2.data)], w6, Finish, w7);
    acts, w := RenameThenFail(env, acts0 + [Look(p)] + [Open] + [Read(f2.data)] + [Finish], w7, f2);
  }

  lemma RenameThenFail(env: Env, acts0: seq<Action>, w7: World, f2: Node) returns (acts: seq<Action>, w: World)
    requires Reachable(env, acts0, w7) && f2.File? && w7.job == Filled(["a"], StateOf(f2), f2.data)
    requires w7.dst.Keys == {["a"]} && w7.dst[["a"]].File?
    ensures Reachable(env, acts, w) && w.job == Idle && w.src == w7.src && w.dst == OneFile(f2) && w.cache == w7.cache
  {
    hide Reachable;
    var p := ["a"];
    assert Parent(p) == [] && MkdirAll(w7.dst, [], 0) == Some(w7.dst);
    var w8 := w7.(dst := Replace(w7.dst, p, f2, 0).value, job := Renamed(p, StateOf(f2)), torn := w7.torn + {p},
                  versions := w7.versions + {(p, f2)});
    ReachableStep(env, acts0, w7, Rename(0), w8);
    w := w8.(job := Idle);
    ReachableStep(env, acts0 + [Rename(0)], w8, Fail, w);
    acts := acts0 + [Rename(0)] + [Fail];
    assert w.dst == OneFile(f2);
  }

  /**
    With the mode set back meanwhile, the old record matches again: every reconcile
    succeeds and leaves the wrong mode. So the condition on file records is needed.
   */
  lemma FailedSyncLeavesWrongMode(env: Env, file: Node, perm: Perm, deep: bool) returns (acts: seq<Action>, w: World)
    requires file.File? && perm != file.perm && !env.excluded(["a"]) && Setting(env, OneFile(file))
    ensures Reachable(env, acts, w) && w.src == OneFile(file)
    ensures Reconcile(env, w.src, Mirror(w.dst, w.cache), deep).ok
    ensures !Exact(env, w.src, Reconcile(env, w.src, Mirror(w.dst, w.cache), deep).m.dst)
  {
    hide Reachable;
    hide Reconcile;
    hide GoodEnough;
    var p := ["a"];
    var before, v := CopiedButNotRecorded(env, file, perm);
    OneFileTree(env, file);
    OneFileTree(env, file.(perm := perm));
    w := v.(src := OneFile(file), past := v.past + Times(OneFile(file)));
    assert SameFile(v.src, w.src, p);
    ReachableStep(env, before, v, Change(OneFile(file)), w);
    acts := before + [Change(OneFile(file))];
    var m := Mirror(w.dst, w.cache);
    ShallowReconcileSucceeds(env, w.src, m, deep);
    assert !GoodEnough(env, w.src, m) by { NotGood(env, w.src, m, p); }
    QuietReconcileExactly(env, acts, w, deep);
  }

  lemma NotGood(env: Env, src: Fs, m: Mirror, p: Path)
    requires Included(env, src, p) && !GoodAt(env, src, m, p)
    ensures !GoodEnough(env, src, m)
  {
  }

  // ----- an empty directory, gone and back -----

  function TwoDirs(perm: Perm): Fs {
    map[["a"] := Dir(perm), ["c"] := Dir(perm)]
  }

  function OtherDir(perm: Perm): Fs {
    map[["c"] := Dir(perm)]
  }

  lemma DirTrees(env: Env, perm: Perm)
    requires !env.excluded(["a"]) && !env.excluded(["c"])
    ensures IsTree(TwoDirs(perm)) && Plain(TwoDirs(perm)) && IsTree(OtherDir(perm))
    ensures Included(env, TwoDirs(perm), ["a"]) && Included(env, TwoDirs(perm), ["c"])
    ensures forall p | p in TwoDirs(perm) :: p == ["a"] || p == ["c"]
    ensures ["a"] !in OtherDir(perm)
  {
    assert Parent(["a"]) == [] && Parent(["c"]) == [];
    forall k | 0 < k <= 1 ensures ["a"][..k] == ["a"] && ["c"][..k] == ["c"] { }
    assert ["a"][0] != ["c"][0];
  }

  /** The directory is recorded. */
  lemma DirRecorded(env: Env, perm: Perm) returns (acts: seq<Action>, w: World)
    requires !env.excluded(["a"]) && !env.excluded(["c"])
    ensures Reachable(env, acts, w) && w.job == Idle && w.src == TwoDirs(perm) && w.dst == TwoDirs(perm)
    ensures w.cache == map[["a"] := StateOf(Dir(perm))] && w.doomed == {}
  {
    var p, s1 := ["a"], TwoDirs(perm);
    DirTrees(env, perm);
    IncludedIsFound(env, s1, p);
    var w0 := World(s1, Times(s1) + Times(s1), Files(s1), s1, map[], Idle, {}, {});
    assert Reachable(env, [], w0);
    var info := StateOf(Dir(perm));
    var w1 := w0.(job := Looked(p, info), doomed := set q | q in w0.doomed && !Under(q, p));
    ReachableStep(env, [], w0, Look(p), w1);
    assert MkdirAll(w1.dst, p, perm) == Some(w1.dst);
    w := w1.(dst := MkdirAll(w1.dst, p, perm).value, cache := w1.cache[p := info], job := Idle, torn := w1.torn - {p});
    ReachableStep(env, [] + [Look(p)], w1, MakeDir(perm), w);
    acts := [] + [Look(p)] + [MakeDir(perm)];
  }

  /** Its source goes, the backup follows, and the directory sync fails before the record does. */
  lemma DirRemovedNotForgotten(env: Env, perm: Perm) returns (acts: seq<Action>, w: World)
    requires !env.excluded(["a"]) && !env.excluded(["c"])
    ensures Reachable(env, acts, w) && w.job == Idle && w.src == OtherDir(perm)
    ensures w.cache == map[["a"] := StateOf(Dir(perm))] && ["a"] !in w.dst && ["c"] in w.dst && w.dst[["c"]].Dir?
  {
    hide Reachable;
    hide RemoveAll;
    var p := ["a"];
    DirTrees(env, perm);
    var before, v := DirRecorded(env, perm);
    var w1 := v.(src := OtherDir(perm), past := v.past + Times(OtherDir(perm)));
    ReachableStep(env, before, v, Change(OtherDir(perm)), w1);
    var w2 := w1.(doomed := w1.doomed + {p});
    ReachableStep(env, before + [Change(OtherDir(perm))], w1, Notice(p), w2);
    acts, w := RemoveThenFail(env, before + [Change(OtherDir(perm))] + [Notice(p)], w2, perm);
  }

  lemma RemoveThenFail(env: Env, acts0: seq<Action>, w2: World, perm: Perm) returns (acts: seq<Action>, w: World)
    requires Reachable(env, acts0, w2) && w2.dst == TwoDirs(perm) && ["a"] in w2.doomed && w2.job == Idle
    ensures Reachable(env, acts, w) && w.job == Idle && w.src == w2.src
    ensures w.cache == w2.cache && ["a"] !in w.dst && ["c"] in w.dst && w.dst[["c"]].Dir?
  {
    hide Reachable;
    var p := ["a"];
    assert RemoveAll(w2.dst, p).Some? by {
      assert ["a"][0] != ["c"][0];
      forall k: nat | k < |p| ensures p[..k] !in w2.dst { assert p[..k] == []; }
    }
    assert Under(p, p) && !Under(p, ["c"]) by { assert ["c"][0] != p[0]; }
    var w3 := w2.(dst := RemoveAll(w2.dst, p).value, job := Removed(p, false),
                  torn := w2.torn + set q | q in w2.cache && Under(p, q));
    ReachableStep(env, acts0, w2, Remove(p), w3);
    w := w3.(job := Idle);
    ReachableStep(env, acts0 + [Remove(p)], w3, Fail, w);
    acts := acts0 + [Remove(p)] + [Fail];
  }

  /**
    With the empty directory made again under the same mode, the old record matches:
    every reconcile succeeds and the directory stays away. So the condition on directory
    records is needed too.
   */
  lemma FailedSyncLosesDirectory(env: Env, perm: Perm, deep: bool) returns (acts: seq<Action>, w: World)
    requires !env.excluded(["a"]) && !env.excluded(["c"]) && Setting(env, TwoDirs(perm))
    ensures Reachable(env, acts, w) && w.src == TwoDirs(perm)
    ensures Reconcile(env, w.src, Mirror(w.dst, w.cache), deep).ok
    ensures !Exact(env, w.src, Reconcile(env, w.src, Mirror(w.dst, w.cache), deep).m.dst)
  {
    hide Reachable;
    hide Reconcile;
    hide GoodEnough;
    var p := ["a"];
    DirTrees(env, perm);
    var before, v := DirRemovedNotForgotten(env, perm);
    w := v.(src := TwoDirs(perm), past := v.past + Times(TwoDirs(perm)));
    ReachableStep(env, before, v, Change(TwoDirs(perm)), w);
    acts := before + [Change(TwoDirs(perm))];
    var m := Mirror(w.dst, w.cache);
    assert IsTree(w.dst) && Plain(w.dst) by { ReachableInv(env, acts, w); }
    ShallowReconcileSucceeds(env, w.src, m, deep);
    assert !GoodEnough(env, w.src, m) by {
      assert !(exists q :: Included(env, w.src, q) && p < q && Unmatched(w.src, m, q));
      NotGood(env, w.src, m, p);
    }
    QuietReconcileExactly(env, acts, w, deep);
  }
}
