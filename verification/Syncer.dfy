/** The Syncer of netfin/internal/filesync: its fields, and its methods against the functions on values. */
module Syncing {

  import opened Paths
  import opened FileTree
  import opened Wrappers
  import opened Walk
  import opened RecordOrder
  import opened Mirroring
  import opened MirrorFacts
  import opened Reconciling
  import opened Settling
  import opened Collapsing

  // ----- lists of visits -----

  lemma {:induction false} VisitAllAppend(env: Env, src: Fs, m: Mirror, a: seq<Path>, b: seq<Path>, sweep: bool)
    requires forall p | p in a + b :: p in src && p != []
    ensures forall p | p in a :: p in src && p != []
    ensures forall p | p in b :: p in src && p != []
    ensures var o := VisitAll(env, src, m, a, sweep);
            VisitAll(env, src, m, a + b, sweep) == if o.ok then VisitAll(env, src, o.m, b, sweep) else o
    decreases |a|
  {
    assert forall p | p in a :: p in a + b;
    assert forall p | p in b :: p in a + b;
    if a == [] {
      assert a + b == b;
    } else {
      assert (a + b)[1..] == a[1..] + b;
      var o := Visit(env, src, m, a[0], sweep);
      if o.ok { VisitAllAppend(env, src, o.m, a[1..], b, sweep); }
    }
  }

  /** The visits of one directory, cut before and after its entry number `i`. */
  lemma WalkSplit(env: Env, src: Fs, m: Mirror, p: Path, names: seq<Name>, i: nat, done: seq<Path>, sweep: bool)
    requires IsTree(src) && (forall n | n in names :: p + [n] in src) && i < |names|
    requires forall q | q in done :: q in src && q != []
    requires VisitNames(src, Skipped(env, src), p, names) == done + VisitNames(src, Skipped(env, src), p, names[i..])
    requires VisitAll(env, src, m, done, sweep).ok
    ensures var skip := Skipped(env, src);
            var mine, all := VisitChild(src, skip, p, names[i]), VisitNames(src, skip, p, names);
            && all == (done + mine) + VisitNames(src, skip, p, names[i + 1..])
            && (forall q | q in mine :: q in src && q != [])
            && (forall q | q in all :: q in src && q != [])
            && (forall q | q in done + mine :: q in src && q != [])
            && (var o := VisitAll(env, src, VisitAll(env, src, m, done, sweep).m, mine, sweep);
                && VisitAll(env, src, m, done + mine, sweep) == o
                && (!o.ok ==> VisitAll(env, src, m, all, sweep) == o))
  {
    hide VisitAll;
    hide VisitNames;
    hide VisitChild;
    hide Skipped;
    hide IsTree;
    var skip := Skipped(env, src);
    var mine, rest := VisitChild(src, skip, p, names[i]), VisitNames(src, skip, p, names[i + 1..]);
    ChildVisitsInSource(env, src, p, names);
    TailVisits(src, skip, p, names, i);
    assert done + (mine + rest) == (done + mine) + rest;
    VisitAllCut(env, src, m, done, mine, rest, sweep);
  }

  lemma TailVisits(src: Fs, skip: Skip, p: Path, names: seq<Name>, i: nat)
    requires (forall n | n in names :: p + [n] in src) && i < |names|
    ensures VisitNames(src, skip, p, names[i..]) ==
            VisitChild(src, skip, p, names[i]) + VisitNames(src, skip, p, names[i + 1..])
  {
    assert names[i..][0] == names[i] && names[i..][1..] == names[i + 1..];
  }

  lemma VisitAllCut(env: Env, src: Fs, m: Mirror, done: seq<Path>, mine: seq<Path>, rest: seq<Path>, sweep: bool)
    requires forall q | q in (done + mine) + rest :: q in src && q != []
    ensures forall q | q in done + mine :: q in src && q != []
    ensures forall q | q in done :: q in src && q != []
    ensures forall q | q in mine :: q in src && q != []
    ensures VisitAll(env, src, m, done, sweep).ok ==>
              var o := VisitAll(env, src, VisitAll(env, src, m, done, sweep).m, mine, sweep);
              && VisitAll(env, src, m, done + mine, sweep) == o
              && (!o.ok ==> VisitAll(env, src, m, (done + mine) + rest, sweep) == o)
  {
    assert forall q | q in done + mine :: q in (done + mine) + rest;
    VisitAllAppend(env, src, m, done, mine, sweep);
    VisitAllAppend(env, src, m, done + mine, rest, sweep);
  }

  /** Entries before number `i` of a directory have been walked; `done` lists what was visited. */
  ghost predicate Walked(env: Env, src: Fs, m0: Mirror, m: Mirror, p: Path, names: seq<Name>, i: nat, done: seq<Path>,
                         sweep: bool, before: set<Path>, seen: set<Path>)
    requires IsTree(src) && (forall n | n in names :: p + [n] in src) && i <= |names|
  {
    && VisitNames(src, Skipped(env, src), p, names) == done + VisitNames(src, Skipped(env, src), p, names[i..])
    && (forall q | q in done :: q in src && q != [])
    && Outcome(m, true) == VisitAll(env, src, m0, done, sweep) && seen == before + Elems(done)
  }

  lemma WalkBegins(env: Env, src: Fs, m: Mirror, p: Path, names: seq<Name>, sweep: bool, before: set<Path>)
    requires IsTree(src) && forall n | n in names :: p + [n] in src
    ensures Walked(env, src, m, m, p, names, 0, [], sweep, before, before)
  {
    assert names[0..] == names;
  }

  lemma WalkGoesOn(env: Env, src: Fs, m0: Mirror, m: Mirror, p: Path, names: seq<Name>, i: nat, done: seq<Path>,
                   sweep: bool, before: set<Path>, seen: set<Path>, o: Outcome, seen': set<Path>)
    requires IsTree(src) && (forall n | n in names :: p + [n] in src) && i < |names|
    requires Walked(env, src, m0, m, p, names, i, done, sweep, before, seen)
    requires forall q | q in VisitChild(src, Skipped(env, src), p, names[i]) :: q in src && q != []
    requires o == VisitAll(env, src, m, VisitChild(src, Skipped(env, src), p, names[i]), sweep)
    requires o.ok ==> seen' == seen + Elems(VisitChild(src, Skipped(env, src), p, names[i]))
    ensures forall q | q in VisitNames(src, Skipped(env, src), p, names) :: q in src && q != []
    ensures o.ok ==> Walked(env, src, m0, o.m, p, names, i + 1, done + VisitChild(src, Skipped(env, src), p, names[i]),
                            sweep, before, seen')
    ensures !o.ok ==> o == VisitAll(env, src, m0, VisitNames(src, Skipped(env, src), p, names), sweep)
  {
    hide VisitAll;
    hide VisitNames;
    hide VisitChild;
    hide Skipped;
    hide IsTree;
    WalkSplit(env, src, m0, p, names, i, done, sweep);
    SeenMore(done, VisitChild(src, Skipped(env, src), p, names[i]));
    hide Elems;
  }

  lemma SeenMore(a: seq<Path>, b: seq<Path>)
    ensures Elems(a + b) == Elems(a) + Elems(b)
  {
  }

  lemma WalkEnds(env: Env, src: Fs, m0: Mirror, m: Mirror, p: Path, names: seq<Name>, done: seq<Path>,
                 sweep: bool, before: set<Path>, seen: set<Path>)
    requires IsTree(src) && (forall n | n in names :: p + [n] in src)
    requires Walked(env, src, m0, m, p, names, |names|, done, sweep, before, seen)
    ensures VisitNames(src, Skipped(env, src), p, names) == done && (forall q | q in done :: q in src && q != [])
    ensures Outcome(m, true) == VisitAll(env, src, m0, done, sweep) && seen == before + Elems(done)
  {
    assert names[|names|..] == [];
  }

  lemma ChildVisitsInSource(env: Env, src: Fs, p: Path, names: seq<Name>)
    requires IsTree(src) && forall n | n in names :: p + [n] in src
    ensures forall q | q in VisitNames(src, Skipped(env, src), p, names) :: q in src && q != []
  {
    VisitNamesMeaning(src, Skipped(env, src), p, names);
  }

  // ----- pruning a directory of the backup -----

  /** From depth `n` down every component of `p` was seen. */
  predicate KeptFrom(seen: set<Path>, n: nat, p: Path) {
    forall k | n < k <= |p| :: p[..k] in seen
  }

  /** Below `dir`, in one of `names`, and not kept all the way down. */
  predicate Dead(seen: set<Path>, dir: Path, names: set<Name>, p: Path) {
    dir < p && p[|dir|] in names && !KeptFrom(seen, |dir|, p)
  }

  /** Where the walk of `names` in `dir` turns from seen to unseen. */
  predicate DeadTop(dst: Fs, seen: set<Path>, dir: Path, names: set<Name>, q: Path) {
    q in dst && dir < q && q[|dir|] in names && q !in seen && KeptFrom(seen, |dir|, Parent(q))
  }

  predicate DroppedIn(dst: Fs, seen: set<Path>, dir: Path, names: set<Name>, p: Path) {
    exists q :: q in dst && DeadTop(dst, seen, dir, names, q) && (p == q || (dst[q].Dir? && Under(q, p)))
  }

  function DropDead(m: Mirror, seen: set<Path>, dir: Path, names: set<Name>): Mirror {
    Mirror(map p | p in m.dst && !Dead(seen, dir, names, p) :: m.dst[p],
           map p | p in m.cache && !DroppedIn(m.dst, seen, dir, names, p) :: m.cache[p])
  }

  class Syncer {
    const env: Env
    var dst: Fs
    var state: Cache
    var pending: map<Path, bool>
    var reconciled: bool

    constructor (env: Env, dst: Fs)
      ensures this.env == env && this.dst == dst && state == map[] && pending == map[] && !reconciled
    {
      this.env := env;
      this.dst := dst;
      state := map[];
      pending := map[];
      reconciled := false;
    }

    function M(): Mirror
      reads this
    {
      Mirror(dst, state)
    }

    method Queue(rel: Path, tree: bool)
      modifies this`pending
      ensures pending == old(pending)[rel := tree || (rel in old(pending) && old(pending)[rel])]
    {
      var item := if rel in pending then pending[rel] else false;
      pending := pending[rel := item || tree];
    }

    // ----- the record -----

    method HasStateTree(rel: Path) returns (found: bool)
      ensures found <==> Mirroring.HasStateTree(state, rel)
    {
      var todo := state.Keys;
      while todo != {}
        invariant todo <= state.Keys
        invariant forall q | q in state && q !in todo :: !Under(rel, q)
        decreases |todo|
      {
        var path :| path in todo;
        if Under(rel, path) {
          return true;
        }
        todo := todo - {path};
      }
      return false;
    }

    method ForgetStateTree(rel: Path)
      modifies this`state
      ensures state == if env.dryRun then old(state) else Forget(old(state), rel)
    {
      if env.dryRun {
        return;
      }
      var todo := state.Keys;
      while todo != {}
        invariant todo <= old(state).Keys
        invariant state.Keys == set q | q in old(state) && (q in todo || !Under(rel, q))
        invariant forall q | q in state :: state[q] == old(state)[q]
        decreases |todo|
      {
        var path :| path in todo;
        if Under(rel, path) {
          state := state - {path};
        }
        todo := todo - {path};
      }
    }

    method StatePaths() returns (paths: seq<Path>)
      ensures paths == SortedPaths(state.Keys)
    {
      hide SortedPaths;
      hide InsertPath;
      paths := [];
      NothingToSort();
      var todo := state.Keys;
      ghost var done: set<Path> := {};
      while todo != {}
        invariant todo + done == state.Keys && todo !! done
        invariant paths == SortedPaths(done)
        decreases |todo|
      {
        var path :| path in todo;
        InsertSorts(done, path);
        paths := InsertPath(path, paths);
        todo, done := todo - {path}, done + {path};
      }
      assert done == state.Keys;
    }

    // ----- single paths -----

    method RemoveBackupPath(rel: Path) returns (ok: bool)
      modifies this`dst, this`state
      ensures Outcome(M(), ok) == Mirroring.RemoveBackupPath(env, old(M()), rel)
    {
      if !env.dryRun {
        match RemoveAll(dst, rel)
        case None => return false;
        case Some(d) => dst := d;
      }
      ForgetStateTree(rel);
      return true;
    }

    method RemoveKnownBackupPath(rel: Path) returns (ok: bool)
      modifies this`dst, this`state
      ensures Outcome(M(), ok) == Mirroring.RemoveKnownBackupPath(env, old(M()), rel)
    {
      var known := HasStateTree(rel);
      if !known {
        return true;
      }
      ok := RemoveBackupPath(rel);
    }

    method SyncDir(rel: Path, info: Node) returns (ok: bool)
      requires info.Dir?
      modifies this`dst, this`state
      ensures Outcome(M(), ok) == Mirroring.SyncDir(env, old(M()), rel, info)
    {
      var st := StateOf(info);
      if StateMatches(state, rel, st) {
        return true;
      }
      if !env.dryRun {
        match MkdirAll(dst, rel, Created(env, info.perm))
        case None => return false;
        case Some(d) => dst := d; state := state[rel := st];
      }
      return true;
    }

    method CopyRel(rel: Path, info: Node) returns (ok: bool)
      requires info.File? && rel != []
      modifies this`dst, this`state
      ensures Outcome(M(), ok) == Mirroring.CopyRel(env, old(M()), rel, info)
    {
      var st := StateOf(info);
      if StateMatches(state, rel, st) {
        return true;
      }
      if FileMetadataMatches(env, dst, rel, info) {
        if !env.dryRun { state := state[rel := st]; }
        return true;
      }
      if !env.dryRun {
        match Replace(dst, rel, info, Created(env, PARENT_PERM))
        case None => return false;
        case Some(d) => dst := d; state := state[rel := st];
      }
      return true;
    }

    /** HasSymlinkInPath and Lstat: component by component. */
    method Look(src: Fs, rel: Path) returns (l: Lookup)
      requires rel != []
      ensures l == LookUp(src, rel)
    {
      var k := 0;
      while k < |rel|
        invariant 0 <= k <= |rel|
        invariant LookUp(src, rel) == LookupFrom(src, rel, k)
        invariant k > 0 ==> rel[..k] in src
      {
        if k > 0 && !src[rel[..k]].Dir? {
          return if src[rel[..k]].Symlink? then Linked else NotDirectory;
        }
        var cur := rel[..k + 1];
        if cur !in src {
          assert LookupFrom(src, rel, k + 1) == Missing by { assert rel[..|rel|] == rel; }
          return Missing;
        }
        k := k + 1;
      }
      assert rel[..k] == rel;
      return if src[rel].Symlink? then Linked else Found(src[rel]);
    }

    method SyncRel(src: Fs, rel: Path) returns (ok: bool)
      modifies this`dst, this`state
      ensures Outcome(M(), ok) == Mirroring.SyncRel(env, src, old(M()), rel)
    {
      if rel == [] {
        return true;
      }
      if env.excluded(rel) {
        ok := RemoveKnownBackupPath(rel);
        return;
      }
      var l := Look(src, rel);
      if l.NotDirectory? {
        return false;
      }
      if !l.Found? {
        ok := RemoveKnownBackupPath(rel);
      } else if l.node.Dir? {
        ok := SyncDir(rel, l.node);
      } else if l.node.File? {
        ok := CopyRel(rel, l.node);
      } else {
        ok := RemoveKnownBackupPath(rel);
      }
    }

    // ----- walks over the source -----

    /** filepath.WalkDir below directory `p` with the callback of Reconcile or, sweeping, of SyncTree. */
    method WalkDir(src: Fs, p: Path, sweep: bool, before: set<Path>) returns (ok: bool, seen: set<Path>)
      requires IsTree(src)
      modifies this`dst, this`state
      ensures forall q | q in Visits(src, Skipped(env, src), p) :: q in src && q != []
      ensures Outcome(M(), ok) == VisitAll(env, src, old(M()), Visits(src, Skipped(env, src), p), sweep)
      ensures ok ==> seen == before + Elems(Visits(src, Skipped(env, src), p))
      decreases |Below(src, p)|
    {
      hide VisitAll;
      hide Skipped;
      hide VisitChild;
      hide VisitNames;
      hide Elems;
      var names := SortedNames(Children(src, p));
      ChildVisitsInSource(env, src, p, names);
      assert Visits(src, Skipped(env, src), p) == VisitNames(src, Skipped(env, src), p, names);
      WalkBegins(env, src, M(), p, names, sweep, before);
      hide Walked;
      seen := before;
      var i := 0;
      ghost var done: seq<Path> := [];
      while i < |names|
        invariant 0 <= i <= |names|
        invariant Walked(env, src, old(M()), M(), p, names, i, done, sweep, before, seen)
      {
        ghost var m1, seen1 := M(), seen;
        ok, seen := WalkEntry(src, p, names[i], sweep, seen);
        WalkGoesOn(env, src, old(M()), m1, p, names, i, done, sweep, before, seen1, Outcome(M(), ok), seen);
        if !ok {
          return;
        }
        done := done + VisitChild(src, Skipped(env, src), p, names[i]);
        i := i + 1;
      }
      WalkEnds(env, src, old(M()), M(), p, names, done, sweep, before, seen);
      return true, seen;
    }

    /** One directory entry, and everything below it. */
    method WalkEntry(src: Fs, p: Path, n: Name, sweep: bool, before: set<Path>) returns (ok: bool, seen: set<Path>)
      requires IsTree(src) && p + [n] in src
      modifies this`dst, this`state
      ensures forall q | q in VisitChild(src, Skipped(env, src), p, n) :: q in src && q != []
      ensures Outcome(M(), ok) == VisitAll(env, src, old(M()), VisitChild(src, Skipped(env, src), p, n), sweep)
      ensures ok ==> seen == before + Elems(VisitChild(src, Skipped(env, src), p, n))
      decreases |Below(src, p)|, 0
    {
      ghost var skip := Skipped(env, src);
      VisitChildMeaning(src, skip, p, n);
      BelowShrinks(src, p, n);
      var q := p + [n];
      seen := before;
      if env.excluded(q) {
        return true, seen;
      }
      var info := src[q];
      if info.Symlink? {
        return true, seen;
      }
      seen := seen + {q};
      ok := VisitOne(src, q, sweep);
      assert Outcome(M(), ok) == Visit(env, src, old(M()), q, sweep);
      if !ok || !info.Dir? {
        return;
      }
      ghost var m1 := M();
      ghost var below := Visits(src, skip, q);
      assert VisitChild(src, skip, p, n) == [q] + below;
      assert ([q] + below)[1..] == below;
      ok, seen := WalkDir(src, q, sweep, seen);
    }

    method VisitOne(src: Fs, q: Path, sweep: bool) returns (ok: bool)
      requires q in src && q != []
      modifies this`dst, this`state
      ensures Outcome(M(), ok) == Visit(env, src, old(M()), q, sweep)
    {
      var info := src[q];
      if info.Dir? {
        ok := SyncDir(q, info);
      } else if info.File? {
        ok := CopyRel(q, info);
      } else if sweep {
        ok := RemoveBackupPath(q);
      } else {
        ok := true;
      }
    }

    // ----- pruning -----

    /** removeDeletedFromStateUnder: shallow paths first, so that a removed tree is not visited again. */
    method RemoveDeletedFromStateUnder(root: Path, seen: set<Path>) returns (ok: bool)
      modifies this`dst, this`state
      ensures Outcome(M(), ok) == PruneByState(env, old(M()), root, seen)
    {
      var paths := StatePaths();
      ghost var m0 := M();
      var i := 0;
      assert paths[0..] == paths;
      while i < |paths|
        invariant 0 <= i <= |paths|
        invariant PruneList(env, M(), root, seen, paths[i..]) == PruneList(env, m0, root, seen, paths)
      {
        var rel := paths[i];
        assert paths[i..][1..] == paths[i + 1..];
        if Under(root, rel) && rel !in seen && rel in state {
          ok := RemoveBackupPath(rel);
          if !ok {
            return;
          }
        }
        i := i + 1;
      }
      return true;
    }

    /** removeDeletedByWalkingDestination below one directory: entries are read once, then taken in order. */
    method PruneDir(dir: Path, seen: set<Path>)
      requires !env.dryRun && IsTree(dst) && HasDir(dst, dir)
      modifies this`dst, this`state
      ensures IsTree(dst) && M() == DropDead(old(M()), seen, dir, Children(old(dst), dir))
      decreases |Below(dst, dir)|, 1
    {
      hide DropDead;
      ghost var m0 := M();
      var names := SortedNames(Children(dst, dir));
      ghost var done: set<Name> := {};
      DropNothing(m0, seen, dir);
      var i := 0;
      while i < |names|
        invariant 0 <= i <= |names|
        invariant forall x :: x in done <==> x in names[..i]
        invariant IsTree(dst) && M() == DropDead(m0, seen, dir, done)
      {
        var n := names[i];
        FreshName(names, i);
        EntryRemains(m0, seen, dir, done, n);
        PruneEntry(dir, n, seen, m0, done);
        done := done + {n};
        i := i + 1;
      }
      assert done == Children(m0.dst, dir) by { assert names[..i] == names; }
    }

    method PruneEntry(dir: Path, n: Name, seen: set<Path>, ghost m0: Mirror, ghost done: set<Name>)
      requires !env.dryRun && IsTree(dst) && IsTree(m0.dst) && n !in done
      requires dir + [n] in m0.dst && dir + [n] in dst && M() == DropDead(m0, seen, dir, done)
      modifies this`dst, this`state
      ensures IsTree(dst) && M() == DropDead(m0, seen, dir, done + {n})
      decreases |Below(dst, dir + [n])|, 2
    {
      hide DropDead;
      var q := dir + [n];
      var entry := dst[q];
      if q in seen {
        DropSeen(m0, seen, dir, done, n);
        if entry.Dir? {
          PruneDir(q, seen);
        } else {
          NothingBelow(dst, q);
          assert forall x | x in Children(dst, q) :: q < q + [x];
          assert Children(dst, q) == {};
          DropNothing(M(), seen, q);
        }
      } else {
        DropUnseen(m0, seen, dir, done, n);
        WithoutIsTree(dst, q);
        if entry.Dir? {
          dst := Without(dst, q);
          ForgetStateTree(q);
        } else {
          RemoveLeaf(dst, q);
          dst := dst - {q};
          state := state - {q};
        }
      }
    }

    method RemoveDeletedByWalkingDestination(seen: set<Path>)
      requires IsTree(dst)
      modifies this`dst, this`state
      ensures IsTree(dst) && M() == PruneByWalk(env, old(M()), seen)
    {
      if env.dryRun {
        return;
      }
      DroppedAll(env, M(), seen);
      PruneDir([], seen);
    }

    /** Reconcile: deep until one has succeeded, light from then on. */
    method Reconcile(src: Fs) returns (ok: bool)
      requires IsTree(src) && IsTree(dst) && Plain(dst)
      modifies this`dst, this`state, this`reconciled
      ensures Outcome(M(), ok) == Mirroring.Reconcile(env, src, old(M()), !old(reconciled))
      ensures reconciled == (old(reconciled) || ok)
      ensures Coherent(old(M())) && NoAlias(env, src) ==> Coherent(M())
    {
      var deep := !reconciled;
      ghost var m0 := M();
      if Coherent(m0) && NoAlias(env, src) { ReconcileCoherent(env, src, m0, deep); }
      var seen: set<Path> := {};
      SourceVisitsInSource(env, src, []);
      VisitAllTree(env, src, m0, SourceVisits(env, src), false);
      ok, seen := WalkDir(src, [], false, seen);
      if !ok {
        return;
      }
      assert seen == Elems(SourceVisits(env, src));
      if deep {
        RemoveDeletedByWalkingDestination(seen);
      } else {
        ok := RemoveDeletedFromStateUnder([], seen);
        if !ok {
          return;
        }
      }
      reconciled := true;
    }

    method PendingEntries() returns (list: seq<Entry>)
      ensures Enumerates(list, pending)
    {
      list := [];
      var todo := pending.Keys;
      while todo != {}
        invariant todo <= pending.Keys
        invariant forall e | e in list :: e.rel in pending && e.rel !in todo && e.tree == pending[e.rel]
        invariant forall p | p in pending && p !in todo :: Entry(p, pending[p]) in list
        invariant DistinctPaths(list)
        decreases |todo|
      {
        var rel :| rel in todo;
        assert forall i | 0 <= i < |list| :: list[i] in list;
        list := list + [Entry(rel, pending[rel])];
        todo := todo - {rel};
      }
    }

    /** flushPending: the queue is emptied first; a failed entry does not stop the others. */
    method FlushPending(src: Fs) returns (ghost entries: seq<Entry>)
      requires IsTree(src) && forall p | p in pending :: ValidPath(p)
      modifies this`dst, this`state, this`pending
      ensures Enumerates(entries, old(pending)) && ValidEntries(entries)
      ensures pending == map[]
      ensures M() == Flush(env, src, old(M()), Collapse(entries))
      ensures Setting(env, src) && Closed(env) && Coherent(old(M())) && TreesSucceed(env, src, old(M()), Collapse(entries)) ==>
                M() == Flush(env, src, old(M()), SortEntries(entries))
      ensures Coherent(old(M())) && NoAlias(env, src) ==> Coherent(M())
    {
      ghost var m0 := M();
      var list := PendingEntries();
      entries := list;
      pending := map[];
      var queue := CollapsePending(list);
      FlushQueue(src, queue);
      if Coherent(m0) && NoAlias(env, src) {
        FlushCoherent(env, src, m0, queue);
        if !env.dryRun && Closed(env) && TreesSucceed(env, src, m0, Collapse(entries)) {
          FlushCollapsed(env, src, m0, entries);
        }
      }
    }

    method FlushQueue(src: Fs, queue: seq<Entry>)
      requires IsTree(src)
      modifies this`dst, this`state
      ensures M() == Flush(env, src, old(M()), queue)
    {
      hide FlushOne;
      var i := 0;
      assert queue[0..] == queue;
      while i < |queue|
        invariant 0 <= i <= |queue|
        invariant Flush(env, src, M(), queue[i..]) == Flush(env, src, old(M()), queue)
      {
        assert queue[i..][1..] == queue[i + 1..];
        FlushItem(src, queue[i]);
        i := i + 1;
      }
    }

    method FlushItem(src: Fs, item: Entry)
      requires IsTree(src)
      modifies this`dst, this`state
      ensures M() == FlushOne(env, src, old(M()), item).m
    {
      var ok;
      if item.tree {
        ok := SyncTree(src, item.rel);
      } else {
        ok := SyncRel(src, item.rel);
      }
    }

    method SyncTree(src: Fs, rel: Path) returns (ok: bool)
      requires IsTree(src)
      modifies this`dst, this`state
      ensures Outcome(M(), ok) == Mirroring.SyncTree(env, src, old(M()), rel)
      ensures Coherent(old(M())) && NoAlias(env, src) ==> Coherent(M())
    {
      if rel == [] {
        return true;
      }
      ghost var m0 := M();
      if Coherent(m0) && NoAlias(env, src) { SyncTreeCoherent(env, src, m0, rel); }
      if env.excluded(rel) {
        ok := SyncRel(src, rel);
        return;
      }
      var l := Look(src, rel);
      if !l.Found? || !l.node.Dir? {
        ok := SyncRel(src, rel);
        return;
      }
      ghost var below := Visits(src, Skipped(env, src), rel);
      SourceVisitsInSource(env, src, rel);
      assert forall q | q in [rel] + below :: q in src && q != [];
      VisitAllAppend(env, src, m0, [rel], below, true);
      ok := VisitOne(src, rel, true);
      var seen := {rel};
      if ok {
        ok, seen := WalkDir(src, rel, true, seen);
      }
      if ok {
        assert seen == Elems([rel] + below);
        ok := RemoveDeletedFromStateUnder(rel, seen);
      }
    }
  }

  // ----- the queue -----

  /** Every pending path once, in any order. */
  ghost predicate Enumerates(entries: seq<Entry>, pending: map<Path, bool>) {
    && DistinctPaths(entries)
    && forall e :: e in entries <==> e.rel in pending && e.tree == pending[e.rel]
  }

  // ----- pruning by a walk -----

  lemma RemoveLeaf(dst: Fs, q: Path)
    requires IsTree(dst) && q in dst && !dst[q].Dir?
    ensures dst - {q} == Without(dst, q)
  {
    NothingBelow(dst, q);
    forall p | p in dst ensures Under(q, p) <==> p == q { assert Under(q, p) && p != q ==> q < p; }
  }

  lemma DropNothing(m: Mirror, seen: set<Path>, dir: Path)
    ensures DropDead(m, seen, dir, {}) == m
  {
  }

  lemma FreshName(names: seq<Name>, i: nat)
    requires i < |names| && forall j, k | 0 <= j < k < |names| :: StrLess(names[j], names[k])
    ensures names[i] !in names[..i]
    ensures forall x :: x in names[..i + 1] <==> x in names[..i] || x == names[i]
  {
    StrLessTotal(names[i], names[i]);
    assert names[..i + 1] == names[..i] + [names[i]];
  }

  lemma EntryRemains(m: Mirror, seen: set<Path>, dir: Path, done: set<Name>, n: Name)
    requires dir + [n] in m.dst && n !in done
    ensures dir + [n] in DropDead(m, seen, dir, done).dst
    ensures |Below(DropDead(m, seen, dir, done).dst, dir + [n])| < |Below(m.dst, dir)|
  {
    var d := DropDead(m, seen, dir, done).dst;
    BelowShrinks(m.dst, dir, n);
    SubsetSize(Below(d, dir + [n]), Below(m.dst, dir + [n]));
  }

  lemma KeptStep(seen: set<Path>, n: nat, p: Path)
    requires n < |p|
    ensures KeptFrom(seen, n, p) <==> p[..n + 1] in seen && KeptFrom(seen, n + 1, p)
  {
  }

  lemma DeadMore(seen: set<Path>, dir: Path, done: set<Name>, n: Name, p: Path)
    ensures Dead(seen, dir, done + {n}, p) <==> Dead(seen, dir, done, p) || Dead(seen, dir, {n}, p)
  {
  }

  lemma DeadUnseen(seen: set<Path>, dir: Path, n: Name, p: Path)
    requires dir + [n] !in seen
    ensures Dead(seen, dir, {n}, p) <==> Under(dir + [n], p)
  {
    FirstStepBelow(dir, n, p);
    if dir + [n] <= p { KeptStep(seen, |dir|, p); }
  }

  lemma DeadSeen(fs: Fs, seen: set<Path>, dir: Path, n: Name, p: Path)
    requires IsTree(fs) && p in fs && dir + [n] in seen
    ensures Dead(seen, dir, {n}, p) <==> Dead(seen, dir + [n], Children(fs, dir + [n]), p)
  {
    var q := dir + [n];
    FirstStepBelow(dir, n, p);
    if q <= p { KeptStep(seen, |dir|, p); }
    if q < p { ChildOnTheWay(fs, q, p); }
    if p == q { assert KeptFrom(seen, |dir| + 1, p); }
  }

  lemma KeptParent(seen: set<Path>, n: nat, p: Path)
    requires n < |p|
    ensures KeptFrom(seen, n, p) <==> p in seen && KeptFrom(seen, n, Parent(p))
  {
    assert p[..|p|] == p;
    assert forall k | n < k < |p| :: p[..k] == Parent(p)[..k];
  }

  lemma DropDeadTree(m: Mirror, seen: set<Path>, dir: Path, names: set<Name>)
    requires IsTree(m.dst)
    ensures IsTree(DropDead(m, seen, dir, names).dst)
  {
    hide DroppedIn;
    var d := DropDead(m, seen, dir, names).dst;
    forall p | p in d ensures p != [] && HasDir(d, Parent(p)) {
      assert HasDir(m.dst, Parent(p));
      if dir < Parent(p) {
        assert Parent(p)[|dir|] == p[|dir|];
        KeptParent(seen, |dir|, p);
      }
    }
  }

  lemma DeadTopMore(dst: Fs, seen: set<Path>, dir: Path, done: set<Name>, n: Name, q: Path)
    ensures DeadTop(dst, seen, dir, done + {n}, q) <==> DeadTop(dst, seen, dir, done, q) || DeadTop(dst, seen, dir, {n}, q)
  {
  }

  /** An unseen name is itself where the walk turns. */
  lemma DeadTopUnseen(dst: Fs, seen: set<Path>, dir: Path, n: Name, q: Path)
    requires dir + [n] in dst && dir + [n] !in seen
    ensures DeadTop(dst, seen, dir, {n}, q) <==> q == dir + [n]
  {
    FirstStepBelow(dir, n, q);
    var c := dir + [n];
    assert Parent(c) == dir;
    if c < q { assert Parent(q)[..|dir| + 1] == c; }
  }

  lemma DroppedMore(dst: Fs, seen: set<Path>, dir: Path, done: set<Name>, n: Name, p: Path)
    ensures DroppedIn(dst, seen, dir, done + {n}, p) <==> DroppedIn(dst, seen, dir, done, p) || DroppedIn(dst, seen, dir, {n}, p)
  {
    forall q ensures DeadTop(dst, seen, dir, done + {n}, q) <==>
                     DeadTop(dst, seen, dir, done, q) || DeadTop(dst, seen, dir, {n}, q) {
      DeadTopMore(dst, seen, dir, done, n, q);
    }
  }

  lemma DroppedUnseen(dst: Fs, seen: set<Path>, dir: Path, n: Name, p: Path)
    requires dir + [n] in dst && dir + [n] !in seen
    ensures DroppedIn(dst, seen, dir, {n}, p) <==> p == dir + [n] || (dst[dir + [n]].Dir? && Under(dir + [n], p))
  {
    forall q ensures DeadTop(dst, seen, dir, {n}, q) <==> q == dir + [n] {
      DeadTopUnseen(dst, seen, dir, n, q);
    }
  }

  /** A name that was not seen goes: a directory with its tree and all their records, a file with its record. */
  lemma DropUnseen(m: Mirror, seen: set<Path>, dir: Path, done: set<Name>, n: Name)
    requires dir + [n] in m.dst && dir + [n] !in seen && dir + [n] in DropDead(m, seen, dir, done).dst
    ensures var d, q := DropDead(m, seen, dir, done), dir + [n];
            d.dst[q] == m.dst[q] && DropDead(m, seen, dir, done + {n}) ==
            Mirror(Without(d.dst, q), if m.dst[q].Dir? then Forget(d.cache, q) else d.cache - {q})
  {
    forall p
      ensures Dead(seen, dir, done + {n}, p) <==> Dead(seen, dir, done, p) || Under(dir + [n], p)
      ensures DroppedIn(m.dst, seen, dir, done + {n}, p) <==> DroppedIn(m.dst, seen, dir, done, p) || p == dir + [n] ||
                                                              (m.dst[dir + [n]].Dir? && Under(dir + [n], p))
    {
      DeadMore(seen, dir, done, n, p);
      DeadUnseen(seen, dir, n, p);
      DroppedMore(m.dst, seen, dir, done, n, p);
      DroppedUnseen(m.dst, seen, dir, n, p);
    }
  }

  lemma DeadTopSeen(fs: Fs, d: Fs, seen: set<Path>, dir: Path, done: set<Name>, n: Name, q: Path)
    requires IsTree(d) && dir + [n] in seen && n !in done
    requires forall p :: p in d <==> p in fs && !Dead(seen, dir, done, p)
    ensures DeadTop(fs, seen, dir, {n}, q) <==> DeadTop(d, seen, dir + [n], Children(d, dir + [n]), q)
  {
    var c := dir + [n];
    FirstStepBelow(dir, n, q);
    if c < q { assert dir < c < q && q[|dir|] == n; }
    if dir < q && q[|dir|] == n { assert c <= q; }
    if q in fs && c < q {
      assert q in d && Parent(q)[..|dir| + 1] == c;
      ChildOnTheWay(d, c, q);
      KeptStep(seen, |dir|, Parent(q));
      assert DeadTop(fs, seen, dir, {n}, q) <==> q !in seen && KeptFrom(seen, |dir|, Parent(q));
      assert DeadTop(d, seen, c, Children(d, c), q) <==> q !in seen && KeptFrom(seen, |c|, Parent(q));
    } else {
      assert !DeadTop(d, seen, c, Children(d, c), q);
      assert DeadTop(fs, seen, dir, {n}, q) ==> q in fs && q == c;
    }
  }

  /** A name that was seen stays, and its own contents are pruned. */
  lemma DropSeen(m: Mirror, seen: set<Path>, dir: Path, done: set<Name>, n: Name)
    requires dir + [n] in seen && n !in done && IsTree(m.dst)
    ensures var d := DropDead(m, seen, dir, done);
            DropDead(m, seen, dir, done + {n}) == DropDead(d, seen, dir + [n], Children(d.dst, dir + [n]))
  {
    var d := DropDead(m, seen, dir, done);
    var c, names := dir + [n], Children(d.dst, dir + [n]);
    DropDeadTree(m, seen, dir, done);
    forall p | p in m.dst
      ensures Dead(seen, dir, done + {n}, p) <==> Dead(seen, dir, done, p) || Dead(seen, c, names, p)
    {
      DeadMore(seen, dir, done, n, p);
      if !Dead(seen, dir, done, p) { DeadSeen(d.dst, seen, dir, n, p); }
    }
    forall p
      ensures DroppedIn(m.dst, seen, dir, done + {n}, p) <==>
              DroppedIn(m.dst, seen, dir, done, p) || DroppedIn(d.dst, seen, c, names, p)
    {
      DroppedMore(m.dst, seen, dir, done, n, p);
      DroppedSeen(m.dst, d.dst, seen, dir, done, n, p);
    }
  }

  lemma DroppedSeen(fs: Fs, d: Fs, seen: set<Path>, dir: Path, done: set<Name>, n: Name, p: Path)
    requires IsTree(d) && dir + [n] in seen && n !in done
    requires forall q :: q in d <==> q in fs && !Dead(seen, dir, done, q)
    requires forall q | q in d :: d[q] == fs[q]
    ensures DroppedIn(fs, seen, dir, {n}, p) <==> DroppedIn(d, seen, dir + [n], Children(d, dir + [n]), p)
  {
    forall q ensures DeadTop(fs, seen, dir, {n}, q) <==> DeadTop(d, seen, dir + [n], Children(d, dir + [n]), q) {
      DeadTopSeen(fs, d, seen, dir, done, n, q);
    }
  }

  lemma DroppedAll(env: Env, m: Mirror, seen: set<Path>)
    requires IsTree(m.dst) && !env.dryRun
    ensures DropDead(m, seen, [], Children(m.dst, [])) == PruneByWalk(env, m, seen)
  {
    var names := Children(m.dst, []);
    forall p | p in m.dst
      ensures Dead(seen, [], names, p) <==> !Live(seen, p)
      ensures DeadTop(m.dst, seen, [], names, p) <==> DeadEnd(m.dst, seen, p)
    {
      ChildOnTheWay(m.dst, [], p);
      assert KeptFrom(seen, 0, p) <==> Live(seen, p);
      assert KeptFrom(seen, 0, Parent(p)) <==> Live(seen, Parent(p));
    }
    assert forall p :: DroppedIn(m.dst, seen, [], names, p) <==> Dropped(m.dst, seen, p);
  }

  // ----- backed records stay backed -----

  lemma VisitAllCoherent(env: Env, src: Fs, m: Mirror, ps: seq<Path>, sweep: bool)
    requires Coherent(m) && IsTree(src) && NoAlias(env, src)
    requires forall p | p in ps :: p in src && p != []
    ensures Coherent(VisitAll(env, src, m, ps, sweep).m)
    decreases |ps|
  {
    if !env.dryRun {
      VisitAllGood(env, src, m, ps, sweep, []);
    } else if ps != [] {
      VisitAllCoherent(env, src, m, ps[1..], sweep);
    }
  }

  lemma PruneCoherent(env: Env, m: Mirror, root: Path, seen: set<Path>)
    requires Coherent(m)
    ensures Coherent(PruneByState(env, m, root, seen).m)
  {
    if env.dryRun {
      PruneByStateIs(env, m, root, seen);
    } else {
      PruneByStateGood(env, m, root, seen);
    }
  }

  lemma ReconcileCoherent(env: Env, src: Fs, m: Mirror, deep: bool)
    requires Coherent(m) && IsTree(src) && NoAlias(env, src)
    ensures Coherent(Mirroring.Reconcile(env, src, m, deep).m)
  {
    SourceVisitsInSource(env, src, []);
    var ps := SourceVisits(env, src);
    VisitAllCoherent(env, src, m, ps, false);
    var w := VisitAll(env, src, m, ps, false).m;
    PruneCoherent(env, w, [], Elems(ps));
    if !env.dryRun { PruneByWalkGood(env, w, Elems(ps)); }
  }

  lemma SyncTreeCoherent(env: Env, src: Fs, m: Mirror, p: Path)
    requires Coherent(m) && IsTree(src) && NoAlias(env, src) && p != []
    ensures Coherent(Mirroring.SyncTree(env, src, m, p).m)
  {
    if !env.dryRun {
      SyncTreeGood(env, src, m, p);
    } else {
      SourceVisitsInSource(env, src, p);
      if IsTreeDir(env, src, p) {
        var ps := TreeVisits(env, src, p);
        VisitAllCoherent(env, src, m, ps, true);
        PruneCoherent(env, VisitAll(env, src, m, ps, true).m, p, Elems(ps));
      }
    }
  }

  lemma {:induction false} FlushCoherent(env: Env, src: Fs, m: Mirror, entries: seq<Entry>)
    requires Coherent(m) && IsTree(src) && NoAlias(env, src)
    ensures Coherent(Flush(env, src, m, entries))
    decreases |entries|
  {
    if entries != [] {
      var e := entries[0];
      if e.rel != [] {
        SyncTreeCoherent(env, src, m, e.rel);
        if !env.dryRun { SyncRelGood(env, src, m, e.rel); }
      }
      FlushCoherent(env, src, FlushOne(env, src, m, e).m, entries[1..]);
    }
  }

  // ----- walks keep the backup a tree -----

  lemma VisitTree(env: Env, src: Fs, m: Mirror, p: Path, sweep: bool)
    requires IsTree(m.dst) && Plain(m.dst) && p in src && p != []
    ensures var o := Visit(env, src, m, p, sweep); IsTree(o.m.dst) && Plain(o.m.dst)
  {
    hide IsTree;
    hide Plain;
    hide MkdirAll;
    hide Replace;
    hide FileMetadataMatches;
    hide StateMatches;
    hide Forget;
    if src[p].Dir? {
      var perm := Created(env, src[p].perm);
      MkdirAllMeaning(m.dst, p, perm);
      if MkdirAll(m.dst, p, perm).Some? { ExtendedIsTree(m.dst, p, perm, MkdirAll(m.dst, p, perm).value); }
    } else if src[p].File? {
      if Replace(m.dst, p, src[p], Created(env, PARENT_PERM)).Some? {
        ReplaceGood(env, m.dst, p, src[p], Created(env, PARENT_PERM));
      }
    } else {
      WithoutIsTree(m.dst, p);
    }
  }

  lemma {:induction false} VisitAllTree(env: Env, src: Fs, m: Mirror, ps: seq<Path>, sweep: bool)
    requires IsTree(m.dst) && Plain(m.dst) && forall p | p in ps :: p in src && p != []
    ensures var o := VisitAll(env, src, m, ps, sweep); IsTree(o.m.dst) && Plain(o.m.dst)
    decreases |ps|
  {
    hide Visit;
    if ps != [] {
      VisitTree(env, src, m, ps[0], sweep);
      var o := Visit(env, src, m, ps[0], sweep);
      if o.ok { VisitAllTree(env, src, o.m, ps[1..], sweep); }
    }
  }
}
