/** The queue of pending paths: sorted, collapsed, flushed. */
module Collapsing {

  import opened Paths
  import opened FileTree
  import opened Wrappers
  import opened Mirroring
  import opened MirrorFacts
  import opened Settling

  datatype Entry = Entry(rel: Path, tree: bool)

  ghost predicate ValidEntries(entries: seq<Entry>) {
    forall e | e in entries :: ValidPath(e.rel)
  }

  /** The keys of a map, so each path at most once. */
  ghost predicate DistinctPaths(entries: seq<Entry>) {
    forall i, j | 0 <= i < j < |entries| :: entries[i].rel != entries[j].rel
  }

  // ----- sorting -----

  /** The comparison handed to sort.Slice. */
  predicate EntryLess(a: Entry, b: Entry)
    requires a.rel != [] && b.rel != []
  {
    if Render(a.rel) == Render(b.rel) then a.tree && !b.tree else StrLess(Render(a.rel), Render(b.rel))
  }

  function Insert(e: Entry, s: seq<Entry>): (r: seq<Entry>)
    requires e.rel != [] && forall x | x in s :: x.rel != []
    ensures multiset(r) == multiset{e} + multiset(s)
    ensures forall x :: x in r <==> x == e || x in s
  {
    if s == [] || EntryLess(e, s[0]) then
      [e] + s
    else
      assert s == [s[0]] + s[1..];
      [s[0]] + Insert(e, s[1..])
  }

  function SortEntries(s: seq<Entry>): (r: seq<Entry>)
    requires forall x | x in s :: x.rel != []
    ensures multiset(r) == multiset(s)
    ensures forall x :: x in r <==> x in s
  {
    if s == [] then []
    else
      assert s == [s[0]] + s[1..];
      Insert(s[0], SortEntries(s[1..]))
  }

  /** Strictly increasing in byte order of the path strings. */
  ghost predicate Ascending(s: seq<Entry>) {
    && (forall i | 0 <= i < |s| :: s[i].rel != [])
    && (forall i, j | 0 <= i < j < |s| :: StrLess(Render(s[i].rel), Render(s[j].rel)))
  }

  lemma {:induction false} InsertAscending(e: Entry, s: seq<Entry>)
    requires Ascending(s) && ValidPath(e.rel) && ValidEntries(s)
    requires forall x | x in s :: x.rel != e.rel
    ensures Ascending(Insert(e, s))
  {
    if s != [] {
      StrLessTotal(Render(e.rel), Render(s[0].rel));
      if Render(e.rel) == Render(s[0].rel) { RenderInjective(e.rel, s[0].rel); }
      if EntryLess(e, s[0]) {
        forall j | 0 < j < |s| ensures StrLess(Render(e.rel), Render(s[j].rel)) {
          StrLessTransitive(Render(e.rel), Render(s[0].rel), Render(s[j].rel));
        }
      } else {
        InsertAscending(e, s[1..]);
        var r := Insert(e, s[1..]);
        forall j | 0 <= j < |r| ensures StrLess(Render(s[0].rel), Render(r[j].rel)) {
          assert r[j] in r;
        }
      }
    }
  }

  lemma {:induction false} SortAscending(s: seq<Entry>)
    requires ValidEntries(s) && DistinctPaths(s)
    ensures Ascending(SortEntries(s)) && ValidEntries(SortEntries(s))
  {
    if s != [] {
      SortAscending(s[1..]);
      var r := SortEntries(s[1..]);
      forall x | x in r ensures x.rel != s[0].rel { assert x in s[1..]; }
      InsertAscending(s[0], r);
    }
  }

  // ----- collapsing -----

  /** Some kept tree entry already stands for `e`. */
  predicate Covered(kept: seq<Entry>, e: Entry)
    requires e.rel != [] && forall k | k in kept :: k.rel != []
  {
    exists k :: k in kept && k.tree && StringUnder(Render(k.rel), Render(e.rel))
  }

  function CollapseFrom(kept: seq<Entry>, rest: seq<Entry>): seq<Entry>
    requires forall k | k in kept :: k.rel != []
    requires forall k | k in rest :: k.rel != []
    decreases |rest|
  {
    if rest == [] then kept
    else CollapseFrom(if Covered(kept, rest[0]) then kept else kept + [rest[0]], rest[1..])
  }

  function Collapse(entries: seq<Entry>): seq<Entry>
    requires forall k | k in entries :: k.rel != []
  {
    CollapseFrom([], SortEntries(entries))
  }

  /** collapsePending, its two loops, over a list that sort.Slice has put in order. */
  method CollapsePending(entries: seq<Entry>) returns (collapsed: seq<Entry>)
    requires forall k | k in entries :: k.rel != []
    ensures collapsed == Collapse(entries)
  {
    hide Render;
    hide HasPathPrefix;
    hide Insert;
    var sorted := SortEntries(entries);
    collapsed := [];
    assert sorted[0..] == sorted;
    hide SortEntries;
    for i := 0 to |sorted|
      invariant forall k | k in collapsed :: k.rel != []
      invariant CollapseFrom(collapsed, sorted[i..]) == Collapse(entries)
    {
      var item := sorted[i];
      assert item in sorted && item in entries;
      var skip := false;
      for j := 0 to |collapsed|
        invariant !skip
        invariant forall k | 0 <= k < j :: !(collapsed[k].tree && StringUnder(Render(collapsed[k].rel), Render(item.rel)))
      {
        var existing := collapsed[j];
        if existing.tree && (Render(item.rel) == Render(existing.rel)
                             || HasPathPrefix(Render(item.rel), Render(existing.rel) + "/")) {
          skip := true;
          break;
        }
      }
      assert skip <==> Covered(collapsed, item);
      assert sorted[i..][1..] == sorted[i + 1..];
      if !skip {
        collapsed := collapsed + [item];
      }
    }
  }

  // ----- flushing -----

  function FlushOne(env: Env, src: Fs, m: Mirror, e: Entry): Outcome
    requires IsTree(src)
  {
    if e.tree then SyncTree(env, src, m, e.rel) else SyncRel(env, src, m, e.rel)
  }

  /** A failed entry is logged and the next one is taken up. */
  function Flush(env: Env, src: Fs, m: Mirror, entries: seq<Entry>): Mirror
    requires IsTree(src)
    decreases |entries|
  {
    if entries == [] then m
    else Flush(env, src, FlushOne(env, src, m, entries[0]).m, entries[1..])
  }

  /** Every tree entry succeeds when its turn comes. */
  ghost predicate TreesSucceed(env: Env, src: Fs, m: Mirror, entries: seq<Entry>)
    requires IsTree(src)
    decreases |entries|
  {
    entries == [] ||
    (var o := FlushOne(env, src, m, entries[0]);
     (entries[0].tree ==> o.ok) && TreesSucceed(env, src, o.m, entries[1..]))
  }

  lemma FlushOneGood(env: Env, src: Fs, m: Mirror, e: Entry)
    requires Setting(env, src) && Coherent(m) && e.rel != []
    ensures var o := FlushOne(env, src, m, e); Coherent(o.m) && Framed(m, o.m, e.rel)
  {
    SyncRelGood(env, src, m, e.rel);
    SyncTreeGood(env, src, m, e.rel);
  }

  /** An entry inside a settled tree changes nothing. */
  lemma FlushOneIdle(env: Env, src: Fs, m: Mirror, r: Path, e: Entry)
    requires Setting(env, src) && Closed(env) && ValidPath(e.rel) && Coherent(m)
    requires Settled(env, src, m, r) && r != [] && Under(r, e.rel)
    ensures FlushOne(env, src, m, e).m == m
  {
    SyncRelIdle(env, src, m, r, e.rel);
    SyncTreeIdle(env, src, m, r, e.rel);
  }

  ghost predicate KeptSettled(env: Env, src: Fs, m: Mirror, kept: seq<Entry>) {
    forall k | k in kept && k.tree :: Settled(env, src, m, k.rel)
  }

  /** `kept` has been flushed; everything in it sorts before everything still to come. */
  ghost predicate Before(kept: seq<Entry>, rest: seq<Entry>) {
    && (forall k | k in kept :: ValidPath(k.rel))
    && (forall e | e in rest :: ValidPath(e.rel))
    && (forall k, e | k in kept && e in rest :: StrLess(Render(k.rel), Render(e.rel)))
  }

  lemma FlushOneKeepsSettled(env: Env, src: Fs, m: Mirror, kept: seq<Entry>, e: Entry)
    requires Setting(env, src) && Closed(env) && Coherent(m) && KeptSettled(env, src, m, kept)
    requires Before(kept, [e]) && !Covered(kept, e)
    requires e.tree ==> FlushOne(env, src, m, e).ok
    ensures KeptSettled(env, src, FlushOne(env, src, m, e).m, kept + [e])
  {
    var m' := FlushOne(env, src, m, e).m;
    FlushOneGood(env, src, m, e);
    forall k | k in kept + [e] && k.tree ensures Settled(env, src, m', k.rel) {
      if k in kept {
        assert e in [e];
        StringUnderIsComponentUnder(k.rel, e.rel);
        if Under(e.rel, k.rel) {
          StrLessTotal(Render(k.rel), Render(e.rel));
          if e.rel != k.rel { AncestorSortsFirst(e.rel, k.rel); }
        }
        SettledFramed(env, src, m, m', k.rel, e.rel);
      } else {
        SyncTreeSettles(env, src, m, e.rel);
      }
    }
  }

  lemma FlushOneCovered(env: Env, src: Fs, m: Mirror, kept: seq<Entry>, e: Entry)
    requires Setting(env, src) && Closed(env) && Coherent(m) && KeptSettled(env, src, m, kept)
    requires Before(kept, [e]) && Covered(kept, e)
    ensures FlushOne(env, src, m, e).m == m
  {
    var k :| k in kept && k.tree && StringUnder(Render(k.rel), Render(e.rel));
    assert e in [e];
    StringUnderIsComponentUnder(k.rel, e.rel);
    FlushOneIdle(env, src, m, k.rel, e);
  }

  lemma {:induction false} CollapseFromExtends(kept: seq<Entry>, rest: seq<Entry>)
    requires forall k | k in kept :: k.rel != []
    requires forall k | k in rest :: k.rel != []
    ensures kept <= CollapseFrom(kept, rest)
    decreases |rest|
  {
    if rest != [] {
      CollapseFromExtends(if Covered(kept, rest[0]) then kept else kept + [rest[0]], rest[1..]);
    }
  }

  lemma {:induction false} FlushCollapsedFrom(env: Env, src: Fs, m: Mirror, kept: seq<Entry>, rest: seq<Entry>)
    requires Setting(env, src) && Closed(env) && Coherent(m)
    requires Before(kept, rest) && Ascending(rest) && KeptSettled(env, src, m, kept)
    requires kept <= CollapseFrom(kept, rest)
    requires TreesSucceed(env, src, m, CollapseFrom(kept, rest)[|kept|..])
    ensures Flush(env, src, m, CollapseFrom(kept, rest)[|kept|..]) == Flush(env, src, m, rest)
    decreases |rest|
  {
    hide FlushOne;
    hide KeptSettled;
    hide Coherent;
    hide Closed;
    if rest != [] {
      var e := rest[0];
      assert Before(kept, [e]);
      hide Before;
      hide Covered;
      var all := CollapseFrom(kept, rest);
      if Covered(kept, e) {
        FlushOneCovered(env, src, m, kept, e);
        BeforeRest(kept, rest);
        FlushCollapsedFrom(env, src, m, kept, rest[1..]);
      } else {
        CollapseKeeps(kept, rest);
        FlushOneGood(env, src, m, e);
        FlushOneKeepsSettled(env, src, m, kept, e);
        BeforeStep(kept, rest);
        FlushCollapsedFrom(env, src, FlushOne(env, src, m, e).m, kept + [e], rest[1..]);
      }
    } else {
      assert CollapseFrom(kept, rest)[|kept|..] == [];
    }
  }

  /** An entry that is kept comes next in the collapsed queue. */
  lemma CollapseKeeps(kept: seq<Entry>, rest: seq<Entry>)
    requires rest != [] && (forall k | k in kept :: k.rel != []) && (forall k | k in rest :: k.rel != [])
    requires !Covered(kept, rest[0])
    ensures var all := CollapseFrom(kept, rest);
            && all == CollapseFrom(kept + [rest[0]], rest[1..]) && kept + [rest[0]] <= all
            && all[|kept|..][0] == rest[0] && all[|kept|..][1..] == all[|kept + [rest[0]]|..]
  {
    CollapseFromExtends(kept + [rest[0]], rest[1..]);
  }

  lemma BeforeRest(kept: seq<Entry>, rest: seq<Entry>)
    requires rest != [] && Before(kept, rest)
    ensures Before(kept, rest[1..])
  {
  }

  lemma BeforeStep(kept: seq<Entry>, rest: seq<Entry>)
    requires rest != [] && Before(kept, rest) && Ascending(rest)
    ensures Before(kept + [rest[0]], rest[1..])
  {
    forall e | e in rest[1..] ensures StrLess(Render(rest[0].rel), Render(e.rel)) {
      var i :| 0 <= i < |rest[1..]| && rest[1..][i] == e;
      assert rest[i + 1] == e;
    }
  }

  /**
    Flushing the collapsed queue ends in the same backup and the same record as
    flushing the whole sorted queue, for every set of pending paths.
   */
  lemma FlushCollapsed(env: Env, src: Fs, m: Mirror, entries: seq<Entry>)
    requires Setting(env, src) && Closed(env) && Coherent(m)
    requires ValidEntries(entries) && DistinctPaths(entries)
    requires TreesSucceed(env, src, m, Collapse(entries))
    ensures Flush(env, src, m, Collapse(entries)) == Flush(env, src, m, SortEntries(entries))
  {
    SortAscending(entries);
    var sorted := SortEntries(entries);
    assert Collapse(entries)[0..] == Collapse(entries);
    FlushCollapsedFrom(env, src, m, [], sorted);
  }

  // ----- a queue of two -----

  lemma CollapsedPair(p: Path, q: Path)
    requires ValidPath(p) && ValidPath(q) && p < q
    ensures var e1, e2 := Entry(p, true), Entry(q, false);
            && ValidEntries([e1, e2]) && DistinctPaths([e1, e2])
            && SortEntries([e1, e2]) == [e1, e2] && Collapse([e1, e2]) == [e1]
  {
    var e1, e2 := Entry(p, true), Entry(q, false);
    AncestorSortsFirst(p, q);
    StrLessTotal(Render(p), Render(q));
    StringUnderIsComponentUnder(p, q);
    SortedPair(e1, e2);
    hide SortEntries;
    PairCollapses(e1, e2);
  }

  lemma SortedPair(a: Entry, b: Entry)
    requires a.rel != [] && b.rel != [] && EntryLess(a, b)
    ensures SortEntries([a, b]) == [a, b]
  {
    hide EntryLess;
    assert [a, b][1..] == [b] && [b][1..] == [];
    assert SortEntries([b]) == [b];
  }

  lemma PairCollapses(a: Entry, b: Entry)
    requires a.tree && a.rel != [] && b.rel != [] && StringUnder(Render(a.rel), Render(b.rel))
    ensures CollapseFrom([], [a, b]) == [a]
  {
    hide StringUnder;
    hide Render;
    assert [a, b][1..] == [b] && [b][1..] == [] && [] + [a] == [a];
    assert !Covered([], a);
    assert a in [a] && Covered([a], b);
    assert CollapseFrom([a], [b]) == CollapseFrom([a], []);
  }

  lemma FlushPair(env: Env, src: Fs, m: Mirror, e1: Entry, e2: Entry)
    requires IsTree(src)
    ensures Flush(env, src, m, [e1]) == FlushOne(env, src, m, e1).m
    ensures Flush(env, src, m, [e1, e2]) == FlushOne(env, src, FlushOne(env, src, m, e1).m, e2).m
  {
    assert [e1, e2][1..] == [e2] && [e2][1..] == [] && [e1][1..] == [];
    var m1 := FlushOne(env, src, m, e1).m;
    assert Flush(env, src, m1, [e2]) == Flush(env, src, FlushOne(env, src, m1, e2).m, []);
  }
}
