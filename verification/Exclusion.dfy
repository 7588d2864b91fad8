/** The exclusion patterns of netfin/internal/filesync/exclude.go, over slash-separated strings. */
module Exclusion {

  import opened Paths
  import opened FileTree
  import opened Mirroring
  import opened MirrorFacts
  import opened Settling
  import opened Collapsing
  import opened Clashing

  /** filepath.Match; a malformed pattern matches nothing. */
  type Glob = (string, string) -> bool

  const TREE_SUFFIX := "/**"

  predicate IsTreePattern(pattern: string) {
    |pattern| >= 3 && pattern[|pattern| - 3..] == TREE_SUFFIX
  }

  /** pathBase: what follows the last slash. */
  function Base(path: string): string {
    if '/' !in path then path else Base(path[1..])
  }

  predicate ExcludedBy(glob: Glob, pattern: string, rel: string) {
    pattern != "" &&
    if IsTreePattern(pattern) then StringUnder(pattern[..|pattern| - 3], rel)
    else ('/' !in pattern && glob(pattern, Base(rel))) || glob(pattern, rel)
  }

  predicate IsExcluded(glob: Glob, patterns: seq<string>, rel: string) {
    rel != "." && exists pattern :: pattern in patterns && ExcludedBy(glob, pattern, rel)
  }

  /** Excluder.Excluded: the first pattern that applies decides. */
  method Excluded(glob: Glob, patterns: seq<string>, rel: string) returns (excluded: bool)
    ensures excluded <==> IsExcluded(glob, patterns, rel)
  {
    if rel == "." {
      return false;
    }
    var base := Base(rel);
    for i := 0 to |patterns|
      invariant forall j | 0 <= j < i :: !ExcludedBy(glob, patterns[j], rel)
    {
      var pattern := patterns[i];
      if pattern == "" {
        continue;
      }
      if IsTreePattern(pattern) {
        var prefix := pattern[..|pattern| - 3];
        if rel == prefix || HasPathPrefix(rel, prefix + "/") {
          assert ExcludedBy(glob, pattern, rel) && pattern in patterns;
          return true;
        }
        continue;
      }
      if '/' !in pattern && glob(pattern, base) {
        assert ExcludedBy(glob, pattern, rel) && pattern in patterns;
        return true;
      }
      if glob(pattern, rel) {
        assert ExcludedBy(glob, pattern, rel) && pattern in patterns;
        return true;
      }
    }
    return false;
  }

  lemma {:induction false} BaseSkips(a: string, s: string)
    ensures Base(a + "/" + s) == Base(s)
  {
    if a == [] {
      assert (a + "/" + s)[1..] == s;
      assert (a + "/" + s)[0] == '/';
    } else {
      assert (a + "/" + s)[1..] == a[1..] + "/" + s;
      assert (a + "/" + s)[|a|] == '/';
      BaseSkips(a[1..], s);
    }
  }

  /** The base name is the last component. */
  lemma {:induction false} BaseIsLastComponent(p: Path)
    requires ValidPath(p)
    ensures Base(Render(p)) == p[|p| - 1]
  {
    RenderNonEmpty(p);
    assert ValidName(p[0]);
    if |p| > 1 {
      BaseSkips(p[0], Render(p[1..]));
      BaseIsLastComponent(p[1..]);
    }
  }

  lemma NoDotPath(p: Path)
    requires ValidPath(p)
    ensures Render(p) != "."
  {
    RenderNonEmpty(p);
    assert ValidName(p[0]);
    assert |p| > 1 ==> |Render(p)| > 1;
  }

  /** A pattern that names a tree excludes, with a path, everything below it. */
  lemma TreePatternIsClosed(glob: Glob, pattern: string, p: Path, q: Path)
    requires ValidPath(p) && ValidPath(q) && Under(p, q)
    requires IsTreePattern(pattern) && ExcludedBy(glob, pattern, Render(p))
    ensures ExcludedBy(glob, pattern, Render(q))
  {
    UnderImpliesStringUnder(p, q);
    var prefix := pattern[..|pattern| - 3];
    var rp, rq := Render(p), Render(q);
    if rq != rp && rp != prefix {
      assert rq[..|prefix + "/"|] == rp[..|prefix + "/"|];
    }
  }

  /** A tree pattern excludes the directory it names and everything below it, and nothing else. */
  lemma TreePatternMeaning(glob: Glob, d: Path, p: Path)
    requires ValidPath(d) && ValidPath(p)
    ensures IsExcluded(glob, [Render(d) + TREE_SUFFIX], Render(p)) <==> Under(d, p)
  {
    var pattern := Render(d) + TREE_SUFFIX;
    assert pattern[|pattern| - 3..] == TREE_SUFFIX && pattern[..|pattern| - 3] == Render(d);
    NoDotPath(p);
    StringUnderIsComponentUnder(d, p);
    assert pattern in [pattern];
  }

  /** A pattern with a slash that names no tree excludes exactly by a match of the whole path. */
  lemma PathPatternMeaning(glob: Glob, pattern: string, p: Path)
    requires ValidPath(p) && '/' in pattern && !IsTreePattern(pattern)
    ensures IsExcluded(glob, [pattern], Render(p)) <==> glob(pattern, Render(p))
  {
    NoDotPath(p);
    assert pattern in [pattern];
  }

  /** A path is excluded exactly when one of the patterns, taken alone, excludes it; empty patterns exclude nothing. */
  lemma PatternsAddUp(glob: Glob, patterns: seq<string>, rel: string)
    ensures IsExcluded(glob, patterns, rel) <==> exists i :: 0 <= i < |patterns| && IsExcluded(glob, [patterns[i]], rel)
    ensures !IsExcluded(glob, [""], rel) && !IsExcluded(glob, patterns, ".")
  {
    forall i | 0 <= i < |patterns| ensures IsExcluded(glob, [patterns[i]], rel) <==> rel != "." && ExcludedBy(glob, patterns[i], rel) {
      assert patterns[i] in [patterns[i]];
    }
  }

  /** Where every pattern names a tree, exclusion passes down to the contents of a directory. */
  lemma TreePatternsAreClosed(glob: Glob, patterns: seq<string>, p: Path, q: Path)
    requires ValidPath(p) && ValidPath(q) && Under(p, q)
    requires forall pattern | pattern in patterns && pattern != "" :: IsTreePattern(pattern)
    requires IsExcluded(glob, patterns, Render(p))
    ensures IsExcluded(glob, patterns, Render(q))
  {
    var pattern :| pattern in patterns && ExcludedBy(glob, pattern, Render(p));
    TreePatternIsClosed(glob, pattern, p, q);
    NoDotPath(q);
  }

  /**
    A pattern without a slash excludes by the last component, whatever the directory, and
    in addition by the whole path, which a negated character class may still match.
   */
  lemma BaseNamePatternMeaning(glob: Glob, pattern: string, p: Path)
    requires ValidPath(p) && pattern != "" && '/' !in pattern
    ensures IsExcluded(glob, [pattern], Render(p)) <==> glob(pattern, p[|p| - 1]) || glob(pattern, Render(p))
  {
    BaseIsLastComponent(p);
    NoDotPath(p);
    assert |pattern| >= 3 ==> pattern[|pattern| - 3..][0] == pattern[|pattern| - 3];
    assert pattern in [pattern];
  }

  // ----- the Excluder as the mirror's exclusion -----

  predicate PathExcluded(glob: Glob, patterns: seq<string>, p: Path) {
    p != [] && IsExcluded(glob, patterns, Render(p))
  }

  /** The mirror under a list of patterns. */
  function EnvOf(glob: Glob, patterns: seq<string>, umask: Perm, dirStat: (Fs, Path) -> Stat): Env {
    Env(p => PathExcluded(glob, patterns, p), umask, dirStat, false)
  }

  /** Where every pattern names a tree, the exclusion is closed downwards. */
  lemma TreePatternsGiveClosed(glob: Glob, patterns: seq<string>, umask: Perm, dirStat: (Fs, Path) -> Stat)
    requires forall pattern | pattern in patterns && pattern != "" :: IsTreePattern(pattern)
    ensures Closed(EnvOf(glob, patterns, umask, dirStat))
  {
    var env := EnvOf(glob, patterns, umask, dirStat);
    forall p, q | p != [] && ValidPath(q) && Under(p, q) && env.excluded(p) ensures env.excluded(q) {
      TreePatternsAreClosed(glob, patterns, p, q);
    }
  }

  /** A pattern without a slash is not: it leaves out a directory's name and not what is in it. */
  lemma BaseNamePatternIsOpen(glob: Glob, pattern: string, umask: Perm, dirStat: (Fs, Path) -> Stat, d: Name, n: Name)
    requires pattern != "" && '/' !in pattern && ValidName(d) && ValidName(n)
    requires glob(pattern, d) && !glob(pattern, n) && !glob(pattern, d + "/" + n)
    ensures !Closed(EnvOf(glob, [pattern], umask, dirStat))
  {
    var p, q := [d], [d, n];
    assert Render(q) == d + "/" + n by { assert q[1..] == [n]; }
    BaseNamePatternMeaning(glob, pattern, p);
    BaseNamePatternMeaning(glob, pattern, q);
    assert Under(p, q);
  }

  /** The queue result for a list of tree patterns. */
  lemma FlushCollapsedUnderTreePatterns(glob: Glob, patterns: seq<string>, umask: Perm, dirStat: (Fs, Path) -> Stat,
                                        src: Fs, m: Mirror, entries: seq<Entry>)
    requires forall pattern | pattern in patterns && pattern != "" :: IsTreePattern(pattern)
    requires Setting(EnvOf(glob, patterns, umask, dirStat), src) && Coherent(m) && ValidEntries(entries)
    requires DistinctPaths(entries)
    requires Flushable(EnvOf(glob, patterns, umask, dirStat), src, m.dst, entries)
    ensures var env := EnvOf(glob, patterns, umask, dirStat);
            Flush(env, src, m, Collapse(entries)) == Flush(env, src, m, SortEntries(entries))
  {
    hide EnvOf;
    TreePatternsGiveClosed(glob, patterns, umask, dirStat);
    FlushCollapsedWithoutClashes(EnvOf(glob, patterns, umask, dirStat), src, m, entries);
  }
}
