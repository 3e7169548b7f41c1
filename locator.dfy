/**
 * The repository locator of `main`: the set of `.git` directories comes
 * either from `find`'s output or from the cache file written on an earlier
 * run, and git is run in the parent directory of each.
 */
module Locator {
  import opened Wrappers
  import opened PyStr
  import opened PyLines
  import opened PyPath

  /**
   * `set(res.splitlines())` for the text `find` printed (`run` reads it with
   * universal newlines).
   */
  function FoundRepos(findOutput: string): (r: set<string>)
    ensures forall p :: p in r ==> NoBreaks(p)
    ensures r == {} <==> findOutput == ""
  {
    var lines := SplitLines(UniversalNewlines(findOutput));
    var r := set l | l in lines;
    assert lines != [] ==> lines[0] in r && r != {};
    r
  }

  /**
   * `find -print` ends every path it prints with "\n": the set found is
   * exactly the set of printed paths.
   */
  lemma FoundPrintedPaths(paths: seq<string>)
    requires |paths| > 0 && forall k :: 0 <= k < |paths| ==> NoBreaks(paths[k])
    ensures FoundRepos(Join(paths, "\n") + "\n") == set p | p in paths
  {
    var text := Join(paths, "\n") + "\n";
    forall k | 0 <= k < |paths| ensures '\n' !in paths[k] && '\r' !in paths[k] {
      NoNewline(paths[k]);
    }
    JoinNoReturn(paths);
    assert '\r' !in text;
    UniversalNewlinesIdentity(text);
    SplitLinesTerminated(paths);
  }

  /**
   * `"\n".join(repos)`, the text written to the cache file; `order` is the
   * order in which iterating the set yields its elements.
   */
  function CacheText(order: seq<string>): string
  {
    Join(order, "\n")
  }

  /** `set(open(CACHE_DIRS, 'r').readlines())`: the lines keep their "\n". */
  function CachedRepos(contents: string): (r: set<string>)
    ensures forall p :: p in r ==> p != ""
  {
    var lines := ReadLines(contents);
    set l | l in lines
  }

  /** What `repos` holds once discovery is over: the cache wins when it exists. */
  function Repos(cache: Option<string>, findOutput: string): (r: set<string>)
    ensures cache.None? ==> r == FoundRepos(findOutput) && forall p :: p in r ==> NoBreaks(p)
    ensures cache.Some? ==> r == CachedRepos(cache.value) && forall p :: p in r ==> p != ""
  {
    match cache
    case None => FoundRepos(findOutput)
    case Some(contents) => CachedRepos(contents)
  }

  /** The working directory git is run in for the entry `r` of `repos`. */
  function RepoDir(r: string): string
  {
    Dirname(r)
  }

  predicate Distinct(s: seq<string>)
  {
    forall i, j :: 0 <= i < j < |s| ==> s[i] != s[j]
  }

  /**
   * Reading the cache back: one line per written path, in the same order, each
   * equal to the path with a "\n" after it (all but the last) and with the
   * same directory part; distinct paths stay distinct.
   */
  lemma CacheReadBack(order: seq<string>)
    requires forall k :: 0 <= k < |order| ==> order[k] != "" && NoBreaks(order[k])
    ensures |ReadLines(CacheText(order))| == |order|
    ensures forall k :: 0 <= k < |order| ==>
      ReadLines(CacheText(order))[k] == (if k < |order| - 1 then order[k] + "\n" else order[k])
    ensures forall k :: 0 <= k < |order| ==> RepoDir(ReadLines(CacheText(order))[k]) == RepoDir(order[k])
    ensures Distinct(order) ==> Distinct(ReadLines(CacheText(order)))
  {
    forall k | 0 <= k < |order| ensures '\n' !in order[k] && '\r' !in order[k] {
      NoNewline(order[k]);
    }
    ReadLinesJoin(order);
    var lines := ReadLines(CacheText(order));
    forall k | 0 <= k < |order| ensures RepoDir(lines[k]) == RepoDir(order[k]) {
      DirnameIgnoresNewline(order[k]);
    }
    if Distinct(order) {
      LinesDistinct(order, lines);
    }
  }

  lemma NoNewline(p: string)
    requires NoBreaks(p)
    ensures '\n' !in p && '\r' !in p
  {
    assert IsLineBreak('\n') && IsLineBreak('\r');
    assert forall i :: 0 <= i < |p| ==> p[i] != '\n' && p[i] != '\r';
  }

  /** Appending "\n" to all paths but the last keeps distinct paths distinct. */
  lemma LinesDistinct(order: seq<string>, lines: seq<string>)
    requires Distinct(order) && |lines| == |order|
    requires forall k :: 0 <= k < |order| ==> NoBreaks(order[k])
    requires forall k :: 0 <= k < |order| ==>
      lines[k] == (if k < |order| - 1 then order[k] + "\n" else order[k])
    ensures Distinct(lines)
  {
    forall i, j | 0 <= i < j < |lines| ensures lines[i] != lines[j] {
      var p := order[i] + "\n";
      assert lines[i] == p;
      if j < |order| - 1 {
        var q := order[j] + "\n";
        assert lines[j] == q;
        assert p[..|p| - 1] == order[i];
        assert q[..|q| - 1] == order[j];
      } else {
        assert lines[j] == order[j];
        assert p[|p| - 1] == '\n';
        assert IsLineBreak('\n');
        assert |order[j]| > 0 ==> !IsLineBreak(order[j][|order[j]| - 1]);
      }
    }
  }

  lemma {:induction false} DistinctCard(s: seq<string>)
    requires Distinct(s)
    ensures |set x | x in s| == |s|
    decreases |s|
  {
    if |s| > 0 {
      DistinctCard(s[1..]);
      assert (set x | x in s) == {s[0]} + (set x | x in s[1..]);
      assert s[0] !in (set x | x in s[1..]);
    }
  }

  /** The elements of a sequence without duplicates are as many as its length. */
  lemma CachedCount(findOutput: string, order: seq<string>)
    requires Distinct(order) && (set p | p in order) == FoundRepos(findOutput)
    requires forall k :: 0 <= k < |order| ==> order[k] != "" && NoBreaks(order[k])
    ensures |CachedRepos(CacheText(order))| == |FoundRepos(findOutput)|
  {
    CacheReadBack(order);
    DistinctCard(order);
    DistinctCard(ReadLines(CacheText(order)));
  }

  /** Two path lists that agree directory by directory name the same directories. */
  lemma SameDirs(a: seq<string>, b: seq<string>)
    requires |a| == |b| && forall k :: 0 <= k < |a| ==> RepoDir(a[k]) == RepoDir(b[k])
    ensures (set p | p in (set x | x in a) :: RepoDir(p)) == (set p | p in (set x | x in b) :: RepoDir(p))
  {
    var da := set p | p in (set x | x in a) :: RepoDir(p);
    var db := set p | p in (set x | x in b) :: RepoDir(p);
    forall d | d in da ensures d in db {
      var k :| 0 <= k < |a| && RepoDir(a[k]) == d;
      assert b[k] in (set x | x in b);
    }
    forall d | d in db ensures d in da {
      var k :| 0 <= k < |b| && RepoDir(b[k]) == d;
      assert a[k] in (set x | x in a);
    }
  }

  lemma CachedDirs(order: seq<string>)
    requires forall k :: 0 <= k < |order| ==> order[k] != "" && NoBreaks(order[k])
    ensures (set p | p in CachedRepos(CacheText(order)) :: RepoDir(p))
         == (set p | p in (set x | x in order) :: RepoDir(p))
  {
    var lines := ReadLines(CacheText(order));
    assert |lines| == |order| && forall k :: 0 <= k < |lines| ==> RepoDir(lines[k]) == RepoDir(order[k]) by {
      CacheReadBack(order);
    }
    SameDirs(lines, order);
  }

  /**
   * A second run, which reads the cache the first run wrote, visits as many
   * repositories as the first and runs git in the same directories.
   */
  lemma CacheRoundTrip(findOutput: string, order: seq<string>)
    requires Distinct(order) && (set p | p in order) == FoundRepos(findOutput)
    requires "" !in FoundRepos(findOutput)
    ensures |Repos(Some(CacheText(order)), findOutput)| == |Repos(None, findOutput)|
    ensures (set p | p in Repos(Some(CacheText(order)), findOutput) :: RepoDir(p))
         == (set p | p in Repos(None, findOutput) :: RepoDir(p))
  {
    forall k | 0 <= k < |order| ensures order[k] != "" && NoBreaks(order[k]) {
      assert order[k] in set q | q in order;
    }
    CachedCount(findOutput, order);
    CachedDirs(order);
  }

  /**
   * The one path the read-back can lose: an empty entry written last leaves
   * only the "\n" before it, which `readlines` does not report as a line.
   */
  lemma EmptyLastEntryDropped(p: string)
    requires p != "" && NoBreaks(p)
    ensures ReadLines(CacheText([p, ""])) == [p + "\n"]
  {
    JoinCons(p, [""], "\n");
    assert CacheText([p, ""]) == p + "\n";
    CacheReadBack([p]);
    assert CacheText([p]) == p;
    assert '\r' !in p + "\n" by {
      assert forall i :: 0 <= i < |p| ==> p[i] != '\r';
    }
    UniversalNewlinesIdentity(p + "\n");
    NoHeadSeparable(p, "\n");
    FindAfterSeparable(p, "\n", "");
    assert (p + "\n")[..|p| + 1] == p + "\n";
    assert (p + "\n")[|p| + 1..] == "";
  }
}
