/**
 * The loop of `main` over the discovered repositories: run git in each
 * repository's directory, parse its log and insert the records. A failing
 * git run skips that repository only; a line that does not parse, and any
 * other exception `run` raises, escapes the loop and ends the whole run.
 */
module Pipeline {
  import opened Wrappers
  import opened PyStr
  import opened PyLines
  import opened Locator
  import opened CommitParser
  import opened IndexGateway

  /**
   * What `run(log_command, repo_dir, stderr=subprocess.STDOUT)` came back
   * with, as decoded text before newline translation.
   */
  datatype Extraction =
    | ProcessError(returnCode: int, output: string)  // CalledProcessError: git exited non-zero
    | Raised(error: string)                          // any other exception: a missing working
                                                     // directory, output that does not decode
    | Output(text: string)                           // git's stdout, stderr merged into it

  /** The exception that escapes the loop. */
  datatype Escape =
    | BadLine(line: ParseFailure)  // the IndexError of `parse_line`
    | Uncaught(error: string)      // an exception from `run` other than CalledProcessError

  /** The index after some repositories, and whether an exception ended the run. */
  datatype RunState = Running(index: Index) | Aborted(index: Index, failure: Escape)

  /** `log.splitlines()` on what `run` returns: universal newlines, then the split. */
  function LogLines(text: string): (r: seq<string>)
    ensures r == [] <==> text == ""
  {
    SplitLines(UniversalNewlines(text))
  }

  /** One pass of the loop body for the entry `r` of `repos`. */
  function Step(m: Index, r: string, extract: string -> Extraction): RunState
  {
    match extract(RepoDir(r))
    case ProcessError(_, _) => Running(m)
    case Raised(e) => Aborted(m, Uncaught(e))
    case Output(text) =>
      match Parse(LogLines(text))
      case Err(f) => Aborted(m, BadLine(f))
      case Ok(None) => Running(m)
      case Ok(Some(parsed)) => Running(Insert(m, parsed))
  }

  /** The whole loop, repository after repository, stopping at the first exception. */
  function Run(m: Index, repos: seq<string>, extract: string -> Extraction): RunState
    decreases |repos|
  {
    if repos == [] then Running(m)
    else
      match Step(m, repos[0], extract)
      case Aborted(m', f) => Aborted(m', f)
      case Running(m') => Run(m', repos[1..], extract)
  }

  /**
   * `for r in repos: ...` from `main`, with `repos` in the order the set is
   * iterated and `extract` standing for git. `failure` is the exception that
   * escapes the loop, if one does; `index` is the index at that point.
   */
  method IngestRepos(index0: Index, repos: seq<string>, extract: string -> Extraction)
    returns (index: Index, failure: Option<Escape>)
    ensures failure.None? ==> Run(index0, repos, extract) == Running(index)
    ensures failure.Some? ==> Run(index0, repos, extract) == Aborted(index, failure.value)
  {
    index := index0;
    failure := None;
    var i := 0;
    while i < |repos|
      invariant 0 <= i <= |repos|
      invariant Run(index0, repos, extract) == Run(index, repos[i..], extract)
    {
      assert repos[i..][1..] == repos[i + 1..];
      var repoDir := RepoDir(repos[i]);
      match extract(repoDir) {
        case ProcessError(_, _) =>
        case Raised(e) =>
          failure := Some(Uncaught(e));
          return;
        case Output(log) =>
          var parsed := Parse(LogLines(log));
          match parsed {
            case Err(f) =>
              failure := Some(BadLine(f));
              return;
            case Ok(None) =>
            case Ok(Some(records)) =>
              index := Insert(index, records);
          }
      }
      i := i + 1;
    }
  }

  /** No field of `c`, date tokens included, holds a line boundary. */
  predicate SingleLine(c: LoggedCommit)
  {
    && NoBreakChars(c.hash) && NoBreakChars(c.authorName) && NoBreakChars(c.authorEmail)
    && NoBreakChars(c.committerName) && NoBreakChars(c.committerEmail) && NoBreakChars(c.subject)
    && NoBreakChars(c.authorDate.day) && NoBreakChars(c.authorDate.time) && NoBreakChars(c.authorDate.offset)
    && NoBreakChars(c.committerDate.day) && NoBreakChars(c.committerDate.time)
    && NoBreakChars(c.committerDate.offset)
  }

  predicate NoBreakChars(s: string)
  {
    forall ch :: ch in s ==> !IsLineBreak(ch)
  }

  /**
   * Git's whole output for `cs`: one line per commit, joined by "\n"; the
   * `format:` form puts a newline between entries and none after the last.
   */
  function GitLog(cs: seq<LoggedCommit>): string
  {
    Join(seq(|cs|, k requires 0 <= k < |cs| => GitLine(cs[k])), "\n")
  }

  lemma GitLineSingle(c: LoggedCommit)
    requires SingleLine(c)
    ensures NoBreaks(GitLine(c)) && GitLine(c) != ""
  {
    var line := GitLine(c);
    assert NoBreakChars(line);
    forall k | 0 <= k < |line| ensures !IsLineBreak(line[k]) {
      assert line[k] in line;
    }
    assert line[0] == '"';
  }

  lemma GitLogNoReturn(cs: seq<LoggedCommit>)
    requires forall k :: 0 <= k < |cs| ==> SingleLine(cs[k])
    ensures '\r' !in GitLog(cs)
  {
    var lines := seq(|cs|, k requires 0 <= k < |cs| => GitLine(cs[k]));
    forall k | 0 <= k < |cs| ensures '\r' !in lines[k] {
      GitLineSingle(cs[k]);
      assert IsLineBreak('\r');
      assert forall i :: 0 <= i < |lines[k]| ==> lines[k][i] != '\r';
    }
    JoinNoReturn(lines);
  }

  /**
   * A repository whose git output is the log of plain, single-line commits
   * inserts exactly their records, in order.
   */
  lemma CleanLogIngested(m: Index, r: string, extract: string -> Extraction, cs: seq<LoggedCommit>)
    requires |cs| > 0 && forall k :: 0 <= k < |cs| ==> Plain(cs[k]) && SingleLine(cs[k])
    requires extract(RepoDir(r)) == Output(GitLog(cs))
    ensures Step(m, r, extract) == Running(Insert(m, seq(|cs|, k requires 0 <= k < |cs| => Expected(cs[k]))))
  {
    var lines := seq(|cs|, k requires 0 <= k < |cs| => GitLine(cs[k]));
    forall k | 0 <= k < |cs| ensures NoBreaks(lines[k]) && lines[k] != "" {
      GitLineSingle(cs[k]);
    }
    GitLogNoReturn(cs);
    UniversalNewlinesIdentity(GitLog(cs));
    SplitLinesJoin(lines);
    ParseGitLines(cs);
  }

  /** Running two lists of repositories one after the other. */
  lemma {:induction false} RunAppend(m: Index, a: seq<string>, b: seq<string>, extract: string -> Extraction)
    ensures Run(m, a + b, extract) ==
      match Run(m, a, extract)
      case Aborted(m', f) => Aborted(m', f)
      case Running(m') => Run(m', b, extract)
    decreases |a|
  {
    if a == [] {
      assert a + b == b;
    } else {
      assert (a + b)[0] == a[0];
      assert (a + b)[1..] == a[1..] + b;
      match Step(m, a[0], extract)
      case Aborted(_, _) =>
      case Running(m') => RunAppend(m', a[1..], b, extract);
    }
  }

  /** A repository whose loop pass changes nothing can be left out of the list. */
  lemma NoOpRepo(m: Index, pre: seq<string>, r: string, post: seq<string>, extract: string -> Extraction)
    requires forall m': Index :: Step(m', r, extract) == Running(m')
    ensures Run(m, pre + [r] + post, extract) == Run(m, pre + post, extract)
  {
    RunAppend(m, pre, [r] + post, extract);
    RunAppend(m, pre, post, extract);
    assert pre + [r] + post == pre + ([r] + post);
    assert ([r] + post)[1..] == post;
  }

  /** A repository where git fails contributes nothing and the others still run. */
  lemma FailedRepoSkipped(m: Index, pre: seq<string>, r: string, post: seq<string>,
                          extract: string -> Extraction)
    requires extract(RepoDir(r)).ProcessError?
    ensures Run(m, pre + [r] + post, extract) == Run(m, pre + post, extract)
  {
    NoOpRepo(m, pre, r, post, extract);
  }

  /** A repository with no matching commits (empty log) is skipped the same way. */
  lemma EmptyLogSkipped(m: Index, pre: seq<string>, r: string, post: seq<string>,
                        extract: string -> Extraction)
    requires extract(RepoDir(r)) == Output("")
    ensures Run(m, pre + [r] + post, extract) == Run(m, pre + post, extract)
  {
    NoOpRepo(m, pre, r, post, extract);
  }

  /**
   * A log line that does not parse ends the run in that repository: nothing of
   * it is inserted and no later repository is visited.
   */
  lemma MalformedLineAborts(m: Index, pre: seq<string>, r: string, post: seq<string>,
                            extract: string -> Extraction, text: string, i: nat)
    requires Run(m, pre, extract).Running?
    requires extract(RepoDir(r)) == Output(text)
    requires i < |LogLines(text)| && ParseLine(LogLines(text)[i]).Err?
    ensures Run(m, pre + [r] + post, extract).Aborted?
    ensures Run(m, pre + [r] + post, extract).failure.BadLine?
    ensures Run(m, pre + [r] + post, extract).index == Run(m, pre, extract).index
  {
    RunAppend(m, pre, [r] + post, extract);
    assert pre + [r] + post == pre + ([r] + post);
    assert ([r] + post)[0] == r;
  }

  /**
   * Any other exception from `run`, such as the FileNotFoundError for a cached
   * directory that no longer exists, likewise ends the run with the index as
   * the earlier repositories left it.
   */
  lemma RaisingRepoAborts(m: Index, pre: seq<string>, r: string, post: seq<string>,
                          extract: string -> Extraction)
    requires Run(m, pre, extract).Running?
    requires extract(RepoDir(r)).Raised?
    ensures Run(m, pre + [r] + post, extract)
         == Aborted(Run(m, pre, extract).index, Uncaught(extract(RepoDir(r)).error))
  {
    RunAppend(m, pre, [r] + post, extract);
    assert pre + [r] + post == pre + ([r] + post);
    assert ([r] + post)[0] == r;
  }

  /** The records a repository's pass inserts, or the exception it raises. */
  function Batch(r: string, extract: string -> Extraction): Result<seq<Commit>, Escape>
  {
    match extract(RepoDir(r))
    case ProcessError(_, _) => Ok([])
    case Raised(e) => Err(Uncaught(e))
    case Output(text) =>
      match Parse(LogLines(text))
      case Err(f) => Err(BadLine(f))
      case Ok(None) => Ok([])
      case Ok(Some(parsed)) => Ok(parsed)
  }

  /** All repositories' records in visiting order, or the first exception. */
  function Harvest(repos: seq<string>, extract: string -> Extraction): Result<seq<Commit>, Escape>
    decreases |repos|
  {
    if repos == [] then Ok([])
    else
      match Batch(repos[0], extract)
      case Err(f) => Err(f)
      case Ok(cs) =>
        match Harvest(repos[1..], extract)
        case Err(f) => Err(f)
        case Ok(ds) => Ok(cs + ds)
  }

  /**
   * The loop amounts to one insertion of all harvested records, and whether
   * it ends early does not depend on the index it started from.
   */
  lemma {:induction false} RunIsHarvest(m: Index, repos: seq<string>, extract: string -> Extraction)
    ensures Harvest(repos, extract).Ok? ==>
      Run(m, repos, extract) == Running(Insert(m, Harvest(repos, extract).value))
    ensures Harvest(repos, extract).Err? ==>
      Run(m, repos, extract).Aborted? && Run(m, repos, extract).failure == Harvest(repos, extract).error
    decreases |repos|
  {
    if repos == [] {
      InsertNothing(m);
    } else {
      var r := repos[0];
      match Batch(r, extract)
      case Err(f) =>
      case Ok(cs) =>
        InsertNothing(m);
        assert Step(m, r, extract) == Running(Insert(m, cs));
        RunIsHarvest(Insert(m, cs), repos[1..], extract);
        match Harvest(repos[1..], extract)
        case Err(_) =>
        case Ok(ds) =>
          InsertAppend(m, cs, ds);
    }
  }

  /**
   * Re-running the loop over the same repositories, with git giving the same
   * output, on the index the first run left, leaves that index as it is.
   */
  lemma RerunIdempotent(m: Index, repos: seq<string>, extract: string -> Extraction)
    requires Run(m, repos, extract).Running?
    ensures Run(Run(m, repos, extract).index, repos, extract) == Run(m, repos, extract)
  {
    var m1 := Run(m, repos, extract).index;
    RunIsHarvest(m, repos, extract);
    RunIsHarvest(m1, repos, extract);
    InsertIdempotent(m, Harvest(repos, extract).value);
  }

  /** The loop keeps every document under its own hash. */
  lemma {:induction false} RunKeyedByHash(m: Index, repos: seq<string>, extract: string -> Extraction)
    requires KeyedByHash(m)
    ensures KeyedByHash(Run(m, repos, extract).index)
    decreases |repos|
  {
    if repos != [] {
      match extract(RepoDir(repos[0]))
      case ProcessError(_, _) => RunKeyedByHash(m, repos[1..], extract);
      case Raised(_) =>
      case Output(text) =>
        match Parse(LogLines(text))
        case Err(_) =>
        case Ok(None) => RunKeyedByHash(m, repos[1..], extract);
        case Ok(Some(parsed)) =>
          InsertKeyedByHash(m, parsed);
          RunKeyedByHash(Insert(m, parsed), repos[1..], extract);
    }
  }
}
