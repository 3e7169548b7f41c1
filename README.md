# personal-git-history: the ingestion pipeline of `active-projects.py`, in Dafny

`active-projects.py` finds every git repository under a search root, runs
`git log` in each one with an author/committer filter and a fixed
`" ;! "`-separated one-line format, turns each log line into a commit record
and bulk-loads the records into an Elasticsearch index, keyed by commit
hash. The first run caches the list of `.git` directories in a file, and
later runs read that file instead of calling `find`.

This project models that pipeline and proves its properties:

- `PyStr`, `PyLines`, `PyPath`: the Python behaviour the script depends on.
  This covers `str.find`, `str.split(sep)`, `str.join`, clamped slicing,
  `str.splitlines()`, universal-newline translation, `readlines()` and
  `posixpath.dirname`.
- `Locator`: where the repository list comes from. It is either `find`'s
  output or the cache file. This module also covers how the written cache
  reads back.
- `CommitParser`: `format_date`, `parse_line` and `parse`. It also models
  the line git prints for one commit under the script's format string.
- `IndexGateway`: the bulk actions that `insert` builds. The index is a map
  from `_id` to document, and each action overwrites its `_id`.
- `Pipeline`: the `for r in repos` loop of `main`. It is a method with a
  loop that updates the index map, proved against the function `Run`.

What the code does, as the model captures it:

- `format_date` splits on single spaces and needs at least three tokens.
  With fewer, `d[1]` or `d[2]` raises IndexError. A short offset token is
  truncated by the slices and never raises.
- `parse_line` splits on `" ;! "` and reads fields 0 to 7, normalising
  fields 3 and 6. Nothing is trimmed and anything after field 7 is dropped.
  The format string `"%H ;! … ;!  %cn … ;!  %s"` is passed to git without a
  shell. Its literal double quotes therefore end up on `hash` and
  `message`, and the doubled spaces leave a leading space on
  `committer_name` and `message`.
- A line that does not parse raises IndexError. Only `CalledProcessError`
  is caught, so that IndexError ends the whole run. So does any other
  exception from `run`, such as the FileNotFoundError for a cached
  directory that no longer exists, or output that does not decode.
- `parse` returns `None` for an empty log. Otherwise it returns one record
  per line in the same order, with no deduplication.

A reader might expect an ingestion tool like this to behave otherwise. The
model follows what the code does:

- Malformed lines are not counted and skipped. They raise, and the run ends.
- No count of parse errors and no run summary exist.
- Records carry no repository path.
- Cache lines are not trimmed. `readlines` keeps the `"\n"`, and only
  `os.path.dirname` makes that harmless.
- Records are not deduplicated within a batch. Only the index key collapses
  equal hashes.

## Model

| member | source | states |
|---|---|---|
| PyStr.Split | active-projects.py:74 | `str.split(sep)`: at least one piece, and no piece contains the separator |
| PyStr.JoinSplit | active-projects.py:80 | splitting loses nothing: joining the pieces with the separator gives back the line |
| PyStr.SplitJoin | active-projects.py:80 | pieces that cannot run into the separator, once joined, split back into exactly those pieces |
| PyStr.SplitJoinTail | active-projects.py:80 | separable fields joined before a tail come back one by one, followed by the tail's own pieces |
| PyStr.SplitCharCount | active-projects.py:74 | splitting on one character gives one more piece than that character has occurrences |
| PyStr.Slice | active-projects.py:75 | Python slicing clamps: inside the bounds it is the plain slice, an end past the length stops at the length ("+050"[3:5] is "0"), a start at or past the end or past the stop gives "", and it never raises |
| PyLines.SplitLines | active-projects.py:28 | `splitlines()`: empty exactly for the empty text, and no line holds a line boundary |
| PyLines.SplitLinesTerminated | active-projects.py:28 | break-free lines, each followed by "\n" as `find -print` writes them, split back into exactly those lines |
| PyLines.SplitLinesJoin | active-projects.py:52 | one-line entries joined by "\n" (last one non-empty) split back into the same entries |
| PyLines.UniversalNewlines | active-projects.py:68 | text-mode newline translation leaves no "\r", never lengthens the text, and is empty only for empty input |
| PyLines.CrLfTranslated | active-projects.py:68 | lines separated by "\r\n" read as the same lines separated by "\n" |
| PyLines.CrTranslated | active-projects.py:68 | lines separated by a lone "\r" read as the same lines separated by "\n" |
| PyLines.UniversalNewlinesPrefix | active-projects.py:68 | text without "\r" is copied unchanged in front of the translation of what follows it |
| PyLines.UniversalNewlinesIdentity | active-projects.py:32 | text without "\r" is unchanged by newline translation |
| PyLines.KeepEnds | active-projects.py:32 | `readlines()`: the lines concatenate to the text, none is empty, and every line but the last ends in "\n" |
| PyLines.ReadLinesJoin | active-projects.py:29-32 | reading back a "\n"-joined list of non-empty lines gives as many lines, each with a "\n" appended except the last |
| PyPath.Dirname | active-projects.py:49 | `os.path.dirname` returns a prefix of the path, and "" for a path without "/" |
| PyPath.DirnameIgnoresNewline | active-projects.py:49 | a trailing "\n" from `readlines` does not change the directory git runs in |
| PyPath.DirnameOfChild | active-projects.py:49 | the dirname of "dir/.git" is "dir" when dir does not end in "/" |
| PyPath.DirnameAtRoot | active-projects.py:49 | a path directly under "/" has "/" as its dirname |
| Locator.FoundRepos | active-projects.py:26-28 | the repositories found hold no line boundaries, and the set is empty exactly when `find` printed nothing |
| Locator.FoundPrintedPaths | active-projects.py:26-28 | for `find` output "p1\n…pn\n" of break-free paths, `set(res.splitlines())` is exactly {p1, …, pn} |
| Locator.CachedRepos | active-projects.py:32 | no entry read from the cache is empty |
| Locator.Repos | active-projects.py:22-32 | when the cache exists the set is what it reads back, whatever `find` would print; otherwise it is the set `find` printed; found entries are one-line, cached entries non-empty |
| Locator.CacheReadBack | active-projects.py:29-32 | the cache reads back line for line: path plus "\n" (last one bare), the same order, the same dirname, and distinct paths stay distinct |
| Locator.CacheRoundTrip | active-projects.py:23-32 | a run reading the cache a previous run wrote visits as many repositories and runs git in the same set of directories |
| Locator.EmptyLastEntryDropped | active-projects.py:29-32 | an empty entry written last is lost on read-back: only "p\n" comes back |
| CommitParser.FormatDate | active-projects.py:73-77 | `format_date` succeeds exactly when the date holds at least two spaces; otherwise IndexError |
| CommitParser.FormatDateOfTokens | active-projects.py:73-77 | "D T O" becomes D + "T" + T + O[0:3] + ":" + O[3:5], also when a fourth token follows |
| CommitParser.OffsetGetsColon | active-projects.py:75 | a five-character offset "+HHMM" becomes "+HH:MM" |
| CommitParser.ExampleShortOffset | active-projects.py:75 | a three-character offset "+05" is truncated to "+05:" and does not raise |
| CommitParser.ParseLine | active-projects.py:79-90 | a line parses exactly when it splits into at least eight fields and fields 3 and 6 hold two spaces each |
| CommitParser.ParseJoinedFields | active-projects.py:79-90 | the record takes fields 0-2 and 4-5 untouched, normalises fields 3 and 6, and keeps only the tail's first piece as message |
| CommitParser.MessageIsTail | active-projects.py:80-89 | a tail without ";" becomes the whole message |
| CommitParser.ExtraFieldsDropped | active-projects.py:80-89 | a subject containing " ;! " is cut at it: the fields after index 7 are dropped |
| CommitParser.GitLineParsed | active-projects.py:79-90 | git's line for a commit without ";" parses into: "\"" + hash, names and emails, ISO dates, " " + committer name, " " + subject + "\"" |
| CommitParser.ExampleLine | active-projects.py:73-90 | a commit dated "2020-01-02 03:04:05 +0500" gets both dates as "2020-01-02T03:04:05+05:00", and the quotes and leading spaces stay |
| CommitParser.ParseAll | active-projects.py:100 | one record per line in order when every line parses; otherwise the failure of the first line that does not |
| CommitParser.Parse | active-projects.py:97-103 | `None` exactly for an empty log; otherwise the records of all lines, same length and order, or the IndexError of some bad line |
| CommitParser.ParseGitLines | active-projects.py:100 | git's lines for ";"-free commits parse into the corresponding records, in order |
| IndexGateway.Actions | active-projects.py:93 | one action per record, in order, with `_id` = hash, `_source` = record, and the fixed index name and type |
| IndexGateway.Bulk | active-projects.py:93-94 | after the bulk request the index holds the old ids plus every action's id |
| IndexGateway.Insert | active-projects.py:92-94 | after `insert` the index holds the old ids plus every record's hash |
| IndexGateway.BulkOverrides | active-projects.py:94 | the bulk result is the old index overridden by what the actions alone build |
| IndexGateway.BulkAppend | active-projects.py:94 | two bulk requests in turn equal one request holding both action lists |
| IndexGateway.BulkLastWins | active-projects.py:94 | among actions with the same `_id`, the last one decides the stored document |
| IndexGateway.BulkUntouched | active-projects.py:94 | a document whose `_id` no action names is neither added, removed nor changed |
| IndexGateway.BulkIdempotent | active-projects.py:94 | sending the same bulk request twice leaves the index as sending it once |
| IndexGateway.InsertIdempotent | active-projects.py:92-94 | inserting the same batch twice gives the same index as inserting it once |
| IndexGateway.InsertLastWins | active-projects.py:92-94 | for a hash several records share, the last of them is the stored document |
| IndexGateway.InsertUntouched | active-projects.py:92-94 | documents under hashes the batch does not mention are kept as they were |
| IndexGateway.InsertAppend | active-projects.py:92-94 | inserting two batches in turn is inserting their concatenation |
| IndexGateway.BulkKeyedByHash | active-projects.py:93-94 | actions whose `_id` is their document's hash keep every document stored under its own hash |
| IndexGateway.InsertKeyedByHash | active-projects.py:92-94 | `insert` keeps every document stored under its own hash |
| Pipeline.LogLines | active-projects.py:51-52 | the log's line list is empty exactly when git printed nothing |
| Pipeline.IngestRepos | active-projects.py:48-61 | the loop's final index, and the exception that escapes it if any (a bad line or any other exception from `run`), are those of `Run` over the repositories in iteration order |
| Pipeline.RunAppend | active-projects.py:48 | the loop over two lists of repositories is the loop over the first, then (unless it raised) over the second |
| Pipeline.NoOpRepo | active-projects.py:48-61 | a repository whose pass changes nothing can be removed from the list without changing the outcome |
| Pipeline.FailedRepoSkipped | active-projects.py:50-55 | a repository where git fails inserts nothing, and the other repositories run as if it were absent |
| Pipeline.EmptyLogSkipped | active-projects.py:52-54 | a repository with an empty log inserts nothing and is skipped the same way |
| Pipeline.MalformedLineAborts | active-projects.py:50-55 | a line that does not parse ends the run with a bad-line failure: its repository inserts nothing and no later repository runs |
| Pipeline.RaisingRepoAborts | active-projects.py:50-55 | an exception from `run` other than CalledProcessError (a missing working directory, undecodable output) ends the run with that exception and the index the earlier repositories left |
| Pipeline.RunIsHarvest | active-projects.py:48-61 | a run that does not raise equals one insert of all repositories' records in visiting order; whether it raises does not depend on the starting index |
| Pipeline.RerunIdempotent | active-projects.py:48-61 | re-running over the same repositories with the same git output leaves the index unchanged |
| Pipeline.RunKeyedByHash | active-projects.py:48-61 | the loop keeps every document stored under its own hash |
| Pipeline.GitLineSingle | active-projects.py:44 | git's line for a commit with one-line fields is a single non-empty line |
| Pipeline.CleanLogIngested | active-projects.py:40-54 | a repository whose git output is the log of ";"-free, one-line commits inserts exactly their records, in order |

## Left out

- Running `find`, `git log` and `docker inspect` (lines 26, 34, 51, 64-68) is process I/O. It is modelled only by its results: `find`'s text, and for each repository an `Extraction`. This is a non-zero exit (`CalledProcessError`), any other exception `run` raises (`Raised`), or the decoded output with stderr merged into it.
- The space-split of command strings in `run` (line 66) is left out. It only builds argument lists for `subprocess`.
- Decoding of process output and of the cache file from bytes is left out. Strings here are already decoded text. The universal-newline translation is modelled. A decode error of git's output is one of the `Raised` cases.
- A non-zero exit of `find` (line 26) is left out. It raises CalledProcessError outside the loop's `try`, so the program ends before the cache is written. The model takes `find`'s output as already obtained.
- A UnicodeDecodeError or OSError while reading or writing the cache file (lines 29, 32) is left out. It would end the program before the loop. The model takes the cache text as already read.
- The Elasticsearch client, `reset_es` and its mapping (lines 34-36, 107-128) are left out because they are network calls. The index is a map. With `RESET_INDEX = True`, a run starts from the empty map: pass `map[]` as `IngestRepos`'s `index0`.
- Failures of the bulk call itself (connection errors, `BulkIndexError` on rejected documents) are left out. The model assumes every action is applied.
- Filesystem access is left out: `os.path.exists`, opening, reading and writing the cache file, and `expanduser` (lines 23, 29, 32, 70-71). The cache is modelled as text, present or absent.
- `print` output and the `DEBUG` branch (lines 56-61, 76, 95, 99, 102) are left out, as is `parse`'s `dir` argument, which is only printed.
- Set iteration order (lines 28, 32, 48) is left out. The model takes the order in which `repos` is iterated as a sequence parameter.
- `if parsed:` (line 53) is modelled as "`parse` returned a list". A returned list is never empty, because `Parse` keeps the log's length.
- ParseLine: the failure records which field raised (`MissingField`, `MissingDateToken`). In the source both are the same IndexError, and its message text is left out.
- Locator.CacheRoundTrip: needs every found path to be non-empty. `EmptyLastEntryDropped` shows what happens to an empty one.
- CommitParser.GitLineParsed: needs fields without ";". `ParseJoinedFields` and `ExtraFieldsDropped` cover fields that contain the separator or parts of it.
- Counting and skipping bad lines, a run summary, a repository path on each record, timeouts and concurrent workers are left out because the source has none of them.
