/**
 * The commit parser: `format_date`, `parse_line` and `parse`, and the line
 * git prints for one commit under the script's `--pretty=format:` string.
 */
module CommitParser {
  import opened Wrappers
  import opened PyStr

  /** The field separator of the log format. */
  const Sep: string := " ;! "

  /** The record `parse_line` builds: one dictionary entry per field. */
  datatype Commit = Commit(
    hash: string,
    authorName: string,
    authorEmail: string,
    authorDate: string,
    committerName: string,
    committerEmail: string,
    committerDate: string,
    message: string)

  /**
   * Why `parse_line` raises IndexError: `elems[index]` does not exist, or the
   * date in field `field` has fewer than three space-separated tokens.
   */
  datatype ParseFailure = MissingField(index: nat) | MissingDateToken(field: nat)

  /**
   * `format_date(d)`: tokens 0 and 1 joined by "T", then the first three
   * characters of token 2, ":" and its next two. `None` is the IndexError
   * raised when there is no token 1 or no token 2 (`d[1]` or `d[2]`).
   */
  function FormatDate(d: string): (r: Option<string>)
    ensures r.Some? <==> Count(d, ' ') >= 2
  {
    var t := Split(d, " ");
    SplitCharCount(d, ' ');
    if |t| < 3 then None
    else Some(t[0] + "T" + t[1] + Slice(t[2], 0, 3) + ":" + Slice(t[2], 3, 5))
  }

  /** A date as `git log --date=iso` prints it: "YYYY-MM-DD HH:MM:SS +HHMM". */
  datatype GitDate = GitDate(day: string, time: string, offset: string)

  function RenderDate(d: GitDate): string
  {
    d.day + " " + (d.time + " " + d.offset)
  }

  /** The ISO 8601 form the index stores: day "T" time, then the offset as "+HH:MM". */
  function IsoDate(d: GitDate): string
  {
    d.day + "T" + d.time + Slice(d.offset, 0, 3) + ":" + Slice(d.offset, 3, 5)
  }

  predicate SpaceFree(d: GitDate)
  {
    ' ' !in d.day && ' ' !in d.time && ' ' !in d.offset
  }

  lemma SplitRenderedDate(d: GitDate)
    requires SpaceFree(d)
    ensures Split(RenderDate(d), " ") == [d.day, d.time, d.offset]
  {
    NoHeadSeparable(d.day, " ");
    NoHeadSeparable(d.time, " ");
    NoHeadSeparable(d.offset, " ");
    SplitPrefix(d.day, " ", d.time + " " + d.offset);
    SplitPrefix(d.time, " ", d.offset);
    SeparableFree(d.offset, " ");
    FreeFind(d.offset, " ");
  }

  lemma SplitRenderedDateTail(d: GitDate, tail: string)
    requires SpaceFree(d)
    ensures Split(RenderDate(d) + " " + tail, " ") == [d.day, d.time, d.offset] + Split(tail, " ")
  {
    NoHeadSeparable(d.day, " ");
    NoHeadSeparable(d.time, " ");
    NoHeadSeparable(d.offset, " ");
    var t2 := d.offset + " " + tail;
    var t1 := d.time + " " + t2;
    SplitPrefix(d.day, " ", t1);
    SplitPrefix(d.time, " ", t2);
    SplitPrefix(d.offset, " ", tail);
    RenderDateThen(d, tail);
    Regroup([d.day, d.time, d.offset], Split(tail, " "));
    Regroup([d.time, d.offset], Split(tail, " "));
    assert [d.offset] + Split(tail, " ") == [d.offset] + ([] + Split(tail, " "));
  }

  lemma RenderDateThen(d: GitDate, tail: string)
    ensures RenderDate(d) + " " + tail == d.day + " " + (d.time + " " + (d.offset + " " + tail))
  {
  }

  /**
   * A rendered date normalises to its ISO form, and any text after a fourth
   * space-separated token is ignored; an offset shorter than five characters
   * is cut short, not refused.
   */
  lemma FormatDateOfTokens(d: GitDate, tail: string)
    requires SpaceFree(d)
    ensures FormatDate(RenderDate(d)) == Some(IsoDate(d))
    ensures FormatDate(RenderDate(d) + " " + tail) == Some(IsoDate(d))
  {
    SplitRenderedDate(d);
    SplitRenderedDateTail(d, tail);
  }

  /** The usual five-character offset "+HHMM" becomes "+HH:MM". */
  lemma OffsetGetsColon(d: GitDate)
    requires |d.offset| == 5
    ensures IsoDate(d) == d.day + "T" + d.time + d.offset[..3] + ":" + d.offset[3..]
  {
  }

  /** What a date needs for `format_date` not to raise: two spaces. */
  predicate DateTokens(d: string)
  {
    Count(d, ' ') >= 2
  }

  /**
   * `parse_line(line)`: split on " ;! " and read fields 0 to 7 in the order
   * the dictionary literal evaluates them; fields after 7 are never read.
   */
  function ParseLine(line: string): (r: Result<Commit, ParseFailure>)
    // No malformed line is tolerated: a line parses exactly when it has at
    // least eight fields and both date fields hold two spaces.
    ensures r.Ok? <==>
      var e := Split(line, Sep);
      |e| >= 8 && DateTokens(e[3]) && DateTokens(e[6])
  {
    var e := Split(line, Sep);
    if |e| <= 3 then Err(MissingField(|e|))
    else
      match FormatDate(e[3])
      case None => Err(MissingDateToken(3))
      case Some(authorDate) =>
        if |e| <= 6 then Err(MissingField(|e|))
        else
          match FormatDate(e[6])
          case None => Err(MissingDateToken(6))
          case Some(committerDate) =>
            if |e| <= 7 then Err(MissingField(7))
            else Ok(Commit(e[0], e[1], e[2], authorDate, e[4], e[5], committerDate, e[7]))
  }

  /**
   * Seven separable fields, then a tail: the record takes the fields as they
   * are (nothing is trimmed), normalises fields 3 and 6, and keeps of the
   * tail only what precedes its first separator.
   */
  lemma ParseJoinedFields(f: seq<string>, tail: string)
    requires |f| == 7 && forall k :: 0 <= k < 7 ==> Separable(f[k], Sep)
    requires DateTokens(f[3]) && DateTokens(f[6])
    ensures ParseLine(Join(f + [tail], Sep)) ==
      Ok(Commit(f[0], f[1], f[2], FormatDate(f[3]).value, f[4], f[5], FormatDate(f[6]).value,
                Split(tail, Sep)[0]))
  {
    SplitJoinTail(f, tail, Sep);
    var e := Split(Join(f + [tail], Sep), Sep);
    assert e == f + Split(tail, Sep);
    assert e[3] == f[3] && e[6] == f[6] && e[7] == Split(tail, Sep)[0];
  }

  /** A tail without a separator is the message in full. */
  lemma MessageIsTail(f: seq<string>, tail: string)
    requires |f| == 7 && forall k :: 0 <= k < 7 ==> Separable(f[k], Sep)
    requires DateTokens(f[3]) && DateTokens(f[6]) && ';' !in tail
    ensures ParseLine(Join(f + [tail], Sep)).Ok?
    ensures ParseLine(Join(f + [tail], Sep)).value.message == tail
  {
    NoSecondFree(tail, Sep);
    FreeFind(tail, Sep);
    assert Split(tail, Sep) == [tail];
    ParseJoinedFields(f, tail);
  }

  /**
   * A subject that itself contains " ;! " loses everything from that
   * separator on: the extra fields are dropped.
   */
  lemma ExtraFieldsDropped(f: seq<string>, m: string, extra: string)
    requires |f| == 7 && forall k :: 0 <= k < 7 ==> Separable(f[k], Sep)
    requires DateTokens(f[3]) && DateTokens(f[6]) && Separable(m, Sep)
    ensures ParseLine(Join(f + [m + Sep + extra], Sep)).Ok?
    ensures ParseLine(Join(f + [m + Sep + extra], Sep)).value.message == m
  {
    ParseJoinedFields(f, m + Sep + extra);
    SplitPrefix(m, Sep, extra);
  }

  /** One commit as git reports it, before formatting. */
  datatype LoggedCommit = LoggedCommit(
    hash: string,
    authorName: string,
    authorEmail: string,
    authorDate: GitDate,
    committerName: string,
    committerEmail: string,
    committerDate: GitDate,
    subject: string)

  /**
   * The line git prints for `c` under the format
   * `"%H ;! %an ;! %ae ;! %ad ;!  %cn ;! %ce ;! %cd ;!  %s"`: the double
   * quotes are part of it (the argument list never passes through a shell),
   * and two of the separators are followed by a second space. The brackets
   * only group the text the way `split` takes it apart.
   */
  function GitLine(c: LoggedCommit): string
  {
    "\"" + c.hash + Sep + (c.authorName + Sep + (c.authorEmail + Sep + (RenderDate(c.authorDate)
    + Sep + (" " + c.committerName + Sep + (c.committerEmail + Sep + (RenderDate(c.committerDate)
    + Sep + (" " + c.subject + "\"")))))))
  }

  predicate NoSemicolonDate(d: GitDate)
  {
    ';' !in d.day && ';' !in d.time && ';' !in d.offset
  }

  /** The fields of `c` hold no ';' and its date tokens no space. */
  predicate Plain(c: LoggedCommit)
  {
    && ';' !in c.hash && ';' !in c.authorName && ';' !in c.authorEmail
    && ';' !in c.committerName && ';' !in c.committerEmail && ';' !in c.subject
    && NoSemicolonDate(c.authorDate) && NoSemicolonDate(c.committerDate)
    && SpaceFree(c.authorDate) && SpaceFree(c.committerDate)
  }

  /** The record `parse_line` makes of git's line: quote and space artefacts included. */
  function Expected(c: LoggedCommit): Commit
  {
    Commit("\"" + c.hash, c.authorName, c.authorEmail, IsoDate(c.authorDate),
           " " + c.committerName, c.committerEmail, IsoDate(c.committerDate),
           " " + c.subject + "\"")
  }

  lemma RenderDateTokens(d: GitDate)
    requires SpaceFree(d) && NoSemicolonDate(d)
    ensures DateTokens(RenderDate(d)) && ';' !in RenderDate(d)
  {
    var r := RenderDate(d);
    CountAppend(d.day + " ", d.time + " " + d.offset, ' ');
    CountAppend(d.day, " ", ' ');
    CountAppend(d.time + " ", d.offset, ' ');
    CountAppend(d.time, " ", ' ');
    assert forall k :: 0 <= k < |r| ==> r[k] in d.day || r[k] == ' ' || r[k] in d.time || r[k] in d.offset;
  }

  /**
   * Parsing git's line for a commit whose fields hold no ';' gives the
   * corresponding record: hash with a leading quote, committer name with a
   * leading space, message with a leading space and a trailing quote, dates
   * in ISO form.
   */
  lemma GitLineParsed(c: LoggedCommit)
    requires Plain(c)
    ensures ParseLine(GitLine(c)) == Ok(Expected(c))
  {
    var f, tail := GitFields(c), GitTail(c);
    RenderDateTokens(c.authorDate);
    RenderDateTokens(c.committerDate);
    forall k | 0 <= k < 7 ensures Separable(f[k], Sep) {
      assert ';' !in f[k];
      NoSecondSeparable(f[k], Sep);
    }
    assert ';' !in tail;
    GitLineIsJoin(c);
    MessageIsTail(f, tail);
    ParseJoinedFields(f, tail);
    FormatDateOfTokens(c.authorDate, "");
    FormatDateOfTokens(c.committerDate, "");
  }

  /** The first seven fields of git's line for `c`, as `split` cuts them. */
  function GitFields(c: LoggedCommit): seq<string>
  {
    ["\"" + c.hash, c.authorName, c.authorEmail, RenderDate(c.authorDate),
     " " + c.committerName, c.committerEmail, RenderDate(c.committerDate)]
  }

  /** What follows the seventh separator of git's line for `c`. */
  function GitTail(c: LoggedCommit): string
  {
    " " + c.subject + "\""
  }

  lemma GitLineIsJoin(c: LoggedCommit)
    ensures GitLine(c) == Join(GitFields(c) + [GitTail(c)], Sep)
  {
    JoinSevenFields(GitFields(c), GitTail(c));
  }

  lemma JoinSevenFields(f: seq<string>, tail: string)
    requires |f| == 7
    ensures Join(f + [tail], Sep) ==
      f[0] + Sep + (f[1] + Sep + (f[2] + Sep + (f[3] + Sep + (f[4] + Sep + (f[5] + Sep + (f[6] + Sep + tail))))))
  {
    var g := f + [tail];
    assert g[7..] == [tail];
    JoinFrom(g, 6, Sep);
    JoinFrom(g, 5, Sep);
    JoinFrom(g, 4, Sep);
    JoinFrom(g, 3, Sep);
    JoinFrom(g, 2, Sep);
    JoinFrom(g, 1, Sep);
    JoinFrom(g, 0, Sep);
    assert g[0..] == g;
  }

  /**
   * A worked line: git's line for a commit dated "2020-01-02 03:04:05 +0500"
   * gives both dates as "2020-01-02T03:04:05+05:00", and the quote and space
   * artefacts stay on hash, committer name and message.
   */
  lemma ExampleLine(hash: string, name: string, email: string, subject: string,
                    day: string, time: string, offset: string)
    requires hash == "abc123" && name == "Jane" && email == "jane@x.com" && subject == "Fix bug"
    requires day == "2020-01-02" && time == "03:04:05" && offset == "+0500"
    ensures ParseLine(GitLine(LoggedCommit(hash, name, email, GitDate(day, time, offset),
                                           name, email, GitDate(day, time, offset), subject)))
         == Ok(Commit("\"" + hash, name, email, "2020-01-02T03:04:05+05:00",
                      " " + name, email, "2020-01-02T03:04:05+05:00", " " + subject + "\""))
  {
    var d := GitDate(day, time, offset);
    var c := LoggedCommit(hash, name, email, d, name, email, d, subject);
    assert Plain(c);
    assert IsoDate(d) == "2020-01-02T03:04:05+05:00";
    GitLineParsed(c);
  }

  /** A short offset is cut short, not refused. */
  lemma ExampleShortOffset(date: string, day: string, time: string, offset: string)
    requires day == "2020-01-02" && time == "03:04:05" && offset == "+05"
    requires date == "2020-01-02 03:04:05 +05"
    ensures FormatDate(date) == Some("2020-01-02T03:04:05+05:")
  {
    var d := GitDate(day, time, offset);
    assert date == RenderDate(d);
    assert SpaceFree(d);
    assert IsoDate(d) == "2020-01-02T03:04:05+05:";
    FormatDateOfTokens(d, "");
  }

  /** A first failure in the rest of the log, after a good first line, is a first failure of the log. */
  lemma FailureShifts(log: seq<string>, f: ParseFailure)
    requires |log| > 0 && ParseLine(log[0]).Ok?
    requires exists i :: 0 <= i < |log[1..]| && ParseLine(log[1..][i]) == Err(f)
                         && forall j :: 0 <= j < i ==> ParseLine(log[1..][j]).Ok?
    ensures exists i :: 0 <= i < |log| && ParseLine(log[i]) == Err(f)
                        && forall j :: 0 <= j < i ==> ParseLine(log[j]).Ok?
  {
    var i :| 0 <= i < |log[1..]| && ParseLine(log[1..][i]) == Err(f)
             && forall j :: 0 <= j < i ==> ParseLine(log[1..][j]).Ok?;
    assert ParseLine(log[i + 1]) == Err(f);
    forall j | 0 <= j < i + 1 ensures ParseLine(log[j]).Ok? {
      if j > 0 {
        assert log[j] == log[1..][j - 1];
      }
    }
  }

  /** Good records for the rest of the log, after a good first line, are good records for the log. */
  lemma SuccessShifts(log: seq<string>, c: Commit, cs: seq<Commit>)
    requires |log| > 0 && ParseLine(log[0]) == Ok(c) && |cs| == |log| - 1
    requires forall i :: 0 <= i < |log[1..]| ==> ParseLine(log[1..][i]) == Ok(cs[i])
    ensures forall i :: 0 <= i < |log| ==> ParseLine(log[i]) == Ok(([c] + cs)[i])
  {
    forall i | 0 <= i < |log| ensures ParseLine(log[i]) == Ok(([c] + cs)[i]) {
      if i > 0 {
        assert log[i] == log[1..][i - 1];
      }
    }
  }

  /**
   * The list comprehension of `parse`: every line in order; the first line
   * that fails raises and ends the comprehension.
   */
  function ParseAll(log: seq<string>): (r: Result<seq<Commit>, ParseFailure>)
    ensures r.Ok? ==> |r.value| == |log|
    ensures r.Ok? ==> forall i :: 0 <= i < |log| ==> ParseLine(log[i]) == Ok(r.value[i])
    ensures r.Ok? <==> forall i :: 0 <= i < |log| ==> ParseLine(log[i]).Ok?
    ensures r.Err? ==> exists i :: 0 <= i < |log| && ParseLine(log[i]) == Err(r.error)
                        && forall j :: 0 <= j < i ==> ParseLine(log[j]).Ok?
  {
    if log == [] then Ok([])
    else
      match ParseLine(log[0])
      case Err(f) => Err(f)
      case Ok(c) =>
        match ParseAll(log[1..])
        case Err(f) =>
          FailureShifts(log, f);
          Err(f)
        case Ok(cs) =>
          SuccessShifts(log, c, cs);
          Ok([c] + cs)
  }

  /**
   * `parse(dir, log)`: `None` for an empty log, otherwise one record per line
   * in the same order, with no deduplication; a bad line raises.
   */
  function Parse(log: seq<string>): (r: Result<Option<seq<Commit>>, ParseFailure>)
    ensures r == Ok(None) <==> log == []
    ensures r.Ok? && r.value.Some? ==> |r.value.value| == |log|
    ensures r.Ok? && r.value.Some? ==> forall i :: 0 <= i < |log| ==> ParseLine(log[i]) == Ok(r.value.value[i])
    ensures r.Err? <==> exists i :: 0 <= i < |log| && ParseLine(log[i]).Err?
  {
    if |log| == 0 then Ok(None)
    else
      match ParseAll(log)
      case Ok(cs) => Ok(Some(cs))
      case Err(f) => Err(f)
  }

  /** Git's lines for plain commits parse into the corresponding records, in order. */
  lemma {:induction false} ParseGitLines(cs: seq<LoggedCommit>)
    requires forall k :: 0 <= k < |cs| ==> Plain(cs[k])
    ensures ParseAll(seq(|cs|, k requires 0 <= k < |cs| => GitLine(cs[k])))
         == Ok(seq(|cs|, k requires 0 <= k < |cs| => Expected(cs[k])))
  {
    var log := seq(|cs|, k requires 0 <= k < |cs| => GitLine(cs[k]));
    forall k | 0 <= k < |cs| ensures ParseLine(log[k]) == Ok(Expected(cs[k])) {
      GitLineParsed(cs[k]);
    }
    var r := ParseAll(log);
    assert r.Ok?;
    assert r.value == seq(|cs|, k requires 0 <= k < |cs| => Expected(cs[k]));
  }
}
