/**
 * Line handling as Python does it: `str.splitlines()`, the universal-newline
 * translation of a file opened in text mode, and `readlines()`, which keeps
 * each line's terminating "\n".
 */
module PyLines {
  import opened Wrappers
  import opened PyStr

  /** The characters `str.splitlines()` treats as line boundaries. */
  predicate IsLineBreak(c: char)
  {
    c in {'\n', '\r', '\U{B}', '\U{C}', '\U{1C}', '\U{1D}', '\U{1E}', '\U{85}', '\U{2028}', '\U{2029}'}
  }

  predicate NoBreaks(s: string)
  {
    forall k :: 0 <= k < |s| ==> !IsLineBreak(s[k])
  }

  /** The first line boundary at or after `from`. */
  function FirstBreak(s: string, from: nat): (r: Option<nat>)
    decreases |s| - from
    ensures r.Some? ==> from <= r.value < |s| && IsLineBreak(s[r.value])
    ensures r.Some? ==> forall k :: from <= k < r.value ==> !IsLineBreak(s[k])
    ensures r.None? ==> forall k :: from <= k < |s| ==> !IsLineBreak(s[k])
  {
    if from >= |s| then None
    else if IsLineBreak(s[from]) then Some(from)
    else FirstBreak(s, from + 1)
  }

  /**
   * `s.splitlines()`: cut at every line boundary, "\r\n" counting as one;
   * a final boundary does not start another (empty) line.
   */
  function SplitLines(s: string): (r: seq<string>)
    decreases |s|
    ensures r == [] <==> s == ""
    ensures forall k :: 0 <= k < |r| ==> NoBreaks(r[k])
  {
    if s == "" then []
    else
      match FirstBreak(s, 0)
      case None => [s]
      case Some(i) =>
        var w := if s[i] == '\r' && i + 1 < |s| && s[i + 1] == '\n' then 2 else 1;
        assert NoBreaks(s[..i]);
        [s[..i]] + SplitLines(s[i + w..])
  }

  /**
   * Lines without boundaries, joined with "\n", split back into themselves,
   * provided the last one is not empty (a trailing "\n" opens no line).
   */
  lemma {:induction false} SplitLinesJoin(lines: seq<string>)
    requires forall k :: 0 <= k < |lines| ==> NoBreaks(lines[k])
    requires |lines| > 0 ==> lines[|lines| - 1] != ""
    ensures SplitLines(Join(lines, "\n")) == lines
    decreases |lines|
  {
    if |lines| == 1 {
      assert FirstBreak(lines[0], 0) == None;
    } else if |lines| > 1 {
      var p, rest := lines[0], lines[1..];
      var s := Join(lines, "\n");
      JoinCons(p, rest, "\n");
      assert lines == [p] + rest;
      assert s == p + "\n" + Join(rest, "\n");
      assert s[|p|] == '\n';
      assert forall k :: 0 <= k < |p| ==> s[k] == p[k];
      assert FirstBreak(s, 0) == Some(|p|);
      assert s[..|p|] == p;
      assert s[|p| + 1..] == Join(rest, "\n");
      SplitLinesJoin(rest);
    }
  }

  /** Python's universal-newline translation on reading: "\r\n" and "\r" become "\n". */
  function UniversalNewlines(s: string): (r: string)
    decreases |s|
    ensures '\r' !in r
    ensures |r| <= |s|
    ensures r == "" <==> s == ""
  {
    if s == "" then ""
    else if s[0] == '\r' then
      if |s| > 1 && s[1] == '\n' then "\n" + UniversalNewlines(s[2..])
      else "\n" + UniversalNewlines(s[1..])
    else [s[0]] + UniversalNewlines(s[1..])
  }

  lemma {:induction false} UniversalNewlinesIdentity(s: string)
    requires '\r' !in s
    ensures UniversalNewlines(s) == s
    decreases |s|
  {
    if s != "" {
      assert s[0] in s;
      assert forall c :: c in s[1..] ==> c in s;
      UniversalNewlinesIdentity(s[1..]);
      assert s == [s[0]] + s[1..];
    }
  }

  /** Lines without boundaries, each ended by "\n" as `find -print` ends them, split back into themselves. */
  lemma {:induction false} SplitLinesTerminated(lines: seq<string>)
    requires |lines| > 0 && forall k :: 0 <= k < |lines| ==> NoBreaks(lines[k])
    ensures SplitLines(Join(lines, "\n") + "\n") == lines
    decreases |lines|
  {
    var p := lines[0];
    if |lines| == 1 {
      var s := p + "\n";
      assert s[|p|] == '\n';
      assert forall k :: 0 <= k < |p| ==> s[k] == p[k];
      assert FirstBreak(s, 0) == Some(|p|);
      assert s[..|p|] == p;
      assert s[|p| + 1..] == "";
    } else {
      var rest := lines[1..];
      var t := Join(rest, "\n") + "\n";
      JoinCons(p, rest, "\n");
      assert lines == [p] + rest;
      var s := p + "\n" + t;
      assert Join(lines, "\n") + "\n" == s;
      assert s[|p|] == '\n';
      assert forall k :: 0 <= k < |p| ==> s[k] == p[k];
      assert FirstBreak(s, 0) == Some(|p|);
      assert s[..|p|] == p;
      assert s[|p| + 1..] == t;
      SplitLinesTerminated(rest);
    }
  }

  /** Text without "\r" passes through the translation untouched in front of any rest. */
  lemma {:induction false} UniversalNewlinesPrefix(p: string, t: string)
    requires '\r' !in p
    ensures UniversalNewlines(p + t) == p + UniversalNewlines(t)
    decreases |p|
  {
    if p != "" {
      assert p[0] in p;
      assert forall c :: c in p[1..] ==> c in p;
      UniversalNewlinesPrefix(p[1..], t);
      var s := p + t;
      assert s[0] == p[0] != '\r';
      assert s[1..] == p[1..] + t;
      assert UniversalNewlines(s) == [p[0]] + UniversalNewlines(p[1..] + t);
      assert p == [p[0]] + p[1..];
      Assoc([p[0]], p[1..], UniversalNewlines(t));
    } else {
      assert p + t == t;
    }
  }

  lemma Assoc(a: string, b: string, c: string)
    ensures a + b + c == a + (b + c)
  {
  }

  lemma CrLfHead(t: string)
    ensures UniversalNewlines("\r\n" + t) == "\n" + UniversalNewlines(t)
  {
    var u := "\r\n" + t;
    assert u[0] == '\r' && u[1] == '\n' && u[2..] == t;
  }

  lemma CrHead(t: string)
    requires t == "" || t[0] != '\n'
    ensures UniversalNewlines("\r" + t) == "\n" + UniversalNewlines(t)
  {
    var u := "\r" + t;
    assert u[0] == '\r' && u[1..] == t;
  }

  /** Lines ended by "\r\n" read as lines ended by "\n". */
  lemma {:induction false} CrLfTranslated(lines: seq<string>)
    requires forall k :: 0 <= k < |lines| ==> '\r' !in lines[k]
    ensures UniversalNewlines(Join(lines, "\r\n")) == Join(lines, "\n")
    decreases |lines|
  {
    if |lines| == 1 {
      UniversalNewlinesIdentity(lines[0]);
    } else if |lines| > 1 {
      var p, rest := lines[0], lines[1..];
      var t := Join(rest, "\r\n");
      CrLfTranslated(rest);
      assert lines == [p] + rest;
      JoinCons(p, rest, "\r\n");
      JoinCons(p, rest, "\n");
      Assoc(p, "\r\n", t);
      Assoc(p, "\n", Join(rest, "\n"));
      UniversalNewlinesPrefix(p, "\r\n" + t);
      CrLfHead(t);
    }
  }

  /** Lines ended by a lone "\r" (old Mac style) read as lines ended by "\n". */
  lemma {:induction false} CrTranslated(lines: seq<string>)
    requires forall k :: 0 <= k < |lines| ==> '\r' !in lines[k] && '\n' !in lines[k]
    ensures UniversalNewlines(Join(lines, "\r")) == Join(lines, "\n")
    decreases |lines|
  {
    if |lines| == 1 {
      UniversalNewlinesIdentity(lines[0]);
    } else if |lines| > 1 {
      var p, rest := lines[0], lines[1..];
      var t := Join(rest, "\r");
      CrTranslated(rest);
      assert lines == [p] + rest;
      JoinCons(p, rest, "\r");
      JoinCons(p, rest, "\n");
      Assoc(p, "\r", t);
      Assoc(p, "\n", Join(rest, "\n"));
      UniversalNewlinesPrefix(p, "\r" + t);
      JoinHead(rest, "\r");
      assert t == "" || t[0] != '\n' by {
        if |t| > 0 {
          assert t[0] in rest[0] || t[0] == '\r';
          assert '\n' !in rest[0];
        }
      }
      CrHead(t);
    }
  }

  /** A non-empty join starts with the first part's first character or with the separator. */
  lemma JoinHead(parts: seq<string>, sep: string)
    requires |parts| > 0 && |sep| > 0
    ensures |Join(parts, sep)| > 0 ==> Join(parts, sep)[0] in parts[0] || Join(parts, sep)[0] == sep[0]
  {
    if |parts| > 1 {
      JoinCons(parts[0], parts[1..], sep);
      assert parts == [parts[0]] + parts[1..];
      if |parts[0]| > 0 {
        assert Join(parts, sep)[0] == parts[0][0];
      }
    } else {
      if |parts[0]| > 0 {
        assert parts[0][0] in parts[0];
      }
    }
  }

  /** Concatenation of a sequence of strings. */
  function Concat(parts: seq<string>): string
  {
    if |parts| == 0 then "" else parts[0] + Concat(parts[1..])
  }

  /**
   * Cut decoded text after every "\n", keeping it; what follows the last
   * "\n", when not empty, is a last line of its own.
   */
  function KeepEnds(s: string): (r: seq<string>)
    decreases |s|
    ensures Concat(r) == s
    ensures forall k :: 0 <= k < |r| ==> r[k] != ""
    ensures forall k :: 0 <= k < |r| - 1 ==> r[k][|r[k]| - 1] == '\n'
  {
    if s == "" then []
    else
      match Find(s, "\n")
      case None => [s]
      case Some(i) =>
        assert s[i..i + 1] == "\n";
        var rest := KeepEnds(s[i + 1..]);
        assert ([s[..i + 1]] + rest)[1..] == rest;
        [s[..i + 1]] + rest
  }

  /** `open(path, 'r').readlines()` on a file whose bytes decode to `contents`. */
  function ReadLines(contents: string): seq<string>
  {
    KeepEnds(UniversalNewlines(contents))
  }

  /**
   * Reading back a "\n"-joined list of non-empty lines that hold no "\n" and
   * no "\r": every line but the last comes back with a "\n" appended.
   */
  lemma {:induction false} ReadLinesJoin(lines: seq<string>)
    requires forall k :: 0 <= k < |lines| ==> lines[k] != "" && '\n' !in lines[k] && '\r' !in lines[k]
    ensures |ReadLines(Join(lines, "\n"))| == |lines|
    ensures forall k :: 0 <= k < |lines| - 1 ==> ReadLines(Join(lines, "\n"))[k] == lines[k] + "\n"
    ensures |lines| > 0 ==> ReadLines(Join(lines, "\n"))[|lines| - 1] == lines[|lines| - 1]
  {
    JoinNoReturn(lines);
    UniversalNewlinesIdentity(Join(lines, "\n"));
    KeepEndsJoin(lines);
  }

  lemma {:induction false} JoinNoReturn(lines: seq<string>)
    requires forall k :: 0 <= k < |lines| ==> '\r' !in lines[k]
    ensures '\r' !in Join(lines, "\n")
    decreases |lines|
  {
    if |lines| > 1 {
      JoinNoReturn(lines[1..]);
    }
  }

  lemma {:induction false} KeepEndsJoin(lines: seq<string>)
    requires forall k :: 0 <= k < |lines| ==> lines[k] != "" && '\n' !in lines[k]
    ensures |KeepEnds(Join(lines, "\n"))| == |lines|
    ensures forall k :: 0 <= k < |lines| - 1 ==> KeepEnds(Join(lines, "\n"))[k] == lines[k] + "\n"
    ensures |lines| > 0 ==> KeepEnds(Join(lines, "\n"))[|lines| - 1] == lines[|lines| - 1]
    decreases |lines|
  {
    if |lines| == 1 {
      var p := lines[0];
      forall j: nat ensures !OccursAt(p, "\n", j) {
        if j + 1 <= |p| {
          assert p[j..j + 1] == [p[j]];
        }
      }
      FreeFind(p, "\n");
    } else if |lines| > 1 {
      var p, rest := lines[0], lines[1..];
      var s := Join(lines, "\n");
      JoinCons(p, rest, "\n");
      assert lines == [p] + rest;
      assert s == p + "\n" + Join(rest, "\n");
      NoHeadSeparable(p, "\n");
      FindAfterSeparable(p, "\n", Join(rest, "\n"));
      assert s[..|p| + 1] == p + "\n";
      assert s[|p| + 1..] == Join(rest, "\n");
      KeepEndsJoin(rest);
    }
  }
}
