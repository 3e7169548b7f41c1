/**
 * The parts of Python's `str` behaviour that the ingestion script relies on:
 * `find`, `split` with an explicit separator, `join` and clamped slicing.
 */
module PyStr {
  import opened Wrappers

  /** `sep` occurs in `s` starting at index `i`. */
  predicate OccursAt(s: string, sep: string, i: nat)
  {
    i + |sep| <= |s| && s[i..i + |sep|] == sep
  }

  /** `str.find(sep, from)`: the leftmost occurrence of `sep` at or after `from`. */
  function FindFrom(s: string, sep: string, from: nat): (r: Option<nat>)
    decreases |s| - from
    ensures r.Some? ==> from <= r.value && OccursAt(s, sep, r.value)
    ensures r.Some? ==> forall j :: from <= j < r.value ==> !OccursAt(s, sep, j)
    ensures r.None? ==> forall j :: from <= j ==> !OccursAt(s, sep, j)
  {
    if from + |sep| > |s| then None
    else if s[from..from + |sep|] == sep then Some(from)
    else FindFrom(s, sep, from + 1)
  }

  function Find(s: string, sep: string): Option<nat>
  {
    FindFrom(s, sep, 0)
  }

  /** `s` contains no occurrence of `sep`. */
  ghost predicate Free(s: string, sep: string)
  {
    forall j: nat :: !OccursAt(s, sep, j)
  }

  /** No occurrence before `i` in `s` means none at all in `s[..i]`. */
  lemma FreePrefix(s: string, sep: string, i: nat)
    requires |sep| > 0 && i <= |s|
    requires forall j :: 0 <= j < i ==> !OccursAt(s, sep, j)
    ensures Free(s[..i], sep)
  {
    forall j: nat ensures !OccursAt(s[..i], sep, j) {
      if j + |sep| <= i {
        assert s[..i][j..j + |sep|] == s[j..j + |sep|];
        assert !OccursAt(s, sep, j);
      }
    }
  }

  /**
   * `s.split(sep)` for a non-empty separator: cut at the leftmost occurrence,
   * then go on splitting what follows it.
   */
  function Split(s: string, sep: string): (r: seq<string>)
    requires |sep| > 0
    decreases |s|
    ensures |r| >= 1
    ensures forall k :: 0 <= k < |r| ==> Free(r[k], sep)
  {
    match Find(s, sep)
    case None => [s]
    case Some(i) =>
      FreePrefix(s, sep, i);
      [s[..i]] + Split(s[i + |sep|..], sep)
  }

  /** `sep.join(parts)`. */
  function Join(parts: seq<string>, sep: string): string
  {
    if |parts| == 0 then ""
    else if |parts| == 1 then parts[0]
    else parts[0] + sep + Join(parts[1..], sep)
  }

  lemma JoinCons(p: string, rest: seq<string>, sep: string)
    requires |rest| > 0
    ensures Join([p] + rest, sep) == p + sep + Join(rest, sep)
  {
    assert ([p] + rest)[1..] == rest;
  }

  lemma JoinFrom(parts: seq<string>, k: nat, sep: string)
    requires k + 1 < |parts|
    ensures Join(parts[k..], sep) == parts[k] + sep + Join(parts[k + 1..], sep)
  {
    assert parts[k..] == [parts[k]] + parts[k + 1..];
    JoinCons(parts[k], parts[k + 1..], sep);
  }

  /** Splitting loses nothing: joining the pieces back gives the original text. */
  lemma {:induction false} JoinSplit(s: string, sep: string)
    requires |sep| > 0
    ensures Join(Split(s, sep), sep) == s
    decreases |s|
  {
    var f := Find(s, sep);
    if f.Some? {
      var i := f.value;
      var rest := s[i + |sep|..];
      assert Split(s, sep) == [s[..i]] + Split(rest, sep);
      JoinSplit(rest, sep);
      JoinCons(s[..i], Split(rest, sep), sep);
      assert s[i..i + |sep|] == sep;
      assert s == s[..i] + s[i..i + |sep|] + rest;
    }
  }

  /**
   * `p` can stand before a separator without the separator being found
   * earlier: no occurrence of `sep` in `p + sep` starts inside `p`.
   */
  predicate Separable(p: string, sep: string)
  {
    forall j :: 0 <= j < |p| ==> !OccursAt(p + sep, sep, j)
  }

  lemma SeparableFree(p: string, sep: string)
    requires |sep| > 0 && Separable(p, sep)
    ensures Free(p, sep)
  {
    forall j: nat ensures !OccursAt(p, sep, j) {
      if j + |sep| <= |p| {
        assert (p + sep)[j..j + |sep|] == p[j..j + |sep|];
        assert !OccursAt(p + sep, sep, j);
      }
    }
  }

  lemma FreeFind(s: string, sep: string)
    requires Free(s, sep)
    ensures Find(s, sep) == None
  {
  }

  /** After a separable piece, the separator that follows it is the leftmost one. */
  lemma FindAfterSeparable(p: string, sep: string, t: string)
    requires |sep| > 0 && Separable(p, sep)
    ensures Find(p + sep + t, sep) == Some(|p|)
  {
    var s := p + sep + t;
    assert s[|p|..|p| + |sep|] == sep;
    assert OccursAt(s, sep, |p|);
    forall j | 0 <= j < |p| ensures !OccursAt(s, sep, j) {
      assert s == (p + sep) + t;
      assert s[j..j + |sep|] == (p + sep)[j..j + |sep|];
      assert !OccursAt(p + sep, sep, j);
    }
    var r := Find(s, sep);
    assert r == Some(|p|);
  }

  /** A separable piece followed by the separator is split off exactly. */
  lemma SplitPrefix(p: string, sep: string, t: string)
    requires |sep| > 0 && Separable(p, sep)
    ensures Split(p + sep + t, sep) == [p] + Split(t, sep)
  {
    var s := p + sep + t;
    FindAfterSeparable(p, sep, t);
    assert s[..|p|] == p;
    assert s[|p| + |sep|..] == t;
  }

  /** Splitting a join of separable pieces gives the pieces back. */
  lemma {:induction false} SplitJoin(parts: seq<string>, sep: string)
    requires |sep| > 0 && |parts| > 0
    requires forall k :: 0 <= k < |parts| ==> Separable(parts[k], sep)
    ensures Split(Join(parts, sep), sep) == parts
    decreases |parts|
  {
    if |parts| == 1 {
      SeparableFree(parts[0], sep);
      FreeFind(parts[0], sep);
    } else {
      SplitJoin(parts[1..], sep);
      SplitPrefix(parts[0], sep, Join(parts[1..], sep));
      assert parts == [parts[0]] + parts[1..];
    }
  }

  /**
   * Separable pieces joined in front of a tail come back one by one; the tail
   * is split on its own.
   */
  lemma {:induction false} SplitJoinTail(parts: seq<string>, tail: string, sep: string)
    requires |sep| > 0
    requires forall k :: 0 <= k < |parts| ==> Separable(parts[k], sep)
    ensures Split(Join(parts + [tail], sep), sep) == parts + Split(tail, sep)
    decreases |parts|
  {
    if |parts| > 0 {
      SplitJoinTail(parts[1..], tail, sep);
      SplitJoinTailStep(parts[0], parts[1..], tail, sep);
      Regroup(parts, [tail]);
      Regroup(parts, Split(tail, sep));
    } else {
      assert parts + [tail] == [tail];
    }
  }

  lemma Regroup<T>(xs: seq<T>, ys: seq<T>)
    requires |xs| > 0
    ensures [xs[0]] + (xs[1..] + ys) == xs + ys
  {
  }

  lemma SplitJoinTailStep(p: string, rest: seq<string>, tail: string, sep: string)
    requires |sep| > 0 && Separable(p, sep)
    requires Split(Join(rest + [tail], sep), sep) == rest + Split(tail, sep)
    ensures Split(Join([p] + (rest + [tail]), sep), sep) == [p] + (rest + Split(tail, sep))
  {
    JoinCons(p, rest + [tail], sep);
    SplitPrefix(p, sep, Join(rest + [tail], sep));
  }

  /** Text lacking the separator's second character cannot contain the separator. */
  lemma NoSecondFree(s: string, sep: string)
    requires |sep| > 1 && sep[1] !in s
    ensures Free(s, sep)
  {
    forall j: nat ensures !OccursAt(s, sep, j) {
      if j + |sep| <= |s| {
        assert s[j..j + |sep|][1] == s[j + 1];
      }
    }
  }

  /** Number of occurrences of character `c` in `s`. */
  function Count(s: string, c: char): nat
  {
    if |s| == 0 then 0 else (if s[0] == c then 1 else 0) + Count(s[1..], c)
  }

  lemma {:induction false} CountAppend(a: string, b: string, c: char)
    ensures Count(a + b, c) == Count(a, c) + Count(b, c)
    decreases |a|
  {
    if |a| > 0 {
      CountAppend(a[1..], b, c);
      assert (a + b)[1..] == a[1..] + b;
    } else {
      assert a + b == b;
    }
  }

  lemma {:induction false} CountFree(s: string, c: char)
    requires Free(s, [c])
    ensures Count(s, c) == 0
    decreases |s|
  {
    if |s| > 0 {
      assert s[0..1] == [s[0]];
      assert !OccursAt(s, [c], 0);
      forall j: nat ensures !OccursAt(s[1..], [c], j) {
        if j + 1 <= |s| - 1 {
          assert s[1..][j..j + 1] == s[j + 1..j + 2];
          assert !OccursAt(s, [c], j + 1);
        }
      }
      CountFree(s[1..], c);
    }
  }

  /** Splitting on one character gives one piece more than it has occurrences. */
  lemma {:induction false} SplitCharCount(s: string, c: char)
    ensures |Split(s, [c])| == Count(s, c) + 1
    decreases |s|
  {
    match Find(s, [c])
    case None =>
      CountFree(s, c);
    case Some(i) =>
      var rest := s[i + 1..];
      SplitCharCount(rest, c);
      FreePrefix(s, [c], i);
      CountFree(s[..i], c);
      assert s[i..i + 1] == [c];
      assert s == s[..i] + [c] + rest;
      CountAppend(s[..i] + [c], rest, c);
      CountAppend(s[..i], [c], c);
  }

  /** A piece without `sep`'s first character is separable for any `sep`. */
  lemma NoHeadSeparable(p: string, sep: string)
    requires |sep| > 0 && sep[0] !in p
    ensures Separable(p, sep)
  {
    forall j | 0 <= j < |p| ensures !OccursAt(p + sep, sep, j) {
      assert (p + sep)[j] == p[j] != sep[0];
    }
  }

  /**
   * A piece without `sep`'s second character is separable when that character
   * differs from the first one (true of " ;! ", whose second character is ';').
   */
  lemma NoSecondSeparable(p: string, sep: string)
    requires |sep| > 1 && sep[1] != sep[0] && sep[1] !in p
    ensures Separable(p, sep)
  {
    forall j | 0 <= j < |p| ensures !OccursAt(p + sep, sep, j) {
      var x := p + sep;
      if j + 1 < |p| {
        assert x[j + 1] == p[j + 1] != sep[1];
      } else {
        assert x[j + 1] == sep[0] != sep[1];
      }
      assert x[j..j + |sep|][1] == x[j + 1];
    }
  }

  function Min(a: int, b: int): int
  {
    if a <= b then a else b
  }

  /** `s[i:j]` for non-negative bounds: Python clamps both to the length. */
  function Slice(s: string, i: nat, j: nat): (r: string)
    ensures j <= |s| && i <= j ==> r == s[i..j]
    ensures i <= |s| < j ==> r == s[i..]
    ensures |s| <= i || j <= i ==> r == ""
    ensures |r| <= if j < i then 0 else j - i
  {
    var lo := Min(i, |s|);
    var hi := Min(j, |s|);
    if lo <= hi then s[lo..hi] else ""
  }
}
