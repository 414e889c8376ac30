/** The two string operations the launcher applies to every command output before it
    records or returns it: trimming surrounding white space (Go's strings.TrimSpace) and
    splitting on line feeds (Go's strings.Split with the separator "\n"), together with
    the join that undoes the split. Scans are written over positions of one string. */
module Text {

  /** White space as Go's unicode.IsSpace classifies it. */
  predicate IsSpace(c: char): (b: bool)
    ensures c <= '\U{00FF}' ==>
      (b <==> c in {'\t', '\n', '\U{000B}', '\U{000C}', '\r', ' ', '\U{0085}', '\U{00A0}'})
  {
    c in SpaceChars || '\U{2000}' <= c <= '\U{200A}'
  }

  /** The white space characters outside the range U+2000 to U+200A. */
  const SpaceChars: set<char> := {
    '\t', '\n', '\U{000B}', '\U{000C}', '\r', ' ', '\U{0085}', '\U{00A0}', '\U{1680}',
    '\U{2028}', '\U{2029}', '\U{202F}', '\U{205F}', '\U{3000}'
  }

  /** Every character of `s[lo..hi]` is white space. */
  predicate AllSpace(s: string, lo: int, hi: int)
    requires 0 <= lo <= hi <= |s|
  {
    forall i :: lo <= i < hi ==> IsSpace(s[i])
  }

  /** The first position at or after `k` that does not hold white space, or |s|. */
  function SkipSpace(s: string, k: nat): (i: nat)
    requires k <= |s|
    ensures k <= i <= |s|
    ensures i < |s| ==> !IsSpace(s[i])
    decreases |s| - k
  {
    if k == |s| || !IsSpace(s[k]) then k else SkipSpace(s, k + 1)
  }

  /** SkipSpace passes over white space only. */
  lemma {:induction false} SkipSpacePassesSpace(s: string, k: nat)
    requires k <= |s|
    ensures AllSpace(s, k, SkipSpace(s, k))
    decreases |s| - k
  {
    if k < |s| && IsSpace(s[k]) {
      SkipSpacePassesSpace(s, k + 1);
    }
  }

  /** SkipSpace stops at the first character that is not white space. */
  lemma {:induction false} SkipSpaceStops(s: string, k: nat, i: nat)
    requires k <= i < |s| && AllSpace(s, k, i) && !IsSpace(s[i])
    ensures SkipSpace(s, k) == i
    decreases i - k
  {
    if k < i {
      SkipSpaceStops(s, k + 1, i);
    }
  }

  /** The end of `s[lo..hi]` once its trailing white space is dropped. */
  function SkipSpaceBack(s: string, lo: nat, hi: nat): (j: nat)
    requires lo <= hi <= |s|
    ensures lo <= j <= hi
    ensures j > lo ==> !IsSpace(s[j - 1])
    decreases hi - lo
  {
    if hi == lo || !IsSpace(s[hi - 1]) then hi else SkipSpaceBack(s, lo, hi - 1)
  }

  /** SkipSpaceBack passes over white space only. */
  lemma {:induction false} SkipSpaceBackPassesSpace(s: string, lo: nat, hi: nat)
    requires lo <= hi <= |s|
    ensures AllSpace(s, SkipSpaceBack(s, lo, hi), hi)
    decreases hi - lo
  {
    if lo < hi && IsSpace(s[hi - 1]) {
      SkipSpaceBackPassesSpace(s, lo, hi - 1);
    }
  }

  /** SkipSpaceBack stops after the last character that is not white space. */
  lemma {:induction false} SkipSpaceBackStops(s: string, lo: nat, j: nat, hi: nat)
    requires lo < j <= hi <= |s| && AllSpace(s, j, hi) && !IsSpace(s[j - 1])
    ensures SkipSpaceBack(s, lo, hi) == j
    decreases hi - j
  {
    if j < hi {
      SkipSpaceBackStops(s, lo, j, hi - 1);
    }
  }

  /** Where the trimmed text starts: after the leading white space. */
  function TrimStart(s: string): nat {
    SkipSpace(s, 0)
  }

  /** Where the trimmed text ends: before the trailing white space of what follows
      TrimStart. */
  function TrimEnd(s: string): nat {
    SkipSpaceBack(s, TrimStart(s), |s|)
  }

  /** strings.TrimSpace: what is left after removing white space at both ends. It
      neither starts nor ends with white space. */
  function TrimSpace(s: string): (r: string)
    ensures r == [] || (!IsSpace(r[0]) && !IsSpace(r[|r| - 1]))
  {
    s[TrimStart(s)..TrimEnd(s)]
  }

  /** The trimmed text is a contiguous slice of `s`, and everything outside the slice is
      white space. */
  lemma TrimSpaceIsSlice(s: string)
    ensures TrimStart(s) <= TrimEnd(s) <= |s|
    ensures TrimSpace(s) == s[TrimStart(s)..TrimEnd(s)]
    ensures AllSpace(s, 0, TrimStart(s)) && AllSpace(s, TrimEnd(s), |s|)
  {
    SkipSpacePassesSpace(s, 0);
    SkipSpaceBackPassesSpace(s, TrimStart(s), |s|);
  }

  /** TrimSpace removes as much as it may: any slice of `s` that has only white space
      around it and neither starts nor ends with white space is the trimmed text. */
  lemma TrimSpaceUnique(s: string, lo: nat, hi: nat)
    requires lo <= hi <= |s| && AllSpace(s, 0, lo) && AllSpace(s, hi, |s|)
    requires lo < hi ==> !IsSpace(s[lo]) && !IsSpace(s[hi - 1])
    ensures TrimSpace(s) == s[lo..hi]
  {
    if lo < hi {
      SkipSpaceStops(s, 0, lo);
      SkipSpaceBackStops(s, lo, hi, |s|);
    } else {
      TrimSpaceIsSlice(s);
    }
  }

  /** The trimmed text is empty exactly when `s` is all white space. */
  lemma TrimSpaceEmpty(s: string)
    ensures TrimSpace(s) == [] <==> AllSpace(s, 0, |s|)
  {
    if AllSpace(s, 0, |s|) {
      TrimSpaceUnique(s, 0, 0);
    } else {
      TrimSpaceIsSlice(s);
    }
  }

  /** Trimming twice is trimming once. */
  lemma TrimSpaceIdempotent(s: string)
    ensures TrimSpace(TrimSpace(s)) == TrimSpace(s)
  {
    var r := TrimSpace(s);
    TrimSpaceUnique(r, 0, |r|);
  }

  /** Trimmed text never ends with a line feed. */
  lemma TrimmedEndsWithoutLineFeed(s: string)
    ensures var t := TrimSpace(s); t == [] || t[|t| - 1] != '\n'
  {
    assert IsSpace('\n');
  }

  /** `s` holds no line feed. */
  predicate LineFeedFree(s: string) {
    forall j :: 0 <= j < |s| ==> s[j] != '\n'
  }

  /** The first line feed at or after position `k`, or |s| when there is none: the end of
      the line that starts at `k`. */
  function LineEnd(s: string, k: nat): (i: nat)
    requires k <= |s|
    ensures k <= i <= |s|
    ensures i < |s| ==> s[i] == '\n'
    decreases |s| - k
  {
    if k == |s| || s[k] == '\n' then k else LineEnd(s, k + 1)
  }

  /** No line feed lies between `k` and LineEnd(s, k): it is the first one. */
  lemma {:induction false} LineEndIsFirst(s: string, k: nat)
    requires k <= |s|
    ensures forall j :: k <= j < LineEnd(s, k) ==> s[j] != '\n'
    decreases |s| - k
  {
    if k < |s| && s[k] != '\n' {
      LineEndIsFirst(s, k + 1);
    }
  }

  /** A position `m` characters after `k` that ends a stretch without line feeds and is a
      line feed or the end of `s` is LineEnd(s, k). */
  lemma {:induction false} LineEndAt(s: string, k: nat, m: nat)
    requires k + m <= |s|
    requires forall j :: k <= j < k + m ==> s[j] != '\n'
    requires k + m == |s| || s[k + m] == '\n'
    ensures LineEnd(s, k) == k + m
    decreases m
  {
    if m > 0 {
      LineEndAt(s, k + 1, m - 1);
    }
  }

  /** strings.Split on "\n" of the text from position `k` on: the pieces between line
      feeds, in order; there is always at least one. */
  function Split(s: string, k: nat): (lines: seq<string>)
    requires k <= |s|
    ensures |lines| >= 1
    decreases |s| - k
  {
    var i := LineEnd(s, k);
    if i == |s| then [s[k..]] else [s[k..i]] + Split(s, i + 1)
  }

  lemma SplitWhole(s: string, k: nat)
    requires k <= |s| && LineEnd(s, k) == |s|
    ensures |Split(s, k)| == 1 && Split(s, k)[0] == s[k..]
  {
  }

  lemma SplitFirst(s: string, k: nat, i: nat)
    requires k <= |s| && i == LineEnd(s, k) && i < |s|
    ensures Split(s, k)[0] == s[k..i]
  {
  }

  lemma SplitLength(s: string, k: nat, i: nat)
    requires k <= |s| && i == LineEnd(s, k) && i < |s|
    ensures |Split(s, k)| == 1 + |Split(s, i + 1)|
  {
  }

  lemma ConsIndex(x: string, b: seq<string>)
    ensures forall j :: 1 <= j < |[x] + b| ==> ([x] + b)[j] == b[j - 1]
  {
  }

  lemma SplitRest(s: string, k: nat, i: nat)
    requires k <= |s| && i == LineEnd(s, k) && i < |s|
    ensures forall j :: 1 <= j < |Split(s, k)| ==> Split(s, k)[j] == Split(s, i + 1)[j - 1]
  {
    ConsIndex(s[k..i], Split(s, i + 1));
  }

  lemma DropFirst(a: seq<string>, b: seq<string>)
    requires |a| == 1 + |b| && forall j :: 1 <= j < |a| ==> a[j] == b[j - 1]
    ensures a[1..] == b
  {
  }

  lemma SplitTail(s: string, k: nat, i: nat)
    requires k <= |s| && i == LineEnd(s, k) && i < |s|
    ensures Split(s, k)[1..] == Split(s, i + 1)
  {
    SplitLength(s, k, i);
    SplitRest(s, k, i);
    DropFirst(Split(s, k), Split(s, i + 1));
  }

  lemma SliceFree(s: string, lo: nat, hi: nat)
    requires lo <= hi <= |s| && forall j :: lo <= j < hi ==> s[j] != '\n'
    ensures LineFeedFree(s[lo..hi])
  {
  }

  /** No piece of the split holds a line feed. */
  lemma {:induction false} SplitLinesFree(s: string, k: nat)
    requires k <= |s|
    ensures forall j :: 0 <= j < |Split(s, k)| ==> LineFeedFree(Split(s, k)[j])
    decreases |s| - k
  {
    var i := LineEnd(s, k);
    LineEndIsFirst(s, k);
    SliceFree(s, k, i);
    if i < |s| {
      SplitLinesFree(s, i + 1);
      SplitFirst(s, k, i);
      SplitRest(s, k, i);
    } else {
      SplitWhole(s, k);
    }
  }

  /** The inverse of Split: the lines put back together with a line feed between
      consecutive ones. */
  function Join(lines: seq<string>): (s: string)
    requires |lines| >= 1
    ensures lines[0] <= s
    ensures |lines| > 1 ==> |s| > |lines[0]| && s[|lines[0]|] == '\n'
  {
    if |lines| == 1 then lines[0] else lines[0] + "\n" + Join(lines[1..])
  }

  lemma JoinStep(lines: seq<string>)
    requires |lines| > 1
    ensures Join(lines) == lines[0] + "\n" + Join(lines[1..])
  {
  }

  lemma AroundLineFeed(s: string, k: nat, i: nat)
    requires k <= i < |s| && s[i] == '\n'
    ensures s[k..] == s[k..i] + "\n" + s[i + 1..]
  {
  }

  lemma Chain(x: string, y: string, a: string, b: string, c: string)
    requires x == a + "\n" + b && b == c && y == a + "\n" + c
    ensures x == y
  {
  }

  lemma JoinOfSplit(s: string, k: nat, i: nat)
    requires k <= |s| && i == LineEnd(s, k) && i < |s|
    ensures Join(Split(s, k)) == s[k..i] + "\n" + Join(Split(s, i + 1))
  {
    SplitLength(s, k, i);
    SplitFirst(s, k, i);
    SplitTail(s, k, i);
    JoinStep(Split(s, k));
  }

  /** The pieces of the split of `s[k..]`, joined, give `s[k..]` back. */
  predicate RejoinsAt(s: string, k: nat)
    requires k <= |s|
  {
    Join(Split(s, k)) == s[k..]
  }

  lemma RejoinStep(s: string, k: nat, i: nat)
    requires k <= |s| && i == LineEnd(s, k) && i < |s| && RejoinsAt(s, i + 1)
    ensures RejoinsAt(s, k)
  {
    JoinOfSplit(s, k, i);
    AroundLineFeed(s, k, i);
    Chain(Join(Split(s, k)), s[k..], s[k..i], Join(Split(s, i + 1)), s[i + 1..]);
  }

  lemma {:induction false} RejoinsFrom(s: string, k: nat)
    requires k <= |s|
    ensures RejoinsAt(s, k)
    decreases |s| - k
  {
    var i := LineEnd(s, k);
    if i < |s| {
      RejoinsFrom(s, i + 1);
      RejoinStep(s, k, i);
    } else {
      SplitWhole(s, k);
    }
  }

  /** Joining the pieces of a split gives back the text: nothing is lost, reordered or
      altered. */
  lemma JoinSplit(s: string)
    ensures Join(Split(s, 0)) == s
  {
    RejoinsFrom(s, 0);
  }

  lemma SplitStep(s: string, k: nat, i: nat)
    requires k <= |s| && i == LineEnd(s, k) && i < |s|
    ensures Split(s, k) == [s[k..i]] + Split(s, i + 1)
  {
  }

  /** The parts of a text `s[k..]` that is a line, a line feed and the rest. */
  lemma PartsOfDrop(s: string, k: nat, head: string, rest: string)
    requires k <= |s| && s[k..] == head + "\n" + rest
    ensures k + |head| < |s| && s[k + |head|] == '\n'
    ensures s[k..k + |head|] == head
    ensures s[k + |head| + 1..] == rest
  {
    assert s[k..][|head|] == '\n';
    assert s[k..][..|head|] == head;
    assert s[k..][|head| + 1..] == rest;
  }

  lemma LineInSlice(s: string, k: nat, line: string)
    requires k + |line| <= |s| && s[k..k + |line|] == line && LineFeedFree(line)
    ensures forall j :: k <= j < k + |line| ==> s[j] != '\n'
  {
    forall j | k <= j < k + |line|
      ensures s[j] != '\n'
    {
      assert s[j] == line[j - k];
    }
  }

  /** A text `s[k..]` that is one line without line feeds splits into that line. */
  lemma SplitOneLine(s: string, k: nat, line: string)
    requires k <= |s| && s[k..] == line && LineFeedFree(line)
    ensures Split(s, k) == [line]
  {
    assert s[k..k + |line|] == line;
    LineInSlice(s, k, line);
    LineEndAt(s, k, |line|);
  }

  /** A text `s[k..]` that is a line without line feeds, a line feed and the rest splits
      into that line followed by the split of the rest. */
  lemma SplitFirstLine(s: string, k: nat, head: string, rest: string)
    requires k <= |s| && s[k..] == head + "\n" + rest && LineFeedFree(head)
    ensures k + |head| < |s| && s[k + |head| + 1..] == rest
    ensures Split(s, k) == [head] + Split(s, k + |head| + 1)
  {
    PartsOfDrop(s, k, head, rest);
    LineInSlice(s, k, head);
    LineEndAt(s, k, |head|);
    SplitStep(s, k, k + |head|);
  }

  /** `s[k..]` splits into `lines`. */
  predicate SplitsInto(s: string, k: nat, lines: seq<string>)
    requires k <= |s|
  {
    Split(s, k) == lines
  }

  /** `s[k..]` is the join of `lines`, none of which holds a line feed. */
  predicate JoinedAt(s: string, k: nat, lines: seq<string>) {
    k <= |s| && |lines| >= 1 && (forall j :: 0 <= j < |lines| ==> LineFeedFree(lines[j]))
    && s[k..] == Join(lines)
  }

  /** Past the first line and its line feed, `s` holds the join of the other lines. */
  lemma JoinedAtRest(s: string, k: nat, lines: seq<string>)
    requires JoinedAt(s, k, lines) && |lines| > 1
    ensures k + |lines[0]| < |s| && JoinedAt(s, k + |lines[0]| + 1, lines[1..])
    ensures SplitsInto(s, k, [lines[0]] + Split(s, k + |lines[0]| + 1))
  {
    assert LineFeedFree(lines[0]);
    JoinStep(lines);
    SplitFirstLine(s, k, lines[0], Join(lines[1..]));
  }

  lemma ConsEq(a: seq<string>, b: seq<string>, lines: seq<string>)
    requires |lines| >= 1 && a == [lines[0]] + b && b == lines[1..]
    ensures a == lines
  {
  }

  /** The first line split off and the others split as the lines that follow: the text
      splits into all the lines. */
  lemma SplitJoinStep(s: string, k: nat, k1: nat, lines: seq<string>)
    requires k <= k1 <= |s| && |lines| > 1
    requires SplitsInto(s, k, [lines[0]] + Split(s, k1)) && SplitsInto(s, k1, lines[1..])
    ensures SplitsInto(s, k, lines)
  {
    ConsEq(Split(s, k), Split(s, k1), lines);
  }

  /** Splitting text made by joining lines without line feeds gives those lines back. */
  lemma {:induction false} SplitJoinFrom(s: string, k: nat, lines: seq<string>)
    requires JoinedAt(s, k, lines)
    ensures SplitsInto(s, k, lines)
    decreases |lines|
  {
    if |lines| == 1 {
      assert LineFeedFree(lines[0]);
      SplitOneLine(s, k, lines[0]);
    } else {
      JoinedAtRest(s, k, lines);
      SplitJoinFrom(s, k + |lines[0]| + 1, lines[1..]);
      SplitJoinStep(s, k, k + |lines[0]| + 1, lines);
    }
  }

  /** Splitting joined lines that hold no line feed gives the lines back. */
  lemma SplitJoin(lines: seq<string>)
    requires |lines| >= 1 && forall j :: 0 <= j < |lines| ==> LineFeedFree(lines[j])
    ensures Split(Join(lines), 0) == lines
  {
    var s := Join(lines);
    assert s[0..] == s;
    SplitJoinFrom(s, 0, lines);
  }

  /** Where the last piece of the split of `s[k..]` starts: just after the last line
      feed, or at `k` when there is none. */
  function LastLineStart(s: string, k: nat): (p: nat)
    requires k <= |s|
    ensures k <= p <= |s|
    decreases |s| - k
  {
    var i := LineEnd(s, k);
    if i == |s| then k else LastLineStart(s, i + 1)
  }

  lemma SplitLast(s: string, k: nat, i: nat)
    requires k <= |s| && i == LineEnd(s, k) && i < |s|
    ensures Split(s, k)[|Split(s, k)| - 1] == Split(s, i + 1)[|Split(s, i + 1)| - 1]
  {
    SplitLength(s, k, i);
    SplitRest(s, k, i);
  }

  /** The last piece of the split is the text from LastLineStart on. */
  lemma {:induction false} LastLineIsSuffix(s: string, k: nat)
    requires k <= |s|
    ensures Split(s, k)[|Split(s, k)| - 1] == s[LastLineStart(s, k)..]
    decreases |s| - k
  {
    var i := LineEnd(s, k);
    if i < |s| {
      SplitLast(s, k, i);
      LastLineIsSuffix(s, i + 1);
    } else {
      SplitWhole(s, k);
    }
  }

  /** The last piece starts right after a line feed, unless it is the only piece. */
  lemma {:induction false} LastLineAfterLineFeed(s: string, k: nat)
    requires k <= |s|
    ensures LastLineStart(s, k) == k || s[LastLineStart(s, k) - 1] == '\n'
    decreases |s| - k
  {
    var i := LineEnd(s, k);
    if i < |s| {
      LastLineAfterLineFeed(s, i + 1);
    }
  }

  /** When `s` does not end with a line feed, its last line is empty only if `s` is. */
  lemma LastLineEmptyOnlyIfEmpty(s: string)
    requires s == [] || s[|s| - 1] != '\n'
    ensures LastLineStart(s, 0) == |s| <==> s == ""
  {
    LastLineAfterLineFeed(s, 0);
  }

  /** The lines of a command's output as the launcher reads them: the output is trimmed,
      then split on line feeds. There is always at least one line, and none holds a line
      feed. */
  function OutputLines(output: string): (lines: seq<string>)
    ensures |lines| >= 1
    ensures forall i :: 0 <= i < |lines| ==> LineFeedFree(lines[i])
  {
    SplitLinesFree(TrimSpace(output), 0);
    Split(TrimSpace(output), 0)
  }

  /** Joined back, the output lines give exactly the trimmed output: no line is lost,
      reordered or altered. */
  lemma JoinOutputLines(output: string)
    ensures Join(OutputLines(output)) == TrimSpace(output)
  {
    var t := TrimSpace(output);
    JoinSplit(t);
  }

  /** The last output line is what follows the last line feed of the trimmed output, and
      it is empty only when the whole output is white space: trimming removed any line
      feed the output ended with. */
  lemma LastOutputLine(output: string)
    ensures var t, lines := TrimSpace(output), OutputLines(output);
      var p := LastLineStart(t, 0);
      lines[|lines| - 1] == t[p..] && (p == 0 || t[p - 1] == '\n')
      && (lines[|lines| - 1] == "" <==> AllSpace(output, 0, |output|))
  {
    var t := TrimSpace(output);
    TrimmedEndsWithoutLineFeed(output);
    TrimSpaceEmpty(output);
    LastLineIsSuffix(t, 0);
    LastLineAfterLineFeed(t, 0);
    LastLineEmptyOnlyIfEmpty(t);
  }
}
