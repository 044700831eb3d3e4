/**
 * `text.split(/(?<=[.!?])\s+/)`: JavaScript's `String.prototype.split` with a
 * separator pattern that matches a whitespace run only where the character
 * before it is `.`, `!` or `?`. The look-behind is not part of the match, so
 * the punctuation stays at the end of the piece on its left; `\s+` is greedy,
 * so the whole run is consumed.
 */
module SentenceSplit {
  import opened Wrappers
  import opened JsString

  predicate IsTerminal(c: char) {
    c == '.' || c == '!' || c == '?'
  }

  /** The separator can start matching at index `i` of `s`. */
  predicate IsBoundary(s: string, i: int) {
    0 < i < |s| && IsTerminal(s[i - 1]) && IsSpace(s[i])
  }

  predicate NoBoundary(s: string) {
    forall i :: 0 < i < |s| ==> !IsBoundary(s, i)
  }

  predicate EndsTerminal(s: string) {
    s != [] && IsTerminal(s[|s| - 1])
  }

  /** The leftmost index at or after `from` where the separator matches. */
  function FindBoundary(s: string, from: nat): (r: Option<nat>)
    decreases |s| - from
    ensures r.Some? ==> from <= r.value < |s| && IsBoundary(s, r.value)
    ensures forall i :: from <= i < |s| && (r.None? || i < r.value) ==> !IsBoundary(s, i)
  {
    if from >= |s| then None
    else if IsBoundary(s, from) then Some(from)
    else FindBoundary(s, from + 1)
  }

  /** Where the greedy `\s+` that starts at `i` stops. */
  function SpaceRunEnd(s: string, i: nat): (j: nat)
    requires i <= |s|
    decreases |s| - i
    ensures i <= j <= |s| && AllSpace(s[i..j])
    ensures j == |s| || !IsSpace(s[j])
  {
    if i < |s| && IsSpace(s[i]) then
      var j := SpaceRunEnd(s, i + 1);
      assert s[i..j] == [s[i]] + s[i + 1..j];
      j
    else i
  }

  /**
   * The pieces `split` returns. A piece other than the last ends with
   * terminal punctuation, a piece other than the first does not start with
   * whitespace (the run before it was consumed whole), and no piece contains
   * a place where the separator could have matched.
   */
  function Split(s: string): (pieces: seq<string>)
    decreases |s|
    ensures |pieces| >= 1 && pieces[0] <= s
    ensures forall k :: 0 <= k < |pieces| - 1 ==> EndsTerminal(pieces[k])
    ensures forall k :: 0 < k < |pieces| ==> pieces[k] == [] || !IsSpace(pieces[k][0])
    ensures forall k :: 0 <= k < |pieces| ==> NoBoundary(pieces[k])
  {
    match FindBoundary(s, 1)
    case None => [s]
    case Some(i) =>
      var j := SpaceRunEnd(s, i);
      assert forall m :: 0 < m < i ==> IsBoundary(s[..i], m) == IsBoundary(s, m);
      var rest := Split(s[j..]);
      assert rest[0] == [] || rest[0][0] == s[j];
      [s[..i]] + rest
  }

  /** The whitespace runs `split` consumed: one non-empty run between each two pieces. */
  function Gaps(s: string): (gaps: seq<string>)
    decreases |s|
    ensures |gaps| + 1 == |Split(s)|
    ensures forall k :: 0 <= k < |gaps| ==> gaps[k] != [] && AllSpace(gaps[k])
  {
    match FindBoundary(s, 1)
    case None => []
    case Some(i) =>
      var j := SpaceRunEnd(s, i);
      [s[i..j]] + Gaps(s[j..])
  }

  /** Pieces with the separators put back between them. */
  function Interleave(pieces: seq<string>, gaps: seq<string>): string
    requires |pieces| == |gaps| + 1
    decreases |gaps|
  {
    if gaps == [] then pieces[0]
    else pieces[0] + gaps[0] + Interleave(pieces[1..], gaps[1..])
  }

  /**
   * `split` cuts only at the separator: putting the consumed whitespace runs
   * back between the pieces gives the input again.
   */
  lemma {:induction false} SplitReassembles(s: string)
    ensures Interleave(Split(s), Gaps(s)) == s
    decreases |s|
  {
    match FindBoundary(s, 1)
    case None =>
    case Some(i) =>
      var j := SpaceRunEnd(s, i);
      SplitReassembles(s[j..]);
      var pieces, gaps := Split(s), Gaps(s);
      assert pieces[0] == s[..i] && pieces[1..] == Split(s[j..]);
      assert gaps[0] == s[i..j] && gaps[1..] == Gaps(s[j..]);
      assert s == s[..i] + s[i..j] + s[j..];
  }

  lemma {:induction false} FindBoundaryAt(s: string, from: nat, i: nat)
    requires from <= i && IsBoundary(s, i)
    requires forall m :: from <= m < i ==> !IsBoundary(s, m)
    ensures FindBoundary(s, from) == Some(i)
    decreases i - from
  {
    if from < i {
      FindBoundaryAt(s, from + 1, i);
    }
  }

  lemma {:induction false} SpaceRunEndAt(s: string, i: nat, j: nat)
    requires i <= j <= |s| && AllSpace(s[i..j])
    requires j == |s| || !IsSpace(s[j])
    ensures SpaceRunEnd(s, i) == j
    decreases j - i
  {
    if i < j {
      assert IsSpace(s[i..j][0]);
      assert s[i + 1..j] == s[i..j][1..];
      SpaceRunEndAt(s, i + 1, j);
    }
  }

  lemma InterleaveStart(pieces: seq<string>, gaps: seq<string>)
    requires |pieces| == |gaps| + 1
    requires pieces[0] == [] ==> gaps == []
    requires pieces[0] == [] || !IsSpace(pieces[0][0])
    ensures var s := Interleave(pieces, gaps); s == [] || !IsSpace(s[0])
  {
    if gaps != [] {
      var s := Interleave(pieces, gaps);
      assert s == pieces[0] + (gaps[0] + Interleave(pieces[1..], gaps[1..]));
      assert s[0] == pieces[0][0];
    }
  }

  /** One step of `split`: the first separator match runs from `i` to `j`. */
  lemma SplitAt(s: string, i: nat, j: nat)
    requires IsBoundary(s, i) && forall m :: 0 < m < i ==> !IsBoundary(s, m)
    requires i < j <= |s| && AllSpace(s[i..j]) && (j == |s| || !IsSpace(s[j]))
    ensures Split(s) == [s[..i]] + Split(s[j..])
    ensures Gaps(s) == [s[i..j]] + Gaps(s[j..])
  {
    FindBoundaryAt(s, 1, i);
    SpaceRunEndAt(s, i, j);
  }

  /** A piece ending in terminal punctuation, then a whitespace run, then the rest: `split` cuts exactly there. */
  lemma SplitHead(p: string, g: string, rest: string)
    requires EndsTerminal(p) && NoBoundary(p)
    requires g != [] && AllSpace(g)
    requires rest == [] || !IsSpace(rest[0])
    ensures Split(p + g + rest) == [p] + Split(rest)
    ensures Gaps(p + g + rest) == [g] + Gaps(rest)
  {
    var s := p + g + rest;
    var i, j := |p|, |p| + |g|;
    assert s[..i] == p && s[i..j] == g && s[j..] == rest;
    assert s[i - 1] == p[|p| - 1] && s[i] == g[0];
    forall m | 0 < m < i
      ensures !IsBoundary(s, m)
    {
      assert s[m - 1] == p[m - 1] && s[m] == p[m];
      assert !IsBoundary(p, m);
    }
    assert j < |s| ==> s[j] == rest[0];
    SplitAt(s, i, j);
  }

  /**
   * The decomposition described by `Split`, `Gaps` and `SplitReassembles` is
   * the only one: any pieces and whitespace runs with those properties are
   * what `split` gives.
   */
  lemma {:induction false} SplitUnique(s: string, pieces: seq<string>, gaps: seq<string>)
    requires |pieces| == |gaps| + 1 && Interleave(pieces, gaps) == s
    requires forall k :: 0 <= k < |gaps| ==> gaps[k] != [] && AllSpace(gaps[k])
    requires forall k :: 0 <= k < |pieces| - 1 ==> EndsTerminal(pieces[k])
    requires forall k :: 0 < k < |pieces| ==> pieces[k] == [] || !IsSpace(pieces[k][0])
    requires forall k :: 0 <= k < |pieces| ==> NoBoundary(pieces[k])
    ensures Split(s) == pieces && Gaps(s) == gaps
    decreases |gaps|
  {
    if gaps == [] {
      NoBoundarySplit(s);
      assert FindBoundary(s, 1).None?;
    } else {
      var rest := Interleave(pieces[1..], gaps[1..]);
      assert |gaps| > 1 ==> EndsTerminal(pieces[1]);
      InterleaveStart(pieces[1..], gaps[1..]);
      SplitHead(pieces[0], gaps[0], rest);
      SplitUnique(rest, pieces[1..], gaps[1..]);
      assert s == pieces[0] + gaps[0] + rest;
      assert pieces == [pieces[0]] + pieces[1..];
      assert gaps == [gaps[0]] + gaps[1..];
    }
  }

  /** Without a terminal punctuation mark followed by whitespace, `split` returns the input whole. */
  lemma NoBoundarySplit(s: string)
    requires NoBoundary(s)
    ensures Split(s) == [s]
  {
    assert FindBoundary(s, 1).None?;
  }

  lemma {:induction false} InterleaveContent(pieces: seq<string>, gaps: seq<string>)
    requires |pieces| == |gaps| + 1
    requires forall k :: 0 <= k < |gaps| ==> AllSpace(gaps[k])
    ensures NonSpace(Interleave(pieces, gaps)) == NonSpace(Concat(pieces))
    decreases |gaps|
  {
    if gaps != [] {
      InterleaveContent(pieces[1..], gaps[1..]);
      var rest := Interleave(pieces[1..], gaps[1..]);
      NonSpaceAppend(pieces[0] + gaps[0], rest);
      NonSpaceAppend(pieces[0], gaps[0]);
      NonSpaceOfSpace(gaps[0]);
      NonSpaceAppend(pieces[0], Concat(pieces[1..]));
    }
  }

  /** Splitting loses whitespace only: the pieces hold every other character of the input, in order. */
  lemma SplitKeepsContent(s: string)
    ensures NonSpace(Concat(Split(s))) == NonSpace(s)
  {
    SplitReassembles(s);
    InterleaveContent(Split(s), Gaps(s));
  }
}
