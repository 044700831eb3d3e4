/**
 * The deterministic logic of the dashboard page: `splitIntoSentences`, which
 * cuts the generated script into the parts the page previews and offers for
 * download, and the rule that decides whether a stored default amount
 * replaces the initial one.
 */
module Dashboard {
  import opened Wrappers
  import opened JsString
  import opened SentenceSplit
  import GeminiRoute

  /** `.map((s) => s.trim())` */
  function TrimEach(pieces: seq<string>): (r: seq<string>)
    ensures |r| == |pieces|
    ensures forall k :: 0 <= k < |r| ==> r[k] == Trim(pieces[k])
  {
    seq(|pieces|, k requires 0 <= k < |pieces| => Trim(pieces[k]))
  }

  /**
   * `.filter(Boolean)` on strings. `DropEmptyCounts` adds that it keeps every
   * non-empty element as often as it occurs, `DropEmptyAppend` that it keeps
   * their order.
   */
  function DropEmpty(pieces: seq<string>): (r: seq<string>)
    ensures |r| <= |pieces|
    ensures forall k :: 0 <= k < |r| ==> r[k] != []
    ensures (forall k :: 0 <= k < |pieces| ==> pieces[k] != []) ==> r == pieces
  {
    if pieces == [] then []
    else (if pieces[0] == [] then [] else [pieces[0]]) + DropEmpty(pieces[1..])
  }

  /** Each non-empty string occurs in the result exactly as often as in the input. */
  lemma {:induction false} DropEmptyCounts(pieces: seq<string>)
    ensures forall x :: x != [] ==> multiset(DropEmpty(pieces))[x] == multiset(pieces)[x]
  {
    if pieces != [] {
      DropEmptyCons(pieces[0], pieces[1..]);
      assert pieces == [pieces[0]] + pieces[1..];
      DropEmptyCounts(pieces[1..]);
    }
  }

  lemma DropEmptyCons(x: string, rest: seq<string>)
    ensures DropEmpty([x] + rest) == (if x == [] then [] else [x]) + DropEmpty(rest)
  {
    assert ([x] + rest)[1..] == rest;
  }

  /** Filtering a concatenation filters each side and keeps them in order. */
  lemma {:induction false} DropEmptyAppend(a: seq<string>, b: seq<string>)
    ensures DropEmpty(a + b) == DropEmpty(a) + DropEmpty(b)
  {
    if a == [] {
      assert a + b == b;
    } else {
      DropEmptyAppend(a[1..], b);
      DropEmptyAppendStep(a[0], a[1..], b);
      assert a == [a[0]] + a[1..];
    }
  }

  lemma DropEmptyAppendStep(x: string, tail: seq<string>, b: seq<string>)
    requires DropEmpty(tail + b) == DropEmpty(tail) + DropEmpty(b)
    ensures DropEmpty([x] + tail + b) == DropEmpty([x] + tail) + DropEmpty(b)
  {
    AppendAssoc([x], tail, b);
    DropEmptyCons(x, tail + b);
    DropEmptyCons(x, tail);
    AppendAssoc(if x == [] then [] else [x], DropEmpty(tail), DropEmpty(b));
  }

  lemma AppendAssoc<T>(a: seq<T>, b: seq<T>, c: seq<T>)
    ensures a + (b + c) == (a + b) + c
  {
  }

  /** Every kept element is one of the input's. */
  lemma {:induction false} DropEmptyMembers(pieces: seq<string>)
    ensures forall k :: 0 <= k < |DropEmpty(pieces)| ==> DropEmpty(pieces)[k] in pieces
  {
    if pieces != [] {
      DropEmptyCons(pieces[0], pieces[1..]);
      assert pieces == [pieces[0]] + pieces[1..];
      DropEmptyMembers(pieces[1..]);
    }
  }

  /** `raw` in `splitIntoSentences`: split, trim each piece, drop the empty ones. */
  function Sentences(text: string): (parts: seq<string>)
    ensures |parts| <= |Split(text)|
    ensures forall k :: 0 <= k < |parts| ==> parts[k] != [] && IsTrimmed(parts[k])
  {
    DropEmptyMembers(TrimEach(Split(text)));
    DropEmpty(TrimEach(Split(text)))
  }

  /**
   * `xs.slice(0, end)` for an integer `end`: a negative end counts back from
   * the length of `xs`, and the end is clamped to `0..|xs|`.
   */
  function SliceTo<T>(xs: seq<T>, end: int): (r: seq<T>)
    ensures r <= xs
    ensures end >= 0 ==> |r| == if end < |xs| then end else |xs|
    ensures end < 0 ==> |r| == if |xs| + end < 0 then 0 else |xs| + end
  {
    var e := if end < 0 then (if |xs| + end < 0 then 0 else |xs| + end)
             else if end < |xs| then end else |xs|;
    xs[..e]
  }

  /**
   * `if (expectedCount && raw.length > expectedCount) return raw.slice(0, expectedCount)`.
   * A count of 0 is falsy and leaves `raw` whole; a negative count is truthy
   * and always below the length, so the slice drops that many parts from the end.
   */
  function Truncate<T>(raw: seq<T>, expectedCount: int): (r: seq<T>)
    ensures r <= raw
    ensures expectedCount > 0 ==> |r| == if |raw| < expectedCount then |raw| else expectedCount
    ensures expectedCount == 0 ==> r == raw
    ensures expectedCount < 0 ==> |r| == if |raw| + expectedCount < 0 then 0 else |raw| + expectedCount
  {
    if expectedCount != 0 && |raw| > expectedCount then SliceTo(raw, expectedCount) else raw
  }

  /** `splitIntoSentences(text, expectedCount)`. */
  function SplitIntoSentences(text: string, expectedCount: int): (parts: seq<string>)
    ensures parts <= Sentences(text)
    ensures forall k :: 0 <= k < |parts| ==> parts[k] != [] && IsTrimmed(parts[k])
    ensures expectedCount > 0 ==>
      |parts| == if |Sentences(text)| < expectedCount then |Sentences(text)| else expectedCount
    ensures expectedCount == 0 ==> parts == Sentences(text)
    ensures expectedCount < 0 ==>
      |parts| == if |Sentences(text)| + expectedCount < 0 then 0 else |Sentences(text)| + expectedCount
  {
    Truncate(Sentences(text), expectedCount)
  }

  // ---------------------------------------------------------------------------
  // Shape of the parts

  lemma InfixNoBoundary(s: string, k: nat, r: string)
    requires NoBoundary(s) && k + |r| <= |s| && r == s[k..k + |r|]
    ensures NoBoundary(r)
  {
    forall i | 0 < i < |r|
      ensures !IsBoundary(r, i)
    {
      assert r[i - 1] == s[k + i - 1] && r[i] == s[k + i];
      assert !IsBoundary(s, k + i);
    }
  }

  lemma TrimKeepsNoBoundary(s: string)
    requires NoBoundary(s)
    ensures NoBoundary(Trim(s))
  {
    var k := TrimInfix(s);
    InfixNoBoundary(s, k, Trim(s));
  }

  lemma TrimKeepsTerminalEnd(s: string)
    requires EndsTerminal(s)
    ensures EndsTerminal(Trim(s))
  {
    TrimKeepsLast(s);
  }

  lemma {:induction false} DropEmptyKeepsTerminalEnds(pieces: seq<string>)
    requires forall k :: 0 <= k < |pieces| - 1 ==> EndsTerminal(pieces[k])
    ensures forall k :: 0 <= k < |DropEmpty(pieces)| - 1 ==> EndsTerminal(DropEmpty(pieces)[k])
  {
    if pieces != [] {
      var rest := DropEmpty(pieces[1..]);
      DropEmptyKeepsTerminalEnds(pieces[1..]);
      if pieces[0] != [] && rest != [] {
        assert DropEmpty(pieces) == [pieces[0]] + rest;
        assert |pieces| > 1;
      }
    }
  }

  /**
   * Every part is non-empty, has no whitespace at either end and holds no
   * place where the separator matches; every part but the last ends with
   * `.`, `!` or `?`.
   */
  lemma SentencesShape(text: string)
    ensures var parts := Sentences(text);
      && (forall k :: 0 <= k < |parts| ==> parts[k] != [] && IsTrimmed(parts[k]) && NoBoundary(parts[k]))
      && (forall k :: 0 <= k < |parts| - 1 ==> EndsTerminal(parts[k]))
  {
    var pieces := Split(text);
    var trimmed := TrimEach(pieces);
    forall k | 0 <= k < |trimmed|
      ensures NoBoundary(trimmed[k])
      ensures k < |trimmed| - 1 ==> EndsTerminal(trimmed[k])
    {
      TrimKeepsNoBoundary(pieces[k]);
      if k < |trimmed| - 1 {
        TrimKeepsTerminalEnd(pieces[k]);
      }
    }
    DropEmptyKeepsTerminalEnds(trimmed);
    DropEmptyMembers(trimmed);
  }

  // ---------------------------------------------------------------------------
  // Content and order

  lemma {:induction false} DropEmptyConcat(pieces: seq<string>)
    ensures Concat(DropEmpty(pieces)) == Concat(pieces)
  {
    if pieces != [] {
      DropEmptyConcat(pieces[1..]);
      var head := if pieces[0] == [] then [] else [pieces[0]];
      ConcatAppend(head, DropEmpty(pieces[1..]));
    }
  }

  lemma {:induction false} TrimEachContent(pieces: seq<string>)
    ensures NonSpace(Concat(TrimEach(pieces))) == NonSpace(Concat(pieces))
  {
    if pieces != [] {
      TrimEachContent(pieces[1..]);
      assert TrimEach(pieces)[1..] == TrimEach(pieces[1..]);
      NonSpaceAppend(Trim(pieces[0]), Concat(TrimEach(pieces[1..])));
      NonSpaceAppend(pieces[0], Concat(pieces[1..]));
      TrimKeepsContent(pieces[0]);
    }
  }

  /**
   * Joining the parts loses whitespace only: their non-whitespace characters,
   * in order, are exactly those of the input.
   */
  lemma SentencesKeepContent(text: string)
    ensures NonSpace(Concat(Sentences(text))) == NonSpace(text)
  {
    DropEmptyConcat(TrimEach(Split(text)));
    TrimEachContent(Split(text));
    SplitKeepsContent(text);
  }

  /**
   * A text without terminal punctuation followed by whitespace gives its
   * trimmed self as the only part, or no part at all when it is blank.
   */
  lemma WholeTextWhenNoBoundary(text: string)
    requires NoBoundary(text)
    ensures Sentences(text) == if AllSpace(text) then [] else [Trim(text)]
  {
    NoBoundarySplit(text);
    assert TrimEach([text]) == [Trim(text)];
  }

  // ---------------------------------------------------------------------------
  // Truncation

  /**
   * The parts `splitIntoSentences` returns: non-empty, trimmed, a prefix of
   * the untruncated parts, at most `expectedCount` of them when it is
   * positive, all of them when it is 0.
   */
  lemma SplitIntoSentencesSpec(text: string, expectedCount: int)
    ensures var parts := SplitIntoSentences(text, expectedCount);
      && (forall k :: 0 <= k < |parts| ==> parts[k] != [] && IsTrimmed(parts[k]))
      && parts <= Sentences(text)
      && (expectedCount > 0 ==> |parts| <= expectedCount)
      && (expectedCount > 0 && |Sentences(text)| <= expectedCount ==> parts == Sentences(text))
      && (expectedCount > 0 && |Sentences(text)| > expectedCount ==> parts == Sentences(text)[..expectedCount])
      && (expectedCount == 0 ==> parts == Sentences(text))
  {
    SentencesShape(text);
    var all := Sentences(text);
    var parts := SplitIntoSentences(text, expectedCount);
    forall k | 0 <= k < |parts|
      ensures parts[k] != [] && IsTrimmed(parts[k])
    {
      assert parts[k] == all[k];
    }
  }

  lemma TruncateMonotone<T>(raw: seq<T>, smaller: int, larger: int)
    requires 0 < smaller <= larger
    ensures Truncate(raw, smaller) <= Truncate(raw, larger)
  {
    var a, b := Truncate(raw, smaller), Truncate(raw, larger);
    assert a == raw[..|a|] && b == raw[..|b|];
  }

  /** A smaller positive count gives a prefix of what a larger count gives. */
  lemma TruncationMonotone(text: string, smaller: int, larger: int)
    requires 0 < smaller <= larger
    ensures SplitIntoSentences(text, smaller) <= SplitIntoSentences(text, larger)
  {
    TruncateMonotone(Sentences(text), smaller, larger);
  }

  lemma TruncateContent(all: seq<string>, parts: seq<string>)
    requires parts <= all
    ensures NonSpace(Concat(parts)) <= NonSpace(Concat(all))
  {
    assert all == parts + all[|parts|..];
    ConcatAppend(parts, all[|parts|..]);
    NonSpaceAppend(Concat(parts), Concat(all[|parts|..]));
  }

  /** What a truncated result keeps of the input is, in order, a prefix of its non-whitespace characters. */
  lemma TruncatedContentIsPrefix(text: string, expectedCount: int)
    ensures NonSpace(Concat(SplitIntoSentences(text, expectedCount))) <= NonSpace(text)
  {
    TruncateContent(Sentences(text), SplitIntoSentences(text, expectedCount));
    SentencesKeepContent(text);
  }

  // ---------------------------------------------------------------------------
  // Stored default amount

  /** `useState(40)` */
  const InitialAmount: real := 40.0

  /** `JSON.stringify({ idea, amount })`, the body `handleGenerate` posts. */
  function RequestBody(idea: string, amount: real): (body: GeminiRoute.Json)
    ensures GeminiRoute.AcceptableBody(body) <==> |idea| >= 5 && GeminiRoute.IsInteger(amount) && 1.0 <= amount <= 200.0
  {
    GeminiRoute.JObj(map["idea" := GeminiRoute.JStr(idea), "amount" := GeminiRoute.JNum(amount)])
  }

  /**
   * The amount after the page's mount effect: `saved` is what local storage
   * holds under "defaultSentenceAmount" (`None` for `null`), `parsed` what
   * `Number(saved)` gives (`None` for NaN). It replaces the initial 40 only
   * when the stored string is non-empty and parses to a number in 1..200,
   * fractions included.
   */
  function AmountAfterLoad(saved: Option<string>, parsed: Option<real>): (amount: real)
    ensures 1.0 <= amount <= 200.0
    ensures amount != InitialAmount ==> saved.Some? && saved.value != [] && parsed == Some(amount)
    ensures saved.Some? && saved.value != [] && parsed.Some? && 1.0 <= parsed.value <= 200.0
            ==> amount == parsed.value
    ensures saved.None? || saved.value == [] || parsed.None? ==> amount == InitialAmount
    ensures parsed.Some? && !(1.0 <= parsed.value <= 200.0) ==> amount == InitialAmount
  {
    if saved.Some? && saved.value != [] then
      if parsed.Some? && parsed.value >= 1.0 && parsed.value <= 200.0 then parsed.value
      else InitialAmount
    else InitialAmount
  }

  /**
   * The endpoint accepts the amount the page starts with exactly when that
   * amount is a whole number, so whenever the stored value parses to a whole
   * number (or to nothing) it is accepted.
   */
  lemma LoadedAmountIsAccepted(saved: Option<string>, parsed: Option<real>, idea: string)
    requires |idea| >= 5
    ensures var amount := AmountAfterLoad(saved, parsed);
      GeminiRoute.AcceptableBody(RequestBody(idea, amount)) <==> GeminiRoute.IsInteger(amount)
    ensures parsed.None? || GeminiRoute.IsInteger(parsed.value)
            ==> GeminiRoute.AcceptableBody(RequestBody(idea, AmountAfterLoad(saved, parsed)))
  {
    assert GeminiRoute.IsInteger(InitialAmount) by {
      assert InitialAmount.Floor == 40;
    }
  }

  /**
   * A stored "2.5" passes the page's guard and becomes the amount, which the
   * endpoint would reject. The amount field (`min` 1, no `step`) also refuses
   * 2.5, so the form will not submit until the amount is edited.
   */
  lemma FractionalDefaultRejected(idea: string)
    ensures AmountAfterLoad(Some("2.5"), Some(2.5)) == 2.5
    ensures !GeminiRoute.AcceptableBody(RequestBody(idea, 2.5))
  {
    assert (2.5).Floor == 2;
  }

  /** The guard with the whole-number test the endpoint applies: a stored fraction leaves the initial 40. */
  function IntendedAmountAfterLoad(saved: Option<string>, parsed: Option<real>): (amount: real)
    ensures 1.0 <= amount <= 200.0 && GeminiRoute.IsInteger(amount)
    ensures amount != InitialAmount ==> saved.Some? && saved.value != [] && parsed == Some(amount)
    ensures (saved.Some? && saved.value != [] && parsed.Some? && 1.0 <= parsed.value <= 200.0
             && GeminiRoute.IsInteger(parsed.value))
            ==> amount == parsed.value
  {
    assert GeminiRoute.IsInteger(InitialAmount) by {
      assert InitialAmount.Floor == 40;
    }
    if saved.Some? && saved.value != [] then
      if parsed.Some? && parsed.value >= 1.0 && parsed.value <= 200.0 && GeminiRoute.IsInteger(parsed.value)
      then parsed.value
      else InitialAmount
    else InitialAmount
  }

  /** With the whole-number test, whatever local storage holds, the starting amount is accepted; on whole numbers nothing else changes. */
  lemma IntendedAmountIsAccepted(saved: Option<string>, parsed: Option<real>, idea: string)
    requires |idea| >= 5
    ensures GeminiRoute.AcceptableBody(RequestBody(idea, IntendedAmountAfterLoad(saved, parsed)))
    ensures parsed.None? || GeminiRoute.IsInteger(parsed.value)
            ==> IntendedAmountAfterLoad(saved, parsed) == AmountAfterLoad(saved, parsed)
  {
  }

  // ---------------------------------------------------------------------------
  // Round trip

  /** When `split` already yields non-empty trimmed pieces, trimming and filtering change nothing. */
  lemma SentencesOfCleanSplit(text: string)
    requires forall k :: 0 <= k < |Split(text)| ==> Split(text)[k] != [] && IsTrimmed(Split(text)[k])
    ensures Sentences(text) == Split(text)
  {
    var pieces := Split(text);
    forall k | 0 <= k < |pieces|
      ensures TrimEach(pieces)[k] == pieces[k]
    {
      TrimIdempotent(pieces[k]);
    }
    assert TrimEach(pieces) == pieces;
  }

  /** The shape `SentencesShape` guarantees, for parts joined by non-empty whitespace runs. */
  predicate WellJoined(parts: seq<string>, gaps: seq<string>) {
    && |parts| == |gaps| + 1
    && (forall k :: 0 <= k < |parts| ==> parts[k] != [] && IsTrimmed(parts[k]) && NoBoundary(parts[k]))
    && (forall k :: 0 <= k < |parts| - 1 ==> EndsTerminal(parts[k]))
    && (forall k :: 0 <= k < |gaps| ==> gaps[k] != [] && AllSpace(gaps[k]))
  }

  /**
   * Parts of the shape `SentencesShape` describes, joined by any non-empty
   * whitespace runs, come back unchanged.
   */
  lemma SentencesOfJoined(parts: seq<string>, gaps: seq<string>)
    requires WellJoined(parts, gaps)
    ensures Sentences(Interleave(parts, gaps)) == parts
  {
    var text := Interleave(parts, gaps);
    SplitUnique(text, parts, gaps);
    SentencesOfCleanSplit(text);
  }

  /** With a positive count, `splitIntoSentences` keeps the first that many of such parts. */
  lemma JoinedSentencesTruncated(parts: seq<string>, gaps: seq<string>, expectedCount: int)
    requires WellJoined(parts, gaps)
    ensures expectedCount > 0 ==> SplitIntoSentences(Interleave(parts, gaps), expectedCount)
                                  == if expectedCount < |parts| then parts[..expectedCount] else parts
    ensures expectedCount == 0 ==> SplitIntoSentences(Interleave(parts, gaps), expectedCount) == parts
  {
    SentencesOfJoined(parts, gaps);
  }

  /**
   * "A. B! C?" with a count of 2, for any letters in place of A, B and C:
   * the punctuation stays with its sentence and the third one is cut off.
   */
  lemma ThreeSentencesCutToTwo(a: char, b: char, c: char)
    requires !IsSpace(a) && !IsTerminal(a) && !IsSpace(b) && !IsTerminal(b) && !IsSpace(c) && !IsTerminal(c)
    ensures SplitIntoSentences([a, '.', ' ', b, '!', ' ', c, '?'], 2) == [[a, '.'], [b, '!']]
  {
    var parts, gaps := [[a, '.'], [b, '!'], [c, '?']], [[' '], [' ']];
    assert NoBoundary(parts[0]) && NoBoundary(parts[1]) && NoBoundary(parts[2]);
    assert IsSpace(' ');
    assert Interleave(parts, gaps) == [a, '.', ' ', b, '!', ' ', c, '?'] by {
      assert Interleave(parts[2..], gaps[2..]) == [c, '?'];
      assert Interleave(parts[1..], gaps[1..]) == [b, '!'] + [' '] + [c, '?'];
    }
    JoinedSentencesTruncated(parts, gaps, 2);
  }
}
