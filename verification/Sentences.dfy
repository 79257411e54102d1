/**
 Splitting a text into sentences, and finding the sentence of an offset
 (pipeline/evidence_span.py:308-382).
 */
module Sentences {
  import opened Common
  import opened EvidenceSpan

  type Range = (nat, nat)

  /** Terminal punctuation followed by whitespace. */
  predicate EndsAt(text: string, i: nat) {
    i + 1 < |text| && (text[i] == '.' || text[i] == '!' || text[i] == '?') && IsSpace(text[i + 1])
  }

  /** A blank line starts at `i`. */
  predicate BlankLine(text: string, i: nat) {
    i + 1 < |text| && text[i] == '\n' && text[i + 1] == '\n'
  }

  predicate HasText(text: string, from: nat, to: nat)
    requires to <= |text|
  {
    exists q | from <= q < to :: !IsSpace(text[q])
  }

  ghost predicate Increasing(bounds: seq<Range>) {
    && (forall k | 0 <= k < |bounds| :: bounds[k].0 < bounds[k].1)
    && (forall j, k | 0 <= j < k < |bounds| :: bounds[j].1 <= bounds[k].0)
  }

  ghost predicate Contains(b: Range, x: nat) {
    b.0 <= x < b.1
  }

  ghost predicate Covered(bounds: seq<Range>, x: nat) {
    exists k | 0 <= k < |bounds| :: Contains(bounds[k], x)
  }

  /** A sentence is in the text, is not blank, has no break inside, ends at a break or at the
      end of the text, and starts at the start or right after a break. */
  ghost predicate IsSentence(text: string, b: Range) {
    && b.0 < b.1 <= |text| && HasText(text, b.0, b.1)
    && (forall q | b.0 <= q < b.1 :: !BlankLine(text, q) && (q < b.1 - 1 ==> !EndsAt(text, q)))
    && (b.1 == |text| || EndsAt(text, b.1 - 1) || BlankLine(text, b.1))
    && AfterBreak(text, b.0)
  }

  /** The last character before `s` that is no whitespace. */
  function TextBefore(text: string, s: nat): (q: Option<nat>)
    requires s <= |text|
    ensures q.Some? ==> q.value < s
  {
    if s == 0 then None
    else if IsSpace(text[s - 1]) then TextBefore(text, s - 1)
    else Some(s - 1)
  }

  /** `s` is the start of the text, or follows a blank line, or is the first character that is
      no whitespace after terminal punctuation. */
  predicate AfterBreak(text: string, s: nat) {
    || s == 0
    || (s >= 2 && BlankLine(text, s - 2))
    || (s <= |text| && TextBefore(text, s).Some? && AfterStop(text, TextBefore(text, s).value, s))
  }

  predicate AfterStop(text: string, q: nat, s: nat) {
    EndsAt(text, q) && (s < |text| ==> !IsSpace(text[s]))
  }

  /** The sentences found when the split has reached `start`. */
  ghost predicate SplitTo(text: string, bounds: seq<Range>, start: nat) {
    && start <= |text| && Increasing(bounds) && AfterBreak(text, start)
    && (forall k | 0 <= k < |bounds| :: IsSentence(text, bounds[k]) && bounds[k].1 <= start)
    && CoveredTo(text, bounds, start)
  }

  /** No break between `start` and `i`. */
  ghost predicate Unbroken(text: string, start: nat, i: nat) {
    forall q | start <= q < i :: !BlankLine(text, q) && !EndsAt(text, q)
  }

  /** The range is a sentence when it is not blank. */
  function Added(text: string, bounds: seq<Range>, start: nat, end: nat): seq<Range>
    requires end <= |text|
  {
    if HasText(text, start, end) then bounds + [(start, end)] else bounds
  }

  ghost predicate CoveredTo(text: string, bounds: seq<Range>, n: nat)
    requires n <= |text|
  {
    forall x {:trigger Covered(bounds, x)} | 0 <= x < n && !IsSpace(text[x]) :: Covered(bounds, x)
  }

  lemma CoverOn(text: string, bounds: seq<Range>, start: nat, end: nat, next: nat)
    requires start <= end <= next <= |text| && CoveredTo(text, bounds, start)
    requires forall x | end <= x < next :: IsSpace(text[x])
    ensures CoveredTo(text, Added(text, bounds, start, end), next)
  {
    var after := Added(text, bounds, start, end);
    forall x | 0 <= x < next && !IsSpace(text[x])
      ensures Covered(after, x)
    {
      if x < start {
        assert Covered(bounds, x);
        var k :| 0 <= k < |bounds| && Contains(bounds[k], x);
        assert after[k] == bounds[k];
      } else {
        assert after[|bounds|] == (start, end);
      }
    }
  }

  lemma SplitOn(text: string, bounds: seq<Range>, start: nat, end: nat, next: nat)
    requires SplitTo(text, bounds, start) && start <= end <= next <= |text|
    requires HasText(text, start, end) ==> IsSentence(text, (start, end))
    requires (forall x | end <= x < next :: IsSpace(text[x])) && AfterBreak(text, next)
    ensures SplitTo(text, Added(text, bounds, start, end), next)
  {
    CoverOn(text, bounds, start, end, next);
    AddedSentence(text, bounds, start, end);
  }

  lemma AddedSentence(text: string, bounds: seq<Range>, start: nat, end: nat)
    requires start <= end <= |text| && Increasing(bounds)
    requires forall k | 0 <= k < |bounds| :: IsSentence(text, bounds[k]) && bounds[k].1 <= start
    requires HasText(text, start, end) ==> IsSentence(text, (start, end))
    ensures var after := Added(text, bounds, start, end);
            Increasing(after) && forall k | 0 <= k < |after| :: IsSentence(text, after[k]) && after[k].1 <= end
  {
    var after := Added(text, bounds, start, end);
    forall k | 0 <= k < |after|
      ensures IsSentence(text, after[k]) && after[k].1 <= end
    {
      if k < |bounds| {
        assert after[k] == bounds[k];
      }
    }
  }

  /** The sentences before `start` are split off; none ends between there and `i`. */
  ghost predicate SplitAt(text: string, bounds: seq<Range>, start: nat, i: nat) {
    start <= i <= |text| && SplitTo(text, bounds, start) && Unbroken(text, start, i)
  }

  /** Where terminal punctuation at `i` ends a sentence. */
  lemma StopEnds(text: string, bounds: seq<Range>, start: nat, i: nat, next: nat)
    requires SplitAt(text, bounds, start, i) && i < next <= |text|
    requires AfterStop(text, i, next) && TextBefore(text, next) == Some(i)
    requires forall x | i < x < next :: IsSpace(text[x])
    ensures SplitAt(text, Added(text, bounds, start, i + 1), next, next)
  {
    assert !BlankLine(text, i);
    SplitOn(text, bounds, start, i + 1, next);
  }

  /** Where a blank line at `i` ends one. */
  lemma BlankEnds(text: string, bounds: seq<Range>, start: nat, i: nat)
    requires SplitAt(text, bounds, start, i) && BlankLine(text, i)
    ensures SplitAt(text, Added(text, bounds, start, i), i + 2, i + 2)
  {
    SplitOn(text, bounds, start, i, i + 2);
  }

  lemma NothingEnds(text: string, bounds: seq<Range>, start: nat, i: nat)
    requires SplitAt(text, bounds, start, i) && i < |text| && !EndsAt(text, i) && !BlankLine(text, i)
    ensures SplitAt(text, bounds, start, i + 1)
  {
  }

  /** A break at `i`: the sentence before it ends at `end`, and the next one starts at `next`. */
  predicate IsBreak(text: string, i: nat, end: nat, next: nat) {
    || (end == i + 1 && i < next <= |text| && AfterStop(text, i, next) && TextBefore(text, next) == Some(i)
        && forall x | i < x < next :: IsSpace(text[x]))
    || (end == i && next == i + 2 && BlankLine(text, i))
  }

  lemma BreakEnds(text: string, bounds: seq<Range>, start: nat, i: nat, end: nat, next: nat)
    requires SplitAt(text, bounds, start, i) && IsBreak(text, i, end, next)
    ensures end <= |text| && i < next && SplitAt(text, Added(text, bounds, start, end), next, next)
  {
    if end == i {
      BlankEnds(text, bounds, start, i);
    } else {
      StopEnds(text, bounds, start, i, next);
    }
  }

  /** Where the end of the text ends one. */
  lemma TextEnds(text: string, bounds: seq<Range>, start: nat)
    requires SplitAt(text, bounds, start, |text|)
    ensures var after := Added(text, bounds, start, |text|);
            Increasing(after) && CoveredTo(text, after, |text|) && forall k | 0 <= k < |after| :: IsSentence(text, after[k])
  {
    CoverOn(text, bounds, start, |text|, |text|);
    var after := Added(text, bounds, start, |text|);
    forall k | 0 <= k < |after|
      ensures IsSentence(text, after[k])
    {
      if k < |bounds| {
        assert after[k] == bounds[k];
      }
    }
  }

  method SkipSpaces(text: string, i: nat) returns (j: nat)
    requires EndsAt(text, i)
    ensures i < j <= |text| && AfterStop(text, i, j) && TextBefore(text, j) == Some(i)
    ensures forall x | i < x < j :: IsSpace(text[x])
  {
    j := i + 1;
    assert !IsSpace(text[i]);
    while j < |text| && IsSpace(text[j])
      invariant i < j <= |text| && TextBefore(text, j) == Some(i)
      invariant forall x | i < x < j :: IsSpace(text[x])
    {
      j := j + 1;
    }
  }

  /** Terminal punctuation with the spaces after it, or a blank line. */
  method BreakAt(text: string, i: nat) returns (found: Option<Range>)
    requires i < |text|
    ensures if found.Some? then IsBreak(text, i, found.value.0, found.value.1) else !EndsAt(text, i) && !BlankLine(text, i)
  {
    if (text[i] == '.' || text[i] == '!' || text[i] == '?') && i + 1 < |text| && IsSpace(text[i + 1]) {
      var next := SkipSpaces(text, i);
      return Some((i + 1, next));
    }
    if text[i] == '\n' && i + 1 < |text| && text[i + 1] == '\n' {
      return Some((i, i + 2));
    }
    return None;
  }

  method SentenceBounds(text: string) returns (bounds: seq<Range>)
    ensures Increasing(bounds)
    ensures forall k | 0 <= k < |bounds| :: IsSentence(text, bounds[k])
    ensures CoveredTo(text, bounds, |text|)
  {
    bounds := [];
    var i: nat, start: nat := 0, 0;
    while i < |text|
      invariant SplitAt(text, bounds, start, i)
      decreases |text| - i
    {
      var found := BreakAt(text, i);
      if found.Some? {
        BreakEnds(text, bounds, start, i, found.value.0, found.value.1);
        bounds := Added(text, bounds, start, found.value.0);
        start, i := found.value.1, found.value.1;
      } else {
        NothingEnds(text, bounds, start, i);
        i := i + 1;
      }
    }
    TextEnds(text, bounds, start);
    if start < |text| {
      bounds := Added(text, bounds, start, |text|);
    }
  }

  /** No character is in two sentences. */
  lemma InOneSentence(bounds: seq<Range>, x: nat, j: nat, k: nat)
    requires Increasing(bounds) && j < |bounds| && k < |bounds| && Contains(bounds[j], x) && Contains(bounds[k], x)
    ensures j == k
  {
  }

  // ----- The sentence of an offset

  /** `bisect_right` over the starts: how many are at most `x`. */
  method BisectRight(bounds: seq<Range>, x: nat) returns (n: nat)
    requires Increasing(bounds)
    ensures n <= |bounds| && (forall k | 0 <= k < n :: bounds[k].0 <= x) && forall k | n <= k < |bounds| :: x < bounds[k].0
  {
    var hi := |bounds|;
    n := 0;
    while n < hi
      invariant 0 <= n <= hi <= |bounds|
      invariant forall k | 0 <= k < n :: bounds[k].0 <= x
      invariant forall k | hi <= k < |bounds| :: x < bounds[k].0
    {
      var mid := (n + hi) / 2;
      assert forall k | 0 <= k < mid :: bounds[k].0 < bounds[k].1 <= bounds[mid].0;
      if x < bounds[mid].0 {
        hi := mid;
      } else {
        n := mid + 1;
      }
    }
  }

  /** The one sentence that contains the span's start, as a linear search would find it. */
  method SentenceIndexOf(s: Span, bounds: seq<Range>) returns (index: Option<nat>)
    requires Increasing(bounds)
    ensures index.Some? ==> index.value < |bounds| && Contains(bounds[index.value], s.start)
    ensures index.None? ==> !Covered(bounds, s.start)
  {
    if bounds == [] {
      return None;
    }
    var n := BisectRight(bounds, s.start);
    if n == 0 {
      return None;
    }
    if s.start < bounds[n - 1].1 {
      return Some(n - 1);
    }
    assert forall k | 0 <= k < n - 1 :: bounds[k].1 <= bounds[n - 1].0;
    return None;
  }

  /** A span that starts on a character that is no whitespace has a sentence. */
  method SentenceOf(text: string, s: Span) returns (index: nat, bounds: seq<Range>)
    requires s.start < |text| && !IsSpace(text[s.start])
    ensures index < |bounds| && IsSentence(text, bounds[index]) && Contains(bounds[index], s.start)
  {
    bounds := SentenceBounds(text);
    var found := SentenceIndexOf(s, bounds);
    index := found.value;
  }
}
