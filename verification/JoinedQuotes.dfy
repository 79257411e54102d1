/**
 Quotes made of sentences joined by a mark no text holds (pipeline/evidence_span.py:25-27,
 178-179, 283-305).
 */
module JoinedQuotes {
  import opened Common
  import opened EvidenceSpan

  const QUOTE_JOIN := "[...]"

  function Split(s: string): (parts: seq<string>)
    decreases |s|
  {
    var p := Find(s, QUOTE_JOIN, 0);
    if p.None? then [s] else [s[..p.value]] + Split(s[p.value + |QUOTE_JOIN|..])
  }

  function Stripped(s: string): string {
    if s != "" && IsSpace(s[0]) then Stripped(s[1..])
    else if s != "" && IsSpace(Last(s)) then Stripped(s[..|s| - 1])
    else s
  }

  /** The parts that are not blank. */
  function Parts(pieces: seq<string>): seq<string> {
    if pieces == [] then []
    else (if Stripped(pieces[0]) == "" then [] else [Stripped(pieces[0])]) + Parts(pieces[1..])
  }

  // ----- No part holds the mark, so each is located as it stands

  lemma {:induction false} SplitHoldsNoMark(s: string)
    ensures forall p | p in Split(s) :: !Occurs(p, QUOTE_JOIN)
    decreases |s|
  {
    var p := Find(s, QUOTE_JOIN, 0);
    if p.Some? {
      SplitHoldsNoMark(s[p.value + |QUOTE_JOIN|..]);
      var head := s[..p.value];
      forall q | 0 <= q <= |head|
        ensures !OccursAt(head, QUOTE_JOIN, q)
      {
        if q + |QUOTE_JOIN| <= |head| {
          assert head[q..q + |QUOTE_JOIN|] == s[q..q + |QUOTE_JOIN|];
          assert !OccursAt(s, QUOTE_JOIN, q);
        }
      }
    }
  }

  lemma {:induction false} StrippedWithin(s: string)
    ensures Occurs(s, Stripped(s))
    decreases |s|
  {
    if s != "" && IsSpace(s[0]) {
      StrippedWithin(s[1..]);
      assert OccursAt(s, s[1..], 1);
      OccursWithin(s, s[1..], Stripped(s[1..]));
    } else if s != "" && IsSpace(Last(s)) {
      StrippedWithin(s[..|s| - 1]);
      assert OccursAt(s, s[..|s| - 1], 0);
      OccursWithin(s, s[..|s| - 1], Stripped(s[..|s| - 1]));
    } else {
      assert OccursAt(s, s, 0);
    }
  }

  lemma {:induction false} PartsHoldNoMark(pieces: seq<string>)
    requires forall p | p in pieces :: !Occurs(p, QUOTE_JOIN)
    ensures forall p | p in Parts(pieces) :: p != "" && !Occurs(p, QUOTE_JOIN)
  {
    if pieces != [] {
      PartsHoldNoMark(pieces[1..]);
      StrippedWithin(pieces[0]);
      if Occurs(Stripped(pieces[0]), QUOTE_JOIN) {
        OccursWithin(pieces[0], Stripped(pieces[0]), QUOTE_JOIN);
      }
    }
  }

  // ----- The joined span

  /** How many words a part has, and where it was located. */
  datatype Found = Found(words: nat, span: Option<Span>)

  function Total(fs: seq<Found>): nat {
    if fs == [] then 0 else Total(fs[..|fs| - 1]) + Last(fs).words
  }

  function Matched(fs: seq<Found>): real {
    if fs == [] then 0.0
    else
      var f := Last(fs);
      Matched(fs[..|fs| - 1]) + if f.span.Some? then f.span.value.coverage * f.words as real else 0.0
  }

  function Spans(fs: seq<Found>): seq<Span> {
    if fs == [] then []
    else Spans(fs[..|fs| - 1]) + if Last(fs).span.Some? then [Last(fs).span.value] else []
  }

  function Least(ss: seq<Span>): (m: nat)
    requires ss != []
    ensures (exists s | s in ss :: s.start == m) && forall s | s in ss :: m <= s.start
  {
    if |ss| == 1 then ss[0].start
    else
      var rest := Least(ss[1..]);
      assert ss == [ss[0]] + ss[1..];
      if ss[0].start < rest then ss[0].start else rest
  }

  function Greatest(ss: seq<Span>): (m: nat)
    requires ss != []
    ensures (exists s | s in ss :: s.end == m) && forall s | s in ss :: s.end <= m
  {
    if |ss| == 1 then ss[0].end
    else
      var rest := Greatest(ss[1..]);
      assert ss == [ss[0]] + ss[1..];
      if ss[0].end > rest then ss[0].end else rest
  }

  function Joining(fs: seq<Found>, min: real): Option<Span> {
    var ss := Spans(fs);
    if ss == [] || Total(fs) == 0 then None
    else
      var coverage := Matched(fs) / Total(fs) as real;
      if coverage < min then None
      else Some(Span(Least(ss), Greatest(ss), coverage, coverage >= 0.99 && forall s | s in ss :: s.exact))
  }

  /** The part was located on its own. */
  ghost predicate LocatedAs(part: string, text: string, r: Reading, min: real, f: Found)
    requires Proper(r)
  {
    f.words == |QuoteWords(part, r)| && Locates(part, text, r, min, f.span)
  }

  /** So was each of the first parts, as many as `fs` tells. */
  ghost predicate LocatedSoFar(parts: seq<string>, text: string, r: Reading, min: real, fs: seq<Found>)
    requires Proper(r)
  {
    |fs| <= |parts| && forall i | 0 <= i < |fs| :: LocatedAs(parts[i], text, r, min, fs[i])
  }

  ghost predicate PartsLocated(parts: seq<string>, text: string, r: Reading, min: real, fs: seq<Found>)
    requires Proper(r)
  {
    |fs| == |parts| && LocatedSoFar(parts, text, r, min, fs)
  }

  lemma SumsOf(fs: seq<Found>, f: Found)
    ensures Total(fs + [f]) == Total(fs) + f.words
    ensures Matched(fs + [f]) == Matched(fs) + if f.span.Some? then f.span.value.coverage * f.words as real else 0.0
    ensures Spans(fs + [f]) == Spans(fs) + if f.span.Some? then [f.span.value] else []
  {
    assert (fs + [f])[..|fs|] == fs;
  }

  /** One part: its words, and its span. */
  method LocateAPart(part: string, text: string, r: Reading, min: real) returns (f: Found)
    requires Proper(r)
    ensures LocatedAs(part, text, r, min, f)
  {
    var chars, _ := Normalise(part, r);
    var words := WordSpans(Trimmed(chars));
    TextOfWords(Trimmed(chars), words);
    var span := LocateOne(part, text, r, min);
    f := Found(|words|, span);
  }

  /** What the loop over the parts has gathered. */
  datatype Tally = Tally(spans: seq<Span>, matched: real, total: nat)

  function TallyOf(fs: seq<Found>): Tally {
    Tally(Spans(fs), Matched(fs), Total(fs))
  }

  function Counted(t: Tally, f: Found): Tally {
    Tally(if f.span.Some? then t.spans + [f.span.value] else t.spans,
          if f.span.Some? then t.matched + f.span.value.coverage * f.words as real else t.matched,
          t.total + f.words)
  }

  lemma TallyMore(fs: seq<Found>, f: Found)
    ensures TallyOf(fs + [f]) == Counted(TallyOf(fs), f)
  {
    SumsOf(fs, f);
  }

  /** The first parts were located, and the tally is theirs. */
  ghost predicate Gathered(parts: seq<string>, text: string, r: Reading, min: real, fs: seq<Found>, t: Tally)
    requires Proper(r)
  {
    LocatedSoFar(parts, text, r, min, fs) && t == TallyOf(fs)
  }

  lemma NoneGathered(parts: seq<string>, text: string, r: Reading, min: real)
    requires Proper(r)
    ensures Gathered(parts, text, r, min, [], Tally([], 0.0, 0))
  {
  }

  lemma OneMoreGathered(parts: seq<string>, text: string, r: Reading, min: real, fs: seq<Found>, t: Tally, f: Found)
    requires Proper(r) && Gathered(parts, text, r, min, fs, t)
    requires |fs| < |parts| && LocatedAs(parts[|fs|], text, r, min, f)
    ensures Gathered(parts, text, r, min, fs + [f], Counted(t, f))
  {
    TallyMore(fs, f);
  }

  /** Every part located on its own, and what they come to. */
  method LocateParts(parts: seq<string>, text: string, r: Reading, min: real) returns (t: Tally, ghost fs: seq<Found>)
    requires Proper(r)
    ensures PartsLocated(parts, text, r, min, fs) && t == TallyOf(fs)
  {
    t, fs := Tally([], 0.0, 0), [];
    NoneGathered(parts, text, r, min);
    for i := 0 to |parts|
      invariant |fs| == i && Gathered(parts, text, r, min, fs, t)
    {
      var f := LocateAPart(parts[i], text, r, min);
      OneMoreGathered(parts, text, r, min, fs, t, f);
      t, fs := Counted(t, f), fs + [f];
    }
  }

  method LocateJoined(quote: string, text: string, r: Reading, min: real)
    returns (found: Option<Span>)
    requires Proper(r)
    ensures exists fs :: PartsLocated(Parts(Split(quote)), text, r, min, fs) && found == Joining(fs, min)
  {
    var t;
    ghost var fs;
    t, fs := LocateParts(Parts(Split(quote)), text, r, min);
    found := JoinOf(t, min);
  }

  /** The span from the first part found to the last, if they cover enough. */
  method JoinOf(t: Tally, min: real) returns (found: Option<Span>)
    ensures forall fs | t == TallyOf(fs) :: found == Joining(fs, min)
  {
    if t.spans == [] || t.total == 0 {
      return None;
    }
    var coverage := t.matched / t.total as real;
    if coverage < min {
      return None;
    }
    return Some(Span(Least(t.spans), Greatest(t.spans), coverage,
                     coverage >= 0.99 && forall s | s in t.spans :: s.exact));
  }

  /** What `locate` answers, for any quote. */
  ghost predicate Answers(quote: string, text: string, r: Reading, min: real, found: Option<Span>)
    requires Proper(r)
  {
    if quote == "" || text == "" then found == None
    else if Occurs(quote, QUOTE_JOIN) then
      exists fs :: PartsLocated(Parts(Split(quote)), text, r, min, fs) && found == Joining(fs, min)
    else Locates(quote, text, r, min, found)
  }

  method Locate(quote: string, text: string, r: Reading, min: real) returns (found: Option<Span>)
    requires Proper(r)
    ensures Answers(quote, text, r, min, found)
  {
    if quote == "" || text == "" {
      return None;
    }
    FindsIff(quote, QUOTE_JOIN);
    if Find(quote, QUOTE_JOIN, 0).Some? {
      SplitHoldsNoMark(quote);
      PartsHoldNoMark(Split(quote));
      found := LocateJoined(quote, text, r, min);
    } else {
      found := LocateOne(quote, text, r, min);
    }
  }

  // ----- What a joined span is

  predicate Within(text: string, f: Found) {
    f.span.Some? ==> var s := f.span.value; s.start < s.end <= |text| && 0.0 < s.coverage <= 1.0
  }

  lemma {:induction false} SpansOf(text: string, fs: seq<Found>)
    requires forall i | 0 <= i < |fs| :: Within(text, fs[i])
    ensures forall s | s in Spans(fs) :: s.start < s.end <= |text| && exists i | 0 <= i < |fs| :: fs[i].span == Some(s)
    ensures forall i | 0 <= i < |fs| && fs[i].span.Some? :: fs[i].span.value in Spans(fs)
  {
    if fs != [] {
      var n := |fs| - 1;
      var before := fs[..n];
      SpansOf(text, before);
      assert Within(text, fs[n]);
      assert forall i | 0 <= i < n :: before[i] == fs[i];
      forall s | s in Spans(fs)
        ensures s.start < s.end <= |text| && exists i | 0 <= i < |fs| :: fs[i].span == Some(s)
      {
        if s in Spans(before) {
          var i :| 0 <= i < n && before[i].span == Some(s);
          assert fs[i].span == Some(s);
        } else {
          assert fs[n].span == Some(s);
        }
      }
    }
  }

  lemma {:induction false} MatchedAtMost(text: string, fs: seq<Found>)
    requires forall i | 0 <= i < |fs| :: Within(text, fs[i])
    ensures 0.0 <= Matched(fs) <= Total(fs) as real
  {
    if fs != [] {
      var before, f := fs[..|fs| - 1], Last(fs);
      MatchedAtMost(text, before);
      assert Within(text, f);
      var added := if f.span.Some? then f.span.value.coverage * f.words as real else 0.0;
      if f.span.Some? {
        Part(f.span.value.coverage, f.words as real);
      }
      assert 0.0 <= added <= f.words as real;
      assert Matched(fs) == Matched(before) + added;
      assert Total(fs) as real == Total(before) as real + f.words as real;
    }
  }

  lemma SpansOfParts(parts: seq<string>, text: string, r: Reading, min: real, fs: seq<Found>)
    requires Proper(r) && PartsLocated(parts, text, r, min, fs)
    ensures forall i | 0 <= i < |fs| :: Within(text, fs[i])
  {
    forall i | 0 <= i < |fs|
      ensures Within(text, fs[i])
    {
      assert LocatedAs(parts[i], text, r, min, fs[i]);
      if fs[i].span.Some? {
        LocatedSpan(parts[i], text, r, min, fs[i].span.value);
      }
    }
  }

  lemma Part(c: real, n: real)
    requires 0.0 <= c <= 1.0 && 0.0 <= n
    ensures 0.0 <= c * n <= n
  {
  }

  /** Every span of a joined quote lies in the text, runs from where the first located part
      starts to where the last one ends, holds them all, and covers at least the wanted share
      of all the words and at most all of them. */
  lemma JoinedSpan(quote: string, text: string, r: Reading, min: real, fs: seq<Found>, s: Span)
    requires Proper(r) && PartsLocated(Parts(Split(quote)), text, r, min, fs) && Joining(fs, min) == Some(s)
    ensures s.start < s.end <= |text| && min <= s.coverage <= 1.0
    ensures forall i | 0 <= i < |fs| && fs[i].span.Some? ::
              s.start <= fs[i].span.value.start && fs[i].span.value.end <= s.end
    ensures exists i | 0 <= i < |fs| :: fs[i].span.Some? && fs[i].span.value.start == s.start
    ensures exists i | 0 <= i < |fs| :: fs[i].span.Some? && fs[i].span.value.end == s.end
    ensures s.exact ==> forall i | 0 <= i < |fs| && fs[i].span.Some? :: fs[i].span.value.exact
  {
    SpansOfParts(Parts(Split(quote)), text, r, min, fs);
    SpansOf(text, fs);
    MatchedAtMost(text, fs);
    Ratio(Matched(fs), Total(fs) as real);
    var first :| first in Spans(fs) && first.start == s.start;
    var last :| last in Spans(fs) && last.end == s.end;
    var i :| 0 <= i < |fs| && fs[i].span == Some(first);
    var j :| 0 <= j < |fs| && fs[j].span == Some(last);
  }

  lemma Ratio(a: real, b: real)
    requires 0.0 <= a <= b && b > 0.0
    ensures a / b <= 1.0
  {
  }
}
