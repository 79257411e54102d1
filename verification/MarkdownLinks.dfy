/**
 The Markdown links of a text, each with its text kept and its brackets and target left out
 (pipeline/evidence_span.py:23, 94-97).

 What the regular expression matches from a bracket on is determined: neither class it repeats
 holds the character that comes after.
 */
module MarkdownLinks {
  import opened Common

  /** A link's opening bracket is at `start`; its text ends at `close`, where the bracket before
      its target is; the link ends before `end`. */
  datatype Link = Link(start: nat, close: nat, end: nat)

  predicate EndsText(c: char) {
    c == '[' || c == ']' || c == '\n'
  }

  predicate EndsTarget(c: char) {
    c == ')' || IsSpace(c)
  }

  function TextEnd(text: string, i: nat): (j: nat)
    requires i <= |text|
    ensures i <= j <= |text|
    decreases |text| - i
  {
    if i < |text| && !EndsText(text[i]) then TextEnd(text, i + 1) else i
  }

  lemma {:induction false} TextEndStops(text: string, i: nat)
    requires i <= |text|
    ensures forall k | i <= k < TextEnd(text, i) :: !EndsText(text[k])
    decreases |text| - i
  {
    if i < |text| && !EndsText(text[i]) {
      TextEndStops(text, i + 1);
    }
  }

  function TargetEnd(text: string, i: nat): (j: nat)
    requires i <= |text|
    ensures i <= j <= |text|
    decreases |text| - i
  {
    if i < |text| && !EndsTarget(text[i]) then TargetEnd(text, i + 1) else i
  }

  /** The link that starts at `i`: brackets around its text, then its target, to the closing
      parenthesis or, when there is none, to the first space. */
  function LinkAt(text: string, i: nat): (found: Option<Link>)
    requires i < |text|
    ensures found.Some? ==> found.value.start == i < found.value.close < found.value.end <= |text|
  {
    if text[i] != '[' then None
    else
      var close := TextEnd(text, i + 1);
      if close + 1 < |text| && text[close] == ']' && text[close + 1] == '(' then
        var t := TargetEnd(text, close + 2);
        Some(Link(i, close, if t < |text| && text[t] == ')' then t + 1 else t))
      else None
  }

  predicate IsLink(text: string, l: Link) {
    l.start < |text| && LinkAt(text, l.start) == Some(l)
  }

  lemma LinkShape(text: string, l: Link)
    requires IsLink(text, l)
    ensures l.start < l.close < l.end <= |text| && text[l.start] == '[' && text[l.close] == ']'
    ensures forall k | l.start < k < l.close :: !EndsText(text[k])
  {
    TextEndStops(text, l.start + 1);
  }

  /** Each link lies in the text, and ends before the next one starts. */
  ghost predicate InOrder(ls: seq<Link>, n: nat) {
    && (forall k | 0 <= k < |ls| :: ls[k].start < ls[k].close < ls[k].end <= n)
    && (forall j, k | 0 <= j < k < |ls| :: ls[j].end <= ls[k].start)
  }

  /** Where the search for links goes on. */
  function NextAt(text: string, i: nat): (j: nat)
    requires i < |text|
    ensures i < j <= |text|
  {
    if LinkAt(text, i).Some? then LinkAt(text, i).value.end else i + 1
  }

  /** `finditer`: the links from `i` on, none overlapping another. */
  function LinksFrom(text: string, i: nat): seq<Link>
    requires i <= |text|
    decreases |text| - i
  {
    if i == |text| then []
    else (if LinkAt(text, i).Some? then [LinkAt(text, i).value] else []) + LinksFrom(text, NextAt(text, i))
  }

  function Links(text: string): seq<Link> {
    LinksFrom(text, 0)
  }

  lemma LinksStep(text: string, i: nat)
    requires i < |text|
    ensures LinksFrom(text, i)
            == (if LinkAt(text, i).Some? then [LinkAt(text, i).value] else []) + LinksFrom(text, NextAt(text, i))
  {
  }

  lemma {:induction false} LinksFollow(text: string, i: nat)
    requires i <= |text|
    ensures InOrder(LinksFrom(text, i), |text|)
    ensures forall k | 0 <= k < |LinksFrom(text, i)| :: i <= LinksFrom(text, i)[k].start
    decreases |text| - i
  {
    if i < |text| {
      LinksStep(text, i);
      LinksFollow(text, NextAt(text, i));
    }
  }

  lemma {:induction false} LinksAre(text: string, i: nat, l: Link)
    requires i <= |text| && l in LinksFrom(text, i)
    ensures i <= l.start && IsLink(text, l)
    decreases |text| - i
  {
    if i < |text| {
      LinksStep(text, i);
      if LinkAt(text, i) != Some(l) {
        LinksAre(text, NextAt(text, i), l);
      }
    }
  }

  lemma TwoLinks(text: string, l: Link, m: Link)
    requires l in Links(text) && m in Links(text)
    ensures l == m || l.end <= m.start || m.end <= l.start
    ensures l.start < l.close < l.end <= |text| && m.start < m.close < m.end <= |text|
  {
    LinksFollow(text, 0);
    var ls := Links(text);
    var j :| 0 <= j < |ls| && ls[j] == l;
    var k :| 0 <= k < |ls| && ls[k] == m;
  }

  // ----- What is left out

  /** One piece of a link's syntax: its opening bracket, or what follows its text. */
  predicate PieceOf(l: Link, i: nat, e: nat) {
    (i == l.start && e == i + 1) || (i == l.close && e == l.end)
  }

  ghost predicate Piece(ls: seq<Link>, i: nat, e: nat) {
    exists k | 0 <= k < |ls| :: PieceOf(ls[k], i, e)
  }

  ghost predicate InPiece(ls: seq<Link>, x: nat) {
    exists i: nat, e: nat | i <= x < e :: Piece(ls, i, e)
  }

  /** Where each piece of the first `n` links ends. */
  function SkipFirst(ls: seq<Link>, n: nat): map<nat, nat>
    requires n <= |ls|
  {
    if n == 0 then map[]
    else
      var l := ls[n - 1];
      SkipFirst(ls, n - 1)[l.start := l.start + 1][l.close := l.end]
  }

  function Skip(ls: seq<Link>): map<nat, nat> {
    SkipFirst(ls, |ls|)
  }

  method FindSkips(text: string) returns (skip: map<nat, nat>)
    ensures skip == Skip(Links(text))
  {
    var ls := Links(text);
    skip := map[];
    for k := 0 to |ls|
      invariant skip == SkipFirst(ls, k)
    {
      skip := skip[ls[k].start := ls[k].start + 1];
      skip := skip[ls[k].close := ls[k].end];
    }
  }

  ghost predicate PieceBefore(ls: seq<Link>, n: nat, i: nat, e: nat)
    requires n <= |ls|
  {
    exists k | 0 <= k < n :: PieceOf(ls[k], i, e)
  }

  /** The map has just the pieces. */
  lemma {:induction false} SkipsFirst(ls: seq<Link>, m: nat, n: nat, i: nat, e: nat)
    requires InOrder(ls, m) && n <= |ls|
    ensures i in SkipFirst(ls, n) && SkipFirst(ls, n)[i] == e <==> PieceBefore(ls, n, i, e)
  {
    if n > 0 {
      SkipsFirst(ls, m, n - 1, i, e);
      if PieceBefore(ls, n - 1, i, e) {
        var k :| 0 <= k < n - 1 && PieceOf(ls[k], i, e);
        assert ls[k].end <= ls[n - 1].start;
      }
    }
  }

  lemma SkipsPieces(ls: seq<Link>, n: nat, i: nat, e: nat)
    requires InOrder(ls, n)
    ensures i in Skip(ls) && Skip(ls)[i] == e <==> Piece(ls, i, e)
  {
    SkipsFirst(ls, n, |ls|, i, e);
  }

  lemma PieceLies(ls: seq<Link>, n: nat, i: nat)
    requires InOrder(ls, n) && i in Skip(ls)
    ensures Piece(ls, i, Skip(ls)[i]) && i < Skip(ls)[i] <= n
  {
    SkipsPieces(ls, n, i, Skip(ls)[i]);
  }

  /** The map has at `i` just the piece that starts there. */
  ghost predicate HasPiece(skip: map<nat, nat>, ls: seq<Link>, i: nat) {
    && (i in skip ==> i < skip[i] && Piece(ls, i, skip[i]))
    && forall e: nat | Piece(ls, i, e) :: i in skip && skip[i] == e
  }

  lemma SkipHasPiece(ls: seq<Link>, n: nat, i: nat)
    requires InOrder(ls, n)
    ensures HasPiece(Skip(ls), ls, i)
  {
    if i in Skip(ls) {
      PieceLies(ls, n, i);
    }
    forall e: nat | Piece(ls, i, e)
      ensures i in Skip(ls) && Skip(ls)[i] == e
    {
      SkipsPieces(ls, n, i, e);
    }
  }

  lemma PiecesLie(ls: seq<Link>, n: nat)
    requires InOrder(ls, n)
    ensures forall i | i in Skip(ls) :: Piece(ls, i, Skip(ls)[i]) && i < Skip(ls)[i] <= n
  {
    forall i | i in Skip(ls)
      ensures Piece(ls, i, Skip(ls)[i]) && i < Skip(ls)[i] <= n
    {
      PieceLies(ls, n, i);
    }
  }

  /** No piece starts inside another. */
  lemma PiecesApart(ls: seq<Link>, n: nat, i: nat, e: nat, j: nat, f: nat)
    requires InOrder(ls, n) && Piece(ls, i, e) && Piece(ls, j, f)
    ensures !(i < j < e)
  {
    var k :| 0 <= k < |ls| && PieceOf(ls[k], i, e);
    var m :| 0 <= m < |ls| && PieceOf(ls[m], j, f);
    if m < k {
      assert ls[m].end <= ls[k].start;
    } else if k < m {
      assert ls[k].end <= ls[m].start;
    }
  }
}
