/**
 What a located span says when it is read by itself (pipeline/evidence_span.py:76-136, 196-221).

 A span is cut out of a text whose links are read without their syntax; cut out, its text is
 read again.  It reads as it did exactly when no link has just one of the span's ends in its text.
 */
module SpanText {
  import opened Common
  import opened MarkdownLinks
  import opened EvidenceSpan

  // ----- The links of a slice

  function AtMost(x: nat, b: nat): nat {
    if x < b then x else b
  }

  lemma {:induction false} TextEndIn(text: string, slice: string, a: nat, b: nat, i: nat)
    requires a <= i <= b <= |text| && slice == text[a..b]
    ensures TextEnd(slice, i - a) == AtMost(TextEnd(text, i), b) - a
    decreases b - i
  {
    if i < b && !EndsText(text[i]) {
      TextEndIn(text, slice, a, b, i + 1);
    }
  }

  lemma {:induction false} TargetEndIn(text: string, slice: string, a: nat, b: nat, i: nat)
    requires a <= i <= b <= |text| && slice == text[a..b]
    ensures TargetEnd(slice, i - a) == AtMost(TargetEnd(text, i), b) - a
    decreases b - i
  {
    if i < b && !EndsTarget(text[i]) {
      TargetEndIn(text, slice, a, b, i + 1);
    }
  }

  function Shifted(l: Link, a: nat): Link {
    Link(l.start + a, l.close + a, l.end + a)
  }

  function ShiftedLink(l: Option<Link>, a: nat): Option<Link> {
    if l.Some? then Some(Shifted(l.value, a)) else None
  }

  lemma LinkIn(text: string, slice: string, a: nat, b: nat, i: nat)
    requires a <= i < b <= |text| && slice == text[a..b] && (LinkAt(text, i).Some? ==> LinkAt(text, i).value.end <= b)
    ensures ShiftedLink(LinkAt(slice, i - a), a) == LinkAt(text, i)
  {
    TextEndIn(text, slice, a, b, i + 1);
    var close := TextEnd(text, i + 1);
    if close + 1 < b {
      TargetEndIn(text, slice, a, b, close + 2);
    }
  }

  /** The links of a slice are the first of these, further on; the others start past it. */
  ghost predicate SliceOf(ls: seq<Link>, inner: seq<Link>, a: nat, b: nat) {
    && |inner| <= |ls|
    && (forall k | 0 <= k < |inner| :: ls[k] == Shifted(inner[k], a))
    && forall k | |inner| <= k < |ls| :: b <= ls[k].start
  }

  lemma SliceMore(l: Link, own: Link, ls: seq<Link>, inner: seq<Link>, a: nat, b: nat)
    requires SliceOf(ls, inner, a, b) && l == Shifted(own, a)
    ensures SliceOf([l] + ls, [own] + inner, a, b)
  {
  }

  /** The links that `LinksFrom` finds later. */
  lemma LaterLinks(text: string, i: nat)
    requires i < |text|
    ensures LinkAt(text, i).Some? ==> LinkAt(text, i).value in LinksFrom(text, i)
    ensures forall l | l in LinksFrom(text, NextAt(text, i)) :: l in LinksFrom(text, i)
  {
    LinksStep(text, i);
  }

  lemma LinkFound(text: string, i: nat, l: Link)
    requires i < |text| && l in LinksFrom(text, i)
    ensures LinkAt(text, i) == Some(l) || l in LinksFrom(text, NextAt(text, i))
  {
    LinksStep(text, i);
  }

  /** No link holds `c` but one that starts there. */
  ghost predicate Clear(ls: seq<Link>, c: nat) {
    forall l | l in ls :: l.end <= c || l.start >= c
  }

  lemma ClearLater(text: string, i: nat, c: nat)
    requires i < |text| && i < c && Clear(LinksFrom(text, i), c)
    ensures NextAt(text, i) <= c && Clear(LinksFrom(text, NextAt(text, i)), c)
  {
    LaterLinks(text, i);
  }

  lemma LinksInMore(text: string, slice: string, a: nat, b: nat, i: nat)
    requires a <= i < b <= |text| && |slice| == b - a
    requires ShiftedLink(LinkAt(slice, i - a), a) == LinkAt(text, i)
    requires SliceOf(LinksFrom(text, NextAt(text, i)), LinksFrom(slice, NextAt(slice, i - a)), a, b)
    ensures SliceOf(LinksFrom(text, i), LinksFrom(slice, i - a), a, b)
  {
    LinksStep(text, i);
    LinksStep(slice, i - a);
    if LinkAt(text, i).Some? {
      SliceMore(LinkAt(text, i).value, LinkAt(slice, i - a).value,
                LinksFrom(text, NextAt(text, i)), LinksFrom(slice, NextAt(slice, i - a)), a, b);
    }
  }

  /** Links that end where the slice does, or before, are those of the slice. */
  lemma {:induction false} LinksIn(text: string, slice: string, a: nat, b: nat, i: nat)
    requires a <= i <= b <= |text| && slice == text[a..b] && Clear(LinksFrom(text, i), b)
    ensures SliceOf(LinksFrom(text, i), LinksFrom(slice, i - a), a, b)
    decreases b - i
  {
    if i < b {
      ClearLater(text, i, b);
      LinkIn(text, slice, a, b, i);
      LinksIn(text, slice, a, b, NextAt(text, i));
      LinksInMore(text, slice, a, b, i);
    } else {
      LinksFollow(text, i);
      assert LinksFrom(slice, i - a) == [];
    }
  }

  /** The search for links stops at a place that lies in none. */
  lemma {:induction false} LinksReach(text: string, i: nat, a: nat) returns (n: nat)
    requires i <= a <= |text| && forall l | l in LinksFrom(text, i) :: !(l.start < a < l.end)
    ensures n <= |LinksFrom(text, i)| && LinksFrom(text, i)[n..] == LinksFrom(text, a)
    ensures forall k | 0 <= k < n :: LinksFrom(text, i)[k].end <= a
    decreases a - i
  {
    if i == a {
      n := 0;
    } else {
      LaterLinks(text, i);
      n := LinksReach(text, NextAt(text, i), a);
      n := ReachMore(text, i, a, n);
    }
  }

  lemma ReachMore(text: string, i: nat, a: nat, m: nat) returns (n: nat)
    requires i < |text| && i < a <= |text| && NextAt(text, i) <= a && m <= |LinksFrom(text, NextAt(text, i))|
    requires LinksFrom(text, NextAt(text, i))[m..] == LinksFrom(text, a)
    requires forall k | 0 <= k < m :: LinksFrom(text, NextAt(text, i))[k].end <= a
    ensures n <= |LinksFrom(text, i)| && LinksFrom(text, i)[n..] == LinksFrom(text, a)
    ensures forall k | 0 <= k < n :: LinksFrom(text, i)[k].end <= a
  {
    LinksStep(text, i);
    var first, rest := if LinkAt(text, i).Some? then [LinkAt(text, i).value] else [], LinksFrom(text, NextAt(text, i));
    DropBoth(first, rest, m);
    n := |first| + m;
  }

  lemma DropBoth<T>(first: seq<T>, rest: seq<T>, n: nat)
    requires n <= |rest|
    ensures (first + rest)[|first| + n..] == rest[n..]
  {
  }

  lemma {:induction false} NoLinks(text: string, i: nat)
    requires i <= |text| && forall k | 0 <= k < |text| :: !EndsText(text[k])
    ensures LinksFrom(text, i) == []
    decreases |text| - i
  {
    if i < |text| {
      NoLinks(text, i + 1);
    }
  }

  // ----- The same pieces

  predicate InText(l: Link, x: nat) {
    l.start < x < l.close
  }

  /** Each link has both ends of the span in its text, or neither. */
  ghost predicate Uncut(text: string, a: nat, b: nat)
    requires a < b
  {
    forall l | l in Links(text) :: InText(l, a) <==> InText(l, b - 1)
  }

  /** Both ends of the span were read. */
  ghost predicate EndsRead(text: string, a: nat, b: nat) {
    a < b <= |text| && !InPiece(Links(text), a) && !InPiece(Links(text), b - 1)
  }

  lemma PiecesOf(ls: seq<Link>, l: Link)
    requires l in ls
    ensures Piece(ls, l.start, l.start + 1) && Piece(ls, l.close, l.end)
  {
  }

  ghost predicate SameSkips(skip: map<nat, nat>, inner: map<nat, nat>, a: nat, b: nat) {
    forall x | a <= x < b :: SameAt(skip, inner, a, x)
  }

  ghost predicate SamePieces(ls: seq<Link>, inner: seq<Link>, a: nat, x: nat, e: nat)
    requires a <= x < e
  {
    Piece(ls, x, e) <==> Piece(inner, x - a, e - a)
  }

  lemma SamePiece(ls: seq<Link>, inner: seq<Link>, n: nat, m: nat, a: nat, b: nat, x: nat, e: nat)
    requires n <= |ls| && InOrder(ls, m) && SliceOf(ls[n..], inner, a, b) && a <= x < b && x < e
    requires forall k | 0 <= k < n :: ls[k].end <= a
    ensures SamePieces(ls, inner, a, x, e)
  {
    if Piece(inner, x - a, e - a) {
      var k :| 0 <= k < |inner| && PieceOf(inner[k], x - a, e - a);
      assert ls[n..][k] == Shifted(inner[k], a);
      assert PieceOf(ls[n + k], x, e);
    }
    if Piece(ls, x, e) {
      var k :| 0 <= k < |ls| && PieceOf(ls[k], x, e);
      assert k >= n;
      assert ls[n..][k - n] == ls[k];
      assert PieceOf(inner[k - n], x - a, e - a);
    }
  }

  ghost predicate SameAt(skip: map<nat, nat>, inner: map<nat, nat>, a: nat, x: nat)
    requires a <= x
  {
    (x in skip <==> x - a in inner) && (x in skip && x - a in inner ==> skip[x] == inner[x - a] + a)
  }

  lemma SkipFromPieces(ls: seq<Link>, skip: map<nat, nat>, inner: seq<Link>, own: map<nat, nat>, a: nat, x: nat)
    requires a <= x && HasPiece(skip, ls, x) && HasPiece(own, inner, x - a)
    requires forall e: nat | x < e :: SamePieces(ls, inner, a, x, e)
    ensures SameAt(skip, own, a, x)
  {
    if x in skip {
      assert SamePieces(ls, inner, a, x, skip[x]);
    }
    if x - a in own {
      assert SamePieces(ls, inner, a, x, own[x - a] + a);
    }
  }

  lemma NoPieceInText(text: string, l: Link, x: nat, e: nat)
    requires l in Links(text) && InText(l, x)
    ensures !Piece(Links(text), x, e)
  {
    forall k | 0 <= k < |Links(text)|
      ensures !PieceOf(Links(text)[k], x, e)
    {
      TwoLinks(text, l, Links(text)[k]);
    }
  }

  /** A span inside a link's text: there is no syntax in it. */
  lemma SkipsInText(text: string, a: nat, b: nat, l: Link)
    requires a < b <= |text| && l in Links(text) && InText(l, a) && InText(l, b - 1)
    ensures SameSkips(Skip(Links(text)), Skip(Links(text[a..b])), a, b)
  {
    LinksAre(text, 0, l);
    LinkShape(text, l);
    LinksFollow(text, 0);
    NoLinks(text[a..b], 0);
    forall x | a <= x < b
      ensures SameAt(Skip(Links(text)), Skip([]), a, x)
    {
      forall e: nat | x < e
        ensures SamePieces(Links(text), [], a, x, e)
      {
        NoPieceInText(text, l, x, e);
      }
      SkipHasPiece(Links(text), |text|, x);
      SkipHasPiece([], 0, x - a);
      SkipFromPieces(Links(text), Skip(Links(text)), [], Skip([]), a, x);
    }
  }

  lemma LinksOutside(text: string, a: nat, b: nat)
    requires EndsRead(text, a, b) && forall l | l in Links(text) :: !InText(l, a) && !InText(l, b - 1)
    ensures forall l | l in Links(text) :: !(l.start < a < l.end) && (l.start < b ==> l.end <= b)
  {
    forall l | l in Links(text)
      ensures !(l.start < a < l.end) && (l.start < b ==> l.end <= b)
    {
      TwoLinks(text, l, l);
      PiecesOf(Links(text), l);
    }
  }

  /** The span's links are the text's from its start on, further on. */
  lemma LinksWhole(text: string, a: nat, b: nat) returns (n: nat)
    requires EndsRead(text, a, b) && forall l | l in Links(text) :: !InText(l, a) && !InText(l, b - 1)
    ensures n <= |Links(text)| && SliceOf(Links(text)[n..], Links(text[a..b]), a, b)
    ensures forall k | 0 <= k < n :: Links(text)[k].end <= a
  {
    LinksOutside(text, a, b);
    n := LinksReach(text, 0, a);
    forall l | l in LinksFrom(text, a)
      ensures l.end <= b || l.start >= b
    {
      assert l in Links(text)[n..];
    }
    LinksIn(text, text[a..b], a, b, a);
  }

  /** No link has an end of the span in its text: the span's links are whole. */
  lemma SkipsWhole(text: string, a: nat, b: nat)
    requires EndsRead(text, a, b) && forall l | l in Links(text) :: !InText(l, a) && !InText(l, b - 1)
    ensures SameSkips(Skip(Links(text)), Skip(Links(text[a..b])), a, b)
  {
    var n := LinksWhole(text, a, b);
    LinksFollow(text, 0);
    LinksFollow(text[a..b], 0);
    forall x | a <= x < b
      ensures SameAt(Skip(Links(text)), Skip(Links(text[a..b])), a, x)
    {
      SkipWhole(Links(text), |text|, Links(text[a..b]), b - a, n, a, b, x);
    }
  }

  lemma SkipWhole(ls: seq<Link>, m: nat, inner: seq<Link>, m': nat, n: nat, a: nat, b: nat, x: nat)
    requires n <= |ls| && InOrder(ls, m) && InOrder(inner, m') && SliceOf(ls[n..], inner, a, b) && a <= x < b
    requires forall k | 0 <= k < n :: ls[k].end <= a
    ensures SameAt(Skip(ls), Skip(inner), a, x)
  {
    forall e: nat | x < e
      ensures SamePieces(ls, inner, a, x, e)
    {
      SamePiece(ls, inner, n, m, a, b, x, e);
    }
    SkipHasPiece(ls, m, x);
    SkipHasPiece(inner, m', x - a);
    SkipFromPieces(ls, Skip(ls), inner, Skip(inner), a, x);
  }

  lemma SkipsIn(text: string, a: nat, b: nat)
    requires EndsRead(text, a, b) && Uncut(text, a, b)
    ensures SameSkips(Skip(Links(text)), Skip(Links(text[a..b])), a, b)
  {
    if l :| l in Links(text) && InText(l, a) {
      SkipsInText(text, a, b, l);
    } else {
      SkipsWhole(text, a, b);
    }
  }

  // ----- The same stops

  lemma {:induction false} BlankEndIn(text: string, slice: string, blank: char -> bool, skip: map<nat, nat>,
                                      inner: map<nat, nat>, a: nat, b: nat, i: nat)
    requires a <= i <= b <= |text| && slice == text[a..b] && SameSkips(skip, inner, a, b)
    ensures BlankEnd(slice, blank, inner, i - a) == AtMost(BlankEnd(text, blank, skip, i), b) - a
    decreases b - i
  {
    assert i < b ==> SameAt(skip, inner, a, i);
    if i < b && blank(text[i]) && i !in skip {
      BlankEndIn(text, slice, blank, skip, inner, a, b, i + 1);
    }
  }

  lemma OnwardIn(text: string, slice: string, blank: char -> bool, skip: map<nat, nat>, inner: map<nat, nat>,
                 a: nat, b: nat, i: nat)
    requires a <= i < b <= |text| && slice == text[a..b] && SameSkips(skip, inner, a, b)
    requires Skips(text, skip) && Skips(slice, inner)
    ensures Onward(slice, blank, inner, i - a) == AtMost(Onward(text, blank, skip, i), b) - a
  {
    assert SameAt(skip, inner, a, i);
    BlankEndIn(text, slice, blank, skip, inner, a, b, i + 1);
  }

  /** The stops of a slice are the first of these, further on; the others are past it. */
  ghost predicate StopSlice(all: seq<nat>, own: seq<nat>, a: nat, b: nat) {
    && |own| <= |all|
    && (forall k | 0 <= k < |own| :: all[k] == own[k] + a)
    && forall k | |own| <= k < |all| :: b <= all[k]
  }

  lemma StopsPast(text: string, slice: string, blank: char -> bool, skip: map<nat, nat>, inner: map<nat, nat>,
                  a: nat, b: nat, j: nat)
    requires a <= b <= j <= |text| && |slice| == b - a && Skips(text, skip) && Skips(slice, inner)
    ensures StopSlice(Stops(text, blank, skip, j), Stops(slice, blank, inner, b - a), a, b)
  {
  }

  lemma StopSliceMore(i: nat, read: bool, all: seq<nat>, own: seq<nat>, a: nat, b: nat)
    requires StopSlice(all, own, a, b) && a <= i
    ensures StopSlice((if read then [i] else []) + all, (if read then [i - a] else []) + own, a, b)
  {
  }

  lemma {:induction false} StopsIn(text: string, slice: string, blank: char -> bool, skip: map<nat, nat>,
                                   inner: map<nat, nat>, a: nat, b: nat, i: nat)
    requires a <= i <= b <= |text| && slice == text[a..b] && SameSkips(skip, inner, a, b)
    requires Skips(text, skip) && Skips(slice, inner)
    ensures StopSlice(Stops(text, blank, skip, i), Stops(slice, blank, inner, i - a), a, b)
    decreases b - i
  {
    if i == b {
      StopsPast(text, slice, blank, skip, inner, a, b, b);
    } else {
      var j, k := Onward(text, blank, skip, i), Onward(slice, blank, inner, i - a);
      OnwardIn(text, slice, blank, skip, inner, a, b, i);
      if j <= b {
        StopsIn(text, slice, blank, skip, inner, a, b, j);
      } else {
        StopsPast(text, slice, blank, skip, inner, a, b, j);
      }
      assert SameAt(skip, inner, a, i);
      StopsInMore(text, slice, blank, skip, inner, a, b, i, j, k,
                  Stops(text, blank, skip, j), Stops(slice, blank, inner, k));
    }
  }

  lemma StopsInMore(text: string, slice: string, blank: char -> bool, skip: map<nat, nat>, inner: map<nat, nat>,
                    a: nat, b: nat, i: nat, j: nat, k: nat, all: seq<nat>, own: seq<nat>)
    requires a <= i < b <= |text| && |slice| == b - a && SameAt(skip, inner, a, i)
    requires Skips(text, skip) && Skips(slice, inner) && StopSlice(all, own, a, b)
    requires j == Onward(text, blank, skip, i) && k == Onward(slice, blank, inner, i - a)
    requires all == Stops(text, blank, skip, j) && own == Stops(slice, blank, inner, k)
    ensures StopSlice(Stops(text, blank, skip, i), Stops(slice, blank, inner, i - a), a, b)
  {
    StopsOn(text, blank, skip, i);
    StopsOn(slice, blank, inner, i - a);
    StopSliceMore(i, i !in skip, all, own, a, b);
  }

  /** From a stop on, the reading does not depend on what came before. */
  lemma {:induction false} StopsReach(text: string, blank: char -> bool, skip: map<nat, nat>, i: nat, a: nat)
    returns (n: nat)
    requires i <= |text| && Skips(text, skip) && a in Stops(text, blank, skip, i)
    ensures a <= |text| && n <= |Stops(text, blank, skip, i)|
    ensures Stops(text, blank, skip, i)[n..] == Stops(text, blank, skip, a)
    ensures forall k | 0 <= k < n :: Stops(text, blank, skip, i)[k] < a
    decreases |text| - i
  {
    if i == a {
      n := 0;
    } else {
      var j := Onward(text, blank, skip, i);
      StopsOn(text, blank, skip, i);
      assert a in Stops(text, blank, skip, j);
      n := StopsReach(text, blank, skip, j, a);
      n := StopsReachMore(Stops(text, blank, skip, i), i, i !in skip, Stops(text, blank, skip, j), n, a);
    }
  }

  lemma StopsReachMore(all: seq<nat>, i: nat, read: bool, rest: seq<nat>, m: nat, a: nat) returns (n: nat)
    requires all == (if read then [i] else []) + rest && m <= |rest| && i < a && forall k | 0 <= k < m :: rest[k] < a
    ensures n <= |all| && all[n..] == rest[m..] && forall k | 0 <= k < n :: all[k] < a
  {
    var first := if read then [i] else [];
    DropBoth(first, rest, m);
    n := |first| + m;
  }

  // ----- The same reading

  /** From `f` on, what was read of `n` between `a` and `b` is `inner`, further on. */
  ghost predicate ReadBetween(n: Norm, a: nat, b: nat, inner: Norm, f: nat) {
    && |n.chars| == |n.at| && |inner.chars| == |inner.at| && f + |inner.at| <= |n.at|
    && (forall k | 0 <= k < |inner.at| :: n.chars[f + k] == inner.chars[k] && n.at[f + k] == inner.at[k] + a)
    && (forall k | 0 <= k < f :: n.at[k] < a)
    && forall k | f + |inner.at| <= k < |n.at| :: n.at[k] >= b
  }

  /** The slice reads as it does in the text, character by character. */
  ghost predicate ReadsAlone(text: string, a: nat, b: nat, r: Reading)
    requires a <= b <= |text|
  {
    exists f: nat :: ReadBetween(NormalForm(text, r), a, b, NormalForm(text[a..b], r), f)
  }

  lemma BeforeMore(n: Norm, a: nat, b: nat, e: string, x: nat)
    requires ReadBetween(n, a, b, Norm("", []), |n.at|) && x < a
    ensures var m := Then(n, Emits(e, x)); ReadBetween(m, a, b, Norm("", []), |m.at|)
  {
  }

  lemma WithinMore(n: Norm, a: nat, b: nat, inner: Norm, f: nat, e: string, x: nat)
    requires ReadBetween(n, a, b, inner, f) && |n.at| == f + |inner.at|
    ensures var m, more := Then(n, Emits(e, x + a)), Then(inner, Emits(e, x));
            ReadBetween(m, a, b, more, f) && |m.at| == f + |more.at|
  {
  }

  lemma PastMore(n: Norm, a: nat, b: nat, inner: Norm, f: nat, e: string, x: nat)
    requires ReadBetween(n, a, b, inner, f) && x >= b
    ensures ReadBetween(Then(n, Emits(e, x)), a, b, inner, f)
  {
  }

  /** The first `m` stops of the text: those before the slice, in it, and past it. */
  lemma {:induction false} ReadsBefore(text: string, emit: char -> string, all: seq<nat>, m: nat, n: nat,
                                       a: nat, b: nat)
    requires m <= n <= |all| && (forall k | 0 <= k < |all| :: all[k] < |text|) && forall k | 0 <= k < n :: all[k] < a
    ensures var r := ReadAt(text, emit, all, m); ReadBetween(r, a, b, Norm("", []), |r.at|)
  {
    if m > 0 {
      ReadsBefore(text, emit, all, m - 1, n, a, b);
      BeforeMore(ReadAt(text, emit, all, m - 1), a, b, emit(text[all[m - 1]]), all[m - 1]);
    }
  }

  lemma {:induction false} ReadsWithin(text: string, slice: string, emit: char -> string, all: seq<nat>, own: seq<nat>,
                                       m: nat, n: nat, a: nat, b: nat)
    requires a <= b <= |text| && slice == text[a..b] && m <= |own| && n + |own| <= |all|
    requires (forall k | 0 <= k < |all| :: all[k] < |text|) && forall k | 0 <= k < n :: all[k] < a
    requires forall k | 0 <= k < |own| :: own[k] < b - a && all[n + k] == own[k] + a
    ensures var r, inner := ReadAt(text, emit, all, n + m), ReadAt(slice, emit, own, m);
            var f := |ReadAt(text, emit, all, n).at|;
            ReadBetween(r, a, b, inner, f) && |r.at| == f + |inner.at|
  {
    if m == 0 {
      ReadsBefore(text, emit, all, n, n, a, b);
    } else {
      ReadsWithin(text, slice, emit, all, own, m - 1, n, a, b);
      WithinMore(ReadAt(text, emit, all, n + m - 1), a, b, ReadAt(slice, emit, own, m - 1),
                 |ReadAt(text, emit, all, n).at|, emit(slice[own[m - 1]]), own[m - 1]);
    }
  }

  lemma {:induction false} ReadsPast(text: string, slice: string, emit: char -> string, all: seq<nat>, own: seq<nat>,
                                     m: nat, n: nat, a: nat, b: nat)
    requires a <= b <= |text| && slice == text[a..b] && n + |own| <= m <= |all|
    requires (forall k | 0 <= k < |all| :: all[k] < |text|) && forall k | 0 <= k < n :: all[k] < a
    requires forall k | 0 <= k < |own| :: own[k] < b - a && all[n + k] == own[k] + a
    requires forall k | n + |own| <= k < |all| :: all[k] >= b
    ensures ReadBetween(ReadAt(text, emit, all, m), a, b, ReadAt(slice, emit, own, |own|),
                        |ReadAt(text, emit, all, n).at|)
  {
    if m == n + |own| {
      ReadsWithin(text, slice, emit, all, own, |own|, n, a, b);
    } else {
      ReadsPast(text, slice, emit, all, own, m - 1, n, a, b);
      PastMore(ReadAt(text, emit, all, m - 1), a, b, ReadAt(slice, emit, own, |own|), |ReadAt(text, emit, all, n).at|,
               emit(text[all[m - 1]]), all[m - 1]);
    }
  }

  /** Where the stops of the slice are among those of the text. */
  lemma StopsAlone(text: string, a: nat, b: nat) returns (n: nat)
    requires EndsRead(text, a, b) && Uncut(text, a, b) && a in StopsOf(text)
    ensures n <= |StopsOf(text)| && StopSlice(StopsOf(text)[n..], StopsOf(text[a..b]), a, b)
    ensures forall k | 0 <= k < n :: StopsOf(text)[k] < a
  {
    LinksFollow(text, 0);
    LinksFollow(text[a..b], 0);
    PiecesLie(Links(text), |text|);
    PiecesLie(Links(text[a..b]), b - a);
    SkipsIn(text, a, b);
    n := StopsReach(text, IsBlank, Skip(Links(text)), 0, a);
    StopsIn(text, text[a..b], IsBlank, Skip(Links(text)), Skip(Links(text[a..b])), a, b, a);
  }

  lemma StopSliceAt(all: seq<nat>, own: seq<nat>, n: nat, a: nat, b: nat)
    requires n <= |all| && StopSlice(all[n..], own, a, b)
    ensures n + |own| <= |all| && (forall k | 0 <= k < |own| :: all[n + k] == own[k] + a)
    ensures forall k | n + |own| <= k < |all| :: all[k] >= b
  {
    assert forall k | 0 <= k < |own| :: all[n + k] == all[n..][k];
    assert forall k | n + |own| <= k < |all| :: all[k] == all[n..][k - n];
  }

  lemma ReadsAloneFrom(text: string, slice: string, emit: char -> string, all: seq<nat>, own: seq<nat>, n: nat,
                       a: nat, b: nat, norm: Norm, inner: Norm)
    requires a <= b <= |text| && slice == text[a..b] && n <= |all| && StopSlice(all[n..], own, a, b)
    requires (forall k | 0 <= k < |all| :: all[k] < |text|) && forall k | 0 <= k < n :: all[k] < a
    requires forall k | 0 <= k < |own| :: own[k] < |slice|
    requires norm == ReadAt(text, emit, all, |all|) && inner == ReadAt(slice, emit, own, |own|)
    ensures exists f: nat :: ReadBetween(norm, a, b, inner, f)
  {
    StopSliceAt(all, own, n, a, b);
    ReadsPast(text, slice, emit, all, own, |all|, n, a, b);
  }

  lemma ReadsAloneIn(text: string, a: nat, b: nat, r: Reading)
    requires EndsRead(text, a, b) && Uncut(text, a, b) && a in StopsOf(text)
    ensures ReadsAlone(text, a, b, r)
  {
    var n := StopsAlone(text, a, b);
    ReadsAloneFrom(text, text[a..b], Emitter(r), StopsOf(text), StopsOf(text[a..b]), n, a, b,
                   NormalForm(text, r), NormalForm(text[a..b], r));
  }

  // ----- A span that cuts a link

  lemma NotBetween(n: Norm, a: nat, b: nat, inner: Norm, x: nat)
    requires a <= x && x !in n.at && x - a in inner.at
    ensures forall f: nat :: !ReadBetween(n, a, b, inner, f)
  {
    var k :| 0 <= k < |inner.at| && inner.at[k] == x - a;
    forall f: nat
      ensures !ReadBetween(n, a, b, inner, f)
    {
      if f + k < |n.at| {
        assert n.at[f + k] in n.at;
      }
    }
  }

  /** A character that the slice reads and the text does not. */
  lemma ReadOnlyAlone(text: string, a: nat, b: nat, r: Reading, x: nat)
    requires Proper(r) && a <= x < b <= |text| && !IsBlank(text[x])
    requires InPiece(Links(text), x) && !InPiece(Links(text[a..b]), x - a)
    ensures !ReadsAlone(text, a, b, r)
  {
    NormalFormMaps(text, r);
    NormalFormMaps(text[a..b], r);
    NotBetween(NormalForm(text, r), a, b, NormalForm(text[a..b], r), x);
  }

  /** No link of the slice has the closing bracket of a link that starts before the slice. */
  lemma CloseUnheld(text: string, slice: string, a: nat, b: nat, l: Link)
    requires l.start < a < l.close < b <= |text| && slice == text[a..b] && IsLink(text, l)
    ensures !InPiece(Links(slice), l.close - a)
  {
    LinkShape(text, l);
    forall k, i: nat, e: nat | 0 <= k < |Links(slice)| && PieceOf(Links(slice)[k], i, e)
      ensures !(i <= l.close - a < e)
    {
      var own := Links(slice)[k];
      LinksAre(slice, 0, own);
      LinkShape(slice, own);
      assert slice[own.start] == text[own.start + a] && slice[own.close] == text[own.close + a];
    }
  }

  /** The span starts in a link's text and ends past the link: it reads the closing bracket. */
  lemma CutAtStart(text: string, a: nat, b: nat, r: Reading, l: Link)
    requires Proper(r) && EndsRead(text, a, b) && l in Links(text) && InText(l, a) && !InText(l, b - 1)
    ensures !ReadsAlone(text, a, b, r)
  {
    PiecesOf(Links(text), l);
    LinksAre(text, 0, l);
    LinkShape(text, l);
    CloseUnheld(text, text[a..b], a, b, l);
    ReadOnlyAlone(text, a, b, r, l.close);
  }

  lemma ClearMore(slice: string, x: nat, c: nat)
    requires x < c && x < |slice| && NextAt(slice, x) <= c && Clear(LinksFrom(slice, NextAt(slice, x)), c)
    ensures Clear(LinksFrom(slice, x), c)
  {
    forall l | l in LinksFrom(slice, x)
      ensures l.end <= c || l.start >= c
    {
      LinkFound(slice, x, l);
    }
  }

  lemma ClearHere(slice: string, c: nat)
    requires c <= |slice|
    ensures Clear(LinksFrom(slice, c), c)
  {
    forall l | l in LinksFrom(slice, c)
      ensures l.start >= c
    {
      LinksAre(slice, c, l);
    }
  }

  lemma NextIn(text: string, slice: string, a: nat, b: nat, i: nat)
    requires a <= i < b <= |text| && slice == text[a..b] && NextAt(text, i) <= b
    ensures NextAt(slice, i - a) == NextAt(text, i) - a
  {
    LinkIn(text, slice, a, b, i);
  }

  lemma SliceReachesMore(text: string, slice: string, a: nat, b: nat, c: nat, i: nat, n: nat)
    requires a <= i < c <= b <= |text| && slice == text[a..b] && n == NextAt(text, i) <= c
    requires Clear(LinksFrom(slice, n - a), c - a)
    ensures Clear(LinksFrom(slice, i - a), c - a)
  {
    NextIn(text, slice, a, b, i);
    ClearMore(slice, i - a, c - a);
  }

  lemma {:induction false} SliceReaches(text: string, slice: string, a: nat, b: nat, c: nat, i: nat)
    requires a <= i <= c <= b <= |text| && slice == text[a..b] && Clear(LinksFrom(text, i), c)
    ensures Clear(LinksFrom(slice, i - a), c - a)
    decreases c - i
  {
    if i == c {
      ClearHere(slice, c - a);
    } else {
      var n := NextAt(text, i);
      ClearLater(text, i, c);
      SliceReaches(text, slice, a, b, c, n);
      SliceReachesMore(text, slice, a, b, c, i, n);
    }
  }

  /** In the slice no link holds the place where one of the text opens and does not close. */
  lemma OpenUnheld(text: string, slice: string, a: nat, b: nat, l: Link)
    requires a < l.start < b <= |text| && slice == text[a..b] && IsLink(text, l) && b <= l.close
    requires Clear(LinksFrom(text, a), l.start)
    ensures !InPiece(Links(slice), l.start - a)
  {
    SliceReaches(text, slice, a, b, l.start, a);
    NotOpen(text, slice, a, b, l);
    forall k, i: nat, e: nat | 0 <= k < |Links(slice)| && PieceOf(Links(slice)[k], i, e)
      ensures !(i <= l.start - a < e)
    {
      LinksAre(slice, 0, Links(slice)[k]);
    }
  }

  lemma NotOpen(text: string, slice: string, a: nat, b: nat, l: Link)
    requires a < l.start < b <= |text| && slice == text[a..b] && IsLink(text, l) && b <= l.close
    ensures LinkAt(slice, l.start - a) == None
  {
    TextEndIn(text, slice, a, b, l.start + 1);
  }

  lemma LinksBefore(text: string, a: nat, b: nat, l: Link)
    requires EndsRead(text, a, b) && l in Links(text) && a < l.start && forall m | m in Links(text) :: !InText(m, a)
    ensures Clear(LinksFrom(text, a), l.start)
  {
    forall m | m in Links(text)
      ensures !(m.start < a < m.end) && (m.end <= l.start || m.start >= l.start)
    {
      TwoLinks(text, l, m);
      PiecesOf(Links(text), m);
    }
    var n := LinksReach(text, 0, a);
    assert forall m | m in LinksFrom(text, a) :: m in Links(text)[n..];
  }

  /** The span starts in no link's text and ends in one's: it reads the opening bracket. */
  lemma CutAtEnd(text: string, a: nat, b: nat, r: Reading, l: Link)
    requires Proper(r) && EndsRead(text, a, b) && l in Links(text) && InText(l, b - 1)
    requires forall m | m in Links(text) :: !InText(m, a)
    ensures !ReadsAlone(text, a, b, r)
  {
    PiecesOf(Links(text), l);
    LinksAre(text, 0, l);
    LinkShape(text, l);
    LinksBefore(text, a, b, l);
    OpenUnheld(text, text[a..b], a, b, l);
    ReadOnlyAlone(text, a, b, r, l.start);
  }

  lemma CutReads(text: string, a: nat, b: nat, r: Reading, l: Link)
    requires Proper(r) && EndsRead(text, a, b) && l in Links(text) && !(InText(l, a) <==> InText(l, b - 1))
    ensures !ReadsAlone(text, a, b, r)
  {
    if InText(l, a) {
      CutAtStart(text, a, b, r, l);
    } else if m :| m in Links(text) && InText(m, a) {
      TwoLinks(text, l, m);
      CutAtStart(text, a, b, r, m);
    } else {
      CutAtEnd(text, a, b, r, l);
    }
  }

  lemma StopReadsIff(text: string, a: nat, b: nat, r: Reading)
    requires Proper(r) && EndsRead(text, a, b) && a in StopsOf(text)
    ensures ReadsAlone(text, a, b, r) <==> Uncut(text, a, b)
  {
    if Uncut(text, a, b) {
      ReadsAloneIn(text, a, b, r);
    } else {
      var l :| l in Links(text) && !(InText(l, a) <==> InText(l, b - 1));
      CutReads(text, a, b, r, l);
    }
  }

  lemma ReadAtStop(text: string, r: Reading, x: nat)
    requires Proper(r) && x in NormalForm(text, r).at
    ensures x in StopsOf(text) && x < |text| && !InPiece(Links(text), x)
  {
    NormalFormMaps(text, r);
    ReadRises(text, Emitter(r), StopsOf(text), |StopsOf(text)|);
  }

  /** A span whose ends were read reads alone as it does in the text exactly when each link has
      both its ends in its text, or neither. */
  lemma SpanReadsIff(text: string, a: nat, b: nat, r: Reading)
    requires Proper(r) && a < b <= |text| && a in NormalForm(text, r).at && b - 1 in NormalForm(text, r).at
    ensures ReadsAlone(text, a, b, r) <==> Uncut(text, a, b)
  {
    ReadAtStop(text, r, a);
    ReadAtStop(text, r, b - 1);
    StopReadsIff(text, a, b, r);
  }

  // ----- The words a span delimits

  lemma OccursBetween(n: Norm, a: nat, b: nat, inner: Norm, f: nat, matched: string, p: nat)
    requires ReadBetween(n, a, b, inner, f) && OccursAt(n.chars, matched, p) && matched != ""
    requires a <= n.at[p] < b && a <= n.at[p + |matched| - 1] < b
    ensures Occurs(inner.chars, matched)
  {
    assert f <= p && p + |matched| <= f + |inner.at|;
    forall i | 0 <= i < |matched|
      ensures inner.chars[p - f + i] == matched[i]
    {
      assert n.chars[f + (p - f + i)] == n.chars[p..p + |matched|][i];
    }
    assert inner.chars[p - f..p - f + |matched|] == matched;
    assert OccursAt(inner.chars, matched, p - f);
  }

  lemma ReadsEnds(text: string, r: Reading, s: Span, matched: string)
    requires Proper(r) && Reads(text, NormalForm(text, r), s, matched)
    ensures EndsRead(text, s.start, s.end) && s.start in StopsOf(text)
  {
    var n := NormalForm(text, r);
    var p: nat :| OccursAt(n.chars, matched, p) && Delimits(text, n, s, p, |matched|);
    ReadAtStop(text, r, n.at[p]);
    ReadAtStop(text, r, n.at[p + |matched| - 1]);
  }

  lemma HoldsBetween(text: string, n: Norm, s: Span, inner: Norm, f: nat, matched: string)
    requires Reads(text, n, s, matched) && ReadBetween(n, s.start, s.end, inner, f)
    ensures Occurs(inner.chars, matched)
  {
    var p: nat :| OccursAt(n.chars, matched, p) && Delimits(text, n, s, p, |matched|);
    OccursBetween(n, s.start, s.end, inner, f, matched, p);
  }

  lemma HoldsAlone(text: string, r: Reading, s: Span, matched: string)
    requires s.start <= s.end <= |text| && ReadsAlone(text, s.start, s.end, r)
    requires Reads(text, NormalForm(text, r), s, matched)
    ensures Occurs(NormalForm(text[s.start..s.end], r).chars, matched)
  {
    var f: nat :| ReadBetween(NormalForm(text, r), s.start, s.end, NormalForm(text[s.start..s.end], r), f);
    HoldsBetween(text, NormalForm(text, r), s, NormalForm(text[s.start..s.end], r), f, matched);
  }

  lemma LocatedEnds(quote: string, text: string, r: Reading, min: real, s: Span)
    requires Proper(r) && Locates(quote, text, r, min, Some(s))
    ensures EndsRead(text, s.start, s.end) && s.start in StopsOf(text)
  {
    LocatedSpan(quote, text, r, min, s);
    if s.exact {
      ReadsEnds(text, r, s, Quoted(quote, r));
    } else {
      var k: nat, front :|
        0 < k <= |QuoteWords(quote, r)| && Reads(text, NormalForm(text, r), s, Part(QuoteWords(quote, r), k, front));
      ReadsEnds(text, r, s, Part(QuoteWords(quote, r), k, front));
    }
  }

  lemma LocatedAlone(quote: string, text: string, r: Reading, min: real, s: Span)
    requires Proper(r) && Locates(quote, text, r, min, Some(s))
    ensures s.start < s.end <= |text| && (ReadsAlone(text, s.start, s.end, r) <==> Uncut(text, s.start, s.end))
  {
    LocatedEnds(quote, text, r, min, s);
    StopReadsIff(text, s.start, s.end, r);
  }

  /** The source text a span delimits, cut out and read alone, holds the whole quote when the
      span is exact, else the beginning or the end of it that the coverage tells: unless a link
      has just one of the span's ends in its text. */
  lemma LocatedText(quote: string, text: string, r: Reading, min: real, s: Span)
    requires Proper(r) && Locates(quote, text, r, min, Some(s))
    ensures s.start < s.end <= |text|
    ensures Uncut(text, s.start, s.end) && s.exact ==>
              Occurs(NormalForm(text[s.start..s.end], r).chars, Quoted(quote, r))
    ensures Uncut(text, s.start, s.end) && !s.exact ==> exists k: nat, front ::
              0 < k <= |QuoteWords(quote, r)| && s.coverage == Share(k, |QuoteWords(quote, r)|)
              && Occurs(NormalForm(text[s.start..s.end], r).chars, Part(QuoteWords(quote, r), k, front))
  {
    LocatedSpan(quote, text, r, min, s);
    if Uncut(text, s.start, s.end) {
      LocatedAlone(quote, text, r, min, s);
      if s.exact {
        HoldsAlone(text, r, s, Quoted(quote, r));
      } else {
        var k: nat, front :|
          0 < k <= |QuoteWords(quote, r)| && s.coverage == Share(k, |QuoteWords(quote, r)|)
          && Reads(text, NormalForm(text, r), s, Part(QuoteWords(quote, r), k, front));
        HoldsAlone(text, r, s, Part(QuoteWords(quote, r), k, front));
      }
    }
  }

  // ----- A span that starts in a link and ends past it

  /** A reading that leaves case alone. */
  ghost predicate KeepsCase(r: Reading) {
    forall c :: r.lower(c) == [c]
  }

  /** A character read as it is, and a space only if it is the space. */
  ghost predicate ReadAsIs(r: Reading, c: char) {
    Emitter(r)(c) == [c] && Ligature(c) == "" && (IsBlank(c) <==> c == ' ')
  }

  lemma AsciiReadAsIs(r: Reading, c: char)
    requires KeepsCase(r) && ' ' <= c <= '~'
    ensures ReadAsIs(r, c)
  {
  }

  ghost predicate NoDoubleSpace(text: string) {
    forall k | 0 < k < |text| && text[k] == ' ' :: text[k - 1] != ' '
  }

  lemma {:induction false} StopsEverywhere(text: string, r: Reading, i: nat)
    requires i <= |text| && NoDoubleSpace(text) && forall k | 0 <= k < |text| :: ReadAsIs(r, text[k])
    ensures Stops(text, IsBlank, map[], i) == seq(|text| - i, k => i + k)
    decreases |text| - i
  {
    if i < |text| {
      assert Onward(text, IsBlank, map[], i) == i + 1;
      StopsEverywhere(text, r, i + 1);
    }
  }

  lemma {:induction false} ReadsItself(text: string, emit: char -> string, stops: seq<nat>, n: nat)
    requires n <= |stops| == |text| && forall k | 0 <= k < |text| :: stops[k] == k && emit(text[k]) == [text[k]]
    ensures ReadAt(text, emit, stops, n).chars == text[..n]
  {
    if n > 0 {
      ReadsItself(text, emit, stops, n - 1);
    }
  }

  /** A text without brackets, whose characters are read as they are, reads as itself. */
  lemma PlainText(text: string, r: Reading)
    requires NoDoubleSpace(text) && forall k | 0 <= k < |text| :: ReadAsIs(r, text[k]) && text[k] != '['
    ensures NormalForm(text, r).chars == text
  {
    NoneOpens(text, 0);
    StopsEverywhere(text, r, 0);
    ReadsItself(text, Emitter(r), StopsOf(text), |text|);
  }

  lemma {:induction false} NoneOpens(text: string, i: nat)
    requires i <= |text| && forall k | 0 <= k < |text| :: text[k] != '['
    ensures LinksFrom(text, i) == []
    decreases |text| - i
  {
    if i < |text| {
      NoneOpens(text, i + 1);
    }
  }

  /** The text is "[a b](u) c", the quote "a b c". */
  predicate CutInput(text: string, quote: string) {
    && |text| == 10 && |quote| == 5
    && text[0] == '[' && text[1] == 'a' && text[2] == ' ' && text[3] == 'b' && text[4] == ']' && text[5] == '('
    && text[6] == 'u' && text[7] == ')' && text[8] == ' ' && text[9] == 'c'
    && quote[0] == 'a' && quote[1] == ' ' && quote[2] == 'b' && quote[3] == ' ' && quote[4] == 'c'
  }

  lemma CutLinks(text: string, quote: string)
    requires CutInput(text, quote)
    ensures Links(text) == [Link(0, 4, 8)] && Skip(Links(text)) == map[0 := 1, 4 := 8]
  {
    assert TextEnd(text, 4) == 4 && TextEnd(text, 3) == 4 && TextEnd(text, 2) == 4 && TextEnd(text, 1) == 4;
    assert TargetEnd(text, 7) == 7 && TargetEnd(text, 6) == 7;
    assert LinkAt(text, 0) == Some(Link(0, 4, 8));
    assert LinksFrom(text, 10) == [] && LinksFrom(text, 9) == [] && LinksFrom(text, 8) == [];
    assert SkipFirst([Link(0, 4, 8)], 1) == map[0 := 1, 4 := 8];
  }

  /** A character that is no blank and starts no piece is a stop, and the next comes after it. */
  lemma StopAt(text: string, blank: char -> bool, skip: map<nat, nat>, i: nat, rest: seq<nat>)
    requires i < |text| && Skips(text, skip) && i !in skip && !blank(text[i]) && Stops(text, blank, skip, i + 1) == rest
    ensures Stops(text, blank, skip, i) == [i] + rest
  {
    StopsOn(text, blank, skip, i);
  }

  /** So is a blank before one that is none. */
  lemma StopAtBlank(text: string, blank: char -> bool, skip: map<nat, nat>, i: nat, rest: seq<nat>)
    requires i + 1 < |text| && Skips(text, skip) && i !in skip && blank(text[i])
    requires !blank(text[i + 1]) && Stops(text, blank, skip, i + 1) == rest
    ensures Stops(text, blank, skip, i) == [i] + rest
  {
    StopsOn(text, blank, skip, i);
    assert BlankEnd(text, blank, skip, i + 1) == i + 1;
  }

  lemma SkipAt(text: string, blank: char -> bool, skip: map<nat, nat>, i: nat, rest: seq<nat>)
    requires i < |text| && Skips(text, skip) && i in skip && Stops(text, blank, skip, skip[i]) == rest
    ensures Stops(text, blank, skip, i) == rest
  {
    StopsOn(text, blank, skip, i);
  }

  lemma CutStopsAfter(text: string, blank: char -> bool, skip: map<nat, nat>)
    requires |text| == 10 && skip == map[0 := 1, 4 := 8]
    requires !blank(text[9]) && blank(text[8])
    ensures Skips(text, skip) && Stops(text, blank, skip, 4) == [8, 9]
  {
    StopAt(text, blank, skip, 9, []);
    StopAtBlank(text, blank, skip, 8, [9]);
    SkipAt(text, blank, skip, 4, [8, 9]);
  }

  lemma CutStops(text: string, blank: char -> bool, skip: map<nat, nat>)
    requires |text| == 10 && skip == map[0 := 1, 4 := 8]
    requires !blank(text[1]) && !blank(text[3]) && !blank(text[9])
    requires blank(text[2]) && blank(text[8])
    ensures Skips(text, skip) && Stops(text, blank, skip, 0) == [1, 2, 3, 8, 9]
  {
    CutStopsAfter(text, blank, skip);
    StopAt(text, blank, skip, 3, [8, 9]);
    StopAtBlank(text, blank, skip, 2, [3, 8, 9]);
    StopAt(text, blank, skip, 1, [2, 3, 8, 9]);
    SkipAt(text, blank, skip, 0, [1, 2, 3, 8, 9]);
  }

  lemma CutNorm(text: string, quote: string, emit: char -> string, stops: seq<nat>)
    requires CutInput(text, quote) && stops == [1, 2, 3, 8, 9]
    requires forall k | 0 <= k < |text| :: emit(text[k]) == [text[k]]
    ensures ReadAt(text, emit, stops, 5) == Norm(quote, stops)
  {
    assert ReadAt(text, emit, stops, 1) == Norm(quote[..1], [1]);
    assert ReadAt(text, emit, stops, 2) == Norm(quote[..2], [1, 2]);
    assert ReadAt(text, emit, stops, 3) == Norm(quote[..3], [1, 2, 3]);
    assert ReadAt(text, emit, stops, 4) == Norm(quote[..4], [1, 2, 3, 8]);
  }

  lemma AsciiReads(text: string, r: Reading)
    requires KeepsCase(r) && forall k | 0 <= k < |text| :: ' ' <= text[k] <= '~'
    ensures forall k | 0 <= k < |text| :: ReadAsIs(r, text[k])
  {
    forall k | 0 <= k < |text|
      ensures ReadAsIs(r, text[k])
    {
      AsciiReadAsIs(r, text[k]);
    }
  }

  lemma CutReading(text: string, quote: string, r: Reading)
    requires KeepsCase(r) && CutInput(text, quote)
    ensures NormalForm(text, r) == Norm(quote, [1, 2, 3, 8, 9])
  {
    CutLinks(text, quote);
    AsciiReads(text, r);
    assert ReadAsIs(r, text[1]) && ReadAsIs(r, text[2]) && ReadAsIs(r, text[3]);
    assert ReadAsIs(r, text[8]) && ReadAsIs(r, text[9]);
    CutStops(text, IsBlank, Skip(Links(text)));
    CutNorm(text, quote, Emitter(r), StopsOf(text));
  }

  lemma AsciiText(text: string, r: Reading)
    requires KeepsCase(r) && NoDoubleSpace(text) && forall k | 0 <= k < |text| :: ' ' <= text[k] <= '~' && text[k] != '['
    ensures NormalForm(text, r).chars == text
  {
    AsciiReads(text, r);
    PlainText(text, r);
  }

  lemma CutSlice(text: string, quote: string)
    requires CutInput(text, quote)
    ensures !Occurs(text[1..10], quote)
  {
    var slice := text[1..10];
    forall p: nat | p <= |slice|
      ensures !OccursAt(slice, quote, p)
    {
      if p + 5 <= |slice| {
        assert slice[p..p + 5][1] == slice[p + 1] && slice[p..p + 5][3] == slice[p + 3];
      }
    }
  }

  lemma CutQuote(quote: string)
    requires |quote| == 5 && forall k | 0 <= k < 5 :: quote[k] == ' ' <==> k == 1 || k == 3
    ensures Trimmed(quote) == quote && |TextOf(quote, Words(quote, 0))| == 3
  {
    assert WordEnd(quote, 4) == 5 && WordEnd(quote, 2) == 3 && WordEnd(quote, 0) == 1;
    assert Words(quote, 4) == [(4, 5)] && Words(quote, 2) == [(2, 3), (4, 5)];
    assert Words(quote, 0) == [(0, 1), (2, 3), (4, 5)];
    TextOfWords(quote, Words(quote, 0));
  }

  lemma CutQuoted(text: string, quote: string, r: Reading)
    requires KeepsCase(r) && CutInput(text, quote)
    ensures Quoted(quote, r) == quote && |QuoteWords(quote, r)| == 3
  {
    AsciiText(quote, r);
    CutQuote(quote);
  }

  lemma CutSliceReads(text: string, quote: string, r: Reading)
    requires KeepsCase(r) && CutInput(text, quote)
    ensures !Occurs(NormalForm(text[1..10], r).chars, quote)
  {
    AsciiText(text[1..10], r);
    CutSlice(text, quote);
  }

  lemma CutLocated(text: string, quote: string, n: Norm, words: seq<string>, min: real)
    requires |text| == 10 && |quote| == 5 && n == Norm(quote, [1, 2, 3, 8, 9]) && |words| == 3
    ensures LocatesIn(text, n, quote, words, min, Some(Span(1, 10, 1.0, true)))
  {
    assert OccursAt(n.chars, quote, 0) && FirstAt(n.chars, quote, 0);
    assert SpanAt(text, n, 0, |quote|, 1.0, true) == Span(1, 10, 1.0, true);
  }

  /** The words are found, the span is the whole quote's, and the words do not occur in what it
      delimits: the link's closing bracket and its target come between them. */
  lemma CutSpan(text: string, quote: string, r: Reading, min: real)
    requires KeepsCase(r) && CutInput(text, quote)
    ensures Locates(quote, text, r, min, Some(Span(1, 10, 1.0, true))) && !Uncut(text, 1, 10)
    ensures Quoted(quote, r) == quote && !Occurs(NormalForm(text[1..10], r).chars, quote)
  {
    CutReading(text, quote, r);
    CutQuoted(text, quote, r);
    CutLocated(text, quote, NormalForm(text, r), QuoteWords(quote, r), min);
    CutSliceReads(text, quote, r);
    CutLinks(text, quote);
    assert Link(0, 4, 8) in Links(text);
  }
}
