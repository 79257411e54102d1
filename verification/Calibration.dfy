/**
 Isotonic calibration of a detector's scores (pipeline/calibration.py).

 `IsotonicBlocks` is the pool-adjacent-violators loop.  Its contract, `IsFit`,
 does not mention the loop: it says which lists of blocks are the fit, and
 `FitIsUnique` shows that exactly one list is, whatever order the points came in.
 Scores and rates are exact reals, counts are naturals.
 */
module Calibration {
  import opened Common

  datatype Point = Point(score: real, accepted: bool)

  datatype Tally = Tally(n: nat, accepted: nat)

  /** One step of the fit: the scores in [lo, hi] share one rate. */
  datatype Block = Block(lo: real, hi: real, n: nat, accepted: nat) {
    function Rate(): real
      requires n > 0
    {
      accepted as real / n as real
    }
  }

  // ----- Counting points by score

  ghost predicate Observed(points: seq<Point>, s: real) {
    exists i | 0 <= i < |points| :: points[i].score == s
  }

  /** How many points have a score in [lo, hi]. */
  ghost function Count(points: seq<Point>, lo: real, hi: real): nat {
    if points == [] then 0
    else Count(points[..|points| - 1], lo, hi) + (if lo <= Last(points).score <= hi then 1 else 0)
  }

  /** How many accepted points have a score in [lo, hi]. */
  ghost function Hits(points: seq<Point>, lo: real, hi: real): (h: nat)
    ensures h <= Count(points, lo, hi)
  {
    if points == [] then 0
    else Hits(points[..|points| - 1], lo, hi)
         + (if lo <= Last(points).score <= hi && Last(points).accepted then 1 else 0)
  }

  /** No point has a score strictly between t and u. */
  ghost predicate Gap(points: seq<Point>, t: real, u: real) {
    t < u && forall i | 0 <= i < |points| :: !(t < points[i].score < u)
  }

  lemma {:induction false} CountSplits(points: seq<Point>, lo: real, t: real, u: real, hi: real)
    requires Gap(points, t, u) && lo <= u && t <= hi
    ensures Count(points, lo, hi) == Count(points, lo, t) + Count(points, u, hi)
    ensures Hits(points, lo, hi) == Hits(points, lo, t) + Hits(points, u, hi)
  {
    if points != [] {
      assert Last(points) == points[|points| - 1];
      CountSplits(points[..|points| - 1], lo, t, u, hi);
    }
  }

  lemma {:induction false} ObservedCounts(points: seq<Point>, lo: real, s: real, hi: real)
    requires Observed(points, s) && lo <= s <= hi
    ensures Count(points, lo, hi) > 0
  {
    if Last(points).score != s {
      var i :| 0 <= i < |points| && points[i].score == s;
      assert points[..|points| - 1][i].score == s;
      ObservedCounts(points[..|points| - 1], lo, s, hi);
    }
  }

  // ----- What a fit is

  /** `b` holds all the points between two observed scores, and every proper
      prefix of its scores has an accept rate strictly above the block's own. */
  ghost predicate Pooled(points: seq<Point>, b: Block) {
    && b.lo <= b.hi && Observed(points, b.lo) && Observed(points, b.hi)
    && b.n == Count(points, b.lo, b.hi) > 0 && b.accepted == Hits(points, b.lo, b.hi)
    && forall t | Observed(points, t) && b.lo <= t < b.hi ::
         Hits(points, b.lo, t) * b.n > b.accepted * Count(points, b.lo, t)
  }

  predicate RateAtMost(a: Block, b: Block) {
    a.accepted * b.n <= b.accepted * a.n
  }

  /** Pooled blocks, one right after the other in the order of the scores. */
  ghost predicate Chain(points: seq<Point>, blocks: seq<Block>) {
    && (forall i | 0 <= i < |blocks| :: Pooled(points, blocks[i]))
    && (forall i | 0 <= i < |blocks| - 1 :: Gap(points, blocks[i].hi, blocks[i + 1].lo))
  }

  ghost predicate Rising(blocks: seq<Block>) {
    forall i | 0 <= i < |blocks| - 1 :: RateAtMost(blocks[i], blocks[i + 1])
  }

  ghost predicate Covers(points: seq<Point>, blocks: seq<Block>) {
    forall s | Observed(points, s) :: blocks != [] && blocks[0].lo <= s <= Last(blocks).hi
  }

  /** `blocks` is the isotonic fit of `points`. */
  ghost predicate IsFit(points: seq<Point>, blocks: seq<Block>) {
    Chain(points, blocks) && Rising(blocks) && Covers(points, blocks)
  }

  // ----- The pool-adjacent-violators loop

  predicate Increasing(ss: seq<real>) {
    forall i, j | 0 <= i < j < |ss| :: ss[i] < ss[j]
  }

  function InsertScore(ss: seq<real>, x: real): (r: seq<real>)
    requires Increasing(ss)
    ensures Increasing(r)
    ensures forall s :: s in r <==> s in ss || s == x
  {
    if ss == [] || x < ss[0] then [x] + ss
    else if x == ss[0] then ss
    else
      var rest := InsertScore(ss[1..], x);
      assert forall j | 0 <= j < |rest| :: rest[j] in rest && ss[0] < rest[j];
      [ss[0]] + rest
  }

  /** The scores of the points, each once, in increasing order: the sorted keys of the tied counts. */
  function SortedScores(points: seq<Point>): (ss: seq<real>)
    ensures Increasing(ss)
    ensures forall s :: s in ss <==> Observed(points, s)
  {
    if points == [] then []
    else
      var shorter := points[..|points| - 1];
      assert forall s :: Observed(points, s) <==> Observed(shorter, s) || s == Last(points).score by {
        OnePointMore(points, |points| - 1);
        assert points[..|points|] == points;
      }
      InsertScore(SortedScores(shorter), Last(points).score)
  }

  /** The counts of the points at each score: ties are one weighted point. */
  method TiedCounts(points: seq<Point>) returns (tied: map<real, Tally>)
    ensures forall s :: s in tied <==> Observed(points, s)
    ensures forall s | s in tied :: tied[s] == Tally(Count(points, s, s), Hits(points, s, s))
  {
    tied := map[];
    for i := 0 to |points|
      invariant forall s :: s in tied <==> Observed(points[..i], s)
      invariant forall s | s in tied ::
          tied[s] == Tally(Count(points[..i], s, s), Hits(points[..i], s, s))
    {
      var p := points[i];
      var counts := if p.score in tied then tied[p.score] else Tally(0, 0);
      tied := tied[p.score := Tally(counts.n + 1, counts.accepted + if p.accepted then 1 else 0)];
      OnePointMore(points, i);
    }
    assert points[..|points|] == points;
  }

  /** Merge the last block back while it is out of order with the one before. */
  method PoolBack(ghost points: seq<Point>, stack: seq<Block>) returns (blocks: seq<Block>)
    requires stack != [] && Chain(points, stack) && Rising(stack[..|stack| - 1])
    ensures blocks != [] && blocks[0].lo == stack[0].lo && Last(blocks).hi == Last(stack).hi
    ensures Chain(points, blocks) && Rising(blocks)
  {
    blocks := stack;
    while |blocks| >= 2
      invariant blocks != [] && blocks[0].lo == stack[0].lo && Last(blocks).hi == Last(stack).hi
      invariant Chain(points, blocks) && Rising(blocks[..|blocks| - 1])
      decreases |blocks|
    {
      var prev, last := blocks[|blocks| - 2], blocks[|blocks| - 1];
      if prev.accepted * last.n <= last.accepted * prev.n {
        RisingExtends(blocks);
        return;
      }
      PoolsMerge(points, prev, last);
      ghost var before := blocks;
      blocks := blocks[..|blocks| - 2]
                + [Block(prev.lo, last.hi, prev.n + last.n, prev.accepted + last.accepted)];
      MergedChain(points, before, blocks);
    }
  }

  method IsotonicBlocks(points: seq<Point>) returns (blocks: seq<Block>)
    ensures IsFit(points, blocks)
  {
    var tied := TiedCounts(points);
    var scores := SortedScores(points);
    blocks := [];
    for k := 0 to |scores|
      invariant Chain(points, blocks) && Rising(blocks)
      invariant if k == 0 then blocks == []
                else blocks != [] && blocks[0].lo == scores[0] && Last(blocks).hi == scores[k - 1]
    {
      var score := scores[k];
      SinglePool(points, score);
      NextScore(points, scores, k);
      var stack := blocks + [Block(score, score, tied[score].n, tied[score].accepted)];
      Stacked(points, blocks, Last(stack), stack);
      blocks := PoolBack(points, stack);
    }
    forall s | Observed(points, s)
      ensures blocks != [] && blocks[0].lo <= s <= Last(blocks).hi
    {
      assert s in scores;
    }
  }

  lemma Stacked(points: seq<Point>, blocks: seq<Block>, b: Block, stack: seq<Block>)
    requires stack == blocks + [b]
    requires Chain(points, blocks) && Rising(blocks) && Pooled(points, b)
    requires blocks != [] ==> Gap(points, Last(blocks).hi, b.lo)
    ensures Chain(points, stack) && Rising(stack[..|stack| - 1])
  {
    assert stack[..|stack| - 1] == blocks;
    forall i | 0 <= i < |stack| - 1
      ensures Gap(points, stack[i].hi, stack[i + 1].lo)
    {
      if i < |blocks| - 1 {
        assert stack[i] == blocks[i] && stack[i + 1] == blocks[i + 1];
      }
    }
  }

  lemma RisingExtends(blocks: seq<Block>)
    requires |blocks| >= 2 && Rising(blocks[..|blocks| - 1])
    requires RateAtMost(blocks[|blocks| - 2], blocks[|blocks| - 1])
    ensures Rising(blocks)
  {
    forall i | 0 <= i < |blocks| - 1
      ensures RateAtMost(blocks[i], blocks[i + 1])
    {
      if i < |blocks| - 2 {
        assert blocks[..|blocks| - 1][i] == blocks[i] && blocks[..|blocks| - 1][i + 1] == blocks[i + 1];
      }
    }
  }

  /** Replacing the last two blocks by their pool leaves a chain, rising but for its last block. */
  lemma MergedChain(points: seq<Point>, before: seq<Block>, after: seq<Block>)
    requires |before| >= 2 && Chain(points, before) && Rising(before[..|before| - 1])
    requires |after| == |before| - 1 && after[..|after| - 1] == before[..|before| - 2]
    requires Last(after).lo == before[|before| - 2].lo && Last(after).hi == Last(before).hi
    requires Pooled(points, Last(after))
    ensures Chain(points, after) && Rising(after[..|after| - 1])
    ensures after[0].lo == before[0].lo
  {
    assert forall i | 0 <= i < |after| - 1 :: after[i] == after[..|after| - 1][i] == before[i];
    forall i | 0 <= i < |after| - 1
      ensures Gap(points, after[i].hi, after[i + 1].lo)
    {
      assert Gap(points, before[i].hi, before[i + 1].lo);
    }
    var head := after[..|after| - 1];
    forall i | 0 <= i < |head| - 1
      ensures RateAtMost(head[i], head[i + 1])
    {
      var rising := before[..|before| - 1];
      assert RateAtMost(rising[i], rising[i + 1]);
    }
  }

  /** A prefix one point longer counts that point at its own score only. */
  lemma OnePointMore(points: seq<Point>, i: nat)
    requires i < |points|
    ensures forall s :: Observed(points[..i + 1], s) <==> Observed(points[..i], s) || s == points[i].score
    ensures forall s :: Count(points[..i + 1], s, s)
                        == Count(points[..i], s, s) + (if s == points[i].score then 1 else 0)
    ensures forall s :: Hits(points[..i + 1], s, s)
                        == Hits(points[..i], s, s) + (if s == points[i].score && points[i].accepted then 1 else 0)
    ensures !Observed(points[..i], points[i].score) ==> Count(points[..i], points[i].score, points[i].score) == 0
  {
    var longer := points[..i + 1];
    assert longer[..|longer| - 1] == points[..i];
    assert longer[i] == points[i];
    assert forall j | 0 <= j < i :: points[..i][j] == longer[j];
    forall s
      ensures Observed(longer, s) <==> Observed(points[..i], s) || s == points[i].score
    {
      if Observed(points[..i], s) {
        var j :| 0 <= j < i && points[..i][j].score == s;
        assert longer[j].score == s;
      }
    }
    if !Observed(points[..i], points[i].score) {
      UnobservedCounts(points[..i], points[i].score);
    }
  }

  lemma {:induction false} UnobservedCounts(points: seq<Point>, s: real)
    requires !Observed(points, s)
    ensures Count(points, s, s) == 0
  {
    if points != [] {
      var shorter := points[..|points| - 1];
      assert forall i | 0 <= i < |shorter| :: shorter[i] == points[i];
      UnobservedCounts(shorter, s);
    }
  }

  lemma SinglePool(points: seq<Point>, s: real)
    requires Observed(points, s)
    ensures Pooled(points, Block(s, s, Count(points, s, s), Hits(points, s, s)))
  {
    ObservedCounts(points, s, s, s);
  }

  /** Nothing is observed between two neighbours of the sorted scores. */
  lemma NextScore(points: seq<Point>, scores: seq<real>, k: nat)
    requires Increasing(scores) && k < |scores|
    requires forall s :: s in scores <==> Observed(points, s)
    ensures Observed(points, scores[k])
    ensures k > 0 ==> Gap(points, scores[k - 1], scores[k])
  {
    assert scores[k] in scores;
    if k > 0 {
      forall i | 0 <= i < |points|
        ensures !(scores[k - 1] < points[i].score < scores[k])
      {
        assert Observed(points, points[i].score);
        var j :| 0 <= j < |scores| && scores[j] == points[i].score;
        assert j <= k - 1 || k <= j;
      }
    }
  }

  /** Merging two neighbours whose rates are out of order keeps the prefix property. */
  lemma PoolsMerge(points: seq<Point>, a: Block, b: Block)
    requires Pooled(points, a) && Pooled(points, b) && Gap(points, a.hi, b.lo) && !RateAtMost(a, b)
    ensures Pooled(points, Block(a.lo, b.hi, a.n + b.n, a.accepted + b.accepted))
  {
    CountSplits(points, a.lo, a.hi, b.lo, b.hi);
    forall t | Observed(points, t) && a.lo <= t < b.hi
      ensures Hits(points, a.lo, t) * (a.n + b.n) > (a.accepted + b.accepted) * Count(points, a.lo, t)
    {
      MergedPrefix(points, a, b, t);
    }
  }

  lemma MergedPrefix(points: seq<Point>, a: Block, b: Block, t: real)
    requires Pooled(points, a) && Pooled(points, b) && Gap(points, a.hi, b.lo) && !RateAtMost(a, b)
    requires Observed(points, t) && a.lo <= t < b.hi
    ensures Hits(points, a.lo, t) * (a.n + b.n) > (a.accepted + b.accepted) * Count(points, a.lo, t)
  {
    if t < a.hi {
      MergedHead(points, a, b, t);
    } else if t == a.hi {
      MergedJoint(points, a, b);
    } else {
      MergedTail(points, a, b, t);
    }
  }

  lemma MergedHead(points: seq<Point>, a: Block, b: Block, t: real)
    requires Pooled(points, a) && b.n > 0 && !RateAtMost(a, b)
    requires Observed(points, t) && a.lo <= t < a.hi
    ensures Hits(points, a.lo, t) * (a.n + b.n) > (a.accepted + b.accepted) * Count(points, a.lo, t)
  {
    PrefixOfHigher(Hits(points, a.lo, t), Count(points, a.lo, t), a.accepted, a.n, b.accepted, b.n);
  }

  lemma MergedJoint(points: seq<Point>, a: Block, b: Block)
    requires Pooled(points, a) && !RateAtMost(a, b)
    ensures Hits(points, a.lo, a.hi) * (a.n + b.n) > (a.accepted + b.accepted) * Count(points, a.lo, a.hi)
  {
    FirstAbovePool(a.accepted, a.n, b.accepted, b.n);
  }

  lemma MergedTail(points: seq<Point>, a: Block, b: Block, t: real)
    requires Pooled(points, a) && Pooled(points, b) && Gap(points, a.hi, b.lo) && !RateAtMost(a, b)
    requires Observed(points, t) && a.hi < t < b.hi
    ensures Hits(points, a.lo, t) * (a.n + b.n) > (a.accepted + b.accepted) * Count(points, a.lo, t)
  {
    var i :| 0 <= i < |points| && points[i].score == t;
    CountSplits(points, a.lo, a.hi, b.lo, t);
    PrefixIntoLower(points, a, b, t);
  }

  lemma Distribute(x: int, y: int, z: int)
    ensures x * (y + z) == x * y + x * z == (y + z) * x
  {
  }

  lemma Scaled(x: int, y: int, n: int)
    requires n > 0
    ensures x < y <==> x * n < y * n
    ensures x <= y <==> x * n <= y * n
  {
    Distribute(n, x, y - x);
    Distribute(n, y, x - y);
  }

  /** The higher of two rates is above the pooled rate. */
  lemma FirstAbovePool(hA: nat, nA: nat, hB: nat, nB: nat)
    requires hA * nB > hB * nA
    ensures hA * (nA + nB) > (hA + hB) * nA
  {
    Distribute(hA, nA, nB);
    Distribute(nA, hA, hB);
  }

  /** h/c above hA/nA, which is above hB/nB: h/c is above the pooled rate. */
  lemma PrefixOfHigher(h: nat, c: nat, hA: nat, nA: nat, hB: nat, nB: nat)
    requires nA > 0 && nB > 0
    requires h * nA > hA * c
    requires hA * nB > hB * nA
    ensures h * (nA + nB) > (hA + hB) * c
  {
    assert h * nB >= hB * c by {
      Scaled(hA * c, h * nA, nB);
      if c > 0 { Scaled(hB * nA, hA * nB, c); }
      Reorder(hB, c, nA);
      Reorder(hA, nB, c);
      Reorder(h, nB, nA);
      Scaled(hB * c, h * nB, nA);
    }
    Distribute(h, nA, nB);
    Distribute(c, hA, hB);
  }

  /** The rest of the second block is below its rate, so the first block with the
      start of the second is above the pooled rate. */
  lemma PrefixIntoLower(points: seq<Point>, a: Block, b: Block, t: real)
    requires a.n > 0 && !RateAtMost(a, b)
    requires Pooled(points, b) && Observed(points, t) && b.lo <= t < b.hi
    ensures (a.accepted + Hits(points, b.lo, t)) * (a.n + b.n)
            > (a.accepted + b.accepted) * (a.n + Count(points, b.lo, t))
  {
    RestIsCounted(points, b.lo, t, b.hi);
    PrefixBeforeRest(Hits(points, b.lo, t), Count(points, b.lo, t), a.accepted, a.n, b.accepted, b.n);
  }

  lemma PrefixBeforeRest(h: nat, c: nat, hA: nat, nA: nat, hB: nat, nB: nat)
    requires nA > 0 && h <= hB && c < nB
    requires h * nB > hB * c
    requires hA * nB > hB * nA
    ensures (hA + h) * (nA + nB) > (hA + hB) * (nA + c)
  {
    var rh, rc := hB - h, nB - c;
    assert rh * nB < hB * rc by {
      Distribute(nB, h, rh);
      Distribute(hB, c, rc);
    }
    RatioChain(rh, rc, hA, nA, hB, nB);
    assert rh * (nA + nB) < (hA + hB) * rc by {
      Distribute(rh, nA, nB);
      Distribute(rc, hA, hB);
    }
    Distribute(nA + nB, hA + h, rh);
    Distribute(hA + hB, nA + c, rc);
  }

  /** rh/rc below hB/nB, which is below hA/nA. */
  lemma RatioChain(rh: nat, rc: nat, hA: nat, nA: nat, hB: nat, nB: nat)
    requires nA > 0 && nB > 0 && rc > 0
    requires rh * nB < hB * rc && hB * nA < hA * nB
    ensures rh * nA <= hA * rc
  {
    Scaled(rh * nB, hB * rc, nA);
    Scaled(hB * nA, hA * nB, rc);
    Reorder(rh, nA, nB);
    Reorder(hB, rc, nA);
    Reorder(hA, nB, rc);
    Scaled(rh * nA, hA * rc, nB);
  }

  lemma Reorder(x: int, y: int, z: int)
    ensures (x * y) * z == (x * z) * y
  {
  }

  lemma {:induction false} RestIsCounted(points: seq<Point>, lo: real, t: real, hi: real)
    requires lo <= t <= hi
    ensures Count(points, lo, t) <= Count(points, lo, hi) && Hits(points, lo, t) <= Hits(points, lo, hi)
    ensures t < hi && Observed(points, hi) ==> Count(points, lo, t) < Count(points, lo, hi)
  {
    if points != [] {
      var shorter := points[..|points| - 1];
      RestIsCounted(shorter, lo, t, hi);
      if Observed(points, hi) && Last(points).score != hi {
        var i :| 0 <= i < |points| && points[i].score == hi;
        assert shorter[i].score == hi;
      }
    }
  }
}
