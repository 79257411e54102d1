/**
 What the isotonic fit is for: it is unique, it is the nondecreasing step function
 closest to the decisions, and the cutoff read off it is safe
 (pipeline/calibration.py:77-231).
 */
module CalibrationFit {
  import opened Common
  import opened Calibration

  // ----- The fit is unique

  /** From a block on, no run of scores has an accept rate under the block's own. */
  lemma {:induction false} TailRate(points: seq<Point>, blocks: seq<Block>, i: nat, t: real)
    requires Chain(points, blocks) && Rising(blocks) && i < |blocks|
    requires Observed(points, t) && blocks[i].lo <= t <= Last(blocks).hi
    ensures Hits(points, blocks[i].lo, t) * blocks[i].n >= blocks[i].accepted * Count(points, blocks[i].lo, t)
    decreases |blocks| - i
  {
    var b := blocks[i];
    if t > b.hi {
      var next := blocks[i + 1];
      assert next.lo <= t by {
        var k :| 0 <= k < |points| && points[k].score == t;
      }
      TailRate(points, blocks, i + 1, t);
      CountSplits(points, b.lo, b.hi, next.lo, t);
      var h, c := Hits(points, next.lo, t), Count(points, next.lo, t);
      RateAbove(h, c, next.accepted, next.n, b.accepted, b.n);
      Distribute(b.n, b.accepted, h);
      Distribute(b.accepted, b.n, c);
    }
  }

  lemma RateAbove(h: nat, c: nat, hB: nat, nB: nat, hA: nat, nA: nat)
    requires nB > 0
    requires h * nB >= hB * c && hA * nB <= hB * nA
    ensures h * nA >= hA * c
  {
    if nA > 0 { Scaled(hB * c, h * nB, nA); }
    if c > 0 { Scaled(hA * nB, hB * nA, c); }
    Reorder(h, nA, nB);
    Reorder(hB, c, nA);
    Reorder(hA, nB, c);
    Scaled(hA * c, h * nA, nB);
  }

  lemma {:induction false} BlocksOrdered(points: seq<Point>, blocks: seq<Block>, i: nat, j: nat)
    requires Chain(points, blocks) && i < j < |blocks|
    ensures blocks[i].hi < blocks[j].lo
  {
    assert Gap(points, blocks[j - 1].hi, blocks[j].lo);
    assert Pooled(points, blocks[j - 1]);
    if i < j - 1 {
      BlocksOrdered(points, blocks, i, j - 1);
    }
  }

  /** Two fits that agree so far agree on the next block. */
  lemma NextBlockAgrees(points: seq<Point>, x: seq<Block>, y: seq<Block>, i: nat)
    requires IsFit(points, x) && IsFit(points, y)
    requires i < |x| && i < |y| && x[..i] == y[..i]
    ensures x[i] == y[i]
  {
    assert Pooled(points, x[i]) && Pooled(points, y[i]);
    if i == 0 {
      assert x[0].lo <= y[0].lo && y[0].lo <= x[0].lo;
    } else {
      assert x[i - 1] == x[..i][i - 1] == y[i - 1];
      FirstAfter(points, x[i - 1].hi, x[i].lo, y[i].lo);
      FirstAfter(points, x[i - 1].hi, y[i].lo, x[i].lo);
    }
    EndsNoLater(points, x, y, i);
    EndsNoLater(points, y, x, i);
  }

  lemma FirstAfter(points: seq<Point>, t: real, u: real, s: real)
    requires Gap(points, t, u) && Observed(points, s) && t < s
    ensures u <= s
  {
    var k :| 0 <= k < |points| && points[k].score == s;
  }

  lemma EndsNoLater(points: seq<Point>, x: seq<Block>, y: seq<Block>, i: nat)
    requires IsFit(points, x) && IsFit(points, y)
    requires i < |x| && i < |y| && x[i].lo == y[i].lo
    ensures y[i].hi <= x[i].hi
  {
    assert Pooled(points, x[i]) && Pooled(points, y[i]);
    TailRate(points, x, i, y[i].hi);
  }

  lemma MoreToCome(points: seq<Point>, x: seq<Block>, y: seq<Block>, i: nat)
    requires IsFit(points, x) && IsFit(points, y)
    requires i <= |x| && i < |y| && x[..i] == y[..i]
    ensures i < |x|
  {
    assert Pooled(points, y[i]);
    if i > 0 {
      BlocksOrdered(points, y, i - 1, i);
      assert x[i - 1] == x[..i][i - 1] == y[i - 1];
    }
  }

  lemma OneMore(x: seq<Block>, y: seq<Block>, i: nat)
    requires i < |x| && i < |y| && x[..i] == y[..i] && x[i] == y[i]
    ensures x[..i + 1] == y[..i + 1]
  {
    assert x[..i + 1] == x[..i] + [x[i]];
    assert y[..i + 1] == y[..i] + [y[i]];
  }

  lemma FitsAgreeOn(points: seq<Point>, x: seq<Block>, y: seq<Block>, i: nat)
    requires IsFit(points, x) && IsFit(points, y) && i < |y| && i <= |x| && x[..i] == y[..i]
    ensures i + 1 <= |x| && x[..i + 1] == y[..i + 1]
  {
    MoreToCome(points, x, y, i);
    NextBlockAgrees(points, x, y, i);
    OneMore(x, y, i);
  }

  lemma {:induction false} FitsAgreeUpTo(points: seq<Point>, x: seq<Block>, y: seq<Block>, i: nat)
    requires IsFit(points, x) && IsFit(points, y) && i <= |y|
    ensures i <= |x| && x[..i] == y[..i]
  {
    if i > 0 {
      FitsAgreeUpTo(points, x, y, i - 1);
      FitsAgreeOn(points, x, y, i - 1);
    }
  }

  /** The blocks depend only on the multiset of points. */
  lemma FitIsUnique(points: seq<Point>, again: seq<Point>, x: seq<Block>, y: seq<Block>)
    requires multiset(points) == multiset(again)
    requires IsFit(points, x) && IsFit(again, y)
    ensures x == y
  {
    SamePoints(points, again);
    assert IsFit(points, y) by {
      forall i | 0 <= i < |y|
        ensures Pooled(points, y[i])
      {
        assert Pooled(again, y[i]);
      }
      forall i | 0 <= i < |y| - 1
        ensures Gap(points, y[i].hi, y[i + 1].lo)
      {
        SameGap(points, again, y[i].hi, y[i + 1].lo);
      }
    }
    FitsAgreeUpTo(points, x, y, |y|);
    FitsAgreeUpTo(points, y, x, |x|);
    assert x[..|x|] == x && y[..|y|] == y;
  }

  lemma SameGap(points: seq<Point>, again: seq<Point>, t: real, u: real)
    requires multiset(points) == multiset(again) && Gap(again, t, u)
    ensures Gap(points, t, u)
  {
    forall i | 0 <= i < |points|
      ensures !(t < points[i].score < u)
    {
      assert points[i] in multiset(again);
    }
  }

  lemma {:induction false} CountJoins(a: seq<Point>, b: seq<Point>, lo: real, hi: real)
    ensures Count(a + b, lo, hi) == Count(a, lo, hi) + Count(b, lo, hi)
    ensures Hits(a + b, lo, hi) == Hits(a, lo, hi) + Hits(b, lo, hi)
  {
    if b == [] {
      assert a + b == a;
    } else {
      CountJoins(a, b[..|b| - 1], lo, hi);
      assert (a + b)[..|a + b| - 1] == a + b[..|b| - 1];
    }
  }

  lemma CountAround(points: seq<Point>, k: nat, lo: real, hi: real)
    requires k < |points|
    ensures var rest := points[..k] + points[k + 1..];
            && Count(points, lo, hi) == Count(rest, lo, hi) + Count([points[k]], lo, hi)
            && Hits(points, lo, hi) == Hits(rest, lo, hi) + Hits([points[k]], lo, hi)
            && multiset(points) == multiset(rest) + multiset{points[k]}
  {
    var p := [points[k]];
    assert points == points[..k] + (p + points[k + 1..]);
    CountJoins(points[..k], p + points[k + 1..], lo, hi);
    CountJoins(p, points[k + 1..], lo, hi);
    CountJoins(points[..k], points[k + 1..], lo, hi);
  }

  lemma OneLess(points: seq<Point>, again: seq<Point>, fewer: seq<Point>)
    requires points != [] && multiset(points) == multiset(again) == multiset(fewer) + multiset{points[0]}
    ensures multiset(points[1..]) == multiset(fewer)
  {
    assert points == [points[0]] + points[1..];
    var rest, first := multiset(points[1..]), multiset{points[0]};
    assert multiset(points) == first + rest;
    assert rest == multiset(points) - first;
    assert multiset(fewer) == multiset(points) - first;
  }

  /** Where the first of the points is among the others, and what is left without it. */
  lemma TakeOut(points: seq<Point>, again: seq<Point>) returns (k: nat, fewer: seq<Point>)
    requires points != [] && multiset(points) == multiset(again)
    ensures k < |again| && again[k] == points[0] && fewer == again[..k] + again[k + 1..]
    ensures multiset(points[1..]) == multiset(fewer)
  {
    assert points[0] in multiset(again);
    k :| 0 <= k < |again| && again[k] == points[0];
    fewer := again[..k] + again[k + 1..];
    CountAround(again, k, 0.0, 0.0);
    OneLess(points, again, fewer);
  }

  lemma {:induction false} SameCounts(points: seq<Point>, again: seq<Point>, lo: real, hi: real)
    requires multiset(points) == multiset(again)
    ensures Count(points, lo, hi) == Count(again, lo, hi)
    ensures Hits(points, lo, hi) == Hits(again, lo, hi)
    decreases |points|
  {
    if points == [] {
      assert |multiset(again)| == 0;
    } else {
      var k, fewer := TakeOut(points, again);
      CountAround(points, 0, lo, hi);
      CountAround(again, k, lo, hi);
      assert points[..0] + points[1..] == points[1..];
      SameCounts(points[1..], fewer, lo, hi);
    }
  }

  lemma SamePoints(points: seq<Point>, again: seq<Point>)
    requires multiset(points) == multiset(again)
    ensures forall s :: Observed(points, s) <==> Observed(again, s)
    ensures forall lo, hi :: Count(points, lo, hi) == Count(again, lo, hi)
    ensures forall lo, hi :: Hits(points, lo, hi) == Hits(again, lo, hi)
  {
    forall s
      ensures Observed(points, s) <==> Observed(again, s)
    {
      ObservedAgain(points, again, s);
      ObservedAgain(again, points, s);
    }
    forall lo, hi
      ensures Count(points, lo, hi) == Count(again, lo, hi) && Hits(points, lo, hi) == Hits(again, lo, hi)
    {
      SameCounts(points, again, lo, hi);
    }
  }

  lemma ObservedAgain(points: seq<Point>, again: seq<Point>, s: real)
    requires multiset(points) == multiset(again)
    ensures Observed(points, s) ==> Observed(again, s)
  {
    if Observed(points, s) {
      var i :| 0 <= i < |points| && points[i].score == s;
      assert points[i] in multiset(again);
      var j :| 0 <= j < |again| && again[j] == points[i];
    }
  }

  // ----- The fit is optimal

  /** P(accepted | score) read off the blocks: the first block that reaches the score, else the last. */
  function CalibratedRate(blocks: seq<Block>, score: real): (r: Option<real>)
    requires forall b | b in blocks :: b.n > 0
    ensures r.Some? <==> blocks != []
  {
    if blocks == [] then None
    else if score <= blocks[0].hi || |blocks| == 1 then Some(blocks[0].Rate())
    else CalibratedRate(blocks[1..], score)
  }

  /** A block is the one of a score if it reaches the score, or is the last, and none before it does. */
  predicate IsBlockOf(blocks: seq<Block>, score: real, i: nat) {
    i < |blocks| && (score <= blocks[i].hi || i == |blocks| - 1) && forall j | 0 <= j < i :: blocks[j].hi < score
  }

  /** Every score has the rate of its one block, outside the ranges of the blocks too. */
  lemma {:induction false} CalibratedRateIs(blocks: seq<Block>, score: real, i: nat)
    requires forall b | b in blocks :: b.n > 0
    requires IsBlockOf(blocks, score, i)
    ensures CalibratedRate(blocks, score) == Some(blocks[i].Rate())
  {
    if i > 0 {
      assert blocks[0].hi < score;
      CalibratedRateIs(blocks[1..], score, i - 1);
    }
  }

  lemma {:induction false} HasBlock(blocks: seq<Block>, score: real, k: nat) returns (i: nat)
    requires k < |blocks| && forall j | 0 <= j < k :: blocks[j].hi < score
    ensures k <= i && IsBlockOf(blocks, score, i)
    decreases |blocks| - k
  {
    if score <= blocks[k].hi || k == |blocks| - 1 {
      i := k;
    } else {
      i := HasBlock(blocks, score, k + 1);
    }
  }

  /** The fit as a function of the score. */
  ghost function Step(blocks: seq<Block>): real -> real
    requires forall b | b in blocks :: b.n > 0
  {
    s => if blocks == [] then 0.0 else CalibratedRate(blocks, s).value
  }

  lemma {:induction false} RateInBlock(points: seq<Point>, blocks: seq<Block>, i: nat, s: real)
    requires Chain(points, blocks) && i < |blocks| && blocks[i].lo <= s <= blocks[i].hi
    ensures forall b | b in blocks :: b.n > 0
    ensures CalibratedRate(blocks, s) == Some(blocks[i].Rate())
  {
    assert forall b | b in blocks :: Pooled(points, b);
    if i > 0 {
      BlocksOrdered(points, blocks, 0, i);
      var rest := blocks[1..];
      forall j | 0 <= j < |rest| - 1
        ensures Gap(points, rest[j].hi, rest[j + 1].lo)
      {
        assert Gap(points, blocks[j + 1].hi, blocks[j + 2].lo);
      }
      RateInBlock(points, rest, i - 1, s);
    }
  }

  ghost function Outcome(p: Point): real {
    if p.accepted then 1.0 else 0.0
  }

  ghost function Times(x: real, y: real): real {
    x * y
  }

  ghost function Square(x: real): real {
    Times(x, x)
  }

  /** The sum of squared errors of f over the points with a score in [lo, hi]. */
  ghost function LossIn(points: seq<Point>, lo: real, hi: real, f: real -> real): real {
    if points == [] then 0.0
    else LossIn(points[..|points| - 1], lo, hi, f)
         + (if lo <= Last(points).score <= hi then Square(Outcome(Last(points)) - f(Last(points).score)) else 0.0)
  }

  /** The squared distance of f and g over the points with a score in [lo, hi]. */
  ghost function ApartIn(points: seq<Point>, lo: real, hi: real, f: real -> real, g: real -> real): (d: real)
    ensures d >= 0.0
  {
    if points == [] then 0.0
    else ApartIn(points[..|points| - 1], lo, hi, f, g)
         + (if lo <= Last(points).score <= hi then Square(f(Last(points).score) - g(Last(points).score)) else 0.0)
  }

  /** How the outcomes in [lo, hi], off the rate mu, pull on h. */
  ghost function PullIn(points: seq<Point>, lo: real, hi: real, mu: real, h: real -> real): real {
    if points == [] then 0.0
    else PullIn(points[..|points| - 1], lo, hi, mu, h)
         + (if lo <= Last(points).score <= hi then Times(Outcome(Last(points)) - mu, h(Last(points).score)) else 0.0)
  }

  ghost function Loss(points: seq<Point>, f: real -> real): real {
    if points == [] then 0.0
    else Loss(points[..|points| - 1], f) + Square(Outcome(Last(points)) - f(Last(points).score))
  }

  ghost function Apart(points: seq<Point>, f: real -> real, g: real -> real): real {
    if points == [] then 0.0
    else Apart(points[..|points| - 1], f, g) + Square(f(Last(points).score) - g(Last(points).score))
  }

  ghost predicate Nondecreasing(points: seq<Point>, f: real -> real) {
    forall s, t | Observed(points, s) && Observed(points, t) && s <= t :: f(s) <= f(t)
  }

  /** How far the outcomes in [lo, t] exceed the rate mu. */
  ghost function Excess(points: seq<Point>, lo: real, t: real, mu: real): real {
    if points == [] then 0.0
    else Excess(points[..|points| - 1], lo, t, mu)
         + (if lo <= Last(points).score <= t then Outcome(Last(points)) - mu else 0.0)
  }

  /** What `h` hits in `c` points are over the rate `mu`. */
  ghost function Surplus(h: nat, c: nat, mu: real): real {
    h as real - mu * c as real
  }

  lemma SurplusMore(h: nat, c: nat, mu: real)
    ensures Surplus(h + 1, c + 1, mu) == Surplus(h, c, mu) + 1.0 - mu
    ensures Surplus(h, c + 1, mu) == Surplus(h, c, mu) - mu
  {
    assert (c + 1) as real == c as real + 1.0;
    assert mu * (c as real + 1.0) == mu * c as real + mu;
  }

  lemma CountsStep(points: seq<Point>, lo: real, t: real, mu: real)
    requires points != []
    ensures var shorter, p := points[..|points| - 1], Last(points);
            && Count(points, lo, t) == Count(shorter, lo, t) + (if lo <= p.score <= t then 1 else 0)
            && Hits(points, lo, t) == Hits(shorter, lo, t) + (if lo <= p.score <= t && p.accepted then 1 else 0)
            && Excess(points, lo, t, mu) == Excess(shorter, lo, t, mu)
                 + (if lo <= p.score <= t then if p.accepted then 1.0 - mu else -mu else 0.0)
  {
  }

  lemma SurplusOf(h: nat, c: nat, mu: real, within: bool, hit: bool)
    ensures Surplus(h + (if within && hit then 1 else 0), c + (if within then 1 else 0), mu)
            == Surplus(h, c, mu) + (if within then if hit then 1.0 - mu else -mu else 0.0)
  {
    SurplusMore(h, c, mu);
  }

  lemma {:induction false} ExcessCounts(points: seq<Point>, lo: real, t: real, mu: real)
    ensures Excess(points, lo, t, mu) == Surplus(Hits(points, lo, t), Count(points, lo, t), mu)
  {
    if points == [] {
      assert Surplus(0, 0, mu) == 0.0;
    } else {
      var shorter, p := points[..|points| - 1], Last(points);
      ExcessCounts(shorter, lo, t, mu);
      CountsStep(points, lo, t, mu);
      SurplusOf(Hits(shorter, lo, t), Count(shorter, lo, t), mu, lo <= p.score <= t, p.accepted);
    }
  }

  lemma {:induction false} PullSplits(points: seq<Point>, lo: real, t: real, u: real, hi: real,
                                      mu: real, h: real -> real)
    requires Gap(points, t, u) && lo <= u && t <= hi
    ensures PullIn(points, lo, hi, mu, h) == PullIn(points, lo, t, mu, h) + PullIn(points, u, hi, mu, h)
  {
    if points != [] {
      assert Last(points) == points[|points| - 1];
      PullSplits(points[..|points| - 1], lo, t, u, hi, mu, h);
    }
  }

  lemma {:induction false} LossSplits(points: seq<Point>, lo: real, t: real, u: real, hi: real,
                                      f: real -> real, g: real -> real)
    requires Gap(points, t, u) && lo <= u && t <= hi
    ensures LossIn(points, lo, hi, f) == LossIn(points, lo, t, f) + LossIn(points, u, hi, f)
    ensures ApartIn(points, lo, hi, f, g) == ApartIn(points, lo, t, f, g) + ApartIn(points, u, hi, f, g)
  {
    if points != [] {
      assert Last(points) == points[|points| - 1];
      LossSplits(points[..|points| - 1], lo, t, u, hi, f, g);
    }
  }

  /** The pull on a constant v. */
  ghost function FlatPull(points: seq<Point>, lo: real, hi: real, mu: real, v: real): real {
    if points == [] then 0.0
    else FlatPull(points[..|points| - 1], lo, hi, mu, v)
         + (if lo <= Last(points).score <= hi then Times(Outcome(Last(points)) - mu, v) else 0.0)
  }

  lemma {:induction false} FlatPullIs(points: seq<Point>, lo: real, hi: real, mu: real, v: real)
    ensures FlatPull(points, lo, hi, mu, v) == Times(Excess(points, lo, hi, mu), v)
  {
    if points != [] {
      var shorter, d := points[..|points| - 1], Outcome(Last(points)) - mu;
      FlatPullIs(shorter, lo, hi, mu, v);
      TimesDistributes(Excess(shorter, lo, hi, mu), d, v);
    } else {
      assert Times(0.0, v) == 0.0;
    }
  }

  lemma TimesDistributes(x: real, y: real, z: real)
    ensures Times(x + y, z) == Times(x, z) + Times(y, z)
    ensures Times(z, x + y) == Times(z, x) + Times(z, y)
  {
  }

  lemma TimesRises(k: real, x: real, y: real)
    requires k >= 0.0 && x <= y
    ensures Times(k, x) <= Times(k, y)
  {
    ScaledUp(k, x, y);
  }

  lemma FlatPullRises(points: seq<Point>, lo: real, hi: real, mu: real, u: real, v: real)
    requires Excess(points, lo, hi, mu) >= 0.0 && u <= v
    ensures FlatPull(points, lo, hi, mu, u) <= FlatPull(points, lo, hi, mu, v)
  {
    FlatPullIs(points, lo, hi, mu, u);
    FlatPullIs(points, lo, hi, mu, v);
    TimesRises(Excess(points, lo, hi, mu), u, v);
  }

  lemma {:induction false} FlatPullSplits(points: seq<Point>, lo: real, t: real, u: real, hi: real, mu: real, v: real)
    requires Gap(points, t, u) && lo <= u && t <= hi
    ensures FlatPull(points, lo, hi, mu, v) == FlatPull(points, lo, t, mu, v) + FlatPull(points, u, hi, mu, v)
  {
    if points != [] {
      assert Last(points) == points[|points| - 1];
      FlatPullSplits(points[..|points| - 1], lo, t, u, hi, mu, v);
    }
  }

  /** At one score, h is one value. */
  lemma {:induction false} PullAtOne(points: seq<Point>, s: real, mu: real, h: real -> real)
    ensures PullIn(points, s, s, mu, h) == FlatPull(points, s, s, mu, h(s))
  {
    if points != [] {
      PullAtOne(points[..|points| - 1], s, mu, h);
    }
  }

  /** Summation by parts: while every prefix has an excess, a nondecreasing h is
      pulled no further than its last value would be all along. */
  lemma {:induction false} PullBound(points: seq<Point>, lo: real, ss: seq<real>, j: nat, mu: real, h: real -> real)
    requires ss == SortedScores(points) && j < |ss| && lo in ss && lo <= ss[j]
    requires Nondecreasing(points, h)
    requires forall s | Observed(points, s) && lo <= s < ss[j] :: Excess(points, lo, s, mu) >= 0.0
    ensures PullIn(points, lo, ss[j], mu, h) <= FlatPull(points, lo, ss[j], mu, h(ss[j]))
  {
    var t := ss[j];
    NextScore(points, ss, j);
    PullAtOne(points, t, mu, h);
    if t != lo {
      var prev := ss[j - 1];
      NextScore(points, ss, j - 1);
      FirstAfterPrevious(ss, lo, j);
      PullBound(points, lo, ss, j - 1, mu, h);
      FlatPullRises(points, lo, prev, mu, h(prev), h(t));
      PullSplits(points, lo, prev, t, t, mu, h);
      FlatPullSplits(points, lo, prev, t, t, mu, h(t));
    }
  }

  lemma FirstAfterPrevious(ss: seq<real>, lo: real, j: nat)
    requires Increasing(ss) && 0 < j < |ss| && lo in ss && lo < ss[j]
    ensures lo <= ss[j - 1]
  {
    var i :| 0 <= i < |ss| && ss[i] == lo;
  }

  lemma ScaledUp(k: real, x: real, y: real)
    requires k >= 0.0 && x <= y
    ensures k * x <= k * y
  {
    assert k * (y - x) >= 0.0;
  }

  /** The loss of f against the loss of the constant mu, h being f - mu. */
  lemma {:induction false} LossExpands(points: seq<Point>, lo: real, hi: real, mu: real,
                                       f: real -> real, g: real -> real, h: real -> real)
    requires forall s | Observed(points, s) && lo <= s <= hi :: g(s) == mu && h(s) == f(s) - mu
    ensures LossIn(points, lo, hi, f)
            == LossIn(points, lo, hi, g) + ApartIn(points, lo, hi, f, g) - 2.0 * PullIn(points, lo, hi, mu, h)
  {
    if points != [] {
      var shorter, p := points[..|points| - 1], Last(points);
      forall s | Observed(shorter, s) && lo <= s <= hi
        ensures g(s) == mu && h(s) == f(s) - mu
      {
        var i :| 0 <= i < |shorter| && shorter[i].score == s;
        assert points[i].score == s;
      }
      LossExpands(shorter, lo, hi, mu, f, g, h);
      if lo <= p.score <= hi {
        assert points[|points| - 1] == p && Observed(points, p.score);
        PointExpands(Outcome(p), f(p.score), mu);
      }
    }
  }

  lemma PointExpands(y: real, v: real, mu: real)
    ensures Square(y - v) == Square(y - mu) + Square(v - mu) - 2.0 * Times(y - mu, v - mu)
  {
  }

  lemma ExcessOfRate(points: seq<Point>, lo: real, t: real, acc: nat, n: nat)
    requires n > 0 && Hits(points, lo, t) * n >= acc * Count(points, lo, t)
    ensures Excess(points, lo, t, acc as real / n as real) >= 0.0
    ensures Hits(points, lo, t) * n == acc * Count(points, lo, t)
            ==> Excess(points, lo, t, acc as real / n as real) == 0.0
  {
    var mu := acc as real / n as real;
    ExcessCounts(points, lo, t, mu);
    RateGap(Hits(points, lo, t), Count(points, lo, t), acc, n, mu, Excess(points, lo, t, mu));
  }

  lemma RateGap(h: nat, c: nat, acc: nat, n: nat, mu: real, x: real)
    requires n > 0 && h * n >= acc * c && mu == acc as real / n as real && x == h as real - mu * c as real
    ensures x >= 0.0 && (h * n == acc * c ==> x == 0.0)
  {
    Quotient(acc as real, n as real);
    GapTimes(h as real, c as real, acc as real, n as real, mu);
    Products(h, n);
    Products(acc, c);
    SignOf(x, n as real, (h * n) as real - (acc * c) as real);
  }

  lemma Quotient(a: real, b: real)
    requires b > 0.0
    ensures (a / b) * b == a
  {
  }

  lemma Products(a: nat, b: nat)
    ensures (a * b) as real == a as real * b as real
  {
  }

  lemma SignOf(x: real, n: real, y: real)
    requires n > 0.0 && x * n == y && y >= 0.0
    ensures x >= 0.0 && (y == 0.0 ==> x == 0.0)
  {
    if x < 0.0 {
      ScaledUp(n, x, 0.0);
    }
  }

  lemma GapTimes(h: real, c: real, acc: real, n: real, mu: real)
    requires mu * n == acc
    ensures (h - mu * c) * n == h * n - acc * c
  {
    assert (mu * c) * n == (mu * n) * c;
  }

  lemma BlockExcess(points: seq<Point>, b: Block)
    requires Pooled(points, b)
    ensures Excess(points, b.lo, b.hi, b.Rate()) == 0.0
    ensures forall s | Observed(points, s) && b.lo <= s < b.hi :: Excess(points, b.lo, s, b.Rate()) >= 0.0
  {
    ExcessOfRate(points, b.lo, b.hi, b.accepted, b.n);
    forall s | Observed(points, s) && b.lo <= s < b.hi
      ensures Excess(points, b.lo, s, b.Rate()) >= 0.0
    {
      ExcessOfRate(points, b.lo, s, b.accepted, b.n);
    }
  }

  /** Inside one block no nondecreasing f beats the block's rate. */
  lemma BlockIsOptimal(points: seq<Point>, b: Block, f: real -> real, g: real -> real)
    requires Pooled(points, b) && Nondecreasing(points, f)
    requires forall s | Observed(points, s) && b.lo <= s <= b.hi :: g(s) == b.Rate()
    ensures LossIn(points, b.lo, b.hi, f) >= LossIn(points, b.lo, b.hi, g) + ApartIn(points, b.lo, b.hi, f, g)
  {
    var ss := SortedScores(points);
    assert b.hi in ss;
    var j :| 0 <= j < |ss| && ss[j] == b.hi;
    BlockExcess(points, b);
    var h := (s: real) => f(s) - b.Rate();
    PullBound(points, b.lo, ss, j, b.Rate(), h);
    FlatPullIs(points, b.lo, b.hi, b.Rate(), h(b.hi));
    LossExpands(points, b.lo, b.hi, b.Rate(), f, g, h);
  }

  lemma {:induction false} FirstBlocksOptimal(points: seq<Point>, blocks: seq<Block>, i: nat, f: real -> real)
    requires IsFit(points, blocks) && Nondecreasing(points, f) && i < |blocks|
    requires forall b | b in blocks :: b.n > 0
    ensures var lo, hi, g := blocks[0].lo, blocks[i].hi, Step(blocks);
            LossIn(points, lo, hi, f) >= LossIn(points, lo, hi, g) + ApartIn(points, lo, hi, f, g)
  {
    var b, g := blocks[i], Step(blocks);
    forall s | Observed(points, s) && b.lo <= s <= b.hi
      ensures g(s) == b.Rate()
    {
      RateInBlock(points, blocks, i, s);
    }
    BlockIsOptimal(points, b, f, g);
    if i > 0 {
      var prev := blocks[i - 1];
      FirstBlocksOptimal(points, blocks, i - 1, f);
      BlocksOrdered(points, blocks, i - 1, i);
      if i > 1 { BlocksOrdered(points, blocks, 0, i - 1); }
      assert Pooled(points, prev) && Pooled(points, blocks[0]) && Gap(points, prev.hi, b.lo);
      LossSplits(points, blocks[0].lo, prev.hi, b.lo, b.hi, f, g);
      LossSplits(points, blocks[0].lo, prev.hi, b.lo, b.hi, g, g);
    }
  }

  lemma {:induction false} WholeRange(points: seq<Point>, lo: real, hi: real, f: real -> real, g: real -> real)
    requires forall i | 0 <= i < |points| :: lo <= points[i].score <= hi
    ensures LossIn(points, lo, hi, f) == Loss(points, f)
    ensures ApartIn(points, lo, hi, f, g) == Apart(points, f, g)
  {
    if points != [] {
      WholeRange(points[..|points| - 1], lo, hi, f, g);
    }
  }

  /** Least squares: every nondecreasing f loses at least what the fit loses, and the
      difference is at least their squared distance over the points. */
  lemma FitIsOptimal(points: seq<Point>, blocks: seq<Block>, f: real -> real)
    requires IsFit(points, blocks) && Nondecreasing(points, f)
    ensures forall b | b in blocks :: b.n > 0
    ensures Loss(points, f) >= Loss(points, Step(blocks)) + Apart(points, f, Step(blocks))
    ensures Apart(points, f, Step(blocks)) >= 0.0
  {
    assert forall b | b in blocks :: Pooled(points, b);
    if points != [] {
      var g := Step(blocks);
      assert Observed(points, points[0].score);
      var lo, hi := blocks[0].lo, Last(blocks).hi;
      forall i | 0 <= i < |points|
        ensures lo <= points[i].score <= hi
      {
        assert Observed(points, points[i].score);
      }
      FirstBlocksOptimal(points, blocks, |blocks| - 1, f);
      WholeRange(points, lo, hi, f, g);
      WholeRange(points, lo, hi, g, g);
    }
  }

  /** The minimiser is unique: a nondecreasing f that loses no more is the fit at every observed score. */
  lemma OnlyTheFitIsOptimal(points: seq<Point>, blocks: seq<Block>, f: real -> real, s: real)
    requires IsFit(points, blocks) && Nondecreasing(points, f)
    requires forall b | b in blocks :: b.n > 0
    requires Loss(points, f) <= Loss(points, Step(blocks))
    requires Observed(points, s)
    ensures f(s) == Step(blocks)(s)
  {
    FitIsOptimal(points, blocks, f);
    ApartAtPoint(points, f, Step(blocks), s);
    NoSquareIsNegative(f(s) - Step(blocks)(s));
  }

  lemma NoSquareIsNegative(x: real)
    ensures Square(x) >= 0.0
    ensures Square(x) == 0.0 ==> x == 0.0
  {
    if x != 0.0 {
      NonzeroSquare(x);
    }
  }

  lemma NonzeroSquare(x: real)
    requires x != 0.0
    ensures Square(x) > 0.0
  {
    if x > 0.0 {
      SameSign(x, x);
    } else {
      SameSign(-x, -x);
      assert Times(-x, -x) == Times(x, x);
    }
  }

  lemma SameSign(x: real, y: real)
    requires x > 0.0 && y > 0.0
    ensures Times(x, y) > 0.0
  {
  }

  lemma {:induction false} ApartAtPoint(points: seq<Point>, f: real -> real, g: real -> real, s: real)
    ensures Apart(points, f, g) >= 0.0
    ensures Observed(points, s) ==> Apart(points, f, g) >= Square(f(s) - g(s))
  {
    if points != [] {
      var shorter := points[..|points| - 1];
      ApartAtPoint(shorter, f, g, s);
      NoSquareIsNegative(f(Last(points).score) - g(Last(points).score));
      if Observed(points, s) && Last(points).score != s {
        var i :| 0 <= i < |points| && points[i].score == s;
        assert shorter[i].score == s;
      }
    }
  }
}
