/**
 The cutoff read off the isotonic fit, and its guards (pipeline/calibration.py:129-231).
 The report fields `curve`, `min_score` and `max_score` are not part of the model.
 */
module Proposals {
  import opened Common
  import opened Calibration
  import opened CalibrationFit

  datatype Status = InsufficientSamples | TargetUnreachable | AboveAutoAccept | Unchanged | Ok

  datatype Proposal = Proposal(
    sampleSize: nat, accepted: nat, rejected: int, status: Status,
    proposed: Option<real>, unclamped: Option<real>,
    precisionAtCurrent: Option<real>, recallAtCurrent: Option<real>,
    precisionAtProposed: Option<real>, recallAtProposed: Option<real>)

  /** What `propose` is asked for beside the points. */
  datatype Request = Request(current: real, target: real, minSamples: int, minBlockSamples: int, autoAccept: real)

  function Tally(points: seq<Point>, wanted: Point -> bool): nat {
    if points == [] then 0
    else Tally(points[..|points| - 1], wanted) + (if wanted(Last(points)) then 1 else 0)
  }

  function Accepted(points: seq<Point>): nat {
    Tally(points, (p: Point) => p.accepted)
  }

  /** How many points a cutoff keeps, up to `below` (excluded) when there is one. */
  function Kept(points: seq<Point>, cutoff: real, below: Option<real>): nat {
    Tally(points, (p: Point) => cutoff <= p.score && (below.Some? ==> p.score < below.value))
  }

  function KeptAccepted(points: seq<Point>, cutoff: real): nat {
    Tally(points, (p: Point) => cutoff <= p.score && p.accepted)
  }

  /** Precision among the points a cutoff keeps, and the share of the accepted ones that survive it. */
  function PrecisionRecall(points: seq<Point>, cutoff: real): (Option<real>, Option<real>) {
    var kept, keptOk, totalOk := Kept(points, cutoff, None), KeptAccepted(points, cutoff), Accepted(points);
    if kept == 0 then (None, if totalOk != 0 then Some(0.0) else None)
    else (Some(keptOk as real / kept as real),
          if totalOk != 0 then Some(keptOk as real / totalOk as real) else None)
  }

  // ----- What a proposal says

  ghost predicate Sized(blocks: seq<Block>) {
    forall b | b in blocks :: b.n > 0
  }

  /** The calibrated rate of a score reaches the target. */
  ghost predicate Reaches(blocks: seq<Block>, target: real, s: real)
    requires Sized(blocks)
  {
    CalibratedRate(blocks, s).Some? && CalibratedRate(blocks, s).value >= target
  }

  /** `c` is the lowest observed score whose calibrated rate reaches the target,
      and the observed scores above it are exactly the others that do. */
  ghost predicate Lowest(points: seq<Point>, blocks: seq<Block>, target: real, c: real)
    requires Sized(blocks)
  {
    Observed(points, c) && forall s | Observed(points, s) :: Reaches(blocks, target, s) <==> c <= s
  }

  ghost predicate Unreachable(points: seq<Point>, blocks: seq<Block>, target: real)
    requires Sized(blocks)
  {
    forall s | Observed(points, s) :: !Reaches(blocks, target, s)
  }

  predicate NothingThere(p: Proposal) {
    p.precisionAtProposed.None? && p.recallAtProposed.None?
  }

  /** The counts, and what the current cutoff is worth. */
  predicate Counted(points: seq<Point>, q: Request, p: Proposal) {
    && p.sampleSize == |points| && p.accepted == Accepted(points) && p.rejected == |points| - Accepted(points)
    && (p.precisionAtCurrent, p.recallAtCurrent)
       == if points == [] then (None, None) else PrecisionRecall(points, q.current)
  }

  /** The status, and the cutoff that goes with it. */
  ghost predicate Decided(points: seq<Point>, blocks: seq<Block>, q: Request, p: Proposal)
    requires Sized(blocks)
  {
    match p.status
    case InsufficientSamples =>
      (points == [] || |points| < q.minSamples) && p.proposed.None? && p.unclamped.None? && NothingThere(p)
    case TargetUnreachable =>
      && points != [] && |points| >= q.minSamples && p.proposed.None? && p.unclamped.None? && NothingThere(p)
      && (Unreachable(points, blocks, q.target)
          || exists c :: Lowest(points, blocks, q.target, c) && c < q.autoAccept
                         && Kept(points, c, Some(q.autoAccept)) < q.minBlockSamples)
    case AboveAutoAccept =>
      && points != [] && |points| >= q.minSamples && p.proposed.None? && NothingThere(p)
      && p.unclamped.Some? && Lowest(points, blocks, q.target, p.unclamped.value)
      && p.unclamped.value >= q.autoAccept
    case _ =>
      && points != [] && |points| >= q.minSamples
      && p.proposed.Some? && p.unclamped == p.proposed
      && Lowest(points, blocks, q.target, p.proposed.value)
      && p.proposed.value < q.autoAccept
      && Kept(points, p.proposed.value, Some(q.autoAccept)) >= q.minBlockSamples
      && (p.status.Unchanged? <==> -0.000000001 < p.proposed.value - q.current < 0.000000001)
      && p.precisionAtProposed == PrecisionRecall(points, p.proposed.value).0
      && p.recallAtProposed == PrecisionRecall(points, p.proposed.value).1
  }

  /** The first block whose rate reaches the target. */
  method FirstAtLeast(points: seq<Point>, blocks: seq<Block>, target: real) returns (first: nat)
    requires IsFit(points, blocks) && Sized(blocks)
    ensures first <= |blocks|
    ensures first == |blocks| ==> Unreachable(points, blocks, target)
    ensures first < |blocks| ==> Lowest(points, blocks, target, blocks[first].lo)
  {
    first := 0;
    while first < |blocks| && blocks[first].Rate() < target
      invariant 0 <= first <= |blocks|
      invariant forall i | 0 <= i < first :: blocks[i].Rate() < target
    {
      first := first + 1;
    }
    FirstReaching(points, blocks, target, first);
  }

  method Propose(points: seq<Point>, q: Request) returns (p: Proposal)
    ensures Counted(points, q, p)
    ensures forall blocks | IsFit(points, blocks) :: Sized(blocks) && Decided(points, blocks, q, p)
  {
    var accepted := Accepted(points);
    p := Proposal(|points|, accepted, |points| - accepted, InsufficientSamples, None, None, None, None, None, None);
    FitsAreSized(points);
    if points == [] {
      return;
    }
    var (precision, recall) := PrecisionRecall(points, q.current);
    p := p.(precisionAtCurrent := precision, recallAtCurrent := recall);

    var blocks := IsotonicBlocks(points);
    OneFit(points, blocks);
    if p.sampleSize < q.minSamples {
      return;
    }

    var first := FirstAtLeast(points, blocks, q.target);
    if first == |blocks| {
      p := p.(status := TargetUnreachable);
      return;
    }

    var lo := blocks[first].lo;
    if lo >= q.autoAccept {
      p := p.(unclamped := Some(lo), status := AboveAutoAccept);
      return;
    }
    if Kept(points, lo, Some(q.autoAccept)) < q.minBlockSamples {
      p := p.(status := TargetUnreachable);
      return;
    }

    var (precisionThere, recallThere) := PrecisionRecall(points, lo);
    var same := -0.000000001 < lo - q.current < 0.000000001;
    p := p.(unclamped := Some(lo), proposed := Some(lo), status := if same then Unchanged else Ok,
            precisionAtProposed := precisionThere, recallAtProposed := recallThere);
  }

  lemma FitsAreSized(points: seq<Point>)
    ensures forall blocks | IsFit(points, blocks) :: Sized(blocks)
  {
    forall blocks | IsFit(points, blocks)
      ensures Sized(blocks)
    {
      assert forall b | b in blocks :: Pooled(points, b);
    }
  }

  lemma OneFit(points: seq<Point>, blocks: seq<Block>)
    requires IsFit(points, blocks)
    ensures Sized(blocks) && forall other | IsFit(points, other) :: other == blocks
  {
    FitsAreSized(points);
    forall other | IsFit(points, other)
      ensures other == blocks
    {
      FitIsUnique(points, points, other, blocks);
    }
  }

  lemma RateOrder(a: Block, b: Block)
    requires a.n > 0 && b.n > 0
    ensures RateAtMost(a, b) <==> a.Rate() <= b.Rate()
  {
    var x, y := a.Rate(), b.Rate();
    assert x * a.n as real == a.accepted as real && y * b.n as real == b.accepted as real;
    var k := a.n as real * b.n as real;
    assert k > 0.0;
    assert (a.accepted * b.n) as real == a.accepted as real * b.n as real == x * k;
    assert (b.accepted * a.n) as real == b.accepted as real * a.n as real == y * k;
    if x <= y {
      assert (y - x) * k >= 0.0;
    } else {
      assert (x - y) * k > 0.0;
    }
  }

  lemma {:induction false} RatesRise(points: seq<Point>, blocks: seq<Block>, i: nat, j: nat)
    requires Chain(points, blocks) && Rising(blocks) && i <= j < |blocks|
    ensures Sized(blocks) && blocks[i].Rate() <= blocks[j].Rate()
  {
    assert forall b | b in blocks :: Pooled(points, b);
    if i < j {
      RatesRise(points, blocks, i, j - 1);
      RateOrder(blocks[j - 1], blocks[j]);
    }
  }

  /** The calibrated rate does not fall as the score rises, wherever the scores are. */
  lemma CalibratedRateRises(points: seq<Point>, blocks: seq<Block>, s: real, t: real)
    requires IsFit(points, blocks) && blocks != [] && s <= t
    ensures Sized(blocks) && CalibratedRate(blocks, s).value <= CalibratedRate(blocks, t).value
  {
    FitsAreSized(points);
    var i := HasBlock(blocks, s, 0);
    var j := HasBlock(blocks, t, i);
    CalibratedRateIs(blocks, s, i);
    CalibratedRateIs(blocks, t, j);
    RatesRise(points, blocks, i, j);
  }

  /** Which block an observed score is in. */
  lemma {:induction false} BlockOf(points: seq<Point>, blocks: seq<Block>, k: nat, s: real) returns (i: nat)
    requires Chain(points, blocks) && k < |blocks| && Observed(points, s) && blocks[0].lo <= s <= blocks[k].hi
    ensures i <= k && blocks[i].lo <= s <= blocks[i].hi
  {
    i := k;
    if s < blocks[k].lo {
      if k > 0 {
        FirstAfterGap(points, blocks[k - 1].hi, blocks[k].lo, s);
        i := BlockOf(points, blocks, k - 1, s);
      }
    }
  }

  lemma FirstAfterGap(points: seq<Point>, t: real, u: real, s: real)
    requires Gap(points, t, u) && Observed(points, s) && s < u
    ensures s <= t
  {
    var k :| 0 <= k < |points| && points[k].score == s;
  }

  /** Monotone fit: the first block that reaches the target is where the scores that do begin. */
  lemma FirstReaching(points: seq<Point>, blocks: seq<Block>, target: real, first: nat)
    requires IsFit(points, blocks) && Sized(blocks) && first <= |blocks|
    requires forall i | 0 <= i < first :: blocks[i].Rate() < target
    requires first < |blocks| ==> blocks[first].Rate() >= target
    ensures first == |blocks| ==> Unreachable(points, blocks, target)
    ensures first < |blocks| ==> Lowest(points, blocks, target, blocks[first].lo)
  {
    forall s | Observed(points, s)
      ensures Reaches(blocks, target, s) <==> first < |blocks| && blocks[first].lo <= s
    {
      var i := BlockOf(points, blocks, |blocks| - 1, s);
      RateInBlock(points, blocks, i, s);
      if i < first < |blocks| {
        BlocksOrdered(points, blocks, i, first);
      } else if first < i {
        BlocksOrdered(points, blocks, first, i);
      }
      if first <= i {
        RatesRise(points, blocks, first, i);
      }
    }
    if first < |blocks| {
      assert Pooled(points, blocks[first]);
    }
  }

  // ----- What the cutoff is worth

  lemma {:induction false} KeptIsCount(points: seq<Point>, cutoff: real, hi: real)
    requires forall i | 0 <= i < |points| :: points[i].score <= hi
    ensures Kept(points, cutoff, None) == Count(points, cutoff, hi)
    ensures KeptAccepted(points, cutoff) == Hits(points, cutoff, hi)
  {
    if points != [] {
      KeptIsCount(points[..|points| - 1], cutoff, hi);
    }
  }

  /** A proposed cutoff is an observed score below the auto-accept level, with the
      support asked for, and the points it keeps have at least the target precision. */
  lemma ProposedIsSafe(points: seq<Point>, blocks: seq<Block>, q: Request, p: Proposal)
    requires IsFit(points, blocks) && Sized(blocks) && Decided(points, blocks, q, p) && p.proposed.Some?
    ensures Observed(points, p.proposed.value) && p.proposed.value < q.autoAccept
    ensures Kept(points, p.proposed.value, Some(q.autoAccept)) >= q.minBlockSamples
    ensures p.precisionAtProposed.Some? && p.precisionAtProposed.value >= q.target
  {
    var c, hi := p.proposed.value, Last(blocks).hi;
    var i := BlockOf(points, blocks, |blocks| - 1, c);
    var b := blocks[i];
    assert Pooled(points, b);
    RateInBlock(points, blocks, i, c);
    RateInBlock(points, blocks, i, b.lo);
    assert c == b.lo;
    forall j | 0 <= j < |points|
      ensures points[j].score <= hi
    {
      assert Observed(points, points[j].score);
    }
    assert Pooled(points, Last(blocks));
    KeptIsCount(points, c, hi);
    TailRate(points, blocks, i, hi);
    ObservedCounts(points, c, c, hi);
    ShareAtLeast(Hits(points, c, hi), Count(points, c, hi), b.accepted, b.n);
  }

  lemma ShareAtLeast(h: nat, c: nat, acc: nat, n: nat)
    requires c > 0 && n > 0 && h * n >= acc * c
    ensures h as real / c as real >= acc as real / n as real
  {
    RateOrder(Block(0.0, 0.0, n, acc), Block(0.0, 0.0, c, h));
  }

  /** Asking for more precision never lowers the cutoff. */
  lemma CutoffRisesWithTarget(points: seq<Point>, blocks: seq<Block>, q: Request, p: Proposal,
                              stricter: Request, p': Proposal)
    requires IsFit(points, blocks) && Sized(blocks)
    requires Decided(points, blocks, q, p) && Decided(points, blocks, stricter, p')
    requires q.target <= stricter.target && p.unclamped.Some? && p'.unclamped.Some?
    ensures p.unclamped.value <= p'.unclamped.value
  {
    assert Reaches(blocks, stricter.target, p'.unclamped.value);
    assert Reaches(blocks, q.target, p'.unclamped.value);
  }

  /** The proposal, in every field, depends only on the multiset of points. */
  lemma SameProposal(points: seq<Point>, again: seq<Point>, blocks: seq<Block>, q: Request, p: Proposal, p': Proposal)
    requires multiset(points) == multiset(again)
    requires IsFit(points, blocks) && IsFit(again, blocks) && Sized(blocks)
    requires Counted(points, q, p) && Decided(points, blocks, q, p)
    requires Counted(again, q, p') && Decided(again, blocks, q, p')
    ensures p == p'
  {
    SameCounts(points, again);
    SameDecision(points, again, blocks, q, p, p');
  }

  lemma SameCounts(points: seq<Point>, again: seq<Point>)
    requires multiset(points) == multiset(again)
    ensures |points| == |again| && Accepted(points) == Accepted(again)
    ensures forall c, below :: Kept(points, c, below) == Kept(again, c, below)
    ensures forall c :: PrecisionRecall(points, c) == PrecisionRecall(again, c)
  {
    SameSize(points, again);
    SameTally(points, again, (p: Point) => p.accepted);
    forall c, below
      ensures Kept(points, c, below) == Kept(again, c, below)
    {
      SameTally(points, again, (p: Point) => c <= p.score && (below.Some? ==> p.score < below.value));
    }
    forall c
      ensures PrecisionRecall(points, c) == PrecisionRecall(again, c)
    {
      SameTally(points, again, (p: Point) => c <= p.score && p.accepted);
    }
  }

  lemma SameDecision(points: seq<Point>, again: seq<Point>, blocks: seq<Block>, q: Request, p: Proposal, p': Proposal)
    requires multiset(points) == multiset(again) && |points| == |again| && Sized(blocks)
    requires forall c, below :: Kept(points, c, below) == Kept(again, c, below)
    requires forall c :: PrecisionRecall(points, c) == PrecisionRecall(again, c)
    requires Decided(points, blocks, q, p) && Decided(again, blocks, q, p')
    ensures p.status == p'.status && p.proposed == p'.proposed && p.unclamped == p'.unclamped
    ensures p.precisionAtProposed == p'.precisionAtProposed && p.recallAtProposed == p'.recallAtProposed
  {
    SamePoints(points, again);
  }

  lemma {:induction false} TallyJoins(a: seq<Point>, b: seq<Point>, wanted: Point -> bool)
    ensures Tally(a + b, wanted) == Tally(a, wanted) + Tally(b, wanted)
  {
    if b == [] {
      assert a + b == a;
    } else {
      TallyJoins(a, b[..|b| - 1], wanted);
      assert (a + b)[..|a + b| - 1] == a + b[..|b| - 1];
    }
  }

  lemma TallyAround(points: seq<Point>, k: nat, wanted: Point -> bool)
    requires k < |points|
    ensures var rest := points[..k] + points[k + 1..];
            && Tally(points, wanted) == Tally(rest, wanted) + Tally([points[k]], wanted)
            && multiset(points) == multiset(rest) + multiset{points[k]}
  {
    var p := [points[k]];
    assert points == points[..k] + (p + points[k + 1..]);
    TallyJoins(points[..k], p + points[k + 1..], wanted);
    TallyJoins(p, points[k + 1..], wanted);
    TallyJoins(points[..k], points[k + 1..], wanted);
  }

  lemma SameSize(points: seq<Point>, again: seq<Point>)
    requires multiset(points) == multiset(again)
    ensures |points| == |again|
  {
    assert |points| == |multiset(points)| == |again|;
  }

  lemma TallyFirst(points: seq<Point>, wanted: Point -> bool)
    requires points != []
    ensures Tally(points, wanted) == Tally(points[1..], wanted) + Tally([points[0]], wanted)
  {
    TallyJoins([points[0]], points[1..], wanted);
    assert [points[0]] + points[1..] == points;
  }

  /** The other list without the first point of this one. */
  lemma Without(points: seq<Point>, again: seq<Point>, wanted: Point -> bool) returns (fewer: seq<Point>)
    requires multiset(points) == multiset(again) && points != []
    ensures multiset(points[1..]) == multiset(fewer)
    ensures Tally(again, wanted) == Tally(fewer, wanted) + Tally([points[0]], wanted)
  {
    assert points[0] in multiset(again);
    var k :| 0 <= k < |again| && again[k] == points[0];
    TallyAround(again, k, wanted);
    OneFewer(points, again, k);
    fewer := again[..k] + again[k + 1..];
  }

  lemma {:induction false} SameTally(points: seq<Point>, again: seq<Point>, wanted: Point -> bool)
    requires multiset(points) == multiset(again)
    ensures Tally(points, wanted) == Tally(again, wanted)
    decreases |points|
  {
    if points == [] {
      SameSize(points, again);
    } else {
      var fewer := Without(points, again, wanted);
      SameTally(points[1..], fewer, wanted);
      TallyFirst(points, wanted);
    }
  }

  lemma OneFewer(points: seq<Point>, again: seq<Point>, k: nat)
    requires multiset(points) == multiset(again) && points != [] && k < |again| && again[k] == points[0]
    ensures multiset(points[1..]) == multiset(again[..k] + again[k + 1..])
  {
    assert points == [points[0]] + points[1..];
    assert again == again[..k] + [again[k]] + again[k + 1..];
    assert multiset(points[1..]) == multiset(points) - multiset{points[0]};
    assert multiset(again[..k] + again[k + 1..]) == multiset(again) - multiset{points[0]};
  }
}
