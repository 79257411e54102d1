/**
 What the merged list is, for every list and every baseline (pipeline/baseline_stix.py:1847-1969).
 */
module MergeFacts {
  import opened Common
  import opened References
  import opened BaselineIndex
  import opened Matching
  import opened Merge

  ghost predicate Merging(items: seq<Obj>, build: Build, r: MergeResult, plan: Plan, order: seq<Id>, out: seq<Obj>) {
    && Received(build) && (forall o | o in items :: WellFormed(o))
    && Planned(items, build, r, plan) && CarriedOut(items, build, r, plan, order, out)
  }

  // ----- Places in the output

  /** The object the `k`-th survivor was. */
  function {:induction false} Origin(items: seq<Obj>, n: nat, plan: Plan, k: nat): (i: nat)
    requires n <= |items| && k < |Survivors(items, n, plan)|
    ensures i < n && FateOf(items, i, plan) == Shipped && |Survivors(items, i, plan)| == k
    ensures Survivors(items, n, plan)[k] == Rewritten(items[i], plan.remap)
  {
    if k < |Survivors(items, n - 1, plan)| then Origin(items, n - 1, plan, k) else n - 1
  }

  /** A shipped object has one place, after those shipped before it. */
  lemma {:induction false} ShippedAt(items: seq<Obj>, n: nat, plan: Plan, i: nat)
    requires i < n <= |items| && FateOf(items, i, plan) == Shipped
    ensures |Survivors(items, i, plan)| < |Survivors(items, n, plan)|
    ensures Survivors(items, n, plan)[|Survivors(items, i, plan)|] == Rewritten(items[i], plan.remap)
  {
    if i < n - 1 {
      ShippedAt(items, n - 1, plan, i);
    }
  }

  lemma {:induction false} RemovedIn(items: seq<Obj>, n: nat, plan: Plan, i: nat)
    requires i < n <= |items|
    ensures RemovalOf(items[i].id, FateOf(items, i, plan)).Some? ==>
              RemovalOf(items[i].id, FateOf(items, i, plan)).value in Removals(items, n, plan)
  {
    if i < n - 1 {
      RemovedIn(items, n - 1, plan, i);
    }
  }

  lemma {:induction false} RemovalSource(items: seq<Obj>, n: nat, plan: Plan, x: Removal) returns (i: nat)
    requires n <= |items| && x in Removals(items, n, plan)
    ensures i < n && RemovalOf(items[i].id, FateOf(items, i, plan)) == Some(x)
  {
    if x in Removals(items, n - 1, plan) {
      i := RemovalSource(items, n - 1, plan, x);
    } else {
      i := n - 1;
    }
  }

  /** How many of the first `n` objects became, or share the id of, a kept one, or were rejected. */
  function Absorbed(items: seq<Obj>, n: nat, plan: Plan): nat
    requires n <= |items|
  {
    if n == 0 then 0
    else
      var f := FateOf(items, n - 1, plan);
      Absorbed(items, n - 1, plan) + if f.Became? || f.SharesId? || f.Rejected? then 1 else 0
  }

  lemma {:induction false} Conserved(items: seq<Obj>, n: nat, plan: Plan)
    requires n <= |items|
    ensures n == Absorbed(items, n, plan) + |Removals(items, n, plan)| + |Survivors(items, n, plan)|
  {
    if n > 0 {
      Conserved(items, n - 1, plan);
    }
  }

  // ----- The relationships that stand for the duplicates

  lemma {:induction false} EarlierFinds(items: seq<Obj>, n: nat, plan: Plan, j: nat)
    requires j < n <= |items| && Arrives(items[j], plan)
    ensures Earlier(items, n, plan, MovedEdge(items[j].edge.value, plan.remap)).Some?
  {
    if j < n - 1 {
      EarlierFinds(items, n - 1, plan, j);
    }
  }

  /** What `Earlier` finds ships: it is the first of its triple. */
  lemma {:induction false} EarlierShips(items: seq<Obj>, n: nat, plan: Plan, e: Edge) returns (j: nat)
    requires n <= |items| && Earlier(items, n, plan, e).Some? && e !in plan.base
    ensures j < n && items[j].id == Earlier(items, n, plan, e).value && FateOf(items, j, plan) == Shipped
    ensures items[j].edge.Some? && MovedEdge(items[j].edge.value, plan.remap) == e
  {
    if Earlier(items, n - 1, plan, e).Some? {
      j := EarlierShips(items, n - 1, plan, e);
    } else {
      j := n - 1;
    }
  }

  /** Every stand-in is a kept relationship, or one of the list that ships. */
  predicate Standing(items: seq<Obj>, plan: Plan, id: Id) {
    id in plan.kept || exists j | 0 <= j < |items| :: FateOf(items, j, plan) == Shipped && items[j].id == id
  }

  lemma DuplicateStands(items: seq<Obj>, build: Build, plan: Plan, i: nat)
    requires i < |items| && FateOf(items, i, plan).Duplicate? && BaseEdges(build, plan.kept, plan.base)
    ensures Standing(items, plan, FateOf(items, i, plan).of)
  {
    var e := MovedEdge(items[i].edge.value, plan.remap);
    if e in plan.base {
      assert HasEdge(build, plan.kept, plan.base[e], e);
    } else {
      var j := EarlierShips(items, i, plan, e);
    }
  }

  /** The last of the first `n` objects with this id to be removed as a duplicate. */
  function LastDuplicate(items: seq<Obj>, n: nat, plan: Plan, id: Id): (j: Option<nat>)
    requires n <= |items|
    ensures j.Some? ==> j.value < n && items[j.value].id == id && FateOf(items, j.value, plan).Duplicate?
    ensures forall i | (if j.Some? then j.value else -1) < i < n ::
              !(items[i].id == id && FateOf(items, i, plan).Duplicate?)
  {
    if n == 0 then None
    else if items[n - 1].id == id && FateOf(items, n - 1, plan).Duplicate? then Some(n - 1)
    else LastDuplicate(items, n - 1, plan, id)
  }

  lemma StandInsOn(removed: seq<Removal>, x: Removal)
    ensures StandIns(removed + [x])
            == if x.standIn.Some? then StandIns(removed)[x.id := x.standIn.value] else StandIns(removed)
  {
    assert (removed + [x])[..|removed|] == removed;
  }

  function AsSeq(x: Option<Removal>): seq<Removal> {
    match x case Some(r) => [r] case None => []
  }

  /** What one more fate brings to the stand-ins. */
  lemma StandInsWith(removed: seq<Removal>, id: Id, f: Fate)
    ensures StandIns(removed + AsSeq(RemovalOf(id, f)))
            == if f.Duplicate? then StandIns(removed)[id := f.of] else StandIns(removed)
  {
    var x := RemovalOf(id, f);
    if x.Some? {
      StandInsOn(removed, x.value);
    } else {
      assert removed + [] == removed;
    }
  }

  lemma RemovalsNext(items: seq<Obj>, n: nat, plan: Plan)
    requires 0 < n <= |items|
    ensures Removals(items, n, plan)
            == Removals(items, n - 1, plan) + AsSeq(RemovalOf(items[n - 1].id, FateOf(items, n - 1, plan)))
  {
  }

  ghost predicate StandInIs(m: map<Id, Id>, id: Id, f: Option<Fate>) {
    if f.Some? && f.value.Duplicate? then id in m && m[id] == f.value.of else id !in m
  }

  function FateAt(items: seq<Obj>, plan: Plan, j: Option<nat>): Option<Fate>
    requires j.Some? ==> j.value < |items|
  {
    if j.Some? then Some(FateOf(items, j.value, plan)) else None
  }

  lemma FateNext(items: seq<Obj>, n: nat, plan: Plan, id: Id)
    requires 0 < n <= |items|
    ensures FateAt(items, plan, LastDuplicate(items, n, plan, id))
            == if items[n - 1].id == id && FateOf(items, n - 1, plan).Duplicate? then Some(FateOf(items, n - 1, plan))
               else FateAt(items, plan, LastDuplicate(items, n - 1, plan, id))
  {
  }

  lemma StandInNext(before: map<Id, Id>, after: map<Id, Id>, id: Id, last: Option<Fate>, other: Id, f: Fate)
    requires StandInIs(before, id, last) && after == if f.Duplicate? then before[other := f.of] else before
    ensures StandInIs(after, id, if other == id && f.Duplicate? then Some(f) else last)
  {
  }

  lemma {:induction false} StandInsAre(items: seq<Obj>, n: nat, plan: Plan, id: Id)
    requires n <= |items|
    ensures StandInIs(StandIns(Removals(items, n, plan)), id, FateAt(items, plan, LastDuplicate(items, n, plan, id)))
  {
    if n > 0 {
      var removed, f := Removals(items, n - 1, plan), FateOf(items, n - 1, plan);
      StandInsAre(items, n - 1, plan, id);
      RemovalsNext(items, n, plan);
      StandInsWith(removed, items[n - 1].id, f);
      FateNext(items, n, plan, id);
      StandInNext(StandIns(removed), StandIns(Removals(items, n, plan)), id,
                  FateAt(items, plan, LastDuplicate(items, n - 1, plan, id)), items[n - 1].id, f);
    }
  }

  lemma DuplicateFate(items: seq<Obj>, plan: Plan, i: nat, x: Removal)
    requires i < |items| && RemovalOf(items[i].id, FateOf(items, i, plan)) == Some(x) && x.standIn.Some?
    ensures items[i].id == x.id && FateOf(items, i, plan) == Duplicate(x.standIn.value)
    ensures x.id in Links(items) && x.id !in plan.kept && x.id !in plan.remap
  {
    assert items[i] in items;
  }

  /** A removed duplicate's id is that of a relationship of the list, not remapped, not kept;
      its stand-in is kept, or ships. */
  ghost predicate StandsApart(items: seq<Obj>, plan: Plan, m: map<Id, Id>) {
    forall id | id in m :: id in Links(items) && id !in plan.kept && id !in plan.remap && Standing(items, plan, m[id])
  }

  lemma StandInMeaning(items: seq<Obj>, build: Build, plan: Plan, removed: seq<Removal>, m: map<Id, Id>)
    requires BaseEdges(build, plan.kept, plan.base)
    requires removed == Removals(items, |items|, plan) && m == StandIns(removed)
    ensures StandsApart(items, plan, m)
  {
    forall id | id in m
      ensures id in Links(items) && id !in plan.kept && id !in plan.remap && Standing(items, plan, m[id])
    {
      StandInsAre(items, |items|, plan, id);
      var i := LastDuplicate(items, |items|, plan, id).value;
      assert items[i] in items;
      DuplicateStands(items, build, plan, i);
    }
  }

  /** The ids of the list's relationships. */
  function Links(items: seq<Obj>): set<Id> {
    set o | o in items && o.edge.Some? :: o.id
  }

  /** No relationship's end is itself a relationship of the list. */
  ghost predicate EndsAreNodes(items: seq<Obj>, build: Build) {
    && (forall o | o in items && o.edge.Some? :: NodeEnds(o.edge.value, items))
    && (forall id | id in build.objects && build.objects[id].edge.Some? :: NodeEnds(build.objects[id].edge.value, items))
  }

  predicate NodeEnds(e: Edge, items: seq<Obj>) {
    e.source !in Links(items) && e.target !in Links(items)
  }

  // ----- The shape of the output

  /** Kept objects, then survivors, each through the last pass. */
  ghost predicate Layout(items: seq<Obj>, build: Build, plan: Plan, m: map<Id, Id>, order: seq<Id>, out: seq<Obj>) {
    && Parsed(build, plan.kept, order)
    && out == WithPremises(ObjectsOf(build, order) + Survivors(items, |items|, plan), m)
    && (forall id | id in build.objects :: build.objects[id].id == id)
    && (forall id | id in plan.remap :: id !in plan.kept && plan.remap[id] in plan.kept && plan.remap[id] != id)
    && StandsApart(items, plan, m)
    && BaseEdges(build, plan.kept, plan.base)
  }

  lemma MergingGives(items: seq<Obj>, build: Build, r: MergeResult, plan: Plan, order: seq<Id>, out: seq<Obj>)
    requires Merging(items, build, r, plan, order, out)
    ensures Layout(items, build, plan, StandIns(r.removed), order, out)
    ensures plan.remap == r.remap && plan.kept == r.kept && plan.rejected == r.rejected
  {
    RemapIntoKept(items, build, r.kept, r.remap);
    StandInMeaning(items, build, plan, r.removed, StandIns(r.removed));
  }

  lemma OutBase(items: seq<Obj>, build: Build, plan: Plan, m: map<Id, Id>, order: seq<Id>, out: seq<Obj>, k: nat)
    requires Layout(items, build, plan, m, order, out) && k < |order|
    ensures order[k] in plan.kept && order[k] in build.objects && k < |out|
    ensures var o := build.objects[order[k]];
            o.id == order[k] && out[k] == if o.premises != [] then Rewritten(o, m) else o
  {
    assert order[k] in order;
  }

  lemma OutOwn(items: seq<Obj>, build: Build, plan: Plan, m: map<Id, Id>, order: seq<Id>, out: seq<Obj>, k: nat)
    returns (i: nat)
    requires Layout(items, build, plan, m, order, out) && |order| <= k < |out|
    ensures i < |items| && FateOf(items, i, plan) == Shipped && |Survivors(items, i, plan)| == k - |order|
    ensures var o := Rewritten(items[i], plan.remap);
            out[k] == if o.premises != [] then Rewritten(o, m) else o
  {
    i := Origin(items, |items|, plan, k - |order|);
  }

  lemma OutAt(items: seq<Obj>, build: Build, plan: Plan, m: map<Id, Id>, order: seq<Id>, out: seq<Obj>, i: nat)
    requires Layout(items, build, plan, m, order, out) && i < |items| && FateOf(items, i, plan) == Shipped
    ensures |order| + |Survivors(items, i, plan)| < |out|
    ensures out[|order| + |Survivors(items, i, plan)|].id == items[i].id
  {
    ShippedAt(items, |items|, plan, i);
  }

  // ----- The main results

  /** The premises pass moves no end. */
  lemma BaseEndsStay(items: seq<Obj>, build: Build, plan: Plan, m: map<Id, Id>, order: seq<Id>, out: seq<Obj>, k: nat)
    requires Layout(items, build, plan, m, order, out) && EndsAreNodes(items, build) && k < |order|
    ensures k < |out| && order[k] in build.objects && out[k].edge == build.objects[order[k]].edge
  {
    OutBase(items, build, plan, m, order, out, k);
  }

  lemma OwnEndsStay(items: seq<Obj>, build: Build, plan: Plan, m: map<Id, Id>, order: seq<Id>, out: seq<Obj>, k: nat)
    returns (i: nat)
    requires Layout(items, build, plan, m, order, out) && EndsAreNodes(items, build) && |order| <= k < |out|
    ensures i < |items| && FateOf(items, i, plan) == Shipped && |Survivors(items, i, plan)| == k - |order|
    ensures out[k].edge == Rewritten(items[i], plan.remap).edge
  {
    i := OutOwn(items, build, plan, m, order, out, k);
    assert items[i] in items;
  }

  /** Of two shipped relationships the triples differ; neither is a self-loop or has a kept one's triple. */
  lemma ShippedEdges(items: seq<Obj>, plan: Plan, i: nat, i': nat)
    requires i < |items| && FateOf(items, i, plan) == Shipped && items[i].edge.Some?
    ensures var e := MovedEdge(items[i].edge.value, plan.remap); e.source != e.target && e !in plan.base
    ensures i' < |items| && i' != i && FateOf(items, i', plan) == Shipped && items[i'].edge.Some? ==>
              MovedEdge(items[i].edge.value, plan.remap) != MovedEdge(items[i'].edge.value, plan.remap)
  {
    if i' < |items| && FateOf(items, i', plan) == Shipped && items[i'].edge.Some? {
      if i' < i {
        EarlierFinds(items, i, plan, i');
      } else if i < i' {
        EarlierFinds(items, i', plan, i);
      }
    }
  }

  /** No CTIParsor relationship of the output is a self-loop, or repeats the triple of
      another relationship of the output. */
  lemma EdgesAreDistinct(items: seq<Obj>, build: Build, r: MergeResult, plan: Plan, order: seq<Id>, out: seq<Obj>,
                         k: nat, j: nat)
    requires Merging(items, build, r, plan, order, out) && EndsAreNodes(items, build)
    requires |order| <= k < |out| && out[k].edge.Some? && j < |out| && j != k
    ensures out[k].edge.value.source != out[k].edge.value.target
    ensures out[j].edge != out[k].edge
  {
    MergingGives(items, build, r, plan, order, out);
    DistinctIn(items, build, plan, StandIns(r.removed), order, out, k, j);
  }

  lemma DistinctIn(items: seq<Obj>, build: Build, plan: Plan, m: map<Id, Id>, order: seq<Id>, out: seq<Obj>, k: nat, j: nat)
    requires Layout(items, build, plan, m, order, out) && EndsAreNodes(items, build)
    requires |order| <= k < |out| && out[k].edge.Some? && j < |out| && j != k
    ensures out[k].edge.value.source != out[k].edge.value.target
    ensures out[j].edge != out[k].edge
  {
    var i := OwnEndsStay(items, build, plan, m, order, out, k);
    if j < |order| {
      BaseEndsStay(items, build, plan, m, order, out, j);
      ShippedEdges(items, plan, i, i);
      assert order[j] in order;
      NotKept(build, plan, order[j], out[k].edge.value);
    } else {
      var i' := OwnEndsStay(items, build, plan, m, order, out, j);
      ShippedEdges(items, plan, i, i');
    }
  }

  lemma NotKept(build: Build, plan: Plan, id: Id, e: Edge)
    requires BaseEdges(build, plan.kept, plan.base) && e !in plan.base && id in plan.kept && id in build.objects
    ensures build.objects[id].edge != Some(e)
  {
    assert build.objects[id].edge == Some(e) ==> HasEdge(build, plan.kept, id, e);
  }

  /** No CTIParsor object of the output references a remapped id at its top level. */
  lemma NoRemappedReference(items: seq<Obj>, build: Build, r: MergeResult, plan: Plan, order: seq<Id>, out: seq<Obj>,
                            k: nat, x: Id)
    requires Merging(items, build, r, plan, order, out)
    requires |order| <= k < |out| && x in r.remap
    ensures x !in out[k].refs && x !in out[k].premises
    ensures out[k].edge.Some? ==> out[k].edge.value.source != x && out[k].edge.value.target != x
  {
    MergingGives(items, build, r, plan, order, out);
    var m := StandIns(r.removed);
    StandInsNotMoved(items, build, plan, m, order, out);
    var i := OutOwn(items, build, plan, m, order, out, k);
    Misses(items[i], r.remap, m);
  }

  lemma StandInsNotMoved(items: seq<Obj>, build: Build, plan: Plan, m: map<Id, Id>, order: seq<Id>, out: seq<Obj>)
    requires Layout(items, build, plan, m, order, out)
    ensures forall id | id in m :: m[id] !in plan.remap
  {
    forall id | id in m
      ensures m[id] !in plan.remap
    {
      assert Standing(items, plan, m[id]);
    }
  }

  /** A rewrite whose targets it does not move leaves none of the ids it moves. */
  lemma Misses(o: Obj, remap: map<Id, Id>, m: map<Id, Id>)
    requires forall id | id in remap :: remap[id] !in remap
    requires forall id | id in m :: m[id] !in remap
    ensures var once, twice := Rewritten(o, remap), Rewritten(Rewritten(o, remap), m);
            forall x | x in remap ::
              && x !in once.refs && x !in twice.refs && x !in once.premises && x !in twice.premises
              && (o.edge.Some? ==> x !in [once.edge.value.source, once.edge.value.target,
                                          twice.edge.value.source, twice.edge.value.target])
  {
  }

  /** The ends of the list's relationships are among its objects. */
  ghost predicate EndsListed(items: seq<Obj>) {
    forall o | o in items && o.edge.Some? :: Listed(items, o.edge.value.source) && Listed(items, o.edge.value.target)
  }

  ghost predicate Listed(items: seq<Obj>, id: Id) {
    exists o | o in items :: o.id == id && !Skipped(o)
  }

  /** No kept id is excluded, and no kept object references an excluded id. */
  lemma KeptClear(build: Build, kept: set<Id>, dropped: map<Id, Drop>, id: Id)
    requires KeptAndDropped(build, kept, dropped) && id in kept
    ensures id in build.objects && id !in build.excluded && AllRefs(build.objects[id]) !! build.excluded
  {
    var refs, closed, reasons :| ClosedWith(build, refs, closed, reasons) && kept == closed * build.objects.Keys;
    assert Stable(refs, Candidates(build) - build.excluded, build.excluded, {}, closed);
  }

  /** No relationship of the output names an object the analyst rejected. */
  lemma NoRejectedEnd(items: seq<Obj>, build: Build, r: MergeResult, plan: Plan, order: seq<Id>, out: seq<Obj>, k: nat)
    requires Merging(items, build, r, plan, order, out) && EndsAreNodes(items, build) && EndsListed(items)
    requires k < |out| && out[k].edge.Some?
    ensures out[k].edge.value.source !in build.excluded && out[k].edge.value.target !in build.excluded
  {
    MergingGives(items, build, r, plan, order, out);
    if k < |order| {
      BaseEndsStay(items, build, plan, StandIns(r.removed), order, out, k);
      assert order[k] in order;
      KeptClear(build, r.kept, r.dropped, order[k]);
    } else {
      var i := OwnEndsStay(items, build, plan, StandIns(r.removed), order, out, k);
      assert items[i] in items;
      ShippedClear(items, build, r, plan, i);
    }
  }

  lemma ShippedClear(items: seq<Obj>, build: Build, r: MergeResult, plan: Plan, i: nat)
    requires Planned(items, build, r, plan) && EndsListed(items) && i < |items|
    requires FateOf(items, i, plan) == Shipped && items[i].edge.Some?
    ensures var e := MovedEdge(items[i].edge.value, plan.remap);
            e.source !in build.excluded && e.target !in build.excluded
  {
    assert items[i] in items;
    EndClear(items, build, r, items[i].edge.value.source);
    EndClear(items, build, r, items[i].edge.value.target);
  }

  lemma EndClear(items: seq<Obj>, build: Build, r: MergeResult, end: Id)
    requires KeptAndDropped(build, r.kept, r.dropped) && Remapped(items, |items|, build, r.kept, r.remap)
    requires r.rejected == RejectedIds(items, build, r.kept, r.remap) && Listed(items, end)
    ensures At(r.remap, end) !in build.excluded || At(r.remap, end) in r.rejected
  {
    RemapIntoKept(items, build, r.kept, r.remap);
    if At(r.remap, end) in r.kept {
      KeptClear(build, r.kept, r.dropped, At(r.remap, end));
    } else {
      var o :| o in items && o.id == end && !Skipped(o);
    }
  }

  /** Every object of the list is accounted for: it became a kept object, shares its id,
      was rejected by its own id, was removed with a reason, or ships in its place; the
      numbers add up, and nothing else is in the output. */
  lemma EveryObjectOnce(items: seq<Obj>, build: Build, r: MergeResult, plan: Plan, order: seq<Id>, out: seq<Obj>)
    requires Merging(items, build, r, plan, order, out)
    ensures |items| == Absorbed(items, |items|, plan) + |r.removed| + (|out| - |r.kept|)
    ensures forall i | 0 <= i < |items| :: Accounted(items, build, r, plan, order, out, i)
    ensures forall k | 0 <= k < |out| :: Sourced(items, r, plan, order, out[k].id, k)
  {
    MergingGives(items, build, r, plan, order, out);
    Conserved(items, |items|, plan);
    OrderCounts(order, r.kept);
    forall i | 0 <= i < |items|
      ensures Accounted(items, build, r, plan, order, out, i)
    {
      RemovedIn(items, |items|, plan, i);
      EachAccounted(items, build, r, plan, StandIns(r.removed), order, out, i);
    }
    forall k | 0 <= k < |out|
      ensures Sourced(items, r, plan, order, out[k].id, k)
    {
      if k < |order| {
        OutBase(items, build, plan, StandIns(r.removed), order, out, k);
      } else {
        var i := OutOwn(items, build, plan, StandIns(r.removed), order, out, k);
      }
    }
  }

  /** The `k`-th object of the output, of this id, is the `k`-th kept object, or one that ships. */
  ghost predicate Sourced(items: seq<Obj>, r: MergeResult, plan: Plan, order: seq<Id>, id: Id, k: nat) {
    if k < |order| then id == order[k] && id in r.kept
    else exists i | 0 <= i < |items| :: FateOf(items, i, plan) == Shipped && items[i].id == id
  }

  ghost predicate Accounted(items: seq<Obj>, build: Build, r: MergeResult, plan: Plan, order: seq<Id>, out: seq<Obj>,
                            i: nat)
    requires i < |items|
  {
    var o := items[i];
    match FateOf(items, i, plan)
    case Became(t) => t != o.id && HasId(out, t)
    case SharesId => HasId(out, o.id)
    case Rejected => o.id in build.excluded && o.id in r.rejected
    case Shipped => var k := |order| + |Survivors(items, i, plan)|; k < |out| && out[k].id == o.id
    case Duplicate(of) =>
      Removal(o.id, "duplicate_after_baseline_merge", Some(of)) in r.removed && HasId(out, of)
    case EndRejected => Removal(o.id, "baseline_rejected", None) in r.removed
    case SelfLoop => Removal(o.id, "self_loop_after_baseline_merge", None) in r.removed
  }

  ghost predicate HasId(out: seq<Obj>, id: Id) {
    exists k | 0 <= k < |out| :: out[k].id == id
  }

  lemma {:induction false} OrderCounts(order: seq<Id>, ids: set<Id>)
    requires forall id :: id in order <==> id in ids
    requires forall i, j | 0 <= i < j < |order| :: order[i] != order[j]
    ensures |order| == |ids|
  {
    if order == [] {
      assert ids == {};
    } else {
      var rest := order[1..];
      assert order == [order[0]] + rest;
      assert forall id :: id in rest <==> id in ids - {order[0]};
      OrderCounts(rest, ids - {order[0]});
    }
  }

  lemma KeptHasId(items: seq<Obj>, build: Build, plan: Plan, m: map<Id, Id>, order: seq<Id>, out: seq<Obj>, id: Id)
    requires Layout(items, build, plan, m, order, out) && id in plan.kept
    ensures HasId(out, id)
  {
    assert id in order;
    var k :| 0 <= k < |order| && order[k] == id;
    OutBase(items, build, plan, m, order, out, k);
  }

  lemma StandingHasId(items: seq<Obj>, build: Build, plan: Plan, m: map<Id, Id>, order: seq<Id>, out: seq<Obj>, id: Id)
    requires Layout(items, build, plan, m, order, out) && Standing(items, plan, id)
    ensures HasId(out, id)
  {
    if id in plan.kept {
      KeptHasId(items, build, plan, m, order, out, id);
    } else {
      var j :| 0 <= j < |items| && FateOf(items, j, plan) == Shipped && items[j].id == id;
      OutAt(items, build, plan, m, order, out, j);
    }
  }

  lemma EachAccounted(items: seq<Obj>, build: Build, r: MergeResult, plan: Plan, m: map<Id, Id>, order: seq<Id>,
                      out: seq<Obj>, i: nat)
    requires Layout(items, build, plan, m, order, out) && i < |items|
    requires RemovalOf(items[i].id, FateOf(items, i, plan)).Some? ==>
               RemovalOf(items[i].id, FateOf(items, i, plan)).value in r.removed
    requires plan.rejected == r.rejected && r.rejected == RejectedIds(items, build, plan.kept, plan.remap)
    ensures Accounted(items, build, r, plan, order, out, i)
  {
    match FateOf(items, i, plan)
    case Became(t) => KeptHasId(items, build, plan, m, order, out, t);
    case SharesId => KeptHasId(items, build, plan, m, order, out, items[i].id);
    case Shipped => OutAt(items, build, plan, m, order, out, i);
    case Duplicate(of) =>
      DuplicateStands(items, build, plan, i);
      StandingHasId(items, build, plan, m, order, out, of);
    case _ =>
  }

  /** Objects of distinct ids give an output of distinct ids. */
  lemma OutputIdsDistinct(items: seq<Obj>, build: Build, r: MergeResult, plan: Plan, order: seq<Id>, out: seq<Obj>,
                          j: nat, k: nat)
    requires Merging(items, build, r, plan, order, out)
    requires forall i, i' | 0 <= i < i' < |items| :: items[i].id != items[i'].id
    requires j < k < |out|
    ensures out[j].id != out[k].id
  {
    MergingGives(items, build, r, plan, order, out);
    IdsDistinctIn(items, build, plan, StandIns(r.removed), order, out, j, k);
  }

  lemma IdsDistinctIn(items: seq<Obj>, build: Build, plan: Plan, m: map<Id, Id>, order: seq<Id>, out: seq<Obj>,
                      j: nat, k: nat)
    requires Layout(items, build, plan, m, order, out)
    requires forall i, i' | 0 <= i < i' < |items| :: items[i].id != items[i'].id
    requires j < k < |out|
    ensures out[j].id != out[k].id
  {
    if k < |order| {
      OutBase(items, build, plan, m, order, out, j);
      OutBase(items, build, plan, m, order, out, k);
    } else if j < |order| {
      BaseAndOwn(items, build, plan, m, order, out, j, k);
    } else {
      TwoOwn(items, build, plan, m, order, out, j, k);
    }
  }

  lemma BaseAndOwn(items: seq<Obj>, build: Build, plan: Plan, m: map<Id, Id>, order: seq<Id>, out: seq<Obj>,
                   j: nat, k: nat)
    requires Layout(items, build, plan, m, order, out) && j < |order| <= k < |out|
    ensures out[j].id != out[k].id
  {
    OutBase(items, build, plan, m, order, out, j);
    var i := OutOwn(items, build, plan, m, order, out, k);
  }

  lemma TwoOwn(items: seq<Obj>, build: Build, plan: Plan, m: map<Id, Id>, order: seq<Id>, out: seq<Obj>,
               j: nat, k: nat)
    requires Layout(items, build, plan, m, order, out) && |order| <= j < k < |out|
    requires forall i, i' | 0 <= i < i' < |items| :: items[i].id != items[i'].id
    ensures out[j].id != out[k].id
  {
    var i := OutOwn(items, build, plan, m, order, out, j);
    var i' := OutOwn(items, build, plan, m, order, out, k);
    assert i != i';
  }

  /** What the document states of the baseline is kept. */
  lemma StatedIsKept(items: seq<Obj>, build: Build, r: MergeResult, plan: Plan, order: seq<Id>, out: seq<Obj>)
    requires Merging(items, build, r, plan, order, out)
    ensures r.stated <= r.kept
  {
    RemapIntoKept(items, build, r.kept, r.remap);
  }

  // ----- Are baseline objects rewritten?

  /** The ids a rewrite of `o` reads. */
  function Read(o: Obj): set<Id> {
    (set x | x in o.refs) + (set x | x in o.premises)
    + EndsOf(o)
  }

  lemma ThroughMoves(ids: seq<Id>, m: map<Id, Id>)
    ensures Through(ids, m) == ids <==> forall x | x in ids :: At(m, x) == x
  {
    forall x | x in ids && Through(ids, m) == ids
      ensures At(m, x) == x
    {
      var i :| 0 <= i < |ids| && ids[i] == x;
      assert Through(ids, m)[i] == x;
    }
  }

  function EndsOf(o: Obj): set<Id> {
    if o.edge.Some? then {o.edge.value.source, o.edge.value.target} else {}
  }

  lemma EdgeMoves(o: Obj, m: map<Id, Id>)
    ensures Rewritten(o, m).edge == o.edge <==> forall x | x in EndsOf(o) :: At(m, x) == x
  {
    if o.edge.Some? {
      assert o.edge.value.source in EndsOf(o) && o.edge.value.target in EndsOf(o);
    }
  }

  lemma RewriteMoves(o: Obj, m: map<Id, Id>)
    ensures Rewritten(o, m) == o <==> forall x | x in Read(o) :: At(m, x) == x
  {
    ThroughMoves(o.refs, m);
    ThroughMoves(o.premises, m);
    EdgeMoves(o, m);
    assert forall x :: x in Read(o) <==> x in o.refs || x in o.premises || x in EndsOf(o);
  }

  /** A relationship of the list that, with its ends moved, has the triple of a kept edge or of
      an earlier one of the list. */
  ghost predicate Repeats(items: seq<Obj>, j: nat, build: Build, plan: Plan)
    requires j < |items|
  {
    Arrives(items[j], plan)
    && var e := MovedEdge(items[j].edge.value, plan.remap);
       || (exists id :: HasEdge(build, plan.kept, id, e))
       || exists i | 0 <= i < j :: Arrives(items[i], plan) && MovedEdge(items[i].edge.value, plan.remap) == e
  }

  lemma {:induction false} EarlierMeans(items: seq<Obj>, n: nat, plan: Plan, e: Edge)
    requires n <= |items|
    ensures Earlier(items, n, plan, e).Some? <==>
              exists i | 0 <= i < n :: Arrives(items[i], plan) && MovedEdge(items[i].edge.value, plan.remap) == e
  {
    if n > 0 {
      EarlierMeans(items, n - 1, plan, e);
    }
  }

  lemma RepeatsIff(items: seq<Obj>, j: nat, build: Build, plan: Plan)
    requires j < |items| && BaseEdges(build, plan.kept, plan.base)
    ensures FateOf(items, j, plan).Duplicate? <==> Repeats(items, j, build, plan)
  {
    if Arrives(items[j], plan) {
      var e := MovedEdge(items[j].edge.value, plan.remap);
      EarlierMeans(items, j, plan, e);
      if e in plan.base {
        assert HasEdge(build, plan.kept, plan.base[e], e);
      }
    }
  }

  /** The last relationship of its id to repeat another one. */
  ghost predicate LastRepeat(items: seq<Obj>, j: nat, build: Build, plan: Plan)
    requires j < |items|
  {
    Repeats(items, j, build, plan)
    && forall i | j < i < |items| && items[i].id == items[j].id :: !Repeats(items, i, build, plan)
  }

  /** The stand-ins move an id exactly when a relationship of the list with that id repeats one
      of another id, the last such relationship counting. */
  lemma MovedIff(items: seq<Obj>, build: Build, plan: Plan, id: Id)
    requires BaseEdges(build, plan.kept, plan.base)
    ensures At(StandIns(Removals(items, |items|, plan)), id) == id <==>
              forall j | 0 <= j < |items| && items[j].id == id && LastRepeat(items, j, build, plan) ::
                FateOf(items, j, plan) == Duplicate(id)
  {
    StandInsAre(items, |items|, plan, id);
    forall j | 0 <= j < |items|
      ensures FateOf(items, j, plan).Duplicate? <==> Repeats(items, j, build, plan)
    {
      RepeatsIff(items, j, build, plan);
    }
    var last := LastDuplicate(items, |items|, plan, id);
    if last.Some? {
      assert LastRepeat(items, last.value, build, plan);
      assert forall j | 0 <= j < |items| && items[j].id == id && LastRepeat(items, j, build, plan) :: j == last.value;
    }
  }

  /** A kept baseline object is written as received unless it states premises and names a
      relationship of the list that repeats another one: then, and only then, the last pass
      rewrites it. */
  lemma BaselineUntouched(items: seq<Obj>, build: Build, r: MergeResult, plan: Plan, order: seq<Id>, out: seq<Obj>, k: nat)
    requires Merging(items, build, r, plan, order, out) && k < |order|
    ensures k < |out| && order[k] in build.objects
    ensures var o := build.objects[order[k]];
            out[k] == o <==>
              || o.premises == []
              || forall j | 0 <= j < |items| && items[j].id in Read(o) && LastRepeat(items, j, build, plan) ::
                   FateOf(items, j, plan) == Duplicate(items[j].id)
  {
    MergingGives(items, build, r, plan, order, out);
    OutBase(items, build, plan, StandIns(r.removed), order, out, k);
    var o := build.objects[order[k]];
    RewriteMoves(o, StandIns(r.removed));
    forall x | x in Read(o)
      ensures At(StandIns(r.removed), x) == x <==>
                forall j | 0 <= j < |items| && items[j].id == x && LastRepeat(items, j, build, plan) ::
                  FateOf(items, j, plan) == Duplicate(x)
    {
      MovedIff(items, build, plan, x);
    }
  }

  lemma DuplicateOfAnother(items: seq<Obj>, build: Build, plan: Plan, j: nat)
    requires j < |items| && FateOf(items, j, plan).Duplicate? && BaseEdges(build, plan.kept, plan.base)
    requires forall i, i' | 0 <= i < i' < |items| :: items[i].id != items[i'].id
    ensures FateOf(items, j, plan).of != items[j].id
  {
    var e := MovedEdge(items[j].edge.value, plan.remap);
    if e in plan.base {
      assert HasEdge(build, plan.kept, plan.base[e], e);
    } else {
      var i := EarlierShips(items, j, plan, e);
    }
  }

  /** When the ids of the list are distinct: exactly when it names a relationship that repeats
      a kept edge, or an earlier one of the list. */
  lemma BaselineRewrittenIff(items: seq<Obj>, build: Build, r: MergeResult, plan: Plan, order: seq<Id>, out: seq<Obj>,
                             k: nat)
    requires Merging(items, build, r, plan, order, out) && k < |order|
    requires forall i, i' | 0 <= i < i' < |items| :: items[i].id != items[i'].id
    ensures k < |out| && order[k] in build.objects
    ensures var o := build.objects[order[k]];
            out[k] != o <==>
              o.premises != [] && exists j | 0 <= j < |items| :: items[j].id in Read(o) && Repeats(items, j, build, plan)
  {
    BaselineUntouched(items, build, r, plan, order, out, k);
    forall j | 0 <= j < |items|
      ensures Repeats(items, j, build, plan) ==>
                LastRepeat(items, j, build, plan) && FateOf(items, j, plan) != Duplicate(items[j].id)
    {
      RepeatsIff(items, j, build, plan);
      if Repeats(items, j, build, plan) {
        DuplicateOfAnother(items, build, plan, j);
      }
    }
  }

  /** In particular when it names no relationship of the list. */
  lemma BaselineUntouchedBefore(items: seq<Obj>, build: Build, r: MergeResult, plan: Plan, order: seq<Id>, out: seq<Obj>,
                                k: nat)
    requires Merging(items, build, r, plan, order, out) && k < |order|
    requires order[k] in build.objects
    requires build.objects[order[k]].premises == [] || Read(build.objects[order[k]]) !! Links(items)
    ensures k < |out| && out[k] == build.objects[order[k]]
  {
    MergingGives(items, build, r, plan, order, out);
    BaselineUntouched(items, build, r, plan, order, out, k);
  }

  function Sro(id: string, source: string, target: string, premises: seq<Id>): Obj {
    Obj(Id(id), "relationship", [], {}, Some(Edge(Id(source), "uses", Id(target))), premises, {}, {}, {}, {}, None, true)
  }

  /** A baseline whose inferred edge names, as its premise, the relationship the document
      holds under an id of its own: the merge rewrites that baseline edge. */
  method BaselineEdgeRewritten() returns (premises: seq<Id>, received: seq<Id>)
    ensures received == [Id("relationship--s")] && premises == [Id("relationship--b")]
  {
    var stated, inferred := Sro("relationship--b", "a", "m", []), Sro("relationship--i", "a", "t", [Id("relationship--s")]);
    var build := Build([], {stated.id, inferred.id}, {}, None, map[stated.id := stated, inferred.id := inferred], {});
    var again := Sro("relationship--s", "a", "m", []);
    var list := new ObjectList([again]);
    var r;
    ghost var plan, order;
    r, plan, order := MergeBaseline(list, build);
    PremiseFollows(build, stated, inferred, again, r, plan, order, list.items);
    var k :| 0 <= k < |list.items| && list.items[k].id == inferred.id && list.items[k].premises == [stated.id];
    premises, received := list.items[k].premises, inferred.premises;
  }

  /** The relationship `again` duplicates the kept `stated`, and is the premise of the kept `inferred`. */
  lemma PremiseFollows(build: Build, stated: Obj, inferred: Obj, again: Obj, r: MergeResult, plan: Plan, order: seq<Id>,
                       out: seq<Obj>)
    requires Merging([again], build, r, plan, order, out)
    requires build == Build([], {stated.id, inferred.id}, {}, None, map[stated.id := stated, inferred.id := inferred], {})
    requires stated.id != inferred.id && again.id != stated.id && again.id != inferred.id
    requires again.edge.Some? && stated.edge == again.edge != inferred.edge
    requires again.edge.value.source != again.edge.value.target && inferred.premises == [again.id]
    ensures exists k :: 0 <= k < |out| && out[k].id == inferred.id && out[k].premises == [stated.id]
  {
    MergingGives([again], build, r, plan, order, out);
    StatedDuplicated(build, stated, inferred, again, r, plan);
    InferredMoved(build, plan, inferred, again, stated.id, order, out);
  }

  lemma StatedDuplicated(build: Build, stated: Obj, inferred: Obj, again: Obj, r: MergeResult, plan: Plan)
    requires Planned([again], build, r, plan) && r.removed == Removals([again], 1, plan) && WellFormed(again)
    requires build.excluded == {} && build.scopeReport.None? && build.imported == {stated.id, inferred.id}
    requires build.objects == map[stated.id := stated, inferred.id := inferred]
    requires stated.id != inferred.id && again.id != stated.id && again.id != inferred.id
    requires again.edge.Some? && stated.edge == again.edge != inferred.edge
    requires again.edge.value.source != again.edge.value.target
    ensures r.kept == {stated.id, inferred.id} && StandIns(r.removed) == map[again.id := stated.id]
  {
    assert build.objects.Keys == {stated.id, inferred.id};
    NothingMatched(build, again, r, plan);
    DuplicateOfStated(build, stated, inferred, again, r.removed, plan);
  }

  lemma DuplicateOfStated(build: Build, stated: Obj, inferred: Obj, again: Obj, removed: seq<Removal>, plan: Plan)
    requires removed == Removals([again], 1, plan) && BaseEdges(build, plan.kept, plan.base)
    requires plan == Plan(map[], {stated.id, inferred.id}, {}, plan.base)
    requires build.objects == map[stated.id := stated, inferred.id := inferred]
    requires stated.id != inferred.id && again.id != stated.id && again.id != inferred.id
    requires again.edge.Some? && stated.edge == again.edge != inferred.edge
    requires again.edge.value.source != again.edge.value.target
    ensures StandIns(removed) == map[again.id := stated.id]
  {
    LoneEdge(build, plan.kept, stated, inferred);
    OneDuplicate(build, again, removed, plan, stated.id);
  }

  lemma LoneEdge(build: Build, kept: set<Id>, stated: Obj, inferred: Obj)
    requires kept == {stated.id, inferred.id} && stated.id != inferred.id && stated.edge.Some?
    requires build.objects == map[stated.id := stated, inferred.id := inferred] && stated.edge != inferred.edge
    ensures forall id :: HasEdge(build, kept, id, stated.edge.value) <==> id == stated.id
  {
  }

  lemma NothingMatched(build: Build, again: Obj, r: MergeResult, plan: Plan)
    requires Planned([again], build, r, plan) && again.edge.Some? && WellFormed(again)
    requires build.excluded == {} && build.scopeReport.None? && build.imported == build.objects.Keys
    ensures r.kept == build.imported && plan == Plan(map[], r.kept, {}, plan.base)
    ensures BaseEdges(build, plan.kept, plan.base)
  {
    AllAreKept(build, r.kept, r.dropped, build.imported);
    NothingMatches(again, build, r);
  }

  lemma InferredMoved(build: Build, plan: Plan, inferred: Obj, again: Obj, of: Id, order: seq<Id>, out: seq<Obj>)
    requires Layout([again], build, plan, map[again.id := of], order, out)
    requires inferred.id in plan.kept && inferred.id in build.objects && build.objects[inferred.id] == inferred
    requires inferred.premises == [again.id]
    ensures exists k :: 0 <= k < |out| && out[k].id == inferred.id && out[k].premises == [of]
  {
    assert inferred.id in order;
    var k :| 0 <= k < |order| && order[k] == inferred.id;
    OutBase([again], build, plan, map[again.id := of], order, out, k);
    assert Through([again.id], map[again.id := of]) == [of];
  }

  lemma AllAreKept(build: Build, kept: set<Id>, dropped: map<Id, Drop>, all: set<Id>)
    requires KeptAndDropped(build, kept, dropped)
    requires build.excluded == {} && build.scopeReport.None? && build.imported == all == build.objects.Keys
    ensures kept == all
  {
    var refs, closed, reasons :| ClosedWith(build, refs, closed, reasons) && kept == closed * build.objects.Keys;
    assert Stable(refs, Candidates(build) - {}, {}, {}, all);
  }

  lemma NothingMatches(again: Obj, build: Build, r: MergeResult)
    requires Remapped([again], 1, build, r.kept, r.remap) && again.edge.Some? && WellFormed(again)
    ensures r.remap == map[]
  {
    RemapIntoKept([again], build, r.kept, r.remap);
    assert r.remap.Keys == {};
  }

  lemma OneDuplicate(build: Build, again: Obj, removed: seq<Removal>, plan: Plan, of: Id)
    requires removed == Removals([again], 1, plan) && BaseEdges(build, plan.kept, plan.base)
    requires plan.remap == map[] && again.id !in plan.kept && plan.rejected == {}
    requires again.edge.Some? && again.edge.value.source != again.edge.value.target
    requires forall id :: HasEdge(build, plan.kept, id, again.edge.value) <==> id == of
    ensures StandIns(removed) == map[again.id := of]
  {
    assert HasEdge(build, plan.kept, of, again.edge.value);
    assert FateOf([again], 0, plan) == Duplicate(of);
    assert Removals([again], 0, plan) == [];
    assert removed == [Removal(again.id, "duplicate_after_baseline_merge", Some(of))];
    assert removed[..0] == [];
    assert StandIns(removed[..0]) == map[];
  }
}
