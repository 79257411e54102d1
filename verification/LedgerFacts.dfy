/**
 After a merge the ledger still describes the list (pipeline/bundle_ledger.py:197-308 over
 pipeline/baseline_stix.py:1912-1969).
 */
module LedgerFacts {
  import opened Common
  import opened References
  import opened Matching
  import opened Merge
  import opened MergeFacts
  import opened Ledger

  ghost predicate DistinctIds(items: seq<Obj>) {
    forall i, j | 0 <= i < j < |items| :: items[i].id != items[j].id
  }

  predicate InList(items: seq<Obj>, id: Id) {
    exists o | o in items :: o.id == id
  }

  function RemovedIds(removed: seq<Removal>): set<Id> {
    set x | x in removed :: x.id
  }

  // ----- The removed relationships

  /** Removals are of distinct relationships, and none stands for another. */
  ghost predicate Tidy(removed: seq<Removal>) {
    && IdsDiffer(removed)
    && (forall x | x in removed && x.standIn.Some? :: x.standIn.value !in RemovedIds(removed))
  }

  /** One removal at most concerns an entry. */
  lemma {:induction false} RemoveAllMeaning(e: Rel, removed: seq<Removal>, n: nat)
    requires Tidy(removed) && n <= |removed|
    ensures (forall i | 0 <= i < n :: e.id != Some(removed[i].id)) ==> RemoveAll(e, removed, n) == e
    ensures forall i | 0 <= i < n && e.id == Some(removed[i].id) :: RemoveAll(e, removed, n) == RemoveRel(e, removed[i])
  {
    if n > 0 {
      RemoveAllMeaning(e, removed, n - 1);
      forall i | 0 <= i < n - 1 && e.id == Some(removed[i].id)
        ensures RemoveAll(e, removed, n) == RemoveRel(e, removed[i])
      {
        assert removed[i] in removed && removed[n - 1] in removed;
        assert removed[n - 1].id in RemovedIds(removed);
      }
    }
  }

  /** A removed relationship is one of the list that did not ship. */
  lemma RemovedWas(items: seq<Obj>, plan: Plan, removed: seq<Removal>, x: Removal) returns (i: nat)
    requires removed == Removals(items, |items|, plan) && x in removed
    ensures i < |items| && items[i].id == x.id && RemovalOf(items[i].id, FateOf(items, i, plan)) == Some(x)
    ensures items[i].id !in plan.kept && items[i].id !in plan.remap && items[i].id !in plan.rejected
    ensures FateOf(items, i, plan) != Shipped
  {
    i := RemovalSource(items, |items|, plan, x);
  }

  ghost predicate IdsDiffer(removed: seq<Removal>) {
    forall i, j | 0 <= i < j < |removed| :: removed[i].id != removed[j].id
  }

  /** The object whose removal is the `k`-th. */
  function {:induction false} RemovalOrigin(items: seq<Obj>, n: nat, plan: Plan, k: nat): (i: nat)
    requires n <= |items| && k < |Removals(items, n, plan)|
    ensures i < n && Removals(items, n, plan)[k].id == items[i].id && |Removals(items, i, plan)| == k
  {
    if k < |Removals(items, n - 1, plan)| then RemovalOrigin(items, n - 1, plan, k) else n - 1
  }

  lemma RemovedInOrder(items: seq<Obj>, n: nat, plan: Plan)
    requires n <= |items| && DistinctIds(items)
    ensures IdsDiffer(Removals(items, n, plan))
  {
    var removed := Removals(items, n, plan);
    forall j, k | 0 <= j < k < |removed|
      ensures removed[j].id != removed[k].id
    {
      var i, i' := RemovalOrigin(items, n, plan, j), RemovalOrigin(items, n, plan, k);
    }
  }

  lemma RemovalsAreTidy(items: seq<Obj>, build: Build, plan: Plan, removed: seq<Removal>)
    requires DistinctIds(items) && BaseEdges(build, plan.kept, plan.base)
    requires removed == Removals(items, |items|, plan)
    ensures Tidy(removed)
  {
    RemovedInOrder(items, |items|, plan);
    forall x | x in removed && x.standIn.Some?
      ensures x.standIn.value !in RemovedIds(removed)
    {
      var i := RemovalSource(items, |items|, plan, x);
      DuplicateFate(items, plan, i, x);
      DuplicateStands(items, build, plan, i);
      forall y | y in removed
        ensures y.id != x.standIn.value
      {
        var j := RemovedWas(items, plan, removed, y);
      }
    }
  }

  // ----- Which ids are in the output

  /** An object of the list whose id is not remapped is in the output, by its id, unless it
      was rejected or removed. */
  lemma StillThere(items: seq<Obj>, build: Build, r: MergeResult, plan: Plan, m: map<Id, Id>, order: seq<Id>, out: seq<Obj>,
                   id: Id)
    requires Layout(items, build, plan, m, order, out) && DistinctIds(items) && InList(items, id)
    requires r.removed == Removals(items, |items|, plan) && id !in plan.remap
    ensures HasId(out, id) <==> id in plan.kept || (id !in plan.rejected && id !in RemovedIds(r.removed))
  {
    var i :| 0 <= i < |items| && items[i].id == id;
    if id in plan.kept {
      KeptHasId(items, build, plan, m, order, out, id);
    } else {
      ShipsUnless(items, plan, r.removed, i);
      if FateOf(items, i, plan) == Shipped {
        OutAt(items, build, plan, m, order, out, i);
      } else {
        NotThere(items, build, plan, m, order, out, i);
      }
    }
  }

  lemma ShipsUnless(items: seq<Obj>, plan: Plan, removed: seq<Removal>, i: nat)
    requires removed == Removals(items, |items|, plan) && DistinctIds(items) && i < |items|
    requires items[i].id !in plan.remap && items[i].id !in plan.kept
    ensures FateOf(items, i, plan) == Shipped <==> items[i].id !in plan.rejected && items[i].id !in RemovedIds(removed)
  {
    if FateOf(items, i, plan) == Shipped {
      NotRemoved(items, plan, removed, i);
    } else {
      RemovedIn(items, |items|, plan, i);
    }
  }

  lemma NotThere(items: seq<Obj>, build: Build, plan: Plan, m: map<Id, Id>, order: seq<Id>, out: seq<Obj>, i: nat)
    requires Layout(items, build, plan, m, order, out) && DistinctIds(items) && i < |items|
    requires items[i].id !in plan.kept && FateOf(items, i, plan) != Shipped
    ensures !HasId(out, items[i].id)
  {
    forall k | 0 <= k < |out|
      ensures out[k].id != items[i].id
    {
      if k < |order| {
        OutBase(items, build, plan, m, order, out, k);
      } else {
        var j := OutOwn(items, build, plan, m, order, out, k);
      }
    }
  }

  // ----- The entries

  ghost predicate Marked(before: Mark, after: Mark, reason: string) {
    after == Mark(Dropped, Some(reason), before.via)
  }

  /** An entity entry that named an object of the list still names one of the merged list,
      unless its object was rejected: then it is dropped with that reason.  One that named a
      removed relationship would be left over, and a ledger in step with the list has none. */
  lemma EntityStillNames(items: seq<Obj>, build: Build, r: MergeResult, plan: Plan, order: seq<Id>, out: seq<Obj>, e: Entity)
    requires Merging(items, build, r, plan, order, out) && DistinctIds(items)
    requires e.id.Some? && InList(items, e.id.value)
    ensures var a := EntityAfter(e, r);
            if e.id.value in r.rejected then a.id.None? && Marked(e.mark, a.mark, BASELINE_REJECTED)
            else if e.id.value in r.remap
            then a.id == Some(r.remap[e.id.value]) && HasId(out, a.id.value) && a.mark == MergedAs(e.mark, BASELINE_MATCH)
            else a == e && (HasId(out, e.id.value) <==> e.id.value !in RemovedIds(r.removed))
  {
    MergingGives(items, build, r, plan, order, out);
    var id := e.id.value;
    EntityCases(e, r, build, items);
    if id in r.remap {
      KeptHasId(items, build, plan, StandIns(r.removed), order, out, r.remap[id]);
    } else {
      StillThere(items, build, r, plan, StandIns(r.removed), order, out, id);
      KeptNotRemoved(items, plan, r.removed, id);
      KeptNotRejected(items, build, r, id);
    }
  }

  lemma EntityCases(e: Entity, r: MergeResult, build: Build, items: seq<Obj>)
    requires r.rejected == RejectedIds(items, build, r.kept, r.remap) && e.id.Some?
    requires forall id | id in r.remap :: r.remap[id] in r.kept
    ensures var id, a := e.id.value, EntityAfter(e, r);
            if id in r.rejected then id !in r.remap && a.id.None? && Marked(e.mark, a.mark, BASELINE_REJECTED)
            else if id in r.remap then a == Entity(Some(r.remap[id]), MergedAs(e.mark, BASELINE_MATCH))
            else a == e
  {
  }

  lemma KeptNotRemoved(items: seq<Obj>, plan: Plan, removed: seq<Removal>, id: Id)
    requires removed == Removals(items, |items|, plan)
    ensures id in RemovedIds(removed) ==> id !in plan.kept && id !in plan.remap && id !in plan.rejected
  {
    if id in RemovedIds(removed) {
      var x :| x in removed && x.id == id;
      var i := RemovedWas(items, plan, removed, x);
    }
  }

  /** A relationship entry that named an object of the list still names one of the merged
      list, unless its relationship was removed with nothing standing for it: then it is
      dropped with the reason.  One that named a rejected object, no relationship, would be
      left over, and a ledger in step with the list has none. */
  lemma RelStillNames(items: seq<Obj>, build: Build, r: MergeResult, plan: Plan, order: seq<Id>, out: seq<Obj>, e: Rel)
    requires Merging(items, build, r, plan, order, out) && DistinctIds(items)
    requires e.id.Some? && InList(items, e.id.value)
    ensures var a := RelAfter(e, r);
            if e.id.value in RemovedIds(r.removed) then
              exists x | x in r.removed && x.id == e.id.value ::
                a.id == x.standIn
                && (if x.standIn.Some? then HasId(out, a.id.value) && a.mark.outcome == Merged && a.mergedWith == x.standIn
                    else Marked(e.mark, a.mark, x.reason))
            else if e.id.value in r.remap
            then a.id == Some(r.remap[e.id.value]) && HasId(out, a.id.value) && a.mark == MergedAs(e.mark, BASELINE_MATCH)
            else a.id == e.id && a.mark == e.mark && (HasId(out, e.id.value) <==> e.id.value !in r.rejected)
  {
    MergingGives(items, build, r, plan, order, out);
    RemovalsAreTidy(items, build, plan, r.removed);
    var id, once := e.id.value, RemapRel(e, r.remap);
    var m := StandIns(r.removed);
    KeptNotRemoved(items, plan, r.removed, id);
    if id in RemovedIds(r.removed) {
      var x :| x in r.removed && x.id == id;
      RemovedEntry(e, r, x);
      if x.standIn.Some? {
        var i := RemovalSource(items, |items|, plan, x);
        DuplicateFate(items, plan, i, x);
        DuplicateStands(items, build, plan, i);
        StandingHasId(items, build, plan, m, order, out, x.standIn.value);
      }
    } else if id in r.remap {
      KeptNotRemoved(items, plan, r.removed, r.remap[id]);
      KeptHasId(items, build, plan, m, order, out, r.remap[id]);
      UnremovedEntry(e, r);
    } else {
      StillThere(items, build, r, plan, m, order, out, id);
      UnremovedEntry(e, r);
      KeptNotRejected(items, build, r, id);
    }
  }

  lemma KeptNotRejected(items: seq<Obj>, build: Build, r: MergeResult, id: Id)
    requires r.rejected == RejectedIds(items, build, r.kept, r.remap)
    ensures id in r.kept ==> id !in r.rejected
  {
  }

  lemma RemovedEntry(e: Rel, r: MergeResult, x: Removal)
    requires Tidy(r.removed) && x in r.removed && e.id == Some(x.id) && x.id !in r.remap
    ensures var a := RelAfter(e, r);
            a.id == x.standIn && a.mark == RemoveRel(e, x).mark && a.mergedWith == RemoveRel(e, x).mergedWith
  {
    RemoveAllMeaning(e, r.removed, |r.removed|);
    var i :| 0 <= i < |r.removed| && r.removed[i] == x;
  }

  lemma UnremovedEntry(e: Rel, r: MergeResult)
    requires Tidy(r.removed) && e.id.Some?
    requires var once := RemapRel(e, r.remap); once.id.value !in RemovedIds(r.removed)
    ensures RelAfter(e, r).id == RemapRel(e, r.remap).id && RelAfter(e, r).mark == RemapRel(e, r.remap).mark
    ensures RelAfter(e, r) == FollowEnds(NewEndsOf(RemapRel(e, r.remap), r.newEnds), r.remap)
  {
    RemoveAllMeaning(RemapRel(e, r.remap), r.removed, |r.removed|);
    assert forall i | 0 <= i < |r.removed| :: r.removed[i] in r.removed;
  }

  // ----- The ends

  lemma {:induction false} NewEndsMeaning(items: seq<Obj>, n: nat, plan: Plan, i: nat)
    requires n <= |items| && DistinctIds(items) && i < n && FateOf(items, i, plan) == Shipped && items[i].edge.Some?
    ensures items[i].id in NewEnds(items, n, plan) <==> HasMoved(items[i], plan.remap)
    ensures HasMoved(items[i], plan.remap) ==>
              NewEnds(items, n, plan)[items[i].id] == MovedEdge(items[i].edge.value, plan.remap)
  {
    if i < n - 1 {
      NewEndsMeaning(items, n - 1, plan, i);
    } else {
      NewEndsBefore(items, n - 1, plan, i);
    }
  }

  lemma {:induction false} NewEndsBefore(items: seq<Obj>, n: nat, plan: Plan, i: nat)
    requires n <= i < |items| && DistinctIds(items)
    ensures items[i].id !in NewEnds(items, n, plan)
  {
    if n > 0 {
      NewEndsBefore(items, n - 1, plan, i);
    }
  }

  /** No end of a relationship entry names an absorbed object. */
  lemma NoAbsorbedEnd(e: Rel, r: MergeResult, x: Id)
    requires x in r.remap && forall id | id in r.remap :: r.remap[id] !in r.remap
    ensures RelAfter(e, r).source != Some(x) && RelAfter(e, r).target != Some(x)
  {
  }

  /** An entry that had the ends of a relationship that ships has the ends it ships with. */
  lemma EndsDescribe(items: seq<Obj>, build: Build, r: MergeResult, plan: Plan, order: seq<Id>, out: seq<Obj>,
                     e: Rel, k: nat)
    requires Merging(items, build, r, plan, order, out) && DistinctIds(items) && EndsAreNodes(items, build)
    requires |order| <= k < |out| && out[k].edge.Some? && e.id == Some(out[k].id)
    requires forall o | o in items && o.id == out[k].id ::
               o.edge.Some? && e.source == Some(o.edge.value.source) && e.target == Some(o.edge.value.target)
    ensures RelAfter(e, r).source == Some(out[k].edge.value.source)
    ensures RelAfter(e, r).target == Some(out[k].edge.value.target)
  {
    MergingGives(items, build, r, plan, order, out);
    RemovalsAreTidy(items, build, plan, r.removed);
    var i := OwnEndsStay(items, build, plan, StandIns(r.removed), order, out, k);
    var j := OutOwn(items, build, plan, StandIns(r.removed), order, out, k);
    SamePlace(items, plan, i, j);
    assert items[i] in items;
    EntryOfShipped(items, plan, r, e, i);
  }

  lemma EntryOfShipped(items: seq<Obj>, plan: Plan, r: MergeResult, e: Rel, i: nat)
    requires Tidy(r.removed) && DistinctIds(items) && plan.remap == r.remap
    requires r.removed == Removals(items, |items|, plan) && r.newEnds == NewEnds(items, |items|, plan)
    requires forall id | id in r.remap :: r.remap[id] !in r.remap
    requires i < |items| && FateOf(items, i, plan) == Shipped && items[i].edge.Some?
    requires e.id == Some(items[i].id)
    requires e.source == Some(items[i].edge.value.source) && e.target == Some(items[i].edge.value.target)
    ensures var moved := MovedEdge(items[i].edge.value, plan.remap);
            RelAfter(e, r).source == Some(moved.source) && RelAfter(e, r).target == Some(moved.target)
  {
    NotRemoved(items, plan, r.removed, i);
    UnremovedEntry(e, r);
    NewEndsMeaning(items, |items|, plan, i);
    Settles(items[i].edge.value, r.remap);
  }

  lemma Settles(e: Edge, remap: map<Id, Id>)
    requires forall id | id in remap :: remap[id] !in remap
    ensures MovedEdge(MovedEdge(e, remap), remap) == MovedEdge(e, remap)
  {
  }

  lemma SamePlace(items: seq<Obj>, plan: Plan, i: nat, j: nat)
    requires i < |items| && j < |items| && FateOf(items, i, plan) == Shipped && FateOf(items, j, plan) == Shipped
    requires |Survivors(items, i, plan)| == |Survivors(items, j, plan)|
    ensures i == j
  {
    if i < j {
      ShippedAt(items, j, plan, i);
    } else if j < i {
      ShippedAt(items, i, plan, j);
    }
  }

  lemma NotRemoved(items: seq<Obj>, plan: Plan, removed: seq<Removal>, i: nat)
    requires removed == Removals(items, |items|, plan) && DistinctIds(items)
    requires i < |items| && FateOf(items, i, plan) == Shipped
    ensures items[i].id !in RemovedIds(removed)
  {
    forall x | x in removed
      ensures x.id != items[i].id
    {
      var j := RemovedWas(items, plan, removed, x);
    }
  }

  // ----- Nothing leaves silently

  ghost predicate Mentioned(gone: seq<Gone>, id: Id) {
    exists x | x in gone :: x.id == id
  }

  /** Whatever the merge took out of the list, or left out of the baseline, is in the
      ledger's list of what left the bundle. */
  lemma NothingLeavesSilently(items: seq<Obj>, build: Build, r: MergeResult, plan: Plan, order: seq<Id>, out: seq<Obj>,
                              before: seq<Gone>, now: seq<Gone>, o: Orders)
    requires Merging(items, build, r, plan, order, out) && DistinctIds(items)
    requires Recorded(before, now, r, o)
    ensures forall x | x in items :: HasId(out, x.id) || Mentioned(now, x.id)
    ensures forall id | id in Candidates(build) && id in build.objects :: HasId(out, id) || Mentioned(now, id)
  {
    MergingGives(items, build, r, plan, order, out);
    forall x | x in items
      ensures HasId(out, x.id) || Mentioned(now, x.id)
    {
      assert InList(items, x.id);
      if x.id !in r.remap {
        StillThere(items, build, r, plan, StandIns(r.removed), order, out, x.id);
      }
      if x.id in r.remap.Keys + RemovedIds(r.removed) + r.rejected {
        GoneIsMentioned(before, now, r, o, x.id);
      }
    }
    forall id | id in Candidates(build) && id in build.objects
      ensures HasId(out, id) || Mentioned(now, id)
    {
      if id in r.kept {
        KeptHasId(items, build, plan, StandIns(r.removed), order, out, id);
      } else {
        LeftIsDropped(build, r.kept, r.dropped, id);
        GoneIsMentioned(before, now, r, o, id);
      }
    }
  }

  lemma LeftIsDropped(build: Build, kept: set<Id>, dropped: map<Id, Drop>, id: Id)
    requires KeptAndDropped(build, kept, dropped) && id in Candidates(build) && id in build.objects && id !in kept
    ensures id in dropped
  {
  }

  lemma GoneIsMentioned(before: seq<Gone>, now: seq<Gone>, r: MergeResult, o: Orders, id: Id)
    requires Recorded(before, now, r, o)
    requires id in r.remap.Keys + RemovedIds(r.removed) + r.rejected + r.dropped.Keys
    ensures Mentioned(now, id)
  {
    var a, b := MatchEntries(o.absorbed, r.remap), RemovalEntries(r.removed);
    var c, d := RejectionEntries(o.rejected), LeftOutEntries(o.left, r.dropped);
    assert forall x | x in a + b + c + d :: x in now;
    if id in r.remap {
      var i :| 0 <= i < |o.absorbed| && o.absorbed[i] == id;
      assert a[i] in a && a[i].id == id;
    } else if id in RemovedIds(r.removed) {
      var i :| 0 <= i < |r.removed| && r.removed[i].id == id;
      assert b[i] in b && b[i].id == id;
    } else if id in r.dropped {
      assert id in o.left;
      var i :| 0 <= i < |o.left| && o.left[i] == id;
      assert d[i] in d && d[i].id == id;
    } else {
      assert id in o.rejected;
      var i :| 0 <= i < |o.rejected| && o.rejected[i] == id;
      assert c[i] in c && c[i].id == id;
    }
  }

  // ----- The refused edges

  /** After the merge no refused edge names an absorbed object, no two share a triple,
      origin and rule, none is lost, and of two that fell together the first stays. */
  lemma RefusedStayUnique(before: seq<Refused>, now: seq<Refused>, remap: map<Id, Id>)
    requires Firsts(FollowAll(before, remap), now)
    requires forall id | id in remap :: remap[id] !in remap
    ensures KeysDistinct(now)
    ensures forall e | e in now :: e.source !in remap && e.target !in remap
    ensures forall e | e in before :: HasKey(now, KeyOf(FollowRefusedEdge(e, remap)))
    ensures forall e | e in now :: exists i | 0 <= i < |before| :: FirstOf(before, remap, i, e)
  {
    var moved := FollowAll(before, remap);
    forall e | e in now
      ensures exists i | 0 <= i < |before| :: FirstOf(before, remap, i, e)
    {
      var i :| 0 <= i < |moved| && moved[i] == e && forall j | 0 <= j < i :: KeyOf(moved[j]) != KeyOf(e);
      assert FirstOf(before, remap, i, e);
    }
    forall e | e in before
      ensures HasKey(now, KeyOf(FollowRefusedEdge(e, remap)))
    {
      var i :| 0 <= i < |before| && before[i] == e;
      assert moved[i] in moved;
    }
  }

  /** `e` is the `i`-th refused edge, its ends followed, and no earlier one has its key. */
  ghost predicate FirstOf(before: seq<Refused>, remap: map<Id, Id>, i: nat, e: Refused)
    requires i < |before|
  {
    && FollowRefusedEdge(before[i], remap) == e
    && forall j | 0 <= j < i :: KeyOf(FollowRefusedEdge(before[j], remap)) != KeyOf(e)
  }

  // ----- Stage 4's three steps together

  /** Entity entries name objects of the list that are no relationships, relationship entries
      its relationships. */
  ghost predicate InStep(ledger: seq<Entity>, rels: seq<Rel>, items: seq<Obj>) {
    && (forall i | 0 <= i < |ledger| && ledger[i].id.Some? ::
          InList(items, ledger[i].id.value) && ledger[i].id.value !in Links(items))
    && (forall i | 0 <= i < |rels| && rels[i].id.Some? :: rels[i].id.value in Links(items))
  }

  /** Every entry that holds an id names an object of the list. */
  ghost predicate Names(ledger: seq<Entity>, rels: seq<Rel>, out: seq<Obj>) {
    && (forall i | 0 <= i < |ledger| && ledger[i].id.Some? :: HasId(out, ledger[i].id.value))
    && (forall i | 0 <= i < |rels| && rels[i].id.Some? :: HasId(out, rels[i].id.value))
  }

  lemma StillInStep(items: seq<Obj>, build: Build, r: MergeResult, plan: Plan, order: seq<Id>, out: seq<Obj>,
                    es: seq<Entity>, rels: seq<Rel>, es': seq<Entity>, rels': seq<Rel>)
    requires Merging(items, build, r, plan, order, out) && DistinctIds(items) && InStep(es, rels, items)
    requires |es'| == |es| && forall i | 0 <= i < |es| :: es'[i] == EntityAfter(es[i], r)
    requires |rels'| == |rels| && forall i | 0 <= i < |rels| :: rels'[i] == RelAfter(rels[i], r)
    ensures Names(es', rels', out)
  {
    forall i | 0 <= i < |es'| && es'[i].id.Some?
      ensures HasId(out, es'[i].id.value)
    {
      assert es[i].id.Some?;
      EntityStillNames(items, build, r, plan, order, out, es[i]);
      RemovedAreLinks(items, plan, r.removed, es[i].id.value);
    }
    forall i | 0 <= i < |rels'| && rels'[i].id.Some?
      ensures HasId(out, rels'[i].id.value)
    {
      RelHadId(rels[i], r);
      var o :| o in items && o.edge.Some? && o.id == rels[i].id.value;
      assert InList(items, rels[i].id.value);
      RelStillNames(items, build, r, plan, order, out, rels[i]);
      RejectedIsNoLink(items, build, r, rels[i].id.value);
    }
  }

  lemma RemovedAreLinks(items: seq<Obj>, plan: Plan, removed: seq<Removal>, id: Id)
    requires removed == Removals(items, |items|, plan)
    ensures id in RemovedIds(removed) ==> id in Links(items)
  {
    if id in RemovedIds(removed) {
      var x :| x in removed && x.id == id;
      var i := RemovedWas(items, plan, removed, x);
      assert items[i] in items;
    }
  }

  lemma RejectedIsNoLink(items: seq<Obj>, build: Build, r: MergeResult, id: Id)
    requires DistinctIds(items) && forall o | o in items :: WellFormed(o)
    requires r.rejected == RejectedIds(items, build, r.kept, r.remap) && id in Links(items)
    ensures id !in r.rejected
  {
    var o :| o in items && o.edge.Some? && o.id == id;
    forall p | p in items && p.id == id
      ensures Skipped(p)
    {
      var i :| 0 <= i < |items| && items[i] == o;
      var j :| 0 <= j < |items| && items[j] == p;
    }
  }

  lemma {:induction false} NoIdStays(e: Rel, removed: seq<Removal>, n: nat)
    requires n <= |removed| && e.id.None?
    ensures RemoveAll(e, removed, n) == e
  {
    if n > 0 {
      NoIdStays(e, removed, n - 1);
    }
  }

  lemma RelHadId(e: Rel, r: MergeResult)
    ensures RelAfter(e, r).id.Some? ==> e.id.Some?
  {
    if e.id.None? {
      NoIdStays(RemapRel(e, r.remap), r.removed, |r.removed|);
    }
  }

  /** The merge and its account in the ledger. */
  method MergeAndRecord(list: ObjectList, ledger: MappingLedger, build: Build) returns (r: MergeResult)
    requires Received(build) && DistinctIds(list.items) && forall o | o in list.items :: WellFormed(o)
    requires InStep(ledger.entities, ledger.relationships, list.items)
    modifies list, ledger
    ensures Names(ledger.entities, ledger.relationships, list.items)
    ensures forall x | x in old(list.items) :: HasId(list.items, x.id) || Mentioned(ledger.removed, x.id)
    ensures forall id | id in r.kept :: HasId(list.items, id)
  {
    ghost var items, es, rels, before := list.items, ledger.entities, ledger.relationships, ledger.removed;
    ghost var plan, order, o;
    r, plan, order := MergeBaseline(list, build);
    RemapIntoKept(items, build, r.kept, r.remap);
    o := ledger.ApplyBaselineMerge(r);
    StillInStep(items, build, r, plan, order, list.items, es, rels, ledger.entities, ledger.relationships);
    NothingLeavesSilently(items, build, r, plan, order, list.items, before, ledger.removed, o);
    KeptAreThere(items, build, r, plan, order, list.items);
  }

  lemma KeptAreThere(items: seq<Obj>, build: Build, r: MergeResult, plan: Plan, order: seq<Id>, out: seq<Obj>)
    requires Merging(items, build, r, plan, order, out)
    ensures forall id | id in r.kept :: HasId(out, id)
  {
    MergingGives(items, build, r, plan, order, out);
    forall id | id in r.kept
      ensures HasId(out, id)
    {
      KeptHasId(items, build, plan, StandIns(r.removed), order, out, id);
    }
  }

  /** The origin of each object kept. */
  method MarkKept(ledger: MappingLedger, kept: set<Id>, stated: set<Id>, ghost out: seq<Obj>)
    requires Names(ledger.entities, ledger.relationships, out)
    modifies ledger
    ensures Names(ledger.entities, ledger.relationships, out) && ledger.removed == old(ledger.removed)
    ensures forall id | id in kept :: id in ledger.objects && ledger.objects[id].origin == "baseline"
  {
    var rest := kept;
    while rest != {}
      invariant rest <= kept && Names(ledger.entities, ledger.relationships, out)
      invariant ledger.removed == old(ledger.removed)
      invariant forall id | id in kept && id !in rest :: id in ledger.objects && ledger.objects[id].origin == "baseline"
      decreases rest
    {
      var id :| id in rest;
      rest := rest - {id};
      ghost var es, rels := ledger.entities, ledger.relationships;
      ledger.BaselineObject(id, if id in stated then "matched" else "only");
      NamesStay(es, rels, ledger.entities, ledger.relationships, out, id);
    }
  }

  /** Both, as Stage 4 runs them: every entry that still holds an id names an object of the
      merged list, and whatever left the list is in the ledger's list of what left the bundle. */
  method FoldBaseline(list: ObjectList, ledger: MappingLedger, build: Build) returns (r: MergeResult)
    requires Received(build) && DistinctIds(list.items) && forall o | o in list.items :: WellFormed(o)
    requires InStep(ledger.entities, ledger.relationships, list.items)
    modifies list, ledger
    ensures Names(ledger.entities, ledger.relationships, list.items)
    ensures forall x | x in old(list.items) :: HasId(list.items, x.id) || Mentioned(ledger.removed, x.id)
    ensures forall id | id in r.kept :: HasId(list.items, id) && id in ledger.objects && ledger.objects[id].origin == "baseline"
  {
    r := MergeAndRecord(list, ledger, build);
    MarkKept(ledger, r.kept, r.stated, list.items);
  }

  lemma NamesStay(es: seq<Entity>, rels: seq<Rel>, es': seq<Entity>, rels': seq<Rel>, out: seq<Obj>, id: Id)
    requires Names(es, rels, out) && EntitiesRemapped(es, es', map[id := id]) && RelsRemapped(rels, rels', map[id := id])
    ensures Names(es', rels', out)
  {
    forall i | 0 <= i < |es'| && es'[i].id.Some?
      ensures HasId(out, es'[i].id.value)
    {
      assert es[i].id == es'[i].id;
    }
    forall i | 0 <= i < |rels'| && rels'[i].id.Some?
      ensures HasId(out, rels'[i].id.value)
    {
      assert rels[i].id == rels'[i].id;
    }
  }
}
