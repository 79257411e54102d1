/**
 Folding Stage 4's objects into the baseline, in place (pipeline/baseline_stix.py:1820-1838,
 1847-1969).

 What becomes of each object of the list is a pure function of the list and of a plan (the
 remap, the kept ids, the rejected ids, the edges the baseline holds); the method makes the
 plan and carries it out.
 */
module Merge {
  import opened Common
  import opened References
  import opened BaselineIndex
  import opened Matching

  // ----- Rewriting

  function At(m: map<Id, Id>, id: Id): Id {
    if id in m then m[id] else id
  }

  function Through(ids: seq<Id>, m: map<Id, Id>): (r: seq<Id>)
    ensures |r| == |ids| && forall i | 0 <= i < |ids| :: r[i] == At(m, ids[i])
  {
    if ids == [] then [] else [At(m, ids[0])] + Through(ids[1..], m)
  }

  function MovedEdge(e: Edge, m: map<Id, Id>): Edge {
    Edge(At(m, e.source), e.verb, At(m, e.target))
  }

  /** The object with its top-level references, ends and premises read through `m`. */
  function Rewritten(o: Obj, m: map<Id, Id>): Obj {
    o.(refs := Through(o.refs, m), premises := Through(o.premises, m),
       edge := if o.edge.Some? then Some(MovedEdge(o.edge.value, m)) else None)
  }

  // ----- What becomes of each object

  datatype Plan = Plan(remap: map<Id, Id>, kept: set<Id>, rejected: set<Id>, base: map<Edge, Id>)

  datatype Fate =
    | Became(target: Id)
    | SharesId
    | Rejected
    | EndRejected
    | SelfLoop
    | Duplicate(of: Id)
    | Shipped

  predicate InRest(o: Obj, plan: Plan) {
    o.id !in plan.remap && o.id !in plan.kept && o.id !in plan.rejected
  }

  predicate NamesRejected(e: Edge, plan: Plan) {
    e.source in plan.rejected || e.target in plan.rejected
  }

  /** A relationship that ships unless its triple is taken. */
  predicate Arrives(o: Obj, plan: Plan) {
    InRest(o, plan) && o.edge.Some?
    && var e := MovedEdge(o.edge.value, plan.remap); !NamesRejected(e, plan) && e.source != e.target
  }

  /** The first of `n` objects that arrives with the triple `e`. */
  function Earlier(items: seq<Obj>, n: nat, plan: Plan, e: Edge): Option<Id>
    requires n <= |items|
  {
    if n == 0 then None
    else
      var before := Earlier(items, n - 1, plan, e);
      if before.Some? then before
      else if Arrives(items[n - 1], plan) && MovedEdge(items[n - 1].edge.value, plan.remap) == e
      then Some(items[n - 1].id) else None
  }

  /** The relationship that already has the triple `e` when the `n`-th object comes. */
  function Holder(items: seq<Obj>, n: nat, plan: Plan, e: Edge): Option<Id>
    requires n <= |items|
  {
    if e in plan.base then Some(plan.base[e]) else Earlier(items, n, plan, e)
  }

  /** The fate of `o` when `taken` is the relationship before it that has its triple. */
  function FateWith(o: Obj, plan: Plan, taken: Option<Id>): Fate {
    if o.id in plan.remap then Became(plan.remap[o.id])
    else if o.id in plan.kept then SharesId
    else if o.id in plan.rejected then Rejected
    else if o.edge.None? then Shipped
    else
      var e := MovedEdge(o.edge.value, plan.remap);
      if NamesRejected(e, plan) then EndRejected
      else if e.source == e.target then SelfLoop
      else if taken.Some? then Duplicate(taken.value)
      else Shipped
  }

  function FateOf(items: seq<Obj>, i: nat, plan: Plan): Fate
    requires i < |items|
  {
    var o := items[i];
    FateWith(o, plan, if o.edge.Some? then Holder(items, i, plan, MovedEdge(o.edge.value, plan.remap)) else None)
  }

  datatype Removal = Removal(id: Id, reason: string, standIn: Option<Id>)

  function RemovalOf(id: Id, f: Fate): Option<Removal> {
    match f
    case EndRejected => Some(Removal(id, "baseline_rejected", None))
    case SelfLoop => Some(Removal(id, "self_loop_after_baseline_merge", None))
    case Duplicate(of) => Some(Removal(id, "duplicate_after_baseline_merge", Some(of)))
    case _ => None
  }

  /** What ships of the first `n` objects, in order. */
  function Survivors(items: seq<Obj>, n: nat, plan: Plan): seq<Obj>
    requires n <= |items|
  {
    if n == 0 then []
    else
      Survivors(items, n - 1, plan)
      + if FateOf(items, n - 1, plan) == Shipped then [Rewritten(items[n - 1], plan.remap)] else []
  }

  /** The relationships removed of the first `n` objects, in order, each with its reason. */
  function Removals(items: seq<Obj>, n: nat, plan: Plan): seq<Removal>
    requires n <= |items|
  {
    if n == 0 then []
    else
      Removals(items, n - 1, plan)
      + match RemovalOf(items[n - 1].id, FateOf(items, n - 1, plan)) case Some(r) => [r] case None => []
  }

  predicate HasMoved(o: Obj, remap: map<Id, Id>) {
    o.edge.Some? && (o.edge.value.source in remap || o.edge.value.target in remap)
  }

  /** The new ends of the shipped relationships that moved. */
  function NewEnds(items: seq<Obj>, n: nat, plan: Plan): map<Id, Edge>
    requires n <= |items|
  {
    if n == 0 then map[]
    else
      var o, before := items[n - 1], NewEnds(items, n - 1, plan);
      if FateOf(items, n - 1, plan) == Shipped && HasMoved(o, plan.remap)
      then before[o.id := MovedEdge(o.edge.value, plan.remap)] else before
  }

  /** The relationships removed as duplicates, each with the one that stands for it. */
  function StandIns(removed: seq<Removal>): map<Id, Id> {
    if removed == [] then map[]
    else
      var before, r := StandIns(removed[..|removed| - 1]), Last(removed);
      if r.standIn.Some? then before[r.id := r.standIn.value] else before
  }

  /** The last pass: an inferred edge's premises follow the duplicates. */
  function WithPremises(objs: seq<Obj>, m: map<Id, Id>): (r: seq<Obj>)
    ensures |r| == |objs|
    ensures forall i | 0 <= i < |objs| :: r[i] == if objs[i].premises != [] then Rewritten(objs[i], m) else objs[i]
  {
    seq(|objs|, i requires 0 <= i < |objs| => if objs[i].premises != [] then Rewritten(objs[i], m) else objs[i])
  }

  /** The kept edges the document states: a stated relationship is a duplicate of each. */
  function StatedEdges(items: seq<Obj>, n: nat, plan: Plan): set<Id>
    requires n <= |items|
  {
    set i | 0 <= i < n && FateOf(items, i, plan).Duplicate? && FateOf(items, i, plan).of in plan.kept
            && items[i].statedByReport :: FateOf(items, i, plan).of
  }

  // ----- The plan

  datatype Drop = RefsClosure(bad: Id) | BaselineRejected

  datatype MergeResult = MergeResult(
    kept: set<Id>, stated: set<Id>, remap: map<Id, Id>, dropped: map<Id, Drop>,
    removed: seq<Removal>, newEnds: map<Id, Edge>, rejected: set<Id>)

  /** The imported objects that may be kept: not the chosen Report, which Stage 4 re-issues. */
  function Candidates(build: Build): set<Id> {
    build.imported - (if build.scopeReport.Some? then {build.scopeReport.value} else {})
  }

  /** `kept` is the closure of what the analyst did not reject, and `dropped` the rest. */
  ghost predicate KeptAndDropped(build: Build, kept: set<Id>, dropped: map<Id, Drop>) {
    exists refs, closed, reasons ::
      && ClosedWith(build, refs, closed, reasons)
      && kept == closed * build.objects.Keys
      && Explained(build, reasons, dropped)
  }

  ghost predicate ClosedWith(build: Build, refs: map<Id, set<Id>>, closed: set<Id>, reasons: map<Id, Id>) {
    && RefsAre(refs, build.objects)
    && Closure(refs, Candidates(build) - build.excluded, build.excluded, {}, closed)
    && reasons.Keys == Candidates(build) - build.excluded - closed
    && Reasoned(refs, build.excluded, reasons)
  }

  ghost predicate Explained(build: Build, reasons: map<Id, Id>, dropped: map<Id, Drop>) {
    && dropped.Keys == reasons.Keys + build.excluded * build.imported
    && (forall id | id in build.excluded * build.imported :: dropped[id] == BaselineRejected)
    && (forall id | id in reasons && id !in build.excluded * build.imported :: dropped[id] == RefsClosure(reasons[id]))
  }

  /** The reason of each object left out: the reference that took it, or the analyst. */
  method Explain(build: Build, reasons: map<Id, Id>) returns (dropped: map<Id, Drop>)
    ensures Explained(build, reasons, dropped)
  {
    dropped := map[];
    var rest := reasons.Keys;
    while rest != {}
      invariant dropped.Keys + rest == reasons.Keys
      invariant forall id | id in dropped :: dropped[id] == RefsClosure(reasons[id])
      decreases rest
    {
      var id :| id in rest;
      dropped, rest := dropped[id := RefsClosure(reasons[id])], rest - {id};
    }
    rest := build.excluded * build.imported;
    ghost var done: set<Id> := {};
    while rest != {}
      invariant done + rest == build.excluded * build.imported && dropped.Keys == reasons.Keys + done
      invariant forall id | id in done :: dropped[id] == BaselineRejected
      invariant forall id | id in reasons && id !in done :: dropped[id] == RefsClosure(reasons[id])
      decreases rest
    {
      var id :| id in rest;
      dropped, rest, done := dropped[id := BaselineRejected], rest - {id}, done + {id};
    }
  }

  function RejectedIds(items: seq<Obj>, build: Build, kept: set<Id>, remap: map<Id, Id>): set<Id> {
    set o | o in items && o.id !in remap && o.id !in kept && !Skipped(o) && o.id in build.excluded :: o.id
  }

  /** `base` maps the triple of each kept relationship to a kept relationship of that triple. */
  ghost predicate BaseEdges(build: Build, kept: set<Id>, base: map<Edge, Id>) {
    && (forall e | e in base :: HasEdge(build, kept, base[e], e))
    && (forall id, e | HasEdge(build, kept, id, e) :: e in base)
  }

  ghost predicate HasEdge(build: Build, kept: set<Id>, id: Id, e: Edge) {
    id in kept && id in build.objects && build.objects[id].edge == Some(e)
  }

  /** The kept objects, each once, in some order. */
  ghost predicate Parsed(build: Build, kept: set<Id>, order: seq<Id>) {
    && (forall id :: id in order <==> id in kept)
    && (forall i, j | 0 <= i < j < |order| :: order[i] != order[j])
    && kept <= build.objects.Keys
  }

  function ObjectsOf(build: Build, order: seq<Id>): (r: seq<Obj>)
    requires forall id | id in order :: id in build.objects
    ensures |r| == |order| && forall i | 0 <= i < |order| :: r[i] == build.objects[order[i]]
  {
    seq(|order|, i requires 0 <= i < |order| => assert order[i] in order; build.objects[order[i]])
  }

  ghost predicate Planned(items: seq<Obj>, build: Build, r: MergeResult, plan: Plan) {
    && KeptAndDropped(build, r.kept, r.dropped)
    && Remapped(items, |items|, build, r.kept, r.remap)
    && r.rejected == RejectedIds(items, build, r.kept, r.remap)
    && BaseEdges(build, r.kept, plan.base)
    && plan == Plan(r.remap, r.kept, r.rejected, plan.base)
  }

  ghost predicate CarriedOut(items: seq<Obj>, build: Build, r: MergeResult, plan: Plan, order: seq<Id>, out: seq<Obj>) {
    && Parsed(build, r.kept, order)
    && r.removed == Removals(items, |items|, plan)
    && r.newEnds == NewEnds(items, |items|, plan)
    && r.stated == r.remap.Values + (set o | o in items && o.id in r.kept :: o.id) + StatedEdges(items, |items|, plan)
    && out == WithPremises(ObjectsOf(build, order) + Survivors(items, |items|, plan), StandIns(r.removed))
  }

  class ObjectList {
    var items: seq<Obj>

    constructor (items: seq<Obj>)
      ensures this.items == items
    {
      this.items := items;
    }
  }

  method Keep(build: Build) returns (kept: set<Id>, dropped: map<Id, Drop>)
    ensures KeptAndDropped(build, kept, dropped)
  {
    var refs := ReadRefs(build.objects);
    var closed, reasons := RefClosure(refs, Candidates(build), build.excluded, {});
    kept := closed * build.objects.Keys;
    dropped := Explain(build, reasons);
    assert ClosedWith(build, refs, closed, reasons);
  }

  /** List the kept objects, and their edges: of two of one triple, the first listed. */
  method Parse(build: Build, kept: set<Id>) returns (order: seq<Id>, base: map<Edge, Id>)
    requires kept <= build.objects.Keys
    ensures Parsed(build, kept, order) && BaseEdges(build, kept, base)
  {
    order, base := [], map[];
    var rest := kept;
    ghost var done: set<Id> := {};
    while rest != {}
      invariant done + rest == kept && done !! rest
      invariant Parsed(build, done, order) && BaseEdges(build, done, base)
    {
      var oid :| oid in rest;
      ghost var was := order;
      rest, done, order := rest - {oid}, done + {oid}, order + [oid];
      assert forall id :: id in order <==> id in was || id == oid;
      var edge := build.objects[oid].edge;
      assert forall id, e | HasEdge(build, done, id, e) :: HasEdge(build, done - {oid}, id, e) || edge == Some(e);
      if edge.Some? && edge.value !in base {
        base := base[edge.value := oid];
      }
    }
  }

  /** What the first `n` objects came to. */
  datatype Tally = Tally(out: seq<Obj>, removed: seq<Removal>, newEnds: map<Id, Edge>, stated: set<Id>)

  ghost predicate Walked(items: seq<Obj>, n: nat, plan: Plan, t: Tally)
    requires n <= |items|
  {
    && t.out == Survivors(items, n, plan) && t.removed == Removals(items, n, plan)
    && t.newEnds == NewEnds(items, n, plan) && t.stated == StatedEdges(items, n, plan)
  }

  function Next(o: Obj, f: Fate, plan: Plan, t: Tally): Tally {
    match f
    case Shipped =>
      t.(out := t.out + [Rewritten(o, plan.remap)],
         newEnds := if HasMoved(o, plan.remap) then t.newEnds[o.id := MovedEdge(o.edge.value, plan.remap)] else t.newEnds)
    case Duplicate(of) =>
      t.(removed := t.removed + [Removal(o.id, "duplicate_after_baseline_merge", Some(of))],
         stated := if of in plan.kept && o.statedByReport then t.stated + {of} else t.stated)
    case _ => if RemovalOf(o.id, f).Some? then t.(removed := t.removed + [RemovalOf(o.id, f).value]) else t
  }

  lemma WalkStep(items: seq<Obj>, i: nat, plan: Plan, t: Tally)
    requires i < |items| && Walked(items, i, plan, t)
    ensures Walked(items, i + 1, plan, Next(items[i], FateOf(items, i, plan), plan, t))
  {
    StatedStep(items, i, plan);
  }

  /** Walk the list: what ships, what is removed and why, what moved, what is stated. */
  method Walk(items: seq<Obj>, plan: Plan) returns (t: Tally)
    ensures Walked(items, |items|, plan, t)
  {
    var seen := plan.base;
    t := Tally([], [], map[], {});
    for i := 0 to |items|
      invariant Walked(items, i, plan, t)
      invariant Seen(items, i, plan, seen)
    {
      WalkStep(items, i, plan, t);
      SeenStep(items, i, plan, seen);
      t, seen := Turn(plan, items[i], t, seen);
    }
  }

  function TakenBy(o: Obj, plan: Plan, seen: map<Edge, Id>): Option<Id> {
    if o.edge.Some? && MovedEdge(o.edge.value, plan.remap) in seen
    then Some(seen[MovedEdge(o.edge.value, plan.remap)]) else None
  }

  method Turn(plan: Plan, o: Obj, before: Tally, taken: map<Edge, Id>) returns (t: Tally, seen: map<Edge, Id>)
    ensures t == Next(o, FateWith(o, plan, TakenBy(o, plan, taken)), plan, before)
    ensures seen == if Arrives(o, plan) && TakenBy(o, plan, taken).None?
                    then taken[MovedEdge(o.edge.value, plan.remap) := o.id] else taken
  {
    t, seen := before, taken;
    if o.id in plan.remap || o.id in plan.kept || o.id in plan.rejected {
      return;
    }
    var moved := Rewritten(o, plan.remap);
    if moved.edge.None? {
      t := t.(out := t.out + [moved]);
      return;
    }
    var e := moved.edge.value;
    if e.source in plan.rejected || e.target in plan.rejected {
      t := t.(removed := t.removed + [Removal(o.id, "baseline_rejected", None)]);
    } else if e.source == e.target {
      t := t.(removed := t.removed + [Removal(o.id, "self_loop_after_baseline_merge", None)]);
    } else if e in seen {
      t := t.(removed := t.removed + [Removal(o.id, "duplicate_after_baseline_merge", Some(seen[e]))]);
      if seen[e] in plan.kept && o.statedByReport {
        t := t.(stated := t.stated + {seen[e]});
      }
    } else {
      t := t.(out := t.out + [moved]);
      if HasMoved(o, plan.remap) {
        t := t.(newEnds := t.newEnds[o.id := e]);
      }
      seen := seen[e := o.id];
    }
  }

  /** `seen` holds each triple taken before the `n`-th object, and by which relationship. */
  ghost predicate Seen(items: seq<Obj>, n: nat, plan: Plan, seen: map<Edge, Id>)
    requires n <= |items|
  {
    forall e {:trigger e in seen} {:trigger Holder(items, n, plan, e)} ::
      (if e in seen then Some(seen[e]) else None) == Holder(items, n, plan, e)
  }

  lemma SeenStep(items: seq<Obj>, i: nat, plan: Plan, seen: map<Edge, Id>)
    requires i < |items| && Seen(items, i, plan, seen)
    ensures var o := items[i];
            Seen(items, i + 1, plan, if Arrives(o, plan) && TakenBy(o, plan, seen).None?
                                     then seen[MovedEdge(o.edge.value, plan.remap) := o.id] else seen)
    ensures FateOf(items, i, plan) == FateWith(items[i], plan, TakenBy(items[i], plan, seen))
  {
  }

  lemma StatedStep(items: seq<Obj>, i: nat, plan: Plan)
    requires i < |items|
    ensures StatedEdges(items, i + 1, plan) == StatedEdges(items, i, plan) +
              var f := FateOf(items, i, plan);
              if f.Duplicate? && f.of in plan.kept && items[i].statedByReport then {f.of} else {}
  {
  }

  method MergeBaseline(list: ObjectList, build: Build) returns (r: MergeResult, ghost plan: Plan, ghost order: seq<Id>)
    requires Received(build)
    modifies list
    ensures Planned(old(list.items), build, r, plan)
    ensures CarriedOut(old(list.items), build, r, plan, order, list.items)
  {
    var items := list.items;
    var kept, dropped := Keep(build);
    var byKeys := MatchByKeys(items, build, kept);
    var remap := MatchByContent(items, build, kept, byKeys);
    var rejected := RejectedIds(items, build, kept, remap);
    var shared := set o | o in items && o.id in kept :: o.id;
    var parsed, base := Parse(build, kept);
    assert forall id | id in parsed :: id in build.objects;
    var t := Walk(items, Plan(remap, kept, rejected, base));
    plan, order := Plan(remap, kept, rejected, base), parsed;
    list.items := WithPremises(ObjectsOf(build, parsed) + t.out, StandIns(t.removed));
    r := MergeResult(kept, remap.Values + shared + t.stated, remap, dropped, t.removed, t.newEnds, rejected);
  }
}
