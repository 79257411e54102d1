/**
 The mapping ledger through a baseline merge (pipeline/bundle_ledger.py:84-101, 197-308, 341-370).

 An entry of the ledger tells what one input became; `id` is the object it names, if any.
 The dictionaries `remap` and `dropped` are walked in an order left open: nothing said here
 depends on it.
 */
module Ledger {
  import opened Common
  import opened References
  import opened BaselineIndex
  import opened Matching
  import opened Merge

  datatype Outcome = Emitted | Merged | Dropped

  /** What an entry went through: its last reason, and the merges before the last. */
  datatype Mark = Mark(outcome: Outcome, reason: Option<string>, via: seq<string>)

  datatype Entity = Entity(id: Option<Id>, mark: Mark)

  datatype Rel = Rel(id: Option<Id>, mark: Mark, mergedWith: Option<Id>, source: Option<Id>, target: Option<Id>)

  datatype Gone = Gone(id: Id, kind: string, reason: string, replacedBy: Option<Id>)

  datatype Refused = Refused(source: Id, verb: string, target: Id, origin: Option<string>, rule: Option<string>,
                             reason: string)

  datatype Origin = Origin(origin: string, status: Option<string>, notes: map<string, string>)

  const BASELINE_MATCH := "baseline_match"
  const BASELINE_REJECTED := "baseline_rejected"

  // ----- Marks

  function MergedAs(m: Mark, reason: string): Mark {
    var earlier := m.reason.Some? && m.reason.value != "" && m.reason.value != reason && m.outcome == Merged;
    Mark(Merged, Some(reason), if earlier && m.reason.value !in m.via then m.via + [m.reason.value] else m.via)
  }

  ghost predicate NoRepeats(s: seq<string>) {
    forall i, j | 0 <= i < j < |s| :: s[i] != s[j]
  }

  /** A merge is recorded once: marking twice is marking once, `via` never repeats and only
      grows, and an earlier merge with another reason is never lost. */
  lemma MarkedOnce(m: Mark, reason: string)
    requires NoRepeats(m.via)
    ensures MergedAs(MergedAs(m, reason), reason) == MergedAs(m, reason)
    ensures NoRepeats(MergedAs(m, reason).via) && m.via <= MergedAs(m, reason).via
    ensures m.outcome == Merged && m.reason.Some? && m.reason.value != "" ==>
              m.reason.value in MergedAs(m, reason).via + [reason]
  {
  }

  // ----- What a merge does to one entry

  function RemapEntity(e: Entity, remap: map<Id, Id>): Entity {
    if e.id.Some? && e.id.value in remap then Entity(Some(remap[e.id.value]), MergedAs(e.mark, BASELINE_MATCH)) else e
  }

  function RemapRel(e: Rel, remap: map<Id, Id>): Rel {
    if e.id.Some? && e.id.value in remap
    then e.(id := Some(remap[e.id.value]), mark := MergedAs(e.mark, BASELINE_MATCH)) else e
  }

  /** One relationship removed: merged with the one that stands for it, or dropped. */
  function RemoveRel(e: Rel, r: Removal): Rel {
    if e.id != Some(r.id) then e
    else if r.standIn.Some? then e.(id := r.standIn, mark := e.mark.(outcome := Merged), mergedWith := r.standIn)
    else e.(id := None, mark := e.mark.(outcome := Dropped, reason := Some(r.reason)))
  }

  function RemoveAll(e: Rel, removed: seq<Removal>, n: nat): Rel
    requires n <= |removed|
  {
    if n == 0 then e else RemoveRel(RemoveAll(e, removed, n - 1), removed[n - 1])
  }

  function RejectEntity(e: Entity, rejected: set<Id>): Entity {
    if e.id.Some? && e.id.value in rejected
    then Entity(None, e.mark.(outcome := Dropped, reason := Some(BASELINE_REJECTED))) else e
  }

  function NewEndsOf(e: Rel, ends: map<Id, Edge>): Rel {
    if e.id.Some? && e.id.value in ends
    then e.(source := Some(ends[e.id.value].source), target := Some(ends[e.id.value].target)) else e
  }

  function FollowEnd(end: Option<Id>, remap: map<Id, Id>): Option<Id> {
    if end.Some? && end.value in remap then Some(remap[end.value]) else end
  }

  function FollowEnds(e: Rel, remap: map<Id, Id>): Rel {
    e.(source := FollowEnd(e.source, remap), target := FollowEnd(e.target, remap))
  }

  function EntityAfter(e: Entity, r: MergeResult): Entity {
    RejectEntity(RemapEntity(e, r.remap), r.rejected)
  }

  function RelAfter(e: Rel, r: MergeResult): Rel {
    FollowEnds(NewEndsOf(RemoveAll(RemapRel(e, r.remap), r.removed, |r.removed|), r.newEnds), r.remap)
  }

  // ----- Refused edges

  datatype RefusedKey = RefusedKey(source: Id, verb: string, target: Id, origin: Option<string>, rule: Option<string>)

  function KeyOf(e: Refused): RefusedKey {
    RefusedKey(e.source, e.verb, e.target, e.origin, e.rule)
  }

  ghost predicate KeysDistinct(es: seq<Refused>) {
    forall i, j | 0 <= i < j < |es| :: KeyOf(es[i]) != KeyOf(es[j])
  }

  ghost predicate HasKey(es: seq<Refused>, k: RefusedKey) {
    exists e | e in es :: KeyOf(e) == k
  }

  function FollowRefusedEdge(e: Refused, remap: map<Id, Id>): Refused {
    e.(source := At(remap, e.source), target := At(remap, e.target))
  }

  function FollowAll(es: seq<Refused>, remap: map<Id, Id>): (r: seq<Refused>)
    ensures |r| == |es| && forall i | 0 <= i < |es| :: r[i] == FollowRefusedEdge(es[i], remap)
  {
    if es == [] then [] else [FollowRefusedEdge(es[0], remap)] + FollowAll(es[1..], remap)
  }

  /** `kept` holds the first of `es` for each key, in order. */
  ghost predicate Firsts(es: seq<Refused>, kept: seq<Refused>) {
    && KeysDistinct(kept)
    && (forall e | e in es :: HasKey(kept, KeyOf(e)))
    && (forall e | e in kept :: FirstOfKey(es, e))
  }

  ghost predicate FirstOfKey(es: seq<Refused>, e: Refused) {
    exists i | 0 <= i < |es| :: es[i] == e && forall j | 0 <= j < i :: KeyOf(es[j]) != KeyOf(e)
  }

  // ----- What left the bundle

  function ReasonText(d: Drop): string {
    match d
    case RefsClosure(bad) => "baseline_refs_closure:" + bad.text
    case BaselineRejected => BASELINE_REJECTED
  }

  function MatchEntry(id: Id, canon: Id): Gone {
    Gone(id, "object", BASELINE_MATCH, Some(canon))
  }

  function RemovalEntry(x: Removal): Gone {
    Gone(x.id, "relationship", x.reason, x.standIn)
  }

  function RejectionEntry(id: Id): Gone {
    Gone(id, "object", BASELINE_REJECTED, None)
  }

  function LeftOutEntry(id: Id, d: Drop): Gone {
    Gone(id, "baseline", ReasonText(d), None)
  }

  /** `order` holds each of `ids` once. */
  ghost predicate Once(order: seq<Id>, ids: set<Id>) {
    && (forall id :: id in order <==> id in ids)
    && (forall i, j | 0 <= i < j < |order| :: order[i] != order[j])
  }

  lemma OnceMore(order: seq<Id>, ids: set<Id>, id: Id)
    requires Once(order, ids) && id !in ids
    ensures Once(order + [id], ids + {id})
  {
    assert forall x :: x in order + [id] <==> x in order || x == id;
  }

  function MatchEntries(order: seq<Id>, remap: map<Id, Id>): seq<Gone> {
    seq(|order|, i requires 0 <= i < |order| => MatchEntry(order[i], At(remap, order[i])))
  }

  function RemovalEntries(removed: seq<Removal>): seq<Gone> {
    seq(|removed|, i requires 0 <= i < |removed| => RemovalEntry(removed[i]))
  }

  function RejectionEntries(order: seq<Id>): seq<Gone> {
    seq(|order|, i requires 0 <= i < |order| => RejectionEntry(order[i]))
  }

  function LeftOutEntries(order: seq<Id>, dropped: map<Id, Drop>): seq<Gone> {
    seq(|order|, i requires 0 <= i < |order| =>
      LeftOutEntry(order[i], if order[i] in dropped then dropped[order[i]] else BaselineRejected))
  }

  lemma EntriesStep(order: seq<Id>, id: Id, remap: map<Id, Id>, dropped: map<Id, Drop>)
    ensures MatchEntries(order + [id], remap) == MatchEntries(order, remap) + [MatchEntry(id, At(remap, id))]
    ensures RejectionEntries(order + [id]) == RejectionEntries(order) + [RejectionEntry(id)]
    ensures id in dropped ==>
              LeftOutEntries(order + [id], dropped) == LeftOutEntries(order, dropped) + [LeftOutEntry(id, dropped[id])]
  {
  }

  lemma RemovalEntriesStep(removed: seq<Removal>, n: nat)
    requires n < |removed|
    ensures RemovalEntries(removed[..n + 1]) == RemovalEntries(removed[..n]) + [RemovalEntry(removed[n])]
    ensures (set x | x in removed[..n + 1] :: x.id) == (set x | x in removed[..n] :: x.id) + {removed[n].id}
  {
    assert removed[..n + 1] == removed[..n] + [removed[n]];
  }

  /** The orders in which the dictionaries were walked: what was absorbed, rejected, left out. */
  datatype Orders = Orders(absorbed: seq<Id>, rejected: seq<Id>, left: seq<Id>)

  /** The list of what left the bundle grows by one entry for each absorbed object, each
      removed relationship, each rejected id not left out already, and each left-out one. */
  ghost predicate Recorded(before: seq<Gone>, now: seq<Gone>, r: MergeResult, o: Orders) {
    && Once(o.absorbed, r.remap.Keys) && Once(o.rejected, r.rejected - r.dropped.Keys) && Once(o.left, r.dropped.Keys)
    && now == before + MatchEntries(o.absorbed, r.remap) + RemovalEntries(r.removed) + RejectionEntries(o.rejected)
              + LeftOutEntries(o.left, r.dropped)
  }

  // ----- All the entries

  lemma MinusTwice(m: map<Id, Origin>, ids: set<Id>, id: Id)
    ensures m - ids - {id} == m - (ids + {id})
  {
  }

  ghost predicate EntitiesRemapped(before: seq<Entity>, now: seq<Entity>, remap: map<Id, Id>) {
    |now| == |before| && forall i | 0 <= i < |now| :: now[i] == RemapEntity(before[i], remap)
  }

  ghost predicate RelsRemapped(before: seq<Rel>, now: seq<Rel>, remap: map<Id, Id>) {
    |now| == |before| && forall i | 0 <= i < |now| :: now[i] == RemapRel(before[i], remap)
  }

  ghost predicate RelsRemoved(before: seq<Rel>, now: seq<Rel>, removed: seq<Removal>, n: nat) {
    n <= |removed| && |now| == |before| && forall i | 0 <= i < |now| :: now[i] == RemoveAll(before[i], removed, n)
  }

  ghost predicate EntitiesRejected(before: seq<Entity>, now: seq<Entity>, rejected: set<Id>) {
    |now| == |before| && forall i | 0 <= i < |now| :: now[i] == RejectEntity(before[i], rejected)
  }

  /** Absorbing one more object: what was moved before is not moved again. */
  lemma EntitiesOneMore(before: seq<Entity>, mid: seq<Entity>, now: seq<Entity>, done: map<Id, Id>, dup: Id, canon: Id)
    requires EntitiesRemapped(before, mid, done) && EntitiesRemapped(mid, now, map[dup := canon])
    requires dup !in done && forall id | id in done :: done[id] != dup
    ensures EntitiesRemapped(before, now, done[dup := canon])
  {
  }

  lemma RelsOneMore(before: seq<Rel>, mid: seq<Rel>, now: seq<Rel>, done: map<Id, Id>, dup: Id, canon: Id)
    requires RelsRemapped(before, mid, done) && RelsRemapped(mid, now, map[dup := canon])
    requires dup !in done && forall id | id in done :: done[id] != dup
    ensures RelsRemapped(before, now, done[dup := canon])
  {
  }

  lemma RejectedOneMore(before: seq<Entity>, mid: seq<Entity>, now: seq<Entity>, done: set<Id>, id: Id)
    requires EntitiesRejected(before, mid, done) && EntitiesRejected(mid, now, {id})
    ensures EntitiesRejected(before, now, done + {id})
  {
  }

  lemma RemovedOneMore(before: seq<Rel>, mid: seq<Rel>, now: seq<Rel>, removed: seq<Removal>, n: nat)
    requires RelsRemoved(before, mid, removed, n) && n < |removed| && RelsRemoved(mid, now, [removed[n]], 1)
    ensures RelsRemoved(before, now, removed, n + 1)
  {
    forall i | 0 <= i < |now|
      ensures now[i] == RemoveAll(before[i], removed, n + 1)
    {
      assert RemoveAll(mid[i], [removed[n]], 0) == mid[i];
    }
  }

  class MappingLedger {
    var objects: map<Id, Origin>
    var entities: seq<Entity>
    var relationships: seq<Rel>
    var removed: seq<Gone>
    var refused: seq<Refused>

    constructor ()
      ensures objects == map[] && entities == [] && relationships == [] && removed == [] && refused == []
    {
      objects, entities, relationships, removed, refused := map[], [], [], [], [];
    }

    /** A refused edge is listed once per triple, origin and rule. */
    method RefusedEdge(e: Refused)
      requires KeysDistinct(refused)
      modifies this`refused
      ensures KeysDistinct(refused) && HasKey(refused, KeyOf(e))
      ensures refused == old(refused) + (if HasKey(old(refused), KeyOf(e)) then [] else [e])
    {
      var i := 0;
      while i < |refused|
        invariant 0 <= i <= |refused| && refused == old(refused)
        invariant forall j | 0 <= j < i :: KeyOf(refused[j]) != KeyOf(e)
      {
        if KeyOf(refused[i]) == KeyOf(e) {
          assert refused[i] in refused;
          return;
        }
        i := i + 1;
      }
      refused := refused + [e];
      assert e in refused;
    }

    /** The first of these with this key, or how many there are. */
    static method PlaceOfKey(kept: seq<Refused>, key: RefusedKey) returns (j: nat)
      ensures j <= |kept| && (forall l | 0 <= l < j :: KeyOf(kept[l]) != key) && (j < |kept| ==> KeyOf(kept[j]) == key)
    {
      j := 0;
      while j < |kept| && KeyOf(kept[j]) != key
        invariant 0 <= j <= |kept|
        invariant forall l | 0 <= l < j :: KeyOf(kept[l]) != key
      {
        j := j + 1;
      }
    }

    /** `setdefault`: the edge is kept if none of its key is. */
    static method KeepFirst(before: seq<Refused>, e: Refused, ghost es: seq<Refused>, ghost i: nat)
      returns (kept: seq<Refused>)
      requires i < |es| && es[i] == e && Firsts(es[..i], before)
      ensures Firsts(es[..i + 1], kept)
    {
      var j := PlaceOfKey(before, KeyOf(e));
      FirstsStep(es, i, before, e, j);
      kept := if j == |before| then before + [e] else before;
    }

    /** Each refused edge follows its ends; two that now name one triple keep the first. */
    method FollowRefused(remap: map<Id, Id>)
      modifies this`refused
      ensures Firsts(FollowAll(old(refused), remap), refused)
    {
      refused := FirstOfEach(refused, remap);
    }

    static method FirstOfEach(es: seq<Refused>, remap: map<Id, Id>) returns (kept: seq<Refused>)
      ensures Firsts(FollowAll(es, remap), kept)
    {
      ghost var moved := FollowAll(es, remap);
      kept := [];
      for i := 0 to |es|
        invariant Firsts(moved[..i], kept)
      {
        var e := FollowRefusedEdge(es[i], remap);
        kept := KeepFirst(kept, e, moved, i);
      }
      assert moved[..|es|] == moved;
    }

    static lemma FirstsStep(es: seq<Refused>, i: nat, kept: seq<Refused>, e: Refused, j: nat)
      requires i < |es| && es[i] == e && Firsts(es[..i], kept) && j <= |kept|
      requires forall l | 0 <= l < j :: KeyOf(kept[l]) != KeyOf(e)
      requires j < |kept| ==> KeyOf(kept[j]) == KeyOf(e)
      ensures Firsts(es[..i + 1], if j == |kept| then kept + [e] else kept)
    {
      var after := if j == |kept| then kept + [e] else kept;
      assert es[..i + 1] == es[..i] + [e];
      forall x | x in kept
        ensures FirstOfKey(es[..i + 1], x) && x in after
      {
        assert FirstOfKey(es[..i], x);
        var n :| 0 <= n < |es[..i]| && es[..i][n] == x && forall m | 0 <= m < n :: KeyOf(es[..i][m]) != KeyOf(x);
        assert es[..i + 1][n] == x;
      }
      if j == |kept| {
        forall m | 0 <= m < i
          ensures KeyOf(es[m]) != KeyOf(e)
        {
          assert es[m] in es[..i];
          assert HasKey(kept, KeyOf(es[m]));
        }
        assert es[..i + 1][i] == e;
        assert FirstOfKey(es[..i + 1], e);
      }
      forall x | x in es[..i + 1]
        ensures HasKey(after, KeyOf(x))
      {
        if x in es[..i] {
          var y :| y in kept && KeyOf(y) == KeyOf(x);
          assert y in after;
        } else {
          assert after[j] in after;
        }
      }
    }

    method RepointEntities(dup: Id, canon: Id)
      modifies this`entities
      ensures EntitiesRemapped(old(entities), entities, map[dup := canon])
    {
      for i := 0 to |entities|
        invariant |entities| == |old(entities)|
        invariant forall j | 0 <= j < i :: entities[j] == RemapEntity(old(entities)[j], map[dup := canon])
        invariant forall j | i <= j < |entities| :: entities[j] == old(entities)[j]
      {
        if entities[i].id == Some(dup) {
          entities := entities[i := Entity(Some(canon), MergedAs(entities[i].mark, BASELINE_MATCH))];
        }
      }
    }

    method RepointRelationships(dup: Id, canon: Id)
      modifies this`relationships
      ensures RelsRemapped(old(relationships), relationships, map[dup := canon])
    {
      for i := 0 to |relationships|
        invariant |relationships| == |old(relationships)|
        invariant forall j | 0 <= j < i :: relationships[j] == RemapRel(old(relationships)[j], map[dup := canon])
        invariant forall j | i <= j < |relationships| :: relationships[j] == old(relationships)[j]
      {
        var e := relationships[i];
        if e.id == Some(dup) {
          relationships := relationships[i := e.(id := Some(canon), mark := MergedAs(e.mark, BASELINE_MATCH))];
        }
      }
    }

    /** The entries of one relationship the merge removed. */
    method DropRelationship(r: Removal)
      modifies this`relationships
      ensures RelsRemoved(old(relationships), relationships, [r], 1)
    {
      for i := 0 to |relationships|
        invariant |relationships| == |old(relationships)|
        invariant forall j | 0 <= j < i :: relationships[j] == RemoveRel(old(relationships)[j], r)
        invariant forall j | i <= j < |relationships| :: relationships[j] == old(relationships)[j]
      {
        var e := relationships[i];
        if e.id == Some(r.id) {
          if r.standIn.Some? {
            e := e.(id := r.standIn, mark := e.mark.(outcome := Merged), mergedWith := r.standIn);
          } else {
            e := e.(id := None, mark := e.mark.(outcome := Dropped, reason := Some(r.reason)));
          }
          relationships := relationships[i := e];
        }
      }
      assert forall e :: RemoveAll(e, [r], 0) == e;
    }

    method DropEntities(id: Id)
      modifies this`entities
      ensures EntitiesRejected(old(entities), entities, {id})
    {
      for i := 0 to |entities|
        invariant |entities| == |old(entities)|
        invariant forall j | 0 <= j < i :: entities[j] == RejectEntity(old(entities)[j], {id})
        invariant forall j | i <= j < |entities| :: entities[j] == old(entities)[j]
      {
        if entities[i].id == Some(id) {
          entities := entities[i := Entity(None, entities[i].mark.(outcome := Dropped, reason := Some(BASELINE_REJECTED)))];
        }
      }
    }

    /** The moved ends of the relationships that ship, then every end that was absorbed. */
    method Rewire(ends: map<Id, Edge>, remap: map<Id, Id>)
      modifies this`relationships
      ensures |relationships| == |old(relationships)|
      ensures forall i | 0 <= i < |relationships| ::
                relationships[i] == FollowEnds(NewEndsOf(old(relationships)[i], ends), remap)
    {
      for i := 0 to |relationships|
        invariant |relationships| == |old(relationships)|
        invariant forall j | 0 <= j < i :: relationships[j] == FollowEnds(NewEndsOf(old(relationships)[j], ends), remap)
        invariant forall j | i <= j < |relationships| :: relationships[j] == old(relationships)[j]
      {
        var e := NewEndsOf(relationships[i], ends);
        if e.source.Some? && e.source.value in remap {
          e := e.(source := Some(remap[e.source.value]));
        }
        if e.target.Some? && e.target.value in remap {
          e := e.(target := Some(remap[e.target.value]));
        }
        relationships := relationships[i := e];
      }
    }

    /** The CTIParsor object `dup` became the baseline object `canon`. */
    method Absorb(dup: Id, canon: Id)
      modifies this`objects, this`entities, this`relationships, this`removed
      ensures objects == old(objects) - {dup}
      ensures removed == old(removed) + [MatchEntry(dup, canon)]
      ensures EntitiesRemapped(old(entities), entities, map[dup := canon])
      ensures RelsRemapped(old(relationships), relationships, map[dup := canon])
    {
      removed := removed + [MatchEntry(dup, canon)];
      RepointEntities(dup, canon);
      RepointRelationships(dup, canon);
      objects := objects - {dup};
    }

    method Remove(r: Removal)
      modifies this`objects, this`relationships, this`removed
      ensures objects == old(objects) - {r.id}
      ensures removed == old(removed) + [RemovalEntry(r)]
      ensures RelsRemoved(old(relationships), relationships, [r], 1)
    {
      removed := removed + [RemovalEntry(r)];
      objects := objects - {r.id};
      DropRelationship(r);
    }

    method Reject(id: Id, recorded: bool)
      modifies this`objects, this`entities, this`removed
      ensures objects == old(objects) - {id}
      ensures removed == old(removed) + (if recorded then [] else [RejectionEntry(id)])
      ensures EntitiesRejected(old(entities), entities, {id})
    {
      removed := removed + if recorded then [] else [RejectionEntry(id)];
      objects := objects - {id};
      DropEntities(id);
    }

    /** The CTIParsor objects that became baseline objects. */
    method AbsorbAll(r: MergeResult) returns (ghost order: seq<Id>)
      requires forall id | id in r.remap :: r.remap[id] !in r.remap
      modifies this`objects, this`entities, this`relationships, this`removed
      ensures objects == old(objects) - r.remap.Keys
      ensures EntitiesRemapped(old(entities), entities, r.remap)
      ensures RelsRemapped(old(relationships), relationships, r.remap)
      ensures Once(order, r.remap.Keys) && removed == old(removed) + MatchEntries(order, r.remap)
    {
      var rest := r.remap.Keys;
      ghost var done: map<Id, Id>, ids: set<Id> := map[], {};
      order := [];
      while rest != {}
        invariant done.Keys == ids && ids + rest == r.remap.Keys && ids !! rest
        invariant forall id | id in done :: done[id] == r.remap[id]
        invariant objects == old(objects) - ids
        invariant EntitiesRemapped(old(entities), entities, done)
        invariant RelsRemapped(old(relationships), relationships, done)
        invariant Once(order, ids) && removed == old(removed) + MatchEntries(order, r.remap)
        decreases rest
      {
        var dup :| dup in rest;
        ghost var es, rels := entities, relationships;
        OnceMore(order, ids, dup);
        EntriesStep(order, dup, r.remap, map[]);
        MinusTwice(old(objects), ids, dup);
        Absorb(dup, r.remap[dup]);
        EntitiesOneMore(old(entities), es, entities, done, dup, r.remap[dup]);
        RelsOneMore(old(relationships), rels, relationships, done, dup, r.remap[dup]);
        rest, done, ids, order := rest - {dup}, done[dup := r.remap[dup]], ids + {dup}, order + [dup];
      }
      assert done == r.remap && ids == r.remap.Keys;
    }

    /** The relationships it removed. */
    method RemoveRelationships(r: MergeResult)
      modifies this`objects, this`relationships, this`removed
      ensures objects == old(objects) - (set x | x in r.removed :: x.id)
      ensures RelsRemoved(old(relationships), relationships, r.removed, |r.removed|)
      ensures removed == old(removed) + RemovalEntries(r.removed)
    {
      for n := 0 to |r.removed|
        invariant objects == old(objects) - (set x | x in r.removed[..n] :: x.id)
        invariant RelsRemoved(old(relationships), relationships, r.removed, n)
        invariant removed == old(removed) + RemovalEntries(r.removed[..n])
      {
        ghost var rels := relationships;
        MinusTwice(old(objects), (set x | x in r.removed[..n] :: x.id), r.removed[n].id);
        RemovalEntriesStep(r.removed, n);
        Remove(r.removed[n]);
        RemovedOneMore(old(relationships), rels, relationships, r.removed, n);
      }
      assert r.removed[..|r.removed|] == r.removed;
    }

    /** The CTIParsor objects of a rejected id; a baseline object left out is recorded once. */
    method RejectAll(r: MergeResult) returns (ghost order: seq<Id>)
      modifies this`objects, this`entities, this`removed
      ensures objects == old(objects) - r.rejected
      ensures EntitiesRejected(old(entities), entities, r.rejected)
      ensures Once(order, r.rejected - r.dropped.Keys) && removed == old(removed) + RejectionEntries(order)
    {
      var rest := r.rejected;
      ghost var done: set<Id> := {};
      order := [];
      while rest != {}
        invariant done + rest == r.rejected && done !! rest
        invariant objects == old(objects) - done
        invariant EntitiesRejected(old(entities), entities, done)
        invariant Once(order, done - r.dropped.Keys) && removed == old(removed) + RejectionEntries(order)
        decreases rest
      {
        var id :| id in rest;
        ghost var es := entities;
        MinusTwice(old(objects), done, id);
        EntriesStep(order, id, map[], map[]);
        Reject(id, id in r.dropped);
        RejectedOneMore(old(entities), es, entities, done, id);
        if id !in r.dropped {
          OnceMore(order, done - r.dropped.Keys, id);
          assert done + {id} - r.dropped.Keys == done - r.dropped.Keys + {id};
          order := order + [id];
        } else {
          assert done + {id} - r.dropped.Keys == done - r.dropped.Keys;
        }
        rest, done := rest - {id}, done + {id};
      }
    }

    /** The baseline objects it did not ship. */
    method LeaveOut(r: MergeResult) returns (ghost order: seq<Id>)
      modifies this`removed
      ensures Once(order, r.dropped.Keys) && removed == old(removed) + LeftOutEntries(order, r.dropped)
    {
      var rest := r.dropped.Keys;
      ghost var done: set<Id> := {};
      order := [];
      while rest != {}
        invariant done + rest == r.dropped.Keys && done !! rest
        invariant Once(order, done) && removed == old(removed) + LeftOutEntries(order, r.dropped)
        decreases rest
      {
        var id :| id in rest;
        OnceMore(order, done, id);
        EntriesStep(order, id, map[], r.dropped);
        removed := removed + [LeftOutEntry(id, r.dropped[id])];
        rest, done, order := rest - {id}, done + {id}, order + [id];
      }
    }

    /** Carry a baseline merge into the ledger. */
    method ApplyBaselineMerge(r: MergeResult) returns (ghost o: Orders)
      requires forall id | id in r.remap :: r.remap[id] !in r.remap
      modifies this
      ensures objects == old(objects) - r.remap.Keys - (set x | x in r.removed :: x.id) - r.rejected
      ensures |entities| == |old(entities)| && |relationships| == |old(relationships)|
      ensures forall i | 0 <= i < |entities| :: entities[i] == EntityAfter(old(entities)[i], r)
      ensures forall i | 0 <= i < |relationships| :: relationships[i] == RelAfter(old(relationships)[i], r)
      ensures Recorded(old(removed), removed, r, o)
      ensures Firsts(FollowAll(old(refused), r.remap), refused)
    {
      ghost var absorbed, rejected, left;
      absorbed := AbsorbAll(r);
      RemoveRelationships(r);
      rejected := RejectAll(r);
      Rewire(r.newEnds, r.remap);
      FollowRefused(r.remap);
      left := LeaveOut(r);
      o := Orders(absorbed, rejected, left);
    }

    /** A baseline object ships as received: its origin is the baseline, and the entries
        that name it were merged onto it. */
    method BaselineObject(id: Id, status: string)
      modifies this`objects, this`entities, this`relationships
      ensures objects == old(objects)[id := Origin("baseline", Some(status),
                                                   if id in old(objects) then old(objects)[id].notes else map[])]
      ensures EntitiesRemapped(old(entities), entities, map[id := id])
      ensures RelsRemapped(old(relationships), relationships, map[id := id])
    {
      objects := objects[id := Origin("baseline", Some(status), if id in objects then objects[id].notes else map[])];
      RepointEntities(id, id);
      RepointRelationships(id, id);
    }
  }
}
