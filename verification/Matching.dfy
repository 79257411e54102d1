/**
 Which baseline object each Stage 4 object becomes (pipeline/baseline_stix.py:1754-1767,
 1803-1819, 1840-1909).

 A STIX object is known by its id, its type, the references a rewrite reads (`refs` at the
 top level, a relationship's ends, the premises of an inferred edge), the references
 deeper in it, and what the key functions say of it.
 */
module Matching {
  import opened Common
  import opened References
  import opened BaselineIndex

  /** Section 5.1 of STIX 2.1: a relationship names a source, a verb and a target. */
  datatype Edge = Edge(source: Id, verb: string, target: Id)

  /** What makes two objects no entry holds the same one. */
  datatype Content = Course(name: string) | Rule(patternType: string, text: string)

  datatype Obj = Obj(
    id: Id, stixType: string, refs: seq<Id>, deepRefs: set<Id>, edge: Option<Edge>, premises: seq<Id>,
    strong: set<Key>, weak: set<Key>, patternStrong: set<Key>, patternWeak: set<Key>,
    content: Option<Content>, statedByReport: bool)

  datatype Build = Build(
    entries: seq<Entry>, imported: set<Id>, passthrough: set<Id>, scopeReport: Option<Id>,
    objects: map<Id, Obj>, excluded: set<Id>)

  /** A relationship is an object with ends; only a course of action or an Indicator has content. */
  predicate WellFormed(o: Obj) {
    && (o.edge.Some? <==> o.stixType == "relationship")
    && (o.content.Some? ==> o.stixType == "course-of-action" || o.stixType == "indicator")
  }

  /** The objects of a bundle, each under its own id. */
  ghost predicate Received(build: Build) {
    && DistinctEntries(build.entries)
    && forall id | id in build.objects :: build.objects[id].id == id && WellFormed(build.objects[id])
  }

  /** Every id `o` references, at any depth. */
  function AllRefs(o: Obj): set<Id> {
    (set r | r in o.refs) + o.deepRefs + (if o.edge.Some? then {o.edge.value.source, o.edge.value.target} else {})
  }

  ghost predicate RefsAre(refs: map<Id, set<Id>>, objects: map<Id, Obj>) {
    refs.Keys == objects.Keys && forall id | id in objects :: refs[id] == AllRefs(objects[id])
  }

  method ReadRefs(objects: map<Id, Obj>) returns (refs: map<Id, set<Id>>)
    ensures RefsAre(refs, objects)
  {
    refs := map[];
    var rest := objects.Keys;
    while rest != {}
      invariant refs.Keys + rest == objects.Keys
      invariant forall id | id in refs :: refs[id] == AllRefs(objects[id])
      decreases rest
    {
      var id :| id in rest;
      refs, rest := refs[id := AllRefs(objects[id])], rest - {id};
    }
  }

  // ----- The target of one object

  predicate Skipped(o: Obj) {
    o.stixType in ["relationship", "report", "marking-definition"]
  }

  predicate IsObservable(stixType: string) {
    stixType in ["ipv4-addr", "ipv6-addr", "domain-name", "url", "email-addr", "mac-addr", "autonomous-system",
                 "windows-registry-key", "mutex", "user-account", "file"]
  }

  /** The analyst rejected the object the entry is named by. */
  predicate RejectedEntry(e: Entry, excluded: set<Id>) {
    e.entryId in excluded
  }

  function Live(entries: seq<Entry>, excluded: set<Id>): (live: seq<Entry>)
    ensures forall e :: e in live <==> e in entries && !RejectedEntry(e, excluded)
  {
    if entries == [] then []
    else (if RejectedEntry(entries[0], excluded) then [] else [entries[0]]) + Live(entries[1..], excluded)
  }

  lemma {:induction false} LiveIsDistinct(entries: seq<Entry>, excluded: set<Id>)
    requires DistinctEntries(entries)
    ensures DistinctEntries(Live(entries, excluded))
  {
    if entries != [] {
      LiveIsDistinct(entries[1..], excluded);
      var rest := Live(entries[1..], excluded);
      forall j | 0 <= j < |rest|
        ensures rest[j].entryId != entries[0].entryId
      {
        assert rest[j] in entries[1..];
        var k :| 1 <= k < |entries| && entries[k] == rest[j];
      }
    }
  }

  function FirstKept(ids: seq<Id>, kept: set<Id>): (first: Option<Id>)
    ensures first.Some? ==> first.value in ids && first.value in kept
    ensures first.None? ==> forall i | i in ids :: i !in kept
  {
    if ids == [] then None else if ids[0] in kept then Some(ids[0]) else FirstKept(ids[1..], kept)
  }

  /** The kept object `o` becomes within the entry it matched. */
  function RemapTarget(o: Obj, e: Entry, kept: set<Id>): Option<Id> {
    if o.stixType == "indicator" then FirstKept(e.indicatorIds, kept)
    else if o.stixType == e.stixType && e.scoId.Some? then (if e.scoId.value in kept then e.scoId else None)
    else if IsObservable(o.stixType) then None
    else if e.entryId in kept then Some(e.entryId) else None
  }

  /** The kept Indicator of the file's entry that states just the same file names. */
  function SameNames(build: Build, e: Entry, weak: set<Key>, kept: set<Id>): Option<Id> {
    FirstKept(e.indicatorIds,
              set i | i in kept && i in build.objects
                      && build.objects[i].patternStrong == {} && build.objects[i].patternWeak == weak)
  }

  function EntryOf(entries: seq<Entry>, a: Answer): Option<Entry> {
    if a.One? && a.entry < |entries| then Some(entries[a.entry]) else None
  }

  /** A file, or an Indicator, known by a file name alone. */
  predicate NameOnly(o: Obj) {
    o.weak != {} && forall k | k in o.strong :: k.IdKey?
  }

  function Choice(build: Build, kept: set<Id>, o: Obj, all: Answer, live: Answer, byName: Answer): Option<Id> {
    var file := EntryOf(build.entries, byName);
    if all.Nothing? && NameOnly(o) && o.stixType == "indicator" then
      if file.Some? then SameNames(build, file.value, o.weak, kept) else None
    else
      var entry :=
        if all.Ambiguous? then EntryOf(Live(build.entries, build.excluded), live)
        else if all.Nothing? && NameOnly(o) && o.stixType == "file" then file
        else EntryOf(build.entries, all);
      if entry.Some? then RemapTarget(o, entry.value, kept) else None
  }

  /** The scans of the entries give `o` the target `t`. */
  ghost predicate Designates(build: Build, kept: set<Id>, o: Obj, t: Option<Id>) {
    exists all, live, byName ::
      && Scans(build, o, all, live, byName) && t == Choice(build, kept, o, all, live, byName)
  }

  ghost predicate Scans(build: Build, o: Obj, all: Answer, live: Answer, byName: Answer) {
    && Answers(build.entries, o.strong, Some(o.stixType), all)
    && Answers(Live(build.entries, build.excluded), o.strong, Some(o.stixType), live)
    && AnswersWeak(build.entries, o.weak, byName)
  }

  lemma DesignatesOne(build: Build, kept: set<Id>, o: Obj, t: Option<Id>, u: Option<Id>)
    requires Designates(build, kept, o, t) && Designates(build, kept, o, u)
    ensures t == u
  {
    var a, b, w :| Scans(build, o, a, b, w) && t == Choice(build, kept, o, a, b, w);
    var a', b', w' :| Scans(build, o, a', b', w') && u == Choice(build, kept, o, a', b', w');
    OneAnswer(build.entries, o.strong, Some(o.stixType), a, a');
    OneAnswer(Live(build.entries, build.excluded), o.strong, Some(o.stixType), b, b');
    assert w == w' by {
      if w.One? && w'.One? {
        assert w.entry in Carriers(build.entries, o.weak) && w'.entry in Carriers(build.entries, o.weak);
      }
    }
  }

  /** An object of the entry that an object of `o`'s type may become. */
  predicate StandsFor(o: Obj, e: Entry, t: Id) {
    if o.stixType == "indicator" then t in e.indicatorIds
    else if o.stixType == e.stixType && e.scoId.Some? then e.scoId == Some(t)
    else e.entryId == t && !IsObservable(o.stixType)
  }

  /** A match is earned: the target is kept and belongs to an entry that carries one of
      the object's keys, for which the key is considered and fits. */
  lemma MatchIsEarned(build: Build, kept: set<Id>, o: Obj, t: Id)
    requires Designates(build, kept, o, Some(t))
    ensures t in kept
    ensures exists e :: e in build.entries && StandsFor(o, e, t)
                        && (Fits(e, o.strong, Some(o.stixType)) || (NameOnly(o) && e.scoId.Some? && e.weakKeys * o.weak != {}))
  {
    var all, live, byName :| Scans(build, o, all, live, byName) && Some(t) == Choice(build, kept, o, all, live, byName);
    if all.One? {
      assert all.entry in Fitting(build.entries, o.strong, Some(o.stixType));
      ChosenFrom(build, kept, o, build.entries[all.entry], t);
    } else if all.Ambiguous? {
      var some := Live(build.entries, build.excluded);
      assert live.entry in Fitting(some, o.strong, Some(o.stixType));
      ChosenFrom(build, kept, o, some[live.entry], t);
    } else {
      assert byName.entry in Carriers(build.entries, o.weak);
      ChosenFrom(build, kept, o, build.entries[byName.entry], t);
    }
  }

  lemma ChosenFrom(build: Build, kept: set<Id>, o: Obj, e: Entry, t: Id)
    requires RemapTarget(o, e, kept) == Some(t)
             || (o.stixType == "indicator" && SameNames(build, e, o.weak, kept) == Some(t))
    ensures t in kept && StandsFor(o, e, t)
  {
  }

  /** Two entries the analyst did not reject that both fit, neither of the exact type
      alone, are never chosen between. */
  lemma AmbiguityNeverMerges(build: Build, kept: set<Id>, o: Obj, t: Option<Id>)
    requires Designates(build, kept, o, t)
    requires Answers(build.entries, o.strong, Some(o.stixType), Ambiguous)
    requires Answers(Live(build.entries, build.excluded), o.strong, Some(o.stixType), Ambiguous)
    ensures t == None
  {
    var all, live, byName :| Scans(build, o, all, live, byName) && t == Choice(build, kept, o, all, live, byName);
    OneAnswer(build.entries, o.strong, Some(o.stixType), all, Ambiguous);
    OneAnswer(Live(build.entries, build.excluded), o.strong, Some(o.stixType), live, Ambiguous);
  }

  method TargetOf(build: Build, kept: set<Id>, o: Obj, index: Index, live: Index) returns (t: Option<Id>)
    requires index.Valid() && index.entries == build.entries
    requires live.Valid() && live.entries == Live(build.entries, build.excluded)
    modifies index, live
    ensures index.Valid() && live.Valid()
    ensures Designates(build, kept, o, t)
  {
    var all := index.Lookup(o.strong, Some(o.stixType));
    var second := live.Lookup(o.strong, Some(o.stixType));
    var byName := index.LookupWeak(o.weak);
    t := Choice(build, kept, o, all, second, byName);
    assert Scans(build, o, all, second, byName);
  }

  // ----- The remap

  /** The kept baseline objects, in no entry, of this content. */
  function Twins(build: Build, kept: set<Id>, c: Content): set<Id> {
    set t | t in build.passthrough * kept && t in build.objects && build.objects[t].content == Some(c)
  }

  ghost predicate PassedOver(build: Build, kept: set<Id>, o: Obj) {
    Skipped(o) || Designates(build, kept, o, None) || Designates(build, kept, o, Some(o.id))
  }

  ghost predicate Matched(build: Build, kept: set<Id>, o: Obj, t: Id) {
    !Skipped(o) && o.id !in kept && t != o.id && Designates(build, kept, o, Some(t))
  }

  ghost predicate Twinned(build: Build, kept: set<Id>, o: Obj, t: Id) {
    o.id !in kept && PassedOver(build, kept, o) && o.content.Some? && Twins(build, kept, o.content.value) == {t}
  }

  ghost predicate Untwinned(build: Build, kept: set<Id>, o: Obj) {
    o.content.Some? ==> |Twins(build, kept, o.content.value)| != 1
  }

  /** The first pass over `n` objects: by their keys. */
  ghost predicate MatchPass(items: seq<Obj>, n: nat, build: Build, kept: set<Id>, remap: map<Id, Id>)
    requires n <= |items|
  {
    && (forall id | id in remap :: exists i: nat :: i < n && items[i].id == id && Matched(build, kept, items[i], remap[id]))
    && (forall i | 0 <= i < n :: items[i].id in remap || items[i].id in kept || PassedOver(build, kept, items[i]))
  }

  /** What the remap says of every object: that the scans, or its content, give it that
      target; and of the others, that they give none. */
  ghost predicate Remapped(items: seq<Obj>, n: nat, build: Build, kept: set<Id>, remap: map<Id, Id>)
    requires n <= |items|
  {
    && (forall id | id in remap :: exists i: nat ::
          i < |items| && items[i].id == id
          && (Matched(build, kept, items[i], remap[id]) || (i < n && Twinned(build, kept, items[i], remap[id]))))
    && (forall i | 0 <= i < |items| ::
          items[i].id in remap || items[i].id in kept
          || (PassedOver(build, kept, items[i]) && (i < n ==> Untwinned(build, kept, items[i]))))
  }

  method MatchByKeys(items: seq<Obj>, build: Build, kept: set<Id>) returns (remap: map<Id, Id>)
    requires DistinctEntries(build.entries)
    ensures MatchPass(items, |items|, build, kept, remap)
  {
    LiveIsDistinct(build.entries, build.excluded);
    var index := new Index(build.entries);
    var live := new Index(Live(build.entries, build.excluded));
    remap := map[];
    for i := 0 to |items|
      invariant fresh(index) && fresh(live) && index != live
      invariant index.Valid() && live.Valid()
      invariant MatchPass(items, i, build, kept, remap)
    {
      var o := items[i];
      if !Skipped(o) && o.id !in kept {
        var t := TargetOf(build, kept, o, index, live);
        ghost var before := remap;
        if t.Some? && t.value != o.id {
          remap := remap[o.id := t.value];
          assert Matched(build, kept, items[i], remap[o.id]);
        }
      }
    }
  }

  method KeptByContent(build: Build, kept: set<Id>) returns (twins: map<Content, set<Id>>)
    ensures forall c :: (if c in twins then twins[c] else {}) == Twins(build, kept, c)
  {
    twins := map[];
    var rest := build.passthrough * kept;
    ghost var done: set<Id> := {};
    while rest != {}
      invariant done + rest == build.passthrough * kept
      invariant forall c :: (if c in twins then twins[c] else {}) == Twins(build, done, c)
    {
      var oid :| oid in rest;
      ghost var was := done;
      rest, done := rest - {oid}, done + {oid};
      if oid in build.objects && build.objects[oid].content.Some? {
        var c := build.objects[oid].content.value;
        twins := twins[c := (if c in twins then twins[c] else {}) + {oid}];
      }
      forall c
        ensures (if c in twins then twins[c] else {}) == Twins(build, done, c)
      {
        assert Twins(build, done, c) == Twins(build, was, c)
            + (if oid in build.objects && build.objects[oid].content == Some(c) then {oid} else {});
      }
    }
    forall c
      ensures Twins(build, done, c) == Twins(build, kept, c)
    {
      assert done == build.passthrough * kept;
    }
  }

  /** One more object found to have a twin, or none. */
  lemma TwinStep(items: seq<Obj>, i: nat, build: Build, kept: set<Id>, before: map<Id, Id>, remap: map<Id, Id>)
    requires i < |items| && Remapped(items, i, build, kept, before)
    requires
      if items[i].content.Some? && items[i].id !in before && items[i].id !in kept
         && |Twins(build, kept, items[i].content.value)| == 1
      then exists t :: Twins(build, kept, items[i].content.value) == {t} && remap == before[items[i].id := t]
      else remap == before
    ensures Remapped(items, i + 1, build, kept, remap)
  {
    forall id | id in remap
      ensures exists j: nat :: j < |items| && items[j].id == id
                && (Matched(build, kept, items[j], remap[id]) || (j < i + 1 && Twinned(build, kept, items[j], remap[id])))
    {
      if remap != before && id == items[i].id {
        assert Twinned(build, kept, items[i], remap[id]);
      } else {
        var j: nat :| j < |items| && items[j].id == id
                      && (Matched(build, kept, items[j], before[id]) || (j < i && Twinned(build, kept, items[j], before[id])));
      }
    }
  }

  method MatchByContent(items: seq<Obj>, build: Build, kept: set<Id>, before: map<Id, Id>) returns (remap: map<Id, Id>)
    requires MatchPass(items, |items|, build, kept, before)
    ensures Remapped(items, |items|, build, kept, remap)
  {
    var twins := KeptByContent(build, kept);
    remap := before;
    MatchedFirst(items, build, kept, before);
    for i := 0 to |items|
      invariant Remapped(items, i, build, kept, remap)
    {
      var o, was := items[i], remap;
      if o.content.Some? && o.id !in remap && o.id !in kept {
        var found := if o.content.value in twins then twins[o.content.value] else {};
        assert found == Twins(build, kept, o.content.value);
        if |found| == 1 {
          var t :| t in found;
          SingletonSize(found, t);
          remap := remap[o.id := t];
        }
      }
      TwinStep(items, i, build, kept, was, remap);
    }
  }

  lemma MatchedFirst(items: seq<Obj>, build: Build, kept: set<Id>, remap: map<Id, Id>)
    requires MatchPass(items, |items|, build, kept, remap)
    ensures Remapped(items, 0, build, kept, remap)
  {
    forall id | id in remap
      ensures exists i: nat :: i < |items| && items[i].id == id && Matched(build, kept, items[i], remap[id])
    {
      var i: nat :| i < |items| && items[i].id == id && Matched(build, kept, items[i], remap[id]);
    }
  }

  /** No kept id is remapped, every target is a kept baseline object, and no relationship is remapped. */
  lemma RemapIntoKept(items: seq<Obj>, build: Build, kept: set<Id>, remap: map<Id, Id>)
    requires Remapped(items, |items|, build, kept, remap)
    ensures forall id | id in remap :: id !in kept && remap[id] in kept && remap[id] != id
    ensures (forall o | o in items :: WellFormed(o)) ==>
              forall id | id in remap :: exists o | o in items :: o.id == id && o.edge.None?
  {
    forall id | id in remap
      ensures id !in kept && remap[id] in kept && remap[id] != id
      ensures (forall o | o in items :: WellFormed(o)) ==> exists o | o in items :: o.id == id && o.edge.None?
    {
      var i: nat :| i < |items| && items[i].id == id
                    && (Matched(build, kept, items[i], remap[id]) || Twinned(build, kept, items[i], remap[id]));
      if Matched(build, kept, items[i], remap[id]) {
        MatchIsEarned(build, kept, items[i], remap[id]);
      } else {
        assert remap[id] in Twins(build, kept, items[i].content.value);
      }
      assert items[i] in items;
    }
  }
}
