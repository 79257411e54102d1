/**
 Building the index of a baseline (pipeline/baseline_stix.py:1159-1191, 1279-1385).

 An imported object is known by its id, its kind and the keys `keys_for_object` and
 `pattern_keys` give it; `face` is what its card shows and is searched by.
 */
module IndexBuild {
  import opened Common
  import opened References
  import opened BaselineIndex

  datatype Face = Face(entityType: string, value: string, forms: seq<string>)

  /** The keys an Indicator's pattern states about one observable type. */
  datatype Group = Group(stixType: string, strong: set<Key>, weak: set<Key>, face: Face)

  datatype Kind =
    | Observable(stixType: string)
    | StixIndicator(groups: seq<Group>)
    | Relationship(verb: string, source: Id, target: Id)
    | NamedSdo(stixType: string, system: bool)
    | Passed

  datatype Object = Object(id: Id, kind: Kind, strong: set<Key>, weak: set<Key>, author: Option<Id>, face: Face)

  datatype Relation = Relation(id: Id, verb: string, source: Id, target: Id,
                               sourceEntry: Option<Id>, targetEntry: Option<Id>)

  /** An entry while the index is built: it is named by an object, or by an object and
      the observable type for the second entry an Indicator makes, and so on. */
  datatype Draft = Draft(root: Id, suffix: Option<string>, stixType: string, face: Face,
                         keys: set<Key>, weakKeys: set<Key>, scoId: Option<Id>,
                         indicatorIds: seq<Id>, objectIds: seq<Id>)

  function EntryId(root: Id, suffix: Option<string>): Id {
    if suffix.None? then root else Id(root.text + "#" + suffix.value)
  }

  function Freeze(d: Draft): Entry {
    Entry(EntryId(d.root, d.suffix), d.stixType, d.face.entityType, d.face.value, d.keys, d.weakKeys, d.scoId,
          d.indicatorIds, d.objectIds, d.face.forms)
  }

  const MIN_FORM := 3

  /** Forms of three characters or more, each once. */
  function AddForms(forms: seq<string>, more: seq<string>): seq<string>
    decreases |more|
  {
    if more == [] then forms
    else AddForms(if |more[0]| >= MIN_FORM && more[0] !in forms then forms + [more[0]] else forms, more[1..])
  }

  /** Some key beside the id makes the object findable. */
  predicate Keyed(o: Object) {
    o.weak != {} || exists k | k in o.strong :: !k.IdKey?
  }

  // ----- What the imported objects are

  /** What the key functions guarantee: an observable's keys are of its type, a pattern's
      keys of the group's, and a named object has no observable key. */
  predicate WellTyped(o: Object) {
    match o.kind
    case Observable(t) => forall k | k in o.strong :: KeyFits(k, t)
    case StixIndicator(groups) =>
      && (forall g | g in groups :: forall k | k in g.strong :: (k.Obs? || k.Hash?) && KeyFits(k, g.stixType))
      && (forall i, j | 0 <= i < j < |groups| :: groups[i].stixType != groups[j].stixType)
    case NamedSdo(_, _) => forall k | k in o.strong :: !k.Obs? && !k.Hash?
    case _ => true
  }

  /** A dictionary of objects by id; no id holds a '#' (an id is `<type>--<uuid>`). */
  ghost predicate Imported(objects: seq<Object>) {
    && (forall i, j | 0 <= i < j < |objects| :: objects[i].id != objects[j].id)
    && (forall o | o in objects :: '#' !in o.id.text && WellTyped(o))
  }

  ghost predicate Holds(entries: seq<Entry>, i: nat, id: Id) {
    i < |entries| && id in entries[i].objectIds
  }

  ghost predicate InEntry(entries: seq<Entry>, id: Id) {
    exists i: nat :: Holds(entries, i, id)
  }

  ghost predicate InRelation(relations: seq<Relation>, id: Id) {
    exists r | r in relations :: r.id == id
  }

  /** The end of a relation, routed to the entry that holds it when one does: for an Indicator,
      to that of the first type its pattern is about. */
  ghost predicate Routed(objects: seq<Object>, entries: seq<Entry>, end: Id, routed: Option<Id>) {
    match routed
    case None => !InEntry(entries, end)
    case Some(e) =>
      exists i: nat :: Holds(entries, i, end) && entries[i].entryId == e && OfFirstType(objects, entries[i], end)
  }

  ghost predicate OfFirstType(objects: seq<Object>, entry: Entry, id: Id) {
    forall o | o in objects && o.id == id && o.kind.StixIndicator? ::
      o.kind.groups != [] && entry.stixType == o.kind.groups[0].stixType
  }

  type Members = map<Id, seq<nat>>

  ghost predicate Member(members: Members, id: Id, d: nat) {
    id in members && d in members[id]
  }

  ghost predicate Has(drafts: seq<Draft>, d: nat, id: Id) {
    d < |drafts| && id in drafts[d].objectIds
  }

  /** `members` and the entries agree on which object is in which entry. */
  ghost predicate Agree(drafts: seq<Draft>, members: Members) {
    && (forall id, d :: Member(members, id, d) <==> Has(drafts, d, id))
    && (forall id | id in members :: members[id] != [])
  }

  ghost predicate DistinctNames(drafts: seq<Draft>) {
    forall d, e | 0 <= d < e < |drafts| :: drafts[d].root != drafts[e].root || drafts[d].suffix != drafts[e].suffix
  }

  /** Every entry holds the object it is named by, and only keys of its type. */
  ghost predicate WellMade(d: Draft) {
    d.root in d.objectIds && forall k | k in d.keys :: KeyFits(k, d.stixType)
  }

  ghost predicate HolderFits(drafts: seq<Draft>, holder: map<Key, nat>) {
    forall k | k in holder :: holder[k] < |drafts| && k in drafts[holder[k]].keys
  }

  /** The entries of the observables come first. */
  ghost predicate AnchorsFirst(drafts: seq<Draft>) {
    forall d, e | 0 <= d < e < |drafts| :: drafts[e].scoId.Some? ==> drafts[d].scoId.Some?
  }

  /** The first holder of each of these keys is the entry of an observable. */
  ghost predicate Anchored(drafts: seq<Draft>, holder: map<Key, nat>, anchors: set<Key>) {
    forall k | k in anchors :: k in holder && holder[k] < |drafts| && drafts[holder[k]].scoId.Some?
  }

  function WithMember(members: Members, id: Id, d: nat): Members {
    members[id := (if id in members then members[id] else []) + [d]]
  }

  lemma MemberAdded(members: Members, id: Id, d: nat)
    ensures forall x, e :: Member(WithMember(members, id, d), x, e) <==> Member(members, x, e) || (x == id && e == d)
  {
    var mine := if id in members then members[id] else [];
    forall x, e: nat
      ensures Member(WithMember(members, id, d), x, e) <==> Member(members, x, e) || (x == id && e == d)
    {
      if x == id {
        assert WithMember(members, id, d)[x] == mine + [d];
        assert e in mine + [d] <==> e in mine || e == d;
      }
    }
  }

  lemma AgreeAfterJoin(drafts: seq<Draft>, members: Members, d: nat, joined: Draft, id: Id)
    requires Agree(drafts, members) && d < |drafts| && joined.objectIds == drafts[d].objectIds + [id]
    ensures Agree(drafts[d := joined], WithMember(members, id, d))
  {
    MemberAdded(members, id, d);
    var after := drafts[d := joined];
    forall x, e: nat
      ensures Member(WithMember(members, id, d), x, e) <==> Has(after, e, x)
    {
      assert Member(members, x, e) <==> Has(drafts, e, x);
      if e == d {
        assert x in joined.objectIds <==> x in drafts[d].objectIds || x == id;
      }
    }
  }

  lemma AgreeAfterNew(drafts: seq<Draft>, members: Members, made: Draft)
    requires Agree(drafts, members) && made.objectIds == [made.root]
    ensures Agree(drafts + [made], WithMember(members, made.root, |drafts|))
  {
    MemberAdded(members, made.root, |drafts|);
    var after := drafts + [made];
    forall x, e: nat
      ensures Member(WithMember(members, made.root, |drafts|), x, e) <==> Has(after, e, x)
    {
      assert Member(members, x, e) <==> Has(drafts, e, x);
      if e < |drafts| {
        assert after[e] == drafts[e];
      }
    }
  }

  class IndexBuilder {
    var drafts: seq<Draft>
    var members: Members
    var holder: map<Key, nat>
    ghost var anchors: set<Key>

    constructor ()
      ensures Valid() && drafts == [] && members == map[] && anchors == {}
    {
      drafts, members, holder, anchors := [], map[], map[], {};
    }

    ghost predicate Valid()
      reads this
    {
      && Agree(drafts, members)
      && DistinctNames(drafts)
      && (forall d | 0 <= d < |drafts| :: WellMade(drafts[d]))
      && HolderFits(drafts, holder)
      && AnchorsFirst(drafts) && Anchored(drafts, holder, anchors)
    }

    /** Note which entry states each new key first. */
    method HoldKeys(d: nat, keys: set<Key>)
      requires HolderFits(drafts, holder) && d < |drafts| && keys <= drafts[d].keys
      modifies this`holder
      ensures HolderFits(drafts, holder)
      ensures forall k | k in old(holder) :: k in holder && holder[k] == old(holder)[k]
      ensures forall k | k in keys && k !in old(holder) :: k in holder && holder[k] == d
    {
      var rest := keys;
      while rest != {}
        invariant rest <= keys && HolderFits(drafts, holder)
        invariant forall k | k in old(holder) :: k in holder && holder[k] == old(holder)[k]
        invariant forall k | k in keys && k !in rest && k !in old(holder) :: k in holder && holder[k] == d
        invariant forall k | k in rest && k !in old(holder) :: k !in holder
      {
        var k :| k in rest;
        rest := rest - {k};
        if k !in holder {
          holder := holder[k := d];
        }
      }
    }

    /** A new entry named by an object no entry holds yet, or by one more type of an Indicator. */
    method NewDraft(d: Draft)
      requires Valid() && d.objectIds == [d.root]
      requires forall k | k in d.keys :: KeyFits(k, d.stixType)
      requires forall e | 0 <= e < |drafts| :: drafts[e].root != d.root || drafts[e].suffix != d.suffix
      requires d.scoId.Some? ==> forall e | 0 <= e < |drafts| :: drafts[e].scoId.Some?
      modifies this
      ensures Valid()
      ensures drafts == old(drafts) + [d]
      ensures members == WithMember(old(members), d.root, |old(drafts)|)
      ensures anchors == old(anchors) + (if d.scoId.Some? then d.keys else {})
    {
      AgreeAfterNew(drafts, members, d);
      var n := |drafts|;
      drafts, members := drafts + [d], WithMember(members, d.root, n);
      HoldKeys(n, d.keys);
      if d.scoId.Some? {
        anchors := anchors + d.keys;
      }
    }

    /** An Indicator joins an entry for the keys its pattern states about the entry's type. */
    method Join(d: nat, id: Id, g: Group)
      requires Valid() && d < |drafts| && drafts[d].stixType == g.stixType
      requires forall k | k in g.strong :: KeyFits(k, g.stixType)
      modifies this
      ensures Valid() && anchors == old(anchors)
      ensures drafts == old(drafts)[d := Joined(old(drafts)[d], id, g)]
      ensures members == WithMember(old(members), id, d)
    {
      var newKeys := (g.strong + {IdKey(id)}) - drafts[d].keys;
      AgreeAfterJoin(drafts, members, d, Joined(drafts[d], id, g), id);
      drafts, members := drafts[d := Joined(drafts[d], id, g)], WithMember(members, id, d);
      HoldKeys(d, newKeys);
    }

    function FirstHolders(g: Group): set<nat>
      reads this`holder
    {
      set k | k in g.strong && k in holder :: holder[k]
    }

    /** The entries of the keys' first holders; failing those, the one observable of this
        type that the based-on names, when it carries a key the pattern states. */
    function Targets(basedOn: seq<Id>, g: Group): set<nat>
      reads this
    {
      var found := FirstHolders(g);
      if found != {} then found
      else
        var named := set t, d | t in basedOn && t in members && d in members[t]
                                && d < |drafts| && drafts[d].stixType == g.stixType && drafts[d].scoId == Some(t) :: d;
        if |named| == 1 && exists d | d in named :: (g.strong + g.weak) * (drafts[d].keys + drafts[d].weakKeys) != {}
        then named else {}
    }

    lemma TargetsFit(basedOn: seq<Id>, g: Group)
      requires Valid()
      requires forall k | k in g.strong :: (k.Obs? || k.Hash?) && KeyFits(k, g.stixType)
      ensures forall d | d in Targets(basedOn, g) :: d < |drafts| && drafts[d].stixType == g.stixType
    {
      forall k | k in g.strong && k in holder
        ensures holder[k] < |drafts| && drafts[holder[k]].stixType == g.stixType
      {
        assert WellMade(drafts[holder[k]]);
      }
    }

    /** When an observable states one of the keys, the least target is an observable's entry. */
    lemma LeastIsAnchored(basedOn: seq<Id>, g: Group, least: nat)
      requires Valid() && least in Targets(basedOn, g) && forall d | d in Targets(basedOn, g) :: least <= d
      requires least < |drafts|
      ensures g.strong * anchors != {} ==> drafts[least].scoId.Some?
    {
      if k :| k in g.strong * anchors {
        assert holder[k] in FirstHolders(g);
      }
    }

    lemma AnchoredHasTarget(basedOn: seq<Id>, g: Group)
      requires Valid()
      ensures g.strong * anchors != {} ==> Targets(basedOn, g) != {}
    {
      if k :| k in g.strong * anchors {
        assert holder[k] in FirstHolders(g);
      }
    }

    /** A pattern's keys of one type join the earliest of the entries they lead to; leading to
        none they make an entry. */
    method AddGroup(id: Id, basedOn: seq<Id>, g: Group, named: bool) returns (made: bool)
      requires Valid()
      requires forall k | k in g.strong :: (k.Obs? || k.Hash?) && KeyFits(k, g.stixType)
      requires forall e | 0 <= e < |drafts| && drafts[e].root == id ::
                 if drafts[e].suffix.None? then named else drafts[e].suffix.value != g.stixType
      modifies this
      ensures Valid() && Grown(old(drafts), drafts) && |drafts| <= |old(drafts)| + 1
      ensures |drafts| > |old(drafts)| ==>
                drafts[|old(drafts)|].root == id && drafts[|old(drafts)|].suffix == (if named then Some(g.stixType) else None)
      ensures made == (named || |drafts| > |old(drafts)|)
      ensures members.Keys == old(members).Keys + {id}
      ensures anchors == old(anchors)
      ensures exists d :: members == WithMember(old(members), id, d) && HoldsGroup(drafts, d, g, g.strong * anchors != {})
      ensures var found := old(Targets(basedOn, g));
              if found == {} then drafts == old(drafts) + [Alone(id, g, named)]
              else exists d: nat :: IsLeast(found, d) && d < |old(drafts)|
                                    && drafts == old(drafts)[d := Joined(old(drafts)[d], id, g)]
    {
      var found := Targets(basedOn, g);
      made := named;
      ghost var home;
      if found != {} {
        home := JoinLeast(id, basedOn, found, g);
      } else {
        AnchoredHasTarget(basedOn, g);
        home := |drafts|;
        NewDraft(Alone(id, g, named));
        made := true;
      }
      assert HoldsGroup(drafts, home, g, g.strong * anchors != {});
    }

    method JoinLeast(id: Id, ghost basedOn: seq<Id>, found: set<nat>, g: Group) returns (ghost d: nat)
      requires Valid() && found == Targets(basedOn, g) && found != {}
      requires forall k | k in g.strong :: (k.Obs? || k.Hash?) && KeyFits(k, g.stixType)
      modifies this
      ensures Valid() && anchors == old(anchors)
      ensures IsLeast(found, d) && d < |old(drafts)| && drafts == old(drafts)[d := Joined(old(drafts)[d], id, g)]
      ensures members == WithMember(old(members), id, d) && HoldsGroup(drafts, d, g, g.strong * anchors != {})
    {
      TargetsFit(basedOn, g);
      var least := Least(found);
      LeastIsAnchored(basedOn, g, least);
      Join(least, id, g);
      d := least;
    }

    method AddObservable(o: Object)
      requires Valid() && o.kind.Observable? && WellTyped(o) && o.id !in members
      requires forall e | 0 <= e < |drafts| :: drafts[e].scoId.Some?
      modifies this
      ensures forall e | 0 <= e < |drafts| :: drafts[e].scoId.Some?
      ensures anchors == old(anchors) + (if Keyed(o) then o.strong else {})
      ensures Valid() && Grown(old(drafts), drafts)
      ensures members.Keys == old(members).Keys + (if Keyed(o) then {o.id} else {})
      ensures Keyed(o) ==> OwnEntry(drafts, o)
      ensures Rehoused(old(members), members, o.id) && (o.id in members ==> Housed(drafts, members, o))
    {
      if Keyed(o) {
        NoRoot(o.id);
        NewDraft(Draft(o.id, None, o.kind.stixType, o.face, o.strong, o.weak, Some(o.id), [], [o.id]));
        assert Has(drafts, |drafts| - 1, o.id);
      }
    }

    method AddNamed(o: Object, authors: set<Id>)
      requires Valid() && o.kind.NamedSdo? && WellTyped(o) && o.id !in members
      modifies this
      ensures anchors == old(anchors)
      ensures Valid() && Grown(old(drafts), drafts)
      ensures members.Keys == old(members).Keys + (if Carded(o, authors) then {o.id} else {})
      ensures Carded(o, authors) ==> OwnEntry(drafts, o)
      ensures forall d | |old(drafts)| <= d < |drafts| :: drafts[d].objectIds == [o.id]
      ensures forall d | 0 <= d < |old(drafts)| :: drafts[d] == old(drafts)[d]
      ensures Rehoused(old(members), members, o.id) && (o.id in members ==> Housed(drafts, members, o))
    {
      if Carded(o, authors) {
        NoRoot(o.id);
        NewDraft(Draft(o.id, None, o.kind.stixType, o.face, o.strong, {}, None, [], [o.id]));
        assert Has(drafts, |drafts| - 1, o.id);
      }
    }

    /** An object no entry holds names none. */
    lemma NoRoot(id: Id)
      requires Valid() && id !in members
      ensures forall d | 0 <= d < |drafts| :: drafts[d].root != id
    {
      forall d | 0 <= d < |drafts|
        ensures drafts[d].root != id
      {
        assert WellMade(drafts[d]);
        assert Has(drafts, d, drafts[d].root);
        assert Member(members, drafts[d].root, d);
      }
    }

    method AddIndicator(o: Object, basedOn: seq<Id>)
      requires Valid() && o.kind.StixIndicator? && WellTyped(o) && o.id !in members
      modifies this
      ensures Valid() && Grown(old(drafts), drafts)
      ensures members.Keys == old(members).Keys + (if o.kind.groups != [] then {o.id} else {})
      ensures anchors == old(anchors)
      ensures Homes(drafts, o.id, o.kind.groups, anchors)
      ensures Rehoused(old(members), members, o.id) && (o.id in members ==> Housed(drafts, members, o))
    {
      NoRoot(o.id);
      var groups, named := o.kind.groups, false;
      ghost var homes: seq<nat> := [];
      for i := 0 to |groups|
        invariant Valid() && Grown(old(drafts), drafts)
        invariant members.Keys == old(members).Keys + (if i > 0 then {o.id} else {})
        invariant anchors == old(anchors)
        invariant Homes(drafts, o.id, groups[..i], anchors)
        invariant NamesSoFar(drafts, o.id, groups, i, named)
        invariant HousedSoFar(old(members), members, o.id, drafts, groups, homes) && |homes| == i
      {
        var g := groups[i];
        assert g in groups;
        ghost var before, drafted, wasNamed := members, drafts, named;
        named := AddGroup(o.id, basedOn, g, named);
        ghost var d :| members == WithMember(before, o.id, d) && HoldsGroup(drafts, d, g, g.strong * anchors != {});
        MemberAdded(before, o.id, d);
        assert Has(drafts, d, o.id);
        HomesStep(drafted, drafts, o.id, groups, i, anchors);
        NamesStep(drafted, drafts, o.id, groups, i, wasNamed, named);
        HousedStep(old(members), before, members, o.id, drafted, drafts, groups, homes, d);
        homes := homes + [d];
        GrownTwice(old(drafts), drafted, drafts);
      }
      assert groups[..|groups|] == groups;
    }

    /** A based-on whose ends share an entry belongs to it. */
    method AddBasedOn(o: Object)
      requires Valid() && o.kind.Relationship? && o.id !in members
      modifies this
      ensures anchors == old(anchors)
      ensures Valid() && Grown(old(drafts), drafts) && |drafts| == |old(drafts)|
      ensures members.Keys == old(members).Keys + (if o.id in members then {o.id} else {})
      ensures o.id in members ==> Inside(drafts, o)
      ensures o.id !in members ==> drafts == old(drafts) && Outside(drafts, o)
      ensures forall d, id | Has(drafts, d, id) :: Has(old(drafts), d, id) || id == o.id
      ensures Rehoused(old(members), members, o.id) && (o.id in members ==> Housed(drafts, members, o))
    {
      var ends := if o.kind.target in members then members[o.kind.target] else [];
      var sources := if o.kind.source in members then members[o.kind.source] else [];
      var i := FirstShared(sources, ends);
      assert forall d: nat :: d in sources <==> Member(members, o.kind.source, d);
      assert forall d: nat :: d in ends <==> Member(members, o.kind.target, d);
      if i < |sources| {
        JoinBasedOn(o, sources[i]);
      }
    }

    method JoinBasedOn(o: Object, d: nat)
      requires Valid() && o.kind.Relationship? && o.id !in members
      requires Member(members, o.kind.source, d) && Member(members, o.kind.target, d)
      modifies this
      ensures Valid() && Grown(old(drafts), drafts) && |drafts| == |old(drafts)| && anchors == old(anchors)
      ensures members == old(members)[o.id := [d]] && Inside(drafts, o)
      ensures forall e, id | Has(drafts, e, id) :: Has(old(drafts), e, id) || id == o.id
    {
      assert Has(drafts, d, o.kind.source) && Has(drafts, d, o.kind.target);
      var joined := drafts[d].(objectIds := drafts[d].objectIds + [o.id]);
      AgreeAfterJoin(drafts, members, d, joined, o.id);
      drafts, members := drafts[d := joined], members[o.id := [d]];
      assert [] + [d] == [d];
      assert WellMade(old(drafts)[d]);
      assert Has(drafts, d, o.id);
    }
  }

  /** An Indicator is in one entry for each type its pattern is about, of that type, in the
      order of the pattern; any other object is in one entry. */
  ghost predicate Housed(drafts: seq<Draft>, members: Members, o: Object)
    requires o.id in members
  {
    match o.kind
    case StixIndicator(groups) => InOrder(drafts, groups, members[o.id]) && |members[o.id]| == |groups|
    case _ => |members[o.id]| == 1
  }

  ghost predicate InOrder(drafts: seq<Draft>, groups: seq<Group>, homes: seq<nat>) {
    |homes| <= |groups|
    && forall k | 0 <= k < |homes| :: homes[k] < |drafts| && drafts[homes[k]].stixType == groups[k].stixType
  }

  /** Only `id` may have come to an entry. */
  ghost predicate Rehoused(before: Members, after: Members, id: Id) {
    before.Keys <= after.Keys <= before.Keys + {id} && forall x | x in before.Keys && x != id :: after[x] == before[x]
  }

  /** The first groups of an Indicator that no entry held at `first`. */
  ghost predicate HousedSoFar(first: Members, members: Members, id: Id, drafts: seq<Draft>, groups: seq<Group>,
                              homes: seq<nat>)
  {
    && id !in first && InOrder(drafts, groups, homes)
    && members == if homes == [] then first else first[id := homes]
  }

  lemma HousedStep(first: Members, before: Members, members: Members, id: Id, was: seq<Draft>, drafts: seq<Draft>,
                   groups: seq<Group>, homes: seq<nat>, d: nat)
    requires HousedSoFar(first, before, id, was, groups, homes) && Grown(was, drafts) && |homes| < |groups|
    requires members == WithMember(before, id, d) && d < |drafts| && drafts[d].stixType == groups[|homes|].stixType
    ensures HousedSoFar(first, members, id, drafts, groups, homes + [d])
  {
    forall k | 0 <= k < |homes|
      ensures homes[k] < |drafts| && drafts[homes[k]].stixType == groups[k].stixType
    {
      assert GrownFrom(was[homes[k]], drafts[homes[k]]);
    }
  }

  ghost predicate AllHoused(objects: seq<Object>, drafts: seq<Draft>, members: Members) {
    forall o | o in objects && o.id in members :: Housed(drafts, members, o)
  }

  lemma HousedStays(objects: seq<Object>, before: seq<Draft>, was: Members, after: seq<Draft>, now: Members, o: Object)
    requires Imported(objects) && AllHoused(objects, before, was) && Grown(before, after) && o in objects
    requires o.id !in was && Rehoused(was, now, o.id) && (o.id in now ==> Housed(after, now, o))
    ensures AllHoused(objects, after, now)
  {
    forall p | p in objects && p.id in now
      ensures Housed(after, now, p)
    {
      if p.id == o.id {
        OneOfId(objects, p, o);
      } else if p.kind.StixIndicator? {
        assert Housed(before, was, p);
        forall k | 0 <= k < |p.kind.groups|
          ensures now[p.id][k] < |after| && after[now[p.id][k]].stixType == p.kind.groups[k].stixType
        {
          assert GrownFrom(before[was[p.id][k]], after[was[p.id][k]]);
        }
      } else {
        assert Housed(before, was, p);
      }
    }
  }

  lemma OneOfId(objects: seq<Object>, o: Object, p: Object)
    requires Imported(objects) && o in objects && p in objects && o.id == p.id
    ensures o == p
  {
    var i :| 0 <= i < |objects| && objects[i] == o;
    var j :| 0 <= j < |objects| && objects[j] == p;
  }

  method FirstShared(sources: seq<nat>, ends: seq<nat>) returns (i: nat)
    ensures i <= |sources| && (i < |sources| ==> sources[i] in ends)
    ensures forall j | 0 <= j < i :: sources[j] !in ends
  {
    i := 0;
    while i < |sources| && sources[i] !in ends
      invariant 0 <= i <= |sources|
      invariant forall j | 0 <= j < i :: sources[j] !in ends
    {
      i := i + 1;
    }
  }

  /** The named objects that make an entry: not the authors of the bundle. */
  predicate Carded(o: Object, authors: set<Id>)
    requires o.kind.NamedSdo?
  {
    !(o.kind.stixType == "identity" && (o.id in authors || o.kind.system)) && (o.weak != {} || Keyed(o))
  }

  /** An entry named by the object, of its type, with all its keys. */
  ghost predicate OwnEntry(drafts: seq<Draft>, o: Object)
    requires o.kind.Observable? || o.kind.NamedSdo?
  {
    exists d: nat ::
      && Has(drafts, d, o.id) && drafts[d].root == o.id && drafts[d].suffix.None?
      && drafts[d].stixType == o.kind.stixType && o.strong <= drafts[d].keys
      && (o.kind.Observable? ==> drafts[d].scoId == Some(o.id) && o.weak <= drafts[d].weakKeys)
  }

  ghost predicate GroupHome(drafts: seq<Draft>, id: Id, g: Group, anchors: set<Key>) {
    exists d: nat :: Has(drafts, d, id) && HoldsGroup(drafts, d, g, g.strong * anchors != {})
  }

  ghost predicate Homes(drafts: seq<Draft>, id: Id, groups: seq<Group>, anchors: set<Key>) {
    forall g | g in groups :: GroupHome(drafts, id, g, anchors)
  }

  ghost predicate Inside(drafts: seq<Draft>, o: Object)
    requires o.kind.Relationship?
  {
    exists d: nat :: Has(drafts, d, o.id) && Has(drafts, d, o.kind.source) && Has(drafts, d, o.kind.target)
  }

  ghost predicate Outside(drafts: seq<Draft>, o: Object)
    requires o.kind.Relationship?
  {
    forall d: nat :: !(Has(drafts, d, o.kind.source) && Has(drafts, d, o.kind.target))
  }

  lemma HomeStays(before: seq<Draft>, after: seq<Draft>, id: Id, g: Group, anchors: set<Key>)
    requires Grown(before, after) && GroupHome(before, id, g, anchors)
    ensures GroupHome(after, id, g, anchors)
  {
    var d: nat :| Has(before, d, id) && HoldsGroup(before, d, g, g.strong * anchors != {});
    assert GrownFrom(before[d], after[d]);
    assert Has(after, d, id) && HoldsGroup(after, d, g, g.strong * anchors != {});
  }

  lemma HomesStay(before: seq<Draft>, after: seq<Draft>, id: Id, groups: seq<Group>, anchors: set<Key>)
    requires Grown(before, after) && Homes(before, id, groups, anchors)
    ensures Homes(after, id, groups, anchors)
  {
    forall g | g in groups
      ensures GroupHome(after, id, g, anchors)
    {
      HomeStays(before, after, id, g, anchors);
    }
  }

  lemma HomesStep(before: seq<Draft>, after: seq<Draft>, id: Id, groups: seq<Group>, i: nat, anchors: set<Key>)
    requires i < |groups| && Grown(before, after) && Homes(before, id, groups[..i], anchors)
    requires GroupHome(after, id, groups[i], anchors)
    ensures Homes(after, id, groups[..i + 1], anchors)
  {
    HomesStay(before, after, id, groups[..i], anchors);
    assert groups[..i + 1] == groups[..i] + [groups[i]];
  }

  lemma GrownTwice(a: seq<Draft>, b: seq<Draft>, c: seq<Draft>)
    requires Grown(a, b) && Grown(b, c)
    ensures Grown(a, c)
  {
    forall d | 0 <= d < |a|
      ensures GrownFrom(a[d], c[d])
    {
      assert GrownFrom(a[d], b[d]) && GrownFrom(b[d], c[d]);
    }
  }

  /** The entries named by `id` while its first `n` groups are placed: the first one made
      is named by `id` alone, the others by their types. */
  ghost predicate NamesSoFar(drafts: seq<Draft>, id: Id, groups: seq<Group>, n: nat, named: bool)
    requires n <= |groups|
  {
    forall e | 0 <= e < |drafts| && drafts[e].root == id ::
      if drafts[e].suffix.None? then named else TypeAmong(groups[..n], drafts[e].suffix.value)
  }

  ghost predicate TypeAmong(groups: seq<Group>, t: string) {
    exists g | g in groups :: g.stixType == t
  }

  lemma NamesStep(before: seq<Draft>, after: seq<Draft>, id: Id, groups: seq<Group>, i: nat, named: bool, made: bool)
    requires i < |groups| && NamesSoFar(before, id, groups, i, named) && Grown(before, after)
    requires |after| <= |before| + 1 && made == (named || |after| > |before|)
    requires |after| > |before| ==>
               after[|before|].root == id
               && after[|before|].suffix == (if named then Some(groups[i].stixType) else None)
    ensures NamesSoFar(after, id, groups, i + 1, made)
  {
    assert groups[..i + 1] == groups[..i] + [groups[i]];
    forall e | 0 <= e < |after| && after[e].root == id
      ensures if after[e].suffix.None? then made else TypeAmong(groups[..i + 1], after[e].suffix.value)
    {
      if e < |before| {
        assert GrownFrom(before[e], after[e]);
      }
    }
  }

  /** The entry an Indicator makes for one observable type: named by it, or by it and the type. */
  function Alone(id: Id, g: Group, named: bool): Draft {
    Draft(id, if named then Some(g.stixType) else None, g.stixType, g.face,
          g.strong + {IdKey(id)}, g.weak, None, [id], [id])
  }

  predicate IsLeast(s: set<nat>, m: nat) {
    m in s && forall x | x in s :: m <= x
  }

  function Joined(d: Draft, id: Id, g: Group): Draft {
    d.(keys := d.keys + g.strong + {IdKey(id)}, weakKeys := d.weakKeys + g.weak,
       indicatorIds := d.indicatorIds + [id], objectIds := d.objectIds + [id],
       face := d.face.(forms := AddForms(d.face.forms, g.face.forms)))
  }

  /** The entries only grow: each keeps its name, type and file, and loses no key or object. */
  ghost predicate Grown(before: seq<Draft>, after: seq<Draft>) {
    |before| <= |after| && forall d | 0 <= d < |before| :: GrownFrom(before[d], after[d])
  }

  ghost predicate GrownFrom(d: Draft, e: Draft) {
    && e.root == d.root && e.suffix == d.suffix && e.stixType == d.stixType && e.scoId == d.scoId
    && d.keys <= e.keys && d.weakKeys <= e.weakKeys && forall id | id in d.objectIds :: id in e.objectIds
  }

  /** The entry is of the group's type, holds all its keys and, if `anchored`, an observable. */
  ghost predicate HoldsGroup(drafts: seq<Draft>, d: nat, g: Group, anchored: bool) {
    d < |drafts| && (anchored ==> drafts[d].scoId.Some?) && drafts[d].stixType == g.stixType && g.strong <= drafts[d].keys && g.weak <= drafts[d].weakKeys
  }

  method Least(s: set<nat>) returns (m: nat)
    requires s != {}
    ensures IsLeast(s, m)
  {
    m :| m in s;
    var rest := s - {m};
    while rest != {}
      invariant rest <= s && m in s
      invariant forall x | x in s && x !in rest :: m <= x
    {
      var x :| x in rest;
      rest := rest - {x};
      if x < m { m := x; }
    }
  }

  // ----- The stages

  function StageOf(k: Kind): nat {
    match k
    case Observable(_) => 1
    case StixIndicator(_) => 2
    case Relationship(verb, _, _) => if verb == "based-on" then 3 else 5
    case NamedSdo(_, _) => 4
    case Passed => 5
  }

  /** What becomes of an object: the entry it makes, the entries it joins, or none. */
  ghost predicate Settled(drafts: seq<Draft>, members: Members, anchors: set<Key>, links: set<Id>, authors: set<Id>, o: Object) {
    match o.kind
    case Observable(_) => if Keyed(o) then OwnEntry(drafts, o) else o.id !in members
    case StixIndicator(groups) =>
      Homes(drafts, o.id, groups, anchors) && (groups == [] ==> o.id !in members)
    case Relationship(verb, _, _) =>
      if o.id in members then verb == "based-on" && Inside(drafts, o)
      else verb == "based-on" ==> Loose(drafts, links, o)
    case NamedSdo(_, _) => if Carded(o, authors) then OwnEntry(drafts, o) else o.id !in members
    case Passed => o.id !in members
  }

  /** No entry holds both ends, unless one is itself a relationship, or they are the same. */
  ghost predicate Loose(drafts: seq<Draft>, links: set<Id>, o: Object)
    requires o.kind.Relationship?
  {
    forall d: nat | Has(drafts, d, o.kind.source) && Has(drafts, d, o.kind.target) ::
      o.kind.source == o.kind.target || o.kind.source in links || o.kind.target in links
  }

  /** An entry gains only relationships, or is new with a single object. */
  ghost predicate GainsLinks(before: seq<Draft>, after: seq<Draft>, links: set<Id>) {
    forall d: nat, id | Has(after, d, id) :: Has(before, d, id) || id in links || after[d].objectIds == [id]
  }

  lemma SettledStays(before: seq<Draft>, was: Members, after: seq<Draft>, now: Members, anchors: set<Key>,
                     links: set<Id>, authors: set<Id>, o: Object, added: Id)
    requires Settled(before, was, anchors, links, authors, o) && Grown(before, after)
    requires was.Keys <= now.Keys <= was.Keys + {added} && o.id != added
    requires o.kind.Relationship? ==> GainsLinks(before, after, links)
    ensures Settled(after, now, anchors, links, authors, o)
  {
    match o.kind
    case StixIndicator(groups) =>
      HomesStay(before, after, o.id, groups, anchors);
    case Relationship(_, _, _) =>
      if o.id in was && Inside(before, o) {
        var d: nat :| Has(before, d, o.id) && Has(before, d, o.kind.source) && Has(before, d, o.kind.target);
        assert GrownFrom(before[d], after[d]);
        assert Has(after, d, o.id) && Has(after, d, o.kind.source) && Has(after, d, o.kind.target);
      }
    case Passed =>
    case _ =>
      if OwnEntry(before, o) {
        OwnEntryStays(before, after, o);
      }
  }

  lemma OwnEntryStays(before: seq<Draft>, after: seq<Draft>, o: Object)
    requires Grown(before, after) && (o.kind.Observable? || o.kind.NamedSdo?) && OwnEntry(before, o)
    ensures OwnEntry(after, o)
  {
    var d: nat :|
      && Has(before, d, o.id) && before[d].root == o.id && before[d].suffix.None?
      && before[d].stixType == o.kind.stixType && o.strong <= before[d].keys
      && (o.kind.Observable? ==> before[d].scoId == Some(o.id) && o.weak <= before[d].weakKeys);
    assert GrownFrom(before[d], after[d]);
    assert Has(after, d, o.id);
  }

  /** The objects of the earlier stages, and the first `i` of this one, are settled; no entry holds another. */
  ghost predicate Progress(objects: seq<Object>, drafts: seq<Draft>, members: Members, anchors: set<Key>,
                           links: set<Id>, authors: set<Id>, stage: nat, i: nat)
  {
    && (forall j | 0 <= j < |objects| ::
          var o := objects[j];
          if StageOf(o.kind) < stage || (StageOf(o.kind) == stage && j < i)
          then Settled(drafts, members, anchors, links, authors, o)
          else o.id !in members)
    && (forall id | id in members :: exists o | o in objects :: o.id == id)
  }

  lemma ProgressStep(objects: seq<Object>, before: seq<Draft>, was: Members, after: seq<Draft>, now: Members,
                     anchors: set<Key>, links: set<Id>, authors: set<Id>, stage: nat, i: nat)
    requires Imported(objects) && i < |objects|
    requires Progress(objects, before, was, anchors, links, authors, stage, i)
    requires Grown(before, after) && was.Keys <= now.Keys <= was.Keys + {objects[i].id}
    requires stage >= 3 ==> GainsLinks(before, after, links)
    requires StageOf(objects[i].kind) == stage
    requires Settled(after, now, anchors, links, authors, objects[i])
    ensures Progress(objects, after, now, anchors, links, authors, stage, i + 1)
  {
    forall j | 0 <= j < |objects|
      ensures var o := objects[j];
              if StageOf(o.kind) < stage || (StageOf(o.kind) == stage && j < i + 1)
              then Settled(after, now, anchors, links, authors, o) else o.id !in now
    {
      if j != i && (StageOf(objects[j].kind) < stage || (StageOf(objects[j].kind) == stage && j < i)) {
        SettledStays(before, was, after, now, anchors, links, authors, objects[j], objects[i].id);
      }
    }
    assert objects[i] in objects;
  }

  /** The keys that observables state. */
  ghost function AnchorKeys(objects: seq<Object>, n: nat): set<Key> {
    set j, k | 0 <= j < n && j < |objects| && objects[j].kind.Observable? && Keyed(objects[j]) && k in objects[j].strong :: k
  }

  /** What one object adds at its stage. */
  method Place(b: IndexBuilder, o: Object, basedOn: seq<Id>, authors: set<Id>, ghost links: set<Id>, ghost anchors: set<Key>)
    requires b.Valid() && WellTyped(o) && o.id !in b.members && StageOf(o.kind) < 5
    requires o.kind.Relationship? ==> o.id in links
    requires o.kind.Observable? ==> forall e | 0 <= e < |b.drafts| :: b.drafts[e].scoId.Some?
    requires !o.kind.Observable? ==> b.anchors == anchors
    modifies b
    ensures b.Valid() && Grown(old(b.drafts), b.drafts)
    ensures old(b.members).Keys <= b.members.Keys <= old(b.members).Keys + {o.id}
    ensures Settled(b.drafts, b.members, anchors, links, authors, o)
    ensures StageOf(o.kind) >= 3 ==> GainsLinks(old(b.drafts), b.drafts, links)
    ensures b.anchors == old(b.anchors) + (if o.kind.Observable? && Keyed(o) then o.strong else {})
    ensures o.kind.Observable? ==> forall e | 0 <= e < |b.drafts| :: b.drafts[e].scoId.Some?
    ensures Rehoused(old(b.members), b.members, o.id) && (o.id in b.members ==> Housed(b.drafts, b.members, o))
  {
    match o.kind {
      case Observable(_) => b.AddObservable(o);
      case StixIndicator(_) => b.AddIndicator(o, basedOn);
      case Relationship(_, _, _) => b.AddBasedOn(o);
      case NamedSdo(_, _) =>
        b.AddNamed(o, authors);
        OnlyOwn(old(b.drafts), b.drafts, o.id, links);
    }
  }

  lemma OnlyOwn(before: seq<Draft>, after: seq<Draft>, id: Id, links: set<Id>)
    requires |before| <= |after|
    requires forall d | |before| <= d < |after| :: after[d].objectIds == [id]
    requires forall d | 0 <= d < |before| :: after[d] == before[d]
    ensures GainsLinks(before, after, links)
  {
    forall d: nat, x | Has(after, d, x)
      ensures Has(before, d, x) || after[d].objectIds == [x]
    {
      if d < |before| {
        assert after[d] == before[d];
      }
    }
  }

  lemma AnchorKeysStep(objects: seq<Object>, i: nat)
    requires i < |objects|
    ensures AnchorKeys(objects, i + 1)
            == AnchorKeys(objects, i)
               + (if objects[i].kind.Observable? && Keyed(objects[i]) then objects[i].strong else {})
  {
  }

  method PlaceAt(b: IndexBuilder, objects: seq<Object>, i: nat, ghost stage: nat, basedOn: map<Id, seq<Id>>,
                 authors: set<Id>, ghost links: set<Id>, ghost anchors: set<Key>)
    requires b.Valid() && Imported(objects) && i < |objects| && StageOf(objects[i].kind) == stage && 1 <= stage <= 4
    requires forall o | o in objects && o.kind.Relationship? :: o.id in links
    requires Progress(objects, b.drafts, b.members, anchors, links, authors, stage, i)
    requires AllHoused(objects, b.drafts, b.members)
    requires stage == 1 ==> forall e | 0 <= e < |b.drafts| :: b.drafts[e].scoId.Some?
    requires stage != 1 ==> b.anchors == anchors
    modifies b
    ensures b.Valid() && AllHoused(objects, b.drafts, b.members)
    ensures Progress(objects, b.drafts, b.members, anchors, links, authors, stage, i + 1)
    ensures b.anchors
            == old(b.anchors) + (if objects[i].kind.Observable? && Keyed(objects[i]) then objects[i].strong else {})
    ensures stage == 1 ==> forall e | 0 <= e < |b.drafts| :: b.drafts[e].scoId.Some?
  {
    ghost var before, was := b.drafts, b.members;
    assert objects[i] in objects;
    Place(b, objects[i], if objects[i].id in basedOn then basedOn[objects[i].id] else [], authors, links, anchors);
    HousedStays(objects, before, was, b.drafts, b.members, objects[i]);
    ProgressStep(objects, before, was, b.drafts, b.members, anchors, links, authors, stage, i);
  }

  method RunStage(b: IndexBuilder, objects: seq<Object>, stage: nat, basedOn: map<Id, seq<Id>>, authors: set<Id>,
                  ghost links: set<Id>)
    requires b.Valid() && Imported(objects) && 1 <= stage <= 4
    requires forall o | o in objects && o.kind.Relationship? :: o.id in links
    requires Progress(objects, b.drafts, b.members, AnchorKeys(objects, |objects|), links, authors, stage, 0)
    requires if stage == 1 then b.drafts == [] && b.anchors == {} else b.anchors == AnchorKeys(objects, |objects|)
    requires AllHoused(objects, b.drafts, b.members)
    modifies b
    ensures AllHoused(objects, b.drafts, b.members)
    ensures b.Valid() && b.anchors == AnchorKeys(objects, |objects|)
    ensures Progress(objects, b.drafts, b.members, AnchorKeys(objects, |objects|), links, authors, stage + 1, 0)
  {
    ghost var anchors := AnchorKeys(objects, |objects|);
    for i := 0 to |objects|
      invariant b.Valid() && AllHoused(objects, b.drafts, b.members)
      invariant Progress(objects, b.drafts, b.members, anchors, links, authors, stage, i)
      invariant b.anchors == if stage == 1 then AnchorKeys(objects, i) else anchors
      invariant stage == 1 ==> forall e | 0 <= e < |b.drafts| :: b.drafts[e].scoId.Some?
    {
      AnchorKeysStep(objects, i);
      if StageOf(objects[i].kind) == stage {
        PlaceAt(b, objects, i, stage, basedOn, authors, links, anchors);
      }
    }
    StageDone(objects, b.drafts, b.members, anchors, links, authors, stage);
  }

  lemma StageDone(objects: seq<Object>, drafts: seq<Draft>, members: Members,
                  anchors: set<Key>, links: set<Id>, authors: set<Id>, stage: nat)
    requires Progress(objects, drafts, members, anchors, links, authors, stage, |objects|)
    ensures Progress(objects, drafts, members, anchors, links, authors, stage + 1, 0)
  {
  }

  // ----- The index as a whole

  function Frozen(drafts: seq<Draft>): (entries: seq<Entry>)
    ensures |entries| == |drafts|
    ensures forall d | 0 <= d < |drafts| :: entries[d] == Freeze(drafts[d])
  {
    seq(|drafts|, d requires 0 <= d < |drafts| => Freeze(drafts[d]))
  }

  /** Everything imported is in an entry, in a relation, or copied: in one of the three only. */
  ghost predicate Partitioned(objects: seq<Object>, entries: seq<Entry>, relations: seq<Relation>, copied: set<Id>) {
    && (forall o | o in objects ::
          && (InEntry(entries, o.id) || InRelation(relations, o.id) || o.id in copied)
          && !(InEntry(entries, o.id) && InRelation(relations, o.id))
          && !(o.id in copied && (InEntry(entries, o.id) || InRelation(relations, o.id))))
    && (forall i: nat, id | Holds(entries, i, id) :: exists o | o in objects :: o.id == id)
    && (forall id | id in copied :: exists o | o in objects :: o.id == id && !o.kind.Relationship?)
    && (forall r | r in relations :: exists o | o in objects :: o.id == r.id && o.kind.Relationship?)
  }

  /** A relation says what its relationship says, its ends routed to the entries that hold them. */
  ghost predicate Tells(objects: seq<Object>, entries: seq<Entry>, r: Relation, o: Object) {
    && o.kind.Relationship? && r.id == o.id && r.verb == o.kind.verb
    && r.source == o.kind.source && r.target == o.kind.target
    && Routed(objects, entries, r.source, r.sourceEntry) && Routed(objects, entries, r.target, r.targetEntry)
  }

  /** The entry an object's keys lead to. */
  ghost predicate Found(objects: seq<Object>, entries: seq<Entry>, o: Object, authors: set<Id>) {
    match o.kind
    case Observable(t) =>
      if Keyed(o) then Leads(entries, o.id, t, o.strong, o.weak, true) else !InEntry(entries, o.id)
    case StixIndicator(groups) =>
      && (forall g | g in groups :: Leads(entries, o.id, g.stixType, g.strong, g.weak, Observed(objects, g)))
      && (groups == [] ==> !InEntry(entries, o.id))
    case NamedSdo(t, _) =>
      if Carded(o, authors) then Leads(entries, o.id, t, o.strong, {}, false) else !InEntry(entries, o.id)
    case Relationship(verb, s, t) =>
      if InEntry(entries, o.id) then verb == "based-on" && Together(entries, o.id, s) && Together(entries, o.id, t)
      else verb == "based-on" && Together(entries, s, t) ==> s == t || IsLink(objects, s) || IsLink(objects, t)
    case Passed => !InEntry(entries, o.id)
  }

  /** An observable of the baseline states one of the pattern's keys. */
  ghost predicate Observed(objects: seq<Object>, g: Group) {
    exists p | p in objects :: p.kind.Observable? && Keyed(p) && p.strong * g.strong != {}
  }

  ghost predicate Together(entries: seq<Entry>, a: Id, b: Id) {
    exists i: nat :: Holds(entries, i, a) && Holds(entries, i, b)
  }

  ghost predicate IsLink(objects: seq<Object>, id: Id) {
    exists o | o in objects :: o.kind.Relationship? && o.id == id
  }

  /** An entry of the type holds the object (and an observable, if `observed`) and carries
      its keys; every key of the entry may find it. */
  ghost predicate Leads(entries: seq<Entry>, id: Id, stixType: string, strong: set<Key>, weak: set<Key>, observed: bool) {
    exists i: nat ::
      && Holds(entries, i, id) && entries[i].stixType == stixType && (observed ==> entries[i].scoId.Some?)
      && strong <= entries[i].keys && weak <= entries[i].weakKeys
      && forall k | k in entries[i].keys :: KeyFits(k, stixType)
  }

  /** Steps 1 to 4. */
  method RunStages(b: IndexBuilder, objects: seq<Object>, basedOn: map<Id, seq<Id>>, authors: set<Id>,
                   ghost links: set<Id>)
    requires b.Valid() && Imported(objects) && b.drafts == [] && b.members == map[] && b.anchors == {}
    requires links == set o | o in objects && o.kind.Relationship? :: o.id
    modifies b
    ensures b.Valid() && AllHoused(objects, b.drafts, b.members)
    ensures Progress(objects, b.drafts, b.members, AnchorKeys(objects, |objects|), links, authors, 5, 0)
  {
    RunStage(b, objects, 1, basedOn, authors, links);
    RunStage(b, objects, 2, basedOn, authors, links);
    RunStage(b, objects, 3, basedOn, authors, links);
    RunStage(b, objects, 4, basedOn, authors, links);
  }

  method BuildIndex(objects: seq<Object>) returns (entries: seq<Entry>, relations: seq<Relation>, copied: set<Id>,
                                                   ghost authors: set<Id>)
    requires Imported(objects)
    ensures DistinctEntries(entries)
    ensures Partitioned(objects, entries, relations, copied)
    ensures forall r | r in relations :: Told(entries, objects, r)
    ensures forall j, k | 0 <= j < k < |relations| :: relations[j].id != relations[k].id
    ensures forall o | o in objects :: Single(entries, o)
    ensures authors == set o | o in objects && o.author.Some? :: o.author.value
    ensures forall o | o in objects :: Found(objects, entries, o, authors)
  {
    var b := new IndexBuilder();
    ghost var links := set o | o in objects && o.kind.Relationship? :: o.id;
    var basedOn := BasedOns(objects);
    var authorIds := set o | o in objects && o.author.Some? :: o.author.value;
    authors := authorIds;
    RunStages(b, objects, basedOn, authorIds, links);
    entries := Frozen(b.drafts);
    relations := Relations(objects, b.drafts, b.members);
    var taken := b.members.Keys + set r | r in relations :: r.id;
    copied := set o | o in objects && o.id !in taken :: o.id;
    AllSingle(objects, b.drafts, b.members);
    FrozenDistinct(objects, b.drafts, b.members);
    AllFound(objects, b.drafts, b.members, links, authors);
    AllParted(objects, b.drafts, b.members, relations, copied);
  }

  lemma AllFound(objects: seq<Object>, drafts: seq<Draft>, members: Members, links: set<Id>, authors: set<Id>)
    requires Agree(drafts, members) && forall d | 0 <= d < |drafts| :: WellMade(drafts[d])
    requires Progress(objects, drafts, members, AnchorKeys(objects, |objects|), links, authors, 5, 0)
    requires links == set p | p in objects && p.kind.Relationship? :: p.id
    ensures forall o | o in objects :: Found(objects, Frozen(drafts), o, authors)
  {
    forall o | o in objects
      ensures Found(objects, Frozen(drafts), o, authors)
    {
      var j :| 0 <= j < |objects| && objects[j] == o;
      SettledIsFound(objects, drafts, members, AnchorKeys(objects, |objects|), links, authors, Frozen(drafts), o);
    }
  }

  lemma AllParted(objects: seq<Object>, drafts: seq<Draft>, members: Members, relations: seq<Relation>, copied: set<Id>)
    requires Agree(drafts, members) && Imported(objects)
    requires forall id | id in members :: exists o | o in objects :: o.id == id
    requires forall id :: InRelation(relations, id) <==> Unplaced(objects, |objects|, members, id)
    requires copied == set o | o in objects && o.id !in members && !InRelation(relations, o.id) :: o.id
    ensures Partitioned(objects, Frozen(drafts), relations, copied)
  {
    FrozenMembers(drafts, members, Frozen(drafts));
    forall i: nat, id | Holds(Frozen(drafts), i, id)
      ensures exists o | o in objects :: o.id == id
    {
      assert InEntry(Frozen(drafts), id);
    }
    forall id | id in copied
      ensures exists o | o in objects :: o.id == id && !o.kind.Relationship?
    {
      var o :| o in objects && o.id == id && o.id !in members && !InRelation(relations, o.id);
      var j :| 0 <= j < |objects| && objects[j] == o;
      assert !Unplaced(objects, |objects|, members, id);
    }
    forall r | r in relations
      ensures exists o | o in objects :: o.id == r.id && o.kind.Relationship?
    {
      assert InRelation(relations, r.id);
    }
  }

  /** A relationship among the first `n` objects that no entry holds. */
  ghost predicate Unplaced(objects: seq<Object>, n: nat, members: Members, id: Id) {
    exists j: nat | j < n && j < |objects| :: objects[j].id == id && objects[j].kind.Relationship? && id !in members
  }

  ghost predicate Told(entries: seq<Entry>, objects: seq<Object>, r: Relation) {
    exists o | o in objects :: Tells(objects, entries, r, o)
  }

  /** Step 5: the relationships no entry holds, their ends routed. */
  method Relations(objects: seq<Object>, drafts: seq<Draft>, members: Members) returns (relations: seq<Relation>)
    requires Agree(drafts, members) && AllHoused(objects, drafts, members) && Imported(objects)
    ensures forall id :: InRelation(relations, id) <==> Unplaced(objects, |objects|, members, id)
    ensures forall r | r in relations :: Told(Frozen(drafts), objects, r)
    ensures forall j, k | 0 <= j < k < |relations| :: relations[j].id != relations[k].id
  {
    relations := [];
    for i := 0 to |objects|
      invariant forall id :: InRelation(relations, id) <==> Unplaced(objects, i, members, id)
      invariant forall r | r in relations :: Told(Frozen(drafts), objects, r)
      invariant forall j, k | 0 <= j < k < |relations| :: relations[j].id != relations[k].id
    {
      var o := objects[i];
      UnplacedStep(objects, i, members);
      if o.kind.Relationship? && o.id !in members {
        var r := Relation(o.id, o.kind.verb, o.kind.source, o.kind.target,
                          Route(drafts, members, o.kind.source), Route(drafts, members, o.kind.target));
        RouteIsRouted(objects, drafts, members, o.kind.source);
        RouteIsRouted(objects, drafts, members, o.kind.target);
        assert Told(Frozen(drafts), objects, r) by {
          assert o in objects && Tells(objects, Frozen(drafts), r, o);
        }
        OneMore(relations, r);
        NotYet(objects, i, members, relations);
        relations := relations + [r];
      }
    }
  }

  lemma UnplacedStep(objects: seq<Object>, i: nat, members: Members)
    requires i < |objects|
    ensures forall id :: Unplaced(objects, i + 1, members, id) <==>
              Unplaced(objects, i, members, id)
              || (objects[i].id == id && objects[i].kind.Relationship? && id !in members)
  {
  }

  /** No object before this one has its id. */
  lemma NotYet(objects: seq<Object>, i: nat, members: Members, relations: seq<Relation>)
    requires Imported(objects) && i < |objects|
    requires forall id :: InRelation(relations, id) <==> Unplaced(objects, i, members, id)
    ensures forall k | 0 <= k < |relations| :: relations[k].id != objects[i].id
  {
    forall k | 0 <= k < |relations|
      ensures relations[k].id != objects[i].id
    {
      assert InRelation(relations, relations[k].id);
    }
  }

  lemma OneMore(relations: seq<Relation>, r: Relation)
    ensures forall id :: InRelation(relations + [r], id) <==> InRelation(relations, id) || r.id == id
    ensures forall x :: x in relations + [r] <==> x in relations || x == r
  {
    assert forall x :: x in relations + [r] <==> x in relations || x == r;
  }

  function Route(drafts: seq<Draft>, members: Members, end: Id): Option<Id>
    requires Agree(drafts, members)
  {
    if end in members then
      assert Member(members, end, members[end][0]);
      assert Has(drafts, members[end][0], end);
      Some(EntryId(drafts[members[end][0]].root, drafts[members[end][0]].suffix))
    else None
  }

  lemma RouteIsRouted(objects: seq<Object>, drafts: seq<Draft>, members: Members, end: Id)
    requires Agree(drafts, members) && AllHoused(objects, drafts, members)
    ensures Routed(objects, Frozen(drafts), end, Route(drafts, members, end))
  {
    FrozenMembers(drafts, members, Frozen(drafts));
    if end in members {
      var d := members[end][0];
      assert Member(members, end, d);
      assert Has(drafts, d, end);
      forall o | o in objects && o.id == end && o.kind.StixIndicator?
        ensures o.kind.groups != [] && Frozen(drafts)[d].stixType == o.kind.groups[0].stixType
      {
        assert Housed(drafts, members, o);
      }
      assert Holds(Frozen(drafts), d, end);
    }
  }

  /** Each object is in one entry of each type at most, and in one at all if it is no Indicator. */
  ghost predicate Single(entries: seq<Entry>, o: Object) {
    forall i: nat, j: nat | Holds(entries, i, o.id) && Holds(entries, j, o.id) ::
      i == j || (o.kind.StixIndicator? && entries[i].stixType != entries[j].stixType)
  }

  lemma OneHome(drafts: seq<Draft>, members: Members, o: Object, i: nat, j: nat)
    requires WellTyped(o) && o.id in members && Housed(drafts, members, o) && i < |drafts| && j < |drafts|
    requires i in members[o.id] && j in members[o.id]
    ensures i == j || (o.kind.StixIndicator? && drafts[i].stixType != drafts[j].stixType)
  {
    var k :| 0 <= k < |members[o.id]| && members[o.id][k] == i;
    var m :| 0 <= m < |members[o.id]| && members[o.id][m] == j;
  }

  lemma HousedIsSingle(drafts: seq<Draft>, members: Members, o: Object)
    requires Agree(drafts, members) && WellTyped(o) && (o.id in members ==> Housed(drafts, members, o))
    ensures Single(Frozen(drafts), o)
  {
    FrozenMembers(drafts, members, Frozen(drafts));
    forall i: nat, j: nat | Holds(Frozen(drafts), i, o.id) && Holds(Frozen(drafts), j, o.id)
      ensures i == j || (o.kind.StixIndicator? && Frozen(drafts)[i].stixType != Frozen(drafts)[j].stixType)
    {
      assert Has(drafts, i, o.id) && Has(drafts, j, o.id);
      assert Member(members, o.id, i) && Member(members, o.id, j);
      OneHome(drafts, members, o, i, j);
    }
  }

  lemma AllSingle(objects: seq<Object>, drafts: seq<Draft>, members: Members)
    requires Imported(objects) && Agree(drafts, members) && AllHoused(objects, drafts, members)
    ensures forall o | o in objects :: Single(Frozen(drafts), o)
  {
    forall o | o in objects
      ensures Single(Frozen(drafts), o)
    {
      HousedIsSingle(drafts, members, o);
    }
  }

  lemma FrozenMembers(drafts: seq<Draft>, members: Members, entries: seq<Entry>)
    requires Agree(drafts, members) && entries == Frozen(drafts)
    ensures forall i: nat, id :: Holds(entries, i, id) <==> Has(drafts, i, id)
    ensures forall id :: InEntry(entries, id) <==> id in members
  {
    forall id
      ensures InEntry(entries, id) <==> id in members
    {
      if id in members {
        var d := members[id][0];
        assert Member(members, id, d);
        assert Has(drafts, d, id);
        assert Holds(entries, d, id);
      }
      if InEntry(entries, id) {
        var i: nat :| Holds(entries, i, id);
        assert Has(drafts, i, id);
        assert Member(members, id, i);
      }
    }
  }

  /** No id holds a '#', so no two entries are named alike. */
  lemma FrozenDistinct(objects: seq<Object>, drafts: seq<Draft>, members: Members)
    requires Imported(objects) && Agree(drafts, members) && DistinctNames(drafts)
    requires forall d | 0 <= d < |drafts| :: WellMade(drafts[d])
    requires forall id | id in members :: exists o | o in objects :: o.id == id
    ensures DistinctEntries(Frozen(drafts))
  {
    forall d, e | 0 <= d < e < |drafts|
      ensures Frozen(drafts)[d].entryId != Frozen(drafts)[e].entryId
    {
      PlainRoot(objects, drafts, members, d);
      PlainRoot(objects, drafts, members, e);
      EntryIdsDiffer(drafts[d].root, drafts[d].suffix, drafts[e].root, drafts[e].suffix);
    }
  }

  lemma PlainRoot(objects: seq<Object>, drafts: seq<Draft>, members: Members, d: nat)
    requires Imported(objects) && Agree(drafts, members) && d < |drafts| && WellMade(drafts[d])
    requires forall id | id in members :: exists o | o in objects :: o.id == id
    ensures '#' !in drafts[d].root.text
  {
    assert Has(drafts, d, drafts[d].root);
    assert Member(members, drafts[d].root, d);
  }

  /** What stands before the first '#'. */
  function RootOf(text: string): string {
    if text == "" || text[0] == '#' then "" else [text[0]] + RootOf(text[1..])
  }

  lemma {:induction false} RootOfName(root: string, rest: string)
    requires '#' !in root && (rest == "" || rest[0] == '#')
    ensures RootOf(root + rest) == root
  {
    if root == "" {
      assert root + rest == rest;
    } else {
      assert (root + rest)[1..] == root[1..] + rest;
      RootOfName(root[1..], rest);
    }
  }

  lemma EntryIdsDiffer(r: Id, s: Option<string>, r': Id, s': Option<string>)
    requires '#' !in r.text && '#' !in r'.text && (r != r' || s != s')
    ensures EntryId(r, s) != EntryId(r', s')
  {
    var tail, tail' := if s.None? then "" else "#" + s.value, if s'.None? then "" else "#" + s'.value;
    assert EntryId(r, s).text == r.text + tail && EntryId(r', s').text == r'.text + tail';
    RootOfName(r.text, tail);
    RootOfName(r'.text, tail');
    assert (r.text + tail)[|r.text|..] == tail && (r'.text + tail')[|r'.text|..] == tail';
    assert s.Some? ==> tail[1..] == s.value;
    assert s'.Some? ==> tail'[1..] == s'.value;
  }

  lemma SettledIsFound(objects: seq<Object>, drafts: seq<Draft>, members: Members, anchors: set<Key>, links: set<Id>,
                       authors: set<Id>, entries: seq<Entry>, o: Object)
    requires o in objects && Agree(drafts, members) && entries == Frozen(drafts)
    requires forall d | 0 <= d < |drafts| :: WellMade(drafts[d])
    requires anchors == AnchorKeys(objects, |objects|)
    requires links == set p | p in objects && p.kind.Relationship? :: p.id
    requires if StageOf(o.kind) < 5 then Settled(drafts, members, anchors, links, authors, o) else o.id !in members
    ensures Found(objects, entries, o, authors)
  {
    FrozenMembers(drafts, members, entries);
    match o.kind
    case Observable(t) =>
      if Keyed(o) { OwnEntryLeads(drafts, entries, o); }
    case StixIndicator(groups) =>
      forall g | g in groups
        ensures Leads(entries, o.id, g.stixType, g.strong, g.weak, Observed(objects, g))
      {
        GroupHomeLeads(objects, drafts, entries, o.id, g);
      }
    case NamedSdo(t, _) =>
      if Carded(o, authors) { OwnEntryLeads(drafts, entries, o); }
    case Relationship(verb, s, t) =>
      if o.id in members {
        var d: nat :| Has(drafts, d, o.id) && Has(drafts, d, s) && Has(drafts, d, t);
        assert Holds(entries, d, o.id) && Holds(entries, d, s) && Holds(entries, d, t);
      } else if verb == "based-on" && Together(entries, s, t) {
        var i: nat :| Holds(entries, i, s) && Holds(entries, i, t);
        assert Has(drafts, i, s) && Has(drafts, i, t);
      }
    case Passed =>
  }

  lemma OwnEntryLeads(drafts: seq<Draft>, entries: seq<Entry>, o: Object)
    requires entries == Frozen(drafts) && (o.kind.Observable? || o.kind.NamedSdo?) && OwnEntry(drafts, o)
    requires forall d | 0 <= d < |drafts| :: WellMade(drafts[d])
    ensures Leads(entries, o.id, o.kind.stixType, o.strong, if o.kind.Observable? then o.weak else {}, o.kind.Observable?)
  {
    var d: nat :|
      && Has(drafts, d, o.id) && drafts[d].root == o.id && drafts[d].suffix.None?
      && drafts[d].stixType == o.kind.stixType && o.strong <= drafts[d].keys
      && (o.kind.Observable? ==> drafts[d].scoId == Some(o.id) && o.weak <= drafts[d].weakKeys);
    assert WellMade(drafts[d]);
    assert Holds(entries, d, o.id);
  }

  lemma GroupHomeLeads(objects: seq<Object>, drafts: seq<Draft>, entries: seq<Entry>, id: Id, g: Group)
    requires entries == Frozen(drafts) && GroupHome(drafts, id, g, AnchorKeys(objects, |objects|))
    requires forall d | 0 <= d < |drafts| :: WellMade(drafts[d])
    ensures Leads(entries, id, g.stixType, g.strong, g.weak, Observed(objects, g))
  {
    var anchors := AnchorKeys(objects, |objects|);
    var d: nat :| Has(drafts, d, id) && HoldsGroup(drafts, d, g, g.strong * anchors != {});
    assert WellMade(drafts[d]);
    assert Holds(entries, d, id);
    if Observed(objects, g) {
      var p :| p in objects && p.kind.Observable? && Keyed(p) && p.strong * g.strong != {};
      var j :| 0 <= j < |objects| && objects[j] == p;
      var k :| k in p.strong * g.strong;
      assert k in anchors;
      assert k in g.strong * anchors;
    }
  }

  ghost predicate Names(basedOn: map<Id, seq<Id>>, s: Id, t: Id) {
    s in basedOn && t in basedOn[s]
  }

  /** A based-on relationship among the first `n` objects goes from `s` to `t`. */
  ghost predicate BasedOn(objects: seq<Object>, n: nat, s: Id, t: Id) {
    exists j: nat | j < n && j < |objects| :: objects[j].kind.Relationship? && objects[j].kind.verb == "based-on"
                                              && objects[j].kind.source == s && objects[j].kind.target == t
  }

  function WithBasedOn(basedOn: map<Id, seq<Id>>, k: Kind): map<Id, seq<Id>> {
    if k.Relationship? && k.verb == "based-on"
    then basedOn[k.source := (if k.source in basedOn then basedOn[k.source] else []) + [k.target]]
    else basedOn
  }

  method BasedOns(objects: seq<Object>) returns (basedOn: map<Id, seq<Id>>)
    ensures forall s, t :: Names(basedOn, s, t) <==> BasedOn(objects, |objects|, s, t)
  {
    basedOn := map[];
    for i := 0 to |objects|
      invariant forall s, t :: Names(basedOn, s, t) <==> BasedOn(objects, i, s, t)
    {
      BasedOnStep(objects, i, basedOn);
      basedOn := WithBasedOn(basedOn, objects[i].kind);
    }
  }

  lemma BasedOnStep(objects: seq<Object>, i: nat, basedOn: map<Id, seq<Id>>)
    requires i < |objects|
    requires forall s, t :: Names(basedOn, s, t) <==> BasedOn(objects, i, s, t)
    ensures forall s, t :: Names(WithBasedOn(basedOn, objects[i].kind), s, t) <==> BasedOn(objects, i + 1, s, t)
  {
    var k := objects[i].kind;
    var longer := WithBasedOn(basedOn, k);
    forall s, t
      ensures Names(longer, s, t) <==> BasedOn(objects, i + 1, s, t)
    {
      var here := k.Relationship? && k.verb == "based-on" && k.source == s && k.target == t;
      assert BasedOn(objects, i + 1, s, t) <==> BasedOn(objects, i, s, t) || here;
      assert Names(longer, s, t) <==> Names(basedOn, s, t) || here;
    }
  }
}
