/**
 The baseline's entries and how a set of keys finds one (pipeline/baseline_stix.py:79-92,
 482-507, 574-657, 1220-1226).

 A key is opaque but for its kind, and for the type or family its kind carries.
 */
module BaselineIndex {
  import opened Common
  import opened References

  datatype Key =
    | IdKey(id: Id)
    | Obs(stixType: string, value: string)
    | Hash(algo: string, digest: string)
    | Mitre(technique: string)
    | Cve(cve: string)
    | Loc(place: string)
    | Named(family: string, name: string)
    | FileName(file: string)

  /** Two names match only within a family. */
  function Family(stixType: string): string {
    if stixType == "threat-actor" || stixType == "intrusion-set" then "actor"
    else if stixType == "malware" || stixType == "tool" then "software"
    else stixType
  }

  datatype Entry = Entry(
    entryId: Id, stixType: string, entityType: string, value: string,
    keys: set<Key>, weakKeys: set<Key>, scoId: Option<Id>,
    indicatorIds: seq<Id>, objectIds: seq<Id>, surfaceForms: seq<string>)

  ghost predicate DistinctEntries(entries: seq<Entry>) {
    forall i, j | 0 <= i < j < |entries| :: entries[i].entryId != entries[j].entryId
  }

  /** May an entry of `stixType` be found through `key`? */
  predicate KeyFits(key: Key, stixType: string) {
    match key
    case Obs(t, _) => t == stixType
    case Hash(_, _) => stixType == "file"
    case _ => true
  }

  /** Is `key` looked at for an object of `stixType`?  A weak key never is. */
  predicate Considered(key: Key, stixType: Option<string>) {
    match key
    case Named(family, _) => stixType.None? || family == Family(stixType.value)
    case FileName(_) => false
    case _ => true
  }

  datatype Answer = Nothing | One(entry: nat) | Ambiguous

  // ----- The plain scan the index stands for

  predicate Fits(e: Entry, keys: set<Key>, stixType: Option<string>) {
    exists k | k in keys :: Considered(k, stixType) && k in e.keys && KeyFits(k, e.stixType)
  }

  function Fitting(entries: seq<Entry>, keys: set<Key>, stixType: Option<string>): set<nat> {
    set i: nat | i < |entries| && Fits(entries[i], keys, stixType)
  }

  function Exact(entries: seq<Entry>, found: set<nat>, stixType: Option<string>): set<nat> {
    set i | i in found && i < |entries| && stixType == Some(entries[i].stixType)
  }

  /** The single fitting entry, else the single one of the exact type, else ambiguous. */
  ghost predicate Answers(entries: seq<Entry>, keys: set<Key>, stixType: Option<string>, a: Answer) {
    var found := Fitting(entries, keys, stixType);
    match a
    case Nothing => found == {}
    case One(i) => found == {i} || (i in found && Exact(entries, found, stixType) == {i})
    case Ambiguous => |found| > 1 && |Exact(entries, found, stixType)| != 1
  }

  /** The entries that carry one of some weak keys, by id. */
  function Carriers(entries: seq<Entry>, weak: set<Key>): set<nat> {
    set i: nat | i < |entries| && entries[i].weakKeys * weak != {}
  }

  /** The one carrier, when it holds a file object. */
  ghost predicate AnswersWeak(entries: seq<Entry>, weak: set<Key>, a: Answer) {
    match a
    case One(i) => Carriers(entries, weak) == {i} && i < |entries| && entries[i].scoId.Some?
    case Nothing => forall i: nat | i < |entries| && Carriers(entries, weak) == {i} :: entries[i].scoId.None?
    case Ambiguous => false
  }

  lemma SingletonSize<T>(s: set<T>, x: T)
    requires x in s && |s| == 1
    ensures s == {x}
  {
    assert |s - {x}| == 0;
  }

  /** There is one answer: the iteration orders of the key set and of the entries cannot show. */
  lemma OneAnswer(entries: seq<Entry>, keys: set<Key>, stixType: Option<string>, a: Answer, b: Answer)
    requires Answers(entries, keys, stixType, a) && Answers(entries, keys, stixType, b)
    ensures a == b
  {
    var found := Fitting(entries, keys, stixType);
    var exact := Exact(entries, found, stixType);
    assert exact <= found;
    if a.One? && b.One? {
      assert a.entry in found && b.entry in found;
    }
  }

  /** A narrowed object type never turns a found entry into another one: without a type,
      the entry of a lone fit is the entry found with the type when that fits it at all. */
  lemma TypeOnlyNarrows(entries: seq<Entry>, keys: set<Key>, stixType: string, a: Answer, b: Answer)
    requires Answers(entries, keys, None, a) && a.One?
    requires Answers(entries, keys, Some(stixType), b)
    ensures b == a || b == Nothing
  {
    var wide, narrow := Fitting(entries, keys, None), Fitting(entries, keys, Some(stixType));
    assert Exact(entries, wide, None) == {};
    assert narrow <= wide by {
      forall i: nat | i in narrow
        ensures i in wide
      {
        var k :| k in keys && Considered(k, Some(stixType)) && k in entries[i].keys && KeyFits(k, entries[i].stixType);
        assert Considered(k, None);
      }
    }
    assert Exact(entries, narrow, Some(stixType)) <= narrow;
    if b.Ambiguous? {
      SubsetOfOne(narrow, a.entry);
    }
  }

  lemma SubsetOfOne(s: set<nat>, x: nat)
    requires s <= {x}
    ensures |s| <= 1
  {
    if s != {} {
      assert s == {x};
    }
  }

  // ----- The index

  type KeyMap = map<Key, seq<nat>>

  ghost predicate Posted(m: KeyMap, k: Key, i: nat) {
    k in m && i in m[k]
  }

  /** The entries of the first `n` that `k` may find. */
  ghost predicate Finds(entries: seq<Entry>, n: nat, k: Key, i: nat) {
    i < n && i < |entries| && k in entries[i].keys && KeyFits(k, entries[i].stixType)
  }

  ghost predicate Carries(entries: seq<Entry>, n: nat, k: Key, i: nat) {
    i < n && i < |entries| && k in entries[i].weakKeys
  }

  lemma PostedOnce(m: KeyMap, k: Key, i: nat, longer: KeyMap)
    requires longer == m[k := (if k in m then m[k] else []) + [i]]
    ensures forall k', j :: Posted(longer, k', j) <==> Posted(m, k', j) || (k' == k && j == i)
  {
    var posted := if k in m then m[k] else [];
    forall k', j: nat
      ensures Posted(longer, k', j) <==> Posted(m, k', j) || (k' == k && j == i)
    {
      if k' == k {
        assert longer[k'] == posted + [i];
        assert j in posted + [i] <==> j in posted || j == i;
      } else if k' in m {
        assert longer[k'] == m[k'];
      }
    }
  }

  method Post(before: KeyMap, keys: set<Key>, i: nat) returns (m: KeyMap)
    ensures forall k, j :: Posted(m, k, j) <==> Posted(before, k, j) || (j == i && k in keys)
  {
    m := before;
    var rest := keys;
    ghost var done: set<Key> := {};
    while rest != {}
      invariant done + rest == keys
      invariant forall k, j :: Posted(m, k, j) <==> Posted(before, k, j) || (j == i && k in done)
      decreases rest
    {
      var k :| k in rest;
      var longer := m[k := (if k in m then m[k] else []) + [i]];
      PostedOnce(m, k, i, longer);
      rest, done, m := rest - {k}, done + {k}, longer;
    }
  }

  class Index {
    const entries: seq<Entry>
    var byKey: Option<KeyMap>
    var byWeak: Option<KeyMap>

    ghost predicate Valid()
      reads this
    {
      && DistinctEntries(entries)
      && (byKey.Some? ==> forall k, i :: Posted(byKey.value, k, i) <==> Finds(entries, |entries|, k, i))
      && (byWeak.Some? ==> forall k, i :: Posted(byWeak.value, k, i) <==> Carries(entries, |entries|, k, i))
    }

    constructor (entries: seq<Entry>)
      requires DistinctEntries(entries)
      ensures Valid() && this.entries == entries
    {
      this.entries := entries;
      byKey, byWeak := None, None;
    }

    /** The entry `keys` designate.  The first call fills the cache; no later one sees the difference. */
    method Lookup(keys: set<Key>, stixType: Option<string>) returns (a: Answer)
      requires Valid()
      modifies this`byKey
      ensures Valid()
      ensures Answers(entries, keys, stixType, a)
    {
      if byKey.None? {
        var m: KeyMap := map[];
        for i := 0 to |entries|
          invariant forall k, j :: Posted(m, k, j) <==> Finds(entries, i, k, j)
        {
          m := Post(m, (set k | k in entries[i].keys && KeyFits(k, entries[i].stixType)), i);
        }
        byKey := Some(m);
      }
      a := Resolve(keys, stixType, byKey.value);
    }

    method Resolve(keys: set<Key>, stixType: Option<string>, m: KeyMap) returns (a: Answer)
      requires forall k, i :: Posted(m, k, i) <==> Finds(entries, |entries|, k, i)
      ensures Answers(entries, keys, stixType, a)
    {
      var found: set<nat> := {};
      var rest := keys;
      while rest != {}
        invariant rest <= keys
        invariant forall i: nat :: i in found <==>
            exists k :: k in keys && k !in rest && Considered(k, stixType) && Finds(entries, |entries|, k, i)
      {
        var k :| k in rest;
        rest := rest - {k};
        if Considered(k, stixType) && k in m {
          ghost var before := found;
          found := found + (set i | i in m[k]);
          assert forall i: nat :: i in found <==> i in before || Finds(entries, |entries|, k, i) by {
            assert forall i: nat :: i in m[k] <==> Posted(m, k, i);
          }
        } else {
          assert forall i: nat :: !(Considered(k, stixType) && Posted(m, k, i));
        }
      }
      assert found == Fitting(entries, keys, stixType) by {
        forall i: nat
          ensures i in found <==> i in Fitting(entries, keys, stixType)
        {
          if i < |entries| && Fits(entries[i], keys, stixType) {
            var k :| k in keys && Considered(k, stixType) && k in entries[i].keys
                     && KeyFits(k, entries[i].stixType);
            assert Finds(entries, |entries|, k, i);
          }
        }
      }
      if found == {} {
        return Nothing;
      }
      if |found| == 1 {
        var i :| i in found;
        SingletonSize(found, i);
        return One(i);
      }
      var exact := Exact(entries, found, stixType);
      if |exact| == 1 {
        var i :| i in exact;
        SingletonSize(exact, i);
        return One(i);
      }
      return Ambiguous;
    }

    /** The one baseline file a file name designates. */
    method LookupWeak(weak: set<Key>) returns (a: Answer)
      requires Valid()
      modifies this`byWeak
      ensures Valid()
      ensures AnswersWeak(entries, weak, a)
    {
      if byWeak.None? {
        var m: KeyMap := map[];
        for i := 0 to |entries|
          invariant forall k, j :: Posted(m, k, j) <==> Carries(entries, i, k, j)
        {
          m := Post(m, entries[i].weakKeys, i);
        }
        byWeak := Some(m);
      }
      var found: map<Id, nat> := map[];
      var rest := weak;
      while rest != {}
        invariant rest <= weak && byWeak.Some? && Valid()
        invariant forall e | e in found :: found[e] < |entries| && entries[found[e]].entryId == e
        invariant forall i: nat | i < |entries| ::
            entries[i].entryId in found <==> exists k :: k in weak && k !in rest && Carries(entries, |entries|, k, i)
      {
        var k :| k in rest;
        rest := rest - {k};
        found := AddCarriers(found, k);
      }
      CarriersById(found, weak);
      if |found| != 1 {
        return Nothing;
      }
      var e :| e in found;
      SingletonSize(found.Keys, e);
      return if entries[found[e]].scoId.Some? then One(found[e]) else Nothing;
    }

    method AddCarriers(before: map<Id, nat>, k: Key) returns (found: map<Id, nat>)
      requires Valid() && byWeak.Some?
      requires forall e | e in before :: before[e] < |entries| && entries[before[e]].entryId == e
      ensures forall e | e in found :: found[e] < |entries| && entries[found[e]].entryId == e
      ensures forall i: nat | i < |entries| ::
                entries[i].entryId in found <==> entries[i].entryId in before || Carries(entries, |entries|, k, i)
    {
      found := before;
      var posted := if k in byWeak.value then byWeak.value[k] else [];
      assert forall i: nat :: i in posted <==> Posted(byWeak.value, k, i);
      for n := 0 to |posted|
        invariant forall e | e in found :: found[e] < |entries| && entries[found[e]].entryId == e
        invariant forall i: nat | i < |entries| ::
            entries[i].entryId in found <==> entries[i].entryId in before || i in posted[..n]
      {
        assert posted[n] in posted;
        assert Carries(entries, |entries|, k, posted[n]);
        assert posted[..n + 1] == posted[..n] + [posted[n]];
        found := found[entries[posted[n]].entryId := posted[n]];
      }
      assert posted[..|posted|] == posted;
    }

    lemma CarriersById(found: map<Id, nat>, weak: set<Key>)
      requires DistinctEntries(entries)
      requires forall e | e in found :: found[e] < |entries| && entries[found[e]].entryId == e
      requires forall i: nat | i < |entries| ::
                 entries[i].entryId in found <==> exists k :: k in weak && Carries(entries, |entries|, k, i)
      ensures forall e | e in found :: found[e] in Carriers(entries, weak)
      ensures forall i | i in Carriers(entries, weak) :: entries[i].entryId in found && found[entries[i].entryId] == i
      ensures |found| == |Carriers(entries, weak)|
    {
      forall i: nat | i < |entries|
        ensures i in Carriers(entries, weak) <==> entries[i].entryId in found
      {
        if i in Carriers(entries, weak) {
          var k :| k in entries[i].weakKeys * weak;
          assert Carries(entries, |entries|, k, i);
        }
        if entries[i].entryId in found {
          var k :| k in weak && Carries(entries, |entries|, k, i);
          assert k in entries[i].weakKeys * weak;
        }
      }
      forall i | i in Carriers(entries, weak)
        ensures found[entries[i].entryId] == i
      {
        var j := found[entries[i].entryId];
        assert entries[j].entryId == entries[i].entryId;
      }
      SameSize(found.Keys, Carriers(entries, weak), (e: Id) requires e in found => found[e]);
    }
  }

  lemma {:induction false} SameSize(ids: set<Id>, indices: set<nat>, f: Id --> nat)
    requires forall e | e in ids :: f.requires(e) && f(e) in indices
    requires forall e, e' | e in ids && e' in ids && e != e' :: f(e) != f(e')
    requires forall i | i in indices :: exists e :: e in ids && f(e) == i
    ensures |ids| == |indices|
  {
    if ids == {} {
      assert indices == {};
    } else {
      var e :| e in ids;
      forall i | i in indices - {f(e)}
        ensures exists e' :: e' in ids - {e} && f(e') == i
      {
        var e' :| e' in ids && f(e') == i;
        assert e' in ids - {e};
      }
      SameSize(ids - {e}, indices - {f(e)}, f);
    }
  }
}
