/**
 Matching a run's extractions to the baseline (pipeline/baseline_stix.py:1494-1499, 1565-1711).

 A row is known by its type, its folded value and its keys; `entity_type` to STIX type, folding,
 lower-casing and the alphanumeric characters are library calls or tables.
 */
module Reconcile {
  import opened Common
  import opened References
  import opened BaselineIndex
  import opened EvidenceSpan
  import IndexBuild

  type Relation = IndexBuild.Relation

  datatype RowKey = RowKey(entityType: string, folded: string)

  datatype Row = Row(key: RowKey, stixType: Option<string>, strong: set<Key>, weak: set<Key>)

  datatype RelKey = RelKey(source: string, verb: string, target: string)

  datatype Standing = New | Matched(id: Id)

  datatype Imported = Imported(id: Id, place: Option<(nat, nat)>)

  datatype ImportedRelation = ImportedRelation(id: Id, verb: string, source: string, target: string, inText: bool)

  // ----- The first place a form stands as a word

  predicate WordChar(isAlnum: char -> bool, c: char) {
    isAlnum(c) || c == '_'
  }

  predicate WholeWordAt(low: string, isAlnum: char -> bool, form: string, p: nat) {
    && OccursAt(low, form, p)
    && (p > 0 ==> !WordChar(isAlnum, low[p - 1]))
    && (p + |form| < |low| ==> !WordChar(isAlnum, low[p + |form|]))
  }

  ghost predicate NoneBefore(low: string, isAlnum: char -> bool, forms: seq<string>, p: nat) {
    forall form, q | form in forms && 0 <= q < p :: !WholeWordAt(low, isAlnum, form, q)
  }

  /** The earliest place where one of the forms stands as a whole word. */
  ghost predicate Earliest(low: string, isAlnum: char -> bool, forms: seq<string>, place: Option<(nat, nat)>) {
    match place
    case None => NoneBefore(low, isAlnum, forms, |low| + 1)
    case Some((start, end)) =>
      NoneBefore(low, isAlnum, forms, start)
      && exists form | form in forms :: WholeWordAt(low, isAlnum, form, start) && end == start + |form|
  }

  method FirstWord(low: string, isAlnum: char -> bool, form: string) returns (p: Option<nat>)
    ensures p.None? ==> forall q | 0 <= q <= |low| :: !WholeWordAt(low, isAlnum, form, q)
    ensures p.Some? ==> WholeWordAt(low, isAlnum, form, p.value)
                        && forall q | 0 <= q < p.value :: !WholeWordAt(low, isAlnum, form, q)
  {
    var start := Find(low, form, 0);
    while start.Some?
      invariant start.Some? ==> OccursAt(low, form, start.value)
      invariant forall q | 0 <= q < (if start.Some? then start.value else |low| + 1) :: !WholeWordAt(low, isAlnum, form, q)
      decreases |low| + 1 - (if start.Some? then start.value else |low| + 1)
    {
      var at := start.value;
      var end := at + |form|;
      if !(at > 0 && WordChar(isAlnum, low[at - 1])) && !(end < |low| && WordChar(isAlnum, low[end])) {
        return Some(at);
      }
      start := if at + 1 <= |low| then Find(low, form, at + 1) else None;
    }
    return None;
  }

  method FirstOccurrence(low: string, isAlnum: char -> bool, forms: seq<string>) returns (best: Option<(nat, nat)>)
    ensures Earliest(low, isAlnum, forms, best)
  {
    best := None;
    for i := 0 to |forms|
      invariant Earliest(low, isAlnum, forms[..i], best)
    {
      var p := FirstWord(low, isAlnum, forms[i]);
      assert forall form :: form in forms[..i + 1] <==> form in forms[..i] || form == forms[i] by {
        assert forms[..i + 1] == forms[..i] + [forms[i]];
      }
      if p.Some? && (best.None? || p.value < best.value.0) {
        best := Some((p.value, p.value + |forms[i]|));
      }
    }
    assert forms[..|forms|] == forms;
  }

  // ----- Pass 1: the rows

  /** The entry a row resolves to: by its strong keys; when they lead nowhere, by its name alone. */
  ghost predicate ResolvesTo(entries: seq<Entry>, row: Row, e: Option<nat>) {
    exists a, w :: Looked(entries, row, a, w) && e == ChosenEntry(row, a, w)
  }

  ghost predicate Looked(entries: seq<Entry>, row: Row, a: Answer, w: Answer) {
    && (if row.strong == {} then a == Nothing else Answers(entries, row.strong, row.stixType, a))
    && AnswersWeak(entries, row.weak, w)
  }

  function ChosenEntry(row: Row, a: Answer, w: Answer): Option<nat> {
    if a.One? then Some(a.entry)
    else if a.Nothing? && row.weak != {} && w.One? then Some(w.entry)
    else None
  }

  lemma ResolvesOnce(entries: seq<Entry>, row: Row, e: Option<nat>, f: Option<nat>)
    requires ResolvesTo(entries, row, e) && ResolvesTo(entries, row, f)
    ensures e == f
  {
    var a, w :| Looked(entries, row, a, w) && e == ChosenEntry(row, a, w);
    var b, x :| Looked(entries, row, b, x) && f == ChosenEntry(row, b, x);
    if row.strong != {} {
      OneAnswer(entries, row.strong, row.stixType, a, b);
    }
    if w.One? && x.One? {
      assert w.entry in Carriers(entries, row.weak) && x.entry in Carriers(entries, row.weak);
    }
  }

  lemma ResolvedInRange(entries: seq<Entry>, row: Row, e: nat)
    requires ResolvesTo(entries, row, Some(e))
    ensures e < |entries|
  {
    var a, w :| Looked(entries, row, a, w) && Some(e) == ChosenEntry(row, a, w);
    if a.One? {
      assert e in Fitting(entries, row.strong, row.stixType);
    }
  }

  /** `res` tells what each row resolves to. */
  ghost predicate Resolutions(entries: seq<Entry>, rows: seq<Row>, res: seq<Option<nat>>) {
    |res| <= |rows| && forall i | 0 <= i < |res| :: ResolvesTo(entries, rows[i], res[i]) && (res[i].Some? ==> res[i].value < |entries|)
  }

  /** The status of a key when the first rows, as many as `res` tells, have been written. */
  function StatusOf(entries: seq<Entry>, rows: seq<Row>, res: seq<Option<nat>>, key: RowKey): Option<Standing>
    requires |res| <= |rows| && forall i | 0 <= i < |res| && res[i].Some? :: res[i].value < |entries|
  {
    if res == [] then None
    else
      var n := |res| - 1;
      var before := StatusOf(entries, rows, res[..n], key);
      if rows[n].key != key then before
      else if res[n].Some? then Some(Matched(entries[res[n].value].entryId))
      else if before.None? then Some(New) else before
  }

  function StatusIn<K(==)>(m: map<K, Standing>, k: K): Option<Standing> {
    if k in m then Some(m[k]) else None
  }

  /** The entries the rows reach, by id. */
  ghost function ReachedIds(entries: seq<Entry>, res: seq<Option<nat>>): set<Id> {
    set i | 0 <= i < |res| && res[i].Some? && res[i].value < |entries| :: entries[res[i].value].entryId
  }

  /** The folded value and the entry of each row matched. */
  function MatchedRows(entries: seq<Entry>, rows: seq<Row>, res: seq<Option<nat>>): seq<(string, Id)>
    requires |res| <= |rows| && forall i | 0 <= i < |res| && res[i].Some? :: res[i].value < |entries|
  {
    if res == [] then []
    else
      var n := |res| - 1;
      MatchedRows(entries, rows, res[..n])
      + if res[n].Some? then [(rows[n].key.folded, entries[res[n].value].entryId)] else []
  }

  class Reconciliation {
    var entityStatus: map<RowKey, Standing>
    var relationStatus: map<RelKey, Standing>
    var importedEntities: seq<Imported>
    var importedRelations: seq<ImportedRelation>

    constructor ()
      ensures entityStatus == map[] && relationStatus == map[] && importedEntities == [] && importedRelations == []
    {
      entityStatus, relationStatus, importedEntities, importedRelations := map[], map[], [], [];
    }

    /** Pass 1. */
    method MatchRows(index: Index, rows: seq<Row>)
      returns (found: set<Id>, matched: seq<(string, Id)>, ghost res: seq<Option<nat>>)
      requires index.Valid() && entityStatus == map[]
      modifies this`entityStatus, index
      ensures index.Valid()
      ensures |res| == |rows| && Resolutions(index.entries, rows, res)
      ensures forall key :: StatusIn(entityStatus, key) == StatusOf(index.entries, rows, res, key)
      ensures found == ReachedIds(index.entries, res) && matched == MatchedRows(index.entries, rows, res)
    {
      found, matched, res := {}, [], [];
      for n := 0 to |rows|
        invariant index.Valid() && |res| == n && Resolutions(index.entries, rows, res)
        invariant forall key :: StatusIn(entityStatus, key) == StatusOf(index.entries, rows, res, key)
        invariant found == ReachedIds(index.entries, res) && matched == MatchedRows(index.entries, rows, res)
      {
        var e := ResolveRow(index, rows[n]);
        var key := rows[n].key;
        RowStep(index.entries, rows, res, e);
        ReachedStep(index.entries, res, e);
        if e.Some? {
          var id := index.entries[e.value].entryId;
          entityStatus := entityStatus[key := Matched(id)];
          found, matched := found + {id}, matched + [(key.folded, id)];
        } else if key !in entityStatus {
          entityStatus := entityStatus[key := New];
        }
        res := res + [e];
      }
    }

    method ResolveRow(index: Index, row: Row) returns (e: Option<nat>)
      requires index.Valid()
      modifies index
      ensures index.Valid() && ResolvesTo(index.entries, row, e) && (e.Some? ==> e.value < |index.entries|)
    {
      var a := Nothing;
      if row.strong != {} {
        a := index.Lookup(row.strong, row.stixType);
      }
      var w := index.LookupWeak(row.weak);
      e := ChosenEntry(row, a, w);
      assert Looked(index.entries, row, a, w);
      if e.Some? {
        ResolvedInRange(index.entries, row, e.value);
      }
    }

    lemma RowStep(entries: seq<Entry>, rows: seq<Row>, res: seq<Option<nat>>, e: Option<nat>)
      requires |res| < |rows| && (forall i | 0 <= i < |res| && res[i].Some? :: res[i].value < |entries|)
      requires e.Some? ==> e.value < |entries|
      ensures forall i | 0 <= i < |res + [e]| && (res + [e])[i].Some? :: (res + [e])[i].value < |entries|
      ensures forall key :: StatusOf(entries, rows, res + [e], key) ==
                var before := StatusOf(entries, rows, res, key);
                if rows[|res|].key != key then before
                else if e.Some? then Some(Matched(entries[e.value].entryId))
                else if before.None? then Some(New) else before
      ensures MatchedRows(entries, rows, res + [e]) == MatchedRows(entries, rows, res)
                + if e.Some? then [(rows[|res|].key.folded, entries[e.value].entryId)] else []
    {
      assert (res + [e])[..|res|] == res;
    }

    lemma ReachedStep(entries: seq<Entry>, res: seq<Option<nat>>, e: Option<nat>)
      requires e.Some? ==> e.value < |entries|
      ensures ReachedIds(entries, res + [e])
              == ReachedIds(entries, res) + (if e.Some? then {entries[e.value].entryId} else {})
    {
      var after := res + [e];
      if e.Some? {
        assert after[|res|] == e;
      }
      forall i | 0 <= i < |res|
        ensures after[i] == res[i]
      {
      }
    }

    /** Pass 2: the entries no row reached, looked for in the text. */
    method ImportEntities(entries: seq<Entry>, reached: set<Id>, low: string, isAlnum: char -> bool)
      returns (found: set<Id>, ghost places: seq<Option<(nat, nat)>>)
      requires DistinctEntries(entries) && importedEntities == []
      modifies this`importedEntities
      ensures |places| == |entries|
      ensures forall i | 0 <= i < |entries| :: Earliest(low, isAlnum, entries[i].surfaceForms, places[i])
      ensures importedEntities == ImportedOf(entries, reached, places)
      ensures found == reached + InTextIds(entries, reached, places)
    {
      found, places := reached, [];
      for i := 0 to |entries|
        invariant |places| == i
        invariant forall j | 0 <= j < i :: Earliest(low, isAlnum, entries[j].surfaceForms, places[j])
        invariant importedEntities == ImportedOf(entries, reached, places)
        invariant found == reached + InTextIds(entries, reached, places)
      {
        var e := entries[i];
        var place := FirstOccurrence(low, isAlnum, e.surfaceForms);
        ImportStep(entries, reached, places, place);
        if e.entryId !in found {
          importedEntities := importedEntities + [Imported(e.entryId, place)];
          if place.Some? {
            found := found + {e.entryId};
          }
        }
        places := places + [place];
      }
    }

    /** Pass 3: the extracted relationships, their ends resolved to entries. */
    method MatchRelations(rows: seq<RelKey>, entries: seq<Entry>, relations: seq<Relation>, matched: seq<(string, Id)>,
                          fold: string -> string)
      returns (found: set<Id>, ghost res: seq<Option<nat>>)
      requires relationStatus == map[]
      modifies this`relationStatus
      ensures |res| == |rows| && AllSay(rows, entries, relations, matched, fold, res)
      ensures RelStatusIs(relationStatus, relations, rows, res)
      ensures found == SaidIds(relations, res)
    {
      var values := ValueEntries(matched);
      var forms := FormEntries(entries, fold);
      var byEnds := ByEnds(relations);
      found, res := {}, [];
      for n := 0 to |rows|
        invariant |res| == n && AllSay(rows, entries, relations, matched, fold, res)
        invariant RelStatusIs(relationStatus, relations, rows, res)
        invariant found == SaidIds(relations, res)
      {
        var m := MatchOne(rows[n], entries, relations, matched, fold, values, forms, byEnds);
        RelStep(relationStatus, relations, rows, res, m);
        SaidStep(relations, res, m);
        AllSayMore(rows, entries, relations, matched, fold, res, m);
        SetRelation(rows[n], if m.Some? then Some(relations[m.value].id) else None);
        found := found + if m.Some? then {relations[m.value].id} else {};
        res := res + [m];
      }
    }

    /** Never over a matched relationship of the same key. */
    method SetRelation(key: RelKey, id: Option<Id>)
      modifies this`relationStatus
      ensures relationStatus == Written(old(relationStatus), key, id)
    {
      if id.Some? {
        relationStatus := relationStatus[key := Matched(id.value)];
      } else if key !in relationStatus {
        relationStatus := relationStatus[key := New];
      }
    }

    method MatchOne(row: RelKey, ghost entries: seq<Entry>, relations: seq<Relation>, ghost matched: seq<(string, Id)>,
                    ghost fold: string -> string, values: map<string, Id>, forms: map<string, Id>, byEnds: map<Ends, nat>)
      returns (m: Option<nat>)
      requires forall v :: NamesSole(values, v, IdsNamed(matched, v)) && NamesSole(forms, v, Owners(entries, fold, v))
      requires forall e :: (if e in byEnds then Some(byEnds[e]) else None) == FirstWith(relations, |relations|, e)
      ensures Says(row, entries, relations, matched, fold, m) && (m.Some? ==> m.value < |relations|)
    {
      var s, t := EndpointOf(row.source, values, forms), EndpointOf(row.target, values, forms);
      m := if s.Some? && t.Some? && Ends(s.value, t.value, row.verb) in byEnds
           then Some(byEnds[Ends(s.value, t.value, row.verb)]) else None;
      assert Endpoint(entries, matched, fold, row.source, s) && Endpoint(entries, matched, fold, row.target, t);
      if s.Some? && t.Some? {
        FirstWithMeans(relations, |relations|, Ends(s.value, t.value, row.verb));
      }
    }

    /** Pass 4: the relations no extraction found, both ends known. */
    method ImportRelations(entries: seq<Entry>, relations: seq<Relation>, said: set<Id>, found: set<Id>)
      requires importedRelations == [] && DistinctEntries(entries) && RealEnds(entries, relations)
      modifies this`importedRelations
      ensures |importedRelations| == |Unsaid(relations, |relations|, said)|
      ensures forall k | 0 <= k < |importedRelations| ::
                Imports(entries, relations[Unsaid(relations, |relations|, said)[k]], found, importedRelations[k])
    {
      for i := 0 to |relations|
        invariant |importedRelations| == |Unsaid(relations, i, said)|
        invariant forall k | 0 <= k < |importedRelations| ::
            Imports(entries, relations[Unsaid(relations, i, said)[k]], found, importedRelations[k])
      {
        var base := relations[i];
        if base.id !in said && base.sourceEntry.Some? && base.targetEntry.Some? {
          var source := ValueOf(entries, base.sourceEntry.value);
          var target := ValueOf(entries, base.targetEntry.value);
          importedRelations := importedRelations
            + [ImportedRelation(base.id, base.verb, source, target,
                                base.sourceEntry.value in found && base.targetEntry.value in found)];
        }
      }
    }
  }

  // ----- The ends of a relationship

  /** The entries of the matched rows of this folded value. */
  function IdsNamed(matched: seq<(string, Id)>, folded: string): set<Id> {
    set i | 0 <= i < |matched| && matched[i].0 == folded :: matched[i].1
  }

  predicate HasForm(e: Entry, fold: string -> string, folded: string) {
    fold(e.value) == folded || exists i | 0 <= i < |e.surfaceForms| :: fold(e.surfaceForms[i]) == folded
  }

  /** The entries one of whose forms folds to this. */
  function Owners(entries: seq<Entry>, fold: string -> string, folded: string): set<Id> {
    set i | 0 <= i < |entries| && HasForm(entries[i], fold, folded) :: entries[i].entryId
  }

  /** The table names just the folded values that one entry has, each by that entry. */
  ghost predicate NamesSole(names: map<string, Id>, folded: string, ids: set<Id>) {
    if folded in names then ids == {names[folded]} else |ids| != 1
  }

  /** The entry an end resolves to: the one of the matched rows of that value, when they agree;
      else the one that has it among its forms, when there is one. */
  ghost predicate Endpoint(entries: seq<Entry>, matched: seq<(string, Id)>, fold: string -> string, folded: string,
                           e: Option<Id>)
  {
    if |IdsNamed(matched, folded)| == 1 then e.Some? && IdsNamed(matched, folded) == {e.value}
    else if e.Some? then Owners(entries, fold, folded) == {e.value}
    else |Owners(entries, fold, folded)| != 1
  }

  function EndpointOf(folded: string, values: map<string, Id>, forms: map<string, Id>): Option<Id> {
    if folded in values then Some(values[folded])
    else if folded in forms then Some(forms[folded])
    else None
  }

  /** The value of each matched row names its entry, unless two entries share it. */
  method ValueEntries(matched: seq<(string, Id)>) returns (values: map<string, Id>)
    ensures forall v :: NamesSole(values, v, IdsNamed(matched, v))
  {
    values := map[];
    var clashes: set<string> := {};
    for i := 0 to |matched|
      invariant AllNoted(values, clashes, matched[..i])
    {
      var folded, id := matched[i].0, matched[i].1;
      ghost var before, were := values, clashes;
      if folded !in values {
        values := values[folded := id];
      } else if values[folded] != id {
        clashes := clashes + {folded};
      }
      NotedStep(before, were, matched, i, values, clashes);
    }
    assert matched[..|matched|] == matched;
    forall v
      ensures NamesSole(values - clashes, v, IdsNamed(matched, v))
    {
      assert Noted(values, clashes, v, IdsNamed(matched, v));
      if v in clashes {
        TwoIds(IdsNamed(matched, v), values[v]);
      }
    }
    values := values - clashes;
  }

  ghost predicate AllNoted(values: map<string, Id>, clashes: set<string>, matched: seq<(string, Id)>) {
    forall v :: Noted(values, clashes, v, IdsNamed(matched, v))
  }

  lemma NotedStep(values: map<string, Id>, clashes: set<string>, matched: seq<(string, Id)>, i: nat,
                  after: map<string, Id>, more: set<string>)
    requires i < |matched| && AllNoted(values, clashes, matched[..i])
    requires var (folded, id) := matched[i];
             && after == (if folded !in values then values[folded := id] else values)
             && more == if folded in values && values[folded] != id then clashes + {folded} else clashes
    ensures AllNoted(after, more, matched[..i + 1])
  {
    NamedStep(matched, i);
    var longer := matched[..i + 1];
    forall v
      ensures Noted(after, more, v, IdsNamed(longer, v))
    {
      assert Noted(values, clashes, v, IdsNamed(matched[..i], v));
    }
  }

  /** A value is noted with the first of its ids, and as a clash when it has others. */
  ghost predicate Noted(values: map<string, Id>, clashes: set<string>, v: string, ids: set<Id>) {
    && (v in values <==> ids != {}) && (v in values ==> values[v] in ids)
    && (v in clashes <==> v in values && ids != {values[v]})
  }

  lemma NamedStep(matched: seq<(string, Id)>, i: nat)
    requires i < |matched|
    ensures forall v :: IdsNamed(matched[..i + 1], v)
                        == IdsNamed(matched[..i], v) + (if matched[i].0 == v then {matched[i].1} else {})
  {
    var more := matched[..i + 1];
    assert more == matched[..i] + [matched[i]];
    forall v
      ensures IdsNamed(more, v) == IdsNamed(matched[..i], v) + (if matched[i].0 == v then {matched[i].1} else {})
    {
      assert forall j | 0 <= j < i :: more[j] == matched[..i][j];
      assert more[i] == matched[i];
    }
  }

  lemma TwoIds(ids: set<Id>, x: Id)
    requires x in ids && ids != {x}
    ensures |ids| != 1
  {
    if |ids| == 1 {
      SingletonSize(ids, x);
    }
  }

  /** The forms that one entry has. */
  method FormEntries(entries: seq<Entry>, fold: string -> string) returns (forms: map<string, Id>)
    ensures forall v :: NamesSole(forms, v, Owners(entries, fold, v))
  {
    var owners: map<string, set<Id>> := map[];
    for i := 0 to |entries|
      invariant forall v :: OwnersIn(owners, v) == Owners(entries[..i], fold, v)
    {
      ghost var before := owners;
      owners := AddForms(owners, entries[i], fold);
      OwnersStep(entries, i, fold);
    }
    assert entries[..|entries|] == entries;
    forms := map[];
    var rest := owners.Keys;
    while rest != {}
      invariant rest <= owners.Keys && forms.Keys <= owners.Keys - rest
      invariant forall v | v !in rest :: NamesSole(forms, v, OwnersIn(owners, v))
      decreases rest
    {
      var v :| v in rest;
      rest := rest - {v};
      if |owners[v]| == 1 {
        var id :| id in owners[v];
        SingletonSize(owners[v], id);
        forms := forms[v := id];
      }
    }
  }

  function OwnersIn(owners: map<string, set<Id>>, v: string): set<Id> {
    if v in owners then owners[v] else {}
  }

  /** The forms of one entry, its value among them. */
  method AddForms(before: map<string, set<Id>>, e: Entry, fold: string -> string) returns (owners: map<string, set<Id>>)
    ensures forall v :: OwnersIn(owners, v) == OwnersIn(before, v) + (if HasForm(e, fold, v) then {e.entryId} else {})
  {
    owners := before;
    for i := 0 to |e.surfaceForms|
      invariant forall v :: OwnersIn(owners, v) == OwnersIn(before, v)
                  + (if exists j | 0 <= j < i :: fold(e.surfaceForms[j]) == v then {e.entryId} else {})
    {
      var v := fold(e.surfaceForms[i]);
      owners := owners[v := OwnersIn(owners, v) + {e.entryId}];
    }
    var v := fold(e.value);
    owners := owners[v := OwnersIn(owners, v) + {e.entryId}];
  }

  lemma OwnersStep(entries: seq<Entry>, i: nat, fold: string -> string)
    requires i < |entries|
    ensures forall v :: Owners(entries[..i + 1], fold, v)
                        == Owners(entries[..i], fold, v) + (if HasForm(entries[i], fold, v) then {entries[i].entryId} else {})
  {
    var more := entries[..i + 1];
    forall v
      ensures Owners(more, fold, v)
              == Owners(entries[..i], fold, v) + (if HasForm(entries[i], fold, v) then {entries[i].entryId} else {})
    {
      assert forall j | 0 <= j < i :: more[j] == entries[..i][j];
      assert more[i] == entries[i];
    }
  }

  // ----- The relation a row states

  datatype Ends = Ends(source: Id, target: Id, verb: string)

  predicate Between(r: Relation, e: Ends) {
    r.sourceEntry == Some(e.source) && r.targetEntry == Some(e.target) && r.verb == e.verb
  }

  /** The first of `n` relations between these ends. */
  function FirstWith(relations: seq<Relation>, n: nat, e: Ends): Option<nat>
    requires n <= |relations|
  {
    if n == 0 then None
    else
      var before := FirstWith(relations, n - 1, e);
      if before.Some? then before else if Between(relations[n - 1], e) then Some(n - 1) else None
  }

  lemma {:induction false} FirstWithMeans(relations: seq<Relation>, n: nat, e: Ends)
    requires n <= |relations|
    ensures match FirstWith(relations, n, e)
            case None => forall i | 0 <= i < n :: !Between(relations[i], e)
            case Some(k) => k < n && Between(relations[k], e) && forall i | 0 <= i < k :: !Between(relations[i], e)
  {
    if n > 0 {
      FirstWithMeans(relations, n - 1, e);
    }
  }

  method ByEnds(relations: seq<Relation>) returns (byEnds: map<Ends, nat>)
    ensures forall e :: (if e in byEnds then Some(byEnds[e]) else None) == FirstWith(relations, |relations|, e)
  {
    byEnds := map[];
    for i := 0 to |relations|
      invariant forall e :: (if e in byEnds then Some(byEnds[e]) else None) == FirstWith(relations, i, e)
    {
      var base := relations[i];
      if base.sourceEntry.Some? && base.targetEntry.Some? {
        var e := Ends(base.sourceEntry.value, base.targetEntry.value, base.verb);
        if e !in byEnds {
          byEnds := byEnds[e := i];
        }
      }
    }
  }

  /** The relation a row states: the first one between the entries of its ends, with its verb. */
  ghost predicate Says(row: RelKey, entries: seq<Entry>, relations: seq<Relation>, matched: seq<(string, Id)>,
                       fold: string -> string, m: Option<nat>)
  {
    exists s, t ::
      && Endpoint(entries, matched, fold, row.source, s) && Endpoint(entries, matched, fold, row.target, t)
      && m == if s.Some? && t.Some? then FirstWith(relations, |relations|, Ends(s.value, t.value, row.verb)) else None
  }

  function RelStatusOf(relations: seq<Relation>, rows: seq<RelKey>, res: seq<Option<nat>>, key: RelKey): Option<Standing>
    requires |res| <= |rows|
  {
    if res == [] then None
    else
      var n := |res| - 1;
      var before := RelStatusOf(relations, rows, res[..n], key);
      if rows[n] != key then before
      else if res[n].Some? && res[n].value < |relations| then Some(Matched(relations[res[n].value].id))
      else if before.None? then Some(New) else before
  }

  ghost function SaidIds(relations: seq<Relation>, res: seq<Option<nat>>): set<Id> {
    set i | 0 <= i < |res| && res[i].Some? && res[i].value < |relations| :: relations[res[i].value].id
  }

  /** What each of the first rows, as many as `res` tells, states. */
  ghost predicate AllSay(rows: seq<RelKey>, entries: seq<Entry>, relations: seq<Relation>, matched: seq<(string, Id)>,
                         fold: string -> string, res: seq<Option<nat>>)
  {
    |res| <= |rows| && forall i | 0 <= i < |res| :: Says(rows[i], entries, relations, matched, fold, res[i])
  }

  lemma AllSayMore(rows: seq<RelKey>, entries: seq<Entry>, relations: seq<Relation>, matched: seq<(string, Id)>,
                   fold: string -> string, res: seq<Option<nat>>, m: Option<nat>)
    requires |res| < |rows| && AllSay(rows, entries, relations, matched, fold, res)
    requires Says(rows[|res|], entries, relations, matched, fold, m)
    ensures AllSay(rows, entries, relations, matched, fold, res + [m])
  {
  }

  ghost predicate RelStatusIs(status: map<RelKey, Standing>, relations: seq<Relation>, rows: seq<RelKey>,
                              res: seq<Option<nat>>)
  {
    |res| <= |rows| && forall key :: StatusIn(status, key) == RelStatusOf(relations, rows, res, key)
  }

  lemma RelStep(status: map<RelKey, Standing>, relations: seq<Relation>, rows: seq<RelKey>, res: seq<Option<nat>>,
                m: Option<nat>)
    requires |res| < |rows| && (m.Some? ==> m.value < |relations|) && RelStatusIs(status, relations, rows, res)
    ensures RelStatusIs(Written(status, rows[|res|], if m.Some? then Some(relations[m.value].id) else None),
                        relations, rows, res + [m])
  {
    var after := res + [m];
    assert after[..|res|] == res && after[|res|] == m;
    var next := Written(status, rows[|res|], if m.Some? then Some(relations[m.value].id) else None);
    forall key
      ensures StatusIn(next, key) == RelStatusOf(relations, rows, after, key)
    {
      assert StatusIn(status, key) == RelStatusOf(relations, rows, res, key);
    }
  }

  function Written(status: map<RelKey, Standing>, key: RelKey, id: Option<Id>): map<RelKey, Standing> {
    if id.Some? then status[key := Matched(id.value)]
    else if key in status then status else status[key := New]
  }

  lemma SaidStep(relations: seq<Relation>, res: seq<Option<nat>>, m: Option<nat>)
    requires m.Some? ==> m.value < |relations|
    ensures SaidIds(relations, res + [m]) == SaidIds(relations, res) + (if m.Some? then {relations[m.value].id} else {})
  {
    var after := res + [m];
    assert after[|res|] == m;
    assert forall i | 0 <= i < |res| :: after[i] == res[i];
  }

  // ----- The relations no row states

  /** The ends of the relations name entries. */
  ghost predicate RealEnds(entries: seq<Entry>, relations: seq<Relation>) {
    forall i | 0 <= i < |relations| ::
      && (relations[i].sourceEntry.Some? ==> IsEntry(entries, relations[i].sourceEntry.value))
      && (relations[i].targetEntry.Some? ==> IsEntry(entries, relations[i].targetEntry.value))
  }

  predicate IsEntry(entries: seq<Entry>, id: Id) {
    exists i | 0 <= i < |entries| :: entries[i].entryId == id
  }

  method ValueOf(entries: seq<Entry>, id: Id) returns (value: string)
    requires DistinctEntries(entries) && IsEntry(entries, id)
    ensures exists i | 0 <= i < |entries| :: entries[i].entryId == id && entries[i].value == value
  {
    for i := 0 to |entries|
      invariant forall j | 0 <= j < i :: entries[j].entryId != id
    {
      if entries[i].entryId == id {
        return entries[i].value;
      }
    }
    assert false;
    value := "";
  }

  predicate Known(r: Relation) {
    r.sourceEntry.Some? && r.targetEntry.Some?
  }

  /** The places of the first `n` relations with both ends known that were not said. */
  function Unsaid(relations: seq<Relation>, n: nat, said: set<Id>): (places: seq<nat>)
    requires n <= |relations|
    ensures forall k | 0 <= k < |places| :: places[k] < n && Known(relations[places[k]]) && relations[places[k]].id !in said
    ensures forall j, k | 0 <= j < k < |places| :: places[j] < places[k]
    ensures forall i | 0 <= i < n && Known(relations[i]) && relations[i].id !in said :: i in places
  {
    if n == 0 then []
    else
      var before := Unsaid(relations, n - 1, said);
      if Known(relations[n - 1]) && relations[n - 1].id !in said then before + [n - 1] else before
  }

  /** The row the job store gets for a relation: its verb, the values of its ends, and whether
      both were found in the report. */
  ghost predicate Imports(entries: seq<Entry>, r: Relation, found: set<Id>, x: ImportedRelation) {
    && Known(r) && x.id == r.id && x.verb == r.verb
    && (exists i | 0 <= i < |entries| :: entries[i].entryId == r.sourceEntry.value && entries[i].value == x.source)
    && (exists i | 0 <= i < |entries| :: entries[i].entryId == r.targetEntry.value && entries[i].value == x.target)
    && x.inText == (r.sourceEntry.value in found && r.targetEntry.value in found)
  }

  lemma SaidIff(relations: seq<Relation>, res: seq<Option<nat>>, i: nat)
    requires i < |relations| && forall j, k | 0 <= j < k < |relations| :: relations[j].id != relations[k].id
    ensures relations[i].id in SaidIds(relations, res) <==> exists k | 0 <= k < |res| :: res[k] == Some(i)
  {
    if relations[i].id in SaidIds(relations, res) {
      var k :| 0 <= k < |res| && res[k].Some? && res[k].value < |relations| && relations[res[k].value].id == relations[i].id;
      assert res[k] == Some(i);
    }
    if exists k | 0 <= k < |res| :: res[k] == Some(i) {
      var k :| 0 <= k < |res| && res[k] == Some(i);
      assert relations[res[k].value].id in SaidIds(relations, res);
    }
  }

  /** Every relation with both ends known is accounted for once: it is the one some row states,
      or it is imported, once, never both. */
  lemma RelationOnce(relations: seq<Relation>, res: seq<Option<nat>>, i: nat)
    requires i < |relations| && Known(relations[i])
    requires forall j, k | 0 <= j < k < |relations| :: relations[j].id != relations[k].id
    ensures var unsaid := Unsaid(relations, |relations|, SaidIds(relations, res));
            && (i in unsaid <==> !exists k | 0 <= k < |res| :: res[k] == Some(i))
            && forall j, k | 0 <= j < k < |unsaid| :: unsaid[j] != unsaid[k]
  {
    SaidIff(relations, res, i);
  }

  lemma EndpointOnce(entries: seq<Entry>, matched: seq<(string, Id)>, fold: string -> string, folded: string,
                     a: Option<Id>, b: Option<Id>)
    requires Endpoint(entries, matched, fold, folded, a) && Endpoint(entries, matched, fold, folded, b)
    ensures a == b
  {
    if a.Some? && b.Some? {
      assert a.value in {b.value};
    }
  }

  /** The ends and the verb of a row are those of a relation. */
  ghost predicate Names(row: RelKey, entries: seq<Entry>, matched: seq<(string, Id)>, fold: string -> string,
                        r: Relation)
  {
    && Endpoint(entries, matched, fold, row.source, r.sourceEntry)
    && Endpoint(entries, matched, fold, row.target, r.targetEntry)
    && row.verb == r.verb
  }

  predicate Twins(a: Relation, b: Relation) {
    a.sourceEntry == b.sourceEntry && a.targetEntry == b.targetEntry && a.verb == b.verb
  }

  /** A row states a relation exactly when it names it, and none before it is the same. */
  lemma SaysIff(row: RelKey, entries: seq<Entry>, relations: seq<Relation>, matched: seq<(string, Id)>,
                fold: string -> string, m: Option<nat>, j: nat)
    requires Says(row, entries, relations, matched, fold, m) && j < |relations| && Known(relations[j])
    ensures m == Some(j) <==>
              && Names(row, entries, matched, fold, relations[j])
              && forall i | 0 <= i < j :: !Twins(relations[i], relations[j])
  {
    var s, t :|
      && Endpoint(entries, matched, fold, row.source, s) && Endpoint(entries, matched, fold, row.target, t)
      && m == if s.Some? && t.Some? then FirstWith(relations, |relations|, Ends(s.value, t.value, row.verb)) else None;
    if Names(row, entries, matched, fold, relations[j]) {
      EndpointOnce(entries, matched, fold, row.source, s, relations[j].sourceEntry);
      EndpointOnce(entries, matched, fold, row.target, t, relations[j].targetEntry);
    }
    if s.Some? && t.Some? {
      FirstWithMeans(relations, |relations|, Ends(s.value, t.value, row.verb));
    }
  }

  /** A relation with both ends known is imported, as one no extraction found, exactly when no
      row names its ends with its verb, or a relation before it has the same. */
  lemma ImportedIff(rows: seq<RelKey>, entries: seq<Entry>, relations: seq<Relation>, matched: seq<(string, Id)>,
                    fold: string -> string, res: seq<Option<nat>>, j: nat)
    requires |res| == |rows| && AllSay(rows, entries, relations, matched, fold, res)
    requires forall a, b | 0 <= a < b < |relations| :: relations[a].id != relations[b].id
    requires j < |relations| && Known(relations[j])
    ensures j in Unsaid(relations, |relations|, SaidIds(relations, res)) <==>
              || (forall k | 0 <= k < |rows| :: !Names(rows[k], entries, matched, fold, relations[j]))
              || exists i | 0 <= i < j :: Twins(relations[i], relations[j])
  {
    forall k | 0 <= k < |rows|
      ensures res[k] == Some(j) <==>
                && Names(rows[k], entries, matched, fold, relations[j])
                && forall i | 0 <= i < j :: !Twins(relations[i], relations[j])
    {
      SaysIff(rows[k], entries, relations, matched, fold, res[k], j);
    }
    SaidIff(relations, res, j);
  }

  function Unfolded(value: string): string {
    value
  }

  function Plain(name: string): Entry {
    Entry(Id(name), "malware", "MALWARE", name, {}, {}, None, [], [], [])
  }

  function Uses(name: string): Relation {
    IndexBuild.Relation(Id(name), "uses", Id("a"), Id("b"), Some(Id("a")), Some(Id("b")))
  }

  lemma PlainEndpoint(entries: seq<Entry>, i: nat)
    requires i < |entries| && (forall j | 0 <= j < |entries| :: entries[j] == Plain(entries[j].value))
    requires forall j | 0 <= j < |entries| && j != i :: entries[j].value != entries[i].value
    ensures Endpoint(entries, [], Unfolded, entries[i].value, Some(entries[i].entryId))
  {
    assert IdsNamed([], entries[i].value) == {};
    assert HasForm(entries[i], Unfolded, entries[i].value);
    assert Owners(entries, Unfolded, entries[i].value) == {entries[i].entryId};
  }

  /** Two relations say that a uses b, and so does a row of the report: the second relation is
      imported as one no extraction found. */
  lemma SecondOfTwoIsImported(rows: seq<RelKey>, entries: seq<Entry>, relations: seq<Relation>, res: seq<Option<nat>>)
    requires rows == [RelKey("a", "uses", "b")] && entries == [Plain("a"), Plain("b")]
    requires relations == [Uses("r"), Uses("s")]
    requires |res| == |rows| && AllSay(rows, entries, relations, [], Unfolded, res)
    ensures Names(rows[0], entries, [], Unfolded, relations[1])
    ensures Unsaid(relations, 2, SaidIds(relations, res)) == [1]
  {
    assert entries[0].value == rows[0].source && entries[1].value == rows[0].target;
    PlainEndpoint(entries, 0);
    PlainEndpoint(entries, 1);
    assert Names(rows[0], entries, [], Unfolded, relations[0]);
    assert Twins(relations[0], relations[1]);
    ImportedIff(rows, entries, relations, [], Unfolded, res, 0);
    ImportedIff(rows, entries, relations, [], Unfolded, res, 1);
    OnlySecond(relations, SaidIds(relations, res));
  }

  lemma OnlySecond(relations: seq<Relation>, said: set<Id>)
    requires |relations| == 2 && 0 !in Unsaid(relations, 2, said) && 1 in Unsaid(relations, 2, said)
    ensures Unsaid(relations, 2, said) == [1]
  {
    assert Unsaid(relations, 1, said) == [] + Unsaid(relations, 0, said);
  }

  /** What pass 2 imports of the first entries, as many as `places` tells, in order. */
  function ImportedOf(entries: seq<Entry>, reached: set<Id>, places: seq<Option<(nat, nat)>>): seq<Imported>
    requires |places| <= |entries|
  {
    if places == [] then []
    else
      var n := |places| - 1;
      var before := ImportedOf(entries, reached, places[..n]);
      if entries[n].entryId in reached then before else before + [Imported(entries[n].entryId, places[n])]
  }

  ghost function InTextIds(entries: seq<Entry>, reached: set<Id>, places: seq<Option<(nat, nat)>>): set<Id> {
    set i | 0 <= i < |places| && i < |entries| && places[i].Some? && entries[i].entryId !in reached :: entries[i].entryId
  }

  lemma ImportStep(entries: seq<Entry>, reached: set<Id>, places: seq<Option<(nat, nat)>>, place: Option<(nat, nat)>)
    requires DistinctEntries(entries) && |places| < |entries|
    ensures var e := entries[|places|];
            && ImportedOf(entries, reached, places + [place])
               == (if e.entryId in reached then ImportedOf(entries, reached, places)
                   else ImportedOf(entries, reached, places) + [Imported(e.entryId, place)])
            && InTextIds(entries, reached, places + [place]) == InTextIds(entries, reached, places)
                 + (if place.Some? && e.entryId !in reached then {e.entryId} else {})
            && e.entryId !in InTextIds(entries, reached, places)
  {
    assert (places + [place])[..|places|] == places;
    InTextStep(entries, reached, places, place);
  }

  lemma InTextStep(entries: seq<Entry>, reached: set<Id>, places: seq<Option<(nat, nat)>>, place: Option<(nat, nat)>)
    requires DistinctEntries(entries) && |places| < |entries|
    ensures var e := entries[|places|];
            && InTextIds(entries, reached, places + [place]) == InTextIds(entries, reached, places)
                 + (if place.Some? && e.entryId !in reached then {e.entryId} else {})
            && e.entryId !in InTextIds(entries, reached, places)
  {
    var after := places + [place];
    assert after[|places|] == place;
    assert forall i | 0 <= i < |places| :: after[i] == places[i];
  }

  // ----- What the rows and the entries come to

  /** A row key is matched exactly when some row of that key resolves to an entry, whatever
      the order of the rows; it is new when some row has it and none resolves. */
  lemma {:induction false} MatchedIff(entries: seq<Entry>, rows: seq<Row>, res: seq<Option<nat>>, key: RowKey)
    requires |res| <= |rows| && forall i | 0 <= i < |res| && res[i].Some? :: res[i].value < |entries|
    ensures var s := StatusOf(entries, rows, res, key);
            && (s.Some? && s.value.Matched? <==> exists i | 0 <= i < |res| :: rows[i].key == key && res[i].Some?)
            && (s == Some(New) <==>
                  (exists i | 0 <= i < |res| :: rows[i].key == key) && forall i | 0 <= i < |res| && rows[i].key == key :: res[i].None?)
            && (s.Some? && s.value.Matched? ==> s.value.id in ReachedIds(entries, res))
  {
    if res != [] {
      var n := |res| - 1;
      var before := res[..n];
      MatchedIff(entries, rows, before, key);
      assert forall i | 0 <= i < n :: before[i] == res[i];
      assert ReachedIds(entries, before) <= ReachedIds(entries, res);
    }
  }

  /** Two orders of the same rows match the same keys and reach the same entries. */
  lemma RowOrderDoesNotMatter(entries: seq<Entry>, rows: seq<Row>, res: seq<Option<nat>>, again: seq<Row>,
                              other: seq<Option<nat>>, key: RowKey)
    requires |res| == |rows| && Resolutions(entries, rows, res)
    requires |other| == |again| && Resolutions(entries, again, other)
    requires forall r :: r in rows <==> r in again
    ensures ReachedIds(entries, res) == ReachedIds(entries, other)
    ensures var s, t := StatusOf(entries, rows, res, key), StatusOf(entries, again, other, key);
            (s.None? <==> t.None?) && (s.Some? && t.Some? ==> (s.value.Matched? <==> t.value.Matched?))
  {
    SameResolutions(entries, rows, res, again, other);
    SameResolutions(entries, again, other, rows, res);
    SameStanding(entries, rows, res, again, other, key);
  }

  lemma SameStanding(entries: seq<Entry>, rows: seq<Row>, res: seq<Option<nat>>, again: seq<Row>,
                     other: seq<Option<nat>>, key: RowKey)
    requires Paired(rows, res, again, other) && Paired(again, other, rows, res)
    requires forall i | 0 <= i < |res| && res[i].Some? :: res[i].value < |entries|
    requires forall i | 0 <= i < |other| && other[i].Some? :: other[i].value < |entries|
    ensures var s, t := StatusOf(entries, rows, res, key), StatusOf(entries, again, other, key);
            (s.None? <==> t.None?) && (s.Some? && t.Some? ==> (s.value.Matched? <==> t.value.Matched?))
  {
    MatchedIff(entries, rows, res, key);
    MatchedIff(entries, again, other, key);
    SameKeys(rows, res, again, other, key);
    SameKeys(again, other, rows, res, key);
  }

  /** A row of these resolves as `row` does. */
  ghost predicate HasPair(rows: seq<Row>, res: seq<Option<nat>>, row: Row, e: Option<nat>) {
    exists j | 0 <= j < |rows| && j < |res| :: rows[j] == row && res[j] == e
  }

  /** Each row of the one list is in the other, and resolves alike. */
  ghost predicate Paired(rows: seq<Row>, res: seq<Option<nat>>, again: seq<Row>, other: seq<Option<nat>>) {
    |res| == |rows| && forall i | 0 <= i < |rows| :: HasPair(again, other, rows[i], res[i])
  }

  lemma SameKeys(rows: seq<Row>, res: seq<Option<nat>>, again: seq<Row>, other: seq<Option<nat>>, key: RowKey)
    requires Paired(rows, res, again, other) && |other| == |again|
    ensures (exists i | 0 <= i < |res| :: rows[i].key == key) ==> exists j | 0 <= j < |other| :: again[j].key == key
    ensures (exists i | 0 <= i < |res| :: rows[i].key == key && res[i].Some?) ==>
              exists j | 0 <= j < |other| :: again[j].key == key && other[j].Some?
  {
    forall i | 0 <= i < |res|
      ensures exists j | 0 <= j < |other| :: again[j].key == rows[i].key && other[j] == res[i]
    {
      assert HasPair(again, other, rows[i], res[i]);
    }
  }

  lemma SameResolutions(entries: seq<Entry>, rows: seq<Row>, res: seq<Option<nat>>, again: seq<Row>,
                        other: seq<Option<nat>>)
    requires |res| == |rows| && Resolutions(entries, rows, res)
    requires |other| == |again| && Resolutions(entries, again, other)
    requires forall r :: r in rows <==> r in again
    ensures Paired(rows, res, again, other) && ReachedIds(entries, res) <= ReachedIds(entries, other)
  {
    forall i | 0 <= i < |rows|
      ensures HasPair(again, other, rows[i], res[i])
    {
      assert rows[i] in again;
      var j :| 0 <= j < |again| && again[j] == rows[i];
      assert ResolvesTo(entries, again[j], other[j]);
      ResolvesOnce(entries, rows[i], res[i], other[j]);
    }
    forall id | id in ReachedIds(entries, res)
      ensures id in ReachedIds(entries, other)
    {
      var i :| 0 <= i < |res| && res[i].Some? && res[i].value < |entries| && entries[res[i].value].entryId == id;
      assert HasPair(again, other, rows[i], res[i]);
      var j :| 0 <= j < |again| && j < |other| && again[j] == rows[i] && other[j] == res[i];
    }
  }

  /** How often an entry is imported. */
  function Times(imported: seq<Imported>, id: Id): nat {
    if imported == [] then 0 else Times(imported[..|imported| - 1], id) + if Last(imported).id == id then 1 else 0
  }

  lemma TimesOf(imported: seq<Imported>, more: Imported, id: Id)
    ensures Times(imported + [more], id) == Times(imported, id) + if more.id == id then 1 else 0
  {
    assert (imported + [more])[..|imported|] == imported;
  }

  /** Every entry is accounted for once: reached by some row, or imported once, never both; it
      is imported as found in the text exactly when one of its forms stands there as a word,
      and then at the earliest such place. */
  lemma {:induction false} EntryOnce(entries: seq<Entry>, reached: set<Id>, places: seq<Option<(nat, nat)>>, i: nat)
    requires DistinctEntries(entries) && i < |entries| && |places| <= |entries|
    ensures var imported := ImportedOf(entries, reached, places);
            && Times(imported, entries[i].entryId) == (if i < |places| && entries[i].entryId !in reached then 1 else 0)
            && (i < |places| && entries[i].entryId !in reached ==> Imported(entries[i].entryId, places[i]) in imported)
            && forall x | x in imported && x.id == entries[i].entryId :: i < |places| && x.place == places[i]
  {
    if places != [] {
      var n := |places| - 1;
      EntryOnce(entries, reached, places[..n], i);
      var before := ImportedOf(entries, reached, places[..n]);
      assert i < n ==> places[..n][i] == places[i];
      if entries[n].entryId !in reached {
        TimesOf(before, Imported(entries[n].entryId, places[n]), entries[i].entryId);
      }
    }
  }

  // ----- The four passes

  /** Stage 3r: the rows, the entries, the relationships and the relations, in that order. */
  method ReconcileAll(rows: seq<Row>, relRows: seq<RelKey>, low: string, isAlnum: char -> bool, fold: string -> string,
                      index: Index, relations: seq<Relation>)
    returns (rec: Reconciliation, ghost res: seq<Option<nat>>, ghost places: seq<Option<(nat, nat)>>,
             ghost said: seq<Option<nat>>)
    requires index.Valid() && RealEnds(index.entries, relations)
    modifies index
    ensures fresh(rec) && index.Valid()
    ensures |res| == |rows| && Resolutions(index.entries, rows, res)
    ensures forall key :: StatusIn(rec.entityStatus, key) == StatusOf(index.entries, rows, res, key)
    ensures |places| == |index.entries|
            && forall i | 0 <= i < |places| :: Earliest(low, isAlnum, index.entries[i].surfaceForms, places[i])
    ensures rec.importedEntities == ImportedOf(index.entries, ReachedIds(index.entries, res), places)
    ensures var matched := MatchedRows(index.entries, rows, res);
            |said| == |relRows| && AllSay(relRows, index.entries, relations, matched, fold, said)
    ensures RelStatusIs(rec.relationStatus, relations, relRows, said)
    ensures var unsaid := Unsaid(relations, |relations|, SaidIds(relations, said));
            |rec.importedRelations| == |unsaid|
            && forall k | 0 <= k < |unsaid| ::
                 Imports(index.entries, relations[unsaid[k]],
                         ReachedIds(index.entries, res) + InTextIds(index.entries, ReachedIds(index.entries, res), places),
                         rec.importedRelations[k])
  {
    rec := new Reconciliation();
    var found, matched;
    found, matched, res := rec.MatchRows(index, rows);
    var all;
    all, places := rec.ImportEntities(index.entries, found, low, isAlnum);
    var saidIds;
    saidIds, said := rec.MatchRelations(relRows, index.entries, relations, matched, fold);
    rec.ImportRelations(index.entries, relations, saidIds, all);
  }
}
