/**
 Bringing a database to the code's schema version (api/migrate.py:1-20, 100-200): any number of
 processes, each with a history of its own, under one advisory lock, any of them dying at any
 step.

 A migration is its checksum.  `applied` counts how often each version's statements were
 committed; a version's own check sees its changes when it was.
 */
module Migrate {
  import opened Common

  datatype Db = Db(records: map<nat, string>, applied: multiset<nat>, tables: bool)

  datatype Process =
    | Out
    | Checking
    | Going(have: map<nat, string>, unversioned: bool, next: nat, applied: seq<nat>, recognised: seq<nat>)
    | Done(applied: seq<nat>, recognised: seq<nat>)
    | Refused
    | Failed

  datatype Sys = Sys(db: Db, processes: map<nat, Process>, lock: Option<nat>)

  datatype Event =
    | Lock(p: nat)
    | Check(p: nat, clusterChanged: bool)
    | Skip(p: nat)
    | Recognise(p: nat)
    | Apply(p: nat)
    | Fail(p: nat)
    | Finish(p: nat)
    | Crash(p: nat)

  /** The checksums of versions 1, 2, … that a process's code knows. */
  type Code = seq<string>

  /** A database newer than the code, or one whose applied migration was edited. */
  predicate Refuses(records: map<nat, string>, code: Code) {
    || (exists v | v in records :: v > |code|)
    || (exists v | v in records :: 1 <= v <= |code| && records[v] != code[v - 1])
  }

  predicate Unversioned(db: Db) {
    db.records == map[] && db.tables
  }

  predicate IsGoing(s: Sys, p: nat) {
    p in s.processes && s.processes[p].Going?
  }

  /** The version a process has come to is still to be handled. */
  predicate At(s: Sys, p: nat, code: Code) {
    IsGoing(s, p) && 1 <= s.processes[p].next <= |code|
  }

  predicate Recognisable(s: Sys, p: nat)
    requires IsGoing(s, p)
  {
    s.processes[p].unversioned && s.processes[p].next in s.db.applied
  }

  predicate Enabled(s: Sys, code: nat -> Code, e: Event) {
    match e
    case Lock(p) => p in s.processes && s.lock.None?
    case Check(p, _) => p in s.processes && s.processes[p].Checking?
    case Skip(p) => At(s, p, code(p)) && s.processes[p].next in s.processes[p].have
    case Recognise(p) => At(s, p, code(p)) && s.processes[p].next !in s.processes[p].have && Recognisable(s, p)
    case Apply(p) => At(s, p, code(p)) && s.processes[p].next !in s.processes[p].have && !Recognisable(s, p)
    case Fail(p) => At(s, p, code(p)) && s.processes[p].next !in s.processes[p].have && !Recognisable(s, p)
    case Finish(p) => IsGoing(s, p) && s.processes[p].next > |code(p)|
    case Crash(p) => p in s.processes
  }

  /** The process lets the lock go, if it has it. */
  function Leave(s: Sys, p: nat, state: Process): Sys {
    s.(processes := s.processes[p := state], lock := if s.lock == Some(p) then None else s.lock)
  }

  function Step(s: Sys, code: nat -> Code, e: Event): Sys
    requires Enabled(s, code, e)
  {
    match e
    case Lock(p) => s.(processes := s.processes[p := Checking], lock := Some(p))
    case Check(p, clusterChanged) =>
      if Refuses(s.db.records, code(p)) || clusterChanged then Leave(s, p, Refused)
      else s.(processes := s.processes[p := Going(s.db.records, Unversioned(s.db), 1, [], [])])
    case Skip(p) =>
      var g := s.processes[p];
      s.(processes := s.processes[p := g.(next := g.next + 1)])
    case Recognise(p) =>
      var g := s.processes[p];
      s.(db := s.db.(records := s.db.records[g.next := code(p)[g.next - 1]]),
         processes := s.processes[p := g.(next := g.next + 1, recognised := g.recognised + [g.next])])
    case Apply(p) =>
      var g := s.processes[p];
      s.(db := Db(s.db.records[g.next := code(p)[g.next - 1]], s.db.applied + multiset{g.next}, true),
         processes := s.processes[p := g.(next := g.next + 1, applied := g.applied + [g.next])])
    case Fail(p) => Leave(s, p, Failed)
    case Finish(p) => Leave(s, p, Done(s.processes[p].applied, s.processes[p].recognised))
    case Crash(p) => Leave(s, p, Out)
  }

  // ----- What every step keeps

  /** The recorded versions are 1, 2, … up to some version. */
  ghost predicate Segment(records: map<nat, string>) {
    forall v :: v in records <==> 1 <= v <= |records|
  }

  /** Only the process that holds the lock is past it. */
  ghost predicate Exclusive(s: Sys) {
    forall p | p in s.processes :: s.processes[p].Checking? || s.processes[p].Going? <==> s.lock == Some(p)
  }

  /** How far the process is: the versions before the one it has come to are recorded. */
  ghost predicate OnCourse(records: map<nat, string>, have: map<nat, string>, unversioned: bool, next: nat,
                           code: Code)
  {
    && Segment(have) && |have| <= |code| && 1 <= next <= |code| + 1
    && |records| == (if next - 1 > |have| then next - 1 else |have|)
    && (forall v | v in have :: v in records && records[v] == have[v])
    && (forall v | v in records :: 1 <= v <= |code| && records[v] == code[v - 1])
    && (unversioned ==> have == map[])
  }

  predicate Handled(applied: seq<nat>, recognised: seq<nat>, v: nat) {
    v in applied || v in recognised
  }

  /** What the report lists: the versions between, each once, in the order handled. */
  ghost predicate Reported(have: nat, unversioned: bool, next: nat, applied: seq<nat>, recognised: seq<nat>) {
    && (forall v: nat :: Handled(applied, recognised, v) <==> have < v < next)
    && |applied| + |recognised| == (if next - 1 > have then next - 1 - have else 0)
    && (recognised != [] ==> unversioned)
  }

  ghost predicate Fine(db: Db, g: Process, code: Code)
    requires g.Going?
  {
    && OnCourse(db.records, g.have, g.unversioned, g.next, code)
    && Reported(|g.have|, g.unversioned, g.next, g.applied, g.recognised)
  }

  ghost predicate Holder(s: Sys, code: nat -> Code) {
    s.lock.Some? && IsGoing(s, s.lock.value) ==>
      Fine(s.db, s.processes[s.lock.value], code(s.lock.value))
  }

  ghost predicate Inv(s: Sys, code: nat -> Code) {
    Segment(s.db.records) && Exclusive(s) && Holder(s, code)
  }

  lemma InvKept(s: Sys, code: nat -> Code, e: Event)
    requires Inv(s, code) && Enabled(s, code, e)
    ensures Inv(Step(s, code, e), code)
  {
    match e
    case Check(p, changed) => CheckKeeps(s, code, p, changed);
    case Recognise(p) => RecordKeeps(s, code, p, e);
    case Apply(p) => RecordKeeps(s, code, p, e);
    case Skip(p) => SkipKeeps(s, code, p);
    case _ =>
  }

  lemma CheckKeeps(s: Sys, code: nat -> Code, p: nat, changed: bool)
    requires Inv(s, code) && Enabled(s, code, Check(p, changed))
    ensures Inv(Step(s, code, Check(p, changed)), code)
  {
    Passes(s.db.records, code(p));
    assert s.processes[p].Checking?;
  }

  lemma SkipKeeps(s: Sys, code: nat -> Code, p: nat)
    requires Inv(s, code) && Enabled(s, code, Skip(p))
    ensures Inv(Step(s, code, Skip(p)), code)
  {
    assert s.processes[p].Going?;
    assert Fine(s.db, s.processes[p], code(p));
  }

  /** A process that records the version it has come to stays on course. */
  lemma RecordedFine(db: Db, g: Process, code: Code, after: Db, h: Process)
    requires g.Going? && Segment(db.records) && Fine(db, g, code) && g.next <= |code| && g.next !in g.have
    requires after.records == db.records[g.next := code[g.next - 1]]
    requires || h == g.(next := g.next + 1, applied := g.applied + [g.next])
             || (g.unversioned && h == g.(next := g.next + 1, recognised := g.recognised + [g.next]))
    ensures Segment(after.records) && Fine(after, h, code)
  {
    CourseOn(db.records, g.have, g.unversioned, g.next, code);
    ReportOn(|g.have|, g.unversioned, g.next, g.applied, g.recognised);
  }

  /** The process that holds the lock has recorded the version it had come to. */
  lemma FurtherOn(s: Sys, code: nat -> Code, p: nat, db: Db, h: Process)
    requires Inv(s, code) && At(s, p, code(p)) && s.processes[p].next !in s.processes[p].have
    requires var g := s.processes[p];
             && db.records == s.db.records[g.next := code(p)[g.next - 1]]
             && (|| h == g.(next := g.next + 1, applied := g.applied + [g.next])
                 || (g.unversioned && h == g.(next := g.next + 1, recognised := g.recognised + [g.next])))
    ensures Inv(Sys(db, s.processes[p := h], s.lock), code)
  {
    NextIsNew(s, code, p);
    assert Fine(s.db, s.processes[p], code(p));
    RecordedFine(s.db, s.processes[p], code(p), db, h);
  }

  lemma RecordKeeps(s: Sys, code: nat -> Code, p: nat, e: Event)
    requires Inv(s, code) && Enabled(s, code, e) && (e == Recognise(p) || e == Apply(p))
    ensures Inv(Step(s, code, e), code)
  {
    var g, c := s.processes[p], code(p)[s.processes[p].next - 1];
    if e.Recognise? {
      FurtherOn(s, code, p, s.db.(records := s.db.records[g.next := c]),
                g.(next := g.next + 1, recognised := g.recognised + [g.next]));
    } else {
      FurtherOn(s, code, p, Db(s.db.records[g.next := c], s.db.applied + multiset{g.next}, true),
                g.(next := g.next + 1, applied := g.applied + [g.next]));
    }
  }

  lemma CourseSkips(records: map<nat, string>, have: map<nat, string>, unversioned: bool, next: nat, code: Code)
    requires Segment(records) && OnCourse(records, have, unversioned, next, code) && next in have
    ensures OnCourse(records, have, unversioned, next + 1, code)
  {
  }

  lemma CourseOn(records: map<nat, string>, have: map<nat, string>, unversioned: bool, next: nat, code: Code)
    requires Segment(records) && OnCourse(records, have, unversioned, next, code) && next <= |code| && next !in have
    ensures next == |records| + 1 && Segment(records[next := code[next - 1]])
    ensures OnCourse(records[next := code[next - 1]], have, unversioned, next + 1, code)
  {
    NextRecorded(records, code[next - 1]);
  }

  lemma ReportOn(have: nat, unversioned: bool, next: nat, applied: seq<nat>, recognised: seq<nat>)
    requires Reported(have, unversioned, next, applied, recognised) && next >= 1
    ensures next <= have ==> Reported(have, unversioned, next + 1, applied, recognised)
    ensures next > have ==> Reported(have, unversioned, next + 1, applied + [next], recognised)
    ensures next > have && unversioned ==> Reported(have, unversioned, next + 1, applied, recognised + [next])
  {
    if next > have {
      assert forall v :: Handled(applied + [next], recognised, v) <==> Handled(applied, recognised, v) || v == next;
      assert forall v :: Handled(applied, recognised + [next], v) <==> Handled(applied, recognised, v) || v == next;
    }
  }

  lemma NextRecorded(records: map<nat, string>, checksum: string)
    requires Segment(records)
    ensures var after := records[|records| + 1 := checksum]; Segment(after) && |after| == |records| + 1
  {
  }

  lemma Passes(records: map<nat, string>, code: Code)
    requires Segment(records)
    ensures !Refuses(records, code) <==>
              |records| <= |code| && forall v | v in records && v <= |code| :: records[v] == code[v - 1]
  {
    if |records| > |code| {
      assert |records| in records;
    }
  }

  lemma NextIsNew(s: Sys, code: nat -> Code, p: nat)
    requires Inv(s, code) && At(s, p, code(p)) && s.processes[p].next !in s.processes[p].have
    ensures s.lock == Some(p) && s.processes[p].next == |s.db.records| + 1 && s.processes[p].next !in s.db.records
  {
    assert s.processes[p].Going?;
    assert Fine(s.db, s.processes[p], code(p));
  }

  /** A run: each event enabled where it happens. */
  predicate Runs(s: Sys, code: nat -> Code, es: seq<Event>)
    decreases |es|
  {
    es == [] || (Enabled(s, code, es[0]) && Runs(Step(s, code, es[0]), code, es[1..]))
  }

  function After(s: Sys, code: nat -> Code, es: seq<Event>): Sys
    requires Runs(s, code, es)
    decreases |es|
  {
    if es == [] then s else After(Step(s, code, es[0]), code, es[1..])
  }

  /** In every run, whoever dies where, the recorded versions are an initial segment, and
      one process at most is migrating. */
  lemma {:induction false} RecordsStayASegment(s: Sys, code: nat -> Code, es: seq<Event>)
    requires Inv(s, code) && Runs(s, code, es)
    ensures Inv(After(s, code, es), code)
    decreases |es|
  {
    if es != [] {
      InvKept(s, code, es[0]);
      RecordsStayASegment(Step(s, code, es[0]), code, es[1..]);
    }
  }

  /** An upgrade that ends well has recorded every version its code knows, those it had as
      they were, and reports the others, each once, as applied or recognised. */
  lemma FinishedHasAll(s: Sys, code: nat -> Code, p: nat)
    requires Inv(s, code) && Enabled(s, code, Finish(p))
    ensures var after := Step(s, code, Finish(p)); var g := s.processes[p];
            && after.db == s.db && after.lock.None? && after.processes[p].Done?
            && (forall v :: v in s.db.records <==> 1 <= v <= |code(p)|)
            && (forall v | 1 <= v <= |code(p)| :: s.db.records[v] == code(p)[v - 1])
            && (forall v :: Handled(g.applied, g.recognised, v) <==> v in s.db.records && v !in g.have)
            && |g.applied| + |g.recognised| == |code(p)| - |g.have|
  {
    assert s.processes[p].Going?;
    assert Fine(s.db, s.processes[p], code(p));
  }

  /** A newer or an edited history is refused with nothing changed; any other is not. */
  lemma RefusedUntouched(s: Sys, code: nat -> Code, p: nat)
    requires Inv(s, code) && Enabled(s, code, Check(p, false))
    ensures var after := Step(s, code, Check(p, false));
            && after.db == s.db
            && (after.processes[p].Refused? <==>
                  |s.db.records| > |code(p)| || exists v | v in s.db.records && v <= |code(p)| :: s.db.records[v] != code(p)[v - 1])
            && (after.processes[p].Refused? ==> after.lock.None?)
  {
    Passes(s.db.records, code(p));
    assert s.processes[p].Checking?;
  }

  // ----- Each version's effects, at most once

  /** Each version was committed at most once, and what is recorded was. */
  ghost predicate AtMostOnce(db: Db) {
    && (forall v | v in db.applied :: v >= 1 && db.applied[v] == 1)
    && (forall v | v in db.records :: v in db.applied)
  }

  /** Nothing is left to recognise: either the database has no record at all and its tables
      show it, or every version it has is recorded. */
  ghost predicate Clean(db: Db) {
    || (forall v | v in db.applied :: v in db.records)
    || (db.records == map[] && db.tables)
  }

  /** While a process recognises, what is not recorded yet is ahead of it. */
  ghost predicate Ahead(db: Db, g: Process)
    requires g.Going?
  {
    forall v | v in db.applied && v !in db.records :: g.unversioned && g.next <= v
  }

  ghost predicate OnceInv(s: Sys, code: nat -> Code) {
    && Inv(s, code) && AtMostOnce(s.db)
    && if s.lock.Some? && IsGoing(s, s.lock.value) then Ahead(s.db, s.processes[s.lock.value]) else Clean(s.db)
  }

  /** The process lets the lock go with some version recorded and another, whose effects the
      database has, not: it died or failed while recognising, or knows fewer versions. */
  ghost predicate Strands(s: Sys, e: Event) {
    (e.Crash? || e.Fail? || e.Finish?) && s.lock == Some(e.p) && IsGoing(s, e.p) && !Clean(s.db)
  }

  /** Each version's effects and record commit together and at most once, as long as no
      process strands a database it was recognising; and only that breaks it. */
  lemma OnceKept(s: Sys, code: nat -> Code, e: Event)
    requires OnceInv(s, code) && Enabled(s, code, e)
    ensures OnceInv(Step(s, code, e), code) <==> !Strands(s, e)
    ensures AtMostOnce(Step(s, code, e).db)
  {
    if Leaves(e) {
      InvKept(s, code, e);
      OnceLeft(s, code, e);
    } else {
      OnceStays(s, code, e);
    }
  }

  predicate Leaves(e: Event) {
    e.Fail? || e.Finish? || e.Crash?
  }

  lemma OnceStays(s: Sys, code: nat -> Code, e: Event)
    requires OnceInv(s, code) && Enabled(s, code, e) && !Leaves(e)
    ensures OnceInv(Step(s, code, e), code)
  {
    InvKept(s, code, e);
    match e
    case Recognise(p) => OnceRecognised(s, code, p);
    case Apply(p) => OnceApplied(s, code, p);
    case Skip(p) => OnceSkipped(s, code, p);
    case Lock(p) => OnceLocked(s, code, p);
    case Check(p, changed) => OnceChecked(s, code, p, changed);
  }

  lemma OnceLocked(s: Sys, code: nat -> Code, p: nat)
    requires OnceInv(s, code) && Enabled(s, code, Lock(p)) && Inv(Step(s, code, Lock(p)), code)
    ensures OnceInv(Step(s, code, Lock(p)), code)
  {
  }

  /** Letting the lock go keeps it just when nothing is left to recognise. */
  lemma OnceLeft(s: Sys, code: nat -> Code, e: Event)
    requires OnceInv(s, code) && Enabled(s, code, e) && Leaves(e)
    requires Inv(Step(s, code, e), code)
    ensures OnceInv(Step(s, code, e), code) <==> !Strands(s, e)
    ensures Step(s, code, e).db == s.db
  {
    var after := Step(s, code, e);
    if s.lock == Some(e.p) {
      assert after.lock.None?;
    } else {
      assert !s.processes[e.p].Going?;
      assert after.lock == s.lock;
      assert s.lock.Some? ==> (IsGoing(after, s.lock.value) <==> IsGoing(s, s.lock.value));
    }
  }

  lemma OnceChecked(s: Sys, code: nat -> Code, p: nat, changed: bool)
    requires OnceInv(s, code) && Enabled(s, code, Check(p, changed)) && Inv(Step(s, code, Check(p, changed)), code)
    ensures OnceInv(Step(s, code, Check(p, changed)), code)
  {
    assert s.processes[p].Checking?;
    assert s.lock == Some(p);
  }

  lemma OnceRecognised(s: Sys, code: nat -> Code, p: nat)
    requires OnceInv(s, code) && Enabled(s, code, Recognise(p)) && Inv(Step(s, code, Recognise(p)), code)
    ensures OnceInv(Step(s, code, Recognise(p)), code)
  {
    NextIsNew(s, code, p);
    RecognisedOnce(s.db, s.processes[p], code(p)[s.processes[p].next - 1]);
  }

  lemma RecognisedOnce(db: Db, g: Process, checksum: string)
    requires AtMostOnce(db) && g.Going? && Ahead(db, g) && g.next in db.applied
    ensures var after := db.(records := db.records[g.next := checksum]);
            AtMostOnce(after) && Ahead(after, g.(next := g.next + 1))
  {
  }

  lemma OnceApplied(s: Sys, code: nat -> Code, p: nat)
    requires OnceInv(s, code) && Enabled(s, code, Apply(p)) && Inv(Step(s, code, Apply(p)), code)
    ensures OnceInv(Step(s, code, Apply(p)), code)
  {
    NextIsNew(s, code, p);
    AppliedOnce(s.db, s.processes[p], code(p)[s.processes[p].next - 1]);
  }

  lemma AppliedOnce(db: Db, g: Process, checksum: string)
    requires AtMostOnce(db) && g.Going? && Ahead(db, g) && g.next >= 1
    requires g.next !in db.records && !(g.unversioned && g.next in db.applied)
    ensures g.next !in db.applied
    ensures var after := Db(db.records[g.next := checksum], db.applied + multiset{g.next}, true);
            AtMostOnce(after) && Ahead(after, g.(next := g.next + 1))
  {
    var after := Db(db.records[g.next := checksum], db.applied + multiset{g.next}, true);
    assert forall v :: v in after.applied <==> v in db.applied || v == g.next;
  }

  lemma OnceSkipped(s: Sys, code: nat -> Code, p: nat)
    requires OnceInv(s, code) && Enabled(s, code, Skip(p)) && Inv(Step(s, code, Skip(p)), code)
    ensures OnceInv(Step(s, code, Skip(p)), code)
  {
    assert s.processes[p].Going?;
    assert s.processes[p].next in s.db.records;
  }

  /** A run in which no process strands the database. */
  ghost predicate StrandsNever(s: Sys, code: nat -> Code, es: seq<Event>)
    requires Runs(s, code, es)
    decreases |es|
  {
    es == [] || (!Strands(s, es[0]) && StrandsNever(Step(s, code, es[0]), code, es[1..]))
  }

  lemma {:induction false} AtMostOnceInRuns(s: Sys, code: nat -> Code, es: seq<Event>)
    requires OnceInv(s, code) && Runs(s, code, es) && StrandsNever(s, code, es)
    ensures OnceInv(After(s, code, es), code)
    decreases |es|
  {
    if es != [] {
      OnceKept(s, code, es[0]);
      AtMostOnceInRuns(Step(s, code, es[0]), code, es[1..]);
    }
  }

  /** A database that starts with a record, or with no tables, is never stranded: only one
      from before versioned migrations is recognised. */
  ghost predicate NeverRecognising(s: Sys) {
    && (s.lock.Some? && IsGoing(s, s.lock.value) ==> !s.processes[s.lock.value].unversioned)
    && (forall v | v in s.db.applied :: v in s.db.records)
    && !Unversioned(s.db)
  }

  lemma VersionedRecorded(s: Sys, code: nat -> Code, p: nat, e: Event)
    requires OnceInv(s, code) && NeverRecognising(s) && Enabled(s, code, e) && (e == Apply(p) || e == Recognise(p))
    ensures NeverRecognising(Step(s, code, e))
  {
    NextIsNew(s, code, p);
  }

  lemma VersionedKept(s: Sys, code: nat -> Code, e: Event)
    requires OnceInv(s, code) && NeverRecognising(s) && Enabled(s, code, e)
    ensures !Strands(s, e) && NeverRecognising(Step(s, code, e))
  {
    match e
    case Apply(p) => VersionedRecorded(s, code, p, e);
    case Recognise(p) => VersionedRecorded(s, code, p, e);
    case _ =>
  }

  lemma {:induction false} VersionedIsNeverStranded(s: Sys, code: nat -> Code, es: seq<Event>)
    requires OnceInv(s, code) && NeverRecognising(s) && Runs(s, code, es)
    ensures StrandsNever(s, code, es) && OnceInv(After(s, code, es), code)
    decreases |es|
  {
    if es != [] {
      VersionedKept(s, code, es[0]);
      OnceKept(s, code, es[0]);
      VersionedIsNeverStranded(Step(s, code, es[0]), code, es[1..]);
    }
  }

  // ----- Which databases keep it in every run

  /** The database has the effects of a version it has no record of, other than a first version
      that its tables tell to recognise, and the code of some process it accepts knows it. */
  predicate Strandable(s: Sys, code: nat -> Code, v: nat) {
    && v in s.db.applied && v !in s.db.records && !(v == 1 && s.db.tables)
    && exists p | p in s.processes :: v <= |code(p)| && !Refuses(s.db.records, code(p))
  }

  /** A process that comes to version 1 with its effects there will recognise it. */
  ghost predicate FirstRecognised(db: Db, g: Process, code: Code)
    requires g.Going?
  {
    |code| >= 1 && 1 in db.applied && 1 !in db.records ==> g.unversioned
  }

  ghost predicate Secure(s: Sys, code: nat -> Code) {
    && Inv(s, code) && AtMostOnce(s.db)
    && (forall v :: !Strandable(s, code, v))
    && (s.lock.Some? && IsGoing(s, s.lock.value) ==>
          FirstRecognised(s.db, s.processes[s.lock.value], code(s.lock.value)))
  }

  lemma SecureApplied(s: Sys, code: nat -> Code, p: nat)
    requires Secure(s, code) && Enabled(s, code, Apply(p))
    ensures s.processes[p].next !in s.db.applied
  {
    NextIsNew(s, code, p);
    Passes(s.db.records, code(p));
    assert !Strandable(s, code, s.processes[p].next);
  }

  /** A history that is refused stays refused as versions are recorded. */
  lemma RefusedStays(records: map<nat, string>, code: Code, v: nat, checksum: string)
    requires v !in records && Refuses(records, code)
    ensures Refuses(records[v := checksum], code)
  {
    var after := records[v := checksum];
    if w :| w in records && w > |code| {
      assert w in after;
    } else {
      var w :| w in records && 1 <= w <= |code| && records[w] != code[w - 1];
      assert w in after && after[w] != code[w - 1];
    }
  }

  lemma RecordedStrandsNone(s: Sys, code: nat -> Code, after: Sys, n: nat, checksum: string, v: nat)
    requires !Strandable(s, code, v) && n !in s.db.records && after.db.records == s.db.records[n := checksum]
    requires v in after.db.applied ==> v in s.db.applied || v == n
    requires (s.db.tables ==> after.db.tables) && after.processes.Keys == s.processes.Keys
    ensures !Strandable(after, code, v)
  {
    forall q | q in after.processes.Keys && Refuses(s.db.records, code(q))
      ensures Refuses(after.db.records, code(q))
    {
      RefusedStays(s.db.records, code(q), n, checksum);
    }
    assert forall q :: q in after.processes <==> q in s.processes.Keys;
  }

  lemma SecureFurther(s: Sys, code: nat -> Code, p: nat, n: nat, checksum: string, after: Sys)
    requires Secure(s, code) && Inv(after, code) && s.lock == Some(p) == after.lock
    requires after.processes.Keys == s.processes.Keys
    requires n !in s.db.records && after.db.records == s.db.records[n := checksum] && AtMostOnce(after.db)
    requires forall v | v in after.db.applied :: v in s.db.applied || v == n
    requires s.db.tables ==> after.db.tables
    ensures Secure(after, code)
  {
    forall v
      ensures !Strandable(after, code, v)
    {
      RecordedStrandsNone(s, code, after, n, checksum, v);
    }
    assert n in after.db.records;
    assert 1 in after.db.records;
  }

  lemma SecureRecorded(s: Sys, code: nat -> Code, p: nat, e: Event)
    requires Secure(s, code) && Enabled(s, code, e) && (e == Apply(p) || e == Recognise(p))
    requires Inv(Step(s, code, e), code)
    ensures Secure(Step(s, code, e), code)
  {
    NextIsNew(s, code, p);
    var n, c := s.processes[p].next, code(p)[s.processes[p].next - 1];
    if e.Apply? {
      SecureApplied(s, code, p);
      AppliedStaysOnce(s.db, n, c);
    }
    SecureFurther(s, code, p, n, c, Step(s, code, e));
  }

  lemma AppliedStaysOnce(db: Db, n: nat, checksum: string)
    requires AtMostOnce(db) && n !in db.applied && n >= 1
    ensures var after := Db(db.records[n := checksum], db.applied + multiset{n}, true);
            AtMostOnce(after) && forall v | v in after.applied :: v in db.applied || v == n
  {
    assert forall v :: v in db.applied + multiset{n} <==> v in db.applied || v == n;
  }

  /** A step that leaves the database alone, and starts no process from another one. */
  lemma SecureElsewhere(s: Sys, code: nat -> Code, after: Sys)
    requires Secure(s, code) && Inv(after, code) && after.db == s.db && after.processes.Keys == s.processes.Keys
    requires after.lock.Some? && IsGoing(after, after.lock.value) ==>
               FirstRecognised(after.db, after.processes[after.lock.value], code(after.lock.value))
    ensures Secure(after, code)
  {
    forall v
      ensures !Strandable(after, code, v)
    {
      assert !Strandable(s, code, v);
      assert forall q :: q in after.processes <==> q in s.processes;
    }
  }

  lemma SecureChecked(s: Sys, code: nat -> Code, p: nat, changed: bool)
    requires Secure(s, code) && Enabled(s, code, Check(p, changed)) && Inv(Step(s, code, Check(p, changed)), code)
    ensures Secure(Step(s, code, Check(p, changed)), code)
  {
    assert s.processes[p].Checking?;
    assert !Strandable(s, code, 1);
    SecureElsewhere(s, code, Step(s, code, Check(p, changed)));
  }

  lemma SecureSkipped(s: Sys, code: nat -> Code, p: nat)
    requires Secure(s, code) && Enabled(s, code, Skip(p)) && Inv(Step(s, code, Skip(p)), code)
    ensures Secure(Step(s, code, Skip(p)), code)
  {
    assert s.processes[p].Going?;
    SecureElsewhere(s, code, Step(s, code, Skip(p)));
  }

  lemma SecureLeft(s: Sys, code: nat -> Code, e: Event)
    requires Secure(s, code) && Enabled(s, code, e) && Leaves(e)
    requires Inv(Step(s, code, e), code)
    ensures Secure(Step(s, code, e), code)
  {
    SecureElsewhere(s, code, Step(s, code, e));
  }

  lemma SecureKept(s: Sys, code: nat -> Code, e: Event)
    requires Secure(s, code) && Enabled(s, code, e)
    ensures Secure(Step(s, code, e), code)
  {
    InvKept(s, code, e);
    match e
    case Recognise(p) => SecureRecorded(s, code, p, e);
    case Apply(p) => SecureRecorded(s, code, p, e);
    case Check(p, changed) => SecureChecked(s, code, p, changed);
    case Skip(p) => SecureSkipped(s, code, p);
    case Lock(p) => SecureElsewhere(s, code, Step(s, code, e));
    case _ => SecureLeft(s, code, e);
  }

  lemma {:induction false} SecureInRuns(s: Sys, code: nat -> Code, es: seq<Event>)
    requires Secure(s, code) && Runs(s, code, es)
    ensures Secure(After(s, code, es), code)
    decreases |es|
  {
    if es != [] {
      SecureKept(s, code, es[0]);
      SecureInRuns(Step(s, code, es[0]), code, es[1..]);
    }
  }

  ghost predicate OnceInEveryRun(s: Sys, code: nat -> Code) {
    forall es | Runs(s, code, es) :: forall v :: After(s, code, es).db.applied[v] <= 1
  }

  /** From a database that no process is migrating, every version is committed at most once in
      every run exactly when the code of no process that the database accepts knows a version
      whose effects are there without a record, but for a first version still recognised. */
  lemma AtMostOnceIff(s: Sys, code: nat -> Code)
    requires Inv(s, code) && AtMostOnce(s.db) && s.lock.None?
    ensures OnceInEveryRun(s, code) <==> forall v :: !Strandable(s, code, v)
  {
    if v: nat :| Strandable(s, code, v) {
      var es := CommitsAgain(s, code, v);
      assert Runs(s, code, es) && After(s, code, es).db.applied[v] == 2;
    } else {
      forall es | Runs(s, code, es)
        ensures forall v :: After(s, code, es).db.applied[v] <= 1
      {
        SecureInRuns(s, code, es);
        AppliedOnceEach(After(s, code, es).db);
      }
    }
  }

  lemma AppliedOnceEach(db: Db)
    requires AtMostOnce(db)
    ensures forall v :: db.applied[v] <= 1
  {
    forall v
      ensures db.applied[v] <= 1
    {
      if v !in db.applied {
        assert db.applied[v] == 0;
      }
    }
  }

  // ----- The run that commits a version again

  /** A process that recognises nothing applies every version it has no record of, up to v. */
  lemma {:induction false} AppliesUpTo(s: Sys, code: nat -> Code, p: nat, v: nat) returns (es: seq<Event>)
    requires IsGoing(s, p) && !s.processes[p].unversioned && v !in s.processes[p].have
    requires 1 <= s.processes[p].next <= v <= |code(p)|
    ensures Runs(s, code, es) && After(s, code, es).db.applied[v] == s.db.applied[v] + 1
    decreases v - s.processes[p].next
  {
    var e := if s.processes[p].next in s.processes[p].have then Skip(p) else Apply(p);
    if s.processes[p].next == v {
      es := [e];
      OneStep(s, code, e);
    } else {
      var rest := AppliesUpTo(Step(s, code, e), code, p, v);
      es := [e] + rest;
      assert es[1..] == rest;
    }
  }

  lemma {:induction false} RunOn(s: Sys, code: nat -> Code, first: seq<Event>, more: seq<Event>)
    requires Runs(s, code, first) && Runs(After(s, code, first), code, more)
    ensures Runs(s, code, first + more)
    ensures After(s, code, first + more) == After(After(s, code, first), code, more)
    decreases |first|
  {
    if first == [] {
      assert first + more == more;
    } else {
      assert (first + more)[1..] == first[1..] + more;
      RunOn(Step(s, code, first[0]), code, first[1..], more);
    }
  }

  lemma OneStep(s: Sys, code: nat -> Code, e: Event)
    requires Enabled(s, code, e)
    ensures Runs(s, code, [e]) && After(s, code, [e]) == Step(s, code, e)
  {
    assert [e][1..] == [];
  }

  lemma TwoSteps(s: Sys, code: nat -> Code, e: Event, f: Event)
    requires Enabled(s, code, e) && Enabled(Step(s, code, e), code, f)
    ensures Runs(s, code, [e, f]) && After(s, code, [e, f]) == Step(Step(s, code, e), code, f)
  {
    OneStep(s, code, e);
    OneStep(Step(s, code, e), code, f);
    RunOn(s, code, [e], [f]);
    assert [e] + [f] == [e, f];
  }

  /** A process takes the lock and passes its checks. */
  lemma Starts(s: Sys, code: nat -> Code, p: nat) returns (es: seq<Event>)
    requires s.lock.None? && p in s.processes && !Refuses(s.db.records, code(p))
    ensures Runs(s, code, es)
    ensures var after := After(s, code, es);
            && after.db == s.db && after.lock == Some(p) && p in after.processes
            && after.processes[p] == Going(s.db.records, Unversioned(s.db), 1, [], [])
  {
    es := [Lock(p), Check(p, false)];
    TwoSteps(s, code, Lock(p), Check(p, false));
  }

  /** It dies after its first version, which it recognises or applies. */
  lemma DiesAfterFirst(s: Sys, code: nat -> Code, p: nat) returns (es: seq<Event>)
    requires s.lock.None? && p in s.processes && Unversioned(s.db) && |code(p)| >= 1
    ensures Runs(s, code, es)
    ensures var after := After(s, code, es);
            && after.lock.None? && p in after.processes && after.db.records == map[1 := code(p)[0]]
            && forall w | w != 1 :: after.db.applied[w] == s.db.applied[w]
  {
    var starts := Starts(s, code, p);
    var first := if 1 in s.db.applied then Recognise(p) else Apply(p);
    TwoSteps(After(s, code, starts), code, first, Crash(p));
    RunOn(s, code, starts, [first, Crash(p)]);
    es := starts + [first, Crash(p)];
  }

  /** A process that starts on a database with a record, or none and no tables, commits again
      the version it has no record of. */
  lemma AppliesAgain(s: Sys, code: nat -> Code, p: nat, v: nat) returns (es: seq<Event>)
    requires s.lock.None? && p in s.processes && !Refuses(s.db.records, code(p)) && !Unversioned(s.db)
    requires v !in s.db.records && 1 <= v <= |code(p)|
    ensures Runs(s, code, es) && After(s, code, es).db.applied[v] == s.db.applied[v] + 1
  {
    var starts := Starts(s, code, p);
    var again := AppliesUpTo(After(s, code, starts), code, p, v);
    RunOn(s, code, starts, again);
    es := starts + again;
  }

  lemma CommitsAgain(s: Sys, code: nat -> Code, v: nat) returns (es: seq<Event>)
    requires AtMostOnce(s.db) && s.lock.None? && Strandable(s, code, v)
    ensures Runs(s, code, es) && After(s, code, es).db.applied[v] == 2
  {
    var p :| p in s.processes && v <= |code(p)| && !Refuses(s.db.records, code(p));
    if Unversioned(s.db) {
      var dies := DiesAfterFirst(s, code, p);
      var after := After(s, code, dies);
      assert 1 in after.db.records;
      var again := AppliesAgain(after, code, p, v);
      RunOn(s, code, dies, again);
      es := dies + again;
    } else {
      es := AppliesAgain(s, code, p, v);
    }
  }

  /** A database from before versioned migrations, with versions 1 and 2; one process. */
  function Old(): Sys {
    Sys(Db(map[], multiset{1, 2}, true), map[0 := Out], None)
  }

  /** Its migration interrupted after the first version, the next start applies the second
      version again. */
  lemma StrandedAppliesTwice(code: nat -> Code)
    requires |code(0)| >= 2
    ensures exists es :: Runs(Old(), code, es) && After(Old(), code, es).db.applied[2] == 2
  {
    assert Strandable(Old(), code, 2);
    var es := CommitsAgain(Old(), code, 2);
  }

  // ----- One process, from its lock to its end

  function One(v: nat): multiset<nat> {
    multiset{v}
  }

  lemma Counted(done: seq<nat>, v: nat)
    ensures multiset(done + [v]) == multiset(done) + One(v)
  {
  }

  class Database {
    var records: map<nat, string>
    var applied: multiset<nat>
    var tables: bool

    constructor (records: map<nat, string>, applied: multiset<nat>, tables: bool)
      ensures Now() == Db(records, applied, tables)
    {
      this.records, this.applied, this.tables := records, applied, tables;
    }

    ghost function Now(): Db
      reads this
    {
      Db(records, applied, tables)
    }

    method VerifyRecords(known: Code) returns (ok: bool)
      ensures ok == !Refuses(records, known)
    {
      ok := (forall v | v in records :: v <= |known|)
            && (forall v | v in records :: 1 <= v <= |known| ==> records[v] == known[v - 1]);
    }

    method Record(v: nat, checksum: string)
      modifies this`records
      ensures records == old(records)[v := checksum]
    {
      records := records[v := checksum];
    }

    /** One version in one transaction: its effects and its record, or neither. */
    method ApplyOne(v: nat, checksum: string, fails: bool) returns (ok: bool)
      modifies this
      ensures ok == !fails
      ensures Now() == if fails then old(Now())
                       else Db(old(records)[v := checksum], old(applied) + multiset{v}, true)
    {
      if fails {
        return false;
      }
      applied, tables := applied + multiset{v}, true;
      Record(v, checksum);
      return true;
    }

    /** The body of `upgrade`, run under the lock: `fails` are the versions whose own check does
        not find their changes. */
    method Upgrade(known: Code, clusterChanged: bool, fails: set<nat>) returns (end: Process)
      requires Segment(records)
      modifies this
      ensures Segment(records) && (end.Refused? || end.Done? || end.Failed?)
      ensures end.Refused? <==> Refuses(old(records), known) || clusterChanged
      ensures end.Refused? ==> Now() == old(Now())
      ensures forall v | v in old(records) :: v in records && records[v] == old(records)[v]
      ensures end.Done? ==>
                && (forall v :: v in records <==> 1 <= v <= |known|)
                && (forall v | 1 <= v <= |known| :: records[v] == known[v - 1])
                && (forall v :: Handled(end.applied, end.recognised, v) <==> v in records && v !in old(records))
                && applied == old(applied) + multiset(end.applied)
                && (end.recognised != [] ==> old(records) == map[] && old(tables))
    {
      var ok := VerifyRecords(known);
      Passes(records, known);
      if !ok || clusterChanged {
        return Refused;
      }
      end := MigrateAll(known, records == map[] && tables, fails);
    }

    /** Every version from the first on. */
    method MigrateAll(known: Code, unversioned: bool, fails: set<nat>) returns (end: Process)
      requires Segment(records) && OnCourse(records, records, unversioned, 1, known)
      modifies this
      ensures Segment(records) && (end.Done? || end.Failed?)
      ensures forall v | v in old(records) :: v in records && records[v] == old(records)[v]
      ensures end.Done? ==>
                && OnCourse(records, old(records), unversioned, |known| + 1, known)
                && Reported(|old(records)|, unversioned, |known| + 1, end.applied, end.recognised)
                && applied == old(applied) + multiset(end.applied)
    {
      var have := records;
      ghost var first := applied;
      var done: seq<nat>, recognised: seq<nat> := [], [];
      for next := 1 to |known| + 1
        invariant Underway(have, first, unversioned, next, known, done, recognised)
      {
        var ok;
        ok, done, recognised := HandleNext(have, first, unversioned, next, known, fails, done, recognised);
        if !ok {
          return Failed;
        }
      }
      return Done(done, recognised);
    }

    ghost predicate Underway(have: map<nat, string>, first: multiset<nat>, unversioned: bool, next: nat, known: Code,
                             done: seq<nat>, recognised: seq<nat>)
      reads this
    {
      && Segment(records) && OnCourse(records, have, unversioned, next, known)
      && Reported(|have|, unversioned, next, done, recognised) && applied == first + multiset(done)
    }

    /** A version is recorded already, recognised, or applied. */
    method HandleNext(have: map<nat, string>, ghost first: multiset<nat>, unversioned: bool, next: nat, known: Code,
                      fails: set<nat>, done: seq<nat>, recognised: seq<nat>)
      returns (ok: bool, applying: seq<nat>, recognising: seq<nat>)
      requires Underway(have, first, unversioned, next, known, done, recognised) && 1 <= next <= |known|
      modifies this
      ensures ok ==> Underway(have, first, unversioned, next + 1, known, applying, recognising)
      ensures !ok ==> Now() == old(Now())
    {
      ok, applying, recognising := true, done, recognised;
      ReportOn(|have|, unversioned, next, done, recognised);
      if next in have {
        CourseSkips(records, have, unversioned, next, known);
        return;
      }
      CourseOn(records, have, unversioned, next, known);
      if unversioned && next in applied {
        Record(next, known[next - 1]);
        recognising := recognised + [next];
        return;
      }
      ok := ApplyOne(next, known[next - 1], next in fails);
      Counted(done, next);
      applying := done + [next];
    }
  }
}
