/**
 The slots of one worker loop (api/queue_loop.py:257-481): a kick claims and starts jobs while
 watcher threads report exits and a drain lets jobs go, each under the loop's lock.

 A kick is one thread at a time; `phase` is where it stands between two lock sections.  A
 process is known by a number of its own, given when it is started.
 */
module WorkerLoop {
  import opened Common
  import JobStore

  type JobId = JobStore.JobId

  type Process = nat

  datatype Phase =
    | Idle
    | Deciding
    | SlotSeen
    | Claimed(job: JobId)
    | Reserved(job: JobId)
    | Started(job: JobId, process: Process)

  /** `running`: the processes started whose exit has not been reported. */
  datatype State = State(handles: map<JobId, Option<Process>>, stopping: bool, phase: Phase,
                         running: map<Process, JobId>)

  datatype Event =
    | BeginKick
    | Decide
    | Claim(found: Option<JobId>)
    | Reserve
    | Spawn(process: Process)
    | SpawnFails
    | Record
    | Exit(process: Process)
    | LetGo(job: JobId)
    | Stop

  predicate HasSlot(s: State, max: int) {
    max <= 0 || |s.handles| < max
  }

  predicate Enabled(s: State, e: Event) {
    match e
    case BeginKick => s.phase.Idle?
    case Decide => s.phase.Deciding?
    case Claim(_) => s.phase.SlotSeen?
    case Reserve => s.phase.Claimed?
    case Spawn(p) => s.phase.Reserved? && p !in s.running
    case SpawnFails => s.phase.Reserved?
    case Record => s.phase.Started?
    case Exit(p) => p in s.running
    case LetGo(_) => true
    case Stop => true
  }

  function Step(s: State, max: int, e: Event): State
    requires Enabled(s, e)
  {
    match e
    case BeginKick => s.(phase := Deciding)
    case Decide => s.(phase := if HasSlot(s, max) && !s.stopping then SlotSeen else Idle)
    case Claim(job) => s.(phase := if job.Some? then Claimed(job.value) else Idle)
    case Reserve => s.(phase := Reserved(s.phase.job), handles := s.handles[s.phase.job := None])
    case Spawn(p) => s.(phase := Started(s.phase.job, p), running := s.running[p := s.phase.job])
    case SpawnFails => s.(phase := Deciding, handles := s.handles - {s.phase.job})
    case Record =>
      s.(phase := Deciding,
         handles := if s.phase.job in s.handles then s.handles[s.phase.job := Some(s.phase.process)] else s.handles)
    case Exit(p) => s.(handles := s.handles - {s.running[p]}, running := s.running - {p})
    case LetGo(job) => s.(handles := s.handles - {job})
    case Stop => s.(stopping := true)
  }

  /** The loop after `es`, from empty; an event that is not enabled does nothing. */
  function After(es: seq<Event>, max: int): State {
    if es == [] then State(map[], false, Idle, map[])
    else
      var before := After(es[..|es| - 1], max);
      if Enabled(before, Last(es)) then Step(before, max, Last(es)) else before
  }

  /** Each event is enabled where it happens. */
  predicate Runs(es: seq<Event>, max: int) {
    es == [] || (Runs(es[..|es| - 1], max) && Enabled(After(es[..|es| - 1], max), Last(es)))
  }

  /** The job a kick has reserved and not started yet. */
  function Pending(s: State): set<JobId> {
    if s.phase.Reserved? then {s.phase.job} else {}
  }

  ghost predicate WithinSlots(s: State, max: int) {
    max > 0 ==> |s.handles| <= max && (s.phase.SlotSeen? || s.phase.Claimed? ==> |s.handles| < max)
  }

  /** Every reserved slot is that of a running process, or of the one being started. */
  ghost predicate SlotsHeld(s: State) {
    forall job | job in s.handles :: job in s.running.Values + Pending(s)
  }

  lemma SlotCount(m: map<JobId, Option<Process>>, job: JobId, v: Option<Process>)
    ensures |m[job := v]| == if job in m then |m| else |m| + 1
    ensures |m - {job}| == if job in m then |m| - 1 else |m|
  {
    assert m[job := v].Keys == m.Keys + {job};
    assert (m - {job}).Keys == m.Keys - {job};
    Sizes(m);
    Sizes(m[job := v]);
    Sizes(m - {job});
  }

  lemma Sizes(m: map<JobId, Option<Process>>)
    ensures |m| == |m.Keys|
  {
  }

  lemma RunningAfter(running: map<Process, JobId>, p: Process, job: JobId)
    ensures p !in running ==> running[p := job].Values == running.Values + {job}
    ensures p in running ==> running.Values <= (running - {p}).Values + {running[p]}
  {
    var added := running[p := job];
    assert added[p] == job;
    forall x | x in running.Values && p !in running
      ensures x in added.Values
    {
      var q :| q in running && running[q] == x;
      assert added[q] == x;
    }
    forall x | x in running.Values && p in running && x != running[p]
      ensures x in (running - {p}).Values
    {
      var q :| q in running && running[q] == x;
      assert (running - {p})[q] == x;
    }
  }

  lemma StepKeeps(s: State, max: int, e: Event)
    requires Enabled(s, e) && WithinSlots(s, max) && SlotsHeld(s)
    ensures WithinSlots(Step(s, max, e), max) && SlotsHeld(Step(s, max, e))
  {
    match e
    case Reserve => SlotCount(s.handles, s.phase.job, None);
    case SpawnFails => SlotCount(s.handles, s.phase.job, None);
    case Spawn(p) => RunningAfter(s.running, p, s.phase.job);
    case Record => SlotCount(s.handles, s.phase.job, Some(s.phase.process));
    case Exit(p) =>
      SlotCount(s.handles, s.running[p], None);
      RunningAfter(s.running, p, s.running[p]);
    case LetGo(job) => SlotCount(s.handles, job, None);
    case _ =>
  }

  /** However kicks, exits, drains and stops interleave, the loop never holds more slots than
      it has; and when no kick is in progress and every started process has reported its exit,
      even before its start was recorded, it holds none. */
  lemma {:induction false} SlotsAreBoundedAndReturned(es: seq<Event>, max: int)
    requires Runs(es, max)
    ensures WithinSlots(After(es, max), max) && SlotsHeld(After(es, max))
    ensures After(es, max).phase.Idle? && After(es, max).running == map[] ==> After(es, max).handles == map[]
  {
    if es != [] {
      SlotsAreBoundedAndReturned(es[..|es| - 1], max);
      StepKeeps(After(es[..|es| - 1], max), max, Last(es));
    }
    if After(es, max).phase.Idle? {
      NothingHeld(After(es, max));
    }
  }

  // ----- How many processes run

  /** The slots are just the running jobs, one process each, and the one being started. */
  ghost predicate OneEach(s: State) {
    && (forall p, q | p in s.running && q in s.running && p != q :: s.running[p] != s.running[q])
    && s.handles.Keys == s.running.Values + Pending(s)
    && Pending(s) !! s.running.Values
    && (s.phase.Claimed? ==> s.phase.job !in s.running.Values)
  }

  /** Until the loop is stopped, no claim takes a job whose process still runs, and no job that
      holds a slot is let go of. */
  predicate TakesNew(s: State, e: Event) {
    match e
    case Claim(found) => s.stopping || found.None? || found.value !in s.running.Values
    case LetGo(job) => s.stopping || job !in s.handles
    case _ => true
  }

  lemma OneEachStep(s: State, max: int, e: Event)
    requires Enabled(s, e) && OneEach(s) && TakesNew(s, e) && !s.stopping
    ensures OneEach(Step(s, max, e))
  {
    match e
    case Spawn(p) => OneEachSpawn(s, max, p);
    case Exit(p) => OneEachExit(s, max, p);
    case LetGo(job) => assert s.handles - {job} == s.handles;
    case _ =>
  }

  lemma OneEachSpawn(s: State, max: int, p: Process)
    requires Enabled(s, Spawn(p)) && OneEach(s)
    ensures OneEach(Step(s, max, Spawn(p)))
  {
    RunningAfter(s.running, p, s.phase.job);
    assert forall q | q in s.running :: s.running[q] in s.running.Values;
  }

  lemma OneEachExit(s: State, max: int, p: Process)
    requires Enabled(s, Exit(p)) && OneEach(s)
    ensures OneEach(Step(s, max, Exit(p)))
  {
    RunningAfter(s.running, p, s.running[p]);
    assert s.running[p] in s.running.Values;
    forall x | x in (s.running - {p}).Values
      ensures x in s.running.Values && x != s.running[p]
    {
      var q :| q in s.running - {p} && (s.running - {p})[q] == x;
      assert s.running[q] == x;
    }
  }

  lemma {:induction false} AsManyProcesses(running: map<Process, JobId>)
    requires forall p, q | p in running && q in running && p != q :: running[p] != running[q]
    ensures |running| == |running.Values|
  {
    if running == map[] {
      assert running.Values == {};
    } else {
      var p :| p in running;
      var rest := running - {p};
      forall q, q' | q in rest && q' in rest && q != q'
        ensures rest[q] != rest[q']
      {
      }
      AsManyProcesses(rest);
      assert rest.Keys == running.Keys - {p};
      assert running.Values == rest.Values + {running[p]} by {
        RunningAfter(running, p, running[p]);
        assert running[p] in running.Values;
        forall x | x in rest.Values
          ensures x in running.Values
        {
          var q :| q in rest && rest[q] == x;
          assert running[q] == x;
        }
      }
      assert running[p] !in rest.Values;
    }
  }

  /** The processes that run, with the one a kick has seen a slot for. */
  function Taken(s: State): nat {
    |s.running| + if s.phase.SlotSeen? || s.phase.Claimed? || s.phase.Reserved? then 1 else 0
  }

  /** A kick that was under way when the loop was stopped still has its slot. */
  ghost predicate Bounded(s: State, max: int) {
    && WithinSlots(s, max) && SlotsHeld(s)
    && (max > 0 ==> Taken(s) <= max)
    && (!s.stopping ==> OneEach(s))
  }

  lemma AsManySlots(s: State)
    requires OneEach(s) && !s.phase.Reserved?
    ensures |s.running| == |s.handles|
  {
    AsManyProcesses(s.running);
    assert s.handles.Keys == s.running.Values;
    Sizes(s.handles);
  }

  lemma ProcessCount(running: map<Process, JobId>, p: Process, job: JobId)
    ensures p !in running ==> |running[p := job]| == |running| + 1
    ensures p in running ==> |running - {p}| == |running| - 1
  {
    assert running[p := job].Keys == running.Keys + {p};
    assert (running - {p}).Keys == running.Keys - {p};
    ProcessSizes(running);
    ProcessSizes(running[p := job]);
    ProcessSizes(running - {p});
  }

  lemma ProcessSizes(running: map<Process, JobId>)
    ensures |running| == |running.Keys|
  {
  }

  lemma TakenStep(s: State, max: int, e: Event)
    requires Enabled(s, e) && Bounded(s, max) && TakesNew(s, e) && max > 0
    ensures Taken(Step(s, max, e)) <= max
  {
    if e.Decide? {
      if !s.stopping {
        AsManySlots(s);
      }
    } else if e.Spawn? {
      ProcessCount(s.running, e.process, s.phase.job);
    } else if e.Exit? {
      ProcessCount(s.running, e.process, s.running[e.process]);
    } else {
      TakenNoMore(s, max, e);
    }
  }

  lemma TakenNoMore(s: State, max: int, e: Event)
    requires Enabled(s, e) && !e.Decide? && !e.Spawn? && !e.Exit?
    ensures Taken(Step(s, max, e)) <= Taken(s)
  {
  }

  lemma BoundedStep(s: State, max: int, e: Event)
    requires Enabled(s, e) && Bounded(s, max) && TakesNew(s, e)
    ensures Bounded(Step(s, max, e), max)
  {
    StepKeeps(s, max, e);
    if max > 0 {
      TakenStep(s, max, e);
    }
    if !s.stopping {
      OneEachStep(s, max, e);
    }
  }

  /** From its `n`-th event on, a run takes no job a second time, and lets none go too early. */
  predicate NewFrom(es: seq<Event>, n: nat, max: int) {
    forall i | n <= i < |es| :: TakesNew(After(es[..i], max), es[i])
  }

  /** Then at most as many processes run as there are slots. */
  lemma {:induction false} RunningWithinSlots(es: seq<Event>, max: int)
    requires Runs(es, max) && NewFrom(es, 0, max)
    ensures Bounded(After(es, max), max)
    ensures max > 0 ==> |After(es, max).running| <= max
  {
    if es != [] {
      var n := |es| - 1;
      assert forall i | 0 <= i < n :: es[..n][..i] == es[..i];
      RunningWithinSlots(es[..n], max);
      BoundedStep(After(es[..n], max), max, Last(es));
    }
  }

  // ----- And only then

  lemma Extend(es: seq<Event>, max: int, e: Event)
    requires Runs(es, max) && Enabled(After(es, max), e)
    ensures Runs(es + [e], max) && After(es + [e], max) == Step(After(es, max), max, e)
  {
    assert (es + [e])[..|es|] == es;
  }

  lemma NewOn(es: seq<Event>, n: nat, max: int, e: Event)
    requires n <= |es| && NewFrom(es, n, max) && TakesNew(After(es, max), e)
    ensures NewFrom(es + [e], n, max)
  {
    assert (es + [e])[..|es|] == es;
    assert forall i | n <= i < |es| :: (es + [e])[..i] == es[..i];
  }

  /** `fs` goes on from `es`, past its `n`-th event, and takes no job a second time. */
  ghost predicate GoesOn(es: seq<Event>, fs: seq<Event>, n: nat, max: int) {
    n <= |es| && es <= fs && Runs(fs, max) && NewFrom(fs, n, max)
  }

  lemma OneMore(es: seq<Event>, fs: seq<Event>, n: nat, max: int, e: Event) returns (gs: seq<Event>)
    requires GoesOn(es, fs, n, max) && Enabled(After(fs, max), e) && TakesNew(After(fs, max), e)
    ensures GoesOn(es, gs, n, max) && After(gs, max) == Step(After(fs, max), max, e)
  {
    gs := fs + [e];
    Extend(fs, max, e);
    NewOn(fs, n, max, e);
  }

  lemma {:induction false} FreshJob(jobs: set<JobId>) returns (job: JobId)
    ensures job !in jobs && forall x | x in jobs :: |x.text| < |job.text|
  {
    if jobs == {} {
      job := JobStore.JobId("");
    } else {
      var x :| x in jobs;
      var unused := FreshJob(jobs - {x});
      job := JobStore.JobId(unused.text + x.text + "+");
    }
  }

  lemma {:induction false} FreshProcess(processes: set<Process>) returns (p: Process)
    ensures p !in processes && forall q | q in processes :: q < p
  {
    if processes == {} {
      p := 0;
    } else {
      var q :| q in processes;
      var unused := FreshProcess(processes - {q});
      p := unused + q + 1;
      assert forall r | r in processes :: r in processes - {q} || r == q;
    }
  }

  /** More processes run than hold a slot, once the kick in progress has come to its end. */
  predicate Over(s: State) {
    |s.running| >= |s.handles| + if s.phase.Reserved? || (s.phase.Claimed? && s.phase.job in s.handles) then 0 else 1
  }

  /** What brings a kick to its end: a start that fails, unless its slot was let go of. */
  function Ending(s: State, unused: Process): Event
    requires !s.phase.Idle?
  {
    match s.phase
    case Deciding => Decide
    case SlotSeen => Claim(None)
    case Claimed(_) => Reserve
    case Reserved(job) => if job in s.handles then SpawnFails else Spawn(unused)
    case Started(_, _) => Record
  }

  function Rank(phase: Phase): nat {
    match phase
    case Idle => 0
    case SlotSeen => 1
    case Deciding => 2
    case Started(_, _) => 3
    case Reserved(_) => 4
    case Claimed(_) => 5
  }

  lemma StartKeepsOver(s: State, max: int, e: Event)
    requires Enabled(s, e) && Over(s)
    requires || e.Reserve?
             || (e.Spawn? && s.phase.job !in s.handles)
             || (e.SpawnFails? && s.phase.job in s.handles)
    ensures Over(Step(s, max, e))
  {
    SlotCount(s.handles, s.phase.job, None);
    if e.Spawn? {
      ProcessCount(s.running, e.process, s.phase.job);
    }
  }

  lemma EndingKeepsOver(s: State, max: int, unused: Process)
    requires !s.phase.Idle? && Over(s) && unused !in s.running
    ensures var e := Ending(s, unused);
            && Enabled(s, e) && TakesNew(s, e) && Over(Step(s, max, e)) && Rank(Step(s, max, e).phase) < Rank(s.phase)
            && Step(s, max, e).stopping == s.stopping
  {
    var e := Ending(s, unused);
    match s.phase
    case Claimed(_) => StartKeepsOver(s, max, e);
    case Reserved(_) => StartKeepsOver(s, max, e);
    case Started(job, p) => SlotCount(s.handles, job, Some(p));
    case _ =>
  }

  lemma {:induction false} Settle(es: seq<Event>, fs: seq<Event>, n: nat, max: int) returns (gs: seq<Event>)
    requires GoesOn(es, fs, n, max) && Over(After(fs, max)) && !After(fs, max).stopping
    ensures GoesOn(es, gs, n, max) && Over(After(gs, max)) && After(gs, max).phase.Idle? && !After(gs, max).stopping
    decreases Rank(After(fs, max).phase)
  {
    var s := After(fs, max);
    if s.phase.Idle? {
      gs := fs;
    } else {
      var unused := FreshProcess(s.running.Keys);
      EndingKeepsOver(s, max, unused);
      gs := OneMore(es, fs, n, max, Ending(s, unused));
      gs := Settle(es, gs, n, max);
    }
  }

  /** A kick claims a job that is nowhere else. */
  lemma ClaimNew(es: seq<Event>, fs: seq<Event>, n: nat, max: int) returns (gs: seq<Event>, job: JobId)
    requires GoesOn(es, fs, n, max)
    requires var s := After(fs, max); s.phase.Idle? && !s.stopping && HasSlot(s, max)
    ensures GoesOn(es, gs, n, max) && job !in After(fs, max).handles
    ensures After(gs, max) == After(fs, max).(phase := Claimed(job))
  {
    var s := After(fs, max);
    job := FreshJob(s.handles.Keys + s.running.Values);
    gs := OneMore(es, fs, n, max, BeginKick);
    gs := OneMore(es, gs, n, max, Decide);
    gs := OneMore(es, gs, n, max, Claim(Some(job)));
  }

  /** The queue is empty, or there is no slot. */
  lemma FindsNone(es: seq<Event>, fs: seq<Event>, n: nat, max: int) returns (gs: seq<Event>)
    requires GoesOn(es, fs, n, max) && After(fs, max).phase.Deciding?
    ensures GoesOn(es, gs, n, max) && After(gs, max) == After(fs, max).(phase := Idle)
  {
    gs := OneMore(es, fs, n, max, Decide);
    if After(gs, max).phase.SlotSeen? {
      gs := OneMore(es, gs, n, max, Claim(None));
    }
  }

  /** It starts the job, and finds the queue empty. */
  lemma StartOne(es: seq<Event>, fs: seq<Event>, n: nat, max: int) returns (gs: seq<Event>)
    requires GoesOn(es, fs, n, max)
    requires var s := After(fs, max); s.phase.Idle? && !s.stopping && HasSlot(s, max) && Over(s)
    ensures GoesOn(es, gs, n, max) && Over(After(gs, max)) && After(gs, max).phase.Idle? && !After(gs, max).stopping
    ensures |After(gs, max).handles| == |After(fs, max).handles| + 1
  {
    var s, job := After(fs, max), JobStore.JobId("");
    gs, job := ClaimNew(es, fs, n, max);
    var p := FreshProcess(s.running.Keys);
    gs := OneMore(es, gs, n, max, Reserve);
    gs := OneMore(es, gs, n, max, Spawn(p));
    gs := OneMore(es, gs, n, max, Record);
    SlotCount(s.handles, job, None);
    SlotCount(s.handles[job := None], job, Some(p));
    ProcessCount(s.running, p, job);
    gs := FindsNone(es, gs, n, max);
  }

  /** New jobs fill the slots that are left. */
  lemma {:induction false} FillUp(es: seq<Event>, fs: seq<Event>, n: nat, max: int) returns (gs: seq<Event>)
    requires GoesOn(es, fs, n, max) && max > 0
    requires var s := After(fs, max); s.phase.Idle? && !s.stopping && Over(s)
    ensures GoesOn(es, gs, n, max) && |After(gs, max).running| > max
    decreases max - |After(fs, max).handles|
  {
    if HasSlot(After(fs, max), max) {
      gs := StartOne(es, fs, n, max);
      gs := FillUp(es, gs, n, max);
    } else {
      gs := fs;
    }
  }

  lemma TooEarlyIsOver(s: State, max: int, e: Event)
    requires Enabled(s, e) && OneEach(s) && !TakesNew(s, e)
    ensures Over(Step(s, max, e)) && !Step(s, max, e).stopping
  {
    match e
    case Claim(found) => AsManySlots(s);
    case LetGo(job) =>
      SlotCount(s.handles, job, None);
      AsManyProcesses(s.running);
      SlotsOf(s);
    case _ =>
  }

  lemma SlotsOf(s: State)
    requires OneEach(s)
    ensures |s.handles| == |s.running.Values| + |Pending(s)|
  {
    Sizes(s.handles);
  }

  /** Wherever a run that keeps to this has come to, one event more can lead to more processes
      than there are slots, the run keeping to it afterwards, exactly when that event does not:
      when, the loop not stopped, it claims a job whose process still runs, or lets go of a job
      that holds a slot. */
  lemma ExceedsIff(es: seq<Event>, max: int, e: Event)
    requires max > 0 && Runs(es, max) && NewFrom(es, 0, max) && Enabled(After(es, max), e)
    ensures (exists fs :: GoesOn(es + [e], fs, |es| + 1, max) && |After(fs, max).running| > max) <==>
              !TakesNew(After(es, max), e)
  {
    var next := es + [e];
    Extend(es, max, e);
    RunningWithinSlots(es, max);
    if TakesNew(After(es, max), e) {
      NewOn(es, 0, max, e);
      forall fs | GoesOn(next, fs, |es| + 1, max)
        ensures |After(fs, max).running| <= max
      {
        assert forall i | 0 <= i <= |es| :: fs[..i] == next[..i];
        RunningWithinSlots(fs, max);
      }
    } else {
      TooEarlyIsOver(After(es, max), max, e);
      var fs := Settle(next, next, |es| + 1, max);
      fs := FillUp(next, fs, |es| + 1, max);
    }
  }

  /** The bound on slots is none on processes: a loop of two slots whose job is requeued by its
      expired lease claims it again into the slot it has, and runs three processes. */
  lemma RunningCanExceed(job: JobId)
    ensures exists es :: Runs(es, 2) && |After(es, 2).running| > 2
  {
    var es: seq<Event> := [];
    es := OneMore([], es, 0, 2, BeginKick);
    es := OneMore([], es, 0, 2, Decide);
    es := OneMore([], es, 0, 2, Claim(Some(job)));
    es := OneMore([], es, 0, 2, Reserve);
    es := OneMore([], es, 0, 2, Spawn(0));
    es := OneMore([], es, 0, 2, Record);
    es := OneMore([], es, 0, 2, Decide);
    assert After(es, 2).running[0] == job;
    ExceedsIff(es, 2, Claim(Some(job)));
  }

  // ----- The loop itself

  /** What other threads do under the lock while a kick is in progress. */
  predicate FromOutside(e: Event) {
    e.Exit? || e.LetGo? || e.Stop?
  }

  /** The processes started for the claims are all different. */
  ghost predicate OwnProcesses(claims: seq<(JobId, Option<Process>)>) {
    forall i, j | 0 <= i < j < |claims| && claims[i].1.Some? :: claims[i].1 != claims[j].1
  }

  /** Those for the claims from `i` on are not running. */
  ghost predicate Unstarted(claims: seq<(JobId, Option<Process>)>, i: nat, running: set<Process>) {
    forall j | i <= j < |claims| && claims[j].1.Some? :: claims[j].1.value !in running
  }

  lemma StillUnstarted(claims: seq<(JobId, Option<Process>)>, i: nat, before: set<Process>, running: set<Process>)
    requires OwnProcesses(claims) && Unstarted(claims, i, before) && i < |claims|
    requires running <= before + (if claims[i].1.Some? then {claims[i].1.value} else {})
    ensures Unstarted(claims, i + 1, running)
  {
  }

  class WorkerLoop {
    const max: int
    var handles: map<JobId, Option<Process>>
    var stopping: bool
    ghost var phase: Phase
    var running: map<Process, JobId>

    ghost function Now(): State
      reads this
    {
      State(handles, stopping, phase, running)
    }

    ghost predicate Valid()
      reads this
    {
      WithinSlots(Now(), max) && SlotsHeld(Now())
    }

    constructor (max: int)
      ensures Valid() && Now() == State(map[], false, Idle, map[]) && this.max == max
    {
      this.max := max;
      handles, stopping, phase, running := map[], false, Idle, map[];
    }

    method TestSlot() returns (go: bool)
      requires Valid() && phase.Deciding?
      modifies this`phase
      ensures Valid() && Now() == Step(old(Now()), max, Decide) && phase == if go then SlotSeen else Idle
    {
      StepKeeps(Now(), max, Decide);
      go := (max <= 0 || |handles| < max) && !stopping;
      phase := if go then SlotSeen else Idle;
    }

    method ReserveSlot(job: JobId)
      requires Valid() && phase == Claimed(job)
      modifies this`handles, this`phase
      ensures Valid() && Now() == Step(old(Now()), max, Reserve) && phase == Reserved(job)
    {
      StepKeeps(Now(), max, Reserve);
      handles := handles[job := None];
      phase := Reserved(job);
    }

    /** Absent means the watcher already reported the exit: keep it gone. */
    method RecordStart(job: JobId, p: Process)
      requires Valid() && phase == Started(job, p)
      modifies this`handles, this`phase
      ensures Valid() && Now() == Step(old(Now()), max, Record) && phase == Deciding
    {
      ghost var after := Step(Now(), max, Record);
      StepKeeps(Now(), max, Record);
      if job in handles {
        handles := handles[job := Some(p)];
      }
      phase := Deciding;
      assert Now() == after;
    }

    method ForgetFailed(job: JobId)
      requires Valid() && phase == Reserved(job)
      modifies this`handles, this`phase
      ensures Valid() && Now() == Step(old(Now()), max, SpawnFails) && phase == Deciding
    {
      ghost var after := Step(Now(), max, SpawnFails);
      StepKeeps(Now(), max, SpawnFails);
      handles := handles - {job};
      phase := Deciding;
      assert Now() == after;
    }

    /** A watcher reports that a process has ended. */
    method OnExit(p: Process)
      requires Valid() && p in running
      modifies this`handles, this`running
      ensures Valid() && Now() == Step(old(Now()), max, Exit(p))
    {
      ghost var after := Step(Now(), max, Exit(p));
      StepKeeps(Now(), max, Exit(p));
      handles := handles - {running[p]};
      running := running - {p};
      assert Now() == after;
    }

    /** The first part of `terminate_and_requeue`. */
    method Release(job: JobId) returns (handle: Option<Process>)
      requires Valid()
      modifies this`handles
      ensures Valid() && Now() == Step(old(Now()), max, LetGo(job))
      ensures handle == if job in old(handles) then old(handles)[job] else None
    {
      StepKeeps(Now(), max, LetGo(job));
      handle := if job in handles then handles[job] else None;
      handles := handles - {job};
    }

    /** Another thread's lock section. */
    method Other(e: Event)
      requires Valid() && FromOutside(e)
      modifies this`handles, this`stopping, this`running
      ensures Valid() && running.Keys <= old(running).Keys
      ensures Now() == if Enabled(old(Now()), e) then Step(old(Now()), max, e) else old(Now())
    {
      match e {
        case LetGo(job) =>
          var _ := Release(job);
        case Stop =>
          stopping := true;
        case Exit(p) =>
          if p in running {
            OnExit(p);
          }
      }
    }

    /** Other threads, between two lock sections of a kick. */
    method Others(es: seq<Event>)
      requires Valid() && forall e | e in es :: FromOutside(e)
      modifies this`handles, this`stopping, this`running
      ensures Valid() && running.Keys <= old(running).Keys
    {
      for i := 0 to |es|
        invariant Valid() && running.Keys <= old(running).Keys
      {
        assert es[i] in es;
        Other(es[i]);
      }
    }

    /** Start a claimed job: reserve its slot, start its process, record it. */
    method StartClaimed(job: JobId, process: Option<Process>, others: nat -> seq<Event>) returns (started: bool)
      requires Valid() && phase == Claimed(job) && (process.Some? ==> process.value !in running)
      requires forall n, e | e in others(n) :: FromOutside(e)
      modifies this
      ensures Valid() && phase == Deciding && started == process.Some?
      ensures running.Keys <= old(running).Keys + (if process.Some? then {process.value} else {})
    {
      ReserveSlot(job);
      Others(others(0));
      started := process.Some?;
      if started {
        StartProcess(job, process.value);
        Others(others(1));
        RecordStart(job, process.value);
      } else {
        ForgetFailed(job);
      }
    }

    /** See a slot, and claim the next job the queue gives up, if any. */
    method ClaimOne(next: Option<JobId>, others: nat -> seq<Event>) returns (found: Option<JobId>)
      requires Valid() && phase == Deciding
      requires forall n, e | e in others(n) :: FromOutside(e)
      modifies this
      ensures Valid() && running.Keys <= old(running).Keys
      ensures found.Some? ==> found == next && phase == Claimed(found.value)
      ensures found.None? ==> phase == Idle
    {
      Others(others(2));
      var go := TestSlot();
      if !go {
        return None;
      }
      Others(others(3));
      if next.None? {
        phase := Idle;
        return None;
      }
      phase := Claimed(next.value);
      Others(others(4));
      return next;
    }

    /** Claim and start jobs while there is a slot.  `claims` are the jobs the queue gives up,
        each with the process started for it, if its start succeeds; `others` is what other
        threads do before each lock section. */
    method Kick(claims: seq<(JobId, Option<Process>)>, others: nat -> nat -> seq<Event>) returns (started: nat)
      requires Valid() && phase.Idle?
      requires forall n, m, e | e in others(n)(m) :: FromOutside(e)
      requires OwnProcesses(claims) && Unstarted(claims, 0, running.Keys)
      modifies this
      ensures Valid() && phase.Idle? && started <= |claims|
      ensures max > 0 ==> |handles| <= max
      ensures running == map[] ==> handles == map[]
    {
      started := 0;
      var i := 0;
      phase := Deciding;
      while true
        invariant Valid() && phase == Deciding && started <= i <= |claims|
        invariant Unstarted(claims, i, running.Keys)
        decreases |claims| - i
      {
        ghost var before := running.Keys;
        var found := ClaimOne(if i < |claims| then Some(claims[i].0) else None, others(i));
        if found.None? {
          break;
        }
        var ok := StartClaimed(claims[i].0, claims[i].1, others(i));
        StillUnstarted(claims, i, before, running.Keys);
        started := started + if ok then 1 else 0;
        i := i + 1;
      }
      NothingHeld(Now());
    }

    method StartProcess(job: JobId, p: Process)
      requires Valid() && phase == Reserved(job) && p !in running
      modifies this`running, this`phase
      ensures Valid() && Now() == Step(old(Now()), max, Spawn(p))
      ensures phase == Started(job, p) && running == old(running)[p := job]
    {
      StepKeeps(Now(), max, Spawn(p));
      running := running[p := job];
      phase := Started(job, p);
    }
  }

  lemma NothingHeld(s: State)
    requires SlotsHeld(s) && s.phase.Idle?
    ensures s.running == map[] ==> s.handles == map[]
  {
    if s.running == map[] {
      assert forall job | job in s.handles :: job in s.running.Values;
      assert s.handles.Keys == {};
    }
  }
}
