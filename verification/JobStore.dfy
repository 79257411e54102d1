/**
 The `jobs` table as the worker loops and the API processes share it (api/queue_loop.py:84-196,
 467-486; api/worker.py:76-83, 111-187, 948-985, 1042-1050, 1407-1420; api/db.py:193-200).

 Every SQL statement, and every transaction, is one atomic step.  A step is an event on a row:
 `Applies` is its WHERE clause, `Changed` what it writes.
 */
module JobStore {
  import opened Common

  datatype JobId = JobId(text: string)

  datatype Worker = Worker(name: string)

  datatype Status = Queued | Processing | ForReview | Completed | Failed

  datatype Verdict = Validated | Invalid | Unverified

  /** The review rows of a job: what a build reads. */
  datatype Contents = Contents(rows: seq<string>)

  /** What one build makes. */
  datatype Package = Package(bundle: string, ledger: Option<string>, verdict: Option<Verdict>,
                             errors: Option<string>, record: string)

  datatype Row = Row(
    created: nat, status: Status, worker: Option<Worker>, heartbeat: Option<nat>,
    reviewRevision: nat, contents: Contents,
    bundle: Option<string>, ledger: Option<string>, verdict: Option<Verdict>, errors: Option<string>,
    record: Option<string>, builtFrom: Option<nat>)

  datatype Event =
    | Claim(worker: Worker, now: nat)
    | Requeue(cutoff: Option<nat>)
    | Heartbeat(worker: Worker, now: nat)
    | Drain(worker: Worker)
    | SetStatus(status: Status)
    | Finalize(status: Status, owner: Option<Worker>, package: Option<Package>)
    | Edit(contents: Contents)
    | Publish(built: Package, revision: nat, quick: bool)
    | CompleteStored(revision: nat)

  predicate Applies(r: Row, e: Event) {
    match e
    case Claim(_, _) => r.status == Queued
    case Requeue(cutoff) =>
      r.status == Processing && (cutoff.None? || r.heartbeat.None? || r.heartbeat.value < cutoff.value)
    case Heartbeat(w, _) => r.status == Processing && r.worker == Some(w)
    case Drain(w) => r.status == Processing && r.worker == Some(w)
    case SetStatus(_) => true
    case Finalize(_, owner, _) => owner.None? || r.worker == owner
    case Edit(_) => true
    case Publish(_, revision, _) => r.builtFrom.None? || r.builtFrom.value <= revision
    case CompleteStored(revision) =>
      r.builtFrom.Some? && r.builtFrom.value > revision && r.verdict != Some(Invalid)
  }

  /** The row with all that describes a build, from one package. */
  function Holding(r: Row, p: Package, revision: nat): Row {
    r.(bundle := Some(p.bundle), ledger := p.ledger, verdict := p.verdict, errors := p.errors,
       record := Some(p.record), builtFrom := Some(revision))
  }

  function PublishedStatus(before: Status, p: Package, quick: bool): Status {
    if !quick && p.verdict != Some(Invalid) then Completed
    else if p.verdict == Some(Invalid) && before == Completed then ForReview
    else before
  }

  function Changed(r: Row, e: Event): Row {
    match e
    case Claim(w, now) => r.(status := Processing, worker := Some(w), heartbeat := Some(now))
    case Requeue(_) => r.(status := Queued, worker := None, heartbeat := None)
    case Heartbeat(_, now) => r.(heartbeat := Some(now))
    case Drain(_) => r.(status := Queued, worker := None, heartbeat := None)
    case SetStatus(s) => r.(status := s)
    case Finalize(s, _, package) =>
      (if package.Some? then Holding(r, package.value, r.reviewRevision) else r).(status := s)
    case Edit(c) => r.(contents := c, reviewRevision := r.reviewRevision + 1)
    case Publish(p, revision, quick) => Holding(r, p, revision).(status := PublishedStatus(r.status, p, quick))
    case CompleteStored(_) => r.(status := Completed)
  }

  function Step(r: Row, e: Event): Row {
    if Applies(r, e) then Changed(r, e) else r
  }

  type Jobs = map<JobId, Row>

  /** The table after `e` on one job: a job that is not there stays away. */
  function After(jobs: Jobs, id: JobId, e: Event): Jobs {
    if id in jobs then jobs[id := Step(jobs[id], e)] else jobs
  }

  predicate AppliesTo(jobs: Jobs, id: JobId, e: Event) {
    id in jobs && Applies(jobs[id], e)
  }

  /** What `_stored_newer_build` answers. */
  datatype Stored = Gone | Refused(errors: Option<string>) | Stands(bundle: Option<string>)

  /** What another process does to the table in one step; ids are never used again. */
  datatype Act = On(id: JobId, event: Event) | Erase(id: JobId)

  function AfterAct(jobs: Jobs, a: Act): Jobs {
    match a
    case On(id, e) => After(jobs, id, e)
    case Erase(id) => jobs - {id}
  }

  function AfterAll(jobs: Jobs, acts: seq<Act>): Jobs {
    if acts == [] then jobs else AfterAct(AfterAll(jobs, acts[..|acts| - 1]), Last(acts))
  }

  class Store {
    var jobs: Jobs

    constructor ()
      ensures jobs == map[]
    {
      jobs := map[];
    }

    /** The oldest queued job. */
    method SelectQueued() returns (found: Option<JobId>)
      ensures found.None? <==> forall id | id in jobs :: jobs[id].status != Queued
      ensures found.Some? ==>
                && found.value in jobs && jobs[found.value].status == Queued
                && forall id | id in jobs && jobs[id].status == Queued :: jobs[found.value].created <= jobs[id].created
    {
      found := None;
      var rest := jobs.Keys;
      while rest != {}
        invariant rest <= jobs.Keys
        invariant found.None? <==> forall id | id in jobs && id !in rest :: jobs[id].status != Queued
        invariant found.Some? ==>
            && found.value in jobs && jobs[found.value].status == Queued
            && forall id | id in jobs && id !in rest && jobs[id].status == Queued ::
                 jobs[found.value].created <= jobs[id].created
      {
        var id :| id in rest;
        rest := rest - {id};
        if jobs[id].status == Queued && (found.None? || jobs[id].created < jobs[found.value].created) {
          found := Some(id);
        }
      }
    }

    /** The conditional UPDATE of a claim. */
    method TryClaim(id: JobId, w: Worker, now: nat) returns (won: bool)
      modifies this
      ensures jobs == After(old(jobs), id, Claim(w, now)) && won == AppliesTo(old(jobs), id, Claim(w, now))
    {
      won := id in jobs && jobs[id].status == Queued;
      if won {
        jobs := jobs[id := jobs[id].(status := Processing, worker := Some(w), heartbeat := Some(now))];
      }
    }

    /** What other processes do in between, whatever it is. */
    method Others(acts: seq<Act>)
      modifies this
      ensures jobs == AfterAll(old(jobs), acts)
    {
      for i := 0 to |acts|
        invariant jobs == AfterAll(old(jobs), acts[..i])
      {
        assert acts[..i + 1][..i] == acts[..i];
        jobs := AfterAct(jobs, acts[i]);
      }
      assert acts[..|acts|] == acts;
    }

    const MAX_CLAIM_ATTEMPTS := 10

    /** Claim the oldest queued job: a lost race is tried again, a job whose upload is gone
        fails and is skipped.  `rivals` is what others do between each SELECT and its UPDATE. */
    method ClaimNextQueued(w: Worker, now: nat, uploaded: set<JobId>, rivals: nat -> seq<Act>)
      returns (claimed: Option<JobId>, ghost attempts: nat)
      modifies this
      ensures claimed.Some? ==>
                && claimed.value in uploaded && claimed.value in jobs
                && jobs[claimed.value].status == Processing && jobs[claimed.value].worker == Some(w)
      ensures claimed.None? && attempts < MAX_CLAIM_ATTEMPTS ==>
                forall id | id in jobs :: jobs[id].status != Queued
    {
      claimed, attempts := None, 0;
      for i := 0 to MAX_CLAIM_ATTEMPTS
        invariant attempts == i
      {
        var found := SelectQueued();
        if found.None? {
          return;
        }
        attempts := i + 1;
        Others(rivals(i));
        var won := TryClaim(found.value, w, now);
        if won {
          if found.value in uploaded {
            claimed := found;
            return;
          }
          SetJobStatus(found.value, Failed);
        }
      }
    }

    /** One UPDATE over every orphaned job; `cutoff` is None for the unconditional one. */
    method RequeueOrphans(cutoff: Option<nat>) returns (requeued: set<JobId>)
      modifies this
      ensures jobs.Keys == old(jobs).Keys
      ensures forall id | id in jobs :: jobs[id] == Step(old(jobs)[id], Requeue(cutoff))
      ensures forall id :: id in requeued <==> AppliesTo(old(jobs), id, Requeue(cutoff))
    {
      requeued := {};
      var rest := jobs.Keys;
      while rest != {}
        invariant rest <= jobs.Keys == old(jobs).Keys
        invariant forall id | id in rest :: jobs[id] == old(jobs)[id]
        invariant forall id | id in jobs && id !in rest :: jobs[id] == Step(old(jobs)[id], Requeue(cutoff))
        invariant forall id :: id in requeued <==> id !in rest && AppliesTo(old(jobs), id, Requeue(cutoff))
        decreases rest
      {
        var id :| id in rest;
        rest := rest - {id};
        var r := jobs[id];
        if r.status == Processing && (cutoff.None? || r.heartbeat.None? || r.heartbeat.value < cutoff.value) {
          jobs := jobs[id := r.(status := Queued, worker := None, heartbeat := None)];
          requeued := requeued + {id};
        }
      }
    }

    /** Stamp the processing jobs of `ids` this worker owns. */
    method HeartbeatAll(ids: set<JobId>, w: Worker, now: nat)
      modifies this
      ensures jobs.Keys == old(jobs).Keys
      ensures forall id | id in jobs ::
                jobs[id] == if id in ids then Step(old(jobs)[id], Heartbeat(w, now)) else old(jobs)[id]
    {
      var rest := ids;
      while rest != {}
        invariant rest <= ids && jobs.Keys == old(jobs).Keys
        invariant forall id | id in jobs ::
            jobs[id] == if id in ids && id !in rest then Step(old(jobs)[id], Heartbeat(w, now)) else old(jobs)[id]
        decreases rest
      {
        var id :| id in rest;
        rest := rest - {id};
        if id in jobs && jobs[id].status == Processing && jobs[id].worker == Some(w) {
          jobs := jobs[id := jobs[id].(heartbeat := Some(now))];
        }
      }
    }

    /** The requeue of `terminate_and_requeue`, conditioned on the lease owner. */
    method DrainRequeue(id: JobId, w: Worker) returns (requeued: bool)
      modifies this
      ensures jobs == After(old(jobs), id, Drain(w)) && requeued == AppliesTo(old(jobs), id, Drain(w))
    {
      requeued := id in jobs && jobs[id].status == Processing && jobs[id].worker == Some(w);
      if requeued {
        jobs := jobs[id := jobs[id].(status := Queued, worker := None, heartbeat := None)];
      }
    }

    method SetJobStatus(id: JobId, s: Status)
      modifies this
      ensures jobs == After(old(jobs), id, SetStatus(s))
    {
      if id in jobs {
        jobs := jobs[id := jobs[id].(status := s)];
      }
    }

    method CurrentOwner(id: JobId) returns (owner: Option<Worker>)
      ensures owner == if id in jobs then jobs[id].worker else None
    {
      owner := if id in jobs then jobs[id].worker else None;
    }

    /** Set a terminal status, with a bundle or without, if `owner` still owns the row; with
        no owner recorded, always. */
    method FinalizeJob(id: JobId, status: Status, owner: Option<Worker>, package: Option<Package>) returns (applied: bool)
      modifies this
      ensures jobs == After(old(jobs), id, Finalize(status, owner, package))
      ensures applied == (owner.None? || AppliesTo(old(jobs), id, Finalize(status, owner, package)))
    {
      if owner.None? {
        if id in jobs {
          var r := jobs[id];
          if package.Some? {
            var p := package.value;
            jobs := jobs[id := r.(bundle := Some(p.bundle), ledger := p.ledger, verdict := p.verdict,
                                  errors := p.errors, record := Some(p.record),
                                  builtFrom := Some(r.reviewRevision), status := status)];
          } else {
            jobs := jobs[id := r.(status := status)];
          }
        }
        return true;
      }
      applied := id in jobs && jobs[id].worker == owner;
      if applied {
        var r := jobs[id];
        if package.Some? {
          var p := package.value;
          jobs := jobs[id := r.(bundle := Some(p.bundle), ledger := p.ledger, verdict := p.verdict,
                                errors := p.errors, record := Some(p.record),
                                builtFrom := Some(r.reviewRevision), status := status)];
        } else {
          jobs := jobs[id := r.(status := status)];
        }
      }
    }

    /** A write to the review rows: the trigger counts it. */
    method EditRows(id: JobId, contents: Contents)
      modifies this
      ensures jobs == After(old(jobs), id, Edit(contents))
    {
      if id in jobs {
        jobs := jobs[id := jobs[id].(contents := contents, reviewRevision := jobs[id].reviewRevision + 1)];
      }
    }

    /** The snapshot a finalize builds from. */
    method Snapshot(id: JobId) returns (read: Option<(Contents, nat)>)
      ensures read == if id in jobs then Some((jobs[id].contents, jobs[id].reviewRevision)) else None
    {
      read := if id in jobs then Some((jobs[id].contents, jobs[id].reviewRevision)) else None;
    }

    /** The one UPDATE that publishes a build, unless a newer one is stored. */
    method PublishBuild(id: JobId, p: Package, revision: nat, quick: bool) returns (published: bool)
      modifies this
      ensures jobs == After(old(jobs), id, Publish(p, revision, quick))
      ensures published == AppliesTo(old(jobs), id, Publish(p, revision, quick))
    {
      published := id in jobs && (jobs[id].builtFrom.None? || jobs[id].builtFrom.value <= revision);
      if published {
        var r, invalid := jobs[id], p.verdict == Some(Invalid);
        var status := if !quick && !invalid then Completed
                      else if invalid && r.status == Completed then ForReview
                      else r.status;
        jobs := jobs[id := r.(bundle := Some(p.bundle), ledger := p.ledger, verdict := p.verdict, errors := p.errors,
                              record := Some(p.record), builtFrom := Some(revision), status := status)];
      }
    }

    /** The bundle that stands when a newer build is stored: one transaction. */
    method StoredNewerBuild(id: JobId, revision: nat, complete: bool) returns (s: Stored)
      modifies this
      ensures jobs == if complete then After(old(jobs), id, CompleteStored(revision)) else old(jobs)
      ensures s == if id !in old(jobs) then Gone
                   else if old(jobs)[id].verdict == Some(Invalid) then Refused(old(jobs)[id].errors)
                   else Stands(old(jobs)[id].bundle)
    {
      if complete && id in jobs {
        var r := jobs[id];
        if r.builtFrom.Some? && r.builtFrom.value > revision && r.verdict != Some(Invalid) {
          jobs := jobs[id := r.(status := Completed)];
        }
      }
      if id !in jobs {
        return Gone;
      }
      if jobs[id].verdict == Some(Invalid) {
        return Refused(jobs[id].errors);
      }
      return Stands(jobs[id].bundle);
    }
  }
}
