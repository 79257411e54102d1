/**
 What holds of a job's row over every run: any number of worker loops, API processes and
 analysts, their steps interleaved in any order (api/worker.py:111-187, 837, 948-1042,
 1407-1434; api/queue_loop.py:93-146, 149-196, 467-486).
 */
module JobRuns {
  import opened Common
  import opened JobStore

  /** The row after a run. */
  function Run(r: Row, es: seq<Event>): Row {
    if es == [] then r else Step(Run(r, es[..|es| - 1]), Last(es))
  }

  /** The row when the first `k` steps are done. */
  function At(r: Row, es: seq<Event>, k: nat): Row
    requires k <= |es|
  {
    Run(r, es[..k])
  }

  predicate Applied(r: Row, es: seq<Event>, k: nat)
    requires k < |es|
  {
    Applies(At(r, es, k), es[k])
  }

  lemma AtNext(r: Row, es: seq<Event>, k: nat)
    requires k < |es|
    ensures At(r, es, k + 1) == Step(At(r, es, k), es[k])
    ensures At(r, es, |es|) == Run(r, es)
  {
    assert es[..k + 1][..k] == es[..k];
    assert es[..|es|] == es;
  }

  lemma AtEnd(r: Row, es: seq<Event>, e: Event)
    ensures forall k | 0 <= k <= |es| :: At(r, es + [e], k) == At(r, es, k)
    ensures forall k | 0 <= k < |es| :: Applied(r, es + [e], k) == Applied(r, es, k)
    ensures Applied(r, es + [e], |es|) == Applies(Run(r, es), e)
    ensures Run(r, es + [e]) == Step(Run(r, es), e)
  {
    forall k | 0 <= k <= |es|
      ensures (es + [e])[..k] == es[..k]
    {
    }
    assert (es + [e])[..|es|] == es[..|es|] == es;
  }

  // ----- Who owns the job

  /** The steps that give the row an owner, or take it away. */
  predicate Owns(e: Event) {
    e.Claim? || e.Requeue? || e.Drain?
  }

  function OwnerGiven(e: Event): Option<Worker> {
    if e.Claim? then Some(e.worker) else None
  }

  /** `k` is the last applied step before `n` that bears on the owner. */
  ghost predicate LastOwnership(r: Row, es: seq<Event>, n: nat, k: nat)
    requires n <= |es|
  {
    && k < n && Owns(es[k]) && Applied(r, es, k)
    && forall j | k < j < n :: !(Owns(es[j]) && Applied(r, es, j))
  }

  ghost predicate NoOwnership(r: Row, es: seq<Event>, n: nat)
    requires n <= |es|
  {
    forall j | 0 <= j < n :: !(Owns(es[j]) && Applied(r, es, j))
  }

  /** One more step is the last ownership step, or leaves the last one where it was. */
  lemma OwnershipOn(r: Row, es: seq<Event>, m: nat, n: nat)
    requires n == m + 1 <= |es|
    ensures Owns(es[m]) && Applied(r, es, m) ==>
              LastOwnership(r, es, n, m) && forall k: nat | LastOwnership(r, es, n, k) :: k == m
    ensures !(Owns(es[m]) && Applied(r, es, m)) ==>
              && (forall k: nat :: LastOwnership(r, es, n, k) <==> LastOwnership(r, es, m, k))
              && (NoOwnership(r, es, n) <==> NoOwnership(r, es, m))
  {
  }

  lemma OwnerStep(r: Row, e: Event)
    ensures Step(r, e).worker == if Owns(e) && Applies(r, e) then OwnerGiven(e) else r.worker
  {
  }

  /** The row's owner is what the last ownership step gave it; no status write, finalize,
      edit or publication touches it. */
  lemma {:induction false} OwnerIsLastOwnership(r: Row, es: seq<Event>, n: nat)
    requires n <= |es|
    ensures NoOwnership(r, es, n) ==> At(r, es, n).worker == r.worker
    ensures forall k: nat | LastOwnership(r, es, n, k) :: At(r, es, n).worker == OwnerGiven(es[k])
    ensures NoOwnership(r, es, n) || exists k: nat :: LastOwnership(r, es, n, k)
  {
    if n > 0 {
      var m := n - 1;
      OwnerIsLastOwnership(r, es, m);
      AtNext(r, es, m);
      OwnerStep(At(r, es, m), es[m]);
      OwnershipOn(r, es, m, n);
      if !(Owns(es[m]) && Applied(r, es, m)) && !NoOwnership(r, es, m) {
        var k: nat :| LastOwnership(r, es, m, k);
        assert LastOwnership(r, es, n, k);
      }
    } else {
      assert es[..0] == [];
    }
  }

  /** From an unowned row: w owns it exactly when the last ownership step was a claim by w. */
  lemma OwnerIff(r: Row, es: seq<Event>, n: nat, w: Worker)
    requires n <= |es| && r.worker.None?
    ensures At(r, es, n).worker == Some(w)
            <==> exists k: nat :: LastOwnership(r, es, n, k) && es[k].Claim? && es[k].worker == w
  {
    OwnerIsLastOwnership(r, es, n);
  }

  /** A finalize with a recorded owner applies only when no requeue and no other worker's
      claim came after that owner's last claim; otherwise the row is left as it was. */
  lemma FinalizeIsFenced(r: Row, es: seq<Event>, status: Status, w: Worker, p: Option<Package>)
    requires r.worker.None?
    ensures var last := Run(r, es); var e := Finalize(status, Some(w), p);
            && (Applies(last, e) <==> exists k: nat :: LastOwnership(r, es, |es|, k) && es[k].Claim? && es[k].worker == w)
            && (!Applies(last, e) ==> Step(last, e) == last)
  {
    OwnerIff(r, es, |es|, w);
    assert es[..|es|] == es;
  }

  /** The attempt that claimed at step `i` was overtaken: the owner was given anew since. */
  ghost predicate Overtaken(r: Row, es: seq<Event>, i: nat)
    requires i < |es|
  {
    exists j | i < j < |es| :: Owns(es[j]) && Applied(r, es, j)
  }

  /** An overtaken attempt is fenced off unless its own worker has the job again: the fence
      is the worker's id, not the attempt's. */
  lemma OvertakenAttempt(r: Row, es: seq<Event>, i: nat, w: Worker, status: Status, p: Option<Package>)
    requires r.worker.None? && i < |es| && es[i].Claim? && es[i].worker == w && Applied(r, es, i) && Overtaken(r, es, i)
    ensures Applies(Run(r, es), Finalize(status, Some(w), p))
            <==> exists k: nat :: i < k && LastOwnership(r, es, |es|, k) && es[k].Claim? && es[k].worker == w
  {
    FinalizeIsFenced(r, es, status, w, p);
    forall k: nat | LastOwnership(r, es, |es|, k)
      ensures i < k
    {
      var j :| i < j < |es| && Owns(es[j]) && Applied(r, es, j);
    }
  }

  function Fresh(): Row {
    Row(0, Queued, None, None, 0, Contents([]), None, None, None, None, None, None)
  }

  /** Such a run: w's job is requeued when its lease expires, w claims it again, and the
      first attempt's bundle is stored while the second attempt runs. */
  lemma StaleAttemptOfSameWorker(w: Worker, p: Package)
    ensures var es := [Claim(w, 0), Requeue(Some(1)), Claim(w, 2)];
            && Overtaken(Fresh(), es, 0)
            && Run(Fresh(), es + [Finalize(ForReview, Some(w), Some(p))]).bundle == Some(p.bundle)
  {
    var es := [Claim(w, 0), Requeue(Some(1)), Claim(w, 2)];
    assert es[..0] == [] && es[..1] == [Claim(w, 0)] && es[..2] == [Claim(w, 0), Requeue(Some(1))] && es[..3] == es;
    assert es[..1][..0] == [] && es[..2][..1] == es[..1];
    AtNext(Fresh(), es, 0);
    AtNext(Fresh(), es, 1);
    AtNext(Fresh(), es, 2);
    AtEnd(Fresh(), es, Finalize(ForReview, Some(w), Some(p)));
    assert Owns(es[1]) && Applied(Fresh(), es, 1);
  }

  // ----- The owner captured when the process is started

  /** The owner `_spawn_job` captures at step `j`, for the claim of step `i`. */
  function Captured(r: Row, es: seq<Event>, j: nat): Option<Worker>
    requires j <= |es|
  {
    At(r, es, j).worker
  }

  /** The capture reads the worker that claimed exactly when the last ownership step before
      it is a claim by that worker: a requeue in between leaves it without an owner, another
      worker's claim with that worker's. */
  lemma CaptureReads(r: Row, es: seq<Event>, i: nat, j: nat, w: Worker)
    requires i < j <= |es| && r.worker.None? && es[i].Claim? && es[i].worker == w && Applied(r, es, i)
    ensures (forall k | i < k < j :: !(Owns(es[k]) && Applied(r, es, k))) ==> Captured(r, es, j) == Some(w)
    ensures Captured(r, es, j) == Some(w)
            <==> exists k: nat :: LastOwnership(r, es, j, k) && es[k].Claim? && es[k].worker == w
    ensures Captured(r, es, j).None? <==> exists k: nat :: LastOwnership(r, es, j, k) && !es[k].Claim?
  {
    OwnerIsLastOwnership(r, es, j);
    assert Owns(es[i]) && Applied(r, es, i);
    if forall k | i < k < j :: !(Owns(es[k]) && Applied(r, es, k)) {
      assert LastOwnership(r, es, j, i);
    }
  }

  /** A run where the capture comes late: the lease expires between the claim and the start
      of the process, another worker takes the job and finishes it, and the first attempt's
      failure still overwrites its status. */
  lemma LateCaptureOverwrites(w: Worker, other: Worker, p: Package)
    requires w != other
    ensures var es := [Claim(w, 0), Requeue(Some(1))];
            var late := es + [Claim(other, 2), Finalize(ForReview, Some(other), Some(p))];
            && Captured(Fresh(), late, 2).None?
            && Run(Fresh(), late).status == ForReview
            && Run(Fresh(), late + [Finalize(Failed, Captured(Fresh(), late, 2), None)]).status == Failed
  {
    var one := [Claim(w, 0)];
    var es := [Claim(w, 0), Requeue(Some(1))];
    var three := es + [Claim(other, 2)];
    var late := es + [Claim(other, 2), Finalize(ForReview, Some(other), Some(p))];
    assert es == one + [Requeue(Some(1))] && one == [] + [Claim(w, 0)];
    assert late == three + [Finalize(ForReview, Some(other), Some(p))];
    AtEnd(Fresh(), [], Claim(w, 0));
    AtEnd(Fresh(), one, Requeue(Some(1)));
    AtEnd(Fresh(), es, Claim(other, 2));
    AtEnd(Fresh(), three, Finalize(ForReview, Some(other), Some(p)));
    assert late[..2] == es;
    AtEnd(Fresh(), late, Finalize(Failed, None, None));
  }

  // ----- Draining a loop

  /** Draining requeues the job before its process is terminated, so that the watcher's
      `failed` does not apply.  It does so exactly when the row was being processed, or was
      not this worker's: a row whose run has just finished keeps its owner, and the watcher's
      write marks it failed. */
  lemma DrainThenWatcher(r: Row, w: Worker)
    ensures Applies(Step(r, Drain(w)), Finalize(Failed, Some(w), None)) <==> r.worker == Some(w) && r.status != Processing
  {
  }

  /** Such a run: the job's bundle is stored and it waits for review, the loop is drained
      before the process has ended, and the watcher marks the job failed. */
  lemma FinishedJobMarkedFailed(w: Worker, p: Package)
    ensures var es := [Claim(w, 0), Finalize(ForReview, Some(w), Some(p)), Drain(w)];
            && Run(Fresh(), es).status == ForReview
            && Run(Fresh(), es + [Finalize(Failed, Some(w), None)]).status == Failed
            && Run(Fresh(), es + [Finalize(Failed, Some(w), None)]).bundle == Some(p.bundle)
  {
    var one := [Claim(w, 0)];
    var two := [Claim(w, 0), Finalize(ForReview, Some(w), Some(p))];
    var es := [Claim(w, 0), Finalize(ForReview, Some(w), Some(p)), Drain(w)];
    assert one == [] + [Claim(w, 0)] && two == one + [Finalize(ForReview, Some(w), Some(p))] && es == two + [Drain(w)];
    AtEnd(Fresh(), [], Claim(w, 0));
    AtEnd(Fresh(), one, Finalize(ForReview, Some(w), Some(p)));
    AtEnd(Fresh(), two, Drain(w));
    AtEnd(Fresh(), es, Finalize(Failed, Some(w), None));
  }

  /** Whatever happens in between, as long as w does not claim the job again. */
  lemma {:induction false} DrainedStaysFenced(r: Row, w: Worker, es: seq<Event>)
    requires r.worker != Some(w) && forall e | e in es :: !(e.Claim? && e.worker == w)
    ensures Run(r, es).worker != Some(w)
    ensures Step(Run(r, es), Finalize(Failed, Some(w), None)) == Run(r, es)
  {
    if es != [] {
      assert forall e | e in es[..|es| - 1] :: e in es;
      DrainedStaysFenced(r, w, es[..|es| - 1]);
      assert Last(es) in es;
    }
  }

  // ----- Claims

  function Bit(b: bool): nat {
    if b then 1 else 0
  }

  predicate Enters(r: Row, es: seq<Event>, k: nat)
    requires k < |es|
  {
    At(r, es, k).status != Queued && Step(At(r, es, k), es[k]).status == Queued
  }

  predicate Leaves(r: Row, es: seq<Event>, k: nat)
    requires k < |es|
  {
    At(r, es, k).status == Queued && Step(At(r, es, k), es[k]).status != Queued
  }

  predicate Claims(r: Row, es: seq<Event>, k: nat)
    requires k < |es|
  {
    es[k].Claim? && Applied(r, es, k)
  }

  function Entries(r: Row, es: seq<Event>, n: nat): nat
    requires n <= |es|
  {
    if n == 0 then 0 else Entries(r, es, n - 1) + Bit(Enters(r, es, n - 1))
  }

  function ClaimCount(r: Row, es: seq<Event>, n: nat): nat
    requires n <= |es|
  {
    if n == 0 then 0 else ClaimCount(r, es, n - 1) + Bit(Claims(r, es, n - 1))
  }

  function OtherExits(r: Row, es: seq<Event>, n: nat): nat
    requires n <= |es|
  {
    if n == 0 then 0 else OtherExits(r, es, n - 1) + Bit(Leaves(r, es, n - 1) && !Claims(r, es, n - 1))
  }

  /** Each claim uses up one entry into the queue, whatever the number of loops. */
  lemma {:induction false} ClaimsWithinEntries(r: Row, es: seq<Event>, n: nat)
    requires n <= |es|
    ensures ClaimCount(r, es, n) + OtherExits(r, es, n) + Bit(At(r, es, n).status == Queued)
            == Entries(r, es, n) + Bit(r.status == Queued)
    ensures ClaimCount(r, es, n) <= Entries(r, es, n) + Bit(r.status == Queued)
  {
    if n > 0 {
      ClaimsWithinEntries(r, es, n - 1);
      AtNext(r, es, n - 1);
    } else {
      assert es[..0] == [];
    }
  }

  /** The job was queued when it was selected, and the conditional UPDATE finds it otherwise:
      some step of the run, not this claim, took it out of the queue in between. */
  lemma {:induction false} LostRaceHasAWinner(r: Row, es: seq<Event>, seen: nat, k: nat)
    requires seen <= k < |es| && At(r, es, seen).status == Queued && es[k].Claim? && !Applied(r, es, k)
    ensures exists j | seen <= j < k :: Leaves(r, es, j)
    decreases k - seen
  {
    if seen < k {
      AtNext(r, es, seen);
      if !Leaves(r, es, seen) {
        LostRaceHasAWinner(r, es, seen + 1, k);
      }
    }
  }

  // ----- Builds and revisions

  /** The statuses the writers set, and the revision a build was read at: that of the row at
      some step before its publication, with the rows it was built from. */
  ghost predicate Written(build: Contents -> Package, r: Row, es: seq<Event>, k: nat)
    requires k < |es|
  {
    match es[k]
    case SetStatus(s) => s == Queued || s == Processing || s == Failed
    case Finalize(s, _, p) => if p.Some? then s == ForReview else s == Failed
    case Publish(p, revision, _) =>
      exists j | 0 <= j <= k :: At(r, es, j).reviewRevision == revision && p == build(At(r, es, j).contents)
    case _ => true
  }

  ghost predicate WrittenRun(build: Contents -> Package, r: Row, es: seq<Event>) {
    forall k | 0 <= k < |es| :: Written(build, r, es, k)
  }

  /** The review revision only grows, and tells the rows apart: two snapshots of one
      revision read the same rows. */
  lemma {:induction false} RevisionsGrow(r: Row, es: seq<Event>, j: nat, k: nat)
    requires j <= k <= |es|
    ensures At(r, es, j).reviewRevision <= At(r, es, k).reviewRevision
    ensures At(r, es, j).reviewRevision == At(r, es, k).reviewRevision ==> At(r, es, j).contents == At(r, es, k).contents
  {
    if j < k {
      RevisionsGrow(r, es, j, k - 1);
      AtNext(r, es, k - 1);
    }
  }

  /** A stored build is of a revision the rows have reached, holds a bundle, and completes
      the job only if Stage 5 did not refuse it. */
  predicate Sound(r: Row) {
    && (r.builtFrom.Some? ==> r.builtFrom.value <= r.reviewRevision && r.bundle.Some?)
    && (r.status == Completed ==> r.verdict != Some(Invalid))
  }

  /** The step is one the writers take from this row. */
  predicate Takes(r: Row, e: Event) {
    match e
    case SetStatus(s) => s == Queued || s == Processing || s == Failed
    case Finalize(s, _, p) => if p.Some? then s == ForReview else s == Failed
    case Publish(_, revision, _) => revision <= r.reviewRevision
    case _ => true
  }

  lemma SoundStep(r: Row, e: Event)
    requires Sound(r) && Takes(r, e)
    ensures Sound(Step(r, e)) && r.reviewRevision <= Step(r, e).reviewRevision
    ensures r.builtFrom.Some? ==> Step(r, e).builtFrom.Some? && r.builtFrom.value <= Step(r, e).builtFrom.value
  {
  }

  lemma TakenBy(build: Contents -> Package, r: Row, es: seq<Event>, k: nat)
    requires k < |es| && Written(build, r, es, k)
    ensures Takes(At(r, es, k), es[k])
  {
    if es[k].Publish? {
      var j :| 0 <= j <= k && At(r, es, j).reviewRevision == es[k].revision && es[k].built == build(At(r, es, j).contents);
      RevisionsGrow(r, es, j, k);
    }
  }

  /** In every run a completed job's bundle was not refused, no build is of a revision the
      rows have not reached, and the stored revision never decreases. */
  lemma {:induction false} RunsStaySound(build: Contents -> Package, r: Row, es: seq<Event>, j: nat, k: nat)
    requires Sound(r) && WrittenRun(build, r, es) && j <= k <= |es|
    ensures Sound(At(r, es, k))
    ensures At(r, es, j).builtFrom.Some? ==>
              At(r, es, k).builtFrom.Some? && At(r, es, j).builtFrom.value <= At(r, es, k).builtFrom.value
    decreases k
  {
    if k > 0 {
      RunsStaySound(build, r, es, if j < k then j else k - 1, k - 1);
      assert Written(build, r, es, k - 1);
      TakenBy(build, r, es, k - 1);
      AtNext(r, es, k - 1);
      SoundStep(At(r, es, k - 1), es[k - 1]);
    } else {
      assert es[..0] == [];
    }
  }

  /** The package a step stores, and the revision it stores it at. */
  function PackageOf(e: Event): Option<Package> {
    match e
    case Finalize(_, _, p) => p
    case Publish(p, _, _) => Some(p)
    case _ => None
  }

  function RevisionOf(r: Row, e: Event): nat {
    if e.Publish? then e.revision else r.reviewRevision
  }

  predicate Stores(r: Row, es: seq<Event>, k: nat)
    requires k < |es|
  {
    PackageOf(es[k]).Some? && Applied(r, es, k)
  }

  /** The row's build columns are those of one package, at one revision. */
  predicate Holds(r: Row, p: Package, revision: nat) {
    Holding(r, p, revision) == r
  }

  predicate SameBuild(r: Row, s: Row) {
    && s.bundle == r.bundle && s.ledger == r.ledger && s.verdict == r.verdict && s.errors == r.errors
    && s.record == r.record && s.builtFrom == r.builtFrom
  }

  /** A step that stores no build leaves the one stored last. */
  lemma StillStored(r: Row, es: seq<Event>, m: nat, k: nat)
    requires k < m < |es| && StoredLast(r, es, m, k) && !Stores(r, es, m)
    ensures StoredLast(r, es, m + 1, k)
  {
    AtNext(r, es, m);
  }

  /** The first `n` steps stored no build, or one of them stored the last. */
  ghost predicate FromOneBuild(r: Row, es: seq<Event>, n: nat)
    requires n <= |es|
  {
    || ((forall k | 0 <= k < n :: !Stores(r, es, k)) && SameBuild(r, At(r, es, n)))
    || exists k | 0 <= k < n :: StoredLast(r, es, n, k)
  }

  lemma OneBuildOn(r: Row, es: seq<Event>, m: nat)
    requires m < |es| && FromOneBuild(r, es, m)
    ensures FromOneBuild(r, es, m + 1)
  {
    AtNext(r, es, m);
    if Stores(r, es, m) {
      assert StoredLast(r, es, m + 1, m);
    } else if k :| 0 <= k < m && StoredLast(r, es, m, k) {
      StillStored(r, es, m, k);
    }
  }

  /** Bundle, ledger, verdict, errors, record and revision always come from one build: the
      last one stored, or the one the row started with. */
  lemma {:induction false} OneBuild(r: Row, es: seq<Event>, n: nat)
    requires n <= |es|
    ensures || ((forall k | 0 <= k < n :: !Stores(r, es, k)) && SameBuild(r, At(r, es, n)))
            || exists k | 0 <= k < n :: StoredLast(r, es, n, k)
  {
    if n > 0 {
      OneBuild(r, es, n - 1);
      OneBuildOn(r, es, n - 1);
    } else {
      assert es[..0] == [];
    }
  }

  predicate StoredLast(r: Row, es: seq<Event>, n: nat, k: nat)
    requires k < n <= |es|
  {
    && Stores(r, es, k) && (forall j | k < j < n :: !Stores(r, es, j))
    && Holds(At(r, es, n), PackageOf(es[k]).value, RevisionOf(At(r, es, k), es[k]))
  }

  /** When the build stored last was a finalize, the row holds the build of the rows as they
      stood at the stored revision, at whatever step one looks at them. */
  lemma StoredIsBuiltFromItsRows(build: Contents -> Package, r: Row, es: seq<Event>, k: nat, j: nat)
    requires WrittenRun(build, r, es) && k < |es| && StoredLast(r, es, |es|, k) && es[k].Publish?
    requires j <= |es| && At(r, es, j).reviewRevision == es[k].revision
    ensures Run(r, es).builtFrom == Some(es[k].revision) && Holds(Run(r, es), build(At(r, es, j).contents), es[k].revision)
  {
    assert Written(build, r, es, k);
    var i :| 0 <= i <= k && At(r, es, i).reviewRevision == es[k].revision && es[k].built == build(At(r, es, i).contents);
    RevisionsGrow(r, es, if i <= j then i else j, if i <= j then j else i);
    assert es[..|es|] == es;
  }

  /** When any set of overlapping finalizes has ended, in any order, published or refused,
      the stored revision is the greatest of the one at the start, those they read, and
      those the runs stored. */
  lemma {:induction false} StoredRevisionIsGreatest(build: Contents -> Package, r: Row, es: seq<Event>, n: nat)
    requires Sound(r) && WrittenRun(build, r, es) && n <= |es|
    ensures forall k | 0 <= k < n && (es[k].Publish? || Stores(r, es, k)) ::
              At(r, es, n).builtFrom.Some? && RevisionOf(At(r, es, k), es[k]) <= At(r, es, n).builtFrom.value
    ensures At(r, es, n).builtFrom == r.builtFrom
            || exists k | 0 <= k < n :: Stores(r, es, k) && At(r, es, n).builtFrom == Some(RevisionOf(At(r, es, k), es[k]))
  {
    if n > 0 {
      StoredRevisionIsGreatest(build, r, es, n - 1);
      RunsStaySound(build, r, es, n - 1, n);
      AtNext(r, es, n - 1);
      if At(r, es, n).builtFrom != At(r, es, n - 1).builtFrom {
        assert Stores(r, es, n - 1);
      }
    } else {
      assert es[..0] == [];
    }
  }

  // ----- The end of a finalize

  datatype Answer = Returned(bundle: Option<string>) | Raised(errors: Option<string>)

  /** The acts of the writers, each on a row it may be taken from. */
  predicate ActsTaken(jobs: Jobs, acts: seq<Act>) {
    acts == [] ||
    var n := |acts| - 1;
    && ActsTaken(jobs, acts[..n])
    && (acts[n].On? && acts[n].id in AfterAll(jobs, acts[..n]) ==>
          Takes(AfterAll(jobs, acts[..n])[acts[n].id], acts[n].event))
  }

  lemma {:induction false} ActsKeep(jobs: Jobs, acts: seq<Act>, id: JobId)
    requires ActsTaken(jobs, acts) && (id in jobs ==> Sound(jobs[id]))
    ensures id in AfterAll(jobs, acts) ==> id in jobs && Sound(AfterAll(jobs, acts)[id])
    ensures id in AfterAll(jobs, acts) && jobs[id].builtFrom.Some? ==>
              var after := AfterAll(jobs, acts)[id].builtFrom;
              after.Some? && jobs[id].builtFrom.value <= after.value
  {
    if acts != [] {
      var n := |acts| - 1;
      ActsKeep(jobs, acts[..n], id);
      var mid := AfterAll(jobs, acts[..n]);
      if acts[n].On? && acts[n].id == id && id in mid {
        SoundStep(mid[id], acts[n].event);
      }
    }
  }

  /** The last part of `re_run_final_stages`: publish, or stand back before a newer build;
      `rivals` is what others do between the two transactions.  A full finalize that returns
      normally for a job that still exists leaves it completed, with the returned bundle,
      built from the revision it read or a later one, and not refused. */
  method FinishFinalize(store: Store, id: JobId, p: Package, revision: nat, quick: bool, rivals: seq<Act>)
    returns (a: Answer)
    requires id in store.jobs ==> Sound(store.jobs[id]) && revision <= store.jobs[id].reviewRevision
    requires ActsTaken(After(store.jobs, id, Publish(p, revision, quick)), rivals)
    modifies store
    ensures id in store.jobs ==> id in old(store.jobs) && Sound(store.jobs[id])
    ensures a.Returned? && id in store.jobs ==>
              var r := store.jobs[id];
              && r.bundle == a.bundle && a.bundle.Some? && r.verdict != Some(Invalid)
              && r.builtFrom.Some? && r.builtFrom.value >= revision
              && (!quick ==> r.status == Completed)
    ensures a.Raised? && id in store.jobs ==> store.jobs[id].verdict == Some(Invalid) && store.jobs[id].status != Completed
  {
    var published := store.PublishBuild(id, p, revision, quick);
    if !published {
      ActsKeep(store.jobs, rivals, id);
      store.Others(rivals);
      var s := store.StoredNewerBuild(id, revision, !quick);
      match s {
        case Refused(errors) => return Raised(errors);
        case Stands(bundle) =>
          if bundle.Some? {
            return Returned(bundle);
          }
        case Gone =>
      }
    }
    if p.verdict == Some(Invalid) {
      return Raised(p.errors);
    }
    return Returned(Some(p.bundle));
  }
}
