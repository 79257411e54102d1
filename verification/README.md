# CTIParsor: a model in Dafny, with proofs

CTIParsor reads threat reports, extracts what they say, and ships it as a STIX 2.1 bundle after an
analyst has reviewed it. This project models the parts of it where a mistake is hardest to see, and
proves what they promise:

- **The job row** (`JobStore`, `JobRuns`, `WorkerLoop`). Worker loops, watchers, API processes and the
  analyst share one row per job and coordinate by conditional UPDATEs alone. Each statement, or
  transaction, is one atomic step; a run is any interleaving of steps.
- **The baseline merge** (`References`, `BaselineIndex`, `IndexBuild`, `Matching`, `Merge`,
  `MergeFacts`, `Ledger`, `LedgerFacts`, `Reconcile`, `SchemaSearch`). The objects Stage 4 built are
  folded into the analyst's bundle: closure under references, resolution by keys, remapping, edges
  rewritten and de-duplicated, and a ledger that still describes the result.
- **Calibration** (`Calibration`, `CalibrationFit`, `Proposals`). Pool-adjacent-violators on integers,
  its optimality, and the cutoff read off the fit.
- **Evidence** (`MarkdownLinks`, `EvidenceSpan`, `SpanText`, `JoinedQuotes`, `Sentences`). A quote located
  in the text it came from, what its span says when read alone, and the sentence of an offset.
- **Migrations** (`Migrate`) and **the request body's budget** (`BodyLimit`).

`dafny verify dfyconfig.toml` checks everything. Objects whose fields the program assigns are classes
here, its loops are loops, and each is tied to a function of its inputs or of the state before; the
properties are lemmas about those functions and about runs of steps.

## Where the code does less than it says

Each comes as a lemma or a method with a concrete input, next to the exact condition under which the
promise holds:

- The fence of `_finalize_job` is the worker's id, not the attempt: a stale attempt passes once its own
  worker has the job again (`OvertakenAttempt`, `StaleAttemptOfSameWorker`). The owner is captured after
  the claim, so a lease that expires in between leaves the attempt with no fence, or with another
  worker's (`CaptureReads`, `LateCaptureOverwrites`).
- Requeueing before the terminate does not neutralise the watcher of a run that has just finished: a
  finalize does not clear the owner, and the job is marked failed (`DrainThenWatcher`,
  `FinishedJobMarkedFailed`).
- A loop's slots are bounded, its processes are not (`RunningWithinSlots`, `ExceedsIff`,
  `RunningCanExceed`).
- "Baseline objects are never rewritten" (`pipeline/baseline_stix.py:1855`): the last pass rewrites a
  kept inferred edge whose premise was removed as a duplicate (`BaselineUntouched`,
  `BaselineRewrittenIff`, `BaselineEdgeRewritten`).
- The second of two baseline relations of the same ends and verb is imported as one no extraction found,
  whatever the extractions say (`ImportedIff`, `SecondOfTwoIsImported`).
- The span of a quote that starts in a link's text and ends past the link delimits text that does not
  read as the quote: the link's closing bracket and target are in it (`SpanReadsIff`, `CutSpan`).
- A database from before versioned migrations whose recognition is interrupted is later taken for a
  versioned one, and a version it has is applied again (`AtMostOnceIff`, `StrandedAppliesTwice`).
- With two receives under way a client over its budget is answered twice (`TwoStartsIff`,
  `TwoReceivesAnswerTwice`).

## Model

| member | source | states |
|---|---|---|
| `JobRuns.OwnerIsLastOwnership` | api/queue_loop.py:114-121 | In every interleaving, the row’s `worker_id` is what the last applied claim, requeue or drain gave it; no status write, finalize, edit or publication moves it |
| `JobRuns.OwnerIff` | api/queue_loop.py:175-180 | From an unowned row, w owns it exactly when the last ownership step was a claim by w |
| `JobRuns.FinalizeIsFenced` | api/worker.py:164-187 | A finalize with owner w applies exactly when the last ownership step was a claim by w, and otherwise leaves the row unchanged |
| `JobRuns.OvertakenAttempt` | api/worker.py:122-130 | An attempt overtaken by a requeue is fenced off exactly when its own worker has not claimed the job again: the fence is the worker, not the attempt |
| `JobRuns.StaleAttemptOfSameWorker` | api/worker.py:164-170 | A run in which a requeued attempt of the same worker stores its bundle over the second attempt’s |
| `JobRuns.CaptureReads` | api/worker.py:829-837 | The owner captured at the start of the process is the claiming worker exactly when the last ownership step before it is a claim by that worker, and none exactly when it is a requeue |
| `JobRuns.LateCaptureOverwrites` | api/worker.py:149-163 | A run in which the lease expires before the capture: the write is unfenced and overwrites what another worker finished |
| `JobRuns.DrainThenWatcher` | api/queue_loop.py:467-480 | Requeueing before the terminate neutralises the watcher’s `failed` exactly when the row was processing or not this worker’s |
| `JobRuns.FinishedJobMarkedFailed` | api/worker.py:855-883 | A run in which a job that waits for review, its bundle stored, is drained and then marked failed |
| `JobRuns.DrainedStaysFenced` | api/queue_loop.py:467-480 | After the requeue, and whatever follows but a claim by w, a finalize by w changes nothing |
| `JobRuns.ClaimsWithinEntries` | api/queue_loop.py:114-121 | For any number of loops: claims plus other exits plus (queued now) equal entries into the queue plus (queued at the start), so claims never outnumber entries |
| `JobRuns.LostRaceHasAWinner` | api/queue_loop.py:120-121 | A conditional UPDATE that fails on a job seen queued implies that some step in between took it out of the queue |
| `JobRuns.RevisionsGrow` | api/worker.py:1042-1050 | The review revision never decreases, and two snapshots of one revision read the same rows |
| `JobRuns.RunsStaySound` | api/worker.py:1407-1420 | In every run of the writers: a completed job’s verdict is not `invalid`, the stored revision never exceeds the review revision and never decreases |
| `JobRuns.OneBuild` | api/worker.py:148-171 | Bundle, ledger, verdict, errors, record and revision are always those of one build: the last one stored, or the one at the start |
| `JobRuns.StoredIsBuiltFromItsRows` | api/worker.py:1042-1050 | When a finalize stored it, the bundle is the build of the rows as they stand at the stored revision |
| `JobRuns.StoredRevisionIsGreatest` | api/worker.py:1407-1420 | After any set of overlapping finalizes, published or refused, in any order, the stored revision is the maximum of the first one, those they read and those the runs stored |
| `JobRuns.FinishFinalize` | api/worker.py:1407-1434 | A full finalize that returns for a job that still exists leaves it completed, with the returned bundle, not refused, of the revision it read or a later one; one that raises leaves it not completed |
| `JobStore.Store.SelectQueued` | api/queue_loop.py:104-112 | The oldest queued job, or none when no job is queued |
| `JobStore.Store.TryClaim` | api/queue_loop.py:114-121 | The claim’s conditional UPDATE, and its row count |
| `JobStore.Store.ClaimNextQueued` | api/queue_loop.py:101-142 | Whatever rivals do between SELECT and UPDATE, a returned job is processing, owned by the caller and has its upload; none before ten attempts means an empty queue |
| `JobStore.Store.RequeueOrphans` | api/queue_loop.py:158-192 | One UPDATE over every orphaned job, and exactly the ids it requeued |
| `JobStore.Store.HeartbeatAll` | api/queue_loop.py:195-211 | Stamps just the processing rows the worker owns |
| `JobStore.Store.DrainRequeue` | api/queue_loop.py:475-482 | The requeue conditioned on the current owner |
| `JobStore.Store.SetJobStatus` | api/db.py:193-200 | Touches the status alone, whoever owns the row |
| `JobStore.Store.FinalizeJob` | api/worker.py:145-187 | The four writes of a terminal status: with or without an owner, with or without a bundle |
| `JobStore.Store.CurrentOwner` | api/worker.py:76-83 | The owner the row carries now |
| `JobStore.Store.EditRows` | api/migrations/v0012_bundle_builds.py:32-51 | A write to the review rows counts one revision |
| `JobStore.Store.Snapshot` | api/worker.py:1042-1050 | The rows and the revision read together |
| `JobStore.Store.PublishBuild` | api/worker.py:1409-1418 | The one UPDATE that publishes a build unless a newer one is stored, with its status rule |
| `JobStore.Store.StoredNewerBuild` | api/worker.py:964-985 | Completes with the stored build if allowed, and answers gone, refused or the bundle |
| `WorkerLoop.SlotsAreBoundedAndReturned` | api/queue_loop.py:313-356 | However kicks, exits, drains and stops interleave, a loop never holds more slots than its maximum, and none once no kick is in progress and every started process reported its exit, even before its start was recorded |
| `WorkerLoop.RunningWithinSlots` | api/queue_loop.py:320-347 | As long as, until the loop is stopped, no job is claimed again under its running process and none that holds a slot is let go of, at most as many processes run as there are slots; a drain after the stop is free to let go |
| `WorkerLoop.ExceedsIff` | api/queue_loop.py:463-467 | And only then: from wherever such a run has come to, for every positive maximum, one step more can lead to more processes than slots exactly when, the loop not stopped, it claims a job whose process still runs or lets go of one that holds a slot |
| `WorkerLoop.RunningCanExceed` | api/queue_loop.py:320-347 | A run of a two-slot loop with more than two processes: a job requeued by its expired lease is claimed again into the slot it has |
| `WorkerLoop.WorkerLoop.Kick` | api/queue_loop.py:316-347 | A kick, with other threads between its lock sections, keeps the bound and returns idle |
| `WorkerLoop.WorkerLoop.RecordStart` | api/queue_loop.py:331-335 | A handle is recorded only if the exit was not reported first |
| `References.RefClosure` | pipeline/baseline_stix.py:543-568 | The worklist keeps the greatest subset in which no unprotected object references an excluded or dropped id; each dropped id’s reason is such a reference |
| `References.ClosureIsUnique` | pipeline/baseline_stix.py:546-554 | There is one such set, whatever the order of the worklist |
| `References.ClosingTwiceIsClosingOnce` | pipeline/baseline_stix.py:1462-1466 | Closing at intake and again at the merge keeps the same objects as closing once with both exclusion sets |
| `References.Scope` | pipeline/baseline_stix.py:936-956 | The scope is closed under references, holds every relationship between two objects reached from the root, and lies in every set that does |
| `BaselineIndex.Index.Lookup` | pipeline/baseline_stix.py:631-640 | The cached lookup answers as a plain scan of the entries: the one that fits, else the one of the exact type, else ambiguous |
| `BaselineIndex.Index.Resolve` | pipeline/baseline_stix.py:482-507 | So does the resolution over the key map, for any order of the keys |
| `BaselineIndex.Index.LookupWeak` | pipeline/baseline_stix.py:642-657 | The one entry that carries a file name, when it holds a file object |
| `BaselineIndex.OneAnswer` | pipeline/baseline_stix.py:482-507 | The scan has one answer: no iteration order shows |
| `BaselineIndex.TypeOnlyNarrows` | pipeline/baseline_stix.py:486-489 | Stating a type never turns a sole fit into another entry |
| `IndexBuild.BuildIndex` | pipeline/baseline_stix.py:1279-1385 | Entry ids are distinct, relation ids too; every imported object is in entries, in one relation or copied, in just one of the three; an Indicator is in one entry of each type at most, any other object in one entry at most; relation ends name the entry that holds them, an Indicator’s that of the first type of its pattern; each object’s keys lead to an entry of its type that holds it, an observable’s where one states the key |
| `IndexBuild.IndexBuilder.AddGroup` | pipeline/baseline_stix.py:1311-1356 | A pattern’s keys of one type join the earliest of the entries they lead to (the first holders of the keys, else the one observable its based-on names), and only that; leading to none, they make one entry; names stay distinct |
| `IndexBuild.IndexBuilder.AddBasedOn` | pipeline/baseline_stix.py:1356-1363 | A based-on belongs to an entry exactly when one holds both its ends |
| `IndexBuild.Relations` | pipeline/baseline_stix.py:1375-1383 | The relationships no entry holds, each once, with its ends routed to the entries that hold them, an Indicator’s to that of the first type of its pattern |
| `IndexBuild.EntryIdsDiffer` | pipeline/baseline_stix.py:1244-1260 | Entries named by an object, or by an object and a type, never share an id |
| `Matching.TargetOf` | pipeline/baseline_stix.py:1868-1898 | The kept object a Stage 4 object becomes is the one the scans of the entries designate |
| `Matching.DesignatesOne` | pipeline/baseline_stix.py:1868-1898 | They designate one at most |
| `Matching.MatchIsEarned` | pipeline/baseline_stix.py:1803-1817 | A match is kept, and belongs to an entry that shares a considered key, or a file name alone, with the object |
| `Matching.AmbiguityNeverMerges` | pipeline/baseline_stix.py:1873-1875 | Ambiguity among the entries the analyst did not reject never merges |
| `Matching.MatchByContent` | pipeline/baseline_stix.py:1899-1909 | An object no entry holds becomes the one kept object of its content; two of them merge nothing |
| `Matching.RemapIntoKept` | pipeline/baseline_stix.py:1866-1909 | The remap’s range lies in the kept ids and misses its domain, and no relationship is remapped |
| `Merge.Walk` | pipeline/baseline_stix.py:1926-1956 | The loop over the list gives each object the fate the plan determines, with its removals, moved ends and stated edges |
| `Merge.MergeBaseline` | pipeline/baseline_stix.py:1847-1969 | In place: the kept objects, then what ships of the list, the premises followed; the result tells what was kept, dropped, remapped, removed, rejected |
| `MergeFacts.EveryObjectOnce` | pipeline/baseline_stix.py:1847-1969 | Every input object is accounted for once (became a kept one, shares its id, rejected, removed with a reason, shipped in its place); the numbers add up; nothing else is in the output |
| `MergeFacts.NoRemappedReference` | pipeline/baseline_stix.py:1820-1838 | No CTIParsor object of the output references a remapped id at its top level |
| `MergeFacts.EdgesAreDistinct` | pipeline/baseline_stix.py:1943-1956 | No CTIParsor relationship of the output is a self-loop or repeats the triple of any other output relationship |
| `MergeFacts.NoRejectedEnd` | pipeline/baseline_stix.py:1913-1918 | No output relationship names an id the analyst rejected, given every input edge’s ends are in the input |
| `MergeFacts.OutputIdsDistinct` | pipeline/baseline_stix.py:1911-1913 | Distinct input ids give distinct output ids |
| `MergeFacts.StatedIsKept` | pipeline/baseline_stix.py:1962-1966 | What is told as stated by the document is kept |
| `MergeFacts.BaselineUntouched` | pipeline/baseline_stix.py:1957-1960 | A kept object is written as received exactly when it states no premises, or every relationship of the list it names that repeats (its ends moved) a kept edge or an earlier one of the list repeats one of its own id, the last such relationship of an id counting |
| `MergeFacts.BaselineRewrittenIff` | pipeline/baseline_stix.py:1957-1960 | When the ids of the list are distinct: a kept object is rewritten exactly when it states premises and names a relationship of the list that repeats a kept edge or an earlier one |
| `MergeFacts.RepeatsIff` | pipeline/baseline_stix.py:1940-1952 | A relationship is removed as a duplicate exactly when, its ends moved, it repeats a kept edge or an earlier one of the list |
| `MergeFacts.BaselineUntouchedBefore` | pipeline/baseline_stix.py:1854-1856 | In particular when it names no relationship of the list |
| `MergeFacts.BaselineEdgeRewritten` | pipeline/baseline_stix.py:1957-1960 | An input on which a kept baseline edge is rewritten, though the documentation says none ever is |
| `Ledger.MappingLedger.ApplyBaselineMerge` | pipeline/bundle_ledger.py:197-254 | The new state of every entry, of the recorded origins, of what left the bundle and of the refused edges |
| `Ledger.MappingLedger.FollowRefused` | pipeline/bundle_ledger.py:300-308 | Refused edges follow their ends; the first of each triple, origin and rule stays |
| `Ledger.MappingLedger.RefusedEdge` | pipeline/bundle_ledger.py:273-282 | Listed once per triple, origin and rule |
| `Ledger.MappingLedger.BaselineObject` | pipeline/bundle_ledger.py:256-270 | The origin becomes the baseline, annotations kept; the entries that name it are marked merged, their ids unmoved |
| `Ledger.MarkedOnce` | pipeline/bundle_ledger.py:352-363 | A merge is recorded once, and an earlier one with another reason is never lost |
| `LedgerFacts.EntityStillNames` | pipeline/bundle_ledger.py:205-238 | Each entity entry after the merge, by cases, as `FoldBaseline` needs them; one still holding an id names an object of the merged list exactly when it did not name a removed relationship |
| `LedgerFacts.RelStillNames` | pipeline/bundle_ledger.py:214-231 | Each relationship entry, by cases, as `FoldBaseline` needs them; one still holding an id names an object of the merged list exactly when it did not name a rejected object |
| `LedgerFacts.NoAbsorbedEnd` | pipeline/bundle_ledger.py:290-298 | No relationship entry’s end names an absorbed object |
| `LedgerFacts.EndsDescribe` | pipeline/bundle_ledger.py:239-247 | An entry with the ends of a relationship that ships has the ends it ships with |
| `LedgerFacts.RefusedStayUnique` | pipeline/bundle_ledger.py:300-308 | No refused edge names an absorbed object, none is lost, none doubled, and the first of two that fell together stays |
| `LedgerFacts.NothingLeavesSilently` | pipeline/bundle_ledger.py:205-254 | Whatever the merge took out of the list, or left out of the baseline, is in the ledger’s list of what left |
| `LedgerFacts.FoldBaseline` | pipeline/stage4_stix_mapping.py:1896-1905 | The merge, its account and the marking of the kept objects, together: from a ledger whose entity entries name objects of the list, and whose relationship entries its relationships, every entry that holds an id names an object of the merged list |
| `Reconcile.FirstOccurrence` | pipeline/baseline_stix.py:1574-1589 | The earliest place where a form stands as a whole word, or none |
| `Reconcile.Reconciliation.MatchRows` | pipeline/baseline_stix.py:1599-1623 | The status of every row key, and the entries reached |
| `Reconcile.MatchedIff` | pipeline/baseline_stix.py:1618-1623 | A key is matched exactly when some row with it resolves; new exactly when some row has it and none does |
| `Reconcile.RowOrderDoesNotMatter` | pipeline/baseline_stix.py:1608-1623 | Two orders of the same rows match the same keys and reach the same entries |
| `Reconcile.EntryOnce` | pipeline/baseline_stix.py:1625-1646 | Every entry is reached by a row or imported once, never both, in the text exactly at the earliest whole-word place of its forms |
| `Reconcile.Reconciliation.MatchRelations` | pipeline/baseline_stix.py:1648-1683 | Each extracted relationship states the first relation between the entries its ends resolve to |
| `Reconcile.ValueEntries` | pipeline/baseline_stix.py:1648-1657 | A matched value names its entry exactly when its rows agree |
| `Reconcile.FormEntries` | pipeline/baseline_stix.py:1658-1662 | A surface form names its entry exactly when one entry has it |
| `Reconcile.RelationOnce` | pipeline/baseline_stix.py:1685-1697 | Every relation with both ends known is stated by a row or imported once, never both |
| `Reconcile.ImportedIff` | pipeline/baseline_stix.py:1668-1688 | A relation with both ends known is imported as one no extraction found exactly when no row names its ends and verb, or an earlier relation has the same |
| `Reconcile.SecondOfTwoIsImported` | pipeline/baseline_stix.py:1668-1688 | A small index and a row of the report that states the second relation, which is imported all the same |
| `Reconcile.ReconcileAll` | pipeline/baseline_stix.py:1592-1711 | The four passes together |
| `SchemaSearch.Search.Bisect` | pipeline/baseline_stix.py:992-1015 | Finds only objects refused alone, each once, in order, with their own messages; all of them when every list that holds one is refused; the bytes counted are the start plus all halves validated, within the limit |
| `SchemaSearch.Split` | pipeline/baseline_stix.py:981-989 | The shortest front that weighs at least half, neither side empty |
| `Calibration.IsotonicBlocks` | pipeline/calibration.py:85-116 | Increasing disjoint ranges of rising rates over all the points, every prefix of tied scores inside a block at least at the block’s rate |
| `Calibration.PoolsMerge` | pipeline/calibration.py:109-115 | Merging two neighbours out of order keeps that property |
| `CalibrationFit.FitIsUnique` | pipeline/calibration.py:85-98 | The blocks depend on the multiset of the points alone |
| `CalibrationFit.FitIsOptimal` | pipeline/calibration.py:86-89 | Their step function has the least squared error of all nondecreasing functions of the score |
| `CalibrationFit.OnlyTheFitIsOptimal` | pipeline/calibration.py:86-89 | Any other function as good agrees with it on every observed score |
| `CalibrationFit.CalibratedRateIs` | pipeline/calibration.py:119-126 | Every score, inside the blocks’ ranges or out of them, has the rate of the first block that reaches it, else of the last |
| `Proposals.CalibratedRateRises` | pipeline/calibration.py:119-126 | The calibrated rate does not fall as the score rises, wherever the two scores are |
| `CalibrationFit.BlocksOrdered` | pipeline/calibration.py:85-116 | The blocks’ score ranges are disjoint and in increasing order |
| `Proposals.RatesRise` | pipeline/calibration.py:85-116 | The blocks’ rates are nondecreasing |
| `Proposals.Propose` | pipeline/calibration.py:168-231 | The proposal, branch by branch |
| `Proposals.ProposedIsSafe` | pipeline/calibration.py:190-231 | A proposed cutoff is an observed score under the auto-accept level with support in its band, of empirical precision at least the target, the lowest whose calibrated rate reaches it |
| `Proposals.CutoffRisesWithTarget` | pipeline/calibration.py:194-202 | It does not fall when the target rises |
| `Proposals.SameProposal` | pipeline/calibration.py:168-231 | The proposal, in every field, depends on the multiset of the points alone |
| `EvidenceSpan.Normalise` | pipeline/evidence_span.py:76-136 | The loop computes the normal form |
| `MarkdownLinks.FindSkips` | pipeline/evidence_span.py:91-94 | The table of what is left out has just the opening bracket and the closing piece of each link |
| `MarkdownLinks.LinkShape` | pipeline/evidence_span.py:23-23 | A link’s text is between its brackets and holds no bracket and no line break |
| `EvidenceSpan.NormalFormMaps` | pipeline/evidence_span.py:77-83 | Text and index map are equally long, the offsets in range and nondecreasing; a character that is no blank is read exactly when it is not part of a link’s syntax |
| `EvidenceSpan.WordSpans` | pipeline/evidence_span.py:139-165 | The maximal runs of characters that are no space, in order, covering every such character |
| `EvidenceSpan.FoundIsMonotone` | pipeline/evidence_span.py:243-246 | If k words of a quote are found, so are fewer, from the front or the back |
| `EvidenceSpan.BestPart` | pipeline/evidence_span.py:248-257 | The binary search returns the one length a linear search for the longest part found returns |
| `EvidenceSpan.LocateOne` | pipeline/evidence_span.py:168-280 | The whole quote at its first place, else its longest beginning, else its longest end, that covers enough |
| `EvidenceSpan.LocatedSpan` | pipeline/evidence_span.py:198-241 | A span lies in the text, covers the wanted share, and the whole quote or the words matched were read from its characters, from the first to the last |
| `SpanText.SpanReadsIff` | pipeline/evidence_span.py:76-136 | A span whose ends were read, cut out and read alone, reads as it does in the text, character by character, exactly when each link of the text has both its ends in the link’s text or neither |
| `SpanText.LocatedText` | pipeline/evidence_span.py:198-241 | Then the source text a span delimits, cut out, has a normal form that holds the whole quote, or the beginning or end of it that its coverage tells |
| `SpanText.CutSpan` | pipeline/evidence_span.py:198-206 | A quote and a text on which it fails: the span starts in a link’s text and ends past the link |
| `JoinedQuotes.Locate` | pipeline/evidence_span.py:178-179 | A joined quote is located part by part, any other as it stands |
| `JoinedQuotes.PartsHoldNoMark` | pipeline/evidence_span.py:288-296 | No part holds the joining mark, so none is split again |
| `JoinedQuotes.JoinedSpan` | pipeline/evidence_span.py:283-305 | The span of a joined quote runs from the first located part to the last, holds them all, covers the wanted share and at most all, and is exact only if they are |
| `Sentences.SentenceBounds` | pipeline/evidence_span.py:335-382 | Increasing, disjoint, non-blank ranges with no break inside, each ending at a break and starting after one, that cover every character that is no whitespace |
| `Sentences.InOneSentence` | pipeline/evidence_span.py:335-382 | No character is in two |
| `Sentences.SentenceIndexOf` | pipeline/evidence_span.py:308-332 | The bisection finds the range that contains an offset exactly when there is one |
| `Sentences.SentenceOf` | pipeline/evidence_span.py:308-382 | A span that starts on a character that is no whitespace has a sentence, which contains its start |
| `Migrate.RecordsStayASegment` | api/migrate.py:151-200 | In every run, any process dying anywhere, the recorded versions are 1 to some version and one process at most migrates |
| `Migrate.FinishedHasAll` | api/migrate.py:174-186 | A finished upgrade has recorded every version it knows and reports the others, each once, as applied or recognised |
| `Migrate.RefusedUntouched` | api/migrate.py:107-122 | A newer or an edited history, and no other, is refused with nothing changed |
| `Migrate.AtMostOnceIff` | api/migrate.py:131-148 | From any database no process is migrating: every run commits every version at most once exactly when no process whose code the database accepts knows a version whose effects are there without a record, but for a first version its tables tell to recognise |
| `Migrate.AtMostOnceInRuns` | api/migrate.py:131-148 | A run in which no process lets the lock go with a recognition unfinished commits each version’s effects and record together, and at most once |
| `Migrate.VersionedIsNeverStranded` | api/migrate.py:166-180 | No run from a database with records, or an empty one, has such a step |
| `Migrate.StrandedAppliesTwice` | api/migrate.py:166-183 | A database of before versioned migrations with two versions, and a run from it that applies the second again |
| `Migrate.Database.Upgrade` | api/migrate.py:151-200 | One process under the lock: refused untouched, failed with a segment recorded, or done with every version |
| `BodyLimit.WithinBudget` | api/body_limit.py:113-135 | In every interleaving the application is handed at most the budget, and only disconnects after the cut |
| `BodyLimit.TwoStartsIff` | api/body_limit.py:118-143 | Whatever has happened, the messages still to come can bring the client a second response start exactly when it has one already or, the application not having begun, one receive waits after the answer or two before it |
| `BodyLimit.AnsweredOnce` | api/body_limit.py:118-143 | With one receive under way at a time, an answer from here is the one start the client gets, however often the application begins |
| `BodyLimit.OneStartInTurn` | api/body_limit.py:118-143 | With one receive under way at a time and one response begun at most, the client gets one start at most, and no message to come can bring a second |
| `BodyLimit.TwoReceivesAnswerTwice` | api/body_limit.py:118-135 | A run with two receives under way that answers the client twice |
| `BodyLimit.CheckDeclared` | api/body_limit.py:98-111 | The digits test refuses a declared length exactly when its value exceeds the budget |
| `BodyLimit.Guard.BeginReceive` | api/body_limit.py:118-122 | The part of a receive before its wait: none after the cut |
| `BodyLimit.Guard.ResumeReceive` | api/body_limit.py:122-135 | The part of a receive after its wait |
| `BodyLimit.Guard.GuardedSend` | api/body_limit.py:137-143 | Nothing passes once the client has its answer |

## Left out

- SQL text, threads, processes, signals, progress events, logging, liveness files and the export file: only their atomic steps are modelled. A crash between the export file's write and the commit (`api/worker.py:1409-1420`) is assumed away.
- Insertion of jobs, and the routes' own writes to the status: not part of this model. Job ids are never used again, and a review edit is a step that changes the rows and counts one revision.
- `JobStore.Store.ClaimNextQueued`: the warning after ten lost races is not modelled, and `updated_at` is no column here.
- JSON, regular expressions (but that of a Markdown link, `MarkdownLinks`), the STIX and pattern parsers, Unicode case mapping, alphanumeric characters, the builder of a bundle and the schema validator are functions the model is given, with the properties stated for them (`Proper`, `WellTyped`, `WellFormed`). The validator is assumed to answer the same list the same way.
- Sorting that only fixes an order (`sorted(kept)`, `sorted(excluded)`, the walk over a dictionary) is left open: every statement holds for any order. Of two baseline relationships of one triple, either may be the one a duplicate names.
- `MergeFacts.EdgesAreDistinct`, `MergeFacts.NoRejectedEnd`: a relationship whose end is itself a relationship of the list is assumed away; the second also assumes, as its source does, that the ends of the list's relationships are objects of the list.
- `LedgerFacts.FoldBaseline` and the lemmas on entries assume that the list holds no id twice, as Stage 4 builds it.
- `References.Scope`: no fixpoint is claimed, since the code makes one pass over the relationships.
- `IndexBuild.BuildIndex`: `order`, the best hash shown, the MITRE id and which forms a card gathers are not stated; an object id holds no `#`.
- `Matching`: nested references are part of the closure and are never rewritten, as in the code; how a content key folds its text is not modelled.
- `apply_alias_merge`, `replace_relationship` and the ledger's other recorders: their producers are not part of this model, or they only append.
- `Reconcile.Reconciliation.MatchRelations`: the counters of `stats` and the offsets dropped when lower-casing changes the length are not modelled; places are offsets of the lower-cased text.
- `SchemaSearch.Search.Bisect`: what one search costs is not bounded beyond its limit.
- `Proposals.Propose`: the fields `curve`, `min_score` and `max_score` are not modelled; scores, rates and coverages are real numbers, so rounding is not.
- `SpanText.LocatedText`: of a span that cuts a link it says nothing, since the words may or may not occur in what is left; `SpanText.SpanReadsIff` tells exactly when the text reads alone as it does in its place.
- `EvidenceSpan.NormalFormMaps`: nothing is claimed about single spaces, since a skipped link bracket can leave two.
- `words`, `stated_in`, `fit_text`, `merge_into`, `resolve_type_conflicts`, `set_counts`, the vocabularies, language models, routes, the UI and the evaluation harness: they would only add easy members, or are library calls and data.
- `Migrate`: a migration's statements, its snapshot tables and the cluster check are one step, one transaction or one flag; the lock's timeout is not modelled.
- `BodyLimit`: the routes' budgets, the quoting of the path and the wording of the answers are not modelled; the two messages of a 413 are one step, since the first is sent before anything can come between.
