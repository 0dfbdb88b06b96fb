# A verified model of the RAW to DNG pipeline

The pipeline watches a folder, converts camera files in parallel, numbers the
results `IMG_{n}`, and keeps a database, a rotation service and an HTTP API
beside it. This project models the parts of it whose correctness is not visible
in any single function body and proves what they promise.

| file | models |
|---|---|
| `Worker.dfy`, `WorkerState.dfy` | the poller and the worker threads as a machine whose steps are the locked regions; the shared state as a class, one method per region |
| `Passes.dfy` | what the steps of a run amount to: scans, queue, verdicts, moves and releases, and their conservation laws |
| `Ownership.dfy`, `Retry.dfy`, `FpCache.dfy` | properties of every interleaving: who works on a path, retry counts and throttling, the fingerprint cache |
| `Scenarios.dfy` | runs from the initial state that show which hypotheses are needed, and the converse of the cache theorem |
| `Options.dfy` | a value that may be missing |
| `Rotation.dfy` | the rotation coalescer with its debounce timer and shutdown drain |
| `Lease.dfy` | the processing locks |
| `Sequence.dfy`, `OutputNames.dfy`, `Decimal.dfy` | sequence numbers from the table to the output path |
| `Fnv.dfy`, `Jpeg.dfy`, `Thumbnail.dfy`, `PreviewEmbed.dfy` | the byte algorithms |
| `SplitSql.dfy`, `Shell.dfy`, `Json.dfy` | scanners and printers, each against an independent reader |
| `MoveFile.dfy`, `Metrics.dfy` | the move with its copy fallback; the histograms |

Threads are modelled as state machines. A step is one locked region, or one
action on a file or the database between two regions; `Enabled` says when it
can happen, `Next` what it does, and a lemma over `Run`/`Exec` covers every
interleaving of every length. The classes hold the same state as fields; each
method's postcondition equates the new state with the function the machine uses.

## What the code meets only under a condition

The model keeps the code as it is. Where an intention fails, the exact condition
is proved, mostly step by step (a good state is followed by a good state if and
only if the step meets the condition).

- In every state of a run no two workers touch one path, nothing is queued twice,
  unseen or in flight, and the markers show the owners, exactly when two things
  hold for its steps: no sweep drops the `seen` entry of a path that is still
  queued, and no path is taken while a worker whose pass failed has released its
  marker (`src/worker.cpp:438`) but not yet counted the failure, moved the file to
  the dead letters (`src/worker.cpp:466`) and released again (`src/worker.cpp:414`).
  Both windows are open: `Scenarios.StaleQueueHasTwoOwners` and
  `Scenarios.FailingWorkerIsOvertaken` build the runs, the second one up to the
  move of the file under the worker that has just taken it. Where both are closed,
  the second release never removes another worker's marker.
- A dispatched rotation is lost exactly when its write fails, no newer intent
  waits for the import and something else is stored; intents queued after the
  drain are never written. For a single import only its own last intent counts.
  The drain ignores exiftool's exit code (`src/rotation.cpp:142-144`), and either
  dispatch may fail to record what exiftool has written (`src/rotation.cpp:98`):
  column and tag agree over a run exactly when no dispatch does one of the two.
- Leases exclude each other exactly when none that still runs is handed out beside
  another one. Reading and writing the row in one step and giving it back before
  expiry is enough; both are shown to be needed.
- The hash a worker uses is missing or the SHA-256 of the current content in every
  run in which no file changes while it is being hashed, if and only if the
  fingerprint tells apart all versions of a path with different digests
  (`Scenarios.TransparentExactly`). It looks at 4096 bytes: a one-byte rewrite that
  keeps size and mtime is seen exactly when it falls inside them. A file that
  changes between fingerprint and hash leaves a wrong entry in the cache, and a
  later pass over an unchanged file uses it (`Scenarios.RestlessFile`). The
  pipeline's own moves never disturb a file that is being hashed as long as
  ownership is exclusive.
- Embedding a preview can be undone and repeated exactly when the JPEG's first
  end marker is its last two bytes, or it has none and nothing follows it.
- The rotation dispatcher writes the path into its command without quotes
  (`src/rotation.cpp:88-89`): the command names the file exactly when the path is
  a plain word, and certainly does not otherwise unless expansions or patterns come
  into play. The converter's commands are right for every path without NUL,
  provided the binary is a word the shell takes for a command name.
- The histogram labels are right for the conversion histogram and no other.
- `move_file` on one path twice loses the content unless the rename succeeds, the
  target is never opened, or there was nothing to lose.

Code and comments disagree in a few places; the model follows the code. The
comment at `src/worker.cpp:34-35` says failure counts are erased when a file
disappears from the watch folder, but only a success, a duplicate hit and a dead
letter erase them. `src/worker.h:19` calls the queue bounded, but nothing bounds
it. `src/pipeline.h:98-99` describes a SubIFD lookup where the code takes the
longest JPEG segment of the file. `src/rotation.h:13-15` promises one dispatch
per burst, but a busy lock drops the intent.

## Model

| member | source | states |
|---|---|---|
| Rotation.StepRefines | src/rotation.cpp:33-80 | every step of `Queue`, the dispatcher or the drain is one step of applying intents at once, if and only if it loses nothing |
| Rotation.CoalescingRefinesImmediate | src/rotation.cpp:33-147 | after the drain of any loss-free run, what is stored plus what was queued too late is what applying every intent at once would have stored; without late intents the two are equal |
| Rotation.ImmediateIsLastIntent | src/rotation.cpp:67-80 | applying intents at once leaves each import with its last queued orientation |
| Rotation.ImmediateUntouched | src/rotation.cpp:67-80 | an import without intents keeps what it had |
| Rotation.FinishWrites | src/rotation.cpp:82-99 | the ordinary dispatch sets the tag if lock and exiftool succeed, the column if the update succeeds as well, and nothing else |
| Rotation.DrainWrites | src/rotation.cpp:134-146 | the drain's dispatch sets the tag if lock and exiftool succeed, the column if lock and update succeed, and nothing else |
| Rotation.SuccessRefinesImmediate | src/rotation.cpp:33-147 | if every lock, exiftool run and update succeeds and nothing is queued too late, column and tag end up as if every intent had been applied at once |
| Rotation.LastQueueWins | src/rotation.cpp:33-147 | in such a run column and tag of every import end with the orientation of its last `Queue` call |
| Rotation.RecordsAreSteps | src/rotation.cpp:33-147 | the history of intents and the log of dispatches are exactly the `Queue` calls and the dispatches of the run |
| Rotation.DispatchIsItsIntent | src/rotation.cpp:48-59 | what is dispatched has import, orientation, path and client of its `Queue` call |
| Rotation.LastIntentDecides | src/rotation.cpp:33-147 | for one import, whatever fails for others: after the drain its last intent was dispatched, and the final value is the one asked for exactly when that dispatch wrote it or it was already there |
| Rotation.UntouchedImport | src/rotation.cpp:33-147 | an import without intents keeps what it had, whatever the coalescer does |
| Rotation.FatesAreFinal | src/rotation.cpp:49-60 | an intent that was superseded or dispatched stays so: nothing is dispatched twice |
| Rotation.EachIntentHandledOnce | src/rotation.cpp:123-147 | after the drain every intent was superseded by a newer one of the same import or dispatched, never both, and no dispatch repeats |
| Rotation.NeverEarly | src/rotation.cpp:47-55 | the scan takes an intent only a full grace period after every `Queue` for that import, in spite of the stale `now` |
| Rotation.DueExactly | src/rotation.cpp:47-49 | the scan may take a waiting import exactly when its `now` is a grace period past the last `Queue` call |
| Rotation.NeverOversleeps | src/rotation.cpp:40-46 | the dispatcher never sleeps past a deadline, including those queued while it sleeps |
| Rotation.LateQueuesAreLost | src/rotation.cpp:123-147 | once the drain is over nothing is written any more |
| Rotation.AgreeStep | src/rotation.cpp:95-99 | from equal column and tag a step leads to equal ones exactly when it is no dispatch that writes only one of them |
| Rotation.TargetsAgreeExactly | src/rotation.cpp:82-146 | over a whole run column and tag agree in every state exactly when no dispatch splits them |
| Rotation.GraceMs | src/rotation.cpp:30 | the grace period is the configured one if that is positive, and 1500 ms otherwise |
| Rotation.RotationManager.Enqueue | src/rotation.cpp:67-80 | the entry of the import is overwritten with a deadline one grace period ahead, all others stay |
| Rotation.RotationManager.Soonest | src/rotation.cpp:40-44 | the result is the least deadline of the map |
| Rotation.RotationManager.TakeDue | src/rotation.cpp:48-60 | erases one due entry and returns it, or shows that no unvisited entry is due |
| Rotation.RotationManager.TakeAll | src/rotation.cpp:128-133 | hands over the whole map and leaves it empty |
| Ownership.ExclusiveStep | src/worker.cpp:153-240 | from a state in which no two workers touch one path, the queue has no duplicates and the markers show the owners, a step leads to another such state exactly when it is benign |
| Ownership.ExclusiveExactly | src/worker.cpp:124-473 | a whole run stays in such states exactly when all its steps are benign |
| Ownership.OneOwnerPerPath | src/worker.cpp:409-473 | after a benign run no path is touched by two workers, up to the dead-letter move and the second release, and no owned path is queued |
| Ownership.SecondReleaseIsHarmless | src/worker.cpp:411-414 | in an exclusive state the second release removes nobody's marker |
| Ownership.MovesHitNobody | src/worker.cpp:464-469 | in an exclusive state no move takes a file away from another worker |
| Scenarios.StaleQueueHasTwoOwners | src/worker.cpp:192-203 | a run from the initial state in which the sweep outruns the queue and two workers own one path |
| Scenarios.FailingWorkerIsOvertaken | src/worker.cpp:435-469 | a run from the initial state, benign up to its last step, in which a second worker takes the path of a failing one, whose dead-letter move then takes the file away |
| Passes.LogsAreSteps | src/worker.cpp:153-457 | verdicts and enqueues of the machine are exactly those the steps of the run amount to |
| Passes.ScansAreSpaced | src/worker.cpp:124-130 | successive scans of the watch folder start at least a poll interval apart |
| Passes.QueueIsFifo | src/worker.cpp:168-231 | over any run the paths queued are those taken, in this order, followed by those still queued |
| Passes.DebtsArePaid | src/worker.cpp:223-473 | over any run and for every path: takings equal verdicts, takings equal first releases, successes, duplicates and dead letters equal moves, failed conversions equal second releases, each up to the workers that still owe one |
| Retry.RetryAccounting | src/worker.cpp:435-457 | in every reachable state a path's count is its failures since the last success or duplicate step of the run modulo the limit, lies in 1..limit-1 when present, and a dead letter was due at exactly every limit-th failure |
| Retry.ResolvedHasNoCount | src/worker.cpp:300-363 | a success or duplicate hit leaves the path without a count and the others as they were |
| Retry.FailureIsCounted | src/worker.cpp:443-450 | a failure adds one to the count, or erases it and leads to the dead-letter move when the limit is reached |
| Retry.Limit | src/worker.cpp:448 | the limit is the configured one, but at least one |
| Retry.LowLimitsActLikeOne | src/worker.cpp:443-450 | for a path without a count, a failure under some limit has the effect it has under a limit of one exactly when that limit is at most one |
| Retry.RequeuesAreThrottled | src/worker.cpp:154-174 | in any run two enqueues of one path carry stamps more than two poll intervals apart |
| Retry.SweepLeavesOnlyYoungEntries | src/worker.cpp:192-203 | over any run a sweep leaves `seen` with exactly the paths whose last enqueue is no older than the TTL |
| Retry.GaugeIsQueueLength | src/worker.cpp:171-232 | in every reachable state the gauge equals the queue length |
| FpCache.CacheIsTransparent | src/worker.cpp:254-287 | under the fingerprint and stability hypotheses the hash a worker uses, computed or reused, is the SHA-256 of the current content; cached hashes are never empty and the cache stays within its bound |
| FpCache.HitIsCurrent | src/worker.cpp:258-265 | a hit returns the digest of what is on disk |
| FpCache.DecidesOnCurrentHash | src/worker.cpp:289-296 | a worker goes on exactly when it has a hash, which is then the SHA-256 of the file as it is, and gives up exactly when it has none |
| FpCache.HashingReadsFile | src/worker.cpp:270-275 | hashing a readable file whose digest works gives its SHA-256, anything else nothing |
| FpCache.HitKeepsStamp | src/worker.cpp:258-265 | in a calm run the cache answers only if size, modification time and visible hash on disk are those of the version the entry was made from |
| FpCache.OwnMovesAreCalm | src/worker.cpp:313-466 | with exclusive ownership the pipeline's own moves never touch a file that is being hashed |
| FpCache.BenignRunsAreCalm | src/worker.cpp:254-287 | in a benign run files being hashed stay unchanged exactly when nobody outside changes them |
| FpCache.StoredEntryStays | src/worker.cpp:277-286 | over any run with strictly increasing clock readings the entry just stored is still there after the eviction |
| Scenarios.StaleHit | src/worker.cpp:259-263 | a calm run from the initial state that ends with the digest of the old version while a new one with the same fingerprint is on disk |
| Scenarios.RestlessFile | src/worker.cpp:255-286 | a run, calm but for one change between fingerprint and hash, that ends with the digest of a version that is no longer on disk |
| Scenarios.TransparentExactly | src/worker.cpp:254-287 | over a set of file versions, every calm run uses only current hashes if and only if the fingerprint tells apart versions with different digests |
| Scenarios.OneByteRewriteIsMissed | src/pipeline.cpp:193-202 | for two versions that differ in one byte the cache is transparent exactly when that byte is within the first 4096 |
| WorkerState.SharedState.constructor | src/worker.cpp:24-57 | everything starts empty |
| WorkerState.SharedState.TryEnqueue | src/worker.cpp:153-174 | a path is queued and stamped exactly when it is neither in flight nor already seen |
| WorkerState.SharedState.CleanupSeenTtl | src/worker.cpp:192-203 | the loop drops exactly the entries older than the TTL |
| WorkerState.SharedState.TakeNext | src/worker.cpp:223-235 | the front of the queue moves to the in-flight set |
| WorkerState.SharedState.LookupFingerprint | src/worker.cpp:257-266 | a hit needs all three parts of the fingerprint and refreshes only the time stamp |
| WorkerState.SharedState.StoreFingerprint | src/worker.cpp:277-286 | the entry is stored, then the cache is evicted |
| WorkerState.SharedState.EvictFpCache | src/worker.cpp:422-433 | exactly as many entries go as must, and none that goes was seen later than one that stays |
| WorkerState.SharedState.Oldest | src/worker.cpp:427-430 | the scan finds an entry with the least time stamp |
| WorkerState.NewestSurvives | src/worker.cpp:422-433 | an entry seen strictly after all others survives the eviction |
| WorkerState.SharedState.EraseFailures | src/worker.cpp:300-303 | only the count of this path is forgotten |
| WorkerState.SharedState.ReleaseInflight | src/worker.cpp:417-420 | only the marker of this path is removed |
| WorkerState.SharedState.RecordFailure | src/worker.cpp:443-450 | the count grows by one, or is erased when it reaches the limit |
| Lease.AcquireEffect | src/db.cpp:637-709 | an acquire that finds no running row of another worker and can write sets row and lease to `start + ttl`; any other changes nothing |
| Lease.ReleaseEffect | src/db.cpp:711-714 | a release removes the row if the statement works, and the releasing worker's lease |
| Lease.ExclusiveStep | src/db.cpp:637-714 | from a state with at most one unexpired holder per import a step leads to another one exactly when it does not grant a running lease beside another worker's |
| Lease.ExclusiveExactly | src/db.cpp:637-714 | the same for every state of a whole run |
| Lease.MirroredStep | src/db.cpp:637-714 | the table keeps showing every unexpired lease exactly when the step takes no row from under another holder |
| Lease.FreshAcquireIsProper | src/db.cpp:649-708 | deciding on the current row is such a step |
| Lease.TimelyReleaseIsProper | src/db.cpp:711-714 | so is a release before expiry |
| Lease.DisciplineIsProper | src/db.cpp:637-714 | a run whose acquires decide on the current row and whose releases come before expiry consists of such steps |
| Lease.AtMostOneHolder | src/db.cpp:637-714 | in every reachable state of a run of such steps at most one worker holds an unexpired lease per import |
| Lease.OnlyHolderReacquires | src/db.cpp:688 | in every such state the holder of a running lease may acquire again and nobody else can |
| Lease.StaleReadGivesTwoHolders | src/db.cpp:674-708 | a run in which two workers read before either writes, and both get the lease |
| Lease.LateReleaseAdmitsThird | src/db.cpp:711-714 | a run in which a worker releases its lease after expiry and thereby lets a third worker in beside the current holder |
| Lease.LockTable.AcquireLock | src/db.cpp:637-709 | succeeds exactly when there is a connection, both statements work and no other worker's unexpired row is there, and then stores the new expiry |
| Lease.LockTable.ReleaseLock | src/db.cpp:711-714 | reports whether the delete worked; if so the row goes, whoever wrote it |
| Sequence.AllocationAddsOneRow | src/db.cpp:245-322 | an allocation adds exactly the row it reports, under an unused id and name; a failed one changes no row, and the counter never goes back |
| Sequence.AllocationOnAnyTable | src/db.cpp:245-322 | on any table exactly the left-overs go and the reported row comes, named `IMG_` and its id; a failed allocation adds nothing |
| Sequence.LikeTmp | src/db.cpp:250-252 | the second delete matches `tmp` in any case with at least one more character |
| Sequence.CleanupKeepsImages | src/db.cpp:246-253 | the two clean-up deletes never remove a row that names an image |
| Sequence.SequenceTable.AllocateSequence | src/db.cpp:245-322 | the table, the id and the name after every kind of failure |
| Sequence.SequenceTable.ReconcileLibrary | src/reconcile.cpp:13-77 | returns the greatest number in the library and the placeholder rows inserted; unless an allocation failed the counter is past that number, and every image row is kept |
| Sequence.SequenceTable.Reserve | src/reconcile.cpp:65-72 | unless an allocation failed the loop leaves the counter past the given number, and with a counter that does not jump no further than needed |
| Sequence.PlaceholdersAreFound | src/reconcile.cpp:23-60 | the placeholder rows are exactly those of the library's images that are no known source path and whose insert works, each under its own number, none above the greatest |
| Sequence.MaxNumberBounds | src/reconcile.cpp:23-30 | the scan's result is at least every number found |
| Sequence.MaxNumberIsAttained | src/reconcile.cpp:23-30 | the scan's result is one of the numbers found, or zero |
| Sequence.ImageNumberExactly | src/reconcile.cpp:14-28 | a name has a number exactly when it is `IMG_`, digits and `.dng` in any case, and it is the one they denote, saturated |
| OutputNames.IssuedIncrease | src/db.cpp:269-321 | ids issued by any sequence of successful and failed allocations strictly increase |
| OutputNames.OutputsDiffer | src/worker.cpp:342-345 | different numbers give different paths for all folders, even ignoring letter case |
| OutputNames.OutputParts | src/worker.cpp:342-345 | the output lies in the folder below the output directory under `IMG_`, its number and `.dng` |
| OutputNames.OutputIsNew | src/worker.cpp:342-345 | a number above everything found gives a path that is nowhere in the library, even ignoring letter case |
| OutputNames.NoOutputCollides | src/worker.cpp:332-345 | end to end: later outputs clash neither with the library nor with each other |
| OutputNames.UnreservedCollides | src/reconcile.cpp:65-72 | without the reservation the next output can be an existing file |
| OutputNames.ImageNumberIgnoresCase | src/reconcile.cpp:14-28 | the number of a name does not depend on letter case |
| Decimal.ReadPrint | src/db.cpp:293 | printed decimals read back |
| Decimal.PrintNat | src/db.cpp:293 | digits only, and no leading zero |
| Fnv.KnownVectors | src/pipeline.cpp:169-176 | the published test vectors of the empty string and of `a` |
| Fnv.Fnv1a64 | src/pipeline.cpp:169-176 | the loop computes the fold |
| Fnv.MixIsBijective | src/pipeline.cpp:172-173 | each round is a bijection on the 64-bit state |
| Fnv.MixSeparatesBytes | src/pipeline.cpp:172-173 | from one state different bytes lead to different states |
| Fnv.FoldIsInjective | src/pipeline.cpp:171-174 | two different states stay different whatever bytes follow |
| Fnv.NoCollisionOnOneByte | src/pipeline.cpp:169-176 | inputs of equal length that differ in one byte never collide |
| Fnv.ComputeFastFingerprint | src/pipeline.cpp:178-205 | size, mtime and the hash of the first 4096 bytes for a file; zero hash for an unreadable or empty one, all zero for a missing one |
| Fnv.FingerprintIsStamp | src/pipeline.cpp:178-205 | two versions share a fingerprint exactly when they share size, mtime and visible hash |
| Fnv.OneByteRewriteIsSeen | src/pipeline.cpp:193-202 | a one-byte rewrite that keeps size and mtime changes the fingerprint exactly when it is inside the first 4096 bytes |
| Jpeg.FindEoi | src/pipeline.cpp:144-154 | finds the first end marker, or shows there is none |
| Jpeg.MarkerBytes | src/pipeline.cpp:143-149 | start and end marker are FF D8 and FF D9, and markers never overlap |
| Thumbnail.LargestSegment | src/pipeline.cpp:139-159 | the skip-ahead scan returns the longest segment over all start markers, the earliest on ties |
| Thumbnail.SkippedAreShorter | src/pipeline.cpp:155 | every start marker the scan jumps over begins a shorter segment |
| Thumbnail.BestIsUnique | src/pipeline.cpp:139-159 | longest and earliest determine the segment |
| Thumbnail.ExtractThumbnail | src/pipeline.cpp:134-166 | something is written exactly when both files open and some segment has 64 bytes, and it is the best one |
| PreviewEmbed.FindJpeg | tools/dng_previewembed.cpp:30-44 | the nested loop finds the first start marker and its first end marker or the end of the file |
| PreviewEmbed.EmbedPreview | tools/dng_previewembed.cpp:57-88 | which inputs are refused, when the write fails, and what the file holds afterwards |
| PreviewEmbed.PutGet | tools/dng_previewembed.cpp:65-80 | after embedding, exactly the embedded JPEG is found at the same place, if and only if it is closed or last and unterminated |
| PreviewEmbed.PutPut | tools/dng_previewembed.cpp:65-80 | a second embedding forgets the first, under the same exact condition |
| PreviewEmbed.GetPut | tools/dng_previewembed.cpp:65-73 | embedding what was found gives the file back; the tool accepts it exactly when it has 64 bytes |
| SplitSql.TrimLoop | src/util.cpp:24-29 | the two index loops compute the trimmed string |
| SplitSql.SplitSql | src/util.cpp:130-173 | the loop computes the scanner's statements |
| SplitSql.GrammarSplits | src/util.cpp:130-173 | a `;` ends a statement exactly behind plain characters, backslash pairs and sections closed by the quote that opened them; a text that breaks off in one of these is one statement |
| SplitSql.EveryTextIsGrammatical | src/util.cpp:130-173 | every text is of that form, so the grammar describes the splitter on all inputs |
| SplitSql.QuotedIsOneStatement | src/util.cpp:149-153 | text in single quotes, double quotes or backticks is one statement whatever it contains |
| SplitSql.TrimCuts | src/util.cpp:24-29 | exactly the six white-space characters are cut from both ends |
| SplitSql.SplitUndoesJoin | src/util.cpp:130-173 | splitting the `;`-join of a list gives the list back exactly when its members are non-empty trimmed statements without top-level `;`, all but the last ending outside quotes and escapes |
| SplitSql.StatementsAreFixed | src/util.cpp:161-172 | for every input each returned statement splits to itself |
| Shell.ShellQuote | src/converter.cpp:74-83 | the loop computes the quoted form |
| Shell.QuoteRoundTrip | src/converter.cpp:74-83 | the shell reads the quoted string as that one word exactly when it has no NUL |
| Shell.LineRoundTrip | src/converter.cpp:131-133 | a line of plain words and quoted strings that begins with a command name reaches the program as exactly those arguments if and only if the strings have no NUL |
| Shell.ConvertArguments | src/converter.cpp:125-136 | the converter's argument vector, exactly |
| Shell.ReembedArguments | src/converter.cpp:153-159 | the embedder's argument vector, exactly |
| Shell.OrientationArguments | src/converter.cpp:160-164 | the orientation command's argument vector, exactly |
| Shell.BareWord | src/rotation.cpp:88-89 | an unquoted argument means itself exactly when it is a plain word; without expansions the answer is never open |
| Shell.DispatchArguments | src/rotation.cpp:88-89 | the dispatcher's unquoted command names the file exactly when the path is a plain word; without expansions any other path certainly gives something else |
| Json.JsonEscape | src/api.cpp:75-85 | the loop computes the escaped string |
| Json.ReadEscaped | src/api.cpp:75-85 | reading an escaped string gives it back and stops at the closing quote, or fails if it has an unescaped control character |
| Json.EscapeIsInjective | src/api.cpp:75-85 | different strings have different escaped forms |
| Json.WriteRecord | src/api.cpp:87-105 | the lines written are the record's text |
| Json.RecordRoundTrip | src/api.cpp:87-105 | the reader recovers every field under its own key, or rejects the text when a string has another control character |
| Json.SourceFieldsAreFound | src/api.cpp:87-105 | a client finds sequence, source, output and camera fields under their literal keys |
| Json.CaptureFieldsAreFound | src/api.cpp:87-105 | the same for dates, folder and orientation |
| Json.StatusIsFound | src/pipeline.h:33-43 | each status is found under its own name |
| Json.RecordsAreDistinguished | src/api.cpp:87-105 | different printable records have different texts |
| MoveFile.FileSystem.Move | src/util.cpp:175-250 | files and result for every combination of answers; the copy loop terminates with `copied` equal to `offset` |
| MoveFile.MoveSucceedsExactly | src/util.cpp:175-250 | the result, answer by answer: true exactly if the rename works, or both files open, the content gets across by the copy loop or the fallback, and the source can be removed |
| MoveFile.LoopReaches | src/util.cpp:205-216 | the copy loop gets to the end exactly when an unbroken run of positive answers adds up to the size |
| MoveFile.DistinctMove | src/util.cpp:175-250 | between distinct paths `true` means the bytes are only at the target, `false` that they are still at the source, and no other file changes |
| MoveFile.MoveKeepsContent | src/util.cpp:175-250 | for all paths and answers, exactly when the bytes survive |
| Metrics.Histogram.Observe | src/metrics.cpp:25-33 | the bucket array, sum and count after one more observation |
| Metrics.Histogram.Render | src/metrics.cpp:95-106 | the running totals are the cumulative counts |
| Metrics.CumulativeCounts | src/metrics.cpp:95-106 | for every stage, bucket k counts the observations at or below its edge and `+Inf` counts all |
| Metrics.CumulativeIsMonotone | src/metrics.cpp:95-106 | rendered buckets never decrease and end with the count |
| Metrics.StageEdges | src/metrics.cpp:25-93 | the edges of each stage and the numbers on the labels |
| Metrics.LabelsExact | src/metrics.cpp:118-137 | the rendered labels are right for the conversion histogram and for no other |

## Left out

- The database client: the tables are maps, transactions are atomic and may fail; AUTO_INCREMENT never goes back.
- Sockets, HTTP routing and authentication, process spawning and time-outs, the exiftool pipes, configuration, the Lua plugin and the Adobe tool.
- SHA-256 is a parameter of the worker machine; EXIF dates and folder templates only reach the model as a folder string.
- Liveness: wake-ups and the joining of threads; the stop flag of the poller and the workers (a run may simply end).
- The poller's file name and age filters: the machine may offer any path, which includes every path the filters let through.
- Directories: a file that is archived or dead-lettered leaves the watch folder, and with it the worker machine.
- The order of hash tables: scans visit the remaining keys in any order, and the rotation scan may end early.
- The iteration of `Stop` over the drained map and the body of a dispatch are steps of the rotation machine, not methods; the webhook and rescan trigger are not modelled.
- Import rows: the duplicate check and the insert are separate steps in the code, so no uniqueness of imports per content is claimed; reconciliation is not idempotent, and of a placeholder row only number, name and path are modelled.
- The read and the write of a lock row are one step parameterised by the row that was read, not two.
- `double` is modelled by `real`; the text around the numbers in the metrics output is not modelled; the six bucket arrays are six objects of one class.
- Windows branches of the quoting and the move; symbolic and hard links; other processes changing files during a move.
- Ids stay within 63 bits.
- The shell reader knows blanks, backslashes, single quotes, comments, operators, and the keywords and assignments that keep a first word from naming a command. What expansions, double quotes and patterns give depends on more than the line and is left open, as is a backslash at its very end.
- The JSON reader accepts flat objects without white space and integers with leading zeros; `json_get` and `parse_query` are not modelled.
