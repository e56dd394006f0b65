# DBX: protocols, codecs and resumable jobs, verified

A Dafny model of the parts of the DBX repository that carry state across failures,
processes or encodings, with proofs of what they promise. The results are statements over
all inputs, all interleavings or all runs. Where a promise fails, a concrete input or run
breaks it and a condition under which it holds is proved, an exact one where the table says
"if and only if". Check it with `dafny verify dfyconfig.toml`.

## What is modelled

- **Plugin statistics** (`deploy/plugin-stats-worker/worker.ts`). A trigger is a plan of
  store writes that may die after any of them. `StatsRows` shapes query answers,
  `Aggregation` is the trigger, `AggregationEffects` and `AggregationLedger` say what each
  write and each pass adds, `AggregationRuns` balances the books over whole runs, and
  `AggregationPasses`, `AggregationBounds`, `AggregationDays` (with `DayValues`) and
  `AggregationNames` draw the consequences; `AggregationKeys` says what is found under the keys.
- **Offline bundles** (`docs/lib/agentBundle.ts`). `Crc` relates the table-driven CRC to
  the bit-serial one; `Zip` and `ZipReader` are the stored-ZIP writer and a reader; `Tar`,
  `TarWriter` and `TarEnds` the ustar reader, a writer, and damaged archives; `Pool` the
  worker pool under every schedule; `Bundle` and `Assembler` unpack, merge and store
  packages, `Packages` says what a package holds, and `BundleNames` finds the files again.
- **Issue submission** (`docs/worker.ts`, `docs/lib/issueSubmission.ts`). `Limiter` is the
  durable object; `RateRuns` and `DraftClaims` its rolling limit and its claim protocol over
  all runs; `Uploads` the image upload; `Base64`, `Signing` and `Der` the codecs.
- **Migration gate** (`src-tauri/src/migration_gate.rs`): `Gate`.
- **Tunnel queues** (`deploy/dbx_tunnel.php`): `Tunnel`.
- **Startup ladder** (`src-tauri/src/startup_recovery.rs`): `History`, `Ladder`.
- **Service registration** (`src-tauri/src/background_backup.rs`): `Quoting`,
  `ServiceArguments`.
- **Stylesheet imports** (`apps/desktop/vite.docs-export.config.ts`): `CssImports`.

`Bytes`, `Bits`, `Texts`, `Options` and `JsObjects` hold what several of them share.

Code that updates things in place is a method or a class (`Archive`, `Stylesheets`,
`IssueSubmissionLimiter`, `Process`, `Socket`, `Bucket`, the CRC, ZIP, tar, pool, assembler
and DER loops), proved against a specification function. Concurrent code is a state machine
whose steps are the atomic statements, and the theorems range over all sequences of steps.

## Where the code and its promises part

- Statistics: a trigger that fails before its pass has persisted a cursor is retried with
  the same chunk, although the comment says the chunk halves on failure (`RetryChunk`); if it
  keeps failing there, nothing moves and its rows are added again each time (`StalledRun`,
  `RetriesAddUp`).
- Statistics: ids that are names of inherited object properties, such as `constructor`, pass
  the id pattern and are lost from the summary (`SummaryExactIff`, `ConstructorLost`); the
  run theorems therefore speak of summary cells of other ids, and of all totals.
- Statistics: a daily-unique key holds the value of the last window that touched the day
  (`DailyKeysHoldWindow`). The comment speaks of converging to the full-day value: that holds
  if and only if in every hour of the day everyone seen before the window is seen again in it
  (`KeyIsFullDayIff`), and a day divided between two passes breaks it (`DividedDay`).
- Tar reader: the long name of a directory or pax header stays pending and renames the next
  file (`RoundTrip`, `LongDirectoryLeaks`).
- ZIP writer: its guard admits archives whose end record wraps at 2^32 (`EndRecordExact`,
  `GuardAdmitsWrap`); they read back if and only if nothing wraps (`RoundTrip`).
- Rolling limit: eight admissions per window hold for windows open on one side; a window
  closed on both sides can hold up to sixteen (`AtMostEight`, `ClosedWindow`,
  `ClosedWindowHoldsSixteen`).
- Image upload: a failed upload is undone if and only if every deletion of an uploaded image
  succeeds, because a failing deletion is ignored (`RestoredIff`, `StuckObjectStays`).
- Draft claims: a draft can get two issues if and only if it has two submitters and outlives
  the first possible lease, which drafts of thirty minutes with leases of two do
  (`NeverTwoIff`, `LateClaimantMakesTwo`, `LostCompletionGrantsAgain`). It gets one if claimants
  finish in time and completions arrive (`AtMostOneIssue`), and an issue is the last one if and
  only if nobody can claim the draft any more (`NoMoreIssuesIff`, `OnlyIssueStaysIff`).
- Bundles: two packages whose files have one name are both stored, and the registry leads to
  the last of them (`SlotsFoundIff`, `BundleFoundIff`, `CollidingPair`).
- Signed payloads: a signature that is not base64 makes verification throw rather than
  answer null (`UndecodableThrows`, `ExclamationThrows`).
- DER: lengths of 2^32 and more wrap (`ElementReadsBack`, `WrapRoundTrip`).

## Assumptions

- Statistics: triggers run one after the other, the clock does not go back, a window's query
  answers are the groups of a fixed set of events in any order, the comparison used for
  sorting is some total order on labels, and hour labels have no colon in their first ten
  characters. Counters are unbounded naturals, timestamps whole seconds.
- Bundles: zstd, JSON, UTF-8, SHA-256 and lower-casing are function parameters without
  assumed laws; downloads may fail or return anything, differently for each task. A look-up
  by name in a ZIP gives the last entry of that name.
- Issue submission: each request to the durable object is one atomic step and the clock does
  not go back; a draft id is never created twice. HMAC, JSON and UTF-8 are parameters, with
  the inverse laws a theorem needs among its requirements.
- Gate: `notify_waiters` wakes every registration that exists, as tokio documents.
- Tunnel: the lock is exclusive and file writes under it are complete.
- Ladder: an elevated child inherits its parent's environment, as the source states.
- Stylesheets: files and their imports do not change during the walk.

## Model

| member | source | states |
|---|---|---|
| Crc.StepLinear | docs/lib/agentBundle.ts:289-299 | stepping the reflected register is linear over exclusive or: the step of a sum is the sum of the steps |
| Crc.StepsInjective | docs/lib/agentBundle.ts:289-299 | no number of steps maps two register states to one: the register loses no information |
| Crc.StepsTable | docs/lib/agentBundle.ts:289-307 | the identity that makes the table form correct: n steps equal one lookup by the low n bits combined with one shift |
| Crc.ClockAllIsSteps | docs/lib/agentBundle.ts:301-307 | up to four octets may be mixed into the register at once and stepped through together with the same result as bit by bit |
| Crc.TableValue | docs/lib/agentBundle.ts:289-299 | eight rounds of shift-and-conditional-xor give the register state eight reference steps away from the index |
| Crc.BuildTable | docs/lib/agentBundle.ts:289-299 | the table has 256 words and entry i is the reference register stepped eight times from i |
| Crc.TableCrc32 | docs/lib/agentBundle.ts:301-307 | the table-driven loop returns, on every byte string, the bit-at-a-time reflected CRC-32 with polynomial 0xEDB88320 |
| Crc.LookUp | docs/lib/agentBundle.ts:301-307 | one pass of the loop body equals eight clocks of the reference register fed with one octet |
| Crc.ResidueOf | docs/lib/agentBundle.ts:301-307 | every message followed by its own CRC, least significant octet first, has the CRC 0x2144DF1C |
| Crc.BurstDetected | docs/lib/agentBundle.ts:301-307 | messages of equal length that differ only inside four consecutive octets always have different CRCs |
| Crc.KnownValues | docs/lib/agentBundle.ts:301-307 | the CRC of no octets is 0 and that of the letter a is 0xE8B7BE43 |
| Zip.LocalHeader | docs/lib/agentBundle.ts:332-402 | the local header carries signature, flags, CRC, both sizes and the name where section 4.3.7 of PKWARE APPNOTE puts them |
| Zip.CentralHeader | docs/lib/agentBundle.ts:332-402 | the central header carries the entry's fields and its local header's offset where section 4.3.12 of PKWARE APPNOTE puts them |
| Zip.EndRecord | docs/lib/agentBundle.ts:332-402 | the end record carries the counts, the directory's size and its offset where section 4.3.16 of PKWARE APPNOTE puts them |
| Zip.BuildStoredZip | docs/lib/agentBundle.ts:332-402 | fails exactly when an entry list is refused and with the first refusal that applies; otherwise the parts are the archive of the entries and the total is its length by formula |
| Zip.RefusedIff | docs/lib/agentBundle.ts:332-350 | which of the four refusals an entry list gets, each if and only if: none, more than 65535, a name that is empty, longer than 65535 or not ASCII, data that ends beyond 2^32 - 1 from its offset |
| ZipReader.RoundTrip | docs/lib/agentBundle.ts:332-402 | a reader that starts at the end record and goes through the central directory to the local headers, checking sizes and CRCs, gets exactly the input names and data in order if and only if the directory's offset and size fit in 32 bits |
| ZipReader.TotalSizeExact | docs/lib/agentBundle.ts:332-402 | the reported total is the true length of the concatenated parts, however large |
| ZipReader.OffsetsExact | docs/lib/agentBundle.ts:332-402 | in every run that does not throw, each stored local-header offset is the position of that header in the output |
| ZipReader.EndRecordExact | docs/lib/agentBundle.ts:332-402 | the end record's directory size and offset are exact if and only if the true values fit in 32 bits |
| ZipReader.RecordOctets | docs/lib/agentBundle.ts:352-400 | the octets of all three records besides names, sizes, CRCs and offsets: signatures, versions, flags, method, time, date, counts and the zero fields |
| ZipReader.GuardAdmitsWrap | docs/lib/agentBundle.ts:350-350 | the size guard accepts an entry list whose directory offset does not fit in 32 bits |
| Tar.Octal | docs/lib/agentBundle.ts:190-198 | the loop returns the value of the octal digits before the first NUL or space and fails on any other octet |
| Tar.ParseTarEntries | docs/lib/agentBundle.ts:201-232 | terminates on every input and returns the map, or the error, that the recursive listing of the headers prescribes; later files replace earlier ones of the same name |
| Tar.SlicesOfInput | docs/lib/agentBundle.ts:201-232 | on arbitrary octets every listed file's data is a slice of the input and its name is not empty |
| TarWriter.OctalFieldReadBack | docs/lib/agentBundle.ts:190-198 | a size below 8^11 written as an octal field is read back |
| TarWriter.ReadsItems | docs/lib/agentBundle.ts:201-232 | for every archive a ustar/GNU writer produces, the reader lists exactly the files a left-to-right account of pending long names predicts |
| TarWriter.SeenIsFiles | docs/lib/agentBundle.ts:213-224 | the files are seen under their own names if and only if no long name is pending in front of a file that does not carry one |
| TarWriter.RoundTrip | docs/lib/agentBundle.ts:201-232 | the reader inverts the writer, skipping directory and pax headers, if and only if no long name of a directory or pax header leaks onto a following file |
| TarWriter.RoundTripMap | docs/lib/agentBundle.ts:201-232 | a leak-free archive with distinct names comes back as the map from names to contents |
| TarWriter.LongDirectoryLeaks | docs/lib/agentBundle.ts:213-226 | a directory with a GNU long name makes the plain file after it appear under the directory's name |
| TarEnds.ReadsBlocks | docs/lib/agentBundle.ts:201-232 | behind any written items the reader goes on with the long name they leave pending, their files listed first |
| TarEnds.ReadsWhatFollows | docs/lib/agentBundle.ts:205-231 | behind any written items the reader stops at less than a block or at a zero block, and throws at a damaged size field, at data that is not all there and at an unknown type |
| TarEnds.DamagedIff | docs/lib/agentBundle.ts:190-198 | a size field throws if and only if a foreign character stands before its first NUL or space |
| TarEnds.NoPrefixWithoutMagic | docs/lib/agentBundle.ts:216-223 | the prefix field counts only under the magic ustar |
| TarEnds.LineEndKeepsNul | docs/lib/agentBundle.ts:207-207 | a NUL with a line end behind it does not end a name |
| Pool.PoolSafe | docs/lib/agentBundle.ts:424-442 | at every point of every interleaving each task has started at most once and settled at most as often as started, at most max(1, min(limit, n)) are in flight, and no task starts after a recorded failure |
| Pool.StartsInOrder | docs/lib/agentBundle.ts:424-442 | every schedule starts the tasks in the order of the list |
| Pool.FullWidth | docs/lib/agentBundle.ts:440-440 | max(1, min(limit, n)) tasks are really in flight under some schedule |
| Pool.PoolResult | docs/lib/agentBundle.ts:424-442 | when all workers have stopped every started task has settled; the pool throws exactly when some task failed, and then the first recorded error; otherwise every task completed exactly once |
| Pool.PoolEnds | docs/lib/agentBundle.ts:424-442 | no interleaving has more than two steps per task and one per worker |
| Pool.CanEnd | docs/lib/agentBundle.ts:424-442 | from every state the pool can be run to its end, whatever its tasks do |
| Pool.RunPool | docs/lib/agentBundle.ts:424-442 | the pool with its shared cursor and failure cell, under any schedule that runs it to its end, returns the first error of its history, or has completed each task once |
| Bundle.FilenameFacts | docs/lib/agentBundle.ts:60-63 | the file name taken from a URL is what follows its last slash, and contains none |
| Bundle.OfflineRoundTrip | docs/lib/agentBundle.ts:60-63 | the offline URL of a slash-free file name gives that name back |
| Bundle.ExtractFacts | docs/lib/agentBundle.ts:239-287 | whatever a package contains, an extraction that does not throw yields one artifact of the expected driver whose rewritten URL names the extracted file, with exactly the declared size when that is positive |
| Packages.ExtractIff | docs/lib/agentBundle.ts:239-287 | extraction gives x if and only if the package decompresses to an archive whose registry names just this driver with one artifact, x carries the bytes last listed under drivers/ and the artifact's file name, at the declared size, and the entry with the offline URL |
| Packages.ExtractRefusals | docs/lib/agentBundle.ts:240-243 | extraction fails for the archive if and only if it has no listing, and for a missing registry if and only if the listing has none |
| Bundle.TaskFacts | docs/lib/agentBundle.ts:506-532 | a download task that succeeds delivers a package of the planned driver and kind whose package and artifact digests match the declared ones |
| Packages.TaskIff | docs/lib/agentBundle.ts:506-532 | a task delivers x if and only if the download succeeded, its digest matches, the package holds x, the kind is the planned one and the artifact's digest matches |
| Packages.JreTaskIff | docs/lib/agentBundle.ts:535-552 | the runtime's task delivers the downloaded bytes if and only if their digest matches |
| Bundle.MergedAt | docs/lib/agentBundle.ts:448-461 | after merging any list of packages, every driver and platform holds the artifact of the last package that provides it: merging loses no platform |
| Packages.MergedIff | docs/lib/agentBundle.ts:448-461 | merging fails as a duplicate if and only if two packages of one driver are not both native or a driver has an inherited name; otherwise each driver keeps what its first package says about it |
| Assembler.PoolCompletes | docs/lib/agentBundle.ts:424-442 | in every interleaving in which the pool does not throw, its completion order covers all tasks |
| Assembler.AtMostFour | docs/lib/agentBundle.ts:422-422 | at every point of every schedule at most four downloads are in flight |
| Assembler.HistoryExists | docs/lib/agentBundle.ts:493-554 | whatever the downloads give, a pool run of the plan's tasks exists |
| Assembler.Download | docs/lib/agentBundle.ts:493-554 | fails exactly when some task fails, with the first error the pool's history records; otherwise every planned URL maps to a package unpacked and verified for it, and the runtime's bytes are the downloaded ones |
| Assembler.Assemble | docs/lib/agentBundle.ts:469-589 | a returning run stores a registry and files such that every artifact URL is offline://f with f present under drivers/ or jre/, drivers at their declared size and all with their declared digest, every planned item contributes the file and registry slot of what a package fetched for its URL holds, the runtime has its entry, and the output is the ZIP of exactly these; a run whose pool throws returns the pool's first recorded error, and any other failing run has one of the listed causes |
| Assembler.AssembledSelfContained | docs/lib/agentBundle.ts:556-585 | merged entries and files put together from well-formed packages are self-contained |
| Assembler.StoredEntries | docs/lib/agentBundle.ts:583-585 | the registry is stored first, as agent-registry.json, and then every file under its own name |
| Assembler.BundleReadsBack | docs/lib/agentBundle.ts:583-588 | the finished bundle reads back as the registry followed by every file in order if and only if its directory's offset and size fit in 32 bits |
| Assembler.LimitLeavesRoom | docs/lib/agentBundle.ts:34-35 | the 3.5 GiB stop suffices for that as long as headers, names and registry fit in the remaining 512 MiB |
| BundleNames.SlotsFoundIff | crates/dbx-driver-agent/src/agent_service.rs:3340-3344 | every registry slot leads by file name to the bytes of the package that serves it if and only if those bytes are the ones of the last package with that file name, and every slot is served by a package |
| BundleNames.BundleFoundIff | docs/lib/agentBundle.ts:556-585 | the same for whatever the assembler returns |
| BundleNames.CollidingPair | docs/lib/agentBundle.ts:559-565 | two drivers whose jars have one file name are assembled, and the first then leads to the jar of the second |
| StatsRows.LabelInjective | deploy/plugin-stats-worker/worker.ts:54-60 | kind and plugin patterns exclude the colon, so joined labels identify their rows |
| StatsRows.SortCanonical | deploy/plugin-stats-worker/worker.ts:177-184 | whatever order the rows arrive in, sorting by label gives the same list |
| StatsRows.CountsCanonical | deploy/plugin-stats-worker/worker.ts:187-215 | all answers to the counts query for a window are shaped into the same list, so a stored offset keeps its meaning |
| StatsRows.CountsSum | deploy/plugin-stats-worker/worker.ts:187-215 | sums over the shaped rows are sums over the window's accepted events |
| StatsRows.UniquesCanonical | deploy/plugin-stats-worker/worker.ts:145-185 | all answers to the uniques query are shaped into the same list |
| StatsRows.TallyMember | deploy/plugin-stats-worker/worker.ts:172-176 | a day's row carries the sum of its hourly counts |
| StatsRows.SplitLabel | deploy/plugin-stats-worker/worker.ts:179-183 | splitting a merge key gives back kind, plugin and day |
| StatsRows.EventSumSplits | deploy/plugin-stats-worker/worker.ts:187-215 | consecutive half-open windows divide the events between them |
| AggregationEffects.VersionKeyInjective | deploy/plugin-stats-worker/worker.ts:287-287 | versioned totals of different rows never share a key |
| AggregationEffects.FamiliesDisjoint | deploy/plugin-stats-worker/worker.ts:287-297 | a versioned total never shares a key with a per-plugin total |
| AggregationEffects.UniqueKeyInjective | deploy/plugin-stats-worker/worker.ts:308-308 | daily-unique keys of different rows are different |
| AggregationEffects.ApplyAdds | deploy/plugin-stats-worker/worker.ts:285-321 | a write adds to a counter or summary cell exactly what it says and nothing to any other |
| AggregationEffects.ApplyControl | deploy/plugin-stats-worker/worker.ts:311-327 | only the cursor writes change the cursor and only the watermark write changes the watermark |
| Aggregation.Archive.Write | deploy/plugin-stats-worker/worker.ts:285-328 | one store mutation changes the store as prescribed, or fails and changes nothing |
| Aggregation.Archive.WriteRows | deploy/plugin-stats-worker/worker.ts:285-310 | the loop over a slice applies a prefix of the slice's writes: all of them unless one fails |
| Aggregation.Archive.RunAggregation | deploy/plugin-stats-worker/worker.ts:245-347 | a trigger that dies after any number of writes leaves the store exactly as that prefix of its planned writes, with the chunk halved if the catch block gets to it |
| AggregationLedger.AnswersYieldTables | deploy/plugin-stats-worker/worker.ts:274-282 | every pair of query answers for a window yields the window's lists |
| AggregationLedger.TotalIsEventSum | deploy/plugin-stats-worker/worker.ts:274-282 | the counts, the per-plugin totals and the summary deltas of a window are its accepted event sums |
| AggregationLedger.PlanAdvances | deploy/plugin-stats-worker/worker.ts:285-327 | a trigger that does not end the pass carries every counter from the cursor's progress to the next cursor's |
| AggregationLedger.PlanCompletes | deploy/plugin-stats-worker/worker.ts:311-322 | the completing trigger leaves every counter and summary cell with the window's full sum |
| AggregationRuns.BooksBalance | deploy/plugin-stats-worker/worker.ts:263-346 | over any run of passes with deaths after any write, each counter is its opening value plus the events of settled windows plus the persisted progress of the current pass plus exactly the deltas written by triggers that died before persisting or deleting their cursor |
| AggregationRuns.StepBalanced | deploy/plugin-stats-worker/worker.ts:263-346 | every single trigger keeps cursor and watermark consistent and the books balanced |
| AggregationRuns.TriggersExist | deploy/plugin-stats-worker/worker.ts:263-282 | in every state and at every time a trigger exists whose query answers meet the assumptions of the run theorems |
| AggregationPasses.NeverUnderCounts | deploy/plugin-stats-worker/worker.ts:263-346 | however triggers fail, every total and summary cell has grown by at least the number of its events up to the watermark |
| AggregationPasses.ChunkedEqualsOneShot | deploy/plugin-stats-worker/worker.ts:245-347 | for any starting chunk and any number of non-failing triggers, a finished pass leaves in every versioned total, per-plugin total and summary cell exactly the one-shot sum |
| AggregationKeys.TotalsByName | deploy/plugin-stats-worker/worker.ts:285-300 | after any run with no pass open, the numbers under "total:" + kind + ":" + plugin and the same with ":" + version have grown by the accepted events since the last success, plus the excess of failed triggers, which is zero without failures; names the patterns reject never grow |
| AggregationKeys.SummaryByName | deploy/plugin-stats-worker/worker.ts:312-318 | the same for the number under kind and plugin in "summary" |
| AggregationPasses.WindowsTile | deploy/plugin-stats-worker/worker.ts:263-346 | the windows of completed passes follow each other without gap or overlap from the first watermark to the settled time |
| AggregationPasses.ExactlyOneWindow | deploy/plugin-stats-worker/worker.ts:263-346 | in tiled windows an instant lies in exactly one window, and in one if and only if it lies in the covered time |
| AggregationBounds.PassEnds | deploy/plugin-stats-worker/worker.ts:285-327 | with failures anywhere in between, a pass opened by a committed trigger has been completed over the window that trigger fixed, and the watermark has moved to its end, once as many triggers have committed as the lists take at the smallest chunk |
| AggregationBounds.PassEndsAfterStall | deploy/plugin-stats-worker/worker.ts:285-343 | the same however often earlier triggers died before opening the pass |
| AggregationBounds.LivePassEnds | deploy/plugin-stats-worker/worker.ts:285-327 | without failures the window of a pass over C, P and U rows is settled within ceil(C/8) + ceil(P/8) + ceil(U/8) + 3 triggers |
| AggregationBounds.ChunkInRange | deploy/plugin-stats-worker/worker.ts:236-243 | every trigger of every run works with a chunk within 8..400, taken from agg:tuning if that is in range and else 400 when it opens a pass, and makes at most chunk + 4 writes |
| AggregationBounds.RetryChunk | deploy/plugin-stats-worker/worker.ts:330-343 | a failed trigger is retried with half its chunk if and only if the catch block runs and a cursor had been persisted; the first trigger of a pass is retried unchanged |
| AggregationBounds.StalledRun | deploy/plugin-stats-worker/worker.ts:261-269 | as long as the first trigger of a pass keeps dying before its commit, no cursor appears, watermark and chunk never move, every later trigger plans the writes it would have planned at first, and all that was written stays as excess |
| AggregationBounds.RetriesAddUp | deploy/plugin-stats-worker/worker.ts:285-343 | m repetitions of the same dying first trigger add to every counter m times what one of them adds |
| AggregationBounds.ChunkCreepsUp | deploy/plugin-stats-worker/worker.ts:321-327 | every trigger that finishes leaves a strictly larger chunk until 400 is reached: one more within the pass, a quarter more, rounded up, for the next pass |
| AggregationDays.DailyKeysHoldWindow | deploy/plugin-stats-worker/worker.ts:304-311 | when a pass completes, each daily-unique key of its window holds the window's value, whatever failed on the way |
| AggregationKeys.DaysByName | deploy/plugin-stats-worker/worker.ts:304-308 | when a pass completes, the number under "uniqd:" + kind + ":" + plugin + ":" + the first ten characters of the hour labels is the number of different pairs of hour and identity seen on that day in the window |
| AggregationKeys.DayValueIsVisits | deploy/plugin-stats-worker/worker.ts:145-185 | a day's value counts each identity once in each hour of the day |
| AggregationKeys.HoursShareKey | deploy/plugin-stats-worker/worker.ts:168-168 | two hours of a plugin share a daily key if and only if their first ten characters agree |
| DayValues.RowCarriesDayValue | deploy/plugin-stats-worker/worker.ts:172-184 | a day's row in a window's list carries the sum, over the hours of the day, of the distinct identities seen in the window |
| DayValues.DayValuesAgree | deploy/plugin-stats-worker/worker.ts:145-185 | of two windows that end together the shorter gives a day at most the value of the longer, and the same value if and only if in every hour of the day everyone who came before the shorter window came again within it |
| AggregationDays.KeyIsFullDayIff | deploy/plugin-stats-worker/worker.ts:304-311 | when a pass over (from, to] completes, a daily key it wrote holds the day's value over all events since any earlier time if and only if in every hour of the day everyone seen before from is seen again in (from, to] |
| AggregationDays.UntouchedDay | deploy/plugin-stats-worker/worker.ts:304-311 | a trigger whose window has no visitor of a day leaves the day's key and the day's value unchanged |
| AggregationDays.DividedDay | deploy/plugin-stats-worker/worker.ts:304-311 | a run of two completed passes after which the day's key holds one although the day had two visitors |
| AggregationDays.FinishPass | deploy/plugin-stats-worker/worker.ts:245-347 | every run, whatever failed in it, extends to one whose next trigger completes the current pass over its window, with no pass in between |
| AggregationNames.MergeExactIff | deploy/plugin-stats-worker/worker.ts:313-317 | one merge into an absent summary cell shows a plugin's sum if and only if its id is not the name of an inherited object property or it has no events |
| AggregationNames.SummaryExactIff | deploy/plugin-stats-worker/worker.ts:313-317 | over every run from a store without the cell, failures included, the summary cell is the settled events plus the excess of failed triggers if and only if the id is not an inherited name or there is nothing to count |
| AggregationNames.ConstructorLost | deploy/plugin-stats-worker/worker.ts:314-317 | a run with one completed pass over an accepted event of a plugin called "constructor" leaves its summary cell at zero |
| Limiter.ConsumeRollingLimit | docs/lib/issueSubmission.ts:193-205 | filtering, sorting and pushing give the decision, timestamps, remaining count and reset time of the specification for arbitrary stored timestamps |
| Limiter.ConsumeMeaning | docs/lib/issueSubmission.ts:193-205 | for arbitrary timestamps a request is allowed if and only if fewer than the limit lie inside the window; exactly these are kept, sorted, and the reset is one window after the earliest |
| Limiter.SortFacts | docs/lib/issueSubmission.ts:199-199 | sorting orders the timestamps and keeps each of them |
| Limiter.IssueSubmissionLimiter.ConsumeRequest | docs/worker.ts:569-580 | a consume request stores the timestamps exactly when it is admitted and sets the alarm behind the last timestamp |
| Limiter.IssueSubmissionLimiter.ClaimRequest | docs/worker.ts:596-616 | a claim answers and changes the record as the protocol prescribes and leaves every other draft alone |
| Limiter.IssueSubmissionLimiter.Release | docs/worker.ts:618-626 | a release makes a submitting draft ready again and changes nothing else |
| Limiter.ReleaseUndoesClaim | docs/worker.ts:618-626 | a release undoes a claim, the next claim before the expiry is granted, and other drafts are left alone |
| Limiter.IssueSubmissionLimiter.Complete | docs/worker.ts:628-649 | a completion is accepted exactly for a non-empty result and marks an existing draft submitted |
| Limiter.ClaimAnswers | docs/worker.ts:596-616 | when a claim answers missing, completed, expired, busy or claimed, each if and only if, and what it leaves of the record |
| Limiter.CompletionRecorded | docs/worker.ts:628-649 | after a valid completion of a stored draft every claim at any time answers with just that issue |
| RateRuns.RefusedExactly | docs/worker.ts:569-580 | in every run of requests and alarms with a non-decreasing clock a request is refused exactly when eight admissions of the whole history are still active |
| RateRuns.AtMostEight | docs/lib/issueSubmission.ts:193-205 | every window of length W that is open on the left holds at most eight admissions |
| RateRuns.ResetIsEarliest | docs/lib/issueSubmission.ts:200-202 | after a refusal, and until another admission, a request is admitted if and only if its time has reached resetAt |
| RateRuns.RemainingIsRoom | docs/lib/issueSubmission.ts:200-204 | the remaining count is the room the current window has left after the request, zero on a refusal |
| RateRuns.AlarmHarmless | docs/worker.ts:654-656 | an alarm that fires no earlier than scheduled never discards an active timestamp |
| RateRuns.AlarmExact | docs/worker.ts:577-578 | after a request the alarm is set for one second after the last admission leaves its window |
| RateRuns.RunKeeps | docs/worker.ts:569-580 | storage and history have the same active timestamps after every run |
| RateRuns.ClosedWindow | docs/lib/issueSubmission.ts:199-199 | a window closed on both sides holds at most sixteen admissions, and more than eight only if some came at its very start |
| RateRuns.ClosedWindowHoldsSixteen | docs/lib/issueSubmission.ts:199-199 | sixteen are reached by eight requests at once and eight more exactly W later |
| DraftClaims.SubmittedStays | docs/worker.ts:596-649 | claim, release and complete never take a draft out of submitted, and claims on it are answered with its issue |
| DraftClaims.ClaimsNameIssue | docs/worker.ts:492-550 | once the completion of a created issue has arrived, every claim in every continuation is answered with that issue until another completion arrives or an alarm wipes the record |
| DraftClaims.GrantsApart | docs/worker.ts:596-616 | in every interleaving two grants with no release between them are at least the claim lifetime apart |
| DraftClaims.StepSafe | docs/worker.ts:492-550 | a timely step keeps a single holder whose lease the record shows, and no claim is granted once an issue exists |
| DraftClaims.AtMostOneIssue | docs/worker.ts:492-550 | in every interleaving of submitters, alarms and clock in which each claimant acts within its lease and the completions of created issues arrive, releases may be lost, at most one issue is created and no later claim is granted |
| DraftClaims.NoMoreIssuesIff | docs/worker.ts:492-550 | from any state no further issue can follow in any continuation if and only if nobody holds a claim and no submitter that could still ask for one finds the record claimable before it expires |
| DraftClaims.OnlyIssueStaysIff | docs/worker.ts:492-550 | the one issue of any run stays the only one in every continuation if and only if the run ends in such a state |
| DraftClaims.NeverTwoIff | docs/worker.ts:596-616 | a fresh draft gets at most one issue in every interleaving, late claimants and lost requests included, if and only if it has one submitter or expires no later than the first possible lease |
| DraftClaims.FreeDraftIsGranted | docs/worker.ts:596-616 | in such interleavings a claim on an unexpired draft that nobody holds and that has no issue is granted if and only if no lease of a lost release still runs, and always if no release was lost |
| DraftClaims.NoGrantAfterExpiry | docs/worker.ts:606-609 | in every interleaving, timely or not, no claim is granted at or after the expiry the draft was created with |
| DraftClaims.LateClaimantMakesTwo | docs/worker.ts:596-616 | for every fresh draft with two submitters that outlives a lease, a claimant that creates its issue after its lease has run out lets a second issue be created |
| DraftClaims.LostCompletionGrantsAgain | docs/worker.ts:533-538 | a lost completion lets a later claim be granted although an issue exists |
| Uploads.UploadIssueImages | docs/worker.ts:405-425 | all images are stored under their keys, or the store is what deleting the images stored before the failure leaves, deletions that fail being ignored |
| Uploads.RemoveAll | docs/worker.ts:418-418 | the deletions remove exactly the given keys whose deletion succeeds |
| Uploads.LeftBehind | docs/worker.ts:405-425 | after a failed upload under new keys the store is what it was plus exactly the uploaded objects whose deletion failed, with their bytes |
| Uploads.RestoredIff | docs/worker.ts:417-419 | a failed upload restores the store if and only if every deletion of an uploaded key succeeds |
| Uploads.StuckObjectStays | docs/worker.ts:417-419 | an upload that fails on its second image and cannot delete the first leaves the first in the store |
| Gate.NeverLost | src-tauri/src/migration_gate.rs:17-31 | in every interleaving of waiters and setters, a waiter parked without a wake-up while the gate is open is owed one by a setter between its store and its notification |
| Gate.ReturnsOnlyWhenReady | src-tauri/src/migration_gate.rs:21-31 | a waiter that has returned did so in a step of its own that read the flag as true |
| Gate.OpenGateLetsPass | src-tauri/src/migration_gate.rs:21-31 | once the gate is open and no setter is mid-call, every waiter has returned after three steps of its own, however other waiters and setters that keep the gate open interleave |
| Gate.WokenGoesOn | src-tauri/src/migration_gate.rs:21-31 | a notification between registering and parking is not lost: whatever the others do, a woken waiter has returned or is back at the top of its loop after at most two steps of its own |
| Base64.SextetsRoundTrip | docs/worker.ts:122-132 | regrouping octets into sextets and back is the identity for every length |
| Base64.SameNumber | docs/worker.ts:122-126 | four sextets are the number their three octets are, a short last group filled with zero bits |
| Base64.Alphabet | docs/worker.ts:122-126 | the letters are those of table 1 of RFC 4648 |
| Base64.EncodeRoundTrip | deploy/dbx_tunnel.php:332-360 | both the JavaScript and the strict PHP decoder undo the encoder on every byte string, and encoded text has no white space |
| Base64.StrangerFails | deploy/dbx_tunnel.php:352-364 | a character that is no letter, padding or white space makes both decoders fail |
| Base64.SpacesSkipped | docs/worker.ts:128-132 | white space counts for neither decoder, except that the strict PHP decoder refuses form feeds |
| Base64.OddLengthFails | docs/worker.ts:128-132 | no text of 4k + 1 letters decodes |
| Base64.UrlEncodeLoop | docs/worker.ts:122-126 | the accumulating loop computes the unpadded URL-safe form |
| Base64.UrlRoundTrip | docs/worker.ts:122-132 | base64UrlDecode undoes base64UrlEncode for byte strings of every length and the encoded form contains no dot |
| Base64.UrlAlphabet | docs/worker.ts:122-126 | the URL-safe text has, letter by letter, the letters of table 2 of RFC 4648 and no padding |
| Signing.SignedIsAccepted | docs/worker.ts:142-161 | every signed payload is accepted under the same secret and comes back as it was signed |
| Signing.VerifyIff | docs/worker.ts:148-161 | a value of two parts gives a payload if and only if the second decodes to the MAC of the first under the secret and the first decodes and parses to it; if the second decodes to anything else the answer is null |
| Signing.WrongSecretIsNull | docs/worker.ts:148-154 | a signed payload is rejected under every secret that gives its body another MAC |
| Signing.IncompleteIsNull | docs/worker.ts:148-151 | a value without two non-empty parts is answered with null |
| Signing.TrailingPartsIgnored | docs/worker.ts:150-151 | what follows a second dot is ignored, so other texts than the signed one are accepted too |
| Signing.UndecodableThrows | docs/worker.ts:148-154 | verification throws instead of answering null if and only if both parts are present and the signature is not base64 |
| Signing.ExclamationThrows | docs/worker.ts:148-154 | the value a.! makes verification throw |
| Tunnel.DecodeText | deploy/dbx_tunnel.php:352-364 | the decoding loop returns the concatenation of all decodable lines of a queue text |
| Tunnel.LineDecodes | deploy/dbx_tunnel.php:323-336 | a line written for a chunk decodes to that chunk |
| Tunnel.DecodedAppend | deploy/dbx_tunnel.php:338-365 | decoding distributes over texts that end at line boundaries |
| Tunnel.QueueConserves | deploy/dbx_tunnel.php:323-365 | in every interleaving of the lock-protected statements of appends and drains, bytes drained so far followed by bytes still queued are the bytes appended so far |
| Tunnel.PostArrives | deploy/dbx_tunnel.php:323-336 | while nobody holds the lock a post takes three statements and queues just its data |
| Tunnel.SocketReceivesPrefix | deploy/dbx_tunnel.php:205-210 | with one worker the target socket has at all times received a prefix of what clients posted, even across partial and failed writes |
| Tunnel.WorkerDelivers | deploy/dbx_tunnel.php:204-210 | in every reachable state in which nobody holds the lock and the worker polls, its poll and one complete write leave the socket with all that was posted and the queue empty |
| Tunnel.WriteAll | deploy/dbx_tunnel.php:270-285 | partial writes add up to the data in order, or a proper prefix of it has been written and the call fails |
| Quoting.XmlIsMap | src-tauri/src/background_backup.rs:166-168 | the five chained replacements equal one pass that maps each character on its own |
| Quoting.XmlSafe | src-tauri/src/background_backup.rs:166-168 | no angle bracket or quote is left in what xml writes |
| Quoting.XmlRoundTrip | src-tauri/src/background_backup.rs:166-168 | expanding the predefined entities of section 4.6 of XML 1.0 undoes xml on every string |
| Quoting.NormalizingRoundTrip | src-tauri/src/background_backup.rs:166-168 | a parser that also normalises line ends (section 2.11 of XML 1.0) gives the string back if and only if it has no carriage return |
| ServiceArguments.SystemdIsMap | src-tauri/src/background_backup.rs:321-323 | the four chained replacements equal one pass that maps each character on its own |
| ServiceArguments.SystemdRoundTrip | src-tauri/src/background_backup.rs:321-323 | unquoting, specifier expansion and variable expansion give every argument back |
| ServiceArguments.TaskArgumentsParse | src-tauri/src/background_backup.rs:239-241 | CommandLineToArgvW splits the scheduled arguments into the two flags and the path for every path without a double quote, trailing backslashes and spaces included |
| ServiceArguments.TaskRoundTrip | src-tauri/src/background_backup.rs:239-247 | the same after XML-encoding and decoding the arguments |
| CssImports.Stylesheets.ImportsOf | apps/desktop/vite.docs-export.config.ts:43-53 | the recursive walk terminates, adds only files reachable from the given one, and leaves all imports of that file and of every added file in the shared set |
| CssImports.ScanModules | apps/desktop/vite.docs-export.config.ts:112-120 | after all modules, for any graph and any order, the shared set is exactly the files some stylesheet module reaches by one or more resolvable imports |
| History.ToTextParses | src-tauri/src/startup_recovery.rs:454-487 | the decimal text of an octet parses back to it |
| History.ParseOctetIff | src-tauri/src/startup_recovery.rs:454-456 | a text parses to i if and only if it is, inside white space, an optional plus sign and digits that stand for i, at most 255 |
| History.JoinParses | src-tauri/src/startup_recovery.rs:458-464 | a joined history parses back to its list |
| History.AppendedParses | src-tauri/src/startup_recovery.rs:481-487 | appending adds an index to the parsed history once, at its end |
| Ladder.Process.Escalate | src-tauri/src/startup_recovery.rs:1058-1142 | the escalation loop launches the first later profile whose launch succeeds, in the environment the specification prescribes, elevated attempts included |
| Ladder.ClimbFacts | src-tauri/src/startup_recovery.rs:1058-1142 | a launched child runs a later profile with the history extended by it, and elevation is attempted at most once and only if not flagged before |
| Ladder.FirstProfile | src-tauri/src/startup_recovery.rs:627-648 | the profile a chain starts with, for every environment and marker: 0 when switched off, the one the environment names, 1 for the bare recovery flag, the marker's, else 0, and 0 for numbers beyond the ladder |
| Ladder.NoneLeftOut | src-tauri/src/startup_recovery.rs:1070-1098 | a profile whose launch would have succeeded is passed over only if it asks for elevation and the process is elevated already, the flag was set, or an elevated launch has just failed |
| Ladder.ChainClimbs | src-tauri/src/startup_recovery.rs:627-648 | along every relaunch chain the profile index strictly increases, so no profile runs twice and at most n + 1 processes run |
| Ladder.ElevatesOnce | src-tauri/src/startup_recovery.rs:1154-1162 | a whole chain attempts at most one elevated launch, and none once the flag is set |
| Ladder.HistoryIsPath | src-tauri/src/startup_recovery.rs:1119-1126 | from a clean start each child receives as history exactly the increasing list of profiles run so far, ending in its own |
| Der.EncodeAsn1Length | docs/lib/issueSubmission.ts:103-112 | the loop with 32-bit shifts computes the length octets of the specification |
| Der.LengthIsMinimal | docs/lib/issueSubmission.ts:103-112 | below 2^32 the length takes one octet under 128 and otherwise the fewest octets that hold it |
| Der.ConcatBytes | docs/lib/issueSubmission.ts:77-85 | filling a buffer at running offsets gives the concatenation of the arrays |
| Der.ElementReadsBack | docs/lib/issueSubmission.ts:114-116 | a DER reader recovers tag, content and remainder if and only if the content is shorter than 2^32 octets |
| Der.WrapRoundTrip | docs/lib/issueSubmission.ts:118-122 | a reader that takes the structure apart element by element, version 0, the identifier rsaEncryption with NULL parameters, the key, gets the key back if and only if the wrapped content is shorter than 2^32 octets |

## Left out

- The aggregation lock and the `x-archive-from` override, and recovery from a corrupted cursor: mutual exclusion is assumed and both restarts count anew on purpose.
- Numbers beyond 2^53, negative or fractional event counts in the statistics: sums are over naturals.
- Non-finite timestamps in the rolling limit's storage: only times written by the limiter itself are modelled.
- Network, KV, R2, Durable Object and GitHub calls: steps that succeed or fail; their retries and status codes are not modelled, nor a call that takes effect and still reports failure.
- Progress reporting, abort signals and error texts of the bundle assembler: an abort is a failed download, errors are kinds.
- `buildCustomBundleOptions`, `computeBundlePlan` and `resolveBundleJre`: they only select which packages to download; any plan is covered.
- DOS date fields of the ZIP writer: time and date are arbitrary 16-bit values.
- Non-ASCII names in the tar writer: the round trip is for ASCII names, as the reader decodes header names octet by octet.
- Quoting.XmlRoundTrip: expands the predefined entities only; character references and markup do not occur in what `xml` writes.
- ServiceArguments.SystemdRoundTrip: the parser knows the escapes, specifier and variable forms that `systemd_arg` writes and rejects others.
- Tunnel: session directories, timeouts, close markers and the order of "closed" against the last queued bytes.
- Ladder: log files, message boxes, marker writing, the temporary copy of the executable and Windows compatibility layers.
- Gate: `allowed_command` and `guard_handler`, a list and one branch.
- PEM parsing, GitHub tokens, issue text and image type detection: formatting and libraries.
- The rest of the repository: user interface, drivers, scripts, packaging.
