# Portrait viewer: a Dafny model of the sync job, the API and the count check

This project models the back end of the portrait viewer. That back end keeps a local SQLite copy of the portraits registered on a chain (Base Sepolia) and serves it over HTTP. Three pieces are modelled:

- **The incremental sync job** (`runFetchJob` in `backend/fetch-job.js`). A run loads its checkpoint from the `job_status` row: the highest ID processed and the JSON list of IDs that were still unpublished. It reads the on-chain counter and builds the candidate list: the new IDs followed by the carried-forward ones, without duplicates. It sorts the candidates into published and unpublished by their publish hash, in multicalls of 500. For the published ones, it fetches usernames (again in chunks of 500) and asks the profile API for avatar data. It then saves one row per named ID in a transaction, using `INSERT OR REPLACE` under a UNIQUE username. Finally, in its `finally` block, it writes the run status and the new checkpoint through `updateJobStatus`, which merges null arguments with COALESCE.
- **The HTTP API** (`backend/api.js`). `/api/portraits` validates `page` and `limit` and returns the ID-ordered window at offset `(page - 1) * limit`. `/api/status` reports the row count and the job row, including the length of the stored unpublished list.
- **The stand-alone count check** (`backend/verify-count.js`). It walks `1..maxId` in batches of 50 and pairs each ID's owner result with its hash result. It counts an ID when it has a non-zero owner and a non-empty hash.

Every call to the chain, the profile API or the database is a parameter:

- the chain is a record of functions: the per-ID hash, the per-chunk names reply, and the per-chunk multicall failure;
- the profile API is a function from username to reply;
- the database faults are a `TxFaults` value;
- the count check's client is a `Result`.

The portrait table is a map from ID to row. Each step of a run is a pure function, and a run is their composition.

A run exists in two versions:

- `FetchJob.RunAsWritten` keeps the code's choices.
- `FetchJob.Run` applies the corrections described under Findings. It keeps the stored checkpoint when the run fails, and its save is all-or-nothing.

Modules:

- `Common`: options, results, JavaScript values, call results.
- `Text`: `trim`, tag stripping, `encodeURIComponent`, decimal rendering, truncation.
- `Seqs`: ranges, de-duplication, filtering, chunking, sorted keys.
- `Store`: the two tables.
- `Sync`: the steps of a run.
- `FetchJob`: a whole run.
- `RunProperties`: properties across runs.
- `Api`: the HTTP API.
- `VerifyCount`: the count check.

## Model

| member | source | states |
|---|---|---|
| Store.UpdateJobStatus | backend/fetch-job.js:150-166 | The row written has the given status and stored error. A checkpoint argument that is passed replaces the stored column. A null argument keeps the stored value, or NULL when no row exists yet. |
| Store.StoredError | backend/fetch-job.js:163 | A missing or empty error is stored as NULL. Otherwise the stored text is a prefix of the message: the whole message when it fits, and exactly its first 1000 characters when it is longer. |
| Store.WriteThenLoad | backend/fetch-job.js:150-166 | A status write that passes both checkpoint arguments is loaded back as exactly that checkpoint, whatever was stored before. |
| Store.StatusOnlyWriteKeepsCheckpoint | backend/fetch-job.js:228 | The `'running'` write, which passes neither checkpoint argument, leaves the loaded checkpoint unchanged. This holds also when no row existed. |
| Store.LoadCheckpoint | backend/fetch-job.js:231-249 | No row gives `(0, [])`. A NULL highest ID gives 0. A list column that is NULL, empty, unparsable or not an array gives `[]`. Otherwise the stored values are used. |
| Store.Upsert | backend/fetch-job.js:425-429 | `INSERT OR REPLACE` stores the row under its ID. It removes exactly the rows that conflict on the ID or on the UNIQUE username and keeps all others. It preserves the UNIQUE constraint and the key invariant. |
| Store.ApplyRows | backend/fetch-job.js:444-459 | After a batch of writes, every row is either an untouched old row or a row of the batch. An old row that no batch row conflicts with survives. Both table invariants are preserved. |
| Store.ApplyRowsKeeps | backend/fetch-job.js:444-459 | A row of the batch is stored when no later row of the batch has its ID or its username. |
| Store.ApplyDistinctRows | backend/fetch-job.js:444-459 | A batch with pairwise different IDs and usernames is stored in full. |
| Store.SameUsernameEvicts | backend/fetch-job.js:108-110 | Of two rows with one username and different IDs, only the later one is stored. |
| Sync.NewIds | backend/fetch-job.js:264-266 | The new IDs are exactly `startId+1..maxIdOnChain`, strictly increasing. |
| Sync.CandidateIds | backend/fetch-job.js:264-270 | The candidates are exactly the new IDs plus the carried-forward IDs, with no duplicates. The new IDs come first, in ascending order. |
| Seqs.Dedup | backend/fetch-job.js:270 | `Array.from(new Set(xs))` has no duplicates and the same members, and leaves a duplicate-free list unchanged. |
| Seqs.Chunks | backend/fetch-job.js:286-287 | The chunks concatenate back to the list. Each chunk is non-empty and holds at most `n` IDs. Every chunk but the last is full. |
| Sync.Classify | backend/fetch-job.js:299-312 | Published holds exactly the candidates whose call succeeded with a non-blank string other than `'0x'`. Unpublished holds exactly the other candidates, including failed lookups. No candidate is lost and there are no duplicates. |
| Sync.ClassifyConcat | backend/fetch-job.js:286-312 | Classifying chunk by chunk gives the split of the whole list, concatenated. |
| Sync.ClassifyAllUnpublished | backend/fetch-job.js:299-316 | A list none of whose IDs has a publish hash becomes the unpublished list whole and in order, and nothing is published. |
| Sync.CheckStates | backend/fetch-job.js:283-316 | The chunked state check succeeds exactly when no chunk's multicall throws. It then yields the classification of the whole candidate list. Otherwise it yields the message of the first chunk that threw, as the loop stops at the first rejected `await`. |
| Sync.NameAt | backend/fetch-job.js:339-346 | A position gets a name exactly when the reply is an array and the name there is a non-blank string. |
| Sync.ChunkNames | backend/fetch-job.js:339-347 | The chunk's map has a key exactly for the chunk IDs whose position carries a usable name, mapped to that name. |
| Sync.FetchNames | backend/fetch-job.js:320-364 | The username map has exactly the IDs with a usable name in an array reply, each with its name. An error is flagged exactly when some chunk's reply throws or is not an array. |
| Sync.CleanTitle | backend/fetch-job.js:392-393 | The displayed name is the on-chain name, or a non-empty text with no tag opener and no surrounding whitespace. A clean title is kept as is. |
| Sync.CleanTitleFallsBack | backend/fetch-job.js:393 | The displayed name is the title with tags stripped and whitespace trimmed when a visible character remains, and the on-chain name when none does. |
| Sync.BuildRow | backend/fetch-job.js:377-416 | The row has the public profile URL of the encoded on-chain name. It has an IPFS URL exactly when a cid is present and an Arweave URL exactly when a transaction ID is present. A failed profile call gives no image fields and the on-chain name. |
| Sync.BuildRowUsername | backend/fetch-job.js:392-393 | The row's username is the cleaned title for a non-empty string title. A missing or falsy title is replaced by the on-chain name, which is then cleaned. A truthy title that is not a string makes `replace` throw, leaving the on-chain name. |
| Sync.BuildRows | backend/fetch-job.js:371-419 | There is one row per username-map entry, in ascending ID order. Each row is built from that entry's name and profile reply. |
| Sync.Save | backend/fetch-job.js:421-513 | The corrected save: all rows are committed, or none are and an error is flagged. It fails exactly when BEGIN fails, an insert fails or COMMIT fails. An empty batch is no transaction. |
| FetchJob.SaveAsWritten | backend/fetch-job.js:431-492 | The save as the code runs it. BEGIN or COMMIT failing flags an error and stores nothing. Otherwise the rows whose insert succeeded are committed and no error is flagged. |
| FetchJob.FailedInsertGoesUnnoticed | backend/fetch-job.js:444-489 | With one failing insert out of two rows, the code commits the other row and reports success. The corrected save stores neither row and reports the rollback. |
| FetchJob.Scan | backend/fetch-job.js:263-317 | The run stops early exactly when there is no candidate and the counter equals the stored highest ID. It then keeps the list and the table and saves nothing. When the state multicall throws for some chunk, the scan fails, keeps the loaded list and the table, and saves nothing. |
| FetchJob.Publish | backend/fetch-job.js:320-513 | The next checkpoint's unpublished list is the split's unpublished list, whatever the later steps do. |
| FetchJob.Attempt | backend/fetch-job.js:227-262 | A failed checkpoint read fails the run with an empty list. If no endpoint is reachable, the run fails with "No RPC reachable" and keeps the loaded list. A thrown counter read fails the run with its message, counter 0 and the loaded list. Recorded errors are non-empty. |
| FetchJob.RunAsWritten | backend/fetch-job.js:221-539 | The status is success exactly when no error is stored, and the exit code is 0 exactly on success. A failed checkpoint read records `(0, [])`. An unreachable chain, or a counter read that throws, records highest ID 0 with the loaded list and leaves the table alone. |
| FetchJob.Run | backend/fetch-job.js:514-538 | The corrected run has the same status and exit code rules. A failed run keeps the stored checkpoint. A run without chain access leaves the table unchanged. |
| RunProperties.OnChain | backend/fetch-job.js:227-317 | A run that reads counter `m` scans from the stored checkpoint. The code then records `m` and the scan's unpublished list. |
| RunProperties.NoCandidates | backend/fetch-job.js:264-272 | There is no candidate exactly when there is no new ID and no carried-forward ID. |
| RunProperties.ScanPublishes | backend/fetch-job.js:283-317 | A scan past the no-op check, with no state-multicall failure, continues with the classification of all candidates. |
| RunProperties.SteadyState | backend/fetch-job.js:272-279 | With nothing new and nothing carried forward, both versions succeed. They write no row and leave the checkpoint unchanged. |
| RunProperties.SecondRunIsNoOp | backend/fetch-job.js:272-279 | After a successful run that left no unpublished ID, a second run at the same counter changes nothing. |
| RunProperties.CarriedCandidates | backend/fetch-job.js:263-270 | With the counter equal to the stored highest ID, the candidates are exactly a duplicate-free carried list, in its order. |
| RunProperties.PublishNothing | backend/fetch-job.js:320-422 | A state check that found nothing published requests no username, builds no row, saves nothing, and hands the unpublished list on. |
| RunProperties.ScanOfCarried | backend/fetch-job.js:263-316 | A scan whose highest ID is the counter and whose list holds only distinct IDs without a publish hash succeeds, hands the same list on, saves nothing and leaves the table alone. |
| RunProperties.SecondRunKeepsState | backend/fetch-job.js:263-533 | After a run whose state check completed (for the corrected run, one that succeeded), a second run against the same chain succeeds, saves nothing, and keeps the table and the checkpoint, carried unpublished IDs included. This holds for both versions. |
| RunProperties.UnpublishedReplaced | backend/fetch-job.js:315-316 | After a completed state check, the stored list is exactly the candidates without a publish hash, with no duplicates. It replaces the old list rather than adding to it. The highest ID becomes the counter. |
| RunProperties.ScanUnpublished | backend/fetch-job.js:283-316 | The list a scan hands to the final write has no duplicates and holds exactly the candidates without a publish hash. |
| RunProperties.StuckUnpublished | backend/fetch-job.js:306-316 | A carried-forward ID whose hash is still missing stays in the list. |
| RunProperties.CheckpointMonotone | backend/fetch-job.js:528-533 | While the counter does not fall, the corrected run never lowers the highest ID, and neither does a successful run as written. |
| RunProperties.SuccessLosesNothing | backend/fetch-job.js:283-513 | After a successful corrected run, every candidate is carried forward or published. Every published ID that got a name has a row among the saved rows. A later row of the batch with the same username can still evict it from the table (`Store.SameUsernameEvicts`). |
| RunProperties.FailedRunDropsPublished | backend/fetch-job.js:528-533 | As written, a published candidate of a run is not a candidate of the next run, even when the run failed before saving the candidate's row. Only a later run that resets the checkpoint to 0 would consider it again. |
| RunProperties.FailedRunKeepsCandidates | backend/fetch-job.js:528-533 | With the correction, every candidate of a failed run is a candidate of the next run. |
| RunProperties.UsernameOutageLosesPortrait | backend/fetch-job.js:355-361 | As written, a run whose username multicall throws records `(1, [])` and saves nothing. The next run does not consider portrait 1; only a later run that resets the checkpoint to 0 would. |
| RunProperties.UsernameOutageRetried | backend/fetch-job.js:355-361 | With the correction, the same run keeps `(0, [])`, so portrait 1 is retried by every later run. |
| RunProperties.OutageIsUsernameOutage | backend/fetch-job.js:355-361 | The outage scenario is satisfiable: a concrete checkpoint and chain meet it. |
| RunProperties.StateOutageSkipsNewIds | backend/fetch-job.js:285-300 | As written, a run whose state multicall throws fails, leaves the table alone and records the counter with the loaded list. A new ID of that run is not a candidate of the next run. |
| RunProperties.StateOutageRetried | backend/fetch-job.js:285-300 | With the correction, the same run keeps the stored checkpoint, so every new ID up to a later counter is a candidate again. |
| RunProperties.StateOutageThrows | backend/fetch-job.js:285-300 | The concrete state outage (checkpoint `(0, [])`, counter 5, every state multicall throws) meets the outage condition. |
| RunProperties.StateOutageLosesFive | backend/fetch-job.js:519-533 | In the concrete state outage the code records `(5, [])`, so portraits 1 to 5 are not checked by the next run. The corrected run keeps `(0, [])`. |
| Text.TrimEmptyIffBlank | backend/fetch-job.js:303 | `trim()` gives `''` exactly for an all-whitespace string. |
| Text.StripTags | backend/fetch-job.js:393 | After removing the tags, no `<` is left, and a text without `<` is unchanged. |
| Text.StripTagsKeeps | backend/fetch-job.js:393 | The text before a closed tag survives, the tag up to its `>` is removed, and the stripping goes on after it. |
| Text.StripTagsDropsUnclosed | backend/fetch-job.js:393 | A `<` that is never closed removes itself and the rest of the text. |
| Text.EncodeUriComponent | backend/fetch-job.js:414 | The encoding uses only URI-safe characters, and a string of unreserved characters is unchanged. |
| Text.DecimalRoundTrip | backend/fetch-job.js:467 | The error count written into the rollback message reads back as the count. |
| Api.Portraits | backend/api.js:68-105 | The request is rejected exactly when page < 1, limit < 1 or limit > 100. A database failure gives the server error. Otherwise the reply echoes page and limit and has total = row count. Its portraits are the ID-ordered window at `(page - 1) * limit`, at most `limit` rows. |
| Api.Offset | backend/api.js:76 | The offset is `(page - 1) * limit` and never negative for an accepted request. |
| Api.OrderedRows | backend/api.js:83-85 | The rows are the table's rows, each once, in strictly increasing ID order. |
| Api.Window | backend/api.js:86-87 | `LIMIT ? OFFSET ?` gives at most `limit` rows: element `i` is row `offset + i`. The result is empty past the end, full when enough rows remain, and the remainder otherwise. |
| Api.DefaultRequest | backend/api.js:69-70 | Without parameters, page 1 with the first 50 rows is served. |
| Api.EveryRowOnOnePage | backend/api.js:76-87 | For any accepted page size, every portrait is served on exactly one page, the one its position in ID order falls on. |
| Api.ServedOnlyThere | backend/api.js:76-87 | A page that serves a portrait is the page of its position. |
| Api.UnpublishedCount | backend/api.js:143-149 | The count is the array's length, 0 for NULL or empty text, and null for JSON that is not an array or does not parse. |
| Api.JobStatusView | backend/api.js:134-157 | A stored row is reported field by field. A missing row gives the not-found defaults, and a failed read gives the read error. |
| Api.CountMatchesCheckpoint | backend/api.js:143-149 | A reported count equals the length of the list the next run loads. The count is null exactly when the column holds JSON the job discards. |
| Api.DatabaseView | backend/api.js:113-132 | The database is accessible exactly when the file exists. The count is reported exactly when the count query also succeeds, and is the row count. |
| VerifyCount.Verify | backend/verify-count.js:47-135 | A client or counter failure ends with its message, and counter 0 checks nothing. Otherwise the result is the first rejecting batch's message, or every ID checked with the count of counted IDs. |
| VerifyCount.CheckAll | backend/verify-count.js:69-124 | The batch loop ends with `totalChecked = maxId` and the count of counted IDs, or with the first rejecting batch's message. |
| VerifyCount.VisitBatch | backend/verify-count.js:70-122 | One pass covers `i..min(i+49, maxId)`. When its multicall answers, the pass adds that range's counted IDs to the running count. |
| VerifyCount.BatchIds | backend/verify-count.js:71-72 | The inner loop builds exactly `i..endId`. |
| VerifyCount.BatchesCover | backend/verify-count.js:69-72 | The batches from `i` on, laid end to end, are exactly `i..maxId`. |
| VerifyCount.BatchesSized | backend/verify-count.js:69-70 | Every batch holds between 1 and 50 IDs. |
| VerifyCount.RunBatches | backend/verify-count.js:69-72 | The batches of a run cover `1..maxId`, each ID once, in batches of 1 to 50 IDs. |
| VerifyCount.MulticallResults | backend/verify-count.js:76-92 | Each ID contributes two results: its owner at `2i` and its hash at `2i + 1`. |
| VerifyCount.BatchPaired | backend/verify-count.js:95-98 | Result `k` and `k + 1` belong to `idsInBatch[k / 2]`, which is `first + k / 2`. |
| VerifyCount.DecodePair | backend/verify-count.js:100-116 | `hasOwner` holds exactly when the owner call succeeded and is not the zero address. `hasHash` holds exactly when the hash call succeeded with a truthy value. |
| VerifyCount.CountBatch | backend/verify-count.js:95-122 | The pairwise loop adds exactly the batch's counted IDs to the running count. |
| VerifyCount.CountedUpTo | backend/verify-count.js:119-121 | The published count never exceeds the number of IDs checked. |
| VerifyCount.CountedUpToIsCardinality | backend/verify-count.js:119-121 | The running count is the number of IDs in `1..n` with both an owner and a hash. |
| VerifyCount.FirstFault | backend/verify-count.js:92 | No batch rejects exactly when no fault is found. A fault that is found is some batch's rejection. When a batch rejects and every earlier batch answered, the fault found is that batch's rejection, so it is the first one. |
| VerifyCount.PublishedHashHasHash | backend/verify-count.js:112 | A hash the sync job accepts as published also passes the count check's hash test. |
| VerifyCount.HashTestsDiffer | backend/verify-count.js:112 | The converse fails: `"0x"` and a blank string pass the count check's test but not the sync job's. |
| VerifyCount.ZeroOwnerNotCounted | backend/verify-count.js:105 | An ID whose owner is the zero address is not counted, whatever its hash. |

## Left out

- SQLite I/O, schema creation, the FTS table and prepared statements. The tables are values; the database's answers and faults are parameters.
- Network access: the viem clients, the multicall transport and axios. Their answers are functions in the `Chain`, `Env` and `CountChain` records.
- The RPC failover in `getClient` is modelled by its outcome only: a reachable chain, or the "No RPC reachable" error. The body of `getClient` in `backend/verify-count.js` is not part of this model; the client it yields or the error it throws is a `Result` parameter of `VerifyCount.Verify`.
- Timestamps (`new Date()`, `CURRENT_TIMESTAMP`), `sleep` throttling, timeouts, logging, `closeDbAndExit` and process exit. The exit code is kept as a field of the run result.
- `Number()` coercion of query strings: non-numeric or fractional `page`/`limit` values (NaN passes the check at backend/api.js:72) are not modelled. Parameters are integers.
- `Number()` of the on-chain counter: the counter is an unbounded natural number, so precision loss above 2^53 is not modelled.
- JSON values in the unpublished column that are arrays of non-integers: the stored list is modelled by what `JSON.parse` yields, restricted to arrays of natural numbers.
- A failing status write (errors are swallowed inside `updateJobStatus`) and a failing ROLLBACK or statement finalisation.
- Store.StoredError: `substring(0, 1000)` counts UTF-16 code units; the model counts characters.
- Sync.BuildRow: an avatar `cid` or `arweaveTxId` that is truthy but not a string (a number or an object, which the code would concatenate into the URL) cannot be represented; `ProfileReply` holds only string or missing fields.
- Username-array entries past the end of a chunk are stored by the code under the key `"undefined"` and then skipped by `parseInt`. They never reach a row and are not modelled.
- The `/api/status` fields `server`, `currentTime`, `fileLastModified` and `lastRunTimestamp` (clock and file-system values). The Express setup, CORS, `listen` and signal handling.
- The count check's console output: progress lines and the counts printed so far when a batch fails are not part of the `Report`.
- The front end (React components, the widget, the build configuration).

## Findings

| source | as written | input that shows it | evidently intended | confidence | as-written member | corrected member |
|---|---|---|---|---|---|---|
| backend/fetch-job.js:528-533 | The `finally` block writes `maxIdOnChain` and the new unpublished list even when the run failed after the state check. | Checkpoint `(0, [])`, counter 1, portrait 1 published, and the username multicall throws: the run records `(1, [])`, saves no row, and the next run does not consider portrait 1 again. | A failed run leaves the checkpoint as it was, so the next run retries the same candidates. | not executed | RunProperties.UsernameOutageLosesPortrait | RunProperties.UsernameOutageRetried |
| backend/fetch-job.js:519-533 | The `catch` block keeps `maxIdOnChain`, so the `finally` block records the new counter with the old unpublished list when the state multicall throws. The IDs between the old highest ID and the counter are neither checked nor carried. | Checkpoint `(0, [])`, counter 5, and every state multicall throws: the run records `(5, [])`, and the next run does not consider portraits 1 to 5. The multicall uses `allowFailure: true`, so per-call failures are reported inside the result. The whole call rejecting needs a rarer fault, such as the RPC request itself failing. | A failed run leaves the checkpoint as it was, so the new IDs are checked again. | not executed | RunProperties.StateOutageLosesFive | RunProperties.StateOutageRetried |
| backend/fetch-job.js:444-489 | The rollback decision reads `insertErrors` right after queueing the inserts, before any insert callback has run, so it is always empty and the transaction commits. | Two rows, the first insert fails: the second row is committed, the first is lost, and the run reports success. | Any insert error rolls back the whole batch and marks the run as failed. | not executed | FetchJob.FailedInsertGoesUnnoticed | Sync.Save |
