/** One whole run of the sync job (`runFetchJob`): the `'running'` status
    write, the checkpoint load, the chain reads, classification, username
    lookup, enrichment, the save, and the final status write done by the
    `finally` block. The run exists in two versions: `RunAsWritten` keeps the
    code's choices (the final write always records the newest counter and
    unpublished list; the save never rolls back), and `Run` keeps the last good
    checkpoint when the run fails and saves all-or-nothing. */
module FetchJob {
  import opened Common
  import opened Text
  import opened Seqs
  import opened Store
  import opened Sync

  // ---------------------------------------------------------------------------
  // The world a run talks to
  // ---------------------------------------------------------------------------

  /** The chain, once `getClient` found a reachable endpoint: the answer to
      `portraitIdCounter()`, whether the state multicall of a chunk throws as
      a whole (and with which message), the per-ID publish hashes, and the
      username multicall's answer per chunk. */
  datatype Chain = Chain(
    counter: Result<nat>,
    stateFault: seq<nat> -> Option<string>,
    hashOf: nat -> Call<JsResult>,
    namesFor: seq<nat> -> NamesReply)

  /** Everything outside the job: whether reading the `job_status` row
      throws, the chain (`None` when no endpoint answers), the profile API,
      and the database's behaviour during the save. */
  datatype Env = Env(
    loadError: Option<string>,
    chain: Option<Chain>,
    profileOf: string -> ProfileReply,
    tx: TxFaults)

  /** What the `try` block leaves behind for the `finally` block. */
  datatype Outcome = Outcome(
    error: Option<string>,
    maxId: nat,
    unpublished: seq<nat>,
    table: Table,
    saved: seq<Portrait>,
    early: bool)

  datatype RunResult = RunResult(job: StatusRow, table: Table, saved: seq<Portrait>, exitCode: nat)

  const NoRpcText: string := "No RPC reachable"

  /** `overallError || (error.message || String(error))` for a thrown error:
      an error with an empty message renders as `"Error"`. */
  function ErrorText(message: string): (r: string)
    ensures r != ""
    ensures message != "" ==> r == message
  {
    if message == "" then "Error" else message
  }

  // ---------------------------------------------------------------------------
  // The transactional save as written
  // ---------------------------------------------------------------------------

  /** The rows whose insert succeeds. */
  function InsertSucceeds(tx: TxFaults): Portrait -> bool
  {
    (p: Portrait) => p.id !in tx.failingIds
  }

  function InsertedRows(rows: seq<Portrait>, tx: TxFaults): seq<Portrait>
  {
    Filter(rows, InsertSucceeds(tx))
  }

  /** The save as the code runs it: the rollback decision reads `insertErrors`
      synchronously after queueing the inserts, before any insert callback
      has run, so it always finds no error and commits. A failing insert is
      a statement-level failure in SQLite: the other rows are committed and
      the run is not flagged. */
  function SaveAsWritten(t: Table, rows: seq<Portrait>, tx: TxFaults): (r: SaveResult)
    ensures r.error.None? ==> r.table == ApplyRows(t, InsertedRows(rows, tx)) && r.saved == InsertedRows(rows, tx)
    ensures r.error.Some? ==> r.table == t && r.saved == []
    ensures r.error.None? <==> |rows| == 0 || (tx.beginError.None? && tx.commitError.None?)
    ensures r.error.Some? ==> r.error.value != ""
  {
    if |rows| == 0 then SaveResult(t, [], None)
    else if tx.beginError.Some? then SaveResult(t, [], Some(TransactionFailedText(tx.beginError.value)))
    else if tx.commitError.Some? then
      SaveResult(t, [], Some(TransactionFailedText("Transaction commit failed: " + tx.commitError.value)))
    else
      var kept := InsertedRows(rows, tx);
      SaveResult(ApplyRows(t, kept), kept, None)
  }

  /** A batch of two rows whose first insert fails: the code commits the
      second row, drops the first, and reports no error; the all-or-nothing
      save stores neither and reports the rollback. */
  lemma FailedInsertGoesUnnoticed(t: Table, p: Portrait, q: Portrait)
    requires p.id != q.id && p.username != q.username && p.id !in t
    ensures SaveAsWritten(t, [p, q], TxFaults(None, {p.id}, None)).error.None?
    ensures p.id !in SaveAsWritten(t, [p, q], TxFaults(None, {p.id}, None)).table
    ensures q.id in SaveAsWritten(t, [p, q], TxFaults(None, {p.id}, None)).table
    ensures Save(t, [p, q], TxFaults(None, {p.id}, None)).error == Some(RolledBackText(1))
    ensures Save(t, [p, q], TxFaults(None, {p.id}, None)).table == t
  {
    var tx := TxFaults(None, {p.id}, None);
    assert [p, q][1..] == [q];
    assert [q][1..] == [];
    assert Filter([q], InsertSucceeds(tx)) == [q] + Filter([], InsertSucceeds(tx));
    assert InsertedRows([p, q], tx) == [q];
    assert Filter([q], InsertFails(tx)) == Filter([], InsertFails(tx));
    assert FailedInserts([p, q], tx) == [p] + Filter([q], InsertFails(tx));
    assert ApplyRows(t, [q]) == Upsert(t, q);
  }

  // ---------------------------------------------------------------------------
  // The try block
  // ---------------------------------------------------------------------------

  /** Whether the state multicall throws for some chunk of the candidates
      that checkpoint `cp` and counter `maxId` select. */
  predicate StateCheckThrows(cp: Checkpoint, maxId: nat, chain: Chain)
  {
    var chunks := Chunks(CandidateIds(cp.highest, maxId, cp.unpublished), Batch);
    exists i :: 0 <= i < |chunks| && chain.stateFault(chunks[i]).Some?
  }

  /** The steps after the counter read, from candidate selection to the
      save. `allOrNothing` selects the save: the corrected one, or the one
      the code performs. */
  function Scan(cp: Checkpoint, maxId: nat, t: Table, chain: Chain, env: Env, allOrNothing: bool): (o: Outcome)
    ensures o.maxId == maxId
    ensures o.early <==> |CandidateIds(cp.highest, maxId, cp.unpublished)| == 0 && maxId == cp.highest
    ensures o.early ==> o.error.None? && o.unpublished == cp.unpublished && o.table == t && o.saved == []
    ensures StateCheckThrows(cp, maxId, chain) ==>
              o.error.Some? && !o.early && o.unpublished == cp.unpublished && o.table == t && o.saved == []
    ensures o.error.Some? ==> o.error.value != ""
  {
    var candidates := CandidateIds(cp.highest, maxId, cp.unpublished);
    if |candidates| == 0 && maxId == cp.highest then
      Outcome(None, maxId, cp.unpublished, t, [], true)
    else
      match CheckStates(Chunks(candidates, Batch), chain.stateFault, chain.hashOf)
      case Err(m) => Outcome(Some(ErrorText(m)), maxId, cp.unpublished, t, [], false)
      case Ok(split) =>
        assert split == Classify(candidates, chain.hashOf);
        Publish(split, maxId, t, chain, env, allOrNothing)
  }

  /** Steps 4 to 6 for the published IDs of a successful state check: the
      username phase, the profile calls and the save. The unpublished list
      of the split becomes the next checkpoint's list. */
  function Publish(split: Split, maxId: nat, t: Table, chain: Chain, env: Env, allOrNothing: bool): (o: Outcome)
    requires Distinct(split.published)
    ensures o.maxId == maxId && o.unpublished == split.unpublished && !o.early
    ensures o.error.Some? ==> o.error.value != ""
  {
    var names := FetchNames(Chunks(split.published, Batch), chain.namesFor);
    var rows := BuildRows(names.names, env.profileOf);
    var saved := if allOrNothing then Save(t, rows, env.tx) else SaveAsWritten(t, rows, env.tx);
    Outcome(First(names.error, saved.error), maxId, split.unpublished, saved.table, saved.saved, false)
  }

  /** The `try` block, run after the `'running'` write produced `running`. */
  function Attempt(running: StatusRow, t: Table, env: Env, allOrNothing: bool): (o: Outcome)
    ensures env.loadError.Some? ==> o == Outcome(Some(ErrorText(env.loadError.value)), 0, [], t, [], false)
    ensures env.loadError.None? && env.chain.None? ==>
              o == Outcome(Some(NoRpcText), 0, LoadCheckpoint(Some(running)).unpublished, t, [], false)
    ensures env.loadError.None? && env.chain.Some? && env.chain.value.counter.Err? ==>
              o == Outcome(Some(ErrorText(env.chain.value.counter.message)), 0,
                           LoadCheckpoint(Some(running)).unpublished, t, [], false)
    ensures o.error.Some? ==> o.error.value != ""
    ensures o.early ==> o.error.None?
  {
    if env.loadError.Some? then
      Outcome(Some(ErrorText(env.loadError.value)), 0, [], t, [], false)
    else
      var cp := LoadCheckpoint(Some(running));
      match env.chain
      case None => Outcome(Some(NoRpcText), 0, cp.unpublished, t, [], false)
      case Some(chain) =>
        match chain.counter
        case Err(m) => Outcome(Some(ErrorText(m)), 0, cp.unpublished, t, [], false)
        case Ok(maxId) => Scan(cp, maxId, t, chain, env, allOrNothing)
  }

  // ---------------------------------------------------------------------------
  // The two versions of the run
  // ---------------------------------------------------------------------------

  function StatusOf(o: Outcome): (s: RunStatus)
    ensures s == Success <==> o.error.None?
    ensures s != Running
  {
    if o.error.None? then Success else Error
  }

  /** The row the `finally` block writes as the code does it: the status, the
      error, the newest counter read (0 when none was read) and the current
      unpublished list, whether or not the run failed. The no-op exit returns
      from inside the `try` after writing the same row, so the `finally`
      block writes it a second time. */
  function FinalRowAsWritten(running: StatusRow, o: Outcome): StatusRow
  {
    var once := UpdateJobStatus(Some(running), StatusOf(o), o.error, Some(o.maxId), Some(o.unpublished));
    if o.early then UpdateJobStatus(Some(once), StatusOf(o), o.error, Some(o.maxId), Some(o.unpublished)) else once
  }

  /** `runFetchJob` as written. */
  function RunAsWritten(stored: Option<StatusRow>, t: Table, env: Env): (r: RunResult)
    ensures r.job.status == Success <==> r.job.error.None?
    ensures r.job.status != Running
    ensures r.exitCode == 0 <==> r.job.status == Success
    ensures env.loadError.Some? ==> LoadCheckpoint(Some(r.job)) == Checkpoint(0, []) && r.table == t
    ensures env.loadError.None? && env.chain.None? ==>
              r.job.error == Some(NoRpcText) && r.table == t &&
              LoadCheckpoint(Some(r.job)) == Checkpoint(0, LoadCheckpoint(stored).unpublished)
    ensures env.loadError.None? && env.chain.Some? && env.chain.value.counter.Err? ==>
              r.job.status == Error && r.table == t &&
              LoadCheckpoint(Some(r.job)) == Checkpoint(0, LoadCheckpoint(stored).unpublished)
  {
    var running := UpdateJobStatus(stored, Running, None, None, None);
    var o := Attempt(running, t, env, false);
    var job := FinalRowAsWritten(running, o);
    RunResult(job, o.table, o.saved, if o.error.None? then 0 else 1)
  }

  /** `runFetchJob` with the two corrections: the save is all-or-nothing, and
      a failed run leaves both checkpoint columns to COALESCE, so the next run
      starts from the last good checkpoint. */
  function Run(stored: Option<StatusRow>, t: Table, env: Env): (r: RunResult)
    ensures r.job.status == Success <==> r.job.error.None?
    ensures r.job.status != Running
    ensures r.exitCode == 0 <==> r.job.status == Success
    ensures r.job.status == Error ==> LoadCheckpoint(Some(r.job)) == LoadCheckpoint(stored)
    ensures env.loadError.Some? || env.chain.None? ==> r.table == t && r.job.status == Error
  {
    var running := UpdateJobStatus(stored, Running, None, None, None);
    var o := Attempt(running, t, env, true);
    var job := if o.error.None? then FinalRowAsWritten(running, o)
               else UpdateJobStatus(Some(running), Error, o.error, None, None);
    RunResult(job, o.table, o.saved, if o.error.None? then 0 else 1)
  }
}
