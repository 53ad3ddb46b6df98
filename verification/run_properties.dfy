/** Properties of whole runs of the sync job: the no-op run, the replaced
    unpublished list, checkpoint monotonicity, completeness of a successful
    run, and the two findings about failed runs and failed inserts. */
module RunProperties {
  import opened Common
  import opened Text
  import opened Seqs
  import opened Store
  import opened Sync
  import opened FetchJob

  // ---------------------------------------------------------------------------
  // Unfolding a run that reached the chain
  // ---------------------------------------------------------------------------

  /** A run that loaded its checkpoint and read the counter `m` scans from
      the checkpoint stored before it: the `'running'` write does not disturb
      it. The code's final write records `m` and the list the scan left. */
  lemma OnChain(stored: Option<StatusRow>, t: Table, env: Env, m: nat, allOrNothing: bool)
    requires env.loadError.None? && env.chain.Some? && env.chain.value.counter == Ok(m)
    ensures Attempt(UpdateJobStatus(stored, Running, None, None, None), t, env, allOrNothing)
            == Scan(LoadCheckpoint(stored), m, t, env.chain.value, env, allOrNothing)
    ensures LoadCheckpoint(Some(RunAsWritten(stored, t, env).job))
            == Checkpoint(m, Scan(LoadCheckpoint(stored), m, t, env.chain.value, env, false).unpublished)
    ensures Run(stored, t, env).job.status == Success ==>
              LoadCheckpoint(Some(Run(stored, t, env).job))
              == Checkpoint(m, Scan(LoadCheckpoint(stored), m, t, env.chain.value, env, true).unpublished)
  {
    var running := UpdateJobStatus(stored, Running, None, None, None);
    StatusOnlyWriteKeepsCheckpoint(stored, Running, None);
    assert LoadCheckpoint(Some(running)) == LoadCheckpoint(stored);
    var o := Attempt(running, t, env, false);
    var once := UpdateJobStatus(Some(running), StatusOf(o), o.error, Some(o.maxId), Some(o.unpublished));
    WriteThenLoad(Some(running), StatusOf(o), o.error, o.maxId, o.unpublished);
    WriteThenLoad(Some(once), StatusOf(o), o.error, o.maxId, o.unpublished);
    var o' := Attempt(running, t, env, true);
    var once' := UpdateJobStatus(Some(running), StatusOf(o'), o'.error, Some(o'.maxId), Some(o'.unpublished));
    WriteThenLoad(Some(running), StatusOf(o'), o'.error, o'.maxId, o'.unpublished);
    WriteThenLoad(Some(once'), StatusOf(o'), o'.error, o'.maxId, o'.unpublished);
  }

  /** The code's run, given the outcome `o` of its scan: the status follows
      the error, the table is the scan's, and the checkpoint is the counter
      with the scan's unpublished list. */
  lemma RunAsWrittenOfOutcome(stored: Option<StatusRow>, t: Table, env: Env, m: nat, o: Outcome)
    requires env.loadError.None? && env.chain.Some? && env.chain.value.counter == Ok(m)
    requires Scan(LoadCheckpoint(stored), m, t, env.chain.value, env, false) == o
    ensures RunAsWritten(stored, t, env).job.status == StatusOf(o)
    ensures RunAsWritten(stored, t, env).table == o.table
    ensures LoadCheckpoint(Some(RunAsWritten(stored, t, env).job)) == Checkpoint(m, o.unpublished)
  {
    AttemptOnChain(stored, t, env, m, false);
    var running := UpdateJobStatus(stored, Running, None, None, None);
    var once := UpdateJobStatus(Some(running), StatusOf(o), o.error, Some(o.maxId), Some(o.unpublished));
    WriteThenLoad(Some(running), StatusOf(o), o.error, o.maxId, o.unpublished);
    WriteThenLoad(Some(once), StatusOf(o), o.error, o.maxId, o.unpublished);
  }

  /** The corrected run, given the outcome `o` of its scan: a failed scan
      keeps the stored checkpoint. */
  lemma RunOfOutcome(stored: Option<StatusRow>, t: Table, env: Env, m: nat, o: Outcome)
    requires env.loadError.None? && env.chain.Some? && env.chain.value.counter == Ok(m)
    requires Scan(LoadCheckpoint(stored), m, t, env.chain.value, env, true) == o
    ensures Run(stored, t, env).job.status == StatusOf(o)
    ensures Run(stored, t, env).table == o.table
    ensures o.error.Some? ==> LoadCheckpoint(Some(Run(stored, t, env).job)) == LoadCheckpoint(stored)
  {
    AttemptOnChain(stored, t, env, m, true);
  }

  lemma AttemptOnChain(stored: Option<StatusRow>, t: Table, env: Env, m: nat, allOrNothing: bool)
    requires env.loadError.None? && env.chain.Some? && env.chain.value.counter == Ok(m)
    ensures Attempt(UpdateJobStatus(stored, Running, None, None, None), t, env, allOrNothing)
            == Scan(LoadCheckpoint(stored), m, t, env.chain.value, env, allOrNothing)
  {
    StatusOnlyWriteKeepsCheckpoint(stored, Running, None);
  }

  /** The candidate list is empty exactly when there is no new ID and no
      carried-forward one. */
  lemma NoCandidates(start: nat, m: nat, unpublished: seq<nat>)
    ensures |CandidateIds(start, m, unpublished)| == 0 <==> m <= start && |unpublished| == 0
  {
    var c := CandidateIds(start, m, unpublished);
    if |c| > 0 {
      assert c[0] in c;
    }
  }

  /** A scan past the no-op check whose state multicalls all answered
      continues with the split of the whole candidate list. */
  lemma ScanPublishes(cp: Checkpoint, m: nat, t: Table, chain: Chain, env: Env, allOrNothing: bool)
    requires |CandidateIds(cp.highest, m, cp.unpublished)| > 0 || m != cp.highest
    requires forall i :: 0 <= i < |Chunks(CandidateIds(cp.highest, m, cp.unpublished), Batch)| ==>
               chain.stateFault(Chunks(CandidateIds(cp.highest, m, cp.unpublished), Batch)[i]).None?
    ensures Distinct(Classify(CandidateIds(cp.highest, m, cp.unpublished), chain.hashOf).published)
    ensures Scan(cp, m, t, chain, env, allOrNothing)
            == Publish(Classify(CandidateIds(cp.highest, m, cp.unpublished), chain.hashOf), m, t, chain, env, allOrNothing)
  {
  }

  // ---------------------------------------------------------------------------
  // The steady state
  // ---------------------------------------------------------------------------

  /** Nothing new and nothing carried forward: the run succeeds, writes no
      portrait, and leaves the checkpoint as it was, in both versions. */
  lemma {:induction false} SteadyState(stored: Option<StatusRow>, t: Table, env: Env)
    requires env.loadError.None? && env.chain.Some?
    requires env.chain.value.counter == Ok(LoadCheckpoint(stored).highest)
    requires LoadCheckpoint(stored).unpublished == []
    ensures RunAsWritten(stored, t, env) == Run(stored, t, env)
    ensures Run(stored, t, env).job.status == Success && Run(stored, t, env).job.error.None?
    ensures Run(stored, t, env).table == t && Run(stored, t, env).saved == []
    ensures LoadCheckpoint(Some(Run(stored, t, env).job)) == LoadCheckpoint(stored)
  {
    var cp := LoadCheckpoint(stored);
    var chain := env.chain.value;
    NoCandidates(cp.highest, cp.highest, cp.unpublished);
    OnChain(stored, t, env, cp.highest, false);
    OnChain(stored, t, env, cp.highest, true);
    var o := Scan(cp, cp.highest, t, chain, env, false);
    assert o == Outcome(None, cp.highest, [], t, [], true);
    assert Scan(cp, cp.highest, t, chain, env, true) == o;
  }

  /** After a successful run that left no unpublished ID, a run that finds the
      counter where it was is a no-op. */
  lemma SecondRunIsNoOp(stored: Option<StatusRow>, t: Table, env: Env, m: nat)
    requires env.loadError.None? && env.chain.Some? && env.chain.value.counter == Ok(m)
    requires Run(stored, t, env).job.status == Success
    requires LoadCheckpoint(Some(Run(stored, t, env).job)).unpublished == []
    ensures Run(Some(Run(stored, t, env).job), Run(stored, t, env).table, env).table == Run(stored, t, env).table
    ensures LoadCheckpoint(Some(Run(Some(Run(stored, t, env).job), Run(stored, t, env).table, env).job))
            == LoadCheckpoint(Some(Run(stored, t, env).job))
    ensures Run(Some(Run(stored, t, env).job), Run(stored, t, env).table, env).job.status == Success
  {
    OnChain(stored, t, env, m, true);
    SteadyState(Some(Run(stored, t, env).job), Run(stored, t, env).table, env);
  }

  /** A scan from a checkpoint whose highest ID is already the counter and
      whose list holds distinct IDs without a publish hash finds nothing to
      publish: it succeeds, hands the same list on, and leaves the table
      alone. */
  /** With the counter where the checkpoint left it, the candidates are
      exactly the carried-forward list. */
  lemma CarriedCandidates(m: nat, u: seq<nat>)
    requires Distinct(u)
    ensures CandidateIds(m, m, u) == u
  {
    assert NewIds(m, m) + u == u;
  }

  /** A split with nothing published asks for no username, builds no row
      and saves nothing; the unpublished side is handed on. */
  lemma PublishNothing(u: seq<nat>, m: nat, t: Table, chain: Chain, env: Env, allOrNothing: bool)
    ensures Publish(Split([], u), m, t, chain, env, allOrNothing) == Outcome(None, m, u, t, [], false)
  {
    var none: seq<nat> := [];
    assert Chunks(none, Batch) == [];
    NoNamesNoRows(env.profileOf);
  }

  lemma ScanOfCarried(cp: Checkpoint, t: Table, chain: Chain, env: Env, allOrNothing: bool)
    requires forall c :: chain.stateFault(c).None?
    requires Distinct(cp.unpublished)
    requires forall id :: id in cp.unpublished ==> !IsPublishedHash(chain.hashOf(id))
    ensures var o := Scan(cp, cp.highest, t, chain, env, allOrNothing);
            o.error.None? && o.unpublished == cp.unpublished && o.table == t && o.saved == []
  {
    var m := cp.highest;
    var u := cp.unpublished;
    CarriedCandidates(m, u);
    if |u| > 0 {
      ScanPublishes(cp, m, t, chain, env, allOrNothing);
      ClassifyAllUnpublished(u, chain.hashOf);
      PublishNothing(u, m, t, chain, env, allOrNothing);
      calc {
        Scan(cp, m, t, chain, env, allOrNothing);
        Publish(Classify(u, chain.hashOf), m, t, chain, env, allOrNothing);
        Publish(Split([], u), m, t, chain, env, allOrNothing);
        Outcome(None, m, u, t, [], false);
      }
    }
  }

  /** A second run against an unchanged chain, after a first run whose
      state check completed (and, for the corrected run, that succeeded),
      is a no-op: it succeeds, saves nothing, and leaves the table and the
      checkpoint as the first run left them, carried IDs included. */
  lemma {:induction false} SecondRunKeepsState(stored: Option<StatusRow>, t: Table, env: Env, m: nat, allOrNothing: bool)
    requires env.loadError.None? && env.chain.Some? && env.chain.value.counter == Ok(m)
    requires forall c :: env.chain.value.stateFault(c).None?
    requires !allOrNothing || Run(stored, t, env).job.status == Success
    ensures var r1 := if allOrNothing then Run(stored, t, env) else RunAsWritten(stored, t, env);
            var r2 := if allOrNothing then Run(Some(r1.job), r1.table, env) else RunAsWritten(Some(r1.job), r1.table, env);
            && r2.job.status == Success && r2.table == r1.table && r2.saved == []
            && LoadCheckpoint(Some(r2.job)) == LoadCheckpoint(Some(r1.job))
  {
    var chain := env.chain.value;
    var r1 := if allOrNothing then Run(stored, t, env) else RunAsWritten(stored, t, env);
    var cp1 := LoadCheckpoint(Some(r1.job));
    UnpublishedReplaced(stored, t, env, m, allOrNothing);
    assert cp1.highest == m;
    ScanOfCarried(cp1, r1.table, chain, env, allOrNothing);
    var o := Scan(cp1, m, r1.table, chain, env, allOrNothing);
    OnChain(Some(r1.job), r1.table, env, m, allOrNothing);
    if allOrNothing {
      RunOfOutcome(Some(r1.job), r1.table, env, m, o);
    } else {
      RunAsWrittenOfOutcome(Some(r1.job), r1.table, env, m, o);
    }
  }

  // ---------------------------------------------------------------------------
  // The unpublished list and the highest ID
  // ---------------------------------------------------------------------------

  /** After a run whose state check completed, the stored unpublished list is
      exactly the candidates whose hash is not a publish hash: an ID leaves
      the list as soon as it is published, stays while it is not, and the
      list never holds a duplicate. The code records it whatever happens
      afterwards; the corrected run records it when the run succeeds. */
  lemma {:induction false} UnpublishedReplaced(stored: Option<StatusRow>, t: Table, env: Env, m: nat, allOrNothing: bool)
    requires env.loadError.None? && env.chain.Some? && env.chain.value.counter == Ok(m)
    requires forall c :: env.chain.value.stateFault(c).None?
    requires !allOrNothing || Run(stored, t, env).job.status == Success
    ensures var cp := LoadCheckpoint(stored);
            var job := if allOrNothing then Run(stored, t, env).job else RunAsWritten(stored, t, env).job;
            var next := LoadCheckpoint(Some(job));
            && next.highest == m
            && Distinct(next.unpublished)
            && forall id :: id in next.unpublished <==>
                 ((cp.highest < id <= m) || id in cp.unpublished) && !IsPublishedHash(env.chain.value.hashOf(id))
  {
    OnChain(stored, t, env, m, allOrNothing);
    ScanUnpublished(LoadCheckpoint(stored), m, t, env.chain.value, env, allOrNothing);
  }

  /** The list a scan with no state fault hands to the final write. */
  lemma {:induction false} ScanUnpublished(cp: Checkpoint, m: nat, t: Table, chain: Chain, env: Env, allOrNothing: bool)
    requires forall c :: chain.stateFault(c).None?
    ensures var next := Scan(cp, m, t, chain, env, allOrNothing).unpublished;
            && Distinct(next)
            && forall id :: id in next <==>
                 ((cp.highest < id <= m) || id in cp.unpublished) && !IsPublishedHash(chain.hashOf(id))
  {
    var candidates := CandidateIds(cp.highest, m, cp.unpublished);
    var o := Scan(cp, m, t, chain, env, allOrNothing);
    if |candidates| == 0 && m == cp.highest {
      NoCandidates(cp.highest, m, cp.unpublished);
      assert o.unpublished == cp.unpublished == [];
    } else {
      ScanPublishes(cp, m, t, chain, env, allOrNothing);
      CandidatesLeftUnpublished(cp.highest, m, cp.unpublished, chain.hashOf);
    }
  }

  lemma CandidatesLeftUnpublished(start: nat, m: nat, unpublished: seq<nat>, hashOf: nat -> Call<JsResult>)
    ensures var next := Classify(CandidateIds(start, m, unpublished), hashOf).unpublished;
            && Distinct(next)
            && forall id :: id in next <==> ((start < id <= m) || id in unpublished) && !IsPublishedHash(hashOf(id))
  {
  }

  /** An ID carried forward as unpublished whose hash is still missing stays
      in the list; the highest ID processed moves to the counter. */
  lemma StuckUnpublished(stored: Option<StatusRow>, t: Table, env: Env, m: nat, id: nat)
    requires env.loadError.None? && env.chain.Some? && env.chain.value.counter == Ok(m)
    requires forall c :: env.chain.value.stateFault(c).None?
    requires id in LoadCheckpoint(stored).unpublished && !IsPublishedHash(env.chain.value.hashOf(id))
    ensures id in LoadCheckpoint(Some(RunAsWritten(stored, t, env).job)).unpublished
    ensures LoadCheckpoint(Some(RunAsWritten(stored, t, env).job)).highest == m
  {
    UnpublishedReplaced(stored, t, env, m, false);
  }

  /** The highest ID processed never decreases across successful runs while
      the on-chain counter does not fall below it, and a failed corrected run
      leaves it where it was. */
  lemma CheckpointMonotone(stored: Option<StatusRow>, t: Table, env: Env, m: nat)
    requires env.loadError.None? && env.chain.Some? && env.chain.value.counter == Ok(m)
    requires m >= LoadCheckpoint(stored).highest
    ensures LoadCheckpoint(Some(Run(stored, t, env).job)).highest >= LoadCheckpoint(stored).highest
    ensures RunAsWritten(stored, t, env).job.status == Success ==>
              LoadCheckpoint(Some(RunAsWritten(stored, t, env).job)).highest >= LoadCheckpoint(stored).highest
  {
    OnChain(stored, t, env, m, true);
  }

  // ---------------------------------------------------------------------------
  // Completeness of a successful corrected run
  // ---------------------------------------------------------------------------

  /** A successful corrected run loses no candidate: each one is either
      carried forward as unpublished or has a publish hash, and every published
      ID the username phase named has a saved row. */
  lemma SuccessLosesNothing(stored: Option<StatusRow>, t: Table, env: Env, m: nat)
    requires env.loadError.None? && env.chain.Some? && env.chain.value.counter == Ok(m)
    requires Run(stored, t, env).job.status == Success
    ensures var cp := LoadCheckpoint(stored);
            var chain := env.chain.value;
            var candidates := CandidateIds(cp.highest, m, cp.unpublished);
            var next := LoadCheckpoint(Some(Run(stored, t, env).job));
            && (forall id :: id in candidates ==> id in next.unpublished || IsPublishedHash(chain.hashOf(id)))
            && (forall id :: id in candidates && IsPublishedHash(chain.hashOf(id)) ==>
                  (id in FetchNames(Chunks(Classify(candidates, chain.hashOf).published, Batch), chain.namesFor).names
                   ==> exists i :: 0 <= i < |Run(stored, t, env).saved| && Run(stored, t, env).saved[i].id == id))
  {
    var cp := LoadCheckpoint(stored);
    OnChain(stored, t, env, m, true);
    ScanSuccess(cp, m, t, env.chain.value, env);
  }

  /** The corrected scan, when it ends without error: every candidate is
      left unpublished or is published, and every named published ID has a
      saved row. */
  lemma {:induction false} ScanSuccess(cp: Checkpoint, m: nat, t: Table, chain: Chain, env: Env)
    requires Scan(cp, m, t, chain, env, true).error.None?
    ensures var candidates := CandidateIds(cp.highest, m, cp.unpublished);
            var o := Scan(cp, m, t, chain, env, true);
            && (forall id :: id in candidates ==> id in o.unpublished || IsPublishedHash(chain.hashOf(id)))
            && (forall id :: id in candidates && IsPublishedHash(chain.hashOf(id)) ==>
                  (id in FetchNames(Chunks(Classify(candidates, chain.hashOf).published, Batch), chain.namesFor).names
                   ==> exists i :: 0 <= i < |o.saved| && o.saved[i].id == id))
  {
    var candidates := CandidateIds(cp.highest, m, cp.unpublished);
    if |candidates| == 0 && m == cp.highest {
      assert forall id :: id !in candidates;
    } else {
      match CheckStates(Chunks(candidates, Batch), chain.stateFault, chain.hashOf)
      case Err(_) =>
      case Ok(split) =>
        assert split == Classify(candidates, chain.hashOf);
        PublishSavesNamed(split, m, t, chain, env);
    }
  }

  /** A corrected publish step without error saved a row for every named ID. */
  lemma PublishSavesNamed(split: Split, m: nat, t: Table, chain: Chain, env: Env)
    requires Distinct(split.published)
    requires Publish(split, m, t, chain, env, true).error.None?
    ensures forall id :: id in FetchNames(Chunks(split.published, Batch), chain.namesFor).names ==>
              exists i :: 0 <= i < |Publish(split, m, t, chain, env, true).saved|
                          && Publish(split, m, t, chain, env, true).saved[i].id == id
  {
    var names := FetchNames(Chunks(split.published, Batch), chain.namesFor);
    var rows := BuildRows(names.names, env.profileOf);
    assert Save(t, rows, env.tx).error.None?;
    assert Publish(split, m, t, chain, env, true).saved == rows;
  }

  // ---------------------------------------------------------------------------
  // Finding: a failed run still advances the checkpoint
  // ---------------------------------------------------------------------------

  /** As written, a run whose state check completed records the counter and
      the new unpublished list even when a later step failed, so a published
      ID of that run is no candidate of the next run: it is neither above the
      new highest ID nor in the new list. Whether it got a row does not
      matter; only a later run that resets the checkpoint to 0 would consider
      it again. */
  lemma {:induction false} FailedRunDropsPublished(stored: Option<StatusRow>, t: Table, env: Env, m: nat, id: nat, later: nat)
    requires env.loadError.None? && env.chain.Some? && env.chain.value.counter == Ok(m)
    requires forall c :: env.chain.value.stateFault(c).None?
    requires forall x :: x in LoadCheckpoint(stored).unpublished ==> x <= m
    requires id in CandidateIds(LoadCheckpoint(stored).highest, m, LoadCheckpoint(stored).unpublished)
    requires IsPublishedHash(env.chain.value.hashOf(id))
    ensures var next := LoadCheckpoint(Some(RunAsWritten(stored, t, env).job));
            id !in CandidateIds(next.highest, later, next.unpublished)
  {
    UnpublishedReplaced(stored, t, env, m, false);
  }

  /** The corrected run: after a failure the next run starts from the same
      checkpoint, so every candidate of the failed run is a candidate again
      once the counter has not fallen. */
  lemma {:induction false} FailedRunKeepsCandidates(stored: Option<StatusRow>, t: Table, env: Env, m: nat, later: nat)
    requires Run(stored, t, env).job.status == Error
    requires later >= m
    ensures var cp := LoadCheckpoint(stored);
            var next := LoadCheckpoint(Some(Run(stored, t, env).job));
            forall id :: id in CandidateIds(cp.highest, m, cp.unpublished) ==>
              id in CandidateIds(next.highest, later, next.unpublished)
  {
  }

  /** A concrete failing run: checkpoint `(0, [])`, counter 1, portrait 1
      published, and the username multicall throws. */
  const OutageStored: Option<StatusRow> := Some(StatusRow(Success, None, Some(0), IdsArray([])))
  const OutageChain: Chain := Chain(Ok(1), _ => None, _ => Succeeded(JsStr("Qm")), _ => NamesThrown("timeout"))
  const OutageEnv: Env := Env(None, Some(OutageChain), _ => ProfileFailed, TxFaults(None, {}, None))
  const OutageError: string := UsernameExceptionText("timeout")

  /** A scan whose only candidate `id` is published and whose username
      multicall for `[id]` throws: the error is flagged, nothing is saved,
      and no ID is left unpublished. */
  lemma ScanWithThrownNames(cp: Checkpoint, m: nat, t: Table, chain: Chain, env: Env, allOrNothing: bool,
                            id: nat, msg: string)
    requires m != cp.highest && CandidateIds(cp.highest, m, cp.unpublished) == [id]
    requires forall c :: chain.stateFault(c).None?
    requires IsPublishedHash(chain.hashOf(id)) && chain.namesFor([id]) == NamesThrown(msg)
    ensures Scan(cp, m, t, chain, env, allOrNothing)
            == Outcome(Some(UsernameExceptionText(msg)), m, [], t, [], false)
  {
    ClassifyOnePublished(id, chain.hashOf);
    PublishWithThrownNames(id, m, t, chain, env, allOrNothing, msg);
    ScanEquals(cp, m, t, chain, env, allOrNothing,
               Split([id], []), Outcome(Some(UsernameExceptionText(msg)), m, [], t, [], false));
  }

  /** A scan past the no-op check without state faults ends as the publish
      step of its split. */
  lemma ScanEquals(cp: Checkpoint, m: nat, t: Table, chain: Chain, env: Env, allOrNothing: bool, split: Split, o: Outcome)
    requires m != cp.highest
    requires forall c :: chain.stateFault(c).None?
    requires Classify(CandidateIds(cp.highest, m, cp.unpublished), chain.hashOf) == split
    requires Distinct(split.published) && Publish(split, m, t, chain, env, allOrNothing) == o
    ensures Scan(cp, m, t, chain, env, allOrNothing) == o
  {
    var chunks := Chunks(CandidateIds(cp.highest, m, cp.unpublished), Batch);
    assert CheckStates(chunks, chain.stateFault, chain.hashOf) == Ok(split);
  }

  lemma OutageCandidates()
    ensures CandidateIds(0, 1, []) == [1]
  {
    var c := CandidateIds(0, 1, []);
    var n := NewIds(0, 1);
    assert |n| == 1 && n[0] == 1;
    assert |c| == 1 && c[0] == 1;
  }

  /** A non-empty hash other than `"0x"` whose first character is visible
      is a publish hash. */
  lemma VisibleHashIsPublishHash(s: string)
    requires |s| > 0 && !IsWhitespace(s[0]) && s != "0x"
    ensures IsPublishedHash(Succeeded(JsStr(s)))
  {
    VisibleFirstNotBlank(s);
  }

  lemma ClassifyOnePublished(x: nat, hashOf: nat -> Call<JsResult>)
    requires IsPublishedHash(hashOf(x))
    ensures Classify([x], hashOf) == Split([x], [])
  {
    var split := Classify([x], hashOf);
    assert x in split.published;
  }

  /** Publishing one ID whose username chunk throws: no row, the username
      error, and the table unchanged. */
  lemma PublishWithThrownNames(id: nat, m: nat, t: Table, chain: Chain, env: Env, allOrNothing: bool, msg: string)
    requires chain.namesFor([id]) == NamesThrown(msg)
    ensures Publish(Split([id], []), m, t, chain, env, allOrNothing)
            == Outcome(Some(UsernameExceptionText(msg)), m, [], t, [], false)
  {
    ThrownNames(id, chain.namesFor, msg);
    NoNamesNoRows(env.profileOf);
  }

  lemma ThrownNames(id: nat, namesFor: seq<nat> -> NamesReply, msg: string)
    requires namesFor([id]) == NamesThrown(msg)
    ensures FetchNames(Chunks([id], Batch), namesFor) == NamesResult(map[], Some(UsernameExceptionText(msg)))
  {
    assert Chunks([id], Batch) == [[id]];
    assert [[id]][1..] == [];
  }

  lemma NoNamesNoRows(profileOf: string -> ProfileReply)
    ensures BuildRows(map[], profileOf) == []
  {
  }

  /** A run from checkpoint `(0, [])` that reads counter 1, finds portrait 1
      published, and whose username multicall for `[1]` throws with `msg`. */
  ghost predicate UsernameOutage(stored: Option<StatusRow>, env: Env, msg: string)
  {
    && LoadCheckpoint(stored) == Checkpoint(0, [])
    && env.loadError.None? && env.chain.Some? && env.chain.value.counter == Ok(1)
    && (forall c :: env.chain.value.stateFault(c).None?)
    && IsPublishedHash(env.chain.value.hashOf(1))
    && env.chain.value.namesFor([1]) == NamesThrown(msg)
  }

  /** The concrete outage above is such a run. */
  lemma OutageIsUsernameOutage()
    ensures UsernameOutage(OutageStored, OutageEnv, "timeout")
  {
    assert LoadCheckpoint(OutageStored) == Checkpoint(0, []);
    VisibleHashIsPublishHash("Qm");
  }

  /** As written, such a run records checkpoint `(1, [])` and saves nothing,
      so the next run does not consider portrait 1; only a later run that
      resets the checkpoint to 0 would. */
  lemma UsernameOutageLosesPortrait(stored: Option<StatusRow>, t: Table, env: Env, msg: string)
    requires UsernameOutage(stored, env, msg) && 1 !in t
    ensures RunAsWritten(stored, t, env).job.status == Error
    ensures LoadCheckpoint(Some(RunAsWritten(stored, t, env).job)) == Checkpoint(1, [])
    ensures 1 !in RunAsWritten(stored, t, env).table
    ensures forall later :: 1 !in CandidateIds(1, later, [])
  {
    OutageCandidates();
    ScanWithThrownNames(Checkpoint(0, []), 1, t, env.chain.value, env, false, 1, msg);
    RunAsWrittenOfOutcome(stored, t, env, 1, Outcome(Some(UsernameExceptionText(msg)), 1, [], t, [], false));
  }

  /** The corrected run keeps checkpoint `(0, [])` after such a run, so
      portrait 1 is a candidate of every later run. */
  lemma UsernameOutageRetried(stored: Option<StatusRow>, t: Table, env: Env, msg: string)
    requires UsernameOutage(stored, env, msg)
    ensures Run(stored, t, env).job.status == Error
    ensures LoadCheckpoint(Some(Run(stored, t, env).job)) == Checkpoint(0, [])
    ensures forall later: nat :: later >= 1 ==> 1 in CandidateIds(0, later, [])
  {
    OutageCandidates();
    ScanWithThrownNames(Checkpoint(0, []), 1, t, env.chain.value, env, true, 1, msg);
    RunOfOutcome(stored, t, env, 1, Outcome(Some(UsernameExceptionText(msg)), 1, [], t, [], false));
  }

  // ---------------------------------------------------------------------------
  // Finding: a thrown state check skips the new IDs
  // ---------------------------------------------------------------------------

  /** As written, a run whose state multicall throws records the counter it
      read with the list it loaded, so a new ID of that run (above the old
      highest ID and not carried) is no candidate of the next run: it is
      neither above the new highest ID nor in the list. */
  lemma StateOutageSkipsNewIds(stored: Option<StatusRow>, t: Table, env: Env, m: nat, id: nat, later: nat)
    requires env.loadError.None? && env.chain.Some? && env.chain.value.counter == Ok(m)
    requires StateCheckThrows(LoadCheckpoint(stored), m, env.chain.value)
    requires LoadCheckpoint(stored).highest < id <= m && id !in LoadCheckpoint(stored).unpublished
    ensures RunAsWritten(stored, t, env).job.status == Error
    ensures RunAsWritten(stored, t, env).table == t
    ensures LoadCheckpoint(Some(RunAsWritten(stored, t, env).job)) == Checkpoint(m, LoadCheckpoint(stored).unpublished)
    ensures id !in CandidateIds(m, later, LoadCheckpoint(stored).unpublished)
  {
    var o := Scan(LoadCheckpoint(stored), m, t, env.chain.value, env, false);
    RunAsWrittenOfOutcome(stored, t, env, m, o);
  }

  /** The corrected run keeps the stored checkpoint after such a run, so the
      new ID is a candidate of every later run whose counter has not fallen
      below it. */
  lemma StateOutageRetried(stored: Option<StatusRow>, t: Table, env: Env, m: nat, id: nat, later: nat)
    requires env.loadError.None? && env.chain.Some? && env.chain.value.counter == Ok(m)
    requires StateCheckThrows(LoadCheckpoint(stored), m, env.chain.value)
    requires LoadCheckpoint(stored).highest < id <= later
    ensures Run(stored, t, env).job.status == Error
    ensures Run(stored, t, env).table == t
    ensures LoadCheckpoint(Some(Run(stored, t, env).job)) == LoadCheckpoint(stored)
    ensures id in CandidateIds(LoadCheckpoint(stored).highest, later, LoadCheckpoint(stored).unpublished)
  {
    var o := Scan(LoadCheckpoint(stored), m, t, env.chain.value, env, true);
    RunOfOutcome(stored, t, env, m, o);
  }

  /** A concrete state outage: checkpoint `(0, [])`, counter 5, and every
      state multicall throws. */
  const StateOutageChain: Chain := Chain(Ok(5), _ => Some("boom"), _ => Succeeded(JsStr("Qm")), _ => NamesThrown("timeout"))
  const StateOutageEnv: Env := Env(None, Some(StateOutageChain), _ => ProfileFailed, TxFaults(None, {}, None))

  /** The state multicall of the concrete outage throws on its first chunk. */
  lemma StateOutageThrows()
    ensures StateCheckThrows(Checkpoint(0, []), 5, StateOutageChain)
  {
    var candidates := CandidateIds(0, 5, []);
    assert 1 in candidates;
    var chunks := Chunks(candidates, Batch);
    assert chunks != [];
    assert StateOutageChain.stateFault(chunks[0]) == Some("boom");
  }

  /** As written, the concrete outage records `(5, [])`: portraits 1 to 5 are
      never checked by the next run, while the corrected run keeps `(0, [])`
      and checks them again. */
  lemma StateOutageLosesFive(t: Table, id: nat, later: nat)
    requires 1 <= id <= 5
    ensures LoadCheckpoint(Some(RunAsWritten(OutageStored, t, StateOutageEnv).job)) == Checkpoint(5, [])
    ensures id !in CandidateIds(5, later, [])
    ensures LoadCheckpoint(Some(Run(OutageStored, t, StateOutageEnv).job)) == Checkpoint(0, [])
    ensures later >= 5 ==> id in CandidateIds(0, later, [])
  {
    assert LoadCheckpoint(OutageStored) == Checkpoint(0, []);
    StateOutageThrows();
    StateOutageSkipsNewIds(OutageStored, t, StateOutageEnv, 5, id, later);
    if later >= 5 {
      StateOutageRetried(OutageStored, t, StateOutageEnv, 5, id, later);
    } else {
      StateOutageRetried(OutageStored, t, StateOutageEnv, 5, id, 5);
    }
  }
}
