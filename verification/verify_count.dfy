/** The stand-alone count check (`verify-count.js`): it walks IDs `1..maxId`
    in batches of 50, asks the chain for each ID's owner and publish hash in
    one multicall per batch, and counts the IDs that have both a non-zero
    owner and a non-empty hash. Its rule differs from the sync job's
    classification, and the last lemmas compare the two. */
module VerifyCount {
  import opened Common
  import opened Text
  import opened Seqs
  import opened Sync

  const Batch: nat := 50
  const ZeroAddress: string := "0x0000000000000000000000000000000000000000"

  /** The chain as the script sees it once a client exists: the answer to
      `portraitIdCounter()`, whether a batch's multicall rejects as a whole
      (and with which message), and the per-ID results of the two getters. */
  datatype CountChain = CountChain(
    counter: Result<nat>,
    batchFault: seq<nat> -> Option<string>,
    ownerOf: nat -> Call<JsResult>,
    hashOf: nat -> Call<JsResult>)

  /** What the run ends with: the early exit for an empty registry, the two
      totals it prints, or the error its `catch` logs. */
  datatype Report =
    | NothingToCheck
    | Complete(totalChecked: nat, published: nat)
    | Aborted(message: string)

  /** `hasOwner`: the owner getter answered with something other than the
      zero address. */
  predicate HasOwner(c: Call<JsResult>)
  {
    c.Succeeded? && c.result != JsStr(ZeroAddress)
  }

  /** `hasHash`: the hash getter answered with a truthy, non-empty value. */
  predicate HasHash(c: Call<JsResult>)
  {
    c.Succeeded? && Truthy(c.result)
  }

  /** The script's rule for a published portrait. */
  predicate Counted(chain: CountChain, id: nat)
  {
    HasOwner(chain.ownerOf(id)) && HasHash(chain.hashOf(id))
  }

  function Min(a: int, b: int): int
  {
    if a <= b then a else b
  }

  // ---------------------------------------------------------------------------
  // Batches
  // ---------------------------------------------------------------------------

  /** The batches the loop visits from `i` on: `i..min(i + 49, maxId)`, then
      the next start `i + 50`, while `i <= maxId`. */
  function Batches(i: nat, maxId: nat): seq<seq<nat>>
    requires i >= 1
    decreases maxId + 1 - i
  {
    if i > maxId then [] else [IdRange(i, Min(i + Batch - 1, maxId))] + Batches(i + Batch, maxId)
  }

  lemma {:induction false} IdRangeSplit(lo: nat, mid: int, hi: int)
    requires lo - 1 <= mid <= hi
    ensures IdRange(lo, mid) + IdRange(mid + 1, hi) == IdRange(lo, hi)
  {
    var a := IdRange(lo, mid);
    var b := IdRange(mid + 1, hi);
    assert |a + b| == |IdRange(lo, hi)|;
    forall k | 0 <= k < |a + b|
      ensures (a + b)[k] == IdRange(lo, hi)[k]
    {
      if k >= |a| {
        assert (a + b)[k] == b[k - |a|];
      }
    }
  }

  lemma BatchesUnfold(i: nat, maxId: nat)
    requires 1 <= i <= maxId
    ensures |Batches(i, maxId)| > 0
    ensures Batches(i, maxId)[0] == IdRange(i, Min(i + Batch - 1, maxId))
    ensures Batches(i, maxId)[1..] == Batches(i + Batch, maxId)
  {
  }

  /** Laid end to end, the batches from `i` on give exactly `i..maxId`. */
  lemma {:induction false} BatchesCover(i: nat, maxId: nat)
    requires i >= 1
    ensures Flatten(Batches(i, maxId)) == IdRange(i, maxId)
    decreases maxId + 1 - i
  {
    if i <= maxId {
      var e := Min(i + Batch - 1, maxId);
      BatchesUnfold(i, maxId);
      BatchesCover(i + Batch, maxId);
      IdRangeSplit(i, e, maxId);
      assert IdRange(e + 1, maxId) == Flatten(Batches(i + Batch, maxId)) by {
        if i + Batch > maxId {
          assert IdRange(e + 1, maxId) == [];
        }
      }
    }
  }

  /** Each batch is non-empty and holds at most 50 IDs. */
  lemma {:induction false} BatchesSized(i: nat, maxId: nat)
    requires i >= 1
    ensures forall b :: b in Batches(i, maxId) ==> 0 < |b| <= Batch
    decreases maxId + 1 - i
  {
    if i <= maxId {
      BatchesUnfold(i, maxId);
      BatchesSized(i + Batch, maxId);
      var bs := Batches(i, maxId);
      assert bs == [bs[0]] + Batches(i + Batch, maxId);
    }
  }

  /** The batches of one run: together they are `1..maxId`, each ID once. */
  lemma RunBatches(maxId: nat)
    ensures Flatten(Batches(1, maxId)) == IdRange(1, maxId)
    ensures Distinct(Flatten(Batches(1, maxId)))
    ensures forall b :: b in Batches(1, maxId) ==> 0 < |b| <= Batch
  {
    BatchesCover(1, maxId);
    BatchesSized(1, maxId);
    IdRangeMembers(1, maxId);
    var r := IdRange(1, maxId);
    forall i, j | 0 <= i < j < |r|
      ensures r[i] != r[j]
    {
    }
  }

  /** Every batch before position `k` was answered. */
  predicate AnsweredBefore(batches: seq<seq<nat>>, fault: seq<nat> -> Option<string>, k: nat)
  {
    forall j :: 0 <= j < k && j < |batches| ==> fault(batches[j]).None?
  }

  /** The message of the first batch whose multicall rejects. */
  function FirstFault(batches: seq<seq<nat>>, fault: seq<nat> -> Option<string>): (r: Option<string>)
    ensures r.None? <==> forall k :: 0 <= k < |batches| ==> fault(batches[k]).None?
    ensures r.Some? ==> exists k :: 0 <= k < |batches| && fault(batches[k]) == r
    ensures forall k {:trigger AnsweredBefore(batches, fault, k)} ::
              0 <= k < |batches| && fault(batches[k]).Some? && AnsweredBefore(batches, fault, k) ==> r == fault(batches[k])
  {
    if |batches| == 0 then None
    else if fault(batches[0]).Some? then fault(batches[0])
    else
      var rest := FirstFault(batches[1..], fault);
      assert forall k :: 1 <= k < |batches| ==> batches[k] == batches[1..][k - 1];
      assert forall k :: 1 <= k < |batches| && AnsweredBefore(batches, fault, k) ==>
                AnsweredBefore(batches[1..], fault, k - 1);
      rest
  }

  // ---------------------------------------------------------------------------
  // One batch's multicall
  // ---------------------------------------------------------------------------

  /** The multicall's answer for `idsInBatch.flatMap(id => [owner, hash])`:
      one result per contract call, in call order. */
  function MulticallResults(ids: seq<nat>, chain: CountChain): (r: seq<Call<JsResult>>)
    ensures |r| == 2 * |ids|
    ensures forall i :: 0 <= i < |ids| ==> r[2 * i] == chain.ownerOf(ids[i]) && r[2 * i + 1] == chain.hashOf(ids[i])
  {
    if |ids| == 0 then []
    else
      var rest := MulticallResults(ids[1..], chain);
      assert forall i :: 1 <= i < |ids| ==> ids[i] == ids[1..][i - 1];
      [chain.ownerOf(ids[0]), chain.hashOf(ids[0])] + rest
  }

  // ---------------------------------------------------------------------------
  // The count
  // ---------------------------------------------------------------------------

  /** How many of the IDs `1..n` the script's rule counts. */
  function CountedUpTo(chain: CountChain, n: nat): (c: nat)
    ensures c <= n
  {
    if n == 0 then 0 else CountedUpTo(chain, n - 1) + (if Counted(chain, n) then 1 else 0)
  }

  function CountedSet(chain: CountChain, n: nat): set<nat>
  {
    set id: nat | 1 <= id <= n && Counted(chain, id)
  }

  /** The running count is the number of counted IDs in `1..n`. */
  lemma {:induction false} CountedUpToIsCardinality(chain: CountChain, n: nat)
    ensures CountedUpTo(chain, n) == |CountedSet(chain, n)|
  {
    if n == 0 {
      assert CountedSet(chain, 0) == {};
    } else {
      CountedUpToIsCardinality(chain, n - 1);
      if Counted(chain, n) {
        assert CountedSet(chain, n) == CountedSet(chain, n - 1) + {n};
      } else {
        assert CountedSet(chain, n) == CountedSet(chain, n - 1);
      }
    }
  }

  /** The inner `for (let j = i; j <= endId; j++)` loop. */
  method BatchIds(i: nat, endId: nat) returns (ids: seq<nat>)
    requires i <= endId + 1
    ensures ids == IdRange(i, endId)
  {
    ids := [];
    var j := i;
    while j <= endId
      invariant i <= j <= endId + 1
      invariant ids == IdRange(i, j - 1)
    {
      ids := ids + [j];
      j := j + 1;
    }
  }

  /** The two checks on one ID's pair of results; a failed call only logs
      a warning and leaves its flag false. */
  method DecodePair(ownerResult: Call<JsResult>, hashResult: Call<JsResult>) returns (hasOwner: bool, hasHash: bool)
    ensures hasOwner <==> ownerResult.Succeeded? && ownerResult.result != JsStr(ZeroAddress)
    ensures hasHash <==> hashResult.Succeeded? && Truthy(hashResult.result)
  {
    hasOwner := false;
    hasHash := false;
    if ownerResult.Succeeded? && ownerResult.result != JsStr(ZeroAddress) {
      hasOwner := true;
    }
    if hashResult.Succeeded? && Truthy(hashResult.result) {
      hasHash := true;
    }
  }

  /** The batch `first..endId` and its multicall answer, pair by pair: the
      `i`-th ID is `first + i`, and results `2i` and `2i + 1` are its owner
      and its hash. */
  predicate Paired(chain: CountChain, first: nat, idsInBatch: seq<nat>, results: seq<Call<JsResult>>)
  {
    |results| == 2 * |idsInBatch| &&
    forall i :: 0 <= i < |idsInBatch| ==>
      idsInBatch[i] == first + i && results[2 * i] == chain.ownerOf(first + i) && results[2 * i + 1] == chain.hashOf(first + i)
  }

  /** The IDs of a batch and the multicall's answer for them are paired. */
  lemma BatchPaired(chain: CountChain, first: nat, endId: nat, ids: seq<nat>, results: seq<Call<JsResult>>)
    requires ids == IdRange(first, endId) && results == MulticallResults(ids, chain)
    ensures Paired(chain, first, ids, results)
  {
    forall i | 0 <= i < |ids|
      ensures ids[i] == first + i && results[2 * i] == chain.ownerOf(first + i) && results[2 * i + 1] == chain.hashOf(first + i)
    {
      assert results[2 * i] == chain.ownerOf(ids[i]);
    }
  }

  /** Counting one more ID adds one exactly when that ID is counted. */
  lemma CountedStep(chain: CountChain, n: nat)
    requires n > 0
    ensures CountedUpTo(chain, n) == CountedUpTo(chain, n - 1) + (if Counted(chain, n) then 1 else 0)
  {
  }

  /** The pairwise loop over one batch's results: it adds the batch's
      counted IDs to the running count. */
  method CountBatch(chain: CountChain, first: nat, endId: nat, idsInBatch: seq<nat>, results: seq<Call<JsResult>>,
                    before: nat)
    returns (publishedCount: nat)
    requires 1 <= first <= endId && |idsInBatch| == endId - first + 1
    requires Paired(chain, first, idsInBatch, results)
    requires before == CountedUpTo(chain, first - 1)
    ensures publishedCount == CountedUpTo(chain, endId)
  {
    publishedCount := before;
    var k := 0;
    ghost var n := first - 1;
    while k < |results|
      invariant first - 1 <= n <= endId && k == 2 * (n - first + 1)
      invariant publishedCount == CountedUpTo(chain, n)
    {
      assert k / 2 == n - first + 1;
      var ownerResult := results[k];
      var hashResult := results[k + 1];
      var currentId := idsInBatch[k / 2];
      CountedStep(chain, currentId);
      var hasOwner, hasHash := DecodePair(ownerResult, hashResult);
      assert hasOwner && hasHash <==> Counted(chain, currentId);
      if hasOwner && hasHash {
        publishedCount := publishedCount + 1;
      }
      k := k + 2;
      n := currentId;
    }
  }

  /** The report the script should end with once the counter read `maxId`
      (> 0): the message of the first batch whose multicall rejects, or
      every ID checked and the counted ones counted. */
  function Expected(chain: CountChain, maxId: nat): Report
  {
    match FirstFault(Batches(1, maxId), chain.batchFault)
    case Some(m) => Aborted(m)
    case None => Complete(maxId, CountedUpTo(chain, maxId))
  }

  lemma FirstFaultUnfold(i: nat, maxId: nat, fault: seq<nat> -> Option<string>, ids: seq<nat>)
    requires 1 <= i <= maxId && ids == IdRange(i, Min(i + Batch - 1, maxId))
    ensures fault(ids).Some? ==> FirstFault(Batches(i, maxId), fault) == fault(ids)
    ensures fault(ids).None? ==> FirstFault(Batches(i, maxId), fault) == FirstFault(Batches(i + Batch, maxId), fault)
  {
    BatchesUnfold(i, maxId);
  }

  /** The script end to end, after `getClient` produced `client` or threw. */
  method Verify(client: Result<CountChain>) returns (r: Report)
    ensures client.Err? ==> r == Aborted(client.message)
    ensures client.Ok? && client.value.counter.Err? ==> r == Aborted(client.value.counter.message)
    ensures client.Ok? && client.value.counter == Ok(0) ==> r == NothingToCheck
    ensures client.Ok? && client.value.counter.Ok? && client.value.counter.value > 0 ==>
              r == Expected(client.value, client.value.counter.value)
  {
    if client.Err? {
      return Aborted(client.message);
    }
    var chain := client.value;
    if chain.counter.Err? {
      return Aborted(chain.counter.message);
    }
    var maxId := chain.counter.value;
    if maxId == 0 {
      return NothingToCheck;
    }
    r := CheckAll(chain, maxId);
  }

  /** One pass of the batch loop's body for the batch starting at `i`: the
      IDs it checks, the multicall's rejection if any, and otherwise the
      running count with the batch's counted IDs added. */
  method VisitBatch(chain: CountChain, i: nat, maxId: nat, before: nat)
    returns (idsInBatch: seq<nat>, fault: Option<string>, publishedCount: nat)
    requires 1 <= i <= maxId && before == CountedUpTo(chain, i - 1)
    ensures idsInBatch == IdRange(i, Min(i + Batch - 1, maxId))
    ensures fault == chain.batchFault(idsInBatch)
    ensures fault.None? ==> publishedCount == CountedUpTo(chain, Min(i + Batch - 1, maxId))
  {
    var endId := Min(i + Batch - 1, maxId);
    idsInBatch := BatchIds(i, endId);
    fault := chain.batchFault(idsInBatch);
    publishedCount := before;
    if fault.None? {
      var results := MulticallResults(idsInBatch, chain);
      BatchPaired(chain, i, endId, idsInBatch, results);
      publishedCount := CountBatch(chain, i, endId, idsInBatch, results, before);
    }
  }

  /** The batch loop, for a counter `maxId > 0`. */
  method CheckAll(chain: CountChain, maxId: nat) returns (r: Report)
    requires maxId > 0
    ensures r == Expected(chain, maxId)
  {
    var publishedCount := 0;
    var totalChecked := 0;
    var i := 1;
    while i <= maxId
      invariant i >= 1
      invariant totalChecked == Min(i - 1, maxId)
      invariant publishedCount == CountedUpTo(chain, Min(i - 1, maxId))
      invariant FirstFault(Batches(1, maxId), chain.batchFault) == FirstFault(Batches(i, maxId), chain.batchFault)
      decreases maxId + 1 - i
    {
      var idsInBatch, fault, count := VisitBatch(chain, i, maxId, publishedCount);
      totalChecked := totalChecked + |idsInBatch|;
      FirstFaultUnfold(i, maxId, chain.batchFault, idsInBatch);
      if fault.Some? {
        return Aborted(fault.value);
      }
      publishedCount := count;
      i := i + Batch;
    }
    return Complete(totalChecked, publishedCount);
  }

  // ---------------------------------------------------------------------------
  // The two classification rules side by side
  // ---------------------------------------------------------------------------

  /** A hash the sync job accepts as published also passes the script's hash
      test. */
  lemma PublishedHashHasHash(c: Call<JsResult>)
    ensures IsPublishedHash(c) ==> HasHash(c)
  {
    if IsPublishedHash(c) {
      assert c.result.s != "";
    }
  }

  /** The converse fails: `"0x"` and a blank string pass the script's hash
      test but not the sync job's. */
  lemma HashTestsDiffer()
    ensures HasHash(Succeeded(JsStr("0x"))) && !IsPublishedHash(Succeeded(JsStr("0x")))
    ensures HasHash(Succeeded(JsStr(" "))) && !IsPublishedHash(Succeeded(JsStr(" ")))
  {
    assert Trim(" ") == "";
  }

  /** The script also asks for an owner, which the sync job never reads: an
      ID the sync job publishes is not counted when its owner is the zero
      address. */
  lemma ZeroOwnerNotCounted(chain: CountChain, id: nat)
    requires chain.ownerOf(id) == Succeeded(JsStr(ZeroAddress))
    ensures !Counted(chain, id)
  {
  }
}
