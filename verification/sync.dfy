/** The steps of one run of the incremental portrait sync (`runFetchJob`), each
    as a pure function of the checkpoint and of the answers the chain, the
    profile API and the database give: candidate selection, batched publish
    classification, username lookup, row building, and the transactional save. */
module Sync {
  import opened Common
  import opened Text
  import opened Seqs
  import opened Store

  /** Size of the on-chain multicall chunks. */
  const Batch: nat := 500

  const PublicPage: string := "https://portrait.so/"
  const IpfsGateway: string := "https://ipfs.io/ipfs/"
  const ArweaveGateway: string := "https://irys.portrait.host/"

  // ---------------------------------------------------------------------------
  // Candidate IDs
  // ---------------------------------------------------------------------------

  /** IDs minted since the checkpoint: `startId + 1 .. maxIdOnChain`. */
  function NewIds(startId: nat, maxId: nat): (r: seq<nat>)
    ensures forall id: nat :: id in r <==> startId < id <= maxId
    ensures StrictlyIncreasing(r) && Distinct(r)
  {
    IdRangeMembers(startId + 1, maxId);
    IdRange(startId + 1, maxId)
  }

  /** `Array.from(new Set([...newIds, ...unpublished]))`: every new ID and every
      carried-forward unpublished ID, once each, the new IDs first and ascending. */
  function CandidateIds(startId: nat, maxId: nat, unpublished: seq<nat>): (c: seq<nat>)
    ensures Distinct(c)
    ensures forall id: nat :: id in c <==> (startId < id <= maxId) || id in unpublished
    ensures |c| >= |NewIds(startId, maxId)| && c[..|NewIds(startId, maxId)|] == NewIds(startId, maxId)
    ensures StrictlyIncreasing(c[..|NewIds(startId, maxId)|])
    ensures |c| <= |NewIds(startId, maxId)| + |unpublished|
  {
    DedupKeepsDistinctPrefix(NewIds(startId, maxId), unpublished);
    Dedup(NewIds(startId, maxId) + unpublished)
  }

  // ---------------------------------------------------------------------------
  // Publish classification (portraitIdToPortraitHash)
  // ---------------------------------------------------------------------------

  /** An ID counts as published only when its call succeeded and returned a
      string that is non-empty, not blank after trimming, and not `'0x'`;
      a failed call counts as unpublished. */
  predicate IsPublishedHash(c: Call<JsResult>)
  {
    && c.Succeeded?
    && c.result.JsStr?
    && c.result.s != ""
    && Trim(c.result.s) != ""
    && c.result.s != "0x"
  }

  /** The published IDs, in candidate order, and the still-unpublished ones. */
  datatype Split = Split(published: seq<nat>, unpublished: seq<nat>)

  /** Sorting each candidate, in order, into `publishedIds` or
      `stillUnpublishedIds`. */
  function Classify(ids: seq<nat>, hashOf: nat -> Call<JsResult>): (r: Split)
    ensures forall id :: id in r.published <==> id in ids && IsPublishedHash(hashOf(id))
    ensures forall id :: id in r.unpublished <==> id in ids && !IsPublishedHash(hashOf(id))
    ensures |r.published| + |r.unpublished| == |ids|
    ensures Distinct(ids) ==> Distinct(r.published) && Distinct(r.unpublished)
  {
    var published := (id: nat) => IsPublishedHash(hashOf(id));
    var unpublished := (id: nat) => !IsPublishedHash(hashOf(id));
    FilterComplement(ids, published, unpublished);
    FilterDistinct(ids, published);
    FilterDistinct(ids, unpublished);
    Split(Filter(ids, published), Filter(ids, unpublished))
  }

  /** A list of IDs none of which has a publish hash is handed on whole, in
      its order, as the unpublished side. */
  lemma ClassifyAllUnpublished(ids: seq<nat>, hashOf: nat -> Call<JsResult>)
    requires forall id :: id in ids ==> !IsPublishedHash(hashOf(id))
    ensures Classify(ids, hashOf) == Split([], ids)
  {
    assert forall i :: 0 <= i < |ids| ==> ids[i] in ids;
    FilterKeepsAll(ids, (id: nat) => !IsPublishedHash(hashOf(id)));
  }

  /** Classifying a list chunk by chunk gives the same split, concatenated. */
  lemma ClassifyConcat(a: seq<nat>, b: seq<nat>, hashOf: nat -> Call<JsResult>)
    ensures Classify(a + b, hashOf).published == Classify(a, hashOf).published + Classify(b, hashOf).published
    ensures Classify(a + b, hashOf).unpublished == Classify(a, hashOf).unpublished + Classify(b, hashOf).unpublished
  {
    FilterConcat(a, b, (id: nat) => IsPublishedHash(hashOf(id)));
    FilterConcat(a, b, (id: nat) => !IsPublishedHash(hashOf(id)));
  }

  /** The chunked state check: one multicall per chunk of at most `Batch` IDs.
      A multicall that throws as a whole ends the run with its message; the
      per-ID failures it tolerates (`allowFailure: true`) are in `hashOf`. */
  function CheckStates(chunks: seq<seq<nat>>, stateFault: seq<nat> -> Option<string>,
                       hashOf: nat -> Call<JsResult>): (r: Result<Split>)
    ensures r.Ok? <==> forall i :: 0 <= i < |chunks| ==> stateFault(chunks[i]).None?
    ensures r.Ok? ==> r.value == Classify(Flatten(chunks), hashOf)
    ensures r.Err? ==> exists i :: 0 <= i < |chunks| && stateFault(chunks[i]) == Some(r.message)
                                   && forall j :: 0 <= j < i ==> stateFault(chunks[j]).None?
    decreases |chunks|
  {
    if |chunks| == 0 then Ok(Split([], []))
    else if stateFault(chunks[0]).Some? then Err(stateFault(chunks[0]).value)
    else
      var rest := CheckStates(chunks[1..], stateFault, hashOf);
      if rest.Err? then
        assert forall i :: 0 <= i < |chunks[1..]| ==> chunks[1..][i] == chunks[i + 1];
        rest
      else
        var head := Classify(chunks[0], hashOf);
        ClassifyConcat(chunks[0], Flatten(chunks[1..]), hashOf);
        assert forall i :: 1 <= i < |chunks| ==> chunks[i] == chunks[1..][i - 1];
        Ok(Split(head.published + rest.value.published, head.unpublished + rest.value.unpublished))
  }

  // ---------------------------------------------------------------------------
  // Usernames (getNamesForPortraitIds)
  // ---------------------------------------------------------------------------

  /** The answer to one `getNamesForPortraitIds(chunk)` multicall with
      `allowFailure: false`: it throws, returns something that is not an
      array, or returns the array of names. */
  datatype NamesReply = NamesThrown(message: string) | NamesNotArray | NamesArray(names: seq<JsResult>)

  /** `name && typeof name === 'string' && name.trim() !== ''`. */
  predicate IsUsableName(v: JsResult)
  {
    v.JsStr? && v.s != "" && Trim(v.s) != ""
  }

  /** The name a reply gives to the ID at position `j` of its chunk, if usable.
      Names past the end of the chunk are stored under the key "undefined",
      which the row-building loop reads back as `NaN` and skips, so they never
      reach a row and are not modelled. */
  function NameAt(reply: NamesReply, j: nat): (r: Option<string>)
    ensures r.Some? <==> reply.NamesArray? && j < |reply.names| && IsUsableName(reply.names[j])
    ensures r.Some? ==> reply.names[j] == JsStr(r.value)
  {
    if reply.NamesArray? && j < |reply.names| && IsUsableName(reply.names[j]) then Some(reply.names[j].s)
    else None
  }

  /** `namesArray.forEach((name, j) => ... usernamesMap[chunk[j]] = name)` over
      the first `n` positions of a chunk. */
  function ChunkNames(chunk: seq<nat>, reply: NamesReply, n: nat): (m: map<nat, string>)
    requires n <= |chunk|
    requires Distinct(chunk)
    ensures forall id :: id in m ==> id in chunk[..n]
    ensures forall j :: 0 <= j < |chunk| ==>
              (chunk[j] in m <==> j < n && NameAt(reply, j).Some?)
    ensures forall j :: 0 <= j < n && chunk[j] in m ==> NameAt(reply, j) == Some(m[chunk[j]])
    decreases n
  {
    if n == 0 then map[]
    else
      var prev := ChunkNames(chunk, reply, n - 1);
      var m := if NameAt(reply, n - 1).Some? then prev[chunk[n - 1] := NameAt(reply, n - 1).value] else prev;
      ChunkNamesStep(chunk, reply, n, prev, m);
      m
  }

  lemma ChunkNamesStep(chunk: seq<nat>, reply: NamesReply, n: nat, prev: map<nat, string>, m: map<nat, string>)
    requires 0 < n <= |chunk| && Distinct(chunk)
    requires forall id :: id in prev ==> id in chunk[..n - 1]
    requires forall j :: 0 <= j < |chunk| ==> (chunk[j] in prev <==> j < n - 1 && NameAt(reply, j).Some?)
    requires forall j :: 0 <= j < n - 1 && chunk[j] in prev ==> NameAt(reply, j) == Some(prev[chunk[j]])
    requires m == if NameAt(reply, n - 1).Some? then prev[chunk[n - 1] := NameAt(reply, n - 1).value] else prev
    ensures forall id :: id in m ==> id in chunk[..n]
    ensures forall j :: 0 <= j < |chunk| ==> (chunk[j] in m <==> j < n && NameAt(reply, j).Some?)
    ensures forall j :: 0 <= j < n && chunk[j] in m ==> NameAt(reply, j) == Some(m[chunk[j]])
  {
    ChunkNamesStepKeys(chunk, n, prev, m);
    forall j | 0 <= j < |chunk|
      ensures chunk[j] in m <==> j < n && NameAt(reply, j).Some?
      ensures j < n && chunk[j] in m ==> NameAt(reply, j) == Some(m[chunk[j]])
    {
      if j != n - 1 {
        assert chunk[j] != chunk[n - 1];
      }
    }
  }

  lemma ChunkNamesStepKeys(chunk: seq<nat>, n: nat, prev: map<nat, string>, m: map<nat, string>)
    requires 0 < n <= |chunk|
    requires forall id :: id in prev ==> id in chunk[..n - 1]
    requires m.Keys <= prev.Keys + {chunk[n - 1]}
    ensures forall id :: id in m ==> id in chunk[..n]
  {
    forall id | id in m
      ensures id in chunk[..n]
    {
      if id in prev {
        var k :| 0 <= k < n - 1 && chunk[..n - 1][k] == id;
        assert chunk[..n][k] == id;
      } else {
        assert chunk[..n][n - 1] == id;
      }
    }
  }

  /** The username map and the first error the username phase flagged. */
  datatype NamesResult = NamesResult(names: map<nat, string>, error: Option<string>)

  const UnexpectedFormatText: string := "Unexpected result format during username fetch."

  function UsernameExceptionText(message: string): (r: string)
    ensures r != ""
  {
    "Exception during username fetch: " + message
  }

  /** The username phase, chunk after chunk. A chunk that throws or answers
      with a non-array flags an error and contributes no names; the loop goes
      on with the next chunk, and the first flagged error is the one kept. */
  function FetchNames(chunks: seq<seq<nat>>, namesFor: seq<nat> -> NamesReply): (r: NamesResult)
    requires Distinct(Flatten(chunks))
    ensures forall id :: id in r.names ==> id in Flatten(chunks)
    ensures forall i, j :: 0 <= i < |chunks| && 0 <= j < |chunks[i]| ==>
              (chunks[i][j] in r.names <==> NameAt(namesFor(chunks[i]), j).Some?)
    ensures forall i, j :: 0 <= i < |chunks| && 0 <= j < |chunks[i]| && chunks[i][j] in r.names ==>
              NameAt(namesFor(chunks[i]), j) == Some(r.names[chunks[i][j]])
    ensures r.error.None? <==> forall i :: 0 <= i < |chunks| ==> namesFor(chunks[i]).NamesArray?
    ensures r.error.Some? ==> r.error.value != ""
    decreases |chunks|
  {
    if |chunks| == 0 then NamesResult(map[], None)
    else
      var c := chunks[0];
      DistinctSplit(c, Flatten(chunks[1..]));
      var rest := FetchNames(chunks[1..], namesFor);
      var reply := namesFor(c);
      var here := if reply.NamesArray? then ChunkNames(c, reply, |c|) else map[];
      var error := match reply
        case NamesThrown(msg) => Some(UsernameExceptionText(msg))
        case NamesNotArray => Some(UnexpectedFormatText)
        case NamesArray(_) => None;
      FetchNamesStep(chunks, namesFor, here, rest);
      NamesResult(here + rest.names, First(error, rest.error))
  }

  lemma DistinctSplit(a: seq<nat>, b: seq<nat>)
    requires Distinct(a + b)
    ensures Distinct(a) && Distinct(b)
    ensures forall x :: x in a ==> x !in b
  {
    forall i, j | 0 <= i < j < |a|
      ensures a[i] != a[j]
    {
      assert a[i] == (a + b)[i] && a[j] == (a + b)[j];
    }
    forall i, j | 0 <= i < j < |b|
      ensures b[i] != b[j]
    {
      assert b[i] == (a + b)[|a| + i] && b[j] == (a + b)[|a| + j];
    }
    forall i, j | 0 <= i < |a| && 0 <= j < |b|
      ensures a[i] != b[j]
    {
      assert a[i] == (a + b)[i] && b[j] == (a + b)[|a| + j];
    }
  }

  lemma FetchNamesStep(chunks: seq<seq<nat>>, namesFor: seq<nat> -> NamesReply,
                       here: map<nat, string>, rest: NamesResult)
    requires |chunks| > 0
    requires Distinct(chunks[0]) && forall x :: x in chunks[0] ==> x !in Flatten(chunks[1..])
    requires forall id :: id in here ==> id in chunks[0]
    requires forall j :: 0 <= j < |chunks[0]| ==> (chunks[0][j] in here <==> NameAt(namesFor(chunks[0]), j).Some?)
    requires forall j :: 0 <= j < |chunks[0]| && chunks[0][j] in here ==>
               NameAt(namesFor(chunks[0]), j) == Some(here[chunks[0][j]])
    requires forall id :: id in rest.names ==> id in Flatten(chunks[1..])
    requires forall i, j :: 0 <= i < |chunks[1..]| && 0 <= j < |chunks[1..][i]| ==>
               (chunks[1..][i][j] in rest.names <==> NameAt(namesFor(chunks[1..][i]), j).Some?)
    requires forall i, j :: 0 <= i < |chunks[1..]| && 0 <= j < |chunks[1..][i]| && chunks[1..][i][j] in rest.names ==>
               NameAt(namesFor(chunks[1..][i]), j) == Some(rest.names[chunks[1..][i][j]])
    ensures forall id :: id in here + rest.names ==> id in Flatten(chunks)
    ensures forall i, j :: 0 <= i < |chunks| && 0 <= j < |chunks[i]| ==>
              (chunks[i][j] in here + rest.names <==> NameAt(namesFor(chunks[i]), j).Some?)
    ensures forall i, j :: 0 <= i < |chunks| && 0 <= j < |chunks[i]| && chunks[i][j] in here + rest.names ==>
              NameAt(namesFor(chunks[i]), j) == Some((here + rest.names)[chunks[i][j]])
  {
    var m := here + rest.names;
    assert Flatten(chunks) == chunks[0] + Flatten(chunks[1..]);
    forall i, j | 0 <= i < |chunks| && 0 <= j < |chunks[i]|
      ensures chunks[i][j] in m <==> NameAt(namesFor(chunks[i]), j).Some?
      ensures chunks[i][j] in m ==> NameAt(namesFor(chunks[i]), j) == Some(m[chunks[i][j]])
    {
      if i == 0 {
        HeadNames(chunks[0], Flatten(chunks[1..]), here, rest.names, j);
      } else {
        TailChunkNames(chunks, namesFor, here, rest, i, j);
      }
    }
  }

  lemma TailChunkNames(chunks: seq<seq<nat>>, namesFor: seq<nat> -> NamesReply,
                       here: map<nat, string>, rest: NamesResult, i: nat, j: nat)
    requires 0 < i < |chunks| && j < |chunks[i]|
    requires forall x :: x in chunks[0] ==> x !in Flatten(chunks[1..])
    requires forall id :: id in here ==> id in chunks[0]
    requires chunks[i][j] in rest.names <==> NameAt(namesFor(chunks[i]), j).Some?
    requires chunks[i][j] in rest.names ==> NameAt(namesFor(chunks[i]), j) == Some(rest.names[chunks[i][j]])
    ensures chunks[i][j] in here + rest.names <==> NameAt(namesFor(chunks[i]), j).Some?
    ensures chunks[i][j] in here + rest.names ==> NameAt(namesFor(chunks[i]), j) == Some((here + rest.names)[chunks[i][j]])
  {
    assert chunks[i] == chunks[1..][i - 1];
    InFlatten(chunks[1..], i - 1, j);
    TailNames(chunks[0], here, rest.names, chunks[i][j]);
  }

  lemma HeadNames(c: seq<nat>, tail: seq<nat>, here: map<nat, string>, restNames: map<nat, string>, j: nat)
    requires j < |c|
    requires c[j] !in tail
    requires forall id :: id in restNames ==> id in tail
    ensures c[j] in here + restNames <==> c[j] in here
    ensures c[j] in here ==> (here + restNames)[c[j]] == here[c[j]]
  {
  }

  lemma TailNames(c: seq<nat>, here: map<nat, string>, restNames: map<nat, string>, id: nat)
    requires forall x :: x in here ==> x in c
    requires id !in c
    ensures id in here + restNames <==> id in restNames
    ensures id in restNames ==> (here + restNames)[id] == restNames[id]
  {
  }

  lemma {:induction false} InFlatten(xss: seq<seq<nat>>, i: nat, j: nat)
    requires i < |xss| && j < |xss[i]|
    ensures xss[i][j] in Flatten(xss)
    decreases i
  {
    assert Flatten(xss) == xss[0] + Flatten(xss[1..]);
    if i > 0 {
      assert xss[i] == xss[1..][i - 1];
      InFlatten(xss[1..], i - 1, j);
    }
  }

  // ---------------------------------------------------------------------------
  // Profile enrichment and row building
  // ---------------------------------------------------------------------------

  /** What the profile API call for one username yields: the request fails
      (network error, timeout, non-200 status), or `settings.profile` gives an
      avatar `cid`, an avatar `arweaveTxId` and a `title`. A missing or falsy
      avatar field is `None`. */
  datatype ProfileReply = ProfileFailed | Profile(cid: Option<string>, arweaveTxId: Option<string>, title: JsResult)

  /** A truthy avatar field. */
  predicate Present(o: Option<string>)
  {
    o.Some? && o.value != ""
  }

  /** `title.replace(/<[^>]*>?/gm, '').trim() || user`. */
  function CleanTitle(title: string, user: string): (r: string)
    ensures r == user || (r != "" && '<' !in r && !IsWhitespace(r[0]) && !IsWhitespace(r[|r| - 1]))
    ensures '<' !in title && Trim(title) == title && title != "" ==> r == title
  {
    var stripped := StripTags(title);
    var cleaned := Trim(stripped);
    TrimKeepsChars(stripped);
    if cleaned == "" then user else cleaned
  }

  /** The displayed name is the title with its tags stripped and its
      whitespace trimmed when a visible character remains, and the on-chain
      name when none does. */
  lemma CleanTitleFallsBack(title: string, user: string)
    ensures !Blank(StripTags(title)) ==> CleanTitle(title, user) == Trim(StripTags(title))
    ensures Blank(StripTags(title)) ==> CleanTitle(title, user) == user
  {
    TrimEmptyIffBlank(StripTags(title));
  }

  /** The row saved for one published, named ID. The profile link is derived
      from the on-chain name alone; the image fields come from the profile
      API; the displayed name is the cleaned profile title, or the on-chain
      name when there is no usable title. A title that is truthy but not a
      string makes `title.replace` throw inside the `try`: the avatar fields
      read before it are kept and the name falls back to the on-chain one. */
  function BuildRow(id: nat, user: string, reply: ProfileReply): (p: Portrait)
    ensures p.id == id
    ensures p.profileUrl == PublicPage + EncodeUriComponent(user)
    ensures reply.ProfileFailed? ==> p.imageUrl.None? && p.arweaveUrl.None? && p.username == user
    ensures reply.Profile? ==> (p.imageUrl.Some? <==> Present(reply.cid))
    ensures reply.Profile? && Present(reply.cid) ==> p.imageUrl == Some(IpfsGateway + reply.cid.value)
    ensures reply.Profile? ==> (p.arweaveUrl.Some? <==> Present(reply.arweaveTxId))
    ensures reply.Profile? && Present(reply.arweaveTxId) ==>
              p.arweaveUrl == Some(ArweaveGateway + reply.arweaveTxId.value)
    ensures user != "" ==> p.username != ""
  {
    var profileUrl := PublicPage + EncodeUriComponent(user);
    match reply
    case ProfileFailed => Portrait(id, user, None, profileUrl, None)
    case Profile(cid, arweaveTxId, title) =>
      var imageUrl := if Present(cid) then Some(IpfsGateway + cid.value) else None;
      var arweaveUrl := if Present(arweaveTxId) then Some(ArweaveGateway + arweaveTxId.value) else None;
      var shown := if Truthy(title) then title else JsStr(user);
      var username := if shown.JsStr? then CleanTitle(shown.s, user) else user;
      Portrait(id, username, imageUrl, profileUrl, arweaveUrl)
  }

  /** The displayed name of a row: a non-empty string title is cleaned, a
      missing or falsy title is replaced by the on-chain name before the
      cleaning, and a truthy title that is not a string throws in `replace`,
      leaving the on-chain name. */
  lemma BuildRowUsername(id: nat, user: string, reply: ProfileReply)
    ensures reply.Profile? && reply.title.JsStr? && reply.title.s != "" ==>
              BuildRow(id, user, reply).username == CleanTitle(reply.title.s, user)
    ensures reply.Profile? && !Truthy(reply.title) ==> BuildRow(id, user, reply).username == CleanTitle(user, user)
    ensures reply.Profile? && reply.title.JsOther? ==> BuildRow(id, user, reply).username == user
  {
  }

  /** The row built for one entry of the username map. */
  function RowFor(names: map<nat, string>, profileOf: string -> ProfileReply, id: nat): Portrait
    requires id in names
  {
    BuildRow(id, names[id], profileOf(names[id]))
  }

  /** One row per entry of the username map, built in ascending ID order (the
      order in which `for (const idStr in usernamesMap)` visits integer keys). */
  function BuildRows(names: map<nat, string>, profileOf: string -> ProfileReply): (rows: seq<Portrait>)
    ensures |rows| == |names|
    ensures forall i :: 0 <= i < |rows| ==> rows[i].id in names && rows[i] == RowFor(names, profileOf, rows[i].id)
    ensures forall id :: id in names ==> exists i :: 0 <= i < |rows| && rows[i].id == id
    ensures forall i, j :: 0 <= i < j < |rows| ==> rows[i].id < rows[j].id
  {
    var ids := SortedIds(names.Keys);
    var rows := RowsOf(names, profileOf, ids);
    RowsFollowIds(names, profileOf, ids, rows);
    rows
  }

  /** The rows for `ids`, in the order of `ids`. */
  function RowsOf(names: map<nat, string>, profileOf: string -> ProfileReply, ids: seq<nat>): (rows: seq<Portrait>)
    requires forall x :: x in ids ==> x in names
    ensures |rows| == |ids|
    ensures forall i :: 0 <= i < |ids| ==> rows[i] == RowFor(names, profileOf, ids[i])
  {
    if |ids| == 0 then [] else [RowFor(names, profileOf, ids[0])] + RowsOf(names, profileOf, ids[1..])
  }

  lemma RowsFollowIds(names: map<nat, string>, profileOf: string -> ProfileReply, ids: seq<nat>, rows: seq<Portrait>)
    requires forall x :: x in ids <==> x in names
    requires StrictlyIncreasing(ids) && |ids| == |names.Keys|
    requires |rows| == |ids|
    requires forall i :: 0 <= i < |ids| ==> rows[i] == RowFor(names, profileOf, ids[i])
    ensures |rows| == |names|
    ensures forall i :: 0 <= i < |rows| ==> rows[i].id in names && rows[i] == RowFor(names, profileOf, rows[i].id)
    ensures forall id :: id in names ==> exists i :: 0 <= i < |rows| && rows[i].id == id
    ensures forall i, j :: 0 <= i < j < |rows| ==> rows[i].id < rows[j].id
  {
    assert |names.Keys| == |names|;
    forall i | 0 <= i < |rows|
      ensures rows[i].id == ids[i]
    {
    }
    forall id | id in names
      ensures exists i :: 0 <= i < |rows| && rows[i].id == id
    {
      var i :| 0 <= i < |ids| && ids[i] == id;
      assert rows[i].id == id;
    }
  }

  // ---------------------------------------------------------------------------
  // Transactional save
  // ---------------------------------------------------------------------------

  /** What the database does with the batch: `BEGIN` may fail, the insert of
      a row may fail (by ID), and `COMMIT` may fail. */
  datatype TxFaults = TxFaults(beginError: Option<string>, failingIds: set<nat>, commitError: Option<string>)

  datatype SaveResult = SaveResult(table: Table, saved: seq<Portrait>, error: Option<string>)

  /** Whether the insert of a row fails. */
  function InsertFails(tx: TxFaults): Portrait -> bool
  {
    (p: Portrait) => p.id in tx.failingIds
  }

  function FailedInserts(rows: seq<Portrait>, tx: TxFaults): seq<Portrait>
  {
    Filter(rows, InsertFails(tx))
  }

  function TransactionFailedText(message: string): (r: string)
    ensures r != ""
  {
    "Transaction failed: " + message
  }

  function RolledBackText(errors: nat): (r: string)
    ensures r != ""
  {
    NatToString(errors) + " errors during DB save. Rolled back."
  }

  /** The all-or-nothing save: no transaction at all for an empty batch;
      otherwise every row is written and committed, or, on any failure, none
      is and the error is flagged. */
  function Save(t: Table, rows: seq<Portrait>, tx: TxFaults): (r: SaveResult)
    ensures r.error.None? ==> r.table == ApplyRows(t, rows) && r.saved == rows
    ensures r.error.Some? ==> r.table == t && r.saved == []
    ensures r.error.None? <==>
              |rows| == 0 || (tx.beginError.None? && |FailedInserts(rows, tx)| == 0 && tx.commitError.None?)
    ensures |rows| == 0 ==> r.table == t
    ensures r.error.Some? ==> r.error.value != ""
  {
    if |rows| == 0 then SaveResult(t, [], None)
    else if tx.beginError.Some? then SaveResult(t, [], Some(TransactionFailedText(tx.beginError.value)))
    else if |FailedInserts(rows, tx)| > 0 then SaveResult(t, [], Some(RolledBackText(|FailedInserts(rows, tx)|)))
    else if tx.commitError.Some? then
      SaveResult(t, [], Some(TransactionFailedText("Transaction commit failed: " + tx.commitError.value)))
    else SaveResult(ApplyRows(t, rows), rows, None)
  }
}
