/** The two SQLite tables the sync job writes: `portraits`, keyed by ID with a
    UNIQUE username column and written with `INSERT OR REPLACE`, and the single
    `job_status` row holding the run status and the checkpoint (highest ID
    processed, JSON list of unpublished IDs), written with a COALESCE merge. */
module Store {
  import opened Common
  import opened Text
  import opened Seqs

  // ---------------------------------------------------------------------------
  // portraits
  // ---------------------------------------------------------------------------

  /** One `portraits` row; timestamps are left out. */
  datatype Portrait = Portrait(
    id: nat,
    username: string,
    imageUrl: Option<string>,
    profileUrl: string,
    arweaveUrl: Option<string>)

  type Table = map<nat, Portrait>

  /** Every row is stored under its own ID (the primary key). */
  predicate WellKeyed(t: Table)
  {
    forall id :: id in t ==> t[id].id == id
  }

  /** The UNIQUE constraint on `username`. */
  predicate UniqueUsernames(t: Table)
  {
    forall a, b :: a in t && b in t && a != b ==> t[a].username != t[b].username
  }

  /** `INSERT OR REPLACE` of one row: SQLite deletes every existing row that
      conflicts with it, on the primary key or on the UNIQUE username, and then
      inserts it. */
  function Upsert(t: Table, p: Portrait): (r: Table)
    ensures p.id in r && r[p.id] == p
    ensures forall id :: id in r && id != p.id ==>
              id in t && r[id] == t[id] && t[id].username != p.username
    ensures forall id :: id in t && id != p.id && t[id].username != p.username ==> id in r
    ensures UniqueUsernames(t) ==> UniqueUsernames(r)
    ensures WellKeyed(t) ==> WellKeyed(r)
  {
    (map id | id in t && id != p.id && t[id].username != p.username :: t[id])[p.id := p]
  }

  /** The rows written one after another, in order, inside one transaction. */
  function ApplyRows(t: Table, rows: seq<Portrait>): (r: Table)
    ensures forall id :: id in r ==> (id in t && r[id] == t[id]) || r[id] in rows
    ensures forall id :: id in t && NoConflict(rows, id, t[id].username) ==>
              id in r && r[id] == t[id]
    ensures UniqueUsernames(t) ==> UniqueUsernames(r)
    ensures WellKeyed(t) ==> WellKeyed(r)
    decreases |rows|
  {
    if |rows| == 0 then t
    else
      var t' := Upsert(t, rows[0]);
      var r := ApplyRows(t', rows[1..]);
      ApplyRowsStep(t, rows, t', r);
      r
  }

  /** The first write of a batch, followed by the rest, keeps the batch-level
      guarantees of `ApplyRows`. */
  lemma ApplyRowsStep(t: Table, rows: seq<Portrait>, t': Table, r: Table)
    requires |rows| > 0 && t' == Upsert(t, rows[0])
    requires forall id :: id in r ==> (id in t' && r[id] == t'[id]) || r[id] in rows[1..]
    requires forall id :: id in t' && NoConflict(rows[1..], id, t'[id].username) ==>
               id in r && r[id] == t'[id]
    requires UniqueUsernames(t') ==> UniqueUsernames(r)
    requires WellKeyed(t') ==> WellKeyed(r)
    ensures forall id :: id in r ==> (id in t && r[id] == t[id]) || r[id] in rows
    ensures forall id :: id in t && NoConflict(rows, id, t[id].username) ==>
              id in r && r[id] == t[id]
    ensures UniqueUsernames(t) ==> UniqueUsernames(r)
    ensures WellKeyed(t) ==> WellKeyed(r)
  {
    forall id | id in r
      ensures (id in t && r[id] == t[id]) || r[id] in rows
    {
      if r[id] in rows[1..] {
        assert r[id] in rows;
      } else if id == rows[0].id {
        assert r[id] == rows[0];
      }
    }
    forall id | id in t && NoConflict(rows, id, t[id].username)
      ensures id in r && r[id] == t[id]
    {
      assert rows[0].id != id && rows[0].username != t[id].username;
      assert id in t' && t'[id] == t[id];
      assert NoConflict(rows[1..], id, t'[id].username);
    }
  }

  /** No row of `rows` replaces the row with this ID and username. */
  predicate NoConflict(rows: seq<Portrait>, id: nat, username: string)
  {
    forall i :: 0 <= i < |rows| ==> rows[i].id != id && rows[i].username != username
  }

  /** A written row is still in the table at the end of the batch when no
      later row of the batch has its ID or its username. */
  lemma {:induction false} ApplyRowsKeeps(t: Table, rows: seq<Portrait>, i: nat)
    requires i < |rows|
    requires NoConflict(rows[i + 1..], rows[i].id, rows[i].username)
    ensures rows[i].id in ApplyRows(t, rows) && ApplyRows(t, rows)[rows[i].id] == rows[i]
    decreases |rows|
  {
    var t' := Upsert(t, rows[0]);
    if i == 0 {
      assert rows[1..] == rows[i + 1..];
    } else {
      assert rows[1..][i - 1] == rows[i];
      assert rows[1..][i - 1 + 1..] == rows[i + 1..];
      ApplyRowsKeeps(t', rows[1..], i - 1);
    }
  }

  /** A batch whose rows have pairwise different IDs and usernames is stored
      in full. */
  lemma ApplyDistinctRows(t: Table, rows: seq<Portrait>)
    requires forall i, j :: 0 <= i < j < |rows| ==>
               rows[i].id != rows[j].id && rows[i].username != rows[j].username
    ensures forall i :: 0 <= i < |rows| ==>
              rows[i].id in ApplyRows(t, rows) && ApplyRows(t, rows)[rows[i].id] == rows[i]
  {
    forall i | 0 <= i < |rows|
      ensures rows[i].id in ApplyRows(t, rows) && ApplyRows(t, rows)[rows[i].id] == rows[i]
    {
      ApplyRowsKeeps(t, rows, i);
    }
  }

  /** Two rows of one batch with the same username but different IDs: the
      later one evicts the earlier one, so only one of them is stored. */
  lemma SameUsernameEvicts(t: Table, p: Portrait, q: Portrait)
    requires p.id != q.id && p.username == q.username
    ensures q.id in ApplyRows(t, [p, q]) && ApplyRows(t, [p, q])[q.id] == q
    ensures p.id !in ApplyRows(t, [p, q])
  {
    assert [p, q][1..] == [q];
    assert [q][1..] == [];
  }

  // ---------------------------------------------------------------------------
  // job_status
  // ---------------------------------------------------------------------------

  /** `updateJobStatus` cuts the stored error text to this many characters. */
  const ErrorTextLimit: nat := 1000

  datatype RunStatus = Running | Success | Error

  /** The `unpublished_ids_json` column, described by what `JSON.parse` makes
      of it: SQL NULL, the empty string, an array of IDs, valid JSON that is
      not an array, or text that does not parse. */
  datatype IdsColumn = IdsNull | IdsEmptyText | IdsArray(ids: seq<nat>) | IdsNotArray | IdsUnparseable

  /** The `job_status` row of the fetch job; the timestamp column is left out. */
  datatype StatusRow = StatusRow(
    status: RunStatus,
    error: Option<string>,
    highest: Option<nat>,
    unpublished: IdsColumn)

  /** The stored error text: `error ? String(error).substring(0, 1000) : null`,
      so a missing or empty message is stored as NULL. */
  function StoredError(error: Option<string>): (r: Option<string>)
    ensures r.None? <==> error.None? || error.value == ""
    ensures r.Some? ==> |r.value| <= ErrorTextLimit && |r.value| <= |error.value|
    ensures r.Some? ==> r.value == error.value[..|r.value|]
    ensures r.Some? && |error.value| <= ErrorTextLimit ==> r.value == error.value
    ensures r.Some? && |error.value| >= ErrorTextLimit ==> |r.value| == ErrorTextLimit
  {
    if error.Some? && error.value != "" then Some(Truncate(error.value, ErrorTextLimit)) else None
  }

  /** `updateJobStatus(status, error, highestId, unpublishedIds)`: an
      `INSERT OR REPLACE` of the whole row in which `COALESCE(?, (SELECT ...))`
      keeps the stored checkpoint fields wherever the argument is null; with no
      row stored yet, the sub-select is NULL too. */
  function UpdateJobStatus(stored: Option<StatusRow>, status: RunStatus, error: Option<string>,
                           highest: Option<nat>, unpublished: Option<seq<nat>>): (r: StatusRow)
    ensures r.status == status && r.error == StoredError(error)
    ensures highest.Some? ==> r.highest == highest
    ensures highest.None? && stored.Some? ==> r.highest == stored.value.highest
    ensures highest.None? && stored.None? ==> r.highest.None?
    ensures unpublished.Some? ==> r.unpublished == IdsArray(unpublished.value)
    ensures unpublished.None? && stored.Some? ==> r.unpublished == stored.value.unpublished
    ensures unpublished.None? && stored.None? ==> r.unpublished == IdsNull
  {
    var oldHighest := if stored.Some? then stored.value.highest else None;
    var oldIds := if stored.Some? then stored.value.unpublished else IdsNull;
    StatusRow(
      status,
      StoredError(error),
      if highest.Some? then highest else oldHighest,
      if unpublished.Some? then IdsArray(unpublished.value) else oldIds)
  }

  /** The checkpoint a run resumes from. */
  datatype Checkpoint = Checkpoint(highest: nat, unpublished: seq<nat>)

  /** The IDs the stored column denotes once parsed: `JSON.parse(col || '[]')`,
      reset to `[]` when it throws or yields a non-array. */
  function StoredIds(col: IdsColumn): (ids: seq<nat>)
    ensures !col.IdsArray? ==> ids == []
  {
    if col.IdsArray? then col.ids else []
  }

  /** Loading the checkpoint at the start of a run: highest ID 0 and no
      unpublished IDs when no row exists, when a column is NULL or empty, or
      when the stored list is not a JSON array. */
  function LoadCheckpoint(row: Option<StatusRow>): (c: Checkpoint)
    ensures row.None? ==> c == Checkpoint(0, [])
    ensures row.Some? && row.value.highest.None? ==> c.highest == 0
    ensures row.Some? && row.value.highest.Some? ==> c.highest == row.value.highest.value
    ensures row.Some? && !row.value.unpublished.IdsArray? ==> c.unpublished == []
    ensures row.Some? && row.value.unpublished.IdsArray? ==> c.unpublished == row.value.unpublished.ids
  {
    match row
    case None => Checkpoint(0, [])
    case Some(r) =>
      Checkpoint(if r.highest.Some? then r.highest.value else 0, StoredIds(r.unpublished))
  }

  /** A status write that passes both checkpoint arguments is read back as
      exactly that checkpoint, whatever was stored before. */
  lemma WriteThenLoad(stored: Option<StatusRow>, status: RunStatus, error: Option<string>,
                      highest: nat, unpublished: seq<nat>)
    ensures LoadCheckpoint(Some(UpdateJobStatus(stored, status, error, Some(highest), Some(unpublished))))
            == Checkpoint(highest, unpublished)
  {
  }

  /** A status write that passes neither checkpoint argument (the `'running'`
      write at the start of a run) leaves the loaded checkpoint as it was,
      including when no row existed before it. */
  lemma StatusOnlyWriteKeepsCheckpoint(stored: Option<StatusRow>, status: RunStatus, error: Option<string>)
    ensures LoadCheckpoint(Some(UpdateJobStatus(stored, status, error, None, None))) == LoadCheckpoint(stored)
  {
  }
}
