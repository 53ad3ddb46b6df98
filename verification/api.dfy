/** The read API over the two tables: `GET /api/portraits`, a page of the
    portraits in ascending ID order, and the `fetchJob` part of
    `GET /api/status`, which reports the job's last recorded outcome. */
module Api {
  import opened Common
  import opened Seqs
  import opened Store

  // ---------------------------------------------------------------------------
  // GET /api/portraits
  // ---------------------------------------------------------------------------

  const DefaultPage: int := 1
  const DefaultLimit: int := 50
  const MaxLimit: int := 100

  /** `Number(req.query.x || d)`: a missing (or empty) parameter takes the
      default, a present one its integer value. */
  function ParamValue(p: Option<int>, default: int): (v: int)
    ensures p.None? ==> v == default
    ensures p.Some? ==> v == p.value
  {
    if p.Some? then p.value else default
  }

  /** The request is accepted unless `page < 1 || limit < 1 || limit > 100`. */
  predicate Accepted(page: int, limit: int)
  {
    !(page < 1 || limit < 1 || limit > MaxLimit)
  }

  /** The portrait rows in `ORDER BY id ASC` order. */
  function OrderedRows(t: Table): (rows: seq<Portrait>)
    requires WellKeyed(t)
    ensures |rows| == |t|
    ensures forall i :: 0 <= i < |rows| ==> rows[i].id in t && t[rows[i].id] == rows[i]
    ensures forall id :: id in t ==> exists i :: 0 <= i < |rows| && rows[i].id == id
    ensures forall i, j :: 0 <= i < j < |rows| ==> rows[i].id < rows[j].id
  {
    var ids := SortedIds(t.Keys);
    var rows := RowsAt(t, ids);
    RowsFollowKeys(t, ids, rows);
    rows
  }

  /** The stored rows of `ids`, in the order of `ids`. */
  function RowsAt(t: Table, ids: seq<nat>): (rows: seq<Portrait>)
    requires forall x :: x in ids ==> x in t
    ensures |rows| == |ids|
    ensures forall i :: 0 <= i < |ids| ==> rows[i] == t[ids[i]]
  {
    if |ids| == 0 then [] else [t[ids[0]]] + RowsAt(t, ids[1..])
  }

  lemma RowsFollowKeys(t: Table, ids: seq<nat>, rows: seq<Portrait>)
    requires WellKeyed(t)
    requires forall x :: x in ids <==> x in t
    requires StrictlyIncreasing(ids) && |ids| == |t.Keys|
    requires |rows| == |ids| && forall i :: 0 <= i < |ids| ==> rows[i] == t[ids[i]]
    ensures |rows| == |t|
    ensures forall i :: 0 <= i < |rows| ==> rows[i].id in t && t[rows[i].id] == rows[i]
    ensures forall id :: id in t ==> exists i :: 0 <= i < |rows| && rows[i].id == id
    ensures forall i, j :: 0 <= i < j < |rows| ==> rows[i].id < rows[j].id
  {
    assert |t.Keys| == |t|;
    forall i | 0 <= i < |rows|
      ensures rows[i].id == ids[i]
    {
    }
    forall id | id in t
      ensures exists i :: 0 <= i < |rows| && rows[i].id == id
    {
      var i :| 0 <= i < |ids| && ids[i] == id;
      assert rows[i].id == id;
    }
  }

  /** `LIMIT limit OFFSET offset` over the ordered rows. */
  function Window<T>(xs: seq<T>, offset: nat, limit: nat): (r: seq<T>)
    ensures |r| <= limit
    ensures offset >= |xs| ==> r == []
    ensures forall i :: 0 <= i < |r| ==> offset + i < |xs| && r[i] == xs[offset + i]
    ensures offset + limit <= |xs| ==> |r| == limit
    ensures offset < |xs| < offset + limit ==> |r| == |xs| - offset
  {
    if offset >= |xs| then []
    else if offset + limit <= |xs| then xs[offset..offset + limit]
    else xs[offset..]
  }

  datatype PortraitsReply =
    | BadRequest
    | ServerError
    | PortraitsPage(page: int, limit: int, total: nat, portraits: seq<Portrait>)

  /** `GET /api/portraits?page=&limit=`: 400 for parameters outside the
      accepted range, 500 when a query fails, otherwise the page. */
  function Portraits(t: Table, page: Option<int>, limit: Option<int>, dbFails: bool): (r: PortraitsReply)
    requires WellKeyed(t)
    ensures r.BadRequest? <==> !Accepted(ParamValue(page, DefaultPage), ParamValue(limit, DefaultLimit))
    ensures r.ServerError? <==> Accepted(ParamValue(page, DefaultPage), ParamValue(limit, DefaultLimit)) && dbFails
    ensures r.PortraitsPage? ==>
              && r.page == ParamValue(page, DefaultPage) && r.limit == ParamValue(limit, DefaultLimit)
              && 1 <= r.limit <= MaxLimit && r.page >= 1
              && r.total == |t|
              && |r.portraits| <= r.limit
              && r.portraits == Window(OrderedRows(t), Offset(r.page, r.limit), r.limit)
  {
    var p := ParamValue(page, DefaultPage);
    var l := ParamValue(limit, DefaultLimit);
    if !Accepted(p, l) then BadRequest
    else if dbFails then ServerError
    else PortraitsPage(p, l, |t|, Window(OrderedRows(t), Offset(p, l), l))
  }

  /** `(page - 1) * limit`, never negative for an accepted request. */
  function Offset(page: int, limit: int): (offset: nat)
    requires Accepted(page, limit)
    ensures offset == (page - 1) * limit
  {
    MulLe(0, page - 1, limit);
    (page - 1) * limit
  }

  lemma {:induction false} MulLe(a: int, b: int, c: nat)
    requires a <= b
    ensures a * c <= b * c
    decreases c
  {
    if c > 0 {
      MulLe(a, b, c - 1);
      assert a * c == a * (c - 1) + a;
      assert b * c == b * (c - 1) + b;
    }
  }

  /** Without parameters the first 50 rows are served. */
  lemma DefaultRequest(t: Table)
    requires WellKeyed(t)
    ensures Portraits(t, None, None, false) == PortraitsPage(1, 50, |t|, Window(OrderedRows(t), 0, 50))
  {
  }

  /** Every portrait is served on exactly one page: the page its position in
      ID order falls on, for any accepted page size. */
  lemma EveryRowOnOnePage(t: Table, limit: int, id: nat)
    requires WellKeyed(t) && 1 <= limit <= MaxLimit && id in t
    ensures exists page :: ServedOn(t, limit, page, id)
    ensures forall page :: ServedOn(t, limit, page, id) ==> page == RowIndex(t, id) / limit + 1
  {
    ServedAt(t, limit, id, RowIndex(t, id) / limit + 1);
    forall page | ServedOn(t, limit, page, id)
      ensures page == RowIndex(t, id) / limit + 1
    {
      ServedOnlyThere(t, limit, id, page);
    }
  }

  lemma {:induction false} ServedAt(t: Table, limit: int, id: nat, page: int)
    requires WellKeyed(t) && 1 <= limit <= MaxLimit && id in t
    requires page == RowIndex(t, id) / limit + 1
    ensures ServedOn(t, limit, page, id)
  {
    var k := RowIndex(t, id);
    OffsetOfPage(k, limit, page);
    var rows := OrderedRows(t);
    var offset := Offset(page, limit);
    assert Portraits(t, Some(page), Some(limit), false).portraits == Window(rows, offset, limit);
    assert rows[k].id == id && t[rows[k].id] == rows[k];
    InWindow(rows, offset, limit, k);
  }

  /** An element whose position falls in the window is in it. */
  lemma InWindow<T>(xs: seq<T>, offset: nat, limit: nat, k: nat)
    requires offset <= k < |xs| && k < offset + limit
    ensures xs[k] in Window(xs, offset, limit)
  {
    assert Window(xs, offset, limit)[k - offset] == xs[k];
  }

  lemma OffsetOfPage(k: nat, limit: int, page: int)
    requires 1 <= limit <= MaxLimit && page == k / limit + 1
    ensures Accepted(page, limit)
    ensures Offset(page, limit) <= k < Offset(page, limit) + limit
  {
    DivBounds(k, limit);
    assert page - 1 == k / limit;
  }

  lemma DivBounds(k: nat, limit: int)
    requires limit >= 1
    ensures (k / limit) * limit <= k < (k / limit) * limit + limit
  {
    assert k == (k / limit) * limit + k % limit;
  }

  /** The portrait is in the reply to `?page=page&limit=limit`. */
  predicate ServedOn(t: Table, limit: int, page: int, id: nat)
    requires WellKeyed(t) && id in t
  {
    && page >= 1
    && Portraits(t, Some(page), Some(limit), false).PortraitsPage?
    && t[id] in Portraits(t, Some(page), Some(limit), false).portraits
  }

  lemma ServedOnlyThere(t: Table, limit: int, id: nat, page: int)
    requires WellKeyed(t) && 1 <= limit <= MaxLimit && id in t
    requires ServedOn(t, limit, page, id)
    ensures page == RowIndex(t, id) / limit + 1
  {
    RowOnlyOnPage(t, limit, id, page);
    PageOfIndex(RowIndex(t, id), limit, page);
  }

  /** A page that serves the portrait has its position in its window. */
  lemma {:induction false} RowOnlyOnPage(t: Table, limit: int, id: nat, page: int)
    requires WellKeyed(t) && 1 <= limit <= MaxLimit && id in t && page >= 1
    requires t[id] in Portraits(t, Some(page), Some(limit), false).portraits
    ensures Offset(page, limit) <= RowIndex(t, id) < Offset(page, limit) + limit
  {
    var rows := OrderedRows(t);
    var offset := Offset(page, limit);
    var j := WindowPosition(rows, offset, limit, t[id]);
    RowIndexUnique(t, id, j);
  }

  /** Where a member of a window sits in the whole sequence. */
  lemma WindowPosition<T>(xs: seq<T>, offset: nat, limit: nat, x: T) returns (j: nat)
    requires x in Window(xs, offset, limit)
    ensures offset <= j < offset + limit && j < |xs| && xs[j] == x
  {
    var w := Window(xs, offset, limit);
    var i :| 0 <= i < |w| && w[i] == x;
    j := offset + i;
  }

  /** The position of a portrait in ID order. */
  function RowIndex(t: Table, id: nat): (k: nat)
    requires WellKeyed(t) && id in t
    ensures k < |OrderedRows(t)| && OrderedRows(t)[k].id == id
  {
    var rows := OrderedRows(t);
    var k :| 0 <= k < |rows| && rows[k].id == id;
    assert forall j :: 0 <= j < |rows| && rows[j].id == id ==> j == k;
    k
  }

  lemma RowIndexUnique(t: Table, id: nat, j: nat)
    requires WellKeyed(t) && id in t
    requires j < |OrderedRows(t)| && OrderedRows(t)[j] == t[id]
    ensures j == RowIndex(t, id)
  {
    var rows := OrderedRows(t);
    var k := RowIndex(t, id);
    assert rows[j].id == id;
  }

  /** A position `k` lies in the window of exactly one page: the one
      numbered `k / limit + 1`. */
  lemma PageOfIndex(k: nat, limit: int, page: int)
    requires limit >= 1 && page >= 1
    ensures (page - 1) * limit <= k < (page - 1) * limit + limit <==> page == k / limit + 1
  {
    var q := page - 1;
    var d := k / limit;
    assert k == d * limit + k % limit;
    if d < q {
      MulLe(d + 1, q, limit);
    } else if d > q {
      MulLe(q + 1, d, limit);
    }
  }

  // ---------------------------------------------------------------------------
  // GET /api/status, fetchJob part
  // ---------------------------------------------------------------------------

  /** Where the job information came from (`metaFileReadStatus`). */
  datatype ReadStatus = FromDb | NotFoundInDb | ErrorReadingDb(message: string)

  datatype JobView = JobView(
    readStatus: ReadStatus,
    lastRunStatus: Option<RunStatus>,
    lastRunError: Option<string>,
    highestIdProcessed: Option<nat>,
    unpublishedIdsCount: Option<nat>)

  /** `JSON.parse(col || '[]')`, then the length when it is an array, `null`
      otherwise or when it does not parse. */
  function UnpublishedCount(col: IdsColumn): (n: Option<nat>)
    ensures n.Some? <==> col.IdsArray? || col.IdsNull? || col.IdsEmptyText?
    ensures col.IdsArray? ==> n == Some(|col.ids|)
    ensures col.IdsNull? || col.IdsEmptyText? ==> n == Some(0)
  {
    match col
    case IdsArray(ids) => Some(|ids|)
    case IdsNull => Some(0)
    case IdsEmptyText => Some(0)
    case _ => None
  }

  /** The `fetchJob` object for the stored row, for a missing row (the
      defaults: status unknown, everything null), or for a failed read. */
  function JobStatusView(row: Result<Option<StatusRow>>): (v: JobView)
    ensures row.Err? ==> v == JobView(ErrorReadingDb(row.message), None, None, None, None)
    ensures row == Ok(None) ==> v == JobView(NotFoundInDb, None, None, None, None)
    ensures row.Ok? && row.value.Some? ==>
              && v.readStatus == FromDb
              && v.lastRunStatus == Some(row.value.value.status)
              && v.lastRunError == row.value.value.error
              && v.highestIdProcessed == row.value.value.highest
              && v.unpublishedIdsCount == UnpublishedCount(row.value.value.unpublished)
  {
    match row
    case Err(m) => JobView(ErrorReadingDb(m), None, None, None, None)
    case Ok(None) => JobView(NotFoundInDb, None, None, None, None)
    case Ok(Some(r)) => JobView(FromDb, Some(r.status), r.error, r.highest, UnpublishedCount(r.unpublished))
  }

  /** The status endpoint and the job read the same column: whenever the
      endpoint reports a count, it is the number of IDs the next run carries
      forward; it reports `null` exactly when the column holds JSON the job
      discards. */
  lemma {:induction false} CountMatchesCheckpoint(row: StatusRow)
    ensures JobStatusView(Ok(Some(row))).unpublishedIdsCount.Some? ==>
              JobStatusView(Ok(Some(row))).unpublishedIdsCount.value == |LoadCheckpoint(Some(row)).unpublished|
    ensures JobStatusView(Ok(Some(row))).unpublishedIdsCount.None? <==>
              row.unpublished.IdsNotArray? || row.unpublished.IdsUnparseable?
    ensures JobStatusView(Ok(Some(row))).unpublishedIdsCount.None? ==> LoadCheckpoint(Some(row)).unpublished == []
  {
    var v := JobStatusView(Ok(Some(row)));
    assert v.unpublishedIdsCount == UnpublishedCount(row.unpublished);
  }

  /** The `database` object: whether the file exists, and the row count when
      the count query succeeds. */
  datatype DbStats = DbStats(accessible: bool, fileSize: Option<nat>, portraitCount: Option<nat>)

  function DatabaseView(t: Table, fileSize: Option<nat>, countFails: bool): (s: DbStats)
    ensures s.accessible <==> fileSize.Some?
    ensures s.fileSize == fileSize
    ensures s.portraitCount.Some? <==> fileSize.Some? && !countFails
    ensures s.portraitCount.Some? ==> s.portraitCount.value == |t|
  {
    if fileSize.None? then DbStats(false, None, None)
    else DbStats(true, fileSize, if countFails then None else Some(|t|))
  }
}
