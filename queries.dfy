/**
 * The read side of the audit trail (backend/app.py): the global listing with
 * its optional filters and limit, the PnL- and Sub-PnL-scoped listings and
 * the single-item lookup. Each is a query over the `metrics_history` table,
 * so each is a function of the table's rows.
 */
module Queries {
  import opened Wrappers
  import opened History
  import Backend

  type Rows = seq<HistoryEntry>

  // ---------------------------------------------------------------- filtering

  /** The rows that satisfy `keep`, in table order (a `WHERE` clause). */
  function Where(rows: Rows, keep: HistoryEntry -> bool): Rows {
    if rows == [] then []
    else if keep(rows[0]) then [rows[0]] + Where(rows[1..], keep)
    else Where(rows[1..], keep)
  }

  /** A `WHERE` clause keeps every row it accepts, as often as it occurs, and drops the rest. */
  lemma {:induction false} WhereSpec(rows: Rows, keep: HistoryEntry -> bool, x: HistoryEntry)
    ensures multiset(Where(rows, keep))[x] == if keep(x) then multiset(rows)[x] else 0
    ensures x in Where(rows, keep) <==> x in rows && keep(x)
  {
    if rows != [] {
      WhereSpec(rows[1..], keep, x);
      assert rows == [rows[0]] + rows[1..];
    }
  }

  // ------------------------------------------------------------------ ordering

  /** `ORDER BY created_at DESC`: no row is older than a row after it. */
  ghost predicate NewestFirst(rows: Rows) {
    forall i, j :: 0 <= i < j < |rows| ==> rows[i].createdAt >= rows[j].createdAt
  }

  /** `x` placed before the first row that is not newer than it. */
  function Insert(x: HistoryEntry, rows: Rows): Rows {
    if rows == [] || rows[0].createdAt <= x.createdAt then [x] + rows
    else [rows[0]] + Insert(x, rows[1..])
  }

  /** The rows newest first; the relative order of rows with equal timestamps is not part of the contract. */
  function SortNewestFirst(rows: Rows): Rows {
    if rows == [] then [] else Insert(rows[0], SortNewestFirst(rows[1..]))
  }

  /** Insertion adds exactly the one row. */
  lemma {:induction false} InsertMultiset(x: HistoryEntry, rows: Rows)
    ensures multiset(Insert(x, rows)) == multiset(rows) + multiset{x}
  {
    if rows != [] && rows[0].createdAt > x.createdAt {
      InsertMultiset(x, rows[1..]);
      assert rows == [rows[0]] + rows[1..];
    }
  }

  /** Insertion keeps the rows newest first. */
  lemma {:induction false} InsertSorted(x: HistoryEntry, rows: Rows)
    requires NewestFirst(rows)
    ensures NewestFirst(Insert(x, rows))
  {
    if rows != [] && rows[0].createdAt > x.createdAt {
      var tail := Insert(x, rows[1..]);
      InsertSorted(x, rows[1..]);
      InsertBound(x, rows[1..], rows[0].createdAt);
      var r := [rows[0]] + tail;
      forall i, j | 0 <= i < j < |r| ensures r[i].createdAt >= r[j].createdAt {
        assert r[j] == tail[j - 1];
        if i > 0 {
          assert r[i] == tail[i - 1];
        }
      }
    }
  }

  /** Inserting a row no newer than `t` into rows no newer than `t` keeps them all no newer than `t`. */
  lemma {:induction false} InsertBound(x: HistoryEntry, rows: Rows, t: nat)
    requires x.createdAt <= t
    requires forall i :: 0 <= i < |rows| ==> rows[i].createdAt <= t
    ensures forall i :: 0 <= i < |Insert(x, rows)| ==> Insert(x, rows)[i].createdAt <= t
  {
    if rows != [] && rows[0].createdAt > x.createdAt {
      InsertBound(x, rows[1..], t);
      var r := Insert(x, rows);
      forall i | 0 <= i < |r| ensures r[i].createdAt <= t {
        if i > 0 {
          assert r[i] == Insert(x, rows[1..])[i - 1];
        }
      }
    }
  }

  /** Sorting orders the rows newest first and neither adds nor drops a row. */
  lemma {:induction false} SortSpec(rows: Rows)
    ensures NewestFirst(SortNewestFirst(rows))
    ensures multiset(SortNewestFirst(rows)) == multiset(rows)
    ensures |SortNewestFirst(rows)| == |rows|
  {
    if rows != [] {
      SortSpec(rows[1..]);
      InsertSorted(rows[0], SortNewestFirst(rows[1..]));
      InsertMultiset(rows[0], SortNewestFirst(rows[1..]));
      assert rows == [rows[0]] + rows[1..];
      assert |SortNewestFirst(rows)| == |multiset(SortNewestFirst(rows))|;
    }
  }

  /** `LIMIT n`: the first `n` rows, or all of them when there are fewer. */
  function Limit(rows: Rows, n: nat): (r: Rows)
    ensures |r| == if n < |rows| then n else |rows|
    ensures r <= rows
  {
    if n < |rows| then rows[..n] else rows
  }

  // ------------------------------------------------------------- the queries

  /** Python truthiness of the optional query parameters. */
  predicate TypeGiven(entityType: Option<string>) {
    entityType.Some? && entityType.value != ""
  }

  predicate IdGiven(entityId: Option<int>) {
    entityId.Some? && entityId.value != 0
  }

  /** The filters of `list_metrics_history`: each applies only when its parameter is truthy. */
  predicate MatchesFilters(row: HistoryEntry, entityType: Option<string>, entityId: Option<int>) {
    && (TypeGiven(entityType) ==> row.entityType == entityType.value)
    && (IdGiven(entityId) ==> row.entityId == entityId.value)
  }

  /** The `limit` query parameter and its default. */
  const DefaultLimit: nat := 50

  /** The rows `GET /metrics-history` returns, before the user relationship is loaded. */
  function ListRows(rows: Rows, entityType: Option<string>, entityId: Option<int>, limit: Option<nat>): Rows {
    var matching := Where(rows, row => MatchesFilters(row, entityType, entityId));
    Limit(SortNewestFirst(matching), limit.GetOr(DefaultLimit))
  }

  /** `list_metrics_history`: the rows with their users. */
  function ListMetricsHistory(rows: Rows, users: map<nat, string>, entityType: Option<string>,
                              entityId: Option<int>, limit: Option<nat>): (r: seq<HistoryOut>)
    ensures |r| == |ListRows(rows, entityType, entityId, limit)|
    ensures forall i :: 0 <= i < |r| ==> r[i] == Joined(ListRows(rows, entityType, entityId, limit)[i], users)
  {
    var listed := ListRows(rows, entityType, entityId, limit);
    seq(|listed|, i requires 0 <= i < |listed| => Joined(listed[i], users))
  }

  /** `get_metrics_history_item`: the row with that id, or 404. */
  function GetMetricsHistoryItem(rows: Rows, users: map<nat, string>, id: int): Result<HistoryOut, Backend.HttpError> {
    var found := Where(rows, (row: HistoryEntry) => row.id == id);
    if found == [] then Failure(Backend.HttpError(404, "Metrics history not found"))
    else Success(Joined(found[0], users))
  }

  /** The rows of one PnL's audit trail. */
  predicate InPnLScope(row: HistoryEntry, pnlId: int) {
    row.entityType == PnLEntity && row.entityId == pnlId
  }

  /** The rows of one Sub-PnL's audit trail: its metrics and its detail metrics. */
  predicate InSubPnLScope(row: HistoryEntry, subPnlId: int) {
    (row.entityType == SubPnLEntity || row.entityType == SubPnLDetailEntity) && row.entityId == subPnlId
  }

  /** `get_pnl_metrics_history`: 404 for an unknown PnL, else its rows newest first, unlimited. */
  function GetPnLMetricsHistory(pnls: set<int>, rows: Rows, users: map<nat, string>, pnlId: int)
    : Result<seq<HistoryOut>, Backend.HttpError>
  {
    if pnlId !in pnls then Failure(Backend.PnLNotFound)
    else
      var scoped := SortNewestFirst(Where(rows, row => InPnLScope(row, pnlId)));
      Success(seq(|scoped|, i requires 0 <= i < |scoped| => Joined(scoped[i], users)))
  }

  /** `get_sub_pnl_metrics_history`: 404 for an unknown Sub-PnL, else its rows newest first, unlimited. */
  function GetSubPnLMetricsHistory(subPnls: set<int>, rows: Rows, users: map<nat, string>, subPnlId: int)
    : Result<seq<HistoryOut>, Backend.HttpError>
  {
    if subPnlId !in subPnls then Failure(Backend.HttpError(404, "Sub-PnL not found"))
    else
      var scoped := SortNewestFirst(Where(rows, row => InSubPnLScope(row, subPnlId)));
      Success(seq(|scoped|, i requires 0 <= i < |scoped| => Joined(scoped[i], users)))
  }

  // --------------------------------------------------------------- properties

  /**
   * The global listing is newest first, holds `limit` rows (50 by default)
   * or every matching row when fewer match, holds only rows of the table
   * that pass the filters, and neither adds nor repeats one.
   */
  lemma ListRowsSpec(rows: Rows, entityType: Option<string>, entityId: Option<int>, limit: Option<nat>)
    ensures var r := ListRows(rows, entityType, entityId, limit);
      && NewestFirst(r)
      && |r| <= limit.GetOr(DefaultLimit)
      && (var matching := |Where(rows, row => MatchesFilters(row, entityType, entityId))|;
          |r| == (if matching < limit.GetOr(DefaultLimit) then matching else limit.GetOr(DefaultLimit)))
      && (forall x :: x in r ==> x in rows && MatchesFilters(x, entityType, entityId))
      && multiset(r) <= multiset(Where(rows, row => MatchesFilters(row, entityType, entityId)))
  {
    var keep := row => MatchesFilters(row, entityType, entityId);
    var sorted := SortNewestFirst(Where(rows, keep));
    var r := Limit(sorted, limit.GetOr(DefaultLimit));
    SortSpec(Where(rows, keep));
    PrefixNewestFirst(sorted, |r|);
    forall x | x in r ensures x in rows && MatchesFilters(x, entityType, entityId) {
      assert x in multiset(sorted);
      WhereSpec(rows, keep, x);
    }
    PrefixMultiset(sorted, |r|);
  }

  /** The limit drops only rows that are not newer than any row listed. */
  lemma ListRowsNewest(rows: Rows, entityType: Option<string>, entityId: Option<int>, limit: Option<nat>,
                       listed: HistoryEntry, dropped: HistoryEntry)
    requires listed in ListRows(rows, entityType, entityId, limit)
    requires dropped in rows && MatchesFilters(dropped, entityType, entityId)
    requires dropped !in ListRows(rows, entityType, entityId, limit)
    ensures dropped.createdAt <= listed.createdAt
  {
    var keep := row => MatchesFilters(row, entityType, entityId);
    var sorted := SortNewestFirst(Where(rows, keep));
    var n := |ListRows(rows, entityType, entityId, limit)|;
    SortSpec(Where(rows, keep));
    WhereSpec(rows, keep, dropped);
    assert dropped in multiset(sorted);
    var j :| 0 <= j < |sorted| && sorted[j] == dropped;
    var i :| 0 <= i < n && sorted[..n][i] == listed;
    assert sorted[i] == listed;
    assert j >= n;
  }

  /** With room for every matching row, the listing holds every matching row. */
  lemma ListRowsComplete(rows: Rows, entityType: Option<string>, entityId: Option<int>, limit: Option<nat>)
    requires |Where(rows, row => MatchesFilters(row, entityType, entityId))| <= limit.GetOr(DefaultLimit)
    ensures multiset(ListRows(rows, entityType, entityId, limit))
         == multiset(Where(rows, row => MatchesFilters(row, entityType, entityId)))
  {
    SortSpec(Where(rows, row => MatchesFilters(row, entityType, entityId)));
  }

  /** `entity_id=0` is falsy, so it filters nothing: the listing is the unfiltered one. */
  lemma ZeroIdIsNoFilter(rows: Rows, entityType: Option<string>, limit: Option<nat>)
    ensures ListRows(rows, entityType, Some(0), limit) == ListRows(rows, entityType, None, limit)
  {
    var a := row => MatchesFilters(row, entityType, Some(0));
    var b := row => MatchesFilters(row, entityType, None);
    WhereSameFilter(rows, a, b);
  }

  /** A single-item lookup finds a row exactly when the table holds a row with that id. */
  lemma GetItemSpec(rows: Rows, users: map<nat, string>, id: int)
    ensures GetMetricsHistoryItem(rows, users, id).Success? <==> exists x :: x in rows && x.id == id
    ensures GetMetricsHistoryItem(rows, users, id).Success? ==>
      var out := GetMetricsHistoryItem(rows, users, id).value;
      out.row in rows && out.row.id == id && out == Joined(out.row, users)
    ensures GetMetricsHistoryItem(rows, users, id).Failure? ==>
      GetMetricsHistoryItem(rows, users, id).error == Backend.HttpError(404, "Metrics history not found")
  {
    var keep := (row: HistoryEntry) => row.id == id;
    var found := Where(rows, keep);
    if found != [] {
      WhereSpec(rows, keep, found[0]);
    }
    forall x | x in rows && x.id == id ensures found != [] {
      WhereSpec(rows, keep, x);
    }
  }

  /**
   * A PnL's listing holds exactly its own "pnl" rows, newest first, each
   * joined with its user; an unknown PnL is a 404.
   */
  lemma PnLHistorySpec(pnls: set<int>, rows: Rows, users: map<nat, string>, pnlId: int, x: HistoryEntry)
    ensures GetPnLMetricsHistory(pnls, rows, users, pnlId).Failure? <==> pnlId !in pnls
    ensures pnlId !in pnls ==> GetPnLMetricsHistory(pnls, rows, users, pnlId).error == Backend.PnLNotFound
    ensures pnlId in pnls ==>
      var listed := RowsOf(GetPnLMetricsHistory(pnls, rows, users, pnlId).value);
      && NewestFirst(listed)
      && multiset(listed)[x] == if InPnLScope(x, pnlId) then multiset(rows)[x] else 0
    ensures pnlId in pnls ==>
      var items := GetPnLMetricsHistory(pnls, rows, users, pnlId).value;
      forall i :: 0 <= i < |items| ==> items[i] == Joined(RowsOf(items)[i], users)
  {
    if pnlId in pnls {
      var keep := row => InPnLScope(row, pnlId);
      SortSpec(Where(rows, keep));
      WhereSpec(rows, keep, x);
      RowsOfJoined(SortNewestFirst(Where(rows, keep)), users);
    }
  }

  /**
   * A Sub-PnL's listing holds exactly its "sub_pnl" and "sub_pnl_detail"
   * rows, newest first, each joined with its user; an unknown Sub-PnL is a 404.
   */
  lemma SubPnLHistorySpec(subPnls: set<int>, rows: Rows, users: map<nat, string>, subPnlId: int, x: HistoryEntry)
    ensures GetSubPnLMetricsHistory(subPnls, rows, users, subPnlId).Failure? <==> subPnlId !in subPnls
    ensures subPnlId !in subPnls ==>
      GetSubPnLMetricsHistory(subPnls, rows, users, subPnlId).error == Backend.HttpError(404, "Sub-PnL not found")
    ensures subPnlId in subPnls ==>
      var listed := RowsOf(GetSubPnLMetricsHistory(subPnls, rows, users, subPnlId).value);
      && NewestFirst(listed)
      && multiset(listed)[x] == if InSubPnLScope(x, subPnlId) then multiset(rows)[x] else 0
    ensures subPnlId in subPnls ==>
      var items := GetSubPnLMetricsHistory(subPnls, rows, users, subPnlId).value;
      forall i :: 0 <= i < |items| ==> items[i] == Joined(RowsOf(items)[i], users)
  {
    if subPnlId in subPnls {
      var keep := row => InSubPnLScope(row, subPnlId);
      SortSpec(Where(rows, keep));
      WhereSpec(rows, keep, x);
      RowsOfJoined(SortNewestFirst(Where(rows, keep)), users);
    }
  }

  /**
   * The PnL and Sub-PnL scopes share no row: a PnL's listing never contains
   * the rows of its Sub-PnLs, whatever the ids.
   */
  lemma ScopesDisjoint(pnls: set<int>, subPnls: set<int>, rows: Rows, users: map<nat, string>,
                       pnlId: int, subPnlId: int, x: HistoryEntry)
    requires pnlId in pnls && subPnlId in subPnls
    ensures !(x in RowsOf(GetPnLMetricsHistory(pnls, rows, users, pnlId).value)
              && x in RowsOf(GetSubPnLMetricsHistory(subPnls, rows, users, subPnlId).value))
  {
    PnLHistorySpec(pnls, rows, users, pnlId, x);
    SubPnLHistorySpec(subPnls, rows, users, subPnlId, x);
    assert PnLEntity != SubPnLEntity && PnLEntity != SubPnLDetailEntity;
  }

  /**
   * A row the PnL handler recorded is listed under its PnL, and one the
   * Sub-PnL handler recorded under its Sub-PnL.
   */
  lemma RecordedRowsListed(pnls: set<int>, subPnls: set<int>, rows: Rows, users: map<nat, string>,
                           x: HistoryEntry)
    requires x in rows
    ensures x.entityType == PnLEntity && x.entityId in pnls ==>
      x in RowsOf(GetPnLMetricsHistory(pnls, rows, users, x.entityId).value)
    ensures x.entityType == SubPnLEntity && x.entityId in subPnls ==>
      x in RowsOf(GetSubPnLMetricsHistory(subPnls, rows, users, x.entityId).value)
  {
    PnLHistorySpec(pnls, rows, users, x.entityId, x);
    SubPnLHistorySpec(subPnls, rows, users, x.entityId, x);
  }

  // ------------------------------------------------------------------ helpers

  /** The rows of a listing, without their users. */
  function RowsOf(outs: seq<HistoryOut>): (r: Rows)
    ensures |r| == |outs| && forall i :: 0 <= i < |outs| ==> r[i] == outs[i].row
  {
    seq(|outs|, i requires 0 <= i < |outs| => outs[i].row)
  }

  lemma RowsOfJoined(rows: Rows, users: map<nat, string>)
    ensures RowsOf(seq(|rows|, i requires 0 <= i < |rows| => Joined(rows[i], users))) == rows
  {
  }

  lemma PrefixNewestFirst(rows: Rows, n: nat)
    requires NewestFirst(rows) && n <= |rows|
    ensures NewestFirst(rows[..n])
  {
  }

  lemma PrefixMultiset(rows: Rows, n: nat)
    requires n <= |rows|
    ensures multiset(rows[..n]) <= multiset(rows)
  {
    assert rows == rows[..n] + rows[n..];
  }

  lemma {:induction false} WhereSameFilter(rows: Rows, a: HistoryEntry -> bool, b: HistoryEntry -> bool)
    requires forall x :: a(x) == b(x)
    ensures Where(rows, a) == Where(rows, b)
  {
    if rows != [] {
      WhereSameFilter(rows[1..], a, b);
    }
  }
}
