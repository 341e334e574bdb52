/**
 * The metrics editor and the history table of the Sub-PnL detail page
 * (frontend/src/pages/SubPnLDetails.jsx).
 */
module SubPnLDetails {
  import opened Wrappers
  import opened Snapshots
  import opened Strings
  import opened History
  import Json
  import Queries
  import HistoryPage
  import Backend

  // ------------------------------------------------------------ history rows

  /** `parseMetricsData`: the decoded object, or an empty one when the text does not decode. */
  function ParseMetricsData(json: string): (s: Snapshot)
    ensures Json.Parse(json).None? ==> s == []
    ensures Json.Parse(json).Some? ==> s == Json.Parse(json).value
  {
    Json.Parse(json).GetOr([])
  }

  /**
   * A snapshot the server wrote is read back as written; any text that does
   * not decode, such as `{not valid json`, reads as empty.
   */
  lemma ParseMetricsDataRecorded(s: Snapshot, t: string)
    requires Json.Encodable(s) && UniqueKeys(s)
    ensures ParseMetricsData(Json.Dumps(s)) == s
    ensures Json.Parse(t).None? ==> ParseMetricsData(t) == []
    ensures ParseMetricsData("{not valid json") == []
  {
    Json.DumpsRoundTrip(s);
    Json.ParseRejectsMalformed();
  }

  /** The unit drawn after a value, chosen from the key name. */
  function UnitSuffix(key: string): string {
    if Contains(key, "percent") then "%"
    else if Contains(key, "hours") then "h"
    else ""
  }

  /** "%" exactly when the key mentions "percent", which wins over "hours"; "h" for "hours" alone. */
  lemma UnitSuffixSpec(key: string)
    ensures UnitSuffix(key) == "%" <==> exists i: nat :: OccursAt(key, "percent", i)
    ensures UnitSuffix(key) == "h" <==>
      (!exists i: nat :: OccursAt(key, "percent", i)) && exists i: nat :: OccursAt(key, "hours", i)
    ensures UnitSuffix(key) == "" <==>
      (!exists i: nat :: OccursAt(key, "percent", i)) && !exists i: nat :: OccursAt(key, "hours", i)
  {
    ContainsSpec(key, "percent");
    ContainsSpec(key, "hours");
  }

  /** One summary line: display name, value and unit. */
  function SummaryLine(f: Field): string {
    FormatMetricName(f.key) + ": " + IntToString(f.value) + UnitSuffix(f.key)
  }

  const SummarySize: nat := 3

  /** The "Key Metrics" cell: the first entries, and how many more there are when any are hidden. */
  datatype RowSummary = RowSummary(lines: seq<string>, more: Option<nat>)

  function Summary(s: Snapshot): RowSummary {
    var shown := if |s| <= SummarySize then s else s[..SummarySize];
    RowSummary(seq(|shown|, i requires 0 <= i < |shown| => SummaryLine(shown[i])),
               if |s| > SummarySize then Some(|s| - SummarySize) else None)
  }

  /**
   * The first three entries are shown in order (all of them when there are
   * fewer); "+N more" appears exactly when there are more than three, with
   * N the number of entries beyond the third.
   */
  lemma SummarySpec(s: Snapshot)
    ensures var r := Summary(s);
      && |r.lines| <= SummarySize
      && (forall i :: 0 <= i < |r.lines| ==> r.lines[i] == SummaryLine(s[i]))
      && (r.more.Some? <==> |s| > SummarySize)
      && |r.lines| + r.more.GetOr(0) == |s|
      && |r.lines| == (if |s| <= SummarySize then |s| else SummarySize)
      && (|s| > SummarySize ==> r.more == Some(|s| - SummarySize))
  {
  }

  /** `historyItem.user?.email || 'System'`. */
  function Attribution(item: HistoryOut): string {
    if item.user.Some? && item.user.value.email != "" then item.user.value.email else "System"
  }

  /**
   * A row with no `changed_by` is attributed to "System" whatever the users
   * table holds, and a row whose user has an email shows that email.
   */
  lemma AttributionSpec(row: HistoryEntry, users: map<nat, string>)
    ensures row.changedBy.None? ==> Attribution(Joined(row, users)) == "System"
    ensures row.changedBy.Some? && row.changedBy.value in users && users[row.changedBy.value] != "" ==>
      Attribution(Joined(row, users)) == users[row.changedBy.value]
  {
  }

  /** One drawn row of the history table. */
  datatype RowView = RowView(latest: bool, color: string, who: string, summary: RowSummary)

  function ViewRow(item: HistoryOut, index: nat): RowView {
    RowView(index == 0, HistoryPage.ChangeTypeColor(item.row.changeType), Attribution(item),
            Summary(ParseMetricsData(item.row.metricsData)))
  }

  /** The table: one view per fetched row, in the order fetched. */
  function ViewTable(items: seq<HistoryOut>): (views: seq<RowView>)
    ensures |views| == |items|
  {
    seq(|items|, i requires 0 <= i < |items| => ViewRow(items[i], i))
  }

  /** Only the first row is highlighted and badged "Latest". */
  lemma OnlyFirstIsLatest(items: seq<HistoryOut>, i: nat)
    requires i < |items|
    ensures ViewTable(items)[i].latest <==> i == 0
    ensures ViewTable(items)[i].who == Attribution(items[i])
  {
  }

  /**
   * On the Sub-PnL's listing, the row badged "Latest" is at least as recent
   * as every row of the table in that Sub-PnL's scope.
   */
  lemma LatestIsNewest(subPnls: set<int>, rows: Queries.Rows, users: map<nat, string>, subPnlId: int, j: nat)
    requires subPnlId in subPnls && j < |rows| && Queries.InSubPnLScope(rows[j], subPnlId)
    ensures var items := Queries.GetSubPnLMetricsHistory(subPnls, rows, users, subPnlId).value;
      && items != []
      && ViewTable(items)[0].latest
      && items[0].row.createdAt >= rows[j].createdAt
  {
    Queries.SubPnLHistorySpec(subPnls, rows, users, subPnlId, rows[j]);
    var listed := Queries.RowsOf(Queries.GetSubPnLMetricsHistory(subPnls, rows, users, subPnlId).value);
    assert rows[j] in multiset(rows);
    assert rows[j] in multiset(listed);
    var k :| 0 <= k < |listed| && listed[k] == rows[j];
    if k > 0 {
      assert listed[0].createdAt >= listed[k].createdAt;
    }
  }

  // ---------------------------------------------------------------- editor

  const FetchDetailsFailed: string := "Failed to fetch Sub-PnL details"
  const SaveFailed: string := "Failed to save metrics. Please try again."

  /** The editor state of the page. */
  class Editor {
    /** `subPnl?.detail_metrics` as last fetched. */
    var saved: Option<Backend.Record>
    var editing: bool
    var editingMetrics: Backend.Record
    var metricsHistory: seq<HistoryOut>
    var error: Option<string>
    var saving: bool

    constructor ()
      ensures saved == None && !editing && editingMetrics == map[] && metricsHistory == []
      ensures error == None && !saving
    {
      saved, editing, editingMetrics := None, false, map[];
      metricsHistory, error, saving := [], None, false;
    }

    /**
     * `fetchSubPnLDetails` settles. A response replaces the saved metrics and,
     * when it carries detail metrics, the editing record; a failure sets the
     * error message.
     */
    method DetailsFetched(response: Option<Option<Backend.Record>>)
      modifies this`saved, this`editingMetrics, this`error
      ensures response.Some? ==>
        && saved == response.value
        && editingMetrics == (if response.value.Some? then response.value.value else old(editingMetrics))
        && error == old(error)
      ensures response.None? ==>
        saved == old(saved) && editingMetrics == old(editingMetrics) && error == Some(FetchDetailsFailed)
    {
      if response.Some? {
        saved := response.value;
        if response.value.Some? {
          editingMetrics := response.value.value;
        }
      } else {
        error := Some(FetchDetailsFailed);
      }
    }

    /** `fetchMetricsHistory` settles: a response replaces the list; a failure is only logged. */
    method HistoryFetched(response: Option<seq<HistoryOut>>)
      modifies this`metricsHistory
      ensures metricsHistory == if response.Some? then response.value else old(metricsHistory)
    {
      if response.Some? {
        metricsHistory := response.value;
      }
    }

    method HandleEdit()
      modifies this`editing
      ensures editing
    {
      editing := true;
    }

    /** `handleMetricChange`: exactly the given field takes the given value. */
    method HandleMetricChange(field: string, value: int)
      modifies this`editingMetrics
      ensures field in editingMetrics && editingMetrics[field] == value
      ensures forall k :: k != field ==>
        (k in editingMetrics <==> k in old(editingMetrics)) &&
        (k in editingMetrics ==> editingMetrics[k] == old(editingMetrics)[k])
    {
      editingMetrics := editingMetrics[field := value];
    }

    /**
     * `handleCancel`: leaves edit mode and restores the editing record from
     * the saved metrics; with no saved metrics the edits stay.
     */
    method HandleCancel()
      modifies this`editing, this`editingMetrics
      ensures !editing
      ensures editingMetrics == if saved.Some? then saved.value else old(editingMetrics)
    {
      editing := false;
      if saved.Some? {
        editingMetrics := saved.value;
      }
    }

    /**
     * `handleSave`: the PUT of the editing record settles with `putOk`. On
     * success edit mode ends and the details and the history are fetched
     * again, each settling with the response given; on failure an alert is
     * shown and nothing else changes. `saving` is cleared either way.
     */
    method HandleSave(putOk: bool, details: Option<Option<Backend.Record>>, history: Option<seq<HistoryOut>>)
      returns (alert: Option<string>)
      modifies this`editing, this`saved, this`editingMetrics, this`error, this`metricsHistory, this`saving
      ensures !saving
      ensures !putOk ==>
        && alert == Some(SaveFailed)
        && editing == old(editing) && saved == old(saved) && editingMetrics == old(editingMetrics)
        && error == old(error) && metricsHistory == old(metricsHistory)
      ensures putOk ==>
        && alert == None && !editing
        && saved == (if details.Some? then details.value else old(saved))
        && editingMetrics == (if details.Some? && details.value.Some? then details.value.value else old(editingMetrics))
        && error == (if details.Some? then old(error) else Some(FetchDetailsFailed))
        && metricsHistory == (if history.Some? then history.value else old(metricsHistory))
    {
      saving := true;
      if putOk {
        editing := false;
        DetailsFetched(details);
        HistoryFetched(history);
        alert := None;
      } else {
        alert := Some(SaveFailed);
      }
      saving := false;
    }
  }
}
