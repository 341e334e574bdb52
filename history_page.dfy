/**
 * The metrics history page (frontend/src/pages/MetricsHistory.jsx): which
 * listing it fetches, the two-step delete with its local removal, and how a
 * row's snapshots, change type and previous values are drawn.
 */
module HistoryPage {
  import opened Wrappers
  import opened Snapshots
  import opened Strings
  import opened History
  import Json

  // ------------------------------------------------------------------- scope

  /** The listing the page fetches. */
  datatype Scope = Global | ByPnL(pnlId: string) | BySubPnL(subPnlId: string)

  /** A route parameter is truthy when present and non-empty. */
  predicate Given(param: Option<string>) {
    param.Some? && param.value != ""
  }

  /**
   * The scope choice of `fetchHistory`: a Sub-PnL id wins over a PnL id, and
   * with neither the global listing is fetched.
   */
  function ChooseScope(pnlId: Option<string>, subPnlId: Option<string>): (s: Scope)
    ensures s.BySubPnL? <==> Given(subPnlId)
    ensures s.ByPnL? <==> !Given(subPnlId) && Given(pnlId)
    ensures s.Global? <==> !Given(subPnlId) && !Given(pnlId)
    ensures s.BySubPnL? ==> s.subPnlId == subPnlId.value
    ensures s.ByPnL? ==> s.pnlId == pnlId.value
  {
    if Given(subPnlId) then BySubPnL(subPnlId.value)
    else if Given(pnlId) then ByPnL(pnlId.value)
    else Global
  }

  /** The endpoint each scope requests. */
  function Endpoint(s: Scope): string {
    match s
    case BySubPnL(id) => "/sub-pnls/" + id + "/metrics-history"
    case ByPnL(id) => "/pnls/" + id + "/metrics-history"
    case Global => "/metrics-history"
  }

  /** With a Sub-PnL id present, the PnL id makes no difference to the request. */
  lemma SubPnLScopeWins(pnlId: Option<string>, subPnlId: string)
    requires subPnlId != ""
    ensures Endpoint(ChooseScope(pnlId, Some(subPnlId))) == "/sub-pnls/" + subPnlId + "/metrics-history"
  {
  }

  // ---------------------------------------------------------- local removal

  /** `history.filter(item => item.id !== historyId)`. */
  function RemoveId(items: seq<HistoryOut>, historyId: nat): seq<HistoryOut> {
    if items == [] then []
    else if items[0].row.id != historyId then [items[0]] + RemoveId(items[1..], historyId)
    else RemoveId(items[1..], historyId)
  }

  /** Removal drops exactly the entries with that id and keeps the others, each as often as before. */
  lemma {:induction false} RemoveIdSpec(items: seq<HistoryOut>, historyId: nat, x: HistoryOut)
    ensures multiset(RemoveId(items, historyId))[x] == if x.row.id == historyId then 0 else multiset(items)[x]
    ensures x in RemoveId(items, historyId) <==> x in items && x.row.id != historyId
  {
    if items != [] {
      RemoveIdSpec(items[1..], historyId, x);
      assert items == [items[0]] + items[1..];
    }
  }

  /** Removal keeps the remaining entries in their order: it works piece by piece. */
  lemma {:induction false} RemoveIdConcat(a: seq<HistoryOut>, b: seq<HistoryOut>, historyId: nat)
    ensures RemoveId(a + b, historyId) == RemoveId(a, historyId) + RemoveId(b, historyId)
  {
    if a == [] {
      assert a + b == b;
    } else {
      assert (a + b)[0] == a[0];
      assert (a + b)[1..] == a[1..] + b;
      RemoveIdConcat(a[1..], b, historyId);
      if a[0].row.id != historyId {
        assert RemoveId(a + b, historyId) == [a[0]] + RemoveId(a[1..] + b, historyId);
      }
    }
  }

  /** A list holding no entry with that id is left as it is. */
  lemma {:induction false} RemoveIdAbsent(items: seq<HistoryOut>, historyId: nat)
    requires forall i :: 0 <= i < |items| ==> items[i].row.id != historyId
    ensures RemoveId(items, historyId) == items
  {
    if items != [] {
      RemoveIdAbsent(items[1..], historyId);
    }
  }

  // -------------------------------------------------------- the page state

  const FetchFailed: string := "Failed to fetch metrics history"
  const DeleteSucceeded: string := "History entry deleted successfully"
  const DeleteFailed: string := "Failed to delete history entry. Please try again."

  class Page {
    var history: seq<HistoryOut>
    var error: Option<string>
    /** The entry whose delete request is in flight. */
    var deletingId: Option<nat>
    /** The entry whose Confirm/Cancel pair is shown. */
    var deleteConfirmId: Option<nat>

    constructor ()
      ensures history == [] && error == None && deletingId == None && deleteConfirmId == None
    {
      history, error := [], None;
      deletingId, deleteConfirmId := None, None;
    }

    /** `fetchHistory` settles: the response replaces the list, or the error message is set. */
    method FetchSettled(response: Option<seq<HistoryOut>>)
      modifies this`history, this`error
      ensures response.Some? ==> history == response.value && error == old(error)
      ensures response.None? ==> history == old(history) && error == Some(FetchFailed)
    {
      if response.Some? {
        history := response.value;
      } else {
        error := Some(FetchFailed);
      }
    }

    /** The trash button of an entry: show its Confirm/Cancel pair. */
    method AskDelete(itemId: nat)
      modifies this`deleteConfirmId
      ensures deleteConfirmId == Some(itemId)
    {
      deleteConfirmId := Some(itemId);
    }

    /**
     * Cancel of an entry: shown only for the entry awaiting confirmation and
     * disabled while it is being deleted; otherwise it hides the pair.
     * Returns whether the click took effect.
     */
    method CancelDelete(itemId: nat) returns (hidden: bool)
      modifies this`deleteConfirmId
      ensures hidden <==> old(deleteConfirmId) == Some(itemId) && deletingId != Some(itemId)
      ensures deleteConfirmId == if hidden then None else old(deleteConfirmId)
    {
      hidden := deleteConfirmId == Some(itemId) && deletingId != Some(itemId);
      if hidden {
        deleteConfirmId := None;
      }
    }

    /**
     * Confirm of an entry: shown only for the entry awaiting confirmation and
     * disabled while it is being deleted; otherwise it starts
     * `handleDeleteHistory`, which marks the entry and sends the request.
     * Returns whether the request was sent.
     */
    method ConfirmDelete(itemId: nat) returns (sent: bool)
      modifies this`deletingId
      ensures sent <==> deleteConfirmId == Some(itemId) && old(deletingId) != Some(itemId)
      ensures deletingId == if sent then Some(itemId) else old(deletingId)
    {
      sent := deleteConfirmId == Some(itemId) && deletingId != Some(itemId);
      if sent {
        deletingId := Some(itemId);
      }
    }

    /**
     * The delete request settles. On success the entries with that id leave
     * the list and the confirmation closes; on failure the list stays as it
     * was. Either way the in-flight mark is cleared and an alert is shown.
     */
    method DeleteSettled(historyId: nat, ok: bool) returns (alert: string)
      modifies this`history, this`deleteConfirmId, this`deletingId
      ensures history == if ok then RemoveId(old(history), historyId) else old(history)
      ensures deleteConfirmId == if ok then None else old(deleteConfirmId)
      ensures deletingId == None
      ensures alert == if ok then DeleteSucceeded else DeleteFailed
    {
      if ok {
        history := RemoveId(history, historyId);
        deleteConfirmId := None;
        alert := DeleteSucceeded;
      } else {
        alert := DeleteFailed;
      }
      deletingId := None;
    }
  }

  // -------------------------------------------------------------- rendering

  const InvalidDataFormat: string := "Invalid data format"

  /** One line of a snapshot block: the display name of the key, then the value. */
  function EntryLine(f: Field): string {
    FormatMetricName(f.key) + ": " + IntToString(f.value)
  }

  /** `formatMetricsData`: one line per entry of the decoded object, or the fallback line. */
  function FormatMetricsData(json: string): seq<string> {
    match Json.Parse(json)
    case None => [InvalidDataFormat]
    case Some(s) => seq(|s|, i requires 0 <= i < |s| => EntryLine(s[i]))
  }

  /**
   * Every text that does not decode is drawn as the single fallback line;
   * `{not valid json` is such a text.
   */
  lemma FormatMalformed(t: string)
    ensures Json.Parse(t).None? ==> FormatMetricsData(t) == [InvalidDataFormat]
    ensures FormatMetricsData("{not valid json") == [InvalidDataFormat]
  {
    Json.ParseRejectsMalformed();
  }

  /**
   * A snapshot the server wrote is drawn as one line per field, in the order
   * the server wrote them, each starting with the field's display name.
   */
  lemma FormatRecorded(s: Snapshot, i: nat)
    requires Json.Encodable(s) && UniqueKeys(s) && i < |s|
    ensures |FormatMetricsData(Json.Dumps(s))| == |s|
    ensures FormatMetricsData(Json.Dumps(s))[i] == FormatMetricName(s[i].key) + ": " + IntToString(s[i].value)
  {
    Json.DumpsRoundTrip(s);
  }

  /** `item.previous_values && ...`: the previous-values block is drawn for a non-empty string. */
  predicate ShowsPreviousValues(row: HistoryEntry) {
    row.previousValues.Some? && row.previousValues.value != ""
  }

  /**
   * For a row the recorder wrote, the previous-values block is drawn exactly
   * when the recorder was given a non-empty dictionary, and it lists that
   * dictionary.
   */
  lemma RecordedPreviousValuesShown(id: nat, createdAt: nat, entityType: string, entityId: int,
                                    metricsData: Snapshot, changeType: string, userId: Option<nat>,
                                    description: Option<string>, previousValues: Option<Snapshot>)
    requires Json.Encodable(metricsData) && UniqueKeys(metricsData)
    requires previousValues.Some? ==> Json.Encodable(previousValues.value) && UniqueKeys(previousValues.value)
    ensures var row := NewRow(id, createdAt, entityType, entityId, metricsData, changeType, userId,
                              description, previousValues);
      && (ShowsPreviousValues(row) <==> Truthy(previousValues))
      && (ShowsPreviousValues(row) ==>
            |FormatMetricsData(row.previousValues.value)| == |previousValues.value|)
  {
    NewRowDecodes(id, createdAt, entityType, entityId, metricsData, changeType, userId,
                  description, previousValues);
    if Truthy(previousValues) {
      Json.DumpsRoundTrip(previousValues.value);
    }
  }

  /** The glyphs of the change-type icons. */
  datatype Glyph = TrendingUp | TrendingDown | Minus | HistoryGlyph

  datatype Icon = Icon(glyph: Glyph, className: string)

  const DeleteChange: string := "delete"
  const DefaultColor: string := "bg-gray-100 text-gray-800"
  const DefaultIcon: Icon := Icon(HistoryGlyph, "h-4 w-4 text-gray-500")

  /** `getChangeTypeIcon`. */
  function ChangeTypeIcon(changeType: string): Icon {
    if changeType == CreateChange then Icon(TrendingUp, "h-4 w-4 text-green-500")
    else if changeType == UpdateChange then Icon(TrendingDown, "h-4 w-4 text-blue-500")
    else if changeType == DeleteChange then Icon(Minus, "h-4 w-4 text-red-500")
    else DefaultIcon
  }

  /** `getChangeTypeColor` (the Sub-PnL detail page defines the same map). */
  function ChangeTypeColor(changeType: string): string {
    if changeType == CreateChange then "bg-green-100 text-green-800"
    else if changeType == UpdateChange then "bg-blue-100 text-blue-800"
    else if changeType == DeleteChange then "bg-red-100 text-red-800"
    else DefaultColor
  }

  /** A change type that is known to the page. */
  predicate KnownChange(changeType: string) {
    changeType == CreateChange || changeType == UpdateChange || changeType == DeleteChange
  }

  /**
   * Each known change type has its own badge colour and glyph, distinct from
   * the other two and from the default; every other string gets the default.
   */
  lemma ChangeTypeStyles(a: string, b: string)
    ensures !KnownChange(a) ==> ChangeTypeColor(a) == DefaultColor && ChangeTypeIcon(a) == DefaultIcon
    ensures KnownChange(a) ==> ChangeTypeColor(a) != DefaultColor && ChangeTypeIcon(a).glyph != HistoryGlyph
    ensures KnownChange(a) && KnownChange(b) && a != b ==>
      ChangeTypeColor(a) != ChangeTypeColor(b) && ChangeTypeIcon(a).glyph != ChangeTypeIcon(b).glyph
  {
  }
}
