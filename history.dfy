/**
 * A row of the `metrics_history` table and the row the recorder builds for
 * one metrics write.
 */
module History {
  import opened Wrappers
  import opened Snapshots
  import Json

  /**
   * One audit-trail row. `metricsData` and `previousValues` hold JSON text;
   * `createdAt` stands for the server's `now()` at insertion, as a number.
   */
  datatype HistoryEntry = HistoryEntry(
    id: nat,
    entityType: string,
    entityId: int,
    metricsData: string,
    changeType: string,
    changedBy: Option<nat>,
    changeDescription: Option<string>,
    previousValues: Option<string>,
    createdAt: nat)

  /** The `entity_type` values the server writes and queries. */
  const PnLEntity: string := "pnl"
  const SubPnLEntity: string := "sub_pnl"
  const SubPnLDetailEntity: string := "sub_pnl_detail"

  /** The `change_type` values the server writes. */
  const CreateChange: string := "create"
  const UpdateChange: string := "update"

  /** The user a row is attributed to, as the API serves it. */
  datatype User = User(id: nat, email: string)

  /** A row as served to the browser: the row with its `user` relationship loaded. */
  datatype HistoryOut = HistoryOut(row: HistoryEntry, user: Option<User>)

  /** The `user` relationship: the user whose id is `changed_by`, if any. */
  function Joined(row: HistoryEntry, users: map<nat, string>): HistoryOut {
    var user := match row.changedBy
      case Some(u) => if u in users then Some(User(u, users[u])) else None
      case None => None;
    HistoryOut(row, user)
  }

  /** Python truthiness of an optional dictionary: present and non-empty. */
  predicate Truthy(d: Option<Snapshot>) {
    d.Some? && d.value != []
  }

  /**
   * The row `create_metrics_history` adds: the new values serialised, the
   * previous values serialised only when they are a non-empty dictionary,
   * attribution and description as given. The database supplies `id` and
   * `createdAt`.
   */
  function NewRow(id: nat, createdAt: nat, entityType: string, entityId: int,
                  metricsData: Snapshot, changeType: string, userId: Option<nat>,
                  description: Option<string>, previousValues: Option<Snapshot>): HistoryEntry
  {
    HistoryEntry(id, entityType, entityId, Json.Dumps(metricsData), changeType, userId, description,
      if Truthy(previousValues) then Some(Json.Dumps(previousValues.value)) else None,
      createdAt)
  }

  /**
   * A recorded row decodes to the snapshots it was built from: `metrics_data`
   * to the new values, `previous_values` to the previous ones, and
   * `previous_values` is null exactly when the previous values were absent or
   * empty.
   */
  lemma NewRowDecodes(id: nat, createdAt: nat, entityType: string, entityId: int,
                      metricsData: Snapshot, changeType: string, userId: Option<nat>,
                      description: Option<string>, previousValues: Option<Snapshot>)
    requires Json.Encodable(metricsData) && UniqueKeys(metricsData)
    requires previousValues.Some? ==> Json.Encodable(previousValues.value) && UniqueKeys(previousValues.value)
    ensures var r := NewRow(id, createdAt, entityType, entityId, metricsData, changeType, userId,
                            description, previousValues);
      && Json.Parse(r.metricsData) == Some(metricsData)
      && (r.previousValues.None? <==> !Truthy(previousValues))
      && (r.previousValues.Some? ==> Json.Parse(r.previousValues.value) == previousValues)
      && r.id == id && r.createdAt == createdAt && r.entityType == entityType
      && r.entityId == entityId && r.changeType == changeType && r.changedBy == userId
      && r.changeDescription == description
  {
    Json.DumpsRoundTrip(metricsData);
    if Truthy(previousValues) {
      Json.DumpsRoundTrip(previousValues.value);
    }
  }
}
