/**
 * The server side of the audit trail (backend/app.py): the request schemas,
 * the recorder `create_metrics_history`, and the three PUT handlers that write
 * metrics. The database is an object whose fields are the tables the handlers
 * touch; a metrics row is a map from column name to value.
 */
module Backend {
  import opened Wrappers
  import opened Snapshots
  import opened History
  import Json

  /** A metrics row of the ORM: column name to value. */
  type Record = map<string, int>

  /** An `HTTPException`: status code and detail message. */
  datatype HttpError = HttpError(status: int, detail: string)

  const PnLNotFound := HttpError(404, "PnL not found")
  const SubPnLNotFound := HttpError(404, "Sub PnL not found")

  /** The `change_description` of each recorded write. */
  const PnLUpdated: string := "PnL metrics updated"
  const PnLCreated: string := "PnL metrics created"
  const SubPnLUpdated: string := "Sub-PnL metrics updated"
  const SubPnLCreated: string := "Sub-PnL metrics created"

  /** The fields of `PnLMetricsUpdate`, in declaration order, with their defaults. */
  const PnLSchema: Snapshot := [
    Field("features_shipped", 0), Field("total_testcases_executed", 0),
    Field("total_bugs_logged", 0), Field("testcase_peer_review", 0),
    Field("regression_bugs_found", 0), Field("sanity_time_avg_hours", 0),
    Field("api_test_time_avg_hours", 0), Field("automation_coverage_percent", 0),
    Field("escaped_bugs", 0)]

  /** The fields of `SubPnLMetricsUpdate`, in declaration order, with their defaults. */
  const SubPnLSchema: Snapshot := [
    Field("features_shipped", 0), Field("total_testcases_executed", 0),
    Field("total_bugs_logged", 0), Field("regression_bugs_found", 0),
    Field("sanity_time_avg_hours", 0), Field("automation_coverage_percent", 0),
    Field("escaped_bugs", 0)]

  /** `SubPnLDetailMetricsUpdate` declares the same nine fields as `PnLMetricsUpdate`. */
  const DetailSchema: Snapshot := PnLSchema

  /** A new `pnl_metrics` row: every numeric column at its default. */
  const PnLColumns: Record := map[
    "features_shipped" := 0, "total_testcases_executed" := 0, "total_bugs_logged" := 0,
    "testcase_peer_review" := 0, "regression_bugs_found" := 0, "sanity_time_avg_hours" := 0,
    "api_test_time_avg_hours" := 0, "automation_coverage_percent" := 0, "escaped_bugs" := 0,
    "test_coverage_percent" := 0, "testcases_per_bug" := 0, "bugs_per_100_tests" := 0]

  /** A new `sub_pnl_metrics` row: every numeric column at its default. */
  const SubPnLColumns: Record := map[
    "features_shipped" := 0, "total_testcases_executed" := 0, "total_bugs_logged" := 0,
    "regression_bugs_found" := 0, "sanity_time_avg_hours" := 0,
    "automation_coverage_percent" := 0, "escaped_bugs" := 0,
    "test_coverage_percent" := 0, "testcases_per_bug" := 0, "bugs_per_100_tests" := 0]

  /** A new `sub_pnl_detail_metrics` row: every numeric column at its default. */
  const DetailColumns: Record := map[
    "features_shipped" := 0, "total_testcases_executed" := 0, "total_bugs_logged" := 0,
    "testcase_peer_review" := 0, "regression_bugs_found" := 0, "sanity_time_avg_hours" := 0,
    "api_test_time_avg_hours" := 0, "automation_coverage_percent" := 0, "escaped_bugs" := 0,
    "test_coverage_percent" := 0, "testcases_per_bug" := 0, "bugs_per_100_tests" := 0,
    "version" := 1]

  // The metric field names need no escaping in JSON, three at a time.
  lemma FieldNamesPlainA()
    ensures Json.PlainKey("features_shipped") && Json.PlainKey("total_testcases_executed")
    ensures Json.PlainKey("total_bugs_logged")
  {
  }

  lemma FieldNamesPlainB()
    ensures Json.PlainKey("testcase_peer_review") && Json.PlainKey("regression_bugs_found")
    ensures Json.PlainKey("sanity_time_avg_hours")
  {
  }

  lemma FieldNamesPlainC()
    ensures Json.PlainKey("api_test_time_avg_hours") && Json.PlainKey("automation_coverage_percent")
    ensures Json.PlainKey("escaped_bugs")
  {
  }

  /** The PnL schema's field names are distinct and `json.dumps` writes them without escapes. */
  lemma PnLSchemaWellFormed()
    ensures Json.Encodable(PnLSchema) && UniqueKeys(PnLSchema) && ZeroDefaults(PnLSchema)
  {
    PnLSchemaEncodable();
    PnLSchemaUnique();
  }

  lemma PnLSchemaEncodable()
    ensures Json.Encodable(PnLSchema)
  {
    FieldNamesPlainA();
    FieldNamesPlainB();
    FieldNamesPlainC();
  }

  lemma PnLSchemaUnique()
    ensures UniqueKeys(PnLSchema)
  {
  }

  /** The Sub-PnL schema's field names are distinct and `json.dumps` writes them without escapes. */
  lemma SubPnLSchemaWellFormed()
    ensures Json.Encodable(SubPnLSchema) && UniqueKeys(SubPnLSchema) && ZeroDefaults(SubPnLSchema)
  {
    SubPnLSchemaEncodable();
    SubPnLSchemaUnique();
  }

  lemma SubPnLSchemaEncodable()
    ensures Json.Encodable(SubPnLSchema)
  {
    FieldNamesPlainA();
    FieldNamesPlainB();
    FieldNamesPlainC();
  }

  lemma SubPnLSchemaUnique()
    ensures UniqueKeys(SubPnLSchema)
  {
  }

  /**
   * `model.dict()`: every schema field, in schema order, with the value the
   * request body gave it or else its default.
   */
  function Dict(schema: Snapshot, body: Snapshot): Snapshot {
    seq(|schema|, i requires 0 <= i < |schema| =>
      Field(schema[i].key, Lookup(body, schema[i].key).GetOr(schema[i].value)))
  }

  /** `model.dict(exclude_unset=True)`: only the schema fields the request body gave. */
  function DictExcludeUnset(schema: Snapshot, body: Snapshot): Snapshot {
    if schema == [] then []
    else if schema[0].key in KeysOf(body) then
      [Field(schema[0].key, Lookup(body, schema[0].key).value)] + DictExcludeUnset(schema[1..], body)
    else DictExcludeUnset(schema[1..], body)
  }

  /**
   * The previous values: `{f: getattr(row, f) for f in fields}`. Every field
   * the handlers capture is a column of the row, so the fallback 0 is never
   * read (`CaptureSpec`).
   */
  function Capture(row: Record, fields: Snapshot): Snapshot {
    seq(|fields|, i requires 0 <= i < |fields| =>
      var k := fields[i].key; Field(k, if k in row then row[k] else 0))
  }

  /** The row after `setattr(row, f, v)` for every field, in order. */
  function Assign(row: Record, fields: Snapshot): Record
    decreases |fields|
  {
    if fields == [] then row
    else
      var f := fields[|fields| - 1];
      Assign(row, fields[..|fields| - 1])[f.key := f.value]
  }

  /** The schema keys covered by a row. */
  ghost predicate HasColumns(row: Record, schema: Snapshot) {
    forall i :: 0 <= i < |schema| ==> schema[i].key in row
  }

  // ----------------------------------------------------------- properties

  /** `dict()` names every schema field once, in order; a field takes the body's value when given. */
  lemma DictSpec(schema: Snapshot, body: Snapshot, k: string)
    ensures KeysOf(Dict(schema, body)) == KeysOf(schema)
    ensures UniqueKeys(schema) && k in KeysOf(schema) ==>
      Lookup(Dict(schema, body), k) ==
        (if k in KeysOf(body) then Lookup(body, k) else Lookup(schema, k))
  {
    var d := Dict(schema, body);
    DictKeys(schema, body);
    if UniqueKeys(schema) && k in KeysOf(schema) {
      var i :| 0 <= i < |schema| && KeysOf(schema)[i] == k;
      UniqueSameKeys(d, schema);
      LookupUnique(d, i);
      LookupUnique(schema, i);
    }
  }

  lemma DictKeys(schema: Snapshot, body: Snapshot)
    ensures KeysOf(Dict(schema, body)) == KeysOf(schema)
  {
  }

  lemma UniqueSameKeys(a: Snapshot, b: Snapshot)
    requires KeysOf(a) == KeysOf(b) && UniqueKeys(b)
    ensures UniqueKeys(a)
  {
    forall i | 0 <= i < |a| ensures a[i].key == b[i].key {
      assert KeysOf(a)[i] == KeysOf(b)[i];
    }
  }

  /**
   * `dict(exclude_unset=True)` holds exactly the schema fields present in the
   * body, with the body's values.
   */
  lemma {:induction false} ExcludeUnsetSpec(schema: Snapshot, body: Snapshot, k: string)
    ensures k in KeysOf(DictExcludeUnset(schema, body)) <==> k in KeysOf(schema) && k in KeysOf(body)
    ensures k in KeysOf(DictExcludeUnset(schema, body)) ==>
      Lookup(DictExcludeUnset(schema, body), k) == Lookup(body, k)
  {
    if schema != [] {
      var k0 := schema[0].key;
      var tail := DictExcludeUnset(schema[1..], body);
      ExcludeUnsetSpec(schema[1..], body, k);
      assert KeysOf(schema) == [k0] + KeysOf(schema[1..]);
      if k0 in KeysOf(body) {
        var f := Field(k0, Lookup(body, k0).value);
        assert KeysOf([f] + tail) == [k0] + KeysOf(tail);
        assert ([f] + tail)[1..] == tail;
      }
    }
  }

  /** Like any Python dict, `dict(exclude_unset=True)` of a schema names each field once. */
  lemma {:induction false} ExcludeUnsetUnique(schema: Snapshot, body: Snapshot)
    requires UniqueKeys(schema)
    ensures UniqueKeys(DictExcludeUnset(schema, body))
  {
    if schema != [] {
      var k0 := schema[0].key;
      var tail := DictExcludeUnset(schema[1..], body);
      UniqueTail(schema);
      ExcludeUnsetUnique(schema[1..], body);
      if k0 in KeysOf(body) {
        var f := Field(k0, Lookup(body, k0).value);
        assert k0 !in KeysOf(schema[1..]);
        ExcludeUnsetSpec(schema[1..], body, k0);
        forall a, b | 0 <= a < b < |[f] + tail| ensures ([f] + tail)[a].key != ([f] + tail)[b].key {
          assert ([f] + tail)[b] == tail[b - 1];
          if a == 0 {
            assert tail[b - 1].key in KeysOf(tail);
          } else {
            assert ([f] + tail)[a] == tail[a - 1];
          }
        }
      }
    }
  }

  /** No schema field is set exactly when `dict(exclude_unset=True)` is empty. */
  lemma ExcludeUnsetEmpty(schema: Snapshot, body: Snapshot)
    ensures DictExcludeUnset(schema, body) == [] <==>
      forall i :: 0 <= i < |schema| ==> schema[i].key !in KeysOf(body)
  {
    if DictExcludeUnset(schema, body) == [] {
      forall i | 0 <= i < |schema| ensures schema[i].key !in KeysOf(body) {
        ExcludeUnsetSpec(schema, body, schema[i].key);
      }
    } else {
      var d := DictExcludeUnset(schema, body);
      ExcludeUnsetSpec(schema, body, d[0].key);
      assert d[0].key in KeysOf(d);
    }
  }

  /** The previous values name the written fields, in order, with the row's values before the write. */
  lemma CaptureSpec(row: Record, fields: Snapshot, k: string)
    requires forall i :: 0 <= i < |fields| ==> fields[i].key in row
    ensures KeysOf(Capture(row, fields)) == KeysOf(fields)
    ensures k in KeysOf(fields) ==> Lookup(Capture(row, fields), k) == Some(row[k])
  {
    var c := Capture(row, fields);
    assert KeysOf(c) == KeysOf(fields);
    if k in KeysOf(fields) {
      var i :| 0 <= i < |c| && c[i] == Field(k, Lookup(c, k).value);
    }
  }

  /** Columns are only ever added by the `setattr` loop: a key is present afterwards iff it was before or was written. */
  lemma {:induction false} AssignHasKey(row: Record, fields: Snapshot, k: string)
    ensures k in Assign(row, fields) <==> k in row || k in KeysOf(fields)
    decreases |fields|
  {
    if fields != [] {
      var n := |fields| - 1;
      AssignHasKey(row, fields[..n], k);
      assert KeysOf(fields) == KeysOf(fields[..n]) + [fields[n].key];
    }
  }

  /**
   * After the `setattr` loop, a written field holds the value written and
   * every other column keeps its value.
   */
  lemma AssignSpec(row: Record, fields: Snapshot, k: string)
    requires UniqueKeys(fields)
    ensures k in KeysOf(fields) ==> k in Assign(row, fields) && Assign(row, fields)[k] == Lookup(fields, k).value
    ensures k !in KeysOf(fields) && k in row ==> k in Assign(row, fields) && Assign(row, fields)[k] == row[k]
  {
    if k in KeysOf(fields) {
      AssignWritten(row, fields, k);
    } else if k in row {
      AssignKept(row, fields, k);
    }
  }

  lemma {:induction false} AssignWritten(row: Record, fields: Snapshot, k: string)
    requires UniqueKeys(fields) && k in KeysOf(fields)
    ensures k in Assign(row, fields) && Assign(row, fields)[k] == Lookup(fields, k).value
    decreases |fields|
  {
    var n := |fields| - 1;
    var init, f := fields[..n], fields[n];
    assert fields == init + [f];
    UniqueInit(fields);
    KeysOfInit(fields);
    LookupAppend(init, f, k);
    if f.key != k {
      AssignWritten(row, init, k);
    }
  }

  lemma {:induction false} AssignKept(row: Record, fields: Snapshot, k: string)
    requires k !in KeysOf(fields) && k in row
    ensures k in Assign(row, fields) && Assign(row, fields)[k] == row[k]
    decreases |fields|
  {
    if fields != [] {
      KeysOfInit(fields);
      AssignKept(row, fields[..|fields| - 1], k);
    }
  }

  /** The schemas' columns survive the `setattr` loop. */
  lemma AssignKeepsColumns(row: Record, fields: Snapshot, schema: Snapshot)
    requires HasColumns(row, schema)
    ensures HasColumns(Assign(row, fields), schema)
  {
    forall i | 0 <= i < |schema| ensures schema[i].key in Assign(row, fields) {
      AssignHasKey(row, fields, schema[i].key);
    }
  }

  /** A row created from `**dict()` has every schema column, whatever columns it started with. */
  lemma AssignDictHasColumns(row: Record, schema: Snapshot, body: Snapshot)
    ensures HasColumns(Assign(row, Dict(schema, body)), schema)
  {
    forall i | 0 <= i < |schema| ensures schema[i].key in Assign(row, Dict(schema, body)) {
      AssignHasKey(row, Dict(schema, body), schema[i].key);
      DictSpec(schema, body, schema[i].key);
      assert schema[i].key in KeysOf(schema);
    }
  }

  /** A dictionary with the keys of a well-formed one is well formed. */
  lemma SameKeysWellFormed(a: Snapshot, b: Snapshot)
    requires KeysOf(a) == KeysOf(b) && Json.Encodable(b) && UniqueKeys(b)
    ensures Json.Encodable(a) && UniqueKeys(a)
  {
    forall i | 0 <= i < |a| ensures a[i].key == b[i].key {
      assert KeysOf(a)[i] == KeysOf(b)[i];
    }
  }

  /** `dict()`, `dict(exclude_unset=True)` and the captured previous values are serialisable dictionaries. */
  lemma DictsWellFormed(schema: Snapshot, body: Snapshot, row: Record)
    requires Json.Encodable(schema) && UniqueKeys(schema)
    ensures Json.Encodable(Dict(schema, body)) && UniqueKeys(Dict(schema, body))
    ensures Json.Encodable(DictExcludeUnset(schema, body)) && UniqueKeys(DictExcludeUnset(schema, body))
    ensures Json.Encodable(Capture(row, Dict(schema, body))) && UniqueKeys(Capture(row, Dict(schema, body)))
    ensures Json.Encodable(Capture(row, DictExcludeUnset(schema, body)))
    ensures UniqueKeys(Capture(row, DictExcludeUnset(schema, body)))
  {
    var full, written := Dict(schema, body), DictExcludeUnset(schema, body);
    DictSpec(schema, body, "");
    SameKeysWellFormed(full, schema);
    ExcludeUnsetUnique(schema, body);
    forall i | 0 <= i < |written| ensures Json.PlainKey(written[i].key) {
      ExcludeUnsetSpec(schema, body, written[i].key);
      assert written[i].key in KeysOf(written);
    }
    assert KeysOf(Capture(row, full)) == KeysOf(full);
    SameKeysWellFormed(Capture(row, full), full);
    assert KeysOf(Capture(row, written)) == KeysOf(written);
    SameKeysWellFormed(Capture(row, written), written);
  }

  /** Every field of the schema defaults to 0. */
  ghost predicate ZeroDefaults(schema: Snapshot) {
    forall i :: 0 <= i < |schema| ==> schema[i].value == 0
  }

  lemma SchemaDefault(schema: Snapshot, k: string)
    requires ZeroDefaults(schema) && k in KeysOf(schema)
    ensures Lookup(schema, k) == Some(0)
  {
  }

  // -------------------------------------------------------- handler effects

  /** Writing `dict()` sets every schema field: to the body's value, or to the field's default. */
  lemma AssignDict(row: Record, schema: Snapshot, body: Snapshot, k: string)
    requires UniqueKeys(schema) && k in KeysOf(schema)
    ensures k in Assign(row, Dict(schema, body))
    ensures Assign(row, Dict(schema, body))[k] ==
      if k in KeysOf(body) then Lookup(body, k).value else Lookup(schema, k).value
  {
    DictSpec(schema, body, k);
    assert UniqueKeys(Dict(schema, body)) by {
      forall i | 0 <= i < |Dict(schema, body)| ensures Dict(schema, body)[i].key == schema[i].key {
      }
    }
    AssignSpec(row, Dict(schema, body), k);
  }

  /** Writing `dict(exclude_unset=True)` changes exactly the schema fields the body set. */
  lemma AssignExcludeUnset(row: Record, schema: Snapshot, body: Snapshot, k: string)
    requires UniqueKeys(schema) && k in row
    ensures k in Assign(row, DictExcludeUnset(schema, body))
    ensures Assign(row, DictExcludeUnset(schema, body))[k] ==
      if k in KeysOf(schema) && k in KeysOf(body) then Lookup(body, k).value else row[k]
  {
    ExcludeUnsetSpec(schema, body, k);
    ExcludeUnsetUnique(schema, body);
    AssignSpec(row, DictExcludeUnset(schema, body), k);
  }

  /**
   * The PnL handler logs `dict()` but stores only the fields the body set: a
   * field the body leaves out is logged as its default 0 while the stored
   * row keeps its old value.
   */
  lemma PnLUpdateLogsDefaults(row: Record, body: Snapshot, k: string)
    requires k in KeysOf(PnLSchema) && k !in KeysOf(body) && k in row
    ensures Lookup(Dict(PnLSchema, body), k) == Some(0)
    ensures k in Assign(row, DictExcludeUnset(PnLSchema, body))
    ensures Assign(row, DictExcludeUnset(PnLSchema, body))[k] == row[k]
  {
    PnLSchemaWellFormed();
    DictSpec(PnLSchema, body, k);
    SchemaDefault(PnLSchema, k);
    AssignExcludeUnset(row, PnLSchema, body, k);
  }

  /** The Sub-PnL handler writes every schema field: a field the body leaves out is reset to 0. */
  lemma SubPnLUpdateResets(row: Record, body: Snapshot, k: string)
    requires k in KeysOf(SubPnLSchema)
    ensures k in Assign(row, Dict(SubPnLSchema, body))
    ensures Assign(row, Dict(SubPnLSchema, body))[k] == Lookup(body, k).GetOr(0)
  {
    SubPnLSchemaWellFormed();
    SchemaDefault(SubPnLSchema, k);
    AssignDict(row, SubPnLSchema, body, k);
  }

  /**
   * The "update" row of the PnL handler decodes to `dict()` and to the
   * captured previous values; `previous_values` is null exactly when the body
   * set no schema field, although the row still says "update".
   */
  lemma PnLUpdateRowDecodes(id: nat, now: nat, pnlId: int, before: Record, body: Snapshot)
    ensures var written := DictExcludeUnset(PnLSchema, body);
      var row := NewRow(id, now, PnLEntity, pnlId, Dict(PnLSchema, body), UpdateChange, None,
                        Some(PnLUpdated), Some(Capture(before, written)));
      && Json.Parse(row.metricsData) == Some(Dict(PnLSchema, body))
      && (row.previousValues.None? <==>
            forall i :: 0 <= i < |PnLSchema| ==> PnLSchema[i].key !in KeysOf(body))
      && (row.previousValues.Some? ==> Json.Parse(row.previousValues.value) == Some(Capture(before, written)))
  {
    var written := DictExcludeUnset(PnLSchema, body);
    PnLSchemaWellFormed();
    DictsWellFormed(PnLSchema, body, before);
    ExcludeUnsetEmpty(PnLSchema, body);
    NewRowDecodes(id, now, PnLEntity, pnlId, Dict(PnLSchema, body), UpdateChange, None,
                  Some(PnLUpdated), Some(Capture(before, written)));
  }

  /**
   * The "update" row of the Sub-PnL handler decodes to `dict()` and to the
   * previous value of every schema field; it always has previous values.
   */
  lemma SubPnLUpdateRowDecodes(id: nat, now: nat, subPnlId: int, before: Record, body: Snapshot)
    ensures var full := Dict(SubPnLSchema, body);
      var row := NewRow(id, now, SubPnLEntity, subPnlId, full, UpdateChange, None,
                        Some(SubPnLUpdated), Some(Capture(before, full)));
      && Json.Parse(row.metricsData) == Some(full)
      && row.previousValues.Some?
      && Json.Parse(row.previousValues.value) == Some(Capture(before, full))
  {
    var full := Dict(SubPnLSchema, body);
    SubPnLSchemaWellFormed();
    DictsWellFormed(SubPnLSchema, body, before);
    NewRowDecodes(id, now, SubPnLEntity, subPnlId, full, UpdateChange, None,
                  Some(SubPnLUpdated), Some(Capture(before, full)));
  }

  /** The "create" rows of both handlers decode to `dict()` and carry no previous values. */
  lemma CreateRowsDecode(id: nat, now: nat, entityId: int, body: Snapshot)
    ensures var row := NewRow(id, now, PnLEntity, entityId, Dict(PnLSchema, body), CreateChange,
                              None, Some(PnLCreated), None);
      Json.Parse(row.metricsData) == Some(Dict(PnLSchema, body)) && row.previousValues.None?
    ensures var row := NewRow(id, now, SubPnLEntity, entityId, Dict(SubPnLSchema, body), CreateChange,
                              None, Some(SubPnLCreated), None);
      Json.Parse(row.metricsData) == Some(Dict(SubPnLSchema, body)) && row.previousValues.None?
  {
    PnLSchemaWellFormed();
    SubPnLSchemaWellFormed();
    DictsWellFormed(PnLSchema, body, map[]);
    DictsWellFormed(SubPnLSchema, body, map[]);
    NewRowDecodes(id, now, PnLEntity, entityId, Dict(PnLSchema, body), CreateChange, None,
                  Some(PnLCreated), None);
    NewRowDecodes(id, now, SubPnLEntity, entityId, Dict(SubPnLSchema, body), CreateChange, None,
                  Some(SubPnLCreated), None);
  }

  // -------------------------------------------------------------- database

  class MetricsDb {
    /** The ids of the `pnls` and `sub_pnls` rows. */
    var pnls: set<int>
    var subPnls: set<int>
    /** The metrics rows, by the id of the PnL or Sub-PnL they belong to. */
    var pnlMetrics: map<int, Record>
    var subPnlMetrics: map<int, Record>
    var detailMetrics: map<int, Record>
    /** The `metrics_history` table in insertion order, and the next serial id. */
    var history: seq<HistoryEntry>
    var nextId: nat

    /** Every metrics row carries its schema's columns; history ids are distinct and below `nextId`. */
    ghost predicate Valid()
      reads this
    {
      && (forall p :: p in pnlMetrics ==> HasColumns(pnlMetrics[p], PnLSchema))
      && (forall p :: p in subPnlMetrics ==> HasColumns(subPnlMetrics[p], SubPnLSchema))
      && (forall p :: p in detailMetrics ==> HasColumns(detailMetrics[p], DetailSchema))
      && (forall i :: 0 <= i < |history| ==> history[i].id < nextId)
      && (forall i, j :: 0 <= i < j < |history| ==> history[i].id != history[j].id)
    }

    /** A database holding the given PnLs and Sub-PnLs, no metrics rows and no history. */
    constructor (pnls: set<int>, subPnls: set<int>)
      ensures Valid()
      ensures this.pnls == pnls && this.subPnls == subPnls
      ensures pnlMetrics == map[] && subPnlMetrics == map[] && detailMetrics == map[]
      ensures history == [] && nextId == 1
    {
      this.pnls, this.subPnls := pnls, subPnls;
      pnlMetrics, subPnlMetrics, detailMetrics := map[], map[], map[];
      history, nextId := [], 1;
    }

    /** `create_metrics_history`: append exactly the row `NewRow` describes, under a fresh id. */
    method CreateMetricsHistory(entityType: string, entityId: int, metricsData: Snapshot,
                                changeType: string, userId: Option<nat>,
                                description: Option<string>, previousValues: Option<Snapshot>,
                                now: nat)
      returns (row: HistoryEntry)
      requires Valid()
      modifies this`history, this`nextId
      ensures Valid()
      ensures row == NewRow(old(nextId), now, entityType, entityId, metricsData, changeType,
                            userId, description, previousValues)
      ensures history == old(history) + [row] && nextId == old(nextId) + 1
    {
      row := NewRow(nextId, now, entityType, entityId, metricsData, changeType,
                    userId, description, previousValues);
      history := history + [row];
      nextId := nextId + 1;
    }

    /** The `setattr` loop of the update handlers. */
    static method SetAttrs(row: Record, fields: Snapshot) returns (r: Record)
      ensures r == Assign(row, fields)
    {
      r := row;
      var i := 0;
      while i < |fields|
        invariant 0 <= i <= |fields|
        invariant r == Assign(row, fields[..i])
      {
        assert fields[..i + 1][..i] == fields[..i];
        r := r[fields[i].key := fields[i].value];
        i := i + 1;
      }
      assert fields[..i] == fields;
    }

    /**
     * `PUT /pnls/{pnl_id}/metrics`. An unknown PnL is a 404 that changes
     * nothing; otherwise the existing metrics row is overwritten or a new one
     * is inserted, and one history row is recorded.
     */
    method UpdatePnLMetrics(pnlId: int, body: Snapshot, now: nat)
      returns (r: Result<Record, HttpError>)
      requires Valid()
      modifies this`pnlMetrics, this`history, this`nextId
      ensures Valid()
      ensures pnlId !in pnls ==>
        r == Failure(PnLNotFound) && history == old(history)
        && pnlMetrics == old(pnlMetrics) && nextId == old(nextId)
      ensures pnlId in pnls && pnlId in old(pnlMetrics) ==>
        var before := old(pnlMetrics)[pnlId];
        var written := DictExcludeUnset(PnLSchema, body);
        && pnlMetrics == old(pnlMetrics)[pnlId := Assign(before, written)]
        && history == old(history) + [NewRow(old(nextId), now, PnLEntity, pnlId, Dict(PnLSchema, body),
             UpdateChange, None, Some(PnLUpdated), Some(Capture(before, written)))]
        && nextId == old(nextId) + 1
        && r == Success(Assign(before, written))
      ensures pnlId in pnls && pnlId !in old(pnlMetrics) ==>
        && pnlMetrics == old(pnlMetrics)[pnlId := Assign(PnLColumns, Dict(PnLSchema, body))]
        && history == old(history) + [NewRow(old(nextId), now, PnLEntity, pnlId, Dict(PnLSchema, body),
             CreateChange, None, Some(PnLCreated), None)]
        && nextId == old(nextId) + 1
        && r == Success(Assign(PnLColumns, Dict(PnLSchema, body)))
    {
      if pnlId !in pnls {
        return Failure(PnLNotFound);
      }
      var row;
      if pnlId in pnlMetrics {
        row := OverwritePnLMetrics(pnlId, body, now);
      } else {
        row := InsertPnLMetrics(pnlId, body, now);
      }
      r := Success(row);
    }

    /**
     * The "existing metrics" branch of the PnL handler: the fields the body
     * set are captured, then overwritten; the "update" row logs `dict()`,
     * unset fields at their defaults.
     */
    method OverwritePnLMetrics(pnlId: int, body: Snapshot, now: nat) returns (after: Record)
      requires Valid() && pnlId in pnlMetrics
      modifies this`pnlMetrics, this`history, this`nextId
      ensures Valid()
      ensures var before := old(pnlMetrics)[pnlId];
        var written := DictExcludeUnset(PnLSchema, body);
        && after == Assign(before, written)
        && pnlMetrics == old(pnlMetrics)[pnlId := after]
        && history == old(history) + [NewRow(old(nextId), now, PnLEntity, pnlId, Dict(PnLSchema, body),
             UpdateChange, None, Some(PnLUpdated), Some(Capture(before, written)))]
        && nextId == old(nextId) + 1
    {
      var before := pnlMetrics[pnlId];
      var written := DictExcludeUnset(PnLSchema, body);
      var previous := Capture(before, written);
      after := SetAttrs(before, written);
      AssignKeepsColumns(before, written, PnLSchema);
      pnlMetrics := pnlMetrics[pnlId := after];
      var _ := CreateMetricsHistory(PnLEntity, pnlId, Dict(PnLSchema, body), UpdateChange, None,
                                    Some(PnLUpdated), Some(previous), now);
    }

    /** The "no metrics yet" branch of the PnL handler: a row from `**dict()` and a "create" row. */
    method InsertPnLMetrics(pnlId: int, body: Snapshot, now: nat) returns (created: Record)
      requires Valid()
      modifies this`pnlMetrics, this`history, this`nextId
      ensures Valid()
      ensures created == Assign(PnLColumns, Dict(PnLSchema, body))
      ensures pnlMetrics == old(pnlMetrics)[pnlId := created]
      ensures history == old(history) + [NewRow(old(nextId), now, PnLEntity, pnlId, Dict(PnLSchema, body),
                CreateChange, None, Some(PnLCreated), None)]
      ensures nextId == old(nextId) + 1
    {
      var full := Dict(PnLSchema, body);
      created := SetAttrs(PnLColumns, full);
      AssignDictHasColumns(PnLColumns, PnLSchema, body);
      pnlMetrics := pnlMetrics[pnlId := created];
      var _ := CreateMetricsHistory(PnLEntity, pnlId, full, CreateChange, None,
                                    Some(PnLCreated), None, now);
    }

    /**
     * `PUT /sub-pnls/{sub_pnl_id}/metrics`. Like the PnL handler, except that
     * every schema field is written (unset ones at their defaults) and the
     * previous values cover every schema field.
     */
    method UpdateSubPnLMetrics(subPnlId: int, body: Snapshot, now: nat)
      returns (r: Result<Record, HttpError>)
      requires Valid()
      modifies this`subPnlMetrics, this`history, this`nextId
      ensures Valid()
      ensures subPnlId !in subPnls ==>
        r == Failure(SubPnLNotFound) && history == old(history)
        && subPnlMetrics == old(subPnlMetrics) && nextId == old(nextId)
      ensures subPnlId in subPnls && subPnlId in old(subPnlMetrics) ==>
        var before := old(subPnlMetrics)[subPnlId];
        var full := Dict(SubPnLSchema, body);
        && subPnlMetrics == old(subPnlMetrics)[subPnlId := Assign(before, full)]
        && history == old(history) + [NewRow(old(nextId), now, SubPnLEntity, subPnlId, full,
             UpdateChange, None, Some(SubPnLUpdated), Some(Capture(before, full)))]
        && nextId == old(nextId) + 1
        && r == Success(Assign(before, full))
      ensures subPnlId in subPnls && subPnlId !in old(subPnlMetrics) ==>
        var full := Dict(SubPnLSchema, body);
        && subPnlMetrics == old(subPnlMetrics)[subPnlId := Assign(SubPnLColumns, full)]
        && history == old(history) + [NewRow(old(nextId), now, SubPnLEntity, subPnlId, full,
             CreateChange, None, Some(SubPnLCreated), None)]
        && nextId == old(nextId) + 1
        && r == Success(Assign(SubPnLColumns, full))
    {
      if subPnlId !in subPnls {
        return Failure(SubPnLNotFound);
      }
      var row;
      if subPnlId in subPnlMetrics {
        row := OverwriteSubPnLMetrics(subPnlId, body, now);
      } else {
        row := InsertSubPnLMetrics(subPnlId, body, now);
      }
      r := Success(row);
    }

    /** The "existing metrics" branch of the Sub-PnL handler: every schema field is captured, then overwritten. */
    method OverwriteSubPnLMetrics(subPnlId: int, body: Snapshot, now: nat) returns (after: Record)
      requires Valid() && subPnlId in subPnlMetrics
      modifies this`subPnlMetrics, this`history, this`nextId
      ensures Valid()
      ensures var before := old(subPnlMetrics)[subPnlId];
        var full := Dict(SubPnLSchema, body);
        && after == Assign(before, full)
        && subPnlMetrics == old(subPnlMetrics)[subPnlId := after]
        && history == old(history) + [NewRow(old(nextId), now, SubPnLEntity, subPnlId, full,
             UpdateChange, None, Some(SubPnLUpdated), Some(Capture(before, full)))]
        && nextId == old(nextId) + 1
    {
      var before := subPnlMetrics[subPnlId];
      var full := Dict(SubPnLSchema, body);
      var previous := Capture(before, full);
      after := SetAttrs(before, full);
      AssignKeepsColumns(before, full, SubPnLSchema);
      subPnlMetrics := subPnlMetrics[subPnlId := after];
      var _ := CreateMetricsHistory(SubPnLEntity, subPnlId, full, UpdateChange, None,
                                    Some(SubPnLUpdated), Some(previous), now);
    }

    /** The "no metrics yet" branch of the Sub-PnL handler: a row from `**dict()` and a "create" row. */
    method InsertSubPnLMetrics(subPnlId: int, body: Snapshot, now: nat) returns (created: Record)
      requires Valid()
      modifies this`subPnlMetrics, this`history, this`nextId
      ensures Valid()
      ensures created == Assign(SubPnLColumns, Dict(SubPnLSchema, body))
      ensures subPnlMetrics == old(subPnlMetrics)[subPnlId := created]
      ensures history == old(history) + [NewRow(old(nextId), now, SubPnLEntity, subPnlId,
                Dict(SubPnLSchema, body), CreateChange, None, Some(SubPnLCreated), None)]
      ensures nextId == old(nextId) + 1
    {
      var full := Dict(SubPnLSchema, body);
      created := SetAttrs(SubPnLColumns, full);
      AssignDictHasColumns(SubPnLColumns, SubPnLSchema, body);
      subPnlMetrics := subPnlMetrics[subPnlId := created];
      var _ := CreateMetricsHistory(SubPnLEntity, subPnlId, full, CreateChange, None,
                                    Some(SubPnLCreated), None, now);
    }

    /**
     * `PUT /sub-pnls/{sub_pnl_id}/detail-metrics`: every schema field is
     * written, on the existing row or on a new one, and no history row is
     * recorded.
     */
    method UpdateSubPnLDetailMetrics(subPnlId: int, body: Snapshot)
      returns (r: Result<Record, HttpError>)
      requires Valid()
      modifies this`detailMetrics
      ensures Valid()
      ensures subPnlId !in subPnls ==>
        r == Failure(SubPnLNotFound) && detailMetrics == old(detailMetrics)
      ensures subPnlId in subPnls ==>
        var base := if subPnlId in old(detailMetrics) then old(detailMetrics)[subPnlId] else DetailColumns;
        && detailMetrics == old(detailMetrics)[subPnlId := Assign(base, Dict(DetailSchema, body))]
        && r == Success(Assign(base, Dict(DetailSchema, body)))
    {
      if subPnlId !in subPnls {
        return Failure(SubPnLNotFound);
      }
      var full := Dict(DetailSchema, body);
      var base := if subPnlId in detailMetrics then detailMetrics[subPnlId] else DetailColumns;
      var after := SetAttrs(base, full);
      AssignDictHasColumns(base, DetailSchema, body);
      detailMetrics := detailMetrics[subPnlId := after];
      r := Success(after);
    }
  }
}
