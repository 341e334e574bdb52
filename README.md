# Metrics audit trail of qalytics, in Dafny

This project models the audit trail of qalytics, a dashboard for quality metrics. PnLs are product lines and Sub-PnLs are their parts, and both carry metrics.

The model has three parts:

- **Server** (`backend/app.py`):
  - the recorder `create_metrics_history`;
  - the three PUT handlers that write metrics, two of which record history rows;
  - the four history queries.
- **Metrics history page** (`frontend/src/pages/MetricsHistory.jsx`):
  - which listing it fetches;
  - the two-step delete and its local removal;
  - how snapshots, change types and previous values are drawn.
- **Sub-PnL detail page** (`frontend/src/pages/SubPnLDetails.jsx`):
  - the history table;
  - the metrics editor.

Modules, one per file:

| file | module | models |
|---|---|---|
| `wrappers.dfy` | `Wrappers` | `Option` and `Result` |
| `snapshots.dfy` | `Snapshots` | a Python dict or JS object as an ordered list of fields |
| `strings.dfy` | `Strings` | number printing, `includes` and `formatMetricName` (the two regular-expression replacements) |
| `json.dfy` | `Json` | the text `json.dumps` writes for a dict and `JSON.parse` for flat objects, proved to round-trip |
| `history.dfy` | `History` | the `metrics_history` row and the row the recorder builds |
| `backend.dfy` | `Backend` | the pydantic schemas, `dict()` and `dict(exclude_unset=True)`, the `setattr` loop, and the database as a class whose methods are the PUT handlers |
| `queries.dfy` | `Queries` | filtering, `ORDER BY created_at DESC`, `LIMIT`, and the four query endpoints |
| `history_page.dfy` | `HistoryPage` | the metrics history page |
| `sub_pnl_details.dfy` | `SubPnLDetails` | the history table and editor of the Sub-PnL detail page |

How values are represented:

- A metrics row of the database is a `map<string, int>`.
- A serialised dictionary is a `Snapshot`, because its field order shows in the JSON text and in `Object.entries`.
- `created_at` is a natural number that the caller supplies.

### What the code does, as the model proves it

- **Empty PnL update.** `create_metrics_history` stores `previous_values` only when the dictionary is truthy (`backend/app.py:60`). The PnL handler passes the `exclude_unset` captures (`backend/app.py:282-285`), which are `{}` when the body sets no field, so that "update" row has null `previous_values`, like a "create" row. See `Backend.PnLUpdateRowDecodes`.
- **What the PnL update row records.** The row records `metrics_data.dict()` (`backend/app.py:295`), which includes defaults, while only the set fields are written (`backend/app.py:287-288`). A field left out of the body is logged as 0 but keeps its stored value. See `Backend.PnLUpdateLogsDefaults`.
- **Sub-PnL update resets fields.** The Sub-PnL handler writes every field of `dict()` (`backend/app.py:362-363`), so fields missing from the body are reset to 0. See `Backend.SubPnLUpdateResets`.
- **Previous values are not "changed fields only".** The column comment at `backend/models.py:115` calls `previous_values` a JSON string of changed fields only. The Sub-PnL handler captures every schema field (`backend/app.py:357-360`), changed or not. See `Backend.SubPnLUpdateRowDecodes` and `Backend.CaptureSpec`.
- **PnL and Sub-PnL listings are disjoint.** The PnL listing keeps only `entity_type == "pnl"` rows (`backend/app.py:482-485`) and the Sub-PnL listing only "sub_pnl" and "sub_pnl_detail" rows (`backend/app.py:497-500`), so no row is listed under both. See `Queries.ScopesDisjoint`.
- **No tie-break.** The listings order only by `created_at` (`backend/app.py:459`, `485`, `500`), so the model promises nothing about the order of rows with equal timestamps.
- **Delete has no server route.** The page sends `DELETE /metrics-history/{id}` (`frontend/src/services/api.js:77`), and `backend/app.py` declares no delete route, so the server never deletes a row. The model covers the page's side: the request's outcome is a parameter, and a success removes the entry locally.
- **Detail metrics leave no trail.** The detail-metrics handler (`backend/app.py:414-441`) records no history row, although the Sub-PnL listing asks for `sub_pnl_detail` rows. See `Backend.MetricsDb.UpdateSubPnLDetailMetrics`.
- **Attribution.** No handler passes `user_id` to the recorder, so `changed_by` is always null and every row shows "System". See `SubPnLDetails.AttributionSpec`.

## Model

| member | source | states |
|---|---|---|
| History.NewRow | backend/app.py:48-63 | the row `create_metrics_history` adds; specified by `History.NewRowDecodes` |
| History.NewRowDecodes | backend/app.py:48-63 | the recorded row's `metrics_data` decodes to the new values; `previous_values` is null exactly when the previous dictionary is absent or empty, and otherwise decodes to it; every other column is copied from the arguments |
| Json.Dumps | backend/app.py:56-60 | the text `json.dumps` writes for a dictionary of integer metrics; `Json.DumpsRoundTrip` proves `Json.Parse` reads it back |
| Json.DumpsRoundTrip | backend/app.py:56 | `JSON.parse` of the text `json.dumps` writes for a dictionary with plain, distinct keys gives back that dictionary, fields in order |
| Json.Parse | frontend/src/pages/SubPnLDetails.jsx:124 | `JSON.parse` of a flat object of integers; specified by `Json.DumpsRoundTrip`, `Json.ParseUnique` and `Json.ParseRejectsMalformed` |
| Json.ParseUnique | frontend/src/pages/SubPnLDetails.jsx:122-128 | an object decoded by `JSON.parse` never holds the same key twice |
| Json.ParseRejectsMalformed | frontend/src/pages/SubPnLDetails.jsx:122-128 | the text `{not valid json` does not decode |
| Backend.PnLSchemaWellFormed | backend/schemas.py:65-74 | the nine PnL fields have distinct names that need no JSON escaping, and every default is 0 |
| Backend.SubPnLSchemaWellFormed | backend/schemas.py:91-98 | the seven Sub-PnL fields have distinct names that need no JSON escaping, and every default is 0 |
| Backend.Dict | backend/app.py:295 | pydantic's `dict()`; specified by `Backend.DictSpec` |
| Backend.DictSpec | backend/app.py:295 | `dict()` lists exactly the schema's fields in declaration order; each field has the body's value when the body sets it, else the field's default |
| Backend.DictExcludeUnset | backend/app.py:284 | pydantic's `dict(exclude_unset=True)`; specified by `Backend.ExcludeUnsetSpec` and `Backend.ExcludeUnsetEmpty` |
| Backend.ExcludeUnsetSpec | backend/app.py:284 | `dict(exclude_unset=True)` holds a field exactly when it is in the schema and set in the body, with the body's value |
| Backend.ExcludeUnsetEmpty | backend/app.py:282-285 | the set fields are empty exactly when the body sets no schema field |
| Backend.Capture | backend/app.py:282-285 | the `previous_values` comprehension; specified by `Backend.CaptureSpec` |
| Backend.CaptureSpec | backend/app.py:282-285 | the previous values hold exactly the keys about to be written, each with the row's value before the write |
| Backend.Assign | backend/app.py:287-288 | the `setattr` loop over a row; specified by `Backend.AssignHasKey`, `Backend.AssignSpec` and `Backend.AssignKeepsColumns`, and computed step by step by `Backend.MetricsDb.SetAttrs` |
| Backend.AssignHasKey | backend/app.py:287-288 | after the `setattr` loop, the row has a column exactly when it had it before or the loop wrote it |
| Backend.AssignSpec | backend/app.py:287-288 | each written field takes its new value and every other column keeps its old value |
| Backend.AssignKeepsColumns | backend/app.py:287-288 | the `setattr` loop never removes a column |
| Backend.AssignDictHasColumns | backend/app.py:362-363 | writing `dict()` leaves every schema field present on the row |
| Backend.PnLUpdateLogsDefaults | backend/app.py:287-299 | a PnL field the body leaves out keeps its stored value, yet the history row records it as 0 |
| Backend.SubPnLUpdateResets | backend/app.py:362-363 | after a Sub-PnL update every schema field holds the body's value, or 0 when the body leaves it out |
| Backend.PnLUpdateRowDecodes | backend/app.py:280-299 | the PnL "update" row decodes to `dict()` and to the captured previous values; `previous_values` is null exactly when the body set no schema field |
| Backend.SubPnLUpdateRowDecodes | backend/app.py:355-374 | the Sub-PnL "update" row decodes to `dict()`, and its previous values are always present and decode to the old value of every schema field |
| Backend.CreateRowsDecode | backend/app.py:304-321 | the "create" rows of both handlers decode to `dict()` and have null previous values |
| Backend.MetricsDb.CreateMetricsHistory | backend/app.py:48-63 | appends exactly one row, built by the recorder with the next id, and changes nothing else |
| Backend.MetricsDb.SetAttrs | backend/app.py:287-288 | the loop computes the row with every given field written over it |
| Backend.MetricsDb.UpdatePnLMetrics | backend/app.py:264-321 | unknown PnL: 404 "PnL not found" and nothing changes. Existing metrics: the set fields are written and one "update" row is appended, holding `dict()` and the values captured before the write. Otherwise: a row is created from `dict()` and one "create" row is appended |
| Backend.MetricsDb.OverwritePnLMetrics | backend/app.py:280-303 | the existing-row branch of the PnL update: the new row and the one history row appended |
| Backend.MetricsDb.InsertPnLMetrics | backend/app.py:304-321 | the create branch of the PnL update: the new row and the one "create" row appended |
| Backend.MetricsDb.UpdateSubPnLMetrics | backend/app.py:339-396 | unknown Sub-PnL: 404 "Sub PnL not found" and nothing changes. Otherwise every schema field is written from `dict()` and exactly one "update" or "create" row is appended |
| Backend.MetricsDb.OverwriteSubPnLMetrics | backend/app.py:355-378 | the existing-row branch of the Sub-PnL update: all schema fields written, and one "update" row with the old values of all of them |
| Backend.MetricsDb.InsertSubPnLMetrics | backend/app.py:379-396 | the create branch of the Sub-PnL update: the new row and one "create" row |
| Backend.MetricsDb.UpdateSubPnLDetailMetrics | backend/app.py:414-441 | unknown Sub-PnL: 404 and nothing changes. Otherwise `dict()` is written over the existing row or a new one, and the history is left untouched |
| Queries.WhereSpec | backend/app.py:454-457 | the filter keeps every matching row as often as the table holds it and drops every other row |
| Queries.SortNewestFirst | backend/app.py:459 | `ORDER BY created_at DESC`; specified by `Queries.SortSpec` |
| Queries.SortSpec | backend/app.py:459 | `ORDER BY created_at DESC` yields the same rows, newest first |
| Queries.Limit | backend/app.py:459 | `LIMIT n` keeps the first `n` rows, or all of them when there are fewer |
| Queries.ListRows | backend/app.py:452-459 | the filtered, ordered and limited rows of `list_metrics_history`; specified by `Queries.ListRowsSpec`, `Queries.ListRowsNewest`, `Queries.ListRowsComplete` and `Queries.ZeroIdIsNoFilter` |
| Queries.ListMetricsHistory | backend/app.py:444-460 | the listing serves the selected rows, in order, each joined with the user its `changed_by` names |
| Queries.ListRowsSpec | backend/app.py:444-460 | the global listing is newest first; it holds `limit` rows (default 50), or every matching row when fewer match; it holds only rows of the table that match the filters, none more often than the table does |
| Queries.ListRowsNewest | backend/app.py:459 | no matching row dropped by the limit is newer than a listed row |
| Queries.ListRowsComplete | backend/app.py:444-460 | when the limit leaves room, the listing holds every matching row |
| Queries.ZeroIdIsNoFilter | backend/app.py:456-457 | `entity_id=0` is falsy and filters nothing |
| Queries.GetMetricsHistoryItem | backend/app.py:462-472 | `get_metrics_history_item`; specified by `Queries.GetItemSpec` |
| Queries.GetItemSpec | backend/app.py:462-472 | the single-item get succeeds exactly when a row with that id exists, and returns that row; otherwise it gives 404 "Metrics history not found" |
| Queries.GetPnLMetricsHistory | backend/app.py:474-487 | `get_pnl_metrics_history`; specified by `Queries.PnLHistorySpec` |
| Queries.PnLHistorySpec | backend/app.py:474-487 | unknown PnL gives 404 "PnL not found"; otherwise the listing is newest first, holds exactly the "pnl" rows of that id, each as often as the table does, and joins each with its user |
| Queries.GetSubPnLMetricsHistory | backend/app.py:489-502 | `get_sub_pnl_metrics_history`; specified by `Queries.SubPnLHistorySpec` |
| Queries.SubPnLHistorySpec | backend/app.py:489-502 | unknown Sub-PnL gives 404 "Sub-PnL not found"; otherwise the listing is newest first, holds exactly the "sub_pnl" and "sub_pnl_detail" rows of that id, and joins each with its user |
| Queries.ScopesDisjoint | backend/app.py:474-502 | no row is listed both under a PnL and under a Sub-PnL |
| Queries.RecordedRowsListed | backend/app.py:474-502 | a row the PnL handler recorded appears under its PnL, and one the Sub-PnL handler recorded appears under its Sub-PnL |
| Strings.FormatMetricName | frontend/src/pages/SubPnLDetails.jsx:118-120 | `formatMetricName`; specified by `Strings.FormatMetricNameAt` |
| Strings.FormatMetricNameAt | frontend/src/pages/SubPnLDetails.jsx:118-120 | the display name has the key's length; each underscore becomes a space, and each word-initial letter is upper-cased |
| HistoryPage.ChooseScope | frontend/src/pages/MetricsHistory.jsx:20-26 | a Sub-PnL id, when given, selects the Sub-PnL listing; otherwise a PnL id selects the PnL listing; with neither, the global listing |
| HistoryPage.Endpoint | frontend/src/pages/MetricsHistory.jsx:20-26 | the path each scope requests; `HistoryPage.SubPnLScopeWins` states the Sub-PnL case |
| HistoryPage.SubPnLScopeWins | frontend/src/pages/MetricsHistory.jsx:20-21 | with a Sub-PnL id, the Sub-PnL endpoint is requested whatever the PnL id |
| HistoryPage.RemoveId | frontend/src/pages/MetricsHistory.jsx:46 | the `filter` of the local removal; specified by `HistoryPage.RemoveIdSpec`, `HistoryPage.RemoveIdConcat` and `HistoryPage.RemoveIdAbsent` |
| HistoryPage.RemoveIdSpec | frontend/src/pages/MetricsHistory.jsx:46 | the local removal drops exactly the entries with the deleted id and keeps every other entry as often as before |
| HistoryPage.RemoveIdConcat | frontend/src/pages/MetricsHistory.jsx:46 | the removal keeps the remaining entries in their original order |
| HistoryPage.RemoveIdAbsent | frontend/src/pages/MetricsHistory.jsx:46 | a list without that id is left unchanged |
| HistoryPage.Page.FetchSettled | frontend/src/pages/MetricsHistory.jsx:28-31 | a response replaces the list; a failure sets "Failed to fetch metrics history" and keeps the list |
| HistoryPage.Page.AskDelete | frontend/src/pages/MetricsHistory.jsx:197 | the trash button shows that entry's Confirm and Cancel buttons |
| HistoryPage.Page.CancelDelete | frontend/src/pages/MetricsHistory.jsx:171-193 | Cancel acts exactly when it is shown for that entry and not disabled, and then hides the confirmation; otherwise nothing changes |
| HistoryPage.Page.ConfirmDelete | frontend/src/pages/MetricsHistory.jsx:171-176 | Confirm sends the delete exactly when it is shown for that entry and not disabled, and then marks the entry as being deleted |
| HistoryPage.Page.DeleteSettled | frontend/src/pages/MetricsHistory.jsx:43-56 | on success the entry is removed locally, the confirmation closes and the success alert is shown; on failure the list stays and the failure alert is shown; either way the deleting mark is cleared |
| HistoryPage.FormatMetricsData | frontend/src/pages/MetricsHistory.jsx:69-80 | `formatMetricsData`; specified by `HistoryPage.FormatMalformed` and `HistoryPage.FormatRecorded` |
| HistoryPage.FormatMalformed | frontend/src/pages/MetricsHistory.jsx:69-80 | every text that does not decode, `{not valid json` among them, is drawn as the one line "Invalid data format" |
| HistoryPage.FormatRecorded | frontend/src/pages/MetricsHistory.jsx:69-80 | a recorded snapshot is drawn as one "Name: value" line per field, in the order written |
| HistoryPage.RecordedPreviousValuesShown | frontend/src/pages/MetricsHistory.jsx:226-233 | a recorded row shows the previous-values block exactly when the recorder was given a non-empty dictionary, with one line per previous field |
| HistoryPage.ChangeTypeIcon | frontend/src/pages/MetricsHistory.jsx:82-93 | `getChangeTypeIcon`; specified by `HistoryPage.ChangeTypeStyles` |
| HistoryPage.ChangeTypeColor | frontend/src/pages/MetricsHistory.jsx:95-106 | `getChangeTypeColor`; specified by `HistoryPage.ChangeTypeStyles` |
| HistoryPage.ChangeTypeStyles | frontend/src/pages/MetricsHistory.jsx:82-106 | "create", "update" and "delete" each get their own badge colour and icon; any other change type gets the grey default |
| SubPnLDetails.ParseMetricsData | frontend/src/pages/SubPnLDetails.jsx:122-128 | the decoded object, or the empty object for a text `JSON.parse` rejects |
| SubPnLDetails.ParseMetricsDataRecorded | frontend/src/pages/SubPnLDetails.jsx:122-128 | a snapshot the server wrote reads back unchanged, and every text that does not decode, `{not valid json` among them, reads as the empty object |
| SubPnLDetails.UnitSuffix | frontend/src/pages/SubPnLDetails.jsx:502 | the unit after a value; specified by `SubPnLDetails.UnitSuffixSpec` |
| SubPnLDetails.UnitSuffixSpec | frontend/src/pages/SubPnLDetails.jsx:502 | the suffix is "%" exactly when the key contains "percent"; otherwise "h" exactly when it contains "hours"; otherwise nothing |
| SubPnLDetails.Summary | frontend/src/pages/SubPnLDetails.jsx:499-509 | the "Key Metrics" cell; specified by `SubPnLDetails.SummarySpec` |
| SubPnLDetails.SummarySpec | frontend/src/pages/SubPnLDetails.jsx:499-509 | the first three entries are shown in order, or all of them when there are fewer; "+N more" appears exactly when there are more than three entries, with N the count minus three |
| SubPnLDetails.Attribution | frontend/src/pages/SubPnLDetails.jsx:493 | the user's email, else "System"; specified by `SubPnLDetails.AttributionSpec` |
| SubPnLDetails.AttributionSpec | frontend/src/pages/SubPnLDetails.jsx:493 | a row without `changed_by` shows "System"; a row whose user has an email shows that email |
| SubPnLDetails.ViewRow | frontend/src/pages/SubPnLDetails.jsx:467-519 | one drawn row of the history table; `SubPnLDetails.OnlyFirstIsLatest` and `SubPnLDetails.LatestIsNewest` state its "Latest" mark and attribution |
| SubPnLDetails.ViewTable | frontend/src/pages/SubPnLDetails.jsx:467-472 | the table has one drawn row per fetched entry |
| SubPnLDetails.OnlyFirstIsLatest | frontend/src/pages/SubPnLDetails.jsx:469-472 | only the row at index 0 is highlighted as "Latest" |
| SubPnLDetails.LatestIsNewest | frontend/src/pages/SubPnLDetails.jsx:514-519 | on a Sub-PnL's listing, the "Latest" row is at least as recent as every row in that Sub-PnL's scope |
| SubPnLDetails.Editor.DetailsFetched | frontend/src/pages/SubPnLDetails.jsx:47-61 | a response replaces the saved metrics, and the editing record too when detail metrics are present; a failure sets the error message |
| SubPnLDetails.Editor.HistoryFetched | frontend/src/pages/SubPnLDetails.jsx:63-73 | a response replaces the history list; a failure leaves it |
| SubPnLDetails.Editor.HandleEdit | frontend/src/pages/SubPnLDetails.jsx:75-77 | enters edit mode |
| SubPnLDetails.Editor.HandleMetricChange | frontend/src/pages/SubPnLDetails.jsx:101-106 | exactly the given field takes the given value; every other field of the editing record is unchanged |
| SubPnLDetails.Editor.HandleCancel | frontend/src/pages/SubPnLDetails.jsx:79-84 | leaves edit mode and restores the editing record from the saved metrics when there are any |
| SubPnLDetails.Editor.HandleSave | frontend/src/pages/SubPnLDetails.jsx:86-99 | on a successful PUT: edit mode ends, and the details and the history are fetched again. On failure: the save alert is shown and nothing else changes. `saving` ends cleared either way |

## Left out

- Floats and `DECIMAL` columns such as `sanity_time_avg_hours` are left out. Metric values are integers here.
- Json.DumpsRoundTrip: metric values are unbounded integers. `JSON.parse` reads numbers as IEEE doubles, so in the browser a value beyond 2^53 in magnitude reads back rounded; the read-back this lemma, `SubPnLDetails.ParseMetricsDataRecorded` and `HistoryPage.FormatRecorded` state holds in the browser only for values within that range. A 64-bit integer column accepts larger values, and those would be drawn rounded.
- Backend.MetricsDb.UpdateSubPnLMetrics: the metrics columns are `Integer` (`backend/models.py:50-53`), so a value outside the database's integer range fails at commit with a 500 and nothing is recorded; the model writes and records any integer. The same holds for the integer columns of `pnl_metrics` written by `Backend.MetricsDb.UpdatePnLMetrics`.
- Backend.MetricsDb.OverwriteSubPnLMetrics: the columns `sanity_time_avg_hours` and `automation_coverage_percent` are `DECIMAL(5,2)` (`backend/models.py:54-55`), so the `getattr` at `backend/app.py:357-360` reads `decimal.Decimal` values, and `json.dumps` of those previous values at `backend/app.py:60` raises `TypeError`. As written, every update of an existing Sub-PnL metrics row therefore fails with a 500, commits nothing and records no row. With integer values the model cannot reach that failure: it proves the write and the one "update" row the handler is written to produce.
- Backend.MetricsDb.OverwritePnLMetrics: the same failure follows for a PnL update whose body sets `sanity_time_avg_hours`, `api_test_time_avg_hours` or `automation_coverage_percent`, which are `DECIMAL(5,2)` in `backend/migrations/001_add_pnl_metrics.py:19-21`; the model proves the row this branch is written to record.
- Backend.MetricsDb.UpdatePnLMetrics: the model assumes a `PnLMetrics` mapping with the columns of `backend/migrations/001_add_pnl_metrics.py`. `backend/models.py` defines no such class, so the handler as written raises `AttributeError` at `backend/app.py:276` for every existing PnL, and neither the update branch nor the create branch is reached.
- Backend.Dict: the request body is given as its list of fields. When the JSON body repeats a key, `Lookup` reads the first occurrence, while `json.loads` keeps the last; `Backend.DictExcludeUnset` shares this.
- Dates and timestamps are left out. `created_at` is a given number, and `formatDate` is not modelled.
- Authentication is not modelled: `get_current_user`, login, signup and the token interceptors depend on a security module that is not part of this model.
- The CRUD of PnLs and Sub-PnLs, and the get-or-create read endpoints (`backend/app.py:108-133` and `249-262`), are not modelled. The sets of existing ids are given to the database's constructor.
- Transactions, `commit`/`refresh`/`flush` and concurrency are left out. Each handler is one atomic method.
- The delete request itself is left out, because the server has no delete route. The page's request is reduced to its outcome, `ok`.
- Interleaving of the page's asynchronous steps is left out. Each settled request is one method call.
- The loading spinners, `console.error` logging and the "Last updated" line are left out.
- Other page rendering is left out: `toUpperCase` of the badge and the `metrics.x || 0` fallbacks of the detail cards.
- The parsing of the editor's text inputs (`parseInt`, `parseFloat`) is left out. `HandleMetricChange` receives the integer.
- KPI arithmetic on the dashboard and the Sub-PnL metrics page is left out.
- Json.Dumps: only dictionaries whose keys need no JSON escaping are covered. Every key the server writes is a fixed field name of that kind.
- Json.Parse: only flat objects of integers are modelled. For a JSON number or array, `Object.entries` would not throw as it does for `null`; those cases are treated as "does not decode".
- SubPnLDetails.ParseMetricsData: a text that is valid JSON but not a flat object of integers (`null`, `[1,2]`, `"ab"`) is parsed by `JSON.parse` and returned as is, while the model returns the empty object. For `null` the table's `Object.entries` (`frontend/src/pages/SubPnLDetails.jsx:499`, `505`) then throws during rendering, outside any `try`, and the page fails; for an array or a string the table lists its entries. The server writes only `json.dumps` of a dictionary, so none of its rows is such a text.
- Object.entries: JS lists integer-like keys first; the model keeps insertion order. No key the server writes is integer-like.
- Queries.ListMetricsHistory: `limit` is a natural number. A negative `LIMIT` depends on the database engine and is not modelled.
- Queries.ListRowsSpec: the order of rows with equal `created_at` is not stated, because the code does not fix it.
- Backend.MetricsDb.UpdatePnLMetrics: `changed_by` is always null, since no caller passes a user. The model records `None`.
