# NSOH rollback tracker, modelled in Dafny

This project models the core of a tracker for storm-overflow discharge data
and proves properties of the model. The tracker reads two feeds. The NSOH feed
is the regulator-facing ArcGIS feature server. The Thames Water feed is the
utility's own API. The tracker compares the fresh NSOH snapshot with the one it
stored last time, location by location. A location "rolls back" when its
`status_start` or its `last_updated` moves strictly backwards. A cycle is
dataset-level when more than half of the locations roll back.

Modules. `Wrappers` and `Json` are support modules; each of the others stands
for one source file:

- `Wrappers` (wrappers.dfy): `Option`, standing for Python's `Optional`.
- `Json` (json.dfy): JSON values and the list comprehensions over them.
- `Config` (config.dfy): the constants of src/config.py that the modelled code
  reads (page size, Thames status table, names of the "latest" files).
- `Models` (models.dfy): src/models.py. It has the four entities, their
  `to_dict`/`from_dict` functions and `get_record_by_id`.
- `Detector` (detector.dfy): src/detector.py. It has the per-record rule, the
  lookup maps, the loop over current records and the aggregation.
- `Storage` (storage.dfy): src/storage.py. The class `Store` holds the data
  directory in memory: history files, the two "latest" files, the
  latest-comparison file and the rollback log.
- `ThamesFetcher` (thames.dfy) and `NsohFetcher` (nsoh.dfy): record parsing in
  src/fetchers/*.py, plus the NSOH pagination loop.
- `Tracker` (tracker.dfy): `main` in src/main.py.

Inputs the model cannot compute are parameters:

- the detection time (`detectionTime`);
- `round(x, 2)` (`round2`);
- the ISO-8601-to-milliseconds conversion (`toMillis`);
- the snapshot path function (`Store.snapshotPath`);
- what the HTTP calls return (`Fetch`, `ThamesPayload`, `PageResponse`).

Behaviour of the code worth knowing:

- `save_snapshot` opens its file with mode "w" (src/storage.py:59). Two
  snapshots with the same path overwrite each other, and `Store.SaveSnapshot`
  does the same.
- `is_dataset_level` reads the unrounded percentage (src/detector.py:117);
  only the stored `rollback_percentage` is rounded (src/detector.py:123). So
  10001 of 20001 locations, 50.0025 percent, is stored as 50.0 and is
  dataset-level (`Detector.JustOverHalfIsDatasetLevel`). The rule amounts to
  `2 * rollbacks > total` (`Detector.DatasetLevelIff`).
- Only the Thames fetcher maps status strings to codes
  (src/fetchers/thames.py:30-34). In an NSOH record, `status` is the raw
  `Status` attribute, and -1 only when that attribute is absent
  (src/fetchers/nsoh.py:76).
- Duplicate location ids are not excluded anywhere.
  - The detector's map keeps the LAST record with an id (src/detector.py:83).
  - `get_record_by_id` returns the FIRST one (src/models.py:104-106).
  - The two agree when ids are unique (`Detector.LookupsAgree`) and differ
    otherwise (`Detector.LookupsDisagreeOnDuplicates`).
  - A snapshot compared with itself is guaranteed rollback-free when its ids
    are unique (`Detector.SelfComparisonNoEvents`); with a duplicated id it
    can report a rollback (`Detector.SelfComparisonWithDuplicates`).

## Model

| member | source | states |
|---|---|---|
| `Json.DecodeList` | src/models.py:67 | a list comprehension of a deserialiser succeeds with one element per entry, each the decoding of its entry, and fails only if some entry fails |
| `Json.DecodeEncodeList` | src/models.py:62-67 | decoding the serialised list gives back the same elements in the same order |
| `Json.DecodeListAppend` | src/storage.py:121 | appending an entry to a decodable list appends its decoding and leaves the earlier decodings alone |
| `Models.RecordRoundTrip` | src/models.py:20-25 | `OverflowRecord.from_dict(r.to_dict()) == r` |
| `Models.RecordDictRoundTrip` | src/models.py:20-25 | a dictionary that `OverflowRecord.from_dict` accepts is exactly `to_dict` of the record it yields |
| `Models.EventRoundTrip` | src/models.py:41-46 | `RollbackEvent.from_dict(e.to_dict()) == e` |
| `Models.EventDictRoundTrip` | src/models.py:41-46 | a dictionary that `RollbackEvent.from_dict` accepts is exactly `to_dict` of the event it yields |
| `Models.ResultRoundTrip` | src/models.py:60-75 | `ComparisonResult.from_dict(c.to_dict()) == c`, events in order |
| `Models.ResultWithoutEvents` | src/models.py:67 | a result without the "rollback_events" key reads back with no events |
| `Models.SnapshotRoundTrip` | src/models.py:86-100 | `Snapshot.from_dict(s.to_dict()) == s`, records in order |
| `Models.SnapshotWithoutRecords` | src/models.py:95 | a snapshot without the "records" key reads back with no records |
| `Models.RecordByIdFirst` | src/models.py:102-107 | `get_record_by_id` returns None exactly when no record has the id, and otherwise the first record with it |
| `Detector.DetectRecordRollback` | src/detector.py:9-61 | an event is produced iff one of the two axes has both values present and the current one strictly smaller; the event carries the current id, the detection time, both value pairs unchanged, the Thames `status_start` (or None without a Thames record) and whether `status` differs |
| `Detector.MissingAxisCannotTrigger` | src/detector.py:40-47 | an axis with a missing value on either side never triggers: the other axis alone decides |
| `Detector.ByIdLastWins` | src/detector.py:83 | the lookup map has exactly the records' ids as keys, and each maps to the last record with that id |
| `Detector.ByIdUnique` | src/detector.py:83 | with unique ids every record is found under its own id |
| `Detector.LookupsAgree` | src/models.py:102-107 | with unique ids `get_record_by_id` and the detector's map give the same answer |
| `Detector.LookupsDisagreeOnDuplicates` | src/detector.py:83 | with a duplicated id the scan returns the first record and the map the last |
| `Detector.DetectedEventsAppend` | src/detector.py:89-107 | events follow the iteration order of the current records: the events of a concatenation are the events of the parts, in order |
| `Detector.DetectedEventsMembers` | src/detector.py:89-107 | an event is in the list iff some current record has a previous record under its id and the per-record rule gives that event |
| `Detector.DetectedEventsBound` | src/detector.py:89-110 | at most one event per current record |
| `Detector.DetectedEventsStamped` | src/detector.py:79-103 | every event carries the single detection time and an id present in the previous snapshot |
| `Detector.NewLocationNoEvent` | src/detector.py:91-95 | a current record whose id is absent from the previous snapshot adds no event, whatever its values |
| `Detector.NoEventsIffNoRollback` | src/detector.py:89-107 | the event list is empty iff no current record with a previous counterpart rolls back |
| `Detector.SelfComparisonNoEvents` | src/detector.py:41-46 | comparing a snapshot with unique ids against itself gives no events |
| `Detector.SelfComparisonWithDuplicates` | src/detector.py:83-107 | with a duplicated id, comparing a snapshot against itself can give an event |
| `Detector.Percentage` | src/detector.py:112-114 | the percentage is 0 for an empty snapshot and otherwise satisfies `p * total == 100 * rollbacks` |
| `Detector.DatasetLevelIff` | src/detector.py:116-117 | percentage above 50 iff `2 * rollbacks > total`, so exactly half is not dataset-level |
| `Detector.JustOverHalfIsDatasetLevel` | src/detector.py:116-123 | 10001 of 20001 is above 50 percent but below 50.005, so the flag is set on a value that rounds to 50.0 |
| `Detector.DetectRollbacks` | src/detector.py:64-126 | the loop computes the specified event list; timestamp is the detection time; `total_locations` is the current record count; `rollbacks_detected` is the event count and at most the total; the percentage is `round2` of the exact one; the flag iff `2 * rollbacks > total`; every event has the result's timestamp and a previously known id |
| `Detector.ScenarioOneRegression` | src/detector.py:41-61 | status start 1000 then 500 at one location gives one event for it, with `status_changed` iff the statuses differ |
| `Detector.ScenarioNewLocation` | src/detector.py:89-109 | an unchanged location plus a new one gives no event and two locations |
| `Detector.ScenarioThreeOfFour` | src/detector.py:109-123 | three regressions out of four locations, one of them by `last_updated` only, give 3 events, 75 percent and dataset-level |
| `Storage.Store.constructor` | src/storage.py:21-24 | a fresh data directory: no history, no latest files, no comparison, empty log |
| `Storage.Store.LoadLatest` | src/storage.py:80-97 | None iff the source's latest file was never written, else the snapshot deserialised from it |
| `Storage.Store.LoadRollbackLog` | src/storage.py:141-154 | one result per log entry, each the deserialisation of its entry, in append order; empty when nothing was logged |
| `Storage.Store.LatestComparison` | src/storage.py:128-138 | None iff the latest-comparison file was never written, else `from_dict` of the stored file |
| `Storage.Store.SaveSnapshot` | src/storage.py:47-62 | writes `to_dict` under `get_snapshot_path(timestamp, source)`, returns that path, changes nothing else |
| `Storage.Store.SaveLatest` | src/storage.py:65-77 | overwrites the thames slot for source "thames" and the nsoh slot otherwise; loading that source then gives the snapshot back; the other slot is unchanged |
| `Storage.Store.AppendRollbackLog` | src/storage.py:100-125 | no change when `rollbacks_detected == 0`; otherwise the log is the old log plus `to_dict` of the result, and the loaded log gains the result at the end |
| `Storage.Store.SaveLatestComparison` | src/storage.py:128-138 | overwrites the single slot, and reading it gives the result back |
| `ThamesFetcher.ParseIsoTimestamp` | src/fetchers/thames.py:19-27 | None for a missing or empty string, otherwise the conversion's answer |
| `ThamesFetcher.ParseStatus` | src/fetchers/thames.py:30-34 | the code is in {-1, 0, 1}; -1 for a missing, empty or unknown status; the table's code otherwise |
| `ThamesFetcher.ItemRecordsShape` | src/fetchers/thames.py:69-84 | at most one record per item; every record has source "thames", a non-empty id and `status_start == last_updated` |
| `ThamesFetcher.ItemRecordsMembers` | src/fetchers/thames.py:69-84 | a record is kept iff it is built from an item with a non-empty `uniqueId` |
| `ThamesFetcher.ItemRecordsAllKept` | src/fetchers/thames.py:69-84 | when every item has an id, the records are the items' records one for one, in item order |
| `ThamesFetcher.FetchThamesWaterData` | src/fetchers/thames.py:37-86 | fails iff every attempt failed; otherwise a "thames" snapshot at the capture time whose records are the kept items' records in order, with the record shape above |
| `NsohFetcher.ParseFeature` | src/fetchers/nsoh.py:59-82 | None iff attributes are absent or `Id` is missing or empty; otherwise the id, the raw status (-1 if absent), the four timestamps verbatim and source "nsoh" |
| `NsohFetcher.ParseFeatureOf` | src/fetchers/nsoh.py:68-82 | parsing the feature built from an "nsoh" record with an id gives the record back |
| `NsohFetcher.ParseFeaturesAppend` | src/fetchers/nsoh.py:107-110 | the records of two feature runs are the records of each, in order |
| `NsohFetcher.ParseFeaturesMembers` | src/fetchers/nsoh.py:107-110 | a record is accumulated iff some feature parses to it |
| `NsohFetcher.StopsAtFirstShortPage` | src/fetchers/nsoh.py:98-116 | the loop stops at the first page that failed or is shorter than `ARCGIS_PAGE_SIZE`; every earlier request got a full page |
| `NsohFetcher.PagedRecordsFlat` | src/fetchers/nsoh.py:98-116 | without failures, the records are the parses of all features of the requested pages, in page-then-feature order |
| `NsohFetcher.ParsePage` | src/fetchers/nsoh.py:107-110 | the inner loop accumulates the parses of one page's features; each has source "nsoh" and an id |
| `NsohFetcher.FetchNsohData` | src/fetchers/nsoh.py:85-118 | requests offsets 0, 1000, 2000, ... as many as the stopping rule allows; fails iff a request fails; otherwise an "nsoh" snapshot at the capture time with the paged records |
| `Tracker.RunCycle` | src/main.py:18-83 | code 2 iff a fetch failed, and then the store is untouched; on success both snapshots go to the history and to the latest slots; cold start writes no comparison and no log entry and returns 0; otherwise it compares the stored NSOH snapshot with the fresh one, using Thames as context, always writes the latest comparison, and returns 1 iff rollbacks were found, appending to the log exactly then |

## Left out

- HTTP requests, timeouts, retries and `time.sleep`. A fetch is modelled as
  a result: `Fetch`, an optional `ThamesPayload`, or a `PageResponse` per page.
- `datetime.now()` readings. The detection time and the capture timestamps
  are parameters.
- The ISO-8601 parsing and millisecond conversion in `parse_iso_timestamp`.
  The conversion is the parameter `toMillis`. It relies on library datetime
  and floating point.
- Floating point. `rollback_percentage` is computed as an exact real, and
  `round(x, 2)` is the parameter `round2`.
- The path formatting of `get_snapshot_path`, `ensure_directories`, and the
  JSON text written to the files. The store keeps the `to_dict` values, and
  paths come from `Store.snapshotPath`.
- A log file that does not exist and one that holds `[]` both read as the
  empty list, so the model does not tell them apart.
- Corrupt files in the data directory. Python would raise on them; the
  invariant `Store.Valid()` rules them out, as the store only writes
  serialised objects.
- JSON values outside the schema. Examples: a string `status`, a non-string
  `Id`, a null `Status`, a null `attributes`. The feed payloads are typed
  records, and `from_dict` returns None on such a value, where Python would
  build an ill-typed object or raise later.
- Tracker.RunCycle: both fetch results are inputs. "NSOH is not fetched after
  a Thames failure" is therefore stated only as: the outcome then does not
  depend on the NSOH result.
- Console output in src/main.py. The dataset-level flag only selects printed
  text there, and `RunCycle`'s exit code is stated without it.
- NsohFetcher.FetchNsohData: the feature server is assumed finite, since it
  eventually answers a short or empty page; past the end of `pages` every
  request gets an empty page. The `while True` loop of
  src/fetchers/nsoh.py:100-116 has no page cap and would not end on an
  endless run of full pages, for example from a server that ignores
  `resultOffset`; that non-termination is not modelled.
- docs/app.js (the browser page). The constants of src/config.py that the
  modelled code does not read (URLs, timeouts, retry counts, data paths, and
  the reverse status table `NSOH_STATUS_MAP`).
