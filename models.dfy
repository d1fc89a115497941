/**
 The data model of src/models.py: overflow records, rollback events,
 comparison results and snapshots, with their `to_dict`/`from_dict`
 serialisations and the lookup of a record by location id.

 `from_dict` returns `None` where Python raises (a missing or unexpected key,
 a value that is not a JSON object).
 */
module Models {
  import opened Wrappers
  import opened Json

  /** One storm-overflow location's status; timestamps are Unix milliseconds. */
  datatype OverflowRecord = OverflowRecord(
    locationId: string,
    status: int,
    statusStart: Option<int>,
    latestEventStart: Option<int>,
    latestEventEnd: Option<int>,
    lastUpdated: Option<int>,
    source: string)

  /** Evidence that one location's timestamps went backwards. */
  datatype RollbackEvent = RollbackEvent(
    locationId: string,
    detectedAt: string,
    previousStatusStart: Option<int>,
    currentStatusStart: Option<int>,
    previousLastUpdated: Option<int>,
    currentLastUpdated: Option<int>,
    thamesStatusStart: Option<int>,
    statusChanged: bool)

  /** The verdict of one detection cycle. */
  datatype ComparisonResult = ComparisonResult(
    timestamp: string,
    totalLocations: int,
    rollbacksDetected: int,
    rollbackPercentage: real,
    isDatasetLevel: bool,
    rollbackEvents: seq<RollbackEvent>)

  /** A timestamped collection of records from one feed. */
  datatype Snapshot = Snapshot(timestamp: string, source: string, records: seq<OverflowRecord>)

  /** What a feed fetcher hands back: a snapshot, or the exception left after its retries. */
  datatype Fetch = Fetched(snapshot: Snapshot) | FetchFailed

  // ---------------------------------------------------------------- OverflowRecord

  /** The field names `asdict` writes, which `cls(**data)` accepts exactly. */
  const RECORD_KEYS: set<string> :=
    {"location_id", "status", "status_start", "latest_event_start", "latest_event_end", "last_updated", "source"}

  function RecordToDict(r: OverflowRecord): Value {
    Obj(map[
      "location_id" := Str(r.locationId),
      "status" := Int(r.status),
      "status_start" := FromOptInt(r.statusStart),
      "latest_event_start" := FromOptInt(r.latestEventStart),
      "latest_event_end" := FromOptInt(r.latestEventEnd),
      "last_updated" := FromOptInt(r.lastUpdated),
      "source" := Str(r.source)])
  }

  function RecordFromDict(d: Value): Option<OverflowRecord> {
    if !d.Obj? || d.fields.Keys != RECORD_KEYS then None
    else
      var f := d.fields;
      match (ToStr(f["location_id"]), ToInt(f["status"]), ToOptInt(f["status_start"]),
             ToOptInt(f["latest_event_start"]), ToOptInt(f["latest_event_end"]),
             ToOptInt(f["last_updated"]), ToStr(f["source"]))
      case (Some(id), Some(status), Some(ss), Some(les), Some(lee), Some(lu), Some(src)) =>
        Some(OverflowRecord(id, status, ss, les, lee, lu, src))
      case _ => None
  }

  lemma RecordRoundTrip(r: OverflowRecord)
    ensures RecordFromDict(RecordToDict(r)) == Some(r)
  {
  }

  /** The other direction: a dictionary that deserialises is exactly the serialisation of its record. */
  lemma RecordDictRoundTrip(d: Value)
    requires RecordFromDict(d).Some?
    ensures RecordToDict(RecordFromDict(d).value) == d
  {
    var e := RecordToDict(RecordFromDict(d).value);
    assert e.fields.Keys == d.fields.Keys;
  }

  // ---------------------------------------------------------------- RollbackEvent

  const EVENT_KEYS: set<string> :=
    {"location_id", "detected_at", "previous_status_start", "current_status_start",
     "previous_last_updated", "current_last_updated", "thames_status_start", "status_changed"}

  function EventToDict(e: RollbackEvent): Value {
    Obj(map[
      "location_id" := Str(e.locationId),
      "detected_at" := Str(e.detectedAt),
      "previous_status_start" := FromOptInt(e.previousStatusStart),
      "current_status_start" := FromOptInt(e.currentStatusStart),
      "previous_last_updated" := FromOptInt(e.previousLastUpdated),
      "current_last_updated" := FromOptInt(e.currentLastUpdated),
      "thames_status_start" := FromOptInt(e.thamesStatusStart),
      "status_changed" := Bool(e.statusChanged)])
  }

  function EventFromDict(d: Value): Option<RollbackEvent> {
    if !d.Obj? || d.fields.Keys != EVENT_KEYS then None
    else
      var f := d.fields;
      match (ToStr(f["location_id"]), ToStr(f["detected_at"]),
             ToOptInt(f["previous_status_start"]), ToOptInt(f["current_status_start"]),
             ToOptInt(f["previous_last_updated"]), ToOptInt(f["current_last_updated"]),
             ToOptInt(f["thames_status_start"]), ToBool(f["status_changed"]))
      case (Some(id), Some(at), Some(pss), Some(css), Some(plu), Some(clu), Some(tss), Some(changed)) =>
        Some(RollbackEvent(id, at, pss, css, plu, clu, tss, changed))
      case _ => None
  }

  lemma EventRoundTrip(e: RollbackEvent)
    ensures EventFromDict(EventToDict(e)) == Some(e)
  {
  }

  lemma EventDictRoundTrip(d: Value)
    requires EventFromDict(d).Some?
    ensures EventToDict(EventFromDict(d).value) == d
  {
    var e := EventToDict(EventFromDict(d).value);
    assert e.fields.Keys == d.fields.Keys;
  }

  // ---------------------------------------------------------------- ComparisonResult

  function ResultToDict(c: ComparisonResult): Value {
    Obj(map[
      "timestamp" := Str(c.timestamp),
      "total_locations" := Int(c.totalLocations),
      "rollbacks_detected" := Int(c.rollbacksDetected),
      "rollback_percentage" := Num(c.rollbackPercentage),
      "is_dataset_level" := Bool(c.isDatasetLevel),
      "rollback_events" := Arr(EncodeList(c.rollbackEvents, EventToDict))])
  }

  /** Reads the named keys (other keys are ignored); a missing "rollback_events" is an empty list. */
  function ResultFromDict(d: Value): Option<ComparisonResult> {
    if !d.Obj? then None
    else
      var f := d.fields;
      var events :=
        if "rollback_events" !in f then Some([])
        else if f["rollback_events"].Arr? then DecodeList(f["rollback_events"].items, EventFromDict)
        else None;
      if "timestamp" !in f || "total_locations" !in f || "rollbacks_detected" !in f
         || "rollback_percentage" !in f || "is_dataset_level" !in f then None
      else
        match (events, ToStr(f["timestamp"]), ToInt(f["total_locations"]), ToInt(f["rollbacks_detected"]),
               ToNum(f["rollback_percentage"]), ToBool(f["is_dataset_level"]))
        case (Some(es), Some(ts), Some(total), Some(detected), Some(pct), Some(dataset)) =>
          Some(ComparisonResult(ts, total, detected, pct, dataset, es))
        case _ => None
  }

  lemma {:induction false} ResultRoundTrip(c: ComparisonResult)
    ensures ResultFromDict(ResultToDict(c)) == Some(c)
  {
    forall e: RollbackEvent ensures EventFromDict(EventToDict(e)) == Some(e) {
      EventRoundTrip(e);
    }
    DecodeEncodeList(c.rollbackEvents, EventToDict, EventFromDict);
  }

  /** A stored result without the "rollback_events" key reads back with no events. */
  lemma ResultWithoutEvents(ts: string, total: int, detected: int, pct: real, dataset: bool)
    ensures ResultFromDict(Obj(map[
      "timestamp" := Str(ts), "total_locations" := Int(total), "rollbacks_detected" := Int(detected),
      "rollback_percentage" := Num(pct), "is_dataset_level" := Bool(dataset)]))
      == Some(ComparisonResult(ts, total, detected, pct, dataset, []))
  {
  }

  // ---------------------------------------------------------------- Snapshot

  function SnapshotToDict(s: Snapshot): Value {
    Obj(map[
      "timestamp" := Str(s.timestamp),
      "source" := Str(s.source),
      "records" := Arr(EncodeList(s.records, RecordToDict))])
  }

  /** Reads "timestamp" and "source" (other keys are ignored); a missing "records" is an empty list. */
  function SnapshotFromDict(d: Value): Option<Snapshot> {
    if !d.Obj? then None
    else
      var f := d.fields;
      var records :=
        if "records" !in f then Some([])
        else if f["records"].Arr? then DecodeList(f["records"].items, RecordFromDict)
        else None;
      if "timestamp" !in f || "source" !in f then None
      else
        match (records, ToStr(f["timestamp"]), ToStr(f["source"]))
        case (Some(rs), Some(ts), Some(src)) => Some(Snapshot(ts, src, rs))
        case _ => None
  }

  lemma {:induction false} SnapshotRoundTrip(s: Snapshot)
    ensures SnapshotFromDict(SnapshotToDict(s)) == Some(s)
  {
    forall r: OverflowRecord ensures RecordFromDict(RecordToDict(r)) == Some(r) {
      RecordRoundTrip(r);
    }
    DecodeEncodeList(s.records, RecordToDict, RecordFromDict);
  }

  /** A stored snapshot without the "records" key reads back with no records. */
  lemma SnapshotWithoutRecords(ts: string, src: string)
    ensures SnapshotFromDict(Obj(map["timestamp" := Str(ts), "source" := Str(src)])) == Some(Snapshot(ts, src, []))
  {
  }

  // ---------------------------------------------------------------- lookup by id

  /** Some record of `records` has this location id. */
  ghost predicate HasId(records: seq<OverflowRecord>, locationId: string) {
    exists k :: 0 <= k < |records| && records[k].locationId == locationId
  }

  /** Location ids are unique within the records, as a snapshot's should be. */
  ghost predicate UniqueIds(records: seq<OverflowRecord>) {
    forall i, j :: 0 <= i < j < |records| ==> records[i].locationId != records[j].locationId
  }

  /** `Snapshot.get_record_by_id`: a linear scan that stops at the first match. */
  function RecordById(records: seq<OverflowRecord>, locationId: string): Option<OverflowRecord> {
    if records == [] then None
    else if records[0].locationId == locationId then Some(records[0])
    else RecordById(records[1..], locationId)
  }

  /** The scan returns the first record with the id, and `None` exactly when no record has it. */
  lemma {:induction false} RecordByIdFirst(records: seq<OverflowRecord>, locationId: string)
    ensures RecordById(records, locationId).None? <==> !HasId(records, locationId)
    ensures RecordById(records, locationId).Some? ==>
      exists k :: 0 <= k < |records| && records[k] == RecordById(records, locationId).value
        && records[k].locationId == locationId
        && forall j :: 0 <= j < k ==> records[j].locationId != locationId
  {
    if records != [] && records[0].locationId != locationId {
      var rest := records[1..];
      RecordByIdFirst(rest, locationId);
      if HasId(records, locationId) {
        var k :| 0 <= k < |records| && records[k].locationId == locationId;
        assert rest[k - 1] == records[k];
      }
      if RecordById(rest, locationId).Some? {
        var k :| 0 <= k < |rest| && rest[k] == RecordById(rest, locationId).value
          && rest[k].locationId == locationId
          && forall j :: 0 <= j < k ==> rest[j].locationId != locationId;
        assert records[k + 1] == rest[k];
        forall j | 0 <= j < k + 1
          ensures records[j].locationId != locationId
        {
          if j > 0 {
            assert records[j] == rest[j - 1];
          }
        }
      } else {
        forall k | 0 <= k < |records|
          ensures records[k].locationId != locationId
        {
          if k > 0 {
            assert records[k] == rest[k - 1];
          }
        }
      }
    }
  }
}
