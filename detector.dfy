/**
 Rollback detection (src/detector.py): a location rolls back when its
 `status_start` or its `last_updated` moves strictly backwards between the
 previous and the current regulator snapshot; the events of one cycle are
 folded into a `ComparisonResult`.
 */
module Detector {
  import opened Wrappers
  import opened Models

  /** One axis of the comparison: both values present and the current one strictly earlier. */
  predicate WentBackwards(previous: Option<int>, current: Option<int>) {
    previous.Some? && current.Some? && current.value < previous.value
  }

  /** The rule of the detector: either axis going backwards is a rollback. */
  predicate RolledBack(previous: OverflowRecord, current: OverflowRecord) {
    WentBackwards(previous.statusStart, current.statusStart)
    || WentBackwards(previous.lastUpdated, current.lastUpdated)
  }

  /** `detect_record_rollback`: two independent checks, each setting the same flag. */
  function DetectRecordRollback(
    previous: OverflowRecord, current: OverflowRecord,
    thamesRecord: Option<OverflowRecord>, detectionTime: string): (e: Option<RollbackEvent>)
    ensures e.Some? <==> RolledBack(previous, current)
    ensures e.Some? ==>
      && e.value.locationId == current.locationId
      && e.value.detectedAt == detectionTime
      && e.value.previousStatusStart == previous.statusStart
      && e.value.currentStatusStart == current.statusStart
      && e.value.previousLastUpdated == previous.lastUpdated
      && e.value.currentLastUpdated == current.lastUpdated
      && e.value.thamesStatusStart == (if thamesRecord.Some? then thamesRecord.value.statusStart else None)
      && e.value.statusChanged == (previous.status != current.status)
  {
    var byStatusStart :=
      match (previous.statusStart, current.statusStart)
      case (Some(prev), Some(curr)) => curr < prev
      case _ => false;
    var byLastUpdated :=
      match (previous.lastUpdated, current.lastUpdated)
      case (Some(prev), Some(curr)) => curr < prev
      case _ => false;
    var rollbackDetected := byStatusStart || byLastUpdated;
    if !rollbackDetected then None
    else
      Some(RollbackEvent(
        current.locationId, detectionTime,
        previous.statusStart, current.statusStart,
        previous.lastUpdated, current.lastUpdated,
        match thamesRecord case Some(t) => t.statusStart case None => None,
        previous.status != current.status))
  }

  /** An axis with a value missing on either side decides nothing: only the other axis can trigger. */
  lemma MissingAxisCannotTrigger(previous: OverflowRecord, current: OverflowRecord, thames: Option<OverflowRecord>, t: string)
    ensures previous.lastUpdated.None? || current.lastUpdated.None? ==>
      (DetectRecordRollback(previous, current, thames, t).Some? <==> WentBackwards(previous.statusStart, current.statusStart))
    ensures previous.statusStart.None? || current.statusStart.None? ==>
      (DetectRecordRollback(previous, current, thames, t).Some? <==> WentBackwards(previous.lastUpdated, current.lastUpdated))
  {
  }

  // ---------------------------------------------------------------- lookup maps

  /** `{r.location_id: r for r in records}`: a later record overwrites an earlier one with the same id. */
  function ById(records: seq<OverflowRecord>): map<string, OverflowRecord> {
    if records == [] then map[]
    else
      var last := records[|records| - 1];
      ById(records[..|records| - 1])[last.locationId := last]
  }

  /** `d.get(key)` */
  function Lookup(m: map<string, OverflowRecord>, key: string): Option<OverflowRecord> {
    if key in m then Some(m[key]) else None
  }

  /** The Thames lookup map, empty when there is no Thames snapshot. */
  function ThamesIndex(thames: Option<Snapshot>): map<string, OverflowRecord> {
    match thames
    case Some(s) => ById(s.records)
    case None => map[]
  }

  /** The map's keys are the ids of the records, and each id maps to the LAST record carrying it. */
  lemma {:induction false} ByIdLastWins(records: seq<OverflowRecord>, locationId: string)
    ensures locationId in ById(records) <==> HasId(records, locationId)
    ensures locationId in ById(records) ==>
      exists k :: 0 <= k < |records| && ById(records)[locationId] == records[k]
        && records[k].locationId == locationId
        && forall j :: k < j < |records| ==> records[j].locationId != locationId
  {
    if records != [] {
      var n := |records| - 1;
      var init := records[..n];
      ByIdLastWins(init, locationId);
      if records[n].locationId != locationId {
        if HasId(records, locationId) {
          var k :| 0 <= k < |records| && records[k].locationId == locationId;
          assert init[k] == records[k];
        }
        if locationId in ById(init) {
          var k :| 0 <= k < |init| && ById(init)[locationId] == init[k]
            && init[k].locationId == locationId
            && forall j :: k < j < |init| ==> init[j].locationId != locationId;
          assert records[k] == init[k];
          forall j | k < j < |records|
            ensures records[j].locationId != locationId
          {
            if j < n {
              assert records[j] == init[j];
            }
          }
        }
      }
    }
  }

  /** With unique ids, every record is found under its own id. */
  lemma ByIdUnique(records: seq<OverflowRecord>, k: nat)
    requires UniqueIds(records)
    requires k < |records|
    ensures records[k].locationId in ById(records)
    ensures ById(records)[records[k].locationId] == records[k]
  {
    ByIdLastWins(records, records[k].locationId);
  }

  /** With unique ids the detector's map and `get_record_by_id` agree. */
  lemma LookupsAgree(records: seq<OverflowRecord>, locationId: string)
    requires UniqueIds(records)
    ensures RecordById(records, locationId) == Lookup(ById(records), locationId)
  {
    RecordByIdFirst(records, locationId);
    ByIdLastWins(records, locationId);
    if RecordById(records, locationId).Some? {
      var k :| 0 <= k < |records| && records[k] == RecordById(records, locationId).value
        && records[k].locationId == locationId
        && forall j :: 0 <= j < k ==> records[j].locationId != locationId;
      ByIdUnique(records, k);
    }
  }

  /** With a duplicated id the two lookups part ways: the scan keeps the first record, the map the last. */
  lemma LookupsDisagreeOnDuplicates()
    ensures
      var first := OverflowRecord("L1", 0, Some(1000), None, None, None, "nsoh");
      var second := OverflowRecord("L1", 1, Some(500), None, None, None, "nsoh");
      RecordById([first, second], "L1") == Some(first)
      && Lookup(ById([first, second]), "L1") == Some(second)
  {
    var first := OverflowRecord("L1", 0, Some(1000), None, None, None, "nsoh");
    var second := OverflowRecord("L1", 1, Some(500), None, None, None, "nsoh");
    assert [first, second][..1] == [first];
  }

  // ---------------------------------------------------------------- the loop over current records

  /** What one current record contributes: nothing for a new location, else the rule's event if any. */
  function EventsFor(
    previousById: map<string, OverflowRecord>, thamesById: map<string, OverflowRecord>,
    current: OverflowRecord, detectionTime: string): seq<RollbackEvent>
  {
    if current.locationId !in previousById then []
    else
      match DetectRecordRollback(previousById[current.locationId], current, Lookup(thamesById, current.locationId), detectionTime)
      case Some(e) => [e]
      case None => []
  }

  /** The events of the loop, in the iteration order of the current records. */
  function DetectedEvents(
    previousById: map<string, OverflowRecord>, thamesById: map<string, OverflowRecord>,
    records: seq<OverflowRecord>, detectionTime: string): seq<RollbackEvent>
  {
    if records == [] then []
    else
      DetectedEvents(previousById, thamesById, records[..|records| - 1], detectionTime)
      + EventsFor(previousById, thamesById, records[|records| - 1], detectionTime)
  }

  /** Events keep the order of the records: those of an earlier part come before those of a later part. */
  lemma {:induction false} DetectedEventsAppend(
    previousById: map<string, OverflowRecord>, thamesById: map<string, OverflowRecord>,
    a: seq<OverflowRecord>, b: seq<OverflowRecord>, t: string)
    ensures DetectedEvents(previousById, thamesById, a + b, t)
         == DetectedEvents(previousById, thamesById, a, t) + DetectedEvents(previousById, thamesById, b, t)
    decreases |b|
  {
    if b == [] {
      assert a + b == a;
    } else {
      var init := b[..|b| - 1];
      assert (a + b)[..|a + b| - 1] == a + init;
      assert (a + b)[|a + b| - 1] == b[|b| - 1];
      DetectedEventsAppend(previousById, thamesById, a, init, t);
    }
  }

  /** An event is produced exactly for those current records whose location is known and which roll back. */
  lemma {:induction false} DetectedEventsMembers(
    previousById: map<string, OverflowRecord>, thamesById: map<string, OverflowRecord>,
    records: seq<OverflowRecord>, t: string, e: RollbackEvent)
    ensures e in DetectedEvents(previousById, thamesById, records, t) <==>
      exists i :: 0 <= i < |records| && records[i].locationId in previousById
        && DetectRecordRollback(previousById[records[i].locationId], records[i],
                                Lookup(thamesById, records[i].locationId), t) == Some(e)
  {
    if records != [] {
      var n := |records| - 1;
      var init := records[..n];
      DetectedEventsMembers(previousById, thamesById, init, t, e);
      forall i | 0 <= i < n
        ensures records[i] == init[i]
      {
      }
    }
  }

  /** At most one event per current record. */
  lemma {:induction false} DetectedEventsBound(
    previousById: map<string, OverflowRecord>, thamesById: map<string, OverflowRecord>,
    records: seq<OverflowRecord>, t: string)
    ensures |DetectedEvents(previousById, thamesById, records, t)| <= |records|
  {
    if records != [] {
      DetectedEventsBound(previousById, thamesById, records[..|records| - 1], t);
    }
  }

  /** Every event carries the one detection time and the id of a location known from the previous snapshot. */
  lemma {:induction false} DetectedEventsStamped(
    previousById: map<string, OverflowRecord>, thamesById: map<string, OverflowRecord>,
    records: seq<OverflowRecord>, t: string)
    ensures forall e | e in DetectedEvents(previousById, thamesById, records, t) ::
      e.detectedAt == t && e.locationId in previousById
  {
    if records != [] {
      DetectedEventsStamped(previousById, thamesById, records[..|records| - 1], t);
    }
  }

  /** A record of a location missing from the previous snapshot contributes nothing, wherever it stands. */
  lemma NewLocationNoEvent(
    previousById: map<string, OverflowRecord>, thamesById: map<string, OverflowRecord>,
    before: seq<OverflowRecord>, r: OverflowRecord, after: seq<OverflowRecord>, t: string)
    requires r.locationId !in previousById
    ensures DetectedEvents(previousById, thamesById, before + [r] + after, t)
         == DetectedEvents(previousById, thamesById, before + after, t)
  {
    DetectedEventsAppend(previousById, thamesById, before + [r], after, t);
    DetectedEventsAppend(previousById, thamesById, before, [r], t);
    DetectedEventsAppend(previousById, thamesById, before, after, t);
    assert [r][..0] == [];
  }

  /** No event at all exactly when no known location rolls back. */
  lemma NoEventsIffNoRollback(
    previousById: map<string, OverflowRecord>, thamesById: map<string, OverflowRecord>,
    records: seq<OverflowRecord>, t: string)
    ensures DetectedEvents(previousById, thamesById, records, t) == [] <==>
      forall i :: 0 <= i < |records| && records[i].locationId in previousById ==>
        !RolledBack(previousById[records[i].locationId], records[i])
  {
    var events := DetectedEvents(previousById, thamesById, records, t);
    if events != [] {
      DetectedEventsMembers(previousById, thamesById, records, t, events[0]);
    } else {
      forall i | 0 <= i < |records| && records[i].locationId in previousById
        ensures !RolledBack(previousById[records[i].locationId], records[i])
      {
        var e := DetectRecordRollback(previousById[records[i].locationId], records[i],
                                      Lookup(thamesById, records[i].locationId), t);
        if e.Some? {
          DetectedEventsMembers(previousById, thamesById, records, t, e.value);
        }
      }
    }
  }

  /** Comparing a snapshot with unique ids against itself finds no rollback: both checks are strict. */
  lemma SelfComparisonNoEvents(s: Snapshot, thames: Option<Snapshot>, t: string)
    requires UniqueIds(s.records)
    ensures DetectedEvents(ById(s.records), ThamesIndex(thames), s.records, t) == []
  {
    forall i | 0 <= i < |s.records|
      ensures s.records[i].locationId in ById(s.records)
      ensures ById(s.records)[s.records[i].locationId] == s.records[i]
    {
      ByIdUnique(s.records, i);
    }
    NoEventsIffNoRollback(ById(s.records), ThamesIndex(thames), s.records, t);
  }

  /** Without unique ids a snapshot can roll back against itself: its later duplicate is the baseline. */
  lemma SelfComparisonWithDuplicates()
    ensures
      var s := Snapshot("t0", "nsoh", [OverflowRecord("L1", 0, Some(500), None, None, None, "nsoh"),
                                       OverflowRecord("L1", 0, Some(1000), None, None, None, "nsoh")]);
      |DetectedEvents(ById(s.records), map[], s.records, "t1")| == 1
  {
    var a := OverflowRecord("L1", 0, Some(500), None, None, None, "nsoh");
    var b := OverflowRecord("L1", 0, Some(1000), None, None, None, "nsoh");
    assert [a, b][..1] == [a] && [a][..0] == [];
    assert ById([a]) == map["L1" := a];
    assert ById([a, b]) == map["L1" := b];
    assert DetectedEvents(map["L1" := b], map[], [a], "t1") == EventsFor(map["L1" := b], map[], a, "t1");
    assert EventsFor(map["L1" := b], map[], a, "t1") != [];
    assert EventsFor(map["L1" := b], map[], b, "t1") == [];
  }

  // ---------------------------------------------------------------- aggregation

  /** The exact `(rollbacks / total) * 100`, or 0 for an empty snapshot. */
  function Percentage(rollbacks: nat, total: nat): (p: real)
    ensures total == 0 ==> p == 0.0
    ensures total > 0 ==> p * total as real == 100.0 * rollbacks as real
  {
    if total > 0 then (rollbacks as real / total as real) * 100.0 else 0.0
  }

  /** More than 50 percent is the same as more than half of the locations; exactly half is not dataset-level. */
  lemma DatasetLevelIff(rollbacks: nat, total: nat)
    requires rollbacks <= total
    ensures Percentage(rollbacks, total) > 50.0 <==> 2 * rollbacks > total
  {
    if total > 0 {
      HalfIff(Percentage(rollbacks, total), rollbacks as real, total as real);
      assert 2.0 * (rollbacks as real) > total as real <==> 2 * rollbacks > total;
    }
  }

  /** A percentage `p` of `t` that stands for `r` items is above 50 exactly when `r` is more than half of `t`. */
  lemma HalfIff(p: real, r: real, t: real)
    requires t > 0.0 && p * t == 100.0 * r
    ensures p > 50.0 <==> 2.0 * r > t
  {
    ScaleStrict(p, 50.0, t);
    assert p > 50.0 <==> 100.0 * r > 50.0 * t;
  }

  /** Multiplying by a positive number keeps a strict order. */
  lemma ScaleStrict(a: real, b: real, t: real)
    requires t > 0.0
    ensures a > b <==> a * t > b * t
  {
    if a > b {
      assert (a - b) * t > 0.0;
    } else {
      assert (b - a) * t >= 0.0;
    }
  }

  /**
   The flag reads the unrounded value: 10001 of 20001 is 50.0025 percent, shown as 50.0
   after rounding to two places, yet dataset-level.
   */
  lemma JustOverHalfIsDatasetLevel()
    ensures 50.0 < Percentage(10001, 20001) < 50.005
    ensures 2 * 10001 > 20001
  {
    var p := Percentage(10001, 20001);
    assert p * 20001.0 == 1000100.0;
  }

  /** The result the detector builds from its inputs; `round2` stands for `round(x, 2)`. */
  function Comparison(
    previous: Snapshot, current: Snapshot, thames: Option<Snapshot>,
    detectionTime: string, round2: real -> real): ComparisonResult
  {
    var events := DetectedEvents(ById(previous.records), ThamesIndex(thames), current.records, detectionTime);
    var total := |current.records|;
    var percentage := Percentage(|events|, total);
    ComparisonResult(detectionTime, total, |events|, round2(percentage), percentage > 50.0, events)
  }

  /** `detect_rollbacks`: build the lookup maps, walk the current records, aggregate. */
  method DetectRollbacks(
    previous: Snapshot, current: Snapshot, thames: Option<Snapshot>,
    detectionTime: string, round2: real -> real) returns (result: ComparisonResult)
    ensures result == Comparison(previous, current, thames, detectionTime, round2)
    ensures result.timestamp == detectionTime
    ensures result.totalLocations == |current.records|
    ensures result.rollbacksDetected == |result.rollbackEvents| <= result.totalLocations
    ensures result.rollbackPercentage == round2(Percentage(result.rollbacksDetected, |current.records|))
    ensures result.isDatasetLevel <==> 2 * result.rollbacksDetected > result.totalLocations
    ensures forall e | e in result.rollbackEvents ::
      e.detectedAt == result.timestamp && HasId(previous.records, e.locationId)
  {
    var previousById := ById(previous.records);
    var thamesById := map[];
    if thames.Some? {
      thamesById := ById(thames.value.records);
    }
    var events: seq<RollbackEvent> := [];
    for i := 0 to |current.records|
      invariant events == DetectedEvents(previousById, thamesById, current.records[..i], detectionTime)
    {
      var record := current.records[i];
      assert current.records[..i + 1][..i] == current.records[..i];
      if record.locationId in previousById {
        var event := DetectRecordRollback(previousById[record.locationId], record,
                                          Lookup(thamesById, record.locationId), detectionTime);
        if event.Some? {
          events := events + [event.value];
        }
      }
    }
    assert current.records[..|current.records|] == current.records;
    var total := |current.records|;
    var detected := |events|;
    var percentage := 0.0;
    if total > 0 {
      percentage := (detected as real / total as real) * 100.0;
    }
    DetectedEventsBound(previousById, thamesById, current.records, detectionTime);
    DatasetLevelIff(detected, total);
    DetectedEventsStamped(previousById, thamesById, current.records, detectionTime);
    forall e | e in events
      ensures HasId(previous.records, e.locationId)
    {
      ByIdLastWins(previous.records, e.locationId);
    }
    result := ComparisonResult(detectionTime, total, detected, round2(percentage), percentage > 50.0, events);
  }

  // ---------------------------------------------------------------- worked scenarios

  /** One location whose status start moves from 1000 to 500: one event, carrying whether the status changed. */
  lemma ScenarioOneRegression(prevStatus: int, currStatus: int, round2: real -> real)
    ensures
      var previous := Snapshot("t0", "nsoh", [OverflowRecord("L1", prevStatus, Some(1000), None, None, None, "nsoh")]);
      var current := Snapshot("t1", "nsoh", [OverflowRecord("L1", currStatus, Some(500), None, None, None, "nsoh")]);
      var c := Comparison(previous, current, None, "t2", round2);
      && c.rollbacksDetected == 1 && c.totalLocations == 1
      && c.rollbackEvents[0].locationId == "L1"
      && c.rollbackEvents[0].statusChanged == (prevStatus != currStatus)
  {
    var p := OverflowRecord("L1", prevStatus, Some(1000), None, None, None, "nsoh");
    var q := OverflowRecord("L1", currStatus, Some(500), None, None, None, "nsoh");
    assert [p][..0] == [] && [q][..0] == [];
    assert ById([p]) == map["L1" := p];
    assert DetectedEvents(map["L1" := p], map[], [q], "t2") == EventsFor(map["L1" := p], map[], q, "t2");
  }

  /** An unchanged location and a new one: no event, two locations counted. */
  lemma ScenarioNewLocation(round2: real -> real)
    ensures
      var previous := Snapshot("t0", "nsoh", [OverflowRecord("L1", 0, Some(1000), None, None, None, "nsoh")]);
      var current := Snapshot("t1", "nsoh", [OverflowRecord("L1", 0, Some(1000), None, None, None, "nsoh"),
                                             OverflowRecord("L2", 0, Some(10), None, None, None, "nsoh")]);
      var c := Comparison(previous, current, None, "t2", round2);
      c.rollbacksDetected == 0 && c.totalLocations == 2 && !c.isDatasetLevel
  {
    var l1 := OverflowRecord("L1", 0, Some(1000), None, None, None, "nsoh");
    var l2 := OverflowRecord("L2", 0, Some(10), None, None, None, "nsoh");
    assert [l1, l2][..1] == [l1] && [l1][..0] == [];
    assert ById([l1]) == map["L1" := l1];
  }

  /**
   Three of four locations regress: 75 percent, dataset-level. The percentage
   shown is `round2` of exactly 75.
   */
  lemma ScenarioThreeOfFour(round2: real -> real)
    ensures
      var previous := Snapshot("t0", "nsoh", [
        OverflowRecord("A", 0, Some(100), None, None, None, "nsoh"),
        OverflowRecord("B", 0, Some(100), None, None, None, "nsoh"),
        OverflowRecord("C", 0, None, None, None, Some(100), "nsoh"),
        OverflowRecord("D", 0, Some(100), None, None, None, "nsoh")]);
      var current := Snapshot("t1", "nsoh", [
        OverflowRecord("A", 0, Some(50), None, None, None, "nsoh"),
        OverflowRecord("B", 0, Some(50), None, None, None, "nsoh"),
        OverflowRecord("C", 0, None, None, None, Some(50), "nsoh"),
        OverflowRecord("D", 0, Some(100), None, None, None, "nsoh")]);
      var c := Comparison(previous, current, None, "t2", round2);
      c.rollbacksDetected == 3 && c.totalLocations == 4
      && c.rollbackPercentage == round2(75.0) && c.isDatasetLevel
  {
    var p := [
        OverflowRecord("A", 0, Some(100), None, None, None, "nsoh"),
        OverflowRecord("B", 0, Some(100), None, None, None, "nsoh"),
        OverflowRecord("C", 0, None, None, None, Some(100), "nsoh"),
        OverflowRecord("D", 0, Some(100), None, None, None, "nsoh")];
    var q := [
        OverflowRecord("A", 0, Some(50), None, None, None, "nsoh"),
        OverflowRecord("B", 0, Some(50), None, None, None, "nsoh"),
        OverflowRecord("C", 0, None, None, None, Some(50), "nsoh"),
        OverflowRecord("D", 0, Some(100), None, None, None, "nsoh")];
    assert p[..3] == [p[0], p[1], p[2]] && q[..3] == [q[0], q[1], q[2]];
    assert [p[0], p[1], p[2]][..2] == [p[0], p[1]] && [q[0], q[1], q[2]][..2] == [q[0], q[1]];
    assert [p[0], p[1]][..1] == [p[0]] && [q[0], q[1]][..1] == [q[0]];
    assert [p[0]][..0] == [] && [q[0]][..0] == [];
    assert ById([p[0]]) == map["A" := p[0]];
    assert ById([p[0], p[1]]) == map["A" := p[0], "B" := p[1]];
    assert ById([p[0], p[1], p[2]]) == map["A" := p[0], "B" := p[1], "C" := p[2]];
    var m := map["A" := p[0], "B" := p[1], "C" := p[2], "D" := p[3]];
    assert ById(p) == m;
    assert EventsFor(m, map[], q[0], "t2") != [];
    assert EventsFor(m, map[], q[1], "t2") != [];
    assert EventsFor(m, map[], q[2], "t2") != [];
    assert EventsFor(m, map[], q[3], "t2") == [];
    assert |DetectedEvents(m, map[], [q[0]], "t2")| == 1;
    assert |DetectedEvents(m, map[], [q[0], q[1]], "t2")| == 2;
    assert |DetectedEvents(m, map[], [q[0], q[1], q[2]], "t2")| == 3;
    assert |DetectedEvents(m, map[], q, "t2")| == 3;
    assert Percentage(3, 4) == 75.0;
  }
}
