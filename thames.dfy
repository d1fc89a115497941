/**
 The record construction of src/fetchers/thames.py: status strings become
 integer codes, ISO timestamps become Unix milliseconds, and items without
 an id are dropped.
 */
module ThamesFetcher {
  import opened Wrappers
  import opened Models
  import Config

  /**
   One element of the response's "items". Each field is `None` when the key is
   absent or null; a null "uniqueId" and an absent one are both dropped later,
   so both read as `None` here.
   */
  datatype ThamesItem = ThamesItem(
    uniqueId: Option<string>,
    alertStatus: Option<string>,
    statusChanged: Option<string>,
    mostRecentDischargeAlertStart: Option<string>,
    mostRecentDischargeAlertStop: Option<string>)

  /** The decoded response body; `items` is `None` when the key is absent. */
  datatype ThamesPayload = ThamesPayload(items: Option<seq<ThamesItem>>)

  /**
   `parse_iso_timestamp`. `toMillis` is the ISO-8601 parse and millisecond
   conversion, `None` where it raises.
   */
  function ParseIsoTimestamp(isoString: Option<string>, toMillis: string -> Option<int>): (r: Option<int>)
    ensures isoString.None? || isoString == Some("") ==> r.None?
    ensures isoString.Some? && isoString.value != "" ==> r == toMillis(isoString.value)
  {
    match isoString
    case None => None
    case Some(s) => if s == "" then None else toMillis(s)
  }

  /** `parse_status`: unknown, empty and missing statuses count as offline. */
  function ParseStatus(statusString: Option<string>): (r: int)
    ensures -1 <= r <= 1
    ensures statusString.None? || statusString == Some("") ==> r == -1
    ensures statusString.Some? && statusString.value in Config.THAMES_STATUS_MAP ==>
      r == Config.THAMES_STATUS_MAP[statusString.value]
    ensures statusString.Some? && statusString.value !in Config.THAMES_STATUS_MAP ==> r == -1
  {
    match statusString
    case None => -1
    case Some(s) =>
      if s == "" then -1
      else if s in Config.THAMES_STATUS_MAP then Config.THAMES_STATUS_MAP[s] else -1
  }

  /** The record built for one item, kept or not. */
  function ItemRecord(item: ThamesItem, toMillis: string -> Option<int>): OverflowRecord {
    OverflowRecord(
      item.uniqueId.GetOr(""),
      ParseStatus(item.alertStatus),
      ParseIsoTimestamp(item.statusChanged, toMillis),
      ParseIsoTimestamp(item.mostRecentDischargeAlertStart, toMillis),
      ParseIsoTimestamp(item.mostRecentDischargeAlertStop, toMillis),
      ParseIsoTimestamp(item.statusChanged, toMillis),
      "thames")
  }

  /** Items whose record has a non-empty location id are kept. */
  predicate Kept(item: ThamesItem) {
    item.uniqueId.Some? && item.uniqueId.value != ""
  }

  /** The records of the loop: one per kept item, in item order. */
  function ItemRecords(items: seq<ThamesItem>, toMillis: string -> Option<int>): seq<OverflowRecord> {
    if items == [] then []
    else
      var last := items[|items| - 1];
      ItemRecords(items[..|items| - 1], toMillis) + (if Kept(last) then [ItemRecord(last, toMillis)] else [])
  }

  /** Every kept record is a Thames record with an id, whose status start and last update are one value. */
  lemma {:induction false} ItemRecordsShape(items: seq<ThamesItem>, toMillis: string -> Option<int>)
    ensures |ItemRecords(items, toMillis)| <= |items|
    ensures forall r | r in ItemRecords(items, toMillis) ::
      r.source == "thames" && r.locationId != "" && r.statusStart == r.lastUpdated
  {
    if items != [] {
      ItemRecordsShape(items[..|items| - 1], toMillis);
    }
  }

  /** A record is produced exactly for the kept items. */
  lemma {:induction false} ItemRecordsMembers(items: seq<ThamesItem>, toMillis: string -> Option<int>, r: OverflowRecord)
    ensures r in ItemRecords(items, toMillis) <==>
      exists i :: 0 <= i < |items| && Kept(items[i]) && r == ItemRecord(items[i], toMillis)
  {
    if items != [] {
      var n := |items| - 1;
      ItemRecordsMembers(items[..n], toMillis, r);
      forall i | 0 <= i < n
        ensures items[i] == items[..n][i]
      {
      }
    }
  }

  /** When every item has an id, nothing is dropped and the records follow the items one for one. */
  lemma {:induction false} ItemRecordsAllKept(items: seq<ThamesItem>, toMillis: string -> Option<int>)
    requires forall i :: 0 <= i < |items| ==> Kept(items[i])
    ensures |ItemRecords(items, toMillis)| == |items|
    ensures forall i :: 0 <= i < |items| ==> ItemRecords(items, toMillis)[i] == ItemRecord(items[i], toMillis)
  {
    if items != [] {
      var n := |items| - 1;
      forall i | 0 <= i < n
        ensures Kept(items[..n][i])
      {
        assert items[..n][i] == items[i];
      }
      ItemRecordsAllKept(items[..n], toMillis);
    }
  }

  /**
   `fetch_thames_water_data` after its retry loop: `response` is `None` when
   every attempt failed. `timestamp` is the capture time.
   */
  method FetchThamesWaterData(response: Option<ThamesPayload>, timestamp: string, toMillis: string -> Option<int>)
    returns (result: Fetch)
    ensures response.None? <==> result.FetchFailed?
    ensures result.Fetched? ==>
      && result.snapshot.timestamp == timestamp
      && result.snapshot.source == "thames"
      && result.snapshot.records == ItemRecords(response.value.items.GetOr([]), toMillis)
      && forall r | r in result.snapshot.records ::
           r.source == "thames" && r.locationId != "" && r.statusStart == r.lastUpdated
  {
    if response.None? {
      return FetchFailed;
    }
    var items := response.value.items.GetOr([]);
    var records: seq<OverflowRecord> := [];
    for i := 0 to |items|
      invariant records == ItemRecords(items[..i], toMillis)
    {
      assert items[..i + 1][..i] == items[..i];
      var record := ItemRecord(items[i], toMillis);
      if record.locationId != "" {
        records := records + [record];
      }
    }
    assert items[..|items|] == items;
    ItemRecordsShape(items, toMillis);
    result := Fetched(Snapshot(timestamp, "thames", records));
  }
}
