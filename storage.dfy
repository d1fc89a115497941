/**
 The persistence layer of src/storage.py as an in-memory store: the snapshot
 history and the two "latest" files hold the JSON written by `to_dict`, the
 latest comparison is one overwritable slot, and the rollback log is a JSON
 list that grows by appending.
 */
module Storage {
  import opened Wrappers
  import opened Json
  import opened Models
  import Config

  /** The "latest" file a source is saved to and loaded from: anything but "thames" shares the nsoh file. */
  function LatestSlot(source: string): string {
    if source == "thames" then Config.THAMES_LATEST_FILE else Config.NSOH_LATEST_FILE
  }

  class Store {
    /** `get_snapshot_path`: the history file for a (timestamp, source) pair. */
    const snapshotPath: (string, string) -> string
    /** History files, by path. */
    var snapshotFiles: map<string, Value>
    /** The "latest" files, by file name. */
    var latestFiles: map<string, Value>
    /** The latest-comparison file, if written. */
    var latestComparison: Option<Value>
    /** The rollback log's entries; a log file that does not exist reads as the empty list. */
    var rollbackLog: seq<Value>

    /** Every file the loaders read deserialises. */
    ghost predicate Valid()
      reads this
    {
      && (forall slot | slot in latestFiles :: SnapshotFromDict(latestFiles[slot]).Some?)
      && (latestComparison.Some? ==> ResultFromDict(latestComparison.value).Some?)
      && DecodeList(rollbackLog, ResultFromDict).Some?
    }

    /** A store in which nothing has been written yet. */
    constructor (snapshotPath: (string, string) -> string)
      ensures Valid()
      ensures this.snapshotPath == snapshotPath
      ensures snapshotFiles == map[] && latestFiles == map[]
      ensures latestComparison == None && rollbackLog == []
    {
      this.snapshotPath := snapshotPath;
      snapshotFiles := map[];
      latestFiles := map[];
      latestComparison := None;
      rollbackLog := [];
    }

    /** `load_latest`: `None` when the source's file was never written, else its snapshot. */
    function LoadLatest(source: string): (s: Option<Snapshot>)
      requires Valid()
      reads this
      ensures s.None? <==> LatestSlot(source) !in latestFiles
      ensures s.Some? ==> SnapshotFromDict(latestFiles[LatestSlot(source)]) == s
    {
      var slot := LatestSlot(source);
      if slot !in latestFiles then None else Some(SnapshotFromDict(latestFiles[slot]).value)
    }

    /** `load_rollback_log`: the logged results, decoded one by one in append order. */
    function LoadRollbackLog(): (log: seq<ComparisonResult>)
      requires Valid()
      reads this
      ensures |log| == |rollbackLog|
      ensures forall i :: 0 <= i < |log| ==> ResultFromDict(rollbackLog[i]) == Some(log[i])
    {
      DecodeList(rollbackLog, ResultFromDict).value
    }

    /** The result held in the latest-comparison slot. */
    function LatestComparison(): (r: Option<ComparisonResult>)
      requires Valid()
      reads this
      ensures r.None? <==> latestComparison.None?
      ensures r.Some? ==> ResultFromDict(latestComparison.value) == r
    {
      if latestComparison.None? then None else ResultFromDict(latestComparison.value)
    }

    /** `save_snapshot`: writes the snapshot's dictionary to its history path and returns the path. */
    method SaveSnapshot(snapshot: Snapshot) returns (path: string)
      requires Valid()
      modifies this
      ensures Valid()
      ensures path == snapshotPath(snapshot.timestamp, snapshot.source)
      ensures snapshotFiles == old(snapshotFiles)[path := SnapshotToDict(snapshot)]
      ensures latestFiles == old(latestFiles)
      ensures latestComparison == old(latestComparison) && rollbackLog == old(rollbackLog)
    {
      path := snapshotPath(snapshot.timestamp, snapshot.source);
      snapshotFiles := snapshotFiles[path := SnapshotToDict(snapshot)];
    }

    /** `save_latest`: overwrites the slot of the snapshot's source; a later load of that source gives it back. */
    method SaveLatest(snapshot: Snapshot)
      requires Valid()
      modifies this
      ensures Valid()
      ensures latestFiles == old(latestFiles)[LatestSlot(snapshot.source) := SnapshotToDict(snapshot)]
      ensures LoadLatest(snapshot.source) == Some(snapshot)
      ensures forall source | LatestSlot(source) != LatestSlot(snapshot.source) ::
        LoadLatest(source) == old(LoadLatest(source))
      ensures snapshotFiles == old(snapshotFiles)
      ensures latestComparison == old(latestComparison) && rollbackLog == old(rollbackLog)
    {
      SnapshotRoundTrip(snapshot);
      latestFiles := latestFiles[LatestSlot(snapshot.source) := SnapshotToDict(snapshot)];
    }

    /** `append_rollback_log`: nothing for a result without rollbacks, else one entry at the end. */
    method AppendRollbackLog(result: ComparisonResult)
      requires Valid()
      modifies this
      ensures Valid()
      ensures result.rollbacksDetected == 0 ==> rollbackLog == old(rollbackLog)
      ensures result.rollbacksDetected != 0 ==> rollbackLog == old(rollbackLog) + [ResultToDict(result)]
      ensures LoadRollbackLog() ==
        if result.rollbacksDetected == 0 then old(LoadRollbackLog()) else old(LoadRollbackLog()) + [result]
      ensures snapshotFiles == old(snapshotFiles) && latestFiles == old(latestFiles)
      ensures latestComparison == old(latestComparison)
    {
      if result.rollbacksDetected == 0 {
        return;
      }
      ResultRoundTrip(result);
      DecodeListAppend(rollbackLog, ResultToDict(result), ResultFromDict);
      rollbackLog := rollbackLog + [ResultToDict(result)];
    }

    /** `save_latest_comparison`: overwrites the single slot; reading it gives the result back. */
    method SaveLatestComparison(result: ComparisonResult)
      requires Valid()
      modifies this
      ensures Valid()
      ensures latestComparison == Some(ResultToDict(result))
      ensures LatestComparison() == Some(result)
      ensures snapshotFiles == old(snapshotFiles) && latestFiles == old(latestFiles)
      ensures rollbackLog == old(rollbackLog)
    {
      ResultRoundTrip(result);
      latestComparison := Some(ResultToDict(result));
    }
  }
}
