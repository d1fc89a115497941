/**
 One run of the tracker (src/main.py): fetch both feeds, compare the fresh
 NSOH snapshot with the stored one, persist, and return the exit code
 2 (a fetch failed), 0 (baseline saved, or no rollback) or 1 (rollbacks).
 */
module Tracker {
  import opened Wrappers
  import opened Models
  import opened Detector
  import opened Storage

  /**
   `main`. The fetch results, the detection time and `round(x, 2)` are
   parameters; the store stands for the data directory.
   */
  method RunCycle(store: Store, thamesFetch: Fetch, nsohFetch: Fetch, detectionTime: string, round2: real -> real)
    returns (exitCode: int)
    requires store.Valid()
    modifies store
    ensures store.Valid()
    ensures exitCode in {0, 1, 2}
    // a failed fetch: code 2, nothing written
    ensures thamesFetch.FetchFailed? || nsohFetch.FetchFailed? <==> exitCode == 2
    ensures exitCode == 2 ==> unchanged(store)
    // both fetched: both snapshots go to the history and to the latest slots
    ensures thamesFetch.Fetched? && nsohFetch.Fetched? ==>
      var thames, nsoh := thamesFetch.snapshot, nsohFetch.snapshot;
      && store.snapshotFiles == old(store.snapshotFiles)
           [store.snapshotPath(thames.timestamp, thames.source) := SnapshotToDict(thames)]
           [store.snapshotPath(nsoh.timestamp, nsoh.source) := SnapshotToDict(nsoh)]
      && store.latestFiles == old(store.latestFiles)
           [LatestSlot(thames.source) := SnapshotToDict(thames)]
           [LatestSlot(nsoh.source) := SnapshotToDict(nsoh)]
      && store.LoadLatest(nsoh.source) == Some(nsoh)
      && (LatestSlot(thames.source) != LatestSlot(nsoh.source) ==> store.LoadLatest(thames.source) == Some(thames))
    // cold start: no comparison saved or logged, code 0
    ensures thamesFetch.Fetched? && nsohFetch.Fetched? && old(store.LoadLatest("nsoh")).None? ==>
      && exitCode == 0
      && store.latestComparison == old(store.latestComparison)
      && store.rollbackLog == old(store.rollbackLog)
    // comparison: stored NSOH as previous, fresh NSOH as current, fresh Thames as context
    ensures thamesFetch.Fetched? && nsohFetch.Fetched? && old(store.LoadLatest("nsoh")).Some? ==>
      var result := Comparison(old(store.LoadLatest("nsoh")).value, nsohFetch.snapshot,
                               Some(thamesFetch.snapshot), detectionTime, round2);
      && store.latestComparison == Some(ResultToDict(result))
      && store.LatestComparison() == Some(result)
      && (exitCode == 1 <==> result.rollbacksDetected > 0)
      && store.rollbackLog ==
           (if result.rollbacksDetected > 0 then old(store.rollbackLog) + [ResultToDict(result)]
            else old(store.rollbackLog))
      && store.LoadRollbackLog() ==
           (if result.rollbacksDetected > 0 then old(store.LoadRollbackLog()) + [result]
            else old(store.LoadRollbackLog()))
  {
    if thamesFetch.FetchFailed? {
      return 2;
    }
    var thames := thamesFetch.snapshot;
    if nsohFetch.FetchFailed? {
      return 2;
    }
    var nsoh := nsohFetch.snapshot;

    var previous := store.LoadLatest("nsoh");
    if previous.None? {
      var _ := store.SaveSnapshot(thames);
      var _ := store.SaveSnapshot(nsoh);
      store.SaveLatest(thames);
      store.SaveLatest(nsoh);
      return 0;
    }

    var result := DetectRollbacks(previous.value, nsoh, Some(thames), detectionTime, round2);

    var _ := store.SaveSnapshot(thames);
    var _ := store.SaveSnapshot(nsoh);
    store.SaveLatest(thames);
    store.SaveLatest(nsoh);

    store.SaveLatestComparison(result);

    if result.rollbacksDetected > 0 {
      store.AppendRollbackLog(result);
      return 1;
    } else {
      return 0;
    }
  }
}
