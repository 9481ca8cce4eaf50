/**
 * The scheduled handler itself, in the imperative form of its source:
 * a nested loop that fills the active-instance set and a loop over the
 * snapshot listing that issues lookups and deletes one after another.
 */
module StaleSnapshotHandler {
  import opened Wrappers
  import opened Ec2
  import opened Cleanup
  import opened CleanupProperties

  /** The ids of the instances of reservations `rs[..i]`. */
  ghost function IdsBefore(rs: seq<Reservation>, i: nat): set<string>
    requires i <= |rs|
  {
    set a, b | 0 <= a < i && 0 <= b < |InstancesOf(rs[a])| :: InstancesOf(rs[a])[b].instanceId
  }

  /** The nested loop that builds `activeInstanceIds`. */
  method CollectActiveInstanceIds(instancesResponse: InstancesResponse) returns (ids: set<string>)
    ensures ids == ActiveInstanceIds(instancesResponse)
  {
    var reservations := ReservationsOf(instancesResponse);
    ids := {};
    var i := 0;
    while i < |reservations|
      invariant 0 <= i <= |reservations|
      invariant ids == IdsBefore(reservations, i)
    {
      var instances := InstancesOf(reservations[i]);
      var j := 0;
      while j < |instances|
        invariant 0 <= j <= |instances|
        invariant ids == IdsBefore(reservations, i) + set b | 0 <= b < j :: instances[b].instanceId
      {
        ids := ids + {instances[j].instanceId};
        j := j + 1;
      }
      assert IdsBefore(reservations, i + 1) == IdsBefore(reservations, i) + set b | 0 <= b < |instances| :: instances[b].instanceId;
      i := i + 1;
    }
  }

  /**
   * One iteration of the handler's loop (the body of the `for`): it returns
   * the requests it sends, the snapshot it deletes, the lines it logs, and
   * the error of a delete that throws outside the `try`, if one does.
   */
  method VisitSnapshot(snapshot: Snapshot, ec2: Provider)
    returns (requests: seq<Request>, deleted: seq<string>, log: seq<LogEntry>, failure: Option<Error>)
    ensures Run(requests, deleted, log, failure) == Visit(snapshot, ec2)
  {
    var snapshotId := snapshot.snapshotId;
    requests, deleted, log, failure := [], [], [], None;
    if !HasVolumeId(snapshot) {
      requests := requests + [DeleteSnapshot(snapshotId)];
      var d := ec2.deleteSnapshot(snapshotId);
      if d.DeleteFailed? {
        failure := Some(d.error);
        return;
      }
      deleted := deleted + [snapshotId];
      log := log + [Deleted(snapshotId, NoVolumeId)];
      return;
    }
    var volumeId := snapshot.volumeId.value;
    // try
    var caught: Option<Error> := None;
    var deleteFailed := false;
    requests := requests + [DescribeVolumes(volumeId)];
    var lookup := ec2.describeVolume(volumeId);
    if lookup.LookupFailed? {
      caught := Some(lookup.error);
    } else {
      var volume := FirstVolume(lookup.response);
      if !IsAttached(volume) {
        requests := requests + [DeleteSnapshot(snapshotId)];
        var d := ec2.deleteSnapshot(snapshotId);
        if d.DeleteFailed? {
          caught := Some(d.error);
          deleteFailed := true;
        } else {
          deleted := deleted + [snapshotId];
          log := log + [Deleted(snapshotId, NotAttached)];
        }
      }
    }
    // catch
    if caught.Some? {
      var err := caught.value;
      if IsVolumeNotFound(err) {
        requests := requests + [DeleteSnapshot(snapshotId)];
        var d := if deleteFailed then ec2.retryDelete(snapshotId) else ec2.deleteSnapshot(snapshotId);
        if d.DeleteFailed? {
          failure := Some(d.error);
          return;
        }
        deleted := deleted + [snapshotId];
        log := log + [Deleted(snapshotId, VolumeMissing)];
      } else {
        log := log + [CheckFailed(snapshotId, err)];
      }
    }
  }

  /**
   * The handler. The two listing responses are its inputs; `ec2` answers the
   * per-snapshot requests. It returns what it sent, deleted and logged along
   * with its outcome. The active-instance set is computed and never read, so
   * nothing it returns depends on `instancesResponse`.
   */
  method Handler(snapshotsResponse: SnapshotsResponse, instancesResponse: InstancesResponse, ec2: Provider)
    returns (outcome: Outcome, requests: seq<Request>, deleted: seq<string>, log: seq<LogEntry>)
    ensures var run := Sweep(Listed(snapshotsResponse), ec2);
      && requests == run.requests && deleted == run.deleted && log == run.log
      && outcome == OutcomeOf(run)
    ensures snapshotsResponse.snapshots.None? ==>
      requests == [] && deleted == [] && log == [] && outcome == Completed(COMPLETED_STATUS)
  {
    var activeInstanceIds := CollectActiveInstanceIds(instancesResponse);
    var snapshots := Listed(snapshotsResponse);
    requests, deleted, log := [], [], [];
    var i := 0;
    while i < |snapshots|
      invariant 0 <= i <= |snapshots|
      invariant Then(Run(requests, deleted, log, None), Sweep(snapshots[i..], ec2)) == Sweep(snapshots, ec2)
    {
      ghost var before := Run(requests, deleted, log, None);
      SweepUnfolds(snapshots, i, ec2);
      var stepRequests, stepDeleted, stepLog, failure := VisitSnapshot(snapshots[i], ec2);
      requests, deleted, log := requests + stepRequests, deleted + stepDeleted, log + stepLog;
      if failure.Some? {
        outcome := Aborted(failure.value);
        return;
      }
      ThenAssociates(before, Visit(snapshots[i], ec2), Sweep(snapshots[i + 1..], ec2));
      i := i + 1;
    }
    outcome := Completed(COMPLETED_STATUS);
  }
}
