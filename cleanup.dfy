/**
 * The keep-or-delete decision of the stale-snapshot handler and the meaning
 * of one sweep over the snapshot listing, as pure functions.
 */
module Cleanup {
  import opened Wrappers
  import opened Ec2

  /** The error name or code that marks a volume as gone. */
  const VOLUME_NOT_FOUND := "InvalidVolume.NotFound"

  /** The status the handler returns when the sweep runs to the end. */
  const COMPLETED_STATUS := "Completed snapshot cleanup"

  /** Why a snapshot was deleted: the three log messages of the handler. */
  datatype Reason = NoVolumeId | NotAttached | VolumeMissing

  /** The decision for one snapshot, given the answer to its volume lookup. */
  datatype Verdict = Delete(reason: Reason) | Keep | KeepAfterError(error: Error)

  /** A log line, reduced to its tag and the snapshot id. */
  datatype LogEntry =
    | Deleted(snapshotId: string, reason: Reason)
    | CheckFailed(snapshotId: string, error: Error)

  /**
   * What (part of) a sweep did: the requests it sent, the snapshots it
   * deleted, the lines it logged, and the error that aborted it, if any.
   */
  datatype Run = Run(requests: seq<Request>, deleted: seq<string>, log: seq<LogEntry>, aborted: Option<Error>)

  /** The value the handler returns, or the error it throws. */
  datatype Outcome = Completed(status: string) | Aborted(error: Error)

  /** JavaScript truthiness of `snapshot.VolumeId`: present and not the empty string. */
  predicate HasVolumeId(s: Snapshot)
  {
    s.volumeId.Some? && s.volumeId.value != ""
  }

  /** `volumeResponse.Volumes?.[0]`. */
  function FirstVolume(r: VolumesResponse): (v: Option<Volume>)
    ensures v.Some? <==> r.volumes.Some? && |r.volumes.value| > 0
    ensures v.Some? ==> v.value == r.volumes.value[0]
  {
    match r.volumes
    case None => None
    case Some(vs) => if |vs| == 0 then None else Some(vs[0])
  }

  /** The negation of the delete test: a volume with a non-empty `Attachments` list. */
  predicate IsAttached(v: Option<Volume>)
  {
    v.Some? && v.value.attachments.Some? && |v.value.attachments.value| > 0
  }

  /** The not-found test on a caught error: its `name` or its `Code`. */
  predicate IsVolumeNotFound(e: Error)
  {
    e.name == Some(VOLUME_NOT_FOUND) || e.code == Some(VOLUME_NOT_FOUND)
  }

  /**
   * The eligibility decision for one snapshot, given how volume lookups are
   * answered. Only the presence of an attachment is tested, not the state of
   * the instance it belongs to.
   */
  function Eligibility(s: Snapshot, describe: string -> LookupResult): Verdict
  {
    if !HasVolumeId(s) then Delete(NoVolumeId)
    else match describe(s.volumeId.value)
      case LookupFailed(e) => if IsVolumeNotFound(e) then Delete(VolumeMissing) else KeepAfterError(e)
      case Described(r) => if IsAttached(FirstVolume(r)) then Keep else Delete(NotAttached)
  }

  /** A delete outside any error handler, answered by `answer`: success logs `reason`, failure aborts. */
  function UnguardedDelete(id: string, reason: Reason, answer: DeleteResult, before: seq<Request>): Run
  {
    var requests := before + [DeleteSnapshot(id)];
    match answer
    case DeleteOk => Run(requests, [id], [Deleted(id, reason)], None)
    case DeleteFailed(e) => Run(requests, [], [], Some(e))
  }

  /**
   * The `catch` block: delete on a not-found error, otherwise log the error.
   * `answer` is what that delete gets.
   */
  function Catch(id: string, e: Error, answer: DeleteResult, before: seq<Request>): Run
  {
    if IsVolumeNotFound(e) then UnguardedDelete(id, VolumeMissing, answer, before)
    else Run(before, [], [CheckFailed(id, e)], None)
  }

  /**
   * One iteration of the handler's loop. The delete of an unattached volume's
   * snapshot sits inside the `try`, so its failure reaches the `catch`.
   */
  function Visit(s: Snapshot, p: Provider): Run
  {
    var id := s.snapshotId;
    if !HasVolumeId(s) then UnguardedDelete(id, NoVolumeId, p.deleteSnapshot(id), [])
    else
      var lookup := [DescribeVolumes(s.volumeId.value)];
      match p.describeVolume(s.volumeId.value)
      case LookupFailed(e) => Catch(id, e, p.deleteSnapshot(id), lookup)
      case Described(r) =>
        if IsAttached(FirstVolume(r)) then Run(lookup, [], [], None)
        else
          match p.deleteSnapshot(id)
          case DeleteOk => Run(lookup + [DeleteSnapshot(id)], [id], [Deleted(id, NotAttached)], None)
          case DeleteFailed(e) => Catch(id, e, p.retryDelete(id), lookup + [DeleteSnapshot(id)])
  }

  /** `a` followed by `b`; the result is aborted exactly when `b` is. */
  function Then(a: Run, b: Run): Run
  {
    Run(a.requests + b.requests, a.deleted + b.deleted, a.log + b.log, b.aborted)
  }

  /** The run that has done nothing yet. */
  function Idle(): Run
  {
    Run([], [], [], None)
  }

  /** The handler's loop over `snaps`: visit each in order, stop at the first abort. */
  function Sweep(snaps: seq<Snapshot>, p: Provider): Run
    decreases |snaps|
  {
    if snaps == [] then Idle()
    else
      var first := Visit(snaps[0], p);
      if first.aborted.Some? then first else Then(first, Sweep(snaps[1..], p))
  }

  /** `snapshotsResponse.Snapshots || []`. */
  function Listed(r: SnapshotsResponse): seq<Snapshot>
  {
    r.snapshots.GetOr([])
  }

  /** What the handler returns or throws after `run`. */
  function OutcomeOf(run: Run): Outcome
  {
    if run.aborted.Some? then Aborted(run.aborted.value) else Completed(COMPLETED_STATUS)
  }

  /** `reservation.Instances || []`. */
  function InstancesOf(r: Reservation): seq<Instance>
  {
    r.instances.GetOr([])
  }

  /** `instancesResponse.Reservations || []`. */
  function ReservationsOf(r: InstancesResponse): seq<Reservation>
  {
    r.reservations.GetOr([])
  }

  /** The ids of all instances of all reservations. */
  function ActiveInstanceIds(r: InstancesResponse): set<string>
  {
    var rs := ReservationsOf(r);
    set i, j | 0 <= i < |rs| && 0 <= j < |InstancesOf(rs[i])| :: InstancesOf(rs[i])[j].instanceId
  }
}
