/**
 * The part of the EC2 API that the stale-snapshot handler reads and calls,
 * reduced to the fields the handler inspects.
 */
module Ec2 {
  import opened Wrappers

  /** One entry of the `Snapshots` list of a DescribeSnapshots response. */
  datatype Snapshot = Snapshot(snapshotId: string, volumeId: Option<string>)

  /** An attachment of a volume to an instance; only its presence is inspected. */
  datatype Attachment = Attachment(instanceId: string)

  /** A volume as DescribeVolumes returns it; `Attachments` may be missing. */
  datatype Volume = Volume(attachments: Option<seq<Attachment>>)

  /** An instance of a DescribeInstances reservation. */
  datatype Instance = Instance(instanceId: string)

  /** A reservation; its `Instances` list may be missing. */
  datatype Reservation = Reservation(instances: Option<seq<Instance>>)

  datatype SnapshotsResponse = SnapshotsResponse(snapshots: Option<seq<Snapshot>>)
  datatype InstancesResponse = InstancesResponse(reservations: Option<seq<Reservation>>)
  datatype VolumesResponse = VolumesResponse(volumes: Option<seq<Volume>>)

  /** An error thrown by an SDK call, with its `name` and its `Code` property. */
  datatype Error = Error(name: Option<string>, code: Option<string>)

  /** What a DescribeVolumes call for one volume id does: answer or throw. */
  datatype LookupResult = Described(response: VolumesResponse) | LookupFailed(error: Error)

  /** What a DeleteSnapshot call does: succeed or throw. */
  datatype DeleteResult = DeleteOk | DeleteFailed(error: Error)

  /**
   * The provider as the handler sees it after the two listing calls: the
   * answer to a volume lookup, the outcome of the first delete of a snapshot,
   * and the outcome of a second delete of a snapshot whose first delete
   * failed, each a function of the request.
   */
  datatype Provider = Provider(
    describeVolume: string -> LookupResult,
    deleteSnapshot: string -> DeleteResult,
    retryDelete: string -> DeleteResult)

  /** A request the sweep sends to the provider. */
  datatype Request = DescribeVolumes(volumeId: string) | DeleteSnapshot(snapshotId: string)

  /** The provider deletes every snapshot it is asked to delete. */
  ghost predicate DeletesSucceed(p: Provider)
  {
    forall id :: p.deleteSnapshot(id).DeleteOk?
  }
}
