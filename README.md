# Stale EBS snapshot cleanup, modelled in Dafny

`EBS_stale_snapshosts.js` is a scheduled handler. It lists the account's EBS
snapshots and its running EC2 instances, then walks the snapshot listing in
order and deletes each orphaned snapshot. A snapshot is orphaned when it has
no `VolumeId`, when the lookup of its volume throws `InvalidVolume.NotFound`,
or when the lookup returns no volume or a volume whose `Attachments` is
missing or empty. Any other lookup error is logged and the snapshot is kept.
The handler returns `{ status: "Completed snapshot cleanup" }`.

The model has six modules:

- `Wrappers` (`wrappers.dfy`): `Option`.
- `Ec2` (`ec2.dfy`): the response fields the handler reads, the errors it
  catches, and a `Provider` value that stands for EC2. The provider answers a
  volume lookup, the first delete of a snapshot, and a second delete of a
  snapshot whose first delete failed. Each answer is a function of the request.
- `Cleanup` (`cleanup.dfy`): the pure meaning of the handler. It holds the
  three tests the loop applies (`HasVolumeId` for line 44, `IsAttached` for
  line 61, `IsVolumeNotFound` for line 70) and the verdict `Eligibility`. It
  also holds `Visit`, which is one loop iteration with its `try`/`catch`, and
  `Sweep`, which is the loop: visit each snapshot in order and stop at the
  first delete that throws outside a handler. The result of a run is a `Run`:
  the requests sent, the deleted ids, the log tags, and the aborting error.
- `CleanupProperties` (`cleanup_properties.dfy`): lemmas about those functions.
- `StaleSnapshotHandler` (`handler.dfy`): the handler in its imperative form.
  A nested loop builds `activeInstanceIds`. A loop over the snapshots runs the
  loop body `VisitSnapshot`. That body uses an explicit caught-error variable
  for the `try`/`catch`, and returns early where the source continues or
  throws. The loop stops at the first delete that throws outside the `try`.
  Both loops are proved against the functions of `Cleanup`.
- `Scenarios` (`scenarios.dfy`): five example snapshots swept in one listing.

The model follows what the code does, including where that differs from what
its comments and messages suggest:

- The message at line 64 speaks of "any running instance", but the code only
  checks that a volume has some attachment. It never checks that the attached
  instance is running, so the active-instance set is built but never read.
- A failing delete does not always abort the sweep. The deletes at lines 46
  and 71 are outside any handler, so their failure aborts it. The delete at
  line 62 is inside the `try`, so its failure reaches the `catch`. There the
  delete's own error is checked against `InvalidVolume.NotFound`. If it does
  not match, the snapshot is kept with an error line and the sweep goes on. If
  it matches, a second delete of the same snapshot is sent at line 71. That
  second delete has its own answer, so it may succeed or fail.
- "Exactly one delete" for an orphaned snapshot holds when that delete
  succeeds.
- `!volumeId` is JavaScript falsiness: an empty-string `VolumeId` counts as
  no volume at all.

## Model

| member | source | states |
|---|---|---|
| `StaleSnapshotHandler.Handler` | EBS_stale_snapshosts.js:9-82 | The requests, deletions, log tags and outcome are those of `Sweep` over `Snapshots \|\| []`. The outcome is `Completed("Completed snapshot cleanup")`, or `Aborted(e)` when an unguarded delete throws `e`. The instance listing has no influence on any of them. A missing `Snapshots` list means no requests, no deletions, no log, and the completed status. |
| `StaleSnapshotHandler.VisitSnapshot` | EBS_stale_snapshosts.js:41-78 | One loop iteration, with its early exits and its `try`/`catch`. It returns exactly the requests, deletions, log tags and aborting error of `Visit` for that snapshot. |
| `StaleSnapshotHandler.CollectActiveInstanceIds` | EBS_stale_snapshosts.js:32-37 | The set is exactly the `InstanceId`s of all instances of all reservations. A missing `Reservations` or `Instances` counts as empty. |
| `Cleanup.HasVolumeId` | EBS_stale_snapshosts.js:42-44 | The test `!volumeId`, as JavaScript truthiness: a volume id is present and is not the empty string. `NoVolumeIdDeletesWithoutLookup` states what the sweep does when it fails. |
| `Cleanup.IsAttached` | EBS_stale_snapshosts.js:61 | The negation of line 61's delete test: there is a volume, its `Attachments` is present, and the list is non-empty. `AttachedVolumeKeeps` and `UnattachedVolumeDeletesOnce` state the two outcomes. |
| `Cleanup.IsVolumeNotFound` | EBS_stale_snapshosts.js:70 | The caught error's `name` or its `Code` is `InvalidVolume.NotFound`. `VolumeNotFoundDeletes`, `OtherLookupErrorKeeps`, `FailedGuardedDeleteIsAbsorbed` and `FailedGuardedDeleteIsRetried` state both outcomes. |
| `Cleanup.Eligibility` | EBS_stale_snapshosts.js:44-77 | The keep-or-delete decision, from the three tests on lines 44, 61 and 70. `VisitFollowsVerdict` proves that, when a delete succeeds, one iteration does what the verdict says. `VisitIsSafe` and `SweepDeletesOnlyEligible` prove that a snapshot is never deleted unless its verdict is Delete, however deletes behave. `SweepWithReliableDeletes` proves that the sweep deletes exactly the Delete-verdict snapshots when deletes succeed. |
| `Cleanup.Visit` | EBS_stale_snapshosts.js:41-78 | One loop iteration, with its early `continue`, its `try`/`catch` and its unguarded deletes. `VisitSnapshot` is proved equal to it. `VisitIsSafe`, `VisitFollowsVerdict` and the per-case lemmas above state its properties. |
| `Cleanup.Sweep` | EBS_stale_snapshosts.js:40-79 | The loop over the listing: visit each snapshot in order and stop at the first unguarded delete that throws. `Handler` is proved equal to it. `SweepSplit`, `SweepAtIndex`, `SweepDeletesOnlyEligible`, `SweepDeletedIsSubsequence`, `SweepDeletesAtMostOnce`, `SweepWithReliableDeletes`, `SweepRequestsEachDeleteOnce` and `RerunDeletesNothing` state its properties. |
| `Cleanup.ActiveInstanceIds` | EBS_stale_snapshosts.js:32-37 | The set of `InstanceId`s over all instances of all reservations, with a missing `Reservations` or `Instances` counting as empty. `CollectActiveInstanceIds`'s ensures ties the nested loop to it. No function that decides a deletion takes it as an input. |
| `Cleanup.Listed` | EBS_stale_snapshosts.js:40 | The default in `snapshotsResponse.Snapshots \|\| []`: the listing, or the empty listing when it is missing. `Handler`'s second ensures states that a missing `Snapshots` means no requests, no deletions, no log and the completed status. |
| `Cleanup.ReservationsOf` | EBS_stale_snapshosts.js:33 | The default in `instancesResponse.Reservations \|\| []`. `CollectActiveInstanceIds`'s ensures shows that missing reservations give the empty set. |
| `Cleanup.InstancesOf` | EBS_stale_snapshosts.js:34 | The default in `reservation.Instances \|\| []`. `CollectActiveInstanceIds`'s ensures shows that a reservation with no `Instances` adds no id. |
| `Cleanup.UnguardedDelete` | EBS_stale_snapshosts.js:46-47 | A delete outside any handler, at line 46 (and at lines 71-74, reached through `Catch`). On success it deletes the snapshot and logs the reason's tag. On failure it issues the request, deletes and logs nothing, and aborts with the error. `NoVolumeIdDeletesWithoutLookup`, `VolumeNotFoundDeletes` and `FailedGuardedDeleteIsRetried` state both outcomes. |
| `Cleanup.Catch` | EBS_stale_snapshosts.js:68-77 | The `catch` block. A not-found `name` or `Code` leads to an unguarded delete with the volume-missing tag. Any other error is logged, nothing is deleted, and the sweep goes on. `VolumeNotFoundDeletes`, `OtherLookupErrorKeeps`, `FailedGuardedDeleteIsAbsorbed` and `FailedGuardedDeleteIsRetried` state its behaviour after a failed lookup and after a failed line-62 delete. |
| `Cleanup.OutcomeOf` | EBS_stale_snapshosts.js:81 | The fixed `{ status: "Completed snapshot cleanup" }` when the run did not abort, or the rejection with the aborting error. `Handler`'s first ensures applies it to the sweep's run. |
| `Cleanup.FirstVolume` | EBS_stale_snapshosts.js:59 | `Volumes?.[0]` gives a volume exactly when `Volumes` is present and non-empty, and that volume is the first one. |
| `CleanupProperties.NoVolumeIdDeletesWithoutLookup` | EBS_stale_snapshosts.js:44-49 | A snapshot without a volume id gets exactly one request, a delete, and no lookup. On success it is deleted and logged with the no-volume tag. On failure the sweep aborts with that error. |
| `CleanupProperties.UnattachedVolumeDeletesOnce` | EBS_stale_snapshosts.js:59-66 | When the lookup yields no volume, or a volume with missing or empty `Attachments`, and the delete succeeds: one lookup, one delete, the snapshot deleted, and the not-attached tag logged. |
| `CleanupProperties.AttachedVolumeKeeps` | EBS_stale_snapshosts.js:61-66 | When the lookup yields a volume with at least one attachment: only the lookup is sent. Nothing is deleted or logged, whatever instance the attachment names. |
| `CleanupProperties.VolumeNotFoundDeletes` | EBS_stale_snapshosts.js:68-74 | A lookup error whose `name` or `Code` is `InvalidVolume.NotFound` leads to one delete. On success the snapshot is deleted with the volume-missing tag. On failure the sweep aborts. |
| `CleanupProperties.OtherLookupErrorKeeps` | EBS_stale_snapshosts.js:68-78 | Any other lookup error means no delete and one error line carrying the error, and the sweep continues with the remaining snapshots. |
| `CleanupProperties.FailedGuardedDeleteIsAbsorbed` | EBS_stale_snapshosts.js:61-77 | A failed delete of an unattached volume's snapshot, with an error that is not a not-found one, is caught. The snapshot is kept, the error is logged, and the sweep continues. |
| `CleanupProperties.FailedGuardedDeleteIsRetried` | EBS_stale_snapshosts.js:61-74 | If that failed delete's error reads as not-found, the `catch` sends a second delete of the same snapshot, so the iteration sends one lookup and two deletes. If the second delete succeeds, the snapshot is deleted and logged with the volume-missing tag, and the sweep goes on. If it fails, nothing is deleted or logged and the sweep aborts with its error. |
| `CleanupProperties.VisitIsSafe` | EBS_stale_snapshosts.js:40-79 | An iteration deletes at most its own snapshot, and only when the verdict is Delete. It looks up only that snapshot's volume, and sends delete requests only for that snapshot. It aborts only when a delete of that snapshot fails, and then it has deleted and logged nothing. |
| `CleanupProperties.VisitFollowsVerdict` | EBS_stale_snapshosts.js:44-77 | When the delete succeeds, an iteration sends a lookup if and only if there is a volume id, and a delete if and only if the verdict is Delete. It logs the verdict's line and does not abort. |
| `CleanupProperties.SweepSplit` | EBS_stale_snapshosts.js:40-79 | If the first `k` snapshots are swept without an abort, the sweep is their run followed by the sweep of the rest of the listing. |
| `CleanupProperties.SweepAtIndex` | EBS_stale_snapshosts.js:40-79 | Snapshot `k`, once reached, is visited exactly once: after the snapshots before it and before the ones after it. If that visit aborts, nothing after it is sent, deleted or logged. |
| `CleanupProperties.SweepDeletesOnlyEligible` | EBS_stale_snapshosts.js:40-79 | Whatever the deletes do, the deleted ids are a subsequence of the ids whose verdict is Delete, in listing order. |
| `CleanupProperties.SweepDeletedIsSubsequence` | EBS_stale_snapshosts.js:40-79 | The deleted ids are a subsequence of the listing's snapshot ids, in listing order. |
| `CleanupProperties.SweepDeletesAtMostOnce` | EBS_stale_snapshosts.js:40-79 | If the listing's ids are distinct, no snapshot is deleted twice in one sweep. |
| `CleanupProperties.SweepWithReliableDeletes` | EBS_stale_snapshosts.js:40-79 | When every delete succeeds, the sweep completes. It deletes exactly the snapshots whose verdict is Delete, with one delete request each. It sends one lookup per snapshot that has a volume id, in listing order. It logs exactly the verdicts' lines. |
| `CleanupProperties.SweepRequestsEachDeleteOnce` | EBS_stale_snapshosts.js:40-79 | When every delete succeeds and the ids are distinct, no snapshot gets two delete requests. |
| `CleanupProperties.RerunDeletesNothing` | EBS_stale_snapshosts.js:40-79 | A second sweep, over the listing that remains after a sweep that completed, deletes nothing and completes. When deletes succeed it sends no delete request at all. |
| `Scenarios.ScenarioSweep` | EBS_stale_snapshosts.js:40-81 | Five snapshots: no volume id, a missing volume, an unattached volume, an attached volume, and a throttled lookup. The first three are deleted with their three tags, in order. The fourth is kept silently. The fifth is kept with an error line. The sweep completes. |

## Left out

- Creating the `EC2Client` from the `AWS_REGION` environment variable, and the SDK request shapes. The provider is the `Provider` value instead.
- The two listing calls (lines 13-29). Their responses are the handler's inputs. A failure of either is unhandled and ends the run before any decision, so it is not modelled.
- `async`/`await`. Execution is sequential, and the model's order of requests is the order of the `await`s.
- The text of the `console.log`/`console.error` messages. A log entry is a tag (`Reason`), or the caught error, plus the snapshot id.
- The `event` and `context` parameters, which the handler does not use.
- Provider answers are functions of the request. A lookup of the same volume gets the same answer each time, and deleting a snapshot does not change any lookup answer. The first and the second delete of a snapshot have separate answers. A third delete cannot happen in one iteration.
- `SnapshotId` and `InstanceId` are always strings. The source would put `undefined` into the set, or pass it to DeleteSnapshot, if a response left them out.
- Pagination: the code never follows a continuation token, so each listing is taken as one complete response.
- The running-state filter of the DescribeInstances request (lines 22-27): it belongs to the listing call, whose response is an input here. The instances in that response are taken as given. The eligibility test at line 61 never looks at the state of an attached instance.
