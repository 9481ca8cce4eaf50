/**
 * What the keep-or-delete decision and the sweep guarantee, proved about the
 * functions of module Cleanup.
 */
module CleanupProperties {
  import opened Wrappers
  import opened Ec2
  import opened Cleanup

  // ---------------------------------------------------------------------------
  // Views of a listing and of a request trace
  // ---------------------------------------------------------------------------

  /** The snapshot ids of a listing, in order. */
  function Ids(snaps: seq<Snapshot>): seq<string>
    decreases |snaps|
  {
    if snaps == [] then [] else [snaps[0].snapshotId] + Ids(snaps[1..])
  }

  /** The volume ids of the snapshots that have one, in listing order. */
  function VolumeIds(snaps: seq<Snapshot>): seq<string>
    decreases |snaps|
  {
    if snaps == [] then []
    else (if HasVolumeId(snaps[0]) then [snaps[0].volumeId.value] else []) + VolumeIds(snaps[1..])
  }

  /** The ids of the snapshots whose verdict is Delete, in listing order. */
  function EligibleIds(snaps: seq<Snapshot>, describe: string -> LookupResult): seq<string>
    decreases |snaps|
  {
    if snaps == [] then []
    else (if Eligibility(snaps[0], describe).Delete? then [snaps[0].snapshotId] else [])
         + EligibleIds(snaps[1..], describe)
  }

  /** The log line a verdict calls for. */
  function LogFor(s: Snapshot, v: Verdict): seq<LogEntry>
  {
    match v
    case Delete(reason) => [Deleted(s.snapshotId, reason)]
    case Keep => []
    case KeepAfterError(e) => [CheckFailed(s.snapshotId, e)]
  }

  /** The log lines the verdicts of a listing call for, in listing order. */
  function VerdictLog(snaps: seq<Snapshot>, describe: string -> LookupResult): seq<LogEntry>
    decreases |snaps|
  {
    if snaps == [] then []
    else LogFor(snaps[0], Eligibility(snaps[0], describe)) + VerdictLog(snaps[1..], describe)
  }

  /** The snapshot ids of the DeleteSnapshot requests of a trace. */
  function DeleteRequests(rs: seq<Request>): seq<string>
    decreases |rs|
  {
    if rs == [] then []
    else (if rs[0].DeleteSnapshot? then [rs[0].snapshotId] else []) + DeleteRequests(rs[1..])
  }

  /** The volume ids of the DescribeVolumes requests of a trace. */
  function Lookups(rs: seq<Request>): seq<string>
    decreases |rs|
  {
    if rs == [] then []
    else (if rs[0].DescribeVolumes? then [rs[0].volumeId] else []) + Lookups(rs[1..])
  }

  /** `a` can be obtained from `b` by leaving elements out. */
  ghost predicate IsSubsequence<T>(a: seq<T>, b: seq<T>)
    decreases |b|
  {
    a == [] || (b != [] && ((a[0] == b[0] && IsSubsequence(a[1..], b[1..])) || IsSubsequence(a, b[1..])))
  }

  ghost predicate Distinct<T>(s: seq<T>)
  {
    forall i, j :: 0 <= i < j < |s| ==> s[i] != s[j]
  }

  /** The listing a later run sees once the snapshots in `gone` are deleted. */
  function Unremoved(snaps: seq<Snapshot>, gone: seq<string>): seq<Snapshot>
    decreases |snaps|
  {
    if snaps == [] then []
    else (if snaps[0].snapshotId in gone then [] else [snaps[0]]) + Unremoved(snaps[1..], gone)
  }

  // ---------------------------------------------------------------------------
  // Helper facts
  // ---------------------------------------------------------------------------

  /** The sweep from position `i` on is the visit of `snaps[i]`, then, unless it aborts, the rest. */
  lemma SweepUnfolds(snaps: seq<Snapshot>, i: nat, p: Provider)
    requires i < |snaps|
    ensures Sweep(snaps[i..], p) ==
      if Visit(snaps[i], p).aborted.Some? then Visit(snaps[i], p)
      else Then(Visit(snaps[i], p), Sweep(snaps[i + 1..], p))
  {
    assert snaps[i..][0] == snaps[i] && snaps[i..][1..] == snaps[i + 1..];
  }

  lemma ThenAssociates(a: Run, b: Run, c: Run)
    ensures Then(Then(a, b), c) == Then(a, Then(b, c))
  {
  }

  lemma {:induction false} DeleteRequestsDistribute(a: seq<Request>, b: seq<Request>)
    ensures DeleteRequests(a + b) == DeleteRequests(a) + DeleteRequests(b)
    decreases |a|
  {
    if a != [] {
      assert (a + b)[1..] == a[1..] + b;
      DeleteRequestsDistribute(a[1..], b);
    } else {
      assert a + b == b;
    }
  }

  lemma {:induction false} LookupsDistribute(a: seq<Request>, b: seq<Request>)
    ensures Lookups(a + b) == Lookups(a) + Lookups(b)
    decreases |a|
  {
    if a != [] {
      assert (a + b)[1..] == a[1..] + b;
      LookupsDistribute(a[1..], b);
    } else {
      assert a + b == b;
    }
  }

  lemma {:induction false} SubsequenceMembers<T>(a: seq<T>, b: seq<T>, x: T)
    requires IsSubsequence(a, b) && x in a
    ensures x in b
    decreases |b|
  {
    if a[0] == b[0] && IsSubsequence(a[1..], b[1..]) {
      if x != a[0] {
        SubsequenceMembers(a[1..], b[1..], x);
      }
    } else {
      SubsequenceMembers(a, b[1..], x);
    }
  }

  // ---------------------------------------------------------------------------
  // One snapshot
  // ---------------------------------------------------------------------------

  /** No volume id: one delete request and no lookup; failure of that delete aborts. */
  lemma NoVolumeIdDeletesWithoutLookup(s: Snapshot, p: Provider)
    requires !HasVolumeId(s)
    ensures Visit(s, p).requests == [DeleteSnapshot(s.snapshotId)]
    ensures p.deleteSnapshot(s.snapshotId).DeleteOk? ==>
      Visit(s, p) == Run([DeleteSnapshot(s.snapshotId)], [s.snapshotId], [Deleted(s.snapshotId, NoVolumeId)], None)
    ensures p.deleteSnapshot(s.snapshotId).DeleteFailed? ==>
      Visit(s, p).aborted == Some(p.deleteSnapshot(s.snapshotId).error)
  {
  }

  /** A lookup that finds no volume, or one without attachments: one lookup, then one delete. */
  lemma UnattachedVolumeDeletesOnce(s: Snapshot, p: Provider)
    requires HasVolumeId(s)
    requires p.describeVolume(s.volumeId.value).Described?
    requires !IsAttached(FirstVolume(p.describeVolume(s.volumeId.value).response))
    requires p.deleteSnapshot(s.snapshotId).DeleteOk?
    ensures Visit(s, p) == Run([DescribeVolumes(s.volumeId.value), DeleteSnapshot(s.snapshotId)],
                               [s.snapshotId], [Deleted(s.snapshotId, NotAttached)], None)
  {
  }

  /** A lookup that finds a volume with an attachment: no delete and no log line. */
  lemma AttachedVolumeKeeps(s: Snapshot, p: Provider)
    requires HasVolumeId(s)
    requires p.describeVolume(s.volumeId.value).Described?
    requires IsAttached(FirstVolume(p.describeVolume(s.volumeId.value).response))
    ensures Visit(s, p) == Run([DescribeVolumes(s.volumeId.value)], [], [], None)
  {
  }

  /** A lookup that throws a not-found error: one delete, whose failure aborts. */
  lemma VolumeNotFoundDeletes(s: Snapshot, p: Provider)
    requires HasVolumeId(s)
    requires p.describeVolume(s.volumeId.value).LookupFailed?
    requires IsVolumeNotFound(p.describeVolume(s.volumeId.value).error)
    ensures Visit(s, p).requests == [DescribeVolumes(s.volumeId.value), DeleteSnapshot(s.snapshotId)]
    ensures p.deleteSnapshot(s.snapshotId).DeleteOk? ==>
      Visit(s, p).deleted == [s.snapshotId] && Visit(s, p).log == [Deleted(s.snapshotId, VolumeMissing)]
      && Visit(s, p).aborted.None?
    ensures p.deleteSnapshot(s.snapshotId).DeleteFailed? ==>
      Visit(s, p).deleted == [] && Visit(s, p).aborted == Some(p.deleteSnapshot(s.snapshotId).error)
  {
  }

  /** Any other lookup error: kept, one error line, and the sweep goes on with the rest. */
  lemma OtherLookupErrorKeeps(s: Snapshot, rest: seq<Snapshot>, p: Provider)
    requires HasVolumeId(s)
    requires p.describeVolume(s.volumeId.value).LookupFailed?
    requires !IsVolumeNotFound(p.describeVolume(s.volumeId.value).error)
    ensures Visit(s, p) == Run([DescribeVolumes(s.volumeId.value)], [],
                               [CheckFailed(s.snapshotId, p.describeVolume(s.volumeId.value).error)], None)
    ensures Sweep([s] + rest, p) == Then(Visit(s, p), Sweep(rest, p))
  {
    assert ([s] + rest)[1..] == rest;
  }

  /**
   * The delete of an unattached volume's snapshot is inside the `try`: when it
   * fails with an error that is not a not-found one, the snapshot is kept, the
   * error is logged and the sweep goes on.
   */
  lemma FailedGuardedDeleteIsAbsorbed(s: Snapshot, rest: seq<Snapshot>, p: Provider)
    requires HasVolumeId(s)
    requires p.describeVolume(s.volumeId.value).Described?
    requires !IsAttached(FirstVolume(p.describeVolume(s.volumeId.value).response))
    requires p.deleteSnapshot(s.snapshotId).DeleteFailed?
    requires !IsVolumeNotFound(p.deleteSnapshot(s.snapshotId).error)
    ensures Visit(s, p) == Run([DescribeVolumes(s.volumeId.value), DeleteSnapshot(s.snapshotId)], [],
                               [CheckFailed(s.snapshotId, p.deleteSnapshot(s.snapshotId).error)], None)
    ensures Sweep([s] + rest, p) == Then(Visit(s, p), Sweep(rest, p))
  {
    assert ([s] + rest)[1..] == rest;
  }

  /**
   * When that delete fails with an error that the `catch` reads as not-found,
   * the `catch` sends a second delete of the same snapshot. If it succeeds the
   * snapshot is deleted and logged as having lost its volume; if it fails the
   * sweep aborts.
   */
  lemma FailedGuardedDeleteIsRetried(s: Snapshot, p: Provider)
    requires HasVolumeId(s)
    requires p.describeVolume(s.volumeId.value).Described?
    requires !IsAttached(FirstVolume(p.describeVolume(s.volumeId.value).response))
    requires p.deleteSnapshot(s.snapshotId).DeleteFailed?
    requires IsVolumeNotFound(p.deleteSnapshot(s.snapshotId).error)
    ensures Visit(s, p).requests ==
      [DescribeVolumes(s.volumeId.value), DeleteSnapshot(s.snapshotId), DeleteSnapshot(s.snapshotId)]
    ensures p.retryDelete(s.snapshotId).DeleteOk? ==>
      Visit(s, p).deleted == [s.snapshotId] && Visit(s, p).log == [Deleted(s.snapshotId, VolumeMissing)]
      && Visit(s, p).aborted.None?
    ensures p.retryDelete(s.snapshotId).DeleteFailed? ==>
      Visit(s, p).deleted == [] && Visit(s, p).log == []
      && Visit(s, p).aborted == Some(p.retryDelete(s.snapshotId).error)
  {
  }

  /**
   * A visit deletes nothing but its own snapshot, and only when the verdict is
   * Delete; it aborts only on a failed delete of its snapshot, having deleted
   * and logged nothing; it looks up only the snapshot's own volume.
   */
  lemma VisitIsSafe(s: Snapshot, p: Provider)
    ensures Visit(s, p).deleted == [] || (Visit(s, p).deleted == [s.snapshotId] && Eligibility(s, p.describeVolume).Delete?)
    ensures Visit(s, p).aborted.Some? ==>
      && (p.deleteSnapshot(s.snapshotId) == DeleteFailed(Visit(s, p).aborted.value)
          || p.retryDelete(s.snapshotId) == DeleteFailed(Visit(s, p).aborted.value))
      && Visit(s, p).deleted == [] && Visit(s, p).log == []
    ensures Visit(s, p).aborted.Some? ==> Eligibility(s, p.describeVolume).Delete?
    ensures Lookups(Visit(s, p).requests) == if HasVolumeId(s) then [s.volumeId.value] else []
    ensures forall id | id in DeleteRequests(Visit(s, p).requests) :: id == s.snapshotId
  {
    var id := s.snapshotId;
    var d: seq<Request> := [DeleteSnapshot(id)];
    assert d[1..] == [];
    assert Lookups(d) == [] && DeleteRequests(d) == [id];
    LookupsDistribute(d, d);
    DeleteRequestsDistribute(d, d);
    if HasVolumeId(s) {
      var l: seq<Request> := [DescribeVolumes(s.volumeId.value)];
      assert l[1..] == [];
      assert Lookups(l) == [s.volumeId.value] && DeleteRequests(l) == [];
      LookupsDistribute(l, d);
      DeleteRequestsDistribute(l, d);
      LookupsDistribute(l, d + d);
      DeleteRequestsDistribute(l, d + d);
      assert l + d + d == l + (d + d);
      var r := Visit(s, p).requests;
      assert r == l || r == l + d || r == l + d + d;
    } else {
      assert Visit(s, p).requests == d;
    }
  }

  /**
   * When the delete succeeds, a visit does exactly what the verdict says:
   * a lookup if there is a volume id, a delete if the verdict is Delete, and
   * the verdict's log line.
   */
  lemma VisitFollowsVerdict(s: Snapshot, p: Provider)
    requires p.deleteSnapshot(s.snapshotId).DeleteOk?
    ensures var v := Eligibility(s, p.describeVolume);
      Visit(s, p) == Run(
        (if HasVolumeId(s) then [DescribeVolumes(s.volumeId.value)] else [])
          + (if v.Delete? then [DeleteSnapshot(s.snapshotId)] else []),
        if v.Delete? then [s.snapshotId] else [],
        LogFor(s, v),
        None)
  {
  }

  // ---------------------------------------------------------------------------
  // The sweep
  // ---------------------------------------------------------------------------

  /**
   * If the first `k` snapshots are swept without an abort, the sweep is their
   * run followed by the sweep of the rest of the listing.
   */
  lemma {:induction false} SweepSplit(snaps: seq<Snapshot>, p: Provider, k: nat)
    requires k <= |snaps|
    requires Sweep(snaps[..k], p).aborted.None?
    ensures Sweep(snaps, p) == Then(Sweep(snaps[..k], p), Sweep(snaps[k..], p))
    decreases k
  {
    if k == 0 {
      assert snaps[..0] == [] && snaps[0..] == snaps;
      var r := Sweep(snaps, p);
      assert [] + r.requests == r.requests && [] + r.deleted == r.deleted && [] + r.log == r.log;
    } else {
      var first := Visit(snaps[0], p);
      assert snaps[..k][0] == snaps[0] && snaps[..k][1..] == snaps[1..][..k - 1];
      assert snaps[1..][k - 1..] == snaps[k..];
      SweepSplit(snaps[1..], p, k - 1);
      ThenAssociates(first, Sweep(snaps[1..][..k - 1], p), Sweep(snaps[k..], p));
    }
  }

  /**
   * Listing order, each snapshot once: once the sweep reaches snapshot `k`,
   * its run is that of `snaps[..k]`, then the visit of `snaps[k]`, then,
   * unless that visit aborts, the sweep of the snapshots after it.
   */
  lemma SweepAtIndex(snaps: seq<Snapshot>, p: Provider, k: nat)
    requires k < |snaps|
    requires Sweep(snaps[..k], p).aborted.None?
    ensures Visit(snaps[k], p).aborted.Some? ==>
      Sweep(snaps, p) == Then(Sweep(snaps[..k], p), Visit(snaps[k], p))
    ensures Visit(snaps[k], p).aborted.None? ==>
      Sweep(snaps, p) == Then(Then(Sweep(snaps[..k], p), Visit(snaps[k], p)), Sweep(snaps[k + 1..], p))
  {
    SweepSplit(snaps, p, k);
    SweepUnfolds(snaps, k, p);
    ThenAssociates(Sweep(snaps[..k], p), Visit(snaps[k], p), Sweep(snaps[k + 1..], p));
  }

  /** Only snapshots whose verdict is Delete are deleted, in listing order. */
  lemma {:induction false} SweepDeletesOnlyEligible(snaps: seq<Snapshot>, p: Provider)
    ensures IsSubsequence(Sweep(snaps, p).deleted, EligibleIds(snaps, p.describeVolume))
    decreases |snaps|
  {
    if snaps != [] {
      var s := snaps[0];
      var first := Visit(s, p);
      var rest := Sweep(snaps[1..], p);
      var eligible := EligibleIds(snaps, p.describeVolume);
      VisitIsSafe(s, p);
      SweepDeletesOnlyEligible(snaps[1..], p);
      if first.aborted.None? {
        if first.deleted == [] {
          assert Sweep(snaps, p).deleted == rest.deleted;
          if Eligibility(s, p.describeVolume).Delete? {
            assert eligible == [s.snapshotId] + EligibleIds(snaps[1..], p.describeVolume);
            assert eligible[1..] == EligibleIds(snaps[1..], p.describeVolume);
          } else {
            assert eligible == EligibleIds(snaps[1..], p.describeVolume);
          }
        } else {
          assert Sweep(snaps, p).deleted == [s.snapshotId] + rest.deleted;
          assert eligible == [s.snapshotId] + EligibleIds(snaps[1..], p.describeVolume);
          assert ([s.snapshotId] + rest.deleted)[1..] == rest.deleted;
        }
      }
    }
  }

  /** The deleted ids are a subsequence of the listing's ids. */
  lemma {:induction false} SweepDeletedIsSubsequence(snaps: seq<Snapshot>, p: Provider)
    ensures IsSubsequence(Sweep(snaps, p).deleted, Ids(snaps))
    decreases |snaps|
  {
    if snaps != [] {
      var s := snaps[0];
      var first := Visit(s, p);
      var rest := Sweep(snaps[1..], p);
      VisitIsSafe(s, p);
      SweepDeletedIsSubsequence(snaps[1..], p);
      assert Ids(snaps) == [s.snapshotId] + Ids(snaps[1..]);
      if first.aborted.None? {
        if first.deleted == [] {
          assert Sweep(snaps, p).deleted == rest.deleted;
        } else {
          assert Sweep(snaps, p).deleted == [s.snapshotId] + rest.deleted;
          assert ([s.snapshotId] + rest.deleted)[1..] == rest.deleted;
        }
      }
    }
  }

  lemma DistinctCons<T>(x: T, t: seq<T>)
    ensures Distinct([x] + t) <==> x !in t && Distinct(t)
  {
    var xt := [x] + t;
    if x !in t && Distinct(t) {
      forall i, j | 0 <= i < j < |xt| ensures xt[i] != xt[j] {
        assert xt[j] == t[j - 1];
        if i > 0 { assert xt[i] == t[i - 1]; }
      }
    }
    if Distinct(xt) {
      forall i, j | 0 <= i < j < |t| ensures t[i] != t[j] {
        assert t[i] == xt[i + 1] && t[j] == xt[j + 1];
      }
      forall j | 0 <= j < |t| ensures t[j] != x {
        assert t[j] == xt[j + 1] && xt[0] == x;
        assert 0 < j + 1 < |xt|;
      }
    }
  }

  /** With distinct ids in the listing, no snapshot is deleted twice. */
  lemma {:induction false} SweepDeletesAtMostOnce(snaps: seq<Snapshot>, p: Provider)
    requires Distinct(Ids(snaps))
    ensures Distinct(Sweep(snaps, p).deleted)
    decreases |snaps|
  {
    if snaps != [] {
      var s := snaps[0];
      var first := Visit(s, p);
      var rest := Sweep(snaps[1..], p);
      assert Ids(snaps) == [s.snapshotId] + Ids(snaps[1..]);
      DistinctCons(s.snapshotId, Ids(snaps[1..]));
      VisitIsSafe(s, p);
      SweepDeletesAtMostOnce(snaps[1..], p);
      if first.aborted.None? {
        if first.deleted == [] {
          assert Sweep(snaps, p).deleted == rest.deleted;
        } else {
          assert Sweep(snaps, p).deleted == [s.snapshotId] + rest.deleted;
          SweepDeletedIsSubsequence(snaps[1..], p);
          if s.snapshotId in rest.deleted {
            SubsequenceMembers(rest.deleted, Ids(snaps[1..]), s.snapshotId);
          }
          DistinctCons(s.snapshotId, rest.deleted);
        }
      }
    }
  }

  /**
   * When every delete succeeds, the sweep runs to the end, deletes exactly the
   * snapshots whose verdict is Delete (one request each, in listing order),
   * looks up exactly the volumes of the snapshots that have one, and logs the
   * verdicts' lines.
   */
  lemma {:induction false} SweepWithReliableDeletes(snaps: seq<Snapshot>, p: Provider)
    requires DeletesSucceed(p)
    ensures var r := Sweep(snaps, p);
      && r.aborted.None?
      && r.deleted == EligibleIds(snaps, p.describeVolume)
      && DeleteRequests(r.requests) == r.deleted
      && Lookups(r.requests) == VolumeIds(snaps)
      && r.log == VerdictLog(snaps, p.describeVolume)
    decreases |snaps|
  {
    if snaps != [] {
      var s := snaps[0];
      var first := Visit(s, p);
      var rest := Sweep(snaps[1..], p);
      assert p.deleteSnapshot(s.snapshotId).DeleteOk?;
      VisitFollowsVerdict(s, p);
      VisitIsSafe(s, p);
      SweepWithReliableDeletes(snaps[1..], p);
      DeleteRequestsDistribute(first.requests, rest.requests);
      LookupsDistribute(first.requests, rest.requests);
      var v := Eligibility(s, p.describeVolume);
      var lookup: seq<Request> := if HasVolumeId(s) then [DescribeVolumes(s.volumeId.value)] else [];
      var del: seq<Request> := if v.Delete? then [DeleteSnapshot(s.snapshotId)] else [];
      assert first.requests == lookup + del;
      DeleteRequestsDistribute(lookup, del);
      assert DeleteRequests(lookup) == [];
      assert del != [] ==> del[1..] == [];
      assert DeleteRequests(first.requests) == first.deleted;
    }
  }

  /** When every delete succeeds and the listing's ids are distinct, no snapshot gets two delete requests. */
  lemma SweepRequestsEachDeleteOnce(snaps: seq<Snapshot>, p: Provider)
    requires DeletesSucceed(p)
    requires Distinct(Ids(snaps))
    ensures Distinct(DeleteRequests(Sweep(snaps, p).requests))
  {
    SweepWithReliableDeletes(snaps, p);
    SweepDeletesAtMostOnce(snaps, p);
  }

  /**
   * Running the sweep again on the listing that remains after a run that did
   * not abort deletes nothing and does not abort; when deletes succeed it
   * does not even request one.
   */
  lemma RerunDeletesNothing(snaps: seq<Snapshot>, p: Provider)
    requires Sweep(snaps, p).aborted.None?
    ensures var again := Sweep(Unremoved(snaps, Sweep(snaps, p).deleted), p);
      && again.deleted == [] && again.aborted.None?
      && (DeletesSucceed(p) ==> DeleteRequests(again.requests) == [])
  {
    RerunOnRemainder(snaps, p, Sweep(snaps, p).deleted);
    var again := Sweep(Unremoved(snaps, Sweep(snaps, p).deleted), p);
    if DeletesSucceed(p) {
      SweepWithReliableDeletes(Unremoved(snaps, Sweep(snaps, p).deleted), p);
    }
  }

  lemma {:induction false} RerunOnRemainder(snaps: seq<Snapshot>, p: Provider, gone: seq<string>)
    requires Sweep(snaps, p).aborted.None?
    requires forall id | id in Sweep(snaps, p).deleted :: id in gone
    ensures Sweep(Unremoved(snaps, gone), p).deleted == []
    ensures Sweep(Unremoved(snaps, gone), p).aborted.None?
    decreases |snaps|
  {
    if snaps != [] {
      var s := snaps[0];
      var first := Visit(s, p);
      VisitIsSafe(s, p);
      assert first.aborted.None?;
      assert Sweep(snaps, p) == Then(first, Sweep(snaps[1..], p));
      RerunOnRemainder(snaps[1..], p, gone);
      var tail := Unremoved(snaps[1..], gone);
      if s.snapshotId in gone {
        assert Unremoved(snaps, gone) == tail;
      } else {
        assert first.deleted == [];
        assert Unremoved(snaps, gone) == [s] + tail;
        assert ([s] + tail)[1..] == tail;
      }
    }
  }
}
