/** Five example snapshots, one of each kind the handler tells apart, swept in one listing. */
module Scenarios {
  import opened Wrappers
  import opened Ec2
  import opened Cleanup

  const THROTTLED := Error(Some("ThrottlingException"), Some("Throttling"))

  /** Volume lookups: vol-9 is gone, vol-8 is unattached, vol-7 is attached to i-1, vol-6 is throttled. */
  function ScenarioLookup(volumeId: string): LookupResult
  {
    if volumeId == "vol-9" then LookupFailed(Error(Some(VOLUME_NOT_FOUND), None))
    else if volumeId == "vol-8" then Described(VolumesResponse(Some([Volume(Some([]))])))
    else if volumeId == "vol-7" then Described(VolumesResponse(Some([Volume(Some([Attachment("i-1")]))])))
    else LookupFailed(THROTTLED)
  }

  function ScenarioListing(): seq<Snapshot>
  {
    [ Snapshot("snap-1", None), Snapshot("snap-2", Some("vol-9")), Snapshot("snap-3", Some("vol-8")),
      Snapshot("snap-4", Some("vol-7")), Snapshot("snap-5", Some("vol-6")) ]
  }

  function ScenarioProvider(): Provider
  {
    Provider(ScenarioLookup, _ => DeleteOk, _ => DeleteOk)
  }

  /** What each of the five iterations does on its own. */
  lemma ScenarioVisits()
    ensures Visit(ScenarioListing()[0], ScenarioProvider()) ==
      Run([DeleteSnapshot("snap-1")], ["snap-1"], [Deleted("snap-1", NoVolumeId)], None)
    ensures Visit(ScenarioListing()[1], ScenarioProvider()) ==
      Run([DescribeVolumes("vol-9"), DeleteSnapshot("snap-2")], ["snap-2"], [Deleted("snap-2", VolumeMissing)], None)
    ensures Visit(ScenarioListing()[2], ScenarioProvider()) ==
      Run([DescribeVolumes("vol-8"), DeleteSnapshot("snap-3")], ["snap-3"], [Deleted("snap-3", NotAttached)], None)
    ensures Visit(ScenarioListing()[3], ScenarioProvider()) == Run([DescribeVolumes("vol-7")], [], [], None)
    ensures Visit(ScenarioListing()[4], ScenarioProvider()) ==
      Run([DescribeVolumes("vol-6")], [], [CheckFailed("snap-5", THROTTLED)], None)
  {
  }

  /**
   * snap-1, snap-2 and snap-3 are deleted with their three log tags; snap-4 is
   * kept silently (whatever the state of i-1); snap-5 is kept with an error
   * line, and the sweep completes.
   */
  lemma ScenarioSweep()
    ensures Sweep(ScenarioListing(), ScenarioProvider()) == Run(
      [ DeleteSnapshot("snap-1"),
        DescribeVolumes("vol-9"), DeleteSnapshot("snap-2"),
        DescribeVolumes("vol-8"), DeleteSnapshot("snap-3"),
        DescribeVolumes("vol-7"),
        DescribeVolumes("vol-6") ],
      ["snap-1", "snap-2", "snap-3"],
      [ Deleted("snap-1", NoVolumeId), Deleted("snap-2", VolumeMissing), Deleted("snap-3", NotAttached),
        CheckFailed("snap-5", THROTTLED) ],
      None)
  {
    var p := ScenarioProvider();
    var snaps := ScenarioListing();
    ScenarioVisits();
    var v0, v1, v2, v3, v4 := Visit(snaps[0], p), Visit(snaps[1], p), Visit(snaps[2], p), Visit(snaps[3], p), Visit(snaps[4], p);
    assert Sweep(snaps[4..], p) == v4 by {
      assert snaps[4..][0] == snaps[4] && snaps[4..][1..] == [];
    }
    assert Sweep(snaps[3..], p) == Then(v3, v4) by {
      assert snaps[3..][0] == snaps[3] && snaps[3..][1..] == snaps[4..];
    }
    assert Sweep(snaps[2..], p) == Then(v2, Then(v3, v4)) by {
      assert snaps[2..][0] == snaps[2] && snaps[2..][1..] == snaps[3..];
    }
    assert Sweep(snaps[1..], p) == Then(v1, Then(v2, Then(v3, v4))) by {
      assert snaps[1..][1..] == snaps[2..];
    }
    assert Sweep(snaps, p) == Then(v0, Then(v1, Then(v2, Then(v3, v4))));
  }
}
