/**
 * Properties of the staging log: what every unit receives, however the pool
 * arrived in waves, and how that compares with positional re-staging.
 */
module StagingProofs {
  import opened Staging

  /** The transfers of role `r` over a whole run, wave after wave. */
  function RunTransfers(r: Role, waves: seq<nat>): seq<Transfer>
  {
    if |waves| == 0 then []
    else
      var earlier := waves[..|waves| - 1];
      RunTransfers(r, earlier) + RoleTransfers(r, Sum(earlier), waves[|waves| - 1])
  }

  /** The global index of the first unit of the wave that holds unit `j`. */
  function WaveStart(waves: seq<nat>, j: nat): nat
  {
    if |waves| == 0 then 0
    else
      var earlier := waves[..|waves| - 1];
      if j >= Sum(earlier) then Sum(earlier) else WaveStart(earlier, j)
  }

  /** The transfers of one role for the units of the pool taken positionally, unit j at `stride * j`. */
  function PositionalTransfers(r: Role, count: nat): (t: seq<Transfer>)
    ensures |t| == count
    ensures forall j :: 0 <= j < count ==> t[j] == Transfer(j, r.region, r.regionOffset, r.buffer, r.stride * j, r.length)
  {
    RoleTransfersAt(r, 0, count);
    RoleTransfers(r, 0, count)
  }

  lemma {:induction false} TransfersAppend(a: seq<Event>, c: seq<Event>, b: Buffer)
    ensures Transfers(a + c, b) == Transfers(a, b) + Transfers(c, b)
  {
    if |c| == 0 {
      assert a + c == a;
    } else {
      assert (a + c)[..|a + c| - 1] == a + c[..|c| - 1];
      TransfersAppend(a, c[..|c| - 1], b);
    }
  }

  /** The i-th transfer of a role block goes to unit `acc + i`. */
  lemma {:induction false} RoleTransfersAt(r: Role, acc: nat, n: nat)
    ensures |RoleTransfers(r, acc, n)| == n
    ensures forall i :: 0 <= i < n ==> RoleTransfers(r, acc, n)[i] == TransferFor(r, acc, i)
  {
    if n > 0 {
      RoleTransfersAt(r, acc, n - 1);
    }
  }

  /** The transfers of a role block do not depend on the mode it is issued in. */
  lemma {:induction false} RoleTransfersIgnoreMode(r: Role, m: Mode, acc: nat, n: nat)
    ensures RoleTransfers(r.(mode := m), acc, n) == RoleTransfers(r, acc, n)
  {
    if n > 0 {
      RoleTransfersIgnoreMode(r, m, acc, n - 1);
    }
  }

  lemma {:induction false} TransfersOfRole(r: Role, acc: nat, n: nat, dir: Direction, b: Buffer)
    ensures Transfers(RoleCopies(r, acc, n, dir), b) == if r.buffer == b then RoleTransfers(r, acc, n) else []
  {
    if n > 0 {
      var e := Copy(TransferFor(r, acc, n - 1), dir, r.mode);
      TransfersOfRole(r, acc, n - 1, dir, b);
      TransfersAppend(RoleCopies(r, acc, n - 1, dir), [e], b);
      assert [e][..0] == [];
    }
  }

  /** A plan whose roles all read other buffers issues no transfer of `b`. */
  lemma {:induction false} TransfersOfPlanAbsent(plan: seq<Role>, acc: nat, n: nat, b: Buffer)
    requires forall k :: 0 <= k < |plan| ==> plan[k].buffer != b
    ensures Transfers(PlanCopies(plan, acc, n), b) == []
  {
    if |plan| > 0 {
      var last := plan[|plan| - 1];
      TransfersOfPlanAbsent(plan[..|plan| - 1], acc, n, b);
      TransfersOfRole(last, acc, n, ToUnit, b);
      TransfersAppend(PlanCopies(plan[..|plan| - 1], acc, n), RoleCopies(last, acc, n, ToUnit), b);
    }
  }

  /** In one wave, the transfers of a buffer are exactly its role's block. */
  lemma {:induction false} TransfersOfPlan(plan: seq<Role>, acc: nat, n: nat, k: nat)
    requires DistinctBuffers(plan) && k < |plan|
    ensures Transfers(PlanCopies(plan, acc, n), plan[k].buffer) == RoleTransfers(plan[k], acc, n)
  {
    var front, last := plan[..|plan| - 1], plan[|plan| - 1];
    var b := plan[k].buffer;
    TransfersOfRole(last, acc, n, ToUnit, b);
    TransfersAppend(PlanCopies(front, acc, n), RoleCopies(last, acc, n, ToUnit), b);
    if k == |plan| - 1 {
      TransfersOfPlanAbsent(front, acc, n, b);
    } else {
      TransfersOfPlan(front, acc, n, k);
    }
  }

  lemma TransfersOfLoad(acc: nat, n: nat, built: bool, b: Buffer)
    ensures Transfers(LoadEvents(acc, n, built), b) == []
  {
    var load := LoadEvents(acc, n, built);
    if built {
      assert load[..0] == [];
    } else {
      assert load[..1] == [Build] && [Build][..0] == [];
    }
  }

  /** Over a whole run, the transfers of a buffer are its role's blocks, one per wave, in wave order. */
  lemma {:induction false} TransfersOfRun(plan: seq<Role>, waves: seq<nat>, k: nat)
    requires DistinctBuffers(plan) && k < |plan|
    ensures Transfers(RunLog(plan, waves), plan[k].buffer) == RunTransfers(plan[k], waves)
  {
    if |waves| > 0 {
      var earlier, n := waves[..|waves| - 1], waves[|waves| - 1];
      var b, acc, built := plan[k].buffer, Sum(earlier), |earlier| > 0;
      TransfersOfRun(plan, earlier, k);
      TransfersAppend(RunLog(plan, earlier), WaveLog(plan, acc, n, built), b);
      TransfersAppend(LoadEvents(acc, n, built), PlanCopies(plan, acc, n), b);
      TransfersOfLoad(acc, n, built, b);
      TransfersOfPlan(plan, acc, n, k);
    }
  }

  lemma {:induction false} RunTransfersLength(r: Role, waves: seq<nat>)
    ensures |RunTransfers(r, waves)| == Sum(waves)
  {
    if |waves| > 0 {
      var earlier := waves[..|waves| - 1];
      RunTransfersLength(r, earlier);
      RoleTransfersAt(r, Sum(earlier), waves[|waves| - 1]);
    }
  }

  /** Unit j is served by the wave that starts at `WaveStart(waves, j)`, as its `j - WaveStart`-th unit. */
  lemma {:induction false} RunTransfersAt(r: Role, waves: seq<nat>, j: nat)
    requires j < Sum(waves)
    ensures |RunTransfers(r, waves)| == Sum(waves)
    ensures WaveStart(waves, j) <= j
    ensures RunTransfers(r, waves)[j] == TransferFor(r, WaveStart(waves, j), j - WaveStart(waves, j))
  {
    var earlier, n := waves[..|waves| - 1], waves[|waves| - 1];
    RunTransfersLength(r, waves);
    RunTransfersLength(r, earlier);
    RoleTransfersAt(r, Sum(earlier), n);
    if j < Sum(earlier) {
      RunTransfersAt(r, earlier, j);
    }
  }

  /**
   * The accumulated-count invariant: for a role that offsets by the accumulated count,
   * unit j receives `buffer + stride * j`, so the transfers of a run are the same for
   * every partition of the pool into waves.
   */
  lemma WaveIndependence(plan: seq<Role>, waves: seq<nat>, k: nat)
    requires DistinctBuffers(plan) && k < |plan|
    requires plan[k].byAcc || plan[k].stride == 0
    ensures Transfers(RunLog(plan, waves), plan[k].buffer) == PositionalTransfers(plan[k], Sum(waves))
  {
    TransfersOfRun(plan, waves, k);
    RunMatchesPositional(plan[k], waves);
  }

  /** Two partitions of the same pool into waves stage the same transfers for such a role. */
  lemma SamePoolSameTransfers(plan: seq<Role>, waves1: seq<nat>, waves2: seq<nat>, k: nat)
    requires DistinctBuffers(plan) && k < |plan|
    requires plan[k].byAcc || plan[k].stride == 0
    requires Sum(waves1) == Sum(waves2)
    ensures Transfers(RunLog(plan, waves1), plan[k].buffer) == Transfers(RunLog(plan, waves2), plan[k].buffer)
  {
    WaveIndependence(plan, waves1, k);
    WaveIndependence(plan, waves2, k);
  }

  /** For a role that ignores the accumulated count, unit j reads the offset of its position within its own wave. */
  lemma WaveRelativeOffsets(plan: seq<Role>, waves: seq<nat>, k: nat, j: nat)
    requires DistinctBuffers(plan) && k < |plan| && !plan[k].byAcc
    requires j < Sum(waves)
    ensures |Transfers(RunLog(plan, waves), plan[k].buffer)| == Sum(waves)
    ensures WaveStart(waves, j) <= j
    ensures Transfers(RunLog(plan, waves), plan[k].buffer)[j] ==
      Transfer(j, plan[k].region, plan[k].regionOffset, plan[k].buffer, plan[k].stride * (j - WaveStart(waves, j)), plan[k].length)
  {
    TransfersOfRun(plan, waves, k);
    RunTransfersAt(plan[k], waves, j);
  }

  /** Positional re-staging of a pool issues, for every role, the positional transfers. */
  lemma ReStageTransfers(plan: seq<Role>, count: nat, k: nat)
    requires DistinctBuffers(plan) && k < |plan|
    ensures Transfers(ReStageLog(plan, count), plan[k].buffer) == PositionalTransfers(plan[k], count)
  {
    var sync := WithMode(plan, Sync);
    assert DistinctBuffers(sync) by {
      forall a, b | 0 <= a < b < |sync| ensures sync[a].buffer != sync[b].buffer {
        assert sync[a].buffer == plan[a].buffer && sync[b].buffer == plan[b].buffer;
      }
    }
    TransfersOfPlan(sync, 0, count, k);
    RoleTransfersIgnoreMode(plan[k], Sync, 0, count);
  }

  /**
   * Re-staging on later repetitions reproduces the acquisition-time transfers of a
   * role exactly when that role offsets by the accumulated count, reads the same
   * place for every unit, or every unit already arrived in the first wave.
   */
  lemma ReStageMatchesWaves(plan: seq<Role>, waves: seq<nat>, k: nat)
    requires DistinctBuffers(plan) && k < |plan|
    ensures Transfers(ReStageLog(plan, Sum(waves)), plan[k].buffer) == Transfers(RunLog(plan, waves), plan[k].buffer)
        <==> plan[k].byAcc || plan[k].stride == 0 || forall j: nat :: j < Sum(waves) ==> WaveStart(waves, j) == 0
  {
    ReStageTransfers(plan, Sum(waves), k);
    TransfersOfRun(plan, waves, k);
    RunMatchesPositional(plan[k], waves);
  }

  /** The per-wave transfers of a role are the positional ones exactly under the conditions above. */
  lemma RunMatchesPositional(r: Role, waves: seq<nat>)
    ensures RunTransfers(r, waves) == PositionalTransfers(r, Sum(waves))
        <==> r.byAcc || r.stride == 0 || forall j: nat :: j < Sum(waves) ==> WaveStart(waves, j) == 0
  {
    if r.byAcc || r.stride == 0 || forall j: nat :: j < Sum(waves) ==> WaveStart(waves, j) == 0 {
      RunEqualsPositional(r, waves);
    } else {
      var j: nat :| j < Sum(waves) && WaveStart(waves, j) != 0;
      RunDiffersFromPositional(r, waves, j);
    }
  }

  lemma RunEqualsPositional(r: Role, waves: seq<nat>)
    requires r.byAcc || r.stride == 0 || forall j: nat :: j < Sum(waves) ==> WaveStart(waves, j) == 0
    ensures RunTransfers(r, waves) == PositionalTransfers(r, Sum(waves))
  {
    var run, positional := RunTransfers(r, waves), PositionalTransfers(r, Sum(waves));
    RunTransfersLength(r, waves);
    forall j | 0 <= j < Sum(waves) ensures run[j] == positional[j] {
      RunAtPositional(r, waves, j);
    }
  }

  lemma RunAtPositional(r: Role, waves: seq<nat>, j: nat)
    requires r.byAcc || r.stride == 0 || forall j: nat :: j < Sum(waves) ==> WaveStart(waves, j) == 0
    requires j < Sum(waves)
    ensures j < |RunTransfers(r, waves)| && RunTransfers(r, waves)[j] == PositionalTransfers(r, Sum(waves))[j]
  {
    RunTransfersLength(r, waves);
    RunTransfersAt(r, waves, j);
    var s := WaveStart(waves, j);
    if r.byAcc {
      assert BufferOffset(r, s, j - s) == r.stride * j;
    } else if r.stride == 0 {
      assert BufferOffset(r, s, j - s) == 0;
    } else {
      assert s == 0;
    }
  }

  lemma RunDiffersFromPositional(r: Role, waves: seq<nat>, j: nat)
    requires !r.byAcc && r.stride != 0 && j < Sum(waves) && WaveStart(waves, j) != 0
    ensures RunTransfers(r, waves) != PositionalTransfers(r, Sum(waves))
  {
    RunTransfersLength(r, waves);
    RunTransfersAt(r, waves, j);
    ShiftedOffsetDiffers(r.stride, j, WaveStart(waves, j));
    assert RunTransfers(r, waves)[j] != PositionalTransfers(r, Sum(waves))[j];
  }

  lemma ShiftedOffsetDiffers(stride: nat, j: nat, s: nat)
    requires stride > 0 && 0 < s <= j
    ensures stride * (j - s) != stride * j
  {
    assert stride * j == stride * (j - s) + stride * s;
  }

  /** The image is built exactly once in a run of at least one wave, and it is the first thing issued. */
  lemma {:induction false} BuildsOnce(plan: seq<Role>, waves: seq<nat>)
    ensures CountBuilds(RunLog(plan, waves)) == if |waves| > 0 then 1 else 0
    ensures |waves| > 0 ==> |RunLog(plan, waves)| > 0 && RunLog(plan, waves)[0] == Build
  {
    if |waves| > 0 {
      var earlier, n := waves[..|waves| - 1], waves[|waves| - 1];
      BuildsOnce(plan, earlier);
      CountBuildsAppend(RunLog(plan, earlier), WaveLog(plan, Sum(earlier), n, |earlier| > 0));
      CountBuildsOfWave(plan, Sum(earlier), n, |earlier| > 0);
    }
  }

  /** The install ranges one run issues: one per wave, starting where the previous wave ended. */
  function InstallRanges(waves: seq<nat>): seq<Event>
  {
    if |waves| == 0 then []
    else
      var earlier := waves[..|waves| - 1];
      InstallRanges(earlier) + [Install(Sum(earlier), waves[|waves| - 1])]
  }

  lemma {:induction false} InstallsAppend(a: seq<Event>, c: seq<Event>)
    ensures Installs(a + c) == Installs(a) + Installs(c)
  {
    if |c| == 0 {
      assert a + c == a;
    } else {
      assert (a + c)[..|a + c| - 1] == a + c[..|c| - 1];
      InstallsAppend(a, c[..|c| - 1]);
    }
  }

  lemma {:induction false} InstallsOfCopies(r: Role, acc: nat, n: nat, dir: Direction)
    ensures Installs(RoleCopies(r, acc, n, dir)) == []
  {
    if n > 0 {
      var e := Copy(TransferFor(r, acc, n - 1), dir, r.mode);
      InstallsOfCopies(r, acc, n - 1, dir);
      InstallsAppend(RoleCopies(r, acc, n - 1, dir), [e]);
      assert [e][..0] == [];
    }
  }

  lemma {:induction false} InstallsOfPlan(plan: seq<Role>, acc: nat, n: nat)
    ensures Installs(PlanCopies(plan, acc, n)) == []
  {
    if |plan| > 0 {
      InstallsOfPlan(plan[..|plan| - 1], acc, n);
      InstallsOfCopies(plan[|plan| - 1], acc, n, ToUnit);
      InstallsAppend(PlanCopies(plan[..|plan| - 1], acc, n), RoleCopies(plan[|plan| - 1], acc, n, ToUnit));
    }
  }

  /** Every wave's units get the program exactly once: the installs of a run are its wave ranges, in order. */
  lemma {:induction false} InstallsOfRun(plan: seq<Role>, waves: seq<nat>)
    ensures Installs(RunLog(plan, waves)) == InstallRanges(waves)
  {
    if |waves| > 0 {
      var earlier, n := waves[..|waves| - 1], waves[|waves| - 1];
      var acc, built := Sum(earlier), |earlier| > 0;
      var load := LoadEvents(acc, n, built);
      InstallsOfRun(plan, earlier);
      InstallsAppend(RunLog(plan, earlier), WaveLog(plan, acc, n, built));
      InstallsAppend(load, PlanCopies(plan, acc, n));
      InstallsOfPlan(plan, acc, n);
      if built {
        assert load[..0] == [];
      } else {
        assert load[..1] == [Build] && [Build][..0] == [];
      }
    }
  }

  /**
   * Roles laid out by an advancing cursor occupy pairwise disjoint heap intervals,
   * in plan order, all at or after the starting cursor.
   */
  lemma {:induction false} LaidOutDisjoint(plan: seq<Role>, cursor: nat)
    requires LaidOut(plan, cursor)
    ensures forall a :: 0 <= a < |plan| && plan[a].region == Heap ==> cursor <= plan[a].regionOffset
    ensures forall a, b :: 0 <= a < b < |plan| && plan[a].region == Heap && plan[b].region == Heap ==>
              plan[a].regionOffset + plan[a].length <= plan[b].regionOffset
  {
    if |plan| > 0 {
      var next := if plan[0].region == Heap then cursor + plan[0].length else cursor;
      var rest := plan[1..];
      LaidOutDisjoint(rest, next);
      forall a | 0 <= a < |plan| && plan[a].region == Heap
        ensures cursor <= plan[a].regionOffset
      {
        if a > 0 { assert plan[a] == rest[a - 1]; }
      }
      forall a, b | 0 <= a < b < |plan| && plan[a].region == Heap && plan[b].region == Heap
        ensures plan[a].regionOffset + plan[a].length <= plan[b].regionOffset
      {
        assert plan[b] == rest[b - 1];
        if a > 0 { assert plan[a] == rest[a - 1]; }
      }
    }
  }
}
