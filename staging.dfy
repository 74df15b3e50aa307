/**
 * Staging: the acquisition-time pipeline shared by the three host programs.
 *
 * The unit library is replaced by an abstract log of the operations the host
 * issues. A staging callback (`reclamation_cb` in every program) is invoked once
 * per wave of newly allocated units; it loads the program image (building it only
 * the first time), issues one transfer per buffer role for every unit of the wave
 * at a source offset computed from an accumulated unit count, and then adds the
 * wave's size to that count.
 */
module Staging {

  /** Whether the host waits for a transfer (`DPU_XFER_DEFAULT`, `dpu_copy_to`) or only queues it (`DPU_XFER_ASYNC`). */
  datatype Mode = Async | Sync

  datatype Direction = ToUnit | FromUnit

  /** The unit-memory symbol a transfer addresses. */
  datatype Region = InputArguments | Heap | Results

  /** The host buffer a transfer reads from (or, when retrieving, writes to). */
  datatype Buffer =
    | Arguments
    | QueryBuf | SeriesBuf | MeanBuf | SigmaBuf     // time-series program
    | VectorA | VectorB | VectorC                   // vector-addition program
    | SortedInput | Queries                         // binary-search program
    | ResultBufs                                    // per-unit result records; offset i is unit i's record array

  /** One copy between a host buffer and one unit's memory; offsets into the buffer are in elements, into the unit in bytes. */
  datatype Transfer = Transfer(unit: nat, region: Region, regionOffset: nat, buffer: Buffer, bufferOffset: nat, length: nat)

  /** What the host asks of the unit library, in the order it asks it. */
  datatype Event =
    | Build                              // parse the program image into a handle
    | Install(first: nat, count: nat)    // put the handle on units [first, first + count)
    | Copy(transfer: Transfer, direction: Direction, mode: Mode)
    | PoolLoad(count: nat)               // a whole-pool load of the image by path
    | Launch(count: nat)                 // run the program on the whole pool, waiting for it

  /**
   * One buffer role of a callback: a block of `dpu_prepare_xfer` calls, one per unit,
   * followed by one push. The i-th unit of a wave reads `buffer + stride * (i + acc)`
   * when `byAcc` holds and `buffer + stride * i` otherwise.
   */
  datatype Role = Role(buffer: Buffer, region: Region, regionOffset: nat, length: nat, stride: nat, byAcc: bool, mode: Mode)

  /** The buffer offset the i-th unit of a wave that starts at `acc` receives. */
  function BufferOffset(r: Role, acc: nat, i: nat): nat
  {
    r.stride * (i + if r.byAcc then acc else 0)
  }

  function TransferFor(r: Role, acc: nat, i: nat): Transfer
  {
    Transfer(acc + i, r.region, r.regionOffset, r.buffer, BufferOffset(r, acc, i), r.length)
  }

  /** The transfers of one role for the `n` units of a wave that starts at global unit `acc`. */
  function RoleTransfers(r: Role, acc: nat, n: nat): seq<Transfer>
  {
    if n == 0 then [] else RoleTransfers(r, acc, n - 1) + [TransferFor(r, acc, n - 1)]
  }

  /** The log entries of one role block for a wave. */
  function RoleCopies(r: Role, acc: nat, n: nat, dir: Direction): seq<Event>
  {
    if n == 0 then [] else RoleCopies(r, acc, n - 1, dir) + [Copy(TransferFor(r, acc, n - 1), dir, r.mode)]
  }

  /** The role blocks of a plan, in the plan's order, for one wave. */
  function PlanCopies(plan: seq<Role>, acc: nat, n: nat): seq<Event>
  {
    if |plan| == 0 then []
    else PlanCopies(plan[..|plan| - 1], acc, n) + RoleCopies(plan[|plan| - 1], acc, n, ToUnit)
  }

  /** The program load of one wave: the image is built only when no handle exists yet. */
  function LoadEvents(acc: nat, n: nat, built: bool): seq<Event>
  {
    (if built then [] else [Build]) + [Install(acc, n)]
  }

  /** Everything one callback invocation issues. */
  function WaveLog(plan: seq<Role>, acc: nat, n: nat, built: bool): seq<Event>
  {
    LoadEvents(acc, n, built) + PlanCopies(plan, acc, n)
  }

  function Sum(waves: seq<nat>): nat
  {
    if |waves| == 0 then 0 else Sum(waves[..|waves| - 1]) + waves[|waves| - 1]
  }

  /** The log of the callbacks for `waves`, invoked one after the other from the initial state. */
  function RunLog(plan: seq<Role>, waves: seq<nat>): seq<Event>
  {
    if |waves| == 0 then []
    else
      var earlier := waves[..|waves| - 1];
      RunLog(plan, earlier) + WaveLog(plan, Sum(earlier), waves[|waves| - 1], |earlier| > 0)
  }

  /** The same plan with every transfer issued in mode `m`. */
  function WithMode(plan: seq<Role>, m: Mode): (r: seq<Role>)
    ensures |r| == |plan|
    ensures forall k :: 0 <= k < |plan| ==> r[k] == plan[k].(mode := m)
  {
    if |plan| == 0 then [] else WithMode(plan[..|plan| - 1], m) + [plan[|plan| - 1].(mode := m)]
  }

  /** The positional re-staging of a fixed pool of `count` units: acc is zero and every transfer waits. */
  function ReStageLog(plan: seq<Role>, count: nat): seq<Event>
  {
    PlanCopies(WithMode(plan, Sync), 0, count)
  }

  /**
   * One repetition of the measured loop on a pool of `count` units: positional
   * re-staging except on the first repetition (whose data the callbacks staged),
   * a launch that waits for every unit, and the retrieval `gather` of every unit.
   */
  function IterationLog(plan: seq<Role>, gather: Role, count: nat, rep: nat): seq<Event>
  {
    (if rep != 0 then ReStageLog(plan, count) else []) + [Launch(count)] + RoleCopies(gather, 0, count, FromUnit)
  }

  /** Repetitions 0 .. reps - 1, in order. */
  function RepsLog(plan: seq<Role>, gather: Role, count: nat, reps: nat): seq<Event>
  {
    if reps == 0 then [] else RepsLog(plan, gather, count, reps - 1) + IterationLog(plan, gather, count, reps - 1)
  }

  /** The transfers of `log` that read or write buffer `b`, in log order. */
  function Transfers(log: seq<Event>, b: Buffer): seq<Transfer>
  {
    if |log| == 0 then []
    else
      var e := log[|log| - 1];
      Transfers(log[..|log| - 1], b) + (if e.Copy? && e.transfer.buffer == b then [e.transfer] else [])
  }

  /** How many times the image was built. */
  function CountBuilds(log: seq<Event>): nat
  {
    if |log| == 0 then 0 else CountBuilds(log[..|log| - 1]) + (if log[|log| - 1].Build? then 1 else 0)
  }

  /** The `Install` events of `log`, in order. */
  function Installs(log: seq<Event>): seq<Event>
  {
    if |log| == 0 then []
    else Installs(log[..|log| - 1]) + (if log[|log| - 1].Install? then [log[|log| - 1]] else [])
  }

  /** No two roles of a plan read the same buffer. */
  ghost predicate DistinctBuffers(plan: seq<Role>)
  {
    forall a, b :: 0 <= a < b < |plan| ==> plan[a].buffer != plan[b].buffer
  }

  /**
   * The heap roles of `plan` are laid out by a cursor that starts at `cursor`: each
   * begins where the previous one ended, as the host's `mem_offset` advances.
   */
  predicate LaidOut(plan: seq<Role>, cursor: nat)
  {
    if |plan| == 0 then true
    else if plan[0].region == Heap then plan[0].regionOffset == cursor && LaidOut(plan[1..], cursor + plan[0].length)
    else LaidOut(plan[1..], cursor)
  }

  /**
   * Issue one role block for the `n` units of a wave that starts at global unit `acc`:
   * one prepared transfer per unit, in the unit order of the set.
   */
  method StageRole(log: seq<Event>, r: Role, acc: nat, n: nat, dir: Direction) returns (out: seq<Event>)
    ensures out == log + RoleCopies(r, acc, n, dir)
  {
    out := log;
    var i := 0;
    while i < n
      invariant i <= n
      invariant out == log + RoleCopies(r, acc, i, dir)
    {
      out := out + [Copy(TransferFor(r, acc, i), dir, r.mode)];
      i := i + 1;
    }
  }

  /** Issue the role blocks of `plan`, in order, for one wave. */
  method StagePlan(log: seq<Event>, plan: seq<Role>, acc: nat, n: nat) returns (out: seq<Event>)
    ensures out == log + PlanCopies(plan, acc, n)
  {
    out := log;
    var k := 0;
    while k < |plan|
      invariant k <= |plan|
      invariant out == log + PlanCopies(plan[..k], acc, n)
    {
      assert plan[..k + 1][..k] == plan[..k];
      out := StageRole(out, plan[k], acc, n, ToUnit);
      k := k + 1;
    }
    assert plan[..|plan|] == plan;
  }

  /** Re-stage the whole (fixed) pool positionally, as every program does on repetitions after the first. */
  method ReStage(log: seq<Event>, plan: seq<Role>, count: nat) returns (out: seq<Event>)
    ensures out == log + ReStageLog(plan, count)
  {
    out := StagePlan(log, WithMode(plan, Sync), 0, count);
  }

  /** One repetition of the measured loop (see `IterationLog`). */
  method Iterate(log: seq<Event>, plan: seq<Role>, gather: Role, count: nat, rep: nat) returns (out: seq<Event>)
    ensures out == log + IterationLog(plan, gather, count, rep)
  {
    out := log;
    if rep != 0 {
      out := ReStage(out, plan, count);
    }
    out := out + [Launch(count)];
    out := StageRole(out, gather, 0, count, FromUnit);
  }

  /**
   * The state a staging callback keeps between invocations (its two `static`
   * variables, the cached program handle and the accumulated unit count), together
   * with the log of what it has issued.
   */
  class Callback {
    const plan: seq<Role>
    var acc: nat
    var programBuilt: bool
    var buildCount: nat
    var log: seq<Event>
    /** The sizes of the waves seen so far. */
    ghost var waves: seq<nat>

    ghost predicate Valid()
      reads this
    {
      && acc == Sum(waves)
      && programBuilt == (|waves| > 0)
      && log == RunLog(plan, waves)
      && buildCount == CountBuilds(log)
    }

    constructor (plan: seq<Role>)
      ensures Valid()
      ensures this.plan == plan && waves == []
      ensures acc == 0 && !programBuilt && buildCount == 0 && log == []
    {
      this.plan := plan;
      acc := 0;
      programBuilt := false;
      buildCount := 0;
      log := [];
      waves := [];
    }

    /**
     * The callback itself, for a wave of `n` units: load, then the role blocks in
     * plan order, then `acc += n`.
     */
    method Reclaim(n: nat)
      requires Valid()
      modifies this
      ensures Valid()
      ensures waves == old(waves) + [n]
      ensures acc == old(acc) + n
      ensures programBuilt
      ensures buildCount == old(buildCount) + (if old(programBuilt) then 0 else 1)
      ensures log == old(log) + WaveLog(plan, old(acc), n, old(programBuilt))
    {
      ghost var w0 := waves;
      var out: seq<Event>;
      if programBuilt {
        out := log + [Install(acc, n)];
      } else {
        out := log + [Build, Install(acc, n)];
        buildCount := buildCount + 1;
      }
      out := StagePlan(out, plan, acc, n);
      NextWave(plan, w0, n, log, out);
      programBuilt := true;
      log := out;
      acc := acc + n;
      waves := w0 + [n];
    }
  }

  /** One more callback extends the run log by that wave's log. */
  lemma RunLogStep(plan: seq<Role>, waves: seq<nat>, n: nat)
    ensures Sum(waves + [n]) == Sum(waves) + n
    ensures RunLog(plan, waves + [n]) == RunLog(plan, waves) + WaveLog(plan, Sum(waves), n, |waves| > 0)
  {
    assert (waves + [n])[..|waves|] == waves;
  }

  /** What one callback invocation does to the run log and to the build count. */
  lemma NextWave(plan: seq<Role>, waves: seq<nat>, n: nat, log: seq<Event>, out: seq<Event>)
    requires log == RunLog(plan, waves)
    requires out == log + LoadEvents(Sum(waves), n, |waves| > 0) + PlanCopies(plan, Sum(waves), n)
    ensures Sum(waves + [n]) == Sum(waves) + n
    ensures out == log + WaveLog(plan, Sum(waves), n, |waves| > 0) == RunLog(plan, waves + [n])
    ensures CountBuilds(out) == CountBuilds(log) + (if |waves| > 0 then 0 else 1)
  {
    var wave := WaveLog(plan, Sum(waves), n, |waves| > 0);
    assert out == log + wave by {
      assert wave == LoadEvents(Sum(waves), n, |waves| > 0) + PlanCopies(plan, Sum(waves), n);
    }
    RunLogStep(plan, waves, n);
    CountBuildsOfWave(plan, Sum(waves), n, |waves| > 0);
    CountBuildsAppend(log, wave);
  }

  /** A wave builds the image exactly when no handle exists yet. */
  lemma CountBuildsOfWave(plan: seq<Role>, acc: nat, n: nat, built: bool)
    ensures CountBuilds(WaveLog(plan, acc, n, built)) == if built then 0 else 1
  {
    var load := LoadEvents(acc, n, built);
    CountBuildsOfPlan(plan, acc, n);
    CountBuildsAppend(load, PlanCopies(plan, acc, n));
    if built {
      assert load == [Install(acc, n)];
      assert load[..0] == [];
    } else {
      assert load == [Build, Install(acc, n)];
      assert load[..1] == [Build] && [Build][..0] == [];
    }
  }

  /**
   * The incremental allocator, seen from the host: it invokes the callback once per
   * wave, strictly one after the other.
   */
  method Allocate(plan: seq<Role>, waves: seq<nat>) returns (log: seq<Event>, count: nat)
    ensures log == RunLog(plan, waves)
    ensures count == Sum(waves)
  {
    var cb := new Callback(plan);
    var k := 0;
    while k < |waves|
      invariant k <= |waves|
      invariant cb.Valid() && cb.plan == plan && cb.waves == waves[..k]
    {
      cb.Reclaim(waves[k]);
      assert waves[..k + 1] == waves[..k] + [waves[k]];
      k := k + 1;
    }
    assert waves[..|waves|] == waves;
    log, count := cb.log, cb.acc;
  }

  lemma {:induction false} CountBuildsAppend(a: seq<Event>, c: seq<Event>)
    ensures CountBuilds(a + c) == CountBuilds(a) + CountBuilds(c)
  {
    if |c| == 0 {
      assert a + c == a;
    } else {
      assert (a + c)[..|a + c| - 1] == a + c[..|c| - 1];
      CountBuildsAppend(a, c[..|c| - 1]);
    }
  }

  lemma {:induction false} CountBuildsOfRole(r: Role, acc: nat, n: nat, dir: Direction)
    ensures CountBuilds(RoleCopies(r, acc, n, dir)) == 0
  {
    if n > 0 {
      CountBuildsOfRole(r, acc, n - 1, dir);
      CountBuildsAppend(RoleCopies(r, acc, n - 1, dir), [Copy(TransferFor(r, acc, n - 1), dir, r.mode)]);
      assert [Copy(TransferFor(r, acc, n - 1), dir, r.mode)][..0] == [];
    }
  }

  lemma {:induction false} CountBuildsOfPlan(plan: seq<Role>, acc: nat, n: nat)
    ensures CountBuilds(PlanCopies(plan, acc, n)) == 0
  {
    if |plan| > 0 {
      CountBuildsOfPlan(plan[..|plan| - 1], acc, n);
      CountBuildsOfRole(plan[|plan| - 1], acc, n, ToUnit);
      CountBuildsAppend(PlanCopies(plan[..|plan| - 1], acc, n), RoleCopies(plan[|plan| - 1], acc, n, ToUnit));
    }
  }
}
