/**
 * The time-series host program (TS/host/app_async.c): the padding of the series
 * length, the per-unit slice and argument record, the staging plan of its
 * callback (a cursor laying four roles out back to back, the series role without
 * the accumulated count), the positional re-stage, and the running-minimum merge.
 */
module TsHost {
  import opened Shard
  import opened Staging
  import opened StagingProofs

  const INT32_MAX: int := 2147483647

  /**
   * The series length after padding to a multiple of
   * `nrDpus * nrTasklets * queryLength`, an `unsigned` product taken modulo 2^32; a
   * zero modulus is the fatal division the host would perform.
   */
  function PaddedSize(tsSize: nat, nrDpus: nat, nrTasklets: nat, queryLength: nat): Result<nat>
  {
    var m := Wrap32(nrDpus * nrTasklets * queryLength);
    if m == 0 then DivisionByZero else Ok(PadUp(tsSize, m))
  }

  /**
   * The padded length is the least multiple of the (32-bit) modulus that is at least
   * the requested length, and it is unchanged when it already was one.
   */
  lemma PaddedSizeIsLeastMultiple(tsSize: nat, nrDpus: nat, nrTasklets: nat, queryLength: nat)
    ensures PaddedSize(tsSize, nrDpus, nrTasklets, queryLength).Ok? <==> Wrap32(nrDpus * nrTasklets * queryLength) != 0
    ensures PaddedSize(tsSize, nrDpus, nrTasklets, queryLength).Ok? ==>
      var m, p := Wrap32(nrDpus * nrTasklets * queryLength), PaddedSize(tsSize, nrDpus, nrTasklets, queryLength).value;
      && p % m == 0
      && tsSize <= p < tsSize + m
      && (tsSize % m == 0 ==> p == tsSize)
      && forall k: nat :: tsSize <= k && k % m == 0 ==> p <= k
  {
    var m := Wrap32(nrDpus * nrTasklets * queryLength);
    if m != 0 {
      PadUpIsLeastMultiple(tsSize, m);
    }
  }

  /**
   * With the modulus in range, the slices `ts_size / nr_of_dpus` cover the padded
   * series exactly, and each slice is a whole number of query-length windows for
   * every tasklet of its unit.
   */
  lemma SeriesSlice(tsSize: nat, nrDpus: nat, nrTasklets: nat, queryLength: nat)
    requires 0 < nrDpus * nrTasklets * queryLength < U32
    ensures PaddedSize(tsSize, nrDpus, nrTasklets, queryLength).Ok?
    ensures var p := PaddedSize(tsSize, nrDpus, nrTasklets, queryLength).value;
      (p / nrDpus) * nrDpus == p && (p / nrDpus) % (nrTasklets * queryLength) == 0
  {
    var m := nrDpus * nrTasklets * queryLength;
    assert m == nrDpus * (nrTasklets * queryLength);
    PaddedSizeIsLeastMultiple(tsSize, nrDpus, nrTasklets, queryLength);
    SliceOfPadded(PadUp(tsSize, m), nrDpus, nrTasklets * queryLength);
  }

  /** The unit argument record; the mean and deviation of the query come from floating-point code outside this model. */
  datatype TsArguments = TsArguments(
    tsSize: nat, queryLength: nat, queryMean: int, queryStd: int, slicePerDpu: nat, exclusionZone: int, kernel: int)

  /** The record `main` prepares: the padded length, the slice, no exclusion zone, kernel 0. */
  function MainArguments(tsSize: nat, queryLength: nat, queryMean: int, queryStd: int, slicePerDpu: nat): TsArguments
  {
    TsArguments(tsSize, queryLength, queryMean, queryStd, slicePerDpu, 0, 0)
  }

  /** Before every per-unit copy the callback and the re-stage block clear the exclusion zone of the shared record. */
  function ClearExclusionZone(a: TsArguments): (r: TsArguments)
  {
    a.(exclusionZone := 0)
  }

  /**
   * Clearing gives a record with no exclusion zone and leaves a record unchanged
   * exactly when its zone is already 0, clearing twice is clearing once, and the
   * record `main` prepares is left as it is: every unit receives exactly that
   * record, with exclusion zone 0.
   */
  lemma ExclusionZoneCleared(a: TsArguments, tsSize: nat, queryLength: nat, queryMean: int, queryStd: int, slicePerDpu: nat)
    ensures ClearExclusionZone(a).exclusionZone == 0
    ensures ClearExclusionZone(a) == a <==> a.exclusionZone == 0
    ensures ClearExclusionZone(ClearExclusionZone(a)) == ClearExclusionZone(a)
    ensures var m := MainArguments(tsSize, queryLength, queryMean, queryStd, slicePerDpu);
      ClearExclusionZone(m) == m && m.kernel == 0
  {
  }

  /**
   * The role blocks of the callback, in issue order: the argument record (one
   * blocking copy per unit), then, laid out by an advancing heap cursor, the whole
   * query, the unit's series window (at the slice of its position within its wave),
   * and its mean and deviation windows (at the slice of its global index). Each
   * window holds `slice + queryLength` elements of `sz` bytes.
   */
  function Plan(slice: nat, queryLength: nat, sz: nat, argsLen: nat): seq<Role>
  {
    var q, w := queryLength * sz, (slice + queryLength) * sz;
    [ Role(Arguments, InputArguments, 0, argsLen, 0, false, Sync),
      Role(QueryBuf, Heap, 0, q, 0, false, Async),
      Role(SeriesBuf, Heap, q, w, slice, false, Async),
      Role(MeanBuf, Heap, q + w, w, slice, true, Async),
      Role(SigmaBuf, Heap, q + w + w, w, slice, true, Async) ]
  }

  /** The retrieval of every unit's per-tasklet result records into its own buffer. */
  function Gather(nrTasklets: nat, resultLen: nat): Role
  {
    Role(ResultBufs, Results, 0, nrTasklets * resultLen, 1, false, Sync)
  }

  /**
   * The cursor lays the four heap roles out as adjacent, pairwise disjoint
   * intervals: the query at [0, q), then three windows of `w` bytes each.
   */
  lemma PlanLayout(slice: nat, queryLength: nat, sz: nat, argsLen: nat)
    ensures DistinctBuffers(Plan(slice, queryLength, sz, argsLen))
    ensures LaidOut(Plan(slice, queryLength, sz, argsLen), 0)
    ensures var plan, q, w := Plan(slice, queryLength, sz, argsLen), queryLength * sz, (slice + queryLength) * sz;
      && plan[1].regionOffset == 0 && plan[1].length == q
      && plan[2].regionOffset == q && plan[3].regionOffset == q + w && plan[4].regionOffset == q + 2 * w
      && plan[2].length == w && plan[3].length == w && plan[4].length == w
      && forall a, b :: 0 <= a < b < |plan| && plan[a].region == Heap && plan[b].region == Heap ==>
           plan[a].regionOffset + plan[a].length <= plan[b].regionOffset
  {
    var plan := Plan(slice, queryLength, sz, argsLen);
    var q, w := queryLength * sz, (slice + queryLength) * sz;
    assert plan[1..][1..] == plan[2..] && plan[2..][1..] == plan[3..];
    assert plan[3..][1..] == plan[4..] && plan[4..][1..] == plan[5..];
    assert LaidOut(plan[4..], q + w + w);
    assert LaidOut(plan[2..], q);
    LaidOutDisjoint(plan, 0);
  }

  /**
   * Whatever the waves, every unit gets the argument record and the whole query, and
   * the mean and deviation windows of global unit j start at `slice * j`.
   */
  lemma WaveStaging(slice: nat, queryLength: nat, sz: nat, argsLen: nat, waves: seq<nat>)
    ensures var plan := Plan(slice, queryLength, sz, argsLen);
      && Transfers(RunLog(plan, waves), Arguments) == PositionalTransfers(plan[0], Sum(waves))
      && Transfers(RunLog(plan, waves), QueryBuf) == PositionalTransfers(plan[1], Sum(waves))
      && Transfers(RunLog(plan, waves), MeanBuf) == PositionalTransfers(plan[3], Sum(waves))
      && Transfers(RunLog(plan, waves), SigmaBuf) == PositionalTransfers(plan[4], Sum(waves))
  {
    var plan := Plan(slice, queryLength, sz, argsLen);
    PlanLayout(slice, queryLength, sz, argsLen);
    WaveIndependence(plan, waves, 0);
    WaveIndependence(plan, waves, 1);
    WaveIndependence(plan, waves, 3);
    WaveIndependence(plan, waves, 4);
  }

  /**
   * The series window of global unit j starts at the slice of its position within its
   * own wave, `slice * (j - WaveStart(waves, j))`, because that role omits the
   * accumulated count.
   */
  lemma SeriesStaging(slice: nat, queryLength: nat, sz: nat, argsLen: nat, waves: seq<nat>, j: nat)
    requires j < Sum(waves)
    ensures var log := RunLog(Plan(slice, queryLength, sz, argsLen), waves);
      && |Transfers(log, SeriesBuf)| == Sum(waves)
      && WaveStart(waves, j) <= j
      && Transfers(log, SeriesBuf)[j] ==
           Transfer(j, Heap, queryLength * sz, SeriesBuf, slice * (j - WaveStart(waves, j)), (slice + queryLength) * sz)
  {
    PlanLayout(slice, queryLength, sz, argsLen);
    WaveRelativeOffsets(Plan(slice, queryLength, sz, argsLen), waves, 2, j);
  }

  /**
   * The positional re-stage of later repetitions sends the same argument, query,
   * mean and deviation transfers as acquisition did; it sends the same series
   * transfers exactly when the slice is empty or the whole pool arrived in one first
   * wave, so otherwise the series windows of later repetitions differ from those of
   * the first.
   */
  lemma ReStageAgainstWaves(slice: nat, queryLength: nat, sz: nat, argsLen: nat, waves: seq<nat>)
    ensures var plan := Plan(slice, queryLength, sz, argsLen);
      forall k :: 0 <= k < |plan| && k != 2 ==>
        Transfers(ReStageLog(plan, Sum(waves)), plan[k].buffer) == Transfers(RunLog(plan, waves), plan[k].buffer)
    ensures var plan := Plan(slice, queryLength, sz, argsLen);
      (Transfers(ReStageLog(plan, Sum(waves)), SeriesBuf) == Transfers(RunLog(plan, waves), SeriesBuf))
        <==> slice == 0 || forall j: nat :: j < Sum(waves) ==> WaveStart(waves, j) == 0
  {
    var plan := Plan(slice, queryLength, sz, argsLen);
    PlanLayout(slice, queryLength, sz, argsLen);
    forall k | 0 <= k < |plan| && k != 2
      ensures Transfers(ReStageLog(plan, Sum(waves)), plan[k].buffer) == Transfers(RunLog(plan, waves), plan[k].buffer)
    {
      ReStageMatchesWaves(plan, waves, k);
    }
    ReStageMatchesWaves(plan, waves, 2);
  }

  /** A tasklet result record (and the host's running result). */
  datatype TsResult = TsResult(minValue: int, minIndex: int, maxValue: int, maxIndex: int)

  /** The seed of the running result. */
  const Seed: TsResult := TsResult(INT32_MAX, 0, 0, 0)

  /**
   * One merge step for record `rec` of unit `i`: a strictly smaller, strictly positive
   * value replaces the minimum, its index rebased by the unit's slice start.
   */
  function MergeStep(res: TsResult, rec: TsResult, i: nat, slice: nat): TsResult
  {
    if rec.minValue < res.minValue && rec.minValue > 0 then res.(minValue := rec.minValue, minIndex := rec.minIndex + i * slice)
    else res
  }

  /** The running result over the first `t` records of unit `i`. */
  function MinRow(res: TsResult, results: array2<TsResult>, slice: nat, i: nat, t: nat): TsResult
    requires i < results.Length0 && t <= results.Length1
    reads results
  {
    if t == 0 then res else MergeStep(MinRow(res, results, slice, i, t - 1), results[i, t - 1], i, slice)
  }

  /** The running result over the records of the first `n` units. */
  function MinRows(res: TsResult, results: array2<TsResult>, slice: nat, n: nat): TsResult
    requires n <= results.Length0
    reads results
  {
    if n == 0 then res else MinRow(MinRows(res, results, slice, n - 1), results, slice, n - 1, results.Length1)
  }

  /** The merge of one repetition, unit by unit and tasklet by tasklet. */
  method MergeMin(result: TsResult, results: array2<TsResult>, slice: nat) returns (merged: TsResult)
    ensures merged == MinRows(result, results, slice, results.Length0)
  {
    merged := result;
    var i := 0;
    while i < results.Length0
      invariant i <= results.Length0
      invariant merged == MinRows(result, results, slice, i)
    {
      var t := 0;
      while t < results.Length1
        invariant t <= results.Length1
        invariant merged == MinRow(MinRows(result, results, slice, i), results, slice, i, t)
      {
        if results[i, t].minValue < merged.minValue && results[i, t].minValue > 0 {
          merged := merged.(minValue := results[i, t].minValue, minIndex := results[i, t].minIndex + i * slice);
        }
        t := t + 1;
      }
      i := i + 1;
    }
  }

  /** What a merge over some records guarantees (see `MinRowsIsMinimum`). */
  ghost predicate MinOf(res: TsResult, merged: TsResult, results: array2<TsResult>, slice: nat, n: nat, t: nat)
    requires n <= results.Length0 && t <= results.Length1
    reads results
  {
    && merged.minValue <= res.minValue
    && merged.maxValue == res.maxValue && merged.maxIndex == res.maxIndex
    && (forall i, u :: 0 <= i < n && 0 <= u < t && results[i, u].minValue > 0 ==> merged.minValue <= results[i, u].minValue)
    && (merged == res || exists i, u :: (0 <= i < n && 0 <= u < t && results[i, u].minValue > 0 &&
          merged.minValue == results[i, u].minValue && merged.minIndex == results[i, u].minIndex + i * slice))
  }

  /**
   * Over one unit's records: the minimum never increases, bounds every positive
   * record, and is either untouched or taken, with its rebased index, from one of them.
   */
  lemma {:induction false} MinRowIsMinimum(res: TsResult, results: array2<TsResult>, slice: nat, i: nat, t: nat)
    requires i < results.Length0 && t <= results.Length1
    ensures var m := MinRow(res, results, slice, i, t);
      && m.minValue <= res.minValue
      && m.maxValue == res.maxValue && m.maxIndex == res.maxIndex
      && (forall u :: 0 <= u < t && results[i, u].minValue > 0 ==> m.minValue <= results[i, u].minValue)
      && (m == res || exists u :: (0 <= u < t && results[i, u].minValue > 0 &&
            m.minValue == results[i, u].minValue && m.minIndex == results[i, u].minIndex + i * slice))
  {
    if t > 0 {
      MinRowIsMinimum(res, results, slice, i, t - 1);
    }
  }

  /**
   * Over the records of the first `n` units: the minimum never increases, bounds
   * every positive record, the maximum fields are never touched, and the result is
   * untouched or taken from one positive record with the index rebased by
   * `i * slice`.
   */
  lemma {:induction false} MinRowsIsMinimum(res: TsResult, results: array2<TsResult>, slice: nat, n: nat)
    requires n <= results.Length0
    ensures MinOf(res, MinRows(res, results, slice, n), results, slice, n, results.Length1)
  {
    if n > 0 {
      var prev := MinRows(res, results, slice, n - 1);
      MinRowsIsMinimum(res, results, slice, n - 1);
      MinRowIsMinimum(prev, results, slice, n - 1, results.Length1);
      var m := MinRows(res, results, slice, n);
      if m != prev {
        var u :| 0 <= u < results.Length1 && results[n - 1, u].minValue > 0 &&
          m.minValue == results[n - 1, u].minValue && m.minIndex == results[n - 1, u].minIndex + (n - 1) * slice;
      }
    }
  }

  /**
   * The measured loop over a pool of `count` units: each repetition re-stages (after
   * the first), launches, retrieves and merges. The running minimum never
   * increases from one repetition to the next.
   */
  method Repetitions(log: seq<Event>, plan: seq<Role>, gather: Role, count: nat, nrTasklets: nat, slice: nat,
                     retrieved: seq<array2<TsResult>>)
    returns (out: seq<Event>, result: TsResult)
    requires forall rep :: 0 <= rep < |retrieved| ==> retrieved[rep].Length0 == count && retrieved[rep].Length1 == nrTasklets
    ensures out == log + RepsLog(plan, gather, count, |retrieved|)
    ensures result.minValue <= INT32_MAX && result.maxValue == 0 && result.maxIndex == 0
    ensures forall rep, i, t :: 0 <= rep < |retrieved| && 0 <= i < count && 0 <= t < nrTasklets && retrieved[rep][i, t].minValue > 0 ==>
              result.minValue <= retrieved[rep][i, t].minValue
    ensures result == Seed || exists rep, i, t :: (0 <= rep < |retrieved| && 0 <= i < count && 0 <= t < nrTasklets &&
              retrieved[rep][i, t].minValue > 0 &&
              result.minValue == retrieved[rep][i, t].minValue && result.minIndex == retrieved[rep][i, t].minIndex + i * slice)
  {
    out := log;
    result := Seed;
    var rep := 0;
    while rep < |retrieved|
      invariant rep <= |retrieved|
      invariant out == log + RepsLog(plan, gather, count, rep)
      invariant result.minValue <= INT32_MAX && result.maxValue == 0 && result.maxIndex == 0
      invariant forall p, i, t :: 0 <= p < rep && 0 <= i < count && 0 <= t < nrTasklets && retrieved[p][i, t].minValue > 0 ==>
                  result.minValue <= retrieved[p][i, t].minValue
      invariant result == Seed || exists p, i, t :: (0 <= p < rep && 0 <= i < count && 0 <= t < nrTasklets &&
                  retrieved[p][i, t].minValue > 0 &&
                  result.minValue == retrieved[p][i, t].minValue && result.minIndex == retrieved[p][i, t].minIndex + i * slice)
    {
      out := Iterate(out, plan, gather, count, rep);
      var before := result;
      result := MergeMin(result, retrieved[rep], slice);
      MinRowsIsMinimum(before, retrieved[rep], slice, count);
      rep := rep + 1;
    }
  }

  /**
   * The host program after its command line, up to the merge: pad the series,
   * prepare the argument record, acquire the pool wave by wave, load the image on
   * the whole pool once more, and run the repetitions. `retrieved[rep]` stands for
   * the records the units return on repetition `rep`; a zero padding modulus is the
   * host's fatal division and ends the run with nothing issued.
   */
  method Host(tsSize: nat, queryLength: nat, queryMean: int, queryStd: int, nrDpus: nat, nrTasklets: nat,
              sz: nat, argsLen: nat, resultLen: nat, waves: seq<nat>, retrieved: seq<array2<TsResult>>)
    returns (ok: bool, args: TsArguments, log: seq<Event>, result: TsResult)
    requires forall rep :: 0 <= rep < |retrieved| ==> retrieved[rep].Length0 == Sum(waves) && retrieved[rep].Length1 == nrTasklets
    ensures ok <==> PaddedSize(tsSize, nrDpus, nrTasklets, queryLength).Ok?
    ensures !ok ==> log == []
    ensures ok ==>
      var padded := PaddedSize(tsSize, nrDpus, nrTasklets, queryLength).value;
      var slice := padded / nrDpus;
      var plan := Plan(slice, queryLength, sz, argsLen);
      && args == MainArguments(padded, queryLength, queryMean, queryStd, slice)
      && ClearExclusionZone(args) == args
      && log == RunLog(plan, waves) + [PoolLoad(Sum(waves))] + RepsLog(plan, Gather(nrTasklets, resultLen), Sum(waves), |retrieved|)
      && result.minValue <= INT32_MAX && result.maxValue == 0 && result.maxIndex == 0
      && (forall rep, i, t :: 0 <= rep < |retrieved| && 0 <= i < Sum(waves) && 0 <= t < nrTasklets && retrieved[rep][i, t].minValue > 0 ==>
            result.minValue <= retrieved[rep][i, t].minValue)
      && (result == Seed || exists rep, i, t :: (0 <= rep < |retrieved| && 0 <= i < Sum(waves) && 0 <= t < nrTasklets &&
            retrieved[rep][i, t].minValue > 0 &&
            result.minValue == retrieved[rep][i, t].minValue && result.minIndex == retrieved[rep][i, t].minIndex + i * slice))
  {
    var padding := PaddedSize(tsSize, nrDpus, nrTasklets, queryLength);
    if padding.DivisionByZero? {
      return false, MainArguments(tsSize, queryLength, queryMean, queryStd, 0), [], Seed;
    }
    ok := true;
    var padded := padding.value;
    assert nrDpus > 0;
    var slice := padded / nrDpus;
    args := MainArguments(padded, queryLength, queryMean, queryStd, slice);
    var plan := Plan(slice, queryLength, sz, argsLen);
    var count;
    log, count := Allocate(plan, waves);
    log := log + [PoolLoad(count)];
    log, result := Repetitions(log, plan, Gather(nrTasklets, resultLen), count, nrTasklets, slice, retrieved);
  }
}
