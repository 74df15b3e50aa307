/**
 * The vector-addition host program (VA/host/app_async.c): the sizing of the input
 * and of its per-unit tiles, the per-unit argument records, the staging plan of its
 * callback and re-stage block, the retrieval that tiles the output buffer, the host
 * reference addition and the output check.
 *
 * `roundup` and `divceil` are macros of a header that is not part of this model;
 * they are parameters here, and lemmas that need their meaning state it as a
 * precondition on the values involved.
 */
module VaHost {
  import opened Shard
  import opened Staging
  import opened StagingProofs

  /** The four sizes `main` derives, in elements; each is an `unsigned int`. */
  datatype Sizes = Sizes(inputSize: nat, inputSize8: nat, inputSizeDpu: nat, inputSizeDpu8: nat)

  /** An element count rounded up to 8 elements unless its byte size (`sz` bytes per element) is already a multiple of 8. */
  function Align8(x: nat, sz: nat, roundup: (nat, nat) -> nat): nat
  {
    if (x * sz) % 8 != 0 then Wrap32(roundup(x, 8)) else x
  }

  /**
   * The sizes for `nrDpus` units: the total input (`inputSizeParam` per unit under
   * weak scaling, `exp == 0`, else in total), its aligned count, the per-unit tile
   * `divceil(input_size, nr_of_dpus)` and the aligned tile.
   */
  function ComputeSizes(exp: int, inputSizeParam: nat, nrDpus: nat, sz: nat,
                        roundup: (nat, nat) -> nat, divceil: (nat, nat) -> nat): Sizes
  {
    var n := if exp == 0 then Wrap32(inputSizeParam * nrDpus) else Wrap32(inputSizeParam);
    var d := Wrap32(divceil(n, nrDpus));
    Sizes(n, Align8(n, sz, roundup), d, Align8(d, sz, roundup))
  }

  /**
   * A count whose byte size is already a multiple of 8 is left as it is; otherwise,
   * when `roundup(x, 8)` is the multiple of 8 it is meant to be (and fits), the
   * aligned count is at least `x` and its byte size is a multiple of 8.
   */
  lemma Align8Properties(x: nat, sz: nat, roundup: (nat, nat) -> nat)
    ensures (x * sz) % 8 == 0 ==> Align8(x, sz, roundup) == x
    ensures x <= roundup(x, 8) < U32 && roundup(x, 8) % 8 == 0 ==>
      x <= Align8(x, sz, roundup) && (Align8(x, sz, roundup) * sz) % 8 == 0
  {
    var r := roundup(x, 8);
    if (x * sz) % 8 != 0 && x <= r < U32 && r % 8 == 0 {
      var c := r / 8;
      assert r == c * 8;
      assert r * sz == (c * sz) * 8;
      MultipleMod(c * sz, 8);
    }
  }

  /**
   * When `divceil` is the ceiling division it is named for and every size fits, the
   * `nrDpus` aligned tiles cover the whole input.
   */
  lemma TilesCover(exp: int, inputSizeParam: nat, nrDpus: nat, sz: nat,
                   roundup: (nat, nat) -> nat, divceil: (nat, nat) -> nat)
    requires nrDpus > 0
    requires var n := ComputeSizes(exp, inputSizeParam, nrDpus, sz, roundup, divceil).inputSize;
      divceil(n, nrDpus) == (n + nrDpus - 1) / nrDpus
    requires var d := ComputeSizes(exp, inputSizeParam, nrDpus, sz, roundup, divceil).inputSizeDpu;
      d <= roundup(d, 8) < U32
    ensures var s := ComputeSizes(exp, inputSizeParam, nrDpus, sz, roundup, divceil);
      s.inputSizeDpu * nrDpus >= s.inputSize && s.inputSizeDpu8 * nrDpus >= s.inputSize
  {
    var s := ComputeSizes(exp, inputSizeParam, nrDpus, sz, roundup, divceil);
    var n, d := s.inputSize, s.inputSizeDpu;
    CeilDivCovers(n, nrDpus);
    assert d == (n + nrDpus - 1) / nrDpus;
    Align8Properties(d, sz, roundup);
    MulLeq(d, s.inputSizeDpu8, nrDpus);
  }

  /** The ceiling quotient times the divisor reaches the dividend, and it is no larger than the dividend. */
  lemma CeilDivCovers(n: nat, d: nat)
    requires d > 0
    ensures ((n + d - 1) / d) * d >= n
    ensures (n + d - 1) / d <= n
  {
    var q, r := (n + d - 1) / d, (n + d - 1) % d;
    assert n + d - 1 == q * d + r;
    if q > n {
      MulLeq(n + 1, q, d);
      MulLeq(1, d, n);
    }
  }

  /** One unit's argument record; `kernel` is the kernel selector. */
  datatype VaArguments = VaArguments(size: nat, transferSize: nat, kernel: nat)

  /**
   * The byte size of the last unit's share, `(input_size_8bytes -
   * input_size_dpu_8bytes * (NR_DPUS - 1)) * sizeof(T)`: the subtraction is
   * `unsigned`, so it wraps when the other tiles already exceed the input.
   */
  function LastSize(inputSize8: nat, tile8: nat, nrDpus: nat, sz: nat): nat
    requires nrDpus >= 1
  {
    Wrap32(inputSize8 - tile8 * (nrDpus - 1)) * sz
  }

  /** The records `main` prepares for `nrDpus` units: full tiles for all but the last, the remainder for the last, kernel 0. */
  function ArgumentRecords(nrDpus: nat, inputSize8: nat, tile8: nat, sz: nat): (r: seq<VaArguments>)
    requires nrDpus >= 1
    ensures |r| == nrDpus
  {
    seq(nrDpus, i requires 0 <= i < nrDpus =>
      if i < nrDpus - 1 then VaArguments(tile8 * sz, tile8 * sz, 0)
      else VaArguments(LastSize(inputSize8, tile8, nrDpus, sz), tile8 * sz, 0))
  }

  /** Fill `input_arguments[0 .. NR_DPUS - 1]`, one record per unit. */
  method FillArguments(args: array<VaArguments>, inputSize8: nat, tile8: nat, sz: nat)
    requires args.Length >= 1
    modifies args
    ensures args[..] == ArgumentRecords(args.Length, inputSize8, tile8, sz)
  {
    var n := args.Length;
    var i := 0;
    while i < n - 1
      invariant i <= n - 1
      invariant forall k :: 0 <= k < i ==> args[k] == VaArguments(tile8 * sz, tile8 * sz, 0)
    {
      args[i] := VaArguments(tile8 * sz, tile8 * sz, 0);
      i := i + 1;
    }
    args[n - 1] := VaArguments(LastSize(inputSize8, tile8, n, sz), tile8 * sz, 0);
  }

  /** The total byte size the records assign. */
  function TotalSize(r: seq<VaArguments>): nat
  {
    if |r| == 0 then 0 else TotalSize(r[..|r| - 1]) + r[|r| - 1].size
  }

  /**
   * When the full tiles do not exceed the aligned input, the records share it out
   * exactly: the sizes add up to the aligned input's byte size, every record moves a
   * whole tile, and only the last may hold less than it moves exactly when the tiles
   * overshoot the input.
   */
  lemma {:induction false} RecordsShareInput(nrDpus: nat, inputSize8: nat, tile8: nat, sz: nat)
    requires nrDpus >= 1 && tile8 * (nrDpus - 1) <= inputSize8 < U32
    ensures var r := ArgumentRecords(nrDpus, inputSize8, tile8, sz);
      && TotalSize(r) == inputSize8 * sz
      && (forall i :: 0 <= i < nrDpus ==> r[i].transferSize == tile8 * sz && r[i].kernel == 0)
      && (r[nrDpus - 1].size <= tile8 * sz <==> inputSize8 <= tile8 * nrDpus || sz == 0)
  {
    var r := ArgumentRecords(nrDpus, inputSize8, tile8, sz);
    var k := nrDpus - 1;
    var rest := inputSize8 - tile8 * k;
    assert LastSize(inputSize8, tile8, nrDpus, sz) == rest * sz;
    assert r[k] == VaArguments(LastSize(inputSize8, tile8, nrDpus, sz), tile8 * sz, 0);
    FullTilesTotal(r, k, tile8 * sz);
    assert r[..k + 1] == r;
    assert TotalSize(r) == TotalSize(r[..k]) + r[k].size;
    ShareArithmetic(k, tile8, inputSize8, sz);
  }

  /** `k` full tiles of `t` elements and the remainder of `total` add up to `total`, in bytes. */
  lemma ShareArithmetic(k: nat, t: nat, total: nat, sz: nat)
    requires t * k <= total
    ensures k * (t * sz) + (total - t * k) * sz == total * sz
    ensures (total - t * k) * sz <= t * sz <==> total <= t * (k + 1) || sz == 0
  {
    var rest := total - t * k;
    assert k * (t * sz) == (t * k) * sz;
    assert (t * k) * sz + rest * sz == (t * k + rest) * sz;
    assert t * (k + 1) == t * k + t;
    if sz > 0 {
      if rest <= t {
        MulLeq(rest, t, sz);
      } else {
        MulLeq(t + 1, rest, sz);
        assert (t + 1) * sz == t * sz + sz;
      }
    }
  }

  /** The first `k` records, each of byte size `full`, total `k * full`. */
  lemma {:induction false} FullTilesTotal(r: seq<VaArguments>, k: nat, full: nat)
    requires k <= |r| && forall i :: 0 <= i < k ==> r[i].size == full
    ensures TotalSize(r[..k]) == k * full
  {
    if k > 0 {
      assert r[..k][..k - 1] == r[..k - 1];
      FullTilesTotal(r, k - 1, full);
    }
  }

  /**
   * The unsigned remainder: when the full tiles exceed the aligned input by `e`
   * elements (less than 2^32), the last record's size is `(2^32 - e) * sz` bytes
   * rather than anything near the input.
   */
  lemma LastSizeWraps(nrDpus: nat, inputSize8: nat, tile8: nat, sz: nat)
    requires nrDpus >= 1 && inputSize8 < tile8 * (nrDpus - 1) < inputSize8 + U32
    ensures LastSize(inputSize8, tile8, nrDpus, sz) == (U32 - (tile8 * (nrDpus - 1) - inputSize8)) * sz
  {
    var e := tile8 * (nrDpus - 1) - inputSize8;
    var x := inputSize8 - tile8 * (nrDpus - 1);
    assert x == -1 * U32 + (U32 - e);
    DivModUnique(x, U32, -1, U32 - e);
  }

  /**
   * The role blocks of the callback, in issue order: unit j's argument record
   * (element j of the record array), its tile of `a` at heap offset 0 and its tile of
   * `b` right after it. Every role offsets by the accumulated count.
   */
  function Plan(tile8: nat, sz: nat, argsLen: nat): seq<Role>
  {
    [ Role(Arguments, InputArguments, 0, argsLen, 1, true, Async),
      Role(VectorA, Heap, 0, tile8 * sz, tile8, true, Async),
      Role(VectorB, Heap, tile8 * sz, tile8 * sz, tile8, true, Async) ]
  }

  /** The retrieval: unit i's result region (where `b` was staged) into `bufferC + tile8 * i`. */
  function Gather(tile8: nat, sz: nat): Role
  {
    Role(VectorC, Heap, tile8 * sz, tile8 * sz, tile8, false, Sync)
  }

  /**
   * The two heap tiles are adjacent and disjoint, A at [0, t) and B at [t, 2t) for
   * `t = tile8 * sz`, and the retrieval reads exactly the B interval.
   */
  lemma PlanLayout(tile8: nat, sz: nat, argsLen: nat)
    ensures DistinctBuffers(Plan(tile8, sz, argsLen))
    ensures LaidOut(Plan(tile8, sz, argsLen), 0)
    ensures var plan := Plan(tile8, sz, argsLen);
      && plan[1].regionOffset == 0 && plan[1].regionOffset + plan[1].length == plan[2].regionOffset
      && plan[2].regionOffset + plan[2].length == 2 * (tile8 * sz)
      && Gather(tile8, sz).region == plan[2].region
      && Gather(tile8, sz).regionOffset == plan[2].regionOffset && Gather(tile8, sz).length == plan[2].length
  {
    var plan := Plan(tile8, sz, argsLen);
    assert plan[1..][1..] == plan[2..] && plan[2..][1..] == plan[3..];
    assert LaidOut(plan[2..], tile8 * sz);
  }

  /**
   * Whatever the waves, global unit j receives argument record j and the tiles of
   * `a` and `b` at `tile8 * j`, and the positional re-stage issues exactly the same
   * transfers for every role.
   */
  lemma WaveStaging(tile8: nat, sz: nat, argsLen: nat, waves: seq<nat>)
    ensures var log, n := RunLog(Plan(tile8, sz, argsLen), waves), Sum(waves);
      && |Transfers(log, Arguments)| == n && |Transfers(log, VectorA)| == n && |Transfers(log, VectorB)| == n
      && (forall j :: 0 <= j < n ==> Transfers(log, Arguments)[j] == Transfer(j, InputArguments, 0, Arguments, j, argsLen))
      && (forall j :: 0 <= j < n ==> Transfers(log, VectorA)[j] == Transfer(j, Heap, 0, VectorA, tile8 * j, tile8 * sz))
      && (forall j :: 0 <= j < n ==>
            Transfers(log, VectorB)[j] == Transfer(j, Heap, tile8 * sz, VectorB, tile8 * j, tile8 * sz))
    ensures var plan := Plan(tile8, sz, argsLen);
      forall k :: 0 <= k < |plan| ==>
        Transfers(ReStageLog(plan, Sum(waves)), plan[k].buffer) == Transfers(RunLog(plan, waves), plan[k].buffer)
  {
    var plan := Plan(tile8, sz, argsLen);
    PlanLayout(tile8, sz, argsLen);
    WaveIndependence(plan, waves, 0);
    WaveIndependence(plan, waves, 1);
    WaveIndependence(plan, waves, 2);
    forall k | 0 <= k < |plan|
      ensures Transfers(ReStageLog(plan, Sum(waves)), plan[k].buffer) == Transfers(RunLog(plan, waves), plan[k].buffer)
    {
      ReStageMatchesWaves(plan, waves, k);
    }
  }

  /**
   * The output buffer after the retrieval, when unit j's result region holds
   * `outputs[j]` (`s` elements each): the tiles one after the other.
   */
  function Gathered(outputs: seq<seq<int>>, s: nat): (c: seq<int>)
    requires forall j :: 0 <= j < |outputs| ==> |outputs[j]| == s
    ensures |c| == s * |outputs|
  {
    if |outputs| == 0 then []
    else
      var m := |outputs|;
      assert s * (m - 1) + s == s * m;
      Gathered(outputs[..m - 1], s) + outputs[m - 1]
  }

  /** Element e of unit j's tile lands at `s * j + e` of the output buffer. */
  lemma {:induction false} GatheredAt(outputs: seq<seq<int>>, s: nat, j: nat, e: nat)
    requires forall i :: 0 <= i < |outputs| ==> |outputs[i]| == s
    requires j < |outputs| && e < s
    ensures s * j + e < |Gathered(outputs, s)| && Gathered(outputs, s)[s * j + e] == outputs[j][e]
  {
    var m := |outputs|;
    var c0 := Gathered(outputs[..m - 1], s);
    assert Gathered(outputs, s) == c0 + outputs[m - 1];
    if j < m - 1 {
      GatheredAt(outputs[..m - 1], s, j, e);
    } else {
      assert s * j + e == |c0| + e;
    }
  }

  /** Position k of `m` tiles of `s` elements is element `k % s` of tile `k / s`. */
  lemma TileOf(m: nat, s: nat, k: nat)
    requires s > 0 && k < s * m
    ensures k / s < m && k == s * (k / s) + k % s
  {
    if k / s >= m {
      MulLeq(m, k / s, s);
    }
  }

  /** `vector_addition_host`: the reference sums of the first `nrElements` elements. */
  method VectorAdditionHost(c: array<int>, a: array<int>, b: array<int>, nrElements: nat)
    requires nrElements <= c.Length && nrElements <= a.Length && nrElements <= b.Length
    requires c != a && c != b
    modifies c
    ensures forall k :: 0 <= k < nrElements ==> c[k] == a[k] + b[k]
    ensures forall k :: nrElements <= k < c.Length ==> c[k] == old(c[k])
  {
    var i := 0;
    while i < nrElements
      invariant i <= nrElements
      invariant forall k :: 0 <= k < i ==> c[k] == a[k] + b[k]
      invariant forall k :: i <= k < c.Length ==> c[k] == old(c[k])
    {
      c[i] := a[i] + b[i];
      i := i + 1;
    }
  }

  /** The output check: the status is false exactly when some element of the input range differs. */
  method CheckOutput(c: array<int>, bufferC: array<int>, inputSize: nat) returns (status: bool)
    requires inputSize <= c.Length && inputSize <= bufferC.Length
    ensures status <==> forall k :: 0 <= k < inputSize ==> c[k] == bufferC[k]
    ensures !status <==> exists k :: 0 <= k < inputSize && c[k] != bufferC[k]
  {
    status := true;
    var i := 0;
    while i < inputSize
      invariant i <= inputSize
      invariant status <==> forall k :: 0 <= k < i ==> c[k] == bufferC[k]
    {
      if c[i] != bufferC[i] {
        status := false;
      }
      i := i + 1;
    }
  }

  /**
   * If every unit j leaves in its result region the sums of its tiles of `a` and
   * `b`, and the tiles cover the input, the gathered output agrees with the host
   * reference on the whole input range, so the check passes.
   */
  lemma CorrectUnitsPass(a: seq<int>, b: seq<int>, outputs: seq<seq<int>>, s: nat, inputSize: nat)
    requires forall j :: 0 <= j < |outputs| ==> |outputs[j]| == s
    requires inputSize <= s * |outputs| && inputSize <= |a| && inputSize <= |b|
    requires forall j, e :: 0 <= j < |outputs| && 0 <= e < s && s * j + e < inputSize ==>
      outputs[j][e] == a[s * j + e] + b[s * j + e]
    ensures forall k :: 0 <= k < inputSize ==> Gathered(outputs, s)[k] == a[k] + b[k]
  {
    forall k | 0 <= k < inputSize
      ensures Gathered(outputs, s)[k] == a[k] + b[k]
    {
      TileOf(|outputs|, s, k);
      GatheredAt(outputs, s, k / s, k % s);
    }
  }

  /**
   * The measured loop: each repetition computes the host reference, then re-stages
   * (after the first), launches and retrieves.
   */
  method Repetitions(c: array<int>, a: array<int>, b: array<int>, input: nat, log: seq<Event>,
                     plan: seq<Role>, gather: Role, count: nat, reps: nat) returns (out: seq<Event>)
    requires input <= c.Length && input <= a.Length && input <= b.Length
    requires c != a && c != b
    modifies c
    ensures out == log + RepsLog(plan, gather, count, reps)
    ensures reps > 0 ==> forall k :: 0 <= k < input ==> c[k] == a[k] + b[k]
    ensures reps == 0 ==> c[..] == old(c[..])
    ensures forall k :: input <= k < c.Length ==> c[k] == old(c[k])
  {
    out := log;
    var rep := 0;
    while rep < reps
      invariant rep <= reps
      invariant out == log + RepsLog(plan, gather, count, rep)
      invariant rep > 0 ==> forall k :: 0 <= k < input ==> c[k] == a[k] + b[k]
      invariant rep == 0 ==> c[..] == old(c[..])
      invariant forall k :: input <= k < c.Length ==> c[k] == old(c[k])
    {
      VectorAdditionHost(c, a, b, input);
      out := Iterate(out, plan, gather, count, rep);
      rep := rep + 1;
    }
  }

  /**
   * The host program after its command line: size the input, prepare the records,
   * acquire the pool wave by wave, and run `reps` repetitions (host reference,
   * re-stage after the first, launch, retrieve), then check the output. `a` and `b`
   * are the inputs (their generation is not modelled) and `bufferC` stands for the
   * output buffer as the retrievals leave it.
   */
  method Host(exp: int, inputSizeParam: nat, nrDpus: nat, sz: nat, argsLen: nat,
              roundup: (nat, nat) -> nat, divceil: (nat, nat) -> nat,
              waves: seq<nat>, reps: nat, a: array<int>, b: array<int>, bufferC: array<int>)
    returns (sizes: Sizes, records: seq<VaArguments>, log: seq<Event>, status: bool)
    requires nrDpus >= 1
    requires var n := ComputeSizes(exp, inputSizeParam, nrDpus, sz, roundup, divceil).inputSize;
      n <= a.Length && n <= b.Length && n <= bufferC.Length
    ensures sizes == ComputeSizes(exp, inputSizeParam, nrDpus, sz, roundup, divceil)
    ensures records == ArgumentRecords(nrDpus, sizes.inputSize8, sizes.inputSizeDpu8, sz)
    ensures var plan := Plan(sizes.inputSizeDpu8, sz, argsLen);
      log == RunLog(plan, waves) + RepsLog(plan, Gather(sizes.inputSizeDpu8, sz), Sum(waves), reps)
    ensures reps > 0 ==> (status <==> forall k :: 0 <= k < sizes.inputSize ==> a[k] + b[k] == bufferC[k])
  {
    sizes := ComputeSizes(exp, inputSizeParam, nrDpus, sz, roundup, divceil);
    var input := sizes.inputSize;
    var c := new int[input];
    var args := new VaArguments[nrDpus];
    FillArguments(args, sizes.inputSize8, sizes.inputSizeDpu8, sz);
    records := args[..];
    var plan := Plan(sizes.inputSizeDpu8, sz, argsLen);
    var gather := Gather(sizes.inputSizeDpu8, sz);
    var count;
    log, count := Allocate(plan, waves);
    log := Repetitions(c, a, b, input, log, plan, gather, count, reps);
    status := CheckOutput(c, bufferC, input);
  }
}
