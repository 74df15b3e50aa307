/**
 * The binary-search host program (BS/host/app_dmp.c): the query padding and
 * slicing, the staging plan its callback and its re-stage block issue, the test
 * data, the host reference search, the merge of the units' answers and the
 * measured loop that ties them together.
 */
module BsHost {
  import opened Shard
  import opened Staging
  import opened StagingProofs

  /**
   * The query count after padding to a multiple of `nrDpus * nrTasklets`; the
   * modulus is an `unsigned` product, so it is taken modulo 2^32, and a zero
   * modulus is the fatal division the host would perform.
   */
  function PaddedQueries(numQuerys: nat, nrDpus: nat, nrTasklets: nat): Result<nat>
  {
    var m := Wrap32(nrDpus * nrTasklets);
    if m == 0 then DivisionByZero else Ok(PadUp(numQuerys, m))
  }

  /**
   * The padded count is the least multiple of the (32-bit) modulus that is at least
   * the requested count, it is unchanged when it already was one, and the
   * partitioning assertion that follows the padding always holds.
   */
  lemma PaddedQueriesIsLeastMultiple(numQuerys: nat, nrDpus: nat, nrTasklets: nat)
    ensures PaddedQueries(numQuerys, nrDpus, nrTasklets).Ok? <==> Wrap32(nrDpus * nrTasklets) != 0
    ensures nrDpus * nrTasklets < U32 ==> Wrap32(nrDpus * nrTasklets) == nrDpus * nrTasklets
    ensures PaddedQueries(numQuerys, nrDpus, nrTasklets).Ok? ==>
      var m, p := Wrap32(nrDpus * nrTasklets), PaddedQueries(numQuerys, nrDpus, nrTasklets).value;
      && p % m == 0
      && numQuerys <= p < numQuerys + m
      && (numQuerys % m == 0 ==> p == numQuerys)
      && forall k: nat :: numQuerys <= k && k % m == 0 ==> p <= k
  {
    var m := Wrap32(nrDpus * nrTasklets);
    if m != 0 {
      PadUpIsLeastMultiple(numQuerys, m);
    }
  }

  /**
   * With the modulus in range, the per-unit slice `num_querys / nr_of_dpus` covers
   * the padded queries exactly and splits evenly among the tasklets of a unit.
   */
  lemma QuerySlice(numQuerys: nat, nrDpus: nat, nrTasklets: nat)
    requires 0 < nrDpus * nrTasklets < U32
    ensures PaddedQueries(numQuerys, nrDpus, nrTasklets).Ok?
    ensures var p := PaddedQueries(numQuerys, nrDpus, nrTasklets).value;
      (p / nrDpus) * nrDpus == p && (p / nrDpus) % nrTasklets == 0
  {
    var m := nrDpus * nrTasklets;
    PaddedQueriesIsLeastMultiple(numQuerys, nrDpus, nrTasklets);
    SliceOfPadded(PadUp(numQuerys, m), nrDpus, nrTasklets);
  }

  /**
   * The role blocks of the callback, in issue order: the argument record, the whole
   * sorted input at heap offset 0, and the unit's query slice right after it.
   * `sz` is the element size in bytes and `argsLen` the size of the argument record.
   */
  function Plan(inputSize: nat, slice: nat, sz: nat, argsLen: nat): seq<Role>
  {
    [ Role(Arguments, InputArguments, 0, argsLen, 0, false, Async),
      Role(SortedInput, Heap, 0, inputSize * sz, 0, false, Async),
      Role(Queries, Heap, inputSize * sz, slice * sz, slice, true, Async) ]
  }

  /** The retrieval of every unit's per-tasklet result records into its own buffer. */
  function Gather(nrTasklets: nat, resultLen: nat): Role
  {
    Role(ResultBufs, Results, 0, nrTasklets * resultLen, 1, false, Sync)
  }

  /** The plan reads three distinct buffers into two adjacent, disjoint heap intervals. */
  lemma PlanLayout(inputSize: nat, slice: nat, sz: nat, argsLen: nat)
    ensures DistinctBuffers(Plan(inputSize, slice, sz, argsLen))
    ensures LaidOut(Plan(inputSize, slice, sz, argsLen), 0)
    ensures var plan := Plan(inputSize, slice, sz, argsLen);
      forall a, b :: 0 <= a < b < |plan| && plan[a].region == Heap && plan[b].region == Heap ==>
        plan[a].regionOffset + plan[a].length <= plan[b].regionOffset
  {
    var plan := Plan(inputSize, slice, sz, argsLen);
    assert plan[1..][1..] == plan[2..] && plan[2..][1..] == plan[3..];
    assert LaidOut(plan[2..], inputSize * sz);
    LaidOutDisjoint(plan, 0);
  }

  /**
   * Whatever the waves, global unit j receives the shared argument record, the whole
   * input at heap offset 0, and queries `slice * j ..` at heap offset
   * `inputSize * sz`; and the positional re-stage of later repetitions issues
   * exactly the same transfers for every role.
   */
  lemma WaveStaging(inputSize: nat, slice: nat, sz: nat, argsLen: nat, waves: seq<nat>)
    ensures var log, n := RunLog(Plan(inputSize, slice, sz, argsLen), waves), Sum(waves);
      && |Transfers(log, Arguments)| == n && |Transfers(log, SortedInput)| == n && |Transfers(log, Queries)| == n
      && (forall j :: 0 <= j < n ==> Transfers(log, Arguments)[j] == Transfer(j, InputArguments, 0, Arguments, 0, argsLen))
      && (forall j :: 0 <= j < n ==> Transfers(log, SortedInput)[j] == Transfer(j, Heap, 0, SortedInput, 0, inputSize * sz))
      && (forall j :: 0 <= j < n ==>
            Transfers(log, Queries)[j] == Transfer(j, Heap, inputSize * sz, Queries, slice * j, slice * sz))
    ensures var plan := Plan(inputSize, slice, sz, argsLen);
      forall k :: 0 <= k < |plan| ==>
        Transfers(ReStageLog(plan, Sum(waves)), plan[k].buffer) == Transfers(RunLog(plan, waves), plan[k].buffer)
  {
    var plan := Plan(inputSize, slice, sz, argsLen);
    PlanLayout(inputSize, slice, sz, argsLen);
    WaveIndependence(plan, waves, 0);
    WaveIndependence(plan, waves, 1);
    WaveIndependence(plan, waves, 2);
    forall k | 0 <= k < |plan|
      ensures Transfers(ReStageLog(plan, Sum(waves)), plan[k].buffer) == Transfers(RunLog(plan, waves), plan[k].buffer)
    {
      ReStageMatchesWaves(plan, waves, k);
    }
  }

  /** The test input, `1, 2, .., n`. */
  function TestInput(n: nat): seq<int>
  {
    seq(n, i => i + 1)
  }

  /** The test queries, `0, 1, .., n - 1`. */
  function TestQueries(n: nat): seq<int>
  {
    seq(n, i => i)
  }

  predicate Sorted(s: seq<int>)
  {
    forall i, j :: 0 <= i < j < |s| ==> s[i] <= s[j]
  }

  /**
   * Fill the test arrays. The first input element is written whatever the count, so
   * the input array must hold at least one element.
   */
  method CreateTestFile(input: array<int>, querys: array<int>, nrElements: nat, nrQuerys: nat)
    requires 1 <= input.Length && nrElements <= input.Length && nrQuerys <= querys.Length
    requires input != querys
    modifies input, querys
    ensures input[0] == 1
    ensures input[..nrElements] == TestInput(nrElements)
    ensures querys[..nrQuerys] == TestQueries(nrQuerys)
    ensures forall i :: 1 <= i < input.Length && nrElements <= i ==> input[i] == old(input[i])
    ensures forall i :: nrQuerys <= i < querys.Length ==> querys[i] == old(querys[i])
  {
    input[0] := 1;
    var i := 1;
    while i < nrElements
      modifies input
      invariant 1 <= i <= input.Length && (i == 1 || i <= nrElements)
      invariant forall k :: 0 <= k < i ==> input[k] == k + 1
      invariant forall k :: i <= k < input.Length ==> input[k] == old(input[k])
    {
      input[i] := input[i - 1] + 1;
      i := i + 1;
    }
    i := 0;
    while i < nrQuerys
      modifies querys
      invariant i <= nrQuerys
      invariant forall k :: 0 <= k < i ==> querys[k] == k
      invariant forall k :: i <= k < querys.Length ==> querys[k] == old(querys[k])
    {
      querys[i] := i;
      i := i + 1;
    }
  }

  /** The test input is strictly increasing, hence sorted. */
  lemma TestInputIncreasing(n: nat)
    ensures forall i, j :: 0 <= i < j < n ==> TestInput(n)[i] < TestInput(n)[j]
    ensures Sorted(TestInput(n))
  {
  }

  /** The leftmost index of `x` in `s`, or -1 when `x` does not occur. */
  function IndexOf(s: seq<int>, x: int): (r: int)
    ensures -1 <= r < |s|
    ensures r == -1 <==> x !in s
    ensures 0 <= r ==> s[r] == x && forall i :: 0 <= i < r ==> s[i] != x
  {
    if |s| == 0 then -1
    else if s[0] == x then 0
    else
      var t := IndexOf(s[1..], x);
      assert forall i :: 1 <= i < |s| ==> s[i] == s[1..][i - 1];
      if t == -1 then -1 else t + 1
  }

  /**
   * The answer the host search gives for queries `qs` over sorted `s`: the leftmost
   * index of the last query that occurs in `s`, or -1 when none does.
   */
  function SearchAll(s: seq<int>, qs: seq<int>): (r: int)
    ensures -1 <= r < |s|
    ensures r == -1 <==> forall q :: q in qs ==> q !in s
    ensures r != -1 ==> exists k :: 0 <= k < |qs| && s[r] == qs[k]
  {
    if |qs| == 0 then -1
    else
      var last := qs[|qs| - 1];
      var earlier := qs[..|qs| - 1];
      assert forall q :: q in qs <==> q in earlier || q == last;
      if last in s then IndexOf(s, last)
      else
        var r := SearchAll(s, earlier);
        assert r != -1 ==> exists k :: 0 <= k < |earlier| && s[r] == earlier[k];
        r
  }
  /** The answer is the leftmost index of the last query that occurs in `s`. */
  lemma {:induction false} SearchAllIsLastPresent(s: seq<int>, qs: seq<int>, k: nat)
    requires k < |qs| && qs[k] in s
    requires forall k' :: k < k' < |qs| ==> qs[k'] !in s
    ensures SearchAll(s, qs) == IndexOf(s, qs[k])
  {
    if k < |qs| - 1 {
      var earlier := qs[..|qs| - 1];
      assert qs[|qs| - 1] !in s;
      assert earlier[k] == qs[k];
      SearchAllIsLastPresent(s, earlier, k);
    }
  }


  /** The elements a search with last index `hi` examines. */
  function Searched(hi: int): nat
  {
    if hi < 0 then 0 else hi + 1
  }

  /**
   * The host reference search over `input[0 ..= inputSize]`. Whatever the input, the
   * answer is -1 or an index, within the searched range, of one of the queries; on a
   * sorted input it is the leftmost index of the last query that occurs, because a
   * hit moves the right bound left of the probe and the search goes on.
   */
  method BinarySearch(input: array<int>, querys: array<int>, inputSize: int, numQuerys: nat) returns (result: int)
    requires inputSize < input.Length && numQuerys <= querys.Length
    ensures result == -1 || (0 <= result <= inputSize && exists k :: 0 <= k < numQuerys && input[result] == querys[k])
    ensures Sorted(input[..Searched(inputSize)]) ==> result == SearchAll(input[..Searched(inputSize)], querys[..numQuerys])
  {
    ghost var s := input[..Searched(inputSize)];
    ghost var sorted := Sorted(s);
    result := -1;
    var q: nat := 0;
    while q < numQuerys
      invariant q <= numQuerys
      invariant result == -1 || (0 <= result <= inputSize && exists k :: 0 <= k < q && input[result] == querys[k])
      invariant sorted ==> result == SearchAll(s, querys[..q])
    {
      ghost var prev := result;
      ghost var hit := false;
      var l := 0;
      var r := inputSize;
      while l <= r
        invariant 0 <= l && r <= inputSize
        invariant inputSize >= -1 ==> l <= r + 1
        invariant inputSize < -1 ==> l == 0 && r == inputSize
        invariant !hit ==> result == prev
        invariant hit ==> 0 <= result <= inputSize && input[result] == querys[q]
        invariant sorted ==> forall i :: 0 <= i < l ==> s[i] < querys[q]
        invariant sorted && hit ==> result == r + 1 && forall i :: 0 <= i < |s| && r < i ==> s[i] >= querys[q]
        invariant sorted && !hit ==> forall i :: 0 <= i < |s| && r < i ==> s[i] > querys[q]
        decreases r - l
      {
        var m := l + (r - l) / 2;
        if input[m] == querys[q] {
          result := m;
          hit := true;
        }
        if input[m] < querys[q] {
          l := m + 1;
        } else {
          r := m - 1;
        }
      }
      assert querys[..q + 1][..q] == querys[..q];
      assert querys[..q + 1][q] == querys[q];
      if sorted {
        if hit {
          IndexOfAt(s, querys[q], result);
        } else {
          assert querys[q] !in s by {
            forall i | 0 <= i < |s| ensures s[i] != querys[q] {
              if i >= l { assert i > r; }
            }
          }
        }
      }
      q := q + 1;
    }
    assert querys[..numQuerys] == querys[..q];
  }

  /** An occurrence with no earlier occurrence is the leftmost one. */
  lemma IndexOfAt(s: seq<int>, x: int, p: int)
    requires 0 <= p < |s| && s[p] == x && forall i :: 0 <= i < p ==> s[i] != x
    ensures IndexOf(s, x) == p
  {
    var r := IndexOf(s, x);
    assert x in s;
    if r < p {
      assert s[r] == x;
    }
  }

  /** The answer the host search gives on the test data, in closed form. */
  function TestAnswer(n: nat, nq: nat): int
  {
    if nq >= 2 && n >= 1 then (if nq - 1 < n then nq - 1 else n) - 1 else -1
  }

  /**
   * On the test data the last query that occurs is `min(nq - 1, n)` (query 0 never
   * occurs), found at index one below its value.
   */
  lemma {:induction false} TestSearch(n: nat, nq: nat)
    ensures SearchAll(TestInput(n), TestQueries(nq)) == TestAnswer(n, nq)
  {
    if nq > 0 {
      var s, qs := TestInput(n), TestQueries(nq);
      var last := nq - 1;
      assert qs[..nq - 1] == TestQueries(nq - 1);
      assert qs[nq - 1] == last;
      if 1 <= last <= n {
        assert s[last - 1] == last;
        IndexOfAt(s, last, last - 1);
      } else {
        assert last !in s;
        TestSearch(n, nq - 1);
      }
    }
  }

  /** The result record of one tasklet; only `found` is read by the host. */
  datatype TaskletResult = TaskletResult(found: int)

  /** The running maximum of `found` over the first `t` records of unit `i`, starting from `acc`. */
  function MaxRow(acc: int, results: array2<TaskletResult>, i: nat, t: nat): int
    requires i < results.Length0 && t <= results.Length1
    reads results
  {
    if t == 0 then acc
    else
      var m := MaxRow(acc, results, i, t - 1);
      if results[i, t - 1].found > m then results[i, t - 1].found else m
  }

  /** The running maximum over the records of the first `n` units. */
  function MaxRows(acc: int, results: array2<TaskletResult>, n: nat): int
    requires n <= results.Length0
    reads results
  {
    if n == 0 then acc else MaxRow(MaxRows(acc, results, n - 1), results, n - 1, results.Length1)
  }

  /** The merge of one repetition, unit by unit and tasklet by tasklet. */
  method MergeMax(resultDpu: int, results: array2<TaskletResult>) returns (merged: int)
    ensures merged == MaxRows(resultDpu, results, results.Length0)
  {
    merged := resultDpu;
    var i := 0;
    while i < results.Length0
      invariant i <= results.Length0
      invariant merged == MaxRows(resultDpu, results, i)
    {
      var t := 0;
      while t < results.Length1
        invariant t <= results.Length1
        invariant merged == MaxRow(MaxRows(resultDpu, results, i), results, i, t)
      {
        if results[i, t].found > merged {
          merged := results[i, t].found;
        }
        t := t + 1;
      }
      i := i + 1;
    }
  }

  /** The row maximum is at least the seed and every record, and is the seed or one of them. */
  lemma {:induction false} MaxRowIsMaximum(acc: int, results: array2<TaskletResult>, i: nat, t: nat)
    requires i < results.Length0 && t <= results.Length1
    ensures MaxRow(acc, results, i, t) >= acc
    ensures forall u :: 0 <= u < t ==> MaxRow(acc, results, i, t) >= results[i, u].found
    ensures MaxRow(acc, results, i, t) == acc || exists u :: 0 <= u < t && MaxRow(acc, results, i, t) == results[i, u].found
  {
    if t > 0 {
      MaxRowIsMaximum(acc, results, i, t - 1);
    }
  }

  /**
   * The merged answer is the maximum of the seed and every `found` of the first `n`
   * units: it never decreases, bounds every record, and is attained.
   */
  lemma {:induction false} MaxRowsIsMaximum(acc: int, results: array2<TaskletResult>, n: nat)
    requires n <= results.Length0
    ensures MaxRows(acc, results, n) >= acc
    ensures forall i, u :: 0 <= i < n && 0 <= u < results.Length1 ==> MaxRows(acc, results, n) >= results[i, u].found
    ensures MaxRows(acc, results, n) == acc ||
      exists i, u :: 0 <= i < n && 0 <= u < results.Length1 && MaxRows(acc, results, n) == results[i, u].found
  {
    if n > 0 {
      var prev := MaxRows(acc, results, n - 1);
      MaxRowsIsMaximum(acc, results, n - 1);
      MaxRowIsMaximum(prev, results, n - 1, results.Length1);
    }
  }

  /** The host reference answer of `main`: build the test data and search it. */
  method HostAnswer(inputSize: nat, numQuerys: nat) returns (resultHost: int)
    requires 1 <= inputSize
    ensures resultHost == TestAnswer(inputSize, numQuerys)
  {
    var input := new int[inputSize];
    var querys := new int[numQuerys];
    CreateTestFile(input, querys, inputSize, numQuerys);
    TestInputIncreasing(inputSize);
    assert input[..Searched(inputSize - 1)] == TestInput(inputSize);
    resultHost := BinarySearch(input, querys, inputSize - 1, numQuerys);
    TestSearch(inputSize, numQuerys);
  }

  /**
   * The measured loop over a pool of `count` units: each repetition re-stages (after
   * the first), launches, retrieves and merges, so the answer is the maximum of -1 and
   * every record retrieved, and it never decreases from one repetition to the next.
   */
  method Repetitions(log: seq<Event>, plan: seq<Role>, gather: Role, count: nat, nrTasklets: nat,
                     retrieved: seq<array2<TaskletResult>>)
    returns (out: seq<Event>, resultDpu: int)
    requires forall rep :: 0 <= rep < |retrieved| ==> retrieved[rep].Length0 == count && retrieved[rep].Length1 == nrTasklets
    ensures out == log + RepsLog(plan, gather, count, |retrieved|)
    ensures resultDpu >= -1
    ensures forall rep, i, t :: 0 <= rep < |retrieved| && 0 <= i < count && 0 <= t < nrTasklets ==>
              resultDpu >= retrieved[rep][i, t].found
    ensures resultDpu == -1 || exists rep, i, t :: (0 <= rep < |retrieved| && 0 <= i < count && 0 <= t < nrTasklets &&
              resultDpu == retrieved[rep][i, t].found)
  {
    out := log;
    resultDpu := -1;
    var rep := 0;
    while rep < |retrieved|
      invariant rep <= |retrieved|
      invariant out == log + RepsLog(plan, gather, count, rep)
      invariant resultDpu >= -1
      invariant forall p, i, t :: 0 <= p < rep && 0 <= i < count && 0 <= t < nrTasklets ==>
                  resultDpu >= retrieved[p][i, t].found
      invariant resultDpu == -1 || exists p, i, t :: (0 <= p < rep && 0 <= i < count && 0 <= t < nrTasklets &&
                  resultDpu == retrieved[p][i, t].found)
    {
      out := Iterate(out, plan, gather, count, rep);
      var before := resultDpu;
      resultDpu := MergeMax(resultDpu, retrieved[rep]);
      MaxRowsIsMaximum(before, retrieved[rep], count);
      rep := rep + 1;
    }
  }

  /**
   * The host program after its command line: pad the queries, compute the host
   * answer on the test data, acquire the pool wave by wave, run the repetitions and
   * compare. `retrieved[rep]` stands for the records the units return on repetition
   * `rep`; a zero padding modulus is the host's fatal division and ends the run with
   * nothing issued.
   */
  method Host(inputSize: nat, numQuerys: nat, nrDpus: nat, nrTasklets: nat, sz: nat, argsLen: nat, resultLen: nat,
              waves: seq<nat>, retrieved: seq<array2<TaskletResult>>)
    returns (ok: bool, log: seq<Event>, resultHost: int, resultDpu: int, status: bool)
    requires 1 <= inputSize
    requires forall rep :: 0 <= rep < |retrieved| ==> retrieved[rep].Length0 == Sum(waves) && retrieved[rep].Length1 == nrTasklets
    ensures ok <==> PaddedQueries(numQuerys, nrDpus, nrTasklets).Ok?
    ensures !ok ==> log == []
    ensures ok ==>
      var padded := PaddedQueries(numQuerys, nrDpus, nrTasklets).value;
      var plan := Plan(inputSize, padded / nrDpus, sz, argsLen);
      && log == RunLog(plan, waves) + RepsLog(plan, Gather(nrTasklets, resultLen), Sum(waves), |retrieved|)
      && resultHost == TestAnswer(inputSize, padded)
      && resultDpu >= -1
      && (forall rep, i, t :: 0 <= rep < |retrieved| && 0 <= i < Sum(waves) && 0 <= t < nrTasklets ==>
            resultDpu >= retrieved[rep][i, t].found)
      && (resultDpu == -1 || exists rep, i, t :: (0 <= rep < |retrieved| && 0 <= i < Sum(waves) && 0 <= t < nrTasklets &&
            resultDpu == retrieved[rep][i, t].found))
      && (status <==> resultDpu == resultHost)
  {
    var padding := PaddedQueries(numQuerys, nrDpus, nrTasklets);
    if padding.DivisionByZero? {
      return false, [], -1, -1, false;
    }
    ok := true;
    var padded := padding.value;
    assert nrDpus > 0;
    resultHost := HostAnswer(inputSize, padded);
    var plan := Plan(inputSize, padded / nrDpus, sz, argsLen);
    var count;
    log, count := Allocate(plan, waves);
    log, resultDpu := Repetitions(log, plan, Gather(nrTasklets, resultLen), count, nrTasklets, retrieved);
    status := resultDpu == resultHost;
  }
}
