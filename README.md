# Host-side staging of three PrIM programs on an incrementally allocated unit pool

This project models, in Dafny, the host half of three processing-in-memory
benchmarks: time series (`TS/host/app_async.c`), vector addition
(`VA/host/app_async.c`) and binary search (`BS/host/app_dmp.c`). Each one runs on a
pool of units that the allocator hands over in waves. For every wave the
allocator calls a staging callback, `reclamation_cb`. The callback keeps two
`static` variables: the cached program handle and the number of units
accumulated so far. On each call it:

1. loads the program, building the image only on the first call;
2. issues one block of transfers per buffer role, one transfer per unit;
3. adds the wave's size to the accumulated count.

The unit library is replaced by an abstract log of events:

- `Build`, the program image is parsed into a handle;
- `Install(first, count)`, the handle is put on a range of units;
- `Copy(transfer, direction, mode)`, one copy between a host buffer and one unit's memory;
- `PoolLoad`, a whole-pool load of the image by path;
- `Launch`, a run of the program on the whole pool.

A transfer records:

- the global unit index;
- the unit-memory symbol and the byte offset into it;
- the host buffer and the element offset into it;
- the length.

Modules:

- `Shard`: the padding and slicing arithmetic, and the modelled 32-bit `unsigned` wrap-around.
- `Staging`: the event log and buffer roles, and the callback as a class `Callback`. Its fields are `acc`, `programBuilt`, `buildCount` and `log`, plus a ghost history of the wave sizes. It also holds the allocator (one callback per wave, in sequence), the positional re-stage of repetitions after the first, and one repetition of the measured loop.
- `StagingProofs`: what every unit receives over a whole run, however the pool was split into waves.
- `TsHost`, `VaHost`, `BsHost`: one module per program. Each holds the sizing, the plan of roles, the layout and staging lemmas, the merge or check loop, and a driver method for `main` from the sizing to the end of the repetitions.

Notable behaviours the model keeps and proves:

- The time-series role of TS is staged without the accumulated count (TS/host/app_async.c:80). Unit j's series window therefore starts at the slice of its position within its own wave (`TsHost.SeriesStaging`). The positional re-stage of later repetitions reproduces those windows only when the slice is empty or every unit arrived in the first wave (`TsHost.ReStageAgainstWaves`). The mean and deviation roles stage the same thing every time.
- The `DPU_FOREACH(set, dpu, i)` index is taken to be the unit's position in the set, reassigned on every iteration. With that reading, the extra `i++` in TS's merge loop (TS/host/app_async.c:367) changes nothing, so the merge rebases unit i's index by `i * slice_per_dpu`.
- In VA the last unit's size is an `unsigned` difference. It wraps to nearly 2^32 elements when the full tiles of the other units already exceed the aligned input (`VaHost.LastSizeWraps`). Example: 10 elements of 4 bytes on 8 units gives tiles of 2, and the difference is 10 - 14.
- The padding moduli are 32-bit `unsigned` products, modelled with `Shard.Wrap32`. A zero modulus is the host's fatal division. Each driver then reports failure and issues nothing.

## Model

| member | source | states |
|---|---|---|
| Shard.Wrap32 | TS/host/app_async.c:211-212 | the value of a 32-bit unsigned expression: below 2^32, congruent to the mathematical value, and equal to it when it is in range |
| Shard.PadUpIsLeastMultiple | BS/host/app_dmp.c:142-143 | the padding step yields the least multiple of the modulus that is at least n; it exceeds n by less than the modulus; it leaves an existing multiple unchanged |
| Shard.SliceOfPadded | TS/host/app_async.c:240 | for a size that is a multiple of units times grain: the slices of `size / units` add up to the size, and each slice is a multiple of the grain |
| Staging.WithMode | BS/host/app_dmp.c:195-213 | the same roles with every push issued in the given mode (the re-stage uses `DPU_XFER_DEFAULT`) |
| Staging.StageRole | BS/host/app_dmp.c:62-67 | one prepare/push block appends, for unit i of a wave starting at acc, one copy to global unit acc+i from `buffer + stride*(i+acc)` (or `stride*i` without the count), in unit order |
| Staging.StagePlan | BS/host/app_dmp.c:47-67 | the callback's role blocks are appended in plan order for the whole wave |
| Staging.ReStage | BS/host/app_dmp.c:188-214 | the re-stage block appends the positional, blocking copies of every role for the whole pool |
| Staging.Iterate | BS/host/app_dmp.c:188-260 | one repetition appends the re-stage (only when rep != 0), one synchronous launch, then the retrieval from every unit |
| Staging.Callback.constructor | BS/host/app_dmp.c:38-39 | the static state starts with no program, a zero count and an empty log |
| Staging.Callback.Reclaim | BS/host/app_dmp.c:27-71 | the callback builds only when no handle is cached and installs on exactly the wave's units. It stages the wave and grows acc by exactly the wave size. It keeps the log equal to the run log of the waves seen so far |
| Staging.Allocate | BS/host/app_dmp.c:174 | invoking the callback once per wave, in sequence, yields the run log of those waves and a pool of the summed size |
| Staging.RunLogStep | BS/host/app_dmp.c:69-70 | one more callback extends the run log by that wave's log, started at the sum of the earlier waves |
| StagingProofs.PositionalTransfers | BS/host/app_dmp.c:208-213 | positional staging gives unit j the copy from `buffer + stride*j` into the role's region |
| StagingProofs.WaveIndependence | BS/host/app_dmp.c:62-64 | for a role that offsets by the accumulated count (or reads one fixed place), unit j receives `buffer + stride*j` however the pool was split into waves |
| StagingProofs.SamePoolSameTransfers | VA/host/app_async.c:62-74 | two splits of the same pool into waves stage identical transfers for such a role |
| StagingProofs.WaveRelativeOffsets | TS/host/app_async.c:79-81 | for a role without the count, unit j receives the offset of its position within its own wave, `stride*(j - WaveStart(j))` |
| StagingProofs.ReStageTransfers | TS/host/app_async.c:273-317 | the re-stage issues the positional transfers for every role |
| StagingProofs.ReStageMatchesWaves | TS/host/app_async.c:293-295 | the re-stage reproduces a role's acquisition transfers if and only if: the role offsets by the count, or its stride is 0, or every unit came in the first wave |
| StagingProofs.RunMatchesPositional | TS/host/app_async.c:79-81 | the run's transfers of one role equal the positional ones under exactly the same three conditions |
| StagingProofs.BuildsOnce | TS/host/app_async.c:52-59 | across a run of at least one wave the image is built exactly once, and that build is the first event |
| StagingProofs.InstallsOfRun | VA/host/app_async.c:50-53 | the installs of a run are, wave by wave, the ranges [sum of earlier waves, + wave size) |
| StagingProofs.LaidOutDisjoint | TS/host/app_async.c:69-101 | roles laid out by an advancing cursor occupy heap intervals in plan order, pairwise disjoint, all at or after the start |
| BsHost.PaddedQueriesIsLeastMultiple | BS/host/app_dmp.c:142-145 | the padded query count is the least multiple of the 32-bit product `nr_of_dpus*NR_TASKLETS` that is at least the request, unchanged if already one, and the assertion holds; padding fails exactly when the product wraps to 0 |
| BsHost.QuerySlice | BS/host/app_dmp.c:161 | with the product in range: `slice*nr_of_dpus == num_querys`, and each slice splits evenly among the tasklets |
| BsHost.PlanLayout | BS/host/app_dmp.c:53-67 | the sorted input at [0, input_size*sz) and the queries at [input_size*sz, +slice*sz) are adjacent and disjoint, and the buffers are distinct |
| BsHost.WaveStaging | BS/host/app_dmp.c:48-67 | unit j gets the shared record, the whole input at offset 0, and `querys + slice*j` at `input_size*sz`, for every split into waves; the re-stage (188-214) issues the same transfers |
| BsHost.CreateTestFile | BS/host/app_dmp.c:74-83 | `input[i] == i+1` for i < nr_elements, with `input[0]` always written; `querys[i] == i`; nothing else changes |
| BsHost.TestInputIncreasing | BS/host/app_dmp.c:76-79 | the test input is strictly increasing, hence sorted |
| BsHost.IndexOf | BS/host/app_dmp.c:94-107 | the leftmost index holding x, or -1 exactly when x does not occur |
| BsHost.SearchAll | BS/host/app_dmp.c:90-110 | -1 exactly when no query occurs; otherwise an index within the input that holds some query |
| BsHost.SearchAllIsLastPresent | BS/host/app_dmp.c:90-110 | when query k occurs and no later query does, the answer is the leftmost index of query k |
| BsHost.BinarySearch | BS/host/app_dmp.c:86-111 | for any input: the answer is -1, or an index within [0, input_size-1] that holds one of the queries. For a sorted input it is `SearchAll` of the searched prefix and the queries |
| BsHost.TestSearch | BS/host/app_dmp.c:151-156 | on the test data the host answer is `min(nq-1, n) - 1` (nq queries, n elements), and -1 when nq < 2 |
| BsHost.HostAnswer | BS/host/app_dmp.c:147-157 | building the test data and searching it yields that closed form |
| BsHost.MergeMax | BS/host/app_dmp.c:262-272 | the merge loop computes the running maximum of `found` over units in order and tasklets in order |
| BsHost.MaxRowIsMaximum | BS/host/app_dmp.c:264-270 | over one unit's records the maximum is at least the seed and every `found`, and is the seed or one of them |
| BsHost.MaxRowsIsMaximum | BS/host/app_dmp.c:262-272 | over all units: never below the seed (so never decreasing across repetitions), at least every `found`, attained |
| BsHost.Repetitions | BS/host/app_dmp.c:181-275 | the loop's log is the repetitions' logs in order; `result_dpu` is the maximum of -1 and every record retrieved |
| BsHost.Host | BS/host/app_dmp.c:141-304 | padding failure issues nothing. Otherwise: the log is acquisition followed by the repetitions; `result_host` has the closed form; `result_dpu` is the maximum; `status` holds iff the two are equal |
| TsHost.PaddedSizeIsLeastMultiple | TS/host/app_async.c:210-212 | the padded series length is the least multiple of the 32-bit product `nr_of_dpus*NR_TASKLETS*query_length` that is at least the request, unchanged if already one |
| TsHost.SeriesSlice | TS/host/app_async.c:240 | with the product in range, `slice*nr_of_dpus == ts_size` and the slice is a multiple of `NR_TASKLETS*query_length` |
| TsHost.ExclusionZoneCleared | TS/host/app_async.c:61-66 | clearing sets the exclusion zone to 0, leaves a record unchanged exactly when its zone is already 0, and is idempotent; the record from line 243 is left unchanged by it, so every unit receives that record with zone 0 and kernel 0 |
| TsHost.PlanLayout | TS/host/app_async.c:69-101 | the cursor lays out four adjacent, disjoint heap intervals: Q [0, ql*sz), TS [ql*sz, +w), then AMean and ASigma; w = (slice+ql)*sz |
| TsHost.WaveStaging | TS/host/app_async.c:70-101 | for every split into waves: every unit gets the record and the whole query, and unit j's AMean/ASigma windows start at `slice*j` |
| TsHost.SeriesStaging | TS/host/app_async.c:79-83 | unit j's time-series window starts at `slice*(j - WaveStart(j))`, its position within its own wave |
| TsHost.ReStageAgainstWaves | TS/host/app_async.c:273-317 | the re-stage reproduces the record, query, AMean and ASigma transfers. It reproduces the series transfers iff the slice is 0 or every unit came in the first wave |
| TsHost.MergeMin | TS/host/app_async.c:356-368 | the merge loop computes the running result over units in order and tasklets in order |
| TsHost.MinRowIsMinimum | TS/host/app_async.c:358-365 | over one unit: the minimum never increases and bounds every positive record. It is either untouched or a positive record's value, with that record's index plus `i*slice`. The max fields are untouched |
| TsHost.MinRowsIsMinimum | TS/host/app_async.c:357-368 | the same over all units |
| TsHost.Repetitions | TS/host/app_async.c:267-371 | the loop's log is the repetitions' logs. The result starts from `INT32_MAX`, never increases, bounds every positive record, and is the seed or a rebased positive record |
| TsHost.Host | TS/host/app_async.c:207-371 | padding failure issues nothing. Otherwise the record is `{ts_size, ql, mean, std, slice, 0, 0}`, which the clearing of the zone (61-66, 275) leaves unchanged, and the log is acquisition, one `PoolLoad` (264), then the repetitions. The result is as above |
| VaHost.Align8Properties | VA/host/app_async.c:118-122 | a count whose byte size is a multiple of 8 is unchanged. Otherwise, given a correct `roundup`, the aligned count is at least the count and its byte size is a multiple of 8 |
| VaHost.TilesCover | VA/host/app_async.c:117-122 | given the ceiling division `divceil`, the `nr_of_dpus` tiles (aligned or not) cover the whole input |
| VaHost.FillArguments | VA/host/app_async.c:137-146 | the record array is exactly: full tiles for units 0..n-2, the unsigned remainder for the last, a uniform transfer size, kernel 0 |
| VaHost.RecordsShareInput | VA/host/app_async.c:139-146 | without wrap, the sizes add up to the aligned input's bytes, every record moves one tile, and the last holds at most a tile iff the tiles do not fall short of the input |
| VaHost.LastSizeWraps | VA/host/app_async.c:144 | when the full tiles exceed the aligned input by e, the last size is `(2^32 - e) * sizeof(T)`, stored without truncation |
| VaHost.PlanLayout | VA/host/app_async.c:65-71 | A at [0, s*sz) and B at [s*sz, 2*s*sz) are adjacent and disjoint, and the retrieval (234-236) reads exactly the B interval |
| VaHost.WaveStaging | VA/host/app_async.c:56-71 | for every split into waves, unit j gets `input_arguments[j]`, `bufferA + s*j` and `bufferB + s*j`; the re-stage (180-196) issues the same transfers |
| VaHost.Gathered | VA/host/app_async.c:233-236 | the output buffer after retrieval is the units' tiles in order, of total length `s * units` |
| VaHost.GatheredAt | VA/host/app_async.c:233-236 | element e of unit j's tile lands at `bufferC[s*j + e]` |
| VaHost.VectorAdditionHost | VA/host/app_async.c:88-92 | `C[k] == A[k] + B[k]` for k < nr_elements, nothing else changes |
| VaHost.CheckOutput | VA/host/app_async.c:264-273 | `status` is false iff some k < input_size has `C[k] != bufferC[k]` |
| VaHost.CorrectUnitsPass | VA/host/app_async.c:233-273 | if every unit leaves the sums of its tiles in its result region and the tiles cover the input, the gathered output equals the host reference on the whole input |
| VaHost.Repetitions | VA/host/app_async.c:163-240 | the loop's log is the repetitions' logs in order, and after at least one repetition `C` is the host reference `A[k] + B[k]` on the whole input; with no repetition `C` is unchanged, and beyond the input it is never changed |
| VaHost.Host | VA/host/app_async.c:114-273 | sizes and records as above; the log is acquisition then the repetitions; after at least one repetition `status` holds iff `A[k]+B[k] == bufferC[k]` for every k < input_size |

## Left out

- The unit library's internals (`dpu_alloc_ranks_async`, `dpu_alloc_ranks_membo_dmp`, the `*_load_with_program` calls, `dpu_prepare_xfer`/`dpu_push_xfer`, `dpu_copy_to`, `dpu_launch`, `dpu_free`): they are foreign code. Their calls map to log events as follows:
  - a `*_load_with_program` call becomes `Build` then `Install`, or only `Install` once the handle is cached (`Staging.LoadEvents`);
  - one `dpu_prepare_xfer` per unit followed by one `dpu_push_xfer` becomes one `Copy` per unit (`Staging.RoleCopies`);
  - the whole-pool `dpu_load` becomes `PoolLoad`, and `dpu_launch` becomes `Launch`;
  - `dpu_get_nr_dpus` and `dpu_free` issue no event. The allocator is modelled as calling the callback once per wave, strictly in sequence; the wave sizes are a parameter.
- Completion of asynchronous transfers: the mode is recorded, and completion and ordering between in-flight transfers are not modelled.
- The data the units compute and return: it is a parameter (`retrieved`, `bufferC`). The unit kernels are not part of this model.
- Floating-point code: `compute_ts_statistics`, `streamp`, the query mean and standard deviation (TS/host/app_async.c:125-188, 216-233, 384). The mean and deviation enter the record as integer parameters. TS's final comparison with `minHost` depends on `streamp`, so it is left out.
- Timers, energy probes, `printf` and log dumps, the output files, and command-line parsing (`input_params`). Warm-up and measured repetitions differ only in timing, so the drivers take the total repetition count.
- TS `create_test_file` and VA `read_input` (`rand()`): the driver inputs are arbitrary. BS's `create_test_file` is modelled.
- Definitions from headers that are not shown: `roundup` and `divceil` are function parameters. `sizeof(T)`/`sizeof(DTYPE)`, the record sizes, `NR_TASKLETS` and the unit counts are natural-number parameters. `DTYPE` and `T` are unbounded integers. The widths and field order of `dpu_arguments_t` are taken as given: TS's initialiser (TS/host/app_async.c:243) is read with the exclusion zone as the sixth field and the kernel as the seventh. VA's byte products (VA/host/app_async.c:140-145) are stored without truncation, so `VaHost.LastSizeWraps`'s `(2^32 - e) * sizeof(T)` is the stored value only if the `size` field is wide enough to hold it; a 32-bit field would reduce it modulo 2^32 once more.
- VaHost.VectorAdditionHost: the element type `T` is unbounded, so the wrap of `A[i] + B[i]` for an unsigned `T` is not modelled.
- TsHost.MergeMin: the index `minIndex + i*slice_per_dpu` is computed without the 32-bit wrap of `i*slice_per_dpu` and without the `DTYPE` conversion. The static arrays hold 2^26 elements, which bounds these values.
- TsHost.Host: `slice_per_dpu` is kept unbounded, not truncated to `uint32_t`, for the same reason.
- The 32-bit `mem_offset` cursor and the 64-bit products of sizes are computed without wrap-around. Unit memory is far below either bound.
- VA's `input_arguments[i + nr_acc_alloc_dpus]` indexes an array of `NR_DPUS` records. The model records the index and does not check it against the array's bound when more units are allocated.
- BsHost.BinarySearch: `uint64_t result = -1` returned as `int64_t` is modelled as -1.
- Freeing of buffers (`free`): memory release is not modelled.
- Failure of library calls: every call is assumed to succeed. The result of `*_load_with_program` is not checked in any callback (BS/host/app_dmp.c:43-45, TS/host/app_async.c:57-59, VA/host/app_async.c:51-53). The model assumes the first call caches a handle; a failed first load would leave it NULL and the next wave would build again. StagingProofs.BuildsOnce relies on this assumption. The aborts of `DPU_ASSERT` on the other calls are not modelled.
- The build without `VERIFY_WITH_CPU` (BS/host/app_dmp.c:155, 303; VA/host/app_async.c:168, 265; TS/host/app_async.c:383): the model is the build with the flag. Without it, BS's `status` is always 1 and VA's is always true, so the `status` equivalences of BsHost.Host and VaHost.Host hold only for the build with the flag.
