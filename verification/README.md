# Verified models of seven small kernel pieces

This project models, in Dafny, the small sequential cores of seven unrelated
Linux kernel files and proves properties of them. Each source file becomes one
module. The modules do not depend on each other, apart from the shared
arithmetic facts in `Arith`.

| module | file | what it models |
|---|---|---|
| `PwmLp3943` | `pwm_lp3943.dfy` | LP3943 PWM: period/duty to register values with clamping, the output-pin ownership bitmap, and the `apply` transition |
| `G200ew3Pll` | `g200ew3_pll.dfy` | Matrox G200EW3: the exhaustive pixel-PLL search, and the VRAM size adjustment |
| `FocaltechTs` | `focaltech_ts.dfy` | FocalTech touchscreen: decoding of the 32-byte report, and the input events of the interrupt handler |
| `GetrandomPool` | `vdso_getrandom.dfy` | vDSO getrandom selftest: `timespecsub`, the page-aligned state layout, and the LIFO pool of opaque states |
| `FileFd` | `file_fd.dfy` | `file.h`: the tagged `struct fd` word, `fdput`/`fdput_pos`/`fput_light`, and the scope-exit guards |
| `SchedExt` | `sched_ext.dfy` | `sched/ext.h`: the inline gates and the compiled-out stubs |
| `StringChoices` | `string_choices.dfy` | `string_choices.h`: every `str_*` chooser and macro |
| `Arith` | `arith.dfy` | division and multiplication facts used by the proofs |

Calls into code that is not modelled become data:
- Register writes, `fput`, unlocks and input reports are events in a returned trace.
- Return codes of those calls are inputs.
- Results of mmap, array growth and out-of-line scheduler functions are inputs.
- `scx_enabled()` is a boolean input.
- The online CPU count and the page size are parameters.

C integer types are modelled explicitly where they matter:
- `tmpdelta` is formed modulo 2^32.
- `size_t` wrap-around is modelled for the pop index.
- Words and pointers are 64-bit bit-vectors in `FileFd`.

## Model

| member | source | states |
|---|---|---|
| `PwmLp3943.ClampPeriod` | drivers/pwm/pwm-lp3943.c:118 | the period is clamped into [6250, 1600000]: in-range periods are kept, others go to the nearer bound |
| `PwmLp3943.PrescaleValue` | drivers/pwm/pwm-lp3943.c:119 | the prescale value lies in 0..255, so the u8 cast keeps it; (v+1)·6250 ≤ clamped period < (v+2)·6250 |
| `PwmLp3943.DutyValue` | drivers/pwm/pwm-lp3943.c:125-126 | the duty register lies in 0..255, is 255 whenever duty ≥ clamped period, and is floor(min(duty, period)·255 / period) |
| `PwmLp3943.Config` | drivers/pwm/pwm-lp3943.c:87-129 | the prescale write comes first; the duty write is issued iff the prescale write succeeded; the error returned is the first failure; every value written fits a byte |
| `PwmLp3943.ConfigRegistersPerGenerator` | drivers/pwm/pwm-lp3943.c:105-111 | generator 0 writes only PRESCALE0/PWM0 and every other generator writes only PRESCALE1/PWM1 |
| `PwmLp3943.RequestMap` | drivers/pwm/pwm-lp3943.c:33-53 | the result is 0 iff no output is already owned or repeated; success owns every output of the map; on -EBUSY the outputs before the first conflict stay claimed (no rollback) |
| `PwmLp3943.FreeMap` | drivers/pwm/pwm-lp3943.c:67-77 | the map's outputs are cleared and every other bit is kept |
| `PwmLp3943.RequestThenFree` | drivers/pwm/pwm-lp3943.c:44-76 | freeing a map right after claiming it restores the bitmap |
| `PwmLp3943.DuplicateOutputIsBusy` | drivers/pwm/pwm-lp3943.c:44-50 | a map that lists an output twice is always refused with -EBUSY |
| `PwmLp3943.Apply` | drivers/pwm/pwm-lp3943.c:183-205 | non-normal polarity gives -EINVAL with no writes; disabling reprograms the outputs iff the PWM is on and returns 0; enabling issues exactly the config writes and then at most one output reprogramming, which happens iff config succeeded and the PWM was off; the first error is returned |
| `PwmLp3943.EnableIsEdgeTriggered` | drivers/pwm/pwm-lp3943.c:197-204 | of two enable requests for the same state, with the PWM core recording the state only after a successful apply, the first reprograms the outputs and returns the enable's result; the second reprograms them again only when the first failed |
| `G200ew3Pll.RankIsLoopOrder` | drivers/gpu/drm/mgag200/mgag200_g200ew3.c:44-53 | the mixed-radix rank orders candidates exactly as the four nested loops visit them, and equal ranks mean equal candidates |
| `G200ew3Pll.TmpDeltaIsDistance` | drivers/gpu/drm/mgag200/mgag200_g200ew3.c:54-58 | for every feasible candidate the unsigned `tmpdelta` equals the true distance, the absolute difference of computed and clock, and is below the initial 0xffffffff |
| `G200ew3Pll.Step` | drivers/gpu/drm/mgag200/mgag200_g200ew3.c:59-65 | the strict `<` update keeps the earliest candidate of least distance among those visited |
| `G200ew3Pll.StepAt` | drivers/gpu/drm/mgag200/mgag200_g200ew3.c:53-65 | one testn iteration, at the loop's counters: the stored values and delta change iff the candidate is strictly nearer, and the search state moves one position on |
| `G200ew3Pll.SearchN` | drivers/gpu/drm/mgag200/mgag200_g200ew3.c:53-66 | after the testn loop the stored values are the best candidate up to the next testm |
| `G200ew3Pll.SearchM` | drivers/gpu/drm/mgag200/mgag200_g200ew3.c:52-67 | after the testm loop the stored values are the best candidate up to the next testp2 |
| `G200ew3Pll.SearchP2` | drivers/gpu/drm/mgag200/mgag200_g200ew3.c:45-68 | pairs with p < p2 or outside the VCO window hold no candidate; after the loop the stored values are the best candidate up to the next testp |
| `G200ew3Pll.PixPllcAtomicCheck` | drivers/gpu/drm/mgag200/mgag200_g200ew3.c:25-77 | returns 0; m = n = p = s = 0 iff no (p, p2) pair is feasible; otherwise (m−1, n−1, p−1, s) is the first candidate in loop order of least distance, with m ∈ [2,26], n ∈ [33,2048], p ∈ [2,8], s ∈ [1,7] |
| `G200ew3Pll.Conclude` | drivers/gpu/drm/mgag200/mgag200_g200ew3.c:71-76 | at the end of the loops the stored values are zero iff nothing was feasible, and otherwise encode the best candidate |
| `G200ew3Pll.BestIsUnique` | drivers/gpu/drm/mgag200/mgag200_g200ew3.c:55-65 | there is at most one best candidate, so the search result is determined |
| `G200ew3Pll.ProbeVramSize` | drivers/gpu/drm/mgag200/mgag200_g200ew3.c:154-161 | the size is reduced by exactly 0x400000 iff it is at least 0x1000000, and is otherwise unchanged |
| `FocaltechTs.PointCount` | drivers/input/touchscreen/focaltech_ts.c:67 | the announced count is the low nibble of byte 2, so it lies in 0..15 |
| `FocaltechTs.Coord` | drivers/input/touchscreen/focaltech_ts.c:72-73 | a coordinate is (hi mod 16)·256 + lo, a 12-bit value in 0..4095 |
| `FocaltechTs.ReadIndices` | drivers/input/touchscreen/focaltech_ts.c:71-73 | the loop as written reads bytes 3+6i, 4+6i, 5+6i and 6+6i for each announced record i, in order |
| `FocaltechTs.ReadsInBoundsIff` | drivers/input/touchscreen/focaltech_ts.c:58-73 | the loop's reads stay inside the 32-byte buffer iff at most five points are announced |
| `FocaltechTs.SixthRecordOverreads` | drivers/input/touchscreen/focaltech_ts.c:58-73 | from six announced points on, the loop reads byte 33 |
| `FocaltechTs.ReadsInBounds` | drivers/input/touchscreen/focaltech_ts.c:58-73 | with at most five announced points every read lies in the buffer |
| `FocaltechTs.AsWrittenOverreads` | drivers/input/touchscreen/focaltech_ts.c:58-73 | some report (count 6) makes the handler as written read byte 33 of a 32-byte buffer |
| `FocaltechTs.ReportedCount` | drivers/input/touchscreen/focaltech_ts.c:67-71 | the decoder reports the announced count when it fits the buffer and five records otherwise |
| `FocaltechTs.DecodeRecords` | drivers/input/touchscreen/focaltech_ts.c:71-79 | record i is reported in slot i with X from bytes 3+6i, 4+6i and Y from bytes 5+6i, 6+6i |
| `FocaltechTs.Decode` | drivers/input/touchscreen/focaltech_ts.c:67-79 | the decoded points are the reported records in order, slot i for record i, every slot below the 10 the device sets up, with 12-bit coordinates |
| `FocaltechTs.DecodeReadsInBounds` | drivers/input/touchscreen/focaltech_ts.c:58-73 | the decoder reads only inside the buffer and decodes every announced point whenever they fit |
| `FocaltechTs.CoordinatesNotClamped` | drivers/input/touchscreen/focaltech_ts.c:72-73 | coordinates are not clamped to the advertised ranges (lines 143-144): a record of all ones reports (4095, 4095) |
| `FocaltechTs.PointsEvents` | drivers/input/touchscreen/focaltech_ts.c:75-78 | each point contributes slot, finger-active, X and Y, and the points appear in order |
| `FocaltechTs.IrqHandler` | drivers/input/touchscreen/focaltech_ts.c:54-85 | a failed read emits nothing; otherwise prepare-frame, then each point in its slot as an active finger, then frame sync and input sync; IRQ_HANDLED is always returned |
| `FocaltechTs.FramedEvents` | drivers/input/touchscreen/focaltech_ts.c:69-82 | the point events sit between prepare-frame and the two syncs, at four events per point |
| `GetrandomPool.TimespecSub` | tools/testing/selftests/vDSO/vdso_test_getrandom.c:26-34 | the result denotes exactly t − u in nanoseconds and is normalised when the inputs are |
| `GetrandomPool.NormalizedIsUnique` | tools/testing/selftests/vDSO/vdso_test_getrandom.c:26-34 | a normalised timespec is determined by the nanoseconds it denotes |
| `GetrandomPool.TimespecSubIsDifference` | tools/testing/selftests/vDSO/vdso_test_getrandom.c:26-34 | on normalised inputs the result is the unique normalised form of the difference |
| `GetrandomPool.AllocSizeIsLeastPageMultiple` | tools/testing/selftests/vDSO/vdso_test_getrandom.c:58 | the mapping size is the least multiple of the page size that holds num states |
| `GetrandomPool.ZeroLengthMapOnlyWithoutCpus` | tools/testing/selftests/vDSO/vdso_test_getrandom.c:55-62 | the mapping asked for is empty exactly when no CPU is online, so that refill fails at mmap before the pop |
| `GetrandomPool.LayoutStep` | tools/testing/selftests/vDSO/vdso_test_getrandom.c:71-76 | one layout iteration stores slot i of the closed form and moves to the next page exactly when a state would straddle the page |
| `GetrandomPool.LayoutStates` | tools/testing/selftests/vDSO/vdso_test_getrandom.c:71-76 | slot i is at page i/q, position i mod q of the block (q states per page); no slot straddles a page; consecutive slots do not overlap |
| `GetrandomPool.LayoutLoop` | tools/testing/selftests/vDSO/vdso_test_getrandom.c:71-75 | the loop stores slot i at block + (i / q) * page + (i mod q) * size, q the states per page |
| `GetrandomPool.SlotAddrAdvance` | tools/testing/selftests/vDSO/vdso_test_getrandom.c:71-76 | each slot ends at or before the start of the next one |
| `GetrandomPool.SlotOffset` | tools/testing/selftests/vDSO/vdso_test_getrandom.c:72-73 | every slot's offset in its page leaves room for a whole state |
| `GetrandomPool.SlotsWithinBlock` | tools/testing/selftests/vDSO/vdso_test_getrandom.c:58-59 | all floor(page/state)·pages slots lie inside the mapping |
| `GetrandomPool.Pop` | tools/testing/selftests/vDSO/vdso_test_getrandom.c:85 | a pop hands out the top free state, which is never NULL, and shrinks the free count by one, leaving the array as it was |
| `GetrandomPool.PutState` | tools/testing/selftests/vDSO/vdso_test_getrandom.c:92-99 | NULL (address 0) leaves the pool unchanged; any other state goes on top, and the free states below it are untouched |
| `GetrandomPool.PutThenPop` | tools/testing/selftests/vDSO/vdso_test_getrandom.c:85-97 | the pool is LIFO: a non-NULL state put back is the next one handed out |
| `GetrandomPool.PutNullThenPop` | tools/testing/selftests/vDSO/vdso_test_getrandom.c:92-95 | putting NULL back is a no-op, so the next state handed out is the previous top |
| `GetrandomPool.PutHeldFits` | tools/testing/selftests/vDSO/vdso_test_getrandom.c:64-68 | callers that return only states they were handed never overflow the states array, whichever non-NULL state they put back |
| `GetrandomPool.AsWrittenEmptyRefill` | tools/testing/selftests/vDSO/vdso_test_getrandom.c:59-85 | with a state larger than a page the refill yields no slot, and the pop index wraps to SIZE_MAX, beyond the array |
| `GetrandomPool.Refill` | tools/testing/selftests/vDSO/vdso_test_getrandom.c:64-77 | a refill grows the capacity by num, makes num states free, and puts the laid-out slots at the front |
| `GetrandomPool.GetState` | tools/testing/selftests/vDSO/vdso_test_getrandom.c:47-90 | a non-empty pool pops its top state, which is non-NULL; an empty one is refilled only if mmap (which refuses a zero length) and the array growth succeed, and otherwise is left unchanged and NULL is returned; after a refill the last slot is handed out; the free states plus the held ones always make up the capacity |
| `FileFd.ToFd` | include/linux/file.h:60-63 | the flags are below 4 and the pointer is 4-byte aligned |
| `FileFd.ToFdRecomposes` | include/linux/file.h:60-63 | pointer and flags are disjoint bits whose union is the original word |
| `FileFd.ToFdRoundTrip` | include/linux/file.h:60-63 | packing an aligned pointer with flags below 4 and unpacking gives both back |
| `FileFd.FputLight` | include/linux/file.h:33-37 | `fput` is called once iff `fput_needed` is nonzero, and never otherwise |
| `FileFd.Fdput` | include/linux/file.h:43-50 | `fput` of the file is called once iff FDPUT_FPUT is set, and never otherwise |
| `FileFd.FdputPos` | include/linux/file.h:80-85 | the position is unlocked iff FDPUT_POS_UNLOCK (2, line 44) is set, and always before the `fdput` decision, which is made exactly as in `fdput` |
| `FileFd.PosWordRelease` | include/linux/file.h:60-85 | for a word from `__fdget_pos`, bit 1 requests the unlock and bit 0 the `fput`, in that order |
| `FileFd.ErrPtrRange` | include/linux/file.h:100 | error pointers are exactly the words at or above −MAX_ERRNO, and each encodes one error number in 1..4095 |
| `FileFd.FreeFput` | include/linux/file.h:100 | the free guard calls `fput` once unless the pointer is NULL or an error pointer |
| `FileFd.FreeFputSkipsErrors` | include/linux/file.h:100 | no error pointer and no NULL reaches `fput` |
| `FileFd.GetUnusedFdExit` | include/linux/file.h:98-99 | scope exit gives a descriptor back iff it is not negative |
| `FileFd.TakeFd` | include/linux/file.h:102-120 | `take_fd` yields the descriptor and leaves -EBADF behind, so the guard then releases nothing |
| `FileFd.ReserveOpenInstall` | include/linux/file.h:102-120 | in the documented usage a failed reservation returns its error with no call, a failed open releases the descriptor, and success installs it without releasing it |
| `FileFd.ReservedFdSettledOnce` | include/linux/file.h:98-120 | a reserved descriptor is either installed or given back, exactly once, and a negative return means it was given back |
| `SchedExt.CpuperfTarget` | kernel/sched/ext.h:24-30 | the target read is either 0 or the run queue's own; it is nonzero only when the class is compiled in and enabled, and it is the run queue's exactly when the gate is open or that target is 0 anyway (the compiled-out stub is line 49) |
| `SchedExt.ScxUpdateIdle` | kernel/sched/ext.h:59-69 | `__scx_update_idle` is called iff the class is compiled in on SMP and enabled |
| `SchedExt.CallHook` | kernel/sched/ext.h:11-22 | a void hook makes at most one call, only to its own out-of-line function, and makes one exactly when the class is compiled in (the empty stubs are lines 44-55) |
| `SchedExt.CallResultHook` | kernel/sched/ext.h:46-53 | `scx_fork` and `scx_check_setscheduler` return 0 when compiled out and the out-of-line result when compiled in, so a failure is only ever reported by the class itself |
| `SchedExt.ScxCanStopTick` | kernel/sched/ext.h:17 | the tick is kept running only when the class is compiled in and says so; the compiled-out stub at line 50 always lets it stop |
| `SchedExt.GatesNeedEnabled` | kernel/sched/ext.h:24-35 | `task_on_scx` holds iff the class is compiled in, enabled and the task's class is the ext class; a nonzero performance target implies enabled |
| `SchedExt.CompiledOutIsNeutral` | kernel/sched/ext.h:42-57 | compiled out, every gate gives its neutral answer whatever the enabled flag and inputs |
| `SchedExt.CompiledInDefersToClass` | kernel/sched/ext.h:9-35 | compiled in, every hook is its one out-of-line call, the error code and tick answer are the class's own, and while enabled the target and the SMP idle update pass through |
| `SchedExt.NoSmpNoIdleUpdate` | kernel/sched/ext.h:59-69 | without SMP the idle update does nothing, enabled or not |
| `StringChoices.Unchoose` | include/linux/string_choices.h:7-48 | reading a chosen word back gives true for the first word, false for the second, and nothing for any other |
| `StringChoices.ChooseRoundTrip` | include/linux/string_choices.h:7-48 | with two different words, reading back the chosen word recovers the boolean |
| `StringChoices.Str` | include/linux/string_choices.h:7-48 | each of the eight `str_X_Y` choosers (enable/disable, enabled/disabled, hi/lo, high/low, read/write, on/off, yes/no, up/down) gives its first word iff the argument is true and its second iff it is false |
| `StringChoices.StrLoHi` | include/linux/string_choices.h:21 | the macro negates its argument, so "lo" iff true and "hi" iff false |
| `StringChoices.StrLowHigh` | include/linux/string_choices.h:27 | "low" iff true, "high" iff false |
| `StringChoices.StrWriteRead` | include/linux/string_choices.h:33 | "write" iff true, "read" iff false |
| `StringChoices.StrPlural` | include/linux/string_choices.h:50-59 | "" iff the count is 1, and "s" for every other count, 0 included |
| `StringChoices.NegatedMacrosSwap` | include/linux/string_choices.h:21-33 | each negated macro is its base chooser with the argument negated, and differs from it at every argument |

## Left out

- The DSC panel driver (`drivers/gpu/drm/panel/panel-l11r-38-08-0a-dsc.c`) is not part of this model. It is DSI command sequences, GPIO resets, sleeps and backlight callbacks.
- LP3943 register access, probe and device-tree parsing are left out. Register writes are trace operations, and their results are inputs.
- `lp3943_pwm_set_mode` (lines 131-149) rewrites the mux bits of every output pin, one pin at a time. It is one abstract operation, `EnableOutputs`/`DisableOutputs`, whose result is an input.
- PwmLp3943.Apply: the enable error is one value, not the first failing per-pin update.
- The PWM core (`drivers/pwm/core.c`) is not part of this model. `PwmLp3943.EnableIsEdgeTriggered` takes as its premise that the core records a new state only when `apply` returns 0.
- G200ew3Pll.PixPllcAtomicCheck: `clock` is an unbounded integer. The `long` products cannot overflow for any clock a display mode holds. `computed > clock` is compared in signed `long`, as on 64-bit kernels.
- The DRM pipeline, device creation and `mgag200_probe_vram` are left out. `G200ew3Pll.ProbeVramSize` gives the size that is passed on.
- FocalTech probe, power handling, suspend/resume and the input core are left out. Input reports are events in a list.
- FocaltechTs.IrqHandler models the handler with the decoder bounded by the buffer (see Findings). The loop as written is `FocaltechTs.ReadIndices`.
- vDSO selftest: mmap/munmap, the pthread mutex, threads, vDSO symbol lookup, benchmarks and `clock_gettime` are left out. The pool is single-threaded; mmap and growth success are inputs.
- GetrandomPool.GetState returns NULL when a refill yields no slot, where the source pops from an empty array (see Findings).
- GetrandomPool.GetState requires a successful mmap to return a nonzero address. Linux never places a mapping at address 0 unless asked to with MAP_FIXED, and the selftest does not ask. This is what keeps NULL out of the free list.
- GetrandomPool.PutState requires a free entry (`len < cap`) for a non-NULL state. The source does not check this bound, and with `len == cap` it would write past the states array. The restriction holds for every caller that returns only states it was handed, as `GetrandomPool.PutHeldFits` shows, so the model leaves the out-of-bounds write out.
- GetrandomPool.GetState: Linux mmap rejects a zero length with EINVAL, a kernel rule outside this model. The refill therefore takes the MAP_FAILED path whenever the allocation size is 0, that is with no online CPU (`GetrandomPool.ZeroLengthMapOnlyWithoutCpus`), whatever the `mapped` input says.
- GetrandomPool.LayoutStates: the masks with `page_size - 1` are modulo arithmetic. This is exact only for a power-of-two page size, which `getpagesize` returns.
- GetrandomPool.TimespecSub: `time_t` and `long` overflow are not modelled.
- `file.h` declares many extern functions (`fget`, `__fdget*`, `fd_install`, `receive_fd`, …). Their bodies are not part of this model. Their effects are events, and their results are inputs.
- FileFd.ReserveOpenInstall returns the open error. The usage comment in the header writes `PTR_ERR(fd)`, which looks like a slip for `PTR_ERR(f)`.
- `MAX_ERRNO` (4095) comes from `err.h`, which is not part of this model.
- sched_ext's out-of-line functions (`scx_tick`, `scx_fork`, `scx_prio_less`, …) are only declared in the header. They are events, and their results are inputs. `scx_enabled()` is a boolean input, and the cross-CPU publication of that flag is left out.
- `SchedExt` takes `task_on_scx` as a predicate. Its statement is the lemma `SchedExt.GatesNeedEnabled`.

## Findings

| source | as written | input that shows it | evidently intended | confidence | as-written member | corrected member |
|---|---|---|---|---|---|---|
| drivers/input/touchscreen/focaltech_ts.c:58-73 | the loop runs for `touch_points = buf[2] & 0x0F` records; record i reads `buf[6 + 6*i]` of the 32-byte `buf` | `buf[2] = 6`: record 5 reads `buf[33]`; counts up to 15 read up to `buf[90]` | decode only the records that lie in the buffer, at most 5 | high (not executed) | `FocaltechTs.AsWrittenOverreads` | `FocaltechTs.DecodeReadsInBounds` |
| tools/testing/selftests/vDSO/vdso_test_getrandom.c:59-85 | after a refill `num` may be 0, and `states[--vgrnd.len]` is still read | opaque state larger than a page: `num = 0`, `--len` wraps to SIZE_MAX | return NULL when the refill produced no state | low (not executed; needs a state larger than a page) | `GetrandomPool.AsWrittenEmptyRefill` | `GetrandomPool.GetState` |
