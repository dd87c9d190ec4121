# tsf-sync: models and proofs

tsf-sync disciplines the TSF counters of WiFi cards to one another. A TSF is a 64-bit count of
microseconds that wraps (section 11.1.3 of IEEE 802.11-2020). This project models the repository's
hard logic in Dafny and proves what it keeps, what it reaches, and where it does not do what its
text promises.

`dafny verify dfyconfig.toml` checks everything.

## What is modelled

* **Control** (`Control`, `ClosedLoop`, `FilterTheory`, `FilterEnergy`, `FreeSteps`, `KalmanLoop`,
  `ShippedLoop`, `ClockLoop`): the saturating, truncating proportional controller with its forced
  microsecond, the optional Kalman filter over exact reals, the loop both close through the
  follower's error, and that loop on the clocks and followers themselves.
* **The two sync loops** (`RunSingle`, `ParallelSync`, `ParallelSafety`, `ParallelRefinement`,
  `ParallelClocks`, `ParallelShutdown`, `ParallelExamples`): the single-threaded loop as imperative
  code; the parallel one as a step relation over a sampler, n workers, two reusable barriers, one
  atomic and the RUNNING flag, which a signal may clear at any step. Every theorem is about all runs
  and all interleavings, but for the examples, which are runs that exist.
* **Split register access** (`SplitRegister`): the high-low-high read and the low-then-high write
  against a counter that ticks between any two accesses. The rtw89 patch
  (`patches/rtw89/0001-wifi-rtw89-add-ptp-hardware-clock-for-tsf.patch:139-158`) repeats the
  protocol on other registers.
* **Text** (`HexParse`, `TsfFile`): the SSSE3 pipeline instruction by instruction, lane by lane,
  the scalar parser, the dispatcher, and decimal formatting in place.
* **Statistics** (`Welford`): the online accumulator over exact reals.
* **The kernel module** (`Locks`, `Cards`, `ClockTime`, `ModeB`, `ModeBBounds`, `Chardev`, `Batches`,
  `IoUringSync`, `ModeCBounds`, `ModesAgree`): cards as objects with a hardware clock; reading, setting and
  adjusting one; the in-kernel sync loop (Mode B); the character device and the userspace half of
  Mode C. The instants of the hardware accesses are inputs (`nat -> Access`); frozen clocks are the
  constant ones.
* **The card list** (`CardTable`, `CardTableInvariant`, `CardOrder`) as an index over the net devices,
  driven by register, up, down and unregister events: what is in it, in which order, and with which VIF.
* **Locking** (`LockOrder`, `NoDeadlock`, `Exclusion`): the kernel methods return, as a ghost result, the
  lock operations they perform and what they touch under them; those lists are what the threads of
  `NoDeadlock` execute.

## Findings

Each but the last, which is about comments and reporting, is a theorem listed in the table.

* Mode B does not bring every up, writable card near the primary. The difference is multiplied by
  1000 in 64 bits: 2^61 microseconds apart wraps to 0 and 2^60 apart to the number without a
  negation, and both are skipped at any threshold above zero. `SynchronisedExactly` says for which
  differences.
* A card exactly a positive threshold away is corrected by Mode B and not by Mode C
  (`EdgeExample`). Mode C also cannot reach a card, or use a primary, with list index 128 or above
  (`OutOfReachExample`).
* With the primary's interface down Mode B refuses; Mode C reads the primary as time zero and steps
  the other cards to it (`DownExample`).
* The search of the character device for a card stops at the list head when the index is exactly
  the number of cards. Unless the delta is below the threshold, the kernel then takes the list head
  for a card; `Chardev.Write` returns that as an outcome and says when. Mode C never asks for it.
* A threshold above zero makes `adjtime` and the character device ignore the least 64-bit delta.
* The parallel loop shuts down cleanly only if the signal comes in one window. Otherwise the
  sampler stays blocked in one of three barriers, not two: the wait after the loop, the second
  barrier, or the first barrier inside the loop. A run ends in each.
* When a read of the master fails the single loop skips the cycle; the parallel one corrects
  against the last value, and against zero if there was none. The loops then differ for exactly
  the followers that could be read.
* Losing the interface a card uses leaves the card without a VIF even while another of its
  interfaces is up.
* The high-low-high read is right up to 2^64 - 2^32 ticks between its high reads, and not beyond
  (`LinearizableExactly`). The source states no bound.
* `parse_hex_auto` keeps the first sixteen digits of a longer run, the scalar parser the last
  (`LongRunDiffers`). No text in the cards' own format reaches that: `RenderParses`.
* `rms` is the standard deviation, not the root mean square its comment names
  (`src/bin/tsf_sync_debugfs/stats.rs:40`); a single observation of 1 gives 0 (`RmsOfOne`).
* Comments that the code contradicts, where the model follows the code: `kernel/tsf_ptp.c:20` gives
  the lock order as wiphy lock, then card lock, but every path takes cards_lock, card lock, wiphy
  lock, as line 662 says; `kernel/tsf_ptp.h:23` says the card lock is not held across TSF
  operations, but it is. `sampler_stats` (`src/bin/tsf_sync_debugfs/threading.rs:175`) is reported
  and never updated, so the periodic rms of the parallel loop is always zero.

## Conventions

Rust arithmetic wraps, as in a release build without overflow checks; kernel arithmetic wraps too.
`clamp` panics when its bounds cross, so a step limit is required not to be negative. Reads of
files, clocks and registers that can fail are inputs.

## Model

| member | source | states |
|---|---|---|
| Control.KalmanFilter1D.Update | src/bin/tsf_sync_debugfs/control.rs:20-28 | the new filter state and the estimate returned, as the value-level update |
| Control.GainFacts | src/bin/tsf_sync_debugfs/control.rs:20-28 | the gain is a proper fraction and the covariance left behind is the measurement noise times the gain used |
| Control.ClampStep | src/bin/tsf_sync_debugfs/control.rs:71-83 | a step never exceeds the limit, or one microsecond if the limit is zero; it is zero if and only if the error is zero and so is the proportional step or the limit |
| Control.Controller.Apply | src/bin/tsf_sync_debugfs/control.rs:56-66 | returns the wrapped raw error, and the step and filter state the decision function gives for it, whose meaning is DecisionAnswers |
| Control.CorrectionClosesLoop | src/bin/tsf_sync_debugfs/threading.rs:15-25 | whatever wraps on the way, the next raw error is this one less the step plus what the master gained on the follower |
| ClosedLoop.DecisionAnswers | src/bin/tsf_sync_debugfs/control.rs:56-83 | one decision, filter or not, at a gain of either sign whose product fits: the step's size is the millionth part of measure times gain, at most the limit, its direction that of the product, and a microsecond in the measure's direction where that comes to nothing; the measure is the raw error, or the truncated estimate part of the way to it |
| ClosedLoop.ContractsExactly | src/bin/tsf_sync_debugfs/control.rs:56-83 | which gains and limits strictly shrink every nonzero error: if and only if the limit is 0, or the gain is not negative and below two, or the limit is 1 and the gain not negative |
| ClosedLoop.NeverOvershootsExactly | src/bin/tsf_sync_debugfs/control.rs:56-83 | for every gain, no step carries an error of either sign across zero if and only if (limit - 1)(gain - 1) falls short of one microsecond, or the limit is 0 |
| ClosedLoop.SignIsKept | src/bin/tsf_sync_debugfs/control.rs:56-83 | under that condition, with a gain that is not negative, the error keeps its sign or is zero after any number of cycles |
| ClosedLoop.Converges | src/bin/tsf_sync_debugfs/control.rs:56-83 | with a contracting gain and limit, any gain if the limit is 0, any error whose product fits is zero after at most as many cycles as it has microseconds, and stays there |
| ClosedLoop.UnitGainTrajectory | src/bin/tsf_sync_debugfs/control.rs:56-83 | at unit gain the error after n cycles, exactly; it is zero if and only if n full steps cover it |
| ClosedLoop.DriftIsContained | src/bin/tsf_sync_debugfs/threading.rs:15-25 | at unit gain, drift bounded below the limit keeps the error within one cycle's drift from a computable cycle on |
| ClockLoop.TickingIsRun | src/bin/tsf_sync_debugfs/threading.rs:15-25 | for any controller, filter or not, on clocks that tick and wrap: the raw errors a follower's corrections meet round after round are those of the recurrence the convergence results are about |
| ClockLoop.SingleRunTicks | src/bin/tsf_sync_debugfs/threading.rs:66-83 | a follower of the single-threaded loop whose readings are what those clocks show is the follower of those clocks |
| ClockLoop.SingleRunConverges | src/bin/tsf_sync_debugfs/threading.rs:66-83 | so the loop brings a follower that does not drift, the delays of its corrections counted, level with the master within as many rounds as there are microseconds between them, for every contracting gain and limit |
| ClockLoop.SingleRunContainsDrift | src/bin/tsf_sync_debugfs/threading.rs:66-83 | and holds a drifting one, at unit gain, to a round's drift from the settling round on |
| ClockLoop.SameRateDrift | src/bin/tsf_sync_debugfs/threading.rs:66-83 | clocks of one rate drift in the loop's eyes by the change in how late its accesses come, so by no more than the lag of a round |
| ClockLoop.SingleRunSameRate | src/bin/tsf_sync_debugfs/threading.rs:66-83 | so at unit gain a follower of the master's own rate is brought within that lag, and kept there |
| ClockLoop.SingleRunTracks | src/bin/tsf_sync_debugfs/threading.rs:66-83 | with the filter on, at any gain and drift its envelope allows, a follower is tracked without ever clamping, a margin of the squared error under a falling level |
| FilterTheory.GapShrinks | src/bin/tsf_sync_debugfs/control.rs:20-28 | an update scales qr - p^2 - qp by the square of one less the gain, and p rises exactly while that is positive |
| FilterTheory.CovarianceClimbs | src/bin/tsf_sync_debugfs/control.rs:10-28 | below the fixed point p strictly increases through every run of measurements and stays below it |
| FilterTheory.CovarianceRests | src/bin/tsf_sync_debugfs/control.rs:20-28 | at the fixed point p is constant |
| FilterTheory.EstimateInHull | src/bin/tsf_sync_debugfs/control.rs:20-28 | the estimate never leaves the hull of its start and all measurements |
| FilterTheory.EstimateNeverSaturates | src/bin/tsf_sync_debugfs/control.rs:59-62 | so the conversion back to i64 only truncates |
| FilterTheory.ConstantMeasurement | src/bin/tsf_sync_debugfs/control.rs:20-28 | a constant measurement is approached at least geometrically, at the rate of the first gain |
| FilterTheory.ShippedFilterConverges | src/bin/tsf_sync_debugfs/control.rs:10-28 | with the shipped noise values the remaining error is at most (4000/4051)^n of the measurement |
| FilterEnergy.EnergyScales | src/bin/tsf_sync_debugfs/control.rs:20-83 | a step of exactly g times the new estimate turns the energy k e^2 - k(1-g) e x + g(1-k) x^2 into 1-k of itself, for every gain g |
| FilterEnergy.EnergyContracts | src/bin/tsf_sync_debugfs/control.rs:20-83 | one cycle at any gain for which that energy is definite, k(1-g)^2 < 4g(1-k), whose step misses g times the estimate by less than m, rounding and drift together: the energy falls to at most (1-k/2) of itself plus (2-k) m^2 |
| KalmanLoop.FilteredLoopTracks | src/bin/tsf_sync_debugfs/control.rs:20-83 | at any such gain, from any covariance at or below the fixed point, under any drift of at most so much a cycle: a loop whose start and rest level fit the limit, and whose estimates times the gain and errors fit 64 bits, runs forever without the clamp acting, a margin of its squared error under an explicit bound that decays to the rest level |
| KalmanLoop.FilteredLoopSettles | src/bin/tsf_sync_debugfs/control.rs:20-83 | the same for a static offset |
| KalmanLoop.FixedPointRun | src/bin/tsf_sync_debugfs/control.rs:20-83 | at the fixed point, at any such gain and bounded drift, with energy and rest level small enough for the limit: the clamp never acts in the whole run, the energy never exceeds the larger of its start and its rest level, and every cycle contracts it as above |
| ShippedLoop.ShippedLoopTracks | src/bin/tsf_sync_debugfs/control.rs:10-28 | the shipped filter, gain and limit: any start within 614 microseconds and any drift of at most two a cycle is tracked forever, within 614 and without the clamp acting, the squared error under a decaying bound |
| ShippedLoop.ShippedLoopSettles | src/bin/tsf_sync_debugfs/control.rs:10-28 | a static offset sinks to a squared error of 25,079 at the rate 8051/8102 |
| ShippedLoop.ShippedGains | src/bin/tsf_sync_debugfs/control.rs:10-83 | the shipped filter and limit at every gain from a quarter to one and a half: any start within 479 microseconds is tracked forever without the clamp acting, within 497 |
| RunSingle.CorrectFollower | src/bin/tsf_sync_debugfs/threading.rs:15-25 | the follower's file and controller after one correction, and the step and error reported; a failed read changes nothing |
| RunSingle.Sweep | src/bin/tsf_sync_debugfs/threading.rs:77-82 | one pass of the inner loop corrects every follower once against the same value, none disturbing another |
| RunSingle.Run | src/bin/tsf_sync_debugfs/threading.rs:48-99 | the whole single-threaded run leaves every follower as the fold over its successful rounds, and counts those |
| RunSingle.SuccessesCount | src/bin/tsf_sync_debugfs/threading.rs:66-95 | the cycle count is the number of rounds whose master could be read |
| ParallelSync.StepInv | src/bin/tsf_sync_debugfs/threading.rs:149-206 | every step of any thread, and the signal, keeps the invariant on program counters, barrier counts and generations, published value and follower histories |
| ParallelSync.RunInv | src/bin/tsf_sync_debugfs/threading.rs:109-209 | so it holds in every state of every run |
| ParallelSafety.RoundIsolation | src/bin/tsf_sync_debugfs/threading.rs:149-199 | the sampler never stores while a worker is between the barriers; all corrections of a round use its one value; no follower is corrected twice in a round |
| ParallelSafety.NeverStuckWhileRunning | src/bin/tsf_sync_debugfs/threading.rs:149-199 | while RUNNING is true some thread can move |
| ParallelSafety.RoundsKeepCompleting | src/bin/tsf_sync_debugfs/threading.rs:149-199 | no schedule spends more than 8(n+1) steps a round, so rounds keep completing without any fairness |
| ParallelRefinement.ParallelRefinesSingle | src/bin/tsf_sync_debugfs/threading.rs:66-199 | between rounds the parallel loop has left every follower and controller exactly as the single-threaded loop does on the published values and the same readings |
| ParallelRefinement.FailedSamplesDiffer | src/bin/tsf_sync_debugfs/threading.rs:66-199 | on the values as read, the parallel loop makes one more write to a follower for each round in which the master could not be read and it could; the two loops leave it alike if and only if there was none |
| ParallelRefinement.RefinesExactly | src/bin/tsf_sync_debugfs/threading.rs:66-199 | the same between rounds of every run |
| ParallelClocks.ParallelTicks | src/bin/tsf_sync_debugfs/threading.rs:66-199 | between rounds, in every run and interleaving, a follower of the parallel loop whose readings are what ticking clocks show is the follower of those clocks |
| ParallelClocks.ParallelConverges | src/bin/tsf_sync_debugfs/threading.rs:66-199 | so the parallel loop, too, brings one that does not drift level with the master, a microsecond a round at least |
| ParallelClocks.ParallelContainsDrift | src/bin/tsf_sync_debugfs/threading.rs:66-199 | and holds a drifting one, at unit gain, to a round's drift from the settling round on |
| ParallelClocks.ParallelTracks | src/bin/tsf_sync_debugfs/threading.rs:66-199 | and tracks one with the filter on, drift and all, without ever clamping |
| ParallelExamples.FirstReadFails | src/bin/tsf_sync_debugfs/threading.rs:67-75 | a run whose first read of the master fails: the parallel loop corrects the follower against the initial zero, the single loop leaves it alone |
| ParallelShutdown.ShutdownOutcome | src/bin/tsf_sync_debugfs/threading.rs:149-206 | within 5n+10 steps of the signal nothing moves; the outcome depends only on the moment of the signal; it is clean if and only if that lay in the window: all workers heading into the first barrier, the sampler past the second and not yet at its check |
| ParallelShutdown.HaltMatchesFate | src/bin/tsf_sync_debugfs/threading.rs:163-206 | where every thread stands at the end, for each outcome: all exited, or the sampler blocked in a named barrier, every worker waiting in the same one or exited, at least one exited |
| ParallelExamples.EveryOutcomeHappens | src/bin/tsf_sync_debugfs/threading.rs:149-206 | each of the four outcomes, the clean one and three blocked ones, is the end of some run, whatever the controller |
| SplitRegister.TsfRegisters.ReadTsf | patches/rtw88/0001-wifi-rtw88-add-ptp-hardware-clock-for-tsf.patch:138-155 | the value returned and the ticks that pass, access by access |
| SplitRegister.ReadIsLinearizable | patches/rtw88/0001-wifi-rtw88-add-ptp-hardware-clock-for-tsf.patch:138-155 | the read returns a value the counter held at an instant inside the call |
| SplitRegister.LinearizableExactly | patches/rtw88/0001-wifi-rtw88-add-ptp-hardware-clock-for-tsf.patch:138-155 | for all counters and tick patterns if and only if at most 2^64 - 2^32 ticks pass between the high reads |
| SplitRegister.ReadsAdvance | patches/rtw88/0001-wifi-rtw88-add-ptp-hardware-clock-for-tsf.patch:138-155 | of two reads each shows an instant of its own call, so the second shows none before the end of the first |
| SplitRegister.ReadInstant | patches/rtw88/0001-wifi-rtw88-add-ptp-hardware-clock-for-tsf.patch:138-155 | which instant a read shows: that of the low word's read where the high word stood still; where it moved, the low word read after it counts, and the value is the counter's at that read if and only if the low word does not wrap in between |
| SplitRegister.WriteExactly | patches/rtw88/0001-wifi-rtw88-add-ptp-hardware-clock-for-tsf.patch:157-161 | a write loses exactly the carries out of the low word; for a gap below 2^32 it is exact if and only if the low word does not overflow |
| SplitRegister.WriteThenRead | patches/rtw88/0001-wifi-rtw88-add-ptp-hardware-clock-for-tsf.patch:138-161 | written and read back is the written value plus the ticks since, up to an instant of the read |
| SplitRegister.AdjustMoves | patches/rtw88/0001-wifi-rtw88-add-ptp-hardware-clock-for-tsf.patch:190-202 | adjtime moves the counter by the truncated delta less the ticks between the instant its read shows and its write |
| HexParse.Ssse3Right | src/bin/tsf_sync_debugfs/asm/hex.rs:24-53 | the pipeline, modelled lane by lane, gives the base-16 value of any sixteen digits in either case |
| HexParse.ParseHexScalar | src/bin/tsf_sync_debugfs/asm/hex.rs:63-90 | the low 64 bits of the longest run of digits after white space and an optional prefix; nothing if there are none |
| HexParse.ScalarReads | src/bin/tsf_sync_debugfs/asm/hex.rs:63-90 | any text of white space, a prefix of either case or none, digits, and something else is read as the low 64 bits of its digits, or as nothing without any |
| HexParse.DigitMeaning | src/bin/tsf_sync_debugfs/asm/hex.rs:73-78 | the digits are the characters 0-9, a-f and A-F, each worth its place |
| HexParse.AutoAgreesExactly | src/bin/tsf_sync_debugfs/asm/hex.rs:97-107 | the dispatcher equals the scalar parser if and only if it does not take the fast path or the run's last sixteen digits are worth its first sixteen; always when byte 18 is no digit |
| HexParse.LongRunDiffers | src/bin/tsf_sync_debugfs/asm/hex.rs:97-107 | sixteen zeros and a one after the prefix: the dispatcher gives 0, the scalar parser 1 |
| HexParse.RenderParses | src/bin/tsf_sync_debugfs/asm/hex.rs:97-107 | the card's rendering of any value is read back, on either path |
| TsfFile.CanonicalUnique | src/bin/tsf_sync_debugfs/debugfs.rs:140-157 | canonical decimal text is determined by its value |
| TsfFile.DigitsInReverse | src/bin/tsf_sync_debugfs/debugfs.rs:147-153 | the loop leaves the digits least first, at most twenty of them, the rest of the buffer untouched |
| TsfFile.FormatU64Decimal | src/bin/tsf_sync_debugfs/debugfs.rs:140-157 | canonical digits worth the number, a newline, all within 21 bytes, the rest untouched |
| TsfFile.DebugfsTsf.WriteTsf | src/bin/tsf_sync_debugfs/debugfs.rs:47-51 | the card ends up holding the value written, or a failing system call's error is returned and it keeps what it had |
| TsfFile.DebugfsTsf.ReadTsf | src/bin/tsf_sync_debugfs/debugfs.rs:37-42 | a read returns the value the card holds, or the system call's error |
| TsfFile.InvalidExactly | src/bin/tsf_sync_debugfs/debugfs.rs:37-42 | invalid data is reported if and only if the text has no digit after white space and an optional prefix |
| Welford.WelfordStats.Update | src/bin/tsf_sync_debugfs/stats.rs:22-38 | the accumulator after one observation |
| Welford.WelfordStats.PrintAndReset | src/bin/tsf_sync_debugfs/stats.rs:49-59 | returns what rms would and starts over from the empty accumulator |
| Welford.WelfordRight | src/bin/tsf_sync_debugfs/stats.rs:22-38 | after any observations the mean is the mean and m2 the sum of squared deviations from it, so not negative |
| Welford.RmsIsStandardDeviation | src/bin/tsf_sync_debugfs/stats.rs:41-46 | the square of rms is the mean squared deviation; with the squared mean it makes the mean square; it equals the true mean square if and only if the observations sum to zero |
| Welford.RmsOfOne | src/bin/tsf_sync_debugfs/stats.rs:41-46 | for the single observation 1 it returns 0, the mean square being 1 |
| Welford.OrderDoesNotMatter | src/bin/tsf_sync_debugfs/stats.rs:22-38 | the whole accumulator, maxima included, is the same for every order of the observations |
| Welford.MaximaRight | src/bin/tsf_sync_debugfs/stats.rs:30-37 | the maxima bound every observation and are attained; the least i64 never counts |
| Cards.TsfAfterSet | kernel/tsf_ptp.c:143-153 | a clock that was set runs on from what it was set to |
| Cards.Card.SetTsf | kernel/tsf_ptp.c:143-153 | the clock shows the value from then on, or is left alone by a driver that cannot write |
| Cards.Card.Sync | kernel/tsf_ptp.c:741-758 | one secondary's correction: offset recorded, clock written unless below the threshold, cycle counted |
| ClockTime.GetTime | kernel/tsf_ptp.c:157-179 | the wrapped nanoseconds, or an error without a VIF; the locks taken |
| ClockTime.SetTime | kernel/tsf_ptp.c:181-205 | the clock set to the microseconds, or an error without a VIF and nothing changed; the locks taken |
| ClockTime.SetToReadExactly | kernel/tsf_ptp.c:157-205 | setting a clock to the time just read changes nothing if and only if its nanoseconds are below 2^64 |
| ClockTime.ReadAfterSet | kernel/tsf_ptp.c:157-205 | reading a set time back loses less than a microsecond, negative times included, if and only if the time is not among the first 192 ns of the range |
| ModeB.FindPrimaryLocked | kernel/tsf_ptp.c:671-690 | the first card bearing the configured name, or the first in the list when no name is set, VIF or not, stated without the search function; none if and only if there is no such card |
| ModeB.SyncWork | kernel/tsf_ptp.c:692-768 | one run of the loop gives the whole new state, counters included, for any table and any access times; the locks taken |
| ModeBBounds.LeaderDecides | kernel/tsf_ptp.c:692-763 | with no name set, the first card decides, otherwise the first that bears the name: without a VIF a cycle changes nothing but the failure count; with one it leaves that card alone and corrects each of the others |
| ModeBBounds.NobodyLeads | kernel/tsf_ptp.c:700-707 | on an empty list, or when no card bears the name, a cycle changes nothing but the failure count |
| ModeBBounds.SecondariesAt | kernel/tsf_ptp.c:724-759 | each card but the primary is treated once, on the state it had at the start |
| ModeBBounds.OffsetConstant | kernel/tsf_ptp.c:709-759 | how far apart two clocks of one rate are does not depend on when they are compared |
| ModeBBounds.BoundedCycle | kernel/tsf_ptp.c:709-762 | a cycle of at most L microseconds from any clock values: written cards end within L of the primary, skipped ones within threshold/1000 + L unless the product overflowed, and then far off; the primary is untouched; applied plus skipped grows by the number of secondaries with a VIF |
| ModeBBounds.SyncedOffset | kernel/tsf_ptp.c:709-753 | where a cycle leaves a card, exactly: one that is written, behind by the time from the reading of the primary to that write; any other where it was |
| ModeBBounds.CardAccounts | kernel/tsf_ptp.c:733-758 | what a cycle records about each secondary: an error and nothing else without a VIF; else one more cycle, and as offset its true lag in nanoseconds whenever that fits |
| ModeBBounds.SkipExactly | kernel/tsf_ptp.c:744-753 | which differences are skipped, over all 2^64: those whose product is within the threshold of a multiple of 2^64, or 2^63 past one |
| ModeBBounds.SkipRightWhenFits | kernel/tsf_ptp.c:744-753 | where the product fits, exactly the differences below the threshold are skipped |
| ModeBBounds.SynchronisedExactly | kernel/tsf_ptp.c:709-759 | on frozen clocks a card ends within the threshold if and only if the product fits or the overflow escapes the skip |
| ModeBBounds.WronglySkipped | kernel/tsf_ptp.c:744-753 | differences of 2^61 and of 2^60 microseconds are skipped at every positive threshold |
| Chardev.AdjTime | kernel/tsf_ptp.c:207-240 | the whole new state and the result: skipped below the threshold, error without a VIF, else the clock stepped; the locks taken |
| Batches.AdjTimeAccounts | kernel/tsf_ptp.c:207-240 | what `adjtime` counts: a request below the threshold as skipped, one that steps a clock as applied, one without a VIF not at all |
| Chardev.Read | kernel/tsf_ptp.c:792-859 | a snapshot of every card, zero for one without a VIF, and the number of bytes copied; the locks taken |
| Chardev.WriteEntry | kernel/tsf_ptp.c:889-928 | one entry has the effect of `adjtime` on the card at its index, and none past the list; it takes the list head for a card if and only if its index is the number of cards and its delta is not below the threshold; no VIF changes; the locks taken |
| Chardev.Write | kernel/tsf_ptp.c:861-934 | a batch has the effect of `adjtime` folded over its entries, up to the first that takes the list head; which of the results it has, that one if and only if there is such an entry; the locks taken |
| Batches.SplitAnywhere | kernel/tsf_ptp.c:861-934 | a batch may be cut in two anywhere |
| Batches.DistinctCardsCommute | kernel/tsf_ptp.c:861-934 | neighbouring entries for different cards may change places, anywhere in a batch |
| Batches.BatchIsFold | kernel/tsf_ptp.c:861-934 | each card ends as `adjtime` folded over its own entries leaves it |
| Batches.BatchAccounts | kernel/tsf_ptp.c:889-928 | what a batch counts: as skipped the entries below the threshold, whatever their index; as applied the others whose card exists and has a VIF; nothing else |
| Batches.LossExactly | kernel/tsf_ptp.c:893-923 | one correction comes within max(1000, threshold) nanoseconds of the request if and only if it is not the least delta under a positive threshold |
| Batches.TotalLoss | kernel/tsf_ptp.c:207-240 | n corrections lose less than n times that |
| Batches.BatchLoss | kernel/tsf_ptp.c:861-934 | where a card's clock ends after a batch, whatever is asked of the other cards: moved by a total that close to its own requests, less the ticks between reads and writes |
| IoUringSync.IoUringSyncer.ReadSnapshots | src/iouring_sync.rs:122-162 | the snapshots of the first 128 cards |
| IoUringSync.IoUringSyncer.SyncOnce | src/iouring_sync.rs:62-119 | a cycle's effect on the kernel and its statistics, the missing primary included |
| IoUringSync.CycleStatsRight | src/iouring_sync.rs:62-119 | what a cycle returns: the cards read, at most 128; with the primary among them, as applied the adjustments sent, which are the secondaries read that differ by more than the threshold, as skipped the other secondaries read, and the largest difference; zeros otherwise |
| IoUringSync.FindPrimaryIndex | src/iouring_sync.rs:240-267 | the index for a name is the card Mode B would use, if Mode C can read that far; the empty name is an error |
| IoUringSync.AdjustmentsInRange | src/iouring_sync.rs:88-111 | every adjustment names a card the kernel has |
| IoUringSync.StatsRight | src/iouring_sync.rs:88-111 | a cycle decides once for each secondary read, counts as applied the adjustments it sends, and keeps the largest magnitude |
| ModeCBounds.SameDelta | src/iouring_sync.rs:95-96 | both modes compute the same nanosecond difference, overflow and all |
| ModeCBounds.ModeCAt | src/iouring_sync.rs:62-119 | what a Mode C cycle does to each card, whenever the cards are read and the adjustments made: nothing beyond the first 128, and nothing at all if the primary is there |
| ModeCBounds.AdjustedOffset | kernel/tsf_ptp.c:207-240 | where an adjusted card ends, exactly: off by how much later it was read than the primary, how long its adjustment took, and what the product lost |
| ModeCBounds.BoundedModeCCycle | src/iouring_sync.rs:62-119 | a cycle that reads within a lag and adjusts with a delay, from any clock values: a secondary in reach, up and writable, ends within lag plus delay of the primary, or within the larger threshold plus the lag if left alone, when its product fits, and far off when it does not; the primary and cards out of reach are untouched |
| ModesAgree.ModesAgreeExactly | kernel/tsf_ptp.c:692-768 | after one frozen cycle of each mode a card's clock is the same if and only if: primary, no VIF, not writable, skipped, or reachable with a product that fits and not exactly a positive threshold away (beyond reach: level already) |
| ModesAgree.ModesAgreeWithoutOverflow | kernel/tsf_ptp.c:692-768 | with at most 128 cards and no overflow the modes differ only on a card exactly a positive threshold away, which Mode B levels and Mode C leaves |
| ModesAgree.EdgeExample | src/iouring_sync.rs:102 | two cards exactly the threshold apart, on which the modes differ |
| ModesAgree.OutOfReachExample | src/iouring_sync.rs:122-162 | a table of 129 cards, on whose last the modes differ |
| ModesAgree.DownPrimary | kernel/tsf_ptp.c:712-717 | with the primary down Mode B changes nothing but its failure count; for every card, both modes leave it the same clock if and only if Mode C does not touch it or its product is within the threshold, or a microsecond, of a multiple of 2^64 or 2^63 past one; a touched card ends at zero if and only if its product fits and it was beyond the threshold or at zero |
| ModesAgree.DownExample | kernel/tsf_ptp.c:712-717 | a down primary and a card at 7 microseconds, which Mode C sets to zero and Mode B leaves |
| CardTable.Probe | kernel/tsf_ptp.c:290-374 | a readable wiphy not listed yet gets a card at the end of the list, and nothing else changes; the locks taken |
| CardTable.TryHotplugRemove | kernel/tsf_ptp.c:439-472 | the card goes if and only if no device refers to its wiphy; the locks taken |
| CardTable.CaptureVif | kernel/tsf_ptp.c:507-523 | an interface that comes up becomes its card's VIF unless there is one; the locks taken |
| CardTable.ReleaseVif | kernel/tsf_ptp.c:525-559 | an interface that goes is taken from its card if the card used it; the locks taken |
| CardTable.NetdevEvent | kernel/tsf_ptp.c:482-567 | the list after each kind of event; the locks taken |
| CardTable.DiscoverFromNetdevs | kernel/tsf_ptp.c:582-613 | the cards found, their number; the locks taken |
| CardTable.ScanExistingVifs | kernel/tsf_ptp.c:619-653 | the VIFs captured; the locks taken |
| CardTable.Init | kernel/tsf_ptp.c:582-653 | the list after discovery and the scan for interfaces already up; the locks taken |
| CardTableInvariant.EventKeeps | kernel/tsf_ptp.c:482-567 | every event keeps the list consistent with the device table, and complete once it is |
| CardTableInvariant.LoadCompletes | kernel/tsf_ptp.c:582-653 | loading makes a consistent list complete and gives every card with an interface up a VIF |
| CardTableInvariant.TableRight | kernel/tsf_ptp.c:482-653 | any events, the load, any events: no wiphy is listed twice, the cards are exactly the readable wiphys with a device, and a VIF belongs to its card's wiphy and is registered and up |
| CardTableInvariant.LitExactly | kernel/tsf_ptp.c:525-557 | every card with an interface up keeps a VIF through an event if and only if the event does not take the VIF in use while another interface is up |
| CardTableInvariant.DarkExample | kernel/tsf_ptp.c:525-541 | five events after which a card has an interface up and no VIF |
| CardOrder.EventBecomes | kernel/tsf_ptp.c:290-567 | the list after any event: in their order the cards that stay, each with exactly the VIF the event leaves it and otherwise unchanged; a card goes only when its wiphy has no device left; at most one comes, at the end, with its name cut to 31 characters, its driver's abilities, its clock and zero counts |
| CardOrder.RunOrder | kernel/tsf_ptp.c:365-367 | through any run of events cards that stay listed keep their order |
| CardOrder.LatecomersLast | kernel/tsf_ptp.c:365-367 | and stand before every card that was off the list at some point of the run |
| CardOrder.DefaultPrimaryIsOldest | kernel/tsf_ptp.c:671-690 | so with no name set the primary is a card listed longest |
| CardOrder.DiscoveryOrder | kernel/tsf_ptp.c:582-613 | loading keeps the cards listed and adds the others behind them in the order of their first devices |
| CardOrder.ScanCaptures | kernel/tsf_ptp.c:619-653 | a card without a VIF gets the first of its interfaces that is up, every other keeps the one it has |
| LockOrder.OperationNeutral | kernel/tsf_ptp.c:157-1031 | every operation takes rtnl, cards_lock, a card's lock and a wiphy's lock in that order, gives all back, and touches the list, a VIF and the hardware only under their locks |
| NoDeadlock.NeverDeadlocks | kernel/tsf_ptp.c:157-1031 | any number of threads running any operations over any tables, interleaved in any way: no circular wait, no lock held twice, and while work is left some thread can go on |
| NoDeadlock.ChainClimbs | kernel/tsf_ptp.c:662-663 | along a chain of waits the rank of the lock wanted rises |
| NoDeadlock.SomebodyCan | kernel/tsf_ptp.c:662-663 | following waits from any thread with work leads to one that can take its turn |
| Exclusion.NeverTogether | kernel/tsf_ptp.c:157-1031 | whatever operations any number of threads run, however interleaved: who touches the list, a card's VIF or its hardware has the locks for it, nobody else has any of them, and no two touch it at once |
| Exclusion.TouchesExactly | kernel/tsf_ptp.c:157-1031 | which cards' hardware each operation touches, exactly |
| Exclusion.CycleChangesTouch | kernel/tsf_ptp.c:692-763 | a Mode B cycle changes no clock without touching its hardware under the locks |
| Exclusion.BatchChangesTouch | kernel/tsf_ptp.c:861-934 | nor does a batch change a card |
| Exclusion.EventChangesTouch | kernel/tsf_ptp.c:290-567 | nor an event a VIF or the list |

## Left out

- `src/ptp4l.rs`, `src/daemon.rs`, `src/module_loader.rs`, `src/main.rs`, `src/discovery.rs`, `src/config_gen.rs`, `src/health.rs`, the command line and logging: process and text plumbing.
- Inline syscalls, file descriptors, io_uring submission, real-time scheduling, deadlines and sleeping: a read or a write is an access to a card's TSF, its failure an input.
- IEEE rounding in the filter and the statistics: both are over exact reals, and a float's conversion to i64 is exact truncation with saturation.
- The reporting of statistics inside the sync loops (`check_stats`, per-worker accumulators, printing): it does not feed back into the corrections; `Welford` treats the accumulator itself.
- The wrap of the 64-bit counter `n` of the statistics, of the kernel's 64-bit event counters, of 32-bit snapshot indices and of the generation number in the standard library's barrier: all are unbounded here.
- PTP clock registration, memory allocation and copies to and from user space: they succeed. `getcrosststamp` and `adjfine`: the one brackets a read with system time, the other does nothing.
- `mono_ns` and `phy_name_len` of a snapshot: nobody uses the first, the second only delimits the name. Names are character strings without NUL.
- The conversion between `timespec64` and nanoseconds, which belongs to the kernel: `ClockTime` starts and ends with nanoseconds.
- Hot-plug between the read and the write of one Mode C cycle: the list is the same for both, so the indices mean the same cards.
- Locks taken outside `kernel/tsf_ptp.c`, except that the notifier runs under the rtnl lock.
- The ath9k, ath10k, ath11k and mt76 patches: conversion arithmetic already covered, or latches and firmware that are not shown.
- `benches/hot_path.rs`, Nix files and scripts.
- ParallelShutdown.ShutdownOutcome: speaks of runs with one signal; a second one changes nothing in the source.
- KalmanLoop.FilteredLoopTracks: speaks of the gains g with k(1-g)^2 < 4g(1-k), where the energy is definite (for the shipped filter, from 0.03 to 35); a gain smaller or larger than that would need another form. Starts on which the limit acts with the filter on are not covered either.
- Batches.TotalLoss: a bound, not an exact condition, for more than one correction, because losses may cancel; LossExactly is exact for one.
