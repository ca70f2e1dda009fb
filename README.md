# cputemp: a verified model of the thermal governor

cputemp keeps a CPU near a target temperature by moving the frequency ceiling
(`scaling_max_freq`) of every core. It exists in two variants, `cputemp.cpp` and
`cputemp.c`, and this project models the core of both. Each variant:

- resolves a temperature sensor by name among the thermal zones and hwmon groups of sysfs;
- reads the hardware frequency bounds of the cores;
- checks once that it can actually move the ceiling;
- runs a proportional-derivative law, clamped to the bounds, once per period.

The sysfs tree is a value (`Telemetry.Snapshot`):

- per-namespace sequences of nodes, each with an optional name and an optional integer reading;
- per-core capability files.

The per-core ceiling files are not part of the snapshot. They are a separate array (`array<Telemetry.CeilingFile>`) that `SetFreq` writes and each `Controller` holds. Each file is writable or not and holds a kHz value.

Reading a file is total and gives `None` for a file that cannot be opened or parsed.

The modules are:

- `telemetry.dfy` (`Telemetry`): the file abstractions shared by both variants, and the facts about them. These are what `fgets` stores, C strings, the line-reading helper, the truncating cast, the readable prefix of cores with its minimum and maximum, and the ceiling files `setFreq` writes.
- `control.dfy` (`Control`): the feedback law both variants share (gain `20000000 * period` on both terms, cap at the maximum, then raise to the minimum), the state carried from one iteration to the next, and runs of iterations. It also proves properties of the law: bounds, monotonicity when hot or cool, linear scaling with the period, descent to the floor under constant heat, and the C variant's `-1` sentinel.
- `cputemp_cpp.dfy` (`CpuTempCpp`): `cputemp.cpp`. Its sensor scan takes the first readable match and stops at the first blank name. Bounds come from `getMinMaxFreq`. The startup check is minimum then maximum, each polled up to ten times followed by a final read. `Controller` is the control loop's state.
- `cputemp_c.dfy` (`CpuTempC`): `cputemp.c`. Its scan covers a fixed ten indices, the last match wins and hwmon overrides thermal. Bounds come from the `getMinFreq`/`getMaxFreq` folds, and `getFreq` reads cpu0 only. The startup check is maximum then minimum, one read each, and it restores the ceiling on failure. `Controller` starts from the `-1` sentinel. `Run` is the loop as written, aborting only on a reading of -1; `RunIntended` is the same loop with the corrected `getTemp`.

The actuator, the bound scans, the sensor scans and the control loops are methods with loops; `cputemp.c`'s `readString` fills a caller's array. Each method is proved against a specification function, and the properties the source relies on are proved as lemmas about those functions.

Where the code behaves differently from what a reader might expect, the model follows the code:

- `cputemp.cpp`'s `readString` returns "" for a missing or empty file rather than an absent value.
- A failed temperature read is not skipped: `cputemp.cpp` turns it into `LONG_MIN / 1000` degrees, and `cputemp.c` turns it into `INT_MIN / 1000` degrees (see Findings).
- Neither loop verifies its writes by reading them back.
- `cputemp.c` checks the maximum before the minimum, with one read each and no polling. It resolves sensors without stopping at a gap and keeps the last match.

## Model

| member | source | states |
|---|---|---|
| Telemetry.FirstLine | cputemp.c:38 | what `fgets` stores: a prefix of the content, at most `limit` long, with no newline before its last character; it ends at the limit, at the end of the content, or just after a newline |
| Telemetry.NulIndex | cputemp.c:40 | `strlen`: the index of the first NUL, or the length if there is none |
| Telemetry.LineRead | cputemp.cpp:38-50 | the line a read through an `n`-character buffer yields: "" for a missing file, otherwise a prefix of the content with no newline or NUL, at most `n - 2` long |
| Telemetry.LineReadOfLine | cputemp.cpp:38-50 | round trip: a file whose first line is `s` (no NUL, fits the buffer) reads back as exactly `s` |
| Telemetry.TruncToInt | cputemp.c:12 | the C `(int)` cast truncates toward zero: it is within one of its argument, on the side of zero |
| Telemetry.KHzRoundTrip | cputemp.c:12 | a whole number of kHz, scaled to Hz and converted back by `setFreq`, is unchanged |
| Telemetry.ReadablePrefix | cputemp.cpp:85-87 | the scan length: every core before it parses to a value other than the failure sentinel, and the core at it does not |
| Telemetry.MinOf | cputemp.cpp:88 | the fold of `fmin`: a lower bound of the scanned values that is one of them |
| Telemetry.MaxOf | cputemp.cpp:89 | the fold of `fmax`: an upper bound of the scanned values that is one of them |
| Telemetry.WritablePrefix | cputemp.cpp:19-22 | the count `setFreq` returns: every core before it opens for writing and the core at it does not |
| Telemetry.WriteCeilings | cputemp.cpp:19-25 | the first `n` ceilings hold the written kHz value and every later core is unchanged |
| Control.Gain | cputemp.cpp:276 | both gains, `20000000 * period`, are positive exactly when the period is |
| Control.Unclamped | cputemp.cpp:289 | at the target with a steady temperature the law leaves the ceiling unchanged: both terms vanish |
| Control.Clamp | cputemp.cpp:290-291 | with `lo <= hi` the result lies in `[lo, hi]` and is `x` when `x` does; with `hi < lo` it is `lo` |
| Control.ClampMonotone | cputemp.cpp:290-291 | the clamp preserves order |
| Control.NextFreq | cputemp.cpp:289-291 | the next ceiling is within the bounds (the minimum when they cross), and equals the unclamped law whenever that is in bounds |
| Control.UnclampedWithGains | cputemp.cpp:276-291 | the loop's expression with both gains set to `20000000 * period` is the law `Unclamped`, and clamping it gives `NextFreq` |
| Control.UnclampedScalesWithPeriod | cputemp.cpp:276 | scaling the period by `k` scales the law's change of frequency by `k` |
| Control.NoRiseWhenHot | cputemp.cpp:289-291 | from a ceiling at or above the minimum, at or above the target and not cooling, the ceiling does not rise |
| Control.NoFallWhenCool | cputemp.cpp:289-291 | from a ceiling at or below the maximum, at or below the target and not warming, the ceiling does not fall |
| Control.FarBelowTargetCommandsMax | cputemp.cpp:289-291 | from an in-bounds ceiling, a reading no warmer than the last and so far below the target that the proportional term spans the bounds commands exactly the maximum |
| Control.StepState | cputemp.cpp:289-296 | one iteration carries exactly the new sample as the previous temperature and an in-bounds ceiling |
| Control.Iterate | cputemp.cpp:279-299 | no samples leave the state unchanged; after at least one, the previous temperature is the last sample and the ceiling is within the bounds |
| Control.Commands | cputemp.cpp:279-299 | a run commands one ceiling per sample, each within the bounds |
| Control.CommandsAt | cputemp.cpp:279-299 | the `j`-th command is the ceiling after the first `j + 1` iterations |
| Control.UnclampedAtRest | cputemp.cpp:289 | at a steady temperature the derivative term vanishes and the law lowers the ceiling by `Drop` |
| Control.DropPositive | cputemp.cpp:289 | above the target with a positive period, `Drop` is positive |
| Control.HotStep | cputemp.cpp:289-296 | from a ceiling at or below the maximum, one hot, steady iteration lowers the ceiling by `Drop`, stopping at the minimum |
| Control.HotConstantDescends | cputemp.cpp:279-299 | after `k` iterations at a constant temperature above the target the ceiling is `max(min, start - k * Drop)` |
| Control.DescentIsProduct | cputemp.cpp:279-299 | `k` drops add up to `k * Drop` |
| Control.HotConstantReachesFloor | cputemp.cpp:279-299 | held hot long enough, the ceiling settles at exactly the minimum |
| Control.SentinelActsOnFirstStep | cputemp.c:179-216 | a run starting from the `-1` sentinel equals a run whose previous temperature is the first sample, as long as no earlier sample is `-1` |
| Control.SentinelMasksMinusOneDegree | cputemp.c:205 | a genuine previous reading of `-1` degrees is taken for the sentinel, and when the unclamped results are in bounds this changes the step |
| CpuTempCpp.ReadNumber | cputemp.cpp:28-36 | `LONG_MIN` exactly for a missing or unparsable file (or one holding `LONG_MIN`), otherwise the file's integer |
| CpuTempCpp.ReadString | cputemp.cpp:38-50 | "" for a missing file, otherwise a prefix of the content with no newline or NUL that fits the 1024-byte buffer |
| CpuTempCpp.ReadTemp | cputemp.cpp:94 | the reading in degrees, and `LONG_MIN / 1000` when the read fails |
| CpuTempCpp.GapFrom | cputemp.cpp:55-57 | the first index at or after `i` whose name reads blank, all names before it present |
| CpuTempCpp.ScanFirst | cputemp.cpp:55-65 | the first candidate before the gap, with no candidate before it; `None` only when no candidate precedes the gap |
| CpuTempCpp.Resolve | cputemp.cpp:54-81 | a thermal zone when one matches before its gap, else an hwmon group before its gap, each the first such; `None` exactly when neither namespace has a candidate before its gap |
| CpuTempCpp.ScanNamespace | cputemp.cpp:55-65 | the scan loop with its early exits returns `ScanFirst` from index 0 |
| CpuTempCpp.FindTemperatureFn | cputemp.cpp:54-81 | the two loops return `Resolve`; `None` is the "Could not find sensor" exit |
| CpuTempCpp.MinMaxFreq | cputemp.cpp:83-92 | `None` exactly when core 0 is unreadable; otherwise the least and greatest value ×1000 of the readable prefix, each attained |
| CpuTempCpp.GetMinMaxFreq | cputemp.cpp:83-92 | the accumulating loop, which stops at the first failed read, computes `MinMaxFreq` |
| CpuTempCpp.Bounds | cputemp.cpp:232 | available exactly when both scans are; the minimum of `cpuinfo_min_freq` and the maximum of `cpuinfo_max_freq` |
| CpuTempCpp.GetMinFreq | cputemp.cpp:95 | the smallest `cpuinfo_min_freq` in Hz; `None` exactly when core 0 is unreadable |
| CpuTempCpp.GetMaxFreq | cputemp.cpp:96 | the largest `cpuinfo_max_freq` in Hz; `None` exactly when core 0 is unreadable |
| CpuTempCpp.CeilingRead | cputemp.cpp:97 | the read-back is unavailable exactly when core 0's ceiling is unreadable |
| CpuTempCpp.GetFreq | cputemp.cpp:97 | the read-back loop computes `CeilingRead` |
| CpuTempCpp.SetFreq | cputemp.cpp:17-26 | returns the writable prefix; those cores hold the truncated kHz value; all others are unchanged |
| CpuTempCpp.SetThenReadBack | cputemp.cpp:17-26 | with every ceiling file writable, reading back after `setFreq` of a whole-kHz frequency gives that frequency |
| CpuTempCpp.PollEnd | cputemp.cpp:235-236 | the polling phase stops within its budget, after at least one read when there is a budget |
| CpuTempCpp.Poll | cputemp.cpp:235-236 | the polling loop stops at the read after the first match, or after the budget of misses (`PollEnd`) |
| CpuTempCpp.PollCeiling | cputemp.cpp:234-243 | a phase passes exactly when the read after the polling loop shows the target |
| CpuTempCpp.NeverMatchingFails | cputemp.cpp:235-243 | if none of the eleven reads shows the target, the phase fails |
| CpuTempCpp.SettledPollPasses | cputemp.cpp:235-236 | a ceiling that shows the target within the budget and then keeps showing it ends the poll on a matching read |
| CpuTempCpp.SettledCeilingPasses | cputemp.cpp:234-243 | such a ceiling passes its phase |
| CpuTempCpp.CapabilityCheck | cputemp.cpp:234-254 | the minimum phase runs first and the maximum phase runs only if it passes; the check passes exactly when both phases do; the commands are `[min]` or `[min, max]` |
| CpuTempCpp.Startup | cputemp.cpp:221-254 | it fails with `SensorNotFound` exactly when resolution fails, and succeeds exactly when the sensor, both bounds and both phases are good; the setup holds the resolved sensor and the bounds. After resolution, missing bounds fail with `BoundsUnavailable` and no commands. A minimum that never reads back fails with `MinFreqNotSettable` after commanding the minimum. A maximum that never reads back fails with `MaxFreqNotSettable` after commanding the minimum, then the maximum |
| CpuTempCpp.Controller.constructor | cputemp.cpp:276-277 | the loop starts from the ceiling and temperature re-read after the check; in bounds when that ceiling is the maximum |
| CpuTempCpp.Controller.Step | cputemp.cpp:289-296 | the carried state becomes exactly `StepState`; the ceiling stays in bounds; the cores hold the truncated command |
| CpuTempCpp.Temps | cputemp.cpp:280 | one temperature per sample, as `readTemp` reads it |
| CpuTempCpp.Run | cputemp.cpp:279-299 | after the samples, the state is `Iterate` and the commands are `Commands`, all within bounds; the ceiling stays in bounds once it is |
| CpuTempC.ReadNumber | cputemp.c:23-30 | `INT_MIN` exactly for a missing or unparsable file (or one holding `INT_MIN`), otherwise the file's integer |
| CpuTempC.Fgets | cputemp.c:38 | fails exactly at end of file with room to read, leaving the buffer untouched; otherwise it stores the first line and a NUL |
| CpuTempC.CStrOfTerminated | cputemp.c:38-40 | the C string of a buffer holding a line then a NUL is the C string of the line |
| CpuTempC.ReadString | cputemp.c:32-42 | returns 1 exactly when `fgets` succeeds; the buffer's C string is `LineRead` of the file for that buffer size |
| CpuTempC.ScanLast | cputemp.c:49-58 | the last candidate among the first `k` devices, with no candidate after it; `None` only when there is none |
| CpuTempC.Resolve | cputemp.c:46-70 | the last hwmon candidate among ten groups, else the last thermal candidate among ten zones, else `None` with no candidate in either |
| CpuTempC.ScanNamespace | cputemp.c:49-58 | the loop over indices 0..9, skipping unreadable and unequal names, computes `ScanLast` |
| CpuTempC.FindTemperatureFn | cputemp.c:46-70 | the two loops, the later overwriting the earlier, compute `Resolve` |
| CpuTempC.GetTempAsWritten | cputemp.c:72-76 | aborts exactly on a reading of -1; otherwise it gives `readNumber / 1000`, including for a failed read |
| CpuTempC.LostSensorReadsAsTemperature | cputemp.c:73-75 | a missing sensor file yields -2147483.648 degrees instead of an abort |
| CpuTempC.MinusOneMilliDegreeAborts | cputemp.c:74 | a genuine reading of -1 millidegree aborts |
| CpuTempC.GetTemp | cputemp.c:72-76 | corrected: aborts exactly when `readNumber` fails, otherwise the reading in degrees |
| CpuTempC.GetTempAgreesElsewhere | cputemp.c:72-76 | the corrected and written versions agree on every reading except a failed read and -1 |
| CpuTempC.MinFreqOf | cputemp.c:77-87 | `None` (NAN) exactly when core 0 is unreadable; otherwise the least value ×1000 of the readable prefix, attained |
| CpuTempC.MaxFreqOf | cputemp.c:88-98 | `None` (NAN) exactly when core 0 is unreadable; otherwise the greatest value ×1000 of the readable prefix, attained |
| CpuTempC.GetMinFreq | cputemp.c:77-87 | the folding loop computes `MinFreqOf` |
| CpuTempC.GetMaxFreq | cputemp.c:88-98 | the folding loop computes `MaxFreqOf` |
| CpuTempC.GetFreq | cputemp.c:99-101 | cpu0's ceiling ×1000, and `INT_MIN × 1000` when it is unreadable |
| CpuTempC.SetFreq | cputemp.c:11-21 | returns the writable prefix; those cores hold the one truncated kHz value; all others are unchanged |
| CpuTempC.SetThenReadBack | cputemp.c:11-21 | with cpu0's ceiling file writable, reading back after `setFreq` of a whole-kHz frequency gives that frequency |
| CpuTempC.CapabilityCheck | cputemp.c:185-201 | the maximum is checked on read 1, then the minimum on read 2; it passes exactly when both match; on a mismatch the last command restores the ceiling found before |
| CpuTempC.Startup | cputemp.c:151-201 | with a negative target it reports the reading or fails; otherwise it fails for a missing sensor or a period of zero or less; with a target of at least zero it either governs or fails. It governs exactly when both read-backs match, with the resolved sensor, the bounds and the pre-check ceiling. A maximum that does not read back fails with `MaxFreqNotSettable` after setting the maximum and restoring the pre-check ceiling. A minimum that does not read back fails with `MinFreqNotSettable` after setting the maximum, then the minimum, then restoring |
| CpuTempC.Controller.constructor | cputemp.c:179-182 | the loop starts from the ceiling read before the check and the -1 sentinel |
| CpuTempC.Controller.Step | cputemp.c:205-216 | the carried state becomes exactly `StepState` with the sentinel; the ceiling is in bounds from the first step on; the cores hold the truncated command |
| CpuTempC.GetTempsReadAsDegrees | cputemp.c:72-76 | both the written and the corrected `getTemp` give `readNumber / 1000` whenever they give a temperature |
| CpuTempC.Accepted | cputemp.c:204 | the number of leading samples a temperature reader accepts; the sample after them is rejected |
| CpuTempC.Temps | cputemp.c:204 | `readNumber / 1000` for each sample, a failed read giving `INT_MIN / 1000` |
| CpuTempC.RunWith | cputemp.c:203-219 | the loop stops exactly at the first sample the reader rejects; before that the state is `Iterate` with the sentinel and the commands are `Commands`, all within bounds; the ceiling is in bounds once a step has run |
| CpuTempC.Run | cputemp.c:203-219 | the loop as written: it aborts exactly when some sample reads -1, and otherwise steps on every sample, a lost sensor included, as `Iterate`/`Commands` over `readNumber / 1000` |
| CpuTempC.RunIntended | cputemp.c:203-219 | the loop with the corrected `getTemp`: it aborts exactly when some sample fails to read, with the same state and commands up to that sample |
| CpuTempC.LostStepCommandsMax | cputemp.c:207-209 | one iteration on the lost-sensor reading, from an in-bounds ceiling and a previous reading no colder, commands exactly `maxFreq` under the same bounds hypothesis |
| CpuTempC.LostSensorCommandsMax | cputemp.c:73-75 | as written, with a positive period, a target of at least zero and bounds narrower than the gain times 2147483.648 degrees, a lost-sensor sample commands exactly `maxFreq` once the loop is in bounds |

## Left out

- Command-line parsing, usage text, the sensor listing and verbose output, including `getCurFreq` (`cputemp.cpp:108-185`, `cputemp.c:114-149`): these only interpret arguments or print.
- The pidfile, `daemon`, `kill` and the SIGTERM handler (`cputemp.cpp:100-106`, `cputemp.cpp:187-217`, `cputemp.cpp:258-272`): these are operating-system calls and signal delivery.
- The sleeps between reads and periods: time is not modelled. The k-th read-back of the ceiling is `ceilingAt(k)`.
- The kernel's response to a write: the read-back oracle `ceilingAt` is a parameter and is not connected to the ceiling array that `SetFreq` writes. `SetThenReadBack` states what a faithful kernel would show.
- Path building with `snprintf` and `to_string`: nodes are addressed by index.
- Integer parsing by `fscanf`: a file's integer is given directly, and 32- or 64-bit range overflow is not modelled.
- IEEE doubles: all arithmetic is exact on `real`, and `fmin`/`fmax` become exact minimum and maximum.
- `DBL_MAX` and `NAN` results: these become `None` and `CpuTempC.SetCeilingNaN`.
- Overflow of the `(int)` cast in `setFreq`: it is not modelled.
- `CpuTempCpp.Startup`: returns `BoundsUnavailable` when no core's capability file reads. The source would go on with `±DBL_MAX × 1000` and fail the capability check, or misbehave on the overflowing cast.
- `CpuTempCpp.Controller.constructor`: the re-read of the temperature and ceiling at `cputemp.cpp:277` is the pair of parameters `temp0` and `ceiling0`. Bounds are promised only when that read returns the maximum, which is what the last read of a passed check showed.
- `CpuTempC.LostSensorCommandsMax`: assumes the bounds are narrower than the gain times 2147483.648 degrees (about 43 THz for a one-second period). With wider bounds, the lost reading still pushes the ceiling up, but not necessarily all the way.
- `CpuTempCpp.Run`: does not restate the ceiling array after the whole run. Each `Step` states its own write.
- `CpuTempC.RunWith`, `CpuTempC.Run`, `CpuTempC.RunIntended`: the same; their `Step` calls state the writes.
- `CpuTempC.Fgets`: does not distinguish a read error from end of file. Both are "nothing to read".
- The infinite control loops: they become runs over a finite sequence of samples.

## Findings

| source | as written | input that shows it | evidently intended | confidence | as-written member | corrected member |
|---|---|---|---|---|---|---|
| cputemp.c:74 | `getTemp` aborts only when `readNumber` returns -1 | the sensor file disappears while governing: `readNumber` returns `INT_MIN` and the loop (`CpuTempC.Run`) sees -2147483.648 degrees, which commands the maximum (`CpuTempC.LostSensorCommandsMax`); a genuine reading of -1 millidegree aborts | abort exactly when `readNumber` reports failure (`INT_MIN`) | high, not executed | CpuTempC.GetTempAsWritten | CpuTempC.GetTemp |
