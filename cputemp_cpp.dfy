/** The C++ variant of the governor (cputemp.cpp): sensor resolution that takes
    the first readable match and stops each namespace at its first gap,
    frequency bounds over the contiguous prefix of readable cores, the actuator,
    the startup capability check with bounded polling, and the control loop. */
module CpuTempCpp {
  import opened Telemetry
  import Control

  /** readNumber's failure value (a 64-bit `long`). */
  const LONG_MIN: int := -0x8000_0000_0000_0000

  /** The size of readString's line buffer. */
  const LINE_BUFFER: nat := 1024

  /** How many times the startup check re-reads the ceiling before its final read. */
  const POLL_ATTEMPTS: nat := 10

  /** readNumber: the file's first integer, or LONG_MIN when it is missing or has none. */
  function ReadNumber(file: NumberFile): (r: int)
    ensures r == LONG_MIN <==> file.None? || file == Some(LONG_MIN)
    ensures r != LONG_MIN ==> file == Some(r)
  {
    if file.Some? then file.value else LONG_MIN
  }

  /** readString: the first line without its last character, "" when the file is missing or empty. */
  function ReadString(file: TextFile): (s: string)
    ensures file.None? ==> s == ""
    ensures file.Some? ==> s <= file.value
    ensures '\n' !in s && '\0' !in s && |s| <= LINE_BUFFER - 2
  {
    LineRead(file, LINE_BUFFER)
  }

  /** readTemp: the sensor file in degrees; a failed read is not caught and gives LONG_MIN / 1000. */
  function ReadTemp(file: NumberFile): (t: real)
    ensures file.Some? ==> t == file.value as real / 1000.0
    ensures file.None? ==> t == LONG_MIN as real / 1000.0
  {
    ReadNumber(file) as real / 1000.0
  }

  // ---------------------------------------------------------------------------
  // Sensor resolution (findTemperatureFn)

  /** Node `i` has a non-blank name; a blank one ends the scan of its namespace. */
  predicate Present(ns: seq<SensorNode>, i: nat) {
    ReadString(NodeAt(ns, i).name) != ""
  }

  /** Node `i` is named `id` and its reading parses. */
  predicate Candidate(ns: seq<SensorNode>, id: string, i: nat) {
    Present(ns, i) && ReadString(NodeAt(ns, i).name) == id && ReadNumber(NodeAt(ns, i).temp) != LONG_MIN
  }

  /** The first index from `i` on whose name reads blank. */
  function GapFrom(ns: seq<SensorNode>, i: nat): (g: nat)
    decreases |ns| - i
    ensures i <= g && (g <= |ns| || g == i)
    ensures !Present(ns, g)
    ensures forall j :: i <= j < g ==> Present(ns, j)
  {
    if !Present(ns, i) then i else GapFrom(ns, i + 1)
  }

  /** The first candidate at or after `i` and before the gap. */
  function ScanFirst(ns: seq<SensorNode>, id: string, i: nat): (r: Option<nat>)
    decreases |ns| - i
    ensures r.Some? ==> i <= r.value < GapFrom(ns, i) && Candidate(ns, id, r.value)
    ensures r.Some? ==> forall j :: i <= j < r.value ==> !Candidate(ns, id, j)
    ensures r.None? ==> forall j :: i <= j < GapFrom(ns, i) ==> !Candidate(ns, id, j)
  {
    if !Present(ns, i) then None
    else if Candidate(ns, id, i) then Some(i)
    else ScanFirst(ns, id, i + 1)
  }

  /** Thermal zones first, then hwmon groups; within each, the first candidate before the first gap. */
  function Resolve(snap: Snapshot, id: string): (r: Option<SensorPath>)
    ensures r.Some? && r.value.ThermalZoneTemp? ==>
              && Candidate(snap.thermal, id, r.value.zone)
              && forall j :: 0 <= j < r.value.zone ==> Present(snap.thermal, j) && !Candidate(snap.thermal, id, j)
    ensures r.Some? && r.value.HwmonTemp1Input? ==>
              && (forall j :: 0 <= j < GapFrom(snap.thermal, 0) ==> !Candidate(snap.thermal, id, j))
              && Candidate(snap.hwmon, id, r.value.group)
              && forall j :: 0 <= j < r.value.group ==> Present(snap.hwmon, j) && !Candidate(snap.hwmon, id, j)
    ensures r.None? <==>
              && (forall j :: 0 <= j < GapFrom(snap.thermal, 0) ==> !Candidate(snap.thermal, id, j))
              && (forall j :: 0 <= j < GapFrom(snap.hwmon, 0) ==> !Candidate(snap.hwmon, id, j))
  {
    match ScanFirst(snap.thermal, id, 0)
    case Some(i) => Some(ThermalZoneTemp(i))
    case None =>
      match ScanFirst(snap.hwmon, id, 0)
      case Some(i) => Some(HwmonTemp1Input(i))
      case None => None
  }

  /** One namespace loop of findTemperatureFn: scan from index 0, stop at a
      blank name, return the first named match whose reading parses. */
  method ScanNamespace(ns: seq<SensorNode>, sensorId: string) returns (found: Option<nat>)
    ensures found == ScanFirst(ns, sensorId, 0)
  {
    var i := 0;
    while true
      invariant i <= |ns|
      invariant ScanFirst(ns, sensorId, i) == ScanFirst(ns, sensorId, 0)
      decreases |ns| - i
    {
      var name := ReadString(NodeAt(ns, i).name);
      if name == "" {
        return None;
      }
      if name != sensorId {
        i := i + 1;
        continue;
      }
      if ReadNumber(NodeAt(ns, i).temp) != LONG_MIN {
        return Some(i);
      }
      i := i + 1;
    }
  }

  /** findTemperatureFn; `None` is the "Could not find sensor" exit. */
  method FindTemperatureFn(snap: Snapshot, sensorId: string) returns (path: Option<SensorPath>)
    ensures path == Resolve(snap, sensorId)
  {
    var zone := ScanNamespace(snap.thermal, sensorId);
    if zone.Some? {
      return Some(ThermalZoneTemp(zone.value));
    }
    var group := ScanNamespace(snap.hwmon, sensorId);
    if group.Some? {
      return Some(HwmonTemp1Input(group.value));
    }
    return None;
  }

  // ---------------------------------------------------------------------------
  // Frequency bounds (getMinMaxFreq and its wrappers)

  /** min and max, in Hz, over the cores before the first unreadable one; `None` when core 0 is unreadable. */
  function MinMaxFreq(files: seq<NumberFile>): (r: Option<(real, real)>)
    ensures r.None? <==> !Readable(files, 0, LONG_MIN)
    ensures r.Some? ==> var n := ReadablePrefix(files, LONG_MIN);
              && (forall j :: 0 <= j < n ==> r.value.0 <= files[j].value as real * 1000.0 <= r.value.1)
              && (exists j :: 0 <= j < n && r.value.0 == files[j].value as real * 1000.0)
              && (exists j :: 0 <= j < n && r.value.1 == files[j].value as real * 1000.0)
  {
    var n := ReadablePrefix(files, LONG_MIN);
    if n == 0 then None
    else Some((MinOf(files, n) as real * 1000.0, MaxOf(files, n) as real * 1000.0))
  }

  /** getMinMaxFreq over one file of every core, scanning cores 0, 1, ... until a read fails. */
  method GetMinMaxFreq(files: seq<NumberFile>) returns (r: Option<(real, real)>)
    ensures r == MinMaxFreq(files)
  {
    var lo, hi := 0, 0;
    var i := 0;
    while true
      invariant i <= ReadablePrefix(files, LONG_MIN)
      invariant 0 < i ==> lo == MinOf(files, i) && hi == MaxOf(files, i)
      decreases |files| - i
    {
      var t := ReadNumber(if i < |files| then files[i] else None);
      if t == LONG_MIN {
        break;
      }
      lo, hi := if i == 0 then t else Min(lo, t), if i == 0 then t else Max(hi, t);
      i := i + 1;
    }
    assert i == ReadablePrefix(files, LONG_MIN);
    if i == 0 {
      r := None;
    } else {
      r := Some((lo as real * 1000.0, hi as real * 1000.0));
    }
  }

  /** The bounds the governor works with: (min of cpuinfo_min_freq, max of cpuinfo_max_freq). */
  function Bounds(snap: Snapshot): (b: Option<(real, real)>)
    ensures b.Some? <==> MinMaxFreq(MinFreqFiles(snap.cpus)).Some? && MinMaxFreq(MaxFreqFiles(snap.cpus)).Some?
    ensures b.Some? ==> b.value == (MinMaxFreq(MinFreqFiles(snap.cpus)).value.0, MinMaxFreq(MaxFreqFiles(snap.cpus)).value.1)
  {
    match (MinMaxFreq(MinFreqFiles(snap.cpus)), MinMaxFreq(MaxFreqFiles(snap.cpus)))
    case (Some(lo), Some(hi)) => Some((lo.0, hi.1))
    case _ => None
  }

  /** getMinFreq: the smallest cpuinfo_min_freq in Hz. */
  method GetMinFreq(snap: Snapshot) returns (f: Option<real>)
    ensures f.None? <==> !Readable(MinFreqFiles(snap.cpus), 0, LONG_MIN)
    ensures f.Some? ==> f.value == MinMaxFreq(MinFreqFiles(snap.cpus)).value.0
  {
    var r := GetMinMaxFreq(MinFreqFiles(snap.cpus));
    f := if r.Some? then Some(r.value.0) else None;
  }

  /** getMaxFreq: the largest cpuinfo_max_freq in Hz. */
  method GetMaxFreq(snap: Snapshot) returns (f: Option<real>)
    ensures f.None? <==> !Readable(MaxFreqFiles(snap.cpus), 0, LONG_MIN)
    ensures f.Some? ==> f.value == MinMaxFreq(MaxFreqFiles(snap.cpus)).value.1
  {
    var r := GetMinMaxFreq(MaxFreqFiles(snap.cpus));
    f := if r.Some? then Some(r.value.1) else None;
  }

  /** What getFreq reads back: the largest scaling_max_freq in Hz. */
  function CeilingRead(files: seq<NumberFile>): (f: Option<real>)
    ensures f.None? <==> !Readable(files, 0, LONG_MIN)
  {
    var r := MinMaxFreq(files);
    if r.Some? then Some(r.value.1) else None
  }

  /** getFreq over the current scaling_max_freq files. */
  method GetFreq(files: seq<NumberFile>) returns (f: Option<real>)
    ensures f == CeilingRead(files)
  {
    var r := GetMinMaxFreq(files);
    f := if r.Some? then Some(r.value.1) else None;
  }

  // ---------------------------------------------------------------------------
  // The actuator (setFreq)

  /** setFreq: writes the truncated kHz value to cores 0, 1, ... until a ceiling
      file cannot be opened, and returns how many cores it wrote. */
  method SetFreq(f: real, cores: array<CeilingFile>) returns (n: nat)
    modifies cores
    ensures n == WritablePrefix(old(cores[..]))
    ensures cores[..] == WriteCeilings(old(cores[..]), n, TruncToInt(f / 1000.0))
  {
    ghost var before := cores[..];
    var i := 0;
    while true
      invariant i <= WritablePrefix(before)
      invariant cores[..] == WriteCeilings(before, i, TruncToInt(f / 1000.0))
      decreases cores.Length - i
    {
      if i == cores.Length || !cores[i].writable {
        return i;
      }
      cores[i] := CeilingFile(cores[i].writable, Some(TruncToInt(f * (1.0 / 1000.0))));
      i := i + 1;
    }
  }

  /** When every core's ceiling file opens and keeps what is written, setting a
      whole-kHz frequency and reading the ceiling back gives that frequency. */
  lemma SetThenReadBack(cores: seq<CeilingFile>, kHz: int)
    requires cores != [] && kHz != LONG_MIN
    requires forall i :: 0 <= i < |cores| ==> cores[i].writable
    ensures var hz := kHz as real * 1000.0;
            CeilingRead(Column(WriteCeilings(cores, WritablePrefix(cores), TruncToInt(hz / 1000.0)))) == Some(hz)
  {
    KHzRoundTrip(kHz);
    var files := Column(WriteCeilings(cores, WritablePrefix(cores), kHz));
    assert forall j :: 0 <= j < |files| ==> files[j] == Some(kHz);
    assert ReadablePrefix(files, LONG_MIN) == |files|;
  }

  // ---------------------------------------------------------------------------
  // The startup capability check

  /** The `k`-th read-back of the ceiling gives `target`. */
  predicate Shows(target: real, ceilingAt: nat -> seq<NumberFile>, k: nat)
  {
    CeilingRead(ceilingAt(k)) == Some(target)
  }

  /** The index of the read that decides one polling phase started at read `k`:
      the read after the first matching one, or the read after `budget` misses. */
  function PollEnd(target: real, ceilingAt: nat -> seq<NumberFile>, k: nat, budget: nat): (e: nat)
    decreases budget
    ensures k <= e <= k + budget
    ensures budget > 0 ==> k < e
  {
    if budget == 0 then k
    else if Shows(target, ceilingAt, k) then k + 1
    else PollEnd(target, ceilingAt, k + 1, budget - 1)
  }

  /** A polling phase started at read `k` ends with the ceiling reading back as `target`. */
  predicate PollPasses(target: real, ceilingAt: nat -> seq<NumberFile>, k: nat) {
    Shows(target, ceilingAt, PollEnd(target, ceilingAt, k, POLL_ATTEMPTS))
  }

  /** The polling loop of one phase: re-read the ceiling up to ten times, stopping
      at the first read that shows `target`; returns the index of the next read. */
  method Poll(target: real, ceilingAt: nat -> seq<NumberFile>, start: nat, attempts: nat) returns (k: nat)
    ensures k == PollEnd(target, ceilingAt, start, attempts)
  {
    k := start;
    var left := attempts;
    while left > 0
      invariant PollEnd(target, ceilingAt, start, attempts) == PollEnd(target, ceilingAt, k, left)
    {
      var f := GetFreq(ceilingAt(k));
      assert f == Some(target) <==> Shows(target, ceilingAt, k);
      if f == Some(target) {
        return k + 1;
      }
      k, left := k + 1, left - 1;
    }
  }

  /** One phase of the check (after its setFreq): poll, then read once more and
      compare.  `ceilingAt(k)` is what the scaling_max_freq files hold at the
      k-th read-back. */
  method PollCeiling(target: real, ceilingAt: nat -> seq<NumberFile>, start: nat) returns (passed: bool, next: nat)
    ensures next == PollEnd(target, ceilingAt, start, POLL_ATTEMPTS) + 1
    ensures passed == PollPasses(target, ceilingAt, start)
  {
    var k := Poll(target, ceilingAt, start, POLL_ATTEMPTS);
    var f := GetFreq(ceilingAt(k));
    passed := f == Some(target);
    next := k + 1;
  }

  /** If none of the eleven reads of a phase shows the target, the phase fails. */
  lemma NeverMatchingFails(target: real, ceilingAt: nat -> seq<NumberFile>, k: nat)
    requires forall j :: k <= j <= k + POLL_ATTEMPTS ==> !Shows(target, ceilingAt, j)
    ensures !PollPasses(target, ceilingAt, k)
  {
  }

  lemma {:induction false} SettledPollPasses(target: real, ceilingAt: nat -> seq<NumberFile>, k: nat, budget: nat, m: nat)
    requires m < budget && Shows(target, ceilingAt, k + m)
    requires forall j :: k <= j < k + budget && Shows(target, ceilingAt, j)
               ==> Shows(target, ceilingAt, j + 1)
    ensures Shows(target, ceilingAt, PollEnd(target, ceilingAt, k, budget))
    decreases budget
  {
    if !Shows(target, ceilingAt, k) {
      assert m > 0;
      SettledPollPasses(target, ceilingAt, k + 1, budget - 1, m - 1);
    }
  }

  /** A ceiling that reads back as the target within ten reads and then keeps
      reading so passes its phase. */
  lemma SettledCeilingPasses(target: real, ceilingAt: nat -> seq<NumberFile>, k: nat, m: nat)
    requires m < POLL_ATTEMPTS && Shows(target, ceilingAt, k + m)
    requires forall j :: k <= j < k + POLL_ATTEMPTS && Shows(target, ceilingAt, j)
               ==> Shows(target, ceilingAt, j + 1)
    ensures PollPasses(target, ceilingAt, k)
  {
    SettledPollPasses(target, ceilingAt, k, POLL_ATTEMPTS, m);
  }

  datatype CheckOutcome = Passed | MinNotSettable | MaxNotSettable

  /** The capability check: command the minimum and poll for it, then the maximum. */
  method CapabilityCheck(minFreq: real, maxFreq: real, ceilingAt: nat -> seq<NumberFile>)
    returns (outcome: CheckOutcome, commands: seq<real>)
    ensures outcome == MinNotSettable <==> !PollPasses(minFreq, ceilingAt, 0)
    ensures outcome == Passed <==>
              PollPasses(minFreq, ceilingAt, 0)
              && PollPasses(maxFreq, ceilingAt, PollEnd(minFreq, ceilingAt, 0, POLL_ATTEMPTS) + 1)
    ensures commands == if outcome == MinNotSettable then [minFreq] else [minFreq, maxFreq]
  {
    commands := [minFreq];
    var passed, next := PollCeiling(minFreq, ceilingAt, 0);
    if !passed {
      return MinNotSettable, commands;
    }
    commands := commands + [maxFreq];
    passed, next := PollCeiling(maxFreq, ceilingAt, next);
    outcome := if passed then Passed else MaxNotSettable;
  }

  datatype Fatal = SensorNotFound | BoundsUnavailable | MinFreqNotSettable | MaxFreqNotSettable

  /** What startup hands to the control loop. */
  datatype Setup = Setup(sensor: SensorPath, minFreq: real, maxFreq: real)

  /** main up to the control loop: resolve the sensor, read the bounds, run the capability check. */
  method Startup(snap: Snapshot, sensorId: string, ceilingAt: nat -> seq<NumberFile>)
    returns (r: Result<Setup, Fatal>, commands: seq<real>)
    ensures Resolve(snap, sensorId).None? <==> r == Err(SensorNotFound)
    ensures r == Err(SensorNotFound) || r == Err(BoundsUnavailable) ==> commands == []
    ensures r.Ok? <==>
              && Resolve(snap, sensorId).Some? && Bounds(snap).Some?
              && PollPasses(Bounds(snap).value.0, ceilingAt, 0)
              && PollPasses(Bounds(snap).value.1, ceilingAt, PollEnd(Bounds(snap).value.0, ceilingAt, 0, POLL_ATTEMPTS) + 1)
    ensures r.Ok? ==> r.value == Setup(Resolve(snap, sensorId).value, Bounds(snap).value.0, Bounds(snap).value.1)
    ensures r.Ok? ==> commands == [r.value.minFreq, r.value.maxFreq]
    ensures Resolve(snap, sensorId).Some? && Bounds(snap).None? ==> r == Err(BoundsUnavailable)
    ensures Resolve(snap, sensorId).Some? && Bounds(snap).Some?
            && !PollPasses(Bounds(snap).value.0, ceilingAt, 0) ==>
              r == Err(MinFreqNotSettable) && commands == [Bounds(snap).value.0]
    ensures Resolve(snap, sensorId).Some? && Bounds(snap).Some?
            && PollPasses(Bounds(snap).value.0, ceilingAt, 0)
            && !PollPasses(Bounds(snap).value.1, ceilingAt, PollEnd(Bounds(snap).value.0, ceilingAt, 0, POLL_ATTEMPTS) + 1) ==>
              r == Err(MaxFreqNotSettable) && commands == [Bounds(snap).value.0, Bounds(snap).value.1]
  {
    commands := [];
    var path := FindTemperatureFn(snap, sensorId);
    if path.None? {
      return Err(SensorNotFound), commands;
    }
    var maxFreq := GetMaxFreq(snap);
    var minFreq := GetMinFreq(snap);
    if maxFreq.None? || minFreq.None? {
      return Err(BoundsUnavailable), commands;
    }
    var outcome;
    outcome, commands := CapabilityCheck(minFreq.value, maxFreq.value, ceilingAt);
    match outcome
    case MinNotSettable => r := Err(MinFreqNotSettable);
    case MaxNotSettable => r := Err(MaxFreqNotSettable);
    case Passed => r := Ok(Setup(path.value, minFreq.value, maxFreq.value));
  }

  // ---------------------------------------------------------------------------
  // The control loop

  class Controller {
    var prevTemp: real
    var curFreq: real
    const minFreq: real
    const maxFreq: real
    const targetTemp: real
    const period: real
    /** The scaling_max_freq files every iteration writes. */
    const cores: array<CeilingFile>

    function Law(): Control.Params {
      Control.Params(targetTemp, period, minFreq, maxFreq)
    }

    function State(): Control.LoopState
      reads this
    {
      Control.LoopState(curFreq, prevTemp)
    }

    /** The last commanded ceiling lies within the bounds. */
    predicate Valid()
      reads this
    {
      Control.WithinBounds(Law(), curFreq)
    }

    /** The state entering the loop: the temperature and the ceiling read
        right after the capability check. */
    constructor (setup: Setup, targetTemp: real, period: real, cores: array<CeilingFile>, temp0: real, ceiling0: real)
      ensures State() == Control.LoopState(ceiling0, temp0)
      ensures ceiling0 == setup.maxFreq && setup.minFreq <= setup.maxFreq ==> Valid()
      ensures Law() == Control.Params(targetTemp, period, setup.minFreq, setup.maxFreq)
      ensures this.cores == cores
    {
      this.minFreq, this.maxFreq := setup.minFreq, setup.maxFreq;
      this.targetTemp, this.period := targetTemp, period;
      this.cores := cores;
      prevTemp, curFreq := temp0, ceiling0;
    }

    /** One iteration on the sample `curTemp`: compute, clamp, command, carry. */
    method Step(curTemp: real) returns (nextFreq: real, written: nat)
      modifies this, cores
      ensures Valid()
      ensures State() == Control.StepState(Law(), old(State()), curTemp, false)
      ensures nextFreq == curFreq && prevTemp == curTemp
      ensures written == WritablePrefix(old(cores[..]))
      ensures cores[..] == WriteCeilings(old(cores[..]), written, TruncToInt(nextFreq / 1000.0))
    {
      var c1, c2 := Control.Gain(period), Control.Gain(period);
      nextFreq := curFreq + c1 * (targetTemp - curTemp) - c2 * (curTemp - prevTemp);
      Control.UnclampedWithGains(Law(), c1, c2, curFreq, curTemp, prevTemp);
      ghost var unclamped := nextFreq;
      if nextFreq > maxFreq { nextFreq := maxFreq; }
      if nextFreq < minFreq { nextFreq := minFreq; }
      assert nextFreq == Control.Clamp(unclamped, minFreq, maxFreq);
      written := SetFreq(nextFreq, cores);
      curFreq := nextFreq;
      prevTemp := curTemp;
    }
  }

  /** The temperatures the loop reads from a series of sensor file contents. */
  function Temps(samples: seq<NumberFile>): (temps: seq<real>)
    ensures |temps| == |samples|
    ensures forall j :: 0 <= j < |samples| ==> temps[j] == ReadTemp(samples[j])
  {
    seq(|samples|, j requires 0 <= j < |samples| => ReadTemp(samples[j]))
  }

  /** The control loop over one sensor reading per iteration. */
  method Run(ctrl: Controller, samples: seq<NumberFile>) returns (cmds: seq<real>)
    modifies ctrl, ctrl.cores
    ensures |cmds| > 0 || old(ctrl.Valid()) ==> ctrl.Valid()
    ensures forall j :: 0 <= j < |cmds| ==> Control.WithinBounds(ctrl.Law(), cmds[j])
    ensures ctrl.State() == Control.Iterate(ctrl.Law(), old(ctrl.State()), Temps(samples), false)
    ensures cmds == Control.Commands(ctrl.Law(), old(ctrl.State()), Temps(samples), false)
  {
    ghost var s0 := ctrl.State();
    ghost var temps := Temps(samples);
    cmds := [];
    var i := 0;
    while i < |samples|
      invariant i <= |samples|
      invariant ctrl.State() == Control.Iterate(ctrl.Law(), s0, temps[..i], false)
      invariant cmds == Control.Commands(ctrl.Law(), s0, temps[..i], false)
    {
      var curTemp := ReadTemp(samples[i]);
      var nextFreq, _ := ctrl.Step(curTemp);
      assert temps[..i + 1][..i] == temps[..i];
      cmds := cmds + [nextFreq];
      i := i + 1;
    }
    assert temps[..i] == temps;
  }
}
