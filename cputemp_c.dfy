/** The C variant of the governor (cputemp.c): a fixed scan of ten devices per
    namespace where the last match wins and hwmon overrides thermal, frequency
    bounds as folds over the readable cores, cpu0 as the only read-back, a
    one-shot capability check that restores the ceiling it found on failure,
    and the control loop whose previous temperature starts at the -1 sentinel. */
module CpuTempC {
  import opened Telemetry
  import Control

  /** readNumber's failure value (a 32-bit `int`). */
  const INT_MIN: int := -0x8000_0000

  /** The size of the buffers findTemperatureFn reads names into. */
  const NAME_BUFFER: nat := 1000

  /** How many thermal zones and hwmon groups findTemperatureFn looks at. */
  const SCAN_LIMIT: nat := 10

  /** readNumber: the file's first integer, or INT_MIN when it is missing or has none. */
  function ReadNumber(file: NumberFile): (r: int)
    ensures r == INT_MIN <==> file.None? || file == Some(INT_MIN)
    ensures r != INT_MIN ==> file == Some(r)
  {
    if file.Some? then file.value else INT_MIN
  }

  // ---------------------------------------------------------------------------
  // readString on a caller's buffer

  /** fgets succeeds: the buffer is non-empty, the file opens, and either
      there is no room for any character or the file has one to give. */
  predicate ReadOk(file: TextFile, n: nat) {
    n > 0 && file.Some? && (n == 1 || file.value != "")
  }

  /** fgets on a file holding `content`: stores the first line (at most
      `buf.Length - 1` characters) and a NUL, or reports end of file and leaves
      the buffer alone when there is room for a character but none to read. */
  method Fgets(buf: array<char>, content: string) returns (ok: bool)
    requires buf.Length > 0
    modifies buf
    ensures ok <==> buf.Length == 1 || content != ""
    ensures !ok ==> buf[..] == old(buf[..])
    ensures ok ==> var line := FirstLine(content, buf.Length - 1);
              && buf[..|line|] == line && buf[|line|] == '\0'
  {
    if buf.Length > 1 && content == "" {
      return false;
    }
    var line := FirstLine(content, buf.Length - 1);
    forall i | 0 <= i < |line| {
      buf[i] := line[i];
    }
    buf[|line|] := '\0';
    return true;
  }

  /** The C string of a buffer whose first `k + 1` characters are `line` and a NUL is the C string of `line`. */
  lemma CStrOfTerminated(buf: seq<char>, line: string)
    requires |line| < |buf| && buf[..|line|] == line && buf[|line|] == '\0'
    ensures CStr(buf) == CStr(line)
  {
    var k := NulIndex(line);
    assert forall j :: 0 <= j < k ==> buf[j] == line[j];
    if k < |line| {
      NulIndexAt(buf, k);
    } else {
      NulIndexAt(buf, |line|);
    }
  }

  /** readString: returns 1 exactly when fgets succeeded, and leaves in the
      buffer the line it read without its last character. */
  method ReadString(buf: array<char>, file: TextFile) returns (ret: int)
    modifies buf
    ensures ret == (if ReadOk(file, buf.Length) then 1 else 0)
    ensures buf.Length > 0 ==> CStr(buf[..]) == LineRead(file, buf.Length)
  {
    if buf.Length == 0 {
      return 0;
    }
    buf[0] := '\0';
    if file.None? {
      assert CStr(buf[..]) == "" by { NulIndexAt(buf[..], 0); }
      return 0;
    }
    ret := 1;
    var got := Fgets(buf, file.value);
    if !got {
      ret := 0;
      assert CStr(buf[..]) == "" by { NulIndexAt(buf[..], 0); }
    } else {
      CStrOfTerminated(buf[..], FirstLine(file.value, buf.Length - 1));
    }
    ghost var read := CStr(buf[..]);
    if buf[0] != '\0' {
      var len := NulIndex(buf[..]);
      buf[len - 1] := '\0';
      NulIndexAt(buf[..], len - 1);
      assert CStr(buf[..]) == DropLast(read);
    } else {
      NulIndexAt(buf[..], 0);
    }
  }

  // ---------------------------------------------------------------------------
  // Sensor resolution (findTemperatureFn)

  /** Device `i` names `id` (read as findTemperatureFn reads it) and its reading parses. */
  predicate Candidate(ns: seq<SensorNode>, id: string, i: nat) {
    && ReadOk(NodeAt(ns, i).name, NAME_BUFFER)
    && LineRead(NodeAt(ns, i).name, NAME_BUFFER) == id
    && ReadNumber(NodeAt(ns, i).temp) != INT_MIN
  }

  /** The last candidate among devices 0 .. k-1. */
  function ScanLast(ns: seq<SensorNode>, id: string, k: nat): (r: Option<nat>)
    ensures r.Some? ==> r.value < k && Candidate(ns, id, r.value)
    ensures r.Some? ==> forall j :: r.value < j < k ==> !Candidate(ns, id, j)
    ensures r.None? ==> forall j :: 0 <= j < k ==> !Candidate(ns, id, j)
  {
    if k == 0 then None
    else if Candidate(ns, id, k - 1) then Some(k - 1)
    else ScanLast(ns, id, k - 1)
  }

  /** The sensor findTemperatureFn leaves behind: the last hwmon candidate among
      the first ten groups, else the last thermal candidate among the first ten
      zones, else none (the empty file name). */
  function Resolve(snap: Snapshot, id: string): (r: Option<SensorPath>)
    ensures r.Some? && r.value.HwmonTemp1Input? ==>
              && r.value.group < SCAN_LIMIT && Candidate(snap.hwmon, id, r.value.group)
              && forall j :: r.value.group < j < SCAN_LIMIT ==> !Candidate(snap.hwmon, id, j)
    ensures r.Some? && r.value.ThermalZoneTemp? ==>
              && (forall j :: 0 <= j < SCAN_LIMIT ==> !Candidate(snap.hwmon, id, j))
              && r.value.zone < SCAN_LIMIT && Candidate(snap.thermal, id, r.value.zone)
              && forall j :: r.value.zone < j < SCAN_LIMIT ==> !Candidate(snap.thermal, id, j)
    ensures r.None? ==>
              && (forall j :: 0 <= j < SCAN_LIMIT ==> !Candidate(snap.thermal, id, j))
              && (forall j :: 0 <= j < SCAN_LIMIT ==> !Candidate(snap.hwmon, id, j))
  {
    match ScanLast(snap.hwmon, id, SCAN_LIMIT)
    case Some(g) => Some(HwmonTemp1Input(g))
    case None =>
      match ScanLast(snap.thermal, id, SCAN_LIMIT)
      case Some(z) => Some(ThermalZoneTemp(z))
      case None => None
  }

  /** One namespace loop of findTemperatureFn: devices 0 to 9, skipping those
      whose name cannot be read or differs from `sensorId`; every match whose
      reading parses replaces the one before. */
  method ScanNamespace(str: array<char>, ns: seq<SensorNode>, sensorId: string) returns (found: Option<nat>)
    requires str.Length == NAME_BUFFER
    modifies str
    ensures found == ScanLast(ns, sensorId, SCAN_LIMIT)
  {
    found := None;
    for i := 0 to SCAN_LIMIT
      invariant found == ScanLast(ns, sensorId, i)
    {
      var ok := ReadString(str, NodeAt(ns, i).name);
      if ok == 0 { continue; }
      if CStr(str[..]) != sensorId { continue; }
      if ReadNumber(NodeAt(ns, i).temp) != INT_MIN {
        found := Some(i);
      }
    }
  }

  /** findTemperatureFn: the thermal zones are scanned first, then the hwmon
      groups, and a later match overwrites an earlier one. */
  method FindTemperatureFn(snap: Snapshot, sensorId: string) returns (path: Option<SensorPath>)
    ensures path == Resolve(snap, sensorId)
  {
    var str := new char[NAME_BUFFER];
    path := None;
    var zone := ScanNamespace(str, snap.thermal, sensorId);
    if zone.Some? {
      path := Some(ThermalZoneTemp(zone.value));
    }
    var group := ScanNamespace(str, snap.hwmon, sensorId);
    if group.Some? {
      path := Some(HwmonTemp1Input(group.value));
    }
  }

  // ---------------------------------------------------------------------------
  // The temperature reading (getTemp)

  /** getTemp as written: aborts (`None`) only when the file reads -1, so a
      failed read (INT_MIN) comes back as a temperature. */
  function GetTempAsWritten(file: NumberFile): (t: Option<real>)
    ensures t.None? <==> file == Some(-1)
    ensures t.Some? ==> t.value == ReadNumber(file) as real / 1000.0
  {
    var n := ReadNumber(file);
    if n == -1 then None else Some(n as real / 1000.0)
  }

  /** A sensor file that has gone away reads as about -2.1 million degrees instead of aborting. */
  lemma LostSensorReadsAsTemperature()
    ensures GetTempAsWritten(None) == Some(-2147483.648)
  {
  }

  /** A genuine reading of -0.001 degrees aborts the governor. */
  lemma MinusOneMilliDegreeAborts()
    ensures GetTempAsWritten(Some(-1)) == None
  {
  }

  /** getTemp as intended: aborts exactly when readNumber fails. */
  function GetTemp(file: NumberFile): (t: Option<real>)
    ensures t.None? <==> file.None? || file == Some(INT_MIN)
    ensures t.Some? ==> t.value == file.value as real / 1000.0
  {
    var n := ReadNumber(file);
    if n == INT_MIN then None else Some(n as real / 1000.0)
  }

  /** The two agree on every reading except a failed read and -1. */
  lemma GetTempAgreesElsewhere(file: NumberFile)
    requires file.Some? && file.value != INT_MIN && file.value != -1
    ensures GetTempAsWritten(file) == GetTemp(file) == Some(file.value as real / 1000.0)
  {
  }

  // ---------------------------------------------------------------------------
  // Frequency bounds and the read-back

  /** The least cpuinfo_min_freq in Hz over the cores before the first unreadable one. */
  function MinFreqOf(files: seq<NumberFile>): (f: Option<real>)
    ensures f.None? <==> !Readable(files, 0, INT_MIN)
    ensures f.Some? ==> var n := ReadablePrefix(files, INT_MIN);
              && (forall j :: 0 <= j < n ==> f.value <= files[j].value as real * 1000.0)
              && (exists j :: 0 <= j < n && f.value == files[j].value as real * 1000.0)
  {
    var n := ReadablePrefix(files, INT_MIN);
    if n == 0 then None else Some(MinOf(files, n) as real * 1000.0)
  }

  /** The greatest cpuinfo_max_freq in Hz over the cores before the first unreadable one. */
  function MaxFreqOf(files: seq<NumberFile>): (f: Option<real>)
    ensures f.None? <==> !Readable(files, 0, INT_MIN)
    ensures f.Some? ==> var n := ReadablePrefix(files, INT_MIN);
              && (forall j :: 0 <= j < n ==> files[j].value as real * 1000.0 <= f.value)
              && (exists j :: 0 <= j < n && f.value == files[j].value as real * 1000.0)
  {
    var n := ReadablePrefix(files, INT_MIN);
    if n == 0 then None else Some(MaxOf(files, n) as real * 1000.0)
  }

  /** getMinFreq: fmin of t * 1000 over cores 0, 1, ... until a read fails;
      `None` stands for the NAN returned when core 0 is unreadable. */
  method GetMinFreq(files: seq<NumberFile>) returns (f: Option<real>)
    ensures f == MinFreqOf(files)
  {
    f := None;
    var i := 0;
    while true
      invariant i <= ReadablePrefix(files, INT_MIN)
      invariant f == if i == 0 then None else Some(MinOf(files, i) as real * 1000.0)
      decreases |files| - i
    {
      var t := ReadNumber(if i < |files| then files[i] else None);
      if t == INT_MIN {
        break;
      }
      f := Some(if f.None? then t as real * 1000.0 else Control.RealMin(f.value, t as real * 1000.0));
      i := i + 1;
    }
  }

  /** getMaxFreq: fmax of t * 1000 over cores 0, 1, ... until a read fails. */
  method GetMaxFreq(files: seq<NumberFile>) returns (f: Option<real>)
    ensures f == MaxFreqOf(files)
  {
    f := None;
    var i := 0;
    while true
      invariant i <= ReadablePrefix(files, INT_MIN)
      invariant f == if i == 0 then None else Some(MaxOf(files, i) as real * 1000.0)
      decreases |files| - i
    {
      var t := ReadNumber(if i < |files| then files[i] else None);
      if t == INT_MIN {
        break;
      }
      f := Some(if f.None? then t as real * 1000.0 else Control.RealMax(f.value, t as real * 1000.0));
      i := i + 1;
    }
  }

  /** getFreq: cpu0's scaling_max_freq in Hz, with no check that the read succeeded. */
  function GetFreq(files: seq<NumberFile>): (f: real)
    ensures Readable(files, 0, INT_MIN) ==> f == files[0].value as real * 1000.0
    ensures !Readable(files, 0, INT_MIN) ==> f == INT_MIN as real * 1000.0
  {
    ReadNumber(if files == [] then None else files[0]) as real * 1000.0
  }

  // ---------------------------------------------------------------------------
  // The actuator (setFreq)

  /** setFreq: converts to kHz once, then writes every core until a ceiling file
      cannot be opened; returns how many cores it wrote. */
  method SetFreq(d: real, cores: array<CeilingFile>) returns (n: nat)
    modifies cores
    ensures n == WritablePrefix(old(cores[..]))
    ensures cores[..] == WriteCeilings(old(cores[..]), n, TruncToInt(d / 1000.0))
  {
    var c := TruncToInt(d * (1.0 / 1000.0));
    ghost var before := cores[..];
    var i := 0;
    while true
      invariant i <= WritablePrefix(before)
      invariant cores[..] == WriteCeilings(before, i, c)
      decreases cores.Length - i
    {
      if i == cores.Length || !cores[i].writable {
        return i;
      }
      cores[i] := CeilingFile(cores[i].writable, Some(c));
      i := i + 1;
    }
  }

  /** When cpu0's ceiling file opens and keeps what is written, setting a
      whole-kHz frequency and reading the ceiling back gives that frequency. */
  lemma SetThenReadBack(cores: seq<CeilingFile>, kHz: int)
    requires cores != [] && cores[0].writable
    ensures var hz := kHz as real * 1000.0;
            GetFreq(Column(WriteCeilings(cores, WritablePrefix(cores), TruncToInt(hz / 1000.0)))) == hz
  {
    KHzRoundTrip(kHz);
  }

  // ---------------------------------------------------------------------------
  // Startup

  /** A setFreq call of the startup sequence; a bound that is NAN is written as
      whatever the int conversion of NAN yields. */
  datatype Command = SetCeiling(hz: real) | SetCeilingNaN

  function Cmd(bound: Option<real>): Command {
    if bound.Some? then SetCeiling(bound.value) else SetCeilingNaN
  }

  /** `getFreq() != bound` is false: the bound is a number equal to the read-back (NAN equals nothing). */
  predicate Matches(bound: Option<real>, readBack: real) {
    bound.Some? && bound.value == readBack
  }

  datatype CheckOutcome = Passed | MaxNotSettable | MinNotSettable

  /** The capability check: command the maximum and read back once (read 1),
      then the minimum (read 2); on a mismatch, put back the ceiling `curFreq`
      found before the check.  `ceilingAt(k)` is what the scaling_max_freq files
      hold at the k-th read-back. */
  method CapabilityCheck(curFreq: real, maxFreq: Option<real>, minFreq: Option<real>, ceilingAt: nat -> seq<NumberFile>)
    returns (outcome: CheckOutcome, commands: seq<Command>)
    ensures outcome == MaxNotSettable <==> !Matches(maxFreq, GetFreq(ceilingAt(1)))
    ensures outcome == Passed <==> Matches(maxFreq, GetFreq(ceilingAt(1))) && Matches(minFreq, GetFreq(ceilingAt(2)))
    ensures outcome == MaxNotSettable ==> commands == [Cmd(maxFreq), SetCeiling(curFreq)]
    ensures outcome == MinNotSettable ==> commands == [Cmd(maxFreq), Cmd(minFreq), SetCeiling(curFreq)]
    ensures outcome == Passed ==> commands == [SetCeiling(maxFreq.value), SetCeiling(minFreq.value)]
  {
    commands := [Cmd(maxFreq)];
    var f := GetFreq(ceilingAt(1));
    if !Matches(maxFreq, f) {
      commands := commands + [SetCeiling(curFreq)];
      return MaxNotSettable, commands;
    }
    commands := commands + [Cmd(minFreq)];
    f := GetFreq(ceilingAt(2));
    if !Matches(minFreq, f) {
      commands := commands + [SetCeiling(curFreq)];
      return MinNotSettable, commands;
    }
    outcome := Passed;
  }

  datatype Fatal = SensorNotFound | IntervalNotPositive | MaxFreqNotSettable | MinFreqNotSettable

  /** What startup hands to the control loop; `startFreq` is the ceiling read before the check. */
  datatype Setup = Setup(sensor: SensorPath, minFreq: real, maxFreq: real, startFreq: real)

  /** How main ends its startup: printing one reading (no target temperature), or entering the loop. */
  datatype Launch = Reported(milliDegrees: int) | Governing(setup: Setup)

  /** The sensor file a resolved path names; the empty name opens nothing. */
  function SensorReading(snap: Snapshot, path: Option<SensorPath>): NumberFile {
    if path.Some? then SensorFile(snap, path.value) else None
  }

  /** main up to the control loop. */
  method Startup(snap: Snapshot, sensorId: string, targetTemp: real, interval: real, ceilingAt: nat -> seq<NumberFile>)
    returns (r: Result<Launch, Fatal>, commands: seq<Command>)
    ensures targetTemp < 0.0 ==> commands == []
    ensures targetTemp < 0.0 ==>
              var t := ReadNumber(SensorReading(snap, Resolve(snap, sensorId)));
              r == if t == INT_MIN then Err(SensorNotFound) else Ok(Reported(t))
    ensures 0.0 <= targetTemp && Resolve(snap, sensorId).None? ==> r == Err(SensorNotFound) && commands == []
    ensures 0.0 <= targetTemp && Resolve(snap, sensorId).Some? && interval <= 0.0 ==>
              r == Err(IntervalNotPositive) && commands == []
    ensures r.Ok? && r.value.Governing? <==>
              && 0.0 <= targetTemp && Resolve(snap, sensorId).Some? && 0.0 < interval
              && Matches(MaxFreqOf(MaxFreqFiles(snap.cpus)), GetFreq(ceilingAt(1)))
              && Matches(MinFreqOf(MinFreqFiles(snap.cpus)), GetFreq(ceilingAt(2)))
    ensures r.Ok? && r.value.Governing? ==>
              && r.value.setup == Setup(Resolve(snap, sensorId).value, MinFreqOf(MinFreqFiles(snap.cpus)).value,
                                        MaxFreqOf(MaxFreqFiles(snap.cpus)).value, GetFreq(ceilingAt(0)))
              && commands == [SetCeiling(r.value.setup.maxFreq), SetCeiling(r.value.setup.minFreq)]
    ensures r.Err? && 0.0 <= targetTemp && commands != [] ==> commands[|commands| - 1] == SetCeiling(GetFreq(ceilingAt(0)))
    ensures 0.0 <= targetTemp ==> r.Err? || r.value.Governing?
    ensures 0.0 <= targetTemp && Resolve(snap, sensorId).Some? && 0.0 < interval
            && !Matches(MaxFreqOf(MaxFreqFiles(snap.cpus)), GetFreq(ceilingAt(1))) ==>
              && r == Err(MaxFreqNotSettable)
              && commands == [Cmd(MaxFreqOf(MaxFreqFiles(snap.cpus))), SetCeiling(GetFreq(ceilingAt(0)))]
    ensures 0.0 <= targetTemp && Resolve(snap, sensorId).Some? && 0.0 < interval
            && Matches(MaxFreqOf(MaxFreqFiles(snap.cpus)), GetFreq(ceilingAt(1)))
            && !Matches(MinFreqOf(MinFreqFiles(snap.cpus)), GetFreq(ceilingAt(2))) ==>
              && r == Err(MinFreqNotSettable)
              && commands == [Cmd(MaxFreqOf(MaxFreqFiles(snap.cpus))), Cmd(MinFreqOf(MinFreqFiles(snap.cpus))),
                              SetCeiling(GetFreq(ceilingAt(0)))]
  {
    commands := [];
    var path := FindTemperatureFn(snap, sensorId);
    if targetTemp < 0.0 {
      var t := ReadNumber(SensorReading(snap, path));
      if t == INT_MIN {
        return Err(SensorNotFound), commands;
      }
      return Ok(Reported(t)), commands;
    }
    if path.None? {
      return Err(SensorNotFound), commands;
    }
    if interval <= 0.0 {
      return Err(IntervalNotPositive), commands;
    }
    var curFreq := GetFreq(ceilingAt(0));
    var maxFreq := GetMaxFreq(MaxFreqFiles(snap.cpus));
    var minFreq := GetMinFreq(MinFreqFiles(snap.cpus));
    var outcome;
    outcome, commands := CapabilityCheck(curFreq, maxFreq, minFreq, ceilingAt);
    match outcome
    case MaxNotSettable => r := Err(MaxFreqNotSettable);
    case MinNotSettable => r := Err(MinFreqNotSettable);
    case Passed => r := Ok(Governing(Setup(path.value, minFreq.value, maxFreq.value, curFreq)));
  }

  // ---------------------------------------------------------------------------
  // The control loop

  class Controller {
    var prevTemp: real
    var curFreq: real
    const minFreq: real
    const maxFreq: real
    const targetTemp: real
    const interval: real
    /** The scaling_max_freq files every iteration writes. */
    const cores: array<CeilingFile>

    function Law(): Control.Params {
      Control.Params(targetTemp, interval, minFreq, maxFreq)
    }

    function State(): Control.LoopState
      reads this
    {
      Control.LoopState(curFreq, prevTemp)
    }

    /** The last commanded ceiling lies within the bounds. */
    predicate Valid()
      reads this
    {
      Control.WithinBounds(Law(), curFreq)
    }

    /** The loop starts from the ceiling read before the check and no previous sample. */
    constructor (setup: Setup, targetTemp: real, interval: real, cores: array<CeilingFile>)
      ensures State() == Control.LoopState(setup.startFreq, Control.NO_SAMPLE)
      ensures Law() == Control.Params(targetTemp, interval, setup.minFreq, setup.maxFreq)
      ensures this.cores == cores
    {
      this.minFreq, this.maxFreq := setup.minFreq, setup.maxFreq;
      this.targetTemp, this.interval := targetTemp, interval;
      this.cores := cores;
      prevTemp, curFreq := Control.NO_SAMPLE, setup.startFreq;
    }

    /** One iteration on the sample `curTemp`: adopt it as the previous
        temperature if there is none yet, compute, clamp, command, carry. */
    method Step(curTemp: real) returns (nextFreq: real, written: nat)
      modifies this, cores
      ensures Valid()
      ensures State() == Control.StepState(Law(), old(State()), curTemp, true)
      ensures nextFreq == curFreq && prevTemp == curTemp
      ensures written == WritablePrefix(old(cores[..]))
      ensures cores[..] == WriteCeilings(old(cores[..]), written, TruncToInt(nextFreq / 1000.0))
    {
      if prevTemp == -1.0 { prevTemp := curTemp; }
      var c1, c2 := Control.Gain(interval), Control.Gain(interval);
      nextFreq := curFreq + c1 * (targetTemp - curTemp) - c2 * (curTemp - prevTemp);
      Control.UnclampedWithGains(Law(), c1, c2, curFreq, curTemp, prevTemp);
      ghost var unclamped := nextFreq;
      if nextFreq > maxFreq { nextFreq := maxFreq; }
      if nextFreq < minFreq { nextFreq := minFreq; }
      assert nextFreq == Control.Clamp(unclamped, minFreq, maxFreq);
      written := SetFreq(nextFreq, cores);
      curFreq := nextFreq;
      prevTemp := curTemp;
    }
  }

  /** The temperature `read` gives is readNumber's value in degrees, whenever
      it gives one (`None` aborts the governor). */
  ghost predicate ReadsAsDegrees(read: NumberFile -> Option<real>) {
    forall f :: read(f).Some? ==> read(f).value == ReadNumber(f) as real / 1000.0
  }

  /** Both the written and the corrected getTemp read in degrees. */
  lemma GetTempsReadAsDegrees()
    ensures ReadsAsDegrees(GetTempAsWritten) && ReadsAsDegrees(GetTemp)
  {
  }

  /** The number of samples, counting from `i`, that `read` accepts before the first it rejects. */
  function AcceptedFrom(read: NumberFile -> Option<real>, samples: seq<NumberFile>, i: nat): (n: nat)
    requires i <= |samples|
    decreases |samples| - i
    ensures i <= n <= |samples|
    ensures forall j :: i <= j < n ==> read(samples[j]).Some?
    ensures n < |samples| ==> read(samples[n]).None?
  {
    if i < |samples| && read(samples[i]).Some? then AcceptedFrom(read, samples, i + 1) else i
  }

  /** The number of leading samples `read` accepts. */
  function Accepted(read: NumberFile -> Option<real>, samples: seq<NumberFile>): (n: nat)
    ensures n <= |samples|
    ensures forall j :: 0 <= j < n ==> read(samples[j]).Some?
    ensures n < |samples| ==> read(samples[n]).None?
  {
    AcceptedFrom(read, samples, 0)
  }

  /** readNumber's value in degrees for each sample; a failed read gives INT_MIN / 1000. */
  function Temps(samples: seq<NumberFile>): (temps: seq<real>)
    ensures |temps| == |samples|
    ensures forall j :: 0 <= j < |samples| ==> temps[j] == ReadNumber(samples[j]) as real / 1000.0
  {
    seq(|samples|, j requires 0 <= j < |samples| => ReadNumber(samples[j]) as real / 1000.0)
  }

  /** The control loop over one sensor reading per iteration, reading each with
      `read` and stopping at the first reading it rejects. */
  method RunWith(ctrl: Controller, read: NumberFile -> Option<real>, samples: seq<NumberFile>)
    returns (cmds: seq<real>, aborted: bool)
    requires ReadsAsDegrees(read)
    modifies ctrl, ctrl.cores
    ensures |cmds| > 0 || old(ctrl.Valid()) ==> ctrl.Valid()
    ensures aborted <==> Accepted(read, samples) < |samples|
    ensures ctrl.State() == Control.Iterate(ctrl.Law(), old(ctrl.State()), Temps(samples[..Accepted(read, samples)]), true)
    ensures cmds == Control.Commands(ctrl.Law(), old(ctrl.State()), Temps(samples[..Accepted(read, samples)]), true)
    ensures forall j :: 0 <= j < |cmds| ==> Control.WithinBounds(ctrl.Law(), cmds[j])
  {
    ghost var s0 := ctrl.State();
    ghost var n := Accepted(read, samples);
    ghost var temps := Temps(samples[..n]);
    cmds := [];
    var i := 0;
    while i < |samples|
      invariant i <= n
      invariant ctrl.State() == Control.Iterate(ctrl.Law(), s0, temps[..i], true)
      invariant cmds == Control.Commands(ctrl.Law(), s0, temps[..i], true)
    {
      var curTemp := read(samples[i]);
      if curTemp.None? {
        assert temps[..i] == temps;
        return cmds, true;
      }
      var nextFreq, _ := ctrl.Step(curTemp.value);
      assert temps[..i + 1][..i] == temps[..i];
      cmds := cmds + [nextFreq];
      i := i + 1;
    }
    assert temps[..i] == temps;
    aborted := false;
  }

  /** The control loop as written: aborts only on a reading of -1, and feeds
      a failed read to the law as INT_MIN / 1000 degrees. */
  method Run(ctrl: Controller, samples: seq<NumberFile>) returns (cmds: seq<real>, aborted: bool)
    modifies ctrl, ctrl.cores
    ensures |cmds| > 0 || old(ctrl.Valid()) ==> ctrl.Valid()
    ensures aborted <==> Some(-1) in samples
    ensures var n := Accepted(GetTempAsWritten, samples);
            && ctrl.State() == Control.Iterate(ctrl.Law(), old(ctrl.State()), Temps(samples[..n]), true)
            && cmds == Control.Commands(ctrl.Law(), old(ctrl.State()), Temps(samples[..n]), true)
    ensures forall j :: 0 <= j < |cmds| ==> Control.WithinBounds(ctrl.Law(), cmds[j])
  {
    GetTempsReadAsDegrees();
    cmds, aborted := RunWith(ctrl, GetTempAsWritten, samples);
  }

  /** The control loop as intended: aborts at the first failed read. */
  method RunIntended(ctrl: Controller, samples: seq<NumberFile>) returns (cmds: seq<real>, aborted: bool)
    modifies ctrl, ctrl.cores
    ensures |cmds| > 0 || old(ctrl.Valid()) ==> ctrl.Valid()
    ensures aborted <==> exists j :: 0 <= j < |samples| && GetTemp(samples[j]).None?
    ensures var n := Accepted(GetTemp, samples);
            && ctrl.State() == Control.Iterate(ctrl.Law(), old(ctrl.State()), Temps(samples[..n]), true)
            && cmds == Control.Commands(ctrl.Law(), old(ctrl.State()), Temps(samples[..n]), true)
    ensures forall j :: 0 <= j < |cmds| ==> Control.WithinBounds(ctrl.Law(), cmds[j])
  {
    GetTempsReadAsDegrees();
    cmds, aborted := RunWith(ctrl, GetTemp, samples);
  }

  /** The temperature a lost sensor file reads as. */
  const LOST_TEMP: real := INT_MIN as real / 1000.0

  /** One iteration on the lost reading, from a ceiling in bounds and a
      previous reading no colder than it, commands the maximum. */
  lemma LostStepCommandsMax(p: Control.Params, before: Control.LoopState)
    requires 0.0 < p.period && 0.0 <= p.targetTemp
    requires p.maxFreq - p.minFreq <= Control.Gain(p.period) * 2147483.648
    requires LOST_TEMP <= before.prevTemp
    requires p.minFreq <= before.curFreq <= p.maxFreq
    ensures Control.StepState(p, before, LOST_TEMP, true).curFreq == p.maxFreq
  {
    var prevTemp := if before.prevTemp == Control.NO_SAMPLE then LOST_TEMP else before.prevTemp;
    var g := Control.Gain(p.period);
    Control.MulNonPositive(g, -p.targetTemp);
    assert g * (p.targetTemp - LOST_TEMP) == g * p.targetTemp + g * 2147483.648;
    Control.FarBelowTargetCommandsMax(p, before.curFreq, LOST_TEMP, prevTemp);
  }

  /** Sensor values are C ints, so no reading is colder than a lost one. */
  lemma NoReadingColderThanLost(samples: seq<NumberFile>, k: nat)
    requires forall i :: 0 <= i < |samples| && samples[i].Some? ==> INT_MIN <= samples[i].value
    requires k < |samples|
    ensures LOST_TEMP <= Temps(samples)[k]
  {
    assert INT_MIN <= ReadNumber(samples[k]);
  }

  /** As written, once the sensor file is lost the loop keeps going and
      commands the maximum: the reading lies about 2.1 million degrees below
      any target of at least zero degrees.  Sensor values are C ints, so no
      earlier reading is colder.  The step must start in bounds, which the
      loop guarantees from its second iteration on. */
  lemma {:induction false} LostSensorCommandsMax(p: Control.Params, s0: Control.LoopState, samples: seq<NumberFile>, j: nat)
    requires 0.0 < p.period && 0.0 <= p.targetTemp && p.minFreq <= p.maxFreq
    requires p.maxFreq - p.minFreq <= Control.Gain(p.period) * 2147483.648
    requires forall k :: 0 <= k < |samples| && samples[k].Some? ==> INT_MIN <= samples[k].value
    requires LOST_TEMP <= s0.prevTemp
    requires 0 < j || p.minFreq <= s0.curFreq <= p.maxFreq
    requires j < Accepted(GetTempAsWritten, samples) && samples[j].None?
    ensures Control.Commands(p, s0, Temps(samples[..Accepted(GetTempAsWritten, samples)]), true)[j] == p.maxFreq
  {
    var temps := Temps(samples[..Accepted(GetTempAsWritten, samples)]);
    Control.CommandsAt(p, s0, temps, true, j);
    assert temps[..j + 1][..j] == temps[..j];
    var before := Control.Iterate(p, s0, temps[..j], true);
    assert temps[j] == LOST_TEMP;
    if 0 < j {
      assert before.prevTemp == temps[..j][j - 1] == temps[j - 1];
      NoReadingColderThanLost(samples[..Accepted(GetTempAsWritten, samples)], j - 1);
    }
    LostStepCommandsMax(p, before);
  }
}
