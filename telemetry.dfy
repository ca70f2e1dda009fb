/** The sysfs tree the governor reads and writes, as values.

    A text file is `None` when it cannot be opened and `Some(content)` otherwise;
    an integer file is `None` when it cannot be opened or does not start with an
    integer, and `Some(v)` when its first integer token is `v`.  Device
    namespaces (thermal zones, hwmon groups, CPU cores) are sequences indexed
    from 0; every index past the end of a sequence is a node whose files are
    all missing. */
module Telemetry {

  datatype Option<+T> = None | Some(value: T)

  datatype Result<+T, +E> = Ok(value: T) | Err(error: E)

  type TextFile = Option<string>
  type NumberFile = Option<int>

  /** A thermal zone (`type`, `temp`) or an hwmon group (`name`, `temp1_input`). */
  datatype SensorNode = SensorNode(name: TextFile, temp: NumberFile)

  /** The capability files of one CPU core: `cpuinfo_min_freq`, `cpuinfo_max_freq` (kHz). */
  datatype CpuNode = CpuNode(infoMin: NumberFile, infoMax: NumberFile)

  datatype Snapshot = Snapshot(thermal: seq<SensorNode>, hwmon: seq<SensorNode>, cpus: seq<CpuNode>)

  /** The file a resolved sensor reads: `thermal_zone<i>/temp` or `hwmon<i>/temp1_input`. */
  datatype SensorPath = ThermalZoneTemp(zone: nat) | HwmonTemp1Input(group: nat)

  function NodeAt(ns: seq<SensorNode>, i: nat): SensorNode {
    if i < |ns| then ns[i] else SensorNode(None, None)
  }

  function SensorFile(snap: Snapshot, path: SensorPath): NumberFile {
    match path
    case ThermalZoneTemp(i) => NodeAt(snap.thermal, i).temp
    case HwmonTemp1Input(i) => NodeAt(snap.hwmon, i).temp
  }

  function MinFreqFiles(cpus: seq<CpuNode>): (files: seq<NumberFile>)
    ensures |files| == |cpus| && forall i :: 0 <= i < |cpus| ==> files[i] == cpus[i].infoMin
  {
    seq(|cpus|, i requires 0 <= i < |cpus| => cpus[i].infoMin)
  }

  function MaxFreqFiles(cpus: seq<CpuNode>): (files: seq<NumberFile>)
    ensures |files| == |cpus| && forall i :: 0 <= i < |cpus| ==> files[i] == cpus[i].infoMax
  {
    seq(|cpus|, i requires 0 <= i < |cpus| => cpus[i].infoMax)
  }

  // ---------------------------------------------------------------------------
  // Text lines: what fgets stores, C strings, and the governor's readString.

  /** The characters `fgets` stores from `content` when at most `limit` may be
      read: everything up to and including the first newline, cut at `limit`. */
  function FirstLine(content: string, limit: nat): (line: string)
    ensures |line| <= limit && line <= content
    ensures forall j :: 0 <= j < |line| - 1 ==> line[j] != '\n'
    ensures limit > 0 && content != [] ==> |line| > 0
    ensures |line| == limit || |line| == |content| || line[|line| - 1] == '\n'
  {
    if limit == 0 || content == [] then []
    else if content[0] == '\n' then ['\n']
    else [content[0]] + FirstLine(content[1..], limit - 1)
  }

  /** `strlen`: the index of the first NUL, or the whole length if there is none. */
  function NulIndex(s: seq<char>): (k: nat)
    ensures k <= |s|
    ensures k < |s| ==> s[k] == '\0'
    ensures forall j :: 0 <= j < k ==> s[j] != '\0'
  {
    if s == [] || s[0] == '\0' then 0 else 1 + NulIndex(s[1..])
  }

  /** The C string a character buffer holds. */
  function CStr(s: seq<char>): string {
    s[..NulIndex(s)]
  }

  lemma NulIndexAt(s: seq<char>, k: nat)
    requires k <= |s| && (k < |s| ==> s[k] == '\0')
    requires forall j :: 0 <= j < k ==> s[j] != '\0'
    ensures NulIndex(s) == k
  {
  }

  function DropLast(s: string): string {
    if s == [] then [] else s[..|s| - 1]
  }

  /** What the governor's readString yields for a file read through a buffer of
      `n` characters: "" when the buffer is empty, the file is missing or fgets
      reads nothing; otherwise the C string fgets stored, minus its last
      character (the newline, or a real character when the line had none). */
  function LineRead(file: TextFile, n: nat): (s: string)
    ensures file.None? || n <= 1 ==> s == ""
    ensures file.Some? ==> s <= file.value
    ensures '\n' !in s && '\0' !in s
    ensures n >= 2 ==> |s| <= n - 2
  {
    if n == 0 || file.None? then ""
    else
      var line := FirstLine(file.value, n - 1);
      assert CStr(line) <= line;
      DropLast(CStr(line))
  }

  lemma {:induction false} FirstLineOfLine(s: string, rest: string, limit: nat)
    requires '\n' !in s && |s| < limit
    ensures FirstLine(s + "\n" + rest, limit) == s + "\n"
  {
    if s != [] {
      assert (s + "\n" + rest)[1..] == s[1..] + "\n" + rest;
      FirstLineOfLine(s[1..], rest, limit - 1);
    }
  }

  /** Reading back a file whose first line is `s` gives `s`, provided the line
      and its newline fit in the buffer and `s` holds no NUL. */
  lemma LineReadOfLine(s: string, rest: string, n: nat)
    requires '\n' !in s && '\0' !in s && |s| + 2 <= n
    ensures LineRead(Some(s + "\n" + rest), n) == s
  {
    FirstLineOfLine(s, rest, n - 1);
    NulIndexAt(s + "\n", |s| + 1);
  }

  /** C's conversion of a double to int: truncation toward zero. */
  function TruncToInt(x: real): (n: int)
    ensures 0.0 <= x ==> n as real <= x < n as real + 1.0
    ensures x < 0.0 ==> n as real - 1.0 < x <= n as real
  {
    if 0.0 <= x then x.Floor else -((-x).Floor)
  }

  // ---------------------------------------------------------------------------
  // Contiguous prefixes of readable cores and their minimum / maximum.

  /** Core `i`'s file holds an integer other than the reader's failure sentinel. */
  predicate Readable(files: seq<NumberFile>, i: nat, sentinel: int) {
    i < |files| && files[i].Some? && files[i].value != sentinel
  }

  /** The number of cores scanned before the first unreadable one, counting from `i`. */
  function ReadableFrom(files: seq<NumberFile>, sentinel: int, i: nat): (n: nat)
    requires i <= |files|
    decreases |files| - i
    ensures i <= n <= |files|
    ensures forall j :: i <= j < n ==> Readable(files, j, sentinel)
    ensures forall j :: i <= j < n ==> files[j].Some? && files[j].value != sentinel
    ensures !Readable(files, n, sentinel)
  {
    if Readable(files, i, sentinel) then ReadableFrom(files, sentinel, i + 1) else i
  }

  function ReadablePrefix(files: seq<NumberFile>, sentinel: int): (n: nat)
    ensures n <= |files|
    ensures forall j :: 0 <= j < n ==> Readable(files, j, sentinel)
    ensures forall j :: 0 <= j < n ==> files[j].Some? && files[j].value != sentinel
    ensures !Readable(files, n, sentinel)
  {
    ReadableFrom(files, sentinel, 0)
  }

  function Min(a: int, b: int): int { if a <= b then a else b }
  function Max(a: int, b: int): int { if a >= b then a else b }

  /** The least value among the first `n` files. */
  function MinOf(files: seq<NumberFile>, n: nat): (m: int)
    requires 0 < n <= |files| && forall j :: 0 <= j < n ==> files[j].Some?
    ensures forall j :: 0 <= j < n ==> m <= files[j].value
    ensures exists j :: 0 <= j < n && m == files[j].value
  {
    if n == 1 then files[0].value else Min(MinOf(files, n - 1), files[n - 1].value)
  }

  /** The greatest value among the first `n` files. */
  function MaxOf(files: seq<NumberFile>, n: nat): (m: int)
    requires 0 < n <= |files| && forall j :: 0 <= j < n ==> files[j].Some?
    ensures forall j :: 0 <= j < n ==> files[j].value <= m
    ensures exists j :: 0 <= j < n && m == files[j].value
  {
    if n == 1 then files[0].value else Max(MaxOf(files, n - 1), files[n - 1].value)
  }

  // ---------------------------------------------------------------------------
  // The per-core scaling_max_freq control files that setFreq writes.

  /** One core's `scaling_max_freq`: whether it can be opened for writing, and what it holds (kHz). */
  datatype CeilingFile = CeilingFile(writable: bool, kHz: NumberFile)

  /** The number of cores, counting from `i`, before the first one whose ceiling file cannot be opened for writing. */
  function WritableFrom(cores: seq<CeilingFile>, i: nat): (n: nat)
    requires i <= |cores|
    decreases |cores| - i
    ensures i <= n <= |cores|
    ensures forall j :: i <= j < n ==> cores[j].writable
    ensures n < |cores| ==> !cores[n].writable
  {
    if i < |cores| && cores[i].writable then WritableFrom(cores, i + 1) else i
  }

  function WritablePrefix(cores: seq<CeilingFile>): (n: nat)
    ensures n <= |cores|
    ensures forall i :: 0 <= i < n ==> cores[i].writable
    ensures n < |cores| ==> !cores[n].writable
  {
    WritableFrom(cores, 0)
  }

  /** What reading the ceiling files gives, core by core. */
  function Column(cores: seq<CeilingFile>): (files: seq<NumberFile>)
    ensures |files| == |cores| && forall i :: 0 <= i < |cores| ==> files[i] == cores[i].kHz
  {
    seq(|cores|, i requires 0 <= i < |cores| => cores[i].kHz)
  }

  /** Converting a whole number of kHz to Hz and back with a truncating cast is exact. */
  lemma KHzRoundTrip(kHz: int)
    ensures TruncToInt((kHz as real * 1000.0) / 1000.0) == kHz
  {
    assert (kHz as real * 1000.0) / 1000.0 == kHz as real;
  }

  /** The ceiling files after `kHz` was written to each of the first `n` cores. */
  function WriteCeilings(cores: seq<CeilingFile>, n: nat, kHz: int): (after: seq<CeilingFile>)
    ensures |after| == |cores|
    ensures forall i :: 0 <= i < |cores| && i < n ==> after[i] == CeilingFile(cores[i].writable, Some(kHz))
    ensures forall i :: n <= i < |cores| ==> after[i] == cores[i]
  {
    seq(|cores|, i requires 0 <= i < |cores| =>
      if i < n then CeilingFile(cores[i].writable, Some(kHz)) else cores[i])
  }
}
