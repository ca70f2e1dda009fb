/** The feedback law shared by both variants of the governor: one
    proportional-derivative step on the frequency ceiling, clamped to the
    hardware bounds, and the run of such steps over a series of temperature
    samples.  Frequencies are in Hz, temperatures in degrees Celsius, the
    period in seconds; all are exact reals. */
module Control {

  /** The gain of both the proportional and the derivative term, in Hz per degree. */
  function Gain(period: real): (g: real)
    ensures 0.0 < period <==> 0.0 < g
  {
    20000000.0 * period
  }

  /** The constants of one control loop. */
  datatype Params = Params(targetTemp: real, period: real, minFreq: real, maxFreq: real)

  /** The frequency the law asks for before clamping. */
  function Unclamped(p: Params, curFreq: real, curTemp: real, prevTemp: real): (r: real)
    ensures curTemp == p.targetTemp && prevTemp == curTemp ==> r == curFreq
  {
    curFreq + Gain(p.period) * (p.targetTemp - curTemp) - Gain(p.period) * (curTemp - prevTemp)
  }

  /** The loop's expression, with both gains computed from the period, is the law. */
  lemma UnclampedWithGains(p: Params, c1: real, c2: real, curFreq: real, curTemp: real, prevTemp: real)
    requires c1 == Gain(p.period) && c2 == Gain(p.period)
    ensures curFreq + c1 * (p.targetTemp - curTemp) - c2 * (curTemp - prevTemp) == Unclamped(p, curFreq, curTemp, prevTemp)
    ensures Clamp(curFreq + c1 * (p.targetTemp - curTemp) - c2 * (curTemp - prevTemp), p.minFreq, p.maxFreq)
         == NextFreq(p, curFreq, curTemp, prevTemp)
  {
    var u := curFreq + c1 * (p.targetTemp - curTemp) - c2 * (curTemp - prevTemp);
    assert u == Unclamped(p, curFreq, curTemp, prevTemp) by {
      assert c1 * (p.targetTemp - curTemp) == Gain(p.period) * (p.targetTemp - curTemp);
      assert c2 * (curTemp - prevTemp) == Gain(p.period) * (curTemp - prevTemp);
    }
  }

  /** First cap at `hi`, then raise to `lo`: the result is the point of
      `[lo, hi]` nearest `x`, or `lo` when the interval is empty. */
  function Clamp(x: real, lo: real, hi: real): (r: real)
    ensures lo <= hi ==> lo <= r <= hi
    ensures lo <= x <= hi ==> r == x
    ensures lo <= hi && x < lo ==> r == lo
    ensures lo <= hi && hi < x ==> r == hi
    ensures hi < lo ==> r == lo
  {
    var capped := if x > hi then hi else x;
    if capped < lo then lo else capped
  }

  /** A frequency the clamp can produce: inside the bounds, or the lower bound when they cross. */
  predicate WithinBounds(p: Params, f: real) {
    (p.minFreq <= p.maxFreq ==> p.minFreq <= f <= p.maxFreq) && (p.maxFreq < p.minFreq ==> f == p.minFreq)
  }

  /** One step of the law: the next commanded frequency. */
  function NextFreq(p: Params, curFreq: real, curTemp: real, prevTemp: real): (r: real)
    ensures WithinBounds(p, r)
    ensures WithinBounds(p, Unclamped(p, curFreq, curTemp, prevTemp)) ==> r == Unclamped(p, curFreq, curTemp, prevTemp)
  {
    Clamp(Unclamped(p, curFreq, curTemp, prevTemp), p.minFreq, p.maxFreq)
  }

  lemma ClampMonotone(x: real, y: real, lo: real, hi: real)
    requires x <= y
    ensures Clamp(x, lo, hi) <= Clamp(y, lo, hi)
  {
  }

  /** Both terms of the law scale linearly with the control period. */
  lemma {:induction false} UnclampedScalesWithPeriod(p: Params, k: real, curFreq: real, curTemp: real, prevTemp: real)
    ensures Unclamped(p.(period := k * p.period), curFreq, curTemp, prevTemp) - curFreq
         == k * (Unclamped(p, curFreq, curTemp, prevTemp) - curFreq)
  {
    var g := Gain(p.period);
    assert Gain(k * p.period) == k * g;
    var e, d := p.targetTemp - curTemp, curTemp - prevTemp;
    calc {
      Unclamped(p.(period := k * p.period), curFreq, curTemp, prevTemp) - curFreq;
      (k * g) * e - (k * g) * d;
      { assert (k * g) * e == k * (g * e) && (k * g) * d == k * (g * d); }
      k * (g * e) - k * (g * d);
      k * (g * e - g * d);
    }
  }

  lemma MulPositive(a: real, b: real)
    requires 0.0 < a && 0.0 < b
    ensures 0.0 < a * b
  {
  }

  lemma MulNonPositive(a: real, b: real)
    requires 0.0 <= a && b <= 0.0
    ensures a * b <= 0.0
  {
  }

  /** While the CPU is at or above the target and not cooling, the ceiling never rises. */
  lemma {:induction false} NoRiseWhenHot(p: Params, curFreq: real, curTemp: real, prevTemp: real)
    requires 0.0 < p.period
    requires p.minFreq <= curFreq
    requires p.targetTemp <= curTemp && prevTemp <= curTemp
    ensures NextFreq(p, curFreq, curTemp, prevTemp) <= curFreq
  {
    var g := Gain(p.period);
    MulNonPositive(g, p.targetTemp - curTemp);
    MulNonPositive(g, prevTemp - curTemp);
    assert g * (curTemp - prevTemp) == -(g * (prevTemp - curTemp));
    ClampMonotone(Unclamped(p, curFreq, curTemp, prevTemp), curFreq, p.minFreq, p.maxFreq);
  }

  /** While the CPU is at or below the target and not warming, the ceiling never falls. */
  lemma {:induction false} NoFallWhenCool(p: Params, curFreq: real, curTemp: real, prevTemp: real)
    requires 0.0 < p.period
    requires curFreq <= p.maxFreq
    requires curTemp <= p.targetTemp && curTemp <= prevTemp
    ensures curFreq <= NextFreq(p, curFreq, curTemp, prevTemp)
  {
    var g := Gain(p.period);
    MulNonPositive(g, curTemp - p.targetTemp);
    MulNonPositive(g, curTemp - prevTemp);
    assert g * (p.targetTemp - curTemp) == -(g * (curTemp - p.targetTemp));
    ClampMonotone(curFreq, Unclamped(p, curFreq, curTemp, prevTemp), p.minFreq, p.maxFreq);
  }

  /** A reading so far below the target that the proportional term alone spans
      the bounds, and no warmer than the previous one, commands the maximum. */
  lemma {:induction false} FarBelowTargetCommandsMax(p: Params, curFreq: real, curTemp: real, prevTemp: real)
    requires 0.0 < p.period
    requires p.minFreq <= curFreq <= p.maxFreq
    requires curTemp <= prevTemp
    requires p.maxFreq - p.minFreq <= Gain(p.period) * (p.targetTemp - curTemp)
    ensures NextFreq(p, curFreq, curTemp, prevTemp) == p.maxFreq
  {
    var g := Gain(p.period);
    var proportional, derivative := g * (p.targetTemp - curTemp), g * (curTemp - prevTemp);
    MulNonPositive(g, curTemp - prevTemp);
    assert Unclamped(p, curFreq, curTemp, prevTemp) == curFreq + proportional - derivative;
  }

  // ---------------------------------------------------------------------------
  // The state carried between iterations, and a run of iterations.

  /** The previous temperature value the C variant starts with, meaning "no sample yet". */
  const NO_SAMPLE: real := -1.0

  /** The state one iteration hands to the next: the last commanded frequency and the last temperature. */
  datatype LoopState = LoopState(curFreq: real, prevTemp: real)

  /** One iteration on sample `curTemp`.  With `sentinel` (the C variant) a
      previous temperature equal to NO_SAMPLE is first replaced by `curTemp`. */
  function StepState(p: Params, s: LoopState, curTemp: real, sentinel: bool): (next: LoopState)
    ensures next.prevTemp == curTemp
    ensures WithinBounds(p, next.curFreq)
  {
    var prevTemp := if sentinel && s.prevTemp == NO_SAMPLE then curTemp else s.prevTemp;
    LoopState(NextFreq(p, s.curFreq, curTemp, prevTemp), curTemp)
  }

  /** The state after one iteration per sample, in order. */
  function Iterate(p: Params, s: LoopState, temps: seq<real>, sentinel: bool): (r: LoopState)
    decreases |temps|
    ensures temps == [] ==> r == s
    ensures temps != [] ==> r.prevTemp == temps[|temps| - 1] && WithinBounds(p, r.curFreq)
  {
    if temps == [] then s
    else StepState(p, Iterate(p, s, temps[..|temps| - 1], sentinel), temps[|temps| - 1], sentinel)
  }

  /** The frequencies commanded by a run, one per sample. */
  function Commands(p: Params, s: LoopState, temps: seq<real>, sentinel: bool): (cmds: seq<real>)
    decreases |temps|
    ensures |cmds| == |temps|
    ensures forall j :: 0 <= j < |cmds| ==> WithinBounds(p, cmds[j])
  {
    if temps == [] then []
    else Commands(p, s, temps[..|temps| - 1], sentinel) + [Iterate(p, s, temps, sentinel).curFreq]
  }

  lemma {:induction false} CommandsAt(p: Params, s: LoopState, temps: seq<real>, sentinel: bool, j: nat)
    requires j < |temps|
    ensures Commands(p, s, temps, sentinel)[j] == Iterate(p, s, temps[..j + 1], sentinel).curFreq
    decreases |temps|
  {
    if j < |temps| - 1 {
      var front := temps[..|temps| - 1];
      CommandsAt(p, s, front, sentinel, j);
      assert front[..j + 1] == temps[..j + 1];
    } else {
      assert temps[..j + 1] == temps;
    }
  }

  function RealMin(a: real, b: real): real { if a <= b then a else b }
  function RealMax(a: real, b: real): real { if a >= b then a else b }

  /** How far one iteration at constant temperature `t` lowers the ceiling. */
  function Drop(p: Params, t: real): real {
    Gain(p.period) * (t - p.targetTemp)
  }

  /** `k` drops of `d`, one after the other. */
  function Descent(k: nat, d: real): real {
    if k == 0 then 0.0 else Descent(k - 1, d) + d
  }

  lemma {:induction false} DescentIsProduct(k: nat, d: real)
    ensures Descent(k, d) == (k as real) * d
  {
    if k > 0 {
      DescentIsProduct(k - 1, d);
      assert (k as real) * d == ((k - 1) as real) * d + d;
    }
  }

  /** With no change in temperature the derivative term vanishes. */
  lemma UnclampedAtRest(p: Params, curFreq: real, t: real)
    ensures Unclamped(p, curFreq, t, t) == curFreq - Drop(p, t)
  {
    var g := Gain(p.period);
    assert g * (t - t) == 0.0;
    assert g * (p.targetTemp - t) == -(g * (t - p.targetTemp));
  }

  /** Above the target, each iteration at rest lowers the ceiling by a positive amount. */
  lemma DropPositive(p: Params, t: real)
    requires 0.0 < p.period && p.targetTemp < t
    ensures 0.0 < Drop(p, t)
  {
    MulPositive(Gain(p.period), t - p.targetTemp);
  }

  /** One iteration at a constant temperature above the target with a zero derivative. */
  lemma HotStep(p: Params, before: LoopState, t: real, sentinel: bool)
    requires 0.0 < p.period && p.targetTemp < t
    requires before.curFreq <= p.maxFreq
    requires before.prevTemp == t || (sentinel && before.prevTemp == NO_SAMPLE)
    ensures 0.0 < Drop(p, t)
    ensures StepState(p, before, t, sentinel).curFreq == RealMax(p.minFreq, before.curFreq - Drop(p, t))
  {
    DropPositive(p, t);
    UnclampedAtRest(p, before.curFreq, t);
    var prevTemp := if sentinel && before.prevTemp == NO_SAMPLE then t else before.prevTemp;
    assert prevTemp == t;
  }

  /** Under a constant temperature above the target, starting in bounds with a
      zero derivative, every iteration lowers the ceiling by the same amount
      until it reaches the lower bound and then holds it there. */
  lemma {:induction false} HotConstantDescends(p: Params, s: LoopState, t: real, temps: seq<real>, sentinel: bool)
    requires 0.0 < p.period && p.targetTemp < t
    requires p.minFreq <= s.curFreq <= p.maxFreq
    requires s.prevTemp == t || (sentinel && s.prevTemp == NO_SAMPLE)
    requires forall j :: 0 <= j < |temps| ==> temps[j] == t
    ensures Iterate(p, s, temps, sentinel).curFreq == RealMax(p.minFreq, s.curFreq - Descent(|temps|, Drop(p, t)))
    ensures temps != [] ==> Iterate(p, s, temps, sentinel).prevTemp == t
    decreases |temps|
  {
    if temps != [] {
      var front := temps[..|temps| - 1];
      HotConstantDescends(p, s, t, front, sentinel);
      var before := Iterate(p, s, front, sentinel);
      DescentNonNegative(|front|, Drop(p, t), p, t);
      HotStep(p, before, t, sentinel);
    }
  }

  lemma {:induction false} DescentNonNegative(k: nat, d: real, p: Params, t: real)
    requires d == Drop(p, t) && 0.0 < p.period && p.targetTemp < t
    ensures 0.0 <= Descent(k, d)
  {
    if k > 0 {
      DescentNonNegative(k - 1, d, p, t);
      DropPositive(p, t);
    }
  }

  /** Held long enough above the target, the ceiling settles at exactly the lower bound. */
  lemma HotConstantReachesFloor(p: Params, s: LoopState, t: real, temps: seq<real>, sentinel: bool)
    requires 0.0 < p.period && p.targetTemp < t
    requires p.minFreq <= s.curFreq <= p.maxFreq
    requires s.prevTemp == t || (sentinel && s.prevTemp == NO_SAMPLE)
    requires forall j :: 0 <= j < |temps| ==> temps[j] == t
    requires s.curFreq - p.minFreq <= Descent(|temps|, Drop(p, t))
    ensures Iterate(p, s, temps, sentinel).curFreq == p.minFreq
  {
    HotConstantDescends(p, s, t, temps, sentinel);
  }

  /** The C variant's sentinel only matters on the first iteration, as long as
      no sample other than the last equals NO_SAMPLE: it then behaves as a run
      whose previous temperature is the first sample. */
  lemma {:induction false} SentinelActsOnFirstStep(p: Params, f0: real, temps: seq<real>)
    requires temps != []
    requires forall j :: 0 <= j < |temps| - 1 ==> temps[j] != NO_SAMPLE
    ensures Iterate(p, LoopState(f0, NO_SAMPLE), temps, true) == Iterate(p, LoopState(f0, temps[0]), temps, false)
    decreases |temps|
  {
    var front := temps[..|temps| - 1];
    if front != [] {
      SentinelActsOnFirstStep(p, f0, front);
      assert Iterate(p, LoopState(f0, temps[0]), front, false).prevTemp == front[|front| - 1];
    } else {
      assert Iterate(p, LoopState(f0, NO_SAMPLE), front, true) == LoopState(f0, NO_SAMPLE);
    }
  }

  /** A genuine reading of exactly -1 degrees is taken for "no sample yet" by the
      C variant: the iteration after it drops the derivative term. */
  lemma SentinelMasksMinusOneDegree(p: Params, f: real, t: real)
    ensures StepState(p, LoopState(f, NO_SAMPLE), t, true) == StepState(p, LoopState(f, t), t, false)
    ensures t != NO_SAMPLE && 0.0 < p.period && WithinBounds(p, Unclamped(p, f, t, NO_SAMPLE))
            && WithinBounds(p, Unclamped(p, f, t, t))
        ==> StepState(p, LoopState(f, NO_SAMPLE), t, true) != StepState(p, LoopState(f, NO_SAMPLE), t, false)
  {
    if t != NO_SAMPLE && 0.0 < p.period {
      var g := Gain(p.period);
      assert g * (t - NO_SAMPLE) != g * (t - t);
    }
  }
}
