/** The calibration offset of src/lib/improvement-utils.ts: a clamped exponential moving average. */
module Calibration {

  const ALPHA := 0.3
  const OFFSET_MIN := -15.0
  const OFFSET_MAX := 15.0

  function Clamp(x: real): real {
    var upper := if x < OFFSET_MAX then x else OFFSET_MAX;
    if upper > OFFSET_MIN then upper else OFFSET_MIN
  }

  /** emaCalibrationOffset */
  function Ema(currentOffset: real, latestError: real): real {
    Clamp(ALPHA * latestError + (1.0 - ALPHA) * currentOffset)
  }

  function RunEma(offset: real, errors: seq<real>): real {
    if errors == [] then offset else Ema(RunEma(offset, errors[..|errors| - 1]), errors[|errors| - 1])
  }

  function Distance(x: real, y: real): real {
    if x < y then y - x else x - y
  }

  function Decay(n: nat): real {
    if n == 0 then 1.0 else 0.7 * Decay(n - 1)
  }

  /** Whatever the errors, two offsets fed with the same ones approach each other by 0.7 a step, and
      after the first step every offset is in range. */
  lemma {:induction false} OffsetsContract(x: real, y: real, errors: seq<real>)
    ensures Distance(RunEma(x, errors), RunEma(y, errors)) <= Decay(|errors|) * Distance(x, y)
    ensures errors != [] ==> -15.0 <= RunEma(x, errors) <= 15.0
  {
    hide Ema, Distance;
    if errors == [] {
      assert Decay(0) * Distance(x, y) == Distance(x, y);
    } else {
      var n := |errors| - 1;
      OffsetsContract(x, y, errors[..n]);
      var a, b := RunEma(x, errors[..n]), RunEma(y, errors[..n]);
      OneStepContracts(a, b, errors[n]);
      Regroup(Decay(n), Distance(x, y), Distance(a, b));
    }
  }

  lemma OneStepContracts(a: real, b: real, error: real)
    ensures Distance(Ema(a, error), Ema(b, error)) <= 0.7 * Distance(a, b)
    ensures OFFSET_MIN <= Ema(a, error) <= OFFSET_MAX
  {
  }

  lemma Regroup(decay: real, d: real, e: real)
    requires e <= decay * d
    ensures 0.7 * e <= (0.7 * decay) * d
  {
    assert (0.7 * decay) * d == 0.7 * (decay * d);
  }

  /** A constant error in range is a fixed point, approached geometrically from every offset. */
  lemma ConstantErrorConverges(offset: real, error: real, n: nat)
    requires OFFSET_MIN <= error <= OFFSET_MAX
    ensures Distance(RunEma(offset, seq(n, _ => error)), error) <= Decay(n) * Distance(offset, error)
  {
    hide Distance, Decay, RunEma;
    OffsetsContract(offset, error, seq(n, _ => error));
    FixedPoint(error, n);
  }

  lemma {:induction false} FixedPoint(error: real, n: nat)
    requires OFFSET_MIN <= error <= OFFSET_MAX
    ensures RunEma(error, seq(n, _ => error)) == error
  {
    if n > 0 {
      var es := seq(n, _ => error);
      assert es[..n - 1] == seq(n - 1, _ => error);
      FixedPoint(error, n - 1);
    }
  }

  /** From an offset in range the approach is exactly by 0.7 a step: nothing is cut off on the way. */
  lemma {:induction false} ApproachIsExact(offset: real, error: real, n: nat)
    requires -15.0 <= offset <= 15.0 && -15.0 <= error <= 15.0
    ensures var x := RunEma(offset, seq(n, _ => error));
      x - error == Decay(n) * (offset - error) && -15.0 <= x <= 15.0
  {
    hide Decay, Ema;
    DecayStep(n);
    if n > 0 {
      var es := seq(n, _ => error);
      assert es[..n - 1] == seq(n - 1, _ => error);
      ApproachIsExact(offset, error, n - 1);
      DecayStep(n - 1);
      var x := RunEma(offset, seq(n - 1, _ => error));
      OneStepIsExact(x, error);
      assert 0.7 * (Decay(n - 1) * (offset - error)) == (0.7 * Decay(n - 1)) * (offset - error);
    }
  }

  lemma OneStepIsExact(x: real, error: real)
    requires -15.0 <= x <= 15.0 && -15.0 <= error <= 15.0
    ensures Ema(x, error) - error == 0.7 * (x - error) && -15.0 <= Ema(x, error) <= 15.0
  {
  }

  lemma DecayStep(n: nat)
    ensures Decay(0) == 1.0 && Decay(n + 1) == 0.7 * Decay(n)
  {
  }

  /** An error too large for the range drives the offset to its edge, and holds it there. */
  lemma LargeErrorsSaturate(offset: real, error: real)
    requires -15.0 <= offset <= 15.0
    ensures 0.3 * error + 0.7 * offset >= 15.0 ==> Ema(offset, error) == 15.0
    ensures 0.3 * error + 0.7 * offset <= -15.0 ==> Ema(offset, error) == -15.0
    ensures error >= 15.0 ==> Ema(15.0, error) == 15.0
  {
  }
}
