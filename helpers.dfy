/** Integer unit conversions between real-world quantities and the chip's
    internal register encodings, with the package-level constants they use.
    All arithmetic is Go `uint32`; no intermediate result here exceeds 2^32,
    so wrap-around never occurs. */
module Helpers {
  import opened Wire

  /** Go `uint32` where the source does arithmetic on it. */
  type uint32 = x: int | 0 <= x < 0x1_0000_0000

  /** Microsteps per full step. */
  const UStepCount: uint32 := 256
  /** Chip clock frequency in MHz. */
  const FclkMhz: uint32 := 12
  /** Internal time reference: 2^24 divided by the clock frequency in MHz. */
  const TRef: uint32 := 16777216 / FclkMhz
  /** Largest value of the 20-bit TSTEP field. */
  const TstepMax: uint32 := 1048575

  /** The constants evaluate to the values the conversions rely on. */
  lemma ConstantValues()
    ensures TRef == 1398101
    ensures UStepCount / 256 == 1
    ensures TstepMax == 0x10_0000 - 1
  {
  }

  /** `UstepPerSec`: whole time references contained in an internal speed. */
  function UstepPerSec(speedInternal: uint32): (r: uint32)
    ensures r * TRef <= speedInternal < (r + 1) * TRef
  {
    speedInternal / TRef
  }

  /** The conversion never increases its input, is 0 below one time
      reference, and is at most 3072 over the whole `uint32` range. */
  lemma UstepPerSecBounds(speedInternal: uint32)
    ensures UstepPerSec(speedInternal) <= speedInternal
    ensures speedInternal < 1398101 ==> UstepPerSec(speedInternal) == 0
    ensures UstepPerSec(speedInternal) <= 3072
  {
    var r := UstepPerSec(speedInternal);
    assert r * TRef <= speedInternal;
    assert r <= r * TRef;
    assert (r - 3073) * TRef < 0;
  }

  /** `constrain`: clamps `value` to `[min, max]`. When `min > max` a value
      below `min` gives `min` and any other value gives `max`. */
  function Constrain(value: uint32, min: uint32, max: uint32): (r: uint32)
    ensures min <= max ==> min <= r <= max
    ensures value < min ==> r == min
    ensures min <= value <= max ==> r == value
    ensures min <= value && max < value ==> r == max
  {
    if value < min then min
    else if value > max then max
    else value
  }

  /** Clamping a clamped value again changes nothing. */
  lemma ConstrainIdempotent(value: uint32, min: uint32, max: uint32)
    requires min <= max
    ensures Constrain(Constrain(value, min, max), min, max) == Constrain(value, min, max)
  {
  }

  const Zero: uint32 := 0

  /** Outcome of a Go computation that may stop with a division by zero. */
  datatype Division = Quotient(value: uint32) | DivideByZero

  /** `thrsSpeedToTstep` as the source has it: the `thrsSpeed < 0` guard
      cannot hold for an unsigned value, so a zero threshold reaches the
      division. */
  function ThrsSpeedToTstepAsWritten(thrsSpeed: uint32): (r: Division)
    ensures r.DivideByZero? <==> thrsSpeed == 0
    ensures r.Quotient? ==> r.value <= TstepMax
  {
    if thrsSpeed < 0 then Quotient(Zero)
    else if thrsSpeed == 0 then DivideByZero
    else Quotient(Constrain((16777216 / thrsSpeed) * (UStepCount / 256), 0, TstepMax))
  }

  /** The source's guard lets the zero threshold through to a division by
      zero. */
  lemma ZeroThresholdDividesByZero()
    ensures ThrsSpeedToTstepAsWritten(0) == DivideByZero
  {
  }

  /** `thrsSpeedToTstep` with the zero threshold rejected explicitly:
      `(2^24 / thrsSpeed) * (UStepCount / 256)` clamped to the 20-bit range. */
  function ThrsSpeedToTstep(thrsSpeed: uint32): (r: Option<uint32>)
    ensures r.None? <==> thrsSpeed == 0
    ensures r.Some? ==> r.value <= TstepMax
    ensures r.Some? ==> ThrsSpeedToTstepAsWritten(thrsSpeed) == Quotient(r.value)
  {
    if thrsSpeed == 0 then None
    else Some(Constrain((16777216 / thrsSpeed) * (UStepCount / 256), 0, TstepMax))
  }

  /** With 256 microsteps the scale factor is 1, so the result is the
      quotient `2^24 / thrsSpeed` capped at 2^20 - 1. */
  lemma ThrsSpeedToTstepClosedForm(thrsSpeed: uint32)
    requires thrsSpeed > 0
    ensures ThrsSpeedToTstep(thrsSpeed) ==
      Some(if 16777216 / thrsSpeed < 1048575 then 16777216 / thrsSpeed else 1048575)
  {
  }

  lemma ThrsSpeedToTstepExamples()
    ensures ThrsSpeedToTstep(1000) == Some(16777)
    ensures ThrsSpeedToTstep(10000) == Some(1677)
    ensures ThrsSpeedToTstep(1) == Some(1048575)
  {
  }

  /** A larger divisor never gives a larger quotient. */
  lemma DivNonIncreasing(n: nat, a: nat, b: nat)
    requires 0 < a <= b
    ensures n / b <= n / a
  {
    var q := n / b;
    assert q * b <= n by { DivModSplit(n, b); }
    assert q * a <= q * b by { MulMonotone(q, a, b); }
    DivLowerBound(n, a, q);
  }

  lemma DivModSplit(n: nat, d: nat)
    requires d > 0
    ensures n == (n / d) * d + n % d && 0 <= n % d < d
  {
  }

  lemma MulMonotone(q: nat, a: nat, b: nat)
    requires a <= b
    ensures q * a <= q * b
  {
  }

  /** Any multiplier whose product with `a` fits in `n` is at most `n / a`. */
  lemma DivLowerBound(n: nat, a: nat, q: nat)
    requires a > 0 && q * a <= n
    ensures q <= n / a
  {
    var p := n / a;
    DivModSplit(n, a);
    assert q * a < (p + 1) * a;
    MulStrictCancel(q, p + 1, a);
  }

  lemma MulStrictCancel(x: nat, y: nat, a: nat)
    requires a > 0 && x * a < y * a
    ensures x < y
  {
    if x >= y {
      MulMonotone(a, y, x);
    }
  }

  /** A higher threshold speed never gives a larger TSTEP. */
  lemma ThrsSpeedToTstepNonIncreasing(slower: uint32, faster: uint32)
    requires 0 < slower <= faster
    ensures ThrsSpeedToTstep(faster).value <= ThrsSpeedToTstep(slower).value
  {
    DivNonIncreasing(16777216, slower, faster);
  }
}
