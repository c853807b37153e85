/** Conversion of kernel clock ticks to nanoseconds without a wide intermediate product. */
module Ticks {
  import opened Prelude

  const NS_PER_SECOND: int := 1_000_000_000

  function CheckedMul(a: u64, b: u64): Option<u64>
  {
    if 0 <= a * b <= U64_MAX then Some(a * b) else None
  }

  /** `ticks_to_ns`, with the tick rate that `sysconf` reported. */
  function TicksToNs(ticks: u64, rate: int): Option<u64>
    requires rate <= U64_MAX
  {
    if rate <= 0 then None
    else
      var seconds, remainder := ticks / rate, ticks % rate;
      SplitBounds(ticks, rate);
      var whole := CheckedMul(seconds, NS_PER_SECOND);
      var fraction := CheckedMul(remainder, NS_PER_SECOND);
      if whole.None? || fraction.None? then None
      else
        QuotientBounds(fraction.value, rate);
        CheckedAdd(whole.value, fraction.value / rate)
  }

  lemma Magnitude(d: int, r: int)
    requires r > 0
    ensures d >= 1 ==> d * r >= r
    ensures d <= -1 ==> d * r <= -r
    ensures d >= 0 ==> d * r >= d
  {
  }

  lemma SplitBounds(x: int, r: int)
    requires x >= 0 && r > 0
    ensures 0 <= x / r <= x && 0 <= x % r <= x && x % r < r
    ensures x == (x / r) * r + x % r
  {
    var q := x / r;
    assert x == q * r + x % r;
    Magnitude(q, r);
  }

  lemma QuotientBounds(x: int, r: int)
    requires x >= 0 && r > 0
    ensures 0 <= x / r <= x
  {
    SplitBounds(x, r);
  }

  lemma QuotientUnique(x: int, r: int, q: int, m: int)
    requires r > 0 && x >= 0 && x == q * r + m && 0 <= m < r
    ensures x / r == q
  {
    var d := q - x / r;
    assert d * r == q * r - (x / r) * r;
    assert d * r == x % r - m;
    Magnitude(d, r);
  }

  /** The exact value: ticks seconds-per-tick, in whole nanoseconds. */
  ghost function ExactNs(ticks: nat, rate: int): int
    requires rate > 0
  {
    ticks * NS_PER_SECOND / rate
  }

  /** Splitting off whole seconds loses nothing. */
  lemma SplitIsExact(ticks: nat, rate: int)
    requires rate > 0
    ensures ExactNs(ticks, rate) == (ticks / rate) * NS_PER_SECOND + (ticks % rate) * NS_PER_SECOND / rate
  {
    var q, r := ticks / rate, ticks % rate;
    SplitBounds(ticks, rate);
    var b := r * NS_PER_SECOND;
    SplitBounds(b, rate);
    var k, m := b / rate, b % rate;
    calc {
      ticks * NS_PER_SECOND;
      (q * rate + r) * NS_PER_SECOND;
      (q * NS_PER_SECOND) * rate + b;
      (q * NS_PER_SECOND) * rate + (k * rate + m);
      (q * NS_PER_SECOND + k) * rate + m;
    }
    QuotientUnique(ticks * NS_PER_SECOND, rate, q * NS_PER_SECOND + k, m);
  }

  /**
   * The conversion is the exact floor whenever it succeeds, and it fails exactly when the exact
   * result or the sub-second product does not fit a u64.
   */
  lemma ConversionIsExact(ticks: u64, rate: int)
    requires 0 < rate <= U64_MAX
    ensures TicksToNs(ticks, rate) ==
            if ExactNs(ticks, rate) > U64_MAX || (ticks % rate) * NS_PER_SECOND > U64_MAX then None
            else Some(ExactNs(ticks, rate))
  {
    SplitIsExact(ticks, rate);
    SplitBounds(ticks, rate);
    SplitBounds((ticks % rate) * NS_PER_SECOND, rate);
  }

  /** At a rate whose sub-second product can overflow, one tick short of a second fails although its result fits. */
  lemma SpuriousFailure(rate: int)
    requires 0 < rate <= U64_MAX && (rate - 1) * NS_PER_SECOND > U64_MAX
    ensures TicksToNs(rate - 1, rate).None? && ExactNs(rate - 1, rate) < NS_PER_SECOND
  {
    var ticks := rate - 1;
    QuotientUnique(ticks, rate, 0, ticks);
    assert ticks % rate == ticks;
    ConversionIsExact(ticks, rate);
    SplitBounds(ticks * NS_PER_SECOND, rate);
    Magnitude(ExactNs(ticks, rate) - NS_PER_SECOND, rate);
  }

  /**
   * When intermediate steps cause no failure of their own: at a given rate the conversion fails for
   * exactly the ticks whose exact result exceeds a u64 if and only if the largest sub-second product fits.
   */
  lemma NoSpuriousFailure(rate: int)
    requires 0 < rate <= U64_MAX
    ensures (forall ticks: u64 :: TicksToNs(ticks, rate).None? <==> ExactNs(ticks, rate) > U64_MAX) <==>
            (rate - 1) * NS_PER_SECOND <= U64_MAX
  {
    if (rate - 1) * NS_PER_SECOND <= U64_MAX {
      forall ticks: u64
        ensures TicksToNs(ticks, rate).None? <==> ExactNs(ticks, rate) > U64_MAX
      {
        ConversionIsExact(ticks, rate);
        SplitBounds(ticks, rate);
      }
    } else {
      SpuriousFailure(rate);
    }
  }

  lemma QuotientMonotone(x: int, y: int, r: int)
    requires 0 <= x <= y && r > 0
    ensures x / r <= y / r
  {
    SplitBounds(x, r);
    SplitBounds(y, r);
    var d := x / r - y / r;
    assert d * r == (x / r) * r - (y / r) * r;
    Magnitude(d, r);
  }

  /** More ticks never convert to less time. */
  lemma ConversionIsMonotone(a: u64, b: u64, rate: int)
    requires 0 < rate <= U64_MAX && a <= b
    requires TicksToNs(a, rate).Some? && TicksToNs(b, rate).Some?
    ensures TicksToNs(a, rate).value <= TicksToNs(b, rate).value
  {
    ConversionIsExact(a, rate);
    ConversionIsExact(b, rate);
    QuotientMonotone(a * NS_PER_SECOND, b * NS_PER_SECOND, rate);
  }
}
