/**
 `hrtimer_forward` and the 64-by-64-bit division it rests on, which 32-bit machines approximate by shifting
 both operands until the divisor fits 32 bits.
 */
module HrtimerForward {

  const TWO_31: int := 0x8000_0000
  const TWO_32: int := 0x1_0000_0000
  const TWO_63: int := 0x8000_0000_0000_0000
  const TWO_64: int := 0x1_0000_0000_0000_0000

  function Pow2(n: nat): (p: nat)
    ensures p >= 1
  {
    if n == 0 then 1 else 2 * Pow2(n - 1)
  }

  function Abs(x: int): nat { if x < 0 then -x else x }

  lemma MulMono(a: int, b: int, c: nat)
    requires a <= b
    ensures a * c <= b * c
  {
  }

  lemma Division(t: nat, d: nat)
    requires d >= 1
    ensures 0 <= t / d && (t / d) * d <= t < (t / d + 1) * d
  {
  }

  lemma QuotientAtLeast(t: nat, d: nat, q: nat)
    requires d >= 1 && q * d <= t
    ensures q <= t / d
  {
    Division(t, d);
    if q >= t / d + 1 { MulMono(t / d + 1, q, d); }
  }

  /** The shifted quotient is not below the true one. */
  lemma ShiftedNotBelow(t: nat, div: nat, p: nat, d: nat)
    requires p >= 1 && d >= 1 && d * p <= div && div >= 1
    ensures t / div <= (t / p) / d
  {
    var q := t / div;
    Division(t, div);
    MulMono(d * p, div, q);
    assert (q * d) * p == (d * p) * q;
    QuotientAtLeast(t, p, q * d);
    QuotientAtLeast(t / p, d, q);
  }

  /** A quotient by a divisor of 32 bits of a dividend of less than 63 bits does not exceed the divisor. */
  lemma QuotientSmall(s: nat, d: nat, q: nat)
    requires 2 * s < TWO_63 && TWO_31 <= d && q * d <= s
    ensures q <= d
  {
    MulMono(TWO_31, d, d);
    if q >= d + 1 { MulMono(d + 1, q, d); }
  }

  /** One less than the shifted quotient still fits, because the divisor keeps 32 significant bits. */
  lemma OneLessFits(t: nat, div: nat, p: nat, d: nat, s: nat, q: nat)
    requires s * p <= t && q * d <= s && 1 <= q <= d && div < (d + 1) * p
    ensures (q - 1) * div <= t
  {
    MulMono(div, (d + 1) * p, q - 1);
    assert (q - 1) * (d + 1) == q * d + q - d - 1;
    MulMono((q - 1) * (d + 1), s, p);
    assert ((d + 1) * p) * (q - 1) == ((q - 1) * (d + 1)) * p;
  }

  lemma ShiftedAtMostOneAbove(t: nat, div: nat, p: nat, d: nat)
    requires t < TWO_63 && p >= 2 && TWO_31 <= d && div >= 1 && div < (d + 1) * p
    ensures (t / p) / d <= t / div + 1
  {
    var s := t / p;
    var q := s / d;
    Division(t, p);
    Division(s, d);
    MulMono(2, p, s);
    QuotientSmall(s, d, q);
    if q >= 1 {
      OneLessFits(t, div, p, d, s, q);
      QuotientAtLeast(t, div, q - 1);
    }
  }

  /** `__ktime_divns`: exact for divisors below 2^32, otherwise the quotient or one more in magnitude. */
  method KtimeDivns(kt: int, div: int) returns (r: int)
    requires -TWO_63 < kt < TWO_63 && 0 < div < TWO_63
    ensures Near(Abs(kt), div, Abs(r))
    ensures (kt >= 0 ==> r >= 0) && (kt < 0 ==> r <= 0)
  {
    var tmp := DivideUnsigned(Abs(kt), div);
    r := if kt < 0 then -tmp else tmp;
  }

  method DivideUnsigned(t: nat, div: int) returns (tmp: int)
    requires t < TWO_63 && 0 < div < TWO_63
    ensures 0 <= tmp && Near(t, div, tmp)
  {
    var d, sft := NarrowDivisor(div);
    ShiftedIsNear(t, div, sft, d);
    tmp := (t / Pow2(sft)) / d;
  }

  method NarrowDivisor(div: int) returns (d: int, sft: nat)
    requires 0 < div < TWO_63
    ensures 1 <= d < TWO_32 && Shifted(div, sft, d)
  {
    sft := 0;
    d := div;
    while d / TWO_32 != 0
      invariant Shifted(div, sft, d)
      decreases d
    {
      ShiftedOnce(div, sft, d);
      sft := sft + 1;
      d := d / 2;
    }
  }

  /** `d` is `div` shifted right `sft` times, and no more often than needed. */
  predicate Shifted(div: int, sft: nat, d: int) {
    && 1 <= d && d * Pow2(sft) <= div < (d + 1) * Pow2(sft)
    && (if sft == 0 then d == div else TWO_31 <= d && TWO_32 <= div)
  }

  lemma ShiftedOnce(div: int, sft: nat, d: int)
    requires Shifted(div, sft, d) && d / TWO_32 != 0
    ensures Shifted(div, sft + 1, d / 2)
  {
    var p, h := Pow2(sft), d / 2;
    assert Pow2(sft + 1) == 2 * p;
    assert h * (2 * p) == (2 * h) * p && (h + 1) * (2 * p) == (2 * h + 2) * p;
    MulMono(2 * h, d, p);
    MulMono(d + 1, 2 * h + 2, p);
    MulMono(1, p, d);
  }

  /** The outcome of a division that may be one too high when the divisor is wide. */
  predicate Near(t: nat, div: int, q: int)
    requires div > 0
  {
    t / div <= q <= t / div + 1 && (div < TWO_32 ==> q == t / div)
  }

  lemma ShiftedIsNear(t: nat, div: int, sft: nat, d: int)
    requires t < TWO_63 && Shifted(div, sft, d)
    ensures 0 <= (t / Pow2(sft)) / d && Near(t, div, (t / Pow2(sft)) / d)
  {
    var p := Pow2(sft);
    Division(t, p);
    Division(t / p, d);
    if sft == 0 {
      assert t / 1 == t;
    } else {
      assert p == 2 * Pow2(sft - 1);
      ShiftedNotBelow(t, div, p, d);
      ShiftedAtMostOneAbove(t, div, p, d);
    }
  }

  /** `k` intervals are what it takes to get past `now`. */
  predicate Overruns(expires: int, now: int, interval: int, k: int) {
    expires + (k - 1) * interval <= now < expires + k * interval
  }

  lemma OverrunsAreUnique(expires: int, now: int, interval: int, k: int, l: int)
    requires interval > 0 && Overruns(expires, now, interval, k) && Overruns(expires, now, interval, l)
    ensures k == l
  {
    if k <= l - 1 { MulMono(k, l - 1, interval); }
    if l <= k - 1 { MulMono(l, k - 1, interval); }
  }

  /** Adding as many intervals as either division says lands at most one interval around `now`. */
  lemma Landing(delta: nat, step: int, k: int)
    requires step > 0 && delta / step <= k <= delta / step + 1
    ensures k * step > delta ==> (k - 1) * step <= delta
    ensures k * step <= delta ==> delta < (k + 1) * step
  {
    Division(delta, step);
  }

  /** What a 64-bit signed variable holds of `x`. */
  function Wrapped(x: int): int { (x + TWO_63) % TWO_64 - TWO_63 }

  /** `ktime_add_safe`: the sum wraps around, and is replaced if it shows that it did. */
  function AddSafe(lhs: int, rhs: int): int {
    var res := Wrapped(lhs + rhs);
    if res < 0 || res < lhs || res < rhs then TWO_63 - 1 else res
  }

  function Saturated(x: int): int { if x < TWO_63 then x else TWO_63 - 1 }

  /** For times that are not negative it is addition with saturation. */
  lemma AddSafeSaturates(lhs: int, rhs: int)
    requires 0 <= lhs < TWO_63 && 0 <= rhs < TWO_63
    ensures AddSafe(lhs, rhs) == Saturated(lhs + rhs)
  {
  }

  class Timer {
    var expires: int
    var softExpires: int
    var queued: bool

    /** `hrtimer_forward`. `resolution` is `hrtimer_resolution`; `wide` says that the machine divides 64-bit
        numbers directly, without which a step behind `now` must still fit. */
    method Forward(now: int, interval: int, resolution: int, wide: bool) returns (orun: int)
      requires 0 <= softExpires <= expires < TWO_63 && 0 <= now < TWO_63
      requires interval < TWO_63 && 0 < resolution < TWO_63
      requires wide || (now + interval < TWO_63 && now + resolution < TWO_63)
      modifies this
      ensures queued == old(queued)
      ensures now < old(expires) || queued ==>
        orun == 0 && expires == old(expires) && softExpires == old(softExpires)
      ensures now >= old(expires) && !queued ==>
        var step := if interval < resolution then resolution else interval;
        && Overruns(old(expires), now, step, orun)
        && expires == Saturated(old(expires) + orun * step)
        && softExpires == Saturated(old(softExpires) + orun * step)
    {
      hide Wrapped, AddSafe, Near;
      orun := 1;
      var delta := now - expires;
      if delta < 0 { return 0; }
      if queued { return 0; }
      var step := if interval < resolution then resolution else interval;
      if delta >= step {
        orun := Divide(delta, step, wide);
        AtMostOneStep(delta, step, orun);
        expires, softExpires := expires + orun * step, softExpires + orun * step;
        if expires > now { return; }
        OneMore(orun, step);
        orun := orun + 1;
      }
      AddSafeSaturates(expires, step);
      AddSafeSaturates(softExpires, step);
      expires, softExpires := AddSafe(expires, step), AddSafe(softExpires, step);
    }

    /** `ktime_divns`, whichever division the machine has. */
    static method Divide(delta: int, step: int, wide: bool) returns (k: int)
      requires 0 < step <= delta < TWO_63
      ensures delta / step <= k <= delta / step + 1 && (wide ==> k == delta / step) && 1 <= k
    {
      Division(delta, step);
      if wide { k := delta / step; } else { k := KtimeDivns(delta, step); }
    }
  }

  lemma AtMostOneStep(delta: nat, step: int, k: int)
    requires 0 < step <= delta && delta / step <= k <= delta / step + 1
    ensures k * step > delta ==> (k - 1) * step <= delta && k * step == (k - 1) * step + step && k > delta / step
    ensures k * step <= delta ==> delta < (k + 1) * step
    ensures 0 <= k * step
  {
    Landing(delta, step, k);
    Division(delta, step);
    MulMono(0, k, step);
  }

  lemma OneMore(k: int, step: int)
    ensures (k + 1) * step == k * step + step
  {
  }
}
