/**
 Long division in place: Algorithm D of section 4.3.1 of Knuth, The Art of Computer
 Programming, volume 2, on base-256 digits.
 */
module ArbDivide {
  import opened Arithmetic
  import opened BitLogic
  import opened Digits
  import opened PolyInts
  import opened ArbUnsigned

  // ---------- Normalisation ----------

  /** How far to shift the leading divisor byte to set its top bit. */
  method NormalisingShift(top: byte) returns (bits: nat)
    requires top > 0
    ensures bits < 8 && 128 <= top * Pow2(bits) < 256
  {
    bits := 0;
    var r: int := top;
    while r < 128
      invariant r == top * Pow2(bits) && 0 < r < 256
      invariant bits < 8
      decreases 256 - r
    {
      ShiftOnce(top, bits);
      r := r * 2;
      bits := bits + 1;
      if bits == 8 { EightShifts(top); }
    }
  }

  lemma ShiftOnce(top: int, bits: nat)
    ensures top * Pow2(bits + 1) == (top * Pow2(bits)) * 2
  {
    DoubleProduct(top, Pow2(bits));
  }

  lemma EightShifts(top: int)
    requires top > 0
    ensures top * Pow2(8) >= 256
  {
    Pow2Values();
  }

  lemma Pow2Values()
    ensures Pow2(0) == 1 && Pow2(1) == 2 && Pow2(2) == 4 && Pow2(3) == 8 && Pow2(4) == 16
    ensures Pow2(5) == 32 && Pow2(6) == 64 && Pow2(7) == 128 && Pow2(8) == 256
  {
    assert Pow2(1) == 2 * Pow2(0);
    assert Pow2(2) == 2 * Pow2(1);
    assert Pow2(3) == 2 * Pow2(2);
    assert Pow2(4) == 2 * Pow2(3);
    assert Pow2(5) == 2 * Pow2(4);
    assert Pow2(6) == 2 * Pow2(5);
    assert Pow2(7) == 2 * Pow2(6);
    assert Pow2(8) == 2 * Pow2(7);
  }

  /** One digit of a left shift: the bits shifted out join the next digit. */
  lemma ShiftStep(u: seq<byte>, w: seq<byte>, i: nat, bits: nat, r: int)
    requires i < |u| && i < |w| && bits < 8 && 0 <= r < Pow2(bits)
    requires Val(w[..i]) + r * Pow256(i) == Val(u[..i]) * Pow2(bits)
    ensures var t := Bitwise(Or, r, u[i] * Pow2(bits));
      0 <= t / 256 < Pow2(bits) &&
      Val(w[..i] + [t % 256]) + (t / 256) * Pow256(i + 1) == Val(u[..i + 1]) * Pow2(bits)
  {
    var p := Pow2(bits);
    OrDisjoint(bits, r, u[i]);
    CarryRange(u[i], p, r);
    AddDigit(w[..i], r, u[i] * p);
    PrefixStep(u, i);
    ShiftArithmetic(Val(u[..i]), u[i], p, Pow256(i));
  }

  lemma CarryRange(d: byte, p: int, r: int)
    requires 0 <= r < p
    ensures 0 <= (r + d * p) / 256 < p
  {
    MulMonotone(d, 255, p);
    MulNonNegative(d, p);
  }

  lemma ShiftArithmetic(u: int, d: int, p: int, q: int)
    ensures (u + d * q) * p == u * p + (d * p) * q
  {
    MulDistribute(u, d * q, p);
    MulAssoc(d, q, p);
    MulAssoc(d, p, q);
    assert q * p == p * q;
  }

  /** Shift the dividend left into the remainder buffer, which has a byte to spare. */
  method ShiftInto(u: seq<byte>, bits: nat, remres: array<byte>)
    requires bits < 8 && |u| < remres.Length
    modifies remres
    ensures Val(remres[..|u| + 1]) == Val(u) * Pow2(bits)
    ensures remres[|u|] < Pow2(bits)
    ensures remres[|u| + 1..] == old(remres[|u| + 1..])
  {
    var r: int := 0;
    var i := 0;
    while i < |u|
      invariant 0 <= i <= |u| && 0 <= r < Pow2(bits)
      invariant Val(remres[..i]) + r * Pow256(i) == Val(u[..i]) * Pow2(bits)
      invariant remres[|u| + 1..] == old(remres[|u| + 1..])
    {
      ghost var was := remres[..];
      assert was[..i] == remres[..i];
      ShiftStep(u, was, i, bits, r);
      r := Bitwise(Or, r, u[i] * Pow2(bits));
      remres[i] := r % 256;
      assert remres[..i + 1] == was[..i] + [r % 256];
      r := r / 256;
      i := i + 1;
    }
    assert u[..i] == u;
    SmallShift(bits);
    ghost var was := remres[..i];
    remres[i] := r;
    assert remres[..i + 1] == was + [r];
    ValAppend(was, r);
  }

  lemma SmallShift(bits: nat)
    requires bits < 8
    ensures 1 <= Pow2(bits) <= 128
  {
    Pow2Values();
  }

  lemma NothingShifted(s: seq<byte>, u: seq<byte>, p: nat)
    ensures Val(s[..0]) + 0 * Pow256(0) == Val(u[..0]) * p
  {
  }

  /** Shift the divisor left in place; its leading byte has room, so nothing is carried out. */
  method ShiftDivisor(v: array<byte>, lv: nat, bits: nat)
    requires bits < 8 && 0 < lv <= v.Length
    requires 128 <= v[lv - 1] * Pow2(bits) < 256
    modifies v
    ensures Val(v[..lv]) == Val(old(v[..lv])) * Pow2(bits)
    ensures v[lv - 1] >= 128
    ensures v[lv..] == old(v[lv..])
  {
    hide Val, Pow256, Pow2, Bitwise;
    ghost var u, all := v[..lv], v[..];
    var r: int := 0;
    var i := 0;
    SmallShift(bits);
    assert Val(v[..0]) + 0 * Pow256(0) == Val(u[..0]) * Pow2(bits) by { NothingShifted(v[..], u, Pow2(bits)); }
    while i < lv - 1
      invariant 0 <= i <= lv - 1 && 0 <= r < Pow2(bits)
      invariant v[..][i..] == all[i..]
      invariant Val(v[..i]) + r * Pow256(i) == Val(u[..i]) * Pow2(bits)
    {
      ghost var was := v[..];
      assert was[..i] == v[..i] && v[i] == was[i..][0] == u[i];
      HighUnchanged(all, was, i, i + 1);
      ShiftStep(u, was, i, bits, r);
      r := Bitwise(Or, r, v[i] * Pow2(bits));
      v[i] := r % 256;
      assert v[..i + 1] == was[..i] + [r % 256] && v[..][i + 1..] == was[i + 1..];
      r := r / 256;
      i := i + 1;
    }
    ghost var was := v[..];
    assert was[..i] == v[..i] && v[i] == was[i..][0] == u[i];
    HighUnchanged(all, was, i, lv);
    ShiftStep(u, was, i, bits, r);
    TopDigit(v[i], bits, r);
    r := Bitwise(Or, r, v[i] * Pow2(bits));
    v[i] := r % 256;
    assert v[..i + 1] == was[..i] + [r % 256];
    assert u[..i + 1] == u;
  }

  lemma TopDigit(d: byte, bits: nat, r: int)
    requires bits < 8 && 0 <= r < Pow2(bits)
    requires 128 <= d * Pow2(bits) < 256
    ensures 128 <= Bitwise(Or, r, d * Pow2(bits)) < 256
  {
    OrDisjoint(bits, r, d);
    Pow2Values();
    assert bits == 0 || bits == 1 || bits == 2 || bits == 3 || bits == 4 || bits == 5 || bits == 6 || bits == 7;
  }

  // ---------- The trial quotient ----------

  /**
   Two leading divisor digits and three leading dividend digits: a trial quotient that is no
   smaller than the true one is at most one too large once it passes the test of step D3.
   */
  lemma PassingTrial(q: nat, w: nat, t3: nat, v: nat, t: nat, p: nat)
    requires q <= 255 && p > 0
    requires w * p <= v < (w + 1) * p && 256 * p <= v
    requires t3 * p <= t < (t3 + 1) * p
    requires q * w <= t3
    ensures q <= t / v + 1
  {
    MulMonotone(q * w, t3, p);
    MulAssoc(q, w, p);
    MulDistribute(w, 1, p);
    // q*v <= q*(w*p + p) <= t + 255*p < t + v
    MulMonotone(v, w * p + p, q);
    MulDistribute(w * p, p, q);
    assert (w * p) * q == q * (w * p);
    MulMonotone(q, 255, p);
    assert p * q == q * p;
    assert v * q < t + v;
    QuotientFromProduct(q, v, t);
  }

  lemma QuotientFromProduct(q: int, v: int, t: nat)
    requires v > 0 && v * q < t + v
    ensures q <= t / v + 1
  {
    DivMod(t, v);
    var k := t / v;
    assert v * q == q * v;
    if q >= k + 2 {
      MulMonotone(k + 2, q, v);
      MulDistribute(k, 2, v);
    }
  }

  /** A trial quotient that fails the test exceeds the true quotient. */
  lemma FailingTrial(q: nat, w: nat, t3: nat, v: nat, t: nat, p: nat)
    requires p > 0 && v > 0
    requires w * p <= v
    requires t < (t3 + 1) * p
    requires q * w > t3
    ensures q > t / v
  {
    var k := t / v;
    DivMod(t, v);
    assert v * q == q * v;
    if q <= k {
      MulMonotone(q, k, v);
      MulMonotone(w * p, v, q);
      MulAssoc(w, p, q);
      assert w * (p * q) == (q * w) * p by { MulAssoc(q, w, p); assert q * (w * p) == w * (p * q) by { assert q * (w * p) == (w * p) * q; } }
      MulMonotone(t3 + 1, q * w, p);
    }
  }

  /** The first estimate, from the two leading dividend digits, is never too small. */
  lemma FirstEstimate(top: nat, dividend: nat, v: nat, t: nat, p: nat)
    requires p > 0 && top > 0
    requires top * p <= v
    requires t < (dividend + 1) * p
    ensures v > 0 && t / v <= dividend / top
  {
    MulMonotone(1, top, p);
    var k := t / v;
    DivMod(t, v);
    MulMonotone(top * p, v, k);
    MulAssoc(top, p, k);
    assert (k * top) * p == top * (p * k) by { MulAssoc(k, top, p); assert k * (top * p) == (top * p) * k; }
    assert v * k == k * v;
    MulCancelStrict(k * top, dividend + 1, p);
    DivMod(dividend, top);
    if k > dividend / top {
      MulMonotone(dividend / top + 1, k, top);
      MulDistribute(dividend / top, 1, top);
    }
  }

  /** Theorem B: with a normalised divisor the first estimate is at most two too large. */
  lemma EstimateWithinTwo(q: nat, top: nat, dividend: nat, v: nat, t: nat, p: nat)
    requires p > 0 && q <= 255 && top >= 128
    requires top * p <= v < (top + 1) * p
    requires dividend * p <= t
    requires q * top <= dividend
    ensures q <= t / v + 2
  {
    var k := t / v;
    DivMod(t, v);
    MulDistribute(top, 1, p);
    MulMonotone(q * top, dividend, p);
    MulAssoc(q, top, p);
    MulMonotone(v, top * p + p, q);
    MulDistribute(top * p, p, q);
    assert (top * p) * q == q * (top * p);
    MulMonotone(q, 255, p);
    assert p * q == q * p;
    MulMonotone(128, top, p);
    assert v * q == q * v;
    if q >= k + 3 {
      MulMonotone(k + 3, q, v);
      MulDistribute(k, 3, v);
    }
  }

  /** The value of a vector lies within its leading digit. */
  lemma Lead1(s: seq<byte>, n: nat)
    requires |s| == n + 1
    ensures s[n] * Pow256(n) <= Val(s) < (s[n] + 1) * Pow256(n)
  {
    ValTake(s, n);
    assert s[..n + 1] == s;
    ValBound(s[..n]);
    MulDistribute(s[n], 1, Pow256(n));
  }

  lemma Lead2(s: seq<byte>, n: nat)
    requires |s| == n + 2
    ensures (s[n + 1] * 256 + s[n]) * Pow256(n) <= Val(s) < (s[n + 1] * 256 + s[n] + 1) * Pow256(n)
  {
    Lead1(s[..n + 1], n);
    ValTake(s, n + 1);
    assert s[..n + 2] == s;
    Pow256Succ(n);
    LeadArithmetic(s[n + 1], s[n], Pow256(n));
  }

  lemma LeadArithmetic(a: int, b: int, p: int)
    ensures (a * 256 + b) * p == a * (256 * p) + b * p
    ensures (a * 256 + b + 1) * p == a * (256 * p) + (b + 1) * p
  {
    MulDistribute(a * 256, b, p);
    MulDistribute(a * 256, b + 1, p);
    MulAssoc(a, 256, p);
  }

  lemma Lead3(s: seq<byte>, n: nat)
    requires |s| == n + 3
    ensures ((s[n + 2] * 256 + s[n + 1]) * 256 + s[n]) * Pow256(n) <= Val(s)
    ensures Val(s) < ((s[n + 2] * 256 + s[n + 1]) * 256 + s[n] + 1) * Pow256(n)
  {
    Lead1(s[..n + 1], n);
    ValTake(s, n + 1);
    ValTake(s, n + 2);
    assert s[..n + 3] == s;
    Pow256Succ(n);
    Pow256Succ(n + 1);
    var p := Pow256(n);
    LeadArithmetic(s[n + 2] as int * 256 + s[n + 1], s[n], p);
    LeadArithmetic(s[n + 2], s[n + 1], 256 * p);
  }

  /** The leading digit of a smaller number of the same length is no larger. */
  lemma LeadingDigits(s: seq<byte>, v: seq<byte>)
    requires |s| == |v| > 0 && Val(s) < Val(v)
    ensures s[|s| - 1] <= v[|v| - 1]
    ensures |v| == 1 ==> s[0] < v[0]
  {
    if s[|s| - 1] > v[|v| - 1] {
      ValHighestDifference(v, s, |s| - 1);
    }
    if |v| == 1 {
      assert Val(s) == s[0] && Val(v) == v[0] by {
        assert s[1..] == [] && v[1..] == [];
      }
    }
  }

  /** Two adjacent digits as one number, the first the more significant. */
  function Pair(high: byte, low: byte): (n: nat) {
    high as int * 256 + low as int
  }

  /** The first estimate of a quotient digit from the two leading dividend digits. */
  function Estimate(t1: byte, t0: byte, top: byte): (q: int)
    requires top > 0
  {
    if t1 == top then 255 else Pair(t1, t0) / top
  }

  /** The estimate lies between the true digit and two more than it. */
  lemma EstimateRange(t: seq<byte>, v: seq<byte>)
    requires |t| == |v| + 1 && |v| > 0 && v[|v| - 1] >= 128
    requires Val(t[1..]) < Val(v)
    ensures Val(v) > 0 && Val(t) < 256 * Val(v)
    ensures Estimate(t[|v|], t[|v| - 1], v[|v| - 1]) <= 255
    ensures var q := Val(t) / Val(v);
      q <= Estimate(t[|v|], t[|v| - 1], v[|v| - 1]) <= q + 2
  {
    var n := |v|;
    Lead1(v, n - 1);
    Lead2(t, n - 1);
    LeadingDigits(t[1..], v);
    assert Val(t) == t[0] + 256 * Val(t[1..]);
    EstimateArithmetic(t[n], t[n - 1], v[n - 1], Val(t), Val(v), Pow256(n - 1));
  }

  lemma EstimateArithmetic(t1: byte, t0: byte, top: byte, t: nat, v: nat, p: nat)
    requires p > 0 && top >= 128 && t1 <= top
    requires top * p <= v < (top + 1) * p
    requires Pair(t1, t0) * p <= t < (Pair(t1, t0) + 1) * p
    requires t < 256 * v
    ensures v > 0
    ensures Estimate(t1, t0, top) <= 255 && t / v <= Estimate(t1, t0, top) <= t / v + 2
  {
    var dividend := Pair(t1, t0);
    FirstEstimate(top, dividend, v, t, p);
    TrueDigit(t, v);
    if t1 == top {
      EstimateWithinTwo(255, top, dividend, v, t, p);
    } else {
      DivMod(dividend, top);
      TrueDigit(dividend, top);
      EstimateWithinTwo(dividend / top, top, dividend, v, t, p);
    }
  }

  lemma TrueDigit(t: nat, v: nat)
    requires t < 256 * v
    ensures t / v <= 255
  {
    DivMod(t, v);
    MulCancelStrict(t / v, 256, v);
  }

  /** With a single-digit divisor the estimate is exact. */
  lemma OneDigit(t: seq<byte>, v: seq<byte>)
    requires |t| == 2 && |v| == 1 && v[0] >= 128
    requires Val(t[1..]) < Val(v)
    ensures Estimate(t[1], t[0], v[0]) == Val(t) / Val(v)
  {
    assert t[1..] == [t[1]] && v[1..] == [] && t[1..][1..] == [];
  }

  /** The test of step D3 on the two leading divisor digits and three leading dividend digits. */
  predicate TooLarge(q: int, t2: byte, t1: byte, t0: byte, v1: byte, v0: byte) {
    v0 * q > (Pair(t2, t1) - q * v1) * 256 + t0
  }

  lemma TestMeaning(q: int, t2: byte, t1: byte, t0: byte, v1: byte, v0: byte)
    ensures TooLarge(q, t2, t1, t0, v1, v0) <==> q * Pair(v1, v0) > Pair(t2, t1) * 256 + t0
  {
    TestArithmetic(q, Pair(t2, t1), t0, v1, v0);
  }

  lemma TestArithmetic(q: int, d: int, t0: int, v1: int, v0: int)
    ensures v0 * q - ((d - q * v1) * 256 + t0) == q * (v1 * 256 + v0) - (d * 256 + t0)
  {
    MulSum(q, v1 * 256, v0);
    assert q * (v1 * 256) == (q * v1) * 256 by { MulAssoc(q, v1, 256); }
    assert v0 * q == q * v0;
  }

  /** A digit that fails the test is larger than the true digit. */
  lemma FailedTest(t: seq<byte>, v: seq<byte>, q: nat)
    requires |t| == |v| + 1 && |v| >= 2 && Val(v) > 0
    requires TooLarge(q, t[|v|], t[|v| - 1], t[|v| - 2], v[|v| - 1], v[|v| - 2])
    ensures q > Val(t) / Val(v)
  {
    var n := |v|;
    Lead2(v, n - 2);
    Lead3(t, n - 2);
    TestMeaning(q, t[n], t[n - 1], t[n - 2], v[n - 1], v[n - 2]);
    FailingTrial(q, Pair(v[n - 1], v[n - 2]), Pair(t[n], t[n - 1]) * 256 + t[n - 2], Val(v), Val(t), Pow256(n - 2));
  }

  /** A digit that passes the test is at most one more than the true digit. */
  lemma PassedTest(t: seq<byte>, v: seq<byte>, q: nat)
    requires |t| == |v| + 1 && |v| >= 2 && Val(v) > 0 && v[|v| - 1] > 0 && q <= 255
    requires !TooLarge(q, t[|v|], t[|v| - 1], t[|v| - 2], v[|v| - 1], v[|v| - 2])
    ensures q <= Val(t) / Val(v) + 1
  {
    var n := |v|;
    Lead2(v, n - 2);
    Lead3(t, n - 2);
    ValLeading(v);
    Pow256Succ(n - 2);
    TestMeaning(q, t[n], t[n - 1], t[n - 2], v[n - 1], v[n - 2]);
    PassingTrial(q, Pair(v[n - 1], v[n - 2]), Pair(t[n], t[n - 1]) * 256 + t[n - 2], Val(v), Val(t), Pow256(n - 2));
  }

  /** The true quotient digit of a window. */
  function TrueDigitOf(t: seq<byte>, v: seq<byte>): int
    requires Val(v) > 0
  {
    Val(t) / Val(v)
  }

  /** The first estimate, as the division makes it, is never too small and at most two too large. */
  lemma FirstDigit(t: seq<byte>, v: seq<byte>)
    requires |t| == |v| + 1 && |v| > 0 && v[|v| - 1] >= 128
    requires Val(t[1..]) < Val(v)
    ensures Val(v) > 0 && 0 <= TrueDigitOf(t, v) <= Estimate(t[|v|], t[|v| - 1], v[|v| - 1]) <= TrueDigitOf(t, v) + 2
    ensures Estimate(t[|v|], t[|v| - 1], v[|v| - 1]) <= 255
    ensures |v| == 1 ==> Estimate(t[1], t[0], v[0]) == TrueDigitOf(t, v)
  {
    hide Val, Estimate;
    EstimateRange(t, v);
    DivNonNegative(Val(t), Val(v));
    if |v| == 1 { OneDigit(t, v); }
  }

  /** Correcting a digit that fails the test never makes it too small; one that passes is at most one too large. */
  lemma Corrected(t: seq<byte>, v: seq<byte>, q: nat)
    requires |t| == |v| + 1 && |v| >= 2 && v[|v| - 1] >= 128 && Val(v) > 0 && q <= 255
    ensures TooLarge(q, t[|v|], t[|v| - 1], t[|v| - 2], v[|v| - 1], v[|v| - 2]) ==> q > TrueDigitOf(t, v)
    ensures !TooLarge(q, t[|v|], t[|v| - 1], t[|v| - 2], v[|v| - 1], v[|v| - 2]) ==> q <= TrueDigitOf(t, v) + 1
  {
    hide Val, TooLarge;
    if TooLarge(q, t[|v|], t[|v| - 1], t[|v| - 2], v[|v| - 1], v[|v| - 2]) {
      FailedTest(t, v, q);
    } else {
      PassedTest(t, v, q);
    }
  }

  /**
   The trial quotient digit for the window of |v|+1 dividend digits ending at j: never too small,
   at most one too large, and reached after at most two corrections of the first estimate.
   */
  method TrialQuotient(remres: array<byte>, v: seq<byte>, j: nat) returns (quotient: nat, ghost corrections: nat)
    requires 0 < |v| <= j < remres.Length && v[|v| - 1] >= 128
    requires Val(remres[j - |v| + 1..j + 1]) < Val(v)
    ensures Val(v) > 0
    ensures TrueDigitOf(remres[j - |v|..j + 1], v) <= quotient <= TrueDigitOf(remres[j - |v|..j + 1], v) + 1
    ensures quotient <= 255 && corrections <= 2
  {
    hide Val, TooLarge, Estimate, TrueDigitOf;
    ghost var t := remres[j - |v|..j + 1];
    assert t[1..] == remres[j - |v| + 1..j + 1];
    FirstDigit(t, v);
    var lv := |v|;
    quotient := Estimate(remres[j], remres[j - 1], v[lv - 1]);
    corrections := 0;
    if lv != 1 {
      while TooLarge(quotient, remres[j], remres[j - 1], remres[j - 2], v[lv - 1], v[lv - 2])
        invariant TrueDigitOf(t, v) <= quotient <= 255
        invariant quotient + corrections == Estimate(remres[j], remres[j - 1], v[lv - 1])
        decreases quotient
      {
        Corrected(t, v, quotient);
        quotient := quotient - 1;
        corrections := corrections + 1;
      }
      Corrected(t, v, quotient);
    }
  }

  // ---------- Multiply and subtract, add back ----------

  /** The digits of w - q*v together with what is carried out; r = 1 means nothing is owed. */
  function ProductDifference(w: seq<byte>, v: seq<byte>, q: nat, r: int): (d: (seq<byte>, int))
    requires |w| == |v|
    ensures |d.0| == |w|
  {
    if |w| == 0 then ([], r)
    else
      var t := r + (255 + w[0] as int - q * v[0]);
      var rest := ProductDifference(w[1..], v[1..], q, t / 256);
      ([t % 256] + rest.0, rest.1)
  }

  lemma {:induction false} ProductDifferenceVal(w: seq<byte>, v: seq<byte>, q: nat, r: int)
    requires |w| == |v|
    ensures var d := ProductDifference(w, v, q, r);
      Val(d.0) + d.1 * Pow256(|w|) == r - 1 + Pow256(|w|) + Val(w) - q * Val(v)
  {
    if |w| > 0 {
      var t := r + (255 + w[0] as int - q * v[0]);
      var rest := ProductDifference(w[1..], v[1..], q, t / 256);
      ProductDifferenceVal(w[1..], v[1..], q, t / 256);
      assert ([t % 256] + rest.0)[1..] == rest.0;
      DifferenceArithmetic(rest.1, Pow256(|w| - 1), q, v[0], Val(v[1..]));
    }
  }

  lemma DifferenceArithmetic(r: int, p: int, q: int, d: int, v: int)
    ensures r * (256 * p) == 256 * (r * p)
    ensures q * (d + 256 * v) == q * d + 256 * (q * v)
  {
    ConcatArithmetic(r, p);
    MulSum(q, d, 256 * v);
  }

  lemma ProductStep(done: seq<byte>, w: seq<byte>, v: seq<byte>, i: nat, q: nat, r: int)
    requires i < |w| == |v|
    ensures var t := r + (255 + w[i] as int - q * v[i]);
      var d := ProductDifference(w[i..], v[i..], q, r);
      var d' := ProductDifference(w[i + 1..], v[i + 1..], q, t / 256);
      done + d.0 == done + [t % 256] + d'.0 && d.1 == d'.1
  {
    assert w[i..][1..] == w[i + 1..] && v[i..][1..] == v[i + 1..];
  }

  /** Storing digit i of the window at base. */
  lemma WindowStep(s: seq<byte>, base: nat, i: nat, d: byte)
    requires base + i < |s|
    ensures var s' := s[base + i := d];
      && s'[..base] == s[..base] && s'[base..base + i + 1] == s[base..base + i] + [d] && s'[base + i + 1..] == s[base + i + 1..]
  {
  }

  /** Subtract quotient times v from the digits of remres starting at base. */
  method SubtractProduct(remres: array<byte>, v: seq<byte>, base: nat, quotient: nat) returns (r: int)
    requires base + |v| <= remres.Length
    modifies remres
    ensures (remres[base..base + |v|], r) == ProductDifference(old(remres[base..base + |v|]), v, quotient, 1)
    ensures remres[..base] == old(remres[..base]) && remres[base + |v|..] == old(remres[base + |v|..])
  {
    hide ProductDifference;
    ghost var w, all := remres[base..base + |v|], remres[..];
    r := 1;  // initial borrow
    var i := 0;
    while i < |v|
      invariant 0 <= i <= |v|
      invariant remres[..][..base] == all[..base]
      invariant remres[..][base + i..] == all[base + i..]
      invariant remres[..][base..base + i] + ProductDifference(w[i..], v[i..], quotient, r).0
             == ProductDifference(w, v, quotient, 1).0
      invariant ProductDifference(w[i..], v[i..], quotient, r).1 == ProductDifference(w, v, quotient, 1).1
    {
      ghost var done := remres[..][base..base + i];
      ghost var was := remres[..];
      ProductStep(done, w, v, i, quotient, r);
      assert was[base + i] == was[base + i..][0] == all[base + i..][0] == w[i];
      HighUnchanged(all, was, base + i, base + i + 1);
      r := r + (255 + remres[base + i] as int - quotient * v[i]);
      remres[base + i] := r % 256;
      WindowStep(was, base, i, r % 256);
      assert remres[..] == was[base + i := r % 256];
      r := r / 256;
      i := i + 1;
    }
    NothingLeft(w[i..], v[i..], quotient, r);
    assert remres[..][base..base + i] + [] == remres[base..base + i];
    assert remres[..][base + i..] == remres[base + i..] && all[base + i..] == old(remres[base + i..]);
    assert remres[..][..base] == remres[..base] && all[..base] == old(remres[..base]);
  }

  lemma NothingLeft(w: seq<byte>, v: seq<byte>, q: nat, r: int)
    requires |w| == |v| == 0
    ensures ProductDifference(w, v, q, r) == ([], r)
    ensures 0 <= r <= 1 ==> WrappedSum(w, v, r) == []
  {
  }

  /** The digits of w + v + r, discarding the last carry. */
  function WrappedSum(w: seq<byte>, v: seq<byte>, r: byte): (d: seq<byte>)
    requires |w| == |v| && r <= 1
    ensures |d| == |w|
  {
    if |w| == 0 then []
    else [(r + v[0] + w[0]) % 256] + WrappedSum(w[1..], v[1..], (r + v[0] + w[0]) / 256)
  }

  lemma {:induction false} WrappedSumVal(w: seq<byte>, v: seq<byte>, r: byte)
    requires |w| == |v| && r <= 1
    ensures Val(WrappedSum(w, v, r)) == (Val(w) + Val(v) + r) % Pow256(|w|)
  {
    WrappedSumCarry(w, v, r);
    ValBound(WrappedSum(w, v, r));
    var n := Val(w) + Val(v) + r;
    if n >= Pow256(|w|) {
      ValBound(w);
      ValBound(v);
      DivisionUnique(n, Pow256(|w|), 1, n - Pow256(|w|));
    } else {
      DivisionUnique(n, Pow256(|w|), 0, n);
    }
  }

  lemma {:induction false} WrappedSumCarry(w: seq<byte>, v: seq<byte>, r: byte)
    requires |w| == |v| && r <= 1
    ensures var d := Val(WrappedSum(w, v, r));
      d == Val(w) + Val(v) + r || d == Val(w) + Val(v) + r - Pow256(|w|)
  {
    if |w| > 0 {
      var t := r as int + v[0] as int + w[0] as int;
      var rest := WrappedSum(w[1..], v[1..], t / 256);
      WrappedSumCarry(w[1..], v[1..], t / 256);
      assert ([t % 256] + rest)[1..] == rest;
    }
  }

  lemma WrappedStep(done: seq<byte>, w: seq<byte>, v: seq<byte>, i: nat, r: byte)
    requires i < |w| == |v| && r <= 1
    ensures var t := r as int + v[i] as int + w[i] as int;
      t / 256 <= 1 &&
      done + WrappedSum(w[i..], v[i..], r) == done + [t % 256] + WrappedSum(w[i + 1..], v[i + 1..], t / 256)
  {
    assert w[i..][1..] == w[i + 1..] && v[i..][1..] == v[i + 1..];
  }

  /** Add v back into the digits of remres starting at base. */
  method AddBack(remres: array<byte>, v: seq<byte>, base: nat)
    requires base + |v| <= remres.Length
    modifies remres
    ensures remres[base..base + |v|] == WrappedSum(old(remres[base..base + |v|]), v, 0)
    ensures remres[..base] == old(remres[..base]) && remres[base + |v|..] == old(remres[base + |v|..])
  {
    hide WrappedSum;
    ghost var w, all := remres[base..base + |v|], remres[..];
    var r: int := 0;
    var i := 0;
    while i < |v|
      invariant 0 <= i <= |v| && 0 <= r <= 1
      invariant remres[..][..base] == all[..base]
      invariant remres[..][base + i..] == all[base + i..]
      invariant remres[..][base..base + i] + WrappedSum(w[i..], v[i..], r) == WrappedSum(w, v, 0)
    {
      ghost var done := remres[..][base..base + i];
      ghost var was := remres[..];
      WrappedStep(done, w, v, i, r);
      assert was[base + i] == was[base + i..][0] == all[base + i..][0] == w[i];
      HighUnchanged(all, was, base + i, base + i + 1);
      r := r + v[i] as int + remres[base + i] as int;
      remres[base + i] := r % 256;
      WindowStep(was, base, i, r % 256);
      assert remres[..] == was[base + i := r % 256];
      r := r / 256;
      i := i + 1;
    }
    NothingLeft(w[i..], v[i..], 0, r);
    assert remres[..][base..base + i] + [] == remres[base..base + i];
    assert remres[..][base + i..] == remres[base + i..] && all[base + i..] == old(remres[base + i..]);
    assert remres[..][..base] == remres[..base] && all[..base] == old(remres[..base]);
  }

  /** What a digit step needs of the subtraction: the borrow tells whether the digit was too large. */
  lemma DigitOutcome(w: seq<byte>, top: byte, v: seq<byte>, q: nat)
    requires |w| == |v| && Val(v) > 0
    requires var t := Val(w) + top * Pow256(|w|); t / Val(v) <= q <= t / Val(v) + 1
    ensures var t := Val(w) + top * Pow256(|w|);
      var d := ProductDifference(w, v, q, 1);
      if d.1 + top == 0
      then q == t / Val(v) + 1 && Val(WrappedSum(d.0, v, 0)) == t % Val(v)
      else q == t / Val(v) && Val(d.0) == t % Val(v)
  {
    var n := |w|;
    var d := ProductDifference(w, v, q, 1);
    ProductDifferenceVal(w, v, q, 1);
    ValBound(d.0);
    ValBound(v);
    WrappedSumVal(d.0, v, 0);
    OutcomeArithmetic(Val(w), top, Val(v), q, Val(d.0), d.1, Pow256(n));
  }

  lemma OutcomeArithmetic(w: nat, top: int, v: nat, q: nat, d: nat, r: int, p: int)
    requires 0 < v < p && 0 <= d < p && top >= 0
    requires (w + top * p) / v <= q <= (w + top * p) / v + 1
    requires d + r * p == p + w - q * v
    ensures var t := w + top * p;
      if r + top == 0
      then q == t / v + 1 && (d + v) % p == t % v
      else q == t / v && d == t % v
  {
    var t := w + top * p;
    DivMod(t, v);
    MulDistribute(r, top, p);
    MulDistribute(t / v, 1, v);
    var k := r + top;
    assert d + k * p == p + (t - q * v);
    if q == t / v {
      OnlyMultiple(k - 1, p, t % v - d);
    } else {
      OnlyMultiple(k, p, t % v - v + p - d);
      DivisionUnique(d + v, p, 1, t % v);
    }
  }

  /** A multiple of p strictly between -p and p is zero. */
  lemma OnlyMultiple(k: int, p: int, m: int)
    requires p > 0 && k * p == m && -p < m < p
    ensures k == 0 && m == 0
  {
    if k >= 1 { MulMonotone(1, k, p); }
    if k <= -1 { MulMonotone(k, -1, p); }
  }

  /** The digits s become s' when the window of |v|+1 digits ending at j is divided by v. */
  ghost predicate DigitDivided(s: seq<byte>, s': seq<byte>, j: nat, v: seq<byte>, quotient: int) {
    && 0 < |v| <= j < |s| == |s'|
    && Val(v) > 0
    && quotient == Val(s[j - |v|..j + 1]) / Val(v)
    && Val(s'[j - |v|..j]) == Val(s[j - |v|..j + 1]) % Val(v)
    && s'[..j - |v|] == s[..j - |v|]
    && s'[j..] == s[j..]
  }

  /**
   One quotient digit: divide the window of |v|+1 digits ending at j, leaving its remainder in
   the low |v| digits. The digit at j is not rewritten and counts as zero from here on.
   */
  method QuotientDigit(remres: array<byte>, v: seq<byte>, j: nat) returns (quotient: byte)
    requires 0 < |v| <= j < remres.Length && v[|v| - 1] >= 128
    requires Val(remres[..][j - |v| + 1..j + 1]) < Val(v)
    modifies remres
    ensures DigitDivided(old(remres[..]), remres[..], j, v, quotient)
  {
    var base := j - |v|;
    ghost var s := remres[..];
    assert s[base + 1..j + 1] == remres[base + 1..j + 1] && s[base..j + 1] == remres[base..j + 1];
    var trial: nat;
    ghost var corrections;
    trial, corrections := TrialQuotient(remres, v, j);
    WindowOutcome(s, j, v, trial);
    var r := SubtractProduct(remres, v, base, trial);
    ghost var s1 := remres[..];
    assert remres[base..j] == s1[base..j] && s1[j..] == s[j..] && s1[..base] == s[..base];
    assert s1[j] == s1[j..][0] == s[j];
    r := r + remres[j];  // borrow from the leading digit
    if r == 0 {
      trial := trial - 1;
      AddBack(remres, v, base);
      assert remres[base..j] == remres[..][base..j] && remres[..][j..] == s1[j..];
      assert remres[..][..base] == s1[..base];
    }
    quotient := trial;
  }

  lemma WindowOutcome(s: seq<byte>, j: nat, v: seq<byte>, trial: nat)
    requires 0 < |v| <= j < |s| && Val(v) > 0
    requires var t := Val(s[j - |v|..j + 1]); t / Val(v) <= trial <= t / Val(v) + 1
    ensures Val(s[j - |v|..j + 1]) / Val(v) >= 0
    ensures var t := Val(s[j - |v|..j + 1]);
      var d := ProductDifference(s[j - |v|..j], v, trial, 1);
      if d.1 + s[j] == 0
      then trial == t / Val(v) + 1 && Val(WrappedSum(d.0, v, 0)) == t % Val(v)
      else trial == t / Val(v) && Val(d.0) == t % Val(v)
  {
    var w := s[j - |v|..j];
    assert s[j - |v|..j + 1] == w + [s[j]];
    ValAppend(w, s[j]);
    DigitOutcome(w, s[j], v, trial);
    DivMod(Val(s[j - |v|..j + 1]), Val(v));
  }

  /** With t = q v + r: the digit q takes q v from the window and leaves r. */
  lemma DigitStepArithmetic(high: nat, v: nat, p: nat, low: nat, t: nat, q: nat, r: nat, u: nat)
    requires t == q * v + r && u == (high * v) * (256 * p) + (low + t * p)
    ensures u == ((q + 256 * high) * v) * p + (low + r * p)
  {
    MulDistribute(q * v, r, p);
    MulDistribute(q, 256 * high, v);
    MulAssoc(256, high, v);
    MulDistribute(q * v, 256 * (high * v), p);
    MulAssoc(256, high * v, p);
    ConcatArithmetic(high * v, p);
  }

  /** What is left to divide after the digits above position k have been produced. */
  ghost predicate Remaining(s: seq<byte>, k: nat, v: seq<byte>, digits: seq<byte>, u: nat) {
    && |v| <= k <= |s|
    && Val(s[k - |v|..k]) < Val(v)
    && u == Shifted(Val(digits) * Val(v), k - |v|) + Val(s[..k])
  }

  /** Dividing the window below position k yields the next quotient digit. */
  lemma DivideStep(s: seq<byte>, s': seq<byte>, j: nat, v: seq<byte>, digits: seq<byte>, q: byte, u: nat)
    requires Remaining(s, j + 1, v, digits, u)
    requires DigitDivided(s, s', j, v, q)
    ensures Remaining(s', j, v, [q] + digits, u)
  {
    var b := j - |v|;
    var low, t := Val(s[..b]), Val(s[b..j + 1]);
    assert Val(s[..j + 1]) == low + t * Pow256(b) by {
      assert s[..j + 1] == s[..b] + s[b..j + 1];
      ValConcat(s[..b], s[b..j + 1]);
    }
    assert Val(s'[..j]) == low + (t % Val(v)) * Pow256(b) by {
      assert s'[..j] == s'[..b] + s'[b..j];
      ValConcat(s'[..b], s'[b..j]);
    }
    StepTotal(Val(digits), Val(v), b, low, t, u, Val(s[..j + 1]), Val(s'[..j]));
    PrependDigit(q, digits);
  }

  lemma HighUnchanged(s: seq<byte>, s': seq<byte>, j: nat, m: nat)
    requires j <= m <= |s| == |s'| && s'[j..] == s[j..]
    ensures s'[m..] == s[m..]
  {
    assert s'[m..] == s'[j..][m - j..] && s[m..] == s[j..][m - j..];
  }

  lemma StepTotal(high: nat, v: nat, b: nat, low: nat, t: nat, u: nat, before: nat, after: nat)
    requires v > 0
    requires u == Shifted(high * v, b + 1) + before
    requires before == low + t * Pow256(b)
    requires after == low + (t % v) * Pow256(b)
    ensures t / v >= 0 && u == Shifted((t / v + 256 * high) * v, b) + after
  {
    DivNonNegative(t, v);
    DivMod(t, v);
    DigitTotal(high, v, b, low, t, t / v, t % v, u, before, after);
  }

  lemma DigitTotal(high: nat, v: nat, b: nat, low: nat, t: nat, q: nat, r: nat, u: nat, before: nat, after: nat)
    requires t == q * v + r && u == Shifted(high * v, b + 1) + before
    requires before == low + t * Pow256(b) && after == low + r * Pow256(b)
    ensures u == Shifted((q + 256 * high) * v, b) + after
  {
    hide Shifted, Pow256;
    Pow256Succ(b);
    ShiftedProduct(high * v, b + 1);
    ShiftedProduct((q + 256 * high) * v, b);
    DigitStepArithmetic(high, v, Pow256(b), low, t, q, r, u);
  }

  /** The loop over quotient digits, on normalised operands. */
  method DivideDigits(remres: array<byte>, v: seq<byte>, divres: array?<byte>, lu: nat)
    requires 0 < |v| <= lu < remres.Length && v[|v| - 1] >= 128
    requires divres != null ==> lu - |v| < divres.Length && divres != remres
    requires remres[lu] < 128
    modifies remres, if divres == null then {} else {divres}
    ensures Val(v) > 0
    ensures Val(remres[..][..|v|]) == old(Val(remres[..][..lu + 1])) % Val(v)
    ensures divres != null ==> Val(divres[..lu - |v| + 1]) == old(Val(remres[..][..lu + 1])) / Val(v)
    ensures divres != null ==> divres[lu - |v| + 1..] == old(divres[lu - |v| + 1..])
    ensures remres[..][lu + 1..] == old(remres[..][lu + 1..])
  {
    hide Remaining, Val, Pow256, Shifted, DigitDivided;
    ghost var u := Val(remres[..][..lu + 1]);
    ghost var digits: seq<byte> := [];
    FirstWindow(remres[..], v, lu);
    var j := lu;
    while j >= |v|
      invariant |v| - 1 <= j <= lu
      invariant Remaining(remres[..], j + 1, v, digits, u)
      invariant |digits| == lu - j
      invariant divres != null ==> divres[j - |v| + 1..lu - |v| + 1] == digits
      invariant divres != null ==> divres[lu - |v| + 1..] == old(divres[lu - |v| + 1..])
      invariant remres[..][lu + 1..] == old(remres[..][lu + 1..])
    {
      ghost var s := remres[..];
      assert Val(s[j - |v| + 1..j + 1]) < Val(v) by { WindowBelow(s, j + 1, v, digits, u); }
      var quotient := QuotientDigit(remres, v, j);
      ghost var s' := remres[..];
      DivideStep(s, s', j, v, digits, quotient, u);
      HighUnchanged(s, s', j, lu + 1);
      if divres != null {
        divres[j - |v|] := quotient;
        assert divres[j - |v|..lu - |v| + 1] == [quotient] + digits;
      }
      assert remres[..] == s';
      digits := [quotient] + digits;
      j := j - 1;
    }
    Conclude(remres[..], v, digits, u);
  }

  lemma WindowBelow(s: seq<byte>, k: nat, v: seq<byte>, digits: seq<byte>, u: nat)
    requires Remaining(s, k, v, digits, u)
    ensures |v| <= k <= |s| && Val(s[k - |v|..k]) < Val(v)
  {
  }

  lemma PrependDigit(d: byte, s: seq<byte>)
    ensures Val([d] + s) == d + 256 * Val(s)
  {
    assert ([d] + s)[1..] == s;
  }

  lemma Conclude(s: seq<byte>, v: seq<byte>, digits: seq<byte>, u: nat)
    requires |v| <= |s| && Remaining(s, |v|, v, digits, u)
    ensures Val(v) > 0 && Val(digits) == u / Val(v) && Val(s[..|v|]) == u % Val(v)
  {
    assert s[0..|v|] == s[..|v|];
    assert Pow256(0) == 1;
    DivisionUnique(u, Val(v), Val(digits), Val(s[..|v|]));
  }

  /** The leading window starts below the divisor because the shift carried out less than 128. */
  lemma FirstWindow(s: seq<byte>, v: seq<byte>, lu: nat)
    requires 0 < |v| <= lu < |s| && v[|v| - 1] >= 128 && s[lu] < 128
    ensures Remaining(s, lu + 1, v, [], Val(s[..lu + 1]))
  {
    var n := |v|;
    var w := s[lu - n + 1..lu + 1];
    ValHighestDifference(w, v, n - 1);
    assert Val([]) * Val(v) == 0;
    ShiftedProduct(0, lu + 1 - n);
  }

  // ---------- Denormalising the remainder ----------

  /** The digits of s shifted right, each taking its high bits from the next digit up. */
  function ShiftedDown(s: seq<byte>, bits: nat): (d: seq<byte>)
    ensures |d| == |s|
  {
    if |s| == 0 then [] else
      [((if |s| > 1 then s[1] as int else 0) * 256 + s[0]) / Pow2(bits) % 256] + ShiftedDown(s[1..], bits)
  }

  lemma {:induction false} ShiftedDownVal(s: seq<byte>, bits: nat)
    requires bits < 8 && |s| > 0
    ensures Pow2(bits) * Val(ShiftedDown(s, bits)) == Val(s) - s[0] % Pow2(bits)
  {
    var p := Pow2(bits);
    var next: byte := if |s| > 1 then s[1] else 0;
    var d := (next as int * 256 + s[0]) / p % 256;
    var rest := ShiftedDown(s[1..], bits);
    DownDigit(next, s[0], bits);
    assert ([d] + rest)[1..] == rest;
    if |s| > 1 {
      ShiftedDownVal(s[1..], bits);
    }
    MulSum(p, d, 256 * Val(rest));
    assert p * (256 * Val(rest)) == 256 * (p * Val(rest)) by { MulAssoc(p, 256, Val(rest)); MulAssoc(256, p, Val(rest)); }
  }

  lemma DownDigit(next: byte, d: byte, bits: nat)
    requires bits < 8
    ensures Pow2(bits) * ((next as int * 256 + d) / Pow2(bits) % 256) == d - d % Pow2(bits) + 256 * (next % Pow2(bits))
  {
    Pow2Values();
    var m := if bits == 0 then 256 else if bits == 1 then 128 else if bits == 2 then 64 else if bits == 3 then 32
             else if bits == 4 then 16 else if bits == 5 then 8 else if bits == 6 then 4 else 2;
    DownArithmetic(next, d, Pow2(bits), m);
  }

  lemma DownArithmetic(next: byte, d: byte, p: int, m: int)
    requires p > 0 && m > 0 && m * p == 256
    ensures p * ((next as int * 256 + d) / p % 256) == d - d % p + 256 * (next % p)
  {
    var h, k := next % p, next / p;
    DivMod(next, p);
    DivMod(d, p);
    var low := m * h + d / p;
    DownQuotient(next, d, p, m, h, k, d / p, d % p);
    DivisionUnique(next as int * 256 + d, p, 256 * k + low, d % p);
    DownLow(low, k, 256 * k + low);
    assert p * low == low * p;
  }

  lemma DownLow(low: int, k: int, n: int)
    requires 0 <= low < 256 && n == 256 * k + low
    ensures n % 256 == low
  {
  }

  /** The quotient and remainder of next * 256 + d by p, from those of next and of d. */
  lemma DownQuotient(next: int, d: int, p: int, m: int, h: int, k: int, e: int, f: int)
    requires p > 0 && m > 0 && m * p == 256 && 0 <= d < 256
    requires next == k * p + h && 0 <= h < p && d == e * p + f && 0 <= f < p
    ensures next * 256 + d == (256 * k + (m * h + e)) * p + f
    ensures 0 <= m * h + e < 256 && (m * h + e) * p == 256 * h + e * p
  {
    var low := m * h + e;
    MulDistribute(256 * k, low, p);
    MulDistribute(m * h, e, p);
    MulAssoc(256, k, p);
    DownProduct(h, m, p);
    // low < 256 because low * p <= 256 * h + d < 256 * p
    MulNonNegative(m, h);
    MulMonotone(h + 1, p, 256);
    DownBounds(low, h, p, e, f, d);
    if e < 0 { MulMonotone(e + 1, 0, p); MulDistribute(e, 1, p); }
  }

  lemma DownProduct(h: int, m: int, p: int)
    requires m * p == 256
    ensures (m * h) * p == 256 * h
  {
    MulAssoc(h, m, p);
    assert m * h == h * m && h * 256 == 256 * h;
  }

  lemma DownBounds(low: int, h: int, p: int, e: int, f: int, d: int)
    requires p > 0 && low * p == 256 * h + e * p && d == e * p + f && 0 <= f && d < 256 && (h + 1) * 256 <= p * 256
    ensures low < 256
  {
    assert p * 256 == 256 * p;
    MulCancelStrict(low, 256, p);
  }

  /** Shift the remainder back down, from its leading digit to its lowest. */
  method Denormalise(remres: array<byte>, lv: nat, bits: nat)
    requires bits < 8 && 0 < lv <= remres.Length
    modifies remres
    ensures remres[..lv] == ShiftedDown(old(remres[..lv]), bits)
    ensures remres[lv..] == old(remres[lv..])
  {
    hide ShiftedDown, Bitwise;
    ghost var s := remres[..lv];
    ghost var high: byte := 0;
    var r: int := 0;
    var j := lv;
    while j > 0
      invariant 0 <= j <= lv
      invariant r == high as int * 256 && high == NextDigit(s, j)
      invariant remres[..j] == s[..j]
      invariant remres[j..lv] == ShiftedDown(s[j..], bits)
      invariant remres[lv..] == old(remres[lv..])
    {
      ghost var done := remres[j..lv];
      j := j - 1;
      ghost var low := s[j];
      assert remres[j] == remres[..j + 1][j] == low;
      OrLowByte(low, high);
      DownStep(s, j, bits, high, done);
      r := Bitwise(Or, r, remres[j]);
      remres[j] := (r / Pow2(bits)) % 256;
      r := (r % 256) * 256;
      assert remres[j..lv] == [remres[j]] + done;
      assert remres[..j] == s[..j];
      high := low;
    }
    assert remres[..lv] == remres[0..lv] && s[0..] == s;
  }

  /** The digit whose low bits are shifted into the digit below position j. */
  function NextDigit(s: seq<byte>, j: nat): byte
    requires j <= |s|
  {
    if j < |s| then s[j] else 0
  }

  lemma Pow2Eight()
    ensures Pow2(8) == 256
  {
    Pow2Values();
  }

  lemma OrLowByte(low: byte, high: byte)
    ensures Bitwise(Or, high as int * 256, low) == high as int * 256 + low
    ensures (high as int * 256 + low) % 256 == low
  {
    hide Bitwise, Pow2;
    Pow2Eight();
    OrDisjoint(8, low, high);
    OrCommutes(high as int * 256, low);
    DownLow(low, high, high as int * 256 + low);
  }

  lemma DownStep(s: seq<byte>, j: nat, bits: nat, high: byte, done: seq<byte>)
    requires j < |s| && high == NextDigit(s, j + 1) && done == ShiftedDown(s[j + 1..], bits)
    ensures [(high as int * 256 + s[j]) / Pow2(bits) % 256] + done == ShiftedDown(s[j..], bits)
  {
    assert s[j..][1..] == s[j + 1..];
  }

  // ---------- The whole division ----------

  /** Scaling both operands by p scales the remainder and leaves the quotient. */
  lemma ScaledDivision(u: nat, v: nat, p: nat)
    requires v > 0 && p > 0
    ensures v * p > 0 && (u * p) / (v * p) == u / v && (u * p) % (v * p) == (u % v) * p
  {
    DivMod(u, v);
    var q, r := u / v, u % v;
    MulStrict(0, v, p);
    MulStrict(r, v, p);
    MulNonNegative(r, p);
    MulDistribute(q * v, r, p);
    MulAssoc(q, v, p);
    DivisionUnique(u * p, v * p, q, r * p);
  }

  lemma ExactShiftDown(s: seq<byte>, bits: nat, r: nat)
    requires bits < 8 && |s| > 0 && Val(s) == r * Pow2(bits)
    ensures Val(ShiftedDown(s, bits)) == r
  {
    ShiftedDownVal(s, bits);
    ExactArithmetic(Val(s), Val(ShiftedDown(s, bits)), Pow2(bits), r, s[0]);
  }

  lemma ExactArithmetic(v: int, d: int, p: int, r: int, low: int)
    requires p > 0 && p * d == v - low % p && v == r * p
    ensures d == r
  {
    assert p * d == d * p;
    MulDistribute(r, -d, p);
    assert (-d) * p == -(d * p);
    OnlyMultiple(r - d, p, low % p);
  }

  /**
   The quotient and remainder of u by v, for a divisor whose leading byte is not zero and which is
   no longer than the dividend. The divisor is overwritten and divres may be absent.
   */
  method DivUnsignedLong(u: seq<byte>, v: array<byte>, remres: array<byte>, divres: array?<byte>, lu: nat, lv: nat)
    requires 0 < lv <= lu <= |u| && lv <= v.Length && lu < remres.Length
    requires divres != null ==> lu - lv < divres.Length
    requires v != remres && divres != remres && divres != v
    requires v[lv - 1] != 0
    modifies v, remres, if divres == null then {} else {divres}
    ensures old(Val(v[..lv])) > 0
    ensures Val(remres[..][..lv]) == Val(u[..lu]) % old(Val(v[..lv]))
    ensures divres != null ==> Val(divres[..lu - lv + 1]) == Val(u[..lu]) / old(Val(v[..lv]))
    ensures divres != null ==> divres[lu - lv + 1..] == old(divres[lu - lv + 1..])
    ensures remres[..][lu + 1..] == old(remres[..][lu + 1..])
  {
    ghost var divisor := Val(v[..lv]);
    ValLeading(v[..lv]);
    var bits := NormalisingShift(v[lv - 1]);
    SmallShift(bits);
    ScaledDivision(Val(u[..lu]), divisor, Pow2(bits));
    ShiftInto(u[..lu], bits, remres);
    assert remres[..][..lu + 1] == remres[..lu + 1];
    if bits != 0 {
      ShiftDivisor(v, lv, bits);
    }
    DivideDigits(remres, v[..lv], divres, lu);
    if bits != 0 {
      ghost var s := remres[..];
      assert s[..lv] == remres[..lv];
      ExactShiftDown(s[..lv], bits, Val(u[..lu]) % divisor);
      Denormalise(remres, lv, bits);
      assert remres[..][..lv] == remres[..lv];
      HighUnchanged(s, remres[..], lv, lu + 1);
    }
  }
}
