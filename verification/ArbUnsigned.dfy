/** Schoolbook addition, subtraction, multiplication and comparison of byte vectors. */
module ArbUnsigned {
  import opened Arithmetic
  import opened Digits
  import opened PolyInts

  /**
   One step of every digit loop: add s to the running carry, store the low byte and
   keep the (possibly negative) rest as the next carry.
   */
  lemma AddDigit(w: seq<byte>, carry: int, s: int)
    ensures Val(w + [(carry + s) % 256]) + ((carry + s) / 256) * Pow256(|w| + 1)
         == Val(w) + carry * Pow256(|w|) + s * Pow256(|w|)
  {
    ValAppend(w, (carry + s) % 256);
    Pow256Succ(|w|);
    AddDigitArithmetic(Val(w), Pow256(|w|), Pow256(|w| + 1), carry, s);
  }

  lemma AddDigitArithmetic(v: int, p: int, q: int, carry: int, s: int)
    requires q == 256 * p
    ensures v + ((carry + s) % 256) * p + ((carry + s) / 256) * q == v + carry * p + s * p
  {
    DigitStep(carry + s, p);
    MulDistribute(carry, s, p);
  }

  /** The value of u[..i+1] from that of u[..i], when the vectors are array prefixes. */
  lemma PrefixStep(u: seq<byte>, i: nat)
    requires i < |u|
    ensures u[..i + 1] == u[..i] + [u[i]]
    ensures Val(u[..i + 1]) == Val(u[..i]) + u[i] * Pow256(i)
  {
    ValTake(u, i);
  }

  /** |x| + |y| with the given sign. */
  method AddUnsignedLong(x: seq<byte>, y: seq<byte>, negative: bool) returns (r: PolyInt)
    ensures Canonical(r) && r.Value() == Signed(negative, Val(x) + Val(y))
  {
    var lx := GetLength(x);
    var ly := GetLength(y);
    TrimmedVal(x);
    TrimmedVal(y);
    var w: array<byte>;
    if lx < ly {
      w := AllocAndSave(ly + 1);
      AddDigits(y[..ly], x[..lx], w);
    } else {
      w := AllocAndSave(lx + 2);
      AddDigits(x[..lx], y[..ly], w);
    }
    r := MakeCanonical(w, negative);
  }

  /** The digits of u + v + carry, for v no longer than u, with one digit for the last carry. */
  function SumDigits(u: seq<byte>, v: seq<byte>, carry: byte): (w: seq<byte>)
    requires |v| <= |u| && carry <= 1
    ensures |w| == |u| + 1
  {
    if |u| == 0 then [carry]
    else if |v| == 0 then [(carry + u[0]) % 256] + SumDigits(u[1..], v, (carry + u[0]) / 256)
    else [(carry + u[0] + v[0]) % 256] + SumDigits(u[1..], v[1..], (carry + u[0] + v[0]) / 256)
  }

  lemma {:induction false} SumDigitsVal(u: seq<byte>, v: seq<byte>, carry: byte)
    requires |v| <= |u| && carry <= 1
    ensures Val(SumDigits(u, v, carry)) == Val(u) + Val(v) + carry
  {
    if |u| > 0 {
      var t := carry + u[0] + if |v| == 0 then 0 else v[0];
      var rest := SumDigits(u[1..], if |v| == 0 then v else v[1..], t / 256);
      SumDigitsVal(u[1..], if |v| == 0 then v else v[1..], t / 256);
      assert ([t % 256] + rest)[1..] == rest;
    }
  }

  lemma SumStep(w: seq<byte>, u: seq<byte>, v: seq<byte>, i: nat, carry: byte, t: nat)
    requires i < |v| <= |u| && carry <= 1 && t == carry + u[i] + v[i]
    ensures t / 256 <= 1
    ensures w + SumDigits(u[i..], v[i..], carry) == w + [t % 256] + SumDigits(u[i + 1..], v[i + 1..], t / 256)
  {
    assert u[i..][1..] == u[i + 1..] && v[i..][1..] == v[i + 1..];
  }

  lemma CarryStep(w: seq<byte>, u: seq<byte>, i: nat, carry: byte, t: nat)
    requires i < |u| && carry <= 1 && t == carry + u[i]
    ensures t / 256 <= 1
    ensures w + SumDigits(u[i..], [], carry) == w + [t % 256] + SumDigits(u[i + 1..], [], t / 256)
  {
    assert u[i..][1..] == u[i + 1..];
  }

  /** The digit loops of the addition; u is the longer operand. */
  method AddDigits(u: seq<byte>, v: seq<byte>, w: array<byte>)
    requires |v| <= |u| < w.Length
    requires forall k :: 0 <= k < w.Length ==> w[k] == 0
    modifies w
    ensures Val(w[..]) == Val(u) + Val(v)
  {
    hide Val, SumDigits;
    var carry: int := 0;
    var i := 0;
    while i < |v|
      invariant 0 <= i <= |v| && 0 <= carry <= 1
      invariant w[..i] + SumDigits(u[i..], v[i..], carry) == SumDigits(u, v, 0)
      invariant forall k :: |u| + 1 <= k < w.Length ==> w[k] == 0
    {
      ghost var was := w[..i];
      SumStep(was, u, v, i, carry, carry + u[i] as int + v[i] as int);
      carry := carry + u[i] as int + v[i] as int;
      w[i] := carry % 256;
      assert w[..i + 1] == was + [carry % 256];
      carry := carry / 256;
      i := i + 1;
    }
    AddCarry(u, w, i, carry);
    SumDigitsVal(u, v, 0);
    ValTrim(w[..], |u| + 1);
    assert w[..][..|u| + 1] == w[..|u| + 1];
  }

  /** Add the carry to the rest of the longer operand and store what is left of it. */
  method AddCarry(u: seq<byte>, w: array<byte>, start: nat, carryIn: byte)
    requires start <= |u| < w.Length && carryIn <= 1
    modifies w
    ensures w[..|u| + 1] == old(w[..start]) + SumDigits(u[start..], [], carryIn)
    ensures w[|u| + 1..] == old(w[|u| + 1..])
  {
    var carry: int := carryIn;
    var i := start;
    while i < |u|
      invariant start <= i <= |u| && 0 <= carry <= 1
      invariant w[..i] + SumDigits(u[i..], [], carry) == old(w[..start]) + SumDigits(u[start..], [], carryIn)
      invariant w[|u| + 1..] == old(w[|u| + 1..])
    {
      ghost var was := w[..i];
      CarryStep(was, u, i, carry, carry + u[i]);
      carry := carry + u[i];
      w[i] := carry % 256;
      assert w[..i + 1] == was + [carry % 256];
      carry := carry / 256;
      i := i + 1;
    }
    ghost var was := w[..i];
    w[i] := carry;
    assert w[..i + 1] == was + [carry];
  }

  /** |x| - |y| with the given sign, or the opposite sign when |y| is the larger. */
  method SubUnsignedLong(x: seq<byte>, y: seq<byte>, negative: bool) returns (r: PolyInt)
    ensures Canonical(r) && r.Value() == Signed(negative, Val(x) - Val(y))
  {
    hide Val, Canonical;
    var lx := GetLength(x);
    var ly := GetLength(y);
    TrimmedVal(x);
    TrimmedVal(y);
    var u, v, lu, lv, sign;
    if lx < ly {
      u, lu, v, lv, sign := y, ly, x, lx, !negative;
      TrimmedByValue(x, y);
    } else if ly < lx {
      u, lu, v, lv, sign := x, lx, y, ly, negative;
      TrimmedByValue(y, x);
    } else {
      var i := lx;
      while i > 0 && x[i - 1] == y[i - 1]
        invariant 0 <= i <= lx
        invariant x[i..lx] == y[i..lx]
      {
        i := i - 1;
        assert x[i..lx] == [x[i]] + x[i + 1..lx];
        assert y[i..lx] == [y[i]] + y[i + 1..lx];
      }
      if i == 0 {
        assert x[..lx] == x[0..lx] && y[..lx] == y[0..lx];
        ZeroCanonical();
        return Short(0);
      }
      DecideAt(x[..lx], y[..lx], i - 1);
      if x[i - 1] < y[i - 1] {
        u, lu, v, lv, sign := y, ly, x, lx, !negative;
      } else {
        u, lu, v, lv, sign := x, lx, y, ly, negative;
      }
    }
    r := SubtractSmaller(u[..lu], v[..lv], sign);
  }

  lemma ZeroCanonical()
    ensures Canonical(Short(0))
  {
    ShortZero();
  }

  lemma DecideAt(s: seq<byte>, t: seq<byte>, i: nat)
    requires |s| == |t| && i < |s|
    requires s[i] != t[i] && s[i + 1..] == t[i + 1..]
    ensures s[i] < t[i] <==> Val(s) < Val(t)
    ensures Val(s) != Val(t)
  {
    if s[i] < t[i] {
      ValHighestDifference(s, t, i);
    } else {
      ValHighestDifference(t, s, i);
    }
  }

  /** The digit loops of the subtraction, once the larger operand is known. */
  method SubtractSmaller(u: seq<byte>, v: seq<byte>, negative: bool) returns (r: PolyInt)
    requires |v| <= |u| && Val(v) <= Val(u)
    ensures Canonical(r) && r.Value() == Signed(negative, Val(u) - Val(v))
  {
    var w := AllocAndSave(|u| + 1);
    SubtractDigits(u, v, w);
    r := MakeCanonical(w, negative);
  }

  /** The digits of u - v, for v no longer than u; borrow is 1 when nothing is owed and 0 otherwise. */
  function DifferenceDigits(u: seq<byte>, v: seq<byte>, borrow: int): (w: seq<byte>)
    requires |v| <= |u| && 0 <= borrow <= 1
    ensures |w| == |u|
  {
    if |u| == 0 then []
    else
      var t := DifferenceDigit(u, v, borrow);
      [t % 256] + DifferenceDigits(u[1..], if |v| == 0 then v else v[1..], t / 256)
  }

  function DifferenceDigit(u: seq<byte>, v: seq<byte>, borrow: int): (t: int)
    requires |v| <= |u| && 0 <= borrow <= 1 && |u| > 0
    ensures 0 <= t < 512
  {
    var a: int := u[0];
    var b: int := if |v| == 0 then 0 else v[0];
    borrow + (255 + a - b)
  }

  /** Modulo 256^|u| the digits are those of the difference; no borrow remains if v is the smaller. */
  lemma {:induction false} DifferenceDigitsVal(u: seq<byte>, v: seq<byte>, borrow: int)
    requires |v| <= |u| && 0 <= borrow <= 1
    requires Val(v) + 1 - borrow <= Val(u)
    ensures Val(DifferenceDigits(u, v, borrow)) == Val(u) - Val(v) - 1 + borrow
  {
    if |u| > 0 {
      var t := DifferenceDigit(u, v, borrow);
      var v' := if |v| == 0 then v else v[1..];
      var rest := DifferenceDigits(u[1..], v', t / 256);
      DifferenceDigitsVal(u[1..], v', t / 256);
      assert ([t % 256] + rest)[1..] == rest;
    }
  }

  lemma DifferenceStep(w: seq<byte>, u: seq<byte>, v: seq<byte>, i: nat, borrow: int)
    requires i < |v| <= |u| && 0 <= borrow <= 1
    ensures var t := DifferenceDigit(u[i..], v[i..], borrow);
      w + DifferenceDigits(u[i..], v[i..], borrow)
      == w + [t % 256] + DifferenceDigits(u[i + 1..], v[i + 1..], t / 256)
  {
    assert u[i..][1..] == u[i + 1..] && v[i..][1..] == v[i + 1..];
  }

  lemma BorrowStep(w: seq<byte>, u: seq<byte>, i: nat, borrow: int)
    requires i < |u| && 0 <= borrow <= 1
    ensures var t := DifferenceDigit(u[i..], [], borrow);
      w + DifferenceDigits(u[i..], [], borrow)
      == w + [t % 256] + DifferenceDigits(u[i + 1..], [], t / 256)
  {
    assert u[i..][1..] == u[i + 1..];
  }

  /** The digit loops of the subtraction; v is the smaller number. */
  method SubtractDigits(u: seq<byte>, v: seq<byte>, w: array<byte>)
    requires |v| <= |u| < w.Length && Val(v) <= Val(u)
    requires forall k :: 0 <= k < w.Length ==> w[k] == 0
    modifies w
    ensures Val(w[..]) == Val(u) - Val(v)
  {
    var borrow := 1;  // becomes 0 if there is a borrow
    var i := 0;
    while i < |v|
      invariant 0 <= i <= |v| && 0 <= borrow <= 1
      invariant w[..i] + DifferenceDigits(u[i..], v[i..], borrow) == DifferenceDigits(u, v, 1)
      invariant forall k :: |u| <= k < w.Length ==> w[k] == 0
    {
      ghost var was := w[..i];
      DifferenceStep(was, u, v, i, borrow);
      borrow := borrow + (255 + u[i] as int - v[i] as int);
      w[i] := borrow % 256;
      assert w[..i + 1] == was + [borrow % 256];
      borrow := borrow / 256;
      i := i + 1;
    }
    PropagateBorrow(u, w, i, borrow);
    DifferenceDigitsVal(u, v, 1);
    ValTrim(w[..], |u|);
    assert w[..][..|u|] == w[..|u|];
  }

  /** Take the borrow from the rest of the larger operand. */
  method PropagateBorrow(u: seq<byte>, w: array<byte>, start: nat, borrowIn: int)
    requires start <= |u| < w.Length && 0 <= borrowIn <= 1
    modifies w
    ensures w[..|u|] == old(w[..start]) + DifferenceDigits(u[start..], [], borrowIn)
    ensures w[|u|..] == old(w[|u|..])
  {
    var borrow := borrowIn;
    var i := start;
    while i < |u|
      invariant start <= i <= |u| && 0 <= borrow <= 1
      invariant w[..i] + DifferenceDigits(u[i..], [], borrow)
             == old(w[..start]) + DifferenceDigits(u[start..], [], borrowIn)
      invariant w[|u|..] == old(w[|u|..])
    {
      ghost var was := w[..i];
      BorrowStep(was, u, i, borrow);
      borrow := borrow + (255 + u[i] as int);
      w[i] := borrow % 256;
      assert w[..i + 1] == was + [borrow % 256];
      borrow := borrow / 256;
      i := i + 1;
    }
  }

  /** The product of two magnitudes, accumulated row by row into a zero-filled result. */
  method MultiplyUnsigned(u: seq<byte>, v: seq<byte>, w: array<byte>)
    requires w.Length > |u| + |v|
    requires forall i :: 0 <= i < w.Length ==> w[i] == 0
    modifies w
    ensures Val(w[..]) == Val(u) * Val(v)
  {
    var i := 0;
    ValZeros(w[..|v|]);
    while i < |u|
      invariant 0 <= i <= |u|
      invariant Val(w[..i + |v|]) == Val(u[..i]) * Val(v)
      invariant forall k :: i + |v| <= k < w.Length ==> w[k] == 0
    {
      ghost var row := w[..];
      assert row[..i + |v|] == w[..i + |v|];
      MultiplyRow(u[i], v, w, i);
      RowDone(row, w[..], u, |v|, Val(v), i);
      assert w[..][i..i + |v|] == w[i..i + |v|] && row[i..i + |v|] == row[..][i..i + |v|];
      assert w[..i + 1 + |v|] == w[..][..i + 1 + |v|];
      i := i + 1;
    }
    assert u[..i] == u;
    ValTrim(w[..], i + |v|);
    assert w[..][..i + |v|] == w[..i + |v|];
  }

  /** The inner loop: add d times v into the result at digit i and store the final carry. */
  method MultiplyRow(d: byte, v: seq<byte>, w: array<byte>, i: nat)
    requires i + |v| < w.Length
    modifies w
    ensures w[..i] == old(w[..i]) && w[i + |v| + 1..] == old(w[i + |v| + 1..])
    ensures Val(w[i..i + |v|]) + w[i + |v|] * Pow256(|v|) == Val(old(w[i..i + |v|])) + d * Val(v)
  {
    ghost var row := w[..];
    assert row[i..i + |v|] == w[i..i + |v|];
    var r := 0;
    var j := 0;
    while j < |v|
      invariant 0 <= j <= |v| && 0 <= r <= 255
      invariant w[..i] == row[..i]
      invariant forall k :: i + j <= k < w.Length ==> w[k] == row[k]
      invariant Val(w[i..i + j]) + r * Pow256(j) == Val(row[i..i + j]) + d * Val(v[..j])
    {
      ghost var was, carry := w[..], r;
      MulRange(d, v[j]);
      var a: int, b: int, c: int := d, v[j], w[i + j];
      r := r + (a * b + c);
      w[i + j] := r % 256;
      r := r / 256;
      MultiplyStep(was, w[..], row, i, j, d, v, carry);
      assert w[i..i + j + 1] == w[..][i..i + j + 1] && was[i..i + j] == w[i..i + j];
      j := j + 1;
    }
    assert v[..j] == v;
    ghost var was := w[..];
    w[i + j] := r;
    assert w[i..i + j] == was[i..i + j];
  }

  lemma MulRange(a: byte, b: byte)
    ensures 0 <= a * b <= 255 * 255
  {
    MulMonotone(a, 255, b);
    MulNonNegative(a, b);
  }

  lemma MultiplyStep(was: seq<byte>, now: seq<byte>, row: seq<byte>, i: nat, j: nat, a: byte, v: seq<byte>, carry: int)
    requires |was| == |now| == |row| && i + j < |was| && j < |v|
    requires was[i + j] == row[i + j]
    requires now == was[i + j := (carry + (a * v[j] + was[i + j])) % 256]
    requires Val(was[i..i + j]) + carry * Pow256(j) == Val(row[i..i + j]) + a * Val(v[..j])
    ensures Val(now[i..i + j + 1]) + ((carry + (a * v[j] + was[i + j])) / 256) * Pow256(j + 1)
         == Val(row[i..i + j + 1]) + a * Val(v[..j + 1])
  {
    var s := a * v[j] + was[i + j];
    AddDigit(was[i..i + j], carry, s);
    assert now[i..i + j + 1] == was[i..i + j] + [(carry + s) % 256];
    assert row[i..i + j + 1] == row[i..i + j] + [row[i + j]];
    ValAppend(row[i..i + j], row[i + j]);
    PrefixStep(v, j);
    MultiplyArithmetic(a, v[j], row[i + j], Val(v[..j]), Pow256(j));
  }

  lemma MultiplyArithmetic(a: int, d: int, e: int, v: int, p: int)
    ensures (a * d + e) * p == a * (v + d * p) - a * v + e * p
  {
    MulDistribute(a * d, e, p);
    MulAssoc(a, d, p);
    MulSum(a, v, d * p);
  }

  lemma MulSum(a: int, b: int, c: int)
    ensures a * (b + c) == a * b + a * c
  {
  }

  lemma RowDone(row: seq<byte>, now: seq<byte>, u: seq<byte>, lv: nat, v: int, i: nat)
    requires |row| == |now| && i + lv < |row| && i < |u|
    requires now[..i] == row[..i]
    requires Val(now[i..i + lv]) + now[i + lv] * Pow256(lv) == Val(row[i..i + lv]) + u[i] * v
    requires Val(row[..i + lv]) == Val(u[..i]) * v
    ensures Val(now[..i + 1 + lv]) == Val(u[..i + 1]) * v
  {
    var low, mid := Val(row[..i]), Val(row[i..i + lv]);
    assert low + mid * Pow256(i) == Val(row[..i + lv]) by {
      assert row[..i + lv] == row[..i] + row[i..i + lv];
      ValConcat(row[..i], row[i..i + lv]);
    }
    assert Val(now[..i + 1 + lv]) == low + (mid + u[i] * v) * Pow256(i) by {
      RowValue(now, i, i + lv);
    }
    assert Val(u[..i + 1]) == Val(u[..i]) + u[i] * Pow256(i) by {
      PrefixStep(u, i);
    }
    RowArithmetic(low, mid, u[i], v, Val(u[..i]), Val(u[..i + 1]), Pow256(i));
  }

  lemma RowValue(now: seq<byte>, i: nat, n: nat)
    requires i <= n < |now|
    ensures Val(now[..n + 1]) == Val(now[..i]) + (Val(now[i..n]) + now[n] * Pow256(n - i)) * Pow256(i)
  {
    assert now[..n + 1] == now[..i] + (now[i..n] + [now[n]]);
    ValConcat(now[..i], now[i..n] + [now[n]]);
    ValAppend(now[i..n], now[n]);
  }

  lemma RowArithmetic(low: int, row: int, a: int, v: int, u: int, u': int, p: int)
    requires low + row * p == u * v
    requires u' == u + a * p
    ensures low + (row + a * v) * p == u' * v
  {
    MulDistribute(row, a * v, p);
    MulDistribute(u, a * p, v);
    MulAssoc(a, v, p);
    MulAssoc(a, p, v);
    assert v * p == p * v;
  }

  /** -1, 0 or 1 as the first magnitude is less than, equal to or greater than the second. */
  method CompareUnsigned(x: seq<byte>, y: seq<byte>) returns (c: int)
    ensures c == if Val(x) < Val(y) then -1 else if Val(x) == Val(y) then 0 else 1
  {
    var lx := GetLength(x);
    var ly := GetLength(y);
    TrimmedVal(x);
    TrimmedVal(y);
    if lx != ly {
      if lx > ly {
        TrimmedByValue(y, x);
        return 1;
      } else {
        TrimmedByValue(x, y);
        return -1;
      }
    }
    var u, v := x[..lx], y[..lx];
    var i := lx;
    while i > 0
      invariant 0 <= i <= lx
      invariant u[i..] == v[i..]
    {
      i := i - 1;
      if u[i] != v[i] {
        DecideAt(u, v, i);
        return if u[i] > v[i] then 1 else -1;
      }
      assert u[i..] == [u[i]] + u[i + 1..];
      assert v[i..] == [v[i]] + v[i + 1..];
    }
    assert u == u[0..] && v == v[0..];
    return 0;
  }
}
