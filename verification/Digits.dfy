/** Little-endian base-256 numerals: the value of a vector of bytes. */
module Digits {
  import opened Arithmetic

  type byte = x: int | 0 <= x < 256

  function Pow256(n: nat): (p: nat)
    ensures p > 0
  {
    if n == 0 then 1 else 256 * Pow256(n - 1)
  }

  /** The unsigned value of a byte vector, low-order byte first. */
  function Val(s: seq<byte>): (v: nat) {
    if |s| == 0 then 0 else s[0] + 256 * Val(s[1..])
  }

  lemma Pow256Succ(n: nat)
    ensures Pow256(n + 1) == 256 * Pow256(n)
  {
  }

  lemma {:induction false} Pow256Add(m: nat, n: nat)
    ensures Pow256(m + n) == Pow256(m) * Pow256(n)
  {
    if n > 0 {
      Pow256Add(m, n - 1);
      var a, b := Pow256(m), Pow256(n - 1);
      assert Pow256(m + n) == 256 * Pow256(m + (n - 1));
      assert 256 * (a * b) == a * (256 * b);
    }
  }

  lemma {:induction false} Pow256Monotone(m: nat, n: nat)
    requires m <= n
    ensures Pow256(m) <= Pow256(n)
  {
    if m < n {
      Pow256Monotone(m, n - 1);
    }
  }

  /** A vector of n bytes is below 256^n. */
  lemma {:induction false} ValBound(s: seq<byte>)
    ensures Val(s) < Pow256(|s|)
  {
    if |s| > 0 {
      ValBound(s[1..]);
    }
  }

  lemma {:induction false} ValConcat(s: seq<byte>, t: seq<byte>)
    ensures Val(s + t) == Val(s) + Val(t) * Pow256(|s|)
  {
    if |s| == 0 {
      assert s + t == t;
    } else {
      ValConcat(s[1..], t);
      assert (s + t)[1..] == s[1..] + t;
      Pow256Succ(|s| - 1);
      ConcatArithmetic(Val(t), Pow256(|s| - 1));
    }
  }

  lemma ConcatArithmetic(t: int, p: int)
    ensures t * (256 * p) == 256 * (t * p)
  {
  }

  /** x followed by n zero digits. */
  function Shifted(x: nat, n: nat): nat {
    if n == 0 then x else 256 * Shifted(x, n - 1)
  }

  lemma {:induction false} ShiftedProduct(x: nat, n: nat)
    ensures Shifted(x, n) == x * Pow256(n)
  {
    if n > 0 {
      ShiftedProduct(x, n - 1);
      ConcatArithmetic(x, Pow256(n - 1));
    }
  }

  /** Appending a digit at the high-order end. */
  lemma ValAppend(s: seq<byte>, d: byte)
    ensures Val(s + [d]) == Val(s) + d * Pow256(|s|)
  {
    ValConcat(s, [d]);
    assert Val([d]) == d by { assert [d][1..] == []; }
  }

  lemma ValTake(s: seq<byte>, i: nat)
    requires i < |s|
    ensures Val(s[..i + 1]) == Val(s[..i]) + s[i] * Pow256(i)
  {
    assert s[..i + 1] == s[..i] + [s[i]];
    ValAppend(s[..i], s[i]);
  }

  lemma ValSplit(s: seq<byte>, i: nat)
    requires i <= |s|
    ensures Val(s) == Val(s[..i]) + Val(s[i..]) * Pow256(i)
  {
    assert s == s[..i] + s[i..];
    ValConcat(s[..i], s[i..]);
  }

  lemma {:induction false} ValZeros(s: seq<byte>)
    requires forall i :: 0 <= i < |s| ==> s[i] == 0
    ensures Val(s) == 0
  {
    if |s| > 0 {
      ValZeros(s[1..]);
    }
  }

  /** Leading zero bytes do not contribute. */
  lemma ValTrim(s: seq<byte>, n: nat)
    requires n <= |s|
    requires forall i :: n <= i < |s| ==> s[i] == 0
    ensures Val(s) == Val(s[..n])
  {
    ValSplit(s, n);
    ValZeros(s[n..]);
  }

  /** A non-zero leading byte bounds the value from below. */
  lemma ValLeading(s: seq<byte>)
    requires |s| > 0 && s[|s| - 1] > 0
    ensures Val(s) >= Pow256(|s| - 1)
  {
    var k := |s| - 1;
    ValTake(s, k);
    assert s[..k + 1] == s;
    MulMonotone(1, s[k], Pow256(k));
  }

  lemma {:induction false} ValZero(s: seq<byte>)
    requires Val(s) == 0
    ensures forall i :: 0 <= i < |s| ==> s[i] == 0
  {
    if |s| > 0 {
      ValZero(s[1..]);
      assert forall i :: 1 <= i < |s| ==> s[i] == s[1..][i - 1];
    }
  }

  /** A longer numeral with no leading zero is the larger number. */
  lemma ValLongerIsLarger(s: seq<byte>, t: seq<byte>)
    requires |s| < |t| && t[|t| - 1] > 0
    ensures Val(s) < Val(t)
  {
    ValBound(s);
    ValLeading(t);
    Pow256Monotone(|s|, |t| - 1);
  }

  /** With equal lengths the highest differing byte decides. */
  lemma ValHighestDifference(s: seq<byte>, t: seq<byte>, i: nat)
    requires |s| == |t| && i < |s|
    requires s[i] < t[i] && s[i + 1..] == t[i + 1..]
    ensures Val(s) < Val(t)
  {
    ValSplit(s, i + 1);
    ValSplit(t, i + 1);
    ValTake(s, i);
    ValTake(t, i);
    ValBound(s[..i]);
    HigherDigit(Val(s[..i]), s[i], Val(t[..i]), t[i], Pow256(i));
  }

  lemma HigherDigit(low: int, d: int, low': int, d': int, p: int)
    requires 0 <= low < p && 0 <= low' && d < d'
    ensures low + d * p < low' + d' * p
  {
    MulMonotone(d + 1, d', p);
    MulDistribute(d, 1, p);
  }

  /** Numerals of one length are determined by their value. */
  lemma {:induction false} ValInjective(s: seq<byte>, t: seq<byte>)
    requires |s| == |t| && Val(s) == Val(t)
    ensures s == t
  {
    if |s| > 0 {
      assert s[0] == Val(s) % 256 == t[0];
      ValInjective(s[1..], t[1..]);
      assert s == [s[0]] + s[1..];
      assert t == [t[0]] + t[1..];
    }
  }
}
