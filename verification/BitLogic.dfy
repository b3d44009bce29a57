/**
 Binary logical operations on integers read as infinite two's-complement bit strings:
 the reference meaning of the bytewise operations on sign-magnitude numbers.
 */
module BitLogic {
  import opened Arithmetic

  datatype LogicOp = And | Or | Xor {

    /** The operation on single bits. */
    predicate OnBits(a: bool, b: bool) {
      match this
      case And => a && b
      case Or => a || b
      case Xor => a != b
    }
  }

  function Pow2(n: nat): (p: nat)
    ensures p > 0
  {
    if n == 0 then 1 else 2 * Pow2(n - 1)
  }

  function Magnitude(x: int): nat {
    if x < 0 then -x - 1 else x
  }

  /** Bit k of x; a negative number has infinitely many leading ones. */
  predicate Bit(x: int, k: nat) {
    (x / Pow2(k)) % 2 == 1
  }

  function BitValue(b: bool): int {
    if b then 1 else 0
  }

  function Bitwise(op: LogicOp, x: int, y: int): int
    decreases Magnitude(x) + Magnitude(y)
  {
    if -1 <= x <= 0 && -1 <= y <= 0 then
      -BitValue(op.OnBits(x < 0, y < 0))
    else
      2 * Bitwise(op, x / 2, y / 2) + BitValue(op.OnBits(x % 2 == 1, y % 2 == 1))
  }

  /** The recursion equation also holds where the recursion stops. */
  lemma BitwiseStep(op: LogicOp, x: int, y: int)
    ensures Bitwise(op, x, y) == 2 * Bitwise(op, x / 2, y / 2) + BitValue(op.OnBits(x % 2 == 1, y % 2 == 1))
  {
  }

  lemma HalfOfPow2(x: int, k: nat)
    requires k > 0
    ensures x / Pow2(k) == (x / 2) / Pow2(k - 1)
  {
    var p := Pow2(k - 1);
    var h := x / 2;
    DivMod(h, p);
    var q := h / p;
    MulAssoc(2, q, p);
    assert (2 * q) * p == 2 * (q * p);
    assert x == 2 * (q * p) + (2 * (h % p) + x % 2);
    assert q * (2 * p) == 2 * (q * p);
    DivisionUnique(x, 2 * p, q, 2 * (h % p) + x % 2);
  }

  lemma BitShift(x: int, k: nat)
    requires k > 0
    ensures Bit(x, k) == Bit(x / 2, k - 1)
  {
    HalfOfPow2(x, k);
  }

  /** Every bit of the result is the operation on the corresponding bits of the arguments. */
  lemma {:induction false} BitwiseBit(op: LogicOp, x: int, y: int, k: nat)
    ensures Bit(Bitwise(op, x, y), k) == op.OnBits(Bit(x, k), Bit(y, k))
    decreases k
  {
    BitwiseStep(op, x, y);
    var z := Bitwise(op, x, y);
    var b := BitValue(op.OnBits(x % 2 == 1, y % 2 == 1));
    assert z / 2 == Bitwise(op, x / 2, y / 2) && z % 2 == b;
    if k > 0 {
      BitwiseBit(op, x / 2, y / 2, k - 1);
      BitShift(x, k);
      BitShift(y, k);
      BitShift(z, k);
    }
  }

  /** The sign of the result is the operation on the signs. */
  lemma {:induction false} BitwiseSign(op: LogicOp, x: int, y: int)
    ensures Bitwise(op, x, y) < 0 <==> op.OnBits(x < 0, y < 0)
    decreases Magnitude(x) + Magnitude(y)
  {
    if !(-1 <= x <= 0 && -1 <= y <= 0) {
      BitwiseSign(op, x / 2, y / 2);
    }
  }

  /** The two facts above determine the result. */
  lemma {:induction false} BitsDetermine(x: int, y: int)
    requires forall k: nat :: Bit(x, k) == Bit(y, k)
    requires x < 0 <==> y < 0
    ensures x == y
    decreases Magnitude(x) + Magnitude(y)
  {
    assert Bit(x, 0) == Bit(y, 0);
    if x != y {
      forall k: nat
        ensures Bit(x / 2, k) == Bit(y / 2, k)
      {
        BitShift(x, k + 1);
        BitShift(y, k + 1);
        assert Bit(x, k + 1) == Bit(y, k + 1);
      }
      BitsDetermine(x / 2, y / 2);
    }
  }

  lemma {:induction false} BitwiseLowRange(op: LogicOp, k: nat, a: int, b: int)
    requires 0 <= a < Pow2(k) && 0 <= b < Pow2(k)
    ensures 0 <= Bitwise(op, a, b) < Pow2(k)
    decreases k
  {
    if k > 0 {
      BitwiseLowRange(op, k - 1, a / 2, b / 2);
      BitwiseStep(op, a, b);
    }
  }

  /** The operation acts separately on the low k bits and on the rest. */
  lemma {:induction false} BitwiseSplit(op: LogicOp, k: nat, a: int, h: int, b: int, g: int)
    requires 0 <= a < Pow2(k) && 0 <= b < Pow2(k)
    ensures Bitwise(op, a + h * Pow2(k), b + g * Pow2(k)) == Bitwise(op, a, b) + Bitwise(op, h, g) * Pow2(k)
    decreases k
  {
    hide Bitwise;
    if k > 0 {
      var p := Pow2(k - 1);
      HalfSum(a, h, p);
      HalfSum(b, g, p);
      BitwiseSplit(op, k - 1, a / 2, h, b / 2, g);
      BitwiseStep(op, a + h * Pow2(k), b + g * Pow2(k));
      BitwiseStep(op, a, b);
      DoubleProduct(Bitwise(op, h, g), p);
    } else {
      BitwiseSplitZero(op, h, g);
    }
  }

  lemma BitwiseSplitZero(op: LogicOp, h: int, g: int)
    ensures Bitwise(op, 0 + h * Pow2(0), 0 + g * Pow2(0)) == Bitwise(op, 0, 0) + Bitwise(op, h, g) * Pow2(0)
  {
    assert Pow2(0) == 1;
    assert 0 + h * Pow2(0) == h && 0 + g * Pow2(0) == g;
    assert Bitwise(op, 0, 0) == 0;
  }

  lemma DoubleProduct(h: int, p: int)
    ensures h * (2 * p) == 2 * (h * p)
  {
  }

  lemma HalfSum(a: int, h: int, p: int)
    ensures (a + h * (2 * p)) / 2 == a / 2 + h * p
    ensures (a + h * (2 * p)) % 2 == a % 2
  {
    DoubleProduct(h, p);
  }

  /** Or-ing disjoint bit ranges adds them. */
  lemma OrDisjoint(k: nat, low: int, high: int)
    requires 0 <= low < Pow2(k)
    ensures Bitwise(Or, low, high * Pow2(k)) == low + high * Pow2(k)
  {
    BitwiseSplit(Or, k, low, 0, 0, high);
    OrZero(low);
    OrZero(high);
    OrCommutes(0, high);
    assert low + 0 * Pow2(k) == low;
    assert 0 + high * Pow2(k) == high * Pow2(k);
  }

  lemma {:induction false} OrZero(x: int)
    ensures Bitwise(Or, x, 0) == x
    decreases Magnitude(x)
  {
    if !(-1 <= x <= 0) {
      OrZero(x / 2);
    }
  }

  lemma {:induction false} OrCommutes(x: int, y: int)
    ensures Bitwise(Or, x, y) == Bitwise(Or, y, x)
    decreases Magnitude(x) + Magnitude(y)
  {
    if !(-1 <= x <= 0 && -1 <= y <= 0) {
      OrCommutes(x / 2, y / 2);
    }
  }
}
