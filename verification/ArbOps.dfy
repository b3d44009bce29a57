/** The arbitrary-precision operations on integers of mixed short and long form. */
module ArbOps {
  import opened Arithmetic
  import opened BitLogic
  import opened Digits
  import opened PolyInts
  import opened ArbUnsigned
  import opened ArbDivide
  import opened ArbLogical

  datatype Result<T> = Ok(value: T) | DivideError

  method NegLong(x: PolyInt) returns (r: PolyInt)
    requires Canonical(x)
    ensures Canonical(r) && r.Value() == -x.Value()
  {
    if x.Short? && x.n != -MAXTAGGED - 1 {
      return Short(-x.n);
    }
    var u, negative := GetLong(x);
    var lx := GetLength(u);
    TrimmedVal(u);
    NotZero(x);
    var y := CopyLong(u, lx);
    assert y[..][..lx] == y[..lx];
    ValTrim(y[..], lx);
    r := MakeCanonical(y, !negative);
  }

  /** Only the short form of zero has no magnitude bytes. */
  lemma NotZero(x: PolyInt)
    requires Canonical(x) && (x.Long? || x.n == -MAXTAGGED - 1)
    ensures x.Value() != 0
  {
    ShortZero();
  }

  method AddLong(x: PolyInt, y: PolyInt) returns (r: PolyInt)
    requires Canonical(x) && Canonical(y)
    ensures Canonical(r) && r.Value() == x.Value() + y.Value()
  {
    if x.Short? && y.Short? {
      var t := x.n + y.n;
      if t <= MAXTAGGED && t >= -MAXTAGGED - 1 {
        return Short(t);
      }
    }
    var u, signX := GetLong(x);
    var v, signY := GetLong(y);
    if signX == signY {
      r := AddUnsignedLong(u, v, signX);
    } else {
      r := SubUnsignedLong(u, v, signX);
    }
  }

  method SubLong(x: PolyInt, y: PolyInt) returns (r: PolyInt)
    requires Canonical(x) && Canonical(y)
    ensures Canonical(r) && r.Value() == x.Value() - y.Value()
  {
    if x.Short? && y.Short? {
      var t := x.n - y.n;
      if t <= MAXTAGGED && t >= -MAXTAGGED - 1 {
        return Short(t);
      }
    }
    var u, signX := GetLong(x);
    var v, signY := GetLong(y);
    if signX != signY {
      r := AddUnsignedLong(u, v, signX);
    } else {
      r := SubUnsignedLong(u, v, signX);
    }
  }

  method MultLong(x: PolyInt, y: PolyInt) returns (r: PolyInt)
    requires Canonical(x) && Canonical(y)
    ensures Canonical(r) && r.Value() == x.Value() * y.Value()
  {
    var u, signX := GetLong(x);
    var v, signY := GetLong(y);
    var lx := GetLength(u);
    var ly := GetLength(v);
    TrimmedVal(u);
    TrimmedVal(v);
    SignedProduct(signX, Val(u), signY, Val(v));
    if lx == 0 || ly == 0 {
      ShortZero();
      return Short(0);
    }
    var z := AllocAndSave(lx + ly + 1);
    MultiplyUnsigned(u[..lx], v[..ly], z);
    r := MakeCanonical(z, signX != signY);
  }

  lemma SignedProduct(sx: bool, x: int, sy: bool, y: int)
    ensures Signed(sx, x) * Signed(sy, y) == Signed(sx != sy, x * y)
    ensures x == 0 || y == 0 ==> x * y == 0
  {
    assert (-x) * y == -(x * y) && x * (-y) == -(x * y) && (-x) * (-y) == x * y;
  }

  // ---------- Division ----------

  function Abs(x: int): (a: nat) {
    if x < 0 then -x else x
  }

  /** Quotient and remainder truncating towards zero, as the machine divides. */
  function Quot(x: int, y: int): int
    requires y != 0
  {
    Signed((x < 0) != (y < 0), Abs(x) / Abs(y))
  }

  function Rem(x: int, y: int): int
    requires y != 0
  {
    Signed(x < 0, Abs(x) % Abs(y))
  }

  /** The defining property of truncating division. */
  lemma QuotRemProperty(x: int, y: int)
    requires y != 0
    ensures x == Quot(x, y) * y + Rem(x, y)
    ensures Abs(Rem(x, y)) < Abs(y)
    ensures Rem(x, y) == 0 || (Rem(x, y) < 0 <==> x < 0)
  {
    DivMod(Abs(x), Abs(y));
    SignedProduct((x < 0) != (y < 0), Abs(x) / Abs(y), y < 0, Abs(y));
    assert Signed(y < 0, Abs(y)) == y;
  }

  /** Two such pairs differ by a multiple of y smaller than y. */
  lemma SamePair(y: int, q: int, r: int, q': int, r': int)
    requires y > 0 && q * y + r == q' * y + r' && -y < r' - r < y
    ensures q == q' && r == r'
  {
    MulDistribute(q, 0 - q', y);
    assert (0 - q') * y == 0 - q' * y;
    OnlyMultiple(q - q', y, r' - r);
  }

  /** No other pair has the property. */
  lemma QuotRemUnique(x: int, y: int, q: int, r: int)
    requires y != 0 && x == q * y + r && Abs(r) < Abs(y)
    requires r == 0 || (r < 0 <==> x < 0)
    ensures q == Quot(x, y) && r == Rem(x, y)
  {
    hide Quot, Rem;
    QuotRemProperty(x, y);
    var q', r' := Quot(x, y), Rem(x, y);
    if y > 0 {
      SamePair(y, q, r, q', r');
    } else {
      Negated(q, y);
      Negated(q', y);
      SamePair(0 - y, 0 - q, r, 0 - q', r');
    }
  }

  lemma Negated(q: int, y: int)
    ensures (0 - q) * (0 - y) == q * y
  {
  }

  /** Dividing magnitudes divides the signed numbers. */
  lemma SignedDivision(x: int, y: int)
    requires y != 0
    ensures Abs(x) < Abs(y) ==> Quot(x, y) == 0 && Rem(x, y) == x
  {
    if Abs(x) < Abs(y) {
      DivisionUnique(Abs(x), Abs(y), 0, Abs(x));
    }
  }

  /** The common code of division and remainder: the remainder and the quotient. */
  method QuotRem(x: PolyInt, y: PolyInt) returns (r: Result<(PolyInt, PolyInt)>)
    requires Canonical(x) && Canonical(y)
    ensures y.Value() == 0 <==> r.DivideError?
    ensures r.Ok? ==> Canonical(r.value.0) && Canonical(r.value.1)
    ensures r.Ok? ==> r.value.0.Value() == Rem(x.Value(), y.Value()) && r.value.1.Value() == Quot(x.Value(), y.Value())
  {
    if x.Short? && y.Short? {
      if y.n == 0 {
        return DivideError;
      }
      if x.n != -MAXTAGGED - 1 || y.n != -1 {
        ShortQuotient(x.n, y.n);
        return Ok((Short(Rem(x.n, y.n)), Short(Quot(x.n, y.n))));
      }
    }
    var u, signX := GetLong(x);
    var v, signY := GetLong(y);
    var lx := GetLength(u);
    var ly := GetLength(v);
    TrimmedVal(u);
    TrimmedVal(v);
    if ly == 0 {
      return DivideError;
    }
    ValLeading(v[..ly]);
    if lx < ly {
      TrimmedByValue(u, v);
      SignedDivision(x.Value(), y.Value());
      ShortZero();
      return Ok((x, Short(0)));
    }
    var rem, quot := DivideLong(u, v, lx, ly, signX, signY);
    r := Ok((rem, quot));
  }

  /** The only short quotient out of range is the least integer by minus one. */
  lemma ShortQuotient(x: int, y: int)
    requires FitsShort(x) && FitsShort(y) && y != 0
    requires x != -MAXTAGGED - 1 || y != -1
    ensures FitsShort(Quot(x, y)) && FitsShort(Rem(x, y))
  {
    DivBounds(Abs(x), Abs(y));
    ShortZero();
  }

  lemma DivBounds(a: nat, b: nat)
    requires b > 0
    ensures 0 <= a / b <= a && 0 <= a % b <= a
    ensures b >= 2 ==> 2 * (a / b) <= a
    ensures b == 1 ==> a / b == a
  {
    DivMod(a, b);
    MulMonotone(1, b, a / b);
    assert (a / b) * b == b * (a / b);
    if b >= 2 {
      MulMonotone(2, b, a / b);
    }
  }

  /** Long division of the magnitudes, with the signs put back. */
  method DivideLong(u: seq<byte>, v: seq<byte>, lx: nat, ly: nat, signX: bool, signY: bool) returns (rem: PolyInt, quot: PolyInt)
    requires lx == Trimmed(u) && ly == Trimmed(v) && 0 < ly <= lx
    ensures Val(v) > 0 && Canonical(rem) && Canonical(quot)
    ensures rem.Value() == Rem(Signed(signX, Val(u)), Signed(signY, Val(v)))
    ensures quot.Value() == Quot(Signed(signX, Val(u)), Signed(signY, Val(v)))
  {
    TrimmedVal(u);
    TrimmedVal(v);
    // copy in case it needs shifting
    var longY := CopyLong(v, ly);
    var divRes := AllocAndSave(lx - ly + 1);
    var remRes := AllocAndSave(lx + 1);
    DivideBytes(u, longY, remRes, divRes, lx, ly);
    ValLeading(v[..ly]);
    SignedQuotient(signX, Val(u), signY, Val(v));
    rem := MakeCanonical(remRes, signX);
    quot := MakeCanonical(divRes, signX != signY);
  }

  lemma SignedQuotient(sx: bool, x: nat, sy: bool, y: nat)
    requires y > 0
    ensures Rem(Signed(sx, x), Signed(sy, y)) == Signed(sx, x % y)
    ensures Quot(Signed(sx, x), Signed(sy, y)) == Signed(sx != sy, x / y)
  {
    if x == 0 {
      DivisionUnique(0, y, 0, 0);
    }
  }

  method CopyLong(x: seq<byte>, lx: nat) returns (y: array<byte>)
    requires 0 < lx <= |x|
    ensures fresh(y) && lx <= y.Length && y.Length >= WORD && y.Length % WORD == 0
    ensures y[..lx] == x[..lx]
    ensures forall i :: lx <= i < y.Length ==> y[i] == 0
  {
    y := AllocAndSave(lx);
    forall i | 0 <= i < lx {
      y[i] := x[i];
    }
  }

  /** The unsigned division into zero-filled result objects, clearing what is above the remainder. */
  method DivideBytes(u: seq<byte>, v: array<byte>, remRes: array<byte>, divRes: array<byte>, lx: nat, ly: nat)
    requires 0 < ly <= lx <= |u| && ly <= v.Length && lx < remRes.Length && lx - ly < divRes.Length
    requires v != remRes && divRes != remRes && divRes != v
    requires v[ly - 1] != 0
    requires forall k :: 0 <= k < remRes.Length ==> remRes[k] == 0
    requires forall k :: 0 <= k < divRes.Length ==> divRes[k] == 0
    modifies v, remRes, divRes
    ensures old(Val(v[..ly])) > 0
    ensures Val(remRes[..]) == Val(u[..lx]) % old(Val(v[..ly]))
    ensures Val(divRes[..]) == Val(u[..lx]) / old(Val(v[..ly]))
  {
    DivUnsignedLong(u, v, remRes, divRes, lx, ly);
    ghost var low := remRes[..][..ly];
    assert forall k :: lx + 1 <= k < remRes.Length ==> remRes[k] == remRes[..][lx + 1..][k - lx - 1] == 0;
    assert forall k :: lx - ly + 1 <= k < divRes.Length ==> divRes[k] == divRes[lx - ly + 1..][k - lx + ly - 1] == 0;
    ValTrim(divRes[..], lx - ly + 1);
    assert divRes[..][..lx - ly + 1] == divRes[..lx - ly + 1];
    ClearBytes(remRes, ly, lx + 1);
    assert remRes[..][..ly] == low;
    ValTrim(remRes[..], ly);
  }

  /** Clear the bytes above the remainder. */
  method ClearBytes(a: array<byte>, from: nat, to: nat)
    requires from <= to <= a.Length
    modifies a
    ensures forall k :: 0 <= k < a.Length ==> a[k] == if from <= k < to then 0 else old(a[k])
  {
    var i := from;
    while i < to
      invariant from <= i <= to
      invariant forall k :: 0 <= k < a.Length ==> a[k] == if from <= k < i then 0 else old(a[k])
    {
      a[i] := 0;
      i := i + 1;
    }
  }

  method DivLong(x: PolyInt, y: PolyInt) returns (r: Result<PolyInt>)
    requires Canonical(x) && Canonical(y)
    ensures y.Value() == 0 <==> r.DivideError?
    ensures r.Ok? ==> Canonical(r.value) && r.value.Value() == Quot(x.Value(), y.Value())
  {
    var both := QuotRem(x, y);
    r := if both.Ok? then Ok(both.value.1) else DivideError;
  }

  method RemLong(x: PolyInt, y: PolyInt) returns (r: Result<PolyInt>)
    requires Canonical(x) && Canonical(y)
    ensures y.Value() == 0 <==> r.DivideError?
    ensures r.Ok? ==> Canonical(r.value) && r.value.Value() == Rem(x.Value(), y.Value())
  {
    var both := QuotRem(x, y);
    r := if both.Ok? then Ok(both.value.0) else DivideError;
  }

  // ---------- Comparison ----------

  /** -1, 0 or 1; a short and a long number are told apart by the sign of the long one alone. */
  method CompareLong(x: PolyInt, y: PolyInt) returns (c: int)
    requires Canonical(x) && Canonical(y)
    ensures c == if x.Value() < y.Value() then -1 else if x.Value() == y.Value() then 0 else 1
  {
    if x == y {
      return 0;
    }
    if x.Short? {
      if y.Short? {
        return if x.n < y.n then -1 else 1;
      }
      LongBeyondShort(y);
      return if y.negative then 1 else -1;
    }
    LongBeyondShort(x);
    if y.Short? {
      return if x.negative then -1 else 1;
    }
    LongBeyondShort(y);
    ShortZero();
    var u, signX := GetLong(x);
    var v, signY := GetLong(y);
    if !signX {
      if !signY {
        c := CompareUnsigned(u, v);
      } else {
        c := 1;
      }
    } else {
      if signY {
        c := CompareUnsigned(v, u);
      } else {
        c := -1;
      }
    }
  }

  // ---------- Greatest common divisor ----------

  predicate Divides(d: nat, n: nat) {
    if d == 0 then n == 0 else n % d == 0
  }

  function Gcd(a: nat, b: nat): (g: nat)
    decreases b
  {
    if b == 0 then a else Gcd(b, a % b)
  }

  lemma DividesCombination(d: nat, m: nat, n: nat, k: nat)
    requires Divides(d, m) && Divides(d, n)
    ensures Divides(d, k * m + n)
  {
    if d == 0 {
      assert k * m == 0;
    } else {
      DivMod(m, d);
      DivMod(n, d);
      MulAssoc(k, m / d, d);
      MulDistribute(k * (m / d), n / d, d);
      DivisionUnique(k * m + n, d, k * (m / d) + n / d, 0);
    }
  }

  lemma DividesRemainder(d: nat, a: nat, b: nat)
    requires b > 0 && Divides(d, a) && Divides(d, b)
    ensures Divides(d, a % b)
  {
    DivMod(a, b);
    if d > 0 {
      DivMod(a, d);
      DivMod(b, d);
      var k := a / b;
      MulAssoc(k, b / d, d);
      MulDistribute(a / d, -(k * (b / d)), d);
      assert (-(k * (b / d))) * d == -((k * (b / d)) * d);
      DivisionUnique(a % b, d, a / d - k * (b / d), 0);
    }
  }

  /** Euclid's number divides both. */
  lemma {:induction false} GcdDivides(a: nat, b: nat)
    ensures Divides(Gcd(a, b), a) && Divides(Gcd(a, b), b)
    decreases b
  {
    if b == 0 {
      if a > 0 { DivisionUnique(a, a, 1, 0); DivisionUnique(0, a, 0, 0); }
    } else {
      GcdDivides(b, a % b);
      DivMod(a, b);
      DividesCombination(Gcd(a, b), b, a % b, a / b);
    }
  }

  /** Every common divisor divides Euclid's number. */
  lemma {:induction false} GcdGreatest(a: nat, b: nat, d: nat)
    requires Divides(d, a) && Divides(d, b)
    ensures Divides(d, Gcd(a, b))
    decreases b
  {
    if b > 0 {
      DividesRemainder(d, a, b);
      GcdGreatest(b, a % b, d);
    }
  }

  /** Divisibility both ways means equality, so the two facts above determine the number. */
  lemma DividesAntisymmetric(m: nat, n: nat)
    requires Divides(m, n) && Divides(n, m)
    ensures m == n
  {
    if m > 0 && n > 0 {
      DivMod(n, m);
      DivMod(m, n);
      if n / m == 0 || m / n == 0 {
      } else {
        MulMonotone(1, n / m, m);
        MulMonotone(1, m / n, n);
      }
    }
  }

  lemma GcdCommutes(a: nat, b: nat)
    ensures Gcd(a, b) == Gcd(b, a)
  {
    GcdDivides(a, b);
    GcdDivides(b, a);
    GcdGreatest(b, a, Gcd(a, b));
    GcdGreatest(a, b, Gcd(b, a));
    DividesAntisymmetric(Gcd(a, b), Gcd(b, a));
  }

  /** Euclid's algorithm on non-negative numbers of either form. */
  method Gxd(x0: PolyInt, y0: PolyInt) returns (g: PolyInt)
    requires Canonical(x0) && Canonical(y0) && x0.Value() >= 0 && y0.Value() >= 0
    ensures Canonical(g) && g.Value() == Gcd(x0.Value(), y0.Value())
  {
    var x, y := x0, y0;
    ShortZero();
    while y != Short(0)
      invariant Canonical(x) && Canonical(y) && x.Value() >= 0 && y.Value() >= 0
      invariant Gcd(x.Value(), y.Value()) == Gcd(x0.Value(), y0.Value())
      decreases y.Value()
    {
      if y.Value() == 0 {
        CanonicalUnique(y, Short(0));
      }
      var res := RemLong(x, y);
      QuotRemProperty(x.Value(), y.Value());
      x, y := y, res.value;
    }
    g := x;
  }

  method AbsValue(x: PolyInt) returns (r: PolyInt)
    requires Canonical(x)
    ensures Canonical(r) && r.Value() == Abs(x.Value())
  {
    ShortZero();
    if x.Short? {
      if x.n < 0 {
        r := NegLong(x);
        return;
      }
    } else if x.negative {
      r := NegLong(x);
      return;
    }
    r := x;
  }

  method GcdArbitrary(x: PolyInt, y: PolyInt) returns (g: PolyInt)
    requires Canonical(x) && Canonical(y)
    ensures Canonical(g) && g.Value() == Gcd(Abs(x.Value()), Abs(y.Value()))
  {
    var a := AbsValue(x);
    var b := AbsValue(y);
    GcdCommutes(a.Value(), b.Value());
    var c := CompareLong(a, b);
    if c < 0 {
      g := Gxd(b, a);
    } else {
      g := Gxd(a, b);
    }
  }

  /** A common multiple whose product with the divisor is that of the arguments; an error if both are zero. */
  method LcmArbitrary(x: PolyInt, y: PolyInt) returns (r: Result<PolyInt>)
    requires Canonical(x) && Canonical(y)
    ensures r.DivideError? <==> x.Value() == 0 && y.Value() == 0
    ensures r.Ok? ==> Canonical(r.value)
    ensures r.Ok? ==> r.value.Value() * Gcd(Abs(x.Value()), Abs(y.Value())) == x.Value() * y.Value()
    ensures r.Ok? ==> Divides(Abs(x.Value()), Abs(r.value.Value())) && Divides(Abs(y.Value()), Abs(r.value.Value()))
  {
    var g := GcdArbitrary(x, y);
    GcdDivides(Abs(x.Value()), Abs(y.Value()));
    var q := DivLong(y, g);
    if q.DivideError? {
      return DivideError;
    }
    var m := MultLong(x, q.value);
    MultipleOfBoth(x.Value(), y.Value(), g.Value(), q.value.Value());
    r := Ok(m);
  }

  lemma MultipleOfBoth(x: int, y: int, g: nat, q: int)
    requires g > 0 && Divides(g, Abs(x)) && Divides(g, Abs(y)) && q == Quot(y, g)
    ensures (x * q) * g == x * y
    ensures Divides(Abs(x), Abs(x * q)) && Divides(Abs(y), Abs(x * q))
  {
    QuotRemProperty(y, g);
    MulAssoc(x, q, g);
    AbsProduct(x, q);
    MultipleOf(Abs(x), Abs(q));
    // x*q = (x/g)*y up to sign
    DivMod(Abs(x), g);
    var h := Abs(x) / g;
    AbsProduct(q, g);
    assert Abs(y) == Abs(q) * g;
    MulAssoc(h, g, Abs(q));
    assert g * Abs(q) == Abs(q) * g;
    MultipleOf(Abs(y), h);
    assert h * Abs(y) == Abs(y) * h;
  }

  lemma AbsProduct(x: int, y: int)
    ensures Abs(x * y) == Abs(x) * Abs(y)
  {
    SignedProduct(x < 0, Abs(x), y < 0, Abs(y));
    MulNonNegative(Abs(x), Abs(y));
    assert Signed(x < 0, Abs(x)) == x && Signed(y < 0, Abs(y)) == y;
  }

  lemma MultipleOf(d: nat, k: nat)
    ensures d * k >= 0 && Divides(d, d * k)
  {
    MulNonNegative(d, k);
    if d > 0 {
      assert d * k == k * d;
      DivisionUnique(d * k, d, k, 0);
    }
  }

  // ---------- Logical operations ----------

  /** The bytes of the longer magnitude, extended from a short form or trimmed from a long one. */
  function LogicalLength(x: int, y: int): (n: nat)
    ensures Abs(x) < Pow256(n) && Abs(y) < Pow256(n)
  {
    var n, m := ByteLength(Abs(x)), ByteLength(Abs(y));
    Pow256Monotone(if n < m then n else m, if n < m then m else n);
    if n < m then m else n
  }

  /** The number of bytes of a magnitude. */
  function ByteLength(n: nat): (k: nat)
    ensures n < Pow256(k) && (k > 0 ==> Pow256(k - 1) <= n)
  {
    if n == 0 then 0 else 1 + ByteLength(n / 256)
  }

  lemma ByteLengthTrimmed(s: seq<byte>)
    ensures Trimmed(s) == ByteLength(Val(s))
  {
    hide Val, Pow256;
    var n, k := Trimmed(s), ByteLength(Val(s));
    TrimmedVal(s);
    ValBound(s[..n]);
    if n > 0 { ValLeading(s[..n]); }
    if n < k { Pow256Monotone(n, k - 1); }
    if k < n { Pow256Monotone(k, n - 1); }
  }

  /** What the routines answer: short operands are dealt with directly, the others byte by byte. */
  function LogicalResult(op: LogicOp, x: PolyInt, y: PolyInt): int {
    if x.Short? && y.Short? then Bitwise(op, x.n, y.n)
    else LogicalAnswer(op, x.Value(), y.Value(), LogicalLength(x.Value(), y.Value()))
  }

  /** and, or and exclusive-or, which differ only in the operation passed to the general routine. */
  method LogicalC(op: LogicOp, x: PolyInt, y: PolyInt) returns (r: PolyInt)
    requires Canonical(x) && Canonical(y)
    ensures Canonical(r) && r.Value() == LogicalResult(op, x, y)
  {
    if x.Short? && y.Short? {
      ShortAnswer(op, x.n, y.n);
      return Short(Bitwise(op, x.n, y.n));
    }
    var u, signX := GetLong(x);
    var v, signY := GetLong(y);
    r := LogicalLong(u, v, signX, signY, op);
    assert r.Value() == LogicalAnswer(op, x.Value(), y.Value(), if Trimmed(u) < Trimmed(v) then Trimmed(v) else Trimmed(u));
    LogicalLengthTrimmed(x.Value(), y.Value(), u, v);
  }

  lemma LogicalLengthTrimmed(x: int, y: int, u: seq<byte>, v: seq<byte>)
    requires Abs(x) == Val(u) && Abs(y) == Val(v)
    ensures LogicalLength(x, y) == if Trimmed(u) < Trimmed(v) then Trimmed(v) else Trimmed(u)
  {
    ByteLengthTrimmed(u);
    ByteLengthTrimmed(v);
  }

  /** The routines are exact if and only if both operands are short or the top of the answer is not lost; otherwise they answer 0. */
  lemma ExactUnlessTopLost(op: LogicOp, x: PolyInt, y: PolyInt)
    ensures LogicalResult(op, x, y) == Bitwise(op, x.Value(), y.Value())
      <==> (x.Short? && y.Short?) || !LosesTop(op, x.Value(), y.Value(), Pow256(LogicalLength(x.Value(), y.Value())))
    ensures LogicalResult(op, x, y) == Bitwise(op, x.Value(), y.Value()) || LogicalResult(op, x, y) == 0
  {
    var n := LogicalLength(x.Value(), y.Value());
    Pow256IsPow2(n);
    AnswerRange(op, x.Value(), y.Value(), 8 * n);
  }

  /** A number of one word whose bytes above the first are all ones. */
  function OneWord(negative: bool, first: byte): PolyInt {
    Long(negative, [first] + seq(WORD - 1, i => 255))
  }

  lemma {:induction false} OnesVal(n: nat)
    ensures Val(seq(n, i => 255)) == Pow256(n) - 1
  {
    if n > 0 {
      OnesVal(n - 1);
      assert seq(n, i => 255)[1..] == seq(n - 1, i => 255);
    }
  }

  lemma OneWordIs(negative: bool, first: byte)
    ensures OneWord(negative, first).Long? && Canonical(OneWord(negative, first))
    ensures OneWord(negative, first).Value() == Signed(negative, Pow256(WORD) - 256 + first)
  {
    var r := OneWord(negative, first);
    assert r.bytes[1..] == seq(WORD - 1, i => 255);
    OnesVal(WORD - 1);
    assert Val(r.bytes) == first + 256 * Val(seq(WORD - 1, i => 255));
    TrimmedUnique(r.bytes, WORD);
    WordPower();
  }

  lemma WordPower()
    ensures Pow256(WORD) == 256 * Pow256(WORD - 1) && Pow256(WORD - 1) > 1 && FitsShort(1)
  {
    Pow256Succ(WORD - 1);
    Pow256Monotone(1, WORD - 1);
    assert Pow256(1) == 256 * Pow256(0);
  }

  lemma ShortOne()
    ensures Canonical(Short(1))
  {
    WordPower();
  }

  /** Two long operands on which conjunction answers 0 instead of -256^w. */
  lemma ConjunctionLosesTop() returns (x: PolyInt, y: PolyInt)
    ensures var p: int := Pow256(WORD);
      && Canonical(x) && Canonical(y) && x.Value() == 1 - p && y.Value() == 2 - p
      && LogicalResult(And, x, y) == 0 && Bitwise(And, 1 - p, 2 - p) == -p
  {
    hide Pow256, Bitwise, OneWord, Canonical;
    x, y := OneWord(true, 255), OneWord(true, 254);
    OneWordIs(true, 255);
    OneWordIs(true, 254);
    WordPower();
    AndOneTwo();
    LostTop(And, x, y);
  }

  /** A long and a short operand on which exclusive-or answers 0 instead of -256^w. */
  lemma ExclusiveOrLosesTop() returns (x: PolyInt, y: PolyInt)
    ensures var p: int := Pow256(WORD);
      && Canonical(x) && Canonical(y) && x.Value() == 1 - p && y.Value() == 1
      && LogicalResult(Xor, x, y) == 0 && Bitwise(Xor, 1 - p, 1) == -p
  {
    hide Pow256, Bitwise, OneWord, Canonical, Val, LogicalResult;
    x, y := OneWord(true, 255), Short(1);
    WordPower();
    OneWordIs(true, 255);
    assert Canonical(y) by { ShortOne(); }
    LostTop(Xor, x, y);
  }

  lemma LostTop(op: LogicOp, x: PolyInt, y: PolyInt)
    requires x.Long? && Pow256(WORD - 1) <= Abs(x.Value()) < Pow256(WORD) && Abs(y.Value()) < Pow256(WORD)
    requires LosesTop(op, x.Value(), y.Value(), Pow256(WORD))
    ensures LogicalResult(op, x, y) == 0 && Bitwise(op, x.Value(), y.Value()) == -(Pow256(WORD) as int)
  {
    hide Pow256, Pow2, Bitwise, LosesTop;
    LengthIs(Abs(x.Value()), WORD);
    var m := ByteLength(Abs(y.Value()));
    if WORD < m { Pow256Monotone(WORD, m - 1); }
    assert LogicalLength(x.Value(), y.Value()) == WORD;
    Pow256IsPow2(WORD);
    AnswerRange(op, x.Value(), y.Value(), 8 * WORD);
  }

  lemma LengthIs(n: nat, k: nat)
    requires k > 0 && Pow256(k - 1) <= n < Pow256(k)
    ensures ByteLength(n) == k
  {
    var m := ByteLength(n);
    if m < k { Pow256Monotone(m, k - 1); }
    if k < m { Pow256Monotone(k, m - 1); }
  }

  lemma AndOneTwo()
    ensures Bitwise(And, 1, 2) == 0
  {
    assert Bitwise(And, 0, 1) == 2 * Bitwise(And, 0, 0) + 0;
    assert Bitwise(And, 1, 2) == 2 * Bitwise(And, 0, 1) + 0;
  }
}
