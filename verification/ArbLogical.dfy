/**
 Bytewise logical operations on sign-magnitude numbers, converting negative operands to
 two's complement on the way in and a negative result back on the way out.
 */
module ArbLogical {
  import opened Arithmetic
  import opened BitLogic
  import opened Digits
  import opened PolyInts

  /** The number still to be read from the digits s of an operand; b is its pending carry. */
  function Operand(negative: bool, s: seq<byte>, b: int): int {
    if negative then b - 1 - Val(s) as int else Val(s)
  }

  /** One operand digit with its carry: eight bits of two's complement and bit eight. */
  function Fetch(negative: bool, d: byte, b: int): (t: int)
    requires 0 <= b <= 1
    ensures 0 <= t < 512
  {
    if negative then b + (255 - d as int) else d
  }

  lemma FetchOperand(negative: bool, s: seq<byte>, b: int)
    requires 0 <= b <= 1 && |s| > 0
    ensures var t := Fetch(negative, s[0], b);
      Operand(negative, s, b) == t % 256 + 256 * Operand(negative, s[1..], t / 256)
  {
  }

  lemma EightBits()
    ensures Pow2(8) == 256
  {
    Pow256IsPow2(1);
    assert Pow256(1) == 256 * Pow256(0);
  }

  /** The operation one byte at a time. */
  lemma ByteSplit(op: LogicOp, a: byte, x: int, b: byte, y: int)
    ensures Bitwise(op, a + 256 * x, b + 256 * y) == Bitwise(op, a, b) + 256 * Bitwise(op, x, y)
    ensures 0 <= Bitwise(op, a, b) < 256
  {
    EightBits();
    BitwiseSplit(op, 8, a, x, b, y);
    BitwiseLowRange(op, 8, a, b);
  }

  lemma LowByteIs(z: int, k: int)
    requires 0 <= z < 256
    ensures (z + 256 * k) % 256 == z
  {
  }

  /** The low byte of the operation, from operands that may still carry bit eight. */
  lemma LowByte(op: LogicOp, a: int, b: int)
    ensures Bitwise(op, a, b) % 256 == Bitwise(op, a % 256, b % 256)
  {
    hide Bitwise;
    var z, k := Bitwise(op, a % 256, b % 256), Bitwise(op, a / 256, b / 256);
    ByteSplit(op, a % 256, a / 256, b % 256, b / 256);
    assert a == a % 256 + 256 * (a / 256) && b == b % 256 + 256 * (b / 256);
    LowByteIs(z, k);
  }

  /** The loop state: what is pending from either operand and for the result. */
  datatype Carries = Carries(u: int, v: int, w: int) {
    predicate Valid() { 0 <= u <= 1 && 0 <= v <= 1 && 0 <= w <= 1 }
  }

  /** The operation passed to the general routine, which applies it to words. */
  type WordOp = (int, int) -> int

  /** One step of the loops: the result digit and the next carries. */
  function Step(f: WordOp, sign: bool, tu: int, tv: int, bw: int): (r: (byte, Carries))
    requires 0 <= tu < 512 && 0 <= tv < 512 && 0 <= bw <= 1
    ensures r.1.Valid()
  {
    var z := f(tu, tv) % 256;
    if sign then
      var t := bw + (255 - z);
      (t % 256, Carries(tu / 256, tv / 256, t / 256))
    else
      (z, Carries(tu / 256, tv / 256, bw))
  }

  /** The digit fetched for an operand that may be used up. */
  function FetchNext(negative: bool, s: seq<byte>, b: int): (t: int)
    requires 0 <= b <= 1
    ensures 0 <= t < 512
  {
    if |s| > 0 then Fetch(negative, s[0], b) else if negative then 255 else 0
  }

  function Rest(s: seq<byte>): seq<byte> {
    if |s| > 0 then s[1..] else s
  }

  /** The result digits and the carries left at the end. */
  function LogicDigits(f: WordOp, sign: bool, su: bool, sv: bool, u: seq<byte>, v: seq<byte>, c: Carries): (r: (seq<byte>, Carries))
    requires |v| <= |u| && c.Valid()
    ensures |r.0| == |u| && r.1.Valid()
    decreases |u|
  {
    if |u| == 0 then ([], c)
    else
      var s := Step(f, sign, FetchNext(su, u, c.u), FetchNext(sv, v, c.v), c.w);
      var rest := LogicDigits(f, sign, su, sv, u[1..], Rest(v), s.1);
      ([s.0] + rest.0, rest.1)
  }

  lemma FetchNextOperand(negative: bool, s: seq<byte>, b: int)
    requires 0 <= b <= 1
    requires negative ==> Operand(negative, s, b) < 0
    ensures var t := FetchNext(negative, s, b);
      Operand(negative, s, b) == t % 256 + 256 * Operand(negative, Rest(s), t / 256)
    ensures negative ==> Operand(negative, Rest(s), FetchNext(negative, s, b) / 256) < 0
  {
    if |s| > 0 {
      FetchOperand(negative, s, b);
    }
  }

  /** What is still owed to the result when z is the rest of the true answer. */
  function Owed(sign: bool, z: int, b: int): int {
    if sign then -z - 1 + b else z
  }

  lemma StepOwed(f: WordOp, op: LogicOp, sign: bool, tu: int, tv: int, bw: int, x: int, y: int, x': int, y': int)
    requires 0 <= tu < 512 && 0 <= tv < 512 && 0 <= bw <= 1
    requires f(tu, tv) == Bitwise(op, tu, tv)
    requires x == tu % 256 + 256 * x' && y == tv % 256 + 256 * y'
    ensures var s := Step(f, sign, tu, tv, bw);
      Owed(sign, Bitwise(op, x, y), bw) == s.0 + 256 * Owed(sign, Bitwise(op, x', y'), s.1.w)
  {
    hide Bitwise, Owed, Step;
    var low := f(tu, tv) % 256;
    LowByte(op, tu, tv);
    StepIs(f, sign, tu, tv, bw, low);
    ByteSplit(op, tu % 256, x', tv % 256, y');
    OwedStep(sign, low, Bitwise(op, x, y), Bitwise(op, x', y'), bw);
  }

  lemma StepIs(f: WordOp, sign: bool, tu: int, tv: int, bw: int, low: int)
    requires 0 <= tu < 512 && 0 <= tv < 512 && 0 <= bw <= 1 && low == f(tu, tv) % 256
    ensures var s := Step(f, sign, tu, tv, bw);
      if sign then s.0 == (bw + (255 - low)) % 256 && s.1.w == (bw + (255 - low)) / 256 else s.0 == low && s.1.w == bw
  {
  }

  lemma OwedStep(sign: bool, low: byte, z: int, z': int, bw: int)
    requires 0 <= bw <= 1 && z == low + 256 * z'
    ensures sign ==> Owed(sign, z, bw) == (bw + (255 - low as int)) % 256 + 256 * Owed(sign, z', (bw + (255 - low as int)) / 256)
    ensures !sign ==> Owed(sign, z, bw) == low + 256 * Owed(sign, z', bw)
  {
  }

  /** The operands still to be read are negative exactly as their signs say. */
  predicate SignsHold(su: bool, sv: bool, u: seq<byte>, v: seq<byte>, c: Carries) {
    (su ==> Operand(su, u, c.u) < 0) && (sv ==> Operand(sv, v, c.v) < 0)
  }

  /**
   The digits and the last carry of the result together make up the true answer: negated when
   the sign is negative.
   */
  lemma {:induction false} LogicDigitsVal(f: WordOp, op: LogicOp, su: bool, sv: bool, u: seq<byte>, v: seq<byte>, c: Carries)
    requires forall a, b :: f(a, b) == Bitwise(op, a, b)
    requires |v| <= |u| && c.Valid() && SignsHold(su, sv, u, v, c)
    ensures var sign := op.OnBits(su, sv);
      var r := LogicDigits(f, sign, su, sv, u, v, c);
      && (su ==> r.1.u == 0)
      && Owed(sign, Bitwise(op, Operand(su, u, c.u), Operand(sv, v, c.v)), c.w)
         == Val(r.0) + Shifted(if sign then r.1.w else 0, |u|)
    decreases |u|
  {
    hide Bitwise, Step, FetchNext, Operand, Owed, SignsHold;
    var sign := op.OnBits(su, sv);
    if |u| == 0 {
      OwedAtEnd(op, su, sv, c);
    } else {
      var s := Step(f, sign, FetchNext(su, u, c.u), FetchNext(sv, v, c.v), c.w);
      DigitOwed(f, op, su, sv, u, v, c);
      LogicDigitsVal(f, op, su, sv, u[1..], Rest(v), s.1);
      var rest := LogicDigits(f, sign, su, sv, u[1..], Rest(v), s.1);
      assert ([s.0] + rest.0)[1..] == rest.0;
    }
  }

  /** One step of the loops takes the low byte of what is owed. */
  lemma DigitOwed(f: WordOp, op: LogicOp, su: bool, sv: bool, u: seq<byte>, v: seq<byte>, c: Carries)
    requires forall a, b :: f(a, b) == Bitwise(op, a, b)
    requires |u| > 0 && c.Valid() && SignsHold(su, sv, u, v, c)
    ensures var sign := op.OnBits(su, sv);
      var s := Step(f, sign, FetchNext(su, u, c.u), FetchNext(sv, v, c.v), c.w);
      && SignsHold(su, sv, u[1..], Rest(v), s.1)
      && Owed(sign, Bitwise(op, Operand(su, u, c.u), Operand(sv, v, c.v)), c.w)
         == s.0 + 256 * Owed(sign, Bitwise(op, Operand(su, u[1..], s.1.u), Operand(sv, Rest(v), s.1.v)), s.1.w)
  {
    hide Bitwise, Owed, Operand, FetchNext;
    var tu, tv := FetchNext(su, u, c.u), FetchNext(sv, v, c.v);
    FetchNextOperand(su, u, c.u);
    FetchNextOperand(sv, v, c.v);
    StepOwed(f, op, op.OnBits(su, sv), tu, tv, c.w, Operand(su, u, c.u), Operand(sv, v, c.v),
             Operand(su, u[1..], tu / 256), Operand(sv, Rest(v), tv / 256));
  }

  lemma OwedAtEnd(op: LogicOp, su: bool, sv: bool, c: Carries)
    requires c.Valid() && SignsHold(su, sv, [], [], c)
    ensures Owed(op.OnBits(su, sv), Bitwise(op, Operand(su, [], c.u), Operand(sv, [], c.v)), c.w)
      == if op.OnBits(su, sv) then c.w else 0
    ensures su ==> c.u == 0
  {
  }

  /** What the loops have still to do, together with the digits already stored. */
  ghost predicate Continues(f: WordOp, sign: bool, su: bool, sv: bool, u: seq<byte>, v: seq<byte>, c: Carries, done: seq<byte>,
                            all: (seq<byte>, Carries))
  {
    && |v| <= |u| && c.Valid()
    && var r := LogicDigits(f, sign, su, sv, u, v, c);
       all.0 == done + r.0 && all.1 == r.1
  }

  lemma LoopStarts(f: WordOp, sign: bool, su: bool, sv: bool, u: seq<byte>, v: seq<byte>)
    requires |v| <= |u|
    ensures Continues(f, sign, su, sv, u, v, Carries(1, 1, 1), [], LogicDigits(f, sign, su, sv, u, v, Carries(1, 1, 1)))
  {
  }

  lemma LoopStep(f: WordOp, sign: bool, su: bool, sv: bool, u: seq<byte>, v: seq<byte>, c: Carries, done: seq<byte>,
                 all: (seq<byte>, Carries))
    requires |u| > 0 && Continues(f, sign, su, sv, u, v, c, done, all)
    ensures var s := Step(f, sign, FetchNext(su, u, c.u), FetchNext(sv, v, c.v), c.w);
      Continues(f, sign, su, sv, u[1..], Rest(v), s.1, done + [s.0], all)
  {
  }

  /** The digit of one step and the carry of the result, as the loops compute them. */
  method ResultDigit(f: WordOp, sign: bool, borrowU: int, borrowV: int, bw: int) returns (digit: byte, borrowW: int)
    requires 0 <= borrowU < 512 && 0 <= borrowV < 512 && 0 <= bw <= 1
    ensures Step(f, sign, borrowU, borrowV, bw) == (digit, Carries(borrowU / 256, borrowV / 256, borrowW))
  {
    borrowW := bw;
    var wI := f(borrowU, borrowV) % 256;
    if sign {
      // The result is converted back from two's complement.
      borrowW := borrowW + (255 - wI);
      digit := borrowW % 256;
      borrowW := borrowW / 256;
    } else {
      digit := wI;
    }
  }

  /** The first loop: digits present in both operands. */
  method CommonDigits(f: WordOp, sign: bool, su: bool, sv: bool, u: seq<byte>, v: seq<byte>, w: array<byte>)
    returns (c: Carries)
    requires |v| <= |u| <= w.Length
    modifies w
    ensures Continues(f, sign, su, sv, u[|v|..], [], c, w[..|v|], LogicDigits(f, sign, su, sv, u, v, Carries(1, 1, 1)))
    ensures w[|v|..] == old(w[|v|..])
  {
    hide LogicDigits, Continues, Step;
    var borrowU, borrowV, borrowW := 1, 1, 1;
    ghost var all := LogicDigits(f, sign, su, sv, u, v, Carries(1, 1, 1));
    assert u[0..] == u && v[0..] == v && w[..0] == [];
    LoopStarts(f, sign, su, sv, u, v);
    var i := 0;
    while i < |v|
      invariant 0 <= i <= |v| && Carries(borrowU, borrowV, borrowW).Valid()
      invariant Continues(f, sign, su, sv, u[i..], v[i..], Carries(borrowU, borrowV, borrowW), w[..i], all)
      invariant w[|v|..] == old(w[|v|..])
    {
      ghost var done := w[..i];
      LoopStep(f, sign, su, sv, u[i..], v[i..], Carries(borrowU, borrowV, borrowW), done, all);
      // Negative operands are converted to two's complement.
      borrowU := if su then borrowU + (255 - u[i] as int) else u[i];
      borrowV := if sv then borrowV + (255 - v[i] as int) else v[i];
      w[i], borrowW := ResultDigit(f, sign, borrowU, borrowV, borrowW);
      borrowU := borrowU / 256;
      borrowV := borrowV / 256;
      assert w[..i + 1] == done + [w[i]];
      assert u[i..][1..] == u[i + 1..] && v[i..][1..] == v[i + 1..];
      i := i + 1;
    }
    assert v[|v|..] == [];
    c := Carries(borrowU, borrowV, borrowW);
  }

  /** The second loop: the digits of the longer operand alone, the other extended by its sign. */
  method RemainingDigits(f: WordOp, sign: bool, su: bool, sv: bool, u: seq<byte>, start: nat, w: array<byte>, c: Carries,
                         ghost all: (seq<byte>, Carries))
    returns (borrowU: int, borrowW: int)
    requires start <= |u| <= w.Length && Continues(f, sign, su, sv, u[start..], [], c, w[..start], all)
    modifies w
    ensures w[..|u|] == all.0 && borrowU == all.1.u && borrowW == all.1.w
    ensures w[|u|..] == old(w[|u|..])
  {
    var borrowV := c.v;
    borrowU, borrowW := c.u, c.w;
    var i := start;
    while i < |u|
      invariant start <= i <= |u|
      invariant Continues(f, sign, su, sv, u[i..], [], Carries(borrowU, borrowV, borrowW), w[..i], all)
      invariant w[|u|..] == old(w[|u|..])
    {
      ghost var done := w[..i];
      LoopStep(f, sign, su, sv, u[i..], [], Carries(borrowU, borrowV, borrowW), done, all);
      borrowU := if su then borrowU + (255 - u[i] as int) else u[i];
      borrowV := if sv then 255 else 0;
      w[i], borrowW := ResultDigit(f, sign, borrowU, borrowV, borrowW);
      borrowU := borrowU / 256;
      borrowV := borrowV / 256;
      assert w[..i + 1] == done + [w[i]];
      assert u[i..][1..] == u[i + 1..];
      i := i + 1;
    }
  }

  // ---------- When the answer fits ----------

  /** The low part of x modulo p, for x between -p and p. */
  function LowPart(x: int, p: int): int {
    if x < 0 then x + p else x
  }

  /** The one kind of answer the result buffer has no room for, told from the operands. */
  predicate LosesTop(op: LogicOp, x: int, y: int, p: int) {
    match op
    case And => x < 0 && y < 0 && Bitwise(And, x + p, y + p) == 0
    case Or => false
    case Xor => (x < 0) != (y < 0) && (if x < 0 then -x else x) + (if y < 0 then -y else y) == p
  }

  /** The operation on numbers of magnitude at most p = 2^k: on their low parts, with the sign apart. */
  lemma SignedSplit(op: LogicOp, x: int, y: int, k: nat)
    requires -(Pow2(k) as int) <= x < Pow2(k) && -(Pow2(k) as int) <= y < Pow2(k)
    ensures var p: int := Pow2(k);
      var low := Bitwise(op, LowPart(x, p), LowPart(y, p));
      && 0 <= low < p
      && Bitwise(op, x, y) == if op.OnBits(x < 0, y < 0) then low - p else low
  {
    hide Bitwise, Pow2;
    var p: int := Pow2(k);
    var h, g := if x < 0 then -1 else 0, if y < 0 then -1 else 0;
    BitwiseSplit(op, k, LowPart(x, p), h, LowPart(y, p), g);
    BitwiseLowRange(op, k, LowPart(x, p), LowPart(y, p));
    assert x == LowPart(x, p) + h * p && y == LowPart(y, p) + g * p;
    OnSigns(op, x < 0, y < 0);
  }

  lemma OnSigns(op: LogicOp, a: bool, b: bool)
    ensures Bitwise(op, if a then -1 else 0, if b then -1 else 0) == -BitValue(op.OnBits(a, b))
  {
  }

  /** What the routine answers for operands of at most n bytes. */
  function LogicalAnswer(op: LogicOp, x: int, y: int, n: nat): int {
    if LosesTop(op, x, y, Pow256(n)) then 0 else Bitwise(op, x, y)
  }

  /** Answers lie between -p and p, and reach -p exactly when the operands are of the kind above. */
  lemma AnswerRange(op: LogicOp, x: int, y: int, k: nat)
    requires -(Pow2(k) as int) < x < Pow2(k) && -(Pow2(k) as int) < y < Pow2(k)
    ensures -(Pow2(k) as int) <= Bitwise(op, x, y) < Pow2(k)
    ensures Bitwise(op, x, y) == -(Pow2(k) as int) <==> LosesTop(op, x, y, Pow2(k))
  {
    var a, b := LowPart(x, Pow2(k)), LowPart(y, Pow2(k));
    SignedSplit(op, x, y, k);
    match op
    case And =>
    case Or => OrIsZero(a, b);
    case Xor => XorIsZero(a, b);
  }

  lemma {:induction false} OrIsZero(a: int, b: int)
    requires a >= 0 && b >= 0
    ensures Bitwise(Or, a, b) == 0 <==> a == 0 && b == 0
    decreases a + b
  {
    if !(a == 0 && b == 0) {
      OrIsZero(a / 2, b / 2);
      BitwiseSign(Or, a / 2, b / 2);
    }
  }

  lemma {:induction false} XorIsZero(a: int, b: int)
    requires a >= 0 && b >= 0
    ensures Bitwise(Xor, a, b) == 0 <==> a == b
    decreases a + b
  {
    if !(a == 0 && b == 0) {
      XorIsZero(a / 2, b / 2);
    }
  }

  /** One more than the largest short value is a power of two. */
  lemma ShortIsPowerOfTwo() returns (k: nat)
    ensures MAXTAGGED + 1 == Pow2(k)
  {
    k := 8 * (WORD - 1) + 6;
    Pow256IsPow2(WORD - 1);
    var j := 8 * (WORD - 1);
    assert Pow2(j + 6) == 2 * Pow2(j + 5) == 4 * Pow2(j + 4) == 8 * Pow2(j + 3);
    assert Pow2(j + 3) == 2 * Pow2(j + 2) == 4 * Pow2(j + 1) == 8 * Pow2(j);
  }

  /** The logical operations cannot overflow a tagged word. */
  lemma ShortAnswer(op: LogicOp, x: int, y: int)
    requires FitsShort(x) && FitsShort(y)
    ensures FitsShort(Bitwise(op, x, y))
  {
    var k := ShortIsPowerOfTwo();
    SignedSplit(op, x, y, k);
  }

  /** The general logical routine on magnitudes and signs. */
  method LogicalLong(x: seq<byte>, y: seq<byte>, signX: bool, signY: bool, op: LogicOp) returns (r: PolyInt)
    requires signX ==> Val(x) > 0
    requires signY ==> Val(y) > 0
    ensures Canonical(r)
    ensures r.Value() == LogicalAnswer(op, Signed(signX, Val(x)), Signed(signY, Val(y)),
                                       if Trimmed(x) < Trimmed(y) then Trimmed(y) else Trimmed(x))
  {
    var lx := GetLength(x);
    var ly := GetLength(y);
    TrimmedVal(x);
    TrimmedVal(y);
    if lx < ly {
      var z := AllocAndSave(ly);
      r := LogicalBytes(y[..ly], x[..lx], signY, signX, op, z);
      LogicCommutes(op, Signed(signX, Val(x)), Signed(signY, Val(y)), ly);
    } else {
      var z := AllocAndSave(lx + 1);
      r := LogicalBytes(x[..lx], y[..ly], signX, signY, op, z);
    }
  }

  lemma LogicCommutes(op: LogicOp, x: int, y: int, n: nat)
    ensures LogicalAnswer(op, x, y, n) == LogicalAnswer(op, y, x, n)
  {
    BitwiseCommutes(op, x, y);
    BitwiseCommutes(And, x + Pow256(n), y + Pow256(n));
  }

  lemma {:induction false} BitwiseCommutes(op: LogicOp, x: int, y: int)
    ensures Bitwise(op, x, y) == Bitwise(op, y, x)
    decreases Magnitude(x) + Magnitude(y)
  {
    if !(-1 <= x <= 0 && -1 <= y <= 0) {
      BitwiseCommutes(op, x / 2, y / 2);
    }
  }

  /** The digit loops and the final shortening; u is the longer operand. */
  method LogicalBytes(u: seq<byte>, v: seq<byte>, signU: bool, signV: bool, op: LogicOp, z: array<byte>) returns (r: PolyInt)
    requires |v| <= |u| <= z.Length && z.Length >= WORD && z.Length % WORD == 0
    requires forall i :: 0 <= i < z.Length ==> z[i] == 0
    requires signU ==> Val(u) > 0
    requires signV ==> Val(v) > 0
    modifies z
    ensures Canonical(r)
    ensures r.Value() == LogicalAnswer(op, Signed(signU, Val(u)), Signed(signV, Val(v)), |u|)
  {
    var sign := op.OnBits(signU, signV);
    ghost var all := LogicDigits((a, b) => Bitwise(op, a, b), sign, signU, signV, u, v, Carries(1, 1, 1));
    LogicalDigits((a, b) => Bitwise(op, a, b), sign, u, v, signU, signV, z);
    LogicDigitsVal((a, b) => Bitwise(op, a, b), op, signU, signV, u, v, Carries(1, 1, 1));
    FinalAnswer(op, signU, signV, u, v, all);
    r := MakeCanonical(z, sign);
  }

  /** Both loops together. */
  method LogicalDigits(f: WordOp, sign: bool, u: seq<byte>, v: seq<byte>, signU: bool, signV: bool, z: array<byte>)
    requires |v| <= |u| <= z.Length
    requires forall i :: 0 <= i < z.Length ==> z[i] == 0
    modifies z
    ensures Val(z[..]) == Val(LogicDigits(f, sign, signU, signV, u, v, Carries(1, 1, 1)).0)
  {
    ghost var all := LogicDigits(f, sign, signU, signV, u, v, Carries(1, 1, 1));
    var c := CommonDigits(f, sign, signU, signV, u, v, z);
    assert z[|v|..] == old(z[|v|..]);
    ghost var rest := z[|u|..];
    assert forall i :: 0 <= i < |rest| ==> rest[i] == old(z[|v|..])[i + |u| - |v|] == 0;
    var borrowU, borrowW := RemainingDigits(f, sign, signU, signV, u, |v|, z, c, all);
    assert z[..][..|u|] == z[..|u|] && z[..][|u|..] == z[|u|..] == rest;
    assert forall i :: |u| <= i < z.Length ==> z[..][i] == rest[i - |u|];
    ValTrim(z[..], |u|);
  }

  /**
   The stored magnitude with its sign, against the true answer. A carry is left over at the end,
   against the assertion in the source, exactly when the top of the answer is lost.
   */
  lemma FinalAnswer(op: LogicOp, signU: bool, signV: bool, u: seq<byte>, v: seq<byte>, all: (seq<byte>, Carries))
    requires |v| <= |u| == |all.0| && all.1.Valid()
    requires signU ==> Val(u) > 0
    requires signV ==> Val(v) > 0
    requires var sign := op.OnBits(signU, signV);
      Owed(sign, Bitwise(op, Signed(signU, Val(u)), Signed(signV, Val(v))), 1)
      == Val(all.0) + Shifted(if sign then all.1.w else 0, |u|)
    ensures var vu, vv := Signed(signU, Val(u)), Signed(signV, Val(v));
      var sign := op.OnBits(signU, signV);
      && Signed(sign, Val(all.0)) == LogicalAnswer(op, vu, vv, |u|)
      && (LosesTop(op, vu, vv, Pow256(|u|)) <==> sign && all.1.w == 1)
  {
    var vu, vv := Signed(signU, Val(u)), Signed(signV, Val(v));
    var sign := op.OnBits(signU, signV);
    ValBound(u);
    ValBound(v);
    ValBound(all.0);
    Pow256Monotone(|v|, |u|);
    Pow256IsPow2(|u|);
    AnswerRange(op, vu, vv, 8 * |u|);
    BitwiseSign(op, vu, vv);
    ShiftedProduct(if sign then all.1.w else 0, |u|);
    FinalArithmetic(sign, Bitwise(op, vu, vv), Val(all.0), if sign then all.1.w else 0, Pow256(|u|));
  }

  lemma FinalArithmetic(sign: bool, z: int, w: int, bw: int, p: int)
    requires 0 <= bw <= 1 && 0 <= w < p && -p <= z < p
    requires sign <==> z < 0
    requires Owed(sign, z, 1) == w + bw * p
    ensures Signed(sign, w) == if z == -p then 0 else z
    ensures z == -p <==> sign && bw == 1
  {
  }
}
