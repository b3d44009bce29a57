/**
 Integers as the run-time system holds them: a tagged word, or the address of a
 byte object whose flag bits carry the sign and whose words hold the magnitude,
 low-order byte first.
 */
module PolyInts {
  import opened Arithmetic
  import opened BitLogic
  import opened Digits

  type WordSize = w: nat | w == 4 || w == 8 witness 8

  /** Bytes in a machine word; every result below holds for both sizes. */
  const WORD: WordSize

  /** The largest tagged integer: 0x80 in the top byte, shifted down by the tag, less one. */
  const MAXTAGGED: int := 64 * Pow256(WORD - 1) - 1

  datatype PolyInt =
    | Short(n: int)
    | Long(negative: bool, bytes: seq<byte>)
  {
    function Value(): int {
      match this
      case Short(n) => n
      case Long(negative, bytes) => Signed(negative, Val(bytes))
    }
  }

  function Signed(negative: bool, magnitude: int): int {
    if negative then -magnitude else magnitude
  }

  predicate FitsShort(v: int) {
    -MAXTAGGED - 1 <= v <= MAXTAGGED
  }

  /** A number is short exactly if the word for it, shifted by the tag and tagged, is a signed machine word. */
  lemma ShortIsTaggedWord(v: int)
    ensures FitsShort(v) <==> -(Pow256(WORD) / 2) <= 2 * v + 1 < Pow256(WORD) / 2
  {
    Pow256Succ(WORD - 1);
  }

  /** Words needed for a number of bytes. */
  function Words(bytes: nat): nat {
    (bytes + WORD - 1) / WORD
  }

  lemma WordsCover(bytes: nat)
    ensures bytes <= Words(bytes) * WORD < bytes + WORD
  {
    DivMod(bytes + WORD - 1, WORD);
  }

  /** The length of a byte vector without its leading zero bytes. */
  function Trimmed(s: seq<byte>): (n: nat)
    ensures n <= |s|
    ensures n > 0 ==> s[n - 1] != 0
    ensures forall i :: n <= i < |s| ==> s[i] == 0
  {
    if |s| == 0 then 0
    else if s[|s| - 1] != 0 then |s|
    else
      var n := Trimmed(s[..|s| - 1]);
      assert forall i :: n <= i < |s| - 1 ==> s[..|s| - 1][i] == s[i];
      n
  }

  /**
   The representation invariant: short exactly when the value fits a tagged word,
   otherwise in the least number of words and so never a negative zero.
   */
  predicate Canonical(p: PolyInt) {
    match p
    case Short(n) => FitsShort(n)
    case Long(_, bytes) => |bytes| == Words(Trimmed(bytes)) * WORD && !FitsShort(p.Value())
  }

  lemma TrimmedUnique(s: seq<byte>, n: nat)
    requires n <= |s|
    requires n > 0 ==> s[n - 1] != 0
    requires forall i :: n <= i < |s| ==> s[i] == 0
    ensures Trimmed(s) == n
  {
  }

  lemma TrimmedVal(s: seq<byte>)
    ensures Val(s) == Val(s[..Trimmed(s)])
  {
    ValTrim(s, Trimmed(s));
  }

  /** The trimmed length is monotone in the value. */
  lemma TrimmedByValue(s: seq<byte>, t: seq<byte>)
    requires Trimmed(s) < Trimmed(t)
    ensures Val(s) < Val(t)
  {
    TrimmedVal(s);
    TrimmedVal(t);
    ValLongerIsLarger(s[..Trimmed(s)], t[..Trimmed(t)]);
  }

  /** Equal values have one canonical representation. */
  lemma CanonicalUnique(p: PolyInt, q: PolyInt)
    requires Canonical(p) && Canonical(q) && p.Value() == q.Value()
    ensures p == q
  {
    if p.Long? && q.Long? {
      ShortZero();
      assert Val(p.bytes) == Val(q.bytes);
      if Trimmed(p.bytes) < Trimmed(q.bytes) { TrimmedByValue(p.bytes, q.bytes); }
      if Trimmed(q.bytes) < Trimmed(p.bytes) { TrimmedByValue(q.bytes, p.bytes); }
      ValInjective(p.bytes, q.bytes);
    }
  }

  lemma ShortZero()
    ensures FitsShort(0) && FitsShort(1) && FitsShort(-1)
    ensures MAXTAGGED >= 63
  {
    Pow256Monotone(0, WORD - 1);
  }

  /** A value below 256^(w-1) fits a tagged word, which itself is below 256^w. */
  lemma ShortRange()
    ensures Pow256(WORD - 1) <= MAXTAGGED && MAXTAGGED + 1 < Pow256(WORD)
  {
    Pow256Monotone(0, WORD - 1);
  }

  /** Any long magnitude exceeds the magnitude of any short value, so sign alone orders them. */
  lemma LongBeyondShort(p: PolyInt)
    requires p.Long? && Canonical(p)
    ensures p.negative ==> p.Value() < -MAXTAGGED - 1
    ensures !p.negative ==> p.Value() > MAXTAGGED
  {
    ShortZero();
  }

  /** A vector of bytes with its leading zeros counted off. */
  method GetLength(u: seq<byte>) returns (lu: nat)
    ensures lu == Trimmed(u)
  {
    lu := |u|;
    while lu > 0 && u[lu - 1] == 0
      invariant lu <= |u|
      invariant forall i :: lu <= i < |u| ==> u[i] == 0
    {
      lu := lu - 1;
    }
    TrimmedUnique(u, lu);
  }

  /** A fresh zero-filled byte object large enough for the given number of bytes. */
  method AllocAndSave(bytes: nat) returns (z: array<byte>)
    requires bytes > 0
    ensures fresh(z) && z.Length >= bytes && z.Length >= WORD && z.Length % WORD == 0
    ensures forall i :: 0 <= i < z.Length ==> z[i] == 0
  {
    WordsCover(bytes);
    MultipleOfWord(Words(bytes));
    z := new byte[Words(bytes) * WORD](_ => 0);
  }

  /** The magnitude and sign of an integer of either form. */
  method GetLong(x: PolyInt) returns (bytes: seq<byte>, negative: bool)
    requires Canonical(x)
    ensures x.Value() == Signed(negative, Val(bytes))
    ensures negative ==> Val(bytes) > 0
    ensures |bytes| >= WORD && |bytes| % WORD == 0
    ensures x.Short? ==> |bytes| == WORD
  {
    ShortZero();
    if x.Short? {
      var v := x.n;
      negative := v < 0;
      if negative {
        v := -v;
      }
      bytes := ExtendBytes(v);
    } else {
      bytes, negative := x.bytes, x.negative;
      WordsCover(Trimmed(bytes));
      assert |bytes| % WORD == 0 by { MultipleOfWord(Words(Trimmed(bytes))); }
      if Trimmed(bytes) == 0 { TrimmedVal(bytes); }
    }
  }

  lemma MultipleOfWord(k: nat)
    ensures (k * WORD) % WORD == 0
  {
    DivisionUnique(k * WORD, WORD, k, 0);
  }

  /** The word-sized extension buffer of a short magnitude, low-order byte first. */
  method ExtendBytes(v: nat) returns (bytes: seq<byte>)
    requires v <= MAXTAGGED + 1
    ensures |bytes| == WORD && Val(bytes) == v
  {
    var u := new byte[WORD](_ => 0);
    var rest := v;
    var i := 0;
    ShortRange();
    while i < WORD
      invariant 0 <= i <= WORD && 0 <= rest
      invariant v == Val(u[..i]) + rest * Pow256(i)
    {
      var was := rest;
      u[i] := rest % 256;
      rest := rest / 256;
      assert u[..i + 1] == u[..i] + [u[i]];
      ValAppend(u[..i], u[i]);
      DigitStep(was, Pow256(i));
      i := i + 1;
    }
    if rest > 0 { MulMonotone(1, rest, Pow256(WORD)); }
    bytes := u[..];
    assert u[..WORD] == u[..];
  }

  lemma DigitStep(n: int, p: int)
    ensures n * p == (n % 256) * p + (n / 256) * (256 * p)
  {
    MulDistribute(n % 256, 256 * (n / 256), p);
    MulAssoc(n / 256, 256, p);
    assert 256 * (n / 256) == (n / 256) * 256;
  }

  /** The first word of a buffer as an unsigned machine word. */
  method WordValue(u: array<byte>) returns (r: nat)
    requires u.Length >= WORD
    ensures r == Val(u[..WORD])
  {
    r := 0;
    for i := 0 to WORD
      invariant r == Val(u[..i])
    {
      OrNextByte(u[..i], u[i]);
      assert u[..i + 1] == u[..i] + [u[i]];
      r := Bitwise(Or, r, u[i] * Pow2(8 * i));
    }
  }

  lemma OrNextByte(low: seq<byte>, d: byte)
    ensures Bitwise(Or, Val(low), d * Pow2(8 * |low|)) == Val(low + [d])
  {
    Pow256IsPow2(|low|);
    ValBound(low);
    OrDisjoint(8 * |low|, Val(low), d);
    ValAppend(low, d);
  }

  lemma {:induction false} Pow256IsPow2(n: nat)
    ensures Pow256(n) == Pow2(8 * n)
  {
    if n > 0 {
      Pow256IsPow2(n - 1);
      var k := 8 * (n - 1);
      assert Pow2(k + 8) == 2 * Pow2(k + 7);
      assert Pow2(k + 7) == 2 * Pow2(k + 6);
      assert Pow2(k + 6) == 2 * Pow2(k + 5);
      assert Pow2(k + 5) == 2 * Pow2(k + 4);
      assert Pow2(k + 4) == 2 * Pow2(k + 3);
      assert Pow2(k + 3) == 2 * Pow2(k + 2);
      assert Pow2(k + 2) == 2 * Pow2(k + 1);
      assert Pow2(k + 1) == 2 * Pow2(k);
    }
  }

  /** Force a result buffer into its shortest form, tagged if it fits. */
  method MakeCanonical(x: array<byte>, negative: bool) returns (r: PolyInt)
    requires x.Length >= WORD && x.Length % WORD == 0
    ensures Canonical(r) && r.Value() == Signed(negative, Val(x[..]))
  {
    var size := GetLength(x[..]);
    TrimmedVal(x[..]);
    WordsCover(size);
    if size <= WORD {
      var v := WordValue(x);
      ValTrim(x[..], WORD);
      assert x[..][..WORD] == x[..WORD];
      if v <= MAXTAGGED || (v == MAXTAGGED + 1 && negative) {
        r := Short(if negative then -v else v);
        return;
      }
    }
    if size > WORD {
      ShortRange();
      LongTooBig(x[..], size);
    }
    var words := Words(size) * WORD;
    WordsWithin(size, x.Length);
    r := Long(negative, x[..words]);
    assert x[..][..words] == x[..words];
    ValTrim(x[..], words);
    TrimmedUnique(x[..words], size);
  }

  lemma LongTooBig(s: seq<byte>, size: nat)
    requires size == Trimmed(s) && size > WORD
    ensures Val(s) > MAXTAGGED + 1
  {
    TrimmedVal(s);
    ValLeading(s[..size]);
    Pow256Monotone(WORD, size - 1);
    ShortRange();
  }

  lemma WordsWithin(size: nat, length: nat)
    requires size <= length && length % WORD == 0
    ensures size <= Words(size) * WORD <= length
  {
    WordsCover(size);
    var k := length / WORD;
    assert length == k * WORD;
    if Words(size) > k {
      MulMonotone(k + 1, Words(size), WORD);
      MulDistribute(k, 1, WORD);
    }
    MulMonotone(Words(size), k, WORD);
  }
}
