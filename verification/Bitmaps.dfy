/** Bitmaps: one bit for each word of a heap area, eight to a byte, low-order bit first. */
module Bitmaps {

  /** A one shifted left k places. */
  function OneShl(k: nat): bv8
    requires k < 8
  {
    if k == 0 then 1 else OneShl(k - 1) << 1
  }

  /** The mask of bit n within its byte. */
  function BitN(n: nat): bv8 {
    OneShl(n % 8)
  }

  /** A byte with bits k and above set: 0xff shifted left k places. */
  function HighMask(k: nat): bv8
    requires k <= 8
  {
    if k == 0 then 0xff else HighMask(k - 1) << 1
  }

  lemma MaskValues()
    ensures BitN(0) == 1 && BitN(1) == 2 && BitN(2) == 4 && BitN(3) == 8
    ensures BitN(4) == 16 && BitN(5) == 32 && BitN(6) == 64 && BitN(7) == 128
    ensures HighMask(0) == 0xff && HighMask(1) == 0xfe && HighMask(2) == 0xfc && HighMask(3) == 0xf8
    ensures HighMask(4) == 0xf0 && HighMask(5) == 0xe0 && HighMask(6) == 0xc0 && HighMask(7) == 0x80
    ensures HighMask(8) == 0
  {
    assert OneShl(1) == OneShl(0) << 1 && OneShl(2) == OneShl(1) << 1 && OneShl(3) == OneShl(2) << 1;
    assert OneShl(4) == OneShl(3) << 1 && OneShl(5) == OneShl(4) << 1 && OneShl(6) == OneShl(5) << 1;
    assert OneShl(7) == OneShl(6) << 1;
    assert HighMask(1) == HighMask(0) << 1 && HighMask(2) == HighMask(1) << 1 && HighMask(3) == HighMask(2) << 1;
    assert HighMask(4) == HighMask(3) << 1 && HighMask(5) == HighMask(4) << 1 && HighMask(6) == HighMask(5) << 1;
    assert HighMask(7) == HighMask(6) << 1 && HighMask(8) == HighMask(7) << 1;
  }

  lemma BitNPeriodic(n: nat)
    ensures BitN(n) == BitN(n % 8)
  {
  }

  lemma HighMaskBit(k: nat, j: nat)
    requires k <= 8 && j < 8
    ensures HighMask(k) & BitN(j) != 0 <==> k <= j
  {
    MaskValues();
    assert k == 0 || k == 1 || k == 2 || k == 3 || k == 4 || k == 5 || k == 6 || k == 7 || k == 8;
    assert j == 0 || j == 1 || j == 2 || j == 3 || j == 4 || j == 5 || j == 6 || j == 7;
  }

  /** Bits from..to-1 of a byte. */
  lemma RangeMaskBit(from: nat, to: nat, j: nat)
    requires from <= 8 && to <= 8 && j < 8
    ensures (HighMask(from) & !HighMask(to)) & BitN(j) != 0 <==> from <= j < to
  {
    HighMaskBit(from, j);
    HighMaskBit(to, j);
    OneBit(HighMask(from), HighMask(to), j);
  }

  lemma OneBit(a: bv8, b: bv8, j: nat)
    requires j < 8
    ensures (a & !b) & BitN(j) != 0 <==> a & BitN(j) != 0 && b & BitN(j) == 0
  {
    MaskValues();
    assert j == 0 || j == 1 || j == 2 || j == 3 || j == 4 || j == 5 || j == 6 || j == 7;
  }

  lemma OrBit(a: bv8, m: bv8, b: bv8)
    ensures (a | m) & b != 0 <==> a & b != 0 || m & b != 0
  {
  }

  /** Bit n of a vector of bytes. */
  predicate IsSet(s: seq<bv8>, n: nat)
    requires n < 8 * |s|
  {
    s[n / 8] & BitN(n) != 0
  }

  /** Or-ing a mask of bits from..to-1 into byte k sets exactly the corresponding bits. */
  lemma OrByte(s: seq<bv8>, s': seq<bv8>, k: nat, mask: bv8, from: nat, to: nat)
    requires k < |s| && from <= to <= 8 && s' == s[k := s[k] | mask]
    requires mask == HighMask(from) & !HighMask(to)
    ensures forall n: nat :: n < 8 * |s| ==> (IsSet(s', n) <==> IsSet(s, n) || 8 * k + from <= n < 8 * k + to)
  {
    hide BitN, HighMask, IsSet;
    assert forall n: nat :: OrsBit(s[k], s'[k], from, to, n) by {
      forall n: nat ensures OrsBit(s[k], s'[k], from, to, n) {
        OrBitAt(s[k], mask, from, to, n);
      }
    }
    BytesChanged(s, s', k, from, to);
  }

  /** Bit n of a byte is set if it was or lies in the range. */
  predicate OrsBit(a: bv8, a': bv8, from: nat, to: nat, n: nat) {
    a' & BitN(n) != 0 <==> a & BitN(n) != 0 || from <= n % 8 < to
  }

  lemma ByteOf(n: nat)
    ensures 8 * (n / 8) <= n < 8 * (n / 8) + 8 && n % 8 == n - 8 * (n / 8)
  {
  }

  lemma BytesChanged(s: seq<bv8>, s': seq<bv8>, k: nat, from: nat, to: nat)
    requires k < |s| == |s'| && from <= to <= 8 && s' == s[k := s'[k]] && forall n: nat :: OrsBit(s[k], s'[k], from, to, n)
    ensures forall n: nat :: n < 8 * |s| ==> (IsSet(s', n) <==> IsSet(s, n) || 8 * k + from <= n < 8 * k + to)
  {
    hide BitN;
    forall n: nat | n < 8 * |s|
      ensures IsSet(s', n) <==> IsSet(s, n) || 8 * k + from <= n < 8 * k + to
    {
      ByteOf(n);
      assert OrsBit(s[k], s'[k], from, to, n);
    }
  }

  lemma OrBitAt(a: bv8, mask: bv8, from: nat, to: nat, n: nat)
    requires from <= to <= 8 && mask == HighMask(from) & !HighMask(to)
    ensures OrsBit(a, a | mask, from, to, n)
  {
    hide BitN, HighMask;
    RangeMaskBit(from, to, n % 8);
    BitNPeriodic(n);
    OrBit(a, mask, BitN(n));
  }

  lemma FullByte(k: nat, n: nat)
    requires n / 8 == k
    ensures (0xff as bv8) & BitN(n) != 0
  {
    HighMaskBit(0, n % 8);
    MaskValues();
    BitNPeriodic(n);
  }

  lemma ZeroByte(n: nat)
    ensures (0 as bv8) & BitN(n) == 0
  {
  }

  class Bitmap {
    var m_bits: array<bv8>

    /** The number of bits there is room for. */
    function Size(): nat
      reads this
    {
      8 * m_bits.Length
    }

    predicate TestBit(n: nat)
      requires n < Size()
      reads this, m_bits
    {
      m_bits[n / 8] & BitN(n) != 0
    }

    /** Room for the given number of bits, all clear. */
    constructor Create(bits: nat)
      ensures fresh(m_bits) && bits <= Size() < bits + 8
      ensures forall n: nat :: n < Size() ==> !TestBit(n)
    {
      m_bits := new bv8[(bits + 7) / 8](_ => 0);
    }

    method SetBit(n: nat)
      requires n < Size()
      modifies m_bits
      ensures forall i: nat :: i < Size() ==> (TestBit(i) <==> old(TestBit(i)) || i == n)
    {
      ghost var s := m_bits[..];
      m_bits[n / 8] := m_bits[n / 8] | BitN(n);
      forall i: nat | i < Size()
        ensures TestBit(i) <==> old(TestBit(i)) || i == n
      {
        if i / 8 == n / 8 {
          OrBit(s[n / 8], BitN(n), BitN(i));
          DistinctBits(n % 8, i % 8);
          BitNPeriodic(n);
          BitNPeriodic(i);
        }
      }
    }

    /** Set bits from..to-1 of byte k. */
    method OrMask(k: nat, mask: bv8, ghost from: nat, ghost to: nat)
      requires k < m_bits.Length && from <= to <= 8
      requires mask == HighMask(from) & !HighMask(to)
      modifies m_bits
      ensures forall n: nat :: n < Size() ==> (TestBit(n) <==> old(TestBit(n)) || 8 * k + from <= n < 8 * k + to)
    {
      ghost var s := m_bits[..];
      m_bits[k] := m_bits[k] | mask;
      OrByte(s, m_bits[..], k, mask, from, to);
      assert forall n: nat :: n < Size() ==> (TestBit(n) <==> IsSet(m_bits[..], n));
      assert forall n: nat :: n < Size() ==> (old(TestBit(n)) <==> IsSet(s, n));
    }

    /** Set a range of bits, a byte at a time where possible. */
    method SetBits(bitno: nat, length: nat)
      requires 0 < length && bitno + length <= Size()
      modifies m_bits
      ensures forall n: nat :: n < Size() ==> (TestBit(n) <==> old(TestBit(n)) || bitno <= n < bitno + length)
    {
      hide BitN, HighMask;
      var byteIndex := bitno / 8;
      var startBit := bitno % 8;
      var stopBit := startBit + length;
      if stopBit < 8 {
        OrMask(byteIndex, HighMask(startBit) & !HighMask(stopBit), startBit, stopBit);
        return;
      }
      // Set all the bits we can in the first byte.
      OpenMask(startBit);
      OrMask(byteIndex, HighMask(startBit), startBit, 8);
      SetRest(byteIndex, stopBit - 8);
    }

    /** The full bytes and the final part byte of SetBits. */
    method SetRest(firstByte: nat, count: nat)
      requires 8 * (firstByte + 1) + count <= Size()
      modifies m_bits
      ensures forall n: nat :: n < Size() ==>
        (TestBit(n) <==> old(TestBit(n)) || 8 * (firstByte + 1) <= n < 8 * (firstByte + 1) + count)
    {
      var byteIndex, length := firstByte, count;
      while 8 <= length
        invariant 0 <= length && firstByte <= byteIndex
        invariant 8 * (byteIndex + 1) + length == 8 * (firstByte + 1) + count
        invariant forall n: nat :: n < Size() ==>
          (TestBit(n) <==> old(TestBit(n)) || 8 * (firstByte + 1) <= n < 8 * (byteIndex + 1))
      {
        byteIndex := byteIndex + 1;
        SetByte(byteIndex);
        length := length - 8;
      }
      if length == 0 {
        return;
      }
      byteIndex := byteIndex + 1;
      LowMask(length);
      OrMask(byteIndex, 0xff & !HighMask(length), 0, length);
    }

    method SetByte(k: nat)
      requires k < m_bits.Length
      modifies m_bits
      ensures forall n: nat :: n < Size() ==> (TestBit(n) <==> old(TestBit(n)) || 8 * k <= n < 8 * k + 8)
    {
      m_bits[k] := 0xff;
      forall n: nat | n < Size()
        ensures TestBit(n) <==> old(TestBit(n)) || 8 * k <= n < 8 * k + 8
      {
        if n / 8 == k {
          FullByte(k, n);
        }
      }
    }

    /** Clear at least the given range: whole bytes are cleared. */
    method ClearBits(bitno: nat, length: nat)
      requires bitno + length <= Size()
      modifies m_bits
      ensures forall n: nat :: n < Size() ==>
        (TestBit(n) <==> old(TestBit(n)) && !(bitno / 8 <= n / 8 < (bitno + length + 7) / 8))
      ensures forall n: nat :: bitno <= n < bitno + length ==> !TestBit(n)
    {
      var byteIndex := bitno / 8;
      var total := length + bitno % 8;
      var bytes := total / 8;
      if total % 8 != 0 {
        bytes := bytes + 1;
      }
      forall k | byteIndex <= k < byteIndex + bytes {
        m_bits[k] := 0;
      }
      assert byteIndex + bytes == (bitno + length + 7) / 8 || (total == 0 && bytes == 0);
    }

    /** The n bits from c upwards are all clear. */
    predicate FreeRun(c: nat, n: nat)
      reads this, m_bits
    {
      c + n <= Size() && forall k: nat :: c <= k < c + n ==> !TestBit(k)
    }

    /**
     The zero bits from bitno upwards. The answer is exact when it is below n; otherwise it only
     says that there are at least n, since whole bytes may run past the end of the range.
     */
    method CountZeroBits(bitno: nat, n: nat) returns (zeroBits: nat)
      requires 0 < n && bitno + n <= Size()
      ensures zeroBits < n ==> FreeRun(bitno, zeroBits) && TestBit(bitno + zeroBits)
      ensures zeroBits >= n ==> FreeRun(bitno, n) && zeroBits < n + 8
    {
      hide BitN, MaskAt;
      var byteIndex := bitno / 8;
      var mask := BitN(bitno);
      zeroBits := 0;
      FirstMask(bitno);
      while mask != 0
        invariant zeroBits < n && bitno % 8 + zeroBits <= 8 && mask == MaskAt(bitno % 8 + zeroBits)
        invariant FreeRun(bitno, zeroBits)
        decreases 8 - zeroBits
      {
        MaskOfBit(bitno, zeroBits, byteIndex);
        if m_bits[byteIndex] & mask != 0 {
          return;
        }
        assert !TestBit(bitno + zeroBits);
        zeroBits := zeroBits + 1;
        if zeroBits == n {
          return;
        }
        mask := (mask << 1) & 0xff;
      }
      NoMaskLeft(bitno, zeroBits);
      zeroBits := CountZeroBytes(bitno, n, zeroBits);
    }

    /** The whole bytes and the final part byte of CountZeroBits. */
    method CountZeroBytes(bitno: nat, n: nat, found: nat) returns (zeroBits: nat)
      requires found < n && bitno + n <= Size() && (bitno + found) % 8 == 0
      requires FreeRun(bitno, found)
      ensures zeroBits < n ==> FreeRun(bitno, zeroBits) && TestBit(bitno + zeroBits)
      ensures zeroBits >= n ==> FreeRun(bitno, n) && zeroBits < n + 8
    {
      zeroBits := found;
      var byteIndex := (bitno + found) / 8;
      while zeroBits < n && m_bits[byteIndex] == 0
        invariant bitno + zeroBits == 8 * byteIndex && zeroBits < n + 8
        invariant bitno + zeroBits <= Size() && FreeRun(bitno, zeroBits)
        decreases n + 8 - zeroBits
      {
        forall k: nat | 8 * byteIndex <= k < 8 * byteIndex + 8
          ensures !TestBit(k)
        {
          ZeroByte(k);
          assert k / 8 == byteIndex;
        }
        zeroBits := zeroBits + 8;
        byteIndex := byteIndex + 1;
      }
      if zeroBits < n {
        zeroBits := CountPartByte(bitno, n, zeroBits, byteIndex);
      }
    }

    /** The zero bits at the bottom of a byte that is not zero. */
    method CountPartByte(bitno: nat, n: nat, found: nat, byteIndex: nat) returns (zeroBits: nat)
      requires found < n && bitno + n <= Size() && bitno + found == 8 * byteIndex
      requires m_bits[byteIndex] != 0
      requires FreeRun(bitno, found)
      ensures zeroBits <= n && FreeRun(bitno, zeroBits)
      ensures zeroBits < n ==> TestBit(bitno + zeroBits)
    {
      hide BitN;
      zeroBits := found;
      var mask: bv8 := 1;
      ghost var byte := m_bits[byteIndex];
      ghost var j := LowestSet(byte);
      assert BitN(0) == 1 by { MaskValues(); }
      while zeroBits < n && m_bits[byteIndex] & mask == 0
        invariant found <= zeroBits <= n && zeroBits - found <= j
        invariant mask == BitN(zeroBits - found)
        invariant FreeRun(bitno, zeroBits)
        decreases n - zeroBits
      {
        PartByteBit(byte, byteIndex, zeroBits - found, j);
        assert !TestBit(bitno + zeroBits);
        zeroBits := zeroBits + 1;
        mask := (mask << 1) & 0xff;
      }
      if zeroBits < n {
        PartByteBit(byte, byteIndex, zeroBits - found, j);
      }
    }

    /**
     The highest run of n clear bits that ends at or below start and begins at or above limit;
     start itself means failure, which for a run beginning at limit is only certain if there are more than n bits.
     */
    method FindFree(limit: nat, start: nat, n: nat) returns (c: nat)
      requires 0 < n && start <= Size()
      ensures c != start ==> limit <= c && c + n <= start && FreeRun(c, n)
      ensures c != start ==> forall d: nat :: c < d && d + n <= start ==> !FreeRun(d, n)
      ensures c == start ==> forall d: nat :: limit < d && d + n <= start ==> !FreeRun(d, n)
      ensures c == start <==> limit + n >= start || forall d: nat :: limit <= d && d + n <= start ==> !FreeRun(d, n)
    {
      if limit + n >= start {
        return start;
      }
      var candidate := start - n;
      while true
        invariant limit <= candidate && candidate + n <= start
        invariant forall d: nat :: candidate < d && d + n <= start ==> !FreeRun(d, n)
        decreases candidate
      {
        var bitsFree := CountZeroBits(candidate, n);
        if n <= bitsFree {
          return candidate;
        }
        // Every run beginning above the next candidate contains the bit found to be set.
        assert TestBit(candidate + bitsFree);
        if candidate < n - bitsFree + limit {
          return start;
        }
        candidate := candidate - (n - bitsFree);
      }
    }

    /** The number of bits set in the bytes that hold the first size bits. */
    method CountSetBits(size: nat) returns (count: nat)
      requires size <= Size()
      ensures count == SetBelow(m_bits[..], 8 * ((size + 7) / 8))
    {
      var bytes := (size + 7) / 8;
      count := 0;
      var i := 0;
      while i < bytes
        invariant 0 <= i <= bytes && count == SetBelow(m_bits[..], 8 * i)
      {
        var byte := m_bits[i];
        ByteBits(m_bits[..], i);
        OnesOfExtremes();
        if byte == 0xff {
          count := count + 8;
        } else {
          var c := CountByte(byte);
          count := count + c;
        }
        i := i + 1;
      }
    }
  }

  /** The number of ones in a byte, cleared one at a time from the lowest. */
  method CountByte(bits: bv8) returns (count: nat)
    ensures count == Ones(bits)
  {
    var byte := bits;
    count := 0;
    OnesOfExtremes();
    while byte != 0
      invariant count + Ones(byte) == Ones(bits)
      decreases Ones(byte)
    {
      LowestOne(byte);
      var b := byte & (0 - byte);
      count := count + 1;
      byte := byte - b;
    }
  }

  function One(b: bool): nat { if b then 1 else 0 }

  /** The ones among the low k bits of a byte. */
  function OnesBelow(b: bv8, k: nat): nat
    requires k <= 8
  {
    if k == 0 then 0 else OnesBelow(b, k - 1) + One(b & BitN(k - 1) != 0)
  }

  function Ones(b: bv8): nat { OnesBelow(b, 8) }

  lemma OnesByMask(b: bv8)
    ensures Ones(b) == One(b & 1 != 0) + One(b & 2 != 0) + One(b & 4 != 0) + One(b & 8 != 0)
                     + One(b & 16 != 0) + One(b & 32 != 0) + One(b & 64 != 0) + One(b & 128 != 0)
  {
    LowOnesByMask(b);
    assert BitN(4) == 16 && BitN(5) == 32 && BitN(6) == 64 && BitN(7) == 128 by { MaskValues(); }
    assert OnesBelow(b, 6) == OnesBelow(b, 5) + One(b & BitN(5) != 0);
    assert OnesBelow(b, 5) == OnesBelow(b, 4) + One(b & BitN(4) != 0);
    assert OnesBelow(b, 7) == OnesBelow(b, 6) + One(b & BitN(6) != 0);
  }

  lemma LowOnesByMask(b: bv8)
    ensures OnesBelow(b, 4) == One(b & 1 != 0) + One(b & 2 != 0) + One(b & 4 != 0) + One(b & 8 != 0)
  {
    assert BitN(0) == 1 && BitN(1) == 2 && BitN(2) == 4 && BitN(3) == 8 by { MaskValues(); }
    assert OnesBelow(b, 1) == One(b & BitN(0) != 0);
    assert OnesBelow(b, 2) == OnesBelow(b, 1) + One(b & BitN(1) != 0);
    assert OnesBelow(b, 3) == OnesBelow(b, 2) + One(b & BitN(2) != 0);
  }

  lemma OnesOfExtremes()
    ensures Ones(0) == 0 && Ones(0xff) == 8
  {
    OnesByMask(0);
    OnesByMask(0xff);
  }

  lemma LowestOne(b: bv8)
    requires b != 0
    ensures Ones(b - (b & (0 - b))) == Ones(b) - 1
  {
    OnesByMask(b);
    OnesByMask(b - (b & (0 - b)));
  }

  /** The number of set bits below position n. */
  function SetBelow(s: seq<bv8>, n: nat): nat
    requires n <= 8 * |s|
  {
    if n == 0 then 0 else SetBelow(s, n - 1) + One(IsSet(s, n - 1))
  }

  lemma ByteBits(s: seq<bv8>, i: nat)
    requires i < |s|
    ensures SetBelow(s, 8 * i + 8) == SetBelow(s, 8 * i) + Ones(s[i])
  {
    PartByteBits(s, i, 8);
  }

  lemma {:induction false} PartByteBits(s: seq<bv8>, i: nat, k: nat)
    requires i < |s| && k <= 8
    ensures SetBelow(s, 8 * i + k) == SetBelow(s, 8 * i) + OnesBelow(s[i], k)
  {
    if k > 0 {
      PartByteBits(s, i, k - 1);
      BitNPeriodic(8 * i + k - 1);
      assert (8 * i + k - 1) / 8 == i && (8 * i + k - 1) % 8 == k - 1;
    }
  }

  lemma MaskShift(j: nat)
    requires j < 8
    ensures (BitN(j) << 1) & 0xff == if j < 7 then BitN(j + 1) else 0
    ensures BitN(j) != 0
  {
    MaskValues();
    assert j == 0 || j == 1 || j == 2 || j == 3 || j == 4 || j == 5 || j == 6 || j == 7;
  }

  /** The mask of the bit k places above bitno, within the byte that holds bitno. */
  lemma NextMask(bitno: nat, k: nat, byteIndex: nat)
    requires byteIndex == bitno / 8 && bitno % 8 + k < 8
    ensures BitN(bitno + k) == BitN(bitno % 8 + k) != 0
    ensures (bitno + k) / 8 == byteIndex
    ensures (BitN(bitno % 8 + k) << 1) & 0xff == if bitno % 8 + k < 7 then BitN(bitno % 8 + k + 1) else 0
  {
    BitNPeriodic(bitno + k);
    assert (bitno + k) % 8 == bitno % 8 + k;
    MaskShift(bitno % 8 + k);
  }

  /** The mask of bit k of a byte, or none past the last. */
  function MaskAt(k: nat): bv8 {
    if k < 8 then BitN(k) else 0
  }

  lemma FirstMask(bitno: nat)
    ensures BitN(bitno) == MaskAt(bitno % 8 + 0)
  {
    BitNPeriodic(bitno);
  }

  lemma MaskOfBit(bitno: nat, k: nat, byteIndex: nat)
    requires byteIndex == bitno / 8 && bitno % 8 + k <= 8 && MaskAt(bitno % 8 + k) != 0
    ensures bitno % 8 + k < 8 && (bitno + k) / 8 == byteIndex && BitN(bitno + k) == MaskAt(bitno % 8 + k)
    ensures (MaskAt(bitno % 8 + k) << 1) & 0xff == MaskAt(bitno % 8 + (k + 1))
  {
    hide BitN;
    NextMask(bitno, k, byteIndex);
  }

  lemma NoMaskLeft(bitno: nat, k: nat)
    requires bitno % 8 + k <= 8 && MaskAt(bitno % 8 + k) == 0
    ensures (bitno + k) % 8 == 0
  {
    hide BitN;
    if bitno % 8 + k < 8 {
      NextMask(bitno, k, bitno / 8);
    }
    ByteOf(bitno);
    ByteOf(bitno + k);
  }

  /** Bit k of byte i of a vector, and the mask of the next. */
  lemma PartByteBit(b: bv8, i: nat, k: nat, j: nat)
    requires k <= j < 8 && b & BitN(j) != 0
    ensures (8 * i + k) / 8 == i && BitN(8 * i + k) == BitN(k)
    ensures b & BitN(k) == 0 ==> k < j && (BitN(k) << 1) & 0xff == BitN(k + 1)
  {
    hide BitN;
    NextMask(8 * i, k, i);
  }

  lemma LowestSet(b: bv8) returns (j: nat)
    requires b != 0
    ensures j < 8 && b & BitN(j) != 0
  {
    MaskValues();
    j := if b & 1 != 0 then 0 else if b & 2 != 0 then 1 else if b & 4 != 0 then 2 else if b & 8 != 0 then 3
         else if b & 16 != 0 then 4 else if b & 32 != 0 then 5 else if b & 64 != 0 then 6 else 7;
  }

  lemma OpenMask(k: nat)
    requires k <= 8
    ensures HighMask(k) & !HighMask(8) == HighMask(k)
  {
    MaskValues();
  }

  lemma LowMask(k: nat)
    requires k <= 8
    ensures 0xff & !HighMask(k) == HighMask(0) & !HighMask(k)
  {
    MaskValues();
  }

  lemma DistinctBits(i: nat, j: nat)
    requires i < 8 && j < 8
    ensures BitN(i) & BitN(j) != 0 <==> i == j
  {
    MaskValues();
    assert i == 0 || i == 1 || i == 2 || i == 3 || i == 4 || i == 5 || i == 6 || i == 7;
    assert j == 0 || j == 1 || j == 2 || j == 3 || j == 4 || j == 5 || j == 6 || j == 7;
  }
}
