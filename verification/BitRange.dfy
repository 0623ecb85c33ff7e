// Reading and writing a range of bits in a byte buffer, bit by bit.

module BitRange {
  import opened Arith
  import opened BitOps
  import opened Bytes

  // ---- one bit of one byte ---------------------------------------------------------------------------

  predicate Bit(b: byte, j: nat)
    requires j < 8
  {
    BitAnd(Shr(b, j), 1) == 1
  }

  function Cleared(b: byte, j: nat): (r: byte)
    requires j < 8
  {
    PowMonotone(j, 7);
    AndAtMost(b, 0xFF - Pow2(j));
    BitAnd(b, 0xFF - Pow2(j))
  }

  function Joined(b: byte, j: nat, v: bool): (r: byte)
    requires j < 8
  {
    PowMonotone(j, 7);
    OrBelow(b, (if v then 1 else 0) * Pow2(j), 8);
    BitOr(b, (if v then 1 else 0) * Pow2(j))
  }

  lemma BitIsDigit(b: byte, j: nat)
    requires j < 8
    ensures Bit(b, j) == (Digit(b, j) == 1)
  {
    AndOne(Shr(b, j));
  }

  // Writing a bit changes that bit and no other.
  lemma WrittenBit(b: byte, j: nat, v: bool, k: nat)
    requires j < 8 && k < 8
    ensures Bit(Joined(Cleared(b, j), j, v), k) == if k == j then v else Bit(b, k)
  {
    hide BitAnd, BitOr, Digit, Bit, Pow2;
    assert Pow2(8) == 0x100 by { PowEight(); }
    PowMonotone(j, 7);
    assert Pow2(7) == 0x80 by { PowEight(); }
    var c: byte := Cleared(b, j);
    var m: nat := (if v then 1 else 0) * Pow2(j);
    AndDigit(b, 0xFF - Pow2(j), k);
    ComplementDigit(Pow2(j), 8, k);
    PowDigit(j, k);
    ZeroDigit(k);
    OrDigit(c, m, k);
    BitIsDigit(b, k);
    BitIsDigit(Joined(c, j, v), k);
  }

  lemma PowEight()
    ensures Pow2(7) == 0x80 && Pow2(8) == 0x100
  {
  }

  // ---- a range of bits ----------------------------------------------------------------------------------

  function BitAt(buf: seq<byte>, i: nat): (b: nat)
    requires i < 8 * |buf|
    ensures b <= 1
  {
    if Bit(buf[i / 8], i % 8) then 1 else 0
  }

  // The number whose binary digits are the bits lsb..lsb+width-1, lowest first.
  ghost function Bits(buf: seq<byte>, lsb: nat, width: nat): (v: nat)
    requires lsb + width <= 8 * |buf|
    ensures v < Pow2(width)
    decreases width
  {
    if width == 0 then 0 else BitAt(buf, lsb) + 2 * Bits(buf, lsb + 1, width - 1)
  }

  // Bits that are the digits of a value make up the value, cut to the width.
  lemma {:induction false} DigitsMakeValue(buf: seq<byte>, lsb: nat, width: nat, value: nat)
    requires lsb + width <= 8 * |buf|
    requires forall i :: 0 <= i < width ==> BitAt(buf, lsb + i) == Digit(value, i)
    ensures Bits(buf, lsb, width) == value % Pow2(width)
    decreases width
  {
    if width > 0 {
      forall i | 0 <= i < width - 1 ensures BitAt(buf, lsb + 1 + i) == Digit(value / 2, i) {
        DigitStep(value, i);
        assert BitAt(buf, lsb + (i + 1)) == Digit(value, i + 1);
      }
      DigitsMakeValue(buf, lsb + 1, width - 1, value / 2);
      HalfRemainder(value, Pow2(width - 1));
      assert BitAt(buf, lsb + 0) == Digit(value, 0);
    }
  }

  // Reads the bits msb..lsb as a number of valueBits bits; they must fit.
  method GetBitRange(buf: array<byte>, msb: nat, lsb: nat, valueBits: nat) returns (value: nat)
    requires lsb <= msb < 8 * buf.Length && msb - lsb + 1 <= valueBits
    ensures value == Bits(buf[..], lsb, msb - lsb + 1)
  {
    hide Bit, Pow2, Bits;
    NoBits(buf[..], msb + 1);
    value := 0;
    var i := msb + 1;
    while i > lsb
      invariant lsb <= i <= msb + 1
      invariant value == Bits(buf[..], i, msb + 1 - i)
    {
      i := i - 1;
      ReadStep(buf[..], i, msb - i, valueBits);
      value := value * 2 % Pow2(valueBits);
      value := value + if Bit(buf[i / 8], i % 8) then 1 else 0;
    }
    var shift := valueBits - (msb - lsb + 1);
    ShiftAway(value, msb - lsb + 1, shift);
    value := value * Pow2(shift) % Pow2(valueBits) / Pow2(shift);
  }

  lemma NoBits(buf: seq<byte>, i: nat)
    requires i <= 8 * |buf|
    ensures Bits(buf, i, 0) == 0
  {
  }

  lemma ReadStep(buf: seq<byte>, i: nat, width: nat, valueBits: nat)
    requires i + 1 + width <= 8 * |buf| && width < valueBits
    ensures Bits(buf, i + 1, width) * 2 % Pow2(valueBits) + BitAt(buf, i) == Bits(buf, i, width + 1)
  {
    PowMonotone(width + 1, valueBits);
    DivModUnique(Bits(buf, i + 1, width) * 2, Pow2(valueBits), 0, Bits(buf, i + 1, width) * 2);
  }

  // Shifting up to the top of the value type and down again loses nothing.
  lemma ShiftAway(value: nat, width: nat, shift: nat)
    requires value < Pow2(width)
    ensures value * Pow2(shift) % Pow2(width + shift) / Pow2(shift) == value
  {
    PowSum(width, shift);
    var p := Pow2(shift);
    assert value * p < Pow2(width) * p by { LessTimes(value, Pow2(width), p); }
    DivModUnique(value * p, Pow2(width + shift), 0, value * p);
    DivModUnique(value * p, p, value, 0);
  }

  lemma LessTimes(a: int, b: int, p: int)
    requires a < b && p > 0
    ensures a * p < b * p
  {
  }

  // One buffer differs from another by the digits of a value in the bits lsb..msb.
  ghost predicate Written(before: seq<byte>, after: seq<byte>, msb: nat, lsb: nat, value: nat) {
    |after| == |before| &&
    forall i :: 0 <= i < 8 * |before| ==>
      BitAt(after, i) == if lsb <= i <= msb then Digit(value, i - lsb) else BitAt(before, i)
  }

  // Writes the lowest msb-lsb+1 digits of value into the bits lsb..msb.
  method SetBitRange(buf: array<byte>, msb: nat, lsb: nat, value: nat)
    requires lsb <= msb < 8 * buf.Length
    modifies buf
    ensures Written(old(buf[..]), buf[..], msb, lsb, value)
  {
    var v := value;
    var i := lsb;
    while i <= msb
      invariant lsb <= i <= msb + 1
      invariant v == Shr(value, i - lsb)
      invariant forall k :: 0 <= k < 8 * buf.Length ==>
                  BitAt(buf[..], k) == if lsb <= k < i then Digit(value, k - lsb) else old(BitAt(buf[..], k))
    {
      WriteBit(buf, i, v % 2 == 1);
      ShrHalf(value, i - lsb);
      v := v / 2;
      i := i + 1;
    }
  }

  method WriteBit(buf: array<byte>, i: nat, v: bool)
    requires i < 8 * buf.Length
    modifies buf
    ensures forall k :: 0 <= k < 8 * buf.Length ==>
              BitAt(buf[..], k) == if k == i then (if v then 1 else 0) else old(BitAt(buf[..], k))
  {
    hide Cleared, Joined, Bit;
    ghost var before := buf[..];
    buf[i / 8] := Cleared(buf[i / 8], i % 8);
    buf[i / 8] := Joined(buf[i / 8], i % 8, v);
    assert buf[..] == before[i / 8 := Joined(Cleared(before[i / 8], i % 8), i % 8, v)];
    forall k | 0 <= k < 8 * buf.Length
      ensures BitAt(buf[..], k) == if k == i then (if v then 1 else 0) else BitAt(before, k)
    {
      OtherBits(before, i, v, k);
    }
  }

  lemma OtherBits(before: seq<byte>, i: nat, v: bool, k: nat)
    requires i < 8 * |before| && k < 8 * |before|
    ensures BitAt(before[i / 8 := Joined(Cleared(before[i / 8], i % 8), i % 8, v)], k)
         == if k == i then (if v then 1 else 0) else BitAt(before, k)
  {
    hide Cleared, Joined, Bit;
    WrittenBit(before[i / 8], i % 8, v, k % 8);
  }

  // A field that has been written reads back as the value, cut to its width.
  lemma FieldRoundTrip(before: seq<byte>, after: seq<byte>, msb: nat, lsb: nat, value: nat)
    requires lsb <= msb < 8 * |after| && Written(before, after, msb, lsb, value)
    ensures Bits(after, lsb, msb - lsb + 1) == value % Pow2(msb - lsb + 1)
  {
    DigitsMakeValue(after, lsb, msb - lsb + 1, value);
  }

  // Writing one field leaves every disjoint field as it was.
  lemma {:induction false} DisjointField(before: seq<byte>, after: seq<byte>, msb: nat, lsb: nat, value: nat,
                                         from: nat, width: nat)
    requires lsb <= msb < 8 * |after| && from + width <= 8 * |after|
    requires Written(before, after, msb, lsb, value)
    requires from + width <= lsb || msb < from
    ensures Bits(after, from, width) == Bits(before, from, width)
    decreases width
  {
    if width > 0 {
      DisjointField(before, after, msb, lsb, value, from + 1, width - 1);
    }
  }
}
