// The bit fields inside single bytes of the transport headers (sections 9.2 and 9.3.5 of the
// InfiniBand Architecture Specification, Volume 1; the masks are the driver's own).

module HeaderBits {
  import opened BitOps
  import opened Bytes

  // A shift to the left by five.
  function Shl5(x: nat): nat {
    x * 32
  }

  lemma Powers()
    ensures Pow2(1) == 2 && Pow2(2) == 4 && Pow2(3) == 8 && Pow2(5) == 32 && Pow2(7) == 128 && Pow2(8) == 256
            && Pow2(24) == 0x100_0000
  {
    PowSum(8, 8);
    PowSum(16, 8);
  }

  // Two bit strings side by side.
  lemma JoinBelow(high: nat, low: nat)
    requires low < 32
    ensures BitOr(Shl5(high), low) == 32 * high + low
  {
    hide BitOr, Pow2;
    Powers();
    OrSplit(high, 0, 0, low, 5);
    OrZero(high);
    OrZero(low);
  }

  lemma LowFive(b: nat)
    ensures BitAnd(b, 0x1F) == b % 32
  {
    hide BitAnd, Pow2;
    Powers();
    AndLowMask(b, 5);
  }

  lemma Low24(v: nat)
    ensures BitAnd(v, 0xFF_FFFF) == v % 0x100_0000
  {
    hide BitAnd, Pow2;
    Powers();
    AndLowMask(v, 24);
  }

  lemma HighThree(b: byte)
    ensures Shr(BitAnd(b, 0xE0), 5) == b / 32
  {
    hide BitAnd, Pow2, Shr;
    Powers();
    AndSplit(b / 32, b % 32, 7, 0, 5);
    AndZero(b % 32);
    AndLowMask(b / 32, 3);
    ShrIsQuotient(b / 32 * 32, 5);
  }

  // The two bits below the top one.
  lemma MiddleTwo(b: byte)
    ensures Shr(BitAnd(b, 0x60), 5) == b / 32 % 4
  {
    hide BitAnd, Pow2, Shr;
    Powers();
    AndSplit(b / 32, b % 32, 3, 0, 5);
    AndZero(b % 32);
    AndLowMask(b / 32, 2);
    ShrIsQuotient(b / 32 % 4 * 32, 5);
  }

  lemma TopBit(b: byte)
    ensures BitAnd(b, 0x80) != 0 <==> b >= 128
  {
    hide BitAnd, Pow2;
    Powers();
    AndBit(b, 7);
  }

  // Sets or clears the top bit.
  function WithTopBit(b: byte, v: bool): (r: byte)
    ensures r == (if v then 128 else 0) + b % 128
  {
    SettingTopBit(b);
    if v then BitOr(b, 0x80) else BitAnd(b, 0xFF - 0x80)
  }

  lemma SettingTopBit(b: byte)
    ensures BitOr(b, 0x80) == 128 + b % 128
    ensures BitAnd(b, 0xFF - 0x80) == b % 128
  {
    hide BitOr, BitAnd, Pow2;
    Powers();
    AndLowMask(b, 7);
    OrSplit(b / 128, b % 128, 1, 0, 7);
    OrZero(b % 128);
    OrZero(0);
    OrZero(1);
    OrStep(b / 128, 1);
    assert b / 128 == 0 || b / 128 == 1;
  }

  // Replaces the two bits below the top one.
  function WithPadCnt(b: byte, padCnt: nat): (r: byte)
    requires padCnt < 4
    ensures r == b / 128 * 128 + padCnt * 32 + b % 32
  {
    SettingPadCnt(b, padCnt);
    BitOr(BitAnd(b, 0xFF - 0x60), Shl5(padCnt))
  }

  lemma SettingPadCnt(b: byte, padCnt: nat)
    requires padCnt < 4
    ensures BitOr(BitAnd(b, 0xFF - 0x60), Shl5(padCnt)) == b / 128 * 128 + padCnt * 32 + b % 32
  {
    hide BitOr, BitAnd, Pow2;
    var u, r := b / 128, b % 32;
    KeepingTheRest(b);
    assert BitAnd(b, 0xFF - 0x60) == 4 * u * 32 + r;
    Powers();
    OrSplit(4 * u, r, padCnt, 0, 5);
    OrZero(r);
    OrSplit(u, 0, 0, padCnt, 2);
    OrZero(u);
    OrZero(padCnt);
  }

  lemma KeepingTheRest(b: byte)
    ensures BitAnd(b, 0xFF - 0x60) == b / 128 * 128 + b % 32
  {
    hide BitAnd, Pow2;
    Powers();
    AndSplit(b / 128, b % 128, 1, 31, 7);
    LowFive(b % 128);
    AndLowMask(b / 128, 1);
    assert b % 128 % 32 == b % 32;
  }
}
