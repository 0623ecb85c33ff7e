// The invariant checksum of a packet: a checksum over the packet with the fields that routers may
// change replaced by ones. The checksum itself is a parameter, a function of the bytes fed to it.

module Icrc {
  import opened BitOps
  import opened Bytes
  import opened BitRange

  const HEADERS_SIZE: nat := 40

  const ICRC_SIZE: nat := 4

  type Crc = seq<byte> -> u32

  function Ones(n: nat): (s: seq<byte>)
    ensures |s| == n
  {
    seq(n, i => 0xFF)
  }

  // Service class, time to live, the two header checksums and the reserved byte of the base header.
  predicate Variant(i: nat) {
    i == 1 || i == 8 || i == 10 || i == 11 || i == 26 || i == 27 || i == 32
  }

  ghost function Masked(data: seq<byte>): (h: seq<byte>)
    requires |data| >= HEADERS_SIZE
    ensures |h| == HEADERS_SIZE
  {
    seq(HEADERS_SIZE, i requires 0 <= i < HEADERS_SIZE => if Variant(i) then 0xFF else data[i])
  }

  // What the checksum is taken of: eight ones, and the packet up to the place of the checksum, with ones for the
  // variant bytes.
  ghost function Fed(data: seq<byte>): (f: seq<byte>)
    requires |data| >= HEADERS_SIZE + ICRC_SIZE
    ensures |f| == 8 + |data| - ICRC_SIZE && forall i :: 0 <= i < 8 ==> f[i] == 0xFF
    ensures forall i :: 0 <= i < |data| - ICRC_SIZE ==> f[8 + i] == if Variant(i) then 0xFF else data[i]
  {
    Ones(8) + Masked(data) + data[HEADERS_SIZE..|data| - ICRC_SIZE]
  }

  ghost function IcrcOf(crc: Crc, data: seq<byte>): u32
    requires |data| >= HEADERS_SIZE + ICRC_SIZE
  {
    crc(Fed(data))
  }

  // The value depends neither on the variant fields nor on the place where it is stored.
  lemma IcrcIgnores(crc: Crc, a: seq<byte>, b: seq<byte>)
    requires |a| == |b| >= HEADERS_SIZE + ICRC_SIZE
    requires forall i :: 0 <= i < |a| - ICRC_SIZE && !Variant(i) ==> a[i] == b[i]
    ensures IcrcOf(crc, a) == IcrcOf(crc, b)
  {
    assert Fed(a) == Fed(b);
  }

  // And on nothing less: packets that have the same value whatever the checksum function is agree on everything
  // else, so that a good function can tell any change of it.
  lemma IcrcSeesTheRest(a: seq<byte>, b: seq<byte>)
    requires |a| == |b| >= HEADERS_SIZE + ICRC_SIZE
    ensures (forall crc: Crc :: IcrcOf(crc, a) == IcrcOf(crc, b))
       <==> forall i :: 0 <= i < |a| - ICRC_SIZE && !Variant(i) ==> a[i] == b[i]
  {
    var f := Fed(a);
    var crc: Crc := (s: seq<byte>) => if s == f then 1 else 0;
    if forall crc: Crc :: IcrcOf(crc, a) == IcrcOf(crc, b) {
      assert IcrcOf(crc, a) == IcrcOf(crc, b);
      forall i | 0 <= i < |a| - ICRC_SIZE && !Variant(i) ensures a[i] == b[i] {
        assert Fed(b)[8 + i] == f[8 + i];
      }
    }
    if forall i :: 0 <= i < |a| - ICRC_SIZE && !Variant(i) ==> a[i] == b[i] {
      forall crc: Crc ensures IcrcOf(crc, a) == IcrcOf(crc, b) {
        IcrcIgnores(crc, a, b);
      }
    }
  }

  // The simulator's way: a copy of the headers with the fields overwritten.
  method ComputeIcrc(crc: Crc, data: seq<byte>) returns (icrc: u32)
    requires |data| >= HEADERS_SIZE + ICRC_SIZE
    ensures icrc == IcrcOf(crc, data)
  {
    var fed := Ones(8);
    var hdr := data[..HEADERS_SIZE];
    hdr := hdr[1 := 0xFF];
    hdr := hdr[8 := 0xFF];
    hdr := hdr[10 := 0xFF][11 := 0xFF];
    hdr := hdr[26 := 0xFF][27 := 0xFF];
    hdr := hdr[32 := 0xFF];
    assert hdr == Masked(data);
    fed := fed + hdr;
    fed := fed + data[HEADERS_SIZE..|data| - ICRC_SIZE];
    assert fed == Fed(data);
    icrc := crc(fed);
  }

  // Some bytes of a buffer have been replaced by ones.
  ghost predicate OnesAt(before: seq<byte>, after: seq<byte>, first: nat, count: nat) {
    |after| == |before| &&
    forall i :: 0 <= i < |before| ==> after[i] == if first <= i < first + count then 0xFF else before[i]
  }

  // A field of whole bytes.
  method FillOnes(buf: array<byte>, first: nat, count: nat, value: nat)
    requires count > 0 && first + count <= buf.Length && value == Pow2(8 * count) - 1
    modifies buf
    ensures OnesAt(old(buf[..]), buf[..], first, count)
  {
    hide Written;
    ghost var before := buf[..];
    SetBitRange(buf, 8 * (first + count) - 1, 8 * first, value);
    ghost var after := buf[..];
    FilledLength(before, after, first, count, value);
    forall i | 0 <= i < buf.Length
      ensures after[i] == if first <= i < first + count then 0xFF else before[i]
    {
      FilledByte(before, after, first, count, value, i);
    }
  }

  lemma FilledLength(before: seq<byte>, after: seq<byte>, first: nat, count: nat, value: nat)
    requires count > 0 && Written(before, after, 8 * (first + count) - 1, 8 * first, value)
    ensures |after| == |before|
  {
  }

  lemma FilledByte(before: seq<byte>, after: seq<byte>, first: nat, count: nat, value: nat, i: nat)
    requires count > 0 && value == Pow2(8 * count) - 1
    requires Written(before, after, 8 * (first + count) - 1, 8 * first, value)
    requires i < |before| == |after|
    ensures after[i] == if first <= i < first + count then 0xFF else before[i]
  {
    hide Digit, Bit, Pow2;
    PowEight();
    var want: byte := if first <= i < first + count then 0xFF else before[i];
    forall j | 0 <= j < 8 ensures Digit(after[i], j) == Digit(want, j) {
      var k := 8 * i + j;
      assert k / 8 == i && k % 8 == j;
      BitIsDigit(after[i], j);
      BitIsDigit(before[i], j);
      if first <= i < first + count {
        AllOnes(8, j);
        AllOnes(8 * count, k - 8 * first);
      }
      assert BitAt(after, k)
          == if 8 * first <= k <= 8 * (first + count) - 1 then Digit(value, k - 8 * first) else BitAt(before, k);
    }
    DigitsDetermine(after[i], want, 8);
  }

  lemma AllOnes(n: nat, i: nat)
    requires i < n
    ensures Digit(Pow2(n) - 1, i) == 1
  {
    ComplementDigit(0, n, i);
    ZeroDigit(i);
  }

  // The responder's way: bit fields of a copy of the headers set to ones.
  method CalculateIcrc(crc: Crc, data: seq<byte>) returns (icrc: u32)
    requires |data| >= HEADERS_SIZE + ICRC_SIZE
    ensures icrc == IcrcOf(crc, data)
  {
    hide Pow2;
    PowEight();
    PowSum(8, 8);
    var fed := Ones(8);
    var buf := new byte[HEADERS_SIZE](i requires 0 <= i < HEADERS_SIZE => data[i]);
    FillOnes(buf, 1, 1, 0xFF);
    FillOnes(buf, 8, 1, 0xFF);
    FillOnes(buf, 10, 2, 0xFFFF);
    FillOnes(buf, 20 + 6, 2, 0xFFFF);
    FillOnes(buf, 28 + 4, 1, 0xFF);
    assert buf[..] == Masked(data);
    fed := fed + buf[..];
    fed := fed + data[HEADERS_SIZE..|data| - ICRC_SIZE];
    assert fed == Fed(data);
    icrc := crc(fed);
  }

  // The stored value is taken out of the packet and compared; its place is left zero.
  method IsIcrcValid(crc: Crc, received: array<byte>) returns (valid: bool)
    requires received.Length >= HEADERS_SIZE + ICRC_SIZE
    modifies received
    ensures valid == (FromLe(old(received[received.Length - ICRC_SIZE..])) == IcrcOf(crc, old(received[..])))
    ensures received[..] == old(received[..received.Length - ICRC_SIZE]) + [0, 0, 0, 0]
  {
    ghost var before := received[..];
    var n := received.Length - ICRC_SIZE;
    var origin := FromLe(received[n..]);
    received[n], received[n + 1], received[n + 2], received[n + 3] := 0, 0, 0, 0;
    var ours := ComputeIcrc(crc, received[..]);
    IcrcIgnores(crc, before, received[..]);
    valid := ours == origin;
  }
}
