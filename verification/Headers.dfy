// Printing and parsing the transport headers of a packet: base header, then a request header, two
// of them, one with an immediate, or an acknowledge header.

module Headers {
  import opened Wrappers
  import opened BitOps
  import opened Bytes
  import opened HeaderBits
  import opened Psn
  import opened Transmit

  // ---- what a header says ------------------------------------------------------------------------------

  datatype TransType = Rc | Uc | Rd | Ud | Cnp | Xrc | DtldExtended

  datatype AethCode = Ack | Rnr | Rsvd | Nak

  datatype CommonMeta = CommonMeta(
    tranType: TransType, opcode: Opcode, solicited: bool, pkey: u16, dqpn: u32, ackReq: bool, psn: Psn)

  datatype RethHeader = RethHeader(va: u64, rkey: u32, len: u32)

  datatype Metadata =
    | General(common: CommonMeta, reth: RethHeader, imm: Option<u32>, secondary: Option<RethHeader>)
    | AckMeta(common: CommonMeta, code: AethCode, value: byte, msn: u32)

  datatype PacketError = InvalidOpcode | FailedToConvertTransType | InvalidMetadataType

  // ---- numbers of the enumerations ------------------------------------------------------------------------

  function OpcodeNumber(op: Opcode): (n: nat)
    ensures 6 <= n <= 17
  {
    match op
    case WriteFirst => 0x06
    case WriteMiddle => 0x07
    case WriteLast => 0x08
    case WriteLastWithImm => 0x09
    case WriteOnly => 0x0a
    case WriteOnlyWithImm => 0x0b
    case ReadRequest => 0x0c
    case RespFirst => 0x0d
    case RespMiddle => 0x0e
    case RespLast => 0x0f
    case RespOnly => 0x10
    case Acknowledge => 0x11
  }

  function OpcodeOf(n: nat): Option<Opcode> {
    match n
    case 0x06 => Some(WriteFirst)
    case 0x07 => Some(WriteMiddle)
    case 0x08 => Some(WriteLast)
    case 0x09 => Some(WriteLastWithImm)
    case 0x0a => Some(WriteOnly)
    case 0x0b => Some(WriteOnlyWithImm)
    case 0x0c => Some(ReadRequest)
    case 0x0d => Some(RespFirst)
    case 0x0e => Some(RespMiddle)
    case 0x0f => Some(RespLast)
    case 0x10 => Some(RespOnly)
    case 0x11 => Some(Acknowledge)
    case _ => None
  }

  // The order of the operations in the table of opcodes of the InfiniBand architecture, from 6 on.
  const OPCODE_ORDER: seq<Opcode> :=
    [WriteFirst, WriteMiddle, WriteLast, WriteLastWithImm, WriteOnly, WriteOnlyWithImm,
     ReadRequest, RespFirst, RespMiddle, RespLast, RespOnly, Acknowledge]

  lemma OpcodesInOrder(n: nat)
    ensures OpcodeOf(n) == if 6 <= n < 18 then Some(OPCODE_ORDER[n - 6]) else None
    ensures 6 <= n < 18 ==> OpcodeNumber(OPCODE_ORDER[n - 6]) == n
  {
    if 6 <= n < 18 {
      assert n == 6 || n == 7 || n == 8 || n == 9 || n == 10 || n == 11 || n == 12 || n == 13 || n == 14 || n == 15
             || n == 16 || n == 17;
    }
  }

  function TransTypeNumber(t: TransType): (n: nat)
    ensures n <= 6
  {
    match t
    case Rc => 0 case Uc => 1 case Rd => 2 case Ud => 3 case Cnp => 4 case Xrc => 5 case DtldExtended => 6
  }

  function TransTypeOf(n: nat): Option<TransType> {
    match n
    case 0 => Some(Rc) case 1 => Some(Uc) case 2 => Some(Rd) case 3 => Some(Ud)
    case 4 => Some(Cnp) case 5 => Some(Xrc) case 6 => Some(DtldExtended) case _ => None
  }

  function AethCodeNumber(c: AethCode): (n: nat)
    ensures n < 4
  {
    match c
    case Ack => 0 case Rnr => 1 case Rsvd => 2 case Nak => 3
  }

  function AethCodeOf(n: nat): AethCode
    requires n < 4
  {
    match n
    case 0 => Ack case 1 => Rnr case 2 => Rsvd case _ => Nak
  }

  // ---- layouts ----------------------------------------------------------------------------------------------

  const BTH_SIZE: nat := 12
  const RETH_SIZE: nat := 16
  const IMM_SIZE: nat := 4
  const AETH_SIZE: nat := 4

  predicate HasImm(op: Opcode) {
    op.WriteLastWithImm? || op.WriteOnlyWithImm?
  }

  function HeaderSize(op: Opcode): nat {
    if op.Acknowledge? then BTH_SIZE + AETH_SIZE
    else if op.ReadRequest? then BTH_SIZE + RETH_SIZE + RETH_SIZE
    else if HasImm(op) then BTH_SIZE + RETH_SIZE + IMM_SIZE
    else BTH_SIZE + RETH_SIZE
  }

  // ---- reading ------------------------------------------------------------------------------------------------

  function GetPadCnt(h: seq<byte>): nat
    requires |h| >= BTH_SIZE
  {
    Shr(BitAnd(h[1], 0x60), 5)
  }

  function GetOpcode(h: seq<byte>): nat
    requires |h| >= BTH_SIZE
  {
    BitAnd(h[0], 0x1F)
  }

  function From24(s: seq<byte>): Psn
    requires |s| == 3
  {
    FromBeLeadingZero(s);
    FromBeBelow(s);
    FromBe([0] + s)
  }

  function ParseCommon(h: seq<byte>): Result<CommonMeta, PacketError>
    requires |h| >= BTH_SIZE
  {
    var tranType := TransTypeOf(Shr(BitAnd(h[0], 0xE0), 5));
    if tranType.None? then Err(FailedToConvertTransType) else
    var opcode := OpcodeOf(GetOpcode(h));
    if opcode.None? then Err(InvalidOpcode) else
    Ok(CommonMeta(tranType.value, opcode.value, BitAnd(h[1], 0x80) != 0, Fixed16(h[2..4]),
                  From24(h[5..8]), BitAnd(h[8], 0x80) != 0, From24(h[9..12])))
  }

  function Fixed16(s: seq<byte>): u16
    requires |s| == 2
  {
    FromBeBelow(s);
    FromBe(s)
  }

  function Fixed32(s: seq<byte>): u32
    requires |s| == 4
  {
    FromBeBelow(s);
    FromBe(s)
  }

  function Fixed64(s: seq<byte>): u64
    requires |s| == 8
  {
    FromBeBelow(s);
    FromBe(s)
  }

  function ParseReth(h: seq<byte>): RethHeader
    requires |h| == RETH_SIZE
  {
    RethHeader(Fixed64(h[..8]), Fixed32(h[8..12]), Fixed32(h[12..16]))
  }

  function ParseAeth(common: CommonMeta, h: seq<byte>): Metadata
    requires |h| == AETH_SIZE
  {
    MiddleTwo(h[0]);
    LowFive(h[0]);
    AckMeta(common, AethCodeOf(Shr(BitAnd(h[0], 0x60), 5)), BitAnd(h[0], 0x1F), From24(h[1..4]))
  }

  datatype Parsed = Parsed(meta: Metadata, payloadLen: nat)

  // The buffer holds the whole header its opcode calls for, and the padding.
  predicate Readable(buf: seq<byte>) {
    |buf| >= BTH_SIZE &&
    var op := OpcodeOf(GetOpcode(buf));
    op.Some? ==> HeaderSize(op.value) + GetPadCnt(buf) <= |buf|
  }

  function ToRdmaMessage(buf: seq<byte>): Result<Parsed, PacketError>
    requires Readable(buf)
  {
    var opcode := OpcodeOf(GetOpcode(buf));
    if opcode.None? then Err(InvalidOpcode) else
    var op := opcode.value;
    var payloadLen := |buf| - HeaderSize(op) - GetPadCnt(buf);
    var common := ParseCommon(buf);
    if common.Err? then Err(common.error)
    else if op.Acknowledge? then
      Ok(Parsed(ParseAeth(common.value, buf[12..16]), payloadLen))
    else
      var imm := if HasImm(op) then Some(Fixed32(buf[28..32])) else None;
      var secondary := if op.ReadRequest? then Some(ParseReth(buf[28..44])) else None;
      Ok(Parsed(General(common.value, ParseReth(buf[12..28]), imm, secondary), payloadLen))
  }

  // ---- writing ------------------------------------------------------------------------------------------------

  const MASK24: nat := 0xFF_FFFF

  function OpcodeByte(op: Opcode, t: TransType): (b: byte)
    ensures b == 32 * TransTypeNumber(t) + OpcodeNumber(op)
  {
    JoinBelow(TransTypeNumber(t), OpcodeNumber(op));
    BitOr(Shl5(TransTypeNumber(t)), OpcodeNumber(op))
  }

  function To24(v: nat): (s: seq<byte>)
    ensures |s| == 4
  {
    ToBe(BitAnd(v, MASK24), 4)
  }

  // The twelve bytes of the base header, over the bytes that were there before.
  ghost function BthBytes(h: seq<byte>, c: CommonMeta, padCnt: nat): (r: seq<byte>)
    requires |h| >= BTH_SIZE && padCnt < 4
    ensures |r| == BTH_SIZE
  {
    [OpcodeByte(c.opcode, c.tranType), WithPadCnt(WithTopBit(h[1], c.solicited), padCnt)] + ToBe(c.pkey, 2)
    + To24(c.dqpn) + [WithTopBit(h[8], c.ackReq)] + To24(c.psn)[1..]
  }

  function RethBytes(reth: RethHeader): (r: seq<byte>)
    ensures |r| == RETH_SIZE
  {
    ToBe(reth.va, 8) + ToBe(reth.rkey, 4) + ToBe(reth.len, 4)
  }

  function AethByte(code: AethCode, value: byte): byte {
    AethByteFits(AethCodeNumber(code), value);
    BitOr(Shl5(AethCodeNumber(code) % 4), value)
  }

  lemma AethByteFits(code: nat, value: byte)
    requires code < 4
    ensures BitOr(Shl5(code % 4), value) < 256
  {
    hide BitOr;
    AethByteIs(code, value);
  }

  lemma AethByteIs(code: nat, value: byte)
    requires code < 4
    ensures BitOr(Shl5(code), value) == 32 * BitOr(code, value / 32) + value % 32
    ensures BitOr(code, value / 32) < 8
  {
    hide BitOr, Pow2;
    Powers();
    var h: nat, l: nat := value / 32, value % 32;
    OrSplit(code, 0, h, l, 5);
    OrZero(l);
    OrBelow(code, h, 3);
  }

  predicate Writable(m: Metadata) {
    match m
    case General(common, _, imm, secondary) =>
      !common.opcode.Acknowledge? && (HasImm(common.opcode) ==> imm.Some?)
      && (common.opcode.ReadRequest? ==> secondary.Some?)
    case AckMeta(common, _, _, _) => common.opcode.Acknowledge?
  }

  ghost function HeaderBytes(h: seq<byte>, m: Metadata, padCnt: nat): (r: seq<byte>)
    requires |h| >= BTH_SIZE && padCnt < 4 && Writable(m)
    ensures |r| == HeaderSize(m.common.opcode)
  {
    BthBytes(h, m.common, padCnt) +
    match m
    case General(common, reth, imm, secondary) =>
      RethBytes(reth) + (if HasImm(common.opcode) then ToBe(imm.value, 4) else [])
      + (if common.opcode.ReadRequest? then RethBytes(secondary.value) else [])
    case AckMeta(_, code, value, msn) => [AethByte(code, value)] + To24(msn)[1..]
  }

  // ---- what is read back ---------------------------------------------------------------------------------------

  // Reading 24 bits back gives the number modulo 2^24.
  lemma Read24(v: nat)
    ensures From24(To24(v)[1..]) == v % 0x100_0000
  {
    hide FromBe, ToBe, BitAnd;
    Low24(v);
    var w := v % 0x100_0000;
    assert Pow256(3) == 0x100_0000;
    BeLeadingZero(w, 3);
    BeRoundTrip(w, 3);
    assert To24(v)[1..] == ToBe(w, 3);
    FromBeLeadingZero(ToBe(w, 3));
  }

  // What a reader finds in the base header.
  ghost function SeenCommon(c: CommonMeta): CommonMeta {
    c.(dqpn := c.dqpn % 0x100_0000)
  }

  lemma BthRoundTrip(h: seq<byte>, c: CommonMeta, padCnt: nat, b: seq<byte>)
    requires |h| >= BTH_SIZE && padCnt < 4
    requires |b| >= BTH_SIZE && b[..BTH_SIZE] == BthBytes(h, c, padCnt)
    ensures ParseCommon(b) == Ok(SeenCommon(c))
    ensures GetPadCnt(b) == padCnt
    ensures OpcodeOf(GetOpcode(b)) == Some(c.opcode)
  {
    hide BitAnd, Shr, BitOr, FromBe, ToBe, From24, To24;
    var r := b[..BTH_SIZE];
    BthSlices(h, c, padCnt, b);
    FirstByte(c);
    FlagsByte(h[1], c.solicited, padCnt);
    TopBit(b[8]);
    Read24(c.dqpn);
    Read24(c.psn);
    assert Pow256(2) == 0x1_0000;
    BeRoundTrip(c.pkey, 2);
  }

  lemma BthSlices(h: seq<byte>, c: CommonMeta, padCnt: nat, b: seq<byte>)
    requires |h| >= BTH_SIZE && padCnt < 4
    requires |b| >= BTH_SIZE && b[..BTH_SIZE] == BthBytes(h, c, padCnt)
    ensures b[0] == OpcodeByte(c.opcode, c.tranType)
    ensures b[1] == WithPadCnt(WithTopBit(h[1], c.solicited), padCnt)
    ensures b[2..4] == ToBe(c.pkey, 2) && b[5..8] == To24(c.dqpn)[1..]
    ensures b[8] == WithTopBit(h[8], c.ackReq) && b[9..12] == To24(c.psn)[1..]
  {
    hide ToBe, To24, OpcodeByte, WithPadCnt, WithTopBit;
    var r := b[..BTH_SIZE];
    assert forall i :: 0 <= i < BTH_SIZE ==> b[i] == r[i];
    assert b[2..4] == r[2..4] && b[5..8] == r[5..8] && b[9..12] == r[9..12];
  }

  lemma FirstByte(c: CommonMeta)
    ensures OpcodeOf(BitAnd(OpcodeByte(c.opcode, c.tranType), 0x1F)) == Some(c.opcode)
    ensures TransTypeOf(Shr(BitAnd(OpcodeByte(c.opcode, c.tranType), 0xE0), 5)) == Some(c.tranType)
  {
    hide BitAnd, Shr, OpcodeByte, OpcodeNumber, TransTypeNumber, OpcodeOf, TransTypeOf;
    var b := OpcodeByte(c.opcode, c.tranType);
    LowFive(b);
    HighThree(b);
    NumbersName(c.opcode, c.tranType);
    assert b % 32 == OpcodeNumber(c.opcode) && b / 32 == TransTypeNumber(c.tranType);
  }

  lemma NumbersName(op: Opcode, t: TransType)
    ensures OpcodeOf(OpcodeNumber(op)) == Some(op)
    ensures TransTypeOf(TransTypeNumber(t)) == Some(t)
  {
  }

  lemma FlagsByte(old1: byte, solicited: bool, padCnt: nat)
    requires padCnt < 4
    ensures var b := WithPadCnt(WithTopBit(old1, solicited), padCnt);
      (BitAnd(b, 0x80) != 0 <==> solicited) && Shr(BitAnd(b, 0x60), 5) == padCnt
  {
    hide BitAnd, Shr, WithPadCnt, WithTopBit;
    var t := WithTopBit(old1, solicited);
    var b := WithPadCnt(t, padCnt);
    assert t / 128 == if solicited then 1 else 0;
    assert b / 32 == t / 128 * 4 + padCnt;
    TopBit(b);
    MiddleTwo(b);
  }

  lemma RethRoundTrip(reth: RethHeader)
    ensures ParseReth(RethBytes(reth)) == reth
  {
    hide FromBe, ToBe;
    var r := RethBytes(reth);
    assert r[..8] == ToBe(reth.va, 8) && r[8..12] == ToBe(reth.rkey, 4) && r[12..16] == ToBe(reth.len, 4);
    Pow256s();
    BeRoundTrip(reth.va, 8);
    BeRoundTrip(reth.rkey, 4);
    BeRoundTrip(reth.len, 4);
  }

  lemma Pow256s()
    ensures Pow256(2) == 0x1_0000 && Pow256(4) == 0x1_0000_0000 && Pow256(8) == 0x1_0000_0000_0000_0000
  {
    assert Pow256(4) == 256 * Pow256(3);
    assert Pow256(8) == 256 * 256 * Pow256(6);
    assert Pow256(6) == 256 * 256 * Pow256(4);
  }

  ghost function SeenCode(code: AethCode, value: byte): AethCode {
    AethCodeOf(BitOr(AethCodeNumber(code), value / 32) % 4)
  }

  lemma AethRoundTrip(common: CommonMeta, code: AethCode, value: byte, msn: u32)
    ensures ParseAeth(common, [AethByte(code, value)] + To24(msn)[1..])
         == AckMeta(common, SeenCode(code, value), value % 32, msn % 0x100_0000)
  {
    hide BitAnd, BitOr, Shr, From24, To24;
    var b := AethByte(code, value);
    var h := [b] + To24(msn)[1..];
    assert h[1..4] == To24(msn)[1..];
    Read24(msn);
    AethByteIs(AethCodeNumber(code), value);
    MiddleTwo(b);
    LowFive(b);
  }

  // What a reader finds: 24 bits of the numbers, only the parts the opcode carries, and a credit or
  // syndrome of five bits, whose surplus bits fall into the code.
  ghost function Seen(m: Metadata): Metadata {
    match m
    case General(common, reth, imm, secondary) =>
      General(SeenCommon(common), reth, if HasImm(common.opcode) then imm else None,
              if common.opcode.ReadRequest? then secondary else None)
    case AckMeta(common, code, value, msn) =>
      AckMeta(SeenCommon(common), SeenCode(code, value), value % 32, msn % 0x100_0000)
  }

  // Whatever was in the buffer before, the header parses, with the padding taken off the payload length.
  lemma HeaderRoundTrip(h: seq<byte>, m: Metadata, padCnt: nat, rest: seq<byte>)
    requires |h| >= BTH_SIZE && padCnt < 4 && Writable(m) && padCnt <= |rest|
    ensures Readable(HeaderBytes(h, m, padCnt) + rest)
    ensures ToRdmaMessage(HeaderBytes(h, m, padCnt) + rest) == Ok(Parsed(Seen(m), |rest| - padCnt))
  {
    hide BthBytes, RethBytes, ParseCommon, ParseReth, ParseAeth, GetPadCnt, GetOpcode, To24, ToBe, AethByte, FromBe;
    var r := HeaderBytes(h, m, padCnt);
    var b := r + rest;
    assert b[..BTH_SIZE] == BthBytes(h, m.common, padCnt);
    BthRoundTrip(h, m.common, padCnt, b);
    match m {
      case General(common, reth, imm, secondary) =>
        assert b[12..28] == RethBytes(reth);
        RethRoundTrip(reth);
        if HasImm(common.opcode) {
          assert b[28..32] == ToBe(imm.value, 4);
          Pow256s();
          BeRoundTrip(imm.value, 4);
        }
        if common.opcode.ReadRequest? {
          assert b[28..44] == RethBytes(secondary.value);
          RethRoundTrip(secondary.value);
        }
      case AckMeta(common, code, value, msn) =>
        assert b[12..16] == [AethByte(code, value)] + To24(msn)[1..];
        AethRoundTrip(SeenCommon(common), code, value, msn);
    }
  }

  // The message fits the format: 24-bit numbers, a five-bit value, nothing the opcode does not carry.
  predicate Representable(m: Metadata) {
    m.common.dqpn < 0x100_0000 &&
    match m
    case General(common, _, imm, secondary) =>
      (imm.Some? ==> HasImm(common.opcode)) && (secondary.Some? ==> common.opcode.ReadRequest?)
    case AckMeta(_, _, value, msn) => value < 32 && msn < 0x100_0000
  }

  // A message comes back as it was exactly when it fits the format.
  lemma RoundTripIff(m: Metadata)
    requires Writable(m)
    ensures Seen(m) == m <==> Representable(m)
  {
    hide BitOr;
    if m.AckMeta? {
      OrZero(AethCodeNumber(m.code));
    }
  }

  // The reserved byte before the queue pair number is written as zero.
  lemma ReservedByte(h: seq<byte>, m: Metadata, padCnt: nat)
    requires |h| >= BTH_SIZE && padCnt < 4 && Writable(m)
    ensures HeaderBytes(h, m, padCnt)[4] == 0
  {
    hide WithTopBit, WithPadCnt, OpcodeByte, RethBytes, AethByte, ToBe, BitAnd;
    assert HeaderBytes(h, m, padCnt)[4] == To24(m.common.dqpn)[0];
    Low24(m.common.dqpn);
    assert Pow256(3) == 0x100_0000;
    BeLeadingZero(m.common.dqpn % 0x100_0000, 3);
  }
}
