// Writing a header in place, over whatever the buffer held before.

module HeaderWriter {
  import opened Wrappers
  import opened Bytes
  import opened HeaderBits
  import opened Transmit
  import opened Headers

  // Only the bytes from..to of a buffer may differ.
  ghost predicate SameOutside(before: seq<byte>, after: seq<byte>, from: nat, to: nat) {
    |after| == |before| && forall i :: 0 <= i < |before| && !(from <= i < to) ==> after[i] == before[i]
  }

  method Store(buf: array<byte>, at: nat, bytes: seq<byte>)
    requires at + |bytes| <= buf.Length
    modifies buf
    ensures buf[at..at + |bytes|] == bytes
    ensures forall i :: 0 <= i < |bytes| ==> buf[at + i] == bytes[i]
    ensures SameOutside(old(buf[..]), buf[..], at, at + |bytes|)
  {
    forall i | 0 <= i < |bytes| {
      buf[at + i] := bytes[i];
    }
  }

  method SetOpcodeAndType(buf: array<byte>, at: nat, op: Opcode, t: TransType)
    requires at < buf.Length
    modifies buf
    ensures buf[..] == old(buf[..])[at := OpcodeByte(op, t)]
  {
    buf[at] := OpcodeByte(op, t);
  }

  method SetFlags(buf: array<byte>, at: nat, solicited: bool, padCnt: nat)
    requires at + 1 < buf.Length && padCnt < 4
    modifies buf
    ensures buf[..] == old(buf[..])[at + 1 := WithPadCnt(WithTopBit(old(buf[at + 1]), solicited), padCnt)]
  {
    hide WithPadCnt, WithTopBit;
    buf[at + 1] := WithTopBit(buf[at + 1], solicited);
    buf[at + 1] := WithPadCnt(buf[at + 1], padCnt);
  }

  method SetAckReqAndPsn(buf: array<byte>, at: nat, ackReq: bool, psn: nat)
    requires at + 12 <= buf.Length
    modifies buf
    ensures buf[at + 8..at + 12] == [WithTopBit(old(buf[at + 8]), ackReq)] + To24(psn)[1..]
    ensures SameOutside(old(buf[..]), buf[..], at + 8, at + 12)
  {
    hide WithTopBit, To24;
    buf[at + 8] := WithTopBit(buf[at + 8], ackReq);
    var first := buf[at + 8];
    Store(buf, at + 8, To24(psn));
    buf[at + 8] := first;
  }

  method SetFromCommonMeta(buf: array<byte>, at: nat, c: CommonMeta, padCnt: nat)
    requires at + BTH_SIZE <= buf.Length && padCnt < 4
    modifies buf
    ensures buf[at..at + BTH_SIZE] == BthBytes(old(buf[at..at + BTH_SIZE]), c, padCnt)
    ensures SameOutside(old(buf[..]), buf[..], at, at + BTH_SIZE)
  {
    hide WithTopBit, WithPadCnt, To24, ToBe, OpcodeByte;
    ghost var h := buf[at..at + BTH_SIZE];
    assert h[1] == buf[at + 1] && h[8] == buf[at + 8];
    SetOpcodeAndType(buf, at, c.opcode, c.tranType);
    SetFlags(buf, at, c.solicited, padCnt);
    ghost var flags := WithPadCnt(WithTopBit(h[1], c.solicited), padCnt);
    assert buf[at..at + 2] == [OpcodeByte(c.opcode, c.tranType), flags];
    ghost var front := buf[at..at + 2];
    Store(buf, at + 4, To24(c.dqpn));
    assert buf[at..at + 2] == front;
    assert buf[at + 8] == h[8];
    SetAckReqAndPsn(buf, at, c.ackReq, c.psn);
    assert buf[at..at + 2] == front && buf[at + 4..at + 8] == To24(c.dqpn);
    ghost var back := buf[at + 8..at + 12];
    Store(buf, at + 2, ToBe(c.pkey, 2));
    assert buf[at..at + 2] == front && buf[at + 4..at + 8] == To24(c.dqpn) && buf[at + 8..at + 12] == back;
    BthAssembled(h, c, padCnt, buf[..], at);
  }

  lemma BthAssembled(h: seq<byte>, c: CommonMeta, padCnt: nat, s: seq<byte>, at: nat)
    requires |h| >= BTH_SIZE && padCnt < 4 && at + BTH_SIZE <= |s|
    requires s[at..at + 2] == [OpcodeByte(c.opcode, c.tranType), WithPadCnt(WithTopBit(h[1], c.solicited), padCnt)]
    requires s[at + 2..at + 4] == ToBe(c.pkey, 2) && s[at + 4..at + 8] == To24(c.dqpn)
    requires s[at + 8..at + 12] == [WithTopBit(h[8], c.ackReq)] + To24(c.psn)[1..]
    ensures s[at..at + BTH_SIZE] == BthBytes(h, c, padCnt)
  {
    hide OpcodeByte, WithPadCnt, WithTopBit, ToBe, To24;
    assert s[at..at + BTH_SIZE] == s[at..at + 2] + s[at + 2..at + 4] + s[at + 4..at + 8] + s[at + 8..at + 12];
  }

  method SetFromRethHeader(buf: array<byte>, at: nat, reth: RethHeader)
    requires at + RETH_SIZE <= buf.Length
    modifies buf
    ensures buf[at..at + RETH_SIZE] == RethBytes(reth)
    ensures SameOutside(old(buf[..]), buf[..], at, at + RETH_SIZE)
  {
    hide ToBe;
    Store(buf, at, ToBe(reth.va, 8));
    Store(buf, at + 8, ToBe(reth.rkey, 4));
    Store(buf, at + 12, ToBe(reth.len, 4));
    assert buf[at..at + RETH_SIZE] == buf[at..at + 8] + buf[at + 8..at + 12] + buf[at + 12..at + 16];
  }

  method SetAeth(buf: array<byte>, at: nat, code: AethCode, value: byte, msn: nat)
    requires at + AETH_SIZE <= buf.Length
    modifies buf
    ensures buf[at..at + AETH_SIZE] == [AethByte(code, value)] + To24(msn)[1..]
    ensures SameOutside(old(buf[..]), buf[..], at, at + AETH_SIZE)
  {
    hide AethByte, To24;
    buf[at] := AethByte(code, value);
    var first := buf[at];
    Store(buf, at, [first] + To24(msn)[1..]);
  }

  // A buffer for the header must be there before it is known whether the message fits its opcode.
  method SetFromRdmaMessage(buf: array<byte>, at: nat, m: Metadata, padCnt: nat) returns (r: Result<nat, PacketError>)
    requires at + HeaderSize(m.common.opcode) <= buf.Length && padCnt < 4
    modifies buf
    ensures r == if Writable(m) then Ok(HeaderSize(m.common.opcode)) else Err(InvalidMetadataType)
    ensures SameOutside(old(buf[..]), buf[..], at, at + HeaderSize(m.common.opcode))
    ensures Writable(m) ==>
              buf[at..at + HeaderSize(m.common.opcode)] == HeaderBytes(old(buf[at..at + BTH_SIZE]), m, padCnt)
  {
    hide BthBytes, RethBytes, AethByte, To24, ToBe;
    ghost var h := buf[at..at + BTH_SIZE];
    var op := m.common.opcode;
    match m {
      case General(common, reth, imm, secondary) =>
        if op.Acknowledge? {
          return Err(InvalidMetadataType);
        }
        SetFromCommonMeta(buf, at, common, padCnt);
        SetFromRethHeader(buf, at + 12, reth);
        ghost var front := buf[at..at + 28];
        assert front == BthBytes(h, common, padCnt) + RethBytes(reth);
        if HasImm(op) {
          if imm.None? {
            return Err(InvalidMetadataType);
          }
          Store(buf, at + 28, ToBe(imm.value, 4));
          assert buf[at..at + 32] == front + buf[at + 28..at + 32];
        } else if op.ReadRequest? {
          if secondary.None? {
            return Err(InvalidMetadataType);
          }
          SetFromRethHeader(buf, at + 28, secondary.value);
          assert buf[at..at + 44] == front + buf[at + 28..at + 44];
        }
        r := Ok(HeaderSize(op));
      case AckMeta(common, code, value, msn) =>
        if !op.Acknowledge? {
          return Err(InvalidMetadataType);
        }
        SetFromCommonMeta(buf, at, common, padCnt);
        SetAeth(buf, at + 12, code, value, msn);
        assert buf[at..at + 16] == buf[at..at + 12] + buf[at + 12..at + 16];
        r := Ok(HeaderSize(op));
    }
  }
}
