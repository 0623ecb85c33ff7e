// Work descriptors and the packets that the card makes of them.

module Transmit {
  import opened Psn
  import opened Wrappers
  import opened PacketLength
  import opened SgList
  import opened Arith

  datatype Kind = Write | WriteWithImm(imm: nat) | ReadResp

  // The part of a work descriptor that concerns segmentation.
  datatype Desc = Desc(
    kind: Kind,
    totalLen: nat,
    raddr: nat,
    rkey: nat,
    dqpn: Psn,
    pmtu: Pmtu,
    psn: Psn,
    msn: nat,
    isFirst: bool,
    isLast: bool,
    sge0: Sge,
    sge1: Option<Sge>,
    sge2: Option<Sge>,
    sge3: Option<Sge>)
  {
    ghost function Sges(): seq<Sge> {
      [sge0, OrNone(sge1), OrNone(sge2), OrNone(sge3)]
    }

    // The source addresses of the descriptor, in order.
    ghost function Source(): seq<nat> {
      Flat(Sges())
    }

    // An absent element is not followed by a present one.
    predicate NoHoles() {
      (sge1.None? ==> sge2.None?) && (sge2.None? ==> sge3.None?)
    }

    ghost predicate InAddressSpace() {
      NoWrap(Sges()) && raddr + |Source()| <= 0x1_0000_0000_0000_0000
    }
  }

  datatype Opcode =
    | WriteFirst | WriteMiddle | WriteLast | WriteLastWithImm | WriteOnly | WriteOnlyWithImm
    | RespFirst | RespMiddle | RespLast | RespOnly | ReadRequest | Acknowledge
  {
    predicate IsFirst() {
      WriteFirst? || RespFirst?
    }
  }

  datatype Packet = Packet(
    opcode: Opcode,
    psn: Psn,
    va: nat,
    rkey: nat,
    dqpn: Psn,
    msn: nat,
    imm: Option<nat>,
    rethLen: nat,
    payload: seq<Element>)

  // ---- opcode selection ---------------------------------------------------------------------------

  function ImmOf(d: Desc): Option<nat> {
    if d.kind.WriteWithImm? then Some(d.kind.imm) else None
  }

  function WriteOnlyOpcodeWithImm(d: Desc): (Opcode, Option<nat>) {
    if d.isFirst && d.isLast then
      if d.kind.ReadResp? then (RespOnly, None)
      else if ImmOf(d).Some? then (WriteOnlyWithImm, ImmOf(d))
      else (WriteOnly, None)
    else if d.isFirst then
      (if d.kind.ReadResp? then RespFirst else WriteFirst, None)
    else
      if d.kind.ReadResp? then (RespLast, None)
      else if ImmOf(d).Some? then (WriteLastWithImm, ImmOf(d))
      else (WriteLast, None)
  }

  function WriteFirstOpcode(d: Desc): Opcode {
    if d.isFirst then
      if d.kind.ReadResp? then RespFirst else WriteFirst
    else
      if d.kind.ReadResp? then RespMiddle else WriteMiddle
  }

  function WriteMiddleOpcode(d: Desc): Opcode {
    if d.kind.ReadResp? then RespMiddle else WriteMiddle
  }

  function WriteLastOpcodeWithImm(d: Desc): (Opcode, Option<nat>) {
    if d.isLast then
      if d.kind.ReadResp? then (RespLast, None)
      else if ImmOf(d).Some? then (WriteLastWithImm, ImmOf(d))
      else (WriteLast, None)
    else
      (WriteMiddleOpcode(d), None)
  }

  // ---- the reference: one packet at a time off the front -------------------------------------------

  // What a packet means to the receiver: everything but the length field of its RETH.
  datatype Carried = Carried(opcode: Opcode, psn: Psn, va: nat, imm: Option<nat>, source: seq<nat>)

  ghost function Meaning(p: Packet): Carried {
    Carried(p.opcode, p.psn, p.va, p.imm, PayloadAddrs(p.payload))
  }

  ghost function Meanings(ps: seq<Packet>): (r: seq<Carried>)
    ensures |r| == |ps|
  {
    seq(|ps|, i requires 0 <= i < |ps| => Meaning(ps[i]))
  }

  // The opcode of a packet by its place in the whole message.
  ghost function OpcodeAt(kind: Kind, first: bool, last: bool): Opcode {
    match kind
    case ReadResp =>
      if first && last then RespOnly else if first then RespFirst else if last then RespLast else RespMiddle
    case Write =>
      if first && last then WriteOnly else if first then WriteFirst else if last then WriteLast else WriteMiddle
    case WriteWithImm(_) =>
      if first && last then WriteOnlyWithImm
      else if first then WriteFirst
      else if last then WriteLastWithImm
      else WriteMiddle
  }

  ghost function PacketAt(kind: Kind, first: bool, last: bool, va: nat, psn: Psn, source: seq<nat>): Carried {
    Carried(OpcodeAt(kind, first, last), psn, va,
            if last && kind.WriteWithImm? then Some(kind.imm) else None, source)
  }

  // The packets of a piece of a message: va is where the piece goes, source where it comes from,
  // first and last say whether it begins and ends the message.
  ghost function Segments(kind: Kind, pmtu: nat, first: bool, last: bool, va: nat, psn: Psn,
                          source: seq<nat>): (r: seq<Carried>)
    requires pmtu > 0
    ensures |r| >= 1
    decreases |source|
  {
    var k := GetFirstPacketMaxLength(va, pmtu);
    if |source| <= k then
      [PacketAt(kind, first, last, va, psn, source)]
    else
      [PacketAt(kind, first, false, va, psn, source[..k])]
      + Segments(kind, pmtu, false, last, va + k, WrappingAdd(psn, 1), source[k..])
  }

  // ---- what the card does ------------------------------------------------------------------------

  // A descriptor of at most one packet that is not the first of its message always ends it.
  ghost function Emitted(d: Desc): (r: seq<Carried>)
    ensures |r| >= 1
  {
    var lastFlag := d.isLast || (!d.isFirst && |d.Source()| <= GetFirstPacketMaxLength(d.raddr, d.pmtu.Bytes()));
    Segments(d.kind, d.pmtu.Bytes(), d.isFirst, lastFlag, d.raddr, d.psn, d.Source())
  }

  method SendWriteOnlyPacket(d: Desc, sg: SGList) returns (p: Packet)
    requires sg.Valid()
    modifies sg
    ensures PayloadAddrs(p.payload) == Flat(old(sg.data))
    ensures p.opcode == WriteOnlyOpcodeWithImm(d).0 && p.imm == WriteOnlyOpcodeWithImm(d).1
    ensures p.psn == d.psn && p.va == d.raddr && p.rkey == d.rkey && p.dqpn == d.dqpn && p.msn == d.msn
    ensures p.rethLen == if p.opcode.IsFirst() then d.totalLen else 0
  {
    var payload := sg.CutAllLevels();
    var (opcode, imm) := WriteOnlyOpcodeWithImm(d);
    FlatEmpty(sg.data);
    var rethLen := if opcode.IsFirst() then d.totalLen else sg.GetTotalLength();
    p := Packet(opcode, d.psn, d.raddr, d.rkey, d.dqpn, d.msn, imm, rethLen, payload);
  }

  lemma MeaningsSnoc(ps: seq<Packet>, p: Packet)
    ensures Meanings(ps + [p]) == Meanings(ps) + [Meaning(p)]
  {
  }

  // The fields that every packet of a descriptor shares, and the RETH length: the whole message
  // in a First packet, nothing in a lone packet that is not First, the payload otherwise.
  ghost predicate FieldsOf(d: Desc, p: Packet, alone: bool) {
    && p.rkey == d.rkey && p.dqpn == d.dqpn && p.msn == d.msn
    && p.rethLen == if p.opcode.IsFirst() then d.totalLen else if alone then 0 else |PayloadAddrs(p.payload)|
  }

  // The next packet of a descriptor: the first length bytes of what its list still describes.
  method MakePacket(d: Desc, sg: SGList, length: nat, opcode: Opcode, imm: Option<nat>, va: nat, psn: Psn)
    returns (ok: bool, p: Packet)
    requires sg.Valid() && NoWrap(sg.data)
    modifies sg
    ensures sg.Valid() && NoWrap(sg.data)
    ensures 0 < length <= |old(sg.Rest())| ==> ok
    ensures ok && length <= |old(sg.Rest())| ==>
              && sg.Rest() == old(sg.Rest())[length..]
              && Meaning(p) == Carried(opcode, psn, va, imm, old(sg.Rest())[..length])
              && FieldsOf(d, p, false)
  {
    var payload;
    RestMeansLevels(sg);
    ok, payload := sg.Cut(length);
    p := Packet(opcode, psn, va, d.rkey, d.dqpn, d.msn, imm, if opcode.IsFirst() then d.totalLen else length, payload);
  }

  // A list that still describes something has a level left.
  lemma RestMeansLevels(sg: SGList)
    requires sg.Valid()
    ensures sg.Rest() != [] ==> sg.curLevel < sg.len
  {
    if sg.curLevel == sg.len {
      FlatEmpty(sg.data[..sg.len]);
    }
  }

  // Without holes the list describes all of the descriptor's source.
  lemma ListIsSource(d: Desc, sg: SGList)
    requires sg.Valid() && d.NoHoles() && sg.data == d.Sges()
    requires sg.len == 1 + Count(d.sge1) + Count(d.sge2) + Count(d.sge3)
    ensures sg.Rest() == d.Source()
  {
    assert sg.data == sg.data[..sg.len] + sg.data[sg.len..];
    FlatConcat(sg.data[..sg.len], sg.data[sg.len..]);
    FlatEmpty(sg.data[sg.len..]);
  }

  method Send(d: Desc) returns (ok: bool, sent: seq<Packet>)
    requires d.InAddressSpace()
    ensures d.NoHoles() ==> ok && Meanings(sent) == Emitted(d)
    ensures d.NoHoles() ==> forall i :: 0 <= i < |sent| ==> FieldsOf(d, sent[i], |sent| == 1)
  {
    var sg := new SGList(d.sge0, d.sge1, d.sge2, d.sge3);
    var pmtu := d.pmtu.Bytes();
    var firstPacketMaxLength := GetFirstPacketMaxLength(d.raddr, pmtu);
    var sgeTotalLength := sg.GetTotalLength();
    assert sgeTotalLength == |d.Source()|;
    if sgeTotalLength <= firstPacketMaxLength {
      var only := SendWriteOnlyPacket(d, sg);
      assert Meaning(only) == Emitted(d)[0];
      return true, [only];
    }
    if d.NoHoles() {
      ListIsSource(d, sg);
    }
    ok, sent := SendMany(d, sg, sgeTotalLength);
  }

  // Packets sent so far and what is still to be sent make up the descriptor.
  ghost predicate Progress(d: Desc, rest: seq<nat>, sent: seq<Packet>, va: nat, psn: Psn, curLen: nat) {
    && 0 < curLen == |rest| && va + curLen == d.raddr + |d.Source()| && va % d.pmtu.Bytes() == 0
    && Meanings(sent) + Segments(d.kind, d.pmtu.Bytes(), false, d.isLast, va, psn, rest) == Emitted(d)
    && |sent| >= 1 && AllFields(d, sent)
  }

  ghost predicate AllFields(d: Desc, sent: seq<Packet>) {
    forall i :: 0 <= i < |sent| ==> FieldsOf(d, sent[i], false)
  }

  lemma FirstProgress(d: Desc, p: Packet)
    requires |d.Source()| > GetFirstPacketMaxLength(d.raddr, d.pmtu.Bytes())
    requires var k := GetFirstPacketMaxLength(d.raddr, d.pmtu.Bytes());
             Meaning(p) == Carried(WriteFirstOpcode(d), d.psn, d.raddr, None, d.Source()[..k]) && FieldsOf(d, p, false)
    ensures var k := GetFirstPacketMaxLength(d.raddr, d.pmtu.Bytes());
            Progress(d, d.Source()[k..], [p], d.raddr + k, WrappingAdd(d.psn, 1), |d.Source()| - k)
  {
    hide Segments, FieldsOf, GetFirstPacketMaxLength, WrappingAdd, Meaning, Desc.Source;
    var k := GetFirstPacketMaxLength(d.raddr, d.pmtu.Bytes());
    assert Meanings([p]) == [Meaning(p)];
    assert Meaning(p) == PacketAt(d.kind, d.isFirst, false, d.raddr, d.psn, d.Source()[..k]);
    hide PacketAt, OpcodeAt, WriteFirstOpcode;
    SegmentsStep(d.kind, d.pmtu.Bytes(), d.isFirst, d.isLast, d.raddr, d.psn, d.Source());
  }

  lemma MiddleProgress(d: Desc, rest: seq<nat>, sent: seq<Packet>, va: nat, psn: Psn, p: Packet)
    requires Progress(d, rest, sent, va, psn, |rest|) && |rest| > d.pmtu.Bytes()
    requires Meaning(p) == Carried(WriteMiddleOpcode(d), psn, va, None, rest[..d.pmtu.Bytes()]) && FieldsOf(d, p, false)
    ensures var k := d.pmtu.Bytes();
            Progress(d, rest[k..], sent + [p], va + k, WrappingAdd(psn, 1), |rest| - k)
  {
    hide Segments, FieldsOf, WrappingAdd, Meaning, Desc.Source, Emitted;
    var k := d.pmtu.Bytes();
    MeaningsSnoc(sent, p);
    AlignedFirst(va, k);
    SegmentsStep(d.kind, k, false, d.isLast, va, psn, rest);
    var more := Segments(d.kind, k, false, d.isLast, va + k, WrappingAdd(psn, 1), rest[k..]);
    assert Segments(d.kind, k, false, d.isLast, va, psn, rest) == [Meaning(p)] + more;
    assert Meanings(sent) + ([Meaning(p)] + more) == Meanings(sent) + [Meaning(p)] + more;
    NextAligned(va, k);
  }

  lemma NextAligned(va: nat, k: nat)
    requires k > 0 && va % k == 0
    ensures (va + k) % k == 0
  {
    var q := va / k;
    assert va + k == (q + 1) * k;
    DivModUnique(va + k, k, q + 1, 0);
  }

  lemma LastProgress(d: Desc, rest: seq<nat>, sent: seq<Packet>, va: nat, psn: Psn, p: Packet)
    requires Progress(d, rest, sent, va, psn, |rest|) && |rest| <= d.pmtu.Bytes()
    requires Meaning(p) == Carried(WriteLastOpcodeWithImm(d).0, psn, va, WriteLastOpcodeWithImm(d).1, rest)
    requires FieldsOf(d, p, false)
    ensures Meanings(sent + [p]) == Emitted(d) && AllFields(d, sent + [p])
  {
    hide Segments, FieldsOf, Meaning, Desc.Source, Emitted;
    MeaningsSnoc(sent, p);
    AlignedFirst(va, d.pmtu.Bytes());
    SegmentsSingle(d.kind, d.pmtu.Bytes(), false, d.isLast, va, psn, rest);
  }

  // A descriptor of more than one packet.
  method SendMany(d: Desc, sg: SGList, total: nat) returns (ok: bool, sent: seq<Packet>)
    requires d.InAddressSpace() && sg.Valid() && NoWrap(sg.data)
    requires total == |d.Source()| > GetFirstPacketMaxLength(d.raddr, d.pmtu.Bytes())
    requires d.NoHoles() ==> sg.Rest() == d.Source()
    modifies sg
    ensures d.NoHoles() ==> ok && |sent| > 1 && Meanings(sent) == Emitted(d) && AllFields(d, sent)
  {
    hide Segments, Emitted, Meanings, Meaning, FieldsOf, SGList.Rest, SGList.Valid, NoWrap, WriteFirstOpcode,
         WriteMiddleOpcode, WriteLastOpcodeWithImm, GetFirstPacketMaxLength, WrappingAdd, Desc.Source, Desc.NoHoles;
    var pmtu := d.pmtu.Bytes();
    var length := GetFirstPacketMaxLength(d.raddr, pmtu);
    var p;
    ok, p := MakePacket(d, sg, length, WriteFirstOpcode(d), None, d.raddr, d.psn);
    sent := [];
    if !ok {
      return;
    }
    sent := [p];
    var curLen: nat, curVa: nat, psn: Psn := total - length, AddAddr(d.raddr, length), WrappingAdd(d.psn, 1);
    if d.NoHoles() {
      FirstProgress(d, p);
    }
    while curLen > pmtu
      invariant sg.Valid() && NoWrap(sg.data)
      invariant d.NoHoles() ==> Progress(d, sg.Rest(), sent, curVa, psn, curLen)
    {
      ghost var rest := sg.Rest();
      ok, p := MakePacket(d, sg, pmtu, WriteMiddleOpcode(d), None, curVa, psn);
      if !ok {
        return;
      }
      if d.NoHoles() {
        MiddleProgress(d, rest, sent, curVa, psn, p);
      }
      sent := sent + [p];
      curLen, psn, curVa := curLen - pmtu, WrappingAdd(psn, 1), AddAddr(curVa, pmtu);
    }
    ghost var rest := sg.Rest();
    var (opcode, imm) := WriteLastOpcodeWithImm(d);
    ok, p := MakePacket(d, sg, curLen, opcode, imm, curVa, psn);
    if !ok {
      return;
    }
    if d.NoHoles() {
      assert rest[..curLen] == rest;
      LastProgress(d, rest, sent, curVa, psn, p);
    }
    sent := sent + [p];
  }

  // ---- properties of the reference -------------------------------------------------------------------

  lemma DivCeilStep(m: nat, d: nat)
    requires d > 0 && m > d
    ensures DivCeil(m, d) == 1 + DivCeil(m - d, d)
  {
    var q, r := (m - d) / d, (m - d) % d;
    assert m == (q + 1) * d + r;
    DivModUnique(m, d, q + 1, r);
  }

  lemma DivCeilOne(m: nat, d: nat)
    requires 0 < m <= d
    ensures DivCeil(m, d) == 1
  {
    if m == d {
      DivModUnique(m, d, 1, 0);
    } else {
      DivModUnique(m, d, 0, m);
    }
  }

  lemma AlignedFirst(va: nat, pmtu: nat)
    requires pmtu > 0 && va % pmtu == 0
    ensures GetFirstPacketMaxLength(va, pmtu) == pmtu
  {
  }

  // One packet less for what is left after the first packet.
  lemma CountStep(pmtu: Pmtu, va: nat, n: nat)
    requires n > GetFirstPacketMaxLength(va, pmtu.Bytes())
    ensures var k := GetFirstPacketMaxLength(va, pmtu.Bytes());
            CalculatePacketCnt(pmtu, va, n) == 1 + CalculatePacketCnt(pmtu, va + k, n - k)
  {
    var p := pmtu.Bytes();
    var k := GetFirstPacketMaxLength(va, p);
    AlignedFirst(va + k, p);
    hide DivCeil, GetFirstPacketMaxLength;
    if n - k > p {
      DivCeilStep(n - k, p);
    } else {
      DivCeilOne(n - k, p);
      assert DivCeil(0, p) == 0 by { DivCeilZero(p); }
    }
  }

  lemma DivCeilZero(p: nat)
    requires p > 0
    ensures DivCeil(0, p) == 0
  {
  }

  lemma SingleCount(pmtu: Pmtu, va: nat, n: nat)
    requires n <= GetFirstPacketMaxLength(va, pmtu.Bytes())
    ensures CalculatePacketCnt(pmtu, va, n) == 1
  {
    DivCeilZero(pmtu.Bytes());
  }

  // The number of packets is the one the driver computes in advance.
  lemma {:induction false} SegmentsCount(kind: Kind, pmtu: Pmtu, first: bool, last: bool, va: nat, psn: Psn,
                                         source: seq<nat>)
    ensures |Segments(kind, pmtu.Bytes(), first, last, va, psn, source)| == CalculatePacketCnt(pmtu, va, |source|)
    decreases |source|
  {
    hide CalculatePacketCnt, GetFirstPacketMaxLength, PacketAt;
    var k := GetFirstPacketMaxLength(va, pmtu.Bytes());
    if |source| > k {
      SegmentsCount(kind, pmtu, false, last, va + k, WrappingAdd(psn, 1), source[k..]);
      CountStep(pmtu, va, |source|);
    } else {
      SingleCount(pmtu, va, |source|);
    }
  }

  // PSNs are consecutive from the first one.
  lemma {:induction false} SegmentsPsn(kind: Kind, pmtu: nat, first: bool, last: bool, va: nat, psn: Psn,
                                       source: seq<nat>, i: nat)
    requires pmtu > 0 && i < |Segments(kind, pmtu, first, last, va, psn, source)|
    ensures Segments(kind, pmtu, first, last, va, psn, source)[i].psn == WrappingAdd(psn, i)
    decreases |source|
  {
    assert WrappingAdd(psn, 0) == psn;
    hide Segments, GetFirstPacketMaxLength, OpcodeAt, WrappingAdd;
    var k := GetFirstPacketMaxLength(va, pmtu);
    if |source| > k {
      SegmentsStep(kind, pmtu, first, last, va, psn, source);
      if i > 0 {
        SegmentsPsn(kind, pmtu, false, last, va + k, WrappingAdd(psn, 1), source[k..], i - 1);
        AddTwice(psn, i - 1);
      }
    } else {
      SegmentsSingle(kind, pmtu, first, last, va, psn, source);
    }
  }

  // Cutting a piece at a packet boundary does not change its packets.
  lemma {:induction false} SegmentsSplit(kind: Kind, pmtu: nat, first: bool, last: bool, va: nat, psn: Psn,
                                         source: seq<nat>, m: nat)
    requires pmtu > 0 && 0 < m < |source| && (va + m) % pmtu == 0
    ensures var front := Segments(kind, pmtu, first, false, va, psn, source[..m]);
            Segments(kind, pmtu, first, last, va, psn, source)
            == front + Segments(kind, pmtu, false, last, va + m, WrappingAdd(psn, |front|), source[m..])
    decreases |source|
  {
    hide Segments, GetFirstPacketMaxLength, PacketAt, WrappingAdd;
    var k := GetFirstPacketMaxLength(va, pmtu);
    BoundaryNotBefore(va, pmtu, m);
    SegmentsStep(kind, pmtu, first, last, va, psn, source);
    if m > k {
      SegmentsSplit(kind, pmtu, false, last, va + k, WrappingAdd(psn, 1), source[k..], m - k);
      SplitLater(kind, pmtu, first, last, va, psn, source, m);
    } else {
      SegmentsSingle(kind, pmtu, first, false, va, psn, source[..m]);
    }
  }

  // The cut lies behind the first packet.
  lemma SplitLater(kind: Kind, pmtu: nat, first: bool, last: bool, va: nat, psn: Psn, source: seq<nat>, m: nat)
    requires pmtu > 0 && GetFirstPacketMaxLength(va, pmtu) < m < |source|
    requires var k := GetFirstPacketMaxLength(va, pmtu);
             var inner := Segments(kind, pmtu, false, false, va + k, WrappingAdd(psn, 1), source[k..][..m - k]);
             Segments(kind, pmtu, false, last, va + k, WrappingAdd(psn, 1), source[k..])
             == inner + Segments(kind, pmtu, false, last, va + m, WrappingAdd(WrappingAdd(psn, 1), |inner|),
                                 source[k..][m - k..])
    ensures var front := Segments(kind, pmtu, first, false, va, psn, source[..m]);
            Segments(kind, pmtu, first, last, va, psn, source)
            == front + Segments(kind, pmtu, false, last, va + m, WrappingAdd(psn, |front|), source[m..])
  {
    hide Segments, GetFirstPacketMaxLength, PacketAt, WrappingAdd;
    var k := GetFirstPacketMaxLength(va, pmtu);
    assert source[..m][..k] == source[..k] && source[..m][k..] == source[k..][..m - k];
    assert source[k..][m - k..] == source[m..];
    SegmentsStep(kind, pmtu, first, last, va, psn, source);
    SegmentsStep(kind, pmtu, first, false, va, psn, source[..m]);
    AddTwice(psn, |Segments(kind, pmtu, false, false, va + k, WrappingAdd(psn, 1), source[k..][..m - k])|);
  }

  lemma SegmentsSingle(kind: Kind, pmtu: nat, first: bool, last: bool, va: nat, psn: Psn, source: seq<nat>)
    requires pmtu > 0 && |source| <= GetFirstPacketMaxLength(va, pmtu)
    ensures Segments(kind, pmtu, first, last, va, psn, source) == [PacketAt(kind, first, last, va, psn, source)]
  {
  }

  lemma SegmentsStep(kind: Kind, pmtu: nat, first: bool, last: bool, va: nat, psn: Psn, source: seq<nat>)
    requires pmtu > 0 && |source| > GetFirstPacketMaxLength(va, pmtu)
    ensures var k := GetFirstPacketMaxLength(va, pmtu);
            Segments(kind, pmtu, first, last, va, psn, source)
            == [PacketAt(kind, first, false, va, psn, source[..k])]
               + Segments(kind, pmtu, false, last, va + k, WrappingAdd(psn, 1), source[k..])
  {
  }

  lemma AddTwice(psn: Psn, n: nat)
    ensures WrappingAdd(WrappingAdd(psn, 1), n) == WrappingAdd(psn, 1 + n)
  {
  }

  // The first packet boundary after va is where the first packet ends.
  lemma BoundaryNotBefore(va: nat, pmtu: nat, m: nat)
    requires pmtu > 0 && m > 0 && (va + m) % pmtu == 0
    ensures m >= GetFirstPacketMaxLength(va, pmtu)
  {
    var q, r := va / pmtu, va % pmtu;
    if m < pmtu - r {
      DivModUnique(va + m, pmtu, q, r + m);
    }
  }
}
