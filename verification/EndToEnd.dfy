// A write from the user's call to the memory and the packet checker of the receiver.

module EndToEnd {
  import opened Bytes
  import opened Memory
  import opened Psn
  import opened Wrappers
  import opened PacketLength
  import opened SgList
  import opened Transmit
  import opened Split
  import opened SplitMeaning
  import opened Delivery
  import Checker
  import CheckerRuns
  import Pipeline
  import RR = RoundRobin

  // ---- the packets as the checker sees them -----------------------------------------------------------------

  // The place of a packet in its message, as its opcode tells it.
  function TypeOf(op: Opcode): Option<Checker.WriteType> {
    match op
    case WriteFirst | RespFirst => Some(Checker.First)
    case WriteMiddle | RespMiddle => Some(Checker.Middle)
    case WriteLast | WriteLastWithImm | RespLast => Some(Checker.Last)
    case WriteOnly | WriteOnlyWithImm | RespOnly => Some(Checker.Only)
    case ReadRequest | Acknowledge => None
  }

  lemma {:induction false} SegmentsOpcode(kind: Kind, pmtu: nat, first: bool, last: bool, va: nat, psn: Psn,
                                          source: seq<nat>, i: nat)
    requires pmtu > 0 && i < |Segments(kind, pmtu, first, last, va, psn, source)|
    ensures var r := Segments(kind, pmtu, first, last, va, psn, source);
            && r[i].opcode == OpcodeAt(kind, first && i == 0, last && i == |r| - 1) && r[0].va == va
            && r[i].imm == if last && i == |r| - 1 && kind.WriteWithImm? then Some(kind.imm) else None
    decreases |source|
  {
    var k := GetFirstPacketMaxLength(va, pmtu);
    if |source| > k && i > 0 {
      SegmentsOpcode(kind, pmtu, false, last, va + k, WrappingAdd(psn, 1), source[k..], i - 1);
    }
  }

  // The fields that all chunks share with the descriptor.
  ghost predicate Shares(d: Desc, c: Desc) {
    c.msn == d.msn && c.dqpn == d.dqpn && c.rkey == d.rkey
  }

  lemma {:induction false} ChunksShare(d: Desc, size: nat, va: nat, laddr: nat, remain: nat, psn: Psn, length: nat,
                                       i: nat)
    requires size > 0 && (remain > 0 ==> 0 < length <= remain)
    requires i < |Chunks(d, size, va, laddr, remain, psn, length)|
    ensures Shares(d, Chunks(d, size, va, laddr, remain, psn, length)[i])
    decreases remain
  {
    hide RecalculatePsn;
    if remain > 0 && i > 0 {
      ChunksShare(d, size, va + length, laddr + length, remain - length, RecalculatePsn(va, d.pmtu, length, psn),
                  NextLength(remain - length, size), i - 1);
    }
  }

  // The first chunk announces the whole message.
  lemma SplittedShares(d: Desc, size: nat, i: nat)
    requires size > 0 && i < |Splitted(d, size)|
    ensures Shares(d, Splitted(d, size)[i])
    ensures Splitted(d, size)[0].totalLen == d.totalLen
  {
    hide Chunks, GetFirstScheduleSegmentLength;
    if d.totalLen >= size {
      ChunksShare(d, size, d.raddr, d.sge0.addr, d.totalLen, d.psn, GetFirstScheduleSegmentLength(d.raddr, size), i);
    }
  }

  lemma {:induction false} FlattenShares(d: Desc, ds: seq<Desc>, groups: seq<seq<Packet>>, i: nat)
    requires AllSent(ds, groups) && i < |Flatten(groups)|
    requires forall j :: 0 <= j < |ds| ==> Shares(d, ds[j])
    ensures var p := Flatten(groups)[i]; p.msn == d.msn && p.dqpn == d.dqpn && p.rkey == d.rkey
    decreases |ds|
  {
    hide Emitted;
    if ds != [] {
      assert SentFor(ds[0], groups[0]);
      if i >= |groups[0]| {
        assert AllSent(ds[1..], groups[1..]);
        FlattenShares(d, ds[1..], groups[1..], i - |groups[0]|);
      }
    }
  }

  // Packet i of message m, as the checker's card reports it.
  ghost predicate IsPacket(p: Packet, d: Desc, m: CheckerRuns.Message, i: nat) {
    && p.psn == Wire(m.start + i) && p.msn == m.msn && p.dqpn == d.dqpn && p.rkey == d.rkey
    && TypeOf(p.opcode) == Some(CheckerRuns.Arrival(m, i, false).Type(d.pmtu))
    && IsResponse(p.opcode) == d.kind.ReadResp?
    && p.imm == if i == m.Count(d.pmtu) - 1 && d.kind.WriteWithImm? then Some(d.kind.imm) else None
  }

  predicate IsResponse(op: Opcode) {
    op.RespFirst? || op.RespMiddle? || op.RespLast? || op.RespOnly?
  }

  // The packets that are sent for the chunks of a message are exactly those of a message of the receiver's
  // checker: as many, with its PSNs, its MSN and the places that it expects, and the first of several announces
  // the address and the length from which the receiver counts them.
  lemma SenderMeetsChecker(d: Desc, size: nat, groups: seq<seq<Packet>>)
    requires size > 0 && WholeMessage(d) && GoodSize(d.pmtu, size) && AllSent(Splitted(d, size), groups)
    requires d.msn < 0x1_0000
    ensures var ps, m := Flatten(groups), CheckerRuns.Message(d.psn, d.raddr, d.totalLen, d.msn);
            && |ps| == m.Count(d.pmtu)
            && (forall i :: 0 <= i < |ps| ==> IsPacket(ps[i], d, m, i))
            && (|ps| > 1 ==> ps[0].va == m.addr && ps[0].rethLen == m.len)
  {
    hide Splitted, Emitted, EmittedAll, AllSent, Flatten, GoodSize, Wire, WrappingAdd, CalculatePacketCnt, Meanings;
    var ds, ps := Splitted(d, size), Flatten(groups);
    FlattenMeans(ds, groups);
    SplitPreserves(d, size);
    assert Meanings(ps) == Emitted(d);
    OneElementSource(d);
    Pipeline.EmittedPsns(d);
    forall j | 0 <= j < |ds| ensures Shares(d, ds[j]) {
      SplittedShares(d, size, j);
    }
    var m := CheckerRuns.Message(d.psn, d.raddr, d.totalLen, d.msn);
    forall i | 0 <= i < |ps| ensures IsPacket(ps[i], d, m, i) {
      FlattenShares(d, ds, groups, i);
      MeaningAt(ps, i);
      EmittedOpcode(d, i);
      WireAdd(d.psn, i);
      SmallWire(d.psn);
    }
    if |ps| > 1 {
      MeaningAt(ps, 0);
      EmittedOpcode(d, 0);
      FirstAnnounces(d, size, groups);
    }
  }

  lemma SmallWire(p: Psn)
    ensures Wire(p) == p
  {
  }

  lemma MeaningAt(ps: seq<Packet>, i: nat)
    requires i < |ps|
    ensures |Meanings(ps)| == |ps| && Meanings(ps)[i] == Meaning(ps[i])
  {
  }

  lemma EmittedOpcode(d: Desc, i: nat)
    requires d.isFirst && d.isLast && i < |Emitted(d)|
    ensures Emitted(d)[i].opcode == OpcodeAt(d.kind, i == 0, i == |Emitted(d)| - 1) && Emitted(d)[0].va == d.raddr
    ensures Emitted(d)[i].imm == if i == |Emitted(d)| - 1 && d.kind.WriteWithImm? then Some(d.kind.imm) else None
  {
    SegmentsOpcode(d.kind, d.pmtu.Bytes(), true, true, d.raddr, d.psn, d.Source(), i);
  }

  lemma FirstAnnounces(d: Desc, size: nat, groups: seq<seq<Packet>>)
    requires size > 0 && AllSent(Splitted(d, size), groups) && Flatten(groups) != []
    ensures var p := Flatten(groups)[0]; p.opcode.IsFirst() ==> p.rethLen == d.totalLen
  {
    hide Splitted, Emitted;
    var ds := Splitted(d, size);
    Pipeline.SplittedNonEmpty(d, size);
    SplittedShares(d, size, 0);
    assert SentFor(ds[0], groups[0]);
    assert |groups[0]| == |Emitted(ds[0])| >= 1;
  }

  // The packets of a user's write: plain writes to the queue pair that was named, numbered from its next PSN, under
  // its next MSN and the key that was given.
  lemma UserWriteSends(qp: Pipeline.QpContext, qpn: RR.Qpn, raddr: nat, rkey: nat, sge: Sge, size: nat,
                       groups: seq<seq<Packet>>, i: nat)
    requires size > 0 && GoodSize(qp.pmtu, size) && qp.nextMsn < 0x1_0000
    requires sge.addr + sge.len < ADDRESS_SPACE && raddr + sge.len <= ADDRESS_SPACE
    requires AllSent(Splitted(Pipeline.DescOf(qp, qpn, raddr, rkey, sge), size), groups) && i < |Flatten(groups)|
    ensures var p := Flatten(groups)[i];
            && p.psn == WrappingAdd(qp.sendingPsn, i) && p.msn == qp.nextMsn && p.dqpn == qpn && p.rkey == rkey
            && !IsResponse(p.opcode) && p.imm.None?
    ensures Pipeline.AfterSubmit(qp, raddr, sge.len).sendingPsn == WrappingAdd(qp.sendingPsn, |Flatten(groups)|)
  {
    hide AllSent, Splitted, Flatten, GoodSize, Wire, CalculatePacketCnt;
    SenderMeetsChecker(Pipeline.DescOf(qp, qpn, raddr, rkey, sge), size, groups);
    WireAdd(qp.sendingPsn, i);
    SmallWire(qp.sendingPsn);
  }

  // ---- the user's bytes ---------------------------------------------------------------------------------------

  // The region that the key names admits remote writes and holds the target.
  ghost predicate Accessible(table: map<nat, Region>, raddr: nat, rkey: nat, len: nat) {
    && rkey in table && RemoteWrite in table[rkey].flags
    && table[rkey].addr <= raddr && raddr + len <= table[rkey].addr + table[rkey].len < ADDRESS_SPACE
  }

  // What a user writes stands at the remote address once every packet has arrived, and nothing else has changed.
  lemma UserWriteArrives(qp: Pipeline.QpContext, qpn: RR.Qpn, raddr: nat, rkey: nat, sge: Sge, size: nat,
                         table: map<nat, Region>, src: seq<byte>, mem: seq<byte>, groups: seq<seq<Packet>>,
                         order: seq<nat>)
    requires size > 0 && GoodSize(qp.pmtu, size) && Accessible(table, raddr, rkey, sge.len)
    requires sge.addr + sge.len <= |src| < ADDRESS_SPACE && raddr + sge.len <= |mem|
    requires AllSent(Splitted(Pipeline.DescOf(qp, qpn, raddr, rkey, sge), size), groups)
    requires forall k :: 0 <= k < |order| ==> order[k] < |Flatten(groups)|
    requires forall i :: 0 <= i < |Flatten(groups)| ==> i in order
    ensures forall i :: 0 <= i < |Flatten(groups)| ==> Receivable(table, src, mem, Flatten(groups)[i])
    ensures ReceivedAll(table, src, mem, Flatten(groups), order)
            == mem[..raddr] + src[sge.addr..sge.addr + sge.len] + mem[raddr + sge.len..]
  {
    hide ReceivedAll, AllSent, Splitted, Receivable, Flatten, GoodSize, Desc.Source, Gather, Overwrite, WholeMessage,
         Registered, Gatherable;
    var d := Pipeline.DescOf(qp, qpn, raddr, rkey, sge);
    DescIsWhole(qp, qpn, raddr, rkey, sge, table, src);
    WriteArrives(table, src, mem, d, size, groups, order);
    OverwriteIs(src, mem, raddr, sge);
  }

  lemma DescIsWhole(qp: Pipeline.QpContext, qpn: RR.Qpn, raddr: nat, rkey: nat, sge: Sge, table: map<nat, Region>,
                    src: seq<byte>)
    requires Accessible(table, raddr, rkey, sge.len) && sge.addr + sge.len <= |src| < ADDRESS_SPACE
    ensures var d := Pipeline.DescOf(qp, qpn, raddr, rkey, sge);
            && WholeMessage(d) && Registered(table, d) && d.Source() == Range(sge.addr, sge.len)
            && Gatherable(src, Range(sge.addr, sge.len)) && d.pmtu == qp.pmtu && d.raddr == raddr
  {
    hide Desc.Source;
    OneElementSource(Pipeline.DescOf(qp, qpn, raddr, rkey, sge));
  }

  lemma OverwriteIs(src: seq<byte>, mem: seq<byte>, raddr: nat, sge: Sge)
    requires sge.addr + sge.len <= |src| && raddr + sge.len <= |mem|
    ensures Overwrite(mem, raddr, Gather(src, Range(sge.addr, sge.len)))
            == mem[..raddr] + src[sge.addr..sge.addr + sge.len] + mem[raddr + sge.len..]
  {
    assert Gather(src, Range(sge.addr, sge.len)) == src[sge.addr..sge.addr + sge.len];
  }
}
