// What arriving write packets do to the memory of the receiver.

module Delivery {
  import opened Bytes
  import opened Memory
  import opened Psn
  import opened Wrappers
  import opened PacketLength
  import opened SgList
  import opened Transmit
  import opened Split
  import opened SplitMeaning

  datatype Access = LocalWrite | RemoteWrite | RemoteRead

  datatype Region = Region(addr: nat, len: nat, flags: set<Access>)

  datatype Status = Normal | InvMrKey | InvAccFlag | InvMrRegion

  const ADDRESS_SPACE: nat := 0x1_0000_0000_0000_0000

  // ---- access checks ------------------------------------------------------------------------------

  function ValidateRkey(table: map<nat, Region>, rkey: nat, needed: set<Access>, va: nat, length: nat): Status {
    if rkey !in table then
      InvMrKey
    else
      var mr := table[rkey];
      if !(needed <= mr.flags) then
        InvAccFlag
      else if mr.addr > va || (mr.addr + mr.len) % ADDRESS_SPACE < (va + length) % ADDRESS_SPACE then
        InvMrRegion
      else
        Normal
  }

  // The region admits remote writes and holds everything d writes or announces.
  ghost predicate Registered(table: map<nat, Region>, d: Desc) {
    && d.rkey in table
    && var mr := table[d.rkey];
       && RemoteWrite in mr.flags
       && mr.addr <= d.raddr
       && d.raddr + d.totalLen <= mr.addr + mr.len
       && d.raddr + |d.Source()| <= mr.addr + mr.len < ADDRESS_SPACE
  }

  // ---- receiving ------------------------------------------------------------------------------------

  // What the host is told about a packet.
  datatype Report = Report(status: Status, opcode: Opcode, psn: Psn, addr: nat, len: nat, dqpn: Psn, msn: nat,
                           imm: Option<nat>)

  ghost function AdmissionOf(table: map<nat, Region>, p: Packet): Status {
    ValidateRkey(table, p.rkey, {RemoteWrite}, p.va, p.rethLen)
  }

  // The payload can be read and, if the packet is admitted, there is memory at its address.
  ghost predicate Receivable(table: map<nat, Region>, src: seq<byte>, mem: seq<byte>, p: Packet) {
    Gatherable(src, PayloadAddrs(p.payload)) &&
    (AdmissionOf(table, p).Normal? ==> p.va + |PayloadAddrs(p.payload)| <= |mem|)
  }

  // The memory after a packet: an admitted payload stands at its address, anything else changes nothing.
  ghost function AfterRecv(table: map<nat, Region>, src: seq<byte>, mem: seq<byte>, p: Packet): (r: seq<byte>)
    requires Receivable(table, src, mem, p)
    ensures |r| == |mem|
  {
    if AdmissionOf(table, p).Normal? then Overwrite(mem, p.va, Gather(src, PayloadAddrs(p.payload))) else mem
  }

  class Receiver {
    var table: map<nat, Region>
    const mem: array<byte>
    var toHost: seq<Report>

    constructor (table: map<nat, Region>, mem: array<byte>)
      ensures this.table == table && this.mem == mem && toHost == []
    {
      this.table := table;
      this.mem := mem;
      toHost := [];
    }

    // A packet whose payload lies in buf. An admitted payload is copied to its address; anything
    // else leaves memory alone. The host is told in any case.
    method Recv(p: Packet, buf: array<byte>)
      requires buf != mem && Receivable(table, buf[..], mem[..], p)
      modifies mem, this`toHost
      ensures mem[..] == AfterRecv(table, buf[..], old(mem[..]), p)
      ensures toHost == old(toHost) + [Report(AdmissionOf(table, p), p.opcode, p.psn, p.va, p.rethLen,
                                              p.dqpn, p.msn, p.imm)]
    {
      var status := ValidateRkey(table, p.rkey, {RemoteWrite}, p.va, p.rethLen);
      if status.Normal? {
        CopyTo(buf, p.payload, mem, p.va);
      }
      toHost := toHost + [Report(status, p.opcode, p.psn, p.va, p.rethLen, p.dqpn, p.msn, p.imm)];
    }
  }

  // ---- who is kept out ----------------------------------------------------------------------------

  // The key names a region that admits remote writes.
  ghost predicate Writable(table: map<nat, Region>, rkey: nat) {
    rkey in table && RemoteWrite in table[rkey].flags
  }

  // What is announced lies in the region that the key names.
  ghost predicate Announced(table: map<nat, Region>, p: Packet)
    requires p.rkey in table
  {
    table[p.rkey].addr <= p.va && p.va + p.rethLen <= table[p.rkey].addr + table[p.rkey].len
  }

  // Which refusal is reported: the key comes first, then the permission, then the bounds. Bounds are exact as
  // long as neither the region nor what is announced wraps around.
  lemma RefusalIff(table: map<nat, Region>, p: Packet)
    ensures AdmissionOf(table, p).InvMrKey? <==> p.rkey !in table
    ensures AdmissionOf(table, p).InvAccFlag? <==> p.rkey in table && !Writable(table, p.rkey)
    ensures p.rkey in table && table[p.rkey].addr + table[p.rkey].len < ADDRESS_SPACE
            && p.va + p.rethLen < ADDRESS_SPACE ==>
              && (AdmissionOf(table, p).Normal? <==> Writable(table, p.rkey) && Announced(table, p))
              && (AdmissionOf(table, p).InvMrRegion? <==> Writable(table, p.rkey) && !Announced(table, p))
  {
  }

  // A packet whose key names no region that admits remote writes changes no byte.
  lemma RefusedChangesNothing(table: map<nat, Region>, src: seq<byte>, mem: seq<byte>, p: Packet)
    requires Receivable(table, src, mem, p) && !Writable(table, p.rkey)
    ensures AfterRecv(table, src, mem, p) == mem
  {
    RefusalIff(table, p);
  }

  // Some region that admits remote writes holds address x.
  ghost predicate Exposed(table: map<nat, Region>, x: nat) {
    exists k :: Writable(table, k) && table[k].addr <= x < table[k].addr + table[k].len
  }

  // The packet announces what it carries, and that does not wrap around.
  ghost predicate Honest(p: Packet) {
    |PayloadAddrs(p.payload)| <= p.rethLen && p.va + p.rethLen < ADDRESS_SPACE
  }

  lemma HonestStaysExposed(table: map<nat, Region>, src: seq<byte>, mem: seq<byte>, p: Packet, x: nat)
    requires Receivable(table, src, mem, p) && Honest(p) && x < |mem| && !Exposed(table, x)
    requires forall k :: k in table ==> table[k].addr + table[k].len < ADDRESS_SPACE
    ensures AfterRecv(table, src, mem, p)[x] == mem[x]
  {
    hide PayloadAddrs, Gather;
    RefusalIff(table, p);
  }

  // Whatever honest packets arrive, and in whatever order, a byte that no region exposes to remote writes
  // keeps its value.
  lemma {:induction false} UnexposedUntouched(
    table: map<nat, Region>, src: seq<byte>, mem: seq<byte>, ps: seq<Packet>, order: seq<nat>, x: nat)
    requires forall k :: k in table ==> table[k].addr + table[k].len < ADDRESS_SPACE
    requires forall i :: 0 <= i < |ps| ==> Receivable(table, src, mem, ps[i]) && Honest(ps[i])
    requires forall k :: 0 <= k < |order| ==> order[k] < |ps|
    requires x < |mem| && !Exposed(table, x)
    ensures |ReceivedAll(table, src, mem, ps, order)| == |mem| && ReceivedAll(table, src, mem, ps, order)[x] == mem[x]
    decreases |order|
  {
    hide AfterRecv, PayloadAddrs, ValidateRkey, Exposed, Honest;
    if order != [] {
      HonestStaysExposed(table, src, mem, ps[order[0]], x);
      UnexposedUntouched(table, src, AfterRecv(table, src, mem, ps[order[0]]), ps, order[1..], x);
    }
  }

  // The packet writes only inside the region that its key names.
  ghost predicate StaysInside(table: map<nat, Region>, p: Packet)
    requires p.rkey in table
  {
    var mr := table[p.rkey];
    mr.addr <= p.va && p.va + |PayloadAddrs(p.payload)| <= mr.addr + mr.len
  }

  // Whatever the regions are, an admitted packet stays inside its region, if and only if it announces at
  // least the length it carries and what it announces does not wrap around the address space.
  lemma AdmittedStaysInsideIff(p: Packet)
    requires p.va < ADDRESS_SPACE && p.rethLen < 0x1_0000_0000
    ensures (forall table: map<nat, Region> ::
               AdmissionOf(table, p).Normal? && table[p.rkey].addr + table[p.rkey].len < ADDRESS_SPACE ==>
                 StaysInside(table, p))
       <==> |PayloadAddrs(p.payload)| <= p.rethLen && p.va + p.rethLen < ADDRESS_SPACE
  {
    hide PayloadAddrs;
    var mr := if p.va + p.rethLen < ADDRESS_SPACE then Region(p.va, p.rethLen, {RemoteWrite})
              else Region(0, p.va + p.rethLen - ADDRESS_SPACE, {RemoteWrite});
    var table: map<nat, Region> := map[p.rkey := mr];
    assert AdmissionOf(table, p).Normal? && table[p.rkey].addr + table[p.rkey].len < ADDRESS_SPACE;
    assert StaysInside(table, p) ==> |PayloadAddrs(p.payload)| <= p.rethLen && p.va + p.rethLen < ADDRESS_SPACE;
  }

  // A packet near the end of the address space that announces more than it carries, and is admitted to a
  // region it does not touch.
  lemma WrappedPacketLeaves(p: Packet)
    requires p.va == 0xFFFF_FFFF_FFFF_FFF0 && p.rethLen == 32 && |PayloadAddrs(p.payload)| == 8
    ensures var table := map[p.rkey := Region(0x1000, 0x1000, {RemoteWrite})];
            AdmissionOf(table, p).Normal? && !StaysInside(table, p)
  {
  }

  // A lone packet that does not open a message announces length 0, so it may write past its region unless
  // it is empty.
  lemma LonePacketAnnouncesNothing(d: Desc, p: Packet)
    requires FieldsOf(d, p, true) && !p.opcode.IsFirst()
    ensures |PayloadAddrs(p.payload)| <= p.rethLen <==> PayloadAddrs(p.payload) == []
  {
  }

  // ---- every packet is admitted --------------------------------------------------------------------

  // A packet carries the part of the source at an offset to the matching remote addresses.
  ghost predicate Carries(c: Carried, va: nat, source: seq<nat>, offset: nat) {
    && c.va == va + offset && offset + |c.source| <= |source|
    && c.source == source[offset..offset + |c.source|]
  }

  lemma CarriesFromRest(c: Carried, va: nat, source: seq<nat>, k: nat, inner: nat)
    requires k <= |source| && Carries(c, va + k, source[k..], inner)
    ensures Carries(c, va, source, k + inner)
  {
    assert source[k..][inner..inner + |c.source|] == source[k + inner..k + inner + |c.source|];
  }

  lemma CarriesFront(kind: Kind, first: bool, last: bool, va: nat, psn: Psn, source: seq<nat>, k: nat)
    requires k <= |source|
    ensures Carries(PacketAt(kind, first, last, va, psn, source[..k]), va, source, 0)
    ensures PacketAt(kind, first, last, va, psn, source[..k]).opcode.IsFirst() ==> first
  {
  }

  // Every packet does so for some offset, and only the first of a message has a First opcode.
  lemma {:induction false} SegmentSlice(kind: Kind, pmtu: nat, first: bool, last: bool, va: nat, psn: Psn,
                                        source: seq<nat>, i: nat)
    returns (offset: nat)
    requires pmtu > 0 && i < |Segments(kind, pmtu, first, last, va, psn, source)|
    ensures Carries(Segments(kind, pmtu, first, last, va, psn, source)[i], va, source, offset)
    ensures i == 0 ==> offset == 0
    ensures Segments(kind, pmtu, first, last, va, psn, source)[i].opcode.IsFirst() ==> first && i == 0
    decreases |source|
  {
    hide Segments, GetFirstPacketMaxLength, WrappingAdd, Carries, PacketAt, Opcode.IsFirst;
    var k := GetFirstPacketMaxLength(va, pmtu);
    offset := 0;
    if |source| <= k {
      SegmentsSingle(kind, pmtu, first, last, va, psn, source);
      CarriesFront(kind, first, last, va, psn, source, |source|);
      assert source[..|source|] == source;
    } else {
      SegmentsStep(kind, pmtu, first, last, va, psn, source);
      CarriesFront(kind, first, false, va, psn, source, k);
      if i > 0 {
        var inner := SegmentSlice(kind, pmtu, false, last, va + k, WrappingAdd(psn, 1), source[k..], i - 1);
        CarriesFromRest(Segments(kind, pmtu, first, last, va, psn, source)[i], va, source, k, inner);
        offset := k + inner;
      }
    }
  }

  // Every byte of the source is in some packet.
  lemma {:induction false} SegmentsCover(kind: Kind, pmtu: nat, first: bool, last: bool, va: nat, psn: Psn,
                                         source: seq<nat>, j: nat)
    returns (i: nat)
    requires pmtu > 0 && j < |source|
    ensures var cs := Segments(kind, pmtu, first, last, va, psn, source);
            i < |cs| && cs[i].va <= va + j < cs[i].va + |cs[i].source|
    decreases |source|
  {
    hide Segments, GetFirstPacketMaxLength, WrappingAdd, OpcodeAt;
    var k := GetFirstPacketMaxLength(va, pmtu);
    i := 0;
    if |source| <= k {
      SegmentsSingle(kind, pmtu, first, last, va, psn, source);
    } else {
      SegmentsStep(kind, pmtu, first, last, va, psn, source);
      if j >= k {
        var inner := SegmentsCover(kind, pmtu, false, last, va + k, WrappingAdd(psn, 1), source[k..], j - k);
        i := inner + 1;
      }
    }
  }

  // Everything that is sent for a registered write passes the access check.
  lemma AllAdmitted(d: Desc, table: map<nat, Region>, sent: seq<Packet>, i: nat)
    requires Registered(table, d) && i < |sent|
    requires Meanings(sent) == Emitted(d) && FieldsOf(d, sent[i], |sent| == 1)
    ensures ValidateRkey(table, sent[i].rkey, {RemoteWrite}, sent[i].va, sent[i].rethLen) == Normal
  {
    hide Segments, FieldsOf;
    assert Meaning(sent[i]) == Meanings(sent)[i];
    var lastFlag := d.isLast || (!d.isFirst && |d.Source()| <= GetFirstPacketMaxLength(d.raddr, d.pmtu.Bytes()));
    var offset := SegmentSlice(d.kind, d.pmtu.Bytes(), d.isFirst, lastFlag, d.raddr, d.psn, d.Source(), i);
    AdmittedAt(d, table, sent[i], |sent| == 1, offset);
  }

  lemma AdmittedAt(d: Desc, table: map<nat, Region>, p: Packet, alone: bool, offset: nat)
    requires Registered(table, d) && FieldsOf(d, p, alone)
    requires p.va == d.raddr + offset && offset + |PayloadAddrs(p.payload)| <= |d.Source()|
    requires p.opcode.IsFirst() ==> offset == 0
    ensures ValidateRkey(table, p.rkey, {RemoteWrite}, p.va, p.rethLen) == Normal
  {
    var mr := table[d.rkey];
    assert p.va + p.rethLen <= mr.addr + mr.len < ADDRESS_SPACE;
  }

  // ---- any order, any duplicates --------------------------------------------------------------------

  // The packet fits the receiver's memory and its source can be read.
  ghost predicate Deliverable(src: seq<byte>, mem: seq<byte>, c: Carried) {
    Gatherable(src, c.source) && c.va + |c.source| <= |mem|
  }

  // Delivers the packets cs[order[0]], cs[order[1]], ... into memory.
  ghost function Delivered(src: seq<byte>, mem: seq<byte>, cs: seq<Carried>, order: seq<nat>): (r: seq<byte>)
    requires forall i :: 0 <= i < |cs| ==> Deliverable(src, mem, cs[i])
    requires forall k :: 0 <= k < |order| ==> order[k] < |cs|
    ensures |r| == |mem|
    decreases |order|
  {
    if order == [] then
      mem
    else
      var c := cs[order[0]];
      assert Deliverable(src, mem, c);
      var mem' := Overwrite(mem, c.va, Gather(src, c.source));
      assert forall i :: 0 <= i < |cs| && Deliverable(src, mem, cs[i]) ==> Deliverable(src, mem', cs[i]);
      Delivered(src, mem', cs, order[1..])
  }

  // Every byte of mem is the original or, inside the target, the byte that belongs there.
  ghost predicate Between(before: seq<byte>, mem: seq<byte>, at: nat, data: seq<byte>) {
    && |mem| == |before| && at + |data| <= |mem|
    && forall a :: 0 <= a < |mem| ==> mem[a] == before[a] || (at <= a < at + |data| && mem[a] == data[a - at])
  }

  // c writes a slice of data to the matching addresses.
  ghost predicate Slice(src: seq<byte>, at: nat, data: seq<byte>, c: Carried) {
    && Gatherable(src, c.source)
    && at <= c.va && c.va + |c.source| <= at + |data|
    && forall k :: 0 <= k < |c.source| ==> src[c.source[k]] == data[c.va - at + k]
  }

  lemma {:induction false} DeliveredBetween(
    src: seq<byte>, before: seq<byte>, mem: seq<byte>, cs: seq<Carried>, order: seq<nat>, at: nat, data: seq<byte>)
    requires forall i :: 0 <= i < |cs| ==> Deliverable(src, mem, cs[i]) && Slice(src, at, data, cs[i])
    requires forall k :: 0 <= k < |order| ==> order[k] < |cs|
    requires Between(before, mem, at, data)
    ensures Between(before, Delivered(src, mem, cs, order), at, data)
    ensures forall j :: 0 <= j < |data| && mem[at + j] == data[j] ==> Delivered(src, mem, cs, order)[at + j] == data[j]
    ensures forall k, a :: 0 <= k < |order| && cs[order[k]].va <= a < cs[order[k]].va + |cs[order[k]].source| ==>
              at <= a < at + |data| && Delivered(src, mem, cs, order)[a] == data[a - at]
    decreases |order|
  {
    if order != [] {
      var c := cs[order[0]];
      var mem' := Overwrite(mem, c.va, Gather(src, c.source));
      WrittenAt(src, mem, c, at, data);
      DeliveredBetween(src, before, mem', cs, order[1..], at, data);
      var r := Delivered(src, mem, cs, order);
      forall k, a | 0 <= k < |order| && cs[order[k]].va <= a < cs[order[k]].va + |cs[order[k]].source|
        ensures at <= a < at + |data| && r[a] == data[a - at]
      {
        assert Slice(src, at, data, cs[order[k]]);
        if k == 0 {
          assert mem'[at + (a - at)] == data[a - at];
        } else {
          assert order[1..][k - 1] == order[k];
        }
      }
    }
  }

  lemma WrittenAt(src: seq<byte>, mem: seq<byte>, c: Carried, at: nat, data: seq<byte>)
    requires Deliverable(src, mem, c) && Slice(src, at, data, c)
    ensures var mem' := Overwrite(mem, c.va, Gather(src, c.source));
            forall a :: 0 <= a < |mem| ==> mem'[a] == if c.va <= a < c.va + |c.source| then data[a - at] else mem[a]
  {
  }

  lemma SegmentsAreSlices(src: seq<byte>, mem: seq<byte>, d: Desc)
    requires Gatherable(src, d.Source()) && d.raddr + |d.Source()| <= |mem|
    ensures forall i :: 0 <= i < |Emitted(d)| ==>
              Deliverable(src, mem, Emitted(d)[i]) && Slice(src, d.raddr, Gather(src, d.Source()), Emitted(d)[i])
  {
    hide Segments, GetFirstPacketMaxLength;
    var lastFlag := d.isLast || (!d.isFirst && |d.Source()| <= GetFirstPacketMaxLength(d.raddr, d.pmtu.Bytes()));
    forall i | 0 <= i < |Emitted(d)|
      ensures Deliverable(src, mem, Emitted(d)[i]) && Slice(src, d.raddr, Gather(src, d.Source()), Emitted(d)[i])
    {
      var offset := SegmentSlice(d.kind, d.pmtu.Bytes(), d.isFirst, lastFlag, d.raddr, d.psn, d.Source(), i);
    }
  }

  // End-to-end delivery: in whatever order and however often the packets of a descriptor arrive,
  // once each has arrived the target holds the source bytes and no other byte has changed.
  lemma EndToEnd(src: seq<byte>, mem: seq<byte>, d: Desc, order: seq<nat>)
    requires Gatherable(src, d.Source()) && d.raddr + |d.Source()| <= |mem|
    requires forall k :: 0 <= k < |order| ==> order[k] < |Emitted(d)|
    requires forall i :: 0 <= i < |Emitted(d)| ==> i in order
    ensures forall i :: 0 <= i < |Emitted(d)| ==> Deliverable(src, mem, Emitted(d)[i])
    ensures Delivered(src, mem, Emitted(d), order) == Overwrite(mem, d.raddr, Gather(src, d.Source()))
  {
    hide Segments, GetFirstPacketMaxLength, Delivered, Emitted, Overwrite, Gather, Slice, Desc.Source;
    SegmentsAreSlices(src, mem, d);
    var cs, data := Emitted(d), Gather(src, d.Source());
    DeliveredBetween(src, mem, mem, cs, order, d.raddr, data);
    var r := Delivered(src, mem, cs, order);
    forall j | 0 <= j < |data| ensures r[d.raddr + j] == data[j] {
      var i := EmittedCovers(d, j);
      assert i in order;
      var k :| 0 <= k < |order| && order[k] == i;
      assert cs[order[k]].va <= d.raddr + j;
    }
    WrittenIs(mem, r, d.raddr, data);
  }

  lemma WrittenIs(mem: seq<byte>, r: seq<byte>, at: nat, data: seq<byte>)
    requires Between(mem, r, at, data)
    requires forall j :: 0 <= j < |data| ==> r[at + j] == data[j]
    ensures r == Overwrite(mem, at, data)
  {
    var w := Overwrite(mem, at, data);
    forall a | 0 <= a < |mem| ensures r[a] == w[a] {
      if at <= a < at + |data| {
        assert r[at + (a - at)] == data[a - at];
      }
    }
  }

  lemma EmittedCovers(d: Desc, j: nat) returns (i: nat)
    requires j < |d.Source()|
    ensures i < |Emitted(d)| && Emitted(d)[i].va <= d.raddr + j < Emitted(d)[i].va + |Emitted(d)[i].source|
  {
    hide Segments, GetFirstPacketMaxLength;
    var lastFlag := d.isLast || (!d.isFirst && |d.Source()| <= GetFirstPacketMaxLength(d.raddr, d.pmtu.Bytes()));
    i := SegmentsCover(d.kind, d.pmtu.Bytes(), d.isFirst, lastFlag, d.raddr, d.psn, d.Source(), j);
  }

  // The same through the scheduler: the packets of the chunks are those of the whole descriptor.
  lemma EndToEndSplit(src: seq<byte>, mem: seq<byte>, d: Desc, size: nat, order: seq<nat>)
    requires size > 0 && WholeMessage(d) && GoodSize(d.pmtu, size)
    requires Gatherable(src, d.Source()) && d.raddr + |d.Source()| <= |mem|
    requires forall k :: 0 <= k < |order| ==> order[k] < |EmittedAll(Splitted(d, size))|
    requires forall i :: 0 <= i < |EmittedAll(Splitted(d, size))| ==> i in order
    ensures var cs := EmittedAll(Splitted(d, size)); forall i :: 0 <= i < |cs| ==> Deliverable(src, mem, cs[i])
    ensures Delivered(src, mem, EmittedAll(Splitted(d, size)), order)
            == Overwrite(mem, d.raddr, Gather(src, d.Source()))
  {
    SplitPreserves(d, size);
    EndToEnd(src, mem, d, order);
  }

  // ---- through the access check ----------------------------------------------------------------------------------

  // What the sender promises of the packets of a descriptor.
  ghost predicate SentFor(d: Desc, sent: seq<Packet>) {
    Meanings(sent) == Emitted(d) && forall i :: 0 <= i < |sent| ==> FieldsOf(d, sent[i], |sent| == 1)
  }

  ghost function Flatten(groups: seq<seq<Packet>>): seq<Packet> {
    if groups == [] then [] else groups[0] + Flatten(groups[1..])
  }

  ghost predicate AllSent(ds: seq<Desc>, groups: seq<seq<Packet>>) {
    |groups| == |ds| && forall i :: 0 <= i < |ds| ==> SentFor(ds[i], groups[i])
  }

  // Receives the packets ps[order[0]], ps[order[1]], ...
  ghost function ReceivedAll(table: map<nat, Region>, src: seq<byte>, mem: seq<byte>, ps: seq<Packet>,
                             order: seq<nat>): seq<byte>
    requires forall i :: 0 <= i < |ps| ==> Receivable(table, src, mem, ps[i])
    requires forall k :: 0 <= k < |order| ==> order[k] < |ps|
    decreases |order|
  {
    if order == [] then
      mem
    else
      var mem' := AfterRecv(table, src, mem, ps[order[0]]);
      assert forall i :: 0 <= i < |ps| && Receivable(table, src, mem, ps[i]) ==> Receivable(table, src, mem', ps[i]);
      ReceivedAll(table, src, mem', ps, order[1..])
  }

  lemma {:induction false} FlattenMeans(ds: seq<Desc>, groups: seq<seq<Packet>>)
    requires AllSent(ds, groups)
    ensures Meanings(Flatten(groups)) == EmittedAll(ds)
    decreases |ds|
  {
    hide Emitted;
    if ds != [] {
      assert SentFor(ds[0], groups[0]);
      assert AllSent(ds[1..], groups[1..]);
      FlattenMeans(ds[1..], groups[1..]);
      MeaningsConcat(groups[0], Flatten(groups[1..]));
    }
  }

  lemma MeaningsConcat(a: seq<Packet>, b: seq<Packet>)
    ensures Meanings(a + b) == Meanings(a) + Meanings(b)
  {
  }

  lemma {:induction false} FlattenAdmitted(table: map<nat, Region>, ds: seq<Desc>, groups: seq<seq<Packet>>, i: nat)
    requires AllSent(ds, groups) && i < |Flatten(groups)|
    requires forall j :: 0 <= j < |ds| ==> Registered(table, ds[j])
    ensures AdmissionOf(table, Flatten(groups)[i]).Normal?
    decreases |ds|
  {
    hide Emitted, FieldsOf, Registered, ValidateRkey;
    if ds != [] {
      assert SentFor(ds[0], groups[0]);
      if i < |groups[0]| {
        AllAdmitted(ds[0], table, groups[0], i);
      } else {
        assert AllSent(ds[1..], groups[1..]);
        FlattenAdmitted(table, ds[1..], groups[1..], i - |groups[0]|);
      }
    }
  }

  // ---- the chunks lie in the region of the message --------------------------------------------------------

  ghost predicate ChunkInside(d: Desc, c: Desc, va: nat, remain: nat) {
    && c.rkey == d.rkey && c.sge1 == d.sge1 && c.sge2 == d.sge2 && c.sge3 == d.sge3
    && c.sge0.len == c.totalLen && va <= c.raddr && c.raddr + c.totalLen <= va + remain
  }

  lemma {:induction false} ChunksInside(d: Desc, size: nat, va: nat, laddr: nat, remain: nat, psn: Psn, length: nat,
                                        i: nat)
    requires size > 0 && 0 < length <= remain
    requires i < |Chunks(d, size, va, laddr, remain, psn, length)|
    ensures ChunkInside(d, Chunks(d, size, va, laddr, remain, psn, length)[i], va, remain)
    ensures Chunks(d, size, va, laddr, remain, psn, length)[0].raddr == va
    decreases remain
  {
    hide RecalculatePsn;
    if i > 0 && remain > length {
      ChunksInside(d, size, va + length, laddr + length, remain - length, RecalculatePsn(va, d.pmtu, length, psn),
                   NextLength(remain - length, size), i - 1);
    }
  }

  lemma ChunkRegistered(table: map<nat, Region>, d: Desc, size: nat, i: nat)
    requires size > 0 && WholeMessage(d) && Registered(table, d) && i < |Splitted(d, size)|
    ensures Registered(table, Splitted(d, size)[i])
  {
    hide Chunks, GetFirstScheduleSegmentLength, Desc.Source;
    OneElementSource(d);
    var c := Splitted(d, size)[i];
    if d.totalLen >= size {
      var length := GetFirstScheduleSegmentLength(d.raddr, size);
      var chunks := Chunks(d, size, d.raddr, d.sge0.addr, d.totalLen, d.psn, length);
      ChunksInside(d, size, d.raddr, d.sge0.addr, d.totalLen, d.psn, length, i);
      assert c.sge0 == chunks[i].sge0 && c.raddr == chunks[i].raddr && c.rkey == d.rkey;
      OneElementSource(c);
    }
  }

  // ---- the whole way --------------------------------------------------------------------------------------

  lemma {:induction false} AdmittedIsDelivered(
    table: map<nat, Region>, src: seq<byte>, mem: seq<byte>, ps: seq<Packet>, order: seq<nat>)
    requires forall i :: 0 <= i < |ps| ==> AdmissionOf(table, ps[i]).Normal? && Deliverable(src, mem, Meanings(ps)[i])
    requires forall k :: 0 <= k < |order| ==> order[k] < |ps|
    ensures forall i :: 0 <= i < |ps| ==> Receivable(table, src, mem, ps[i])
    ensures ReceivedAll(table, src, mem, ps, order) == Delivered(src, mem, Meanings(ps), order)
    decreases |order|
  {
    hide ValidateRkey, Gather, Overwrite;
    forall i | 0 <= i < |ps| ensures Receivable(table, src, mem, ps[i]) {
      assert Deliverable(src, mem, Meanings(ps)[i]);
    }
    if order != [] {
      var mem' := AfterRecv(table, src, mem, ps[order[0]]);
      assert Meanings(ps)[order[0]] == Meaning(ps[order[0]]);
      AdmittedIsDelivered(table, src, mem', ps, order[1..]);
    }
  }

  // A write into a region that is registered for it: the packets that are sent for the chunks of the message
  // all pass the access check, and received in any order, any number of times but each at least once, they
  // leave exactly the source bytes at the remote address.
  lemma WriteArrives(table: map<nat, Region>, src: seq<byte>, mem: seq<byte>, d: Desc, size: nat,
                     groups: seq<seq<Packet>>, order: seq<nat>)
    requires size > 0 && WholeMessage(d) && GoodSize(d.pmtu, size) && Registered(table, d)
    requires Gatherable(src, d.Source()) && d.raddr + |d.Source()| <= |mem|
    requires AllSent(Splitted(d, size), groups)
    requires forall k :: 0 <= k < |order| ==> order[k] < |Flatten(groups)|
    requires forall i :: 0 <= i < |Flatten(groups)| ==> i in order
    ensures forall i :: 0 <= i < |Flatten(groups)| ==> Receivable(table, src, mem, Flatten(groups)[i])
    ensures ReceivedAll(table, src, mem, Flatten(groups), order) == Overwrite(mem, d.raddr, Gather(src, d.Source()))
  {
    hide ValidateRkey, Gather, Overwrite, Emitted, Splitted, Registered, WholeMessage, GoodSize, ReceivedAll, Delivered,
         Deliverable, SentFor, Flatten, Receivable, Desc.Source, EmittedAll;
    var ds, ps := Splitted(d, size), Flatten(groups);
    forall j | 0 <= j < |ds| ensures Registered(table, ds[j]) {
      ChunkRegistered(table, d, size, j);
    }
    FlattenMeans(ds, groups);
    EndToEndSplit(src, mem, d, size, order);
    forall i | 0 <= i < |ps| ensures AdmissionOf(table, ps[i]).Normal? {
      FlattenAdmitted(table, ds, groups, i);
    }
    AdmittedIsDelivered(table, src, mem, ps, order);
  }
}
