// Splitting a descriptor preserves what is sent, exactly for suitable scheduler sizes.

module SplitMeaning {
  import opened Psn
  import opened Wrappers
  import opened PacketLength
  import opened SgList
  import opened Transmit
  import opened Split
  import opened Arith

  ghost function EmittedAll(ds: seq<Desc>): seq<Carried> {
    if ds == [] then [] else Emitted(ds[0]) + EmittedAll(ds[1..])
  }

  // A whole message in one element, as the driver builds it.
  ghost predicate WholeMessage(d: Desc) {
    && d.isFirst && d.isLast && d.sge0.len == d.totalLen
    && d.sge1.None? && d.sge2.None? && d.sge3.None?
    && Splittable(d)
  }

  lemma OneElementSource(d: Desc)
    requires d.sge1.None? && d.sge2.None? && d.sge3.None?
    ensures d.Source() == Range(d.sge0.addr, d.sge0.len)
  {
    assert d.Sges() == [d.sge0] + [NO_SGE, NO_SGE, NO_SGE];
    FlatCons(d.sge0, [NO_SGE, NO_SGE, NO_SGE]);
    FlatEmpty([NO_SGE, NO_SGE, NO_SGE]);
  }

  lemma MultipleOfMultiple(x: nat, size: nat, p: nat)
    requires p > 0 && size > 0 && size % p == 0 && x % size == 0
    ensures x % p == 0
  {
    var c, q := size / p, x / size;
    assert size == c * p && x == q * size;
    assert x == (q * c) * p by { Associate(q, c, p); }
    DivModUnique(x, p, q * c, 0);
  }

  lemma Associate(a: int, b: int, c: int)
    ensures a * (b * c) == (a * b) * c
  {
  }

  // A chunk that has one packet too many for the shortcut, or ends the message, is sent as its
  // place in the message demands.
  lemma ChunkSegments(c: Desc)
    requires c.sge1.None? && c.sge2.None? && c.sge3.None?
    requires c.isFirst || c.isLast || c.sge0.len > c.pmtu.Bytes()
    ensures Emitted(c) == Segments(c.kind, c.pmtu.Bytes(), c.isFirst, c.isLast, c.raddr, c.psn,
                                   Range(c.sge0.addr, c.sge0.len))
  {
    hide Segments;
    OneElementSource(c);
  }

  // The PSN of the next chunk is the one after the last packet of this one.
  lemma NextPsn(kind: Kind, pmtu: Pmtu, first: bool, last: bool, va: nat, psn: Psn, source: seq<nat>)
    ensures RecalculatePsn(va, pmtu, |source|, psn)
            == WrappingAdd(psn, |Segments(kind, pmtu.Bytes(), first, last, va, psn, source)|)
  {
    hide Segments, RecalculatePsn, CalculatePacketCnt;
    RecalculatePsnCounts(va, pmtu, |source|, psn);
    SegmentsCount(kind, pmtu, first, last, va, psn, source);
  }

  ghost function MarkLast(chunks: seq<Desc>): seq<Desc>
    requires |chunks| >= 1
  {
    chunks[|chunks| - 1 := chunks[|chunks| - 1].(isLast := true)]
  }

  ghost predicate GoodSize(pmtu: Pmtu, size: nat) {
    size % pmtu.Bytes() == 0 && size > pmtu.Bytes()
  }

  // The chunks after the first one are the segments of the rest of the message.
  lemma {:induction false} TailSegments(d: Desc, size: nat, va: nat, laddr: nat, remain: nat, psn: Psn)
    requires d.sge1.None? && d.sge2.None? && d.sge3.None? && GoodSize(d.pmtu, size)
    requires remain > 0 && va % size == 0
    ensures EmittedAll(MarkLast(Chunks(d, size, va, laddr, remain, psn, NextLength(remain, size))))
            == Segments(d.kind, d.pmtu.Bytes(), false, true, va, psn, Range(laddr, remain))
    decreases remain
  {
    hide Segments, Emitted, RecalculatePsn, Chunks;
    var p := d.pmtu.Bytes();
    var length := NextLength(remain, size);
    ChunksStep(d, size, va, laddr, remain, psn, length, va + length);
    var chunk := Chunk(d, Sge(laddr, length, d.sge0.key), length, va, psn);
    var psn' := RecalculatePsn(va, d.pmtu, length, psn);
    var more := Chunks(d, size, va + length, laddr + length, remain - length, psn', NextLength(remain - length, size));
    var all := [chunk] + more;
    if remain <= size {
      ChunksNone(d, size, va + length, laddr + length, psn', 0);
      assert MarkLast(all) == [chunk.(isLast := true)];
      ChunkSegments(chunk.(isLast := true));
      assert EmittedAll([chunk.(isLast := true)]) == Emitted(chunk.(isLast := true)) + [];
    } else {
      NextMultiple(va, size);
      TailSegments(d, size, va + size, laddr + size, remain - size, psn');
      ChunkSegments(chunk);
      RangeSplit(laddr, remain, size);
      MultipleOfMultiple(va + size, size, p);
      SegmentsSplit(d.kind, p, false, true, va, psn, Range(laddr, remain), size);
      NextPsn(d.kind, d.pmtu, false, false, va, psn, Range(laddr, size));
      assert Range(laddr, remain)[..size] == Range(laddr, size);
      assert Range(laddr, remain)[size..] == Range(laddr + size, remain - size);
      assert MarkLast(all)[0] == chunk && MarkLast(all)[1..] == MarkLast(more);
    }
  }

  lemma NextMultiple(va: nat, size: nat)
    requires size > 0 && va % size == 0
    ensures (va + size) % size == 0
  {
    NextAligned(va, size);
  }

  // Sending the chunks in order sends what sending the whole descriptor would.
  lemma SplitPreserves(d: Desc, size: nat)
    requires size > 0 && WholeMessage(d) && GoodSize(d.pmtu, size)
    ensures EmittedAll(Splitted(d, size)) == Emitted(d)
  {
    hide Segments, Emitted, RecalculatePsn, Chunks, GetFirstScheduleSegmentLength;
    if d.totalLen < size {
      assert EmittedAll([d]) == Emitted(d) + [];
    } else {
      var p := d.pmtu.Bytes();
      var length := GetFirstScheduleSegmentLength(d.raddr, size);
      var rest := d.totalLen - length;
      ChunksStep(d, size, d.raddr, d.sge0.addr, d.totalLen, d.psn, length, d.raddr + length);
      var chunk := Chunk(d, Sge(d.sge0.addr, length, d.sge0.key), length, d.raddr, d.psn);
      var first := chunk.(isFirst := true, totalLen := d.totalLen);
      var psn' := RecalculatePsn(d.raddr, d.pmtu, length, d.psn);
      var more := Chunks(d, size, d.raddr + length, d.sge0.addr + length, rest, psn', NextLength(rest, size));
      ChunkSegments(d);
      if rest == 0 {
        ChunksNone(d, size, d.raddr + length, d.sge0.addr + length, psn', 0);
        assert Splitted(d, size) == [first.(isLast := true)];
        ChunkSegments(first.(isLast := true));
        assert EmittedAll([first.(isLast := true)]) == Emitted(first.(isLast := true)) + [];
      } else {
        assert Splitted(d, size) == [first] + MarkLast(more);
        assert ([first] + MarkLast(more))[1..] == MarkLast(more);
        ChunkSegments(first);
        TailSegments(d, size, d.raddr + length, d.sge0.addr + length, rest, psn');
        MultipleOfMultiple(d.raddr + length, size, p);
        SegmentsSplit(d.kind, p, true, true, d.raddr, d.psn, Range(d.sge0.addr, d.totalLen), length);
        NextPsn(d.kind, d.pmtu, true, false, d.raddr, d.psn, Range(d.sge0.addr, length));
        assert Range(d.sge0.addr, d.totalLen)[..length] == Range(d.sge0.addr, length);
        assert Range(d.sge0.addr, d.totalLen)[length..] == Range(d.sge0.addr + length, rest);
      }
    }
  }

  // ---- unsuitable sizes -------------------------------------------------------------------------------

  ghost function Sample(pmtu: Pmtu, raddr: nat, len: nat): Desc {
    Desc(Write, len, raddr, 0, 0, pmtu, 0, 0, true, true, Sge(0, len, 0), None, None, None)
  }

  lemma EmittedCount(c: Desc)
    requires c.sge1.None? && c.sge2.None? && c.sge3.None?
    ensures |Emitted(c)| == CalculatePacketCnt(c.pmtu, c.raddr, c.sge0.len)
  {
    hide Segments, CalculatePacketCnt;
    OneElementSource(c);
    var lastFlag := c.isLast || (!c.isFirst && |c.Source()| <= GetFirstPacketMaxLength(c.raddr, c.pmtu.Bytes()));
    SegmentsCount(c.kind, c.pmtu, c.isFirst, lastFlag, c.raddr, c.psn, c.Source());
  }

  // A message whose first chunk ends one byte before its end makes two chunks.
  lemma TwoChunks(d: Desc, size: nat)
    requires WholeMessage(d) && size > 0 && size <= d.totalLen <= 2 * size
    requires d.totalLen == GetFirstScheduleSegmentLength(d.raddr, size) + 1
    ensures |EmittedAll(Splitted(d, size))|
            == CalculatePacketCnt(d.pmtu, d.raddr, d.totalLen - 1)
               + CalculatePacketCnt(d.pmtu, d.raddr + d.totalLen - 1, 1)
  {
    hide Emitted, RecalculatePsn, Chunks, GetFirstScheduleSegmentLength, CalculatePacketCnt;
    var length := d.totalLen - 1;
    ChunksStep(d, size, d.raddr, d.sge0.addr, d.totalLen, d.psn, length, d.raddr + length);
    var psn' := RecalculatePsn(d.raddr, d.pmtu, length, d.psn);
    ChunksStep(d, size, d.raddr + length, d.sge0.addr + length, 1, psn', 1, d.raddr + d.totalLen);
    ChunksNone(d, size, d.raddr + d.totalLen, d.sge0.addr + d.totalLen,
               RecalculatePsn(d.raddr + length, d.pmtu, 1, psn'), 0);
    var first := Chunk(d, Sge(d.sge0.addr, length, d.sge0.key), length, d.raddr, d.psn)
                 .(isFirst := true, totalLen := d.totalLen);
    var last := Chunk(d, Sge(d.sge0.addr + length, 1, d.sge0.key), 1, d.raddr + length, psn').(isLast := true);
    assert Splitted(d, size) == [first, last];
    assert [first, last][1..] == [last];
    assert EmittedAll([last]) == Emitted(last) + [];
    EmittedCount(first);
    EmittedCount(last);
  }

  // One byte more does not need another packet unless the packets are exactly full.
  lemma DivCeilSame(x: nat, p: nat)
    requires p > 0 && x % p != 0
    ensures DivCeil(x + 1, p) == DivCeil(x, p)
  {
    var q, r := x / p, x % p;
    if r + 1 == p {
      assert x + 1 == (q + 1) * p;
      DivModUnique(x + 1, p, q + 1, 0);
    } else {
      DivModUnique(x + 1, p, q, r + 1);
    }
  }

  lemma MisalignedCount(pmtu: Pmtu, size: nat)
    requires size >= 2 && size % pmtu.Bytes() != 0
    ensures CalculatePacketCnt(pmtu, 1, size) == CalculatePacketCnt(pmtu, 1, size - 1)
  {
    var p := pmtu.Bytes();
    assert 1 % p == 1;
    if size > p {
      LessOneMultiple(size, p);
      hide DivCeil;
      DivCeilSame(size - p, p);
    }
  }

  lemma LessOneMultiple(size: nat, p: nat)
    requires 0 < p <= size
    ensures (size - p) % p == size % p
  {
    var q := size / p;
    assert size - p == (q - 1) * p + size % p;
    DivModUnique(size - p, p, q - 1, size % p);
  }

  lemma OneByteCount(pmtu: Pmtu, va: nat)
    ensures CalculatePacketCnt(pmtu, va, 1) == 1
  {
    SingleCount(pmtu, va, 1);
  }

  lemma SampleIsWhole(pmtu: Pmtu, raddr: nat, len: nat)
    requires raddr + len < 0x1_0000_0000_0000_0000
    ensures WholeMessage(Sample(pmtu, raddr, len))
  {
  }

  lemma FirstLengthOfOne(size: nat)
    requires size >= 2
    ensures GetFirstScheduleSegmentLength(1, size) == size - 1
  {
    DivModUnique(1, size, 0, 1);
  }

  // Chunks that end inside a packet need a packet more.
  lemma MisalignedDiffers(pmtu: Pmtu, size: nat)
    requires 2 <= size < 0x1_0000_0000 && size % pmtu.Bytes() != 0
    ensures var d := Sample(pmtu, 1, size);
            WholeMessage(d) && EmittedAll(Splitted(d, size)) != Emitted(d)
  {
    hide Emitted, EmittedAll, Splitted, CalculatePacketCnt, GetFirstScheduleSegmentLength, WholeMessage;
    var d := Sample(pmtu, 1, size);
    SampleIsWhole(pmtu, 1, size);
    EmittedCount(d);
    FirstLengthOfOne(size);
    MisalignedCount(pmtu, size);
    TwoChunks(d, size);
    OneByteCount(pmtu, d.raddr + d.totalLen - 1);
  }

  lemma AlignedAtZero(pmtu: Pmtu)
    ensures GetFirstPacketMaxLength(0, pmtu.Bytes()) == pmtu.Bytes()
  {
    DivModUnique(0, pmtu.Bytes(), 0, 0);
    AlignedFirst(0, pmtu.Bytes());
  }

  lemma OneByteChunksDiffer(pmtu: Pmtu)
    ensures var d := Sample(pmtu, 0, 2);
            WholeMessage(d) && EmittedAll(Splitted(d, 1)) != Emitted(d)
  {
    hide Emitted, EmittedAll, Splitted, CalculatePacketCnt, WholeMessage, GetFirstPacketMaxLength,
         GetFirstScheduleSegmentLength;
    var d := Sample(pmtu, 0, 2);
    SampleIsWhole(pmtu, 0, 2);
    EmittedCount(d);
    assert GetFirstPacketMaxLength(0, pmtu.Bytes()) >= 2 by { AlignedAtZero(pmtu); }
    SingleCount(pmtu, 0, 2);
    TwoChunks(d, 1);
    OneByteCount(pmtu, 0);
    OneByteCount(pmtu, 1);
  }

  // A chunk of one packet in the middle of a message is sent as its last packet.
  lemma OnePacketChunksDiffer(pmtu: Pmtu)
    ensures var p := pmtu.Bytes();
            var d := Sample(pmtu, 0, 3 * p);
            WholeMessage(d) && EmittedAll(Splitted(d, p)) != Emitted(d)
  {
    hide RecalculatePsn, Emitted, EmittedAll, Splitted, WholeMessage;
    var p := pmtu.Bytes();
    var d := Sample(pmtu, 0, 3 * p);
    SampleIsWhole(pmtu, 0, 3 * p);
    var psn1 := RecalculatePsn(0, pmtu, p, 0);
    var psn2 := RecalculatePsn(p, pmtu, p, psn1);
    SplitInThree(d, p, psn1, psn2);
    MiddleOpcodes(d, Splitted(d, p)[0], Splitted(d, p)[1], Splitted(d, p)[2]);
  }

  lemma SplitInThree(d: Desc, p: nat, psn1: Psn, psn2: Psn)
    requires p > 0 && d.totalLen == 3 * p && d.raddr == 0 && d.sge0.addr == 0 && d.sge0.key == 0
    requires psn1 == RecalculatePsn(0, d.pmtu, p, d.psn) && psn2 == RecalculatePsn(p, d.pmtu, p, psn1)
    ensures Splitted(d, p) ==
            [Chunk(d, Sge(0, p, 0), p, 0, d.psn).(isFirst := true, totalLen := d.totalLen),
             Chunk(d, Sge(p, p, 0), p, p, psn1),
             Chunk(d, Sge(2 * p, p, 0), p, 2 * p, psn2).(isLast := true)]
  {
    assert GetFirstScheduleSegmentLength(0, p) == p by { DivModUnique(0, p, 0, 0); }
    hide RecalculatePsn, Chunks, GetFirstScheduleSegmentLength;
    ThreeChunks(d, p, psn1, psn2);
  }

  lemma MiddleOpcodes(d: Desc, c0: Desc, c1: Desc, c2: Desc)
    requires OneElement(d) && OneElement(c0) && OneElement(c1)
    requires d.isFirst && d.raddr == 0 && d.sge0.len == 3 * d.pmtu.Bytes()
    requires c0.raddr == 0 && c0.sge0.len == c0.pmtu.Bytes()
    requires c1.raddr == c1.pmtu.Bytes() == c1.sge0.len && !c1.isFirst
    ensures EmittedAll([c0, c1, c2]) != Emitted(d)
  {
    hide Emitted;
    SecondIsMiddle(d);
    OnlyPacket(c0);
    MultipleOfItself(c1.raddr);
    OnlyPacket(c1);
    assert [c0, c1, c2][1..] == [c1, c2];
    assert EmittedAll([c1, c2])[0] == Emitted(c1)[0];
    assert EmittedAll([c0, c1, c2])[1] == EmittedAll([c1, c2])[0];
  }

  ghost predicate OneElement(d: Desc) {
    d.kind.Write? && d.sge1.None? && d.sge2.None? && d.sge3.None?
  }

  lemma MultipleOfItself(p: nat)
    requires p > 0
    ensures p % p == 0
  {
    DivModUnique(p, p, 1, 0);
  }

  lemma ThreeChunks(d: Desc, p: nat, psn1: Psn, psn2: Psn)
    requires p > 0 && d.sge0.key == 0
    requires psn1 == RecalculatePsn(0, d.pmtu, p, d.psn) && psn2 == RecalculatePsn(p, d.pmtu, p, psn1)
    ensures Chunks(d, p, 0, 0, 3 * p, d.psn, p)
            == [Chunk(d, Sge(0, p, 0), p, 0, d.psn), Chunk(d, Sge(p, p, 0), p, p, psn1),
                Chunk(d, Sge(2 * p, p, 0), p, 2 * p, psn2)]
  {
    hide Chunks, RecalculatePsn;
    ChunksStep(d, p, 0, 0, 3 * p, d.psn, p, p);
    ChunksStep(d, p, p, p, 2 * p, psn1, p, 2 * p);
    ChunksStep(d, p, 2 * p, 2 * p, p, psn2, p, 3 * p);
    ChunksNone(d, p, 3 * p, 3 * p, RecalculatePsn(2 * p, d.pmtu, p, psn2), 0);
  }

  lemma OnlyPacket(c: Desc)
    requires c.sge1.None? && c.sge2.None? && c.sge3.None?
    requires c.sge0.len == c.pmtu.Bytes() && c.raddr % c.pmtu.Bytes() == 0
    ensures Emitted(c) == [PacketAt(c.kind, c.isFirst, c.isLast || !c.isFirst, c.raddr, c.psn,
                                    Range(c.sge0.addr, c.sge0.len))]
  {
    hide Segments;
    OneElementSource(c);
    AlignedFirst(c.raddr, c.pmtu.Bytes());
    SegmentsSingle(c.kind, c.pmtu.Bytes(), c.isFirst, c.isLast || !c.isFirst, c.raddr, c.psn, c.Source());
  }

  lemma SecondIsMiddle(d: Desc)
    requires OneElement(d) && d.isFirst && d.raddr == 0 && d.sge0.len == 3 * d.pmtu.Bytes()
    ensures |Emitted(d)| > 1 && Emitted(d)[1].opcode == WriteMiddle
  {
    var p, source := d.pmtu.Bytes(), d.Source();
    OneElementSource(d);
    AlignedFirst(0, p);
    MultipleOfItself(p);
    AlignedFirst(p, p);
    hide Segments, GetFirstPacketMaxLength, WrappingAdd, Range, Desc.Source;
    SegmentsStep(Write, p, true, d.isLast, 0, d.psn, source);
    SegmentsStep(Write, p, false, d.isLast, p, WrappingAdd(d.psn, 1), source[p..]);
  }

  // Splitting preserves what is sent, for every whole message of an MTU, if and only if the
  // scheduler size is a multiple of the MTU and larger than it.
  lemma SplitPreservesIff(pmtu: Pmtu, size: nat)
    requires 0 < size < 0x1_0000_0000
    ensures (forall d :: WholeMessage(d) && d.pmtu == pmtu ==> EmittedAll(Splitted(d, size)) == Emitted(d))
       <==> size % pmtu.Bytes() == 0 && size > pmtu.Bytes()
  {
    hide WholeMessage, EmittedAll, Splitted, Emitted;
    if GoodSize(pmtu, size) {
      forall d | WholeMessage(d) && d.pmtu == pmtu ensures EmittedAll(Splitted(d, size)) == Emitted(d) {
        SplitPreserves(d, size);
      }
    } else if size == 1 {
      OneByteChunksDiffer(pmtu);
    } else if size % pmtu.Bytes() != 0 {
      MisalignedDiffers(pmtu, size);
    } else {
      assert size == pmtu.Bytes();
      OnePacketChunksDiffer(pmtu);
    }
  }
}
