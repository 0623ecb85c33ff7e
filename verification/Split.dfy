// Cutting a work descriptor into chunks for the scheduler.

module Split {
  import opened Psn
  import opened PacketLength
  import opened SgList
  import opened Transmit

  function GetFirstScheduleSegmentLength(va: nat, size: nat): (r: nat)
    requires size > 0
    ensures 1 <= r <= size && (va + r) % size == 0
  {
    NextBoundary(va, size);
    size - va % size
  }

  function RecalculatePsn(raddr: nat, pmtu: Pmtu, totalLen: nat, basePsn: Psn): Psn {
    var firstPacketLength := Min(totalLen, GetFirstPacketMaxLength(raddr, pmtu.Bytes()));
    var lastPacketPsn := WrappingAdd(basePsn, DivCeil(totalLen - firstPacketLength, pmtu.Bytes()));
    WrappingAdd(lastPacketPsn, 1)
  }

  // The next chunk starts at the PSN after the packets of this one.
  lemma RecalculatePsnCounts(raddr: nat, pmtu: Pmtu, totalLen: nat, basePsn: Psn)
    ensures RecalculatePsn(raddr, pmtu, totalLen, basePsn)
            == WrappingAdd(basePsn, CalculatePacketCnt(pmtu, raddr, totalLen))
  {
    hide DivCeil, GetFirstPacketMaxLength;
    var n := DivCeil(totalLen - Min(totalLen, GetFirstPacketMaxLength(raddr, pmtu.Bytes())), pmtu.Bytes());
    assert WrappingAdd(WrappingAdd(basePsn, n), 1) == WrappingAdd(basePsn, 1 + n);
  }

  // ---- the scheduler's scatter-gather list -----------------------------------------------------------

  class SchedulerSgl {
    var data: seq<Sge>
    var curLevel: nat
    const len: nat

    constructor (sge: Sge)
      ensures data == [sge] && curLevel == 0 && len == 1
    {
      data := [sge];
      curLevel := 0;
      len := 1;
    }

    ghost predicate Valid()
      reads this
    {
      && len <= |data| && curLevel <= len
      && forall i :: 0 <= i < curLevel ==> data[i].len == 0
    }

    ghost function Rest(): seq<nat>
      requires Valid()
      reads this
    {
      Flat(data[..len])
    }

    // Cuts length bytes off the list as a list of its own. Asking for more than is left, or for
    // anything once the list is used up, is unreachable in the source.
    method CutFromSgl(length: nat) returns (cut: seq<Sge>)
      requires Valid() && NoWrap(data)
      requires curLevel < len && length <= |Rest()|
      modifies this
      ensures Valid() && NoWrap(data) && |data| == |old(data)|
      ensures |Flat(cut)| == length && Flat(cut) + Rest() == old(Rest())
      ensures var level := old(data)[old(curLevel)];
              length <= level.len ==>
                && cut == [Sge(level.addr, length, level.key)]
                && data == old(data)[old(curLevel) := Sge(level.addr + length, level.len - length, level.key)]
                && curLevel == old(curLevel) + if length == level.len then 1 else 0
    {
      var currentLevel, remaining: nat := curLevel, length;
      cut := [];
      assert Flat(cut) == [];
      hide Flat;
      ghost var firstLevel := curLevel;
      while currentLevel < len
        invariant curLevel == old(curLevel) <= currentLevel <= len
        invariant Valid() && NoWrap(data) && |data| == |old(data)|
        invariant forall i :: 0 <= i < currentLevel ==> data[i].len == 0
        invariant remaining + |Flat(cut)| == length
        invariant Flat(cut) + Rest() == old(Rest())
        invariant currentLevel == curLevel ==> cut == [] && data == old(data)
        invariant currentLevel > curLevel ==> remaining > 0 && length > old(data)[old(curLevel)].len
      {
        var level := data[currentLevel];
        if level.len >= remaining {
          MoveFrom(currentLevel, remaining, cut);
          cut := cut + [Sge(level.addr, remaining, level.key)];
          curLevel := if data[currentLevel].len == 0 then currentLevel + 1 else currentLevel;
          return;
        }
        MoveAll(currentLevel, cut);
        cut := cut + [level];
        remaining := remaining - level.len;
        currentLevel := currentLevel + 1;
      }
      FlatEmpty(data[..len]);
      assert false;
    }

    // Drops the first amount bytes of level k, which are appended to what was cut before.
    method MoveFrom(k: nat, amount: nat, ghost cut: seq<Sge>)
      requires Valid() && NoWrap(data) && curLevel <= k < len && amount <= data[k].len
      requires forall i :: 0 <= i < k ==> data[i].len == 0
      modifies this`data
      ensures Valid() && NoWrap(data)
      ensures var level := old(data)[k];
              && data == old(data)[k := Sge(level.addr + amount, level.len - amount, level.key)]
              && Flat(cut + [Sge(level.addr, amount, level.key)]) + Rest() == Flat(cut) + old(Rest())
              && |Flat(cut + [Sge(level.addr, amount, level.key)])| == |Flat(cut)| + amount
    {
      hide Flat;
      var level := data[k];
      ghost var rest := data[k + 1..len];
      RestFrom(data, len, k);
      assert data[k..len] == [level] + rest;
      MovePart(cut, level, rest, amount);
      data := data[k := Sge(AddAddr(level.addr, amount), level.len - amount, level.key)];
      RestFrom(data, len, k);
      assert data[k..len] == [data[k]] + rest;
    }

    // Uses level k up; its address is left as it is.
    method MoveAll(k: nat, ghost cut: seq<Sge>)
      requires Valid() && NoWrap(data) && curLevel <= k < len
      requires forall i :: 0 <= i < k ==> data[i].len == 0
      modifies this`data
      ensures Valid() && NoWrap(data)
      ensures var level := old(data)[k];
              && data == old(data)[k := level.(len := 0)]
              && Flat(cut + [level]) + Rest() == Flat(cut) + old(Rest())
              && |Flat(cut + [level])| == |Flat(cut)| + level.len
    {
      hide Flat;
      var level := data[k];
      ghost var rest := data[k + 1..len];
      RestFrom(data, len, k);
      assert data[k..len] == [level] + rest;
      MovePart(cut, level, rest, level.len);
      EmptyLevel(Sge(level.addr + level.len, 0, level.key), rest);
      data := data[k := level.(len := 0)];
      RestFrom(data, len, k);
      assert data[k..len] == [data[k]] + rest;
      EmptyLevel(data[k], rest);
    }
  }

  // ---- splitting -----------------------------------------------------------------------------------

  // The next chunk of d: the flags and the total length of the ends are set afterwards.
  function Chunk(d: Desc, sge: Sge, length: nat, va: nat, psn: Psn): Desc {
    d.(sge0 := sge, totalLen := length, raddr := va, psn := psn, isFirst := false, isLast := false)
  }

  function NextLength(remain: nat, size: nat): nat {
    if remain > size then size else remain
  }

  // All chunks of the part of d that starts at remote address va and local address laddr.
  ghost function Chunks(d: Desc, size: nat, va: nat, laddr: nat, remain: nat, psn: Psn, length: nat): (r: seq<Desc>)
    requires size > 0 && (remain > 0 ==> 0 < length <= remain)
    ensures remain > 0 ==> |r| >= 1
    decreases remain
  {
    if remain == 0 then
      []
    else
      [Chunk(d, Sge(laddr, length, d.sge0.key), length, va, psn)]
      + Chunks(d, size, va + length, laddr + length, remain - length,
               RecalculatePsn(va, d.pmtu, length, psn), NextLength(remain - length, size))
  }

  function MarkEnds(d: Desc, chunks: seq<Desc>): seq<Desc>
    requires |chunks| >= 1
  {
    var c := chunks[0 := chunks[0].(isFirst := true, totalLen := d.totalLen)];
    c[|c| - 1 := c[|c| - 1].(isLast := true)]
  }

  ghost function Splitted(d: Desc, size: nat): seq<Desc>
    requires size > 0
  {
    if d.totalLen < size then
      [d]
    else
      MarkEnds(d, Chunks(d, size, d.raddr, d.sge0.addr, d.totalLen, d.psn,
                         GetFirstScheduleSegmentLength(d.raddr, size)))
  }

  // A descriptor that reaches the chunk size is cut in two or more, unless it is exactly one aligned chunk.
  lemma SplitIsOneIff(d: Desc, size: nat)
    requires size > 0 && (d.totalLen >= size ==> Splittable(d))
    ensures |Splitted(d, size)| == 1 <==> d.totalLen < size || (d.totalLen == size && d.raddr % size == 0)
  {
    hide RecalculatePsn, Chunk;
    if d.totalLen >= size {
      var length := GetFirstScheduleSegmentLength(d.raddr, size);
      var rest := Chunks(d, size, d.raddr + length, d.sge0.addr + length, d.totalLen - length,
                         RecalculatePsn(d.raddr, d.pmtu, length, d.psn), NextLength(d.totalLen - length, size));
      assert |rest| == 0 <==> d.totalLen == length;
    }
  }

  // The first element holds the whole message, and nothing wraps around.
  ghost predicate Splittable(d: Desc) {
    && d.totalLen <= d.sge0.len
    && d.sge0.addr + d.sge0.len < 0x1_0000_0000_0000_0000
    && d.raddr + d.totalLen <= 0x1_0000_0000_0000_0000
  }

  method SplitDescriptor(d: Desc, size: nat) returns (descs: seq<Desc>)
    requires size > 0
    requires d.totalLen >= size ==> Splittable(d)
    ensures descs == Splitted(d, size)
  {
    if d.totalLen < size {
      return [d];
    }
    var chunks := SplitChunks(d, size);
    descs := MarkEnds(d, chunks);
  }

  method SplitChunks(d: Desc, size: nat) returns (descs: seq<Desc>)
    requires size > 0 && d.totalLen >= size && Splittable(d)
    ensures descs == Chunks(d, size, d.raddr, d.sge0.addr, d.totalLen, d.psn,
                            GetFirstScheduleSegmentLength(d.raddr, size))
  {
    hide Chunks, RecalculatePsn, GetFirstScheduleSegmentLength, AddAddr;
    var sgList := new SchedulerSgl(d.sge0);
    descs := [];
    var thisLength: nat := GetFirstScheduleSegmentLength(d.raddr, size);
    var remain: nat, va: nat, psn: Psn := d.totalLen, d.raddr, d.psn;
    ghost var laddr: nat := d.sge0.addr;
    ghost var all := Chunks(d, size, va, laddr, remain, psn, thisLength);
    assert [] + all == all;
    while remain > 0
      invariant remain > 0 ==> 0 < thisLength <= remain && va + remain == d.raddr + d.totalLen
      invariant remain > 0 ==> OneLevel(sgList, Sge(laddr, d.sge0.len - (d.totalLen - remain), d.sge0.key))
      invariant descs + Chunks(d, size, va, laddr, remain, psn, thisLength) == all
      decreases remain
    {
      var next := AddAddr(va, thisLength);
      NextAddress(d, va, remain, thisLength);
      ChunksStep(d, size, va, laddr, remain, psn, thisLength, next);
      var sge := CutOne(sgList, thisLength, Sge(laddr, d.sge0.len - (d.totalLen - remain), d.sge0.key));
      var chunk := Chunk(d, sge, thisLength, va, psn);
      psn := RecalculatePsn(va, d.pmtu, thisLength, psn);
      descs := descs + [chunk];
      va := next;
      laddr := laddr + thisLength;
      remain := remain - thisLength;
      thisLength := NextLength(remain, size);
    }
    ChunksNone(d, size, va, laddr, psn, thisLength);
  }

  lemma NextAddress(d: Desc, va: nat, remain: nat, length: nat)
    requires Splittable(d) && va + remain == d.raddr + d.totalLen
    ensures length < remain ==> AddAddr(va, length) == va + length
  {
  }

  ghost predicate OneLevel(sgl: SchedulerSgl, sge: Sge)
    reads sgl
  {
    sgl.data == [sge] && sgl.len == 1 && sgl.curLevel == 0 && sge.addr + sge.len < 0x1_0000_0000_0000_0000
  }

  // Cuts from a list of one level.
  method CutOne(sgl: SchedulerSgl, length: nat, ghost level: Sge) returns (sge: Sge)
    requires OneLevel(sgl, level) && length <= level.len
    modifies sgl
    ensures sge == Sge(level.addr, length, level.key)
    ensures length < level.len ==> OneLevel(sgl, Sge(level.addr + length, level.len - length, level.key))
  {
    FlatLength(sgl.data);
    assert sgl.data[..1] == sgl.data;
    var cut := sgl.CutFromSgl(length);
    sge := cut[0];
  }

  // The address after the last chunk does not matter.
  lemma ChunksStep(d: Desc, size: nat, va: nat, laddr: nat, remain: nat, psn: Psn, length: nat, next: nat)
    requires size > 0 && 0 < length <= remain && (length < remain ==> next == va + length)
    ensures Chunks(d, size, va, laddr, remain, psn, length)
            == [Chunk(d, Sge(laddr, length, d.sge0.key), length, va, psn)]
               + Chunks(d, size, next, laddr + length, remain - length,
                        RecalculatePsn(va, d.pmtu, length, psn), NextLength(remain - length, size))
  {
  }

  lemma ChunksNone(d: Desc, size: nat, va: nat, laddr: nat, psn: Psn, length: nat)
    requires size > 0
    ensures Chunks(d, size, va, laddr, 0, psn, length) == []
  {
  }
}
