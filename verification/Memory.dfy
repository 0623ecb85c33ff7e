// Byte memory, and copying a scatter-gather payload into it.

module Memory {
  import opened Bytes
  import opened SgList

  // The bytes at a sequence of addresses.
  ghost function Gather(mem: seq<byte>, addrs: seq<nat>): (r: seq<byte>)
    requires forall i :: 0 <= i < |addrs| ==> addrs[i] < |mem|
    ensures |r| == |addrs|
  {
    seq(|addrs|, i requires 0 <= i < |addrs| => mem[addrs[i]])
  }

  // The memory with data put at an address.
  ghost function Overwrite(mem: seq<byte>, at: nat, data: seq<byte>): (r: seq<byte>)
    requires at + |data| <= |mem|
    ensures |r| == |mem|
  {
    mem[..at] + data + mem[at + |data|..]
  }

  ghost predicate Gatherable(mem: seq<byte>, addrs: seq<nat>) {
    forall i :: 0 <= i < |addrs| ==> addrs[i] < |mem|
  }

  ghost function Part(mem: seq<byte>, at: nat, len: nat): seq<byte>
    requires len == 0 || at + len <= |mem|
  {
    if len == 0 then [] else mem[at..at + len]
  }

  method CopyElement(src: array<byte>, addr: nat, len: nat, mem: array<byte>, at: nat)
    requires src != mem && (len == 0 || addr + len <= src.Length) && at + len <= mem.Length
    modifies mem
    ensures |Part(src[..], addr, len)| == len
    ensures mem[..] == Overwrite(old(mem[..]), at, Part(src[..], addr, len))
  {
    for i := 0 to len
      invariant mem[..at] == old(mem[..at]) && mem[at + i..] == old(mem[at + i..])
      invariant mem[at..at + i] == Part(src[..], addr, i)
    {
      mem[at + i] := src[addr + i];
      assert mem[at + (i + 1)..] == old(mem[at + i..])[1..];
      assert mem[at..at + (i + 1)] == mem[at..at + i] + [src[addr + i]];
    }
  }

  // Copies the elements of a payload, one after the other, to consecutive addresses.
  method CopyTo(src: array<byte>, payload: seq<Element>, mem: array<byte>, dst: nat)
    requires src != mem
    requires Gatherable(src[..], PayloadAddrs(payload)) && dst + |PayloadAddrs(payload)| <= mem.Length
    modifies mem
    ensures mem[..] == Overwrite(old(mem[..]), dst, Gather(src[..], PayloadAddrs(payload)))
  {
    hide PayloadAddrs, Part, Gather, Overwrite;
    var at := dst;
    ghost var data := Gather(src[..], PayloadAddrs(payload));
    NoPayload();
    OverwriteNone(mem[..], dst);
    for k := 0 to |payload|
      invariant at == dst + |PayloadAddrs(payload[..k])| && at <= dst + |data| <= mem.Length
      invariant mem[..] == Overwrite(old(mem[..]), dst, data[..at - dst])
    {
      var e := payload[k];
      PrefixOfPayload(payload, k);
      ElementInside(src[..], payload, k);
      ghost var done := data[..at - dst];
      CopyElement(src, e.addr, e.len, mem, at);
      OverwriteOn(old(mem[..]), dst, done, Part(src[..], e.addr, e.len));
      assert data[..at + e.len - dst] == done + data[at - dst..at - dst + e.len];
      at := at + e.len;
    }
    assert payload[..|payload|] == payload && data[..|data|] == data;
  }

  lemma NoPayload()
    ensures PayloadAddrs([]) == []
  {
  }

  lemma OverwriteNone(mem: seq<byte>, at: nat)
    requires at <= |mem|
    ensures Overwrite(mem, at, []) == mem
  {
  }

  lemma OverwriteOn(mem: seq<byte>, at: nat, a: seq<byte>, b: seq<byte>)
    requires at + |a| + |b| <= |mem|
    ensures Overwrite(Overwrite(mem, at, a), at + |a|, b) == Overwrite(mem, at, a + b)
  {
  }

  // The bytes of element k stand in the payload where the elements before it end.
  lemma ElementInside(src: seq<byte>, payload: seq<Element>, k: nat)
    requires k < |payload| && Gatherable(src, PayloadAddrs(payload))
    ensures var e, done := payload[k], |PayloadAddrs(payload[..k])|;
      (e.len == 0 || e.addr + e.len <= |src|) && done + e.len <= |PayloadAddrs(payload)| &&
      Gather(src, PayloadAddrs(payload))[done..done + e.len] == Part(src, e.addr, e.len)
  {
    hide PayloadAddrs;
    PrefixOfPayload(payload, k);
    var e, addrs, done := payload[k], PayloadAddrs(payload), |PayloadAddrs(payload[..k])|;
    var part := addrs[done..done + e.len];
    assert part == Range(e.addr, e.len);
    if e.len > 0 {
      assert part[e.len - 1] == addrs[done + (e.len - 1)] == e.addr + (e.len - 1);
    }
    var bytes := Gather(src, addrs)[done..done + e.len];
    forall i | 0 <= i < e.len ensures bytes[i] == Part(src, e.addr, e.len)[i] {
      assert part[i] == addrs[done + i] == e.addr + i;
    }
  }

  lemma PrefixOfPayload(payload: seq<Element>, k: nat)
    requires k < |payload|
    ensures var done := |PayloadAddrs(payload[..k])|;
            && |PayloadAddrs(payload[..k + 1])| == done + payload[k].len <= |PayloadAddrs(payload)|
            && PayloadAddrs(payload)[done..done + payload[k].len] == Range(payload[k].addr, payload[k].len)
  {
    var e := payload[k];
    assert payload[..k + 1] == payload[..k] + [Element(e.addr, e.len)];
    PayloadSnoc(payload[..k], e.addr, e.len);
    assert payload == payload[..k + 1] + payload[k + 1..];
    PayloadConcat(payload[..k + 1], payload[k + 1..]);
  }
}
