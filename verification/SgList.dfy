// Scatter-gather lists: buffers cut into consecutive pieces.

module SgList {
  import opened Arith
  import opened Wrappers

  datatype Sge = Sge(addr: nat, len: nat, key: nat)

  const NO_SGE := Sge(0, 0, 0)

  // A piece of memory that goes into a packet.
  datatype Element = Element(addr: nat, len: nat)

  // ---- meaning: the byte addresses a list describes, in order -----------------------------------

  ghost function Range(addr: nat, len: nat): (r: seq<nat>)
    ensures |r| == len && forall i :: 0 <= i < len ==> r[i] == addr + i
  {
    seq(len, i => addr + i)
  }

  ghost function Flat(sges: seq<Sge>): seq<nat> {
    if sges == [] then [] else Range(sges[0].addr, sges[0].len) + Flat(sges[1..])
  }

  ghost function PayloadAddrs(payload: seq<Element>): seq<nat> {
    if payload == [] then [] else Range(payload[0].addr, payload[0].len) + PayloadAddrs(payload[1..])
  }

  // No element wraps around the 64-bit address space.
  ghost predicate NoWrap(sges: seq<Sge>) {
    forall i :: 0 <= i < |sges| ==> sges[i].addr + sges[i].len < 0x1_0000_0000_0000_0000
  }

  function AddAddr(addr: nat, length: nat): nat {
    (addr + length) % 0x1_0000_0000_0000_0000
  }

  lemma RangeSplit(addr: nat, len: nat, k: nat)
    requires k <= len
    ensures Range(addr, len) == Range(addr, k) + Range(addr + k, len - k)
  {
  }

  lemma {:induction false} FlatConcat(a: seq<Sge>, b: seq<Sge>)
    ensures Flat(a + b) == Flat(a) + Flat(b)
    decreases |a|
  {
    if a == [] {
      assert a + b == b;
    } else {
      assert (a + b)[1..] == a[1..] + b;
      FlatConcat(a[1..], b);
      Regroup(Range(a[0].addr, a[0].len), Flat(a[1..]), Flat(b));
    }
  }

  lemma {:induction false} PayloadConcat(a: seq<Element>, b: seq<Element>)
    ensures PayloadAddrs(a + b) == PayloadAddrs(a) + PayloadAddrs(b)
    decreases |a|
  {
    if a == [] {
      assert a + b == b;
    } else {
      assert (a + b)[1..] == a[1..] + b;
      PayloadConcat(a[1..], b);
      Regroup(Range(a[0].addr, a[0].len), PayloadAddrs(a[1..]), PayloadAddrs(b));
    }
  }

  lemma {:induction false} FlatEmpty(sges: seq<Sge>)
    requires forall i :: 0 <= i < |sges| ==> sges[i].len == 0
    ensures Flat(sges) == []
    decreases |sges|
  {
    if sges != [] {
      FlatEmpty(sges[1..]);
    }
  }

  // Emptying levels lo..hi-1 of a list whose levels below lo are empty already.
  lemma FlatSuffix(sges: seq<Sge>, k: nat)
    requires k <= |sges| && forall i :: 0 <= i < k ==> sges[i].len == 0
    ensures Flat(sges) == Flat(sges[k..])
  {
    assert sges == sges[..k] + sges[k..];
    FlatConcat(sges[..k], sges[k..]);
    FlatEmpty(sges[..k]);
  }

  lemma RestFrom(sges: seq<Sge>, len: nat, k: nat)
    requires k <= len <= |sges| && forall i :: 0 <= i < k ==> sges[i].len == 0
    ensures Flat(sges[..len]) == Flat(sges[k..len])
  {
    FlatSuffix(sges[..len], k);
    assert sges[..len][k..] == sges[k..len];
  }

  lemma Reassociate(a: seq<nat>, b: seq<nat>, c: seq<nat>, d: seq<nat>)
    ensures (a + b) + (c + d) == a + ((b + c) + d)
  {
  }

  lemma FlatCons(level: Sge, rest: seq<Sge>)
    ensures Flat([level] + rest) == Range(level.addr, level.len) + Flat(rest)
  {
    assert ([level] + rest)[1..] == rest;
  }

  lemma PayloadSnoc(payload: seq<Element>, addr: nat, len: nat)
    ensures PayloadAddrs(payload + [Element(addr, len)]) == PayloadAddrs(payload) + Range(addr, len)
  {
    PayloadConcat(payload, [Element(addr, len)]);
    assert PayloadAddrs([Element(addr, len)]) == Range(addr, len);
  }

  // Moving the first k bytes of a level into the payload.
  lemma TakePart(payload: seq<Element>, level: Sge, rest: seq<Sge>, k: nat)
    requires k <= level.len
    ensures PayloadAddrs(payload + [Element(level.addr, k)])
            + Flat([Sge(level.addr + k, level.len - k, level.key)] + rest)
            == PayloadAddrs(payload) + Flat([level] + rest)
    ensures |PayloadAddrs(payload + [Element(level.addr, k)])| == |PayloadAddrs(payload)| + k
  {
    hide Flat, PayloadAddrs;
    PayloadSnoc(payload, level.addr, k);
    FlatCons(level, rest);
    FlatCons(Sge(level.addr + k, level.len - k, level.key), rest);
    RangeSplit(level.addr, level.len, k);
    Reassociate(PayloadAddrs(payload), Range(level.addr, k), Range(level.addr + k, level.len - k), Flat(rest));
  }

  // Moving a whole level into the payload.
  lemma TakeLevel(payload: seq<Element>, level: Sge, rest: seq<Sge>)
    ensures PayloadAddrs(payload + [Element(level.addr, level.len)]) + Flat(rest)
            == PayloadAddrs(payload) + Flat([level] + rest)
    ensures |PayloadAddrs(payload + [Element(level.addr, level.len)])| == |PayloadAddrs(payload)| + level.len
  {
    hide Flat, PayloadAddrs;
    PayloadSnoc(payload, level.addr, level.len);
    FlatCons(level, rest);
  }

  // The same with the pieces kept as a list.
  lemma MovePart(cut: seq<Sge>, level: Sge, rest: seq<Sge>, k: nat)
    requires k <= level.len
    ensures Flat(cut + [Sge(level.addr, k, level.key)]) + Flat([Sge(level.addr + k, level.len - k, level.key)] + rest)
            == Flat(cut) + Flat([level] + rest)
    ensures |Flat(cut + [Sge(level.addr, k, level.key)])| == |Flat(cut)| + k
  {
    hide Flat;
    FlatConcat(cut, [Sge(level.addr, k, level.key)]);
    FlatCons(Sge(level.addr, k, level.key), []);
    assert [Sge(level.addr, k, level.key)] + [] == [Sge(level.addr, k, level.key)];
    FlatEmpty([]);
    FlatCons(level, rest);
    FlatCons(Sge(level.addr + k, level.len - k, level.key), rest);
    RangeSplit(level.addr, level.len, k);
    Reassociate(Flat(cut), Range(level.addr, k), Range(level.addr + k, level.len - k), Flat(rest));
  }

  lemma EmptyLevel(level: Sge, rest: seq<Sge>)
    requires level.len == 0
    ensures Flat([level] + rest) == Flat(rest)
  {
    FlatCons(level, rest);
  }

  // ---- the list of the software card ---------------------------------------------------------------

  class SGList {
    var data: seq<Sge>
    var curLevel: nat
    const len: nat

    constructor (sge0: Sge, sge1: Option<Sge>, sge2: Option<Sge>, sge3: Option<Sge>)
      ensures Valid() && curLevel == 0
      ensures data == [sge0, OrNone(sge1), OrNone(sge2), OrNone(sge3)]
      ensures len == 1 + Count(sge1) + Count(sge2) + Count(sge3)
    {
      data := [sge0, OrNone(sge1), OrNone(sge2), OrNone(sge3)];
      curLevel := 0;
      len := 1 + Count(sge1) + Count(sge2) + Count(sge3);
    }

    // Levels below the current one are used up. Levels at or above it may be used up as well.
    ghost predicate Valid()
      reads this
    {
      && |data| == 4 && curLevel <= len <= 4
      && forall i :: 0 <= i < curLevel ==> data[i].len == 0
    }

    // What the list still describes.
    ghost function Rest(): seq<nat>
      requires Valid()
      reads this
    {
      Flat(data[..len])
    }

    // Cuts the next length bytes off the list. It succeeds exactly when there is a level left to
    // look at and the list still describes that many bytes; a failed cut uses the list up.
    method Cut(length: nat) returns (ok: bool, payload: seq<Element>)
      requires Valid() && NoWrap(data)
      modifies this
      ensures Valid() && NoWrap(data) && data[len..] == old(data[len..])
      ensures ok <==> old(curLevel) < len && length <= |old(Rest())|
      ensures ok ==> |PayloadAddrs(payload)| == length && PayloadAddrs(payload) + Rest() == old(Rest())
      ensures !ok ==> Rest() == []
    {
      var currentLevel: nat, remaining: nat := curLevel, length;
      payload := [];
      assert PayloadAddrs(payload) == [];
      hide Flat, PayloadAddrs;
      while currentLevel < len
        invariant curLevel == old(curLevel) <= currentLevel <= len
        invariant Valid() && NoWrap(data) && data[len..] == old(data[len..])
        invariant forall i :: 0 <= i < currentLevel ==> data[i].len == 0
        invariant remaining + |PayloadAddrs(payload)| == length
        invariant PayloadAddrs(payload) + Rest() == old(Rest())
        invariant currentLevel > curLevel ==> remaining > 0
      {
        var level := data[currentLevel];
        if level.len >= remaining {
          payload := TakeFrom(currentLevel, remaining, payload);
          ok := true;
          return;
        }
        payload := TakeAll(currentLevel, payload);
        remaining := remaining - level.len;
        currentLevel := currentLevel + 1;
      }
      FlatEmpty(data[..len]);
      ok := false;
    }

    // Moves the first amount bytes of level k into the payload. The current level moves on only
    // if k is then empty.
    method TakeFrom(k: nat, amount: nat, payload: seq<Element>) returns (more: seq<Element>)
      requires Valid() && NoWrap(data) && curLevel <= k < len && amount <= data[k].len
      requires forall i :: 0 <= i < k ==> data[i].len == 0
      modifies this
      ensures Valid() && NoWrap(data) && data[len..] == old(data[len..])
      ensures PayloadAddrs(more) + Rest() == PayloadAddrs(payload) + old(Rest())
      ensures |PayloadAddrs(more)| == |PayloadAddrs(payload)| + amount
    {
      hide Flat, PayloadAddrs;
      var level := data[k];
      ghost var rest := data[k + 1..len];
      RestFrom(data, len, k);
      assert data[k..len] == [level] + rest;
      TakePart(payload, level, rest, amount);
      more := payload + [Element(level.addr, amount)];
      data := data[k := Sge(AddAddr(level.addr, amount), level.len - amount, level.key)];
      RestFrom(data, len, k);
      assert data[k..len] == [data[k]] + rest;
      if data[k].len == 0 {
        curLevel := k + 1;
      }
    }

    // Moves all of level k into the payload.
    method TakeAll(k: nat, payload: seq<Element>) returns (more: seq<Element>)
      requires Valid() && NoWrap(data) && curLevel <= k < len
      requires forall i :: 0 <= i < k ==> data[i].len == 0
      modifies this`data
      ensures Valid() && NoWrap(data) && data[len..] == old(data[len..])
      ensures forall i :: 0 <= i <= k ==> data[i].len == 0
      ensures PayloadAddrs(more) + Rest() == PayloadAddrs(payload) + old(Rest())
      ensures |PayloadAddrs(more)| == |PayloadAddrs(payload)| + old(data[k].len)
    {
      hide Flat, PayloadAddrs;
      var level := data[k];
      ghost var rest := data[k + 1..len];
      RestFrom(data, len, k);
      assert data[k..len] == [level] + rest;
      TakeLevel(payload, level, rest);
      more := payload + [Element(level.addr, level.len)];
      data := data[k := level.(len := 0)];
      RestFrom(data, len, k + 1);
      assert data[k + 1..len] == rest;
    }

    // Takes every level at once, the unused ones included.
    method CutAllLevels() returns (payload: seq<Element>)
      requires Valid()
      modifies this
      ensures Valid()
      ensures PayloadAddrs(payload) == Flat(old(data))
      ensures forall i :: 0 <= i < 4 ==> data[i].len == 0
    {
      payload := [];
      for i := 0 to 4
        invariant |data| == 4 && curLevel == old(curLevel)
        invariant forall j :: 0 <= j < i ==> data[j].len == 0
        invariant data[i..] == old(data)[i..]
        invariant PayloadAddrs(payload) + Flat(data[i..]) == Flat(old(data))
      {
        var level, rest := data[i], data[i + 1..];
        assert data[i..] == [level] + rest;
        TakeLevel(payload, level, rest);
        payload := payload + [Element(level.addr, level.len)];
        data := data[i := level.(len := 0)];
        assert data[i + 1..] == rest;
      }
      assert data[4..] == [];
    }

    function GetTotalLength(): (total: nat)
      requires |data| == 4
      reads this
      ensures total == |Flat(data)|
    {
      FlatLength(data);
      SumLen(data)
    }
  }

  function SumLen(sges: seq<Sge>): nat {
    if sges == [] then 0 else sges[0].len + SumLen(sges[1..])
  }

  lemma {:induction false} FlatLength(sges: seq<Sge>)
    ensures |Flat(sges)| == SumLen(sges)
    decreases |sges|
  {
    if sges != [] {
      FlatLength(sges[1..]);
    }
  }

  function OrNone(sge: Option<Sge>): Sge {
    if sge.Some? then sge.value else NO_SGE
  }

  function Count(sge: Option<Sge>): nat {
    if sge.Some? then 1 else 0
  }
}
