// How a buffer is divided at multiples of the path MTU.

module PacketLength {
  import opened Arith

  datatype Pmtu = Mtu256 | Mtu512 | Mtu1024 | Mtu2048 | Mtu4096 {
    function Bytes(): (b: nat)
      ensures 256 <= b <= 4096
    {
      match this
      case Mtu256 => 256
      case Mtu512 => 512
      case Mtu1024 => 1024
      case Mtu2048 => 2048
      case Mtu4096 => 4096
    }
  }

  // The bytes that fit into the first packet of a buffer that starts at va.
  function GetFirstPacketMaxLength(va: nat, pmtu: nat): (r: nat)
    requires pmtu > 0
    ensures 1 <= r <= pmtu
    ensures (va + r) % pmtu == 0
  {
    NextBoundary(va, pmtu);
    pmtu - va % pmtu
  }

  lemma NextBoundary(va: nat, pmtu: nat)
    requires pmtu > 0
    ensures (va + (pmtu - va % pmtu)) % pmtu == 0
  {
    var q := va / pmtu;
    assert va == q * pmtu + va % pmtu;
    assert va + (pmtu - va % pmtu) == (q + 1) * pmtu;
    DivModUnique(va + (pmtu - va % pmtu), pmtu, q + 1, 0);
  }

  function DivCeil(a: nat, b: nat): nat
    requires b > 0
  {
    if a % b == 0 then a / b else a / b + 1
  }

  function Min(a: nat, b: nat): nat {
    if a < b then a else b
  }

  function CalculatePacketCnt(pmtu: Pmtu, raddr: nat, totalLen: nat): (n: nat)
    ensures n >= 1
  {
    var firstPktMaxLen := GetFirstPacketMaxLength(raddr, pmtu.Bytes());
    var firstPktLen := Min(totalLen, firstPktMaxLen);
    1 + DivCeil(totalLen - firstPktLen, pmtu.Bytes())
  }
}
