// Bytes, and numbers written as bytes in either order.

module Bytes {

  type byte = n: nat | n < 256

  type u16 = n: nat | n < 0x1_0000

  type u32 = n: nat | n < 0x1_0000_0000

  type u64 = n: nat | n < 0x1_0000_0000_0000_0000

  ghost function Pow256(n: nat): (p: nat)
    ensures p >= 1
  {
    if n == 0 then 1 else 256 * Pow256(n - 1)
  }

  // The n lowest bytes of a number, highest first.
  function ToBe(v: nat, n: nat): (s: seq<byte>)
    ensures |s| == n
    decreases n
  {
    if n == 0 then [] else ToBe(v / 256, n - 1) + [v % 256]
  }

  function FromBe(s: seq<byte>): nat {
    if |s| == 0 then 0 else FromBe(s[..|s| - 1]) * 256 + s[|s| - 1]
  }

  // The n lowest bytes of a number, lowest first.
  function ToLe(v: nat, n: nat): (s: seq<byte>)
    ensures |s| == n
    decreases n
  {
    if n == 0 then [] else [v % 256] + ToLe(v / 256, n - 1)
  }

  function FromLe(s: seq<byte>): nat {
    if |s| == 0 then 0 else s[0] + FromLe(s[1..]) * 256
  }

  lemma {:induction false} BeRoundTrip(v: nat, n: nat)
    requires v < Pow256(n)
    ensures FromBe(ToBe(v, n)) == v
    decreases n
  {
    if n > 0 {
      BeRoundTrip(v / 256, n - 1);
      var s := ToBe(v, n);
      assert s[..n - 1] == ToBe(v / 256, n - 1) && s[n - 1] == v % 256;
    }
  }

  lemma {:induction false} LeRoundTrip(v: nat, n: nat)
    requires v < Pow256(n)
    ensures FromLe(ToLe(v, n)) == v
    decreases n
  {
    if n > 0 {
      LeRoundTrip(v / 256, n - 1);
      var s := ToLe(v, n);
      assert s[1..] == ToLe(v / 256, n - 1) && s[0] == v % 256;
    }
  }

  // A number that fits in n bytes has a zero byte in front when it is written in one more.
  lemma {:induction false} BeLeadingZero(v: nat, n: nat)
    requires v < Pow256(n)
    ensures ToBe(v, n + 1) == [0] + ToBe(v, n)
    decreases n
  {
    if n > 0 {
      BeLeadingZero(v / 256, n - 1);
      assert [0] + ToBe(v, n) == ([0] + ToBe(v / 256, n - 1)) + [v % 256];
    } else {
      assert ToBe(v, 1) == ToBe(0, 0) + [0];
    }
  }

  lemma {:induction false} FromBeBelow(s: seq<byte>)
    ensures FromBe(s) < Pow256(|s|)
    decreases |s|
  {
    if |s| > 0 {
      FromBeBelow(s[..|s| - 1]);
    }
  }

  lemma {:induction false} FromBeLeadingZero(s: seq<byte>)
    ensures FromBe([0] + s) == FromBe(s)
    decreases |s|
  {
    var t := [0] + s;
    if |s| > 0 {
      FromBeLeadingZero(s[..|s| - 1]);
      assert t[..|s|] == [0] + s[..|s| - 1];
    } else {
      assert t[..0] == [];
    }
  }
}
