// The IPv4 header checksum (section 3.1 of RFC 791).

module Checksum {
  import opened Arith
  import opened Bytes
  import opened Wrappers

  const IPV4_HEADER_SIZE: nat := 20

  // The 16-bit word at an even offset; a missing last byte counts as 0.
  function Word(header: seq<byte>, i: nat): (w: nat)
    requires i < |header|
    ensures w < 0x1_0000
  {
    header[i] as nat * 256 + if i + 1 < |header| then header[i + 1] else 0
  }

  // The sum of the first n words.
  ghost function Sum(header: seq<byte>, n: nat): (s: nat)
    requires n == 0 || 2 * n - 2 < |header|
    ensures s <= n * 0xFFFF
  {
    if n == 0 then 0 else Sum(header, n - 1) + Word(header, 2 * n - 2)
  }

  // Adding the carries back in until none is left.
  ghost function Fold(s: nat): (f: nat)
    ensures f <= 0xFFFF
    ensures f % 0xFFFF == s % 0xFFFF
    ensures f == 0 <==> s == 0
    decreases s
  {
    FoldOnce(s);
    if s / 0x1_0000 == 0 then s else Fold(s % 0x1_0000 + s / 0x1_0000)
  }

  lemma FoldOnce(s: nat)
    ensures (s % 0x1_0000 + s / 0x1_0000) % 0xFFFF == s % 0xFFFF
  {
    var h, l := s / 0x1_0000, s % 0x1_0000;
    var q, r := (h + l) / 0xFFFF, (h + l) % 0xFFFF;
    assert s == (h + q) * 0xFFFF + r;
    DivModUnique(s, 0xFFFF, h + q, r);
  }

  // None stands for the index that is out of range, which occurs exactly for fewer than 19 bytes.
  method CalculateIpv4Checksum(header: seq<byte>) returns (checksum: Option<nat>)
    ensures checksum.None? <==> |header| < IPV4_HEADER_SIZE - 1
    ensures checksum.Some? ==> checksum.value == ChecksumOf(header)
  {
    hide Fold;
    var sum: nat := 0;
    var i := 0;
    while i < IPV4_HEADER_SIZE
      invariant 0 <= i <= IPV4_HEADER_SIZE && i % 2 == 0 && (i == 0 || i - 2 < |header|)
      invariant sum == Sum(header, i / 2)
    {
      if i >= |header| {
        return None;
      }
      sum := sum + Word(header, i);
      i := i + 2;
    }
    assert sum <= 10 * 0xFFFF;
    while sum / 0x1_0000 != 0
      invariant sum < 0x1_0000_0000
      invariant Fold(sum) == Fold(Sum(header, 10))
      decreases sum
    {
      FoldStep(sum);
      sum := sum % 0x1_0000 + sum / 0x1_0000;
    }
    FoldStep(sum);
    checksum := Some((0xFFFF_FFFF - sum) % 0x1_0000);
  }

  lemma FoldStep(s: nat)
    ensures Fold(s) == if s / 0x1_0000 == 0 then s else Fold(s % 0x1_0000 + s / 0x1_0000)
  {
  }

  // The checksum of a header, as the method computes it.
  ghost function ChecksumOf(header: seq<byte>): nat
    requires |header| >= IPV4_HEADER_SIZE - 1
  {
    0xFFFF - Fold(Sum(header, 10))
  }

  // Puts a value into the checksum field, high byte first.
  function WithField(header: seq<byte>, value: nat): (r: seq<byte>)
    requires |header| >= IPV4_HEADER_SIZE && value < 0x1_0000
    ensures |r| == |header|
  {
    header[10 := value / 256][11 := value % 256]
  }

  lemma {:induction false} SumWithField(header: seq<byte>, value: nat, n: nat)
    requires |header| >= IPV4_HEADER_SIZE && value < 0x1_0000 && n <= 10
    requires header[10] == 0 && header[11] == 0
    ensures Sum(WithField(header, value), n) == Sum(header, n) + if n >= 6 then value else 0
    decreases n
  {
    if n > 0 {
      SumWithField(header, value, n - 1);
    }
  }

  // A header verifies, that is its checksum comes out as 0, exactly when its field holds the
  // checksum of the header with an empty field, or the other representation of zero.
  lemma VerifiesIff(header: seq<byte>, value: nat)
    requires |header| >= IPV4_HEADER_SIZE && value < 0x1_0000
    requires header[10] == 0 && header[11] == 0
    ensures ChecksumOf(WithField(header, value)) == 0 <==>
            value == ChecksumOf(header) || (ChecksumOf(header) == 0 && value == 0xFFFF)
  {
    hide Sum, Fold, WithField;
    SumWithField(header, value, 10);
    var s := Sum(header, 10);
    OnesComplement(s, Fold(s), value, Fold(s + value));
  }

  lemma SameRemainder(s: nat, f: nat, value: nat)
    requires s % 0xFFFF == f % 0xFFFF
    ensures (s + value) % 0xFFFF == (f + value) % 0xFFFF
  {
  }

  lemma OnesComplement(s: nat, f: nat, value: nat, g: nat)
    requires f <= 0xFFFF && f % 0xFFFF == s % 0xFFFF && (f == 0 <==> s == 0)
    requires g <= 0xFFFF && g % 0xFFFF == (s + value) % 0xFFFF && (g == 0 <==> s + value == 0)
    requires value <= 0xFFFF
    ensures g == 0xFFFF <==> value == 0xFFFF - f || (f == 0xFFFF && value == 0xFFFF)
  {
    SameRemainder(s, f, value);
  }

  // Storing the computed checksum makes the header verify.
  lemma StoredVerifies(header: seq<byte>)
    requires |header| >= IPV4_HEADER_SIZE && header[10] == 0 && header[11] == 0
    ensures ChecksumOf(header) < 0x1_0000 && ChecksumOf(WithField(header, ChecksumOf(header))) == 0
  {
    VerifiesIff(header, ChecksumOf(header));
  }

  lemma {:induction false} SumWithWord(a: seq<byte>, b: seq<byte>, k: nat, n: nat)
    requires |a| == |b| >= IPV4_HEADER_SIZE && k < 10 && n <= 10
    requires forall j :: 0 <= j < 10 && j != k ==> Word(a, 2 * j) == Word(b, 2 * j)
    ensures Sum(b, n) - Sum(a, n) == if n > k then Word(b, 2 * k) - Word(a, 2 * k) else 0
    decreases n
  {
    if n > 0 {
      SumWithWord(a, b, k, n - 1);
      assert n - 1 != k ==> Word(a, 2 * (n - 1)) == Word(b, 2 * (n - 1));
    }
  }

  // The checksum tells headers apart that differ in one word, unless the words are the two zeros.
  lemma OneWordIsSeen(a: seq<byte>, b: seq<byte>, k: nat)
    requires |a| == |b| >= IPV4_HEADER_SIZE && k < 10
    requires forall j :: 0 <= j < 10 && j != k ==> Word(a, 2 * j) == Word(b, 2 * j)
    requires Word(a, 2 * k) % 0xFFFF != Word(b, 2 * k) % 0xFFFF
    ensures ChecksumOf(a) != ChecksumOf(b)
  {
    hide Sum, Fold, Word;
    SumWithWord(a, b, k, 10);
    var s, t := Sum(a, 10), Sum(b, 10);
    if ChecksumOf(a) == ChecksumOf(b) {
      SameDifference(s, t, Word(a, 2 * k), Word(b, 2 * k));
    }
  }

  lemma SameDifference(s: nat, t: nat, v: nat, w: nat)
    requires s % 0xFFFF == t % 0xFFFF && t - s == w - v
    ensures v % 0xFFFF == w % 0xFFFF
  {
  }
}
