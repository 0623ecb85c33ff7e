// Ring-buffer indices with a guard bit: they count modulo twice the depth, so that a full ring
// and an empty one differ.

module RingIndex {
  import opened Arith
  import opened BitOps

  // ---- the helpers of the ring buffer, for depth 2^k -------------------------------------------------

  function HardwareIdxMask(depth: nat): nat
    requires depth > 0
  {
    depth * 2 - 1
  }

  function MemoryIdxMask(depth: nat): nat
    requires depth > 0
  {
    depth - 1
  }

  function WrappingAddHelper(current: nat, cnt: nat, mask: nat): nat {
    BitAnd(current + cnt, mask)
  }

  predicate IsFullHelper(head: nat, tail: nat, memoryIdxMask: nat, guardMask: nat) {
    BitAnd(head, guardMask) != BitAnd(tail, guardMask) && BitAnd(head, memoryIdxMask) == BitAnd(tail, memoryIdxMask)
  }

  predicate IsEmptyHelper(head: nat, tail: nat) {
    head == tail
  }

  function Add(k: nat, current: nat, cnt: nat): nat {
    WrappingAddHelper(current, cnt, HardwareIdxMask(Pow2(k)))
  }

  predicate IsFull(k: nat, head: nat, tail: nat) {
    IsFullHelper(head, tail, MemoryIdxMask(Pow2(k)), Pow2(k))
  }

  function Slot(k: nat, idx: nat): nat {
    BitAnd(idx, MemoryIdxMask(Pow2(k)))
  }

  // ---- what they mean for unbounded counters -----------------------------------------------------------

  // The index of the n-th element.
  function Index(k: nat, n: nat): nat {
    n % (2 * Pow2(k))
  }

  lemma AddIsIndex(k: nat, n: nat, cnt: nat)
    ensures Add(k, Index(k, n), cnt) == Index(k, n + cnt)
  {
    AndLowMask(Index(k, n) + cnt, k + 1);
    ModAdd(n, cnt, 2 * Pow2(k));
  }

  lemma ModAdd(n: nat, cnt: nat, m: nat)
    requires m > 0
    ensures (n % m + cnt) % m == (n + cnt) % m
  {
    var q, s := n / m, n % m + cnt;
    assert n + cnt == q * m + s;
    var q', r := s / m, s % m;
    assert n + cnt == (q + q') * m + r by { AddTimes(q, q', m); }
    DivModUnique(n + cnt, m, q + q', r);
  }

  lemma AddTimes(a: int, b: int, m: int)
    ensures (a + b) * m == a * m + b * m
  {
  }

  lemma SlotIsIndex(k: nat, n: nat)
    ensures Slot(k, Index(k, n)) == n % Pow2(k) < Pow2(k)
  {
    GuardOfIndex(k, n);
  }

  lemma LowOfIndex(n: nat, d: nat)
    requires d > 0
    ensures (n % (2 * d)) % d == n % d
    ensures (n % (2 * d)) / d == (n / d) % 2
  {
    var q, r := n / d, n % d;
    var b := q % 2;
    assert n == q * d + r;
    assert q == 2 * (q / 2) + b;
    assert q * d == (q / 2) * (2 * d) + b * d by {
      AddTimes(2 * (q / 2), b, d);
      assert 2 * (q / 2) * d == (q / 2) * (2 * d);
    }
    assert 0 <= b * d + r < 2 * d by { assert b == 0 || b == 1; }
    DivModUnique(n, 2 * d, q / 2, b * d + r);
    DivModUnique(b * d + r, d, b, r);
  }

  // As long as at most depth elements lie between them, the guard comparison tells full exactly.
  lemma FullIff(k: nat, head: nat, tail: nat)
    requires tail <= head <= tail + Pow2(k)
    ensures IsFull(k, Index(k, head), Index(k, tail)) <==> head == tail + Pow2(k)
  {
    hide BitAnd, Index, Pow2;
    GuardOfIndex(k, head);
    GuardOfIndex(k, tail);
    DepthApart(head, tail, Pow2(k));
  }

  lemma GuardOfIndex(k: nat, n: nat)
    ensures BitAnd(Index(k, n), Pow2(k)) == if (n / Pow2(k)) % 2 == 1 then Pow2(k) else 0
    ensures BitAnd(Index(k, n), Pow2(k) - 1) == n % Pow2(k)
  {
    hide BitAnd, Pow2;
    var d := Pow2(k);
    AndLowMask(Index(k, n), k);
    AndBit(Index(k, n), k);
    LowOfIndex(n, d);
    var bit := (n / d) % 2;
    assert bit == 0 || bit == 1;
  }

  lemma DepthApart(head: nat, tail: nat, d: nat)
    requires d > 0 && tail <= head <= tail + d
    ensures ((head / d) % 2 != (tail / d) % 2 && head % d == tail % d) <==> head == tail + d
  {
    var q, r := tail / d, tail % d;
    assert tail == q * d + r;
    if head == tail + d {
      assert head == (q + 1) * d + r;
      DivModUnique(head, d, q + 1, r);
    } else if r + (head - tail) < d {
      DivModUnique(head, d, q, r + (head - tail));
    } else {
      assert head == (q + 1) * d + (r + (head - tail) - d);
      DivModUnique(head, d, q + 1, r + (head - tail) - d);
    }
  }

  lemma EmptyIff(k: nat, head: nat, tail: nat)
    requires tail <= head <= tail + Pow2(k)
    ensures IsEmptyHelper(Index(k, head), Index(k, tail)) <==> head == tail
  {
    var m := 2 * Pow2(k);
    var q, r := tail / m, tail % m;
    assert tail == q * m + r;
    if r + (head - tail) < m {
      DivModUnique(head, m, q, r + (head - tail));
    } else {
      assert head == (q + 1) * m + (r + (head - tail) - m);
      DivModUnique(head, m, q + 1, r + (head - tail) - m);
    }
  }

  // Two of at most depth consecutive elements never share a slot.
  lemma SlotsDiffer(k: nat, i: nat, j: nat)
    requires i < j < i + Pow2(k)
    ensures i % Pow2(k) != j % Pow2(k)
  {
    var d := Pow2(k);
    var q, r := i / d, i % d;
    assert i == q * d + r;
    if r + (j - i) < d {
      DivModUnique(j, d, q, r + (j - i));
    } else {
      assert j == (q + 1) * d + (r + (j - i) - d);
      DivModUnique(j, d, q + 1, r + (j - i) - d);
    }
  }

  lemma SlotInRange(k: nat, idx: nat)
    ensures Slot(k, idx) < Pow2(k)
  {
    AndLowMask(idx, k);
  }
}
