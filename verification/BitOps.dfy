// Bitwise operations on natural numbers, and what the masks and shifts of the driver compute.

module BitOps {
  import opened Arith

  function Pow2(k: nat): (p: nat)
    ensures p >= 1
  {
    if k == 0 then 1 else 2 * Pow2(k - 1)
  }

  // Bitwise conjunction of natural numbers.
  function BitAnd(a: nat, b: nat): nat
    decreases a
  {
    if a == 0 || b == 0 then 0
    else 2 * BitAnd(a / 2, b / 2) + (if a % 2 == 1 && b % 2 == 1 then 1 else 0)
  }

  // A mask of k ones keeps the remainder modulo 2^k.
  lemma {:induction false} AndLowMask(x: nat, k: nat)
    ensures BitAnd(x, Pow2(k) - 1) == x % Pow2(k)
    decreases k
  {
    hide BitAnd, Pow2;
    Pow2Step(k);
    if k == 0 {
      AndZero(x);
      DivModUnique(x, 1, x, 0);
    } else {
      var p := Pow2(k - 1);
      AndLowMask(x / 2, k - 1);
      HalfRemainder(x, p);
      AndOddStep(x, p - 1);
      assert Pow2(k) - 1 == 2 * (p - 1) + 1;
    }
  }

  lemma Pow2Step(k: nat)
    ensures Pow2(k) == if k == 0 then 1 else 2 * Pow2(k - 1)
  {
  }

  lemma AndZero(x: nat)
    ensures BitAnd(x, 0) == 0
  {
  }

  lemma AndOddStep(x: nat, m: nat)
    ensures BitAnd(x, 2 * m + 1) == 2 * BitAnd(x / 2, m) + x % 2
  {
    var n := 2 * m + 1;
    assert n / 2 == m && n % 2 == 1;
    if x == 0 {
    } else {
      AndStep(x, n);
    }
  }

  lemma HalfRemainder(x: nat, p: nat)
    requires p >= 1
    ensures x % (2 * p) == 2 * ((x / 2) % p) + x % 2
  {
    var y := x / 2;
    var q, r := y / p, y % p;
    assert y == q * p + r;
    assert x == q * (2 * p) + (2 * r + x % 2);
    DivModUnique(x, 2 * p, q, 2 * r + x % 2);
  }

  // A single bit picks the parity of the quotient.
  lemma {:induction false} AndBit(x: nat, k: nat)
    ensures BitAnd(x, Pow2(k)) == (x / Pow2(k)) % 2 * Pow2(k)
    decreases k
  {
    hide BitAnd, Pow2;
    Pow2Step(k);
    if k == 0 {
      AndOne(x);
    } else {
      var p := Pow2(k - 1);
      AndBit(x / 2, k - 1);
      HalfQuotient(x, p);
      AndEvenStep(x, p);
      var bit := (x / 2 / p) % 2;
      assert bit == 0 || bit == 1;
    }
  }

  lemma AndOne(x: nat)
    ensures BitAnd(x, 1) == x % 2
  {
    assert 1 / 2 == 0;
    assert BitAnd(x / 2, 0) == 0;
  }

  lemma AndEvenStep(x: nat, m: nat)
    requires m > 0
    ensures BitAnd(x, 2 * m) == 2 * BitAnd(x / 2, m)
  {
    var n := 2 * m;
    assert n / 2 == m && n % 2 == 0;
    if x == 0 {
    } else {
      AndStep(x, n);
    }
  }

  lemma AndStep(a: nat, b: nat)
    requires a > 0 && b > 0
    ensures BitAnd(a, b) == 2 * BitAnd(a / 2, b / 2) + (if a % 2 == 1 && b % 2 == 1 then 1 else 0)
  {
  }

  lemma HalfQuotient(x: nat, p: nat)
    requires p >= 1
    ensures x / (2 * p) == (x / 2) / p
  {
    var y := x / 2;
    var q, r := y / p, y % p;
    assert y == q * p + r;
    assert x == q * (2 * p) + (2 * r + x % 2);
    DivModUnique(x, 2 * p, q, 2 * r + x % 2);
  }

  // Bitwise disjunction of natural numbers.
  function BitOr(a: nat, b: nat): nat
    decreases a + b
  {
    if a == 0 && b == 0 then 0
    else 2 * BitOr(a / 2, b / 2) + (if a % 2 == 1 || b % 2 == 1 then 1 else 0)
  }

  lemma OrStep(a: nat, b: nat)
    ensures BitOr(a, b) == 2 * BitOr(a / 2, b / 2) + (if a % 2 == 1 || b % 2 == 1 then 1 else 0)
  {
  }

  lemma {:induction false} OrZero(x: nat)
    ensures BitOr(x, 0) == x && BitOr(0, x) == x
    decreases x
  {
    if x > 0 {
      OrZero(x / 2);
    }
  }

  lemma AndAlways(a: nat, b: nat)
    ensures BitAnd(a, b) == 2 * BitAnd(a / 2, b / 2) + (if a % 2 == 1 && b % 2 == 1 then 1 else 0)
  {
    if a > 0 && b > 0 {
      AndStep(a, b);
    } else if b == 0 {
      AndZero(a / 2);
    }
  }

  // ---- high and low parts are combined separately ---------------------------------------------------------

  lemma {:induction false} AndSplit(h: nat, l: nat, m: nat, n: nat, k: nat)
    requires l < Pow2(k) && n < Pow2(k)
    ensures BitAnd(h * Pow2(k) + l, m * Pow2(k) + n) == BitAnd(h, m) * Pow2(k) + BitAnd(l, n)
    decreases k
  {
    hide BitAnd, Pow2;
    Pow2Step(k);
    if k > 0 {
      var p := Pow2(k - 1);
      var a, b := h * Pow2(k) + l, m * Pow2(k) + n;
      HalfOfSplit(h, l, p);
      HalfOfSplit(m, n, p);
      AndSplit(h, l / 2, m, n / 2, k - 1);
      AndAlways(a, b);
      AndAlways(l, n);
      Double(BitAnd(h, m), p);
    } else {
      AndZero(0);
    }
  }

  lemma {:induction false} OrSplit(h: nat, l: nat, m: nat, n: nat, k: nat)
    requires l < Pow2(k) && n < Pow2(k)
    ensures BitOr(h * Pow2(k) + l, m * Pow2(k) + n) == BitOr(h, m) * Pow2(k) + BitOr(l, n)
    decreases k
  {
    hide BitOr, Pow2;
    Pow2Step(k);
    if k > 0 {
      var p := Pow2(k - 1);
      var a, b := h * Pow2(k) + l, m * Pow2(k) + n;
      HalfOfSplit(h, l, p);
      HalfOfSplit(m, n, p);
      OrSplit(h, l / 2, m, n / 2, k - 1);
      OrStep(a, b);
      OrStep(l, n);
      Double(BitOr(h, m), p);
    } else {
      OrZero(0);
    }
  }

  lemma HalfOfSplit(h: nat, l: nat, p: nat)
    ensures (h * (2 * p) + l) / 2 == h * p + l / 2
    ensures (h * (2 * p) + l) % 2 == l % 2
  {
    Double(h, p);
  }

  lemma Double(h: int, p: int)
    ensures h * (2 * p) == 2 * (h * p)
  {
  }

  // ---- digits ----------------------------------------------------------------------------------------------

  // A number shifted right by k.
  function Shr(x: nat, k: nat): nat
    decreases k
  {
    if k == 0 then x else Shr(x / 2, k - 1)
  }

  lemma {:induction false} ShrHalf(x: nat, k: nat)
    ensures Shr(x, k) / 2 == Shr(x, k + 1)
    decreases k
  {
    if k > 0 {
      ShrHalf(x / 2, k - 1);
    }
  }

  lemma {:induction false} ShrIsQuotient(x: nat, k: nat)
    ensures Shr(x, k) == x / Pow2(k)
    decreases k
  {
    if k > 0 {
      ShrIsQuotient(x / 2, k - 1);
      HalfQuotient(x, Pow2(k - 1));
    }
  }

  // Binary digit i of a number.
  ghost function Digit(value: nat, i: nat): (d: nat)
    ensures d <= 1
  {
    Shr(value, i) % 2
  }

  lemma DigitZero(value: nat)
    ensures Digit(value, 0) == value % 2
  {
  }

  lemma DigitStep(value: nat, i: nat)
    ensures Digit(value / 2, i) == Digit(value, i + 1)
  {
  }

  lemma {:induction false} AndDigit(a: nat, b: nat, i: nat)
    ensures Digit(BitAnd(a, b), i) == Digit(a, i) * Digit(b, i)
    decreases i
  {
    hide BitAnd, Digit;
    AndAlways(a, b);
    var c := BitAnd(a, b);
    if i == 0 {
      DigitZero(a); DigitZero(b); DigitZero(c);
    } else {
      AndDigit(a / 2, b / 2, i - 1);
      DigitStep(a, i - 1); DigitStep(b, i - 1); DigitStep(c, i - 1);
      assert c / 2 == BitAnd(a / 2, b / 2);
    }
  }

  lemma {:induction false} OrDigit(a: nat, b: nat, i: nat)
    ensures Digit(BitOr(a, b), i) == if Digit(a, i) == 1 then 1 else Digit(b, i)
    decreases i
  {
    hide BitOr, Digit;
    OrStep(a, b);
    var c := BitOr(a, b);
    if i == 0 {
      DigitZero(a); DigitZero(b); DigitZero(c);
    } else {
      OrDigit(a / 2, b / 2, i - 1);
      DigitStep(a, i - 1); DigitStep(b, i - 1); DigitStep(c, i - 1);
      assert c / 2 == BitOr(a / 2, b / 2);
    }
  }

  // Complementing a number of n digits flips each.
  lemma {:induction false} ComplementDigit(m: nat, n: nat, i: nat)
    requires m < Pow2(n) && i < n
    ensures Digit(Pow2(n) - 1 - m, i) == 1 - Digit(m, i)
    decreases n
  {
    hide Digit, Pow2;
    Pow2Step(n);
    var p := Pow2(n - 1);
    var c: nat := 2 * p - 1 - m;
    assert c / 2 == p - 1 - m / 2 && c % 2 == 1 - m % 2;
    if i == 0 {
      DigitZero(m); DigitZero(c);
    } else {
      ComplementDigit(m / 2, n - 1, i - 1);
      DigitStep(m, i - 1); DigitStep(c, i - 1);
    }
  }

  lemma {:induction false} PowDigit(j: nat, i: nat)
    ensures Digit(Pow2(j), i) == if i == j then 1 else 0
    decreases i
  {
    hide Digit, Pow2;
    Pow2Step(j);
    if i == 0 {
      DigitZero(Pow2(j));
    } else {
      DigitStep(Pow2(j), i - 1);
      if j > 0 {
        assert Pow2(j) / 2 == Pow2(j - 1);
        PowDigit(j - 1, i - 1);
      } else {
        assert 1 / 2 == 0;
        ZeroDigit(i - 1);
      }
    }
  }

  lemma {:induction false} ZeroDigit(i: nat)
    ensures Digit(0, i) == 0
    decreases i
  {
    if i > 0 {
      ZeroDigit(i - 1);
    }
  }

  // A number is determined by its digits.
  lemma {:induction false} DigitsDetermine(x: nat, y: nat, n: nat)
    requires x < Pow2(n) && y < Pow2(n)
    requires forall i :: 0 <= i < n ==> Digit(x, i) == Digit(y, i)
    ensures x == y
    decreases n
  {
    hide Digit, Pow2;
    Pow2Step(n);
    if n > 0 {
      forall i | 0 <= i < n - 1 ensures Digit(x / 2, i) == Digit(y / 2, i) {
        DigitStep(x, i);
        DigitStep(y, i);
        assert Digit(x, i + 1) == Digit(y, i + 1);
      }
      DigitsDetermine(x / 2, y / 2, n - 1);
      DigitZero(x);
      DigitZero(y);
      assert Digit(x, 0) == Digit(y, 0);
    }
  }

  lemma {:induction false} PowMonotone(a: nat, b: nat)
    requires a <= b
    ensures Pow2(a) <= Pow2(b)
    decreases b
  {
    if a < b {
      PowMonotone(a, b - 1);
    }
  }

  lemma {:induction false} PowSum(a: nat, b: nat)
    ensures Pow2(a + b) == Pow2(a) * Pow2(b)
    decreases b
  {
    if b > 0 {
      PowSum(a, b - 1);
    }
  }

  lemma {:induction false} AndAtMost(a: nat, b: nat)
    ensures BitAnd(a, b) <= a
    decreases a
  {
    AndAlways(a, b);
    if a > 0 {
      AndAtMost(a / 2, b / 2);
    }
  }

  lemma {:induction false} OrBelow(a: nat, b: nat, n: nat)
    requires a < Pow2(n) && b < Pow2(n)
    ensures BitOr(a, b) < Pow2(n)
    decreases n
  {
    OrStep(a, b);
    if n > 0 {
      OrBelow(a / 2, b / 2, n - 1);
    }
  }
}
