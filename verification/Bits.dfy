/** The portable loop forms of the 64-bit helpers, against the arithmetic meaning of a word. */
module Bits {
  import opened Common

  function Exp2(k: nat): (p: nat)
    ensures p >= 1
  {
    if k == 0 then 1 else 2 * Exp2(k - 1)
  }

  /** C's & on unsigned words: digit by digit in binary. */
  function And(a: nat, b: nat): (r: nat)
    ensures r <= a && r <= b
  {
    if a == 0 || b == 0 then 0
    else 2 * And(a / 2, b / 2) + (if a % 2 == 1 && b % 2 == 1 then 1 else 0)
  }

  /** C's unary minus on guint64. */
  function Negate(v: U64): U64
  {
    if v == 0 then 0 else 0x1_0000_0000_0000_0000 - v
  }

  /** The binary digit sum. */
  function DigitSum(n: nat): nat
  {
    if n == 0 then 0 else n % 2 + DigitSum(n / 2)
  }

  /** The digit sum of the lowest k binary digits. */
  ghost function LowSum(n: nat, k: nat): nat
  {
    if k == 0 then 0 else n % 2 + LowSum(n / 2, k - 1)
  }

  /** n is the least number of binary digits that can hold v. */
  ghost predicate IsLength(v: nat, n: nat)
  {
    v < Exp2(n) && (n > 0 ==> Exp2(n - 1) <= v)
  }

  /** 2^n is the largest power of two dividing v; 64 stands for the word zero. */
  ghost predicate IsTrailingZeros(v: nat, n: nat)
  {
    if v == 0 then n == 64
    else exists odd: nat :: odd % 2 == 1 && v == Exp2(n) * odd
  }

  lemma {:induction false} Exp2Monotone(i: nat, j: nat)
    requires i <= j
    ensures Exp2(i) <= Exp2(j)
    decreases j
  {
    if i < j { Exp2Monotone(i, j - 1); }
  }

  lemma {:induction false} Exp2Sum(i: nat, j: nat)
    ensures Exp2(i + j) == Exp2(i) * Exp2(j)
    decreases j
  {
    if j > 0 {
      Exp2Sum(i, j - 1);
      assert i + j - 1 == i + (j - 1);
    }
  }

  lemma Exp2Sixty4()
    ensures Exp2(64) == 0x1_0000_0000_0000_0000
  {
    assert Exp2(4) == 16;
    Exp2Sum(4, 4);
    Exp2Sum(8, 8);
    Exp2Sum(16, 16);
    Exp2Sum(32, 32);
  }

  /** 1ull << k is a word for every k below 64. */
  lemma ShiftedOneFits(k: nat)
    requires k < 64
    ensures Exp2(k) < 0x1_0000_0000_0000_0000
  {
    Exp2Sixty4();
    Exp2Monotone(k + 1, 64);
  }

  /** Testing v against 1 << k tests the same digit of v/2 against 1 << (k-1). */
  lemma TestStep(v: nat, k: nat)
    requires k > 0
    ensures And(v, Exp2(k)) == 2 * And(v / 2, Exp2(k - 1))
  {
    assert Exp2(k) / 2 == Exp2(k - 1) && Exp2(k) % 2 == 0;
    assert v / 2 == 0 ==> And(v / 2, Exp2(k - 1)) == 0;
  }

  lemma TestLowest(v: nat)
    ensures And(v, Exp2(0)) == v % 2
  {
    assert Exp2(0) == 1;
    assert And(v / 2, 0) == 0;
  }

  lemma {:induction false} LowSumGrows(v: nat, k: nat)
    ensures LowSum(v, k + 1) == LowSum(v, k) + (if And(v, Exp2(k)) != 0 then 1 else 0)
    decreases k
  {
    if k == 0 {
      TestLowest(v);
      assert LowSum(v / 2, 0) == 0;
    } else {
      TestStep(v, k);
      LowSumGrows(v / 2, k - 1);
    }
  }

  lemma {:induction false} LowSumIsAll(v: nat, k: nat)
    requires v < Exp2(k)
    ensures LowSum(v, k) == DigitSum(v)
    decreases k
  {
    if k > 0 { LowSumIsAll(v / 2, k - 1); }
    if v == 0 && k > 0 { assert DigitSum(v / 2) == 0; }
  }

  lemma Twice(v: nat, half: nat, q: nat)
    requires v % 2 == 0 && v / 2 == half * q
    ensures v == (2 * half) * q
  {}

  lemma TestShifted(v: nat, k: nat)
    requires k > 0 && forall j: nat :: j < k ==> And(v, Exp2(j)) == 0
    ensures v % 2 == 0 && forall j: nat :: j < k - 1 ==> And(v / 2, Exp2(j)) == 0
  {
    TestLowest(v);
    assert And(v, Exp2(0)) == 0;
    forall j: nat | j < k - 1 ensures And(v / 2, Exp2(j)) == 0 {
      TestStep(v, j + 1);
    }
  }

  /** With the lowest k digits clear, v is 2^k times a number whose parity is digit k of v. */
  lemma {:induction false} FactorOut(v: nat, k: nat) returns (q: nat)
    requires forall j: nat :: j < k ==> And(v, Exp2(j)) == 0
    ensures v == Exp2(k) * q
    ensures (q % 2 == 1) == (And(v, Exp2(k)) != 0)
    decreases k
  {
    if k == 0 {
      TestLowest(v);
      q := v;
    } else {
      TestShifted(v, k);
      q := FactorOut(v / 2, k - 1);
      TestStep(v, k);
      Twice(v, Exp2(k - 1), q);
    }
  }

  // ---- the loops

  method OnesCount64(val: U64) returns (c: nat)
    ensures c == DigitSum(val)
  {
    c := 0;
    for i := 0 to 64
      invariant c == LowSum(val, i)
    {
      LowSumGrows(val, i);
      if And(val, Exp2(i)) != 0 {
        c := c + 1;
      }
    }
    Exp2Sixty4();
    LowSumIsAll(val, 64);
  }

  method TrailingZeros64(val: U64) returns (n: nat)
    ensures IsTrailingZeros(val, n)
    ensures n == 64 <==> val == 0
  {
    for i := 0 to 64
      invariant forall j: nat :: j < i ==> And(val, Exp2(j)) == 0
    {
      if And(val, Exp2(i)) != 0 {
        ghost var q := FactorOut(val, i);
        return i;
      }
    }
    Exp2Sixty4();
    ghost var q := FactorOut(val, 64);
    assert q == 0;
    return 64;
  }

  method Length64(val: U64) returns (n: nat)
    ensures IsLength(val, n)
  {
    for i := 0 to 64
      invariant i > 0 ==> Exp2(i - 1) <= val
    {
      if Exp2(i) > val {
        return i;
      }
    }
    Exp2Sixty4();
    return 64;
  }

  // ---- what the three say together

  lemma LengthUnique(v: nat, m: nat, n: nat)
    requires IsLength(v, m) && IsLength(v, n)
    ensures m == n
  {
    if m < n { Exp2Monotone(m, n - 1); }
    if n < m { Exp2Monotone(n, m - 1); }
  }

  /** v & (v - 1) clears the lowest set digit: the count drops by exactly one. */
  lemma {:induction false} ClearLowestBit(v: nat)
    requires v > 0
    ensures DigitSum(And(v, v - 1)) == DigitSum(v) - 1
  {
    var half, r := v / 2, And(v, v - 1);
    if v % 2 == 1 {
      AndSelf(half);
      assert (v - 1) / 2 == half;
      assert r / 2 == half && r % 2 == 0;
    } else {
      ClearLowestBit(half);
      assert (v - 1) / 2 == half - 1;
      assert r / 2 == And(half, half - 1) && r % 2 == 0;
    }
  }

  lemma {:induction false} AndSelf(v: nat)
    ensures And(v, v) == v
  {
    if v > 0 { AndSelf(v / 2); }
  }

  lemma {:induction false} AndComplement(v: nat, k: nat)
    requires v < Exp2(k)
    ensures And(v, Exp2(k) - 1 - v) == 0
    decreases k
  {
    if k > 0 {
      assert (Exp2(k) - 1 - v) / 2 == Exp2(k - 1) - 1 - v / 2;
      AndComplement(v / 2, k - 1);
    }
  }

  /** In words of k digits, v & -v is the largest power of two dividing v. */
  lemma {:induction false} IsolateLowestBit(v: nat, k: nat, n: nat)
    requires 0 < v < Exp2(k) && IsTrailingZeros(v, n)
    ensures And(v, Exp2(k) - v) == Exp2(n)
    decreases k
  {
    var odd: nat :| odd % 2 == 1 && v == Exp2(n) * odd;
    var half := Exp2(k - 1);
    if n > 0 { assert v == 2 * (Exp2(n - 1) * odd); }
    if v % 2 == 1 {
      assert (2 * half - v) / 2 == half - 1 - v / 2;
      AndComplement(v / 2, k - 1);
    } else {
      assert n > 0 && v / 2 == Exp2(n - 1) * odd;
      assert (2 * half - v) / 2 == half - v / 2;
      IsolateLowestBit(v / 2, k - 1, n - 1);
    }
  }

  /** length64(v & -v) == trailing_zeros64(v) + 1. */
  lemma LengthOfLowestBit(v: U64, zeros: nat, length: nat)
    requires v > 0 && IsTrailingZeros(v, zeros) && IsLength(And(v, Negate(v)), length)
    ensures length == zeros + 1
  {
    Exp2Sixty4();
    IsolateLowestBit(v, 64, zeros);
    LengthUnique(Exp2(zeros), length, zeros + 1);
  }
}
