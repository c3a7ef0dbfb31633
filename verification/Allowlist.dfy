/** The 32-bit mask of permitted blob kinds, refined to a set machine. */
module Allowlist {
  import opened Common
  import opened Bits

  const KIND_LAST: nat := 12

  /** C's | on unsigned words. */
  function Or(a: nat, b: nat): nat
  {
    if a == 0 then b
    else if b == 0 then a
    else 2 * Or(a / 2, b / 2) + (if a % 2 == 1 || b % 2 == 1 then 1 else 0)
  }

  /** Shifts of 64 or more are undefined in C; no engine has such a kind, so the answer is never used. */
  predicate IsAllowed(mask: U32, kind: nat)
  {
    kind < 64 && And(mask, Exp2(kind)) > 0
  }

  function Allow(mask: U32, kind: nat): (r: U32)
    requires kind < KIND_LAST
  {
    OrFits(if mask == MAXUINT32 then 0 else mask, kind);
    Or(if mask == MAXUINT32 then 0 else mask, Exp2(kind))
  }

  function Disallow(mask: U32, kind: nat): (r: U32)
    requires kind < KIND_LAST
  {
    ShiftedOneFits(kind);
    And(mask, MAXUINT64 - Exp2(kind))
  }

  // ---- the abstract machine

  datatype Command = AllowKind(kind: nat) | DisallowKind(kind: nat)

  ghost predicate ValidTrace(trace: seq<Command>)
  {
    forall c <- trace :: c.kind < KIND_LAST
  }

  /** The kinds whose digit is set. */
  ghost function Permitted(mask: U32): set<nat>
  {
    set k: nat | k < 32 && IsAllowed(mask, k)
  }

  ghost const EVERY: set<nat> := set k: nat | k < 32

  ghost function AbstractStep(s: set<nat>, c: Command): set<nat>
  {
    match c
    case AllowKind(k) => if s == EVERY then {k} else s + {k}
    case DisallowKind(k) => s - {k}
  }

  ghost function MaskStep(mask: U32, c: Command): U32
    requires c.kind < KIND_LAST
  {
    match c
    case AllowKind(k) => Allow(mask, k)
    case DisallowKind(k) => Disallow(mask, k)
  }

  ghost function MaskRun(trace: seq<Command>): U32
    requires ValidTrace(trace)
  {
    if trace == [] then MAXUINT32
    else MaskStep(MaskRun(trace[..|trace| - 1]), trace[|trace| - 1])
  }

  ghost function AbstractRun(trace: seq<Command>): set<nat>
  {
    if trace == [] then EVERY
    else AbstractStep(AbstractRun(trace[..|trace| - 1]), trace[|trace| - 1])
  }

  // ---- digits

  lemma {:induction false} DigitOfPower(k: nat, j: nat)
    ensures And(Exp2(k), Exp2(j)) > 0 <==> j == k
    decreases j
  {
    if j == 0 {
      TestLowest(Exp2(k));
    } else {
      TestStep(Exp2(k), j);
      if k > 0 { DigitOfPower(k - 1, j - 1); } else { assert Exp2(0) / 2 == 0; }
    }
  }

  lemma {:induction false} DigitOfOr(a: nat, b: nat, j: nat)
    ensures And(Or(a, b), Exp2(j)) > 0 <==> And(a, Exp2(j)) > 0 || And(b, Exp2(j)) > 0
    decreases j
  {
    if a != 0 && b != 0 {
      var r := Or(a, b);
      assert r / 2 == Or(a / 2, b / 2) && (r % 2 == 1 <==> a % 2 == 1 || b % 2 == 1);
      if j == 0 {
        TestLowest(a); TestLowest(b); TestLowest(r);
      } else {
        TestStep(a, j); TestStep(b, j); TestStep(r, j);
        DigitOfOr(a / 2, b / 2, j - 1);
      }
    }
  }

  lemma {:induction false} DigitOfAnd(a: nat, b: nat, j: nat)
    ensures And(And(a, b), Exp2(j)) > 0 <==> And(a, Exp2(j)) > 0 && And(b, Exp2(j)) > 0
    decreases j
  {
    if a != 0 && b != 0 {
      var r := And(a, b);
      assert r / 2 == And(a / 2, b / 2) && (r % 2 == 1 <==> a % 2 == 1 && b % 2 == 1);
      if j == 0 {
        TestLowest(a); TestLowest(b); TestLowest(r);
      } else {
        TestStep(a, j); TestStep(b, j); TestStep(r, j);
        DigitOfAnd(a / 2, b / 2, j - 1);
      }
    }
  }

  /** The complement in n digits has exactly the other digits. */
  lemma {:induction false} DigitOfComplement(n: nat, v: nat, j: nat)
    requires v < Exp2(n) && j < n
    ensures And(Exp2(n) - 1 - v, Exp2(j)) > 0 <==> And(v, Exp2(j)) == 0
    decreases j
  {
    var c := Exp2(n) - 1 - v;
    ComplementHalf(n, v);
    if j == 0 {
      TestLowest(v); TestLowest(c);
    } else {
      TestStep(v, j); TestStep(c, j);
      DigitOfComplement(n - 1, v / 2, j - 1);
    }
  }

  lemma ComplementHalf(n: nat, v: nat)
    requires n > 0 && v < Exp2(n)
    ensures var c := Exp2(n) - 1 - v; c / 2 == Exp2(n - 1) - 1 - v / 2 && c % 2 == 1 - v % 2
  {}

  lemma {:induction false} OrBound(a: nat, b: nat, n: nat)
    requires a < Exp2(n) && b < Exp2(n)
    ensures Or(a, b) < Exp2(n)
    decreases n
  {
    if a != 0 && b != 0 {
      OrBound(a / 2, b / 2, n - 1);
    }
  }

  lemma Exp2ThirtyTwo()
    ensures Exp2(32) == 0x1_0000_0000
  {
    assert Exp2(8) == 256;
    Exp2Sum(8, 8);
    Exp2Sum(16, 16);
  }

  lemma OrFits(mask: U32, kind: nat)
    requires kind < KIND_LAST
    ensures Or(mask, Exp2(kind)) < 0x1_0000_0000
  {
    Exp2ThirtyTwo();
    Exp2Monotone(kind + 1, 32);
    OrBound(mask, Exp2(kind), 32);
  }

  lemma PermittedAll()
    ensures Permitted(MAXUINT32) == EVERY
  {
    Exp2ThirtyTwo();
    forall j: nat | j < 32 ensures IsAllowed(MAXUINT32, j) {
      DigitOfComplement(32, 0, j);
    }
  }

  lemma PermittedEvery(mask: U32)
    ensures Permitted(MAXUINT32) == EVERY
    ensures Permitted(0) == {}
    ensures Permitted(mask) == EVERY ==> mask == MAXUINT32
  {
    PermittedAll();
    if Permitted(mask) == EVERY {
      Exp2ThirtyTwo();
      forall j: nat | j < 32 ensures And(mask, Exp2(j)) > 0 {
        assert j in Permitted(mask);
      }
      AllDigitsSet(mask, 32);
    }
  }

  lemma {:induction false} AllDigitsSet(v: nat, n: nat)
    requires v < Exp2(n) && forall j: nat :: j < n ==> And(v, Exp2(j)) > 0
    ensures v == Exp2(n) - 1
    decreases n
  {
    if n > 0 {
      TestLowest(v);
      assert And(v, Exp2(0)) > 0;
      forall j: nat | j < n - 1 ensures And(v / 2, Exp2(j)) > 0 {
        TestStep(v, j + 1);
      }
      AllDigitsSet(v / 2, n - 1);
    }
  }

  /** Binary digit kind of the mask is one. */
  ghost predicate Allows(mask: U32, kind: nat)
  {
    kind < 32 && mask / Exp2(kind) % 2 == 1
  }

  lemma HalveTwice(v: nat, p: nat)
    requires p > 0
    ensures v / (2 * p) == (v / 2) / p
  {
    var q, r := (v / 2) / p, (v / 2) % p;
    assert v / 2 == p * q + r;
    assert v == 2 * p * q + (2 * r + v % 2);
    DivisionIs(v, 2 * p, q, 2 * r + v % 2);
  }

  lemma DivisionIs(v: int, d: int, q: int, r: int)
    requires v == d * q + r && 0 <= r < d
    ensures v / d == q
  {
    var x, m := v / d, v % d;
    assert v == d * x + m;
    assert d * (x - q) == r - m;
    assert x - q >= 1 ==> d * (x - q) >= d;
    assert x - q <= -1 ==> d * (x - q) <= -d;
  }

  lemma {:induction false} DigitByDivision(v: nat, k: nat)
    ensures And(v, Exp2(k)) > 0 <==> v / Exp2(k) % 2 == 1
    decreases k
  {
    if k == 0 {
      TestLowest(v);
    } else {
      TestStep(v, k);
      HalveTwice(v, Exp2(k - 1));
      DigitByDivision(v / 2, k - 1);
    }
  }

  /** The test of the library is the test of a binary digit. */
  lemma AllowedIsDigit(mask: U32, kind: nat)
    ensures IsAllowed(mask, kind) <==> Allows(mask, kind)
  {
    DigitByDivision(mask, kind);
    if kind >= 32 {
      Exp2ThirtyTwo();
      Exp2Monotone(32, kind);
      HighDigit(mask, kind);
    }
  }

  // ---- refinement and what it gives

  lemma AllowDigit(mask: U32, kind: nat, j: nat)
    requires kind < KIND_LAST && j < 32
    ensures IsAllowed(Allow(mask, kind), j) <==> j == kind || (mask != MAXUINT32 && IsAllowed(mask, j))
  {
    OrFits(if mask == MAXUINT32 then 0 else mask, kind);
    DigitOfPower(kind, j);
    DigitOfOr(if mask == MAXUINT32 then 0 else mask, Exp2(kind), j);
  }

  lemma DisallowDigit(mask: U32, kind: nat, j: nat)
    requires kind < KIND_LAST && j < 32
    ensures IsAllowed(Disallow(mask, kind), j) <==> j != kind && IsAllowed(mask, j)
  {
    DigitOfInverse(kind, j);
    DigitOfAnd(mask, MAXUINT64 - Exp2(kind), j);
  }

  lemma DigitOfInverse(kind: nat, j: nat)
    requires kind < 64 && j < 64
    ensures Exp2(kind) <= MAXUINT64
    ensures And(MAXUINT64 - Exp2(kind), Exp2(j)) > 0 <==> j != kind
  {
    Exp2Sixty4();
    ShiftedOneFits(kind);
    DigitOfPower(kind, j);
    DigitOfComplement(64, Exp2(kind), j);
  }

  /** One operation on the mask is one step of the set machine. */
  lemma StepRefines(mask: U32, c: Command)
    requires c.kind < KIND_LAST
    ensures Permitted(MaskStep(mask, c)) == AbstractStep(Permitted(mask), c)
  {
    PermittedEvery(mask);
    forall j: nat | j < 32
      ensures j in Permitted(MaskStep(mask, c)) <==> j in AbstractStep(Permitted(mask), c)
    {
      match c
      case AllowKind(k) => AllowDigit(mask, k, j);
      case DisallowKind(k) => DisallowDigit(mask, k, j);
    }
  }

  /** Every trace of the mask refines the same trace of the set machine. */
  lemma {:induction false} RunRefines(trace: seq<Command>)
    requires ValidTrace(trace)
    ensures Permitted(MaskRun(trace)) == AbstractRun(trace)
  {
    if trace == [] {
      PermittedEvery(MAXUINT32);
    } else {
      var before := trace[..|trace| - 1];
      RunRefines(before);
      StepRefines(MaskRun(before), trace[|trace| - 1]);
    }
  }

  /** The trace has an allow that was executed while every digit was set. */
  ghost predicate HasReset(trace: seq<Command>)
  {
    exists i :: 0 <= i < |trace| && trace[i].AllowKind? && AbstractRun(trace[..i]) == EVERY
  }

  lemma HasResetStep(before: seq<Command>, c: Command)
    ensures HasReset(before + [c]) <==> HasReset(before) || (c.AllowKind? && AbstractRun(before) == EVERY)
  {
    var trace := before + [c];
    assert forall i :: 0 <= i <= |before| ==> trace[..i] == before[..i];
    assert before[..|before|] == before;
    if HasReset(before) {
      var i :| 0 <= i < |before| && before[i].AllowKind? && AbstractRun(before[..i]) == EVERY;
      assert trace[i].AllowKind? && AbstractRun(trace[..i]) == EVERY;
    }
    if c.AllowKind? && AbstractRun(before) == EVERY {
      assert trace[|before|].AllowKind? && AbstractRun(trace[..|before|]) == EVERY;
    }
  }

  lemma {:induction false} ModeOfTrace(trace: seq<Command>)
    requires ValidTrace(trace)
    ensures HasReset(trace) ==> forall k <- AbstractRun(trace) :: k < KIND_LAST && AllowKind(k) in trace
    ensures !HasReset(trace) ==> forall k: nat :: KIND_LAST <= k < 32 ==> k in AbstractRun(trace)
  {
    if trace != [] {
      var before, c := trace[..|trace| - 1], trace[|trace| - 1];
      SplitLast(trace);
      ModeOfTrace(before);
      HasResetStep(before, c);
      if HasReset(before) {
        KeepsNamed(before, c);
      } else if !HasReset(trace) {
        KeepsUnnamed(before, c);
      }
    }
  }

  lemma KeepsNamed(before: seq<Command>, c: Command)
    requires c.kind < KIND_LAST && forall k <- AbstractRun(before) :: k < KIND_LAST && AllowKind(k) in before
    ensures forall k <- AbstractRun(before + [c]) :: k < KIND_LAST && AllowKind(k) in before + [c]
  {
    assert (before + [c])[..|before|] == before;
  }

  lemma KeepsUnnamed(before: seq<Command>, c: Command)
    requires c.kind < KIND_LAST && forall k: nat :: KIND_LAST <= k < 32 ==> k in AbstractRun(before)
    requires c.AllowKind? ==> AbstractRun(before) != EVERY
    ensures forall k: nat :: KIND_LAST <= k < 32 ==> k in AbstractRun(before + [c])
  {
    assert (before + [c])[..|before|] == before;
  }

  /** After a reset the mask is never all ones again, so no second reset can wipe an earlier allow. */
  lemma NoSecondReset(trace: seq<Command>)
    requires ValidTrace(trace) && HasReset(trace)
    ensures MaskRun(trace) != MAXUINT32
  {
    ModeOfTrace(trace);
    RunRefines(trace);
    PermittedEvery(MAXUINT32);
    assert 31 in EVERY;
  }

  /** Allow-only traces permit exactly what they name. */
  lemma {:induction false} AllowOnlyIsExact(trace: seq<Command>, kind: nat)
    requires ValidTrace(trace) && trace != [] && (forall c <- trace :: c.AllowKind?) && kind < 32
    ensures IsAllowed(MaskRun(trace), kind) <==> AllowKind(kind) in trace
  {
    RunRefines(trace);
    AllowOnlyRun(trace);
    assert IsAllowed(MaskRun(trace), kind) <==> kind in Permitted(MaskRun(trace));
  }

  lemma {:induction false} AllowOnlyRun(trace: seq<Command>)
    requires ValidTrace(trace) && trace != [] && forall c <- trace :: c.AllowKind?
    ensures AbstractRun(trace) == set c | c in trace :: c.kind
    ensures 31 !in AbstractRun(trace)
  {
    var n := |trace| - 1;
    var before := trace[..n];
    assert trace == before + [trace[n]];
    if before == [] {
      assert AbstractRun(before) == EVERY;
      assert trace == [trace[0]];
    } else {
      AllowOnlyRun(before);
      assert 31 in EVERY;
    }
  }

  /**
   * The documentation says that once a kind has been allowed only allowed kinds are used.  That holds of
   * a trace exactly when one of its allows met a mask with every digit set: a trace whose first allow
   * follows an unrevoked disallow keeps permitting kinds it never named.
   */
  lemma OnlyAllowedKindsUsed(trace: seq<Command>)
    requires ValidTrace(trace)
    ensures (forall k: nat :: IsAllowed(MaskRun(trace), k) ==> AllowKind(k) in trace) <==> HasReset(trace)
  {
    ModeOfTrace(trace);
    RunRefines(trace);
    var mask := MaskRun(trace);
    forall k: nat | IsAllowed(mask, k) ensures k < 32 {
      if k >= 32 {
        Exp2ThirtyTwo();
        Exp2Monotone(32, k);
        HighDigit(mask, k);
      }
    }
    if HasReset(trace) {
      forall k: nat | IsAllowed(mask, k) ensures AllowKind(k) in trace {
        assert k in Permitted(mask);
      }
    } else {
      assert 31 in AbstractRun(trace);
      assert IsAllowed(mask, 31) && AllowKind(31) !in trace;
    }
  }

  lemma {:induction false} HighDigit(v: nat, k: nat)
    requires v < Exp2(k)
    ensures And(v, Exp2(k)) == 0
  {
    if k > 0 {
      TestStep(v, k);
      HighDigit(v / 2, k - 1);
    }
  }

  /** The shortest such trace: SHA1 is disallowed, ED25519 allowed, and GPG stays in use. */
  lemma DisallowThenAllow()
    ensures IsAllowed(MaskRun([DisallowKind(4), AllowKind(9)]), 2)
    ensures !HasReset([DisallowKind(4), AllowKind(9)])
  {
    var trace := [DisallowKind(4), AllowKind(9)];
    assert trace[..1] == [DisallowKind(4)] && trace[..1][..0] == [];
    assert AbstractRun(trace[..1]) == EVERY - {4};
    assert 4 in EVERY && 2 in EVERY;
    RunRefines(trace);
    assert 2 in Permitted(MaskRun(trace));
  }
}
