/** Splitting, decimal and hexadecimal text, as GLib reads and writes them. */
module Text {
  import opened Common

  /** Where d first occurs. */
  function Index(s: Bytes, d: Byte): (i: nat)
    requires d in s
    ensures i < |s| && s[i] == d && d !in s[..i]
  {
    if s[0] == d then 0 else 1 + Index(s[1..], d)
  }

  /** The pieces of a string cut at each d, at most max of them unless max is 0. */
  function Tokens(s: CString, d: Byte, max: nat): (r: seq<CString>)
    ensures |r| >= 1
    ensures max > 0 ==> |r| <= max
    decreases |s|
  {
    if max == 1 || d !in s then [s]
    else
      var i := Index(s, d);
      [s[..i]] + Tokens(s[i + 1..], d, if max == 0 then 0 else max - 1)
  }

  /** g_strsplit with a one-byte delimiter: the empty string has no pieces. */
  function Split(s: CString, d: Byte, max: nat): (r: seq<CString>)
    ensures max > 0 ==> |r| <= max
  {
    if s == [] then [] else Tokens(s, d, max)
  }

  function Join(parts: seq<CString>, d: Byte): (s: CString)
    requires parts != [] && d != NUL
  {
    if |parts| == 1 then parts[0] else parts[0] + [d] + Join(parts[1..], d)
  }

  /** Joining inverts cutting, and only the last piece of a bounded cut can contain the delimiter. */
  lemma {:induction false} JoinTokens(s: CString, d: Byte, max: nat)
    requires d != NUL
    ensures Join(Tokens(s, d, max), d) == s
    ensures var r := Tokens(s, d, max);
            forall i :: 0 <= i < |r| && (i + 1 < |r| || max == 0 || |r| < max) ==> d !in r[i]
    decreases |s|
  {
    if max != 1 && d in s {
      var i := Index(s, d);
      var rest := Tokens(s[i + 1..], d, if max == 0 then 0 else max - 1);
      JoinTokens(s[i + 1..], d, if max == 0 then 0 else max - 1);
      var r := Tokens(s, d, max);
      assert r == [s[..i]] + rest && r[1..] == rest;
      assert s == s[..i] + [d] + s[i + 1..];
    }
  }

  /** Cutting inverts joining when no piece that must be cut off contains the delimiter. */
  lemma {:induction false} TokensJoin(parts: seq<CString>, d: Byte, max: nat)
    requires parts != [] && d != NUL
    requires max == 0 || |parts| <= max
    requires forall i :: 0 <= i < |parts| && (i + 1 < |parts| || |parts| != max) ==> d !in parts[i]
    ensures Tokens(Join(parts, d), d, max) == parts
    decreases |parts|
  {
    if |parts| == 1 {
      assert parts == [parts[0]];
    } else {
      TokensCons(parts[0], d, Join(parts[1..], d), max);
      TokensJoin(parts[1..], d, if max == 0 then 0 else max - 1);
      assert parts == [parts[0]] + parts[1..];
    }
  }

  lemma TokensCons(head: CString, d: Byte, tail: CString, max: nat)
    requires max != 1 && d != NUL && d !in head
    ensures Tokens(head + [d] + tail, d, max) == [head] + Tokens(tail, d, if max == 0 then 0 else max - 1)
  {
    var s, n := head + [d] + tail, |head|;
    assert s[n] == d && s[..n] == head && s[n + 1..] == tail;
    FirstIndex(s, d, n);
  }

  lemma {:induction false} FirstIndex(s: Bytes, d: Byte, n: nat)
    requires n < |s| && s[n] == d && d !in s[..n]
    ensures Index(s, d) == n
  {
    if n > 0 {
      assert s[0] in s[..n] && s[..n][1..] == s[1..][..n - 1];
      FirstIndex(s[1..], d, n - 1);
    }
  }

  // ---- decimal

  const MINUS: Byte := 45
  const PLUS: Byte := 43

  predicate IsDigit(c: Byte)
  {
    48 <= c <= 57
  }

  predicate IsSpace(c: Byte)
  {
    c == 32 || 9 <= c <= 13
  }

  ghost predicate AllDigits(s: Bytes)
  {
    forall c <- s :: IsDigit(c)
  }

  function Decimal(n: nat): (s: CString)
    ensures AllDigits(s) && s != []
  {
    if n < 10 then [48 + n] else Decimal(n / 10) + [48 + n % 10]
  }

  ghost function DecimalValue(s: Bytes): nat
    requires AllDigits(s)
  {
    if s == [] then 0
    else
      assert s[|s| - 1] in s;
      DecimalValue(s[..|s| - 1]) * 10 + s[|s| - 1] - 48
  }

  lemma {:induction false} DecimalValueOfDecimal(n: nat)
    ensures DecimalValue(Decimal(n)) == n
  {
    var s := Decimal(n);
    if n < 10 {
      assert s[..0] == [];
    } else {
      DecimalValueOfDecimal(n / 10);
      assert s[..|s| - 1] == Decimal(n / 10);
    }
  }

  datatype Accumulator = Accumulator(value: U64, overflow: bool)

  /** The conversion loop of g_ascii_strtoull in base 10: once a digit does not fit, the value stays put. */
  function Accumulate(s: Bytes, a: Accumulator): Accumulator
  {
    if s == [] || !IsDigit(s[0]) then a
    else
      var c := s[0] - 48;
      if a.value > MAXUINT64 / 10 || (a.value == MAXUINT64 / 10 && c > MAXUINT64 % 10)
      then Accumulate(s[1..], a.(overflow := true))
      else Accumulate(s[1..], a.(value := a.value * 10 + c))
  }

  function SkipSpaces(s: Bytes): Bytes
  {
    if s != [] && IsSpace(s[0]) then SkipSpaces(s[1..]) else s
  }

  /** g_ascii_strtoull(s, NULL, 10): leading space, a sign, digits; saturating, then negated modulo 2^64. */
  function Strtoull(line: Bytes): U64
  {
    var s := SkipSpaces(line);
    var negative := s != [] && s[0] == MINUS;
    var digits := if s != [] && (s[0] == MINUS || s[0] == PLUS) then s[1..] else s;
    var a := Accumulate(digits, Accumulator(0, false));
    var r: U64 := if a.overflow then MAXUINT64 else a.value;
    if negative && r != 0 then 0x1_0000_0000_0000_0000 - r else r
  }

  lemma {:induction false} DecimalValueFront(s: Bytes, t: Bytes)
    requires AllDigits(s + t)
    ensures AllDigits(s) && AllDigits(t) && DecimalValue(s + t) >= DecimalValue(s)
    decreases |t|
  {
    assert forall c <- s :: c in s + t;
    assert forall c <- t :: c in s + t;
    if t == [] {
      assert s + t == s;
    } else {
      var front := t[..|t| - 1];
      assert (s + t)[..|s + t| - 1] == s + front;
      DecimalValueFront(s, front);
      assert t[|t| - 1] in t;
      assert s + t == (s + front) + [t[|t| - 1]];
    }
  }

  ghost function Saturate(n: nat): U64
  {
    if n < 0x1_0000_0000_0000_0000 then n else MAXUINT64
  }

  lemma {:induction false} AccumulateSaturates(before: Bytes, s: Bytes, a: Accumulator)
    requires AllDigits(before + s) && AllDigits(before)
    requires if a.overflow then DecimalValue(before) >= 0x1_0000_0000_0000_0000 else DecimalValue(before) == a.value
    ensures var r := Accumulate(s, a);
            (if r.overflow then MAXUINT64 else r.value) == Saturate(DecimalValue(before + s))
    decreases |s|
  {
    if s == [] {
      assert before + s == before;
    } else {
      var next := before + [s[0]];
      assert s[0] in before + s;
      assert next[..|before|] == before;
      assert before + s == next + s[1..];
      DecimalValueFront(next, s[1..]);
      var c := s[0] - 48;
      if a.value > MAXUINT64 / 10 || (a.value == MAXUINT64 / 10 && c > MAXUINT64 % 10) {
        AccumulateSaturates(next, s[1..], a.(overflow := true));
      } else {
        assert a.overflow ==> DecimalValue(next) >= 0x1_0000_0000_0000_0000;
        AccumulateSaturates(next, s[1..], a.(value := a.value * 10 + c));
      }
    }
  }

  /** A line of digits of any length converts to its value, or to 2^64 - 1 when that is too large. */
  lemma StrtoullOfDigits(s: Bytes)
    requires AllDigits(s)
    ensures Strtoull(s) == Saturate(DecimalValue(s))
  {
    assert s != [] ==> s[0] in s;
    assert SkipSpaces(s) == s;
    assert [] + s == s;
    AccumulateSaturates([], s, Accumulator(0, false));
  }

  /** A minus sign in front wraps: a saturated number comes out as 1. */
  lemma StrtoullOfNegative(s: Bytes)
    requires AllDigits(s)
    ensures var n := Saturate(DecimalValue(s));
            Strtoull([MINUS] + s) == if n == 0 then 0 else 0x1_0000_0000_0000_0000 - n
  {
    var line := [MINUS] + s;
    assert SkipSpaces(line) == line && line[1..] == s;
    assert [] + s == s;
    AccumulateSaturates([], s, Accumulator(0, false));
  }

  lemma {:induction false} SkipsSpaces(spaces: Bytes, s: Bytes)
    requires (forall c <- spaces :: IsSpace(c)) && (s == [] || !IsSpace(s[0]))
    ensures SkipSpaces(spaces + s) == s
    decreases |spaces|
  {
    if spaces == [] {
      assert spaces + s == s;
    } else {
      assert (spaces + s)[1..] == spaces[1..] + s;
      SkipsSpaces(spaces[1..], s);
    }
  }

  lemma {:induction false} StopsAtRest(digits: Bytes, rest: Bytes, a: Accumulator)
    requires AllDigits(digits) && (rest == [] || !IsDigit(rest[0]))
    ensures Accumulate(digits + rest, a) == Accumulate(digits, a)
    decreases |digits|
  {
    if digits == [] {
      assert digits + rest == rest;
    } else {
      assert (digits + rest)[1..] == digits[1..] + rest && digits[0] in digits;
      var c := digits[0] - 48;
      if a.value > MAXUINT64 / 10 || (a.value == MAXUINT64 / 10 && c > MAXUINT64 % 10) {
        StopsAtRest(digits[1..], rest, a.(overflow := true));
      } else {
        StopsAtRest(digits[1..], rest, a.(value := a.value * 10 + c));
      }
    }
  }

  /** Every line is white space, perhaps a sign, digits and something else, and only the sign and the digits count. */
  lemma StrtoullOfLine(spaces: Bytes, sign: Bytes, digits: Bytes, rest: Bytes)
    requires forall c <- spaces :: c == 32 || 9 <= c <= 13
    requires (sign == [] || sign == [PLUS] || sign == [MINUS]) && AllDigits(digits)
    requires rest != [] ==> !(48 <= rest[0] <= 57)
    requires rest != [] && sign == [] && digits == [] ==>
               rest[0] != 32 && !(9 <= rest[0] <= 13) && rest[0] != PLUS && rest[0] != MINUS
    ensures var n := Saturate(DecimalValue(digits));
            Strtoull(spaces + (sign + (digits + rest)))
            == if sign == [MINUS] && n != 0 then 0x1_0000_0000_0000_0000 - n else n
  {
    var s := sign + (digits + rest);
    assert digits != [] ==> digits[0] in digits && (digits + rest)[0] == digits[0];
    assert digits == [] ==> digits + rest == rest;
    assert sign == [] ==> s == digits + rest;
    assert sign != [] ==> s[1..] == digits + rest;
    SkipsSpaces(spaces, s);
    StopsAtRest(digits, rest, Accumulator(0, false));
    assert [] + digits == digits;
    AccumulateSaturates([], digits, Accumulator(0, false));
  }

  // ---- hexadecimal

  function HexDigit(d: nat): (c: Byte)
    requires d < 16
    ensures c != NUL
  {
    if d < 10 then 48 + d else 87 + d
  }

  /** One "%02x" after another. */
  function Hex(b: Bytes): (s: CString)
    ensures |s| == 2 * |b|
  {
    if b == [] then [] else [HexDigit(b[0] / 16), HexDigit(b[0] % 16)] + Hex(b[1..])
  }

  ghost function HexDigitValue(c: Byte): nat
  {
    if 48 <= c <= 57 then c - 48 else if 97 <= c <= 102 then c - 87 else 0
  }

  /** Two digits to a byte, the high one first. */
  ghost function HexValue(s: Bytes): seq<int>
  {
    if |s| < 2 then [] else [HexDigitValue(s[0]) * 16 + HexDigitValue(s[1])] + HexValue(s[2..])
  }

  lemma {:induction false} HexValueOfHex(b: Bytes)
    ensures HexValue(Hex(b)) == b
  {
    if b != [] {
      var s := Hex(b);
      assert s[2..] == Hex(b[1..]);
      HexValueOfHex(b[1..]);
      assert HexDigitValue(s[0]) == b[0] / 16 && HexDigitValue(s[1]) == b[0] % 16;
      assert b == [b[0]] + b[1..];
    }
  }
}
