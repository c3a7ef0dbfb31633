/** Base64 as in section 4 of RFC 4648, encoded as GLib does and decoded as leniently as GLib does. */
module Base64 {
  import opened Common

  type Sextet = x: int | 0 <= x < 64

  const PAD: Byte := 61  // '='

  predicate IsSymbol(c: Byte)
  {
    65 <= c <= 90 || 97 <= c <= 122 || 48 <= c <= 57 || c == 43 || c == 47
  }

  function Symbol(d: Sextet): (c: Byte)
    ensures IsSymbol(c)
  {
    if d < 26 then 65 + d
    else if d < 52 then 71 + d
    else if d < 62 then d - 4
    else if d == 62 then 43
    else 47
  }

  /** The value of a symbol; padding counts as zero, as in GLib's rank table. */
  function Rank(c: Byte): (d: Sextet)
    requires IsSymbol(c) || c == PAD
    ensures IsSymbol(c) ==> Symbol(d) == c
  {
    if c == PAD then 0
    else if c == 43 then 62
    else if c == 47 then 63
    else if c <= 57 then c + 4
    else if c <= 90 then c - 65
    else c - 71
  }

  /** Three bytes are four groups of six bits. */
  function Quad(a: Byte, b: Byte, c: Byte): (s: CString)
    ensures |s| == 4 && forall x <- s :: IsSymbol(x)
  {
    [Symbol(a / 4), Symbol(a % 4 * 16 + b / 16), Symbol(b % 16 * 4 + c / 64), Symbol(c % 64)]
  }

  /** g_base64_encode */
  function Encode(b: Bytes): (s: CString)
    ensures forall c <- s :: IsSymbol(c) || c == PAD
  {
    if b == [] then []
    else if |b| == 1 then [Symbol(b[0] / 4), Symbol(b[0] % 4 * 16), PAD, PAD]
    else if |b| == 2 then
      [Symbol(b[0] / 4), Symbol(b[0] % 4 * 16 + b[1] / 16), Symbol(b[1] % 16 * 4), PAD]
    else Quad(b[0], b[1], b[2]) + Encode(b[3..])
  }

  /** The characters the decoder looks at; it steps over every other one. */
  function Significant(s: Bytes): (t: Bytes)
    ensures forall c <- t :: IsSymbol(c) || c == PAD
  {
    if s == [] then []
    else if IsSymbol(s[0]) || s[0] == PAD then [s[0]] + Significant(s[1..])
    else Significant(s[1..])
  }

  /** Four characters give three bytes, less one for each padding character in third and fourth place. */
  function DecodeQuad(a: Byte, b: Byte, c: Byte, d: Byte): (r: Bytes)
    requires forall x <- [a, b, c, d] :: IsSymbol(x) || x == PAD
  {
    assert a in [a, b, c, d] && b in [a, b, c, d] && c in [a, b, c, d] && d in [a, b, c, d];
    [Rank(a) * 4 + Rank(b) / 16]
    + (if c != PAD then [Rank(b) % 16 * 16 + Rank(c) / 4] else [])
    + (if d != PAD then [Rank(c) % 4 * 64 + Rank(d)] else [])
  }

  /** An incomplete last group is dropped. */
  function DecodeQuads(q: Bytes): Bytes
    requires forall c <- q :: IsSymbol(c) || c == PAD
  {
    if |q| < 4 then [] else DecodeQuad(q[0], q[1], q[2], q[3]) + DecodeQuads(q[4..])
  }

  /** g_base64_decode, which accepts every string. */
  function Decode(s: Bytes): Bytes
  {
    DecodeQuads(Significant(s))
  }

  lemma {:induction false} SignificantKeeps(s: Bytes)
    requires forall c <- s :: IsSymbol(c) || c == PAD
    ensures Significant(s) == s
  {
    if s != [] { SignificantKeeps(s[1..]); }
  }

  lemma RankSymbol(d: Sextet)
    ensures Rank(Symbol(d)) == d
  {}

  lemma Cut(a: Byte, b: Byte, c: Byte)
    ensures (a % 4 * 16 + b / 16) / 16 == a % 4 && (a % 4 * 16 + b / 16) % 16 == b / 16
    ensures (b % 16 * 4 + c / 64) / 4 == b % 16 && (b % 16 * 4 + c / 64) % 4 == c / 64
    ensures a / 4 * 4 + a % 4 == a && b / 16 * 16 + b % 16 == b && c / 64 * 64 + c % 64 == c
  {}

  lemma QuadOfThree(a: Byte, b: Byte, c: Byte)
    ensures DecodeQuad(Symbol(a / 4), Symbol(a % 4 * 16 + b / 16), Symbol(b % 16 * 4 + c / 64), Symbol(c % 64))
            == [a, b, c]
  {
    Cut(a, b, c);
    RankSymbol(a / 4);
    RankSymbol(a % 4 * 16 + b / 16);
    RankSymbol(b % 16 * 4 + c / 64);
    RankSymbol(c % 64);
  }

  lemma DecodeQuadsCons(a: Byte, b: Byte, c: Byte, d: Byte, rest: Bytes)
    requires forall x <- [a, b, c, d] :: IsSymbol(x) || x == PAD
    requires forall x <- rest :: IsSymbol(x) || x == PAD
    ensures DecodeQuads([a, b, c, d] + rest) == DecodeQuad(a, b, c, d) + DecodeQuads(rest)
  {
    assert ([a, b, c, d] + rest)[4..] == rest;
  }

  lemma {:induction false} DecodeQuadsEncode(b: Bytes)
    ensures DecodeQuads(Encode(b)) == b
  {
    if |b| == 1 {
      LastQuad1(b[0]);
      assert b == [b[0]];
    } else if |b| == 2 {
      LastQuad2(b[0], b[1]);
      assert b == [b[0], b[1]];
    } else if |b| >= 3 {
      DecodeQuadsEncode(b[3..]);
      FirstQuad(b[0], b[1], b[2], Encode(b[3..]));
      FirstThree(b);
    }
  }

  lemma FirstThree(b: Bytes)
    requires |b| >= 3
    ensures b == [b[0], b[1], b[2]] + b[3..]
  {}

  lemma FirstQuad(a: Byte, b: Byte, c: Byte, rest: Bytes)
    requires forall x <- rest :: IsSymbol(x) || x == PAD
    ensures DecodeQuads(Quad(a, b, c) + rest) == [a, b, c] + DecodeQuads(rest)
  {
    QuadOfThree(a, b, c);
    DecodeQuadsCons(Symbol(a / 4), Symbol(a % 4 * 16 + b / 16), Symbol(b % 16 * 4 + c / 64), Symbol(c % 64), rest);
  }

  lemma LastQuad1(a: Byte)
    ensures DecodeQuads(Encode([a])) == [a]
  {
    Cut(a, 0, 0);
    RankSymbol(a / 4);
    RankSymbol(a % 4 * 16);
    DecodeQuadsCons(Symbol(a / 4), Symbol(a % 4 * 16), PAD, PAD, []);
  }

  lemma QuadOfTwo(a: Byte, b: Byte)
    ensures DecodeQuad(Symbol(a / 4), Symbol(a % 4 * 16 + b / 16), Symbol(b % 16 * 4), PAD) == [a, b]
  {
    Cut(a, b, 0);
    RankSymbol(a / 4);
    RankSymbol(a % 4 * 16 + b / 16);
    RankSymbol(b % 16 * 4);
  }

  lemma LastQuad2(a: Byte, b: Byte)
    ensures DecodeQuads(Encode([a, b])) == [a, b]
  {
    var last: Bytes := [];
    QuadOfTwo(a, b);
    DecodeQuadsCons(Symbol(a / 4), Symbol(a % 4 * 16 + b / 16), Symbol(b % 16 * 4), PAD, last);
    assert DecodeQuads(last) == [] && [a, b] + last == [a, b];
  }

  /** The text has four characters for every three bytes, the last group padded. */
  lemma {:induction false} EncodeLength(b: Bytes)
    ensures |Encode(b)| == (|b| + 2) / 3 * 4
  {
    if |b| >= 3 {
      EncodeLength(b[3..]);
      assert (|b| + 2) / 3 == (|b| - 1) / 3 + 1;
    }
  }

  /** Every byte string survives encoding and decoding. */
  lemma DecodeEncode(b: Bytes)
    ensures Decode(Encode(b)) == b
  {
    SignificantKeeps(Encode(b));
    DecodeQuadsEncode(b);
  }

  lemma {:induction false} SignificantConcat(s: Bytes, t: Bytes)
    ensures Significant(s + t) == Significant(s) + Significant(t)
    decreases |s|
  {
    if s == [] {
      assert s + t == t;
    } else {
      assert (s + t)[1..] == s[1..] + t;
      SignificantConcat(s[1..], t);
    }
  }

  lemma {:induction false} SignificantNone(s: Bytes)
    requires forall c <- s :: !IsSymbol(c) && c != PAD
    ensures Significant(s) == []
  {
    if s != [] { SignificantNone(s[1..]); }
  }

  /** Text outside the alphabet after the encoding, such as a newline, changes nothing. */
  lemma DecodeIgnoresTail(b: Bytes, tail: Bytes)
    requires forall c <- tail :: !IsSymbol(c) && c != PAD
    ensures Decode(Encode(b) + tail) == b
  {
    SignificantConcat(Encode(b), tail);
    SignificantNone(tail);
    assert Significant(Encode(b) + tail) == Significant(Encode(b));
    DecodeEncode(b);
  }

  /** A character outside the alphabet changes nothing wherever it stands. */
  lemma DecodeSkips(s: Bytes, c: Byte, t: Bytes)
    requires !IsSymbol(c) && c != PAD
    ensures Decode(s + [c] + t) == Decode(s + t)
  {
    var none: Bytes := [];
    SignificantConcat(s, [c]);
    SignificantConcat(s + [c], t);
    SignificantConcat(s, t);
    assert Significant([c]) == none;
    assert Significant(s) + none == Significant(s);
  }

  ghost predicate AllSignificant(s: Bytes)
  {
    forall c <- s :: IsSymbol(c) || c == PAD
  }

  lemma SignificantParts(s: Bytes, t: Bytes)
    ensures AllSignificant(s + t) <==> AllSignificant(s) && AllSignificant(t)
  {
    assert forall c :: c in s + t <==> c in s || c in t;
  }

  lemma FirstFour(q: Bytes)
    requires |q| >= 4
    ensures q == [q[0], q[1], q[2], q[3]] + q[4..]
  {}

  lemma {:induction false} DecodeQuadsConcat(q: Bytes, t: Bytes)
    requires AllSignificant(q) && AllSignificant(t) && AllSignificant(q + t) && |q| % 4 == 0
    ensures DecodeQuads(q + t) == DecodeQuads(q) + DecodeQuads(t)
    decreases |q|
  {
    if q == [] {
      assert q + t == t;
    } else {
      var front, rest := [q[0], q[1], q[2], q[3]], q[4..];
      FirstFour(q);
      SignificantParts(front, rest);
      SignificantParts(rest, t);
      ConcatAssoc(front, rest, t);
      DecodeQuadsConcat(rest, t);
      OneQuadMore(q[0], q[1], q[2], q[3], rest, t);
    }
  }

  lemma OneQuadMore(a: Byte, b: Byte, c: Byte, d: Byte, rest: Bytes, t: Bytes)
    requires AllSignificant([a, b, c, d]) && AllSignificant(rest) && AllSignificant(t) && AllSignificant(rest + t)
    requires AllSignificant([a, b, c, d] + rest) && AllSignificant([a, b, c, d] + (rest + t))
    requires DecodeQuads(rest + t) == DecodeQuads(rest) + DecodeQuads(t)
    ensures DecodeQuads([a, b, c, d] + (rest + t)) == DecodeQuads([a, b, c, d] + rest) + DecodeQuads(t)
  {
    DecodeQuadsCons(a, b, c, d, rest);
    DecodeQuadsCons(a, b, c, d, rest + t);
    ConcatAssoc(DecodeQuad(a, b, c, d), DecodeQuads(rest), DecodeQuads(t));
  }

  /** Up to three characters behind the last whole group are dropped. */
  lemma DecodeDropsRest(b: Bytes, rest: Bytes)
    requires |rest| < 4 && forall c <- rest :: IsSymbol(c)
    ensures Decode(Encode(b) + rest) == b
  {
    var s := Encode(b);
    SignificantParts(s, rest);
    SignificantKeeps(s + rest);
    EncodeWhole(b);
    DecodeQuadsConcat(s, rest);
    DecodeQuadsEncode(b);
  }

  lemma EncodeWhole(b: Bytes)
    ensures |Encode(b)| % 4 == 0
  {
    EncodeLength(b);
  }

  /** Encoding loses nothing: two byte strings with the same text are the same. */
  lemma EncodeInjective(a: Bytes, b: Bytes)
    requires Encode(a) == Encode(b)
    ensures a == b
  {
    DecodeEncode(a);
    DecodeEncode(b);
  }

  /** Three of the examples in section 10 of RFC 4648, and one that uses the last two symbols. */
  lemma Examples()
    ensures Encode([102]) == [90, 103, PAD, PAD]                      // "f" is "Zg=="
    ensures Encode([102, 111]) == [90, 109, 56, PAD]                  // "fo" is "Zm8="
    ensures Encode([102, 111, 111]) == [90, 109, 57, 118]             // "foo" is "Zm9v"
    ensures Encode([251, 255]) == [43, 47, 56, PAD]                   // 0xfbff is "+/8="
  {
    assert [102 as Byte, 111, 111][3..] == [];
  }
}
