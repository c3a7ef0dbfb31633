/** The transparency-log notes: checkpoints and verifier keys. */
module Notes {
  import opened Common
  import opened Base64
  import opened Text

  const NEWLINE: Byte := 10
  const SPACE: Byte := 32

  /** The em dash in UTF-8. */
  const DASH: CString := [0xE2, 0x80, 0x94]

  // ---- checkpoint

  datatype Checkpoint = Checkpoint(
    payload: Bytes, origin: CString, logSize: U32, pubkey: Bytes,
    identity: CString, hash: CString, signature: Bytes)

  function Payload(lines: seq<CString>): Bytes
    requires |lines| >= 3
  {
    lines[0] + [NEWLINE] + lines[1] + [NEWLINE] + lines[2] + [NEWLINE]
  }

  function ParseCheckpoint(blob: Bytes): Option<Checkpoint>
  {
    var lines := Split(CutAtNul(blob), NEWLINE, 0);
    if |lines| != 6 then None
    else
      var logSize := Strtoull(lines[1]);
      if logSize > MAXUINT32 then None
      else
        var pubkey := Decode(lines[2]);
        if |pubkey| != 32 then None
        else
          var sections := Split(lines[4], SPACE, 3);
          if |sections| != 3 || sections[0] != DASH then None
          else
            var sig := Decode(sections[2]);
            if |sig| != 64 + 4 then None
            else Some(Checkpoint(Payload(lines), lines[0], logSize, pubkey, sections[1], Hex(sig[..4]), sig[4..]))
  }

  class BtCheckpoint {
    var origin: CString
    var hash: CString
    var logSize: U32
    var blobPubkey: Bytes
    var identity: CString
    var blobSignature: Bytes
    var blobPayload: Bytes

    constructor Init()
    {
      origin, hash, logSize, blobPubkey, identity, blobSignature, blobPayload := [], [], 0, [], [], [], [];
    }

    ghost function View(): Checkpoint
      reads this
    {
      Checkpoint(blobPayload, origin, logSize, blobPubkey, identity, hash, blobSignature)
    }

    /** Returns null where the parser reports invalid data. */
    static method New(blob: Bytes) returns (r: BtCheckpoint?)
      ensures r == null <==> ParseCheckpoint(blob) == None
      ensures r != null ==> fresh(r) && Some(r.View()) == ParseCheckpoint(blob)
    {
      var self := new BtCheckpoint.Init();
      var lines := Split(CutAtNul(blob), NEWLINE, 0);
      if |lines| != 6 {
        return null;
      }
      var payload: Bytes := [];
      payload := payload + lines[0];
      assert payload == lines[0];
      payload := payload + [NEWLINE];
      payload := payload + lines[1];
      payload := payload + [NEWLINE];
      payload := payload + lines[2];
      payload := payload + [NEWLINE];
      self.blobPayload := payload;

      self.origin := lines[0];
      var logSizeTmp := Strtoull(lines[1]);
      if logSizeTmp > MAXUINT32 {
        return null;
      }
      self.logSize := logSizeTmp;

      var pubkey := Decode(lines[2]);
      if |pubkey| != 32 {
        return null;
      }
      self.blobPubkey := pubkey;

      var sections := Split(lines[4], SPACE, 3);
      if |sections| != 3 || sections[0] != DASH {
        return null;
      }
      self.identity := sections[1];
      var sig := Decode(sections[2]);
      if |sig| != 64 + 4 {
        return null;
      }
      self.hash := Hex(sig[..4]);
      self.blobSignature := sig[4..];
      return self;
    }
  }

  /** A checkpoint as a log writes it, with any text for the size. */
  ghost function CheckpointLines(origin: CString, size: CString, key: Bytes, identity: CString, hint: Bytes, sig: Bytes)
    : (lines: seq<CString>)
    ensures |lines| == 6
  {
    [origin, size, Encode(key), [], Join([DASH, identity, Encode(hint + sig)], SPACE), []]
  }

  ghost function PrintCheckpoint(origin: CString, size: CString, key: Bytes, identity: CString, hint: Bytes, sig: Bytes)
    : CString
  {
    Join(CheckpointLines(origin, size, key, identity, hint, sig), NEWLINE)
  }

  lemma EncodeHasNo(b: Bytes, c: Byte)
    requires !IsSymbol(c) && c != PAD
    ensures c !in Encode(b)
  {
    assert forall x <- Encode(b) :: x != c;
  }

  lemma Join3(a: CString, b: CString, c: CString, d: Byte)
    requires d != NUL
    ensures Join([a, b, c], d) == a + [d] + b + [d] + c
  {
    assert [a, b, c][1..] == [b, c] && [b, c][1..] == [c];
    assert Join([b, c], d) == b + [d] + c;
    assert a + [d] + (b + [d] + c) == a + [d] + b + [d] + c;
  }

  lemma ThreeParts(a: CString, b: CString, c: CString, d: Byte)
    requires d != NUL && d !in a && d !in b
    ensures Split(Join([a, b, c], d), d, 3) == [a, b, c]
  {
    var parts: seq<CString> := [a, b, c];
    Join3(a, b, c, d);
    TokensJoin(parts, d, 3);
  }

  ghost function FirstThree(origin: CString, size: CString, keyText: CString): Bytes
  {
    origin + [NEWLINE] + size + [NEWLINE] + keyText + [NEWLINE]
  }

  /**
   * A note of six lines whose fifth is a dash, an identity and a text is accepted exactly when the size converts to at
   * most 32 bits, the key text decodes to 32 bytes and the last text to 68; the fourth and sixth lines are free.
   */
  lemma CheckpointExact(blob: Bytes, origin: CString, size: CString, keyText: CString, blank: CString,
      identity: CString, sigText: CString, last: CString)
    requires forall part <- [origin, size, keyText, blank, identity, sigText, last] :: NEWLINE !in part
    requires SPACE !in identity
    requires CutAtNul(blob)
             == Join([origin, size, keyText, blank, Join([DASH, identity, sigText], SPACE), last], NEWLINE)
    ensures var key, sig := Decode(keyText), Decode(sigText);
            ParseCheckpoint(blob)
            == if Strtoull(size) <= MAXUINT32 && |key| == 32 && |sig| == 68
               then Some(Checkpoint(FirstThree(origin, size, keyText), origin, Strtoull(size), key, identity,
                                    Hex(sig[..4]), sig[4..]))
               else None
  {
    var parts := [origin, size, keyText, blank, identity, sigText, last];
    assert origin in parts && size in parts && keyText in parts && blank in parts;
    assert identity in parts && sigText in parts && last in parts;
    SignedLine(identity, sigText);
    SixParts(origin, size, keyText, blank, Join([DASH, identity, sigText], SPACE), last);
  }

  lemma SignedLine(identity: CString, sigText: CString)
    requires NEWLINE !in identity && SPACE !in identity && NEWLINE !in sigText
    ensures var line := Join([DASH, identity, sigText], SPACE);
            NEWLINE !in line && Split(line, SPACE, 3) == [DASH, identity, sigText]
  {
    ThreeParts(DASH, identity, sigText, SPACE);
    Join3(DASH, identity, sigText, SPACE);
  }

  lemma SixParts(a: CString, b: CString, c: CString, d: CString, e: CString, f: CString)
    requires forall part <- [a, b, c, d, e, f] :: NEWLINE !in part
    ensures Split(Join([a, b, c, d, e, f], NEWLINE), NEWLINE, 0) == [a, b, c, d, e, f]
  {
    var lines := [a, b, c, d, e, f];
    forall i | 0 <= i < |lines| ensures NEWLINE !in lines[i] {
      assert lines[i] in lines;
    }
    TokensJoin(lines, NEWLINE, 0);
    assert Join(lines, NEWLINE)[|a|] == NEWLINE;
  }

  /** With any text for the size, the converted size decides. */
  lemma CheckpointParses(origin: CString, size: CString, key: Bytes, identity: CString, hint: Bytes, sig: Bytes)
    requires NEWLINE !in origin && NEWLINE !in size && NEWLINE !in identity && SPACE !in identity
    requires |hint| == 4
    ensures var lines := CheckpointLines(origin, size, key, identity, hint, sig);
            ParseCheckpoint(PrintCheckpoint(origin, size, key, identity, hint, sig))
            == if Strtoull(size) <= MAXUINT32 && |key| == 32 && |sig| == 64
               then Some(Checkpoint(Payload(lines), origin, Strtoull(size), key, identity, Hex(hint), sig))
               else None
  {
    EncodeHasNo(key, NEWLINE);
    EncodeHasNo(hint + sig, NEWLINE);
    DecodeEncode(key);
    DecodeEncode(hint + sig);
    assert (hint + sig)[..4] == hint && (hint + sig)[4..] == sig;
    CheckpointExact(PrintCheckpoint(origin, size, key, identity, hint, sig), origin, size, Encode(key), [], identity,
                    Encode(hint + sig), []);
  }

  /**
   * Parsing inverts printing for every newline-free origin, space- and newline-free identity, and bytes of any
   * length: the note is accepted exactly when the size fits 32 bits, the key has 32 bytes and hint and
   * signature have 68, and then every field is what was printed.
   */
  lemma CheckpointRoundTrip(
    origin: CString, size: nat, key: Bytes, identity: CString, hint: Bytes, sig: Bytes)
    requires NEWLINE !in origin && NEWLINE !in identity && SPACE !in identity
    requires |hint| == 4
    ensures var lines := CheckpointLines(origin, Decimal(size), key, identity, hint, sig);
            ParseCheckpoint(PrintCheckpoint(origin, Decimal(size), key, identity, hint, sig))
            == if size <= MAXUINT32 && |key| == 32 && |sig| == 64
               then Some(Checkpoint(Payload(lines), origin, size, key, identity, Hex(hint), sig))
               else None
  {
    CheckpointParses(origin, Decimal(size), key, identity, hint, sig);
    StrtoullOfDigits(Decimal(size));
    DecimalValueOfDecimal(size);
  }

  /**
   * With a minus sign the bound is no protection: the size is negated modulo 2^64, so that small sizes are refused, and
   * every number past 64 bits is accepted as size 1.
   */
  lemma NegativeSizeWraps(
    origin: CString, digits: CString, key: Bytes, identity: CString, hint: Bytes, sig: Bytes)
    requires NEWLINE !in origin && NEWLINE !in identity && SPACE !in identity
    requires |hint| == 4 && |key| == 32 && |sig| == 64 && AllDigits(digits)
    ensures var r := ParseCheckpoint(PrintCheckpoint(origin, [MINUS] + digits, key, identity, hint, sig));
            var n := DecimalValue(digits);
            && (r.Some? <==> n == 0 || n >= 0x1_0000_0000_0000_0000 - MAXUINT32)
            && (n >= MAXUINT64 ==> r.Some? && r.value.logSize == 1)
  {
    NegativeSize(digits);
    var size: CString := [MINUS] + digits;
    CheckpointParses(origin, size, key, identity, hint, sig);
  }

  lemma NegativeSize(digits: CString)
    requires AllDigits(digits)
    ensures NEWLINE !in [MINUS] + digits && NUL !in [MINUS] + digits
    ensures var size, n := Strtoull([MINUS] + digits), DecimalValue(digits);
            && (size <= MAXUINT32 <==> n == 0 || n >= 0x1_0000_0000_0000_0000 - MAXUINT32)
            && (n >= MAXUINT64 ==> size == 1)
  {
    StrtoullOfNegative(digits);
    assert NEWLINE !in digits;
  }

  ghost function Count(s: Bytes, c: Byte): nat
  {
    if s == [] then 0 else (if s[0] == c then 1 else 0) + Count(s[1..], c)
  }

  lemma {:induction false} CountConcat(s: Bytes, t: Bytes, c: Byte)
    ensures Count(s + t, c) == Count(s, c) + Count(t, c)
    decreases |s|
  {
    if s == [] {
      assert s + t == t;
    } else {
      assert (s + t)[1..] == s[1..] + t;
      CountConcat(s[1..], t, c);
    }
  }

  lemma {:induction false} CountNone(s: Bytes, c: Byte)
    requires c !in s
    ensures Count(s, c) == 0
  {
    if s != [] { CountNone(s[1..], c); }
  }

  /** A line with its newline has exactly one newline. */
  lemma CountLine(line: Bytes)
    requires NEWLINE !in line
    ensures Count(line + [NEWLINE], NEWLINE) == 1
  {
    CountNone(line, NEWLINE);
    CountConcat(line, [NEWLINE], NEWLINE);
  }

  lemma JoinStep(parts: seq<CString>, i: nat)
    requires i + 1 < |parts|
    ensures Join(parts[i..], NEWLINE) == (parts[i] + [NEWLINE]) + Join(parts[i + 1..], NEWLINE)
  {
    assert parts[i..][1..] == parts[i + 1..];
  }

  lemma PayloadOfJoin(lines: seq<CString>)
    requires |lines| > 3
    ensures Payload(lines) == ((lines[0] + [NEWLINE]) + (lines[1] + [NEWLINE])) + (lines[2] + [NEWLINE])
    ensures Join(lines, NEWLINE) == Payload(lines) + Join(lines[3..], NEWLINE)
  {
    var l0, l1, l2 := lines[0] + [NEWLINE], lines[1] + [NEWLINE], lines[2] + [NEWLINE];
    var tail := Join(lines[3..], NEWLINE);
    JoinStep(lines, 0);
    JoinStep(lines, 1);
    JoinStep(lines, 2);
    assert lines[0..] == lines;
    ConcatAssoc(l1, l2, tail);
    ConcatAssoc(l0, l1 + l2, tail);
    ConcatAssoc(l0, l1, l2);
    ConcatAssoc(lines[0] + [NEWLINE], lines[1], [NEWLINE]);
    ConcatAssoc(l0 + l1, lines[2], [NEWLINE]);
  }

  /** The signed payload of an accepted note is the text of the note through its third newline. */
  lemma PayloadIsPrefix(blob: Bytes)
    requires ParseCheckpoint(blob).Some?
    ensures var payload := ParseCheckpoint(blob).value.payload;
            payload <= CutAtNul(blob) && Count(payload, NEWLINE) == 3 && payload[|payload| - 1] == NEWLINE
  {
    var text := CutAtNul(blob);
    var lines := Split(text, NEWLINE, 0);
    JoinTokens(text, NEWLINE, 0);
    assert NEWLINE !in lines[0] && NEWLINE !in lines[1] && NEWLINE !in lines[2];
    var l0, l1, l2 := lines[0] + [NEWLINE], lines[1] + [NEWLINE], lines[2] + [NEWLINE];
    PayloadOfJoin(lines);
    CountLine(lines[0]); CountLine(lines[1]); CountLine(lines[2]);
    CountConcat(l0, l1, NEWLINE);
    CountConcat(l0 + l1, l2, NEWLINE);
  }

  /**
   * The converse of the round trip: an accepted note has five newlines, its fifth line is a dash, the identity and the
   * signature text, and every field is what the note says it is.
   */
  lemma CheckpointAccepted(blob: Bytes)
    returns (size: CString, keyText: CString, blank: CString, sigText: CString, last: CString, hint: Bytes)
    requires ParseCheckpoint(blob).Some?
    ensures var c := ParseCheckpoint(blob).value;
            && CutAtNul(blob)
               == Join([c.origin, size, keyText, blank, Join([DASH, c.identity, sigText], SPACE), last], NEWLINE)
            && (forall line <- [c.origin, size, keyText, blank, last] :: NEWLINE !in line) && SPACE !in c.identity
            && c.logSize == Strtoull(size) && Decode(keyText) == c.pubkey && |c.pubkey| == 32
            && Decode(sigText) == hint + c.signature && |hint| == 4 && |c.signature| == 64 && c.hash == Hex(hint)
  {
    var lines := Split(CutAtNul(blob), NEWLINE, 0);
    var sections := Split(lines[4], SPACE, 3);
    SixLines(CutAtNul(blob));
    ThreeSections(lines[4], SPACE);
    size, keyText, blank, last := lines[1], lines[2], lines[3], lines[5];
    sigText, hint := sections[2], Decode(sections[2])[..4];
  }

  lemma SixLines(text: CString)
    requires |Split(text, NEWLINE, 0)| == 6
    ensures var l := Split(text, NEWLINE, 0);
            && text == Join([l[0], l[1], l[2], l[3], l[4], l[5]], NEWLINE)
            && forall line <- l :: NEWLINE !in line
  {
    var l := Split(text, NEWLINE, 0);
    JoinTokens(text, NEWLINE, 0);
    assert l == [l[0], l[1], l[2], l[3], l[4], l[5]];
  }

  lemma ThreeSections(line: CString, d: Byte)
    requires d != NUL && |Split(line, d, 3)| == 3
    ensures var s := Split(line, d, 3);
            line == Join([s[0], s[1], s[2]], d) && d !in s[0] && d !in s[1]
  {
    var s := Split(line, d, 3);
    JoinTokens(line, d, 3);
    assert s == [s[0], s[1], s[2]];
  }

  /** A size line of digits, however long, is only ever accepted with its exact value. */
  lemma SizeIsExact(blob: Bytes)
    requires ParseCheckpoint(blob).Some?
    requires AllDigits(Split(CutAtNul(blob), NEWLINE, 0)[1])
    ensures ParseCheckpoint(blob).value.logSize == DecimalValue(Split(CutAtNul(blob), NEWLINE, 0)[1])
  {
    StrtoullOfDigits(Split(CutAtNul(blob), NEWLINE, 0)[1]);
  }

  // ---- verifier

  datatype Verifier = Verifier(name: CString, hash: CString, alg: Byte, key: Bytes)

  function ParseVerifier(blob: Bytes): Option<Verifier>
  {
    var sections := Split(CutAtNul(blob), PLUS, 3);
    if |sections| != 3 then None
    else
      var raw := Decode(sections[2]);
      if |raw| != 33 then None else Some(Verifier(sections[0], sections[1], raw[0], raw[1..]))
  }

  class BtVerifier {
    var name: CString
    var hash: CString
    var alg: Byte
    var blobKey: Bytes

    constructor Init()
    {
      name, hash, alg, blobKey := [], [], 0, [];
    }

    ghost function View(): Verifier
      reads this
    {
      Verifier(name, hash, alg, blobKey)
    }

    /** Returns null where the parser reports invalid data. */
    static method New(blob: Bytes) returns (r: BtVerifier?)
      ensures r == null <==> ParseVerifier(blob) == None
      ensures r != null ==> fresh(r) && Some(r.View()) == ParseVerifier(blob)
    {
      var self := new BtVerifier.Init();
      var sections := Split(CutAtNul(blob), PLUS, 3);
      if |sections| != 3 {
        return null;
      }
      self.name := sections[0];
      self.hash := sections[1];
      var raw := Decode(sections[2]);
      if |raw| != 33 {
        return null;
      }
      self.alg := raw[0];
      self.blobKey := raw[1..];
      return self;
    }
  }

  ghost function PrintVerifier(name: CString, hash: CString, alg: Byte, key: Bytes): CString
  {
    name + [PLUS] + hash + [PLUS] + Encode([alg] + key)
  }

  lemma VerifierSplits(name: CString, hash: CString, encoded: CString, tail: CString)
    requires PLUS !in name && PLUS !in hash
    ensures NUL !in name + [PLUS] + hash + [PLUS] + encoded + tail
    ensures Split(name + [PLUS] + hash + [PLUS] + encoded + tail, PLUS, 3) == [name, hash, encoded + tail]
  {
    var last: CString := encoded + tail;
    Join3(name, hash, last, PLUS);
    ConcatAssoc(name + [PLUS] + hash + [PLUS], encoded, tail);
    ThreeParts(name, hash, last, PLUS);
  }

  /**
   * Parsing inverts printing for every algorithm byte when name and hash have no plus sign, although the Base64
   * text can: the split stops at three pieces.  A trailing newline, or any other text outside the
   * Base64 alphabet, changes nothing.
   */
  lemma VerifierRoundTrip(name: CString, hash: CString, alg: Byte, key: Bytes, tail: CString)
    requires PLUS !in name && PLUS !in hash
    requires forall c <- tail :: !IsSymbol(c) && c != PAD
    ensures ParseVerifier(PrintVerifier(name, hash, alg, key) + tail)
            == if |key| == 32 then Some(Verifier(name, hash, alg, key)) else None
  {
    var last: CString := Encode([alg] + key) + tail;
    VerifierSplits(name, hash, Encode([alg] + key), tail);
    DecodeIgnoresTail([alg] + key, tail);
    assert ([alg] + key)[1..] == key;
  }

  /** Three parts joined by plus signs are accepted exactly when the last decodes to an algorithm byte and a key. */
  lemma VerifierExact(blob: Bytes, name: CString, hash: CString, text: CString)
    requires PLUS !in name && PLUS !in hash && CutAtNul(blob) == Join([name, hash, text], PLUS)
    ensures var raw := Decode(text);
            ParseVerifier(blob) == if |raw| == 33 then Some(Verifier(name, hash, raw[0], raw[1..])) else None
  {
    ThreeParts(name, hash, text, PLUS);
  }

  /** The converse: an accepted note is a name, a hash and a text joined by plus signs that decodes to the key. */
  lemma VerifierAccepted(blob: Bytes) returns (text: CString)
    requires ParseVerifier(blob).Some?
    ensures var v := ParseVerifier(blob).value;
            && CutAtNul(blob) == Join([v.name, v.hash, text], PLUS)
            && PLUS !in v.name && PLUS !in v.hash
            && Decode(text) == [v.alg] + v.key && |v.key| == 32
  {
    var sections := Split(CutAtNul(blob), PLUS, 3);
    ThreeSections(CutAtNul(blob), PLUS);
    text := sections[2];
  }
}
