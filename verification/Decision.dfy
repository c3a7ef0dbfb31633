/** What verify_item and verify_target decide, from the digits of the mask, the engines and the bytes of the blobs. */
module Decision {
  import opened Common
  import opened Bits
  import opened Allowlist
  import opened Base64
  import opened Blob
  import opened Item
  import opened Engine
  import opened Verify
  import opened Verification

  // ---- one blob

  /** The kind is allowed and the engine at k is the first of it. */
  ghost predicate Serves(c: ContextV, kind: U32, k: nat)
  {
    && Allows(c.mask, kind)
    && k < |c.engines| && c.engines[k].kind == kind
    && forall j :: 0 <= j < k ==> c.engines[j].kind != kind
  }

  ghost predicate IsChecksum(c: ContextV, b: BlobV)
  {
    exists k: nat :: Serves(c, b.kind, k) && c.engines[k].cls.ChecksumClass?
  }

  lemma {:induction false} FirstOfKind(engines: seq<EngineV>, kind: U32)
    ensures FindEngine(engines, kind) == None <==> forall j :: 0 <= j < |engines| ==> engines[j].kind != kind
    ensures FindEngine(engines, kind).Some? ==>
              forall j :: 0 <= j < FindEngine(engines, kind).value ==> engines[j].kind != kind
  {
    if engines != [] { FirstOfKind(engines[..|engines| - 1], kind); }
  }

  /** An engine is found exactly when the kind's digit is set in the mask and the engine is the first of the kind. */
  lemma EngineIsExact(c: ContextV, kind: U32)
    ensures forall k: nat :: GetEngine(c, kind) == Some(k) <==> Serves(c, kind, k)
  {
    AllowedIsDigit(c.mask, kind);
    FirstOfKind(c.engines, kind);
  }

  lemma MethodIsExact(c: ContextV, b: BlobV)
    ensures HasMethod(c, b, Checksum) <==> IsChecksum(c, b)
    ensures HasMethod(c, b, Signature) <==> exists k: nat :: Serves(c, b.kind, k) && !c.engines[k].cls.ChecksumClass?
  {
    EngineIsExact(c, b.kind);
    if GetEngine(c, b.kind).Some? { assert Serves(c, b.kind, GetEngine(c, b.kind).value); }
  }

  /** verify_item ignores what is no allowed checksum, and compares every other with the digest of the data. */
  lemma ItemOutcome(env: Env, c: ContextV, data: Bytes, b: BlobV, flags: VerifyFlags)
    ensures ItemCheck(env, data, flags)(c, b).value
            == if !IsChecksum(c, b) then Ignored
               else if Content(b.data) == env.digest(b.kind, data) then Match(Result(b.kind, 0, None)) else Mismatch
  {
    MethodIsExact(c, b);
    ItemCheckOf(env, c, data, b, flags);
  }

  /** The text of a blob by bit zero of its flags: up to the first NUL, or Base64 of every byte. */
  ghost function TextOf(b: BlobV): Option<CString>
  {
    if b.flags % 2 == 0 then Some(Encode(Content(b.data)))
    else if b.data.NoBuffer? then None
    else Some(CutAtNul(b.data.bytes))
  }

  lemma TextIsExact(b: BlobV)
    ensures DataAsString(b) == TextOf(b)
  {}

  /**
   * verify_target ignores what is no allowed checksum and what the target does not hold exactly one blob of, and
   * compares the texts of the others.
   */
  lemma TargetOutcome(c: ContextV, target: ItemV, b: BlobV)
    ensures TargetCheck(target)(c, b).value.Ignored?
            <==> !IsChecksum(c, b) || !exists i: nat :: OnlyOfKind(target, b.kind, i)
    ensures forall i: nat :: IsChecksum(c, b) && OnlyOfKind(target, b.kind, i) ==>
              TargetCheck(target)(c, b).value
              == if TextOf(b) == TextOf(target.blobs[i]) then Match(Result(b.kind, 0, None)) else Mismatch
    ensures TargetCheck(target)(c, b).context == c
  {
    MethodIsExact(c, b);
    BlobByKindIsExact(target, b.kind);
    TextIsExact(b);
    forall i: nat | IsChecksum(c, b) && OnlyOfKind(target, b.kind, i)
      ensures TargetCheck(target)(c, b).value
              == if TextOf(b) == TextOf(target.blobs[i]) then Match(Result(b.kind, 0, None)) else Mismatch
    {
      TextIsExact(target.blobs[i]);
    }
  }

  /** The blob is a signature that its engine accepts over the data. */
  ghost predicate Signed(env: Env, c: ContextV, data: Bytes, b: BlobV, flags: VerifyFlags, r: Result)
  {
    exists k: nat :: Serves(c, b.kind, k) && Ready(env, c.fns, c.engines[k])
                     && Verifies(env, c.fns, c.engines[k], data, Content(b.data), flags, r)
  }

  lemma BlobSigned(env: Env, c: ContextV, data: Bytes, b: BlobV, flags: VerifyFlags, r: Result)
    ensures (HasMethod(c, b, Signature) && VerifyBlob(env, c, data, b, flags).value == Some(r))
            <==> Signed(env, c, data, b, flags, r)
  {
    EngineIsExact(c, b.kind);
    var k := GetEngine(c, b.kind);
    if k.Some? {
      assert Serves(c, b.kind, k.value);
      AnswerIsExact(env, c.fns, c.engines[k.value], data, Content(b.data), flags, r);
    }
  }

  lemma ItemSignature(env: Env, c: ContextV, data: Bytes, b: BlobV, flags: VerifyFlags, r: Result)
    ensures SignatureStep(env, c, b, ItemMessage(data), flags).value == Some(r) <==> Signed(env, c, data, b, flags, r)
  {
    BlobSigned(env, c, data, b, flags, r);
  }

  /** The signature is over the only blob of its target kind. */
  ghost predicate SignedTarget(env: Env, c: ContextV, target: ItemV, b: BlobV, flags: VerifyFlags, r: Result)
  {
    exists i: nat :: OnlyOfKind(target, b.target, i) && Signed(env, c, Content(target.blobs[i].data), b, flags, r)
  }

  lemma TargetSignature(env: Env, c: ContextV, target: ItemV, b: BlobV, flags: VerifyFlags, r: Result)
    ensures SignatureStep(env, c, b, TargetMessage(target), flags).value == Some(r)
            <==> SignedTarget(env, c, target, b, flags, r)
  {
    BlobByKindIsExact(target, b.target);
    forall i: nat | OnlyOfKind(target, b.target, i)
      ensures SignatureStep(env, c, b, TargetMessage(target), flags).value == Some(r)
              <==> Signed(env, c, Content(target.blobs[i].data), b, flags, r)
    {
      BlobSigned(env, c, Content(target.blobs[i].data), b, flags, r);
    }
  }

  /**
   * Self-verification succeeds exactly on the right checksum, or on a signature by the machine's own key, once setup
   * has ended well; GPG has none, and is not even set up for it.
   */
  lemma SelfVerifyIsExact(
    env: Env, fns: seq<Filename>, e: EngineV, data: Bytes, sig: Bytes, flags: VerifyFlags, r: Result)
    ensures SelfVerify(env, fns, e, data, sig, flags).value == Some(r)
            <==> Ready(env, fns, e) && r.kind == e.kind
                 && match e.cls
                    case ChecksumClass => sig == env.digest(e.kind, data) && r.timestamp == 0 && r.authority == None
                    case GpgClass => false
                    case _ =>
                      env.selfVerifyForeign(e.cls, data, sig, flags.other) == Some(Signer(r.timestamp, r.authority))
    ensures SelfVerify(env, fns, e, data, sig, flags).engine
            == if e.cls.GpgClass? then e else Setup(env, fns, e).engine
  {
    SetupLeaves(env, fns, e);
  }

  // ---- whole items

  ghost predicate IsSigned(env: Env, c: ContextV, data: Bytes, b: BlobV, flags: VerifyFlags)
  {
    exists r :: Signed(env, c, data, b, flags, r)
  }

  /** The result of a checksum blob. */
  ghost function ChecksumResult(c: ContextV, right: BlobV -> bool): BlobV -> Option<Result>
  {
    b => if IsChecksum(c, b) && right(b) then Some(Result(b.kind, 0, None)) else None
  }

  ghost function SignedResult(env: Env, c: ContextV, data: Bytes, flags: VerifyFlags): BlobV -> Option<Result>
  {
    b => if r :| Signed(env, c, data, b, flags, r) then Some(r) else None
  }

  /** verify_blob succeeds exactly on a right checksum and on a signature that its engine accepts. */
  lemma VerifyBlobIsExact(env: Env, c: ContextV, data: Bytes, b: BlobV, flags: VerifyFlags, r: Result)
    ensures VerifyBlob(env, c, data, b, flags).value == Some(r)
            <==> (IsChecksum(c, b) && RightDigest(env, data, b) && r == Result(b.kind, 0, None))
                 || Signed(env, c, data, b, flags, r)
  {
    MethodIsExact(c, b);
    ItemOutcome(env, c, data, b, flags);
    BlobSigned(env, c, data, b, flags, r);
  }

  ghost predicate RightDigest(env: Env, data: Bytes, b: BlobV)
  {
    Content(b.data) == env.digest(b.kind, data)
  }

  /** Every checksum is right, each required kind of result exists, and so does at least one result. */
  ghost predicate ItemPasses(env: Env, c: ContextV, data: Bytes, blobs: seq<BlobV>, flags: VerifyFlags)
  {
    && (forall b <- blobs :: IsChecksum(c, b) ==> RightDigest(env, data, b))
    && (flags.requireChecksum ==> exists b <- blobs :: IsChecksum(c, b))
    && (flags.requireSignature ==> exists b <- blobs :: IsSigned(env, c, data, b, flags))
    && (exists b <- blobs :: IsChecksum(c, b) || IsSigned(env, c, data, b, flags))
  }

  /** verify_item, from the mask, the engines, the digests and the keys. */
  lemma VerifyItemIsExact(env: Env, c: ContextV, data: Bytes, it: ItemV, flags: VerifyFlags)
    requires SettledContext(env, c)
    ensures VerifyItem(env, c, data, it, flags).value
            == if ItemPasses(env, c, data, it.blobs, flags)
               then Some(Collect(it.blobs, ChecksumResult(c, b => RightDigest(env, data, b)))
                         + Collect(it.blobs, SignedResult(env, c, data, flags)))
               else None
  {
    var f, msg := ItemCheck(env, data, flags), ItemMessage(data);
    VerifyItemByBlobs(env, c, data, it, flags);
    forall b | b in it.blobs
      ensures f(c, b).value.Mismatch? <==> IsChecksum(c, b) && !RightDigest(env, data, b)
      ensures CheckResult(env, c, f)(b) == ChecksumResult(c, b => RightDigest(env, data, b))(b)
      ensures Matches(c, f, b) <==> IsChecksum(c, b) && RightDigest(env, data, b)
    {
      ItemOutcome(env, c, data, b, flags);
    }
    forall b | b in it.blobs
      ensures SignatureResult(env, c, msg, flags)(b) == SignedResult(env, c, data, flags)(b)
      ensures Signs(env, c, msg, flags, b) <==> IsSigned(env, c, data, b, flags)
    {
      OneSignature(env, c, data, b, flags);
    }
    CollectSame(it.blobs, CheckResult(env, c, f), ChecksumResult(c, b => RightDigest(env, data, b)));
    CollectSame(it.blobs, SignatureResult(env, c, msg, flags), SignedResult(env, c, data, flags));
  }

  lemma OneSignature(env: Env, c: ContextV, data: Bytes, b: BlobV, flags: VerifyFlags)
    ensures SignatureStep(env, c, b, ItemMessage(data), flags).value == SignedResult(env, c, data, flags)(b)
    ensures SignatureStep(env, c, b, ItemMessage(data), flags).value.Some? <==> IsSigned(env, c, data, b, flags)
  {
    forall r ensures SignatureStep(env, c, b, ItemMessage(data), flags).value == Some(r)
                     <==> Signed(env, c, data, b, flags, r)
    {
      ItemSignature(env, c, data, b, flags, r);
    }
  }

  ghost predicate IsSignedTarget(env: Env, c: ContextV, target: ItemV, b: BlobV, flags: VerifyFlags)
  {
    exists r :: SignedTarget(env, c, target, b, flags, r)
  }

  ghost function SignedTargetResult(env: Env, c: ContextV, target: ItemV, flags: VerifyFlags): BlobV -> Option<Result>
  {
    b => if r :| SignedTarget(env, c, target, b, flags, r) then Some(r) else None
  }

  /** The target has one blob of the kind. */
  ghost predicate HasTarget(target: ItemV, kind: U32)
  {
    exists i: nat :: OnlyOfKind(target, kind, i)
  }

  ghost predicate RightText(target: ItemV, b: BlobV)
  {
    exists i: nat :: OnlyOfKind(target, b.kind, i) && TextOf(b) == TextOf(target.blobs[i])
  }

  /** A checksum that the target holds no single blob of is neither right nor wrong. */
  ghost predicate TargetPasses(env: Env, c: ContextV, target: ItemV, blobs: seq<BlobV>, flags: VerifyFlags)
  {
    && (forall b <- blobs :: IsChecksum(c, b) && HasTarget(target, b.kind) ==> RightText(target, b))
    && (flags.requireChecksum ==> exists b <- blobs :: IsChecksum(c, b) && HasTarget(target, b.kind))
    && (flags.requireSignature ==> exists b <- blobs :: IsSignedTarget(env, c, target, b, flags))
    && (exists b <- blobs ::
          (IsChecksum(c, b) && HasTarget(target, b.kind)) || IsSignedTarget(env, c, target, b, flags))
  }

  /** verify_target, from the mask, the engines, the texts and the keys. */
  lemma VerifyTargetIsExact(env: Env, c: ContextV, target: ItemV, it: ItemV, flags: VerifyFlags)
    requires SettledContext(env, c)
    ensures VerifyTarget(env, c, target, it, flags).value
            == if TargetPasses(env, c, target, it.blobs, flags)
               then Some(Collect(it.blobs, ChecksumResult(c, b => RightText(target, b)))
                         + Collect(it.blobs, SignedTargetResult(env, c, target, flags)))
               else None
  {
    var f, msg := TargetCheck(target), TargetMessage(target);
    VerifyTargetByBlobs(env, c, target, it, flags);
    forall b | b in it.blobs
      ensures f(c, b).value.Mismatch? <==> IsChecksum(c, b) && HasTarget(target, b.kind) && !RightText(target, b)
      ensures CheckResult(env, c, f)(b) == ChecksumResult(c, b => RightText(target, b))(b)
      ensures Matches(c, f, b) <==> IsChecksum(c, b) && RightText(target, b)
      ensures RightText(target, b) ==> HasTarget(target, b.kind)
    {
      OneTargetCheck(c, target, b);
    }
    forall b | b in it.blobs
      ensures SignatureResult(env, c, msg, flags)(b) == SignedTargetResult(env, c, target, flags)(b)
      ensures Signs(env, c, msg, flags, b) <==> IsSignedTarget(env, c, target, b, flags)
    {
      OneTargetSignature(env, c, target, b, flags);
    }
    CollectSame(it.blobs, CheckResult(env, c, f), ChecksumResult(c, b => RightText(target, b)));
    CollectSame(it.blobs, SignatureResult(env, c, msg, flags), SignedTargetResult(env, c, target, flags));
  }

  lemma OneTargetCheck(c: ContextV, target: ItemV, b: BlobV)
    ensures TargetCheck(target)(c, b).value
            == if !IsChecksum(c, b) || !HasTarget(target, b.kind) then Ignored
               else if RightText(target, b) then Match(Result(b.kind, 0, None)) else Mismatch
    ensures RightText(target, b) ==> HasTarget(target, b.kind)
  {
    TargetOutcome(c, target, b);
  }

  lemma OneTargetSignature(env: Env, c: ContextV, target: ItemV, b: BlobV, flags: VerifyFlags)
    ensures SignatureStep(env, c, b, TargetMessage(target), flags).value == SignedTargetResult(env, c, target, flags)(b)
    ensures SignatureStep(env, c, b, TargetMessage(target), flags).value.Some?
            <==> IsSignedTarget(env, c, target, b, flags)
  {
    forall r ensures SignatureStep(env, c, b, TargetMessage(target), flags).value == Some(r)
                     <==> SignedTarget(env, c, target, b, flags, r)
    {
      TargetSignature(env, c, target, b, flags, r);
    }
  }

  // ---- the allowlist

  ghost function AllowedOnly(mask: U32, blobs: seq<BlobV>): seq<BlobV>
  {
    if blobs == [] then []
    else
      var n := |blobs| - 1;
      AllowedOnly(mask, blobs[..n]) + (if Allows(mask, blobs[n].kind) then [blobs[n]] else [])
  }

  /** The rule leaves the mask alone and skips kinds that are not allowed; what matches is of the blob's kind. */
  ghost predicate Respects(f: CheckRule)
  {
    forall c, b ::
      && f(c, b).context.mask == c.mask
      && (!Allows(c.mask, b.kind) ==> f(c, b) == Ran(Ignored, c))
      && (f(c, b).value.Match? ==> f(c, b).value.result.kind == b.kind)
  }

  lemma ItemCheckRespects(env: Env, data: Bytes, flags: VerifyFlags)
    ensures Respects(ItemCheck(env, data, flags))
  {
    var f := ItemCheck(env, data, flags);
    forall c, b
      ensures f(c, b).context.mask == c.mask && (!Allows(c.mask, b.kind) ==> f(c, b) == Ran(Ignored, c))
              && (f(c, b).value.Match? ==> f(c, b).value.result.kind == b.kind)
    {
      AllowedIsDigit(c.mask, b.kind);
      ItemOutcome(env, c, data, b, flags);
      BlobRunsSetup(env, c, data, b, flags);
    }
  }

  lemma TargetCheckRespects(target: ItemV)
    ensures Respects(TargetCheck(target))
  {
    var f := TargetCheck(target);
    forall c, b
      ensures f(c, b).context.mask == c.mask && (!Allows(c.mask, b.kind) ==> f(c, b) == Ran(Ignored, c))
              && (f(c, b).value.Match? ==> f(c, b).value.result.kind == b.kind)
    {
      AllowedIsDigit(c.mask, b.kind);
      OneTargetCheck(c, target, b);
    }
  }

  /** Every result is of an allowed kind. */
  ghost predicate KindsAllowed(mask: U32, results: seq<Result>)
  {
    forall r <- results :: Allows(mask, r.kind)
  }

  lemma {:induction false} AllowedSnoc(mask: U32, blobs: seq<BlobV>, b: BlobV)
    ensures AllowedOnly(mask, blobs + [b])
            == if Allows(mask, b.kind) then AllowedOnly(mask, blobs) + [b] else AllowedOnly(mask, blobs)
  {
    assert (blobs + [b])[..|blobs|] == blobs;
    assert AllowedOnly(mask, blobs) + [] == AllowedOnly(mask, blobs);
  }

  lemma {:induction false} KindsSnoc(mask: U32, results: seq<Result>, r: Result)
    requires KindsAllowed(mask, results) && Allows(mask, r.kind)
    ensures KindsAllowed(mask, results + [r])
  {}

  lemma {:induction false} NextAllowed(front: Ran<Option<seq<Result>>>, b: BlobV, f: CheckRule)
    requires Respects(f) && (front.value.Some? ==> KindsAllowed(front.context.mask, front.value.value))
    ensures var r := CheckNext(front, b, f);
            && r.context.mask == front.context.mask && (!Allows(front.context.mask, b.kind) ==> r == front)
            && (r.value.Some? ==> KindsAllowed(r.context.mask, r.value.value))
  {
    var x := f(front.context, b);
    if front.value.Some? && x.value.Match? { KindsSnoc(front.context.mask, front.value.value, x.value.result); }
  }

  lemma {:induction false} ChecksOfAllowed(c: ContextV, blobs: seq<BlobV>, f: CheckRule)
    requires Respects(f)
    ensures var r := Checks(c, blobs, f);
            && r.context.mask == c.mask && r == Checks(c, AllowedOnly(c.mask, blobs), f)
            && (r.value.Some? ==> KindsAllowed(c.mask, r.value.value))
  {
    if blobs != [] {
      var front, b := blobs[..|blobs| - 1], blobs[|blobs| - 1];
      ChecksOfAllowed(c, front, f);
      NextAllowed(Checks(c, front, f), b, f);
      SplitLast(blobs);
      ChecksSnoc(c, front, b, f);
      AllowedSnoc(c.mask, front, b);
      ChecksSnoc(c, AllowedOnly(c.mask, front), b, f);
    }
  }

  lemma StepOfAllowed(env: Env, c: ContextV, b: BlobV, msg: Message, flags: VerifyFlags)
    ensures var r := SignatureStep(env, c, b, msg, flags);
            && r.context.mask == c.mask
            && (!Allows(c.mask, b.kind) ==> r == Ran(None, c))
            && (r.value.Some? ==> r.value.value.kind == b.kind)
  {
    AllowedIsDigit(c.mask, b.kind);
    MethodIsExact(c, b);
    if HasMethod(c, b, Signature) && msg(b).Some? {
      BlobRunsSetup(env, c, msg(b).value, b, flags);
      var r := VerifyBlob(env, c, msg(b).value, b, flags).value;
      if r.Some? { BlobSigned(env, c, msg(b).value, b, flags, r.value); }
    }
  }

  lemma {:induction false} SignatureNextAllowed(
    env: Env, front: Ran<seq<Result>>, b: BlobV, msg: Message, flags: VerifyFlags)
    requires KindsAllowed(front.context.mask, front.value)
    ensures var r := SignatureNext(env, front, b, msg, flags);
            && r.context.mask == front.context.mask && (!Allows(front.context.mask, b.kind) ==> r == front)
            && KindsAllowed(r.context.mask, r.value)
  {
    StepOfAllowed(env, front.context, b, msg, flags);
    assert front.value + [] == front.value;
    var r := SignatureStep(env, front.context, b, msg, flags).value;
    if r.Some? { KindsSnoc(front.context.mask, front.value, r.value); }
  }

  lemma {:induction false} SignaturesOfAllowed(
    env: Env, c: ContextV, blobs: seq<BlobV>, msg: Message, flags: VerifyFlags)
    ensures var r := Signatures(env, c, blobs, msg, flags);
            && r.context.mask == c.mask && r == Signatures(env, c, AllowedOnly(c.mask, blobs), msg, flags)
            && KindsAllowed(c.mask, r.value)
  {
    if blobs != [] {
      var front, b := blobs[..|blobs| - 1], blobs[|blobs| - 1];
      SignaturesOfAllowed(env, c, front, msg, flags);
      SignatureNextAllowed(env, Signatures(env, c, front, msg, flags), b, msg, flags);
      SplitLast(blobs);
      SignaturesSnoc(env, c, front, b, msg, flags);
      AllowedSnoc(c.mask, front, b);
      SignaturesSnoc(env, c, AllowedOnly(c.mask, front), b, msg, flags);
    }
  }

  lemma PassesOfAllowed(env: Env, c: ContextV, blobs: seq<BlobV>, f: CheckRule, msg: Message, flags: VerifyFlags)
    requires Respects(f)
    ensures var checks, fewer := Checks(c, blobs, f), Checks(c, AllowedOnly(c.mask, blobs), f);
            var r := SecondPass(env, checks.context, checks.value, blobs, msg, flags);
            && r == SecondPass(env, fewer.context, fewer.value, AllowedOnly(c.mask, blobs), msg, flags)
            && (r.value.Some? ==> KindsAllowed(c.mask, r.value.value))
  {
    ChecksOfAllowed(c, blobs, f);
    SignaturesOfAllowed(env, Checks(c, blobs, f).context, blobs, msg, flags);
  }

  /** With no blobs at all there is nothing to find. */
  lemma NoBlobsFail(env: Env, c: ContextV, f: CheckRule, msg: Message, flags: VerifyFlags)
    ensures SecondPass(env, Checks(c, [], f).context, Checks(c, [], f).value, [], msg, flags) == Ran(None, c)
  {
    assert Signatures(env, c, [], msg, flags) == Ran([], c);
  }

  /**
   * In any state, verify_item does exactly what it would without the blobs whose kind is not allowed, and returns no
   * result of such a kind.
   */
  lemma ItemObeysMask(env: Env, c: ContextV, data: Bytes, it: ItemV, flags: VerifyFlags)
    ensures var r := VerifyItem(env, c, data, it, flags);
            && r == VerifyItem(env, c, data, it.(blobs := AllowedOnly(c.mask, it.blobs)), flags)
            && (r.value.Some? ==> KindsAllowed(c.mask, r.value.value))
  {
    ItemCheckRespects(env, data, flags);
    PassesOfAllowed(env, c, it.blobs, ItemCheck(env, data, flags), ItemMessage(data), flags);
    NoBlobsFail(env, c, ItemCheck(env, data, flags), ItemMessage(data), flags);
  }

  /** And so does verify_target. */
  lemma TargetObeysMask(env: Env, c: ContextV, target: ItemV, it: ItemV, flags: VerifyFlags)
    ensures var r := VerifyTarget(env, c, target, it, flags);
            && r == VerifyTarget(env, c, target, it.(blobs := AllowedOnly(c.mask, it.blobs)), flags)
            && (r.value.Some? ==> KindsAllowed(c.mask, r.value.value))
  {
    TargetCheckRespects(target);
    PassesOfAllowed(env, c, it.blobs, TargetCheck(target), TargetMessage(target), flags);
    NoBlobsFail(env, c, TargetCheck(target), TargetMessage(target), flags);
  }

  /** After any trace of allows and disallows, results are of kinds that the set machine permits. */
  lemma TraceLimitsResults(
    trace: seq<Command>, env: Env, c: ContextV, data: Bytes, target: ItemV, it: ItemV, flags: VerifyFlags)
    requires ValidTrace(trace) && c.mask == MaskRun(trace)
    ensures var r, s := VerifyItem(env, c, data, it, flags).value, VerifyTarget(env, c, target, it, flags).value;
            && (r.Some? ==> forall x <- r.value :: x.kind in AbstractRun(trace))
            && (s.Some? ==> forall x <- s.value :: x.kind in AbstractRun(trace))
  {
    RunRefines(trace);
    ItemObeysMask(env, c, data, it, flags);
    TargetObeysMask(env, c, target, it, flags);
    forall kind: nat | Allows(c.mask, kind) ensures kind in AbstractRun(trace) {
      AllowedIsDigit(c.mask, kind);
      assert kind in Permitted(c.mask);
    }
  }
}
