/** What verify_item and verify_target decide, apart from the order in which engines happen to load their keys. */
module Verification {
  import opened Common
  import opened Allowlist
  import opened Blob
  import opened Item
  import opened Engine
  import opened Verify

  // ---- collecting results

  ghost function Collect<A, B>(xs: seq<A>, f: A -> Option<B>): seq<B>
  {
    if xs == [] then []
    else
      var n := |xs| - 1;
      Collect(xs[..n], f) + (if f(xs[n]).Some? then [f(xs[n]).value] else [])
  }

  lemma CollectSnoc<A, B>(xs: seq<A>, x: A, f: A -> Option<B>)
    ensures Collect(xs + [x], f) == Collect(xs, f) + (if f(x).Some? then [f(x).value] else [])
  {
    assert (xs + [x])[..|xs|] == xs;
  }

  lemma {:induction false} CollectConcat<A, B>(xs: seq<A>, ys: seq<A>, f: A -> Option<B>)
    ensures Collect(xs + ys, f) == Collect(xs, f) + Collect(ys, f)
    decreases |ys|
  {
    if ys == [] {
      assert xs + ys == xs;
    } else {
      var n := |ys| - 1;
      SplitLast(ys);
      ConcatAssoc(xs, ys[..n], [ys[n]]);
      CollectSnoc(xs + ys[..n], ys[n], f);
      CollectConcat(xs, ys[..n], f);
    }
  }

  lemma {:induction false} CollectEmpty<A, B>(xs: seq<A>, f: A -> Option<B>)
    ensures Collect(xs, f) == [] <==> forall x <- xs :: f(x) == None
  {
    if xs != [] {
      SplitLast(xs);
      CollectEmpty(xs[..|xs| - 1], f);
    }
  }

  lemma {:induction false} CollectSame<A, B>(xs: seq<A>, f: A -> Option<B>, g: A -> Option<B>)
    requires forall x <- xs :: f(x) == g(x)
    ensures Collect(xs, f) == Collect(xs, g)
  {
    if xs != [] {
      SplitLast(xs);
      CollectSame(xs[..|xs| - 1], f, g);
    }
  }

  lemma {:induction false} CollectPermuted<A, B>(xs: seq<A>, ys: seq<A>, f: A -> Option<B>)
    requires multiset(xs) == multiset(ys)
    ensures multiset(Collect(xs, f)) == multiset(Collect(ys, f))
    decreases |xs|
  {
    if xs == [] {
      assert |multiset(ys)| == 0;
    } else {
      var n := |xs| - 1;
      var x := xs[n];
      SplitLast(xs);
      var i := PositionOf(xs, ys, x);
      var rest := ys[..i] + ys[i + 1..];
      RemoveAt(ys, i);
      CollectPermuted(xs[..n], rest, f);
      CollectConcat(ys[..i], ys[i + 1..], f);
      CollectSnoc(ys[..i], x, f);
      CollectConcat(ys[..i] + [x], ys[i + 1..], f);
    }
  }

  lemma PositionOf<A>(xs: seq<A>, ys: seq<A>, x: A) returns (i: nat)
    requires multiset(xs) == multiset(ys) && x in xs
    ensures i < |ys| && ys[i] == x
  {
    assert x in multiset(ys);
    i :| 0 <= i < |ys| && ys[i] == x;
  }

  lemma RemoveAt<A>(ys: seq<A>, i: nat)
    requires i < |ys|
    ensures ys == (ys[..i] + [ys[i]]) + ys[i + 1..]
    ensures multiset(ys[..i] + ys[i + 1..]) == multiset(ys) - multiset{ys[i]}
  {
    assert ys == (ys[..i] + [ys[i]]) + ys[i + 1..];
  }

  // ---- which engine a blob goes to

  /** Nothing about two contexts differs but what their engines have loaded. */
  ghost predicate SameShape(c: ContextV, d: ContextV)
  {
    c.mask == d.mask && c.fns == d.fns && |c.engines| == |d.engines|
    && forall k :: 0 <= k < |c.engines| ==>
         c.engines[k].kind == d.engines[k].kind && c.engines[k].cls == d.engines[k].cls
  }

  lemma {:induction false} FindSame(es: seq<EngineV>, fs: seq<EngineV>, kind: U32)
    requires |es| == |fs| && forall k :: 0 <= k < |es| ==> es[k].kind == fs[k].kind
    ensures FindEngine(es, kind) == FindEngine(fs, kind)
  {
    if es != [] { FindSame(es[..|es| - 1], fs[..|fs| - 1], kind); }
  }

  lemma ShapeDecides(c: ContextV, d: ContextV, b: BlobV)
    requires SameShape(c, d)
    ensures GetEngine(c, b.kind) == GetEngine(d, b.kind)
    ensures forall m :: HasMethod(c, b, m) == HasMethod(d, b, m)
  {
    FindSame(c.engines, d.engines, b.kind);
  }

  lemma SetupKeepsShape(env: Env, fns: seq<Filename>, e: EngineV)
    ensures var e' := Setup(env, fns, e).engine; e'.kind == e.kind && e'.cls == e.cls
    ensures e.cls.ChecksumClass? ==> Setup(env, fns, e).value
  {}

  /** Every verification leaves the engine it asked in the state after setup. */
  lemma BlobRunsSetup(env: Env, c: ContextV, data: Bytes, b: BlobV, flags: VerifyFlags)
    ensures var r := VerifyBlob(env, c, data, b, flags).context;
            r == match GetEngine(c, b.kind)
                 case None => c
                 case Some(k) => WithEngine(c, k, Setup(env, c.fns, c.engines[k]).engine)
    ensures SameShape(c, VerifyBlob(env, c, data, b, flags).context)
  {
    var k := GetEngine(c, b.kind);
    if k.Some? { SetupKeepsShape(env, c.fns, c.engines[k.value]); }
  }

  // ---- verdicts that do not depend on what has been loaded

  /** Some blob kind leads to the engine at k. */
  ghost predicate Reached(c: ContextV, k: nat)
  {
    k < |c.engines| && GetEngine(c, c.engines[k].kind) == Some(k)
  }

  ghost predicate SettledContext(env: Env, c: ContextV)
  {
    forall k: nat :: Reached(c, k) ==> Settled(env, c.fns, c.engines[k])
  }

  /** Two states of one engine that give the same answers. */
  ghost predicate SameAnswers(env: Env, fns: seq<Filename>, e: EngineV, f: EngineV)
  {
    e.kind == f.kind && e.cls == f.cls && Settled(env, fns, f)
    && forall data, sig, flags ::
      PubkeyVerify(env, fns, f, data, sig, flags).value == PubkeyVerify(env, fns, e, data, sig, flags).value
  }

  ghost predicate SameVerdicts(env: Env, c: ContextV, d: ContextV)
  {
    SameShape(c, d) && forall k: nat :: Reached(c, k) ==> SameAnswers(env, c.fns, c.engines[k], d.engines[k])
  }

  lemma SetupSameAnswers(env: Env, fns: seq<Filename>, e: EngineV, f: EngineV)
    requires SameAnswers(env, fns, e, f)
    ensures SameAnswers(env, fns, e, Setup(env, fns, f).engine)
  {
    var g := Setup(env, fns, f).engine;
    forall data, sig, flags
      ensures PubkeyVerify(env, fns, g, data, sig, flags).value == PubkeyVerify(env, fns, e, data, sig, flags).value
    {
      SetupKeepsVerdict(env, fns, f, data, sig, flags);
    }
    SetupKeepsVerdict(env, fns, f, [], [], VerifyFlags(false, false, 0));
  }

  lemma SettledIsSame(env: Env, c: ContextV)
    requires SettledContext(env, c)
    ensures SameVerdicts(env, c, c)
  {
    forall k: nat | Reached(c, k) ensures SameAnswers(env, c.fns, c.engines[k], c.engines[k]) {}
  }

  /** A verification gives the same answer from either state, and afterwards every engine still answers the same. */
  lemma BlobSame(env: Env, c: ContextV, d: ContextV, data: Bytes, b: BlobV, flags: VerifyFlags)
    requires SameVerdicts(env, c, d)
    ensures VerifyBlob(env, d, data, b, flags).value == VerifyBlob(env, c, data, b, flags).value
    ensures SameVerdicts(env, c, VerifyBlob(env, d, data, b, flags).context)
  {
    ShapeDecides(c, d, b);
    BlobRunsSetup(env, d, data, b, flags);
    var k := GetEngine(d, b.kind);
    if k.Some? {
      var e, f := c.engines[k.value], d.engines[k.value];
      assert Reached(c, k.value) && SameAnswers(env, c.fns, e, f);
      SetupSameAnswers(env, c.fns, e, f);
      SetupKeepsShape(env, c.fns, e);
      SetupKeepsShape(env, c.fns, f);
    }
  }

  /** The calls a program can make between two verifications, keys and allowlist staying as they are. */
  ghost function AfterCalls(env: Env, c: ContextV, calls: seq<(Bytes, BlobV, VerifyFlags)>): ContextV
  {
    if calls == [] then c
    else
      var (data, b, flags) := calls[|calls| - 1];
      VerifyBlob(env, AfterCalls(env, c, calls[..|calls| - 1]), data, b, flags).context
  }

  /** Whatever has been verified before, every engine of a settled context still answers the same. */
  lemma {:induction false} CallsKeepVerdicts(env: Env, c: ContextV, calls: seq<(Bytes, BlobV, VerifyFlags)>)
    requires SettledContext(env, c)
    ensures SameVerdicts(env, c, AfterCalls(env, c, calls))
  {
    if calls == [] {
      SettledIsSame(env, c);
    } else {
      var (data, b, flags) := calls[|calls| - 1];
      CallsKeepVerdicts(env, c, calls[..|calls| - 1]);
      BlobSame(env, c, AfterCalls(env, c, calls[..|calls| - 1]), data, b, flags);
    }
  }

  // ---- the passes without their state

  ghost function CheckResult(env: Env, c: ContextV, f: CheckRule): BlobV -> Option<Result>
  {
    b => var r := f(c, b).value; if r.Match? then Some(r.result) else None
  }

  ghost function SignatureResult(env: Env, c: ContextV, msg: Message, flags: VerifyFlags): BlobV -> Option<Result>
  {
    b => SignatureStep(env, c, b, msg, flags).value
  }

  ghost predicate NoMismatch(c: ContextV, blobs: seq<BlobV>, f: CheckRule)
  {
    forall b <- blobs :: !f(c, b).value.Mismatch?
  }

  lemma NoMismatchSnoc(c: ContextV, blobs: seq<BlobV>, b: BlobV, f: CheckRule)
    ensures NoMismatch(c, blobs + [b], f) <==> NoMismatch(c, blobs, f) && !f(c, b).value.Mismatch?
  {
    assert forall x :: x in blobs + [b] <==> x in blobs || x == b;
  }

  /** The rule answers the same from states with the same verdicts. */
  ghost predicate Insensitive(env: Env, c: ContextV, f: CheckRule)
  {
    forall d, b :: SameVerdicts(env, c, d) ==> f(d, b).value == f(c, b).value && SameVerdicts(env, c, f(d, b).context)
  }

  lemma ItemCheckInsensitive(env: Env, c: ContextV, data: Bytes, flags: VerifyFlags)
    ensures Insensitive(env, c, ItemCheck(env, data, flags))
  {
    var f := ItemCheck(env, data, flags);
    forall d, b | SameVerdicts(env, c, d)
      ensures f(d, b).value == f(c, b).value && SameVerdicts(env, c, f(d, b).context)
    {
      ShapeDecides(c, d, b);
      BlobSame(env, c, d, data, b, flags);
    }
  }

  lemma TargetCheckInsensitive(env: Env, c: ContextV, target: ItemV)
    ensures Insensitive(env, c, TargetCheck(target))
  {
    var f := TargetCheck(target);
    forall d, b | SameVerdicts(env, c, d)
      ensures f(d, b).value == f(c, b).value && SameVerdicts(env, c, f(d, b).context)
    {
      ShapeDecides(c, d, b);
    }
  }

  lemma ChecksCollectNext(env: Env, c: ContextV, front: Ran<Option<seq<Result>>>, b: BlobV, f: CheckRule)
    requires SameVerdicts(env, c, front.context) && Insensitive(env, c, f)
    ensures var r := CheckNext(front, b, f);
            && SameVerdicts(env, c, r.context)
            && r.value == if front.value == None || f(c, b).value.Mismatch? then None
                          else Some(front.value.value + Optional(CheckResult(env, c, f)(b)))
  {
    assert f(front.context, b).value == f(c, b).value;
    if front.value.Some? { assert front.value.value + [] == front.value.value; }
  }

  lemma {:induction false} ChecksCollect(env: Env, c: ContextV, d: ContextV, blobs: seq<BlobV>, f: CheckRule)
    requires SameVerdicts(env, c, d) && Insensitive(env, c, f)
    ensures Checks(d, blobs, f).value
            == if NoMismatch(c, blobs, f) then Some(Collect(blobs, CheckResult(env, c, f))) else None
    ensures SameVerdicts(env, c, Checks(d, blobs, f).context)
  {
    if blobs != [] {
      var n := |blobs| - 1;
      SplitLast(blobs);
      NoMismatchSnoc(c, blobs[..n], blobs[n], f);
      ChecksCollect(env, c, d, blobs[..n], f);
      ChecksCollectNext(env, c, Checks(d, blobs[..n], f), blobs[n], f);
    }
  }

  lemma {:induction false} SignaturesCollect(env: Env, c: ContextV, d: ContextV, blobs: seq<BlobV>,
      msg: Message, flags: VerifyFlags)
    requires SameVerdicts(env, c, d)
    ensures Signatures(env, d, blobs, msg, flags).value == Collect(blobs, SignatureResult(env, c, msg, flags))
    ensures SameVerdicts(env, c, Signatures(env, d, blobs, msg, flags).context)
  {
    if blobs != [] {
      var n := |blobs| - 1;
      SignaturesCollect(env, c, d, blobs[..n], msg, flags);
      var e := Signatures(env, d, blobs[..n], msg, flags).context;
      ShapeDecides(c, e, blobs[n]);
      if msg(blobs[n]).Some? { BlobSame(env, c, e, msg(blobs[n]).value, blobs[n], flags); }
    }
  }

  /** The decision as a function of the answers for single blobs. */
  ghost function Decision(env: Env, c: ContextV, blobs: seq<BlobV>, f: CheckRule, msg: Message, flags: VerifyFlags)
    : Option<seq<Result>>
  {
    var checks, sigs := Collect(blobs, CheckResult(env, c, f)), Collect(blobs, SignatureResult(env, c, msg, flags));
    if !NoMismatch(c, blobs, f) || (flags.requireChecksum && checks == []) then None
    else Finish(checks, sigs, flags)
  }

  lemma RunIsDecision(env: Env, c: ContextV, d: ContextV, blobs: seq<BlobV>, f: CheckRule, msg: Message,
      flags: VerifyFlags)
    requires SameVerdicts(env, c, d) && Insensitive(env, c, f)
    ensures var checks := Checks(d, blobs, f);
            SecondPass(env, checks.context, checks.value, blobs, msg, flags).value
                == Decision(env, c, blobs, f, msg, flags)
  {
    ChecksCollect(env, c, d, blobs, f);
    SignaturesCollect(env, c, Checks(d, blobs, f).context, blobs, msg, flags);
  }

  // ---- what both functions decide

  ghost predicate Matches(c: ContextV, f: CheckRule, b: BlobV)
  {
    f(c, b).value.Match?
  }

  ghost predicate Signs(env: Env, c: ContextV, msg: Message, flags: VerifyFlags, b: BlobV)
  {
    SignatureStep(env, c, b, msg, flags).value.Some?
  }

  /** The results of both passes, in blob order. */
  ghost function AllResults(env: Env, c: ContextV, blobs: seq<BlobV>, f: CheckRule, msg: Message, flags: VerifyFlags)
    : seq<Result>
  {
    Collect(blobs, CheckResult(env, c, f)) + Collect(blobs, SignatureResult(env, c, msg, flags))
  }

  /** No checksum mismatches, each required kind of result exists, and so does at least one result. */
  ghost predicate Acceptable(env: Env, c: ContextV, blobs: seq<BlobV>, f: CheckRule, msg: Message, flags: VerifyFlags)
  {
    && NoMismatch(c, blobs, f)
    && (flags.requireChecksum ==> exists b <- blobs :: Matches(c, f, b))
    && (flags.requireSignature ==> exists b <- blobs :: Signs(env, c, msg, flags, b))
    && (exists b <- blobs :: Matches(c, f, b) || Signs(env, c, msg, flags, b))
  }

  lemma DecisionIsExact(env: Env, c: ContextV, blobs: seq<BlobV>, f: CheckRule, msg: Message, flags: VerifyFlags)
    ensures Decision(env, c, blobs, f, msg, flags)
            == if Acceptable(env, c, blobs, f, msg, flags) then Some(AllResults(env, c, blobs, f, msg, flags)) else None
  {
    CollectEmpty(blobs, CheckResult(env, c, f));
    CollectEmpty(blobs, SignatureResult(env, c, msg, flags));
    assert forall b <- blobs :: CheckResult(env, c, f)(b).Some? <==> Matches(c, f, b);
    assert forall b <- blobs :: SignatureResult(env, c, msg, flags)(b).Some? <==> Signs(env, c, msg, flags, b);
  }

  /**
   * For every list of blobs, verify_item succeeds exactly when no allowed checksum mismatches, each required kind of
   * result exists and at least one result does; the results are the checksums in blob order and then the
   * signatures that verified in blob order.
   */
  lemma VerifyItemByBlobs(env: Env, c: ContextV, data: Bytes, it: ItemV, flags: VerifyFlags)
    requires SettledContext(env, c)
    ensures var f, msg := ItemCheck(env, data, flags), ItemMessage(data);
            VerifyItem(env, c, data, it, flags).value
            == if Acceptable(env, c, it.blobs, f, msg, flags)
               then Some(AllResults(env, c, it.blobs, f, msg, flags)) else None
  {
    SettledIsSame(env, c);
    ItemCheckInsensitive(env, c, data, flags);
    RunIsDecision(env, c, c, it.blobs, ItemCheck(env, data, flags), ItemMessage(data), flags);
    DecisionIsExact(env, c, it.blobs, ItemCheck(env, data, flags), ItemMessage(data), flags);
  }

  /** The same for verify_target, with the target's texts for the checksums and its bytes for the signatures. */
  lemma VerifyTargetByBlobs(env: Env, c: ContextV, target: ItemV, it: ItemV, flags: VerifyFlags)
    requires SettledContext(env, c)
    ensures var f, msg := TargetCheck(target), TargetMessage(target);
            VerifyTarget(env, c, target, it, flags).value
            == if Acceptable(env, c, it.blobs, f, msg, flags)
               then Some(AllResults(env, c, it.blobs, f, msg, flags)) else None
  {
    SettledIsSame(env, c);
    TargetCheckInsensitive(env, c, target);
    RunIsDecision(env, c, c, it.blobs, TargetCheck(target), TargetMessage(target), flags);
    DecisionIsExact(env, c, it.blobs, TargetCheck(target), TargetMessage(target), flags);
  }

  /**
   * The documentation of verify_target asks for at least one checksum.  The code asks for one only on
   * request: without a matching checksum it succeeds exactly when none was required and a signature verifies.
   */
  lemma TargetWithoutChecksum(env: Env, c: ContextV, target: ItemV, it: ItemV, flags: VerifyFlags)
    requires SettledContext(env, c)
    requires forall b <- it.blobs :: TargetCheck(target)(c, b).value.Ignored?
    ensures VerifyTarget(env, c, target, it, flags).value.Some?
            <==> !flags.requireChecksum && exists b <- it.blobs :: Signs(env, c, TargetMessage(target), flags, b)
  {
    VerifyTargetByBlobs(env, c, target, it, flags);
    assert forall b <- it.blobs :: !Matches(c, TargetCheck(target), b);
  }

  /**
   * For verify_target a signature counts exactly when it names a target kind, the target item has exactly one blob
   * of that kind, and the signature verifies over the bytes of that blob.
   */
  lemma TargetSignsExactly(env: Env, c: ContextV, target: ItemV, b: BlobV, flags: VerifyFlags)
    ensures Signs(env, c, TargetMessage(target), flags, b) <==>
      && HasMethod(c, b, Signature)
      && exists i: nat :: OnlyOfKind(target, b.target, i)
                     && VerifyBlob(env, c, Content(target.blobs[i].data), b, flags).value.Some?
  {
    BlobByKindIsExact(target, b.target);
  }

  // ---- verify_target against verify_item

  /** The target holds exactly one self-signed checksum of the data for every kind with an allowed checksum engine. */
  ghost predicate TargetOf(env: Env, c: ContextV, data: Bytes, target: ItemV)
  {
    forall b: BlobV :: HasMethod(c, b, Checksum) ==> HasSelfSigned(env, data, target, b.kind)
  }

  ghost predicate HasSelfSigned(env: Env, data: Bytes, target: ItemV, kind: U32)
  {
    exists now :: BlobByKind(target, kind) == Some(SelfSign(env, kind, data, now))
  }

  lemma ItemCheckOf(env: Env, c: ContextV, data: Bytes, b: BlobV, flags: VerifyFlags)
    ensures ItemCheck(env, data, flags)(c, b).value
            == if !HasMethod(c, b, Checksum) then Ignored
               else if Content(b.data) == env.digest(b.kind, data) then Match(Result(b.kind, 0, None)) else Mismatch
    ensures SameShape(c, ItemCheck(env, data, flags)(c, b).context)
  {
    BlobRunsSetup(env, c, data, b, flags);
    if HasMethod(c, b, Checksum) { SetupKeepsShape(env, c.fns, c.engines[GetEngine(c, b.kind).value]); }
  }

  /**
   * On a blob flagged as text the two checks agree, except that verify_target also accepts the right checksum with
   * a NUL and anything else behind it.
   */
  lemma ChecksAgreeOnText(env: Env, c: ContextV, data: Bytes, target: ItemV, b: BlobV, flags: VerifyFlags)
    requires HasMethod(c, b, Checksum) && HasSelfSigned(env, data, target, b.kind) && IsUtf8(b.flags)
    ensures TargetCheck(target)(c, b).value == ItemCheck(env, data, flags)(c, b).value
            <==> !(NUL in Content(b.data) && CutAtNul(Content(b.data)) == env.digest(b.kind, data))
  {
    ItemCheckOf(env, c, data, b, flags);
    var now :| BlobByKind(target, b.kind) == Some(SelfSign(env, b.kind, data, now));
    assert CutAtNul(env.digest(b.kind, data)) == env.digest(b.kind, data);
  }

  ghost predicate PlainText(c: ContextV, blobs: seq<BlobV>)
  {
    forall b <- blobs :: HasMethod(c, b, Checksum) ==> IsUtf8(b.flags) && NUL !in Content(b.data)
  }

  /**
   * Against a target of self-signed checksums, the checksum pass of verify_target over text blobs without NULs
   * gives the verdict and the results of the checksum pass of verify_item on the data itself.
   */
  lemma {:induction false} TargetChecksAreItemChecks(
    env: Env, c: ContextV, d: ContextV, data: Bytes, target: ItemV, blobs: seq<BlobV>, flags: VerifyFlags)
    requires SameShape(c, d) && TargetOf(env, c, data, target) && PlainText(c, blobs)
    ensures Checks(c, blobs, TargetCheck(target)).value == Checks(d, blobs, ItemCheck(env, data, flags)).value
    ensures Checks(c, blobs, TargetCheck(target)).context == c
    ensures SameShape(c, Checks(d, blobs, ItemCheck(env, data, flags)).context)
  {
    if blobs != [] {
      var n := |blobs| - 1;
      var b := blobs[n];
      TargetChecksAreItemChecks(env, c, d, data, target, blobs[..n], flags);
      var e := Checks(d, blobs[..n], ItemCheck(env, data, flags)).context;
      ShapeDecides(c, e, b);
      ItemCheckOf(env, e, data, b, flags);
      ItemCheckOf(env, c, data, b, flags);
      if HasMethod(c, b, Checksum) {
        assert b in blobs;
        ChecksAgreeOnText(env, c, data, target, b, flags);
      }
    }
  }

  // ---- order and single calls

  lemma SameMembers(env: Env, c: ContextV, a: seq<BlobV>, b: seq<BlobV>, f: CheckRule, msg: Message, flags: VerifyFlags)
    requires forall x :: x in a <==> x in b
    ensures Acceptable(env, c, a, f, msg, flags) <==> Acceptable(env, c, b, f, msg, flags)
  {}

  /** Reordering the blobs changes neither the verdict nor the multiset of results, whichever keys get loaded first. */
  lemma VerifyItemPermuted(env: Env, c: ContextV, data: Bytes, it: ItemV, jt: ItemV, flags: VerifyFlags)
    requires SettledContext(env, c) && multiset(it.blobs) == multiset(jt.blobs)
    ensures var r, s := VerifyItem(env, c, data, it, flags).value, VerifyItem(env, c, data, jt, flags).value;
            && (r.Some? <==> s.Some?)
            && (r.Some? ==> multiset(r.value) == multiset(s.value))
  {
    VerifyItemByBlobs(env, c, data, it, flags);
    VerifyItemByBlobs(env, c, data, jt, flags);
    assert forall b :: b in it.blobs <==> b in multiset(it.blobs);
    assert forall b :: b in jt.blobs <==> b in multiset(jt.blobs);
    SameMembers(env, c, it.blobs, jt.blobs, ItemCheck(env, data, flags), ItemMessage(data), flags);
    CollectPermuted(it.blobs, jt.blobs, CheckResult(env, c, ItemCheck(env, data, flags)));
    CollectPermuted(it.blobs, jt.blobs, SignatureResult(env, c, ItemMessage(data), flags));
  }

  /** verify_blob on the blobs of one method, each call starting from a state of its own. */
  ghost function BlobResult(env: Env, at: BlobV -> ContextV, data: Bytes, flags: VerifyFlags, m: Method)
    : BlobV -> Option<Result>
  {
    b => if HasMethod(at(b), b, m) then VerifyBlob(env, at(b), data, b, flags).value else None
  }

  /**
   * A successful verify_item gives what verify_blob gives one blob at a time, first over the checksums and then over
   * the signatures, whatever had been verified before each of those calls.
   */
  lemma VerifyItemIsVerifyBlobs(
    env: Env, c: ContextV, data: Bytes, it: ItemV, flags: VerifyFlags,
    before: BlobV -> seq<(Bytes, BlobV, VerifyFlags)>)
    requires SettledContext(env, c) && VerifyItem(env, c, data, it, flags).value.Some?
    ensures var at := (b: BlobV) => AfterCalls(env, c, before(b));
            VerifyItem(env, c, data, it, flags).value.value
            == Collect(it.blobs, BlobResult(env, at, data, flags, Checksum))
               + Collect(it.blobs, BlobResult(env, at, data, flags, Signature))
  {
    var at := (b: BlobV) => AfterCalls(env, c, before(b));
    var checks := CheckResult(env, c, ItemCheck(env, data, flags));
    var sigs := SignatureResult(env, c, ItemMessage(data), flags);
    VerifyItemByBlobs(env, c, data, it, flags);
    forall b | b in it.blobs
      ensures checks(b) == BlobResult(env, at, data, flags, Checksum)(b)
      ensures sigs(b) == BlobResult(env, at, data, flags, Signature)(b)
    {
      CallsKeepVerdicts(env, c, before(b));
      ShapeDecides(c, at(b), b);
      BlobSame(env, c, at(b), data, b, flags);
    }
    CollectSame(it.blobs, checks, BlobResult(env, at, data, flags, Checksum));
    CollectSame(it.blobs, sigs, BlobResult(env, at, data, flags, Signature));
  }

  // ---- more blobs never hurt

  ghost function Attempts(env: Env, fns: seq<Filename>, e: EngineV, n: nat): EngineV
  {
    if n == 0 then e else Setup(env, fns, Attempts(env, fns, e, n - 1)).engine
  }

  /** f is e after some more attempts at setup. */
  ghost predicate LaterEngine(env: Env, fns: seq<Filename>, e: EngineV, f: EngineV)
  {
    exists n: nat :: f == Attempts(env, fns, e, n)
  }

  ghost predicate Later(env: Env, c: ContextV, d: ContextV)
  {
    SameShape(c, d) && forall k :: 0 <= k < |c.engines| ==> LaterEngine(env, c.fns, c.engines[k], d.engines[k])
  }

  lemma {:induction false} AttemptsCommute(env: Env, fns: seq<Filename>, e: EngineV, n: nat)
    ensures Attempts(env, fns, Setup(env, fns, e).engine, n) == Attempts(env, fns, e, n + 1)
    decreases n
  {
    if n > 0 { AttemptsCommute(env, fns, e, n - 1); }
  }

  lemma {:induction false} AttemptsKeepSuccess(
    env: Env, fns: seq<Filename>, e: EngineV, n: nat, data: Bytes, sig: Bytes, flags: VerifyFlags)
    requires PubkeyVerify(env, fns, e, data, sig, flags).value.Some?
    ensures PubkeyVerify(env, fns, Attempts(env, fns, e, n), data, sig, flags).value
            == PubkeyVerify(env, fns, e, data, sig, flags).value
    decreases n
  {
    if n > 0 {
      AttemptsKeepSuccess(env, fns, e, n - 1, data, sig, flags);
      SetupKeepsSuccess(env, fns, Attempts(env, fns, e, n - 1), data, sig, flags);
    }
  }

  lemma LaterSteps(env: Env, fns: seq<Filename>, e: EngineV, f: EngineV)
    requires LaterEngine(env, fns, e, f)
    ensures LaterEngine(env, fns, e, Setup(env, fns, f).engine)
    ensures LaterEngine(env, fns, Setup(env, fns, e).engine, Setup(env, fns, f).engine)
  {
    var n: nat :| f == Attempts(env, fns, e, n);
    assert Setup(env, fns, f).engine == Attempts(env, fns, e, n + 1);
    AttemptsCommute(env, fns, e, n);
  }

  lemma LaterRefl(env: Env, c: ContextV)
    ensures Later(env, c, c)
  {
    forall k | 0 <= k < |c.engines| ensures LaterEngine(env, c.fns, c.engines[k], c.engines[k]) {
      assert c.engines[k] == Attempts(env, c.fns, c.engines[k], 0);
    }
  }

  /** Asking both contexts keeps the second ahead, and what succeeds in the first gives the same in the second. */
  lemma LaterBlob(env: Env, c: ContextV, d: ContextV, data: Bytes, b: BlobV, flags: VerifyFlags)
    requires Later(env, c, d)
    ensures var r, s := VerifyBlob(env, c, data, b, flags), VerifyBlob(env, d, data, b, flags);
            && Later(env, r.context, s.context) && Later(env, c, s.context)
            && (r.value.Some? ==> s.value == r.value)
  {
    ShapeDecides(c, d, b);
    BlobRunsSetup(env, c, data, b, flags);
    BlobRunsSetup(env, d, data, b, flags);
    var k := GetEngine(c, b.kind);
    if k.Some? {
      var e, f := c.engines[k.value], d.engines[k.value];
      assert LaterEngine(env, c.fns, e, f);
      LaterSteps(env, c.fns, e, f);
      var n: nat :| f == Attempts(env, c.fns, e, n);
      if PubkeyVerify(env, c.fns, e, data, Content(b.data), flags).value.Some? {
        AttemptsKeepSuccess(env, c.fns, e, n, data, Content(b.data), flags);
      }
      SetupKeepsShape(env, c.fns, e);
      SetupKeepsShape(env, c.fns, f);
    }
  }

  lemma LaterStep(env: Env, c: ContextV, d: ContextV, b: BlobV, msg: Message, flags: VerifyFlags)
    requires Later(env, c, d)
    ensures var r, s := SignatureStep(env, c, b, msg, flags), SignatureStep(env, d, b, msg, flags);
            && Later(env, r.context, s.context) && Later(env, c, s.context)
            && (r.value.Some? ==> s.value == r.value)
  {
    ShapeDecides(c, d, b);
    if msg(b).Some? { LaterBlob(env, c, d, msg(b).value, b, flags); }
  }

  lemma LaterNext(env: Env, r: Ran<seq<Result>>, s: Ran<seq<Result>>, b: BlobV, msg: Message, flags: VerifyFlags)
    requires Later(env, r.context, s.context) && Subsequence(r.value, s.value)
    ensures var r', s' := SignatureNext(env, r, b, msg, flags), SignatureNext(env, s, b, msg, flags);
            Later(env, r'.context, s'.context) && Subsequence(r'.value, s'.value)
  {
    LaterStep(env, r.context, s.context, b, msg, flags);
    var x, y := SignatureStep(env, r.context, b, msg, flags).value, SignatureStep(env, s.context, b, msg, flags).value;
    SubsequenceRefl(Optional(x));
    SubsequenceConcat(r.value, s.value, Optional(x), Optional(y));
  }

  lemma {:induction false} LaterSignatures(env: Env, c: ContextV, d: ContextV, blobs: seq<BlobV>, msg: Message,
      flags: VerifyFlags)
    requires Later(env, c, d)
    ensures var r, s := Signatures(env, c, blobs, msg, flags), Signatures(env, d, blobs, msg, flags);
            Later(env, r.context, s.context) && Subsequence(r.value, s.value)
  {
    if blobs != [] {
      var n := |blobs| - 1;
      LaterSignatures(env, c, d, blobs[..n], msg, flags);
      LaterNext(env, Signatures(env, c, blobs[..n], msg, flags), Signatures(env, d, blobs[..n], msg, flags),
          blobs[n], msg, flags);
    }
  }

  lemma {:induction false} SignaturesConcat(env: Env, c: ContextV, a: seq<BlobV>, b: seq<BlobV>, msg: Message,
      flags: VerifyFlags)
    ensures var r := Signatures(env, c, a, msg, flags);
            var s := Signatures(env, r.context, b, msg, flags);
            Signatures(env, c, a + b, msg, flags) == Ran(r.value + s.value, s.context)
    decreases |b|
  {
    var r := Signatures(env, c, a, msg, flags);
    if b == [] {
      assert a + b == a && r.value + [] == r.value;
    } else {
      var front, last := b[..|b| - 1], b[|b| - 1];
      SplitLast(b);
      ConcatAssoc(a, front, [last]);
      SignaturesConcat(env, c, a, front, msg, flags);
      SignaturesSnoc(env, c, a + front, last, msg, flags);
      var s := Signatures(env, r.context, front, msg, flags);
      ConcatAssoc(r.value, s.value, Optional(SignatureStep(env, s.context, last, msg, flags).value));
    }
  }

  lemma {:induction false} ChecksConcat(c: ContextV, a: seq<BlobV>, b: seq<BlobV>, f: CheckRule)
    ensures Checks(c, a + b, f) == JoinChecks(Checks(c, a, f), Checks(Checks(c, a, f).context, b, f))
    decreases |b|
  {
    var r := Checks(c, a, f);
    if b == [] {
      assert a + b == a;
      if r.value.Some? { assert r.value.value + [] == r.value.value; }
    } else {
      var front, last := b[..|b| - 1], b[|b| - 1];
      SplitLast(b);
      ConcatAssoc(a, front, [last]);
      ChecksConcat(c, a, front, f);
      ChecksSnoc(c, a + front, last, f);
      JoinNext(r, Checks(r.context, front, f), last, f);
    }
  }

  ghost function JoinChecks(r: Ran<Option<seq<Result>>>, s: Ran<Option<seq<Result>>>): Ran<Option<seq<Result>>>
  {
    if r.value == None then r
    else Ran(if s.value == None then None else Some(r.value.value + s.value.value), s.context)
  }

  lemma JoinNext(r: Ran<Option<seq<Result>>>, s: Ran<Option<seq<Result>>>, b: BlobV, f: CheckRule)
    ensures CheckNext(JoinChecks(r, s), b, f) == JoinChecks(r, CheckNext(s, b, f))
  {
    if r.value.Some? && s.value.Some? && f(s.context, b).value.Match? {
      ConcatAssoc(r.value.value, s.value.value, [f(s.context, b).value.result]);
    }
  }

  lemma {:induction false} ChecksKeepShape(env: Env, c: ContextV, blobs: seq<BlobV>, data: Bytes, flags: VerifyFlags)
    ensures SameShape(c, Checks(c, blobs, ItemCheck(env, data, flags)).context)
  {
    if blobs != [] {
      var n := |blobs| - 1;
      var front := Checks(c, blobs[..n], ItemCheck(env, data, flags));
      ChecksKeepShape(env, c, blobs[..n], data, flags);
      BlobRunsSetup(env, front.context, data, blobs[n], flags);
    }
  }

  /** A blob without an allowed checksum engine does not exist for the first pass. */
  lemma ChecksInsert(env: Env, c: ContextV, a: seq<BlobV>, b: BlobV, d: seq<BlobV>, data: Bytes, flags: VerifyFlags)
    requires !HasMethod(c, b, Checksum)
    ensures var f := ItemCheck(env, data, flags); Checks(c, a + [b] + d, f) == Checks(c, a + d, f)
  {
    var f := ItemCheck(env, data, flags);
    var mid := Checks(c, a, f).context;
    ChecksKeepShape(env, c, a, data, flags);
    ShapeDecides(c, mid, b);
    assert f(mid, b) == Ran(Ignored, mid);
    ChecksSnoc(c, a, b, f);
    ChecksConcat(c, a + [b], d, f);
    ChecksConcat(c, a, d, f);
  }

  lemma SignaturesInsert(env: Env, c: ContextV, a: seq<BlobV>, b: BlobV, d: seq<BlobV>, msg: Message,
      flags: VerifyFlags)
    ensures Subsequence(Signatures(env, c, a + d, msg, flags).value, Signatures(env, c, a + [b] + d, msg, flags).value)
  {
    var mid, rest := Signatures(env, c, a, msg, flags), a + [b];
    var one := SignatureNext(env, mid, b, msg, flags);
    SignaturesSnoc(env, c, a, b, msg, flags);
    SignaturesConcat(env, c, a, d, msg, flags);
    SignaturesConcat(env, c, rest, d, msg, flags);
    LaterRefl(env, mid.context);
    LaterStep(env, mid.context, mid.context, b, msg, flags);
    LaterSignatures(env, mid.context, one.context, d, msg, flags);
    SubsequenceRefl(mid.value);
    var extra := Optional(SignatureStep(env, mid.context, b, msg, flags).value);
    SubsequenceConcat(mid.value, mid.value, [], extra);
    assert mid.value + [] == mid.value;
    SubsequenceConcat(mid.value, one.value, Signatures(env, mid.context, d, msg, flags).value,
                      Signatures(env, one.context, d, msg, flags).value);
  }

  /**
   * A blob that no allowed checksum engine handles, put in at any place, never turns success into failure, and the old
   * results stay, in order, among the new ones.  This needs no assumption about the engines.
   */
  lemma MoreBlobsNeverHurt(
    env: Env, c: ContextV, data: Bytes, it: ItemV, a: seq<BlobV>, b: BlobV, d: seq<BlobV>, flags: VerifyFlags)
    requires it.blobs == a + d && !HasMethod(c, b, Checksum)
    requires VerifyItem(env, c, data, it, flags).value.Some?
    ensures var r, s := VerifyItem(env, c, data, it, flags).value,
                        VerifyItem(env, c, data, it.(blobs := a + [b] + d), flags).value;
            s.Some? && Subsequence(r.value, s.value)
  {
    var checks := Checks(c, it.blobs, ItemCheck(env, data, flags));
    ChecksInsert(env, c, a, b, d, data, flags);
    SignaturesInsert(env, checks.context, a, b, d, ItemMessage(data), flags);
    var before := Signatures(env, checks.context, a + d, ItemMessage(data), flags).value;
    var after := Signatures(env, checks.context, a + [b] + d, ItemMessage(data), flags).value;
    SubsequenceRefl(checks.value.value);
    SubsequenceConcat(checks.value.value, checks.value.value, before, after);
  }

  // ---- engines that are not settled

  ghost predicate SameUpToOrder(r: Option<seq<Result>>, s: Option<seq<Result>>)
  {
    (r.Some? <==> s.Some?) && (r.Some? ==> multiset(r.value) == multiset(s.value))
  }

  /** Reordering the blobs of an item never matters to verify_item. */
  ghost predicate OrderIrrelevant(env: Env, c: ContextV)
  {
    forall data, it: ItemV, jt: ItemV, flags :: multiset(it.blobs) == multiset(jt.blobs) ==>
      SameUpToOrder(VerifyItem(env, c, data, it, flags).value, VerifyItem(env, c, data, jt, flags).value)
  }

  /** verify_item always decides by what each blob would be answered alone. */
  ghost predicate DecidesByBlobs(env: Env, c: ContextV)
  {
    forall data, it, flags :: VerifyItem(env, c, data, it, flags).value
      == Decision(env, c, it.blobs, ItemCheck(env, data, flags), ItemMessage(data), flags)
  }

  ghost function WithForeign(env: Env, verify: ForeignVerify): Env
  {
    env.(verifyForeign := verify)
  }

  /**
   * Whatever GnuTLS and GPG answer, order is irrelevant, and verify_item decides by what each blob is answered alone,
   * exactly when every engine that a blob can reach is settled.
   */
  lemma SettledIsNeeded(env: Env, c: ContextV)
    ensures (forall verify :: OrderIrrelevant(WithForeign(env, verify), c)) <==> SettledContext(env, c)
    ensures (forall verify :: DecidesByBlobs(WithForeign(env, verify), c)) <==> SettledContext(env, c)
  {
    if SettledContext(env, c) {
      forall verify ensures OrderIrrelevant(WithForeign(env, verify), c)
                    ensures DecidesByBlobs(WithForeign(env, verify), c)
      {
        SettledSuffices(env, c, verify);
      }
    } else {
      var k: nat :| Reached(c, k) && !Settled(env, c.fns, c.engines[k]);
      LoadIgnoresForeign(env, c.engines[k].cls, c.fns, ACCEPTS_ONE);
      UnsettledFails(WithForeign(env, ACCEPTS_ONE), c, k);
    }
  }

  lemma {:induction false} LoadIgnoresForeign(env: Env, cls: EngineClass, fns: seq<Filename>, verify: ForeignVerify)
    ensures Load(WithForeign(env, verify), cls, fns) == Load(env, cls, fns)
  {
    if fns != [] { LoadIgnoresForeign(env, cls, fns[1..], verify); }
  }

  lemma SettledSuffices(env: Env, c: ContextV, verify: ForeignVerify)
    requires SettledContext(env, c)
    ensures OrderIrrelevant(WithForeign(env, verify), c) && DecidesByBlobs(WithForeign(env, verify), c)
  {
    var other := WithForeign(env, verify);
    forall k: nat | Reached(c, k) ensures Settled(other, c.fns, c.engines[k]) {
      LoadIgnoresForeign(env, c.engines[k].cls, c.fns, verify);
    }
    forall data, it: ItemV, jt: ItemV, flags | multiset(it.blobs) == multiset(jt.blobs)
      ensures SameUpToOrder(VerifyItem(other, c, data, it, flags).value, VerifyItem(other, c, data, jt, flags).value)
    {
      VerifyItemPermuted(other, c, data, it, jt, flags);
    }
    forall data, it, flags
      ensures VerifyItem(other, c, data, it, flags).value
              == Decision(other, c, it.blobs, ItemCheck(other, data, flags), ItemMessage(data), flags)
    {
      VerifyItemByBlobs(other, c, data, it, flags);
      DecisionIsExact(other, c, it.blobs, ItemCheck(other, data, flags), ItemMessage(data), flags);
    }
  }

  /** One signature is good and no other. */
  ghost const ACCEPTS_ONE: ForeignVerify :=
    (cls, gpg, keys, data, sig, other) => if sig == [1] then Some(Signer(0, None)) else None

  ghost const NO_FLAGS := VerifyFlags(false, false, 0)

  ghost function SignatureBlob(kind: U32, sig: Bytes): BlobV
  {
    BlobV(kind, KIND_UNKNOWN, 1, Buffer(sig), None, 0)
  }

  ghost function TwoBlobs(kind: U32, s: Bytes, t: Bytes): ItemV
  {
    ItemV([], [], [SignatureBlob(kind, s), SignatureBlob(kind, t)])
  }

  /** The first blob only pays for the failed setup, so that an item with the good signature there does not verify. */
  lemma UnsettledFails(env: Env, c: ContextV, k: nat)
    requires Reached(c, k) && !Settled(env, c.fns, c.engines[k]) && env.verifyForeign == ACCEPTS_ONE
    ensures !OrderIrrelevant(env, c) && !DecidesByBlobs(env, c)
  {
    var kind := c.engines[k].kind;
    var it, jt := TwoBlobs(kind, [0], [1]), TwoBlobs(kind, [1], [0]);
    TwoUnsettledBlobs(env, c, k, [0], [1]);
    TwoUnsettledBlobs(env, c, k, [1], [0]);
    assert multiset(it.blobs) == multiset(jt.blobs);
    assert !SameUpToOrder(VerifyItem(env, c, [], it, NO_FLAGS).value, VerifyItem(env, c, [], jt, NO_FLAGS).value);
    DecisionIsExact(env, c, it.blobs, ItemCheck(env, [], NO_FLAGS), ItemMessage([]), NO_FLAGS);
    forall b | b in it.blobs
      ensures !Matches(c, ItemCheck(env, [], NO_FLAGS), b) && !Signs(env, c, ItemMessage([]), NO_FLAGS, b)
    {
      UnsettledVerdict(env, c.fns, c.engines[k], [], Content(b.data), NO_FLAGS);
    }
  }

  lemma TwoUnsettledBlobs(env: Env, c: ContextV, k: nat, s: Bytes, t: Bytes)
    requires Reached(c, k) && !Settled(env, c.fns, c.engines[k]) && env.verifyForeign == ACCEPTS_ONE
    ensures VerifyItem(env, c, [], TwoBlobs(c.engines[k].kind, s, t), NO_FLAGS).value.Some? <==> t == [1]
  {
    var g, h := SignatureBlob(c.engines[k].kind, s), SignatureBlob(c.engines[k].kind, t);
    var f, msg := ItemCheck(env, [], NO_FLAGS), ItemMessage([]);
    var none: seq<BlobV> := [];
    assert [g, h] == [g] + [h] && [g] == none + [g];
    ChecksSnoc(c, none, g, f);
    ChecksSnoc(c, [g], h, f);
    SignaturesSnoc(env, c, none, g, msg, NO_FLAGS);
    SignaturesSnoc(env, c, [g], h, msg, NO_FLAGS);
    FailsThenAnswers(env, c, k, g, h);
  }

  /** The first blob fails in any case, and the second is checked in the state it leaves. */
  lemma FailsThenAnswers(env: Env, c: ContextV, k: nat, g: BlobV, h: BlobV)
    requires Reached(c, k) && !Settled(env, c.fns, c.engines[k]) && env.verifyForeign == ACCEPTS_ONE
    requires g.kind == h.kind == c.engines[k].kind
    ensures !HasMethod(c, g, Checksum) && !HasMethod(c, h, Checksum)
    ensures var r := SignatureStep(env, c, g, ItemMessage([]), NO_FLAGS);
            && r.value == None
            && (SignatureStep(env, r.context, h, ItemMessage([]), NO_FLAGS).value.Some? <==> Content(h.data) == [1])
  {
    UnsettledVerdict(env, c.fns, c.engines[k], [], Content(g.data), NO_FLAGS);
    UnsettledVerdict(env, c.fns, c.engines[k], [], Content(h.data), NO_FLAGS);
    BlobRunsSetup(env, c, [], g, NO_FLAGS);
    ShapeDecides(c, VerifyBlob(env, c, [], g, NO_FLAGS).context, h);
  }

  // ---- the smallest inputs

  /** Every signature is good, and every checksum is "a". */
  ghost const ALL_GOOD: Env := Env(
    (kind, data) => [97], fn => None, blob => None, (key, data, sig) => true, GpgSetup.Succeeds,
    (cls, fn) => Some([]), blob => None, (cls, gpg, keys, data, sig, other) => None, (cls, data, sig, other) => None)

  ghost function OneEngine(kind: U32, cls: EngineClass): ContextV
  {
    ContextV(MAXUINT32, [], [EngineV(kind, cls, true, NoContext, [[7]])])
  }

  ghost function OneBlob(b: BlobV): ItemV
  {
    ItemV([], [], [b])
  }

  ghost function ChecksumBlob(text: Bytes): BlobV
  {
    BlobV(SHA256, KIND_UNKNOWN, 1, Buffer(text), None, 0)
  }

  lemma OneEngineFound(kind: U32, cls: EngineClass)
    requires kind < 32
    ensures GetEngine(OneEngine(kind, cls), kind) == Some(0)
  {
    PermittedAll();
    assert kind in EVERY;
    assert OneEngine(kind, cls).engines[..0] == [];
  }

  lemma OneBlobChecked(c: ContextV, b: BlobV, f: CheckRule)
    ensures Checks(c, [b], f) == CheckNext(Ran(Some([]), c), b, f)
  {
    var none: seq<BlobV> := [];
    assert none + [b] == [b];
    ChecksSnoc(c, none, b, f);
  }

  /** verify_target succeeds on one signature, although the item has no checksum at all. */
  lemma NoChecksumNeeded()
    ensures var target := OneBlob(ChecksumBlob([97]));
            var it := OneBlob(BlobV(ED25519, SHA256, 0, Buffer([1]), None, 0));
            VerifyTarget(ALL_GOOD, OneEngine(ED25519, Ed25519Class), target, it, NO_FLAGS).value.Some?
  {
    var c := OneEngine(ED25519, Ed25519Class);
    var target, b := OneBlob(ChecksumBlob([97])), BlobV(ED25519, SHA256, 0, Buffer([1]), None, 0);
    OneEngineFound(ED25519, Ed25519Class);
    GoodSignature(target, b);
    assert SettledContext(ALL_GOOD, c);
    TargetWithoutChecksum(ALL_GOOD, c, target, OneBlob(b), NO_FLAGS);
  }

  lemma GoodSignature(target: ItemV, b: BlobV)
    requires b.kind == ED25519 && b.target == SHA256 && target.blobs == [ChecksumBlob([97])]
    requires GetEngine(OneEngine(ED25519, Ed25519Class), ED25519) == Some(0)
    ensures Signs(ALL_GOOD, OneEngine(ED25519, Ed25519Class), TargetMessage(target), NO_FLAGS, b)
  {
    OnlyBlobFound(target);
    assert ALL_GOOD.verifyOne(OneEngine(ED25519, Ed25519Class).engines[0].keys[0], [97], Content(b.data));
  }

  lemma OnlyBlobFound(it: ItemV)
    requires |it.blobs| == 1 && it.blobs[0].kind != KIND_UNKNOWN
    ensures BlobByKind(it, it.blobs[0].kind) == Some(it.blobs[0])
  {
    BlobByKindIsUnique(it, it.blobs[0].kind, 0);
  }

  /** The right checksum with a NUL behind it passes verify_target and fails verify_item. */
  lemma NulPassesTarget(data: Bytes)
    ensures var c, it := OneEngine(SHA256, ChecksumClass), OneBlob(ChecksumBlob([97, NUL]));
            && VerifyTarget(ALL_GOOD, c, OneBlob(SelfSign(ALL_GOOD, SHA256, data, 0)), it, NO_FLAGS).value.Some?
            && VerifyItem(ALL_GOOD, c, data, it, NO_FLAGS).value == None
  {
    OneEngineFound(SHA256, ChecksumClass);
    NulPassesCheck(data);
    NulFailsCheck(data);
    var c, b := OneEngine(SHA256, ChecksumClass), ChecksumBlob([97, NUL]);
    OneMatchPasses(ALL_GOOD, c, OneBlob(SelfSign(ALL_GOOD, SHA256, data, 0)), b, Result(SHA256, 0, None));
    OneMismatchFails(ALL_GOOD, c, data, b, NO_FLAGS);
  }

  lemma OneMatchPasses(env: Env, c: ContextV, target: ItemV, b: BlobV, r: Result)
    requires TargetCheck(target)(c, b) == Ran(Match(r), c) && !HasMethod(c, b, Signature)
    ensures VerifyTarget(env, c, target, OneBlob(b), NO_FLAGS).value.Some?
  {
    OneBlobChecked(c, b, TargetCheck(target));
    NoSignature(env, c, b, TargetMessage(target), NO_FLAGS);
  }

  lemma OneMismatchFails(env: Env, c: ContextV, data: Bytes, b: BlobV, flags: VerifyFlags)
    requires ItemCheck(env, data, flags)(c, b).value.Mismatch?
    ensures VerifyItem(env, c, data, OneBlob(b), flags).value == None
  {
    OneBlobChecked(c, b, ItemCheck(env, data, flags));
  }

  lemma NulPassesCheck(data: Bytes)
    requires GetEngine(OneEngine(SHA256, ChecksumClass), SHA256) == Some(0)
    ensures var c := OneEngine(SHA256, ChecksumClass);
            TargetCheck(OneBlob(SelfSign(ALL_GOOD, SHA256, data, 0)))(c, ChecksumBlob([97, NUL]))
            == Ran(Match(Result(SHA256, 0, None)), c)
  {
    OnlyBlobFound(OneBlob(SelfSign(ALL_GOOD, SHA256, data, 0)));
    assert CutAtNul([97, NUL]) == [97] && CutAtNul([97]) == [97];
  }

  lemma NulFailsCheck(data: Bytes)
    requires GetEngine(OneEngine(SHA256, ChecksumClass), SHA256) == Some(0)
    ensures var c := OneEngine(SHA256, ChecksumClass);
            ItemCheck(ALL_GOOD, data, NO_FLAGS)(c, ChecksumBlob([97, NUL])).value.Mismatch?
  {}

  lemma {:induction false} NoSignature(env: Env, c: ContextV, b: BlobV, msg: Message, flags: VerifyFlags)
    requires !HasMethod(c, b, Signature)
    ensures Signatures(env, c, [b], msg, flags) == Ran([], c)
  {
    var none: seq<BlobV> := [];
    assert SignatureStep(env, c, b, msg, flags) == Ran(None, c);
    SkipsOne(env, Ran([], c), b, msg, flags);
    SignaturesSnoc(env, c, none, b, msg, flags);
    assert none + [b] == [b];
  }

  lemma {:induction false} SkipsOne(env: Env, front: Ran<seq<Result>>, b: BlobV, msg: Message, flags: VerifyFlags)
    requires SignatureStep(env, front.context, b, msg, flags) == Ran(None, front.context)
    ensures SignatureNext(env, front, b, msg, flags) == front
  {
    assert front.value + [] == front.value;
  }

  /** The smallest context that is not settled: GPG alone, created but never configured, with no keys to load. */
  lemma HalfWayIsUnsettled(env: Env)
    requires env.gpgSetup.FailsToConfigure?
    ensures !SettledContext(env, ContextV(MAXUINT32, [], [EngineV(GPG, GpgClass, false, NoContext, [])]))
  {
    var c := ContextV(MAXUINT32, [], [EngineV(GPG, GpgClass, false, NoContext, [])]);
    PermittedEvery(MAXUINT32);
    assert 2 in EVERY;
    assert c.engines[..0] == [] && FindEngine(c.engines, GPG) == Some(0);
    assert Reached(c, 0);
  }
}
