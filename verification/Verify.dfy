/** The verification passes of jcat-context.c, as functions of the state of the context. */
module Verify {
  import opened Common
  import opened Allowlist
  import opened Blob
  import opened Item
  import opened Engine

  datatype ContextV = ContextV(mask: U32, fns: seq<Filename>, engines: seq<EngineV>)

  datatype Ran<T> = Ran(value: T, context: ContextV)

  /** The first engine of the kind. */
  function FindEngine(engines: seq<EngineV>, kind: U32): (r: Option<nat>)
    ensures r.Some? ==> r.value < |engines| && engines[r.value].kind == kind
  {
    if engines == [] then None
    else
      var n := |engines| - 1;
      var front := FindEngine(engines[..n], kind);
      if front.Some? then front else if engines[n].kind == kind then Some(n) else None
  }

  function GetEngine(c: ContextV, kind: U32): (r: Option<nat>)
    ensures r.Some? ==> r.value < |c.engines| && c.engines[r.value].kind == kind
  {
    if IsAllowed(c.mask, kind) then FindEngine(c.engines, kind) else None
  }

  function WithEngine(c: ContextV, k: nat, e: EngineV): ContextV
    requires k < |c.engines|
  {
    c.(engines := c.engines[k := e])
  }

  /** jcat_engine_self_verify: the GPG class has no such hook and fails before setup. */
  function SelfVerify(env: Env, fns: seq<Filename>, e: EngineV, data: Bytes, sig: Bytes, flags: VerifyFlags)
    : Stepped<Option<Result>>
  {
    if e.cls.GpgClass? then Stepped(None, e)
    else
      var s := Setup(env, fns, e);
      var r := if !s.value then None
               else if e.cls.ChecksumClass? then Check(env, e.kind, data, sig)
               else ResultOf(e.kind, env.selfVerifyForeign(e.cls, data, sig, flags.other));
      Stepped(r, s.engine)
  }

  function VerifyBlob(env: Env, c: ContextV, data: Bytes, b: BlobV, flags: VerifyFlags): Ran<Option<Result>>
  {
    match GetEngine(c, b.kind)
    case None => Ran(None, c)
    case Some(k) =>
      var e := c.engines[k];
      var r := if MethodOf(e.cls).Checksum? then SelfVerify(env, c.fns, e, data, Content(b.data), flags)
               else PubkeyVerify(env, c.fns, e, data, Content(b.data), flags);
      Ran(r.value, WithEngine(c, k, r.engine))
  }

  /** Whether a blob takes part in the pass over checksums, or over signatures. */
  predicate HasMethod(c: ContextV, b: BlobV, m: Method)
  {
    GetEngine(c, b.kind).Some? && MethodOf(c.engines[GetEngine(c, b.kind).value].cls) == m
  }

  /** What one blob means for the pass over checksums. */
  datatype CheckOutcome = Ignored | Mismatch | Match(result: Result)

  type CheckRule = (ContextV, BlobV) -> Ran<CheckOutcome>

  /** One blob in the first pass; nothing happens after a mismatch. */
  function CheckNext(front: Ran<Option<seq<Result>>>, b: BlobV, f: CheckRule): Ran<Option<seq<Result>>>
  {
    if front.value == None then front
    else
      var r := f(front.context, b);
      match r.value
      case Ignored => Ran(front.value, r.context)
      case Mismatch => Ran(None, r.context)
      case Match(result) => Ran(Some(front.value.value + [result]), r.context)
  }

  /** The first pass. */
  function Checks(c: ContextV, blobs: seq<BlobV>, f: CheckRule): Ran<Option<seq<Result>>>
  {
    if blobs == [] then Ran(Some([]), c)
    else CheckNext(Checks(c, blobs[..|blobs| - 1], f), blobs[|blobs| - 1], f)
  }

  /** verify_item asks the engine. */
  function ItemCheck(env: Env, data: Bytes, flags: VerifyFlags): CheckRule
  {
    (c: ContextV, b: BlobV) =>
      if !HasMethod(c, b, Checksum) then Ran(Ignored, c)
      else
        var r := VerifyBlob(env, c, data, b, flags);
        Ran(if r.value == None then Mismatch else Match(r.value.value), r.context)
  }

  /** verify_target compares texts, two that are NULL being equal, and asks no engine. */
  function TargetCheck(target: ItemV): CheckRule
  {
    (c: ContextV, b: BlobV) =>
      if !HasMethod(c, b, Checksum) || BlobByKind(target, b.kind) == None then Ran(Ignored, c)
      else if DataAsString(BlobByKind(target, b.kind).value) != DataAsString(b) then Ran(Mismatch, c)
      else Ran(Match(Result(b.kind, 0, None)), c)
  }

  /** The bytes a signature blob is checked against. */
  type Message = BlobV -> Option<Bytes>

  function ItemMessage(data: Bytes): Message
  {
    (b: BlobV) => Some(data)
  }

  function TargetMessage(target: ItemV): Message
  {
    (b: BlobV) =>
      if b.target == KIND_UNKNOWN then None
      else
        var t := BlobByKind(target, b.target);
        if t == None then None else Some(Content(t.value.data))
  }

  /** One blob in the second pass: failures are skipped. */
  function SignatureStep(env: Env, c: ContextV, b: BlobV, msg: Message, flags: VerifyFlags): Ran<Option<Result>>
  {
    if !HasMethod(c, b, Signature) || msg(b) == None then Ran(None, c)
    else VerifyBlob(env, c, msg(b).value, b, flags)
  }

  function Optional(r: Option<Result>): seq<Result>
  {
    if r.Some? then [r.value] else []
  }

  function SignatureNext(env: Env, front: Ran<seq<Result>>, b: BlobV, msg: Message, flags: VerifyFlags)
    : Ran<seq<Result>>
  {
    var r := SignatureStep(env, front.context, b, msg, flags);
    Ran(front.value + Optional(r.value), r.context)
  }

  /** The second pass. */
  function Signatures(env: Env, c: ContextV, blobs: seq<BlobV>, msg: Message, flags: VerifyFlags): Ran<seq<Result>>
  {
    if blobs == [] then Ran([], c)
    else SignatureNext(env, Signatures(env, c, blobs[..|blobs| - 1], msg, flags), blobs[|blobs| - 1], msg, flags)
  }

  lemma ChecksSnoc(c: ContextV, blobs: seq<BlobV>, b: BlobV, f: CheckRule)
    ensures Checks(c, blobs + [b], f) == CheckNext(Checks(c, blobs, f), b, f)
  {
    assert (blobs + [b])[..|blobs|] == blobs;
  }

  lemma SignaturesSnoc(env: Env, c: ContextV, blobs: seq<BlobV>, b: BlobV, msg: Message, flags: VerifyFlags)
    ensures Signatures(env, c, blobs + [b], msg, flags)
            == SignatureNext(env, Signatures(env, c, blobs, msg, flags), b, msg, flags)
  {
    assert (blobs + [b])[..|blobs|] == blobs;
  }

  /** What both functions demand in the end. */
  function Finish(checks: seq<Result>, sigs: seq<Result>, flags: VerifyFlags): Option<seq<Result>>
  {
    if flags.requireSignature && sigs == [] then None
    else if checks + sigs == [] then None
    else Some(checks + sigs)
  }

  function SecondPass(env: Env, c: ContextV, checks: Option<seq<Result>>, blobs: seq<BlobV>, msg: Message,
      flags: VerifyFlags)
    : Ran<Option<seq<Result>>>
  {
    if checks == None || (flags.requireChecksum && checks.value == []) then Ran(None, c)
    else
      var sigs := Signatures(env, c, blobs, msg, flags);
      Ran(Finish(checks.value, sigs.value, flags), sigs.context)
  }

  /** jcat_context_verify_item */
  function VerifyItem(env: Env, c: ContextV, data: Bytes, it: ItemV, flags: VerifyFlags): Ran<Option<seq<Result>>>
  {
    if it.blobs == [] then Ran(None, c)
    else
      var checks := Checks(c, it.blobs, ItemCheck(env, data, flags));
      SecondPass(env, checks.context, checks.value, it.blobs, ItemMessage(data), flags)
  }

  /** jcat_context_verify_target */
  function VerifyTarget(env: Env, c: ContextV, target: ItemV, it: ItemV, flags: VerifyFlags): Ran<Option<seq<Result>>>
  {
    if it.blobs == [] then Ran(None, c)
    else
      var checks := Checks(c, it.blobs, TargetCheck(target));
      SecondPass(env, checks.context, checks.value, it.blobs, TargetMessage(target), flags)
  }
}
