/** jcat-context.c and jcat-engine.c: the context and the engines it owns. */
module Context {
  import opened Common
  import opened Allowlist
  import opened Blob
  import opened Item
  import opened Engine
  import opened Verify

  class JcatEngine {
    const context: JcatContext
    const kind: U32
    const cls: EngineClass
    var doneSetup: bool
    var gpg: GpgContext
    var keys: seq<Key>

    ghost function View(): EngineV
      reads this
    {
      EngineV(kind, cls, doneSetup, gpg, keys)
    }

    constructor New(context: JcatContext, kind: U32, cls: EngineClass)
      ensures this.context == context && View() == EngineV(kind, cls, false, NoContext, [])
    {
      this.context, this.kind, this.cls := context, kind, cls;
      doneSetup, gpg, keys := false, NoContext, [];
    }

    /** The class setup hook, which only the GPG class has. */
    method ClassSetup(env: Env) returns (ok: bool)
      modifies `gpg
      ensures SetupHook(env, old(View())) == Stepped(ok, View())
    {
      if !cls.GpgClass? || !gpg.NoContext? {
        return true;
      }
      if env.gpgSetup.FailsToCreate? {
        return false;
      }
      gpg := HalfConfigured;
      if env.gpgSetup.FailsToConfigure? {
        return false;
      }
      gpg := Configured;
      return true;
    }

    /** The class add_public_key hook. */
    method AddPublicKey(env: Env, fn: Filename) returns (ok: bool)
      modifies `keys
      ensures ok == LoadOne(env, cls, fn).Some?
      ensures keys == old(keys) + if ok then LoadOne(env, cls, fn).value else []
    {
      if !cls.Ed25519Class? {
        var loaded := env.loadForeign(cls, fn);
        if loaded == None {
          return false;
        }
        keys := keys + loaded.value;
        return true;
      }
      if !HasSuffix(fn, ED25519_SUFFIX) {
        return true;
      }
      var blob := env.readFile(fn);
      if blob == None {
        return false;
      }
      var key := env.importKey(blob.value);
      if key == None {
        return false;
      }
      keys := keys + [key.value];
      return true;
    }

    method SetupEngine(env: Env) returns (ok: bool)
      modifies this
      ensures Setup(env, context.publicKeys, old(View())) == Stepped(ok, View())
      ensures context.publicKeys == old(context.publicKeys)
    {
      if doneSetup {
        return true;
      }
      ok := ClassSetup(env);
      if !ok {
        return false;
      }
      if !cls.ChecksumClass? {
        ok := LoadKeys(env);
        if !ok {
          return false;
        }
      }
      doneSetup := true;
      return true;
    }

    method LoadKeys(env: Env) returns (ok: bool)
      requires !cls.ChecksumClass?
      modifies `keys
      ensures var l := Load(env, cls, context.publicKeys); ok == l.ok && keys == old(keys) + l.keys
    {
      var fns := context.publicKeys;
      ghost var all := Load(env, cls, fns);
      ghost var loaded: seq<Key> := [];
      for i := 0 to |fns|
        invariant keys == old(keys) + loaded
        invariant var rest := Load(env, cls, fns[i..]); all == Loaded(rest.ok, loaded + rest.keys)
      {
        ghost var rest := Load(env, cls, fns[i..]);
        assert fns[i..][1..] == fns[i + 1..];
        ghost var one := LoadOne(env, cls, fns[i]);
        ok := AddPublicKey(env, fns[i]);
        if !ok {
          return false;
        }
        ConcatAssoc(old(keys), loaded, one.value);
        ConcatAssoc(loaded, one.value, Load(env, cls, fns[i + 1..]).keys);
        loaded := loaded + one.value;
      }
      return true;
    }

    /** Verifies against any of the keys. */
    method VerifyEd25519(env: Env, data: Bytes, sig: Bytes) returns (r: Option<Result>)
      ensures r == if AnyKey(env, keys, data, sig) then Some(Result(kind, 0, None)) else None
    {
      if |keys| == 0 {
        return None;
      }
      for i := 0 to |keys|
        invariant forall j :: 0 <= j < i ==> !env.verifyOne(keys[j], data, sig)
      {
        if env.verifyOne(keys[i], data, sig) {
          return Some(Result(kind, 0, None));
        }
      }
      return None;
    }

    method PubkeyVerifyEngine(env: Env, data: Bytes, sig: Bytes, flags: VerifyFlags) returns (r: Option<Result>)
      modifies this
      ensures PubkeyVerify(env, context.publicKeys, old(View()), data, sig, flags) == Stepped(r, View())
      ensures context.publicKeys == old(context.publicKeys)
    {
      if cls.ChecksumClass? {
        return None;
      }
      var ok := SetupEngine(env);
      if !ok {
        return None;
      }
      if cls.Ed25519Class? {
        r := VerifyEd25519(env, data, sig);
      } else {
        var signer := env.verifyForeign(cls, gpg, keys, data, sig, flags.other);
        if signer == None {
          return None;
        }
        r := Some(Result(kind, signer.value.timestamp, signer.value.authority));
      }
    }

    method SelfVerifyEngine(env: Env, data: Bytes, sig: Bytes, flags: VerifyFlags) returns (r: Option<Result>)
      modifies this
      ensures SelfVerify(env, context.publicKeys, old(View()), data, sig, flags) == Stepped(r, View())
      ensures context.publicKeys == old(context.publicKeys)
    {
      if cls.GpgClass? {
        return None;
      }
      var ok := SetupEngine(env);
      if !ok {
        return None;
      }
      if cls.ChecksumClass? {
        r := VerifyChecksum(env, data, sig);
      } else {
        var signer := env.selfVerifyForeign(cls, data, sig, flags.other);
        if signer == None {
          return None;
        }
        r := Some(Result(kind, signer.value.timestamp, signer.value.authority));
      }
    }

    /** The self_verify hook of a checksum class. */
    method VerifyChecksum(env: Env, data: Bytes, checksum: Bytes) returns (r: Option<Result>)
      ensures r == Check(env, kind, data, checksum)
    {
      var tmp := env.digest(kind, data);
      if tmp != checksum {
        return None;
      }
      return Some(Result(kind, 0, None));
    }

    method AddRawKey(env: Env, blob: Bytes) returns (ok: bool)
      modifies this
      ensures AddPublicKeyRaw(env, context.publicKeys, old(View()), blob) == Stepped(ok, View())
      ensures context.publicKeys == old(context.publicKeys)
    {
      if cls.ChecksumClass? || cls.GpgClass? {
        return false;
      }
      ok := SetupEngine(env);
      if !ok {
        return false;
      }
      var key := if cls.Ed25519Class? then env.importKey(blob) else env.importForeign(blob);
      if key == None {
        return false;
      }
      keys := keys + [key.value];
    }
  }

  ghost function EngineViews(engines: seq<JcatEngine>): (r: seq<EngineV>)
    reads engines
    ensures |r| == |engines|
  {
    seq(|engines|, k requires 0 <= k < |engines| reads engines => engines[k].View())
  }

  class JcatContext {
    var engines: seq<JcatEngine>
    var publicKeys: seq<Filename>
    var blobKinds: U32

    ghost predicate Valid()
      reads this
    {
      NoDuplicates(engines) && forall e <- engines :: e.context == this
    }

    ghost function View(): ContextV
      reads this, engines
    {
      ContextV(blobKinds, publicKeys, EngineViews(engines))
    }

    /** Every kind is allowed, no keys are known, and no engine has been set up. */
    constructor New()
      ensures Valid() && fresh(engines)
      ensures View() == ContextV(MAXUINT32, [], [
        EngineV(SHA1, ChecksumClass, false, NoContext, []),
        EngineV(SHA256, ChecksumClass, false, NoContext, []),
        EngineV(SHA512, ChecksumClass, false, NoContext, []),
        EngineV(GPG, GpgClass, false, NoContext, []),
        EngineV(PKCS7, Pkcs7Class, false, NoContext, []),
        EngineV(ED25519, Ed25519Class, false, NoContext, [])])
    {
      engines, publicKeys, blobKinds := [], [], MAXUINT32;
      new;
      engines := NewEngines();
    }

    method NewEngines() returns (es: seq<JcatEngine>)
      ensures fresh(es) && NoDuplicates(es) && forall e <- es :: e.context == this
      ensures EngineViews(es) == [
        EngineV(SHA1, ChecksumClass, false, NoContext, []),
        EngineV(SHA256, ChecksumClass, false, NoContext, []),
        EngineV(SHA512, ChecksumClass, false, NoContext, []),
        EngineV(GPG, GpgClass, false, NoContext, []),
        EngineV(PKCS7, Pkcs7Class, false, NoContext, []),
        EngineV(ED25519, Ed25519Class, false, NoContext, [])]
    {
      var sha1 := new JcatEngine.New(this, SHA1, ChecksumClass);
      var sha256 := new JcatEngine.New(this, SHA256, ChecksumClass);
      var sha512 := new JcatEngine.New(this, SHA512, ChecksumClass);
      var gpg := new JcatEngine.New(this, GPG, GpgClass);
      var pkcs7 := new JcatEngine.New(this, PKCS7, Pkcs7Class);
      var ed25519 := new JcatEngine.New(this, ED25519, Ed25519Class);
      es := [sha1, sha256, sha512, gpg, pkcs7, ed25519];
    }

    method AddPublicKeyFile(fn: Filename)
      requires Valid()
      modifies this
      ensures Valid() && engines == old(engines)
      ensures View() == old(View()).(fns := old(publicKeys) + [fn])
    {
      publicKeys := publicKeys + [fn];
    }

    method BlobKindAllow(kind: nat)
      requires Valid()
      modifies this
      ensures Valid() && engines == old(engines)
      ensures View() == old(View()).(mask := if kind < KIND_LAST then Allow(old(blobKinds), kind) else old(blobKinds))
    {
      if kind < KIND_LAST {
        blobKinds := Allow(blobKinds, kind);
      }
    }

    method BlobKindDisallow(kind: nat)
      requires Valid()
      modifies this
      ensures Valid() && engines == old(engines)
      ensures View()
              == old(View()).(mask := if kind < KIND_LAST then Disallow(old(blobKinds), kind) else old(blobKinds))
    {
      if kind < KIND_LAST {
        blobKinds := Disallow(blobKinds, kind);
      }
    }

    method GetEngineOf(kind: U32) returns (e: JcatEngine?)
      requires Valid()
      ensures e == null <==> GetEngine(View(), kind) == None
      ensures e != null ==> e == engines[GetEngine(View(), kind).value]
    {
      if !IsAllowed(blobKinds, kind) {
        return null;
      }
      ghost var views := EngineViews(engines);
      for i := 0 to |engines|
        invariant FindEngine(views[..i], kind) == None
      {
        TakeTake(views, i + 1, i);
        if engines[i].kind == kind {
          FindPrefix(views, kind, i + 1);
          return engines[i];
        }
      }
      TakeAll(views);
      return null;
    }

    /** Only the engine that was asked can have changed. */
    twostate lemma OneEngine(k: nat)
      requires old(Valid()) && k < |old(engines)|
      requires unchanged(this) && forall i :: 0 <= i < |engines| && i != k ==> unchanged(engines[i])
      ensures Valid() && View() == WithEngine(old(View()), k, engines[k].View())
    {}

    method VerifyBlobOf(env: Env, data: Bytes, b: BlobV, flags: VerifyFlags) returns (r: Option<Result>)
      requires Valid()
      modifies engines
      ensures Valid() && unchanged(this)
      ensures VerifyBlob(env, old(View()), data, b, flags) == Ran(r, View())
    {
      var e := GetEngineOf(b.kind);
      if e == null {
        return None;
      }
      ghost var k := GetEngine(View(), b.kind).value;
      if e.cls.ChecksumClass? {
        r := e.SelfVerifyEngine(env, data, Content(b.data), flags);
      } else {
        r := e.PubkeyVerifyEngine(env, data, Content(b.data), flags);
      }
      OneEngine(k);
    }

    method VerifyItemOf(env: Env, data: Bytes, item: JcatItem, flags: VerifyFlags)
      returns (results: Option<seq<Result>>)
      requires Valid()
      modifies engines
      ensures Valid() && unchanged(this)
      ensures VerifyItem(env, old(View()), data, old(item.View()), flags) == Ran(results, View())
    {
      var blobs := item.blobs;
      if |blobs| == 0 {
        return None;
      }
      results := CheckItem(env, data, blobs, flags);
      if results == None {
        return None;
      }
      results := CheckSignatures(env, results.value, blobs, ItemMessage(data), flags);
    }

    /** All checksum engines must verify. */
    method CheckItem(env: Env, data: Bytes, blobs: seq<BlobV>, flags: VerifyFlags)
      returns (results: Option<seq<Result>>)
      requires Valid()
      modifies engines
      ensures Valid() && unchanged(this)
      ensures Checks(old(View()), blobs, ItemCheck(env, data, flags)) == Ran(results, View())
    {
      ghost var c, f := View(), ItemCheck(env, data, flags);
      results := Some([]);
      for i := 0 to |blobs|
        invariant Valid() && unchanged(this)
        invariant results.Some? && Checks(c, blobs[..i], f) == Ran(results, View())
      {
        ChecksStep(c, blobs, f, i);
        var e := GetEngineOf(blobs[i].kind);
        if e == null || !e.cls.ChecksumClass? {
          assert f(View(), blobs[i]) == Ran(Ignored, View());
          continue;
        }
        ghost var before := View();
        var r := VerifyBlobOf(env, data, blobs[i], flags);
        assert f(before, blobs[i]) == Ran(if r == None then Mismatch else Match(r.value), View());
        if r == None {
          return None;
        }
        results := Some(results.value + [r.value]);
      }
      TakeAll(blobs);
    }

    /** At least one signature may be required; those that fail are skipped. */
    method CheckSignatures(env: Env, checks: seq<Result>, blobs: seq<BlobV>, msg: Message, flags: VerifyFlags)
      returns (results: Option<seq<Result>>)
      requires Valid()
      modifies engines
      ensures Valid() && unchanged(this)
      ensures SecondPass(env, old(View()), Some(checks), blobs, msg, flags) == Ran(results, View())
    {
      if flags.requireChecksum && |checks| == 0 {
        return None;
      }
      ghost var c := View();
      var sigs: seq<Result> := [];
      for i := 0 to |blobs|
        invariant Valid() && unchanged(this)
        invariant Signatures(env, c, blobs[..i], msg, flags) == Ran(sigs, View())
      {
        SignaturesStep(env, c, blobs, msg, flags, i);
        var r := CheckSignature(env, blobs[i], msg, flags);
        if r.Some? {
          sigs := sigs + [r.value];
        }
      }
      TakeAll(blobs);
      if flags.requireSignature && |sigs| == 0 {
        return None;
      }
      if |checks + sigs| == 0 {
        return None;
      }
      return Some(checks + sigs);
    }

    /** A blob that is no signature, or has nothing to be checked against, is skipped. */
    method CheckSignature(env: Env, b: BlobV, msg: Message, flags: VerifyFlags) returns (r: Option<Result>)
      requires Valid()
      modifies engines
      ensures Valid() && unchanged(this)
      ensures SignatureStep(env, old(View()), b, msg, flags) == Ran(r, View())
    {
      var e := GetEngineOf(b.kind);
      if e == null || e.cls.ChecksumClass? || msg(b) == None {
        return None;
      }
      r := VerifyBlobOf(env, msg(b).value, b, flags);
    }

    method VerifyTargetOf(env: Env, target: JcatItem, item: JcatItem, flags: VerifyFlags)
      returns (results: Option<seq<Result>>)
      requires Valid()
      modifies engines
      ensures Valid() && unchanged(this)
      ensures VerifyTarget(env, old(View()), old(target.View()), old(item.View()), flags) == Ran(results, View())
    {
      var blobs := item.blobs;
      if |blobs| == 0 {
        return None;
      }
      results := CheckTarget(target, blobs);
      if results == None {
        return None;
      }
      var msg := TargetMessage(ItemV(target.id, target.aliasIds, target.blobs));
      results := CheckSignatures(env, results.value, blobs, msg, flags);
    }

    method CheckTarget(target: JcatItem, blobs: seq<BlobV>) returns (results: Option<seq<Result>>)
      requires Valid()
      ensures Checks(View(), blobs, TargetCheck(target.View())) == Ran(results, View())
    {
      ghost var c, f := View(), TargetCheck(target.View());
      results := Some([]);
      for i := 0 to |blobs|
        invariant results.Some? && Checks(c, blobs[..i], f) == Ran(results, c)
      {
        ChecksStep(c, blobs, f, i);
        var outcome := CheckTargetBlob(target, blobs[i]);
        match outcome
        case Ignored => {}
        case Mismatch => return None;
        case Match(result) => results := Some(results.value + [result]);
      }
      TakeAll(blobs);
    }

    /** The texts must agree when the target has one checksum of the kind. */
    method CheckTargetBlob(target: JcatItem, b: BlobV) returns (outcome: CheckOutcome)
      requires Valid()
      ensures TargetCheck(target.View())(View(), b) == Ran(outcome, View())
    {
      var e := GetEngineOf(b.kind);
      if e == null || !e.cls.ChecksumClass? {
        return Ignored;
      }
      var blobTarget := target.GetBlobByKind(b.kind);
      if blobTarget == None {
        return Ignored;
      }
      if DataAsString(b) != DataAsString(blobTarget.value) {
        return Mismatch;
      }
      return Match(Result(e.kind, 0, None));
    }
  }

  lemma {:induction false} FindPrefix(engines: seq<EngineV>, kind: U32, k: nat)
    requires k <= |engines| && FindEngine(engines[..k], kind).Some?
    ensures FindEngine(engines, kind) == FindEngine(engines[..k], kind)
  {
    var n := |engines| - 1;
    if k == |engines| {
      TakeAll(engines);
    } else {
      TakeTake(engines, n, k);
      FindPrefix(engines[..n], kind, k);
    }
  }

  /** What the blob at i adds to the pass; a mismatch ends it. */
  lemma ChecksStep(c: ContextV, blobs: seq<BlobV>, f: CheckRule, i: nat)
    requires i < |blobs| && Checks(c, blobs[..i], f).value.Some?
    ensures var front := Checks(c, blobs[..i], f);
            var r := f(front.context, blobs[i]);
            match r.value
            case Ignored => Checks(c, blobs[..i + 1], f) == Ran(front.value, r.context)
            case Mismatch => Checks(c, blobs, f) == Ran(None, r.context)
            case Match(result) => Checks(c, blobs[..i + 1], f) == Ran(Some(front.value.value + [result]), r.context)
  {
    TakeTake(blobs, i + 1, i);
    if f(Checks(c, blobs[..i], f).context, blobs[i]).value.Mismatch? {
      ChecksStop(c, blobs, f, i + 1);
    }
  }

  /** What the blob at i adds to the second pass. */
  lemma SignaturesStep(env: Env, c: ContextV, blobs: seq<BlobV>, msg: Message, flags: VerifyFlags, i: nat)
    requires i < |blobs|
    ensures var front := Signatures(env, c, blobs[..i], msg, flags);
            var r := SignatureStep(env, front.context, blobs[i], msg, flags);
            Signatures(env, c, blobs[..i + 1], msg, flags)
            == Ran(if r.value == None then front.value else front.value + [r.value.value], r.context)
  {
    TakeTake(blobs, i + 1, i);
    var sigs := Signatures(env, c, blobs[..i], msg, flags).value;
    assert sigs + [] == sigs;
  }

  lemma {:induction false} ChecksStop(c: ContextV, blobs: seq<BlobV>, f: CheckRule, k: nat)
    requires k <= |blobs| && Checks(c, blobs[..k], f).value == None
    ensures Checks(c, blobs, f) == Checks(c, blobs[..k], f)
  {
    if k == |blobs| {
      TakeAll(blobs);
    } else {
      var n := |blobs| - 1;
      TakeTake(blobs, n, k);
      ChecksStop(c, blobs[..n], f, k);
    }
  }
}
