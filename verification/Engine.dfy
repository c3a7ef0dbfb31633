/** jcat-engine.c and the engine classes, as functions of the engine's state. */
module Engine {
  import opened Common
  import opened Blob

  const SHA256: U32 := 1
  const GPG: U32 := 2
  const PKCS7: U32 := 3
  const SHA1: U32 := 4
  const ED25519: U32 := 9
  const SHA512: U32 := 10

  type Key = Bytes
  type Filename = CString

  /** other stands for the flags that only the foreign libraries look at. */
  datatype VerifyFlags = VerifyFlags(requireChecksum: bool, requireSignature: bool, other: nat)

  datatype Result = Result(kind: U32, timestamp: I64, authority: Option<CString>)

  datatype Method = Checksum | Signature

  /** Which hooks a class provides: checksum classes load no keys, and only the GPG class has a setup hook. */
  datatype EngineClass = ChecksumClass | Ed25519Class | Pkcs7Class | GpgClass

  /** A GPG context that failed to configure is kept all the same. */
  datatype GpgContext = NoContext | HalfConfigured | Configured

  /** Where creating and configuring a GPG context ends. */
  datatype GpgSetup = FailsToCreate | FailsToConfigure | Succeeds

  /** Who signed, and when. */
  datatype Signer = Signer(timestamp: I64, authority: Option<CString>)

  /** What GnuTLS or GPG answers for a signature, given the keys loaded and the flags it looks at. */
  type ForeignVerify = (EngineClass, GpgContext, seq<Key>, Bytes, Bytes, nat) -> Option<Signer>

  /** A checksum in hexadecimal. */
  type Digest = s: CString | s != [] witness [48]

  /**
   * Everything the foreign libraries and the file system decide, as deterministic functions: checksums, reading files,
   * importing and checking one ED25519 key, for the PKCS7 and GPG classes loading a key file and checking a signature
   * against the keys loaded, and for the ED25519 and PKCS7 classes checking a signature against the machine's own key.
   */
  datatype Env = Env(
    digest: (U32, Bytes) -> Digest,
    readFile: Filename -> Option<Bytes>,
    importKey: Bytes -> Option<Key>,
    verifyOne: (Key, Bytes, Bytes) -> bool,
    gpgSetup: GpgSetup,
    loadForeign: (EngineClass, Filename) -> Option<seq<Key>>,
    importForeign: Bytes -> Option<Key>,
    verifyForeign: ForeignVerify,
    selfVerifyForeign: (EngineClass, Bytes, Bytes, nat) -> Option<Signer>)

  datatype EngineV = EngineV(kind: U32, cls: EngineClass, done: bool, gpg: GpgContext, keys: seq<Key>)

  function MethodOf(cls: EngineClass): Method
  {
    if cls.ChecksumClass? then Checksum else Signature
  }

  const ED25519_SUFFIX: Bytes := [46, 101, 100, 50, 53, 53, 49, 57]  // ".ed25519"

  predicate HasSuffix(s: Bytes, suffix: Bytes)
  {
    |suffix| <= |s| && s[|s| - |suffix|..] == suffix
  }

  /** The add_public_key hook: None on failure, no keys for a file that is not meant for the class. */
  function LoadOne(env: Env, cls: EngineClass, fn: Filename): Option<seq<Key>>
  {
    if cls.Ed25519Class? then
      if !HasSuffix(fn, ED25519_SUFFIX) then Some([])
      else
        match env.readFile(fn)
        case None => None
        case Some(blob) => (match env.importKey(blob) case None => None case Some(key) => Some([key]))
    else env.loadForeign(cls, fn)
  }

  datatype Loaded = Loaded(ok: bool, keys: seq<Key>)

  /** Loads the files in order up to the first that fails. */
  function Load(env: Env, cls: EngineClass, fns: seq<Filename>): Loaded
  {
    if fns == [] || cls.ChecksumClass? then Loaded(true, [])
    else
      match LoadOne(env, cls, fns[0])
      case None => Loaded(false, [])
      case Some(keys) =>
        var rest := Load(env, cls, fns[1..]);
        Loaded(rest.ok, keys + rest.keys)
  }

  datatype Stepped<T> = Stepped(value: T, engine: EngineV)

  /** The setup hook: an existing GPG context counts as set up, whether or not it was ever configured. */
  function SetupHook(env: Env, e: EngineV): Stepped<bool>
  {
    if !e.cls.GpgClass? || !e.gpg.NoContext? then Stepped(true, e)
    else
      match env.gpgSetup
      case FailsToCreate => Stepped(false, e)
      case FailsToConfigure => Stepped(false, e.(gpg := HalfConfigured))
      case Succeeds => Stepped(true, e.(gpg := Configured))
  }

  /** jcat_engine_setup: keys loaded before a failure stay in the keyring. */
  function Setup(env: Env, fns: seq<Filename>, e: EngineV): Stepped<bool>
  {
    if e.done then Stepped(true, e)
    else
      var hook := SetupHook(env, e);
      if !hook.value then hook
      else
        var l := Load(env, e.cls, fns);
        Stepped(l.ok, hook.engine.(keys := e.keys + l.keys, done := l.ok))
  }

  predicate AnyKey(env: Env, keys: seq<Key>, data: Bytes, sig: Bytes)
  {
    exists i :: 0 <= i < |keys| && env.verifyOne(keys[i], data, sig)
  }

  /** A result names the engine it comes from. */
  function ResultOf(kind: U32, signer: Option<Signer>): (r: Option<Result>)
    ensures r.Some? ==> r.value.kind == kind
  {
    if signer == None then None else Some(Result(kind, signer.value.timestamp, signer.value.authority))
  }

  /** The pubkey_verify hook. */
  function ClassVerify(env: Env, e: EngineV, data: Bytes, sig: Bytes, flags: VerifyFlags): Option<Result>
    requires !e.cls.ChecksumClass?
  {
    if e.cls.Ed25519Class? then
      if AnyKey(env, e.keys, data, sig) then Some(Result(e.kind, 0, None)) else None
    else ResultOf(e.kind, env.verifyForeign(e.cls, e.gpg, e.keys, data, sig, flags.other))
  }

  /** jcat_engine_pubkey_verify: a class without the hook fails before setup. */
  function PubkeyVerify(env: Env, fns: seq<Filename>, e: EngineV, data: Bytes, sig: Bytes, flags: VerifyFlags)
    : (r: Stepped<Option<Result>>)
    ensures r.engine == if e.cls.ChecksumClass? then e else Setup(env, fns, e).engine
    ensures r.value.Some? ==> r.engine.done
  {
    if e.cls.ChecksumClass? then Stepped(None, e)
    else
      var s := Setup(env, fns, e);
      Stepped(if s.value then ClassVerify(env, s.engine, data, sig, flags) else None, s.engine)
  }

  /** The self_verify hook of a checksum class. */
  function Check(env: Env, kind: U32, data: Bytes, checksum: Bytes): Option<Result>
  {
    if env.digest(kind, data) == checksum then Some(Result(kind, 0, None)) else None
  }

  /** The self_sign hook of a checksum class. */
  function SelfSign(env: Env, kind: U32, data: Bytes, now: I64): BlobV
  {
    BlobV(kind, KIND_UNKNOWN, 1, BytesNew(env.digest(kind, data)), None, now)
  }

  /** jcat_engine_add_public_key_raw: setup first, so that raw keys come after the files. */
  function AddPublicKeyRaw(env: Env, fns: seq<Filename>, e: EngineV, blob: Bytes): Stepped<bool>
  {
    if e.cls.ChecksumClass? || e.cls.GpgClass? then Stepped(false, e)
    else
      var s := Setup(env, fns, e);
      var key := if e.cls.Ed25519Class? then env.importKey(blob) else env.importForeign(blob);
      if !s.value || key == None then Stepped(false, s.engine)
      else Stepped(true, s.engine.(keys := s.engine.keys + [key.value]))
  }

  // ---- what loading and setup do

  lemma {:induction false} SuffixMeans(s: Bytes, suffix: Bytes)
    ensures HasSuffix(s, suffix) <==> exists p :: s == p + suffix
  {
    if HasSuffix(s, suffix) {
      var p := s[..|s| - |suffix|];
      assert s == p + suffix;
    }
    if p :| s == p + suffix {
      assert s[|s| - |suffix|..] == suffix;
    }
  }

  /** The keys of files that can all be loaded, in order. */
  ghost function KeysOf(env: Env, cls: EngineClass, fns: seq<Filename>): seq<Key>
    requires forall fn <- fns :: LoadOne(env, cls, fn).Some?
  {
    if fns == [] then []
    else
      var n := |fns| - 1;
      assert fns[n] in fns;
      KeysOf(env, cls, fns[..n]) + LoadOne(env, cls, fns[n]).value
  }

  lemma {:induction false} KeysOfCons(env: Env, cls: EngineClass, fn: Filename, fns: seq<Filename>)
    requires LoadOne(env, cls, fn).Some? && forall g <- fns :: LoadOne(env, cls, g).Some?
    ensures forall g <- [fn] + fns :: LoadOne(env, cls, g).Some?
    ensures KeysOf(env, cls, [fn] + fns) == LoadOne(env, cls, fn).value + KeysOf(env, cls, fns)
    decreases |fns|
  {
    var all := [fn] + fns;
    if fns == [] {
      assert all[..0] == fns;
    } else {
      var n := |fns| - 1;
      assert fns[n] in fns && all[..n + 1] == [fn] + fns[..n];
      KeysOfCons(env, cls, fn, fns[..n]);
      ConcatAssoc(LoadOne(env, cls, fn).value, KeysOf(env, cls, fns[..n]), LoadOne(env, cls, fns[n]).value);
    }
  }

  /** Loading goes up to the first file that cannot be loaded, and keeps the keys of those before it. */
  lemma {:induction false} LoadIsExact(env: Env, cls: EngineClass, fns: seq<Filename>) returns (n: nat)
    requires !cls.ChecksumClass?
    ensures n <= |fns| && forall fn <- fns[..n] :: LoadOne(env, cls, fn).Some?
    ensures n < |fns| ==> LoadOne(env, cls, fns[n]) == None
    ensures Load(env, cls, fns) == Loaded(n == |fns|, KeysOf(env, cls, fns[..n]))
  {
    n := 0;
    if fns != [] && LoadOne(env, cls, fns[0]).Some? {
      var m := LoadIsExact(env, cls, fns[1..]);
      n := m + 1;
      KeysOfCons(env, cls, fns[0], fns[1..][..m]);
      assert fns[..n] == [fns[0]] + fns[1..][..m];
    }
  }

  /** Setup has ended well, or will: GPG can be configured if it has not been tried, and every key file loads. */
  ghost predicate Ready(env: Env, fns: seq<Filename>, e: EngineV)
  {
    e.done || ((e.cls.GpgClass? && e.gpg.NoContext? ==> env.gpgSetup.Succeeds?) && Load(env, e.cls, fns).ok)
  }

  /** The keys a signature is checked against. */
  ghost function Ring(env: Env, fns: seq<Filename>, e: EngineV): seq<Key>
  {
    if e.done then e.keys else e.keys + Load(env, e.cls, fns).keys
  }

  /** The GPG context it is checked in: one that exists is taken as it is. */
  ghost function ContextUsed(e: EngineV): GpgContext
  {
    if e.cls.GpgClass? && e.gpg.NoContext? && !e.done then Configured else e.gpg
  }

  ghost predicate Verifies(
    env: Env, fns: seq<Filename>, e: EngineV, data: Bytes, sig: Bytes, flags: VerifyFlags, r: Result)
  {
    r.kind == e.kind
    && match e.cls
       case ChecksumClass => false
       case Ed25519Class =>
         r.timestamp == 0 && r.authority == None && exists k :: k in Ring(env, fns, e) && env.verifyOne(k, data, sig)
       case _ =>
         env.verifyForeign(e.cls, ContextUsed(e), Ring(env, fns, e), data, sig, flags.other)
         == Some(Signer(r.timestamp, r.authority))
  }

  /** What an attempt at setup leaves behind. */
  lemma SetupLeaves(env: Env, fns: seq<Filename>, e: EngineV)
    ensures var e', hooked := Setup(env, fns, e).engine, e.cls.GpgClass? && e.gpg.NoContext? && !e.done;
            && e'.kind == e.kind && e'.cls == e.cls && (e.done ==> e' == e)
            && Setup(env, fns, e).value == e'.done && (e'.done <==> Ready(env, fns, e))
            && e'.keys == (if hooked && !env.gpgSetup.Succeeds? then e.keys else Ring(env, fns, e))
            && e'.gpg == (if !hooked then e.gpg
                          else match env.gpgSetup
                               case FailsToCreate => NoContext
                               case FailsToConfigure => HalfConfigured
                               case Succeeds => Configured)
  {}

  /** From any state, a signature verifies exactly when setup has ended well or will, and the class accepts it. */
  lemma AnswerIsExact(env: Env, fns: seq<Filename>, e: EngineV, data: Bytes, sig: Bytes, flags: VerifyFlags, r: Result)
    ensures PubkeyVerify(env, fns, e, data, sig, flags).value == Some(r)
            <==> Ready(env, fns, e) && Verifies(env, fns, e, data, sig, flags, r)
  {
    var keys := Ring(env, fns, e);
    if AnyKey(env, keys, data, sig) {
      var i :| 0 <= i < |keys| && env.verifyOne(keys[i], data, sig);
      assert keys[i] in keys;
    }
    if k :| k in keys && env.verifyOne(k, data, sig) {
      var i :| 0 <= i < |keys| && keys[i] == k;
      assert AnyKey(env, keys, data, sig);
    }
  }

  /**
   * A raw key is taken exactly by an ED25519 or PKCS7 engine whose setup has ended well or will, if it can be imported,
   * and goes behind all others.
   */
  lemma RawKeyIsExact(env: Env, fns: seq<Filename>, e: EngineV, blob: Bytes)
    ensures var r, hook := AddPublicKeyRaw(env, fns, e, blob), e.cls.Ed25519Class? || e.cls.Pkcs7Class?;
            var key := if e.cls.Ed25519Class? then env.importKey(blob) else env.importForeign(blob);
            && (r.value <==> hook && Ready(env, fns, e) && key.Some?)
            && (r.value ==> r.engine.keys == Ring(env, fns, e) + [key.value])
            && (!r.value ==> r.engine == if hook then Setup(env, fns, e).engine else e)
  {
    SetupLeaves(env, fns, e);
  }

  // ---- laws of one engine

  /** A checksum blob made by self_sign verifies, and any other bytes of that kind do not. */
  lemma SelfSignVerifies(env: Env, kind: U32, data: Bytes, now: I64, checksum: Bytes)
    ensures Check(env, kind, data, checksum).Some? <==> checksum == Content(SelfSign(env, kind, data, now).data)
  {}

  /**
   * Setup may be left half done by a GPG context that is created but not configured: the next attempt takes the
   * context for a configured one, and ends well once the keys load.
   */
  predicate Settled(env: Env, fns: seq<Filename>, e: EngineV)
  {
    e.cls.GpgClass? && !e.done && e.gpg.NoContext? && env.gpgSetup.FailsToConfigure? ==> !Load(env, e.cls, fns).ok
  }

  /** Otherwise attempting setup, which every call does first, never changes what a call answers. */
  lemma SetupKeepsVerdict(env: Env, fns: seq<Filename>, e: EngineV, data: Bytes, sig: Bytes, flags: VerifyFlags)
    requires Settled(env, fns, e)
    ensures var e' := Setup(env, fns, e).engine;
            && Settled(env, fns, e') && e'.kind == e.kind && e'.cls == e.cls
            && PubkeyVerify(env, fns, e', data, sig, flags).value == PubkeyVerify(env, fns, e, data, sig, flags).value
  {}

  /** In any case a call that succeeds once gives the same result ever after. */
  lemma SetupKeepsSuccess(env: Env, fns: seq<Filename>, e: EngineV, data: Bytes, sig: Bytes, flags: VerifyFlags)
    requires PubkeyVerify(env, fns, e, data, sig, flags).value.Some?
    ensures PubkeyVerify(env, fns, Setup(env, fns, e).engine, data, sig, flags).value
            == PubkeyVerify(env, fns, e, data, sig, flags).value
  {}

  /** An engine that is not settled fails once, and after that answers with its misconfigured context. */
  lemma UnsettledVerdict(env: Env, fns: seq<Filename>, e: EngineV, data: Bytes, sig: Bytes, flags: VerifyFlags)
    requires !Settled(env, fns, e)
    ensures PubkeyVerify(env, fns, e, data, sig, flags).value == None
    ensures PubkeyVerify(env, fns, Setup(env, fns, e).engine, data, sig, flags).value
            == ResultOf(e.kind, env.verifyForeign(e.cls, HalfConfigured, e.keys + Load(env, e.cls, fns).keys, data, sig,
                                                  flags.other))
  {}
}
