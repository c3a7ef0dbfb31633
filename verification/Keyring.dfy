/** How the ED25519 keyring grows over a run, and why reloading after a failure does no harm. */
module Keyring {
  import opened Common
  import opened Engine

  /**
   * A key file is added to the context; the engine is asked to verify, sign or check; a raw key is added.  Files can
   * change from one call to the next, so every call has its own environment.
   */
  datatype Event =
    | AddFile(fn: Filename)
    | Call(env: Env)
    | AddRaw(env: Env, blob: Bytes)

  datatype Machine = Machine(fns: seq<Filename>, engine: EngineV)

  const FRESH: Machine := Machine([], EngineV(ED25519, Ed25519Class, false, NoContext, []))

  function Step(m: Machine, ev: Event): Machine
  {
    match ev
    case AddFile(fn) => m.(fns := m.fns + [fn])
    case Call(env) => m.(engine := Setup(env, m.fns, m.engine).engine)
    case AddRaw(env, blob) => m.(engine := AddPublicKeyRaw(env, m.fns, m.engine, blob).engine)
  }

  function Run(events: seq<Event>): Machine
  {
    if events == [] then FRESH else Step(Run(events[..|events| - 1]), events[|events| - 1])
  }

  // ---- the keyring read off the history

  /** One loading of the key files: the files as they were, and the list of them at that moment. */
  datatype Loading = Loading(env: Env, fns: seq<Filename>)

  function Outcome(l: Loading): Loaded
  {
    Load(l.env, Ed25519Class, l.fns)
  }

  datatype History = History(fns: seq<Filename>, failed: seq<Loading>, complete: Option<Loading>, raw: seq<Key>)

  /** Loading is attempted by every call until it succeeds once. */
  ghost function Attempt(h: History, env: Env): History
  {
    var l := Loading(env, h.fns);
    if h.complete.Some? then h
    else if Outcome(l).ok then h.(complete := Some(l))
    else h.(failed := h.failed + [l])
  }

  ghost function Record(h: History, ev: Event): History
  {
    match ev
    case AddFile(fn) => h.(fns := h.fns + [fn])
    case Call(env) => Attempt(h, env)
    case AddRaw(env, blob) =>
      var a := Attempt(h, env);
      if a.complete.Some? && env.importKey(blob).Some? then a.(raw := a.raw + [env.importKey(blob).value]) else a
  }

  ghost function HistoryOf(events: seq<Event>): History
  {
    if events == [] then History([], [], None, [])
    else Record(HistoryOf(events[..|events| - 1]), events[|events| - 1])
  }

  /** What the failed attempts left behind, in order. */
  ghost function Leftovers(failed: seq<Loading>): seq<Key>
  {
    if failed == [] then []
    else Leftovers(failed[..|failed| - 1]) + Outcome(failed[|failed| - 1]).keys
  }

  /** The keyring that a single successful loading would have given. */
  ghost function Proper(h: History): seq<Key>
  {
    (if h.complete.Some? then Outcome(h.complete.value).keys else []) + h.raw
  }

  ghost predicate Agrees(m: Machine, h: History)
  {
    && m.fns == h.fns
    && m.engine.kind == ED25519 && m.engine.cls == Ed25519Class
    && (m.engine.done <==> h.complete.Some?)
    && (h.complete == None ==> h.raw == [])
    && m.engine.keys == Leftovers(h.failed) + Proper(h)
    && (forall l <- h.failed :: !Outcome(l).ok && l.fns <= h.fns)
    && (h.complete.Some? ==> Outcome(h.complete.value).ok && h.complete.value.fns <= h.fns)
    && (h.complete.Some? ==> forall l <- h.failed :: l.fns <= h.complete.value.fns)
  }

  lemma AttemptAgrees(m: Machine, h: History, env: Env)
    requires Agrees(m, h)
    ensures Agrees(m.(engine := Setup(env, m.fns, m.engine).engine), Attempt(h, env))
    ensures Setup(env, m.fns, m.engine).value == Attempt(h, env).complete.Some?
  {
    var l := Loading(env, h.fns);
    if h.complete == None {
      assert Proper(h) == [];
      assert Leftovers(h.failed) + [] == Leftovers(h.failed);
      if Outcome(l).ok {
        assert Proper(h.(complete := Some(l))) == Outcome(l).keys;
      } else {
        assert (h.failed + [l])[..|h.failed|] == h.failed;
        assert Proper(h.(failed := h.failed + [l])) == [];
      }
    }
  }

  lemma RawAgrees(m: Machine, h: History, key: Key)
    requires Agrees(m, h) && h.complete.Some?
    ensures Agrees(m.(engine := m.engine.(keys := m.engine.keys + [key])), h.(raw := h.raw + [key]))
  {
    ConcatAssoc(Outcome(h.complete.value).keys, h.raw, [key]);
    ConcatAssoc(Leftovers(h.failed), Proper(h), [key]);
  }

  lemma AddRawAgrees(m: Machine, h: History, env: Env, blob: Bytes)
    requires Agrees(m, h)
    ensures Agrees(Step(m, AddRaw(env, blob)), Record(h, AddRaw(env, blob)))
  {
    var s, a, key := Setup(env, m.fns, m.engine), Attempt(h, env), env.importKey(blob);
    AttemptAgrees(m, h, env);
    if s.value && key.Some? {
      RawAgrees(m.(engine := s.engine), a, key.value);
      assert Step(m, AddRaw(env, blob)) == m.(engine := s.engine.(keys := s.engine.keys + [key.value]));
    } else {
      assert Step(m, AddRaw(env, blob)) == m.(engine := s.engine);
    }
  }

  lemma StepAgrees(m: Machine, h: History, ev: Event)
    requires Agrees(m, h)
    ensures Agrees(Step(m, ev), Record(h, ev))
  {
    match ev
    case AddFile(fn) =>
    case Call(env) => AttemptAgrees(m, h, env);
    case AddRaw(env, blob) => AddRawAgrees(m, h, env, blob);
  }

  /**
   * Over every run of calls and key additions, the keyring is the partial loads of the failed attempts in order, each
   * the loaded prefix of the key list of its moment, then one complete load, then the raw keys in order.
   */
  lemma {:induction false} KeyringShape(events: seq<Event>)
    ensures Agrees(Run(events), HistoryOf(events))
  {
    if events != [] {
      var n := |events| - 1;
      KeyringShape(events[..n]);
      StepAgrees(Run(events[..n]), HistoryOf(events[..n]), events[n]);
    }
  }

  /**
   * No key is tried before the key files have all been loaded once: until then every verification fails, and after
   * that it succeeds exactly when some key of the ring verifies.
   */
  lemma NoVerifyBeforeCompleteLoad(events: seq<Event>, env: Env, data: Bytes, sig: Bytes, flags: VerifyFlags)
    ensures var m, h := Run(events), HistoryOf(events + [Call(env)]);
            PubkeyVerify(env, m.fns, m.engine, data, sig, flags).value.Some?
            <==> h.complete.Some? && AnyKey(env, Leftovers(h.failed) + Proper(h), data, sig)
  {
    KeyringShape(events);
    AttemptAgrees(Run(events), HistoryOf(events), env);
    assert (events + [Call(env)])[..|events|] == events;
  }

  // ---- other files

  ghost function KeyFiles(fns: seq<Filename>): seq<Filename>
  {
    if fns == [] then []
    else (if HasSuffix(fns[0], ED25519_SUFFIX) then [fns[0]] else []) + KeyFiles(fns[1..])
  }

  /** Files without the suffix of an ED25519 key are never read: they neither add keys nor make loading fail. */
  lemma {:induction false} OnlyKeyFilesMatter(env: Env, fns: seq<Filename>)
    ensures Load(env, Ed25519Class, fns) == Load(env, Ed25519Class, KeyFiles(fns))
  {
    if fns != [] {
      OnlyKeyFilesMatter(env, fns[1..]);
      if HasSuffix(fns[0], ED25519_SUFFIX) {
        assert KeyFiles(fns)[1..] == KeyFiles(fns[1..]);
      } else {
        assert KeyFiles(fns) == KeyFiles(fns[1..]);
      }
    }
  }

  /** The file can be read and holds this key. */
  ghost predicate HoldsKey(env: Env, fn: Filename, k: Key)
  {
    env.readFile(fn).Some? && env.importKey(env.readFile(fn).value) == Some(k)
  }

  /** One key for each key file in order, up to the first that holds none; loading succeeds when there is none such. */
  lemma {:induction false} LoadedKeys(env: Env, fns: seq<Filename>)
    ensures var files, l := KeyFiles(fns), Load(env, Ed25519Class, fns);
            && |l.keys| <= |files| && (l.ok <==> |l.keys| == |files|)
            && (forall i :: 0 <= i < |l.keys| ==> HoldsKey(env, files[i], l.keys[i]))
            && (|l.keys| < |files| ==> forall k :: !HoldsKey(env, files[|l.keys|], k))
  {
    if fns != [] {
      LoadedKeys(env, fns[1..]);
      var files, l := KeyFiles(fns), Load(env, Ed25519Class, fns);
      if HasSuffix(fns[0], ED25519_SUFFIX) {
        assert files == [fns[0]] + KeyFiles(fns[1..]);
      } else {
        assert files == KeyFiles(fns[1..]);
        assert l.keys == Load(env, Ed25519Class, fns[1..]).keys;
      }
    }
  }

  /** The key files are those of the list whose name ends in ".ed25519", in order. */
  lemma {:induction false} KeyFilesExactly(fns: seq<Filename>, fn: Filename)
    ensures fn in KeyFiles(fns) <==> fn in fns && exists p :: fn == p + [46, 101, 100, 50, 53, 53, 49, 57]
    ensures Subsequence(KeyFiles(fns), fns)
  {
    if fns != [] {
      KeyFilesExactly(fns[1..], fn);
      SuffixMeans(fns[0], ED25519_SUFFIX);
      assert fns == [fns[0]] + fns[1..];
      if HasSuffix(fns[0], ED25519_SUFFIX) {
        assert KeyFiles(fns)[1..] == KeyFiles(fns[1..]);
      } else {
        assert KeyFiles(fns) == KeyFiles(fns[1..]);
      }
    }
  }

  // ---- duplicates

  /** Whenever the file can be loaded it gives the same keys. */
  ghost predicate Stable(l: Loading, files: Filename -> seq<Key>)
  {
    forall fn <- l.fns :: LoadOne(l.env, Ed25519Class, fn).Some? ==> LoadOne(l.env, Ed25519Class, fn).value == files(fn)
  }

  ghost predicate StableHistory(h: History, files: Filename -> seq<Key>)
  {
    (forall l <- h.failed :: Stable(l, files)) && (h.complete.Some? ==> Stable(h.complete.value, files))
  }

  ghost function AllKeys(fns: seq<Filename>, files: Filename -> seq<Key>): seq<Key>
  {
    if fns == [] then [] else files(fns[0]) + AllKeys(fns[1..], files)
  }

  /** A loading yields a prefix of the keys of all files, and all of them when it completes. */
  lemma {:induction false} LoadIsPrefix(env: Env, fns: seq<Filename>, files: Filename -> seq<Key>)
    requires Stable(Loading(env, fns), files)
    ensures Load(env, Ed25519Class, fns).keys <= AllKeys(fns, files)
    ensures Load(env, Ed25519Class, fns).ok ==> Load(env, Ed25519Class, fns).keys == AllKeys(fns, files)
  {
    if fns != [] {
      assert fns[0] in fns;
      if LoadOne(env, Ed25519Class, fns[0]).Some? {
        assert forall fn <- fns[1..] :: fn in fns;
        LoadIsPrefix(env, fns[1..], files);
      }
    }
  }

  lemma {:induction false} AllKeysGrow(fns: seq<Filename>, more: seq<Filename>, files: Filename -> seq<Key>)
    requires fns <= more
    ensures AllKeys(fns, files) <= AllKeys(more, files)
  {
    if fns != [] {
      assert fns[0] == more[0] && fns[1..] <= more[1..];
      AllKeysGrow(fns[1..], more[1..], files);
    }
  }

  lemma {:induction false} LeftoversAreKnown(failed: seq<Loading>, fns: seq<Filename>,
      files: Filename -> seq<Key>, k: Key)
    requires forall l <- failed :: Stable(l, files) && l.fns <= fns
    requires k in Leftovers(failed)
    ensures k in AllKeys(fns, files)
  {
    var n := |failed| - 1;
    var last := failed[n];
    assert last in failed;
    if k in Outcome(last).keys {
      LoadIsPrefix(last.env, last.fns, files);
      AllKeysGrow(last.fns, fns, files);
    } else {
      assert forall l <- failed[..n] :: l in failed;
      LeftoversAreKnown(failed[..n], fns, files, k);
    }
  }

  lemma AnyKeyConcat(env: Env, a: seq<Key>, b: seq<Key>, data: Bytes, sig: Bytes)
    ensures AnyKey(env, a + b, data, sig) <==> AnyKey(env, a, data, sig) || AnyKey(env, b, data, sig)
  {
    if AnyKey(env, a, data, sig) {
      var i :| 0 <= i < |a| && env.verifyOne(a[i], data, sig);
      assert (a + b)[i] == a[i];
    }
    if AnyKey(env, b, data, sig) {
      var i :| 0 <= i < |b| && env.verifyOne(b[i], data, sig);
      assert (a + b)[|a| + i] == b[i];
    }
  }

  /**
   * The keys that failed attempts left behind change no verdict, as long as a file that loads gives the same keys each
   * time: the answer is that of a keyring loaded once.
   */
  lemma RetriesAreHarmless(
    events: seq<Event>, files: Filename -> seq<Key>, env: Env, data: Bytes, sig: Bytes, flags: VerifyFlags)
    requires Run(events).engine.done && StableHistory(HistoryOf(events), files)
    ensures var m := Run(events);
            PubkeyVerify(env, m.fns, m.engine, data, sig, flags).value.Some?
            <==> AnyKey(env, Proper(HistoryOf(events)), data, sig)
  {
    KeyringShape(events);
    var h := HistoryOf(events);
    var keys, full := Leftovers(h.failed), Outcome(h.complete.value).keys;
    AnyKeyConcat(env, keys, Proper(h), data, sig);
    if AnyKey(env, keys, data, sig) {
      var i :| 0 <= i < |keys| && env.verifyOne(keys[i], data, sig);
      LeftoversAreKnown(h.failed, h.complete.value.fns, files, keys[i]);
      LoadIsPrefix(h.complete.value.env, h.complete.value.fns, files);
      var j :| 0 <= j < |full| && full[j] == keys[i];
      assert AnyKey(env, full, data, sig);
      AnyKeyConcat(env, full, h.raw, data, sig);
    }
  }

  /** For any files at all, the verdict is that of a keyring loaded once, or a key left behind verifies. */
  lemma RetriesInGeneral(events: seq<Event>, env: Env, data: Bytes, sig: Bytes, flags: VerifyFlags)
    requires Run(events).engine.done
    ensures var m, h := Run(events), HistoryOf(events);
            PubkeyVerify(env, m.fns, m.engine, data, sig, flags).value.Some?
            <==> AnyKey(env, Proper(h), data, sig) || AnyKey(env, Leftovers(h.failed), data, sig)
  {
    KeyringShape(events);
    AnyKeyConcat(env, Leftovers(HistoryOf(events).failed), Proper(HistoryOf(events)), data, sig);
  }
}
