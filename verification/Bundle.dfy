/** The import walk of contrib/win32/bundle.sh: a worklist with a visited set. */
module Bundle {
  import opened Common

  type Name = Bytes
  type Content = Bytes

  datatype FileSystem = CaseSensitive | CaseInsensitive

  /** prefix and built are the two bin directories before the walk; imports is what objdump prints for a file. */
  datatype Disk = Disk(
    fs: FileSystem, prefix: map<Name, Content>, built: map<Name, Content>,
    initial: seq<Name>, imports: Content -> seq<Name>)

  datatype State = State(out: map<Name, Content>, seen: set<Name>, queue: seq<Name>)

  function FoldByte(c: Byte): Byte
  {
    if 65 <= c <= 90 then c + 32 else c
  }

  /** ${dll,,} */
  function Fold(n: Name): (r: Name)
    ensures |r| == |n|
  {
    seq(|n|, i requires 0 <= i < |n| => FoldByte(n[i]))
  }

  /** Capital letters become small ones, and nothing else changes. */
  lemma FoldMeans(n: Name)
    ensures forall i :: 0 <= i < |n| ==> Fold(n)[i] == if 'A' as int <= n[i] <= 'Z' as int then n[i] + 32 else n[i]
  {}

  lemma FoldTwice(n: Name)
    ensures Fold(Fold(n)) == Fold(n)
  {}

  /** The directory entry a name denotes. */
  function Key(fs: FileSystem, n: Name): (k: Name)
    ensures Fold(k) == Fold(n)
  {
    FoldTwice(n);
    if fs.CaseSensitive? then n else Fold(n)
  }

  /** The prefix directory has an entry with these bytes under the name. */
  ghost predicate Under(disk: Disk, n: Name, content: Content)
  {
    Key(disk.fs, n) in disk.prefix && disk.prefix[Key(disk.fs, n)] == content
  }

  /** A name stands for the entry under itself, or for want of one for that under its lower-case form. */
  ghost predicate Resolves(disk: Disk, dll: Name, content: Content)
  {
    Under(disk, dll, content) || (Under(disk, Fold(dll), content) && forall other :: !Under(disk, dll, other))
  }

  ghost predicate Resolvable(disk: Disk, dll: Name)
  {
    exists content :: Resolves(disk, dll, content)
  }

  /** The file in the prefix that a DLL name resolves to; a name without one is a system DLL. */
  function PrefixContent(disk: Disk, dll: Name): (r: Option<Content>)
    ensures r.Some? ==> Resolves(disk, dll, r.value)
    ensures r == None ==> !Resolvable(disk, dll)
  {
    assert Key(disk.fs, dll) in disk.prefix ==> Under(disk, dll, disk.prefix[Key(disk.fs, dll)]);
    if Key(disk.fs, dll) in disk.prefix then Some(disk.prefix[Key(disk.fs, dll)])
    else if Key(disk.fs, Fold(dll)) in disk.prefix then Some(disk.prefix[Key(disk.fs, Fold(dll))])
    else None
  }

  // ---- the walk as a function of its state

  ghost predicate Valid(disk: Disk, s: State)
  {
    && (forall k <- s.out :: s.out[k] in Contents(disk))
    && (forall q <- s.queue :: Key(disk.fs, q) in s.out)
  }

  function Contents(disk: Disk): set<Content>
  {
    disk.built.Values + disk.prefix.Values
  }

  /** Every key the walk can ever see. */
  ghost function Universe(disk: Disk): set<Name>
  {
    set c, i | c in Contents(disk) && 0 <= i < |disk.imports(c)| :: Fold(disk.imports(c)[i])
  }

  function Visit(disk: Disk, s: State, dll: Name): (r: State)
    requires Valid(disk, s)
    ensures Valid(disk, r)
    ensures s.seen <= r.seen <= s.seen + {Fold(dll)}
    ensures r.seen == s.seen ==> r == s
  {
    if dll == [] || Fold(dll) in s.seen then s
    else
      var seen := s.seen + {Fold(dll)};
      assert Fold(dll) in seen;
      match PrefixContent(disk, dll)
      case None => s.(seen := seen)
      case Some(content) =>
        var out := if Key(disk.fs, dll) in s.out then s.out else s.out[Key(disk.fs, dll) := content];
        State(out, seen, s.queue + [dll])
  }

  function VisitAll(disk: Disk, s: State, dlls: seq<Name>): (r: State)
    requires Valid(disk, s)
    ensures Valid(disk, r)
    ensures s.seen <= r.seen
    ensures forall k <- r.seen :: k in s.seen || exists i :: 0 <= i < |dlls| && k == Fold(dlls[i])
    ensures r.seen == s.seen ==> r == s
  {
    if dlls == [] then s
    else
      var before := VisitAll(disk, s, dlls[..|dlls| - 1]);
      Visit(disk, before, dlls[|dlls| - 1])
  }

  /** Takes one file off the queue and visits its imports. */
  function Advance(disk: Disk, s: State): (r: State)
    requires Valid(disk, s) && s.queue != []
    ensures Valid(disk, r)
    ensures Universe(disk) - r.seen < Universe(disk) - s.seen
            || (r.seen == s.seen && |r.queue| < |s.queue|)
  {
    var current := s.queue[0];
    var content := s.out[Key(disk.fs, current)];
    var rest := s.(queue := s.queue[1..]);
    var r := VisitAll(disk, rest, disk.imports(content));
    assert forall k <- r.seen :: k in s.seen || k in Universe(disk);
    r
  }

  ghost function Run(disk: Disk, s: State): (r: State)
    requires Valid(disk, s)
    ensures Valid(disk, r)
    decreases Universe(disk) - s.seen, |s.queue|
  {
    if s.queue == [] then s else Run(disk, Advance(disk, s))
  }

  ghost predicate Installed(disk: Disk)
  {
    forall n <- disk.initial :: Key(disk.fs, n) in disk.built
  }

  function Start(disk: Disk): State
  {
    State(disk.built, {}, disk.initial)
  }

  /** The inner loop: reads the imports of one file. */
  method ReadImports(disk: Disk, ghost s: State, dlls: seq<Name>, o: map<Name, Content>, v: set<Name>, q: seq<Name>)
    returns (out: map<Name, Content>, seen: set<Name>, queue: seq<Name>)
    requires s == State(o, v, q) && Valid(disk, s)
    ensures State(out, seen, queue) == VisitAll(disk, s, dlls)
  {
    out, seen, queue := o, v, q;
    for i := 0 to |dlls|
      invariant State(out, seen, queue) == VisitAll(disk, s, dlls[..i])
    {
      assert dlls[..i + 1][..i] == dlls[..i];
      var dll := dlls[i];
      if dll == [] {
        continue;
      }
      var key := Fold(dll);
      if key in seen {
        continue;
      }
      seen := seen + {key};
      var src: Content;
      if Key(disk.fs, dll) in disk.prefix {
        src := disk.prefix[Key(disk.fs, dll)];
      } else if Key(disk.fs, Fold(dll)) in disk.prefix {
        src := disk.prefix[Key(disk.fs, Fold(dll))];
      } else {
        continue;
      }
      if Key(disk.fs, dll) !in out {
        out := out[Key(disk.fs, dll) := src];
      }
      queue := queue + [dll];
    }
    assert dlls[..|dlls|] == dlls;
  }

  /** The outer loop.  Terminates on every disk, cyclic imports included. */
  method ResolveImports(disk: Disk) returns (out: map<Name, Content>)
    requires Installed(disk)
    ensures out == Run(disk, Start(disk)).out
  {
    out := disk.built;
    var seen: set<Name> := {};
    var queue := disk.initial;
    while |queue| > 0
      invariant Valid(disk, State(out, seen, queue))
      invariant Run(disk, State(out, seen, queue)) == Run(disk, Start(disk))
      decreases Universe(disk) - seen, |queue|
    {
      ghost var s := State(out, seen, queue);
      var current := queue[0];
      queue := queue[1..];
      var dlls := disk.imports(out[Key(disk.fs, current)]);
      out, seen, queue := ReadImports(disk, State(out, seen, queue), dlls, out, seen, queue);
      assert State(out, seen, queue) == Advance(disk, s);
    }
  }

  // ---- reachability

  /** The bytes behind a module name: what was built, or else what the prefix has. */
  ghost function ContentOf(disk: Disk, n: Name): Option<Content>
  {
    if Key(disk.fs, n) in disk.built then Some(disk.built[Key(disk.fs, n)]) else PrefixContent(disk, n)
  }

  ghost predicate Names(disk: Disk, m: Name, dll: Name)
  {
    ContentOf(disk, m).Some? && dll != [] && dll in disk.imports(ContentOf(disk, m).value)
  }

  /** n is k resolved imports away from an initial binary. */
  ghost predicate Reach(disk: Disk, n: Name, k: nat)
    decreases k
  {
    if k == 0 then n in disk.initial
    else Resolvable(disk, n) && exists m :: Reach(disk, m, k - 1) && Names(disk, m, n)
  }

  ghost predicate Reachable(disk: Disk, n: Name)
  {
    exists k: nat :: Reach(disk, n, k)
  }

  /** Some reachable module imports dll, whether it resolves or not. */
  ghost predicate Mentioned(disk: Disk, dll: Name)
  {
    exists m :: Reachable(disk, m) && Names(disk, m, dll)
  }

  /** dll is imported by a reachable module, resolves in the prefix and was not there before the walk. */
  ghost predicate Needed(disk: Disk, dll: Name)
  {
    Mentioned(disk, dll) && Resolvable(disk, dll) && Key(disk.fs, dll) !in disk.built
  }

  /** Resolution of imported names depends only on the case-folded name. */
  ghost predicate FoldsConsistently(disk: Disk)
  {
    forall a, b :: Mentioned(disk, a) && Mentioned(disk, b) && Fold(a) == Fold(b) ==>
      && PrefixContent(disk, a) == PrefixContent(disk, b)
      && ContentOf(disk, a) == ContentOf(disk, b)
      && (Key(disk.fs, a) in disk.built <==> Key(disk.fs, b) in disk.built)
  }

  lemma MentionedReach(disk: Disk, m: Name, dll: Name)
    requires Reachable(disk, m) && Names(disk, m, dll)
    ensures Mentioned(disk, dll)
    ensures PrefixContent(disk, dll).Some? ==> Reachable(disk, dll)
  {
    var k: nat :| Reach(disk, m, k);
    if PrefixContent(disk, dll).Some? { assert Reach(disk, dll, k + 1); }
  }

  lemma ReachStep(disk: Disk, n: Name, k: nat) returns (m: Name)
    requires k > 0 && Reach(disk, n, k)
    ensures Reach(disk, m, k - 1) && Names(disk, m, n) && Reachable(disk, m) && PrefixContent(disk, n).Some?
  {
    m :| Reach(disk, m, k - 1) && Names(disk, m, n);
    assert PrefixContent(disk, n) == None ==> !Resolvable(disk, n);
  }

  // ---- what the walk keeps

  /** Nothing built is replaced, and every copied file is needed and holds what the prefix has for it. */
  ghost predicate OutOk(disk: Disk, out: map<Name, Content>)
  {
    && (forall k <- disk.built :: k in out && out[k] == disk.built[k])
    && (forall k <- out :: k !in disk.built ==> exists d :: Provides(disk, d, k, out[k]))
  }

  ghost predicate Provides(disk: Disk, d: Name, k: Name, content: Content)
  {
    Key(disk.fs, d) == k && Needed(disk, d) && Resolves(disk, d, content)
  }

  /** rep gives the spelling under which each key was met; walked holds the modules taken off the queue. */
  ghost predicate RepOk(disk: Disk, s: State, rep: map<Name, Name>, walked: set<Name>)
  {
    && rep.Keys == s.seen
    && forall k <- rep ::
      Fold(rep[k]) == k && Mentioned(disk, rep[k]) && Handled(disk, s, rep[k], walked)
  }

  ghost predicate Handled(disk: Disk, s: State, d: Name, walked: set<Name>)
  {
    PrefixContent(disk, d).Some? ==> Key(disk.fs, d) in s.out && (d in s.queue || d in walked)
  }

  /** Every copied file has the spelling under which its key was met, so no key is copied twice. */
  ghost predicate Distinct(disk: Disk, out: map<Name, Content>, rep: map<Name, Name>)
  {
    forall k <- out :: k !in disk.built ==> Fold(k) in rep && k == Key(disk.fs, rep[Fold(k)])
  }

  ghost predicate Core(disk: Disk, s: State, rep: map<Name, Name>, walked: set<Name>)
  {
    && Valid(disk, s)
    && OutOk(disk, s.out)
    && (forall q <- s.queue :: Reachable(disk, q))
    && RepOk(disk, s, rep, walked)
    && Distinct(disk, s.out, rep)
    && (forall n <- disk.initial :: n in s.queue || n in walked)
  }

  ghost predicate ImportsSeen(disk: Disk, m: Name, seen: set<Name>)
  {
    Reachable(disk, m) && forall d :: Names(disk, m, d) ==> Fold(d) in seen
  }

  ghost predicate Inv(disk: Disk, s: State, rep: map<Name, Name>, walked: set<Name>)
  {
    Core(disk, s, rep, walked) && forall m <- walked :: ImportsSeen(disk, m, s.seen)
  }

  lemma OutIsContent(disk: Disk, out: map<Name, Content>, n: Name)
    requires OutOk(disk, out) && Key(disk.fs, n) in out
    ensures ContentOf(disk, n) == Some(out[Key(disk.fs, n)])
  {
    var k := Key(disk.fs, n);
    if k !in disk.built {
      var d :| Provides(disk, d, k, out[k]);
      assert Fold(d) == Fold(k) == Fold(n);
    }
  }

  lemma VisitOut(disk: Disk, s: State, dll: Name)
    requires Valid(disk, s) && OutOk(disk, s.out) && (dll != [] ==> Mentioned(disk, dll))
    ensures OutOk(disk, Visit(disk, s, dll).out)
  {
    if Visit(disk, s, dll).out != s.out { AddedOut(disk, s.out, dll); }
  }

  lemma AddedOut(disk: Disk, before: map<Name, Content>, dll: Name)
    requires OutOk(disk, before) && Mentioned(disk, dll)
    requires PrefixContent(disk, dll).Some? && Key(disk.fs, dll) !in before
    ensures OutOk(disk, before[Key(disk.fs, dll) := PrefixContent(disk, dll).value])
  {
    var key := Key(disk.fs, dll);
    var out := before[key := PrefixContent(disk, dll).value];
    NewIsProvided(disk, dll);
    forall k | k in out && k !in disk.built ensures exists d :: Provides(disk, d, k, out[k]) {
      if k != key {
        var d :| Provides(disk, d, k, before[k]);
        assert Provides(disk, d, k, out[k]);
      }
    }
  }

  lemma NewIsProvided(disk: Disk, dll: Name)
    requires Mentioned(disk, dll) && PrefixContent(disk, dll).Some? && Key(disk.fs, dll) !in disk.built
    ensures Provides(disk, dll, Key(disk.fs, dll), PrefixContent(disk, dll).value)
  {}

  lemma VisitRep(disk: Disk, s: State, rep: map<Name, Name>, walked: set<Name>, dll: Name)
    requires Valid(disk, s) && RepOk(disk, s, rep, walked) && Distinct(disk, s.out, rep)
    requires dll != [] && Fold(dll) !in s.seen && Mentioned(disk, dll)
    ensures RepOk(disk, Visit(disk, s, dll), rep[Fold(dll) := dll], walked)
    ensures Distinct(disk, Visit(disk, s, dll).out, rep[Fold(dll) := dll])
  {
    var s', rep' := Visit(disk, s, dll), rep[Fold(dll) := dll];
    forall k | k in rep'
      ensures Fold(rep'[k]) == k && Mentioned(disk, rep'[k]) && Handled(disk, s', rep'[k], walked)
    {
      if k != Fold(dll) { assert Handled(disk, s, rep[k], walked); }
    }
    forall k | k in s'.out && k !in disk.built ensures Fold(k) in rep' && k == Key(disk.fs, rep'[Fold(k)]) {
      if k in s.out { assert Fold(k) in rep; } else { assert k == Key(disk.fs, dll); }
    }
  }

  lemma VisitKeeps(disk: Disk, s: State, rep: map<Name, Name>, walked: set<Name>, dll: Name)
    returns (rep': map<Name, Name>)
    requires Core(disk, s, rep, walked)
    requires dll != [] ==> Mentioned(disk, dll) && (PrefixContent(disk, dll).Some? ==> Reachable(disk, dll))
    ensures Core(disk, Visit(disk, s, dll), rep', walked)
    ensures dll != [] ==> Fold(dll) in Visit(disk, s, dll).seen
  {
    if dll == [] || Fold(dll) in s.seen {
      rep' := rep;
    } else {
      rep' := rep[Fold(dll) := dll];
      VisitOut(disk, s, dll);
      VisitRep(disk, s, rep, walked, dll);
      var s' := Visit(disk, s, dll);
      assert forall q <- s'.queue :: q in s.queue || (q == dll && PrefixContent(disk, dll).Some?);
      assert forall q <- s.queue :: q in s'.queue;
    }
  }

  ghost predicate AllSeen(dlls: seq<Name>, seen: set<Name>)
  {
    forall d <- dlls :: d != [] ==> Fold(d) in seen
  }

  lemma AllSeenSnoc(front: seq<Name>, last: Name, before: set<Name>, after: set<Name>)
    requires AllSeen(front, before) && before <= after && (last != [] ==> Fold(last) in after)
    ensures AllSeen(front + [last], after)
  {}

  ghost predicate Imports(disk: Disk, m: Name, dlls: seq<Name>)
  {
    forall d <- dlls :: d != [] ==> Names(disk, m, d)
  }

  lemma VisitImport(disk: Disk, s: State, rep: map<Name, Name>, walked: set<Name>, m: Name, dll: Name)
    returns (rep': map<Name, Name>)
    requires Core(disk, s, rep, walked) && Reachable(disk, m) && (dll != [] ==> Names(disk, m, dll))
    ensures Core(disk, Visit(disk, s, dll), rep', walked)
    ensures dll != [] ==> Fold(dll) in Visit(disk, s, dll).seen
  {
    if dll != [] { MentionedReach(disk, m, dll); }
    rep' := VisitKeeps(disk, s, rep, walked, dll);
  }

  lemma {:induction false} VisitAllKeeps(
    disk: Disk, s: State, rep: map<Name, Name>, walked: set<Name>, m: Name, dlls: seq<Name>)
    returns (rep': map<Name, Name>)
    requires Core(disk, s, rep, walked) && Reachable(disk, m) && Imports(disk, m, dlls)
    ensures Core(disk, VisitAll(disk, s, dlls), rep', walked)
    ensures AllSeen(dlls, VisitAll(disk, s, dlls).seen)
    decreases |dlls|
  {
    if dlls == [] {
      rep' := rep;
    } else {
      var n := |dlls| - 1;
      var front, last := dlls[..n], dlls[n];
      SplitLast(dlls);
      rep' := VisitAllKeeps(disk, s, rep, walked, m, front);
      var t := VisitAll(disk, s, front);
      rep' := VisitImport(disk, t, rep', walked, m, last);
      AllSeenSnoc(front, last, t.seen, Visit(disk, t, last).seen);
    }
  }

  lemma StartWalking(disk: Disk, s: State, rep: map<Name, Name>, walked: set<Name>)
    requires Core(disk, s, rep, walked) && s.queue != []
    ensures Core(disk, s.(queue := s.queue[1..]), rep, walked + {s.queue[0]})
  {
    var rest := s.(queue := s.queue[1..]);
    assert s.queue == [s.queue[0]] + rest.queue;
    forall k | k in rep ensures Handled(disk, rest, rep[k], walked + {s.queue[0]}) {
      assert Handled(disk, s, rep[k], walked);
    }
  }

  lemma AdvanceKeeps(disk: Disk, s: State, rep: map<Name, Name>, walked: set<Name>)
    returns (rep': map<Name, Name>)
    requires Inv(disk, s, rep, walked) && s.queue != []
    ensures Inv(disk, Advance(disk, s), rep', walked + {s.queue[0]})
  {
    var m := s.queue[0];
    OutIsContent(disk, s.out, m);
    StartWalking(disk, s, rep, walked);
    var dlls := disk.imports(s.out[Key(disk.fs, m)]);
    rep' := VisitAllKeeps(disk, s.(queue := s.queue[1..]), rep, walked + {m}, m, dlls);
    assert ImportsSeen(disk, m, Advance(disk, s).seen);
    forall w | w in walked ensures ImportsSeen(disk, w, Advance(disk, s).seen) {
      assert ImportsSeen(disk, w, s.seen);
    }
  }

  lemma {:induction false} RunKeeps(disk: Disk, s: State, rep: map<Name, Name>, walked: set<Name>)
    returns (rep': map<Name, Name>, walked': set<Name>)
    requires Inv(disk, s, rep, walked)
    ensures Inv(disk, Run(disk, s), rep', walked') && Run(disk, s).queue == []
    decreases Universe(disk) - s.seen, |s.queue|
  {
    if s.queue == [] {
      rep', walked' := rep, walked;
    } else {
      rep' := AdvanceKeeps(disk, s, rep, walked);
      rep', walked' := RunKeeps(disk, Advance(disk, s), rep', walked + {s.queue[0]});
    }
  }

  lemma Finish(disk: Disk) returns (rep: map<Name, Name>, walked: set<Name>)
    requires Installed(disk)
    ensures Inv(disk, Run(disk, Start(disk)), rep, walked) && Run(disk, Start(disk)).queue == []
  {
    forall n | n in disk.initial ensures Reachable(disk, n) {
      assert Reach(disk, n, 0);
    }
    rep, walked := RunKeeps(disk, Start(disk), map[], {});
  }

  // ---- what the walk computes

  /** The files the walk adds to the output directory. */
  ghost function Copied(disk: Disk): set<Name>
    requires Installed(disk)
  {
    Run(disk, Start(disk)).out.Keys - disk.built.Keys
  }

  /** On every disk: built files stay, copies are needed and faithful, and no two differ only in case. */
  lemma WalkIsSound(disk: Disk)
    requires Installed(disk)
    ensures var out := Run(disk, Start(disk)).out;
            && (forall k <- disk.built :: k in out && out[k] == disk.built[k])
            && (forall k <- Copied(disk) ::
                  exists d :: Key(disk.fs, d) == k && Needed(disk, d) && Resolves(disk, d, out[k]))
            && (forall j, k :: j in Copied(disk) && k in Copied(disk) && Fold(j) == Fold(k) ==> j == k)
  {
    var rep, walked := Finish(disk);
    var out := Run(disk, Start(disk)).out;
    forall k | k in Copied(disk)
      ensures exists d :: Key(disk.fs, d) == k && Needed(disk, d) && Resolves(disk, d, out[k])
    {
      var d :| Provides(disk, d, k, out[k]);
    }
  }

  /** Each reachable module has been walked, under its own spelling or one with the same bytes. */
  lemma {:induction false} ReachedIsWalked(disk: Disk, s: State, rep: map<Name, Name>, walked: set<Name>,
      n: Name, k: nat)
    returns (w: Name)
    requires FoldsConsistently(disk) && Inv(disk, s, rep, walked) && s.queue == []
    requires Reach(disk, n, k)
    ensures w in walked && ContentOf(disk, w) == ContentOf(disk, n)
    decreases k
  {
    if k == 0 {
      w := n;
    } else {
      var m := ReachStep(disk, n, k);
      var u := ReachedIsWalked(disk, s, rep, walked, m, k - 1);
      w := ImportIsHandled(disk, s, rep, walked, m, u, n);
    }
  }

  lemma ImportIsHandled(disk: Disk, s: State, rep: map<Name, Name>, walked: set<Name>, m: Name, u: Name, n: Name)
    returns (w: Name)
    requires FoldsConsistently(disk) && Inv(disk, s, rep, walked) && s.queue == []
    requires Reachable(disk, m) && Names(disk, m, n) && PrefixContent(disk, n).Some?
    requires u in walked && ContentOf(disk, u) == ContentOf(disk, m)
    ensures w in walked && ContentOf(disk, w) == ContentOf(disk, n) && Fold(w) == Fold(n)
    ensures Key(disk.fs, w) in s.out && (Key(disk.fs, n) !in disk.built ==> Key(disk.fs, w) !in disk.built)
  {
    MentionedReach(disk, m, n);
    assert ImportsSeen(disk, u, s.seen);
    assert Names(disk, u, n);
    w := rep[Fold(n)];
    assert Mentioned(disk, w) && Mentioned(disk, n) && Fold(w) == Fold(n);
    assert Handled(disk, s, w, walked);
  }

  ghost predicate IsCopied(disk: Disk, key: Name)
    requires Installed(disk)
  {
    exists c :: c in Copied(disk) && Fold(c) == key
  }

  ghost predicate IsNeeded(disk: Disk, key: Name)
  {
    exists d :: Needed(disk, d) && Fold(d) == key
  }

  lemma CopiedIsNeeded(disk: Disk, key: Name)
    requires Installed(disk) && IsCopied(disk, key)
    ensures IsNeeded(disk, key)
  {
    var c :| c in Copied(disk) && Fold(c) == key;
    WalkIsSound(disk);
    var d :| Key(disk.fs, d) == c && Needed(disk, d);
    assert Fold(d) == key;
  }

  /** Where case does not change what a name resolves to, the walk copies exactly what is needed. */
  lemma WalkIsExact(disk: Disk, key: Name)
    requires Installed(disk) && FoldsConsistently(disk)
    ensures IsCopied(disk, key) <==> IsNeeded(disk, key)
  {
    if IsCopied(disk, key) { CopiedIsNeeded(disk, key); }
    if IsNeeded(disk, key) {
      var d :| Needed(disk, d) && Fold(d) == key;
      var c := ConsistentIsCopied(disk, d);
    }
  }

  lemma ConsistentIsCopied(disk: Disk, d: Name) returns (c: Name)
    requires Installed(disk) && FoldsConsistently(disk) && Needed(disk, d)
    ensures c in Copied(disk) && Fold(c) == Fold(d)
  {
    var rep, walked := Finish(disk);
    var s := Run(disk, Start(disk));
    var m :| Reachable(disk, m) && Names(disk, m, d);
    var i: nat :| Reach(disk, m, i);
    var u := ReachedIsWalked(disk, s, rep, walked, m, i);
    var w := ImportIsHandled(disk, s, rep, walked, m, u, d);
    c := Key(disk.fs, w);
  }

  /** On a case-insensitive file system that is always so. */
  lemma WindowsFoldsConsistently(disk: Disk)
    requires disk.fs.CaseInsensitive?
    ensures FoldsConsistently(disk)
  {
    forall a, b | Mentioned(disk, a) && Mentioned(disk, b) && Fold(a) == Fold(b)
      ensures Key(disk.fs, a) == Key(disk.fs, b) && PrefixContent(disk, a) == PrefixContent(disk, b)
    {}
  }

  // ---- what the two directories must be like

  /** What the walk would copy for this spelling of a name. */
  ghost predicate Copyable(disk: Disk, n: Name)
  {
    n != [] && Resolvable(disk, n) && Key(disk.fs, n) !in disk.built
  }

  /** The walk starts from every built binary. */
  ghost predicate StartsFromBuilt(disk: Disk)
  {
    Installed(disk) && forall k <- disk.built :: exists n :: n in disk.initial && Key(disk.fs, n) == k
  }

  /** Two copyable spellings stand for the same file, or for files that are walked in any case. */
  ghost predicate SameImports(disk: Disk, x: Name, y: Name)
    requires PrefixContent(disk, x).Some? && PrefixContent(disk, y).Some?
  {
    PrefixContent(disk, x) == PrefixContent(disk, y)
    || (PrefixContent(disk, x).value in disk.built.Values && PrefixContent(disk, y).value in disk.built.Values)
  }

  ghost predicate OnlyCopyable(disk: Disk, key: Name)
  {
    forall z :: Copyable(disk, z) ==> Fold(z) == key
  }

  /**
   * Where one spelling of a name can be copied so can every other, and it does not matter which: they stand for the
   * same file, or there is no other name to copy that one of them could lead to.
   */
  ghost predicate SpellingsAgree(disk: Disk)
  {
    forall x, y :: Copyable(disk, x) && Fold(x) == Fold(y) ==>
      Copyable(disk, y) && (SameImports(disk, x, y) || OnlyCopyable(disk, Fold(x)))
  }

  /** Up to case, the walk copies exactly what is needed. */
  ghost predicate IsExact(disk: Disk)
  {
    Installed(disk) && forall key :: IsCopied(disk, key) <==> IsNeeded(disk, key)
  }

  ghost function WithImports(disk: Disk, imports: Content -> seq<Name>): Disk
  {
    disk.(imports := imports)
  }

  /**
   * Whatever the files import, the walk copies exactly what is needed, if and only if spellings agree in the two
   * directories or nothing was built.
   */
  lemma {:induction false} SpellingsDecide(disk: Disk)
    requires StartsFromBuilt(disk)
    ensures (forall imports :: IsExact(WithImports(disk, imports))) <==> disk.built == map[] || SpellingsAgree(disk)
  {
    if disk.built == map[] || SpellingsAgree(disk) {
      forall imports ensures IsExact(WithImports(disk, imports)) {
        SameDirectories(disk, imports);
        AgreeingIsExact(WithImports(disk, imports));
      }
    } else {
      var imports := LosingImports(disk);
    }
  }

  lemma SameDirectories(disk: Disk, imports: Content -> seq<Name>)
    ensures StartsFromBuilt(WithImports(disk, imports)) <==> StartsFromBuilt(disk)
    ensures SpellingsAgree(WithImports(disk, imports)) <==> SpellingsAgree(disk)
  {
    var other := WithImports(disk, imports);
    forall n ensures Copyable(other, n) <==> Copyable(disk, n) {
      SameCopyable(disk, imports, n);
    }
    forall key ensures OnlyCopyable(other, key) <==> OnlyCopyable(disk, key) {}
  }

  lemma SameCopyable(disk: Disk, imports: Content -> seq<Name>, n: Name)
    ensures Copyable(WithImports(disk, imports), n) <==> Copyable(disk, n)
  {
    assert PrefixContent(WithImports(disk, imports), n) == PrefixContent(disk, n);
  }

  lemma AgreeingIsExact(disk: Disk)
    requires StartsFromBuilt(disk) && (disk.built == map[] || SpellingsAgree(disk))
    ensures IsExact(disk)
  {
    forall key ensures IsCopied(disk, key) <==> IsNeeded(disk, key) {
      if IsCopied(disk, key) { CopiedIsNeeded(disk, key); }
      if IsNeeded(disk, key) {
        var d :| Needed(disk, d) && Fold(d) == key;
        NeededIsCopied(disk, d);
      }
    }
  }

  /** All imports of the module are among the keys seen. */
  ghost predicate Covered(disk: Disk, s: State, n: Name)
  {
    forall d :: Names(disk, n, d) ==> Fold(d) in s.seen
  }

  /** The only name there is to copy has been copied. */
  ghost predicate AllIsCopied(disk: Disk, s: State)
  {
    exists c :: c in s.out && c !in disk.built && OnlyCopyable(disk, Fold(c))
  }

  lemma BuiltIsCovered(disk: Disk, s: State, rep: map<Name, Name>, walked: set<Name>, n: Name, k: Name)
    requires StartsFromBuilt(disk) && Inv(disk, s, rep, walked) && s.queue == []
    requires k in disk.built && ContentOf(disk, n) == Some(disk.built[k])
    ensures Covered(disk, s, n)
  {
    var i :| i in disk.initial && Key(disk.fs, i) == k;
    assert i in walked && ImportsSeen(disk, i, s.seen);
    forall d | Names(disk, n, d) ensures Fold(d) in s.seen {
      assert Names(disk, i, d);
    }
  }

  /** A seen name that can be copied has been, and the file copied has been walked. */
  lemma SeenIsCopied(disk: Disk, s: State, rep: map<Name, Name>, walked: set<Name>, n: Name) returns (w: Name)
    requires SpellingsAgree(disk) && Inv(disk, s, rep, walked) && s.queue == []
    requires Copyable(disk, n) && Fold(n) in s.seen
    ensures Fold(w) == Fold(n) && Copyable(disk, w) && w in walked && Covered(disk, s, w)
    ensures Key(disk.fs, w) in s.out && Key(disk.fs, w) !in disk.built && Fold(Key(disk.fs, w)) == Fold(n)
  {
    w := Spelling(disk, s, rep, walked, Fold(n));
    AgreeingSpelling(disk, n, w);
    assert w in walked && ImportsSeen(disk, w, s.seen);
  }

  lemma AgreeingSpelling(disk: Disk, n: Name, w: Name)
    requires SpellingsAgree(disk) && Copyable(disk, n) && Fold(w) == Fold(n)
    ensures Copyable(disk, w)
  {}

  /** The spelling under which a key was met. */
  lemma Spelling(disk: Disk, s: State, rep: map<Name, Name>, walked: set<Name>, key: Name) returns (w: Name)
    requires Inv(disk, s, rep, walked) && key in s.seen
    ensures Fold(w) == key && Handled(disk, s, w, walked)
  {
    w := rep[key];
  }

  lemma {:induction false} ReachedIsCovered(
    disk: Disk, s: State, rep: map<Name, Name>, walked: set<Name>, n: Name, k: nat)
    requires StartsFromBuilt(disk) && SpellingsAgree(disk) && Inv(disk, s, rep, walked) && s.queue == []
    requires Reach(disk, n, k)
    ensures Covered(disk, s, n) || AllIsCopied(disk, s)
    decreases k
  {
    if k == 0 {
      assert ImportsSeen(disk, n, s.seen);
    } else {
      var m := ReachStep(disk, n, k);
      ReachedIsCovered(disk, s, rep, walked, m, k - 1);
      if Key(disk.fs, n) in disk.built {
        BuiltIsCovered(disk, s, rep, walked, n, Key(disk.fs, n));
      } else if !AllIsCopied(disk, s) {
        var w := SeenIsCopied(disk, s, rep, walked, n);
        CopiedIsCovered(disk, s, rep, walked, n, w);
      }
    }
  }

  lemma CopiedIsCovered(disk: Disk, s: State, rep: map<Name, Name>, walked: set<Name>, n: Name, w: Name)
    requires StartsFromBuilt(disk) && SpellingsAgree(disk) && Inv(disk, s, rep, walked) && s.queue == []
    requires Copyable(disk, n) && Copyable(disk, w) && Fold(w) == Fold(n) && Covered(disk, s, w)
    requires Key(disk.fs, w) in s.out && !AllIsCopied(disk, s)
    ensures Covered(disk, s, n)
  {
    assert Fold(Key(disk.fs, w)) == Fold(n);
    assert !OnlyCopyable(disk, Fold(n));
    assert SameImports(disk, n, w);
    if PrefixContent(disk, n) == PrefixContent(disk, w) {
      forall d | Names(disk, n, d) ensures Fold(d) in s.seen {
        assert Names(disk, w, d);
      }
    } else {
      var k :| k in disk.built && disk.built[k] == PrefixContent(disk, n).value;
      BuiltIsCovered(disk, s, rep, walked, n, k);
    }
  }

  lemma {:induction false} NothingReached(disk: Disk, n: Name, k: nat)
    requires forall i :: i !in disk.initial
    ensures !Reach(disk, n, k)
    decreases k
  {
    if Reach(disk, n, k) {
      var m :| Reach(disk, m, k - 1) && Names(disk, m, n);
      NothingReached(disk, m, k - 1);
    }
  }

  lemma NeededIsCopied(disk: Disk, d: Name)
    requires StartsFromBuilt(disk) && (disk.built == map[] || SpellingsAgree(disk)) && Needed(disk, d)
    ensures IsCopied(disk, Fold(d))
  {
    var m :| Reachable(disk, m) && Names(disk, m, d);
    var i: nat :| Reach(disk, m, i);
    if disk.built == map[] {
      assert forall n :: n !in disk.initial;
      NothingReached(disk, m, i);
    } else {
      var rep, walked := Finish(disk);
      var s := Run(disk, Start(disk));
      ReachedIsCovered(disk, s, rep, walked, m, i);
      var c := CopyOf(disk, s, rep, walked, m, d);
      assert c in Copied(disk);
    }
  }

  lemma CopyOf(disk: Disk, s: State, rep: map<Name, Name>, walked: set<Name>, m: Name, d: Name) returns (c: Name)
    requires SpellingsAgree(disk) && Inv(disk, s, rep, walked) && s.queue == []
    requires Covered(disk, s, m) || AllIsCopied(disk, s)
    requires Names(disk, m, d) && Copyable(disk, d)
    ensures c in s.out && c !in disk.built && Fold(c) == Fold(d)
  {
    if AllIsCopied(disk, s) {
      c :| c in s.out && c !in disk.built && OnlyCopyable(disk, Fold(c));
    } else {
      var w := SeenIsCopied(disk, s, rep, walked, d);
      c := Key(disk.fs, w);
    }
  }

  // ---- imports that lose a file

  /** Every file there is imports first and then second, which differ only in case. */
  ghost predicate OnlyThese(disk: Disk, s: State, first: Name, second: Name)
  {
    && Valid(disk, s) && first != [] && Fold(first) == Fold(second) && s.seen <= {Fold(first)}
    && (Copyable(disk, first) ==> disk.imports(PrefixContent(disk, first).value) == [first, second])
    && (forall k <- s.out :: disk.imports(s.out[k]) == [first, second])
    && (forall k <- disk.built :: k in s.out)
    && (forall k <- s.out :: k in disk.built || (Copyable(disk, first) && k == Key(disk.fs, first)))
  }

  lemma VisitAllSnoc(disk: Disk, s: State, dlls: seq<Name>, dll: Name)
    requires Valid(disk, s)
    ensures VisitAll(disk, s, dlls + [dll]) == Visit(disk, VisitAll(disk, s, dlls), dll)
  {
    assert (dlls + [dll])[..|dlls|] == dlls;
  }

  lemma TwoVisits(disk: Disk, s: State, first: Name, second: Name)
    requires Valid(disk, s) && first != [] && Fold(first) == Fold(second)
    ensures VisitAll(disk, s, [first, second]) == Visit(disk, s, first)
  {
    var none: seq<Name> := [];
    VisitAllSnoc(disk, s, none, first);
    VisitAllSnoc(disk, s, [first], second);
    assert none + [first] == [first] && [first] + [second] == [first, second];
  }

  lemma AdvanceOnlyThese(disk: Disk, s: State, first: Name, second: Name)
    requires OnlyThese(disk, s, first, second) && s.queue != []
    ensures OnlyThese(disk, Advance(disk, s), first, second)
  {
    TwoVisits(disk, s.(queue := s.queue[1..]), first, second);
    VisitOnlyThese(disk, s.(queue := s.queue[1..]), first, second);
  }

  lemma VisitOnlyThese(disk: Disk, s: State, first: Name, second: Name)
    requires OnlyThese(disk, s, first, second)
    ensures OnlyThese(disk, Visit(disk, s, first), first, second)
  {
    assert PrefixContent(disk, first).Some? <==> Resolvable(disk, first);
  }

  lemma {:induction false} RunOnlyThese(disk: Disk, s: State, first: Name, second: Name)
    requires OnlyThese(disk, s, first, second)
    ensures OnlyThese(disk, Run(disk, s), first, second)
    decreases Universe(disk) - s.seen, |s.queue|
  {
    if s.queue != [] {
      AdvanceOnlyThese(disk, s, first, second);
      RunOnlyThese(disk, Advance(disk, s), first, second);
    }
  }

  /** Nothing is copied but the first spelling. */
  lemma OnlyFirstCopied(disk: Disk, first: Name, second: Name)
    requires Installed(disk) && first != [] && Fold(first) == Fold(second)
    requires Copyable(disk, first) ==> disk.imports(PrefixContent(disk, first).value) == [first, second]
    requires forall k <- disk.built :: disk.imports(disk.built[k]) == [first, second]
    ensures forall c <- Copied(disk) :: Copyable(disk, first) && c == Key(disk.fs, first)
  {
    RunOnlyThese(disk, Start(disk), first, second);
  }

  lemma BuiltNames(disk: Disk, first: Name, second: Name) returns (n: Name)
    requires StartsFromBuilt(disk) && disk.built != map[] && first != [] && second != []
    requires forall k <- disk.built :: disk.imports(disk.built[k]) == [first, second]
    ensures Reachable(disk, n) && Names(disk, n, first) && Names(disk, n, second)
  {
    var k :| k in disk.built;
    n :| n in disk.initial && Key(disk.fs, n) == k;
    assert Reach(disk, n, 0);
    assert first in [first, second] && second in [first, second];
  }

  lemma LosingImports(disk: Disk) returns (imports: Content -> seq<Name>)
    requires StartsFromBuilt(disk) && disk.built != map[] && !SpellingsAgree(disk)
    ensures !IsExact(WithImports(disk, imports))
  {
    var x, y :| Copyable(disk, x) && Fold(x) == Fold(y)
                && !(Copyable(disk, y) && (SameImports(disk, x, y) || OnlyCopyable(disk, Fold(x))));
    if !Copyable(disk, y) {
      imports := LosesSecond(disk, y, x);
    } else {
      var z :| Copyable(disk, z) && Fold(z) != Fold(x);
      if PrefixContent(disk, x).value !in disk.built.Values {
        imports := LosesThird(disk, y, x, z);
      } else {
        imports := LosesThird(disk, x, y, z);
      }
    }
  }

  /** A spelling that is not copied hides one that should be. */
  lemma LosesSecond(disk: Disk, first: Name, second: Name) returns (imports: Content -> seq<Name>)
    requires StartsFromBuilt(disk) && disk.built != map[]
    requires Fold(first) == Fold(second) && !Copyable(disk, first) && Copyable(disk, second)
    ensures !IsExact(WithImports(disk, imports))
  {
    imports := (c: Content) => [first, second];
    var other := WithImports(disk, imports);
    SameDirectories(disk, imports);
    SameCopyable(disk, imports, first);
    SameCopyable(disk, imports, second);
    assert |first| == |Fold(first)| == |second|;
    var n := BuiltNames(other, first, second);
    MentionedReach(other, n, second);
    assert Needed(other, second) && IsNeeded(other, Fold(second));
    OnlyFirstCopied(other, first, second);
    assert !IsCopied(other, Fold(second));
  }

  /** A spelling that is copied hides a different file, the only one that imports something else. */
  lemma LosesThird(disk: Disk, first: Name, second: Name, third: Name) returns (imports: Content -> seq<Name>)
    requires StartsFromBuilt(disk) && disk.built != map[]
    requires Fold(first) == Fold(second) && Copyable(disk, first) && Copyable(disk, second)
    requires PrefixContent(disk, second) != PrefixContent(disk, first)
    requires PrefixContent(disk, second).value !in disk.built.Values
    requires Copyable(disk, third) && Fold(third) != Fold(first)
    ensures !IsExact(WithImports(disk, imports))
  {
    var lost := PrefixContent(disk, second).value;
    imports := (c: Content) => if c == lost then [third] else [first, second];
    var other := WithImports(disk, imports);
    SameDirectories(disk, imports);
    SameCopyable(disk, imports, third);
    var n := BuiltNames(other, first, second);
    MentionedReach(other, n, second);
    assert third in other.imports(lost) && Names(other, second, third);
    MentionedReach(other, second, third);
    assert Needed(other, third) && IsNeeded(other, Fold(third));
    OnlyFirstCopied(other, first, second);
    assert !IsCopied(other, Fold(third));
  }

  /** On a case-insensitive file system spellings always agree. */
  lemma WindowsSpellingsAgree(disk: Disk)
    requires disk.fs.CaseInsensitive?
    ensures SpellingsAgree(disk)
  {
    forall x, y | Copyable(disk, x) && Fold(x) == Fold(y) ensures Copyable(disk, y) && SameImports(disk, x, y) {
      assert |x| == |Fold(x)| == |y|;
      assert Key(disk.fs, x) == Key(disk.fs, y);
      assert PrefixContent(disk, x) == PrefixContent(disk, y);
    }
  }

  /** A program that imports "A", with only "a" in the prefix of a case-sensitive file system. */
  ghost const LOWER_CASE: Disk := Disk(
    CaseSensitive, map[[97] := [5]], map[[120] := [1]], [[120]], c => if c == [1] then [[65]] else [])

  /** There the file is found under the lower-case form and copied under the name imported. */
  lemma LowerCaseIsFound()
    ensures Installed(LOWER_CASE)
    ensures Run(LOWER_CASE, Start(LOWER_CASE)).out == map[[120] := [1], [65] := [5]]
  {
    var disk := LOWER_CASE;
    assert Fold([65]) == [97];
    var none: seq<Name> := [];
    var first := State(map[[120] := [1], [65] := [5]], {[97]}, [[65]]);
    VisitAllSnoc(disk, Start(disk).(queue := []), none, [65]);
    assert none + [[65]] == [[65]];
    assert Advance(disk, Start(disk)) == first;
    assert Advance(disk, first) == first.(queue := []);
  }

  /** A program that imports "a" and then "A", with only "A" in the prefix of a case-sensitive file system. */
  ghost const MIXED_CASE: Disk := Disk(
    CaseSensitive, map[[65] := []], map[[120] := [1]], [[120]], c => if c == [1] then [[97], [65]] else [])

  /** There the first spelling passes for a system DLL, its key hides the second, and a needed DLL is not copied. */
  lemma MixedCaseIsMissed()
    ensures Installed(MIXED_CASE)
    ensures Needed(MIXED_CASE, [65]) && Copied(MIXED_CASE) == {}
  {
    var disk := MIXED_CASE;
    assert PrefixContent(disk, [65]).Some?;
    assert Reach(disk, [120], 0);
    assert [97] in disk.imports([1]) && [65] in disk.imports([1]);
    assert Names(disk, [120], [65]);
    assert Fold([97]) == [97] && Fold([65]) == [97];
    var s := Start(disk);
    var rest := s.(queue := s.queue[1..]);
    var dlls := disk.imports([1]);
    var front: seq<Name> := [[97]];
    assert dlls[..1] == front && |front[..0]| == 0;
    assert VisitAll(disk, rest, front) == rest.(seen := {[97]});
    assert VisitAll(disk, rest, dlls) == rest.(seen := {[97]});
    assert Advance(disk, s) == State(disk.built, {[97]}, []);
  }
}
