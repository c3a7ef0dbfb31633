/** What every run of editing commands keeps. */
module History {
  import opened Common
  import opened Json
  import opened Blob
  import opened Item
  import opened File
  import opened Tool

  ghost predicate DistinctIds(items: seq<ItemV>)
  {
    forall i, j :: 0 <= i < j < |items| ==> items[i].id != items[j].id
  }

  ghost predicate WellFormed(items: seq<ItemV>)
  {
    AllComplete(items) && DistinctIds(items) && forall it <- items :: NoDuplicates(it.aliasIds)
  }

  /** The stored file is an export of f, with timestamps, in version 0.1 of the format. */
  ghost predicate Represents(store: Option<Node>, f: FileV)
  {
    WellFormed(f.items) && f.major == 0 && f.minor == 1
    && if store == None then f.items == [] else f.items != [] && store == Some(FileTree(f, ExportFlags(false)))
  }

  ghost predicate Good(store: Option<Node>)
  {
    exists f :: Represents(store, f)
  }

  /** There is no file, or it can be read. */
  ghost predicate Intact(store: Option<Node>)
  {
    store.Some? ==> IsCatalogue(store.value)
  }

  /** A clock that never ticks, so that a blob stored without a time reads as zero. */
  ghost const ZERO: Times := (i: nat) => (j: nat) => 0

  ghost function Contents(store: Option<Node>): FileV
  {
    if store.Some? && ReadFile(store.value, ZERO).Some? then ReadFile(store.value, ZERO).value else NEW_FILE
  }

  /** The same blob, except that one stored without a time may have been given one. */
  ghost predicate SameBlob(before: BlobV, after: BlobV)
  {
    after == before || (before.timestamp == 0 && after == before.(timestamp := after.timestamp))
  }

  ghost predicate BlobsKept(before: seq<BlobV>, after: seq<BlobV>)
  {
    |before| <= |after| && forall j :: 0 <= j < |before| ==> SameBlob(before[j], after[j])
  }

  /** Every item keeps its place and ID, and its blobs are still there, in order. */
  ghost predicate Kept(before: seq<ItemV>, after: seq<ItemV>)
  {
    |before| <= |after|
    && forall i :: 0 <= i < |before| ==> after[i].id == before[i].id && BlobsKept(before[i].blobs, after[i].blobs)
  }

  lemma KeptTransitive(a: seq<ItemV>, b: seq<ItemV>, c: seq<ItemV>)
    requires Kept(a, b) && Kept(b, c)
    ensures Kept(a, c)
  {
    forall i | 0 <= i < |a| ensures BlobsKept(a[i].blobs, c[i].blobs) {
      assert BlobsKept(a[i].blobs, b[i].blobs) && BlobsKept(b[i].blobs, c[i].blobs);
      forall j | 0 <= j < |a[i].blobs| ensures SameBlob(a[i].blobs[j], c[i].blobs[j]) {
        assert SameBlob(a[i].blobs[j], b[i].blobs[j]) && SameBlob(b[i].blobs[j], c[i].blobs[j]);
      }
    }
  }

  // ---- one edit

  /** An edit never creates an item without an ID. */
  ghost predicate NamesItem(items: seq<ItemV>, c: Command)
  {
    c.id != [] || LookupItem(items, c.id).Some?
  }

  /** With distinct IDs, lookup fails only for an ID that no item has. */
  lemma UnknownId(items: seq<ItemV>, id: CString)
    requires WellFormed(items) && LookupItem(items, id) == None
    ensures forall it <- items :: it.id != id
  {
    forall it | it in items ensures it.id != id {
      var k :| 0 <= k < |items| && items[k] == it;
      LookupIsExact(items, id, k);
      assert it.id == id <==> Only(items, id, false, k);
    }
  }

  /** One item replaced by one with the same ID and at least the same blobs. */
  lemma ReplaceItem(items: seq<ItemV>, k: nat, it: ItemV)
    requires k < |items| && WellFormed(items) && it.id == items[k].id
    requires items[k].blobs <= it.blobs && NoDuplicates(it.aliasIds)
    ensures WellFormed(items[k := it]) && Kept(items, items[k := it])
  {
    assert items[k] in items;
    assert Complete(items[k]);
    forall x | x in items[k := it] ensures Complete(x) && NoDuplicates(x.aliasIds) {
      assert x == it || x in items;
    }
  }

  lemma AppendItem(items: seq<ItemV>, it: ItemV)
    requires WellFormed(items) && Complete(it) && NoDuplicates(it.aliasIds)
    requires forall x <- items :: x.id != it.id
    ensures WellFormed(items + [it]) && Kept(items, items + [it])
  {
    assert forall i :: 0 <= i < |items| ==> items[i] in items;
    forall x | x in items + [it] ensures Complete(x) && NoDuplicates(x.aliasIds) {
      assert x == it || x in items;
    }
  }

  lemma AddBlobToNew(items: seq<ItemV>, id: CString, b: BlobV)
    requires LookupItem(items, id) == None
    ensures AddBlobTo(items, id, b) == items + [ItemV(id, [], [b])]
  {
    var all := items + [ItemV(id, [], [])];
    assert all[|items|].blobs + [b] == [b];
    assert all[|items| := ItemV(id, [], [b])] == items + [ItemV(id, [], [b])];
  }

  lemma AddBlobKeeps(items: seq<ItemV>, id: CString, b: BlobV)
    requires WellFormed(items) && (id != [] || LookupItem(items, id).Some?)
    ensures WellFormed(AddBlobTo(items, id, b)) && Kept(items, AddBlobTo(items, id, b))
    ensures AddBlobTo(items, id, b) != []
  {
    var k := ItemIndex(items, id);
    if k < |items| {
      assert items[k] in items;
      ReplaceItem(items, k, items[k].(blobs := items[k].blobs + [b]));
    } else {
      UnknownId(items, id);
      AppendItem(items, ItemV(id, [], [b]));
      AddBlobToNew(items, id, b);
    }
  }

  lemma EditKeeps(items: seq<ItemV>, c: Command)
    requires WellFormed(items) && NamesItem(items, c) && Edit(items, c).Some?
    ensures var after := Edit(items, c).value; WellFormed(after) && Kept(items, after) && after != []
  {
    match c
    case ImportBlob(id, detached, app) => AddBlobKeeps(items, id, Tagged(DetachedBlob(detached.value), app));
    case SignWith(id, _, _, _, _) => AddBlobKeeps(items, id, Signed(items, c).value);
    case AddAliasTo(id, alias) =>
      var k := LookupItem(items, id).value;
      assert items[k] in items;
      AddAliasKeepsDistinct(items[k].aliasIds, alias);
      ReplaceItem(items, k, items[k].(aliasIds := AddAlias(items[k].aliasIds, alias)));
    case RemoveAliasFrom(id, alias) =>
      var k := LookupItem(items, id).value;
      assert items[k] in items;
      RemoveAliasIsExact(items[k].aliasIds, alias);
      ReplaceItem(items, k, items[k].(aliasIds := RemoveAlias(items[k].aliasIds, alias)));
  }

  /** after differs from before in the one item the ID stands for: the only match, or else a new item at the end. */
  ghost predicate OnlyItemEdited(before: seq<ItemV>, after: seq<ItemV>, id: CString, k: nat)
  {
    && k < |after| && |before| <= |after|
    && (forall i :: 0 <= i < |before| && i != k ==> after[i] == before[i])
    && (if k < |before|
        then |after| == |before| && after[k].id == before[k].id
             && (Only(before, id, false, k) || (Nobody(before, id, false) && Only(before, id, true, k)))
        else k == |before| && |after| == k + 1 && after[k].id == id && after[k].aliasIds == [])
  }

  /**
   * A successful command changes one item, the one its ID stands for.  Import and signing put exactly one blob
   * behind the blobs that were there, with the AppStream ID and the target asked for; the alias commands leave the
   * blobs alone, and afterwards the alias is there, or is not.
   */
  lemma EditIsExact(items: seq<ItemV>, c: Command) returns (k: nat)
    requires WellFormed(items) && Edit(items, c).Some?
    ensures var after := Edit(items, c).value;
            && OnlyItemEdited(items, after, c.id, k)
            && var was := if k < |items| then items[k] else ItemV(c.id, [], []);
            match c
            case ImportBlob(_, detached, app) =>
              detached.Some?
              && var d := detached.value;
                 after[k] == was.(blobs := was.blobs
                                           + [BlobV(d.kind, KIND_UNKNOWN, d.flags, Buffer(d.contents), app, d.now)])
            case SignWith(_, source, target, sign, app) =>
              exists data, b ::
                && (if target == KIND_UNKNOWN then source == Some(data)
                    else BlobByKind(was, target).Some? && Content(BlobByKind(was, target).value.data) == data)
                && sign(data) == Some(b)
                && after[k] == was.(blobs := was.blobs + [AsSigned(b, target, app)])
            case AddAliasTo(_, alias) =>
              after[k] == was.(aliasIds := after[k].aliasIds) && alias in after[k].aliasIds
              && was.aliasIds <= after[k].aliasIds
            case RemoveAliasFrom(_, alias) =>
              after[k] == was.(aliasIds := Without(was.aliasIds, alias)) && alias !in after[k].aliasIds
  {
    k := ItemIndex(items, c.id);
    if k < |items| {
      LookupIsExact(items, c.id, k);
      assert items[k] in items;
    }
    match c
    case ImportBlob(id, detached, app) =>
      if k == |items| { AddBlobToNew(items, id, Tagged(DetachedBlob(detached.value), app)); }
    case SignWith(id, source, target, sign, app) =>
      if k == |items| { AddBlobToNew(items, id, Signed(items, c).value); }
      var data := SignSource(items, c).value;
      assert Signed(items, c).value == AsSigned(sign(data).value, target, app);
    case AddAliasTo(_, alias) => AddAliasKeepsDistinct(items[k].aliasIds, alias);
    case RemoveAliasFrom(_, alias) => RemoveAliasIsExact(items[k].aliasIds, alias);
  }

  /** The item an ID stands for: the only one with it, or for want of any the only one that has it as an alias. */
  ghost predicate StandsFor(items: seq<ItemV>, id: CString, k: nat)
  {
    Only(items, id, false, k) || (Nobody(items, id, false) && Only(items, id, true, k))
  }

  /** The bytes there are to sign: the file the ID names, or the item's only blob of the target kind. */
  ghost predicate Signable(items: seq<ItemV>, c: Command, data: Bytes)
    requires c.SignWith?
  {
    if c.target == KIND_UNKNOWN then c.id != [] && c.source == Some(data)
    else exists k: nat, i: nat :: StandsFor(items, c.id, k) && OnlyOfKind(items[k], c.target, i)
                        && Content(items[k].blobs[i].data) == data
  }

  /** What a command needs: a detached file, something to sign and a signer, or an item to change. */
  ghost predicate CanEdit(items: seq<ItemV>, c: Command)
  {
    match c
    case ImportBlob(_, detached, _) => detached.Some?
    case SignWith(_, _, _, sign, _) => exists data :: Signable(items, c, data) && sign(data).Some?
    case AddAliasTo(id, _) => exists k: nat :: StandsFor(items, id, k)
    case RemoveAliasFrom(id, _) => exists k: nat :: StandsFor(items, id, k)
  }

  lemma LookupStandsFor(items: seq<ItemV>, id: CString)
    requires WellFormed(items)
    ensures LookupItem(items, id).Some? <==> exists k: nat :: StandsFor(items, id, k)
    ensures forall k: nat :: StandsFor(items, id, k) <==> LookupItem(items, id) == Some(k)
  {
    forall k: nat ensures StandsFor(items, id, k) <==> LookupItem(items, id) == Some(k) {
      LookupIsExact(items, id, k);
    }
    if LookupItem(items, id).Some? { assert StandsFor(items, id, LookupItem(items, id).value); }
  }

  lemma SourceIsSignable(items: seq<ItemV>, c: Command)
    requires WellFormed(items) && c.SignWith?
    ensures forall data :: SignSource(items, c) == Some(data) <==> Signable(items, c, data)
  {
    if c.target != KIND_UNKNOWN {
      LookupStandsFor(items, c.id);
      var it := WithItem(items, c.id)[ItemIndex(items, c.id)];
      BlobByKindIsExact(it, c.target);
      if SignSource(items, c).Some? {
        assert OfKind([], c.target) == [];
        var i: nat :| OnlyOfKind(it, c.target, i);
        assert StandsFor(items, c.id, ItemIndex(items, c.id)) && OnlyOfKind(items[ItemIndex(items, c.id)], c.target, i);
      }
    }
  }

  /** A command can be carried out exactly when what it needs is there; the item of an import need not be new. */
  lemma EditSucceeds(items: seq<ItemV>, c: Command)
    requires WellFormed(items)
    ensures Edit(items, c).Some? <==> CanEdit(items, c)
  {
    match c
    case ImportBlob(_, _, _) =>
    case SignWith(_, _, _, sign, _) =>
      SourceIsSignable(items, c);
      if Edit(items, c).Some? {
        var data := SignSource(items, c).value;
        assert Signable(items, c, data) && sign(data).Some?;
      }
    case AddAliasTo(id, _) => LookupStandsFor(items, id);
    case RemoveAliasFrom(id, _) => LookupStandsFor(items, id);
  }

  ghost function AsSigned(b: BlobV, target: U32, app: Option<CString>): BlobV
  {
    b.(appstreamId := if app.Some? then app else b.appstreamId,
       target := if target == KIND_UNKNOWN then b.target else target)
  }

  // ---- one command

  lemma RestoredWellFormed(items: seq<ItemV>, times: Times)
    requires WellFormed(items)
    ensures WellFormed(RestoredItems(items, LOUD, times))
  {
    var r := RestoredItems(items, LOUD, times);
    RestoredComplete(items, r, LOUD, times);
    forall i | 0 <= i < |r| ensures NoDuplicates(r[i].aliasIds) {
      AddAliasesDistinct(items[i].aliasIds);
    }
  }

  /** Reading, writing and reading again shows the same blobs. */
  lemma RestoredTwice(b: BlobV, now: I64)
    ensures SameBlob(Restored(b, LOUD, 0), Restored(Restored(b, LOUD, now), LOUD, 0))
  {}

  lemma RestoredKept(items: seq<ItemV>, times: Times)
    ensures Kept(RestoredItems(items, LOUD, ZERO), RestoredItems(RestoredItems(items, LOUD, times), LOUD, ZERO))
  {
    var r := RestoredItems(items, LOUD, times);
    var before, after := RestoredItems(items, LOUD, ZERO), RestoredItems(r, LOUD, ZERO);
    forall i | 0 <= i < |items| ensures BlobsKept(before[i].blobs, after[i].blobs) {
      forall j | 0 <= j < |items[i].blobs| ensures SameBlob(before[i].blobs[j], after[i].blobs[j]) {
        RestoredTwice(items[i].blobs[j], times(i)(j));
      }
    }
  }

  lemma KeptRestored(a: seq<ItemV>, b: seq<ItemV>)
    requires Kept(a, b)
    ensures Kept(RestoredItems(a, LOUD, ZERO), RestoredItems(b, LOUD, ZERO))
  {
    var before, after := RestoredItems(a, LOUD, ZERO), RestoredItems(b, LOUD, ZERO);
    forall i | 0 <= i < |a| ensures after[i].id == before[i].id && BlobsKept(before[i].blobs, after[i].blobs) {
      assert BlobsKept(a[i].blobs, b[i].blobs);
      forall j | 0 <= j < |a[i].blobs| ensures SameBlob(before[i].blobs[j], after[i].blobs[j]) {
        assert SameBlob(a[i].blobs[j], b[i].blobs[j]);
        SameRestored(a[i].blobs[j], b[i].blobs[j]);
      }
    }
  }

  lemma SameRestored(a: BlobV, b: BlobV)
    requires SameBlob(a, b)
    ensures SameBlob(Restored(a, LOUD, 0), Restored(b, LOUD, 0))
  {}

  lemma ReadRepresented(store: Option<Node>, f: FileV, times: Times)
    requires Represents(store, f) && store.Some?
    ensures ReadFile(store.value, times) == if TextsOk(f.items, false) then Some(RestoredFile(f, LOUD, times)) else None
    ensures Intact(store) <==> TextsOk(f.items, false)
  {
    FileRoundTrip(f, LOUD, times);
    FileAccepted(store.value, times);
    ReadableMeans(f.items);
  }

  lemma ContentsRepresented(store: Option<Node>, f: FileV)
    requires Represents(store, f) && Intact(store)
    ensures Contents(store).items == RestoredItems(f.items, LOUD, ZERO)
  {
    if store.Some? { ReadRepresented(store, f, ZERO); }
  }

  /** The items a command works on. */
  ghost function ItemsRead(store: Option<Node>, c: Command, w: World): seq<ItemV>
    requires ReadStore(store, c, w.times).Some?
  {
    ReadStore(store, c, w.times).value.items
  }

  /** The blob that an edit puts in. */
  ghost function Brought(items: seq<ItemV>, c: Command): Option<BlobV>
    requires Edit(items, c).Some?
  {
    match c
    case ImportBlob(_, detached, app) => Some(Tagged(DetachedBlob(detached.value), app))
    case SignWith(_, _, _, _, _) => Signed(items, c)
    case _ => None
  }

  ghost predicate BlobOk(b: BlobV, lasting: bool)
  {
    if lasting then Lasts(b) else HasText(b)
  }

  lemma TextsSnoc(items: seq<ItemV>, it: ItemV, lasting: bool)
    ensures TextsOk(items + [it], lasting) <==> TextsOk(items, lasting) && BlobsOk(it.blobs, lasting)
  {
    assert forall x :: x in items + [it] <==> x in items || x == it;
  }

  lemma TextsReplaced(items: seq<ItemV>, k: nat, it: ItemV, lasting: bool)
    requires k < |items| && (BlobsOk(it.blobs, lasting) ==> BlobsOk(items[k].blobs, lasting))
    ensures TextsOk(items[k := it], lasting) <==> TextsOk(items, lasting) && BlobsOk(it.blobs, lasting)
  {
    TextsByIndex(items, lasting);
    TextsByIndex(items[k := it], lasting);
    if TextsOk(items[k := it], lasting) {
      forall i | 0 <= i < |items| ensures BlobsOk(items[i].blobs, lasting) {
        assert BlobsOk(items[k := it][i].blobs, lasting);
      }
      assert BlobsOk(items[k := it][k].blobs, lasting);
    }
  }

  lemma AddBlobTexts(items: seq<ItemV>, id: CString, b: BlobV, lasting: bool)
    ensures TextsOk(AddBlobTo(items, id, b), lasting) <==> TextsOk(items, lasting) && BlobOk(b, lasting)
  {
    var k := ItemIndex(items, id);
    if k < |items| {
      BlobsSnoc(items[k].blobs, b);
      assert items[k] in items;
      TextsReplaced(items, k, items[k].(blobs := items[k].blobs + [b]), lasting);
    } else {
      var none: seq<BlobV> := [];
      BlobsSnoc(none, b);
      assert none + [b] == [b];
      AddBlobToNew(items, id, b);
      TextsSnoc(items, ItemV(id, [], [b]), lasting);
    }
  }

  /** After an edit the texts are those that were there and that of the blob put in. */
  lemma EditTexts(items: seq<ItemV>, c: Command, lasting: bool)
    requires Edit(items, c).Some?
    ensures TextsOk(Edit(items, c).value, lasting)
            <==> TextsOk(items, lasting) && (Brought(items, c).Some? ==> BlobOk(Brought(items, c).value, lasting))
  {
    match c
    case ImportBlob(id, _, _) => AddBlobTexts(items, id, Brought(items, c).value, lasting);
    case SignWith(id, _, _, _, _) => AddBlobTexts(items, id, Brought(items, c).value, lasting);
    case AddAliasTo(id, alias) =>
      var k := LookupItem(items, id).value;
      assert items[k] in items;
      TextsReplaced(items, k, items[k].(aliasIds := AddAlias(items[k].aliasIds, alias)), lasting);
    case RemoveAliasFrom(id, alias) =>
      var k := LookupItem(items, id).value;
      assert items[k] in items;
      TextsReplaced(items, k, items[k].(aliasIds := RemoveAlias(items[k].aliasIds, alias)), lasting);
  }

  lemma ItemsAfterReading(items: seq<ItemV>, times: Times)
    requires WellFormed(items)
    ensures var read := RestoredItems(items, LOUD, times);
            && WellFormed(read) && Kept(RestoredItems(items, LOUD, ZERO), RestoredItems(read, LOUD, ZERO))
            && forall lasting :: TextsOk(read, lasting) <==> TextsOk(items, true)
  {
    RestoredWellFormed(items, times);
    RestoredKept(items, times);
    forall lasting ensures TextsOk(RestoredItems(items, LOUD, times), lasting) <==> TextsOk(items, true) {
      RestoredTexts(items, RestoredItems(items, LOUD, times), LOUD, times, lasting);
    }
  }

  /** What a command reads from an intact store. */
  lemma CommandReads(store: Option<Node>, f: FileV, c: Command, w: World)
    requires Represents(store, f) && ReadStore(store, c, w.times).Some?
    ensures Intact(store) && WellFormed(ItemsRead(store, c, w))
    ensures var read := ReadStore(store, c, w.times).value; read.major == 0 && read.minor == 1
    ensures Kept(RestoredItems(f.items, LOUD, ZERO), RestoredItems(ItemsRead(store, c, w), LOUD, ZERO))
    ensures forall lasting :: TextsOk(ItemsRead(store, c, w), lasting) <==> TextsOk(f.items, true)
  {
    if store.Some? {
      ReadRepresented(store, f, w.times);
      ItemsAfterReading(f.items, w.times);
    } else {
      assert ItemsRead(store, c, w) == [] && f.items == [];
      KeptSame(RestoredItems(f.items, LOUD, ZERO));
    }
  }

  /** An import or sign command on a file, and an alias command on an item, never brings an item without an ID. */
  lemma NamedNames(items: seq<ItemV>, c: Command)
    requires Edit(items, c).Some? && (c.ImportBlob? ==> c.id != [])
    ensures NamesItem(items, c)
  {
    if c.SignWith? && LookupItem(items, c.id) == None {
      assert OfKind(WithItem(items, c.id)[ItemIndex(items, c.id)].blobs, c.target) == [];
    }
  }

  /** What a successful command writes represents the edited items. */
  lemma CommandWrites(store: Option<Node>, f: FileV, c: Command, w: World) returns (g: FileV)
    requires Represents(store, f) && Apply(store, c, w).ok && NamesItem(ItemsRead(store, c, w), c)
    ensures Represents(Apply(store, c, w).store, g)
    ensures g.items == Edit(ItemsRead(store, c, w), c).value
    ensures Kept(RestoredItems(f.items, LOUD, ZERO), RestoredItems(g.items, LOUD, ZERO))
  {
    CommandReads(store, f, c, w);
    g := EditRepresented(store, c, w);
    KeptThroughEdit(f.items, ItemsRead(store, c, w), c);
  }

  lemma EditRepresented(store: Option<Node>, c: Command, w: World) returns (g: FileV)
    requires Apply(store, c, w).ok && NamesItem(ItemsRead(store, c, w), c) && WellFormed(ItemsRead(store, c, w))
    requires var read := ReadStore(store, c, w.times).value; read.major == 0 && read.minor == 1
    ensures Represents(Apply(store, c, w).store, g)
    ensures g.items == Edit(ItemsRead(store, c, w), c).value
  {
    EditKeeps(ItemsRead(store, c, w), c);
    g := WrittenFile(store, c, w);
  }

  lemma WrittenFile(store: Option<Node>, c: Command, w: World) returns (g: FileV)
    requires Apply(store, c, w).ok
    ensures Apply(store, c, w).store == Some(FileTree(g, LOUD))
    ensures g.items == Edit(ItemsRead(store, c, w), c).value
    ensures var f := ReadStore(store, c, w.times).value; g.major == f.major && g.minor == f.minor
  {
    var read := ReadStore(store, c, w.times).value;
    g := WithItems(read, Edit(read.items, c).value);
    CommitWrites(store, read, c, w.write);
  }

  ghost function WithItems(f: FileV, items: seq<ItemV>): FileV
  {
    f.(items := items)
  }

  lemma CommitWrites(store: Option<Node>, f: FileV, c: Command, write: Write)
    requires Commit(store, f, c, write).ok
    ensures Edit(f.items, c).Some?
    ensures Commit(store, f, c, write).store == Some(FileTree(WithItems(f, Edit(f.items, c).value), LOUD))
  {}

  lemma KeptThroughEdit(before: seq<ItemV>, read: seq<ItemV>, c: Command)
    requires WellFormed(read) && NamesItem(read, c) && Edit(read, c).Some?
    requires Kept(RestoredItems(before, LOUD, ZERO), RestoredItems(read, LOUD, ZERO))
    ensures Kept(RestoredItems(before, LOUD, ZERO), RestoredItems(Edit(read, c).value, LOUD, ZERO))
  {
    var after := Edit(read, c).value;
    EditKeeps(read, c);
    KeptRestored(read, after);
    KeptTransitive(RestoredItems(before, LOUD, ZERO), RestoredItems(read, LOUD, ZERO),
                   RestoredItems(after, LOUD, ZERO));
  }

  /** The command names its item, or is one that cannot create one without an ID. */
  ghost predicate Named(c: Command)
  {
    c.ImportBlob? ==> c.id != []
  }

  /**
   * A command that is named leaves a well-formed catalogue, readable or not; and everything that was in the file is
   * still in it, in its place and in order, exactly when the file can still be read or had nothing in it.
   */
  lemma CommandKeeps(store: Option<Node>, c: Command, w: World)
    requires Good(store) && Named(c) && !w.write.BrokenOff?
    ensures Good(Apply(store, c, w).store)
    ensures Kept(Contents(store).items, Contents(Apply(store, c, w).store).items)
            <==> Intact(Apply(store, c, w).store) || Contents(store).items == []
  {
    if !Apply(store, c, w).ok {
      FailureKeeps(store, c, w);
      KeptSame(Contents(store).items);
      if !Intact(store) { BrokenContents(store); }
    } else {
      var f :| Represents(store, f);
      SuccessKeeps(store, f, c, w);
    }
  }

  lemma FailureKeeps(store: Option<Node>, c: Command, w: World)
    requires !Apply(store, c, w).ok && !w.write.BrokenOff?
    ensures Apply(store, c, w).store == store
  {}

  lemma SuccessKeeps(store: Option<Node>, f: FileV, c: Command, w: World)
    requires Represents(store, f) && Named(c) && Apply(store, c, w).ok
    ensures var after := Apply(store, c, w).store;
            && Good(after)
            && (Kept(Contents(store).items, Contents(after).items) <==> Intact(after) || Contents(store).items == [])
  {
    CommandReads(store, f, c, w);
    NamedNames(ItemsRead(store, c, w), c);
    var g := CommandWrites(store, f, c, w);
    KeptIfIntact(store, f, Apply(store, c, w).store, g);
  }

  lemma KeptIfIntact(store: Option<Node>, f: FileV, after: Option<Node>, g: FileV)
    requires Represents(store, f) && Intact(store) && Represents(after, g)
    requires Kept(RestoredItems(f.items, LOUD, ZERO), RestoredItems(g.items, LOUD, ZERO))
    ensures Kept(Contents(store).items, Contents(after).items) <==> Intact(after) || Contents(store).items == []
  {
    ContentsRepresented(store, f);
    if Intact(after) { ContentsRepresented(after, g); } else { BrokenContents(after); }
  }

  lemma KeptSame(items: seq<ItemV>)
    ensures Kept(items, items)
  {}

  /** A file that cannot be read shows nothing. */
  lemma BrokenContents(store: Option<Node>)
    requires store.Some? && !IsCatalogue(store.value)
    ensures Contents(store).items == []
  {
    FileAccepted(store.value, ZERO);
  }

  /**
   * A command that fails leaves the stored file as it was, unless it had got as far as writing and the write broke
   * off.
   */
  lemma FailureChangesNothing(store: Option<Node>, c: Command, w: World)
    requires !Apply(store, c, w).ok
    ensures Apply(store, c, w).store == store
            <==> (var f := ReadStore(store, c, w.times);
                  f.Some? && Edit(f.value.items, c).Some? && w.write.BrokenOff? ==> store == Some(w.write.leaves))
  {}

  /**
   * What a successful command writes can be read back exactly when the command did not create an item without ID, the
   * file it read had no empty text, and the blob it put in has a text.
   */
  lemma WrittenIsReadable(store: Option<Node>, c: Command, w: World)
    requires Good(store) && Apply(store, c, w).ok
    ensures var items := ItemsRead(store, c, w);
            Intact(Apply(store, c, w).store)
            <==> NamesItem(items, c) && TextsLast(Contents(store))
                 && (Brought(items, c).Some? ==> HasText(Brought(items, c).value))
  {
    var f :| Represents(store, f);
    CommandReads(store, f, c, w);
    ContentsLast(store, f);
    if NamesItem(ItemsRead(store, c, w), c) {
      NamedIsReadable(store, f, c, w);
    } else {
      UnnamedIsBroken(store, c, w);
    }
  }

  lemma NamedIsReadable(store: Option<Node>, f: FileV, c: Command, w: World)
    requires Represents(store, f) && Apply(store, c, w).ok && NamesItem(ItemsRead(store, c, w), c)
    ensures var items := ItemsRead(store, c, w);
            Intact(Apply(store, c, w).store)
            <==> TextsOk(f.items, true) && (Brought(items, c).Some? ==> HasText(Brought(items, c).value))
  {
    CommandReads(store, f, c, w);
    var g := CommandWrites(store, f, c, w);
    ReadRepresented(Apply(store, c, w).store, g, ZERO);
    EditTexts(ItemsRead(store, c, w), c, false);
  }

  lemma UnnamedIsBroken(store: Option<Node>, c: Command, w: World)
    requires Apply(store, c, w).ok && !NamesItem(ItemsRead(store, c, w), c)
    ensures !Intact(Apply(store, c, w).store)
  {
    var items := ItemsRead(store, c, w);
    var g := WrittenFile(store, c, w);
    AddBlobToNew(items, [], Brought(items, c).value);
    AllReadableSnoc(items, ItemV([], [], [Brought(items, c).value]));
    FileRoundTrip(g, LOUD, ZERO);
    FileAccepted(FileTree(g, LOUD), ZERO);
  }

  /**
   * A command succeeds exactly when the catalogue can be read, or is new and the command one that starts one, what the
   * command needs is there, and writing ends well.  The version of the catalogue stays.
   */
  lemma CommandSucceeds(store: Option<Node>, c: Command, w: World)
    requires Good(store)
    ensures var f := ReadStore(store, c, w.times);
            && (f.Some? <==> if store.Some? then IsCatalogue(store.value) else c.ImportBlob? || c.SignWith?)
            && (Apply(store, c, w).ok <==> f.Some? && CanEdit(f.value.items, c) && w.write.Written?)
            && (Apply(store, c, w).ok ==> StoredAs(Apply(store, c, w).store, f.value, Edit(f.value.items, c).value))
  {
    StoreIsRead(store, c, w.times);
    ApplyNeeds(store, c, w);
    if ReadStore(store, c, w.times).Some? {
      var f :| Represents(store, f);
      CommandReads(store, f, c, w);
      EditSucceeds(ItemsRead(store, c, w), c);
    }
  }

  lemma StoreIsRead(store: Option<Node>, c: Command, times: Times)
    ensures ReadStore(store, c, times).Some?
            <==> if store.Some? then IsCatalogue(store.value) else c.ImportBlob? || c.SignWith?
  {
    if store.Some? { FileAccepted(store.value, times); }
  }

  lemma ApplyNeeds(store: Option<Node>, c: Command, w: World)
    ensures var f := ReadStore(store, c, w.times);
            && (Apply(store, c, w).ok <==> f.Some? && Edit(f.value.items, c).Some? && w.write.Written?)
            && (Apply(store, c, w).ok ==> StoredAs(Apply(store, c, w).store, f.value, Edit(f.value.items, c).value))
  {
    if ReadStore(store, c, w.times).Some? { CommitNeeds(store, ReadStore(store, c, w.times).value, c, w.write); }
  }

  lemma CommitNeeds(store: Option<Node>, f: FileV, c: Command, write: Write)
    ensures Commit(store, f, c, write).ok <==> Edit(f.items, c).Some? && write.Written?
    ensures Commit(store, f, c, write).ok ==> StoredAs(Commit(store, f, c, write).store, f, Edit(f.items, c).value)
  {}

  /** The stored file is an export of these items with the version of f. */
  ghost predicate StoredAs(store: Option<Node>, f: FileV, items: seq<ItemV>)
  {
    store == Some(FileTree(FileV(f.major, f.minor, items), ExportFlags(false)))
  }

  /** A file that cannot be read stays as it is: no command gets as far as writing. */
  lemma BrokenStays(store: Option<Node>, c: Command, w: World)
    requires !Intact(store)
    ensures Apply(store, c, w) == Outcome(false, store)
  {
    FileAccepted(store.value, w.times);
  }

  /** After an import without an ID into a new catalogue, no command ever succeeds again. */
  lemma EmptyIdLocksStore(d: Detached, w: World, c: Command, v: World)
    requires w.write.Written?
    ensures var locked := Apply(None, ImportBlob([], Some(d), None), w);
            locked.ok && Apply(locked.store, c, v) == Outcome(false, locked.store)
  {
    var locked := Apply(None, ImportBlob([], Some(d), None), w);
    NothingFound([]);
    assert Represents(None, NEW_FILE);
    WrittenIsReadable(None, ImportBlob([], Some(d), None), w);
    BrokenStays(locked.store, c, v);
  }

  lemma NothingFound(id: CString)
    ensures LookupItem([], id) == None
  {
    var none: seq<ItemV> := [];
    assert Positions(none, id, false) == [] && Positions(none, id, true) == [];
  }

  /**
   * Importing an empty text file into a new catalogue, and the next successful command writes a catalogue that no
   * command can read.
   */
  lemma EmptyTextLocksStore(id: CString, d: Detached, w: World, c: Command, v: World, later: Command, u: World)
    requires id != [] && IsUtf8(d.flags) && d.contents == [] && w.write.Written?
    ensures var first := Apply(None, ImportBlob(id, Some(d), None), w);
            && first.ok && Intact(first.store)
            && (Apply(first.store, c, v).ok ==>
                  Apply(Apply(first.store, c, v).store, later, u) == Outcome(false, Apply(first.store, c, v).store))
  {
    FirstEmptyText(id, d, w);
    var store := Apply(None, ImportBlob(id, Some(d), None), w).store;
    if Apply(store, c, v).ok {
      WrittenIsReadable(store, c, v);
      BrokenStays(Apply(store, c, v).store, later, u);
    }
  }

  lemma FirstEmptyText(id: CString, d: Detached, w: World)
    requires id != [] && IsUtf8(d.flags) && d.contents == [] && w.write.Written?
    ensures var first := Apply(None, ImportBlob(id, Some(d), None), w);
            first.ok && Good(first.store) && Intact(first.store) && !TextsLast(Contents(first.store))
  {
    var c := ImportBlob(id, Some(d), None);
    NothingFound(id);
    assert Represents(None, NEW_FILE);
    WrittenIsReadable(None, c, w);
    var g := CommandWrites(None, NEW_FILE, c, w);
    ContentsLast(Apply(None, c, w).store, g);
    EditTexts([], c, true);
  }

  // ---- runs

  datatype Step = Step(command: Command, world: World)

  ghost function Run(steps: seq<Step>): Option<Node>
  {
    if steps == [] then None
    else
      var last := steps[|steps| - 1];
      Apply(Run(steps[..|steps| - 1]), last.command, last.world).store
  }

  /** Imports have IDs, and no write breaks off. */
  ghost predicate Orderly(steps: seq<Step>)
  {
    forall s <- steps :: Named(s.command) && !s.world.write.BrokenOff?
  }

  ghost predicate Succeeds(steps: seq<Step>, i: nat)
  {
    i < |steps| && Apply(Run(steps[..i]), steps[i].command, steps[i].world).ok
  }

  /** The blob that the successful step i puts in. */
  ghost function BroughtBy(steps: seq<Step>, i: nat): Option<BlobV>
    requires Succeeds(steps, i)
  {
    Brought(ItemsRead(Run(steps[..i]), steps[i].command, steps[i].world), steps[i].command)
  }

  ghost predicate BringsOk(steps: seq<Step>, i: nat, lasting: bool)
  {
    Succeeds(steps, i) && BroughtBy(steps, i).Some? ==> BlobOk(BroughtBy(steps, i).value, lasting)
  }

  /** Nothing is written after a step that put in an empty text. */
  ghost predicate StopsAfter(steps: seq<Step>, i: nat)
  {
    !BringsOk(steps, i, true) ==> forall j: nat :: i < j ==> !Succeeds(steps, j)
  }

  /** Every blob put in has a text, and no step succeeds after one that put in an empty text. */
  ghost predicate Harmless(steps: seq<Step>)
  {
    forall i: nat :: i < |steps| ==> BringsOk(steps, i, false) && StopsAfter(steps, i)
  }

  ghost predicate AllBringLasting(steps: seq<Step>)
  {
    forall i: nat :: i < |steps| ==> BringsOk(steps, i, true)
  }

  lemma {:induction false} RunSnoc(front: seq<Step>, s: Step)
    ensures Run(front + [s]) == Apply(Run(front), s.command, s.world).store
    ensures Succeeds(front + [s], |front|) <==> Apply(Run(front), s.command, s.world).ok
  {
    assert (front + [s])[..|front|] == front;
  }

  /** What an earlier step did does not depend on the last one. */
  lemma {:induction false} EarlierSteps(front: seq<Step>, s: Step, i: nat, lasting: bool)
    requires i < |front|
    ensures Succeeds(front + [s], i) <==> Succeeds(front, i)
    ensures BringsOk(front + [s], i, lasting) <==> BringsOk(front, i, lasting)
  {
    assert (front + [s])[..i] == front[..i] && (front + [s])[i] == front[i];
  }

  lemma {:induction false} AllBringLastingSnoc(front: seq<Step>, s: Step)
    ensures AllBringLasting(front + [s]) <==> AllBringLasting(front) && BringsOk(front + [s], |front|, true)
  {
    var steps := front + [s];
    forall i: nat | i < |front| ensures BringsOk(steps, i, true) <==> BringsOk(front, i, true) {
      EarlierSteps(front, s, i, true);
    }
  }

  lemma {:induction false} LastingIsText(steps: seq<Step>, i: nat)
    ensures BringsOk(steps, i, true) ==> BringsOk(steps, i, false)
  {}

  /** A step that fails adds nothing. */
  lemma {:induction false} HarmlessFailure(front: seq<Step>, s: Step)
    requires !Succeeds(front + [s], |front|)
    ensures Harmless(front + [s]) <==> Harmless(front)
  {
    var steps := front + [s];
    forall i: nat | i < |front|
      ensures BringsOk(steps, i, false) <==> BringsOk(front, i, false)
      ensures StopsAfter(steps, i) <==> StopsAfter(front, i)
    {
      EarlierSteps(front, s, i, false);
      StopsUnlessLast(front, s, i);
    }
    assert BringsOk(steps, |front|, false) && StopsAfter(steps, |front|);
  }

  lemma {:induction false} StopsUnlessLast(front: seq<Step>, s: Step, i: nat)
    requires i < |front| && !Succeeds(front + [s], |front|)
    ensures StopsAfter(front + [s], i) <==> StopsAfter(front, i)
  {
    EarlierSteps(front, s, i, true);
    forall j: nat ensures Succeeds(front + [s], j) <==> Succeeds(front, j) {
      if j < |front| { EarlierSteps(front, s, j, true); }
    }
  }

  /** A step that succeeds does so after lasting texts only. */
  lemma {:induction false} HarmlessSuccess(front: seq<Step>, s: Step)
    requires Succeeds(front + [s], |front|)
    ensures Harmless(front + [s]) <==> AllBringLasting(front) && BringsOk(front + [s], |front|, false)
  {
    if Harmless(front + [s]) { HarmlessIsLasting(front, s); }
    if AllBringLasting(front) && BringsOk(front + [s], |front|, false) { LastingIsHarmless(front, s); }
  }

  lemma {:induction false} HarmlessIsLasting(front: seq<Step>, s: Step)
    requires Succeeds(front + [s], |front|) && Harmless(front + [s])
    ensures AllBringLasting(front) && BringsOk(front + [s], |front|, false)
  {
    var steps := front + [s];
    assert BringsOk(steps, |front|, false);
    forall i: nat | i < |front| ensures BringsOk(front, i, true) {
      assert StopsAfter(steps, i);
      EarlierSteps(front, s, i, true);
    }
  }

  lemma {:induction false} LastingIsHarmless(front: seq<Step>, s: Step)
    requires AllBringLasting(front) && BringsOk(front + [s], |front|, false)
    ensures Harmless(front + [s])
  {
    var steps := front + [s];
    forall i: nat | i < |steps| ensures BringsOk(steps, i, false) && StopsAfter(steps, i) {
      if i < |front| {
        assert BringsOk(front, i, true);
        EarlierSteps(front, s, i, true);
        LastingIsText(steps, i);
      } else {
        assert forall j: nat :: i < j ==> !Succeeds(steps, j);
      }
    }
  }

  /** The last step of a run, in terms of its blob and of the store before it. */
  lemma {:induction false} LastStep(front: seq<Step>, s: Step)
    requires Orderly(front + [s]) && Good(Run(front)) && Succeeds(front + [s], |front|)
    ensures Intact(Run(front + [s])) <==> TextsLast(Contents(Run(front))) && BringsOk(front + [s], |front|, false)
    ensures Intact(Run(front + [s])) ==>
              (TextsLast(Contents(Run(front + [s])))
               <==> TextsLast(Contents(Run(front))) && BringsOk(front + [s], |front|, true))
  {
    var steps, store := front + [s], Run(front);
    assert s in steps && steps[|front|] == s && steps[..|front|] == front;
    RunSnoc(front, s);
    var items := ItemsRead(store, s.command, s.world);
    NamedNames(items, s.command);
    WrittenIsReadable(store, s.command, s.world);
    if Intact(Run(steps)) { WrittenTexts(store, s.command, s.world); }
  }

  lemma WrittenTexts(store: Option<Node>, c: Command, w: World)
    requires Good(store) && Apply(store, c, w).ok && NamesItem(ItemsRead(store, c, w), c)
    requires Intact(Apply(store, c, w).store)
    ensures var items, after := ItemsRead(store, c, w), Apply(store, c, w).store;
            TextsLast(Contents(after))
            <==> TextsLast(Contents(store)) && (Brought(items, c).Some? ==> Lasts(Brought(items, c).value))
  {
    var f :| Represents(store, f);
    var g := CommandWrites(store, f, c, w);
    CommandReads(store, f, c, w);
    ContentsLast(store, f);
    ContentsLast(Apply(store, c, w).store, g);
    EditTexts(ItemsRead(store, c, w), c, true);
  }

  lemma ContentsLast(store: Option<Node>, f: FileV)
    requires Represents(store, f) && Intact(store)
    ensures TextsLast(Contents(store)) <==> TextsOk(f.items, true)
  {
    ContentsRepresented(store, f);
    RestoredTexts(f.items, RestoredItems(f.items, LOUD, ZERO), LOUD, ZERO, true);
  }

  lemma {:induction false} RunIsRepresented(steps: seq<Step>)
    requires Orderly(steps)
    ensures Good(Run(steps))
  {
    if steps == [] {
      assert Represents(None, NEW_FILE);
    } else {
      var n := |steps| - 1;
      SplitLast(steps);
      assert steps[n] in steps;
      RunIsRepresented(steps[..n]);
      CommandKeeps(Run(steps[..n]), steps[n].command, steps[n].world);
    }
  }

  /**
   * Over every run of commands, starting from no file, in which imports have IDs and no write breaks off: the stored
   * file can be read back exactly when every blob put in has a text and nothing was written after an empty text.
   */
  lemma {:induction false} RunIsReadable(steps: seq<Step>)
    requires Orderly(steps)
    ensures Intact(Run(steps)) <==> Harmless(steps)
    ensures Intact(Run(steps)) ==> (TextsLast(Contents(Run(steps))) <==> AllBringLasting(steps))
  {
    if steps != [] {
      var n := |steps| - 1;
      var front, s := steps[..n], steps[n];
      SplitLast(steps);
      assert Orderly(front);
      RunIsReadable(front);
      RunIsRepresented(front);
      RunSnoc(front, s);
      AllBringLastingSnoc(front, s);
      if Succeeds(steps, n) {
        HarmlessSuccess(front, s);
        LastStep(front, s);
        if !Intact(Run(front)) { BrokenStays(Run(front), s.command, s.world); }
      } else {
        HarmlessFailure(front, s);
        FailureKeeps(Run(front), s.command, s.world);
      }
    }
  }

  /** What can be known of a command beforehand: whatever it brings, the text lasts. */
  ghost predicate BringsLasting(c: Command)
  {
    match c
    case ImportBlob(_, detached, _) => detached.Some? ==> Lasts(DetachedBlob(detached.value))
    case SignWith(_, _, _, sign, _) => forall data :: sign(data).Some? ==> Lasts(sign(data).value)
    case _ => true
  }

  /** A run of such commands is always harmless. */
  lemma {:induction false} LastingRunIsHarmless(steps: seq<Step>)
    requires forall s <- steps :: BringsLasting(s.command)
    ensures Harmless(steps)
  {
    forall i: nat | i < |steps| ensures BringsOk(steps, i, false) && StopsAfter(steps, i) {
      assert steps[i] in steps;
      StepBringsLasting(steps, i);
      LastingIsText(steps, i);
    }
  }

  lemma {:induction false} StepBringsLasting(steps: seq<Step>, i: nat)
    requires i < |steps| && BringsLasting(steps[i].command)
    ensures BringsOk(steps, i, true)
  {
    if Succeeds(steps, i) {
      var store, c, w := Run(steps[..i]), steps[i].command, steps[i].world;
      EditBringsLasting(ItemsRead(store, c, w), c);
    }
  }

  lemma EditBringsLasting(items: seq<ItemV>, c: Command)
    requires Edit(items, c).Some? && BringsLasting(c)
    ensures Brought(items, c).Some? ==> Lasts(Brought(items, c).value)
  {}

  /**
   * And whenever it can be read, whatever the clock says, item IDs in it are pairwise distinct, alias lists have no
   * repetitions and every item has an ID and a blob.
   */
  lemma {:induction false} RunIsGood(steps: seq<Step>, times: Times)
    requires Orderly(steps) && Run(steps).Some?
    ensures ReadFile(Run(steps).value, times).Some? <==> Harmless(steps)
    ensures Harmless(steps) ==>
              var f := ReadFile(Run(steps).value, times).value; WellFormed(f.items) && f.major == 0 && f.minor == 1
  {
    RunIsReadable(steps);
    RunIsRepresented(steps);
    var f :| Represents(Run(steps), f);
    ReadRepresented(Run(steps), f, times);
    RestoredWellFormed(f.items, times);
  }

  /**
   * However a run goes on, no item moves or changes its ID and no stored blob is lost, changed or reordered, exactly
   * when the file can still be read in the end or had nothing readable in it.
   */
  lemma {:induction false} NothingIsLost(steps: seq<Step>, more: seq<Step>)
    requires Orderly(steps) && Orderly(more)
    ensures Kept(Contents(Run(steps)).items, Contents(Run(steps + more)).items)
            <==> Harmless(steps + more) || Contents(Run(steps)).items == []
  {
    KeptToTheEnd(steps, more);
    assert Orderly(steps + more);
    RunIsReadable(steps + more);
  }

  lemma {:induction false} KeptToTheEnd(steps: seq<Step>, more: seq<Step>)
    requires Orderly(steps) && Orderly(more)
    ensures Kept(Contents(Run(steps)).items, Contents(Run(steps + more)).items)
            <==> Intact(Run(steps + more)) || Contents(Run(steps)).items == []
    decreases |more|
  {
    RunIsRepresented(steps);
    if more == [] {
      assert steps + more == steps;
      KeptSame(Contents(Run(steps)).items);
      if !Intact(Run(steps)) { BrokenContents(Run(steps)); }
    } else {
      var n := |more| - 1;
      var before, s := steps + more[..n], more[n];
      SplitLast(more);
      ConcatAssoc(steps, more[..n], [s]);
      assert s in more;
      KeptToTheEnd(steps, more[..n]);
      assert Orderly(before);
      RunIsRepresented(before);
      RunSnoc(before, s);
      KeptOneMore(Contents(Run(steps)).items, Run(before), s);
    }
  }

  lemma {:induction false} KeptOneMore(items: seq<ItemV>, store: Option<Node>, s: Step)
    requires Good(store) && Named(s.command) && !s.world.write.BrokenOff?
    requires Kept(items, Contents(store).items) <==> Intact(store) || items == []
    ensures var after := Apply(store, s.command, s.world).store;
            Kept(items, Contents(after).items) <==> Intact(after) || items == []
  {
    var after := Apply(store, s.command, s.world).store;
    CommandKeeps(store, s.command, s.world);
    if !Intact(store) {
      BrokenStays(store, s.command, s.world);
    } else if Intact(after) {
      KeptTransitive(items, Contents(store).items, Contents(after).items);
    } else {
      BrokenContents(after);
    }
  }
}
