/** The editing commands of jcat-tool.c as transitions of one stored catalogue. */
module Tool {
  import opened Common
  import opened Json
  import opened Blob
  import opened Item
  import opened File

  const LOUD := ExportFlags(false)

  /** How writing ends.  A write that breaks off leaves something else behind, not the old file. */
  datatype Write = Written | Refused | BrokenOff(leaves: Node)

  /** What one command meets outside the catalogue: the clock while reading, and how writing ends. */
  datatype World = World(times: Times, write: Write)

  /** A detached file, of the kind and with the flags its extension stands for; now is the clock. */
  datatype Detached = Detached(kind: U32, flags: U32, contents: Bytes, now: I64)

  /**
   * ImportBlob carries the detached file, if it can be read and its extension is known.  SignWith covers self-sign and
   * sign: source is the file to sign, and sign stands for engine lookup, key loading and the engine.
   */
  datatype Command =
    | ImportBlob(id: CString, detached: Option<Detached>, appstreamId: Option<CString>)
    | SignWith(id: CString, source: Option<Bytes>, target: U32, sign: Bytes -> Option<BlobV>,
        appstreamId: Option<CString>)
    | AddAliasTo(id: CString, alias: CString)
    | RemoveAliasFrom(id: CString, alias: CString)

  // ---- transitions on values

  function ItemIndex(items: seq<ItemV>, id: CString): nat
  {
    var found := LookupItem(items, id);
    if found.Some? then found.value else |items|
  }

  /** Looks the item up, or adds one. */
  function WithItem(items: seq<ItemV>, id: CString): (r: seq<ItemV>)
    ensures ItemIndex(items, id) < |r|
  {
    if LookupItem(items, id).Some? then items else items + [ItemV(id, [], [])]
  }

  function AddBlobTo(items: seq<ItemV>, id: CString, b: BlobV): seq<ItemV>
  {
    var all, k := WithItem(items, id), ItemIndex(items, id);
    all[k := all[k].(blobs := all[k].blobs + [b])]
  }

  function Tagged(b: BlobV, appstreamId: Option<CString>): BlobV
  {
    if appstreamId.Some? then b.(appstreamId := appstreamId) else b
  }

  /** jcat_get_contents_bytes keeps the buffer even of an empty file. */
  function DetachedBlob(d: Detached): BlobV
  {
    BlobV(d.kind, KIND_UNKNOWN, d.flags, Buffer(d.contents), None, d.now)
  }

  /** The ID is the name of the source file, and no file has the empty name. */
  function SourceFile(c: Command): Option<Bytes>
    requires c.SignWith?
  {
    if c.id == [] then None else c.source
  }

  /** The bytes a sign command signs: the file itself, or the item's only blob of the target kind. */
  function SignSource(items: seq<ItemV>, c: Command): Option<Bytes>
    requires c.SignWith?
  {
    if c.target == KIND_UNKNOWN then SourceFile(c)
    else
      var target := BlobByKind(WithItem(items, c.id)[ItemIndex(items, c.id)], c.target);
      if target == None then None else Some(Content(target.value.data))
  }

  function Signed(items: seq<ItemV>, c: Command): Option<BlobV>
    requires c.SignWith?
  {
    var source := SignSource(items, c);
    if source == None || c.sign(source.value) == None then None
    else
      var b := Tagged(c.sign(source.value).value, c.appstreamId);
      Some(if c.target == KIND_UNKNOWN then b else b.(target := c.target))
  }

  /** What the command makes of the items it has read, or None when it fails. */
  function Edit(items: seq<ItemV>, c: Command): Option<seq<ItemV>>
  {
    match c
    case ImportBlob(id, detached, appstreamId) =>
      if detached == None then None
      else Some(AddBlobTo(items, id, Tagged(DetachedBlob(detached.value), appstreamId)))
    case SignWith(id, _, _, _, _) =>
      var b := Signed(items, c);
      if b == None then None else Some(AddBlobTo(items, id, b.value))
    case AddAliasTo(id, alias) =>
      var k := LookupItem(items, id);
      if k == None then None
      else Some(items[k.value := items[k.value].(aliasIds := AddAlias(items[k.value].aliasIds, alias))])
    case RemoveAliasFrom(id, alias) =>
      var k := LookupItem(items, id);
      if k == None then None
      else Some(items[k.value := items[k.value].(aliasIds := RemoveAlias(items[k.value].aliasIds, alias))])
  }

  /** Only the commands that add blobs create the catalogue. */
  function ReadStore(store: Option<Node>, c: Command, times: Times): Option<FileV>
  {
    if store.Some? then ReadFile(store.value, times)
    else if c.ImportBlob? || c.SignWith? then Some(NEW_FILE)
    else None
  }

  datatype Outcome = Outcome(ok: bool, store: Option<Node>)

  /** Edits the catalogue that was read and writes it. */
  function Commit(store: Option<Node>, f: FileV, c: Command, write: Write): Outcome
  {
    var items := Edit(f.items, c);
    if items == None then Outcome(false, store)
    else
      match write
      case Refused => Outcome(false, store)
      case BrokenOff(leaves) => Outcome(false, Some(leaves))
      case Written => Outcome(true, Some(FileTree(f.(items := items.value), LOUD)))
  }

  function Apply(store: Option<Node>, c: Command, w: World): Outcome
  {
    var f := ReadStore(store, c, w.times);
    if f == None then Outcome(false, store) else Commit(store, f.value, c, w.write)
  }

  // ---- the commands

  class Tool {
    var store: Option<Node>

    constructor ()
      ensures store == None
    {
      store := None;
    }

    /** Import, self-sign and sign. */
    method AddBlobCommand(c: Command, w: World) returns (ok: bool)
      requires c.ImportBlob? || c.SignWith?
      modifies this
      ensures Apply(old(store), c, w) == Outcome(ok, store)
    {
      var file := Load(c, w);
      if file == null {
        return false;
      }
      ghost var f := file.View();
      if c.ImportBlob? {
        ok := AddDetached(file, c);
      } else {
        ok := AddSignature(file, c);
      }
      ok := Save(file, w.write, ok, f, c);
    }

    /** Add-alias and remove-alias. */
    method AliasCommand(c: Command, w: World) returns (ok: bool)
      requires c.AddAliasTo? || c.RemoveAliasFrom?
      modifies this
      ensures Apply(old(store), c, w) == Outcome(ok, store)
    {
      var file := Load(c, w);
      if file == null {
        return false;
      }
      ghost var f := file.View();
      ok := ChangeAlias(file, c);
      ok := Save(file, w.write, ok, f, c);
    }

    method AddDetached(file: JcatFile, c: Command) returns (ok: bool)
      requires c.ImportBlob? && NoDuplicates(file.items)
      modifies file, file.items
      ensures ok == Edit(old(file.View()).items, c).Some?
      ensures ok ==> file.View() == old(file.View()).(items := Edit(old(file.View()).items, c).value)
    {
      if c.detached == None {
        return false;
      }
      var d := c.detached.value;
      var blob := new JcatBlob.NewFull(d.kind, Buffer(d.contents), d.flags, d.now);
      ghost var k := ItemIndex(file.View().items, c.id);
      var item := LookupOrCreate(file, c.id);
      if c.appstreamId.Some? {
        blob.SetAppstreamId(c.appstreamId);
      }
      AddBlobAt(file, item, k, blob);
      return true;
    }

    method AddSignature(file: JcatFile, c: Command) returns (ok: bool)
      requires c.SignWith? && NoDuplicates(file.items)
      modifies file, file.items
      ensures ok == Edit(old(file.View()).items, c).Some?
      ensures ok ==> file.View() == old(file.View()).(items := Edit(old(file.View()).items, c).value)
    {
      ghost var views := file.View().items;
      ghost var k := ItemIndex(views, c.id);
      var item := LookupOrCreate(file, c.id);
      var blob := Sign(item, c, views);
      if blob == null {
        return false;
      }
      AddBlobAt(file, item, k, blob);
      return true;
    }

    method Sign(item: JcatItem, c: Command, ghost views: seq<ItemV>) returns (blob: JcatBlob?)
      requires c.SignWith? && item.View() == WithItem(views, c.id)[ItemIndex(views, c.id)]
      ensures blob == null <==> Signed(views, c) == None
      ensures blob != null ==> fresh(blob) && Signed(views, c) == Some(blob.View())
    {
      var source := SourceFile(c);
      if c.target != KIND_UNKNOWN {
        var target := item.GetBlobByKind(c.target);
        source := if target == None then None else Some(Content(target.value.data));
      }
      if source == None || c.sign(source.value) == None {
        return null;
      }
      blob := new JcatBlob.Copy(c.sign(source.value).value);
      if c.appstreamId.Some? {
        blob.SetAppstreamId(c.appstreamId);
      }
      if c.target != KIND_UNKNOWN {
        blob.SetTarget(c.target);
      }
    }

    method ChangeAlias(file: JcatFile, c: Command) returns (ok: bool)
      requires (c.AddAliasTo? || c.RemoveAliasFrom?) && NoDuplicates(file.items)
      modifies file.items
      ensures ok == Edit(old(file.View()).items, c).Some?
      ensures ok ==> file.View() == old(file.View()).(items := Edit(old(file.View()).items, c).value)
    {
      var item := file.GetItemById(c.id);
      if item == null {
        return false;
      }
      if c.AddAliasTo? {
        item.AddAliasId(c.alias);
      } else {
        item.RemoveAliasId(c.alias);
      }
      return true;
    }

    /** Reads the stored catalogue, or starts a new one where the command does; null when it cannot. */
    method Load(c: Command, w: World) returns (file: JcatFile?)
      ensures file == null <==> ReadStore(store, c, w.times) == None
      ensures file != null ==> fresh(file) && fresh(file.items) && NoDuplicates(file.items)
      ensures file != null ==> ReadStore(store, c, w.times) == Some(file.View())
    {
      if store == None && (c.AddAliasTo? || c.RemoveAliasFrom?) {
        return null;
      }
      file := new JcatFile.New();
      if store.Some? {
        var ok, added := file.ImportParser(store.value, w.times);
        if !ok {
          return null;
        }
        assert file.items == added;
      }
    }

    method LookupOrCreate(file: JcatFile, id: CString) returns (item: JcatItem)
      requires NoDuplicates(file.items)
      modifies file
      ensures file.View() == old(file.View()).(items := WithItem(old(file.View()).items, id))
      ensures ItemIndex(old(file.View()).items, id) < |file.items|
      ensures item == file.items[ItemIndex(old(file.View()).items, id)]
      ensures NoDuplicates(file.items) && (item in old(file.items) || fresh(item))
    {
      var found := file.GetItemById(id);
      if found == null {
        item := new JcatItem.New(id);
        file.AddItem(item);
      } else {
        item := found;
      }
    }

    method AddBlobAt(file: JcatFile, item: JcatItem, ghost k: nat, blob: JcatBlob)
      requires NoDuplicates(file.items) && k < |file.items| && item == file.items[k]
      modifies item
      ensures var it := old(file.View()).items[k];
              file.View()
              == old(file.View()).(items := old(file.View()).items[k := it.(blobs := it.blobs + [blob.View()])])
      ensures file.items == old(file.items)
    {
      item.AddBlob(blob);
    }

    /** Replaces the stored file if the edit succeeded and writing ends well. */
    method Save(file: JcatFile, write: Write, edited: bool, ghost f: FileV, ghost c: Command) returns (ok: bool)
      requires edited == Edit(f.items, c).Some?
      requires edited ==> file.View() == f.(items := Edit(f.items, c).value)
      modifies this
      ensures Commit(old(store), f, c, write) == Outcome(ok, store)
    {
      if !edited || write.Refused? {
        return false;
      }
      if write.BrokenOff? {
        store := Some(write.leaves);
        return false;
      }
      var builder := new Builder();
      file.ExportBuilder(builder, LOUD);
      store := builder.root;
      return true;
    }
  }
}
