/** jcat-file.c: the catalogue, its form in the file and its lookup. */
module File {
  import opened Common
  import opened Json
  import opened Blob
  import opened Item

  datatype FileV = FileV(major: U32, minor: U32, items: seq<ItemV>)

  /** The clock at the creation of blob j of item i. */
  type Times = nat -> nat -> I64

  // ---- export and import on values

  function ItemNodes(items: seq<ItemV>, flags: ExportFlags): (r: seq<Node>)
    ensures |r| == |items|
    ensures forall i :: 0 <= i < |r| ==> r[i] == Object(ItemMembers(items[i], flags))
  {
    if items == [] then []
    else
      var n := |items| - 1;
      ItemNodes(items[..n], flags) + [Object(ItemMembers(items[n], flags))]
  }

  function VersionMembers(f: FileV): seq<Member>
  {
    [Member(JcatVersionMajor, Int(f.major))] + [Member(JcatVersionMinor, Int(f.minor))]
  }

  /** The tree a catalogue is exported as; an empty item list is left out. */
  function FileTree(f: FileV, flags: ExportFlags): Node
  {
    Object(VersionMembers(f) + (if f.items != [] then [Member(Items, Array(ItemNodes(f.items, flags)))] else []))
  }

  function ReadElement(node: Node, times: nat -> I64): Option<ItemV>
  {
    if node.Object? then DecodeItem(node.members, times) else None
  }

  function ItemDecoder(times: Times): (Node, nat) -> Option<ItemV>
  {
    (node: Node, i: nat) => ReadElement(node, times(i))
  }

  /** The elements before the first that cannot be read. */
  function GoodPrefix(nodes: seq<Node>, f: (Node, nat) -> Option<ItemV>): (r: seq<ItemV>)
    ensures |r| <= |nodes|
  {
    if nodes == [] then []
    else
      var n := |nodes| - 1;
      var front := GoodPrefix(nodes[..n], f);
      if |front| < n then front
      else
        var last := f(nodes[n], n);
        if last == None then front else front + [last.value]
  }

  datatype Imported = Imported(ok: bool, file: FileV)

  /** What import does to the catalogue it reads into: items are appended, also when it fails half way. */
  function ImportInto(f: FileV, root: Node, times: Times): Imported
  {
    if !root.Object? || !Has(root.members, JcatVersionMajor) || !Has(root.members, JcatVersionMinor)
       || !Has(root.members, Items) then Imported(false, f)
    else
      var versioned := f.(major := ToU32(GetInt(root.members, JcatVersionMajor)),
                          minor := ToU32(GetInt(root.members, JcatVersionMinor)));
      var nodes := GetArray(root.members, Items);
      if nodes == None then Imported(false, versioned)
      else
        var items := GoodPrefix(nodes.value, ItemDecoder(times));
        Imported(|items| == |nodes.value|, versioned.(items := f.items + items))
  }

  /** jcat_file_new: version 0.1, no items. */
  const NEW_FILE := FileV(0, 1, [])

  function ReadFile(root: Node, times: Times): Option<FileV>
  {
    var r := ImportInto(NEW_FILE, root, times);
    if r.ok then Some(r.file) else None
  }

  // ---- import appends

  lemma GoodPrefixStep(nodes: seq<Node>, f: (Node, nat) -> Option<ItemV>, i: nat)
    requires i < |nodes| && |GoodPrefix(nodes[..i], f)| == i && f(nodes[i], i).Some?
    ensures GoodPrefix(nodes[..i + 1], f) == GoodPrefix(nodes[..i], f) + [f(nodes[i], i).value]
  {
    assert nodes[..i + 1][..i] == nodes[..i];
  }

  lemma ItemNodesStep(items: seq<ItemV>, flags: ExportFlags, i: nat)
    requires i < |items|
    ensures ItemNodes(items[..i + 1], flags) == ItemNodes(items[..i], flags) + [Object(ItemMembers(items[i], flags))]
  {
    assert items[..i + 1][..i] == items[..i];
  }

  lemma {:induction false} GoodPrefixIsMaximal(nodes: seq<Node>, f: (Node, nat) -> Option<ItemV>)
    ensures var items := GoodPrefix(nodes, f);
            && (forall i :: 0 <= i < |items| ==> f(nodes[i], i) == Some(items[i]))
            && (|items| < |nodes| ==> f(nodes[|items|], |items|) == None)
  {
    if nodes != [] { GoodPrefixIsMaximal(nodes[..|nodes| - 1], f); }
  }

  ghost predicate HasHeader(root: Node)
  {
    root.Object? && forall name <- [JcatVersionMajor, JcatVersionMinor, Items] :: Has(root.members, name)
  }

  /**
   * Without its three members a tree changes nothing.  With them the versions are taken over modulo 2^32, and the items
   * stay when theirs is no array.
   */
  lemma ImportHeader(f: FileV, root: Node, times: Times)
    ensures var r := ImportInto(f, root, times);
            && (!HasHeader(root) ==> r == Imported(false, f))
            && (HasHeader(root) ==>
                  && (GetInt(root.members, JcatVersionMajor) - r.file.major) % 0x1_0000_0000 == 0
                  && (GetInt(root.members, JcatVersionMinor) - r.file.minor) % 0x1_0000_0000 == 0
                  && (GetArray(root.members, Items) == None ==> !r.ok && r.file.items == f.items))
  {
    if root.Object? {
      var names := [JcatVersionMajor, JcatVersionMinor, Items];
      assert names[0] in names && names[1] in names && names[2] in names;
    }
  }

  /**
   * Past the header checks, the items are the old ones followed by the elements read in order, all of them
   * on success and those before the first bad one on failure.
   */
  lemma ImportAppends(f: FileV, root: Node, times: Times)
    requires root.Object? && Has(root.members, JcatVersionMajor) && Has(root.members, JcatVersionMinor)
    requires Has(root.members, Items) && GetArray(root.members, Items).Some?
    ensures var nodes, r := GetArray(root.members, Items).value, ImportInto(f, root, times);
            var k := |r.file.items| - |f.items|;
            && 0 <= k <= |nodes| && (r.ok <==> k == |nodes|)
            && r.file.items[..|f.items|] == f.items
            && (forall i :: 0 <= i < k ==> ReadElement(nodes[i], times(i)) == Some(r.file.items[|f.items| + i]))
            && (k < |nodes| ==> ReadElement(nodes[k], times(k)) == None)
  {
    GoodPrefixRead(GetArray(root.members, Items).value, times);
  }

  /** The trees import takes, whatever the clock says.  The item list may be empty, and so may the blobs of an item. */
  ghost predicate IsCatalogue(root: Node)
  {
    && root.Object? && Has(root.members, JcatVersionMajor) && Has(root.members, JcatVersionMinor)
    && Has(root.members, Items) && GetArray(root.members, Items).Some?
    && forall n <- GetArray(root.members, Items).value :: n.Object? && IsItem(n.members)
  }

  /** A catalogue is read exactly from such a tree. */
  lemma FileAccepted(root: Node, times: Times)
    ensures ReadFile(root, times).Some? <==> IsCatalogue(root)
  {
    var nodes := ElementsOf(root);
    GoodPrefixRead(nodes, times);
    var items := GoodPrefix(nodes, ItemDecoder(times));
    forall i | 0 <= i < |nodes|
      ensures ReadElement(nodes[i], times(i)).Some? <==> nodes[i].Object? && IsItem(nodes[i].members)
    {
      if nodes[i].Object? { ItemAccepted(nodes[i].members, times(i)); }
    }
    if |items| < |nodes| { assert nodes[|items|] in nodes; }
  }

  // ---- round trip

  /** There is an item, and every item has an ID, a blob, and only blobs with a text. */
  ghost predicate Readable(f: FileV)
  {
    f.items != [] && AllReadable(f.items)
  }

  ghost predicate Complete(it: ItemV)
  {
    it.id != [] && it.blobs != []
  }

  ghost predicate AllComplete(items: seq<ItemV>)
  {
    forall it <- items :: Complete(it)
  }

  ghost predicate BlobsOk(blobs: seq<BlobV>, lasting: bool)
  {
    if lasting then AllLast(blobs) else HaveText(blobs)
  }

  /** Every text can be written, or even written after it has been read back. */
  ghost predicate TextsOk(items: seq<ItemV>, lasting: bool)
  {
    forall it <- items :: BlobsOk(it.blobs, lasting)
  }

  lemma ReadableMeans(items: seq<ItemV>)
    ensures AllReadable(items) <==> AllComplete(items) && TextsOk(items, false)
  {
    if AllReadable(items) {
      assert forall it <- items :: ReadableItem(it);
    }
    if AllComplete(items) && TextsOk(items, false) {
      assert forall it <- items :: Complete(it) && BlobsOk(it.blobs, false);
    }
  }

  /** No blob's text is empty or starts with a NUL. */
  ghost predicate TextsLast(f: FileV)
  {
    TextsOk(f.items, true)
  }

  function RestoredItems(items: seq<ItemV>, flags: ExportFlags, times: Times): (r: seq<ItemV>)
    ensures |r| == |items|
    ensures forall i :: 0 <= i < |r| ==> r[i] == RestoredItem(items[i], flags, times(i))
  {
    if items == [] then []
    else
      var n := |items| - 1;
      RestoredItems(items[..n], flags, times) + [RestoredItem(items[n], flags, times(n))]
  }

  function RestoredFile(f: FileV, flags: ExportFlags, times: Times): FileV
  {
    f.(items := RestoredItems(f.items, flags, times))
  }

  lemma VersionHasNoItems(f: FileV)
    ensures !Has(VersionMembers(f), Items)
  {
    OptionalMember([Member(JcatVersionMajor, Int(f.major))], true, Member(JcatVersionMinor, Int(f.minor)), Items);
  }

  lemma FileMember(f: FileV, flags: ExportFlags, name: MemberName)
    ensures var obj := FileTree(f, flags).members;
            && (Has(obj, name)
                <==> name == JcatVersionMajor || name == JcatVersionMinor || (name == Items && f.items != []))
            && (name == JcatVersionMajor ==> Get(obj, name) == Int(f.major))
            && (name == JcatVersionMinor ==> Get(obj, name) == Int(f.minor))
            && (name == Items && f.items != [] ==> Get(obj, name) == Array(ItemNodes(f.items, flags)))
  {
    OptionalMember(VersionMembers(f), f.items != [], Member(Items, Array(ItemNodes(f.items, flags))), name);
    OptionalMember([Member(JcatVersionMajor, Int(f.major))], true, Member(JcatVersionMinor, Int(f.minor)), name);
  }

  /** What reading gives for an exported item. */
  ghost function ReadBack(it: ItemV, flags: ExportFlags, times: nat -> I64): Option<ItemV>
  {
    if ReadableItem(it) then Some(RestoredItem(it, flags, times)) else None
  }

  lemma DecodesBack(it: ItemV, flags: ExportFlags, times: Times, i: nat)
    ensures ItemDecoder(times)(Object(ItemMembers(it, flags)), i) == ReadBack(it, flags, times(i))
  {
    ItemRoundTrip(it, flags, times(i));
  }

  lemma GoodPrefixSnoc(nodes: seq<Node>, node: Node, f: (Node, nat) -> Option<ItemV>)
    ensures var front := GoodPrefix(nodes, f);
            GoodPrefix(nodes + [node], f)
            == if |front| < |nodes| || f(node, |nodes|) == None then front else front + [f(node, |nodes|).value]
  {
    assert (nodes + [node])[..|nodes|] == nodes;
  }

  ghost predicate AllReadable(items: seq<ItemV>)
  {
    forall it <- items :: ReadableItem(it)
  }

  lemma AllReadableSnoc(items: seq<ItemV>, it: ItemV)
    ensures AllReadable(items + [it]) <==> AllReadable(items) && ReadableItem(it)
  {
    assert forall x :: x in items + [it] <==> x in items || x == it;
  }

  lemma {:induction false} ItemsRoundTrip(items: seq<ItemV>, flags: ExportFlags, times: Times)
    ensures var good := GoodPrefix(ItemNodes(items, flags), ItemDecoder(times));
            && (|good| == |items| <==> AllReadable(items))
            && (|good| == |items| ==> good == RestoredItems(items, flags, times))
  {
    if items != [] {
      var n := |items| - 1;
      SplitLast(items);
      AllReadableSnoc(items[..n], items[n]);
      ItemsRoundTrip(items[..n], flags, times);
      DecodesBack(items[n], flags, times, n);
      GoodPrefixSnoc(ItemNodes(items[..n], flags), Object(ItemMembers(items[n], flags)), ItemDecoder(times));
    }
  }

  /** Reading an object with the members of a catalogue. */
  lemma ReadFields(obj: seq<Member>, f: FileV, nodes: Option<seq<Node>>, times: Times)
    requires Has(obj, JcatVersionMajor) && Get(obj, JcatVersionMajor) == Int(f.major)
    requires Has(obj, JcatVersionMinor) && Get(obj, JcatVersionMinor) == Int(f.minor)
    requires Has(obj, Items) == nodes.Some? && (nodes.Some? ==> Get(obj, Items) == Array(nodes.value))
    ensures ReadFile(Object(obj), times)
            == if nodes == None || |GoodPrefix(nodes.value, ItemDecoder(times))| < |nodes.value| then None
               else Some(f.(items := GoodPrefix(nodes.value, ItemDecoder(times))))
  {
    if nodes.Some? {
      var items := GoodPrefix(nodes.value, ItemDecoder(times));
      assert [] + items == items;
    }
  }

  /**
   * Reading an exported catalogue succeeds exactly when it has an item, every item has an ID and a blob, and no text
   * blob is without a buffer.  It gives the catalogue back field by field: items, blobs and kinds and flags unknown
   * to the library in order, aliases without repetitions, binary data through Base64, text up to its first NUL, and
   * the time of reading where no timestamp was written.
   */
  lemma FileRoundTrip(f: FileV, flags: ExportFlags, times: Times)
    ensures ReadFile(FileTree(f, flags), times)
            == if Readable(f) then Some(RestoredFile(f, flags, times)) else None
  {
    FileMember(f, flags, JcatVersionMajor);
    FileMember(f, flags, JcatVersionMinor);
    FileMember(f, flags, Items);
    ItemsRoundTrip(f.items, flags, times);
    ReadFields(FileTree(f, flags).members, f,
               if f.items != [] then Some(ItemNodes(f.items, flags)) else None, times);
  }

  /**
   * Whatever tree a catalogue was read from, exporting it and reading it again gives the same catalogue exactly when it
   * has an item, every item has a blob, no text is empty and no blob without a time is stamped anew.
   */
  lemma ReimportIsIdentity(root: Node, times: Times, later: Times)
    requires ReadFile(root, times).Some?
    ensures var f := ReadFile(root, times).value;
            ReadFile(FileTree(f, ExportFlags(false)), later) == Some(f)
            <==> Readable(f) && forall i :: 0 <= i < |f.items| ==> KeepsTimes(f.items[i].blobs, later(i))
  {
    var f := ReadFile(root, times).value;
    FileRoundTrip(f, ExportFlags(false), later);
    ReadGivesItems(root, times);
    ItemsReimport(f.items, ElementsOf(root), times, later);
  }

  /** The elements a catalogue was read from. */
  ghost function ElementsOf(root: Node): seq<Node>
  {
    if root.Object? && Has(root.members, Items) && GetArray(root.members, Items).Some?
    then GetArray(root.members, Items).value else []
  }

  lemma ReadKeepsPrefix(root: Node, times: Times)
    requires ReadFile(root, times).Some?
    ensures ReadFile(root, times).value.items == GoodPrefix(ElementsOf(root), ItemDecoder(times))
  {
    var items := GoodPrefix(ElementsOf(root), ItemDecoder(times));
    assert [] + items == items;
  }

  lemma ReadGivesItems(root: Node, times: Times)
    requires ReadFile(root, times).Some?
    ensures var items, nodes := ReadFile(root, times).value.items, ElementsOf(root);
            |items| <= |nodes| && forall i :: 0 <= i < |items| ==> ReadElement(nodes[i], times(i)) == Some(items[i])
  {
    ReadKeepsPrefix(root, times);
    GoodPrefixRead(ElementsOf(root), times);
  }

  lemma GoodPrefixRead(nodes: seq<Node>, times: Times)
    ensures var items := GoodPrefix(nodes, ItemDecoder(times));
            && (forall i :: 0 <= i < |items| ==> ReadElement(nodes[i], times(i)) == Some(items[i]))
            && (|items| < |nodes| ==> ReadElement(nodes[|items|], times(|items|)) == None)
  {
    var items := GoodPrefix(nodes, ItemDecoder(times));
    GoodPrefixIsMaximal(nodes, ItemDecoder(times));
    forall i | 0 <= i < |items|
      ensures ReadElement(nodes[i], times(i)) == Some(items[i])
    {
      assert ItemDecoder(times)(nodes[i], i) == Some(items[i]);
    }
  }

  lemma ItemsReimport(items: seq<ItemV>, nodes: seq<Node>, times: Times, later: Times)
    requires |items| <= |nodes|
    requires forall i :: 0 <= i < |items| ==> ReadElement(nodes[i], times(i)) == Some(items[i])
    ensures RestoredItems(items, ExportFlags(false), later) == items
            <==> forall i :: 0 <= i < |items| ==> KeepsTimes(items[i].blobs, later(i))
  {
    var back := RestoredItems(items, ExportFlags(false), later);
    forall i | 0 <= i < |items| ensures back[i] == items[i] <==> KeepsTimes(items[i].blobs, later(i)) {
      assert ReadElement(nodes[i], times(i)) == Some(items[i]);
      DecodedItemRestored(nodes[i].members, times(i), later(i));
    }
    if back == items {
      assert forall i :: 0 <= i < |items| ==> back[i] == items[i];
    }
  }

  /** The conditions of a round trip, from bit zero of the flags. */
  ghost predicate CanComeBack(f: FileV)
  {
    f.items != [] && forall it <- f.items ::
      it.id != [] && it.blobs != [] && forall b <- it.blobs :: b.flags % 2 == 1 ==> b.data.Buffer?
  }

  ghost predicate ItemComesBack(it: ItemV, r: ItemV, flags: ExportFlags, times: nat -> I64)
  {
    && r.id == it.id
    && NoDuplicates(r.aliasIds) && (forall a :: a in r.aliasIds <==> a in it.aliasIds)
    && (NoDuplicates(it.aliasIds) ==> r.aliasIds == it.aliasIds)
    && |r.blobs| == |it.blobs|
    && forall j :: 0 <= j < |it.blobs| ==> ComesBack(it.blobs[j], r.blobs[j], flags, times(j))
  }

  /** The round trip field by field: what comes back of each item and each blob. */
  lemma CatalogueComesBack(f: FileV, flags: ExportFlags, times: Times)
    ensures var r := ReadFile(FileTree(f, flags), times);
            && (r.Some? <==> CanComeBack(f))
            && (r.Some? ==> r.value.major == f.major && r.value.minor == f.minor && |r.value.items| == |f.items|
                            && forall i :: 0 <= i < |f.items| ==>
                                 ItemComesBack(f.items[i], r.value.items[i], flags, times(i)))
  {
    FileRoundTrip(f, flags, times);
    ReadableByFlag(f);
    var r := RestoredFile(f, flags, times);
    forall i | 0 <= i < |f.items| ensures ItemComesBack(f.items[i], r.items[i], flags, times(i)) {
      RestoredItemComesBack(f.items[i], flags, times(i));
    }
  }

  lemma ReadableByFlag(f: FileV)
    ensures Readable(f) <==> CanComeBack(f)
  {
    forall it | it in f.items
      ensures ReadableItem(it)
              <==> it.id != [] && it.blobs != [] && forall b <- it.blobs :: b.flags % 2 == 1 ==> b.data.Buffer?
    {
      forall b | b in it.blobs ensures HasText(b) <==> (b.flags % 2 == 1 ==> b.data.Buffer?) {
        RestoredComesBack(b, ExportFlags(false), 0);
      }
    }
  }

  lemma RestoredItemComesBack(it: ItemV, flags: ExportFlags, times: nat -> I64)
    ensures ItemComesBack(it, RestoredItem(it, flags, times), flags, times)
  {
    var r := RestoredItem(it, flags, times);
    AddAliasesDistinct(it.aliasIds);
    AddAliasesIsIdentity(it.aliasIds);
    AddAliasesMembers(it.aliasIds);
    forall j | 0 <= j < |it.blobs| ensures ComesBack(it.blobs[j], r.blobs[j], flags, times(j)) {
      RestoredComesBack(it.blobs[j], flags, times(j));
    }
  }

  /** A readable catalogue that was written and read can be written and read again exactly when its texts last. */
  lemma RereadExactly(f: FileV, flags: ExportFlags, times: Times, later: Times)
    requires Readable(f)
    ensures ReadFile(FileTree(f, flags), times).Some?
    ensures ReadFile(FileTree(ReadFile(FileTree(f, flags), times).value, flags), later).Some? <==> TextsLast(f)
  {
    var r := RestoredFile(f, flags, times);
    FileRoundTrip(f, flags, times);
    FileRoundTrip(r, flags, later);
    RestoredReadable(f.items, r.items, flags, times);
  }

  lemma RestoredReadable(items: seq<ItemV>, r: seq<ItemV>, flags: ExportFlags, times: Times)
    requires AreRestored(items, r, flags, times) && AllReadable(items)
    ensures AllReadable(r) <==> TextsOk(items, true)
  {
    ReadableMeans(items);
    ReadableMeans(r);
    RestoredTexts(items, r, flags, times, false);
    RestoredComplete(items, r, flags, times);
  }

  ghost predicate AreRestored(items: seq<ItemV>, r: seq<ItemV>, flags: ExportFlags, times: Times)
  {
    |r| == |items| && forall i :: 0 <= i < |r| ==> r[i] == RestoredItem(items[i], flags, times(i))
  }

  /** Reading back leaves no text to an empty one. */
  lemma RestoredTexts(items: seq<ItemV>, r: seq<ItemV>, flags: ExportFlags, times: Times, lasting: bool)
    requires AreRestored(items, r, flags, times)
    ensures TextsOk(r, lasting) <==> TextsOk(items, true)
  {
    forall i | 0 <= i < |items| ensures BlobsOk(r[i].blobs, lasting) <==> AllLast(items[i].blobs) {
      RestoredAllLast(items[i].blobs, flags, times(i));
    }
    TextsByIndex(r, lasting);
    TextsByIndex(items, true);
  }

  lemma TextsByIndex(items: seq<ItemV>, lasting: bool)
    ensures TextsOk(items, lasting) <==> forall i :: 0 <= i < |items| ==> BlobsOk(items[i].blobs, lasting)
  {
    if TextsOk(items, lasting) {
      assert forall i :: 0 <= i < |items| ==> items[i] in items;
    }
  }

  lemma RestoredComplete(items: seq<ItemV>, r: seq<ItemV>, flags: ExportFlags, times: Times)
    requires AreRestored(items, r, flags, times) && AllComplete(items)
    ensures AllComplete(r)
  {
    forall it | it in r ensures Complete(it) {
      var i :| 0 <= i < |r| && r[i] == it;
      assert items[i] in items;
    }
  }

  /** One item with one text blob. */
  ghost function OneText(data: Bytes): FileV
  {
    NEW_FILE.(items := [ItemV([97], [], [BlobV(2, KIND_UNKNOWN, 1, Buffer(data), None, 0)])])
  }

  /** The smallest that do not: an empty text, and a text that is one NUL. */
  lemma EmptyTextIsLost(flags: ExportFlags, times: Times, later: Times, data: Bytes)
    requires data == [] || data == [NUL]
    ensures ReadFile(FileTree(OneText(data), flags), times).Some?
    ensures ReadFile(FileTree(ReadFile(FileTree(OneText(data), flags), times).value, flags), later) == None
  {
    var f := OneText(data);
    assert !Lasts(f.items[0].blobs[0]) && f.items[0].blobs[0] in f.items[0].blobs && f.items[0] in f.items;
    assert !BlobsOk(f.items[0].blobs, true);
    RereadExactly(f, flags, times, later);
  }

  // ---- export without timestamps is stable

  const QUIET := ExportFlags(true)

  lemma {:induction false} BlobNodesStable(blobs: seq<BlobV>, times: nat -> I64)
    requires AllLast(blobs)
    ensures BlobNodes(RestoredBlobs(blobs, QUIET, times), QUIET) == BlobNodes(blobs, QUIET)
  {
    if blobs != [] {
      var n := |blobs| - 1;
      SplitLast(blobs);
      BlobsSnoc(blobs[..n], blobs[n]);
      BlobNodesStable(blobs[..n], times);
      RestoredLasts(blobs[n], QUIET, times(n));
      BlobExportStable(blobs[n], times(n));
      RestoredBlobsSnoc(blobs[..n], blobs[n], QUIET, times);
      BlobNodesSnoc(RestoredBlobs(blobs[..n], QUIET, times), Restored(blobs[n], QUIET, times(n)), QUIET);
    } else {
      assert RestoredBlobs(blobs, QUIET, times) == [];
    }
  }

  lemma BlobNodesSnoc(blobs: seq<BlobV>, b: BlobV, flags: ExportFlags)
    ensures BlobNodes(blobs + [b], flags) == BlobNodes(blobs, flags) + [Object(BlobMembers(b, flags))]
  {
    assert (blobs + [b])[..|blobs|] == blobs;
  }

  lemma {:induction false} BlobNodesEqual(a: seq<BlobV>, b: seq<BlobV>, flags: ExportFlags)
    requires |a| == |b| && BlobNodes(a, flags) == BlobNodes(b, flags)
    ensures forall i :: 0 <= i < |a| ==> BlobMembers(a[i], flags) == BlobMembers(b[i], flags)
  {
    if a != [] {
      var n := |a| - 1;
      assert BlobNodes(a, flags)[..n] == BlobNodes(a[..n], flags);
      assert BlobNodes(b, flags)[..n] == BlobNodes(b[..n], flags);
      assert BlobNodes(a, flags)[n] == BlobNodes(b, flags)[n];
      BlobNodesEqual(a[..n], b[..n], flags);
    }
  }

  /** The blobs export as before exactly when all of them last. */
  lemma BlobNodesStableExactly(blobs: seq<BlobV>, times: nat -> I64)
    requires HaveText(blobs)
    ensures BlobNodes(RestoredBlobs(blobs, QUIET, times), QUIET) == BlobNodes(blobs, QUIET) <==> AllLast(blobs)
  {
    var r := RestoredBlobs(blobs, QUIET, times);
    if AllLast(blobs) {
      BlobNodesStable(blobs, times);
    } else if BlobNodes(r, QUIET) == BlobNodes(blobs, QUIET) {
      var i :| 0 <= i < |blobs| && !Lasts(blobs[i]);
      BlobNodesEqual(r, blobs, QUIET);
      BlobExportStable(blobs[i], times(i));
      assert false;
    }
  }

  lemma ItemMembersStable(it: ItemV, times: nat -> I64)
    requires ReadableItem(it)
    ensures ItemMembers(RestoredItem(it, QUIET, times), QUIET) == ItemMembers(it, QUIET)
            <==> NoDuplicates(it.aliasIds) && AllLast(it.blobs)
  {
    BlobNodesStableExactly(it.blobs, times);
    AddAliasesIsIdentity(it.aliasIds);
    var r := RestoredItem(it, QUIET, times);
    if ItemMembers(r, QUIET) == ItemMembers(it, QUIET) {
      ItemMember(it, QUIET, Blobs);
      ItemMember(r, QUIET, Blobs);
      ItemMember(it, QUIET, AliasIds);
      ItemMember(r, QUIET, AliasIds);
      if it.aliasIds != [] { StringNodesInjective(r.aliasIds, it.aliasIds); }
    }
  }

  lemma StringNodesInjective(a: seq<CString>, b: seq<CString>)
    requires a != [] && b != [] && StringNodes(a) == StringNodes(b)
    ensures a == b
  {
    forall i | 0 <= i < |a| ensures i < |b| && a[i] == b[i] {
      assert StringNodes(a)[i] == Str(a[i]);
    }
    assert |a| == |StringNodes(a)| == |b|;
  }

  ghost predicate DistinctAliases(f: FileV)
  {
    forall it <- f.items :: NoDuplicates(it.aliasIds)
  }

  /**
   * Export after import after export without timestamps equals the first export, whatever the clocks said, exactly when
   * no alias list repeats an alias and no text is empty up to its first NUL: such a text is written as an empty
   * string the first time and as null the second.
   */
  lemma QuietExportIsStable(f: FileV, times: Times)
    requires Readable(f)
    ensures ReadFile(FileTree(f, QUIET), times).Some?
    ensures FileTree(ReadFile(FileTree(f, QUIET), times).value, QUIET) == FileTree(f, QUIET)
            <==> DistinctAliases(f) && TextsLast(f)
  {
    FileRoundTrip(f, QUIET, times);
    var r := RestoredFile(f, QUIET, times);
    SameTree(f, r, QUIET);
    ItemNodesStable(f.items, times);
    StableItems(f);
  }

  ghost predicate AllStable(items: seq<ItemV>)
  {
    forall it <- items :: IsStable(it)
  }

  lemma StableItems(f: FileV)
    ensures AllStable(f.items) <==> DistinctAliases(f) && TextsLast(f)
  {
    if DistinctAliases(f) && TextsLast(f) {
      assert forall it <- f.items :: BlobsOk(it.blobs, true);
    }
    if AllStable(f.items) {
      assert forall it <- f.items :: IsStable(it);
    }
  }

  ghost predicate IsStable(it: ItemV)
  {
    NoDuplicates(it.aliasIds) && AllLast(it.blobs)
  }

  lemma ItemNodesStable(items: seq<ItemV>, times: Times)
    requires AllReadable(items)
    ensures ItemNodes(RestoredItems(items, QUIET, times), QUIET) == ItemNodes(items, QUIET) <==> AllStable(items)
  {
    var r := RestoredItems(items, QUIET, times);
    NodesStable(items, r, times, ItemNodes(items, QUIET), ItemNodes(r, QUIET));
  }

  ghost predicate AreNodes(items: seq<ItemV>, nodes: seq<Node>)
  {
    |nodes| == |items| && forall i :: 0 <= i < |nodes| ==> nodes[i] == Object(ItemMembers(items[i], QUIET))
  }

  lemma NodesStable(items: seq<ItemV>, r: seq<ItemV>, times: Times, before: seq<Node>, after: seq<Node>)
    requires |r| == |items| && forall i :: 0 <= i < |r| ==> r[i] == RestoredItem(items[i], QUIET, times(i))
    requires AreNodes(items, before) && AreNodes(r, after)
    requires AllReadable(items)
    ensures after == before <==> AllStable(items)
  {
    forall i | 0 <= i < |items| ensures after[i] == before[i] <==> IsStable(items[i]) {
      assert items[i] in items;
      ItemMembersStable(items[i], times(i));
    }
    SameElements(before, after);
    assert AllStable(items) <==> forall i :: 0 <= i < |items| ==> IsStable(items[i]);
  }

  lemma SameElements(a: seq<Node>, b: seq<Node>)
    requires |a| == |b|
    ensures b == a <==> forall i :: 0 <= i < |a| ==> b[i] == a[i]
  {}

  lemma SameTree(f: FileV, r: FileV, flags: ExportFlags)
    requires f.items != [] && r.items != [] && f.major == r.major && f.minor == r.minor
    ensures FileTree(f, flags) == FileTree(r, flags) <==> ItemNodes(f.items, flags) == ItemNodes(r.items, flags)
  {
    FileMember(f, flags, Items);
    FileMember(r, flags, Items);
  }

  /** Import never lets a repeated alias in. */
  lemma ImportedAliasesDistinct(f: FileV, root: Node, times: Times)
    requires DistinctAliases(f)
    ensures DistinctAliases(ImportInto(f, root, times).file)
  {
    if root.Object? && Has(root.members, JcatVersionMajor) && Has(root.members, JcatVersionMinor)
       && Has(root.members, Items) && GetArray(root.members, Items).Some? {
      ImportAppends(f, root, times);
      var nodes, r := GetArray(root.members, Items).value, ImportInto(f, root, times);
      forall k | 0 <= k < |r.file.items| ensures NoDuplicates(r.file.items[k].aliasIds) {
        if k < |f.items| {
          assert r.file.items[k] == f.items[k];
        } else {
          var i := k - |f.items|;
          DecodedItemDistinct(nodes[i].members, times(i));
        }
      }
    }
  }

  lemma {:induction false} GoodPrefixStops(nodes: seq<Node>, f: (Node, nat) -> Option<ItemV>, i: nat)
    requires i < |nodes| && |GoodPrefix(nodes[..i], f)| == i && f(nodes[i], i) == None
    ensures GoodPrefix(nodes, f) == GoodPrefix(nodes[..i], f)
  {
    var n := |nodes| - 1;
    if i < n {
      assert nodes[..n][..i] == nodes[..i];
      GoodPrefixStops(nodes[..n], f, i);
    }
  }

  // ---- lookup

  function CountOf(aliases: seq<CString>, id: CString): nat
  {
    if aliases == [] then 0
    else CountOf(aliases[..|aliases| - 1], id) + (if aliases[|aliases| - 1] == id then 1 else 0)
  }

  /** How often an item answers to an ID, by its own ID or by its aliases. */
  function Hits(it: ItemV, id: CString, byAlias: bool): nat
  {
    if byAlias then CountOf(it.aliasIds, id) else if it.id == id then 1 else 0
  }

  function Repeat(i: nat, times: nat): (r: seq<nat>)
    ensures |r| == times && forall x <- r :: x == i
  {
    if times == 0 then [] else Repeat(i, times - 1) + [i]
  }

  /** The position of every hit, in order. */
  function Positions(items: seq<ItemV>, id: CString, byAlias: bool): (r: seq<nat>)
    ensures forall x <- r :: x < |items|
  {
    if items == [] then []
    else
      var n := |items| - 1;
      Positions(items[..n], id, byAlias) + Repeat(n, Hits(items[n], id, byAlias))
  }

  /** jcat_file_get_item_by_id: the only item with the ID, or without one the only hit among the aliases. */
  function LookupItem(items: seq<ItemV>, id: CString): (r: Option<nat>)
    ensures r.Some? ==> r.value < |items|
  {
    var exact := Positions(items, id, false);
    if |exact| > 1 then None
    else if |exact| == 1 then (assert exact[0] in exact; Some(exact[0]))
    else
      var aliased := Positions(items, id, true);
      if |aliased| == 1 then (assert aliased[0] in aliased; Some(aliased[0])) else None
  }

  lemma {:induction false} PositionsPrefix(items: seq<ItemV>, id: CString, byAlias: bool, k: nat)
    requires k <= |items|
    ensures Positions(items[..k], id, byAlias) <= Positions(items, id, byAlias)
  {
    if k == |items| {
      assert items[..k] == items;
    } else {
      var n := |items| - 1;
      PositionsPrefix(items[..n], id, byAlias, k);
      assert items[..n][..k] == items[..k];
    }
  }

  lemma {:induction false} CountOfPrefix(aliases: seq<CString>, id: CString, k: nat)
    requires k <= |aliases|
    ensures CountOf(aliases[..k], id) <= CountOf(aliases, id)
  {
    if k == |aliases| {
      assert aliases[..k] == aliases;
    } else {
      var n := |aliases| - 1;
      CountOfPrefix(aliases[..n], id, k);
      assert aliases[..n][..k] == aliases[..k];
    }
  }

  ghost predicate Answers(it: ItemV, id: CString, byAlias: bool)
  {
    if byAlias then id in it.aliasIds else it.id == id
  }

  lemma {:induction false} CountOfDistinct(aliases: seq<CString>, id: CString)
    requires NoDuplicates(aliases)
    ensures CountOf(aliases, id) == if id in aliases then 1 else 0
  {
    if aliases != [] {
      var n := |aliases| - 1;
      CountOfDistinct(aliases[..n], id);
      assert aliases == aliases[..n] + [aliases[n]];
    }
  }

  ghost predicate Only(items: seq<ItemV>, id: CString, byAlias: bool, k: nat)
  {
    k < |items| && Answers(items[k], id, byAlias)
    && forall j :: 0 <= j < |items| && Answers(items[j], id, byAlias) ==> j == k
  }

  ghost predicate Nobody(items: seq<ItemV>, id: CString, byAlias: bool)
  {
    forall it <- items :: !Answers(it, id, byAlias)
  }

  /** With distinct aliases an item answers at most once, so counting hits is counting items. */
  lemma {:induction false} PositionsCount(items: seq<ItemV>, id: CString, byAlias: bool)
    requires forall it <- items :: NoDuplicates(it.aliasIds)
    ensures Positions(items, id, byAlias) == [] <==> Nobody(items, id, byAlias)
    ensures forall k: nat :: Positions(items, id, byAlias) == [k] <==> Only(items, id, byAlias, k)
  {
    if items != [] {
      var n := |items| - 1;
      var front, last := items[..n], items[n];
      assert items == front + [last];
      PositionsCount(front, id, byAlias);
      CountOfDistinct(last.aliasIds, id);
      PositionsStep(items, id, byAlias, n);
      assert items[..n + 1] == items;
      assert last in items;
      forall k: nat ensures Positions(items, id, byAlias) == [k] <==> Only(items, id, byAlias, k) {
        OnlySnoc(front, last, id, byAlias, k);
        Singleton(Positions(front, id, byAlias), n, k);
      }
    }
  }

  lemma Singleton(before: seq<nat>, n: nat, k: nat)
    ensures before + Repeat(n, 1) == [k] <==> before == [] && n == k
    ensures before + Repeat(n, 0) == [k] <==> before == [k]
  {
    assert Repeat(n, 1) == [n] && Repeat(n, 0) == [];
    if before + [n] == [k] { assert |before| == 0; }
  }

  lemma PositionsStep(items: seq<ItemV>, id: CString, byAlias: bool, i: nat)
    requires i < |items|
    ensures Positions(items[..i + 1], id, byAlias)
            == Positions(items[..i], id, byAlias) + Repeat(i, Hits(items[i], id, byAlias))
    ensures Positions(items[..i + 1], id, byAlias) <= Positions(items, id, byAlias)
  {
    assert items[..i + 1][..i] == items[..i];
    PositionsPrefix(items, id, byAlias, i + 1);
  }

  lemma OnlySnoc(front: seq<ItemV>, last: ItemV, id: CString, byAlias: bool, k: nat)
    ensures Only(front + [last], id, byAlias, k)
            <==> if Answers(last, id, byAlias) then k == |front| && Nobody(front, id, byAlias)
                 else Only(front, id, byAlias, k)
  {
    var items := front + [last];
    assert items[|front|] == last;
    assert forall j :: 0 <= j < |front| ==> items[j] == front[j];
    if Answers(last, id, byAlias) && Nobody(front, id, byAlias) {
      forall j | 0 <= j < |front| ensures !Answers(items[j], id, byAlias) { assert front[j] in front; }
    }
    if Only(items, id, byAlias, k) && Answers(last, id, byAlias) {
      forall it | it in front ensures !Answers(it, id, byAlias) {
        var j :| 0 <= j < |front| && front[j] == it;
        assert items[j] == it;
      }
    }
  }

  /**
   * With duplicate-free alias lists, lookup returns an item exactly when it is the only one with that ID, or when no
   * item has the ID and it is the only one that carries it as an alias.
   */
  lemma LookupIsExact(items: seq<ItemV>, id: CString, k: nat)
    requires forall it <- items :: NoDuplicates(it.aliasIds)
    ensures LookupItem(items, id) == Some(k)
            <==> Only(items, id, false, k) || (Nobody(items, id, false) && Only(items, id, true, k))
  {
    PositionsCount(items, id, false);
    PositionsCount(items, id, true);
    var exact, aliased := Positions(items, id, false), Positions(items, id, true);
    if |exact| == 1 { assert exact == [exact[0]]; }
    if |aliased| == 1 { assert aliased == [aliased[0]]; }
  }

  // ---- the object

  ghost function ItemViews(items: seq<JcatItem>): (r: seq<ItemV>)
    reads items
    ensures |r| == |items|
    ensures forall k :: 0 <= k < |items| ==> r[k] == items[k].View()
  {
    seq(|items|, k requires 0 <= k < |items| reads items => items[k].View())
  }

  class JcatFile {
    var items: seq<JcatItem>
    var versionMajor: U32
    var versionMinor: U32

    ghost function View(): FileV
      reads this, items
    {
      FileV(versionMajor, versionMinor, ItemViews(items))
    }

    constructor New()
      ensures View() == FileV(0, 1, []) && items == []
    {
      items, versionMajor, versionMinor := [], 0, 1;
    }

    method AddItem(item: JcatItem)
      modifies `items
      ensures items == old(items) + [item]
      ensures View() == old(View()).(items := old(View()).items + [item.View()])
    {
      items := items + [item];
    }

    method GetItemById(id: CString) returns (r: JcatItem?)
      ensures r == null <==> LookupItem(View().items, id) == None
      ensures r != null ==> r == items[LookupItem(View().items, id).value]
    {
      var multiple;
      r, multiple := FindById(id);
      if multiple || r != null {
        return;
      }
      r, multiple := FindByAlias(id);
    }

    /** r is the item at the only position, or null when there is none or several. */
    ghost predicate Found(r: JcatItem?, multiple: bool, positions: seq<nat>)
      reads this
    {
      && multiple == (|positions| > 1)
      && (if |positions| == 1 then positions[0] < |items| && r == items[positions[0]] else r == null)
    }

    /** The first loop: exact ID match. */
    method FindById(id: CString) returns (r: JcatItem?, multiple: bool)
      ensures Found(r, multiple, Positions(View().items, id, false))
    {
      ghost var views := View().items;
      r, multiple := null, false;
      for i := 0 to |items|
        invariant !multiple && Found(r, multiple, Positions(views[..i], id, false))
      {
        PositionsStep(views, id, false, i);
        if items[i].id == id {
          assert Repeat(i, 1) == [i];
          if r != null {
            return null, true;
          }
          r := items[i];
        }
      }
      assert views[..|items|] == views;
    }

    /** The second loop: aliases, counting every occurrence. */
    method FindByAlias(id: CString) returns (r: JcatItem?, multiple: bool)
      ensures Found(r, multiple, Positions(View().items, id, true))
    {
      ghost var views := View().items;
      r, multiple := null, false;
      for i := 0 to |items|
        invariant !multiple && Found(r, multiple, Positions(views[..i], id, true))
      {
        PositionsStep(views, id, true, i);
        r, multiple := ScanAliases(i, id, r, Positions(views[..i], id, true));
        if multiple {
          return;
        }
      }
      assert views[..|items|] == views;
    }

    /** The inner loop of the second: the aliases of item i, given what was found before it. */
    method ScanAliases(i: nat, id: CString, before: JcatItem?, ghost positions: seq<nat>)
      returns (r: JcatItem?, multiple: bool)
      requires i < |items| && Found(before, false, positions)
      ensures Found(r, multiple, positions + Repeat(i, CountOf(items[i].aliasIds, id)))
    {
      r, multiple := before, false;
      var aliases := items[i].aliasIds;
      for j := 0 to |aliases|
        invariant !multiple && Found(r, multiple, positions + Repeat(i, CountOf(aliases[..j], id)))
      {
        assert aliases[..j + 1][..j] == aliases[..j];
        CountOfPrefix(aliases, id, j + 1);
        if aliases[j] == id {
          if r != null {
            return null, true;
          }
          r := items[i];
        }
      }
      assert aliases[..|aliases|] == aliases;
    }

    /** The items read are new objects, each a different one. */
    ghost predicate Grown(before: seq<JcatItem>, added: seq<JcatItem>)
      reads this
    {
      items == before + added && NoDuplicates(added)
    }

    method ImportParser(root: Node, times: Times) returns (ok: bool, ghost added: seq<JcatItem>)
      modifies this
      ensures ImportInto(old(View()), root, times) == Imported(ok, View())
      ensures Grown(old(items), added) && fresh(added)
    {
      ok, added := false, [];
      if !root.Object? {
        return;
      }
      var obj := root.members;
      if !Has(obj, JcatVersionMajor) || !Has(obj, JcatVersionMinor) || !Has(obj, Items) {
        return;
      }
      versionMajor := ToU32(GetInt(obj, JcatVersionMajor));
      versionMinor := ToU32(GetInt(obj, JcatVersionMinor));
      var nodes := GetArray(obj, Items);
      if nodes == None {
        return;
      }
      ok, added := ImportItems(nodes.value, times);
      assert ItemViews(items) == ItemViews(old(items)) + ItemViews(added);
    }

    method ImportItems(nodes: seq<Node>, times: Times) returns (ok: bool, ghost added: seq<JcatItem>)
      modifies `items
      ensures ItemViews(added) == GoodPrefix(nodes, ItemDecoder(times)) && ok == (|added| == |nodes|)
      ensures Grown(old(items), added) && fresh(added)
    {
      ghost var dec := ItemDecoder(times);
      added := [];
      for i := 0 to |nodes|
        invariant ItemViews(added) == GoodPrefix(nodes[..i], dec) && |added| == i
        invariant Grown(old(items), added) && fresh(added)
      {
        var item := ImportElement(nodes[i], times(i));
        assert dec(nodes[i], i) == ReadElement(nodes[i], times(i));
        if item == null {
          GoodPrefixStops(nodes, dec, i);
          return false, added;
        }
        GoodPrefixStep(nodes, dec, i);
        GrownStep(old(items), added, item);
        added := added + [item];
      }
      TakeAll(nodes);
      return true, added;
    }

    lemma GrownStep(before: seq<JcatItem>, added: seq<JcatItem>, item: JcatItem)
      requires NoDuplicates(added) && item !in added
      ensures NoDuplicates(added + [item]) && (before + added) + [item] == before + (added + [item])
      ensures ItemViews(added + [item]) == ItemViews(added) + [item.View()]
    {}

    method ImportElement(node: Node, times: nat -> I64) returns (item: JcatItem?)
      modifies `items
      ensures item == null <==> ReadElement(node, times) == None
      ensures item == null ==> unchanged(this)
      ensures item != null ==> fresh(item) && items == old(items) + [item]
      ensures item != null ==> ReadElement(node, times) == Some(item.View())
    {
      if !node.Object? {
        return null;
      }
      item := JcatItem.Import(node.members, times);
      if item != null {
        AddItem(item);
      }
    }

    method ExportBuilder(builder: Builder, flags: ExportFlags)
      requires builder.stack == [] && builder.root == None
      modifies builder
      ensures builder.stack == [] && builder.root == Some(FileTree(View(), flags))
    {
      ghost var f := View();
      builder.BeginObject();
      assert builder.stack == [InObject([], None)] + [];
      ExportVersion(builder);
      if |items| > 0 {
        VersionHasNoItems(f);
        ExportItems(builder, flags, VersionMembers(f));
      } else {
        assert VersionMembers(f) + [] == VersionMembers(f);
      }
      builder.EndObject();
    }

    method ExportVersion(builder: Builder)
      requires builder.Holds([], []) && builder.root == None
      modifies builder
      ensures builder.Holds(VersionMembers(View()), []) && builder.root == None
    {
      ghost var major: seq<Member> := [Member(JcatVersionMajor, Int(versionMajor))];
      builder.AddIntMember(JcatVersionMajor, versionMajor, [], []);
      assert [] + major == major;
      builder.AddIntMember(JcatVersionMinor, versionMinor, major, []);
    }

    method ExportItems(builder: Builder, flags: ExportFlags, ghost ms: seq<Member>)
      requires builder.Holds(ms, []) && builder.root == None && !Has(ms, Items)
      modifies builder
      ensures builder.Holds(ms + [Member(Items, Array(ItemNodes(View().items, flags)))], []) && builder.root == None
    {
      builder.SetMemberName(Items);
      builder.BeginArray();
      ExportElements(builder, flags, [InObject(ms, Some(Items))]);
      builder.EndArray();
      SetNewMember(ms, Items, Array(ItemNodes(ItemViews(items), flags)));
    }

    method ExportElements(builder: Builder, flags: ExportFlags, ghost outer: seq<Frame>)
      requires builder.stack == [InArray([])] + outer && builder.root == None
      modifies builder
      ensures builder.stack == [InArray(ItemNodes(ItemViews(items), flags))] + outer && builder.root == None
    {
      ghost var views := ItemViews(items);
      for i := 0 to |items|
        invariant builder.root == None && ItemViews(items) == views
        invariant builder.stack == [InArray(ItemNodes(views[..i], flags))] + outer
      {
        ItemNodesStep(views, flags, i);
        ExportItem(items[i], flags, builder, ItemNodes(views[..i], flags), outer);
      }
      TakeAll(views);
    }

    static method ExportItem(item: JcatItem, flags: ExportFlags, builder: Builder, ghost es: seq<Node>,
        ghost outer: seq<Frame>)
      requires builder.stack == [InArray(es)] + outer && builder.root == None
      modifies builder
      ensures builder.stack == [InArray(es + [Object(ItemMembers(item.View(), flags))])] + outer
      ensures builder.root == None
    {
      ghost var here := builder.stack;
      builder.BeginObject();
      item.Export(flags, builder, here);
      builder.EndObject();
    }
  }
}
