/** jcat-item.c: a named list of blobs with aliases, and its form in the file. */
module Item {
  import opened Common
  import opened Json
  import opened Blob

  datatype ItemV = ItemV(id: CString, aliasIds: seq<CString>, blobs: seq<BlobV>)

  // ---- aliases

  function AddAlias(aliases: seq<CString>, id: CString): seq<CString>
  {
    if id in aliases then aliases else aliases + [id]
  }

  /** Removes the first occurrence. */
  function RemoveAlias(aliases: seq<CString>, id: CString): seq<CString>
  {
    if aliases == [] then []
    else if aliases[0] == id then aliases[1..]
    else [aliases[0]] + RemoveAlias(aliases[1..], id)
  }

  function AddAliases(aliases: seq<CString>): seq<CString>
  {
    if aliases == [] then []
    else AddAlias(AddAliases(aliases[..|aliases| - 1]), aliases[|aliases| - 1])
  }

  ghost function Without(aliases: seq<CString>, id: CString): seq<CString>
  {
    if aliases == [] then []
    else (if aliases[0] == id then [] else [aliases[0]]) + Without(aliases[1..], id)
  }

  lemma AddAliasKeepsDistinct(aliases: seq<CString>, id: CString)
    requires NoDuplicates(aliases)
    ensures NoDuplicates(AddAlias(aliases, id)) && id in AddAlias(aliases, id)
  {
    if id !in aliases { assert AddAlias(aliases, id)[|aliases|] == id; }
  }

  lemma {:induction false} WithoutAbsent(aliases: seq<CString>, id: CString)
    requires id !in aliases
    ensures Without(aliases, id) == aliases
  {
    if aliases != [] { WithoutAbsent(aliases[1..], id); }
  }

  lemma {:induction false} WithoutMember(aliases: seq<CString>, id: CString, x: CString)
    ensures x in Without(aliases, id) <==> x in aliases && x != id
  {
    if aliases != [] {
      WithoutMember(aliases[1..], id, x);
      assert aliases == [aliases[0]] + aliases[1..];
    }
  }

  /** From a duplicate-free list, removal takes the alias out, keeps the rest in order and stays duplicate-free. */
  lemma {:induction false} RemoveAliasIsExact(aliases: seq<CString>, id: CString)
    requires NoDuplicates(aliases)
    ensures RemoveAlias(aliases, id) == Without(aliases, id)
    ensures id !in RemoveAlias(aliases, id)
    ensures NoDuplicates(RemoveAlias(aliases, id))
  {
    if aliases != [] {
      var head, tail := aliases[0], aliases[1..];
      RemoveAliasIsExact(tail, id);
      assert forall i :: 0 <= i < |tail| ==> tail[i] == aliases[i + 1];
      if head == id {
        WithoutAbsent(tail, id);
      } else {
        WithoutMember(tail, id, head);
      }
    }
  }

  lemma {:induction false} RemoveAliasAt(aliases: seq<CString>, id: CString, i: nat)
    requires i < |aliases| && aliases[i] == id && id !in aliases[..i]
    ensures RemoveAlias(aliases, id) == aliases[..i] + aliases[i + 1..]
  {
    if i > 0 {
      assert aliases[0] == aliases[..i][0];
      assert aliases[1..][..i - 1] == aliases[..i][1..];
      RemoveAliasAt(aliases[1..], id, i - 1);
    }
  }

  lemma {:induction false} RemoveAliasNone(aliases: seq<CString>, id: CString)
    requires id !in aliases
    ensures RemoveAlias(aliases, id) == aliases
  {
    if aliases != [] { RemoveAliasNone(aliases[1..], id); }
  }

  lemma {:induction false} AddAliasesDistinct(aliases: seq<CString>)
    ensures NoDuplicates(AddAliases(aliases))
  {
    if aliases != [] {
      var front, last := aliases[..|aliases| - 1], aliases[|aliases| - 1];
      AddAliasesDistinct(front);
      AddAliasKeepsDistinct(AddAliases(front), last);
    }
  }

  lemma {:induction false} AddDistinctAliases(aliases: seq<CString>)
    requires NoDuplicates(aliases)
    ensures AddAliases(aliases) == aliases
  {
    if aliases != [] {
      var n := |aliases| - 1;
      AddDistinctAliases(aliases[..n]);
      assert aliases[n] !in aliases[..n];
      assert aliases == aliases[..n] + [aliases[n]];
    }
  }

  lemma {:induction false} AddAliasesMembers(aliases: seq<CString>)
    ensures forall a :: a in AddAliases(aliases) <==> a in aliases
  {
    if aliases != [] {
      AddAliasesMembers(aliases[..|aliases| - 1]);
      SplitLast(aliases);
    }
  }

  /** Adding aliases one by one gives the list back exactly when it has no duplicates. */
  lemma AddAliasesIsIdentity(aliases: seq<CString>)
    ensures AddAliases(aliases) == aliases <==> NoDuplicates(aliases)
  {
    AddAliasesDistinct(aliases);
    if NoDuplicates(aliases) { AddDistinctAliases(aliases); }
  }

  // ---- export and import on values

  function BlobNodes(blobs: seq<BlobV>, flags: ExportFlags): (r: seq<Node>)
    ensures |r| == |blobs|
  {
    if blobs == [] then []
    else
      var n := |blobs| - 1;
      BlobNodes(blobs[..n], flags) + [Object(BlobMembers(blobs[n], flags))]
  }

  function StringNodes(strings: seq<CString>): seq<Node>
  {
    seq(|strings|, i requires 0 <= i < |strings| => Str(strings[i]))
  }

  function WithAliases(it: ItemV): seq<Member>
  {
    [Member(Id, Str(it.id))]
    + (if it.aliasIds != [] then [Member(AliasIds, Array(StringNodes(it.aliasIds)))] else [])
  }

  /** Empty lists are left out. */
  function ItemMembers(it: ItemV, flags: ExportFlags): seq<Member>
  {
    WithAliases(it) + (if it.blobs != [] then [Member(Blobs, Array(BlobNodes(it.blobs, flags)))] else [])
  }

  /** times gives the clock at the creation of each blob. */
  function BlobDecoder(times: nat -> I64): (Node, nat) -> Option<BlobV>
  {
    (node: Node, i: nat) => if node.Object? then DecodeBlob(node.members, times(i)) else None
  }

  function DecodeBlobs(nodes: seq<Node>, times: nat -> I64): Option<seq<BlobV>>
  {
    DecodeAll(nodes, BlobDecoder(times))
  }

  function DecodeAliases(nodes: seq<Node>): Option<seq<CString>>
  {
    if nodes == [] then Some([])
    else
      var n := |nodes| - 1;
      var front := DecodeAliases(nodes[..n]);
      if front == None || !nodes[n].Str? then None else Some(AddAlias(front.value, nodes[n].text))
  }

  function DecodeItem(obj: seq<Member>, times: nat -> I64): Option<ItemV>
  {
    if !Has(obj, Id) || !Has(obj, Blobs) then None
    else
      var id := GetString(obj, Id);
      if id == None || id.value == [] || GetArray(obj, Blobs) == None then None
      else
        var blobs := DecodeBlobs(GetArray(obj, Blobs).value, times);
        if blobs == None then None
        else if !Has(obj, AliasIds) then Some(ItemV(id.value, [], blobs.value))
        else if GetArray(obj, AliasIds) == None then None
        else
          var aliases := DecodeAliases(GetArray(obj, AliasIds).value);
          if aliases == None then None else Some(ItemV(id.value, aliases.value, blobs.value))
  }

  function RestoredBlobs(blobs: seq<BlobV>, flags: ExportFlags, times: nat -> I64): (r: seq<BlobV>)
    ensures |r| == |blobs|
    ensures forall i :: 0 <= i < |r| ==> r[i] == Restored(blobs[i], flags, times(i))
  {
    seq(|blobs|, i requires 0 <= i < |blobs| => Restored(blobs[i], flags, times(i)))
  }

  function RestoredItem(it: ItemV, flags: ExportFlags, times: nat -> I64): ItemV
  {
    ItemV(it.id, AddAliases(it.aliasIds), RestoredBlobs(it.blobs, flags, times))
  }

  ghost predicate HaveText(blobs: seq<BlobV>)
  {
    forall b <- blobs :: HasText(b)
  }

  ghost predicate AllLast(blobs: seq<BlobV>)
  {
    forall b <- blobs :: Lasts(b)
  }

  lemma BlobsSnoc(blobs: seq<BlobV>, b: BlobV)
    ensures HaveText(blobs + [b]) <==> HaveText(blobs) && HasText(b)
    ensures AllLast(blobs + [b]) <==> AllLast(blobs) && Lasts(b)
  {
    assert forall x :: x in blobs + [b] <==> x in blobs || x == b;
  }

  lemma RestoredBlobsSnoc(blobs: seq<BlobV>, b: BlobV, flags: ExportFlags, times: nat -> I64)
    ensures RestoredBlobs(blobs + [b], flags, times)
            == RestoredBlobs(blobs, flags, times) + [Restored(b, flags, times(|blobs|))]
  {}

  lemma DecodeBlobsSnoc(nodes: seq<Node>, obj: seq<Member>, times: nat -> I64)
    ensures var front, last := DecodeBlobs(nodes, times), DecodeBlob(obj, times(|nodes|));
            DecodeBlobs(nodes + [Object(obj)], times)
            == if front == None || last == None then None else Some(front.value + [last.value])
  {
    assert (nodes + [Object(obj)])[..|nodes|] == nodes;
  }

  lemma {:induction false} BlobsRoundTrip(blobs: seq<BlobV>, flags: ExportFlags, times: nat -> I64)
    ensures DecodeBlobs(BlobNodes(blobs, flags), times)
            == if HaveText(blobs) then Some(RestoredBlobs(blobs, flags, times)) else None
  {
    if blobs != [] {
      var n := |blobs| - 1;
      SplitLast(blobs);
      BlobsSnoc(blobs[..n], blobs[n]);
      BlobsRoundTrip(blobs[..n], flags, times);
      BlobRoundTrip(blobs[n], flags, times(n));
      DecodeBlobsSnoc(BlobNodes(blobs[..n], flags), BlobMembers(blobs[n], flags), times);
      RestoredBlobsSnoc(blobs[..n], blobs[n], flags, times);
    } else {
      assert RestoredBlobs(blobs, flags, times) == [];
    }
  }

  lemma {:induction false} AliasesRoundTrip(aliases: seq<CString>)
    ensures DecodeAliases(StringNodes(aliases)) == Some(AddAliases(aliases))
  {
    if aliases != [] {
      var n := |aliases| - 1;
      AliasesRoundTrip(aliases[..n]);
      assert StringNodes(aliases)[..n] == StringNodes(aliases[..n]);
    }
  }

  lemma ItemMember(it: ItemV, flags: ExportFlags, name: MemberName)
    ensures var obj := ItemMembers(it, flags);
            && (Has(obj, name)
                <==> name == Id || (name == AliasIds && it.aliasIds != []) || (name == Blobs && it.blobs != []))
            && (name == Id ==> Get(obj, name) == Str(it.id))
            && (name == AliasIds && Has(obj, name) ==> Get(obj, name) == Array(StringNodes(it.aliasIds)))
            && (name == Blobs && Has(obj, name) ==> Get(obj, name) == Array(BlobNodes(it.blobs, flags)))
  {
    OptionalMember([Member(Id, Str(it.id))], it.aliasIds != [],
                   Member(AliasIds, Array(StringNodes(it.aliasIds))), name);
    OptionalMember(WithAliases(it), it.blobs != [], Member(Blobs, Array(BlobNodes(it.blobs, flags))), name);
  }

  /** Reading an object with the members of an item. */
  lemma DecodeFields(
    obj: seq<Member>, id: CString, blobs: Option<seq<Node>>, aliases: Option<seq<Node>>, times: nat -> I64)
    requires Has(obj, Id) && Get(obj, Id) == Str(id)
    requires Has(obj, Blobs) == blobs.Some? && (blobs.Some? ==> Get(obj, Blobs) == Array(blobs.value))
    requires Has(obj, AliasIds) == aliases.Some? && (aliases.Some? ==> Get(obj, AliasIds) == Array(aliases.value))
    requires aliases.Some? ==> DecodeAliases(aliases.value).Some?
    ensures DecodeItem(obj, times)
            == if id == [] || blobs == None || DecodeBlobs(blobs.value, times) == None then None
               else Some(ItemV(id, if aliases == None then [] else DecodeAliases(aliases.value).value,
                               DecodeBlobs(blobs.value, times).value))
  {}

  ghost predicate ReadableItem(it: ItemV)
  {
    it.id != [] && it.blobs != [] && HaveText(it.blobs)
  }

  /** Reading back makes a blob with an empty text one without text. */
  lemma RestoredAllLast(blobs: seq<BlobV>, flags: ExportFlags, times: nat -> I64)
    ensures HaveText(RestoredBlobs(blobs, flags, times)) <==> AllLast(blobs)
    ensures AllLast(RestoredBlobs(blobs, flags, times)) <==> AllLast(blobs)
  {
    var r := RestoredBlobs(blobs, flags, times);
    forall i | 0 <= i < |blobs| ensures (HasText(r[i]) <==> Lasts(blobs[i])) && (Lasts(r[i]) <==> Lasts(blobs[i])) {
      RestoredLasts(blobs[i], flags, times(i));
    }
    assert AllLast(blobs) <==> forall i :: 0 <= i < |blobs| ==> Lasts(blobs[i]);
    assert HaveText(r) <==> forall i :: 0 <= i < |r| ==> HasText(r[i]);
    assert AllLast(r) <==> forall i :: 0 <= i < |r| ==> Lasts(r[i]);
  }

  /** An exported item can be read exactly when its ID and its blob list are not empty and every blob has a text. */
  lemma ItemRoundTrip(it: ItemV, flags: ExportFlags, times: nat -> I64)
    ensures DecodeItem(ItemMembers(it, flags), times)
            == if ReadableItem(it) then Some(RestoredItem(it, flags, times)) else None
  {
    ItemMember(it, flags, Id);
    ItemMember(it, flags, Blobs);
    ItemMember(it, flags, AliasIds);
    BlobsRoundTrip(it.blobs, flags, times);
    AliasesRoundTrip(it.aliasIds);
    DecodeFields(ItemMembers(it, flags), it.id,
                 if it.blobs != [] then Some(BlobNodes(it.blobs, flags)) else None,
                 if it.aliasIds != [] then Some(StringNodes(it.aliasIds)) else None, times);
  }

  lemma {:induction false} DecodedAliasesDistinct(nodes: seq<Node>)
    ensures DecodeAliases(nodes).Some? ==> NoDuplicates(DecodeAliases(nodes).value)
  {
    if nodes != [] {
      var front := nodes[..|nodes| - 1];
      DecodedAliasesDistinct(front);
      if DecodeAliases(nodes).Some? {
        AddAliasKeepsDistinct(DecodeAliases(front).value, nodes[|nodes| - 1].text);
      }
    }
  }

  ghost function Texts(nodes: seq<Node>): seq<CString>
    requires forall n <- nodes :: n.Str?
  {
    if nodes == [] then []
    else
      var n := |nodes| - 1;
      assert nodes[n] in nodes;
      Texts(nodes[..n]) + [nodes[n].text]
  }

  /** Aliases are read exactly when all of them are strings; repetitions are dropped. */
  lemma {:induction false} AliasesAccepted(nodes: seq<Node>)
    ensures DecodeAliases(nodes).Some? <==> forall n <- nodes :: n.Str?
    ensures (forall n <- nodes :: n.Str?) ==> DecodeAliases(nodes) == Some(AddAliases(Texts(nodes)))
  {
    if nodes != [] {
      var n := |nodes| - 1;
      SplitLast(nodes);
      AliasesAccepted(nodes[..n]);
      if forall x <- nodes :: x.Str? {
        assert Texts(nodes)[..|Texts(nodes)| - 1] == Texts(nodes[..n]);
      }
    }
  }

  /** The objects import takes for an item, whatever the clock says. */
  ghost predicate IsItem(obj: seq<Member>)
  {
    && Has(obj, Id) && GetString(obj, Id).Some? && GetString(obj, Id).value != []
    && Has(obj, Blobs) && GetArray(obj, Blobs).Some?
    && (forall n <- GetArray(obj, Blobs).value :: n.Object? && IsBlob(n.members))
    && (Has(obj, AliasIds) ==>
          GetArray(obj, AliasIds).Some? && forall n <- GetArray(obj, AliasIds).value :: n.Str?)
  }

  lemma BlobsAccepted(nodes: seq<Node>, times: nat -> I64)
    ensures DecodeBlobs(nodes, times).Some? <==> forall n <- nodes :: n.Object? && IsBlob(n.members)
  {
    if DecodeBlobs(nodes, times).Some? {
      DecodedElements(nodes, BlobDecoder(times));
      forall n | n in nodes ensures n.Object? && IsBlob(n.members) {
        var i :| 0 <= i < |nodes| && nodes[i] == n;
        assert BlobDecoder(times)(nodes[i], i).Some?;
        BlobAccepted(n.members, times(i));
      }
    } else {
      var i := DecodeAllCulprit(nodes, BlobDecoder(times));
      assert nodes[i] in nodes && BlobDecoder(times)(nodes[i], i) == None;
      if nodes[i].Object? { BlobAccepted(nodes[i].members, times(i)); }
    }
  }

  /** An item is read exactly from such an object. */
  lemma ItemAccepted(obj: seq<Member>, times: nat -> I64)
    ensures DecodeItem(obj, times).Some? <==> IsItem(obj)
  {
    if Has(obj, Blobs) && GetArray(obj, Blobs).Some? { BlobsAccepted(GetArray(obj, Blobs).value, times); }
    if Has(obj, AliasIds) && GetArray(obj, AliasIds).Some? { AliasesAccepted(GetArray(obj, AliasIds).value); }
  }

  /** No blob of the list would be stamped anew. */
  ghost predicate KeepsTimes(blobs: seq<BlobV>, later: nat -> I64)
  {
    forall j :: 0 <= j < |blobs| ==> blobs[j].timestamp > 0 || blobs[j].timestamp == later(j)
  }

  lemma {:induction false} DecodedBlobsRestored(nodes: seq<Node>, times: nat -> I64, later: nat -> I64)
    requires DecodeBlobs(nodes, times).Some?
    ensures var blobs := DecodeBlobs(nodes, times).value;
            RestoredBlobs(blobs, ExportFlags(false), later) == blobs <==> KeepsTimes(blobs, later)
  {
    var blobs := DecodeBlobs(nodes, times).value;
    DecodedElements(nodes, BlobDecoder(times));
    forall j | 0 <= j < |blobs|
      ensures Restored(blobs[j], ExportFlags(false), later(j)) == blobs[j]
              <==> blobs[j].timestamp > 0 || blobs[j].timestamp == later(j)
    {
      assert BlobDecoder(times)(nodes[j], j) == Some(blobs[j]);
      DecodedBlobRestored(nodes[j].members, times(j), later(j));
    }
  }

  /** An item that came from a file comes back unchanged exactly when no blob is stamped anew. */
  lemma DecodedItemRestored(obj: seq<Member>, times: nat -> I64, later: nat -> I64)
    requires DecodeItem(obj, times).Some?
    ensures var it := DecodeItem(obj, times).value;
            RestoredItem(it, ExportFlags(false), later) == it <==> KeepsTimes(it.blobs, later)
  {
    var it := DecodeItem(obj, times).value;
    DecodedItemDistinct(obj, times);
    DecodedItemBlobs(obj, times);
    DecodedBlobsRestored(GetArray(obj, Blobs).value, times, later);
    DistinctItemRestored(it, later);
  }

  lemma DecodedItemBlobs(obj: seq<Member>, times: nat -> I64)
    requires DecodeItem(obj, times).Some?
    ensures GetArray(obj, Blobs).Some?
    ensures DecodeBlobs(GetArray(obj, Blobs).value, times) == Some(DecodeItem(obj, times).value.blobs)
  {}

  lemma DistinctItemRestored(it: ItemV, later: nat -> I64)
    requires NoDuplicates(it.aliasIds)
    ensures RestoredItem(it, ExportFlags(false), later) == it
            <==> RestoredBlobs(it.blobs, ExportFlags(false), later) == it.blobs
  {
    AddAliasesIsIdentity(it.aliasIds);
  }

  /** Whatever was in the file, the aliases of an imported item are duplicate-free. */
  lemma DecodedItemDistinct(obj: seq<Member>, times: nat -> I64)
    requires DecodeItem(obj, times).Some?
    ensures NoDuplicates(DecodeItem(obj, times).value.aliasIds)
  {
    if Has(obj, AliasIds) && GetArray(obj, AliasIds).Some? {
      DecodedAliasesDistinct(GetArray(obj, AliasIds).value);
    }
  }

  lemma {:induction false} DecodeAliasesFails(nodes: seq<Node>, i: nat)
    requires i < |nodes| && !nodes[i].Str?
    ensures DecodeAliases(nodes) == None
  {
    var n := |nodes| - 1;
    if i < n { DecodeAliasesFails(nodes[..n], i); }
  }

  // ---- lookup by kind

  /** The positions of the blobs of one kind, in order. */
  function OfKind(blobs: seq<BlobV>, kind: U32): (r: seq<nat>)
    ensures forall i <- r :: i < |blobs| && blobs[i].kind == kind
  {
    if blobs == [] then []
    else
      var n := |blobs| - 1;
      OfKind(blobs[..n], kind) + (if blobs[n].kind == kind then [n] else [])
  }

  /** jcat_item_get_blob_by_kind: the only blob of the kind, if there is exactly one and the kind is known. */
  function BlobByKind(it: ItemV, kind: U32): Option<BlobV>
  {
    var found := OfKind(it.blobs, kind);
    if kind == KIND_UNKNOWN then None
    else if |found| == 1 then
      assert found[0] in found;
      Some(it.blobs[found[0]])
    else None
  }

  lemma {:induction false} OfKindMember(blobs: seq<BlobV>, kind: U32, i: nat)
    requires i < |blobs|
    ensures i in OfKind(blobs, kind) <==> blobs[i].kind == kind
  {
    var n := |blobs| - 1;
    if i < n { OfKindMember(blobs[..n], kind, i); }
  }

  ghost predicate Ascending(r: seq<nat>)
  {
    forall i, j :: 0 <= i < j < |r| ==> r[i] < r[j]
  }

  lemma {:induction false} OfKindInOrder(blobs: seq<BlobV>, kind: U32)
    ensures Ascending(OfKind(blobs, kind))
  {
    if blobs != [] {
      var n := |blobs| - 1;
      OfKindInOrder(blobs[..n], kind);
      AscendingSnoc(OfKind(blobs[..n], kind), n);
    }
  }

  lemma AscendingSnoc(r: seq<nat>, n: nat)
    requires Ascending(r) && forall i <- r :: i < n
    ensures Ascending(r + [n]) && Ascending(r + [])
  {
    assert forall k :: 0 <= k < |r| ==> r[k] in r;
    assert r + [] == r;
  }

  /** A blob is found exactly when its kind is known and it is the only one of the kind. */
  lemma BlobByKindIsUnique(it: ItemV, kind: U32, i: nat)
    requires i < |it.blobs| && it.blobs[i].kind == kind
    ensures BlobByKind(it, kind) == Some(it.blobs[i]) || kind == KIND_UNKNOWN
            || exists j :: 0 <= j < |it.blobs| && j != i && it.blobs[j].kind == kind
    ensures BlobByKind(it, kind).Some?
            ==> kind != KIND_UNKNOWN && forall j :: 0 <= j < |it.blobs| && it.blobs[j].kind == kind ==> j == i
  {
    var found := OfKind(it.blobs, kind);
    OfKindMember(it.blobs, kind, i);
    OfKindInOrder(it.blobs, kind);
    if |found| != 1 {
      var other := if found[0] == i then found[1] else found[0];
      assert other in found;
      assert other != i && it.blobs[other].kind == kind;
    }
    forall j | 0 <= j < |it.blobs| && it.blobs[j].kind == kind && |found| == 1 ensures j == i {
      OfKindMember(it.blobs, kind, j);
    }
  }

  /** The kind is known, and the blob at i is the only one of it. */
  ghost predicate OnlyOfKind(it: ItemV, kind: U32, i: nat)
  {
    kind != KIND_UNKNOWN && i < |it.blobs| && it.blobs[i].kind == kind
    && forall j :: 0 <= j < |it.blobs| && it.blobs[j].kind == kind ==> j == i
  }

  lemma BlobByKindIsExact(it: ItemV, kind: U32)
    ensures BlobByKind(it, kind).Some? <==> exists i: nat :: OnlyOfKind(it, kind, i)
    ensures forall i: nat :: OnlyOfKind(it, kind, i) ==> BlobByKind(it, kind) == Some(it.blobs[i])
  {
    forall i: nat | OnlyOfKind(it, kind, i) ensures BlobByKind(it, kind) == Some(it.blobs[i]) {
      BlobByKindIsUnique(it, kind, i);
    }
    if BlobByKind(it, kind).Some? {
      var found := OfKind(it.blobs, kind);
      assert found[0] in found;
      BlobByKindIsUnique(it, kind, found[0]);
      assert OnlyOfKind(it, kind, found[0]);
    }
  }

  // ---- the object

  class JcatItem {
    var id: CString
    var blobs: seq<BlobV>
    var aliasIds: seq<CString>

    ghost function View(): ItemV
      reads this
    {
      ItemV(id, aliasIds, blobs)
    }

    constructor New(id: CString)
      ensures View() == ItemV(id, [], [])
    {
      this.id, blobs, aliasIds := id, [], [];
    }

    method AddBlob(blob: JcatBlob)
      modifies this
      ensures View() == old(View()).(blobs := old(blobs) + [blob.View()])
    {
      blobs := blobs + [blob.View()];
    }

    method AddAliasId(alias: CString)
      modifies this
      ensures View() == old(View()).(aliasIds := AddAlias(old(aliasIds), alias))
    {
      for i := 0 to |aliasIds|
        invariant View() == old(View())
        invariant alias !in aliasIds[..i]
      {
        if alias == aliasIds[i] {
          return;
        }
      }
      aliasIds := aliasIds + [alias];
    }

    method RemoveAliasId(alias: CString)
      modifies this
      ensures View() == old(View()).(aliasIds := RemoveAlias(old(aliasIds), alias))
    {
      for i := 0 to |aliasIds|
        invariant id == old(id) && blobs == old(blobs) && aliasIds == old(aliasIds)
        invariant alias !in aliasIds[..i]
      {
        if alias == aliasIds[i] {
          RemoveAliasAt(aliasIds, alias, i);
          aliasIds := aliasIds[..i] + aliasIds[i + 1..];
          return;
        }
      }
      assert aliasIds[..|aliasIds|] == aliasIds;
      RemoveAliasNone(aliasIds, alias);
    }

    /** The unknown kind is refused. */
    method GetBlobsByKind(kind: U32) returns (r: Option<seq<BlobV>>)
      ensures r == None <==> kind == KIND_UNKNOWN
      ensures r.Some? ==> |r.value| == |OfKind(blobs, kind)|
                          && forall i :: 0 <= i < |r.value| ==> BlobAt(OfKind(blobs, kind), i, r.value[i])
    {
      if kind == KIND_UNKNOWN {
        return None;
      }
      var found: seq<BlobV> := [];
      for i := 0 to |blobs|
        invariant |found| == |OfKind(blobs[..i], kind)|
        invariant forall k :: 0 <= k < |found| ==> BlobAt(OfKind(blobs[..i], kind), k, found[k])
      {
        assert blobs[..i + 1][..i] == blobs[..i];
        if blobs[i].kind == kind {
          found := found + [blobs[i]];
        }
      }
      assert blobs[..|blobs|] == blobs;
      return Some(found);
    }

    ghost predicate BlobAt(positions: seq<nat>, i: nat, b: BlobV)
      reads this
    {
      i < |positions| && positions[i] < |blobs| && blobs[positions[i]] == b
    }

    method GetBlobByKind(kind: U32) returns (r: Option<BlobV>)
      ensures r == BlobByKind(View(), kind)
    {
      if kind == KIND_UNKNOWN {
        return None;
      }
      var target := GetBlobsByKind(kind);
      if |target.value| == 0 {
        return None;
      }
      if |target.value| > 1 {
        return None;
      }
      return Some(target.value[0]);
    }

    static method Import(obj: seq<Member>, times: nat -> I64) returns (r: JcatItem?)
      ensures r == null <==> DecodeItem(obj, times) == None
      ensures r != null ==> fresh(r) && DecodeItem(obj, times) == Some(r.View())
    {
      if !Has(obj, Id) || !Has(obj, Blobs) {
        return null;
      }
      var id := GetString(obj, Id);
      if id == None || id.value == [] {
        return null;
      }
      var self := new JcatItem.New(id.value);
      var arrayBlobs := GetArray(obj, Blobs);
      if arrayBlobs == None {
        return null;
      }
      var ok := self.ImportBlobs(arrayBlobs.value, times);
      if !ok {
        return null;
      }
      if Has(obj, AliasIds) {
        var arrayAliases := GetArray(obj, AliasIds);
        if arrayAliases == None {
          return null;
        }
        ok := self.ImportAliases(arrayAliases.value);
        if !ok {
          return null;
        }
      }
      return self;
    }

    method ImportBlobs(nodes: seq<Node>, times: nat -> I64) returns (ok: bool)
      requires blobs == []
      modifies this
      ensures ok == DecodeBlobs(nodes, times).Some?
      ensures ok ==> View() == old(View()).(blobs := DecodeBlobs(nodes, times).value)
      ensures id == old(id) && aliasIds == old(aliasIds)
    {
      for i := 0 to |nodes|
        invariant id == old(id) && aliasIds == old(aliasIds)
        invariant DecodeBlobs(nodes[..i], times) == Some(blobs)
      {
        assert nodes[..i + 1][..i] == nodes[..i];
        if !nodes[i].Object? {
          DecodeAllFails(nodes, BlobDecoder(times), i);
          return false;
        }
        var blob := JcatBlob.Import(nodes[i].members, times(i));
        if blob == null {
          DecodeAllFails(nodes, BlobDecoder(times), i);
          return false;
        }
        AddBlob(blob);
      }
      assert nodes[..|nodes|] == nodes;
      return true;
    }

    method ImportAliases(nodes: seq<Node>) returns (ok: bool)
      requires aliasIds == []
      modifies this
      ensures ok == DecodeAliases(nodes).Some?
      ensures ok ==> View() == old(View()).(aliasIds := DecodeAliases(nodes).value)
      ensures id == old(id) && blobs == old(blobs)
    {
      for i := 0 to |nodes|
        invariant id == old(id) && blobs == old(blobs)
        invariant DecodeAliases(nodes[..i]) == Some(aliasIds)
      {
        assert nodes[..i + 1][..i] == nodes[..i];
        if !nodes[i].Str? {
          DecodeAliasesFails(nodes, i);
          return false;
        }
        AddAliasId(nodes[i].text);
      }
      assert nodes[..|nodes|] == nodes;
      return true;
    }

    /** Adds the members of the item to the object under construction. */
    method Export(flags: ExportFlags, builder: Builder, ghost below: seq<Frame>)
      requires builder.Holds([], below) && builder.root == None
      modifies builder
      ensures builder.Holds(ItemMembers(View(), flags), below) && builder.root == None
    {
      ghost var it := View();
      ghost var start: seq<Member> := [Member(Id, Str(id))];
      builder.AddStringMember(Id, Some(id), [], below);
      assert [] + start == start;
      if |aliasIds| > 0 {
        ExportAliases(builder, start, below);
      } else {
        assert WithAliases(it) == start;
      }
      if |blobs| > 0 {
        OptionalMember(start, aliasIds != [], Member(AliasIds, Array(StringNodes(aliasIds))), Blobs);
        ExportBlobs(flags, builder, WithAliases(it), below);
      } else {
        assert ItemMembers(it, flags) == WithAliases(it);
      }
    }

    method ExportAliases(builder: Builder, ghost ms: seq<Member>, ghost below: seq<Frame>)
      requires builder.Holds(ms, below) && builder.root == None && !Has(ms, AliasIds)
      modifies builder
      ensures builder.Holds(ms + [Member(AliasIds, Array(StringNodes(aliasIds)))], below) && builder.root == None
    {
      builder.SetMemberName(AliasIds);
      builder.BeginArray();
      ghost var outer := [InObject(ms, Some(AliasIds))] + below;
      assert StringNodes(aliasIds[..0]) == [];
      for i := 0 to |aliasIds|
        invariant builder.root == None
        invariant builder.stack == [InArray(StringNodes(aliasIds[..i]))] + outer
      {
        assert StringNodes(aliasIds[..i + 1]) == StringNodes(aliasIds[..i]) + [Str(aliasIds[i])];
        builder.AddStringValue(Some(aliasIds[i]));
      }
      assert aliasIds[..|aliasIds|] == aliasIds;
      builder.EndArray();
      SetNewMember(ms, AliasIds, Array(StringNodes(aliasIds)));
    }

    static method ExportElement(b: BlobV, flags: ExportFlags, builder: Builder, ghost es: seq<Node>,
        ghost outer: seq<Frame>)
      requires builder.stack == [InArray(es)] + outer && builder.root == None
      modifies builder
      ensures builder.stack == [InArray(es + [Object(BlobMembers(b, flags))])] + outer
      ensures builder.root == None
    {
      ghost var here := builder.stack;
      builder.BeginObject();
      ExportBlob(b, flags, builder, here);
      builder.EndObject();
    }

    method ExportBlobs(flags: ExportFlags, builder: Builder, ghost ms: seq<Member>, ghost below: seq<Frame>)
      requires builder.Holds(ms, below) && builder.root == None && !Has(ms, Blobs)
      modifies builder
      ensures builder.Holds(ms + [Member(Blobs, Array(BlobNodes(blobs, flags)))], below)
      ensures builder.root == None
    {
      builder.SetMemberName(Blobs);
      builder.BeginArray();
      ghost var outer := [InObject(ms, Some(Blobs))] + below;
      for i := 0 to |blobs|
        invariant builder.root == None
        invariant builder.stack == [InArray(BlobNodes(blobs[..i], flags))] + outer
      {
        assert blobs[..i + 1][..i] == blobs[..i];
        ExportElement(blobs[i], flags, builder, BlobNodes(blobs[..i], flags), outer);
      }
      assert blobs[..|blobs|] == blobs;
      builder.EndArray();
      SetNewMember(ms, Blobs, Array(BlobNodes(blobs, flags)));
    }
  }
}
