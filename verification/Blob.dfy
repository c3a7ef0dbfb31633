/** jcat-blob.c: one signature or checksum, and its form in the file. */
module Blob {
  import opened Common
  import opened Base64
  import opened Json

  /** JCAT_BLOB_KIND_UNKNOWN */
  const KIND_UNKNOWN: U32 := 0

  datatype ExportFlags = ExportFlags(noTimestamp: bool)

  /** The value of a blob object. */
  datatype BlobV = BlobV(
    kind: U32, target: U32, flags: U32, data: GBytes, appstreamId: Option<CString>, timestamp: I64)

  /** JCAT_BLOB_FLAG_IS_UTF8 is bit zero; the other bits are kept but mean nothing here. */
  predicate IsUtf8(flags: U32)
  {
    flags % 2 == 1
  }

  /** jcat_blob_get_data_as_string, which is NULL for text without a buffer. */
  function DataAsString(b: BlobV): Option<CString>
  {
    if IsUtf8(b.flags) then Strndup(b.data) else Some(Encode(Content(b.data)))
  }

  /** The blob can be written in a way that import takes. */
  predicate HasText(b: BlobV)
  {
    IsUtf8(b.flags) ==> b.data.Buffer?
  }

  /** Even when it has been read back: it is no text that is empty, or that starts with a NUL. */
  predicate Lasts(b: BlobV)
  {
    IsUtf8(b.flags) ==> CutAtNul(Content(b.data)) != []
  }

  // The members a blob is exported as, in order: each list is the one before with at most one member more.

  function WithKind(b: BlobV): seq<Member>
  {
    [Member(Kind, Int(b.kind))]
  }

  function WithTarget(b: BlobV): seq<Member>
  {
    WithKind(b) + (if b.target != KIND_UNKNOWN then [Member(Target, Int(b.target))] else [])
  }

  function WithFlags(b: BlobV): seq<Member>
  {
    WithTarget(b) + [Member(Flags, Int(b.flags))]
  }

  function WithAppstreamId(b: BlobV): seq<Member>
  {
    WithFlags(b) + (if b.appstreamId.Some? then [Member(AppstreamId, Str(b.appstreamId.value))] else [])
  }

  predicate Stamped(b: BlobV, flags: ExportFlags)
  {
    b.timestamp > 0 && !flags.noTimestamp
  }

  function WithTimestamp(b: BlobV, flags: ExportFlags): seq<Member>
  {
    WithAppstreamId(b) + (if Stamped(b, flags) then [Member(Timestamp, Int(b.timestamp))] else [])
  }

  function BlobMembers(b: BlobV, flags: ExportFlags): seq<Member>
  {
    WithTimestamp(b, flags) + [Member(Data, StringNode(DataAsString(b)))]
  }

  /** The data import makes of the text. */
  function DataOf(text: CString, flags: U32): GBytes
  {
    if IsUtf8(flags) then BytesNew(text) else Buffer(Decode(text))
  }

  /** What import makes of an object; now is the clock when the blob is created. */
  function DecodeBlob(obj: seq<Member>, now: I64): Option<BlobV>
  {
    if !Has(obj, Kind) || !Has(obj, Data) || !Has(obj, Flags) then None
    else if GetInt(obj, Kind) < 0 || GetInt(obj, Flags) < 0 then None
    else
      var flags := ToU32(GetInt(obj, Flags));
      var timestamp := if Has(obj, Timestamp) then GetInt(obj, Timestamp) else now;
      if Has(obj, Timestamp) && timestamp < 0 then None
      else if Has(obj, AppstreamId) && GetString(obj, AppstreamId) == None then None
      else if Has(obj, Target) && GetInt(obj, Target) < 0 then None
      else if GetString(obj, Data) == None then None
      else
        var text := GetString(obj, Data).value;
        Some(BlobV(
               ToU32(GetInt(obj, Kind)),
               if Has(obj, Target) then ToU32(GetInt(obj, Target)) else KIND_UNKNOWN,
               flags,
               DataOf(text, flags),
               if Has(obj, AppstreamId) then GetString(obj, AppstreamId) else None,
               timestamp))
  }

  /** What is left of a blob once it has been exported and read back. */
  function Restored(b: BlobV, flags: ExportFlags, now: I64): BlobV
  {
    b.(data := if IsUtf8(b.flags) then BytesNew(CutAtNul(Content(b.data))) else Buffer(Content(b.data)),
       timestamp := if Stamped(b, flags) then b.timestamp else now)
  }

  // ---- round trip

  /** Where import finds each member of an exported blob. */
  ghost function Field(b: BlobV, flags: ExportFlags, name: MemberName): Option<Node>
  {
    match name
    case Kind => Some(Int(b.kind))
    case Flags => Some(Int(b.flags))
    case Data => Some(StringNode(DataAsString(b)))
    case Target => if b.target != KIND_UNKNOWN then Some(Int(b.target)) else None
    case AppstreamId => if b.appstreamId.Some? then Some(Str(b.appstreamId.value)) else None
    case Timestamp => if Stamped(b, flags) then Some(Int(b.timestamp)) else None
    case _ => None
  }

  lemma BlobMember(b: BlobV, flags: ExportFlags, name: MemberName)
    ensures var obj := BlobMembers(b, flags);
            && (Has(obj, name) <==> Field(b, flags, name).Some?)
            && (Has(obj, name) ==> Get(obj, name) == Field(b, flags, name).value)
  {
    FirstMembers(b, flags, name);
    var appstream := Member(AppstreamId, Str(if b.appstreamId.Some? then b.appstreamId.value else []));
    OptionalMember(WithFlags(b), b.appstreamId.Some?, appstream, name);
    OptionalMember(WithAppstreamId(b), Stamped(b, flags), Member(Timestamp, Int(b.timestamp)), name);
    OptionalMember(WithTimestamp(b, flags), true, Member(Data, StringNode(DataAsString(b))), name);
  }

  lemma FirstMembers(b: BlobV, flags: ExportFlags, name: MemberName)
    ensures var obj := WithFlags(b);
            && (Has(obj, name) <==> name in {Kind, Target, Flags} && Field(b, flags, name).Some?)
            && (Has(obj, name) ==> Get(obj, name) == Field(b, flags, name).value)
  {
    OptionalMember(WithKind(b), b.target != KIND_UNKNOWN, Member(Target, Int(b.target)), name);
    OptionalMember(WithTarget(b), true, Member(Flags, Int(b.flags)), name);
  }

  /** Reading an exported blob succeeds exactly when it has a text, and gives back everything the format can hold. */
  lemma BlobRoundTrip(b: BlobV, flags: ExportFlags, now: I64)
    ensures DecodeBlob(BlobMembers(b, flags), now) == if HasText(b) then Some(Restored(b, flags, now)) else None
  {
    forall name: MemberName ensures HoldsField(BlobMembers(b, flags), b, flags, name) {
      BlobMember(b, flags, name);
    }
    DecodeFieldsOf(BlobMembers(b, flags), b, flags, now);
  }

  ghost predicate HoldsField(obj: seq<Member>, b: BlobV, flags: ExportFlags, name: MemberName)
  {
    && (Has(obj, name) <==> Field(b, flags, name).Some?)
    && (Has(obj, name) ==> Get(obj, name) == Field(b, flags, name).value)
  }

  /** Reading an object with the members of a blob. */
  lemma DecodeFieldsOf(obj: seq<Member>, b: BlobV, flags: ExportFlags, now: I64)
    requires forall name: MemberName :: HoldsField(obj, b, flags, name)
    ensures DecodeBlob(obj, now) == if HasText(b) then Some(Restored(b, flags, now)) else None
  {
    assert HoldsField(obj, b, flags, Kind) && HoldsField(obj, b, flags, Flags) && HoldsField(obj, b, flags, Data);
    assert HoldsField(obj, b, flags, Target) && HoldsField(obj, b, flags, AppstreamId);
    assert HoldsField(obj, b, flags, Timestamp);
    if HasText(b) { TextRead(b, flags, now); }
  }

  lemma TextRead(b: BlobV, flags: ExportFlags, now: I64)
    requires HasText(b)
    ensures DataAsString(b).Some? && DataOf(DataAsString(b).value, b.flags) == Restored(b, flags, now).data
  {
    DecodeEncode(Content(b.data));
  }

  /** After reading, the blob can be written and read again exactly when its text is not empty. */
  lemma RestoredLasts(b: BlobV, flags: ExportFlags, now: I64)
    ensures HasText(Restored(b, flags, now)) <==> Lasts(b)
    ensures Lasts(Restored(b, flags, now)) <==> Lasts(b)
    ensures Lasts(b) ==> HasText(b)
  {}

  /** The objects import takes for a blob, whatever the clock says. */
  ghost predicate IsBlob(obj: seq<Member>)
  {
    && Has(obj, Kind) && Has(obj, Flags) && Has(obj, Data)
    && GetInt(obj, Kind) >= 0 && GetInt(obj, Flags) >= 0 && GetString(obj, Data).Some?
    && (Has(obj, Timestamp) ==> GetInt(obj, Timestamp) >= 0)
    && (Has(obj, Target) ==> GetInt(obj, Target) >= 0)
    && (Has(obj, AppstreamId) ==> GetString(obj, AppstreamId).Some?)
  }

  lemma BlobAccepted(obj: seq<Member>, now: I64)
    ensures DecodeBlob(obj, now).Some? <==> IsBlob(obj)
  {}

  /** A blob that came from a file comes back unchanged, except that one without a time is stamped anew. */
  lemma DecodedBlobRestored(obj: seq<Member>, now: I64, later: I64)
    requires DecodeBlob(obj, now).Some?
    ensures var b := DecodeBlob(obj, now).value;
            Restored(b, ExportFlags(false), later) == b <==> b.timestamp > 0 || b.timestamp == later
  {}

  // Bit zero of the flags says what the data is, without regard to the other bits.

  /** With the bit clear the exported text is Base64 of every byte; with it set it is the text up to its first NUL. */
  lemma ExportedText(b: BlobV, flags: ExportFlags)
    ensures Has(BlobMembers(b, flags), Data)
    ensures b.flags % 2 == 0 ==> Get(BlobMembers(b, flags), Data) == Str(Encode(Content(b.data)))
    ensures b.flags % 2 == 1 && b.data.Buffer? ==> Get(BlobMembers(b, flags), Data) == Str(CutAtNul(b.data.bytes))
    ensures b.flags % 2 == 1 && b.data.NoBuffer? ==> Get(BlobMembers(b, flags), Data) == Null
  {
    BlobMember(b, flags, Data);
  }

  /** r is b as it comes back: binary data whole, text up to its first NUL, and the clock where no time was written. */
  ghost predicate ComesBack(b: BlobV, r: BlobV, flags: ExportFlags, now: I64)
  {
    && r.kind == b.kind && r.target == b.target && r.flags == b.flags && r.appstreamId == b.appstreamId
    && (b.flags % 2 == 0 ==> r.data == Buffer(Content(b.data)))
    && (b.flags % 2 == 1 ==> r.data == BytesNew(CutAtNul(Content(b.data))))
    && r.timestamp == if b.timestamp > 0 && !flags.noTimestamp then b.timestamp else now
  }

  lemma RestoredComesBack(b: BlobV, flags: ExportFlags, now: I64)
    ensures ComesBack(b, Restored(b, flags, now), flags, now)
    ensures HasText(b) <==> (b.flags % 2 == 1 ==> b.data.Buffer?)
    ensures Lasts(b) <==> (b.flags % 2 == 1 ==> Content(b.data) != [] && Content(b.data)[0] != NUL)
  {
    assert CutAtNul(Content(b.data)) == [] ==> Content(b.data) == [] || Content(b.data)[0] == NUL;
  }

  /** What is read from any object that import takes: numbers modulo 2^32, and data by bit zero of the flags. */
  lemma DecodedBlobMeans(obj: seq<Member>, now: I64)
    requires DecodeBlob(obj, now).Some?
    ensures var b := DecodeBlob(obj, now).value;
            && (GetInt(obj, Kind) - b.kind) % 0x1_0000_0000 == 0 && (GetInt(obj, Flags) - b.flags) % 0x1_0000_0000 == 0
            && (Has(obj, Target) ==> (GetInt(obj, Target) - b.target) % 0x1_0000_0000 == 0)
            && (!Has(obj, Target) ==> b.target == KIND_UNKNOWN)
            && b.appstreamId == (if Has(obj, AppstreamId) then GetString(obj, AppstreamId) else None)
            && b.timestamp == (if Has(obj, Timestamp) then GetInt(obj, Timestamp) else now)
            && (GetInt(obj, Flags) % 2 == 0 ==> b.data == Buffer(Decode(GetString(obj, Data).value)))
            && (GetInt(obj, Flags) % 2 == 1 ==> Content(b.data) == GetString(obj, Data).value)
  {
    var b := DecodeBlob(obj, now).value;
    assert b.flags == ToU32(GetInt(obj, Flags));
    assert b.flags % 2 == GetInt(obj, Flags) % 2;
  }

  /** Without timestamps a blob read back exports as before, whatever the clock said, exactly when its text lasts. */
  lemma BlobExportStable(b: BlobV, now: I64)
    requires HasText(b)
    ensures BlobMembers(Restored(b, ExportFlags(true), now), ExportFlags(true)) == BlobMembers(b, ExportFlags(true))
            <==> Lasts(b)
  {
    var r := Restored(b, ExportFlags(true), now);
    if Lasts(b) {
      assert DataAsString(r) == DataAsString(b);
    } else {
      BlobMember(b, ExportFlags(true), Data);
      BlobMember(r, ExportFlags(true), Data);
    }
  }

  // ---- the object

  class JcatBlob {
    var kind: U32
    var target: U32
    var flags: U32
    var data: GBytes
    var appstreamId: Option<CString>
    var timestamp: I64

    /** A snapshot of the fields. */
    function View(): BlobV
      reads this
    {
      BlobV(kind, target, flags, data, appstreamId, timestamp)
    }

    /** jcat_blob_init: a new blob is stamped with the current time. */
    constructor Init(now: I64)
      ensures View() == BlobV(KIND_UNKNOWN, KIND_UNKNOWN, 0, NoBuffer, None, now)
    {
      kind, target, flags, data, appstreamId, timestamp := KIND_UNKNOWN, KIND_UNKNOWN, 0, NoBuffer, None, now;
    }

    constructor NewFull(kind: U32, data: GBytes, flags: U32, now: I64)
      ensures View() == BlobV(kind, KIND_UNKNOWN, flags, data, None, now)
    {
      this.kind, target, this.flags, this.data, appstreamId, timestamp := kind, KIND_UNKNOWN, flags, data, None, now;
    }

    constructor NewUtf8(kind: U32, data: CString, now: I64)
      ensures View() == BlobV(kind, KIND_UNKNOWN, 1, BytesNew(data), None, now)
      ensures DataAsString(View()) == if data == [] then None else Some(data)
    {
      this.kind, target, flags, this.data, appstreamId, timestamp := kind, KIND_UNKNOWN, 1, BytesNew(data), None, now;
    }

    constructor Copy(b: BlobV)
      ensures View() == b
    {
      kind, target, flags := b.kind, b.target, b.flags;
      data, appstreamId, timestamp := b.data, b.appstreamId, b.timestamp;
    }

    method SetAppstreamId(id: Option<CString>)
      modifies this
      ensures View() == old(View()).(appstreamId := id)
    {
      appstreamId := id;
    }

    method SetTarget(t: U32)
      modifies this
      ensures View() == old(View()).(target := t)
    {
      target := t;
    }

    static method Import(obj: seq<Member>, now: I64) returns (r: JcatBlob?)
      ensures r == null <==> DecodeBlob(obj, now) == None
      ensures r != null ==> fresh(r) && DecodeBlob(obj, now) == Some(r.View())
    {
      var self := new JcatBlob.Init(now);
      if !Has(obj, Kind) || !Has(obj, Data) || !Has(obj, Flags) {
        return null;
      }
      var kindTmp := GetInt(obj, Kind);
      if kindTmp < 0 {
        return null;
      }
      self.kind := ToU32(kindTmp);
      var flagsTmp := GetInt(obj, Flags);
      if flagsTmp < 0 {
        return null;
      }
      self.flags := ToU32(flagsTmp);
      if Has(obj, Timestamp) {
        self.timestamp := GetInt(obj, Timestamp);
        if self.timestamp < 0 {
          return null;
        }
      }
      if Has(obj, AppstreamId) {
        var appstream := GetString(obj, AppstreamId);
        if appstream == None {
          return null;
        }
        self.appstreamId := appstream;
      }
      if Has(obj, Target) {
        var targetTmp := GetInt(obj, Target);
        if targetTmp < 0 {
          return null;
        }
        self.target := ToU32(targetTmp);
      }
      var dataStr := GetString(obj, Data);
      if dataStr == None {
        return null;
      }
      if !IsUtf8(self.flags) {
        self.data := Buffer(Decode(dataStr.value));
      } else {
        self.data := BytesNew(dataStr.value);
      }
      return self;
    }
  }

  /** Adds the members of a blob to the object under construction. */
  method ExportBlob(b: BlobV, flags: ExportFlags, builder: Builder, ghost below: seq<Frame>)
    requires builder.Holds([], below)
    modifies builder
    ensures builder.root == old(builder.root)
    ensures builder.Holds(BlobMembers(b, flags), below)
  {
    var dataStr := DataAsString(b);
    Absent(b, flags);
    Skipped(b, flags);
    builder.AddIntMember(Kind, b.kind, [], below);
    if b.target != KIND_UNKNOWN {
      builder.AddIntMember(Target, b.target, WithKind(b), below);
    }
    builder.AddIntMember(Flags, b.flags, WithTarget(b), below);
    if b.appstreamId.Some? {
      builder.AddStringMember(AppstreamId, b.appstreamId, WithFlags(b), below);
    }
    if b.timestamp > 0 && !flags.noTimestamp {
      builder.AddIntMember(Timestamp, b.timestamp, WithAppstreamId(b), below);
    }
    builder.AddStringMember(Data, dataStr, WithTimestamp(b, flags), below);
  }

  /** A condition that fails leaves the list as it was. */
  lemma Skipped(b: BlobV, flags: ExportFlags)
    ensures [] + WithKind(b) == WithKind(b)
    ensures b.target == KIND_UNKNOWN ==> WithTarget(b) == WithKind(b)
    ensures b.appstreamId == None ==> WithAppstreamId(b) == WithFlags(b)
    ensures !Stamped(b, flags) ==> WithTimestamp(b, flags) == WithAppstreamId(b)
  {}

  /** No member is set twice. */
  lemma Absent(b: BlobV, flags: ExportFlags)
    ensures !Has(WithTarget(b), Flags) && !Has(WithFlags(b), AppstreamId)
    ensures !Has(WithAppstreamId(b), Timestamp) && !Has(WithTimestamp(b, flags), Data)
  {
    var target := Member(Target, Int(b.target));
    var appstream := Member(AppstreamId, Str(if b.appstreamId.Some? then b.appstreamId.value else []));
    forall name | name in {Flags, AppstreamId, Timestamp, Data}
      ensures !Has(WithTarget(b), name)
      ensures name in {AppstreamId, Timestamp, Data} ==> !Has(WithFlags(b), name)
      ensures name in {Timestamp, Data} ==> !Has(WithAppstreamId(b), name)
      ensures name == Data ==> !Has(WithTimestamp(b, flags), name)
    {
      OptionalMember(WithKind(b), b.target != KIND_UNKNOWN, target, name);
      OptionalMember(WithTarget(b), true, Member(Flags, Int(b.flags)), name);
      OptionalMember(WithFlags(b), b.appstreamId.Some?, appstream, name);
      OptionalMember(WithAppstreamId(b), Stamped(b, flags), Member(Timestamp, Int(b.timestamp)), name);
    }
  }
}
