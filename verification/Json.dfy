/** JSON trees, the json-glib accessors the importer uses and the builder the exporter drives. */
module Json {
  import opened Common

  /** The member names of the format; every other name is Other. */
  datatype MemberName =
    | JcatVersionMajor | JcatVersionMinor | Items
    | Id | AliasIds | Blobs
    | Kind | Target | Flags | AppstreamId | Timestamp | Data
    | Other(text: CString)

  datatype Member = Member(name: MemberName, node: Node)

  datatype Node =
    | Object(members: seq<Member>)
    | Array(elements: seq<Node>)
    | Str(text: CString)
    | Int(value: I64)
    | Bool(flag: bool)
    | Null

  predicate Has(obj: seq<Member>, name: MemberName)
  {
    obj != [] && (obj[0].name == name || Has(obj[1..], name))
  }

  function Get(obj: seq<Member>, name: MemberName): Node
    requires Has(obj, name)
  {
    if obj[0].name == name then obj[0].node else Get(obj[1..], name)
  }

  /** json_object_get_int_member: anything that is not a number reads as zero. */
  function GetInt(obj: seq<Member>, name: MemberName): I64
    requires Has(obj, name)
  {
    match Get(obj, name)
    case Int(n) => n
    case Bool(b) => if b then 1 else 0
    case _ => 0
  }

  /** json_object_get_string_member: NULL unless the member is a string. */
  function GetString(obj: seq<Member>, name: MemberName): Option<CString>
    requires Has(obj, name)
  {
    match Get(obj, name)
    case Str(s) => Some(s)
    case _ => None
  }

  /** json_object_get_array_member: NULL unless the member is an array. */
  function GetArray(obj: seq<Member>, name: MemberName): Option<seq<Node>>
    requires Has(obj, name)
  {
    match Get(obj, name)
    case Array(es) => Some(es)
    case _ => None
  }

  /** json_object_set_member: a second value for a name replaces the first in place. */
  function SetMember(obj: seq<Member>, name: MemberName, n: Node): seq<Member>
  {
    if obj == [] then [Member(name, n)]
    else if obj[0].name == name then [Member(name, n)] + obj[1..]
    else [obj[0]] + SetMember(obj[1..], name, n)
  }

  lemma {:induction false} SetNewMember(obj: seq<Member>, name: MemberName, n: Node)
    requires !Has(obj, name)
    ensures SetMember(obj, name, n) == obj + [Member(name, n)]
  {
    if obj != [] {
      SetNewMember(obj[1..], name, n);
      assert obj == [obj[0]] + obj[1..];
    }
  }

  /** Looking a name up in a list that may have one more member at its end. */
  lemma {:induction false} OptionalMember(front: seq<Member>, on: bool, m: Member, name: MemberName)
    ensures var obj := front + (if on then [m] else []);
            && (Has(obj, name) <==> Has(front, name) || (on && m.name == name))
            && (Has(obj, name) ==> Get(obj, name) == if Has(front, name) then Get(front, name) else m.node)
  {
    var obj := front + (if on then [m] else []);
    if front == [] {
      assert obj == if on then [m] else [];
    } else {
      assert obj[1..] == front[1..] + (if on then [m] else []);
      OptionalMember(front[1..], on, m, name);
    }
  }

  /** What becomes of a string that may be NULL. */
  function StringNode(s: Option<CString>): Node
  {
    if s.Some? then Str(s.value) else Null
  }

  // ---- builder

  /** A container under construction; pending is the member name whose value comes next. */
  datatype Frame =
    | InObject(members: seq<Member>, pending: Option<MemberName>)
    | InArray(elements: seq<Node>)

  class Builder {
    var stack: seq<Frame>  // innermost first
    var root: Option<Node>

    constructor ()
      ensures stack == [] && root == None
    {
      stack, root := [], None;
    }

    predicate ExpectsValue()
      reads this
    {
      stack != [] && (stack[0].InArray? || stack[0].pending.Some?)
    }

    predicate AtObject()
      reads this
    {
      stack != [] && stack[0].InObject? && stack[0].pending == None
    }

    predicate CanBegin()
      reads this
    {
      root == None && (stack == [] || ExpectsValue())
    }

    /** The preconditions of the methods are json-glib's own guards: a call outside them is a nesting error. */
    method BeginObject()
      requires CanBegin()
      modifies this
      ensures stack == [InObject([], None)] + old(stack) && root == None
    {
      stack := [InObject([], None)] + stack;
    }

    method BeginArray()
      requires CanBegin()
      modifies this
      ensures stack == [InArray([])] + old(stack) && root == None
    {
      stack := [InArray([])] + stack;
    }

    method SetMemberName(name: MemberName)
      requires AtObject()
      modifies this
      ensures stack == [InObject(old(stack)[0].members, Some(name))] + old(stack)[1..] && root == old(root)
    {
      stack := [InObject(stack[0].members, Some(name))] + stack[1..];
    }

    method AddIntValue(n: I64)
      requires ExpectsValue()
      modifies this
      ensures stack == [Put(old(stack)[0], Int(n))] + old(stack)[1..] && root == old(root)
    {
      stack := [Put(stack[0], Int(n))] + stack[1..];
    }

    /** A NULL string is added as null. */
    method AddStringValue(s: Option<CString>)
      requires ExpectsValue()
      modifies this
      ensures stack == [Put(old(stack)[0], StringNode(s))] + old(stack)[1..] && root == old(root)
    {
      stack := [Put(stack[0], if s.Some? then Str(s.value) else Null)] + stack[1..];
    }

    /** The object under construction holds ms, inside the containers below. */
    ghost predicate Holds(ms: seq<Member>, below: seq<Frame>)
      reads this
    {
      stack == [InObject(ms, None)] + below
    }

    /** The exporter always names a member and adds its value in one go. */
    method AddIntMember(name: MemberName, n: I64, ghost ms: seq<Member>, ghost below: seq<Frame>)
      requires Holds(ms, below) && !Has(ms, name)
      modifies this
      ensures Holds(ms + [Member(name, Int(n))], below) && root == old(root)
    {
      SetNewMember(ms, name, Int(n));
      SetMemberName(name);
      AddIntValue(n);
    }

    method AddStringMember(name: MemberName, s: Option<CString>, ghost ms: seq<Member>, ghost below: seq<Frame>)
      requires Holds(ms, below) && !Has(ms, name)
      modifies this
      ensures Holds(ms + [Member(name, StringNode(s))], below) && root == old(root)
    {
      SetNewMember(ms, name, StringNode(s));
      SetMemberName(name);
      AddStringValue(s);
    }

    method EndObject()
      requires AtObject() && EnclosingExpects()
      modifies this
      ensures Closed(Object(old(stack)[0].members), old(stack)[1..], old(root))
    {
      Close(Object(stack[0].members));
    }

    method EndArray()
      requires stack != [] && stack[0].InArray? && EnclosingExpects()
      modifies this
      ensures Closed(Array(old(stack)[0].elements), old(stack)[1..], old(root))
    {
      Close(Array(stack[0].elements));
    }

    /** The container below the innermost one is waiting for it. */
    predicate EnclosingExpects()
      reads this
    {
      |stack| > 1 ==> stack[1].InArray? || stack[1].pending.Some?
    }

    ghost predicate Closed(n: Node, below: seq<Frame>, before: Option<Node>)
      requires below != [] ==> below[0].InArray? || below[0].pending.Some?
      reads this
    {
      if below == [] then stack == [] && root == Some(n)
      else stack == [Put(below[0], n)] + below[1..] && root == before
    }

    method Close(n: Node)
      requires stack != [] && EnclosingExpects()
      modifies this
      ensures Closed(n, old(stack)[1..], old(root))
    {
      if |stack| == 1 {
        stack, root := [], Some(n);
      } else {
        stack := [Put(stack[1], n)] + stack[2..];
      }
    }
  }

  function Put(f: Frame, n: Node): Frame
    requires f.InArray? || f.pending.Some?
  {
    match f
    case InArray(es) => InArray(es + [n])
    case InObject(ms, pending) => InObject(SetMember(ms, pending.value, n), None)
  }
}
