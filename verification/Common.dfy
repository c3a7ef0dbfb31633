/** Bytes, C strings and the integer widths shared by every component. */
module Common {

  datatype Option<+T> = None | Some(value: T)

  type Byte = x: int | 0 <= x < 256
  type Bytes = seq<Byte>

  /** guint32, and every C enum of the library. */
  type U32 = x: int | 0 <= x < 0x1_0000_0000

  /** guint64. */
  type U64 = x: int | 0 <= x < 0x1_0000_0000_0000_0000

  /** gint64. */
  type I64 = x: int | -0x8000_0000_0000_0000 <= x < 0x8000_0000_0000_0000

  const MAXUINT32: U32 := 0xFFFF_FFFF
  const MAXUINT64: U64 := 0xFFFF_FFFF_FFFF_FFFF

  const NUL: Byte := 0

  /** A NUL-terminated string, without its terminator. */
  type CString = s: Bytes | NUL !in s

  /** The bytes before the first NUL. */
  function CutAtNul(b: Bytes): (s: CString)
    ensures s <= b
    ensures |s| < |b| ==> b[|s|] == NUL
    ensures NUL !in b ==> s == b
  {
    if b == [] || b[0] == NUL then [] else [b[0]] + CutAtNul(b[1..])
  }

  /**
   * A GBytes.  One made by g_bytes_new from nothing has no buffer: g_bytes_get_data gives NULL, and g_strndup of
   * that is NULL, not an empty string.
   */
  datatype GBytes = NoBuffer | Buffer(bytes: Bytes)

  /** g_bytes_new, which copies; g_bytes_new_take keeps even an empty buffer. */
  function BytesNew(b: Bytes): (g: GBytes)
    ensures Content(g) == b
  {
    if b == [] then NoBuffer else Buffer(b)
  }

  function Content(g: GBytes): Bytes
  {
    if g.Buffer? then g.bytes else []
  }

  /** g_strndup over a whole GBytes. */
  function Strndup(g: GBytes): Option<CString>
  {
    if g.Buffer? then Some(CutAtNul(g.bytes)) else None
  }

  /** A C conversion of a gint64 to a 32-bit unsigned type. */
  function ToU32(n: int): (r: U32)
    ensures (n - r) % 0x1_0000_0000 == 0
    ensures 0 <= n < 0x1_0000_0000 ==> r == n
  {
    n % 0x1_0000_0000
  }

  ghost predicate NoDuplicates<T>(s: seq<T>)
  {
    forall i, j :: 0 <= i < j < |s| ==> s[i] != s[j]
  }

  lemma SplitLast<T>(s: seq<T>)
    requires s != []
    ensures s == s[..|s| - 1] + [s[|s| - 1]]
  {}

  lemma TakeAll<T>(s: seq<T>)
    ensures s[..|s|] == s
  {}

  lemma TakeTake<T>(s: seq<T>, n: nat, k: nat)
    requires k <= n <= |s|
    ensures s[..n][..k] == s[..k]
  {}

  lemma ConcatAssoc<T>(a: seq<T>, b: seq<T>, c: seq<T>)
    ensures (a + b) + c == a + (b + c)
  {}

  /** s can be obtained from t by deleting elements. */
  ghost predicate Subsequence<T>(s: seq<T>, t: seq<T>)
    decreases |t|
  {
    s == [] ||
    (t != [] && ((s[0] == t[0] && Subsequence(s[1..], t[1..])) || Subsequence(s, t[1..])))
  }

  lemma {:induction false} SubsequenceRefl<T>(s: seq<T>)
    ensures Subsequence(s, s)
    decreases |s|
  {
    if s != [] { SubsequenceRefl(s[1..]); }
  }

  /** Deletion can happen on both sides of a concatenation. */
  lemma {:induction false} SubsequenceConcat<T>(a: seq<T>, b: seq<T>, c: seq<T>, d: seq<T>)
    requires Subsequence(a, b) && Subsequence(c, d)
    ensures Subsequence(a + c, b + d)
    decreases |b|
  {
    if b == [] {
      assert a + c == c && b + d == d;
    } else {
      assert (b + d)[1..] == b[1..] + d;
      if a != [] && a[0] == b[0] && Subsequence(a[1..], b[1..]) {
        assert (a + c)[1..] == a[1..] + c;
        SubsequenceConcat(a[1..], b[1..], c, d);
      } else {
        SubsequenceConcat(a, b[1..], c, d);
      }
    }
  }

  /** Reads every element, or nothing when one of them cannot be read. */
  function DecodeAll<A, B>(xs: seq<A>, f: (A, nat) -> Option<B>): (r: Option<seq<B>>)
    ensures r.Some? ==> |r.value| == |xs|
  {
    if xs == [] then Some([])
    else
      var n := |xs| - 1;
      var front, last := DecodeAll(xs[..n], f), f(xs[n], n);
      if front == None || last == None then None else Some(front.value + [last.value])
  }

  lemma {:induction false} DecodeAllFails<A, B>(xs: seq<A>, f: (A, nat) -> Option<B>, i: nat)
    requires i < |xs| && f(xs[i], i) == None
    ensures DecodeAll(xs, f) == None
  {
    if i + 1 < |xs| { DecodeAllFails(xs[..|xs| - 1], f, i); }
  }

  lemma {:induction false} DecodeAllCulprit<A, B>(xs: seq<A>, f: (A, nat) -> Option<B>) returns (i: nat)
    requires DecodeAll(xs, f) == None
    ensures i < |xs| && f(xs[i], i) == None
  {
    var n := |xs| - 1;
    if f(xs[n], n) == None { i := n; } else { i := DecodeAllCulprit(xs[..n], f); }
  }

  lemma {:induction false} DecodedElements<A, B>(xs: seq<A>, f: (A, nat) -> Option<B>)
    requires DecodeAll(xs, f).Some?
    ensures forall i :: 0 <= i < |xs| ==> f(xs[i], i) == Some(DecodeAll(xs, f).value[i])
  {
    if xs != [] { DecodedElements(xs[..|xs| - 1], f); }
  }
}
