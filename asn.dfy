/**
 * Element-level model of the BER streams (ITU-T X.690) the codec reads from
 * and writes to. A byte stream is represented by the sequence of TLV elements
 * whose encodings, laid end to end, make up its octets; the octet size of
 * each element follows X.690 clauses 8.1.2 and 8.1.3 so that a declared
 * length is counted in octets, as on the wire.
 */
module Asn {
  import opened Wrappers

  type Octet = x: int | 0 <= x < 256

  /** Java's `int`. */
  type Int32 = x: int | -0x8000_0000 <= x < 0x8000_0000

  /** The four tag classes of X.690 clause 8.1.2.2. */
  datatype TagClass = Universal | Application | ContextSpecific | Private

  /** Universal tag number of SEQUENCE (X.690 clause 8.9). */
  const SequenceTag: nat := 16

  /** The contents octets of an element: raw octets (primitive) or nested elements (constructed). */
  datatype Content = Primitive(octets: seq<Octet>) | Constructed(elems: seq<Elem>)

  datatype Elem = Elem(tagClass: TagClass, tag: nat, content: Content)

  // ---------------------------------------------------------------------------
  // Octet sizes

  function Base128Digits(n: nat): (k: nat)
    ensures k >= 1
  {
    if n < 128 then 1 else 1 + Base128Digits(n / 128)
  }

  function Base256Digits(n: nat): (k: nat)
    ensures k >= 1
  {
    if n < 256 then 1 else 1 + Base256Digits(n / 256)
  }

  /** Identifier octets: one for tag numbers up to 30, else a leading octet and base-128 digits (X.690 clause 8.1.2). */
  function IdentifierOctets(tag: nat): (k: nat)
    ensures k >= 1
  {
    if tag <= 30 then 1 else 1 + Base128Digits(tag)
  }

  /** Definite-length octets: short form up to 127, else long form (X.690 clause 8.1.3). */
  function LengthOctets(len: nat): (k: nat)
    ensures k >= 1
  {
    if len <= 127 then 1 else 1 + Base256Digits(len)
  }

  /** Octets taken by the whole TLV encoding of e. */
  function Size(e: Elem): (n: nat)
    ensures n >= 2
    decreases e, 1
  {
    IdentifierOctets(e.tag) + LengthOctets(ContentSize(e.content)) + ContentSize(e.content)
  }

  function ContentSize(c: Content): nat
    decreases c, 0
  {
    match c
    case Primitive(o) => |o|
    case Constructed(es) => TotalSize(es)
  }

  /** Octets taken by a sequence of elements laid end to end. */
  function TotalSize(es: seq<Elem>): (n: nat)
    ensures n == 0 <==> es == []
    decreases es, 2
  {
    if es == [] then 0 else Size(es[0]) + TotalSize(es[1..])
  }

  lemma {:induction false} TotalSizeAppend(a: seq<Elem>, b: seq<Elem>)
    ensures TotalSize(a + b) == TotalSize(a) + TotalSize(b)
    decreases |a|
  {
    if a != [] {
      assert (a + b)[1..] == a[1..] + b;
      TotalSizeAppend(a[1..], b);
    } else {
      assert a + b == b;
    }
  }

  /**
   * The bounded sub-stream of `n` octets at the head of `s` and what follows
   * it, or None when `s` holds fewer than `n` octets or the boundary falls
   * inside an element (the truncated element can then not be read).
   */
  function TakeBytes(s: seq<Elem>, n: nat): Option<(seq<Elem>, seq<Elem>)>
    decreases |s|
  {
    if n == 0 then Some(([], s))
    else if s == [] || Size(s[0]) > n then None
    else match TakeBytes(s[1..], n - Size(s[0]))
      case None => None
      case Some(split) => Some(([s[0]] + split.0, split.1))
  }

  /** A successful cut splits `s` into a head of exactly `n` octets and the rest. */
  lemma {:induction false} TakeBytesSplits(s: seq<Elem>, n: nat)
    requires TakeBytes(s, n).Some?
    ensures var split := TakeBytes(s, n).value;
      s == split.0 + split.1 && TotalSize(split.0) == n
    decreases |s|
  {
    if n != 0 {
      TakeBytesSplits(s[1..], n - Size(s[0]));
      var split := TakeBytes(s[1..], n - Size(s[0])).value;
      assert ([s[0]] + split.0)[1..] == split.0;
    }
  }

  /** Conversely, a head of exactly `n` octets is the one the cut returns. */
  lemma {:induction false} TakeBytesExact(c: seq<Elem>, a: seq<Elem>)
    ensures TakeBytes(c + a, TotalSize(c)) == Some((c, a))
    decreases |c|
  {
    if c == [] {
      assert c + a == a;
    } else {
      assert (c + a)[1..] == c[1..] + a;
      TakeBytesExact(c[1..], a);
      assert [c[0]] + c[1..] == c;
    }
  }

  // ---------------------------------------------------------------------------
  // INTEGER contents (X.690 clause 8.3)

  /** Minimal two's-complement octets of v, most significant first (X.690 clause 8.3.2). */
  function IntegerOctets(v: int): (o: seq<Octet>)
    ensures |o| >= 1
    decreases if v < 0 then -v else v
  {
    if -128 <= v < 128 then [v % 256] else IntegerOctets(v / 256) + [v % 256]
  }

  /** The two's-complement value of a non-empty octet string. */
  function SignedValue(o: seq<Octet>): int
    requires |o| >= 1
    decreases |o|
  {
    if |o| == 1 then (if o[0] < 128 then o[0] else o[0] - 256)
    else SignedValue(o[..|o| - 1]) * 256 + o[|o| - 1]
  }

  /** Reading INTEGER contents into a Java `long`: one to eight octets. */
  function IntegerValue(o: seq<Octet>): Option<int>
  {
    if 1 <= |o| <= 8 then Some(SignedValue(o)) else None
  }

  /** Java's `(int)` narrowing of a `long`: the low 32 bits, read as signed. */
  function Wrap32(x: int): (r: Int32)
    ensures (x - r) % 0x1_0000_0000 == 0
    ensures -0x8000_0000 <= x < 0x8000_0000 ==> r == x
  {
    var m := x % 0x1_0000_0000;
    if m >= 0x8000_0000 then m - 0x1_0000_0000 else m
  }

  lemma {:induction false} IntegerOctetsRoundTrip(v: int)
    ensures SignedValue(IntegerOctets(v)) == v
    decreases if v < 0 then -v else v
  {
    if !(-128 <= v < 128) {
      var p := IntegerOctets(v / 256);
      IntegerOctetsRoundTrip(v / 256);
      assert (p + [v % 256])[..|p|] == p;
    }
  }

  lemma {:induction false} IntegerOctetsBound(v: int, k: nat)
    requires -128 * Pow256(k) <= v < 128 * Pow256(k)
    ensures |IntegerOctets(v)| <= k + 1
    decreases k
  {
    if !(-128 <= v < 128) {
      assert k > 0;
      IntegerOctetsBound(v / 256, k - 1);
    }
  }

  function Pow256(k: nat): (p: nat)
    ensures p >= 1
  {
    if k == 0 then 1 else 256 * Pow256(k - 1)
  }

  /** A Java `int` takes one to four contents octets, so reading it back never overflows a `long`. */
  lemma Int32Octets(v: Int32)
    ensures 1 <= |IntegerOctets(v)| <= 4
    ensures IntegerValue(IntegerOctets(v)) == Some(v)
  {
    assert Pow256(3) == 0x100_0000;
    IntegerOctetsBound(v, 3);
    IntegerOctetsRoundTrip(v);
  }

  // ---------------------------------------------------------------------------
  // Input stream (AsnInputStream, not part of this model: an element-level stand-in)

  class InputStream {
    /** The elements not yet consumed; after ReadTag, the first is the one whose tag was read. */
    var rest: seq<Elem>
    /** Class and primitive/constructed bit of the last tag read. */
    var tagClass: TagClass
    var isPrimitive: bool

    constructor (elems: seq<Elem>)
      ensures rest == elems && tagClass == Universal && isPrimitive
    {
      rest := elems;
      tagClass := Universal;
      isPrimitive := true;
    }

    /** available(): the octets left. */
    function Available(): (n: nat)
      reads this
      ensures n == 0 <==> rest == []
    {
      TotalSize(rest)
    }

    /** readTag(): the identifier octets of the next element. */
    method ReadTag() returns (tag: nat)
      requires rest != []
      modifies this`tagClass, this`isPrimitive
      ensures tag == rest[0].tag && tagClass == rest[0].tagClass
      ensures isPrimitive == rest[0].content.Primitive?
    {
      tag := rest[0].tag;
      tagClass := rest[0].tagClass;
      isPrimitive := rest[0].content.Primitive?;
    }

    /**
     * readLength() on the element whose tag was read: the cursor moves onto its
     * contents. Primitive contents are not re-read as elements here.
     */
    method ReadLength() returns (length: Option<nat>)
      requires rest != []
      modifies this`rest
      ensures old(rest[0]).content.Primitive? ==> length == None && rest == old(rest)
      ensures old(rest[0]).content.Constructed? ==>
        length == Some(TotalSize(old(rest[0]).content.elems)) &&
        rest == old(rest[0]).content.elems + old(rest[1..])
    {
      match rest[0].content
      case Primitive(_) =>
        length := None;
      case Constructed(es) =>
        length := Some(TotalSize(es));
        rest := es + rest[1..];
    }

    /** readSequenceStreamData(length): a new stream over the next `length` octets, which this one skips. */
    method ReadSequenceStreamData(length: nat) returns (sub: Option<InputStream>)
      modifies this`rest
      ensures TakeBytes(old(rest), length).None? ==> sub == None && rest == old(rest)
      ensures TakeBytes(old(rest), length).Some? ==>
        sub.Some? && fresh(sub.value) &&
        sub.value.rest == TakeBytes(old(rest), length).value.0 &&
        rest == TakeBytes(old(rest), length).value.1
    {
      match TakeBytes(rest, length)
      case None =>
        sub := None;
      case Some(split) =>
        var s := new InputStream(split.0);
        rest := split.1;
        sub := Some(s);
    }

    /** readInteger() on the element whose tag was read. */
    method ReadInteger() returns (v: Option<int>)
      requires rest != []
      modifies this`rest
      ensures rest == old(rest[1..])
      ensures old(rest[0]).content.Primitive? ==> v == IntegerValue(old(rest[0]).content.octets)
      ensures old(rest[0]).content.Constructed? ==> v == None
    {
      v := match rest[0].content
        case Primitive(o) => IntegerValue(o)
        case Constructed(_) => None;
      rest := rest[1..];
    }

    /** advanceElement(): skip the element whose tag was read. */
    method AdvanceElement()
      requires rest != []
      modifies this`rest
      ensures rest == old(rest[1..])
    {
      rest := rest[1..];
    }
  }

  // ---------------------------------------------------------------------------
  // Output stream (AsnOutputStream, not part of this model: an element-level stand-in)

  /** A constructed element whose length octets are reserved but not yet written. */
  datatype Frame = Frame(tagClass: TagClass, tag: nat, children: seq<Elem>)

  function Close(f: Frame): Elem
  {
    Elem(f.tagClass, f.tag, Constructed(f.children))
  }

  /** Writer state after e is written: into the innermost open frame, or at top level. */
  function Emit(done: seq<Elem>, open: seq<Frame>, e: Elem): (seq<Elem>, seq<Frame>)
  {
    if open == [] then (done + [e], open)
    else
      var f := open[|open| - 1];
      (done, open[..|open| - 1] + [f.(children := f.children + [e])])
  }

  /** Writer state after es are written one after the other. */
  function EmitAll(done: seq<Elem>, open: seq<Frame>, es: seq<Elem>): (seq<Elem>, seq<Frame>)
    decreases |es|
  {
    if es == [] then (done, open)
    else
      var next := Emit(done, open, es[0]);
      EmitAll(next.0, next.1, es[1..])
  }

  /** Whatever is written while a frame is innermost becomes that frame's contents, in order. */
  lemma {:induction false} EmitAllIntoFrame(done: seq<Elem>, open: seq<Frame>, f: Frame, es: seq<Elem>)
    ensures EmitAll(done, open + [f], es) == (done, open + [f.(children := f.children + es)])
    decreases |es|
  {
    if es == [] {
      assert f.children + es == f.children;
    } else {
      var f' := f.(children := f.children + [es[0]]);
      assert (open + [f])[..|open + [f]| - 1] == open;
      assert Emit(done, open + [f], es[0]) == (done, open + [f']);
      EmitAllIntoFrame(done, open, f', es[1..]);
      assert f'.children + es[1..] == f.children + es;
    }
  }

  class OutputStream {
    /** Complete top-level elements written so far. */
    var done: seq<Elem>
    /** Open constructed elements, innermost last; each holds a reserved length. */
    var open: seq<Frame>

    constructor ()
      ensures done == [] && open == []
    {
      done := [];
      open := [];
    }

    /** writeTag(tagClass, false, tag) followed by StartContentDefiniteLength(). */
    method StartConstructed(tagClass: TagClass, tag: nat) returns (pos: nat)
      modifies this
      ensures pos == |old(open)|
      ensures done == old(done) && open == old(open) + [Frame(tagClass, tag, [])]
    {
      pos := |open|;
      open := open + [Frame(tagClass, tag, [])];
    }

    /** FinalizeContent(pos): back-patch the length reserved at `pos` with the contents' size. */
    method FinalizeContent(pos: nat)
      requires pos + 1 == |open|
      modifies this
      ensures (done, open) == Emit(old(done), old(open[..pos]), Close(old(open[pos])))
    {
      var e := Close(open[pos]);
      var next := Emit(done, open[..pos], e);
      done, open := next.0, next.1;
    }

    /** Write one complete primitive element. */
    method WritePrimitive(tagClass: TagClass, tag: nat, octets: seq<Octet>)
      modifies this
      ensures (done, open) == Emit(old(done), old(open), Elem(tagClass, tag, Primitive(octets)))
    {
      var next := Emit(done, open, Elem(tagClass, tag, Primitive(octets)));
      done, open := next.0, next.1;
    }

    /** writeInteger(tagClass, tag, v). */
    method WriteInteger(tagClass: TagClass, tag: nat, v: Int32)
      modifies this
      ensures (done, open) == Emit(old(done), old(open), Elem(tagClass, tag, Primitive(IntegerOctets(v))))
    {
      WritePrimitive(tagClass, tag, IntegerOctets(v));
    }
  }
}
