/**
 * What the CallingAddressAndService codec promises: skip rules, last write
 * wins, order independence, the mandatory and primitive checks, and the
 * round trip through the encoder.
 */
module GapProperties {
  import opened Wrappers
  import opened Asn
  import opened Isup
  import opened Gap

  // ---------------------------------------------------------------------------
  // An independent account of what the decoding loop computes

  predicate IsAddressElem(e: Elem)
  {
    e.tagClass == ContextSpecific && e.tag == CallingAddressValueId
  }

  predicate IsKeyElem(e: Elem)
  {
    e.tagClass == ContextSpecific && e.tag == ServiceKeyId
  }

  /** Elements the loop passes over with advanceElement. */
  predicate Skipped(e: Elem)
  {
    !IsAddressElem(e) && !IsKeyElem(e)
  }

  /** Elements the loop reads without an exception. */
  predicate Accepted(e: Elem)
  {
    (IsAddressElem(e) ==> e.content.Primitive?) &&
    (IsKeyElem(e) ==> e.content.Primitive? && 1 <= |e.content.octets| <= 8)
  }

  predicate AllAccepted(es: seq<Elem>)
  {
    forall i | 0 <= i < |es| :: Accepted(es[i])
  }

  /** The digits of the last primitive address element, marked as a generic number. */
  function LastAddress(es: seq<Elem>): (r: Option<Digits>)
    ensures r.Some? ==> r.value.isGenericNumber
    decreases |es|
  {
    if es == [] then None
    else
      var later := LastAddress(es[1..]);
      if later.Some? then later
      else if IsAddressElem(es[0]) && es[0].content.Primitive? then Some(Digits(es[0].content.octets, true))
      else None
  }

  /** The value of the last readable service key element, narrowed to 32 bits. */
  function LastKey(es: seq<Elem>): Option<Int32>
    decreases |es|
  {
    if es == [] then None
    else
      var later := LastKey(es[1..]);
      if later.Some? then later
      else if IsKeyElem(es[0]) && es[0].content.Primitive? && 1 <= |es[0].content.octets| <= 8 then
        Some(Wrap32(SignedValue(es[0].content.octets)))
      else None
  }

  /** The fields v overwritten by whatever es carries. */
  function Overlay(v: ParameterValue, es: seq<Elem>): ParameterValue
  {
    ParameterValue(
      if LastAddress(es).Some? then LastAddress(es) else v.callingAddressValue,
      if LastKey(es).Some? then LastKey(es).value else v.serviceKey)
  }

  /** The value with its address, if any, marked as a generic number. */
  function Marked(v: ParameterValue): ParameterValue
  {
    match v.callingAddressValue
    case None => v
    case Some(d) => v.(callingAddressValue := Some(SetIsGenericNumber(d)))
  }

  // ---------------------------------------------------------------------------
  // The loop, element by element

  /** Running the loop over p + q is running it over p, then over q from where p left off. */
  lemma {:induction false} ScanConcat(p: seq<Elem>, q: seq<Elem>, v: ParameterValue)
    ensures ScanFrom(p + q, v) ==
      match ScanFrom(p, v)
      case Failed(at, c) => Failed(at, c)
      case Running(w) => ScanFrom(q, w)
    decreases |p|
  {
    if p == [] {
      assert p + q == q;
    } else {
      assert (p + q)[0] == p[0];
      assert (p + q)[1..] == p[1..] + q;
      match Absorb(v, p[0])
      case Failed(_, _) =>
      case Running(w) => ScanConcat(p[1..], q, w);
    }
  }

  /** Over accepted elements the loop never throws and ends with each field's last write. */
  lemma {:induction false} ScanAccepted(es: seq<Elem>, v: ParameterValue)
    requires AllAccepted(es)
    ensures ScanFrom(es, v) == Running(Overlay(v, es))
    decreases |es|
  {
    if es != [] {
      assert Accepted(es[0]);
      var w := Absorb(v, es[0]).value;
      assert AllAccepted(es[1..]) by {
        forall i | 0 <= i < |es[1..]| ensures Accepted(es[1..][i]) {
          assert es[1..][i] == es[i + 1];
        }
      }
      ScanAccepted(es[1..], w);
    }
  }

  /** An element the loop cannot read stops it with an exception. */
  lemma {:induction false} ScanRejected(es: seq<Elem>, v: ParameterValue, i: nat)
    requires i < |es| && !Accepted(es[i])
    ensures ScanFrom(es, v).Failed?
    decreases i
  {
    if i > 0 {
      match Absorb(v, es[0])
      case Failed(_, _) =>
      case Running(w) =>
        assert es[1..][i - 1] == es[i];
        ScanRejected(es[1..], w, i - 1);
    }
  }

  // ---------------------------------------------------------------------------
  // Decoding

  /**
   * Decoding succeeds exactly when every element is readable and the last
   * service key read is non-zero; the result is each field's last write.
   */
  lemma DecodeSucceedsIff(es: seq<Elem>)
    ensures DecodeContent(es).0 == Pass <==>
      AllAccepted(es) && LastKey(es).Some? && LastKey(es).value != 0
    ensures DecodeContent(es).0 == Pass ==>
      DecodeContent(es).1 == ParameterValue(LastAddress(es), LastKey(es).value)
  {
    if AllAccepted(es) {
      ScanAccepted(es, Unset);
    } else {
      var i :| 0 <= i < |es| && !Accepted(es[i]);
      ScanRejected(es, Unset, i);
    }
  }

  /** A decoded address always carries the generic-number mark. */
  lemma DecodedAddressIsGenericNumber(es: seq<Elem>)
    ensures DecodeContent(es).0 == Pass && DecodeContent(es).1.callingAddressValue.Some? ==>
      DecodeContent(es).1.callingAddressValue.value.isGenericNumber
  {
    DecodeSucceedsIff(es);
  }

  /** Inserting an element of another class, or of a context tag other than 0 and 1, changes nothing. */
  lemma SkippedElementIsInvisible(a: seq<Elem>, x: Elem, b: seq<Elem>)
    requires Skipped(x)
    ensures DecodeContent(a + [x] + b) == DecodeContent(a + b)
  {
    assert a + [x] + b == a + ([x] + b);
    ScanConcat(a, [x] + b, Unset);
    ScanConcat(a, b, Unset);
    match ScanFrom(a, Unset)
    case Failed(_, _) =>
    case Running(w) =>
      assert ([x] + b)[0] == x && ([x] + b)[1..] == b;
  }

  /** A constructed service key element makes decoding fail; NotPrimitive when nothing failed before it. */
  lemma ConstructedServiceKeyRejected(a: seq<Elem>, e: Elem, b: seq<Elem>)
    requires IsKeyElem(e) && e.content.Constructed?
    ensures DecodeContent(a + [e] + b).0.Fail?
    ensures AllAccepted(a) ==> DecodeContent(a + [e] + b).0 == Fail(MistypedParameter(NotPrimitive))
  {
    ScanRejected(a + [e] + b, Unset, |a|);
    if AllAccepted(a) {
      assert a + [e] + b == a + ([e] + b);
      ScanConcat(a, [e] + b, Unset);
      ScanAccepted(a, Unset);
      assert ([e] + b)[0] == e;
    }
  }

  /** An absent or zero service key makes decoding fail; ServiceKeyMissing when every element was read. */
  lemma MissingServiceKeyRejected(es: seq<Elem>)
    requires LastKey(es).None? || LastKey(es) == Some(0)
    ensures DecodeContent(es).0.Fail?
    ensures AllAccepted(es) ==> DecodeContent(es).0 == Fail(MistypedParameter(ServiceKeyMissing))
  {
    DecodeSucceedsIff(es);
    if AllAccepted(es) {
      ScanAccepted(es, Unset);
    }
  }

  /**
   * Only the service key is mandatory: a lone non-zero key decodes, and the
   * calling address stays null.
   */
  lemma KeyOnlyDecodes(k: Int32)
    requires k != 0
    ensures DecodeContent([ServiceKeyElem(k)]) == (Pass, ParameterValue(None, k))
  {
    Int32Octets(k);
    var es := [ServiceKeyElem(k)];
    assert Absorb(Unset, es[0]) == Running(ParameterValue(None, k));
    assert es[1..] == [];
    assert ScanFrom(es, Unset) == ScanFrom([], ParameterValue(None, k));
  }

  /**
   * The key is read as a `long` and cast to `int`: a non-zero wire value
   * whose low 32 bits are zero, such as 2^32, is read as 0 and rejected as
   * missing.
   */
  lemma NarrowedServiceKeyRejected(v: int)
    requires v % 0x1_0000_0000 == 0 && -0x8000_0000_0000_0000 <= v < 0x8000_0000_0000_0000
    ensures DecodeContent([Elem(ContextSpecific, ServiceKeyId, Primitive(IntegerOctets(v)))]) ==
      (Fail(MistypedParameter(ServiceKeyMissing)), Unset)
  {
    assert Pow256(7) == 0x100_0000_0000_0000;
    IntegerOctetsBound(v, 7);
    IntegerOctetsRoundTrip(v);
    var es := [Elem(ContextSpecific, ServiceKeyId, Primitive(IntegerOctets(v)))];
    assert Wrap32(v) == 0;
    assert Absorb(Unset, es[0]) == Running(Unset);
    assert es[1..] == [];
    assert ScanFrom(es, Unset) == ScanFrom([], Unset);
  }

  /** The instance 2^32 = 0x1_0000_0000, non-zero on the wire. */
  lemma WireKeyTwoToThe32Rejected()
    ensures IntegerOctets(0x1_0000_0000) == [1, 0, 0, 0, 0]
    ensures DecodeContent([Elem(ContextSpecific, ServiceKeyId, Primitive([1, 0, 0, 0, 0]))]) ==
      (Fail(MistypedParameter(ServiceKeyMissing)), Unset)
  {
    NarrowedServiceKeyRejected(0x1_0000_0000);
  }

  // ---------------------------------------------------------------------------
  // Last write wins, order independence

  lemma {:induction false} LastKeyConcat(p: seq<Elem>, q: seq<Elem>)
    ensures LastKey(p + q) == if LastKey(q).Some? then LastKey(q) else LastKey(p)
    decreases |p|
  {
    if p == [] {
      assert p + q == q;
    } else {
      assert (p + q)[0] == p[0] && (p + q)[1..] == p[1..] + q;
      LastKeyConcat(p[1..], q);
    }
  }

  lemma {:induction false} LastAddressConcat(p: seq<Elem>, q: seq<Elem>)
    ensures LastAddress(p + q) == if LastAddress(q).Some? then LastAddress(q) else LastAddress(p)
    decreases |p|
  {
    if p == [] {
      assert p + q == q;
    } else {
      assert (p + q)[0] == p[0] && (p + q)[1..] == p[1..] + q;
      LastAddressConcat(p[1..], q);
    }
  }

  lemma AllAcceptedConcat(p: seq<Elem>, q: seq<Elem>)
    ensures AllAccepted(p + q) <==> AllAccepted(p) && AllAccepted(q)
  {
    if AllAccepted(p) && AllAccepted(q) {
      forall i | 0 <= i < |p + q| ensures Accepted((p + q)[i]) {
        if i >= |p| {
          assert (p + q)[i] == q[i - |p|];
        }
      }
    }
    if AllAccepted(p + q) {
      forall i | 0 <= i < |p| ensures Accepted(p[i]) {
        assert p[i] == (p + q)[i];
      }
      forall i | 0 <= i < |q| ensures Accepted(q[i]) {
        assert q[i] == (p + q)[i + |p|];
      }
    }
  }

  /**
   * A tail that carries both fields decides the result alone: repeated tags
   * overwrite what came before (last write wins).
   */
  lemma LaterFieldsOverride(a: seq<Elem>, b: seq<Elem>)
    requires AllAccepted(a) && AllAccepted(b)
    requires LastAddress(b).Some? && LastKey(b).Some?
    ensures DecodeContent(a + b) == DecodeContent(b)
  {
    AllAcceptedConcat(a, b);
    LastKeyConcat(a, b);
    LastAddressConcat(a, b);
    ScanAccepted(a + b, Unset);
    ScanAccepted(b, Unset);
  }

  lemma DropNonKey(a: seq<Elem>, x: Elem, b: seq<Elem>)
    requires !IsKeyElem(x)
    ensures LastKey(a + [x] + b) == LastKey(a + b)
  {
    assert a + [x] + b == a + ([x] + b);
    LastKeyConcat(a, [x] + b);
    LastKeyConcat([x], b);
    LastKeyConcat(a, b);
    assert [x][1..] == [];
  }

  lemma DropNonAddress(a: seq<Elem>, x: Elem, b: seq<Elem>)
    requires !IsAddressElem(x)
    ensures LastAddress(a + [x] + b) == LastAddress(a + b)
  {
    assert a + [x] + b == a + ([x] + b);
    LastAddressConcat(a, [x] + b);
    LastAddressConcat([x], b);
    LastAddressConcat(a, b);
    assert [x][1..] == [];
  }

  lemma AllAcceptedAround(a: seq<Elem>, x: Elem, y: Elem, b: seq<Elem>)
    ensures AllAccepted(a + [x, y] + b) <==> AllAccepted(a) && Accepted(x) && Accepted(y) && AllAccepted(b)
  {
    assert a + [x, y] + b == a + ([x, y] + b);
    AllAcceptedConcat(a, [x, y] + b);
    AllAcceptedConcat([x, y], b);
    assert AllAccepted([x, y]) <==> Accepted(x) && Accepted(y) by {
      assert [x, y][0] == x && [x, y][1] == y;
    }
  }

  /** Swapping an adjacent address element and service key element does not change a successful decode. */
  lemma AddressAndKeyCommute(a: seq<Elem>, x: Elem, y: Elem, b: seq<Elem>)
    requires IsAddressElem(x) && IsKeyElem(y)
    ensures DecodeContent(a + [x, y] + b).0 == Pass <==> DecodeContent(a + [y, x] + b).0 == Pass
    ensures DecodeContent(a + [x, y] + b).0 == Pass ==>
      DecodeContent(a + [x, y] + b).1 == DecodeContent(a + [y, x] + b).1
  {
    var s1, s2 := a + [x, y] + b, a + [y, x] + b;
    DecodeSucceedsIff(s1);
    DecodeSucceedsIff(s2);
    AllAcceptedAround(a, x, y, b);
    AllAcceptedAround(a, y, x, b);
    assert s1 == a + [x] + ([y] + b) == (a + [x]) + [y] + b;
    assert s2 == (a + [y]) + [x] + b == a + [y] + ([x] + b);
    DropNonKey(a, x, [y] + b);
    DropNonKey(a + [y], x, b);
    DropNonAddress(a + [x], y, b);
    DropNonAddress(a, y, [x] + b);
    assert a + ([y] + b) == (a + [y]) + b;
    assert (a + [x]) + b == a + ([x] + b);
  }

  // ---------------------------------------------------------------------------
  // Encoding

  /** Decoding what encodeData writes gives the value back, with the address marked as a generic number. */
  lemma EncodeDecodeRoundTrip(v: ParameterValue)
    requires v.callingAddressValue.Some? && v.serviceKey != 0
    ensures EncodeContent(v).Ok?
    ensures DecodeContent(EncodeContent(v).value) == (Pass, Marked(v))
    ensures v.callingAddressValue.value.isGenericNumber ==> DecodeContent(EncodeContent(v).value) == (Pass, v)
  {
    Int32Octets(v.serviceKey);
    var d := v.callingAddressValue.value;
    var es := EncodeContent(v).value;
    var first := ParameterValue(Some(SetIsGenericNumber(d)), 0);
    assert Absorb(Unset, es[0]) == Running(first);
    assert Absorb(first, es[1]) == Running(Marked(v));
    assert es[1..][1..] == [];
    assert ScanFrom(es[1..], first) == Running(Marked(v));
  }

  /** The two fields decode the same in either order. */
  lemma SwappedEncodingDecodesAlike(v: ParameterValue)
    requires v.callingAddressValue.Some? && v.serviceKey != 0
    ensures var es := EncodeContent(v).value;
      DecodeContent([es[1], es[0]]) == (Pass, Marked(v))
  {
    EncodeDecodeRoundTrip(v);
    var es := EncodeContent(v).value;
    AddressAndKeyCommute([], es[0], es[1], []);
    assert [] + [es[0], es[1]] + [] == es;
    assert [] + [es[1], es[0]] + [] == [es[1], es[0]];
  }

  /** A zero service key is encoded without complaint, and decoding those bytes fails. */
  lemma ZeroServiceKeyEncodesButIsRejected(d: Digits)
    ensures EncodeContent(ParameterValue(Some(d), 0)).Ok?
    ensures DecodeContent(EncodeContent(ParameterValue(Some(d), 0)).value) ==
      (Fail(MistypedParameter(ServiceKeyMissing)), ParameterValue(Some(SetIsGenericNumber(d)), 0))
  {
    Int32Octets(0);
    var es := EncodeContent(ParameterValue(Some(d), 0)).value;
    var first := ParameterValue(Some(SetIsGenericNumber(d)), 0);
    assert Absorb(Unset, es[0]) == Running(first);
    assert Absorb(first, es[1]) == Running(first);
    assert es[1..][1..] == [];
    assert ScanFrom(es[1..], first) == Running(first);
  }

  /**
   * Through the streams: encodeAll into an empty output stream, then a reader
   * reads the SEQUENCE identifier and calls decodeAll.
   */
  method EncodeAllThenDecodeAll(d: Digits, key: Int32) returns (decoded: Outcome<DecodeError>, result: ParameterValue)
    ensures decoded == Pass <==> key != 0
    ensures decoded == Pass ==> result == ParameterValue(Some(SetIsGenericNumber(d)), key)
    ensures decoded != Pass ==> decoded == Fail(MistypedParameter(ServiceKeyMissing))
  {
    var p := new CallingAddressAndService(Some(d), key);
    var os := new OutputStream();
    var encoded := p.EncodeAll(os);
    assert os.done == [Elem(Universal, SequenceTag, Constructed(EncodeContent(p.Snapshot()).value))];

    var reader := new InputStream(os.done);
    var tag := reader.ReadTag();
    assert tag == SequenceTag && reader.tagClass == Universal && !reader.isPrimitive;
    var q := new CallingAddressAndService.Empty();
    decoded := q.DecodeAll(reader);
    result := q.Snapshot();

    if key != 0 {
      EncodeDecodeRoundTrip(ParameterValue(Some(d), key));
    } else {
      ZeroServiceKeyEncodesButIsRejected(d);
    }
  }
}
