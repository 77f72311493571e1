/**
 * The CAP CallingAddressAndService parameter (3GPP TS 29.078, call-gap
 * criteria): a SEQUENCE of a calling address `[0]` (a generic number) and a
 * service key `[1] INTEGER`, with its BER decoder and encoder.
 */
module Gap {
  import opened Wrappers
  import opened Asn
  import opened Isup

  /** Context tag numbers of the two fields. */
  const CallingAddressValueId: nat := 0
  const ServiceKeyId: nat := 1

  /** The two fields of the parameter; `serviceKey == 0` also stands for "not set". */
  datatype ParameterValue = ParameterValue(callingAddressValue: Option<Digits>, serviceKey: Int32)

  /** Both fields cleared, as decoding starts. */
  const Unset := ParameterValue(None, 0)

  /** Why a decode fails; all of them are reported as a mistyped parameter. */
  datatype Cause =
    | StreamError        // an IOException or AsnException from the stream or DigitsImpl
    | NotPrimitive       // the service key element is constructed
    | ServiceKeyMissing  // the service key is absent or zero after the scan

  datatype DecodeError = MistypedParameter(cause: Cause)

  /** The CAPException that encoding raises when there is no calling address. */
  datatype EncodeError = CallingAddressMissing

  // ---------------------------------------------------------------------------
  // Decoding, as functions of the sub-stream's elements

  /**
   * Where the decoding loop stands: still running with the fields so far, or
   * stopped by an exception, with the fields as the object then holds them.
   */
  datatype Progress = Running(value: ParameterValue) | Failed(at: ParameterValue, cause: Cause)

  /** One turn of the decoding loop, on element e. */
  function Absorb(v: ParameterValue, e: Elem): Progress
  {
    if e.tagClass != ContextSpecific then Running(v)
    else if e.tag == CallingAddressValueId then
      match DigitsOf(e.content)
      case None => Failed(v.(callingAddressValue := Some(NoDigits)), StreamError)
      case Some(d) => Running(v.(callingAddressValue := Some(SetIsGenericNumber(d))))
    else if e.tag == ServiceKeyId then
      match e.content
      case Constructed(_) => Failed(v, NotPrimitive)
      case Primitive(o) =>
        match IntegerValue(o)
        case None => Failed(v, StreamError)
        case Some(k) => Running(v.(serviceKey := Wrap32(k)))
    else Running(v)
  }

  /** The decoding loop run over es, starting from the fields v. */
  function ScanFrom(es: seq<Elem>, v: ParameterValue): Progress
    decreases |es|
  {
    if es == [] then Running(v)
    else match Absorb(v, es[0])
      case Failed(at, c) => Failed(at, c)
      case Running(w) => ScanFrom(es[1..], w)
  }

  /** Decoding the contents es of the SEQUENCE: the outcome and the fields it leaves. */
  function DecodeContent(es: seq<Elem>): (Outcome<DecodeError>, ParameterValue)
  {
    match ScanFrom(es, Unset)
    case Failed(at, c) => (Fail(MistypedParameter(c)), at)
    case Running(v) =>
      if v.serviceKey == 0 then (Fail(MistypedParameter(ServiceKeyMissing)), v)
      else (Pass, v)
  }

  // ---------------------------------------------------------------------------
  // Encoding, as a function of the value

  /** The service key element, `[1] INTEGER` (X.690 clause 8.3). */
  function ServiceKeyElem(k: Int32): Elem
  {
    Elem(ContextSpecific, ServiceKeyId, Primitive(IntegerOctets(k)))
  }

  /** The elements encodeData writes for v, in order, or the exception it raises. */
  function EncodeContent(v: ParameterValue): Result<seq<Elem>, EncodeError>
  {
    match v.callingAddressValue
    case None => Err(CallingAddressMissing)
    case Some(d) =>
      Ok([DigitsElem(d, ContextSpecific, CallingAddressValueId), ServiceKeyElem(v.serviceKey)])
  }

  // ---------------------------------------------------------------------------
  // The parameter object

  class CallingAddressAndService {
    var callingAddressValue: Option<Digits>
    var serviceKey: Int32

    constructor Empty()
      ensures callingAddressValue == None && serviceKey == 0
    {
      callingAddressValue := None;
      serviceKey := 0;
    }

    constructor (callingAddressValue: Option<Digits>, serviceKey: Int32)
      ensures this.callingAddressValue == callingAddressValue && this.serviceKey == serviceKey
    {
      this.callingAddressValue := callingAddressValue;
      this.serviceKey := serviceKey;
    }

    function GetCallingAddressValue(): (d: Option<Digits>)
      reads this
      ensures d == Snapshot().callingAddressValue
    {
      callingAddressValue
    }

    function GetServiceKey(): (k: Int32)
      reads this
      ensures k == Snapshot().serviceKey
    {
      serviceKey
    }

    /** The universal SEQUENCE tag number. */
    function GetTag(): (tag: nat)
      ensures tag == SequenceTag
    {
      16
    }

    function GetTagClass(): (c: TagClass)
      ensures c == Universal
    {
      Universal
    }

    /** The outer element is a constructed SEQUENCE. */
    function GetIsPrimitive(): (p: bool)
      ensures !p
    {
      false
    }

    /** The fields as a value. */
    function Snapshot(): ParameterValue
      reads this
    {
      ParameterValue(callingAddressValue, serviceKey)
    }

    /**
     * decodeAll: the caller has read the identifier octets of ansIS.rest[0];
     * read its length, then decode its contents.
     */
    method DecodeAll(ansIS: InputStream) returns (r: Outcome<DecodeError>)
      requires ansIS.rest != []
      modifies this, ansIS`rest
      ensures old(ansIS.rest[0]).content.Primitive? ==>
        r == Fail(MistypedParameter(StreamError)) &&
        Snapshot() == old(Snapshot()) && ansIS.rest == old(ansIS.rest)
      ensures old(ansIS.rest[0]).content.Constructed? ==>
        ansIS.rest == old(ansIS.rest[1..]) &&
        (r, Snapshot()) == DecodeContent(old(ansIS.rest[0]).content.elems)
    {
      var length := ansIS.ReadLength();
      if length.None? {
        return Fail(MistypedParameter(StreamError));
      }
      TakeBytesExact(old(ansIS.rest[0]).content.elems, old(ansIS.rest[1..]));
      r := Decode(ansIS, length.value);
    }

    /** decodeData: the caller has read the identifier and length octets. */
    method DecodeData(ansIS: InputStream, length: nat) returns (r: Outcome<DecodeError>)
      modifies this, ansIS`rest
      ensures TakeBytes(old(ansIS.rest), length).None? ==>
        r == Fail(MistypedParameter(StreamError)) && Snapshot() == Unset && ansIS.rest == old(ansIS.rest)
      ensures TakeBytes(old(ansIS.rest), length).Some? ==>
        ansIS.rest == TakeBytes(old(ansIS.rest), length).value.1 &&
        TotalSize(old(ansIS.rest)) == length + TotalSize(ansIS.rest) &&
        (r, Snapshot()) == DecodeContent(TakeBytes(old(ansIS.rest), length).value.0)
    {
      r := Decode(ansIS, length);
    }

    /**
     * _decode: clear both fields, open a sub-stream of `length` octets and
     * run the element loop over it, then check the service key.
     */
    method Decode(ansIS: InputStream, length: nat) returns (r: Outcome<DecodeError>)
      modifies this, ansIS`rest
      ensures TakeBytes(old(ansIS.rest), length).None? ==>
        r == Fail(MistypedParameter(StreamError)) && Snapshot() == Unset && ansIS.rest == old(ansIS.rest)
      ensures TakeBytes(old(ansIS.rest), length).Some? ==>
        ansIS.rest == TakeBytes(old(ansIS.rest), length).value.1 &&
        TotalSize(old(ansIS.rest)) == length + TotalSize(ansIS.rest) &&
        (r, Snapshot()) == DecodeContent(TakeBytes(old(ansIS.rest), length).value.0)
    {
      callingAddressValue := None;
      serviceKey := 0;

      var stream := ansIS.ReadSequenceStreamData(length);
      if stream.None? {
        return Fail(MistypedParameter(StreamError));
      }
      var ais := stream.value;
      ghost var content := ais.rest;
      TakeBytesSplits(old(ansIS.rest), length);
      TotalSizeAppend(content, ansIS.rest);

      while true
        invariant fresh(ais)
        invariant ansIS.rest == TakeBytes(old(ansIS.rest), length).value.1
        invariant ScanFrom(ais.rest, Snapshot()) == ScanFrom(content, Unset)
        decreases |ais.rest|
      {
        if ais.Available() == 0 {
          break;
        }
        ghost var before, v := ais.rest, Snapshot();
        assert ScanFrom(before, v) == match Absorb(v, before[0])
          case Failed(at, c) => Failed(at, c)
          case Running(w) => ScanFrom(before[1..], w);

        var tag := ais.ReadTag();
        if ais.tagClass == ContextSpecific {
          if tag == CallingAddressValueId {
            callingAddressValue := Some(NoDigits);
            var d := Isup.DecodeAll(ais);
            if d.None? {
              return Fail(MistypedParameter(StreamError));
            }
            callingAddressValue := Some(SetIsGenericNumber(d.value));
          } else if tag == ServiceKeyId {
            if !ais.isPrimitive {
              return Fail(MistypedParameter(NotPrimitive));
            }
            var k := ais.ReadInteger();
            if k.None? {
              return Fail(MistypedParameter(StreamError));
            }
            serviceKey := Wrap32(k.value);
          } else {
            ais.AdvanceElement();
          }
        } else {
          ais.AdvanceElement();
        }
      }

      if serviceKey == 0 {
        return Fail(MistypedParameter(ServiceKeyMissing));
      }
      return Pass;
    }

    /** encodeAll(asnOs): the universal SEQUENCE identifier of this parameter. */
    method EncodeAll(asnOs: OutputStream) returns (r: Outcome<EncodeError>)
      modifies asnOs
      ensures EncodeContent(Snapshot()).Err? ==>
        r == Fail(EncodeContent(Snapshot()).error) &&
        asnOs.done == old(asnOs.done) && asnOs.open == old(asnOs.open) + [Frame(Universal, SequenceTag, [])]
      ensures EncodeContent(Snapshot()).Ok? ==>
        r == Pass &&
        (asnOs.done, asnOs.open) ==
          Emit(old(asnOs.done), old(asnOs.open),
               Elem(Universal, SequenceTag, Constructed(EncodeContent(Snapshot()).value)))
    {
      r := EncodeAllTagged(asnOs, GetTagClass(), GetTag());
    }

    /**
     * encodeAll(asnOs, tagClass, tag): a constructed element with a definite
     * length whose contents are what encodeData writes. When encodeData
     * throws, the identifier and the reserved length are already written.
     */
    method EncodeAllTagged(asnOs: OutputStream, tagClass: TagClass, tag: nat) returns (r: Outcome<EncodeError>)
      modifies asnOs
      ensures EncodeContent(Snapshot()).Err? ==>
        r == Fail(EncodeContent(Snapshot()).error) &&
        asnOs.done == old(asnOs.done) && asnOs.open == old(asnOs.open) + [Frame(tagClass, tag, [])]
      ensures EncodeContent(Snapshot()).Ok? ==>
        r == Pass &&
        (asnOs.done, asnOs.open) ==
          Emit(old(asnOs.done), old(asnOs.open), Elem(tagClass, tag, Constructed(EncodeContent(Snapshot()).value)))
    {
      var pos := asnOs.StartConstructed(tagClass, tag);
      r := EncodeData(asnOs);
      if r.Fail? {
        return;
      }
      ghost var es := EncodeContent(Snapshot()).value;
      EmitAllIntoFrame(old(asnOs.done), old(asnOs.open), Frame(tagClass, tag, []), es);
      assert [] + es == es;
      assert asnOs.open == old(asnOs.open) + [Frame(tagClass, tag, es)];
      assert asnOs.open[..pos] == old(asnOs.open);
      asnOs.FinalizeContent(pos);
    }

    /**
     * encodeData: the `[0]` digits element then the `[1]` INTEGER; throws,
     * writing nothing, when the calling address is null. A zero service key
     * is written as it is.
     */
    method EncodeData(asnOs: OutputStream) returns (r: Outcome<EncodeError>)
      modifies asnOs
      ensures EncodeContent(Snapshot()).Err? ==>
        r == Fail(EncodeContent(Snapshot()).error) &&
        asnOs.done == old(asnOs.done) && asnOs.open == old(asnOs.open)
      ensures EncodeContent(Snapshot()).Ok? ==>
        r == Pass &&
        (asnOs.done, asnOs.open) == EmitAll(old(asnOs.done), old(asnOs.open), EncodeContent(Snapshot()).value)
    {
      if callingAddressValue.None? {
        return Fail(CallingAddressMissing);
      }
      ghost var es := EncodeContent(Snapshot()).value;
      ghost var afterFirst := Emit(asnOs.done, asnOs.open, es[0]);
      Isup.EncodeAll(callingAddressValue.value, asnOs, ContextSpecific, CallingAddressValueId);
      asnOs.WriteInteger(ContextSpecific, ServiceKeyId, serviceKey);
      r := Pass;
      assert es[1..] == [es[1]] && es[1..][1..] == [];
      assert EmitAll(afterFirst.0, afterFirst.1, es[1..]) == (asnOs.done, asnOs.open);
    }
  }
}
