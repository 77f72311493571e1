/**
 * The digit-string value carried as the calling address. DigitsImpl, its
 * codec, is not part of this model: a digits value is its contents octets
 * plus the generic-number mark, which the codec's user sets after decoding
 * and which is not carried on the wire.
 */
module Isup {
  import opened Wrappers
  import opened Asn

  datatype Digits = Digits(data: seq<Octet>, isGenericNumber: bool)

  /** A freshly constructed DigitsImpl, before anything is decoded into it. */
  const NoDigits := Digits([], false)

  /** setIsGenericNumber(). */
  function SetIsGenericNumber(d: Digits): (r: Digits)
    ensures r.isGenericNumber && r.data == d.data
  {
    d.(isGenericNumber := true)
  }

  /** The digits read from an element's contents: its octets when primitive. */
  function DigitsOf(c: Content): Option<Digits>
  {
    match c
    case Primitive(o) => Some(Digits(o, false))
    case Constructed(_) => None
  }

  /** The element DigitsImpl.encodeAll(asnOs, tagClass, tag) writes. */
  function DigitsElem(d: Digits, tagClass: TagClass, tag: nat): Elem
  {
    Elem(tagClass, tag, Primitive(d.data))
  }

  /** DigitsImpl.decodeAll(ais) on the element whose tag was read. */
  method DecodeAll(ais: InputStream) returns (d: Option<Digits>)
    requires ais.rest != []
    modifies ais`rest
    ensures ais.rest == old(ais.rest[1..])
    ensures d == DigitsOf(old(ais.rest[0]).content)
  {
    d := DigitsOf(ais.rest[0].content);
    ais.AdvanceElement();
  }

  /** DigitsImpl.encodeAll(asnOs, tagClass, tag). */
  method EncodeAll(d: Digits, asnOs: OutputStream, tagClass: TagClass, tag: nat)
    modifies asnOs
    ensures (asnOs.done, asnOs.open) == Emit(old(asnOs.done), old(asnOs.open), DigitsElem(d, tagClass, tag))
  {
    asnOs.WritePrimitive(tagClass, tag, d.data);
  }
}
