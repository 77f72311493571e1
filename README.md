# CallingAddressAndService: a verified model of its BER codec

This project models `CallingAddressAndServiceImpl` from the jSS7 CAP stack.
That class is the BER codec for the CAMEL Application Part parameter
`CallingAddressAndService` (3GPP TS 29.078, used in call-gap criteria). On
the wire the parameter is a universal SEQUENCE that holds two fields:

- `[0]` the calling address, a digit string that is marked as a generic number;
- `[1]` the service key, an INTEGER.

The decoder does four things:

- It clears both fields.
- It opens a sub-stream of exactly the declared length.
- It loops over the elements in that sub-stream:
  - context tag 0 becomes the address;
  - context tag 1 becomes the key, and must be primitive;
  - every other element is skipped.
- It rejects a service key of zero.

The encoder writes the SEQUENCE with a definite length. Its content is always
`[0]` then `[1]`. It refuses a null address. It writes a zero key unchanged.

Files:

- `wrappers.dfy`: `Option`, `Result` and `Outcome`. These stand in for Java's
  `null` and exceptions.
- `asn.dfy` (module `Asn`): the BER streams at the level of elements. A byte
  stream is the sequence of TLV elements whose encodings, laid end to end, make
  up its octets. Each element's octet size follows clauses 8.1.2 and 8.1.3 of
  ITU-T X.690, so a declared length counts octets. The module also holds:
  - the INTEGER contents codec (X.690 clause 8.3);
  - Java's `(int)` narrowing;
  - small stand-ins for `AsnInputStream` and `AsnOutputStream`. The output
    stand-in keeps a stack of open frames, one per reserved length that
    `FinalizeContent` has not yet back-patched.
- `isup.dfy` (module `Isup`): the digits value and a stand-in for the
  `DigitsImpl` calls the codec makes.
- `gap.dfy` (module `Gap`): the class `CallingAddressAndService`, which has
  the fields `callingAddressValue` and `serviceKey`. Its methods mirror the
  source:
  - `Decode` is `_decode`, a `while` loop over the sub-stream;
  - `DecodeAll` and `DecodeData` are the two entry points that reach it;
  - `EncodeAll`, `EncodeAllTagged` and `EncodeData` are the encoder.

  The module also defines the functions that specify these methods:
  - `Absorb` is one turn of the loop;
  - `ScanFrom` runs the loop;
  - `DecodeContent` gives the outcome and the final fields;
  - `EncodeContent` gives the elements `encodeData` writes.

  The getters `GetCallingAddressValue`, `GetServiceKey`, `GetTag`,
  `GetTagClass` and `GetIsPrimitive` are functions. The outer identifier
  they give (universal, 16, constructed) is the one `EncodeAll` writes.
- `properties.dfy` (module `GapProperties`): the properties, proved against a
  separate reference description of a decode. That description has three
  parts:
  - which elements can be read (`Accepted`);
  - the last address written (`LastAddress`);
  - the last key written (`LastKey`).

Behaviours of the code that the model keeps as they are:

- **Fields after a failed decode.** The object's fields are updated in
  place, so after an exception they hold whatever the loop had stored
  (lines 111-147). In the tag-0 branch the field already holds a new, empty
  `DigitsImpl` when `DigitsImpl.decodeAll` throws (lines 126-127).
  `Progress.Failed` records these states.
- **Output after a failed encode.** When `encodeData` throws, `encodeAll` has
  already written the outer identifier and reserved the length (lines
  163-165). `EncodeAllTagged` states that the stream is left with that frame
  open.
- **Only the service key is mandatory.** `_decode` checks the key alone
  (lines 150-154), so a SEQUENCE holding just a non-zero `[1]` decodes, with a
  null calling address (`KeyOnlyDecodes`).
- **The key is narrowed.** The key is read as a `long` and cast to `int`
  (line 137). A wire value such as 2^32 is non-zero, but its low 32 bits are
  zero, so it is read as 0 and rejected as missing
  (`NarrowedServiceKeyRejected`).

## Model

| member | source | states |
|---|---|---|
| `Gap.CallingAddressAndService.constructor` | cap/cap-impl/src/main/java/org/mobicents/protocols/ss7/cap/gap/CallingAddressAndServiceImpl.java:59-62 | the object holds exactly the given address (possibly null) and service key |
| `Gap.CallingAddressAndService.Empty` | cap/cap-impl/src/main/java/org/mobicents/protocols/ss7/cap/gap/CallingAddressAndServiceImpl.java:56-57 | a new object has a null address and a service key of 0 |
| `Gap.CallingAddressAndService.GetCallingAddressValue` | cap/cap-impl/src/main/java/org/mobicents/protocols/ss7/cap/gap/CallingAddressAndServiceImpl.java:64-66 | returns the stored calling address, null included |
| `Gap.CallingAddressAndService.GetServiceKey` | cap/cap-impl/src/main/java/org/mobicents/protocols/ss7/cap/gap/CallingAddressAndServiceImpl.java:68-70 | returns the stored service key |
| `Gap.CallingAddressAndService.GetTag` | cap/cap-impl/src/main/java/org/mobicents/protocols/ss7/cap/gap/CallingAddressAndServiceImpl.java:72-74 | the outer tag number is that of the universal SEQUENCE (16), which `EncodeAll` writes |
| `Gap.CallingAddressAndService.GetTagClass` | cap/cap-impl/src/main/java/org/mobicents/protocols/ss7/cap/gap/CallingAddressAndServiceImpl.java:76-78 | the outer tag class is universal, which `EncodeAll` writes |
| `Gap.CallingAddressAndService.GetIsPrimitive` | cap/cap-impl/src/main/java/org/mobicents/protocols/ss7/cap/gap/CallingAddressAndServiceImpl.java:80-82 | the outer element is constructed, as `EncodeAll` writes it |
| `Gap.CallingAddressAndService.Decode` | cap/cap-impl/src/main/java/org/mobicents/protocols/ss7/cap/gap/CallingAddressAndServiceImpl.java:109-155 | the parent stream advances by exactly the declared length, its remaining octets falling by that number (or not at all, with a stream error and both fields cleared, when that length cannot be cut); the outcome and the new fields are those of `DecodeContent` on the sub-stream, whatever the fields held before |
| `Gap.CallingAddressAndService.DecodeData` | cap/cap-impl/src/main/java/org/mobicents/protocols/ss7/cap/gap/CallingAddressAndServiceImpl.java:97-107 | same as `_decode`; every failure is a single `MistypedParameter` error |
| `Gap.CallingAddressAndService.DecodeAll` | cap/cap-impl/src/main/java/org/mobicents/protocols/ss7/cap/gap/CallingAddressAndServiceImpl.java:84-95 | reads the length of the element whose tag was read, then decodes exactly its contents and moves the stream past it |
| `Gap.CallingAddressAndService.EncodeData` | cap/cap-impl/src/main/java/org/mobicents/protocols/ss7/cap/gap/CallingAddressAndServiceImpl.java:172-186 | with a null address: fails and writes nothing; otherwise writes the `[0]` digits element then the `[1]` INTEGER, including a zero key |
| `Gap.CallingAddressAndService.EncodeAllTagged` | cap/cap-impl/src/main/java/org/mobicents/protocols/ss7/cap/gap/CallingAddressAndServiceImpl.java:161-170 | writes one constructed element of the given class and tag whose contents are exactly what `encodeData` writes (the reserved length is back-patched); on failure, the identifier and the open reserved length remain |
| `Gap.CallingAddressAndService.EncodeAll` | cap/cap-impl/src/main/java/org/mobicents/protocols/ss7/cap/gap/CallingAddressAndServiceImpl.java:157-159 | the same, with the universal SEQUENCE identifier (tag 16, constructed) |
| `GapProperties.ScanConcat` | cap/cap-impl/src/main/java/org/mobicents/protocols/ss7/cap/gap/CallingAddressAndServiceImpl.java:116-148 | running the loop over p + q is running it over p, then over q from the fields p left, unless p threw |
| `GapProperties.ScanAccepted` | cap/cap-impl/src/main/java/org/mobicents/protocols/ss7/cap/gap/CallingAddressAndServiceImpl.java:123-147 | over readable elements the loop never throws and each field ends with its last write, or keeps its value if never written |
| `GapProperties.ScanRejected` | cap/cap-impl/src/main/java/org/mobicents/protocols/ss7/cap/gap/CallingAddressAndServiceImpl.java:125-137 | an unreadable element anywhere (non-primitive key, unreadable digits or integer) makes the loop throw |
| `GapProperties.DecodeSucceedsIff` | cap/cap-impl/src/main/java/org/mobicents/protocols/ss7/cap/gap/CallingAddressAndServiceImpl.java:116-154 | decoding succeeds if and only if every element is readable and the last service key is present and non-zero; on success the fields are the last address and the last key written |
| `GapProperties.LastAddress` | cap/cap-impl/src/main/java/org/mobicents/protocols/ss7/cap/gap/CallingAddressAndServiceImpl.java:125-130 | the reference's last address written always carries the generic-number mark, as line 128 sets it |
| `GapProperties.DecodedAddressIsGenericNumber` | cap/cap-impl/src/main/java/org/mobicents/protocols/ss7/cap/gap/CallingAddressAndServiceImpl.java:125-129 | after a successful decode, a present address is marked as a generic number |
| `GapProperties.SkippedElementIsInvisible` | cap/cap-impl/src/main/java/org/mobicents/protocols/ss7/cap/gap/CallingAddressAndServiceImpl.java:140-147 | inserting an element of a non-context class, or of a context tag other than 0 and 1, anywhere changes neither the outcome nor the fields, failures included |
| `GapProperties.ConstructedServiceKeyRejected` | cap/cap-impl/src/main/java/org/mobicents/protocols/ss7/cap/gap/CallingAddressAndServiceImpl.java:131-136 | a constructed `[1]` element makes decoding fail, with the not-primitive cause when nothing before it failed |
| `GapProperties.MissingServiceKeyRejected` | cap/cap-impl/src/main/java/org/mobicents/protocols/ss7/cap/gap/CallingAddressAndServiceImpl.java:150-154 | an absent `[1]` element and one that carries 0 both make decoding fail, with the mandatory-field cause when every element was read |
| `GapProperties.KeyOnlyDecodes` | cap/cap-impl/src/main/java/org/mobicents/protocols/ss7/cap/gap/CallingAddressAndServiceImpl.java:150-154 | a SEQUENCE holding only a non-zero `[1]` element decodes successfully, leaving the calling address null, since only the key is checked |
| `GapProperties.NarrowedServiceKeyRejected` | cap/cap-impl/src/main/java/org/mobicents/protocols/ss7/cap/gap/CallingAddressAndServiceImpl.java:137 | every key value within a `long` whose low 32 bits are zero, though possibly non-zero on the wire, is cast to 0 and rejected as missing |
| `GapProperties.WireKeyTwoToThe32Rejected` | cap/cap-impl/src/main/java/org/mobicents/protocols/ss7/cap/gap/CallingAddressAndServiceImpl.java:137 | the concrete case: the wire key `01 00 00 00 00` (2^32) is rejected as missing |
| `GapProperties.LastKeyConcat` | cap/cap-impl/src/main/java/org/mobicents/protocols/ss7/cap/gap/CallingAddressAndServiceImpl.java:131-139 | a later service key element overrides every earlier one |
| `GapProperties.LastAddressConcat` | cap/cap-impl/src/main/java/org/mobicents/protocols/ss7/cap/gap/CallingAddressAndServiceImpl.java:125-130 | a later address element overrides every earlier one |
| `GapProperties.LaterFieldsOverride` | cap/cap-impl/src/main/java/org/mobicents/protocols/ss7/cap/gap/CallingAddressAndServiceImpl.java:124-139 | when a readable tail carries both fields, whatever readable elements precede it do not change the decoded result (last write wins) |
| `GapProperties.AddressAndKeyCommute` | cap/cap-impl/src/main/java/org/mobicents/protocols/ss7/cap/gap/CallingAddressAndServiceImpl.java:123-147 | swapping an adjacent address element and key element changes neither whether decoding succeeds nor the decoded fields |
| `GapProperties.EncodeDecodeRoundTrip` | cap/cap-impl/src/main/java/org/mobicents/protocols/ss7/cap/gap/CallingAddressAndServiceImpl.java:109-186 | for a non-null address and a non-zero key, decoding what `encodeData` writes succeeds and gives the value back with the address marked as a generic number, exactly the value when it was already marked |
| `GapProperties.SwappedEncodingDecodesAlike` | cap/cap-impl/src/main/java/org/mobicents/protocols/ss7/cap/gap/CallingAddressAndServiceImpl.java:124-139 | the `[1]` element before the `[0]` element decodes to the same value as the encoder's own order |
| `GapProperties.ZeroServiceKeyEncodesButIsRejected` | cap/cap-impl/src/main/java/org/mobicents/protocols/ss7/cap/gap/CallingAddressAndServiceImpl.java:150-180 | a zero service key is encoded without complaint, and decoding those elements fails as a missing mandatory field |
| `GapProperties.EncodeAllThenDecodeAll` | cap/cap-impl/src/main/java/org/mobicents/protocols/ss7/cap/gap/CallingAddressAndServiceImpl.java:84-170 | through the stream objects: `encodeAll`, then a reader that reads the SEQUENCE tag and calls `decodeAll`, succeeds exactly when the key is non-zero and then yields the marked address and the key |
| `Asn.TakeBytesSplits` | cap/cap-impl/src/main/java/org/mobicents/protocols/ss7/cap/gap/CallingAddressAndServiceImpl.java:114 | the bounded sub-stream holds exactly the declared number of octets and is followed by the rest of the parent stream |
| `Asn.TakeBytesExact` | cap/cap-impl/src/main/java/org/mobicents/protocols/ss7/cap/gap/CallingAddressAndServiceImpl.java:86-87 | cutting at an element boundary returns exactly the elements before it |
| `Asn.InputStream.Available` | cap/cap-impl/src/main/java/org/mobicents/protocols/ss7/cap/gap/CallingAddressAndServiceImpl.java:117-119 | no octets are left exactly when no element is left, so the loop ends only on an empty sub-stream |
| `Asn.InputStream.ReadSequenceStreamData` | cap/cap-impl/src/main/java/org/mobicents/protocols/ss7/cap/gap/CallingAddressAndServiceImpl.java:114 | a fresh stream over the next `length` octets, which the parent skips; a stream error when they cannot be cut |
| `Asn.Wrap32` | cap/cap-impl/src/main/java/org/mobicents/protocols/ss7/cap/gap/CallingAddressAndServiceImpl.java:137 | the `(int)` cast keeps the value modulo 2^32 in the 32-bit signed range, and is the identity on that range |
| `Asn.IntegerOctetsRoundTrip` | cap/cap-impl/src/main/java/org/mobicents/protocols/ss7/cap/gap/CallingAddressAndServiceImpl.java:180 | reading back the two's-complement contents octets written for an integer gives that integer |
| `Asn.Int32Octets` | cap/cap-impl/src/main/java/org/mobicents/protocols/ss7/cap/gap/CallingAddressAndServiceImpl.java:137 | an `int` takes one to four contents octets, so reading it into a `long` succeeds and gives it back |
| `Asn.InputStream.ReadTag` | cap/cap-impl/src/main/java/org/mobicents/protocols/ss7/cap/gap/CallingAddressAndServiceImpl.java:121 | reads the class, the primitive bit and the tag number of the next element without consuming it |
| `Asn.InputStream.ReadLength` | cap/cap-impl/src/main/java/org/mobicents/protocols/ss7/cap/gap/CallingAddressAndServiceImpl.java:86 | on a constructed element, gives its contents' octet size and moves onto its contents; a stream error on a primitive one |
| `Asn.InputStream.ReadInteger` | cap/cap-impl/src/main/java/org/mobicents/protocols/ss7/cap/gap/CallingAddressAndServiceImpl.java:137 | consumes the element and gives the value of its one to eight contents octets, or a stream error |
| `Asn.InputStream.AdvanceElement` | cap/cap-impl/src/main/java/org/mobicents/protocols/ss7/cap/gap/CallingAddressAndServiceImpl.java:141-146 | consumes exactly the element whose tag was read |
| `Asn.OutputStream.StartConstructed` | cap/cap-impl/src/main/java/org/mobicents/protocols/ss7/cap/gap/CallingAddressAndServiceImpl.java:163-164 | writes the identifier and reserves a length: opens a new innermost frame and returns its position |
| `Asn.OutputStream.WriteInteger` | cap/cap-impl/src/main/java/org/mobicents/protocols/ss7/cap/gap/CallingAddressAndServiceImpl.java:180 | writes one primitive element holding the minimal two's-complement octets of the value |
| `Isup.EncodeAll` | cap/cap-impl/src/main/java/org/mobicents/protocols/ss7/cap/gap/CallingAddressAndServiceImpl.java:179 | writes one primitive element with the given class and tag holding the digits' octets |
| `Asn.EmitAllIntoFrame` | cap/cap-impl/src/main/java/org/mobicents/protocols/ss7/cap/gap/CallingAddressAndServiceImpl.java:163-166 | everything written while a reserved-length frame is innermost becomes that frame's contents, in order, so the back-patched length covers exactly them |
| `Asn.OutputStream.FinalizeContent` | cap/cap-impl/src/main/java/org/mobicents/protocols/ss7/cap/gap/CallingAddressAndServiceImpl.java:166 | closing the innermost frame turns it into one constructed element written to its parent |
| `Isup.DecodeAll` | cap/cap-impl/src/main/java/org/mobicents/protocols/ss7/cap/gap/CallingAddressAndServiceImpl.java:126-127 | consumes the element whose tag was read and yields its digits |
| `Isup.SetIsGenericNumber` | cap/cap-impl/src/main/java/org/mobicents/protocols/ss7/cap/gap/CallingAddressAndServiceImpl.java:128 | sets the generic-number mark and keeps the digits |

## Left out

- The XML archival format `CALLING_ADDRESS_AND_SERVICE_XML` (lines 191-206). It is persistence plumbing, not part of the wire format.
- `toString` (lines 208-223). It only formats a string.
- Exception messages, and the difference between `IOException`, `AsnException` and `CAPParsingComponentException`. Every decode failure is one `MistypedParameter` error. Its `cause` tells the stream errors, the not-primitive key and the missing key apart. The only encode failure modelled is the null calling address, `CallingAddressMissing`.
- `AsnInputStream` and `AsnOutputStream` are not part of this model. The stand-ins work on whole elements, which has five consequences:
  - Octets that do not parse as TLVs cannot be represented.
  - The indefinite-length form is not modelled; lengths are definite.
  - `writeTag(tagClass, false, tag)` and `StartContentDefiniteLength()` are one step, `StartConstructed`.
  - Reading INTEGER contents accepts one to eight octets.
  - A length that ends inside an element, or past the end of the stream, is a stream error.
- Gap.CallingAddressAndService.DecodeAll: when the outer element is primitive-encoded, the source would re-read its octets as TLVs. The element-level stand-in cannot, so the model reports a stream error and leaves the fields unchanged.
- `DigitsImpl` is not part of this model. The stand-in reads a primitive element's octets as the digits and rejects a constructed element. The generic-number mark is not carried on the wire, so it survives a round trip only because decoding sets it.
- The `IOException` and `AsnException` that `encodeData` and `encodeAll` wrap into a `CAPException` (lines 167-169, 181-185). The output stand-in and the `DigitsImpl` stand-in never fail, so those paths do not occur in the model.
