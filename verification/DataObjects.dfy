/** The data objects of internal/icc/data.go, as GET DATA returns them. */
module DataObjects {
  import opened ByteStrings
  import opened Tlv

  const DO_APPLICATION_IDENTIFIER := 0x4f
  const DO_LOGIN_DATA := 0x5e
  const DO_URL := 0x5f50
  const DO_HISTORICAL_BYTES := 0x5f52
  const DO_CARDHOLDER_RELATED_DATA := 0x65
  const DO_APPLICATION_RELATED_DATA := 0x6e
  const DO_SECURITY_SUPPORT_TEMPLATE := 0x7a
  const DO_EXTENDED_LENGTH_INFORMATION := 0x7f66
  const DO_PW_STATUS_BYTES := 0xc4
  const DO_KEY_INFORMATION := 0xde
  const DO_ALGORITHM_INFORMATION := 0xfa
  const DO_NAME := 0x5b
  const DO_LANGUAGE := 0x5f2d
  const DO_SEX := 0x5f35
  const DO_DISCRETIONARY_DATA_OBJECTS := 0x73
  const DO_EXTENDED_CAPABILITIES := 0xc0
  const DO_ALGORITHM_ATTRIBUTES_SIG := 0xc1
  const DO_ALGORITHM_ATTRIBUTES_DEC := 0xc2
  const DO_ALGORITHM_ATTRIBUTES_AUT := 0xc3
  const DO_FINGERPRINTS := 0xc5
  const DO_CA_FINGERPRINTS := 0xc6
  const DO_GENERATION_EPOCHS := 0xcd
  const DO_DIGITAL_SIGNATURE_COUNTER := 0x93

  const RID: Bytes := [0xd2, 0x76, 0x00, 0x01, 0x24, 0x01]

  function Aid(serial: Bytes): Bytes
  {
    RID + [0x03, 0x04] + [0xf5, 0xec] + serial + [0x00, 0x00]
  }

  /** The contents of the objects that hold no card state. */
  datatype PublicFields = PublicFields(
    loginData: Bytes, url: Bytes, historical: Bytes,
    name: Bytes, language: Bytes, sex: Bytes,
    extendedLength: Bytes, extendedCapabilities: Bytes,
    attributesSig: Bytes, attributesDec: Bytes, attributesAut: Bytes,
    fingerprints: Bytes, caFingerprints: Bytes, epochs: Bytes, keyInformation: Bytes)

  function CardholderFields(p: PublicFields): seq<Field>
  {
    [Field(DO_NAME, p.name), Field(DO_LANGUAGE, p.language), Field(DO_SEX, p.sex)]
  }

  function CardholderContent(p: PublicFields): Bytes
  {
    EncodeAll(CardholderFields(p))
  }

  function CardholderRelatedData(p: PublicFields): Bytes
  {
    Encode(DO_CARDHOLDER_RELATED_DATA, CardholderContent(p))
  }

  /** PW1 good for one signature, maximum lengths 127, then the three error counters. */
  function PWStatusBytes(retries: byte): (b: Bytes)
    ensures |b| == 7 && b[4] == retries
  {
    [0x00, 0xfe, 127, 127, retries, 0, 0]
  }

  function DiscretionaryFields(p: PublicFields, retries: byte): seq<Field>
  {
    [ Field(DO_EXTENDED_CAPABILITIES, p.extendedCapabilities),
      Field(DO_ALGORITHM_ATTRIBUTES_SIG, p.attributesSig),
      Field(DO_ALGORITHM_ATTRIBUTES_DEC, p.attributesDec),
      Field(DO_ALGORITHM_ATTRIBUTES_AUT, p.attributesAut),
      Field(DO_PW_STATUS_BYTES, PWStatusBytes(retries)),
      Field(DO_FINGERPRINTS, p.fingerprints),
      Field(DO_CA_FINGERPRINTS, p.caFingerprints),
      Field(DO_GENERATION_EPOCHS, p.epochs) ]
  }

  function DiscretionaryData(p: PublicFields, retries: byte): Bytes
  {
    EncodeAll(DiscretionaryFields(p, retries))
  }

  function ApplicationFields(serial: Bytes, p: PublicFields, retries: byte): seq<Field>
  {
    [ Field(DO_APPLICATION_IDENTIFIER, Aid(serial)),
      Field(DO_HISTORICAL_BYTES, p.historical),
      Field(DO_EXTENDED_LENGTH_INFORMATION, p.extendedLength),
      Field(DO_DISCRETIONARY_DATA_OBJECTS, DiscretionaryData(p, retries)) ]
  }

  function ApplicationContent(serial: Bytes, p: PublicFields, retries: byte): Bytes
  {
    EncodeAll(ApplicationFields(serial, p, retries))
  }

  function ApplicationRelatedData(serial: Bytes, p: PublicFields, retries: byte): Bytes
  {
    Encode(DO_APPLICATION_RELATED_DATA, ApplicationContent(serial, p, retries))
  }

  function AlgorithmFields(p: PublicFields): seq<Field>
  {
    [ Field(DO_ALGORITHM_ATTRIBUTES_SIG, p.attributesSig),
      Field(DO_ALGORITHM_ATTRIBUTES_DEC, p.attributesDec),
      Field(DO_ALGORITHM_ATTRIBUTES_AUT, p.attributesAut) ]
  }

  function AlgorithmInformation(p: PublicFields): Bytes
  {
    EncodeAll(AlgorithmFields(p))
  }

  function SecuritySupportTemplate(counter: nat): Bytes
  {
    Encode(DO_SECURITY_SUPPORT_TEMPLATE, Encode(DO_DIGITAL_SIGNATURE_COUNTER, ThreeBytes(counter)))
  }

  const DO_RSA_MOD := 0x81
  const DO_RSA_EXP := 0x82

  datatype PublicKey = RsaPublic(modulus: Bytes, exponent: nat) | EcPublic(point: Bytes) | OtherPublic

  function KeyFields(k: PublicKey): seq<Field>
  {
    match k
    case RsaPublic(n, e) => [Field(DO_RSA_MOD, n), Field(DO_RSA_EXP, NetworkBytes(e))]
    case EcPublic(point) => [Field(DO_EXT_PUB_KEY, point)]
    case OtherPublic => []
  }

  function KeyContent(k: PublicKey): Bytes
  {
    EncodeAll(KeyFields(k))
  }

  /** The public key template of GENERATE ASYMMETRIC KEY PAIR. */
  function PublicTemplate(k: PublicKey): Bytes
  {
    Encode(DO_PUB_KEY, KeyContent(k))
  }

  // ---------------------------------------------------------------------
  // Parsing back

  /** Every object takes at least as many bytes as its value. */
  lemma {:induction false} ValueFitsIn(fs: seq<Field>, f: Field)
    requires f in fs
    ensures |f.value| <= |EncodeAll(fs)|
  {
    if f != fs[0] {
      ValueFitsIn(fs[1..], f);
    }
  }

  /** A list with BER tags parses back whenever it is short enough as a whole. */
  lemma ShortListParses(fs: seq<Field>)
    requires forall f :: f in fs ==> BerTag(f.tag)
    requires |EncodeAll(fs)| <= 0xffff
    ensures ParseAll(EncodeAll(fs)) == Some(fs)
  {
    forall f | f in fs
      ensures Fits(f)
    {
      ValueFitsIn(fs, f);
    }
    ParseOfEncoding(fs);
  }

  /** `v` is the value of the one object with tag `t`. */
  ghost predicate TheOnly(fs: seq<Field>, t: nat, v: Bytes)
  {
    Field(t, v) in fs && forall f :: f in fs && f.tag == t ==> f.value == v
  }

  ghost predicate HoldsAll(items: seq<Field>, fs: seq<Field>)
  {
    forall i :: 0 <= i < |fs| ==> TheOnly(items, fs[i].tag, fs[i].value)
  }

  lemma OnlyAt(fs: seq<Field>, i: nat)
    requires i < |fs| && forall j :: 0 <= j < |fs| && j != i ==> fs[j].tag != fs[i].tag
    ensures TheOnly(fs, fs[i].tag, fs[i].value)
  {
  }

  /** A list that parses back and has no tag twice holds each of its values under its tag alone. */
  lemma ListParses(fs: seq<Field>)
    requires forall f :: f in fs ==> BerTag(f.tag)
    requires |EncodeAll(fs)| <= 0xffff
    requires forall i, j :: 0 <= i < j < |fs| ==> fs[i].tag != fs[j].tag
    ensures var items := ParseAll(EncodeAll(fs));
            items.Some? && |items.value| == |fs| && HoldsAll(items.value, fs)
  {
    ShortListParses(fs);
    forall i | 0 <= i < |fs|
      ensures TheOnly(fs, fs[i].tag, fs[i].value)
    {
      OnlyAt(fs, i);
    }
  }

  /** Name, language and sex, each under its tag alone. */
  ghost predicate ReadsAsCardholder(items: Option<seq<Field>>, p: PublicFields)
  {
    && items.Some? && |items.value| == 3
    && TheOnly(items.value, 0x5b, p.name)
    && TheOnly(items.value, 0x5f2d, p.language)
    && TheOnly(items.value, 0x5f35, p.sex)
  }

  lemma CardholderItems(p: PublicFields)
    requires |CardholderContent(p)| <= 0xffff
    ensures ReadsAsCardholder(ParseAll(CardholderContent(p)), p)
  {
    var fs := CardholderFields(p);
    ListParses(fs);
    assert fs[0].tag == 0x5b && fs[1].tag == 0x5f2d && fs[2].tag == 0x5f35;
  }

  /** Object 0x65 parses back exactly when its content fits a length field, and then so does the content. */
  lemma CardholderParses(p: PublicFields)
    ensures ParseAll(CardholderRelatedData(p)) == Some([Field(DO_CARDHOLDER_RELATED_DATA, CardholderContent(p))])
            <==> |CardholderContent(p)| <= 0xffff
    ensures |CardholderContent(p)| <= 0xffff ==> ReadsAsCardholder(ParseAll(CardholderContent(p)), p)
  {
    SingleField(DO_CARDHOLDER_RELATED_DATA, CardholderContent(p));
    if |CardholderContent(p)| <= 0xffff {
      CardholderItems(p);
    }
  }

  /** A modulus and a four-byte exponent, or a point. */
  ghost predicate ReadsAsKey(items: Option<seq<Field>>, k: PublicKey)
  {
    items.Some? &&
    match k
    case RsaPublic(n, e) =>
      |items.value| == 2 && TheOnly(items.value, 0x81, n) && TheOnly(items.value, 0x82, NetworkBytes(e))
    case EcPublic(point) => |items.value| == 1 && TheOnly(items.value, 0x86, point)
    case OtherPublic => items.value == []
  }

  lemma KeyItems(k: PublicKey)
    requires |KeyContent(k)| <= 0xffff
    ensures ReadsAsKey(ParseAll(KeyContent(k)), k)
  {
    var fs := KeyFields(k);
    ListParses(fs);
    match k
    case RsaPublic(_, _) => assert fs[0].tag == 0x81 && fs[1].tag == 0x82;
    case EcPublic(_) => assert fs[0].tag == 0x86;
    case OtherPublic =>
  }

  /** A public key template parses back to the modulus and the exponent, or to the point. */
  lemma PublicTemplateParses(k: PublicKey)
    ensures var content := KeyContent(k);
            && (ParseAll(PublicTemplate(k)) == Some([Field(DO_PUB_KEY, content)]) <==> |content| <= 0xffff)
            && (|content| <= 0xffff ==> ReadsAsKey(ParseAll(content), k))
  {
    SingleField(DO_PUB_KEY, KeyContent(k));
    if |KeyContent(k)| <= 0xffff {
      KeyItems(k);
    }
  }

  /** Capabilities and the attributes of the three keys, each under its tag alone. */
  ghost predicate ReadsAsAttributes(items: seq<Field>, p: PublicFields)
  {
    && TheOnly(items, 0xc0, p.extendedCapabilities)
    && TheOnly(items, 0xc1, p.attributesSig)
    && TheOnly(items, 0xc2, p.attributesDec)
    && TheOnly(items, 0xc3, p.attributesAut)
  }

  /** The attributes of the three keys, each under its tag alone. */
  ghost predicate ReadsAsAlgorithms(items: Option<seq<Field>>, p: PublicFields)
  {
    && items.Some? && |items.value| == 3
    && TheOnly(items.value, 0xc1, p.attributesSig)
    && TheOnly(items.value, 0xc2, p.attributesDec)
    && TheOnly(items.value, 0xc3, p.attributesAut)
  }

  /** The algorithm information parses back. */
  lemma AlgorithmParses(p: PublicFields)
    requires |AlgorithmInformation(p)| <= 0xffff
    ensures ReadsAsAlgorithms(ParseAll(AlgorithmInformation(p)), p)
  {
    var fs := AlgorithmFields(p);
    ListParses(fs);
    assert fs[0].tag == 0xc1 && fs[1].tag == 0xc2 && fs[2].tag == 0xc3;
  }

  /** The password status, whose fifth byte is the retry counter, fingerprints and epochs. */
  ghost predicate ReadsAsStatus(items: seq<Field>, p: PublicFields, retries: byte)
  {
    && (exists status :: TheOnly(items, 0xc4, status) && |status| == 7 && status[4] == retries)
    && TheOnly(items, 0xc5, p.fingerprints)
    && TheOnly(items, 0xc6, p.caFingerprints)
    && TheOnly(items, 0xcd, p.epochs)
  }

  ghost predicate ReadsAsDiscretionary(items: Option<seq<Field>>, p: PublicFields, retries: byte)
  {
    items.Some? && |items.value| == 8 && ReadsAsAttributes(items.value, p) && ReadsAsStatus(items.value, p, retries)
  }

  lemma DiscretionaryTags(p: PublicFields, retries: byte, i: nat)
    requires i < 8
    ensures var fs := DiscretionaryFields(p, retries);
            |fs| == 8 && fs[i].tag == (if i < 7 then 0xc0 + i else 0xcd)
  {
  }

  lemma DiscretionaryTagsAscend(p: PublicFields, retries: byte)
    ensures var fs := DiscretionaryFields(p, retries);
            && (forall f :: f in fs ==> BerTag(f.tag))
            && (forall i, j :: 0 <= i < j < |fs| ==> fs[i].tag != fs[j].tag)
  {
    var fs := DiscretionaryFields(p, retries);
    forall i | 0 <= i < |fs|
      ensures fs[i].tag == (if i < 7 then 0xc0 + i else 0xcd)
    {
      DiscretionaryTags(p, retries, i);
    }
  }

  lemma DiscretionaryListParses(p: PublicFields, retries: byte)
    requires |DiscretionaryData(p, retries)| <= 0xffff
    ensures var fs, items := DiscretionaryFields(p, retries), ParseAll(DiscretionaryData(p, retries));
            items.Some? && |items.value| == 8 && HoldsAll(items.value, fs)
  {
    var fs := DiscretionaryFields(p, retries);
    DiscretionaryTagsAscend(p, retries);
    ListParses(fs);
  }

  lemma AttributesHeld(items: seq<Field>, p: PublicFields, retries: byte)
    requires HoldsAll(items, DiscretionaryFields(p, retries))
    ensures ReadsAsAttributes(items, p)
  {
    var fs := DiscretionaryFields(p, retries);
    assert fs[0].tag == 0xc0 && fs[1].tag == 0xc1 && fs[2].tag == 0xc2 && fs[3].tag == 0xc3;
  }

  lemma StatusHeld(items: seq<Field>, p: PublicFields, retries: byte)
    requires HoldsAll(items, DiscretionaryFields(p, retries))
    ensures ReadsAsStatus(items, p, retries)
  {
    var fs := DiscretionaryFields(p, retries);
    assert fs[4].tag == 0xc4 && fs[5].tag == 0xc5 && fs[6].tag == 0xc6 && fs[7].tag == 0xcd;
  }

  /** The discretionary data inside object 0x6E parses back in turn. */
  lemma DiscretionaryParses(p: PublicFields, retries: byte)
    requires |DiscretionaryData(p, retries)| <= 0xffff
    ensures ReadsAsDiscretionary(ParseAll(DiscretionaryData(p, retries)), p, retries)
  {
    DiscretionaryListParses(p, retries);
    var items := ParseAll(DiscretionaryData(p, retries)).value;
    AttributesHeld(items, p, retries);
    StatusHeld(items, p, retries);
  }

  /** Identifier, historical bytes, length information and discretionary data, each under its tag alone. */
  ghost predicate ReadsAsApplication(items: Option<seq<Field>>, serial: Bytes, p: PublicFields, retries: byte)
  {
    && items.Some? && |items.value| == 4
    && TheOnly(items.value, 0x4f, Aid(serial))
    && TheOnly(items.value, 0x5f52, p.historical)
    && TheOnly(items.value, 0x7f66, p.extendedLength)
    && (exists inner :: TheOnly(items.value, 0x73, inner) && ReadsAsDiscretionary(ParseAll(inner), p, retries))
  }

  lemma ApplicationItems(serial: Bytes, p: PublicFields, retries: byte)
    requires |ApplicationContent(serial, p, retries)| <= 0xffff
    ensures ReadsAsApplication(ParseAll(ApplicationContent(serial, p, retries)), serial, p, retries)
  {
    var fs := ApplicationFields(serial, p, retries);
    ListParses(fs);
    ValueFitsIn(fs, fs[3]);
    DiscretionaryParses(p, retries);
    assert fs[0].tag == 0x4f && fs[1].tag == 0x5f52 && fs[2].tag == 0x7f66 && fs[3].tag == 0x73;
  }

  /** Object 0x6E parses back exactly when its content fits a length field, and then so do its two inner levels. */
  lemma ApplicationParses(serial: Bytes, p: PublicFields, retries: byte)
    ensures var content := ApplicationContent(serial, p, retries);
            && (ParseAll(ApplicationRelatedData(serial, p, retries)) == Some([Field(DO_APPLICATION_RELATED_DATA, content)])
                <==> |content| <= 0xffff)
            && (|content| <= 0xffff ==> ReadsAsApplication(ParseAll(content), serial, p, retries))
  {
    SingleField(DO_APPLICATION_RELATED_DATA, ApplicationContent(serial, p, retries));
    if |ApplicationContent(serial, p, retries)| <= 0xffff {
      ApplicationItems(serial, p, retries);
    }
  }

  /** Unwrapping object 0x7A with the card's own parser gives the three counter bytes. */
  lemma TemplateUnwraps(counter: nat)
    ensures var inner := Value(SecuritySupportTemplate(counter), DO_SECURITY_SUPPORT_TEMPLATE);
            inner.Got? && Value(inner.value, DO_DIGITAL_SIGNATURE_COUNTER) == Got(ThreeBytes(counter))
  {
    var inner := Encode(DO_DIGITAL_SIGNATURE_COUNTER, ThreeBytes(counter));
    RoundTrip(DO_SECURITY_SUPPORT_TEMPLATE, inner, []);
    RoundTrip(DO_DIGITAL_SIGNATURE_COUNTER, ThreeBytes(counter), []);
    assert inner + [] == inner;
    assert SecuritySupportTemplate(counter) + [] == SecuritySupportTemplate(counter);
  }
}
