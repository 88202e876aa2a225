/**
 The tag-length-value printer and parser of internal/icc/tlv.go, and a strict
 reference parser for lists of fields.
 */
module Tlv {
  import opened ByteStrings

  /** One or two tag bytes: `uint16(t)` above 0xff, `byte(t)` otherwise. */
  function TagBytes(t: int): (b: Bytes)
    ensures |b| == if t > 0xff then 2 else 1
  {
    if t > 0xff then [(t / 256) % 256, t % 256] else [t % 256]
  }

  /** The length field; above 0xffff the two length bytes are truncated. */
  function LengthBytes(l: nat): (b: Bytes)
    ensures 1 <= |b| <= 3
  {
    if l <= 0x7f then [l]
    else if l <= 0xff then [0x81, l]
    else [0x82, (l / 256) % 256, l % 256]
  }

  function Encode(t: int, value: Bytes): (b: Bytes)
    ensures |b| >= 2 + |value|
  {
    TagBytes(t) + LengthBytes(|value|) + value
  }

  /** `tlv`: the buffer grows by successive appends. */
  method Print(t: int, value: Bytes) returns (buf: Bytes)
    ensures buf == Encode(t, value)
  {
    var l := |value|;
    buf := [];
    if t > 0xff {
      buf := [(t / 256) % 256, t % 256];
    } else {
      buf := buf + [t % 256];
    }
    if l <= 0x7f {
      buf := buf + [l];
    } else if l <= 0xff {
      buf := buf + [0x81];
      buf := buf + [l];
    } else {
      buf := buf + [0x82];
      buf := buf + [(l / 256) % 256];
      buf := buf + [l % 256];
    }
    buf := buf + value;
  }

  /** The outcome of `v`: a value (empty when it returns early), or a run-time panic. */
  datatype Decoded = Got(value: Bytes) | Panics

  function Take(b: Bytes, l: nat): Decoded
  {
    if |b| < l then Got([]) else Got(b[..l])
  }

  function AfterTag(rest: Bytes): Decoded
  {
    if rest == [] then Panics
    else if rest[0] <= 0x7f then Take(rest[1..], rest[0])
    else if rest[0] == 0x81 then
      if |rest| < 2 then Panics else Take(rest[2..], rest[1])
    else if rest[0] == 0x82 then
      if |rest| < 2 then Got([]) else Panics
    else Got([])
  }

  /** What `v` computes, without its cursor. */
  function Value(buf: Bytes, t: int): Decoded
  {
    if TagBytes(t) <= buf then AfterTag(buf[|TagBytes(t)|..]) else Got([])
  }

  /** `v`: a cursor `i` and a length `l` over the buffer; an index out of range panics. */
  method Parse(buf: Bytes, t: int) returns (r: Decoded)
    ensures r == Value(buf, t)
  {
    var i, l := 0, 0;
    if |buf| < 1 {
      return Got([]);
    }
    if t > 0xff {
      if |buf| < 2 {
        return Got([]);
      }
      if [(t / 256) % 256, t % 256] != buf[0..2] {
        assert !(TagBytes(t) <= buf);
        return Got([]);
      }
      i := i + 2;
    } else {
      if t % 256 != buf[0] {
        assert !(TagBytes(t) <= buf);
        return Got([]);
      }
      i := i + 1;
    }
    assert TagBytes(t) <= buf;
    ghost var rest := buf[i..];
    if i >= |buf| {
      return Panics;
    }
    if buf[i] <= 0x7f {
      l := buf[i];
      i := i + 1;
    } else if buf[i] == 0x81 {
      if |buf| < i + 1 {
        return Got([]);
      }
      if i + 1 >= |buf| {
        return Panics;
      }
      l := buf[i + 1];
      i := i + 2;
    } else if buf[i] == 0x82 {
      if |buf| < i + 2 {
        return Got([]);
      }
      // the one-byte slice handed to Uint16 is always too short
      return Panics;
    }
    if |buf| < i + l {
      return Got([]);
    }
    assert rest[0] <= 0x7f ==> buf[i..] == rest[1..];
    assert rest[0] == 0x81 ==> buf[i..] == rest[2..];
    assert buf[i..][..l] == buf[i..i + l];
    return Got(buf[i..i + l]);
  }

  lemma EncodeRegroup(t: int, x: Bytes, rest: Bytes)
    ensures Encode(t, x) + rest == TagBytes(t) + (LengthBytes(|x|) + (x + rest))
  {
  }

  /** `v` undoes `tlv` exactly on values of at most 0xff bytes, whatever follows. */
  lemma RoundTrip(t: int, x: Bytes, rest: Bytes)
    ensures Value(Encode(t, x) + rest, t) == if |x| <= 0xff then Got(x) else Panics
  {
    var buf, tag, len := Encode(t, x) + rest, TagBytes(t), LengthBytes(|x|);
    var tail := len + (x + rest);
    EncodeRegroup(t, x, rest);
    assert buf[|tag|..] == tail && tag <= buf;
    assert tail[0] == len[0] && tail[|len|..] == x + rest;
    assert (x + rest)[..|x|] == x;
    if 0x7f < |x| <= 0xff {
      assert tail[1] == len[1];
    }
  }

  const DO_CIPHER := 0xa6
  const DO_PUB_KEY := 0x7f49
  const DO_EXT_PUB_KEY := 0x86

  /** The cipher object of PSO:DECIPHER as a host builds it. */
  function CipherObject(pubKey: Bytes): Bytes
  {
    Encode(DO_CIPHER, Encode(DO_PUB_KEY, Encode(DO_EXT_PUB_KEY, pubKey)))
  }

  function Then(d: Decoded, t: int): Decoded
  {
    match d
    case Panics => Panics
    case Got(b) => Value(b, t)
  }

  /** The triple decode of PSO:DECIPHER. */
  function CipherKey(data: Bytes): Decoded
  {
    Then(Then(Value(data, DO_CIPHER), DO_PUB_KEY), DO_EXT_PUB_KEY)
  }

  /** The three nested decodes recover a wrapped public key exactly when it has at most 248 bytes. */
  lemma CipherKeyRoundTrip(pubKey: Bytes, rest: Bytes)
    ensures CipherKey(CipherObject(pubKey) + rest) == if |pubKey| <= 248 then Got(pubKey) else Panics
  {
    var inner := Encode(DO_EXT_PUB_KEY, pubKey);
    var middle := Encode(DO_PUB_KEY, inner);
    RoundTrip(DO_CIPHER, middle, rest);
    RoundTrip(DO_PUB_KEY, inner, []);
    RoundTrip(DO_EXT_PUB_KEY, pubKey, []);
    assert inner + [] == inner && middle + [] == middle;
  }

  // ---------------------------------------------------------------------
  // When the decoder panics

  /** The tag is there, and then the buffer ends, or ends after 0x81, or has 0x82 and at least one byte more. */
  predicate Truncated(b: Bytes, t: int)
  {
    TagBytes(t) <= b &&
    var rest := b[|TagBytes(t)|..];
    rest == [] || rest == [0x81] || (|rest| >= 2 && rest[0] == 0x82)
  }

  /** The buffer starts with an object of tag `t` and value `x` whose length takes one byte, or two. */
  ghost predicate Carries(b: Bytes, t: int, x: Bytes)
  {
    || (|x| <= 0x7f && TagBytes(t) + [|x|] + x <= b)
    || (|x| <= 0xff && TagBytes(t) + [0x81, |x|] + x <= b)
  }

  /** `v` panics exactly on truncated buffers. */
  lemma PanicsExactly(b: Bytes, t: int)
    ensures Value(b, t).Panics? <==> Truncated(b, t)
  {
  }

  /** Three parts in a row are a prefix exactly when each is one of what remains. */
  lemma Prefixes(b: Bytes, tag: Bytes, len: Bytes, x: Bytes)
    ensures tag + len + x <= b <==> tag <= b && len <= b[|tag|..] && x <= b[|tag|..][|len|..]
  {
    if tag + len + x <= b {
      assert tag + len <= b;
      assert tag == (tag + len + x)[..|tag|] && len == b[|tag|..|tag| + |len|];
      assert x == b[|tag| + |len|..|tag| + |len| + |x|];
    }
    if tag <= b && len <= b[|tag|..] && x <= b[|tag|..][|len|..] {
      assert b == tag + b[|tag|..];
      assert b[|tag|..] == len + b[|tag|..][|len|..];
    }
  }

  lemma CarriedValue(b: Bytes, t: int, x: Bytes)
    requires Carries(b, t, x)
    ensures Value(b, t) == Got(x)
  {
    var tag := TagBytes(t);
    if |x| <= 0x7f && tag + [|x|] + x <= b {
      Prefixes(b, tag, [|x|], x);
    } else {
      Prefixes(b, tag, [0x81, |x|], x);
    }
  }

  lemma ValueCarried(b: Bytes, t: int, x: Bytes)
    requires x != [] && Value(b, t) == Got(x)
    ensures Carries(b, t, x)
  {
    var tag := TagBytes(t);
    var rest := b[|tag|..];
    if rest[0] <= 0x7f {
      Prefixes(b, tag, [|x|], x);
    } else {
      Prefixes(b, tag, [0x81, |x|], x);
    }
  }

  /** `v` returns a value that is not empty exactly when the buffer starts with an object holding it. */
  lemma ValueExactly(b: Bytes, t: int, x: Bytes)
    requires x != []
    ensures Value(b, t) == Got(x) <==> Carries(b, t, x)
  {
    if Carries(b, t, x) {
      CarriedValue(b, t, x);
    }
    if Value(b, t) == Got(x) {
      ValueCarried(b, t, x);
    }
  }

  /** One of the three nested objects of PSO:DECIPHER is truncated. */
  ghost predicate Undecodable(data: Bytes)
  {
    || Truncated(data, 0xa6)
    || exists key ::
         && Carries(data, 0xa6, key)
         && (|| Truncated(key, 0x7f49)
             || exists point :: Carries(key, 0x7f49, point) && Truncated(point, 0x86))
  }

  /** The three nested objects hold `pubKey`. */
  ghost predicate Wraps(data: Bytes, pubKey: Bytes)
  {
    exists key, point ::
      Carries(data, 0xa6, key) && Carries(key, 0x7f49, point) && Carries(point, 0x86, pubKey)
  }

  /** `v` after `v` panics exactly when the first buffer or the value it carries is truncated. */
  lemma ThenPanicsExactly(d: Decoded, t: int)
    ensures Then(d, t).Panics? <==> d.Panics? || (d.value != [] && Truncated(d.value, t))
  {
    if d.Got? {
      PanicsExactly(d.value, t);
    }
  }

  lemma UndecodablePanics(data: Bytes)
    requires Undecodable(data)
    ensures CipherKey(data).Panics?
  {
    if !Truncated(data, DO_CIPHER) {
      var key :| Carries(data, DO_CIPHER, key)
                 && (Truncated(key, DO_PUB_KEY)
                     || exists point :: Carries(key, DO_PUB_KEY, point) && Truncated(point, DO_EXT_PUB_KEY));
      CarriedValue(data, DO_CIPHER, key);
      if !Truncated(key, DO_PUB_KEY) {
        var point :| Carries(key, DO_PUB_KEY, point) && Truncated(point, DO_EXT_PUB_KEY);
        CarriedValue(key, DO_PUB_KEY, point);
      }
    }
  }

  lemma PanicIsUndecodable(data: Bytes)
    requires CipherKey(data).Panics?
    ensures Undecodable(data)
  {
    var outer := Value(data, DO_CIPHER);
    if !outer.Panics? {
      var inner := Value(outer.value, DO_PUB_KEY);
      ThenPanicsExactly(inner, DO_EXT_PUB_KEY);
      ThenPanicsExactly(outer, DO_PUB_KEY);
      ValueCarried(data, DO_CIPHER, outer.value);
      if inner.Got? {
        ValueCarried(outer.value, DO_PUB_KEY, inner.value);
      }
    }
  }

  /** The triple decode panics exactly when one of its objects is truncated. */
  lemma CipherKeyPanicsExactly(data: Bytes)
    ensures CipherKey(data).Panics? <==> Undecodable(data)
  {
    if Undecodable(data) {
      UndecodablePanics(data);
    }
    if CipherKey(data).Panics? {
      PanicIsUndecodable(data);
    }
  }

  /** And it yields a point exactly when the three objects hold it. */
  lemma CipherKeyExactly(data: Bytes, pubKey: Bytes)
    requires pubKey != []
    ensures CipherKey(data) == Got(pubKey) <==> Wraps(data, pubKey)
  {
    if CipherKey(data) == Got(pubKey) {
      var key := Value(data, DO_CIPHER).value;
      var point := Value(key, DO_PUB_KEY).value;
      ValueCarried(data, DO_CIPHER, key);
      ValueCarried(key, DO_PUB_KEY, point);
      ValueCarried(point, DO_EXT_PUB_KEY, pubKey);
    }
    if Wraps(data, pubKey) {
      var key, point :| Carries(data, DO_CIPHER, key) && Carries(key, DO_PUB_KEY, point)
                        && Carries(point, DO_EXT_PUB_KEY, pubKey);
      CarriedValue(data, DO_CIPHER, key);
      CarriedValue(key, DO_PUB_KEY, point);
      CarriedValue(point, DO_EXT_PUB_KEY, pubKey);
    }
  }

  // ---------------------------------------------------------------------
  // Reference parser

  datatype Field = Field(tag: nat, value: Bytes)

  /** Two tag bytes exactly when the low five bits of the first are all ones. */
  predicate BerTag(t: nat)
  {
    if t <= 0xff then t % 32 != 31 else t <= 0xffff && (t / 256) % 32 == 31
  }

  predicate Fits(f: Field)
  {
    BerTag(f.tag) && |f.value| <= 0xffff
  }

  predicate WellFormed(fs: seq<Field>)
  {
    forall f :: f in fs ==> Fits(f)
  }

  /** The objects of a list written one after the other to a buffer. */
  function EncodeAll(fs: seq<Field>): Bytes
  {
    if fs == [] then [] else Encode(fs[0].tag, fs[0].value) + EncodeAll(fs[1..])
  }

  lemma EncodeOne(f: Field)
    ensures EncodeAll([f]) == Encode(f.tag, f.value)
  {
    assert [f][1..] == [];
  }

  lemma EncodeTwo(f: Field, g: Field)
    ensures EncodeAll([f, g]) == Encode(f.tag, f.value) + Encode(g.tag, g.value)
  {
    assert [f, g][1..] == [g];
    EncodeOne(g);
  }

  /** A number read from the front of a buffer, and what follows it. */
  datatype Front = Front(n: nat, rest: Bytes)

  function ReadTag(b: Bytes): (r: Option<Front>)
    ensures r.Some? ==> |r.value.rest| < |b|
  {
    if |b| >= 1 && b[0] % 32 != 31 then Some(Front(b[0], b[1..]))
    else if |b| >= 2 && b[0] % 32 == 31 then Some(Front((b[0] as int) * 256 + b[1], b[2..]))
    else None
  }

  /** Only the shortest form of a length is read. */
  function ReadLength(b: Bytes): (r: Option<Front>)
    ensures r.Some? ==> |r.value.rest| < |b|
  {
    if |b| >= 1 && b[0] <= 0x7f then Some(Front(b[0], b[1..]))
    else if |b| >= 2 && b[0] == 0x81 && b[1] > 0x7f then Some(Front(b[1], b[2..]))
    else if |b| >= 3 && b[0] == 0x82 && b[1] > 0 then Some(Front((b[1] as int) * 256 + b[2], b[3..]))
    else None
  }

  datatype Head = Head(field: Field, rest: Bytes)

  function ReadField(b: Bytes): (r: Option<Head>)
    ensures r.Some? ==> |r.value.rest| < |b|
  {
    match ReadTag(b)
    case None => None
    case Some(tag) =>
      match ReadLength(tag.rest)
      case None => None
      case Some(len) =>
        if |len.rest| < len.n then None
        else Some(Head(Field(tag.n, len.rest[..len.n]), len.rest[len.n..]))
  }

  function ParseAll(b: Bytes): Option<seq<Field>>
    decreases |b|
  {
    if b == [] then Some([])
    else match ReadField(b)
      case None => None
      case Some(h) =>
        match ParseAll(h.rest)
        case None => None
        case Some(fs) => Some([h.field] + fs)
  }

  lemma ReadTagInverse(b: Bytes, t: nat, rest: Bytes)
    ensures ReadTag(b) == Some(Front(t, rest)) <==> BerTag(t) && b == TagBytes(t) + rest
  {
    if BerTag(t) && b == TagBytes(t) + rest {
      assert b[|TagBytes(t)|..] == rest;
    }
    if ReadTag(b) == Some(Front(t, rest)) {
      if b[0] % 32 != 31 {
        assert b == [b[0]] + rest;
      } else {
        assert t / 256 == b[0] && t % 256 == b[1];
        assert b == [b[0], b[1]] + rest;
      }
    }
  }

  lemma ReadLengthInverse(b: Bytes, l: nat, rest: Bytes)
    ensures ReadLength(b) == Some(Front(l, rest)) <==> l <= 0xffff && b == LengthBytes(l) + rest
  {
    if l <= 0xffff && b == LengthBytes(l) + rest {
      assert b[|LengthBytes(l)|..] == rest;
    }
    if ReadLength(b) == Some(Front(l, rest)) {
      if b[0] <= 0x7f {
        assert b == [b[0]] + rest;
      } else if b[0] == 0x81 {
        assert b == [0x81, b[1]] + rest;
      } else {
        assert l / 256 == b[1] && l % 256 == b[2];
        assert b == [0x82, b[1], b[2]] + rest;
      }
    }
  }

  lemma ReadFieldOfEncoding(f: Field, rest: Bytes)
    requires Fits(f)
    ensures ReadField(Encode(f.tag, f.value) + rest) == Some(Head(f, rest))
  {
    var tail := f.value + rest;
    var afterTag := LengthBytes(|f.value|) + tail;
    EncodeRegroup(f.tag, f.value, rest);
    ReadTagInverse(TagBytes(f.tag) + afterTag, f.tag, afterTag);
    ReadLengthInverse(afterTag, |f.value|, tail);
    assert tail[..|f.value|] == f.value && tail[|f.value|..] == rest;
  }

  lemma EncodingOfReadField(b: Bytes)
    requires ReadField(b).Some?
    ensures var h := ReadField(b).value; Fits(h.field) && b == Encode(h.field.tag, h.field.value) + h.rest
  {
    var h, tag := ReadField(b).value, ReadTag(b).value;
    var len := ReadLength(tag.rest).value;
    ReadTagInverse(b, tag.n, tag.rest);
    ReadLengthInverse(tag.rest, len.n, len.rest);
    assert len.rest == h.field.value + h.rest;
    EncodeRegroup(h.field.tag, h.field.value, h.rest);
  }

  lemma {:induction false} ParseOfEncoding(fs: seq<Field>)
    requires WellFormed(fs)
    ensures ParseAll(EncodeAll(fs)) == Some(fs)
  {
    if fs != [] {
      var tail := fs[1..];
      ParseOfEncoding(tail);
      ReadFieldOfEncoding(fs[0], EncodeAll(tail));
      assert [fs[0]] + tail == fs;
    }
  }

  lemma {:induction false} EncodingOfParse(b: Bytes)
    requires ParseAll(b).Some?
    ensures WellFormed(ParseAll(b).value) && b == EncodeAll(ParseAll(b).value)
    decreases |b|
  {
    if b != [] {
      var h := ReadField(b).value;
      EncodingOfParse(h.rest);
      EncodingOfReadField(b);
      var fs := ParseAll(b).value;
      assert fs == [h.field] + ParseAll(h.rest).value;
      assert fs[1..] == ParseAll(h.rest).value;
    }
  }

  /** The concatenated `tlv` outputs decode to one list of fields, and only that list's encoding does. */
  lemma UniqueDecoding(b: Bytes, fs: seq<Field>)
    ensures ParseAll(b) == Some(fs) <==> WellFormed(fs) && b == EncodeAll(fs)
  {
    if WellFormed(fs) {
      ParseOfEncoding(fs);
    }
    if ParseAll(b).Some? {
      EncodingOfParse(b);
    }
  }

  /** A single printed object parses back exactly when its value fits the length field. */
  lemma SingleField(t: nat, x: Bytes)
    requires BerTag(t)
    ensures ParseAll(Encode(t, x)) == Some([Field(t, x)]) <==> |x| <= 0xffff
  {
    var fs := [Field(t, x)];
    UniqueDecoding(Encode(t, x), fs);
    assert EncodeAll(fs) == Encode(t, x) + EncodeAll(fs[1..]);
    assert Encode(t, x) + [] == Encode(t, x);
    assert WellFormed(fs) <==> Fits(fs[0]);
  }
}
