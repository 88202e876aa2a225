/**
 What a host gets for each command, in the bytes of the protocol: instruction codes, parameters,
 tags and status words are written out here and nowhere taken from the card's own constants.
 */
module HostView {
  import opened ByteStrings
  import opened DataObjects
  import opened LockMachine
  import opened LockSteps
  import opened CardReports
  import opened CardStatus
  import EcdsaLayout
  import Tlv

  /** A command with class byte 0. */
  function Send(ins: byte, p1: byte, p2: byte, data: Bytes, le: nat, o: Oracle): Command
  {
    Apdu(Capdu(0x00, ins, p1, p2, data, le), o)
  }

  /** 9000 with a body. */
  function Ok(body: Bytes): Reply
  {
    Status(0x90, 0x00, body)
  }

  /** A status word alone. */
  function Word(sw1: byte, sw2: byte): Reply
  {
    Status(sw1, sw2, [])
  }

  /** Any other class or instruction is refused and changes nothing. */
  lemma OthersAreRefused(env: Env, s: State, c: Capdu, o: Oracle)
    requires !s.crashed
    requires c.cla != 0x00 || c.ins !in {0xa4, 0xca, 0x20, 0x47, 0x84, 0x2a}
    ensures Exec(env, s, Apdu(c, o)) == Outcome(s, NotAllowed)
  {
  }

  // ---------------------------------------------------------------------
  // SELECT

  /** SELECT of either name selects and changes nothing else; of any other it says so, and the card is not selected. */
  lemma SelectAnswers(env: Env, s: State, p1: byte, p2: byte, file: Bytes, le: nat, o: Oracle)
    requires !s.crashed
    ensures var out := Exec(env, s, Send(0xa4, p1, p2, file, le, o));
            if CardName(env, file) then
              out == Outcome(s.(selected := true), Ok([]))
            else
              out.reply == FileNotFound && !out.state.selected && (!s.selected ==> out.state == s)
  {
    NamesAreBytes(env, file);
  }

  /** The name that the card reports selects it. */
  lemma ReportedNameSelects(env: Env, s: State, o: Oracle)
    requires !s.crashed
    ensures var aid := Exec(env, s, Send(0xca, 0x00, 0x4f, [], 0, o)).reply;
            && aid == Ok(FullName(env.serial))
            && Exec(env, s, Send(0xa4, 0x04, 0x00, aid.body, 0, o)) == Outcome(s.(selected := true), Ok([]))
  {
    DataFields(env, s, 0x00, 0x4f, [], 0, o);
    SelectAnswers(env, s, 0x04, 0x00, FullName(env.serial), 0, o);
  }

  // ---------------------------------------------------------------------
  // GET DATA

  function Tag(p1: byte, p2: byte): nat
  {
    (p1 as int) * 256 + p2
  }

  lemma DataStep(env: Env, s: State, p1: byte, p2: byte, data: Bytes, le: nat, o: Oracle)
    requires !s.crashed
    ensures Exec(env, s, Send(0xca, p1, p2, data, le, o)) == GetData(env, s, Tag(p1, p2), o)
  {
  }

  /** The objects that are a field by themselves, and the password status. */
  lemma DataFields(env: Env, s: State, p1: byte, p2: byte, data: Bytes, le: nat, o: Oracle)
    requires !s.crashed
    ensures var out, tag := Exec(env, s, Send(0xca, p1, p2, data, le, o)), Tag(p1, p2);
            && (tag == 0x4f ==> out == Outcome(s, Ok(FullName(env.serial))))
            && (tag == 0x5e ==> out == Outcome(s, Ok(o.fields.loginData)))
            && (tag == 0x5f50 ==> out == Outcome(s, Ok(o.fields.url)))
            && (tag == 0x5f52 ==> out == Outcome(s, Ok(o.fields.historical)))
            && (tag == 0x7f66 ==> out == Outcome(s, Ok(o.fields.extendedLength)))
            && (tag == 0xde ==> out == Outcome(s, Ok(o.fields.keyInformation)))
            && (tag == 0xc4 ==> out == Outcome(s, Ok([0x00, 0xfe, 0x7f, 0x7f, s.retries % 256, 0x00, 0x00])))
  {
    DataStep(env, s, p1, p2, data, le, o);
    NamesAreBytes(env, []);
  }

  /** Tags that the card does not know. */
  lemma UnknownData(env: Env, s: State, p1: byte, p2: byte, data: Bytes, le: nat, o: Oracle)
    requires !s.crashed
    requires Tag(p1, p2) !in {0x4f, 0x5e, 0x5f50, 0x5f52, 0x65, 0x6e, 0x7a, 0x7f66, 0xc4, 0xde, 0xfa}
    ensures Exec(env, s, Send(0xca, p1, p2, data, le, o)) == Outcome(s, Word(0x88, 0x00))
  {
    DataStep(env, s, p1, p2, data, le, o);
  }

  /** The body is one object with this tag. */
  predicate OneObject(body: Bytes, tag: nat, content: Bytes)
  {
    Tlv.ParseAll(body) == Some([Tlv.Field(tag, content)])
  }

  /** The cardholder object, with name, language and sex. */
  ghost predicate ShowsCardholder(body: Bytes, f: PublicFields)
  {
    exists content :: OneObject(body, 0x65, content) && ReadsAsCardholder(Tlv.ParseAll(content), f)
  }

  /** The application object, with identifier, history, lengths and, inside, capabilities and retries. */
  ghost predicate ShowsApplication(body: Bytes, serial: Bytes, f: PublicFields, retries: byte)
  {
    exists content :: OneObject(body, 0x6e, content) && ReadsAsApplication(Tlv.ParseAll(content), serial, f, retries)
  }

  lemma CardholderBody(f: PublicFields)
    requires |CardholderContent(f)| <= 0xffff
    ensures ShowsCardholder(CardholderRelatedData(f), f)
  {
    CardholderParses(f);
    assert OneObject(CardholderRelatedData(f), 0x65, CardholderContent(f));
  }

  lemma ApplicationBody(serial: Bytes, f: PublicFields, retries: byte)
    requires |ApplicationContent(serial, f, retries)| <= 0xffff
    ensures ShowsApplication(ApplicationRelatedData(serial, f, retries), serial, f, retries)
  {
    ApplicationParses(serial, f, retries);
    assert OneObject(ApplicationRelatedData(serial, f, retries), 0x6e, ApplicationContent(serial, f, retries));
  }

  lemma TemplateStep(env: Env, s: State, p2: byte, data: Bytes, le: nat, o: Oracle)
    requires !s.crashed && s.retries <= 3
    ensures p2 == 0x65 ==> Exec(env, s, Send(0xca, 0x00, p2, data, le, o)) == Outcome(s, Ok(CardholderRelatedData(o.fields)))
    ensures p2 == 0x6e ==> Exec(env, s, Send(0xca, 0x00, p2, data, le, o))
                           == Outcome(s, Ok(ApplicationRelatedData(env.serial, o.fields, s.retries)))
    ensures p2 == 0xfa ==> Exec(env, s, Send(0xca, 0x00, p2, data, le, o)) == Outcome(s, Ok(AlgorithmInformation(o.fields)))
  {
    DataStep(env, s, 0x00, p2, data, le, o);
  }

  /** The cardholder object answers tag 0x65. */
  lemma CardholderData(env: Env, s: State, data: Bytes, le: nat, o: Oracle)
    requires !s.crashed && s.retries <= 3 && |CardholderContent(o.fields)| <= 0xffff
    ensures var out := Exec(env, s, Send(0xca, 0x00, 0x65, data, le, o));
            out.state == s && IsCompleted(out.reply) && ShowsCardholder(out.reply.body, o.fields)
  {
    TemplateStep(env, s, 0x65, data, le, o);
    CardholderBody(o.fields);
  }

  /** The application object answers tag 0x6e, with the retries of the card. */
  lemma ApplicationData(env: Env, s: State, data: Bytes, le: nat, o: Oracle)
    requires !s.crashed && s.retries <= 3 && |ApplicationContent(env.serial, o.fields, s.retries)| <= 0xffff
    ensures var out := Exec(env, s, Send(0xca, 0x00, 0x6e, data, le, o));
            out.state == s && IsCompleted(out.reply) && ShowsApplication(out.reply.body, env.serial, o.fields, s.retries)
  {
    TemplateStep(env, s, 0x6e, data, le, o);
    ApplicationBody(env.serial, o.fields, s.retries);
  }

  /** The algorithm information lists the attributes of the three keys. */
  lemma AlgorithmData(env: Env, s: State, data: Bytes, le: nat, o: Oracle)
    requires !s.crashed && s.retries <= 3 && |AlgorithmInformation(o.fields)| <= 0xffff
    ensures var out := Exec(env, s, Send(0xca, 0x00, 0xfa, data, le, o));
            && out.state == s && IsCompleted(out.reply)
            && ReadsAsAlgorithms(Tlv.ParseAll(out.reply.body), o.fields)
  {
    TemplateStep(env, s, 0xfa, data, le, o);
    AlgorithmParses(o.fields);
  }

  /** The security support template in bytes: the stored counter after the call, in three of them. */
  lemma CounterData(env: Env, s: State, data: Bytes, le: nat, o: Oracle)
    requires !s.crashed
    ensures var out := Exec(env, s, Send(0xca, 0x00, 0x7a, data, le, o));
            var n := if s.signatures > 0xffffff then 0 else s.signatures;
            && out.state == s.(signatures := n)
            && IsCompleted(out.reply) && |out.reply.body| == 7
            && out.reply.body[..4] == [0x7a, 0x05, 0x93, 0x03] && BigEndian(out.reply.body[4..]) == n
  {
    DataStep(env, s, 0x00, 0x7a, data, le, o);
    var n := ReadCounter(s).signatures;
    var inner := Tlv.Encode(DO_DIGITAL_SIGNATURE_COUNTER, ThreeBytes(n));
    assert inner == [0x93, 0x03] + ThreeBytes(n);
    assert SecuritySupportTemplate(n) == [0x7a, 0x05, 0x93, 0x03] + ThreeBytes(n);
    ThreeBytesValue(n);
  }

  // ---------------------------------------------------------------------
  // PSO:COMPUTE DIGITAL SIGNATURE

  function SigMaterial(s: State): Material
    requires Glows(s, s.ring.sig)
  {
    KeyAt(s, s.ring.sig.value).material.value
  }

  lemma SignatureStep(env: Env, s: State, data: Bytes, le: nat, o: Oracle)
    requires !s.crashed
    ensures Exec(env, s, Send(0x2a, 0x9e, 0x9a, data, le, o)).reply == ComputeDigitalSignature(env, s, data, o).reply
  {
    var c := Send(0x2a, 0x9e, 0x9a, data, le, o);
    assert Params(c.capdu) == COMPUTE_DIGITAL_SIGNATURE;
    CdsStep(env, s, c);
  }

  /** Without data, without a key, or with a locked one. */
  lemma SignatureRefused(env: Env, s: State, data: Bytes, le: nat, o: Oracle)
    requires !s.crashed
    ensures var reply := Exec(env, s, Send(0x2a, 0x9e, 0x9a, data, le, o)).reply;
            && (data == [] ==> reply == Word(0x6a, 0x80))
            && (data != [] && !HasKey(s, s.ring.sig) ==> reply == Word(0x63, 0x82))
            && (data != [] && HasKey(s, s.ring.sig) && KeyAt(s, s.ring.sig.value).encrypted ==> reply == Word(0x69, 0x82))
            && (data != [] && Unlocked(s, s.ring.sig) && !Glows(s, s.ring.sig) ==> reply == Word(0x63, 0x82))
  {
    SignatureStep(env, s, data, le, o);
  }

  /** The answer of a library, or the unrecoverable error. */
  function Delivered(answer: Option<Bytes>): Reply
  {
    match answer
    case Some(body) => Ok(body)
    case None => Word(0x91, 0xa1)
  }

  /** An open RSA key answers with the library's signature of what follows 19 bytes of DigestInfo. */
  lemma RsaSignatureAnswer(env: Env, s: State, data: Bytes, le: nat, o: Oracle)
    requires !s.crashed && data != [] && Glows(s, s.ring.sig) && SigMaterial(s).kind == RsaKey
    ensures Exec(env, s, Send(0x2a, 0x9e, 0x9a, data, le, o)).reply
            == if |data| == 51 then Delivered(o.signRsa(SigMaterial(s), Sha256, data[19..]))
               else if |data| == 67 then Delivered(o.signRsa(SigMaterial(s), Sha384, data[19..]))
               else if |data| == 83 then Delivered(o.signRsa(SigMaterial(s), Sha512, data[19..]))
               else Word(0x6a, 0x80)
  {
    SignatureStep(env, s, data, le, o);
  }

  lemma EcdsaBody(env: Env, s: State, data: Bytes, le: nat, o: Oracle, r: nat, t: nat)
    requires !s.crashed && data != [] && Glows(s, s.ring.sig) && SigMaterial(s).kind == PgpEcdsaKey
    requires o.signEcdsa(SigMaterial(s), data) == Some((r, t))
    ensures Exec(env, s, Send(0x2a, 0x9e, 0x9a, data, le, o)).reply == Ok(EcdsaLayout.RawSignature(o.xBits, r, t))
  {
    SignatureStep(env, s, data, le, o);
  }

  /** An open ECDSA key answers with both numbers of the library's signature of the data, each in the same width. */
  lemma EcdsaSignatureAnswer(env: Env, s: State, data: Bytes, le: nat, o: Oracle, r: nat, t: nat)
    requires !s.crashed && data != [] && Glows(s, s.ring.sig) && SigMaterial(s).kind == PgpEcdsaKey
    requires o.signEcdsa(SigMaterial(s), data) == Some((r, t))
    requires var width := (o.xBits + 7) / 8 + 2; r < Pow256(width) && t < Pow256(width)
    ensures var reply := Exec(env, s, Send(0x2a, 0x9e, 0x9a, data, le, o)).reply;
            IsCompleted(reply) && EcdsaLayout.Halves(reply.body, (o.xBits + 7) / 8 + 2, r, t)
  {
    EcdsaBody(env, s, data, le, o, r, t);
    RawIsHalves(Exec(env, s, Send(0x2a, 0x9e, 0x9a, data, le, o)).reply, o.xBits, r, t);
  }

  lemma RawIsHalves(reply: Reply, xBits: nat, r: nat, t: nat)
    requires reply == Ok(EcdsaLayout.RawSignature(xBits, r, t))
    requires var width := (xBits + 7) / 8 + 2; r < Pow256(width) && t < Pow256(width)
    ensures IsCompleted(reply) && EcdsaLayout.Halves(reply.body, (xBits + 7) / 8 + 2, r, t)
  {
    EcdsaLayout.FittingHalves(xBits, r, t);
  }

  /** For a 256-bit key that is 68 bytes, two more for each number than the key has. */
  lemma P256SignatureSize(env: Env, s: State, data: Bytes, le: nat, o: Oracle, r: nat, t: nat)
    requires !s.crashed && data != [] && Glows(s, s.ring.sig) && SigMaterial(s).kind == PgpEcdsaKey
    requires o.signEcdsa(SigMaterial(s), data) == Some((r, t)) && o.xBits == 256
    requires |EcdsaLayout.MinimalBytes(r)| <= 32 && |EcdsaLayout.MinimalBytes(t)| <= 32
    ensures var reply := Exec(env, s, Send(0x2a, 0x9e, 0x9a, data, le, o)).reply;
            IsCompleted(reply) && |reply.body| == 68
  {
    EcdsaBody(env, s, data, le, o, r, t);
    EcdsaLayout.P256Size(o.xBits, r, t);
  }

  /** A failing ECDSA library, and the key types that do not sign. */
  lemma OtherSignatureAnswers(env: Env, s: State, data: Bytes, le: nat, o: Oracle)
    requires !s.crashed && data != [] && Glows(s, s.ring.sig)
    ensures var reply := Exec(env, s, Send(0x2a, 0x9e, 0x9a, data, le, o)).reply;
            && (SigMaterial(s).kind == PgpEcdsaKey && o.signEcdsa(SigMaterial(s), data).None? ==> reply == Word(0x91, 0xa1))
            && (SigMaterial(s).kind !in {RsaKey, PgpEcdsaKey} ==> reply == Word(0x63, 0x82))
  {
    SignatureStep(env, s, data, le, o);
  }

  // ---------------------------------------------------------------------
  // PSO:DECIPHER and PSO:ENCIPHER

  lemma DecipherStep(env: Env, s: State, data: Bytes, le: nat, o: Oracle)
    requires !s.crashed
    ensures var out, inner := Exec(env, s, Send(0x2a, 0x80, 0x86, data, le, o)), Decipher(s, data, o);
            out.reply == inner.reply && out.state == inner.state.(white := false)
  {
    var c := Send(0x2a, 0x80, 0x86, data, le, o);
    assert Params(c.capdu) == DECIPHER;
    assert SecurityOperation(env, s, Params(c.capdu), data, o) == Decipher(s, data, o);
  }

  lemma EncipherStep(env: Env, s: State, data: Bytes, le: nat, o: Oracle)
    requires !s.crashed
    ensures var out, inner := Exec(env, s, Send(0x2a, 0x86, 0x80, data, le, o)), Encipher(s, data, o);
            out.reply == inner.reply && out.state == inner.state.(white := false)
  {
    var c := Send(0x2a, 0x86, 0x80, data, le, o);
    assert Params(c.capdu) == ENCIPHER;
    assert SecurityOperation(env, s, Params(c.capdu), data, o) == Encipher(s, data, o);
  }

  /** What the AES engine makes of whole blocks; otherwise an error word, or no reply. */
  function EngineAnswer(decrypting: bool, data: Bytes, aes: Engine): Reply
  {
    match aes
    case NoEngine => Erred
    case NoDeviceKey => NotAllowed
    case CipherError => if |data| % 16 == 0 then Erred else Word(0x6a, 0x80)
    case Cbc(encrypt, decrypt) =>
      if |data| % 16 != 0 then Word(0x6a, 0x80) else Ok(if decrypting then decrypt(data) else encrypt(data))
  }

  /** The AES form of PSO:DECIPHER, in every state: the engine decrypts what follows the first byte. */
  lemma AesDecipherAnswer(env: Env, s: State, data: Bytes, le: nat, o: Oracle)
    requires !s.crashed
    ensures Exec(env, s, Send(0x2a, 0x80, 0x86, [0x02] + data, le, o))
            == Outcome(s.(white := false), EngineAnswer(true, data, o.aes))
  {
    DecipherStep(env, s, [0x02] + data, le, o);
    assert ([0x02] + data)[1..] == data;
  }

  /** PSO:ENCIPHER: with an open decryption key the engine encrypts all the data. */
  lemma EncipherAnswer(env: Env, s: State, data: Bytes, le: nat, o: Oracle)
    requires !s.crashed && HasKey(s, s.ring.dec)
    ensures Exec(env, s, Send(0x2a, 0x86, 0x80, data, le, o))
            == Outcome(s.(white := false),
                       if KeyAt(s, s.ring.dec.value).encrypted then Word(0x69, 0x82) else EngineAnswer(false, data, o.aes))
  {
    EncipherStep(env, s, data, le, o);
  }

  /** What PSO:ENCIPHER answers comes back from PSO:DECIPHER, if the engine's two directions fit. */
  lemma AesRoundTrip(env: Env, s: State, t: State, data: Bytes, o: Oracle)
    requires !s.crashed && !t.crashed && Unlocked(s, s.ring.dec)
    requires o.aes.Cbc? && |data| % 16 == 0
    requires |o.aes.encrypt(data)| == |data| && o.aes.decrypt(o.aes.encrypt(data)) == data
    ensures var sealed := Exec(env, s, Send(0x2a, 0x86, 0x80, data, 0, o)).reply;
            && IsCompleted(sealed)
            && Exec(env, t, Send(0x2a, 0x80, 0x86, [0x02] + sealed.body, 0, o)).reply == Ok(data)
  {
    EncipherAnswer(env, s, data, 0, o);
    AesDecipherAnswer(env, t, o.aes.encrypt(data), 0, o);
  }

  /** Without data, and, outside the AES form, without a key, with a locked one, or with one that does not decrypt. */
  lemma DecipherRefused(env: Env, s: State, data: Bytes, le: nat, o: Oracle)
    requires !s.crashed
    ensures var reply := Exec(env, s, Send(0x2a, 0x80, 0x86, data, le, o)).reply;
            && (data == [] ==> reply == Word(0x6a, 0x80))
            && (data != [] && data[0] != 0x02 ==>
                  && (!HasKey(s, s.ring.dec) ==> reply == Word(0x63, 0x82))
                  && (HasKey(s, s.ring.dec) && KeyAt(s, s.ring.dec.value).encrypted ==> reply == Word(0x69, 0x82))
                  && (Unlocked(s, s.ring.dec) && !Glows(s, s.ring.dec) ==> reply == Word(0x63, 0x82))
                  && (Glows(s, s.ring.dec) && DecMaterial(s).kind !in {RsaKey, EcdhKey} ==> reply == Word(0x63, 0x82)))
  {
    DecipherStep(env, s, data, le, o);
  }

  /** An open RSA key answers with the library's plaintext of what follows the zero byte. */
  lemma RsaDecipherAnswer(env: Env, s: State, data: Bytes, le: nat, o: Oracle)
    requires !s.crashed && Glows(s, s.ring.dec) && DecMaterial(s).kind == RsaKey
    requires data != [] && data[0] != 0x02
    ensures Exec(env, s, Send(0x2a, 0x80, 0x86, data, le, o)).reply
            == if data[0] == 0x00 then Delivered(o.decryptRsa(DecMaterial(s), data[1..])) else Word(0x63, 0x82)
  {
    DecipherStep(env, s, data, le, o);
  }

  /**
   An open ECDH key: the library's shared secret with the wrapped point, widened to one coordinate
   without changing its value; a panic if it does not fit, and an error word without a point.
   */
  lemma EcdhDecipherAnswer(env: Env, s: State, data: Bytes, le: nat, o: Oracle, pubKey: Bytes, n: nat)
    requires !s.crashed && OpenEcdh(s) && Tlv.Wraps(data, pubKey) && Point(pubKey, n)
    ensures var reply := Exec(env, s, Send(0x2a, 0x80, 0x86, data, le, o)).reply;
            match o.decaps(DecMaterial(s), pubKey)
            case None => reply == Word(0x91, 0xa1)
            case Some(secret) =>
              if n < |secret| then reply == Panicked
              else IsCompleted(reply) && |reply.body| == n && BigEndian(reply.body) == BigEndian(secret)
  {
    DecipherStep(env, s, data, le, o);
    WrapsStarts(data, pubKey);
    DecipherAgrees(s, data, o);
    AgreesOnPoint(DecMaterial(s), data, o, pubKey, n);
    match o.decaps(DecMaterial(s), pubKey)
    case None =>
    case Some(secret) =>
      if |secret| <= n {
        BigEndianPadding(n - |secret|, secret);
      }
  }

  lemma WrapsStarts(data: Bytes, pubKey: Bytes)
    requires Tlv.Wraps(data, pubKey)
    ensures |data| >= 1 && data[0] == 0xa6
  {
    var key, point :| Tlv.Carries(data, Tlv.DO_CIPHER, key) && Tlv.Carries(key, Tlv.DO_PUB_KEY, point)
                      && Tlv.Carries(point, Tlv.DO_EXT_PUB_KEY, pubKey);
    assert Tlv.TagBytes(Tlv.DO_CIPHER) == [0xa6];
  }

  /** And data that holds no point. */
  lemma EcdhDecipherRefused(env: Env, s: State, data: Bytes, le: nat, o: Oracle)
    requires !s.crashed && OpenEcdh(s) && data != [] && data[0] != 0x02
    requires forall pubKey: Bytes, n: nat :: !(Tlv.Wraps(data, pubKey) && Point(pubKey, n))
    ensures var reply := Exec(env, s, Send(0x2a, 0x80, 0x86, data, le, o)).reply;
            if data[0] != 0xa6 then reply == Word(0x63, 0x82)
            else if Tlv.Undecodable(data) then reply == Panicked
            else reply == Word(0x6a, 0x80)
  {
    DecipherStep(env, s, data, le, o);
    if data[0] == 0xa6 {
      DecipherAgrees(s, data, o);
      AgreesWithoutPoint(DecMaterial(s), data, o);
      Tlv.CipherKeyPanicsExactly(data);
    }
  }

  /** Any other parameters of the instruction are refused. */
  lemma OtherOperationsAreRefused(env: Env, s: State, p1: byte, p2: byte, data: Bytes, le: nat, o: Oracle)
    requires !s.crashed && Tag(p1, p2) !in {0x9e9a, 0x8086, 0x8680}
    ensures Exec(env, s, Send(0x2a, p1, p2, data, le, o)) == Outcome(s.(white := false), NotAllowed)
  {
  }

  // ---------------------------------------------------------------------
  // GET CHALLENGE

  /** As many random bytes as were asked for, or no reply. */
  lemma ChallengeAnswer(env: Env, s: State, p1: byte, p2: byte, data: Bytes, le: nat, o: Oracle)
    requires !s.crashed
    ensures var out := Exec(env, s, Send(0x84, p1, p2, data, le, o));
            && out.state == s
            && match o.random
               case None => out.reply == Erred
               case Some(random) =>
                 IsCompleted(out.reply) && |out.reply.body| == le && forall i :: 0 <= i < le ==> out.reply.body[i] == random(i)
  {
  }
}
