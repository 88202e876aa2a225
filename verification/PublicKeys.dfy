/** Which public key the card shows. */
module PublicKeys {
  import opened ByteStrings
  import opened DataObjects
  import opened LockMachine
  import opened LockSteps
  import opened CardRuns
  import Tlv

  /** A control reference template: the tag alone, or with a key reference object inside. */
  predicate ControlReference(crt: Bytes, tag: nat, key: byte)
  {
    crt == Tlv.Encode(tag, []) || crt == Tlv.Encode(tag, Tlv.Encode(0x84, [key]))
  }

  lemma TemplateBytes(tag: byte, key: byte)
    ensures Tlv.Encode(tag, []) == [tag, 0x00]
    ensures Tlv.Encode(tag, Tlv.Encode(0x84, [key])) == [tag, 0x03, 0x84, 0x01, key]
  {
    assert Tlv.Encode(0x84, [key]) == [0x84, 0x01, key];
  }

  /**
   The subkey of an entity that a template asks for: the last one whose valid binding has the flags
   for signing, for both kinds of encryption, or for authentication.
   */
  function AskedFor(e: Entity, crt: Bytes): (i: Option<nat>)
    ensures i.Some? ==> i.value < |e|
  {
    if ControlReference(crt, 0xb6, 1) then LastIndex(e, (b: Binding) => b.Binding? && b.valid && b.sign)
    else if ControlReference(crt, 0xb8, 2) then
      LastIndex(e, (b: Binding) => b.Binding? && b.valid && b.storage && b.communications)
    else if ControlReference(crt, 0xa4, 3) then LastIndex(e, (b: Binding) => b.Binding? && b.valid && b.authenticate)
    else None
  }

  lemma SameLast(e: Entity, p: Binding -> bool, q: Binding -> bool)
    requires forall b :: p(b) <==> q(b)
    ensures LastIndex(e, p) == LastIndex(e, q)
  {
    LastIndexIsLast(e, p);
    LastIndexIsLast(e, q);
  }

  lemma SlotsAreLast(e: Entity)
    ensures LastIndex(e, ForSigning) == LastIndex(e, (b: Binding) => b.Binding? && b.valid && b.sign)
    ensures LastIndex(e, ForDecryption) == LastIndex(e, (b: Binding) => b.Binding? && b.valid && b.storage && b.communications)
    ensures LastIndex(e, ForAuthentication) == LastIndex(e, (b: Binding) => b.Binding? && b.valid && b.authenticate)
  {
    SameLast(e, ForSigning, (b: Binding) => b.Binding? && b.valid && b.sign);
    SameLast(e, ForDecryption, (b: Binding) => b.Binding? && b.valid && b.storage && b.communications);
    SameLast(e, ForAuthentication, (b: Binding) => b.Binding? && b.valid && b.authenticate);
  }

  predicate IsReadPublicKey(c: Command)
  {
    c.Apdu? && c.capdu.cla == 0x00 && c.capdu.ins == 0x47 && c.capdu.p1 == 0x81 && c.capdu.p2 == 0x00
  }

  /** A template object whose content reads as the key. */
  ghost predicate ShowsKey(body: Bytes, k: PublicKey)
  {
    exists content ::
      && Tlv.ParseAll(body) == Some([Tlv.Field(Tlv.DO_PUB_KEY, content)])
      && ReadsAsKey(Tlv.ParseAll(content), k)
  }

  lemma TemplateShowsKey(k: PublicKey)
    requires |KeyContent(k)| <= 0xffff
    ensures ShowsKey(PublicTemplate(k), k)
  {
    PublicTemplateParses(k);
  }

  lemma ReadPublicKeyStep(env: Env, s: State, c: Command)
    requires !s.crashed && IsReadPublicKey(c)
    ensures Exec(env, s, c) == Outcome(s, PublicKeyReply(s, 0x8100, c.capdu.data))
  {
  }

  /** The slots and public keys of the state are those of the entity. */
  predicate Shows(s: State, e: Entity)
  {
    && s.ring.sig == LastIndex(e, ForSigning)
    && s.ring.dec == LastIndex(e, ForDecryption)
    && s.ring.aut == LastIndex(e, ForAuthentication)
    && s.ring.publics == PublicsOf(e)
  }

  lemma TemplateFindsAskedFor(s: State, e: Entity, crt: Bytes)
    requires Shows(s, e)
    ensures AskedFor(e, crt).Some? <==> TemplateSlot(s, crt).Some? && TemplateSlot(s, crt).value.Some?
    ensures AskedFor(e, crt).Some? ==> TemplateSlot(s, crt).value == AskedFor(e, crt)
  {
    SlotsAreLast(e);
    TemplateBytes(0xb6, 1);
    TemplateBytes(0xb8, 2);
    TemplateBytes(0xa4, 3);
  }

  lemma PublicKeyReplies(s: State, e: Entity, crt: Bytes)
    requires Shows(s, e)
    ensures var reply, i := PublicKeyReply(s, 0x8100, crt), AskedFor(e, crt);
            && (IsCompleted(reply) <==> i.Some? && !e[i.value].public.OtherPublic?)
            && (IsCompleted(reply) ==> reply.body == PublicTemplate(e[i.value].public))
  {
    TemplateFindsAskedFor(s, e, crt);
  }

  lemma LoadShows(env: Env, s: State, armored: Bytes, e: Entity, cs: seq<Command>)
    requires Inv(s) && !s.initialized
    ensures Shows(Run(env, Load(s, armored, e), cs), e)
  {
    LoadKeepsInv(s, armored, e);
    KeysAreFixed(env, Load(s, armored, e), cs);
  }

  /**
   In every run after an entity was loaded, whatever is locked: a template gets an answer exactly when
   the entity has the subkey it asks for, with a known type; the answer parses back to the public key
   of that very subkey; and the card does not change.
   */
  lemma PublicKeyIsShown(env: Env, s: State, armored: Bytes, e: Entity, cs: seq<Command>, c: Command)
    requires Inv(s) && !s.initialized && IsReadPublicKey(c)
    requires !Run(env, Load(s, armored, e), cs).crashed
    ensures var t := Run(env, Load(s, armored, e), cs);
            var out, i := Exec(env, t, c), AskedFor(e, c.capdu.data);
            && out.state == t
            && (IsCompleted(out.reply) <==> i.Some? && !e[i.value].public.OtherPublic?)
            && (IsCompleted(out.reply) && |KeyContent(e[i.value].public)| <= 0xffff ==>
                  ShowsKey(out.reply.body, e[i.value].public))
  {
    var t, i := Run(env, Load(s, armored, e), cs), AskedFor(e, c.capdu.data);
    LoadShows(env, s, armored, e, cs);
    ReadPublicKeyStep(env, t, c);
    PublicKeyReplies(t, e, c.capdu.data);
    if i.Some? && |KeyContent(e[i.value].public)| <= 0xffff {
      TemplateShowsKey(e[i.value].public);
    }
  }

  /** Other parameters, unknown templates, absent subkeys and unknown key types; nothing changes. */
  lemma PublicKeyRefused(env: Env, s: State, c: Command)
    requires !s.crashed && c.Apdu? && c.capdu.cla == 0x00 && c.capdu.ins == 0x47
    ensures var out, crt := Exec(env, s, c), c.capdu.data;
            var slot := if ControlReference(crt, 0xb6, 1) then Some(s.ring.sig)
                        else if ControlReference(crt, 0xb8, 2) then Some(s.ring.dec)
                        else if ControlReference(crt, 0xa4, 3) then Some(s.ring.aut)
                        else None;
            && out.state == s
            && (!IsReadPublicKey(c) || slot.None? ==> out.reply == NotAllowed)
            && (IsReadPublicKey(c) && slot == Some(None) ==> out.reply == Status(0x6a, 0x88, []))
            && (IsReadPublicKey(c) && slot.Some? && slot.value.Some? && PublicAt(s, slot.value.value).OtherPublic? ==>
                  out.reply == Erred)
  {
    TemplateBytes(0xb6, 1);
    TemplateBytes(0xb8, 2);
    TemplateBytes(0xa4, 3);
    assert Params(c.capdu) == 0x8100 <==> c.capdu.p1 == 0x81 && c.capdu.p2 == 0x00;
  }

  lemma OnlyOne(items: seq<Tlv.Field>, t: nat, v: Bytes, w: Bytes)
    requires TheOnly(items, t, v) && TheOnly(items, t, w)
    ensures v == w
  {
  }

  /** No two keys that a template can hold read the same. */
  lemma ReadsAsOneKey(items: Option<seq<Tlv.Field>>, k: PublicKey, l: PublicKey)
    requires ReadsAsKey(items, k) && ReadsAsKey(items, l)
    requires k.RsaPublic? ==> k.exponent < 0x1_0000_0000
    requires l.RsaPublic? ==> l.exponent < 0x1_0000_0000
    ensures k == l
  {
    assert k.RsaPublic? == l.RsaPublic? && k.EcPublic? == l.EcPublic?;
    if k.RsaPublic? {
      OnlyOne(items.value, 0x81, k.modulus, l.modulus);
      OnlyOne(items.value, 0x82, NetworkBytes(k.exponent), NetworkBytes(l.exponent));
      NetworkBytesDiffer(k.exponent, l.exponent);
    } else if k.EcPublic? {
      OnlyOne(items.value, 0x86, k.point, l.point);
    }
  }

  /** So an answer shows one key only. */
  lemma ShownKeyIsUnique(body: Bytes, k: PublicKey, l: PublicKey)
    requires ShowsKey(body, k) && ShowsKey(body, l)
    requires k.RsaPublic? ==> k.exponent < 0x1_0000_0000
    requires l.RsaPublic? ==> l.exponent < 0x1_0000_0000
    ensures k == l
  {
    var a :| Tlv.ParseAll(body) == Some([Tlv.Field(Tlv.DO_PUB_KEY, a)]) && ReadsAsKey(Tlv.ParseAll(a), k);
    var b :| Tlv.ParseAll(body) == Some([Tlv.Field(Tlv.DO_PUB_KEY, b)]) && ReadsAsKey(Tlv.ParseAll(b), l);
    assert [Tlv.Field(Tlv.DO_PUB_KEY, a)][0] == [Tlv.Field(Tlv.DO_PUB_KEY, b)][0];
    ReadsAsOneKey(Tlv.ParseAll(a), k, l);
  }
}
