/**
 The OpenPGP card of internal/icc as a machine over values: what every command
 does to key material, caches, counters, flags and LEDs when pointers are
 replaced by the values they reach. Module `CardObjects` refines it.
 */
module LockMachine {
  import opened ByteStrings
  import opened DataObjects
  import Tlv
  import EcdsaLayout

  const PW_VERIFY: byte := 0x00
  const PW_LOCK: byte := 0xff
  const PW1_CDS: byte := 0x81
  const PW1: byte := 0x82
  const PW3: byte := 0x83
  const DEFAULT_PW1_ERROR_COUNTER := 3

  const SELECT: byte := 0xa4
  const GET_DATA: byte := 0xca
  const VERIFY: byte := 0x20
  const GENERATE_ASYMMETRIC_KEY_PAIR: byte := 0x47
  const GET_CHALLENGE: byte := 0x84
  const PERFORM_SECURITY_OPERATION: byte := 0x2a

  const COMPUTE_DIGITAL_SIGNATURE := 0x9e9a
  const DECIPHER := 0x8086
  const ENCIPHER := 0x8680

  const RSA_PADDING: byte := 0x00
  const AES_PADDING: byte := 0x02

  // ---------------------------------------------------------------------
  // Keys

  /** The Go type of decrypted key material; the two ECDSA packages are different types. */
  datatype Kind = RsaKey | PgpEcdsaKey | StdEcdsaKey | EcdhKey | OtherKey

  datatype Material = Material(kind: Kind, secret: Bytes)

  /** A `packet.PrivateKey` by value; a dummy key is unencrypted without material. */
  datatype KeyValue = KeyValue(fingerprint: Bytes, encrypted: bool, material: Option<Material>, sealed: Bytes)

  /** The zero value of a cache that was never written. */
  const ZERO_KEY := KeyValue([], false, None, [])

  function Opened(k: KeyValue, m: Material): KeyValue
  {
    k.(encrypted := false, material := Some(m))
  }

  /** `k` is `c` itself or `c` decrypted. */
  predicate FormOf(k: KeyValue, c: KeyValue)
  {
    k == c || (c.encrypted && k.material.Some? && k == Opened(c, k.material.value))
  }

  /** The binding signature of a subkey, with the flags that `decodeSubkeys` reads. */
  datatype Binding = NoBinding | Binding(valid: bool, sign: bool, storage: bool, communications: bool, authenticate: bool)

  /** A subkey as the packet reader delivers it; its public half is never locked. */
  datatype Packet = Packet(binding: Binding, key: Option<KeyValue>, public: PublicKey)

  type Entity = seq<Packet>

  /** The library calls and the configuration that stay fixed for one card. */
  datatype Env = Env(
    serial: Bytes,
    snvs: bool,
    unwrap: Bytes -> Option<Bytes>,
    parse: Bytes -> Option<Entity>,
    decrypt: (KeyValue, Bytes) -> Option<Material>)

  predicate ForSigning(b: Binding)
  {
    b.Binding? && b.valid && b.sign
  }

  predicate ForDecryption(b: Binding)
  {
    b.Binding? && b.valid && b.storage && b.communications
  }

  predicate ForAuthentication(b: Binding)
  {
    b.Binding? && b.valid && b.authenticate
  }

  /** The last subkey whose binding satisfies `p`. */
  function LastIndex(e: Entity, p: Binding -> bool): (i: Option<nat>)
    ensures i.Some? ==> i.value < |e|
  {
    if e == [] then None
    else if p(e[|e| - 1].binding) then Some(|e| - 1)
    else LastIndex(e[..|e| - 1], p)
  }

  /** The chosen subkey qualifies and none after it does; without one, none qualifies. */
  lemma {:induction false} LastIndexIsLast(e: Entity, p: Binding -> bool)
    ensures LastIndex(e, p).Some? ==> p(e[LastIndex(e, p).value].binding)
    ensures forall j :: 0 <= j < |e| && p(e[j].binding) ==> LastIndex(e, p).Some? && j <= LastIndex(e, p).value
  {
    if e != [] {
      LastIndexIsLast(e[..|e| - 1], p);
    }
  }

  lemma LastIndexGrows(e: Entity, n: nat, p: Binding -> bool)
    requires n < |e|
    ensures LastIndex(e[..n + 1], p) == if p(e[n].binding) then Some(n) else LastIndex(e[..n], p)
  {
    assert e[..n + 1][..n] == e[..n];
  }

  // ---------------------------------------------------------------------
  // State

  /** What happened to key material, in order; subkeys are named by their index. */
  datatype Event =
    | Decrypted(id: nat)
    | Refused(id: nat)
    | Signed(id: nat)
    | Listed(id: nat)

  datatype Caches = Caches(sig: KeyValue, dec: KeyValue, aut: KeyValue)

  /**
   The card's keys: which entity subkeys fill the slots, the private key reachable through each
   entity subkey and its public key, the key of the authentication copy, whether the copy still
   shares its key object with its origin, and the caches.
   */
  datatype Ring = Ring(
    sig: Option<nat>,
    dec: Option<nat>,
    aut: Option<nat>,
    live: seq<Option<KeyValue>>,
    publics: seq<PublicKey>,
    autKey: Option<KeyValue>,
    autShared: bool,
    caches: Caches)

  datatype State = State(
    ring: Ring,
    armored: Bytes,
    initialized: bool,
    selected: bool,
    crashed: bool,
    retries: nat,
    signatures: nat,
    blue: bool,
    white: bool,
    log: seq<Event>)

  const EMPTY_RING := Ring(None, None, None, [], [], None, false, Caches(ZERO_KEY, ZERO_KEY, ZERO_KEY))

  /** A card that was switched on with `armored` bundled and LEDs in any state. */
  function Start(armored: Bytes, blue: bool, white: bool): State
  {
    State(EMPTY_RING, armored, false, false, false, 0, 0, blue, white, [])
  }

  predicate HasKey(s: State, id: Option<nat>)
  {
    id.Some? && id.value < |s.ring.live| && s.ring.live[id.value].Some?
  }

  function KeyAt(s: State, id: nat): KeyValue
    requires HasKey(s, Some(id))
  {
    s.ring.live[id].value
  }

  predicate Unlocked(s: State, id: Option<nat>)
  {
    HasKey(s, id) && !KeyAt(s, id.value).encrypted
  }

  predicate Glows(s: State, id: Option<nat>)
  {
    Unlocked(s, id) && KeyAt(s, id.value).material.Some?
  }

  predicate Lit(s: State)
  {
    Glows(s, s.ring.sig) || Glows(s, s.ring.dec)
  }

  /** `signalVerificationStatus`. */
  function Signal(s: State): State
  {
    s.(blue := Lit(s))
  }

  /** The search of `Restore`: the first cache with this fingerprint. */
  function FirstMatch(c: Caches, fingerprint: Bytes): Option<KeyValue>
  {
    if c.sig.fingerprint == fingerprint then Some(c.sig)
    else if c.dec.fingerprint == fingerprint then Some(c.dec)
    else if c.aut.fingerprint == fingerprint then Some(c.aut)
    else None
  }

  // ---------------------------------------------------------------------
  // Key transitions

  /** A successful in-place decryption; a still shared authentication copy is decrypted with it. */
  function OpenKey(r: Ring, id: nat, m: Material): Ring
    requires id < |r.live| && r.live[id].Some?
  {
    var k := Some(Opened(r.live[id].value, m));
    r.(live := r.live[id := k], autKey := if r.autShared && r.aut == Some(id) then k else r.autKey)
  }

  function Unlock(s: State, id: nat, m: Material): State
    requires HasKey(s, Some(id))
  {
    s.(ring := OpenKey(s.ring, id, m), retries := DEFAULT_PW1_ERROR_COUNTER, log := s.log + [Decrypted(id)])
  }

  function Refuse(s: State, id: nat): State
    requires s.retries > 0
  {
    s.(retries := s.retries - 1, log := s.log + [Refused(id)])
  }

  /** Swapping the key pointer of a subkey ends any sharing. */
  function SwapKey(r: Ring, id: nat, found: Option<KeyValue>): Ring
    requires id < |r.live|
  {
    r.(live := r.live[id := found], autShared := r.autShared && r.aut != Some(id))
  }

  /** The swap as locking does it: a nil pointer would be dereferenced right after. */
  function Swapped(s: State, id: nat, found: Option<KeyValue>): State
    requires HasKey(s, Some(id))
  {
    s.(ring := SwapKey(s.ring, id, found), crashed := s.crashed || found.None?)
  }

  /** `Restore`: the key is swapped for a copy of the first cached key with its fingerprint. */
  function Restore(s: State, id: nat): State
    requires HasKey(s, Some(id))
  {
    Swapped(s, id, FirstMatch(s.ring.caches, KeyAt(s, id).fingerprint))
  }

  function Relock(s: State, id: nat): State
    requires HasKey(s, Some(id))
  {
    if KeyAt(s, id).encrypted then s else Restore(s, id)
  }

  // ---------------------------------------------------------------------
  // Commands

  datatype Reply =
    | Status(sw1: nat, sw2: nat, body: Bytes)
    | FileNotFound
    | NotAllowed
    | Erred
    | Panicked
    | Console(ok: bool)

  function Completed(body: Bytes): Reply { Status(0x90, 0x00, body) }
  function VerifyFail(retries: nat): Reply { Status(0x63, retries, []) }
  const KEY_NOT_SUPPORTED := Status(0x63, 0x82, [])
  const WRONG_DATA := Status(0x6a, 0x80, [])
  const SECURITY_CONDITION := Status(0x69, 0x82, [])
  const UNRECOVERABLE := Status(0x91, 0xa1, [])

  datatype Outcome = Outcome(state: State, reply: Reply)

  function SlotOf(s: State, p2: byte): Option<nat>
  {
    if p2 == PW1_CDS then s.ring.sig else if p2 == PW1 then s.ring.dec else None
  }

  /** VERIFY; the indicator is updated last, whatever the outcome. */
  function Verify(env: Env, s: State, p1: byte, p2: byte, passphrase: Bytes): (out: Outcome)
    ensures out.state.white == s.white
  {
    var out := VerifyCore(env, s, p1, p2, passphrase);
    Outcome(Signal(out.state), out.reply)
  }

  function VerifyCore(env: Env, s: State, p1: byte, p2: byte, passphrase: Bytes): (out: Outcome)
    ensures out.state.white == s.white
  {
    var id := SlotOf(s, p2);
    if !HasKey(s, id) then Outcome(s, NotAllowed)
    else if p1 == PW_VERIFY then TryUnlock(env, s, id.value, passphrase)
    else if p1 == PW_LOCK then Outcome(Relock(s, id.value), Completed([]))
    else Outcome(s, NotAllowed)
  }

  function TryUnlock(env: Env, s: State, id: nat, passphrase: Bytes): (out: Outcome)
    requires HasKey(s, Some(id))
    ensures out.state.white == s.white
  {
    var k := KeyAt(s, id);
    if passphrase == [] then
      Outcome(s, if k.encrypted then VerifyFail(s.retries) else Completed([]))
    else if !k.encrypted then Outcome(s, Completed([]))
    else if s.retries == 0 then Outcome(s, VerifyFail(0))
    else match env.decrypt(k, passphrase)
      case Some(m) => Outcome(Unlock(s, id, m), Completed([]))
      case None => Outcome(Refuse(s, id), VerifyFail(s.retries - 1))
  }

  function Lock(env: Env, s: State, p2: byte): (t: State)
    ensures t.white == s.white
  {
    Verify(env, s, PW_LOCK, p2, []).state
  }

  /** What libraries and hardware answer during one command, as functions of key and data. */
  datatype Oracle = Oracle(
    signRsa: (Material, Hash, Bytes) -> Option<Bytes>,
    signEcdsa: (Material, Bytes) -> Option<(nat, nat)>,
    xBits: nat,
    decryptRsa: (Material, Bytes) -> Option<Bytes>,
    decaps: (Material, Bytes) -> Option<Bytes>,
    aes: Engine,
    random: Option<nat -> byte>,
    fields: PublicFields)

  datatype Hash = Sha256 | Sha384 | Sha512

  /** The AES engine: not built in, without a device key, failing, or working in CBC mode. */
  datatype Engine = NoEngine | NoDeviceKey | CipherError | Cbc(encrypt: Bytes -> Bytes, decrypt: Bytes -> Bytes)

  /** The hash function that a digest size stands for. */
  function HashOfSize(n: int): Option<Hash>
  {
    if n == 32 then Some(Sha256)
    else if n == 48 then Some(Sha384)
    else if n == 64 then Some(Sha512)
    else None
  }

  /** The signature bytes or the reply that replaces them. */
  datatype Attempt = Made(sig: Bytes) | Failed(reply: Reply)

  function SignWith(k: KeyValue, data: Bytes, o: Oracle): Attempt
  {
    if k.material.None? then Failed(KEY_NOT_SUPPORTED)
    else match k.material.value.kind
      case RsaKey =>
        if |data| < 19 + 32 || HashOfSize(|data| - 19).None? then Failed(WRONG_DATA)
        else
          (match o.signRsa(k.material.value, HashOfSize(|data| - 19).value, data[19..])
           case None => Failed(UNRECOVERABLE)
           case Some(sig) => Made(sig))
      case PgpEcdsaKey =>
        (match o.signEcdsa(k.material.value, data)
         case None => Failed(UNRECOVERABLE)
         case Some(rs) => Made(EcdsaLayout.RawSignature(o.xBits, rs.0, rs.1)))
      case _ => Failed(KEY_NOT_SUPPORTED)
  }

  function CountSignature(s: State, id: nat): State
  {
    s.(signatures := (s.signatures + 1) % 0x1_0000_0000, log := s.log + [Signed(id)])
  }

  function ComputeDigitalSignature(env: Env, s: State, data: Bytes, o: Oracle): Outcome
  {
    if data == [] then Outcome(s, WRONG_DATA)
    else if !HasKey(s, s.ring.sig) then Outcome(s, KEY_NOT_SUPPORTED)
    else if KeyAt(s, s.ring.sig.value).encrypted then Outcome(s, SECURITY_CONDITION)
    else match SignWith(KeyAt(s, s.ring.sig.value), data, o)
      case Made(sig) => Outcome(Lock(env, CountSignature(s, s.ring.sig.value), PW1_CDS), Completed(sig))
      case Failed(reply) => Outcome(Lock(env, s, PW1_CDS), reply)
  }

  function Note(s: State, e: Event): State
  {
    s.(log := s.log + [e])
  }

  /** `aesCBC`; an error leaves no reply. */
  function AesReply(decrypting: bool, data: Bytes, o: Oracle): Reply
  {
    if o.aes.NoEngine? then Erred
    else if o.aes.NoDeviceKey? then NotAllowed
    else if |data| % 16 != 0 then WRONG_DATA
    else if o.aes.CipherError? then Erred
    else Completed(if decrypting then o.aes.decrypt(data) else o.aes.encrypt(data))
  }

  /** The elliptic-curve branch of PSO:DECIPHER. */
  function Agree(m: Material, data: Bytes, o: Oracle): Reply
  {
    match Tlv.CipherKey(data)
    case Panics => Panicked
    case Got(pubKey) =>
      if |pubKey| < 1 || pubKey[0] != 0x04 || |pubKey| % 2 == 0 then WRONG_DATA
      else
        var expected := (|pubKey| - 1) / 2;
        match o.decaps(m, pubKey)
        case None => UNRECOVERABLE
        case Some(secret) =>
          if |secret| > expected then Panicked else Completed(Zeros(expected - |secret|) + secret)
  }

  function DecipherReply(k: KeyValue, data: Bytes, o: Oracle): Reply
    requires |data| >= 1
  {
    if k.material.None? then KEY_NOT_SUPPORTED
    else match k.material.value.kind
      case RsaKey =>
        if data[0] != RSA_PADDING then KEY_NOT_SUPPORTED
        else
          (match o.decryptRsa(k.material.value, data[1..])
           case None => UNRECOVERABLE
           case Some(plaintext) => Completed(plaintext))
      case EcdhKey =>
        if data[0] != Tlv.DO_CIPHER then KEY_NOT_SUPPORTED else Agree(k.material.value, data, o)
      case _ => KEY_NOT_SUPPORTED
  }

  predicate IsCompleted(r: Reply)
  {
    r.Status? && r.sw1 == 0x90 && r.sw2 == 0x00
  }

  /** PSO:DECIPHER; its AES form uses no key of the card. */
  function Decipher(s: State, data: Bytes, o: Oracle): Outcome
  {
    if |data| < 1 then Outcome(s, WRONG_DATA)
    else if data[0] == AES_PADDING then Outcome(s, AesReply(true, data[1..], o))
    else DecipherWithKey(s, data, o)
  }

  function DecipherWithKey(s: State, data: Bytes, o: Oracle): Outcome
    requires |data| >= 1
  {
    if !HasKey(s, s.ring.dec) then Outcome(s, KEY_NOT_SUPPORTED)
    else if KeyAt(s, s.ring.dec.value).encrypted then Outcome(s, SECURITY_CONDITION)
    else
      var reply := DecipherReply(KeyAt(s, s.ring.dec.value), data, o);
      Outcome(if reply.Panicked? then s.(crashed := true) else s, reply)
  }

  /** PSO:ENCIPHER dereferences the decryption key without checking that it is there. */
  function Encipher(s: State, data: Bytes, o: Oracle): Outcome
  {
    if !HasKey(s, s.ring.dec) then Outcome(s.(crashed := true), Panicked)
    else if KeyAt(s, s.ring.dec.value).encrypted then Outcome(s, SECURITY_CONDITION)
    else Outcome(s, AesReply(false, data, o))
  }

  predicate NamesCard(env: Env, file: Bytes)
  {
    file == RID || file == Aid(env.serial)
  }

  /** VERIFY for several password references in turn. */
  function VerifyEach(env: Env, s: State, p1: byte, pws: seq<byte>, passphrase: Bytes): (t: State)
    ensures t.white == s.white
  {
    if pws == [] then s
    else
      var n := |pws| - 1;
      Verify(env, VerifyEach(env, s, p1, pws[..n], passphrase), p1, pws[n], passphrase).state
  }

  const EVERY_PW: seq<byte> := [PW1_CDS, PW1, PW3]

  lemma LockEvery(env: Env, s: State)
    ensures VerifyEach(env, s, PW_LOCK, EVERY_PW, []) == Lock(env, Lock(env, Lock(env, s, PW1_CDS), PW1), PW3)
  {
    assert EVERY_PW[..2] == [PW1_CDS, PW1] && [PW1_CDS, PW1][..1] == [PW1_CDS] && [PW1_CDS][..0] == [];
    assert VerifyEach(env, s, PW_LOCK, [PW1_CDS], []) == Lock(env, s, PW1_CDS);
    assert VerifyEach(env, s, PW_LOCK, [PW1_CDS, PW1], []) == Lock(env, Lock(env, s, PW1_CDS), PW1);
  }

  function Select(env: Env, s: State, file: Bytes): (out: Outcome)
    ensures out.state.white == s.white
  {
    if NamesCard(env, file) then Outcome(s.(selected := true), Completed([]))
    else if s.selected then
      Outcome(VerifyEach(env, s, PW_LOCK, EVERY_PW, []).(selected := false), FileNotFound)
    else Outcome(s, FileNotFound)
  }

  /** `DigitalSignatureCounter` starts over once three bytes no longer suffice. */
  function ReadCounter(s: State): State
  {
    if s.signatures > 0xffffff then s.(signatures := 0) else s
  }

  function GetData(env: Env, s: State, tag: nat, o: Oracle): (out: Outcome)
    ensures out.state.white == s.white
  {
    var retries: byte := s.retries % 256;
    if tag == DO_APPLICATION_IDENTIFIER then Outcome(s, Completed(Aid(env.serial)))
    else if tag == DO_LOGIN_DATA then Outcome(s, Completed(o.fields.loginData))
    else if tag == DO_URL then Outcome(s, Completed(o.fields.url))
    else if tag == DO_HISTORICAL_BYTES then Outcome(s, Completed(o.fields.historical))
    else if tag == DO_CARDHOLDER_RELATED_DATA then Outcome(s, Completed(CardholderRelatedData(o.fields)))
    else if tag == DO_APPLICATION_RELATED_DATA then
      Outcome(s, Completed(ApplicationRelatedData(env.serial, o.fields, retries)))
    else if tag == DO_SECURITY_SUPPORT_TEMPLATE then
      Outcome(ReadCounter(s), Completed(SecuritySupportTemplate(ReadCounter(s).signatures)))
    else if tag == DO_EXTENDED_LENGTH_INFORMATION then Outcome(s, Completed(o.fields.extendedLength))
    else if tag == DO_PW_STATUS_BYTES then Outcome(s, Completed(PWStatusBytes(retries)))
    else if tag == DO_KEY_INFORMATION then Outcome(s, Completed(o.fields.keyInformation))
    else if tag == DO_ALGORITHM_INFORMATION then Outcome(s, Completed(AlgorithmInformation(o.fields)))
    else Outcome(s, Status(0x88, 0x00, []))
  }

  datatype Capdu = Capdu(cla: byte, ins: byte, p1: byte, p2: byte, data: Bytes, le: nat)

  /** The subkey that a control reference template names: signature, confidentiality or authentication. */
  function TemplateSlot(s: State, crt: Bytes): Option<Option<nat>>
  {
    if crt == [0xb6, 0x00] || crt == [0xb6, 0x03, 0x84, 0x01, 0x01] then Some(s.ring.sig)
    else if crt == [0xb8, 0x00] || crt == [0xb8, 0x03, 0x84, 0x01, 0x02] then Some(s.ring.dec)
    else if crt == [0xa4, 0x00] || crt == [0xa4, 0x03, 0x84, 0x01, 0x03] then Some(s.ring.aut)
    else None
  }

  function PublicAt(s: State, id: nat): PublicKey
  {
    if id < |s.ring.publics| then s.ring.publics[id] else OtherPublic
  }

  /** GENERATE ASYMMETRIC KEY PAIR, which only reads public keys. */
  function PublicKeyReply(s: State, params: nat, crt: Bytes): Reply
  {
    if params != 0x8100 then NotAllowed
    else match TemplateSlot(s, crt)
      case None => NotAllowed
      case Some(None) => Status(0x6a, 0x88, [])
      case Some(Some(id)) =>
        if PublicAt(s, id).OtherPublic? then Erred else Completed(PublicTemplate(PublicAt(s, id)))
  }

  /** GET CHALLENGE. */
  function ChallengeReply(n: nat, o: Oracle): Reply
  {
    if o.random.None? then Erred
    else Completed(seq(n, i requires 0 <= i < n => o.random.value(i)))
  }

  function SecurityOperation(env: Env, s: State, params: nat, data: Bytes, o: Oracle): (out: Outcome)
    ensures out.state.white == s.white
  {
    if params == COMPUTE_DIGITAL_SIGNATURE then ComputeDigitalSignature(env, s, data, o)
    else if params == DECIPHER then Decipher(s, data, o)
    else if params == ENCIPHER then Encipher(s, data, o)
    else Outcome(s, NotAllowed)
  }

  /** A security operation with the white LED on while it runs. */
  function BlinkingOperation(env: Env, s: State, params: nat, data: Bytes, o: Oracle): Outcome
  {
    var out := SecurityOperation(env, s, params, data, o);
    Outcome(out.state.(white := false), out.reply)
  }

  function Params(c: Capdu): nat
  {
    (c.p1 as int) * 256 + c.p2
  }

  function Dispatch(env: Env, s: State, c: Capdu, o: Oracle): Outcome
  {
    if c.cla != 0x00 then Outcome(s, NotAllowed)
    else if c.ins == SELECT then Select(env, s, c.data)
    else if c.ins == GET_DATA then GetData(env, s, Params(c), o)
    else if c.ins == VERIFY then Verify(env, s, c.p1, c.p2, c.data)
    else if c.ins == GENERATE_ASYMMETRIC_KEY_PAIR then Outcome(s, PublicKeyReply(s, Params(c), c.data))
    else if c.ins == GET_CHALLENGE then Outcome(s, ChallengeReply(c.le, o))
    else if c.ins == PERFORM_SECURITY_OPERATION then BlinkingOperation(env, s, Params(c), c.data, o)
    else Outcome(s, NotAllowed)
  }

  /** `getObjects`; `ok` is the outcome of the certificate and object constructors. */
  function ListObjects(env: Env, s: State, ok: bool): (out: Outcome)
    ensures out.state.white == s.white
  {
    if !HasKey(s, s.ring.sig) || KeyAt(s, s.ring.sig.value).encrypted then Outcome(s, Console(false))
    else
      var m := KeyAt(s, s.ring.sig.value).material;
      if ok && m.Some? && (m.value.kind == RsaKey || m.value.kind == StdEcdsaKey) then
        Outcome(Lock(env, Note(s, Listed(s.ring.sig.value)), PW1_CDS), Console(true))
      else Outcome(Lock(env, s, PW1_CDS), Console(false))
  }

  /** The key cached for a slot; without a private key the cache keeps its value. */
  function CachedKey(e: Entity, id: Option<nat>, before: KeyValue): KeyValue
  {
    if id.Some? && id.value < |e| && e[id.value].key.Some? then e[id.value].key.value else before
  }

  function KeysOf(e: Entity): (keys: seq<Option<KeyValue>>)
    ensures |keys| == |e| && forall i :: 0 <= i < |e| ==> keys[i] == e[i].key
  {
    seq(|e|, i requires 0 <= i < |e| => e[i].key)
  }

  function PublicsOf(e: Entity): (keys: seq<PublicKey>)
    ensures |keys| == |e| && forall i :: 0 <= i < |e| ==> keys[i] == e[i].public
  {
    seq(|e|, i requires 0 <= i < |e| => e[i].public)
  }

  /** The keys of a decoded entity. */
  function RingOf(e: Entity, before: Caches): Ring
  {
    var sig, dec, aut := LastIndex(e, ForSigning), LastIndex(e, ForDecryption), LastIndex(e, ForAuthentication);
    Ring(sig, dec, aut, KeysOf(e), PublicsOf(e), if aut.Some? then e[aut.value].key else None, aut.Some?,
         Caches(CachedKey(e, sig, before.sig), CachedKey(e, dec, before.dec), CachedKey(e, aut, before.aut)))
  }

  /** A decoded entity becomes the card's keys. */
  function Adopt(s: State, armored: Bytes, e: Entity): State
  {
    s.(ring := RingOf(e, s.ring.caches), armored := armored, initialized := true,
       retries := DEFAULT_PW1_ERROR_COUNTER, white := false, blue := false)
  }

  function Load(s: State, armored: Bytes, e: Entity): State
  {
    Signal(Adopt(s, armored, e))
  }

  /** The armored key in the clear; `derived` tells whether the device key could be derived this time. */
  function Plain(env: Env, armored: Bytes, derived: bool): Option<Bytes>
  {
    if !env.snvs then Some(armored) else if derived then env.unwrap(armored) else None
  }

  /** `Init`; an unsuccessful attempt still replaces the stored armored key. */
  function Init(env: Env, s: State, derived: bool): (out: Outcome)
    ensures !s.initialized ==> out.reply == Console(out.state.initialized)
  {
    if s.initialized then Outcome(s, Console(false))
    else match Plain(env, s.armored, derived)
      case None => Outcome(s.(armored := []), Console(false))
      case Some(armored) =>
        match env.parse(armored)
        case None => Outcome(s.(armored := armored), Console(false))
        case Some(e) => Outcome(Load(s, armored, e), Console(true))
  }

  datatype Target = SigOnly | DecOnly | Both

  function Passwords(t: Target): seq<byte>
  {
    match t case SigOnly => [PW1_CDS] case DecOnly => [PW1] case Both => [PW1_CDS, PW1]
  }

  datatype Command =
    | Initialize(derived: bool)
    | Apdu(capdu: Capdu, oracle: Oracle)
    | ConsoleLock(target: Target)
    | ConsoleUnlock(target: Target, derived: bool, passphrase: Option<Bytes>)
    | ListKeys(ok: bool)

  /** The command is the security operation with these parameters. */
  predicate IsOperation(c: Command, params: nat)
  {
    c.Apdu? && c.capdu.cla == 0x00 && c.capdu.ins == PERFORM_SECURITY_OPERATION && Params(c.capdu) == params
  }

  function LockFromConsole(env: Env, s: State, target: Target): Outcome
  {
    if !s.initialized then Outcome(s, Console(false))
    else Outcome(VerifyEach(env, s, PW_LOCK, Passwords(target), []), Console(true))
  }

  function UnlockFromConsole(env: Env, s: State, target: Target, derived: bool, passphrase: Option<Bytes>): Outcome
  {
    var ready := if s.initialized then s else Init(env, s, derived).state;
    if !ready.initialized || passphrase.None? then Outcome(ready, Console(false))
    else Outcome(VerifyEach(env, ready, PW_VERIFY, Passwords(target), passphrase.value), Console(true))
  }

  /** One command of a host or an operator; after a crash nothing runs. */
  function Exec(env: Env, s: State, c: Command): Outcome
  {
    if s.crashed then Outcome(s, Panicked)
    else match c
      case Initialize(derived) => Init(env, s, derived)
      case Apdu(capdu, o) => Dispatch(env, s, capdu, o)
      case ConsoleLock(t) => LockFromConsole(env, s, t)
      case ConsoleUnlock(t, derived, pw) => UnlockFromConsole(env, s, t, derived, pw)
      case ListKeys(ok) => ListObjects(env, s, ok)
  }

  function Step(env: Env, s: State, c: Command): State
  {
    Exec(env, s, c).state
  }

  /** The state after a whole sequence of commands. */
  function Run(env: Env, s: State, cs: seq<Command>): State
  {
    if cs == [] then s else Step(env, Run(env, s, cs[..|cs| - 1]), cs[|cs| - 1])
  }

  lemma {:induction false} RunAppend(env: Env, s: State, a: seq<Command>, b: seq<Command>)
    ensures Run(env, s, a + b) == Run(env, Run(env, s, a), b)
  {
    if b == [] {
      assert a + b == a;
    } else {
      var n := |b| - 1;
      RunAppend(env, s, a, b[..n]);
      assert (a + b)[..|a + b| - 1] == a + b[..n];
    }
  }
}
