/** What a host learns from replies, when the firmware stops, and runs worth knowing. */
module CardReports {
  import opened ByteStrings
  import opened LockMachine
  import opened LockSteps
  import opened CardRuns
  import opened DataObjects
  import EcdsaLayout
  import Tlv

  // ---------------------------------------------------------------------
  // Replies and recorded events

  /** The command is a PSO:CDS that answers 9000 in `s`. */
  predicate SignsIn(env: Env, s: State, c: Command)
  {
    IsOperation(c, COMPUTE_DIGITAL_SIGNATURE) && IsCompleted(Exec(env, s, c).reply)
  }

  /** The command uses the signature key in `s`: a successful PSO:CDS or object listing. */
  predicate UsesIn(env: Env, s: State, c: Command)
  {
    SignsIn(env, s, c) || (c.ListKeys? && Exec(env, s, c).reply == Console(true))
  }

  /** The successful PSO:CDS commands of a run. */
  function SignaturesMade(env: Env, s: State, cs: seq<Command>): nat
  {
    if cs == [] then 0
    else
      var n := |cs| - 1;
      SignaturesMade(env, s, cs[..n]) + if SignsIn(env, Run(env, s, cs[..n]), cs[n]) then 1 else 0
  }

  /** The successful uses of the signature key in a run. */
  function UsesMade(env: Env, s: State, cs: seq<Command>): nat
  {
    if cs == [] then 0
    else
      var n := |cs| - 1;
      UsesMade(env, s, cs[..n]) + if UsesIn(env, Run(env, s, cs[..n]), cs[n]) then 1 else 0
  }

  /** PSO:CDS answers 9000 exactly when it records a signature. */
  lemma CdsRecords(env: Env, s: State, data: Bytes, o: Oracle)
    ensures var out := ComputeDigitalSignature(env, s, data, o);
            out.state.log == if IsCompleted(out.reply) then s.log + [Signed(s.ring.sig.value)] else s.log
    ensures IsCompleted(ComputeDigitalSignature(env, s, data, o).reply) ==> s.ring.sig.Some?
  {
    if data != [] && Unlocked(s, s.ring.sig) {
      LockSigIsRestore(env, s);
      LockSigIsRestore(env, CountSignature(s, s.ring.sig.value));
    }
  }

  lemma ListRecords(env: Env, s: State, ok: bool)
    ensures var out := ListObjects(env, s, ok);
            out.state.log == if out.reply == Console(true) then s.log + [Listed(s.ring.sig.value)] else s.log
    ensures ListObjects(env, s, ok).reply == Console(true) ==> s.ring.sig.Some?
  {
    if Unlocked(s, s.ring.sig) {
      LockSigIsRestore(env, s);
      LockSigIsRestore(env, Note(s, Listed(s.ring.sig.value)));
    }
  }

  ghost predicate SameUses(s: State, t: State)
  {
    Count(t.log, AnySignature) == Count(s.log, AnySignature) && Count(t.log, AnyUse) == Count(s.log, AnyUse)
  }

  /** Only signing and listing record a use. */
  lemma UseGroups(m: Micro)
    requires GroupOf(m) != Signs && GroupOf(m) != Lists
    ensures EventOf(m).Some? ==> !Is(EventOf(m).value, AnySignature) && !Is(EventOf(m).value, AnyUse)
  {
  }

  lemma MicroSameUses(s: State, t: State, m: Micro)
    requires SameUses(s, t) && Enabled(t, m) && GroupOf(m) != Signs && GroupOf(m) != Lists
    ensures SameUses(s, Apply(t, m))
  {
    UseGroups(m);
    MicroCounts(t, m, AnySignature);
    MicroCounts(t, m, AnyUse);
  }

  lemma OtherStepsRecordNoUse(env: Env, s: State, c: Command)
    requires Inv(s) && !IsOperation(c, COMPUTE_DIGITAL_SIGNATURE) && !c.ListKeys?
    ensures SameUses(s, Step(env, s, c))
  {
    var P := (t: State) => SameUses(s, t);
    var g := ALL - {Signs, Lists};
    forall t: State, m: Micro | Inv(t) && P(t) && Enabled(t, m) && GroupOf(m) in g
      ensures P(Apply(t, m))
    {
      MicroSameUses(s, t, m);
    }
    StepKeeps(P, g, env, s, c);
  }

  /** What the dispatcher adds to PSO:CDS. */
  lemma CdsStep(env: Env, s: State, c: Command)
    requires IsOperation(c, COMPUTE_DIGITAL_SIGNATURE) && !s.crashed
    ensures Exec(env, s, c).reply == ComputeDigitalSignature(env, s, c.capdu.data, c.oracle).reply
    ensures Step(env, s, c).log == ComputeDigitalSignature(env, s, c.capdu.data, c.oracle).state.log
  {
    assert SecurityOperation(env, s, Params(c.capdu), c.capdu.data, c.oracle)
           == ComputeDigitalSignature(env, s, c.capdu.data, c.oracle);
  }

  lemma CdsStepRecords(env: Env, s: State, c: Command)
    requires IsOperation(c, COMPUTE_DIGITAL_SIGNATURE) && !s.crashed
    ensures SignsIn(env, s, c) ==> s.ring.sig.Some? && Step(env, s, c).log == s.log + [Signed(s.ring.sig.value)]
    ensures !SignsIn(env, s, c) ==> Step(env, s, c).log == s.log
  {
    CdsStep(env, s, c);
    CdsRecords(env, s, c.capdu.data, c.oracle);
  }

  /** The change of the two counts that one command makes. */
  ghost predicate Recorded(s: State, t: State, signed: bool, used: bool)
  {
    && Count(t.log, AnySignature) == Count(s.log, AnySignature) + (if signed then 1 else 0)
    && Count(t.log, AnyUse) == Count(s.log, AnyUse) + (if used then 1 else 0)
  }

  lemma CdsRecorded(env: Env, s: State, c: Command)
    requires IsOperation(c, COMPUTE_DIGITAL_SIGNATURE) && !s.crashed
    ensures Recorded(s, Step(env, s, c), SignsIn(env, s, c), SignsIn(env, s, c))
  {
    CdsStepRecords(env, s, c);
    if s.ring.sig.Some? {
      CountSnoc(s.log, Signed(s.ring.sig.value), AnySignature);
      CountSnoc(s.log, Signed(s.ring.sig.value), AnyUse);
    }
  }

  lemma ListRecorded(env: Env, s: State, ok: bool)
    ensures Recorded(s, ListObjects(env, s, ok).state, false, ListObjects(env, s, ok).reply == Console(true))
  {
    ListRecords(env, s, ok);
    if s.ring.sig.Some? {
      CountSnoc(s.log, Listed(s.ring.sig.value), AnySignature);
      CountSnoc(s.log, Listed(s.ring.sig.value), AnyUse);
    }
  }

  lemma StepRecords(env: Env, s: State, c: Command)
    requires Inv(s)
    ensures Recorded(s, Step(env, s, c), SignsIn(env, s, c), UsesIn(env, s, c))
  {
    if s.crashed {
    } else if IsOperation(c, COMPUTE_DIGITAL_SIGNATURE) {
      CdsRecorded(env, s, c);
    } else if c.ListKeys? {
      ListRecorded(env, s, c.ok);
    } else {
      OtherStepsRecordNoUse(env, s, c);
    }
  }

  /** The recorded signatures and uses are exactly the successful replies of the run. */
  lemma {:induction false} RepliesAreRecorded(env: Env, s: State, cs: seq<Command>)
    requires Inv(s)
    ensures Count(Run(env, s, cs).log, AnySignature) == Count(s.log, AnySignature) + SignaturesMade(env, s, cs)
    ensures Count(Run(env, s, cs).log, AnyUse) == Count(s.log, AnyUse) + UsesMade(env, s, cs)
  {
    if cs != [] {
      var n := |cs| - 1;
      RepliesAreRecorded(env, s, cs[..n]);
      RunKeeps(_ => true, env, s, cs[..n]);
      StepRecords(env, Run(env, s, cs[..n]), cs[n]);
    }
  }

  /** Successful PSO:CDS replies and object listings never outnumber decryptions of a protected signature key. */
  lemma RepliesPerUnlock(env: Env, armored: Bytes, blue: bool, white: bool, cs: seq<Command>)
    ensures var s := Start(armored, blue, white);
            var t := Run(env, s, cs);
            ProtectedSig(t) ==>
              UsesMade(env, s, cs) <= Count(t.log, DecryptionOf(t.ring.sig.value))
  {
    OneUsePerUnlock(env, armored, blue, white, cs);
    RepliesAreRecorded(env, Start(armored, blue, white), cs);
  }

  // ---------------------------------------------------------------------
  // The signature counter

  ghost predicate CounterExact(s: State)
  {
    Count(s.log, AnySignature) <= 0xffffff ==> s.signatures == Count(s.log, AnySignature)
  }

  lemma MicroCounterExact(s: State, m: Micro)
    requires Inv(s) && CounterExact(s) && Enabled(s, m)
    ensures CounterExact(Apply(s, m))
  {
    MicroCounts(s, m, AnySignature);
  }

  lemma CounterIsExact(env: Env, armored: Bytes, blue: bool, white: bool, cs: seq<Command>)
    ensures CounterExact(Run(env, Start(armored, blue, white), cs))
  {
    var P := (s: State) => CounterExact(s);
    forall s: State, m: Micro | Inv(s) && P(s) && Enabled(s, m)
      ensures P(Apply(s, m))
    {
      MicroCounterExact(s, m);
    }
    RunKeeps(P, env, Start(armored, blue, white), cs);
  }

  /** GET DATA for the security support template. */
  function CounterQuery(data: Bytes, o: Oracle): Command
  {
    Apdu(Capdu(0x00, GET_DATA, 0x00, DO_SECURITY_SUPPORT_TEMPLATE, data, 0), o)
  }

  /** The number a host reads from a reply to that query. */
  function ReportedCount(r: Reply): Option<nat>
  {
    if !IsCompleted(r) then None
    else match Tlv.Then(Tlv.Value(r.body, DO_SECURITY_SUPPORT_TEMPLATE), DO_DIGITAL_SIGNATURE_COUNTER)
      case Panics => None
      case Got(b) => if |b| == 3 then Some(BigEndian(b)) else None
  }

  /** The reported number is the stored counter after the call, from every state. */
  lemma ReportIsStoredCounter(env: Env, s: State, data: Bytes, o: Oracle)
    requires !s.crashed
    ensures var out := Exec(env, s, CounterQuery(data, o));
            && out.state == ReadCounter(s)
            && ReportedCount(out.reply) == Some(out.state.signatures)
  {
    var n := ReadCounter(s).signatures;
    assert Params(CounterQuery(data, o).capdu) == DO_SECURITY_SUPPORT_TEMPLATE;
    assert Exec(env, s, CounterQuery(data, o)) == Outcome(ReadCounter(s), Completed(SecuritySupportTemplate(n)));
    TemplateUnwraps(n);
    ThreeBytesValue(n);
  }

  lemma CounterIsSignaturesMade(env: Env, armored: Bytes, blue: bool, white: bool, cs: seq<Command>)
    ensures var s := Start(armored, blue, white);
            SignaturesMade(env, s, cs) <= 0xffffff ==> Run(env, s, cs).signatures == SignaturesMade(env, s, cs)
  {
    CounterIsExact(env, armored, blue, white, cs);
    RepliesAreRecorded(env, Start(armored, blue, white), cs);
  }

  /** In every run the host reads the number of successful signatures exactly while it fits three bytes. */
  lemma HostSeesSignatureCount(env: Env, armored: Bytes, blue: bool, white: bool, cs: seq<Command>, data: Bytes, o: Oracle)
    requires !Run(env, Start(armored, blue, white), cs).crashed
    ensures var s := Start(armored, blue, white);
            var n := SignaturesMade(env, s, cs);
            ReportedCount(Exec(env, Run(env, s, cs), CounterQuery(data, o)).reply) == Some(n) <==> n <= 0xffffff
  {
    var t := Run(env, Start(armored, blue, white), cs);
    CounterIsSignaturesMade(env, armored, blue, white, cs);
    ReportIsStoredCounter(env, t, data, o);
  }

  /** GET DATA for the password status bytes. */
  function StatusQuery(data: Bytes, o: Oracle): Command
  {
    Apdu(Capdu(0x00, GET_DATA, 0x00, DO_PW_STATUS_BYTES, data, 0), o)
  }

  /** The number of remaining retries that a reply to that query shows. */
  function ShownRetries(r: Reply): Option<nat>
  {
    if IsCompleted(r) && |r.body| == 7 then Some(r.body[4]) else None
  }

  lemma StatusReply(env: Env, s: State, data: Bytes, o: Oracle)
    requires !s.crashed && s.retries <= 3
    ensures ShownRetries(Exec(env, s, StatusQuery(data, o)).reply) == Some(s.retries)
  {
    assert Params(StatusQuery(data, o).capdu) == DO_PW_STATUS_BYTES;
    assert Exec(env, s, StatusQuery(data, o)).reply == Completed(PWStatusBytes(s.retries % 256));
  }

  /** In every run the password status tells the host three minus the refusals since the last success. */
  lemma HostSeesRetries(env: Env, armored: Bytes, blue: bool, white: bool, cs: seq<Command>, data: Bytes, o: Oracle)
    ensures var t := Run(env, Start(armored, blue, white), cs);
            t.initialized && !t.crashed ==>
              Streak(t.log) <= 3 && ShownRetries(Exec(env, t, StatusQuery(data, o)).reply) == Some(3 - Streak(t.log))
  {
    RetriesAreExact(env, armored, blue, white, cs);
    var t := Run(env, Start(armored, blue, white), cs);
    if t.initialized && !t.crashed {
      StatusReply(env, t, data, o);
    }
  }

  // ---------------------------------------------------------------------
  // What the security operations deliver

  /** The digest sizes of SHA-256, SHA-384 and SHA-512 behind 19 bytes of DigestInfo. */
  predicate DigestInfoSize(n: nat)
  {
    n == 51 || n == 67 || n == 83
  }

  function DigestInfoHash(n: nat): Hash
    requires DigestInfoSize(n)
  {
    if n == 51 then Sha256 else if n == 67 then Sha384 else Sha512
  }

  /** PSO:CDS succeeds exactly with an unlocked key of a supported type, fitting data and a signing library that works. */
  lemma SignsExactly(env: Env, s: State, data: Bytes, o: Oracle)
    ensures IsCompleted(ComputeDigitalSignature(env, s, data, o).reply) <==>
            && data != [] && Glows(s, s.ring.sig)
            && var m := KeyAt(s, s.ring.sig.value).material.value;
               || (m.kind == RsaKey && DigestInfoSize(|data|) && o.signRsa(m, DigestInfoHash(|data|), data[19..]).Some?)
               || (m.kind == PgpEcdsaKey && o.signEcdsa(m, data).Some?)
  {
  }

  lemma EcdsaReply(env: Env, s: State, data: Bytes, o: Oracle)
    requires IsCompleted(ComputeDigitalSignature(env, s, data, o).reply)
    requires Glows(s, s.ring.sig) && KeyAt(s, s.ring.sig.value).material.value.kind == PgpEcdsaKey
    ensures var rs := o.signEcdsa(KeyAt(s, s.ring.sig.value).material.value, data);
            rs.Some? && ComputeDigitalSignature(env, s, data, o).reply.body
                        == EcdsaLayout.RawSignature(o.xBits, rs.value.0, rs.value.1)
  {
  }

  /** An ECDSA reply splits in the middle into the two numbers whenever both fit the key's width. */
  lemma EcdsaReplySplits(env: Env, s: State, data: Bytes, o: Oracle, r: nat, t: nat)
    requires IsCompleted(ComputeDigitalSignature(env, s, data, o).reply)
    requires Glows(s, s.ring.sig) && KeyAt(s, s.ring.sig.value).material.value.kind == PgpEcdsaKey
    requires o.signEcdsa(KeyAt(s, s.ring.sig.value).material.value, data) == Some((r, t))
    requires var width := Pow256(EcdsaLayout.KeyWidth(o.xBits)); r < width && t < width
    ensures EcdsaLayout.SplitsInto(ComputeDigitalSignature(env, s, data, o).reply.body, r, t)
  {
    EcdsaReply(env, s, data, o);
    EcdsaLayout.FittingNumbersSplit(o.xBits, r, t);
  }

  /** An uncompressed curve point with coordinates of `n` bytes. */
  predicate Point(pubKey: Bytes, n: nat)
  {
    |pubKey| == 1 + 2 * n && pubKey[0] == 0x04
  }

  lemma WrappedPoint(pubKey: Bytes, rest: Bytes)
    requires |pubKey| <= 248
    ensures var data := Tlv.CipherObject(pubKey) + rest;
            data[0] == Tlv.DO_CIPHER && Tlv.CipherKey(data) == Tlv.Got(pubKey)
  {
    Tlv.CipherKeyRoundTrip(pubKey, rest);
  }

  lemma AgreePads(m: Material, data: Bytes, pubKey: Bytes, n: nat, o: Oracle, secret: Bytes)
    requires Tlv.CipherKey(data) == Tlv.Got(pubKey) && Point(pubKey, n)
    requires o.decaps(m, pubKey) == Some(secret) && |secret| <= n
    ensures Agree(m, data, o) == Completed(Zeros(n - |secret|) + secret)
  {
  }

  predicate OpenEcdh(s: State)
  {
    Glows(s, s.ring.dec) && KeyAt(s, s.ring.dec.value).material.value.kind == EcdhKey
  }

  function DecMaterial(s: State): Material
    requires Glows(s, s.ring.dec)
  {
    KeyAt(s, s.ring.dec.value).material.value
  }

  /** An unlocked ECDH key answers a cipher object with the agreement. */
  lemma DecipherAgrees(s: State, data: Bytes, o: Oracle)
    requires OpenEcdh(s) && |data| >= 1 && data[0] == Tlv.DO_CIPHER
    ensures var reply := Agree(DecMaterial(s), data, o);
            && Decipher(s, data, o).reply == reply
            && Decipher(s, data, o).state == if reply.Panicked? then s.(crashed := true) else s
  {
  }

  /** With an unlocked ECDH key, deciphering a wrapped point delivers the shared secret padded to one coordinate. */
  lemma DecipherPadsSecret(s: State, pubKey: Bytes, n: nat, rest: Bytes, o: Oracle, secret: Bytes)
    requires OpenEcdh(s) && Point(pubKey, n) && |pubKey| <= 248
    requires o.decaps(DecMaterial(s), pubKey) == Some(secret) && |secret| <= n
    ensures var out := Decipher(s, Tlv.CipherObject(pubKey) + rest, o);
            && out.state == s
            && IsCompleted(out.reply) && |out.reply.body| == n
            && BigEndian(out.reply.body) == BigEndian(secret)
  {
    var data := Tlv.CipherObject(pubKey) + rest;
    WrappedPoint(pubKey, rest);
    AgreePads(DecMaterial(s), data, pubKey, n, o, secret);
    DecipherAgrees(s, data, o);
    BigEndianPadding(n - |secret|, secret);
  }

  /** The data holds a point, and the shared secret fits one of its coordinates. */
  ghost predicate FittingPoint(m: Material, data: Bytes, o: Oracle)
  {
    exists pubKey: Bytes, n: nat ::
      Tlv.Wraps(data, pubKey) && Point(pubKey, n) && o.decaps(m, pubKey).Some? && |o.decaps(m, pubKey).value| <= n
  }

  /** The data holds a point, and the shared secret is longer than one of its coordinates. */
  ghost predicate OverlongSecret(m: Material, data: Bytes, o: Oracle)
  {
    exists pubKey: Bytes, n: nat ::
      Tlv.Wraps(data, pubKey) && Point(pubKey, n) && o.decaps(m, pubKey).Some? && n < |o.decaps(m, pubKey).value|
  }

  lemma WrapsOne(data: Bytes, a: Bytes, b: Bytes)
    requires a != [] && b != [] && Tlv.Wraps(data, a) && Tlv.Wraps(data, b)
    ensures a == b
  {
    Tlv.CipherKeyExactly(data, a);
    Tlv.CipherKeyExactly(data, b);
  }

  lemma AgreesOnPoint(m: Material, data: Bytes, o: Oracle, pubKey: Bytes, n: nat)
    requires Tlv.Wraps(data, pubKey) && Point(pubKey, n)
    ensures Agree(m, data, o)
            == match o.decaps(m, pubKey)
               case None => UNRECOVERABLE
               case Some(secret) => if n < |secret| then Panicked else Completed(Zeros(n - |secret|) + secret)
  {
    Tlv.CipherKeyExactly(data, pubKey);
  }

  lemma AgreesWithoutPoint(m: Material, data: Bytes, o: Oracle)
    requires forall pubKey: Bytes, n: nat :: !(Tlv.Wraps(data, pubKey) && Point(pubKey, n))
    ensures Agree(m, data, o) == if Tlv.CipherKey(data).Panics? then Panicked else WRONG_DATA
  {
    match Tlv.CipherKey(data)
    case Panics =>
    case Got(pubKey) =>
      if |pubKey| >= 1 && pubKey[0] == 0x04 && |pubKey| % 2 == 1 {
        Tlv.CipherKeyExactly(data, pubKey);
        assert Point(pubKey, (|pubKey| - 1) / 2);
      }
  }

  /** The key agreement succeeds, or panics, exactly on these bytes and secrets. */
  lemma AgreeExactly(m: Material, data: Bytes, o: Oracle)
    ensures IsCompleted(Agree(m, data, o)) <==> FittingPoint(m, data, o)
    ensures Agree(m, data, o).Panicked? <==> Tlv.Undecodable(data) || OverlongSecret(m, data, o)
  {
    Tlv.CipherKeyPanicsExactly(data);
    if exists pubKey: Bytes, n: nat :: Tlv.Wraps(data, pubKey) && Point(pubKey, n) {
      var pubKey: Bytes, n: nat :| Tlv.Wraps(data, pubKey) && Point(pubKey, n);
      AgreesOnPoint(m, data, o, pubKey, n);
      Tlv.CipherKeyExactly(data, pubKey);
      forall other: Bytes, k: nat | Tlv.Wraps(data, other) && Point(other, k)
        ensures other == pubKey && k == n
      {
        WrapsOne(data, pubKey, other);
      }
    } else {
      AgreesWithoutPoint(m, data, o);
    }
  }

  /** PSO:DECIPHER succeeds exactly in these three forms. */
  lemma DeciphersExactly(s: State, data: Bytes, o: Oracle)
    ensures IsCompleted(Decipher(s, data, o).reply) <==>
            && |data| >= 1
            && if data[0] == AES_PADDING then (|data| - 1) % 16 == 0 && o.aes.Cbc?
               else
                 && Glows(s, s.ring.dec)
                 && var m := DecMaterial(s);
                    || (m.kind == RsaKey && data[0] == RSA_PADDING && o.decryptRsa(m, data[1..]).Some?)
                    || (m.kind == EcdhKey && data[0] == Tlv.DO_CIPHER && FittingPoint(m, data, o))
  {
    if Glows(s, s.ring.dec) {
      AgreeExactly(DecMaterial(s), data, o);
    }
  }

  // ---------------------------------------------------------------------
  // When the firmware stops

  /**
   A command that makes the firmware panic in `s`: PSO:ENCIPHER without a decryption key, or
   PSO:DECIPHER of a cipher object, with an unlocked ECDH key, that is truncated at one of its three
   levels or whose point is too short for the shared secret.
   */
  ghost predicate Crashing(s: State, c: Command)
  {
    || (IsOperation(c, ENCIPHER) && !HasKey(s, s.ring.dec))
    || (&& IsOperation(c, DECIPHER) && OpenEcdh(s)
        && var data := c.capdu.data;
           && |data| >= 1 && data[0] == Tlv.DO_CIPHER
           && (Tlv.Undecodable(data) || OverlongSecret(DecMaterial(s), data, c.oracle)))
  }

  lemma MicroNoCrash(s: State, m: Micro)
    requires Inv(s) && Enabled(s, m) && GroupOf(m) != Crashes
    ensures Apply(s, m).crashed == s.crashed
  {
    match m
    case MRestore(id) => RestoreKeepsInv(s, id);
    case MSign(id) => RestoreKeepsInv(CountSignature(s, id), id);
    case MList(id) => RestoreKeepsInv(Note(s, Listed(id)), id);
    case _ =>
  }

  lemma OnlySecurityOperationsCrash(env: Env, s: State, c: Command)
    requires Inv(s) && Crashes !in GroupsOf(c)
    ensures Step(env, s, c).crashed == s.crashed
  {
    var P := (t: State) => t.crashed == s.crashed;
    var g := ALL - {Crashes};
    forall t: State, m: Micro | Inv(t) && P(t) && Enabled(t, m) && GroupOf(m) in g
      ensures P(Apply(t, m))
    {
      MicroNoCrash(t, m);
    }
    StepKeeps(P, g, env, s, c);
  }

  lemma DecipherCrashesExactly(s: State, data: Bytes, o: Oracle)
    requires !s.crashed
    ensures Decipher(s, data, o).state.crashed <==>
            OpenEcdh(s) && |data| >= 1 && data[0] == Tlv.DO_CIPHER && Agree(DecMaterial(s), data, o).Panicked?
  {
  }

  /** What the dispatcher adds to the operations that can panic. */
  lemma OperationStep(env: Env, s: State, c: Command)
    requires !s.crashed && Crashes in GroupsOf(c)
    ensures IsOperation(c, DECIPHER) ==> Step(env, s, c).crashed == Decipher(s, c.capdu.data, c.oracle).state.crashed
    ensures IsOperation(c, ENCIPHER) ==> Step(env, s, c).crashed == Encipher(s, c.capdu.data, c.oracle).state.crashed
    ensures !IsOperation(c, DECIPHER) && !IsOperation(c, ENCIPHER) ==> !Step(env, s, c).crashed
  {
    var out := SecurityOperation(env, s, Params(c.capdu), c.capdu.data, c.oracle);
    assert Step(env, s, c) == out.state.(white := false);
  }

  /** A command stops the card exactly if it is one of those two; locking never does. */
  lemma CrashesExactly(env: Env, s: State, c: Command)
    requires Inv(s) && !s.crashed
    ensures Step(env, s, c).crashed <==> Crashing(s, c)
  {
    if Crashes in GroupsOf(c) {
      OperationStep(env, s, c);
      DecipherCrashesExactly(s, c.capdu.data, c.oracle);
      if OpenEcdh(s) {
        AgreeExactly(DecMaterial(s), c.capdu.data, c.oracle);
      }
    } else {
      OnlySecurityOperationsCrash(env, s, c);
    }
  }

  // ---------------------------------------------------------------------
  // Runs worth knowing

  lemma RunTwo(env: Env, s: State, a: Command, b: Command)
    ensures Run(env, s, [a]) == Step(env, s, a)
    ensures Run(env, s, [a, b]) == Step(env, Step(env, s, a), b)
  {
    assert [a, b][..1] == [a] && [a][..0] == [];
  }

  lemma RunThree(env: Env, s: State, a: Command, b: Command, c: Command)
    ensures Run(env, s, [a, b, c]) == Step(env, Step(env, Step(env, s, a), b), c)
  {
    assert [a, b, c][..2] == [a, b];
    RunTwo(env, s, a, b);
  }

  lemma VerifyOne(env: Env, s: State, p1: byte, p2: byte, pw: Bytes)
    ensures VerifyEach(env, s, p1, [p2], pw) == Verify(env, s, p1, p2, pw).state
  {
    assert [p2][..0] == [];
  }

  /** Unlocking one protected slot from the console and locking it again. */
  lemma UnlockThenLock(env: Env, s: State, t: Target, p2: byte, m: Material, pw: Bytes)
    requires Passwords(t) == [p2] && s.initialized && !s.crashed && s.retries > 0 && pw != []
    requires Inv(s) && HasKey(s, SlotOf(s, p2)) && KeyAt(s, SlotOf(s, p2).value).encrypted
    requires env.decrypt(KeyAt(s, SlotOf(s, p2).value), pw) == Some(m)
    ensures var id := SlotOf(s, p2).value;
            Step(env, Step(env, s, ConsoleUnlock(t, true, Some(pw))), ConsoleLock(t))
            == Signal(Restore(Signal(Unlock(s, id, m)), id))
  {
    VerifyOne(env, s, PW_VERIFY, p2, pw);
    var u := Signal(Unlock(s, SlotOf(s, p2).value, m));
    assert Step(env, s, ConsoleUnlock(t, true, Some(pw))) == u;
    VerifyOne(env, u, PW_LOCK, p2, []);
  }

  /** Unlocking and locking a subkey that also authenticates leaves the authentication copy decrypted. */
  lemma CopyOutlivesLock(env: Env, armored: Bytes, k: KeyValue, p: PublicKey, m: Material, pw: Bytes)
    requires !env.snvs && k.encrypted && pw != [] && env.decrypt(k, pw) == Some(m)
    requires env.parse(armored) == Some([Packet(Binding(true, true, false, false, true), Some(k), p)])
    ensures var t := Run(env, Start(armored, false, false),
                         [Initialize(true), ConsoleUnlock(SigOnly, true, Some(pw)), ConsoleLock(SigOnly)]);
            && HasKey(t, t.ring.sig) && !Unlocked(t, t.ring.sig)
            && t.ring.autKey == Some(Opened(k, m))
  {
    var s0 := Start(armored, false, false);
    var e := [Packet(Binding(true, true, false, false, true), Some(k), p)];
    RunThree(env, s0, Initialize(true), ConsoleUnlock(SigOnly, true, Some(pw)), ConsoleLock(SigOnly));
    var s1 := Load(s0, armored, e);
    assert Step(env, s0, Initialize(true)) == s1;
    assert s1.ring.sig == Some(0) && s1.ring.aut == Some(0) && KeyAt(s1, 0) == k;
    LoadKeepsInv(s0, armored, e);
    UnlockThenLock(env, s1, SigOnly, PW1_CDS, m, pw);
  }

  /** An entity with a signature subkey and a decryption subkey. */
  function TwoKeys(a: KeyValue, b: KeyValue, p: PublicKey, q: PublicKey): Entity
  {
    [Packet(Binding(true, true, false, false, false), Some(a), p),
     Packet(Binding(true, false, true, true, false), Some(b), q)]
  }

  lemma TwoKeysLoaded(s: State, armored: Bytes, a: KeyValue, b: KeyValue, p: PublicKey, q: PublicKey)
    ensures var t := Load(s, armored, TwoKeys(a, b, p, q));
            && t.ring.sig == Some(0) && t.ring.dec == Some(1) && t.ring.live == [Some(a), Some(b)]
            && t.ring.caches.sig == a && t.ring.caches.dec == b
  {
    var e := TwoKeys(a, b, p, q);
    LastIndexIsLast(e, ForSigning);
    LastIndexIsLast(e, ForDecryption);
    assert ForSigning(e[0].binding) && ForDecryption(e[1].binding);
  }

  /** Locking a decryption key whose fingerprint an unprotected signature key shares does not lock it. */
  lemma SharedFingerprintStaysOpen(env: Env, armored: Bytes, a: KeyValue, b: KeyValue, p: PublicKey, q: PublicKey,
                                   m: Material, pw: Bytes)
    requires !env.snvs && !a.encrypted && b.encrypted && a.fingerprint == b.fingerprint
    requires pw != [] && env.decrypt(b, pw) == Some(m)
    requires env.parse(armored) == Some(TwoKeys(a, b, p, q))
    ensures var t := Run(env, Start(armored, false, false),
                         [Initialize(true), ConsoleUnlock(DecOnly, true, Some(pw)), ConsoleLock(DecOnly)]);
            t.ring.caches.dec.encrypted && Unlocked(t, t.ring.dec)
  {
    var s0 := Start(armored, false, false);
    RunThree(env, s0, Initialize(true), ConsoleUnlock(DecOnly, true, Some(pw)), ConsoleLock(DecOnly));
    TwoKeysLoaded(s0, armored, a, b, p, q);
    var s1 := Load(s0, armored, TwoKeys(a, b, p, q));
    assert Step(env, s0, Initialize(true)) == s1;
    LoadKeepsInv(s0, armored, TwoKeys(a, b, p, q));
    UnlockThenLock(env, s1, DecOnly, PW1, m, pw);
  }

  /** An entity with one subkey, for decryption. */
  function DecryptionEntity(k: KeyValue, p: PublicKey): Entity
  {
    [Packet(Binding(true, false, true, true, false), Some(k), p)]
  }

  lemma DecryptionKeyLoaded(env: Env, armored: Bytes, k: KeyValue, p: PublicKey)
    requires !env.snvs && env.parse(armored) == Some(DecryptionEntity(k, p))
    ensures var t := Run(env, Start(armored, false, false), [Initialize(true)]);
            t.ring.dec == Some(0) && t.ring.live == [Some(k)] && t.log == [] && !t.crashed
  {
    var s0 := Start(armored, false, false);
    RunTwo(env, s0, Initialize(true), Initialize(true));
    assert Step(env, s0, Initialize(true)) == Load(s0, armored, DecryptionEntity(k, p));
    LastIndexIsLast(DecryptionEntity(k, p), ForDecryption);
    assert ForDecryption(DecryptionEntity(k, p)[0].binding);
  }

  function SecurityCommand(p1: byte, p2: byte, data: Bytes, o: Oracle): Command
  {
    Apdu(Capdu(0x00, PERFORM_SECURITY_OPERATION, p1, p2, data, 0), o)
  }

  /** A locked decryption key does not keep the AES form of PSO:DECIPHER from being served. */
  lemma AesNeedsNoUnlock(env: Env, armored: Bytes, k: KeyValue, p: PublicKey, data: Bytes, o: Oracle)
    requires !env.snvs && k.encrypted && env.parse(armored) == Some(DecryptionEntity(k, p))
    requires |data| % 16 == 0 && o.aes.Cbc?
    ensures var t := Run(env, Start(armored, false, false), [Initialize(true)]);
            && HasKey(t, t.ring.dec) && KeyAt(t, t.ring.dec.value).encrypted && t.log == []
            && Exec(env, t, SecurityCommand(0x80, 0x86, [AES_PADDING] + data, o)).reply == Completed(o.aes.decrypt(data))
  {
    DecryptionKeyLoaded(env, armored, k, p);
    var t := Run(env, Start(armored, false, false), [Initialize(true)]);
    var c := SecurityCommand(0x80, 0x86, [AES_PADDING] + data, o);
    assert Params(c.capdu) == DECIPHER;
    assert c.capdu.data[1..] == data;
    assert Exec(env, t, c).reply == Decipher(t, c.capdu.data, o).reply;
  }

  /** PSO:ENCIPHER as the first command stops the firmware. */
  lemma EncipherStopsBlankCard(env: Env, armored: Bytes, blue: bool, white: bool, data: Bytes, o: Oracle)
    ensures Run(env, Start(armored, blue, white), [SecurityCommand(0x86, 0x80, data, o)]).crashed
  {
    var s, c := Start(armored, blue, white), SecurityCommand(0x86, 0x80, data, o);
    assert Params(c.capdu) == ENCIPHER;
    RunTwo(env, s, c, c);
    CrashesExactly(env, s, c);
  }

  /** And so does the one byte 0xa6 in a PSO:DECIPHER with an open ECDH key. */
  lemma TruncatedCipherStopsCard(env: Env, armored: Bytes, k: KeyValue, p: PublicKey, o: Oracle)
    requires !env.snvs && !k.encrypted && k.material.Some? && k.material.value.kind == EcdhKey
    requires env.parse(armored) == Some(DecryptionEntity(k, p))
    ensures Run(env, Start(armored, false, false), [Initialize(true), SecurityCommand(0x80, 0x86, [0xa6], o)]).crashed
  {
    var s, c := Start(armored, false, false), SecurityCommand(0x80, 0x86, [0xa6], o);
    assert Params(c.capdu) == DECIPHER;
    RunTwo(env, s, Initialize(true), c);
    DecryptionKeyLoaded(env, armored, k, p);
    ReachableInv(env, armored, false, false, [Initialize(true)]);
    assert Tlv.Truncated([0xa6], Tlv.DO_CIPHER);
    CrashesExactly(env, Step(env, s, Initialize(true)), c);
  }

  lemma CipherObjectWraps(pubKey: Bytes)
    requires 0 < |pubKey| <= 248
    ensures Tlv.Wraps(Tlv.CipherObject(pubKey), pubKey) && Tlv.CipherObject(pubKey)[0] == Tlv.DO_CIPHER
  {
    var data := Tlv.CipherObject(pubKey);
    Tlv.CipherKeyRoundTrip(pubKey, []);
    assert data + [] == data;
    Tlv.CipherKeyExactly(data, pubKey);
  }

  /** And so does a shared secret that is longer than a coordinate of the point, should the library return one. */
  lemma OverlongSecretStopsCard(env: Env, armored: Bytes, k: KeyValue, p: PublicKey, pubKey: Bytes, n: nat, o: Oracle)
    requires !env.snvs && !k.encrypted && k.material.Some? && k.material.value.kind == EcdhKey
    requires env.parse(armored) == Some(DecryptionEntity(k, p))
    requires Point(pubKey, n) && |pubKey| <= 248
    requires o.decaps(k.material.value, pubKey).Some? && n < |o.decaps(k.material.value, pubKey).value|
    ensures Run(env, Start(armored, false, false),
                [Initialize(true), SecurityCommand(0x80, 0x86, Tlv.CipherObject(pubKey), o)]).crashed
  {
    var s, data := Start(armored, false, false), Tlv.CipherObject(pubKey);
    var c := SecurityCommand(0x80, 0x86, data, o);
    assert Params(c.capdu) == DECIPHER;
    RunTwo(env, s, Initialize(true), c);
    DecryptionKeyLoaded(env, armored, k, p);
    ReachableInv(env, armored, false, false, [Initialize(true)]);
    CipherObjectWraps(pubKey);
    assert OverlongSecret(k.material.value, data, o);
    CrashesExactly(env, Step(env, s, Initialize(true)), c);
  }
}
