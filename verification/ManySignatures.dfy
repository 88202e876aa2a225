/** Runs with any number of signatures, and what the host then reads. */
module ManySignatures {
  import opened ByteStrings
  import opened DataObjects
  import opened LockMachine
  import opened LockSteps
  import opened CardReports

  /** The signature key is an RSA key without a passphrase, and locking puts back the same. */
  ghost predicate Steady(s: State, k: KeyValue)
  {
    && Inv(s) && s.initialized && !s.crashed
    && HasKey(s, s.ring.sig) && KeyAt(s, s.ring.sig.value) == k && s.ring.caches.sig == k
    && !k.encrypted && k.material.Some? && k.material.value.kind == RsaKey
  }

  /** PSO:CDS over the DigestInfo of a SHA-256 digest, with a library that signs it. */
  predicate Signing(k: KeyValue, c: Command)
  {
    && IsOperation(c, COMPUTE_DIGITAL_SIGNATURE) && |c.capdu.data| == 51
    && k.material.Some? && c.oracle.signRsa(k.material.value, Sha256, c.capdu.data[19..]).Some?
  }

  predicate AllSigning(k: KeyValue, cs: seq<Command>)
  {
    forall i :: 0 <= i < |cs| ==> Signing(k, cs[i])
  }

  /** There are such sequences of every length. */
  function Signings(k: KeyValue, data: Bytes, o: Oracle, n: nat): (cs: seq<Command>)
    requires k.material.Some? && |data| == 51 && o.signRsa(k.material.value, Sha256, data[19..]).Some?
    ensures |cs| == n && AllSigning(k, cs)
  {
    var c := SecurityCommand(0x9e, 0x9a, data, o);
    assert Params(c.capdu) == COMPUTE_DIGITAL_SIGNATURE;
    seq(n, _ => c)
  }

  /** The 32-bit counter after `n` signatures. */
  function Stored(n: nat): nat
  {
    n % 0x1_0000_0000
  }

  lemma StoredNext(n: nat)
    ensures (Stored(n) + 1) % 0x1_0000_0000 == Stored(n + 1)
  {
  }

  /** What one such command does to the card. */
  lemma SignStep(env: Env, s: State, k: KeyValue, c: Command)
    requires Steady(s, k) && Signing(k, c)
    ensures SignsIn(env, s, c)
    ensures Step(env, s, c).ring == Restore(s, s.ring.sig.value).ring
    ensures Step(env, s, c).signatures == (s.signatures + 1) % 0x1_0000_0000
  {
    var id := s.ring.sig.value;
    SignsExactly(env, s, c.capdu.data, c.oracle);
    CdsStep(env, s, c);
    LockSigIsRestore(env, CountSignature(s, id));
    assert ComputeDigitalSignature(env, s, c.capdu.data, c.oracle).state == Signal(Restore(CountSignature(s, id), id));
  }

  lemma SteadyStep(env: Env, s: State, k: KeyValue, c: Command)
    requires Steady(s, k) && Signing(k, c)
    ensures Steady(Step(env, s, c), k)
  {
    SignStep(env, s, k, c);
    StepKeeps(_ => true, ALL, env, s, c);
    OnlySecurityOperationsCrash(env, s, c);
    RestoreFinds(s, s.ring.sig.value);
    StaysInitialized(env, s, c);
  }

  /** The card has made `n` signatures and can go on. */
  ghost predicate After(s: State, k: KeyValue, n: nat)
  {
    Steady(s, k) && s.signatures == Stored(n)
  }

  lemma AfterStep(env: Env, s: State, k: KeyValue, c: Command, n: nat)
    requires After(s, k, n) && Signing(k, c)
    ensures SignsIn(env, s, c) && After(Step(env, s, c), k, n + 1)
  {
    SignStep(env, s, k, c);
    SteadyStep(env, s, k, c);
    StoredNext(n);
  }

  lemma {:induction false} SteadyRun(env: Env, s: State, k: KeyValue, cs: seq<Command>)
    requires After(s, k, 0) && AllSigning(k, cs)
    ensures After(Run(env, s, cs), k, |cs|) && SignaturesMade(env, s, cs) == |cs|
  {
    if cs != [] {
      var n := |cs| - 1;
      SteadyRun(env, s, k, cs[..n]);
      AfterStep(env, Run(env, s, cs[..n]), k, cs[n], n);
    }
  }

  lemma {:induction false} SignaturesAppend(env: Env, s: State, a: seq<Command>, b: seq<Command>)
    ensures SignaturesMade(env, s, a + b) == SignaturesMade(env, s, a) + SignaturesMade(env, Run(env, s, a), b)
  {
    if b == [] {
      assert a + b == a;
    } else {
      var n := |b| - 1;
      SignaturesAppend(env, s, a, b[..n]);
      assert (a + b)[..|a + b| - 1] == a + b[..n];
      RunAppend(env, s, a, b[..n]);
    }
  }

  /** An entity with one subkey, for signatures. */
  function SignatureEntity(k: KeyValue, p: PublicKey): Entity
  {
    [Packet(Binding(true, true, false, false, false), Some(k), p)]
  }

  /** The card is bundled with such an entity, and its key is an RSA key without a passphrase. */
  predicate Bundled(env: Env, armored: Bytes, k: KeyValue, p: PublicKey)
  {
    && !env.snvs && env.parse(armored) == Some(SignatureEntity(k, p))
    && !k.encrypted && k.material.Some? && k.material.value.kind == RsaKey
  }

  lemma SteadyLoaded(env: Env, armored: Bytes, k: KeyValue, p: PublicKey)
    requires Bundled(env, armored, k, p)
    ensures var s := Start(armored, false, false);
            && After(Run(env, s, [Initialize(true)]), k, 0)
            && SignaturesMade(env, s, [Initialize(true)]) == 0
  {
    var s, e := Start(armored, false, false), SignatureEntity(k, p);
    RunTwo(env, s, Initialize(true), Initialize(true));
    assert Step(env, s, Initialize(true)) == Load(s, armored, e);
    LoadKeepsInv(s, armored, e);
    LastIndexIsLast(e, ForSigning);
    assert ForSigning(e[0].binding);
    assert [Initialize(true)][..0] == [];
    assert SignaturesMade(env, s, []) == 0;
  }

  /** The state and the number of signatures of the whole run. */
  lemma SigningRun(env: Env, armored: Bytes, k: KeyValue, p: PublicKey, cs: seq<Command>)
    requires Bundled(env, armored, k, p) && AllSigning(k, cs)
    ensures var s := Start(armored, false, false);
            && After(Run(env, s, [Initialize(true)] + cs), k, |cs|)
            && SignaturesMade(env, s, [Initialize(true)] + cs) == |cs|
  {
    var s := Start(armored, false, false);
    SteadyLoaded(env, armored, k, p);
    SteadyRun(env, Run(env, s, [Initialize(true)]), k, cs);
    RunAppend(env, s, [Initialize(true)], cs);
    SignaturesAppend(env, s, [Initialize(true)], cs);
  }

  /** The number of three bytes that the card makes of `n` signatures. */
  function Reported(n: nat): nat
  {
    if Stored(n) <= 0xffffff then Stored(n) else 0
  }

  lemma ReportedExactly(n: nat)
    ensures Reported(n) == n <==> n <= 0xffffff
    ensures 0xffffff < n < 0x1_0000_0000 ==> Reported(n) == 0
  {
  }

  lemma AfterReports(env: Env, s: State, k: KeyValue, n: nat, q: Bytes, o: Oracle)
    requires After(s, k, n)
    ensures ReportedCount(Exec(env, s, CounterQuery(q, o)).reply) == Some(Reported(n))
  {
    ReportIsStoredCounter(env, s, q, o);
  }

  /**
   A card with an unprotected RSA key signs as often as it is asked to, so every number of successful
   signatures is reached. With more than 0xffffff the host reads another number than it counts:
   zero, until the stored 32 bits start over.
   */
  lemma {:induction false} CountIsLost(env: Env, armored: Bytes, k: KeyValue, p: PublicKey, cs: seq<Command>, q: Bytes, o: Oracle)
    requires Bundled(env, armored, k, p) && AllSigning(k, cs)
    ensures var s, run := Start(armored, false, false), [Initialize(true)] + cs;
            && SignaturesMade(env, s, run) == |cs| && !Run(env, s, run).crashed
            && ReportedCount(Exec(env, Run(env, s, run), CounterQuery(q, o)).reply) == Some(Reported(|cs|))
    ensures Reported(|cs|) == |cs| <==> |cs| <= 0xffffff
    ensures 0xffffff < |cs| < 0x1_0000_0000 ==> Reported(|cs|) == 0
  {
    SigningRun(env, armored, k, p, cs);
    AfterReports(env, Run(env, Start(armored, false, false), [Initialize(true)] + cs), k, |cs|, q, o);
    ReportedExactly(|cs|);
  }

  /** The first such run: 0x1000000 signatures and a reported zero. */
  lemma SixteenMillionSignatures(env: Env, armored: Bytes, k: KeyValue, p: PublicKey, data: Bytes, o: Oracle, n: nat)
    requires Bundled(env, armored, k, p) && n == 0x100_0000
    requires |data| == 51 && o.signRsa(k.material.value, Sha256, data[19..]).Some?
    ensures var s, run := Start(armored, false, false), [Initialize(true)] + Signings(k, data, o, n);
            && SignaturesMade(env, s, run) == 0x100_0000
            && ReportedCount(Exec(env, Run(env, s, run), CounterQuery([], o)).reply) == Some(0)
  {
    CountIsLost(env, armored, k, p, Signings(k, data, o, n), [], o);
  }
}
