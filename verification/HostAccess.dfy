/**
 What unlocks, locks and lists, in the bytes of the protocol: password references and modes are
 written out here. And which subkeys an initialized card uses, in terms of the flags of their bindings.
 */
module HostAccess {
  import opened ByteStrings
  import opened DataObjects
  import opened LockMachine
  import opened LockSteps
  import opened CardRuns
  import opened CardReports
  import opened HostView
  import opened CardStatus

  // ---------------------------------------------------------------------
  // Slots

  /** Subkey `i` is the last of the entity with `flag`. */
  ghost predicate LastWith(e: Entity, i: Option<nat>, flag: Binding -> bool)
  {
    match i
    case None => forall j :: 0 <= j < |e| ==> !flag(e[j].binding)
    case Some(n) => n < |e| && flag(e[n].binding) && forall j :: n < j < |e| ==> !flag(e[j].binding)
  }

  lemma LastIndexLastWith(e: Entity, p: Binding -> bool, flag: Binding -> bool)
    requires forall b :: p(b) <==> flag(b)
    ensures LastWith(e, LastIndex(e, p), flag)
  {
    LastIndexIsLast(e, p);
  }

  /**
   Over every run from an initialization on: Sig is the last subkey whose valid binding has the signing
   flag, Dec the last with both encryption flags, Aut the last with the authentication flag; a slot is
   empty exactly if there is none.
   */
  lemma SlotsFollowFlags(env: Env, s: State, armored: Bytes, e: Entity, cs: seq<Command>)
    requires Inv(s) && !s.initialized
    ensures var t := Run(env, Load(s, armored, e), cs);
            && LastWith(e, t.ring.sig, (b: Binding) => b.Binding? && b.valid && b.sign)
            && LastWith(e, t.ring.dec, (b: Binding) => b.Binding? && b.valid && b.storage && b.communications)
            && LastWith(e, t.ring.aut, (b: Binding) => b.Binding? && b.valid && b.authenticate)
  {
    LoadKeepsInv(s, armored, e);
    KeysAreFixed(env, Load(s, armored, e), cs);
    LastIndexLastWith(e, ForSigning, (b: Binding) => b.Binding? && b.valid && b.sign);
    LastIndexLastWith(e, ForDecryption, (b: Binding) => b.Binding? && b.valid && b.storage && b.communications);
    LastIndexLastWith(e, ForAuthentication, (b: Binding) => b.Binding? && b.valid && b.authenticate);
  }

  /** Right after an initialization every subkey has the private key it came with, the copy its origin's, and three attempts are left. */
  lemma LoadedKeys(s: State, armored: Bytes, e: Entity)
    requires Inv(s) && !s.initialized
    ensures var t := Load(s, armored, e);
            && t.initialized && t.retries == 3 && t.armored == armored && t.log == s.log && !t.white
            && t.selected == s.selected && t.crashed == s.crashed && t.signatures == s.signatures
            && |t.ring.live| == |e| && (forall i :: 0 <= i < |e| ==> t.ring.live[i] == e[i].key)
            && |t.ring.publics| == |e| && (forall i :: 0 <= i < |e| ==> t.ring.publics[i] == e[i].public)
            && (t.ring.aut.Some? ==> t.ring.aut.value < |e| && t.ring.autKey == e[t.ring.aut.value].key)
  {
  }

  // ---------------------------------------------------------------------
  // VERIFY

  /** The subkey of a password reference: 0x81 signs, 0x82 decrypts. */
  function Slot(s: State, p2: byte): Option<nat>
  {
    if p2 == 0x81 then s.ring.sig else if p2 == 0x82 then s.ring.dec else None
  }

  /** The card with another key in one subkey; the indicator follows, other keys stay. */
  ghost predicate KeyBecomes(s: State, t: State, id: nat, k: KeyValue)
  {
    && id < |s.ring.live| && t.ring.live == s.ring.live[id := Some(k)]
    && t.ring.sig == s.ring.sig && t.ring.dec == s.ring.dec && t.ring.aut == s.ring.aut
    && t.ring.caches == s.ring.caches && t.ring.publics == s.ring.publics
    && t.initialized == s.initialized && t.armored == s.armored && t.selected == s.selected
    && t.signatures == s.signatures && t.crashed == s.crashed && t.white == s.white
  }

  lemma VerifyStep(env: Env, s: State, p1: byte, p2: byte, pw: Bytes, le: nat, o: Oracle)
    requires !s.crashed
    ensures Exec(env, s, Send(0x20, p1, p2, pw, le, o)) == Verify(env, s, p1, p2, pw)
  {
  }

  /** With the invariant the indicator is up to date, so signalling changes nothing. */
  lemma SignalIsIdle(s: State)
    requires Inv(s) && s.initialized
    ensures Signal(s) == s
  {
  }

  /** A reference without a key, and a mode that is neither 0x00 nor 0xff, are refused; nothing changes. */
  lemma VerifyRefused(env: Env, s: State, p1: byte, p2: byte, pw: Bytes, le: nat, o: Oracle)
    requires !s.crashed && Inv(s) && s.initialized
    requires !HasKey(s, Slot(s, p2)) || p1 !in {0x00, 0xff}
    ensures Exec(env, s, Send(0x20, p1, p2, pw, le, o)) == Outcome(s, NotAllowed)
  {
    VerifyStep(env, s, p1, p2, pw, le, o);
    SignalIsIdle(s);
  }

  /** Mode 0x00 that tries nothing: without a passphrase, on an open key, or with no attempts left. */
  lemma VerifyTellsStatus(env: Env, s: State, p2: byte, pw: Bytes, le: nat, o: Oracle)
    requires !s.crashed && Inv(s) && s.initialized && HasKey(s, Slot(s, p2))
    requires pw == [] || Unlocked(s, Slot(s, p2)) || s.retries == 0
    ensures Exec(env, s, Send(0x20, 0x00, p2, pw, le, o))
            == Outcome(s, if Unlocked(s, Slot(s, p2)) then Ok([]) else Word(0x63, s.retries))
  {
    VerifyStep(env, s, 0x00, p2, pw, le, o);
    SignalIsIdle(s);
  }

  /** Mode 0x00 with a passphrase for a locked key: it opens and three attempts are left, or one attempt is gone. */
  lemma VerifyTries(env: Env, s: State, p2: byte, pw: Bytes, le: nat, o: Oracle)
    requires !s.crashed && Inv(s) && s.initialized && HasKey(s, Slot(s, p2))
    requires pw != [] && !Unlocked(s, Slot(s, p2)) && s.retries > 0
    ensures var out, id := Exec(env, s, Send(0x20, 0x00, p2, pw, le, o)), Slot(s, p2).value;
            match env.decrypt(KeyAt(s, id), pw)
            case Some(m) =>
              && out.reply == Ok([]) && out.state.retries == 3
              && KeyBecomes(s, out.state, id, KeyValue(KeyAt(s, id).fingerprint, false, Some(m), KeyAt(s, id).sealed))
            case None =>
              && out.reply == Word(0x63, s.retries - 1) && out.state.retries == s.retries - 1
              && KeyBecomes(s, out.state, id, KeyAt(s, id))
  {
    VerifyStep(env, s, 0x00, p2, pw, le, o);
  }

  /** Mode 0xff on an open key puts the first cached key with its fingerprint in its place; a locked key stays. */
  lemma VerifyLocks(env: Env, s: State, p2: byte, pw: Bytes, le: nat, o: Oracle)
    requires !s.crashed && Inv(s) && s.initialized && HasKey(s, Slot(s, p2))
    ensures var out, id := Exec(env, s, Send(0x20, 0xff, p2, pw, le, o)), Slot(s, p2).value;
            && out.reply == Ok([]) && out.state.retries == s.retries
            && if !Unlocked(s, Slot(s, p2)) then out.state == s
               else KeyBecomes(s, out.state, id,
                               if p2 == 0x81 || s.ring.caches.sig.fingerprint == s.ring.caches.dec.fingerprint
                               then s.ring.caches.sig else s.ring.caches.dec)
  {
    VerifyStep(env, s, 0xff, p2, pw, le, o);
    if Unlocked(s, Slot(s, p2)) {
      RestoreFinds(s, Slot(s, p2).value);
    } else {
      SignalIsIdle(s);
    }
  }

  // ---------------------------------------------------------------------
  // Console

  /** The VERIFY commands that do what a console command does. */
  function AsVerify(p1: byte, t: Target, pw: Bytes, o: Oracle): seq<Command>
  {
    match t
    case SigOnly => [Send(0x20, p1, 0x81, pw, 0, o)]
    case DecOnly => [Send(0x20, p1, 0x82, pw, 0, o)]
    case Both => [Send(0x20, p1, 0x81, pw, 0, o), Send(0x20, p1, 0x82, pw, 0, o)]
  }

  lemma VerifyKeepsRunning(env: Env, s: State, p1: byte, p2: byte, pw: Bytes)
    requires Inv(s) && s.initialized && !s.crashed
    ensures var t := Verify(env, s, p1, p2, pw).state; Inv(t) && t.initialized && !t.crashed
  {
    var c := Apdu(Capdu(0x00, VERIFY, p1, p2, pw, 0), NoLibraries());
    StepKeeps(_ => true, ALL, env, s, c);
    OnlySecurityOperationsCrash(env, s, c);
    StaysInitialized(env, s, c);
  }

  /** An oracle for commands that ask none. */
  function NoLibraries(): Oracle
  {
    Oracle((_, _, _) => None, (_, _) => None, 0, (_, _) => None, (_, _) => None, NoEngine, None,
           PublicFields([], [], [], [], [], [], [], [], [], [], [], [], [], [], []))
  }

  lemma EachIsRun(env: Env, s: State, p1: byte, t: Target, pw: Bytes, o: Oracle)
    requires Inv(s) && s.initialized && !s.crashed
    ensures VerifyEach(env, s, p1, Passwords(t), pw) == Run(env, s, AsVerify(p1, t, pw, o))
  {
    var a, b := Send(0x20, p1, 0x81, pw, 0, o), Send(0x20, p1, 0x82, pw, 0, o);
    match t
    case SigOnly =>
      VerifyOne(env, s, p1, 0x81, pw);
      RunTwo(env, s, a, b);
    case DecOnly =>
      VerifyOne(env, s, p1, 0x82, pw);
      RunTwo(env, s, b, a);
    case Both =>
      VerifyTwo(env, s, p1, 0x81, 0x82, pw);
      RunTwo(env, s, a, b);
      VerifyKeepsRunning(env, s, p1, 0x81, pw);
  }

  /** `lock` is refused before initialization; then it is those VERIFY commands in mode 0xff. */
  lemma ConsoleLockIsVerify(env: Env, s: State, t: Target, o: Oracle)
    requires Inv(s) && !s.crashed
    ensures var out := Exec(env, s, ConsoleLock(t));
            if s.initialized then out == Outcome(Run(env, s, AsVerify(0xff, t, [], o)), Console(true))
            else out == Outcome(s, Console(false))
  {
    if s.initialized {
      EachIsRun(env, s, 0xff, t, [], o);
    }
  }

  /** `unlock` of an initialized card is those VERIFY commands in mode 0x00; without a passphrase it does nothing. */
  lemma ConsoleUnlockIsVerify(env: Env, s: State, t: Target, derived: bool, pw: Option<Bytes>, o: Oracle)
    requires Inv(s) && s.initialized && !s.crashed
    ensures Exec(env, s, ConsoleUnlock(t, derived, pw))
            == match pw
               case None => Outcome(s, Console(false))
               case Some(b) => Outcome(Run(env, s, AsVerify(0x00, t, b, o)), Console(true))
  {
    if pw.Some? {
      EachIsRun(env, s, 0x00, t, pw.value, o);
    }
  }

  /** Before initialization `unlock` is `init`, and, if that succeeds, the same `unlock`. */
  lemma ConsoleUnlockInitializes(env: Env, s: State, t: Target, derived: bool, pw: Option<Bytes>)
    requires Inv(s) && !s.initialized && !s.crashed
    ensures var ready := Step(env, s, Initialize(derived));
            Exec(env, s, ConsoleUnlock(t, derived, pw))
            == if ready.initialized then Exec(env, ready, ConsoleUnlock(t, derived, pw)) else Outcome(ready, Console(false))
  {
  }

  /** A second initialization is refused and changes nothing. */
  lemma InitializesOnce(env: Env, s: State, derived: bool)
    requires s.initialized && !s.crashed
    ensures Exec(env, s, Initialize(derived)) == Outcome(s, Console(false))
  {
  }

  // ---------------------------------------------------------------------
  // Object listing

  /** A listing succeeds exactly with an open RSA key or an open key of the standard ECDSA type, and constructors that work. */
  lemma ListsExactly(env: Env, s: State, ok: bool)
    requires !s.crashed
    ensures var reply := Exec(env, s, ListKeys(ok)).reply;
            && (reply == Console(true) || reply == Console(false))
            && (reply == Console(true) <==>
                  ok && Glows(s, s.ring.sig) && SigMaterial(s).kind in {RsaKey, StdEcdsaKey})
  {
  }
}
