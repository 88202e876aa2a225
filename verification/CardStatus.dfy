/** When keys are locked: status words, SELECT, the indicator and the authentication copy. */
module CardStatus {
  import opened ByteStrings
  import opened DataObjects
  import opened LockMachine
  import opened LockSteps
  import opened CardRuns

  // ---------------------------------------------------------------------
  // VERIFY

  /** With a key present, VERIFY answers 9000 exactly when the key is unlocked afterwards. */
  lemma VerifyStatusIsLockStatus(env: Env, s: State, p2: byte, passphrase: Bytes)
    requires Inv(s) && HasKey(s, SlotOf(s, p2))
    ensures var out := Verify(env, s, PW_VERIFY, p2, passphrase);
            IsCompleted(out.reply) <==> Unlocked(out.state, SlotOf(s, p2))
  {
  }

  /** The key that locking leaves in a slot. */
  function Home(s: State, p2: byte): KeyValue
  {
    if p2 == PW1_CDS then s.ring.caches.sig else DecHome(s)
  }

  /** Locking leaves an unlocked key encrypted exactly when the cache it is restored from is encrypted. */
  lemma LockRestoresHome(env: Env, s: State, p2: byte)
    requires Inv(s) && s.initialized && Unlocked(s, SlotOf(s, p2))
    ensures var t := Lock(env, s, p2);
            && t == Signal(Restore(s, SlotOf(s, p2).value))
            && t.ring.live == s.ring.live[SlotOf(s, p2).value := Some(Home(s, p2))]
            && (Unlocked(t, SlotOf(s, p2)) <==> !Home(s, p2).encrypted)
  {
    RestoreFinds(s, SlotOf(s, p2).value);
  }

  /** Right after loading, a slot's home is its own key unless a signature key shares the fingerprint. */
  lemma HomeIsOwnKey(s: State, armored: Bytes, e: Entity)
    requires Inv(s) && !s.initialized
    ensures var t := Load(s, armored, e);
            && (HasKey(t, t.ring.sig) ==> Home(t, PW1_CDS) == KeyAt(t, t.ring.sig.value))
            && (HasKey(t, t.ring.dec) ==>
                  (Home(t, PW1) == KeyAt(t, t.ring.dec.value) <==>
                   t.ring.caches.sig.fingerprint != t.ring.caches.dec.fingerprint || t.ring.caches.sig == t.ring.caches.dec))
  {
  }

  /** A PSO:CDS that reaches the key leaves it locked whatever it answers; one without data leaves it as it was. */
  lemma SigningLocks(env: Env, s: State, data: Bytes, o: Oracle)
    requires Inv(s) && ProtectedSig(s)
    ensures Unlocked(ComputeDigitalSignature(env, s, data, o).state, s.ring.sig) <==> data == [] && Unlocked(s, s.ring.sig)
  {
    if data != [] && Unlocked(s, s.ring.sig) {
      LockRestoresHome(env, s, PW1_CDS);
      LockRestoresHome(env, CountSignature(s, s.ring.sig.value), PW1_CDS);
    }
  }

  /** An object listing always leaves a protected signature key locked. */
  lemma ListingLocks(env: Env, s: State, ok: bool)
    requires Inv(s) && ProtectedSig(s)
    ensures !Unlocked(ListObjects(env, s, ok).state, s.ring.sig)
  {
    if Unlocked(s, s.ring.sig) {
      LockRestoresHome(env, s, PW1_CDS);
      LockRestoresHome(env, Note(s, Listed(s.ring.sig.value)), PW1_CDS);
    }
  }

  // ---------------------------------------------------------------------
  // A locked key stays locked

  ghost predicate KeptSince(s: State, t: State, id: nat)
  {
    && t.initialized && id < |t.ring.live| == |s.ring.live|
    && Count(t.log, DecryptionOf(id)) >= Count(s.log, DecryptionOf(id))
    && (Count(t.log, DecryptionOf(id)) == Count(s.log, DecryptionOf(id)) ==> t.ring.live[id] == s.ring.live[id])
  }

  /** No transition but its own decryption changes an encrypted key. */
  lemma LockedKeyStays(t: State, m: Micro, id: nat)
    requires t.initialized && Enabled(t, m) && id < |t.ring.live|
    ensures Apply(t, m).initialized && |Apply(t, m).ring.live| == |t.ring.live|
    ensures HasKey(t, Some(id)) && KeyAt(t, id).encrypted && EventOf(m) != Some(Decrypted(id)) ==>
              Apply(t, m).ring.live[id] == t.ring.live[id]
  {
    match m
    case MUnlock(i, mat) => assert Apply(t, m).ring == OpenKey(t.ring, i, mat);
    case MRestore(i) => assert Apply(t, m).ring == Restore(t, i).ring;
    case MSign(i) => assert Apply(t, m).ring == Restore(t, i).ring;
    case MList(i) => assert Apply(t, m).ring == Restore(t, i).ring;
    case _ =>
  }

  lemma MicroKept(s: State, t: State, m: Micro, id: nat)
    requires HasKey(s, Some(id)) && KeyAt(s, id).encrypted
    requires KeptSince(s, t, id) && Inv(t) && Enabled(t, m)
    ensures KeptSince(s, Apply(t, m), id)
  {
    MicroCounts(t, m, DecryptionOf(id));
    LockedKeyStays(t, m, id);
  }

  /** An encrypted key is untouched by every run that does not successfully decrypt it. */
  lemma StaysLocked(env: Env, s: State, id: nat, cs: seq<Command>)
    requires Inv(s) && s.initialized && HasKey(s, Some(id)) && KeyAt(s, id).encrypted
    requires Count(Run(env, s, cs).log, DecryptionOf(id)) == Count(s.log, DecryptionOf(id))
    ensures HasKey(Run(env, s, cs), Some(id)) && KeyAt(Run(env, s, cs), id) == KeyAt(s, id)
  {
    RunKept(env, s, id, cs);
  }

  lemma RunKept(env: Env, s: State, id: nat, cs: seq<Command>)
    requires Inv(s) && s.initialized && HasKey(s, Some(id)) && KeyAt(s, id).encrypted
    ensures KeptSince(s, Run(env, s, cs), id)
  {
    var P := (t: State) => KeptSince(s, t, id);
    forall t: State, m: Micro | Inv(t) && P(t) && Enabled(t, m)
      ensures P(Apply(t, m))
    {
      MicroKept(s, t, m, id);
    }
    RunKeeps(P, env, s, cs);
  }

  // ---------------------------------------------------------------------
  // SELECT

  predicate IsSelect(c: Command)
  {
    c.Apdu? && c.capdu.cla == 0x00 && c.capdu.ins == 0xa4
  }

  /** The identifier of this card: version 3.4, manufacturer F5EC, serial number, reserved bytes. */
  function FullName(serial: Bytes): Bytes
  {
    [0xd2, 0x76, 0x00, 0x01, 0x24, 0x01, 0x03, 0x04, 0xf5, 0xec] + serial + [0x00, 0x00]
  }

  /** The card answers to the registered identifier of the OpenPGP application and to its full name. */
  predicate CardName(env: Env, file: Bytes)
  {
    file == [0xd2, 0x76, 0x00, 0x01, 0x24, 0x01] || file == FullName(env.serial)
  }

  lemma NamesAreBytes(env: Env, file: Bytes)
    ensures NamesCard(env, file) <==> CardName(env, file)
    ensures Aid(env.serial) == FullName(env.serial)
  {
    assert Aid(env.serial) == FullName(env.serial);
  }

  /** The file named by the most recent SELECT. */
  function LastSelect(cs: seq<Command>): Option<Bytes>
  {
    if cs == [] then None
    else if IsSelect(cs[|cs| - 1]) then Some(cs[|cs| - 1].capdu.data)
    else LastSelect(cs[..|cs| - 1])
  }

  lemma OnlySelectSelects(env: Env, s: State, c: Command)
    requires Inv(s) && !IsSelect(c)
    ensures Step(env, s, c).selected == s.selected
  {
    var P := (t: State) => t.selected == s.selected;
    var g := ALL - {Selects};
    forall t: State, m: Micro | Inv(t) && P(t) && Enabled(t, m) && GroupOf(m) in g
      ensures P(Apply(t, m))
    {
    }
    StepKeeps(P, g, env, s, c);
  }

  /** In every run that did not crash, the card is selected exactly when the last SELECT named it. */
  lemma {:induction false} SelectedMeansLastSelect(env: Env, armored: Bytes, blue: bool, white: bool, cs: seq<Command>)
    requires !Run(env, Start(armored, blue, white), cs).crashed
    ensures Run(env, Start(armored, blue, white), cs).selected <==>
            LastSelect(cs).Some? && CardName(env, LastSelect(cs).value)
  {
    if cs != [] {
      var n := |cs| - 1;
      SelectedMeansLastSelect(env, armored, blue, white, cs[..n]);
      var s := Run(env, Start(armored, blue, white), cs[..n]);
      if IsSelect(cs[n]) {
        NamesAreBytes(env, cs[n].capdu.data);
      } else {
        ReachableInv(env, armored, blue, white, cs[..n]);
        OnlySelectSelects(env, s, cs[n]);
      }
    }
  }

  /** A SELECT of another application while selected leaves Sig and Dec at what their caches say. */
  lemma SelectLocksKeys(env: Env, s: State, file: Bytes)
    requires Inv(s) && s.initialized && s.selected && !CardName(env, file)
    ensures var t := Select(env, s, file).state;
            && !t.selected && SameKeys(s, t)
            && t.log == s.log
            && (Unlocked(t, t.ring.sig) <==> HasKey(s, s.ring.sig) && !s.ring.caches.sig.encrypted)
            && (Unlocked(t, t.ring.dec) <==> Unlocked(s, s.ring.dec) && !DecHome(s).encrypted)
  {
    var P := (t: State) => SameKeys(s, t);
    forall t: State, m: Micro | Inv(t) && P(t) && Enabled(t, m)
      ensures P(Apply(t, m))
    {
      MicroSameKeys(s, t, m);
    }
    SelectKeeps(P, ALL, env, s, file);
    NamesAreBytes(env, file);
    LockBoth(env, s);
    LockEvery(env, s);
    var s2 := Lock(env, Lock(env, s, PW1_CDS), PW1);
    assert Lock(env, s2, PW3) == Signal(s2);
  }

  /** Locking one slot decides that slot and leaves every other key alone. */
  lemma LockOne(env: Env, s: State, p2: byte, other: Option<nat>)
    requires Inv(s) && s.initialized && (p2 == PW1_CDS || p2 == PW1)
    ensures var t := Lock(env, s, p2);
            && t.initialized
            && t.log == s.log && t.ring.sig == s.ring.sig && t.ring.dec == s.ring.dec && t.ring.caches == s.ring.caches
            && (Unlocked(t, SlotOf(s, p2)) <==> Unlocked(s, SlotOf(s, p2)) && !Home(s, p2).encrypted)
            && (other != SlotOf(s, p2) ==> (Unlocked(t, other) <==> Unlocked(s, other)))
  {
    if Unlocked(s, SlotOf(s, p2)) {
      LockRestoresHome(env, s, p2);
    } else {
      assert Lock(env, s, p2) == Signal(s);
    }
  }

  lemma LockBoth(env: Env, s: State)
    requires Inv(s) && s.initialized
    ensures var t := Lock(env, Lock(env, s, PW1_CDS), PW1);
            && t.log == s.log && t.ring.sig == s.ring.sig && t.ring.dec == s.ring.dec
            && (Unlocked(t, t.ring.sig) <==> HasKey(s, s.ring.sig) && !s.ring.caches.sig.encrypted)
            && (Unlocked(t, t.ring.dec) <==> Unlocked(s, s.ring.dec) && !DecHome(s).encrypted)
  {
    LockOne(env, s, PW1_CDS, s.ring.dec);
    VerifyKeeps(_ => true, ALL, env, s, PW_LOCK, PW1_CDS, []);
    LockOne(env, Lock(env, s, PW1_CDS), PW1, s.ring.sig);
    assert Unlocked(s, s.ring.sig) && s.ring.dec == s.ring.sig ==> DecHome(s) == s.ring.caches.sig;
  }

  /** Each protected slot is then encrypted until a later decryption of it succeeds. */
  lemma SelectLocksUntilUnlock(env: Env, s: State, file: Bytes, slot: Option<nat>, cs: seq<Command>)
    requires Inv(s) && s.initialized && s.selected && !CardName(env, file)
    requires (slot == s.ring.sig && s.ring.caches.sig.encrypted) || (slot == s.ring.dec && DecHome(s).encrypted)
    requires HasKey(s, slot)
    requires Count(Run(env, Select(env, s, file).state, cs).log, DecryptionOf(slot.value))
             == Count(s.log, DecryptionOf(slot.value))
    ensures !Unlocked(Run(env, Select(env, s, file).state, cs), slot)
    ensures HasKey(Run(env, Select(env, s, file).state, cs), slot)
  {
    SelectLocksKeys(env, s, file);
    SelectKeeps(_ => true, ALL, env, s, file);
    StaysLocked(env, Select(env, s, file).state, slot.value, cs);
  }

  // ---------------------------------------------------------------------
  // The console

  lemma VerifyTwo(env: Env, s: State, p1: byte, a: byte, b: byte, pw: Bytes)
    ensures VerifyEach(env, s, p1, [a, b], pw) == Verify(env, Verify(env, s, p1, a, pw).state, p1, b, pw).state
  {
    assert [a, b][..1] == [a] && [a][..0] == [];
    assert VerifyEach(env, s, p1, [a], pw) == Verify(env, s, p1, a, pw).state;
  }

  /** The passphrase opens the slot's key, or it is open already. */
  predicate Opens(env: Env, s: State, slot: Option<nat>, pw: Bytes)
  {
    HasKey(s, slot) && (Unlocked(s, slot) || env.decrypt(KeyAt(s, slot.value), pw).Some?)
  }

  /** A right passphrase opens its slot, touches no other key and leaves retries. */
  lemma RightPassphrase(env: Env, s: State, p2: byte, pw: Bytes)
    requires s.retries > 0 && pw != [] && Opens(env, s, SlotOf(s, p2), pw)
    ensures var t := Verify(env, s, PW_VERIFY, p2, pw).state;
            && Unlocked(t, SlotOf(s, p2)) && t.retries > 0
            && t.ring.sig == s.ring.sig && t.ring.dec == s.ring.dec && |t.ring.live| == |s.ring.live|
            && (forall i :: 0 <= i < |s.ring.live| && SlotOf(s, p2) != Some(i) ==> t.ring.live[i] == s.ring.live[i])
  {
    var k := KeyAt(s, SlotOf(s, p2).value);
    if k.encrypted {
      var m := env.decrypt(k, pw).value;
      assert Verify(env, s, PW_VERIFY, p2, pw).state == Signal(Unlock(s, SlotOf(s, p2).value, m));
    }
  }

  lemma RightPassphraseTwice(env: Env, s: State, pw: Bytes)
    requires s.retries > 0 && pw != [] && Opens(env, s, s.ring.sig, pw) && Opens(env, s, s.ring.dec, pw)
    ensures var t := Verify(env, Verify(env, s, PW_VERIFY, PW1_CDS, pw).state, PW_VERIFY, PW1, pw).state;
            Unlocked(t, t.ring.sig) && Unlocked(t, t.ring.dec)
  {
    RightPassphrase(env, s, PW1_CDS, pw);
    var s1 := Verify(env, s, PW_VERIFY, PW1_CDS, pw).state;
    assert Opens(env, s1, s1.ring.dec, pw);
    RightPassphrase(env, s1, PW1, pw);
  }

  /** `unlock all` with a passphrase that is right for both keys opens both, also when they are one key. */
  lemma ConsoleUnlockOpensBoth(env: Env, s: State, derived: bool, pw: Bytes)
    requires s.initialized && !s.crashed && s.retries > 0 && pw != []
    requires Opens(env, s, s.ring.sig, pw) && Opens(env, s, s.ring.dec, pw)
    ensures var t := Step(env, s, ConsoleUnlock(Both, derived, Some(pw)));
            Unlocked(t, t.ring.sig) && Unlocked(t, t.ring.dec)
  {
    VerifyTwo(env, s, PW_VERIFY, PW1_CDS, PW1, pw);
    RightPassphraseTwice(env, s, pw);
    assert Step(env, s, ConsoleUnlock(Both, derived, Some(pw))) == VerifyEach(env, s, PW_VERIFY, [PW1_CDS, PW1], pw);
  }

  /** `lock all` leaves both slots at what their caches say. */
  lemma ConsoleLockLocksBoth(env: Env, s: State)
    requires Inv(s) && s.initialized && !s.crashed
    ensures var t := Step(env, s, ConsoleLock(Both));
            && (Unlocked(t, t.ring.sig) <==> HasKey(s, s.ring.sig) && !s.ring.caches.sig.encrypted)
            && (Unlocked(t, t.ring.dec) <==> Unlocked(s, s.ring.dec) && !DecHome(s).encrypted)
  {
    VerifyTwo(env, s, PW_LOCK, PW1_CDS, PW1, []);
    LockBoth(env, s);
  }

  // ---------------------------------------------------------------------
  // Indicator

  /** Once initialized, the blue LED shows exactly whether a slot holds key material; the white LED is off. */
  lemma IndicatorAgrees(env: Env, armored: Bytes, blue: bool, white: bool, cs: seq<Command>)
    ensures var t := Run(env, Start(armored, blue, white), cs);
            t.initialized ==> (t.blue <==> Glows(t, t.ring.sig) || Glows(t, t.ring.dec)) && !t.white
  {
    ReachableInv(env, armored, blue, white, cs);
  }

  // ---------------------------------------------------------------------
  // Decryption key: every use but the AES form follows an unlock

  /** A PSO:DECIPHER whose first byte asks for the AES engine. */
  predicate IsAesForm(c: Command)
  {
    IsOperation(c, DECIPHER) && |c.capdu.data| >= 1 && c.capdu.data[0] == AES_PADDING
  }

  /** What the dispatcher adds to the two operations. */
  lemma CipherStep(env: Env, s: State, c: Command)
    requires !s.crashed
    ensures IsOperation(c, DECIPHER) ==> Exec(env, s, c).reply == Decipher(s, c.capdu.data, c.oracle).reply
    ensures IsOperation(c, ENCIPHER) ==> Exec(env, s, c).reply == Encipher(s, c.capdu.data, c.oracle).reply
  {
    if IsOperation(c, DECIPHER) || IsOperation(c, ENCIPHER) {
      assert SecurityOperation(env, s, Params(c.capdu), c.capdu.data, c.oracle)
             == if IsOperation(c, DECIPHER) then Decipher(s, c.capdu.data, c.oracle) else Encipher(s, c.capdu.data, c.oracle);
    }
  }

  /** While the decryption key is locked, exactly the AES form of PSO:DECIPHER is served, if the engine works. */
  lemma LockedServesExactlyAes(env: Env, s: State, c: Command)
    requires !s.crashed && HasKey(s, s.ring.dec) && KeyAt(s, s.ring.dec.value).encrypted
    requires IsOperation(c, DECIPHER) || IsOperation(c, ENCIPHER)
    ensures IsCompleted(Exec(env, s, c).reply) <==>
            IsAesForm(c) && (|c.capdu.data| - 1) % 16 == 0 && c.oracle.aes.Cbc?
  {
    CipherStep(env, s, c);
  }

  /** Without the AES form, only an unlocked key serves. */
  lemma OnlyUnlockedServes(env: Env, s: State, c: Command)
    requires (IsOperation(c, DECIPHER) && !IsAesForm(c)) || IsOperation(c, ENCIPHER)
    requires IsCompleted(Exec(env, s, c).reply)
    ensures Unlocked(s, s.ring.dec)
  {
    CipherStep(env, s, c);
  }

  /** The decryption key has a passphrase, and so has the key that locking puts in its place. */
  predicate ProtectedDec(s: State)
  {
    s.initialized && s.ring.dec.Some? && s.ring.caches.dec.encrypted && DecHome(s).encrypted
  }

  ghost predicate Guarded(s: State)
  {
    ProtectedDec(s) && Unlocked(s, s.ring.dec) ==> Decrypted(s.ring.dec.value) in s.log
  }

  lemma MicroGuarded(s: State, m: Micro)
    requires Inv(s) && Guarded(s) && Enabled(s, m)
    ensures Guarded(Apply(s, m))
  {
    MicroAppends(s, m);
    match m
    case MUnlock(id, _) =>
      assert Apply(s, m).log[|s.log|] == Decrypted(id);
    case MRestore(id) => RestoreFinds(s, id);
    case MSign(id) => RestoreFinds(s, id);
    case MList(id) => RestoreFinds(s, id);
    case _ =>
  }

  lemma OpenMeansDecrypted(env: Env, armored: Bytes, blue: bool, white: bool, cs: seq<Command>)
    ensures Guarded(Run(env, Start(armored, blue, white), cs))
  {
    var P := (s: State) => Guarded(s);
    forall s: State, m: Micro | Inv(s) && P(s) && Enabled(s, m)
      ensures P(Apply(s, m))
    {
      MicroGuarded(s, m);
    }
    RunKeeps(P, env, Start(armored, blue, white), cs);
  }

  /** From power-on, such a command with a protected decryption key follows a decryption of it. */
  lemma ServedOnceDecrypted(env: Env, armored: Bytes, blue: bool, white: bool, cs: seq<Command>, c: Command)
    requires (IsOperation(c, DECIPHER) && !IsAesForm(c)) || IsOperation(c, ENCIPHER)
    ensures var t := Run(env, Start(armored, blue, white), cs);
            ProtectedDec(t) && IsCompleted(Exec(env, t, c).reply) ==> Decrypted(t.ring.dec.value) in t.log
  {
    var t := Run(env, Start(armored, blue, white), cs);
    OpenMeansDecrypted(env, armored, blue, white, cs);
    if IsCompleted(Exec(env, t, c).reply) {
      OnlyUnlockedServes(env, t, c);
    }
  }

  /**
   Whenever the decryption key is locked, no later PSO:ENCIPHER, and no later PSO:DECIPHER other than
   the AES form, answers 9000 before that key has been decrypted once more.
   */
  lemma ServiceFollowsUnlock(env: Env, s: State, cs: seq<Command>, c: Command)
    requires Inv(s) && s.initialized && HasKey(s, s.ring.dec) && KeyAt(s, s.ring.dec.value).encrypted
    requires (IsOperation(c, DECIPHER) && !IsAesForm(c)) || IsOperation(c, ENCIPHER)
    ensures var t, id := Run(env, s, cs), s.ring.dec.value;
            IsCompleted(Exec(env, t, c).reply) ==> Count(t.log, DecryptionOf(id)) > Count(s.log, DecryptionOf(id))
  {
    var t := Run(env, s, cs);
    RunKept(env, s, s.ring.dec.value, cs);
    KeysAreFixed(env, s, cs);
    if IsCompleted(Exec(env, t, c).reply) {
      OnlyUnlockedServes(env, t, c);
    }
  }

  // ---------------------------------------------------------------------
  // The authentication copy

  ghost predicate CopyTracksFirstUnlock(s: State)
  {
    s.ring.aut.Some? && s.ring.autKey.Some? ==>
      && (s.ring.autKey.value.encrypted <==> s.ring.caches.aut.encrypted && Decrypted(s.ring.aut.value) !in s.log)
      && (s.ring.autKey.value.encrypted ==> s.ring.autShared)
  }

  lemma MicroCopy(s: State, m: Micro)
    requires Inv(s) && CopyTracksFirstUnlock(s) && Enabled(s, m)
    ensures CopyTracksFirstUnlock(Apply(s, m))
  {
    MicroAppends(s, m);
    if m.MUnlock? {
      assert Apply(s, m).log[|s.log|] == Decrypted(m.id);
    }
  }

  /**
   The authentication subkey is a copy of its entity subkey that shares the key object until the
   first lock: its key is unencrypted exactly when it never had a passphrase or the subkey it was
   copied from has once been decrypted, whatever was locked since.
   */
  lemma AuthenticationCopy(env: Env, armored: Bytes, blue: bool, white: bool, cs: seq<Command>)
    ensures var t := Run(env, Start(armored, blue, white), cs);
            t.ring.aut.Some? && t.ring.autKey.Some? ==>
              (t.ring.autKey.value.encrypted <==> t.ring.caches.aut.encrypted && Decrypted(t.ring.aut.value) !in t.log)
  {
    var P := (s: State) => CopyTracksFirstUnlock(s);
    forall s: State, m: Micro | Inv(s) && P(s) && Enabled(s, m)
      ensures P(Apply(s, m))
    {
      MicroCopy(s, m);
    }
    RunKeeps(P, env, Start(armored, blue, white), cs);
  }
}
