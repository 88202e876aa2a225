/**
 The elementary transitions every command is made of, the invariant they keep,
 and the induction principle that the run theorems use.
 */
module LockSteps {
  import opened ByteStrings
  import opened LockMachine

  // ---------------------------------------------------------------------
  // Invariant

  /** Every live signature key is the cached key or that key decrypted. */
  ghost predicate SigOk(s: State)
  {
    s.ring.sig.Some? ==>
      && s.ring.sig.value < |s.ring.live|
      && (HasKey(s, s.ring.sig) ==> FormOf(KeyAt(s, s.ring.sig.value), s.ring.caches.sig))
  }

  /** The same for decryption; a signature key of the same fingerprint may have taken its place. */
  ghost predicate DecOk(s: State)
  {
    s.ring.dec.Some? ==>
      && s.ring.dec.value < |s.ring.live|
      && (HasKey(s, s.ring.dec) ==>
            var k := KeyAt(s, s.ring.dec.value);
            || FormOf(k, s.ring.caches.dec)
            || (s.ring.caches.sig.fingerprint == s.ring.caches.dec.fingerprint && FormOf(k, s.ring.caches.sig)))
  }

  ghost predicate AutOk(s: State)
  {
    && (s.ring.autShared ==> s.ring.aut.Some?)
    && (s.ring.aut.Some? ==>
          && s.ring.aut.value < |s.ring.live|
          && (s.ring.autShared ==> s.ring.autKey == s.ring.live[s.ring.aut.value])
          && (s.ring.autKey.Some? ==> FormOf(s.ring.autKey.value, s.ring.caches.aut)))
  }

  ghost predicate Blank(s: State)
  {
    s.ring == EMPTY_RING && s.retries == 0 && s.signatures == 0 && s.log == []
  }

  ghost predicate Ready(s: State)
  {
    && SigOk(s) && DecOk(s) && AutOk(s)
    && s.retries <= DEFAULT_PW1_ERROR_COUNTER
    && s.signatures < 0x1_0000_0000
    && s.blue == Lit(s)
    && !s.white
  }

  ghost predicate Inv(s: State)
  {
    if s.initialized then Ready(s) else Blank(s)
  }

  // ---------------------------------------------------------------------
  // Elementary transitions

  datatype Micro =
    | MLoad(armored: Bytes, entity: Entity)
    | MSpoil(armored: Bytes)
    | MUnlock(id: nat, m: Material)
    | MRefuse(id: nat)
    | MRestore(id: nat)
    | MSign(id: nat)
    | MList(id: nat)
    | MSelect(selected: bool)
    | MResetCounter
    | MSignal
    | MDim
    | MCrash

  predicate IsSlot(s: State, id: nat)
  {
    s.ring.sig == Some(id) || s.ring.dec == Some(id)
  }

  predicate Enabled(s: State, m: Micro)
  {
    match m
    case MLoad(_, _) => !s.initialized
    case MSpoil(_) => !s.initialized
    case MUnlock(id, _) => IsSlot(s, id) && HasKey(s, Some(id)) && KeyAt(s, id).encrypted && s.retries > 0
    case MRefuse(id) => IsSlot(s, id) && HasKey(s, Some(id)) && KeyAt(s, id).encrypted && s.retries > 0
    case MRestore(id) => IsSlot(s, id) && Unlocked(s, Some(id))
    case MSign(id) => s.ring.sig == Some(id) && Unlocked(s, s.ring.sig)
    case MList(id) => s.ring.sig == Some(id) && Unlocked(s, s.ring.sig)
    case MResetCounter => s.signatures > 0xffffff
    case _ => true
  }

  function Apply(s: State, m: Micro): State
    requires Enabled(s, m)
  {
    match m
    case MLoad(armored, e) => Load(s, armored, e)
    case MSpoil(armored) => s.(armored := armored)
    case MUnlock(id, mat) => Signal(Unlock(s, id, mat))
    case MRefuse(id) => Signal(Refuse(s, id))
    case MRestore(id) => Signal(Restore(s, id))
    case MSign(id) => Signal(Restore(CountSignature(s, id), id))
    case MList(id) => Signal(Restore(Note(s, Listed(id)), id))
    case MSelect(b) => s.(selected := b)
    case MResetCounter => s.(signatures := 0)
    case MSignal => Signal(s)
    case MDim => s.(white := false)
    case MCrash => s.(crashed := true)
  }

  /** Groups of elementary transitions, to say which of them a command can take. */
  datatype Group = Keys | Attempts | Signs | Lists | Selects | Counts | Starts | Crashes

  const ALL: set<Group> := {Keys, Attempts, Signs, Lists, Selects, Counts, Starts, Crashes}

  function GroupOf(m: Micro): Group
  {
    match m
    case MLoad(_, _) => Starts
    case MSpoil(_) => Starts
    case MSign(_) => Signs
    case MList(_) => Lists
    case MUnlock(_, _) => Attempts
    case MRefuse(_) => Attempts
    case MSelect(_) => Selects
    case MResetCounter => Counts
    case MCrash => Crashes
    case _ => Keys
  }

  function GroupsOfApdu(c: Capdu): set<Group>
  {
    if c.cla != 0x00 then {}
    else if c.ins == SELECT then {Keys, Selects}
    else if c.ins == GET_DATA then {Counts}
    else if c.ins == VERIFY then {Keys, Attempts}
    else if c.ins == PERFORM_SECURITY_OPERATION then
      if Params(c) == COMPUTE_DIGITAL_SIGNATURE then {Keys, Signs} else {Keys, Crashes}
    else {}
  }

  function GroupsOf(c: Command): set<Group>
  {
    match c
    case Initialize(_) => {Starts}
    case Apdu(capdu, _) => GroupsOfApdu(capdu)
    case ConsoleLock(_) => {Keys}
    case ConsoleUnlock(_, _, _) => {Keys, Attempts, Starts}
    case ListKeys(_) => {Keys, Lists}
  }

  /** `P` survives every elementary transition of the groups `g`. */
  ghost predicate Closed(P: State -> bool, g: set<Group>)
  {
    forall s: State, m: Micro :: Inv(s) && P(s) && Enabled(s, m) && GroupOf(m) in g ==> P(Apply(s, m))
  }

  // ---------------------------------------------------------------------
  // The invariant is kept

  /** The cached key that `Restore` finds for the decryption subkey. */
  function DecHome(s: State): KeyValue
  {
    if s.ring.caches.sig.fingerprint == s.ring.caches.dec.fingerprint then s.ring.caches.sig else s.ring.caches.dec
  }

  /** `Restore` called from `Verify` always finds the subkey's own cache, or one before it. */
  lemma RestoreFinds(s: State, id: nat)
    requires s.initialized && Inv(s) && IsSlot(s, id) && HasKey(s, Some(id))
    ensures FirstMatch(s.ring.caches, KeyAt(s, id).fingerprint).Some?
    ensures s.ring.sig == Some(id) ==> FirstMatch(s.ring.caches, KeyAt(s, id).fingerprint) == Some(s.ring.caches.sig)
    ensures s.ring.dec == Some(id) ==> FirstMatch(s.ring.caches, KeyAt(s, id).fingerprint) == Some(DecHome(s))
  {
  }

  lemma LoadKeepsInv(s: State, armored: Bytes, e: Entity)
    requires !s.initialized && Inv(s)
    ensures Inv(Load(s, armored, e))
  {
    var t := Load(s, armored, e);
    assert SigOk(t) && DecOk(t) && AutOk(t);
  }

  lemma UnlockKeepsInv(s: State, id: nat, m: Material)
    requires s.initialized && Inv(s) && Enabled(s, MUnlock(id, m))
    ensures Inv(Signal(Unlock(s, id, m)))
  {
    var t := Signal(Unlock(s, id, m));
    assert SigOk(t);
    assert DecOk(t);
    assert AutOk(t);
  }

  lemma RestoreKeepsInv(s: State, id: nat)
    requires s.initialized && Inv(s) && Enabled(s, MRestore(id))
    ensures Inv(Signal(Restore(s, id)))
    ensures Restore(s, id).crashed == s.crashed
  {
    RestoreFinds(s, id);
    var t := Signal(Restore(s, id));
    assert SigOk(t);
    assert DecOk(t);
    assert AutOk(t);
  }

  /** Transitions that leave the keys alone. */
  lemma SameRingKeepsInv(s: State, t: State)
    requires Inv(s) && t.ring == s.ring && t.initialized == s.initialized
    requires t.retries <= s.retries && t.signatures <= s.signatures
    requires t.blue == s.blue || t.blue == Lit(t)
    requires t.white ==> s.white
    requires !s.initialized ==> t.log == s.log
    ensures Inv(t)
  {
    assert Lit(t) == Lit(s);
  }

  lemma SignKeepsInv(s: State, id: nat)
    requires s.initialized && Inv(s) && Enabled(s, MSign(id))
    ensures Inv(Apply(s, MSign(id)))
  {
    var u := CountSignature(s, id);
    assert Inv(u);
    RestoreKeepsInv(u, id);
  }

  lemma ListKeepsInv(s: State, id: nat)
    requires s.initialized && Inv(s) && Enabled(s, MList(id))
    ensures Inv(Apply(s, MList(id)))
  {
    var u := Note(s, Listed(id));
    assert Inv(u);
    RestoreKeepsInv(u, id);
  }

  predicate MovesKeys(m: Micro)
  {
    m.MLoad? || m.MUnlock? || m.MRestore? || m.MSign? || m.MList?
  }

  /** Before initialization no transition that needs a key is enabled. */
  lemma KeysNeedInitialization(s: State, m: Micro)
    requires Inv(s) && Enabled(s, m) && (m.MUnlock? || m.MRefuse? || m.MRestore? || m.MSign? || m.MList?)
    ensures s.initialized
  {
  }

  lemma OtherKeepsInv(s: State, m: Micro)
    requires Inv(s) && Enabled(s, m) && !MovesKeys(m)
    ensures Inv(Apply(s, m))
  {
    if m.MRefuse? {
      KeysNeedInitialization(s, m);
    }
    SameRingKeepsInv(s, Apply(s, m));
  }

  lemma MicroStaysInitialized(s: State, m: Micro)
    requires Enabled(s, m) && s.initialized
    ensures Apply(s, m).initialized
  {
  }

  lemma MicroKeepsInv(s: State, m: Micro)
    requires Inv(s) && Enabled(s, m)
    ensures Inv(Apply(s, m))
    ensures s.initialized ==> Apply(s, m).initialized
  {
    if s.initialized {
      MicroStaysInitialized(s, m);
    }
    if !MovesKeys(m) {
      OtherKeepsInv(s, m);
    } else if m.MLoad? {
      LoadKeepsInv(s, m.armored, m.entity);
    } else {
      KeysNeedInitialization(s, m);
      match m
      case MUnlock(id, mat) => UnlockKeepsInv(s, id, mat);
      case MRestore(id) => RestoreKeepsInv(s, id);
      case MSign(id) => SignKeepsInv(s, id);
      case MList(id) => ListKeepsInv(s, id);
    }
  }

  // ---------------------------------------------------------------------
  // Induction principle: a property closed under elementary transitions
  // holds after every command and every run

  lemma MicroKeeps(P: State -> bool, g: set<Group>, s: State, m: Micro)
    requires Closed(P, g) && Inv(s) && P(s) && Enabled(s, m) && GroupOf(m) in g
    ensures Inv(Apply(s, m)) && P(Apply(s, m))
  {
    MicroKeepsInv(s, m);
  }

  lemma VerifyKeeps(P: State -> bool, g: set<Group>, env: Env, s: State, p1: byte, p2: byte, pw: Bytes)
    requires Closed(P, g) && Inv(s) && P(s) && Keys in g && (p1 == PW_VERIFY ==> Attempts in g)
    ensures Inv(Verify(env, s, p1, p2, pw).state) && P(Verify(env, s, p1, p2, pw).state)
  {
    var slot := SlotOf(s, p2);
    MicroKeeps(P, g, s, MSignal);
    if HasKey(s, slot) {
      var id := slot.value;
      var k := KeyAt(s, id);
      if p1 == PW_VERIFY && pw != [] && k.encrypted && s.retries > 0 {
        match env.decrypt(k, pw)
        case Some(m) => MicroKeeps(P, g, s, MUnlock(id, m));
        case None => MicroKeeps(P, g, s, MRefuse(id));
      } else if p1 == PW_LOCK && !k.encrypted {
        MicroKeeps(P, g, s, MRestore(id));
      }
    }
  }

  lemma {:induction false} VerifyEachKeeps(P: State -> bool, g: set<Group>, env: Env, s: State, p1: byte, pws: seq<byte>, pw: Bytes)
    requires Closed(P, g) && Inv(s) && P(s) && Keys in g && (p1 == PW_VERIFY ==> Attempts in g)
    ensures Inv(VerifyEach(env, s, p1, pws, pw)) && P(VerifyEach(env, s, p1, pws, pw))
  {
    if pws != [] {
      var n := |pws| - 1;
      VerifyEachKeeps(P, g, env, s, p1, pws[..n], pw);
      VerifyKeeps(P, g, env, VerifyEach(env, s, p1, pws[..n], pw), p1, pws[n], pw);
    }
  }

  /** Locking an unlocked signature key is one restore. */
  lemma LockSigIsRestore(env: Env, s: State)
    requires Unlocked(s, s.ring.sig)
    ensures Lock(env, s, PW1_CDS) == Signal(Restore(s, s.ring.sig.value))
  {
  }

  lemma SignatureKeeps(P: State -> bool, g: set<Group>, env: Env, s: State, data: Bytes, o: Oracle)
    requires Closed(P, g) && Inv(s) && P(s) && {Keys, Signs} <= g
    ensures Inv(ComputeDigitalSignature(env, s, data, o).state) && P(ComputeDigitalSignature(env, s, data, o).state)
  {
    if data != [] && Unlocked(s, s.ring.sig) {
      match SignWith(KeyAt(s, s.ring.sig.value), data, o)
      case Made(_) =>
        LockSigIsRestore(env, CountSignature(s, s.ring.sig.value));
        MicroKeeps(P, g, s, MSign(s.ring.sig.value));
      case Failed(_) =>
        LockSigIsRestore(env, s);
        MicroKeeps(P, g, s, MRestore(s.ring.sig.value));
    }
  }

  lemma ListKeeps(P: State -> bool, g: set<Group>, env: Env, s: State, ok: bool)
    requires Closed(P, g) && Inv(s) && P(s) && {Keys, Lists} <= g
    ensures Inv(ListObjects(env, s, ok).state) && P(ListObjects(env, s, ok).state)
  {
    if Unlocked(s, s.ring.sig) {
      LockSigIsRestore(env, s);
      LockSigIsRestore(env, Note(s, Listed(s.ring.sig.value)));
      MicroKeeps(P, g, s, MList(s.ring.sig.value));
      MicroKeeps(P, g, s, MRestore(s.ring.sig.value));
    }
  }

  /** PSO:DECIPHER and PSO:ENCIPHER change nothing but, with a panic, everything. */
  lemma CipherKeeps(P: State -> bool, g: set<Group>, s: State, data: Bytes, o: Oracle)
    requires Closed(P, g) && Inv(s) && P(s) && Crashes in g
    ensures Inv(Decipher(s, data, o).state) && P(Decipher(s, data, o).state)
    ensures Inv(Encipher(s, data, o).state) && P(Encipher(s, data, o).state)
  {
    MicroKeeps(P, g, s, MCrash);
    assert Decipher(s, data, o).state == s || Decipher(s, data, o).state == Apply(s, MCrash);
    assert Encipher(s, data, o).state == s || Encipher(s, data, o).state == Apply(s, MCrash);
  }

  lemma SelectKeeps(P: State -> bool, g: set<Group>, env: Env, s: State, file: Bytes)
    requires Closed(P, g) && Inv(s) && P(s) && {Keys, Selects} <= g
    ensures Inv(Select(env, s, file).state) && P(Select(env, s, file).state)
  {
    MicroKeeps(P, g, s, MSelect(true));
    VerifyEachKeeps(P, g, env, s, PW_LOCK, EVERY_PW, []);
    MicroKeeps(P, g, VerifyEach(env, s, PW_LOCK, EVERY_PW, []), MSelect(false));
  }

  lemma GetDataKeeps(P: State -> bool, g: set<Group>, env: Env, s: State, tag: nat, o: Oracle)
    requires Closed(P, g) && Inv(s) && P(s) && Counts in g
    ensures Inv(GetData(env, s, tag, o).state) && P(GetData(env, s, tag, o).state)
  {
    if s.signatures > 0xffffff {
      MicroKeeps(P, g, s, MResetCounter);
    }
    assert GetData(env, s, tag, o).state == s || GetData(env, s, tag, o).state == ReadCounter(s);
  }

  lemma DispatchKeeps(P: State -> bool, g: set<Group>, env: Env, s: State, c: Capdu, o: Oracle)
    requires Closed(P, g) && Inv(s) && P(s) && GroupsOfApdu(c) <= g
    ensures Inv(Dispatch(env, s, c, o).state) && P(Dispatch(env, s, c, o).state)
  {
    if c.cla != 0x00 {
    } else if c.ins == SELECT {
      SelectKeeps(P, g, env, s, c.data);
    } else if c.ins == GET_DATA {
      GetDataKeeps(P, g, env, s, Params(c), o);
    } else if c.ins == VERIFY {
      VerifyKeeps(P, g, env, s, c.p1, c.p2, c.data);
    } else if c.ins == PERFORM_SECURITY_OPERATION {
      if Params(c) == COMPUTE_DIGITAL_SIGNATURE {
        SignatureKeeps(P, g, env, s, c.data, o);
      } else {
        CipherKeeps(P, g, s, c.data, o);
      }
      MicroKeeps(P, g, SecurityOperation(env, s, Params(c), c.data, o).state, MDim);
    }
  }

  lemma InitKeeps(P: State -> bool, g: set<Group>, env: Env, s: State, derived: bool)
    requires Closed(P, g) && Inv(s) && P(s) && Starts in g
    ensures Inv(Init(env, s, derived).state) && P(Init(env, s, derived).state)
  {
    if !s.initialized {
      match Plain(env, s.armored, derived)
      case None => MicroKeeps(P, g, s, MSpoil([]));
      case Some(plain) =>
        match env.parse(plain)
        case None => MicroKeeps(P, g, s, MSpoil(plain));
        case Some(e) => MicroKeeps(P, g, s, MLoad(plain, e));
    }
  }

  lemma ConsoleUnlockKeeps(P: State -> bool, g: set<Group>, env: Env, s: State, t: Target, derived: bool, pw: Option<Bytes>)
    requires Closed(P, g) && Inv(s) && P(s) && {Keys, Attempts, Starts} <= g
    ensures Inv(UnlockFromConsole(env, s, t, derived, pw).state) && P(UnlockFromConsole(env, s, t, derived, pw).state)
  {
    InitKeeps(P, g, env, s, derived);
    var ready := if s.initialized then s else Init(env, s, derived).state;
    if pw.Some? {
      VerifyEachKeeps(P, g, env, ready, PW_VERIFY, Passwords(t), pw.value);
    }
  }

  lemma StepKeeps(P: State -> bool, g: set<Group>, env: Env, s: State, c: Command)
    requires Closed(P, g) && Inv(s) && P(s) && GroupsOf(c) <= g
    ensures Inv(Step(env, s, c)) && P(Step(env, s, c))
  {
    match c
    case Initialize(derived) => InitKeeps(P, g, env, s, derived);
    case Apdu(capdu, o) => DispatchKeeps(P, g, env, s, capdu, o);
    case ConsoleLock(t) => VerifyEachKeeps(P, g, env, s, PW_LOCK, Passwords(t), []);
    case ConsoleUnlock(t, derived, pw) => ConsoleUnlockKeeps(P, g, env, s, t, derived, pw);
    case ListKeys(ok) => ListKeeps(P, g, env, s, ok);
  }

  lemma StaysInitialized(env: Env, s: State, c: Command)
    requires Inv(s) && s.initialized
    ensures Step(env, s, c).initialized
  {
    var P := (t: State) => t.initialized;
    forall t: State, m: Micro | Inv(t) && P(t) && Enabled(t, m)
      ensures P(Apply(t, m))
    {
      MicroKeepsInv(t, m);
    }
    StepKeeps(P, ALL, env, s, c);
  }

  lemma {:induction false} RunKeeps(P: State -> bool, env: Env, s: State, cs: seq<Command>)
    requires Closed(P, ALL) && Inv(s) && P(s)
    ensures Inv(Run(env, s, cs)) && P(Run(env, s, cs))
  {
    if cs != [] {
      var n := |cs| - 1;
      RunKeeps(P, env, s, cs[..n]);
      StepKeeps(P, ALL, env, Run(env, s, cs[..n]), cs[n]);
    }
  }

  /** In every reachable state the invariant holds. */
  lemma ReachableInv(env: Env, armored: Bytes, blue: bool, white: bool, cs: seq<Command>)
    ensures Inv(Run(env, Start(armored, blue, white), cs))
  {
    RunKeeps(s => true, env, Start(armored, blue, white), cs);
  }
}
