/** What holds of every run of the card. */
module CardRuns {
  import opened ByteStrings
  import opened LockMachine
  import opened LockSteps

  // ---------------------------------------------------------------------
  // Counting events

  datatype What = DecryptionOf(id: nat) | AnyDecryption | AnyRefusal | AnySignature | AnyUse

  predicate Is(e: Event, w: What)
  {
    match w
    case DecryptionOf(id) => e == Decrypted(id)
    case AnyDecryption => e.Decrypted?
    case AnyRefusal => e.Refused?
    case AnySignature => e.Signed?
    case AnyUse => e.Signed? || e.Listed?
  }

  function Count(log: seq<Event>, w: What): nat
  {
    if log == [] then 0
    else Count(log[..|log| - 1], w) + if Is(log[|log| - 1], w) then 1 else 0
  }

  lemma CountSnoc(log: seq<Event>, e: Event, w: What)
    ensures Count(log + [e], w) == Count(log, w) + if Is(e, w) then 1 else 0
  {
    assert (log + [e])[..|log + [e]| - 1] == log;
  }

  /** The event that an elementary transition records. */
  function EventOf(m: Micro): Option<Event>
  {
    match m
    case MUnlock(id, _) => Some(Decrypted(id))
    case MRefuse(id) => Some(Refused(id))
    case MSign(id) => Some(Signed(id))
    case MList(id) => Some(Listed(id))
    case _ => None
  }

  /** An elementary transition appends its event to the log. */
  lemma MicroAppends(s: State, m: Micro)
    requires Enabled(s, m)
    ensures EventOf(m).None? ==> Apply(s, m).log == s.log
    ensures EventOf(m).Some? ==> Apply(s, m).log == s.log + [EventOf(m).value]
  {
  }

  /** And changes every count by that event. */
  lemma MicroCounts(s: State, m: Micro, w: What)
    requires Enabled(s, m)
    ensures Count(Apply(s, m).log, w)
            == Count(s.log, w) + if EventOf(m).Some? && Is(EventOf(m).value, w) then 1 else 0
  {
    MicroAppends(s, m);
    if EventOf(m).Some? {
      CountSnoc(s.log, EventOf(m).value, w);
    }
  }

  // ---------------------------------------------------------------------
  // What initialization fixes

  ghost predicate SameKeys(s: State, t: State)
  {
    && t.initialized
    && t.ring.caches == s.ring.caches
    && t.ring.sig == s.ring.sig && t.ring.dec == s.ring.dec && t.ring.aut == s.ring.aut
    && t.ring.publics == s.ring.publics
    && t.armored == s.armored
    && |t.ring.live| == |s.ring.live|
    && (forall i :: 0 <= i < |s.ring.live| ==>
          && (t.ring.live[i].Some? <==> s.ring.live[i].Some?)
          && (t.ring.live[i].Some? ==> t.ring.live[i].value.fingerprint == s.ring.live[i].value.fingerprint)
          && (!IsSlot(s, i) ==> t.ring.live[i] == s.ring.live[i]))
  }

  lemma MicroSameKeys(s: State, t: State, m: Micro)
    requires s.initialized && SameKeys(s, t) && Inv(t) && Enabled(t, m)
    ensures SameKeys(s, Apply(t, m))
  {
    match m
    case MRestore(id) => RestoreFinds(t, id);
    case MSign(id) => RestoreFinds(t, id);
    case MList(id) => RestoreFinds(t, id);
    case _ =>
  }

  /** After initialization caches, slots, public keys and fingerprints never change, nor any key outside the slots. */
  lemma KeysAreFixed(env: Env, s: State, cs: seq<Command>)
    requires Inv(s) && s.initialized
    ensures SameKeys(s, Run(env, s, cs))
  {
    var P := (t: State) => SameKeys(s, t);
    forall t: State, m: Micro | Inv(t) && P(t) && Enabled(t, m)
      ensures P(Apply(t, m))
    {
      MicroSameKeys(s, t, m);
    }
    RunKeeps(P, env, s, cs);
  }

  /** Each live slot key is the cached key or that key decrypted, in every reachable state. */
  lemma LiveKeysAreCachedForms(env: Env, armored: Bytes, blue: bool, white: bool, cs: seq<Command>)
    ensures var t := Run(env, Start(armored, blue, white), cs);
            && (HasKey(t, t.ring.sig) ==> FormOf(KeyAt(t, t.ring.sig.value), t.ring.caches.sig))
            && (HasKey(t, t.ring.dec) ==>
                  || FormOf(KeyAt(t, t.ring.dec.value), t.ring.caches.dec)
                  || FormOf(KeyAt(t, t.ring.dec.value), DecHome(t)))
  {
    ReachableInv(env, armored, blue, white, cs);
  }

  // ---------------------------------------------------------------------
  // One use per unlock

  /** Since the last decryption of `id` there was no use. */
  ghost predicate Fresh(log: seq<Event>, id: nat)
  {
    exists i :: 0 <= i < |log| && log[i] == Decrypted(id) && forall k :: i < k < |log| ==> !Is(log[k], AnyUse)
  }

  ghost predicate EachUseFresh(log: seq<Event>, id: nat)
  {
    forall j :: 0 <= j < |log| && Is(log[j], AnyUse) ==> Fresh(log[..j], id)
  }

  lemma FreshSnoc(log: seq<Event>, e: Event, id: nat)
    requires Fresh(log, id) && !Is(e, AnyUse)
    ensures Fresh(log + [e], id)
  {
    var i :| 0 <= i < |log| && log[i] == Decrypted(id) && forall k :: i < k < |log| ==> !Is(log[k], AnyUse);
    assert (log + [e])[i] == Decrypted(id);
  }

  lemma EachUseFreshSnoc(log: seq<Event>, e: Event, id: nat)
    requires EachUseFresh(log, id)
    requires Is(e, AnyUse) ==> Fresh(log, id)
    ensures EachUseFresh(log + [e], id)
  {
    var l := log + [e];
    forall j | 0 <= j < |l| && Is(l[j], AnyUse)
      ensures Fresh(l[..j], id)
    {
      assert l[..j] == log[..j];
      assert j == |log| ==> log[..j] == log;
    }
  }

  predicate ProtectedSig(s: State)
  {
    s.initialized && s.ring.sig.Some? && s.ring.caches.sig.encrypted
  }

  ghost predicate OrderedUse(s: State)
  {
    ProtectedSig(s) ==>
      EachUseFresh(s.log, s.ring.sig.value) && (Unlocked(s, s.ring.sig) ==> Fresh(s.log, s.ring.sig.value))
  }

  ghost predicate CountedUse(s: State)
  {
    ProtectedSig(s) ==>
      Count(s.log, AnyUse) + (if Unlocked(s, s.ring.sig) then 1 else 0) <= Count(s.log, DecryptionOf(s.ring.sig.value))
  }

  lemma OneUseLog(s: State, m: Micro, id: nat)
    requires Enabled(s, m) && s.ring.sig == Some(id)
    requires EachUseFresh(s.log, id) && (Unlocked(s, Some(id)) ==> Fresh(s.log, id))
    ensures EachUseFresh(Apply(s, m).log, id)
    ensures Unlocked(s, Some(id)) && !m.MSign? && !m.MList? ==> Fresh(Apply(s, m).log, id)
    ensures m.MUnlock? && m.id == id ==> Fresh(Apply(s, m).log, id)
  {
    MicroAppends(s, m);
    if EventOf(m).Some? {
      var e := EventOf(m).value;
      EachUseFreshSnoc(s.log, e, id);
      if m.MUnlock? && m.id == id {
        assert Apply(s, m).log[|s.log|] == Decrypted(id);
      } else if Unlocked(s, Some(id)) && !m.MSign? && !m.MList? {
        FreshSnoc(s.log, e, id);
      }
    }
  }

  /** How an elementary transition moves the lock of a protected signature key. */
  lemma SigLockMoves(s: State, m: Micro)
    requires Inv(s) && Enabled(s, m) && ProtectedSig(s)
    ensures Apply(s, m).ring.sig == s.ring.sig && Apply(s, m).ring.caches == s.ring.caches && Apply(s, m).initialized
    ensures m.MSign? || m.MList? ==> !Unlocked(Apply(s, m), s.ring.sig)
    ensures Unlocked(Apply(s, m), s.ring.sig) ==> Unlocked(s, s.ring.sig) || (m.MUnlock? && m.id == s.ring.sig.value)
    ensures m.MUnlock? && m.id == s.ring.sig.value ==> !Unlocked(s, s.ring.sig)
  {
    match m
    case MRestore(id) => RestoreFinds(s, id);
    case MSign(id) => RestoreFinds(s, id);
    case MList(id) => RestoreFinds(s, id);
    case _ =>
  }

  /** Before the first initialization there is nothing to use. */
  lemma NewlyProtected(s: State, m: Micro)
    requires Inv(s) && Enabled(s, m) && !s.initialized && ProtectedSig(Apply(s, m))
    ensures Apply(s, m).log == [] && !Unlocked(Apply(s, m), Apply(s, m).ring.sig)
  {
    MicroKeepsInv(s, m);
  }

  lemma MicroOrderedUse(s: State, m: Micro)
    requires Inv(s) && OrderedUse(s) && Enabled(s, m)
    ensures OrderedUse(Apply(s, m))
  {
    if ProtectedSig(s) {
      OneUseLog(s, m, s.ring.sig.value);
      SigLockMoves(s, m);
    } else if !s.initialized && ProtectedSig(Apply(s, m)) {
      NewlyProtected(s, m);
    }
  }

  lemma MicroCountedUse(s: State, m: Micro)
    requires Inv(s) && CountedUse(s) && Enabled(s, m)
    ensures CountedUse(Apply(s, m))
  {
    if ProtectedSig(s) {
      MicroCounts(s, m, AnyUse);
      MicroCounts(s, m, DecryptionOf(s.ring.sig.value));
      SigLockMoves(s, m);
    } else if !s.initialized && ProtectedSig(Apply(s, m)) {
      NewlyProtected(s, m);
    }
  }

  /**
   For a passphrase-protected signature subkey: between any two uses, and before the first,
   lies a decryption of that subkey, so uses never outnumber decryptions.
   */
  lemma OneUsePerUnlock(env: Env, armored: Bytes, blue: bool, white: bool, cs: seq<Command>)
    ensures var t := Run(env, Start(armored, blue, white), cs);
            ProtectedSig(t) ==>
              && EachUseFresh(t.log, t.ring.sig.value)
              && Count(t.log, AnyUse) <= Count(t.log, DecryptionOf(t.ring.sig.value))
  {
    UsesAreOrdered(env, armored, blue, white, cs);
    UsesAreCounted(env, armored, blue, white, cs);
  }

  lemma UsesAreOrdered(env: Env, armored: Bytes, blue: bool, white: bool, cs: seq<Command>)
    ensures OrderedUse(Run(env, Start(armored, blue, white), cs))
  {
    var P := (s: State) => OrderedUse(s);
    forall s: State, m: Micro | Inv(s) && P(s) && Enabled(s, m)
      ensures P(Apply(s, m))
    {
      MicroOrderedUse(s, m);
    }
    RunKeeps(P, env, Start(armored, blue, white), cs);
  }

  lemma UsesAreCounted(env: Env, armored: Bytes, blue: bool, white: bool, cs: seq<Command>)
    ensures CountedUse(Run(env, Start(armored, blue, white), cs))
  {
    var P := (s: State) => CountedUse(s);
    forall s: State, m: Micro | Inv(s) && P(s) && Enabled(s, m)
      ensures P(Apply(s, m))
    {
      MicroCountedUse(s, m);
    }
    RunKeeps(P, env, Start(armored, blue, white), cs);
  }

  // ---------------------------------------------------------------------
  // Retry counter

  /** The refusals since the last successful decryption. */
  function Streak(log: seq<Event>): nat
  {
    if log == [] then 0
    else
      var last := log[|log| - 1];
      if last.Decrypted? then 0
      else Streak(log[..|log| - 1]) + if last.Refused? then 1 else 0
  }

  lemma StreakSnoc(log: seq<Event>, e: Event)
    ensures Streak(log + [e]) == if e.Decrypted? then 0 else Streak(log) + if e.Refused? then 1 else 0
  {
    assert (log + [e])[..|log + [e]| - 1] == log;
  }

  ghost predicate ExactRetries(s: State)
  {
    s.initialized ==> s.retries + Streak(s.log) == DEFAULT_PW1_ERROR_COUNTER
  }

  lemma MicroExactRetries(s: State, m: Micro)
    requires Inv(s) && ExactRetries(s) && Enabled(s, m)
    ensures ExactRetries(Apply(s, m))
  {
    MicroAppends(s, m);
    if EventOf(m).Some? {
      StreakSnoc(s.log, EventOf(m).value);
    }
  }

  /** The retry counter is three minus the refusals since the last success, over both subkeys and both front ends. */
  lemma RetriesAreExact(env: Env, armored: Bytes, blue: bool, white: bool, cs: seq<Command>)
    ensures var t := Run(env, Start(armored, blue, white), cs);
            t.initialized ==> t.retries == 3 - Streak(t.log)
  {
    var P := (s: State) => ExactRetries(s);
    forall s: State, m: Micro | Inv(s) && P(s) && Enabled(s, m)
      ensures P(Apply(s, m))
    {
      MicroExactRetries(s, m);
    }
    RunKeeps(P, env, Start(armored, blue, white), cs);
  }

  ghost predicate Budget(s: State)
  {
    s.initialized ==> Count(s.log, AnyRefusal) + s.retries <= 3 + 2 * Count(s.log, AnyDecryption)
  }

  lemma MicroBudget(s: State, m: Micro)
    requires Inv(s) && Budget(s) && Enabled(s, m)
    ensures Budget(Apply(s, m))
  {
    MicroCounts(s, m, AnyRefusal);
    MicroCounts(s, m, AnyDecryption);
  }

  /** Refusals and remaining retries together never exceed three plus two per successful decryption. */
  lemma RetryBound(env: Env, armored: Bytes, blue: bool, white: bool, cs: seq<Command>)
    ensures var t := Run(env, Start(armored, blue, white), cs);
            && t.retries <= 3
            && Budget(t)
  {
    var P := (s: State) => Budget(s);
    forall s: State, m: Micro | Inv(s) && P(s) && Enabled(s, m)
      ensures P(Apply(s, m))
    {
      MicroBudget(s, m);
    }
    RunKeeps(P, env, Start(armored, blue, white), cs);
  }

  ghost predicate Stretch(s: State, t: State)
  {
    && (s.initialized ==> t.initialized)
    && Count(t.log, AnyDecryption) >= Count(s.log, AnyDecryption)
    && (Count(t.log, AnyDecryption) == Count(s.log, AnyDecryption) ==>
          Count(t.log, AnyRefusal) + t.retries
          == Count(s.log, AnyRefusal) + if t.initialized && !s.initialized then 3 else s.retries)
  }

  lemma MicroStretch(s: State, t: State, m: Micro)
    requires Inv(t) && Stretch(s, t) && Enabled(t, m)
    ensures Stretch(s, Apply(t, m))
  {
    MicroCounts(t, m, AnyRefusal);
    MicroCounts(t, m, AnyDecryption);
    MicroKeepsInv(t, m);
  }

  /** A stretch of commands without a successful decryption refuses at most three times. */
  lemma AtMostThreeRefusals(env: Env, s: State, cs: seq<Command>)
    requires Inv(s)
    requires Count(Run(env, s, cs).log, AnyDecryption) == Count(s.log, AnyDecryption)
    ensures Count(Run(env, s, cs).log, AnyRefusal) <= Count(s.log, AnyRefusal) + 3
  {
    var P := (t: State) => Stretch(s, t);
    forall t: State, m: Micro | Inv(t) && P(t) && Enabled(t, m)
      ensures P(Apply(t, m))
    {
      MicroStretch(s, t, m);
    }
    RunKeeps(P, env, s, cs);
  }

  /** The subkeys whose private key is unencrypted. */
  function OpenKeys(s: State): set<nat>
  {
    set i: nat | i < |s.ring.live| && Unlocked(s, Some(i))
  }

  ghost predicate StillBlocked(s: State, t: State)
  {
    && t.initialized && t.retries == 0
    && Count(t.log, AnyDecryption) == Count(s.log, AnyDecryption)
    && Count(t.log, AnyRefusal) == Count(s.log, AnyRefusal)
    && OpenKeys(t) <= OpenKeys(s)
  }

  lemma MicroStillBlocked(s: State, t: State, m: Micro)
    requires StillBlocked(s, t) && Inv(t) && Enabled(t, m)
    ensures StillBlocked(s, Apply(t, m))
  {
    MicroCounts(t, m, AnyRefusal);
    MicroCounts(t, m, AnyDecryption);
    var u := Apply(t, m);
    forall i: nat | i in OpenKeys(u)
      ensures i in OpenKeys(t)
    {
    }
  }

  /** With the counter at zero no command ever decrypts, or tries to, or opens a key again. */
  lemma BlockingIsPermanent(env: Env, s: State, cs: seq<Command>)
    requires Inv(s) && s.initialized && s.retries == 0
    ensures StillBlocked(s, Run(env, s, cs))
  {
    var P := (t: State) => StillBlocked(s, t);
    forall t: State, m: Micro | Inv(t) && P(t) && Enabled(t, m)
      ensures P(Apply(t, m))
    {
      MicroStillBlocked(s, t, m);
    }
    RunKeeps(P, env, s, cs);
  }
}
