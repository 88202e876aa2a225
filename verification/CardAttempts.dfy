/** Passphrase attempts as the callers of `Verify` see them, and the recorded decryptions and refusals. */
module CardAttempts {
  import opened ByteStrings
  import opened LockMachine
  import opened LockSteps
  import opened CardRuns
  import opened CardReports

  /** The recorded attempts, in order. */
  function Tried(log: seq<Event>): seq<Event>
  {
    if log == [] then []
    else
      var last := log[|log| - 1];
      Tried(log[..|log| - 1]) + if last.Decrypted? || last.Refused? then [last] else []
  }

  lemma TriedSnoc(log: seq<Event>, e: Event)
    ensures Tried(log + [e]) == Tried(log) + if e.Decrypted? || e.Refused? then [e] else []
  {
    assert (log + [e])[..|log + [e]| - 1] == log;
  }

  /** The key of a slot is there and locked, and an attempt is left. */
  predicate Attemptable(s: State, id: Option<nat>)
  {
    HasKey(s, id) && KeyAt(s, id.value).encrypted && s.retries > 0
  }

  /** What a call of `Verify` means, by its arguments, the state before it and its status word. */
  function CallOutcome(env: Env, s: State, p1: byte, p2: byte, pw: Bytes): seq<Event>
  {
    var id := SlotOf(s, p2);
    if p1 != PW_VERIFY || pw == [] || !Attemptable(s, id) then []
    else if IsCompleted(Verify(env, s, p1, p2, pw).reply) then [Decrypted(id.value)]
    else [Refused(id.value)]
  }

  lemma AttemptRecords(env: Env, s: State, id: nat, pw: Bytes)
    requires Attemptable(s, Some(id)) && pw != []
    ensures var out := TryUnlock(env, s, id, pw);
            out.state.log == s.log + [if IsCompleted(out.reply) then Decrypted(id) else Refused(id)]
  {
  }

  lemma NoAttemptRecordsNothing(env: Env, s: State, p1: byte, p2: byte, pw: Bytes)
    requires p1 != PW_VERIFY || pw == [] || !Attemptable(s, SlotOf(s, p2))
    ensures Verify(env, s, p1, p2, pw).state.log == s.log
  {
  }

  /** A call records exactly that. */
  lemma VerifyRecords(env: Env, s: State, p1: byte, p2: byte, pw: Bytes)
    ensures Verify(env, s, p1, p2, pw).state.log == s.log + CallOutcome(env, s, p1, p2, pw)
  {
    var id := SlotOf(s, p2);
    if p1 != PW_VERIFY || pw == [] || !Attemptable(s, id) {
      NoAttemptRecordsNothing(env, s, p1, p2, pw);
      assert s.log + [] == s.log;
    } else {
      AttemptRecords(env, s, id.value, pw);
      assert VerifyCore(env, s, p1, p2, pw) == TryUnlock(env, s, id.value, pw);
    }
  }

  function CallOutcomes(env: Env, s: State, p1: byte, pws: seq<byte>, pw: Bytes): seq<Event>
  {
    if pws == [] then []
    else
      var n := |pws| - 1;
      CallOutcomes(env, s, p1, pws[..n], pw)
      + CallOutcome(env, VerifyEach(env, s, p1, pws[..n], pw), p1, pws[n], pw)
  }

  lemma {:induction false} VerifyEachRecords(env: Env, s: State, p1: byte, pws: seq<byte>, pw: Bytes)
    ensures VerifyEach(env, s, p1, pws, pw).log == s.log + CallOutcomes(env, s, p1, pws, pw)
  {
    if pws != [] {
      var n := |pws| - 1;
      VerifyEachRecords(env, s, p1, pws[..n], pw);
      VerifyRecords(env, VerifyEach(env, s, p1, pws[..n], pw), p1, pws[n], pw);
    }
  }

  predicate IsVerify(c: Command)
  {
    c.Apdu? && c.capdu.cla == 0x00 && c.capdu.ins == VERIFY
  }

  /** The attempts that a command makes through its calls of `Verify`. */
  function Outcomes(env: Env, s: State, c: Command): seq<Event>
  {
    if s.crashed then []
    else if IsVerify(c) then CallOutcome(env, s, c.capdu.p1, c.capdu.p2, c.capdu.data)
    else if c.ConsoleUnlock? && c.passphrase.Some? then
      var ready := if s.initialized then s else Init(env, s, c.derived).state;
      if ready.initialized then CallOutcomes(env, ready, PW_VERIFY, Passwords(c.target), c.passphrase.value) else []
    else []
  }

  /** The attempts of a run. */
  function AttemptsMade(env: Env, s: State, cs: seq<Command>): seq<Event>
  {
    if cs == [] then []
    else
      var n := |cs| - 1;
      AttemptsMade(env, s, cs[..n]) + Outcomes(env, Run(env, s, cs[..n]), cs[n])
  }

  lemma MicroSameTried(s: State, t: State, m: Micro)
    requires Tried(t.log) == Tried(s.log) && Enabled(t, m) && GroupOf(m) != Attempts
    ensures Tried(Apply(t, m).log) == Tried(s.log)
  {
    MicroAppends(t, m);
    if EventOf(m).Some? {
      TriedSnoc(t.log, EventOf(m).value);
    }
  }

  lemma OtherStepsRecordNoAttempt(env: Env, s: State, c: Command)
    requires Inv(s) && Attempts !in GroupsOf(c)
    ensures Tried(Step(env, s, c).log) == Tried(s.log)
  {
    var P := (t: State) => Tried(t.log) == Tried(s.log);
    var g := ALL - {Attempts};
    forall t: State, m: Micro | Inv(t) && P(t) && Enabled(t, m) && GroupOf(m) in g
      ensures P(Apply(t, m))
    {
      MicroSameTried(s, t, m);
    }
    StepKeeps(P, g, env, s, c);
  }

  predicate OnlyAttempts(es: seq<Event>)
  {
    forall i :: 0 <= i < |es| ==> es[i].Decrypted? || es[i].Refused?
  }

  lemma Regroup(before: seq<Event>, made: seq<Event>, more: seq<Event>, all: seq<Event>)
    requires all == made + more
    ensures before + made + more == before + all
  {
  }

  lemma {:induction false} TriedAppend(log: seq<Event>, es: seq<Event>)
    requires OnlyAttempts(es)
    ensures Tried(log + es) == Tried(log) + es
  {
    if es == [] {
      assert log + es == log;
    } else {
      var n := |es| - 1;
      TriedAppend(log, es[..n]);
      TriedSnoc(log + es[..n], es[n]);
      Regroup(log, es[..n], [es[n]], es);
      Regroup(Tried(log), es[..n], [es[n]], es);
    }
  }

  lemma {:induction false} CallOutcomesAreAttempts(env: Env, s: State, p1: byte, pws: seq<byte>, pw: Bytes)
    ensures OnlyAttempts(CallOutcomes(env, s, p1, pws, pw))
  {
    if pws != [] {
      CallOutcomesAreAttempts(env, s, p1, pws[..|pws| - 1], pw);
    }
  }

  /** Initialization records nothing. */
  lemma InitRecordsNothing(env: Env, s: State, derived: bool)
    ensures Init(env, s, derived).state.log == s.log
  {
  }

  lemma ConsoleUnlockRecords(env: Env, s: State, c: Command)
    requires c.ConsoleUnlock? && !s.crashed
    ensures Step(env, s, c).log == s.log + Outcomes(env, s, c)
    ensures OnlyAttempts(Outcomes(env, s, c))
  {
    InitRecordsNothing(env, s, c.derived);
    var ready := if s.initialized then s else Init(env, s, c.derived).state;
    if c.passphrase.Some? {
      VerifyEachRecords(env, ready, PW_VERIFY, Passwords(c.target), c.passphrase.value);
      CallOutcomesAreAttempts(env, ready, PW_VERIFY, Passwords(c.target), c.passphrase.value);
    }
  }

  lemma StepRecordsAttempts(env: Env, s: State, c: Command)
    requires Inv(s)
    ensures Tried(Step(env, s, c).log) == Tried(s.log) + Outcomes(env, s, c)
  {
    if s.crashed {
    } else if IsVerify(c) {
      VerifyRecords(env, s, c.capdu.p1, c.capdu.p2, c.capdu.data);
      TriedAppend(s.log, Outcomes(env, s, c));
    } else if c.ConsoleUnlock? {
      ConsoleUnlockRecords(env, s, c);
      TriedAppend(s.log, Outcomes(env, s, c));
    } else {
      OtherStepsRecordNoAttempt(env, s, c);
    }
  }

  lemma MadeSnoc(env: Env, s: State, cs: seq<Command>)
    requires cs != []
    ensures AttemptsMade(env, s, cs)
            == AttemptsMade(env, s, cs[..|cs| - 1]) + Outcomes(env, Run(env, s, cs[..|cs| - 1]), cs[|cs| - 1])
  {
  }

  lemma LastStepRecords(env: Env, s: State, cs: seq<Command>, made: seq<Event>)
    requires cs != []
    requires var t := Run(env, s, cs[..|cs| - 1]);
             Inv(t) && Tried(t.log) == Tried(s.log) + made
    ensures Tried(Run(env, s, cs).log) == Tried(s.log) + made + Outcomes(env, Run(env, s, cs[..|cs| - 1]), cs[|cs| - 1])
  {
    StepRecordsAttempts(env, Run(env, s, cs[..|cs| - 1]), cs[|cs| - 1]);
  }

  /** Over every run the recorded decryptions and refusals are, in order, the outcomes of the calls of `Verify`. */
  lemma {:induction false} AttemptsAreRecorded(env: Env, s: State, cs: seq<Command>)
    requires Inv(s)
    ensures Tried(Run(env, s, cs).log) == Tried(s.log) + AttemptsMade(env, s, cs)
  {
    if cs != [] {
      var n := |cs| - 1;
      AttemptsAreRecorded(env, s, cs[..n]);
      RunKeeps(_ => true, env, s, cs[..n]);
      var made := AttemptsMade(env, s, cs[..n]);
      LastStepRecords(env, s, cs, made);
      MadeSnoc(env, s, cs);
      Regroup(Tried(s.log), made, Outcomes(env, Run(env, s, cs[..n]), cs[n]), AttemptsMade(env, s, cs));
    }
  }

  predicate AboutAttempts(w: What)
  {
    w.DecryptionOf? || w.AnyDecryption? || w.AnyRefusal?
  }

  lemma {:induction false} CountTried(log: seq<Event>, w: What)
    requires AboutAttempts(w)
    ensures Count(Tried(log), w) == Count(log, w)
  {
    if log != [] {
      var n := |log| - 1;
      CountTried(log[..n], w);
      if log[n].Decrypted? || log[n].Refused? {
        CountSnoc(Tried(log[..n]), log[n], w);
        assert Tried(log) == Tried(log[..n]) + [log[n]];
      } else {
        assert Tried(log) == Tried(log[..n]);
      }
    }
  }

  lemma AttemptsCount(env: Env, armored: Bytes, blue: bool, white: bool, cs: seq<Command>, w: What)
    requires AboutAttempts(w)
    ensures var s := Start(armored, blue, white);
            Count(Run(env, s, cs).log, w) == Count(AttemptsMade(env, s, cs), w)
  {
    var s := Start(armored, blue, white);
    AttemptsAreRecorded(env, s, cs);
    assert Tried(s.log) + AttemptsMade(env, s, cs) == AttemptsMade(env, s, cs);
    CountTried(Run(env, s, cs).log, w);
  }

  /** The status word of a failing VERIFY; blocked or refused, it carries the remaining attempts. */
  lemma FailureCarriesRetries(env: Env, s: State, p1: byte, p2: byte, pw: Bytes)
    ensures var out := Verify(env, s, p1, p2, pw);
            out.reply.Status? && out.reply.sw1 == 0x63 ==> out.reply.sw2 == out.state.retries && HasKey(s, SlotOf(s, p2))
  {
  }

  /** In every run a VERIFY that fails shows three minus the refusals since the last success, its own included. */
  lemma FailureShowsRetries(env: Env, armored: Bytes, blue: bool, white: bool, cs: seq<Command>, c: Command)
    requires IsVerify(c)
    ensures var out := Exec(env, Run(env, Start(armored, blue, white), cs), c);
            out.reply.Status? && out.reply.sw1 == 0x63 ==> out.reply.sw2 == 3 - Streak(out.state.log)
  {
    var t := Run(env, Start(armored, blue, white), cs);
    assert (cs + [c])[..|cs + [c]| - 1] == cs;
    RetriesAreExact(env, armored, blue, white, cs + [c]);
    ReachableInv(env, armored, blue, white, cs);
    if !t.crashed {
      FailureCarriesRetries(env, t, c.capdu.p1, c.capdu.p2, c.capdu.data);
      if t.initialized {
        StaysInitialized(env, t, c);
      }
    }
  }

  /**
   The bounds in terms of calls of `Verify` and their status words: from power-on, refused attempts
   are at most three plus two per successful one, and successful signatures and listings with a
   protected signature key are at most the successful attempts on that key. Whether a call was an
   attempt depends on the lock and the remaining retries before it, which `VerifyStatusIsLockStatus`
   and `FailureShowsRetries` let a caller read.
   */
  lemma CallersSeeBounds(env: Env, armored: Bytes, blue: bool, white: bool, cs: seq<Command>)
    ensures var s := Start(armored, blue, white);
            var made, t := AttemptsMade(env, s, cs), Run(env, s, cs);
            && (t.initialized ==> Count(made, AnyRefusal) + t.retries <= 3 + 2 * Count(made, AnyDecryption))
            && (ProtectedSig(t) ==> UsesMade(env, s, cs) <= Count(made, DecryptionOf(t.ring.sig.value)))
  {
    RetryBound(env, armored, blue, white, cs);
    RepliesPerUnlock(env, armored, blue, white, cs);
    var t := Run(env, Start(armored, blue, white), cs);
    AttemptsCount(env, armored, blue, white, cs, AnyRefusal);
    AttemptsCount(env, armored, blue, white, cs, AnyDecryption);
    if t.ring.sig.Some? {
      AttemptsCount(env, armored, blue, white, cs, DecryptionOf(t.ring.sig.value));
    }
  }
}
