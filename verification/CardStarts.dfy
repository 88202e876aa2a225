/** Which runs initialize the card, and how a failed attempt spoils later ones. */
module CardStarts {
  import opened ByteStrings
  import opened LockMachine
  import opened LockSteps
  import opened CardReports
  import Snvs

  /** A blank card is stopped by its first PSO:ENCIPHER. */
  predicate Stopped(cs: seq<Command>)
  {
    exists i :: 0 <= i < |cs| && IsOperation(cs[i], ENCIPHER)
  }

  /** Whether the device key could be derived, for each command that would initialize a card still running. */
  function Tries(cs: seq<Command>): seq<bool>
  {
    if cs == [] then []
    else
      var n := |cs| - 1;
      var before := Tries(cs[..n]);
      if Stopped(cs[..n]) then before
      else match cs[n]
        case Initialize(derived) => before + [derived]
        case ConsoleUnlock(_, derived, _) => before + [derived]
        case _ => before
  }

  /** The stored armored key after attempts that all failed. */
  function ArmoredAfter(env: Env, armored: Bytes, ds: seq<bool>): Bytes
  {
    if ds == [] then armored
    else
      var n := |ds| - 1;
      match Plain(env, ArmoredAfter(env, armored, ds[..n]), ds[n])
      case None => []
      case Some(plain) => plain
  }

  /** The last of these attempts finds a key, if the others failed. */
  predicate SucceedsLast(env: Env, armored: Bytes, ds: seq<bool>)
  {
    ds != [] &&
    var plain := Plain(env, ArmoredAfter(env, armored, ds[..|ds| - 1]), ds[|ds| - 1]);
    plain.Some? && env.parse(plain.value).Some?
  }

  ghost predicate Succeeded(env: Env, armored: Bytes, ds: seq<bool>)
  {
    exists k :: 0 <= k <= |ds| && SucceedsLast(env, armored, ds[..k])
  }

  lemma SucceededSnoc(env: Env, armored: Bytes, ds: seq<bool>, d: bool)
    ensures Succeeded(env, armored, ds + [d]) <==>
            Succeeded(env, armored, ds) || SucceedsLast(env, armored, ds + [d])
  {
    var all := ds + [d];
    assert all[..|all|] == all;
    assert forall k :: 0 <= k <= |ds| ==> all[..k] == ds[..k];
  }

  lemma OthersLeaveBlank(env: Env, s: State, c: Command)
    requires Inv(s) && !s.initialized && !s.crashed && !c.Initialize? && !c.ConsoleUnlock?
    ensures var t := Step(env, s, c);
            !t.initialized && t.armored == s.armored && (t.crashed <==> IsOperation(c, ENCIPHER))
  {
    var P := (t: State) => !t.initialized && t.armored == s.armored;
    var g := ALL - {Starts};
    forall t: State, m: Micro | Inv(t) && P(t) && Enabled(t, m) && GroupOf(m) in g
      ensures P(Apply(t, m))
    {
    }
    StepKeeps(P, g, env, s, c);
    CrashesExactly(env, s, c);
  }

  lemma ConsoleUnlockInitializes(env: Env, s: State, t: Target, derived: bool, pw: Option<Bytes>)
    requires Inv(s) && !s.initialized
    ensures UnlockFromConsole(env, s, t, derived, pw).state.initialized == Init(env, s, derived).state.initialized
    ensures !Init(env, s, derived).state.initialized ==>
              UnlockFromConsole(env, s, t, derived, pw).state == Init(env, s, derived).state
  {
    var ready := Init(env, s, derived).state;
    if ready.initialized && pw.Some? {
      InitKeeps(_ => true, ALL, env, s, derived);
      var P := (u: State) => u.initialized;
      forall u: State, m: Micro | Inv(u) && P(u) && Enabled(u, m)
        ensures P(Apply(u, m))
      {
        MicroKeepsInv(u, m);
      }
      VerifyEachKeeps(P, ALL, env, ready, PW_VERIFY, Passwords(t), pw.value);
    }
  }

  /** What an attempt does to a blank card. */
  lemma TryStep(env: Env, s: State, c: Command, derived: bool)
    requires Inv(s) && !s.initialized && !s.crashed
    requires c == Initialize(derived) || (c.ConsoleUnlock? && c.derived == derived)
    ensures var t, plain := Step(env, s, c), Plain(env, s.armored, derived);
            && (t.initialized <==> plain.Some? && env.parse(plain.value).Some?)
            && (!t.initialized ==> !t.crashed && t.armored == if plain.Some? then plain.value else [])
  {
    if c.ConsoleUnlock? {
      ConsoleUnlockInitializes(env, s, c.target, derived, c.passphrase);
    }
  }

  ghost predicate Tracks(env: Env, armored: Bytes, cs: seq<Command>, t: State)
  {
    && (t.initialized <==> Succeeded(env, armored, Tries(cs)))
    && (!t.initialized ==> t.armored == ArmoredAfter(env, armored, Tries(cs)) && (t.crashed <==> Stopped(cs)))
  }

  lemma StoppedSnoc(cs: seq<Command>)
    requires cs != []
    ensures Stopped(cs) <==> Stopped(cs[..|cs| - 1]) || IsOperation(cs[|cs| - 1], ENCIPHER)
  {
    var n := |cs| - 1;
    assert IsOperation(cs[n], ENCIPHER) ==> Stopped(cs);
    if Stopped(cs[..n]) {
      var i :| 0 <= i < n && IsOperation(cs[..n][i], ENCIPHER);
      assert IsOperation(cs[i], ENCIPHER);
    }
    if Stopped(cs) && !IsOperation(cs[n], ENCIPHER) {
      var i :| 0 <= i < |cs| && IsOperation(cs[i], ENCIPHER);
      assert IsOperation(cs[..n][i], ENCIPHER);
    }
  }

  /** The attempt that the last command makes. */
  function LastTry(cs: seq<Command>): Option<bool>
    requires cs != []
  {
    var n := |cs| - 1;
    if Stopped(cs[..n]) then None
    else match cs[n]
      case Initialize(derived) => Some(derived)
      case ConsoleUnlock(_, derived, _) => Some(derived)
      case _ => None
  }

  lemma TrackStep(env: Env, armored: Bytes, cs: seq<Command>, s: State)
    requires cs != [] && Inv(s) && Tracks(env, armored, cs[..|cs| - 1], s)
    ensures Tracks(env, armored, cs, Step(env, s, cs[|cs| - 1]))
  {
    var n := |cs| - 1;
    var ds := Tries(cs[..n]);
    StoppedSnoc(cs);
    if LastTry(cs).Some? {
      SucceededSnoc(env, armored, ds, LastTry(cs).value);
      assert (ds + [LastTry(cs).value])[..|ds|] == ds;
    }
    if s.initialized {
      StaysInitialized(env, s, cs[n]);
    } else if !s.crashed {
      match cs[n]
      case Initialize(derived) => TryStep(env, s, cs[n], derived);
      case ConsoleUnlock(_, derived, _) => TryStep(env, s, cs[n], derived);
      case _ => OthersLeaveBlank(env, s, cs[n]);
    }
  }

  lemma {:induction false} RunTracks(env: Env, armored: Bytes, blue: bool, white: bool, cs: seq<Command>)
    ensures Tracks(env, armored, cs, Run(env, Start(armored, blue, white), cs))
  {
    if cs != [] {
      var n := |cs| - 1;
      RunTracks(env, armored, blue, white, cs[..n]);
      ReachableInv(env, armored, blue, white, cs[..n]);
      TrackStep(env, armored, cs, Run(env, Start(armored, blue, white), cs[..n]));
    }
  }

  // ---------------------------------------------------------------------
  // In closed form

  /** Nothing does not unwrap. */
  predicate EmptyFails(env: Env)
  {
    env.unwrap([]).None?
  }

  /** The armored key unwrapped `k` times over. */
  function Unwrapped(env: Env, armored: Bytes, k: nat): Option<Bytes>
  {
    if k == 0 then Some(armored)
    else match Unwrapped(env, armored, k - 1)
      case None => None
      case Some(b) => env.unwrap(b)
  }

  predicate AllTrue(ds: seq<bool>)
  {
    forall i :: 0 <= i < |ds| ==> ds[i]
  }

  lemma {:induction false} ArmoredIsUnwrapped(env: Env, armored: Bytes, ds: seq<bool>)
    requires env.snvs && EmptyFails(env)
    ensures ArmoredAfter(env, armored, ds)
            == if AllTrue(ds) && Unwrapped(env, armored, |ds|).Some? then Unwrapped(env, armored, |ds|).value else []
  {
    if ds != [] {
      var n := |ds| - 1;
      ArmoredIsUnwrapped(env, armored, ds[..n]);
      assert AllTrue(ds) <==> AllTrue(ds[..n]) && ds[n];
    }
  }

  lemma SucceedsLastExactly(env: Env, armored: Bytes, ds: seq<bool>)
    requires env.snvs && EmptyFails(env) && ds != []
    ensures SucceedsLast(env, armored, ds) <==>
            && AllTrue(ds)
            && var plain := Unwrapped(env, armored, |ds|); plain.Some? && env.parse(plain.value).Some?
  {
    var n := |ds| - 1;
    ArmoredIsUnwrapped(env, armored, ds[..n]);
    assert AllTrue(ds) <==> AllTrue(ds[..n]) && ds[n];
  }

  /** After `k` derivations without a failure, the text unwrapped `k` times is an OpenPGP key. */
  ghost predicate KeyAfter(env: Env, armored: Bytes, ds: seq<bool>, k: nat)
  {
    && 1 <= k <= |ds| && AllTrue(ds[..k])
    && var plain := Unwrapped(env, armored, k); plain.Some? && env.parse(plain.value).Some?
  }

  lemma {:induction false} PlainArmoredStays(env: Env, armored: Bytes, ds: seq<bool>)
    requires !env.snvs
    ensures ArmoredAfter(env, armored, ds) == armored
  {
    if ds != [] {
      PlainArmoredStays(env, armored, ds[..|ds| - 1]);
    }
  }

  lemma WrappedSucceeds(env: Env, armored: Bytes, ds: seq<bool>)
    requires env.snvs && EmptyFails(env)
    ensures Succeeded(env, armored, ds) <==> exists k: nat :: KeyAfter(env, armored, ds, k)
  {
    forall k | 1 <= k <= |ds|
      ensures SucceedsLast(env, armored, ds[..k]) <==> KeyAfter(env, armored, ds, k)
    {
      SucceedsLastExactly(env, armored, ds[..k]);
    }
  }

  lemma PlainSucceeds(env: Env, armored: Bytes, ds: seq<bool>)
    requires !env.snvs
    ensures Succeeded(env, armored, ds) <==> ds != [] && env.parse(armored).Some?
  {
    forall k | 1 <= k <= |ds|
      ensures SucceedsLast(env, armored, ds[..k]) <==> env.parse(armored).Some?
    {
      PlainArmoredStays(env, armored, ds[..k][..k - 1]);
    }
    assert ds != [] ==> ds[..1] != [];
  }

  /**
   Some attempt finds a key. Without a device key: any attempt, if the armored key parses. With one:
   the k-th, if the first `k` could all derive it and the armored key unwrapped `k` times over parses;
   each failed attempt costs one layer, or everything.
   */
  ghost predicate FindsKey(env: Env, armored: Bytes, ds: seq<bool>)
  {
    if env.snvs then exists k: nat :: KeyAfter(env, armored, ds, k) else ds != [] && env.parse(armored).Some?
  }

  lemma SucceededExactly(env: Env, armored: Bytes, ds: seq<bool>)
    requires EmptyFails(env)
    ensures Succeeded(env, armored, ds) <==> FindsKey(env, armored, ds)
  {
    if env.snvs {
      WrappedSucceeds(env, armored, ds);
    } else {
      PlainSucceeds(env, armored, ds);
    }
  }

  /** A run initializes the card exactly when one of its attempts finds a key. */
  lemma InitializesExactly(env: Env, armored: Bytes, blue: bool, white: bool, cs: seq<Command>)
    requires EmptyFails(env)
    ensures Run(env, Start(armored, blue, white), cs).initialized <==> FindsKey(env, armored, Tries(cs))
  {
    RunTracks(env, armored, blue, white, cs);
    SucceededExactly(env, armored, Tries(cs));
  }

  /** If what is unwrapped once cannot be unwrapped again, the first attempt decides alone. */
  lemma {:induction false} FirstTryDecides(env: Env, armored: Bytes, blue: bool, white: bool, cs: seq<Command>)
    requires EmptyFails(env) && env.snvs
    requires env.unwrap(armored).Some? ==> env.unwrap(env.unwrap(armored).value).None?
    ensures Run(env, Start(armored, blue, white), cs).initialized <==>
            && Tries(cs) != [] && Tries(cs)[0]
            && env.unwrap(armored).Some? && env.parse(env.unwrap(armored).value).Some?
  {
    var ds := Tries(cs);
    InitializesExactly(env, armored, blue, white, cs);
    assert Unwrapped(env, armored, 1) == env.unwrap(armored);
    forall k: nat | KeyAfter(env, armored, ds, k)
      ensures k == 1
    {
      NoSecondLayer(env, armored, k);
    }
    if ds != [] {
      assert AllTrue(ds[..1]) <==> ds[0];
      assert KeyAfter(env, armored, ds, 1) <==>
             ds[0] && env.unwrap(armored).Some? && env.parse(env.unwrap(armored).value).Some?;
    }
  }

  lemma {:induction false} NoSecondLayer(env: Env, armored: Bytes, k: nat)
    requires env.unwrap(armored).Some? ==> env.unwrap(env.unwrap(armored).value).None?
    ensures k >= 2 ==> Unwrapped(env, armored, k).None?
  {
    assert Unwrapped(env, armored, 1) == env.unwrap(armored);
    if k > 2 {
      NoSecondLayer(env, armored, k - 1);
    }
  }

  lemma {:induction false} TriesGrow(a: seq<Command>, b: seq<Command>)
    ensures Tries(a) <= Tries(a + b)
  {
    if b == [] {
      assert a + b == a;
    } else {
      var n := |b| - 1;
      TriesGrow(a, b[..n]);
      assert (a + b)[..|a + b| - 1] == a + b[..n];
    }
  }

  /**
   A card whose armored key unwraps to an OpenPGP key is initialized by exactly the runs whose first
   attempt derives the device key: one transient failure there is final, whatever follows.
   */
  lemma {:induction false} TransientFailureIsFinal(env: Env, armored: Bytes, blue: bool, white: bool, cs: seq<Command>)
    requires EmptyFails(env) && env.snvs
    requires env.unwrap(armored).Some? && env.parse(env.unwrap(armored).value).Some?
    ensures Run(env, Start(armored, blue, white), cs).initialized <==> Tries(cs) != [] && Tries(cs)[0]
  {
    InitializesExactly(env, armored, blue, white, cs);
    FirstLayerDecides(env, armored, Tries(cs));
  }

  /** The shortest runs: a working attempt, and a failed one before anything else. */
  lemma {:induction false} TransientFailureRuns(env: Env, armored: Bytes, blue: bool, white: bool, later: seq<Command>)
    requires EmptyFails(env) && env.snvs
    requires env.unwrap(armored).Some? && env.parse(env.unwrap(armored).value).Some?
    ensures Run(env, Start(armored, blue, white), [Initialize(true)]).initialized
    ensures !Run(env, Start(armored, blue, white), [Initialize(false)] + later).initialized
  {
    OneTry(true);
    OneTry(false);
    TriesGrow([Initialize(false)], later);
    TransientFailureIsFinal(env, armored, blue, white, [Initialize(true)]);
    TransientFailureIsFinal(env, armored, blue, white, [Initialize(false)] + later);
  }

  lemma OneTry(derived: bool)
    ensures Tries([Initialize(derived)]) == [derived]
  {
    assert [Initialize(derived)][..0] == [];
    assert Tries([]) == [];
  }

  // ---------------------------------------------------------------------
  // Keys sealed with the SNVS envelope

  function Spelled(o: Snvs.Octets): (r: Bytes)
    ensures |r| == |o|
  {
    seq(|o|, i requires 0 <= i < |o| => o[i] as int)
  }

  /** Unwrapping is `Decrypt` of the SNVS envelope. */
  ghost predicate UnwrapsEnvelopes(env: Env, c: Snvs.Suite, diversifier: Snvs.Octets)
  {
    forall o: Snvs.Octets ::
      env.unwrap(Spelled(o)) == var r := Snvs.Decrypt(c, o, diversifier); if r.Ok? then Some(Spelled(r.output)) else None
  }

  lemma EmptyEnvelopeFails(env: Env, c: Snvs.Suite, diversifier: Snvs.Octets)
    requires UnwrapsEnvelopes(env, c, diversifier)
    ensures EmptyFails(env)
  {
    assert Spelled([]) == [];
  }

  /** A card that holds a sealed OpenPGP key is initialized by exactly the runs whose first attempt derives the device key. */
  lemma SealedKeyInitializes(env: Env, c: Snvs.Suite, diversifier: Snvs.Octets, iv: Snvs.Octets, text: Snvs.Octets,
                             blue: bool, white: bool, cs: seq<Command>)
    requires env.snvs && Snvs.Sound(c) && UnwrapsEnvelopes(env, c, diversifier)
    requires Snvs.Encrypt(c, text, diversifier, iv).Ok? && env.parse(Spelled(text)).Some?
    ensures var armored := Spelled(Snvs.Encrypt(c, text, diversifier, iv).output);
            Run(env, Start(armored, blue, white), cs).initialized <==> Tries(cs) != [] && Tries(cs)[0]
  {
    var sealed := Snvs.Encrypt(c, text, diversifier, iv).output;
    EmptyEnvelopeFails(env, c, diversifier);
    Snvs.EnvelopeRoundTrip(c, text, diversifier, iv);
    assert env.unwrap(Spelled(sealed)) == Some(Spelled(text));
    TransientFailureIsFinal(env, Spelled(sealed), blue, white, cs);
  }

  lemma FirstLayerDecides(env: Env, armored: Bytes, ds: seq<bool>)
    requires env.snvs && env.unwrap(armored).Some? && env.parse(env.unwrap(armored).value).Some?
    ensures FindsKey(env, armored, ds) <==> ds != [] && ds[0]
  {
    assert Unwrapped(env, armored, 1) == env.unwrap(armored);
    if ds != [] && ds[0] {
      assert KeyAfter(env, armored, ds, 1);
    }
    forall k: nat | KeyAfter(env, armored, ds, k)
      ensures ds[0]
    {
      assert ds[..k][0];
    }
  }
}
