/**
 The user-presence handshake: `UserPresence` of internal/u2f/counter.go, the
 `u2f`, `u2f !test` and `p` commands of internal/usb/ssh.go, and which channel
 `Token.Init` of internal/u2f/token.go makes current. Channels are unbuffered
 and named by numbers that are never reused.
 */
module Presence {
  import opened ByteStrings

  type Channel = nat

  /** A request between the call of `UserPresence` and its return; it waits once it has reached its select. */
  datatype Phase = Called | Waiting | Confirmed | Expired | Returned(present: bool)

  datatype Request = Request(channel: Option<Channel>, phase: Phase)

  /**
   `presence` is the token's channel, `counter` the channel of the counter that the keyring uses
   (absent before the first successful initialization), `next` the next channel to be made.
   */
  datatype State = State(
    initialized: bool,
    presence: Option<Channel>,
    counter: Option<Option<Channel>>,
    next: Channel,
    requests: map<nat, Request>)

  const START := State(false, None, None, 0, map[])

  /**
   `Reinit`: `u2f` (with the test) or `u2f !test`, and whether the token's initialization succeeds.
   `Press`: the `p` command, with the request that receives the value, if one does.
   */
  datatype Action =
    | Reinit(test: bool, ok: bool)
    | Ask(request: nat)
    | Await(request: nat)
    | Press(receiver: Option<nat>)
    | Timeout(request: nat)
    | Return(request: nat)

  /** The request is blocked in its select on channel `ch`. */
  predicate WaitsOn(s: State, r: nat, ch: Channel)
  {
    r in s.requests && s.requests[r] == Request(Some(ch), Waiting)
  }

  /** `p` sends only if the token is initialized with a channel on which somebody waits. */
  predicate Receives(s: State, r: nat)
  {
    s.initialized && s.presence.Some? && WaitsOn(s, r, s.presence.value)
  }

  ghost predicate Enabled(s: State, a: Action)
  {
    match a
    case Reinit(_, _) => true
    case Ask(r) => s.counter.Some? && r !in s.requests
    case Await(r) => r in s.requests && s.requests[r].phase == Called
    case Press(None) => forall r :: r in s.requests ==> !Receives(s, r)
    case Press(Some(r)) => Receives(s, r)
    case Timeout(r) => r in s.requests && s.requests[r].phase == Waiting
    case Return(r) => r in s.requests && (s.requests[r].phase == Confirmed || s.requests[r].phase == Expired)
  }

  function Moved(s: State, r: nat, phase: Phase): State
    requires r in s.requests
  {
    s.(requests := s.requests[r := s.requests[r].(phase := phase)])
  }

  function Step(s: State, a: Action): State
  {
    match a
    case Reinit(test, ok) =>
      var made := if test then Some(s.next) else None;
      var t := s.(presence := made, next := if test then s.next + 1 else s.next);
      if ok then t.(counter := Some(made), initialized := true) else t
    case Ask(r) =>
      if s.counter.None? then s
      else
        var ch := s.counter.value;
        s.(requests := s.requests[r := Request(ch, if ch.None? then Returned(true) else Called)])
    case Await(r) => if r in s.requests then Moved(s, r, Waiting) else s
    case Press(None) => s
    case Press(Some(r)) => if r in s.requests then Moved(s, r, Confirmed) else s
    case Timeout(r) => if r in s.requests then Moved(s, r, Expired) else s
    case Return(r) => if r in s.requests then Moved(s, r, Returned(s.requests[r].phase == Confirmed)) else s
  }

  function Run(s: State, actions: seq<Action>): State
  {
    if actions == [] then s else Step(Run(s, actions[..|actions| - 1]), actions[|actions| - 1])
  }

  ghost predicate Possible(s: State, actions: seq<Action>)
  {
    actions == [] ||
    (Possible(s, actions[..|actions| - 1]) &&
     Enabled(Run(s, actions[..|actions| - 1]), actions[|actions| - 1]))
  }

  lemma {:induction false} PossiblePrefix(s: State, actions: seq<Action>, n: nat)
    requires Possible(s, actions) && n <= |actions|
    ensures Possible(s, actions[..n])
    ensures n < |actions| ==> Enabled(Run(s, actions[..n]), actions[n])
  {
    if n < |actions| {
      var m := |actions| - 1;
      if n < m {
        PossiblePrefix(s, actions[..m], n);
        assert actions[..m][..n] == actions[..n];
      }
    } else {
      assert actions[..n] == actions;
    }
  }

  // ---------------------------------------------------------------------
  // Pairing

  /** How often `a` occurs in the history. */
  function Times(actions: seq<Action>, a: Action): nat
  {
    if actions == [] then 0
    else Times(actions[..|actions| - 1], a) + if actions[|actions| - 1] == a then 1 else 0
  }

  /** The request has a channel and was told that the user is present. */
  predicate Granted(s: State, r: nat)
  {
    && r in s.requests && s.requests[r].channel.Some?
    && (s.requests[r].phase == Confirmed || s.requests[r].phase == Returned(true))
  }

  /** The request has reached its select. */
  predicate Awaited(s: State, r: nat)
  {
    r in s.requests && s.requests[r].channel.Some? && s.requests[r].phase != Called
  }

  /** Confirmations, waits and calls of one request, counted along the history. */
  ghost predicate Tally(actions: seq<Action>, s: State, r: nat)
  {
    && Times(actions, Press(Some(r))) == (if Granted(s, r) then 1 else 0)
    && Times(actions, Await(r)) == (if Awaited(s, r) then 1 else 0)
    && Times(actions, Ask(r)) == (if r in s.requests then 1 else 0)
  }

  lemma {:induction false} TallyHolds(actions: seq<Action>, r: nat)
    requires Possible(START, actions)
    ensures Tally(actions, Run(START, actions), r)
  {
    if actions != [] {
      TallyHolds(actions[..|actions| - 1], r);
      WaitersHaveChannels(actions[..|actions| - 1], r);
    }
  }

  lemma {:induction false} Occurs(actions: seq<Action>, a: Action) returns (j: nat)
    requires Times(actions, a) > 0
    ensures j < |actions| && actions[j] == a
  {
    var n := |actions| - 1;
    if actions[n] == a {
      j := n;
    } else {
      j := Occurs(actions[..n], a);
    }
  }

  lemma {:induction false} OccursOnce(actions: seq<Action>, a: Action, i: nat, j: nat)
    requires i < j < |actions| && actions[i] == a && actions[j] == a
    ensures Times(actions, a) >= 2
  {
    var n := |actions| - 1;
    if j < n {
      OccursOnce(actions[..n], a, i, j);
    } else {
      Present(actions[..n], a, i);
    }
  }

  lemma {:induction false} Present(actions: seq<Action>, a: Action, i: nat)
    requires i < |actions| && actions[i] == a
    ensures Times(actions, a) >= 1
  {
    var n := |actions| - 1;
    if i < n {
      Present(actions[..n], a, i);
    }
  }

  /** The request's channel never changes once it is waiting. */
  lemma {:induction false} ChannelIsFixed(s: State, actions: seq<Action>, r: nat)
    requires r in s.requests && Possible(s, actions)
    ensures r in Run(s, actions).requests && Run(s, actions).requests[r].channel == s.requests[r].channel
  {
    if actions != [] {
      ChannelIsFixed(s, actions[..|actions| - 1], r);
    }
  }

  lemma {:induction false} RunAppend(s: State, a: seq<Action>, b: seq<Action>)
    ensures Run(s, a + b) == Run(Run(s, a), b)
    ensures Possible(s, a + b) <==> Possible(s, a) && Possible(Run(s, a), b)
  {
    if b == [] {
      assert a + b == a;
    } else {
      var n := |b| - 1;
      RunAppend(s, a, b[..n]);
      assert (a + b)[..|a + b| - 1] == a + b[..n];
    }
  }

  /** Step `j` is the press that confirmed request `r`, sent on the channel `r` was waiting on. */
  ghost predicate Confirms(actions: seq<Action>, j: nat, r: nat, ch: Channel)
  {
    && j < |actions| && actions[j] == Press(Some(r))
    && WaitsOn(Run(START, actions[..j]), r, ch)
    && Run(START, actions[..j]).presence == Some(ch)
  }

  /** The press that confirmed `r` used the channel that `r` has now. */
  lemma PressUsedChannel(actions: seq<Action>, j: nat, r: nat)
    requires Possible(START, actions) && j < |actions| && actions[j] == Press(Some(r))
    ensures var t := Run(START, actions);
            r in t.requests && t.requests[r].channel.Some? && Confirms(actions, j, r, t.requests[r].channel.value)
  {
    PossiblePrefix(START, actions, j);
    RunAppend(START, actions[..j], actions[j..]);
    assert actions[..j] + actions[j..] == actions;
    ChannelIsFixed(Run(START, actions[..j]), actions[j..], r);
  }

  /**
   Over every interleaving: a request with a channel is granted exactly when some `p` was accepted
   for it, and that `p` is unique, came after the request and before its grant, and was sent on the
   request's own channel while the request was waiting there.
   */
  lemma OneToOneHandOff(actions: seq<Action>, r: nat)
    requires Possible(START, actions)
    ensures var t := Run(START, actions);
            Granted(t, r) <==>
              r in t.requests && t.requests[r].channel.Some?
              && exists j :: Confirms(actions, j, r, t.requests[r].channel.value)
    ensures forall i, j :: 0 <= i < j < |actions| && actions[i] == Press(Some(r)) ==> actions[j] != Press(Some(r))
  {
    var t := Run(START, actions);
    TallyHolds(actions, r);
    if Granted(t, r) {
      var j := Occurs(actions, Press(Some(r)));
      PressUsedChannel(actions, j, r);
    }
    if r in t.requests && t.requests[r].channel.Some?
       && exists j :: Confirms(actions, j, r, t.requests[r].channel.value) {
      var j: nat :| Confirms(actions, j, r, t.requests[r].channel.value);
      Present(actions, Press(Some(r)), j);
    }
    forall i, j | 0 <= i < j < |actions| && actions[i] == Press(Some(r))
      ensures actions[j] != Press(Some(r))
    {
      if actions[j] == Press(Some(r)) {
        OccursOnce(actions, Press(Some(r)), i, j);
      }
    }
  }

  /** Before a press is accepted for a request, `UserPresence` was called and had reached its select. */
  lemma PressFollowsRequest(actions: seq<Action>, j: nat, r: nat) returns (i: nat, k: nat)
    requires Possible(START, actions) && j < |actions| && actions[j] == Press(Some(r))
    ensures i < k < j && actions[i] == Ask(r) && actions[k] == Await(r)
  {
    PossiblePrefix(START, actions, j);
    TallyHolds(actions[..j], r);
    k := Occurs(actions[..j], Await(r));
    PossiblePrefix(START, actions, k);
    TallyHolds(actions[..k], r);
    i := Occurs(actions[..k], Ask(r));
  }

  /** `UserPresence` returns true for a request with a channel exactly when its press was accepted before. */
  lemma ReturnsTrueOnlyWhenPressed(actions: seq<Action>, k: nat, r: nat)
    requires Possible(START, actions) && k < |actions| && actions[k] == Return(r)
    ensures r in Run(START, actions[..k + 1]).requests
    ensures Run(START, actions[..k + 1]).requests[r].phase == Returned(true) <==>
            exists j :: 0 <= j < k && actions[j] == Press(Some(r))
  {
    PossiblePrefix(START, actions, k);
    var before := actions[..k];
    assert actions[..k + 1][..k] == before;
    WaitersHaveChannels(before, r);
    TallyHolds(before, r);
    if Granted(Run(START, before), r) {
      var j := Occurs(before, Press(Some(r)));
      assert actions[j] == Press(Some(r));
    }
    if exists j :: 0 <= j < k && actions[j] == Press(Some(r)) {
      var j :| 0 <= j < k && actions[j] == Press(Some(r));
      Present(before, Press(Some(r)), j);
    }
  }

  lemma {:induction false} WaitersHaveChannels(actions: seq<Action>, r: nat)
    requires Possible(START, actions)
    ensures var s := Run(START, actions);
            r in s.requests && s.requests[r].channel.None? ==> s.requests[r].phase == Returned(true)
  {
    if actions != [] {
      WaitersHaveChannels(actions[..|actions| - 1], r);
    }
  }

  // ---------------------------------------------------------------------
  // Re-initialization

  ghost predicate ChannelsMade(s: State)
  {
    && (s.presence.Some? ==> s.presence.value < s.next)
    && (s.counter.Some? && s.counter.value.Some? ==> s.counter.value.value < s.next)
    && (forall r :: r in s.requests && s.requests[r].channel.Some? ==> s.requests[r].channel.value < s.next)
  }

  lemma {:induction false} ChannelsAreMade(actions: seq<Action>)
    ensures ChannelsMade(Run(START, actions))
  {
    if actions != [] {
      ChannelsAreMade(actions[..|actions| - 1]);
    }
  }

  /** The request waits on a channel that is no longer the token's. */
  predicate Orphaned(s: State, r: nat, ch: Channel)
  {
    && r in s.requests && s.requests[r].channel == Some(ch)
    && s.requests[r].phase != Confirmed && s.requests[r].phase != Returned(true)
    && s.presence != Some(ch) && ch < s.next
  }

  /** A request whose channel has been replaced is never confirmed, whatever follows. */
  lemma {:induction false} OrphansAreNeverConfirmed(s: State, actions: seq<Action>, r: nat, ch: Channel)
    requires Orphaned(s, r, ch) && Possible(s, actions)
    ensures Orphaned(Run(s, actions), r, ch)
  {
    if actions != [] {
      OrphansAreNeverConfirmed(s, actions[..|actions| - 1], r, ch);
    }
  }

  /** The request is still undecided. */
  predicate Undecided(s: State, r: nat)
  {
    r in s.requests && (s.requests[r].phase == Called || s.requests[r].phase == Waiting)
  }

  /** Every re-initialization, with or without the test, failed or not, orphans the requests still undecided. */
  lemma ReinitOrphansWaiters(actions: seq<Action>, ok: bool, test: bool, later: seq<Action>, r: nat)
    requires Possible(START, actions + [Reinit(test, ok)] + later)
    requires Undecided(Run(START, actions), r)
    ensures !Granted(Run(START, actions + [Reinit(test, ok)] + later), r)
  {
    var s := Run(START, actions);
    var mid := actions + [Reinit(test, ok)];
    RunAppend(START, mid, later);
    RunAppend(START, actions, [Reinit(test, ok)]);
    assert [Reinit(test, ok)][..0] == [];
    ChannelsAreMade(actions);
    PossiblePrefix(START, mid + later, |actions|);
    assert (mid + later)[..|actions|] == actions;
    WaitersHaveChannels(actions, r);
    OrphansAreNeverConfirmed(Run(START, mid), later, r, s.requests[r].channel.value);
  }

  lemma {:induction false} RequestsNeedInitialization(actions: seq<Action>)
    requires Possible(START, actions)
    ensures var s := Run(START, actions); (s.counter.Some? || s.requests != map[]) ==> s.initialized
  {
    if actions != [] {
      RequestsNeedInitialization(actions[..|actions| - 1]);
    }
  }

  lemma RunOne(s: State, a: Action)
    ensures Run(s, [a]) == Step(s, a) && (Possible(s, [a]) <==> Enabled(s, a))
  {
    assert [a][..0] == [];
  }

  /** What a call does by itself until it returns, if nobody confirms it. */
  function OwnSteps(r: nat, phase: Phase): seq<Action>
  {
    match phase
    case Called => [Await(r)] + [Timeout(r)] + [Return(r)]
    case Waiting => [Timeout(r)] + [Return(r)]
    case Confirmed => [Return(r)]
    case Expired => [Return(r)]
    case Returned(_) => []
  }

  lemma RunTwo(s: State, a: Action, b: Action)
    ensures Run(s, [a] + [b]) == Step(Step(s, a), b)
    ensures Possible(s, [a] + [b]) <==> Enabled(s, a) && Enabled(Step(s, a), b)
  {
    RunOne(s, a);
    RunOne(Step(s, a), b);
    RunAppend(s, [a], [b]);
  }

  lemma RunThree(s: State, a: Action, b: Action, c: Action)
    ensures Run(s, [a] + [b] + [c]) == Step(Step(Step(s, a), b), c)
    ensures Possible(s, [a] + [b] + [c]) <==>
            Enabled(s, a) && Enabled(Step(s, a), b) && Enabled(Step(Step(s, a), b), c)
  {
    RunTwo(s, a, b);
    RunOne(Step(Step(s, a), b), c);
    RunAppend(s, [a] + [b], [c]);
  }

  /** No call is stuck: its own steps are possible in every state, and end it with the answer it has or, undecided, with false. */
  lemma CallsReturn(s: State, r: nat)
    requires r in s.requests
    ensures var phase := s.requests[r].phase;
            var t := Run(s, OwnSteps(r, phase));
            && Possible(s, OwnSteps(r, phase)) && r in t.requests
            && t.requests[r].phase == if phase.Returned? then phase else Returned(phase == Confirmed)
  {
    match s.requests[r].phase
    case Called => RunThree(s, Await(r), Timeout(r), Return(r));
    case Waiting => RunTwo(s, Timeout(r), Return(r));
    case Confirmed => RunOne(s, Return(r));
    case Expired => RunOne(s, Return(r));
    case Returned(_) =>
  }

  /** What confirms a request whose channel is the token's: it reaches its select, then a press. */
  function Confirmation(s: State, r: nat): seq<Action>
    requires r in s.requests
  {
    if s.requests[r].phase == Called then [Await(r)] + [Press(Some(r))] else [Press(Some(r))]
  }

  lemma PressGrants(s: State, r: nat)
    requires s.initialized && Undecided(s, r) && s.requests[r].channel.Some? && s.requests[r].channel == s.presence
    ensures Possible(s, Confirmation(s, r)) && Granted(Run(s, Confirmation(s, r)), r)
  {
    if s.requests[r].phase == Called {
      var t := Step(s, Await(r));
      RunOne(s, Await(r));
      RunOne(t, Press(Some(r)));
      RunAppend(s, [Await(r)], [Press(Some(r))]);
    } else {
      RunOne(s, Press(Some(r)));
    }
  }

  /** Some way to go on grants the request. */
  ghost predicate Confirmable(s: State, r: nat)
  {
    exists later :: Possible(s, later) && Granted(Run(s, later), r)
  }

  /** Over every history, an undecided request can still be confirmed exactly when its channel is the token's. */
  lemma ConfirmableExactly(actions: seq<Action>, r: nat)
    requires Possible(START, actions) && Undecided(Run(START, actions), r)
    ensures var s := Run(START, actions); Confirmable(s, r) <==> s.requests[r].channel == s.presence
  {
    var s := Run(START, actions);
    WaitersHaveChannels(actions, r);
    RequestsNeedInitialization(actions);
    ChannelsAreMade(actions);
    if s.requests[r].channel == s.presence {
      PressGrants(s, r);
    } else {
      forall later | Possible(s, later)
        ensures !Granted(Run(s, later), r)
      {
        OrphansAreNeverConfirmed(s, later, r, s.requests[r].channel.value);
      }
    }
  }

  /** Whether the most recent `u2f` or `u2f !test` succeeded. */
  function LastReinitOk(actions: seq<Action>): bool
  {
    if actions == [] then false
    else
      var last := actions[|actions| - 1];
      if last.Reinit? then last.ok else LastReinitOk(actions[..|actions| - 1])
  }

  /** The counter that asks for a press asks on the token's channel exactly when that succeeded. */
  lemma {:induction false} CounterFollowsToken(actions: seq<Action>)
    ensures var s := Run(START, actions);
            s.counter.Some? && s.counter.value.Some? ==> (s.counter.value == s.presence <==> LastReinitOk(actions))
  {
    if actions != [] {
      CounterFollowsToken(actions[..|actions| - 1]);
      ChannelsAreMade(actions[..|actions| - 1]);
    }
  }

  /**
   Over every history, a new request that needs a press can be confirmed exactly when the last
   re-initialization succeeded: a failed one has replaced the token's channel and not the counter's.
   */
  lemma NewRequestConfirmableExactly(actions: seq<Action>, r: nat)
    requires Possible(START, actions + [Ask(r)])
    requires Run(START, actions).counter.value.Some?
    ensures Confirmable(Run(START, actions + [Ask(r)]), r) <==> LastReinitOk(actions)
  {
    var s := Run(START, actions);
    RunAppend(START, actions, [Ask(r)]);
    RunOne(s, Ask(r));
    CounterFollowsToken(actions);
    ConfirmableExactly(actions + [Ask(r)], r);
  }

  /** A run that gets there: a failed `u2f` after a successful one, then a request. */
  lemma FailedReinitStrands(r: nat)
    ensures var run := [Reinit(true, true)] + [Reinit(true, false)] + [Ask(r)];
            && Possible(START, run)
            && Run(START, run).requests[r] == Request(Some(0), Called) && Run(START, run).presence == Some(1)
            && !Confirmable(Run(START, run), r)
  {
    var first := [Reinit(true, true)];
    var both := first + [Reinit(true, false)];
    RunOne(START, Reinit(true, true));
    RunAppend(START, first, [Reinit(true, false)]);
    RunOne(Run(START, first), Reinit(true, false));
    RunAppend(START, both, [Ask(r)]);
    RunOne(Run(START, both), Ask(r));
    NewRequestConfirmableExactly(both, r);
  }
}
