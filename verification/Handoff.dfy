/**
 The two USB endpoint functions of internal/usb/smartcard.go and the unbuffered
 channel between them: the OUT side blocks until an IN poll takes its response.
 The console reaches the same card beside them, at any time.
 */
module Handoff {
  import opened ByteStrings
  import opened Ccid

  /** The reader with its card, what a console operation does to the card, and whether a panic has stopped everything. */
  datatype System<!S, !L> = System(reader: Card<S>, local: (S, L) -> S, halted: S -> bool)

  /** What moves the card: a frame, or a console operation. */
  datatype Input<L> = Frame(buf: Bytes) | Direct(op: L)

  /** The card, the response the OUT side is blocked on, the inputs so far and the frames delivered so far. */
  datatype State<S, L> = State(card: S, waiting: Option<Bytes>, inputs: seq<Input<L>>, delivered: seq<Bytes>)

  /** Receiving a command on OUT, a poll of IN, or an operation of the console. */
  datatype Action<L> = Receive(buf: Bytes) | Poll | Local(op: L)

  /** Nothing runs after a panic, and the OUT function not before it has handed over its response. */
  predicate Enabled<S, L>(sys: System<S, L>, s: State<S, L>, a: Action<L>)
  {
    !sys.halted(s.card) && (a.Receive? ==> s.waiting.None?)
  }

  function Step<S, L>(sys: System<S, L>, s: State<S, L>, a: Action<L>): State<S, L>
  {
    match a
    case Receive(buf) =>
      var out := Rx(sys.reader, s.card, buf);
      s.(card := out.state, waiting := out.reply, inputs := s.inputs + [Frame(buf)])
    case Poll =>
      (match s.waiting
       case None => s
       case Some(res) => s.(waiting := None, delivered := s.delivered + [res]))
    case Local(op) =>
      s.(card := sys.local(s.card, op), inputs := s.inputs + [Direct(op)])
  }

  function Run<S, L>(sys: System<S, L>, s: State<S, L>, actions: seq<Action<L>>): State<S, L>
  {
    if actions == [] then s
    else Step(sys, Run(sys, s, actions[..|actions| - 1]), actions[|actions| - 1])
  }

  /** Every action of the interleaving happens while it can. */
  ghost predicate Possible<S, L>(sys: System<S, L>, s: State<S, L>, actions: seq<Action<L>>)
  {
    forall i :: 0 <= i < |actions| ==> Enabled(sys, Run(sys, s, actions[..i]), actions[i])
  }

  /** The sequential reader: the state and the responses after serving the inputs in order. */
  datatype Served<S> = Served(card: S, responses: seq<Bytes>)

  function Answer<S, L>(sys: System<S, L>, card: S, input: Input<L>): Served<S>
  {
    match input
    case Frame(buf) =>
      var out := Rx(sys.reader, card, buf);
      Served(out.state, if out.reply.Some? then [out.reply.value] else [])
    case Direct(op) => Served(sys.local(card, op), [])
  }

  function Serve<S, L>(sys: System<S, L>, card: S, inputs: seq<Input<L>>): Served<S>
  {
    if inputs == [] then Served(card, [])
    else
      var before := Serve(sys, card, inputs[..|inputs| - 1]);
      var last := Answer(sys, before.card, inputs[|inputs| - 1]);
      Served(last.card, before.responses + last.responses)
  }

  function Undelivered<S, L>(s: State<S, L>): seq<Bytes>
  {
    if s.waiting.Some? then [s.waiting.value] else []
  }

  function Initial<S, L>(card: S): State<S, L>
  {
    State(card, None, [], [])
  }

  ghost predicate InStep<S, L>(sys: System<S, L>, card: S, s: State<S, L>)
  {
    Serve(sys, card, s.inputs) == Served(s.card, s.delivered + Undelivered(s))
  }

  lemma StepInStep<S, L>(sys: System<S, L>, card: S, s: State<S, L>, a: Action<L>)
    requires InStep(sys, card, s) && Enabled(sys, s, a)
    ensures InStep(sys, card, Step(sys, s, a))
  {
    var t := Step(sys, s, a);
    match a
    case Receive(buf) =>
      assert t.inputs[..|t.inputs| - 1] == s.inputs;
      assert s.delivered + Undelivered(s) == s.delivered;
    case Poll =>
      assert t.delivered + Undelivered(t) == s.delivered + Undelivered(s);
    case Local(op) =>
      assert t.inputs[..|t.inputs| - 1] == s.inputs;
      assert s.delivered + Undelivered(s) + [] == t.delivered + Undelivered(t);
  }

  /**
   Over every interleaving the delivered frames, followed by the at most one still waiting, are
   exactly the responses of the sequential reader to the inputs, in order.
   */
  lemma {:induction false} RefinesSequentialReader<S, L>(sys: System<S, L>, card: S, actions: seq<Action<L>>)
    requires Possible(sys, Initial(card), actions)
    ensures var t := Run(sys, Initial(card), actions);
            && Serve(sys, card, t.inputs) == Served(t.card, t.delivered + Undelivered(t))
            && t.delivered <= Serve(sys, card, t.inputs).responses
            && |Serve(sys, card, t.inputs).responses| <= |t.delivered| + 1
  {
    if actions == [] {
      assert InStep(sys, card, Initial(card));
    } else {
      var n := |actions| - 1;
      forall i | 0 <= i < n
        ensures Enabled(sys, Run(sys, Initial(card), actions[..n][..i]), actions[..n][i])
      {
        assert actions[..n][..i] == actions[..i];
      }
      RefinesSequentialReader(sys, card, actions[..n]);
      StepInStep(sys, card, Run(sys, Initial(card), actions[..n]), actions[n]);
    }
  }
}
