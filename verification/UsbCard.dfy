/**
 The whole path of a host command: USB hand-off, CCID frame, APDU, card; and
 beside it the console and the object listing, which reach the card directly.
 The APDU codec is a library and stays abstract.
 */
module UsbCard {
  import opened ByteStrings
  import opened LockMachine
  import LockSteps
  import CardRuns
  import CardAttempts
  import CardReports
  import Ccid
  import Handoff

  /** Unmarshalling of commands, marshalling of replies, and what libraries answer to the n-th APDU. */
  datatype Codec = Codec(
    unmarshal: Bytes -> Option<Capdu>,
    marshal: Reply -> Option<Bytes>,
    oracle: nat -> Oracle)

  /** The card and the number of APDUs it has executed. */
  datatype Device = Device(card: State, apdus: nat)

  /** `RawCommand`; an error or a panic leaves no reply. */
  function RawCommand(env: Env, codec: Codec, d: Device, apdu: Bytes): (Device, Option<Bytes>)
  {
    match codec.unmarshal(apdu)
    case None => (d, None)
    case Some(c) =>
      var out := Exec(env, d.card, Apdu(c, codec.oracle(d.apdus)));
      (Device(out.state, d.apdus + 1),
       if out.reply.Panicked? || out.reply.Erred? then None else codec.marshal(out.reply))
  }

  /** The card behind its reader and its console. */
  function Key(env: Env, codec: Codec, atr: Bytes): Handoff.System<Device, Command>
  {
    Handoff.System(
      Ccid.Card(atr, (d: Device, apdu: Bytes) => RawCommand(env, codec, d, apdu)),
      (d: Device, c: Command) => d.(card := Step(env, d.card, c)),
      (d: Device) => d.card.crashed)
  }

  /** The APDU that a USB buffer carries, if it carries one. */
  function Carried(codec: Codec, buf: Bytes): Option<Capdu>
  {
    if Ccid.Transfers(buf) then codec.unmarshal(Ccid.Data(buf, LittleEndian(buf[1..5]))) else None
  }

  /** The number of APDUs among the inputs. */
  function Apdus(codec: Codec, inputs: seq<Handoff.Input<Command>>): nat
  {
    if inputs == [] then 0
    else
      var last := inputs[|inputs| - 1];
      Apdus(codec, inputs[..|inputs| - 1]) + if last.Frame? && Carried(codec, last.buf).Some? then 1 else 0
  }

  /** What one input makes the card do, if `n` APDUs came before it. */
  function CommandOf(codec: Codec, input: Handoff.Input<Command>, n: nat): seq<Command>
  {
    match input
    case Frame(buf) =>
      (match Carried(codec, buf)
       case None => []
       case Some(c) => [Apdu(c, codec.oracle(n))])
    case Direct(c) => [c]
  }

  /** The card commands that the inputs carry, in order. */
  function Commands(codec: Codec, inputs: seq<Handoff.Input<Command>>): seq<Command>
  {
    if inputs == [] then []
    else
      var n := |inputs| - 1;
      Commands(codec, inputs[..n]) + CommandOf(codec, inputs[n], Apdus(codec, inputs[..n]))
  }

  lemma RunSingle(env: Env, s: State, c: Command)
    ensures Run(env, s, [c]) == Step(env, s, c)
  {
    assert [c][..0] == [];
  }

  /** One buffer moves the card by the command it carries. */
  lemma BufferRunsCommand(env: Env, codec: Codec, atr: Bytes, d: Device, buf: Bytes)
    ensures var cs := CommandOf(codec, Handoff.Frame(buf), d.apdus);
            Ccid.Rx(Key(env, codec, atr).reader, d, buf).state == Device(Run(env, d.card, cs), d.apdus + |cs|)
  {
    Ccid.SilentExactly(Key(env, codec, atr).reader, d, buf);
    match Carried(codec, buf)
    case None =>
    case Some(c) => RunSingle(env, d.card, Apdu(c, codec.oracle(d.apdus)));
  }

  lemma InputRunsCommand(env: Env, codec: Codec, atr: Bytes, d: Device, input: Handoff.Input<Command>)
    ensures Handoff.Answer(Key(env, codec, atr), d, input).card
            == Device(Run(env, d.card, CommandOf(codec, input, d.apdus)),
                      d.apdus + if input.Frame? && Carried(codec, input.buf).Some? then 1 else 0)
  {
    match input
    case Frame(buf) => BufferRunsCommand(env, codec, atr, d, buf);
    case Direct(c) => RunSingle(env, d.card, c);
  }

  lemma {:induction false} ServingRunsCommands(env: Env, codec: Codec, atr: Bytes, s: State, inputs: seq<Handoff.Input<Command>>)
    ensures Handoff.Serve(Key(env, codec, atr), Device(s, 0), inputs).card
            == Device(Run(env, s, Commands(codec, inputs)), Apdus(codec, inputs))
  {
    if inputs != [] {
      var n := |inputs| - 1;
      ServingRunsCommands(env, codec, atr, s, inputs[..n]);
      var before := Commands(codec, inputs[..n]);
      var d := Device(Run(env, s, before), Apdus(codec, inputs[..n]));
      InputRunsCommand(env, codec, atr, d, inputs[n]);
      RunAppend(env, s, before, CommandOf(codec, inputs[n], d.apdus));
    }
  }

  /**
   Over every interleaving of the two endpoints, the console and the object listing, the card is in
   the state of a run of their commands in the order in which they came.
   */
  lemma InterleavingsAreRuns(env: Env, codec: Codec, atr: Bytes, s: State, actions: seq<Handoff.Action<Command>>)
    requires Handoff.Possible(Key(env, codec, atr), Handoff.Initial(Device(s, 0)), actions)
    ensures var t := Handoff.Run(Key(env, codec, atr), Handoff.Initial(Device(s, 0)), actions);
            t.card.card == Run(env, s, Commands(codec, t.inputs))
  {
    var t := Handoff.Run(Key(env, codec, atr), Handoff.Initial(Device(s, 0)), actions);
    Handoff.RefinesSequentialReader(Key(env, codec, atr), Device(s, 0), actions);
    ServingRunsCommands(env, codec, atr, s, t.inputs);
  }

  /** A transfer frame with an APDU is answered with the marshalled reply of the card, or with nothing after an error or a panic. */
  lemma ApduIsAnswered(env: Env, codec: Codec, atr: Bytes, d: Device, apdu: Bytes, slot: byte, sequence: byte, bwi: byte)
    requires 0 < |apdu| < 0x1_0000_0000 && codec.unmarshal(apdu).Some?
    ensures var out := Exec(env, d.card, Apdu(codec.unmarshal(apdu).value, codec.oracle(d.apdus)));
            var answer := Ccid.Rx(Key(env, codec, atr).reader, d, Ccid.TransferFrame(apdu, slot, sequence, bwi)).reply;
            var silent := out.reply.Panicked? || out.reply.Erred? || codec.marshal(out.reply).None?;
            && (answer.None? <==> silent)
            && (!silent ==> |answer.value| >= 10 && answer.value[10..] == codec.marshal(out.reply).value)
  {
    Ccid.Transparent(Key(env, codec, atr).reader, d, apdu, slot, sequence, bwi);
  }

  /** So a blocked card stays blocked under any traffic. */
  lemma BlockedUnderAnyTraffic(env: Env, codec: Codec, atr: Bytes, s: State, actions: seq<Handoff.Action<Command>>)
    requires LockSteps.Inv(s) && s.initialized && s.retries == 0
    requires Handoff.Possible(Key(env, codec, atr), Handoff.Initial(Device(s, 0)), actions)
    ensures CardRuns.StillBlocked(s, Handoff.Run(Key(env, codec, atr), Handoff.Initial(Device(s, 0)), actions).card.card)
  {
    InterleavingsAreRuns(env, codec, atr, s, actions);
    var t := Handoff.Run(Key(env, codec, atr), Handoff.Initial(Device(s, 0)), actions);
    CardRuns.BlockingIsPermanent(env, s, Commands(codec, t.inputs));
  }

  /** From power-on, under any traffic: one attempt for each use of a protected signature key, and bounded failures. */
  lemma BoundsUnderAnyTraffic(env: Env, codec: Codec, atr: Bytes, armored: Bytes, blue: bool, white: bool,
                              actions: seq<Handoff.Action<Command>>)
    requires Handoff.Possible(Key(env, codec, atr), Handoff.Initial(Device(Start(armored, blue, white), 0)), actions)
    ensures var s := Start(armored, blue, white);
            var t := Handoff.Run(Key(env, codec, atr), Handoff.Initial(Device(s, 0)), actions);
            var cs, card := Commands(codec, t.inputs), t.card.card;
            var made := CardAttempts.AttemptsMade(env, s, cs);
            && (card.initialized ==>
                  CardRuns.Count(made, CardRuns.AnyRefusal) + card.retries
                  <= 3 + 2 * CardRuns.Count(made, CardRuns.AnyDecryption))
            && (CardRuns.ProtectedSig(card) ==>
                  CardReports.UsesMade(env, s, cs) <= CardRuns.Count(made, CardRuns.DecryptionOf(card.ring.sig.value)))
  {
    var s := Start(armored, blue, white);
    var t := Handoff.Run(Key(env, codec, atr), Handoff.Initial(Device(s, 0)), actions);
    InterleavingsAreRuns(env, codec, atr, s, actions);
    CardAttempts.CallersSeeBounds(env, armored, blue, white, Commands(codec, t.inputs));
  }
}
