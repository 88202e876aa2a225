/** The CCID reader of internal/ccid: header parsing, dispatch and response framing. */
module Ccid {
  import opened ByteStrings

  const ICC_POWER_ON: byte := 0x62
  const ICC_POWER_OFF: byte := 0x63
  const GET_SLOT_STATUS: byte := 0x65
  const XFR_BLOCK: byte := 0x6f
  const GET_PARAMETERS: byte := 0x6c
  const RESET_PARAMETERS: byte := 0x6d
  const SET_PARAMETERS: byte := 0x61

  const DATA_BLOCK: byte := 0x80
  const SLOT_STATUS: byte := 0x81
  const PARAMETERS: byte := 0x82

  const FAILED: byte := 0x40
  const BAD_LEVEL_PARAMETER: byte := 8

  const HEADER_SIZE := 10

  /** The ten bytes every command starts with; the last two are read as one number by XfrBlock. */
  datatype Header = Header(messageType: byte, length: nat, slot: byte, sequence: byte, level: nat)

  function ReadHeader(buf: Bytes): Option<Header>
  {
    if |buf| < HEADER_SIZE then None
    else Some(Header(buf[0], LittleEndian(buf[1..5]), buf[5], buf[6], (buf[8] as int) + 256 * (buf[9] as int)))
  }

  /** The response records, which share one layout; the last byte is chain, clock or protocol. */
  datatype Response = Response(messageType: byte, length: nat, slot: byte, sequence: byte, status: byte, error: byte, last: byte)

  function Serialize(r: Response): (b: Bytes)
    ensures |b| == HEADER_SIZE
    ensures b[0] == r.messageType && b[1..5] == FourBytes(r.length) && b[5] == r.slot && b[6] == r.sequence
    ensures b[7] == r.status && b[8] == r.error && b[9] == r.last
  {
    [r.messageType] + FourBytes(r.length) + [r.slot, r.sequence, r.status, r.error, r.last]
  }

  /** `Data`: the last `length` bytes of the buffer, if it is longer than that. */
  function Data(buf: Bytes, length: nat): Bytes
  {
    if length == 0 then []
    else if |buf| - length > 0 then buf[|buf| - length..]
    else []
  }

  /** A card behind the reader: its answer-to-reset and its `RawCommand` over a state. */
  datatype Card<!S> = Card(atr: Bytes, raw: (S, Bytes) -> (S, Option<Bytes>))

  datatype Outcome<S> = Outcome(state: S, reply: Option<Bytes>)

  function Framed(h: Header, messageType: byte, payload: Bytes): Bytes
  {
    Serialize(Response(messageType, |payload|, h.slot, h.sequence, 0, 0, 0)) + payload
  }

  function XfrBlock<S>(card: Card<S>, s: S, h: Header, buf: Bytes): Outcome<S>
  {
    if h.level != 0 then
      Outcome(s, Some(Serialize(Response(DATA_BLOCK, 0, h.slot, h.sequence, FAILED, BAD_LEVEL_PARAMETER, 0))))
    else
      var (t, data) := card.raw(s, Data(buf, h.length));
      Outcome(t, if data.None? then None else Some(Framed(h, DATA_BLOCK, data.value)))
  }

  predicate Known(messageType: byte)
  {
    messageType in {ICC_POWER_ON, ICC_POWER_OFF, GET_SLOT_STATUS, XFR_BLOCK,
                    GET_PARAMETERS, RESET_PARAMETERS, SET_PARAMETERS}
  }

  /** The handlers that do not reach the card. */
  function HandleOther(atr: Bytes, h: Header): Bytes
  {
    if h.messageType == ICC_POWER_ON then Framed(h, DATA_BLOCK, atr)
    else if h.messageType == ICC_POWER_OFF || h.messageType == GET_SLOT_STATUS then
      Serialize(Response(SLOT_STATUS, 0, h.slot, h.sequence, 0, 0, 0))
    else Serialize(Response(PARAMETERS, 0, h.slot, h.sequence, 0, 0, 1))
  }

  function Handle<S>(card: Card<S>, s: S, h: Header, buf: Bytes): Outcome<S>
  {
    if h.messageType == XFR_BLOCK then XfrBlock(card, s, h, buf) else Outcome(s, Some(HandleOther(card.atr, h)))
  }

  /** `Rx`; no reply stands for an error. */
  function Rx<S>(card: Card<S>, s: S, buf: Bytes): Outcome<S>
  {
    if buf == [] || !Known(buf[0]) then Outcome(s, None)
    else match ReadHeader(buf)
      case None => Outcome(s, None)
      case Some(h) => Handle(card, s, h, buf)
  }

  /** The response type that answers a command. */
  function Answering(messageType: byte): byte
  {
    if messageType == ICC_POWER_ON || messageType == XFR_BLOCK then DATA_BLOCK
    else if messageType == ICC_POWER_OFF || messageType == GET_SLOT_STATUS then SLOT_STATUS
    else PARAMETERS
  }

  /** `XfrBlock.Handle` field by field. */
  method HandleXfrBlock<S>(card: Card<S>, s: S, h: Header, buf: Bytes) returns (out: Outcome<S>)
    ensures out == XfrBlock(card, s, h, buf)
  {
    var res := Response(DATA_BLOCK, 0, h.slot, h.sequence, 0, 0, 0);
    if h.level != 0 {
      res := res.(status := FAILED);
      res := res.(error := BAD_LEVEL_PARAMETER);
      return Outcome(s, Some(Serialize(res)));
    }
    var (t, data) := card.raw(s, Data(buf, h.length));
    if data.None? {
      return Outcome(t, None);
    }
    res := res.(length := |data.value|);
    var resBuf := Serialize(res);
    resBuf := resBuf + data.value;
    return Outcome(t, Some(resBuf));
  }

  /** A transfer with a level parameter other than zero. */
  predicate Chained(buf: Bytes)
  {
    |buf| >= HEADER_SIZE && buf[0] == XFR_BLOCK && (buf[8] != 0 || buf[9] != 0)
  }

  /**
   A response frame: answering type, echoed slot and sequence, a length that counts what follows,
   and success or the one error of the reader.
   */
  ghost predicate Answers(buf: Bytes, res: Bytes)
    requires |buf| >= HEADER_SIZE
  {
    && |res| >= HEADER_SIZE
    && (if Chained(buf) then res[7] == FAILED && res[8] == BAD_LEVEL_PARAMETER else res[7] == 0 && res[8] == 0)
    && (res[0] != DATA_BLOCK || Chained(buf) ==> |res| == HEADER_SIZE)
    && res[0] == Answering(buf[0])
    && res[5] == buf[5] && res[6] == buf[6]
    && LittleEndian(res[1..5]) == (|res| - HEADER_SIZE) % 0x1_0000_0000
  }

  lemma FramedAnswers(h: Header, messageType: byte, payload: Bytes)
    ensures var res := Framed(h, messageType, payload);
            && |res| == HEADER_SIZE + |payload| && res[HEADER_SIZE..] == payload
            && res[0] == messageType && res[5] == h.slot && res[6] == h.sequence
            && LittleEndian(res[1..5]) == |payload| % 0x1_0000_0000
            && res[7] == 0 && res[8] == 0
  {
    var head := Serialize(Response(messageType, |payload|, h.slot, h.sequence, 0, 0, 0));
    assert Framed(h, messageType, payload)[1..5] == head[1..5];
    FourBytesValue(|payload|);
  }

  /** Every reply of the reader is a well-formed frame that answers its command. */
  lemma RepliesAnswer<S>(card: Card<S>, s: S, buf: Bytes)
    requires Rx(card, s, buf).reply.Some?
    ensures |buf| >= HEADER_SIZE && Answers(buf, Rx(card, s, buf).reply.value)
  {
    var h := ReadHeader(buf).value;
    FourBytesValue(0);
    FramedAnswers(h, DATA_BLOCK, card.atr);
    if h.messageType == XFR_BLOCK && h.level == 0 {
      FramedAnswers(h, DATA_BLOCK, card.raw(s, Data(buf, h.length)).1.value);
    }
  }

  /** Powering on delivers the answer-to-reset. */
  lemma PowerOnDeliversAtr<S>(card: Card<S>, s: S, buf: Bytes)
    requires |buf| >= HEADER_SIZE && buf[0] == ICC_POWER_ON
    ensures var out := Rx(card, s, buf);
            out.state == s && out.reply.Some? && Answers(buf, out.reply.value) && out.reply.value[HEADER_SIZE..] == card.atr
  {
    RepliesAnswer(card, s, buf);
    FramedAnswers(ReadHeader(buf).value, DATA_BLOCK, card.atr);
  }

  /** Only transfers with level parameter zero reach the card. */
  predicate Transfers(buf: Bytes)
  {
    |buf| >= HEADER_SIZE && buf[0] == XFR_BLOCK && buf[8] == 0 && buf[9] == 0
  }

  /** No reply comes back exactly for short or unknown commands and for transfers the card refuses. */
  lemma SilentExactly<S>(card: Card<S>, s: S, buf: Bytes)
    ensures Rx(card, s, buf).reply.None? <==>
            || |buf| < HEADER_SIZE
            || !Known(buf[0])
            || (Transfers(buf) && card.raw(s, Data(buf, LittleEndian(buf[1..5]))).1.None?)
    ensures Rx(card, s, buf).state
            == if Transfers(buf) then card.raw(s, Data(buf, LittleEndian(buf[1..5]))).0 else s
  {
  }

  lemma EmptyFrame(messageType: byte, slot: byte, sequence: byte, status: byte, error: byte, last: byte)
    ensures Serialize(Response(messageType, 0, slot, sequence, status, error, last))
            == [messageType, 0, 0, 0, 0, slot, sequence, status, error, last]
  {
    assert FourBytes(0) == [0, 0, 0, 0];
  }

  lemma PlainFrames<S>(card: Card<S>, s: S, buf: Bytes)
    requires |buf| >= 10
    ensures Rx(card, s, buf).reply.Some? ==> |Rx(card, s, buf).reply.value| >= 10 && Rx(card, s, buf).reply.value[5..7] == buf[5..7]
    ensures buf[0] == 0x62 ==> Rx(card, s, buf).reply.Some? && Rx(card, s, buf).reply.value[10..] == card.atr
  {
    if Rx(card, s, buf).reply.Some? {
      RepliesAnswer(card, s, buf);
    }
    if buf[0] == 0x62 {
      PowerOnDeliversAtr(card, s, buf);
    }
  }

  /** The command and response types in bytes. */
  lemma FramesInBytes<S>(card: Card<S>, s: S, buf: Bytes)
    ensures var reply := Rx(card, s, buf).reply;
            && (reply.Some? ==> |buf| >= 10 && |reply.value| >= 10 && reply.value[5..7] == buf[5..7])
            && (|buf| >= 10 && buf[0] == 0x62 ==> reply.Some? && reply.value[0] == 0x80 && reply.value[10..] == card.atr)
            && (|buf| >= 10 && buf[0] in {0x63, 0x65} ==>
                  reply == Some([0x81, 0, 0, 0, 0, buf[5], buf[6], 0, 0, 0]))
            && (|buf| >= 10 && buf[0] in {0x6c, 0x6d, 0x61} ==>
                  reply == Some([0x82, 0, 0, 0, 0, buf[5], buf[6], 0, 0, 1]))
            && (|buf| >= 10 && buf[0] == 0x6f && (buf[8] != 0 || buf[9] != 0) ==>
                  reply == Some([0x80, 0, 0, 0, 0, buf[5], buf[6], 0x40, 8, 0]))
            && (|buf| < 10 || buf[0] !in {0x61, 0x62, 0x63, 0x65, 0x6c, 0x6d, 0x6f} ==> reply.None?)
  {
    if |buf| >= 10 {
      EmptyFrame(0x81, buf[5], buf[6], 0, 0, 0);
      EmptyFrame(0x82, buf[5], buf[6], 0, 0, 1);
      EmptyFrame(0x80, buf[5], buf[6], 0x40, 8, 0);
      PlainFrames(card, s, buf);
    }
  }

  /** What reaches the card of a transfer: the last bytes of the buffer, as many as its length field says, if it has more. */
  lemma TransferInBytes<S>(card: Card<S>, s: S, buf: Bytes)
    requires |buf| >= 10 && buf[0] == 0x6f && buf[8] == 0 && buf[9] == 0
    ensures var n := LittleEndian(buf[1..5]);
            Rx(card, s, buf).state == card.raw(s, if 0 < n < |buf| then buf[|buf| - n..] else []).0
  {
  }

  /** A transfer command as a host frames it. */
  function TransferFrame(apdu: Bytes, slot: byte, sequence: byte, bwi: byte): Bytes
  {
    [0x6f] + FourBytes(|apdu|) + [slot, sequence, bwi, 0, 0] + apdu
  }

  lemma TransferFrameFields(apdu: Bytes, slot: byte, sequence: byte, bwi: byte)
    requires 0 < |apdu| < 0x1_0000_0000
    ensures var buf := TransferFrame(apdu, slot, sequence, bwi);
            && ReadHeader(buf) == Some(Header(XFR_BLOCK, |apdu|, slot, sequence, 0))
            && Data(buf, |apdu|) == apdu
  {
    var buf := TransferFrame(apdu, slot, sequence, bwi);
    assert buf[1..5] == FourBytes(|apdu|);
    FourBytesValue(|apdu|);
    assert buf[|buf| - |apdu|..] == apdu;
  }

  /** A framed APDU reaches the card unchanged, and the payload of the reply is the card's answer unchanged. */
  lemma Transparent<S>(card: Card<S>, s: S, apdu: Bytes, slot: byte, sequence: byte, bwi: byte)
    requires 0 < |apdu| < 0x1_0000_0000
    ensures var out := Rx(card, s, TransferFrame(apdu, slot, sequence, bwi));
            var (t, data) := card.raw(s, apdu);
            && out.state == t
            && (out.reply.None? <==> data.None?)
            && (data.Some? ==> |out.reply.value| >= HEADER_SIZE && out.reply.value[HEADER_SIZE..] == data.value
                               && out.reply.value[7] == 0 && out.reply.value[8] == 0)
  {
    TransferFrameFields(apdu, slot, sequence, bwi);
    var h := Header(XFR_BLOCK, |apdu|, slot, sequence, 0);
    var data := card.raw(s, apdu).1;
    if data.Some? {
      FramedAnswers(h, DATA_BLOCK, data.value);
    }
  }

  /** The body of a transfer reply that was not refused. */
  ghost predicate Delivers(res: Bytes, payload: Bytes)
  {
    |res| >= HEADER_SIZE && res[HEADER_SIZE..] == payload && LittleEndian(res[1..5]) == |payload| % 0x1_0000_0000
  }

  lemma TransferDelivers<S>(card: Card<S>, s: S, buf: Bytes)
    requires Transfers(buf)
    ensures var out, (t, data) := Rx(card, s, buf), card.raw(s, Data(buf, LittleEndian(buf[1..5])));
            && out.state == t
            && if data.None? then out.reply.None? else out.reply.Some? && Delivers(out.reply.value, data.value)
  {
    var h := ReadHeader(buf).value;
    var data := card.raw(s, Data(buf, h.length)).1;
    if data.Some? {
      FramedAnswers(h, DATA_BLOCK, data.value);
    }
  }

  /** `Rx`: the command type, then the header, then the handler. */
  method Receive<S>(card: Card<S>, s: S, buf: Bytes) returns (out: Outcome<S>)
    ensures out == Rx(card, s, buf)
    ensures out.reply.Some? ==> |buf| >= HEADER_SIZE && Answers(buf, out.reply.value)
    ensures !Transfers(buf) ==> out.state == s
    ensures Transfers(buf) ==>
              var (t, data) := card.raw(s, Data(buf, LittleEndian(buf[1..5])));
              && out.state == t
              && if data.None? then out.reply.None? else out.reply.Some? && Delivers(out.reply.value, data.value)
  {
    if Rx(card, s, buf).reply.Some? {
      RepliesAnswer(card, s, buf);
    }
    if Transfers(buf) {
      TransferDelivers(card, s, buf);
    } else {
      SilentExactly(card, s, buf);
    }
    if |buf| == 0 {
      return Outcome(s, None);
    }
    if !Known(buf[0]) {
      return Outcome(s, None);
    }
    var h := ReadHeader(buf);
    if h.None? {
      return Outcome(s, None);
    }
    if buf[0] == XFR_BLOCK {
      out := HandleXfrBlock(card, s, h.value, buf);
    } else {
      out := Outcome(s, Some(HandleOther(card.atr, h.value)));
    }
  }
}
