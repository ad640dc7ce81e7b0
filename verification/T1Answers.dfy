/** kernel/files/snvm/protocol/ese_iso7816_t1.c: what the driver puts on the wire next, byte by byte, for each thing it
    can hear. */
module T1Answers {
  import opened Bytes
  import opened T1
  import opened T1Cursor
  import opened T1Link

  /** Between two rounds, with an I-block to repeat. */
  predicate Talking(d: Driver)
  {
    Coherent(d) && d.lastTx.iframe.present && d.lastTx.iframe.sendSize > 0
  }

  /** An R-block of the host: error code 0, 1 or 2, and the number it waits for. */
  function Asks(d: Driver, error: nat, number: Bit): seq<byte>
    requires error < 4
  {
    Seal([d.sendAddress, 0x80 + 0x10 * number + error, 0])
  }

  /** The number of the I-block the host waits for. */
  function Awaited(d: Driver): Bit
  {
    1 - d.lastRx.iframe.seqNo
  }

  /** What the host sends when this arrives and the bus takes it. */
  function Answer(d: Driver, e: RxEvent): Round
    requires WholeBlock(e)
  {
    HostRound(d, e, true)
  }

  /** A whole block with a right check byte and this PCB. */
  predicate Sound(data: seq<byte>, pcb: nat)
  {
    WholeBlock(Block(data)) && LrcOk(data) && data[1] == pcb
  }

  /** The PCB bytes of section 11.3.2.2 of ISO/IEC 7816-3: the error codes of R-blocks, and requests and responses of
      S-blocks, which differ in bit 5. */
  lemma PcbBytes(address: byte, number: Bit)
    ensures EncodeRFrame(address, NoError, number)[1] == 0x80 + 0x10 * number
    ensures EncodeRFrame(address, Parity, number)[1] == 0x81 + 0x10 * number
    ensures EncodeRFrame(address, OtherError, number)[1] == 0x82 + 0x10 * number
    ensures EncodeRFrame(address, SofMissed, number)[1] == 0x83 + 0x10 * number
    ensures EncodeSFrame(address, ResynchReq)[1] == 0xC0 && EncodeSFrame(address, ResynchRsp)[1] == 0xE0
    ensures EncodeSFrame(address, IfscReq)[1] == 0xC1 && EncodeSFrame(address, IfscRsp)[1] == 0xE1
    ensures EncodeSFrame(address, AbortReq)[1] == 0xC2 && EncodeSFrame(address, AbortRsp)[1] == 0xE2
    ensures EncodeSFrame(address, WtxReq)[1] == 0xC3 && EncodeSFrame(address, WtxRsp)[1] == 0xE3
  {
  }

  // ---------- a processed event and the frame that follows it ----------

  lemma Sends(d: Driver, e: RxEvent, p: Driver, frame: seq<byte>)
    requires WholeBlock(e) && Process(d, e).driver == p && p.state != Idle
    requires Transmit(p).ok && Transmit(p).frame == frame
    ensures Answer(d, e).frame == frame && Answer(d, e).ok
    ensures Answer(d, e).driver == Transmit(p).driver
  {
  }

  lemma Stops(d: Driver, e: RxEvent)
    requires WholeBlock(e) && Process(d, e).driver.state == Idle
    ensures Answer(d, e).driver.state == Idle && Answer(d, e).frame == []
  {
  }

  /** The pending frame is the last one, so it goes out again. */
  lemma Repeats(d: Driver, p: Driver)
    requires Talking(d) && p.state == d.state && p.nextTx == d.lastTx
    requires p.sendAddress == d.sendAddress && p.lastRx.iframe.seqNo == d.lastRx.iframe.seqNo
    ensures Transmit(p).ok && Transmit(p).frame == FrameOf(d)
  {
  }

  /** The last I-block is pending. */
  lemma RepeatsBlock(d: Driver, p: Driver)
    requires Talking(d) && p.state == SendIFrame && p.nextTx.iframe == d.lastTx.iframe && p.sendAddress == d.sendAddress
    ensures Transmit(p).ok && Transmit(p).frame == EncodeIFrame(d.sendAddress, d.lastTx.iframe)
  {
  }

  lemma SendsAsk(d: Driver, p: Driver, error: nat)
    requires p.state == SendRFrame && p.sendAddress == d.sendAddress && p.lastRx.iframe.seqNo == d.lastRx.iframe.seqNo
    requires match p.nextTx.rframe.error
             case NoError => error == 0
             case Parity => error == 1
             case OtherError => error == 2
             case _ => false
    ensures Transmit(p).ok && Transmit(p).frame == Asks(d, error, Awaited(d))
  {
  }

  // ---------- R-blocks ----------

  /** When an R-block with the error code 1 or 2 brings the last I-block again. */
  predicate BringsBlock(d: Driver, number: Bit)
  {
    d.lastTx.kind == IFrame || (d.lastTx.kind == RFrame && number == d.lastTx.iframe.seqNo && d.lastFrame == IFrame)
  }

  /** The last I-block byte for byte, or an R-block without an error code exactly if the host last asked for a new chunk
      and the card does not name the host's I-block. */
  function AgainAfterNack(d: Driver, number: Bit): seq<byte>
  {
    if BringsBlock(d, number) then EncodeIFrame(d.sendAddress, d.lastTx.iframe)
    else if d.lastTx.kind == SFrame then FrameOf(d)
    else if number != d.lastTx.iframe.seqNo && d.lastFrame == RFrame then Asks(d, 0, Awaited(d))
    else Asks(d, 2, Awaited(d))
  }

  /** A nack is answered three times at most. */
  lemma AnswerToNack(d: Driver, data: seq<byte>, number: Bit, error: nat)
    requires Talking(d) && (error == 1 || error == 2) && Sound(data, 0x80 + 0x10 * number + error)
    ensures d.recoveryCounter >= 3 ==> Answer(d, Block(data)).driver.state == Idle
    ensures d.recoveryCounter < 3 ==> Answer(d, Block(data)).frame == AgainAfterNack(d, number)
  {
    NackProcessed(d, data, number, error);
    NackAnswers(d, number, Block(data));
  }

  lemma NackProcessed(d: Driver, data: seq<byte>, number: Bit, error: nat)
    requires Talking(d) && (error == 1 || error == 2) && Sound(data, 0x80 + 0x10 * number + error)
    ensures NackPending(Heard(d), number, Process(d, Block(data)).driver)
  {
    RProcessed(d, data, number, error);
    NackDecodes(Heard(d), data[1], number, error);
  }

  lemma RProcessed(d: Driver, data: seq<byte>, number: Bit, error: nat)
    requires error < 4 && Sound(data, 0x80 + 0x10 * number + error)
    ensures Process(d, Block(data)).driver == DecodeRBlock(Heard(d), data[1])
  {
    RBits(data[1], number, error);
  }

  /** What a nack makes pending. */
  predicate NackPending(d: Driver, number: Bit, p: Driver)
  {
    && p.sendAddress == d.sendAddress && p.lastRx.iframe.seqNo == d.lastRx.iframe.seqNo
    && if d.recoveryCounter >= 3 then p.state == Idle
       else if BringsBlock(d, number) then p.state == SendIFrame && p.nextTx.iframe == d.lastTx.iframe
       else if d.lastTx.kind == SFrame then p.state == d.state && p.nextTx == d.lastTx
       else
         p.state == SendRFrame
         && p.nextTx.rframe.error == if number != d.lastTx.iframe.seqNo && d.lastFrame == RFrame then NoError else OtherError
  }

  lemma NackDecodes(d: Driver, pcb: byte, number: Bit, error: nat)
    requires Talking(d) && (error == 1 || error == 2) && pcb == 0x80 + 0x10 * number + error
    ensures NackPending(d, number, DecodeRBlock(d, pcb))
  {
    RBits(pcb, number, error);
  }

  lemma NackAnswers(d: Driver, number: Bit, e: RxEvent)
    requires Talking(d) && WholeBlock(e) && NackPending(Heard(d), number, Process(d, e).driver)
    ensures d.recoveryCounter >= 3 ==> Answer(d, e).driver.state == Idle
    ensures d.recoveryCounter < 3 ==>
      Answer(d, e).frame == AgainAfterNack(d, number)
  {
    var p := Process(d, e).driver;
    if d.recoveryCounter >= 3 {
      Stops(d, e);
    } else if BringsBlock(d, number) {
      RepeatsBlock(d, p);
      Sends(d, e, p, EncodeIFrame(d.sendAddress, d.lastTx.iframe));
    } else if d.lastTx.kind == SFrame {
      Repeats(d, p);
      Sends(d, e, p, FrameOf(d));
    } else {
      var error := if number != d.lastTx.iframe.seqNo && d.lastFrame == RFrame then 0 else 2;
      SendsAsk(d, p, error);
      Sends(d, e, p, Asks(d, error, Awaited(d)));
    }
  }

  /** Error code 3: the same frame again, whatever it was, three times at most. */
  lemma AnswerToMissedStart(d: Driver, data: seq<byte>, number: Bit)
    requires Talking(d) && Sound(data, 0x83 + 0x10 * number)
    ensures d.recoveryCounter >= 3 ==> Answer(d, Block(data)).driver.state == Idle
    ensures d.recoveryCounter < 3 ==> Answer(d, Block(data)).frame == FrameOf(d)
  {
    MissedProcessed(d, data, number);
    MissedAnswers(d, Block(data));
  }

  predicate MissedPending(d: Driver, p: Driver)
  {
    && p.sendAddress == d.sendAddress && p.lastRx.iframe.seqNo == d.lastRx.iframe.seqNo
    && if d.recoveryCounter >= 3 then p.state == Idle else p.state == d.state && p.nextTx == d.lastTx
  }

  lemma MissedProcessed(d: Driver, data: seq<byte>, number: Bit)
    requires Sound(data, 0x83 + 0x10 * number)
    ensures MissedPending(Heard(d), Process(d, Block(data)).driver)
  {
    RProcessed(d, data, number, 3);
    MissedDecodes(Heard(d), data[1], number);
  }

  lemma MissedDecodes(d: Driver, pcb: byte, number: Bit)
    requires pcb == 0x83 + 0x10 * number
    ensures MissedPending(d, DecodeRBlock(d, pcb))
  {
    RBits(pcb, number, 3);
  }

  lemma MissedAnswers(d: Driver, e: RxEvent)
    requires Talking(d) && WholeBlock(e) && MissedPending(Heard(d), Process(d, e).driver)
    ensures d.recoveryCounter >= 3 ==> Answer(d, e).driver.state == Idle
    ensures d.recoveryCounter < 3 ==> Answer(d, e).frame == FrameOf(d)
  {
    if d.recoveryCounter >= 3 {
      Stops(d, e);
    } else {
      Repeats(d, Process(d, e).driver);
      Sends(d, e, Process(d, e).driver, FrameOf(d));
    }
  }

  /** How many bytes of the APDU the block behind the last one carries. */
  function NextSize(d: Driver): nat
  {
    if d.lastTx.iframe.totalSize > 254 then 254 else d.lastTx.iframe.totalSize
  }

  /** The block behind the last one: the other number, the chain bit exactly if more than 254 bytes are left, and the
      bytes 254 further on. */
  function NextBlock(d: Driver): seq<byte>
  {
    var i := d.lastTx.iframe;
    Seal([d.sendAddress, (if i.totalSize > 254 then 0x20 else 0) + 0x40 * (1 - i.seqNo), NextSize(d)]
         + Window(i.data, i.offset + 254, NextSize(d)))
  }

  /** What an ack makes pending. */
  predicate AckPending(d: Driver, number: Bit, p: Driver)
  {
    && p.sendAddress == d.sendAddress && p.lastRx.iframe.seqNo == d.lastRx.iframe.seqNo
    && if number == d.lastTx.iframe.seqNo then p.state == d.state && p.nextTx == d.lastTx
       else p.state == SendIFrame && Follows(d.lastTx.iframe, p.nextTx.iframe)
  }

  /** An ack: the following block if it names it, else the same frame again. */
  lemma AnswerToAck(d: Driver, data: seq<byte>, number: Bit)
    requires Talking(d) && (number != d.lastTx.iframe.seqNo ==> d.lastTx.iframe.totalSize > 0)
    requires Sound(data, 0x80 + 0x10 * number)
    ensures Answer(d, Block(data)).frame == if number == d.lastTx.iframe.seqNo then FrameOf(d) else NextBlock(d)
  {
    AckProcessed(d, data, number);
    AckAnswers(d, number, Block(data));
  }

  lemma AckProcessed(d: Driver, data: seq<byte>, number: Bit)
    requires Talking(d) && Sound(data, 0x80 + 0x10 * number)
    ensures AckPending(Heard(d), number, Process(d, Block(data)).driver)
  {
    RProcessed(d, data, number, 0);
    AckDecodes(Heard(d), number, data[1]);
  }

  lemma AckDecodes(d: Driver, number: Bit, pcb: byte)
    requires Talking(d) && pcb == 0x80 + 0x10 * number
    ensures AckPending(d, number, DecodeRBlock(d, pcb))
  {
    RBits(pcb, number, 0);
  }

  lemma AckAnswers(d: Driver, number: Bit, e: RxEvent)
    requires Talking(d) && WholeBlock(e) && AckPending(Heard(d), number, Process(d, e).driver)
    requires number != d.lastTx.iframe.seqNo ==> d.lastTx.iframe.totalSize > 0
    ensures Answer(d, e).frame == if number == d.lastTx.iframe.seqNo then FrameOf(d) else NextBlock(d)
  {
    var p := Process(d, e).driver;
    if number == d.lastTx.iframe.seqNo {
      Repeats(d, p);
      Sends(d, e, p, FrameOf(d));
    } else {
      FollowingFrame(d, p);
      Sends(d, e, p, NextBlock(d));
    }
  }

  lemma FollowingFrame(d: Driver, p: Driver)
    requires Talking(d) && p.state == SendIFrame && Follows(d.lastTx.iframe, p.nextTx.iframe)
    requires p.sendAddress == d.sendAddress && d.lastTx.iframe.totalSize > 0
    ensures Transmit(p).ok && Transmit(p).frame == NextBlock(d)
  {
    assert p.nextTx.iframe.sendSize == NextSize(d);
  }

  // ---------- I-blocks ----------

  /** What a chunk does: the host has it already, or takes it. */
  predicate ChunkTaken(d: Driver, number: Bit, more: bool, inf: seq<byte>, round: Round)
  {
    if number == d.lastRx.iframe.seqNo then
      && round.driver.recvData == d.recvData
      && (if d.recoveryCounter < 3 then round.frame == Asks(d, 2, Awaited(d)) else round.driver.state == Idle)
    else
      && round.driver.recvData == d.recvData + [inf]
      && (if more then round.frame == Asks(d, 0, 1 - number) else round.driver.state == Idle)
  }

  /** A new chunk is taken; a chained one is acknowledged with the number behind it, the last one ends the exchange. A
      chunk the host has already is refused with an error R-block, three times at most. */
  lemma AnswerToChunk(d: Driver, data: seq<byte>, number: Bit, more: bool)
    requires Talking(d) && Sound(data, 0x40 * number + if more then 0x20 else 0)
    ensures ChunkTaken(d, number, more, data[3..|data| - 1], Answer(d, Block(data)))
  {
    ChunkProcessed(d, data, number, more);
    ChunkAnswers(d, number, more, data[3..|data| - 1], Block(data));
  }

  predicate ChunkPending(d: Driver, number: Bit, more: bool, inf: seq<byte>, p: Driver)
  {
    && p.sendAddress == d.sendAddress && p.lastRx.iframe.seqNo == number
    && if number == d.lastRx.iframe.seqNo then
         && p.recvData == d.recvData
         && if d.recoveryCounter < 3 then p.state == SendRFrame && p.nextTx.rframe.error == OtherError
            else p.state == Idle
       else
         && p.recvData == d.recvData + [inf]
         && if more then p.state == SendRFrame && p.nextTx.rframe.error == NoError else p.state == Idle
  }

  lemma ChunkProcessed(d: Driver, data: seq<byte>, number: Bit, more: bool)
    requires Sound(data, 0x40 * number + if more then 0x20 else 0)
    ensures ChunkPending(Heard(d), number, more, data[3..|data| - 1], Process(d, Block(data)).driver)
  {
    assert EseBit(data[1], 7) == 0;
    ChunkDecodes(Heard(d), data[1], number, more, data[3..|data| - 1]);
  }

  lemma ChunkDecodes(d: Driver, pcb: byte, number: Bit, more: bool, inf: seq<byte>)
    requires pcb == 0x40 * number + if more then 0x20 else 0
    ensures ChunkPending(d, number, more, inf, DecodeIBlock(d, pcb, inf))
  {
    assert EseBit(pcb, 6) == number && (EseBit(pcb, 5) == 1 <==> more);
  }

  lemma ChunkAnswers(d: Driver, number: Bit, more: bool, inf: seq<byte>, e: RxEvent)
    requires Talking(d) && WholeBlock(e) && ChunkPending(Heard(d), number, more, inf, Process(d, e).driver)
    ensures ChunkTaken(d, number, more, inf, Answer(d, e))
  {
    var p := Process(d, e).driver;
    if p.state == Idle {
      Stops(d, e);
      Keeps(d, e);
    } else if number == d.lastRx.iframe.seqNo {
      SendsAsk(d, p, 2);
      Sends(d, e, p, Asks(d, 2, Awaited(d)));
      TransmitKeepsData(p);
    } else {
      AcknowledgesChunk(d, number, p);
      Sends(d, e, p, Asks(d, 0, 1 - number));
      TransmitKeepsData(p);
    }
  }

  lemma AcknowledgesChunk(d: Driver, number: Bit, p: Driver)
    requires p.state == SendRFrame && p.nextTx.rframe.error == NoError
    requires p.sendAddress == d.sendAddress && p.lastRx.iframe.seqNo == number
    ensures Transmit(p).ok && Transmit(p).frame == Asks(d, 0, 1 - number)
  {
    SendsAsk(p, p, 0);
  }

  lemma TransmitKeepsData(p: Driver)
    ensures Transmit(p).driver.recvData == p.recvData
  {
  }

  lemma Keeps(d: Driver, e: RxEvent)
    requires WholeBlock(e) && Process(d, e).driver.state == Idle
    ensures Answer(d, e).driver == Process(d, e).driver
  {
  }

  // ---------- S-blocks ----------

  /** The host's own S-block, by its code. */
  function Says(d: Driver, code: nat): seq<byte>
    requires code < 0x40
  {
    Seal([d.sendAddress, 0xC0 + code, 0])
  }

  /** The driver waits for the answer to a request of its own, or answers a RESYNCH request. */
  predicate AwaitsAnswer(d: Driver)
  {
    d.lastTx.kind == SFrame && d.lastTx.sframe != WtxRsp
  }

  predicate SAnswered(d: Driver, code: nat, round: Round)
  {
    if code == 0x20 || code == 0x22 then round.driver.state == Idle
    else if code == 0x03 && AwaitsAnswer(d) then
      if d.recoveryCounter < 3 then round.frame == FrameOf(d) else round.driver.state == Idle
    else round.frame == if code == 0x03 then Says(d, 0x23) else FrameOf(d)
  }

  /** A WTX request is granted, unless another S-block is out: then that one is repeated, three times at most. The
      answers to RESYNCH and ABORT end the exchange; everything else changes nothing. */
  lemma AnswerToS(d: Driver, data: seq<byte>, code: nat)
    requires Talking(d) && 0 < code < 0x40 && Sound(data, 0xC0 + code)
    ensures SAnswered(d, code, Answer(d, Block(data)))
  {
    SProcessed(d, data, code);
    SAnswers(d, code, Block(data));
  }

  predicate SPending(d: Driver, code: nat, p: Driver)
  {
    && p.sendAddress == d.sendAddress && p.lastRx.iframe.seqNo == d.lastRx.iframe.seqNo
    && if code == 0x20 || code == 0x22 then p.state == Idle
       else if code == 0x03 && AwaitsAnswer(d) && d.recoveryCounter >= 3 then p.state == Idle
       else if code == 0x03 && !AwaitsAnswer(d) then p.state == SendSFrame && p.nextTx.sframe == WtxRsp
       else p.state == d.state && p.nextTx == d.lastTx
  }

  lemma SProcessed(d: Driver, data: seq<byte>, code: nat)
    requires Talking(d) && 0 < code < 0x40 && Sound(data, 0xC0 + code)
    ensures SPending(Heard(d), code, Process(d, Block(data)).driver)
  {
    assert EseBit(data[1], 7) == 1 && EseBit(data[1], 6) == 1;
    SDecodes(Heard(d), data[1], code);
  }

  lemma SDecodes(d: Driver, pcb: byte, code: nat)
    requires Talking(d) && 0 < code < 0x40 && pcb == 0xC0 + code
    ensures SPending(d, code, DecodeSBlock(d, pcb))
  {
  }

  lemma SAnswers(d: Driver, code: nat, e: RxEvent)
    requires Talking(d) && WholeBlock(e) && SPending(Heard(d), code, Process(d, e).driver)
    ensures SAnswered(d, code, Answer(d, e))
  {
    var p := Process(d, e).driver;
    if p.state == Idle {
      Stops(d, e);
    } else if code == 0x03 && !AwaitsAnswer(d) {
      GrantsTime(p);
      Sends(d, e, p, Says(d, 0x23));
    } else {
      Repeats(d, p);
      Sends(d, e, p, FrameOf(d));
    }
  }

  lemma GrantsTime(p: Driver)
    requires p.state == SendSFrame && p.nextTx.sframe == WtxRsp
    ensures Transmit(p).ok && Transmit(p).frame == Says(p, 0x23)
  {
  }

  /** A RESYNCH request is answered, and puts every number back to where a new driver has it. */
  lemma AnswerToResynch(d: Driver, data: seq<byte>)
    requires Talking(d) && Sound(data, 0xC0)
    ensures var round := Answer(d, Block(data));
      && round.frame == Says(d, 0x20)
      && round.driver.lastTx.iframe.seqNo == 1 && round.driver.lastRx.iframe.seqNo == 1
      && round.driver.recoveryCounter == 0 && round.driver.recvData == d.recvData
  {
    ResynchDecodes(Heard(d), data);
    var p := Process(d, Block(data)).driver;
    Resynchs(p);
    Sends(d, Block(data), p, Says(d, 0x20));
  }

  lemma ResynchDecodes(d: Driver, data: seq<byte>)
    requires |data| >= 4 && data[1] == 0xC0
    ensures var p := Decode(d, data);
      && p.state == SendSFrame && p.nextTx.sframe == ResynchRsp && p.sendAddress == d.sendAddress
      && p.nextTx.iframe.seqNo == 1 && p.lastRx.iframe.seqNo == 1 && p.recoveryCounter == 0 && p.recvData == d.recvData
  {
    assert EseBit(0xC0, 7) == 1 && EseBit(0xC0, 6) == 1;
  }

  lemma Resynchs(p: Driver)
    requires p.state == SendSFrame && p.nextTx.sframe == ResynchRsp
    ensures Transmit(p).ok && Transmit(p).frame == Says(p, 0x20)
  {
  }

  // ---------- nothing usable ----------

  /** A block with a wrong check byte is asked for again with error code 1, a wrong address with 2, twice at most. */
  lemma AnswerToGarbage(d: Driver, e: RxEvent)
    requires Talking(d) && WholeBlock(e) && !e.Silence? && (e.Block? ==> !LrcOk(e.data))
    ensures d.rnackCounter >= 2 ==> Answer(d, e).driver.state == Idle
    ensures d.rnackCounter < 2 ==> Answer(d, e).frame == Asks(d, if e.Block? then 1 else 2, Awaited(d))
  {
    var p := Process(d, e).driver;
    if d.rnackCounter >= 2 {
      Stops(d, e);
    } else {
      SendsAsk(d, p, if e.Block? then 1 else 2);
      Sends(d, e, p, Asks(d, if e.Block? then 1 else 2, Awaited(d)));
    }
  }

  /** Silence: the same frame again, three times at most; behind a WTX or RESYNCH answer an error R-block, twice. */
  lemma AnswerToSilence(d: Driver)
    requires Talking(d)
    ensures var granted := d.lastTx.kind == SFrame && (d.lastTx.sframe == WtxRsp || d.lastTx.sframe == ResynchRsp);
      var round := Answer(d, Silence);
      if granted then
        (if d.rnackCounter < 2 then round.frame == Asks(d, 2, Awaited(d)) else round.driver.state == Idle)
      else
        (if d.timeoutCounter < 3 then round.frame == FrameOf(d) else round.driver.state == Idle)
  {
    var p := Process(d, Silence).driver;
    if p.state == Idle {
      Stops(d, Silence);
    } else if d.lastTx.kind == SFrame && (d.lastTx.sframe == WtxRsp || d.lastTx.sframe == ResynchRsp) {
      SendsAsk(d, p, 2);
      Sends(d, Silence, p, Asks(d, 2, Awaited(d)));
    } else {
      Repeats(d, p);
      Sends(d, Silence, p, FrameOf(d));
    }
  }

  // ---------- the retry counters ----------

  /** The counter of failed recoveries after one more: up to three, and cleared when the driver gives up. */
  function CountedUp(recoveries: nat): nat
  {
    if recoveries < 3 then recoveries + 1 else 0
  }

  lemma AnswerKeepsCounters(d: Driver, e: RxEvent)
    requires WholeBlock(e)
    ensures var p, after := Process(d, e).driver, Answer(d, e).driver;
      && after.recoveryCounter == p.recoveryCounter && after.rnackCounter == p.rnackCounter
      && after.timeoutCounter == p.timeoutCounter
  {
  }

  /** Any sound block clears the counters of garbage and of silence. */
  lemma SoundBlockClears(d: Driver, data: seq<byte>, pcb: nat)
    requires Sound(data, pcb)
    ensures Answer(d, Block(data)).driver.timeoutCounter == 0 && Answer(d, Block(data)).driver.rnackCounter == 0
  {
    AnswerKeepsCounters(d, Block(data));
    DecodeClears(Heard(d), data);
  }

  lemma DecodeClears(d: Driver, data: seq<byte>)
    requires |data| >= 4 && d.timeoutCounter == 0 && d.rnackCounter == 0
    ensures Decode(d, data).timeoutCounter == 0 && Decode(d, data).rnackCounter == 0
  {
  }

  /** An error-free R-block clears the counter of recoveries, one with an error code counts one more. */
  lemma RBlockCounts(d: Driver, data: seq<byte>, number: Bit, error: nat)
    requires error < 4 && Sound(data, 0x80 + 0x10 * number + error)
    ensures Answer(d, Block(data)).driver.recoveryCounter == if error == 0 then 0 else CountedUp(d.recoveryCounter)
  {
    AnswerKeepsCounters(d, Block(data));
    RProcessed(d, data, number, error);
    RDecodeCounts(Heard(d), data[1], number, error);
  }

  lemma RDecodeCounts(d: Driver, pcb: byte, number: Bit, error: nat)
    requires error < 4 && pcb == 0x80 + 0x10 * number + error
    ensures DecodeRBlock(d, pcb).recoveryCounter == if error == 0 then 0 else CountedUp(d.recoveryCounter)
  {
    RBits(pcb, number, error);
  }

  /** A new chunk clears it, a repeated one counts one more. */
  lemma ChunkCounts(d: Driver, data: seq<byte>, number: Bit, more: bool)
    requires Sound(data, 0x40 * number + if more then 0x20 else 0)
    ensures Answer(d, Block(data)).driver.recoveryCounter
         == if number == d.lastRx.iframe.seqNo then CountedUp(d.recoveryCounter) else 0
  {
    AnswerKeepsCounters(d, Block(data));
    ChunkDecoded(d, data, number, more);
    ChunkDecodeCounts(Heard(d), data[1], number, more, data[3..|data| - 1]);
  }

  lemma ChunkDecoded(d: Driver, data: seq<byte>, number: Bit, more: bool)
    requires Sound(data, 0x40 * number + if more then 0x20 else 0)
    ensures Process(d, Block(data)).driver == DecodeIBlock(Heard(d), data[1], data[3..|data| - 1])
  {
    assert EseBit(data[1], 7) == 0;
  }

  lemma ChunkDecodeCounts(d: Driver, pcb: byte, number: Bit, more: bool, inf: seq<byte>)
    requires pcb == 0x40 * number + if more then 0x20 else 0
    ensures DecodeIBlock(d, pcb, inf).recoveryCounter
         == if number == d.lastRx.iframe.seqNo then CountedUp(d.recoveryCounter) else 0
  {
    assert EseBit(pcb, 6) == number;
  }

  /** Garbage is counted up to two, silence up to three; either counter is cleared when the driver gives up, and a block
      that is no more than garbage breaks the silence. */
  lemma NoiseCounts(d: Driver, e: RxEvent)
    requires WholeBlock(e) && (e.Block? ==> !LrcOk(e.data))
    ensures var granted := d.lastTx.kind == SFrame && (d.lastTx.sframe == WtxRsp || d.lastTx.sframe == ResynchRsp);
      var after := Answer(d, e).driver;
      if e.Silence? && !granted then
        && after.rnackCounter == d.rnackCounter
        && after.timeoutCounter == if d.timeoutCounter < 3 then d.timeoutCounter + 1 else 0
      else
        && after.rnackCounter == (if d.rnackCounter < 2 then d.rnackCounter + 1 else 0)
        && after.timeoutCounter == if e.Block? || d.rnackCounter >= 2 then 0 else d.timeoutCounter
  {
    AnswerKeepsCounters(d, e);
  }

  // ---------- a reset ----------

  /** A reset forgets whatever was under way: idle, no buffer held, every number 1, every counter zero. */
  lemma ResetForgets(d: Driver)
    ensures var after := ResetParams(d);
      && after.state == Idle && after.lastFrame == UnknownFrame
      && after.lastTx.kind == InvalidFrame && after.nextTx.kind == InvalidFrame && after.lastRx.kind == InvalidFrame
      && !after.lastTx.iframe.present && !after.nextTx.iframe.present
      && after.lastTx.iframe.data == [] && after.nextTx.iframe.data == []
      && after.lastTx.iframe.seqNo == 1 && after.nextTx.iframe.seqNo == 1 && after.lastRx.iframe.seqNo == 1
      && after.recoveryCounter == 0 && after.timeoutCounter == 0 && after.rnackCounter == 0
      && after.recvData == d.recvData
  {
  }

  /** The first block behind a reset has the number 0, whatever came before. */
  lemma FirstNumberAfterReset(d: Driver, apdu: seq<byte>)
    requires apdu != []
    ensures var sent := Send(ResetParams(d), apdu);
      && sent.ok && sent.driver.lastTx.iframe.seqNo == 0 && sent.driver.lastTx.iframe.data == apdu
      && sent.driver.lastTx.iframe.offset == 0
  {
  }
}
