/** kernel/files/snvm/protocol/ese_iso7816_t1.c: exchanges that fail, and what they leave for the next one. */
module T1Failure {
  import opened Bytes
  import opened T1
  import opened T1Link
  import opened T1Session
  import opened StarSpec
  import opened T1Cursor
  import opened T1Recovery

  // ---------- a first frame that does not go out ----------

  /** The first I-block of an APDU; without a byte to send when the APDU is empty. */
  function FirstIFrame(apdu: seq<byte>, seqNo: Bit): IInfo
  {
    var long := |apdu| > SendSize;
    IInfo(true, apdu, 0, if long then |apdu| - SendSize else |apdu|, if long then SendSize else |apdu|, long, seqNo)
  }

  /** The driver was handed an APDU whose first frame did not go out, and still means to send it. */
  predicate Holding(d: Driver)
  {
    && d.state == SendIFrame && d.lastTx == d.nextTx && d.lastTx.kind == IFrame
    && d.lastTx.iframe == FirstIFrame(d.lastTx.iframe.data, d.lastTx.iframe.seqNo)
    && (d.lastTx.iframe.data != [] ==> d.lastFrame == IFrame)
  }

  /** The driver between two calls: iso7816_t1_receive always ends idle, a failed iso7816_t1_send does not. */
  predicate BetweenCalls(d: Driver)
  {
    d.state == Idle || Holding(d)
  }

  /** The APDU a send call is about, whichever it was given. */
  function Carried(d: Driver, apdu: seq<byte>): seq<byte>
  {
    if d.state == Idle then apdu else d.lastTx.iframe.data
  }

  /** The idle driver that would be holding this APDU after being handed it. */
  function Settled(d: Driver): Driver
  {
    if d.state == Idle then d
    else
      d.(state := Idle, lastTx := d.lastTx.(iframe := d.lastTx.iframe.(seqNo := Flip(d.lastTx.iframe.seqNo))))
  }

  /** A send between two calls acts as that of an idle driver for the APDU carried. It fails without the bus exactly
      when that APDU is empty, and unless a receive follows the driver holds that APDU from then on. */
  lemma SendActsFor(d: Driver, apdu: seq<byte>)
    requires BetweenCalls(d)
    ensures Send(d, apdu) == Send(Settled(d), Carried(d, apdu)) && Settled(d).state == Idle
    ensures Send(d, apdu).ok <==> Carried(d, apdu) != []
    ensures Holding(Send(d, apdu).driver) && Send(d, apdu).driver.lastTx.iframe.data == Carried(d, apdu)
  {
  }

  /** Calls whose frames the bus refuses, one after the other. */
  function Refused(d: Driver, apdus: seq<seq<byte>>): Driver
    decreases |apdus|
  {
    if apdus == [] then d else Refused(Send(d, apdus[0]).driver, apdus[1..])
  }

  /** Only the first of them counts: a later call, whatever it is given, offers the bus that APDU's first frame again,
      and fails without the bus exactly when that APDU is empty. Nothing but a reset ends this, then. */
  lemma {:induction false} FirstRefusedStays(d: Driver, apdus: seq<seq<byte>>, apdu: seq<byte>)
    requires BetweenCalls(d) && apdus != []
    ensures var after, first := Refused(d, apdus), Carried(d, apdus[0]);
      && Holding(after) && after == Send(d, apdus[0]).driver
      && Send(after, apdu).frame == Send(d, apdus[0]).frame
      && (Send(after, apdu).ok <==> first != [])
    decreases |apdus|
  {
    SendActsFor(d, apdus[0]);
    var next := Send(d, apdus[0]).driver;
    HoldingStays(next, apdu);
    if |apdus| > 1 {
      HoldingStays(next, apdus[1]);
      FirstRefusedStays(next, apdus[1..], apdu);
      assert apdus[1..][0] == apdus[1];
    }
  }

  lemma HoldingStays(d: Driver, apdu: seq<byte>)
    requires Holding(d)
    ensures var ok := d.lastTx.iframe.data != [];
      Send(d, apdu) == Sent(d, if ok then EncodeIFrame(d.sendAddress, d.lastTx.iframe) else [], ok)
  {
  }

  /** A completed exchange after such calls executes the APDU that was asked for exactly if the driver was idle, or was
      asked for the APDU it was holding. */
  lemma ExecutesAskedExactly(d: Driver, card: Numbers, plan: Plan, address: byte)
    requires BetweenCalls(d) && Rested(Settled(d)) && Agree(Settled(d), card)
    requires Completes(Settled(d), card, plan.(apdu := Carried(d, plan.apdu)), address)
    ensures var carried := plan.(apdu := Carried(d, plan.apdu));
      && StartOf(Settled(d), card, carried).host == Send(d, plan.apdu).driver
      && StartOf(Settled(d), card, carried).wire == Send(d, plan.apdu).frame
      && (Flatten(EndOf(Settled(d), card, carried, address).card.accepted) == plan.apdu
          <==> d.state == Idle || d.lastTx.iframe.data == plan.apdu)
  {
    SendActsFor(d, plan.apdu);
    ExchangeAgrees(Settled(d), card, plan.(apdu := Carried(d, plan.apdu)), address);
  }

  // ---------- an exchange that breaks off ----------

  /** The round ends the exchange before the response is complete. */
  ghost predicate BreaksOff(setup: Setup, link: Link, h: Happening)
    requires ValidSetup(setup)
  {
    Possible(setup, link, h) && Step(setup, link, h).host.state == Idle && !LastChunkArrives(setup, link, h)
  }

  /** What a card goes on with that drops the unfinished exchange: the number it expects, and the one behind the chunk
      it sent last. */
  function NumbersOf(setup: Setup, card: Card): Numbers
  {
    Numbers(card.expected, if card.complete then Alternate(setup.cardFirst, card.current + 1) else setup.cardFirst)
  }

  /** Where the two ends stand after the break, the host idle. */
  ghost predicate Stopped(setup: Setup, end: Link, k: nat, r: nat)
  {
    && CardSide(setup, end.card, k, r) && |end.host.recvData| == r && CursorOf(end.host) == k
    && end.host.lastTx.iframe.seqNo == Alternate(setup.hostFirst, k)
    && end.host.lastRx.iframe.seqNo == Flip(Alternate(setup.cardFirst, r))
  }

  /** Going idle on anything but the end of the response moves no number. */
  predicate NumbersStay(d: Driver, p: Driver)
  {
    && p.lastTx == d.lastTx && p.recvData == d.recvData && p.lastRx.iframe.seqNo == d.lastRx.iframe.seqNo
  }

  predicate EndsResponse(d: Driver, pcb: byte)
  {
    EseBit(pcb, 6) != d.lastRx.iframe.seqNo && EseBit(pcb, 5) == 0
  }

  lemma IdleI(d: Driver, pcb: byte, inf: seq<byte>)
    requires !EndsResponse(d, pcb) && DecodeIBlock(d, pcb, inf).state == Idle
    ensures NumbersStay(d, DecodeIBlock(d, pcb, inf))
  {
  }

  lemma IdleR(d: Driver, pcb: byte)
    requires d.state != Idle && DecodeRBlock(d, pcb).state == Idle
    ensures NumbersStay(d, DecodeRBlock(d, pcb))
  {
  }

  lemma IdleS(d: Driver, pcb: byte)
    requires DecodeSBlock(d, pcb).state == Idle
    ensures NumbersStay(d, DecodeSBlock(d, pcb))
  {
  }

  lemma IdleNoise(d: Driver, e: RxEvent)
    requires WholeBlock(e) && (e.Block? ==> !LrcOk(e.data)) && Process(d, e).driver.state == Idle
    ensures NumbersStay(d, Process(d, e).driver)
  {
  }

  /** A sound block on which the driver gives the exchange up: a retry too many, or an S-block that ends it. */
  predicate GivesUp(d: Driver, block: CardBlock)
  {
    var spent := d.recoveryCounter >= FrameRetryCount;
    match block
    case CardI(seqNo, _, _) => seqNo == d.lastRx.iframe.seqNo && spent
    case CardR(_, error) => error != 0 && spent
    case CardS(code) =>
      code == 0x20 || code == 0x22 || (code == 0x03 && d.lastTx.kind == SFrame && d.lastTx.sframe != WtxRsp && spent)
  }

  lemma GivesUpI(d: Driver, seqNo: Bit, more: bool, inf: seq<byte>)
    requires seqNo == d.lastRx.iframe.seqNo || more
    ensures var p := DecodeIBlock(d, IPcb(seqNo, more), inf);
      && (p.state == Idle <==> GivesUp(d, CardI(seqNo, more, inf)))
      && (p.state == Idle ==> NumbersStay(d, p))
  {
    var pcb := IPcb(seqNo, more);
    assert EseBit(pcb, 6) == seqNo && (EseBit(pcb, 5) == 1 <==> more);
    if DecodeIBlock(d, pcb, inf).state == Idle {
      IdleI(d, pcb, inf);
    }
  }

  lemma GivesUpR(d: Driver, expected: Bit, error: nat)
    requires d.state != Idle && error < 4
    ensures var p := DecodeRBlock(d, 0x80 + 0x10 * expected + error);
      && (p.state == Idle <==> GivesUp(d, CardR(expected, error)))
      && (p.state == Idle ==> NumbersStay(d, p))
  {
    RBits(0x80 + 0x10 * expected + error, expected, error);
    if DecodeRBlock(d, 0x80 + 0x10 * expected + error).state == Idle {
      IdleR(d, 0x80 + 0x10 * expected + error);
    }
  }

  lemma GivesUpS(d: Driver, code: nat)
    requires d.state != Idle && 0 < code < 0x40
    ensures var p := DecodeSBlock(d, 0xC0 + code);
      && (p.state == Idle <==> GivesUp(d, CardS(code)))
      && (p.state == Idle ==> NumbersStay(d, p))
  {
    if DecodeSBlock(d, 0xC0 + code).state == Idle {
      IdleS(d, 0xC0 + code);
    }
  }

  lemma IdleOnBlock(d: Driver, address: byte, block: CardBlock)
    requires d.state != Idle
    requires match block
             case CardI(seqNo, more, inf) => |inf| <= 0xFF && (seqNo == d.lastRx.iframe.seqNo || more)
             case CardR(_, error) => error < 4
             case CardS(code) => 0 < code < 0x40
    ensures var p := Process(d, Block(EncodeCard(address, block)));
      && p.ok && (p.driver.state == Idle <==> GivesUp(d, block)) && (p.driver.state == Idle ==> NumbersStay(d, p.driver))
  {
    match block
    case CardI(seqNo, more, inf) =>
      HearI(d, address, block);
      GivesUpI(Heard(d), seqNo, more, inf);
    case CardR(expected, error) =>
      HearR(d, address, block);
      GivesUpR(Heard(d), expected, error);
    case CardS(code) =>
      HearS(d, address, code);
      GivesUpS(Heard(d), code);
  }

  /** Short of the end of the response the driver goes idle on a sound block exactly when it gives up on it. */
  lemma IdleExactly(setup: Setup, link: Link, h: Happening)
    requires ValidSetup(setup) && Possible(setup, link, h) && !LastChunkArrives(setup, link, h) && link.host.state != Idle
    ensures var p := Process(link.host, EventOf(setup, link, h));
      && p.ok == h.arrives
      && (p.driver.state == Idle ==> NumbersStay(link.host, p.driver))
      && (h.arrives ==> (p.driver.state == Idle <==> GivesUp(link.host, h.answer)))
  {
    if h.arrives {
      IdleOnBlock(link.host, setup.address, h.answer);
    } else if Process(link.host, h.otherwise).driver.state == Idle {
      IdleNoise(link.host, h.otherwise);
    }
  }

  lemma BreakKeeps(setup: Setup, link: Link, h: Happening) returns (k: nat, r: nat)
    requires ValidSetup(setup) && InExchange(setup, link) && BreaksOff(setup, link, h)
    ensures Stopped(setup, Step(setup, link, h), k, r) && r < |setup.response|
  {
    var p := Process(link.host, EventOf(setup, link, h)).driver;
    IdleExactly(setup, link, h);
    if p.state == Idle {
      k, r := CursorOf(link.host), |link.host.recvData|;
      CardKeeps(setup, link, h);
      IdleRound(link.host, EventOf(setup, link, h), h.busOk);
    } else {
      k, r := ProcessKeeps(setup, link, h);
      TransmitKeeps(setup, p, k, r);
    }
  }

  lemma NumbersMeet(setup: Setup, end: Link, k: nat, r: nat)
    requires Stopped(setup, end, k, r)
    ensures Agree(end.host, NumbersOf(setup, end.card))
      <==> |end.card.accepted| == CursorOf(end.host) + 1
           && (end.card.complete ==> |end.host.recvData| == end.card.current + 1)
  {
  }

  /** Both ends still agree on the next numbers after a break exactly if the card has taken the block under the host's
      cursor and the host has taken the chunk the card was sending. */
  lemma AgreeSurvivesExactly(setup: Setup, link: Link, h: Happening)
    requires ValidSetup(setup) && InExchange(setup, link) && BreaksOff(setup, link, h)
    ensures var end := Step(setup, link, h);
      Agree(end.host, NumbersOf(setup, end.card))
      <==> |end.card.accepted| == CursorOf(end.host) + 1
           && (end.card.complete ==> |end.host.recvData| == end.card.current + 1)
  {
    var k, r := BreakKeeps(setup, link, h);
    NumbersMeet(setup, Step(setup, link, h), k, r);
  }

  // ---------- what the caller is told ----------

  /** What iso7816_t1_receive hands over when this round has ended its loop. */
  function OutcomeOf(round: Round): Exchange
  {
    var bytes := Flatten(round.driver.recvData);
    if round.ok && bytes != [] then Received(bytes) else ReceiveFailed(bytes)
  }

  ghost function OutcomeAt(setup: Setup, link: Link, h: Happening): Exchange
    requires ValidSetup(setup) && Possible(setup, link, h)
  {
    OutcomeOf(HostRound(link.host, EventOf(setup, link, h), h.busOk))
  }

  /** A part of the response passes for all of it exactly when the driver gave up on a sound block while it held
      bytes. */
  lemma PartPassesForWholeExactly(setup: Setup, link: Link, h: Happening)
    requires ValidSetup(setup) && InExchange(setup, link) && BreaksOff(setup, link, h)
    ensures OutcomeAt(setup, link, h).Received?
      <==> h.arrives && GivesUp(link.host, h.answer) && Flatten(link.host.recvData) != []
    ensures Step(setup, link, h).host.recvData < setup.response
  {
    IdleExactly(setup, link, h);
    var k, r := ProcessKeeps(setup, link, h);
    var p := Process(link.host, EventOf(setup, link, h)).driver;
    if p.state != Idle {
      TransmitKeeps(setup, p, k, r);
    }
  }

  /** The card repeats the first chunk of its response because it did not hear the host ask for the second. */
  function Deaf(setup: Setup): Happening
    requires setup.response != []
  {
    Happening(false, false, CardI(setup.cardFirst, true, setup.response[0]), true, Silence, true)
  }

  /** The host holds the first chunk of a longer response and asks for the second. */
  ghost predicate AsksForSecond(setup: Setup, link: Link, spent: nat)
  {
    && ValidSetup(setup) && |setup.response| > 1 && InExchange(setup, link)
    && link.card.complete && link.card.current == 0 && |link.host.recvData| == 1
    && link.host.recoveryCounter == spent <= FrameRetryCount
  }

  lemma DeafRound(setup: Setup, link: Link, spent: nat)
    requires AsksForSecond(setup, link, spent)
    ensures Possible(setup, link, Deaf(setup)) && !LastChunkArrives(setup, link, Deaf(setup))
    ensures if spent < FrameRetryCount then AsksForSecond(setup, Step(setup, link, Deaf(setup)), spent + 1)
            else BreaksOff(setup, link, Deaf(setup)) && GivesUp(link.host, Deaf(setup).answer)
  {
    var h := Deaf(setup);
    StepKeeps(setup, link, h);
    IdleExactly(setup, link, h);
    HearI(link.host, setup.address, h.answer);
    assert EseBit(IPcb(setup.cardFirst, true), 6) == setup.cardFirst;
  }

  lemma {:induction false} DeafRounds(setup: Setup, link: Link, spent: nat) returns (run: seq<Happening>)
    requires AsksForSecond(setup, link, spent)
    ensures PossibleRun(setup, link, run) && AsksForSecond(setup, RunLink(setup, link, run), FrameRetryCount)
    decreases FrameRetryCount - spent
  {
    run := [];
    if spent < FrameRetryCount {
      DeafRound(setup, link, spent);
      var rest := DeafRounds(setup, Step(setup, link, Deaf(setup)), spent + 1);
      run := [Deaf(setup)] + rest;
      assert run[1..] == rest;
    }
  }

  /** It happens, with a conforming card, whatever the response of more than one chunk: the acks of the first chunk are
      lost until the retries are spent, and the caller gets that chunk as the response. */
  lemma FirstChunkPassesForResponse(setup: Setup, idle: Driver, link: Link) returns (run: seq<Happening>, last: Happening)
    requires Begins(setup, idle, link) && |setup.apdu| <= SendSize
    requires |setup.response| > 1 && setup.response[0] != []
    ensures PossibleRun(setup, link, run)
    ensures BreaksOff(setup, RunLink(setup, link, run), last)
    ensures OutcomeAt(setup, RunLink(setup, link, run), last) == Received(setup.response[0])
  {
    var first := Deaf(setup).(heard := true);
    FirstChunkTaken(setup, idle, link);
    var next := Step(setup, link, first);
    var rest := DeafRounds(setup, next, 0);
    run, last := [first] + rest, Deaf(setup);
    assert run[1..] == rest;
    BeginKeeps(setup, idle, link);
    DeafRound(setup, RunLink(setup, next, rest), FrameRetryCount);
    OneChunk(setup, RunLink(setup, next, rest));
  }

  /** A card that hears an APDU of one block goes over to its response. */
  lemma CardCompletes(setup: Setup, link: Link, h: Happening)
    requires ValidSetup(setup) && InExchange(setup, link) && |setup.apdu| <= SendSize && h.heard
    requires link.host.state == SendIFrame && link.card == Card(setup.hostFirst, [], false, 0)
    ensures CardAfter(setup, link, h).complete && CardAfter(setup, link, h).current == 0
  {
    IFrameParses(setup, link.host.sendAddress, 0);
  }

  lemma ChunkClearsRecovery(d: Driver, address: byte, block: CardBlock)
    requires block.CardI? && |block.inf| <= 0xFF && block.more && block.seqNo != d.lastRx.iframe.seqNo
    ensures var p := Process(d, Block(EncodeCard(address, block))).driver;
      && p.recoveryCounter == 0 && p.state == SendRFrame && p.recvData == d.recvData + [block.inf]
      && Transmit(p).ok && Transmit(p).driver.recoveryCounter == 0 && Transmit(p).driver.recvData == p.recvData
      && Transmit(p).driver.state == SendRFrame
  {
    HearI(d, address, block);
    var pcb := IPcb(block.seqNo, true);
    assert EseBit(pcb, 6) == block.seqNo && EseBit(pcb, 5) == 1;
  }

  lemma FirstChunkTaken(setup: Setup, idle: Driver, link: Link)
    requires Begins(setup, idle, link) && |setup.apdu| <= SendSize
    requires |setup.response| > 1
    ensures var first := Deaf(setup).(heard := true);
      Possible(setup, link, first) && AsksForSecond(setup, Step(setup, link, first), 0)
  {
    var first := Deaf(setup).(heard := true);
    BeginKeeps(setup, idle, link);
    CardCompletes(setup, link, first);
    ChunkClearsRecovery(link.host, setup.address, first.answer);
    StepKeeps(setup, link, first);
  }

  lemma OneChunk(setup: Setup, link: Link)
    requires AsksForSecond(setup, link, FrameRetryCount) && BreaksOff(setup, link, Deaf(setup))
    requires GivesUp(link.host, Deaf(setup).answer) && setup.response[0] != []
    ensures OutcomeAt(setup, link, Deaf(setup)) == Received(setup.response[0])
  {
    IdleExactly(setup, link, Deaf(setup));
    assert link.host.recvData == [setup.response[0]];
    assert Flatten([setup.response[0]]) == setup.response[0] + Flatten([]);
  }
}
