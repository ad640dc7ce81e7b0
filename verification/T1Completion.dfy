/** Exactly when an exchange in progress can still be completed by some behaviour of card and link. */
module T1Completion {
  import opened Bytes
  import opened T1
  import opened T1Answers
  import opened T1Link
  import opened T1Progress
  import opened T1Recovery

  ghost predicate Completes(setup: Setup, link: Link, run: seq<Happening>, last: Happening)
    requires ValidSetup(setup)
  {
    && PossibleRun(setup, link, run)
    && var before := RunLink(setup, link, run);
       before.host.state != Idle && Possible(setup, before, last) && LastChunkArrives(setup, before, last)
  }

  ghost predicate CanComplete(setup: Setup, link: Link)
    requires ValidSetup(setup)
  {
    exists run, last :: Completes(setup, link, run, last)
  }

  /** lastFrame names the kind of the last frame sent, except that an error R-block leaves it alone. */
  predicate FrameNoted(d: Driver)
  {
    match d.state
    case SendIFrame => d.lastFrame == IFrame
    case SendSFrame => d.lastFrame == SFrame
    case SendRFrame => d.lastTx.rframe.error == NoError ==> d.lastFrame == RFrame
    case Idle => true
  }

  /** The card has the block under the cursor or is about to get it; or the host last sent that block or error R-blocks
      in its place, and the card can still nack it. */
  predicate Repairable(setup: Setup, link: Link)
  {
    || |Hearing(setup, link).accepted| == CursorOf(link.host) + 1
    || (link.host.state == SendRFrame && link.host.lastFrame == IFrame
        && (link.host.recoveryCounter < FrameRetryCount || CursorOf(link.host) > 0))
  }

  // ---------- what can be repaired is repaired ----------

  lemma AliveCompletes(setup: Setup, link: Link)
    requires Alive(setup, link)
    ensures CanComplete(setup, link)
  {
    var run, last := LosslessRunCompletes(setup, link);
    assert Completes(setup, link, run, last);
  }

  lemma CompletesAfter(setup: Setup, link: Link, h: Happening)
    requires ValidSetup(setup) && link.host.state != Idle && Possible(setup, link, h)
    requires CanComplete(setup, Step(setup, link, h))
    ensures CanComplete(setup, link)
  {
    var next := Step(setup, link, h);
    var run, last :| Completes(setup, next, run, last);
    var longer := [h] + run;
    assert longer[1..] == run && RunLink(setup, link, longer) == RunLink(setup, next, run);
    assert Completes(setup, link, longer, last);
  }

  /** The card says this without having heard the frame. */
  function Unheard(block: CardBlock): Happening
  {
    Happening(false, false, block, true, Silence, true)
  }

  /** A nack brings the block again. */
  lemma NackRepairs(setup: Setup, link: Link)
    requires ValidSetup(setup) && InExchange(setup, link) && |link.card.accepted| == CursorOf(link.host)
    requires link.host.state == SendRFrame && link.host.lastFrame == IFrame
    requires link.host.recoveryCounter < FrameRetryCount
    ensures CanComplete(setup, link)
  {
    var h := Unheard(CardR(link.host.lastTx.iframe.seqNo, 1));
    NackReady(setup, link, h.answer, EventOf(setup, link, h));
    RoundLeaves(setup, link, h, CursorOf(link.host), 0);
    AliveAfterAck(setup, Step(setup, link, h), CursorOf(link.host), link.card);
    AliveCompletes(setup, Step(setup, link, h));
    CompletesAfter(setup, link, h);
  }

  lemma NackReady(setup: Setup, link: Link, block: CardBlock, e: RxEvent)
    requires ValidSetup(setup) && InExchange(setup, link) && |link.card.accepted| == CursorOf(link.host)
    requires link.host.state == SendRFrame && link.host.lastFrame == IFrame
    requires link.host.recoveryCounter < FrameRetryCount
    requires block == CardR(link.host.lastTx.iframe.seqNo, 1) && e == Block(EncodeCard(setup.address, block))
    ensures var p := Process(link.host, e).driver;
      p.state == SendIFrame && Ready(setup, p, CursorOf(link.host), 0)
  {
    RBlockKeeps(setup, link.host, link.wire, block, CursorOf(link.host), 0, CursorOf(link.host));
    REncoded(setup.address, block);
    NackState(link.host, e.data, block.expected, block.error);
  }

  lemma NackState(d: Driver, data: seq<byte>, number: Bit, error: nat)
    requires error == 1 && Sound(data, 0x80 + 0x10 * number + error) && number == d.lastTx.iframe.seqNo
    requires d.lastTx.kind == RFrame && d.lastFrame == IFrame && d.recoveryCounter < FrameRetryCount
    ensures Process(d, Block(data)).driver.state == SendIFrame
  {
    RProcessed(d, data, number, error);
    RBits(data[1], number, error);
  }

  /** An ack of the block before clears the recovery counter. */
  lemma AckRepairs(setup: Setup, link: Link)
    requires ValidSetup(setup) && InExchange(setup, link) && |link.card.accepted| == CursorOf(link.host) > 0
    requires link.host.state == SendRFrame && link.host.lastFrame == IFrame && FrameNoted(link.host)
    ensures CanComplete(setup, link)
  {
    var h := Unheard(CardR(link.card.expected, 0));
    StaleReady(setup, link, h.answer, EventOf(setup, link, h));
    RoundLeaves(setup, link, h, CursorOf(link.host), 0);
    NackRepairs(setup, Step(setup, link, h));
    CompletesAfter(setup, link, h);
  }

  lemma StaleReady(setup: Setup, link: Link, block: CardBlock, e: RxEvent)
    requires ValidSetup(setup) && InExchange(setup, link) && |link.card.accepted| == CursorOf(link.host)
    requires link.host.state == SendRFrame && link.host.lastFrame == IFrame && FrameNoted(link.host)
    requires block == CardR(link.card.expected, 0) && e == Block(EncodeCard(setup.address, block))
    ensures var p := Process(link.host, e).driver;
      && p.state == SendRFrame && Ready(setup, p, CursorOf(link.host), 0)
      && Transmit(p).driver.lastFrame == IFrame && Transmit(p).driver.recoveryCounter == 0
  {
    RBlockKeeps(setup, link.host, link.wire, block, CursorOf(link.host), 0, CursorOf(link.host));
    REncoded(setup.address, block);
    StaleState(link.host, e.data, block.expected, block.error);
    KeepsNote(link.host, Process(link.host, e).driver);
  }

  lemma StaleState(d: Driver, data: seq<byte>, number: Bit, error: nat)
    requires error == 0 && Sound(data, 0x80 + 0x10 * number + error) && number == d.lastTx.iframe.seqNo
    ensures var p := Process(d, Block(data)).driver;
      && p.state == d.state && p.nextTx == d.nextTx && p.lastFrame == d.lastFrame && p.recoveryCounter == 0
  {
    RProcessed(d, data, number, error);
    RBits(data[1], number, error);
  }

  lemma KeepsNote(d: Driver, p: Driver)
    requires d.state == SendRFrame && d.lastFrame == IFrame && FrameNoted(d) && d.lastTx == d.nextTx
    requires p.state == d.state && p.nextTx == d.nextTx && p.lastFrame == d.lastFrame
    ensures Transmit(p).driver.lastFrame == IFrame && Transmit(p).driver.recoveryCounter == p.recoveryCounter
  {
  }

  /** A card that repeats a chunk learns from an error R-block that the host has it, whatever the recovery counter. */
  lemma BehindRepairs(setup: Setup, link: Link)
    requires ValidSetup(setup) && InExchange(setup, link) && Behind(setup, link)
    requires |Hearing(setup, link).accepted| == CursorOf(link.host) + 1
    ensures CanComplete(setup, link)
  {
    var h := Happening(true, false, CardS(1), true, Silence, true);
    HearingKeeps(setup, link);
    QuietReady(setup, link, h.answer, EventOf(setup, link, h));
    RoundLeaves(setup, link, h, CursorOf(link.host), |link.host.recvData|);
    GarbleRepairs(setup, Step(setup, link, h));
    CompletesAfter(setup, link, h);
  }

  /** An S-block that means nothing clears the nack counter. */
  lemma QuietReady(setup: Setup, link: Link, block: CardBlock, e: RxEvent)
    requires ValidSetup(setup) && InExchange(setup, link)
    requires block == CardS(1) && e == Block(EncodeCard(setup.address, block))
    ensures var p := Process(link.host, e).driver;
      && p.state == link.host.state && Ready(setup, p, CursorOf(link.host), |link.host.recvData|)
      && Transmit(p).driver.rnackCounter == 0
  {
    SBlockKeeps(setup, link.host, link.wire, block.code, CursorOf(link.host), |link.host.recvData|);
    SEncoded(setup.address, block);
    QuietState(link.host, e.data);
  }

  lemma SEncoded(address: byte, block: CardBlock)
    requires block.CardS? && 0 < block.code < 0x40
    ensures Sound(EncodeCard(address, block), 0xC0 + block.code)
  {
    SealedParses([address, 0xC0 + block.code, 0]);
  }

  lemma QuietState(d: Driver, data: seq<byte>)
    requires Sound(data, 0xC1)
    ensures var p := Process(d, Block(data)).driver;
      p.state == d.state && (p.state != Idle ==> Transmit(p).driver.rnackCounter == 0)
  {
    assert EseBit(data[1], 7) == 1 && EseBit(data[1], 6) == 1;
  }

  lemma GarbleRepairs(setup: Setup, link: Link)
    requires ValidSetup(setup) && InExchange(setup, link) && link.host.rnackCounter == 0
    requires link.card.complete && |link.host.recvData| == link.card.current + 1
    requires |link.card.accepted| == CursorOf(link.host) + 1
    ensures CanComplete(setup, link)
  {
    var h := Happening(false, false, CardS(1), false, Block(Garbled()), true);
    GarbledAndRefusal();
    var k, r := CursorOf(link.host), |link.host.recvData|;
    NoiseKeeps(setup, link.host, link.wire, h.otherwise, k, r);
    RoundLeaves(setup, link, h, k, r);
    AliveAfterChunk(setup, Step(setup, link, h), k, r, link.card);
    AliveCompletes(setup, Step(setup, link, h));
    CompletesAfter(setup, link, h);
  }

  lemma RepairableCompletes(setup: Setup, link: Link)
    requires ValidSetup(setup) && InExchange(setup, link) && FrameNoted(link.host) && Repairable(setup, link)
    ensures CanComplete(setup, link)
  {
    if |Hearing(setup, link).accepted| == CursorOf(link.host) + 1 {
      if Alive(setup, link) {
        AliveCompletes(setup, link);
      } else {
        BehindRepairs(setup, link);
      }
    } else {
      NotTaken(setup, link);
      if link.host.recoveryCounter < FrameRetryCount {
        NackRepairs(setup, link);
      } else {
        AckRepairs(setup, link);
      }
    }
  }

  lemma NotTaken(setup: Setup, link: Link)
    requires ValidSetup(setup) && InExchange(setup, link)
    requires |Hearing(setup, link).accepted| != CursorOf(link.host) + 1
    ensures |link.card.accepted| == CursorOf(link.host) && link.host.state != SendIFrame
  {
    HearingKeeps(setup, link);
    if link.host.state == SendIFrame {
      BlockBrought(setup, link);
    }
  }

  // ---------- what cannot be repaired stays so ----------

  /** The host has nothing that would make it send the block under the cursor again. */
  predicate Mute(d: Driver, k: nat)
  {
    && (d.state == SendRFrame || d.state == SendSFrame) && StateMatches(d.state, d.lastTx.kind) && FrameNoted(d)
    && (d.state == SendRFrame && d.lastFrame == IFrame ==> k == 0 && d.recoveryCounter >= FrameRetryCount)
  }

  /** The same of what the host is about to send. */
  predicate MutePending(d: Driver, p: Driver, k: nat)
  {
    p.state != Idle ==>
      && (p.state == SendRFrame || p.state == SendSFrame) && StateMatches(p.state, p.nextTx.kind)
      && p.nextTx.iframe == d.lastTx.iframe
      && (p.state == SendRFrame && p.lastFrame == IFrame ==> k == 0 && p.recoveryCounter >= FrameRetryCount)
  }

  /** The card lacks the block under the cursor and nothing brings it. */
  ghost predicate Lost(setup: Setup, link: Link)
  {
    InExchange(setup, link) && |link.card.accepted| == CursorOf(link.host) && Mute(link.host, CursorOf(link.host))
  }

  /** A mute driver between rounds has its last frame pending. */
  predicate MuteRound(d: Driver, k: nat)
  {
    Mute(d, k) && d.nextTx == d.lastTx
  }

  lemma MuteNoise(d: Driver, e: RxEvent, k: nat)
    requires MuteRound(d, k) && WholeBlock(e) && (e.Block? ==> !LrcOk(e.data))
    ensures MutePending(d, Process(d, e).driver, k)
  {
    if e.Silence? {
      MuteNothing(d, false, k);
    } else if e.BadAddress? {
      MuteNothing(d, true, k);
    } else {
      MuteAsks(d.(timeoutCounter := 0), Parity, k);
    }
  }

  lemma MuteAsks(d: Driver, error: RError, k: nat)
    requires MuteRound(d, k)
    ensures MutePending(d, Nack(d, error), k)
  {
  }

  lemma MuteNothing(d: Driver, badAddress: bool, k: nat)
    requires MuteRound(d, k)
    ensures MutePending(d, NoBlock(d, badAddress), k)
  {
    MuteAsks(d, OtherError, k);
  }

  lemma MuteNack(d: Driver, data: seq<byte>, number: Bit, error: nat, k: nat)
    requires MuteRound(d, k) && 0 < error < 4 && Sound(data, 0x80 + 0x10 * number + error)
    ensures MutePending(d, Process(d, Block(data)).driver, k)
  {
    RProcessed(d, data, number, error);
    MuteNackDecodes(Heard(d), data[1], number, error, k);
  }

  lemma MuteNackDecodes(d: Driver, pcb: byte, number: Bit, error: nat, k: nat)
    requires MuteRound(d, k) && 0 < error < 4 && pcb == 0x80 + 0x10 * number + error
    ensures MutePending(d, DecodeRBlock(d, pcb), k)
  {
    RBits(pcb, number, error);
  }

  lemma MuteAck(d: Driver, data: seq<byte>, number: Bit, error: nat, k: nat)
    requires MuteRound(d, k) && k > 0 && error == 0 && Sound(data, 0x80 + 0x10 * number + error)
    requires number == d.lastTx.iframe.seqNo
    ensures MutePending(d, Process(d, Block(data)).driver, k)
  {
    StaleState(d, data, number, error);
  }

  lemma MuteS(d: Driver, data: seq<byte>, code: nat, k: nat)
    requires MuteRound(d, k) && 0 < code < 0x40 && Sound(data, 0xC0 + code)
    ensures MutePending(d, Process(d, Block(data)).driver, k)
  {
    assert EseBit(data[1], 7) == 1 && EseBit(data[1], 6) == 1;
    MuteSDecodes(Heard(d), data[1], code, k);
  }

  lemma MuteSDecodes(d: Driver, pcb: byte, code: nat, k: nat)
    requires MuteRound(d, k) && 0 < code < 0x40 && pcb == 0xC0 + code
    ensures MutePending(d, DecodeSBlock(d, pcb), k)
  {
  }

  lemma LostHears(setup: Setup, link: Link, h: Happening)
    requires ValidSetup(setup) && Lost(setup, link)
    ensures CardAfter(setup, link, h) == link.card && !link.card.complete
  {
    if link.host.state == SendRFrame {
      RFrameParses(link.host.sendAddress, link.host.lastTx.rframe.error, Flip(link.host.lastRx.iframe.seqNo));
    } else {
      SFrameParses(link.host.sendAddress, link.host.lastTx.sframe);
    }
  }

  lemma LostPending(setup: Setup, link: Link, h: Happening)
    requires ValidSetup(setup) && Lost(setup, link) && Possible(setup, link, h)
    ensures MutePending(link.host, Process(link.host, EventOf(setup, link, h)).driver, CursorOf(link.host))
    ensures !LastChunkArrives(setup, link, h)
  {
    var d, k := link.host, CursorOf(link.host);
    LostHears(setup, link, h);
    if !h.arrives {
      MuteNoise(d, h.otherwise, k);
    } else {
      match h.answer
      case CardI(_, _, _) => assert false;
      case CardR(expected, error) =>
        REncoded(setup.address, h.answer);
        if error == 0 {
          MuteAck(d, EncodeCard(setup.address, h.answer), expected, error, k);
        } else {
          MuteNack(d, EncodeCard(setup.address, h.answer), expected, error, k);
        }
      case CardS(code) =>
        SEncoded(setup.address, h.answer);
        MuteS(d, EncodeCard(setup.address, h.answer), code, k);
    }
  }

  lemma MuteSends(d: Driver, e: RxEvent, busOk: bool, k: nat)
    requires WholeBlock(e) && MutePending(d, Process(d, e).driver, k)
    ensures var next := HostRound(d, e, busOk).driver;
      next.state != Idle ==> Mute(next, k) && next.lastTx.iframe == d.lastTx.iframe
  {
  }

  lemma LostStays(setup: Setup, link: Link, h: Happening)
    requires ValidSetup(setup) && Lost(setup, link) && Possible(setup, link, h)
    ensures !LastChunkArrives(setup, link, h)
    ensures Step(setup, link, h).host.state != Idle ==> Lost(setup, Step(setup, link, h))
  {
    LostPending(setup, link, h);
    MuteSends(link.host, EventOf(setup, link, h), h.busOk, CursorOf(link.host));
    LostHears(setup, link, h);
    StepKeeps(setup, link, h);
  }

  lemma {:induction false} LostNeverCompletes(setup: Setup, link: Link, run: seq<Happening>, last: Happening)
    requires ValidSetup(setup) && Lost(setup, link)
    ensures !Completes(setup, link, run, last)
    decreases |run|
  {
    if Completes(setup, link, run, last) {
      if run == [] {
        LostStays(setup, link, last);
      } else {
        LostStays(setup, link, run[0]);
        if Step(setup, link, run[0]).host.state == Idle {
          IdleRunIsOver(setup, Step(setup, link, run[0]), run[1..]);
        } else {
          LostNeverCompletes(setup, Step(setup, link, run[0]), run[1..], last);
        }
      }
    }
  }

  lemma IdleRunIsOver(setup: Setup, link: Link, run: seq<Happening>)
    requires ValidSetup(setup) && link.host.state == Idle && PossibleRun(setup, link, run)
    ensures run == [] && RunLink(setup, link, run).host.state == Idle
  {
  }

  lemma UnrepairableIsLost(setup: Setup, link: Link)
    requires ValidSetup(setup) && InExchange(setup, link) && FrameNoted(link.host) && !Repairable(setup, link)
    ensures Lost(setup, link)
  {
    NotTaken(setup, link);
  }

  lemma CanCompleteExactly(setup: Setup, link: Link)
    requires ValidSetup(setup) && InExchange(setup, link) && FrameNoted(link.host)
    ensures CanComplete(setup, link) <==> Repairable(setup, link)
  {
    if Repairable(setup, link) {
      RepairableCompletes(setup, link);
    } else if CanComplete(setup, link) {
      UnrepairableIsLost(setup, link);
      var run, last :| Completes(setup, link, run, last);
      LostNeverCompletes(setup, link, run, last);
    }
  }

  // ---------- at any point of any exchange ----------

  lemma NoteKept(d: Driver, e: RxEvent, busOk: bool)
    requires WholeBlock(e)
    ensures FrameNoted(HostRound(d, e, busOk).driver)
  {
  }

  lemma {:induction false} NoteAlways(setup: Setup, link: Link, run: seq<Happening>)
    requires ValidSetup(setup) && PossibleRun(setup, link, run) && FrameNoted(link.host)
    ensures FrameNoted(RunLink(setup, link, run).host)
    decreases |run|
  {
    if run != [] {
      NoteKept(link.host, EventOf(setup, link, run[0]), run[0].busOk);
      NoteAlways(setup, Step(setup, link, run[0]), run[1..]);
    }
  }

  /** At any point of any exchange that is still going on: some behaviour of card and link completes it, if and only if
      the card has the block under the host's cursor or is being sent it, or the host last sent that block or error
      R-blocks in its place and can still be nacked. */
  lemma CompletableExactly(setup: Setup, idle: Driver, link: Link, run: seq<Happening>)
    requires Begins(setup, idle, link) && PossibleRun(setup, link, run) && RunLink(setup, link, run).host.state != Idle
    ensures CanComplete(setup, RunLink(setup, link, run)) <==> Repairable(setup, RunLink(setup, link, run))
  {
    BeginKeeps(setup, idle, link);
    RunKeeps(setup, link, run);
    NoteAlways(setup, link, run);
    CanCompleteExactly(setup, RunLink(setup, link, run));
  }

  /** It happens: a card that asks for more time before it has the first block never gets that block. */
  lemma GrantLosesBlock(setup: Setup, idle: Driver, link: Link)
    requires Begins(setup, idle, link)
    ensures Possible(setup, link, Unheard(CardS(3)))
    ensures var next := Step(setup, link, Unheard(CardS(3))); next.host.state == SendSFrame && !CanComplete(setup, next)
  {
    var h := Unheard(CardS(3));
    BeginsAtZero(setup, idle, link);
    GrantReady(setup, link, h.answer, EventOf(setup, link, h));
    RoundLeaves(setup, link, h, 0, 0);
    NoteKept(link.host, EventOf(setup, link, h), h.busOk);
    BlockStaysAway(setup, Step(setup, link, h));
  }

  lemma BeginsAtZero(setup: Setup, idle: Driver, link: Link)
    requires Begins(setup, idle, link)
    ensures InExchange(setup, link) && link.host.state == SendIFrame
    ensures CursorOf(link.host) == |link.host.recvData| == 0 && link.card.accepted == [] && !link.card.complete
  {
    BeginKeeps(setup, idle, link);
  }

  lemma BlockStaysAway(setup: Setup, link: Link)
    requires ValidSetup(setup) && InExchange(setup, link) && FrameNoted(link.host)
    requires link.host.state == SendSFrame && |link.card.accepted| == CursorOf(link.host)
    ensures !CanComplete(setup, link)
  {
    LostHears(setup, link, Unheard(CardS(1)));
    SFrameParses(link.host.sendAddress, link.host.lastTx.sframe);
    CanCompleteExactly(setup, link);
  }

  lemma GrantReady(setup: Setup, link: Link, block: CardBlock, e: RxEvent)
    requires ValidSetup(setup) && InExchange(setup, link) && link.host.state == SendIFrame
    requires CursorOf(link.host) == |link.host.recvData| == 0
    requires block == CardS(3) && e == Block(EncodeCard(setup.address, block))
    ensures Process(link.host, e).driver.state == SendSFrame && Ready(setup, Process(link.host, e).driver, 0, 0)
  {
    SBlockKeeps(setup, link.host, link.wire, block.code, 0, 0);
    SEncoded(setup.address, block);
    GrantState(link.host, e.data);
  }

  lemma GrantState(d: Driver, data: seq<byte>)
    requires Sound(data, 0xC3) && d.lastTx.kind == IFrame
    ensures Process(d, Block(data)).driver.state == SendSFrame
  {
    assert EseBit(data[1], 7) == 1 && EseBit(data[1], 6) == 1;
  }

  /** A card that nacks the block under the host's cursor and hears the next round has one chunk more. */
  lemma NackedBlockArrives(setup: Setup, link: Link, number: Bit, error: nat)
    requires ValidSetup(setup) && InExchange(setup, link) && |link.card.accepted| == CursorOf(link.host)
    requires link.host.recoveryCounter < FrameRetryCount && (error == 1 || error == 2)
    requires BringsBlock(link.host, number)
    ensures Possible(setup, link, Unheard(CardR(number, error)))
    ensures var next := Step(setup, link, Unheard(CardR(number, error)));
      && next.wire == EncodeIFrame(link.host.sendAddress, link.host.lastTx.iframe)
      && Hearing(setup, next).accepted == link.card.accepted + [ChunkAt(setup.apdu, CursorOf(link.host))]
  {
    var h, k := Unheard(CardR(number, error)), CursorOf(link.host);
    NackedReady(setup, link, h.answer, EventOf(setup, link, h));
    RoundLeaves(setup, link, h, k, 0);
    ChunkBrought(setup, Step(setup, link, h), k);
    AnswerToNack(link.host, EncodeCard(setup.address, h.answer), number, error);
  }

  lemma NackedReady(setup: Setup, link: Link, block: CardBlock, e: RxEvent)
    requires ValidSetup(setup) && InExchange(setup, link) && |link.card.accepted| == CursorOf(link.host)
    requires link.host.recoveryCounter < FrameRetryCount && block.CardR? && (block.error == 1 || block.error == 2)
    requires BringsBlock(link.host, block.expected) && e == Block(EncodeCard(setup.address, block))
    ensures var p := Process(link.host, e).driver;
      p.state == SendIFrame && Ready(setup, p, CursorOf(link.host), 0)
    ensures Talking(link.host) && Sound(EncodeCard(setup.address, block), 0x80 + 0x10 * block.expected + block.error)
  {
    RBlockKeeps(setup, link.host, link.wire, block, CursorOf(link.host), 0, CursorOf(link.host));
    REncoded(setup.address, block);
    NackProcessed(link.host, e.data, block.expected, block.error);
  }

  lemma ChunkBrought(setup: Setup, link: Link, k: nat)
    requires ValidSetup(setup) && Leaves(setup, link, SendIFrame, k, 0, link.card) && |link.card.accepted| == k
    ensures Hearing(setup, link).accepted == link.card.accepted + [ChunkAt(setup.apdu, k)]
  {
    IFrameParses(setup, link.host.sendAddress, k);
  }
}
