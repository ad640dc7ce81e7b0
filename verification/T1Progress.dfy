/** From where an exchange can still be completed, and how fast. */
module T1Progress {
  import opened Bytes
  import opened T1
  import opened T1Answers
  import opened T1Link
  import opened T1Recovery

  /** The card once it has heard what is on the wire. */
  function Hearing(setup: Setup, link: Link): Card
  {
    CardHears(setup, link.card, link.wire, false)
  }

  /** The host holds the chunk the card is sending, and the card has not heard so. */
  predicate Behind(setup: Setup, link: Link)
  {
    Hearing(setup, link).complete && |link.host.recvData| == Hearing(setup, link).current + 1
  }

  /** The next frame heard brings the card the block under the host's cursor, unless it has it, and a chunk the host has
      already can be refused once more. */
  ghost predicate Alive(setup: Setup, link: Link)
  {
    && ValidSetup(setup) && InExchange(setup, link)
    && |Hearing(setup, link).accepted| == CursorOf(link.host) + 1
    && (Behind(setup, link) ==> link.host.recoveryCounter < FrameRetryCount)
  }

  /** A round without a loss: the card hears the frame and acknowledges it or sends its chunk. */
  function Helpful(setup: Setup, link: Link): Happening
    requires Hearing(setup, link).current < |setup.response|
  {
    var card := Hearing(setup, link);
    Happening(true, false,
              if card.complete then
                CardI(Alternate(setup.cardFirst, card.current), card.current + 1 < |setup.response|,
                      setup.response[card.current])
              else CardR(card.expected, 0),
              true, Silence, true)
  }

  lemma HearingKeeps(setup: Setup, link: Link)
    requires ValidSetup(setup) && InExchange(setup, link)
    ensures CardSide(setup, Hearing(setup, link), CursorOf(link.host), |link.host.recvData|)
  {
    CardKeeps(setup, link, Happening(true, false, CardS(1), true, Silence, true));
  }

  /** An I-frame brings the card its block, if it lacks it. */
  lemma BlockBrought(setup: Setup, link: Link)
    requires ValidSetup(setup) && InExchange(setup, link) && link.host.state == SendIFrame
    ensures |Hearing(setup, link).accepted| == CursorOf(link.host) + 1
    ensures |link.card.accepted| == CursorOf(link.host) ==> Hearing(setup, link).current == 0
  {
    IFrameParses(setup, link.host.sendAddress, CursorOf(link.host));
  }

  /** An R-frame tells the card what the host waits for. */
  lemma AskHeard(setup: Setup, link: Link)
    requires ValidSetup(setup) && InExchange(setup, link) && link.host.state == SendRFrame && link.card.complete
    ensures Hearing(setup, link).complete && Hearing(setup, link).current == |link.host.recvData|
    ensures Hearing(setup, link).accepted == link.card.accepted
  {
    RFrameParses(link.host.sendAddress, link.host.lastTx.rframe.error, Alternate(setup.cardFirst, |link.host.recvData|));
  }

  // ---------- one round without a loss ----------

  /** What the round leaves. */
  ghost predicate Leaves(setup: Setup, next: Link, state: State, k: nat, r: nat, card: Card)
  {
    InExchange(setup, next) && next.host.state == state && CursorOf(next.host) == k && |next.host.recvData| == r
    && next.card == card
  }

  lemma RoundLeaves(setup: Setup, link: Link, h: Happening, k: nat, r: nat)
    requires ValidSetup(setup) && Possible(setup, link, h) && h.busOk
    requires Ready(setup, Process(link.host, EventOf(setup, link, h)).driver, k, r)
    requires CardSide(setup, CardAfter(setup, link, h), k, r)
    ensures var p := Process(link.host, EventOf(setup, link, h)).driver;
      && Leaves(setup, Step(setup, link, h), p.state, k, r, CardAfter(setup, link, h))
      && Step(setup, link, h).host == Transmit(p).driver
  {
    TransmitKeeps(setup, Process(link.host, EventOf(setup, link, h)).driver, k, r);
  }

  /** An R-block of the card, as the host finds it. */
  lemma REncoded(address: byte, block: CardBlock)
    requires block.CardR? && block.error < 4
    ensures Sound(EncodeCard(address, block), 0x80 + 0x10 * block.expected + block.error)
  {
    SealedParses([address, 0x80 + 0x10 * block.expected + block.error, 0]);
  }

  lemma IEncoded(address: byte, block: CardBlock)
    requires block.CardI? && |block.inf| <= 0xFF
    ensures Sound(EncodeCard(address, block), 0x40 * block.seqNo + if block.more then 0x20 else 0)
    ensures var data := EncodeCard(address, block); data[3..|data| - 1] == block.inf
  {
    var body := [address, IPcb(block.seqNo, block.more), |block.inf|] + block.inf;
    SealedParses(body);
    assert body[HeaderSize..] == block.inf;
  }

  lemma AckRound(setup: Setup, link: Link)
    requires Alive(setup, link) && !Hearing(setup, link).complete
    ensures Hearing(setup, link).current < |setup.response| && Possible(setup, link, Helpful(setup, link))
    ensures Leaves(setup, Step(setup, link, Helpful(setup, link)), SendIFrame, CursorOf(link.host) + 1, 0,
                   Hearing(setup, link))
    ensures |link.host.recvData| == 0
  {
    HearingKeeps(setup, link);
    var h := Helpful(setup, link);
    AckTaken(setup, link, Hearing(setup, link), h.answer, EventOf(setup, link, h));
    RoundLeaves(setup, link, h, CursorOf(link.host) + 1, 0);
  }

  lemma AckTaken(setup: Setup, link: Link, card: Card, block: CardBlock, e: RxEvent)
    requires ValidSetup(setup) && InExchange(setup, link) && !card.complete
    requires CardSide(setup, card, CursorOf(link.host), |link.host.recvData|)
    requires |card.accepted| == CursorOf(link.host) + 1
    requires block == CardR(card.expected, 0) && e == Block(EncodeCard(setup.address, block))
    ensures var p := Process(link.host, e).driver;
      && |link.host.recvData| == 0 && p.state == SendIFrame && Ready(setup, p, CursorOf(link.host) + 1, 0)
      && CardSide(setup, card, CursorOf(link.host) + 1, 0)
  {
    BlockFollows(setup, card, CursorOf(link.host), |link.host.recvData|);
    RBlockKeeps(setup, link.host, link.wire, block, CursorOf(link.host), 0, CursorOf(link.host) + 1);
    AckBringsBlock(link.host, setup.address, block, e);
  }

  lemma AckBringsBlock(d: Driver, address: byte, block: CardBlock, e: RxEvent)
    requires block.CardR? && block.error == 0 && block.expected != d.lastTx.iframe.seqNo
    requires e == Block(EncodeCard(address, block))
    ensures Process(d, e).driver.state == SendIFrame
  {
    REncoded(address, block);
    AckMoves(d, e.data, block.expected);
  }

  /** The card has the block under the cursor and waits for the one behind it. */
  lemma BlockFollows(setup: Setup, card: Card, k: nat, r: nat)
    requires ValidSetup(setup) && CardSide(setup, card, k, r) && !card.complete && |card.accepted| == k + 1
    ensures r == 0 && Remaining(setup.apdu, k + 1) > 0 && CardSide(setup, card, k + 1, 0)
    ensures card.expected == Alternate(setup.hostFirst, k + 1) != Alternate(setup.hostFirst, k)
  {
  }

  lemma AckMoves(d: Driver, data: seq<byte>, number: Bit)
    requires Sound(data, 0x80 + 0x10 * number) && number != d.lastTx.iframe.seqNo
    ensures Process(d, Block(data)).driver.state == SendIFrame
  {
    RProcessed(d, data, number, 0);
    RBits(data[1], number, 0);
  }

  /** The chunk the card is sending. */
  function ChunkOf(setup: Setup, card: Card): CardBlock
    requires card.current < |setup.response|
  {
    CardI(Alternate(setup.cardFirst, card.current), card.current + 1 < |setup.response|, setup.response[card.current])
  }

  lemma ChunkIsNext(setup: Setup, link: Link)
    requires Alive(setup, link) && Hearing(setup, link).complete && !Behind(setup, link)
    ensures |link.host.recvData| == Hearing(setup, link).current < |setup.response|
    ensures Possible(setup, link, Helpful(setup, link))
    ensures Helpful(setup, link).answer == ChunkOf(setup, Hearing(setup, link))
    ensures CardSide(setup, Hearing(setup, link), CursorOf(link.host), |link.host.recvData|)
  {
    HearingKeeps(setup, link);
  }

  lemma ChunkRound(setup: Setup, link: Link)
    requires Alive(setup, link) && Hearing(setup, link).complete && !Behind(setup, link)
    ensures |link.host.recvData| == Hearing(setup, link).current < |setup.response|
    ensures Possible(setup, link, Helpful(setup, link))
    ensures LastChunkArrives(setup, link, Helpful(setup, link)) <==> |link.host.recvData| + 1 == |setup.response|
    ensures !LastChunkArrives(setup, link, Helpful(setup, link)) ==>
      Leaves(setup, Step(setup, link, Helpful(setup, link)), SendRFrame, CursorOf(link.host), |link.host.recvData| + 1,
             Hearing(setup, link))
  {
    ChunkIsNext(setup, link);
    LastExactly(setup, link, Helpful(setup, link));
    if Helpful(setup, link).answer.more {
      NextChunkRound(setup, link, Helpful(setup, link), Hearing(setup, link));
    }
  }

  lemma NextChunkRound(setup: Setup, link: Link, h: Happening, card: Card)
    requires ValidSetup(setup) && InExchange(setup, link) && Possible(setup, link, h)
    requires h.arrives && h.busOk && CardAfter(setup, link, h) == card && card.complete
    requires CardSide(setup, card, CursorOf(link.host), |link.host.recvData|) && |link.host.recvData| == card.current
    requires h.answer == ChunkOf(setup, card) && h.answer.more
    ensures Leaves(setup, Step(setup, link, h), SendRFrame, CursorOf(link.host), |link.host.recvData| + 1, card)
  {
    ChunkArrives(setup, link, card, h.answer, EventOf(setup, link, h));
    RoundLeaves(setup, link, h, CursorOf(link.host), |link.host.recvData| + 1);
  }

  lemma LastExactly(setup: Setup, link: Link, h: Happening)
    requires InExchange(setup, link) && |link.host.recvData| < |setup.response| && h.arrives && h.answer.CardI?
    requires h.answer.seqNo == Alternate(setup.cardFirst, |link.host.recvData|)
    ensures LastChunkArrives(setup, link, h) <==> !h.answer.more
  {
  }

  lemma ChunkArrives(setup: Setup, link: Link, card: Card, block: CardBlock, e: RxEvent)
    requires ValidSetup(setup) && InExchange(setup, link) && card.complete
    requires CardSide(setup, card, CursorOf(link.host), |link.host.recvData|) && |link.host.recvData| == card.current
    requires block == ChunkOf(setup, card) && block.more && e == Block(EncodeCard(setup.address, block))
    ensures var p := Process(link.host, e).driver;
      && p.state == SendRFrame && Ready(setup, p, CursorOf(link.host), card.current + 1)
      && CardSide(setup, card, CursorOf(link.host), card.current + 1)
  {
    IBlockKeeps(setup, link.host, link.wire, block, CursorOf(link.host), card.current, card.current);
    ChunkState(link.host, setup.address, block, e);
  }

  lemma ChunkState(d: Driver, address: byte, block: CardBlock, e: RxEvent)
    requires block.CardI? && |block.inf| <= 0xFF && block.more && block.seqNo != d.lastRx.iframe.seqNo
    requires e == Block(EncodeCard(address, block))
    ensures Process(d, e).driver.state == SendRFrame
  {
    IEncoded(address, block);
    ChunkProcessed(d, e.data, block.seqNo, block.more);
  }

  lemma RepeatRound(setup: Setup, link: Link)
    requires Alive(setup, link) && Behind(setup, link)
    ensures Hearing(setup, link).current < |setup.response| && Possible(setup, link, Helpful(setup, link))
    ensures Leaves(setup, Step(setup, link, Helpful(setup, link)), SendRFrame, CursorOf(link.host), |link.host.recvData|,
                   Hearing(setup, link))
    ensures !LastChunkArrives(setup, link, Helpful(setup, link))
  {
    HearingKeeps(setup, link);
    var h := Helpful(setup, link);
    RepeatRefused(setup, link, Hearing(setup, link), h.answer, EventOf(setup, link, h));
    RoundLeaves(setup, link, h, CursorOf(link.host), |link.host.recvData|);
  }

  lemma RepeatRefused(setup: Setup, link: Link, card: Card, block: CardBlock, e: RxEvent)
    requires ValidSetup(setup) && InExchange(setup, link) && card.complete
    requires CardSide(setup, card, CursorOf(link.host), |link.host.recvData|)
    requires |link.host.recvData| == card.current + 1 && link.host.recoveryCounter < FrameRetryCount
    requires block == ChunkOf(setup, card) && e == Block(EncodeCard(setup.address, block))
    ensures var p := Process(link.host, e).driver;
      && p.state == SendRFrame && Ready(setup, p, CursorOf(link.host), card.current + 1)
    ensures block.seqNo == link.host.lastRx.iframe.seqNo
  {
    SameNumber(setup, link, card.current);
    RepeatState(link.host, setup.address, block, e);
    IBlockKeeps(setup, link.host, link.wire, block, CursorOf(link.host), card.current + 1, card.current);
  }

  lemma SameNumber(setup: Setup, link: Link, current: nat)
    requires InExchange(setup, link) && |link.host.recvData| == current + 1
    ensures Alternate(setup.cardFirst, current) == link.host.lastRx.iframe.seqNo
  {
  }

  lemma RepeatState(d: Driver, address: byte, block: CardBlock, e: RxEvent)
    requires block.CardI? && |block.inf| <= 0xFF && block.seqNo == d.lastRx.iframe.seqNo
    requires d.recoveryCounter < FrameRetryCount && e == Block(EncodeCard(address, block))
    ensures Process(d, e).driver.state == SendRFrame
  {
    IEncoded(address, block);
    ChunkProcessed(d, e.data, block.seqNo, block.more);
  }

  // ---------- a link that loses nothing more ----------

  lemma AliveAfterAck(setup: Setup, next: Link, k: nat, card: Card)
    requires ValidSetup(setup) && Leaves(setup, next, SendIFrame, k, 0, card)
    ensures Alive(setup, next) && !Behind(setup, next)
  {
    BlockBrought(setup, next);
  }

  lemma AliveAfterChunk(setup: Setup, next: Link, k: nat, r: nat, card: Card)
    requires ValidSetup(setup) && Leaves(setup, next, SendRFrame, k, r, card) && card.complete && |card.accepted| == k + 1
    ensures Alive(setup, next) && !Behind(setup, next)
  {
    AskHeard(setup, next);
  }

  /** One round for every block of the APDU the card lacks and every chunk the host lacks, and one more if the card has
      to learn first that the host has its chunk. */
  function RoundsLeft(setup: Setup, link: Link): int
  {
    |Chunks(setup.apdu)| - (CursorOf(link.host) + 1) + (|setup.response| - |link.host.recvData|)
    + if Behind(setup, link) then 1 else 0
  }

  /** What a round without a loss comes to. */
  ghost predicate LeadsOn(setup: Setup, link: Link)
    requires ValidSetup(setup) && Hearing(setup, link).current < |setup.response|
    requires Possible(setup, link, Helpful(setup, link))
  {
    if RoundsLeft(setup, link) == 1 then LastChunkArrives(setup, link, Helpful(setup, link))
    else
      var next := Step(setup, link, Helpful(setup, link));
      && Alive(setup, next) && next.host.state != Idle
      && RoundsLeft(setup, next) == RoundsLeft(setup, link) - 1
  }

  lemma LeadsOnAfterAck(setup: Setup, link: Link)
    requires Alive(setup, link) && !Hearing(setup, link).complete
    ensures Hearing(setup, link).current < |setup.response| && Possible(setup, link, Helpful(setup, link))
    ensures LeadsOn(setup, link)
  {
    HearingKeeps(setup, link);
    AckRound(setup, link);
    AliveAfterAck(setup, Step(setup, link, Helpful(setup, link)), CursorOf(link.host) + 1, Hearing(setup, link));
  }

  lemma LeadsOnAfterChunk(setup: Setup, link: Link)
    requires Alive(setup, link) && Hearing(setup, link).complete && !Behind(setup, link)
    ensures Hearing(setup, link).current < |setup.response| && Possible(setup, link, Helpful(setup, link))
    ensures LeadsOn(setup, link)
  {
    HearingKeeps(setup, link);
    ChunkRound(setup, link);
    if !LastChunkArrives(setup, link, Helpful(setup, link)) {
      AliveAfterChunk(setup, Step(setup, link, Helpful(setup, link)), CursorOf(link.host), |link.host.recvData| + 1,
                      Hearing(setup, link));
    }
  }

  lemma LeadsOnAfterRepeat(setup: Setup, link: Link)
    requires Alive(setup, link) && Behind(setup, link)
    ensures Hearing(setup, link).current < |setup.response| && Possible(setup, link, Helpful(setup, link))
    ensures LeadsOn(setup, link)
  {
    HearingKeeps(setup, link);
    RepeatRound(setup, link);
    AliveAfterChunk(setup, Step(setup, link, Helpful(setup, link)), CursorOf(link.host), |link.host.recvData|,
                    Hearing(setup, link));
  }

  lemma HelpfulRound(setup: Setup, link: Link)
    requires Alive(setup, link)
    ensures Hearing(setup, link).current < |setup.response| && Possible(setup, link, Helpful(setup, link))
    ensures LeadsOn(setup, link) && RoundsLeft(setup, link) > 0
  {
    HearingKeeps(setup, link);
    if !Hearing(setup, link).complete {
      LeadsOnAfterAck(setup, link);
    } else if Behind(setup, link) {
      LeadsOnAfterRepeat(setup, link);
    } else {
      LeadsOnAfterChunk(setup, link);
    }
  }

  /** Every round of the run loses nothing. */
  ghost predicate Lossless(setup: Setup, link: Link, run: seq<Happening>)
    requires ValidSetup(setup) && PossibleRun(setup, link, run)
    decreases |run|
  {
    run != [] ==>
      && Hearing(setup, link).current < |setup.response| && run[0] == Helpful(setup, link)
      && Lossless(setup, Step(setup, link, run[0]), run[1..])
  }

  /** Once nothing more is lost, an exchange that is alive is completed, in exactly one round for each block either end
      still lacks, and at most one more. */
  lemma {:induction false} LosslessRunCompletes(setup: Setup, link: Link) returns (run: seq<Happening>, last: Happening)
    requires Alive(setup, link)
    ensures PossibleRun(setup, link, run) && Lossless(setup, link, run)
    ensures var before := RunLink(setup, link, run);
      && before.host.state != Idle && Possible(setup, before, last) && LastChunkArrives(setup, before, last)
      && Hearing(setup, before).current < |setup.response| && last == Helpful(setup, before)
    ensures |run| + 1 == RoundsLeft(setup, link)
    decreases RoundsLeft(setup, link)
  {
    HelpfulRound(setup, link);
    var h := Helpful(setup, link);
    run, last := [], h;
    if RoundsLeft(setup, link) != 1 {
      var rest;
      rest, last := LosslessRunCompletes(setup, Step(setup, link, h));
      run := [h] + rest;
      assert run[1..] == rest;
    }
  }

  /** Every exchange can be completed, in one round less than both messages have blocks. */
  lemma EveryExchangeCanComplete(setup: Setup, idle: Driver, link: Link) returns (run: seq<Happening>, last: Happening)
    requires Begins(setup, idle, link)
    ensures PossibleRun(setup, link, run) && Lossless(setup, link, run)
    ensures var before := RunLink(setup, link, run);
      before.host.state != Idle && Possible(setup, before, last) && LastChunkArrives(setup, before, last)
    ensures |run| + 2 == |Chunks(setup.apdu)| + |setup.response|
  {
    BeginKeeps(setup, idle, link);
    BlockBrought(setup, link);
    run, last := LosslessRunCompletes(setup, link);
  }
}
