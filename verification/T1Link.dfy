/** The driver and a conforming card over a link that loses and corrupts blocks, within one exchange.
    Blocks travel one at a time: after each transmission the host reads one block, garbage or nothing. */
module T1Link {
  import opened Bytes
  import opened T1

  // ---------- the card ----------

  datatype CardBlock =
    | CardI(seqNo: Bit, more: bool, inf: seq<byte>)
    | CardR(expected: Bit, error: nat)
    | CardS(code: nat)

  /** The parts of an exchange that do not change: the APDU, the card's response in chunks, and the
      sequence numbers of the first I-block each way. */
  datatype Setup = Setup(apdu: seq<byte>, response: seq<seq<byte>>, hostFirst: Bit, cardFirst: Bit, address: byte)

  ghost predicate ValidSetup(setup: Setup)
  {
    && setup.apdu != [] && setup.response != []
    && forall k :: 0 <= k < |setup.response| ==> |setup.response[k]| <= 0xFF
  }

  /** `accepted` are the chunks of the APDU the card took; once complete, `current` is the chunk of
      the response it is sending. */
  datatype Card = Card(expected: Bit, accepted: seq<seq<byte>>, complete: bool, current: nat)

  /** The k-th number of an alternating sequence that starts with `first`. */
  function Alternate(first: Bit, k: nat): Bit
  {
    if k % 2 == 0 then first else Flip(first)
  }

  /** What a card takes a frame for; anything with a wrong check byte is noise. */
  datatype HostBlock = HostI(seqNo: Bit, more: bool, inf: seq<byte>) | HostR(expected: Bit, error: nat) | HostS | Noise

  function ParseHost(frame: seq<byte>): HostBlock
  {
    if |frame| < 4 || !LrcOk(frame) then Noise
    else
      var pcb := frame[1];
      if EseBit(pcb, 7) == 0 then HostI(EseBit(pcb, 6), EseBit(pcb, 5) == 1, frame[HeaderSize..|frame| - 1])
      else if EseBit(pcb, 6) == 0 then HostR(EseBit(pcb, 4), pcb % 4)
      else HostS
  }

  /** A conforming card: it accepts only the expected N(S); an R-block that expects its next chunk lets
      it go on, unless it prefers (`stubborn`) to treat one with an error code as a request to repeat. */
  function CardHears(setup: Setup, card: Card, frame: seq<byte>, stubborn: bool): Card
  {
    match ParseHost(frame)
    case HostI(seqNo, more, inf) =>
      if !card.complete && seqNo == card.expected then
        card.(expected := Flip(seqNo), accepted := card.accepted + [inf], complete := !more)
      else card
    case HostR(expected, error) =>
      if card.complete && card.current + 1 < |setup.response| && !(stubborn && error != 0)
         && expected == Alternate(setup.cardFirst, card.current + 1)
      then card.(current := card.current + 1) else card
    case _ => card
  }

  /** An error-free R-block only as the ack of an accepted chained I-block or a repeat of it; the
      current chunk of the response; else an error R-block, or an S-block other than RESYNCH. */
  ghost predicate CardMaySend(setup: Setup, card: Card, block: CardBlock)
  {
    match block
    case CardI(seqNo, more, inf) =>
      && card.complete && card.current < |setup.response|
      && block == CardI(Alternate(setup.cardFirst, card.current), card.current + 1 < |setup.response|, setup.response[card.current])
    case CardR(expected, error) => error < 4 && (error == 0 ==> !card.complete && card.accepted != [] && expected == card.expected)
    case CardS(code) => 0 < code < 0x40
  }

  function EncodeCard(address: byte, block: CardBlock): (data: seq<byte>)
    requires block.CardI? ==> |block.inf| <= 0xFF
    requires block.CardR? ==> block.error < 4
    requires block.CardS? ==> block.code < 0x40
    ensures WholeBlock(Block(data)) && LrcOk(data)
  {
    var data := match block {
      case CardI(seqNo, more, inf) => Seal([address, IPcb(seqNo, more), |inf|] + inf)
      case CardR(expected, error) => Seal([address, 0x80 + 0x10 * expected + error, 0])
      case CardS(code) => Seal([address, 0xC0 + code, 0])
    };
    assert data[..|data| - 1] == match block {
      case CardI(seqNo, more, inf) => [address, IPcb(seqNo, more), |inf|] + inf
      case CardR(expected, error) => [address, 0x80 + 0x10 * expected + error, 0]
      case CardS(code) => [address, 0xC0 + code, 0]
    };
    data
  }

  // ---------- the link ----------

  /** Both ends and the frame the host has just put on the wire. */
  datatype Link = Link(host: Driver, card: Card, wire: seq<byte>)

  /** One round: the card may or may not hear the frame; it may answer; the answer may arrive, or the
      host reads garbage, a wrong address, or nothing; the bus may refuse the host's next frame. */
  datatype Happening = Happening(heard: bool, stubborn: bool, answer: CardBlock, arrives: bool, otherwise: RxEvent, busOk: bool)

  function CardAfter(setup: Setup, link: Link, h: Happening): Card
  {
    if h.heard then CardHears(setup, link.card, link.wire, h.stubborn) else link.card
  }

  ghost predicate Possible(setup: Setup, link: Link, h: Happening)
  {
    && (h.arrives ==> CardMaySend(setup, CardAfter(setup, link, h), h.answer))
    && WholeBlock(h.otherwise) && (h.otherwise.Block? ==> !LrcOk(h.otherwise.data))
  }

  ghost function EventOf(setup: Setup, link: Link, h: Happening): (e: RxEvent)
    requires ValidSetup(setup) && Possible(setup, link, h)
    ensures WholeBlock(e)
  {
    if h.arrives then Block(EncodeCard(setup.address, h.answer)) else h.otherwise
  }

  ghost function Step(setup: Setup, link: Link, h: Happening): Link
    requires ValidSetup(setup) && Possible(setup, link, h)
  {
    var round := HostRound(link.host, EventOf(setup, link, h), h.busOk);
    Link(round.driver, CardAfter(setup, link, h), round.frame)
  }

  // ---------- the cursor ----------

  function Remaining(apdu: seq<byte>, k: nat): int
  {
    |apdu| - SendSize * k
  }

  /** The k-th I-block of an APDU. */
  function IFrameAt(setup: Setup, k: nat): IInfo
    requires Remaining(setup.apdu, k) > 0
  {
    var left := Remaining(setup.apdu, k);
    IInfo(true, setup.apdu, SendSize * k, if left > SendSize then left - SendSize else left,
          if left > SendSize then SendSize else left, left > SendSize, Alternate(setup.hostFirst, k))
  }

  function ChunkAt(apdu: seq<byte>, k: nat): seq<byte>
    requires Remaining(apdu, k) > 0
  {
    apdu[SendSize * k..SendSize * k + if Remaining(apdu, k) > SendSize then SendSize else Remaining(apdu, k)]
  }

  /** The chunks of an APDU, in order. */
  function Chunks(apdu: seq<byte>): (chunks: seq<seq<byte>>)
    ensures forall k :: 0 <= k < |chunks| ==> Remaining(apdu, k) > 0 && chunks[k] == ChunkAt(apdu, k)
    ensures forall k: nat :: Remaining(apdu, k) > 0 <==> k < |chunks|
  {
    seq((|apdu| + SendSize - 1) / SendSize, k requires 0 <= k < (|apdu| + SendSize - 1) / SendSize => ChunkAt(apdu, k))
  }

  /** The distinct I-blocks partition the APDU: k of them carry exactly its first bytes. */
  lemma {:induction false} ChunksPartition(apdu: seq<byte>, k: nat)
    requires k <= |Chunks(apdu)|
    ensures Flatten(Chunks(apdu)[..k]) == (if k == |Chunks(apdu)| then apdu else apdu[..SendSize * k])
  {
    var chunks := Chunks(apdu);
    if k > 0 {
      ChunksPartition(apdu, k - 1);
      FlattenTake(chunks, k - 1);
      assert chunks[k - 1] == ChunkAt(apdu, k - 1);
      assert Remaining(apdu, k) > 0 <==> k < |chunks|;
    } else {
      assert Remaining(apdu, 0) > 0 <==> 0 < |chunks|;
    }
  }

  // ---------- the invariant of an exchange ----------

  /** The card took whole chunks from the front of the APDU, at most one more than the host knows of,
      and sends its response only then; the host has the response up to what the card is sending. */
  ghost predicate CardSide(setup: Setup, card: Card, k: nat, r: nat)
  {
    var chunks, taken := Chunks(setup.apdu), |card.accepted|;
    && k < |chunks| && (taken == k || taken == k + 1)
    && card.accepted == chunks[..taken]
    && card.expected == Alternate(setup.hostFirst, taken)
    && card.complete == (taken == |chunks|)
    && (if card.complete then card.current < |setup.response| && (r == card.current || r == card.current + 1)
        else r == 0 && card.current == 0)
  }

  predicate StateMatches(state: State, kind: FrameType)
  {
    match state
    case SendIFrame => kind == IFrame
    case SendRFrame => kind == RFrame
    case SendSFrame => kind == SFrame
    case Idle => false
  }

  /** The host is about to send a frame while its I-block cursor is at block k and it holds r chunks. */
  ghost predicate Ready(setup: Setup, d: Driver, k: nat, r: nat)
  {
    && Remaining(setup.apdu, k) > 0 && d.nextTx.iframe == IFrameAt(setup, k)
    && StateMatches(d.state, d.nextTx.kind)
    && r < |setup.response| && d.recvData == setup.response[..r]
    && d.lastRx.iframe.seqNo == Flip(Alternate(setup.cardFirst, r))
  }

  /** The frame a driver in this state has put on the wire. */
  function FrameOf(d: Driver): seq<byte>
  {
    match d.state
    case SendIFrame => EncodeIFrame(d.sendAddress, d.lastTx.iframe)
    case SendRFrame => EncodeRFrame(d.sendAddress, d.lastTx.rframe.error, Flip(d.lastRx.iframe.seqNo))
    case SendSFrame => EncodeSFrame(d.sendAddress, d.lastTx.sframe)
    case Idle => []
  }

  ghost predicate HostSide(setup: Setup, d: Driver, wire: seq<byte>, k: nat, r: nat)
  {
    Ready(setup, d, k, r) && d.lastTx == d.nextTx && wire == FrameOf(d)
  }

  /** Where the exchange stands, read off the driver. */
  function CursorOf(d: Driver): nat
  {
    d.lastTx.iframe.offset / SendSize
  }

  ghost predicate InExchange(setup: Setup, link: Link)
  {
    var k, r := CursorOf(link.host), |link.host.recvData|;
    HostSide(setup, link.host, link.wire, k, r) && CardSide(setup, link.card, k, r)
  }

  /** Nothing skipped, nothing twice, nothing out of order, in either direction. */
  ghost predicate Delivered(setup: Setup, link: Link)
  {
    link.card.accepted <= Chunks(setup.apdu) && link.host.recvData <= setup.response
  }

  // ---------- frames parse back ----------

  lemma SealedParses(body: seq<byte>)
    requires |body| >= 3
    ensures |Seal(body)| == |body| + 1 && LrcOk(Seal(body))
    ensures Seal(body)[1] == body[1] && Seal(body)[HeaderSize..|body|] == body[HeaderSize..]
  {
    assert Seal(body)[..|body|] == body;
  }

  /** The card reads off an I-frame exactly the chunk, its number and whether more follow. */
  lemma IFrameParses(setup: Setup, address: byte, k: nat)
    requires Remaining(setup.apdu, k) > 0
    ensures ParseHost(EncodeIFrame(address, IFrameAt(setup, k)))
      == HostI(Alternate(setup.hostFirst, k), Remaining(setup.apdu, k) > SendSize, ChunkAt(setup.apdu, k))
    ensures |EncodeIFrame(address, IFrameAt(setup, k))| <= ProcBufSize && LrcOk(EncodeIFrame(address, IFrameAt(setup, k)))
  {
    var iframe := IFrameAt(setup, k);
    var body := [address, IPcb(iframe.seqNo, iframe.chain), iframe.sendSize % 0x100]
      + Window(iframe.data, iframe.offset, iframe.sendSize);
    SealedParses(body);
    assert body[HeaderSize..] == ChunkAt(setup.apdu, k);
  }

  lemma RFrameParses(address: byte, error: RError, expected: Bit)
    ensures exists code :: ParseHost(EncodeRFrame(address, error, expected)) == HostR(expected, code)
  {
    var body := [address, 0x80 + ErrorCode(error) + 0x10 * expected, 0];
    SealedParses(body);
    assert ParseHost(Seal(body)) == HostR(expected, body[1] % 4);
  }

  lemma SFrameParses(address: byte, kind: SType)
    ensures ParseHost(EncodeSFrame(address, kind)) == HostS
  {
    var code := STypeCode(kind);
    SealedParses([address, if code < 0x20 then 0xC0 + code else 0xE0 + code % 0x10, 0]);
  }

  // ---------- the card keeps its side ----------

  lemma CardHearsI(setup: Setup, card: Card, frame: seq<byte>, stubborn: bool, k: nat, r: nat)
    requires CardSide(setup, card, k, r) && setup.response != []
    requires Remaining(setup.apdu, k) > 0
    requires ParseHost(frame) == HostI(Alternate(setup.hostFirst, k), Remaining(setup.apdu, k) > SendSize, ChunkAt(setup.apdu, k))
    ensures CardSide(setup, CardHears(setup, card, frame, stubborn), k, r)
  {
    var chunks := Chunks(setup.apdu);
    assert Remaining(setup.apdu, k + 1) > 0 <==> k + 1 < |chunks|;
    if |card.accepted| == k {
      assert chunks[..k + 1] == chunks[..k] + [chunks[k]];
    }
  }

  lemma CardHearsR(setup: Setup, card: Card, frame: seq<byte>, stubborn: bool, k: nat, r: nat, code: nat)
    requires CardSide(setup, card, k, r)
    requires ParseHost(frame) == HostR(Alternate(setup.cardFirst, r), code)
    ensures CardSide(setup, CardHears(setup, card, frame, stubborn), k, r)
  {
  }

  lemma CardKeeps(setup: Setup, link: Link, h: Happening)
    requires ValidSetup(setup) && InExchange(setup, link)
    ensures CardSide(setup, CardAfter(setup, link, h), CursorOf(link.host), |link.host.recvData|)
  {
    var k, r, host := CursorOf(link.host), |link.host.recvData|, link.host;
    match host.state
    case SendIFrame =>
      IFrameParses(setup, host.sendAddress, k);
      CardHearsI(setup, link.card, link.wire, h.stubborn, k, r);
    case SendRFrame =>
      RFrameParses(host.sendAddress, host.lastTx.rframe.error, Alternate(setup.cardFirst, r));
      var code :| ParseHost(link.wire) == HostR(Alternate(setup.cardFirst, r), code);
      CardHearsR(setup, link.card, link.wire, h.stubborn, k, r, code);
    case SendSFrame => SFrameParses(host.sendAddress, host.lastTx.sframe);
  }

  // ---------- the host keeps its side ----------

  lemma TransmitKeeps(setup: Setup, d: Driver, k: nat, r: nat)
    requires ValidSetup(setup) && Ready(setup, d, k, r)
    ensures var sent := Transmit(d);
      sent.ok && HostSide(setup, sent.driver, sent.frame, k, r) && CursorOf(sent.driver) == k
  {
  }

  /** A block the host cannot use moves neither cursor. */
  lemma NoiseKeeps(setup: Setup, d: Driver, wire: seq<byte>, e: RxEvent, k: nat, r: nat)
    requires HostSide(setup, d, wire, k, r) && WholeBlock(e)
    requires e.Block? ==> !LrcOk(e.data)
    ensures var p := Process(d, e).driver;
      p.recvData == d.recvData && (p.state == Idle || Ready(setup, p, k, r))
  {
  }

  /** A sound block resets the two garbage counters and is decoded by its kind. */
  function Heard(d: Driver): Driver
  {
    d.(timeoutCounter := 0, rnackCounter := 0)
  }

  lemma HearI(d: Driver, address: byte, block: CardBlock)
    requires block.CardI? && |block.inf| <= 0xFF
    ensures Process(d, Block(EncodeCard(address, block))) == Processed(DecodeIBlock(Heard(d), IPcb(block.seqNo, block.more), block.inf), true)
  {
    var data := EncodeCard(address, block);
    SealedParses([address, IPcb(block.seqNo, block.more), |block.inf|] + block.inf);
    assert data[HeaderSize..|data| - 1] == block.inf;
    assert data[1] == IPcb(block.seqNo, block.more) && EseBit(data[1], 7) == 0;
  }

  lemma RBits(pcb: byte, expected: Bit, error: nat)
    requires error < 4 && pcb == 0x80 + 0x10 * expected + error
    ensures EseBit(pcb, 7) == 1 && EseBit(pcb, 6) == 0 && EseBit(pcb, 4) == expected
    ensures EseBit(pcb, 1) == error / 2 && EseBit(pcb, 0) == error % 2
  {
  }

  lemma HearR(d: Driver, address: byte, block: CardBlock)
    requires block.CardR? && block.error < 4
    ensures Process(d, Block(EncodeCard(address, block))) == Processed(DecodeRBlock(Heard(d), 0x80 + 0x10 * block.expected + block.error), true)
  {
    var data := EncodeCard(address, block);
    SealedParses([address, 0x80 + 0x10 * block.expected + block.error, 0]);
    RBits(data[1], block.expected, block.error);
  }

  lemma DecodeIKeeps(setup: Setup, d: Driver, pcb: byte, k: nat, r: nat, current: nat)
    requires Ready(setup, d, k, r) && (r == current || r == current + 1) && current < |setup.response|
    requires pcb == IPcb(Alternate(setup.cardFirst, current), current + 1 < |setup.response|)
    ensures var p := DecodeIBlock(d, pcb, setup.response[current]);
      && (r == current ==> p.recvData == setup.response[..r + 1])
      && (r == current ==> if r + 1 < |setup.response| then Ready(setup, p, k, r + 1) else p.state == Idle)
      && (r != current ==> p.recvData == d.recvData && (p.state == Idle || Ready(setup, p, k, r)))
  {
    assert EseBit(pcb, 6) == Alternate(setup.cardFirst, current);
    assert EseBit(pcb, 5) == 1 <==> current + 1 < |setup.response|;
    assert setup.response[..r + 1] == setup.response[..r] + [setup.response[r]];
  }

  lemma DecodeRKeeps(setup: Setup, d: Driver, pcb: byte, expected: Bit, error: nat, k: nat, r: nat, taken: nat)
    requires Ready(setup, d, k, r) && d.lastTx == d.nextTx && error < 4
    requires pcb == 0x80 + 0x10 * expected + error
    requires error == 0 ==> (taken == k || taken == k + 1) && expected == Alternate(setup.hostFirst, taken)
    requires error == 0 ==> Remaining(setup.apdu, taken) > 0
    ensures var p := DecodeRBlock(d, pcb);
      && p.recvData == d.recvData
      && (error == 0 ==> Ready(setup, p, taken, r))
      && (error != 0 ==> p.state == Idle || Ready(setup, p, k, r))
  {
    RBits(pcb, expected, error);
    if error == 0 && taken == k + 1 {
      assert NextIFrame(d).nextTx.iframe == IFrameAt(setup, k + 1);
    }
  }

  /** The host takes a chunk exactly when it is the one it expects. */
  lemma IBlockKeeps(setup: Setup, d: Driver, wire: seq<byte>, block: CardBlock, k: nat, r: nat, current: nat)
    requires ValidSetup(setup) && HostSide(setup, d, wire, k, r) && (r == current || r == current + 1)
    requires current < |setup.response|
    requires block == CardI(Alternate(setup.cardFirst, current), current + 1 < |setup.response|, setup.response[current])
    ensures var p := Process(d, Block(EncodeCard(setup.address, block)));
      && p.ok
      && (r == current ==> p.driver.recvData == setup.response[..r + 1])
      && (r == current ==> if block.more then Ready(setup, p.driver, k, r + 1) else p.driver.state == Idle)
      && (r != current ==> p.driver.recvData == d.recvData && (p.driver.state == Idle || Ready(setup, p.driver, k, r)))
  {
    HearI(d, setup.address, block);
    DecodeIKeeps(setup, Heard(d), IPcb(block.seqNo, block.more), k, r, current);
  }

  /** The cursor moves exactly on the ack of the block under it. */
  lemma RBlockKeeps(setup: Setup, d: Driver, wire: seq<byte>, block: CardBlock, k: nat, r: nat, taken: nat)
    requires ValidSetup(setup) && HostSide(setup, d, wire, k, r) && block.CardR? && block.error < 4
    requires block.error == 0 ==> (taken == k || taken == k + 1) && block.expected == Alternate(setup.hostFirst, taken)
    requires block.error == 0 ==> Remaining(setup.apdu, taken) > 0
    ensures var p := Process(d, Block(EncodeCard(setup.address, block)));
      && p.ok && p.driver.recvData == d.recvData
      && (block.error == 0 ==> Ready(setup, p.driver, taken, r))
      && (block.error != 0 ==> p.driver.state == Idle || Ready(setup, p.driver, k, r))
  {
    HearR(d, setup.address, block);
    DecodeRKeeps(setup, Heard(d), 0x80 + 0x10 * block.expected + block.error, block.expected, block.error, k, r, taken);
  }

  lemma HearS(d: Driver, address: byte, code: nat)
    requires 0 < code < 0x40
    ensures Process(d, Block(EncodeCard(address, CardS(code)))) == Processed(DecodeSBlock(Heard(d), 0xC0 + code), true)
  {
    var data := EncodeCard(address, CardS(code));
    SealedParses([address, 0xC0 + code, 0]);
    assert data[1] == 0xC0 + code;
    assert EseBit(data[1], 7) == 1 && EseBit(data[1], 6) == 1;
  }

  lemma DecodeSKeeps(setup: Setup, d: Driver, pcb: byte, k: nat, r: nat)
    requires Ready(setup, d, k, r) && d.lastTx == d.nextTx && pcb % 0x40 != 0
    ensures var p := DecodeSBlock(d, pcb);
      p.recvData == d.recvData && (p.state == Idle || Ready(setup, p, k, r))
  {
  }

  lemma SBlockKeeps(setup: Setup, d: Driver, wire: seq<byte>, code: nat, k: nat, r: nat)
    requires HostSide(setup, d, wire, k, r) && 0 < code < 0x40
    ensures var p := Process(d, Block(EncodeCard(setup.address, CardS(code))));
      p.ok && p.driver.recvData == d.recvData && (p.driver.state == Idle || Ready(setup, p.driver, k, r))
  {
    HearS(d, setup.address, code);
    DecodeSKeeps(setup, Heard(d), 0xC0 + code, k, r);
  }

  // ---------- main results ----------

  /** The block that completes the response: the chunk the host expects, unchained. */
  ghost predicate LastChunkArrives(setup: Setup, link: Link, h: Happening)
  {
    && h.arrives && h.answer.CardI? && !h.answer.more
    && h.answer.seqNo == Flip(link.host.lastRx.iframe.seqNo)
  }

  /** The host after it has processed what arrived, its cursors at k and r. */
  ghost predicate Processes(setup: Setup, link: Link, h: Happening, k: nat, r: nat)
    requires ValidSetup(setup) && Possible(setup, link, h)
  {
    var p, card := Process(link.host, EventOf(setup, link, h)).driver, CardAfter(setup, link, h);
    && r <= |setup.response| && p.recvData == setup.response[..r]
    && card.accepted <= Chunks(setup.apdu)
    && (p.state != Idle ==> Ready(setup, p, k, r) && CardSide(setup, card, k, r))
    && (LastChunkArrives(setup, link, h) <==> r == |setup.response|)
    && (LastChunkArrives(setup, link, h) ==> p.state == Idle && card.accepted == Chunks(setup.apdu))
  }

  lemma ProcessKeeps(setup: Setup, link: Link, h: Happening) returns (k: nat, r: nat)
    requires ValidSetup(setup) && InExchange(setup, link) && Possible(setup, link, h)
    ensures Processes(setup, link, h, k, r)
  {
    CardKeeps(setup, link, h);
    var card := CardAfter(setup, link, h);
    k, r := CursorOf(link.host), |link.host.recvData|;
    if !h.arrives {
      NoiseKeeps(setup, link.host, link.wire, h.otherwise, k, r);
    } else {
      match h.answer
      case CardI(_, _, _) =>
        IBlockKeeps(setup, link.host, link.wire, h.answer, k, r, card.current);
        r := if r == card.current then r + 1 else r;
      case CardR(_, error) =>
        assert Remaining(setup.apdu, |card.accepted|) > 0 <==> |card.accepted| < |Chunks(setup.apdu)|;
        RBlockKeeps(setup, link.host, link.wire, h.answer, k, r, |card.accepted|);
        k := if error == 0 then |card.accepted| else k;
      case CardS(code) => SBlockKeeps(setup, link.host, link.wire, code, k, r);
    }
  }

  /** One round keeps everything: delivery stays a prefix both ways; unless the exchange ends, the
      driver and the card stay in step; and the round ends the exchange complete exactly when the
      expected unchained chunk arrives. */
  lemma StepKeeps(setup: Setup, link: Link, h: Happening)
    requires ValidSetup(setup) && InExchange(setup, link) && Possible(setup, link, h)
    ensures var next := Step(setup, link, h);
      && Delivered(setup, next)
      && (next.host.state != Idle ==> InExchange(setup, next))
      && (LastChunkArrives(setup, link, h) <==> next.host.recvData == setup.response)
      && (LastChunkArrives(setup, link, h) ==> next.host.state == Idle && next.card.accepted == Chunks(setup.apdu))
  {
    var k, r := ProcessKeeps(setup, link, h);
    var p := Process(link.host, EventOf(setup, link, h)).driver;
    assert p.recvData == setup.response <==> r == |setup.response|;
    if p.state != Idle {
      TransmitKeeps(setup, p, k, r);
    }
  }

  ghost predicate PossibleRun(setup: Setup, link: Link, run: seq<Happening>)
    requires ValidSetup(setup)
    decreases |run|
  {
    run != [] ==> link.host.state != Idle && Possible(setup, link, run[0]) && PossibleRun(setup, Step(setup, link, run[0]), run[1..])
  }

  ghost function RunLink(setup: Setup, link: Link, run: seq<Happening>): Link
    requires ValidSetup(setup) && PossibleRun(setup, link, run)
    decreases |run|
  {
    if run == [] then link else RunLink(setup, Step(setup, link, run[0]), run[1..])
  }

  /** The start of an exchange: an idle driver is handed the APDU, and both sides agree on the next
      sequence numbers. */
  ghost predicate Begins(setup: Setup, idle: Driver, link: Link)
  {
    && ValidSetup(setup) && idle.state == Idle && idle.recvData == []
    && setup.hostFirst == Flip(idle.lastTx.iframe.seqNo) && setup.cardFirst == Flip(idle.lastRx.iframe.seqNo)
    && link == Link(Send(idle, setup.apdu).driver, Card(setup.hostFirst, [], false, 0), Send(idle, setup.apdu).frame)
  }

  lemma BeginKeeps(setup: Setup, idle: Driver, link: Link)
    requires Begins(setup, idle, link)
    ensures InExchange(setup, link) && link.host.state != Idle
  {
    var d := SetIFrame(idle.(nextTx := idle.nextTx.(iframe := idle.nextTx.iframe.(present := true, data := setup.apdu, totalSize := |setup.apdu|))));
    assert Ready(setup, d, 0, 0) by {
      assert d.nextTx.iframe == IFrameAt(setup, 0);
    }
    TransmitKeeps(setup, d, 0, 0);
    assert Remaining(setup.apdu, 0) > 0 <==> 0 < |Chunks(setup.apdu)|;
  }

  lemma {:induction false} RunKeeps(setup: Setup, link: Link, run: seq<Happening>)
    requires ValidSetup(setup) && PossibleRun(setup, link, run)
    requires Delivered(setup, link) && (link.host.state != Idle ==> InExchange(setup, link))
    ensures var end := RunLink(setup, link, run);
      Delivered(setup, end) && (end.host.state != Idle ==> InExchange(setup, end))
    decreases |run|
  {
    if run != [] {
      StepKeeps(setup, link, run[0]);
      RunKeeps(setup, Step(setup, link, run[0]), run[1..]);
    }
  }

  lemma PrefixFlattens(apdu: seq<byte>, accepted: seq<seq<byte>>)
    requires accepted <= Chunks(apdu)
    ensures Flatten(accepted) <= apdu
    ensures Flatten(accepted) == apdu || |Flatten(accepted)| % SendSize == 0
  {
    var taken := |accepted|;
    assert accepted == Chunks(apdu)[..taken];
    ChunksPartition(apdu, taken);
    assert Remaining(apdu, taken) > 0 <==> taken < |Chunks(apdu)|;
  }

  /** Exactly once and in order, in every run of one exchange: the bytes the card accepted are a prefix
      of the APDU at a chunk boundary, and the bytes the host holds are a prefix of the response. */
  lemma ExactlyOnce(setup: Setup, idle: Driver, link: Link, run: seq<Happening>)
    requires Begins(setup, idle, link) && PossibleRun(setup, link, run)
    ensures var end := RunLink(setup, link, run);
      && Flatten(end.card.accepted) <= setup.apdu
      && (Flatten(end.card.accepted) == setup.apdu || |Flatten(end.card.accepted)| % SendSize == 0)
      && Flatten(end.host.recvData) <= Flatten(setup.response)
      && end.host.recvData <= setup.response
  {
    BeginKeeps(setup, idle, link);
    RunKeeps(setup, link, run);
    var end := RunLink(setup, link, run);
    PrefixFlattens(setup.apdu, end.card.accepted);
    assert end.host.recvData == setup.response[..|end.host.recvData|];
    FlattenTake(setup.response, |end.host.recvData|);
  }

  /** A run whose last round brought the expected unchained chunk delivered everything, both ways. */
  lemma CompleteRun(setup: Setup, idle: Driver, link: Link, run: seq<Happening>, last: Happening)
    requires Begins(setup, idle, link) && PossibleRun(setup, link, run)
    requires RunLink(setup, link, run).host.state != Idle && Possible(setup, RunLink(setup, link, run), last)
    ensures var before := RunLink(setup, link, run);
      var end := Step(setup, before, last);
      && (LastChunkArrives(setup, before, last) <==> end.host.recvData == setup.response)
      && (LastChunkArrives(setup, before, last) ==> end.host.state == Idle && Flatten(end.card.accepted) == setup.apdu)
  {
    BeginKeeps(setup, idle, link);
    RunKeeps(setup, link, run);
    StepKeeps(setup, RunLink(setup, link, run), last);
    ChunksPartition(setup.apdu, |Chunks(setup.apdu)|);
    assert Chunks(setup.apdu)[..|Chunks(setup.apdu)|] == Chunks(setup.apdu);
  }
}
