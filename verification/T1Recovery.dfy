/** kernel/files/snvm/protocol/ese_iso7816_t1.c: the three retry counters, and how long the receive loop can be kept
    busy. */
module T1Recovery {
  import opened Bytes
  import opened T1
  import opened T1Cursor
  import opened T1Link

  /** A round that brings the exchange no further: nothing usable arrived, or an R-block with an error
      code, or an I-block the driver already has. */
  predicate Fails(d: Driver, e: RxEvent)
  {
    match e
    case Silence => true
    case BadAddress => true
    case Block(data) =>
      |data| >= 4 &&
      (!LrcOk(data)
       || (EseBit(data[1], 7) == 0 && EseBit(data[1], 6) == d.lastRx.iframe.seqNo)
       || (EseBit(data[1], 7) == 1 && EseBit(data[1], 6) == 0 && !(EseBit(data[1], 1) == 0 && EseBit(data[1], 0) == 0)))
  }

  predicate CountersInRange(d: Driver)
  {
    d.recoveryCounter <= FrameRetryCount && d.rnackCounter <= MaxRnackRetry && d.timeoutCounter <= TimeoutRetryCount
  }

  predicate LexLess(d: Driver, e: Driver)
  {
    || d.recoveryCounter > e.recoveryCounter
    || (d.recoveryCounter == e.recoveryCounter && d.rnackCounter > e.rnackCounter)
    || (d.recoveryCounter == e.recoveryCounter && d.rnackCounter == e.rnackCounter && d.timeoutCounter > e.timeoutCounter)
  }

  /** The retries left, as one number below 48. */
  function Rank(d: Driver): (rank: nat)
    requires CountersInRange(d)
    ensures rank < 48
  {
    12 * (FrameRetryCount - d.recoveryCounter) + 4 * (MaxRnackRetry - d.rnackCounter) + (TimeoutRetryCount - d.timeoutCounter)
  }

  /** No event drives a counter past its limit. */
  lemma CountersStayInRange(d: Driver, e: RxEvent, busOk: bool)
    requires CountersInRange(d) && WholeBlock(e)
    ensures CountersInRange(HostRound(d, e, busOk).driver)
  {
    CountersProcess(d, e);
  }

  lemma CountersProcess(d: Driver, e: RxEvent)
    requires CountersInRange(d) && WholeBlock(e)
    ensures CountersInRange(Process(d, e).driver)
  {
    if e.Block? {
      CountersDecode(Heard(d), e.data);
    }
  }

  lemma CountersDecode(d: Driver, data: seq<byte>)
    requires CountersInRange(d) && |data| >= 4
    ensures CountersInRange(Decode(d, data))
  {
  }

  /** Every failing round uses up a retry, in the order recovery, nack, timeout, or ends the exchange. */
  lemma FailingRoundDescends(d: Driver, e: RxEvent, busOk: bool)
    requires CountersInRange(d) && WholeBlock(e) && Fails(d, e)
    ensures var next := HostRound(d, e, busOk).driver;
      CountersInRange(next) && (next.state == Idle || (LexLess(next, d) && Rank(next) < Rank(d)))
  {
    CountersProcess(d, e);
    FailingProcess(d, e);
  }

  lemma FailingProcess(d: Driver, e: RxEvent)
    requires CountersInRange(d) && WholeBlock(e) && Fails(d, e)
    ensures var p := Process(d, e).driver; p.state == Idle || LexLess(p, d)
  {
    if e.Block? && LrcOk(e.data) {
      FailingDecode(Heard(d), e.data);
    }
  }

  lemma FailingDecode(d: Driver, data: seq<byte>)
    requires CountersInRange(d) && |data| >= 4 && LrcOk(data) && Fails(d, Block(data))
    ensures var p := Decode(d, data); p.state == Idle || p.recoveryCounter > d.recoveryCounter
  {
  }

  /** All the rounds fail and none ends the exchange. */
  predicate Streak(d: Driver, bus: seq<Reception>)
    decreases |bus|
  {
    bus != [] ==>
      && WholeBlock(bus[0].event) && Fails(d, bus[0].event)
      && var next := HostRound(d, bus[0].event, bus[0].busOk).driver;
      && next.state != Idle && Streak(next, bus[1..])
  }

  /** The receive loop survives fewer than 48 failing rounds in a row. */
  lemma {:induction false} StreakIsShort(d: Driver, bus: seq<Reception>)
    requires CountersInRange(d) && Streak(d, bus)
    ensures |bus| <= Rank(d) < 48
    decreases |bus|
  {
    if bus != [] {
      FailingRoundDescends(d, bus[0].event, bus[0].busOk);
      StreakIsShort(HostRound(d, bus[0].event, bus[0].busOk).driver, bus[1..]);
    }
  }

  /** A block whose check byte is wrong, and an R-block with the error code 1. */
  function Garbled(): seq<byte> { [0x21, 0, 0, (Lrc([0x21, 0, 0]) + 1) % 0x100] }
  function Refusal(): seq<byte> { Seal([0x21, 0x81, 0]) }

  lemma GarbledAndRefusal()
    ensures WholeBlock(Block(Garbled())) && !LrcOk(Garbled())
    ensures WholeBlock(Block(Refusal())) && LrcOk(Refusal()) && Refusal()[1] == 0x81
  {
    SealedParses([0x21, 0x81, 0]);
    assert Garbled()[..3] == [0x21, 0, 0];
  }

  /** The driver always has an I-block to repeat and is not answering an S-block. */
  predicate Insistent(d: Driver)
  {
    Coherent(d) && d.lastTx.kind != SFrame && d.lastTx.iframe.present && d.lastTx.iframe.sendSize > 0
  }

  /** The event is a failing one and the round it starts uses up exactly one unit of the rank. */
  predicate CostsOne(d: Driver, e: RxEvent)
    requires CountersInRange(d)
  {
    && WholeBlock(e) && Fails(d, e)
    && var next := HostRound(d, e, true).driver;
       CountersInRange(next) && Insistent(next) && Rank(next) == Rank(d) - 1
  }

  /** Some failing event costs exactly one unit of the rank: the counters run like an odometer. */
  lemma OneUnit(d: Driver) returns (e: RxEvent)
    requires CountersInRange(d) && Insistent(d) && Rank(d) > 0
    ensures CostsOne(d, e)
  {
    GarbledAndRefusal();
    if d.timeoutCounter < TimeoutRetryCount {
      e := Silence;
      SilenceUnit(d);
    } else if d.rnackCounter < MaxRnackRetry {
      e := Block(Garbled());
      GarbledUnit(d);
    } else {
      e := Block(Refusal());
      RefusalSpends(d);
    }
    UnitRound(d, e);
  }

  /** A round is the processing of the event and, unless that ends the exchange, a transmission. */
  lemma RoundSends(d: Driver, e: RxEvent, p: Driver)
    requires WholeBlock(e) && Process(d, e).driver == p && p.state != Idle && Transmit(p).ok
    ensures HostRound(d, e, true) == Round(Transmit(p).driver, Transmit(p).frame, true)
  {
  }

  lemma UnitRound(d: Driver, e: RxEvent)
    requires CountersInRange(d) && Insistent(d) && WholeBlock(e) && Fails(d, e)
    requires UnitSpent(d, Process(d, e).driver)
    ensures CostsOne(d, e)
  {
    var p := Process(d, e).driver;
    SendUnit(d, p);
    RoundSends(d, e, p);
  }

  lemma RefusalSpends(d: Driver)
    requires CountersInRange(d) && Insistent(d) && Rank(d) > 0
    requires d.timeoutCounter == TimeoutRetryCount && d.rnackCounter == MaxRnackRetry
    ensures WholeBlock(Block(Refusal())) && Fails(d, Block(Refusal()))
    ensures UnitSpent(d, Process(d, Block(Refusal())).driver)
  {
    RefusalProcessed(d);
    RefusalUnit(Heard(d));
  }

  lemma ErrorBits(pcb: byte)
    requires pcb == 0x81
    ensures EseBit(pcb, 7) == 1 && EseBit(pcb, 6) == 0 && EseBit(pcb, 0) == 1
  {
  }

  lemma ErrorBlockProcessed(d: Driver, data: seq<byte>)
    requires WholeBlock(Block(data)) && LrcOk(data) && data[1] == 0x81
    ensures Fails(d, Block(data)) && Process(d, Block(data)).driver == DecodeRBlock(Heard(d), data[1])
  {
    ErrorBits(data[1]);
  }

  lemma RefusalProcessed(d: Driver)
    ensures WholeBlock(Block(Refusal())) && Fails(d, Block(Refusal()))
    ensures Process(d, Block(Refusal())).driver == DecodeRBlock(Heard(d), 0x81)
  {
    GarbledAndRefusal();
    ErrorBlockProcessed(d, Refusal());
  }

  predicate UnitSpent(d: Driver, p: Driver)
    requires CountersInRange(d)
  {
    CountersInRange(p) && Rank(p) == Rank(d) - 1 && p.state != Idle && Pending(d, p, false) && p.nextTx.kind != SFrame
  }

  lemma SilenceUnit(d: Driver)
    requires CountersInRange(d) && Insistent(d) && d.timeoutCounter < TimeoutRetryCount
    ensures UnitSpent(d, Process(d, Silence).driver)
  {
  }

  lemma GarbledUnit(d: Driver)
    requires CountersInRange(d) && Insistent(d) && d.timeoutCounter == TimeoutRetryCount && d.rnackCounter < MaxRnackRetry
    ensures WholeBlock(Block(Garbled())) && UnitSpent(d, Process(d, Block(Garbled())).driver)
  {
    GarbledAndRefusal();
    assert UnitSpent(d, Nack(d.(timeoutCounter := 0), Parity));
  }

  lemma SendUnit(d: Driver, p: Driver)
    requires Insistent(d) && p.state != Idle && Pending(d, p, false) && p.nextTx.kind != SFrame
    ensures var sent := Transmit(p);
      sent.ok && Insistent(sent.driver) && sent.driver.state == p.state
      && sent.driver == p.(lastTx := p.nextTx, lastFrame := sent.driver.lastFrame)
  {
  }

  lemma RefusalUnit(d: Driver)
    requires Insistent(d) && d.recoveryCounter < FrameRetryCount
    ensures var p := DecodeRBlock(d, 0x81);
      p.recoveryCounter == d.recoveryCounter + 1 && p.state != Idle && Pending(d, p, false) && p.nextTx.kind != SFrame
      && p.timeoutCounter == d.timeoutCounter && p.rnackCounter == d.rnackCounter
  {
    assert EseBit(0x81, 0) == 1 && EseBit(0x81, 1) == 0;
  }

  /** The bound is sharp: a driver that is not answering an S-block can be kept busy for exactly as
      many failing rounds as its counters leave. */
  lemma {:induction false} StreakBoundIsSharp(d: Driver) returns (bus: seq<Reception>)
    requires CountersInRange(d) && Insistent(d)
    ensures Streak(d, bus) && |bus| == Rank(d)
    decreases Rank(d)
  {
    bus := [];
    if Rank(d) > 0 {
      var e := OneUnit(d);
      var rest := StreakBoundIsSharp(HostRound(d, e, true).driver);
      bus := [Reception(e, true)] + rest;
      assert bus[1..] == rest;
    }
  }

  /** Why error-free R-blocks are outside the bound: an ack that names the block already sent changes
      nothing but the counters, which it clears, so the driver sends the same frame again. A card that
      keeps repeating such an ack keeps the loop alive for any number of rounds. */
  lemma {:induction false} StaleAckNeverEnds(d: Driver, address: byte, n: nat)
    requires Coherent(d) && (d.state == SendIFrame ==> d.lastTx.iframe.present && d.lastTx.iframe.sendSize > 0)
    ensures var ack := Block(EncodeCard(address, CardR(d.lastTx.iframe.seqNo, 0)));
      ReceiveRun(d, true, Repeat(ack, n)).driver.state == d.state != Idle
    decreases n
  {
    if n > 0 {
      var ack := Block(EncodeCard(address, CardR(d.lastTx.iframe.seqNo, 0)));
      StaleAckRound(d, address);
      StaleAckNeverEnds(HostRound(d, ack, true).driver, address, n - 1);
      assert Repeat(ack, n)[1..] == Repeat(ack, n - 1);
    }
  }

  function Repeat(e: RxEvent, n: nat): (bus: seq<Reception>)
    ensures |bus| == n
    ensures forall k :: 0 <= k < n ==> bus[k] == Reception(e, true)
  {
    if n == 0 then [] else [Reception(e, true)] + Repeat(e, n - 1)
  }

  /** What a stale ack leaves as it was. */
  predicate Unmoved(d: Driver, p: Driver)
  {
    p.state == d.state && p.nextTx == d.nextTx && p.lastTx == d.lastTx && p.lastFrame == d.lastFrame
  }

  lemma StaleAckProcessed(d: Driver, address: byte)
    requires Coherent(d)
    ensures WholeBlock(Block(EncodeCard(address, CardR(d.lastTx.iframe.seqNo, 0))))
    ensures Unmoved(d, Process(d, Block(EncodeCard(address, CardR(d.lastTx.iframe.seqNo, 0)))).driver)
  {
    HearR(d, address, CardR(d.lastTx.iframe.seqNo, 0));
    StaleAckDecodes(Heard(d), 0x80 + 0x10 * d.lastTx.iframe.seqNo);
  }

  lemma UnmovedRound(d: Driver, e: RxEvent)
    requires Coherent(d) && (d.state == SendIFrame ==> d.lastTx.iframe.present && d.lastTx.iframe.sendSize > 0)
    requires WholeBlock(e) && Unmoved(d, Process(d, e).driver)
    ensures var round := HostRound(d, e, true);
      round.ok && Coherent(round.driver) && round.driver.state == d.state && round.driver.lastTx == d.lastTx
  {
    SameFrameSent(d, Process(d, e).driver);
    RoundSends(d, e, Process(d, e).driver);
  }

  lemma StaleAckRound(d: Driver, address: byte)
    requires Coherent(d) && (d.state == SendIFrame ==> d.lastTx.iframe.present && d.lastTx.iframe.sendSize > 0)
    ensures var round := HostRound(d, Block(EncodeCard(address, CardR(d.lastTx.iframe.seqNo, 0))), true);
      round.ok && Coherent(round.driver) && round.driver.state == d.state && round.driver.lastTx == d.lastTx
  {
    StaleAckProcessed(d, address);
    UnmovedRound(d, Block(EncodeCard(address, CardR(d.lastTx.iframe.seqNo, 0))));
  }

  lemma SameFrameSent(d: Driver, p: Driver)
    requires Coherent(d) && (d.state == SendIFrame ==> d.lastTx.iframe.present && d.lastTx.iframe.sendSize > 0)
    requires Unmoved(d, p)
    ensures var sent := Transmit(p);
      sent.ok && Coherent(sent.driver) && sent.driver.state == d.state && sent.driver.lastTx == d.lastTx
  {
  }

  lemma StaleAckDecodes(d: Driver, pcb: byte)
    requires Coherent(d) && pcb == 0x80 + 0x10 * d.lastTx.iframe.seqNo
    ensures var p := DecodeRBlock(d, pcb);
      p.state == d.state && p.nextTx == d.nextTx && p.lastTx == d.lastTx && p.lastFrame == d.lastFrame
  {
    assert EseBit(pcb, 4) == d.lastTx.iframe.seqNo && EseBit(pcb, 1) == 0 && EseBit(pcb, 0) == 0;
  }

  // ---------- how long the loop lives, exactly ----------

  /** No round of the run ends the exchange. */
  predicate Survives(d: Driver, bus: seq<Reception>)
    decreases |bus|
  {
    bus != [] ==>
      && WholeBlock(bus[0].event)
      && var next := HostRound(d, bus[0].event, bus[0].busOk).driver;
      && next.state != Idle && Survives(next, bus[1..])
  }

  /** The rounds that do not fail. */
  function Fruitful(d: Driver, bus: seq<Reception>): nat
    requires Survives(d, bus)
    decreases |bus|
  {
    if bus == [] then 0
    else
      (if Fails(d, bus[0].event) then 0 else 1) + Fruitful(HostRound(d, bus[0].event, bus[0].busOk).driver, bus[1..])
  }

  /** Every fruitful round buys at most 48 rounds, itself included. */
  lemma {:induction false} FruitfulRoundsBuyTime(d: Driver, bus: seq<Reception>)
    requires CountersInRange(d) && Survives(d, bus)
    ensures |bus| <= Rank(d) + 48 * Fruitful(d, bus)
    decreases |bus|
  {
    if bus != [] {
      var next := HostRound(d, bus[0].event, bus[0].busOk).driver;
      CountersStayInRange(d, bus[0].event, bus[0].busOk);
      FruitfulRoundsBuyTime(next, bus[1..]);
      if Fails(d, bus[0].event) {
        FailingRoundDescends(d, bus[0].event, bus[0].busOk);
      }
    }
  }

  function StaleAck(d: Driver): RxEvent
  {
    Block(EncodeCard(0x21, CardR(d.lastTx.iframe.seqNo, 0)))
  }

  /** The stale ack is a fruitful round that fills every counter's allowance up again. */
  lemma StaleAckRefills(d: Driver)
    requires Insistent(d)
    ensures WholeBlock(StaleAck(d)) && !Fails(d, StaleAck(d))
    ensures var next := HostRound(d, StaleAck(d), true).driver;
      CountersInRange(next) && Insistent(next) && Rank(next) == 47
  {
    StaleAckIsAnAck(d);
    StaleAckHeard(d);
    RefilledRound(d, StaleAck(d), Process(d, StaleAck(d)).driver);
  }

  /** What such an ack makes of the driver. */
  predicate Refilled(d: Driver, p: Driver)
  {
    && p.timeoutCounter == 0 && p.rnackCounter == 0 && p.recoveryCounter == 0
    && p.state != Idle && Pending(d, p, false) && p.nextTx.kind != SFrame
  }

  lemma StaleAckHeard(d: Driver)
    requires Insistent(d) && WholeBlock(StaleAck(d))
    ensures Refilled(d, Process(d, StaleAck(d)).driver)
  {
    StaleAckDecoded(d);
    StaleAckClears(Heard(d), 0x80 + 0x10 * d.lastTx.iframe.seqNo);
    RefilledHeard(d, Process(d, StaleAck(d)).driver);
  }

  lemma StaleAckDecoded(d: Driver)
    requires WholeBlock(StaleAck(d))
    ensures Process(d, StaleAck(d)).driver == DecodeRBlock(Heard(d), 0x80 + 0x10 * d.lastTx.iframe.seqNo)
  {
    HearR(d, 0x21, CardR(d.lastTx.iframe.seqNo, 0));
  }

  lemma RefilledHeard(d: Driver, p: Driver)
    requires Refilled(Heard(d), p)
    ensures Refilled(d, p)
  {
  }

  lemma RefilledRound(d: Driver, e: RxEvent, p: Driver)
    requires Insistent(d) && WholeBlock(e) && p == Process(d, e).driver && Refilled(d, p)
    ensures var next := HostRound(d, e, true).driver;
      CountersInRange(next) && Insistent(next) && Rank(next) == 47
  {
    SendUnit(d, p);
    RoundSends(d, e, p);
  }

  lemma StaleAckIsAnAck(d: Driver)
    ensures WholeBlock(StaleAck(d)) && !Fails(d, StaleAck(d))
  {
    var data := EncodeCard(0x21, CardR(d.lastTx.iframe.seqNo, 0));
    SealedParses([0x21, 0x80 + 0x10 * d.lastTx.iframe.seqNo, 0]);
    RBits(data[1], d.lastTx.iframe.seqNo, 0);
  }

  lemma StaleAckClears(d: Driver, pcb: byte)
    requires Insistent(d) && pcb == 0x80 + 0x10 * d.lastTx.iframe.seqNo
    requires d.timeoutCounter == 0 && d.rnackCounter == 0
    ensures Refilled(d, DecodeRBlock(d, pcb))
  {
    RBits(pcb, d.lastTx.iframe.seqNo, 0);
  }

  /** A run of every length up to the bound. */
  lemma {:induction false} LongestRun(d: Driver, n: nat, g: nat) returns (bus: seq<Reception>)
    requires CountersInRange(d) && Insistent(d) && n <= Rank(d) + 48 * g
    ensures Survives(d, bus) && |bus| == n && Fruitful(d, bus) <= g
    decreases n
  {
    bus := [];
    if n > 0 {
      var e, left := StaleAck(d), g - 1;
      if Rank(d) > 0 {
        e := OneUnit(d);
        left := g;
      } else {
        StaleAckRefills(d);
      }
      var rest := LongestRun(HostRound(d, e, true).driver, n - 1, left);
      bus := [Reception(e, true)] + rest;
      assert bus[1..] == rest;
    }
  }

  ghost predicate CanLast(d: Driver, n: nat, g: nat)
  {
    exists bus :: Survives(d, bus) && |bus| == n && Fruitful(d, bus) <= g
  }

  /** How long the receive loop can be kept alive, exactly: n rounds with at most g fruitful ones are possible if and
      only if n is at most the retries left and 48 for each of the g. */
  lemma LoopLastsExactly(d: Driver, n: nat, g: nat)
    requires CountersInRange(d) && Insistent(d)
    ensures CanLast(d, n, g) <==> n <= Rank(d) + 48 * g
  {
    if n <= Rank(d) + 48 * g {
      var _ := LongestRun(d, n, g);
    }
    if CanLast(d, n, g) {
      var bus :| Survives(d, bus) && |bus| == n && Fruitful(d, bus) <= g;
      FruitfulRoundsBuyTime(d, bus);
    }
  }
}
