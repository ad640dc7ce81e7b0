/** What the driver keeps by itself, whatever blocks arrive: its I-block cursor, and the bound on its
    recovery attempts. No assumption is made about the card here. */
module T1Cursor {
  import opened Bytes
  import opened T1
  import opened T1Link

  predicate IsResynch(e: RxEvent)
  {
    e.Block? && |e.data| >= 4 && LrcOk(e.data) && e.data[1] == 0xC0
  }

  /** An error-free R-block that asks for the block after the last one sent. */
  predicate Acks(d: Driver, e: RxEvent)
  {
    && e.Block? && |e.data| >= 4 && LrcOk(e.data)
    && EseBit(e.data[1], 7) == 1 && EseBit(e.data[1], 6) == 0 && EseBit(e.data[1], 1) == 0 && EseBit(e.data[1], 0) == 0
    && EseBit(e.data[1], 4) != d.lastTx.iframe.seqNo
  }

  /** The block behind `iframe` in the same APDU. */
  predicate Follows(iframe: IInfo, next: IInfo)
  {
    && next.data == iframe.data && next.present == iframe.present
    && next.offset == iframe.offset + SendSize
    && next.seqNo == Flip(iframe.seqNo)
    && next.chain == (iframe.totalSize > SendSize)
    && next.sendSize == (if next.chain then SendSize else iframe.totalSize)
  }

  /** The driver between two rounds of an exchange: its state says what it last sent, and the I-block
      it remembers is the last one that went out. */
  predicate Coherent(d: Driver)
  {
    && StateMatches(d.state, d.nextTx.kind)
    && d.lastTx == d.nextTx
  }

  /** The driver has processed an event that leaves it something to send. */
  predicate Pending(d: Driver, p: Driver, acked: bool)
  {
    p.state != Idle ==>
      && StateMatches(p.state, p.nextTx.kind)
      && p.sendAddress == d.sendAddress
      && (if acked then Follows(d.lastTx.iframe, p.nextTx.iframe) && p.state == SendIFrame
          else p.nextTx.iframe == d.lastTx.iframe)
  }

  lemma CursorProcess(d: Driver, e: RxEvent)
    requires Coherent(d) && WholeBlock(e) && !IsResynch(e)
    ensures Pending(d, Process(d, e).driver, Acks(d, e))
  {
    if e.Block? && LrcOk(e.data) {
      var pcb := e.data[1];
      if EseBit(pcb, 7) == 1 && EseBit(pcb, 6) == 0 {
        CursorR(Heard(d), pcb);
      } else if EseBit(pcb, 7) == 1 {
        assert pcb == 0xC0 + pcb % 0x40;
        CursorS(Heard(d), pcb);
      } else {
        CursorI(Heard(d), pcb, e.data[HeaderSize..|e.data| - 1]);
      }
    }
  }

  /** Any event but a RESYNCH request: unless the exchange ends, state and pending frame agree, and the
      I-block cursor stays put, or moves to the following block exactly on its ack. A retransmitted
      I-block is the same bytes again. */
  lemma CursorStep(d: Driver, e: RxEvent, busOk: bool)
    requires Coherent(d) && WholeBlock(e) && !IsResynch(e)
    ensures var round := HostRound(d, e, busOk);
      round.driver.state != Idle ==>
        && Coherent(round.driver)
        && (if Acks(d, e) then Follows(d.lastTx.iframe, round.driver.lastTx.iframe) && round.driver.state == SendIFrame
            else round.driver.lastTx.iframe == d.lastTx.iframe)
        && (round.driver.state == SendIFrame && !Acks(d, e) ==> round.frame == EncodeIFrame(d.sendAddress, d.lastTx.iframe))
  {
    CursorProcess(d, e);
    if Process(d, e).driver.state != Idle {
      CursorTransmit(d, Process(d, e).driver, Acks(d, e));
    }
  }

  lemma CursorTransmit(d: Driver, p: Driver, acked: bool)
    requires Coherent(d) && Pending(d, p, acked) && p.state != Idle
    ensures var sent := Transmit(p);
      sent.ok ==>
        && Coherent(sent.driver)
        && sent.driver.lastTx.iframe == p.nextTx.iframe && sent.driver.state == p.state
        && (p.state == SendIFrame ==> sent.frame == EncodeIFrame(d.sendAddress, p.nextTx.iframe))
  {
  }

  lemma CursorI(d: Driver, pcb: byte, inf: seq<byte>)
    requires Coherent(d)
    ensures Pending(d, DecodeIBlock(d, pcb, inf), false)
  {
  }

  lemma CursorS(d: Driver, pcb: byte)
    requires Coherent(d) && pcb % 0x40 != 0
    ensures Pending(d, DecodeSBlock(d, pcb), false)
  {
  }

  lemma CursorR(d: Driver, pcb: byte)
    requires Coherent(d)
    ensures Pending(d, DecodeRBlock(d, pcb),
      EseBit(pcb, 1) == 0 && EseBit(pcb, 0) == 0 && EseBit(pcb, 4) != d.lastTx.iframe.seqNo)
  {
  }

  /** The I-blocks a run sends, the one already on the wire first. */
  function ISent(d: Driver, bus: seq<Reception>): (sent: seq<IInfo>)
    requires forall k :: 0 <= k < |bus| ==> WholeBlock(bus[k].event)
    ensures |sent| > 0 && sent[0] == d.lastTx.iframe
    decreases |bus|
  {
    if bus == [] then [d.lastTx.iframe]
    else
      var next := HostRound(d, bus[0].event, bus[0].busOk).driver;
      if next.state == Idle then [d.lastTx.iframe]
      else if next.state == SendIFrame then [d.lastTx.iframe] + ISent(next, bus[1..])
      else [d.lastTx.iframe] + ISent(next, bus[1..])[1..]
  }

  /** Each I-block repeats the one before it or is the one that follows it. */
  predicate Chained(sent: seq<IInfo>)
  {
    forall i :: 0 <= i < |sent| - 1 ==> sent[i + 1] == sent[i] || Follows(sent[i], sent[i + 1])
  }

  lemma ChainedCons(first: IInfo, sent: seq<IInfo>, resent: bool)
    requires Chained(sent) && sent != []
    requires sent[0] == first || (resent && Follows(first, sent[0]))
    ensures Chained([first] + if resent then sent else sent[1..])
  {
  }

  /** Through any interleaving of acks, nacks, S-blocks and garbage, each I-block a run sends repeats
      the one before it or is the one that follows it. */
  lemma {:induction false} CursorRun(d: Driver, bus: seq<Reception>)
    requires Coherent(d)
    requires forall k :: 0 <= k < |bus| ==> WholeBlock(bus[k].event) && !IsResynch(bus[k].event)
    ensures Chained(ISent(d, bus))
    decreases |bus|
  {
    if bus != [] {
      CursorStep(d, bus[0].event, bus[0].busOk);
      var next := HostRound(d, bus[0].event, bus[0].busOk).driver;
      if next.state != Idle {
        CursorRun(next, bus[1..]);
        ChainedCons(d.lastTx.iframe, ISent(next, bus[1..]), next.state == SendIFrame);
      }
    }
  }
}
