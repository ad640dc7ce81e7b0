/** The driver object of ese_iso7816_t1.c: each method changes the protocol struct in place and is
    proved to do what the functions of module T1 say. */
module T1Driver {
  import opened Bytes
  import opened Kmem
  import opened T1
  import EseData

  /** One poll of the address byte. */
  datatype Poll = NoByte | GotByte(b: byte)

  /** What the bus will answer to one read attempt: up to a hundred address polls, then the rest of a
      whole block (PCB, LEN, INF, LRC); and whether it takes the next frame. */
  datatype Attempt = Attempt(polls: seq<Poll>, rest: seq<byte>, busOk: bool)

  predicate WholeAttempt(a: Attempt)
  {
    |a.polls| == AddressPollingCount && |a.rest| >= 3 && |a.rest| - 3 == a.rest[1]
  }

  /** The event the polling loop makes of an attempt, from its i-th poll on. */
  function PollFrom(a: Attempt, address: byte, i: nat): (e: RxEvent)
    requires WholeAttempt(a) && i <= AddressPollingCount
    ensures WholeBlock(e)
    decreases AddressPollingCount - i
  {
    if i == AddressPollingCount then BadAddress
    else
      match a.polls[i]
      case NoByte => Silence
      case GotByte(b) =>
        if b == address then Block([b] + a.rest)
        else if b != 0 then BadAddress
        else PollFrom(a, address, i + 1)
  }

  /** The receptions a script of attempts amounts to. */
  function Receptions(attempts: seq<Attempt>, address: byte): (bus: seq<Reception>)
    requires forall k :: 0 <= k < |attempts| ==> WholeAttempt(attempts[k])
    ensures |bus| == |attempts|
    ensures forall k :: 0 <= k < |bus| ==> WholeBlock(bus[k].event)
  {
    if attempts == [] then []
    else [Reception(PollFrom(attempts[0], address, 0), attempts[0].busOk)] + Receptions(attempts[1..], address)
  }

  /** Forward loop of iso7816_t1_compute_lrc. */
  method ComputeLrc(data: seq<byte>, offset: nat, size: nat) returns (lrc: byte)
    requires offset + size <= |data|
    ensures lrc == Lrc(data[offset..offset + size])
  {
    lrc := 0;
    var i := offset;
    while i < offset + size
      invariant offset <= i <= offset + size && lrc == Lrc(data[offset..i])
    {
      assert data[offset..i + 1][..i - offset] == data[offset..i];
      lrc := Xor(lrc, data[i]);
      i := i + 1;
    }
  }

  method CheckLrc(data: seq<byte>) returns (ok: bool)
    requires data != []
    ensures ok == LrcOk(data)
  {
    var computed := ComputeLrc(data, 0, |data| - 1);
    assert data[0..|data| - 1] == data[..|data| - 1];
    ok := data[|data| - 1] == computed;
  }

  method SealFrame(body: seq<byte>) returns (frame: seq<byte>)
    ensures frame == Seal(body)
  {
    var lrc := ComputeLrc(body, 0, |body|);
    assert body[0..|body|] == body;
    frame := body + [lrc];
  }

  /** The receive loop on one more attempt. */
  lemma ReceiveStep(d: Driver, ok: bool, attempts: seq<Attempt>, address: byte)
    requires attempts != [] && forall k :: 0 <= k < |attempts| ==> WholeAttempt(attempts[k])
    ensures var round := HostRound(d, PollFrom(attempts[0], address, 0), attempts[0].busOk);
      ReceiveRun(d, ok, Receptions(attempts, address))
      == if round.driver.state == Idle then Processed(round.driver, round.ok)
         else ReceiveRun(round.driver, round.ok, Receptions(attempts[1..], address))
  {
    assert Receptions(attempts, address)[1..] == Receptions(attempts[1..], address);
  }

  class Protocol {
    var lastTx: FrameInfo
    var nextTx: FrameInfo
    var lastRx: FrameInfo
    var timeoutCounter: nat
    var rnackCounter: nat
    var recoveryCounter: nat
    var lastFrame: FrameType
    var state: State
    const sendAddress: byte
    const receiveAddress: byte
    const recvData: EseData.DataList

    ghost predicate Valid()
      reads recvData, recvData.nodes, recvData.kmem
    {
      recvData.Valid()
    }

    ghost function View(): Driver
      reads this, recvData
    {
      Driver(lastTx, nextTx, lastRx, recvData.Packets(), timeoutCounter, rnackCounter, recoveryCounter,
             lastFrame, state, sendAddress, receiveAddress)
    }

    /** iso7816_t1_init: sequence numbers start so that the first I-block each way is number 0. */
    constructor (kmem: Allocator, sendAddress: byte, receiveAddress: byte)
      ensures Valid() && fresh(recvData) && recvData.kmem == kmem && recvData.nodes == []
      ensures this.sendAddress == sendAddress && this.receiveAddress == receiveAddress
      ensures View().state == Idle && View().recvData == []
      ensures View().lastTx.iframe.seqNo == 1 && View().lastRx.iframe.seqNo == 1
      ensures timeoutCounter == rnackCounter == recoveryCounter == 0
    {
      var none := FrameInfo(IInfo(false, [], 0, 0, 0, false, 1), RInfo(0, NoError), ResynchReq, InvalidFrame);
      lastTx, nextTx, lastRx := none, none, none;
      timeoutCounter, rnackCounter, recoveryCounter := 0, 0, 0;
      lastFrame, state := UnknownFrame, Idle;
      this.sendAddress, this.receiveAddress := sendAddress, receiveAddress;
      recvData := new EseData.DataList(kmem);
    }

    method ResetParams()
      modifies this
      ensures View() == T1.ResetParams(old(View()))
    {
      state := Idle;
      lastRx := lastRx.(kind := InvalidFrame);
      nextTx := nextTx.(kind := InvalidFrame, iframe := nextTx.iframe.(present := false, data := []));
      lastTx := lastTx.(kind := InvalidFrame, iframe := lastTx.iframe.(present := false, data := []));
      nextTx := nextTx.(iframe := nextTx.iframe.(seqNo := 1));
      lastRx := lastRx.(iframe := lastRx.iframe.(seqNo := 1));
      lastTx := lastTx.(iframe := lastTx.iframe.(seqNo := 1));
      recoveryCounter, timeoutCounter := 0, 0;
      lastFrame, rnackCounter := UnknownFrame, 0;
    }

    method SetIFrame()
      modifies this
      ensures View() == T1.SetIFrame(old(View()))
    {
      var total := nextTx.iframe.totalSize;
      nextTx := nextTx.(kind := IFrame, iframe := nextTx.iframe.(offset := 0, seqNo := Flip(lastTx.iframe.seqNo)));
      state := SendIFrame;
      if total > SendSize {
        nextTx := nextTx.(iframe := nextTx.iframe.(chain := true, sendSize := SendSize, totalSize := total - SendSize));
      } else {
        nextTx := nextTx.(iframe := nextTx.iframe.(sendSize := total, chain := false));
      }
    }

    method NextIFrame()
      modifies this
      ensures View() == T1.NextIFrame(old(View()))
    {
      var last := lastTx.iframe;
      nextTx := nextTx.(kind := IFrame);
      state := SendIFrame;
      nextTx := nextTx.(iframe := nextTx.iframe.(
        seqNo := Flip(last.seqNo), offset := last.offset + SendSize, present := last.present, data := last.data));
      if last.totalSize > SendSize {
        nextTx := nextTx.(iframe := nextTx.iframe.(chain := true, sendSize := SendSize, totalSize := last.totalSize - SendSize));
      } else {
        nextTx := nextTx.(iframe := nextTx.iframe.(chain := false, sendSize := last.totalSize));
      }
    }

    method FinishRecovery()
      modifies this
      ensures View() == T1.FinishRecovery(old(View()))
    {
      state, recoveryCounter := Idle, 0;
    }

    /** Sets up an R-block as the next frame. */
    method AskRFrame(error: RError)
      modifies this
      ensures View() == T1.AskRFrame(old(View()), error)
    {
      nextTx := nextTx.(kind := RFrame, rframe := nextTx.rframe.(error := error));
      state := SendRFrame;
    }

    /** The header of an I-block: decides whether its data is taken and what to send next. */
    method NoteIBlock(pcb: byte) returns (taken: bool)
      modifies this
      ensures View().recvData == old(View()).recvData
      ensures forall inf :: (T1.DecodeIBlock(old(View()), pcb, inf)
                             == if taken then View().(recvData := View().recvData + [inf]) else View())
    {
      lastRx := lastRx.(kind := IFrame);
      taken := lastRx.iframe.seqNo != EseBit(pcb, 6);
      if taken {
        recoveryCounter := 0;
        if EseBit(pcb, 5) == 1 {
          lastRx := lastRx.(iframe := lastRx.iframe.(seqNo := EseBit(pcb, 6), chain := true));
          AskRFrame(NoError);
        } else {
          lastRx := lastRx.(iframe := lastRx.iframe.(seqNo := EseBit(pcb, 6), chain := false));
          state := Idle;
        }
      } else if recoveryCounter < FrameRetryCount {
        AskRFrame(OtherError);
        recoveryCounter := recoveryCounter + 1;
      } else {
        FinishRecovery();
      }
    }

    method DecodeIBlock(data: seq<byte>)
      requires Valid() && |data| >= 4
      modifies this, recvData, recvData.Nodes(), recvData.kmem
      ensures Valid() && fresh(recvData.Nodes() - old(recvData.Nodes()))
      ensures View() == T1.DecodeIBlock(old(View()), data[1], data[HeaderSize..|data| - 1])
    {
      var taken := NoteIBlock(data[1]);
      if taken {
        var inf := new Buffer(data[HeaderSize..|data| - 1]);
        assert inf.bytes[..|inf.bytes|] == inf.bytes;
        recvData.Store(inf, |inf.bytes|, true);
      }
    }

    /** The answer to an R-block with an error code of 1 or 2. */
    method DecodeRError()
      modifies this
      ensures View() == T1.DecodeRError(old(View()))
    {
      if lastTx.kind == IFrame {
        nextTx, state := lastTx.(kind := IFrame), SendIFrame;
      } else if lastTx.kind == RFrame {
        if lastRx.rframe.seqNo == lastTx.iframe.seqNo && lastFrame == IFrame {
          nextTx, state := lastTx.(kind := IFrame), SendIFrame;
        } else if lastRx.rframe.seqNo != lastTx.iframe.seqNo && lastFrame == RFrame {
          AskRFrame(NoError);
        } else {
          AskRFrame(OtherError);
        }
      } else if lastTx.kind == SFrame {
        nextTx := lastTx;
      }
    }

    method DecodeRBlock(pcb: byte)
      modifies this
      ensures View() == T1.DecodeRBlock(old(View()), pcb)
    {
      lastRx := lastRx.(kind := RFrame, rframe := lastRx.rframe.(seqNo := EseBit(pcb, 4)));
      if EseBit(pcb, 0) == 0 && EseBit(pcb, 1) == 0 {
        lastRx := lastRx.(rframe := lastRx.rframe.(error := NoError));
        recoveryCounter := 0;
        if lastRx.rframe.seqNo != lastTx.iframe.seqNo {
          NextIFrame();
        }
      } else if EseBit(pcb, 0) == 1 && EseBit(pcb, 1) == 1 {
        if recoveryCounter < FrameRetryCount {
          lastRx := lastRx.(rframe := lastRx.rframe.(error := SofMissed));
          nextTx := lastTx;
          recoveryCounter := recoveryCounter + 1;
        } else {
          FinishRecovery();
        }
      } else {
        lastRx := lastRx.(rframe := lastRx.rframe.(error := if EseBit(pcb, 0) == 0 then OtherError else Parity));
        if recoveryCounter < FrameRetryCount {
          DecodeRError();
          recoveryCounter := recoveryCounter + 1;
        } else {
          FinishRecovery();
        }
      }
    }

    method DecodeSBlock(pcb: byte)
      modifies this
      ensures View() == T1.DecodeSBlock(old(View()), pcb)
    {
      lastRx := lastRx.(kind := SFrame);
      match pcb % 0x40 {
        case 0x00 =>
          ResetParams();
          lastRx := lastRx.(sframe := ResynchReq);
          nextTx := nextTx.(kind := SFrame, sframe := ResynchRsp);
          state := SendSFrame;
        case 0x20 =>
          lastRx := lastRx.(sframe := ResynchRsp);
          nextTx := nextTx.(kind := UnknownFrame);
          state := Idle;
        case 0x02 => lastRx := lastRx.(sframe := AbortReq);
        case 0x22 =>
          lastRx := lastRx.(sframe := AbortRsp);
          nextTx := nextTx.(kind := UnknownFrame);
          state := Idle;
        case 0x03 =>
          if lastTx.kind == SFrame && lastTx.sframe != WtxRsp {
            if recoveryCounter < FrameRetryCount {
              nextTx := lastTx;
              recoveryCounter := recoveryCounter + 1;
            } else {
              FinishRecovery();
            }
          } else {
            lastRx := lastRx.(sframe := WtxReq);
            nextTx := nextTx.(kind := SFrame, sframe := WtxRsp);
            state := SendSFrame;
          }
        case 0x23 => lastRx := lastRx.(sframe := WtxRsp);
        case _ =>
      }
    }

    method DecodeFrame(data: seq<byte>)
      requires Valid() && |data| >= 4
      modifies this, recvData, recvData.Nodes(), recvData.kmem
      ensures Valid() && fresh(recvData.Nodes() - old(recvData.Nodes()))
      ensures View() == T1.Decode(old(View()), data)
    {
      var pcb := data[1];
      if EseBit(pcb, 7) == 0 {
        DecodeIBlock(data);
      } else if EseBit(pcb, 6) == 0 {
        DecodeRBlock(pcb);
      } else {
        DecodeSBlock(pcb);
      }
    }

    /** Asks for the expected block again, at most twice in a row. */
    method Nack(error: RError)
      modifies this
      ensures View() == T1.Nack(old(View()), error)
    {
      if rnackCounter < MaxRnackRetry {
        lastRx := lastRx.(kind := InvalidFrame);
        AskRFrame(error);
        nextTx := nextTx.(rframe := nextTx.rframe.(seqNo := 0x10 * Flip(lastRx.iframe.seqNo)));
        rnackCounter := rnackCounter + 1;
      } else {
        rnackCounter, state := 0, Idle;
      }
    }

    /** Polls the address byte up to a hundred times. */
    method PollAddress(attempt: Attempt) returns (e: RxEvent)
      requires WholeAttempt(attempt)
      ensures e == PollFrom(attempt, receiveAddress, 0)
    {
      var i := 0;
      while i < AddressPollingCount
        invariant 0 <= i <= AddressPollingCount
        invariant PollFrom(attempt, receiveAddress, 0) == PollFrom(attempt, receiveAddress, i)
      {
        if attempt.polls[i] == NoByte {
          return Silence;
        }
        if attempt.polls[i].b == receiveAddress {
          return Block([receiveAddress] + attempt.rest);
        }
        if attempt.polls[i].b != 0 {
          return BadAddress;
        }
        i := i + 1;
      }
      e := BadAddress;
    }

    /** iso7816_t1_process. */
    method Process(attempt: Attempt) returns (ok: bool)
      requires Valid() && WholeAttempt(attempt)
      modifies this, recvData, recvData.Nodes(), recvData.kmem
      ensures Valid() && fresh(recvData.Nodes() - old(recvData.Nodes()))
      ensures Processed(View(), ok) == T1.Process(old(View()), PollFrom(attempt, receiveAddress, 0))
    {
      var e := PollAddress(attempt);
      if e.Block? {
        ok := TakeBlock(e.data);
      } else {
        ok := false;
        NoBlock(e.BadAddress?);
      }
    }

    method TakeBlock(data: seq<byte>) returns (ok: bool)
      requires Valid() && |data| >= 4
      modifies this, recvData, recvData.Nodes(), recvData.kmem
      ensures Valid() && fresh(recvData.Nodes() - old(recvData.Nodes()))
      ensures ok == LrcOk(data)
      ensures View() == if ok then T1.Decode(old(View()).(timeoutCounter := 0, rnackCounter := 0), data)
                        else T1.Nack(old(View()).(timeoutCounter := 0), Parity)
    {
      timeoutCounter := 0;
      ok := CheckLrc(data);
      if ok {
        rnackCounter := 0;
        DecodeFrame(data);
      } else {
        Nack(Parity);
      }
    }

    method NoBlock(badAddress: bool)
      modifies this
      ensures View() == T1.NoBlock(old(View()), badAddress)
    {
      if (lastTx.kind == SFrame && (lastTx.sframe == WtxRsp || lastTx.sframe == ResynchRsp)) || badAddress {
        if rnackCounter >= MaxRnackRetry {
          timeoutCounter := 0;
        }
        Nack(OtherError);
      } else if timeoutCounter < TimeoutRetryCount {
        timeoutCounter := timeoutCounter + 1;
        nextTx := lastTx;
      } else {
        state, timeoutCounter := Idle, 0;
      }
    }

    /** The frame for the current state; `ok` is false when there is nothing to send. */
    method Transmit() returns (frame: seq<byte>, ok: bool)
      modifies this
      ensures Sent(View(), frame, ok) == T1.Transmit(old(View()))
    {
      lastTx := nextTx;
      frame, ok := [], false;
      match state {
        case SendIFrame =>
          var iframe := nextTx.iframe;
          if iframe.sendSize != 0 && iframe.present {
            lastFrame := IFrame;
            frame := SealFrame([sendAddress, IPcb(iframe.seqNo, iframe.chain), iframe.sendSize % 0x100]
                               + Window(iframe.data, iframe.offset, iframe.sendSize));
            ok := true;
          }
        case SendRFrame =>
          if nextTx.rframe.error == NoError {
            lastFrame := RFrame;
          }
          frame := SealFrame([sendAddress, 0x80 + ErrorCode(nextTx.rframe.error) + 0x10 * Flip(lastRx.iframe.seqNo), 0]);
          ok := true;
        case SendSFrame =>
          lastFrame := SFrame;
          var code := STypeCode(nextTx.sframe);
          frame := SealFrame([sendAddress, if code < 0x20 then 0xC0 + code else 0xE0 + code % 0x10, 0]);
          ok := true;
        case Idle =>
      }
    }

    /** iso7816_t1_send with an APDU. */
    method Send(apdu: seq<byte>) returns (frame: seq<byte>, ok: bool)
      modifies this
      ensures Sent(View(), frame, ok) == T1.Send(old(View()), apdu)
    {
      if state == Idle {
        nextTx := nextTx.(iframe := nextTx.iframe.(present := true, data := apdu, totalSize := |apdu|));
        SetIFrame();
      }
      frame, ok := Transmit();
    }

    /** One turn of the receive loop: process, then send unless the exchange ended. */
    method Round(attempt: Attempt) returns (ok: bool)
      requires Valid() && WholeAttempt(attempt)
      modifies this, recvData, recvData.Nodes(), recvData.kmem
      ensures Valid() && fresh(recvData.Nodes() - old(recvData.Nodes()))
      ensures var round := HostRound(old(View()), PollFrom(attempt, receiveAddress, 0), attempt.busOk);
        View() == round.driver && ok == round.ok
    {
      ok := Process(attempt);
      if state != Idle {
        var frame;
        frame, ok := Transmit();
        ok := ok && attempt.busOk;
        if !ok {
          state := Idle;
        }
      }
    }

    /** iso7816_t1_receive on the attempts the bus has in store. `ended` says that the driver left the
        loop; then the packets received are joined and handed over. */
    method Receive(attempts: seq<Attempt>) returns (ended: bool, ok: bool, rsp: Buffer?)
      requires Valid() && attempts != []
      requires forall k :: 0 <= k < |attempts| ==> WholeAttempt(attempts[k])
      modifies this, recvData, recvData.Nodes(), recvData.kmem
      ensures Valid()
      ensures var run := ReceiveRun(old(View()), false, Receptions(attempts, receiveAddress));
        && ended == (run.driver.state == Idle)
        && (ended ==> ok == (run.ok && Flatten(run.driver.recvData) != []))
        && (rsp != null <==> ended && Flatten(run.driver.recvData) != [])
        && (rsp != null ==> rsp.bytes == Flatten(run.driver.recvData))
        && View() == if rsp != null then run.driver.(recvData := []) else run.driver
    {
      var rest := attempts;
      ended, ok, rsp := false, false, null;
      ghost var run := ReceiveRun(View(), ok, Receptions(attempts, receiveAddress));
      while rest != [] && !ended
        invariant Valid() && fresh(recvData.Nodes() - old(recvData.Nodes()))
        invariant forall k :: 0 <= k < |rest| ==> WholeAttempt(rest[k])
        invariant ended ==> state == Idle && run == Processed(View(), ok)
        invariant !ended ==> run == ReceiveRun(View(), ok, Receptions(rest, receiveAddress))
        invariant !ended && rest == [] ==> state != Idle
        decreases |rest|, !ended
      {
        ReceiveStep(View(), ok, rest, receiveAddress);
        ok := Round(rest[0]);
        ended := state == Idle;
        rest := rest[1..];
      }
      if ended {
        var got;
        got, rsp := recvData.Get();
        ok := ok && got;
      }
    }
  }
}
