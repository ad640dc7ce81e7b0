/** The T=1 driver of kernel/files/snvm/protocol/ese_iso7816_t1.c as a value: its state, the frames
    it builds, and the functions its methods refine. Section 11.6 of ISO/IEC 7816-3 is the protocol. */
module T1 {
  import opened Bytes

  type Bit = b: int | 0 <= b <= 1

  const HeaderSize := 3
  const SendSize := 254
  const ProcBufSize := 260
  const FrameRetryCount := 3
  const TimeoutRetryCount := 3
  const MaxRnackRetry := 2
  const AddressPollingCount := 100

  datatype FrameType = IFrame | SFrame | RFrame | InvalidFrame | UnknownFrame
  datatype RError = NoError | Parity | OtherError | SofMissed | UndefinedError
  datatype SType = ResynchReq | ResynchRsp | IfscReq | IfscRsp | AbortReq | AbortRsp | WtxReq | WtxRsp
  datatype State = Idle | SendIFrame | SendRFrame | SendSFrame

  /** Without a buffer, `data` is empty and `present` is false. */
  datatype IInfo = IInfo(present: bool, data: seq<byte>, offset: nat, totalSize: nat, sendSize: nat, chain: bool, seqNo: Bit)
  datatype RInfo = RInfo(seqNo: nat, error: RError)
  datatype FrameInfo = FrameInfo(iframe: IInfo, rframe: RInfo, sframe: SType, kind: FrameType)

  datatype Driver = Driver(
    lastTx: FrameInfo, nextTx: FrameInfo, lastRx: FrameInfo,
    recvData: seq<seq<byte>>,
    timeoutCounter: nat, rnackCounter: nat, recoveryCounter: nat,
    lastFrame: FrameType, state: State,
    sendAddress: byte, receiveAddress: byte)

  function Flip(b: Bit): Bit { 1 - b }

  // ---------- bytes ----------

  /** Exclusive or of the low `width` bits. */
  function XorBits(a: nat, b: nat, width: nat): (x: nat)
    ensures x < Pow2(width)
  {
    if width == 0 then 0 else 2 * XorBits(a / 2, b / 2, width - 1) + (a + b) % 2
  }

  function Xor(a: byte, b: byte): byte
  {
    assert Pow2(4) == 16 && Pow2(8) == 0x100;
    XorBits(a, b, 8)
  }

  /** The longitudinal redundancy code: the exclusive or of all bytes. */
  function Lrc(data: seq<byte>): byte
  {
    if data == [] then 0 else Xor(Lrc(data[..|data| - 1]), data[|data| - 1])
  }

  function Seal(body: seq<byte>): (frame: seq<byte>)
  {
    body + [Lrc(body)]
  }

  predicate LrcOk(frame: seq<byte>)
    requires frame != []
  {
    frame[|frame| - 1] == Lrc(frame[..|frame| - 1])
  }

  function EseBit(value: byte, bit: nat): Bit
    requires bit < 8
  {
    value / [1, 2, 4, 8, 16, 32, 64, 128][bit] % 2
  }

  // ---------- frames the host builds ----------

  /** The `count` bytes of `data` at `offset`; bytes past the end of the buffer are not modelled. */
  function Window(data: seq<byte>, offset: nat, count: nat): seq<byte>
  {
    if offset >= |data| then [] else if offset + count > |data| then data[offset..] else data[offset..offset + count]
  }

  function ErrorCode(error: RError): byte
  {
    match error
    case NoError => 0
    case Parity => 1
    case OtherError => 2
    case SofMissed => 3
    case UndefinedError => 4
  }

  function STypeCode(kind: SType): byte
  {
    match kind
    case ResynchReq => 0x00
    case ResynchRsp => 0x20
    case IfscReq => 0x01
    case IfscRsp => 0x21
    case AbortReq => 0x02
    case AbortRsp => 0x22
    case WtxReq => 0x03
    case WtxRsp => 0x23
  }

  function IPcb(seqNo: Bit, chain: bool): byte
  {
    (if chain then 0x20 else 0) + 0x40 * seqNo
  }

  function EncodeIFrame(address: byte, iframe: IInfo): (frame: seq<byte>)
  {
    Seal([address, IPcb(iframe.seqNo, iframe.chain), iframe.sendSize % 0x100]
         + Window(iframe.data, iframe.offset, iframe.sendSize))
  }

  /** N(R) is the number of the I-block the host expects next. */
  function EncodeRFrame(address: byte, error: RError, expected: Bit): (frame: seq<byte>)
  {
    Seal([address, 0x80 + ErrorCode(error) + 0x10 * expected, 0])
  }

  function EncodeSFrame(address: byte, kind: SType): (frame: seq<byte>)
  {
    var code := STypeCode(kind);
    Seal([address, if code < 0x20 then 0xC0 + code else 0xE0 + code % 0x10, 0])
  }

  // ---------- the sender side ----------

  function SetIFrame(d: Driver): Driver
  {
    var total := d.nextTx.iframe.totalSize;
    var iframe := d.nextTx.iframe.(
      offset := 0,
      seqNo := Flip(d.lastTx.iframe.seqNo),
      chain := total > SendSize,
      sendSize := if total > SendSize then SendSize else total,
      totalSize := if total > SendSize then total - SendSize else total);
    d.(nextTx := d.nextTx.(iframe := iframe, kind := IFrame), state := SendIFrame)
  }

  function NextIFrame(d: Driver): Driver
  {
    var last := d.lastTx.iframe;
    var iframe := d.nextTx.iframe.(
      present := last.present, data := last.data,
      offset := last.offset + SendSize,
      seqNo := Flip(last.seqNo),
      chain := last.totalSize > SendSize,
      sendSize := if last.totalSize > SendSize then SendSize else last.totalSize,
      totalSize := if last.totalSize > SendSize then last.totalSize - SendSize else d.nextTx.iframe.totalSize);
    d.(nextTx := d.nextTx.(iframe := iframe, kind := IFrame), state := SendIFrame)
  }

  datatype Sent = Sent(driver: Driver, frame: seq<byte>, ok: bool)

  /** The tail of iso7816_t1_send: remember what goes out, and build it by the state. */
  function Transmit(d: Driver): Sent
  {
    var d1 := d.(lastTx := d.nextTx);
    match d1.state
    case SendIFrame =>
      if d1.nextTx.iframe.sendSize == 0 || !d1.nextTx.iframe.present then Sent(d1, [], false)
      else Sent(d1.(lastFrame := IFrame), EncodeIFrame(d1.sendAddress, d1.nextTx.iframe), true)
    case SendRFrame =>
      Sent(if d1.nextTx.rframe.error == NoError then d1.(lastFrame := RFrame) else d1,
           EncodeRFrame(d1.sendAddress, d1.nextTx.rframe.error, Flip(d1.lastRx.iframe.seqNo)), true)
    case SendSFrame =>
      Sent(d1.(lastFrame := SFrame), EncodeSFrame(d1.sendAddress, d1.nextTx.sframe), true)
    case Idle => Sent(d1, [], false)
  }

  /** iso7816_t1_send with an APDU. */
  function Send(d: Driver, apdu: seq<byte>): Sent
  {
    Transmit(if d.state == Idle then
               SetIFrame(d.(nextTx := d.nextTx.(iframe := d.nextTx.iframe.(present := true, data := apdu, totalSize := |apdu|))))
             else d)
  }

  // ---------- the receiver side ----------

  function FinishRecovery(d: Driver): Driver
  {
    d.(state := Idle, recoveryCounter := 0)
  }

  function ResetParams(d: Driver): Driver
  {
    d.(state := Idle,
       lastRx := d.lastRx.(kind := InvalidFrame, iframe := d.lastRx.iframe.(seqNo := 1)),
       nextTx := d.nextTx.(kind := InvalidFrame, iframe := d.nextTx.iframe.(present := false, data := [], seqNo := 1)),
       lastTx := d.lastTx.(kind := InvalidFrame, iframe := d.lastTx.iframe.(present := false, data := [], seqNo := 1)),
       recoveryCounter := 0, timeoutCounter := 0, lastFrame := UnknownFrame, rnackCounter := 0)
  }

  /** Spends one recovery attempt on `retry`, or gives up. */
  function Recover(d: Driver, retry: Driver): Driver
  {
    if d.recoveryCounter < FrameRetryCount then retry.(recoveryCounter := d.recoveryCounter + 1) else FinishRecovery(d)
  }

  function AskRFrame(d: Driver, error: RError): Driver
  {
    d.(nextTx := d.nextTx.(kind := RFrame, rframe := d.nextTx.rframe.(error := error)), state := SendRFrame)
  }

  function DecodeIBlock(d: Driver, pcb: byte, inf: seq<byte>): Driver
  {
    var d1 := d.(lastRx := d.lastRx.(kind := IFrame));
    if d1.lastRx.iframe.seqNo == EseBit(pcb, 6) then Recover(d1, AskRFrame(d1, OtherError))
    else
      var chain := EseBit(pcb, 5) == 1;
      var d2 := d1.(recoveryCounter := 0,
                    lastRx := d1.lastRx.(iframe := d1.lastRx.iframe.(seqNo := EseBit(pcb, 6), chain := chain)));
      var d3 := if chain then AskRFrame(d2, NoError) else d2.(state := Idle);
      d3.(recvData := d3.recvData + [inf])
  }

  /** The retransmission of the last I-block the host sent. */
  function ResendIFrame(d: Driver): Driver
  {
    d.(nextTx := d.lastTx.(kind := IFrame), state := SendIFrame)
  }

  /** An R-block with an error code of 1 or 2. */
  function DecodeRError(d: Driver): Driver
  {
    match d.lastTx.kind
    case IFrame => ResendIFrame(d)
    case RFrame =>
      if d.lastRx.rframe.seqNo == d.lastTx.iframe.seqNo && d.lastFrame == IFrame then ResendIFrame(d)
      else if d.lastRx.rframe.seqNo != d.lastTx.iframe.seqNo && d.lastFrame == RFrame then AskRFrame(d, NoError)
      else AskRFrame(d, OtherError)
    case SFrame => d.(nextTx := d.lastTx)
    case _ => d
  }

  function DecodeRBlock(d: Driver, pcb: byte): Driver
  {
    var error := match (EseBit(pcb, 1), EseBit(pcb, 0)) {
      case (0, 0) => NoError
      case (0, _) => Parity
      case (_, 0) => OtherError
      case _ => SofMissed
    };
    var heard := d.(lastRx := d.lastRx.(kind := RFrame, rframe := d.lastRx.rframe.(seqNo := EseBit(pcb, 4))));
    match error
    case NoError =>
      var d1 := heard.(lastRx := heard.lastRx.(rframe := heard.lastRx.rframe.(error := NoError)), recoveryCounter := 0);
      if d1.lastRx.rframe.seqNo != d1.lastTx.iframe.seqNo then NextIFrame(d1) else d1
    case SofMissed =>
      Recover(heard, heard.(lastRx := heard.lastRx.(rframe := heard.lastRx.rframe.(error := SofMissed)), nextTx := heard.lastTx))
    case _ =>
      var d1 := heard.(lastRx := heard.lastRx.(rframe := heard.lastRx.rframe.(error := error)));
      Recover(d1, DecodeRError(d1))
  }

  function DecodeSBlock(d: Driver, pcb: byte): Driver
  {
    var d1 := d.(lastRx := d.lastRx.(kind := SFrame));
    match pcb % 0x40
    case 0x00 =>
      var d2 := ResetParams(d1);
      d2.(lastRx := d2.lastRx.(sframe := ResynchReq), nextTx := d2.nextTx.(kind := SFrame, sframe := ResynchRsp), state := SendSFrame)
    case 0x20 => d1.(lastRx := d1.lastRx.(sframe := ResynchRsp), nextTx := d1.nextTx.(kind := UnknownFrame), state := Idle)
    case 0x02 => d1.(lastRx := d1.lastRx.(sframe := AbortReq))
    case 0x22 => d1.(lastRx := d1.lastRx.(sframe := AbortRsp), nextTx := d1.nextTx.(kind := UnknownFrame), state := Idle)
    case 0x03 =>
      if d1.lastTx.kind == SFrame && d1.lastTx.sframe != WtxRsp then Recover(d1, d1.(nextTx := d1.lastTx))
      else
        d1.(lastRx := d1.lastRx.(sframe := WtxReq), nextTx := d1.nextTx.(kind := SFrame, sframe := WtxRsp), state := SendSFrame)
    case 0x23 => d1.(lastRx := d1.lastRx.(sframe := WtxRsp))
    case _ => d1
  }

  /** iso7816_t1_decode_frame on a block whose check byte is right. */
  function Decode(d: Driver, block: seq<byte>): Driver
    requires |block| >= 4
  {
    var pcb := block[1];
    if EseBit(pcb, 7) == 0 then DecodeIBlock(d, pcb, block[HeaderSize..|block| - 1])
    else if EseBit(pcb, 6) == 0 then DecodeRBlock(d, pcb)
    else DecodeSBlock(d, pcb)
  }

  /** What one attempt to read from the bus yields: nothing, a wrong address byte (or a hundred idle
      ones), or a whole block. */
  datatype RxEvent = Silence | BadAddress | Block(data: seq<byte>)

  predicate WholeBlock(e: RxEvent)
  {
    e.Block? ==> |e.data| >= 4 && |e.data| - 4 == e.data[2]
  }

  datatype Processed = Processed(driver: Driver, ok: bool)

  /** Sends an R-block that asks for the expected block again, or gives up after two in a row. */
  function Nack(d: Driver, error: RError): Driver
  {
    if d.rnackCounter < MaxRnackRetry then
      var asked := AskRFrame(d.(lastRx := d.lastRx.(kind := InvalidFrame)), error);
      asked.(nextTx := asked.nextTx.(rframe := asked.nextTx.rframe.(seqNo := 0x10 * Flip(d.lastRx.iframe.seqNo))),
             rnackCounter := d.rnackCounter + 1)
    else d.(rnackCounter := 0, state := Idle)
  }

  function NoBlock(d: Driver, badAddress: bool): Driver
  {
    if (d.lastTx.kind == SFrame && (d.lastTx.sframe == WtxRsp || d.lastTx.sframe == ResynchRsp)) || badAddress then
      if d.rnackCounter < MaxRnackRetry then Nack(d, OtherError) else Nack(d, OtherError).(timeoutCounter := 0)
    else if d.timeoutCounter < TimeoutRetryCount then d.(timeoutCounter := d.timeoutCounter + 1, nextTx := d.lastTx)
    else d.(state := Idle, timeoutCounter := 0)
  }

  /** iso7816_t1_process. */
  function Process(d: Driver, e: RxEvent): Processed
    requires WholeBlock(e)
  {
    match e
    case Block(data) =>
      var d1 := d.(timeoutCounter := 0);
      if LrcOk(data) then Processed(Decode(d1.(rnackCounter := 0), data), true)
      else Processed(Nack(d1, Parity), false)
    case Silence => Processed(NoBlock(d, false), false)
    case BadAddress => Processed(NoBlock(d, true), false)
  }

  datatype Round = Round(driver: Driver, frame: seq<byte>, ok: bool)

  /** One turn of the receive loop: process what arrives and, unless that ends the exchange, send. */
  function HostRound(d: Driver, e: RxEvent, busOk: bool): Round
    requires WholeBlock(e)
  {
    var p := Process(d, e);
    if p.driver.state == Idle then Round(p.driver, [], p.ok)
    else
      var sent := Transmit(p.driver);
      if sent.ok && busOk then Round(sent.driver, sent.frame, true) else Round(sent.driver.(state := Idle), sent.frame, false)
  }

  datatype Reception = Reception(event: RxEvent, busOk: bool)

  /** iso7816_t1_receive up to the end of its loop, on the events the bus delivers. */
  function ReceiveRun(d: Driver, ok: bool, bus: seq<Reception>): Processed
    requires forall k :: 0 <= k < |bus| ==> WholeBlock(bus[k].event)
    decreases |bus|
  {
    if bus == [] then Processed(d, ok)
    else
      var round := HostRound(d, bus[0].event, bus[0].busOk);
      if round.driver.state == Idle then Processed(round.driver, round.ok)
      else ReceiveRun(round.driver, round.ok, bus[1..])
  }
}
