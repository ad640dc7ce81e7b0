/** The receive path of an SPCOM channel (kernel/files/spu/spcom.c) within one connection: transaction
    ids, the one-packet receive buffer filled by the rx worker, and spcom_rx, which drops the channel
    lock while it waits. */
module SpcomRxSpec {
  import opened Bytes
  import opened Options

  const InitialTxnId := 0x12345678

  /** A packet as the driver sees it, and, for the proof only, the request it belongs to. */
  datatype Packet = Packet(txnId: nat, bytes: seq<byte>, serial: nat)

  datatype Channel = Channel(
    txnId: nat, isServer: bool, roleUndefined: bool,
    rxBuf: Option<Packet>, actualRxSize: nat, rxBufTxnId: nat, rxDone: bool)

  function NextId(id: nat): nat
  {
    (id + 1) % TwoTo32
  }

  function InitChannel(): Channel
  {
    Channel(InitialTxnId, false, true, None, 0, InitialTxnId, false)
  }

  /** The transaction part of spcom_send_message: whoever sends first is the client, and a client
      draws a fresh id. */
  function BeginSend(ch: Channel): Channel
  {
    var ch1 := if ch.roleUndefined then ch.(roleUndefined := false, isServer := false) else ch;
    if ch1.isServer then ch1 else ch1.(txnId := NextId(ch1.txnId))
  }

  /** A client drops a packet under another id. */
  predicate Stored(ch: Channel, packet: Packet)
  {
    ch.roleUndefined || ch.isServer || packet.txnId == ch.txnId
  }

  /** One packet through spcom_signal_rx_done. */
  function SignalRxDone(ch: Channel, packet: Packet): (after: Channel)
    ensures after.rxBuf == if Stored(ch, packet) then Some(packet) else None
  {
    var ch1 := if ch.roleUndefined then ch.(roleUndefined := false, isServer := true, txnId := packet.txnId) else ch;
    var ch2 := if ch1.rxBuf.Some? then ch1.(rxBuf := None, actualRxSize := 0) else ch1;
    if !ch2.isServer && packet.txnId != ch2.txnId then ch2
    else ch2.(rxBuf := Some(packet), actualRxSize := |packet.bytes|, rxBufTxnId := ch2.txnId, rxDone := true)
  }

  // ---------- the list of pending packets ----------

  /** The worker takes the oldest packet of all channels and goes on, but returns after one it drops. */
  function Drain<C(==)>(chs: map<C, Channel>, items: seq<(C, Packet)>): (r: (map<C, Channel>, nat))
    requires forall item :: item in items ==> item.0 in chs
    ensures r.0.Keys == chs.Keys && r.1 <= |items| && (items != [] ==> r.1 > 0)
    decreases |items|
  {
    if items == [] then (chs, 0)
    else
      var (c, packet) := items[0];
      var next := chs[c := SignalRxDone(chs[c], packet)];
      if Stored(chs[c], packet) then
        var (end, handled) := Drain(next, items[1..]);
        (end, handled + 1)
      else (next, 1)
  }

  /** The worker has come from the whole list to its rest. */
  ghost predicate Reached<C>(chs: map<C, Channel>, items: seq<(C, Packet)>, now: map<C, Channel>, handled: nat)
  {
    && handled <= |items|
    && (forall item :: item in items ==> item.0 in chs)
    && (forall item :: item in items[handled..] ==> item.0 in now)
    && Drain(chs, items).0 == Drain(now, items[handled..]).0
    && Drain(chs, items).1 == Drain(now, items[handled..]).1 + handled
  }

  lemma ReachedStep<C>(chs: map<C, Channel>, items: seq<(C, Packet)>, now: map<C, Channel>, handled: nat)
    requires Reached(chs, items, now, handled) && handled < |items|
    ensures var (c, packet) := items[handled];
      var next := now[c := SignalRxDone(now[c], packet)];
      if Stored(now[c], packet) then Reached(chs, items, next, handled + 1)
      else Drain(chs, items).0 == next && Drain(chs, items).1 == handled + 1
  {
    assert items[handled..][1..] == items[handled + 1..];
  }

  /** Every callback schedules the worker again. */
  function DrainAll<C(==)>(chs: map<C, Channel>, items: seq<(C, Packet)>): (r: map<C, Channel>)
    requires forall item :: item in items ==> item.0 in chs
    ensures r.Keys == chs.Keys
    decreases |items|
  {
    if items == [] then chs
    else
      var (end, handled) := Drain(chs, items);
      DrainAll(end, items[handled..])
  }

  function For<C(==)>(c: C, items: seq<(C, Packet)>): seq<Packet>
  {
    if items == [] then []
    else if items[0].0 == c then [items[0].1] + For(c, items[1..])
    else For(c, items[1..])
  }

  function Deliver(ch: Channel, packets: seq<Packet>): Channel
    decreases |packets|
  {
    if packets == [] then ch else Deliver(SignalRxDone(ch, packets[0]), packets[1..])
  }

  datatype Error = TimedOutError | InterruptedError | NothingReceived | NoBuffer

  datatype RxResult = Packeted(packet: Packet) | MustWait | Failed(error: Error)

  datatype Rx = Rx(channel: Channel, result: RxResult)

  /** Hands the buffered packet over and empties the buffer. */
  function Consume(ch: Channel): Rx
  {
    if ch.rxBuf.None? then Rx(ch, Failed(NoBuffer))
    else Rx(ch.(rxBuf := None, actualRxSize := 0), Packeted(ch.rxBuf.value))
  }

  /** spcom_rx up to the wait: a packet stored under another id is thrown away. */
  function RxEnter(ch: Channel): Rx
  {
    var ch1 := if ch.rxBufTxnId != ch.txnId && ch.rxBuf.Some? then ch.(rxBuf := None, actualRxSize := 0) else ch;
    if ch1.actualRxSize == 0 then Rx(ch1.(rxDone := false), MustWait) else Consume(ch1)
  }

  datatype Cause = Completed | TimedOut | Interrupted

  /** spcom_rx after the wait, the channel lock taken again. */
  function RxWake(ch: Channel, cause: Cause): Rx
  {
    match cause
    case TimedOut => Rx(ch.(txnId := NextId(ch.txnId)), Failed(TimedOutError))
    case Interrupted => Rx(ch, Failed(InterruptedError))
    case Completed => if ch.actualRxSize == 0 then Rx(ch, Failed(NothingReceived)) else Consume(ch)
  }

  /** The part of spcom_get_next_request_size that changes the channel before its wait. */
  function NextRequestSize(ch: Channel): Channel
  {
    (if ch.roleUndefined then ch.(roleUndefined := false, isServer := true) else ch).(rxDone := false)
  }

  /** A server adopts the id of the request it has read. */
  function AdoptId(ch: Channel, packet: Packet): Channel
  {
    if ch.isServer then ch.(txnId := packet.txnId) else ch
  }
}
