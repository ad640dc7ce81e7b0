/** The rx worker and the channels it fills. Every packet lies in a buffer of its own, allocated by the rpmsg callback
    and freed exactly once: by the worker that drops or replaces it, or by the reader that has copied it out. */
module SpcomRx {
  import opened Bytes
  import opened Kmem
  import opened Options
  import opened SpcomRxSpec

  class RpmsgBuffer {
    const packet: Packet

    constructor (packet: Packet)
      ensures this.packet == packet
    {
      this.packet := packet;
    }
  }

  class RxChannel {
    const kmem: Allocator
    var txnId: nat
    var isServer: bool
    var roleUndefined: bool
    var rxBuf: RpmsgBuffer?
    var actualRxSize: nat
    var rxBufTxnId: nat
    var rxDone: bool

    ghost function View(): Channel
      reads this
    {
      Channel(txnId, isServer, roleUndefined, if rxBuf == null then None else Some(rxBuf.packet), actualRxSize,
              rxBufTxnId, rxDone)
    }

    ghost function Held(): set<object>
      reads this
    {
      if rxBuf == null then {} else {rxBuf}
    }

    /** The recorded size is the buffer's, a client's packet was stored under its own id, and a channel without a
        role has received nothing. */
    ghost predicate Consistent()
      reads this
    {
      && actualRxSize == (if rxBuf == null then 0 else |rxBuf.packet.bytes|)
      && (rxBuf != null ==> actualRxSize > 0 && !roleUndefined)
      && (rxBuf != null && !isServer ==> rxBuf.packet.txnId == rxBufTxnId)
    }

    ghost predicate Valid()
      reads this, kmem
    {
      Consistent() && Held() <= kmem.live
    }

    constructor (kmem: Allocator)
      ensures Valid() && this.kmem == kmem && View() == InitChannel()
    {
      this.kmem := kmem;
      txnId, rxBufTxnId := InitialTxnId, InitialTxnId;
      isServer, roleUndefined := false, true;
      rxBuf, actualRxSize, rxDone := null, 0, false;
    }

    /** Draws the id of an outgoing message: a client's is new, a server's is that of the request it read. */
    method BeginSend() returns (headerTxnId: nat)
      requires Valid()
      modifies this`txnId, this`isServer, this`roleUndefined
      ensures Valid() && View() == SpcomRxSpec.BeginSend(old(View())) && headerTxnId == txnId
      ensures headerTxnId == if isServer then old(txnId) else NextId(old(txnId))
    {
      if roleUndefined {
        roleUndefined, isServer := false, false;
      }
      if !isServer {
        txnId := (txnId + 1) % TwoTo32;
      }
      headerTxnId := txnId;
    }

    method Discard()
      requires Valid() && rxBuf != null
      modifies this`rxBuf, this`actualRxSize, kmem
      ensures Valid() && rxBuf == null && kmem.live == old(kmem.live) - old(Held())
    {
      kmem.Free(rxBuf);
      rxBuf, actualRxSize := null, 0;
    }

    /** The worker's part for one packet: the caller frees the buffer if the channel does not take it. */
    method SignalRxDone(buf: RpmsgBuffer) returns (stored: bool)
      requires Valid() && buf in kmem.live && buf !in Held() && buf.packet.bytes != []
      modifies this, kmem
      ensures Valid() && View() == SpcomRxSpec.SignalRxDone(old(View()), buf.packet)
      ensures stored <==> Stored(old(View()), buf.packet)
      ensures rxDone <==> stored || old(rxDone)
      ensures Held() == if stored then {buf} else {}
      ensures kmem.live == old(kmem.live) - old(Held())
    {
      if roleUndefined {
        roleUndefined, isServer, txnId := false, true, buf.packet.txnId;
      }
      if rxBuf != null {
        Discard();
      }
      if !isServer && buf.packet.txnId != txnId {
        return false;
      }
      rxBuf, actualRxSize := buf, |buf.packet.bytes|;
      rxBufTxnId := txnId;
      rxDone := true;
      stored := true;
    }

    /** Copies as much of the packet as fits and empties the channel. */
    method Consume(buf: array<byte>) returns (result: RxResult)
      requires Valid()
      modifies this`rxBuf, this`actualRxSize, kmem, buf
      ensures Valid() && Rx(View(), result) == SpcomRxSpec.Consume(old(View()))
      ensures kmem.live == old(kmem.live) - old(Held())
      ensures result.Packeted? ==>
                var size := |result.packet.bytes|;
                buf[..] == if size <= buf.Length then result.packet.bytes + old(buf[size..])
                           else result.packet.bytes[..buf.Length]
      ensures !result.Packeted? ==> buf[..] == old(buf[..])
    {
      if rxBuf == null {
        return Failed(NoBuffer);
      }
      var packet := rxBuf.packet;
      var n := if actualRxSize < buf.Length then actualRxSize else buf.Length;
      forall i | 0 <= i < n {
        buf[i] := packet.bytes[i];
      }
      Discard();
      result := Packeted(packet);
    }

    /** spcom_rx from the lock to the wait: whatever is handed over at once belongs to the current id. */
    method RxEnter(buf: array<byte>) returns (result: RxResult)
      requires Valid()
      modifies this, kmem, buf
      ensures Valid() && Rx(View(), result) == SpcomRxSpec.RxEnter(old(View()))
      ensures rxBuf == null && kmem.live == old(kmem.live) - old(Held())
      ensures result.Packeted? ==> old(rxBuf) != null && result.packet == old(rxBuf).packet
      ensures result.Packeted? && !isServer ==> result.packet.txnId == txnId
      ensures result.MustWait? <==> old(rxBuf) == null || old(rxBufTxnId) != txnId
      ensures result.MustWait? ==> !rxDone
    {
      if rxBufTxnId != txnId {
        if rxBuf != null {
          Discard();
        }
      }
      if actualRxSize == 0 {
        rxDone := false;
        return MustWait;
      }
      result := Consume(buf);
    }

    /** spcom_rx from the wakeup on: only a completed wait hands anything over, and after a timeout the channel drops
        the answer that comes too late. */
    method RxWake(cause: Cause, buf: array<byte>) returns (result: RxResult)
      requires Valid()
      modifies this, kmem, buf
      ensures Valid() && Rx(View(), result) == SpcomRxSpec.RxWake(old(View()), cause)
      ensures result.Packeted? <==> cause.Completed? && old(rxBuf) != null
      ensures kmem.live == old(kmem.live) - if result.Packeted? then old(Held()) else {}
      ensures cause.TimedOut? && !isServer && !roleUndefined && old(txnId) < TwoTo32 ==>
                forall late: Packet :: late.txnId == old(txnId) ==> !Stored(View(), late)
    {
      match cause {
        case TimedOut =>
          txnId := (txnId + 1) % TwoTo32;
          return Failed(TimedOutError);
        case Interrupted => return Failed(InterruptedError);
        case Completed =>
          if actualRxSize == 0 {
            return Failed(NothingReceived);
          }
          result := Consume(buf);
      }
    }
  }

  datatype RxItem = RxItem(ch: RxChannel, buf: RpmsgBuffer)

  ghost function Queued(items: seq<RxItem>): set<object>
  {
    set item | item in items :: item.buf as object
  }

  /** What a reader of the list sees. */
  ghost function Packets(items: seq<RxItem>): (packets: seq<(RxChannel, Packet)>)
    ensures |packets| == |items|
    ensures forall i :: 0 <= i < |items| ==> packets[i] == (items[i].ch, items[i].buf.packet)
  {
    if items == [] then [] else [(items[0].ch, items[0].buf.packet)] + Packets(items[1..])
  }

  /** No buffer is queued twice. */
  ghost predicate Distinct(items: seq<RxItem>)
  {
    items != [] ==> items[0].buf as object !in Queued(items[1..]) && Distinct(items[1..])
  }

  lemma QueuedAfterFirst(items: seq<RxItem>)
    requires items != []
    ensures Queued(items) == {items[0].buf as object} + Queued(items[1..])
  {
    assert items == [items[0]] + items[1..];
  }

  lemma QueuedSnoc(items: seq<RxItem>, item: RxItem)
    ensures Queued(items + [item]) == Queued(items) + {item.buf as object}
  {
    assert (items + [item])[|items|] == item;
    forall i | 0 <= i < |items| ensures items[i] in items + [item] {
      assert (items + [item])[i] == items[i];
    }
  }

  lemma {:induction false} DistinctSnoc(items: seq<RxItem>, item: RxItem)
    requires Distinct(items) && item.buf as object !in Queued(items)
    ensures Distinct(items + [item])
  {
    if items == [] {
      assert items + [item] == [item] && [item][1..] == [];
    } else {
      QueuedAfterFirst(items);
      DistinctSnoc(items[1..], item);
      QueuedSnoc(items[1..], item);
      assert (items + [item])[1..] == items[1..] + [item];
    }
  }

  lemma {:induction false} PacketsSnoc(items: seq<RxItem>, item: RxItem)
    ensures Packets(items + [item]) == Packets(items) + [(item.ch, item.buf.packet)]
  {
    if items == [] {
      assert items + [item] == [item] && [item][1..] == [];
    } else {
      PacketsSnoc(items[1..], item);
      assert (items + [item])[1..] == items[1..] + [item];
    }
  }

  /** Of the live buffers that no channel holds, one is gone: taken by a channel or freed. */
  lemma Accounts(live: set<object>, keys: set<object>, dropped: set<object>, buf: object)
    requires dropped <= keys <= live && buf in live && buf !in keys
    ensures keys - dropped + {buf} <= live - dropped && keys - dropped <= live - dropped - {buf}
    ensures (live - dropped) - (keys - dropped + {buf}) == live - keys - {buf}
    ensures (live - dropped - {buf}) - (keys - dropped) == live - keys - {buf}
  {
  }

  class RxDevice {
    const kmem: Allocator
    ghost const channels: set<RxChannel>
    /** Oldest first. */
    var rxList: seq<RxItem>
    ghost var holder: map<object, RxChannel>

    /** The channels are consistent, and holder names the one channel that holds a buffer. */
    ghost predicate Held()
      reads this, channels
    {
      && (forall ch :: ch in channels ==> ch.kmem == kmem && ch.Consistent())
      && (forall ch :: ch in channels && ch.rxBuf != null ==> ch.rxBuf in holder && holder[ch.rxBuf] == ch)
      && (forall b :: b in holder ==> holder[b] in channels && holder[b].rxBuf == b)
    }

    ghost predicate Pending()
      reads this
    {
      Distinct(rxList) && forall item :: item in rxList ==> item.ch in channels && item.buf.packet.bytes != []
    }

    /** Every live buffer is on the list once or held by one channel. */
    ghost predicate Valid()
      reads this, kmem, channels
    {
      && Held() && Pending()
      && holder.Keys <= kmem.live && kmem.live - holder.Keys == Queued(rxList)
    }

    constructor (kmem: Allocator, ghost channels: set<RxChannel>)
      requires kmem.live == {} && forall ch :: ch in channels ==> ch.kmem == kmem && ch.Consistent() && ch.rxBuf == null
      ensures Valid() && this.kmem == kmem && this.channels == channels && rxList == []
    {
      this.kmem, this.channels := kmem, channels;
      rxList, holder := [], map[];
    }

    /** A message of the remote side, put behind those still waiting. */
    method RpdevCallback(ch: RxChannel, packet: Packet)
      requires Valid() && ch in channels && packet.bytes != []
      modifies this`rxList, kmem
      ensures Valid()
      ensures Packets(rxList) == old(Packets(rxList)) + [(ch, packet)]
    {
      var buf := new RpmsgBuffer(packet);
      kmem.Register(buf);
      QueuedSnoc(rxList, RxItem(ch, buf));
      DistinctSnoc(rxList, RxItem(ch, buf));
      PacketsSnoc(rxList, RxItem(ch, buf));
      rxList := rxList + [RxItem(ch, buf)];
    }

    /** The worker with the channel's lock held: a buffer the channel does not take is freed. */
    method GiveTo(ch: RxChannel, buf: RpmsgBuffer) returns (stored: bool)
      requires Held() && ch in channels && buf.packet.bytes != []
      requires holder.Keys <= kmem.live && buf in kmem.live && buf !in holder
      modifies this`holder, kmem, channels
      ensures Held()
      ensures stored == Stored(old(ch.View()), buf.packet)
      ensures ch.View() == SpcomRxSpec.SignalRxDone(old(ch.View()), buf.packet)
      ensures forall c :: c in channels && c != ch ==> c.View() == old(c.View())
      ensures holder.Keys <= kmem.live
      ensures kmem.live - holder.Keys == old(kmem.live - holder.Keys) - {buf}
    {
      ghost var live, keys, dropped := kmem.live, holder.Keys, ch.Held();
      Accounts(live, keys, dropped, buf);
      holder := holder - dropped;
      stored := ch.SignalRxDone(buf);
      if stored {
        holder := holder[buf as object := ch];
        assert holder.Keys == keys - dropped + {buf as object};
      } else {
        kmem.Free(buf);
      }
    }

    /** Unlinks the oldest item, with only the list's lock held. */
    method TakeOldest() returns (item: RxItem)
      requires Valid() && rxList != []
      modifies this`rxList
      ensures item == old(rxList[0]) && rxList == old(rxList)[1..]
      ensures Held() && Pending() && item.ch in channels && item.buf.packet.bytes != []
      ensures item.buf as object !in Queued(rxList)
      ensures kmem.live - holder.Keys == Queued(rxList) + {item.buf as object}
    {
      item := rxList[0];
      QueuedAfterFirst(rxList);
      rxList := rxList[1..];
    }

    method HandleOldest() returns (stored: bool)
      requires Valid() && rxList != []
      modifies this`rxList, this`holder, kmem, channels
      ensures Valid() && rxList == old(rxList)[1..]
      ensures var item := old(rxList[0]);
        && stored == old(Stored(rxList[0].ch.View(), rxList[0].buf.packet))
        && item.ch.View() == old(SpcomRxSpec.SignalRxDone(rxList[0].ch.View(), rxList[0].buf.packet))
        && forall c :: c in channels && c != item.ch ==> c.View() == old(c.View())
    {
      var item := TakeOldest();
      stored := GiveTo(item.ch, item.buf);
    }

    /** The system worker: goes through the list, but leaves the rest for its next run after a packet it dropped.
        views and packets are what it finds. */
    method SignalRxDone(ghost views: map<RxChannel, Channel>, ghost packets: seq<(RxChannel, Packet)>)
      requires Valid() && views == Views() && packets == Packets(rxList)
      modifies this`rxList, this`holder, kmem, channels
      ensures Valid() && forall p :: p in packets ==> p.0 in views
      ensures var (end, handled) := Drain<RxChannel>(views, packets);
        Views() == end && Packets(rxList) == packets[handled..]
    {
      PacketsForChannels();
      ghost var now: map<RxChannel, Channel>, handled: nat := views, 0;
      while rxList != []
        invariant Valid() && now == Views() && Reached<RxChannel>(views, packets, now, handled)
        invariant Packets(rxList) == packets[handled..]
        decreases |rxList|
      {
        ghost var item := rxList[0];
        ReachedStep<RxChannel>(views, packets, now, handled);
        var stored := HandleOldest();
        ViewsAfter(now, item.ch, SpcomRxSpec.SignalRxDone(now[item.ch], item.buf.packet));
        now := now[item.ch := SpcomRxSpec.SignalRxDone(now[item.ch], item.buf.packet)];
        handled := handled + 1;
        if !stored {
          return;
        }
      }
    }

    ghost function Views(): (views: map<RxChannel, Channel>)
      reads this, channels
      ensures views.Keys == channels
      ensures forall ch :: ch in channels ==> views[ch] == ch.View()
    {
      map ch | ch in channels :: ch.View()
    }

    lemma ViewsAfter(before: map<RxChannel, Channel>, ch: RxChannel, view: Channel)
      requires before.Keys == channels && ch in channels && ch.View() == view
      requires forall c :: c in channels && c != ch ==> c.View() == before[c]
      ensures Views() == before[ch := view]
    {
    }

    lemma PacketsForChannels()
      requires Pending()
      ensures forall p :: p in Packets(rxList) ==> p.0 in Views()
    {
    }
  }
}
