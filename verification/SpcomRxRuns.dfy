/** Every interleaving of senders, readers and the rx worker on one channel. */
module SpcomRxRuns {
  import opened Bytes
  import opened Options
  import opened SpcomRxSpec

  /** Where the reading thread is: outside, asleep in spcom_rx with the lock dropped, or back from
      spcom_rx and about to look at the packet. */
  datatype Reader = Outside | Asleep | Holding(packet: Packet)

  /** `serial` counts the ids drawn and `latest` is the serial of the latest request; the ids the driver
      compares are these numbers modulo 2^32. `lastRead` is the id of the request a server read last. */
  datatype World = World(channel: Channel, reader: Reader, serial: nat, latest: nat, lastRead: Option<nat>)

  datatype Action =
    | Send | Worker(packet: Packet) | Enter | Wake(cause: Cause) | Finish | AskSize

  function IdOf(serial: nat): nat
  {
    (InitialTxnId + serial) % TwoTo32
  }

  /** A packet answers some request already sent, under the id of that request. */
  predicate Answers(packet: Packet, latest: nat)
  {
    packet.bytes != [] && 0 < packet.serial <= latest && packet.txnId == IdOf(packet.serial)
  }

  predicate EnabledClient(w: World, a: Action)
  {
    match a
    case Send => w.reader.Outside?
    case Worker(packet) => Answers(packet, w.latest)
    case Enter => w.reader.Outside? && w.latest > 0
    case Wake(cause) => w.reader.Asleep? && (cause.Completed? ==> w.channel.rxDone)
    case Finish => w.reader.Holding?
    case AskSize => w.reader.Outside? && w.latest > 0
  }

  function AfterRx(w: World, rx: Rx): World
  {
    w.(channel := rx.channel, reader := if rx.result.MustWait? then Asleep else if rx.result.Packeted? then Holding(rx.result.packet) else Outside)
  }

  function Next(w: World, a: Action): World
  {
    match a
    case Send =>
      var ch := BeginSend(w.channel);
      w.(channel := ch, serial := if ch.isServer then w.serial else w.serial + 1, latest := if ch.isServer then w.latest else w.serial + 1)
    case Worker(packet) => w.(channel := SignalRxDone(w.channel, packet))
    case Enter => AfterRx(w, RxEnter(w.channel))
    case Wake(cause) =>
      var rx := RxWake(w.channel, cause);
      AfterRx(w.(serial := if cause.TimedOut? then w.serial + 1 else w.serial), rx)
    case Finish =>
      if w.reader.Holding? then
        w.(channel := AdoptId(w.channel, w.reader.packet), reader := Outside,
           lastRead := if w.channel.isServer then Some(w.reader.packet.txnId) else w.lastRead)
      else w
    case AskSize => w.(channel := NextRequestSize(w.channel))
  }

  function Initial(): World
  {
    World(InitChannel(), Outside, 0, 0, None)
  }

  /** A channel that became a client by sending first. */
  predicate ClientInvariant(w: World)
  {
    var ch := w.channel;
    && (w.latest == 0 ==> w == Initial())
    && (w.latest > 0 ==> !ch.roleUndefined && !ch.isServer)
    && ch.txnId == IdOf(w.serial) && w.latest <= w.serial
    && ch.actualRxSize == (if ch.rxBuf.Some? then |ch.rxBuf.value.bytes| else 0)
    && (ch.rxBuf.Some? ==> Answers(ch.rxBuf.value, w.latest) && ch.rxBuf.value.txnId == ch.rxBufTxnId)
    && (w.reader.Asleep? && ch.rxBuf.Some? ==> ch.rxBuf.value.txnId == ch.txnId && ch.rxDone)
    && (w.reader.Holding? ==> Answers(w.reader.packet, w.latest) && w.reader.packet.txnId == ch.txnId)
  }

  lemma ClientKeeps(w: World, a: Action)
    requires ClientInvariant(w) && EnabledClient(w, a)
    ensures ClientInvariant(Next(w, a))
  {
    IdAdvances(w.serial);
  }

  lemma IdAdvances(serial: nat)
    ensures NextId(IdOf(serial)) == IdOf(serial + 1) && IdOf(0) == InitialTxnId
  {
  }

  /** Ids repeat exactly after 2^32 draws. */
  lemma SameId(a: nat, b: nat)
    requires a <= b
    ensures IdOf(a) == IdOf(b) <==> (b - a) % TwoTo32 == 0
  {
  }

  predicate EnabledRun(w: World, run: seq<Action>)
    decreases |run|
  {
    run != [] ==> EnabledClient(w, run[0]) && EnabledRun(Next(w, run[0]), run[1..])
  }

  function Run(w: World, run: seq<Action>): World
    decreases |run|
  {
    if run == [] then w else Run(Next(w, run[0]), run[1..])
  }

  lemma {:induction false} RunKeeps(w: World, run: seq<Action>)
    requires ClientInvariant(w) && EnabledRun(w, run)
    ensures ClientInvariant(Run(w, run))
    decreases |run|
  {
    if run != [] {
      ClientKeeps(w, run[0]);
      RunKeeps(Next(w, run[0]), run[1..]);
    }
  }

  /** No stale response: whatever late packets, timeouts, interruptions and wakeups a run contains, a
      packet spcom_rx hands over carries the current id, and while fewer than 2^32 ids have been drawn
      it answers the latest request and nothing else. */
  lemma NeverStale(run: seq<Action>)
    requires EnabledRun(Initial(), run) && Run(Initial(), run).reader.Holding?
    ensures var end := Run(Initial(), run);
      && end.reader.packet.txnId == end.channel.txnId
      && (end.serial < TwoTo32 ==> end.reader.packet.serial == end.latest == end.serial)
  {
    RunKeeps(Initial(), run);
    var end := Run(Initial(), run);
    SameId(end.reader.packet.serial, end.serial);
  }

  /** A reader that sleeps on a channel with a packet has been woken, and what it comes back with is that packet. */
  lemma SleeperIsWoken(run: seq<Action>)
    requires EnabledRun(Initial(), run)
    ensures var end := Run(Initial(), run);
      end.reader.Asleep? && end.channel.rxBuf.Some? ==>
        EnabledClient(end, Wake(Completed)) && Next(end, Wake(Completed)).reader == Holding(end.channel.rxBuf.value)
  {
    RunKeeps(Initial(), run);
  }

  /** The reader can come back with what has just arrived. */
  predicate Wakes(w: World, packet: Packet)
  {
    EnabledClient(w, Wake(Completed)) && Next(w, Wake(Completed)).reader == Holding(packet)
  }

  /** An answer that arrives while the reader sleeps wakes it and is handed over, exactly if it answers the current
      request: no other answer is, and while fewer than 2^32 ids have been drawn the current request is the latest. */
  lemma AnswerWakesExactly(run: seq<Action>, answer: Packet)
    requires EnabledRun(Initial(), run) && Run(Initial(), run).reader.Asleep?
    requires Answers(answer, Run(Initial(), run).latest)
    ensures var end := Run(Initial(), run);
      && (Wakes(Next(end, Worker(answer)), answer) <==> (end.serial - answer.serial) % TwoTo32 == 0)
      && (end.serial < TwoTo32 ==>
            (Wakes(Next(end, Worker(answer)), answer) <==> answer.serial == end.latest == end.serial))
  {
    RunKeeps(Initial(), run);
    SameId(answer.serial, Run(Initial(), run).serial);
  }

  lemma StoredPacketIsFirst(ch: Channel, packets: seq<Packet>)
    requires packets != []
    ensures (exists i :: 0 <= i < |packets| && packets[i].txnId == ch.txnId)
      <==> packets[0].txnId == ch.txnId
           || exists i :: 0 <= i < |packets[1..]| && packets[1..][i].txnId == ch.txnId
  {
    if i :| 0 <= i < |packets| && packets[i].txnId == ch.txnId {
      assert i > 0 ==> packets[1..][i - 1].txnId == ch.txnId;
    }
    if i :| 0 <= i < |packets[1..]| && packets[1..][i].txnId == ch.txnId {
      assert packets[i + 1].txnId == ch.txnId;
    }
  }

  /** A client's reader that has just gone to sleep is woken by the packets that arrive if and only if one of them has
      the current id. */
  lemma WokenExactly(ch: Channel, packets: seq<Packet>)
    requires !ch.isServer && !ch.roleUndefined && RxEnter(ch).result.MustWait?
    ensures Deliver(RxEnter(ch).channel, packets).rxDone
      <==> exists i :: 0 <= i < |packets| && packets[i].txnId == ch.txnId
  {
    DoneExactly(RxEnter(ch).channel, packets);
  }

  lemma {:induction false} DoneExactly(ch: Channel, packets: seq<Packet>)
    requires !ch.isServer && !ch.roleUndefined
    ensures Deliver(ch, packets).rxDone
      <==> ch.rxDone || exists i :: 0 <= i < |packets| && packets[i].txnId == ch.txnId
    decreases |packets|
  {
    if packets != [] {
      DoneExactly(SignalRxDone(ch, packets[0]), packets[1..]);
      StoredPacketIsFirst(ch, packets);
    }
  }

  /** spcom_rx hands a stored packet over without waiting exactly if it has the current id; otherwise the channel is
      empty from then on and the reader sleeps until it is woken. */
  lemma EnterExactly(run: seq<Action>, packet: Packet)
    requires EnabledRun(Initial(), run)
    ensures var end := Run(Initial(), run);
      EnabledClient(end, Enter) ==>
        && (Next(end, Enter).reader == Holding(packet)
            <==> end.channel.rxBuf == Some(packet) && packet.txnId == end.channel.txnId)
        && (!Next(end, Enter).reader.Holding? ==> Next(end, Enter).reader.Asleep?)
        && Next(end, Enter).channel.rxBuf == None
        && (Next(end, Enter).reader.Asleep? ==> !EnabledClient(Next(end, Enter), Wake(Completed)))
  {
    RunKeeps(Initial(), run);
  }

  /** At any point of any run at which nobody reads, a whole transaction can follow: the request draws the next id, the
      reader sleeps whatever was left behind, the answer to that request wakes it and is handed over, and the channel is
      free again. Fewer than 2^32 ids have been drawn. */
  lemma TransactionCompletes(run: seq<Action>, answer: Packet)
    requires EnabledRun(Initial(), run) && Run(Initial(), run).reader.Outside?
    requires answer.bytes != [] && answer.serial == Run(Initial(), run).serial + 1 < TwoTo32
    requires answer.txnId == IdOf(answer.serial)
    ensures var start := Run(Initial(), run);
      Transaction(start, Next(start, Send), Next(Next(start, Send), Enter), answer)
  {
    var start := Run(Initial(), run);
    RunKeeps(Initial(), run);
    ClientKeeps(start, Send);
    IdAdvances(start.serial);
    if start.channel.rxBuf.Some? {
      SameId(start.channel.rxBuf.value.serial, start.serial + 1);
    }
    Answered(Next(Next(start, Send), Enter), answer);
  }

  predicate Transaction(start: World, sent: World, asleep: World, answer: Packet)
  {
    && EnabledClient(start, Send) && sent.channel.txnId == answer.txnId && EnabledClient(sent, Enter)
    && asleep.reader.Asleep? && EnabledClient(asleep, Worker(answer))
    && var stored := Next(asleep, Worker(answer));
       && EnabledClient(stored, Wake(Completed)) && Next(stored, Wake(Completed)).reader == Holding(answer)
       && var done := Next(Next(stored, Wake(Completed)), Finish);
          done.reader.Outside? && done.channel.rxBuf == None && done.channel.txnId == answer.txnId
  }

  lemma Answered(asleep: World, answer: Packet)
    requires asleep.reader.Asleep? && !asleep.channel.roleUndefined && !asleep.channel.isServer
    requires answer.txnId == asleep.channel.txnId && answer.bytes != []
    ensures var stored := Next(asleep, Worker(answer));
      && EnabledClient(stored, Wake(Completed)) && Next(stored, Wake(Completed)).reader == Holding(answer)
      && var done := Next(Next(stored, Wake(Completed)), Finish);
         done.reader.Outside? && done.channel.rxBuf == None && done.channel.txnId == answer.txnId
  {
  }

  /** The worker keeps a client's packet exactly when its request is the current one, up to a multiple
      of 2^32 ids: this is what the limit in NeverStale is for. */
  lemma WorkerKeepsExactly(w: World, packet: Packet)
    requires ClientInvariant(w) && w.latest > 0 && Answers(packet, w.latest)
    ensures SignalRxDone(w.channel, packet).rxBuf == Some(packet) <==> (w.serial - packet.serial) % TwoTo32 == 0
    ensures (w.serial - packet.serial) % TwoTo32 != 0 ==> SignalRxDone(w.channel, packet).rxBuf == None
  {
    SameId(packet.serial, w.serial);
  }

  /** One outstanding transaction is needed: a second request sent while a reader sleeps lets that
      reader come back with the answer to the first one. */
  lemma SecondRequestGetsFirstAnswer(answer: Packet)
    requires answer.txnId == IdOf(1) && answer.bytes != []
    ensures var one := Next(Next(Initial(), Send), Enter);
      var answered := Next(one, Worker(answer));
      var overtaken := Next(answered, Send);
      var end := Next(overtaken, Wake(Completed));
      end.reader == Holding(answer) && end.latest == 2
  {
    IdAdvances(0);
  }

  // ---------- servers ----------

  /** On a server any packet may arrive at any time; a server waits without a timeout. */
  predicate EnabledServer(w: World, a: Action)
  {
    match a
    case Send => !w.channel.roleUndefined
    case Worker(packet) => packet.bytes != []
    case Enter => w.reader.Outside?
    case Wake(cause) => w.reader.Asleep? && !cause.TimedOut? && (cause.Completed? ==> w.channel.rxDone)
    case Finish => w.reader.Holding?
    case AskSize => w.reader.Outside?
  }

  predicate ServerInvariant(w: World)
  {
    && (!w.channel.roleUndefined ==> w.channel.isServer)
    && (w.lastRead.Some? ==> !w.channel.roleUndefined && w.channel.txnId == w.lastRead.value)
    && (w.channel.roleUndefined ==> !w.reader.Holding? && w.channel.rxBuf.None? && w.channel.actualRxSize == 0)
    && w.channel.actualRxSize == (if w.channel.rxBuf.Some? then |w.channel.rxBuf.value.bytes| else 0)
    && (w.channel.rxBuf.Some? ==> w.channel.rxBuf.value.bytes != [])
    && (w.reader.Asleep? && w.channel.rxBuf.Some? ==> w.channel.rxDone)
  }

  predicate ServerRun(w: World, run: seq<Action>)
    decreases |run|
  {
    run != [] ==> EnabledServer(w, run[0]) && ServerRun(Next(w, run[0]), run[1..])
  }

  lemma ServerKeeps(w: World, a: Action)
    requires ServerInvariant(w) && EnabledServer(w, a)
    ensures ServerInvariant(Next(w, a))
  {
  }

  lemma {:induction false} ServerRunKeeps(w: World, run: seq<Action>)
    requires ServerInvariant(w) && ServerRun(w, run)
    ensures ServerInvariant(Run(w, run))
    decreases |run|
  {
    if run != [] {
      ServerKeeps(w, run[0]);
      ServerRunKeeps(Next(w, run[0]), run[1..]);
    }
  }

  /** A server's reply carries the id of the request it last read, whatever arrived in between. */
  lemma ReplyMatchesRequest(run: seq<Action>)
    requires ServerRun(Initial(), run) && Run(Initial(), run).lastRead.Some?
    ensures var end := Run(Initial(), run);
      BeginSend(end.channel).isServer && BeginSend(end.channel).txnId == end.lastRead.value
  {
    ServerRunKeeps(Initial(), run);
  }

  /** A server's sleeping reader is woken by every packet, and comes back with the last of them. */
  lemma EveryPacketWakesServer(run: seq<Action>, packet: Packet)
    requires ServerRun(Initial(), run) && Run(Initial(), run).reader.Asleep? && packet.bytes != []
    ensures var next := Next(Run(Initial(), run), Worker(packet));
      EnabledServer(next, Wake(Completed)) && Next(next, Wake(Completed)).reader == Holding(packet)
  {
    ServerRunKeeps(Initial(), run);
  }

  /** The first packet makes its channel a server under that packet's id, which can be read at once and answered. */
  lemma FirstPacketMakesServer(request: Packet)
    requires request.bytes != []
    ensures var received := Next(Initial(), Worker(request));
      && received.channel.isServer && !received.channel.roleUndefined && received.channel.txnId == request.txnId
      && Next(received, Enter).reader == Holding(request)
      && BeginSend(Next(Next(received, Enter), Finish).channel).txnId == request.txnId
  {
  }

  /** So does asking for the size of a request; and whoever sends first is the client, under id 0x12345679. */
  lemma RolesAreTaken()
    ensures var asked := Next(Initial(), AskSize).channel; asked.isServer && !asked.roleUndefined && !asked.rxDone
    ensures var sent := Next(Initial(), Send).channel;
      !sent.isServer && !sent.roleUndefined && sent.txnId == 0x12345679
  {
  }

  // ---------- the worker's list ----------

  lemma {:induction false} ForConcat<C>(c: C, a: seq<(C, Packet)>, b: seq<(C, Packet)>)
    ensures For(c, a + b) == For(c, a) + For(c, b)
    decreases |a|
  {
    if a == [] {
      assert a + b == b;
    } else {
      ForStep(c, a + b, a[0], a[1..] + b);
      ForStep(c, a, a[0], a[1..]);
      ForConcat(c, a[1..], b);
      ConcatAssoc([a[0].1], For(c, a[1..]), For(c, b));
    }
  }

  lemma ForStep<C>(c: C, items: seq<(C, Packet)>, first: (C, Packet), rest: seq<(C, Packet)>)
    requires items == [first] + rest
    ensures For(c, items) == if first.0 == c then [first.1] + For(c, rest) else For(c, rest)
  {
    assert items[1..] == rest;
  }

  lemma {:induction false} DeliverConcat(ch: Channel, a: seq<Packet>, b: seq<Packet>)
    ensures Deliver(ch, a + b) == Deliver(Deliver(ch, a), b)
    decreases |a|
  {
    if a == [] {
      assert a + b == b;
    } else {
      assert (a + b)[1..] == a[1..] + b;
      DeliverConcat(SignalRxDone(ch, a[0]), a[1..], b);
    }
  }

  /** What the worker did to a channel is what that channel's own packets among the handled ones do, in order. */
  lemma {:induction false} DrainPerChannel<C>(chs: map<C, Channel>, items: seq<(C, Packet)>, c: C)
    requires (forall item :: item in items ==> item.0 in chs) && c in chs
    ensures var (end, handled) := Drain(chs, items); end[c] == Deliver(chs[c], For(c, items[..handled]))
    decreases |items|
  {
    if items != [] {
      var (d, packet) := items[0];
      var next := chs[d := SignalRxDone(chs[d], packet)];
      var handled := Drain(chs, items).1;
      assert items[..handled] == [items[0]] + items[1..][..handled - 1];
      ForConcat(c, [items[0]], items[1..][..handled - 1]);
      assert [items[0]][1..] == [];
      if Stored(chs[d], packet) {
        DrainPerChannel(next, items[1..], c);
      } else {
        assert items[1..][..0] == [];
      }
      DeliverConcat(chs[c], For(c, [items[0]]), For(c, items[1..][..handled - 1]));
    }
  }

  /** A drop only delays the packets behind it: once the worker has been through the list, every channel has seen
      all of its own packets, in the order they arrived, and nobody else's. */
  lemma {:induction false} DropsOnlyDelay<C>(chs: map<C, Channel>, items: seq<(C, Packet)>, c: C)
    requires (forall item :: item in items ==> item.0 in chs) && c in chs
    ensures DrainAll(chs, items)[c] == Deliver(chs[c], For(c, items))
    decreases |items|
  {
    if items != [] {
      var (end, handled) := Drain(chs, items);
      DrainPerChannel(chs, items, c);
      DropsOnlyDelay(end, items[handled..], c);
      assert items == items[..handled] + items[handled..];
      ForConcat(c, items[..handled], items[handled..]);
      DeliverConcat(chs[c], For(c, items[..handled]), For(c, items[handled..]));
    }
  }

  /** The worker stops behind the first packet its channel drops, and nowhere else. */
  lemma {:induction false} DrainStopsExactly<C>(chs: map<C, Channel>, items: seq<(C, Packet)>, k: nat)
    requires (forall item :: item in items ==> item.0 in chs) && k < Drain(chs, items).1
    ensures var (c, packet) := items[k];
      !Stored(Deliver(chs[c], For(c, items[..k])), packet) ==> Drain(chs, items).1 == k + 1
    ensures var (c, packet) := items[k];
      k + 1 == Drain(chs, items).1 < |items| ==> !Stored(Deliver(chs[c], For(c, items[..k])), packet)
    decreases |items|
  {
    var (d, first) := items[0];
    if k > 0 {
      var next := chs[d := SignalRxDone(chs[d], first)];
      DrainStopsExactly(next, items[1..], k - 1);
      var c := items[k].0;
      assert items[..k] == [items[0]] + items[1..][..k - 1];
      ForConcat(c, [items[0]], items[1..][..k - 1]);
      assert [items[0]][1..] == [];
      DeliverConcat(chs[c], For(c, [items[0]]), For(c, items[1..][..k - 1]));
    }
  }
}
