/** One writer and one reader at work at the same time, a byte at a time. The writer may size its
    message by a tail it read long ago, the reader by a head it read long ago. */
module GlinkInterleaving {
  import opened Bytes
  import opened GlinkRing

  /** The shared memory. `stream` is everything ever published, filler included, and `consumed` how much
      of it the reader has taken; neither exists in the ring, they are what the ring is measured by. */
  datatype Shared = Shared(fifo: seq<byte>, head: nat, tail: nat, stream: seq<byte>, consumed: nat)

  /** Between sizing a message and publishing it, the writer only knows the tail it read. */
  datatype Writer = Resting | Sized(tailSeen: nat, consumedThen: nat) | Copying(message: seq<byte>, copied: nat)

  datatype Reader = Waiting | Measured(headSeen: nat, publishedThen: nat)

  datatype World = World(shared: Shared, writer: Writer, reader: Reader)

  datatype Action =
    | ReadTail | StartMessage(message: seq<byte>) | CopyByte | Publish
    | ReadHead | Advance(count: nat)

  /** The slot of the n-th byte of the stream. */
  function Slot(n: nat, length: nat): (slot: nat)
    requires length > 0
    ensures slot < length
  {
    if n < length then n else Slot(n - length, length)
  }

  ghost predicate Invariant(w: World)
  {
    var s, length := w.shared, |w.shared.fifo|;
    && RingLength(length)
    && s.consumed <= |s.stream| < s.consumed + length && |s.stream| % FifoAlignment == 0
    && s.head == Slot(|s.stream|, length) && s.tail == Slot(s.consumed, length)
    && Holds(s.fifo, s.stream, s.consumed)
    && WriterInvariant(w) && ReaderInvariant(w)
  }

  ghost predicate WriterInvariant(w: World)
    requires |w.shared.fifo| > 0
  {
    var s, length := w.shared, |w.shared.fifo|;
    match w.writer
    case Resting => true
    case Sized(tailSeen, consumedThen) =>
      tailSeen == Slot(consumedThen, length) && consumedThen <= s.consumed && |s.stream| < consumedThen + length
    case Copying(message, copied) =>
      && copied <= |message| && |s.stream| + AlignUp(|message|) < s.consumed + length
      && Holds(s.fifo, s.stream + message[..copied], |s.stream|)
  }

  /** The bytes of `stream` from `from` on are in their slots. */
  ghost predicate Holds(fifo: seq<byte>, stream: seq<byte>, from: nat)
    requires |fifo| > 0
  {
    forall n :: from <= n < |stream| ==> fifo[Slot(n, |fifo|)] == stream[n]
  }

  ghost predicate ReaderInvariant(w: World)
    requires |w.shared.fifo| > 0
  {
    w.reader.Measured? ==>
      && w.reader.headSeen == Slot(w.reader.publishedThen, |w.shared.fifo|)
      && w.shared.consumed <= w.reader.publishedThen <= |w.shared.stream|
  }

  /** What the pipe functions, reading only the ring and their own snapshot, let each side do. */
  predicate Enabled(w: World, a: Action)
  {
    var length := |w.shared.fifo|;
    match a
    case ReadTail => !w.writer.Copying?
    case StartMessage(message) => w.writer.Sized? && |message| <= TxAvail(w.shared.head, w.writer.tailSeen, length)
    case CopyByte => w.writer.Copying? && w.writer.copied < |w.writer.message|
    case Publish => w.writer.Copying? && w.writer.copied == |w.writer.message|
    case ReadHead => true
    case Advance(count) => w.reader.Measured? && count <= RxAvail(w.reader.headSeen, w.shared.tail, length)
  }

  /** What a peek reads, byte by byte. */
  function PeekByte(w: World, offset: nat): byte
    requires w.shared.tail < |w.shared.fifo| && offset < |w.shared.fifo|
  {
    w.shared.fifo[Wrap(w.shared.tail, offset, |w.shared.fifo|)]
  }

  /** Writes touch one slot of the ring, publishing and advancing move one index. */
  ghost function Next(w: World, a: Action): World
    requires Invariant(w) && Enabled(w, a)
  {
    var s, length := w.shared, |w.shared.fifo|;
    match a
    case ReadTail => w.(writer := Sized(s.tail, s.consumed))
    case StartMessage(message) => w.(writer := Copying(message, 0))
    case CopyByte =>
      w.(shared := s.(fifo := s.fifo[Wrap(s.head, w.writer.copied, length) := w.writer.message[w.writer.copied]]),
         writer := Copying(w.writer.message, w.writer.copied + 1))
    case Publish =>
      var size := AlignUp(|w.writer.message|);
      w.(shared := s.(head := Wrap(s.head, size, length), stream := s.stream + RingRead(s.fifo, s.head, size)),
         writer := Resting)
    case ReadHead => w.(reader := Measured(s.head, |s.stream|))
    case Advance(count) => w.(shared := s.(tail := Wrap(s.tail, count, length), consumed := s.consumed + count))
  }

  // ---------- slots ----------

  /** Moving on by up to one turn is wrapping. */
  lemma {:induction false} SlotAdvance(n: nat, count: nat, length: nat)
    requires 0 < length && count <= length
    ensures Slot(n + count, length) == Wrap(Slot(n, length), count, length)
  {
    if n >= length {
      SlotAdvance(n - length, count, length);
    }
  }

  /** Bytes less than a turn apart live in different slots. */
  lemma SlotsDiffer(n: nat, m: nat, length: nat)
    requires 0 < length && n < m < n + length
    ensures Slot(n, length) != Slot(m, length)
  {
    SlotAdvance(n, m - n, length);
  }

  lemma {:induction false} SlotAligned(n: nat, length: nat)
    requires RingLength(length) && n % FifoAlignment == 0
    ensures Slot(n, length) % FifoAlignment == 0
  {
    if n >= length {
      SlotAligned(n - length, length);
    }
  }

  /** The indices measure the stream: what the reader finds and what the writer is offered. */
  lemma AvailMeasures(published: nat, consumed: nat, length: nat)
    requires RingLength(length) && consumed <= published < consumed + length
    ensures RxAvail(Slot(published, length), Slot(consumed, length), length) == published - consumed
    ensures var avail := TxAvail(Slot(published, length), Slot(consumed, length), length);
      avail == (if length - (published - consumed) < 16 then 0 else length - (published - consumed) - 16)
  {
    SlotAdvance(consumed, published - consumed, length);
  }

  // ---------- every interleaving ----------

  /** Storing the byte at stream position `at` leaves every byte less than a turn before it alone. */
  lemma StoreKeeps(fifo: seq<byte>, stream: seq<byte>, from: nat, at: nat, b: byte)
    requires |fifo| > 0 && Holds(fifo, stream, from) && |stream| <= at < from + |fifo|
    ensures Holds(fifo[Slot(at, |fifo|) := b], stream, from)
  {
    forall n | from <= n < |stream| ensures fifo[Slot(at, |fifo|) := b][Slot(n, |fifo|)] == stream[n] {
      SlotsDiffer(n, at, |fifo|);
    }
  }

  lemma StoreHolds(fifo: seq<byte>, stream: seq<byte>, from: nat, b: byte)
    requires |fifo| > 0 && Holds(fifo, stream, from) && fifo[Slot(|stream|, |fifo|)] == b
    ensures Holds(fifo, stream + [b], from)
  {
  }

  /** One more byte of the message behind the stream; everything unread stays. */
  lemma CopiedHolds(fifo: seq<byte>, stream: seq<byte>, from: nat, message: seq<byte>, copied: nat)
    requires |fifo| > 0 && copied < |message| && from <= |stream| && |stream| + copied < from + |fifo|
    requires Holds(fifo, stream, from) && Holds(fifo, stream + message[..copied], |stream|)
    ensures var after := fifo[Slot(|stream| + copied, |fifo|) := message[copied]];
      Holds(after, stream, from) && Holds(after, stream + message[..copied + 1], |stream|)
  {
    var at := |stream| + copied;
    StoreKeeps(fifo, stream, from, at, message[copied]);
    StoreKeeps(fifo, stream + message[..copied], |stream|, at, message[copied]);
    StoreHolds(fifo[Slot(at, |fifo|) := message[copied]], stream + message[..copied], |stream|, message[copied]);
    assert stream + message[..copied + 1] == stream + message[..copied] + [message[copied]];
  }

  lemma CopyKeeps(w: World)
    requires Invariant(w) && Enabled(w, CopyByte)
    ensures Invariant(Next(w, CopyByte))
  {
    var s := w.shared;
    SlotAdvance(|s.stream|, w.writer.copied, |s.fifo|);
    CopiedHolds(s.fifo, s.stream, s.consumed, w.writer.message, w.writer.copied);
  }

  /** Reading `size` bytes at the head is reading the slots behind the stream. */
  lemma ReadsBehind(fifo: seq<byte>, stream: seq<byte>, size: nat)
    requires RingLength(|fifo|) && size <= |fifo|
    ensures Holds(fifo, stream + RingRead(fifo, Slot(|stream|, |fifo|), size), |stream|)
  {
    var head := Slot(|stream|, |fifo|);
    var longer := stream + RingRead(fifo, head, size);
    forall n | |stream| <= n < |longer| ensures fifo[Slot(n, |fifo|)] == longer[n] {
      SlotAdvance(|stream|, n - |stream|, |fifo|);
    }
  }

  /** What two streams hold in the same slots is the same. */
  lemma HoldsAgree(fifo: seq<byte>, stream: seq<byte>, a: seq<byte>, b: seq<byte>)
    requires |fifo| > 0 && |a| <= |b|
    requires Holds(fifo, stream + a, |stream|) && Holds(fifo, stream + b, |stream|)
    ensures a <= b
  {
    forall i | 0 <= i < |a| ensures a[i] == b[i] {
      assert (stream + a)[|stream| + i] == fifo[Slot(|stream| + i, |fifo|)] == (stream + b)[|stream| + i];
    }
  }

  lemma PublishKeeps(w: World)
    requires Invariant(w) && Enabled(w, Publish)
    ensures Invariant(Next(w, Publish))
    ensures var stream := Next(w, Publish).shared.stream;
      |stream| == |w.shared.stream| + AlignUp(|w.writer.message|) && w.shared.stream + w.writer.message <= stream
  {
    var s, message, size := w.shared, w.writer.message, AlignUp(|w.writer.message|);
    assert message[..|message|] == message;
    SlotAdvance(|s.stream|, size, |s.fifo|);
    SumAligned(|s.stream|, size);
    ReadsBehind(s.fifo, s.stream, size);
    PublishedHolds(s.fifo, s.stream, message, RingRead(s.fifo, s.head, size), s.consumed);
  }

  /** The copied message and its filler are what the ring holds behind the stream. */
  lemma PublishedHolds(fifo: seq<byte>, stream: seq<byte>, message: seq<byte>, added: seq<byte>, from: nat)
    requires |fifo| > 0 && |message| <= |added| && Holds(fifo, stream, from)
    requires Holds(fifo, stream + message, |stream|) && Holds(fifo, stream + added, |stream|)
    ensures message <= added && Holds(fifo, stream + added, from)
  {
    HoldsAgree(fifo, stream, message, added);
    HoldsJoin(fifo, stream, added, from);
  }

  lemma HoldsJoin(fifo: seq<byte>, stream: seq<byte>, more: seq<byte>, from: nat)
    requires |fifo| > 0 && Holds(fifo, stream, from) && Holds(fifo, stream + more, |stream|)
    ensures Holds(fifo, stream + more, from)
  {
    forall n | from <= n < |stream + more| ensures fifo[Slot(n, |fifo|)] == (stream + more)[n] {
      assert n < |stream| ==> (stream + more)[n] == stream[n];
    }
  }

  /** Every action of either side, on whatever snapshots they hold, keeps the ring in order; in
      particular a copy never lands on a byte the reader has yet to take. */
  lemma NextKeeps(w: World, a: Action)
    requires Invariant(w) && Enabled(w, a)
    ensures Invariant(Next(w, a))
  {
    var s, length := w.shared, |w.shared.fifo|;
    match a
    case StartMessage(message) => AvailMeasures(|s.stream|, w.writer.consumedThen, length);
    case CopyByte => CopyKeeps(w);
    case Publish => PublishKeeps(w);
    case Advance(count) =>
      AvailMeasures(w.reader.publishedThen, s.consumed, length);
      SlotAdvance(s.consumed, count, length);
    case _ =>
  }

  /** The unbounded byte queue the ring refines. */
  ghost function Queue(w: World): seq<byte>
  {
    if w.shared.consumed <= |w.shared.stream| then w.shared.stream[w.shared.consumed..] else []
  }

  /** Refinement: publishing appends the message and its filler, advancing drops from the front, and no
      other action, a copy in progress included, changes the queue. */
  lemma RefinesQueue(w: World, a: Action)
    requires Invariant(w) && Enabled(w, a)
    ensures var before, after := Queue(w), Queue(Next(w, a));
      match a {
        case Publish => before + w.writer.message <= after && |after| == |before| + AlignUp(|w.writer.message|)
        case Advance(count) => count <= |before| && after == before[count..]
        case _ => after == before
      }
  {
    match a
    case Publish => PublishAppends(w);
    case Advance(count) => AvailMeasures(w.reader.publishedThen, w.shared.consumed, |w.shared.fifo|);
    case _ =>
  }

  lemma PublishAppends(w: World)
    requires Invariant(w) && Enabled(w, Publish)
    ensures var before, after := Queue(w), Queue(Next(w, Publish));
      before + w.writer.message <= after && |after| == |before| + AlignUp(|w.writer.message|)
  {
    PublishKeeps(w);
    SuffixGrows(w.shared.stream, w.writer.message, Next(w, Publish).shared.stream, w.shared.consumed);
  }

  lemma SuffixGrows(stream: seq<byte>, message: seq<byte>, longer: seq<byte>, from: nat)
    requires from <= |stream| && stream + message <= longer
    ensures stream[from..] + message <= longer[from..]
  {
    assert stream[from..] + message == (stream + message)[from..];
  }

  /** A peek within what the reader measured, at any later moment, reads the queue. */
  lemma PeekReadsQueue(w: World, offset: nat)
    requires Invariant(w) && w.reader.Measured?
    requires offset < RxAvail(w.reader.headSeen, w.shared.tail, |w.shared.fifo|)
    ensures offset < |Queue(w)| && PeekByte(w, offset) == Queue(w)[offset]
  {
    AvailMeasures(w.reader.publishedThen, w.shared.consumed, |w.shared.fifo|);
    SlotAdvance(w.shared.consumed, offset, |w.shared.fifo|);
  }

  ghost predicate EnabledRun(w: World, run: seq<Action>)
    requires Invariant(w)
    decreases |run|
  {
    run != [] ==> Enabled(w, run[0]) && (NextKeeps(w, run[0]); EnabledRun(Next(w, run[0]), run[1..]))
  }

  ghost function Run(w: World, run: seq<Action>): (end: World)
    requires Invariant(w) && EnabledRun(w, run)
    ensures Invariant(end)
    decreases |run|
  {
    if run == [] then w else NextKeeps(w, run[0]); Run(Next(w, run[0]), run[1..])
  }

  /** What a run publishes and what it consumes, action by action. */
  ghost function Published(w: World, run: seq<Action>): seq<seq<byte>>
    requires Invariant(w) && EnabledRun(w, run)
    decreases |run|
  {
    if run == [] then [] else
      NextKeeps(w, run[0]);
      (if run[0].Publish? then [w.writer.message] else []) + Published(Next(w, run[0]), run[1..])
  }

  /** `stream` is the messages one after the other, each followed by filler up to the alignment. */
  ghost predicate Framed(stream: seq<byte>, messages: seq<seq<byte>>)
    decreases |messages|
  {
    if messages == [] then stream == []
    else
      && |stream| >= AlignUp(|messages[0]|) && messages[0] <= stream
      && Framed(stream[AlignUp(|messages[0]|)..], messages[1..])
  }

  lemma FramedStep(start: seq<byte>, message: seq<byte>, mid: seq<byte>, end: seq<byte>, rest: seq<seq<byte>>)
    requires start + message <= mid <= end && |mid| == |start| + AlignUp(|message|)
    requires Framed(end[|mid|..], rest)
    ensures Framed(end[|start|..], [message] + rest)
  {
    var added, size := end[|start|..], AlignUp(|message|);
    assert added[size..] == end[|mid|..];
    assert message <= added;
    assert ([message] + rest)[1..] == rest;
  }

  /** In every interleaving the stream only grows, by exactly the messages published, in order. */
  lemma {:induction false} StreamIsMessages(w: World, run: seq<Action>)
    requires Invariant(w) && EnabledRun(w, run)
    ensures var end := Run(w, run);
      w.shared.stream <= end.shared.stream && Framed(end.shared.stream[|w.shared.stream|..], Published(w, run))
    decreases |run|
  {
    if run != [] {
      NextKeeps(w, run[0]);
      var next := Next(w, run[0]);
      StreamIsMessages(next, run[1..]);
      if run[0].Publish? {
        PublishKeeps(w);
        FramedStep(w.shared.stream, w.writer.message, next.shared.stream, Run(w, run).shared.stream,
                   Published(next, run[1..]));
      } else {
        assert Published(w, run) == Published(next, run[1..]);
      }
    }
  }

  // ---------- what the reader gets ----------

  /** The bytes the reader peeks before each advance, one after the other. */
  ghost function Taken(w: World, run: seq<Action>): seq<byte>
    requires Invariant(w) && EnabledRun(w, run)
    decreases |run|
  {
    if run == [] then [] else
      NextKeeps(w, run[0]);
      (if run[0].Advance? then Peeked(w, run[0].count) else []) + Taken(Next(w, run[0]), run[1..])
  }

  ghost function Peeked(w: World, count: nat): (bytes: seq<byte>)
    requires Invariant(w) && Enabled(w, Advance(count))
    ensures |bytes| == count
  {
    AvailMeasures(w.reader.publishedThen, w.shared.consumed, |w.shared.fifo|);
    seq(count, i requires 0 <= i < count => PeekByte(w, i))
  }

  lemma PeekedIsStream(w: World, count: nat)
    requires Invariant(w) && Enabled(w, Advance(count))
    ensures var consumed := w.shared.consumed;
      consumed + count <= |w.shared.stream| && Peeked(w, count) == w.shared.stream[consumed..consumed + count]
  {
    AvailMeasures(w.reader.publishedThen, w.shared.consumed, |w.shared.fifo|);
    forall i | 0 <= i < count ensures Peeked(w, count)[i] == w.shared.stream[w.shared.consumed + i] {
      PeekReadsQueue(w, i);
    }
  }

  lemma StreamGrows(w: World, run: seq<Action>)
    requires Invariant(w) && EnabledRun(w, run)
    ensures w.shared.stream <= Run(w, run).shared.stream
  {
    StreamIsMessages(w, run);
  }

  lemma TakenStep(w: World, count: nat, end: Shared, rest: seq<byte>)
    requires Invariant(w) && Enabled(w, Advance(count))
    requires w.shared.stream <= end.stream && w.shared.consumed + count <= end.consumed <= |end.stream|
    requires rest == end.stream[w.shared.consumed + count..end.consumed]
    ensures Peeked(w, count) + rest == end.stream[w.shared.consumed..end.consumed]
  {
    PeekedIsStream(w, count);
    SliceJoins(end.stream, w.shared.stream, w.shared.consumed, w.shared.consumed + count, end.consumed);
  }

  /** In every interleaving the reader takes the stream: every byte once, in order, and as it was published. */
  lemma {:induction false} ReaderTakesStream(w: World, run: seq<Action>)
    requires Invariant(w) && EnabledRun(w, run)
    ensures var end := Run(w, run).shared;
      w.shared.consumed <= end.consumed <= |end.stream|
      && Taken(w, run) == end.stream[w.shared.consumed..end.consumed]
    decreases |run|
  {
    if run != [] {
      NextKeeps(w, run[0]);
      var next := Next(w, run[0]);
      ReaderTakesStream(next, run[1..]);
      if run[0].Advance? {
        StreamGrows(w, run);
        TakenStep(w, run[0].count, Run(w, run).shared, Taken(next, run[1..]));
      }
    }
  }

  lemma SliceJoins(whole: seq<byte>, prefix: seq<byte>, from: nat, mid: nat, to: nat)
    requires prefix <= whole && from <= mid <= |prefix| && mid <= to <= |whole|
    ensures prefix[from..mid] + whole[mid..to] == whole[from..to]
  {
  }

  function EmptyRing(fifo: seq<byte>): World
  {
    World(Shared(fifo, 0, 0, [], 0), Resting, Waiting)
  }

  /** From the empty ring, whatever its memory holds: what the reader has taken is the start of the framed
      messages the writer has published. */
  lemma DeliveredInOrder(fifo: seq<byte>, run: seq<Action>)
    requires RingLength(|fifo|) && EnabledRun(EmptyRing(fifo), run)
    ensures var end := Run(EmptyRing(fifo), run).shared;
      && Taken(EmptyRing(fifo), run) == end.stream[..end.consumed]
      && Framed(end.stream, Published(EmptyRing(fifo), run))
  {
    StreamIsMessages(EmptyRing(fifo), run);
    ReaderTakesStream(EmptyRing(fifo), run);
  }
}
