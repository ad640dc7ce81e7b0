/** kernel/files/spu/qcom_glink_spss.c: one pipe of the ring as an object, and what its indices promise. */
module GlinkPipe {
  import opened Bytes
  import opened GlinkRing

  class Pipe {
    const fifo: array<byte>
    var head: nat
    var tail: nat

    ghost predicate Valid()
      reads this
    {
      && RingLength(fifo.Length)
      && head < fifo.Length && tail < fifo.Length && head % FifoAlignment == 0
    }

    /** The bytes written and not yet read. */
    ghost function Queue(): (queue: seq<byte>)
      requires Valid()
      reads this, fifo
      ensures |queue| == RxAvail(head, tail, fifo.Length)
    {
      RingRead(fifo[..], tail, RxAvail(head, tail, fifo.Length))
    }

    constructor (fifo: array<byte>)
      requires RingLength(fifo.Length)
      ensures Valid() && this.fifo == fifo && Queue() == []
    {
      this.fifo := fifo;
      head, tail := 0, 0;
    }

    method RxAvailable() returns (avail: nat)
      requires Valid()
      ensures avail == |Queue()|
    {
      avail := if head < tail then fifo.Length - tail + head else head - tail;
    }

    /** Copies `count` bytes at `offset` without consuming them, in one piece or two. */
    method RxPeek(data: array<byte>, offset: nat, count: nat)
      requires Valid() && data != fifo && count <= data.Length && offset + count <= |Queue()|
      modifies data
      ensures data[..count] == Queue()[offset..offset + count]
      ensures data[count..] == old(data[count..])
    {
      var from := tail + offset;
      if from >= fifo.Length {
        from := from - fifo.Length;
      }
      var len := if count < fifo.Length - from then count else fifo.Length - from;
      forall i | 0 <= i < len {
        data[i] := fifo[from + i];
      }
      if len != count {
        forall i | 0 <= i < count - len {
          data[len + i] := fifo[i];
        }
      }
    }

    method RxAdvance(count: nat)
      requires Valid() && count <= |Queue()|
      modifies this`tail
      ensures Valid() && Queue() == old(Queue())[count..]
    {
      var next := tail + count;
      if next >= fifo.Length {
        next := next - fifo.Length;
      }
      tail := next;
    }

    method TxAvailable() returns (avail: nat)
      requires Valid()
      ensures avail == TxAvail(head, tail, fifo.Length)
    {
      avail := if tail <= head then fifo.Length - head + tail else tail - head;
      if avail < FifoFullReserve + TxBlockedCmdReserve {
        avail := 0;
      } else {
        avail := avail - (FifoFullReserve + TxBlockedCmdReserve);
      }
    }

    /** Copies `data` into the ring at `from`, in one piece or two, and touches nothing else. */
    method TxWriteOne(from: nat, data: seq<byte>) returns (next: nat)
      requires from < fifo.Length && |data| < fifo.Length
      modifies fifo
      ensures next == Wrap(from, |data|, fifo.Length) < fifo.Length
      ensures RingRead(fifo[..], from, |data|) == data
      ensures forall j :: 0 <= j < fifo.Length && Ahead(from, j, fifo.Length) >= |data| ==> fifo[j] == old(fifo[j])
    {
      var len := if |data| < fifo.Length - from then |data| else fifo.Length - from;
      forall i | 0 <= i < len {
        fifo[from + i] := data[i];
      }
      if len != |data| {
        forall i | 0 <= i < |data| - len {
          fifo[i] := data[len + i];
        }
      }
      next := from + |data|;
      if next >= fifo.Length {
        next := next - fifo.Length;
      }
    }

    /** Header and data go behind what is queued; the head is then rounded up, so that up to seven
        bytes of filler follow. Nothing unread is overwritten and the ring never looks empty. */
    method TxWrite(hdr: seq<byte>, data: seq<byte>)
      requires Valid() && |hdr| + |data| <= TxAvail(head, tail, fifo.Length)
      modifies this`head, fifo
      ensures Valid()
      ensures |Queue()| == |old(Queue())| + AlignUp(|hdr| + |data|)
      ensures old(Queue()) + hdr + data <= Queue()
      ensures hdr + data != [] ==> head != tail
    {
      ghost var before := fifo[..];
      var next := CopyIn(hdr, data);
      next := AlignUp(next);
      if next >= fifo.Length {
        next := next - fifo.Length;
      }
      AlignedHead(head, |hdr + data|, fifo.Length);
      WriteLands(before, fifo[..], head, tail, hdr, data);
      head := next;
    }

    /** The two copies of a write, before the head moves. */
    method CopyIn(hdr: seq<byte>, data: seq<byte>) returns (next: nat)
      requires Valid() && |hdr| + |data| <= TxAvail(head, tail, fifo.Length)
      modifies fifo
      ensures next == Wrap(head, |hdr + data|, fifo.Length)
      ensures RingRead(fifo[..], tail, RxAvail(head, tail, fifo.Length)) == old(Queue())
      ensures RingRead(fifo[..], head, |hdr + data|) == hdr + data
    {
      ghost var length, middle := fifo.Length, Wrap(head, |hdr|, fifo.Length);
      next := TxWriteOne(head, hdr);
      ghost var between := fifo[..];
      next := TxWriteOne(next, data);
      ghost var after := fifo[..];
      forall i | 0 <= i < |hdr + data| ensures after[Wrap(head, i, length)] == (hdr + data)[i] {
        if i < |hdr| {
          assert between[Wrap(head, i, length)] == RingRead(between, head, |hdr|)[i];
        } else {
          assert Wrap(head, i, length) == Wrap(middle, i - |hdr|, length);
          assert after[Wrap(middle, i - |hdr|, length)] == RingRead(after, middle, |data|)[i - |hdr|];
        }
      }
    }
  }

  lemma StillShort(head: nat, tail: nat, length: nat, count: nat, aligned: nat)
    requires head < length && tail < length && count <= aligned < count + FifoAlignment
    requires count <= TxAvail(head, tail, length) && length > FifoFullReserve + TxBlockedCmdReserve
    requires count == 0 ==> aligned == 0
    ensures var next, used := Wrap(head, aligned, length), RxAvail(head, tail, length);
      next < length && RxAvail(next, tail, length) == used + aligned < length && (count > 0 ==> next != tail)
  {
  }

  /** Full is never taken for empty: after a write within TxAvail the ring holds the aligned size more,
      is not empty, and is still short of its length. */
  lemma NeverFull(head: nat, tail: nat, length: nat, count: nat)
    requires RingLength(length) && head < length && tail < length && head % FifoAlignment == 0
    requires count <= TxAvail(head, tail, length)
    ensures var next, used := Wrap(head, AlignUp(count), length), RxAvail(head, tail, length);
      && next < length && next % FifoAlignment == 0
      && RxAvail(next, tail, length) == used + AlignUp(count) < length
      && (count > 0 ==> next != tail)
  {
    StillShort(head, tail, length, count, AlignUp(count));
    SumAligned(head, AlignUp(count));
    SumAligned(head + AlignUp(count), length);
  }

  /** The reserve leaves room for the eight-byte read-notify request even after a writer has used all
      it was offered, as long as the reader keeps the tail aligned. */
  lemma ReserveHoldsReadNotify(head: nat, tail: nat, length: nat, count: nat)
    requires RingLength(length) && head < length && tail < length
    requires head % FifoAlignment == 0 && tail % FifoAlignment == 0
    requires 0 < count <= TxAvail(head, tail, length)
    ensures var next := Wrap(head, AlignUp(count), length);
      RxAvail(next, tail, length) + TxBlockedCmdReserve < length
  {
    NeverFull(head, tail, length, count);
    AvailAligned(head, tail, length);
    AlignUpWithin(count, TxAvail(head, tail, length));
  }

  lemma AvailAligned(head: nat, tail: nat, length: nat)
    requires RingLength(length) && head < length && tail < length
    requires head % FifoAlignment == 0 && tail % FifoAlignment == 0
    ensures TxAvail(head, tail, length) % FifoAlignment == 0
  {
    SumAligned(length, head);
    SumAligned(length - head, tail);
    SumAligned(tail, head);
    SumAligned(length - head + tail, FifoFullReserve + TxBlockedCmdReserve);
    SumAligned(tail - head, FifoFullReserve + TxBlockedCmdReserve);
  }

  lemma AlignUpWithin(count: nat, bound: nat)
    requires count <= bound && bound % FifoAlignment == 0
    ensures AlignUp(count) <= bound
  {
  }

  /** Moving the head past a message publishes it behind the bytes already queued. */
  lemma Published(before: seq<byte>, after: seq<byte>, head: nat, tail: nat, message: seq<byte>)
    requires |before| == |after| && RingLength(|before|)
    requires head < |before| && tail < |before| && head % FifoAlignment == 0
    requires |message| <= TxAvail(head, tail, |before|)
    requires RingRead(after, tail, RxAvail(head, tail, |before|)) == RingRead(before, tail, RxAvail(head, tail, |before|))
    requires RingRead(after, head, |message|) == message
    ensures var used := RxAvail(head, tail, |before|);
      used + AlignUp(|message|) < |before|
      && RingRead(before, tail, used) + message <= RingRead(after, tail, used + AlignUp(|message|))
  {
    var length, used := |before|, RxAvail(head, tail, |before|);
    NeverFull(head, tail, length, |message|);
    var queue := RingRead(after, tail, used + AlignUp(|message|));
    assert queue[..used] == RingRead(before, tail, used) by {
      assert forall i :: 0 <= i < used ==> queue[i] == RingRead(after, tail, used)[i];
    }
    forall i | 0 <= i < |message| ensures queue[used + i] == message[i] {
      assert Wrap(tail, used + i, length) == Wrap(head, i, length);
      assert RingRead(after, head, |message|)[i] == message[i];
    }
  }

  lemma WrapOfAligned(head: nat, count: nat, aligned: nat, length: nat)
    requires head < length && count < length && count <= aligned <= length
    ensures var next := Wrap(head, count, length) + (aligned - count);
      (if next >= length then next - length else next) == Wrap(head, aligned, length)
  {
  }

  lemma WriteLands(before: seq<byte>, after: seq<byte>, head: nat, tail: nat, hdr: seq<byte>, data: seq<byte>)
    requires |before| == |after| && RingLength(|before|)
    requires head < |before| && tail < |before| && head % FifoAlignment == 0
    requires |hdr + data| <= TxAvail(head, tail, |before|)
    requires RingRead(after, tail, RxAvail(head, tail, |before|)) == RingRead(before, tail, RxAvail(head, tail, |before|))
    requires RingRead(after, head, |hdr + data|) == hdr + data
    ensures var next, used := Wrap(head, AlignUp(|hdr + data|), |before|), RxAvail(head, tail, |before|);
      && next < |before| && next % FifoAlignment == 0 && (hdr + data != [] ==> next != tail)
      && RxAvail(next, tail, |before|) == used + AlignUp(|hdr + data|) < |before|
      && RingRead(before, tail, used) + hdr + data <= RingRead(after, tail, RxAvail(next, tail, |before|))
  {
    NeverFull(head, tail, |before|, |hdr + data|);
    Published(before, after, head, tail, hdr + data);
    ConcatAssoc(RingRead(before, tail, RxAvail(head, tail, |before|)), hdr, data);
  }

  /** Rounding up the wrapped head is wrapping the rounded-up size. */
  lemma AlignedHead(head: nat, count: nat, length: nat)
    requires RingLength(length) && head < length && head % FifoAlignment == 0 && count < length
    ensures var next := AlignUp(Wrap(head, count, length));
      (if next >= length then next - length else next) == Wrap(head, AlignUp(count), length)
  {
    AlignUpShift(if head + count < length then head else head - length, count);
    AlignUpWithin(count, length);
    WrapOfAligned(head, count, AlignUp(count), length);
  }

  lemma AlignUpShift(base: int, count: nat)
    requires base % FifoAlignment == 0 && base + count >= 0
    ensures AlignUp(base + count) == base + AlignUp(count)
  {
    var q := base / FifoAlignment;
    assert base == FifoAlignment * q;
  }
}
