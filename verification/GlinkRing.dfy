/** The shared byte ring of kernel/files/spu/qcom_glink_spss.c. One side moves only the head, the other
    only the tail; the head stays 8-aligned and a reserve keeps a full ring apart from an empty one. */
module GlinkRing {
  import opened Bytes

  const FifoFullReserve := 8
  const FifoAlignment := 8
  const TxBlockedCmdReserve := 8

  /** A ring the driver can use; the real ones are 2048 bytes long. */
  predicate RingLength(length: nat)
  {
    length % FifoAlignment == 0 && length > FifoFullReserve + TxBlockedCmdReserve
  }

  /** A position moved on by at most one turn, the way the driver wraps it. */
  function Wrap(position: nat, count: nat, length: nat): nat
  {
    if position + count >= length then (position + count - length) as nat else position + count
  }

  function RxAvail(head: nat, tail: nat, length: nat): int
  {
    if head < tail then length - tail + head else head - tail
  }

  function TxAvail(head: nat, tail: nat, length: nat): int
  {
    var avail := if tail <= head then length - head + tail else tail - head;
    if avail < FifoFullReserve + TxBlockedCmdReserve then 0 else avail - (FifoFullReserve + TxBlockedCmdReserve)
  }

  function AlignUp(n: nat): (aligned: nat)
    ensures aligned % FifoAlignment == 0 && n <= aligned < n + FifoAlignment
  {
    (n + FifoAlignment - 1) / FifoAlignment * FifoAlignment
  }

  lemma SumAligned(a: int, b: int)
    requires a % FifoAlignment == 0 && b % FifoAlignment == 0
    ensures (a + b) % FifoAlignment == 0 && (a - b) % FifoAlignment == 0
  {
  }

  /** How far ahead of `from` the slot `at` lies. */
  function Ahead(from: nat, at: nat, length: nat): int
  {
    if at >= from then at - from else at + length - from
  }

  lemma AheadExactly(from: nat, at: nat, length: nat)
    requires from < length && at < length
    ensures 0 <= Ahead(from, at, length) < length && Wrap(from, Ahead(from, at, length), length) == at
  {
  }

  /** `count` bytes of the ring from `start` on, across the wrap. */
  function RingRead(fifo: seq<byte>, start: nat, count: nat): (bytes: seq<byte>)
    requires start < |fifo| && count <= |fifo|
    ensures |bytes| == count
    ensures forall i :: 0 <= i < count ==> bytes[i] == fifo[Wrap(start, i, |fifo|)]
  {
    seq(count, i requires 0 <= i < count => fifo[Wrap(start, i, |fifo|)])
  }
}
