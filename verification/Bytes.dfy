/** Bytes, word sizes, and the concatenation of byte sequences. */
module Bytes {
  type byte = x: int | 0 <= x < 0x100

  const TwoTo32 := 0x1_0000_0000

  function Pow2(n: nat): (p: nat)
    ensures p > 0
  {
    if n == 0 then 1 else 2 * Pow2(n - 1)
  }

  /** The concatenation of a list of packets, in order. */
  function Flatten(packets: seq<seq<byte>>): (bytes: seq<byte>)
  {
    if packets == [] then [] else packets[0] + Flatten(packets[1..])
  }

  lemma {:induction false} FlattenConcat(a: seq<seq<byte>>, b: seq<seq<byte>>)
    ensures Flatten(a + b) == Flatten(a) + Flatten(b)
  {
    if a == [] {
      assert a + b == b;
    } else {
      assert (a + b)[1..] == a[1..] + b;
      FlattenConcat(a[1..], b);
    }
  }

  lemma FlattenAppend(packets: seq<seq<byte>>, packet: seq<byte>)
    ensures Flatten(packets + [packet]) == Flatten(packets) + packet
  {
    FlattenConcat(packets, [packet]);
    assert [packet][1..] == [];
  }

  /** A prefix of a packet list flattens to a prefix of the whole. */
  lemma FlattenTake(packets: seq<seq<byte>>, k: nat)
    requires k <= |packets|
    ensures Flatten(packets[..k]) <= Flatten(packets)
    ensures k < |packets| ==> Flatten(packets[..k + 1]) == Flatten(packets[..k]) + packets[k]
  {
    assert packets == packets[..k] + packets[k..];
    FlattenConcat(packets[..k], packets[k..]);
    if k < |packets| {
      assert packets[..k + 1] == packets[..k] + [packets[k]];
      FlattenAppend(packets[..k], packets[k]);
    }
  }

  /** Each packet is found after the packets before it. */
  lemma FlattenAt(packets: seq<seq<byte>>, k: nat)
    requires k < |packets|
    ensures var at := |Flatten(packets[..k])|;
      at + |packets[k]| <= |Flatten(packets)| && Flatten(packets)[at..at + |packets[k]|] == packets[k]
  {
    FlattenTake(packets, k);
    FlattenTake(packets, k + 1);
    var upTo := Flatten(packets[..k + 1]);
    assert upTo <= Flatten(packets);
    assert upTo[|Flatten(packets[..k])|..] == packets[k];
  }

  /** Python slices stop at the end of the data. */
  function Slice(data: seq<byte>, from: nat, to: nat): seq<byte>
  {
    if from >= |data| || to <= from then [] else if to > |data| then data[from..] else data[from..to]
  }

  function Rest(data: seq<byte>, from: nat): seq<byte>
  {
    if from >= |data| then [] else data[from..]
  }

  lemma SliceOfPrefix(prefix: seq<byte>, data: seq<byte>, from: nat, to: nat)
    requires prefix <= data && from <= to <= |prefix|
    ensures Slice(data, from, to) == prefix[from..to]
  {
  }

  lemma ConcatAssoc<T>(a: seq<T>, b: seq<T>, c: seq<T>)
    ensures (a + b) + c == a + (b + c)
  {
  }
}
