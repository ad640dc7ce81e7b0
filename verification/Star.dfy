/** kernel/files/snvm/sec_star.c: star_transceive with its buffers, tied to the specification. */
module Star {
  import opened Bytes
  import opened Kmem
  import opened Options
  import opened StarSpec
  import EseData

  /** The T=1 protocol as the chain engine sees it: a script of what each exchange will yield. */
  class CardLink {
    var script: seq<Exchange>

    constructor (script: seq<Exchange>)
      ensures this.script == script
    {
      this.script := script;
    }

    /** An empty APDU is refused by the protocol driver (invalid send length). */
    method Send(apdu: seq<byte>) returns (ok: bool)
      ensures ok == (apdu != [] && script != [] && !script[0].SendFailed?)
    {
      ok := apdu != [] && script != [] && !script[0].SendFailed?;
    }

    /** The response in a buffer of its own, which the caller owns; no buffer when it is empty. */
    method Receive(kmem: Allocator) returns (ok: bool, buffer: Buffer?)
      requires script != [] && !script[0].SendFailed?
      modifies this, kmem
      ensures script == old(script)[1..]
      ensures ok == (old(script)[0].Received? && old(script)[0].response != [])
      ensures ok ==> buffer != null && buffer.bytes == old(script)[0].response
      ensures buffer == null ==> kmem.live == old(kmem.live)
      ensures buffer != null ==> fresh(buffer) && kmem.live == old(kmem.live) + {buffer}
    {
      var bytes := if script[0].Received? then script[0].response else script[0].partial;
      ok, buffer := script[0].Received? && bytes != [], null;
      if bytes != [] {
        buffer := kmem.Malloc(bytes);
      }
      script := script[1..];
    }
  }

  /** A receive that yields no byte is a failed receive. */
  ghost predicate Realistic(script: seq<Exchange>)
  {
    forall k :: 0 <= k < |script| && script[k].Received? ==> script[k].response != []
  }

  /** The response list of one call owns its blocks; `others` are the live blocks of everybody else. */
  ghost predicate Holding(total: EseData.DataList, kmem: Allocator, others: set<object>)
    reads total, total.nodes, kmem, total.kmem
  {
    && total.Valid() && total.kmem == kmem
    && kmem.live == others + total.Blocks()
    && others !! total.Blocks()
  }

  /** Stores an intermediate response without its status word, or frees it; a final one is stored whole. */
  method StoreResponse(total: EseData.DataList, kmem: Allocator, response: Buffer, final: bool, ghost others: set<object>)
    requires Holding(total, kmem, others + {response}) && response !in others && response.bytes != []
    modifies total, total.Nodes(), kmem
    ensures Holding(total, kmem, others)
    ensures total.Packets() == old(total.Packets()) + if final then [response.bytes] else Trimmed(response.bytes)
    ensures final ==> Flatten(total.Packets()) != []
    ensures fresh(total.Nodes() - old(total.Nodes()))
  {
    if final {
      FlattenAppend(total.Packets(), response.bytes);
      assert response.bytes[..|response.bytes|] == response.bytes;
      total.Store(response, |response.bytes|, false);
    } else if |response.bytes| > 2 {
      total.Store(response, |response.bytes| - 2, false);
    } else {
      kmem.Free(response);
    }
  }

  /** One send and one receive; a failed receive frees whatever it handed over. */
  method ExchangeOnce(link: CardLink, kmem: Allocator, apdu: seq<byte>) returns (rsp: Buffer?)
    requires Realistic(link.script)
    modifies link, kmem
    ensures Realistic(link.script)
    ensures rsp == null <==> apdu == [] || old(link.script) == [] || !old(link.script)[0].Received?
    ensures rsp == null ==> kmem.live == old(kmem.live)
    ensures rsp != null ==> fresh(rsp) && kmem.live == old(kmem.live) + {rsp}
    ensures rsp != null ==> rsp.bytes == old(link.script)[0].response != [] && link.script == old(link.script)[1..]
  {
    var sent := link.Send(apdu);
    if !sent {
      return null;
    }
    var received;
    received, rsp := link.Receive(kmem);
    if !received {
      if rsp != null {
        kmem.Free(rsp);
      }
      rsp := null;
    }
  }

  /** The body of the chain loop from the `again` label: exchanges the element's APDU, storing every
      response that asks for another round, until one mismatches or completes the element. No buffer
      means the link failed. */
  method ExchangeElement(link: CardLink, kmem: Allocator, total: EseData.DataList, element: Element,
                         ghost next: seq<byte>, ghost index: nat, ghost count: nat, ghost others: set<object>)
    returns (rsp: Buffer?)
    requires |next| < TwoTo32 && index < count && Realistic(link.script)
    requires Holding(total, kmem, others)
    modifies link, kmem, total, total.Nodes()
    ensures Realistic(link.script)
    ensures rsp == null ==> Holding(total, kmem, others)
    ensures rsp != null ==> Holding(total, kmem, others + {rsp}) && rsp !in others && rsp.bytes != []
    ensures fresh(total.Nodes() - old(total.Nodes()))
    ensures RunElement(element, next, index, count, old(link.script), old(total.Packets()))
      == if rsp == null then Rejected(-5)
         else AfterResponse(element, next, index, count, link.script, total.Packets(), rsp.bytes)
  {
    while true
      invariant Realistic(link.script) && Holding(total, kmem, others)
      invariant fresh(total.Nodes() - old(total.Nodes()))
      invariant RunElement(element, next, index, count, old(link.script), old(total.Packets()))
        == RunElement(element, next, index, count, link.script, total.Packets())
      decreases |link.script|
    {
      rsp := ExchangeOnce(link, kmem, element.apdu);
      if rsp == null || Mismatch(element.expectation, rsp.bytes) || !Again(element.expectation) {
        return;
      }
      StoreResponse(total, kmem, rsp, false, others);
    }
  }

  /** Reads the element under the cursor, in the order and with the checks of the driver, and moves
      the cursor past its APDU and its expectation. */
  method ReadElementAt(cmd: seq<byte>, index: nat, cursor: nat, remaining: nat)
    returns (ok: bool, element: Element, cursor': nat, remaining': nat)
    requires cursor + remaining == |cmd| < TwoTo32
    ensures cursor' + remaining' == |cmd|
    ensures ok == ReadElement(cmd[cursor..], index).Some?
    ensures ok ==> ReadElement(cmd[cursor..], index).value == (element, cmd[cursor'..])
  {
    cursor', remaining', element := cursor, remaining, Element([], Anything);
    if remaining <= ChainHeaderSize || BigEndian32(cmd[cursor..]) != index {
      return false, element, cursor', remaining';
    }
    var dataSize, expectedSize := BigEndian32(cmd[cursor + 4..]), BigEndian32(cmd[cursor + 8..]);
    assert cmd[cursor + 4..] == cmd[cursor..][4..] && cmd[cursor + 8..] == cmd[cursor..][8..];
    cursor', remaining' := cursor + ChainHeaderSize, remaining - ChainHeaderSize;
    assert cmd[cursor'..] == cmd[cursor..][ChainHeaderSize..];
    if SizesRejected(remaining', dataSize, expectedSize) {
      return false, element, cursor', remaining';
    }
    SizesRejectedExactly(remaining', dataSize, expectedSize);
    var apdu := cmd[cursor'..cursor' + dataSize];
    cursor', remaining' := cursor' + dataSize, remaining' - dataSize;
    var field := cmd[cursor'..cursor' + expectedSize];
    assert field == cmd[cursor..][ChainHeaderSize..][dataSize..dataSize + expectedSize];
    assert apdu == cmd[cursor..][ChainHeaderSize..][..dataSize];
    assert cmd[cursor' + expectedSize..] == cmd[cursor..][ChainHeaderSize..][dataSize + expectedSize..];
    element := Element(apdu, ReadExpectation(field));
    cursor', remaining' := cursor' + expectedSize, remaining' - expectedSize;
    ok := true;
  }

  /** The body of the chain loop once the element is read: exchange, store, and stop on a mismatch. */
  method RunOneElement(link: CardLink, kmem: Allocator, total: EseData.DataList, element: Element,
                       ghost next: seq<byte>, index: nat, count: nat, ghost others: set<object>)
    returns (ok: bool, done: bool)
    requires |next| < TwoTo32 && index < count && Realistic(link.script)
    requires Holding(total, kmem, others)
    modifies link, kmem, total, total.Nodes()
    ensures Realistic(link.script) && Holding(total, kmem, others)
    ensures fresh(total.Nodes() - old(total.Nodes()))
    ensures RunElement(element, next, index, count, old(link.script), old(total.Packets()))
      == if !ok then Rejected(-5)
         else if done then Delivered(Flatten(total.Packets()))
         else RunFrom(next, index + 1, count, link.script, total.Packets())
    ensures ok && (done || index + 1 == count) ==> Flatten(total.Packets()) != []
  {
    var buffer := ExchangeElement(link, kmem, total, element, next, index, count, others);
    if buffer == null {
      return false, false;
    }
    assert fresh(total.Nodes() - old(total.Nodes()));
    done := Mismatch(element.expectation, buffer.bytes);
    StoreResponse(total, kmem, buffer, done || index == count - 1, others);
    ok := true;
  }

  /** The chain loop. On failure the list holds whatever had arrived; on success, the whole reply. */
  method RunChain(link: CardLink, kmem: Allocator, total: EseData.DataList, cmd: seq<byte>, chainNum: nat,
                  ghost others: set<object>)
    returns (ok: bool)
    requires ChainNumSize <= |cmd| < TwoTo32 && chainNum > 0
    requires Realistic(link.script) && Holding(total, kmem, others) && total.Packets() == []
    modifies link, kmem, total, total.Nodes()
    ensures Holding(total, kmem, others)
    ensures RunFrom(cmd[ChainNumSize..], 0, chainNum, old(link.script), [])
      == if ok then Delivered(Flatten(total.Packets())) else Rejected(-5)
    ensures ok ==> Flatten(total.Packets()) != []
  {
    var cursor, remaining, i := ChainNumSize, |cmd| - ChainNumSize, 0;
    ghost var outcome := RunFrom(cmd[cursor..], i, chainNum, link.script, total.Packets());
    while i < chainNum
      invariant 0 <= i <= chainNum && cursor + remaining == |cmd| && cursor >= 0 && remaining >= 0
      invariant Realistic(link.script) && Holding(total, kmem, others)
      invariant fresh(total.Nodes() - old(total.Nodes()))
      invariant i == chainNum ==> Flatten(total.Packets()) != []
      invariant outcome == RunFrom(cmd[cursor..], i, chainNum, link.script, total.Packets())
    {
      var found, element;
      found, element, cursor, remaining := ReadElementAt(cmd, i, cursor, remaining);
      if !found {
        return false;
      }
      var done;
      ok, done := RunOneElement(link, kmem, total, element, cmd[cursor..], i, chainNum, others);
      if !ok || done {
        return;
      }
      i := i + 1;
    }
    ok := true;
  }

  /** star_transceive: the outcome is the one the specification gives, and whatever the card did, the
      only block that outlives the call is the reply. */
  method Transceive(link: CardLink, kmem: Allocator, cmd: seq<byte>) returns (code: int, rsp: Buffer?)
    requires |cmd| < TwoTo32 && Realistic(link.script)
    modifies link, kmem
    ensures match Run(cmd, old(link.script)) {
      case Rejected(c) => code == c && rsp == null && kmem.live == old(kmem.live)
      case Delivered(bytes) =>
        code == 0 && rsp != null && fresh(rsp) && rsp.bytes == bytes && kmem.live == old(kmem.live) + {rsp}
    }
  {
    if cmd == [] {
      return -2, null;
    }
    if |cmd| < ChainNumSize {
      return -3, null;
    }
    var chainNum := BigEndian32(cmd);
    if chainNum == 0 || chainNum > ChainMaxNum {
      return -4, null;
    }
    var total := new EseData.DataList(kmem);
    var ok := RunChain(link, kmem, total, cmd, chainNum, kmem.live);
    if !ok {
      total.Delete();
      return -5, null;
    }
    code := 0;
    var got;
    got, rsp := total.Get();
  }
}
