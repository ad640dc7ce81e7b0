/** The APDU chain engine of kernel/files/snvm/sec_star.c. A request is a counted list of elements,
    each with a sequence number, an APDU and an expected-response field; star_transceive sends the
    APDUs one after the other, repeats an element whose expectation says "again", stops early on the
    first mismatching response, and joins the responses. */
module StarSpec {
  import opened Bytes
  import opened Options

  const ChainNumSize := 4
  const ChainHeaderSize := 12
  const ExpFlagSize := 4
  const ChainMaxNum := 65536 / 256 + 1

  /** What one send/receive pair over the T=1 protocol yields. A failed receive may still hand over
      the bytes that had arrived. */
  datatype Exchange =
    | SendFailed
    | ReceiveFailed(partial: seq<byte>)
    | Received(response: seq<byte>)

  datatype Outcome = Rejected(code: int) | Delivered(bytes: seq<byte>)

  /** The expected-response field: absent, too short to hold its flag word, or a flag word and the
      suffix the response must end with. */
  datatype Expectation = Anything | TooShort | Suffix(flag: nat, suffix: seq<byte>)

  datatype Element = Element(apdu: seq<byte>, expectation: Expectation)

  function BigEndian32(bytes: seq<byte>): (value: nat)
    requires |bytes| >= 4
    ensures value < TwoTo32
  {
    0x100_0000 * (bytes[0] as int) + 0x1_0000 * (bytes[1] as int) + 0x100 * (bytes[2] as int) + bytes[3]
  }

  /** The driver's bounds check, in 32-bit arithmetic. */
  predicate SizesRejected(remaining: nat, dataSize: nat, expectedSize: nat)
  {
    var sum := (dataSize + expectedSize) % TwoTo32;
    remaining < sum || dataSize > sum
  }

  /** The wrap-around in the check is harmless: it accepts exactly the sizes that fit. */
  lemma SizesRejectedExactly(remaining: nat, dataSize: nat, expectedSize: nat)
    requires remaining < TwoTo32 && dataSize < TwoTo32 && expectedSize < TwoTo32
    ensures SizesRejected(remaining, dataSize, expectedSize) <==> dataSize + expectedSize > remaining
  {
    if dataSize + expectedSize >= TwoTo32 {
      assert (dataSize + expectedSize) % TwoTo32 == dataSize + expectedSize - TwoTo32;
    }
  }

  predicate EndsWith(bytes: seq<byte>, suffix: seq<byte>)
  {
    |suffix| <= |bytes| && bytes[|bytes| - |suffix|..] == suffix
  }

  predicate Mismatch(expectation: Expectation, response: seq<byte>)
  {
    match expectation
    case Anything => false
    case TooShort => true
    case Suffix(_, suffix) => !EndsWith(response, suffix)
  }

  /** EXPECTED_RESPONSE_AGAIN is bit 1 of the flag word. */
  predicate Again(expectation: Expectation)
  {
    expectation.Suffix? && (expectation.flag / 2) % 2 == 1
  }

  function ReadExpectation(field: seq<byte>): Expectation
  {
    if field == [] then Anything
    else if |field| < ExpFlagSize then TooShort
    else Suffix(BigEndian32(field), field[ExpFlagSize..])
  }

  /** An intermediate response without its status word; one of two bytes or fewer vanishes. */
  function Trimmed(response: seq<byte>): seq<seq<byte>>
  {
    if |response| > 2 then [response[..|response| - 2]] else []
  }

  /** One chain element read off the front of `rest`, with what follows it. */
  function ReadElement(rest: seq<byte>, index: nat): Option<(Element, seq<byte>)>
    requires |rest| < TwoTo32
  {
    if |rest| <= ChainHeaderSize || BigEndian32(rest) != index then None
    else
      var dataSize, expectedSize := BigEndian32(rest[4..]), BigEndian32(rest[8..]);
      var body := rest[ChainHeaderSize..];
      if SizesRejected(|body|, dataSize, expectedSize) then None
      else
        SizesRejectedExactly(|body|, dataSize, expectedSize);
        Some((Element(body[..dataSize], ReadExpectation(body[dataSize..dataSize + expectedSize])),
              body[dataSize + expectedSize..]))
  }

  /** The driver's run from element `index` on, `packets` being what it has stored so far. */
  function RunFrom(rest: seq<byte>, index: nat, count: nat, script: seq<Exchange>, packets: seq<seq<byte>>): Outcome
    requires |rest| < TwoTo32 && index <= count
    decreases count - index, |script| + 1
  {
    if index == count then Delivered(Flatten(packets))
    else
      match ReadElement(rest, index)
      case None => Rejected(-5)
      case Some((element, next)) => RunElement(element, next, index, count, script, packets)
  }

  function RunElement(element: Element, next: seq<byte>, index: nat, count: nat, script: seq<Exchange>,
                      packets: seq<seq<byte>>): Outcome
    requires |next| < TwoTo32 && index < count
    decreases count - index, |script|
  {
    if element.apdu == [] || script == [] || !script[0].Received? then Rejected(-5)
    else
      var response := script[0].response;
      if Mismatch(element.expectation, response) then Delivered(Flatten(packets + [response]))
      else if Again(element.expectation) then
        RunElement(element, next, index, count, script[1..], packets + Trimmed(response))
      else
        RunFrom(next, index + 1, count, script[1..],
                packets + if index < count - 1 then Trimmed(response) else [response])
  }

  /** What is left to do once the element has its response: stop on a mismatch, or go on. */
  function AfterResponse(element: Element, next: seq<byte>, index: nat, count: nat, script: seq<Exchange>,
                         packets: seq<seq<byte>>, response: seq<byte>): Outcome
    requires |next| < TwoTo32 && index < count
  {
    if Mismatch(element.expectation, response) then Delivered(Flatten(packets + [response]))
    else
      RunFrom(next, index + 1, count, script, packets + if index < count - 1 then Trimmed(response) else [response])
  }

  function Run(cmd: seq<byte>, script: seq<Exchange>): Outcome
    requires |cmd| < TwoTo32
  {
    if cmd == [] then Rejected(-2)
    else if |cmd| < ChainNumSize then Rejected(-3)
    else
      var count := BigEndian32(cmd);
      if count == 0 || count > ChainMaxNum then Rejected(-4)
      else RunFrom(cmd[ChainNumSize..], 0, count, script, [])
  }

  // ---------- what the chain promises, told without the driver's cursor ----------

  /** Stands in a chain for an element that cannot be read: like one without an APDU it is never sent. */
  function Unreadable(): Element
  {
    Element([], Anything)
  }

  /** The whole chain as a list, up to the first element that cannot be read. */
  function ReadChain(rest: seq<byte>, index: nat, count: nat): (chain: seq<Element>)
    requires |rest| < TwoTo32 && index <= count
    ensures index < count <==> chain != []
    decreases count - index
  {
    if index == count then []
    else
      match ReadElement(rest, index)
      case None => [Unreadable()]
      case Some((element, next)) => [element] + ReadChain(next, index + 1, count)
  }

  /** How many responses the chain takes: up to the first mismatch or to the last element. None when
      a send or a receive fails before that. */
  function Taken(chain: seq<Element>, script: seq<Exchange>): (taken: Option<nat>)
    ensures taken.Some? ==> taken.value <= |script| && (chain != [] ==> taken.value > 0)
    ensures taken.Some? ==> forall k :: 0 <= k < taken.value ==> script[k].Received?
    decreases |chain|, |script|
  {
    if chain == [] then Some(0)
    else if chain[0].apdu == [] || script == [] || !script[0].Received? then None
    else if Mismatch(chain[0].expectation, script[0].response) then Some(1)
    else
      var following := if Again(chain[0].expectation) then Taken(chain, script[1..]) else Taken(chain[1..], script[1..]);
      if following.None? then None else Some(following.value + 1)
  }

  /** All responses but the last without their status words, then the last one whole. */
  function Joined(script: seq<Exchange>): seq<byte>
    requires forall k :: 0 <= k < |script| ==> script[k].Received?
  {
    if script == [] then []
    else if |script| == 1 then script[0].response
    else Flatten(Trimmed(script[0].response)) + Joined(script[1..])
  }

  /** From any point of the run: what is stored already, then the joined responses still to come. */
  lemma {:induction false} RunFromJoins(rest: seq<byte>, index: nat, count: nat, script: seq<Exchange>, packets: seq<seq<byte>>)
    requires |rest| < TwoTo32 && index <= count
    ensures var taken := Taken(ReadChain(rest, index, count), script);
      RunFrom(rest, index, count, script, packets)
        == (if taken.None? then Rejected(-5) else Delivered(Flatten(packets) + Joined(script[..taken.value])))
    decreases count - index, |script| + 1
  {
    if index == count {
      assert Flatten(packets) + [] == Flatten(packets);
    } else if ReadElement(rest, index).Some? {
      var (element, next) := ReadElement(rest, index).value;
      RunElementJoins(element, next, index, count, script, packets);
    }
  }

  lemma {:induction false} RunElementJoins(element: Element, next: seq<byte>, index: nat, count: nat, script: seq<Exchange>, packets: seq<seq<byte>>)
    requires |next| < TwoTo32 && index < count
    ensures var taken := Taken([element] + ReadChain(next, index + 1, count), script);
      RunElement(element, next, index, count, script, packets)
        == (if taken.None? then Rejected(-5) else Delivered(Flatten(packets) + Joined(script[..taken.value])))
    decreases count - index, |script|
  {
    var elements := ReadChain(next, index + 1, count);
    var chain := [element] + elements;
    assert chain[0] == element && chain[1..] == elements;
    if element.apdu != [] && script != [] && script[0].Received? {
      var response, rest := script[0].response, script[1..];
      if Mismatch(element.expectation, response) {
        assert Taken(chain, script) == Some(1);
        FlattenAppend(packets, response);
        JoinedStep(script, 0, packets, [response]);
      } else if Again(element.expectation) {
        var following := Taken(chain, rest);
        assert Taken(chain, script) == if following.None? then None else Some(following.value + 1);
        RunElementJoins(element, next, index, count, rest, packets + Trimmed(response));
        if following.Some? {
          JoinedStep(script, following.value, packets, Trimmed(response));
        }
      } else {
        var following := Taken(elements, rest);
        assert Taken(chain, script) == if following.None? then None else Some(following.value + 1);
        var stored := if index < count - 1 then Trimmed(response) else [response];
        RunFromJoins(next, index + 1, count, rest, packets + stored);
        if following.Some? {
          JoinedStep(script, following.value, packets, stored);
        }
      }
    }
  }

  /** Storing the first of `taken + 1` responses and joining the rest is joining them all. */
  lemma JoinedStep(script: seq<Exchange>, taken: nat, packets: seq<seq<byte>>, stored: seq<seq<byte>>)
    requires taken < |script|
    requires forall k :: 0 <= k <= taken ==> script[k].Received?
    requires stored == if taken == 0 then [script[0].response] else Trimmed(script[0].response)
    ensures Flatten(packets + stored) + Joined(script[1..][..taken]) == Flatten(packets) + Joined(script[..taken + 1])
  {
    FlattenConcat(packets, stored);
    JoinedHead(script, taken, stored);
    ConcatAssoc(Flatten(packets), Flatten(stored), Joined(script[1..][..taken]));
  }

  lemma JoinedHead(script: seq<Exchange>, taken: nat, stored: seq<seq<byte>>)
    requires taken < |script|
    requires forall k :: 0 <= k <= taken ==> script[k].Received?
    requires stored == if taken == 0 then [script[0].response] else Trimmed(script[0].response)
    ensures Joined(script[..taken + 1]) == Flatten(stored) + Joined(script[1..][..taken])
  {
    assert script[..taken + 1][1..] == script[1..][..taken];
    if taken == 0 {
      assert Flatten([script[0].response]) == script[0].response + Flatten([]);
    }
  }

  /** For every chain, well formed or not, and every sequence of card responses: the reply is the responses taken,
      each intermediate or "again" one without its last two bytes and the last one whole; the call fails exactly
      when the link fails, or an element cannot be read or sent, before the chain is done. */
  lemma AcceptedChain(cmd: seq<byte>, script: seq<Exchange>)
    requires ChainNumSize <= |cmd| < TwoTo32
    requires 0 < BigEndian32(cmd) <= ChainMaxNum
    ensures var taken := Taken(ReadChain(cmd[ChainNumSize..], 0, BigEndian32(cmd)), script);
      Run(cmd, script) == (if taken.None? then Rejected(-5) else Delivered(Joined(script[..taken.value])))
  {
    RunFromJoins(cmd[ChainNumSize..], 0, BigEndian32(cmd), script, []);
  }

  /** The element whose exchange the k-th response ends. */
  function InCharge(chain: seq<Element>, script: seq<Exchange>, k: nat): Element
    requires Taken(chain, script).Some? && k < Taken(chain, script).value
    decreases |chain|, |script|
  {
    if k == 0 then chain[0]
    else if Again(chain[0].expectation) then InCharge(chain, script[1..], k - 1)
    else InCharge(chain[1..], script[1..], k - 1)
  }

  predicate Sendable(chain: seq<Element>)
  {
    forall i :: 0 <= i < |chain| ==> chain[i].apdu != []
  }

  /** An element that cannot be read or sent costs the whole reply, unless the last response taken before it mismatches
      the element that asked for it and so ends the chain. */
  lemma {:induction false} NotAccepted(chain: seq<Element>, script: seq<Exchange>)
    requires !Sendable(chain) && Taken(chain, script).Some?
    ensures var last := Taken(chain, script).value - 1;
      last >= 0 && Mismatch(InCharge(chain, script, last).expectation, script[last].response)
    decreases |chain|, |script|
  {
    if !Mismatch(chain[0].expectation, script[0].response) {
      var i :| 0 <= i < |chain| && chain[i].apdu == [];
      if Again(chain[0].expectation) {
        NotAccepted(chain, script[1..]);
      } else {
        assert chain[1..][i - 1] == chain[i];
        NotAccepted(chain[1..], script[1..]);
      }
    }
  }
}
