/** A chain of exchanges: star_transceive hands the T=1 driver one APDU after the other, and the sequence numbers
    carry over from each exchange to the next, at both ends. */
module T1Session {
  import opened Bytes
  import opened StarSpec
  import opened T1
  import opened T1Link

  /** What a card remembers between exchanges: the number it expects next and the one it sends next. */
  datatype Numbers = Numbers(expected: Bit, sends: Bit)

  /** One exchange: the APDU, the card's response in chunks, and what happens on the link until the response is
      complete. */
  datatype Plan = Plan(apdu: seq<byte>, response: seq<seq<byte>>, run: seq<Happening>, last: Happening)

  /** Both ends agree on the next number in each direction. */
  predicate Agree(host: Driver, card: Numbers)
  {
    card.expected == Flip(host.lastTx.iframe.seqNo) && card.sends == Flip(host.lastRx.iframe.seqNo)
  }

  predicate Rested(host: Driver)
  {
    host.state == Idle && host.recvData == []
  }

  function SetupOf(card: Numbers, plan: Plan, address: byte): Setup
  {
    Setup(plan.apdu, plan.response, card.expected, card.sends, address)
  }

  function StartOf(host: Driver, card: Numbers, plan: Plan): Link
  {
    Link(Send(host, plan.apdu).driver, Card(card.expected, [], false, 0), Send(host, plan.apdu).frame)
  }

  /** The exchange runs on the link and ends with the last chunk of the response, which is not empty: a receive that
      yields no byte fails. */
  ghost predicate Completes(host: Driver, card: Numbers, plan: Plan, address: byte)
  {
    var setup := SetupOf(card, plan, address);
    && ValidSetup(setup) && Flatten(plan.response) != [] && PossibleRun(setup, StartOf(host, card, plan), plan.run)
    && var before := RunLink(setup, StartOf(host, card, plan), plan.run);
       && before.host.state != Idle && Possible(setup, before, plan.last) && LastChunkArrives(setup, before, plan.last)
  }

  ghost function EndOf(host: Driver, card: Numbers, plan: Plan, address: byte): Link
    requires Completes(host, card, plan, address)
  {
    var setup := SetupOf(card, plan, address);
    Step(setup, RunLink(setup, StartOf(host, card, plan), plan.run), plan.last)
  }

  /** The driver once it has handed the response over. */
  ghost function HostAfter(host: Driver, card: Numbers, plan: Plan, address: byte): Driver
    requires Completes(host, card, plan, address)
  {
    EndOf(host, card, plan, address).host.(recvData := [])
  }

  ghost function NumbersAfter(host: Driver, card: Numbers, plan: Plan, address: byte): Numbers
    requires Completes(host, card, plan, address)
  {
    Numbers(EndOf(host, card, plan, address).card.expected, Alternate(card.sends, |plan.response|))
  }

  // ---------- one exchange ----------

  /** Where both ends are when the response is about to be complete. */
  lemma LastRoundNumbers(setup: Setup, link: Link, h: Happening)
    requires ValidSetup(setup) && InExchange(setup, link) && Possible(setup, link, h) && LastChunkArrives(setup, link, h)
    ensures CardAfter(setup, link, h).expected == Flip(link.host.lastTx.iframe.seqNo)
    ensures Flip(h.answer.seqNo) == Alternate(setup.cardFirst, |setup.response|)
  {
    CardKeeps(setup, link, h);
    AlternateFlips(setup.hostFirst, CursorOf(link.host));
    AlternateFlips(setup.cardFirst, |setup.response| - 1);
  }

  lemma LastBlockTaken(setup: Setup, link: Link, h: Happening)
    requires ValidSetup(setup) && InExchange(setup, link) && Possible(setup, link, h) && LastChunkArrives(setup, link, h)
    ensures var after := Process(link.host, EventOf(setup, link, h)).driver;
      after.lastRx.iframe.seqNo == h.answer.seqNo && after.lastTx == link.host.lastTx
  {
    HearI(link.host, setup.address, h.answer);
    NumberTaken(Heard(link.host), h.answer);
  }

  lemma LastBlockAgrees(setup: Setup, link: Link, h: Happening)
    requires ValidSetup(setup) && InExchange(setup, link) && Possible(setup, link, h) && LastChunkArrives(setup, link, h)
    ensures var after := Process(link.host, EventOf(setup, link, h)).driver;
      && Flip(after.lastTx.iframe.seqNo) == CardAfter(setup, link, h).expected
      && Flip(after.lastRx.iframe.seqNo) == Alternate(setup.cardFirst, |setup.response|)
  {
    LastRoundNumbers(setup, link, h);
    LastBlockTaken(setup, link, h);
  }

  /** The round that completes the response leaves both ends with the same next numbers. */
  lemma LastRoundAgrees(setup: Setup, link: Link, h: Happening)
    requires ValidSetup(setup) && InExchange(setup, link) && Possible(setup, link, h) && LastChunkArrives(setup, link, h)
    ensures var end := Step(setup, link, h);
      && Flip(end.host.lastTx.iframe.seqNo) == end.card.expected
      && Flip(end.host.lastRx.iframe.seqNo) == Alternate(setup.cardFirst, |setup.response|)
  {
    LastBlockAgrees(setup, link, h);
    StepEnds(setup, link, h);
  }

  lemma AlternateFlips(first: Bit, k: nat)
    ensures Flip(Alternate(first, k)) == Alternate(first, k + 1)
  {
  }

  lemma NumberTaken(d: Driver, block: CardBlock)
    requires block.CardI? && d.lastRx.iframe.seqNo != block.seqNo
    ensures var after := DecodeIBlock(d, IPcb(block.seqNo, block.more), block.inf);
      after.lastRx.iframe.seqNo == block.seqNo && after.lastTx == d.lastTx
  {
    assert EseBit(IPcb(block.seqNo, block.more), 6) == block.seqNo;
  }

  lemma IdleRound(d: Driver, e: RxEvent, busOk: bool)
    requires WholeBlock(e) && Process(d, e).driver.state == Idle
    ensures HostRound(d, e, busOk).driver == Process(d, e).driver
  {
  }

  /** The round that ends the exchange sends nothing. */
  lemma StepEnds(setup: Setup, link: Link, h: Happening)
    requires ValidSetup(setup) && InExchange(setup, link) && Possible(setup, link, h) && LastChunkArrives(setup, link, h)
    ensures Step(setup, link, h).host == Process(link.host, EventOf(setup, link, h)).driver
    ensures Step(setup, link, h).card == CardAfter(setup, link, h)
  {
    var _, _ := ProcessKeeps(setup, link, h);
    IdleRound(link.host, EventOf(setup, link, h), h.busOk);
  }

  /** A completed exchange delivers both ways and leaves the ends in agreement. */
  lemma ExchangeAgrees(host: Driver, card: Numbers, plan: Plan, address: byte)
    requires Rested(host) && Agree(host, card) && Completes(host, card, plan, address)
    ensures var end := EndOf(host, card, plan, address);
      && Flatten(end.card.accepted) == plan.apdu && end.host.recvData == plan.response
      && Rested(HostAfter(host, card, plan, address))
      && Agree(HostAfter(host, card, plan, address), NumbersAfter(host, card, plan, address))
  {
    var setup, start := SetupOf(card, plan, address), StartOf(host, card, plan);
    var before := RunLink(setup, start, plan.run);
    BeginKeeps(setup, host, start);
    RunKeeps(setup, start, plan.run);
    CompleteRun(setup, host, start, plan.run, plan.last);
    LastRoundAgrees(setup, before, plan.last);
  }

  // ---------- the session ----------

  ghost predicate Session(host: Driver, card: Numbers, plans: seq<Plan>, address: byte)
    decreases |plans|
  {
    plans != [] ==>
      && Completes(host, card, plans[0], address)
      && Session(HostAfter(host, card, plans[0], address), NumbersAfter(host, card, plans[0], address), plans[1..],
                 address)
  }

  /** The APDUs the card took, exchange by exchange. */
  ghost function Executed(host: Driver, card: Numbers, plans: seq<Plan>, address: byte): seq<seq<byte>>
    requires Session(host, card, plans, address)
    decreases |plans|
  {
    if plans == [] then []
    else
      [Flatten(EndOf(host, card, plans[0], address).card.accepted)]
      + Executed(HostAfter(host, card, plans[0], address), NumbersAfter(host, card, plans[0], address), plans[1..],
                 address)
  }

  /** What the driver handed over, exchange by exchange. */
  ghost function HandedOver(host: Driver, card: Numbers, plans: seq<Plan>, address: byte): (script: seq<Exchange>)
    requires Session(host, card, plans, address)
    ensures forall k :: 0 <= k < |script| ==> script[k].Received?
    decreases |plans|
  {
    if plans == [] then []
    else
      [Received(Flatten(EndOf(host, card, plans[0], address).host.recvData))]
      + HandedOver(HostAfter(host, card, plans[0], address), NumbersAfter(host, card, plans[0], address), plans[1..],
                   address)
  }

  function Apdus(plans: seq<Plan>): (apdus: seq<seq<byte>>)
    ensures |apdus| == |plans|
    ensures forall i :: 0 <= i < |plans| ==> apdus[i] == plans[i].apdu
  {
    if plans == [] then [] else [plans[0].apdu] + Apdus(plans[1..])
  }

  function Responses(plans: seq<Plan>): (script: seq<Exchange>)
    ensures |script| == |plans|
    ensures forall i :: 0 <= i < |plans| ==> script[i] == Received(Flatten(plans[i].response))
  {
    if plans == [] then [] else [Received(Flatten(plans[0].response))] + Responses(plans[1..])
  }

  /** Over any number of exchanges, whatever is lost and repeated in each: the card executes every APDU exactly once,
      in order, and the driver hands over the card's response to each, in order. */
  lemma {:induction false} SessionExactlyOnce(host: Driver, card: Numbers, plans: seq<Plan>, address: byte)
    requires Rested(host) && Agree(host, card) && Session(host, card, plans, address)
    ensures Executed(host, card, plans, address) == Apdus(plans)
    ensures HandedOver(host, card, plans, address) == Responses(plans)
    decreases |plans|
  {
    if plans != [] {
      ExchangeAgrees(host, card, plans[0], address);
      SessionExactlyOnce(HostAfter(host, card, plans[0], address), NumbersAfter(host, card, plans[0], address),
                         plans[1..], address);
    }
  }

  // ---------- star_transceive over the link ----------

  /** The APDUs a chain calls for when these are the responses: each element's, again as long as it says "again". */
  function CalledFor(chain: seq<Element>, script: seq<Exchange>): seq<seq<byte>>
    decreases |chain|, |script|
  {
    if chain == [] || chain[0].apdu == [] || script == [] || !script[0].Received? then []
    else
      [chain[0].apdu]
      + if Mismatch(chain[0].expectation, script[0].response) then []
        else if Again(chain[0].expectation) then CalledFor(chain, script[1..])
        else CalledFor(chain[1..], script[1..])
  }

  lemma {:induction false} CalledForTaken(chain: seq<Element>, script: seq<Exchange>)
    requires Taken(chain, script).Some?
    ensures |CalledFor(chain, script)| == Taken(chain, script).value
    decreases |chain|, |script|
  {
    if chain != [] && !Mismatch(chain[0].expectation, script[0].response) {
      if Again(chain[0].expectation) {
        CalledForTaken(chain, script[1..]);
      } else {
        CalledForTaken(chain[1..], script[1..]);
      }
    }
  }

  /** What one exchange meets: the card's response in chunks, and what happens on the link until it is complete. */
  datatype Turn = Turn(response: seq<seq<byte>>, run: seq<Happening>, last: Happening)

  /** The exchanges star_transceive makes of a chain, turn by turn: each sends the APDU of the element it has reached,
      which is the same again as long as the expectation says so, up to the first mismatch, the first element without
      an APDU, or the end of the turns. */
  function PlansOf(chain: seq<Element>, turns: seq<Turn>): (plans: seq<Plan>)
    ensures |plans| <= |turns|
    decreases |chain|, |turns|
  {
    if chain == [] || chain[0].apdu == [] || turns == [] then []
    else
      [Plan(chain[0].apdu, turns[0].response, turns[0].run, turns[0].last)]
      + if Mismatch(chain[0].expectation, Flatten(turns[0].response)) then []
        else if Again(chain[0].expectation) then PlansOf(chain, turns[1..])
        else PlansOf(chain[1..], turns[1..])
  }

  lemma {:induction false} PlansAreCalledFor(chain: seq<Element>, turns: seq<Turn>)
    ensures Apdus(PlansOf(chain, turns)) == CalledFor(chain, Responses(PlansOf(chain, turns)))
    decreases |chain|, |turns|
  {
    var plans := PlansOf(chain, turns);
    if plans != [] {
      assert Responses(plans)[1..] == Responses(plans[1..]);
      if !Mismatch(chain[0].expectation, Flatten(turns[0].response)) {
        if Again(chain[0].expectation) {
          PlansAreCalledFor(chain, turns[1..]);
        } else {
          PlansAreCalledFor(chain[1..], turns[1..]);
        }
      }
    }
  }

  lemma ElementsExactlyOnce(chain: seq<Element>, turns: seq<Turn>, host: Driver, card: Numbers, address: byte)
    requires Rested(host) && Agree(host, card) && Session(host, card, PlansOf(chain, turns), address)
    ensures var plans := PlansOf(chain, turns);
      var script := HandedOver(host, card, plans, address);
      && script == Responses(plans)
      && Executed(host, card, plans, address) == CalledFor(chain, script)
      && (Taken(chain, script).Some? ==> Taken(chain, script).value == |script|)
  {
    var plans := PlansOf(chain, turns);
    SessionExactlyOnce(host, card, plans, address);
    PlansAreCalledFor(chain, turns);
    if Taken(chain, Responses(plans)).Some? {
      CalledForTaken(chain, Responses(plans));
    }
  }

  /** A whole chain over a link that loses and corrupts blocks: the card executes exactly the APDUs of the chain, each
      as often as its expectation asks, in order; and the reply is the card's responses, the intermediate ones without
      their status words, unless the turns run out or an element cannot be read or sent. */
  lemma ChainExactlyOnce(cmd: seq<byte>, chain: seq<Element>, turns: seq<Turn>, host: Driver, card: Numbers,
                         address: byte)
    requires ChainNumSize <= |cmd| < TwoTo32 && 0 < BigEndian32(cmd) <= ChainMaxNum
    requires chain == ReadChain(cmd[ChainNumSize..], 0, BigEndian32(cmd))
    requires Rested(host) && Agree(host, card) && Session(host, card, PlansOf(chain, turns), address)
    ensures var script := HandedOver(host, card, PlansOf(chain, turns), address);
      && Executed(host, card, PlansOf(chain, turns), address) == CalledFor(chain, script)
      && Run(cmd, script) == if Taken(chain, script).Some? then Delivered(Joined(script)) else Rejected(-5)
  {
    ElementsExactlyOnce(chain, turns, host, card, address);
    ReplyIsJoined(cmd, chain, HandedOver(host, card, PlansOf(chain, turns), address));
  }

  lemma ReplyIsJoined(cmd: seq<byte>, chain: seq<Element>, script: seq<Exchange>)
    requires ChainNumSize <= |cmd| < TwoTo32 && 0 < BigEndian32(cmd) <= ChainMaxNum
    requires chain == ReadChain(cmd[ChainNumSize..], 0, BigEndian32(cmd))
    requires Taken(chain, script).Some? ==> Taken(chain, script).value == |script|
    ensures Run(cmd, script) == if Taken(chain, script).Some? then Delivered(Joined(script)) else Rejected(-5)
  {
    AcceptedChain(cmd, script);
    assert script[..|script|] == script;
  }
}
