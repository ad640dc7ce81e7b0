/** A session in which exchanges may also break off: what each call executes and hands over, and when the next call
    finds both ends in step. The card drops an exchange the host has given up; `UnfinishedApduGrows` says what
    happens with one that does not. */
module T1Ledger {
  import opened Bytes
  import opened StarSpec
  import opened T1
  import opened T1Link
  import opened T1Session
  import opened T1Failure

  /** The exchange runs on the link until the receive loop ends, completely or not. */
  ghost predicate Ends(host: Driver, card: Numbers, plan: Plan, address: byte)
  {
    var setup := SetupOf(card, plan, address);
    && ValidSetup(setup) && PossibleRun(setup, StartOf(host, card, plan), plan.run)
    && var before := RunLink(setup, StartOf(host, card, plan), plan.run);
       before.host.state != Idle && Possible(setup, before, plan.last) && Step(setup, before, plan.last).host.state == Idle
  }

  ghost function BeforeEnd(host: Driver, card: Numbers, plan: Plan, address: byte): Link
    requires Ends(host, card, plan, address)
  {
    RunLink(SetupOf(card, plan, address), StartOf(host, card, plan), plan.run)
  }

  ghost function AtEnd(host: Driver, card: Numbers, plan: Plan, address: byte): Link
    requires Ends(host, card, plan, address)
  {
    Step(SetupOf(card, plan, address), BeforeEnd(host, card, plan, address), plan.last)
  }

  ghost predicate Whole(host: Driver, card: Numbers, plan: Plan, address: byte)
    requires Ends(host, card, plan, address)
  {
    LastChunkArrives(SetupOf(card, plan, address), BeforeEnd(host, card, plan, address), plan.last)
  }

  /** The driver hands over what it holds, if that is a byte at least. */
  function HandOver(d: Driver): Driver
  {
    if Flatten(d.recvData) == [] then d else d.(recvData := [])
  }

  /** Where the next call starts. */
  ghost function NextHost(host: Driver, card: Numbers, plan: Plan, address: byte): Driver
    requires Ends(host, card, plan, address)
  {
    HandOver(AtEnd(host, card, plan, address).host)
  }

  ghost function NextCard(host: Driver, card: Numbers, plan: Plan, address: byte): Numbers
    requires Ends(host, card, plan, address)
  {
    NumbersOf(SetupOf(card, plan, address), AtEnd(host, card, plan, address).card)
  }

  /** No packet without a byte stays behind, and an exchange that broke off did so with every block either end sent
      taken by the other. */
  ghost predicate Resumes(host: Driver, card: Numbers, plan: Plan, address: byte)
    requires Ends(host, card, plan, address)
  {
    var end := AtEnd(host, card, plan, address);
    && (end.host.recvData == [] || Flatten(end.host.recvData) != [])
    && (Whole(host, card, plan, address)
        || (|end.card.accepted| == CursorOf(end.host) + 1
            && (end.card.complete ==> |end.host.recvData| == end.card.current + 1)))
  }

  lemma InStepBeforeEnd(host: Driver, card: Numbers, plan: Plan, address: byte)
    requires Rested(host) && Agree(host, card) && Ends(host, card, plan, address)
    ensures InExchange(SetupOf(card, plan, address), BeforeEnd(host, card, plan, address))
  {
    var setup, start := SetupOf(card, plan, address), StartOf(host, card, plan);
    BeginKeeps(setup, host, start);
    RunKeeps(setup, start, plan.run);
  }

  lemma WholeAgrees(setup: Setup, link: Link, h: Happening)
    requires ValidSetup(setup) && InExchange(setup, link) && Possible(setup, link, h) && LastChunkArrives(setup, link, h)
    ensures Agree(Step(setup, link, h).host, NumbersOf(setup, Step(setup, link, h).card))
  {
    LastRoundAgrees(setup, link, h);
    LastChunkIsLast(setup, link, h);
  }

  lemma LastChunkIsLast(setup: Setup, link: Link, h: Happening)
    requires ValidSetup(setup) && Possible(setup, link, h) && LastChunkArrives(setup, link, h)
    ensures Step(setup, link, h).card.complete && Step(setup, link, h).card.current + 1 == |setup.response|
  {
    assert CardMaySend(setup, CardAfter(setup, link, h), h.answer);
  }

  /** The next call finds the driver rested and both ends in agreement exactly in these cases. */
  lemma ResumesExactly(host: Driver, card: Numbers, plan: Plan, address: byte)
    requires Rested(host) && Agree(host, card) && Ends(host, card, plan, address)
    ensures Rested(NextHost(host, card, plan, address))
            && Agree(NextHost(host, card, plan, address), NextCard(host, card, plan, address))
      <==> Resumes(host, card, plan, address)
  {
    var setup, before := SetupOf(card, plan, address), BeforeEnd(host, card, plan, address);
    InStepBeforeEnd(host, card, plan, address);
    if Whole(host, card, plan, address) {
      WholeAgrees(setup, before, plan.last);
    } else {
      AgreeSurvivesExactly(setup, before, plan.last);
    }
  }

  // ---------- the session ----------

  /** Call after call, each but the last leaving both ends ready for the next. */
  ghost predicate Calls(host: Driver, card: Numbers, plans: seq<Plan>, address: byte)
    decreases |plans|
  {
    plans != [] ==>
      && Ends(host, card, plans[0], address)
      && (|plans| > 1 ==> Resumes(host, card, plans[0], address))
      && Calls(NextHost(host, card, plans[0], address), NextCard(host, card, plans[0], address), plans[1..], address)
  }

  /** What one call came to: whether the response arrived whole, what the card took of the APDU, what the caller got. */
  datatype Entry = Entry(whole: bool, executed: seq<byte>, outcome: Exchange)

  ghost function EntryOf(host: Driver, card: Numbers, plan: Plan, address: byte): Entry
    requires Ends(host, card, plan, address)
  {
    Entry(Whole(host, card, plan, address), Flatten(AtEnd(host, card, plan, address).card.accepted),
          OutcomeAt(SetupOf(card, plan, address), BeforeEnd(host, card, plan, address), plan.last))
  }

  ghost function Ledger(host: Driver, card: Numbers, plans: seq<Plan>, address: byte): (entries: seq<Entry>)
    requires Calls(host, card, plans, address)
    ensures |entries| == |plans|
    decreases |plans|
  {
    if plans == [] then []
    else
      [EntryOf(host, card, plans[0], address)]
      + Ledger(NextHost(host, card, plans[0], address), NextCard(host, card, plans[0], address), plans[1..], address)
  }

  function BytesOf(outcome: Exchange): seq<byte>
  {
    match outcome
    case Received(response) => response
    case ReceiveFailed(partial) => partial
    case SendFailed => []
  }

  /** The card took a front of the APDU, the caller got a front of the response; all of both, once it is whole. */
  predicate Faithful(entry: Entry, plan: Plan)
  {
    && entry.executed <= plan.apdu && BytesOf(entry.outcome) <= Flatten(plan.response)
    && (entry.whole ==> entry.executed == plan.apdu && BytesOf(entry.outcome) == Flatten(plan.response))
    && (entry.whole ==> (entry.outcome.Received? <==> Flatten(plan.response) != []))
  }

  lemma RoundOutcome(setup: Setup, link: Link, h: Happening)
    requires ValidSetup(setup) && InExchange(setup, link) && Possible(setup, link, h)
    ensures BytesOf(OutcomeAt(setup, link, h)) == Flatten(Step(setup, link, h).host.recvData)
    ensures LastChunkArrives(setup, link, h) ==>
      (OutcomeAt(setup, link, h).Received? <==> Flatten(Step(setup, link, h).host.recvData) != [])
  {
    if LastChunkArrives(setup, link, h) {
      LastBlockEnds(setup, link, h);
      IdleOutcome(link.host, EventOf(setup, link, h), h.busOk);
    }
  }

  lemma LastBlockEnds(setup: Setup, link: Link, h: Happening)
    requires ValidSetup(setup) && InExchange(setup, link) && Possible(setup, link, h) && LastChunkArrives(setup, link, h)
    ensures Process(link.host, EventOf(setup, link, h)).ok
    ensures Process(link.host, EventOf(setup, link, h)).driver.state == Idle
  {
    HearI(link.host, setup.address, h.answer);
    var _, _ := ProcessKeeps(setup, link, h);
  }

  lemma IdleOutcome(d: Driver, e: RxEvent, busOk: bool)
    requires WholeBlock(e) && Process(d, e).driver.state == Idle && Process(d, e).ok
    ensures var round := HostRound(d, e, busOk);
      OutcomeOf(round).Received? <==> Flatten(round.driver.recvData) != []
  {
  }

  lemma CallIsFaithful(host: Driver, card: Numbers, plan: Plan, address: byte)
    requires Rested(host) && Agree(host, card) && Ends(host, card, plan, address)
    ensures Faithful(EntryOf(host, card, plan, address), plan)
  {
    var setup, before := SetupOf(card, plan, address), BeforeEnd(host, card, plan, address);
    var end := AtEnd(host, card, plan, address);
    InStepBeforeEnd(host, card, plan, address);
    RoundOutcome(setup, before, plan.last);
    StepKeeps(setup, before, plan.last);
    PrefixFlattens(plan.apdu, end.card.accepted);
    assert end.host.recvData == plan.response[..|end.host.recvData|];
    FlattenTake(plan.response, |end.host.recvData|);
    AllChunks(plan.apdu);
  }

  lemma AllChunks(apdu: seq<byte>)
    ensures Flatten(Chunks(apdu)) == apdu
  {
    ChunksPartition(apdu, |Chunks(apdu)|);
    assert Chunks(apdu)[..|Chunks(apdu)|] == Chunks(apdu);
  }

  /** Over any number of calls, each of which may break off at any point: as long as every break leaves the two ends in
      agreement, no call executes or hands over anything but its own APDU and response, in order and at most once, and
      a whole one all of it. */
  lemma {:induction false} EveryCallIsFaithful(host: Driver, card: Numbers, plans: seq<Plan>, address: byte)
    requires Rested(host) && Agree(host, card) && Calls(host, card, plans, address)
    ensures forall i :: 0 <= i < |plans| ==> Faithful(Ledger(host, card, plans, address)[i], plans[i])
    decreases |plans|
  {
    if plans != [] {
      CallIsFaithful(host, card, plans[0], address);
      if |plans| > 1 {
        ResumesExactly(host, card, plans[0], address);
        EveryCallIsFaithful(NextHost(host, card, plans[0], address), NextCard(host, card, plans[0], address), plans[1..],
                            address);
      }
    }
  }

  // ---------- a card that does not drop the exchange ----------

  /** A card that still waits for the rest of the broken APDU takes the next APDU's first block for it, exactly when
      its number is the expected one, and ignores it otherwise. */
  lemma UnfinishedApduGrows(setup: Setup, link: Link, h: Happening, next: Setup, stubborn: bool)
    requires ValidSetup(setup) && InExchange(setup, link) && BreaksOff(setup, link, h) && next.apdu != []
    ensures var end := Step(setup, link, h);
      var sent := Send(HandOver(end.host), next.apdu);
      && sent.ok
      && CardHears(next, end.card, sent.frame, stubborn).accepted
         == end.card.accepted
            + (if !end.card.complete && |end.card.accepted| == CursorOf(end.host) + 1 then [ChunkAt(next.apdu, 0)] else [])
  {
    var k, r := BreakKeeps(setup, link, h);
    NextBlockHeard(setup, Step(setup, link, h), next, stubborn, k, r);
  }

  lemma NextBlockHeard(setup: Setup, end: Link, next: Setup, stubborn: bool, k: nat, r: nat)
    requires Stopped(setup, end, k, r) && end.host.state == Idle && next.apdu != []
    ensures var sent := Send(HandOver(end.host), next.apdu);
      && sent.ok
      && CardHears(next, end.card, sent.frame, stubborn).accepted
         == end.card.accepted
            + (if !end.card.complete && |end.card.accepted| == CursorOf(end.host) + 1 then [ChunkAt(next.apdu, 0)] else [])
  {
    var first := next.(hostFirst := Flip(end.host.lastTx.iframe.seqNo));
    FirstFrame(HandOver(end.host), first);
    IFrameParses(first, end.host.sendAddress, 0);
    NumberMeets(setup, end.card, k, r);
    BlockHeard(next, end.card, Send(HandOver(end.host), next.apdu).frame, stubborn, first.hostFirst,
               Remaining(next.apdu, 0) > SendSize, ChunkAt(next.apdu, 0));
  }

  lemma NumberMeets(setup: Setup, card: Card, k: nat, r: nat)
    requires CardSide(setup, card, k, r)
    ensures Flip(Alternate(setup.hostFirst, k)) == card.expected <==> |card.accepted| == k + 1
  {
  }

  lemma BlockHeard(setup: Setup, card: Card, frame: seq<byte>, stubborn: bool, seqNo: Bit, more: bool, inf: seq<byte>)
    requires ParseHost(frame) == HostI(seqNo, more, inf)
    ensures CardHears(setup, card, frame, stubborn).accepted
      == card.accepted + (if !card.complete && seqNo == card.expected then [inf] else [])
  {
  }

  lemma FirstFrame(d: Driver, setup: Setup)
    requires d.state == Idle && setup.apdu != [] && setup.hostFirst == Flip(d.lastTx.iframe.seqNo)
    ensures Send(d, setup.apdu).ok && Send(d, setup.apdu).frame == EncodeIFrame(d.sendAddress, IFrameAt(setup, 0))
  {
  }
}
