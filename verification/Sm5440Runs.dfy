/** What holds over every run of polls, suspends and resumes. */
module Sm5440Runs {
  import opened Sm5440Spec

  datatype Action = PollWork | Suspend(inFlight: bool) | Resume | Tune(maxPpsMa: nat)

  /** The poll runs only when it is scheduled. */
  function Apply(d: Driver, action: Action): Driver
  {
    match action
    case PollWork => if d.pending then Poll(d).0 else d
    case Suspend(inFlight) => SuspendPrepare(d, inFlight)
    case Resume => PostSuspend(d)
    case Tune(ma) => d.(maxPpsMa := ma)
  }

  function Run(d: Driver, actions: seq<Action>): Driver
    decreases |actions|
  {
    if actions == [] then d else Run(Apply(d, actions[0]), actions[1..])
  }

  function Probed(answers: seq<int>, maxPpsMa: nat): Driver
  {
    Driver(false, false, true, 0, 0, 0, 0, maxPpsMa, World(answers, false, false, 0, 0, [], false, false))
  }

  predicate Inv(d: Driver)
  {
    && Parked(d)
    && (d.suspending ==> !d.active)
    && (d.pending <==> !d.suspending)
  }

  /** Every action keeps Parked, and nothing is active or scheduled during a suspend, and the poll is scheduled at
      all other times. */
  lemma ApplyKeeps(d: Driver, action: Action)
    requires Inv(d)
    ensures Inv(Apply(d, action))
  {
    if action.Suspend? && action.inFlight && d.pending {
      var flagged := d.(suspending := true);
      assert Parked(flagged) && Parked(Poll(flagged).0);
    }
  }

  lemma {:induction false} RunKeeps(d: Driver, actions: seq<Action>)
    requires Inv(d)
    ensures Inv(Run(d, actions))
    decreases |actions|
  {
    if actions != [] {
      ApplyKeeps(d, actions[0]);
      RunKeeps(Apply(d, actions[0]), actions[1..]);
    }
  }

  /** Pump parked across every PD request, exactly: over every run from probe, a TCPM property was written while
      CHG_ON was commanded if and only if restore_switching once failed to clear it. As long as that has not
      happened, the driver is active exactly when the pump is commanded on, and otherwise the battery is back on
      the switching charger. */
  lemma PumpParkedExactly(answers: seq<int>, maxPpsMa: nat, actions: seq<Action>)
    ensures var d := Run(Probed(answers, maxPpsMa), actions);
      && (d.w.wroteWhileOn <==> d.w.clearFailed)
      && (!d.w.clearFailed ==> (d.active <==> d.w.pumpOn))
      && (d.active <==> d.w.direct)
  {
    RunKeeps(Probed(answers, maxPpsMa), actions);
  }

  /** The one way it fails, decided by the two bus accesses of the clear. */
  predicate ClearAccessesFail(w: World)
  {
    (|w.answers| > 0 && w.answers[0] < 0) || (|w.answers| > 1 && w.answers[1] < 0)
  }

  lemma RestoreExactly(d: Driver)
    requires !d.w.wroteWhileOn
    ensures RestoreSwitching(d).w.wroteWhileOn <==> d.w.pumpOn && ClearAccessesFail(d.w)
  {
    var a := d.w.answers;
    assert SetPump(d.w, false).0 != 0 <==> ClearAccessesFail(d.w);
  }

  /** For example: fast charging is switched off while the pump runs and the read of CNTL5 fails. The fixed
      contract is requested with the pump still commanded on. */
  lemma FailedClearRequestsWhilePumping(d: Driver)
    requires Parked(d) && d.active && !d.w.clearFailed && d.w.answers == [0, 0, 0, -5]
    ensures Poll(d).0.w.wroteWhileOn && Poll(d).0.w.pumpOn && !Poll(d).0.active
  {
    var w1 := d.w.(answers := [0, 0, -5]);
    assert Next(d.w) == (0, w1);
    var w3 := d.w.(answers := [-5]);
    assert w1.answers[2..] == [-5];
    assert LogFaults(w1) == w3;
    RestoreExactly(d.(w := w3));
  }

  /** While the system is suspended nothing but the resume notification reaches a device. */
  lemma SuspendedTouchesNoDevice(d: Driver, action: Action)
    requires Inv(d) && d.suspending
    ensures Apply(d, action).w == d.w
  {
  }

  /** Parking an active pump leaves it commanded on exactly if both attempts to clear CHG_ON fail. */
  lemma ParkStopsExactly(d: Driver)
    requires Inv(d) && d.active
    ensures Park(d).w.pumpOn <==> ClearAccessesFail(d.w) && ClearAccessesFail(SetPump(d.w, false).1)
  {
    var w1 := SetPump(d.w, false).1;
    assert SetPump(d.w, false).0 != 0 <==> ClearAccessesFail(d.w);
    assert SetPump(w1, false).0 != 0 <==> ClearAccessesFail(w1);
  }

  /** A suspend always ends with the battery handed back, and with the pump off as long as restore_switching has
      always been able to clear CHG_ON. */
  lemma SuspendParks(d: Driver, inFlight: bool)
    requires Inv(d)
    ensures var after := SuspendPrepare(d, inFlight);
      !after.active && !after.w.direct && !after.pending && (after.w.pumpOn ==> after.w.clearFailed)
  {
    ApplyKeeps(d, Suspend(inFlight));
  }

  // ---------- negotiation ----------

  /** Every current request was answered "try again" or by the source's verdict on that current. */
  predicate AnsweredBy(pd: seq<PdWrite>, from: nat, verdict: int -> int)
  {
    forall i :: from <= i < |pd| && pd[i].property == CurrentNow ==>
      pd[i].result == EAgain || pd[i].result == verdict(pd[i].value)
  }

  lemma {:induction false} RetryReportsLastAnswer(w: World, property: Property, value: int, tries: nat, ret: int)
    requires w.pd != [] && w.pd[|w.pd| - 1] == PdWrite(property, value, ret)
    ensures var (result, after) := Retry(w, property, value, tries, ret);
      after.pd != [] && after.pd[|after.pd| - 1] == PdWrite(property, value, result)
    decreases tries
  {
    if tries > 0 && ret == EAgain {
      var (ret', w') := SetProperty(w, property, value);
      RetryReportsLastAnswer(w', property, value, tries - 1, ret');
    }
  }

  lemma PsyRetryReportsLastAnswer(w: World, property: Property, value: int)
    ensures var (result, after) := PsyRetry(w, property, value);
      after.pd[|after.pd| - 1] == PdWrite(property, value, result)
  {
    var (ret, w') := SetProperty(w, property, value);
    RetryReportsLastAnswer(w', property, value, PdRetries - 1, ret);
  }

  predicate OnLadder(from: int, ma: int)
  {
    MinPpsMa <= ma <= from && (from - ma) % PpsStepMa == 0
  }

  /** The settled current is on the ladder and judged by the verdict, and everything above it was refused. */
  ghost predicate PicksHighest(ma: int, ret: int, settled: int, verdict: int -> int)
  {
    && OnLadder(ma, settled)
    && (ret == EAgain || ret == verdict(settled * 1000))
    && (forall v :: OnLadder(ma, v) && v > settled ==> verdict(v * 1000) == EInval)
    && (ret == EInval ==> settled - PpsStepMa < MinPpsMa)
  }

  lemma {:induction false} WalkDownPicksHighest(w: World, ma: int, verdict: int -> int)
    requires ma >= MinPpsMa && AnsweredBy(WalkDown(w, ma).2.pd, |w.pd|, verdict)
    ensures PicksHighest(ma, WalkDown(w, ma).0, WalkDown(w, ma).1, verdict)
    decreases ma
  {
    var (ret, w') := PsyRetry(w, CurrentNow, ma * 1000);
    PsyRetryReportsLastAnswer(w, CurrentNow, ma * 1000);
    var last := |w'.pd| - 1;
    assert WalkDown(w, ma).2.pd[last] == PdWrite(CurrentNow, ma * 1000, ret);
    if ret == EInval && ma - PpsStepMa >= MinPpsMa {
      WalkDownPicksHighest(w', ma - PpsStepMa, verdict);
      StepDownPicksHighest(ma, WalkDown(w, ma).0, WalkDown(w, ma).1, verdict);
    }
  }

  lemma StepDownPicksHighest(ma: int, ret: int, settled: int, verdict: int -> int)
    requires PicksHighest(ma - PpsStepMa, ret, settled, verdict) && verdict(ma * 1000) == EInval
    ensures PicksHighest(ma, ret, settled, verdict)
  {
    forall v | OnLadder(ma, v) && v > settled ensures verdict(v * 1000) == EInval {
      LadderStep(ma, v);
    }
    LadderUp(ma, settled);
  }

  lemma LadderStep(from: int, v: int)
    requires OnLadder(from, v)
    ensures v == from || OnLadder(from - PpsStepMa, v)
  {
  }

  lemma LadderUp(from: int, v: int)
    requires OnLadder(from - PpsStepMa, v)
    ensures OnLadder(from, v)
  {
  }

  /** Negotiation settles on the highest ladder current the source accepts: the settled current is accepted, every
      higher one was refused; and if it does not settle with the source ready and answering only yes or no to
      currents, the source refuses the whole ladder or fails to take the voltage. */
  lemma NegotiationSettlesOnHighest(w: World, maxPpsMa: nat, vbatUv: nat, verdict: int -> int)
    requires AnsweredBy(NegotiatePps(w, maxPpsMa, vbatUv).1.pd, |w.pd|, verdict)
    ensures var (contract, _) := NegotiatePps(w, maxPpsMa, vbatUv);
      contract.Settled? ==>
        && OnLadder(InitialMa(maxPpsMa), contract.ma) && verdict(contract.ma * 1000) == 0
        && (forall v :: OnLadder(InitialMa(maxPpsMa), v) && v > contract.ma ==> verdict(v * 1000) == EInval)
        && contract.mv == PpsTargetMv(contract.ma, vbatUv)
    ensures var (ret, w1) := PsyRetry(w, Online, 2);
      ret == 0 && WalkDown(w1, InitialMa(maxPpsMa)).0 == EInval ==>
        forall v :: OnLadder(InitialMa(maxPpsMa), v) ==> verdict(v * 1000) == EInval
  {
    var (ret, w1) := PsyRetry(w, Online, 2);
    if ret == 0 {
      var from := InitialMa(maxPpsMa);
      assert WalkDown(w1, from).2.pd <= NegotiatePps(w, maxPpsMa, vbatUv).1.pd;
      WalkDownPicksHighest(w1, from, verdict);
      if WalkDown(w1, from).0 == EInval {
        forall v | OnLadder(from, v) ensures verdict(v * 1000) == EInval {
          LadderBottom(from, WalkDown(w1, from).1, v);
        }
      }
    }
  }

  lemma LadderBottom(from: int, bottom: int, v: int)
    requires OnLadder(from, bottom) && OnLadder(from, v) && bottom - PpsStepMa < MinPpsMa
    ensures v >= bottom
  {
  }

  /** The chip's own limit never throttles the contract. */
  lemma LimitAboveContract(ma: int)
    requires MinPpsMa <= ma <= PpsCapMa
    ensures ma < IbusLimitFor(ma) <= ma + 300
  {
  }

  /** Over every run from probe, whatever fails: while direct charging is active the contract asks for 1.8 to 5 A at 8.2
      to 10.5 V in steps of 20 mV, the chip's limit is set above that current by more than 250 mA and at most 300, and
      the pump switches at 850 kHz. */
  lemma ActiveContractInNumbers(answers: seq<int>, maxPpsMa: nat, actions: seq<Action>)
    ensures var d := Run(Probed(answers, maxPpsMa), actions);
      d.active ==>
        && 1800 <= d.targetMa <= 5000 && 8200 <= d.targetMv <= 10500 && d.targetMv % 20 == 0
        && d.targetMa + 250 < d.w.ibusLimitMa <= d.targetMa + 300 && d.w.ibusLimitMa % 50 == 0
        && d.w.frequencyKhz == 850
  {
    RunKeeps(Probed(answers, maxPpsMa), actions);
    if Run(Probed(answers, maxPpsMa), actions).active {
      LimitInNumbers(Run(Probed(answers, maxPpsMa), actions).targetMa);
    }
  }

  lemma LimitInNumbers(ma: int)
    requires 1800 <= ma <= 5000
    ensures ma + 250 < IbusLimitFor(ma) <= ma + 300 && IbusLimitFor(ma) % 50 == 0 && FrequencyFor(ma) == 850
  {
  }

  /** Failures in a row are answered by 4, 8, 16 and 30 seconds and then by five minutes each. */
  lemma BackoffLadder(fails: nat)
    requires fails <= MaxFails
    ensures Fails(fails) <= MaxFails && RetryMs < BackoffMs(Fails(fails))
    ensures BackoffMs(fails) <= BackoffMs(Fails(fails)) <= BackoffMs(Fails(Fails(fails)))
    ensures fails >= MaxFails - 1 <==> BackoffMs(Fails(fails)) == QuietRetryMs
    ensures BackoffMs(1) == 4_000 && BackoffMs(2) == 8_000 && BackoffMs(3) == 16_000 && BackoffMs(4) == 30_000
    ensures BackoffMs(5) == 300_000 && Fails(0) == 1
  {
    assert Shifted(RetryMs, 1) == 4000;
    assert Shifted(RetryMs, 2) == 8000;
    assert Shifted(RetryMs, 3) == 16000;
    assert Shifted(RetryMs, 4) == 32000;
  }
}
