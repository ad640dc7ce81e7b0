/** The driver object: its retry, polling and walk-down loops and its entry points. */
module Sm5440 {
  import Sm5440Runs
  import opened Sm5440Spec

  class Direct {
    var active: bool
    var suspending: bool
    var pending: bool
    var fails: nat
    var ppsTicks: nat
    var targetMv: int
    var targetMa: int
    var maxPpsMa: nat
    var w: World

    function View(): Driver
      reads this
    {
      Driver(active, suspending, pending, fails, ppsTicks, targetMv, targetMa, maxPpsMa, w)
    }

    constructor (answers: seq<int>, maxPpsMa: nat)
      ensures View() == Driver(false, false, true, 0, 0, 0, 0, maxPpsMa,
                               World(answers, false, false, 0, 0, [], false, false))
    {
      active, suspending, pending, fails, ppsTicks, targetMv, targetMa := false, false, true, 0, 0, 0, 0;
      this.maxPpsMa := maxPpsMa;
      w := World(answers, false, false, 0, 0, [], false, false);
    }

    method AskNext() returns (answer: int)
      modifies this`w
      ensures (answer, w) == Next(old(w))
    {
      var r := Next(w);
      answer, w := r.0, r.1;
    }

    method PsyRetry(property: Property, value: int) returns (ret: int)
      modifies this`w
      ensures (ret, w) == Sm5440Spec.PsyRetry(old(w), property, value)
      ensures |old(w.pd)| < |w.pd| <= |old(w.pd)| + PdRetries && w.pumpOn == old(w.pumpOn)
    {
      ret := EAgain;
      var i := 0;
      while i < PdRetries && ret == EAgain
        invariant i <= PdRetries
        invariant Retry(w, property, value, PdRetries - i, ret) == Sm5440Spec.PsyRetry(old(w), property, value)
      {
        var r := SetProperty(w, property, value);
        ret, w := r.0, r.1;
        i := i + 1;
      }
    }

    /** The current requests of sm5440_negotiate_pps. */
    method WalkDownCurrents() returns (ret: int, ma: int)
      modifies this`w
      ensures var (code, settled, after) := WalkDown(old(w), InitialMa(maxPpsMa));
        ret == code && w == after && (ret != EInval ==> ma == settled)
    {
      ma := InitialMa(maxPpsMa);
      ret := EInval;
      ghost var goal := WalkDown(w, ma);
      while ma >= MinPpsMa
        invariant ma >= MinPpsMa ==> WalkDown(w, ma) == goal
        invariant ma < MinPpsMa ==> ret == EInval && goal.0 == EInval && w == goal.2
        decreases ma
      {
        ret := PsyRetry(CurrentNow, ma * 1000);
        if ret != EInval {
          break;
        }
        ma := ma - PpsStepMa;
      }
    }

    method NegotiatePps(vbatUv: nat) returns (contract: Contract)
      modifies this`w
      ensures (contract, w) == Sm5440Spec.NegotiatePps(old(w), maxPpsMa, vbatUv)
    {
      var ret := PsyRetry(Online, 2);
      if ret != 0 {
        return Failed(ret);
      }
      var ma;
      ret, ma := WalkDownCurrents();
      if ret == 0 {
        var mv := PpsTargetMv(ma, vbatUv);
        ret := PsyRetry(VoltageNow, mv * 1000);
        if ret == 0 {
          return Settled(ma, mv);
        }
      }
      var _ := PsyRetry(Online, 1);
      contract := Failed(ret);
    }

    method RefreshPps() returns (ret: int)
      modifies this`w, this`targetMv
      ensures (ret, View()) == Sm5440Spec.RefreshPps(old(View()))
    {
      var battery := AskNext();
      if battery < 0 {
        return battery;
      }
      var mv := PpsTargetMv(targetMa, battery);
      if Moved(mv, targetMv) {
        ret := PsyRetry(VoltageNow, mv * 1000);
        if ret != 0 {
          return;
        }
        targetMv := mv;
      }
      ret := PsyRetry(CurrentNow, targetMa * 1000);
    }

    method SetPump(on: bool) returns (ret: int)
      modifies this`w
      ensures (ret, w) == Sm5440Spec.SetPump(old(w), on)
    {
      var r := UpdateBits(w);
      ret, w := r.0, r.1;
      if ret == 0 {
        w := w.(pumpOn := on);
      }
    }

    method PumpOn() returns (ret: int)
      modifies this`w
      ensures (ret, w) == Sm5440Spec.PumpOn(old(w))
      ensures (ret == 0 ==> w.pumpOn) && w.pd == old(w.pd)
    {
      ret := SetPump(true);
      if ret != 0 {
        return;
      }
      ghost var goal := WaitPower(w, 5);
      for i := 0 to 5
        invariant WaitPower(w, 5 - i) == goal
      {
        var r := ReadByte(w);
        w := r.1;
        if r.0 < 0 {
          return r.0;
        }
        if r.0 / 32 % 2 == 1 {
          return 0;
        }
      }
      ret := ENoLink;
    }

    method WaitVbusSettled(mv: int) returns (ret: int)
      modifies this`w
      ensures (ret, w) == Sm5440Spec.WaitVbusSettled(old(w), mv, 30)
    {
      ghost var goal := Sm5440Spec.WaitVbusSettled(w, mv, 30);
      for i := 0 to 30
        invariant Sm5440Spec.WaitVbusSettled(w, mv, 30 - i) == goal
      {
        var answer := AskNext();
        if answer < 0 {
          return answer;
        }
        if VbusOf(answer) >= mv - 500 {
          return 0;
        }
      }
      ret := ETimedOut;
    }

    method RenegotiatePps() returns (ret: int)
      modifies this`w, this`targetMv
      ensures (ret, View()) == Sm5440Spec.RenegotiatePps(old(View()))
      ensures (ret == 0 ==> w.pumpOn) && w.wroteWhileOn == old(w.wroteWhileOn)
    {
      ret := SetPump(false);
      if ret != 0 {
        return;
      }
      ret := RefreshPps();
      if ret != 0 {
        return;
      }
      ret := WaitVbusSettled(targetMv);
      if ret != 0 {
        return;
      }
      ret := PumpOn();
    }

    method RestoreSwitching()
      modifies this`w, this`active, this`ppsTicks
      ensures View() == Sm5440Spec.RestoreSwitching(old(View()))
      ensures !active && !w.direct && (w.pumpOn ==> w.clearFailed)
    {
      var before := w;
      var ret := SetPump(false);
      w := NoteClear(before, ret, w);
      w := UpdateBits(w).1;
      w := UpdateBits(w).1;
      ret := PsyRetry(Online, 1);
      w := SetDirectCharge(w, false).1;
      ppsTicks := 0;
      active := false;
    }

    method BringUp(vbatUv: nat) returns (contract: Contract)
      modifies this`w
      ensures (contract, w) == Sm5440Spec.BringUp(old(w), maxPpsMa, vbatUv)
    {
      var r := HwInit(w);
      w := r.1;
      if r.0 != 0 {
        return Failed(r.0);
      }
      contract := NegotiatePps(vbatUv);
      if contract.Failed? {
        return;
      }
      r := SelectFrequency(w, contract.ma);
      w := r.1;
      if r.0 != 0 {
        return Failed(r.0);
      }
      contract := ArmChip(contract.ma, contract.mv);
    }

    method ArmChip(ma: int, mv: int) returns (contract: Contract)
      modifies this`w
      ensures (contract, w) == Arm(old(w), ma, mv)
    {
      var r := SetIbusLimit(w, ma);
      w := r.1;
      if r.0 != 0 {
        return Failed(r.0);
      }
      var ret := WaitVbusSettled(mv);
      if ret != 0 {
        return Failed(ret);
      }
      r := UpdateBits(w);
      w := r.1;
      if r.0 != 0 {
        return Failed(r.0);
      }
      ret := PumpOn();
      contract := if ret != 0 then Failed(ret) else Settled(ma, mv);
    }

    method Conclude(contract: Contract) returns (ret: int)
      modifies this
      ensures (ret, View()) == Sm5440Spec.Conclude(old(View()), contract)
    {
      if contract.Failed? {
        RestoreSwitching();
        return contract.code;
      }
      active := true;
      targetMv := contract.mv;
      targetMa := contract.ma;
      ppsTicks := 0;
      return 0;
    }

    method TakeOver(battery: nat) returns (ret: int)
      modifies this
      ensures (ret, View()) == Sm5440Spec.TakeOver(old(View()), battery)
    {
      var r := SetDirectCharge(w, true);
      w := r.1;
      if r.0 != 0 {
        return r.0;
      }
      var contract := BringUp(battery);
      ret := Conclude(contract);
    }

    method Start() returns (ret: int)
      modifies this
      ensures (ret, View()) == Sm5440Spec.Start(old(View()))
      ensures old(Parked(View()) && !active) ==> Parked(View()) && (ret == 0 <==> active)
    {
      var battery := AskNext();
      if battery < 0 {
        return battery;
      }
      ret := TakeOver(battery);
    }

    /** Four seconds after the first failure in a row, never less than before, and five minutes from the fifth on. */
    method Backoff() returns (delay: nat)
      modifies this`fails
      ensures fails == Fails(old(fails)) && delay == BackoffMs(fails)
      ensures RetryMs < delay && BackoffMs(old(fails)) <= delay
      ensures old(fails) >= MaxFails - 1 <==> delay == QuietRetryMs
    {
      if fails <= MaxFails {
        Sm5440Runs.BackoffLadder(fails);
      }
      if fails < MaxFails {
        fails := fails + 1;
      }
      delay := BackoffMs(fails);
    }

    method StopAndBackOff() returns (delay: nat)
      modifies this
      ensures (View(), delay) == Sm5440Spec.StopAndBackOff(old(View()))
    {
      RestoreSwitching();
      delay := Backoff();
    }

    method JudgeReading(healthy: bool) returns (delay: nat)
      modifies this
      ensures (View(), delay) == Judge(old(View()), healthy)
    {
      if !healthy {
        w := LogFaults(w);
        delay := StopAndBackOff();
        return;
      }
      var r := UpdateBits(w);
      w := r.1;
      if r.0 != 0 {
        delay := StopAndBackOff();
        return;
      }
      fails := 0;
      delay := PollMs;
    }

    method Supervise() returns (delay: nat)
      modifies this
      ensures (View(), delay) == Sm5440Spec.Supervise(old(View()))
    {
      var look := Healthy(w);
      w := look.1;
      delay := JudgeReading(look.0);
    }

    method PollIdle() returns (delay: nat)
      modifies this
      ensures (View(), delay) == Sm5440Spec.PollIdle(old(View()))
    {
      var enabled := AskNext();
      if enabled == 0 {
        return RetryMs;
      }
      var eligible := Eligible(w);
      w := eligible.1;
      if !eligible.0 {
        return RetryMs;
      }
      var ret := Start();
      if ret != 0 {
        delay := Backoff();
        return;
      }
      fails := 0;
      delay := PollMs;
    }

    method PollActive() returns (delay: nat)
      modifies this
      ensures (View(), delay) == Sm5440Spec.PollActive(old(View()))
    {
      var enabled := AskNext();
      if enabled == 0 {
        w := LogFaults(w);
        RestoreSwitching();
        return RetryMs;
      }
      delay := PollContract();
    }

    method RefreshAndSupervise() returns (delay: nat)
      modifies this
      ensures (View(), delay) == Sm5440Spec.RefreshAndSupervise(old(View()))
    {
      ppsTicks := 0;
      var ret := RenegotiatePps();
      if ret != 0 {
        w := LogFaults(w);
        delay := StopAndBackOff();
      } else {
        delay := Supervise();
      }
    }

    method CountTick() returns (delay: nat)
      requires ppsTicks + 1 < RefreshTicks
      modifies this
      ensures (View(), delay) == PollEnabled(old(View()))
    {
      ppsTicks := ppsTicks + 1;
      delay := Supervise();
    }

    method PollContract() returns (delay: nat)
      modifies this
      ensures (View(), delay) == PollEnabled(old(View()))
    {
      if ppsTicks + 1 >= RefreshTicks {
        delay := RefreshAndSupervise();
      } else {
        delay := CountTick();
      }
    }

    method Work() returns (delay: nat)
      modifies this
      ensures (View(), delay) == Poll(old(View()))
      ensures old(Parked(View())) ==> Parked(View())
    {
      if active {
        delay := PollActive();
      } else {
        delay := PollIdle();
      }
      pending := !suspending;
    }

    method Park()
      modifies this
      ensures View() == Sm5440Spec.Park(old(View()))
    {
      if active {
        var _ := SetPump(false);
        RestoreSwitching();
      }
    }

    /** PM_SUSPEND_PREPARE; a poll already running is waited for. */
    method OnSuspendPrepare(inFlight: bool)
      modifies this
      ensures View() == SuspendPrepare(old(View()), inFlight)
      ensures old(Parked(View())) ==> Parked(View()) && !active && !pending && suspending
    {
      suspending := true;
      if inFlight && pending {
        var _ := Work();
      }
      pending := false;
      Park();
    }

    method OnPostSuspend()
      modifies this
      ensures View() == PostSuspend(old(View()))
    {
      suspending := false;
      pending := true;
    }
  }
}
