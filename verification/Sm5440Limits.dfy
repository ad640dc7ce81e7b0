/** kernel/files/sm5440_direct.c in numbers: what the source is asked for, between which readings the pump may start and
    go on, and how its polls end. */
module Sm5440Limits {
  import opened Sm5440Spec
  import opened Sm5440Runs

  /** The answer a device gives to the k-th access from now on. */
  function Answer(w: World, k: nat): int
  {
    if k < |w.answers| then w.answers[k] else 0
  }

  /** Every register access and property write reports a negative answer as its failure and anything else as success. */
  lemma AccessesReport(w: World, property: Property, value: int, ma: int)
    ensures Write(w).0 == if Answer(w, 0) < 0 then Answer(w, 0) else 0
    ensures ReadByte(w).0 == if Answer(w, 0) < 0 then Answer(w, 0) else Answer(w, 0) % 256
    ensures SetProperty(w, property, value).0 == if Answer(w, 0) < 0 then Answer(w, 0) else 0
    ensures SelectFrequency(w, ma).0 == 0 <==> Answer(w, 0) >= 0
    ensures SetIbusLimit(w, ma).0 == 0 <==> Answer(w, 0) >= 0
  {
  }

  lemma AnswersAfter(w: World, count: nat, after: World)
    requires after.answers == if count <= |w.answers| then w.answers[count..] else []
    ensures forall k: nat :: Answer(after, k) == Answer(w, count + k)
  {
  }

  /** The pump's switching frequency by the current of the contract. */
  lemma FrequencyByCurrent(ma: int)
    ensures FrequencyFor(ma) == 450 <==> ma <= 1100
    ensures FrequencyFor(ma) == 650 <==> 1100 < ma <= 1700
    ensures FrequencyFor(ma) == 850 <==> ma > 1700
  {
  }

  /** The chip's own limit, up to what its register can hold. */
  lemma LimitByCurrent(ma: int)
    ensures IbusLimitFor(ma) % 50 == 0 && 0 <= IbusLimitFor(ma) <= 6350
    ensures 0 <= ma + 300 <= 6350 ==> ma + 250 < IbusLimitFor(ma) <= ma + 300
    ensures ma + 300 > 6350 ==> IbusLimitFor(ma) == 6350
  {
  }

  // ---------- what the source is asked for ----------

  lemma LastWriteOfSuccess(w: World, property: Property, value: int)
    ensures var (ret, after) := PsyRetry(w, property, value);
      |after.pd| > |w.pd| && after.pd[|after.pd| - 1] == PdWrite(property, value, ret)
  {
    PsyRetryReportsLastAnswer(w, property, value);
  }

  /** The first k answers are "try again", and k is the last attempt or its answer is another. */
  predicate EndsAt(w: World, tries: nat, k: nat)
  {
    k < tries && (forall i :: 0 <= i < k ==> Answer(w, i) == EAgain) && (k + 1 == tries || Answer(w, k) != EAgain)
  }

  function Result(answer: int): int
  {
    if answer < 0 then answer else 0
  }

  lemma {:induction false} RetryExactly(w: World, property: Property, value: int, tries: nat, k: nat)
    requires EndsAt(w, tries, k)
    ensures var (ret, after) := Retry(w, property, value, tries, EAgain);
      ret == Result(Answer(w, k)) && |after.pd| == |w.pd| + k + 1
    decreases tries
  {
    var (ret, w1) := SetProperty(w, property, value);
    AnswersAfter(w, 1, w1);
    if k > 0 {
      assert Answer(w, 0) == EAgain;
      assert EndsAt(w1, tries - 1, k - 1);
      RetryExactly(w1, property, value, tries - 1, k - 1);
    }
  }

  /** A property is written until the answer is not "try again", five times at most; the last answer decides. */
  lemma PsyRetryExactly(w: World, property: Property, value: int, k: nat)
    requires EndsAt(w, 5, k)
    ensures var (ret, after) := PsyRetry(w, property, value);
      && ret == Result(Answer(w, k)) && |after.pd| == |w.pd| + k + 1
      && after.pd[|w.pd| + k] == PdWrite(property, value, ret)
  {
    LastWriteOfSuccess(w, property, value);
    RetryExactly(w, property, value, 5, k);
  }

  lemma {:induction false} WalkDownAsks(w: World, ma: int)
    ensures var (ret, settled, after) := WalkDown(w, ma);
      |after.pd| > |w.pd| && after.pd[|after.pd| - 1] == PdWrite(CurrentNow, 1000 * settled, ret)
    decreases ma - MinPpsMa
  {
    LastWriteOfSuccess(w, CurrentNow, ma * 1000);
    var (ret, w') := PsyRetry(w, CurrentNow, ma * 1000);
    if ret == EInval && ma - PpsStepMa >= MinPpsMa {
      WalkDownAsks(w', ma - PpsStepMa);
    }
  }

  /** The last property writes of a negotiation, in microvolts and microamperes: a contract ends with its voltage
      accepted, and a failure behind the switch to the programmable supply with a request for the fixed one. */
  lemma NegotiationAsks(w: World, maxPpsMa: nat, vbatUv: nat)
    ensures var (contract, after) := NegotiatePps(w, maxPpsMa, vbatUv);
      && |after.pd| > |w.pd|
      && var last := after.pd[|after.pd| - 1];
         match contract
         case Settled(_, mv) => last == PdWrite(VoltageNow, 1000 * mv, 0)
         case Failed(code) =>
           last == PdWrite(Online, 2, code) || (last.property == Online && last.value == 1)
  {
    LastWriteOfSuccess(w, Online, 2);
    var (ret, w1) := PsyRetry(w, Online, 2);
    if ret == 0 {
      var (code, ma, w2) := WalkDown(w1, InitialMa(maxPpsMa));
      if code != 0 {
        LastWriteOfSuccess(w2, Online, 1);
      } else {
        VoltageAsked(w2, ma, PpsTargetMv(ma, vbatUv));
      }
    }
  }

  lemma VoltageAsked(w: World, ma: int, mv: int)
    ensures var (contract, after) := RequestVoltage(w, ma, mv);
      && |after.pd| > |w.pd|
      && var last := after.pd[|after.pd| - 1];
         if contract.Settled? then last == PdWrite(VoltageNow, 1000 * mv, 0)
         else last.property == Online && last.value == 1
  {
    LastWriteOfSuccess(w, VoltageNow, mv * 1000);
    LastWriteOfSuccess(PsyRetry(w, VoltageNow, mv * 1000).1, Online, 1);
  }

  /** What was asked first, and what is remembered. */
  predicate PointSent(w: World, mv: int, targetMv: int, ret: int, remembered: int, after: World)
  {
    && |after.pd| > |w.pd|
    && after.pd[|w.pd|].property == (if Moved(mv, targetMv) then VoltageNow else CurrentNow)
    && (ret == 0 && Moved(mv, targetMv) ==> remembered == mv)
    && (remembered != targetMv ==> remembered == mv && Moved(mv, targetMv))
    && (remembered != mv && Moved(mv, targetMv) ==> after.pd[|after.pd| - 1].property == VoltageNow)
  }

  lemma SendPointExactly(w: World, mv: int, targetMv: int, ma: int)
    ensures var (ret, remembered, after) := SendPoint(w, mv, targetMv, ma);
      PointSent(w, mv, targetMv, ret, remembered, after)
  {
    if Moved(mv, targetMv) {
      FirstWrite(w, VoltageNow, mv * 1000);
      LastWriteOfSuccess(w, VoltageNow, mv * 1000);
    } else {
      FirstWrite(w, CurrentNow, ma * 1000);
    }
  }

  lemma MovedExactly(mv: int, targetMv: int)
    requires mv % 20 == 0 && targetMv % 20 == 0
    ensures Moved(mv, targetMv) <==> mv != targetMv
  {
  }

  /** A refresh requests the voltage first exactly if the operating point for the cell's voltage is another one; it is
      remembered exactly if that was accepted; then comes the current. */
  lemma RefreshExactly(d: Driver)
    requires InRange(d.targetMa, d.targetMv) && Answer(d.w, 0) >= 0
    ensures var mv := PpsTargetMv(d.targetMa, Answer(d.w, 0));
      var (ret, after) := RefreshPps(d);
      && |after.w.pd| > |d.w.pd|
      && after.w.pd[|d.w.pd|].property == (if mv != d.targetMv then VoltageNow else CurrentNow)
      && (ret == 0 ==> after.targetMv == mv)
      && (after.targetMv != mv ==> after.targetMv == d.targetMv && after.w.pd[|after.w.pd| - 1].property == VoltageNow)
  {
    var mv := PpsTargetMv(d.targetMa, Answer(d.w, 0));
    MovedExactly(mv, d.targetMv);
    SendPointExactly(Next(d.w).1, mv, d.targetMv, d.targetMa);
  }

  lemma {:induction false} RetryKeepsFirst(w: World, property: Property, value: int, tries: nat, ret: int)
    ensures w.pd <= Retry(w, property, value, tries, ret).1.pd
    decreases tries
  {
    if tries > 0 && ret == EAgain {
      var (ret', w') := SetProperty(w, property, value);
      RetryKeepsFirst(w', property, value, tries - 1, ret');
    }
  }

  lemma FirstWrite(w: World, property: Property, value: int)
    ensures var after := PsyRetry(w, property, value).1;
      |after.pd| > |w.pd| && after.pd[|w.pd|].property == property && after.pd[|w.pd|].value == value
  {
    var (ret, w1) := SetProperty(w, property, value);
    RetryKeepsFirst(w1, property, value, PdRetries - 1, ret);
  }

  /** A refresh ends with the request for the contract's current, unless the gauge or the new voltage failed. */
  lemma RefreshAsks(d: Driver)
    ensures var (ret, after) := RefreshPps(d);
      && |after.w.pd| >= |d.w.pd|
      && (ret == 0 ==>
            |after.w.pd| > |d.w.pd| && after.w.pd[|after.w.pd| - 1] == PdWrite(CurrentNow, 1000 * d.targetMa, 0))
  {
    var (battery, w) := Next(d.w);
    if battery >= 0 {
      var mv := PpsTargetMv(d.targetMa, battery);
      LastWriteOfSuccess(w, CurrentNow, d.targetMa * 1000);
      LastWriteOfSuccess(PsyRetry(w, VoltageNow, mv * 1000).1, CurrentNow, d.targetMa * 1000);
    }
  }

  // ---------- the limits within which it charges ----------

  /** Direct charging may start between 5 and 90 percent, 10.0 and 42.0 C, 3.5 and 4.35 V, with a source online. */
  lemma EligibleExactly(w: World)
    ensures Eligible(w).0
      <==> && Answer(w, 0) > 0 && 5 <= Answer(w, 1) < 90 && 100 <= Answer(w, 2) < 420
           && 3500000 <= Answer(w, 3) < 4350000
  {
  }

  /** What the converters deliver: 1 mV a count from 4096 mV, half a millivolt a count from 2048 mV, half a degree a
      count from 22.5 C. */
  lemma ReadingsInNumbers(answer: int)
    ensures 0 <= VbusOf(answer) <= 10800 <==> answer >= 0 && answer % 8192 <= 6704
    ensures 0 <= VbatOf(answer) <= 4450 <==> answer >= 0 && answer % 8192 <= 4805
    ensures 0 <= DieTempOf(answer) < 1100 <==> answer >= 0 && answer % 256 < 175
    ensures IbusOf(answer) >= 0 <==> answer >= 0
  {
  }

  lemma RegistersInNumbers(answer: int)
    ensures ByteOf(answer) >= 0 <==> answer >= 0
    ensures answer >= 0 ==> ByteOf(answer) == answer % 256
  {
  }

  /** CHG_ON (bit 2) and VBUSPOK (bit 5) are set, the bus has at most 10.8 V and the cell 4.45 V, and the chip stays
      below 110.0 C. */
  predicate ChipFine(w: World)
  {
    && Answer(w, 2) >= 0 && Answer(w, 2) % 256 / 4 % 2 == 1
    && Answer(w, 3) >= 0 && Answer(w, 3) % 256 / 32 % 2 == 1
    && Answer(w, 4) >= 0 && Answer(w, 4) % 8192 <= 6704 && Answer(w, 5) >= 0
    && Answer(w, 6) >= 0 && Answer(w, 6) % 8192 <= 4805 && Answer(w, 7) >= 0 && Answer(w, 7) % 256 < 175
  }

  /** It goes on exactly below 90 percent and 45.0 C with the chip fine. */
  lemma HealthyExactly(w: World)
    ensures Healthy(w).0
      <==> 0 <= Answer(w, 0) < 90 && 0 <= Answer(w, 1) < 450 && ChipFine(w)
  {
    var x := Ask(w, 8).0;
    assert forall i :: 0 <= i < 8 ==> x[i] == Answer(w, i);
    FineInNumbers(x[0], x[1], x[2], x[3], x[4], x[5], x[6], x[7]);
  }

  lemma FineInNumbers(capacity: int, temp: int, mode: int, status: int, vbus: int, ibus: int, vbat: int, die: int)
    ensures Fine(capacity, temp, ByteOf(mode), ByteOf(status), VbusOf(vbus), IbusOf(ibus), VbatOf(vbat), DieTempOf(die))
      <==> && 0 <= capacity < 90 && 0 <= temp < 450
           && mode >= 0 && mode % 256 / 4 % 2 == 1 && status >= 0 && status % 256 / 32 % 2 == 1
           && vbus >= 0 && vbus % 8192 <= 6704 && ibus >= 0 && vbat >= 0 && vbat % 8192 <= 4805
           && die >= 0 && die % 256 < 175
  {
    RegistersInNumbers(mode);
    RegistersInNumbers(status);
    ReadingsInNumbers(vbus);
    ReadingsInNumbers(ibus);
    ReadingsInNumbers(vbat);
    ReadingsInNumbers(die);
  }

  /** What may start is not stopped at once for its charge or its temperature. */
  lemma NoImmediateStop(w: World, later: World)
    requires Eligible(w).0 && Answer(later, 0) == Answer(w, 1) && Answer(later, 1) == Answer(w, 2)
    ensures Healthy(later).0 <==> ChipFine(later)
  {
    EligibleExactly(w);
    HealthyExactly(later);
  }

  // ---------- how the polls and the register sequences end ----------

  lemma UpdateBitsExactly(w: World)
    ensures UpdateBits(w).0 == 0 <==> Answer(w, 0) >= 0 && Answer(w, 1) >= 0
  {
  }

  lemma AnswerAfter(w: World, count: nat, k: nat)
    ensures Answer(Ask(w, count).1, k) == Answer(w, count + k)
  {
  }

  lemma JudgeKeepsExactly(d: Driver, healthy: bool)
    requires d.active
    ensures Judge(d, healthy).0.active <==> healthy && UpdateBits(d.w).0 == 0
  {
  }

  /** An active driver stays active over a supervision exactly if all is well and the watchdog register can be read and
      written. */
  lemma SuperviseKeepsExactly(d: Driver)
    requires d.active
    ensures Supervise(d).0.active <==> Healthy(d.w).0 && Answer(d.w, 8) >= 0 && Answer(d.w, 9) >= 0
  {
    var w := Healthy(d.w).1;
    JudgeKeepsExactly(d.(w := w), Healthy(d.w).0);
    UpdateBitsExactly(w);
    AnswerAfter(d.w, 8, 0);
    AnswerAfter(d.w, 8, 1);
  }

  /** VBUSPOK was seen at one of the polls, and every read before it worked. */
  predicate PowerSeen(w: World, polls: nat)
  {
    exists k :: 0 <= k < polls && PowerAt(w, k)
  }

  predicate PowerAt(w: World, k: nat)
  {
    Answer(w, k) >= 0 && Answer(w, k) % 256 / 32 % 2 == 1 && forall i :: 0 <= i < k ==> Answer(w, i) >= 0
  }

  lemma AnswersShift(w: World, k: nat)
    ensures Answer(Next(w).1, k) == Answer(w, k + 1)
    ensures (forall i :: 0 <= i < k + 1 ==> Answer(w, i) >= 0)
      <==> Answer(w, 0) >= 0 && forall i :: 0 <= i < k ==> Answer(Next(w).1, i) >= 0
  {
    var w1 := Next(w).1;
    assert forall i: nat :: Answer(w1, i) == Answer(w, i + 1);
    if forall i :: 0 <= i < k ==> Answer(w1, i) >= 0 {
      forall i | 0 < i < k + 1 ensures Answer(w, i) >= 0 {
        assert Answer(w1, i - 1) >= 0;
      }
    }
  }

  lemma PowerShifts(w: World, k: nat)
    ensures PowerAt(w, k + 1) <==> Answer(w, 0) >= 0 && PowerAt(Next(w).1, k)
  {
    AnswersShift(w, k);
  }

  lemma {:induction false} WaitPowerExactly(w: World, polls: nat)
    ensures WaitPower(w, polls).0 == 0 <==> PowerSeen(w, polls)
    decreases polls
  {
    if polls > 0 {
      var w1 := Next(w).1;
      WaitPowerExactly(w1, polls - 1);
      if k :| 0 <= k < polls && PowerAt(w, k) {
        if k > 0 {
          PowerShifts(w, k - 1);
        }
      }
      if k :| 0 <= k < polls - 1 && PowerAt(w1, k) {
        PowerShifts(w, k);
      }
      PowerFirst(w, polls);
    }
  }

  lemma PowerFirst(w: World, polls: nat)
    requires polls > 0
    ensures PowerAt(w, 0) ==> PowerSeen(w, polls) && WaitPower(w, polls).0 == 0
    ensures !PowerAt(w, 0) ==> WaitPower(w, polls).0 == if Answer(w, 0) < 0 then Answer(w, 0) else WaitPower(Next(w).1, polls - 1).0
  {
  }

  /** The pump is on exactly if CNTL5 could be read and written and one of five reads shows VBUSPOK. */
  lemma PumpOnExactly(w: World)
    ensures PumpOn(w).0 == 0 <==> Answer(w, 0) >= 0 && Answer(w, 1) >= 0 && PowerSeen(UpdateBits(w).1, 5)
  {
    UpdateBitsExactly(w);
    var (ret, after) := SetPump(w, true);
    if ret == 0 {
      WaitPowerExactly(after, 5);
      assert forall i: nat :: Answer(after, i) == Answer(UpdateBits(w).1, i);
      assert forall k: nat :: PowerAt(after, k) <==> PowerAt(UpdateBits(w).1, k);
    }
  }

  predicate SettledAt(w: World, mv: int, k: nat)
  {
    && Answer(w, k) >= 0 && 4096 + Answer(w, k) % 8192 >= mv - 500 && forall i :: 0 <= i < k ==> Answer(w, i) >= 0
  }

  lemma SettledShifts(w: World, mv: int, k: nat)
    ensures SettledAt(w, mv, k + 1) <==> Answer(w, 0) >= 0 && SettledAt(Next(w).1, mv, k)
  {
    AnswersShift(w, k);
  }

  predicate Settles(w: World, mv: int, polls: nat)
  {
    exists k :: 0 <= k < polls && SettledAt(w, mv, k)
  }

  lemma SettledFirst(w: World, mv: int, polls: nat)
    requires polls > 0
    ensures SettledAt(w, mv, 0) ==> Settles(w, mv, polls) && WaitVbusSettled(w, mv, polls).0 == 0
    ensures !SettledAt(w, mv, 0) ==>
      WaitVbusSettled(w, mv, polls).0
      == if Answer(w, 0) < 0 then Answer(w, 0) else WaitVbusSettled(Next(w).1, mv, polls - 1).0
  {
  }

  /** The bus counts as settled exactly if one of the readings comes within 500 mV below the target before a reading
      fails. */
  lemma {:induction false} SettledExactly(w: World, mv: int, polls: nat)
    ensures WaitVbusSettled(w, mv, polls).0 == 0 <==> Settles(w, mv, polls)
    decreases polls
  {
    if polls > 0 {
      var w1 := Next(w).1;
      SettledExactly(w1, mv, polls - 1);
      if k :| 0 <= k < polls && SettledAt(w, mv, k) {
        if k > 0 {
          SettledShifts(w, mv, k - 1);
        }
      }
      if k :| 0 <= k < polls - 1 && SettledAt(w1, mv, k) {
        SettledShifts(w, mv, k);
      }
      SettledFirst(w, mv, polls);
    }
  }

  predicate AllAnswered(w: World, count: nat)
  {
    forall i :: 0 <= i < count ==> Answer(w, i) >= 0
  }

  lemma AllAnsweredShift(w: World, w1: World, count: nat)
    requires count > 0 && forall k: nat :: Answer(w1, k) == Answer(w, 1 + k)
    ensures AllAnswered(w, count) <==> Answer(w, 0) >= 0 && AllAnswered(w1, count - 1)
  {
    if AllAnswered(w1, count - 1) {
      forall i | 0 < i < count ensures Answer(w, i) == Answer(w1, i - 1) {
      }
    }
  }

  lemma {:induction false} WriteManyExactly(w: World, count: nat)
    ensures WriteMany(w, count).0 == 0 <==> AllAnswered(w, count)
    ensures AllAnswered(w, count) ==>
      WriteMany(w, count).1.answers == if count <= |w.answers| then w.answers[count..] else []
    decreases count
  {
    if count > 0 {
      var w1 := Write(w).1;
      AnswersAfter(w, 1, w1);
      AllAnsweredShift(w, w1, count);
      WriteManyExactly(w1, count - 1);
    }
  }

  lemma {:induction false} ReadManyExactly(w: World, count: nat)
    ensures ReadMany(w, count).0 == 0 <==> AllAnswered(w, count)
    decreases count
  {
    if count > 0 {
      var w1 := ReadByte(w).1;
      AnswersAfter(w, 1, w1);
      AllAnsweredShift(w, w1, count);
      ReadManyExactly(w1, count - 1);
    }
  }

  /** The reset bit was read as clear at the k-th poll, set at every poll before. */
  predicate ResetAt(w: World, k: nat)
  {
    && Answer(w, k) >= 0 && Answer(w, k) % 256 % 2 == 0
    && forall i :: 0 <= i < k ==> Answer(w, i) >= 0 && Answer(w, i) % 256 % 2 == 1
  }

  lemma ResetShifts(w: World, w1: World, k: nat)
    requires forall i: nat :: Answer(w1, i) == Answer(w, 1 + i)
    ensures ResetAt(w, k + 1) <==> Answer(w, 0) >= 0 && Answer(w, 0) % 256 % 2 == 1 && ResetAt(w1, k)
  {
    if ResetAt(w1, k) {
      forall i | 0 < i < k + 1 ensures Answer(w, i) == Answer(w1, i - 1) {
      }
    }
    if ResetAt(w, k + 1) {
      forall i | 0 <= i < k ensures Answer(w1, i) == Answer(w, i + 1) {
      }
    }
  }

  lemma {:induction false} AwaitResetExactly(w: World, polls: nat, k: nat)
    requires ResetAt(w, k)
    ensures AwaitReset(w, polls).0 == 0 <==> k < polls
    ensures k < polls ==>
      AwaitReset(w, polls).1.answers == if k + 1 <= |w.answers| then w.answers[k + 1..] else []
    decreases polls
  {
    if polls > 0 && k > 0 {
      var w1 := ReadByte(w).1;
      AnswersAfter(w, 1, w1);
      ResetShifts(w, w1, k - 1);
      assert Answer(w, 0) % 256 % 2 == 1;
      AwaitResetExactly(w1, polls - 1, k - 1);
    }
  }

  /** `count` accesses from the one at `from` on work. */
  predicate AnsweredFrom(w: World, from: nat, count: nat)
  {
    forall i :: from <= i < from + count ==> Answer(w, i) >= 0
  }

  lemma AnsweredLater(w: World, later: World, from: nat, count: nat)
    requires forall i: nat :: Answer(later, i) == Answer(w, from + i)
    ensures AllAnswered(later, count) <==> AnsweredFrom(w, from, count)
  {
    if AllAnswered(later, count) {
      forall i | from <= i < from + count ensures Answer(w, i) >= 0 {
        assert Answer(later, i - from) == Answer(w, from + (i - from));
      }
    }
    if AnsweredFrom(w, from, count) {
      forall i | 0 <= i < count ensures Answer(later, i) >= 0 {
        assert Answer(later, i) == Answer(w, from + i);
      }
    }
  }

  lemma AnsweredSplit(w: World, from: nat, a: nat, b: nat)
    ensures AnsweredFrom(w, from, a + b) <==> AnsweredFrom(w, from, a) && AnsweredFrom(w, from + a, b)
  {
  }

  /** Behind the reset come thirteen register writes and four reads. */
  lemma SetUpExactly(w: World)
    ensures var (ret, w1) := WriteMany(w, 13);
      ret == 0 && ReadMany(w1, 4).0 == 0 <==> AnsweredFrom(w, 0, 17)
  {
    var (ret, w1) := WriteMany(w, 13);
    WriteManyExactly(w, 13);
    AnsweredLater(w, w, 0, 13);
    AnsweredSplit(w, 0, 13, 4);
    if ret == 0 {
      AnswersAfter(w, 13, w1);
      ReadManyExactly(w1, 4);
      AnsweredLater(w, w1, 13, 4);
    }
  }

  lemma AnsweredShifts(w: World, later: World, from: nat, count: nat)
    requires forall i: nat :: Answer(later, i) == Answer(w, from + i)
    ensures AnsweredFrom(later, 0, count) <==> AnsweredFrom(w, from, count)
  {
    AnsweredLater(later, later, 0, count);
    AnsweredLater(w, later, from, count);
  }

  /** The chip is set up exactly if its reset is written, seen to end within 255 polls, and followed by thirteen register
      writes and four reads that work. */
  lemma HwInitExactly(w: World, k: nat)
    requires Answer(w, 0) >= 0 && ResetAt(Write(w).1, k)
    ensures HwInit(w).0 == 0 <==> k < 255 && AnsweredFrom(Write(w).1, k + 1, 17)
  {
    var w1 := Write(w).1;
    AwaitResetExactly(w1, 255, k);
    if k < 255 {
      var w2 := AwaitReset(w1, 255).1;
      AnswersAfter(w1, k + 1, w2);
      AnsweredShifts(w1, w2, k + 1, 17);
      SetUpExactly(w2);
    }
  }

  // ---------- no step is passed over ----------

  /** A refresh of the contract works exactly if the pump stops, the source takes the new operating point, the bus
      settles on it and the pump starts again. */
  lemma RenegotiationExactly(d: Driver)
    ensures var (stopped, w1) := SetPump(d.w, false);
      var (refreshed, d1) := RefreshPps(d.(w := w1));
      var (settled, w2) := WaitVbusSettled(d1.w, d1.targetMv, 30);
      RenegotiatePps(d).0 == 0 <==> stopped == 0 && refreshed == 0 && settled == 0 && PumpOn(w2).0 == 0
  {
  }

  /** A contract is put to work exactly if the limit is written, the bus settles, the watchdog is enabled and the pump
      starts. */
  lemma ArmExactly(w: World, ma: int, mv: int)
    ensures var w1 := SetIbusLimit(w, ma).1;
      var (settled, w2) := WaitVbusSettled(w1, mv, 30);
      var (guarded, w3) := UpdateBits(w2);
      Arm(w, ma, mv).0.Settled?
      <==> Answer(w, 0) >= 0 && settled == 0 && guarded == 0 && PumpOn(w3).0 == 0
  {
  }

  /** It is negotiated only behind a chip that was set up, and put to work only with the frequency written. */
  lemma BringUpExactly(w: World, maxPpsMa: nat, vbatUv: nat)
    ensures var (ready, w1) := HwInit(w);
      var (contract, w2) := NegotiatePps(w1, maxPpsMa, vbatUv);
      BringUp(w, maxPpsMa, vbatUv).0.Settled?
      <==> && ready == 0 && contract.Settled? && Answer(w2, 0) >= 0
           && Arm(SelectFrequency(w2, contract.ma).1, contract.ma, contract.mv).0.Settled?
  {
  }

  /** Switching back ends with a request for the fixed contract. */
  lemma RestoreAsks(d: Driver)
    ensures var after := RestoreSwitching(d).w;
      |after.pd| > |d.w.pd| && after.pd[|after.pd| - 1].property == Online && after.pd[|after.pd| - 1].value == 1
  {
    var (ret, w) := SetPump(d.w, false);
    LastWriteOfSuccess(UpdateBits(UpdateBits(NoteClear(d.w, ret, w)).1).1, Online, 1);
    RestoreAccesses(d);
  }

  lemma RestoreAccesses(d: Driver)
    ensures var (ret, w) := SetPump(d.w, false);
      RestoreSwitching(d).w.pd == PsyRetry(UpdateBits(UpdateBits(NoteClear(d.w, ret, w)).1).1, Online, 1).1.pd
    ensures |RestoreSwitching(d).w.pd| > |d.w.pd|
  {
  }

  /** Every fourth poll of a new contract refreshes it. */
  lemma RefreshEveryFourth(d: Driver, contract: Contract)
    ensures contract.Settled? ==> Conclude(d, contract).1.ppsTicks == 0
    ensures d.active && PollEnabled(d).0.active ==>
      PollEnabled(d).0.ppsTicks == if d.ppsTicks >= 3 then 0 else d.ppsTicks + 1
  {
  }

  /** An idle poll starts direct charging exactly if the switch is on, the battery is eligible and the start works; and
      an active one ends it at once when the switch is off. */
  lemma SwitchDecides(d: Driver)
    requires Parked(d)
    ensures !d.active ==>
      var w1 := Next(d.w).1;
      var (eligible, w2) := Eligible(w1);
      PollIdle(d).0.active <==> Answer(d.w, 0) != 0 && eligible && Start(d.(w := w2)).0 == 0
    ensures d.active && Answer(d.w, 0) == 0 ==>
      !PollActive(d).0.active && PollActive(d).1 == 2000 && !PollActive(d).0.w.direct
  {
  }

  /** Failures in a row are counted up to five, and forgotten by a supervision that works, which is followed by the next
      poll in a second. */
  lemma FailuresCounted(d: Driver)
    requires d.active
    ensures var (after, delay) := Supervise(d);
      if after.active then after.fails == 0 && delay == 1000
      else after.fails == (if d.fails < 5 then d.fails + 1 else d.fails) && delay == BackoffMs(after.fails)
  {
    JudgeCounts(d.(w := Healthy(d.w).1), Healthy(d.w).0);
  }

  lemma JudgeCounts(d: Driver, healthy: bool)
    requires d.active
    ensures var (after, delay) := Judge(d, healthy);
      if after.active then after.fails == 0 && delay == 1000
      else after.fails == (if d.fails < 5 then d.fails + 1 else d.fails) && delay == BackoffMs(after.fails)
  {
  }

  /** A start that works forgets them too; without one the next poll comes in two seconds, or as the failures ask. */
  lemma StartForgets(d: Driver)
    requires Parked(d) && !d.active
    ensures var (after, delay) := PollIdle(d);
      && (after.active ==> after.fails == 0 && delay == 1000)
      && (!after.active ==> delay == 2000 || delay == BackoffMs(after.fails))
      && (!after.active && after.fails == d.fails < 5 ==> delay == 2000)
  {
  }
}
