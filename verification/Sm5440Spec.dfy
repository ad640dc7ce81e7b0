/** kernel/files/sm5440_direct.c: the direct-charge pump. Every access to the chip, the battery gauge and
    TCPM consumes the next answer of the environment; answers are arbitrary, so every mixture of values
    and failures is covered. What the driver has commanded is recorded beside it. */
module Sm5440Spec {
  const EAgain := -11
  const EInval := -22
  const ENoLink := -67
  const ETimedOut := -110

  const MinPpsMa := 1800
  const PpsCapMa := 5000
  const PpsStepMa := 250
  const PpsVStepMv := 20
  const MaxPpsMv := 10500
  const MinPpsMv := 8200
  const PdRetries := 5
  const RefreshTicks := 4
  const MaxFails := 5
  const PollMs := 1000
  const RetryMs := 2000
  const MaxRetryMs := 30000
  const QuietRetryMs := 300000

  datatype Property = Online | CurrentNow | VoltageNow

  datatype PdWrite = PdWrite(property: Property, value: int, result: int)

  /** answers: what the devices will reply, in order, and success from then on. pumpOn: CHG_ON as last
      written. direct: the battery path is handed to the pump. ibusLimitMa, frequencyKhz: as last written.
      History: pd, every property write TCPM was sent; wroteWhileOn, one of them was sent while CHG_ON was
      commanded; clearFailed, restore_switching could not clear CHG_ON while it was commanded. */
  datatype World = World(answers: seq<int>, pumpOn: bool, direct: bool, ibusLimitMa: int, frequencyKhz: int,
                         pd: seq<PdWrite>, wroteWhileOn: bool, clearFailed: bool)

  /** The driver's own fields; pending: the poll work is scheduled. */
  datatype Driver = Driver(active: bool, suspending: bool, pending: bool, fails: nat, ppsTicks: nat,
                           targetMv: int, targetMa: int, maxPpsMa: nat, w: World)

  // ---------- device accesses ----------

  /** Nothing but answers is consumed, and PD writes are marked if the pump is on. */
  predicate Quiet(w: World, after: World)
  {
    && after.pumpOn == w.pumpOn && after.direct == w.direct && after.clearFailed == w.clearFailed
    && after.ibusLimitMa == w.ibusLimitMa && after.frequencyKhz == w.frequencyKhz
    && w.pd <= after.pd
    && (after.wroteWhileOn <==> w.wroteWhileOn || (w.pumpOn && |w.pd| < |after.pd|))
  }

  function Next(w: World): (r: (int, World))
    ensures Quiet(w, r.1) && r.1.pd == w.pd
  {
    if w.answers == [] then (0, w) else (w.answers[0], w.(answers := w.answers[1..]))
  }

  function ReadByte(w: World): (r: (int, World))
    ensures Quiet(w, r.1) && r.1.pd == w.pd && r.0 < 0x100
  {
    var (a, w) := Next(w);
    (if a < 0 then a else a % 0x100, w)
  }

  function Write(w: World): (r: (int, World))
    ensures Quiet(w, r.1) && r.1.pd == w.pd && r.0 <= 0
  {
    var (a, w) := Next(w);
    (if a < 0 then a else 0, w)
  }

  /** Read, then write back with some bits changed. */
  function UpdateBits(w: World): (r: (int, World))
    ensures Quiet(w, r.1) && r.1.pd == w.pd && r.0 <= 0
  {
    var (byte, w) := ReadByte(w);
    if byte < 0 then (byte, w) else Write(w)
  }

  /** The operation-mode bits of CNTL5. */
  function SetPump(w: World, on: bool): (r: (int, World))
    ensures r.0 <= 0
    ensures r.0 == 0 ==> r.1.pumpOn == on && Quiet(w.(pumpOn := on), r.1)
    ensures r.0 != 0 ==> Quiet(w, r.1)
    ensures r.1.pd == w.pd && r.1.wroteWhileOn == w.wroteWhileOn
  {
    var (ret, w) := UpdateBits(w);
    if ret == 0 then (0, w.(pumpOn := on)) else (ret, w)
  }

  function SetProperty(w: World, property: Property, value: int): (r: (int, World))
    ensures Quiet(w, r.1) && |r.1.pd| == |w.pd| + 1
    ensures r.1.pd == w.pd + [PdWrite(property, value, r.0)]
  {
    var (a, w) := Next(w);
    var ret := if a < 0 then a else 0;
    (ret, w.(pd := w.pd + [PdWrite(property, value, ret)], wroteWhileOn := w.wroteWhileOn || w.pumpOn))
  }

  /** At most `tries` more attempts, as long as the answer is "try again". */
  function Retry(w: World, property: Property, value: int, tries: nat, ret: int): (r: (int, World))
    ensures Quiet(w, r.1) && |r.1.pd| <= |w.pd| + tries
    decreases tries
  {
    if tries == 0 || ret != EAgain then (ret, w)
    else
      var (ret, w) := SetProperty(w, property, value);
      Retry(w, property, value, tries - 1, ret)
  }

  function PsyRetry(w: World, property: Property, value: int): (r: (int, World))
    ensures Quiet(w, r.1) && |w.pd| < |r.1.pd| <= |w.pd| + PdRetries
  {
    var (ret, w) := SetProperty(w, property, value);
    Retry(w, property, value, PdRetries - 1, ret)
  }

  /** The next `count` answers at once. */
  function Ask(w: World, count: nat): (r: (seq<int>, World))
    ensures Quiet(w, r.1) && r.1.pd == w.pd && |r.0| == count
  {
    (seq(count, i requires i >= 0 => if i < |w.answers| then w.answers[i] else 0),
     w.(answers := if count <= |w.answers| then w.answers[count..] else []))
  }

  function ByteOf(answer: int): int
  {
    if answer < 0 then answer else answer % 0x100
  }

  /** The two registers of a 13-bit converter; an error of either read is the answer. */
  function AdcOf(answer: int): int
  {
    if answer < 0 then answer else answer % 0x2000
  }

  function VbusOf(answer: int): int
  {
    if answer < 0 then answer else 4096 + AdcOf(answer)
  }

  function IbusOf(answer: int): int
  {
    if answer < 0 then answer else AdcOf(answer) * 625 / 1000
  }

  function VbatOf(answer: int): int
  {
    if answer < 0 then answer else 2048 + AdcOf(answer) * 500 / 1000
  }

  function DieTempOf(answer: int): int
  {
    if answer < 0 then answer else 225 + ByteOf(answer) * 5
  }

  // ---------- the operating point ----------

  function DivRoundUp(n: int, d: int): int
    requires d > 0
  {
    (n + d - 1) / d
  }

  function Clamp(x: int, low: int, high: int): (r: int)
    requires low <= high
    ensures low <= r <= high && (low <= x <= high ==> r == x)
  {
    if x < low then low else if x > high then high else x
  }

  function HeadroomMv(ma: int): int
  {
    DivRoundUp(ma * 320, 1000) + 200
  }

  function PpsTargetMv(ma: int, vbatUv: nat): (mv: int)
    ensures 8200 <= mv <= 10500 && mv % 20 == 0
  {
    Clamp(DivRoundUp(vbatUv / 1000 * 2 + HeadroomMv(ma), PpsVStepMv) * PpsVStepMv, MinPpsMv, MaxPpsMv)
  }

  /** The operating point is a whole number of PPS steps and, unless the ceiling cuts it, carries twice the
      cell voltage plus the cable drop; between the bounds it is the smallest such point. */
  lemma TargetCarriesHeadroom(ma: int, vbatUv: nat)
    ensures var need := vbatUv / 1000 * 2 + HeadroomMv(ma); var mv := PpsTargetMv(ma, vbatUv);
      && mv % PpsVStepMv == 0 && MinPpsMv <= mv <= MaxPpsMv
      && (mv < MaxPpsMv ==> mv >= need)
      && (MinPpsMv < mv ==> mv < need + PpsVStepMv)
  {
  }

  /** The same in numbers: 320 mOhm of cable and connector and 200 mV of margin on top of twice the cell voltage in whole
      millivolts, unless the ceiling of 10.5 V cuts it; and no smaller step of 20 mV from 8.2 V on would do. */
  lemma OperatingPointInNumbers(ma: int, vbatUv: nat, lower: int)
    ensures var mv := PpsTargetMv(ma, vbatUv);
      && mv % 20 == 0 && 8200 <= mv <= 10500
      && (mv < 10500 ==> 1000 * (mv - 2 * (vbatUv / 1000) - 200) >= 320 * ma)
      && (8200 <= lower < mv && lower % 20 == 0 ==> 1000 * (lower - 2 * (vbatUv / 1000) - 200) < 320 * ma)
  {
  }

  function InitialMa(maxPpsMa: nat): (ma: int)
    ensures 1800 <= ma <= 5000 && (1800 <= maxPpsMa <= 5000 ==> ma == maxPpsMa)
    ensures maxPpsMa < 1800 ==> ma == 1800
    ensures maxPpsMa > 5000 ==> ma == 5000
  {
    Clamp(maxPpsMa, MinPpsMa, PpsCapMa)
  }

  /** A contract the pump can run on. */
  predicate InRange(ma: int, mv: int)
  {
    1800 <= ma <= 5000 && 8200 <= mv <= 10500 && mv % 20 == 0
  }

  /** The walk down from the board's budget: the first current that is not refused with -EINVAL. */
  function WalkDown(w: World, ma: int): (r: (int, int, World))
    ensures Quiet(w, r.2)
    ensures r.1 <= ma && (ma >= MinPpsMa ==> r.1 >= MinPpsMa)
    decreases ma - MinPpsMa
  {
    var (ret, w) := PsyRetry(w, CurrentNow, ma * 1000);
    if ret == EInval && ma - PpsStepMa >= MinPpsMa then WalkDown(w, ma - PpsStepMa)
    else (ret, ma, w)
  }

  datatype Contract = Failed(code: int) | Settled(ma: int, mv: int)

  /** Back to the fixed contract after a failed negotiation. */
  function GiveUp(w: World, code: int): (r: (Contract, World))
    requires code != 0
    ensures Quiet(w, r.1) && r.0 == Failed(code)
  {
    (Failed(code), PsyRetry(w, Online, 1).1)
  }

  function RequestVoltage(w: World, ma: int, mv: int): (r: (Contract, World))
    ensures Quiet(w, r.1)
    ensures r.0 == Settled(ma, mv) || (r.0.Failed? && r.0.code != 0)
  {
    var (ret, w) := PsyRetry(w, VoltageNow, mv * 1000);
    if ret != 0 then GiveUp(w, ret) else (Settled(ma, mv), w)
  }

  function NegotiatePps(w: World, maxPpsMa: nat, vbatUv: nat): (r: (Contract, World))
    ensures Quiet(w, r.1)
    ensures r.0.Settled? ==> InRange(r.0.ma, r.0.mv)
    ensures r.0.Failed? ==> r.0.code != 0
  {
    var (ret, w) := PsyRetry(w, Online, 2);
    if ret != 0 then (Failed(ret), w)
    else
      var (ret, ma, w) := WalkDown(w, InitialMa(maxPpsMa));
      if ret != 0 then GiveUp(w, ret) else RequestVoltage(w, ma, PpsTargetMv(ma, vbatUv))
  }

  // ---------- the pump ----------

  /** At most `polls` looks at VBUSPOK. */
  function WaitPower(w: World, polls: nat): (r: (int, World))
    ensures Quiet(w, r.1) && r.1.pd == w.pd && r.0 <= 0
    decreases polls
  {
    if polls == 0 then (ENoLink, w)
    else
      var (status, w) := ReadByte(w);
      if status < 0 then (status, w) else if status / 32 % 2 == 1 then (0, w) else WaitPower(w, polls - 1)
  }

  function PumpOn(w: World): (r: (int, World))
    ensures r.0 == 0 ==> r.1.pumpOn
    ensures r.1.pd == w.pd && r.1.wroteWhileOn == w.wroteWhileOn
    ensures r.1.direct == w.direct && r.1.clearFailed == w.clearFailed
    ensures r.1.ibusLimitMa == w.ibusLimitMa && r.1.frequencyKhz == w.frequencyKhz
  {
    var (ret, w) := SetPump(w, true);
    if ret != 0 then (ret, w) else WaitPower(w, 5)
  }

  function WaitVbusSettled(w: World, targetMv: int, polls: nat): (r: (int, World))
    ensures Quiet(w, r.1) && r.1.pd == w.pd && r.0 <= 0
    decreases polls
  {
    if polls == 0 then (ETimedOut, w)
    else
      var (answer, w) := Next(w);
      if answer < 0 then (answer, w)
      else if VbusOf(answer) >= targetMv - 500 then (0, w)
      else WaitVbusSettled(w, targetMv, polls - 1)
  }

  /** `count` register writes, up to the first that fails. */
  function WriteMany(w: World, count: nat): (r: (int, World))
    ensures Quiet(w, r.1) && r.1.pd == w.pd && r.0 <= 0
    decreases count
  {
    if count == 0 then (0, w)
    else
      var (ret, w) := Write(w);
      if ret != 0 then (ret, w) else WriteMany(w, count - 1)
  }

  function ReadMany(w: World, count: nat): (r: (int, World))
    ensures Quiet(w, r.1) && r.1.pd == w.pd && r.0 <= 0
    decreases count
  {
    if count == 0 then (0, w)
    else
      var (ret, w) := ReadByte(w);
      if ret < 0 then (ret, w) else ReadMany(w, count - 1)
  }

  function AwaitReset(w: World, polls: nat): (r: (int, World))
    ensures Quiet(w, r.1) && r.1.pd == w.pd && r.0 <= 0
    decreases polls
  {
    if polls == 0 then (ETimedOut, w)
    else
      var (reg, w) := ReadByte(w);
      if reg < 0 then (reg, w) else if reg % 2 == 0 then (0, w) else AwaitReset(w, polls - 1)
  }

  /** The reset, fourteen register writes, and the four interrupt latches. */
  function HwInit(w: World): (r: (int, World))
    ensures Quiet(w, r.1) && r.1.pd == w.pd && r.0 <= 0
  {
    var (ret, w) := Write(w);
    if ret != 0 then (ret, w)
    else
      var (ret, w) := AwaitReset(w, 255);
      if ret != 0 then (ret, w)
      else
        var (ret, w) := WriteMany(w, 13);
        if ret != 0 then (ret, w) else ReadMany(w, 4)
  }

  function FrequencyFor(ma: int): int
  {
    if ma <= 1100 then 450 else if ma <= 1700 then 650 else 850
  }

  function SelectFrequency(w: World, ma: int): (r: (int, World))
    ensures r.0 == 0 ==> Quiet(w.(frequencyKhz := FrequencyFor(ma)), r.1)
    ensures r.0 != 0 ==> Quiet(w, r.1)
    ensures r.1.pd == w.pd && r.0 <= 0
  {
    var (ret, w) := Write(w);
    if ret == 0 then (0, w.(frequencyKhz := (FrequencyFor(ma) - 250) / 50 * 50 + 250)) else (ret, w)
  }

  function IbusLimitFor(ma: int): int
  {
    Clamp(ma + 300, 0, 6350) / 50 * 50
  }

  function SetIbusLimit(w: World, ma: int): (r: (int, World))
    ensures r.0 == 0 ==> Quiet(w.(ibusLimitMa := IbusLimitFor(ma)), r.1)
    ensures r.0 != 0 ==> Quiet(w, r.1)
    ensures r.1.pd == w.pd && r.0 <= 0
  {
    var (ret, w) := Write(w);
    if ret == 0 then (0, w.(ibusLimitMa := IbusLimitFor(ma))) else (ret, w)
  }

  /** The charger driver's side is the flag it sets; taking the battery may be refused, giving it back is not. */
  function SetDirectCharge(w: World, on: bool): (r: (int, World))
    ensures Quiet(w.(direct := r.1.direct), r.1) && r.1.pd == w.pd && r.1.pumpOn == w.pumpOn
    ensures r.1.direct == if on && r.0 != 0 then w.direct else on
  {
    var (a, w) := Next(w);
    (a, if on && a != 0 then w else w.(direct := on))
  }

  // ---------- the driver ----------

  predicate Moved(mv: int, targetMv: int)
  {
    mv - targetMv >= PpsVStepMv || targetMv - mv >= PpsVStepMv
  }

  /** The voltage only when the operating point moved by a step, the current every time. */
  function SendPoint(w: World, mv: int, targetMv: int, ma: int): (r: (int, int, World))
    ensures Quiet(w, r.2)
    ensures r.1 == targetMv || r.1 == mv
  {
    if Moved(mv, targetMv) then
      var (ret, w) := PsyRetry(w, VoltageNow, mv * 1000);
      if ret != 0 then (ret, targetMv, w)
      else
        var (ret, w) := PsyRetry(w, CurrentNow, ma * 1000);
        (ret, mv, w)
    else
      var (ret, w) := PsyRetry(w, CurrentNow, ma * 1000);
      (ret, targetMv, w)
  }

  function RefreshPps(d: Driver): (r: (int, Driver))
    ensures Quiet(d.w, r.1.w)
    ensures InRange(d.targetMa, d.targetMv) ==> InRange(r.1.targetMa, r.1.targetMv)
    ensures r.1 == d.(targetMv := r.1.targetMv, w := r.1.w)
  {
    var (battery, w) := Next(d.w);
    if battery < 0 then (battery, d.(w := w))
    else
      var (ret, mv, w) := SendPoint(w, PpsTargetMv(d.targetMa, battery), d.targetMv, d.targetMa);
      (ret, d.(targetMv := mv, w := w))
  }

  function RenegotiatePps(d: Driver): (r: (int, Driver))
    ensures InRange(d.targetMa, d.targetMv) ==> InRange(r.1.targetMa, r.1.targetMv)
    ensures r.1 == d.(targetMv := r.1.targetMv, w := r.1.w)
    ensures r.1.w.direct == d.w.direct && r.1.w.clearFailed == d.w.clearFailed
    ensures r.1.w.wroteWhileOn == d.w.wroteWhileOn
    ensures r.1.w.ibusLimitMa == d.w.ibusLimitMa && r.1.w.frequencyKhz == d.w.frequencyKhz
    ensures r.0 == 0 ==> r.1.w.pumpOn
  {
    var (ret, w) := SetPump(d.w, false);
    if ret != 0 then (ret, d.(w := w))
    else
      var (ret, d) := RefreshPps(d.(w := w));
      if ret != 0 then (ret, d)
      else
        var (ret, w) := WaitVbusSettled(d.w, d.targetMv, 30);
        if ret != 0 then (ret, d.(w := w))
        else
          var (ret, w) := PumpOn(w);
          (ret, d.(w := w))
  }

  /** CHG_ON could not be cleared. */
  function NoteClear(before: World, ret: int, after: World): World
  {
    after.(clearFailed := after.clearFailed || (ret != 0 && before.pumpOn))
  }

  function RestoreSwitching(d: Driver): (r: Driver)
    ensures !r.active && !r.w.direct && r.ppsTicks == 0
    ensures r == d.(active := false, ppsTicks := 0, w := r.w)
    ensures r.w.pumpOn <==> d.w.pumpOn && SetPump(d.w, false).0 != 0
    ensures r.w.clearFailed <==> d.w.clearFailed || r.w.pumpOn
    ensures r.w.wroteWhileOn <==> d.w.wroteWhileOn || r.w.pumpOn
  {
    var (ret, w) := SetPump(d.w, false);
    var w := NoteClear(d.w, ret, w);
    var (_, w) := UpdateBits(w);
    var (_, w) := UpdateBits(w);
    var (_, w) := PsyRetry(w, Online, 1);
    var (_, w) := SetDirectCharge(w, false);
    d.(active := false, ppsTicks := 0, w := w)
  }

  /** The chip's own limit, the settled bus, the watchdog and the pump. */
  function Arm(w: World, ma: int, mv: int): (r: (Contract, World))
    ensures r.1.direct == w.direct && r.1.clearFailed == w.clearFailed && r.1.wroteWhileOn == w.wroteWhileOn
    ensures r.1.frequencyKhz == w.frequencyKhz
    ensures r.0 == Settled(ma, mv) || (r.0.Failed? && r.0.code != 0)
    ensures r.0.Settled? ==> r.1.pumpOn && r.1.ibusLimitMa == IbusLimitFor(ma)
  {
    var (ret, w) := SetIbusLimit(w, ma);
    if ret != 0 then (Failed(ret), w)
    else
      var (ret, w) := WaitVbusSettled(w, mv, 30);
      if ret != 0 then (Failed(ret), w)
      else
        var (ret, w) := UpdateBits(w);
        if ret != 0 then (Failed(ret), w)
        else
          var (ret, w) := PumpOn(w);
          if ret != 0 then (Failed(ret), w) else (Settled(ma, mv), w)
  }

  /** The contract, the pump's frequency for it, and the pump. */
  function Engage(w: World, maxPpsMa: nat, vbatUv: nat): (r: (Contract, World))
    ensures r.0.Settled? ==> InRange(r.0.ma, r.0.mv)
    ensures r.1.direct == w.direct && r.1.clearFailed == w.clearFailed
    ensures !w.pumpOn ==> r.1.wroteWhileOn == w.wroteWhileOn
    ensures w.wroteWhileOn ==> r.1.wroteWhileOn
    ensures r.0.Settled? ==> r.1.pumpOn
    ensures r.0.Settled? ==> r.1.ibusLimitMa == IbusLimitFor(r.0.ma) && r.1.frequencyKhz == FrequencyFor(r.0.ma)
    ensures r.0.Failed? ==> r.0.code != 0
  {
    var (contract, w) := NegotiatePps(w, maxPpsMa, vbatUv);
    if contract.Failed? then (contract, w)
    else
      var (ret, w) := SelectFrequency(w, contract.ma);
      if ret != 0 then (Failed(ret), w) else Arm(w, contract.ma, contract.mv)
  }

  /** Everything between taking the battery and running the pump. */
  function BringUp(w: World, maxPpsMa: nat, vbatUv: nat): (r: (Contract, World))
    ensures r.0.Settled? ==> InRange(r.0.ma, r.0.mv)
    ensures r.1.direct == w.direct && r.1.clearFailed == w.clearFailed
    ensures !w.pumpOn ==> r.1.wroteWhileOn == w.wroteWhileOn
    ensures w.wroteWhileOn ==> r.1.wroteWhileOn
    ensures r.0.Settled? ==> r.1.pumpOn
    ensures r.0.Settled? ==> r.1.ibusLimitMa == IbusLimitFor(r.0.ma) && r.1.frequencyKhz == FrequencyFor(r.0.ma)
    ensures r.0.Failed? ==> r.0.code != 0
  {
    var (ret, w) := HwInit(w);
    if ret != 0 then (Failed(ret), w) else Engage(w, maxPpsMa, vbatUv)
  }

  /** What every step keeps. PD properties were written with the pump commanded on exactly if clearing CHG_ON
      failed in restore_switching; while direct charging is active the pump is commanded on, the battery is handed
      over, the contract is in range and the chip's limits match it; otherwise the battery is back, and the pump is off unless
      that clear failed. */
  predicate Parked(d: Driver)
  {
    && (d.w.wroteWhileOn <==> d.w.clearFailed)
    && (d.active <==> d.w.direct)
    && (d.active ==> d.w.pumpOn)
    && (d.w.pumpOn && !d.active ==> d.w.clearFailed)
    && (d.active ==> d.w.ibusLimitMa == IbusLimitFor(d.targetMa) && d.w.frequencyKhz == FrequencyFor(d.targetMa))
    && (d.active ==> InRange(d.targetMa, d.targetMv))
    && d.fails <= MaxFails
  }

  /** The suspend flags are left alone. */
  predicate SameFlags(d: Driver, after: Driver)
  {
    after.suspending == d.suspending && after.pending == d.pending && after.maxPpsMa == d.maxPpsMa
  }

  /** Direct charging is under way, or everything is undone. */
  function Conclude(d: Driver, contract: Contract): (r: (int, Driver))
    ensures r.1.fails == d.fails && SameFlags(d, r.1)
    ensures contract.Failed? ==> r == (contract.code, RestoreSwitching(d))
    ensures contract.Settled? ==> r.0 == 0
  {
    match contract
    case Failed(code) => (code, RestoreSwitching(d))
    case Settled(ma, mv) => (0, d.(active := true, targetMv := mv, targetMa := ma, ppsTicks := 0))
  }

  function TakeOver(d: Driver, battery: nat): (r: (int, Driver))
    ensures Parked(d) && !d.active ==> Parked(r.1) && (r.0 == 0 <==> r.1.active)
    ensures r.1.fails == d.fails && SameFlags(d, r.1)
  {
    var (ret, w) := SetDirectCharge(d.w, true);
    if ret != 0 then (ret, d.(w := w))
    else
      var (contract, w) := BringUp(w, d.maxPpsMa, battery);
      Conclude(d.(w := w), contract)
  }

  function Start(d: Driver): (r: (int, Driver))
    ensures Parked(d) && !d.active ==> Parked(r.1) && (r.0 == 0 <==> r.1.active)
    ensures r.1.fails == d.fails && SameFlags(d, r.1)
  {
    var (battery, w) := Next(d.w);
    if battery < 0 then (battery, d.(w := w)) else TakeOver(d.(w := w), battery)
  }

  function Eligible(w: World): (r: (bool, World))
    ensures Quiet(w, r.1) && r.1.pd == w.pd
  {
    var (x, w) := Ask(w, 4);
    (MayStart(x[0], x[1], x[2], x[3]), w)
  }

  predicate MayStart(online: int, capacity: int, temp: int, voltage: int)
  {
    online > 0 && 5 <= capacity < 90 && 100 <= temp < 420 && 3500000 <= voltage < 4350000
  }

  function Fails(fails: nat): nat
  {
    if fails < MaxFails then fails + 1 else fails
  }

  function Shifted(n: nat, k: nat): nat
  {
    if k == 0 then n else 2 * Shifted(n, k - 1)
  }

  /** The delay after the fails counter has been raised. */
  function BackoffMs(fails: nat): nat
  {
    if fails >= MaxFails then QuietRetryMs
    else if Shifted(RetryMs, fails) < MaxRetryMs then Shifted(RetryMs, fails)
    else MaxRetryMs
  }

  function LogFaults(w: World): (r: World)
    ensures Quiet(w, r) && r.pd == w.pd
  {
    Ask(w, 2).1
  }

  /** One look at the battery, the chip and its ADC. */
  function Healthy(w: World): (r: (bool, World))
    ensures Quiet(w, r.1) && r.1.pd == w.pd
  {
    var (x, w) := Ask(w, 8);
    (Fine(x[0], x[1], ByteOf(x[2]), ByteOf(x[3]), VbusOf(x[4]), IbusOf(x[5]), VbatOf(x[6]), DieTempOf(x[7])), w)
  }

  predicate Fine(capacity: int, packTemp: int, opMode: int, status: int, vbus: int, ibus: int, vbat: int, die: int)
  {
    && 0 <= capacity < 90 && 0 <= packTemp < 450
    && opMode >= 0 && opMode / 4 % 2 == 1
    && status >= 0 && status / 32 % 2 == 1
    && 0 <= vbus <= 10800 && ibus >= 0 && 0 <= vbat <= 4450 && 0 <= die < 1100
  }

  function StopAndBackOff(d: Driver): (r: (Driver, nat))
    ensures SameFlags(d, r.0)
    ensures (d.w.wroteWhileOn <==> d.w.clearFailed) && d.fails <= MaxFails ==> Parked(r.0)
  {
    var d := RestoreSwitching(d);
    (d.(fails := Fails(d.fails)), BackoffMs(Fails(d.fails)))
  }

  function PollIdle(d: Driver): (r: (Driver, nat))
    ensures SameFlags(d, r.0)
    ensures Parked(d) && !d.active ==> Parked(r.0)
  {
    var (enabled, w) := Next(d.w);
    if enabled == 0 then (d.(w := w), RetryMs)
    else
      var (eligible, w) := Eligible(w);
      if !eligible then (d.(w := w), RetryMs)
      else
        var (ret, d) := Start(d.(w := w));
        if ret != 0 then (d.(fails := Fails(d.fails)), BackoffMs(Fails(d.fails)))
        else (d.(fails := 0), PollMs)
  }

  /** Stop on an unhealthy reading, otherwise service the watchdog. */
  function Judge(d: Driver, healthy: bool): (r: (Driver, nat))
    ensures SameFlags(d, r.0)
    ensures Parked(d) && d.active ==> Parked(r.0)
  {
    if !healthy then StopAndBackOff(d.(w := LogFaults(d.w)))
    else
      var (ret, w) := UpdateBits(d.w);
      if ret != 0 then StopAndBackOff(d.(w := w)) else (d.(fails := 0, w := w), PollMs)
  }

  function Supervise(d: Driver): (r: (Driver, nat))
    ensures SameFlags(d, r.0)
    ensures Parked(d) && d.active ==> Parked(r.0)
  {
    var (healthy, w) := Healthy(d.w);
    Judge(d.(w := w), healthy)
  }

  /** The contract is refreshed first; a failed refresh ends direct charging. */
  function RefreshAndSupervise(d: Driver): (r: (Driver, nat))
    ensures SameFlags(d, r.0)
    ensures Parked(d) && d.active ==> Parked(r.0)
  {
    var (ret, d) := RenegotiatePps(d.(ppsTicks := 0));
    if ret != 0 then StopAndBackOff(d.(w := LogFaults(d.w))) else Supervise(d)
  }

  /** Refresh and supervise, or supervise alone. */
  function PollEnabled(d: Driver): (r: (Driver, nat))
    ensures SameFlags(d, r.0)
    ensures Parked(d) && d.active ==> Parked(r.0)
  {
    if d.ppsTicks + 1 >= RefreshTicks then RefreshAndSupervise(d) else Supervise(d.(ppsTicks := d.ppsTicks + 1))
  }

  function PollActive(d: Driver): (r: (Driver, nat))
    ensures SameFlags(d, r.0)
    ensures Parked(d) && d.active ==> Parked(r.0)
  {
    var (enabled, w) := Next(d.w);
    if enabled == 0 then (RestoreSwitching(d.(w := LogFaults(w))), RetryMs) else PollEnabled(d.(w := w))
  }

  function Poll(d: Driver): (r: (Driver, nat))
    ensures r.0.suspending == d.suspending && (r.0.pending <==> !d.suspending)
    ensures Parked(d) ==> Parked(r.0)
  {
    var (d, delay) := if d.active then PollActive(d) else PollIdle(d);
    (d.(pending := !d.suspending), delay)
  }

  function Park(d: Driver): (r: Driver)
    ensures SameFlags(d, r) && !r.active
    ensures Parked(d) ==> Parked(r)
  {
    if d.active then RestoreSwitching(d.(w := SetPump(d.w, false).1)) else d
  }

  /** inFlight: the poll work was already running when the notifier set the flag; the notifier waits for it. */
  function SuspendPrepare(d: Driver, inFlight: bool): (r: Driver)
    ensures Parked(d) ==> Parked(r)
    ensures r.suspending && !r.pending && !r.active
  {
    var d := d.(suspending := true);
    var d := if inFlight && d.pending then Poll(d).0 else d;
    Park(d.(pending := false))
  }

  function PostSuspend(d: Driver): Driver
  {
    d.(suspending := false, pending := true)
  }
}
