/** kernel/files/sm5714_battery.c: the power path. The battery path is closed by the Q4 switch; the same
    connector can be fed by the OTG boost. Critical sections hold chg_lock; the poll thread writes the
    thermal state and opens Q4 on unplug without it. A step reads or writes the shared state once, so every
    interleaving of the poll thread with the lock holder is a run. Register writes succeed. */
module Sm5714Spec {
  import opened Options

  datatype Thermal = Normal | Reduced | Stop

  /** The hysteresis of sm5714_charge_thermal_state, which reads the state twice; temperatures in tenths of a
      degree. */
  function ThermalFrom(first: Thermal, second: Thermal, temp: int): Thermal
  {
    if first == Stop && temp >= 460 then Stop
    else if first == Stop && temp > 420 then Reduced
    else if second == Reduced && temp > 420 then (if temp >= 500 then Stop else Reduced)
    else if temp >= 500 then Stop
    else if temp >= 460 then Reduced
    else Normal
  }

  /** Stop from 50.0 C on, and from 46.0 C on for one who read stop first; normal below 46.0 C, and only at 42.0 C or
      below for one who read stop first or reduced second; reduced in all other cases. */
  lemma HysteresisBands(first: Thermal, second: Thermal, temp: int)
    ensures ThermalFrom(first, second, temp) == Stop <==> temp >= 500 || (first == Stop && temp >= 460)
    ensures ThermalFrom(first, second, temp) == Normal
      <==> temp < 460 && (temp <= 420 || (first != Stop && second != Reduced))
  {
  }

  function ThermalFor(thermal: Thermal, temp: int): Thermal
  {
    ThermalFrom(thermal, thermal, temp)
  }

  /** Where the holder of chg_lock is. In configure_charging, own says that the poll thread called it after a
      thermal change; local is its own copy of the thermal state, first and next what it has read and computed. */
  datatype Holder =
    | Free
    | Entered(own: bool)
    | Loaded(own: bool, local: Thermal)
    | Sampling(own: bool, temp: int)
    | Halfway(own: bool, temp: int, first: Thermal)
    | Computed(own: bool, temp: int, next: Thermal)
    | Decided(own: bool, local: Thermal)
    | Closing(own: bool, local: Thermal)
    | OtgOpened
    | OtgBoosted
    | OtgUnboosted

  predicate Configures(holder: Holder)
  {
    !(holder == Free || holder == OtgOpened || holder == OtgBoosted || holder == OtgUnboosted)
  }

  /** Where the poll thread is in its thermal update. */
  datatype Poll =
    | Idle
    | Started(before: Thermal)
    | PollSampled(before: Thermal, temp: int)
    | PollHalfway(before: Thermal, temp: int, first: Thermal)
    | PollComputed(before: Thermal, temp: int, next: Thermal)
    | Stored(before: Thermal)
    | FollowUp
    | Configuring

  /** q4: the battery path is closed. hot: since the last stored sample of 50.0 C none of at most 42.0 C was
      stored. */
  datatype State = State(q4: bool, boost: bool, otg: bool, direct: bool, thermal: Thermal, holder: Holder, poll: Poll,
                         hot: bool)

  function Hot(hot: bool, temp: int): bool
  {
    temp >= 500 || (hot && temp > 420)
  }

  datatype Step =
    | ConfigureEnter(own: bool, usbTypeRead: bool)
    | ConfigureLoad
    | ConfigureSample(temp: Option<int>)
    | ConfigureFirst
    | ConfigureSecond
    | ConfigureStore
    | ConfigureDecide
    | ConfigureClose
    | OtgOpenQ4(online: bool)
    | OtgBoost
    | OtgSetFlag
    | OtgUnboost
    | OtgClearFlag
    | DirectFlag(on: bool)
    | DirectOpenQ4
    | PollStart
    | PollOffline
    | PollRead(sample: int)
    | PollNoSample
    | PollFirst
    | PollSecond
    | PollStore
    | PollCompare
    | PollUnplug

  predicate Enabled(s: State, step: Step)
  {
    match step
    case ConfigureEnter(own, _) => s.holder == Free && (own ==> s.poll == FollowUp)
    case ConfigureLoad => s.holder.Entered?
    case ConfigureSample(_) => s.holder.Loaded?
    case ConfigureFirst => s.holder.Sampling?
    case ConfigureSecond => s.holder.Halfway?
    case ConfigureStore => s.holder.Computed?
    case ConfigureDecide => s.holder.Decided?
    case ConfigureClose => s.holder.Closing?
    case OtgOpenQ4(online) => s.holder == Free && !s.otg && !s.direct && !online
    case OtgBoost => s.holder == OtgOpened
    case OtgSetFlag => s.holder == OtgBoosted
    case OtgUnboost => s.holder == Free && s.otg
    case OtgClearFlag => s.holder == OtgUnboosted
    case DirectFlag(_) => true
    case DirectOpenQ4 => s.holder == Free
    case PollStart => s.poll == Idle
    case PollOffline => s.poll.Started?
    case PollRead(_) => s.poll.Started?
    case PollNoSample => s.poll.Started?
    case PollFirst => s.poll.PollSampled?
    case PollSecond => s.poll.PollHalfway?
    case PollStore => s.poll.PollComputed?
    case PollCompare => s.poll.Stored?
    case PollUnplug => true
  }

  /** The poll thread comes back from its own call. */
  function Back(s: State, own: bool): Poll
  {
    if own then Idle else s.poll
  }

  function Next(s: State, step: Step): State
    requires Enabled(s, step)
  {
    match step
    case ConfigureEnter(own, usbTypeRead) =>
      if s.otg || !usbTypeRead then s.(poll := Back(s, own))
      else s.(holder := Entered(own), poll := if own then Configuring else s.poll)
    case ConfigureLoad => s.(holder := Loaded(s.holder.own, s.thermal))
    case ConfigureSample(temp) =>
      s.(holder := match temp
                   case None => Decided(s.holder.own, s.holder.local)
                   case Some(t) => Sampling(s.holder.own, t))
    case ConfigureFirst => s.(holder := Halfway(s.holder.own, s.holder.temp, s.thermal))
    case ConfigureSecond =>
      s.(holder := Computed(s.holder.own, s.holder.temp, ThermalFrom(s.holder.first, s.thermal, s.holder.temp)))
    case ConfigureStore =>
      s.(thermal := s.holder.next, hot := Hot(s.hot, s.holder.temp), holder := Decided(s.holder.own, s.holder.next))
    case ConfigureDecide =>
      if s.holder.local == Stop then s.(q4 := false, holder := Free, poll := Back(s, s.holder.own))
      else s.(holder := Closing(s.holder.own, s.holder.local))
    case ConfigureClose => s.(q4 := true, holder := Free, poll := Back(s, s.holder.own))
    case OtgOpenQ4(_) => s.(q4 := false, holder := OtgOpened)
    case OtgBoost => s.(boost := true, holder := OtgBoosted)
    case OtgSetFlag => s.(otg := true, holder := Free)
    case OtgUnboost => s.(boost := false, holder := OtgUnboosted)
    case OtgClearFlag => s.(otg := false, holder := Free)
    case DirectFlag(on) => s.(direct := on)
    case DirectOpenQ4 => s.(q4 := false)
    case PollStart => s.(poll := Started(s.thermal))
    case PollOffline => s.(poll := Idle)
    case PollRead(sample) => s.(poll := PollSampled(s.poll.before, sample))
    case PollNoSample => s.(poll := Stored(s.poll.before))
    case PollFirst => s.(poll := PollHalfway(s.poll.before, s.poll.temp, s.thermal))
    case PollSecond =>
      s.(poll := PollComputed(s.poll.before, s.poll.temp, ThermalFrom(s.poll.first, s.thermal, s.poll.temp)))
    case PollStore => s.(thermal := s.poll.next, hot := Hot(s.hot, s.poll.temp), poll := Stored(s.poll.before))
    case PollCompare => s.(poll := if s.thermal != s.poll.before then FollowUp else Idle)
    case PollUnplug => s.(q4 := false)
  }

  function Apply(s: State, step: Step): State
  {
    if Enabled(s, step) then Next(s, step) else s
  }

  function Run(s: State, steps: seq<Step>): State
    decreases |steps|
  {
    if steps == [] then s else Run(Apply(s, steps[0]), steps[1..])
  }

  // ---------- charging limits ----------

  datatype UsbType = Dcp | Cdp | OtherUsb

  datatype Limits = Limits(inputMa: nat, fastMa: nat)

  function Min(a: nat, b: nat): nat
  {
    if a < b then a else b
  }

  /** The budget configure_charging programs. */
  function ChargingLimits(mv: nat, ma: nat, usbType: UsbType, fastCharge: bool, thermal: Thermal): Limits
  {
    var limits :=
      if mv >= 5000 && ma >= 500 then
        if fastCharge then Limits(Min(ma, 3000), 3150) else Limits(Min(ma, if mv > 5000 then 1660 else 3000), 2800)
      else match usbType
        case Dcp => Limits(1800, 2100)
        case Cdp => Limits(1500, 1500)
        case OtherUsb => Limits(500, 500);
    if thermal == Reduced then limits.(fastMa := Min(limits.fastMa, 2100)) else limits
  }

  /** VBUSCNTL, 25 mA a step from 100 mA. */
  function InputCurrentReg(ma: nat): nat
    requires ma >= 100
  {
    Min((ma - 100) / 25, 0x7F)
  }

  /** CHGCNTL2, 15.625 mA a step from 109.375 mA. */
  function FastCurrentReg(ma: nat): nat
  {
    if ma * 1000 <= 109375 then 0x07 else Min(7 + (ma * 1000 - 109375) / 15625, 0xE0)
  }

  /** A contract is never exceeded, nor the board's 3 A and 3.15 A; the warm band never gets more than 2.1 A; and an
      unclassified source without a contract is never treated as a high-current port. */
  lemma LimitsAreSafe(mv: nat, ma: nat, usbType: UsbType, fastCharge: bool, thermal: Thermal)
    ensures var l := ChargingLimits(mv, ma, usbType, fastCharge, thermal);
      && 500 <= l.inputMa <= 3000 && 500 <= l.fastMa <= 3150
      && (mv >= 5000 && ma >= 500 ==> l.inputMa <= ma)
      && (thermal == Reduced ==> l.fastMa <= 2100)
      && (!(mv >= 5000 && ma >= 500) && usbType == OtherUsb ==> l == Limits(500, 500))
      && (mv > 5000 && !fastCharge && ma >= 500 ==> l.inputMa <= 1660)
  {
  }

  /** A current capped by what the source grants and by a limit of the board. */
  predicate Capped(current: nat, granted: nat, limit: nat)
  {
    current <= granted && current <= limit && (current == granted || current == limit)
  }

  /** The budget case by case: with a contract of at least 5 V and 500 mA the input is what it grants up to 3 A, or
      1.66 A above 5 V without fast charging, and the cell gets 3.15 A or 2.8 A; without one the cable type decides; in
      the warm band the cell gets 2.1 A at most. */
  lemma BudgetCaseByCase(mv: nat, ma: nat, usbType: UsbType, fastCharge: bool, thermal: Thermal)
    ensures var l := ChargingLimits(mv, ma, usbType, fastCharge, thermal);
      var warm := thermal == Reduced;
      if mv >= 5000 && ma >= 500 then
        && Capped(l.inputMa, ma, if fastCharge || mv <= 5000 then 3000 else 1660)
        && l.fastMa == if warm then 2100 else if fastCharge then 3150 else 2800
      else
        match usbType
        case Dcp => l == Limits(1800, 2100)
        case Cdp => l == Limits(1500, 1500)
        case OtherUsb => l == Limits(500, 500)
  {
  }

  /** VBUSCNTL holds the largest code, up to 0x7F, whose current is within the budget. */
  lemma InputRegisterExactly(ma: nat, code: nat)
    requires ma >= 100
    ensures InputCurrentReg(ma) == code
      <==> code <= 0x7F && 100 + 25 * code <= ma && (code < 0x7F ==> ma < 100 + 25 * (code + 1))
  {
  }

  /** CHGCNTL2 holds the largest code between 7 and 0xE0 whose current is within the budget, and 7 below all of them. */
  lemma FastRegisterExactly(ma: nat, code: nat)
    ensures FastCurrentReg(ma) == code
      <==> && 7 <= code <= 0xE0 && (code > 7 ==> 109375 + 15625 * (code - 7) <= 1000 * ma)
           && (code < 0xE0 ==> 1000 * ma < 109375 + 15625 * (code - 6))
  {
  }

  /** What the registers stand for is at most the budget, and less than one step below it. */
  lemma RegistersKeepTheBudget(l: Limits)
    requires 500 <= l.inputMa <= 3000 && 500 <= l.fastMa <= 3150
    ensures l.inputMa - 25 < 100 + 25 * InputCurrentReg(l.inputMa) <= l.inputMa
    ensures 1000 * l.fastMa - 15625 < 109375 + 15625 * (FastCurrentReg(l.fastMa) - 7) <= 1000 * l.fastMa
  {
  }
}
