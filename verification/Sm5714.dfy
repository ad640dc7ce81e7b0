/** The driver's entry points, each run without interference, with the registers they program. */
module Sm5714 {
  import opened Options
  import opened Sm5714Races
  import opened Sm5714Runs
  import opened Sm5714Spec

  /** The power path, what TCPM and the fast-charge switch allow, and the two current registers. */
  datatype Charger = Charger(path: State, mv: nat, ma: nat, fastCharge: bool, vbusCntl: nat, chgCntl2: nat)

  /** What one poll finds: VBUS, the temperature, whether the charger reports "not charging", whether Q4 can be read
      back, and, for its calls of configure_charging, the cable type and the temperature each samples. */
  datatype PollInput = PollInput(online: int, temp: Option<int>, notCharging: bool, q4Read: bool,
                                 usbType: Option<UsbType>, temp1: Option<int>, temp2: Option<int>)

  function Sampled(s: State, temp: Option<int>): State
  {
    match temp
    case None => s
    case Some(t) => s.(thermal := ThermalFor(s.thermal, t), hot := Hot(s.hot, t))
  }

  function ConfigurePath(s: State, usbTypeRead: bool, temp: Option<int>): State
  {
    if s.otg || !usbTypeRead then s
    else
      var sampled := Sampled(s, temp);
      sampled.(q4 := sampled.thermal != Stop)
  }

  /** configure_charging. */
  function ConfigureOnce(c: Charger, usbType: Option<UsbType>, temp: Option<int>): Charger
  {
    var path := ConfigurePath(c.path, usbType.Some?, temp);
    if c.path.otg || usbType == None || path.thermal == Stop then c.(path := path)
    else
      var limits := ChargingLimits(c.mv, c.ma, usbType.value, c.fastCharge, path.thermal);
      c.(path := path, vbusCntl := InputCurrentReg(limits.inputMa), chgCntl2 := FastCurrentReg(limits.fastMa))
  }

  /** The thermal update and its follow-up. */
  function UpdateThermal(c: Charger, input: PollInput): Charger
  {
    var sampled := c.(path := Sampled(c.path, input.temp));
    if sampled.path.thermal != c.path.thermal then ConfigureOnce(sampled, input.usbType, input.temp1) else sampled
  }

  /** Q4 found open although the battery could charge. */
  function Recover(c: Charger, input: PollInput): Charger
  {
    if !c.path.direct && input.notCharging && c.path.thermal != Stop && input.q4Read && !c.path.q4 then
      ConfigureOnce(c, input.usbType, input.temp2)
    else c
  }

  function PollOnce(c: Charger, lastOnline: bool, input: PollInput): Charger
  {
    var c := if input.online > 0 then Recover(UpdateThermal(c, input), input) else c;
    if input.online == 0 && lastOnline then c.(path := c.path.(q4 := false)) else c
  }

  // ---------- undisturbed, the entry points are runs ----------

  /** configure_charging step by step; steps that are not enabled are passed over. */
  function ConfigureSteps(own: bool, usbTypeRead: bool, temp: Option<int>): seq<Step>
  {
    if !usbTypeRead then [ConfigureEnter(own, false)]
    else match temp
      case None => [ConfigureEnter(own, true), ConfigureLoad, ConfigureSample(None)] + [ConfigureDecide, ConfigureClose]
      case Some(t) => ConfigureToStore(own, t) + [ConfigureStore] + [ConfigureDecide, ConfigureClose]
  }

  lemma ConfigureWithSample(s: State, own: bool, temp: int)
    requires s.holder == Free && !s.otg && (own ==> s.poll == FollowUp)
    ensures Run(s, ConfigureToStore(own, temp) + [ConfigureStore] + [ConfigureDecide, ConfigureClose])
         == ConfigurePath(s, true, Some(temp)).(poll := Back(s, own))
  {
    var s1 := ConfigureReachesStore(s, own, temp);
    var s2 := ConfigureStores(s1, own, temp, ThermalFor(s.thermal, temp));
    Then(s, ConfigureToStore(own, temp), [ConfigureStore], s1, s2);
    var s3 := ConfigureEnds(s2, own, ThermalFor(s.thermal, temp));
    Then(s, ConfigureToStore(own, temp) + [ConfigureStore], [ConfigureDecide, ConfigureClose], s2, s3);
  }

  lemma ConfigureWithoutSample(s: State, own: bool)
    requires s.holder == Free && !s.otg && (own ==> s.poll == FollowUp)
    ensures Run(s, [ConfigureEnter(own, true), ConfigureLoad, ConfigureSample(None)] + [ConfigureDecide, ConfigureClose])
         == ConfigurePath(s, true, None).(poll := Back(s, own))
  {
    Run3(s, ConfigureEnter(own, true), ConfigureLoad, ConfigureSample(None));
    var s1 := Run(s, [ConfigureEnter(own, true), ConfigureLoad, ConfigureSample(None)]);
    var s2 := ConfigureEnds(s1, own, s.thermal);
    Then(s, [ConfigureEnter(own, true), ConfigureLoad, ConfigureSample(None)], [ConfigureDecide, ConfigureClose],
         s1, s2);
  }

  /** Undisturbed, starting the boost, stopping it, and handing the battery to the pump are the runs of their steps. */
  lemma BoostStartIsARun(s: State)
    requires s.holder == Free && !s.otg && !s.direct
    ensures Run(s, [OtgOpenQ4(false), OtgBoost, OtgSetFlag]) == s.(q4 := false, boost := true, otg := true)
  {
    Run3(s, OtgOpenQ4(false), OtgBoost, OtgSetFlag);
  }

  lemma BoostStopIsARun(s: State)
    requires s.holder == Free && s.otg
    ensures Run(s, [OtgUnboost, OtgClearFlag]) == s.(boost := false, otg := false)
  {
    Run2(s, OtgUnboost, OtgClearFlag);
  }

  lemma HandOverIsARun(s: State)
    requires s.holder == Free
    ensures Run(s, [DirectFlag(true), DirectOpenQ4]) == s.(direct := true, q4 := false)
  {
    Run2(s, DirectFlag(true), DirectOpenQ4);
  }

  /** Undisturbed, configure_charging is the run of its steps. */
  lemma ConfigureIsARun(s: State, own: bool, usbTypeRead: bool, temp: Option<int>)
    requires s.holder == Free && !s.otg && (own ==> s.poll == FollowUp)
    ensures Run(s, ConfigureSteps(own, usbTypeRead, temp))
         == ConfigurePath(s, usbTypeRead, temp).(poll := Back(s, own))
  {
    if !usbTypeRead {
      Run1(s, ConfigureEnter(own, false));
    } else if temp == None {
      ConfigureWithoutSample(s, own);
    } else {
      ConfigureWithSample(s, own, temp.value);
    }
  }

  lemma FollowUpIsARun(s: State, usbTypeRead: bool, temp: Option<int>)
    requires s.holder == Free && !s.otg && s.poll == FollowUp
    ensures Run(s, ConfigureSteps(true, usbTypeRead, temp)) == ConfigurePath(s.(poll := Idle), usbTypeRead, temp)
  {
    ConfigureIsARun(s, true, usbTypeRead, temp);
  }

  function UpdateSteps(temp: int, changed: bool, input: PollInput): seq<Step>
  {
    if changed then
      PollToStore(temp) + [PollStore, PollCompare] + ConfigureSteps(true, input.usbType.Some?, input.temp1)
    else PollToStore(temp) + [PollStore, PollCompare]
  }

  lemma UpdateOfThePath(c: Charger, input: PollInput)
    ensures var sampled := Sampled(c.path, input.temp);
      UpdateThermal(c, input).path
      == if sampled.thermal != c.path.thermal then ConfigurePath(sampled, input.usbType.Some?, input.temp1) else sampled
  {
  }

  /** An undisturbed thermal update is the run of its steps. */
  lemma UpdateIsARun(c: Charger, input: PollInput)
    requires c.path.holder == Free && c.path.poll == Idle && !c.path.otg && input.temp.Some?
    ensures var t := input.temp.value;
      UpdateThermal(c, input).path
      == Run(c.path, UpdateSteps(t, ThermalFor(c.path.thermal, t) != c.path.thermal, input))
  {
    var s, t := c.path, input.temp.value;
    UpdateOfThePath(c, input);
    var s1 := PollReachesStore(s, t);
    var s2 := PollStores(s1, s.thermal, t, ThermalFor(s.thermal, t));
    Then(s, PollToStore(t), [PollStore, PollCompare], s1, s2);
    if ThermalFor(s.thermal, t) != s.thermal {
      FollowUpIsARun(s2, input.usbType.Some?, input.temp1);
      RunConcat(s, PollToStore(t) + [PollStore, PollCompare], ConfigureSteps(true, input.usbType.Some?, input.temp1));
    }
  }

  // ---------- what the entry points keep ----------

  predicate AtRest(s: State)
  {
    s.holder == Free && s.poll == Idle && OtgInterlock(s)
  }

  /** A battery that charges in the warm band gets at most 2.1 A. */
  predicate WarmBudget(c: Charger)
  {
    c.path.q4 && c.path.thermal == Reduced ==> c.chgCntl2 <= FastCurrentReg(2100)
  }

  predicate Steady(c: Charger)
  {
    AtRest(c.path) && Hysteresis(c.path) && StopInterlock(c.path) && WarmBudget(c)
  }

  lemma SampledKeeps(s: State, temp: Option<int>)
    requires AtRest(s) && Hysteresis(s)
    ensures AtRest(Sampled(s, temp)) && Hysteresis(Sampled(s, temp))
  {
    if temp.Some? {
      HysteresisOfSample(s.thermal, s.hot, temp.value);
    }
  }

  lemma FastCurrentGrows(a: nat, b: nat)
    requires a <= b
    ensures FastCurrentReg(a) <= FastCurrentReg(b)
  {
  }

  lemma ConfigurePathKeeps(s: State, usbTypeRead: bool, temp: Option<int>)
    requires AtRest(s) && Hysteresis(s)
    ensures var after := ConfigurePath(s, usbTypeRead, temp);
      && AtRest(after) && Hysteresis(after)
      && (usbTypeRead || StopInterlock(s) ==> StopInterlock(after))
      && (after.q4 && !s.q4 ==> after.thermal != Stop)
  {
    SampledKeeps(s, temp);
  }

  lemma WarmLimits(mv: nat, ma: nat, usbType: UsbType, fastCharge: bool)
    ensures FastCurrentReg(ChargingLimits(mv, ma, usbType, fastCharge, Reduced).fastMa) <= FastCurrentReg(2100)
  {
    LimitsAreSafe(mv, ma, usbType, fastCharge, Reduced);
    FastCurrentGrows(ChargingLimits(mv, ma, usbType, fastCharge, Reduced).fastMa, 2100);
  }

  /** configure_charging keeps the interlocks and the warm-band budget, unless the cable type cannot be read; and it
      closes Q4 only with a state that allows it. */
  lemma ConfigureOnceKeeps(c: Charger, usbType: Option<UsbType>, temp: Option<int>)
    requires AtRest(c.path) && Hysteresis(c.path)
    ensures var after := ConfigureOnce(c, usbType, temp);
      && AtRest(after.path) && Hysteresis(after.path)
      && (usbType.Some? || Steady(c) ==> Steady(after))
      && (after.path.q4 && !c.path.q4 ==> after.path.thermal != Stop)
  {
    ConfigurePathKeeps(c.path, usbType.Some?, temp);
    if usbType.Some? {
      WarmLimits(c.mv, c.ma, usbType.value, c.fastCharge);
    }
  }

  /** Every sample of the thermal update is at least 50.0 C. */
  predicate StaysHot(input: PollInput)
  {
    && input.online > 0 && input.temp.Some? && input.temp.value >= 500
    && (input.temp1.Some? ==> input.temp1.value >= 500)
  }

  lemma UpdateThermalKeeps(c: Charger, input: PollInput)
    requires Steady(c)
    ensures var after := UpdateThermal(c, input);
      && AtRest(after.path) && Hysteresis(after.path)
      && (input.usbType.Some? ==> Steady(after))
      && (input.usbType.Some? && StaysHot(input) ==> after.path.thermal == Stop && !after.path.q4)
  {
    SampledKeeps(c.path, input.temp);
    ConfigureOnceKeeps(c.(path := Sampled(c.path, input.temp)), input.usbType, input.temp1);
  }

  /** A whole poll keeps the interlocks and the warm-band budget, provided the cable type can be read when it is
      needed; and it cuts a battery of 50.0 C off in the same pass. */
  lemma PollOnceKeeps(c: Charger, lastOnline: bool, input: PollInput)
    requires Steady(c)
    ensures var after := PollOnce(c, lastOnline, input);
      AtRest(after.path) && Hysteresis(after.path) && (input.usbType.Some? ==> Steady(after))
    ensures input.usbType.Some? && StaysHot(input) ==> !PollOnce(c, lastOnline, input).path.q4
  {
    if input.online > 0 {
      UpdateThermalKeeps(c, input);
      ConfigureOnceKeeps(UpdateThermal(c, input), input.usbType, input.temp2);
    }
  }

  class Battery {
    var q4: bool
    var boost: bool
    var otgActive: bool
    var directCharging: bool
    var thermalState: Thermal
    var lastOnline: bool
    var typecMv: nat
    var typecMa: nat
    var fastCharge: bool
    var vbusCntl: nat
    var chgCntl2: nat
    ghost var hot: bool

    ghost function Path(): State
      reads this
    {
      State(q4, boost, otgActive, directCharging, thermalState, Free, Idle, hot)
    }

    ghost function View(): Charger
      reads this
    {
      Charger(Path(), typecMv, typecMa, fastCharge, vbusCntl, chgCntl2)
    }

    ghost predicate Valid()
      reads this
    {
      OtgInterlock(Path())
    }

    constructor (q4: bool, vbusCntl: nat, chgCntl2: nat)
      ensures Valid() && View() == Charger(Booted(q4, false), 0, 0, false, vbusCntl, chgCntl2) && !lastOnline
      ensures Steady(View())
    {
      this.q4, boost, otgActive, directCharging, thermalState, hot := q4, false, false, false, Normal, false;
      this.vbusCntl, this.chgCntl2, typecMv, typecMa, fastCharge := vbusCntl, chgCntl2, 0, 0, false;
      lastOnline := false;
    }

    method ChargeThermalState(temp: int) returns (next: Thermal)
      ensures next == ThermalFor(thermalState, temp)
    {
      if thermalState == Stop {
        if temp >= 460 {
          return Stop;
        }
        if temp > 420 {
          return Reduced;
        }
      }
      if thermalState == Reduced && temp > 420 {
        if temp >= 500 {
          return Stop;
        }
        return Reduced;
      }
      if temp >= 500 {
        return Stop;
      }
      if temp >= 460 {
        return Reduced;
      }
      return Normal;
    }

    method Budget(usbType: UsbType) returns (limits: Limits)
      ensures limits == ChargingLimits(typecMv, typecMa, usbType, fastCharge, thermalState)
    {
      var inputMa, fastMa;
      if typecMv >= 5000 && typecMa >= 500 {
        if fastCharge {
          inputMa, fastMa := Min(typecMa, 3000), 3150;
        } else {
          inputMa, fastMa := Min(typecMa, if typecMv > 5000 then 1660 else 3000), 2800;
        }
      } else {
        match usbType {
          case Dcp => inputMa, fastMa := 1800, 2100;
          case Cdp => inputMa, fastMa := 1500, 1500;
          case OtherUsb => inputMa, fastMa := 500, 500;
        }
      }
      if thermalState == Reduced {
        fastMa := Min(fastMa, 2100);
      }
      limits := Limits(inputMa, fastMa);
    }

    /** The input limit is lowered before Q4 closes and restored afterwards. */
    method CloseQ4(limits: Limits)
      requires limits.inputMa >= 100
      modifies this`q4, this`vbusCntl, this`chgCntl2
      ensures q4 && vbusCntl == InputCurrentReg(limits.inputMa) && chgCntl2 == FastCurrentReg(limits.fastMa)
    {
      vbusCntl := InputCurrentReg(500);
      chgCntl2 := FastCurrentReg(limits.fastMa);
      q4 := true;
      vbusCntl := InputCurrentReg(limits.inputMa);
    }

    method ConfigureCharging(usbType: Option<UsbType>, temp: Option<int>) returns (ok: bool)
      requires Valid()
      modifies this`thermalState, this`hot, this`q4, this`vbusCntl, this`chgCntl2
      ensures Valid() && View() == ConfigureOnce(old(View()), usbType, temp)
      ensures ok <==> !otgActive && usbType.Some?
    {
      if otgActive || usbType == None {
        return false;
      }
      if temp.Some? {
        thermalState := ChargeThermalState(temp.value);
        hot := Hot(hot, temp.value);
      }
      ok := true;
      if thermalState == Stop {
        q4 := false;
        return;
      }
      var limits := Budget(usbType.value);
      CloseQ4(limits);
    }

    /** online: VBUS, negative if it cannot be read. */
    method SetPdContract(mv: nat, ma: nat, online: int, usbType: Option<UsbType>, temp: Option<int>)
      returns (ok: bool)
      requires Valid()
      modifies this
      ensures Valid() && lastOnline == old(lastOnline)
      ensures (mv != 0 && !(5000 <= mv <= 9000)) || ma > 3000 ==> !ok && View() == old(View())
      ensures (mv == 0 || 5000 <= mv <= 9000) && ma <= 3000 ==>
                var granted := old(View()).(mv := mv, ma := ma);
                var restart := mv != 0 && ma != 0 && online > 0 && !directCharging;
                && View() == (if restart then ConfigureOnce(granted, usbType, temp) else granted)
                && (ok <==> (restart ==> !otgActive && usbType.Some?))
    {
      if (mv != 0 && (mv < 5000 || mv > 9000)) || ma > 3000 {
        return false;
      }
      typecMv, typecMa := mv, ma;
      ok := true;
      if mv != 0 && ma != 0 && online > 0 && !directCharging {
        ok := ConfigureCharging(usbType, temp);
      }
    }

    method StoreFastCharge(enabled: bool, usbType: Option<UsbType>, temp: Option<int>)
      requires Valid()
      modifies this
      ensures Valid() && lastOnline == old(lastOnline)
      ensures View() == if enabled == old(fastCharge) then old(View())
                        else ConfigureOnce(old(View()).(fastCharge := enabled), usbType, temp)
    {
      if fastCharge != enabled {
        fastCharge := enabled;
        var _ := ConfigureCharging(usbType, temp);
      }
    }

    /** online: VBUS as read before the boost starts, or after it has stopped; negative if it cannot be read. */
    method SetOtg(active: bool, online: int, usbType: Option<UsbType>, temp: Option<int>) returns (ok: bool)
      requires Valid()
      modifies this
      ensures Valid() && lastOnline == old(lastOnline)
      ensures old(otgActive) == active ==> ok && View() == old(View())
      ensures active && !old(otgActive) ==>
                var boosted := old(Path()).(q4 := false, boost := true, otg := true);
                && (ok <==> !directCharging && online == 0)
                && View() == if ok then old(View()).(path := boosted) else old(View())
      ensures !active && old(otgActive) ==>
                var stopped := old(View()).(path := old(Path()).(boost := false, otg := false));
                && View() == (if online > 0 then ConfigureOnce(stopped, usbType, temp) else stopped)
                && (ok <==> (online > 0 ==> usbType.Some?))
    {
      if active == otgActive {
        return true;
      }
      if active {
        if directCharging || online < 0 || online != 0 {
          return false;
        }
        q4 := false;
        boost := true;
        otgActive := true;
        return true;
      }
      boost := false;
      otgActive := false;
      ok := true;
      if online > 0 {
        ok := ConfigureCharging(usbType, temp);
      }
    }

    method SetDirectCharge(active: bool, online: int, usbType: Option<UsbType>, temp: Option<int>)
      returns (ok: bool)
      requires Valid()
      modifies this
      ensures Valid() && lastOnline == old(lastOnline)
      ensures active ==>
                && (ok <==> temp.Some? && 100 <= temp.value < 420)
                && View() == if ok then old(View()).(path := old(Path()).(direct := true, q4 := false)) else old(View())
      ensures !active ==>
                var handed := old(View()).(path := old(Path()).(direct := false));
                && View() == (if online > 0 then ConfigureOnce(handed, usbType, temp) else handed)
                && (ok <==> (online > 0 ==> !otgActive && usbType.Some?))
    {
      if active {
        if temp == None || temp.value < 100 || temp.value >= 420 {
          return false;
        }
        directCharging := true;
        q4 := false;
        return true;
      }
      directCharging := false;
      ok := true;
      if online > 0 {
        ok := ConfigureCharging(usbType, temp);
      }
    }

    method UpdateThermalState(input: PollInput)
      requires Valid()
      modifies this`thermalState, this`hot, this`q4, this`vbusCntl, this`chgCntl2
      ensures Valid() && View() == UpdateThermal(old(View()), input)
    {
      var before := thermalState;
      if input.temp.Some? {
        thermalState := ChargeThermalState(input.temp.value);
        hot := Hot(hot, input.temp.value);
      }
      if thermalState != before {
        var _ := ConfigureCharging(input.usbType, input.temp1);
      }
    }

    method RecoverQ4(input: PollInput)
      requires Valid()
      modifies this`thermalState, this`hot, this`q4, this`vbusCntl, this`chgCntl2
      ensures Valid() && View() == Recover(old(View()), input)
    {
      if !directCharging && input.notCharging && thermalState != Stop && input.q4Read && !q4 {
        var _ := ConfigureCharging(input.usbType, input.temp2);
      }
    }

    method PollWork(input: PollInput)
      requires Valid()
      modifies this
      ensures Valid() && View() == PollOnce(old(View()), old(lastOnline), input)
      ensures lastOnline == if input.online < 0 then old(lastOnline) else input.online > 0
    {
      if input.online > 0 {
        UpdateThermalState(input);
        RecoverQ4(input);
      }
      if input.online >= 0 && (input.online > 0) != lastOnline {
        lastOnline := input.online > 0;
        if input.online == 0 {
          q4 := false;
        }
      }
    }
  }
}
