/** Every interleaving of display callbacks, backlight updates, sysfs writes and the watchdog. */
module PanelRuns {
  import opened PanelSpec

  datatype Action =
    | DoPrepare(powerOk: bool, bus: Bus)
    | DoEnable(bus: Bus)
    | DoDisable(circleBus: CircleBus, fodBus: Bus, offSent: bool)
    | DoUnprepare(circleBus: CircleBus, fodBus: Bus)
    | DoCancel
    | SetBacklight(value: nat, sent: bool)
    | SetFodMode(enable: bool, circleBus: CircleBus, fodBus: Bus, restoreBus: Bus)
    | SetFodCircle(enable: bool, drawBus: CircleBus, hideBus: CircleBus)
    | Fire
    | Work(circleBus: CircleBus, fodBus: Bus)

  /** The display core runs its callbacks one at a time. */
  predicate Enabled(s: State, action: Action)
  {
    match action
    case DoPrepare(_, _) => !s.cancelling
    case DoEnable(_) => !s.cancelling
    case DoDisable(_, _, _) => !s.cancelling
    case DoUnprepare(_, _) => !s.cancelling
    case DoCancel => s.cancelling && !s.firing
    case Fire => s.armed && !s.firing
    case Work(_, _) => s.firing
    case _ => true
  }

  function Apply(s: State, action: Action): State
  {
    if !Enabled(s, action) then s
    else match action
      case DoPrepare(powerOk, bus) => Prepare(s, powerOk, bus)
      case DoEnable(bus) => Enable(s, bus)
      case DoDisable(circleBus, fodBus, offSent) => Disable(s, circleBus, fodBus, offSent)
      case DoUnprepare(circleBus, fodBus) => Unprepare(s, circleBus, fodBus)
      case DoCancel => CancelWatchdog(s)
      case SetBacklight(value, sent) => UpdateBacklight(s, value, sent)
      case SetFodMode(enable, circleBus, fodBus, restoreBus) => StoreFodMode(s, enable, circleBus, fodBus, restoreBus)
      case SetFodCircle(enable, drawBus, hideBus) => StoreFodCircle(s, enable, drawBus, hideBus)
      case Fire => WatchdogFires(s)
      case Work(circleBus, fodBus) => WatchdogWork(s, circleBus, fodBus)
  }

  function Run(s: State, actions: seq<Action>): State
    decreases |actions|
  {
    if actions == [] then s else Run(Apply(s, actions[0]), actions[1..])
  }

  function Probed(): State
  {
    State(MaxBrightness, false, false, false, false, AfterReset(), false, false, false)
  }

  // ---------- what holds whatever the bus does ----------

  /** fod_circle implies fod_mode implies enabled implies prepared; fingerprint mode never outlives its watchdog, which
      is queued only while the display is on or about to cancel it; the user's brightness is in range; a callback
      cancels the watchdog only with the display off; and a panel without power is never written to. */
  predicate Nested(s: State)
  {
    && (s.fodCircle ==> s.fodMode) && (s.fodMode ==> s.enabled) && (s.enabled ==> s.prepared)
    && (s.fodMode ==> s.armed || s.firing) && (s.armed ==> s.enabled || s.cancelling)
    && (s.cancelling ==> !s.enabled)
    && s.userBrightness <= MaxBrightness
    && (!s.prepared ==> s.ddic == AfterReset())
  }

  lemma NestedStepKeeps(s: State, action: Action)
    requires Nested(s)
    ensures Nested(Apply(s, action))
  {
  }

  /** Once a display callback has turned the display off and cancelled the watchdog, none is queued, and none is queued
      again before the display is back on. */
  lemma NoWatchdogInTheDark(s: State, action: Action)
    requires Nested(s) && Nested(Apply(s, action))
    ensures action.DoCancel? && Enabled(s, action) ==> !Apply(s, action).armed && !Apply(s, action).cancelling
    ensures !s.armed && !s.enabled ==> !Apply(s, action).armed || Apply(s, action).enabled
  {
  }

  /** Over every interleaving, with any bus failures. */
  lemma {:induction false} NestedHolds(s: State, actions: seq<Action>)
    requires Nested(s)
    ensures Nested(Run(s, actions))
    decreases |actions|
  {
    if actions != [] {
      NestedStepKeeps(s, actions[0]);
      NestedHolds(Apply(s, actions[0]), actions[1..]);
    }
  }

  // ---------- what the panel shows ----------

  /** The user's brightness outside fingerprint mode, the sensor's inside it. */
  predicate Shows(s: State)
  {
    if s.fodMode then s.ddic.brightness == FodBrightness && s.ddic.control == FodControl
    else s.ddic.brightness == s.userBrightness && s.ddic.control == NormalControl
  }

  /** Both keys are locked again, and what the driver remembers of the circle and the display is so. */
  predicate Tidy(s: State)
  {
    !s.ddic.level0 && !s.ddic.level2 && s.ddic.circle == s.fodCircle && s.ddic.lit == s.enabled
  }

  predicate Synced(s: State)
  {
    s.prepared ==> Shows(s) && Tidy(s)
  }

  /** No write that matters fails. */
  predicate Successful(action: Action)
  {
    match action
    case DoEnable(bus) => bus.AllSent?
    case DoDisable(circleBus, fodBus, offSent) => CircleWritten(circleBus) && fodBus.AllSent? && offSent
    case SetBacklight(_, sent) => sent
    case SetFodMode(_, circleBus, fodBus, _) => CircleWritten(circleBus) && fodBus.AllSent?
    case SetFodCircle(_, drawBus, _) => CircleWritten(drawBus)
    case Work(circleBus, fodBus) => CircleWritten(circleBus) && fodBus.AllSent?
    case _ => true
  }

  predicate AllSuccessful(actions: seq<Action>)
  {
    forall i :: 0 <= i < |actions| ==> Successful(actions[i])
  }

  lemma CleanupShows(s: State, circleBus: CircleBus, fodBus: Bus)
    requires Shows(s) && Tidy(s) && s.userBrightness <= MaxBrightness
    requires CleanedUp(s, circleBus, fodBus)
    ensures var after := Cleanup(s, circleBus, fodBus);
      Shows(after) && Tidy(after) && !after.fodMode && !after.fodCircle
  {
    var hidden := if s.fodCircle then WriteCircle(s, false, circleBus).(fodCircle := false) else s;
    FodSent(hidden, false, fodBus);
  }

  lemma DisableShows(s: State, circleBus: CircleBus, fodBus: Bus)
    requires Nested(s) && Synced(s) && (s.enabled ==> CleanedUp(s, circleBus, fodBus))
    ensures Synced(Disable(s, circleBus, fodBus, true))
  {
    if s.enabled {
      CleanupShows(s, circleBus, fodBus);
    }
  }

  /** Also when entering fails, provided that normal mode could be restored. */
  lemma StoreFodModeShows(s: State, enable: bool, circleBus: CircleBus, fodBus: Bus, restoreBus: Bus)
    requires Nested(s) && Synced(s)
    requires s.fodMode == enable
             || if enable then FodWritten(true, fodBus) || FodWritten(false, restoreBus)
                else CleanedUp(s, circleBus, fodBus)
    ensures Synced(StoreFodMode(s, enable, circleBus, fodBus, restoreBus))
  {
    if s.enabled && s.fodMode != enable {
      if enable {
        FodSent(s, true, fodBus);
        FodSent(WriteFod(s, true, fodBus), false, restoreBus);
      } else {
        CleanupShows(s, circleBus, fodBus);
      }
    }
  }

  /** Also when drawing fails, provided that the circle could be hidden again. */
  lemma StoreFodCircleShows(s: State, enable: bool, drawBus: CircleBus, hideBus: CircleBus)
    requires Nested(s) && Synced(s)
    requires CircleWritten(drawBus) || (enable && CircleWritten(hideBus)) || s.fodCircle == enable
    ensures Synced(StoreFodCircle(s, enable, drawBus, hideBus))
  {
  }

  lemma SyncedStepKeeps(s: State, action: Action)
    requires Nested(s) && Synced(s) && Successful(action)
    ensures Synced(Apply(s, action))
  {
    match action
    case DoPrepare(_, bus) => RestoreSent(AfterReset(), s.userBrightness, bus);
    case DoEnable(bus) => EnableSent(s.ddic, bus);
    case DoDisable(circleBus, fodBus, _) => DisableShows(s, circleBus, fodBus);
    case SetBacklight(value, _) => BrightnessArrives(s.ddic, UserBrightness(value));
    case SetFodMode(enable, circleBus, fodBus, restoreBus) =>
      StoreFodModeShows(s, enable, circleBus, fodBus, restoreBus);
    case SetFodCircle(enable, drawBus, hideBus) => StoreFodCircleShows(s, enable, drawBus, hideBus);
    case Work(circleBus, fodBus) => if s.enabled { CleanupShows(s, circleBus, fodBus); }
    case _ =>
  }

  /** Over every interleaving with successful writes, wherever backlight updates fall. */
  lemma {:induction false} BrightnessFollows(s: State, actions: seq<Action>)
    requires Nested(s) && Synced(s) && AllSuccessful(actions)
    ensures Synced(Run(s, actions))
    decreases |actions|
  {
    if actions != [] {
      assert Successful(actions[0]);
      NestedStepKeeps(s, actions[0]);
      SyncedStepKeeps(s, actions[0]);
      BrightnessFollows(Apply(s, actions[0]), actions[1..]);
    }
  }

  /** From probe on, every run nests the modes; and with successful writes the panel shows what it should. */
  lemma PanelInterlocks(actions: seq<Action>)
    ensures Nested(Run(Probed(), actions))
    ensures AllSuccessful(actions) ==> Synced(Run(Probed(), actions))
  {
    NestedHolds(Probed(), actions);
    if AllSuccessful(actions) {
      BrightnessFollows(Probed(), actions);
    }
  }

  function LeaveFod(): Action
  {
    SetFodMode(false, CircleBus(true, true, true), AllSent, AllSent)
  }

  /** A brightness set in fingerprint mode is only remembered, and is shown when the mode is left: the panel ends as
      if it had been set afterwards. */
  lemma BrightnessIsDeferred(s: State, value: nat)
    requires Nested(s) && Synced(s) && s.fodMode && !s.cancelling
    ensures var during := Apply(s, SetBacklight(value, true));
      && during.ddic == s.ddic
      && Apply(during, LeaveFod()) == Apply(Apply(s, LeaveFod()), SetBacklight(value, true))
  {
    var during := Apply(s, SetBacklight(value, true));
    LeavingShows(s);
    LeavingShows(during);
    BrightnessArrives(Apply(s, LeaveFod()).ddic, UserBrightness(value));
  }

  lemma LeavingShows(s: State)
    requires s.fodMode && s.prepared && s.enabled && Tidy(s)
    ensures Apply(s, LeaveFod())
         == s.(fodMode := false, fodCircle := false, armed := false,
               ddic := s.ddic.(circle := false, control := NormalControl, brightness := s.userBrightness))
  {
    var hidden := if s.fodCircle then WriteCircle(s, false, CircleBus(true, true, true)).(fodCircle := false) else s;
    FodSent(hidden, false, AllSent);
  }

  // ---------- failing writes ----------

  /** A failed entry into fingerprint mode is undone by the second sequence, wherever the first one broke. */
  lemma FailedEntryIsUndone(s: State, fodBus: Bus, circleBus: CircleBus)
    requires Nested(s) && Synced(s)
    ensures Synced(Apply(s, SetFodMode(true, circleBus, fodBus, AllSent)))
    ensures !s.fodMode && !FodWritten(true, fodBus) ==> Apply(s, SetFodMode(true, circleBus, fodBus, AllSent)) == s
  {
    FodSent(s, true, fodBus);
    FodSent(WriteFod(s, true, fodBus), false, AllSent);
  }

  /** A circle that could not be drawn is hidden again, wherever the drawing broke. */
  lemma FailedCircleIsUndone(s: State, bus: CircleBus)
    requires Nested(s) && Synced(s) && s.fodMode && !s.fodCircle && !CircleWritten(bus)
    ensures Apply(s, SetFodCircle(true, bus, CircleBus(true, true, true))) == s.(armed := true)
  {
  }

  /** Leaving fingerprint mode, exactly: the flag is cleared in any case, but the panel shows the user's brightness
      if and only if control and brightness were both written, or the user's brightness is the sensor's. */
  lemma LeavingFodExactly(s: State, circleBus: CircleBus, fodBus: Bus)
    requires Nested(s) && Synced(s) && s.fodMode
    ensures var after := Cleanup(s, circleBus, fodBus);
      && !after.fodMode
      && (Shows(after) <==> Sent(fodBus, 2) || (Sent(fodBus, 1) && s.userBrightness == FodBrightness))
  {
    var hidden := if s.fodCircle then WriteCircle(s, false, circleBus).(fodCircle := false) else s;
    FodSent(hidden, false, fodBus);
  }

  /** For example, when the level key cannot be sent: the panel stays at the sensor's brightness and nothing
      remains queued to repair it. */
  lemma FailedExitStaysBright(s: State, circleBus: CircleBus)
    requires Nested(s) && Synced(s) && s.fodMode && !s.firing && s.userBrightness != FodBrightness
    ensures var after := Apply(s, SetFodMode(false, circleBus, FailsAt(0), AllSent));
      after.ddic.brightness == FodBrightness && !after.fodMode && !after.armed && !Shows(after)
  {
    LeavingFodExactly(s, circleBus, FailsAt(0));
    var hidden := if s.fodCircle then WriteCircle(s, false, circleBus).(fodCircle := false) else s;
    FodSent(hidden, false, FailsAt(0));
  }
}
