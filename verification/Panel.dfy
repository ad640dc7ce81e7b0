/** The driver object, the panel behind its DSI link, and the context that accumulates a sequence's first error. */
module Panel {
  import opened PanelRuns
  import opened PanelSpec

  class DsiDevice {
    var ddic: Ddic

    constructor ()
      ensures ddic == AfterReset()
    {
      ddic := AfterReset();
    }
  }

  /** One sequence: once a write has failed the rest is skipped. */
  class DsiContext {
    const dsi: DsiDevice
    const bus: Bus
    var accumErr: bool
    var attempts: nat
    ghost const start: Ddic
    ghost var sequence: seq<Write>

    ghost predicate Valid()
      reads this, dsi
    {
      && dsi.ddic == Send(start, sequence, bus)
      && (accumErr <==> |sequence| > 0 && !Sent(bus, |sequence| - 1))
      && (!accumErr ==> attempts == |sequence|)
    }

    constructor (dsi: DsiDevice, bus: Bus)
      ensures Valid() && this.dsi == dsi && this.bus == bus && start == dsi.ddic && sequence == []
    {
      this.dsi, this.bus := dsi, bus;
      accumErr, attempts := false, 0;
      start, sequence := dsi.ddic, [];
    }

    method WriteSeq(w: Write)
      requires Valid()
      modifies this, dsi
      ensures Valid() && sequence == old(sequence) + [w]
    {
      SendSnoc(start, sequence, w, bus);
      if !accumErr {
        if Sent(bus, attempts) {
          dsi.ddic := Receive(dsi.ddic, w);
          attempts := attempts + 1;
        } else {
          accumErr := true;
        }
      }
      sequence := sequence + [w];
    }
  }

  class Ana38407 {
    const dsi: DsiDevice
    var userBrightness: nat
    var prepared: bool
    var enabled: bool
    var fodMode: bool
    var fodCircle: bool
    var armed: bool
    var firing: bool
    var cancelling: bool

    ghost function View(): State
      reads this, dsi
    {
      State(userBrightness, prepared, enabled, fodMode, fodCircle, dsi.ddic, armed, firing, cancelling)
    }

    ghost predicate Valid()
      reads this, dsi
    {
      Nested(View())
    }

    constructor ()
      ensures Valid() && fresh(dsi) && View() == Probed()
    {
      dsi := new DsiDevice();
      userBrightness := MaxBrightness;
      prepared, enabled, fodMode, fodCircle, armed, firing, cancelling := false, false, false, false, false, false, false;
    }

    /** Level key, control, brightness, for the sensor also two tuning writes, level key. */
    method SendFod(c: DsiContext, enable: bool)
      requires c.Valid() && c.sequence == []
      modifies c, c.dsi
      ensures c.Valid() && c.sequence == FodSequence(enable, userBrightness)
    {
      c.WriteSeq(Level0(true));
      if enable {
        c.WriteSeq(Control(FodControl));
        c.WriteSeq(SetBrightness(FodBrightness));
        c.WriteSeq(Other);
        c.WriteSeq(Other);
      } else {
        c.WriteSeq(Control(NormalControl));
        c.WriteSeq(SetBrightness(userBrightness));
      }
      c.WriteSeq(Level0(false));
    }

    method WriteFod(enable: bool, bus: Bus) returns (ok: bool)
      requires Valid() && prepared
      modifies dsi
      ensures Valid() && View() == PanelSpec.WriteFod(old(View()), enable, bus)
      ensures ok <==> FodWritten(enable, bus)
      ensures ok ==> dsi.ddic.brightness == (if enable then FodBrightness else userBrightness) && !dsi.ddic.level0
      ensures ok ==> dsi.ddic.control == if enable then FodControl else NormalControl
    {
      var c := new DsiContext(dsi, bus);
      SendFod(c, enable);
      ok := !c.accumErr;
      FodSent(old(View()), enable, bus);
    }

    method WriteFodCircle(shown: bool, bus: CircleBus) returns (ok: bool)
      requires Valid() && prepared
      modifies dsi
      ensures Valid() && View() == PanelSpec.WriteCircle(old(View()), shown, bus)
      ensures ok <==> CircleWritten(bus)
      ensures ok ==> dsi.ddic == old(dsi.ddic).(circle := shown, level2 := false)
    {
      ok := bus.unlockSent;
      if ok {
        dsi.ddic := Receive(dsi.ddic, Level2(true));
        ok := bus.circleSent;
        if ok {
          dsi.ddic := Receive(dsi.ddic, Circle(shown));
        }
      }
      if bus.lockSent {
        dsi.ddic := Receive(dsi.ddic, Level2(false));
      }
      ok := ok && bus.lockSent;
    }

    /** The flags go whatever fails; what the panel shows follows if nothing does. */
    method Cleanup(circleBus: CircleBus, fodBus: Bus) returns (ok: bool)
      requires Valid() && prepared
      modifies this`fodMode, this`fodCircle, dsi
      ensures Valid() && View() == PanelSpec.Cleanup(old(View()), circleBus, fodBus)
      ensures !fodMode && !fodCircle
      ensures ok <==> old(CleanedUp(View(), circleBus, fodBus))
      ensures ok && old(Synced(View())) ==> Synced(View())
    {
      ghost var s := View();
      var hidden, written := true, true;
      if fodCircle {
        hidden := WriteFodCircle(false, circleBus);
        fodCircle := false;
      }
      if fodMode {
        written := WriteFod(false, fodBus);
        fodMode := false;
      }
      ok := hidden && written;
      if ok && Synced(s) {
        CleanupShows(s, circleBus, fodBus);
      }
    }

    /** After success the panel shows the user's brightness, dark until it is enabled, with its keys locked. */
    method Prepare(powerOk: bool, bus: Bus) returns (ok: bool)
      requires Valid()
      modifies this`prepared, dsi
      ensures Valid() && View() == PanelSpec.Prepare(old(View()), powerOk, bus)
      ensures ok <==> prepared
      ensures old(Synced(View())) ==> Synced(View())
    {
      if prepared {
        return true;
      }
      if !powerOk {
        return false;
      }
      dsi.ddic := AfterReset();
      var c := new DsiContext(dsi, bus);
      SendFod(c, false);
      ok := !c.accumErr;
      if !ok {
        dsi.ddic := AfterReset();
        return;
      }
      prepared := true;
      RestoreSent(AfterReset(), userBrightness, bus);
    }

    method Enable(bus: Bus) returns (ok: bool)
      requires Valid() && !cancelling
      modifies this`enabled, dsi
      ensures Valid() && View() == PanelSpec.Enable(old(View()), bus)
      ensures ok <==> enabled
      ensures ok && old(Synced(View())) ==> Synced(View())
    {
      if !prepared || enabled {
        return enabled;
      }
      var c := new DsiContext(dsi, bus);
      c.WriteSeq(Level0(true));
      c.WriteSeq(Display(true));
      c.WriteSeq(Level0(false));
      assert c.sequence == EnableSequence();
      EnableSent(old(dsi.ddic), bus);
      ok := !c.accumErr;
      enabled := ok;
    }

    method DisableLocked(circleBus: CircleBus, fodBus: Bus, offSent: bool) returns (ok: bool)
      requires Valid() && enabled
      modifies this`enabled, this`fodMode, this`fodCircle, dsi
      ensures View().(cancelling := true) == PanelSpec.Disable(old(View()), circleBus, fodBus, offSent)
      ensures cancelling == old(cancelling)
      ensures ok <==> offSent && old(CleanedUp(View(), circleBus, fodBus))
    {
      ok := Cleanup(circleBus, fodBus);
      if offSent {
        dsi.ddic := Receive(dsi.ddic, Display(false));
      }
      ok := ok && offSent;
      enabled := false;
    }

    /** The display counts as off whatever fails; the watchdog is cancelled after the mutex is released. */
    method Disable(circleBus: CircleBus, fodBus: Bus, offSent: bool) returns (ok: bool)
      requires Valid() && !cancelling
      modifies this`enabled, this`fodMode, this`fodCircle, this`cancelling, dsi
      ensures Valid() && View() == PanelSpec.Disable(old(View()), circleBus, fodBus, offSent)
      ensures !enabled && !fodMode && !fodCircle
      ensures ok <==> (old(enabled) ==> offSent && old(CleanedUp(View(), circleBus, fodBus)))
      ensures ok && old(Synced(View())) ==> Synced(View())
    {
      ghost var s := View();
      ok := true;
      if enabled {
        ok := DisableLocked(circleBus, fodBus, offSent);
      }
      cancelling := true;
      NestedStepKeeps(s, DoDisable(circleBus, fodBus, offSent));
      if Synced(s) && (s.enabled ==> CleanedUp(s, circleBus, fodBus)) {
        DisableShows(s, circleBus, fodBus);
      }
    }

    method Unprepare(circleBus: CircleBus, fodBus: Bus, sleepSent: bool) returns (ok: bool)
      requires Valid()
      modifies this`prepared, this`enabled, this`fodMode, this`fodCircle, this`cancelling, dsi
      ensures Valid() && View() == PanelSpec.Unprepare(old(View()), circleBus, fodBus)
      ensures !prepared && !fodMode && dsi.ddic == AfterReset()
    {
      ok := true;
      if prepared {
        ok := Cleanup(circleBus, fodBus);
        if sleepSent {
          dsi.ddic := Receive(dsi.ddic, Other);
        }
        ok := ok && sleepSent;
        enabled := false;
        prepared := false;
        dsi.ddic := AfterReset();
      }
      cancelling := true;
    }

    /** Returns only when no watchdog is queued or running. */
    method CancelWatchdog()
      requires Valid() && cancelling && !firing
      modifies this`armed, this`cancelling
      ensures Valid() && View() == PanelSpec.CancelWatchdog(old(View()))
    {
      armed := false;
      cancelling := false;
    }

    /** In fingerprint mode the value is only remembered. */
    method UpdateBacklight(value: nat, sent: bool) returns (ok: bool)
      requires Valid()
      modifies this`userBrightness, dsi
      ensures Valid() && View() == PanelSpec.UpdateBacklight(old(View()), value, sent)
      ensures ok && old(Synced(View())) ==> Synced(View())
      ensures fodMode || !ok ==> dsi.ddic == old(dsi.ddic)
    {
      userBrightness := UserBrightness(value);
      ok := true;
      if prepared && !fodMode {
        ok := sent;
        if sent {
          dsi.ddic := Receive(dsi.ddic, Brightness(userBrightness / 256, userBrightness % 256));
        }
      }
    }

    method UpdateWatchdog()
      modifies this`armed
      ensures View() == PanelSpec.UpdateWatchdog(old(View()))
    {
      armed := fodMode || fodCircle;
    }

    /** A sequence that fails is followed by the one that restores normal mode. */
    method EnterFod(fodBus: Bus, restoreBus: Bus) returns (ok: bool)
      requires Nested(View()) && enabled && !fodMode
      modifies this`fodMode, dsi
      ensures fodMode <==> ok
      ensures ok <==> FodWritten(true, fodBus)
      ensures View() == var written := PanelSpec.WriteFod(old(View()), true, fodBus);
                        if ok then written.(fodMode := true) else PanelSpec.WriteFod(written, false, restoreBus)
    {
      ok := WriteFod(true, fodBus);
      if ok {
        fodMode := true;
      } else {
        var _ := WriteFod(false, restoreBus);
      }
    }

    predicate FodModeStored(enable: bool, circleBus: CircleBus, fodBus: Bus)
      reads this
    {
      && prepared && enabled
      && (fodMode == enable
          || if enable then FodWritten(true, fodBus)
             else (fodCircle ==> CircleWritten(circleBus)) && FodWritten(false, fodBus))
    }

    method StoreFodModeLocked(enable: bool, circleBus: CircleBus, fodBus: Bus, restoreBus: Bus) returns (ok: bool)
      requires Valid()
      modifies this`fodMode, this`fodCircle, this`armed, dsi
      ensures View() == PanelSpec.StoreFodMode(old(View()), enable, circleBus, fodBus, restoreBus)
      ensures ok <==> old(FodModeStored(enable, circleBus, fodBus))
    {
      if !prepared || !enabled {
        return false;
      }
      if fodMode == enable {
        UpdateWatchdog();
        return true;
      }
      if enable {
        ok := EnterFod(fodBus, restoreBus);
        if ok {
          UpdateWatchdog();
        }
      } else {
        ok := Cleanup(circleBus, fodBus);
        UpdateWatchdog();
      }
    }

    /** Entering that fails and is undone leaves the panel showing what it should, too. */
    method StoreFodMode(enable: bool, circleBus: CircleBus, fodBus: Bus, restoreBus: Bus) returns (ok: bool)
      requires Valid()
      modifies this`fodMode, this`fodCircle, this`armed, dsi
      ensures Valid() && View() == PanelSpec.StoreFodMode(old(View()), enable, circleBus, fodBus, restoreBus)
      ensures ok <==> old(FodModeStored(enable, circleBus, fodBus))
      ensures (ok || (enable && FodWritten(false, restoreBus))) && old(Synced(View())) ==> Synced(View())
    {
      ghost var s := View();
      ok := StoreFodModeLocked(enable, circleBus, fodBus, restoreBus);
      NestedStepKeeps(s, SetFodMode(enable, circleBus, fodBus, restoreBus));
      if Synced(s) && (ok || (enable && FodWritten(false, restoreBus))) {
        StoreFodModeShows(s, enable, circleBus, fodBus, restoreBus);
      }
    }

    /** A circle that could not be drawn is hidden again. */
    method SwitchCircle(enable: bool, drawBus: CircleBus, hideBus: CircleBus) returns (ok: bool)
      requires Valid() && enabled && (enable ==> fodMode)
      modifies this`fodCircle, dsi
      ensures ok <==> CircleWritten(drawBus)
      ensures View() == var written := PanelSpec.WriteCircle(old(View()), enable, drawBus);
                        if ok then written.(fodCircle := enable)
                        else if enable then PanelSpec.WriteCircle(written, false, hideBus) else written
    {
      ok := WriteFodCircle(enable, drawBus);
      if ok {
        fodCircle := enable;
      } else if enable {
        var _ := WriteFodCircle(false, hideBus);
      }
    }

    method StoreFodCircleLocked(enable: bool, drawBus: CircleBus, hideBus: CircleBus) returns (ok: bool)
      requires Valid()
      modifies this`fodCircle, this`armed, dsi
      ensures View() == PanelSpec.StoreFodCircle(old(View()), enable, drawBus, hideBus)
      ensures ok <==> enabled && (enable ==> fodMode) && (old(fodCircle) == enable || CircleWritten(drawBus))
    {
      if !prepared || !enabled || (enable && !fodMode) {
        return false;
      }
      if fodCircle == enable {
        UpdateWatchdog();
        return true;
      }
      ok := SwitchCircle(enable, drawBus, hideBus);
      UpdateWatchdog();
    }

    /** A circle that cannot be drawn and is hidden again leaves the panel showing what it should, too. */
    method StoreFodCircle(enable: bool, drawBus: CircleBus, hideBus: CircleBus) returns (ok: bool)
      requires Valid()
      modifies this`fodCircle, this`armed, dsi
      ensures Valid() && View() == PanelSpec.StoreFodCircle(old(View()), enable, drawBus, hideBus)
      ensures ok <==> enabled && (enable ==> fodMode) && (old(fodCircle) == enable || CircleWritten(drawBus))
      ensures (ok || (enable && CircleWritten(hideBus))) && old(Synced(View())) ==> Synced(View())
    {
      ghost var s := View();
      ok := StoreFodCircleLocked(enable, drawBus, hideBus);
      NestedStepKeeps(s, SetFodCircle(enable, drawBus, hideBus));
      if Synced(s) && (ok || (enable && CircleWritten(hideBus))) {
        StoreFodCircleShows(s, enable, drawBus, hideBus);
      }
    }

    method WatchdogWork(circleBus: CircleBus, fodBus: Bus) returns (ok: bool)
      requires Valid() && firing
      modifies this`fodMode, this`fodCircle, this`firing, dsi
      ensures Valid() && View() == PanelSpec.WatchdogWork(old(View()), circleBus, fodBus)
      ensures !fodMode && !fodCircle && (ok && old(Synced(View())) ==> Synced(View()))
    {
      ok := true;
      if prepared && enabled {
        ok := Cleanup(circleBus, fodBus);
      } else {
        fodCircle := false;
        fodMode := false;
      }
      firing := false;
    }
  }
}
