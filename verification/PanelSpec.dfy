/** kernel/files/panel-samsung-ana38407.c: the panel's lifetime, its brightness and the fingerprint mode. Every
    entry point runs under one mutex; only firing and cancelling the watchdog happen outside it. A DSI sequence
    may fail at any of its writes. */
module PanelSpec {
  const MaxBrightness := 0x7FF
  const FodBrightness := 1623
  const FodControl := 0xE0
  const NormalControl := 0x28

  // ---------- the panel at the other end of the link ----------

  /** Level0 and Level2 are the register keys 0xF0 and 0xF1, Control is 0x53, Brightness 0x51 with its two bytes,
      Circle the layer 0x7A. Other stands for registers outside the model. */
  datatype Write =
    | Level0(open: bool)
    | Level2(open: bool)
    | Control(value: nat)
    | Brightness(hi: nat, lo: nat)
    | Circle(shown: bool)
    | Display(on: bool)
    | Other

  datatype Ddic = Ddic(brightness: nat, control: nat, level0: bool, level2: bool, circle: bool, lit: bool)

  function AfterReset(): Ddic
  {
    Ddic(0, 0, false, false, false, false)
  }

  function Receive(d: Ddic, w: Write): Ddic
  {
    match w
    case Level0(open) => d.(level0 := open)
    case Level2(open) => d.(level2 := open)
    case Control(value) => d.(control := value)
    case Brightness(hi, lo) => d.(brightness := 256 * hi + lo)
    case Circle(shown) => d.(circle := shown)
    case Display(on) => d.(lit := on)
    case Other => d
  }

  /** The fate of a DSI sequence with an accumulated error: after the first failing write nothing more is sent. */
  datatype Bus = AllSent | FailsAt(write: nat)

  predicate Sent(bus: Bus, write: nat)
  {
    bus.AllSent? || write < bus.write
  }

  function Later(bus: Bus): Bus
  {
    if bus.AllSent? || bus.write == 0 then bus else FailsAt(bus.write - 1)
  }

  function Send(d: Ddic, writes: seq<Write>, bus: Bus): Ddic
    decreases |writes|
  {
    if writes == [] || !Sent(bus, 0) then d else Send(Receive(d, writes[0]), writes[1..], Later(bus))
  }

  lemma SendCons(d: Ddic, w: Write, rest: seq<Write>, bus: Bus)
    ensures Send(d, [w] + rest, bus) == if Sent(bus, 0) then Send(Receive(d, w), rest, Later(bus)) else d
  {
    assert ([w] + rest)[1..] == rest;
  }

  lemma {:induction false} SendSnoc(d: Ddic, writes: seq<Write>, w: Write, bus: Bus)
    ensures Send(d, writes + [w], bus)
         == if Sent(bus, |writes|) then Receive(Send(d, writes, bus), w) else Send(d, writes, bus)
    decreases |writes|
  {
    if writes == [] {
      assert writes + [w] == [w] + [];
      SendCons(d, w, [], bus);
    } else if Sent(bus, 0) {
      assert (writes + [w])[1..] == writes[1..] + [w];
      SendSnoc(Receive(d, writes[0]), writes[1..], w, Later(bus));
    }
  }

  // ---------- the driver's sequences ----------

  function SetBrightness(value: nat): Write
  {
    Brightness(value / 256, value % 256)
  }

  lemma BrightnessArrives(d: Ddic, value: nat)
    ensures Receive(d, SetBrightness(value)) == d.(brightness := value)
  {
  }

  function FodSequence(enable: bool, user: nat): seq<Write>
  {
    if enable then
      [Level0(true), Control(FodControl), SetBrightness(FodBrightness), Other, Other, Level0(false)]
    else
      [Level0(true), Control(NormalControl), SetBrightness(user), Level0(false)]
  }

  /** The part of the power-on sequence that sets the brightness; the rest writes other registers and locks the keys
      it opens. */
  function OnSequence(user: nat): seq<Write>
  {
    FodSequence(false, user)
  }

  function EnableSequence(): seq<Write>
  {
    [Level0(true), Display(true), Level0(false)]
  }

  /** What a key holds after a sequence that opens it first and locks it last. */
  function KeyAfter(before: bool, bus: Bus, last: nat): bool
  {
    if Sent(bus, last) then false else Sent(bus, 0) || before
  }

  function Opening(control: nat, brightness: nat): seq<Write>
  {
    [Level0(true), Control(control), SetBrightness(brightness)]
  }

  lemma OpeningSent(d: Ddic, control: nat, brightness: nat, bus: Bus)
    ensures Send(d, Opening(control, brightness), bus)
         == d.(level0 := Sent(bus, 0) || d.level0, control := if Sent(bus, 1) then control else d.control,
               brightness := if Sent(bus, 2) then brightness else d.brightness)
  {
    var c, b := Control(control), SetBrightness(brightness);
    SendSnoc(d, [], Level0(true), bus);
    SendSnoc(d, [Level0(true)], c, bus);
    SendSnoc(d, [Level0(true), c], b, bus);
    assert [] + [Level0(true)] == [Level0(true)];
    assert [Level0(true)] + [c] == [Level0(true), c];
    assert [Level0(true), c] + [b] == Opening(control, brightness);
    BrightnessArrives(Send(d, [Level0(true), c], bus), brightness);
  }

  lemma RestoreSent(d: Ddic, user: nat, bus: Bus)
    ensures Send(d, FodSequence(false, user), bus)
         == d.(control := if Sent(bus, 1) then NormalControl else d.control,
               brightness := if Sent(bus, 2) then user else d.brightness,
               level0 := KeyAfter(d.level0, bus, 3))
  {
    var opening := Opening(NormalControl, user);
    OpeningSent(d, NormalControl, user, bus);
    SendSnoc(d, opening, Level0(false), bus);
    assert opening + [Level0(false)] == FodSequence(false, user);
  }

  lemma EnterSent(d: Ddic, user: nat, bus: Bus)
    ensures Send(d, FodSequence(true, user), bus)
         == d.(control := if Sent(bus, 1) then FodControl else d.control,
               brightness := if Sent(bus, 2) then FodBrightness else d.brightness,
               level0 := KeyAfter(d.level0, bus, 5))
  {
    var opening := Opening(FodControl, FodBrightness);
    OpeningSent(d, FodControl, FodBrightness, bus);
    SendSnoc(d, opening, Other, bus);
    SendSnoc(d, opening + [Other], Other, bus);
    SendSnoc(d, opening + [Other] + [Other], Level0(false), bus);
    assert opening + [Other] + [Other] + [Level0(false)] == FodSequence(true, user);
  }

  lemma EnableSent(d: Ddic, bus: Bus)
    ensures Send(d, EnableSequence(), bus)
         == d.(lit := Sent(bus, 1) || d.lit, level0 := KeyAfter(d.level0, bus, 2))
  {
    SendSnoc(d, [], Level0(true), bus);
    SendSnoc(d, [Level0(true)], Display(true), bus);
    SendSnoc(d, [Level0(true), Display(true)], Level0(false), bus);
    assert [] + [Level0(true)] == [Level0(true)];
  }

  /** The circle is written by three separate transfers; the key is locked in any case. */
  datatype CircleBus = CircleBus(unlockSent: bool, circleSent: bool, lockSent: bool)

  predicate CircleWritten(bus: CircleBus)
  {
    bus.unlockSent && bus.circleSent && bus.lockSent
  }

  function SendCircle(d: Ddic, shown: bool, bus: CircleBus): Ddic
  {
    var unlocked := if bus.unlockSent then Receive(d, Level2(true)) else d;
    var drawn := if bus.unlockSent && bus.circleSent then Receive(unlocked, Circle(shown)) else unlocked;
    if bus.lockSent then Receive(drawn, Level2(false)) else drawn
  }

  // ---------- the driver ----------

  /** armed: the watchdog is queued; firing: it has left the queue and waits for the mutex. cancelling: a DRM
      callback has released the mutex and is about to cancel the watchdog. */
  datatype State = State(userBrightness: nat, prepared: bool, enabled: bool, fodMode: bool, fodCircle: bool,
                         ddic: Ddic, armed: bool, firing: bool, cancelling: bool)

  predicate FodWritten(enable: bool, bus: Bus)
  {
    Sent(bus, if enable then 5 else 3)
  }

  function WriteFod(s: State, enable: bool, bus: Bus): State
  {
    s.(ddic := Send(s.ddic, FodSequence(enable, s.userBrightness), bus))
  }

  function WriteCircle(s: State, shown: bool, bus: CircleBus): State
  {
    s.(ddic := SendCircle(s.ddic, shown, bus))
  }

  function Cleanup(s: State, circleBus: CircleBus, fodBus: Bus): State
  {
    var s := if s.fodCircle then WriteCircle(s, false, circleBus).(fodCircle := false) else s;
    if s.fodMode then WriteFod(s, false, fodBus).(fodMode := false) else s
  }

  predicate CleanedUp(s: State, circleBus: CircleBus, fodBus: Bus)
  {
    (s.fodCircle ==> CircleWritten(circleBus)) && (s.fodMode ==> FodWritten(false, fodBus))
  }

  /** powerOk: the rails came up. A failing sequence powers the panel down again. */
  function Prepare(s: State, powerOk: bool, bus: Bus): State
  {
    if s.prepared || !powerOk then s
    else if Sent(bus, 3) then s.(prepared := true, ddic := Send(AfterReset(), OnSequence(s.userBrightness), bus))
    else s.(ddic := AfterReset())
  }

  function Enable(s: State, bus: Bus): State
  {
    if s.prepared && !s.enabled then
      s.(enabled := Sent(bus, 2), ddic := Send(s.ddic, EnableSequence(), bus))
    else s
  }

  function Disable(s: State, circleBus: CircleBus, fodBus: Bus, offSent: bool): State
  {
    var s := if s.enabled then
               var cleaned := Cleanup(s, circleBus, fodBus).(enabled := false);
               if offSent then cleaned.(ddic := Receive(cleaned.ddic, Display(false))) else cleaned
             else s;
    s.(cancelling := true)
  }

  /** Power goes in any case, and with it everything the panel was told. */
  function Unprepare(s: State, circleBus: CircleBus, fodBus: Bus): State
  {
    var s := if s.prepared then
               Cleanup(s, circleBus, fodBus).(enabled := false, prepared := false, ddic := AfterReset())
             else s;
    s.(cancelling := true)
  }

  /** cancel_delayed_work_sync, after the mutex has been released. */
  function CancelWatchdog(s: State): State
  {
    s.(armed := false, cancelling := false)
  }

  function UserBrightness(value: nat): nat
  {
    var truncated := value % 0x1_0000;
    if truncated < MaxBrightness then truncated else MaxBrightness
  }

  function UpdateBacklight(s: State, value: nat, sent: bool): State
  {
    var s := s.(userBrightness := UserBrightness(value));
    if s.prepared && !s.fodMode && sent then s.(ddic := Receive(s.ddic, SetBrightness(s.userBrightness))) else s
  }

  function UpdateWatchdog(s: State): State
  {
    s.(armed := s.fodMode || s.fodCircle)
  }

  function StoreFodMode(s: State, enable: bool, circleBus: CircleBus, fodBus: Bus, restoreBus: Bus): State
  {
    if !s.prepared || !s.enabled then s
    else if s.fodMode == enable then UpdateWatchdog(s)
    else if enable then
      var written := WriteFod(s, true, fodBus);
      if FodWritten(true, fodBus) then UpdateWatchdog(written.(fodMode := true)) else WriteFod(written, false, restoreBus)
    else UpdateWatchdog(Cleanup(s, circleBus, fodBus))
  }

  /** A circle that could not be drawn is hidden again. */
  function StoreFodCircle(s: State, enable: bool, bus: CircleBus, hideBus: CircleBus): State
  {
    if !s.prepared || !s.enabled || (enable && !s.fodMode) then s
    else if s.fodCircle == enable then UpdateWatchdog(s)
    else
      var written := WriteCircle(s, enable, bus);
      if CircleWritten(bus) then UpdateWatchdog(written.(fodCircle := enable))
      else UpdateWatchdog(if enable then WriteCircle(written, false, hideBus) else written)
  }

  function WatchdogFires(s: State): State
  {
    s.(armed := false, firing := true)
  }

  function WatchdogWork(s: State, circleBus: CircleBus, fodBus: Bus): State
  {
    var s := if s.prepared && s.enabled then Cleanup(s, circleBus, fodBus)
             else s.(fodCircle := false, fodMode := false);
    s.(firing := false)
  }

  // ---------- what was written ----------

  /** The brightness asked for, cut to sixteen bits and then to the panel's maximum. */
  lemma UserBrightnessExactly(value: nat, kept: nat)
    requires kept < 0x1_0000 && (value - kept) % 0x1_0000 == 0
    ensures UserBrightness(value) == kept || (UserBrightness(value) == 2047 && kept > 2047)
    ensures kept <= 2047 ==> UserBrightness(value) == kept
  {
  }

  /** The circle is as asked exactly if key and circle went out; the key stays open exactly if it was opened, or was
      open, and could not be locked. */
  lemma CircleSentExactly(d: Ddic, shown: bool, bus: CircleBus)
    ensures SendCircle(d, shown, bus)
         == d.(circle := if bus.unlockSent && bus.circleSent then shown else d.circle,
               level2 := !bus.lockSent && (bus.unlockSent || d.level2))
  {
  }

  /** What fingerprint mode sets, and what leaving it sets. */
  lemma FodRegisters(d: Ddic, user: nat)
    ensures var on := Send(d, FodSequence(true, user), AllSent);
      on.control == 0xE0 && on.brightness == 1623 && !on.level0
    ensures var off := Send(d, FodSequence(false, user), AllSent);
      off.control == 0x28 && off.brightness == user && !off.level0
  {
    EnterSent(d, user, AllSent);
    RestoreSent(d, user, AllSent);
  }

  /** Both modes follow their switches exactly in a lit panel, the circle only within fingerprint mode; either is entered
      only if its writes went out, and fingerprint mode is left whatever fails. */
  lemma ModesExactly(s: State, enable: bool, bus: CircleBus, fodBus: Bus, otherBus: Bus, hideBus: CircleBus)
    ensures var lit := s.prepared && s.enabled;
      && StoreFodMode(s, enable, bus, fodBus, otherBus).fodMode
         == (if !lit then s.fodMode else enable && (s.fodMode || FodWritten(true, fodBus)))
      && StoreFodCircle(s, enable, bus, hideBus).fodCircle
         == (if !lit || (enable && !s.fodMode) || !CircleWritten(bus) then s.fodCircle else enable)
  {
  }

  /** The watchdog leaves its queue when it fires, and leaves both modes when it runs. */
  lemma WatchdogExactly(s: State, circleBus: CircleBus, fodBus: Bus)
    ensures !WatchdogFires(s).armed && WatchdogFires(s).firing
    ensures var done := WatchdogWork(s, circleBus, fodBus);
      && !done.fodMode && !done.fodCircle && !done.firing
      && (s.prepared && s.enabled && s.fodMode && fodBus.AllSent? ==> done.ddic.brightness == s.userBrightness)
  {
    FodSent(Cleanup(s.(fodMode := false), circleBus, fodBus), false, fodBus);
  }

  /** The panel comes up exactly if the rails did and its last write went out; otherwise it has no power. */
  lemma PrepareExactly(s: State, powerOk: bool, bus: Bus)
    ensures Prepare(s, powerOk, bus).prepared <==> s.prepared || (powerOk && Sent(bus, 3))
    ensures !s.prepared && powerOk && !Sent(bus, 3) ==> Prepare(s, powerOk, bus).ddic == AfterReset()
    ensures s.prepared ==> Prepare(s, powerOk, bus) == s
  {
  }

  /** It lights up exactly if it is up and the sequence went out; a sequence that broke counts as dark. */
  lemma EnableExactly(s: State, bus: Bus)
    ensures Enable(s, bus).enabled <==> s.enabled || (s.prepared && Sent(bus, 2))
    ensures Enable(s, bus).prepared == s.prepared && (s.enabled ==> Enable(s, bus) == s)
  {
  }

  /** Turned off, it counts as dark whatever fails, and is dark if the last write went out; the watchdog is about to be
      cancelled. */
  lemma DisableExactly(s: State, circleBus: CircleBus, fodBus: Bus, offSent: bool)
    ensures var off := Disable(s, circleBus, fodBus, offSent);
      && !off.enabled && off.cancelling && off.prepared == s.prepared && off.armed == s.armed
      && (s.enabled ==> off.ddic.lit == (Cleanup(s, circleBus, fodBus).ddic.lit && !offSent))
  {
  }

  /** Without power it is neither up nor lit, and every register is as after a reset. */
  lemma UnprepareExactly(s: State, circleBus: CircleBus, fodBus: Bus)
    ensures var down := Unprepare(s, circleBus, fodBus);
      && !down.prepared && down.cancelling && down.armed == s.armed
      && (s.prepared ==> !down.enabled && down.ddic == Ddic(0, 0, false, false, false, false))
  {
  }

  lemma FodSent(s: State, enable: bool, bus: Bus)
    ensures WriteFod(s, enable, bus)
         == s.(ddic := s.ddic.(control := if !Sent(bus, 1) then s.ddic.control
                                          else if enable then FodControl else NormalControl,
                               brightness := if !Sent(bus, 2) then s.ddic.brightness
                                             else if enable then FodBrightness else s.userBrightness,
                               level0 := KeyAfter(s.ddic.level0, bus, if enable then 5 else 3)))
  {
    if enable {
      EnterSent(s.ddic, s.userBrightness, bus);
    } else {
      RestoreSent(s.ddic, s.userBrightness, bus);
    }
  }

  /** The key that was opened stays open exactly if the sequence broke after opening it. */
  lemma KeyLeftOpenExactly(s: State, enable: bool, bus: Bus)
    requires !s.ddic.level0
    ensures WriteFod(s, enable, bus).ddic.level0 <==> Sent(bus, 0) && !FodWritten(enable, bus)
  {
    FodSent(s, enable, bus);
  }
}
