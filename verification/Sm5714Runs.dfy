/** What every interleaving keeps, and exactly which steps can break the thermal interlocks. */
module Sm5714Runs {
  import opened Options
  import opened Sm5714Spec

  function Booted(q4: bool, direct: bool): State
  {
    State(q4, false, false, direct, Normal, Free, Idle, false)
  }

  // ---------- OTG ----------

  /** Q4 is open from before the boost starts until after it has stopped, and outside the critical sections the
      boost runs exactly while otg_active is set. */
  predicate OtgInterlock(s: State)
  {
    && (s.boost ==> !s.q4)
    && (s.otg ==> !s.q4)
    && (s.holder == OtgOpened || s.holder == OtgBoosted || s.holder == OtgUnboosted ==> !s.q4)
    && (s.holder == Free ==> (s.boost <==> s.otg))
    && (Configures(s.holder) ==> !s.boost && !s.otg)
    && (s.holder == OtgOpened ==> !s.boost && !s.otg)
    && (s.holder == OtgBoosted ==> s.boost && !s.otg)
    && (s.holder == OtgUnboosted ==> !s.boost && s.otg)
    && (s.poll == Configuring <==> Configures(s.holder) && s.holder.own)
  }

  lemma OtgStepKeeps(s: State, step: Step)
    requires OtgInterlock(s)
    ensures OtgInterlock(Apply(s, step))
  {
  }

  /** OTG interlock over every interleaving, whatever reads fail. */
  lemma {:induction false} OtgInterlockHolds(s: State, steps: seq<Step>)
    requires OtgInterlock(s)
    ensures OtgInterlock(Run(s, steps))
    decreases |steps|
  {
    if steps != [] {
      OtgStepKeeps(s, steps[0]);
      OtgInterlockHolds(Apply(s, steps[0]), steps[1..]);
    }
  }

  // ---------- thermal stop ----------

  /** The lock holder has made up its mind to close Q4. */
  predicate WillClose(holder: Holder)
  {
    (holder.Decided? && holder.local != Stop) || holder.Closing?
  }

  predicate Exposed(s: State)
  {
    s.thermal == Stop && (s.q4 || WillClose(s.holder))
  }

  /** The poll thread is about to configure charging because of a thermal change. */
  predicate PollPending(s: State)
  {
    s.poll == FollowUp || (s.poll.Stored? && s.poll.before != Stop)
  }

  /** Somebody is about to open Q4: the poll thread's follow-up, under way or to come, or a lock holder whose own
      sample said "stop". */
  predicate Pending(s: State)
  {
    || PollPending(s)
    || (s.holder.Decided? && s.holder.local == Stop)
    || (Configures(s.holder) && s.holder.own && !s.holder.Decided? && !s.holder.Closing?)
  }

  /** A battery that is too hot is cut off, or about to be. */
  predicate StopInterlock(s: State)
  {
    Exposed(s) ==> Pending(s)
  }

  /** While the poll thread configures, nobody else writes the thermal state: what it has read is still true. */
  predicate OwnCopyAgrees(s: State)
  {
    Configures(s.holder) && s.holder.own ==>
      && ((s.holder.Loaded? || s.holder.Decided? || s.holder.Closing?) ==> s.holder.local == s.thermal)
      && (s.holder.Halfway? ==> s.holder.first == s.thermal)
      && (s.holder.Computed? ==> s.holder.next == ThermalFor(s.thermal, s.holder.temp))
  }

  predicate Decisive(s: State)
  {
    s.holder.Closing? ==> s.holder.local != Stop
  }

  predicate Sound(s: State)
  {
    OtgInterlock(s) && OwnCopyAgrees(s) && Decisive(s)
  }

  lemma SoundStepKeeps(s: State, step: Step)
    requires Sound(s)
    ensures Sound(Apply(s, step))
  {
    OtgStepKeeps(s, step);
  }

  /** The three ways to lose the follow-up. The poll thread stores "stop" although it remembers "stop" already, and
      Q4 is closed or about to be; its own configure_charging cannot read the cable type; or another
      configure_charging cannot read the temperature and goes by the state it loaded before "stop" was stored. */
  predicate Slips(s: State, step: Step)
  {
    match step
    case PollStore =>
      && s.poll.PollComputed? && s.poll.next == Stop && s.poll.before == Stop
      && (s.q4 || WillClose(s.holder)) && !(s.holder.Decided? && s.holder.local == Stop)
    case ConfigureEnter(own, usbTypeRead) => Enabled(s, step) && own && !usbTypeRead && Exposed(s)
    case ConfigureSample(temp) =>
      && s.holder.Loaded? && temp == None && !s.holder.own && s.holder.local != Stop
      && s.thermal == Stop && !PollPending(s)
    case _ => false
  }

  /** Exactly: a step breaks the thermal interlock if and only if it slips. */
  lemma StopStepExactly(s: State, step: Step)
    requires Sound(s) && StopInterlock(s)
    ensures StopInterlock(Apply(s, step)) <==> !Slips(s, step)
  {
  }

  /** A slip needs interference or a failed read: storing "stop" cannot slip as long as the thermal state is what the
      poll thread remembers, and going by a loaded state cannot as long as that is the state. */
  lemma SlipNeedsInterference(s: State, step: Step)
    requires Sound(s) && StopInterlock(s) && Slips(s, step)
    ensures step == PollStore ==> s.thermal != s.poll.before
    ensures step.ConfigureSample? ==> s.thermal != s.holder.local
  {
  }

  predicate NoSlips(s: State, steps: seq<Step>)
    decreases |steps|
  {
    steps == [] || (!Slips(s, steps[0]) && NoSlips(Apply(s, steps[0]), steps[1..]))
  }

  lemma {:induction false} StopInterlockHolds(s: State, steps: seq<Step>)
    requires Sound(s) && StopInterlock(s) && NoSlips(s, steps)
    ensures Sound(Run(s, steps)) && StopInterlock(Run(s, steps))
    decreases |steps|
  {
    if steps != [] {
      SoundStepKeeps(s, steps[0]);
      StopStepExactly(s, steps[0]);
      StopInterlockHolds(Apply(s, steps[0]), steps[1..]);
    }
  }

  /** Power-path interlock at rest, over every interleaving without a slip: when nobody holds the lock and the poll
      thread has nothing left to follow up, a closed Q4 means OTG is off and the thermal state is not "stop". */
  lemma AtRestIsSafe(s: State, steps: seq<Step>)
    requires Sound(s) && StopInterlock(s) && NoSlips(s, steps)
    ensures var after := Run(s, steps);
      after.holder == Free && !PollPending(after) && after.q4 ==> !after.otg && !after.boost && after.thermal != Stop
  {
    StopInterlockHolds(s, steps);
  }

  // ---------- hysteresis ----------

  /** Since 50.0 C was stored nothing of at most 42.0 C was, so charging is not back to normal. */
  predicate Hysteresis(s: State)
  {
    s.hot ==> s.thermal != Normal
  }

  /** The poll thread, or configure_charging, stores a stale "normal". */
  predicate Stale(s: State, step: Step)
  {
    || (step == PollStore && s.poll.PollComputed? && s.poll.next == Normal && Hot(s.hot, s.poll.temp))
    || (step == ConfigureStore && s.holder.Computed? && s.holder.next == Normal && Hot(s.hot, s.holder.temp))
  }

  /** Exactly: the only steps that can bring "normal" back too early are the two stale stores. */
  lemma HysteresisStepExactly(s: State, step: Step)
    requires Hysteresis(s)
    ensures Hysteresis(Apply(s, step)) <==> !Stale(s, step)
  {
  }

  lemma HysteresisOfSample(thermal: Thermal, hot: bool, temp: int)
    requires hot ==> thermal != Normal
    ensures Hot(hot, temp) ==> ThermalFor(thermal, temp) != Normal
  {
  }

  /** A store is stale only if the thermal state changed after it was computed from: it is not what the same sample
      gives now. The poll thread's own configure_charging is never stale. */
  lemma StaleNeedsInterference(s: State, step: Step)
    requires Sound(s) && Hysteresis(s) && Stale(s, step)
    ensures step == PollStore ==> s.poll.next != ThermalFor(s.thermal, s.poll.temp)
    ensures step == ConfigureStore ==> !s.holder.own && s.holder.next != ThermalFor(s.thermal, s.holder.temp)
  {
    if step == PollStore {
      HysteresisOfSample(s.thermal, s.hot, s.poll.temp);
    } else {
      HysteresisOfSample(s.thermal, s.hot, s.holder.temp);
    }
  }

  predicate NoStaleStore(s: State, steps: seq<Step>)
    decreases |steps|
  {
    steps == [] || (!Stale(s, steps[0]) && NoStaleStore(Apply(s, steps[0]), steps[1..]))
  }

  /** Over every interleaving without a stale store: after 50.0 C, "normal" needs a stored sample of at most
      42.0 C. */
  lemma {:induction false} HysteresisHolds(s: State, steps: seq<Step>)
    requires Hysteresis(s) && NoStaleStore(s, steps)
    ensures Hysteresis(Run(s, steps))
    decreases |steps|
  {
    if steps != [] {
      HysteresisStepExactly(s, steps[0]);
      HysteresisHolds(Apply(s, steps[0]), steps[1..]);
    }
  }

  /** Samples taken one after the other: after one of at least 50.0 C, "normal" needs a later one of at most
      42.0 C. */
  function AfterSamples(thermal: Thermal, temps: seq<int>): Thermal
    decreases |temps|
  {
    if temps == [] then thermal else AfterSamples(ThermalFor(thermal, temps[0]), temps[1..])
  }

  lemma {:induction false} NormalNeedsCoolSample(thermal: Thermal, temps: seq<int>, hot: nat)
    requires hot < |temps| && temps[hot] >= 500
    requires forall i :: hot < i < |temps| ==> temps[i] > 420
    ensures AfterSamples(thermal, temps) != Normal
    decreases |temps|
  {
    if hot > 0 {
      NormalNeedsCoolSample(ThermalFor(thermal, temps[0]), temps[1..], hot - 1);
    } else {
      WarmStaysWarm(ThermalFor(thermal, temps[0]), temps[1..]);
    }
  }

  lemma {:induction false} WarmStaysWarm(thermal: Thermal, temps: seq<int>)
    requires thermal != Normal && forall i :: 0 <= i < |temps| ==> temps[i] > 420
    ensures AfterSamples(thermal, temps) != Normal
    decreases |temps|
  {
    if temps != [] {
      WarmStaysWarm(ThermalFor(thermal, temps[0]), temps[1..]);
    }
  }
}
