/** Undisturbed stretches of the two threads, and the interleavings in which the thermal interlocks fail. */
module Sm5714Races {
  import opened Options
  import opened Sm5714Runs
  import opened Sm5714Spec

  lemma {:induction false} RunConcat(s: State, a: seq<Step>, b: seq<Step>)
    ensures Run(s, a + b) == Run(Run(s, a), b)
    decreases |a|
  {
    if a == [] {
      assert a + b == b;
    } else {
      assert (a + b)[1..] == a[1..] + b;
      RunConcat(Apply(s, a[0]), a[1..], b);
    }
  }

  lemma Then(s: State, a: seq<Step>, b: seq<Step>, between: State, after: State)
    requires Run(s, a) == between && Run(between, b) == after
    ensures Run(s, a + b) == after
  {
    RunConcat(s, a, b);
  }

  lemma Run1(s: State, a: Step)
    ensures Run(s, [a]) == Apply(s, a)
  {
    assert [a][1..] == [];
  }

  lemma Run2(s: State, a: Step, b: Step)
    ensures Run(s, [a, b]) == Apply(Apply(s, a), b)
  {
    Run1(s, a);
    Run1(Apply(s, a), b);
    RunConcat(s, [a], [b]);
    assert [a] + [b] == [a, b];
  }

  lemma Run3(s: State, a: Step, b: Step, c: Step)
    ensures Run(s, [a, b, c]) == Apply(Apply(Apply(s, a), b), c)
  {
    Run2(s, a, b);
    Run1(Apply(Apply(s, a), b), c);
    RunConcat(s, [a, b], [c]);
    assert [a, b] + [c] == [a, b, c];
  }

  // ---------- stretches of the poll thread ----------

  lemma PollReads(s: State, temp: int) returns (after: State)
    requires s.poll == Idle
    ensures after == Run(s, [PollStart, PollRead(temp)])
    ensures after == s.(poll := PollSampled(s.thermal, temp))
  {
    Run2(s, PollStart, PollRead(temp));
    after := Run(s, [PollStart, PollRead(temp)]);
  }

  lemma PollComputes(s: State, before: Thermal, temp: int) returns (after: State)
    requires s.poll == PollSampled(before, temp)
    ensures after == Run(s, [PollFirst, PollSecond])
    ensures after == s.(poll := PollComputed(before, temp, ThermalFor(s.thermal, temp)))
  {
    Run2(s, PollFirst, PollSecond);
    after := Run(s, [PollFirst, PollSecond]);
  }

  /** The poll thread up to, but without, its store. */
  function PollToStore(temp: int): seq<Step>
  {
    [PollStart, PollRead(temp)] + [PollFirst, PollSecond]
  }

  lemma PollReachesStore(s: State, temp: int) returns (after: State)
    requires s.poll == Idle
    ensures after == Run(s, PollToStore(temp))
    ensures after == s.(poll := PollComputed(s.thermal, temp, ThermalFor(s.thermal, temp)))
  {
    after := PollReads(s, temp);
    after := PollComputes(after, s.thermal, temp);
    RunConcat(s, [PollStart, PollRead(temp)], [PollFirst, PollSecond]);
  }

  lemma PollStores(s: State, before: Thermal, temp: int, next: Thermal) returns (after: State)
    requires s.poll == PollComputed(before, temp, next)
    ensures after == Run(s, [PollStore, PollCompare])
    ensures after == s.(thermal := next, hot := Hot(s.hot, temp), poll := if next != before then FollowUp else Idle)
  {
    Run2(s, PollStore, PollCompare);
    after := Run(s, [PollStore, PollCompare]);
  }

  // ---------- stretches of configure_charging ----------

  lemma ConfigureSamples(s: State, own: bool, temp: int) returns (after: State)
    requires s.holder == Free && !s.otg && (own ==> s.poll == FollowUp)
    ensures after == Run(s, [ConfigureEnter(own, true), ConfigureLoad, ConfigureSample(Some(temp))])
    ensures after == s.(holder := Sampling(own, temp), poll := if own then Configuring else s.poll)
  {
    Run3(s, ConfigureEnter(own, true), ConfigureLoad, ConfigureSample(Some(temp)));
    after := Run(s, [ConfigureEnter(own, true), ConfigureLoad, ConfigureSample(Some(temp))]);
  }

  lemma ConfigureComputes(s: State, own: bool, temp: int) returns (after: State)
    requires s.holder == Sampling(own, temp)
    ensures after == Run(s, [ConfigureFirst, ConfigureSecond])
    ensures after == s.(holder := Computed(own, temp, ThermalFor(s.thermal, temp)))
  {
    Run2(s, ConfigureFirst, ConfigureSecond);
    after := Run(s, [ConfigureFirst, ConfigureSecond]);
  }

  /** configure_charging up to, but without, its store. */
  function ConfigureToStore(own: bool, temp: int): seq<Step>
  {
    [ConfigureEnter(own, true), ConfigureLoad, ConfigureSample(Some(temp))] + [ConfigureFirst, ConfigureSecond]
  }

  lemma ConfigureReachesStore(s: State, own: bool, temp: int) returns (after: State)
    requires s.holder == Free && !s.otg && (own ==> s.poll == FollowUp)
    ensures after == Run(s, ConfigureToStore(own, temp))
    ensures after == s.(holder := Computed(own, temp, ThermalFor(s.thermal, temp)),
                        poll := if own then Configuring else s.poll)
  {
    after := ConfigureSamples(s, own, temp);
    after := ConfigureComputes(after, own, temp);
    RunConcat(s, [ConfigureEnter(own, true), ConfigureLoad, ConfigureSample(Some(temp))],
              [ConfigureFirst, ConfigureSecond]);
  }

  lemma ConfigureStores(s: State, own: bool, temp: int, next: Thermal) returns (after: State)
    requires s.holder == Computed(own, temp, next)
    ensures after == Run(s, [ConfigureStore])
    ensures after == s.(thermal := next, hot := Hot(s.hot, temp), holder := Decided(own, next))
  {
    Run1(s, ConfigureStore);
    after := Run(s, [ConfigureStore]);
  }

  lemma ConfigureEnds(s: State, own: bool, local: Thermal) returns (after: State)
    requires s.holder == Decided(own, local)
    ensures after == Run(s, [ConfigureDecide, ConfigureClose])
    ensures after == s.(q4 := local != Stop, holder := Free, poll := Back(s, own))
  {
    Run2(s, ConfigureDecide, ConfigureClose);
    after := Run(s, [ConfigureDecide, ConfigureClose]);
  }

  lemma ConfigureStops(s: State, own: bool) returns (after: State)
    requires s.holder == Decided(own, Stop)
    ensures after == Run(s, [ConfigureDecide])
    ensures after == s.(q4 := false, holder := Free, poll := Back(s, own))
  {
    Run1(s, ConfigureDecide);
    after := Run(s, [ConfigureDecide]);
  }

  // ---------- a "stop" nobody acts on ----------

  function StopRace(warm: int, hot: int): seq<Step>
  {
    [PollStart, PollRead(hot)] + (ConfigureToStore(false, warm) + [ConfigureStore])
    + ([PollFirst, PollSecond] + [PollStore, PollCompare]) + [ConfigureDecide, ConfigureClose]
  }

  lemma ConfigureRecovers(s: State, warm: int) returns (after: State)
    requires s.holder == Free && !s.otg && s.thermal == Stop && 420 < warm < 460
    ensures after == Run(s, ConfigureToStore(false, warm) + [ConfigureStore])
    ensures after == s.(thermal := Reduced, hot := Hot(s.hot, warm), holder := Decided(false, Reduced))
  {
    after := ConfigureReachesStore(s, false, warm);
    after := ConfigureStores(after, false, warm, Reduced);
    RunConcat(s, ConfigureToStore(false, warm), [ConfigureStore]);
  }

  lemma PollStops(s: State, hot: int) returns (after: State)
    requires s.poll == PollSampled(Stop, hot) && hot >= 500
    ensures after == Run(s, [PollFirst, PollSecond] + [PollStore, PollCompare])
    ensures after == s.(thermal := Stop, hot := true, poll := Idle)
  {
    after := PollComputes(s, Stop, hot);
    after := PollStores(after, Stop, hot, Stop);
    RunConcat(s, [PollFirst, PollSecond], [PollStore, PollCompare]);
  }

  /** The battery recovers into the reduced band while the poll thread, which remembers "stop", reads 50.0 C or more.
      Charging is left on in the "stop" state, and the poll thread sees no change to follow up. */
  lemma RaceLeavesQ4ClosedInStop(s: State, warm: int, hot: int)
    requires s.holder == Free && s.poll == Idle && !s.otg && s.thermal == Stop && 420 < warm < 460 && hot >= 500
    ensures Run(s, StopRace(warm, hot)) == s.(q4 := true, hot := true)
    ensures !StopInterlock(Run(s, StopRace(warm, hot)))
  {
    var s1 := PollReads(s, hot);
    var s2 := ConfigureRecovers(s1, warm);
    Then(s, [PollStart, PollRead(hot)], ConfigureToStore(false, warm) + [ConfigureStore], s1, s2);
    var s3 := PollStops(s2, hot);
    var b := [PollStart, PollRead(hot)] + (ConfigureToStore(false, warm) + [ConfigureStore]);
    Then(s, b, [PollFirst, PollSecond] + [PollStore, PollCompare], s2, s3);
    var s4 := ConfigureEnds(s3, false, Reduced);
    Then(s, b + ([PollFirst, PollSecond] + [PollStore, PollCompare]), [ConfigureDecide, ConfigureClose], s3, s4);
  }

  function FailedRead(hot: int): seq<Step>
  {
    PollToStore(hot) + [PollStore, PollCompare] + [ConfigureEnter(true, false)]
  }

  /** Without any race: the poll thread sees 50.0 C, and the cable type cannot be read. */
  lemma FailedReadLeavesQ4ClosedInStop(s: State, hot: int)
    requires s.holder == Free && s.poll == Idle && s.q4 && s.thermal != Stop && hot >= 500
    ensures Run(s, FailedRead(hot)) == s.(thermal := Stop, hot := true)
    ensures !StopInterlock(Run(s, FailedRead(hot)))
  {
    var s1 := PollReachesStore(s, hot);
    var s2 := PollStores(s1, s.thermal, hot, Stop);
    Then(s, PollToStore(hot), [PollStore, PollCompare], s1, s2);
    Run1(s2, ConfigureEnter(true, false));
    RunConcat(s, PollToStore(hot) + [PollStore, PollCompare], [ConfigureEnter(true, false)]);
  }

  function Polls(temps: seq<int>): seq<Step>
    decreases |temps|
  {
    if temps == [] then [] else PollToStore(temps[0]) + [PollStore, PollCompare] + Polls(temps[1..])
  }

  /** Either way, no later poll repairs it while the battery stays at 46.0 C or above: the state no longer
      changes, so nothing is followed up. */
  lemma {:induction false} NobodyRepairs(s: State, temps: seq<int>)
    requires s.poll == Idle && s.thermal == Stop && forall i :: 0 <= i < |temps| ==> temps[i] >= 460
    ensures var after := Run(s, Polls(temps));
      after.q4 == s.q4 && after.poll == Idle && after.thermal == Stop && after.holder == s.holder
    decreases |temps|
  {
    if temps != [] {
      var t := temps[0];
      var s1 := PollReachesStore(s, t);
      var s2 := PollStores(s1, Stop, t, Stop);
      Then(s, PollToStore(t), [PollStore, PollCompare], s1, s2);
      RunConcat(s, PollToStore(t) + [PollStore, PollCompare], Polls(temps[1..]));
      NobodyRepairs(s2, temps[1..]);
    }
  }

  // ---------- a "normal" that comes too early ----------

  function StalePoll(cool: int, hot: int): seq<Step>
  {
    PollToStore(cool) + ConfigureToStore(false, hot) + [ConfigureStore] + [ConfigureDecide] + [PollStore, PollCompare]
  }

  /** The poll thread computes "normal" from, say, 45.0 C, another thread samples 50.0 C and stops charging, and the
      poll thread then stores "normal": the next attempt closes Q4 again. */
  lemma PollStoresStaleNormal(s: State, cool: int, hot: int)
    requires s.holder == Free && s.poll == Idle && !s.otg && s.thermal == Normal && 420 < cool < 460 && hot >= 500
    ensures Run(s, StalePoll(cool, hot)) == s.(q4 := false, hot := true)
    ensures !Hysteresis(Run(s, StalePoll(cool, hot)))
  {
    var s1 := PollReachesStore(s, cool);
    var s2 := ConfigureReachesStore(s1, false, hot);
    Then(s, PollToStore(cool), ConfigureToStore(false, hot), s1, s2);
    var s3 := ConfigureStores(s2, false, hot, Stop);
    Then(s, PollToStore(cool) + ConfigureToStore(false, hot), [ConfigureStore], s2, s3);
    var s4 := ConfigureStops(s3, false);
    Then(s, PollToStore(cool) + ConfigureToStore(false, hot) + [ConfigureStore], [ConfigureDecide], s3, s4);
    var s5 := PollStores(s4, Normal, cool, Normal);
    Then(s, PollToStore(cool) + ConfigureToStore(false, hot) + [ConfigureStore] + [ConfigureDecide],
         [PollStore, PollCompare], s4, s5);
  }

  function StaleConfigure(cool: int, hot: int): seq<Step>
  {
    ConfigureToStore(false, cool) + PollToStore(hot) + [PollStore, ConfigureStore, PollCompare]
    + [ConfigureDecide, ConfigureClose]
  }

  lemma StopIsOverwritten(s: State, cool: int, hot: int) returns (after: State)
    requires s.poll == PollComputed(Normal, hot, Stop) && s.holder == Computed(false, cool, Normal)
    requires cool > 420 && hot >= 500
    ensures after == Run(s, [PollStore, ConfigureStore, PollCompare])
    ensures after == s.(thermal := Normal, hot := true, poll := Idle, holder := Decided(false, Normal))
  {
    Run3(s, PollStore, ConfigureStore, PollCompare);
    after := Run(s, [PollStore, ConfigureStore, PollCompare]);
  }

  /** The other way round: configure_charging computes "normal", the poll thread samples 50.0 C and stores "stop",
      configure_charging stores "normal" over it, and the poll thread compares "normal" with "normal". Q4 ends up
      closed, and nothing is left to follow up. */
  lemma ConfigureStoresStaleNormal(s: State, cool: int, hot: int)
    requires s.holder == Free && s.poll == Idle && !s.otg && s.thermal == Normal && 420 < cool < 460 && hot >= 500
    ensures Run(s, StaleConfigure(cool, hot)) == s.(q4 := true, hot := true)
    ensures !Hysteresis(Run(s, StaleConfigure(cool, hot)))
  {
    var s1 := ConfigureReachesStore(s, false, cool);
    var s2 := PollReachesStore(s1, hot);
    Then(s, ConfigureToStore(false, cool), PollToStore(hot), s1, s2);
    var s3 := StopIsOverwritten(s2, cool, hot);
    Then(s, ConfigureToStore(false, cool) + PollToStore(hot), [PollStore, ConfigureStore, PollCompare], s2, s3);
    var s4 := ConfigureEnds(s3, false, Normal);
    Then(s, ConfigureToStore(false, cool) + PollToStore(hot) + [PollStore, ConfigureStore, PollCompare],
         [ConfigureDecide, ConfigureClose], s3, s4);
  }
}
