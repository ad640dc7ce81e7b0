/** The device: its control table and its channels, under any sequence of calls. */
module SpcomDevice {
  import opened SpcomClientsSpec

  datatype Device = Device(control: seq<ControlSlot>, channels: seq<Channel>)

  datatype Call =
    | OpenControl(pid: nat) | CloseControl(pid: nat)
    | RegisterClient(c: nat, pid: nat) | UnregisterClient(c: nat, pid: nat)
    | OpenChannel(c: nat)
    | Arrive(c: nat, size: nat)
    | Activate(c: nat, pid: nat) | Deactivate(c: nat, pid: nat)

  ghost predicate TidyDevice(d: Device)
  {
    && |d.channels| == MaxChannels && |d.control| == MaxChannels
    && TidyTable(d.control)
    && forall c :: 0 <= c < |d.channels| ==> Tidy(d.channels[c])
  }

  predicate Sensible(call: Call)
  {
    match call
    case OpenControl(pid) => pid > 0
    case CloseControl(pid) => pid > 0
    case RegisterClient(c, pid) => pid > 0 && c < MaxChannels
    case UnregisterClient(c, pid) => pid > 0 && c < MaxChannels
    case OpenChannel(c) => c < MaxChannels
    case Arrive(c, _) => c < MaxChannels
    case Activate(c, pid) => pid > 0 && c < MaxChannels
    case Deactivate(c, pid) => pid > 0 && c < MaxChannels
  }

  /** The loop over all channels when a process closes its last control device. */
  function ReleaseAll(channels: seq<Channel>, pid: nat): (released: seq<Channel>)
    requires forall c :: 0 <= c < |channels| ==> |channels[c].pids| == MaxChannelClients
    ensures |released| == |channels|
    ensures forall c :: 0 <= c < |channels| ==>
      released[c] == if pid in channels[c].pids then Deinit(channels[c], pid).0 else channels[c]
  {
    if channels == [] then []
    else [if pid in channels[0].pids then Deinit(channels[0], pid).0 else channels[0]] + ReleaseAll(channels[1..], pid)
  }

  function Apply(d: Device, call: Call): Device
    requires Sensible(call) && |d.channels| == MaxChannels && TidyTable(d.control)
    requires forall c :: 0 <= c < |d.channels| ==> |d.channels[c].pids| == MaxChannelClients
  {
    match call
    case OpenControl(pid) => d.(control := AddClient(d.control, pid).0)
    case CloseControl(pid) =>
      var (table, outcome) := RemoveClient(d.control, pid);
      Device(table, if outcome == LastClosed then ReleaseAll(d.channels, pid) else d.channels)
    case RegisterClient(c, pid) => d.(channels := d.channels[c := Register(d.channels[c].(open := true), pid).0])
    case UnregisterClient(c, pid) => d.(channels := d.channels[c := Deinit(d.channels[c], pid).0])
    case OpenChannel(c) => d.(channels := d.channels[c := d.channels[c].(open := true)])
    case Arrive(c, size) => d.(channels := d.channels[c := d.channels[c].(unread := size)])
    case Activate(c, pid) =>
      if d.channels[c].lockHeld then d
      else d.(channels := d.channels[c := d.channels[c].(activePid := pid, lockHeld := true)])
    case Deactivate(c, pid) =>
      if d.channels[c].activePid != pid then d
      else d.(channels := d.channels[c := d.channels[c].(activePid := 0, lockHeld := false)])
  }

  lemma ReleaseAllKeeps(channels: seq<Channel>, pid: nat)
    requires pid > 0
    requires forall c :: 0 <= c < |channels| ==> |channels[c].pids| == MaxChannelClients && Tidy(channels[c])
    ensures forall c :: 0 <= c < |channels| ==> Tidy(ReleaseAll(channels, pid)[c])
  {
    forall c | 0 <= c < |channels| ensures Tidy(Deinit(channels[c], pid).0) {
      DeinitRemoves(channels[c], pid);
    }
  }

  lemma ApplyKeeps(d: Device, call: Call)
    requires TidyDevice(d) && Sensible(call)
    ensures TidyDevice(Apply(d, call))
  {
    match call
    case OpenControl(pid) => AddClientCounts(d.control, pid, pid);
    case CloseControl(pid) =>
      RemoveClientCounts(d.control, pid, pid);
      ReleaseAllKeeps(d.channels, pid);
    case RegisterClient(c, pid) =>
      TidyOpened(d.channels[c]);
      RegisterAdds(d.channels[c].(open := true), pid);
    case UnregisterClient(c, pid) => DeinitRemoves(d.channels[c], pid);
    case OpenChannel(c) => TidyOpened(d.channels[c]);
    case Arrive(_, _) =>
    case Activate(c, pid) =>
    case Deactivate(c, pid) =>
  }

  lemma TidyOpened(ch: Channel)
    requires Tidy(ch)
    ensures Tidy(ch.(open := true)) && Clients(ch.(open := true)) == Clients(ch)
  {
  }

  /** Every reachable state of the tables is in shape, whatever the calls. */
  ghost function RunCalls(d: Device, calls: seq<Call>): (end: Device)
    requires TidyDevice(d) && forall k :: 0 <= k < |calls| ==> Sensible(calls[k])
    ensures TidyDevice(end)
    decreases |calls|
  {
    if calls == [] then d else ApplyKeeps(d, calls[0]); RunCalls(Apply(d, calls[0]), calls[1..])
  }

  ghost predicate Counts(control: seq<ControlSlot>, opens: multiset<nat>)
  {
    forall pid {:trigger opens[pid]} :: pid > 0 ==> Opens(control, pid) == opens[pid]
  }

  /** What one call does to the multiset of opens. An open can only fail for want of an entry. */
  function CountCall(d: Device, opens: multiset<nat>, call: Call): multiset<nat>
  {
    match call
    case OpenControl(pid) => if AddClient(d.control, pid).1 == TooMany then opens else opens + multiset{pid}
    case CloseControl(pid) => opens - multiset{pid}
    case _ => opens
  }

  lemma CallCounts(d: Device, opens: multiset<nat>, call: Call)
    requires TidyDevice(d) && Sensible(call) && Counts(d.control, opens)
    ensures Counts(Apply(d, call).control, CountCall(d, opens, call))
  {
    forall other: nat | other > 0
      ensures Opens(Apply(d, call).control, other) == CountCall(d, opens, call)[other]
    {
      assert Opens(d.control, other) == opens[other];
      match call
      case OpenControl(pid) => AddClientCounts(d.control, pid, other);
      case CloseControl(pid) =>
        assert Opens(d.control, pid) == opens[pid];
        RemoveClientCounts(d.control, pid, other);
      case _ =>
    }
  }

  ghost function CountRun(d: Device, opens: multiset<nat>, calls: seq<Call>): multiset<nat>
    requires TidyDevice(d) && forall k :: 0 <= k < |calls| ==> Sensible(calls[k])
    decreases |calls|
  {
    if calls == [] then opens
    else ApplyKeeps(d, calls[0]); CountRun(Apply(d, calls[0]), CountCall(d, opens, calls[0]), calls[1..])
  }

  /** The control table refines a multiset of opens over every run. */
  lemma {:induction false} TableRefinesMultiset(d: Device, opens: multiset<nat>, calls: seq<Call>)
    requires TidyDevice(d) && Counts(d.control, opens)
    requires forall k :: 0 <= k < |calls| ==> Sensible(calls[k])
    ensures Counts(RunCalls(d, calls).control, CountRun(d, opens, calls))
    decreases |calls|
  {
    if calls != [] {
      ApplyKeeps(d, calls[0]);
      CallCounts(d, opens, calls[0]);
      TableRefinesMultiset(Apply(d, calls[0]), CountCall(d, opens, calls[0]), calls[1..]);
    }
  }

  /** After a process's last control close it is a client of no open channel, owns no lock it had as a client and
      leaves no packet behind; everybody else's registrations are as before. An earlier close changes no channel. */
  lemma LastCloseReleases(d: Device, pid: nat, c: nat)
    requires TidyDevice(d) && pid > 0 && c < MaxChannels
    ensures var before, after := d.channels[c], Apply(d, CloseControl(pid)).channels[c];
      && (Opens(d.control, pid) == 1 && before.open ==> pid !in Clients(after))
      && (Opens(d.control, pid) == 1 && before.open && pid in Clients(before) ==> after.activePid != pid && after.unread == 0)
      && Clients(after) - {pid} == Clients(before) - {pid}
      && (Opens(d.control, pid) != 1 ==> after == before)
  {
    RemoveClientCounts(d.control, pid, pid);
    var before := d.channels[c];
    DeinitRemoves(before, pid);
    assert pid in before.pids <==> pid in Clients(before);
  }

  /** In every channel the shared lock is held for somebody exactly while an active process is recorded. */
  predicate ActiveHolds(d: Device)
  {
    forall c :: 0 <= c < |d.channels| ==> (d.channels[c].lockHeld <==> d.channels[c].activePid != 0)
  }

  lemma HoldsKept(d: Device, call: Call)
    requires TidyDevice(d) && Sensible(call) && ActiveHolds(d)
    ensures ActiveHolds(Apply(d, call))
  {
    var after := Apply(d, call);
    forall c | 0 <= c < |after.channels| ensures after.channels[c].lockHeld <==> after.channels[c].activePid != 0 {
      HoldsAt(d, call, c);
    }
  }

  lemma HoldsAt(d: Device, call: Call, c: nat)
    requires TidyDevice(d) && Sensible(call) && c < MaxChannels
    requires d.channels[c].lockHeld <==> d.channels[c].activePid != 0
    ensures Apply(d, call).channels[c].lockHeld <==> Apply(d, call).channels[c].activePid != 0
  {
    var ch, after := d.channels[c], Apply(d, call).channels[c];
    match call
    case CloseControl(pid) =>
      DeinitHolds(ch, pid);
      assert after == ch || after == Deinit(ch, pid).0;
    case UnregisterClient(_, pid) =>
      DeinitHolds(ch, pid);
      assert after == ch || after == Deinit(ch, pid).0;
    case RegisterClient(_, pid) =>
      RegisterHolds(ch.(open := true), pid);
      assert after == ch || after == Register(ch.(open := true), pid).0;
    case _ =>
  }

  lemma DeinitHolds(ch: Channel, pid: nat)
    requires |ch.pids| == MaxChannelClients && pid > 0 && (ch.lockHeld <==> ch.activePid != 0)
    ensures Deinit(ch, pid).0.lockHeld <==> Deinit(ch, pid).0.activePid != 0
  {
  }

  lemma RegisterHolds(ch: Channel, pid: nat)
    requires |ch.pids| == MaxChannelClients && (ch.lockHeld <==> ch.activePid != 0)
    ensures Register(ch, pid).0.lockHeld <==> Register(ch, pid).0.activePid != 0
  {
  }

  /** Sending makes a process the active one exactly if nobody is; it stays so until it has been answered, or is no client
      any more. */
  lemma ActiveExactly(d: Device, call: Call, c: nat)
    requires TidyDevice(d) && Sensible(call) && ActiveHolds(d) && c < MaxChannels
    ensures var before, after := d.channels[c], Apply(d, call).channels[c];
      && (call.Activate? && call.c == c && before.activePid == 0 ==> after.activePid == call.pid && after.lockHeld)
      && (call.Deactivate? && call.c == c && before.activePid == call.pid ==> after.activePid == 0 && !after.lockHeld)
      && (before.activePid != 0 && after.activePid != before.activePid ==>
            && after.activePid == 0
            && (call.Deactivate? || call.UnregisterClient? || call.CloseControl?) && call.pid == before.activePid)
  {
  }

  lemma {:induction false} ActiveAlwaysHolds(d: Device, calls: seq<Call>)
    requires TidyDevice(d) && ActiveHolds(d) && forall k :: 0 <= k < |calls| ==> Sensible(calls[k])
    ensures ActiveHolds(RunCalls(d, calls))
    decreases |calls|
  {
    if calls != [] {
      ApplyKeeps(d, calls[0]);
      HoldsKept(d, calls[0]);
      ActiveAlwaysHolds(Apply(d, calls[0]), calls[1..]);
    }
  }
}
