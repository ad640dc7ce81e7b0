/** The channel and control-table objects, with the scans the driver makes over their arrays. */
module SpcomClients {
  import opened SpcomClientsSpec

  class ClientChannel {
    var open: bool
    var isSharable: bool
    const pid: array<nat>
    var numClients: nat
    var isBusy: bool
    var activePid: nat
    var lockHeld: bool
    var unread: nat

    ghost predicate Valid()
      reads this, pid
    {
      pid.Length == MaxChannelClients && Tidy(View())
    }

    function View(): Channel
      reads this, pid
    {
      Channel(open, isSharable, pid[..], numClients, isBusy, activePid, lockHeld, unread)
    }

    /** spcom_init_channel. */
    constructor (isSharable: bool)
      ensures Valid() && fresh(pid) && Clients(View()) == {} && this.isSharable == isSharable && !open && !lockHeld
    {
      open, this.isSharable := false, isSharable;
      pid := new nat[MaxChannelClients](_ => 0);
      numClients, isBusy, activePid, lockHeld, unread := 0, false, 0, false, 0;
      new;
      AllZero(pid[..]);
      assert Clients(View()) == {};
    }

    method FindSlot(value: nat) returns (i: nat)
      requires pid.Length == MaxChannelClients
      ensures i == SlotOf(pid[..], value, MaxClients(View()))
    {
      i := 0;
      var max := if isSharable then MaxChannelClients else 1;
      while i < max && pid[i] != value
        invariant i <= max
        invariant forall j :: 0 <= j < i ==> pid[j] != value
      {
        i := i + 1;
      }
      FirstSlot(pid[..], value, max, i);
    }

    method Fill(i: nat, process: nat)
      requires i < pid.Length
      modifies this`numClients, this`isBusy, pid
      ensures View() == var ch := old(View());
        ch.(pids := ch.pids[i := process], numClients := ch.numClients + 1, isBusy := ch.numClients + 1 == MaxClients(ch))
    {
      pid[i] := process;
      numClients := numClients + 1;
      isBusy := numClients == if isSharable then MaxChannelClients else 1;
    }

    /** The slot is written without a bounds check: a channel that is not busy must have a free one. */
    method Enter(process: nat) returns (outcome: RegisterOutcome)
      requires pid.Length == MaxChannelClients && (!isBusy ==> FreeSlotOf(View()) < MaxClients(View()))
      modifies this`numClients, this`isBusy, pid
      ensures View() == SpcomClientsSpec.Register(old(View()), process).0
      ensures outcome == SpcomClientsSpec.Register(old(View()), process).1
    {
      if isBusy {
        return Busy;
      }
      var known := FindSlot(process);
      if known < if isSharable then MaxChannelClients else 1 {
        return AlreadyClient;
      }
      var i := 0;
      if isSharable {
        i := FindSlot(0);
      }
      Fill(i, process);
      outcome := Registered;
    }

    /** spcom_register_channel. */
    method Register(process: nat) returns (outcome: RegisterOutcome)
      requires Valid() && process > 0
      modifies this, pid
      ensures Valid()
      ensures View() == SpcomClientsSpec.Register(old(View()), process).0
      ensures outcome == SpcomClientsSpec.Register(old(View()), process).1
      ensures Clients(View()) == old(Clients(View())) + if outcome == Registered then {process} else {}
    {
      RegisterAdds(View(), process);
      if !isBusy {
        FreeSlot(View());
      }
      outcome := Enter(process);
    }

    method Leave(process: nat) returns (outcome: DeinitOutcome)
      requires pid.Length == MaxChannelClients
      requires SlotOf(pid[..], process, MaxClients(View())) < MaxClients(View()) ==> numClients > 0
      modifies this`activePid, this`lockHeld, this`numClients, this`isBusy, this`unread, pid
      ensures View() == SpcomClientsSpec.Deinit(old(View()), process).0
      ensures outcome == SpcomClientsSpec.Deinit(old(View()), process).1
    {
      if !open {
        return AlreadyClosed;
      }
      var i := FindSlot(process);
      if i == if isSharable then MaxChannelClients else 1 {
        return NotAClient;
      }
      pid[i] := 0;
      if activePid == process {
        activePid, lockHeld := 0, false;
      }
      numClients := numClients - 1;
      isBusy := false;
      unread := 0;
      outcome := Released;
    }

    /** spcom_channel_deinit_locked. */
    method Deinit(process: nat) returns (outcome: DeinitOutcome)
      requires Valid() && process > 0
      modifies this, pid
      ensures Valid()
      ensures View() == SpcomClientsSpec.Deinit(old(View()), process).0
      ensures outcome == SpcomClientsSpec.Deinit(old(View()), process).1
      ensures Clients(View()) == old(Clients(View())) - if outcome == Released then {process} else {}
    {
      DeinitRemoves(View(), process);
      ClientCounted(View(), process);
      outcome := Leave(process);
    }
  }

  lemma ClientCounted(ch: Channel, process: nat)
    requires Tidy(ch) && process > 0
    ensures SlotOf(ch.pids, process, MaxClients(ch)) < MaxClients(ch) ==> ch.numClients > 0
  {
    PidIsClient(ch, process);
    NumClientsIsCardinality(ch);
  }

  lemma {:induction false} FirstSlot(pids: seq<nat>, value: nat, limit: nat, i: nat)
    requires i <= limit <= |pids|
    requires forall j :: 0 <= j < i ==> pids[j] != value
    requires i < limit ==> pids[i] == value
    ensures SlotOf(pids, value, limit) == i
  {
  }

  class ControlTable {
    const entries: array<ControlSlot>

    ghost predicate Valid()
      reads entries
    {
      TidyTable(entries[..])
    }

    constructor ()
      ensures Valid() && fresh(entries) && entries.Length == MaxChannels
      ensures forall pid: nat :: pid > 0 ==> Opens(entries[..], pid) == 0
    {
      entries := new ControlSlot[MaxChannels](_ => ControlSlot(0, 0));
    }

    /** spom_control_channel_add_client: one scan finds the process's entry or the first free one. */
    method AddClient(pid: nat) returns (outcome: ControlOutcome)
      requires Valid() && pid > 0
      modifies entries
      ensures Valid() && (entries[..], outcome) == SpcomClientsSpec.AddClient(old(entries[..]), pid)
    {
      AddClientCounts(entries[..], pid, pid);
      var i, free := Scan(pid);
      if i < entries.Length {
        entries[i] := entries[i].(refCnt := entries[i].refCnt + 1);
        return Done;
      }
      if free == entries.Length {
        return TooMany;
      }
      entries[free] := ControlSlot(pid, 1);
      outcome := Done;
    }

    /** The scan stops at the process's entry and remembers the first free one on the way. */
    method Scan(pid: nat) returns (i: nat, free: nat)
      requires pid > 0
      ensures i == EntryOf(entries[..], pid, entries.Length)
      ensures i == entries.Length ==> free == EntryOf(entries[..], 0, entries.Length)
    {
      i, free := 0, entries.Length;
      while i < entries.Length && entries[i].pid != pid
        invariant 0 <= i <= entries.Length && 0 <= free <= entries.Length
        invariant forall j :: 0 <= j < i ==> entries[j].pid != pid
        invariant free < entries.Length ==> free < i && entries[free].pid == 0
        invariant forall j :: 0 <= j < (if free < i then free else i) ==> entries[j].pid != 0
      {
        if free == entries.Length && entries[i].pid == 0 {
          free := i;
        }
        i := i + 1;
      }
      FirstEntry(entries[..], pid, i);
      if i == entries.Length {
        FirstEntry(entries[..], 0, free);
      }
    }

    /** spom_control_channel_remove_client; on LastClosed the caller releases the process's channels. */
    method RemoveClient(pid: nat) returns (outcome: ControlOutcome)
      requires Valid() && pid > 0
      modifies entries
      ensures Valid() && (entries[..], outcome) == SpcomClientsSpec.RemoveClient(old(entries[..]), pid)
    {
      RemoveClientCounts(entries[..], pid, pid);
      var i, _ := Scan(pid);
      if i == entries.Length {
        return NoSuchClient;
      }
      entries[i] := entries[i].(refCnt := entries[i].refCnt - 1);
      outcome := Done;
      if entries[i].refCnt == 0 {
        entries[i] := entries[i].(pid := 0);
        outcome := LastClosed;
      }
      assert entries[..] == old(entries[..])[i := entries[i]];
    }
  }

  lemma {:induction false} FirstEntry(table: seq<ControlSlot>, pid: nat, i: nat)
    requires i <= |table|
    requires forall j :: 0 <= j < i ==> table[j].pid != pid
    requires i < |table| ==> table[i].pid == pid
    ensures EntryOf(table, pid, |table|) == i
  {
  }
}
