/** Who is registered where in SPCOM (kernel/files/spu/spcom.c, ioctl path): the pid slots of a channel,
    and the control table that counts how often each process has the control device open. */
module SpcomClientsSpec {
  const MaxChannelClients := 5
  const MaxChannels := 0x20

  /** `lockHeld` stands for shared_sync_lock, `unread` for the size of the packet nobody has read yet. */
  datatype Channel = Channel(open: bool, isSharable: bool, pids: seq<nat>, numClients: nat, isBusy: bool,
                             activePid: nat, lockHeld: bool, unread: nat)

  datatype RegisterOutcome = Registered | Busy | AlreadyClient
  datatype DeinitOutcome = AlreadyClosed | NotAClient | Released

  function MaxClients(ch: Channel): nat
  {
    if ch.isSharable then MaxChannelClients else 1
  }

  /** The first slot below `limit` that holds `pid`, or `limit`. */
  function SlotOf(pids: seq<nat>, pid: nat, limit: nat): (i: nat)
    requires limit <= |pids|
    ensures i <= limit && (i < limit ==> pids[i] == pid)
    ensures forall j :: 0 <= j < i ==> pids[j] != pid
  {
    if limit == 0 then 0
    else
      var i := SlotOf(pids, pid, limit - 1);
      if i < limit - 1 || pids[limit - 1] == pid then i else limit
  }

  function CountUsed(pids: seq<nat>): nat
  {
    if pids == [] then 0 else CountUsed(pids[..|pids| - 1]) + if pids[|pids| - 1] != 0 then 1 else 0
  }

  /** Nonzero pids are distinct and within the first max_clients slots, num_clients counts them, and the
      channel is busy exactly when it is full. */
  ghost predicate Tidy(ch: Channel)
  {
    && |ch.pids| == MaxChannelClients
    && (forall i, j :: 0 <= i < j < |ch.pids| && ch.pids[i] != 0 ==> ch.pids[i] != ch.pids[j])
    && (forall i :: MaxClients(ch) <= i < |ch.pids| ==> ch.pids[i] == 0)
    && ch.numClients == CountUsed(ch.pids)
    && (ch.isBusy <==> ch.numClients == MaxClients(ch))
  }

  ghost function Clients(ch: Channel): set<nat>
  {
    set i | 0 <= i < |ch.pids| && ch.pids[i] != 0 :: ch.pids[i]
  }

  function Register(ch: Channel, pid: nat): (r: (Channel, RegisterOutcome))
    requires |ch.pids| == MaxChannelClients
  {
    if ch.isBusy then (ch, Busy)
    else if SlotOf(ch.pids, pid, MaxClients(ch)) < MaxClients(ch) then (ch, AlreadyClient)
    else
      var i := if ch.isSharable then SlotOf(ch.pids, 0, MaxClients(ch)) else 0;
      if i >= MaxChannelClients then (ch, Busy)
      else
        (ch.(pids := ch.pids[i := pid], numClients := ch.numClients + 1, isBusy := ch.numClients + 1 == MaxClients(ch)),
         Registered)
  }

  function Deinit(ch: Channel, pid: nat): (r: (Channel, DeinitOutcome))
    requires |ch.pids| == MaxChannelClients
  {
    if !ch.open then (ch, AlreadyClosed)
    else
      var i := SlotOf(ch.pids, pid, MaxClients(ch));
      if i == MaxClients(ch) then (ch, NotAClient)
      else
        var ch1 := ch.(pids := ch.pids[i := 0], isBusy := false, unread := 0,
                       numClients := if ch.numClients == 0 then 0 else ch.numClients - 1);
        (if ch.activePid == pid then ch1.(activePid := 0, lockHeld := false) else ch1, Released)
  }

  // ---------- counting ----------

  lemma {:induction false} CountUpdate(pids: seq<nat>, i: nat, pid: nat)
    requires i < |pids|
    ensures CountUsed(pids[i := pid]) + (if pids[i] != 0 then 1 else 0) == CountUsed(pids) + if pid != 0 then 1 else 0
    decreases |pids|
  {
    var last := |pids| - 1;
    if i < last {
      CountUpdate(pids[..last], i, pid);
      assert pids[i := pid][..last] == pids[..last][i := pid];
    } else {
      assert pids[i := pid][..last] == pids[..last];
    }
  }

  lemma {:induction false} CountIsCardinality(pids: seq<nat>)
    requires forall i, j :: 0 <= i < j < |pids| && pids[i] != 0 ==> pids[i] != pids[j]
    ensures CountUsed(pids) == |set i | 0 <= i < |pids| && pids[i] != 0 :: pids[i]|
    decreases |pids|
  {
    if pids != [] {
      var last := |pids| - 1;
      var rest := set i | 0 <= i < last && pids[..last][i] != 0 :: pids[..last][i];
      CountIsCardinality(pids[..last]);
      var all := set i | 0 <= i < |pids| && pids[i] != 0 :: pids[i];
      assert forall i :: 0 <= i < last ==> pids[..last][i] == pids[i];
      if pids[last] != 0 {
        assert all == rest + {pids[last]};
      } else {
        assert all == rest;
      }
    }
  }

  lemma {:induction false} FullMeansNoZero(pids: seq<nat>)
    ensures CountUsed(pids) <= |pids|
    ensures CountUsed(pids) < |pids| ==> exists i :: 0 <= i < |pids| && pids[i] == 0
    decreases |pids|
  {
    if pids != [] {
      FullMeansNoZero(pids[..|pids| - 1]);
      if CountUsed(pids) < |pids| && pids[|pids| - 1] != 0 {
        var i :| 0 <= i < |pids| - 1 && pids[..|pids| - 1][i] == 0;
        assert pids[i] == 0;
      }
    }
  }

  // ---------- a channel is a bounded set of clients ----------

  lemma NumClientsIsCardinality(ch: Channel)
    requires Tidy(ch)
    ensures ch.numClients == |Clients(ch)| <= MaxClients(ch)
  {
    CountIsCardinality(ch.pids);
    if !ch.isSharable {
      assert Clients(ch) <= {ch.pids[0]};
      SubsetSize(Clients(ch), {ch.pids[0]});
    } else {
      FullMeansNoZero(ch.pids);
    }
  }

  lemma {:induction false} SubsetSize(a: set<nat>, b: set<nat>)
    requires a <= b
    ensures |a| <= |b|
  {
    if a != {} {
      var x :| x in a;
      SubsetSize(a - {x}, b - {x});
    }
  }

  /** Registering adds the process to the clients, unless the channel is full or it is one already. */
  lemma RegisterAdds(ch: Channel, pid: nat)
    requires Tidy(ch) && pid > 0
    ensures var (next, outcome) := Register(ch, pid);
      && Tidy(next) && next == ch.(pids := next.pids, numClients := next.numClients, isBusy := next.isBusy)
      && (outcome == Busy <==> |Clients(ch)| == MaxClients(ch))
      && (outcome == AlreadyClient <==> |Clients(ch)| < MaxClients(ch) && pid in Clients(ch))
      && Clients(next) == if outcome == Registered then Clients(ch) + {pid} else Clients(ch)
  {
    NumClientsIsCardinality(ch);
    PidIsClient(ch, pid);
    if !ch.isBusy && pid !in Clients(ch) {
      FreeSlot(ch);
      FillSlot(ch, FreeSlotOf(ch), pid);
    }
  }

  lemma PidIsClient(ch: Channel, pid: nat)
    requires Tidy(ch) && pid > 0
    ensures pid in Clients(ch) <==> SlotOf(ch.pids, pid, MaxClients(ch)) < MaxClients(ch)
  {
    var i := SlotOf(ch.pids, pid, MaxClients(ch));
    if i < MaxClients(ch) {
      assert ch.pids[i] == pid;
    }
  }

  function FreeSlotOf(ch: Channel): nat
    requires |ch.pids| == MaxChannelClients
  {
    if ch.isSharable then SlotOf(ch.pids, 0, MaxClients(ch)) else 0
  }

  lemma FreeSlot(ch: Channel)
    requires Tidy(ch) && !ch.isBusy
    ensures FreeSlotOf(ch) < MaxClients(ch) && ch.pids[FreeSlotOf(ch)] == 0
  {
    FullMeansNoZero(ch.pids);
    NumClientsIsCardinality(ch);
    if !ch.isSharable {
      SingleSlot(ch);
    }
  }

  lemma FillSlot(ch: Channel, i: nat, pid: nat)
    requires Tidy(ch) && !ch.isBusy && pid > 0 && pid !in Clients(ch)
    requires i < MaxClients(ch) && ch.pids[i] == 0
    ensures var next := ch.(pids := ch.pids[i := pid], numClients := ch.numClients + 1, isBusy := ch.numClients + 1 == MaxClients(ch));
      Tidy(next) && Clients(next) == Clients(ch) + {pid}
  {
    CountUpdate(ch.pids, i, pid);
    ClientsUpdate(ch, i, pid);
    assert forall j :: 0 <= j < |ch.pids| && ch.pids[j] != 0 ==> ch.pids[j] in Clients(ch);
    assert 0 !in Clients(ch);
    assert Clients(ch.(pids := ch.pids[i := pid])) == Clients(ch) + {pid};
  }

  lemma SingleSlot(ch: Channel)
    requires Tidy(ch) && !ch.isSharable
    ensures ch.isBusy <==> ch.pids[0] != 0
  {
    CountUpdate(ch.pids, 0, 0);
    AllZero(ch.pids[0 := 0]);
  }

  lemma {:induction false} AllZero(pids: seq<nat>)
    requires forall i :: 0 <= i < |pids| ==> pids[i] == 0
    ensures CountUsed(pids) == 0
    decreases |pids|
  {
    if pids != [] {
      AllZero(pids[..|pids| - 1]);
    }
  }

  lemma ClientsUpdate(ch: Channel, i: nat, pid: nat)
    requires i < |ch.pids|
    requires forall j, k :: 0 <= j < k < |ch.pids| && ch.pids[j] != 0 ==> ch.pids[j] != ch.pids[k]
    ensures Clients(ch.(pids := ch.pids[i := pid])) == Clients(ch) - {ch.pids[i]} + (if pid != 0 then {pid} else {})
  {
    var next := ch.(pids := ch.pids[i := pid]);
    forall p | p in Clients(ch) - {ch.pids[i]} ensures p in Clients(next) {
      var j :| 0 <= j < |ch.pids| && ch.pids[j] == p;
      assert next.pids[j] == p;
    }
    if pid != 0 {
      assert next.pids[i] == pid;
    }
  }

  /** Releasing takes exactly that process away, discards what nobody has read, and gives the shared lock back
      exactly when the process had it. */
  lemma DeinitRemoves(ch: Channel, pid: nat)
    requires Tidy(ch) && pid > 0
    ensures var (next, outcome) := Deinit(ch, pid);
      && Tidy(next)
      && (outcome == AlreadyClosed <==> !ch.open)
      && (outcome == Released <==> ch.open && pid in Clients(ch))
      && Clients(next) == (if outcome == Released then Clients(ch) - {pid} else Clients(ch))
      && (if outcome == Released && ch.activePid == pid then next.activePid == 0 && !next.lockHeld
          else next.activePid == ch.activePid && next.lockHeld == ch.lockHeld)
      && next.unread == (if outcome == Released then 0 else ch.unread)
      && next.open == ch.open && next.isSharable == ch.isSharable
  {
    var max := MaxClients(ch);
    var i := SlotOf(ch.pids, pid, max);
    if ch.open && i < max {
      CountUpdate(ch.pids, i, 0);
      ClientsUpdate(ch, i, 0);
      NumClientsIsCardinality(ch);
      assert pid in Clients(ch);
    }
  }

  // ---------- the control table ----------

  datatype ControlSlot = ControlSlot(pid: nat, refCnt: nat)

  /** The first entry below `limit` for `pid`, or `limit`. */
  function EntryOf(table: seq<ControlSlot>, pid: nat, limit: nat): (i: nat)
    requires limit <= |table|
    ensures i <= limit && (i < limit ==> table[i].pid == pid)
    ensures forall j :: 0 <= j < i ==> table[j].pid != pid
  {
    if limit == 0 then 0
    else
      var i := EntryOf(table, pid, limit - 1);
      if i < limit - 1 || table[limit - 1].pid == pid then i else limit
  }

  ghost predicate TidyTable(table: seq<ControlSlot>)
  {
    && (forall i, j :: 0 <= i < j < |table| && table[i].pid != 0 ==> table[i].pid != table[j].pid)
    && (forall i :: 0 <= i < |table| && table[i].pid != 0 ==> table[i].refCnt > 0)
  }

  /** How often the table says `pid` has the control device open. */
  function Opens(table: seq<ControlSlot>, pid: nat): nat
  {
    var i := EntryOf(table, pid, |table|);
    if i < |table| then table[i].refCnt else 0
  }

  datatype ControlOutcome = Done | LastClosed | TooMany | NoSuchClient

  function AddClient(table: seq<ControlSlot>, pid: nat): (r: (seq<ControlSlot>, ControlOutcome))
  {
    var i, free := EntryOf(table, pid, |table|), EntryOf(table, 0, |table|);
    if i < |table| then (table[i := ControlSlot(pid, table[i].refCnt + 1)], Done)
    else if free == |table| then (table, TooMany)
    else (table[free := ControlSlot(pid, 1)], Done)
  }

  function RemoveClient(table: seq<ControlSlot>, pid: nat): (r: (seq<ControlSlot>, ControlOutcome))
    requires TidyTable(table)
  {
    var i := EntryOf(table, pid, |table|);
    if i == |table| || table[i].refCnt == 0 then (table, NoSuchClient)
    else if table[i].refCnt == 1 then (table[i := ControlSlot(0, 0)], LastClosed)
    else (table[i := ControlSlot(pid, table[i].refCnt - 1)], Done)
  }

  lemma OpensAt(table: seq<ControlSlot>, i: nat)
    requires TidyTable(table) && i < |table| && table[i].pid != 0
    ensures Opens(table, table[i].pid) == table[i].refCnt
  {
    assert EntryOf(table, table[i].pid, |table|) == i;
  }

  /** Changing one entry changes the count of the pids it names and of nobody else. */
  lemma OpensElsewhere(table: seq<ControlSlot>, i: nat, slot: ControlSlot, pid: nat)
    requires i < |table| && pid != table[i].pid && pid != slot.pid
    ensures Opens(table[i := slot], pid) == Opens(table, pid)
  {
    var k, k' := EntryOf(table, pid, |table|), EntryOf(table[i := slot], pid, |table|);
    if k < |table| {
      assert table[i := slot][k] == table[k];
    }
    if k' < |table| {
      assert table[k'] == table[i := slot][k'];
    }
  }

  lemma AddClientCounts(table: seq<ControlSlot>, pid: nat, other: nat)
    requires TidyTable(table) && pid > 0 && other > 0
    ensures var (next, outcome) := AddClient(table, pid);
      && TidyTable(next) && |next| == |table|
      && (outcome == TooMany <==> Opens(table, pid) == 0 && forall i :: 0 <= i < |table| ==> table[i].pid != 0)
      && (outcome == TooMany || outcome == Done)
      && Opens(next, other) == Opens(table, other) + if outcome == Done && other == pid then 1 else 0
  {
    var (next, outcome) := AddClient(table, pid);
    var i, free := EntryOf(table, pid, |table|), EntryOf(table, 0, |table|);
    if outcome == Done {
      var at := if i < |table| then i else free;
      if other == pid {
        OpensAt(next, at);
      } else {
        OpensElsewhere(table, at, next[at], other);
      }
    }
  }

  lemma RemoveClientCounts(table: seq<ControlSlot>, pid: nat, other: nat)
    requires TidyTable(table) && pid > 0 && other > 0
    ensures var (next, outcome) := RemoveClient(table, pid);
      && TidyTable(next) && |next| == |table|
      && (outcome == NoSuchClient <==> Opens(table, pid) == 0)
      && (outcome == LastClosed <==> Opens(table, pid) == 1)
      && (outcome == Done <==> Opens(table, pid) > 1)
      && Opens(next, other) == Opens(table, other) - if outcome != NoSuchClient && other == pid then 1 else 0
  {
    var (next, outcome) := RemoveClient(table, pid);
    var i := EntryOf(table, pid, |table|);
    if outcome != NoSuchClient {
      OpensAt(table, i);
      if other == pid {
        if outcome == Done {
          OpensAt(next, i);
        } else {
          assert forall j :: 0 <= j < |next| ==> next[j].pid != pid;
        }
      } else {
        OpensElsewhere(table, i, next[i], other);
      }
    }
  }
}
