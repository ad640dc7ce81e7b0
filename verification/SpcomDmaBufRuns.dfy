/** All channels of the device share the references; every sequence of calls conserves them. */
module SpcomDmaBufRuns {
  import opened Options
  import opened SpcomDmaBufSpec

  datatype Table = Table(isSpKernel: bool, open: bool, slots: seq<Slot>)

  /** `refs` are the references the driver holds. */
  datatype Device = Device(tables: seq<Table>, refs: multiset<Buf>)

  datatype Call =
    | LockCall(c: nat, found: Option<Buf>, pid: nat)
    | UnlockCall(c: nat, found: Option<Buf>, pid: nat)
    | UnlockAllCall(c: nat, pid: nat)
    | RemoveLink(c: nat)
    | OpenChannel(c: nat)

  /** How many slots of all channels name `buf`. */
  function AllNames(tables: seq<Table>, buf: Buf): nat
  {
    if tables == [] then 0 else AllNames(tables[..|tables| - 1], buf) + Names(tables[|tables| - 1].slots, buf)
  }

  ghost predicate Conserved(d: Device)
  {
    && (forall buf :: d.refs[buf] == AllNames(d.tables, buf))
    && forall c :: 0 <= c < |d.tables| ==> Unique(d.tables[c].slots)
  }

  function One(found: Option<Buf>): multiset<Buf>
  {
    if found.Some? then multiset{found.value} else multiset{}
  }

  function NextSlots(table: Table, call: Call): seq<Slot>
  {
    match call
    case LockCall(_, found, pid) => Lock(table.open, table.slots, found, pid).0
    case UnlockCall(_, found, pid) => Unlock(table.slots, found, pid).0
    case UnlockAllCall(_, pid) => UnlockAll(table.slots, pid)
    case RemoveLink(_) => if table.isSpKernel then LinkRemoved(table.slots) else table.slots
    case OpenChannel(_) => table.slots
  }

  function LockedRefs(refs: multiset<Buf>, found: Option<Buf>, outcome: Outcome): multiset<Buf>
  {
    refs + One(found) - (if outcome == Ok then multiset{} else One(found))
  }

  function UnlockedRefs(refs: multiset<Buf>, found: Option<Buf>, outcome: Outcome): multiset<Buf>
  {
    refs + One(found) - (if outcome == Ok then One(found) else multiset{}) - One(found)
  }

  /** References are taken when a descriptor resolves, and given back on every early exit and for every
      slot freed. */
  function NextRefs(refs: multiset<Buf>, table: Table, call: Call): multiset<Buf>
  {
    match call
    case LockCall(_, found, pid) => LockedRefs(refs, found, Lock(table.open, table.slots, found, pid).1)
    case UnlockCall(_, found, pid) => UnlockedRefs(refs, found, Unlock(table.slots, found, pid).1)
    case UnlockAllCall(_, pid) => refs - SweptRefs(table.slots, OwnedBy(pid))
    case RemoveLink(_) => if table.isSpKernel then refs - SweptRefs(table.slots, IsDmaBuf()) else refs
    case OpenChannel(_) => refs
  }

  function NextTable(table: Table, call: Call): Table
  {
    table.(slots := NextSlots(table, call), open := table.open || call.OpenChannel?)
  }

  function Apply(d: Device, call: Call): Device
  {
    if call.c >= |d.tables| then d
    else
      var table := d.tables[call.c];
      Device(d.tables[call.c := NextTable(table, call)], NextRefs(d.refs, table, call))
  }

  lemma {:induction false} AllNamesUpdate(tables: seq<Table>, c: nat, table: Table, buf: Buf)
    requires c < |tables|
    ensures AllNames(tables[c := table], buf) + Names(tables[c].slots, buf) == AllNames(tables, buf) + Names(table.slots, buf)
    decreases |tables|
  {
    var last := |tables| - 1;
    if c < last {
      AllNamesUpdate(tables[..last], c, table, buf);
      assert tables[c := table][..last] == tables[..last][c := table];
    } else {
      assert tables[c := table][..last] == tables[..last];
    }
  }

  /** One channel's names move with the references of one buffer. */
  lemma RefsFollowNames(refs: multiset<Buf>, table: Table, call: Call, buf: Buf)
    requires Unique(table.slots) && Names(table.slots, buf) <= refs[buf]
    ensures NextRefs(refs, table, call)[buf] + Names(table.slots, buf) == refs[buf] + Names(NextSlots(table, call), buf)
  {
    match call
    case LockCall(_, found, pid) => LockRefs(refs, table, found, pid, buf);
    case UnlockCall(_, found, pid) => UnlockRefs(refs, table, found, pid, buf);
    case UnlockAllCall(_, pid) => SweepRefs(refs, table.slots, OwnedBy(pid), buf);
    case RemoveLink(_) => SweepRefs(refs, table.slots, IsDmaBuf(), buf);
    case OpenChannel(_) =>
  }

  lemma SweepRefs(refs: multiset<Buf>, slots: seq<Slot>, free: Slot -> bool, buf: Buf)
    requires Names(slots, buf) <= refs[buf]
    ensures (refs - SweptRefs(slots, free))[buf] + Names(slots, buf) == refs[buf] + Names(Sweep(slots, free), buf)
  {
    SweepNames(slots, free, buf);
    SweptRefsCount(slots, free, buf);
  }

  lemma LockRefs(refs: multiset<Buf>, table: Table, found: Option<Buf>, pid: nat, buf: Buf)
    ensures LockedRefs(refs, found, Lock(table.open, table.slots, found, pid).1)[buf] + Names(table.slots, buf)
      == refs[buf] + Names(Lock(table.open, table.slots, found, pid).0, buf)
  {
    LockNames(table.open, table.slots, found, pid, buf);
    LockedRefsAt(refs, found, Lock(table.open, table.slots, found, pid).1, buf);
  }

  lemma UnlockRefs(refs: multiset<Buf>, table: Table, found: Option<Buf>, pid: nat, buf: Buf)
    requires Unique(table.slots) && Names(table.slots, buf) <= refs[buf]
    ensures UnlockedRefs(refs, found, Unlock(table.slots, found, pid).1)[buf] + Names(table.slots, buf)
      == refs[buf] + Names(Unlock(table.slots, found, pid).0, buf)
  {
    UnlockNames(table.slots, found, pid, buf);
    UnlockedRefsAt(refs, found, Unlock(table.slots, found, pid).1, buf);
  }

  lemma LockedRefsAt(refs: multiset<Buf>, found: Option<Buf>, outcome: Outcome, buf: Buf)
    ensures LockedRefs(refs, found, outcome)[buf] == refs[buf] + if outcome == Ok && found == Some(buf) then 1 else 0
  {
    assert One(found)[buf] == if found == Some(buf) then 1 else 0;
  }

  lemma UnlockedRefsAt(refs: multiset<Buf>, found: Option<Buf>, outcome: Outcome, buf: Buf)
    ensures UnlockedRefs(refs, found, outcome)[buf]
         == if outcome == Ok && found == Some(buf) && refs[buf] > 0 then refs[buf] - 1 else refs[buf]
  {
    assert One(found)[buf] == if found == Some(buf) then 1 else 0;
  }

  lemma {:induction false} NamesWithinAll(tables: seq<Table>, c: nat, buf: Buf)
    requires c < |tables|
    ensures Names(tables[c].slots, buf) <= AllNames(tables, buf)
    decreases |tables|
  {
    if c < |tables| - 1 {
      NamesWithinAll(tables[..|tables| - 1], c, buf);
    }
  }

  lemma NextUnique(table: Table, call: Call)
    requires Unique(table.slots)
    ensures Unique(NextSlots(table, call)) && |NextSlots(table, call)| == |table.slots|
  {
    match call
    case LockCall(_, found, pid) => LockKeeps(table.open, table.slots, found, pid);
    case UnlockCall(_, found, pid) => UnlockKeeps(table.slots, found, pid);
    case _ =>
  }

  lemma RefsFollowTable(tables: seq<Table>, held: nat, c: nat, next: Table, heldNext: nat, buf: Buf)
    requires c < |tables| && held == AllNames(tables, buf)
    requires heldNext + Names(tables[c].slots, buf) == held + Names(next.slots, buf)
    ensures heldNext == AllNames(tables[c := next], buf)
  {
    AllNamesUpdate(tables, c, next, buf);
  }

  lemma RefsAfter(d: Device, call: Call, buf: Buf)
    requires Conserved(d)
    ensures Apply(d, call).refs[buf] == AllNames(Apply(d, call).tables, buf)
  {
    assert d.refs[buf] == AllNames(d.tables, buf);
    if call.c < |d.tables| {
      var table := d.tables[call.c];
      var next, refs := NextTable(table, call), NextRefs(d.refs, table, call);
      NamesWithinAll(d.tables, call.c, buf);
      RefsFollowNames(d.refs, table, call, buf);
      RefsFollowTable(d.tables, d.refs[buf], call.c, next, refs[buf], buf);
    }
  }

  /** After any call the references the driver holds on each buffer equal the slots naming it. */
  lemma ApplyKeeps(d: Device, call: Call)
    requires Conserved(d)
    ensures Conserved(Apply(d, call)) && |Apply(d, call).tables| == |d.tables|
  {
    if call.c < |d.tables| {
      NextUnique(d.tables[call.c], call);
    }
    forall buf ensures Apply(d, call).refs[buf] == AllNames(Apply(d, call).tables, buf) {
      RefsAfter(d, call, buf);
    }
  }

  function Run(d: Device, calls: seq<Call>): Device
    decreases |calls|
  {
    if calls == [] then d else Run(Apply(d, calls[0]), calls[1..])
  }

  /** Reference conservation over every run. */
  lemma {:induction false} RunConserves(d: Device, calls: seq<Call>)
    requires Conserved(d)
    ensures Conserved(Run(d, calls))
    decreases |calls|
  {
    if calls != [] {
      ApplyKeeps(d, calls[0]);
      RunConserves(Apply(d, calls[0]), calls[1..]);
    }
  }

  /** What entitles a call to free a slot of its channel: ownership, or the removal of the sp_kernel link. */
  predicate MayFree(table: Table, slot: Slot, call: Call)
  {
    slot.Held? &&
    (((call.UnlockCall? || call.UnlockAllCall?) && call.pid == slot.owner != 0)
     || (call.RemoveLink? && table.isSpKernel && slot.buf.DmaBuf?))
  }

  /** A pinned slot is freed by its owner or by the removal of the sp_kernel link, never otherwise, and
      only in the channel the call names. */
  lemma OnlyOwnerFrees(d: Device, call: Call, c: nat, i: nat)
    requires Conserved(d) && c < |d.tables| && i < |d.tables[c].slots| && d.tables[c].slots[i].Held?
    ensures |Apply(d, call).tables| == |d.tables| && |Apply(d, call).tables[c].slots| == |d.tables[c].slots|
    ensures var before, after := d.tables[c].slots[i], Apply(d, call).tables[c].slots[i];
      after == before || (after == Empty && call.c == c && MayFree(d.tables[c], before, call))
  {
    if call.c == c {
      NextUnique(d.tables[c], call);
      FreesOnlyOwned(d.tables[c], call, i);
    }
  }

  lemma FreesOnlyOwned(table: Table, call: Call, i: nat)
    requires Unique(table.slots) && i < |table.slots| == |NextSlots(table, call)| && table.slots[i].Held?
    ensures NextSlots(table, call)[i] == table.slots[i]
      || (NextSlots(table, call)[i] == Empty && MayFree(table, table.slots[i], call))
  {
    match call
    case LockCall(_, found, pid) => LockKeeps(table.open, table.slots, found, pid);
    case UnlockCall(_, found, pid) => UnlockKeeps(table.slots, found, pid);
    case _ =>
  }
}
