/** The table of pinned buffers of an SPCOM channel (kernel/files/spu/spcom.c): lock, unlock and
    unlock-all ioctls, and the removal of the sp_kernel link. A buffer is a DMA-BUF or a QTEE
    shared-memory file; the driver holds one reference for each slot that names it. */
module SpcomDmaBufSpec {
  import opened Options

  const MaxDmaBufPerCh := 0x20 + 4

  datatype Buf = DmaBuf(id: nat) | TeeShm(id: nat)

  datatype Slot = Empty | Held(buf: Buf, owner: nat)

  datatype Outcome = Ok | NoPid | NoHandle | Closed | AlreadyLocked | NoFreeSlot | NotFound | NotOwner

  /** 1 if the slot names `buf`, else 0. */
  function Names1(slot: Slot, buf: Buf): nat
  {
    if slot.Held? && slot.buf == buf then 1 else 0
  }

  /** How many slots name `buf`. */
  function Names(slots: seq<Slot>, buf: Buf): nat
  {
    if slots == [] then 0 else Names(slots[..|slots| - 1], buf) + Names1(slots[|slots| - 1], buf)
  }

  /** No two slots of a channel name the same buffer. */
  ghost predicate Unique(slots: seq<Slot>)
  {
    forall i, j :: 0 <= i < j < |slots| && slots[i].Held? && slots[j].Held? ==> slots[i].buf != slots[j].buf
  }

  predicate Matches(slot: Slot, buf: Option<Buf>)
  {
    match buf
    case None => slot.Empty?
    case Some(b) => slot.Held? && slot.buf == b
  }

  /** The first slot that names `buf` (or is empty, for None), or the length. */
  function IndexOf(slots: seq<Slot>, buf: Option<Buf>): (i: nat)
    ensures i <= |slots| && (i < |slots| ==> Matches(slots[i], buf))
    ensures forall j :: 0 <= j < i ==> !Matches(slots[j], buf)
  {
    if slots == [] then 0
    else
      var i := IndexOf(slots[..|slots| - 1], buf);
      if i < |slots| - 1 || Matches(slots[|slots| - 1], buf) then i else |slots|
  }

  /** spcom_ioctl_handle_lock_dmabuf_command, which looks at the process first; `found` is what the descriptor resolves to. */
  function Lock(open: bool, slots: seq<Slot>, found: Option<Buf>, pid: nat): (r: (seq<Slot>, Outcome))
  {
    if pid == 0 then (slots, NoPid)
    else if found.None? then (slots, NoHandle)
    else if !open then (slots, Closed)
    else if IndexOf(slots, found) < |slots| then (slots, AlreadyLocked)
    else
      var i := IndexOf(slots, None);
      if i == |slots| then (slots, NoFreeSlot) else (slots[i := Held(found.value, pid)], Ok)
  }

  /** The unlock ioctl for one descriptor. */
  function Unlock(slots: seq<Slot>, found: Option<Buf>, pid: nat): (r: (seq<Slot>, Outcome))
  {
    if found.None? then (slots, NoHandle)
    else
      var i := IndexOf(slots, found);
      if i == |slots| then (slots, NotFound)
      else if pid == 0 then (slots, NoPid)
      else if slots[i].owner != pid then (slots, NotOwner)
      else (slots[i := Empty], Ok)
  }

  /** Frees the slots that `free` selects. */
  function Sweep(slots: seq<Slot>, free: Slot -> bool): (swept: seq<Slot>)
    ensures |swept| == |slots|
    ensures forall i :: 0 <= i < |slots| ==> swept[i] == if slots[i].Held? && free(slots[i]) then Empty else slots[i]
  {
    if slots == [] then []
    else
      var last := slots[|slots| - 1];
      Sweep(slots[..|slots| - 1], free) + [if last.Held? && free(last) then Empty else last]
  }

  function OwnedBy(pid: nat): Slot -> bool
  {
    (slot: Slot) => pid != 0 && slot.Held? && slot.owner == pid
  }

  function IsDmaBuf(): Slot -> bool
  {
    (slot: Slot) => slot.Held? && slot.buf.DmaBuf?
  }

  function UnlockAll(slots: seq<Slot>, pid: nat): seq<Slot>
  {
    Sweep(slots, OwnedBy(pid))
  }

  /** The removal of the sp_kernel link drops the DMA-BUFs, whoever owns them, and keeps the files. */
  function LinkRemoved(slots: seq<Slot>): seq<Slot>
  {
    Sweep(slots, IsDmaBuf())
  }

  // ---------- names follow slots ----------

  lemma {:induction false} NamesUpdate(slots: seq<Slot>, i: nat, slot: Slot, buf: Buf)
    requires i < |slots|
    ensures Names(slots[i := slot], buf) + Names1(slots[i], buf) == Names(slots, buf) + Names1(slot, buf)
    decreases |slots|
  {
    var last := |slots| - 1;
    if i < last {
      NamesUpdate(slots[..last], i, slot, buf);
      assert slots[i := slot][..last] == slots[..last][i := slot];
    } else {
      assert slots[i := slot][..last] == slots[..last];
    }
  }

  lemma {:induction false} NamesMember(slots: seq<Slot>, i: nat, buf: Buf)
    requires i < |slots|
    ensures Names1(slots[i], buf) <= Names(slots, buf)
    decreases |slots|
  {
    if i < |slots| - 1 {
      NamesMember(slots[..|slots| - 1], i, buf);
    }
  }

  lemma {:induction false} NamedIsSlotted(slots: seq<Slot>, buf: Buf)
    ensures Names(slots, buf) > 0 <==> IndexOf(slots, Some(buf)) < |slots|
    decreases |slots|
  {
    if slots != [] {
      NamedIsSlotted(slots[..|slots| - 1], buf);
    }
  }

  /** Unique slots name a buffer at most once. */
  lemma {:induction false} UniqueNames(slots: seq<Slot>, buf: Buf)
    requires Unique(slots)
    ensures Names(slots, buf) <= 1
    decreases |slots|
  {
    if slots != [] {
      var rest := slots[..|slots| - 1];
      UniqueNames(rest, buf);
      NamedIsSlotted(rest, buf);
      if Names(rest, buf) > 0 {
        var i := IndexOf(rest, Some(buf));
        assert slots[i] == rest[i];
      }
    }
  }

  /** 1 for the buffer a successful call is about. */
  function Moved(found: Option<Buf>, outcome: Outcome, buf: Buf): nat
  {
    if outcome == Ok && found == Some(buf) then 1 else 0
  }

  /** A lock pins exactly what it stores, and keeps the names unique. */
  lemma LockKeeps(open: bool, slots: seq<Slot>, found: Option<Buf>, pid: nat)
    requires Unique(slots)
    ensures var (next, outcome) := Lock(open, slots, found, pid);
      && Unique(next) && |next| == |slots|
      && (outcome == Ok <==>
            pid != 0 && found.Some? && open && Names(slots, found.value) == 0 && IndexOf(slots, None) < |slots|)
      && (outcome == Ok ==> Held(found.value, pid) in next)
      && (forall i :: 0 <= i < |slots| && slots[i].Held? ==> next[i] == slots[i])
  {
    if pid != 0 && found.Some? {
      NamedIsSlotted(slots, found.value);
      var i := IndexOf(slots, None);
      if open && IndexOf(slots, found) == |slots| && i < |slots| {
        assert slots[i := Held(found.value, pid)][i] == Held(found.value, pid);
      }
    }
  }

  lemma LockNames(open: bool, slots: seq<Slot>, found: Option<Buf>, pid: nat, buf: Buf)
    ensures var (next, outcome) := Lock(open, slots, found, pid);
      Names(next, buf) == Names(slots, buf) + Moved(found, outcome, buf)
  {
    if Lock(open, slots, found, pid).1 == Ok {
      NamesUpdate(slots, IndexOf(slots, None), Held(found.value, pid), buf);
    }
  }

  /** An unlock frees exactly the slot of the buffer, and only for its owner. */
  lemma UnlockKeeps(slots: seq<Slot>, found: Option<Buf>, pid: nat)
    requires Unique(slots)
    ensures var (next, outcome) := Unlock(slots, found, pid);
      && Unique(next) && |next| == |slots|
      && (outcome == Ok <==> pid != 0 && found.Some? && Held(found.value, pid) in slots)
      && (forall i :: 0 <= i < |slots| && next[i] != slots[i] ==>
            found.Some? && slots[i] == Held(found.value, pid) && next[i] == Empty)
  {
    if pid != 0 && found.Some? {
      var i := IndexOf(slots, found);
      if i < |slots| && slots[i].owner == pid {
        assert slots[i] == Held(found.value, pid);
      }
      if Held(found.value, pid) in slots {
        var j :| 0 <= j < |slots| && slots[j] == Held(found.value, pid);
        assert Matches(slots[j], found);
      }
    }
  }

  lemma UnlockNames(slots: seq<Slot>, found: Option<Buf>, pid: nat, buf: Buf)
    requires Unique(slots)
    ensures var (next, outcome) := Unlock(slots, found, pid);
      Names(slots, buf) == Names(next, buf) + Moved(found, outcome, buf)
  {
    if Unlock(slots, found, pid).1 == Ok {
      NamesUpdate(slots, IndexOf(slots, found), Empty, buf);
    }
  }

  /** The references to `buf` a sweep gives back: one for each slot it frees. */
  function Swept(slots: seq<Slot>, free: Slot -> bool, buf: Buf): nat
  {
    if slots == [] then 0
    else
      var last := slots[|slots| - 1];
      Swept(slots[..|slots| - 1], free, buf) + if free(last) then Names1(last, buf) else 0
  }

  /** The references a sweep puts back, as a multiset. */
  function SweptRefs(slots: seq<Slot>, free: Slot -> bool): multiset<Buf>
  {
    if slots == [] then multiset{}
    else
      var last := slots[|slots| - 1];
      SweptRefs(slots[..|slots| - 1], free) + if last.Held? && free(last) then multiset{last.buf} else multiset{}
  }

  lemma {:induction false} SweptRefsCount(slots: seq<Slot>, free: Slot -> bool, buf: Buf)
    ensures SweptRefs(slots, free)[buf] == Swept(slots, free, buf)
    decreases |slots|
  {
    if slots != [] {
      SweptRefsCount(slots[..|slots| - 1], free, buf);
    }
  }

  lemma {:induction false} SweepNames(slots: seq<Slot>, free: Slot -> bool, buf: Buf)
    ensures Names(slots, buf) == Names(Sweep(slots, free), buf) + Swept(slots, free, buf)
    decreases |slots|
  {
    if slots != [] {
      SweepNames(slots[..|slots| - 1], free, buf);
      assert Sweep(slots, free)[..|slots| - 1] == Sweep(slots[..|slots| - 1], free);
    }
  }
}
