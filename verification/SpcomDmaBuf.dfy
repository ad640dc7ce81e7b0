/** The channel's table and the reference counts as objects. */
module SpcomDmaBuf {
  import opened Options
  import opened SpcomDmaBufSpec

  /** The kernel's reference counts, as far as this driver holds any. */
  class References {
    ghost var held: multiset<Buf>

    constructor ()
      ensures held == multiset{}
    {
      held := multiset{};
    }

    /** dma_buf_get, or fget of a QTEE file. */
    method Get(buf: Buf)
      modifies this
      ensures held == old(held) + multiset{buf}
    {
      held := held + multiset{buf};
    }

    /** dma_buf_put and fput need a reference to drop. */
    method Put(buf: Buf)
      requires buf in held
      modifies this
      ensures held == old(held) - multiset{buf}
    {
      held := held - multiset{buf};
    }
  }

  /** Every slot is backed by a reference. */
  ghost predicate Covered(slots: seq<Slot>, held: multiset<Buf>)
  {
    forall buf :: Names(slots, buf) <= held[buf]
  }

  class BufTable {
    const slots: array<Slot>
    const refs: References
    var open: bool

    ghost predicate Valid()
      reads this, slots, refs
    {
      Unique(slots[..]) && Covered(slots[..], refs.held)
    }

    constructor (refs: References)
      ensures Valid() && fresh(slots) && slots.Length == MaxDmaBufPerCh && this.refs == refs && !open
      ensures forall i :: 0 <= i < slots.Length ==> slots[i] == Empty
    {
      slots := new Slot[MaxDmaBufPerCh](_ => Empty);
      this.refs, open := refs, false;
      new;
      forall buf ensures Names(slots[..], buf) == 0 {
        NamedIsSlotted(slots[..], buf);
      }
    }

    method Find(buf: Option<Buf>) returns (i: nat)
      ensures i == IndexOf(slots[..], buf)
    {
      i := 0;
      while i < slots.Length && !Matches(slots[i], buf)
        invariant i <= slots.Length
        invariant forall j :: 0 <= j < i ==> !Matches(slots[j], buf)
      {
        i := i + 1;
      }
    }

    /** The lock ioctl: a slot keeps the reference just taken, every other exit drops it. */
    method Lock(found: Option<Buf>, pid: nat) returns (outcome: Outcome)
      requires Valid()
      modifies slots, refs
      ensures (slots[..], outcome) == SpcomDmaBufSpec.Lock(open, old(slots[..]), found, pid)
      ensures forall buf :: refs.held[buf] == old(refs.held)[buf] + Moved(found, outcome, buf)
    {
      if pid == 0 {
        return NoPid;
      }
      if found.None? {
        return NoHandle;
      }
      refs.Get(found.value);
      if !open {
        refs.Put(found.value);
        return Closed;
      }
      var i := Find(found);
      if i < slots.Length {
        refs.Put(found.value);
        return AlreadyLocked;
      }
      i := Find(None);
      if i == slots.Length {
        refs.Put(found.value);
        return NoFreeSlot;
      }
      slots[i] := Held(found.value, pid);
      outcome := Ok;
    }

    /** The unlock ioctl for one descriptor: the lookup's own reference is dropped in any case. */
    method Unlock(found: Option<Buf>, pid: nat) returns (outcome: Outcome)
      requires Valid()
      modifies slots, refs
      ensures (slots[..], outcome) == SpcomDmaBufSpec.Unlock(old(slots[..]), found, pid)
      ensures forall buf :: old(refs.held)[buf] == refs.held[buf] + Moved(found, outcome, buf)
    {
      if found.None? {
        return NoHandle;
      }
      var i := Find(found);
      if i < slots.Length {
        NamesMember(slots[..], i, found.value);
      }
      assert Names(slots[..], found.value) <= refs.held[found.value];
      refs.Get(found.value);
      outcome := NotFound;
      if i < slots.Length {
        outcome := FreeIfOwned(i, pid);
      }
      refs.Put(found.value);
      UnlockMoves(old(refs.held), refs.held, found.value, outcome);
    }

    /** spcom_dmabuf_unlock with the owner check. */
    method FreeIfOwned(i: nat, pid: nat) returns (outcome: Outcome)
      requires i < slots.Length && slots[i].Held? && slots[i].buf in refs.held
      modifies slots, refs
      ensures outcome == if pid == 0 then NoPid else if old(slots[i]).owner == pid then Ok else NotOwner
      ensures slots[..] == if outcome == Ok then old(slots[..])[i := Empty] else old(slots[..])
      ensures slots[i] == if outcome == Ok then Empty else old(slots[i])
      ensures forall j :: 0 <= j < slots.Length && j != i ==> slots[j] == old(slots[j])
      ensures refs.held == if outcome == Ok then old(refs.held) - multiset{old(slots[i]).buf} else old(refs.held)
    {
      if pid == 0 {
        return NoPid;
      }
      if slots[i].owner != pid {
        return NotOwner;
      }
      refs.Put(slots[i].buf);
      slots[i] := Empty;
      outcome := Ok;
    }

    /** spcom_dmabuf_unlock on a slot that may be empty or somebody else's. */
    method UnlockOne(i: nat, pid: nat) returns (freed: bool)
      requires i < slots.Length
      requires OwnedBy(pid)(slots[i]) ==> slots[i].buf in refs.held
      modifies slots, refs
      ensures freed == OwnedBy(pid)(old(slots[i]))
      ensures slots[..] == if freed then old(slots[..])[i := Empty] else old(slots[..])
      ensures refs.held == if freed then old(refs.held) - multiset{old(slots[i]).buf} else old(refs.held)
    {
      freed := pid != 0 && slots[i].Held? && slots[i].owner == pid;
      if freed {
        refs.Put(slots[i].buf);
        slots[i] := Empty;
      }
    }

    /** The unlock ioctl with the unlock-all descriptor: every slot the process owns, and no other. */
    method UnlockAll(pid: nat) returns (found: bool)
      requires Valid()
      modifies slots, refs
      ensures slots[..] == SpcomDmaBufSpec.UnlockAll(old(slots[..]), pid)
      ensures found <==> SweptRefs(old(slots[..]), OwnedBy(pid)) != multiset{}
      ensures refs.held == old(refs.held) - SweptRefs(old(slots[..]), OwnedBy(pid))
    {
      ghost var before := slots[..];
      found := UnlockFrom(pid);
      SweptAll(before, pid);
      assert before[..slots.Length] == before;
    }

    /** One slot after the other. */
    method UnlockFrom(pid: nat) returns (found: bool)
      requires Valid()
      modifies slots, refs
      ensures slots[..] == SweptUpTo(old(slots[..]), pid, slots.Length)
      ensures var swept := SweptRefs(old(slots[..])[..slots.Length], OwnedBy(pid));
        (found <==> swept != multiset{}) && refs.held == old(refs.held) - swept
    {
      ghost var before, held := slots[..], refs.held;
      ghost var swept := SweptRefs(before[..0], OwnedBy(pid));
      found := false;
      for i := 0 to slots.Length
        invariant slots[..] == SweptUpTo(before, pid, i)
        invariant swept == SweptRefs(before[..i], OwnedBy(pid))
        invariant refs.held == held - swept && (found <==> swept != multiset{})
      {
        SweptUpToStep(before, pid, i);
        assert slots[i] == slots[..][i];
        NextSwept(before, held, swept, pid, i);
        swept := SweptRefs(before[..i + 1], OwnedBy(pid));
        var freed := UnlockOne(i, pid);
        found := found || freed;
      }
    }
  }

  /** The first i slots swept, the others as they were. */
  ghost function SweptUpTo(slots: seq<Slot>, pid: nat, i: nat): seq<Slot>
    requires i <= |slots|
  {
    SpcomDmaBufSpec.UnlockAll(slots[..i], pid) + slots[i..]
  }

  lemma SweptUpToStep(slots: seq<Slot>, pid: nat, i: nat)
    requires i < |slots|
    ensures |SweptUpTo(slots, pid, i)| == |slots| && SweptUpTo(slots, pid, i)[i] == slots[i]
    ensures SweptUpTo(slots, pid, i + 1)
         == if OwnedBy(pid)(slots[i]) then SweptUpTo(slots, pid, i)[i := Empty] else SweptUpTo(slots, pid, i)
  {
  }

  /** The lookup's reference is dropped, and the slot's as well when the slot was freed. */
  lemma UnlockMoves(before: multiset<Buf>, after: multiset<Buf>, found: Buf, outcome: Outcome)
    requires outcome != Ok ==> after == before + multiset{found} - multiset{found}
    requires outcome == Ok ==> found in before && after == before + multiset{found} - multiset{found} - multiset{found}
    ensures forall buf :: before[buf] == after[buf] + Moved(Some(found), outcome, buf)
  {
  }

  lemma SweptAll(slots: seq<Slot>, pid: nat)
    ensures SweptUpTo(slots, pid, |slots|) == SpcomDmaBufSpec.UnlockAll(slots, pid)
  {
    assert slots[..|slots|] == slots;
  }

  /** What the sweep gives back next is still there to give. */
  lemma NextSwept(slots: seq<Slot>, held: multiset<Buf>, swept: multiset<Buf>, pid: nat, i: nat)
    requires i < |slots| && swept == SweptRefs(slots[..i], OwnedBy(pid)) && Covered(slots, held)
    ensures var next := SweptRefs(slots[..i + 1], OwnedBy(pid));
      if OwnedBy(pid)(slots[i])
      then slots[i].buf in held - swept && held - next == held - swept - multiset{slots[i].buf} && next != multiset{}
      else next == swept
  {
    SweptRefsStep(slots, OwnedBy(pid), i);
    if OwnedBy(pid)(slots[i]) {
      EnoughLeft(slots, OwnedBy(pid), i);
      SweptRefsCount(slots[..i], OwnedBy(pid), slots[i].buf);
      assert Names(slots, slots[i].buf) <= held[slots[i].buf];
      Remainder(held, swept, slots[i].buf);
      assert slots[i].buf in SweptRefs(slots[..i + 1], OwnedBy(pid));
    }
  }

  lemma SweptRefsStep(slots: seq<Slot>, free: Slot -> bool, i: nat)
    requires i < |slots|
    ensures SweptRefs(slots[..i + 1], free)
      == SweptRefs(slots[..i], free) + if slots[i].Held? && free(slots[i]) then multiset{slots[i].buf} else multiset{}
  {
    assert slots[..i + 1][..i] == slots[..i];
  }

  lemma Remainder(held: multiset<Buf>, swept: multiset<Buf>, buf: Buf)
    ensures held - swept - multiset{buf} == held - (swept + multiset{buf})
  {
  }

  /** The slot a sweep reaches still has its reference. */
  lemma EnoughLeft(slots: seq<Slot>, free: Slot -> bool, i: nat)
    requires i < |slots| && slots[i].Held?
    ensures Swept(slots[..i], free, slots[i].buf) + 1 <= Names(slots, slots[i].buf)
  {
    var buf := slots[i].buf;
    SweepNames(slots[..i], free, buf);
    assert slots[..i + 1][..i] == slots[..i];
    NamesPrefix(slots, i + 1, buf);
  }

  lemma {:induction false} NamesPrefix(slots: seq<Slot>, k: nat, buf: Buf)
    requires k <= |slots|
    ensures Names(slots[..k], buf) <= Names(slots, buf)
    decreases |slots|
  {
    if k < |slots| {
      NamesPrefix(slots[..|slots| - 1], k, buf);
      assert slots[..|slots| - 1][..k] == slots[..k];
    } else {
      assert slots[..k] == slots;
    }
  }
}
