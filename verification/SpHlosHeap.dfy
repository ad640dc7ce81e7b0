/** The heap and its buffers as objects. */
module SpHlosHeap {
  import opened Options
  import opened SpHlosHeapRuns
  import opened SpHlosHeapSpec

  class Buffer {
    ghost const handle: nat
    const run: set<nat>
    const pages: array<nat>
    const pagecount: nat
    var vmapCount: nat
    var vaddr: Option<nat>

    ghost function View(): Buf
      reads this
    {
      Buf(run, pagecount, vmapCount, vaddr)
    }

    /** The page array names pages of the buffer only. */
    ghost predicate Laid()
      reads pages
    {
      pages.Length == pagecount && forall i :: 0 <= i < pagecount ==> pages[i] in run
    }

    /** There is an address exactly while the buffer is mapped. */
    ghost predicate Valid()
      reads this
    {
      vaddr.Some? <==> vmapCount > 0
    }

    /** The page array names the run that starts at base, in order. */
    constructor (base: nat, pagecount: nat, ghost handle: nat)
      ensures this.handle == handle
      ensures Laid() && Valid() && fresh(pages) && View() == Buf(Range(base, pagecount), pagecount, 0, None)
      ensures forall i :: 0 <= i < pagecount ==> pages[i] == base + i
    {
      this.handle, this.pagecount, run := handle, pagecount, Range(base, pagecount);
      pages := new nat[pagecount];
      vmapCount, vaddr := 0, None;
      new;
      for page := 0 to pagecount
        modifies pages
        invariant forall i :: 0 <= i < page ==> pages[i] == base + i
      {
        pages[page] := base + page;
      }
    }

    /** A user mapping never reaches a page outside the buffer. */
    method VmFault(pgoff: nat) returns (page: Option<nat>)
      requires Laid()
      ensures page == if pgoff < View().count then Some(pages[pgoff]) else None
      ensures page.Some? ==> page.value in View().pages
    {
      if pgoff >= pagecount {
        return None;
      }
      page := Some(pages[pgoff]);
    }

    /** Whoever maps the buffer while it is mapped gets the address the first one got. */
    method VMap(newVaddr: Option<nat>) returns (mapped: Option<nat>)
      requires Valid()
      modifies this
      ensures Valid()
      ensures mapped == if old(vmapCount) > 0 then old(vaddr) else newVaddr
      ensures View() == if mapped == None then old(View())
                        else old(View()).(vmapCount := old(vmapCount) + 1, vaddr := mapped)
    {
      if vmapCount > 0 {
        vmapCount := vmapCount + 1;
        return vaddr;
      }
      if newVaddr == None {
        return None;
      }
      vaddr := newVaddr;
      vmapCount := 1;
      mapped := newVaddr;
    }

    /** The address goes with the last user. */
    method VUnmap() returns (unmapped: bool)
      requires Valid() && vmapCount > 0
      modifies this
      ensures Valid() && vmapCount == old(vmapCount) - 1
      ensures unmapped <==> vmapCount == 0
      ensures vaddr == if unmapped then None else old(vaddr)
    {
      vmapCount := vmapCount - 1;
      unmapped := vmapCount == 0;
      if unmapped {
        vaddr := None;
      }
    }
  }

  lemma RangeGrows(zeroed: set<nat>, base: nat, count: nat)
    ensures zeroed + Range(base, count + 1) == zeroed + Range(base, count) + {base + count}
  {
  }

  ghost function MappedState(s: State, h: nat, mapped: Option<nat>): State
    requires h in s.live
  {
    if mapped == None then s
    else s.(live := s.live[h := s.live[h].(vmapCount := s.live[h].vmapCount + 1, vaddr := mapped)],
            mappings := s.mappings + if s.live[h].vmapCount == 0 then 1 else 0)
  }

  lemma VMapFields(s: State, h: nat, newVaddr: Option<nat>)
    requires h in s.live && (s.live[h].vaddr.Some? <==> s.live[h].vmapCount > 0)
    ensures VMap(s, h, newVaddr) == MappedState(s, h, if s.live[h].vmapCount > 0 then s.live[h].vaddr else newVaddr)
  {
  }

  class Heap {
    ghost const all: set<nat>
    var pool: set<nat>
    var quarantine: set<nat>
    var buffers: map<nat, Buffer>
    var nextHandle: nat
    var shared: set<nat>
    var zeroed: set<nat>
    var mappings: nat
    ghost var live: map<nat, Buf>

    ghost function Objects(): set<Buffer>
      reads this
    {
      set h | h in buffers :: buffers[h]
    }

    ghost function View(): State
      reads this
    {
      State(pool, quarantine, live, nextHandle, shared, zeroed, mappings)
    }

    /** live is what the buffer objects hold. */
    ghost predicate Linked()
      reads this, Objects()
    {
      && buffers.Keys == live.Keys
      && forall h :: h in buffers ==> buffers[h].handle == h && buffers[h].Valid() && buffers[h].View() == live[h]
    }

    ghost predicate Valid()
      reads this, Objects()
    {
      Linked() && Inv(View(), all)
    }

    constructor (ghost all: set<nat>, pool: set<nat>)
      requires pool == all
      ensures this.all == all && Valid() && View() == Booted(all)
    {
      this.all, live := all, map[];
      this.pool, quarantine, buffers, nextHandle, shared, zeroed, mappings := pool, {}, map[], 0, {}, {}, 0;
    }

    method AssignMem(pages: set<nat>, fromShared: bool, toShared: bool, answer: int) returns (ok: bool)
      modifies this`shared
      ensures (ok, shared) == Assign(old(shared), pages, fromShared, toShared, answer)
    {
      var r := Assign(shared, pages, fromShared, toShared, answer);
      ok, shared := r.0, r.1;
    }

    method ClearPages(base: nat, count: nat)
      modifies this`zeroed
      ensures zeroed == old(zeroed) + Range(base, count)
    {
      ghost var before := zeroed;
      for page := 0 to count
        invariant zeroed == before + Range(base, page)
      {
        RangeGrows(before, base, page);
        zeroed := zeroed + {base + page};
      }
    }

    /** Succeeds exactly if everything is granted; a refusal leaves every buffer alone, and the pool as well unless a
        failed export could not be reclaimed. */
    method Allocate(len: nat, heapFlags: nat, env: Env) returns (outcome: Outcome)
      requires Valid()
      modifies this
      ensures Valid() && (View(), outcome) == SpHlosHeapSpec.Allocate(old(View()), len, heapFlags, env)
      ensures outcome.Exported? <==> Granted(old(View()), len, heapFlags, env)
      ensures outcome.Exported? ==> Delivered(old(View()), View(), len)
      ensures outcome.Exported? ==> fresh(buffers[old(nextHandle)]) && buffers[old(nextHandle)].Laid()
      ensures outcome.Refused? ==> buffers == old(buffers)
      ensures outcome.Refused? ==> pool == old(pool) || (env.reclaimAnswer != 0 && env.exportAnswer != 0)
    {
      ghost var s := View();
      AllocateKeeps(s, all, len, heapFlags, env);
      AllocateExactly(s, all, len, heapFlags, env);
      AllocateDelegates(s, len, heapFlags, env);
      var count := PageAlign(len) / PageSize;
      if len == 0 || len > MaxSize || heapFlags != 0 {
        return Refused(EInval);
      }
      if !env.bufferOk || !(env.base.Some? && Range(env.base.value, count) <= pool) {
        return Refused(ENoMem);
      }
      outcome := ShareRun(env.base.value, count, env);
    }

    method ShareRun(base: nat, count: nat, env: Env) returns (outcome: Outcome)
      requires Linked() && nextHandle !in buffers
      modifies this
      ensures Linked()
      ensures View() == Share(old(View()), Range(base, count), count, env).0
      ensures outcome == Share(old(View()), Range(base, count), count, env).1
      ensures if outcome.Refused? then buffers == old(buffers)
              else old(nextHandle) in buffers && fresh(buffers[old(nextHandle)]) && buffers[old(nextHandle)].Laid()
    {
      var pages := Range(base, count);
      pool := pool - pages;
      ClearPages(base, count);
      if !env.pagesOk {
        pool := pool + pages;
        return Refused(ENoMem);
      }
      var buffer := new Buffer(base, count, nextHandle);
      outcome := ShareBuffer(buffer, env);
    }

    method ShareBuffer(buffer: Buffer, env: Env) returns (outcome: Outcome)
      requires Linked() && buffer.Valid() && nextHandle !in buffers && buffer.handle == nextHandle
      modifies this`buffers, this`live, this`nextHandle, this`pool, this`quarantine, this`shared
      ensures Linked()
      ensures View() == ShareTaken(old(View()), buffer.View(), env).0
      ensures outcome == ShareTaken(old(View()), buffer.View(), env).1
      ensures buffers == if outcome.Exported? then old(buffers)[old(nextHandle) := buffer] else old(buffers)
    {
      var ok := AssignMem(buffer.run, false, true, env.shareAnswer);
      if !ok {
        pool := pool + buffer.run;
        return Refused(env.shareAnswer);
      }
      outcome := ExportBuffer(buffer, env);
    }

    method ExportBuffer(buffer: Buffer, env: Env) returns (outcome: Outcome)
      requires Linked() && buffer.Valid() && nextHandle !in buffers && buffer.handle == nextHandle
      modifies this`buffers, this`live, this`nextHandle, this`pool, this`quarantine, this`shared
      ensures Linked()
      ensures View() == Export(old(View()), buffer.View(), env).0
      ensures outcome == Export(old(View()), buffer.View(), env).1
      ensures buffers == if outcome.Exported? then old(buffers)[old(nextHandle) := buffer] else old(buffers)
    {
      if env.exportAnswer == 0 {
        buffers, live := buffers[nextHandle := buffer], live[nextHandle := buffer.View()];
        nextHandle := nextHandle + 1;
        return Exported;
      }
      Reclaim(buffer.run, env.reclaimAnswer);
      outcome := Refused(env.exportAnswer);
    }

    /** Pages the secure processor may still reach never go back to the pool. */
    method Reclaim(pages: set<nat>, answer: int)
      modifies this`pool, this`quarantine, this`shared
      ensures var (ok, after) := Assign(old(shared), pages, true, false, answer);
        && shared == after
        && pool == (if ok then old(pool) + pages else old(pool))
        && quarantine == if ok then old(quarantine) else old(quarantine) + pages
    {
      var ok := AssignMem(pages, true, false, answer);
      if !ok {
        quarantine := quarantine + pages;
      } else {
        pool := pool + pages;
      }
    }

    method Unlink(h: nat, answer: int)
      requires Linked() && h in buffers
      modifies this
      ensures Linked() && buffers == old(buffers) - {h}
      ensures View() == SpHlosHeapSpec.Release(old(View()), h, answer)
    {
      var buffer := buffers[h];
      if buffer.vmapCount > 0 && mappings > 0 {
        mappings := mappings - 1;
      }
      buffers, live := buffers - {h}, live - {h};
      Reclaim(buffer.run, answer);
    }

    /** The pages go back to the pool exactly if the secure-monitor call succeeds. */
    method Release(h: nat, answer: int)
      requires Valid() && h in buffers
      modifies this
      ensures Valid() && View() == SpHlosHeapSpec.Release(old(View()), h, answer) && buffers == old(buffers) - {h}
      ensures PagesReturned(old(View()), View(), h, answer)
    {
      ReleaseKeeps(View(), all, h, answer);
      ReleaseReturnsPagesExactly(View(), all, h, answer);
      Unlink(h, answer);
    }

    method Remap(h: nat, newVaddr: Option<nat>) returns (mapped: Option<nat>)
      requires Linked() && h in buffers
      modifies this`mappings, this`live, buffers[h]
      ensures Linked()
      ensures mapped == if old(live)[h].vmapCount > 0 then old(live)[h].vaddr else newVaddr
      ensures live == MappedState(old(View()), h, mapped).live
      ensures mappings == MappedState(old(View()), h, mapped).mappings
    {
      var first := buffers[h].vmapCount == 0;
      mapped := buffers[h].VMap(newVaddr);
      if mapped.Some? {
        live := live[h := buffers[h].View()];
        if first {
          mappings := mappings + 1;
        }
      }
    }

    method MapLinked(h: nat, newVaddr: Option<nat>) returns (mapped: Option<nat>)
      requires Linked() && h in buffers
      modifies this`mappings, this`live, buffers[h]
      ensures Linked() && View() == MappedState(old(View()), h, mapped)
      ensures mapped == if old(live)[h].vmapCount > 0 then old(live)[h].vaddr else newVaddr
    {
      mapped := Remap(h, newVaddr);
    }

    method MapBuffer(h: nat, newVaddr: Option<nat>) returns (mapped: Option<nat>)
      requires Valid() && h in buffers
      modifies this`mappings, this`live, buffers[h]
      ensures Valid() && View() == SpHlosHeapSpec.VMap(old(View()), h, newVaddr)
      ensures mapped == if old(live)[h].vmapCount > 0 then old(live)[h].vaddr else newVaddr
    {
      MapKeeps(View(), all, h, newVaddr);
      VMapFields(View(), h, newVaddr);
      mapped := MapLinked(h, newVaddr);
    }

    method Unmap(h: nat)
      requires Linked() && h in buffers && buffers[h].vmapCount > 0
      modifies this`mappings, this`live, buffers[h]
      ensures Linked() && View() == SpHlosHeapSpec.VUnmap(old(View()), h)
    {
      var unmapped := buffers[h].VUnmap();
      if unmapped {
        mappings := if mappings > 0 then mappings - 1 else 0;
      }
      live := live[h := buffers[h].View()];
    }

    method UnmapBuffer(h: nat)
      requires Valid() && h in buffers && buffers[h].vmapCount > 0
      modifies this`mappings, this`live, buffers[h]
      ensures Valid() && View() == SpHlosHeapSpec.VUnmap(old(View()), h)
    {
      UnmapKeeps(View(), all, h);
      Unmap(h);
    }
  }
}
