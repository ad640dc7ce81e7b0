/** Every sequence of allocations, mappings and releases. */
module SpHlosHeapRuns {
  import opened Options
  import opened SpHlosHeapSpec

  datatype Action =
    | AllocateBuffer(len: nat, heapFlags: nat, env: Env)
    | ReleaseBuffer(h: nat, answer: int)
    | MapBuffer(h: nat, vaddr: Option<nat>)
    | UnmapBuffer(h: nat)
    | WritePage(page: nat)

  /** Either side may write to a page that is in use. */
  function Apply(s: State, action: Action): State
  {
    match action
    case AllocateBuffer(len, heapFlags, env) => Allocate(s, len, heapFlags, env).0
    case ReleaseBuffer(h, answer) => if h in s.live then Release(s, h, answer) else s
    case MapBuffer(h, vaddr) => if h in s.live then VMap(s, h, vaddr) else s
    case UnmapBuffer(h) => if h in s.live && s.live[h].vmapCount > 0 then VUnmap(s, h) else s
    case WritePage(page) => if page in s.shared then s.(zeroed := s.zeroed - {page}) else s
  }

  function Run(s: State, actions: seq<Action>): State
    decreases |actions|
  {
    if actions == [] then s else Run(Apply(s, actions[0]), actions[1..])
  }

  function Booted(all: set<nat>): State
  {
    State(all, {}, map[], 0, {}, {}, 0)
  }

  // ---------- the invariant ----------

  /** Every page is in the pool, in one live buffer, or in quarantine. */
  predicate Partitioned(s: State, all: set<nat>)
  {
    && s.pool + s.quarantine + LivePages(s.live) == all
    && s.pool !! s.quarantine && s.pool !! LivePages(s.live) && s.quarantine !! LivePages(s.live)
    && forall g, h :: g in s.live && h in s.live && g != h ==> s.live[g].pages !! s.live[h].pages
  }

  /** The secure processor has access to exactly the pages that are live or quarantined. */
  predicate AccessKept(s: State)
  {
    s.shared == s.quarantine + LivePages(s.live)
  }

  function Mapped(live: map<nat, Buf>): set<nat>
  {
    set h | h in live && live[h].vmapCount > 0
  }

  predicate MappingsKept(s: State)
  {
    && s.mappings == |Mapped(s.live)|
    && forall h :: h in s.live ==> (s.live[h].vaddr.Some? <==> s.live[h].vmapCount > 0)
  }

  predicate Inv(s: State, all: set<nat>)
  {
    Partitioned(s, all) && AccessKept(s) && MappingsKept(s) && forall h :: h in s.live ==> h < s.nextHandle
  }

  // ---------- steps ----------

  lemma AddPages(live: map<nat, Buf>, h: nat, buf: Buf)
    requires h !in live
    ensures LivePages(live[h := buf]) == LivePages(live) + buf.pages
    ensures buf.vmapCount == 0 ==> Mapped(live[h := buf]) == Mapped(live)
  {
    var after := live[h := buf];
    forall p | p in LivePages(live) + buf.pages ensures p in LivePages(after) {
      if p in LivePages(live) {
        var g :| g in live && p in live[g].pages;
        assert after[g] == live[g];
      } else {
        assert p in after[h].pages;
      }
    }
  }

  lemma RemovePages(live: map<nat, Buf>, h: nat)
    requires h in live
    requires forall g, k :: g in live && k in live && g != k ==> live[g].pages !! live[k].pages
    ensures LivePages(live - {h}) == LivePages(live) - live[h].pages
    ensures live[h].pages <= LivePages(live)
    ensures Mapped(live - {h}) == Mapped(live) - {h}
  {
    var after := live - {h};
    forall p | p in LivePages(live) - live[h].pages ensures p in LivePages(after) {
      var g :| g in live && p in live[g].pages;
      assert after[g] == live[g];
    }
    forall p | p in LivePages(after) ensures p in LivePages(live) && p !in live[h].pages {
      var g :| g in after && p in after[g].pages;
      assert live[g] == after[g] && live[g].pages !! live[h].pages;
    }
  }

  lemma SamePages(live: map<nat, Buf>, h: nat, buf: Buf)
    requires h in live && buf.pages == live[h].pages
    ensures LivePages(live[h := buf]) == LivePages(live)
    ensures Mapped(live[h := buf]) == if buf.vmapCount > 0 then Mapped(live) + {h} else Mapped(live) - {h}
  {
    var after := live[h := buf];
    assert forall g :: g in live ==> after[g].pages == live[g].pages;
    forall p | p in LivePages(live) ensures p in LivePages(after) {
      var g :| g in live && p in live[g].pages;
      assert p in after[g].pages;
    }
  }

  /** Some pages are out of the pool and nowhere else yet. */
  predicate InTransit(s: State, all: set<nat>, pages: set<nat>)
  {
    && Partitioned(s, all - pages) && pages <= all
    && MappingsKept(s) && forall h :: h in s.live ==> h < s.nextHandle
  }

  lemma TakenOut(s: State, all: set<nat>, pages: set<nat>)
    requires Inv(s, all) && pages <= s.pool
    ensures var taken := s.(pool := s.pool - pages, zeroed := s.zeroed + pages);
      InTransit(taken, all, pages) && AccessKept(taken) && pages !! taken.shared
  {
  }

  lemma PutBackKeeps(s: State, all: set<nat>, pages: set<nat>)
    requires InTransit(s, all, pages) && AccessKept(s)
    ensures Inv(s.(pool := s.pool + pages), all)
  {
  }

  lemma ExportedKeeps(s: State, all: set<nat>, buf: Buf)
    requires InTransit(s, all, buf.pages) && s.shared == s.quarantine + LivePages(s.live) + buf.pages
    requires buf.vmapCount == 0 && buf.vaddr == None
    ensures Inv(s.(live := s.live[s.nextHandle := buf], nextHandle := s.nextHandle + 1), all)
  {
    AddPages(s.live, s.nextHandle, buf);
    var after := s.live[s.nextHandle := buf];
    forall g, h | g in after && h in after && g != h ensures after[g].pages !! after[h].pages {
      assert g in s.live ==> s.live[g].pages <= LivePages(s.live);
      assert h in s.live ==> s.live[h].pages <= LivePages(s.live);
    }
  }

  lemma QuarantineKeeps(s: State, all: set<nat>, pages: set<nat>)
    requires InTransit(s, all, pages) && s.shared == s.quarantine + LivePages(s.live) + pages
    ensures Inv(s.(quarantine := s.quarantine + pages), all)
  {
  }

  lemma ReclaimedKeeps(s: State, all: set<nat>, pages: set<nat>)
    requires InTransit(s, all, pages) && s.shared == s.quarantine + LivePages(s.live) + pages
    ensures Inv(s.(shared := s.shared - pages, pool := s.pool + pages), all)
  {
  }

  lemma ExportKeeps(s: State, all: set<nat>, buf: Buf, env: Env)
    requires InTransit(s, all, buf.pages) && s.shared == s.quarantine + LivePages(s.live) + buf.pages
    requires buf.vmapCount == 0 && buf.vaddr == None
    ensures Inv(Export(s, buf, env).0, all)
  {
    if env.exportAnswer == 0 {
      ExportedKeeps(s, all, buf);
    } else {
      assert buf.pages <= s.shared;
      QuarantineKeeps(s, all, buf.pages);
      ReclaimedKeeps(s, all, buf.pages);
    }
  }

  lemma ShareKeeps(s: State, all: set<nat>, pages: set<nat>, count: nat, env: Env)
    requires Inv(s, all) && pages <= s.pool
    ensures Inv(Share(s, pages, count, env).0, all)
  {
    var taken := s.(pool := s.pool - pages, zeroed := s.zeroed + pages);
    TakenOut(s, all, pages);
    PutBackKeeps(taken, all, pages);
    ExportKeeps(taken.(shared := taken.shared + pages), all, Buf(pages, count, 0, None), env);
  }

  lemma AllocateKeeps(s: State, all: set<nat>, len: nat, heapFlags: nat, env: Env)
    requires Inv(s, all)
    ensures Inv(Allocate(s, len, heapFlags, env).0, all)
  {
    var count := PageAlign(len) / PageSize;
    if Offered(s, env, count) {
      ShareKeeps(s, all, Range(env.base.value, count), count, env);
    }
  }

  lemma ReleaseKeeps(s: State, all: set<nat>, h: nat, answer: int)
    requires Inv(s, all) && h in s.live
    ensures Inv(Release(s, h, answer), all)
  {
    RemovePages(s.live, h);
  }

  lemma MapAgainKeeps(s: State, all: set<nat>, h: nat)
    requires Inv(s, all) && h in s.live && s.live[h].vmapCount > 0
    ensures Inv(s.(live := s.live[h := s.live[h].(vmapCount := s.live[h].vmapCount + 1)]), all)
  {
    SamePages(s.live, h, s.live[h].(vmapCount := s.live[h].vmapCount + 1));
    assert h in Mapped(s.live);
    assert Mapped(s.live) + {h} == Mapped(s.live);
  }

  lemma MapFirstKeeps(s: State, all: set<nat>, h: nat, vaddr: Option<nat>)
    requires Inv(s, all) && h in s.live && s.live[h].vmapCount == 0 && vaddr.Some?
    ensures Inv(s.(live := s.live[h := s.live[h].(vmapCount := 1, vaddr := vaddr)], mappings := s.mappings + 1), all)
  {
    SamePages(s.live, h, s.live[h].(vmapCount := 1, vaddr := vaddr));
  }

  lemma MapKeeps(s: State, all: set<nat>, h: nat, vaddr: Option<nat>)
    requires Inv(s, all) && h in s.live
    ensures Inv(VMap(s, h, vaddr), all)
  {
    if s.live[h].vmapCount > 0 {
      MapAgainKeeps(s, all, h);
    } else if vaddr.Some? {
      MapFirstKeeps(s, all, h, vaddr);
    }
  }

  lemma UnmapKeeps(s: State, all: set<nat>, h: nat)
    requires Inv(s, all) && h in s.live && s.live[h].vmapCount > 0
    ensures Inv(VUnmap(s, h), all)
  {
    var buf := s.live[h];
    assert h in Mapped(s.live);
    if buf.vmapCount > 1 {
      SamePages(s.live, h, buf.(vmapCount := buf.vmapCount - 1));
      assert Mapped(s.live) + {h} == Mapped(s.live);
    } else {
      SamePages(s.live, h, buf.(vmapCount := 0, vaddr := None));
    }
  }

  lemma ApplyKeeps(s: State, all: set<nat>, action: Action)
    requires Inv(s, all)
    ensures Inv(Apply(s, action), all)
  {
    match action
    case AllocateBuffer(len, heapFlags, env) => AllocateKeeps(s, all, len, heapFlags, env);
    case ReleaseBuffer(h, answer) => if h in s.live { ReleaseKeeps(s, all, h, answer); }
    case MapBuffer(h, vaddr) => if h in s.live { MapKeeps(s, all, h, vaddr); }
    case UnmapBuffer(h) => if h in s.live && s.live[h].vmapCount > 0 { UnmapKeeps(s, all, h); }
    case WritePage(_) =>
  }

  lemma {:induction false} RunKeeps(s: State, all: set<nat>, actions: seq<Action>)
    requires Inv(s, all)
    ensures Inv(Run(s, actions), all)
    decreases |actions|
  {
    if actions != [] {
      ApplyKeeps(s, all, actions[0]);
      RunKeeps(Apply(s, actions[0]), all, actions[1..]);
    }
  }

  /** Ownership over every run: each page is in exactly one of pool, live buffer and quarantine, their numbers add
      up to the pages there were, no page in the pool is visible to the secure processor, and a kernel mapping
      exists for exactly the buffers that are mapped. */
  lemma PagesConserved(all: set<nat>, actions: seq<Action>)
    ensures var s := Run(Booted(all), actions);
      && Partitioned(s, all)
      && |s.pool| + |s.quarantine| + |LivePages(s.live)| == |all|
      && s.pool !! s.shared && s.shared == s.quarantine + LivePages(s.live)
      && s.mappings == |Mapped(s.live)|
  {
    RunKeeps(Booted(all), all, actions);
    var s := Run(Booted(all), actions);
    assert |s.pool + s.quarantine| == |s.pool| + |s.quarantine|;
    assert |s.pool + s.quarantine + LivePages(s.live)| == |s.pool + s.quarantine| + |LivePages(s.live)|;
  }

  /** To the pool if the secure-monitor call succeeds, to quarantine otherwise. */
  predicate PagesReturned(s: State, after: State, h: nat, answer: int)
    requires h in s.live
  {
    && (answer == 0 ==> after.pool == s.pool + s.live[h].pages && after.quarantine == s.quarantine)
    && (answer != 0 ==> after.pool == s.pool && after.quarantine == s.quarantine + s.live[h].pages)
  }

  /** The owners the driver states in its secure-monitor calls are always the real ones, so a release fails only
      when the firmware says so, and the pages return to the pool exactly when it does not. */
  lemma ReleaseReturnsPagesExactly(s: State, all: set<nat>, h: nat, answer: int)
    requires Inv(s, all) && h in s.live
    ensures PagesReturned(s, Apply(s, ReleaseBuffer(h, answer)), h, answer)
    ensures Apply(s, ReleaseBuffer(h, answer)).live == s.live - {h}
  {
    RemovePages(s.live, h);
  }

  predicate Granted(s: State, len: nat, heapFlags: nat, env: Env)
  {
    && 0 < len <= MaxSize && heapFlags == 0 && env.bufferOk && Offered(s, env, PageAlign(len) / PageSize)
    && env.pagesOk && env.shareAnswer == 0 && env.exportAnswer == 0
  }

  lemma ShareExactly(s: State, all: set<nat>, pages: set<nat>, count: nat, env: Env)
    requires Inv(s, all) && pages <= s.pool
    ensures var (after, outcome) := Share(s, pages, count, env);
      && (outcome.Exported? <==> env.pagesOk && env.shareAnswer == 0 && env.exportAnswer == 0)
      && (outcome.Exported? ==> after.live == s.live[s.nextHandle := Buf(pages, count, 0, None)])
      && (outcome.Exported? ==> pages <= after.zeroed && after.pool == s.pool - pages)
      && (outcome.Refused? ==> after.live == s.live)
      && (outcome.Refused? ==> after.pool == s.pool || (env.reclaimAnswer != 0 && env.exportAnswer != 0))
  {
    assert pages !! s.shared;
    assert pages <= s.shared + pages;
    assert (s.pool - pages) + pages == s.pool;
  }

  lemma AllocateDelegates(s: State, len: nat, heapFlags: nat, env: Env)
    ensures var count := PageAlign(len) / PageSize;
      Allocate(s, len, heapFlags, env)
      == if 0 < len <= MaxSize && heapFlags == 0 && env.bufferOk && Offered(s, env, count)
         then Share(s, Range(env.base.value, count), count, env)
         else (s, Refused(if 0 < len <= MaxSize && heapFlags == 0 then ENoMem else EInval))
  {
  }

  /** An allocation succeeds exactly if its arguments are allowed and every resource it asks for is granted; the
      new buffer then holds at least the bytes asked for, all of them zero, however its pages were used before.
      Otherwise the pool is as it was, unless a failed export could not be reclaimed. */
  lemma AllocateExactly(s: State, all: set<nat>, len: nat, heapFlags: nat, env: Env)
    requires Inv(s, all)
    ensures var (after, outcome) := Allocate(s, len, heapFlags, env);
      && (outcome.Exported? <==> Granted(s, len, heapFlags, env))
      && (outcome.Exported? ==> Delivered(s, after, len))
      && (outcome.Refused? ==> after.live == s.live)
      && (outcome.Refused? ==> after.pool == s.pool || (env.reclaimAnswer != 0 && env.exportAnswer != 0))
  {
    var count := PageAlign(len) / PageSize;
    AllocateDelegates(s, len, heapFlags, env);
    Aligned(len);
    if Offered(s, env, count) {
      SharedRun(s, all, Range(env.base.value, count), count, len, env);
    }
  }

  lemma SharedRun(s: State, all: set<nat>, pages: set<nat>, count: nat, len: nat, env: Env)
    requires Inv(s, all) && pages <= s.pool && |pages| == count && count * PageSize >= len
    ensures var (after, outcome) := Share(s, pages, count, env);
      && (outcome.Exported? <==> env.pagesOk && env.shareAnswer == 0 && env.exportAnswer == 0)
      && (outcome.Exported? ==> Delivered(s, after, len))
      && (outcome.Refused? ==> after.live == s.live)
      && (outcome.Refused? ==> after.pool == s.pool || (env.reclaimAnswer != 0 && env.exportAnswer != 0))
  {
    ShareExactly(s, all, pages, count, env);
    if Share(s, pages, count, env).1.Exported? {
      NewBufferDelivered(s, Share(s, pages, count, env).0, pages, count, len);
    }
  }

  lemma NewBufferDelivered(s: State, after: State, pages: set<nat>, count: nat, len: nat)
    requires |pages| == count && count * PageSize >= len && after.pool == s.pool - pages && pages <= after.zeroed
    requires after.live == s.live[s.nextHandle := Buf(pages, count, 0, None)]
    ensures Delivered(s, after, len)
  {
  }

  /** One more buffer, zeroed, large enough, its pages taken from the pool. */
  predicate Delivered(s: State, after: State, len: nat)
  {
    && after.live.Keys == s.live.Keys + {s.nextHandle}
    && var buf := after.live[s.nextHandle];
       && buf.pages <= after.zeroed && |buf.pages| == buf.count && buf.count * PageSize >= len
       && after.pool == s.pool - buf.pages
  }

  lemma Aligned(len: nat)
    ensures PageAlign(len) / PageSize * PageSize >= len
    ensures len <= PageAlign(len) < len + 4096 && PageAlign(len) % 4096 == 0
    ensures PageAlign(len) / PageSize == (len + 4095) / 4096
  {
  }

  /** The same without the driver's own terms: an allocation succeeds exactly for 1 byte to 16 MB without flags, when
      both kernel allocations, the firmware and the export succeed and the run that CMA offers, of the least number of
      4 KB pages that hold the bytes, lies in the pool; and those are the pages of the buffer. */
  lemma AllocatesLeastPages(s: State, all: set<nat>, len: nat, heapFlags: nat, env: Env)
    requires Inv(s, all)
    ensures len == 0 || len > 16 * 1024 * 1024 || heapFlags != 0 ==>
      Allocate(s, len, heapFlags, env) == (s, Refused(-22))
    ensures 0 < len <= 16 * 1024 * 1024 && heapFlags == 0 && (!env.bufferOk || env.base == None) ==>
      Allocate(s, len, heapFlags, env) == (s, Refused(-12))
    ensures var (after, outcome) := Allocate(s, len, heapFlags, env);
      var count := (len + 4095) / 4096;
      && (outcome.Exported? <==>
            && 0 < len <= 16 * 1024 * 1024 && heapFlags == 0 && env.bufferOk && env.pagesOk
            && env.shareAnswer == 0 && env.exportAnswer == 0
            && env.base.Some? && forall p :: env.base.value <= p < env.base.value + count ==> p in s.pool)
      && (outcome.Exported? ==>
            && after.live[s.nextHandle].count == count
            && forall p :: p in after.live[s.nextHandle].pages <==> env.base.value <= p < env.base.value + count)
  {
    Aligned(len);
    AllocateDelegates(s, len, heapFlags, env);
    if env.base.Some? && Offered(s, env, (len + 4095) / 4096) {
      ShareExactly(s, all, Range(env.base.value, (len + 4095) / 4096), (len + 4095) / 4096, env);
    }
  }

  /** A mapping counts exactly if the buffer is mapped already or a new address was there, which then is the buffer's;
      an unmapping drops the address with the last one; other buffers are not touched. */
  lemma MappingsCountExactly(s: State, h: nat, vaddr: Option<nat>)
    requires h in s.live
    ensures var before := s.live[h];
      var after := Apply(s, MapBuffer(h, vaddr));
      && after.live == s.live[h := after.live[h]] && after.live[h].pages == before.pages
      && after.live[h].vmapCount == before.vmapCount + (if before.vmapCount > 0 || vaddr.Some? then 1 else 0)
      && after.live[h].vaddr == if before.vmapCount == 0 && vaddr.Some? then vaddr else before.vaddr
    ensures var before := s.live[h];
      var after := Apply(s, UnmapBuffer(h));
      before.vmapCount > 0 ==>
        && after.live == s.live[h := after.live[h]] && after.live[h].pages == before.pages
        && after.live[h].vmapCount == before.vmapCount - 1
        && after.live[h].vaddr == if before.vmapCount == 1 then None else before.vaddr
  {
  }
}
