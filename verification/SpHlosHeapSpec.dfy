/** kernel/files/spu/qcom_sp_hlos_heap.c: contiguous buffers shared with the secure processor. Pages come
    from the CMA pool, are shared by a secure-monitor call, and go back to the pool only after a call that
    takes the secure processor's access away. */
module SpHlosHeapSpec {
  import opened Options

  const PageSize := 4096
  const MaxSize := 0x100_0000
  const EInval := -22
  const ENoMem := -12

  /** An exported buffer: its contiguous run of pages, and its kernel mapping. */
  datatype Buf = Buf(pages: set<nat>, count: nat, vmapCount: nat, vaddr: Option<nat>)

  /** live: the exported buffers, by handle. shared: the pages the secure processor can access. zeroed: the pages
      known to hold zeros. mappings: the number of kernel mappings created and not removed. */
  datatype State = State(pool: set<nat>, quarantine: set<nat>, live: map<nat, Buf>, nextHandle: nat,
                         shared: set<nat>, zeroed: set<nat>, mappings: nat)

  function Range(base: nat, count: nat): (pages: set<nat>)
    ensures forall p :: p in pages <==> base <= p < base + count
    ensures |pages| == count
    decreases count
  {
    if count == 0 then {} else Range(base, count - 1) + {base + count - 1}
  }

  function LivePages(live: map<nat, Buf>): set<nat>
  {
    set h, p | h in live && p in live[h].pages :: p
  }

  /** The secure-monitor call: it moves `pages` from exactly the stated owners to others, or fails and changes
      nothing. A call whose stated owners are wrong always fails. */
  function Assign(shared: set<nat>, pages: set<nat>, fromShared: bool, toShared: bool, answer: int): (bool, set<nat>)
  {
    var matches := if fromShared then pages <= shared else pages !! shared;
    if answer == 0 && matches then (true, if toShared then shared + pages else shared - pages)
    else (false, shared)
  }

  function PageAlign(len: nat): nat
  {
    (len + PageSize - 1) / PageSize * PageSize
  }

  /** What the environment answers during one allocation: whether the two kernel allocations succeed, the start of
      the run of pages CMA offers, the secure-monitor calls, and the export. */
  datatype Env = Env(bufferOk: bool, base: Option<nat>, pagesOk: bool, shareAnswer: int, exportAnswer: int,
                     reclaimAnswer: int)

  datatype Outcome = Refused(code: int) | Exported

  predicate Offered(s: State, env: Env, count: nat)
  {
    env.base.Some? && Range(env.base.value, count) <= s.pool
  }

  function Allocate(s: State, len: nat, heapFlags: nat, env: Env): (State, Outcome)
  {
    var count := PageAlign(len) / PageSize;
    if len == 0 || len > MaxSize || heapFlags != 0 then (s, Refused(EInval))
    else if !env.bufferOk || !Offered(s, env, count) then (s, Refused(ENoMem))
    else Share(s, Range(env.base.value, count), count, env)
  }

  /** The pages are taken out of the pool, cleared, and shared. */
  function Share(s: State, pages: set<nat>, count: nat, env: Env): (State, Outcome)
  {
    var s := s.(pool := s.pool - pages, zeroed := s.zeroed + pages);
    if !env.pagesOk then (s.(pool := s.pool + pages), Refused(ENoMem))
    else ShareTaken(s, Buf(pages, count, 0, None), env)
  }

  function ShareTaken(s: State, buf: Buf, env: Env): (State, Outcome)
  {
    var (ok, shared) := Assign(s.shared, buf.pages, false, true, env.shareAnswer);
    if !ok then (s.(pool := s.pool + buf.pages), Refused(env.shareAnswer))
    else Export(s.(shared := shared), buf, env)
  }

  /** The exported buffer takes the pages; otherwise they are reclaimed, or quarantined if that fails. */
  function Export(s: State, buf: Buf, env: Env): (State, Outcome)
  {
    if env.exportAnswer == 0 then (s.(live := s.live[s.nextHandle := buf], nextHandle := s.nextHandle + 1), Exported)
    else
      var (ok, shared) := Assign(s.shared, buf.pages, true, false, env.reclaimAnswer);
      if !ok then (s.(quarantine := s.quarantine + buf.pages), Refused(env.exportAnswer))
      else (s.(shared := shared, pool := s.pool + buf.pages), Refused(env.exportAnswer))
  }

  function Release(s: State, h: nat, answer: int): State
    requires h in s.live
  {
    var buf := s.live[h];
    var s := s.(live := s.live - {h},
                mappings := if buf.vmapCount > 0 && s.mappings > 0 then s.mappings - 1 else s.mappings);
    var (ok, shared) := Assign(s.shared, buf.pages, true, false, answer);
    if !ok then s.(quarantine := s.quarantine + buf.pages) else s.(shared := shared, pool := s.pool + buf.pages)
  }

  /** vaddr: the address a new kernel mapping gets, or None when it cannot be made. */
  function VMap(s: State, h: nat, vaddr: Option<nat>): State
    requires h in s.live
  {
    var buf := s.live[h];
    if buf.vmapCount > 0 then s.(live := s.live[h := buf.(vmapCount := buf.vmapCount + 1)])
    else if vaddr == None then s
    else s.(live := s.live[h := buf.(vmapCount := 1, vaddr := vaddr)], mappings := s.mappings + 1)
  }

  /** The DMA-BUF core unmaps only what it has mapped. */
  function VUnmap(s: State, h: nat): State
    requires h in s.live && s.live[h].vmapCount > 0
  {
    var buf := s.live[h];
    if buf.vmapCount > 1 then s.(live := s.live[h := buf.(vmapCount := buf.vmapCount - 1)])
    else s.(live := s.live[h := buf.(vmapCount := 0, vaddr := None)],
            mappings := if s.mappings > 0 then s.mappings - 1 else 0)
  }
}
