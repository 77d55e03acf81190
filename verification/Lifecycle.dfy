/** DriverEntry and DriverUnload: what a load leaves behind, and what unloading gives back. */
module Lifecycle {
  import opened Bytes
  import opened ControlRegs
  import opened FxImage
  import opened Schedule
  import opened ThreadTable
  import opened NonPagedPool
  import opened KernelCode
  import opened SaveAreas
  import opened Hooks
  import opened Traps
  import opened TrapCore

  const CPUID_FXSR: bv32 := 0x0100_0000
  const CPUID_SSE: bv32 := 0x0200_0000

  /** Why a load was refused, by the code the driver logs. */
  const NO_FXSR_SSE: nat := 1
  const EMULATION_FORCED: nat := 2
  const NO_CPUID: nat := 3
  const NO_BUFFERS: nat := 4
  const NO_IMAGE_MEMORY: nat := 5
  const PROLOGUE_MISMATCH: nat := 6
  const NO_DETOUR: nat := 7

  datatype LoadResult = Success | Refused(code: nat)

  function OneBlock(p: u32): set<u32> {
    if p == 0 then {} else {p}
  }

  predicate FitCpu(forceEmulation: bool, hasCpuid: bool, features: bv32) {
    !forceEmulation && hasCpuid && features & CPUID_FXSR != 0 && features & CPUID_SSE != 0
  }

  class Driver {
    const kp: Allocator
    const cpu: Cpu
    const data: SaveAreas
    const trap: TrapState
    const hooks: HookState
    var fxImageRaw: u32        // 0 is NULL
    var sseEnabled: bool

    constructor (kp: Allocator, cpu: Cpu, hooks: HookState)
      requires hooks.kp == kp && hooks.Placed() && !hooks.nmHooked && !hooks.swapHooked && hooks.trampoline == 0
      ensures Unloaded() && this.kp == kp && this.cpu == cpu && this.hooks == hooks
    {
      var d := new SaveAreas();
      this.kp, this.cpu, this.hooks, this.data := kp, cpu, hooks, d;
      this.trap := new TrapState(cpu, d);
      this.fxImageRaw, this.sseEnabled := 0, false;
    }

    predicate Wired()
      reads this
    {
      trap.cpu == cpu && trap.data == data && hooks.kp == kp && hooks.Placed()
    }

    /** The image has just been loaded, or has been unloaded: all its globals are as the loader left them. */
    ghost predicate Unloaded()
      reads this, data, data.table, data.pool, trap, hooks
    {
      && Wired()
      && data.Valid() && data.pool == {} && EmptyTable()
      && trap.fxImage == null && trap.fxOwner == null && trap.holder == None && fxImageRaw == 0
      && !hooks.nmHooked && !hooks.swapHooked && hooks.trampoline == 0 && !sseEnabled
    }

    ghost predicate EmptyTable()
      reads data.table
    {
      data.table.Length == MAX_THREADS && forall i :: 0 <= i < MAX_THREADS ==> data.table[i] == Slot(0, None)
    }

    /** The allocations are those of others and, each once, the buffers, the scratch image and the trampoline. */
    ghost predicate Accounted(others: set<u32>)
      reads this, kp, data, hooks
    {
      var mine := Blocks(data.pool);
      && kp.live == others + mine + OneBlock(fxImageRaw) + OneBlock(hooks.trampoline)
      && mine !! others && OneBlock(fxImageRaw) !! others + mine
      && OneBlock(hooks.trampoline) !! others + mine + OneBlock(fxImageRaw)
    }

    /** Assign, look up, release, and once more: the layer is left exactly as it was, whatever the head of the list. */
    method SelfTest(self: Thread)
      requires data.Valid() && EmptyTable() && data.free != []
      modifies data`freeHead, data`free, data.table, data.pool`next
      ensures data.Valid() && EmptyTable() && data.Contents() == old(data.Contents())
    {
      hide Spine, DistinctSaves, DistinctBlocks, LookupOrAssign, Release;
      ghost var was := data.Contents();
      SelfTestRestores(was, data.pool, self);
      LookupRefinesMap(was, data.pool, self);
      var a := data.TableLookupOrAssign(self);
      var b := data.TableLookupOrAssign(self);
      if a != null && a == b {
        data.TableRelease(self);
        assert data.Contents() == was;
        var c := data.TableLookupOrAssign(self);
        if c != null {
          SelfTestRestores(was, data.pool, self);
          data.TableRelease(self);
        }
      }
      assert data.table[..] == was.table;
    }

    /** The scratch image: zeroed, owned by nobody. */
    method AllocateImage() returns (ok: bool)
      requires fxImageRaw == 0
      modifies this`fxImageRaw, trap`fxImage, trap`fxOwner, trap`holder, kp
      ensures trap.fxOwner == null && trap.holder == None
      ensures (ok <==> kp.refusals == old(kp.refusals)) && kp.refusals >= old(kp.refusals)
      ensures !ok ==> fxImageRaw == 0 && kp.live == old(kp.live) && trap.fxImage == old(trap.fxImage)
      ensures ok ==>
                && fxImageRaw != 0 && fxImageRaw !in old(kp.live) && kp.live == old(kp.live) + {fxImageRaw}
                && kp.PoolBlock(fxImageRaw, 528)
                && trap.fxImage != null && fresh(trap.fxImage) && trap.fxImage[..] == Zeros(SSE_SAVE_SIZE)
    {
      trap.fxOwner, trap.holder := null, None;
      var raw := kp.Allocate(SSE_SAVE_SIZE + SSE_SAVE_ALIGN);
      if raw == 0 {
        return false;
      }
      fxImageRaw := raw;
      trap.fxImage := ZeroedImage();
      return true;
    }

    static method ZeroedImage() returns (image: array<byte>)
      ensures fresh(image) && image[..] == Zeros(SSE_SAVE_SIZE)
    {
      image := new byte[SSE_SAVE_SIZE];
      for i := 0 to SSE_SAVE_SIZE
        invariant image[..i] == Zeros(i)
      {
        image[i] := 0;
      }
      assert image[..] == image[..SSE_SAVE_SIZE];
    }

    /** The owner pointer is NULL or the save area of a built buffer. */
    ghost predicate OwnerBuilt()
      reads trap, data
    {
      && (trap.fxOwner == if trap.holder.Some? then trap.holder.value.save else null)
      && (trap.holder.Some? ==> trap.holder.value in data.pool)
    }

    /**
     What the traps of a window leave in a table that was empty: entries for its threads and no
     others, for all of them unless the list has run out, and the owner of the last.
     */
    ghost predicate WindowServed(window: seq<Thread>)
      reads trap, data, data.table
    {
      var m := MapOf(data.table[..]);
      && (forall t <- m :: t in window)
      && (forall t <- window :: t in m || data.free == [])
      && (if window == [] then trap.holder == None
          else
            var last := window[|window| - 1];
            trap.holder == if last in m then Some(m[last]) else None)
    }

    /** No owner is left over from another thread: there is none, or the current thread came last in the window. */
    ghost predicate StartsOwned(window: seq<Thread>)
      reads trap, cpu
    {
      window == [] || trap.holder == None || window[|window| - 1] == cpu.current
    }

    /** Buffers are not shared, so another thread's buffer is not the current thread's. */
    lemma OwnerIsCurrentIff(window: seq<Thread>)
      requires Wired() && trap.Running() && WindowServed(window)
      ensures OwnerIsCurrent(trap.View()) <==> StartsOwned(window)
    {
      LayerHoldings(data.Contents(), data.pool);
    }

    lemma FoundIsBuilt(was: Layer<SseBuffer>, t: Thread)
      requires LayerInv(was, data.pool)
      ensures var found := LookupOrAssign(was, t).1;
              found.Some? ==> found.value in data.pool
    {
      LookupRefinesMap(was, data.pool, t);
      LayerHoldings(was, data.pool);
    }

    lemma NothingServed()
      requires EmptyTable() && trap.holder == None
      ensures WindowServed([])
    {
      MapOfEmpty(data.table[..]);
    }

    lemma WindowGrows(m: map<Thread, SseBuffer>, free: seq<SseBuffer>, before: seq<Thread>, t: Thread)
      requires (forall k <- m :: k in before) && (forall k <- before :: k in m || free == [])
      requires Looked(m, free, t, MapOf(data.table[..]), data.free, trap.holder)
      ensures WindowServed(before + [t])
      ensures forall k <- m :: k in MapOf(data.table[..])
      ensures free != [] ==> t in MapOf(data.table[..])
    {
    }

    /** One #NM taken between the two installations, after those of before. */
    method ServeOne(ghost before: seq<Thread>, t: Thread)
      requires data.Valid() && OwnerBuilt() && WindowServed(before)
      modifies data`freeHead, data`free, data.table, trap`fxOwner, trap`holder, trap`nmCount
      ensures data.Valid() && OwnerBuilt() && WindowServed(before + [t])
      ensures forall k <- old(MapOf(data.table[..])) :: k in MapOf(data.table[..])
      ensures old(data.free) != [] ==> t in MapOf(data.table[..])
      ensures trap.nmCount == Inc(old(trap.nmCount))
    {
      hide Spine, LayerInv, DistinctSaves, DistinctBlocks, LookupOrAssign, MapOf, Looked, Inc;
      ghost var was := data.Contents();
      PartsOfValid();
      LookupIsLooked(was, data.pool, t);
      FoundIsBuilt(was, t);
      trap.nmCount := Inc(trap.nmCount);
      trap.fxOwner, trap.holder := data.TrapLookupSaveArea(t);
      data.LookupKeepsValid(was, t);
      WindowGrows(MapOf(was.table), was.free, before, t);
    }

    /** All of them: their effect on table, free list, owner and count. */
    method ServeWindow(window: seq<Thread>)
      requires data.Valid() && data.free != [] && OwnerBuilt() && WindowServed([])
      modifies data`freeHead, data`free, data.table, trap`fxOwner, trap`holder, trap`nmCount
      ensures data.Valid() && OwnerBuilt() && WindowServed(window)
      ensures window == [] ==> data.Contents() == old(data.Contents()) && unchanged(trap)
      ensures window != [] ==> window[0] in MapOf(data.table[..])
      ensures trap.nmCount == Advanced(old(trap.nmCount), |window|)
    {
      hide WindowServed, OwnerBuilt, MapOf, Advanced, Inc, Spine, LayerInv, DistinctSaves, DistinctBlocks;
      Advances(trap.nmCount, 0);
      for i := 0 to |window|
        invariant data.Valid() && OwnerBuilt() && WindowServed(window[..i])
        invariant i == 0 ==> data.Contents() == old(data.Contents()) && data.free == old(data.free) && unchanged(trap)
        invariant i > 0 ==> window[0] in MapOf(data.table[..])
        invariant trap.nmCount == Advanced(old(trap.nmCount), i)
      {
        Advances(old(trap.nmCount), i);
        ServeOne(window[..i], window[i]);
        assert window[..i] + [window[i]] == window[..i + 1];
      }
      assert window[..|window|] == window;
    }

    /** Both hooks, or neither; code is 0 or the reason. */
    method InstallHooks(window: seq<Thread>, ghost others: set<u32>) returns (code: nat)
      requires Wired() && data.Valid() && data.free != [] && Accounted(others) && OwnerBuilt() && WindowServed([])
      requires !hooks.nmHooked && !hooks.swapHooked && hooks.trampoline == 0
      modifies hooks, hooks.gate`offsetLow, hooks.gate`offsetHigh, hooks.memory, kp,
               data`freeHead, data`free, data.table, trap`fxOwner, trap`holder, trap`nmCount
      ensures data.Valid() && Accounted(others) && OwnerBuilt() && code in {0, PROLOGUE_MISMATCH, NO_DETOUR}
      ensures code == PROLOGUE_MISMATCH <==> !old(hooks.PrologueMatches())
      ensures code == 0 <==> old(hooks.PrologueMatches() && hooks.EntryMatches()) && kp.refusals == old(kp.refusals)
      ensures kp.refusals >= old(kp.refusals)
      ensures code == PROLOGUE_MISMATCH || window == [] ==> data.Contents() == old(data.Contents()) && unchanged(trap)
      ensures code != PROLOGUE_MISMATCH ==>
                && WindowServed(window) && (window != [] ==> window[0] in MapOf(data.table[..]))
                && trap.nmCount == Advanced(old(trap.nmCount), |window|)
      ensures code != 0 ==>
                && !hooks.nmHooked && !hooks.swapHooked && hooks.trampoline == 0
                && hooks.gate.GateTarget() == old(hooks.gate.GateTarget())
                && hooks.memory.bytes == old(hooks.memory.bytes)
      ensures code == 0 ==> hooks.nmHooked && hooks.swapHooked
      ensures code == 0 ==> Hooked(old(hooks.gate.GateTarget()), old(hooks.memory.bytes))
    {
      hide LayerInv, DistinctSaves, DistinctBlocks, Blocks, MapOf, Patched, Spine;
      hide WindowServed, OwnerBuilt, Advanced, EmptyTable, IsJump;
      var ok, live, matched := hooks.InstallNmHook();
      if !ok {
        return PROLOGUE_MISMATCH;
      }
      ServeWindow(window);
      var ok', mismatch := hooks.InstallSwapHook();
      if !ok' {
        hooks.RemoveNmHook();
        return NO_DETOUR;
      }
      return 0;
    }

    /** Both hooks are in, over the given gate target and memory. */
    ghost predicate Hooked(target: u32, m: Memory)
      reads hooks, hooks.gate, hooks.memory
    {
      && hooks.nmHooked && hooks.gate.GateTarget() == hooks.nmHandler
      && hooks.kernelNmResume == Plus(target, NM_PROLOGUE_LEN)
      && hooks.swapHooked && hooks.trampoline != 0 && hooks.swapTrampoline == hooks.trampoline
      && ClearOfPatch(hooks.trampoline) && kp.PoolBlock(hooks.trampoline, DETOUR_LEN + JMP_LEN)
      && hooks.swapOriginal == Fetch(m, SWAPCONTEXT_VA, DETOUR_LEN)
      && Same(hooks.memory.bytes, Patched(m, hooks.trampoline, hooks.swapDetour))
    }

    /** The exits of DriverEntry after the image: free it, then drain the free list. */
    method Abandon(ghost others: set<u32>)
      requires Wired() && data.Valid() && Accounted(others) && fxImageRaw != 0 && hooks.trampoline == 0
      modifies this`fxImageRaw, trap`fxImage, data`freeHead, data`free, data`pool, kp`live
      ensures fxImageRaw == 0 && trap.fxImage == null && data.free == []
      ensures Accounted(others) && data.pool == old(data.pool) - (set b <- old(data.free))
    {
      hide LayerInv, DistinctSaves, DistinctBlocks, Blocks, Spine;
      kp.Free(fxImageRaw);
      fxImageRaw := 0;
      trap.fxImage := null;
      PartsOfValid();
      assert kp.live - Blocks(data.pool) == others;
      data.PoolDrain(kp);
      assert kp.live == others + Blocks(data.pool);
    }

    lemma PartsOfValid()
      requires data.Valid()
      ensures data.Linked() && data.table.Length == MAX_THREADS && Distinct(data.free)
      ensures DistinctSaves(data.pool) && DistinctBlocks(data.pool)
    {
    }

    /** Turn SSE on: reachable only with both hooks in. */
    method EnableSseThisCpu()
      requires hooks.nmHooked && hooks.swapHooked
      modifies this`sseEnabled, cpu`cr4, cpu`sse
      ensures cpu.cr4 == WithOsfxsr(old(cpu.cr4)) && sseEnabled
      ensures cpu.sse == old(cpu.sse).(mxcsr := Bytes32(DEFAULT_MXCSR))
    {
      cpu.cr4 := WithOsfxsr(cpu.cr4);
      cpu.sse := cpu.sse.(mxcsr := Bytes32(DEFAULT_MXCSR));
      sseEnabled := cpu.cr4 & CR4_OSFXSR != 0;
    }

    /** SSE is on, with the default MXCSR. */
    ghost predicate SseOn(cr4: bv32, sse: Sse)
      reads this, cpu
    {
      sseEnabled && cpu.cr4 == WithOsfxsr(cr4) && cpu.sse == SseRegs(CLEAN.mxcsr, sse.xmm)
    }

    /** From the scratch image on: both hooks and then SSE, or everything given back. */
    method InstallOrAbandon(window: seq<Thread>, ghost others: set<u32>) returns (r: LoadResult)
      requires Wired() && data.Valid() && data.free != [] && EmptyTable() && Accounted(others)
      requires OwnerBuilt() && WindowServed([]) && trap.holder == None
      requires fxImageRaw != 0 && !hooks.nmHooked && !hooks.swapHooked && hooks.trampoline == 0 && !sseEnabled
      modifies this, trap`fxImage, trap`fxOwner, trap`holder, trap`nmCount, kp, cpu`cr4, cpu`sse,
               hooks, hooks.gate`offsetLow, hooks.gate`offsetHigh, hooks.memory,
               data`freeHead, data`free, data`pool, data.table
      ensures Answers(r, old(hooks.PrologueMatches()), old(hooks.EntryMatches()), kp.refusals > old(kp.refusals))
      ensures r.Refused? ==> r.code in {PROLOGUE_MISMATCH, NO_DETOUR}
      ensures kp.refusals >= old(kp.refusals) && (r.Success? ==> kp.refusals == old(kp.refusals))
      ensures r.Refused? ==>
                Untouched(old(hooks.gate.GateTarget()), old(hooks.memory.bytes), old(cpu.cr4), old(cpu.sse))
      ensures r.Refused? ==> (kp.live == others <==> r.code != NO_DETOUR || window == [])
      ensures r.Success? ==> Hooked(old(hooks.gate.GateTarget()), old(hooks.memory.bytes))
      ensures r.Success? ==> SseOn(old(cpu.cr4), old(cpu.sse))
      ensures r.Success? ==> Accounted(others) && data.Valid() && OwnerBuilt() && data.pool == old(data.pool)
      ensures r.Success? ==> fxImageRaw == old(fxImageRaw) && trap.fxImage == old(trap.fxImage)
      ensures r.Success? ==> WindowServed(window) && trap.nmCount == Advanced(old(trap.nmCount), |window|)
      ensures r.Success? && window == [] ==> EmptyTable() && trap.holder == None
    {
      hide LayerInv, DistinctSaves, DistinctBlocks, Blocks, Spine, MapOf, Patched, WithOsfxsr;
      hide WindowServed, OwnerBuilt, Advanced, Hooked, HookState.PrologueMatches, HookState.EntryMatches;
      ghost var full := data.Contents();
      var code := InstallHooks(window, others);
      if code != 0 {
        if code == NO_DETOUR && window != [] {
          var b := SomeHeld(window[0]);
          Abandon(others);
          assert b.base in Blocks(data.pool);
        } else {
          assert data.table[..] == full.table;
          AllFree();
          Abandon(others);
          assert data.pool == {};
          NoBlocks();
        }
        return Refused(code);
      }
      EnableSseThisCpu();
      assert window == [] ==> data.table[..] == full.table;
      return Success;
    }

    /** DriverEntry after the CPU gates and the pre-filled pool: everything that can still fail, then SSE on. */
    method InstallAll(self: Thread, window: seq<Thread>, ghost others: set<u32>) returns (r: LoadResult)
      requires Wired() && data.Valid() && data.free != [] && EmptyTable() && Accounted(others)
      requires fxImageRaw == 0 && !hooks.nmHooked && !hooks.swapHooked && hooks.trampoline == 0 && !sseEnabled
      modifies this, trap`fxImage, trap`fxOwner, trap`holder, trap`nmCount, kp, cpu`cr4, cpu`sse,
               hooks, hooks.gate`offsetLow, hooks.gate`offsetHigh, hooks.memory,
               data`freeHead, data`free, data`pool, data.table, data.pool`next
      ensures Answers(r, old(hooks.PrologueMatches()), old(hooks.EntryMatches()), kp.refusals > old(kp.refusals))
      ensures r.Refused? ==> r.code in {NO_IMAGE_MEMORY, PROLOGUE_MISMATCH, NO_DETOUR}
      ensures kp.refusals >= old(kp.refusals) && (r.Success? ==> kp.refusals == old(kp.refusals))
      ensures r.Refused? ==>
                Untouched(old(hooks.gate.GateTarget()), old(hooks.memory.bytes), old(cpu.cr4), old(cpu.sse))
      ensures r.Refused? ==> (kp.live == others <==> r.code != NO_DETOUR || window == [])
      ensures r.Success? ==> Hooked(old(hooks.gate.GateTarget()), old(hooks.memory.bytes))
      ensures r.Success? ==> SseOn(old(cpu.cr4), old(cpu.sse))
      ensures r.Success? ==> Accounted(others) && data.Valid() && OwnerBuilt() && data.pool == old(data.pool)
      ensures r.Success? ==> fxImageRaw != 0 && kp.PoolBlock(fxImageRaw, 528)
      ensures r.Success? ==> trap.fxImage != null && fresh(trap.fxImage)
      ensures r.Success? ==> trap.fxImage.Length == SSE_SAVE_SIZE
      ensures r.Success? ==> WindowServed(window) && trap.nmCount == Advanced(old(trap.nmCount), |window|)
      ensures r.Success? && window == [] ==>
                EmptyTable() && trap.holder == None && trap.fxImage[..] == Zeros(SSE_SAVE_SIZE)
    {
      hide LayerInv, DistinctSaves, DistinctBlocks, Blocks, Spine, MapOf, Patched, WithOsfxsr;
      hide WindowServed, Advanced, Hooked, HookState.PrologueMatches, HookState.EntryMatches;
      SelfTest(self);
      var ok := AllocateImage();
      if ok {
        NothingServed();
        r := InstallOrAbandon(window, others);
      } else {
        PartsOfValid();
        AllFree();
        data.PoolDrain(kp);
        assert data.pool == {};
        NoBlocks();
        r := Refused(NO_IMAGE_MEMORY);
      }
    }

    /**
     The answers a load on a fit CPU may give, by whether the #NM prologue and the SwapContext
     bytes match and whether the allocator has refused anything.
     */
    static predicate Answers(r: LoadResult, prologue: bool, entry: bool, starved: bool) {
      match r
      case Success => prologue && entry
      case Refused(code) =>
        if code == PROLOGUE_MISMATCH then !prologue
        else if code == NO_DETOUR then prologue && (!entry || starved)
        else code in {NO_BUFFERS, NO_IMAGE_MEMORY} && starved
    }

    /** The machine as the load found it. */
    ghost predicate Untouched(target: u32, m: Memory, cr4: bv32, sse: Sse)
      reads this, hooks, hooks.gate, hooks.memory, cpu
    {
      && !hooks.nmHooked && !hooks.swapHooked && hooks.trampoline == 0 && fxImageRaw == 0 && !sseEnabled
      && hooks.gate.GateTarget() == target && hooks.memory.bytes == m && cpu.cr4 == cr4 && cpu.sse == sse
    }

    /** With no entry in the table, the whole pool is on the free list. */
    lemma AllFree()
      requires data.Valid() && EmptyTable()
      ensures (set b <- data.free) == data.pool
    {
    }

    /** A thread's entry keeps its buffer off the free list. */
    lemma SomeHeld(t: Thread) returns (b: SseBuffer)
      requires data.Valid() && t in MapOf(data.table[..])
      ensures b in data.pool && b !in data.free && b.base in Blocks(data.pool - (set c <- data.free))
    {
      LayerHoldings(data.Contents(), data.pool);
      b := MapOf(data.table[..])[t];
      assert b in data.pool - (set c <- data.free);
    }

    /** DriverEntry from the pre-filled pool on: a load that succeeds is ready to run. */
    method LoadOnPool(self: Thread, window: seq<Thread>, ghost others: set<u32>) returns (r: LoadResult)
      requires Wired() && data.Valid() && data.free != [] && EmptyTable() && Accounted(others)
      requires fxImageRaw == 0 && !hooks.nmHooked && !hooks.swapHooked && hooks.trampoline == 0 && !sseEnabled
      requires forall b <- data.pool :: CleanSave(b)
      modifies this, trap`fxImage, trap`fxOwner, trap`holder, trap`nmCount, kp, cpu`cr4, cpu`sse,
               hooks, hooks.gate`offsetLow, hooks.gate`offsetHigh, hooks.memory,
               data`freeHead, data`free, data`pool, data.table, data.pool`next
      ensures Answers(r, old(hooks.PrologueMatches()), old(hooks.EntryMatches()), kp.refusals > old(kp.refusals))
      ensures kp.refusals >= old(kp.refusals) && (r.Success? ==> kp.refusals == old(kp.refusals))
      ensures r.Refused? ==>
                Untouched(old(hooks.gate.GateTarget()), old(hooks.memory.bytes), old(cpu.cr4), old(cpu.sse))
      ensures r.Refused? ==> (kp.live == others <==> r.code != NO_DETOUR || window == [])
      ensures r.Success? ==> Hooked(old(hooks.gate.GateTarget()), old(hooks.memory.bytes))
      ensures r.Success? ==> SseOn(old(cpu.cr4), old(cpu.sse))
      ensures r.Success? ==> Accounted(others) && data.pool == old(data.pool)
      ensures r.Success? ==> fxImageRaw != 0 && kp.PoolBlock(fxImageRaw, 528)
      ensures r.Success? ==> trap.Running() && DistinctBlocks(data.pool) && fresh(trap.fxImage)
      ensures r.Success? && window == [] ==> Loaded(trap.View()) && |data.free| == |data.pool|
      ensures r.Success? && window == [] ==> trap.View().image == ImageOf(Zeros(SSE_SAVE_SIZE))
      ensures r.Success? ==> WindowServed(window) && trap.nmCount == Advanced(old(trap.nmCount), |window|)
      ensures r.Success? ==> (OwnerIsCurrent(trap.View()) <==> StartsOwned(window))
    {
      hide LayerInv, DistinctSaves, DistinctBlocks, Blocks, Spine, MapOf, Patched, SavesOf, CleanSave, WithOsfxsr;
      hide Hooked, Fetch, OwnerBuilt, TrapState.Running, Answers, Untouched;
      r := InstallAll(self, window, others);
      if r.Success? {
        LoadedShape();
        PartsOfValid();
        if window == [] {
          assert forall b <- data.pool :: CleanSave(b);
          LoadedState();
        } else {
          OwnerIsCurrentIff(window);
        }
      }
    }

    /** DriverEntry once the CPU has been found fit. */
    method LoadOnFitCpu(self: Thread, window: seq<Thread>) returns (r: LoadResult)
      requires Unloaded()
      modifies this, trap`fxImage, trap`fxOwner, trap`holder, trap`nmCount, kp, cpu`cr4, cpu`sse,
               hooks, hooks.gate`offsetLow, hooks.gate`offsetHigh, hooks.memory,
               data`freeHead, data`free, data`pool, data`buffersBuilt, data.table
      ensures Answers(r, old(hooks.PrologueMatches()), old(hooks.EntryMatches()), kp.refusals > old(kp.refusals))
      ensures kp.refusals >= old(kp.refusals)
      ensures r.Refused? ==>
                Untouched(old(hooks.gate.GateTarget()), old(hooks.memory.bytes), old(cpu.cr4), old(cpu.sse))
      ensures r.Refused? ==> (kp.live == old(kp.live) <==> r.code != NO_DETOUR || window == [])
      ensures r.Success? ==> Hooked(old(hooks.gate.GateTarget()), old(hooks.memory.bytes))
      ensures r.Success? ==> SseOn(old(cpu.cr4), old(cpu.sse))
      ensures r.Success? ==> Accounted(old(kp.live)) && fxImageRaw != 0 && kp.PoolBlock(fxImageRaw, 528)
      ensures r.Success? ==> 1 <= |data.pool| <= 64 && (|data.pool| == 64 <==> kp.refusals == old(kp.refusals))
      ensures r.Success? ==> trap.Running() && DistinctBlocks(data.pool)
      ensures r.Success? ==> fresh(trap.fxImage) && forall b <- data.pool :: fresh(b.save)
      ensures r.Success? && window == [] ==> Loaded(trap.View()) && |data.free| == |data.pool|
      ensures r.Success? && window == [] ==> trap.View().image == ImageOf(Zeros(SSE_SAVE_SIZE))
      ensures r.Success? ==> WindowServed(window) && trap.nmCount == Advanced(old(trap.nmCount), |window|)
      ensures r.Success? ==> (OwnerIsCurrent(trap.View()) <==> StartsOwned(window))
    {
      hide LayerInv, DistinctSaves, DistinctBlocks, Blocks, Spine, MapOf, Patched, SavesOf, CleanSave, WithOsfxsr;
      hide Hooked, Fetch, TrapState.Running, CoreInv;
      ghost var others := kp.live;
      NoBlocks();
      data.buffersBuilt := 0;
      data.Prefill(kp);
      if data.buffersBuilt == 0 {
        return Refused(NO_BUFFERS);
      }
      r := LoadOnPool(self, window, others);
    }

    /** What becomes of a load as long as the allocator refuses nothing. */
    predicate Succeeds(forceEmulation: bool, hasCpuid: bool, features: bv32)
      reads hooks, hooks.gate, hooks.memory
    {
      FitCpu(forceEmulation, hasCpuid, features) && hooks.PrologueMatches() && hooks.EntryMatches()
    }

    /** A fit CPU and the expected #NM prologue, but other bytes at SwapContext. */
    predicate BacksOut(forceEmulation: bool, hasCpuid: bool, features: bv32)
      reads hooks, hooks.gate, hooks.memory
    {
      FitCpu(forceEmulation, hasCpuid, features) && hooks.PrologueMatches() && !hooks.EntryMatches()
    }

    /**
     DriverEntry. window lists the threads that take a #NM between the installation of the #NM
     hook and that of the detour. Every answer has its exact reason; what the allocator refuses is
     the only one not in the arguments or in memory. A load succeeds completely or leaves gate,
     code and CR4 as they were. And a load that has to back out of the detour gives every
     allocation back if and only if no #NM was serviced in the window, or it never got that far
     for want of memory.
     */
    method DriverEntry(forceEmulation: bool, hasCpuid: bool, features: bv32, self: Thread, window: seq<Thread>)
      returns (r: LoadResult)
      requires Unloaded()
      modifies this, trap`fxImage, trap`fxOwner, trap`holder, trap`nmCount, kp, cpu`cr4, cpu`sse,
               hooks, hooks.gate`offsetLow, hooks.gate`offsetHigh, hooks.memory,
               data`freeHead, data`free, data`pool, data`buffersBuilt, data.table
      ensures r == Refused(EMULATION_FORCED) <==> forceEmulation
      ensures r == Refused(NO_CPUID) <==> !forceEmulation && !hasCpuid
      ensures r == Refused(NO_FXSR_SSE) <==>
                !forceEmulation && hasCpuid && (features & 0x0100_0000 == 0 || features & 0x0200_0000 == 0)
      ensures FitCpu(forceEmulation, hasCpuid, features) ==>
                Answers(r, old(hooks.PrologueMatches()), old(hooks.EntryMatches()), kp.refusals > old(kp.refusals))
      ensures kp.refusals == old(kp.refusals) ==> (r.Success? <==> old(Succeeds(forceEmulation, hasCpuid, features)))
      ensures r.Refused? ==>
                Untouched(old(hooks.gate.GateTarget()), old(hooks.memory.bytes), old(cpu.cr4), old(cpu.sse))
      ensures r.Refused? ==> (kp.live == old(kp.live) <==> r.code != NO_DETOUR || window == [])
      ensures old(BacksOut(forceEmulation, hasCpuid, features)) ==>
                r.Refused? && (kp.live == old(kp.live) <==> window == [] || r.code in {NO_BUFFERS, NO_IMAGE_MEMORY})
      ensures kp.refusals == old(kp.refusals) && r.Refused? ==>
                (kp.live != old(kp.live) <==> old(BacksOut(forceEmulation, hasCpuid, features)) && window != [])
      ensures r.Success? ==> Hooked(old(hooks.gate.GateTarget()), old(hooks.memory.bytes))
      ensures r.Success? ==> SseOn(old(cpu.cr4), old(cpu.sse))
      ensures r.Success? ==> Accounted(old(kp.live)) && fxImageRaw != 0 && kp.PoolBlock(fxImageRaw, 528)
      ensures r.Success? ==> 1 <= |data.pool| <= 64 && (|data.pool| == 64 <==> kp.refusals == old(kp.refusals))
      ensures r.Success? ==> trap.Running() && DistinctBlocks(data.pool)
      ensures r.Success? ==> fresh(trap.fxImage) && forall b <- data.pool :: fresh(b.save)
      ensures r.Success? && window == [] ==> Loaded(trap.View()) && |data.free| == |data.pool|
      ensures r.Success? && window == [] ==> trap.View().image == ImageOf(Zeros(SSE_SAVE_SIZE))
      ensures r.Success? ==> WindowServed(window) && trap.nmCount == Advanced(old(trap.nmCount), |window|)
      ensures r.Success? ==> (OwnerIsCurrent(trap.View()) <==> StartsOwned(window))
    {
      if forceEmulation {
        return Refused(EMULATION_FORCED);
      }
      if !hasCpuid {
        return Refused(NO_CPUID);
      }
      if features & CPUID_FXSR == 0 || features & CPUID_SSE == 0 {
        return Refused(NO_FXSR_SSE);
      }
      r := LoadOnFitCpu(self, window);
    }

    lemma LoadedShape()
      requires Wired() && data.Valid() && OwnerBuilt()
      requires trap.fxImage != null && trap.fxImage.Length == 512 && forall b <- data.pool :: b.save != trap.fxImage
      ensures trap.Running()
    {
    }

    /** What the pieces of a fresh load add up to. */
    lemma LoadedState()
      requires Wired() && data.Valid() && EmptyTable()
      requires trap.Running() && trap.holder == None
      requires forall b <- data.pool :: CleanSave(b)
      ensures Loaded(trap.View()) && OwnerIsCurrent(trap.View()) && |data.free| == |data.pool|
    {
      hide LayerInv, Spine, AreaOf, DistinctSaves, ImageIn;
      MapOfEmpty(data.table[..]);
      FreeIsPool();
      var areas := AreasIn(data.pool);
      assert forall b <- data.free :: b in data.pool && areas[b] == FRESH;
    }

    lemma FreeIsPool()
      requires data.Valid() && EmptyTable()
      ensures |data.free| == |data.pool|
    {
      NoneOccupied(data.table[..]);
    }

    lemma RunningIntact()
      requires Wired() && trap.Running() && DistinctBlocks(data.pool)
      ensures data.Intact()
    {
    }

    /** Buffers back from the table, then everything on the free list freed: an empty pool. */
    method ReleasePool(ghost others: set<u32>)
      requires data.Intact() && Blocks(data.pool) <= kp.live && kp.live - Blocks(data.pool) == others
      modifies data`freeHead, data`free, data`pool, data.table, data.pool`next, kp`live
      ensures data.Valid() && data.pool == {} && EmptyTable() && kp.live == others
    {
      hide DistinctSaves, DistinctBlocks, Blocks, Partition;
      data.ReclaimAll();
      PartsOfIntact();
      data.PoolDrain(kp);
      assert data.pool == {};
      NoBlocks();
      EmptyIsValid();
    }

    lemma PartsOfIntact()
      requires data.Intact()
      ensures data.Linked() && Distinct(data.free) && DistinctBlocks(data.pool)
    {
    }

    lemma EmptyIsValid()
      requires data.Linked() && data.free == [] && data.pool == {} && EmptyTable()
      ensures data.Valid()
    {
      NoneOccupied(data.table[..]);
    }

    /** The image, the owner and OSFXSR, once no trap path can reach them. */
    method ReleaseImage()
      requires fxImageRaw != 0 ==> fxImageRaw in kp.live
      modifies this, trap`fxImage, trap`fxOwner, trap`holder, kp`live, cpu`cr4
      ensures trap.fxImage == null && trap.fxOwner == null && trap.holder == None && fxImageRaw == 0 && !sseEnabled
      ensures kp.live == old(kp.live - OneBlock(fxImageRaw))
      ensures cpu.cr4 == if old(sseEnabled) then WithoutOsfxsr(old(cpu.cr4)) else old(cpu.cr4)
    {
      trap.fxOwner, trap.holder := null, None;
      if fxImageRaw != 0 {
        kp.Free(fxImageRaw);
        fxImageRaw := 0;
      }
      trap.fxImage := null;
      if sseEnabled {
        cpu.cr4 := WithoutOsfxsr(cpu.cr4);
        sseEnabled := false;
      }
    }

    /** DriverUnload: hooks out first, then everything they touched, each allocation once. */
    method DriverUnload(ghost others: set<u32>)
      requires Wired() && data.Intact() && Accounted(others)
      requires hooks.swapHooked ==> |hooks.swapOriginal| == DETOUR_LEN
      modifies this, trap`fxImage, trap`fxOwner, trap`holder, kp`live, cpu`cr4,
               hooks`nmHooked, hooks`trampoline, hooks`swapHooked, hooks.gate`offsetLow, hooks.gate`offsetHigh,
               hooks.memory,
               data`freeHead, data`free, data`pool, data.table, data.pool`next
      ensures Unloaded() && kp.live == others
      ensures old(hooks.nmHooked) ==> hooks.gate.GateTarget() == Minus(old(hooks.kernelNmResume), NM_PROLOGUE_LEN)
      ensures old(hooks.swapHooked) ==>
                Same(hooks.memory.bytes, Unpatched(old(hooks.memory.bytes), old(hooks.swapOriginal)))
      ensures cpu.cr4 == if old(sseEnabled) then WithoutOsfxsr(old(cpu.cr4)) else old(cpu.cr4)
    {
      hide DistinctSaves, DistinctBlocks, Blocks, Spine, Partition, Paired, Unpatched, WithoutOsfxsr, LayerInv, Same;
      hooks.RemoveSwapHook();
      hooks.RemoveNmHook();
      ReleaseImage();
      ReleasePool(others);
    }

    /** What the processor shows to threads, SSE apart. */
    function StockNow(): Stock
      reads cpu
    {
      Stock(cpu.current, cpu.cr0, cpu.fp)
    }

    /** Any schedule on a loaded machine: for x87, CR0 and scheduling it is as if there were no driver. */
    method RunSchedule(es: seq<Event>, ghost others: set<u32>)
      requires Wired() && trap.Running() && DistinctBlocks(data.pool) && Accounted(others)
      modifies trap, cpu`current, cpu`cr0, cpu`fp, cpu`sse, data, data.table, SavesOf(data.pool), trap.fxImage
      ensures data.Intact() && Accounted(others) && data.pool == old(data.pool)
      ensures StockNow() == StockRun(old(StockNow()), es)
    {
      hide LayerInv, DistinctSaves, DistinctBlocks, Blocks, Spine, MapOf, Sound, AreasIn, ImageIn, TrapCore.Run;
      Transparent(trap.View(), es);
      trap.Execute(es);
      RunningIntact();
    }

    /** From a loaded machine: any schedule, then an unload. target and m are gate and memory before the load. */
    method RunThenUnload(es: seq<Event>, ghost others: set<u32>, ghost target: u32, ghost m: Memory)
      requires Wired() && trap.Running() && DistinctBlocks(data.pool)
      requires Accounted(others) && Hooked(target, m) && sseEnabled
      modifies this, trap, kp`live, cpu, hooks, hooks.gate`offsetLow, hooks.gate`offsetHigh, hooks.memory,
               data, data.table, data.pool`next, SavesOf(data.pool), trap.fxImage
      ensures Unloaded() && kp.live == others && hooks.gate.GateTarget() == target
      ensures forall a: u32 | kp.codeLo <= a < kp.codeHi :: hooks.memory.bytes(a) == m(a)
      ensures cpu.cr4 == WithoutOsfxsr(old(cpu.cr4)) && StockNow() == StockRun(old(StockNow()), es)
    {
      hide LayerInv, DistinctSaves, DistinctBlocks, Blocks, Spine, MapOf, Patched, Unpatched, Same, WithoutOsfxsr;
      hide Partition, Paired, TrapState.Running, StockRun;
      RunSchedule(es, others);
      ghost var tramp, patched := hooks.trampoline, hooks.memory.bytes;
      DriverUnload(others);
      KernelImageRestored(m, patched, hooks.memory.bytes, tramp);
    }

    /**
     A load with any #NM traps in its window, any schedule of instructions and switches, an unload:
     the gate and every byte of the kernel image are as they were, of CR4 only OSFXSR can differ,
     x87, CR0 and scheduling have gone as without the driver, and every allocation is freed but in
     the one case in which a refused load leaks.
     */
    method LoadRunUnload(forceEmulation: bool, hasCpuid: bool, features: bv32, self: Thread, window: seq<Thread>,
                         es: seq<Event>)
      returns (r: LoadResult)
      requires Unloaded()
      modifies this, trap, kp, cpu, hooks, hooks.gate`offsetLow, hooks.gate`offsetHigh, hooks.memory, data, data.table
      ensures r.Success? ==> Unloaded()
      ensures kp.live != old(kp.live) <==> r == Refused(NO_DETOUR) && window != []
      ensures kp.refusals == old(kp.refusals) ==>
                (kp.live != old(kp.live) <==> old(BacksOut(forceEmulation, hasCpuid, features)) && window != [])
      ensures hooks.gate.GateTarget() == old(hooks.gate.GateTarget())
      ensures forall a: u32 | kp.codeLo <= a < kp.codeHi :: hooks.memory.bytes(a) == old(hooks.memory.bytes)(a)
      ensures cpu.cr4 == if r.Success? then WithoutOsfxsr(WithOsfxsr(old(cpu.cr4))) else old(cpu.cr4)
      ensures StockNow() == StockRun(old(StockNow()), if r.Success? then es else [])
    {
      hide LayerInv, DistinctSaves, DistinctBlocks, Blocks, Spine, MapOf, Sound, CoreInv;
      hide Patched, Unpatched, Same, WithOsfxsr, WithoutOsfxsr, TrapState.Running;
      ghost var others, target, m := kp.live, hooks.gate.GateTarget(), hooks.memory.bytes;
      r := DriverEntry(forceEmulation, hasCpuid, features, self, window);
      if r.Success? {
        RunThenUnload(es, others, target, m);
      }
    }

    /** The trampoline's block lies outside the kernel image, so unpatching restores all of that. */
    lemma KernelImageRestored(m: Memory, patched: Memory, after: Memory, tramp: u32)
      requires ClearOfPatch(tramp) && kp.PoolBlock(tramp, DETOUR_LEN + JMP_LEN)
      requires Same(patched, Patched(m, tramp, hooks.swapDetour))
      requires Same(after, Unpatched(patched, Fetch(m, SWAPCONTEXT_VA, DETOUR_LEN)))
      ensures forall a: u32 | kp.codeLo <= a < kp.codeHi :: after(a) == m(a)
    {
      forall a: u32 | kp.codeLo <= a < kp.codeHi
        ensures after(a) == m(a)
      {
        assert after(a) == Unpatched(Patched(m, tramp, hooks.swapDetour), Fetch(m, SWAPCONTEXT_VA, DETOUR_LEN))(a);
        UnpatchRestores(m, tramp, hooks.swapDetour, a);
      }
    }
  }
}
