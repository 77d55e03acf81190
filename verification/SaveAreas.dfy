/**
 The buffer pool and the thread table on the heap: an intrusive singly linked free list and an
 open-addressing array, with the locked and the trap-context lookup.
 */
module SaveAreas {
  import opened Bytes
  import opened FxImage
  import opened NonPagedPool
  import opened Schedule
  import opened ThreadTable

  const SSE_SAVE_ALIGN: nat := 16

  /** Where the 512 save bytes start inside the raw allocation. */
  function AlignUp(raw: nat): nat {
    (raw + (SSE_SAVE_ALIGN - 1)) / SSE_SAVE_ALIGN * SSE_SAVE_ALIGN
  }

  /** The aligned area lies inside the over-sized allocation that is later freed by its raw address. */
  lemma AlignedAreaFits(raw: u32)
    ensures AlignedInside(AlignUp(raw), raw, SSE_SAVE_SIZE + SSE_SAVE_ALIGN)
  {
  }

  /** SSE_BUFFER: one free-list node and the save area that belongs to it. */
  class SseBuffer {
    var next: SseBuffer?
    const base: u32            // the node's own allocation
    const rawBase: u32         // the un-aligned allocation of the save area
    ghost const rawSize: nat   // how much was asked for there
    const saveAddress: nat     // where the save area starts in it
    const save: array<byte>    // the 512 bytes from there on

    constructor (base: u32, rawBase: u32, ghost rawSize: nat)
      ensures this.base == base && this.rawBase == rawBase && this.rawSize == rawSize && next == null
      ensures saveAddress == AlignUp(rawBase)
      ensures fresh(save) && save.Length == SSE_SAVE_SIZE
    {
      this.base, this.rawBase, this.rawSize, this.next := base, rawBase, rawSize, null;
      this.saveAddress := AlignUp(rawBase);
      this.save := new byte[SSE_SAVE_SIZE];
    }
  }

  /** A dword store. */
  method StoreDword(a: array<byte>, at: nat, x: u32)
    requires at + 4 <= a.Length
    modifies a
    ensures a[..] == Blit(old(a[..]), at, Bytes32(x))
  {
    a[at], a[at + 1], a[at + 2], a[at + 3] := x % 0x100, x / 0x100 % 0x100, x / 0x1_0000 % 0x100, x / 0x100_0000;
    assert a[at..at + 4] == Bytes32(x);
    assert a[..at] == old(a[..])[..at] && a[at + 4..] == old(a[..])[at + 4..];
    assert a[..] == a[..at] + a[at..at + 4] + a[at + 4..];
  }

  /** FXSAVE and FXRSTOR may use the save area: it is 16-aligned and lies inside its own allocation. */
  predicate AlignedInside(address: nat, block: u32, size: nat) {
    address % 16 == 0 && block <= address && address + 512 <= block + size
  }

  /** The allocations behind a set of buffers. */
  ghost function Blocks(pool: set<SseBuffer>): set<u32> {
    (set b <- pool :: b.base) + (set b <- pool :: b.rawBase)
  }

  ghost predicate DistinctBlocks(pool: set<SseBuffer>) {
    && (forall b <- pool :: b.rawBase != 0 && AlignedInside(b.saveAddress, b.rawBase, b.rawSize))
    && (forall b <- pool, c <- pool :: b.base != c.rawBase)
    && (forall b <- pool, c <- pool | b != c :: b.base != c.base && b.rawBase != c.rawBase)
  }

  /** node's allocations are two, and new. */
  ghost predicate AddsBlocks(pool: set<SseBuffer>, node: SseBuffer) {
    node.base !in Blocks(pool) && node.rawBase !in Blocks(pool) && node.base != node.rawBase && node.rawBase != 0
    && AlignedInside(node.saveAddress, node.rawBase, node.rawSize)
  }

  ghost predicate CleanSave(b: SseBuffer)
    reads b.save
  {
    b.save.Length == SSE_SAVE_SIZE && AreaOf(b.save[..]) == FRESH
  }

  ghost predicate DistinctSaves(pool: set<SseBuffer>) {
    && (forall b <- pool :: b.save.Length == SSE_SAVE_SIZE)
    && (forall b <- pool, c <- pool | b != c :: b.save != c.save)
  }

  lemma BlocksWithout(pool: set<SseBuffer>, b: SseBuffer)
    requires DistinctBlocks(pool) && b in pool
    ensures Blocks(pool - {b}) == Blocks(pool) - {b.base} - {b.rawBase}
  {
    var r := pool - {b};
    forall x <- Blocks(r)
      ensures x in Blocks(pool) && x != b.base && x != b.rawBase
    {
      if x in (set c <- r :: c.base) {
        var c :| c in r && c.base == x;
      } else {
        var c :| c in r && c.rawBase == x;
      }
    }
    forall x <- Blocks(pool) | x != b.base && x != b.rawBase
      ensures x in Blocks(r)
    {
      if x in (set c <- pool :: c.base) {
        var c :| c in pool && c.base == x;
        assert c in r;
      } else {
        var c :| c in pool && c.rawBase == x;
        assert c in r;
      }
    }
  }

  lemma NoBlocks()
    ensures Blocks({}) == {}
  {
  }

  lemma BlocksWith(pool: set<SseBuffer>, b: SseBuffer)
    ensures Blocks(pool + {b}) == Blocks(pool) + {b.base} + {b.rawBase}
  {
    var r := pool + {b};
    assert b in r;
    forall x <- Blocks(pool)
      ensures x in Blocks(r)
    {
      if x in (set c <- pool :: c.base) {
        var c :| c in pool && c.base == x;
        assert c in r;
      } else {
        var c :| c in pool && c.rawBase == x;
        assert c in r;
      }
    }
  }

  lemma MoreMemory(pool: set<SseBuffer>, node: SseBuffer)
    requires DistinctSaves(pool) && DistinctBlocks(pool)
    requires AddsBlocks(pool, node)
    requires node.save.Length == SSE_SAVE_SIZE && forall b <- pool :: b.save != node.save
    ensures DistinctSaves(pool + {node}) && DistinctBlocks(pool + {node})
    ensures Blocks(pool + {node}) == Blocks(pool) + {node.base} + {node.rawBase}
  {
    BlocksWith(pool, node);
    forall b <- pool
      ensures b.base in Blocks(pool) && b.rawBase in Blocks(pool)
    {
    }
  }

  /** The next pointers from head on visit s in order, and end. */
  ghost predicate Spine(head: SseBuffer?, s: seq<SseBuffer>)
    reads s
  {
    if s == [] then head == null else head == s[0] && Spine(s[0].next, s[1..])
  }

  /** g_FreeList, g_Table and g_BuffersBuilt. */
  class SaveAreas {
    var freeHead: SseBuffer?
    const table: array<Slot<SseBuffer>>
    var buffersBuilt: nat
    ghost var free: seq<SseBuffer>       // the free list, head first
    ghost var pool: set<SseBuffer>       // every buffer built and not yet destroyed

    ghost function Contents(): Layer<SseBuffer>
      reads this, table
    {
      Layer(table[..], free)
    }

    ghost predicate Linked()
      reads this, pool
    {
      (forall b <- free :: b in pool) && Spine(freeHead, free)
    }

    /** Every built buffer is on the list or in the table, and no two share memory. */
    ghost predicate Intact()
      reads this, table, pool
    {
      && Linked()
      && table.Length == MAX_THREADS
      && Paired(table[..])
      && Partition(Contents(), pool)
      && DistinctSaves(pool)
      && DistinctBlocks(pool)
    }

    ghost predicate Valid()
      reads this, table, pool
    {
      && Linked()
      && LayerInv(Contents(), pool)
      && DistinctSaves(pool)
      && DistinctBlocks(pool)
    }

    constructor ()
      ensures Valid() && free == [] && pool == {} && buffersBuilt == 0 && fresh(table)
      ensures forall i :: 0 <= i < MAX_THREADS ==> table[i] == Slot(0, None)
    {
      freeHead, buffersBuilt, free, pool := null, 0, [], {};
      table := new Slot<SseBuffer>[MAX_THREADS](_ => Slot(0, None));
      new;
      NoneOccupied(table[..]);
    }

    /** A lookup made from a valid state leaves a valid state. */
    lemma LookupKeepsValid(was: Layer<SseBuffer>, thread: Thread)
      requires LayerInv(was, pool) && DistinctSaves(pool) && DistinctBlocks(pool)
      requires Linked() && table.Length == MAX_THREADS && Contents() == LookupOrAssign(was, thread).0
      ensures Valid()
    {
      LookupRefinesMap(was, pool, thread);
    }

    method PoolPop() returns (b: SseBuffer?)
      requires Linked()
      modifies this`freeHead, this`free
      ensures Linked()
      ensures b == null <==> old(free) == []
      ensures if b == null then free == [] else b == old(free)[0] && free == old(free)[1..]
    {
      b := freeHead;
      if b != null {
        freeHead := b.next;
        free := free[1..];
      }
    }

    method PoolPush(b: SseBuffer)
      requires Linked() && b in pool && b !in free
      modifies this`freeHead, this`free, b`next
      ensures Linked() && free == [b] + old(free)
    {
      b.next := freeHead;
      freeHead := b;
      free := [b] + free;
    }

    /** TableLookupOrAssign, atomic under g_TableLock. */
    method TableLookupOrAssign(thread: Thread) returns (buffer: SseBuffer?)
      requires Linked() && table.Length == MAX_THREADS
      modifies this`freeHead, this`free, table
      ensures Linked()
      ensures (Contents(), if buffer == null then None else Some(buffer)) == LookupOrAssign(old(Contents()), thread)
    {
      var start := Hash(thread);
      for i := 0 to MAX_THREADS
        invariant LookupOrAssign(Contents(), thread) == Probe(Contents(), thread, i)
      {
        var idx := (start + i) % MAX_THREADS;
        assert idx == ProbeSlot(thread, i);
        if table[idx].thread == thread {
          return if table[idx].buffer.Some? then table[idx].buffer.value else null;
        }
        if table[idx].thread == 0 {
          buffer := PoolPop();
          if buffer != null {
            table[idx] := Slot(thread, Some(buffer));
          }
          return;
        }
      }
      return null;
    }

    /** TrapLookupSaveArea: no lock, the list popped by hand. holder is the buffer behind area. */
    method TrapLookupSaveArea(thread: Thread) returns (area: array?<byte>, ghost holder: Option<SseBuffer>)
      requires Linked() && table.Length == MAX_THREADS
      modifies this`freeHead, this`free, table
      ensures Linked()
      ensures (Contents(), holder) == LookupOrAssign(old(Contents()), thread)
      ensures area == if holder.Some? then holder.value.save else null
    {
      var start := Hash(thread);
      for i := 0 to MAX_THREADS
        invariant LookupOrAssign(Contents(), thread) == Probe(Contents(), thread, i)
      {
        var idx := (start + i) % MAX_THREADS;
        assert idx == ProbeSlot(thread, i);
        if table[idx].thread == thread {
          holder := table[idx].buffer;
          area := if table[idx].buffer.Some? then table[idx].buffer.value.save else null;
          return;
        }
        if table[idx].thread == 0 {
          var e := freeHead;
          if e == null {
            return null, None;
          }
          freeHead := e.next;
          free := free[1..];
          table[idx] := Slot(thread, Some(e));
          return e.save, Some(e);
        }
      }
      return null, None;
    }

    /** The part of TableRelease done under g_TableLock: the entry of thread, if any, is emptied. */
    method TakeEntry(thread: Thread) returns (buf: SseBuffer?)
      requires table.Length == MAX_THREADS
      modifies table
      ensures Release(old(Contents()), thread) == Layer(table[..], if buf == null then free else [buf] + free)
      ensures buf != null ==> InTable(old(table[..]), buf)
    {
      hide Hash, ProbeSlot;
      ghost var was := table[..];
      var start := Hash(thread);
      for i := 0 to MAX_THREADS
        invariant table[..] == was && Stop(was, thread, 0) == Stop(was, thread, i)
      {
        var idx := (start + i) % MAX_THREADS;
        ProbeWraps(thread, i);
        assert was[idx] == table[idx];
        if table[idx].thread == thread {
          buf := if table[idx].buffer.Some? then table[idx].buffer.value else null;
          table[idx] := Slot(0, None);
          assert table[..] == was[idx := Slot(0, None)];
          return;
        }
        if table[idx].thread == 0 {
          return null;
        }
      }
      return null;
    }

    /** TableRelease: works whether or not the key is there, and keeps the chains only if the key is removable. */
    method TableRelease(thread: Thread)
      requires Linked() && table.Length == MAX_THREADS && Partition(Contents(), pool)
      modifies this`freeHead, this`free, table, pool`next
      ensures Contents() == Release(old(Contents()), thread)
      ensures Linked()
    {
      var buf := TakeEntry(thread);
      if buf != null {
        PoolPush(buf);
      }
    }

    /** PoolBuildOne: on success one clean buffer at the head of the list; on failure nothing is left allocated. */
    method PoolBuildOne(kp: Allocator) returns (ok: bool)
      requires Valid() && |pool| < PREFILL_BUFFERS
      requires Blocks(pool) <= kp.live
      modifies this`freeHead, this`free, this`pool, kp
      ensures Valid()
      ensures Blocks(pool) <= kp.live && kp.live - Blocks(pool) == old(kp.live - Blocks(pool))
      ensures (ok <==> kp.refusals == old(kp.refusals)) && kp.refusals >= old(kp.refusals)
      ensures !ok ==> free == old(free) && pool == old(pool) && kp.live == old(kp.live)
      ensures ok ==> free != [] && free[1..] == old(free) && pool == old(pool) + {free[0]}
      ensures ok ==> fresh(free[0]) && fresh(free[0].save) && CleanSave(free[0])
      ensures ok ==> kp.PoolBlock(free[0].base, 12) && kp.PoolBlock(free[0].rawBase, free[0].rawSize)
    {
      hide LayerInv, AreaOf, Blocks, DistinctSaves, DistinctBlocks;
      var node := AllocateNode(kp);
      if node == null {
        return false;
      }
      NewBuffer(node);
      pool := pool + {node};
      PoolPush(node);
      return true;
    }

    /** The pre-fill loop of DriverEntry: up to 64 clean buffers, stopping at the first failure. */
    method Prefill(kp: Allocator)
      requires Valid() && pool == {} && buffersBuilt == 0
      modifies this`freeHead, this`free, this`pool, this`buffersBuilt, kp
      ensures Valid() && buffersBuilt == |pool| <= PREFILL_BUFFERS
      ensures Blocks(pool) <= kp.live && kp.live - Blocks(pool) == old(kp.live)
      ensures forall b <- pool :: fresh(b) && fresh(b.save) && CleanSave(b)
      ensures pool != {} ==> free != []
      ensures buffersBuilt == PREFILL_BUFFERS <==> kp.refusals == old(kp.refusals)
      ensures kp.refusals >= old(kp.refusals)
    {
      hide LayerInv, Spine, DistinctSaves, DistinctBlocks, Blocks, AreaOf;
      NoBlocks();
      while buffersBuilt < PREFILL_BUFFERS
        invariant Valid() && buffersBuilt == |pool| <= PREFILL_BUFFERS
        invariant Blocks(pool) <= kp.live && kp.live - Blocks(pool) == old(kp.live)
        invariant forall b <- pool :: fresh(b) && fresh(b.save) && CleanSave(b)
        invariant pool != {} ==> free != []
        invariant kp.refusals == old(kp.refusals)
        decreases PREFILL_BUFFERS - buffersBuilt
      {
        label Before:
        var ok := PoolBuildOne(kp);
        assert forall b <- old@Before(pool) :: b.save[..] == old@Before(b.save[..]);
        if !ok {
          break;
        }
        buffersBuilt := buffersBuilt + 1;
      }
    }

    /** A new buffer joins the free list without disturbing the table, and shares no memory. */
    lemma NewBuffer(node: SseBuffer)
      requires Valid() && |pool| < PREFILL_BUFFERS && node !in pool
      requires AddsBlocks(pool, node)
      requires node.save.Length == SSE_SAVE_SIZE && forall b <- pool :: b.save != node.save
      ensures LayerInv(Layer(table[..], [node] + free), pool + {node})
      ensures DistinctSaves(pool + {node}) && DistinctBlocks(pool + {node})
      ensures Blocks(pool + {node}) == Blocks(pool) + {node.base} + {node.rawBase}
    {
      hide DistinctSaves, DistinctBlocks, Blocks;
      MoreSpare(Contents(), pool, node);
      MoreMemory(pool, node);
    }

    /** PoolDrain: every buffer on the free list gives both its allocations back, once. */
    method PoolDrain(kp: Allocator)
      requires Linked() && Distinct(free) && DistinctBlocks(pool)
      requires Blocks(pool) <= kp.live
      modifies this`freeHead, this`free, this`pool, kp`live
      ensures Linked() && free == [] && pool == old(pool) - (set b <- old(free))
      ensures Blocks(pool) <= kp.live && kp.live - Blocks(pool) == old(kp.live - Blocks(pool))
    {
      while true
        invariant Linked() && Distinct(free) && DistinctBlocks(pool) && pool <= old(pool)
        invariant Blocks(pool) <= kp.live && kp.live - Blocks(pool) == old(kp.live - Blocks(pool))
        invariant forall b <- free :: b in old(free)
        invariant forall b <- old(pool) :: b in pool <==> b !in old(free) || b in free
        decreases |free|
      {
        ghost var was := free;
        var node := PoolPop();
        if node == null {
          return;
        }
        BlocksWithout(pool, node);
        assert node in pool && node.base in Blocks(pool) && node.rawBase in Blocks(pool);
        if node.rawBase != 0 {
          kp.Free(node.rawBase);
        }
        kp.Free(node.base);
        pool := pool - {node};
      }
    }

    /** The loop of DriverUnload: buffers still held by table entries go back to the list. */
    method ReclaimAll()
      requires Intact()
      modifies this`freeHead, this`free, table, pool`next
      ensures Intact()
      ensures forall i :: 0 <= i < MAX_THREADS ==> table[i] == Slot(0, None)
      ensures (set b <- free) == pool
    {
      for idx := 0 to MAX_THREADS
        invariant Intact()
        invariant forall i :: 0 <= i < idx ==> table[i] == Slot(0, None)
      {
        if table[idx].thread != 0 && table[idx].buffer.Some? {
          ghost var l := Contents();
          var buf := table[idx].buffer.value;
          assert InTable(l.table, buf);
          ClearKeepsPartition(l, pool, idx);
          PoolPush(buf);
          table[idx] := Slot(0, None);
          assert Contents() == Layer(l.table[idx := Slot(0, None)], [buf] + l.free);
        }
      }
    }
  }

  /** The two allocations of PoolBuildOne and the clean area; neither is kept if one fails. */
  method AllocateNode(kp: Allocator) returns (node: SseBuffer?)
    modifies kp
    ensures node != null <==> kp.refusals == old(kp.refusals)
    ensures kp.refusals >= old(kp.refusals)
    ensures node == null ==> kp.live == old(kp.live)
    ensures node != null ==>
              && fresh(node) && fresh(node.save) && CleanSave(node)
              && kp.live == old(kp.live) + {node.base} + {node.rawBase}
              && node.base !in old(kp.live) && node.rawBase !in old(kp.live)
              && node.base != node.rawBase && node.rawBase != 0
              && AlignedInside(node.saveAddress, node.rawBase, node.rawSize)
              && kp.PoolBlock(node.rawBase, node.rawSize) && kp.PoolBlock(node.base, 12)
  {
    var base := kp.Allocate(12);
    if base == 0 {
      return null;
    }
    var raw := kp.Allocate(SSE_SAVE_SIZE + SSE_SAVE_ALIGN);
    if raw == 0 {
      kp.Free(base);
      return null;
    }
    AlignedAreaFits(raw);
    node := new SseBuffer(base, raw, SSE_SAVE_SIZE + SSE_SAVE_ALIGN);
    CleanArea(node.save);
  }

  /** The initialising loop of PoolBuildOne. */
  method CleanArea(a: array<byte>)
    requires a.Length == SSE_SAVE_SIZE
    modifies a
    ensures AreaOf(a[..]) == FRESH
  {
    for i := 0 to SSE_SAVE_SIZE
      invariant a[..i] == Zeros(i)
    {
      a[i] := 0;
    }
    assert a[..] == Zeros(SSE_SAVE_SIZE);
    StoreDword(a, SAVE_MXCSR, DEFAULT_MXCSR);
    FreshFields();
  }
}
