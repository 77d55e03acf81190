/** The kernel's allocator, as far as the driver can tell: addresses handed out and not yet returned. */
module NonPagedPool {
  import opened Bytes

  class Allocator {
    const codeLo: u32          // the kernel image, which is never handed out
    const codeHi: u32
    var live: set<u32>
    ghost var refusals: nat    // requests answered with NULL so far

    constructor (codeLo: u32, codeHi: u32)
      ensures this.codeLo == codeLo && this.codeHi == codeHi && live == {} && refusals == 0
    {
      this.codeLo, this.codeHi, this.live, refusals := codeLo, codeHi, {}, 0;
    }

    /** A block of pool memory: it does not wrap and does not touch the kernel image. */
    predicate PoolBlock(p: u32, size: nat) {
      p + size <= 0x1_0000_0000 && (p + size <= codeLo || codeHi <= p)
    }

    /** ExAllocatePoolWithTag: NULL (0), or the address of a block that nobody else holds. */
    method Allocate(size: nat) returns (p: u32)
      modifies this
      ensures p == 0 ==> live == old(live) && refusals == old(refusals) + 1
      ensures p != 0 ==> refusals == old(refusals) && p !in old(live) && live == old(live) + {p} && PoolBlock(p, size)
    {
      p := 0;
      if q: u32 :| q != 0 && q !in live && PoolBlock(q, size) {
        if * {
          p := q;
          live := live + {p};
          return;
        }
      }
      refusals := refusals + 1;
    }

    /** ExFreePool: only a live block may be freed, so nothing is freed twice. */
    method Free(p: u32)
      requires p in live
      modifies this`live
      ensures live == old(live) - {p}
    {
      live := live - {p};
    }
  }
}
