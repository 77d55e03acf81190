/** The vector-7 gate and the SwapContext detour: installing, refusing and removing them. */
module Hooks {
  import opened Bytes
  import opened KernelCode
  import opened NonPagedPool
  import FindIdt

  const NM_PROLOGUE_LEN: nat := 54

  /** An i386 interrupt gate in its live form (Intel SDM Vol. 3A, section 6.11). */
  class IdtGate {
    var offsetLow: u16
    var selector: u16
    var reserved: byte
    var access: byte
    var offsetHigh: u16

    constructor (offsetLow: u16, selector: u16, reserved: byte, access: byte, offsetHigh: u16)
    {
      this.offsetLow, this.selector, this.reserved, this.access, this.offsetHigh :=
        offsetLow, selector, reserved, access, offsetHigh;
    }

    /** The eight bytes of the table entry, as the processor reads them. */
    function Descriptor(): (r: seq<byte>)
      reads this
      ensures |r| == 8
    {
      Bytes16(offsetLow) + Bytes16(selector) + [reserved, access] + Bytes16(offsetHigh)
    }

    /** The handler: bytes 0, 1, 6 and 7 of the entry. */
    function GateTarget(): (r: u32)
      reads this
      ensures Bytes32(r) == Descriptor()[..2] + Descriptor()[6..]
    {
      SplitBytes(offsetHigh as int * 0x1_0000 + offsetLow as int);
      offsetHigh as int * 0x1_0000 + offsetLow as int
    }

    /** Set then read is the identity for every target, and no byte changes but those four. */
    method SetGateTarget(target: u32)
      modifies this`offsetLow, this`offsetHigh
      ensures GateTarget() == target
      ensures Descriptor() == Bytes32(target)[..2] + old(Descriptor())[2..6] + Bytes32(target)[2..]
    {
      SplitBytes(target);
      offsetLow := target % 0x1_0000;
      offsetHigh := target / 0x1_0000;
    }

    /** An interrupt gate of the kernel's is what findidt.py takes for a live gate to that handler. */
    lemma IsLiveGate()
      requires selector == 8 && reserved == 0
      ensures Descriptor() == FindIdt.SwizzledBytes(GateTarget(), access)
    {
      FindIdt.JoinWords(offsetLow, offsetHigh);
    }
  }

  lemma SplitBytes(x: u32)
    ensures Bytes32(x) == Bytes16(x % 0x1_0000) + Bytes16(x / 0x1_0000)
  {
    assert x % 0x1_0000 % 0x100 == x % 0x100 && x % 0x1_0000 / 0x100 == x / 0x100 % 0x100;
    assert x / 0x1_0000 / 0x100 == x / 0x100_0000;
  }

  class CodeMemory {
    var bytes: Memory

    constructor (bytes: Memory)
      ensures this.bytes == bytes
    {
      this.bytes := bytes;
    }

    method StoreByte(a: u32, v: byte)
      modifies this
      ensures Same(bytes, Stored(old(bytes), a, [v]))
    {
      bytes := Stored(bytes, a, [v]);
    }

    method StoreLong(a: u32, v: u32)
      requires a + 4 <= SPACE
      modifies this
      ensures Same(bytes, Stored(old(bytes), a, Bytes32(v)))
    {
      bytes := Stored(bytes, a, Bytes32(v));
    }

    /** An E9 rel32, opcode first. */
    method StoreJump(at: u32, to: u32)
      requires at + JMP_LEN <= SPACE
      modifies this
      ensures Same(bytes, Stored(old(bytes), at, Jump(at, to)))
    {
      StoreByte(at, JMP_REL32);
      StoreLong(at + 1, Delta(Plus(at, JMP_LEN), to));
    }
  }

  class HookState {
    const kp: Allocator
    const gate: IdtGate
    const memory: CodeMemory
    const nmHandler: u32                 // where our handlers were loaded
    const swapDetour: u32
    var kernelNmResume: u32
    var nmHooked: bool
    var trampoline: u32                  // 0 is NULL
    var swapTrampoline: u32
    var swapHooked: bool
    var swapOriginal: seq<byte>

    constructor (kp: Allocator, gate: IdtGate, memory: CodeMemory, nmHandler: u32, swapDetour: u32)
      ensures this.kp == kp && this.gate == gate && this.memory == memory
      ensures this.nmHandler == nmHandler && this.swapDetour == swapDetour
      ensures !nmHooked && !swapHooked && trampoline == 0
    {
      this.kp, this.gate, this.memory := kp, gate, memory;
      this.nmHandler, this.swapDetour := nmHandler, swapDetour;
      kernelNmResume, nmHooked, trampoline, swapTrampoline, swapHooked := 0, false, 0, 0, false;
      swapOriginal := Zeros(DETOUR_LEN);
    }

    /** SwapContext is part of the kernel image, which pool blocks never touch. */
    predicate Placed() {
      kp.codeLo <= SWAPCONTEXT_VA && SWAPCONTEXT_VA + DETOUR_LEN <= kp.codeHi
    }

    /** The live #NM handler starts with the 54 bytes that ours repeats. */
    predicate PrologueMatches()
      reads gate, memory
    {
      Fetch(memory.bytes, gate.GateTarget(), NM_PROLOGUE_LEN) == Fetch(memory.bytes, nmHandler, NM_PROLOGUE_LEN)
    }

    /** SwapContext starts with the five bytes the driver expects. */
    predicate EntryMatches()
      reads memory
    {
      Fetch(memory.bytes, SWAPCONTEXT_VA, DETOUR_LEN) == SWAP_EXPECTED
    }

    /** Which bytes these are: or cl, cl; pushfd; mov ecx, [ebx], five bytes in whole instructions. */
    lemma EntryBytes()
      ensures EntryMatches() <==>
                && memory.bytes(0x8013_cd90) == 0x0a && memory.bytes(0x8013_cd91) == 0xc9
                && memory.bytes(0x8013_cd92) == 0x9c
                && memory.bytes(0x8013_cd93) == 0x8b && memory.bytes(0x8013_cd94) == 0x0b
    {
      var f := Fetch(memory.bytes, SWAPCONTEXT_VA, DETOUR_LEN);
      if f[0] == 0x0a && f[1] == 0xc9 && f[2] == 0x9c && f[3] == 0x8b && f[4] == 0x0b {
        assert f == SWAP_EXPECTED;
      }
    }

    lemma PrologueBytes()
      ensures PrologueMatches() <==>
                forall i | 0 <= i < 54 :: memory.bytes(Plus(gate.GateTarget(), i)) == memory.bytes(Plus(nmHandler, i))
    {
      var live, own := Fetch(memory.bytes, gate.GateTarget(), 54), Fetch(memory.bytes, nmHandler, 54);
      assert live == own <==> forall i | 0 <= i < 54 :: live[i] == own[i];
    }

    /** Compare the live handler's prologue with our copy of it; repoint the gate only if all of it matches. */
    method InstallNmHook() returns (ok: bool, liveHandler: u32, matched: nat)
      modifies this`kernelNmResume, this`nmHooked, gate`offsetLow, gate`offsetHigh
      ensures liveHandler == old(gate.GateTarget()) && matched <= NM_PROLOGUE_LEN
      ensures Fetch(memory.bytes, liveHandler, matched) == Fetch(memory.bytes, nmHandler, matched)
      ensures ok <==> old(PrologueMatches())
      ensures !ok ==> matched < NM_PROLOGUE_LEN
      ensures !ok ==> memory.bytes(Plus(liveHandler, matched)) != memory.bytes(Plus(nmHandler, matched))
      ensures !ok ==> unchanged(this) && unchanged(gate)
      ensures ok ==> nmHooked && gate.GateTarget() == nmHandler && kernelNmResume == Plus(liveHandler, NM_PROLOGUE_LEN)
    {
      liveHandler, matched := gate.GateTarget(), 0;
      while matched < NM_PROLOGUE_LEN
        invariant matched <= NM_PROLOGUE_LEN
        invariant Fetch(memory.bytes, liveHandler, matched) == Fetch(memory.bytes, nmHandler, matched)
      {
        if memory.bytes(Plus(liveHandler, matched)) != memory.bytes(Plus(nmHandler, matched)) {
          assert Fetch(memory.bytes, liveHandler, NM_PROLOGUE_LEN)[matched]
              != Fetch(memory.bytes, nmHandler, NM_PROLOGUE_LEN)[matched];
          return false, liveHandler, matched;
        }
        matched := matched + 1;
      }
      kernelNmResume := Plus(liveHandler, NM_PROLOGUE_LEN);
      gate.SetGateTarget(nmHandler);
      nmHooked := true;
      return true, liveHandler, matched;
    }

    method RemoveNmHook()
      modifies this`nmHooked, gate`offsetLow, gate`offsetHigh
      ensures !nmHooked
      ensures if old(nmHooked) then gate.GateTarget() == Minus(kernelNmResume, NM_PROLOGUE_LEN) else unchanged(gate)
    {
      if nmHooked {
        gate.SetGateTarget(Minus(kernelNmResume, NM_PROLOGUE_LEN));
        nmHooked := false;
      }
    }

    /** Verify the five bytes, build the trampoline, patch the entry; on any refusal nothing has changed. */
    method InstallSwapHook() returns (ok: bool, mismatch: nat)
      requires Placed() && !swapHooked && trampoline == 0
      modifies this`trampoline, this`swapTrampoline, this`swapHooked, this`swapOriginal, memory, kp
      ensures mismatch == 0 <==> old(EntryMatches())
      ensures ok <==> old(EntryMatches()) && kp.refusals == old(kp.refusals)
      ensures kp.refusals >= old(kp.refusals)
      ensures mismatch != 0 ==>
                && !ok && mismatch <= DETOUR_LEN
                && old(memory.bytes)(Plus(SWAPCONTEXT_VA, mismatch - 1)) != SWAP_EXPECTED[mismatch - 1]
                && Fetch(old(memory.bytes), SWAPCONTEXT_VA, mismatch - 1) == SWAP_EXPECTED[..mismatch - 1]
      ensures !ok ==> !swapHooked && trampoline == 0 && memory.bytes == old(memory.bytes) && kp.live == old(kp.live)
      ensures ok ==>
                && swapHooked && trampoline != 0 && swapTrampoline == trampoline
                && trampoline !in old(kp.live) && kp.live == old(kp.live) + {trampoline}
                && kp.PoolBlock(trampoline, DETOUR_LEN + JMP_LEN) && ClearOfPatch(trampoline)
                && swapOriginal == Fetch(old(memory.bytes), SWAPCONTEXT_VA, DETOUR_LEN)
                && Same(memory.bytes, Patched(old(memory.bytes), trampoline, swapDetour))
                && IsJump(memory.bytes, SWAPCONTEXT_VA, swapDetour)
                && IsJump(memory.bytes, Plus(trampoline, DETOUR_LEN), Plus(SWAPCONTEXT_VA, DETOUR_LEN))
    {
      mismatch := FindMismatch();
      if mismatch != 0 {
        return false, mismatch;
      }
      trampoline := kp.Allocate(DETOUR_LEN + JMP_LEN);
      if trampoline == 0 {
        return false, 0;
      }
      Patch();
      return true, 0;
    }

    /** The first of the five bytes that is not as expected, counted from 1; 0 if none. */
    method FindMismatch() returns (mismatch: nat)
      ensures mismatch <= DETOUR_LEN
      ensures mismatch == 0 <==> EntryMatches()
      ensures mismatch != 0 ==>
                && memory.bytes(Plus(SWAPCONTEXT_VA, mismatch - 1)) != SWAP_EXPECTED[mismatch - 1]
                && Fetch(memory.bytes, SWAPCONTEXT_VA, mismatch - 1) == SWAP_EXPECTED[..mismatch - 1]
    {
      for i := 0 to DETOUR_LEN
        invariant Fetch(memory.bytes, SWAPCONTEXT_VA, i) == SWAP_EXPECTED[..i]
      {
        if memory.bytes(SWAPCONTEXT_VA + i) != SWAP_EXPECTED[i] {
          assert Fetch(memory.bytes, SWAPCONTEXT_VA, DETOUR_LEN)[i] != SWAP_EXPECTED[i];
          return i + 1;
        }
      }
      assert SWAP_EXPECTED[..DETOUR_LEN] == SWAP_EXPECTED;
      return 0;
    }

    /** Fill the trampoline, then overwrite the entry. */
    method Patch()
      requires ClearOfPatch(trampoline)
      modifies this`swapTrampoline, this`swapHooked, this`swapOriginal, memory
      ensures swapHooked && swapTrampoline == trampoline
      ensures swapOriginal == Fetch(old(memory.bytes), SWAPCONTEXT_VA, DETOUR_LEN)
      ensures Same(memory.bytes, Patched(old(memory.bytes), trampoline, swapDetour))
      ensures IsJump(memory.bytes, SWAPCONTEXT_VA, swapDetour)
      ensures IsJump(memory.bytes, Plus(trampoline, DETOUR_LEN), Plus(SWAPCONTEXT_VA, DETOUR_LEN))
    {
      swapOriginal := CopyDisplaced();
      memory.StoreJump(trampoline + DETOUR_LEN, Plus(SWAPCONTEXT_VA, DETOUR_LEN));
      swapTrampoline := trampoline;
      memory.StoreJump(SWAPCONTEXT_VA, swapDetour);
      swapHooked := true;
      PatchReaches(old(memory.bytes));
    }

    lemma PatchReaches(was: Memory)
      requires ClearOfPatch(trampoline) && Same(memory.bytes, Patched(was, trampoline, swapDetour))
      ensures IsJump(memory.bytes, SWAPCONTEXT_VA, swapDetour)
      ensures IsJump(memory.bytes, Plus(trampoline, DETOUR_LEN), Plus(SWAPCONTEXT_VA, DETOUR_LEN))
    {
      hide IsJump, Patched;
      var p := Patched(was, trampoline, swapDetour);
      DetourReaches(was, trampoline, swapDetour);
      SameJumps(p, memory.bytes, SWAPCONTEXT_VA, swapDetour);
      SameJumps(p, memory.bytes, Plus(trampoline, DETOUR_LEN), Plus(SWAPCONTEXT_VA, DETOUR_LEN));
    }

    /** The displaced bytes go to the trampoline and into the copy kept for removal. */
    method CopyDisplaced() returns (original: seq<byte>)
      requires ClearOfPatch(trampoline)
      modifies memory
      ensures original == Fetch(old(memory.bytes), SWAPCONTEXT_VA, DETOUR_LEN)
      ensures Same(memory.bytes, Stored(old(memory.bytes), trampoline, original))
    {
      original := [];
      for i := 0 to DETOUR_LEN
        invariant original == Fetch(old(memory.bytes), SWAPCONTEXT_VA, i)
        invariant Same(memory.bytes, Stored(old(memory.bytes), trampoline, original))
      {
        var v := memory.bytes(SWAPCONTEXT_VA + i);
        memory.StoreByte(trampoline + i, v);
        original := original + [v];
      }
    }

    /** Put the bytes back, then free the trampoline. */
    method RemoveSwapHook()
      requires swapHooked ==> |swapOriginal| == DETOUR_LEN
      requires trampoline != 0 ==> trampoline in kp.live
      modifies this`trampoline, this`swapHooked, memory, kp`live
      ensures !swapHooked && trampoline == 0
      ensures kp.live == if old(trampoline) == 0 then old(kp.live) else old(kp.live) - {old(trampoline)}
      ensures Same(memory.bytes,
                   if old(swapHooked) then Unpatched(old(memory.bytes), swapOriginal) else old(memory.bytes))
    {
      if swapHooked {
        for i := 0 to DETOUR_LEN
          invariant Same(memory.bytes, Stored(old(memory.bytes), SWAPCONTEXT_VA, swapOriginal[..i]))
          invariant unchanged(kp) && trampoline == old(trampoline)
        {
          memory.StoreByte(SWAPCONTEXT_VA + i, swapOriginal[i]);
        }
        assert swapOriginal[..DETOUR_LEN] == swapOriginal;
        swapHooked := false;
      }
      if trampoline != 0 {
        kp.Free(trampoline);
        trampoline := 0;
      }
    }
  }
}
