/** The bits of CR0 and CR4 the driver uses (Intel SDM Vol. 3A, section 2.5). */
module ControlRegs {
  const CR0_CLEAR_MASK: bv32 := 0xffff_fff1    // ~(TS | EM | MP)
  const CR4_OSFXSR: bv32 := 0x0000_0200
  const CR4_OSFXSR_CLEAR: bv32 := 0xffff_fdff

  /** CR0.TS: the next x87 or SSE instruction raises #NM. */
  predicate TsSet(cr0: bv32) {
    cr0 & 8 != 0
  }

  /** FXSAVE and FXRSTOR raise #NM if TS or EM is set. */
  predicate FpuUsable(cr0: bv32) {
    cr0 & 0xc == 0
  }

  /** The kernel's own #NM handler clears TS. */
  function NmServiced(cr0: bv32): bv32 {
    if TsSet(cr0) then cr0 & 0xffff_fff7 else cr0
  }

  /** CR0 inside the hooks. */
  function Unlocked(cr0: bv32): (r: bv32)
    ensures FpuUsable(r) && !TsSet(r)
    ensures r | 0xe == cr0 | 0xe                 // only TS, EM and MP change
  {
    cr0 & CR0_CLEAR_MASK
  }

  function WithOsfxsr(cr4: bv32): (r: bv32)
    ensures r & CR4_OSFXSR != 0
  {
    cr4 | CR4_OSFXSR
  }

  function WithoutOsfxsr(cr4: bv32): (r: bv32)
    ensures r & CR4_OSFXSR == 0
  {
    cr4 & CR4_OSFXSR_CLEAR
  }

  /** TS is bit 3 of CR0, EM bit 2. */
  lemma TsIsBit3(cr0: bv32)
    ensures TsSet(cr0) <==> cr0 & 0x8 == 0x8
    ensures FpuUsable(cr0) <==> cr0 & 0x8 == 0 && cr0 & 0x4 == 0
  {
  }

  /** Servicing a #NM clears TS and no other bit. */
  lemma NmServicedClearsTs(cr0: bv32)
    ensures !TsSet(NmServiced(cr0)) && NmServiced(cr0) | 0x8 == cr0 | 0x8
  {
  }

  /** OSFXSR is bit 9 of CR4; no other bit is touched, OSXMMEXCPT stays as it was. */
  lemma OsfxsrIsBit9(cr4: bv32)
    ensures WithOsfxsr(cr4) == cr4 | 0x200
    ensures WithoutOsfxsr(cr4) == cr4 & 0xffff_fdff
  {
  }

  /** Loading and unloading gives CR4 back exactly when OSFXSR was clear: unloading clears the bit whoever set it. */
  lemma Cr4RestoredIff(cr4: bv32)
    ensures WithoutOsfxsr(WithOsfxsr(cr4)) == cr4 <==> cr4 & 0x200 == 0
    ensures WithoutOsfxsr(WithOsfxsr(cr4)) | 0x200 == cr4 | 0x200
  {
  }
}
