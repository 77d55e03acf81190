# A verified model of the NT 3.51 SSE driver

`nt351sse.c` lets threads of Windows NT 3.51 use SSE by keeping MXCSR and XMM0-7 per thread. It
does so lazily: a hook on the #NM trap loads the current thread's registers when it first needs
them, a detour at the top of `SwapContext` saves them when the thread is switched out. This
project models that protocol down to the bytes it copies, the table and free list below it, the
load and unload around it, and the two Python tools whose results the driver rests on, and proves
what they promise.

`dafny verify dfyconfig.toml` checks everything.

## How the proof is layered

| file | what it holds |
|---|---|
| `Schedule.dfy` | what a machine does between hooks (SSE and x87 instructions, kernel writes of CR0 and x87 state, thread switches) and the histories the guarantees are stated against; nothing here knows the driver |
| `LazySse.dfy` | the protocol as a map from threads to saved registers, and the theorems over all its runs |
| `TrapCore.dfy` | the same protocol over table, free list, save areas, scratch image and owner pointer; it refines `LazySse`, so the theorems carry over |
| `ThreadTable.dfy`, `SaveAreas.dfy` | the probing table and the free list, as values and on the heap |
| `FxImage.dfy`, `Traps.dfy` | the FXSAVE layout, and the two handlers as instruction-by-instruction methods over byte arrays, each equal to its step in `TrapCore` |
| `KernelCode.dfy`, `Hooks.dfy`, `NonPagedPool.dfy`, `ControlRegs.dfy`, `Lifecycle.dfy` | patched jumps, the IDT gate, the allocator, CR0/CR4, `DriverEntry` and `DriverUnload` |
| `FindIdt.dfy`, `Stamp.dfy` | `findidt.py` and `stamp351.py` |

A schedule is a list of events. An SSE or x87 instruction executed with CR0.TS set first goes
through the #NM hook, after which the kernel's own handler clears TS. Every schedule is allowed:
which thread runs next, and what CR0 the kernel leaves at a switch or at any other moment, is up
to the environment. The image formats follow the Intel SDM: Vol. 1 section 10.5.1 (FXSAVE image)
and section 10.2.3 (MXCSR), Vol. 3A section 6.11 (gates) and section 2.5 (CR0.TS, CR4.OSFXSR).

## Where the code does not do what its comments say

* `nt351sse.c:655-658` and `README.md:653` say that after the detour "the next SSE instruction in
  the incoming thread takes a #NM", and that this closes the hole left by threads that come back
  with TS clear. The detour restores CR0 and never sets TS, so such a thread takes no #NM.
  Call an SSE instruction guarded if a #NM came before it in its slice. `SeenIsFinds` says what any
  instruction finds, guarded or not, as a function of the history alone. `PreservedIff` is the exact
  condition under which that is what the thread last left, `SurvivesIffTrappedFirst` the same for
  one value over everything that can happen until its thread runs again, and `ConfinedIff` the
  exact condition under which it is not a stranger's. A thread with an area can lose a value in two
  ways: it was left unguarded (`LostUpdate`), or it is looked for unguarded (`Overwritten`).
* `TableRelease` clears a slot without a tombstone. `ReleaseSafeIff` says when that is harmless;
  in the driver it is, since only the load-time self-test calls it, on a table of one entry.
* A `DriverEntry` that backs out of the detour after a thread took a #NM frees the free list but
  not the buffers the table already holds (`nt351sse.c:1208-1223`); the contract of `DriverEntry`
  says that it leaks in exactly that case.
* A #NM serviced between the two hook installations also leaves `g_FxOwner` set to the area of the
  thread that took it, and nothing resets it when that thread is switched out, since the detour is
  not in yet. `DriverEntry` says whose area it is, `StaleOwnerIsWritten` and `StaleOwnerLeaks`
  what comes of it.
* Unloading clears CR4.OSFXSR whether or not the driver set it (`nt351sse.c:1240-1244` versus
  `nt351sse.c:1044-1052`): `Cr4RestoredIff`.
* `stamp351.py` skips its own checksum field only if the field lies on an even offset
  (`scripts/stamp351.py:28-30`): `StampVerifiesIff`, with a file it goes wrong on in
  `OddOffsetFails`.

## Model

| member | source | states |
|---|---|---|
| TrapCore.SeenIsLastGuarded | nt351sse.c:514-713 | for any TS policy and after any history, what a thread with an area finds at an SSE instruction with a #NM before it in its slice: exactly the MXCSR and XMM0-7 it last left at such an instruction |
| TrapCore.Preservation | nt351sse.c:514-713 | for every schedule in which the kernel leaves TS set at each switch, a thread that holds a save area finds at each SSE instruction exactly the MXCSR and XMM0-7 it last left, or the clean defaults the first time |
| TrapCore.PreservationForAll | nt351sse.c:514-713 | the same of every thread, as long as no more threads have taken a #NM than buffers were built |
| TrapCore.PreservationOfCareful | nt351sse.c:514-713 | the same of one thread whose own slices trap before they use SSE, whatever TS the other threads run with |
| TrapCore.SeenIsFinds | nt351sse.c:514-713 | for every loaded state, every history and any TS policy, what any instruction finds in MXCSR and XMM0-7, whether it takes a #NM or not and whether or not its thread has an area, as a function of the history |
| TrapCore.PreservedIff | nt351sse.c:645-713 | the exact condition for preservation after every history: under guard, a thread finds what it last left iff it left that under guard or had left the same so before; with TS clear and no #NM, iff the last to use the registers left that value |
| TrapCore.SurvivesIffTrappedFirst | nt351sse.c:645-713 | for every history and whatever happens until the thread runs again: the value it leaves is there then iff, under guard, there was a #NM in the slice that left it or it is what the thread had last left so; with TS clear and no #NM, iff it is what was last left in the registers |
| TrapCore.SurvivesIffAfterTrapping | nt351sse.c:645-713 | for a thread that has always trapped first so far: under guard, iff there was a #NM in the slice or it is the value the thread last left; with TS clear and no #NM, iff it is what was last left in the registers |
| TrapCore.LostUpdate | nt351sse.c:655-658 | the run that shows the TS hypothesis is needed, on the bytes: a thread switched in with TS clear leaves w and later finds its older state |
| TrapCore.Overwritten | nt351sse.c:655-658 | the run that loses a value left under guard: a thread that holds an area comes back with TS clear and finds what another left |
| TrapCore.SeenWithoutArea | nt351sse.c:613-625 | a thread for which no buffer was left finds the defaults at each #NM, and until the next #NM of its slice what it has left since |
| TrapCore.FirstTrapIsQuiet | nt351sse.c:613-625 | the first #NM of a thread gives it an MXCSR with all six exceptions masked and nothing else set, and zero in XMM0-7 |
| TrapCore.AreaHoldsLastTrappedSlice | nt351sse.c:569-611 | for any TS policy, the area of every thread but the running owner holds its registers as of the end of its latest slice with a #NM, the defaults if there is none |
| TrapCore.Confinement | nt351sse.c:569-631 | if only the taker of the latest #NM ever runs with TS clear, what any thread finds in MXCSR and XMM is one of its own earlier states or the defaults, with or without an area |
| TrapCore.ConfinementWhenSwitchesSetTs | nt351sse.c:655-658 | in particular when TS is set at every switch |
| TrapCore.GuardedSeesOwn | nt351sse.c:569-631 | for any TS policy, a guarded SSE instruction finds a state of its thread's own or the defaults, with or without an area |
| TrapCore.AreasAreOwn | nt351sse.c:574-583 | for any TS policy, no save area ever holds another thread's registers |
| TrapCore.ConfinedIff | nt351sse.c:648-658 | after every history, a thread finds a state of its own iff that is under guard or what was last left in the registers is one |
| TrapCore.ConfinedIffTsSet | nt351sse.c:648-658 | in particular, the thread switched in directly after somebody left w finds a state of its own iff TS is set for it or w is one |
| TrapCore.Ownership | nt351sse.c:569-631 | in every reachable state the owner pointer is set exactly in a slice that trapped and got an area; it is then the current thread's area, the live registers are what that thread last left under guard, and another #NM leaves them as they are |
| TrapCore.StaleOwnerIsWritten | nt351sse.c:569-583 | the first hook call of any run writes the live registers to the area of the owner it starts with, whosever that is |
| TrapCore.StaleOwnerLeaks | nt351sse.c:569-583 | if another thread's area owns the registers when a run starts, and the first hook call is a switch to that thread, it finds what whoever was running left |
| TrapCore.Transparent | nt351sse.c:633-640 | over every run, from any sound state, the driver is invisible to CR0, to the x87 registers and to scheduling: the machine goes through the states of one without the driver |
| TrapCore.Conservation | nt351sse.c:198-259 | over every run, from any sound state, free plus occupied buffers equal the buffers built and none is lost or invented; from a loaded one every buffer still on the list is as clean as when it was built |
| TrapCore.CountsTraps | nt351sse.c:557 | over every run `g_NmCount` counts the #NM traps, modulo 2^32 |
| TrapCore.CountsFlushes | nt351sse.c:700-701 | `g_SwapFlushes` counts the switches away from a slice with a #NM whose thread has an area, modulo 2^32 |
| TrapCore.RunRefines | nt351sse.c:514-713 | every run of table, free list, areas and image is a run of the abstract protocol |
| TrapCore.NmRefinesTrap | nt351sse.c:565-631 | one #NM hook call, aliased owner included, flushes the owner's registers and loads the current thread's, and keeps the invariant |
| TrapCore.SwapRefines | nt351sse.c:669-701 | one switch hook call flushes the owner's registers and leaves the live state unowned |
| TrapCore.NmFrame | nt351sse.c:574-638 | the #NM hook leaves x87 and CR0, all areas but the owner's, and the owner's bytes from 0x84 on |
| TrapCore.SwapFrame | nt351sse.c:669-706 | the switch hook leaves the same, and the live registers, the table and the free list |
| LazySse.Preservation | nt351sse.c:569-611 | a thread that holds an area and traps before it uses SSE finds what it last left, whatever TS the others run with |
| LazySse.SurvivesIffTrappedFirst | nt351sse.c:645-713 | the exact survival condition over the abstract protocol, for every history, anything in between, and reads with and without a #NM |
| LazySse.LiveIsResident | nt351sse.c:569-713 | the live registers of every reachable state as a function of the history |
| LazySse.PreservedIff | nt351sse.c:645-713 | the exact condition for preservation over the abstract protocol |
| LazySse.SeenIsLastGuarded | nt351sse.c:569-631 | what a guarded SSE instruction finds, for any TS policy |
| LazySse.LostUpdate | nt351sse.c:655-658 | the run that shows the TS hypothesis is needed: a thread switched in with TS clear leaves w and later finds its older state |
| LazySse.Overwritten | nt351sse.c:655-658 | the run that loses a value left under guard |
| LazySse.ConfinedIff | nt351sse.c:648-658 | the exact condition for confinement over the abstract protocol, after every history |
| LazySse.ConfinedIffTsSet | nt351sse.c:648-658 | in particular, behind somebody who left w: iff TS is set or w is its own |
| LazySse.AreaHoldsLastTrappedSlice | nt351sse.c:674-701 | the environment-free meaning of a save area over the abstract protocol |
| LazySse.ConfinementInvariant | nt351sse.c:569-631 | areas, and the live registers of the latest trapper, only ever hold that thread's own states |
| LazySse.AreasGoToFirstTrappers | nt351sse.c:484-497 | exactly the first n distinct threads that trap hold an area, n being the number of buffers, and the rest never get one |
| LazySse.SeenWithoutArea | nt351sse.c:613-625 | what a thread for which no buffer was left sees at any point of a slice in which it traps |
| LazySse.GuardedSeesOwn | nt351sse.c:569-631 | a guarded SSE instruction never finds another thread's state, for any TS policy |
| Schedule.SwitchesSetTsTrapsFirst | nt351sse.c:655-658 | setting TS at every switch makes every SSE instruction of every thread guarded |
| Schedule.SwitchesSetTsIsTrapperPolicy | nt351sse.c:655-658 | and lets only the taker of the latest #NM run with TS clear |
| Schedule.InstructionsRunClear | nt351sse.c:633-641 | once an SSE or x87 instruction has executed TS is clear, so that the next takes no #NM unless TS is set again |
| FxImage.CleanIffQuiet | nt351sse.c:70-72 | the defaults are the one state with flags clear, the six exceptions masked, rounding to nearest, DAZ, FTZ and reserved bits clear, and zero XMM registers |
| FxImage.FxSaveFields | nt351sse.c:70-86 | the 288 bytes FXSAVE writes read back as the x87 state, MXCSR and XMM0-7 they came from, and the rest of the image stays |
| FxImage.ImageWrites | nt351sse.c:598-609 | writing 4 bytes at 0x18 and 128 at 0xa0 of an image replaces MXCSR and XMM and no x87 byte |
| FxImage.AreaWrites | nt351sse.c:574-583 | writing 4 bytes at 0x80 and 128 at 0 of a save area replaces its MXCSR and XMM and nothing else |
| Traps.RepMovsb | nt351sse.c:580-581 | the copy loop moves exactly count bytes and no others |
| Traps.CopyOut | nt351sse.c:574-583 | a save area ends up with the image's MXCSR and XMM |
| Traps.CopyIn | nt351sse.c:598-610 | the image ends up with the area's MXCSR and XMM |
| Traps.CopyDefaults | nt351sse.c:613-625 | the image ends up with the clean defaults |
| Traps.TrapState.NmHandler | nt351sse.c:514-642 | on the heap, the handler's instructions make exactly the step of TrapCore, with CR0 as found; without a scratch image only the trap counter moves |
| Traps.TrapState.SwapDetour | nt351sse.c:660-713 | the same for the detour; without an image or an owner nothing changes |
| Traps.TrapState.Execute | nt351sse.c:514-713 | any schedule takes the heap through the run of TrapCore, for which the theorems above hold |
| ThreadTable.HashSpreads | nt351sse.c:268-275 | two threads share a slot if they agree but for the low four bits or lie 8 KB apart, and not if they lie at least 16 bytes and less than 8 KB apart |
| ThreadTable.LookupRefinesMap | nt351sse.c:281-312 | from any valid state a lookup returns the mapped buffer and changes nothing, or adds exactly the entry (thread, list head); NULL means exactly a new thread and an empty list |
| ThreadTable.NeverFull | nt351sse.c:198-259 | at most 64 of 512 slots are ever occupied, so no probe sequence runs to its end |
| ThreadTable.StopFinds | nt351sse.c:281-312 | a key is in the table iff the probe sequence stops at it |
| ThreadTable.ReleaseSafeIff | nt351sse.c:318-348 | after releasing a thread all others keep finding their buffers iff no other key's probe path runs through the freed slot |
| ThreadTable.ReleaseKeepsChainsIff | nt351sse.c:318-348 | the table invariant survives a release under exactly that condition |
| ThreadTable.ReleaseLosesKeysBehind | nt351sse.c:318-348 | otherwise the next lookup of a key behind the hole gives its thread a second buffer beside its first |
| ThreadTable.CollisionUnremovable | nt351sse.c:318-348 | it does occur: two threads with one hash slot, looked up one after the other on an empty table |
| ThreadTable.ReleaseFreesBuffer | nt351sse.c:331-347 | a release always removes exactly the thread's entry and puts its buffer at the head of the list |
| ThreadTable.ReleaseAbsent | nt351sse.c:330-340 | releasing a thread without an entry changes nothing |
| ThreadTable.SelfTestRestores | nt351sse.c:1144-1158 | on an empty table: both lookups return the list head, and the release leaves table and list as they were |
| SaveAreas.SaveAreas.TableLookupOrAssign | nt351sse.c:281-312 | the locked lookup computes the lookup function on the heap's table and free list |
| SaveAreas.SaveAreas.TrapLookupSaveArea | nt351sse.c:470-501 | the trap-context lookup computes the same function, so both agree from any state; it returns the buffer's save area |
| SaveAreas.SaveAreas.TableRelease | nt351sse.c:318-348 | table and list after a release, whether or not the key was there |
| SaveAreas.SaveAreas.PoolPop | nt351sse.c:176-184 | takes the head of the linked list, or NULL from an empty one |
| SaveAreas.SaveAreas.PoolPush | nt351sse.c:186-192 | puts a buffer in front |
| SaveAreas.SaveAreas.PoolBuildOne | nt351sse.c:198-244 | one clean buffer more at the head, its save area 16-aligned inside its own allocation, or nothing changed and nothing left allocated |
| SaveAreas.SaveAreas.Prefill | nt351sse.c:1123-1131 | up to 64 clean buffers, stopping at the first failure |
| SaveAreas.SaveAreas.PoolDrain | nt351sse.c:246-259 | both allocations of every buffer on the list are freed, once, and no others |
| SaveAreas.SaveAreas.ReclaimAll | nt351sse.c:1054-1064 | the table ends empty and every buffer is on the list |
| SaveAreas.AlignedAreaFits | nt351sse.c:225-228 | the 16-aligned 512 bytes lie inside the raw allocation of 528 |
| KernelCode.JumpReaches | nt351sse.c:877-879 | an E9 rel32 built by wrapping subtraction reaches its target, from any address to any address |
| KernelCode.DetourReaches | nt351sse.c:863-891 | the patched entry leads to the detour, the trampoline starts with the displaced bytes and ends in a jump to SwapContext+5 |
| KernelCode.TrampolineStream | nt351sse.c:872-879 | the trampoline followed by what its jump leads to is the original instruction stream |
| KernelCode.UnpatchRestores | nt351sse.c:897-910 | putting the five bytes back leaves no address changed but those of the trampoline's block |
| Hooks.IdtGate.SetGateTarget | nt351sse.c:764-775 | bytes 0, 1, 6 and 7 of the descriptor become those of the target and no other byte changes; reading back gives the target |
| Hooks.IdtGate.GateTarget | nt351sse.c:756-762 | the handler address is what bytes 0, 1, 6 and 7 of the descriptor spell |
| Hooks.IdtGate.IsLiveGate | nt351sse.c:718-775 | a ring-0 code gate is byte for byte what `findidt.py` decodes as a live gate to the same handler |
| Hooks.HookState.PrologueBytes | nt351sse.c:799-810 | what has to match: all 54 bytes at the live handler and at ours |
| Hooks.HookState.EntryBytes | nt351sse.c:840-862 | what has to match: 0a c9 9c 8b 0b at 8013cd90 |
| Hooks.HookState.InstallNmHook | nt351sse.c:786-816 | the gate is repointed iff all 54 prologue bytes match; otherwise matched is the first difference and nothing changed |
| Hooks.HookState.RemoveNmHook | nt351sse.c:818-828 | the gate points 54 bytes before the resume address again, if it was hooked |
| Hooks.HookState.InstallSwapHook | nt351sse.c:848-895 | all or nothing: refused with the first unexpected byte or for want of memory, else memory is the patched one, with both jumps in place |
| Hooks.HookState.RemoveSwapHook | nt351sse.c:897-919 | original bytes back, trampoline freed |
| Lifecycle.Driver.SelfTest | nt351sse.c:1144-1158 | the load-time self-test leaves the layer exactly as it was |
| Lifecycle.Driver.DriverEntry | nt351sse.c:1071-1264 | each refusal with its exact reason over arguments and memory, what the allocator refused apart; success needs both byte comparisons to hold and, if the allocator refuses nothing, follows from them; a refused load leaves gate, code and CR4 alone, and if it has to back out of the detour leaks iff a #NM was serviced before, unless buffers or image could not be allocated; a successful one has both hooks in, OSFXSR set, MXCSR at the default, 64 save areas exactly if the allocator refused nothing and at least one in any case, and, without such a #NM, the state the run theorems start from; with some, the owner is that of the last, and is the current thread's exactly if that was the current thread or got no area |
| Lifecycle.Driver.DriverUnload | nt351sse.c:1023-1069 | every allocation freed once, gate and bytes restored, OSFXSR cleared if the driver had set it |
| Lifecycle.Driver.LoadRunUnload | nt351sse.c:1023-1264 | a load with any #NM traps between the hook installations, any schedule, an unload: gate and all bytes of the kernel image as before, and no allocation left but in the one leaking refusal; CR0, x87 and scheduling as without the driver |
| ControlRegs.Cr4RestoredIff | nt351sse.c:930-977 | a load and unload give CR4 back iff OSFXSR was clear before, and differ in no other bit |
| ControlRegs.OsfxsrIsBit9 | nt351sse.c:74-76 | setting and clearing OSFXSR changes bit 9 and no other, OSXMMEXCPT included |
| ControlRegs.Unlocked | nt351sse.c:546-555 | inside the hooks TS, EM and MP are clear and every other bit of CR0 is as it was |
| ControlRegs.TsIsBit3 | nt351sse.c:546-551 | TS is bit 3 of CR0, EM bit 2 |
| FindIdt.ExecutableIff | scripts/findidt.py:106-112 | a section is executable iff bit 29 of its characteristics is set |
| FindIdt.InCodeIff | scripts/findidt.py:106-116 | an address lies in code iff some executable section with raw data loads there, over its virtual or raw size, whichever is larger |
| FindIdt.DecodesIff | scripts/findidt.py:119-140 | eight bytes decode to (handler, access) iff they are its template or its live encoding, the access is allowed and the handler lies in code |
| FindIdt.ReadingsAgree | scripts/findidt.py:119-140 | where both readings match they give the same record, so the order of trying them does not matter |
| FindIdt.EmptyIff | scripts/findidt.py:119-140 | and to the empty record iff they are the zero template |
| FindIdt.RecordsByIndex | scripts/findidt.py:159-165 | record k of a run is what decodes 8 * k bytes on, and behind the last nothing decodes |
| FindIdt.EntriesAtIff | scripts/findidt.py:159-168 | the entries at an offset are those of the one whole run there, up to its last record that is not empty |
| FindIdt.QualifiesIff | scripts/findidt.py:155-170 | an offset qualifies iff the whole run there starts with a gate and is long enough |
| FindIdt.ScanIsReport | scripts/findidt.py:152-178 | the scan of a section is sound, disjoint and complete: no offset outside the reported runs starts a run that qualifies after trimming |
| FindIdt.ReportIsUnique | scripts/findidt.py:152-178 | those three properties determine the answer |
| FindIdt.ScanSection | scripts/findidt.py:152-178 | the loops of one section terminate and compute that scan |
| FindIdt.CollectEntries | scripts/findidt.py:159-168 | the inner loops collect the maximal run of records and drop its trailing empty ones |
| FindIdt.FindIdt | scripts/findidt.py:143-180 | find_idt returns the located runs of all sections with raw data, in order |
| FindIdt.FoundIff | scripts/findidt.py:143-180 | a run is reported iff it belongs to the scan of some section, with its file offset and RVA |
| FindIdt.FoundEntries | scripts/findidt.py:143-180 | entry k of a reported run is what the file holds 8 * k bytes behind the reported offset, in the raw data of the named section, at the RVA where that is loaded |
| FindIdt.NothingMissed | scripts/findidt.py:143-180 | a long enough run of any section begins inside some reported run of that section |
| Stamp.ComputeChecksum | scripts/stamp351.py:18-37 | the folding loop computes the representative of the unfolded word sum modulo 65535, plus the length, modulo 2^32 |
| Stamp.SumIsByteSum | scripts/stamp351.py:27-32 | that word sum counts every byte once or 256 times by its position, but for the four of a field on an even offset |
| Stamp.ChecksumIsOfBytes | scripts/stamp351.py:18-37 | so the checksum is the representative of that byte sum, plus the length |
| Stamp.RepIsRepresentative | scripts/stamp351.py:33-36 | that representative is at most 0xffff, 0 only for the sum 0, and congruent to it |
| Stamp.Stamp | scripts/stamp351.py:40-78 | every refusal in the order of the checks, else the stamped file |
| Stamp.AcceptedIff | scripts/stamp351.py:44-71 | a file is accepted iff it has the MZ and PE signatures, the PE32 magic and room for the fields, and the versions fit a word |
| Stamp.RefusedAs | scripts/stamp351.py:44-54 | which refusal any other file gets, by the first thing it lacks |
| Stamp.StampFields | scripts/stamp351.py:65-71 | only the twelve version bytes and the four checksum bytes change, and they read back as written |
| Stamp.StoredChecksum | scripts/stamp351.py:68-71 | on any offset, the stored value is that of all bytes with the new versions and a zeroed field |
| Stamp.LastStampWins | scripts/stamp351.py:65-71 | a second stamp leaves no trace of the first; equal versions give idempotence |
| Stamp.StampVerifiesIff | scripts/stamp351.py:28-30 | the stored checksum verifies over the stamped file iff the header offset is even or the checksum is a multiple of 65535 |
| Stamp.OddOffsetFails | scripts/stamp351.py:28-30 | a file that stamp accepts, with its header on an odd offset, whose stored checksum does not verify |

## Left out

- The 54 prologue bytes and their register saves, the kernel's own #NM handler and SwapContext: the first are compared as opaque bytes; the last two are environment, "TS is cleared" and "another thread becomes current with some CR0".
- Spinlocks, IRQL and multiprocessors: hooks and locked routines are atomic, as on the one processor the driver supports.
- Clearing the table and list at load (`nt351sse.c:1115-1121`) is the precondition `Unloaded()` of `DriverEntry`.
- Lifecycle.Driver.DriverEntry: of a #NM serviced between the two hook installations only the effect on table, free list, owner and trap counter is modelled, because OSFXSR is still clear then and what FXSAVE stores depends on the processor; after such a load nothing is claimed of register contents, only that the data layer stays intact and unloading restores everything.
- The LDMXCSR of `EnableSseThisCpu` is a plain write: that it could itself raise #NM with TS set is not modelled.
- FXRSTOR faults on reserved MXCSR bits, 16-byte alignment faults: the areas only hold values FXSAVE stored.
- Registry, CPUID and EFLAGS probing, event-log packets, `DbgPrint`: their results are inputs of `DriverEntry`.
- The allocator is any that returns NULL or a block nobody holds, outside the kernel image; contents and overlap of pool blocks are modelled by separate arrays.
- Thread exit and reuse of KTHREAD addresses: no teardown path exists, so no schedule event calls `TableRelease`.
- `load` in `findidt.py` (PE section headers), its printing and `dump_handler`; file reading and writing in `stamp351.py`.
- `ntver.c`, `ssetest.c`, `checkimports.py`, `nmsig.py`, the Ghidra scripts, batch and registry files: version and event logging, a program that exercises SSE from user mode, checks of import tables and of prologue bytes over PE files, disassembly helpers, build and install steps.
