/**
 NmHandler and SwapDetour as they run: byte copies through the shared scratch image, with the
 owner pointer, CR0 and the save areas updated in place. Each is proved equal to its step in
 TrapCore, for which the run-level guarantees hold.
 */
module Traps {
  import opened Bytes
  import opened ControlRegs
  import opened FxImage
  import opened Schedule
  import opened ThreadTable
  import opened SaveAreas
  import opened TrapCore

  class Cpu {
    var cr0: bv32
    var cr4: bv32
    var current: Thread
    var fp: Fp
    var sse: Sse
    const mask: MxcsrMask

    constructor (cr0: bv32, cr4: bv32, current: Thread, fp: Fp, sse: Sse, mask: MxcsrMask)
      ensures this.cr0 == cr0 && this.cr4 == cr4 && this.current == current
      ensures this.fp == fp && this.sse == sse && this.mask == mask
    {
      this.cr0, this.cr4, this.current, this.fp, this.sse, this.mask := cr0, cr4, current, fp, sse, mask;
    }

    method FxSave(a: array<byte>)
      requires a.Length == 512 && FpuUsable(cr0)
      modifies a
      ensures a[..] == Blit(old(a[..]), 0, FxSaveBytes(fp, sse, mask))
    {
      var b := FxSaveBytes(fp, sse, mask);
      forall i | 0 <= i < 288 {
        a[i] := b[i];
      }
      assert a[..288] == b && a[288..] == old(a[..])[288..];
      assert a[..] == a[..288] + a[288..];
    }

    method FxRstor(a: array<byte>)
      requires a.Length == 512 && FpuUsable(cr0)
      modifies this`fp, this`sse
      ensures fp == ImageOf(a[..]).fp && sse == ImageOf(a[..]).sse
    {
      fp, sse := ImageOf(a[..]).fp, ImageOf(a[..]).sse;
    }
  }

  /** A dword load and store. */
  method MoveDword(src: array<byte>, from: nat, dst: array<byte>, to: nat)
    requires from + 4 <= src.Length && to + 4 <= dst.Length && src != dst
    modifies dst
    ensures dst[..] == Blit(old(dst[..]), to, src[from..from + 4])
  {
    dst[to], dst[to + 1], dst[to + 2], dst[to + 3] := src[from], src[from + 1], src[from + 2], src[from + 3];
    assert dst[to..to + 4] == src[from..from + 4];
    assert dst[..to] == old(dst[..])[..to] && dst[to + 4..] == old(dst[..])[to + 4..];
    assert dst[..] == dst[..to] + dst[to..to + 4] + dst[to + 4..];
  }

  /** rep movsb with the direction flag clear. */
  method RepMovsb(src: array<byte>, from: nat, dst: array<byte>, to: nat, count: nat)
    requires from + count <= src.Length && to + count <= dst.Length && src != dst
    modifies dst
    ensures dst[..] == Blit(old(dst[..]), to, src[from..from + count])
  {
    for i := 0 to count
      invariant dst[to..to + i] == src[from..from + i]
      invariant dst[..to] == old(dst[..])[..to] && dst[to + count..] == old(dst[..])[to + count..]
    {
      dst[to + i] := src[from + i];
      assert dst[to..to + i + 1] == dst[to..to + i] + [dst[to + i]];
    }
    assert dst[..] == dst[..to] + dst[to..to + count] + dst[to + count..];
  }

  /** rep stosb with al = 0. */
  method RepStosbZero(dst: array<byte>, to: nat, count: nat)
    requires to + count <= dst.Length
    modifies dst
    ensures dst[..] == Blit(old(dst[..]), to, Zeros(count))
  {
    for i := 0 to count
      invariant dst[to..to + i] == Zeros(i)
      invariant dst[..to] == old(dst[..])[..to] && dst[to + count..] == old(dst[..])[to + count..]
    {
      dst[to + i] := 0;
      assert dst[to..to + i + 1] == dst[to..to + i] + [dst[to + i]];
    }
    assert dst[..] == dst[..to] + dst[to..to + count] + dst[to + count..];
  }

  /** The image's MXCSR and XMM go to a save area. */
  method CopyOut(image: array<byte>, area: array<byte>)
    requires image.Length == area.Length == 512 && image != area
    modifies area
    ensures AreaOf(area[..]) == AreaOf(old(area[..])).(sse := ImageOf(image[..]).sse)
  {
    AreaWrites(area[..], image[FXI_MXCSR..FXI_MXCSR + 4], image[FXI_XMM..FXI_XMM + XMM_BYTES]);
    MoveDword(image, FXI_MXCSR, area, SAVE_MXCSR);
    RepMovsb(image, FXI_XMM, area, SAVE_XMM, XMM_BYTES);
    assert image[..][FXI_MXCSR..FXI_MXCSR + 4] == image[FXI_MXCSR..FXI_MXCSR + 4];
    assert image[..][FXI_XMM..FXI_XMM + XMM_BYTES] == image[FXI_XMM..FXI_XMM + XMM_BYTES];
  }

  /** A save area's MXCSR and XMM go into the image. */
  method CopyIn(image: array<byte>, area: array<byte>)
    requires image.Length == area.Length == 512 && image != area
    modifies image
    ensures ImageOf(image[..]) == ImageOf(old(image[..])).(sse := AreaOf(area[..]).sse)
  {
    ImageWrites(image[..], area[SAVE_MXCSR..SAVE_MXCSR + 4], area[SAVE_XMM..SAVE_XMM + XMM_BYTES]);
    MoveDword(area, SAVE_MXCSR, image, FXI_MXCSR);
    RepMovsb(area, SAVE_XMM, image, FXI_XMM, XMM_BYTES);
    assert area[..][SAVE_MXCSR..SAVE_MXCSR + 4] == area[SAVE_MXCSR..SAVE_MXCSR + 4];
    assert area[..][SAVE_XMM..SAVE_XMM + XMM_BYTES] == area[SAVE_XMM..SAVE_XMM + XMM_BYTES];
  }

  method CopyDefaults(image: array<byte>)
    requires image.Length == 512
    modifies image
    ensures ImageOf(image[..]) == ImageOf(old(image[..])).(sse := CLEAN)
  {
    ImageWrites(image[..], Bytes32(DEFAULT_MXCSR), Zeros(XMM_BYTES));
    StoreDword(image, FXI_MXCSR, DEFAULT_MXCSR);
    RepStosbZero(image, FXI_XMM, XMM_BYTES);
  }

  /** What an array of 512 bytes holds, read as an FXSAVE image. */
  ghost function ImageIn(a: array<byte>): Image
    reads a
    requires a.Length == 512
  {
    ImageOf(a[..])
  }

  ghost function SavesOf(pool: set<SseBuffer>): (saves: set<object>)
    ensures forall b <- pool :: b.save in saves
  {
    set b <- pool :: b.save
  }

  /** What the save areas of pool hold. */
  ghost function AreasIn(pool: set<SseBuffer>): (areas: map<SseBuffer, Area>)
    reads SavesOf(pool)
    requires DistinctSaves(pool)
    ensures areas.Keys == pool
  {
    map b | b in pool :: AreaOf(b.save[..])
  }

  /** Stands for the contents of a scratch image that has not been allocated. */
  const NO_IMAGE: Image := Image(FpRegs(Zeros(24), Zeros(128)), CLEAN, Zeros(4), [])

  /** The trap-context globals, with the processor and the data layer they work on. */
  class TrapState {
    const cpu: Cpu
    const data: SaveAreas
    var fxImage: array?<byte>
    var fxOwner: array?<byte>               // a save area, or NULL
    ghost var holder: Option<SseBuffer>     // the buffer whose save area fxOwner is
    var nmCount: u32
    var swapFlushes: u32

    constructor (cpu: Cpu, data: SaveAreas)
      ensures this.cpu == cpu && this.data == data
      ensures fxImage == null && fxOwner == null && holder == None && nmCount == 0 && swapFlushes == 0
    {
      this.cpu, this.data := cpu, data;
      fxImage, fxOwner, holder, nmCount, swapFlushes := null, null, None, 0, 0;
    }

    /** Who may alias whom. */
    ghost predicate Shape()
      reads this, data, data.table, data.pool
    {
      && data.Linked() && data.table.Length == MAX_THREADS
      && DistinctSaves(data.pool)
      && {this, cpu, data, data.table} !! SavesOf(data.pool)
      && (fxImage != null ==> fxImage.Length == 512 && fxImage !in SavesOf(data.pool) + {this, cpu, data, data.table})
      && (fxOwner == if holder.Some? then holder.value.save else null)
      && (holder.Some? ==> holder.value in data.pool)
    }

    /** The shared state as one value. */
    ghost function View(): Core<SseBuffer>
      reads this, cpu, data, data.table, data.pool, SavesOf(data.pool), fxImage
      requires Shape()
    {
      Core(data.Contents(), AreasIn(data.pool), holder, if fxImage == null then NO_IMAGE else ImageIn(fxImage),
           Stock(cpu.current, cpu.cr0, cpu.fp), cpu.sse, cpu.mask, nmCount, swapFlushes)
    }

    function ReadCr0(): (value: bv32)
      reads this, cpu, data, data.table, data.pool, SavesOf(data.pool), fxImage
      requires Shape()
      ensures value == View().stock.cr0
    {
      cpu.cr0
    }

    function ReadStock(): (stock: Stock)
      reads this, cpu, data, data.table, data.pool, SavesOf(data.pool), fxImage
      requires Shape()
      ensures stock == View().stock
    {
      Stock(cpu.current, cpu.cr0, cpu.fp)
    }

    function ReadSse(): (sse: Sse)
      reads this, cpu, data, data.table, data.pool, SavesOf(data.pool), fxImage
      requires Shape()
      ensures sse == View().sse
    {
      cpu.sse
    }

    /** mov cr0 */
    method WriteCr0(value: bv32)
      requires Shape()
      modifies cpu`cr0
      ensures Shape()
      ensures var was := old(View()); View() == was.(stock := was.stock.(cr0 := value))
    {
      hide AreasIn, ImageIn, SavesOf, DistinctSaves;
      cpu.cr0 := value;
    }

    method CountTrap()
      requires Shape()
      modifies this`nmCount
      ensures Shape()
      ensures var was := old(View()); View() == was.(nmCount := Inc(was.nmCount))
    {
      hide AreasIn, ImageIn, SavesOf, DistinctSaves;
      nmCount := Inc(nmCount);
    }

    /** FXSAVE into the scratch image. */
    method TakeSnapshot()
      requires Shape() && fxImage != null && FpuUsable(View().stock.cr0)
      modifies fxImage
      ensures Shape()
      ensures var was := old(View()); View() == was.(image := Snapshot(was))
    {
      FxSaveFields(fxImage[..], cpu.fp, cpu.sse, cpu.mask);
      cpu.FxSave(fxImage);
    }

    /** If somebody owns the live state, copy it out of the image to them. */
    method FlushOwner()
      requires Shape() && fxImage != null
      modifies fxOwner
      ensures Shape() && old(Flushable(View()))
      ensures var was := old(View());
              View() == was.(areas := if was.owner.None? then was.areas
                                      else var b := was.owner.value;
                                           was.areas[b := was.areas[b].(sse := was.image.sse)])
    {
      hide AreaOf, ImageOf;
      if fxOwner != null {
        CopyOut(fxImage, fxOwner);
      }
    }

    /** Both, in the handlers' order: the owner's copy of the live state is brought up to date. */
    method SnapshotAndFlush()
      requires Shape() && fxImage != null && FpuUsable(View().stock.cr0)
      modifies fxImage, fxOwner
      ensures Shape() && old(Flushable(View()))
      ensures var was := old(View()); View() == was.(areas := FlushedAreas(was), image := Snapshot(was))
    {
      hide Shape, View;
      TakeSnapshot();
      FlushOwner();
    }

    /** Find or assign the current thread's area; it owns the registers from here on. */
    method ClaimArea()
      requires Shape() && fxImage != null
      requires var found := LookupOrAssign(View().layer, View().stock.current).1;
               found.Some? ==> found.value in View().areas
      modifies this`fxOwner, this`holder, data`freeHead, data`free, data.table
      ensures Shape() && old(|View().layer.table| == MAX_THREADS)
      ensures var (layer, found) := old(LookupOrAssign(View().layer, View().stock.current));
              View() == old(View()).(layer := layer, owner := found)
    {
      hide AreasIn, ImageIn, DistinctSaves;
      fxOwner, holder := data.TrapLookupSaveArea(cpu.current);
    }

    /** Complete the image from the owner's area or from the defaults, and FXRSTOR it. */
    method LoadImage()
      requires Shape() && fxImage != null && FpuUsable(View().stock.cr0)
      modifies cpu`fp, cpu`sse, fxImage
      ensures Shape() && old(Flushable(View()))
      ensures var was := old(View());
              var image := was.image.(sse := if was.owner.Some? then was.areas[was.owner.value].sse else CLEAN);
              View() == was.(image := image, sse := image.sse, stock := was.stock.(fp := image.fp))
    {
      hide ImageOf, AreaOf;
      if fxOwner != null {
        CopyIn(fxImage, fxOwner);
      } else {
        CopyDefaults(fxImage);
      }
      cpu.FxRstor(fxImage);
    }

    /** The instructions of NmHandler between its two writes of CR0, once there is a scratch image. */
    method ServiceNm()
      requires Shape() && fxImage != null && Tracked(View()) && FpuUsable(View().stock.cr0)
      modifies this`fxOwner, this`holder, cpu`fp, cpu`sse, data`freeHead, data`free, data.table, fxOwner, fxImage
      ensures Shape()
      ensures var was := old(View()); View() == NmStep(was).(nmCount := was.nmCount)
    {
      hide Shape, View;
      SnapshotAndFlush();
      ClaimArea();
      LoadImage();
    }

    /** The #NM handler, between the duplicated prologue and the jump into the kernel's own handler. */
    method NmHandler()
      requires Shape() && (fxImage != null ==> Tracked(View()))
      modifies this`fxOwner, this`holder, this`nmCount, cpu`cr0, cpu`fp, cpu`sse,
               data`freeHead, data`free, data.table, fxOwner, fxImage
      ensures Shape()
      ensures var was := old(View());
              View() == if fxImage == null then was.(nmCount := Inc(was.nmCount)) else NmStep(was)
    {
      hide Shape, View, NmStep, Tracked;
      var ebp := ReadCr0();
      WriteCr0(Unlocked(ebp));
      CountTrap();
      if fxImage != null {
        NmIgnoresCr0(old(View()), Unlocked(ebp), View().nmCount);
        ServiceNm();
      }
      WriteCr0(ebp);
    }

    method Disown()
      requires Shape()
      modifies this`fxOwner, this`holder, this`swapFlushes
      ensures Shape()
      ensures var was := old(View()); View() == was.(owner := None, swapFlushes := Inc(was.swapFlushes))
    {
      hide AreasIn, ImageIn, SavesOf, DistinctSaves;
      fxOwner, holder := null, None;
      swapFlushes := Inc(swapFlushes);
    }

    /** The SwapContext detour, up to the jump to the trampoline. */
    method SwapDetour()
      requires Shape() && (fxImage != null ==> Tracked(View()))
      modifies this`fxOwner, this`holder, this`swapFlushes, cpu`cr0, fxOwner, fxImage
      ensures Shape()
      ensures View() == if fxImage == null then old(View()) else SwapStep(old(View()))
    {
      hide Spine, ImageIn, AreasIn, DistinctSaves;
      if fxImage == null || fxOwner == null {
        return;
      }
      var ebx := ReadCr0();
      WriteCr0(Unlocked(ebx));
      SnapshotAndFlush();
      Disown();
      WriteCr0(ebx);
    }

    /** What the rest of the machine does to the registers. */
    method SetRegisters(stock: Stock, sse: Sse)
      requires Shape()
      modifies cpu`current, cpu`cr0, cpu`fp, cpu`sse
      ensures Shape()
      ensures var was := old(View()); View() == was.(stock := stock, sse := sse)
    {
      hide AreasIn, ImageIn, SavesOf, DistinctSaves;
      cpu.current, cpu.cr0, cpu.fp, cpu.sse := stock.current, stock.cr0, stock.fp, sse;
    }

    /** There is an image, and the data layer is intact: the hooks can run. */
    ghost predicate Running()
      reads this, cpu, data, data.table, data.pool, SavesOf(data.pool), fxImage
    {
      Shape() && fxImage != null && Sound(View())
    }

    /** An FP or SSE instruction is about to execute: with TS set the processor goes through NmHandler. */
    method Trap()
      requires Running()
      modifies this`fxOwner, this`holder, this`nmCount, cpu`cr0, cpu`fp, cpu`sse,
               data`freeHead, data`free, data.table, fxOwner, fxImage
      ensures Running() && View() == Ready(old(View()))
    {
      hide Shape, View, Sound, NmStep, SwapStep, Tracked;
      HooksKeepSound(View());
      if TsSet(ReadCr0()) {
        NmHandler();
      }
    }

    /** One event of a schedule, with the hooks where the machine calls them. */
    method ExecuteOne(e: Event)
      requires Running()
      modifies this`fxOwner, this`holder, this`nmCount, this`swapFlushes, cpu`current, cpu`cr0, cpu`fp, cpu`sse,
               data`freeHead, data`free, data.table, fxOwner, fxImage
      ensures Running() && View() == Step(old(View()), e)
    {
      hide Shape, View, Sound, NmStep, SwapStep, Tracked;
      ghost var was := View();
      StepKeepsInv(was, e);
      match e {
        case SseInstr(left) =>
          Trap();
          SetRegisters(ReadStock().(cr0 := NmServiced(ReadCr0())), left);
        case FpInstr(fp) =>
          Trap();
          SetRegisters(ReadStock().(cr0 := NmServiced(ReadCr0()), fp := fp), ReadSse());
        case Kernel(cr0, fp) =>
          SetRegisters(ReadStock().(cr0 := cr0, fp := fp), ReadSse());
        case Switch(next, cr0) =>
          HooksKeepSound(was);
          SwapDetour();
          SetRegisters(ReadStock().(current := next, cr0 := cr0), ReadSse());
      }
    }

    /** Any schedule: the heap goes through the run of TrapCore, so its guarantees are guarantees about these bytes. */
    method Execute(es: seq<Event>)
      requires Running()
      modifies this`fxOwner, this`holder, this`nmCount, this`swapFlushes, cpu`current, cpu`cr0, cpu`fp, cpu`sse,
               data`freeHead, data`free, data.table, SavesOf(data.pool), fxImage
      ensures Running() && View() == Run(old(View()), es)
    {
      ghost var was := View();
      for i := 0 to |es|
        invariant Running() && View() == Run(was, es[..i])
      {
        ExecuteOne(es[i]);
        assert Init(es[..i + 1]) == es[..i];
      }
      assert es[..|es|] == es;
    }
  }
}
