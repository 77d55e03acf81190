/**
 What happens on the machine between two hook calls, and the histories the
 guarantees are stated against. Everything here is independent of the driver.
 */
module Schedule {
  import opened Bytes
  import opened ControlRegs
  import opened FxImage

  /** A KTHREAD address; KeGetCurrentThread never returns NULL. */
  type Thread = t: u32 | t != 0 witness 16

  datatype Event =
    | SseInstr(left: Sse)                  // the current thread executes SSE code and leaves these registers
    | FpInstr(fp: Fp)                      // the current thread executes x87 code; fp is what it leaves
    | Kernel(cr0: bv32, fp: Fp)            // the kernel rewrites CR0 and the x87 registers
    | Switch(next: Thread, cr0: bv32)      // SwapContext; the kernel chooses CR0

  /** The machine without the driver: on #NM the kernel's handler clears TS. */
  datatype Stock = Stock(current: Thread, cr0: bv32, fp: Fp)

  function StockStep(k: Stock, e: Event): Stock {
    match e
    case SseInstr(_) => k.(cr0 := NmServiced(k.cr0))
    case FpInstr(fp) => k.(cr0 := NmServiced(k.cr0), fp := fp)
    case Kernel(cr0, fp) => k.(cr0 := cr0, fp := fp)
    case Switch(next, cr0) => k.(current := next, cr0 := cr0)
  }

  /** Once an SSE or x87 instruction has executed, TS is clear, so the next takes no #NM unless TS is set again. */
  lemma InstructionsRunClear(k: Stock, e: Event)
    requires e.SseInstr? || e.FpInstr?
    ensures var k' := StockStep(k, e);
            !TsSet(k'.cr0) && k'.cr0 | 0x8 == k.cr0 | 0x8 && k'.current == k.current
  {
    NmServicedClearsTs(k.cr0);
  }

  function Init(es: seq<Event>): seq<Event>
    requires es != []
  {
    es[..|es| - 1]
  }

  function Last(es: seq<Event>): Event
    requires es != []
  {
    es[|es| - 1]
  }

  function StockRun(k: Stock, es: seq<Event>): Stock {
    if es == [] then k else StockStep(StockRun(k, Init(es)), Last(es))
  }

  /** The MXCSR and XMM0-7 that t left at its latest SSE instruction; clean defaults before its first. */
  function LastLeft(k: Stock, es: seq<Event>, t: Thread): Sse {
    if es == [] then CLEAN
    else if Last(es).SseInstr? && StockRun(k, Init(es)).current == t then Last(es).left
    else LastLeft(k, Init(es), t)
  }

  /** Every register state that t has had of its own, the defaults included. */
  function Own(k: Stock, es: seq<Event>, t: Thread): set<Sse> {
    if es == [] then {CLEAN}
    else if Last(es).SseInstr? && StockRun(k, Init(es)).current == t then Own(k, Init(es), t) + {Last(es).left}
    else Own(k, Init(es), t)
  }

  /** Executing e raises #NM. */
  predicate Traps(k: Stock, e: Event) {
    (e.SseInstr? || e.FpInstr?) && TsSet(k.cr0)
  }

  /** The current thread has taken a #NM since it was switched in. */
  predicate TrappedSlice(k: Stock, es: seq<Event>) {
    es != [] && !Last(es).Switch? && (TrappedSlice(k, Init(es)) || Traps(StockRun(k, Init(es)), Last(es)))
  }

  /** The thread that took the latest #NM: the kernel's x87 owner. */
  function LastTrapper(k: Stock, es: seq<Event>): Option<Thread> {
    if es == [] then None
    else if Traps(StockRun(k, Init(es)), Last(es)) then Some(StockRun(k, Init(es)).current)
    else LastTrapper(k, Init(es))
  }

  /** The threads that have taken a #NM, in the order of their first. */
  function Trappers(k: Stock, es: seq<Event>): seq<Thread> {
    if es == [] then []
    else
      var before, me := Trappers(k, Init(es)), StockRun(k, Init(es)).current;
      if Traps(StockRun(k, Init(es)), Last(es)) && me !in before then before + [me] else before
  }

  /** How often #NM was raised. */
  function TrapCount(k: Stock, es: seq<Event>): nat {
    if es == [] then 0
    else TrapCount(k, Init(es)) + if Traps(StockRun(k, Init(es)), Last(es)) then 1 else 0
  }

  /** An SSE instruction executed now has a #NM before it in its slice, its own included. */
  predicate Guarded(k: Stock, es: seq<Event>) {
    TsSet(StockRun(k, es).cr0) || TrappedSlice(k, es)
  }

  /** The registers that t left at its latest guarded SSE instruction; clean defaults before its first. */
  function LastGuarded(k: Stock, es: seq<Event>, t: Thread): Sse {
    if es == [] then CLEAN
    else if Last(es).SseInstr? && StockRun(k, Init(es)).current == t && Guarded(k, Init(es)) then Last(es).left
    else LastGuarded(k, Init(es), t)
  }

  /** t executes no SSE instruction in a slice in which it has not taken a #NM first. */
  predicate TrapsFirst(k: Stock, es: seq<Event>, t: Thread) {
    es == [] ||
    (TrapsFirst(k, Init(es), t) &&
     (Last(es).SseInstr? && StockRun(k, Init(es)).current == t ==> Guarded(k, Init(es))))
  }

  /** What the current thread has left since the latest #NM of this slice; clean defaults if nothing. */
  function LeftSinceTrap(k: Stock, es: seq<Event>): Sse {
    if es == [] then CLEAN
    else
      match Last(es)
      case SseInstr(left) => left
      case FpInstr(_) => if Traps(StockRun(k, Init(es)), Last(es)) then CLEAN else LeftSinceTrap(k, Init(es))
      case Kernel(_, _) => LeftSinceTrap(k, Init(es))
      case Switch(_, _) => CLEAN
  }

  /** t executes no SSE instruction while mid follows es. */
  predicate NoSseBy(k: Stock, es: seq<Event>, mid: seq<Event>, t: Thread) {
    mid == [] ||
    (NoSseBy(k, es, Init(mid), t) && (Last(mid).SseInstr? ==> StockRun(k, es + Init(mid)).current != t))
  }

  /** With so many save areas, t has one or gets one at its next #NM. */
  predicate Entitled(k: Stock, areas: nat, es: seq<Event>, t: Thread) {
    var trappers := Trappers(k, es);
    |trappers| < areas || t in trappers[..areas]
  }

  /** How often a thread with one of so many save areas was switched out of a slice in which it took a #NM. */
  function FlushCount(k: Stock, areas: nat, es: seq<Event>): nat {
    if es == [] then 0
    else
      var flushed := Last(es).Switch? && TrappedSlice(k, Init(es))
                     && Entitled(k, areas, Init(es), StockRun(k, Init(es)).current);
      FlushCount(k, areas, Init(es)) + if flushed then 1 else 0
  }

  /** What is in MXCSR and XMM0-7 after es, in terms of the history: live before it, areas save areas. */
  function Resident(k: Stock, live: Sse, areas: nat, es: seq<Event>): Sse
    decreases |es|, 0
  {
    if es == [] then live
    else
      match Last(es)
      case SseInstr(left) => left
      case FpInstr(_) => Finds(k, live, areas, Init(es))
      case Kernel(_, _) => Resident(k, live, areas, Init(es))
      case Switch(_, _) => Resident(k, live, areas, Init(es))
  }

  /** What the next instruction finds there: if it takes a #NM, what its thread last left under guard. */
  function Finds(k: Stock, live: Sse, areas: nat, es: seq<Event>): Sse
    decreases |es|, 1
  {
    var now := StockRun(k, es);
    if !TsSet(now.cr0) then Resident(k, live, areas, es)
    else if Entitled(k, areas, es, now.current) then LastGuarded(k, es, now.current)
    else CLEAN
  }

  /** The current thread leaves w; then mid happens, in which it executes no SSE; then it runs again. */
  predicate ComesBack(k: Stock, es: seq<Event>, w: Sse, mid: seq<Event>) {
    var t := StockRun(k, es).current;
    NoSseBy(k, es + [SseInstr(w)], mid, t) && StockRun(k, es + [SseInstr(w)] + mid).current == t
  }

  /** No hook is called: nobody is switched out, and nobody takes a #NM. */
  predicate HookFree(k: Stock, es: seq<Event>) {
    es == [] || (HookFree(k, Init(es)) && !Last(es).Switch? && !Traps(StockRun(k, Init(es)), Last(es)))
  }

  /** The kernel sets TS at every switch and never clears it except by servicing a #NM. */
  predicate SwitchesSetTs(k: Stock, es: seq<Event>) {
    if es == [] then TsSet(k.cr0)
    else
      SwitchesSetTs(k, Init(es)) &&
      match Last(es)
      case Switch(_, cr0) => TsSet(cr0)
      case Kernel(cr0, _) => TsSet(StockRun(k, Init(es)).cr0) ==> TsSet(cr0)
      case _ => true
  }

  /** Only the thread that took the latest #NM ever runs with TS clear. */
  predicate OnlyTrapperRunsClear(k: Stock, es: seq<Event>) {
    (es == [] || OnlyTrapperRunsClear(k, Init(es))) &&
    (!TsSet(StockRun(k, es).cr0) ==> LastTrapper(k, es) == Some(StockRun(k, es).current))
  }

  /** Setting TS at every switch makes every slice that uses SSE trap before it does. */
  lemma {:induction false} SwitchesSetTsTrapsFirst(k: Stock, es: seq<Event>, t: Thread)
    requires SwitchesSetTs(k, es)
    ensures TrapsFirst(k, es, t) && Guarded(k, es)
  {
    if es != [] {
      SwitchesSetTsTrapsFirst(k, Init(es), t);
    }
  }

  lemma {:induction false} TrapsFirstLeavesGuarded(k: Stock, es: seq<Event>, t: Thread)
    requires TrapsFirst(k, es, t)
    ensures LastGuarded(k, es, t) == LastLeft(k, es, t)
  {
    if es != [] {
      TrapsFirstLeavesGuarded(k, Init(es), t);
    }
  }

  /** A thread that has not taken a #NM has left nothing under guard. */
  lemma {:induction false} NewcomerIsClean(k: Stock, es: seq<Event>, t: Thread)
    requires t !in Trappers(k, es)
    ensures LastGuarded(k, es, t) == CLEAN
    ensures TrappedSlice(k, es) ==> StockRun(k, es).current != t
  {
    if es != [] {
      NewcomerIsClean(k, Init(es), t);
    }
  }

  lemma {:induction false} NoSseKeepsGuarded(k: Stock, es: seq<Event>, mid: seq<Event>, t: Thread)
    requires NoSseBy(k, es, mid, t)
    ensures LastGuarded(k, es + mid, t) == LastGuarded(k, es, t)
  {
    if mid == [] {
      assert es + mid == es;
    } else {
      assert Init(es + mid) == es + Init(mid);
      NoSseKeepsGuarded(k, es, Init(mid), t);
    }
  }

  /** A thread that runs with TS clear under the trapper policy has trapped; the policy is weaker than SwitchesSetTs. */
  lemma {:induction false} SwitchesSetTsIsTrapperPolicy(k: Stock, es: seq<Event>)
    requires SwitchesSetTs(k, es)
    ensures OnlyTrapperRunsClear(k, es)
    ensures TrappedSlice(k, es) ==> LastTrapper(k, es) == Some(StockRun(k, es).current)
  {
    SwitchesSetTsTrapsFirst(k, es, StockRun(k, es).current);
    if es != [] {
      SwitchesSetTsIsTrapperPolicy(k, Init(es));
    }
  }

  lemma {:induction false} LastLeftIsOwn(k: Stock, es: seq<Event>, t: Thread)
    ensures LastLeft(k, es, t) in Own(k, es, t) && CLEAN in Own(k, es, t)
  {
    if es != [] {
      LastLeftIsOwn(k, Init(es), t);
    }
  }
}
