/**
 The two hooks at byte level, as functions on the whole state they share: table, free list,
 save areas, scratch image, owner, registers. Each refines a step of LazySse, so every
 statement about LazySse's runs holds of these bytes.
 */
module TrapCore {
  import opened Bytes
  import opened ControlRegs
  import opened FxImage
  import opened Schedule
  import opened ThreadTable
  import LazySse

  datatype Core<B> = Core(
    layer: Layer<B>,
    areas: map<B, Area>,      // every built save area
    owner: Option<B>,          // g_FxOwner
    image: Image,              // g_FxImage
    stock: Stock,              // current thread, CR0, x87
    sse: Sse,                  // MXCSR and XMM0-7
    mask: MxcsrMask,           // MXCSR_MASK, which FXSAVE also stores
    nmCount: u32,
    swapFlushes: u32)

  /** What holds whatever the registers and areas contain: the data layer is intact and the owner is a save area. */
  ghost predicate Sound<B>(s: Core<B>) {
    LayerInv(s.layer, s.areas.Keys) && Flushable(s)
  }

  /** The owner, if there is one, is the current thread's area. */
  predicate OwnerIsCurrent<B(==)>(s: Core<B>) {
    s.owner.Some? ==>
      s.stock.current in MapOf(s.layer.table) && MapOf(s.layer.table)[s.stock.current] == s.owner.value
  }

  /** The owner is the current thread's area, and what is on the free list is clean. */
  ghost predicate CoreInv<B>(s: Core<B>) {
    && Sound(s)
    && OwnerIsCurrent(s)
    && (forall b <- s.layer.free :: s.areas[b] == FRESH)
  }

  function Inc(n: u32): u32 {
    (n + 1) % 0x1_0000_0000
  }

  /** The entries and the free list as the byte-level proofs use them: who has which buffer, and which are spare. */
  ghost predicate Holdings<B>(m: map<Thread, B>, free: seq<B>, pool: set<B>) {
    && (forall t <- m :: m[t] in pool && m[t] !in free)
    && (forall t <- m, u <- m | m[t] == m[u] :: t == u)
    && (forall b <- free :: b in pool)
    && Distinct(free)
  }

  lemma LayerHoldings<B>(l: Layer<B>, pool: set<B>)
    requires LayerInv(l, pool)
    ensures Holdings(MapOf(l.table), l.free, pool)
  {
    var m := MapOf(l.table);
    MapOfSpells(l.table);
    forall t <- m
      ensures m[t] in pool && m[t] !in l.free
    {
      var i :| 0 <= i < |l.table| && l.table[i].thread == t;
      assert l.table[i].buffer == Some(m[t]);
      assert InTable(l.table, m[t]);
    }
    forall t <- m, u <- m | m[t] == m[u]
      ensures t == u
    {
      var i :| 0 <= i < |l.table| && l.table[i].thread == t;
      var j :| 0 <= j < |l.table| && l.table[j].thread == u;
      assert l.table[i].buffer == l.table[j].buffer;
    }
  }

  /** FXSAVE into the scratch image. */
  function Snapshot<B>(s: Core<B>): Image {
    Image(s.stock.fp, s.sse, s.mask, s.image.rest)
  }

  ghost predicate Flushable<B>(s: Core<B>) {
    s.owner.Some? ==> s.owner.value in s.areas
  }

  /** The save areas after the owner's copy of the live state has been brought up to date. */
  function FlushedAreas<B>(s: Core<B>): (r: map<B, Area>)
    requires Flushable(s)
    ensures r.Keys == s.areas.Keys
  {
    if s.owner.Some? then s.areas[s.owner.value := s.areas[s.owner.value].(sse := Snapshot(s).sse)] else s.areas
  }

  /** The buffers the hooks are about to follow were built. */
  ghost predicate Tracked<B>(s: Core<B>) {
    && |s.layer.table| == MAX_THREADS
    && Flushable(s)
    && (var found := LookupOrAssign(s.layer, s.stock.current).1; found.Some? ==> found.value in s.areas)
  }

  lemma SoundTracked<B>(s: Core<B>)
    requires Sound(s)
    ensures Tracked(s)
  {
    LayerHoldings(s.layer, s.areas.Keys);
    LookupRefinesMap(s.layer, s.areas.Keys, s.stock.current);
  }

  /** NmHandler, up to the jump into the kernel's handler. */
  function NmStep<B>(s: Core<B>): Core<B>
    requires Tracked(s)
  {
    var areas := FlushedAreas(s);
    var (layer, found) := LookupOrAssign(s.layer, s.stock.current);
    var image := Snapshot(s).(sse := if found.Some? then areas[found.value].sse else CLEAN);
    s.(nmCount := Inc(s.nmCount), areas := areas, layer := layer, owner := found, image := image,
       sse := image.sse, stock := s.stock.(fp := image.fp))
  }

  /** SwapDetour, up to the jump to the trampoline. */
  function SwapStep<B>(s: Core<B>): Core<B>
    requires Tracked(s)
  {
    if s.owner.None? then s
    else s.(areas := FlushedAreas(s), image := Snapshot(s), owner := None, swapFlushes := Inc(s.swapFlushes))
  }

  /** The hook's work does not depend on CR0 or on the trap count. */
  lemma NmIgnoresCr0<B>(s: Core<B>, cr0: bv32, n: u32)
    requires Tracked(s)
    ensures var s' := s.(stock := s.stock.(cr0 := cr0), nmCount := n);
            Tracked(s') && NmStep(s') == NmStep(s).(stock := NmStep(s).stock.(cr0 := cr0), nmCount := Inc(n))
    ensures NmStep(s).stock.cr0 == s.stock.cr0 && NmStep(s).nmCount == Inc(s.nmCount)
  {
  }

  // ---- refinement ----

  function SavedIn<B>(m: map<Thread, B>, areas: map<B, Area>): map<Thread, Sse>
    requires forall t <- m :: m[t] in areas
  {
    map t | t in m :: areas[m[t]].sse
  }

  function Saved<B>(s: Core<B>): map<Thread, Sse>
    requires CoreInv(s)
  {
    LayerHoldings(s.layer, s.areas.Keys);
    SavedIn(MapOf(s.layer.table), s.areas)
  }

  function Abs<B>(s: Core<B>): LazySse.Proto
    requires CoreInv(s)
  {
    LazySse.Proto(s.stock, s.owner.Some?, Saved(s), |s.layer.free|, s.sse)
  }

  /** Writing the owner's area changes the owner's registers in the map of saved ones and nothing else. */
  lemma FlushSaves<B>(m: map<Thread, B>, free: seq<B>, areas: map<B, Area>, me: Thread, sse: Sse)
    requires Holdings(m, free, areas.Keys) && me in m
    ensures var areas' := areas[m[me] := areas[m[me]].(sse := sse)];
            && SavedIn(m, areas') == SavedIn(m, areas)[me := sse]
            && forall b <- free :: areas'[b] == areas[b]
  {
  }

  /** A flush keeps the invariant and refines Flushed. */
  lemma FlushRefines<B>(s: Core<B>, areas: map<B, Area>)
    requires CoreInv(s)
    requires (SoundTracked(s); areas == FlushedAreas(s))
    ensures Holdings(MapOf(s.layer.table), s.layer.free, areas.Keys) && areas.Keys == s.areas.Keys
    ensures SavedIn(MapOf(s.layer.table), areas) == LazySse.Flushed(Abs(s))
    ensures forall b <- s.layer.free :: areas[b] == FRESH
  {
    LayerHoldings(s.layer, s.areas.Keys);
    if s.owner.Some? {
      FlushSaves(MapOf(s.layer.table), s.layer.free, s.areas, s.stock.current, s.sse);
    }
  }

  /** What one lookup does to the entries and the free list. */
  ghost predicate Looked<B>(m: map<Thread, B>, free: seq<B>, t: Thread,
                            m': map<Thread, B>, free': seq<B>, found: Option<B>) {
    if t in m then m' == m && free' == free && found == Some(m[t])
    else if free != [] then m' == m[t := free[0]] && free' == free[1..] && found == Some(free[0])
    else m' == m && free' == free && found == None
  }

  lemma LookupIsLooked<B>(l: Layer<B>, pool: set<B>, t: Thread)
    requires LayerInv(l, pool)
    ensures var (l', found) := LookupOrAssign(l, t);
            LayerInv(l', pool) && Looked(MapOf(l.table), l.free, t, MapOf(l'.table), l'.free, found)
  {
    LookupRefinesMap(l, pool, t);
  }

  /** A thread's first lookup hands it clean registers. */
  lemma LookedSaves<B>(m: map<Thread, B>, free: seq<B>, areas: map<B, Area>, t: Thread,
                       m': map<Thread, B>, free': seq<B>, found: Option<B>)
    requires Holdings(m, free, areas.Keys) && Looked(m, free, t, m', free', found)
    requires forall b <- free :: areas[b] == FRESH
    ensures (forall k <- m' :: m'[k] in areas) && (found.Some? <==> t in m') && (found.Some? ==> m'[t] == found.value)
    ensures SavedIn(m', areas) == if t !in m && free != [] then SavedIn(m, areas)[t := CLEAN] else SavedIn(m, areas)
    ensures forall b <- free' :: b in free && areas[b] == FRESH
  {
  }

  /** Both hooks keep the data layer intact from any sound state, with a stale owner too. */
  lemma HooksKeepSound<B>(s: Core<B>)
    requires Sound(s)
    ensures Tracked(s) && Sound(NmStep(s)) && Sound(SwapStep(s))
  {
    SoundTracked(s);
    LookupRefinesMap(s.layer, s.areas.Keys, s.stock.current);
  }

  lemma NmKeepsInv<B>(s: Core<B>)
    requires CoreInv(s)
    ensures Tracked(s) && CoreInv(NmStep(s))
  {
    SoundTracked(s);
    var s' := NmStep(s);
    FlushRefines(s, s'.areas);
    LookupIsLooked(s.layer, s.areas.Keys, s.stock.current);
    LookedSaves(MapOf(s.layer.table), s.layer.free, s'.areas, s.stock.current,
                MapOf(s'.layer.table), s'.layer.free, s'.owner);
  }

  /** NmHandler refines Trap: byte copies, aliasing, table and free list included. */
  lemma NmRefinesTrap<B>(s: Core<B>)
    requires CoreInv(s)
    ensures Tracked(s) && CoreInv(NmStep(s))
    ensures Abs(NmStep(s)) == LazySse.Trap(Abs(s))
  {
    SoundTracked(s);
    var s' := NmStep(s);
    NmKeepsInv(s);
    FlushRefines(s, s'.areas);
    LookupIsLooked(s.layer, s.areas.Keys, s.stock.current);
    LookedSaves(MapOf(s.layer.table), s.layer.free, s'.areas, s.stock.current,
                MapOf(s'.layer.table), s'.layer.free, s'.owner);
  }

  /** SwapDetour refines Swap. */
  lemma SwapRefines<B>(s: Core<B>)
    requires CoreInv(s)
    ensures Tracked(s) && CoreInv(SwapStep(s))
    ensures Abs(SwapStep(s)) == LazySse.Swap(Abs(s))
  {
    SoundTracked(s);
    FlushRefines(s, FlushedAreas(s));
  }

  /** What the #NM hook leaves alone: x87, CR0, every save area but the owner's, and of that the bytes from 0x84 on. */
  lemma NmFrame<B>(s: Core<B>)
    requires Sound(s)
    ensures Tracked(s)
    ensures var s' := NmStep(s);
            && s'.stock == s.stock && s'.areas.Keys == s.areas.Keys
            && (forall b <- s.areas | s.owner != Some(b) :: s'.areas[b] == s.areas[b])
            && (forall b <- s.areas :: s'.areas[b].rest == s.areas[b].rest)
            && (forall b <- s'.layer.free :: b in s.layer.free)
  {
    SoundTracked(s);
    LookupIsLooked(s.layer, s.areas.Keys, s.stock.current);
  }

  /** The same for the switch hook, which also leaves the live registers, the table and the free list. */
  lemma SwapFrame<B>(s: Core<B>)
    requires Sound(s)
    ensures Tracked(s)
    ensures var s' := SwapStep(s);
            && s'.stock == s.stock && s'.sse == s.sse && s'.layer == s.layer && s'.areas.Keys == s.areas.Keys
            && (forall b <- s.areas | s.owner != Some(b) :: s'.areas[b] == s.areas[b])
            && (forall b <- s.areas :: s'.areas[b].rest == s.areas[b].rest)
  {
    SoundTracked(s);
  }

  // ---- runs ----

  /** An FP or SSE instruction with TS set: the hook, then the kernel's handler clears TS. */
  function Ready<B>(s: Core<B>): Core<B>
    requires Sound(s)
  {
    SoundTracked(s);
    if TsSet(s.stock.cr0) then NmStep(s) else s
  }

  function Step<B>(s: Core<B>, e: Event): Core<B>
    requires Sound(s)
  {
    SoundTracked(s);
    match e
    case SseInstr(left) => var r := Ready(s); r.(sse := left, stock := r.stock.(cr0 := NmServiced(r.stock.cr0)))
    case FpInstr(fp) => var r := Ready(s); r.(stock := r.stock.(cr0 := NmServiced(r.stock.cr0), fp := fp))
    case Kernel(cr0, fp) => s.(stock := s.stock.(cr0 := cr0, fp := fp))
    case Switch(next, cr0) => var r := SwapStep(s); r.(stock := r.stock.(current := next, cr0 := cr0))
  }

  lemma ReadyRefines<B>(s: Core<B>)
    requires CoreInv(s)
    ensures CoreInv(Ready(s)) && Abs(Ready(s)) == LazySse.Ready(Abs(s))
  {
    NmRefinesTrap(s);
  }

  /** Changing registers and CR0 keeps the invariant; the current thread may change when nobody owns the registers. */
  lemma RegistersRefine<B>(r: Core<B>, stock: Stock, sse: Sse)
    requires CoreInv(r) && (r.owner.None? || stock.current == r.stock.current)
    ensures var s := r.(stock := stock, sse := sse);
            CoreInv(s) && Abs(s) == Abs(r).(stock := stock, live := sse)
  {
  }

  lemma StepRefines<B>(s: Core<B>, e: Event)
    requires CoreInv(s)
    ensures CoreInv(Step(s, e))
    ensures Abs(Step(s, e)) == LazySse.Step(Abs(s), e)
  {
    var s' := Step(s, e);
    match e {
      case SseInstr(_) => ReadyRefines(s); RegistersRefine(Ready(s), s'.stock, s'.sse);
      case FpInstr(_) => ReadyRefines(s); RegistersRefine(Ready(s), s'.stock, s'.sse);
      case Kernel(_, _) => RegistersRefine(s, s'.stock, s'.sse);
      case Switch(_, _) => SwapRefines(s); RegistersRefine(SwapStep(s), s'.stock, s'.sse);
    }
  }

  lemma StepKeepsInv<B>(s: Core<B>, e: Event)
    requires Sound(s)
    ensures Sound(Step(s, e)) && (CoreInv(s) ==> CoreInv(Step(s, e)))
  {
    HooksKeepSound(s);
    if CoreInv(s) {
      StepRefines(s, e);
    }
  }

  function Run<B>(s: Core<B>, es: seq<Event>): (r: Core<B>)
    requires Sound(s)
    ensures Sound(r) && (CoreInv(s) ==> CoreInv(r))
    decreases |es|
  {
    if es == [] then s
    else
      StepKeepsInv(Run(s, Init(es)), Last(es));
      Step(Run(s, Init(es)), Last(es))
  }

  /** Every run of the bytes is a run of the abstract protocol. */
  lemma {:induction false} RunRefines<B>(s: Core<B>, es: seq<Event>)
    requires CoreInv(s)
    ensures Abs(Run(s, es)) == LazySse.Run(Abs(s), es)
    decreases |es|
  {
    if es != [] {
      RunRefines(s, Init(es));
      StepRefines(Run(s, Init(es)), Last(es));
    }
  }

  /** What a successful load leaves: no entries, no owner. */
  ghost predicate Loaded<B>(s: Core<B>) {
    CoreInv(s) && s.owner.None? && MapOf(s.layer.table) == map[]
  }

  /** The MXCSR and XMM0-7 the current thread's next instruction finds. */
  function Seen<B>(s: Core<B>): Sse
    requires Sound(s)
  {
    Ready(s).sse
  }

  ghost predicate HoldsArea<B>(s: Core<B>)
    requires Sound(s)
  {
    s.stock.current in MapOf(Ready(s).layer.table)
  }

  lemma RunReady<B>(s: Core<B>, es: seq<Event>)
    requires Loaded(s)
    ensures LazySse.Loaded(Abs(s)) && Abs(s).stock == s.stock
    ensures var r, p := Run(s, es), LazySse.Run(Abs(s), es);
            Abs(r) == p && CoreInv(Ready(r)) && Abs(Ready(r)) == LazySse.Ready(p)
  {
    RunRefines(s, es);
    ReadyRefines(Run(s, es));
  }

  /**
   What every SSE instruction with a #NM before it in its slice finds, for any TS policy and after
   any history: exactly the MXCSR and XMM0-7 that its thread last left in that way.
   */
  lemma SeenIsLastGuarded<B>(s: Core<B>, es: seq<Event>)
    requires Loaded(s) && Guarded(s.stock, es) && HoldsArea(Run(s, es))
    ensures Seen(Run(s, es)) == LastGuarded(s.stock, es, Run(s, es).stock.current)
  {
    RunReady(s, es);
    LazySse.SeenIsLastGuarded(Abs(s), es);
  }

  /**
   With TS set on every switch-in, every thread that holds a save area finds at each SSE
   instruction exactly the MXCSR and XMM0-7 it last left, after any history.
   */
  lemma Preservation<B>(s: Core<B>, es: seq<Event>)
    requires Loaded(s) && SwitchesSetTs(s.stock, es) && HoldsArea(Run(s, es))
    ensures Seen(Run(s, es)) == LastLeft(s.stock, es, Run(s, es).stock.current)
  {
    RunReady(s, es);
    LazySse.PreservationWhenSwitchesSetTs(Abs(s), es);
  }

  /** The same for a thread whose own slices trap before they use SSE, however the others are switched. */
  lemma PreservationOfCareful<B>(s: Core<B>, es: seq<Event>)
    requires Loaded(s) && HoldsArea(Run(s, es))
    requires TrapsFirst(s.stock, es, StockRun(s.stock, es).current) && Guarded(s.stock, es)
    ensures Seen(Run(s, es)) == LastLeft(s.stock, es, Run(s, es).stock.current)
  {
    RunReady(s, es);
    LazySse.Preservation(Abs(s), es);
  }

  /**
   The same with no word about areas: as long as no more threads have taken a #NM than buffers
   were built, it holds of every thread.
   */
  lemma PreservationForAll<B>(s: Core<B>, es: seq<Event>, w: Sse)
    requires Loaded(s) && SwitchesSetTs(s.stock, es)
    requires |Trappers(s.stock, es + [SseInstr(w)])| <= |s.layer.free|
    ensures HoldsArea(Run(s, es)) && Seen(Run(s, es)) == LastLeft(s.stock, es, Run(s, es).stock.current)
  {
    RunReady(s, es);
    SwitchesSetTsTrapsFirst(s.stock, es, StockRun(s.stock, es).current);
    LazySse.EnoughAreas(Abs(s), es, w);
    Preservation(s, es);
  }

  /** And for a thread without an area: the defaults at each #NM, then its own until the next. */
  lemma SeenWithoutArea<B>(s: Core<B>, es: seq<Event>)
    requires Loaded(s) && Guarded(s.stock, es) && !HoldsArea(Run(s, es))
    ensures Run(s, es).layer.free == []
    ensures Seen(Run(s, es)) == if TsSet(StockRun(s.stock, es).cr0) then CLEAN else LeftSinceTrap(s.stock, es)
  {
    RunReady(s, es);
    LazySse.SeenWithoutArea(Abs(s), es);
  }

  /**
   What every instruction finds in MXCSR and XMM0-7, guarded or not, with or without an area, for any
   TS policy and after any history: a function of that history alone.
   */
  lemma SeenIsFinds<B>(s: Core<B>, es: seq<Event>)
    requires Loaded(s)
    ensures Seen(Run(s, es)) == Finds(s.stock, s.sse, |s.layer.free|, es)
    ensures Run(s, es).sse == Resident(s.stock, s.sse, |s.layer.free|, es)
  {
    RunReady(s, es);
    LazySse.SeenIsFinds(Abs(s), es);
    LazySse.LiveIsResident(Abs(s), es);
  }

  /** A thread's first #NM gives it the default MXCSR, all exceptions masked, and zero in XMM0-7. */
  lemma FirstTrapIsQuiet<B>(s: Core<B>, es: seq<Event>)
    requires Loaded(s) && TsSet(Run(s, es).stock.cr0) && Run(s, es).stock.current !in Trappers(s.stock, es)
    ensures Quiet(Seen(Run(s, es)))
  {
    Transparent(s, es);
    SeenIsFinds(s, es);
    NewcomerIsClean(s.stock, es, Run(s, es).stock.current);
    CleanIffQuiet(CLEAN);
  }

  /**
   The exact condition for preservation without that policy, after every history: a guarded SSE
   instruction finds what its thread last left iff that is what the thread last left under guard,
   an unguarded one iff the registers still hold it.
   */
  lemma PreservedIff<B>(s: Core<B>, es: seq<Event>)
    requires Loaded(s) && (Guarded(s.stock, es) ==> HoldsArea(Run(s, es)))
    ensures var t := Run(s, es).stock.current;
            Seen(Run(s, es)) == LastLeft(s.stock, es, t) <==>
            (if Guarded(s.stock, es) then LastGuarded(s.stock, es, t)
             else Resident(s.stock, s.sse, |s.layer.free|, es))
            == LastLeft(s.stock, es, t)
  {
    RunReady(s, es);
    LazySse.PreservedIff(Abs(s), es);
  }

  /**
   The exact condition for one value w, after every history and whatever happens until its thread
   runs again: if that is under guard, there was a #NM in the slice that left w too, or w was what
   the thread had last left so anyway; if not, w is what was last left in the registers.
   */
  lemma SurvivesIffTrappedFirst<B>(s: Core<B>, es: seq<Event>, w: Sse, mid: seq<Event>)
    requires Loaded(s) && ComesBack(s.stock, es, w, mid)
    requires var back := es + [SseInstr(w)] + mid; Guarded(s.stock, back) ==> HoldsArea(Run(s, back))
    ensures var back := es + [SseInstr(w)] + mid;
            Seen(Run(s, back)) == w <==>
            if Guarded(s.stock, back)
            then Guarded(s.stock, es) || w == LastGuarded(s.stock, es, StockRun(s.stock, es).current)
            else w == Resident(s.stock, s.sse, |s.layer.free|, back)
  {
    RunReady(s, es + [SseInstr(w)] + mid);
    LazySse.SurvivesIffTrappedFirst(Abs(s), es, w, mid);
  }

  /** The same for a thread that has always trapped first so far. */
  lemma SurvivesIffAfterTrapping<B>(s: Core<B>, es: seq<Event>, w: Sse, mid: seq<Event>)
    requires Loaded(s) && ComesBack(s.stock, es, w, mid) && TrapsFirst(s.stock, es, StockRun(s.stock, es).current)
    requires var back := es + [SseInstr(w)] + mid; Guarded(s.stock, back) ==> HoldsArea(Run(s, back))
    ensures var back := es + [SseInstr(w)] + mid;
            Seen(Run(s, back)) == w <==>
            if Guarded(s.stock, back)
            then Guarded(s.stock, es) || w == LastLeft(s.stock, es, StockRun(s.stock, es).current)
            else w == Resident(s.stock, s.sse, |s.layer.free|, back)
  {
    RunReady(s, es + [SseInstr(w)] + mid);
    LazySse.SurvivesIffAfterTrapping(Abs(s), es, w, mid);
  }

  /** From any loaded state with a spare area, a run that loses the w its thread left. */
  lemma LostUpdate<B>(s: Core<B>, b: Thread, a: Sse, w: Sse, set': bv32, clear: bv32)
    requires Loaded(s) && s.layer.free != [] && b != s.stock.current
    requires TsSet(s.stock.cr0) && TsSet(set') && !TsSet(clear)
    ensures var t := s.stock.current;
            var es := LazySse.LosingRun(t, b, a, w, set', clear);
            Run(s, es).stock.current == t && LastLeft(s.stock, es, t) == w
            && HoldsArea(Run(s, es)) && Seen(Run(s, es)) == a
  {
    RunReady(s, LazySse.LosingRun(s.stock.current, b, a, w, set', clear));
    LazySse.LostUpdate(Abs(s), b, a, w, set', clear);
  }

  /** And one that loses a w left under guard: the thread comes back with TS clear and finds another's v. */
  lemma Overwritten<B>(s: Core<B>, b: Thread, w: Sse, v: Sse, set': bv32, clear: bv32)
    requires Loaded(s) && s.layer.free != [] && b != s.stock.current
    requires TsSet(s.stock.cr0) && TsSet(set') && !TsSet(clear)
    ensures var t := s.stock.current;
            var es := LazySse.OverwritingRun(t, b, w, v, set', clear);
            Run(s, es).stock.current == t && HoldsArea(Run(s, es)) && TrapsFirst(s.stock, es, t)
            && LastLeft(s.stock, es, t) == LastGuarded(s.stock, es, t) == w && Seen(Run(s, es)) == v
  {
    RunReady(s, LazySse.OverwritingRun(s.stock.current, b, w, v, set', clear));
    LazySse.Overwritten(Abs(s), b, w, v, set', clear);
  }

  /** For any TS policy, the bytes of a thread's area that is not live hold its latest trapped slice. */
  lemma AreaHoldsLastTrappedSlice<B>(s: Core<B>, es: seq<Event>, t: Thread)
    requires Loaded(s)
    requires t in MapOf(Run(s, es).layer.table)
    requires Run(s, es).owner != Some(MapOf(Run(s, es).layer.table)[t])
    ensures Saved(Run(s, es))[t] == LazySse.Kept(Abs(s), es, t)
  {
    RunReady(s, es);
    LazySse.AreaHoldsLastTrappedSlice(Abs(s), es, t);
  }

  /** While no hook is called, only the registers change. */
  lemma {:induction false} HookFreeRun<B>(s: Core<B>, es: seq<Event>)
    requires Sound(s) && HookFree(s.stock, es)
    ensures var r := Run(s, es);
            && r == s.(stock := StockRun(s.stock, es), sse := r.sse)
            && r.sse == Resident(s.stock, s.sse, |s.layer.free|, es)
            && r.stock.current == s.stock.current
    decreases |es|
  {
    if es != [] {
      HookFreeRun(s, Init(es));
    }
  }

  /**
   An owner left over from before the run: whoever is running, the first hook call writes the
   registers as they are then to that owner's area.
   */
  lemma StaleOwnerIsWritten<B>(s: Core<B>, es: seq<Event>, e: Event)
    requires Sound(s) && s.owner.Some? && HookFree(s.stock, es)
    requires e.Switch? || Traps(StockRun(s.stock, es), e)
    ensures var r := Run(s, es + [e]);
            s.owner.value in r.areas
            && r.areas[s.owner.value].sse == Resident(s.stock, s.sse, |s.layer.free|, es)
  {
    var r := Run(s, es);
    assert Init(es + [e]) == es;
    HookFreeRun(s, es);
    assert Run(s, es + [e]) == Step(r, e);
    hide HookFree, Resident, Run, LayerInv, Step;
    HookWrites(r, e);
  }

  lemma HookWrites<B>(s: Core<B>, e: Event)
    requires Sound(s) && s.owner.Some? && (e.Switch? || Traps(s.stock, e))
    ensures s.owner.value in Step(s, e).areas && Step(s, e).areas[s.owner.value].sse == s.sse
  {
    SoundTracked(s);
  }

  /**
   So every run must start unowned or owned by its current thread: if u's area owns the registers, a
   switch to u that is the first hook call hands u what whoever was running left there.
   */
  lemma StaleOwnerLeaks<B>(s: Core<B>, es: seq<Event>, u: Thread, cr0: bv32)
    requires Sound(s) && HookFree(s.stock, es)
    requires u in MapOf(s.layer.table) && s.owner == Some(MapOf(s.layer.table)[u])
    ensures Seen(Run(s, es + [Switch(u, cr0)])) == Resident(s.stock, s.sse, |s.layer.free|, es)
  {
    var after := Run(s, es + [Switch(u, cr0)]);
    assert Init(es + [Switch(u, cr0)]) == es;
    HookFreeRun(s, es);
    StaleOwnerIsWritten(s, es, Switch(u, cr0));
    assert after.layer == s.layer && after.owner.None? && after.stock.current == u;
    assert after.sse == Run(s, es).sse;
    hide Run, Step, HookFree, Resident;
    SeesItsArea(after);
  }

  /** If the current thread's area holds what is live, that is what it finds. */
  lemma SeesItsArea<B>(s: Core<B>)
    requires Sound(s) && s.owner.None? && s.stock.current in MapOf(s.layer.table)
    requires MapOf(s.layer.table)[s.stock.current] in s.areas
    requires s.areas[MapOf(s.layer.table)[s.stock.current]].sse == s.sse
    ensures Seen(s) == s.sse
  {
    LookupRefinesMap(s.layer, s.areas.Keys, s.stock.current);
  }

  /** For any TS policy: every save area only ever holds states of its own thread's. */
  lemma AreasAreOwn<B>(s: Core<B>, es: seq<Event>, t: Thread)
    requires Loaded(s) && t in MapOf(Run(s, es).layer.table)
    ensures Saved(Run(s, es))[t] in Own(s.stock, es, t)
  {
    RunReady(s, es);
    LazySse.AreasAreOwn(Abs(s), es, t);
  }

  /** For any TS policy, with or without an area: a guarded SSE instruction finds a state of its thread's own. */
  lemma GuardedSeesOwn<B>(s: Core<B>, es: seq<Event>)
    requires Loaded(s) && Guarded(s.stock, es)
    ensures Seen(Run(s, es)) in Own(s.stock, es, Run(s, es).stock.current)
  {
    RunReady(s, es);
    LazySse.GuardedSeesOwn(Abs(s), es);
  }

  /** If only the latest #NM taker runs with TS clear, no thread ever sees another thread's registers. */
  lemma Confinement<B>(s: Core<B>, es: seq<Event>)
    requires Loaded(s) && OnlyTrapperRunsClear(s.stock, es)
    ensures Seen(Run(s, es)) in Own(s.stock, es, Run(s, es).stock.current)
  {
    RunReady(s, es);
    LazySse.Confinement(Abs(s), es);
  }

  /** In particular if the kernel sets TS at every switch. */
  lemma ConfinementWhenSwitchesSetTs<B>(s: Core<B>, es: seq<Event>)
    requires Loaded(s) && SwitchesSetTs(s.stock, es)
    ensures Seen(Run(s, es)) in Own(s.stock, es, Run(s, es).stock.current)
  {
    SwitchesSetTsIsTrapperPolicy(s.stock, es);
    Confinement(s, es);
  }

  /**
   The exact condition for confinement, after every history: the current thread finds a state of its
   own iff that is under guard, or what was last left in the registers is such a state.
   */
  lemma ConfinedIff<B>(s: Core<B>, es: seq<Event>)
    requires Loaded(s)
    ensures var t := Run(s, es).stock.current;
            Seen(Run(s, es)) in Own(s.stock, es, t) <==>
            Guarded(s.stock, es) || Resident(s.stock, s.sse, |s.layer.free|, es) in Own(s.stock, es, t)
  {
    RunReady(s, es);
    LazySse.ConfinedIff(Abs(s), es);
  }

  /** In particular: the thread switched in behind somebody who left w sees a state of its own iff TS is set. */
  lemma ConfinedIffTsSet<B>(s: Core<B>, es: seq<Event>, w: Sse, next: Thread, cr0: bv32)
    requires Loaded(s)
    ensures var es' := es + [SseInstr(w)] + [Switch(next, cr0)];
            Seen(Run(s, es')) in Own(s.stock, es', next) <==> TsSet(cr0) || w in Own(s.stock, es', next)
  {
    RunReady(s, es + [SseInstr(w)] + [Switch(next, cr0)]);
    LazySse.ConfinedIffTsSet(Abs(s), es, w, next, cr0);
  }

  /**
   For any TS policy: there is an owner exactly in a slice that trapped and whose thread has an
   area; it is that area, the live registers are what the thread last left under guard, and a
   #NM leaves them alone.
   */
  lemma Ownership<B>(s: Core<B>, es: seq<Event>)
    requires Loaded(s)
    ensures var r := Run(s, es);
            && (r.owner.Some? <==> TrappedSlice(s.stock, es) && r.stock.current in MapOf(r.layer.table))
            && Tracked(r)
            && (r.owner.Some? ==>
                  && r.owner.value == MapOf(r.layer.table)[r.stock.current]
                  && r.sse == LastGuarded(s.stock, es, r.stock.current)
                  && NmStep(r).sse == r.sse)
  {
    RunReady(s, es);
    LazySse.Ownership(Abs(s), es);
    NmRefinesTrap(Run(s, es));
    if Run(s, es).owner.Some? {
      LazySse.TrapByOwnerIsIdentity(Abs(Run(s, es)));
      LazySse.AreasHoldGuarded(Abs(s), es, Run(s, es).stock.current);
    }
  }

  lemma StepIsTransparent<B>(s: Core<B>, e: Event)
    requires Sound(s)
    ensures Step(s, e).stock == StockStep(s.stock, e)
  {
    NmFrame(s);
    SwapFrame(s);
    hide NmStep, SwapStep, LayerInv, Tracked;
  }

  /** The driver is invisible to CR0, x87 and scheduling: a run goes through the stock machine's states. */
  lemma {:induction false} Transparent<B>(s: Core<B>, es: seq<Event>)
    requires Sound(s)
    ensures Run(s, es).stock == StockRun(s.stock, es)
    decreases |es|
  {
    if es != [] {
      Transparent(s, Init(es));
      StepIsTransparent(Run(s, Init(es)), Last(es));
      hide Step, Sound, CoreInv;
    }
  }

  /** A ULONG after n increments. */
  function Advanced(start: u32, n: nat): u32 {
    (start + n) % 0x1_0000_0000
  }

  lemma Advances(start: u32, n: nat)
    ensures Advanced(start, 0) == start
    ensures Advanced(start, n + 1) == Inc(Advanced(start, n))
  {
  }

  /** g_NmCount counts the traps, as a ULONG does. */
  lemma {:induction false} CountsTraps<B>(s: Core<B>, es: seq<Event>)
    requires Sound(s)
    ensures Run(s, es).nmCount == Advanced(s.nmCount, TrapCount(s.stock, es))
    decreases |es|
  {
    hide Advanced, Inc, LayerInv, Step, Flushable;
    if es == [] {
      Advances(s.nmCount, 0);
    } else {
      CountsTraps(s, Init(es));
      Transparent(s, Init(es));
      StepCounts(Run(s, Init(es)), Last(es));
      Advances(s.nmCount, TrapCount(s.stock, Init(es)));
    }
  }

  /** g_SwapFlushes counts the switches away from a slice that trapped and whose thread has an area. */
  lemma {:induction false} CountsFlushes<B>(s: Core<B>, es: seq<Event>)
    requires Loaded(s)
    ensures Run(s, es).swapFlushes == Advanced(s.swapFlushes, FlushCount(s.stock, |s.layer.free|, es))
    decreases |es|
  {
    hide Advanced, Inc, LayerInv, Step, Flushable, Entitled, TrappedSlice, MapOf;
    if es == [] {
      Advances(s.swapFlushes, 0);
    } else {
      CountsFlushes(s, Init(es));
      OwnerIffEntitled(s, Init(es));
      StepCounts(Run(s, Init(es)), Last(es));
      Advances(s.swapFlushes, FlushCount(s.stock, |s.layer.free|, Init(es)));
    }
  }

  lemma StepCounts<B>(s: Core<B>, e: Event)
    requires Sound(s)
    ensures Step(s, e).nmCount == if Traps(s.stock, e) then Inc(s.nmCount) else s.nmCount
    ensures Step(s, e).swapFlushes == if e.Switch? && s.owner.Some? then Inc(s.swapFlushes) else s.swapFlushes
  {
    SoundTracked(s);
  }

  lemma OwnerIffEntitled<B>(s: Core<B>, es: seq<Event>)
    requires Loaded(s)
    ensures Run(s, es).owner.Some? <==>
              TrappedSlice(s.stock, es) && Entitled(s.stock, |s.layer.free|, es, StockRun(s.stock, es).current)
  {
    RunReady(s, es);
    LazySse.OwnedIffEntitled(Abs(s), es);
  }

  lemma StepConserves<B>(s: Core<B>, e: Event)
    requires Sound(s)
    ensures Step(s, e).areas.Keys == s.areas.Keys
    ensures forall b <- Step(s, e).layer.free :: b in s.layer.free
  {
    NmFrame(s);
    SwapFrame(s);
  }

  /** No buffer is lost, shared or dirtied while unassigned, over every run. */
  lemma {:induction false} Conservation<B>(s: Core<B>, es: seq<Event>)
    requires Sound(s)
    ensures var r := Run(s, es);
            && r.areas.Keys == s.areas.Keys
            && |r.layer.free| + Occupied(r.layer.table) == |s.areas.Keys|
            && (forall b <- r.layer.free :: b in s.layer.free && (CoreInv(s) ==> r.areas[b] == FRESH))
    decreases |es|
  {
    if es != [] {
      Conservation(s, Init(es));
      StepConserves(Run(s, Init(es)), Last(es));
    }
  }
}
