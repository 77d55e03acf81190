/**
 The lazy XMM protocol with the memory layout taken away: a map from threads to
 saved registers, the number of unassigned save areas, and one bit saying that
 the live registers are owned. TrapCore refines this machine.
 */
module LazySse {
  import opened Bytes
  import opened ControlRegs
  import opened FxImage
  import opened Schedule

  datatype Proto = Proto(
    stock: Stock,
    owned: bool,               // g_FxOwner is the current thread's save area
    save: map<Thread, Sse>,    // threads that hold a save area
    spare: nat,                // unassigned save areas
    live: Sse)                 // MXCSR and XMM0-7

  function Flushed(p: Proto): map<Thread, Sse> {
    if p.owned then p.save[p.stock.current := p.live] else p.save
  }

  /** The #NM hook. */
  function Trap(p: Proto): Proto {
    var save := Flushed(p);
    var me := p.stock.current;
    if me in save then
      p.(save := save, live := save[me], owned := true)
    else if p.spare > 0 then
      p.(save := save[me := CLEAN], spare := p.spare - 1, live := CLEAN, owned := true)
    else
      p.(save := save, live := CLEAN, owned := false)
  }

  /** The SwapContext hook. */
  function Swap(p: Proto): Proto {
    p.(save := Flushed(p), owned := false)
  }

  /** The state in which the current thread's next instruction finds the registers. */
  function Ready(p: Proto): Proto {
    if TsSet(p.stock.cr0) then Trap(p) else p
  }

  function Seen(p: Proto): Sse {
    Ready(p).live
  }

  predicate HoldsArea(p: Proto) {
    p.stock.current in Ready(p).save
  }

  function Step(p: Proto, e: Event): Proto {
    var after := StockStep(p.stock, e);
    match e
    case SseInstr(left) => Ready(p).(live := left, stock := after)
    case FpInstr(_) => Ready(p).(stock := after)
    case Kernel(_, _) => p.(stock := after)
    case Switch(_, _) => Swap(p).(stock := after)
  }

  function Run(p: Proto, es: seq<Event>): Proto {
    if es == [] then p else Step(Run(p, Init(es)), Last(es))
  }

  /** The state a load leaves: nobody owns the registers and no thread holds an area. */
  predicate Loaded(p: Proto) {
    !p.owned && p.save == map[]
  }

  /** The registers of t at the end of its latest finished slice with a #NM in it; the defaults if there is none. */
  function Kept(p: Proto, es: seq<Event>, t: Thread): Sse {
    if es == [] then CLEAN
    else if Last(es).Switch? && TrappedSlice(p.stock, Init(es)) && StockRun(p.stock, Init(es)).current == t
      then Run(p, Init(es)).live
    else Kept(p, Init(es), t)
  }

  lemma {:induction false} RunStock(p: Proto, es: seq<Event>)
    ensures Run(p, es).stock == StockRun(p.stock, es)
  {
    if es != [] {
      RunStock(p, Init(es));
    }
  }

  lemma Appended(p: Proto, es: seq<Event>, e: Event)
    ensures Init(es + [e]) == es && Last(es + [e]) == e
    ensures Run(p, es + [e]) == Step(Run(p, es), e)
    ensures StockRun(p.stock, es + [e]) == StockStep(StockRun(p.stock, es), e)
  {
    assert Init(es + [e]) == es;
  }

  /** Ownership, for any TS policy: the live registers are owned exactly in a slice that trapped and has an area. */
  lemma {:induction false} Ownership(p: Proto, es: seq<Event>)
    requires Loaded(p)
    ensures var r := Run(p, es);
            r.owned <==> TrappedSlice(p.stock, es) && r.stock.current in r.save
  {
    RunStock(p, es);
    if es != [] {
      Ownership(p, Init(es));
      RunStock(p, Init(es));
      OutOfAreas(p, Init(es));
    }
  }

  /** A thread that trapped without getting an area found none left, and none ever comes back. */
  lemma {:induction false} OutOfAreas(p: Proto, es: seq<Event>)
    requires Loaded(p)
    ensures var r := Run(p, es);
            TrappedSlice(p.stock, es) && r.stock.current !in r.save ==> r.spare == 0
    ensures Run(p, es).owned ==> Run(p, es).stock.current in Run(p, es).save
  {
    if es != [] {
      OutOfAreas(p, Init(es));
      RunStock(p, Init(es));
    }
  }

  /** A #NM taken by the owner is the identity on the live registers. */
  lemma TrapByOwnerIsIdentity(p: Proto)
    requires p.owned
    ensures Trap(p).live == p.live && Trap(p).owned && Trap(p).stock == p.stock
    ensures Trap(p).save == p.save[p.stock.current := p.live]
  {
  }

  /** What a step does to the area of t, if it has one. */
  lemma StepSaves(p: Proto, e: Event, t: Thread)
    requires p.owned ==> p.stock.current in p.save
    ensures var q, me := Step(p, e), p.stock.current;
            && (t in p.save ==>
                  && t in q.save
                  && q.save[t] == if p.owned && t == me && (e.Switch? || Traps(p.stock, e)) then p.live else p.save[t])
            && (t !in p.save && t in q.save ==> t == me && q.owned && q.save[t] == CLEAN && p.spare > 0)
            && q.spare <= p.spare
            && (q.owned <==> !e.Switch? && (p.owned || Traps(p.stock, e)) && (Traps(p.stock, e) ==> me in q.save))
  {
  }

  /**
   For any TS policy: whenever a thread is not the running owner, its save area holds its
   registers as they were at the end of its latest slice in which it took a #NM.
   */
  lemma {:induction false} AreaHoldsLastTrappedSlice(p: Proto, es: seq<Event>, t: Thread)
    requires Loaded(p)
    ensures var r := Run(p, es);
            && (t in r.save && !(r.owned && r.stock.current == t) ==> r.save[t] == Kept(p, es, t))
            && (t !in r.save && r.spare > 0 ==> Kept(p, es, t) == CLEAN)
  {
    if es != [] {
      var before := Init(es);
      AreaHoldsLastTrappedSlice(p, before, t);
      Ownership(p, before);
      OutOfAreas(p, before);
      RunStock(p, before);
      StepSaves(Run(p, before), Last(es), t);
    }
  }

  /** For any TS policy, an area, or the live state of its running owner, is what its thread last left under guard. */
  lemma {:induction false} AreasHoldGuarded(p: Proto, es: seq<Event>, t: Thread)
    requires Loaded(p)
    ensures var r := Run(p, es);
            && (t in r.save ==>
                  LastGuarded(p.stock, es, t) == if r.owned && r.stock.current == t then r.live else r.save[t])
            && (t !in r.save && r.spare > 0 ==> LastGuarded(p.stock, es, t) == CLEAN)
  {
    if es != [] {
      var before := Init(es);
      AreasHoldGuarded(p, before, t);
      Ownership(p, before);
      OutOfAreas(p, before);
      RunStock(p, before);
      StepSaves(Run(p, before), Last(es), t);
      StepLive(Run(p, before), Last(es));
      hide Step, Trap, Swap, Ready;
    }
  }

  /** What a step does to the live registers. */
  lemma StepLive(p: Proto, e: Event)
    ensures Step(p, e).live == if e.SseInstr? then e.left else if Traps(p.stock, e) then Trap(p).live else p.live
    ensures p.owned ==> Trap(p).live == p.live
    ensures p.stock.current in p.save && !p.owned ==> Trap(p).live == p.save[p.stock.current]
    ensures p.stock.current !in p.save && !p.owned ==> Trap(p).live == CLEAN
  {
  }

  /**
   What every guarded SSE instruction finds, for any TS policy and after any history: the
   thread's registers as it last left them under guard.
   */
  lemma SeenIsLastGuarded(p: Proto, es: seq<Event>)
    requires Loaded(p) && Guarded(p.stock, es) && HoldsArea(Run(p, es))
    ensures Seen(Run(p, es)) == LastGuarded(p.stock, es, Run(p, es).stock.current)
  {
    AreasHoldGuarded(p, es, Run(p, es).stock.current);
    Ownership(p, es);
    RunStock(p, es);
  }

  /** A thread for which no area was left: it starts from the defaults at each #NM and keeps its own until the next. */
  lemma SeenWithoutArea(p: Proto, es: seq<Event>)
    requires Loaded(p) && Guarded(p.stock, es) && !HoldsArea(Run(p, es))
    ensures Run(p, es).spare == 0
    ensures Seen(Run(p, es)) == if TsSet(StockRun(p.stock, es).cr0) then CLEAN else LeftSinceTrap(p.stock, es)
  {
    RunStock(p, es);
    OutOfAreas(p, es);
    if TrappedSlice(p.stock, es) {
      LiveWithoutArea(p, es);
    }
  }

  lemma {:induction false} LiveWithoutArea(p: Proto, es: seq<Event>)
    requires Loaded(p) && TrappedSlice(p.stock, es) && Run(p, es).stock.current !in Run(p, es).save
    ensures Run(p, es).live == LeftSinceTrap(p.stock, es)
  {
    var before := Init(es);
    RunStock(p, before);
    OutOfAreas(p, before);
    if TrappedSlice(p.stock, before) {
      LiveWithoutArea(p, before);
    }
  }

  /**
   Preservation: a thread that holds an area and traps before it uses SSE finds at its next SSE
   instruction exactly the MXCSR and XMM0-7 it last left, whatever all other threads did.
   */
  lemma Preservation(p: Proto, es: seq<Event>)
    requires Loaded(p) && TrapsFirst(p.stock, es, StockRun(p.stock, es).current) && Guarded(p.stock, es)
    requires HoldsArea(Run(p, es))
    ensures Seen(Run(p, es)) == LastLeft(p.stock, es, Run(p, es).stock.current)
  {
    RunStock(p, es);
    SeenIsLastGuarded(p, es);
    TrapsFirstLeavesGuarded(p.stock, es, Run(p, es).stock.current);
  }

  /** Preservation as the source intends it: TS is set at every switch. */
  lemma PreservationWhenSwitchesSetTs(p: Proto, es: seq<Event>)
    requires Loaded(p) && SwitchesSetTs(p.stock, es) && HoldsArea(Run(p, es))
    ensures Seen(Run(p, es)) == LastLeft(p.stock, es, Run(p, es).stock.current)
  {
    SwitchesSetTsTrapsFirst(p.stock, es, StockRun(p.stock, es).current);
    Preservation(p, es);
  }

  /** How many of the threads that trapped found an area. */
  function Served(p: Proto, es: seq<Event>): nat {
    var n := |Trappers(p.stock, es)|;
    if n < p.spare then n else p.spare
  }

  /** Areas go to the first threads that trap, one each, until there are no more. */
  lemma {:induction false} AreasGoToFirstTrappers(p: Proto, es: seq<Event>)
    requires Loaded(p)
    ensures var r, n := Run(p, es), Served(p, es);
            && r.spare == p.spare - n
            && (forall t: Thread :: t in r.save <==> t in Trappers(p.stock, es)[..n])
  {
    if es != [] {
      var before := Init(es);
      AreasGoToFirstTrappers(p, before);
      RunStock(p, before);
      OutOfAreas(p, before);
      FirstStepServes(Run(p, before), Last(es), Trappers(p.stock, before), p.spare);
    }
  }

  /** One step of the above, over any list of earlier trappers. */
  lemma FirstStepServes(r: Proto, e: Event, before: seq<Thread>, areas: nat)
    requires r.owned ==> r.stock.current in r.save
    requires var n := if |before| < areas then |before| else areas;
             r.spare == areas - n && forall t: Thread :: t in r.save <==> t in before[..n]
    ensures var me := r.stock.current;
            var after := if Traps(r.stock, e) && me !in before then before + [me] else before;
            var n' := if |after| < areas then |after| else areas;
            Step(r, e).spare == areas - n' && forall t: Thread :: t in Step(r, e).save <==> t in after[..n']
  {
    var me := r.stock.current;
    var after := before + [me];
    if |before| < areas {
      assert before[..|before|] == before && after[..|after|] == after;
    } else {
      assert after[..areas] == before[..areas];
    }
  }

  lemma {:induction false} TrappedIsTrapper(k: Stock, es: seq<Event>)
    requires TrappedSlice(k, es)
    ensures StockRun(k, es).current in Trappers(k, es)
  {
    if !Traps(StockRun(k, Init(es)), Last(es)) {
      TrappedIsTrapper(k, Init(es));
    }
  }

  /** With no more trapping threads than areas, the next SSE instruction's included, its thread holds an area. */
  lemma EnoughAreas(p: Proto, es: seq<Event>, w: Sse)
    requires Loaded(p) && Guarded(p.stock, es) && |Trappers(p.stock, es + [SseInstr(w)])| <= p.spare
    ensures HoldsArea(Run(p, es))
  {
    var es' := es + [SseInstr(w)];
    var all := Trappers(p.stock, es');
    Appended(p, es, SseInstr(w));
    AreasGoToFirstTrappers(p, es');
    RunStock(p, es);
    assert all[..|all|] == all;
    if TrappedSlice(p.stock, es) {
      TrappedIsTrapper(p.stock, es);
    }
  }

  lemma OwnedIffEntitled(p: Proto, es: seq<Event>)
    requires Loaded(p)
    ensures Run(p, es).owned <==>
              TrappedSlice(p.stock, es) && Entitled(p.stock, p.spare, es, StockRun(p.stock, es).current)
  {
    RunStock(p, es);
    Ownership(p, es);
    AreasGoToFirstTrappers(p, es);
    if TrappedSlice(p.stock, es) {
      TrappedIsTrapper(p.stock, es);
      assert Trappers(p.stock, es)[..|Trappers(p.stock, es)|] == Trappers(p.stock, es);
    }
  }

  /** The live registers after a #NM. */
  lemma TrapFinds(p: Proto, es: seq<Event>)
    requires Loaded(p)
    ensures var r := Run(p, es);
            Trap(r).live == if Entitled(p.stock, p.spare, es, r.stock.current)
                            then LastGuarded(p.stock, es, r.stock.current)
                            else CLEAN
  {
    var r := Run(p, es);
    AreasGoToFirstTrappers(p, es);
    AreasHoldGuarded(p, es, r.stock.current);
    OutOfAreas(p, es);
  }

  /** The live registers of every reachable state. */
  lemma {:induction false} LiveIsResident(p: Proto, es: seq<Event>)
    requires Loaded(p)
    ensures Run(p, es).live == Resident(p.stock, p.live, p.spare, es)
    decreases |es|, 0
  {
    if es != [] {
      if Last(es).FpInstr? {
        SeenIsFinds(p, Init(es));
      } else {
        LiveIsResident(p, Init(es));
      }
    }
  }

  /** What every instruction finds, whoever executes it, after any history and for any TS policy. */
  lemma {:induction false} SeenIsFinds(p: Proto, es: seq<Event>)
    requires Loaded(p)
    ensures Seen(Run(p, es)) == Finds(p.stock, p.live, p.spare, es)
    decreases |es|, 1
  {
    RunStock(p, es);
    LiveIsResident(p, es);
    TrapFinds(p, es);
  }

  /**
   The exact condition for preservation, after every history: a guarded SSE instruction finds what
   its thread last left iff that is what the thread last left under guard, an unguarded one iff
   the registers still hold it.
   */
  lemma PreservedIff(p: Proto, es: seq<Event>)
    requires Loaded(p) && (Guarded(p.stock, es) ==> HoldsArea(Run(p, es)))
    ensures var t := Run(p, es).stock.current;
            Seen(Run(p, es)) == LastLeft(p.stock, es, t) <==>
            (if Guarded(p.stock, es) then LastGuarded(p.stock, es, t) else Resident(p.stock, p.live, p.spare, es))
            == LastLeft(p.stock, es, t)
  {
    if Guarded(p.stock, es) {
      SeenIsLastGuarded(p, es);
    } else {
      SeenIsFinds(p, es);
    }
  }

  /**
   The exact condition for one value, after every history and whatever happens in between: what the
   current thread leaves is there when it runs again, in this slice or after any switches, if and
   only if
   - when it has a #NM to take or has taken one: it had one in the slice that left the value too,
     or its area held the value already;
   - when it comes back with TS clear: the value is what the last one to use the registers left.
   */
  lemma SurvivesIffTrappedFirst(p: Proto, es: seq<Event>, w: Sse, mid: seq<Event>)
    requires Loaded(p) && ComesBack(p.stock, es, w, mid)
    requires var back := es + [SseInstr(w)] + mid; Guarded(p.stock, back) ==> HoldsArea(Run(p, back))
    ensures var back := es + [SseInstr(w)] + mid;
            Seen(Run(p, back)) == w <==>
            if Guarded(p.stock, back)
            then Guarded(p.stock, es) || w == LastGuarded(p.stock, es, StockRun(p.stock, es).current)
            else w == Resident(p.stock, p.live, p.spare, back)
  {
    var left := es + [SseInstr(w)];
    Appended(p, es, SseInstr(w));
    if Guarded(p.stock, left + mid) {
      NoSseKeepsGuarded(p.stock, left, mid, StockRun(p.stock, es).current);
      RunStock(p, left + mid);
      SeenIsLastGuarded(p, left + mid);
    } else {
      SeenIsFinds(p, left + mid);
    }
  }

  /** For a thread that has always trapped first so far, the value its area holds is the one it last left. */
  lemma SurvivesIffAfterTrapping(p: Proto, es: seq<Event>, w: Sse, mid: seq<Event>)
    requires Loaded(p) && ComesBack(p.stock, es, w, mid) && TrapsFirst(p.stock, es, StockRun(p.stock, es).current)
    requires var back := es + [SseInstr(w)] + mid; Guarded(p.stock, back) ==> HoldsArea(Run(p, back))
    ensures var back := es + [SseInstr(w)] + mid;
            Seen(Run(p, back)) == w <==>
            if Guarded(p.stock, back)
            then Guarded(p.stock, es) || w == LastLeft(p.stock, es, StockRun(p.stock, es).current)
            else w == Resident(p.stock, p.live, p.spare, back)
  {
    SurvivesIffTrappedFirst(p, es, w, mid);
    TrapsFirstLeavesGuarded(p.stock, es, StockRun(p.stock, es).current);
  }

  /** A leaves a, comes back with TS clear and leaves w, and comes back once more. */
  function LosingRun(t: Thread, b: Thread, a: Sse, w: Sse, set': bv32, clear: bv32): seq<Event> {
    [SseInstr(a), Switch(b, set'), Switch(t, clear), SseInstr(w), Switch(b, set'), Switch(t, set')]
  }

  /**
   The run that shows the TS hypothesis is needed: A traps and leaves a, is switched out, comes
   back with TS clear and leaves w without a #NM, and after B has run finds a again.
   */
  lemma LostUpdate(p: Proto, b: Thread, a: Sse, w: Sse, set': bv32, clear: bv32)
    requires Loaded(p) && p.spare > 0 && TsSet(p.stock.cr0) && TsSet(set') && !TsSet(clear) && b != p.stock.current
    ensures var t := p.stock.current;
            var es := LosingRun(t, b, a, w, set', clear);
            Run(p, es).stock.current == t && LastLeft(p.stock, es, t) == w
            && HoldsArea(Run(p, es)) && Seen(Run(p, es)) == a
  {
    var t := p.stock.current;
    var e1 := [] + [SseInstr(a)];
    var e2 := e1 + [Switch(b, set')];
    var e3 := e2 + [Switch(t, clear)];
    Appended(p, [], SseInstr(a));
    Appended(p, e1, Switch(b, set'));
    Appended(p, e2, Switch(t, clear));
    var e4 := e3 + [SseInstr(w)];
    var e5 := e4 + [Switch(b, set')];
    Appended(p, e3, SseInstr(w));
    Appended(p, e4, Switch(b, set'));
    Appended(p, e5, Switch(t, set'));
    assert LastLeft(p.stock, e4, t) == w;
    assert LastLeft(p.stock, e5, t) == w;
    assert LastGuarded(p.stock, e2, t) == a;
    assert LastGuarded(p.stock, e4, t) == LastGuarded(p.stock, e3, t) == a;
    assert LastGuarded(p.stock, e5, t) == a;
    assert e5 + [Switch(t, set')] == LosingRun(t, b, a, w, set', clear);
    SeenIsLastGuarded(p, e5 + [Switch(t, set')]);
  }

  /** A traps and leaves w; B traps and leaves v; A comes back with TS clear. */
  function OverwritingRun(t: Thread, b: Thread, w: Sse, v: Sse, set': bv32, clear: bv32): seq<Event> {
    [SseInstr(w), Switch(b, set'), SseInstr(v), Switch(t, clear)]
  }

  /** The other way to lose a value, one that was left under guard by a thread with an area: A finds v. */
  lemma Overwritten(p: Proto, b: Thread, w: Sse, v: Sse, set': bv32, clear: bv32)
    requires Loaded(p) && p.spare > 0 && TsSet(p.stock.cr0) && TsSet(set') && !TsSet(clear) && b != p.stock.current
    ensures var t := p.stock.current;
            var es := OverwritingRun(t, b, w, v, set', clear);
            Run(p, es).stock.current == t && HoldsArea(Run(p, es)) && TrapsFirst(p.stock, es, t)
            && LastLeft(p.stock, es, t) == LastGuarded(p.stock, es, t) == w && Seen(Run(p, es)) == v
  {
    var t := p.stock.current;
    var e1 := [] + [SseInstr(w)];
    var e2 := e1 + [Switch(b, set')];
    var e3 := e2 + [SseInstr(v)];
    var e4 := e3 + [Switch(t, clear)];
    Appended(p, [], SseInstr(w));
    Appended(p, e1, Switch(b, set'));
    Appended(p, e2, SseInstr(v));
    Appended(p, e3, Switch(t, clear));
    assert LastGuarded(p.stock, e2, t) == LastLeft(p.stock, e2, t) == w;
    assert LastGuarded(p.stock, e3, t) == LastLeft(p.stock, e3, t) == w;
    assert TrapsFirst(p.stock, [], t) && TrapsFirst(p.stock, e1, t) && TrapsFirst(p.stock, e2, t);
    assert Resident(p.stock, p.live, p.spare, e3) == v;
    SeenIsFinds(p, e4);
    assert e4 == OverwritingRun(t, b, w, v, set', clear);
  }

  /** What one step lets t's area and the live registers hold, own being what t has had before it. */
  lemma StepConfines(p: Proto, e: Event, t: Thread, own: set<Sse>)
    requires CLEAN in own && (t in p.save ==> p.save[t] in own)
    requires p.owned && p.stock.current == t ==> p.live in own
    ensures var q := Step(p, e);
            && (t in q.save ==> q.save[t] in own)
            && (p.stock.current == t && Traps(p.stock, e) ==> Ready(p).live in own)
            && (q.live == if e.SseInstr? then e.left else if Traps(p.stock, e) then Ready(p).live else p.live)
            && (q.owned ==> q.stock.current == p.stock.current && (p.owned || Traps(p.stock, e)))
  {
  }

  /**
   Confinement: if only the latest #NM taker runs with TS clear, every thread, with or without
   an area, only ever sees states of its own or the defaults.
   */
  lemma {:induction false} ConfinementInvariant(p: Proto, es: seq<Event>, t: Thread)
    requires Loaded(p) && OnlyTrapperRunsClear(p.stock, es)
    ensures var r := Run(p, es);
            && (t in r.save ==> r.save[t] in Own(p.stock, es, t))
            && (LastTrapper(p.stock, es) == Some(t) ==> r.live in Own(p.stock, es, t))
            && (r.owned ==> LastTrapper(p.stock, es) == Some(r.stock.current))
  {
    LastLeftIsOwn(p.stock, es, t);
    if es != [] {
      var before := Init(es);
      ConfinementInvariant(p, before, t);
      RunStock(p, before);
      LastLeftIsOwn(p.stock, before, t);
      StepConfines(Run(p, before), Last(es), t, Own(p.stock, before, t));
      hide Step, Trap, Swap, Ready;
    }
  }

  /** For any TS policy: areas, and the live registers in a trapped slice, only ever hold that thread's own states. */
  lemma {:induction false} AreasAreOwn(p: Proto, es: seq<Event>, t: Thread)
    requires Loaded(p)
    ensures var r := Run(p, es);
            && (t in r.save ==> r.save[t] in Own(p.stock, es, t))
            && (TrappedSlice(p.stock, es) && r.stock.current == t ==> r.live in Own(p.stock, es, t))
  {
    LastLeftIsOwn(p.stock, es, t);
    if es != [] {
      var before := Init(es);
      AreasAreOwn(p, before, t);
      RunStock(p, before);
      Ownership(p, before);
      LastLeftIsOwn(p.stock, before, t);
      StepConfines(Run(p, before), Last(es), t, Own(p.stock, before, t));
      hide Step, Trap, Swap, Ready;
    }
  }

  /** For any TS policy and with or without an area, a guarded SSE instruction finds a state of its thread's own. */
  lemma GuardedSeesOwn(p: Proto, es: seq<Event>)
    requires Loaded(p) && Guarded(p.stock, es)
    ensures Seen(Run(p, es)) in Own(p.stock, es, Run(p, es).stock.current)
  {
    var t := Run(p, es).stock.current;
    AreasAreOwn(p, es, t);
    Ownership(p, es);
    LastLeftIsOwn(p.stock, es, t);
    RunStock(p, es);
    StepLive(Run(p, es), SseInstr(CLEAN));
  }

  /** Confinement: if only the latest #NM taker runs with TS clear, no thread ever sees another thread's state. */
  lemma Confinement(p: Proto, es: seq<Event>)
    requires Loaded(p) && OnlyTrapperRunsClear(p.stock, es)
    ensures Seen(Run(p, es)) in Own(p.stock, es, Run(p, es).stock.current)
  {
    RunStock(p, es);
    if Guarded(p.stock, es) {
      GuardedSeesOwn(p, es);
    } else {
      ConfinementInvariant(p, es, Run(p, es).stock.current);
    }
  }

  /**
   The exact condition for confinement, after every history: the current thread finds a state of its
   own iff it has a #NM to take or has taken one in this slice, or what was last left in the
   registers happens to be such a state.
   */
  lemma ConfinedIff(p: Proto, es: seq<Event>)
    requires Loaded(p)
    ensures var t := Run(p, es).stock.current;
            Seen(Run(p, es)) in Own(p.stock, es, t) <==>
            Guarded(p.stock, es) || Resident(p.stock, p.live, p.spare, es) in Own(p.stock, es, t)
  {
    if Guarded(p.stock, es) {
      GuardedSeesOwn(p, es);
    } else {
      SeenIsFinds(p, es);
    }
  }

  /** In particular: the thread switched in behind one that has left w sees its own iff TS is set or w is its own. */
  lemma ConfinedIffTsSet(p: Proto, es: seq<Event>, w: Sse, next: Thread, cr0: bv32)
    requires Loaded(p)
    ensures var es' := es + [SseInstr(w)] + [Switch(next, cr0)];
            Seen(Run(p, es')) in Own(p.stock, es', next) <==> TsSet(cr0) || w in Own(p.stock, es', next)
  {
    var left := es + [SseInstr(w)];
    var es' := left + [Switch(next, cr0)];
    Appended(p, es, SseInstr(w));
    Appended(p, left, Switch(next, cr0));
    assert Resident(p.stock, p.live, p.spare, left) == w;
    ConfinedIff(p, es');
    RunStock(p, es');
  }
}
