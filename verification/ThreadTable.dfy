/**
 The thread-to-buffer table (open addressing, linear probing) and the free list
 beside it, as values. SaveAreas implements these functions on the heap.
 */
module ThreadTable {
  import opened Bytes
  import opened Schedule

  const MAX_THREADS: nat := 512
  const PREFILL_BUFFERS: nat := 64

  /** thread == 0 is NULL: the slot is empty. */
  datatype Slot<+B> = Slot(thread: u32, buffer: Option<B>)

  datatype Layer<+B> = Layer(table: seq<Slot<B>>, free: seq<B>)

  function Hash(t: Thread): (h: nat)
    ensures h < MAX_THREADS
  {
    t / 16 % MAX_THREADS
  }

  /**
   KTHREADs are 16-byte aligned, so the low four bits are dropped: the sixteen addresses of one
   paragraph share a slot, paragraphs less than 8 KB apart do not, those 8 KB apart do again.
   */
  lemma HashSpreads(t: Thread, u: Thread)
    ensures t / 16 == u / 16 ==> Hash(t) == Hash(u)
    ensures 0 < u / 16 - t / 16 < 512 ==> Hash(t) != Hash(u)
    ensures u / 16 == t / 16 + 512 ==> Hash(t) == Hash(u)
    ensures t < 0x2000 ==> 16 * Hash(t) <= t < 16 * Hash(t) + 16
  {
  }

  /** The slot that probe number i looks at. */
  function ProbeSlot(t: Thread, i: nat): (idx: nat)
    requires i < MAX_THREADS
    ensures idx < MAX_THREADS
  {
    if Hash(t) + i < MAX_THREADS then Hash(t) + i else Hash(t) + i - MAX_THREADS
  }

  lemma ProbeWraps(t: Thread, i: nat)
    requires i < MAX_THREADS
    ensures (Hash(t) + i) % MAX_THREADS == ProbeSlot(t, i)
  {
  }

  /** The probe number that looks at slot idx. */
  function Distance(t: Thread, idx: nat): (d: nat)
    requires idx < MAX_THREADS
    ensures d < MAX_THREADS && ProbeSlot(t, d) == idx
    ensures forall i: nat | i < MAX_THREADS && ProbeSlot(t, i) == idx :: i == d
  {
    if Hash(t) <= idx then idx - Hash(t) else idx - Hash(t) + MAX_THREADS
  }

  /** The first probe from i on that finds t or an empty slot; MAX_THREADS if there is none. */
  function Stop<B>(table: seq<Slot<B>>, t: Thread, i: nat): (d: nat)
    requires |table| == MAX_THREADS && i <= MAX_THREADS
    ensures i <= d <= MAX_THREADS
    ensures d < MAX_THREADS ==> table[ProbeSlot(t, d)].thread == t || table[ProbeSlot(t, d)].thread == 0
    ensures forall j :: i <= j < d ==> table[ProbeSlot(t, j)].thread != t && table[ProbeSlot(t, j)].thread != 0
    decreases MAX_THREADS - i
  {
    if i == MAX_THREADS || table[ProbeSlot(t, i)].thread == t || table[ProbeSlot(t, i)].thread == 0 then i
    else Stop(table, t, i + 1)
  }

  /** Both lookup routines, from probe i on: the new layer and the buffer found or assigned. */
  function Probe<B>(l: Layer<B>, t: Thread, i: nat): (Layer<B>, Option<B>)
    requires |l.table| == MAX_THREADS && i <= MAX_THREADS
    decreases MAX_THREADS - i
  {
    if i == MAX_THREADS then (l, None)
    else
      var idx := ProbeSlot(t, i);
      if l.table[idx].thread == t then (l, l.table[idx].buffer)
      else if l.table[idx].thread != 0 then Probe(l, t, i + 1)
      else if l.free == [] then (l, None)
      else (Layer(l.table[idx := Slot(t, Some(l.free[0]))], l.free[1..]), Some(l.free[0]))
  }

  function LookupOrAssign<B>(l: Layer<B>, t: Thread): (Layer<B>, Option<B>)
    requires |l.table| == MAX_THREADS
  {
    Probe(l, t, 0)
  }

  /** What a probe sequence does, told by where it stops. */
  lemma {:induction false} ProbeStops<B>(l: Layer<B>, t: Thread, i: nat)
    requires |l.table| == MAX_THREADS && i <= MAX_THREADS
    ensures var d := Stop(l.table, t, i);
            Probe(l, t, i) ==
              if d == MAX_THREADS then (l, None)
              else if l.table[ProbeSlot(t, d)].thread == t then (l, l.table[ProbeSlot(t, d)].buffer)
              else if l.free == [] then (l, None)
              else (Layer(l.table[ProbeSlot(t, d) := Slot(t, Some(l.free[0]))], l.free[1..]), Some(l.free[0]))
    decreases MAX_THREADS - i
  {
    if i < MAX_THREADS && l.table[ProbeSlot(t, i)].thread != t && l.table[ProbeSlot(t, i)].thread != 0 {
      ProbeStops(l, t, i + 1);
    }
  }

  /** TableRelease: the slot is emptied where it stands, with no tombstone. */
  function Release<B>(l: Layer<B>, t: Thread): Layer<B>
    requires |l.table| == MAX_THREADS
  {
    var d := Stop(l.table, t, 0);
    if d == MAX_THREADS || l.table[ProbeSlot(t, d)].thread != t then l
    else
      var slot := l.table[ProbeSlot(t, d)];
      Layer(l.table[ProbeSlot(t, d) := Slot(0, None)],
            if slot.buffer.Some? then [slot.buffer.value] + l.free else l.free)
  }

  // ---- what the slots mean, without probing ----

  predicate UniqueKeys<B>(table: seq<Slot<B>>) {
    forall i, j :: 0 <= i < j < |table| && table[i].thread != 0 ==> table[i].thread != table[j].thread
  }

  predicate Paired<B>(table: seq<Slot<B>>) {
    forall i :: 0 <= i < |table| ==> (table[i].thread == 0 <==> table[i].buffer.None?)
  }

  /** The map the slots spell out, whatever their order. */
  function MapOf<B>(table: seq<Slot<B>>): map<Thread, B> {
    if table == [] then map[]
    else
      var m, slot := MapOf(table[..|table| - 1]), table[|table| - 1];
      if slot.thread != 0 && slot.buffer.Some? then m[slot.thread := slot.buffer.value] else m
  }

  function Occupied<B>(table: seq<Slot<B>>): nat {
    if table == [] then 0
    else Occupied(table[..|table| - 1]) + if table[|table| - 1].thread != 0 then 1 else 0
  }

  /** Probe number j of t comes before the probe that looks at slot idx, and lands on an occupied slot. */
  predicate PathOccupied<B>(table: seq<Slot<B>>, idx: nat)
    requires |table| == MAX_THREADS && idx < MAX_THREADS && table[idx].thread != 0
  {
    forall j: nat :: j < Distance(table[idx].thread, idx) ==> table[ProbeSlot(table[idx].thread, j)].thread != 0
  }

  /** Every key is reachable from its hash slot with no empty slot before it. */
  predicate Chained<B>(table: seq<Slot<B>>)
    requires |table| == MAX_THREADS
  {
    forall i :: 0 <= i < MAX_THREADS && table[i].thread != 0 ==> PathOccupied(table, i)
  }

  predicate TableInv<B>(table: seq<Slot<B>>) {
    |table| == MAX_THREADS && UniqueKeys(table) && Paired(table) && Chained(table)
  }

  predicate Distinct<B(==)>(s: seq<B>) {
    forall i, j :: 0 <= i < j < |s| ==> s[i] != s[j]
  }

  ghost predicate InTable<B>(table: seq<Slot<B>>, b: B) {
    exists i :: 0 <= i < |table| && table[i].buffer == Some(b)
  }

  /** No buffer stands in two slots. */
  ghost predicate UniqueBuffers<B>(table: seq<Slot<B>>) {
    forall i, j :: 0 <= i < j < |table| && table[i].buffer.Some? ==> table[i].buffer != table[j].buffer
  }

  /** The buffers of pool are divided between the free list and the occupied slots, each in one place. */
  ghost predicate Partition<B>(l: Layer<B>, pool: set<B>) {
    && Distinct(l.free)
    && UniqueBuffers(l.table)
    && (forall b <- l.free :: b in pool && !InTable(l.table, b))
    && (forall i :: 0 <= i < |l.table| && l.table[i].buffer.Some? ==> l.table[i].buffer.value in pool)
    && (forall b <- pool :: b in l.free || InTable(l.table, b))
  }

  /** What holds of the table and the free list in every reachable state. */
  ghost predicate LayerInv<B>(l: Layer<B>, pool: set<B>) {
    && TableInv(l.table)
    && Partition(l, pool)
    && |l.free| + Occupied(l.table) == |pool| <= PREFILL_BUFFERS
  }

  // ---- counting ----

  lemma {:induction false} OccupiedUpdate<B>(table: seq<Slot<B>>, i: nat, slot: Slot<B>)
    requires i < |table|
    ensures Occupied(table[i := slot]) + (if table[i].thread != 0 then 1 else 0)
         == Occupied(table) + (if slot.thread != 0 then 1 else 0)
  {
    var n := |table| - 1;
    if i == n {
      assert table[i := slot][..n] == table[..n];
    } else {
      assert table[i := slot][..n] == table[..n][i := slot];
      OccupiedUpdate(table[..n], i, slot);
    }
  }

  lemma {:induction false} FullWhenNoneEmpty<B>(table: seq<Slot<B>>)
    requires forall i :: 0 <= i < |table| ==> table[i].thread != 0
    ensures Occupied(table) == |table|
  {
    if table != [] {
      FullWhenNoneEmpty(table[..|table| - 1]);
    }
  }

  lemma {:induction false} NoneOccupied<B>(table: seq<Slot<B>>)
    requires forall i :: 0 <= i < |table| ==> table[i].thread == 0
    ensures Occupied(table) == 0
  {
    if table != [] {
      NoneOccupied(table[..|table| - 1]);
    }
  }

  /** At most 64 of 512 slots are ever occupied, so every probe sequence stops: the "table full" exit is dead. */
  lemma NeverFull<B>(l: Layer<B>, pool: set<B>, t: Thread)
    requires LayerInv(l, pool)
    ensures Occupied(l.table) <= 64 && |l.table| == 512 && Stop(l.table, t, 0) < 512
  {
    if forall i :: 0 <= i < MAX_THREADS ==> l.table[i].thread != 0 {
      FullWhenNoneEmpty(l.table);
    } else {
      var i: nat :| i < MAX_THREADS && l.table[i].thread == 0;
      var d := Distance(t, i);
      assert ProbeSlot(t, d) == i;
    }
  }

  // ---- the table refines a map ----

  ghost predicate HasKey<B>(table: seq<Slot<B>>, k: Thread) {
    exists i :: 0 <= i < |table| && table[i].thread == k
  }

  /** m is the map the slots spell out. */
  ghost predicate Spells<B>(table: seq<Slot<B>>, m: map<Thread, B>) {
    && (forall i :: 0 <= i < |table| && table[i].thread != 0 ==>
          table[i].thread in m && table[i].buffer == Some(m[table[i].thread]))
    && (forall k <- m :: HasKey(table, k))
  }

  lemma {:induction false} MapOfSpells<B>(table: seq<Slot<B>>)
    requires UniqueKeys(table) && Paired(table)
    ensures Spells(table, MapOf(table))
  {
    if table != [] {
      var rest, slot := table[..|table| - 1], table[|table| - 1];
      MapOfSpells(rest);
      forall k <- MapOf(table)
        ensures HasKey(table, k)
      {
        if k != slot.thread {
          var i :| 0 <= i < |rest| && rest[i].thread == k;
          assert table[i].thread == k;
        }
      }
      forall i | 0 <= i < |table| && table[i].thread != 0
        ensures table[i].thread in MapOf(table) && table[i].buffer == Some(MapOf(table)[table[i].thread])
      {
        if i < |rest| {
          assert rest[i] == table[i];
        }
      }
    }
  }

  lemma {:induction false} MapOfEmpty<B>(table: seq<Slot<B>>)
    requires forall i :: 0 <= i < |table| ==> table[i].thread == 0
    ensures MapOf(table) == map[]
  {
    if table != [] {
      MapOfEmpty(table[..|table| - 1]);
    }
  }

  lemma SpellsOnce<B>(table: seq<Slot<B>>, m: map<Thread, B>, m': map<Thread, B>)
    requires Spells(table, m) && Spells(table, m')
    ensures m == m'
  {
    forall k <- m
      ensures k in m' && m'[k] == m[k]
    {
      var i :| 0 <= i < |table| && table[i].thread == k;
    }
    forall k <- m'
      ensures k in m
    {
      var i :| 0 <= i < |table| && table[i].thread == k;
    }
  }

  /** Where the probe stops decides membership. */
  lemma StopFinds<B>(table: seq<Slot<B>>, t: Thread)
    requires TableInv(table)
    ensures var d := Stop(table, t, 0);
            && (t in MapOf(table) <==> d < MAX_THREADS && table[ProbeSlot(t, d)].thread == t)
            && (t in MapOf(table) ==> table[ProbeSlot(t, d)].buffer == Some(MapOf(table)[t]))
  {
    var d := Stop(table, t, 0);
    MapOfSpells(table);
    if t in MapOf(table) {
      var i: nat :| i < |table| && table[i].thread == t;
      assert PathOccupied(table, i);
      var e := Distance(t, i);
      assert ProbeSlot(t, e) == i;
      assert d <= e;
    }
  }

  lemma WriteSlotSpells<B>(table: seq<Slot<B>>, p: nat, slot: Slot<B>, m: map<Thread, B>)
    requires p < |table| && UniqueKeys(table) && Paired(table) && (slot.thread == 0 <==> slot.buffer.None?)
    requires Spells(table, m)
    requires slot.thread == 0 || (table[p].thread == 0 && slot.thread !in m)
    ensures UniqueKeys(table[p := slot]) && Paired(table[p := slot])
    ensures Spells(table[p := slot], if slot.thread != 0 then m[slot.thread := slot.buffer.value]
                                     else if table[p].thread != 0 then m - {table[p].thread}
                                     else m)
  {
    var table' := table[p := slot];
    if slot.thread != 0 {
      assert table'[p].thread == slot.thread;
    }
    forall k <- m | k != table[p].thread
      ensures HasKey(table', k)
    {
      var i :| 0 <= i < |table| && table[i].thread == k;
      assert table'[i].thread == k;
    }
  }

  lemma WriteSlotMaps<B>(table: seq<Slot<B>>, p: nat, slot: Slot<B>)
    requires p < |table| && UniqueKeys(table) && Paired(table) && (slot.thread == 0 <==> slot.buffer.None?)
    requires slot.thread == 0 || (table[p].thread == 0 && slot.thread !in MapOf(table))
    ensures var table' := table[p := slot];
            && UniqueKeys(table') && Paired(table')
            && MapOf(table') == if slot.thread != 0 then MapOf(table)[slot.thread := slot.buffer.value]
                                else if table[p].thread != 0 then MapOf(table) - {table[p].thread}
                                else MapOf(table)
  {
    var m := MapOf(table);
    MapOfSpells(table);
    WriteSlotSpells(table, p, slot, m);
    MapOfSpells(table[p := slot]);
    SpellsOnce(table[p := slot], MapOf(table[p := slot]),
                if slot.thread != 0 then m[slot.thread := slot.buffer.value]
                else if table[p].thread != 0 then m - {table[p].thread}
                else m);
  }

  lemma WriteSlotKeepsChains<B>(table: seq<Slot<B>>, t: Thread, d: nat, b: B)
    requires |table| == MAX_THREADS && Chained(table)
    requires d < MAX_THREADS && table[ProbeSlot(t, d)].thread == 0
    requires forall j :: 0 <= j < d ==> table[ProbeSlot(t, j)].thread != 0
    ensures Chained(table[ProbeSlot(t, d) := Slot(t, Some(b))])
  {
    var p := ProbeSlot(t, d);
    var table' := table[p := Slot(t, Some(b))];
    forall i: nat | i < MAX_THREADS && table'[i].thread != 0
      ensures PathOccupied(table', i)
    {
      if i == p {
        assert Distance(t, p) == d;
      } else {
        assert PathOccupied(table, i);
      }
    }
  }

  /** Filling the empty slot at which the probe for an absent key stopped. */
  lemma InsertKeepsTable<B>(table: seq<Slot<B>>, t: Thread, b: B)
    requires TableInv(table) && t !in MapOf(table)
    requires Stop(table, t, 0) < MAX_THREADS
    ensures var table' := table[ProbeSlot(t, Stop(table, t, 0)) := Slot(t, Some(b))];
            TableInv(table') && MapOf(table') == MapOf(table)[t := b]
  {
    var d := Stop(table, t, 0);
    StopFinds(table, t);
    WriteSlotKeepsChains(table, t, d, b);
    WriteSlotMaps(table, ProbeSlot(t, d), Slot(t, Some(b)));
  }

  /**
   Both lookup routines refine a map: a present key yields its buffer and changes nothing; an
   absent one takes the head of the free list and adds exactly that entry, unless the list is
   empty, which is the one way to get NULL.
   */
  lemma LookupRefinesMap<B>(l: Layer<B>, pool: set<B>, t: Thread)
    requires LayerInv(l, pool)
    ensures var (l', r) := LookupOrAssign(l, t);
            && LayerInv(l', pool)
            && (t in MapOf(l.table) ==> l' == l && r == Some(MapOf(l.table)[t]))
            && (t !in MapOf(l.table) && l.free != [] ==>
                  r == Some(l.free[0]) && l'.free == l.free[1..] && MapOf(l'.table) == MapOf(l.table)[t := l.free[0]])
            && (r == None <==> t !in MapOf(l.table) && l.free == [])
            && (r == None ==> l' == l)
  {
    NeverFull(l, pool, t);
    StopFinds(l.table, t);
    ProbeStops(l, t, 0);
    if t !in MapOf(l.table) && l.free != [] {
      InsertKeepsTable(l.table, t, l.free[0]);
      InsertKeepsPartition(l, pool, ProbeSlot(t, Stop(l.table, t, 0)), t);
    }
  }

  lemma InsertKeepsPartition<B>(l: Layer<B>, pool: set<B>, p: nat, t: Thread)
    requires LayerInv(l, pool) && p < MAX_THREADS && l.table[p].thread == 0 && l.free != []
    ensures var l' := Layer(l.table[p := Slot(t, Some(l.free[0]))], l.free[1..]);
            Partition(l', pool) && |l'.free| + Occupied(l'.table) == |pool|
  {
    OccupiedUpdate(l.table, p, Slot(t, Some(l.free[0])));
    InsertLosesNone(l, pool, p, t);
    InsertSharesNone(l, pool, p, t);
    hide InTable;
  }

  /** Every buffer is still on the list or in the table. */
  lemma InsertLosesNone<B>(l: Layer<B>, pool: set<B>, p: nat, t: Thread)
    requires Partition(l, pool) && p < |l.table| && l.table[p].buffer == None && l.free != []
    ensures forall x <- pool :: x in l.free[1..] || InTable(l.table[p := Slot(t, Some(l.free[0]))], x)
  {
    var table' := l.table[p := Slot(t, Some(l.free[0]))];
    assert InTable(table', l.free[0]) by { assert table'[p].buffer == Some(l.free[0]); }
    forall x <- pool
      ensures x in l.free[1..] || InTable(table', x)
    {
      if InTable(l.table, x) {
        var i :| 0 <= i < |l.table| && l.table[i].buffer == Some(x);
        assert table'[i].buffer == Some(x);
      } else if x != l.free[0] {
        var i :| 0 <= i < |l.free| && l.free[i] == x;
        assert l.free[1..][i - 1] == x;
      }
    }
  }

  /** And none is on both. */
  lemma InsertSharesNone<B>(l: Layer<B>, pool: set<B>, p: nat, t: Thread)
    requires Partition(l, pool) && p < |l.table| && l.table[p].buffer == None && l.free != []
    ensures forall x <- l.free[1..] :: x in pool && !InTable(l.table[p := Slot(t, Some(l.free[0]))], x)
    ensures UniqueBuffers(l.table[p := Slot(t, Some(l.free[0]))])
  {
    assert !InTable(l.table, l.free[0]);
    forall x <- l.free[1..]
      ensures x in pool && !InTable(l.table[p := Slot(t, Some(l.free[0]))], x)
    {
      assert x in l.free && !InTable(l.table, x);
      var i :| 0 <= i < |l.free[1..]| && l.free[1..][i] == x;
      assert l.free[0] != l.free[i + 1];
    }
  }

  /** A buffer nobody has yet joins the free list. */
  lemma MoreSpare<B>(l: Layer<B>, pool: set<B>, b: B)
    requires LayerInv(l, pool) && |pool| < PREFILL_BUFFERS && b !in pool
    ensures LayerInv(Layer(l.table, [b] + l.free), pool + {b})
  {
    var free := [b] + l.free;
    assert free[1..] == l.free;
    assert forall x <- free :: x == b || x in l.free;
    forall x <- pool + {b}
      ensures x in free || InTable(l.table, x)
    {
      assert free[0] == b;
      assert forall y <- l.free :: y in free[1..];
    }
  }

  // ---- release ----

  /** The probe path of the key in slot q runs through slot p. */
  predicate RunsThrough<B>(table: seq<Slot<B>>, q: nat, p: nat)
    requires q < MAX_THREADS && p < MAX_THREADS && |table| == MAX_THREADS && table[q].thread != 0
  {
    Distance(table[q].thread, p) < Distance(table[q].thread, q)
  }

  /** The slot that holds t. */
  function SlotOf<B>(table: seq<Slot<B>>, t: Thread): (p: nat)
    requires TableInv(table) && t in MapOf(table)
    ensures p < MAX_THREADS && table[p].thread == t
  {
    StopFinds(table, t);
    ProbeSlot(t, Stop(table, t, 0))
  }

  /** No other key's probe path runs through the slot that holds t. */
  predicate Removable<B>(table: seq<Slot<B>>, t: Thread)
    requires TableInv(table) && t in MapOf(table)
  {
    var p := SlotOf(table, t);
    forall q: nat :: q < MAX_THREADS && table[q].thread != 0 && q != p ==> !RunsThrough(table, q, p)
  }

  /** Releasing a thread that has no entry changes nothing. */
  lemma ReleaseAbsent<B>(l: Layer<B>, t: Thread)
    requires TableInv(l.table) && t !in MapOf(l.table)
    ensures Release(l, t) == l
  {
    StopFinds(l.table, t);
  }

  lemma ReleaseClears<B>(l: Layer<B>, t: Thread)
    requires TableInv(l.table) && t in MapOf(l.table)
    ensures Release(l, t) == Layer(l.table[SlotOf(l.table, t) := Slot(0, None)], [MapOf(l.table)[t]] + l.free)
  {
    StopFinds(l.table, t);
  }

  /** The entry is always gone and the buffer always back at the head of the list. */
  lemma ReleaseFreesBuffer<B>(l: Layer<B>, pool: set<B>, t: Thread)
    requires LayerInv(l, pool) && t in MapOf(l.table)
    ensures var l' := Release(l, t);
            && l'.free == [MapOf(l.table)[t]] + l.free
            && UniqueKeys(l'.table) && Paired(l'.table)
            && MapOf(l'.table) == MapOf(l.table) - {t}
            && Partition(l', pool) && |l'.free| + Occupied(l'.table) == |pool|
  {
    var p, b := SlotOf(l.table, t), MapOf(l.table)[t];
    ReleaseClears(l, t);
    WriteSlotMaps(l.table, p, Slot(0, None));
    StopFinds(l.table, t);
    OccupiedUpdate(l.table, p, Slot(0, None));
    ClearKeepsPartition(l, pool, p);
  }

  lemma ClearKeepsPartition<B>(l: Layer<B>, pool: set<B>, p: nat)
    requires Partition(l, pool) && p < |l.table| && l.table[p].buffer.Some?
    ensures Partition(Layer(l.table[p := Slot(0, None)], [l.table[p].buffer.value] + l.free), pool)
  {
    var b := l.table[p].buffer.value;
    var l' := Layer(l.table[p := Slot(0, None)], [b] + l.free);
    assert InTable(l.table, b);
    assert !InTable(l'.table, b);
    forall x <- pool
      ensures x in l'.free || InTable(l'.table, x)
    {
      if x in l.free {
        var i :| 0 <= i < |l.free| && l.free[i] == x;
        assert l'.free[i + 1] == x;
      } else if x != b {
        var i :| 0 <= i < |l.table| && l.table[i].buffer == Some(x);
        assert l'.table[i].buffer == Some(x);
      } else {
        assert l'.free[0] == x;
      }
    }
  }

  lemma ClearPath<B>(table: seq<Slot<B>>, p: nat, q: nat)
    requires |table| == MAX_THREADS && p < MAX_THREADS && q < MAX_THREADS && q != p
    requires table[q].thread != 0 && PathOccupied(table, q)
    ensures PathOccupied(table[p := Slot(0, None)], q) <==> !RunsThrough(table, q, p)
  {
    var k: Thread := table[q].thread;
    var table' := table[p := Slot(0, None)];
    if RunsThrough(table, q, p) {
      var j := Distance(k, p);
      assert ProbeSlot(k, j) == p && table'[ProbeSlot(k, j)].thread == 0;
      assert table'[q].thread == k && j < Distance(table'[q].thread, q);
    } else {
      forall j: nat | j < Distance(k, q)
        ensures table'[ProbeSlot(k, j)].thread != 0
      {
        assert Distance(k, ProbeSlot(k, j)) == j;
      }
    }
  }

  /**
   Clearing the slot with no tombstone is right exactly when the key is removable: only then does
   the probe invariant survive.
   */
  lemma ReleaseKeepsChainsIff<B>(l: Layer<B>, pool: set<B>, t: Thread)
    requires LayerInv(l, pool) && t in MapOf(l.table)
    ensures LayerInv(Release(l, t), pool) <==> Removable(l.table, t)
  {
    ReleaseFreesBuffer(l, pool, t);
    ReleaseClears(l, t);
    var p := SlotOf(l.table, t);
    var table' := Release(l, t).table;
    forall q: nat | q < MAX_THREADS && l.table[q].thread != 0 && q != p
      ensures PathOccupied(table', q) <==> !RunsThrough(l.table, q, p)
    {
      assert PathOccupied(l.table, q);
      ClearPath(l.table, p, q);
    }
  }

  /** A hole at probe e, met before any slot that holds k, is where the lookup of k puts a new entry. */
  lemma {:induction false} AssignsAtHole<B>(l: Layer<B>, k: Thread, e: nat, i: nat)
    requires |l.table| == MAX_THREADS && i <= e < MAX_THREADS && l.free != []
    requires l.table[ProbeSlot(k, e)].thread == 0
    requires forall j :: i <= j < e ==> l.table[ProbeSlot(k, j)].thread != 0 && l.table[ProbeSlot(k, j)].thread != k
    ensures Probe(l, k, i) ==
              (Layer(l.table[ProbeSlot(k, e) := Slot(k, Some(l.free[0]))], l.free[1..]), Some(l.free[0]))
    decreases e - i
  {
    if i < e {
      AssignsAtHole(l, k, e, i + 1);
    }
  }

  /** Up to the freed slot, the probe path of a key behind it is as it was. */
  lemma PathBefore<B>(table: seq<Slot<B>>, q: nat, p: nat, j: nat)
    requires |table| == MAX_THREADS && UniqueKeys(table) && q < MAX_THREADS && p < MAX_THREADS && q != p
    requires table[q].thread != 0 && PathOccupied(table, q) && RunsThrough(table, q, p)
    requires j < Distance(table[q].thread, p)
    ensures var k: Thread := table[q].thread;
            var slot := table[p := Slot(0, None)][ProbeSlot(k, j)];
            slot.thread != 0 && slot.thread != k
  {
    var k: Thread := table[q].thread;
    assert Distance(k, ProbeSlot(k, j)) == j;
    assert ProbeSlot(k, j) != q && ProbeSlot(k, j) != p;
  }

  /**
   What goes wrong otherwise: a key whose path ran through the freed slot is still in the table,
   but the next lookup stops at the hole and gives its thread a second buffer.
   */
  lemma ReleaseLosesKeysBehind<B>(l: Layer<B>, pool: set<B>, t: Thread, q: nat)
    requires LayerInv(l, pool) && t in MapOf(l.table)
    requires q < MAX_THREADS && l.table[q].thread != 0 && q != SlotOf(l.table, t)
    requires RunsThrough(l.table, q, SlotOf(l.table, t))
    ensures var l' := Release(l, t);
            var (l'', r) := LookupOrAssign(l', l.table[q].thread);
            l'.table[q] == l.table[q] && r == Some(l'.free[0]) && r != l.table[q].buffer && !UniqueKeys(l''.table)
  {
    var p, k: Thread := SlotOf(l.table, t), l.table[q].thread;
    var e := Distance(k, p);
    var l' := Release(l, t);
    ReleaseClears(l, t);
    assert PathOccupied(l.table, q);
    forall j: nat | j < e
      ensures l'.table[ProbeSlot(k, j)].thread != 0 && l'.table[ProbeSlot(k, j)].thread != k
    {
      PathBefore(l.table, q, p, j);
    }
    AssignsAtHole(l', k, e, 0);
    StopFinds(l.table, t);
    assert l.table[p].buffer != l.table[q].buffer;
    var l'' := LookupOrAssign(l', k).0;
    assert l''.table[p].thread == k && l''.table[q].thread == k;
  }

  /** Thread k's next lookup still finds the buffer it has. */
  predicate StillFinds<B(==)>(l: Layer<B>, k: Thread, b: B)
    requires |l.table| == MAX_THREADS
  {
    LookupOrAssign(l, k) == (l, Some(b))
  }

  lemma RemovableKeepsFinding<B>(l: Layer<B>, pool: set<B>, t: Thread, k: Thread)
    requires LayerInv(l, pool) && t in MapOf(l.table) && Removable(l.table, t)
    requires k in MapOf(l.table) && k != t
    ensures StillFinds(Release(l, t), k, MapOf(l.table)[k])
  {
    assert TableInv(l.table);
    ReleaseClears(l, t);
    assert |Release(l, t).table| == MAX_THREADS;
    hide LayerInv, Release, Removable;
    ReleaseFreesBuffer(l, pool, t);
    ReleaseKeepsChainsIff(l, pool, t);
    LookupRefinesMap(Release(l, t), pool, k);
  }

  /** Some other thread's path runs through the slot of t, and that thread's next lookup goes wrong. */
  lemma UnremovableLoses<B>(l: Layer<B>, pool: set<B>, t: Thread) returns (k: Thread)
    requires LayerInv(l, pool) && t in MapOf(l.table) && !Removable(l.table, t)
    ensures k in MapOf(l.table) && k != t && !StillFinds(Release(l, t), k, MapOf(l.table)[k])
  {
    var p := SlotOf(l.table, t);
    var q: nat :| q < MAX_THREADS && l.table[q].thread != 0 && q != p && RunsThrough(l.table, q, p);
    k := l.table[q].thread;
    MapOfSpells(l.table);
    hide LookupOrAssign, Release, Partition, Chained, RunsThrough;
    ReleaseLosesKeysBehind(l, pool, t, q);
  }

  /** After a TableRelease all other threads keep finding their buffers if and only if the key was removable. */
  lemma ReleaseSafeIff<B>(l: Layer<B>, pool: set<B>, t: Thread)
    requires LayerInv(l, pool) && t in MapOf(l.table)
    ensures (forall k <- MapOf(l.table) | k != t :: StillFinds(Release(l, t), k, MapOf(l.table)[k]))
            <==> Removable(l.table, t)
  {
    assert TableInv(l.table);
    ReleaseClears(l, t);
    assert |Release(l, t).table| == MAX_THREADS;
    hide LayerInv, LookupOrAssign, Release, Removable, StillFinds;
    if Removable(l.table, t) {
      forall k <- MapOf(l.table) | k != t
        ensures StillFinds(Release(l, t), k, MapOf(l.table)[k])
      {
        RemovableKeepsFinding(l, pool, t, k);
      }
    } else {
      var k := UnremovableLoses(l, pool, t);
    }
  }

  /**
   Such keys occur: of two threads with one hash slot, the first to be looked up becomes
   unremovable with the second, and then the second no longer finds its buffer.
   */
  lemma CollisionUnremovable<B>(l: Layer<B>, pool: set<B>, t: Thread, u: Thread)
    requires LayerInv(l, pool) && |l.free| >= 2 && t != u && Hash(t) == Hash(u)
    requires forall i :: 0 <= i < MAX_THREADS ==> l.table[i] == Slot(0, None)
    ensures var l2 := LookupOrAssign(LookupOrAssign(l, t).0, u).0;
            && LayerInv(l2, pool) && t in MapOf(l2.table) && !Removable(l2.table, t)
            && u in MapOf(l2.table) && !StillFinds(Release(l2, t), u, MapOf(l2.table)[u])
  {
    var l1 := LookupOrAssign(l, t).0;
    var l2 := LookupOrAssign(l1, u).0;
    var p, q := ProbeSlot(t, 0), ProbeSlot(u, 1);
    MapOfEmpty(l.table);
    LookupRefinesMap(l, pool, t);
    LookupRefinesMap(l1, pool, u);
    assert l1.table == l.table[p := Slot(t, Some(l.free[0]))];
    assert l2.table == l1.table[q := Slot(u, Some(l1.free[0]))];
    assert SlotOf(l2.table, t) == p;
    assert Distance(u, p) == 0 && Distance(u, q) == 1;
    assert RunsThrough(l2.table, q, p);
    hide LookupOrAssign, Release, Partition, Chained;
    ReleaseLosesKeysBehind(l2, pool, t, q);
  }

  /** The load-time self-test: assign, look up, release, assign, release. */
  lemma SelfTestRestores<B>(l: Layer<B>, pool: set<B>, t: Thread)
    requires LayerInv(l, pool) && l.free != []
    requires forall i :: 0 <= i < MAX_THREADS ==> l.table[i] == Slot(0, None)
    ensures var (l1, a) := LookupOrAssign(l, t);
            var (l2, b) := LookupOrAssign(l1, t);
            a == b == Some(l.free[0]) && l2 == l1 && Release(l2, t) == l
  {
    var (l1, a) := LookupOrAssign(l, t);
    LookupRefinesMap(l, pool, t);
    assert t !in MapOf(l.table);
    assert t in MapOf(l1.table);
    LookupRefinesMap(l1, pool, t);
    ReleaseClears(l1, t);
    assert Release(l1, t).table == l.table;
    assert [l.free[0]] + l.free[1..] == l.free;
  }
}
