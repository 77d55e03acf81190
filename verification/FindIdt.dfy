/** findidt.py: the two-format IDT record decoder and the scanner for runs of records. */
module FindIdt {
  import opened Bytes

  const RECORD: nat := 8
  const R0_CODE: u16 := 0x0008
  const ACCESS_OK: set<nat> := {0x8e00, 0xee00, 0x8f00, 0xef00, 0x8500, 0xe500}

  datatype Section = Section(name: string, vaddr: u32, vsize: u32, raddr: u32, rsize: u32, chars: u32)
  datatype Range = Range(lo: nat, hi: nat, name: string)
  datatype Record = Empty | Gate(va: nat, access: nat)

  function Max(a: nat, b: nat): nat {
    if a < b then b else a
  }

  /** IMAGE_SCN_MEM_EXECUTE is set. */
  predicate Executable(s: Section) {
    s.chars / 0x2000_0000 % 2 == 1
  }

  function RangeOf(s: Section, imageBase: u32): Range {
    Range(imageBase + s.vaddr, imageBase + s.vaddr + Max(s.vsize, s.rsize), s.name)
  }

  function CodeRanges(sections: seq<Section>, imageBase: u32): seq<Range> {
    if sections == [] then []
    else
      var s := sections[|sections| - 1];
      CodeRanges(sections[..|sections| - 1], imageBase)
      + if Executable(s) && s.rsize != 0 then [RangeOf(s, imageBase)] else []
  }

  predicate InCode(ranges: seq<Range>, va: nat) {
    exists i :: 0 <= i < |ranges| && ranges[i].lo <= va < ranges[i].hi
  }

  /** Bit 29 of the characteristics. */
  lemma ExecutableIff(s: Section, high: nat, low: nat)
    requires low < 0x4000_0000 && s.chars == 0x4000_0000 * high + low
    ensures Executable(s) <==> low >= 0x2000_0000
  {
  }

  /** va lies in s as it is loaded at imageBase, where raw data and zero fill both count. */
  predicate Loads(s: Section, imageBase: u32, va: nat) {
    imageBase + s.vaddr <= va && (va < imageBase + s.vaddr + s.vsize || va < imageBase + s.vaddr + s.rsize)
  }

  /** The code ranges hold exactly the addresses of executable sections with raw data. */
  lemma {:induction false} InCodeIff(sections: seq<Section>, imageBase: u32, va: nat)
    ensures InCode(CodeRanges(sections, imageBase), va) <==>
              exists s <- sections :: Executable(s) && s.rsize != 0 && Loads(s, imageBase, va)
  {
    if sections != [] {
      var before, s := sections[..|sections| - 1], sections[|sections| - 1];
      InCodeIff(before, imageBase, va);
      assert sections == before + [s];
      InCodeAppended(CodeRanges(before, imageBase), RangeOf(s, imageBase), va);
    }
  }

  lemma InCodeAppended(ranges: seq<Range>, r: Range, va: nat)
    ensures InCode(ranges + [r], va) <==> InCode(ranges, va) || r.lo <= va < r.hi
  {
    var all := ranges + [r];
    if InCode(ranges, va) {
      var i :| 0 <= i < |ranges| && ranges[i].lo <= va < ranges[i].hi;
      assert all[i].lo <= va < all[i].hi;
    }
    if r.lo <= va < r.hi {
      assert all[|ranges|].lo <= va < all[|ranges|].hi;
    }
  }

  // ---- the decoder ----

  /** dd handler / dw access / dw selector, as the kernel image ships it. */
  function Template(b: seq<byte>, ranges: seq<Range>): Option<Record>
    requires |b| == RECORD
  {
    var addr, access, selector := Le32(b[..4]), Le16(b[4..6]), Le16(b[6..8]);
    if selector != R0_CODE then None
    else if addr == 0 && access == 0 then Some(Empty)
    else if access in ACCESS_OK && InCode(ranges, addr) then Some(Gate(addr, access / 0x100))
    else None
  }

  /** The live gate with its two address halves (Intel SDM Vol. 3A, section 6.11). */
  function Swizzled(b: seq<byte>, ranges: seq<Range>): Option<Record>
    requires |b| == RECORD
  {
    var lo, sel, resv, acc, hi := Le16(b[..2]), Le16(b[2..4]), b[4], b[5], Le16(b[6..8]);
    var va: nat := hi as int * 0x1_0000 + lo as int;
    if sel == R0_CODE && resv == 0 && acc as int * 0x100 in ACCESS_OK && InCode(ranges, va) then Some(Gate(va, acc))
    else None
  }

  /** record_at: the template reading is tried first. */
  function RecordAt(blob: seq<byte>, off: nat, ranges: seq<Range>): Option<Record> {
    if off + RECORD > |blob| then None
    else
      var b := blob[off..off + RECORD];
      var t := Template(b, ranges);
      if t.Some? then t else Swizzled(b, ranges)
  }

  function TemplateBytes(va: u32, access: byte): (r: seq<byte>)
    ensures |r| == RECORD
  {
    Bytes32(va) + [0, access, 8, 0]
  }

  function SwizzledBytes(va: u32, access: byte): (r: seq<byte>)
    ensures |r| == RECORD
  {
    Bytes16(va % 0x1_0000) + [8, 0, 0, access] + Bytes16(va / 0x1_0000)
  }

  const EMPTY_BYTES: seq<byte> := [0, 0, 0, 0, 0, 0, 8, 0]

  lemma SplitWords(b: seq<byte>)
    requires |b| == 4
    ensures Le32(b) == Le16(b[2..4]) as int * 0x1_0000 + Le16(b[..2]) as int
  {
  }

  /** Where both readings apply they agree, and an empty template record is never a live gate. */
  lemma ReadingsAgree(b: seq<byte>, ranges: seq<Range>)
    requires |b| == RECORD && Template(b, ranges).Some? && Swizzled(b, ranges).Some?
    ensures Template(b, ranges) == Swizzled(b, ranges)
  {
    SplitWords(b[..4]);
    assert b[..4][2..4] == b[2..4] && b[..4][..2] == b[..2];
  }

  lemma TemplateIff(b: seq<byte>, ranges: seq<Range>, va: u32, access: byte)
    requires |b| == RECORD
    ensures Template(b, ranges) == Some(Gate(va, access)) <==>
              b == TemplateBytes(va, access) && 0x100 * access as int in ACCESS_OK && InCode(ranges, va)
  {
    var t := TemplateBytes(va, access);
    assert t[..4] == Bytes32(va) && t[4..6] == Bytes16(0x100 * access as int) && t[6..8] == Bytes16(R0_CODE);
    Bytes32RoundTrip(va);
    Bytes16RoundTrip(0x100 * access as int);
    Bytes16RoundTrip(R0_CODE);
    if Template(b, ranges) == Some(Gate(va, access)) {
      Bytes32Inverse(b[..4]);
      Bytes16Inverse(b[4..6]);
      Bytes16Inverse(b[6..8]);
      assert b == b[..4] + b[4..6] + b[6..8];
    }
  }

  lemma SwizzledIff(b: seq<byte>, ranges: seq<Range>, va: u32, access: byte)
    requires |b| == RECORD
    ensures Swizzled(b, ranges) == Some(Gate(va, access)) <==>
              b == SwizzledBytes(va, access) && 0x100 * access as int in ACCESS_OK && InCode(ranges, va)
  {
    var t := SwizzledBytes(va, access);
    assert t[..2] == Bytes16(va % 0x1_0000) && t[2..4] == Bytes16(R0_CODE) && t[6..8] == Bytes16(va / 0x1_0000);
    Bytes16RoundTrip(va % 0x1_0000);
    Bytes16RoundTrip(va / 0x1_0000);
    Bytes16RoundTrip(R0_CODE);
    JoinWords(Le16(b[..2]), Le16(b[6..8]));
    JoinWords(va % 0x1_0000, va / 0x1_0000);
    hide InCode, Le16, Bytes16;
    if Swizzled(b, ranges) == Some(Gate(va, access)) {
      Bytes16Inverse(b[..2]);
      Bytes16Inverse(b[2..4]);
      Bytes16Inverse(b[6..8]);
      assert b == b[..2] + b[2..4] + [b[4], b[5]] + b[6..8];
    }
  }

  lemma JoinWords(lo: u16, hi: u16)
    ensures var va := hi as int * 0x1_0000 + lo as int; va % 0x1_0000 == lo && va / 0x1_0000 == hi
  {
  }

  /**
   The decoder reads exactly the two encodings of a gate: 8 bytes decode to (va, access) if and
   only if they are one of the two, the access word is allowed and va lies in code.
   */
  lemma DecodesIff(blob: seq<byte>, off: nat, ranges: seq<Range>, va: u32, access: byte)
    ensures RecordAt(blob, off, ranges) == Some(Gate(va, access)) <==>
              && off + RECORD <= |blob|
              && blob[off..off + RECORD] in {TemplateBytes(va, access), SwizzledBytes(va, access)}
              && access in {0x8e, 0xee, 0x8f, 0xef, 0x85, 0xe5} && InCode(ranges, va)
  {
    assert 0x100 * access as int in ACCESS_OK <==> access in {0x8e, 0xee, 0x8f, 0xef, 0x85, 0xe5};
    if off + RECORD <= |blob| {
      var b := blob[off..off + RECORD];
      TemplateIff(b, ranges, va, access);
      SwizzledIff(b, ranges, va, access);
      if Template(b, ranges).Some? && Swizzled(b, ranges).Some? {
        ReadingsAgree(b, ranges);
      }
    }
  }

  /** And only the zero handler with the zero access word is the empty record. */
  lemma EmptyIff(blob: seq<byte>, off: nat, ranges: seq<Range>)
    ensures RecordAt(blob, off, ranges) == Some(Empty) <==>
              off + RECORD <= |blob| && blob[off..off + RECORD] == EMPTY_BYTES
  {
    if off + RECORD <= |blob| {
      var b := blob[off..off + RECORD];
      assert b == b[..4] + b[4..6] + b[6..8];
      Bytes32Inverse(b[..4]);
      Bytes16Inverse(b[4..6]);
      Bytes16Inverse(b[6..8]);
      assert Bytes32(0) + Bytes16(0) + Bytes16(R0_CODE) == EMPTY_BYTES;
      if b == EMPTY_BYTES {
        assert b[..4] == [0, 0, 0, 0] && b[4..6] == [0, 0] && b[6..8] == [8, 0];
      }
    }
  }

  lemma Bytes16Inverse(b: seq<byte>)
    requires |b| == 2
    ensures Bytes16(Le16(b)) == b
  {
  }

  lemma Bytes32Inverse(b: seq<byte>)
    requires |b| == 4
    ensures Bytes32(Le32(b)) == b
  {
    var x: int, y: int, z: int := Le32(b), Le32([b[1], b[2], b[3], 0]), Le16([b[2], b[3]]);
    assert x == b[0] as int + 0x100 * y && y == b[1] as int + 0x100 * z && z == b[2] as int + 0x100 * b[3] as int;
    assert x / 0x100 == y && y / 0x100 == z && x / 0x1_0000 == z && x / 0x100_0000 == b[3];
  }

  // ---- runs ----

  /** A reported run: where it starts in its section, and its records. */
  datatype Run = Run(off: nat, entries: seq<Record>)

  /** The records that decode one after another from off. */
  function Records(blob: seq<byte>, off: nat, ranges: seq<Range>): (r: seq<Record>)
    ensures off + RECORD * |r| <= Max(off, |blob|)
    decreases |blob| - off
  {
    var r := RecordAt(blob, off, ranges);
    if r.None? then [] else [r.value] + Records(blob, off + RECORD, ranges)
  }

  /** Record k of the table that starts at off. */
  function Entry(blob: seq<byte>, off: nat, ranges: seq<Range>, k: nat): Option<Record> {
    RecordAt(blob, off + 8 * k, ranges)
  }

  /** The records are those 8 bytes apart, and the next one does not decode. */
  lemma {:induction false} RecordsByIndex(blob: seq<byte>, off: nat, ranges: seq<Range>)
    ensures var r := Records(blob, off, ranges);
            && (forall k | 0 <= k < |r| :: Entry(blob, off, ranges, k) == Some(r[k]))
            && Entry(blob, off, ranges, |r|) == None
    decreases |blob| - off
  {
    hide RecordAt;
    var r := Records(blob, off, ranges);
    if RecordAt(blob, off, ranges).Some? && off < |blob| {
      RecordsByIndex(blob, off + 8, ranges);
      forall k | 1 <= k <= |r|
        ensures Entry(blob, off, ranges, k) == Entry(blob, off + 8, ranges, k - 1)
      {
      }
    }
  }

  /** Without the empty records at the end. */
  function Trimmed(entries: seq<Record>): (r: seq<Record>)
    ensures r <= entries
    ensures r != [] ==> r[|r| - 1].Gate?
    ensures forall i :: |r| <= i < |entries| ==> entries[i].Empty?
  {
    if entries != [] && entries[|entries| - 1].Empty? then Trimmed(entries[..|entries| - 1]) else entries
  }

  /** What a run starting at off would be. */
  function EntriesAt(blob: seq<byte>, off: nat, ranges: seq<Range>): seq<Record> {
    Trimmed(Records(blob, off, ranges))
  }

  /**
   n records decode from off on and no more; entries are those up to the last that is not empty.
   */
  ghost predicate WholeRun(blob: seq<byte>, off: nat, ranges: seq<Range>, entries: seq<Record>, n: nat) {
    && |entries| <= n && Entry(blob, off, ranges, n) == None
    && (forall k | 0 <= k < |entries| :: Entry(blob, off, ranges, k) == Some(entries[k]))
    && (forall k | |entries| <= k < n :: Entry(blob, off, ranges, k) == Some(Empty))
    && (entries != [] ==> entries[|entries| - 1].Gate?)
  }

  /** The entries reported at off are the one whole run there. */
  lemma EntriesAtIff(blob: seq<byte>, off: nat, ranges: seq<Range>, entries: seq<Record>)
    ensures entries == EntriesAt(blob, off, ranges) <==> exists n: nat :: WholeRun(blob, off, ranges, entries, n)
  {
    hide Entry, Trimmed, Records;
    var all, trimmed := Records(blob, off, ranges), EntriesAt(blob, off, ranges);
    RecordsByIndex(blob, off, ranges);
    assert WholeRun(blob, off, ranges, trimmed, |all|);
    if n: nat :| WholeRun(blob, off, ranges, entries, n) {
      OneWholeRun(blob, off, ranges, entries, n, trimmed, |all|);
    }
  }

  lemma OneWholeRun(blob: seq<byte>, off: nat, ranges: seq<Range>, a: seq<Record>, m: nat, b: seq<Record>, n: nat)
    requires WholeRun(blob, off, ranges, a, m) && WholeRun(blob, off, ranges, b, n)
    ensures a == b
  {
    hide Entry;
    assert m == n;
    assert |a| == |b|;
    forall k | 0 <= k < |a|
      ensures a[k] == b[k]
    {
      assert Entry(blob, off, ranges, k) == Some(a[k]);
    }
  }

  predicate StartsAtGate(blob: seq<byte>, off: nat, ranges: seq<Range>) {
    var r := RecordAt(blob, off, ranges);
    r.Some? && r.value.Gate?
  }

  /** off starts a run long enough to report. */
  predicate Qualifies(blob: seq<byte>, off: nat, ranges: seq<Range>, minRun: int) {
    StartsAtGate(blob, off, ranges) && |EntriesAt(blob, off, ranges)| >= minRun
  }

  /** A whole run worth reporting. */
  ghost predicate LongRun(blob: seq<byte>, off: nat, ranges: seq<Range>, entries: seq<Record>, n: nat, minRun: int) {
    WholeRun(blob, off, ranges, entries, n) && entries != [] && entries[0].Gate? && |entries| >= minRun
  }

  /** That is: the whole run there starts with a gate and has at least minRun records. */
  lemma QualifiesIff(blob: seq<byte>, off: nat, ranges: seq<Range>, minRun: int)
    ensures Qualifies(blob, off, ranges, minRun) <==>
              exists entries: seq<Record>, n: nat :: LongRun(blob, off, ranges, entries, n, minRun)
  {
    hide RecordAt, Trimmed;
    var es := EntriesAt(blob, off, ranges);
    EntriesAtIff(blob, off, ranges, es);
    if Qualifies(blob, off, ranges, minRun) {
      EntriesStartAtGate(blob, off, ranges);
      var n: nat :| WholeRun(blob, off, ranges, es, n);
      assert LongRun(blob, off, ranges, es, n, minRun);
    }
    if entries: seq<Record>, n: nat :| LongRun(blob, off, ranges, entries, n, minRun) {
      EntriesAtIff(blob, off, ranges, entries);
      assert Entry(blob, off, ranges, 0) == Some(entries[0]);
    }
  }

  lemma EntriesStartAtGate(blob: seq<byte>, off: nat, ranges: seq<Range>)
    requires StartsAtGate(blob, off, ranges)
    ensures var es := EntriesAt(blob, off, ranges);
            es != [] && es[0] == RecordAt(blob, off, ranges).value && off + RECORD * |es| <= |blob|
  {
    var all := Records(blob, off, ranges);
    assert all[0].Gate?;
  }

  /** The greedy scan from off on. */
  function Scan(blob: seq<byte>, off: nat, ranges: seq<Range>, minRun: int): seq<Run>
    decreases |blob| - off
  {
    if off + RECORD > |blob| then []
    else if Qualifies(blob, off, ranges, minRun) then
      EntriesStartAtGate(blob, off, ranges);
      var es := EntriesAt(blob, off, ranges);
      [Run(off, es)] + Scan(blob, off + RECORD * |es|, ranges, minRun)
    else Scan(blob, off + 1, ranges, minRun)
  }

  /** Every reported run is the whole trimmed run at its offset, long enough, and inside the section. */
  predicate Sound(runs: seq<Run>, blob: seq<byte>, from: nat, ranges: seq<Range>, minRun: int) {
    forall k :: 0 <= k < |runs| ==>
      && from <= runs[k].off && Qualifies(blob, runs[k].off, ranges, minRun)
      && runs[k].entries == EntriesAt(blob, runs[k].off, ranges)
  }

  predicate Covers(run: Run, off: nat) {
    run.off <= off < run.off + RECORD * |run.entries|
  }

  /** Runs come in order and share no byte. */
  predicate Disjoint(runs: seq<Run>) {
    forall i, j :: 0 <= i < j < |runs| ==> runs[i].off + RECORD * |runs[i].entries| <= runs[j].off
  }

  ghost predicate Covered(runs: seq<Run>, off: nat) {
    exists k :: 0 <= k < |runs| && Covers(runs[k], off)
  }

  lemma CoveredBy(first: Run, rest: seq<Run>, off: nat)
    ensures Covered([first] + rest, off) <==> Covers(first, off) || Covered(rest, off)
  {
    var runs := [first] + rest;
    if Covers(first, off) {
      assert Covers(runs[0], off);
    }
    if Covered(rest, off) {
      var k :| 0 <= k < |rest| && Covers(rest[k], off);
      assert Covers(runs[k + 1], off);
    }
    if Covered(runs, off) {
      var k :| 0 <= k < |runs| && Covers(runs[k], off);
      assert k > 0 ==> rest[k - 1] == runs[k];
    }
  }

  /** No offset outside the reported runs starts a run that should have been reported. */
  ghost predicate Complete(runs: seq<Run>, blob: seq<byte>, from: nat, ranges: seq<Range>, minRun: int) {
    forall off: nat :: from <= off && Qualifies(blob, off, ranges, minRun) ==> Covered(runs, off)
  }

  /** runs is a right answer for the offsets from on. */
  ghost predicate Report(runs: seq<Run>, blob: seq<byte>, from: nat, ranges: seq<Range>, minRun: int) {
    Sound(runs, blob, from, ranges, minRun) && Disjoint(runs) && Complete(runs, blob, from, ranges, minRun)
  }

  lemma NothingToReport(blob: seq<byte>, off: nat, ranges: seq<Range>, minRun: int)
    requires off + RECORD > |blob|
    ensures Report([], blob, off, ranges, minRun)
  {
  }

  lemma ReportLater(runs: seq<Run>, blob: seq<byte>, off: nat, ranges: seq<Range>, minRun: int)
    requires Report(runs, blob, off + 1, ranges, minRun) && !Qualifies(blob, off, ranges, minRun)
    ensures Report(runs, blob, off, ranges, minRun)
  {
    hide Qualifies, EntriesAt, Covers;
  }

  lemma ReportFirst(rest: seq<Run>, blob: seq<byte>, off: nat, ranges: seq<Range>, minRun: int)
    requires Qualifies(blob, off, ranges, minRun)
    requires Report(rest, blob, off + RECORD * |EntriesAt(blob, off, ranges)|, ranges, minRun)
    ensures Report([Run(off, EntriesAt(blob, off, ranges))] + rest, blob, off, ranges, minRun)
  {
    hide Qualifies, EntriesAt, Covered;
    var es := EntriesAt(blob, off, ranges);
    forall o: nat | off <= o && Qualifies(blob, o, ranges, minRun)
      ensures Covered([Run(off, es)] + rest, o)
    {
      CoveredBy(Run(off, es), rest, o);
    }
  }

  /** The scan reports a sound, disjoint and complete list of runs. */
  lemma {:induction false} ScanIsReport(blob: seq<byte>, off: nat, ranges: seq<Range>, minRun: int)
    ensures Report(Scan(blob, off, ranges, minRun), blob, off, ranges, minRun)
    decreases |blob| - off
  {
    hide Report, EntriesAt, StartsAtGate;
    if off + RECORD > |blob| {
      NothingToReport(blob, off, ranges, minRun);
    } else if Qualifies(blob, off, ranges, minRun) {
      EntriesStartAtGate(blob, off, ranges);
      var next := off + RECORD * |EntriesAt(blob, off, ranges)|;
      ScanIsReport(blob, next, ranges, minRun);
      ReportFirst(Scan(blob, next, ranges, minRun), blob, off, ranges, minRun);
    } else {
      ScanIsReport(blob, off + 1, ranges, minRun);
      ReportLater(Scan(blob, off + 1, ranges, minRun), blob, off, ranges, minRun);
    }
  }

  /** A report's first run starts no later than any other report's, which therefore has one too. */
  lemma FirstIsLeast(runs: seq<Run>, runs': seq<Run>, blob: seq<byte>, from: nat, ranges: seq<Range>, minRun: int)
    requires runs != [] && Report(runs, blob, from, ranges, minRun) && Report(runs', blob, from, ranges, minRun)
    ensures runs' != [] && runs'[0].off <= runs[0].off
    ensures runs'[0].off == runs[0].off ==> runs'[0] == runs[0]
  {
    hide EntriesAt, Qualifies;
    assert Qualifies(blob, runs[0].off, ranges, minRun);
    var k :| 0 <= k < |runs'| && Covers(runs'[k], runs[0].off);
  }

  lemma TailIsReport(runs: seq<Run>, blob: seq<byte>, from: nat, ranges: seq<Range>, minRun: int)
    requires runs != [] && Report(runs, blob, from, ranges, minRun)
    ensures Report(runs[1..], blob, runs[0].off + RECORD * |runs[0].entries|, ranges, minRun)
  {
    hide Qualifies, EntriesAt, Covered;
    var next := runs[0].off + RECORD * |runs[0].entries|;
    assert from <= runs[0].off && runs == [runs[0]] + runs[1..];
    forall o: nat | next <= o && Qualifies(blob, o, ranges, minRun)
      ensures Covered(runs[1..], o)
    {
      CoveredBy(runs[0], runs[1..], o);
    }
  }

  /** Soundness, disjointness and completeness leave no choice: they determine the report. */
  lemma {:induction false} ReportIsUnique(runs: seq<Run>, runs': seq<Run>, blob: seq<byte>, from: nat,
                                          ranges: seq<Range>, minRun: int)
    requires Report(runs, blob, from, ranges, minRun) && Report(runs', blob, from, ranges, minRun)
    ensures runs == runs'
    decreases |runs|
  {
    hide Report;
    if runs != [] {
      FirstIsLeast(runs, runs', blob, from, ranges, minRun);
      FirstIsLeast(runs', runs, blob, from, ranges, minRun);
      TailIsReport(runs, blob, from, ranges, minRun);
      TailIsReport(runs', blob, from, ranges, minRun);
      ReportIsUnique(runs[1..], runs'[1..], blob, runs[0].off + RECORD * |runs[0].entries|, ranges, minRun);
      assert runs == [runs[0]] + runs[1..] && runs' == [runs'[0]] + runs'[1..];
    } else if runs' != [] {
      FirstIsLeast(runs', runs, blob, from, ranges, minRun);
    }
  }

  // ---- the scanner's loops ----

  /** One section: grow the entries, drop the trailing empty ones, report or move on by a byte. */
  method ScanSection(blob: seq<byte>, ranges: seq<Range>, minRun: int) returns (runs: seq<Run>)
    ensures runs == Scan(blob, 0, ranges, minRun)
  {
    hide RecordAt, Trimmed;
    runs := [];
    var off := 0;
    while off + RECORD <= |blob|
      invariant runs + Scan(blob, off, ranges, minRun) == Scan(blob, 0, ranges, minRun)
      decreases |blob| - off
    {
      var first := RecordAt(blob, off, ranges);
      if first.None? || first.value.Empty? {
        off := off + 1;
        continue;
      }
      var entries := CollectEntries(blob, off, ranges);
      EntriesStartAtGate(blob, off, ranges);
      if |entries| >= minRun {
        assert runs + Scan(blob, off, ranges, minRun)
            == runs + [Run(off, entries)] + Scan(blob, off + RECORD * |entries|, ranges, minRun);
        runs := runs + [Run(off, entries)];
        off := off + RECORD * |entries|;
      } else {
        off := off + 1;
      }
    }
  }

  method CollectEntries(blob: seq<byte>, off: nat, ranges: seq<Range>) returns (entries: seq<Record>)
    ensures entries == EntriesAt(blob, off, ranges)
  {
    hide RecordAt;
    entries := [];
    var cur := off;
    while cur + RECORD <= |blob|
      invariant entries + Records(blob, cur, ranges) == Records(blob, off, ranges)
      decreases |blob| - cur
    {
      var r := RecordAt(blob, cur, ranges);
      if r.None? {
        break;
      }
      assert entries + Records(blob, cur, ranges) == entries + [r.value] + Records(blob, cur + RECORD, ranges);
      entries := entries + [r.value];
      cur := cur + RECORD;
    }
    NoRecordPastEnd(blob, cur, ranges);
    assert entries == Records(blob, off, ranges);
    while entries != [] && entries[|entries| - 1].Empty?
      invariant Trimmed(entries) == EntriesAt(blob, off, ranges)
      decreases |entries|
    {
      entries := entries[..|entries| - 1];
    }
  }

  lemma NoRecordPastEnd(blob: seq<byte>, off: nat, ranges: seq<Range>)
    ensures off + RECORD > |blob| ==> Records(blob, off, ranges) == []
  {
  }

  // ---- all sections ----

  datatype Found = Found(section: string, fileOff: nat, rva: nat, entries: seq<Record>)

  /** data[raddr:raddr + rsize] */
  function Body(data: seq<byte>, s: Section): (r: seq<byte>)
    ensures |r| <= s.rsize && (r != [] ==> s.raddr + |r| <= |data|)
    ensures |r| < s.rsize ==> s.raddr + |r| >= |data|
    ensures forall i | 0 <= i < |r| :: r[i] == data[s.raddr + i]
  {
    if s.raddr >= |data| then []
    else if s.raddr + s.rsize > |data| then data[s.raddr..]
    else data[s.raddr..s.raddr + s.rsize]
  }

  function Place(s: Section, run: Run): Found {
    Found(s.name, s.raddr + run.off, s.vaddr + run.off, run.entries)
  }

  function Located(s: Section, runs: seq<Run>): (r: seq<Found>)
    ensures |r| == |runs|
    ensures forall k :: 0 <= k < |r| ==> r[k] == Place(s, runs[k])
  {
    seq(|runs|, (k: nat) requires 0 <= k < |runs| => Place(s, runs[k]))
  }

  /** The reports of the sections with raw data, in section order. */
  function FindAll(data: seq<byte>, sections: seq<Section>, ranges: seq<Range>, minRun: int): seq<Found> {
    if sections == [] then []
    else
      var s := sections[|sections| - 1];
      FindAll(data, sections[..|sections| - 1], ranges, minRun)
      + if s.rsize == 0 then [] else Located(s, Scan(Body(data, s), 0, ranges, minRun))
  }

  /** find_idt */
  method FindIdt(data: seq<byte>, sections: seq<Section>, imageBase: u32, minRun: int) returns (runs: seq<Found>)
    ensures runs == FindAll(data, sections, CodeRanges(sections, imageBase), minRun)
  {
    hide Scan, Located, CodeRanges;
    var ranges := ComputeCodeRanges(sections, imageBase);
    runs := [];
    for i := 0 to |sections|
      invariant runs == FindAll(data, sections[..i], ranges, minRun)
    {
      var s := sections[i];
      assert sections[..i + 1][..i] == sections[..i];
      if s.rsize != 0 {
        var found := ScanSection(Body(data, s), ranges, minRun);
        runs := runs + Located(s, found);
      }
    }
    assert sections[..|sections|] == sections;
  }

  /** code_ranges */
  method ComputeCodeRanges(sections: seq<Section>, imageBase: u32) returns (out: seq<Range>)
    ensures out == CodeRanges(sections, imageBase)
  {
    out := [];
    for i := 0 to |sections|
      invariant out == CodeRanges(sections[..i], imageBase)
    {
      assert sections[..i + 1][..i] == sections[..i];
      if Executable(sections[i]) && sections[i].rsize != 0 {
        out := out + [RangeOf(sections[i], imageBase)];
      }
    }
    assert sections[..|sections|] == sections;
  }

  /** f is a run of section s, placed in the file and in the image. */
  ghost predicate FoundIn(data: seq<byte>, s: Section, ranges: seq<Range>, minRun: int, f: Found) {
    s.rsize != 0 &&
    exists run <- Scan(Body(data, s), 0, ranges, minRun) :: f == Place(s, run)
  }

  lemma LocatedIff(s: Section, runs: seq<Run>, f: Found)
    ensures f in Located(s, runs) <==> exists run <- runs :: f == Place(s, run)
  {
    var found := Located(s, runs);
    if f in found {
      var k :| 0 <= k < |found| && found[k] == f;
      assert runs[k] in runs;
    }
    if run :| run in runs && f == Place(s, run) {
      var k :| 0 <= k < |runs| && runs[k] == run;
      assert found[k] == f;
    }
  }

  lemma FoundInLocated(data: seq<byte>, s: Section, ranges: seq<Range>, minRun: int, f: Found)
    ensures FoundIn(data, s, ranges, minRun, f) <==>
              s.rsize != 0 && f in Located(s, Scan(Body(data, s), 0, ranges, minRun))
  {
    LocatedIff(s, Scan(Body(data, s), 0, ranges, minRun), f);
  }

  /** A run is reported, with its place in file and image, iff it belongs to some section's report. */
  lemma {:induction false} FoundIff(data: seq<byte>, sections: seq<Section>, ranges: seq<Range>, minRun: int, f: Found)
    ensures f in FindAll(data, sections, ranges, minRun) <==>
              exists s <- sections :: FoundIn(data, s, ranges, minRun, f)
  {
    hide Scan, Located, FoundIn;
    if sections != [] {
      var before, s := sections[..|sections| - 1], sections[|sections| - 1];
      FoundIff(data, before, ranges, minRun, f);
      FoundInLocated(data, s, ranges, minRun, f);
      assert sections == before + [s];
    }
  }

  /** A record of a section is the record at its place in the file. */
  lemma EntryInFile(data: seq<byte>, s: Section, off: nat, ranges: seq<Range>, k: nat)
    requires Entry(Body(data, s), off, ranges, k).Some?
    ensures Entry(data, s.raddr + off, ranges, k) == Entry(Body(data, s), off, ranges, k)
  {
    var blob, at := Body(data, s), off + 8 * k;
    assert blob[at..at + 8] == data[s.raddr + at..s.raddr + at + 8];
  }

  /** f lies in the raw data of s, and its RVA is where s loads it. */
  predicate LiesIn(f: Found, s: Section) {
    && s.name == f.section && s.rsize != 0
    && s.raddr <= f.fileOff && f.fileOff + 8 * |f.entries| <= s.raddr + s.rsize
    && f.rva - s.vaddr == f.fileOff - s.raddr
  }

  /**
   What a reported run says: entry k is what the file holds 8 * k bytes behind the reported offset,
   all of it within one section's raw data; the run starts and ends with a gate and is long enough.
   */
  lemma FoundEntries(data: seq<byte>, sections: seq<Section>, ranges: seq<Range>, minRun: int, f: Found)
    requires f in FindAll(data, sections, ranges, minRun)
    ensures forall k | 0 <= k < |f.entries| :: Entry(data, f.fileOff, ranges, k) == Some(f.entries[k])
    ensures f.entries != [] && f.entries[0].Gate? && f.entries[|f.entries| - 1].Gate? && |f.entries| >= minRun
    ensures exists s <- sections :: LiesIn(f, s)
  {
    hide Entry, FindAll, LiesIn, Scan, Body;
    FoundIff(data, sections, ranges, minRun, f);
    var s :| s in sections && FoundIn(data, s, ranges, minRun, f);
    var run :| run in Scan(Body(data, s), 0, ranges, minRun) && f == Place(s, run);
    PlacedRun(data, s, ranges, minRun, run);
  }

  /** What is not left out: a long enough run of any section begins inside some reported run of that section. */
  lemma NothingMissed(data: seq<byte>, sections: seq<Section>, ranges: seq<Range>, minRun: int,
                      s: Section, off: nat, entries: seq<Record>, n: nat) returns (f: Found)
    requires s in sections && s.rsize != 0 && LongRun(Body(data, s), off, ranges, entries, n, minRun)
    ensures f in FindAll(data, sections, ranges, minRun) && LiesIn(f, s)
    ensures f.fileOff <= s.raddr + off < f.fileOff + 8 * |f.entries|
  {
    hide Entry, FindAll, Scan, Body, LongRun, LiesIn;
    QualifiesIff(Body(data, s), off, ranges, minRun);
    var run := CoveringRun(Body(data, s), off, ranges, minRun);
    f := Place(s, run);
    FoundIff(data, sections, ranges, minRun, f);
    assert FoundIn(data, s, ranges, minRun, f);
    PlacedRun(data, s, ranges, minRun, run);
  }

  lemma CoveringRun(blob: seq<byte>, off: nat, ranges: seq<Range>, minRun: int) returns (run: Run)
    requires Qualifies(blob, off, ranges, minRun)
    ensures run in Scan(blob, 0, ranges, minRun) && run.off <= off < run.off + 8 * |run.entries|
  {
    hide Qualifies, Scan, Sound, Disjoint;
    var runs := Scan(blob, 0, ranges, minRun);
    ScanIsReport(blob, 0, ranges, minRun);
    var k :| 0 <= k < |runs| && Covers(runs[k], off);
    run := runs[k];
  }

  lemma PlacedRun(data: seq<byte>, s: Section, ranges: seq<Range>, minRun: int, run: Run)
    requires run in Scan(Body(data, s), 0, ranges, minRun) && s.rsize != 0
    ensures var f := Place(s, run);
            && LiesIn(f, s)
            && (forall k | 0 <= k < |f.entries| :: Entry(data, f.fileOff, ranges, k) == Some(f.entries[k]))
            && f.entries != [] && f.entries[0].Gate? && f.entries[|f.entries| - 1].Gate? && |f.entries| >= minRun
  {
    hide RecordAt, Scan, Body;
    var blob := Body(data, s);
    ReportedRun(run, blob, ranges, minRun);
    forall k | 0 <= k < |run.entries|
      ensures Entry(data, s.raddr + run.off, ranges, k) == Some(run.entries[k])
    {
      EntryInFile(data, s, run.off, ranges, k);
    }
  }

  /** The same within the section. */
  lemma ReportedRun(run: Run, blob: seq<byte>, ranges: seq<Range>, minRun: int)
    requires run in Scan(blob, 0, ranges, minRun)
    ensures forall k | 0 <= k < |run.entries| :: Entry(blob, run.off, ranges, k) == Some(run.entries[k])
    ensures run.entries != [] && run.entries[0].Gate? && run.entries[|run.entries| - 1].Gate?
    ensures |run.entries| >= minRun && run.off + 8 * |run.entries| <= |blob|
  {
    hide RecordAt, Records, Scan, Disjoint, Complete;
    ScanIsReport(blob, 0, ranges, minRun);
    EntriesStartAtGate(blob, run.off, ranges);
    RecordsByIndex(blob, run.off, ranges);
  }
}
