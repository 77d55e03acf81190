/** stamp351.py: the folded PE checksum and the rewrite of the version stamps. */
module Stamp {
  import opened Bytes

  // ---- the checksum ----

  /** The 16-bit word at even position i; a missing last byte counts as zero. */
  function Word(data: seq<byte>, i: nat): u16
    requires i < |data|
  {
    data[i] as int + 0x100 * (if i + 1 < |data| then data[i + 1] as int else 0)
  }

  function WordCount(data: seq<byte>): nat {
    (|data| + 1) / 2
  }

  /** The plain sum of the first k words, leaving out those at off and off + 2. */
  function Sum(data: seq<byte>, off: nat, k: nat): nat
    requires k <= WordCount(data)
  {
    if k == 0 then 0
    else
      var i := 2 * (k - 1);
      Sum(data, off, k - 1) + if i == off || i == off + 2 then 0 else Word(data, i) as int
  }

  /** The first n bytes, those at odd positions counted 256 times. */
  function ByteSum(data: seq<byte>, n: nat): nat
    requires n <= |data|
  {
    if n == 0 then 0
    else ByteSum(data, n - 1) + (if n % 2 == 1 then data[n - 1] as int else 0x100 * data[n - 1] as int)
  }

  /** What is summed: on an even offset the field counts as zero, on an odd one it is not left out. */
  function Summed(data: seq<byte>, off: nat): (r: seq<byte>)
    requires off + 4 <= |data|
    ensures |r| == |data|
    ensures forall i | 0 <= i < |data| :: r[i] == if off % 2 == 0 && off <= i < off + 4 then 0 else data[i]
  {
    BlitAt(data, off, Zeros(4));
    if off % 2 == 0 then Blit(data, off, Zeros(4)) else data
  }

  /** Of all other bytes none is left out, and each has its weight. */
  lemma {:induction false} SumIsByteSum(data: seq<byte>, off: nat, k: nat)
    requires off + 4 <= |data| && k <= WordCount(data)
    ensures Sum(data, off, k) == ByteSum(Summed(data, off), if 2 * k <= |data| then 2 * k else |data|)
  {
    if k > 0 {
      SumIsByteSum(data, off, k - 1);
      WordIsTwoBytes(data, off, 2 * (k - 1));
      hide Word, Summed, ByteSum;
    }
  }

  lemma WordIsTwoBytes(data: seq<byte>, off: nat, i: nat)
    requires off + 4 <= |data| && i < |data| && i % 2 == 0
    ensures ByteSum(Summed(data, off), if i + 2 <= |data| then i + 2 else |data|)
         == ByteSum(Summed(data, off), i) + if i == off || i == off + 2 then 0 else Word(data, i) as int
  {
    var s := Summed(data, off);
    hide Summed;
    assert ByteSum(s, i + 1) == ByteSum(s, i) + s[i] as int;
    if i + 2 <= |data| {
      assert ByteSum(s, i + 2) == ByteSum(s, i + 1) + 0x100 * s[i + 1] as int;
    }
  }

  /** The representative of n modulo 65535 that is 0 only for 0. */
  function Rep(n: nat): nat {
    if n == 0 then 0 else 1 + (n - 1) % 0xffff
  }

  function Fold(t: nat): nat {
    t % 0x1_0000 + t / 0x1_0000
  }

  /** What the loader expects in the header: the end-around-carry sum plus the length. */
  function Checksum(data: seq<byte>, off: nat): u32 {
    (Rep(Sum(data, off, WordCount(data))) + |data|) % 0x1_0000_0000
  }

  lemma RepIsRepresentative(n: nat)
    ensures Rep(n) <= 0xffff && (Rep(n) == 0 <==> n == 0) && Rep(n) % 0xffff == n % 0xffff
  {
  }

  /** Folding after each addition keeps the representative of the unfolded sum. */
  lemma FoldStep(n: nat, word: u16)
    ensures Fold(Rep(n) + word) == Rep(n + word)
  {
  }

  lemma FoldDone(n: nat)
    ensures Fold(Rep(n)) % 0x1_0000 == Rep(n)
  {
  }

  lemma PaddedWord(data: seq<byte>, padded: seq<byte>, i: nat)
    requires padded == if |data| % 2 != 0 then data + [0] else data
    requires i < |data| && i % 2 == 0
    ensures i + 2 <= |padded| && Le16(padded[i..i + 2]) == Word(data, i)
  {
  }

  /** checksum */
  method ComputeChecksum(data: seq<byte>, off: nat) returns (sum: u32)
    ensures sum == Checksum(data, off)
  {
    hide Rep, Le16, Word;
    assert Rep(0) == 0 by { RepIsRepresentative(0); }
    var padded := if |data| % 2 != 0 then data + [0] else data;
    var total := 0;
    var i := 0;
    while i < |padded|
      invariant i <= |padded| && i % 2 == 0
      invariant total == Rep(Sum(data, off, i / 2))
    {
      if i != off && i != off + 2 {
        var word := Le16(padded[i..i + 2]);
        PaddedWord(data, padded, i);
        FoldStep(Sum(data, off, i / 2), word);
        total := total + word;
        total := total % 0x1_0000 + total / 0x1_0000;
      }
      i := i + 2;
    }
    FoldDone(Sum(data, off, WordCount(data)));
    total := total % 0x1_0000 + total / 0x1_0000;
    total := total % 0x1_0000;
    sum := (total + |data|) % 0x1_0000_0000;
  }

  /** The checksum is that of the bytes, each with its weight, the field apart on an even offset. */
  lemma ChecksumIsOfBytes(data: seq<byte>, off: nat)
    requires off + 4 <= |data|
    ensures Checksum(data, off) == (Rep(ByteSum(Summed(data, off), |data|)) + |data|) % 0x1_0000_0000
  {
    SumIsByteSum(data, off, WordCount(data));
  }

  /** Two sums give the same checksum iff they agree modulo 65535 and both or neither are 0. */
  lemma SameRepIff(m: nat, n: nat)
    ensures Rep(m) == Rep(n) <==> m % 0xffff == n % 0xffff && (m == 0 <==> n == 0)
  {
  }

  // ---- where the four checksum bytes fall ----

  /** On an even offset the stored bytes are the two words left out. */
  lemma {:induction false} EvenFieldSkipped(z: seq<byte>, off: nat, c: seq<byte>, k: nat)
    requires |c| == 4 && off + 4 <= |z| && off % 2 == 0 && k <= WordCount(z)
    ensures Sum(Blit(z, off, c), off, k) == Sum(z, off, k)
  {
    if k > 0 {
      EvenFieldSkipped(z, off, c, k - 1);
    }
  }

  /** What storing c at an odd offset adds to the first k words, over zero bytes. */
  function OddShare(off: nat, c: seq<byte>, k: nat): nat
    requires |c| == 4 && off > 0
  {
    (if 2 * k > off - 1 then 0x100 * c[0] as int else 0)
    + (if 2 * k > off + 1 then c[1] as int + 0x100 * c[2] as int else 0)
    + (if 2 * k > off + 3 then c[3] as int else 0)
  }

  /** On an odd offset no word is left out: the stored bytes are summed too. */
  lemma {:induction false} OddFieldSummed(z: seq<byte>, off: nat, c: seq<byte>, k: nat)
    requires |c| == 4 && off + 4 <= |z| && off % 2 == 1 && k <= WordCount(z)
    requires z[off..off + 4] == Zeros(4)
    ensures Sum(Blit(z, off, c), off, k) == Sum(z, off, k) + OddShare(off, c, k)
  {
    if k > 0 {
      OddFieldSummed(z, off, c, k - 1);
      var i := 2 * (k - 1);
      var f := Blit(z, off, c);
      BlitAt(z, off, c);
      assert forall j | off <= j < off + 4 :: z[j] == z[off..off + 4][j - off];
      assert i != off && i != off + 2;
      assert Word(f, i) as int == Word(z, i) as int + OddShare(off, c, k) - OddShare(off, c, k - 1);
    }
  }

  /** 65536 is 1 modulo 65535, so shifting the stored value by one byte multiplies its residue by 256. */
  lemma OddShareResidue(x: u32, off: nat, k: nat)
    requires off > 0 && 2 * k > off + 3
    ensures OddShare(off, Bytes32(x), k) % 0xffff == 0 <==> x % 0xffff == 0
    ensures x > 0 ==> OddShare(off, Bytes32(x), k) > 0
  {
    var c := Bytes32(x);
    Bytes32RoundTrip(x);
    var c0: int, c1: int, c2: int, c3: int := c[0], c[1], c[2], c[3];
    var share, q := OddShare(off, c, k), c1 + 0x100 * c2 + 0x1_0001 * c3;
    assert share == 0x100 * c0 + c1 + 0x100 * c2 + c3;
    assert 0x100 * x == share + 0xffff * q;
    assert x == 0x100 * share + 0xffff * (0x100 * q - x);
    if share % 0xffff == 0 {
      Multiple(x, 0x100 * (share / 0xffff) + 0x100 * q - x);
    }
    if x % 0xffff == 0 {
      Multiple(share, 0x100 * (x / 0xffff) - q);
    }
  }

  lemma Multiple(x: int, q: int)
    requires x == 0xffff * q
    ensures x % 0xffff == 0
  {
  }

  // ---- the stamp ----

  const PE_OFFSET_FIELD: nat := 0x3c
  const PE32_MAGIC: u16 := 0x10b
  const VERSIONS: nat := 40          // six words from here, within the optional header
  const CHECKSUM: nat := 64

  datatype StampError = NotMz | NotPe | NotPe32 | StructError
  datatype StampResult = Stamped(file: seq<byte>) | Failed(error: StampError)

  /** A Python slice: out of range is cut off, not refused. */
  function Slice(file: seq<byte>, lo: nat, hi: nat): seq<byte>
    requires lo <= hi
  {
    var h := if hi < |file| then hi else |file|;
    if lo < h then file[lo..h] else []
  }

  /** Start of the optional header. */
  function Opt(file: seq<byte>): nat
    requires |file| >= PE_OFFSET_FIELD + 4
  {
    Le32(file[PE_OFFSET_FIELD..PE_OFFSET_FIELD + 4]) as int + 4 + 20
  }

  /** What is wrong with a file, in the order stamp looks. */
  function Fault(file: seq<byte>, major: int, minor: int): Option<StampError> {
    if Slice(file, 0, 2) != [0x4d, 0x5a] then Some(NotMz)
    else if |file| < PE_OFFSET_FIELD + 4 then Some(StructError)
    else
      var opt := Opt(file);
      if Slice(file, opt - 24, opt - 20) != [0x50, 0x45, 0, 0] then Some(NotPe)
      else if |file| < opt + 2 then Some(StructError)
      else if Le16(file[opt..opt + 2]) != PE32_MAGIC then Some(NotPe32)
      else if |file| < opt + VERSIONS + 12 then Some(StructError)
      else if !(0 <= major < 0x1_0000 && 0 <= minor < 0x1_0000) then Some(StructError)
      else if |file| < opt + CHECKSUM + 4 then Some(StructError)
      else None
  }

  predicate HasMz(file: seq<byte>) {
    |file| >= 2 && file[0] == 0x4d && file[1] == 0x5a
  }

  /** e_lfanew lies in the file and leads to the PE signature. */
  predicate HasPe(file: seq<byte>) {
    |file| >= 64 &&
    var pe := Le32(file[60..64]);
    pe + 4 <= |file| && file[pe] == 0x50 && file[pe + 1] == 0x45 && file[pe + 2] == 0 && file[pe + 3] == 0
  }

  /** The optional header starts, and with this magic. */
  predicate HasMagic(file: seq<byte>, lo: byte, hi: byte) {
    |file| >= 64 &&
    var opt := Le32(file[60..64]) + 24;
    opt + 2 <= |file| && file[opt] == lo && file[opt + 1] == hi
  }

  /** There is room for the version and checksum fields. */
  predicate HasFields(file: seq<byte>) {
    |file| >= 64 && |file| >= Le32(file[60..64]) + 24 + 68
  }

  /** stamp accepts exactly PE32 files with room for the fields, and version numbers that fit a word. */
  lemma AcceptedIff(file: seq<byte>, major: int, minor: int)
    ensures Fault(file, major, minor) == None <==>
              && HasMz(file) && HasPe(file) && HasMagic(file, 0x0b, 1) && HasFields(file)
              && 0 <= major < 0x1_0000 && 0 <= minor < 0x1_0000
  {
    MzBytes(file);
    if |file| >= 64 {
      PeBytes(file, Opt(file) - 24);
      if |file| >= Opt(file) + 2 {
        Pe32Bytes(file, Opt(file));
      }
    }
    hide Slice, Le32, Le16;
  }

  /** Why it refuses any other. */
  lemma RefusedAs(file: seq<byte>, major: int, minor: int)
    ensures Fault(file, major, minor) == Some(NotMz) <==> !HasMz(file)
    ensures Fault(file, major, minor) == Some(NotPe) <==> HasMz(file) && |file| >= 64 && !HasPe(file)
    ensures Fault(file, major, minor) == Some(NotPe32) <==>
              HasMz(file) && HasPe(file) && exists lo, hi :: HasMagic(file, lo, hi) && (lo != 0x0b || hi != 1)
  {
    MzBytes(file);
    if |file| >= 64 {
      PeBytes(file, Opt(file) - 24);
      if |file| >= Opt(file) + 2 {
        Pe32Bytes(file, Opt(file));
        assert HasMagic(file, file[Opt(file)], file[Opt(file) + 1]);
      }
    }
    hide Slice, Le32, Le16;
  }

  lemma MzBytes(file: seq<byte>)
    ensures Slice(file, 0, 2) == [0x4d, 0x5a] <==> |file| >= 2 && file[0] == 0x4d && file[1] == 0x5a
  {
    if |file| >= 2 {
      assert file[0..2] == [file[0], file[1]];
    }
  }

  lemma PeBytes(file: seq<byte>, pe: nat)
    ensures Slice(file, pe, pe + 4) == [0x50, 0x45, 0, 0] <==>
              && pe + 4 <= |file|
              && file[pe] == 0x50 && file[pe + 1] == 0x45 && file[pe + 2] == 0 && file[pe + 3] == 0
  {
    if pe + 4 <= |file| {
      assert file[pe..pe + 4] == [file[pe], file[pe + 1], file[pe + 2], file[pe + 3]];
    }
  }

  lemma Pe32Bytes(file: seq<byte>, opt: nat)
    requires opt + 2 <= |file|
    ensures Le16(file[opt..opt + 2]) == PE32_MAGIC <==> file[opt] == 0x0b && file[opt + 1] == 1
  {
    assert file[opt..opt + 2] == [file[opt], file[opt + 1]];
  }

  predicate Stampable(file: seq<byte>) {
    |file| >= PE_OFFSET_FIELD + 4 && |file| >= Opt(file) + CHECKSUM + 4
  }

  function VersionBytes(major: u16, minor: u16): (r: seq<byte>)
    ensures |r| == 12
  {
    var v := Bytes16(major) + Bytes16(minor);
    v + v + v
  }

  /** The file with new versions and a zeroed checksum field. */
  function Versioned(file: seq<byte>, major: u16, minor: u16): (r: seq<byte>)
    requires Stampable(file)
    ensures |r| == |file|
  {
    Blit(Blit(file, Opt(file) + VERSIONS, VersionBytes(major, minor)), Opt(file) + CHECKSUM, Zeros(4))
  }

  /** The file stamp writes back. */
  function StampOf(file: seq<byte>, major: u16, minor: u16): (r: seq<byte>)
    requires Stampable(file)
    ensures |r| == |file|
  {
    var z, p := Versioned(file, major, minor), Opt(file) + CHECKSUM;
    Blit(z, p, Bytes32(Checksum(z, p)))
  }

  /** struct.pack_into for bytes already packed. */
  method PackInto(a: array<byte>, at: nat, bs: seq<byte>)
    requires at + |bs| <= a.Length
    modifies a
    ensures a[..] == Blit(old(a[..]), at, bs)
  {
    for i := 0 to |bs|
      invariant a[at..at + i] == bs[..i]
      invariant a[..at] == old(a[..])[..at] && a[at + |bs|..] == old(a[..])[at + |bs|..]
    {
      a[at + i] := bs[i];
      assert a[at..at + i + 1] == a[at..at + i] + [bs[i]];
    }
    assert a[..] == a[..at] + a[at..at + |bs|] + a[at + |bs|..];
  }

  /** stamp, between reading the file and writing it: an exception leaves the file alone. */
  method Stamp(file: seq<byte>, major: int, minor: int) returns (r: StampResult)
    ensures match Fault(file, major, minor)
            case Some(e) => r == Failed(e)
            case None => r == Stamped(StampOf(file, major, minor))
  {
    var data := new byte[|file|](i requires 0 <= i < |file| => file[i]);
    assert data[..] == file;
    if Slice(data[..], 0, 2) != [0x4d, 0x5a] {
      return Failed(NotMz);
    }
    if data.Length < PE_OFFSET_FIELD + 4 {
      return Failed(StructError);
    }
    var opt := Opt(data[..]);
    if Slice(data[..], opt - 24, opt - 20) != [0x50, 0x45, 0, 0] {
      return Failed(NotPe);
    }
    if data.Length < opt + 2 {
      return Failed(StructError);
    }
    if Le16(data[opt..opt + 2]) != PE32_MAGIC {
      return Failed(NotPe32);
    }
    if data.Length < opt + VERSIONS + 12 || !(0 <= major < 0x1_0000 && 0 <= minor < 0x1_0000) {
      return Failed(StructError);
    }
    PackInto(data, opt + VERSIONS, VersionBytes(major, minor));
    var checksumOffset := opt + CHECKSUM;
    if data.Length < checksumOffset + 4 {
      return Failed(StructError);
    }
    PackInto(data, checksumOffset, Zeros(4));
    var sum := ComputeChecksum(data[..], checksumOffset);
    PackInto(data, checksumOffset, Bytes32(sum));
    return Stamped(data[..]);
  }

  /** Byte i of a file with new versions and the given checksum field. */
  function FieldByte(file: seq<byte>, major: u16, minor: u16, sum: seq<byte>, i: nat): byte
    requires Stampable(file) && |sum| == 4 && i < |file|
  {
    var v, p := Opt(file) + VERSIONS, Opt(file) + CHECKSUM;
    if v <= i < v + 12 then VersionBytes(major, minor)[i - v]
    else if p <= i < p + 4 then sum[i - p]
    else file[i]
  }

  lemma VersionedAt(file: seq<byte>, major: u16, minor: u16)
    requires Stampable(file)
    ensures forall i | 0 <= i < |file| :: Versioned(file, major, minor)[i] == FieldByte(file, major, minor, Zeros(4), i)
  {
    BlitAt(file, Opt(file) + VERSIONS, VersionBytes(major, minor));
    BlitAt(Blit(file, Opt(file) + VERSIONS, VersionBytes(major, minor)), Opt(file) + CHECKSUM, Zeros(4));
  }

  lemma StampAt(file: seq<byte>, major: u16, minor: u16)
    requires Stampable(file)
    ensures var sum := Bytes32(Checksum(Versioned(file, major, minor), Opt(file) + CHECKSUM));
            forall i | 0 <= i < |file| :: StampOf(file, major, minor)[i] == FieldByte(file, major, minor, sum, i)
  {
    hide Versioned, Checksum;
    var z, p := Versioned(file, major, minor), Opt(file) + CHECKSUM;
    VersionedAt(file, major, minor);
    BlitAt(z, p, Bytes32(Checksum(z, p)));
  }

  lemma SameWindow(a: seq<byte>, b: seq<byte>, lo: nat, hi: nat)
    requires lo <= hi <= |a| && hi <= |b| && forall i | lo <= i < hi :: a[i] == b[i]
    ensures a[lo..hi] == b[lo..hi]
  {
  }

  /** Only the twelve version bytes and the four checksum bytes change, and they read back as written. */
  lemma StampFields(file: seq<byte>, major: u16, minor: u16)
    requires Stampable(file)
    ensures var f, v, p := StampOf(file, major, minor), Opt(file) + VERSIONS, Opt(file) + CHECKSUM;
            && (forall i | 0 <= i < |file| && !(v <= i < v + 12) && !(p <= i < p + 4) :: f[i] == file[i])
            && f[v..v + 12] == VersionBytes(major, minor)
            && Le32(f[p..p + 4]) == Checksum(Versioned(file, major, minor), p)
            && Stampable(f) && Opt(f) == Opt(file)
  {
    hide Versioned, Checksum, StampOf, VersionBytes;
    var v, p := Opt(file) + VERSIONS, Opt(file) + CHECKSUM;
    var f, sum := StampOf(file, major, minor), Checksum(Versioned(file, major, minor), p);
    StampAt(file, major, minor);
    assert f[v..v + 12] == VersionBytes(major, minor);
    assert f[p..p + 4] == Bytes32(sum);
    Bytes32RoundTrip(sum);
    SameWindow(f, file, PE_OFFSET_FIELD, PE_OFFSET_FIELD + 4);
  }

  /** On any offset the stored checksum is that of all bytes with the new versions and a zeroed field. */
  lemma StoredChecksum(file: seq<byte>, major: u16, minor: u16)
    requires Stampable(file)
    ensures var f, z, p := StampOf(file, major, minor), Versioned(file, major, minor), Opt(file) + CHECKSUM;
            Le32(f[p..p + 4]) == (Rep(ByteSum(z, |z|)) + |z|) % 0x1_0000_0000
  {
    hide Versioned, Rep, StampOf, Checksum, Le32, Summed, ByteSum;
    StampFields(file, major, minor);
    ChecksumIsOfBytes(Versioned(file, major, minor), Opt(file) + CHECKSUM);
    VersionedFieldIsZero(file, major, minor);
  }

  lemma VersionedFieldIsZero(file: seq<byte>, major: u16, minor: u16)
    requires Stampable(file)
    ensures Summed(Versioned(file, major, minor), Opt(file) + CHECKSUM) == Versioned(file, major, minor)
  {
    var z, p := Versioned(file, major, minor), Opt(file) + CHECKSUM;
    VersionedAt(file, major, minor);
    hide Versioned, Summed, VersionBytes;
    assert forall i | p <= i < p + 4 :: z[i] == 0;
  }

  /** A stamped file passes every check its original passed. */
  lemma StampKeepsHeader(file: seq<byte>, major: u16, minor: u16)
    requires Fault(file, major, minor) == None
    ensures Fault(StampOf(file, major, minor), major, minor) == None
  {
    hide StampOf, Versioned, Checksum, VersionBytes;
    StampFields(file, major, minor);
    var f, opt := StampOf(file, major, minor), Opt(file);
    SameWindow(f, file, 0, 2);
    SameWindow(f, file, opt - 24, opt - 20);
    SameWindow(f, file, opt, opt + 2);
  }

  lemma VersionedAgain(file: seq<byte>, major: u16, minor: u16, major': u16, minor': u16)
    requires Stampable(file)
    ensures Stampable(StampOf(file, major, minor)) && Opt(StampOf(file, major, minor)) == Opt(file)
    ensures Versioned(StampOf(file, major, minor), major', minor') == Versioned(file, major', minor')
  {
    hide Versioned, Checksum, VersionBytes, StampOf, Stampable, Opt;
    StampFields(file, major, minor);
    var f := StampOf(file, major, minor);
    VersionedAt(f, major', minor');
    VersionedAt(file, major', minor');
    var a, b := Versioned(f, major', minor'), Versioned(file, major', minor');
    assert forall i | 0 <= i < |file| :: a[i] == FieldByte(f, major', minor', Zeros(4), i) == b[i];
  }

  /** Stamping again overwrites every trace of the first stamp: idempotence is the case of equal versions. */
  lemma LastStampWins(file: seq<byte>, major: u16, minor: u16, major': u16, minor': u16)
    requires Fault(file, major, minor) == None
    ensures var f := StampOf(file, major, minor);
            Fault(f, major', minor') == None && StampOf(f, major', minor') == StampOf(file, major', minor')
  {
    StampKeepsHeader(file, major, minor);
    VersionedAgain(file, major, minor, major', minor');
  }

  /** The first word of a stamped file is not zero, so neither is any sum over it. */
  lemma {:induction false} SumPositive(data: seq<byte>, off: nat, k: nat)
    requires 0 < k <= WordCount(data) && off >= 2 && |data| >= 2 && data[0] != 0
    ensures Sum(data, off, k) > 0
  {
    if k > 1 {
      SumPositive(data, off, k - 1);
    }
  }

  /**
   The stored checksum verifies over the stamped file exactly when the header lies on an even
   offset, or the checksum happens to be a multiple of 65535: on an odd offset the loop leaves
   out no word, and the stored bytes enter their own sum.
   */
  lemma StampVerifiesIff(file: seq<byte>, major: u16, minor: u16)
    requires Fault(file, major, minor) == None
    ensures var f, p := StampOf(file, major, minor), Opt(file) + CHECKSUM;
            Checksum(f, p) == Le32(f[p..p + 4]) <==>
            Opt(file) % 2 == 0 || Checksum(Versioned(file, major, minor), p) % 0xffff == 0
  {
    hide Versioned, VersionBytes, Blit, Sum, Rep, Checksum, Le32;
    StampFields(file, major, minor);
    FieldZeroed(file, major, minor);
    StoredIff(Versioned(file, major, minor), Opt(file) + CHECKSUM);
  }

  /** The same over any file with a zeroed field. */
  lemma StoredIff(z: seq<byte>, p: nat)
    requires p > 2 && p + 4 <= |z| && z[p..p + 4] == Zeros(4) && z[0] != 0
    ensures Checksum(Blit(z, p, Bytes32(Checksum(z, p))), p) == Checksum(z, p) <==>
            p % 2 == 0 || Checksum(z, p) % 0xffff == 0
  {
    hide Blit, Sum, Rep;
    if p % 2 == 0 {
      BlitAt(z, p, Bytes32(Checksum(z, p)));
      EvenFieldSkipped(z, p, Bytes32(Checksum(z, p)), WordCount(z));
    } else {
      OddChecksumIff(z, p);
    }
  }

  /** What the checksum is taken over. */
  lemma FieldZeroed(file: seq<byte>, major: u16, minor: u16)
    requires Fault(file, major, minor) == None
    ensures var z, p := Versioned(file, major, minor), Opt(file) + CHECKSUM; z[p..p + 4] == Zeros(4) && z[0] != 0
  {
    hide Versioned, VersionBytes;
    VersionedAt(file, major, minor);
    assert file[0] == Slice(file, 0, 2)[0];
  }

  /** The odd case. */
  lemma OddChecksumIff(z: seq<byte>, p: nat)
    requires p % 2 == 1 && p > 2 && p + 4 <= |z| && z[p..p + 4] == Zeros(4) && z[0] != 0
    ensures Checksum(Blit(z, p, Bytes32(Checksum(z, p))), p) == Checksum(z, p) <==> Checksum(z, p) % 0xffff == 0
  {
    hide Rep, Sum, OddShare, Blit;
    var sum, k := Checksum(z, p), WordCount(z);
    BlitAt(z, p, Bytes32(sum));
    OddFieldSummed(z, p, Bytes32(sum), k);
    OddShareResidue(sum, p, k);
    SumPositive(z, p, k);
    AddedShareIff(Sum(z, p, k), OddShare(p, Bytes32(sum), k), |z|);
  }

  /** Adding x to a nonzero sum keeps its checksum iff 65535 divides x. */
  lemma AddedShareIff(n: nat, x: nat, length: nat)
    requires n > 0
    ensures (Rep(n + x) + length) % 0x1_0000_0000 == (Rep(n) + length) % 0x1_0000_0000 <==> x % 0xffff == 0
  {
    hide Rep;
    SameRepIff(n + x, n);
    RepIsRepresentative(n + x);
    RepIsRepresentative(n);
    SameResidueIff(n, x);
    CloseModulo(Rep(n + x) + length, Rep(n) + length);
  }

  lemma SameResidueIff(n: nat, x: nat)
    ensures (n + x) % 0xffff == n % 0xffff <==> x % 0xffff == 0
  {
  }

  lemma CloseModulo(a: nat, b: nat)
    requires -0xffff <= a - b <= 0xffff
    ensures a % 0x1_0000_0000 == b % 0x1_0000_0000 <==> a == b
  {
  }

  predicate ZeroBetween(z: seq<byte>, lo: nat, hi: nat) {
    forall i | lo <= i < hi && i < |z| :: z[i] == 0
  }

  /** Zero bytes add nothing to the sum. */
  lemma {:induction false} ZerosAddNothing(data: seq<byte>, off: nat, j: nat, k: nat)
    requires j <= k <= WordCount(data)
    requires ZeroBetween(data, 2 * j, 2 * k)
    ensures Sum(data, off, k) == Sum(data, off, j)
  {
    if j < k {
      ZerosAddNothing(data, off, j, k - 1);
    }
  }

  /** The next word is added to the sum, on an odd field offset without exception. */
  lemma OneMore(data: seq<byte>, off: nat, k: nat, lo: byte, hi: byte)
    requires k < WordCount(data) && off % 2 == 1
    requires 2 * k + 1 < |data| && data[2 * k] == lo && data[2 * k + 1] == hi
    ensures Sum(data, off, k + 1) == Sum(data, off, k) + lo as int + 0x100 * hi as int
  {
  }

  /** A file with nothing but the headers stamp looks at, its PE header on an odd offset. */
  function OddFile(): (file: seq<byte>)
    ensures |file| == 157
  {
    seq(157, i => if i == 0 then 0x4d else if i == 1 then 0x5a
                  else if i == 0x3c then 0x41
                  else if i == 0x41 then 0x50 else if i == 0x42 then 0x45
                  else if i == 89 then 0x0b else if i == 90 then 1
                  else 0)
  }

  lemma OddFileAccepted()
    ensures Fault(OddFile(), 3, 51) == None && Opt(OddFile()) == 89
  {
    var file := OddFile();
    assert file[0x3c..0x40] == [0x41, 0, 0, 0];
    assert file[0x41..0x45] == [0x50, 0x45, 0, 0];
    assert file[89..91] == [0x0b, 1];
    assert file[0..2] == [0x4d, 0x5a];
  }

  /** The MZ magic, e_lfanew and the PE signature. */
  lemma OddFileHead(z: seq<byte>)
    requires |z| == 157 && z[0] == 0x4d && z[1] == 0x5a && z[60] == 0x41 && z[61] == 0
    requires z[64] == 0 && z[65] == 0x50 && z[66] == 0x45 && z[67] == 0
    requires ZeroBetween(z, 2, 60) && ZeroBetween(z, 62, 64)
    ensures Sum(z, 153, 34) == 0x5a4d + 0x41 + 0x5000 + 0x45
  {
    assert Sum(z, 153, 0) == 0;
    hide Sum, ZeroBetween;
    OneMore(z, 153, 0, 0x4d, 0x5a);
    ZerosAddNothing(z, 153, 1, 30);
    OneMore(z, 153, 30, 0x41, 0);
    ZerosAddNothing(z, 153, 31, 32);
    OneMore(z, 153, 32, 0, 0x50);
    OneMore(z, 153, 33, 0x45, 0);
  }

  /** The PE32 magic and the version fields, which start on an odd offset too. */
  lemma OddFileTail(z: seq<byte>)
    requires |z| == 157 && z[88] == 0 && z[89] == 0x0b && z[90] == 1 && z[91] == 0
    requires z[128] == z[130] == z[132] == z[134] == z[136] == z[138] == 0
    requires z[129] == z[133] == z[137] == 3 && z[131] == z[135] == z[139] == 51
    requires ZeroBetween(z, 68, 88) && ZeroBetween(z, 92, 128) && ZeroBetween(z, 140, 158)
    ensures Sum(z, 153, 79) == Sum(z, 153, 34) + 0x0b00 + 1 + 0xa200
  {
    hide Sum, ZeroBetween;
    ZerosAddNothing(z, 153, 34, 44);
    OneMore(z, 153, 44, 0, 0x0b);
    OneMore(z, 153, 45, 1, 0);
    ZerosAddNothing(z, 153, 46, 64);
    OneMore(z, 153, 64, 0, 3);
    OneMore(z, 153, 65, 0, 51);
    OneMore(z, 153, 66, 0, 3);
    OneMore(z, 153, 67, 0, 51);
    OneMore(z, 153, 68, 0, 3);
    OneMore(z, 153, 69, 0, 51);
    ZerosAddNothing(z, 153, 70, 79);
  }

  /** The odd file with the versions in and the checksum field zeroed, byte by byte. */
  lemma OddFileVersioned(z: seq<byte>, i: nat)
    requires Stampable(OddFile()) && z == Versioned(OddFile(), 3, 51) && i < 157
    ensures z[i] == if 129 <= i < 141 then [3, 0, 51, 0, 3, 0, 51, 0, 3, 0, 51, 0][i - 129] else OddFile()[i]
  {
    OddFileAccepted();
    VersionedAt(OddFile(), 3, 51);
    hide OddFile, Versioned, Fault;
    assert VersionBytes(3, 51) == [3, 0, 51, 0, 3, 0, 51, 0, 3, 0, 51, 0];
    assert 153 <= i < 157 ==> OddFile()[i] == 0 by { OddFileEndsInZeros(); }
  }

  lemma OddFileEndsInZeros()
    ensures forall i | 141 <= i < 157 :: OddFile()[i] == 0
  {
  }

  lemma OddFileChecksum(z: seq<byte>)
    requires Stampable(OddFile()) && z == Versioned(OddFile(), 3, 51)
    ensures Checksum(z, 153) == 0x5872
  {
    hide Sum, Versioned, VersionBytes, Stampable;
    forall i | 0 <= i < 157
      ensures z[i] == if 129 <= i < 141 then [3, 0, 51, 0, 3, 0, 51, 0, 3, 0, 51, 0][i - 129] else OddFile()[i]
    {
      OddFileVersioned(z, i);
    }
    OddFileHead(z);
    OddFileTail(z);
    assert Sum(z, 153, 79) == 0x1_57d4;
  }

  /** The even offset is needed: stamp accepts this file, and the checksum it stores does not verify. */
  lemma OddOffsetFails() returns (file: seq<byte>)
    ensures file == OddFile() && Fault(file, 3, 51) == None && Opt(file) % 2 == 1
    ensures var f, p := StampOf(file, 3, 51), Opt(file) + CHECKSUM; Checksum(f, p) != Le32(f[p..p + 4])
  {
    hide OddFile;
    file := OddFile();
    OddFileAccepted();
    OddFileChecksum(Versioned(file, 3, 51));
    hide StampOf, Versioned, Checksum, Fault;
    StampVerifiesIff(file, 3, 51);
  }
}
