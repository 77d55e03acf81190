/** Kernel memory as bytes, near jumps in it, and what patching SwapContext does to the instruction stream. */
module KernelCode {
  import opened Bytes

  const SWAPCONTEXT_VA: u32 := 0x8013_cd90
  const DETOUR_LEN: nat := 5
  const SWAP_EXPECTED: seq<byte> := [0x0a, 0xc9, 0x9c, 0x8b, 0x0b]
  const JMP_REL32: byte := 0xe9
  const JMP_LEN: nat := 5
  const SPACE: nat := 0x1_0000_0000

  /** Every address holds a byte. */
  type Memory = u32 -> byte

  /** Address arithmetic wraps at 2^32. */
  function Plus(a: u32, n: nat): u32
    requires n <= SPACE
  {
    if a + n < SPACE then a + n else a + n - SPACE
  }

  function Minus(a: u32, n: nat): u32
    requires n < SPACE
  {
    if n <= a then a - n else a - n + SPACE
  }

  function Fetch(m: Memory, a: u32, n: nat): (r: seq<byte>)
    requires n <= SPACE
    ensures |r| == n
    ensures forall i :: 0 <= i < n ==> r[i] == m(Plus(a, i))
  {
    seq<byte>(n, (i: nat) requires 0 <= i < n => m(Plus(a, i)))
  }

  /** m with bs stored from a on; the stores do not wrap. */
  function Stored(m: Memory, a: u32, bs: seq<byte>): Memory
    requires a + |bs| <= SPACE
  {
    (x: u32) => if a <= x < a + |bs| then bs[x - a] else m(x)
  }

  lemma StoredReads(m: Memory, a: u32, bs: seq<byte>, b: u32, n: nat)
    requires a + |bs| <= SPACE && b + n <= SPACE
    ensures b == a && n == |bs| ==> Fetch(Stored(m, a, bs), b, n) == bs
    ensures b + n <= a || a + |bs| <= b ==> Fetch(Stored(m, a, bs), b, n) == Fetch(m, b, n)
  {
  }

  // ---- near jumps ----

  /** The displacement of a jump, as the unsigned reading of the LONG the driver computes. */
  function Delta(from: u32, to: u32): u32 {
    Minus(to, from)
  }

  /** E9 rel32 at address at, to address to. */
  function Jump(at: u32, to: u32): (r: seq<byte>)
    ensures |r| == JMP_LEN
  {
    [JMP_REL32] + Bytes32(Delta(Plus(at, JMP_LEN), to))
  }

  /** Where the processor goes from an E9 rel32 at at. */
  function JumpTarget(m: Memory, at: u32): u32 {
    Plus(Plus(at, JMP_LEN), Le32(Fetch(m, Plus(at, 1), 4)))
  }

  predicate IsJump(m: Memory, at: u32, to: u32) {
    m(at) == 0xe9 && JumpTarget(m, at) == to
  }

  lemma WrappedDelta(a: u32, to: u32)
    ensures Plus(a, Delta(a, to)) == to
  {
  }

  /** The jump written at any address reaches any address, whatever wraps. */
  lemma JumpReaches(m: Memory, at: u32, to: u32)
    requires Fetch(m, at, JMP_LEN) == Jump(at, to)
    ensures IsJump(m, at, to)
  {
    var f := Fetch(m, at, JMP_LEN);
    assert f[0] == m(Plus(at, 0));
    forall i | 0 <= i < 4
      ensures Fetch(m, Plus(at, 1), 4)[i] == f[i + 1]
    {
      assert Plus(Plus(at, 1), i) == Plus(at, i + 1);
    }
    assert Fetch(m, Plus(at, 1), 4) == Bytes32(Delta(Plus(at, JMP_LEN), to));
    Bytes32RoundTrip(Delta(Plus(at, JMP_LEN), to));
    WrappedDelta(Plus(at, JMP_LEN), to);
  }

  // ---- the detour ----

  /** The trampoline: the displaced bytes and a jump back behind them. */
  function Trampoline(m: Memory, tramp: u32): (r: seq<byte>)
    ensures |r| == DETOUR_LEN + JMP_LEN
  {
    Fetch(m, SWAPCONTEXT_VA, DETOUR_LEN) + Jump(Plus(tramp, DETOUR_LEN), Plus(SWAPCONTEXT_VA, DETOUR_LEN))
  }

  /** The ten bytes of the trampoline miss the patched bytes. */
  predicate ClearOfPatch(tramp: u32) {
    tramp + DETOUR_LEN + JMP_LEN <= SPACE
    && (tramp + DETOUR_LEN + JMP_LEN <= SWAPCONTEXT_VA || SWAPCONTEXT_VA + DETOUR_LEN <= tramp)
  }

  /** Memory once InstallSwapHook has succeeded. */
  function Patched(m: Memory, tramp: u32, detour: u32): Memory
    requires ClearOfPatch(tramp)
  {
    Stored(Stored(m, tramp, Trampoline(m, tramp)), SWAPCONTEXT_VA, Jump(SWAPCONTEXT_VA, detour))
  }

  /** Memory once RemoveSwapHook has put the original bytes back. */
  function Unpatched(m: Memory, original: seq<byte>): Memory
    requires |original| == DETOUR_LEN
  {
    Stored(m, SWAPCONTEXT_VA, original)
  }

  /** At any addresses, the patched entry reaches the detour and the trampoline's end reaches SwapContext + 5. */
  lemma DetourReaches(m: Memory, tramp: u32, detour: u32)
    requires ClearOfPatch(tramp)
    ensures var p := Patched(m, tramp, detour);
            && IsJump(p, SWAPCONTEXT_VA, detour)
            && Fetch(p, tramp, DETOUR_LEN) == Fetch(m, SWAPCONTEXT_VA, DETOUR_LEN)
            && IsJump(p, Plus(tramp, DETOUR_LEN), Plus(SWAPCONTEXT_VA, DETOUR_LEN))
  {
    var t := Trampoline(m, tramp);
    var m1 := Stored(m, tramp, t);
    var p := Patched(m, tramp, detour);
    StoredReads(m, tramp, t, tramp, 10);
    StoredReads(m1, SWAPCONTEXT_VA, Jump(SWAPCONTEXT_VA, detour), SWAPCONTEXT_VA, 5);
    StoredReads(m1, SWAPCONTEXT_VA, Jump(SWAPCONTEXT_VA, detour), tramp, 10);
    JumpReaches(p, SWAPCONTEXT_VA, detour);
    var f := Fetch(p, tramp, 10);
    assert f == t;
    assert Fetch(p, tramp, 5) == f[..5];
    forall i | 0 <= i < 5
      ensures Fetch(p, Plus(tramp, 5), 5)[i] == f[i + 5]
    {
      assert Plus(Plus(tramp, 5), i) == Plus(tramp, i + 5);
    }
    assert Fetch(p, Plus(tramp, 5), 5) == t[5..];
    JumpReaches(p, Plus(tramp, 5), Plus(SWAPCONTEXT_VA, 5));
  }

  /**
   The trampoline carries on where the detour broke in: its displaced bytes, then the bytes its
   jump leads to, are the original instruction stream of SwapContext, to any length that does
   not run into the trampoline's own block.
   */
  lemma TrampolineStream(m: Memory, tramp: u32, detour: u32, n: nat)
    requires ClearOfPatch(tramp) && SWAPCONTEXT_VA + DETOUR_LEN + n <= SPACE
    requires SWAPCONTEXT_VA + DETOUR_LEN + n <= tramp || tramp < SWAPCONTEXT_VA
    ensures var p := Patched(m, tramp, detour);
            Fetch(p, tramp, DETOUR_LEN) + Fetch(p, JumpTarget(p, Plus(tramp, DETOUR_LEN)), n)
            == Fetch(m, SWAPCONTEXT_VA, DETOUR_LEN + n)
  {
    DetourReaches(m, tramp, detour);
    var p := Patched(m, tramp, detour);
    var a := Plus(SWAPCONTEXT_VA, DETOUR_LEN);
    StoredReads(m, tramp, Trampoline(m, tramp), a, n);
    StoredReads(Stored(m, tramp, Trampoline(m, tramp)), SWAPCONTEXT_VA, Jump(SWAPCONTEXT_VA, detour), a, n);
    var whole := Fetch(m, SWAPCONTEXT_VA, DETOUR_LEN + n);
    forall i | 0 <= i < n
      ensures Fetch(m, a, n)[i] == whole[DETOUR_LEN + i]
    {
      assert Plus(a, i) == Plus(SWAPCONTEXT_VA, DETOUR_LEN + i);
    }
  }

  /** Removing the hook leaves nothing behind but the bytes of the trampoline's own block. */
  lemma UnpatchRestores(m: Memory, tramp: u32, detour: u32, a: u32)
    requires ClearOfPatch(tramp)
    requires !(tramp <= a < tramp + DETOUR_LEN + JMP_LEN)
    ensures Unpatched(Patched(m, tramp, detour), Fetch(m, SWAPCONTEXT_VA, DETOUR_LEN))(a) == m(a)
  {
    if SWAPCONTEXT_VA <= a < SWAPCONTEXT_VA + DETOUR_LEN {
      var i := a - SWAPCONTEXT_VA;
      assert Plus(SWAPCONTEXT_VA, i) == a;
    }
  }

  /** The same bytes at every address. */
  ghost predicate Same(m: Memory, m': Memory) {
    forall a: u32 :: m(a) == m'(a)
  }

  lemma SameJumps(m: Memory, m': Memory, at: u32, to: u32)
    requires Same(m, m') && IsJump(m, at, to)
    ensures IsJump(m', at, to)
  {
    assert Fetch(m, Plus(at, 1), 4) == Fetch(m', Plus(at, 1), 4);
  }
}
