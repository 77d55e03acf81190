/**
 The 512-byte FXSAVE image (Intel SDM Vol. 1, section 10.5.1), the driver's own
 save-area layout, and what moving bytes between the two means for the registers.
 */
module FxImage {
  import opened Bytes

  const SSE_SAVE_SIZE: nat := 512
  const FXI_MXCSR: nat := 0x18
  const FXI_XMM: nat := 0xa0
  const XMM_BYTES: nat := 0x80
  const SAVE_XMM: nat := 0x00
  const SAVE_MXCSR: nat := 0x80
  const DEFAULT_MXCSR: u32 := 0x1f80

  /** MXCSR and XMM0-7: the state the driver keeps per thread. */
  datatype SseRegs = SseRegs(mxcsr: seq<byte>, xmm: seq<byte>)
  type Sse = s: SseRegs | |s.mxcsr| == 4 && |s.xmm| == 0x80 witness SseRegs(Zeros(4), Zeros(0x80))

  /** The x87 state in the form FXSAVE gives it: 24 control bytes and the register stack. */
  datatype FpRegs = FpRegs(env: seq<byte>, stack: seq<byte>)
  type Fp = f: FpRegs | |f.env| == 24 && |f.stack| == 128 witness FpRegs(Zeros(24), Zeros(128))

  type MxcsrMask = m: seq<byte> | |m| == 4 witness Zeros(4)

  const CLEAN: Sse := SseRegs(Bytes32(DEFAULT_MXCSR), Zeros(XMM_BYTES))

  /**
   What clean means to the processor (Intel SDM Vol. 1, section 10.2.3): no exception flag and not
   DAZ (bits 0-6), all six exceptions masked (bits 7-12), rounding to nearest, not FTZ, and the
   reserved bits clear (bits 13-31); and zero in every XMM register.
   */
  predicate Quiet(sse: Sse) {
    var mxcsr := Le32(sse.mxcsr);
    && mxcsr % 0x80 == 0 && mxcsr / 0x80 % 0x40 == 0x3f && mxcsr / 0x2000 == 0
    && forall i | 0 <= i < 128 :: sse.xmm[i] == 0
  }

  /** The defaults are that state, and there is only one. */
  lemma CleanIffQuiet(sse: Sse)
    ensures Quiet(sse) <==> sse == CLEAN
  {
    Bytes32RoundTrip(DEFAULT_MXCSR);
    if Quiet(sse) {
      var m: int := Le32(sse.mxcsr);
      assert m == 0x1f80;
      assert sse.mxcsr == [0x80, 0x1f, 0, 0];
      assert sse.xmm == CLEAN.xmm;
    }
  }

  /** The fields of an FXSAVE image; in 32-bit mode FXSAVE does not write the bytes from 288 on. */
  datatype Image = Image(fp: Fp, sse: Sse, mask: MxcsrMask, rest: seq<byte>)

  /** The fields of a save area. */
  datatype Area = Area(sse: Sse, rest: seq<byte>)

  /** A save area as PoolBuildOne leaves it. */
  const FRESH: Area := Area(CLEAN, Zeros(SSE_SAVE_SIZE - 0x84))

  // ---- the same, as bytes ----

  type Bytes512 = b: seq<byte> | |b| == 512 witness Zeros(512)

  function ImageOf(b: Bytes512): Image {
    Image(FpRegs(b[..24], b[32..160]), SseRegs(b[FXI_MXCSR..FXI_MXCSR + 4], b[FXI_XMM..FXI_XMM + XMM_BYTES]),
          b[28..32], b[288..])
  }

  function AreaOf(b: Bytes512): Area {
    Area(SseRegs(b[SAVE_MXCSR..SAVE_MXCSR + 4], b[SAVE_XMM..SAVE_XMM + XMM_BYTES]), b[SAVE_MXCSR + 4..])
  }

  /** The 288 bytes FXSAVE stores. */
  function FxSaveBytes(fp: Fp, sse: Sse, mask: MxcsrMask): (r: seq<byte>)
    ensures |r| == 288
  {
    fp.env + sse.mxcsr + mask + fp.stack + sse.xmm
  }

  lemma FxSaveFields(b: Bytes512, fp: Fp, sse: Sse, mask: MxcsrMask)
    ensures |Blit(b, 0, FxSaveBytes(fp, sse, mask))| == 512
    ensures ImageOf(Blit(b, 0, FxSaveBytes(fp, sse, mask))) == Image(fp, sse, mask, ImageOf(b).rest)
  {
    var r := FxSaveBytes(fp, sse, mask);
    assert r[..24] == fp.env;
    assert r[24..28] == sse.mxcsr;
    assert r[28..32] == mask;
    assert r[32..160] == fp.stack;
    assert |r| == 288 && |sse.xmm| == 128;
    assert r[160..] == sse.xmm;
    assert r[160..288] == r[160..];
    var b' := Blit(b, 0, r);
    assert b'[..288] == r;
    assert forall lo, hi | 0 <= lo <= hi <= 288 :: b'[lo..hi] == b'[..288][lo..hi];
    BlitReads(b, 0, r, 288, 512);
  }

  /** Writing the MXCSR dword and the XMM block of an image replaces those two fields and no other. */
  lemma ImageWrites(b: Bytes512, mxcsr: seq<byte>, xmm: seq<byte>)
    requires |mxcsr| == 4 && |xmm| == XMM_BYTES
    ensures var m := Blit(b, FXI_MXCSR, mxcsr);
            |m| == 512 && |Blit(m, FXI_XMM, xmm)| == 512
            && ImageOf(Blit(m, FXI_XMM, xmm)) == ImageOf(b).(sse := SseRegs(mxcsr, xmm))
  {
    var m := Blit(b, FXI_MXCSR, mxcsr);
    BlitReads(b, FXI_MXCSR, mxcsr, 0, 24);
    BlitReads(b, FXI_MXCSR, mxcsr, 24, 28);
    BlitReads(b, FXI_MXCSR, mxcsr, 28, 32);
    BlitReads(b, FXI_MXCSR, mxcsr, 32, 160);
    BlitReads(b, FXI_MXCSR, mxcsr, 288, 512);
    BlitReads(m, FXI_XMM, xmm, 0, 24);
    BlitReads(m, FXI_XMM, xmm, 24, 28);
    BlitReads(m, FXI_XMM, xmm, 28, 32);
    BlitReads(m, FXI_XMM, xmm, 32, 160);
    BlitReads(m, FXI_XMM, xmm, 160, 288);
    BlitReads(m, FXI_XMM, xmm, 288, 512);
  }

  /** The same for a save area. */
  lemma AreaWrites(b: Bytes512, mxcsr: seq<byte>, xmm: seq<byte>)
    requires |mxcsr| == 4 && |xmm| == XMM_BYTES
    ensures var m := Blit(b, SAVE_MXCSR, mxcsr);
            |m| == 512 && |Blit(m, SAVE_XMM, xmm)| == 512
            && AreaOf(Blit(m, SAVE_XMM, xmm)) == AreaOf(b).(sse := SseRegs(mxcsr, xmm))
  {
    var m := Blit(b, SAVE_MXCSR, mxcsr);
    BlitReads(b, SAVE_MXCSR, mxcsr, 0x80, 0x84);
    BlitReads(b, SAVE_MXCSR, mxcsr, 0x84, 512);
    BlitReads(m, SAVE_XMM, xmm, 0, 0x80);
    BlitReads(m, SAVE_XMM, xmm, 0x80, 0x84);
    BlitReads(m, SAVE_XMM, xmm, 0x84, 512);
  }

  lemma FreshFields()
    ensures |Blit(Zeros(SSE_SAVE_SIZE), SAVE_MXCSR, Bytes32(DEFAULT_MXCSR))| == 512
    ensures AreaOf(Blit(Zeros(SSE_SAVE_SIZE), SAVE_MXCSR, Bytes32(DEFAULT_MXCSR))) == FRESH
  {
  }
}
