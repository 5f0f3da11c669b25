/** The words that the code writer emits, as functions, and what they decode to. */
module WriterWords {
  import opened Words
  import opened A64
  import opened Encode

  /** A register operand; number 31 is SP or the zero register by context. */
  datatype Reg = Reg(n: RegNo, is64: bool, isVec: bool)

  function XReg(n: RegNo): Reg { Reg(n, true, false) }
  function QReg(n: RegNo): Reg { Reg(n, true, true) }

  function Sf(is64: bool): u32 { if is64 then 0x8000_0000 else 0 }

  function BlWord(imm: int): u32 { 0x9400_0000 + imm % 0x400_0000 }

  function BlrWord(rn: RegNo): u32 { 0xD63F_0000 + rn * 0x20 }

  function MrsWord(rt: RegNo): u32 { 0xD53B_4200 + rt }

  function MsrWord(rt: RegNo): u32 { 0xD51B_4200 + rt }

  /** ORR Xd, XZR, Xm */
  function MovWord(dst: Reg, src: Reg): u32 {
    Sf(dst.is64) + 0x2A00_0000 + src.n * 0x1_0000 + 31 * 0x20 + dst.n
  }

  /** LDR Xt, #8; B #12; value */
  function LdrU64Words(rt: RegNo, value: u64): (ws: seq<u32>)
    ensures |ws| == 4
  {
    [0x5800_0040 + rt, 0x1400_0003, LowWord(value), HighWord(value)]
  }

  function UbfmWord(dst: Reg, src: Reg, immr: int, imms: int): u32
    requires 0 <= immr < 64 && 0 <= imms < 64
  {
    (if dst.is64 then 0x8040_0000 else 0) + 0x5300_0000 + immr * 0x1_0000 + imms * 0x400 + src.n * 0x20 + dst.n
  }

  /** UBFM Xd, Xn, #0, #31 */
  function UxtwWord(dst: Reg, src: Reg): u32 { 0xD340_7C00 + src.n * 0x20 + dst.n }

  function ModeBits(mode: PairMode): int {
    match mode case Post => 1 case Offset => 2 case Pre => 3
  }

  function PairShift(width: PairSize): int {
    match width case PairW => 4 case PairX => 8 case PairQ => 16
  }

  /** STP or LDP with the scaled offset `imm7`. */
  function PairInsnWord(load: bool, width: PairSize, a: RegNo, b: RegNo, base: RegNo, imm7: int, mode: PairMode): u32 {
    (if width == PairW then 0 else 0x8000_0000) + 0x2800_0000 + (if width == PairQ then 0x400_0000 else 0)
    + ModeBits(mode) * 0x80_0000 + (if load then 0x40_0000 else 0)
    + imm7 % 0x80 * 0x8000 + b * 0x400 + base * 0x20 + a
  }

  // ---------- decoding ----------

  /** The top ten bits of a pair instruction. */
  function TopOf(load: bool, width: PairSize, mode: PairMode): int {
    (if width == PairW then 0 else 0x200) + 0xA0 + (if width == PairQ then 0x10 else 0) + 2 * ModeBits(mode)
        + (if load then 1 else 0)
  }

  lemma PairTop(top: int, load: bool, width: PairSize, mode: PairMode)
    requires top == TopOf(load, width, mode)
    ensures FormOf(top) == FPair && top / 2 % 4 == ModeBits(mode) && top / 16 % 2 == (if width == PairQ then 1 else 0)
    ensures top / 256 == (if width == PairW then 0 else 2) && top % 2 == (if load then 1 else 0)
  {
    match width { case PairW => case PairX => case PairQ => }
  }

  lemma DecodePairInsn(load: bool, width: PairSize, a: RegNo, b: RegNo, base: RegNo, imm7: int, mode: PairMode)
    requires -64 <= imm7 < 64
    ensures Decode(PairInsnWord(load, width, a, b, base, imm7, mode))
            == Pair(width, mode, load, a, b, base, PairShift(width) * imm7)
  {
    hide FormOf, PairInsnWord, SignExtend, Rd, Rn, Rt2;
    PairTop(TopOf(load, width, mode), load, width, mode);
    PairFields(load, width, a, b, base, imm7, mode);
    Sign7(imm7);
  }

  lemma PairFields(load: bool, width: PairSize, a: RegNo, b: RegNo, base: RegNo, imm7: int, mode: PairMode)
    requires -64 <= imm7 < 64
    ensures var w := PairInsnWord(load, width, a, b, base, imm7, mode);
      Rd(w) == a && Rn(w) == base && Rt2(w) == b && w / 0x8000 % 0x80 == imm7 % 0x80
          && w / 0x40_0000 == TopOf(load, width, mode)
  {
    FieldsRegs(PairInsnWord(load, width, a, b, base, imm7, mode), a, base, b + 0x20 * (imm7 % 0x80),
               TopOf(load, width, mode));
  }

  lemma Sign7(d: int)
    ensures -64 <= d < 64 ==> SignExtend(d % 0x80, 0x40) == d
  {}

  lemma DecodeMrs(rt: RegNo)
    ensures Decode(MrsWord(rt)) == MRS(rt)
  {
    var w := MrsWord(rt);
    assert w / 0x20 == 0x6A9_DA10 && w / 0x40_0000 == 0x354;
    assert FormOf(0x354) == FSys;
  }

  lemma DecodeMsr(rt: RegNo)
    ensures Decode(MsrWord(rt)) == MSR(rt)
  {
    var w := MsrWord(rt);
    assert w / 0x20 == 0x6A8_DA10 && w / 0x40_0000 == 0x354;
    assert FormOf(0x354) == FSys;
  }

  lemma DecodeMov(dst: Reg, src: Reg)
    ensures Decode(MovWord(dst, src)) == MovReg(dst.is64, dst.n, src.n)
  {
    var w := MovWord(dst, src);
    var top := if dst.is64 then 0x2A8 else 0x0A8;
    assert FormOf(top) == FMov;
    MovFields(w, dst.n, src.n, top);
    hide FormOf, MovWord;
  }

  lemma MovFields(w: u32, rd: int, rm: int, top: int)
    requires 0 <= rd < 0x20 && 0 <= rm < 0x20 && 0 <= top < 0x400
    requires w == rd + 0x20 * 0x1F + 0x1_0000 * rm + 0x40_0000 * top
    ensures w / 0x40_0000 == top && Rd(w) == rd && w / 0x20 % 0x800 == 0x1F
    ensures w / 0x1_0000 % 0x20 == rm && w / 0x20_0000 % 2 == 0
  {
    assert w / 0x20 == 0x1F + 0x800 * (rm + 0x40 * top);
    assert w / 0x1_0000 == rm + 0x40 * top;
    assert w / 0x20_0000 == 2 * top;
  }

  lemma UbfmFields(w: u32, rd: int, rn: int, imms: int, immr: int, top: int)
    requires 0 <= rd < 0x20 && 0 <= rn < 0x20 && 0 <= imms < 0x40 && 0 <= immr < 0x40 && 0 <= top < 0x400
    requires w == rd + 0x20 * rn + 0x400 * imms + 0x1_0000 * immr + 0x40_0000 * top
    ensures w / 0x40_0000 == top && Rd(w) == rd && Rn(w) == rn && w / 0x1_0000 % 0x40 == immr
            && w / 0x400 % 0x40 == imms
  {
    assert w / 0x20 == rn + 0x20 * (imms + 0x40 * (immr + 0x40 * top));
    assert w / 0x400 == imms + 0x40 * (immr + 0x40 * top);
    assert w / 0x1_0000 == immr + 0x40 * top;
  }

  lemma UbfmTop(is64: bool)
    ensures FormOf(if is64 then 0x34D else 0x14C) == FUbfm
  {}

  lemma DecodeUbfm(dst: Reg, src: Reg, immr: int, imms: int)
    requires 0 <= immr < (if dst.is64 then 64 else 32) && 0 <= imms < (if dst.is64 then 64 else 32)
    ensures Decode(UbfmWord(dst, src, immr, imms)) == UBFM(dst.is64, dst.n, src.n, immr, imms)
  {
    UbfmTop(dst.is64);
    UbfmFields(UbfmWord(dst, src, immr, imms), dst.n, src.n, imms, immr, if dst.is64 then 0x34D else 0x14C);
    hide FormOf, UbfmWord;
  }

  lemma DecodeUxtw(dst: Reg, src: Reg)
    ensures Decode(UxtwWord(dst, src)) == UBFM(true, dst.n, src.n, 0, 31)
  {
    UbfmTop(true);
    UbfmFields(UxtwWord(dst, src), dst.n, src.n, 31, 0, 0x34D);
    hide FormOf, UxtwWord;
  }

  lemma DecodeLdrU64(rt: RegNo)
    ensures Decode(0x5800_0040 + rt) == LdrLit(LitX, rt, 8)
  {
    Fields19(0x5800_0040 + rt, rt, 2, 0x58);
    assert FormOf((0x5800_0040 + rt) / 0x40_0000) == FLit;
  }

  lemma DecodeBlr(rn: RegNo)
    ensures Decode(BlrWord(rn)) == BLR(rn)
  {
    var w := BlrWord(rn);
    assert w / 0x20 == 0x6B1_F800 + rn && w / 0x400 == 0x35_8FC0 && w / 0x40_0000 == 0x358;
    assert FormOf(0x358) == FReg;
  }

  lemma DecodeBl(imm: int)
    requires -0x200_0000 <= imm < 0x200_0000
    ensures Decode(BlWord(imm)) == BL(4 * imm)
  {
    var w := BlWord(imm);
    assert w / 0x400_0000 == 0x25 && w % 0x400_0000 == imm % 0x400_0000;
    assert w / 0x40_0000 / 16 == 0x25;
  }
}
