/** The word encoders. Fields are disjoint, so the bitwise or of the fields is written as a sum. */
module Encode {
  import opened Options
  import opened Words
  import opened A64
  import opened Decoder

  /** LDR X17, #8; BR X17; target */
  function EncodeAbsBranch(target: u64): (ws: seq<u32>)
    ensures |ws| == 4
  {
    [0x5800_0051, 0xD61F_0220, LowWord(target), HighWord(target)]
  }

  function EncodeAdr(rd: RegNo, pc: u64, target: u64): u32 {
    var imm21 := Delta(target, pc) % 0x20_0000;
    0x1000_0000 + imm21 % 4 * 0x2000_0000 + imm21 / 4 * 0x20 + rd
  }

  /** ADR X30, #20; LDR X17, #8; BR X17; target */
  function EncodeAbsCall(emitPc: u64, target: u64): (ws: seq<u32>)
    ensures |ws| == 5
  {
    [EncodeAdr(30, emitPc, Wrap(emitPc + 20))] + EncodeAbsBranch(target)
  }

  function EncodeAddImm(rd: RegNo, rn: RegNo, imm12: int, is64: bool): u32 {
    (if is64 then 0x8000_0000 else 0) + 0x1100_0000 + imm12 % 0x1000 * 0x400 + rn * 0x20 + rd
  }

  /** Page distance, the word that ADRP adds to the page of `pc`. */
  function PageDelta(pc: u64, target: u64): int { Delta(PageOf(target), PageOf(pc)) / 0x1000 }

  function EncodeAdrp(rd: RegNo, pc: u64, target: u64): u32 {
    var pages := PageDelta(pc, target) % P32;
    0x9000_0000 + pages % 4 * 0x2000_0000 + pages / 4 % 0x8_0000 * 0x20 + rd
  }

  predicate AdrReaches(pc: u64, target: u64) {
    -0x10_0000 <= Delta(target, pc) < 0x10_0000
  }

  /** ADR when in range, else ADRP and ADD. */
  function EncodePcRelAddr(rd: RegNo, emitPc: u64, target: u64): (ws: seq<u32>)
    ensures |ws| == if AdrReaches(emitPc, target) then 1 else 2
  {
    if AdrReaches(emitPc, target) then [EncodeAdr(rd, emitPc, target)]
    else [EncodeAdrp(rd, emitPc, target), EncodeAddImm(rd, rd, target % 0x1000, true)]
  }

  function EncodeBCond(cond: Cond, pc: u64, target: u64): u32 {
    0x5400_0000 + Delta(target, pc) / 4 % 0x8_0000 * 0x20 + cond.Code()
  }

  function EncodeCbz(reg: RegNo, nonzero: bool, is64: bool, pc: u64, target: u64): u32 {
    (if is64 then 0x8000_0000 else 0) + 0x3400_0000 + (if nonzero then 0x100_0000 else 0)
    + Delta(target, pc) / 4 % 0x8_0000 * 0x20 + reg
  }

  function EncodeTbz(reg: RegNo, bit: int, nonzero: bool, pc: u64, target: u64): u32 {
    bit / 0x20 % 2 * 0x8000_0000 + 0x3600_0000 + (if nonzero then 0x100_0000 else 0)
    + bit % 0x20 * 0x8_0000 + Delta(target, pc) / 4 % 0x4000 * 0x20 + reg
  }

  function TryEncodeB(pc: u64, target: u64): Option<u32> {
    var imm := Delta(target, pc) / 4;
    if -0x200_0000 <= imm < 0x200_0000 then Some(0x1400_0000 + imm % 0x400_0000) else None
  }

  function TryEncodeLdrLit(rt: RegNo, is64: bool, pc: u64, target: u64): Option<u32> {
    var imm := Delta(target, pc) / 4;
    if -0x4_0000 <= imm < 0x4_0000 then
      Some(0x1800_0000 + (if is64 then 0x4000_0000 else 0) + imm % 0x8_0000 * 0x20 + rt)
    else None
  }

  // ---------- decoding what was encoded ----------

  lemma Fields19(w: u32, lo: int, imm: int, top: int)
    requires 0 <= lo < 0x20 && 0 <= imm < 0x8_0000 && 0 <= top < 0x100
    requires w == lo + 0x20 * imm + 0x100_0000 * top
    ensures w % 0x20 == lo && w / 0x20 % 0x8_0000 == imm && w / 0x40_0000 / 4 == top
    ensures w % 0x10 == lo % 0x10 && w / 0x10 % 2 == lo / 0x10
  {
    assert w / 0x20 == imm + 0x8_0000 * top;
    assert w / 0x100_0000 == top;
    var rest := 0x8_0000 * top + imm;
    assert w / 0x10 == 2 * rest + lo / 0x10 && w % 0x10 == lo % 0x10 by {
      assert lo == 0x10 * (lo / 0x10) + lo % 0x10;
      assert w == 0x10 * (2 * rest + lo / 0x10) + lo % 0x10;
    }
  }

  lemma Sign19(d: int)
    ensures -0x4_0000 <= SignExtend(d % 0x8_0000, 0x4_0000) < 0x4_0000
    ensures SignExtend(d % 0x8_0000, 0x4_0000) == d <==> -0x4_0000 <= d < 0x4_0000
  {}

  lemma Sign14(d: int)
    ensures -0x2000 <= SignExtend(d % 0x4000, 0x2000) < 0x2000
    ensures SignExtend(d % 0x4000, 0x2000) == d <==> -0x2000 <= d < 0x2000
  {}

  /** An offset below 2^62 leads from `pc` to `target` only if it is their distance. */
  lemma OffsetLands(pc: u64, target: u64, off: int)
    requires -P64 / 4 <= off < P64 / 4
    ensures Wrap(pc + off) == target <==> off == Delta(target, pc)
  {
    DeltaReaches(target, pc);
    DeltaOfOffset(pc, off);
  }

  predicate Reaches19(pc: u64, target: u64) {
    Delta(target, pc) % 4 == 0 && -0x10_0000 <= Delta(target, pc) < 0x10_0000
  }

  predicate Reaches14(pc: u64, target: u64) {
    Delta(target, pc) % 4 == 0 && -0x8000 <= Delta(target, pc) < 0x8000
  }

  predicate Reaches26(pc: u64, target: u64) {
    Delta(target, pc) % 4 == 0 && -0x800_0000 <= Delta(target, pc) < 0x800_0000
  }

  /** The decoded offset of a 19-bit field holding the truncated distance. */
  function Off19(pc: u64, target: u64): int {
    4 * SignExtend(Delta(target, pc) / 4 % 0x8_0000, 0x4_0000)
  }

  lemma Off19Exact(pc: u64, target: u64)
    ensures Wrap(pc + Off19(pc, target)) == target <==> Reaches19(pc, target)
    ensures Reaches19(pc, target) ==> Off19(pc, target) == Delta(target, pc)
  {
    Sign19(Delta(target, pc) / 4);
    OffsetLands(pc, target, Off19(pc, target));
  }

  lemma DecodeBCond(cond: Cond, pc: u64, target: u64)
    ensures Decode(EncodeBCond(cond, pc, target)) == BCond(cond.Code(), Off19(pc, target))
  {
    var w := EncodeBCond(cond, pc, target);
    Fields19(w, cond.Code(), Delta(target, pc) / 4 % 0x8_0000, 0x54);
    assert FormOf(w / 0x40_0000) == FCond;
  }

  lemma DecodeCbz(reg: RegNo, nonzero: bool, is64: bool, pc: u64, target: u64)
    ensures Decode(EncodeCbz(reg, nonzero, is64, pc, target)) == CB(is64, nonzero, reg, Off19(pc, target))
  {
    var w := EncodeCbz(reg, nonzero, is64, pc, target);
    var top8 := (if is64 then 0x80 else 0) + 0x34 + (if nonzero then 1 else 0);
    Fields19(w, reg, Delta(target, pc) / 4 % 0x8_0000, top8);
    assert FormOf(w / 0x40_0000) == FCB;
  }

  lemma DecodeLdrLit(rt: RegNo, is64: bool, pc: u64, target: u64)
    ensures TryEncodeLdrLit(rt, is64, pc, target).Some? <==> -0x10_0000 <= Delta(target, pc) < 0x10_0000
    ensures var r := TryEncodeLdrLit(rt, is64, pc, target); r.Some? ==>
        Decode(r.value) == LdrLit(if is64 then LitX else LitW, rt, Off19(pc, target))
  {
    var r := TryEncodeLdrLit(rt, is64, pc, target);
    if r.Some? {
      Fields19(r.value, rt, Delta(target, pc) / 4 % 0x8_0000, if is64 then 0x58 else 0x18);
      assert FormOf(r.value / 0x40_0000) == FLit;
    }
  }

  lemma FieldsTb(w: u32, reg: int, imm: int, b40: int, top8: int)
    requires 0 <= reg < 0x20 && 0 <= imm < 0x4000 && 0 <= b40 < 0x20 && 0 <= top8 < 0x100
    requires w == reg + 0x20 * imm + 0x8_0000 * b40 + 0x100_0000 * top8
    ensures w % 0x20 == reg && w / 0x20 % 0x4000 == imm && w / 0x8_0000 % 0x20 == b40 && w / 0x40_0000 / 4 == top8
  {
    assert w / 0x20 == imm + 0x4000 * (b40 + 0x20 * top8);
    assert w / 0x8_0000 == b40 + 0x20 * top8;
    assert w / 0x100_0000 == top8;
  }

  lemma FormOfTb(top: int, b5: int, nz: int)
    requires 0 <= b5 < 2 && 0 <= nz < 2
    requires top / 4 == b5 * 0x80 + 0x36 + nz
    ensures FormOf(top) == FTB && top / 512 == b5 && top / 4 % 2 == nz
  {}

  lemma DecodeTbz(reg: RegNo, bit: int, nonzero: bool, pc: u64, target: u64)
    requires 0 <= bit
    ensures Decode(EncodeTbz(reg, bit, nonzero, pc, target))
         == TB(bit % 64, nonzero, reg, 4 * SignExtend(Delta(target, pc) / 4 % 0x4000, 0x2000))
  {
    var w := EncodeTbz(reg, bit, nonzero, pc, target);
    var b5 := bit / 0x20 % 2;
    assert 32 * b5 + bit % 0x20 == bit % 64;
    var top8 := b5 * 0x80 + 0x36 + (if nonzero then 1 else 0);
    FieldsTb(w, reg, Delta(target, pc) / 4 % 0x4000, bit % 0x20, top8);
    FormOfTb(w / 0x40_0000, b5, if nonzero then 1 else 0);
    hide FormOf, EncodeTbz;
  }

  lemma FormOfAdr(top: int, immlo: int, op: int)
    requires 0 <= immlo < 4 && 0 <= op < 2
    requires top / 4 == 0x10 + 0x20 * immlo + 0x80 * op
    ensures FormOf(top) == FADR && top / 512 == op
  {
    assert top / 8 == 0x08 + 0x10 * immlo + 0x40 * op;
    assert top / 16 == 0x04 + 0x08 * immlo + 0x20 * op;
  }

  lemma FieldsAdr(w: u32, rd: int, imm21: int, op: int)
    requires 0 <= rd < 0x20 && 0 <= imm21 < 0x20_0000 && 0 <= op < 2
    requires w == rd + 0x20 * (imm21 / 4) + 0x100_0000 * (0x10 + 0x20 * (imm21 % 4) + 0x80 * op)
    ensures FormOf(w / 0x40_0000) == FADR && w / 0x40_0000 / 512 == op
    ensures Rd(w) == rd && Imm21(w) == SignExtend(imm21, 0x10_0000)
  {
    hide FormOf, SignExtend;
    Fields19(w, rd, imm21 / 4, 0x10 + 0x20 * (imm21 % 4) + 0x80 * op);
    FormOfAdr(w / 0x40_0000, imm21 % 4, op);
    LowImmediate(w, imm21 % 4, op);
  }

  lemma LowImmediate(w: nat, immlo: nat, op: nat)
    requires immlo < 4 && op < 2 && w / 0x40_0000 / 4 == 0x10 + 0x20 * immlo + 0x80 * op
    ensures w / 0x2000_0000 % 4 == immlo
  {
    assert w / 0x2000_0000 == w / 0x40_0000 / 4 / 0x20;
  }

  lemma DecodeAdr(rd: RegNo, pc: u64, target: u64)
    ensures Decode(EncodeAdr(rd, pc, target)) == ADR(rd, SignExtend(Delta(target, pc) % 0x20_0000, 0x10_0000))
  {
    FieldsAdr(EncodeAdr(rd, pc, target), rd, Delta(target, pc) % 0x20_0000, 0);
    hide EncodeAdr, FormOf, Rd, Imm21;
  }

  lemma DecodeAdrp(rd: RegNo, pc: u64, target: u64)
    ensures Decode(EncodeAdrp(rd, pc, target)) == ADRP(rd, SignExtend(PageDelta(pc, target) % 0x20_0000, 0x10_0000))
  {
    var d := PageDelta(pc, target);
    var pages := d % P32;
    var imm21 := d % 0x20_0000;
    assert pages % 4 == imm21 % 4 && pages / 4 % 0x8_0000 == imm21 / 4 by { LowBits(d); }
    FieldsAdr(EncodeAdrp(rd, pc, target), rd, imm21, 1);
    hide EncodeAdrp, FormOf, Rd, Imm21, PageDelta;
  }

  lemma LowBitsOf(d: int, q: int, a: int, b1: int, b0: int)
    requires 0 <= b0 < 4 && 0 <= b1 < 0x8_0000 && 0 <= a < 0x800
    requires d == P32 * q + 0x20_0000 * a + 4 * b1 + b0
    ensures d % P32 % 4 == b0 && d % 0x20_0000 % 4 == b0
    ensures d % P32 / 4 % 0x8_0000 == b1 && d % 0x20_0000 / 4 == b1
  {
    assert d % P32 == 0x20_0000 * a + 4 * b1 + b0;
    WordBits(d % P32, a, b1, b0);
    WordBits(d, 0x800 * q + a, b1, b0);
    WordBits(d % 0x20_0000, 0, b1, b0);
  }

  lemma WordBits(d: int, a: int, b1: int, b0: int)
    requires 0 <= b0 < 4 && 0 <= b1 < 0x8_0000 && d == 0x20_0000 * a + 4 * b1 + b0
    ensures d % 0x20_0000 == 4 * b1 + b0 && d % 4 == b0 && d / 4 % 0x8_0000 == b1
  {
    assert d / 4 == 0x8_0000 * a + b1;
  }

  lemma LowBits(d: int)
    ensures d % P32 % 4 == d % 0x20_0000 % 4
    ensures d % P32 / 4 % 0x8_0000 == d % 0x20_0000 / 4
  {
    var e := d / 4;
    var g := e / 0x8_0000;
    LowBitsOf(d, g / 0x800, g % 0x800, e % 0x8_0000, d % 4);
  }

  lemma Sign21(d: int)
    ensures -0x10_0000 <= SignExtend(d % 0x20_0000, 0x10_0000) < 0x10_0000
    ensures SignExtend(d % 0x20_0000, 0x10_0000) == d <==> -0x10_0000 <= d < 0x10_0000
  {}

  lemma AdrExact(pc: u64, target: u64)
    ensures Wrap(pc + SignExtend(Delta(target, pc) % 0x20_0000, 0x10_0000)) == target <==> AdrReaches(pc, target)
  {
    Sign21(Delta(target, pc));
    OffsetLands(pc, target, SignExtend(Delta(target, pc) % 0x20_0000, 0x10_0000));
  }

  /** ADRP reaches the page of `target` exactly within 2^20 pages (4 GiB) either way. */
  predicate AdrpReaches(pc: u64, target: u64) {
    -0x10_0000 <= PageDelta(pc, target) < 0x10_0000
  }

  lemma AdrpExact(pc: u64, target: u64)
    ensures Wrap(PageOf(pc) + 0x1000 * SignExtend(PageDelta(pc, target) % 0x20_0000, 0x10_0000)) == PageOf(target)
       <==> AdrpReaches(pc, target)
  {
    var d := Delta(PageOf(target), PageOf(pc));
    assert d % 0x1000 == 0;
    Sign21(PageDelta(pc, target));
    OffsetLands(PageOf(pc), PageOf(target), 0x1000 * SignExtend(PageDelta(pc, target) % 0x20_0000, 0x10_0000));
  }

  lemma FieldsRegs(w: u32, rd: int, rn: int, imm: int, top: int)
    requires 0 <= rd < 0x20 && 0 <= rn < 0x20 && 0 <= imm < 0x1000 && 0 <= top < 0x400
    requires w == rd + 0x20 * rn + 0x400 * imm + 0x40_0000 * top
    ensures Rd(w) == rd && Rn(w) == rn && Imm12(w) == imm && w / 0x40_0000 == top
    ensures Rt2(w) == imm % 0x20 && w / 0x8000 % 0x80 == imm / 0x20
  {
    assert w / 0x20 == rn + 0x20 * (imm + 0x1000 * top);
    assert w / 0x400 == imm + 0x1000 * top;
    assert w / 0x8000 == imm / 0x20 + 0x80 * top by {
      assert imm == 0x20 * (imm / 0x20) + imm % 0x20;
    }
  }

  lemma DecodeAddImm(rd: RegNo, rn: RegNo, imm: int, is64: bool)
    ensures Decode(EncodeAddImm(rd, rn, imm, is64)) == AddImm(is64, rd, rn, imm % 0x1000)
  {
    hide Rd, Rn, Imm12, FormOf;
    AddForms();
    FieldsRegs(EncodeAddImm(rd, rn, imm, is64), rd, rn, imm % 0x1000, if is64 then 0x244 else 0x44);
  }

  lemma AddForms()
    ensures FormOf(0x244) == FAddSub && FormOf(0x44) == FAddSub
  {}

  lemma DecodeB(pc: u64, target: u64)
    ensures TryEncodeB(pc, target).Some? <==> -0x800_0000 <= Delta(target, pc) < 0x800_0000
    ensures var r := TryEncodeB(pc, target); r.Some? ==>
        Decode(r.value).B? && (Wrap(pc + Decode(r.value).off) == target <==> Delta(target, pc) % 4 == 0)
  {
    var imm := Delta(target, pc) / 4;
    var r := TryEncodeB(pc, target);
    if r.Some? {
      var w := r.value;
      var f := imm % 0x400_0000;
      assert w / 0x400_0000 == 5 && w % 0x400_0000 == f;
      assert w / 0x40_0000 / 16 == 5;
      assert Decode(w) == B(4 * imm);
      OffsetLands(pc, target, 4 * imm);
    }
  }
}