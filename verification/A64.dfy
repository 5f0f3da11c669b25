/**
 * The A64 instructions that the hook engine emits or relocates, after the Arm Architecture
 * Reference Manual (DDI 0487): encodings and operation from section C6.2, condition codes
 * from section C1.2.4. Any other word is an instruction without PC dependency whose effect
 * is a parameter.
 */
module A64 {
  import opened Words
  import opened Memory

  type Regs = s: seq<u64> | |s| == 31 witness seq(31, _ => 0)
  type QRegs = s: seq<u128> | |s| == 32 witness seq(32, _ => 0)
  type RegNo = n: int | 0 <= n < 32
  /** N:Z:C:V */
  type Nibble = n: int | 0 <= n < 16

  /** Everything but the program counter. */
  datatype Core = Core(x: Regs, sp: u64, nzcv: Nibble, q: QRegs, mem: Mem)

  datatype State = State(c: Core, pc: u64)

  /** The effect of the words this model does not interpret. */
  type Uninterpreted = (u32, Core) -> Core

  datatype PairSize = PairW | PairX | PairQ
  datatype PairMode = Post | Offset | Pre
  datatype LitSize = LitW | LitX | LitSW | LitPrefetch | LitS | LitD | LitQ

  datatype Insn =
    | B(off: int)
    | BL(off: int)
    | BCond(cond: Nibble, off: int)
    | CB(is64: bool, nonzero: bool, rt: RegNo, off: int)
    | TB(bit: int, nonzero: bool, rt: RegNo, off: int)
    | ADR(rd: RegNo, imm: int)
    | ADRP(rd: RegNo, pages: int)
    | LdrLit(size: LitSize, rt: RegNo, off: int)
    | AddImm(is64: bool, rd: RegNo, rn: RegNo, imm: int)
    | SubImm(is64: bool, rd: RegNo, rn: RegNo, imm: int)
    | BR(rn: RegNo)
    | BLR(rn: RegNo)
    | RET(rn: RegNo)
    | LdrImm(is64: bool, rt: RegNo, rn: RegNo, imm: int)
    | StrImm(is64: bool, rt: RegNo, rn: RegNo, imm: int)
    | Pair(width: PairSize, mode: PairMode, load: bool, a: RegNo, b: RegNo, base: RegNo, imm: int)
    | MRS(rt: RegNo)
    | MSR(rt: RegNo)
    | MovReg(is64: bool, rd: RegNo, rm: RegNo)
    | MOVZ(is64: bool, rd: RegNo, imm: int, hw: int)
    | UBFM(is64: bool, rd: RegNo, rn: RegNo, immr: int, imms: int)
    | Other(word: u32)

  // ---------- decoding ----------

  datatype Form =
    | FB | FBL | FCond | FCB | FTB | FADR | FLit | FAddSub | FReg | FImm | FPair | FSys | FMov | FMovZ | FUbfm | FOther

  /** The encoding group selected by the top ten bits of a word. */
  function FormOf(top: int): Form {
    if top / 16 == 0x05 then FB
    else if top / 16 == 0x25 then FBL
    else if top / 4 == 0x54 then FCond
    else if top / 8 % 64 == 0x1A then FCB
    else if top / 8 % 64 == 0x1B then FTB
    else if top / 4 % 32 == 0x10 then FADR
    else if top / 4 % 64 == 0x18 || top / 4 % 64 == 0x1C then FLit
    else if top % 512 == 0x044 || top % 512 == 0x144 then FAddSub
    else if top / 8 == 0x6B then FReg
    else if top == 0x3E5 || top == 0x2E5 || top == 0x3E4 || top == 0x2E4 then FImm
    else if top / 32 % 8 == 5 && top / 8 % 2 == 0 && top / 2 % 4 != 0 then FPair
    else if top == 0x354 then FSys
    else if top == 0x0A8 || top == 0x2A8 then FMov
    else if top % 512 / 2 == 0x0A5 then FMovZ
    else if top == 0x14C || top == 0x34D then FUbfm
    else FOther
  }

  function Rd(w: u32): RegNo { w % 0x20 }
  function Rn(w: u32): RegNo { w / 0x20 % 0x20 }
  function Rt2(w: u32): RegNo { w / 0x400 % 0x20 }
  function Imm12(w: u32): int { w / 0x400 % 0x1000 }
  function Imm19(w: u32): int { 4 * SignExtend(w / 0x20 % 0x8_0000, 0x4_0000) }
  function Imm26(w: u32): int { 4 * SignExtend(w % 0x400_0000, 0x200_0000) }
  function Imm14(w: u32): int { 4 * SignExtend(w / 0x20 % 0x4000, 0x2000) }
  function Imm21(w: u32): int { SignExtend(w / 0x20 % 0x8_0000 * 4 + w / 0x2000_0000 % 4, 0x10_0000) }

  function LitSizeOf(top: int): LitSize {
    var opc := top / 256;
    if top / 16 % 2 == 0 then
      if opc == 0 then LitW else if opc == 1 then LitX else if opc == 2 then LitSW else LitPrefetch
    else
      if opc == 0 then LitS else if opc == 1 then LitD else LitQ
  }

  function DecodePair(w: u32): Insn {
    var top := w / 0x40_0000;
    var m := top / 2 % 4;
    var mode := if m == 1 then Post else if m == 2 then Offset else Pre;
    var imm7 := SignExtend(w / 0x8000 % 0x80, 0x40);
    var simd := top / 16 % 2 == 1;
    var opc := top / 256;
    if opc == 2 && !simd then Pair(PairX, mode, top % 2 == 1, Rd(w), Rt2(w), Rn(w), 8 * imm7)
    else if opc == 2 && simd then Pair(PairQ, mode, top % 2 == 1, Rd(w), Rt2(w), Rn(w), 16 * imm7)
    else if opc == 0 && !simd then Pair(PairW, mode, top % 2 == 1, Rd(w), Rt2(w), Rn(w), 4 * imm7)
    else Other(w)
  }

  function Decode(w: u32): Insn {
    var top := w / 0x40_0000;
    match FormOf(top)
    case FB => B(Imm26(w))
    case FBL => BL(Imm26(w))
    case FCond => if w / 0x10 % 2 == 0 then BCond(w % 0x10, Imm19(w)) else Other(w)
    case FCB => CB(top / 512 == 1, top / 4 % 2 == 1, Rd(w), Imm19(w))
    case FTB => TB(top / 512 * 32 + w / 0x8_0000 % 0x20, top / 4 % 2 == 1, Rd(w), Imm14(w))
    case FADR => if top / 512 == 0 then ADR(Rd(w), Imm21(w)) else ADRP(Rd(w), Imm21(w))
    case FLit => if top / 256 == 3 && top / 16 % 2 == 1 then Other(w) else LdrLit(LitSizeOf(top), Rd(w), Imm19(w))
    case FAddSub =>
      if top % 512 == 0x044 then AddImm(top / 512 == 1, Rd(w), Rn(w), Imm12(w))
      else SubImm(top / 512 == 1, Rd(w), Rn(w), Imm12(w))
    case FReg =>
      if w % 0x20 != 0 then Other(w)
      else if w / 0x400 == 0x35_87C0 then BR(Rn(w))
      else if w / 0x400 == 0x35_8FC0 then BLR(Rn(w))
      else if w / 0x400 == 0x35_97C0 then RET(Rn(w))
      else Other(w)
    case FImm =>
      if top % 2 == 1 then LdrImm(top == 0x3E5, Rd(w), Rn(w), Imm12(w) * (if top == 0x3E5 then 8 else 4))
      else StrImm(top == 0x3E4, Rd(w), Rn(w), Imm12(w) * (if top == 0x3E4 then 8 else 4))
    case FPair => DecodePair(w)
    case FSys =>
      if w / 0x20 == 0x6A9_DA10 then MRS(Rd(w))
      else if w / 0x20 == 0x6A8_DA10 then MSR(Rd(w))
      else Other(w)
    case FMov =>
      if w / 0x20 % 0x800 == 0x1F && w / 0x20_0000 % 2 == 0 then MovReg(top / 512 == 1, Rd(w), w / 0x1_0000 % 0x20)
      else Other(w)
    case FMovZ => MOVZ(top / 512 == 1, Rd(w), w / 0x20 % 0x1_0000, w / 0x20_0000 % 4)
    case FUbfm =>
      var immr, imms := w / 0x1_0000 % 0x40, w / 0x400 % 0x40;
      if top == 0x34D || (immr < 32 && imms < 32) then UBFM(top == 0x34D, Rd(w), Rn(w), immr, imms) else Other(w)
    case FOther => Other(w)
  }

  // ---------- operation ----------

  /** Register 31 is the zero register. */
  function X(c: Core, n: RegNo): u64 {
    if n == 31 then 0 else c.x[n]
  }

  /** Register 31 is the stack pointer. */
  function XorSP(c: Core, n: RegNo): u64 {
    if n == 31 then c.sp else c.x[n]
  }

  function SetX(c: Core, n: RegNo, v: u64): Core {
    if n == 31 then c else c.(x := c.x[n := v])
  }

  function SetXorSP(c: Core, n: RegNo, v: u64): Core {
    if n == 31 then c.(sp := v) else c.(x := c.x[n := v])
  }

  /** ConditionHolds of section J1.2 of the manual. */
  predicate CondHolds(cond: Nibble, f: Nibble) {
    var n, z, c, v := f / 8 == 1, f / 4 % 2 == 1, f / 2 % 2 == 1, f % 2 == 1;
    var base :=
      match cond / 2
      case 0 => z
      case 1 => c
      case 2 => n
      case 3 => v
      case 4 => c && !z
      case 5 => n == v
      case 6 => n == v && !z
      case _ => true;
    if cond % 2 == 1 && cond != 15 then !base else base
  }

  function Pow2(k: nat): (p: int)
    ensures p > 0
  {
    if k == 0 then 1 else 2 * Pow2(k - 1)
  }

  function PageOf(a: u64): u64 { a - a % 0x1000 }

  /** The bit field move of `v`, a value of `size` bits. */
  function UbfmValue(v: u64, size: int, immr: int, imms: int): u64
    requires 0 <= immr < size <= 64 && 0 <= imms < size
  {
    if imms >= immr then Wrap(v / Pow2(immr) % Pow2(imms - immr + 1))
    else Wrap(v % Pow2(imms + 1) * Pow2(size - immr))
  }

  /** The value that a literal load of `size` puts in its general or vector register. */
  function LiteralValue(m: Mem, a: u64, size: LitSize): u128 {
    match size
    case LitW => Read32(m, a)
    case LitX => Read64(m, a)
    case LitSW => Wrap(SignExtend(Read32(m, a), 0x8000_0000))
    case LitS => Read32(m, a)
    case LitD => Read64(m, a)
    case LitQ => Read128(m, a)
    case LitPrefetch => 0
  }

  function LiteralEffect(c: Core, a: u64, size: LitSize, rt: RegNo): Core {
    match size
    case LitW => SetX(c, rt, Read32(c.mem, a))
    case LitX => SetX(c, rt, Read64(c.mem, a))
    case LitSW => SetX(c, rt, Wrap(SignExtend(Read32(c.mem, a), 0x8000_0000)))
    case LitPrefetch => c
    case _ => c.(q := c.q[rt := LiteralValue(c.mem, a, size)])
  }

  function PairLoad(c: Core, width: PairSize, addr: u64, a: RegNo, b: RegNo): Core {
    match width
    case PairW => SetX(SetX(c, a, Read32(c.mem, addr)), b, Read32(c.mem, addr + 4))
    case PairX => SetX(SetX(c, a, Read64(c.mem, addr)), b, Read64(c.mem, addr + 8))
    case PairQ => c.(q := c.q[a := Read128(c.mem, addr)][b := Read128(c.mem, addr + 16)])
  }

  function PairStore(c: Core, width: PairSize, addr: u64, a: RegNo, b: RegNo): Core {
    match width
    case PairW => c.(mem := Write32(Write32(c.mem, addr, LowWord(X(c, a))), addr + 4, LowWord(X(c, b))))
    case PairX => c.(mem := Write64(Write64(c.mem, addr, X(c, a)), addr + 8, X(c, b)))
    case PairQ => c.(mem := Write128(Write128(c.mem, addr, c.q[a]), addr + 16, c.q[b]))
  }

  /** The effect of `i` at `pc` on everything but the program counter. */
  function Effect(other: Uninterpreted, i: Insn, pc: u64, c: Core): Core {
    match i
    case BL(_) => SetX(c, 30, Wrap(pc + 4))
    case BLR(_) => SetX(c, 30, Wrap(pc + 4))
    case ADR(rd, imm) => SetX(c, rd, Wrap(pc + imm))
    case ADRP(rd, pages) => SetX(c, rd, Wrap(PageOf(pc) + 0x1000 * pages))
    case LdrLit(size, rt, off) => LiteralEffect(c, Wrap(pc + off), size, rt)
    case AddImm(is64, rd, rn, imm) =>
      SetXorSP(c, rd, if is64 then Wrap(XorSP(c, rn) + imm) else Wrap32(XorSP(c, rn) + imm))
    case SubImm(is64, rd, rn, imm) =>
      SetXorSP(c, rd, if is64 then Wrap(XorSP(c, rn) - imm) else Wrap32(XorSP(c, rn) - imm))
    case LdrImm(is64, rt, rn, imm) =>
      var a := Wrap(XorSP(c, rn) + imm);
      SetX(c, rt, if is64 then Read64(c.mem, a) else Read32(c.mem, a))
    case StrImm(is64, rt, rn, imm) =>
      var a := Wrap(XorSP(c, rn) + imm);
      c.(mem := if is64 then Write64(c.mem, a, X(c, rt)) else Write32(c.mem, a, LowWord(X(c, rt))))
    case Pair(width, mode, load, a, b, base, imm) =>
      var moved := Wrap(XorSP(c, base) + imm);
      var addr := if mode == Post then XorSP(c, base) else moved;
      var d := if load then PairLoad(c, width, addr, a, b) else PairStore(c, width, addr, a, b);
      if mode == Offset then d else SetXorSP(d, base, moved)
    case MRS(rt) => SetX(c, rt, c.nzcv * 0x1000_0000)
    case MSR(rt) => c.(nzcv := X(c, rt) / 0x1000_0000 % 16)
    case MovReg(is64, rd, rm) => SetX(c, rd, if is64 then X(c, rm) else LowWord(X(c, rm)))
    case MOVZ(is64, rd, imm, hw) => SetX(c, rd, Wrap(imm * Pow2(if hw < 0 then 0 else 16 * hw)))
    case UBFM(is64, rd, rn, immr, imms) =>
      if is64 && 0 <= immr < 64 && 0 <= imms < 64 then SetX(c, rd, UbfmValue(X(c, rn), 64, immr, imms))
      else if 0 <= immr < 32 && 0 <= imms < 32 then SetX(c, rd, Wrap32(UbfmValue(LowWord(X(c, rn)), 32, immr, imms)))
      else c
    case Other(w) => other(w, c)
    case _ => c
  }

  predicate Taken(i: Insn, c: Core) {
    match i
    case BCond(cond, _) => CondHolds(cond, c.nzcv)
    case CB(is64, nonzero, rt, _) => ((if is64 then X(c, rt) else LowWord(X(c, rt))) != 0) == nonzero
    case TB(bit, nonzero, rt, _) => (X(c, rt) / Pow2(if bit < 0 then 0 else bit) % 2 != 0) == nonzero
    case _ => true
  }

  /** Where `i` at `pc` continues. */
  function Next(i: Insn, pc: u64, c: Core): u64 {
    match i
    case B(off) => Wrap(pc + off)
    case BL(off) => Wrap(pc + off)
    case BCond(_, off) => if Taken(i, c) then Wrap(pc + off) else Wrap(pc + 4)
    case CB(_, _, _, off) => if Taken(i, c) then Wrap(pc + off) else Wrap(pc + 4)
    case TB(_, _, _, off) => if Taken(i, c) then Wrap(pc + off) else Wrap(pc + 4)
    case BR(rn) => X(c, rn)
    case BLR(rn) => X(c, rn)
    case RET(rn) => X(c, rn)
    case _ => Wrap(pc + 4)
  }

  function Exec(other: Uninterpreted, i: Insn, s: State): State {
    State(Effect(other, i, s.pc, s.c), Next(i, s.pc, s.c))
  }

  /** Fetch, decode and execute the instruction at the program counter. */
  function Step(other: Uninterpreted, s: State): State {
    Exec(other, Decode(Read32(s.c.mem, s.pc)), s)
  }

  function Run(other: Uninterpreted, s: State, n: nat): State
    decreases n
  {
    if n == 0 then s else Run(other, Step(other, s), n - 1)
  }

  lemma {:induction false} RunThen(other: Uninterpreted, s: State, m: nat, n: nat)
    ensures Run(other, s, m + n) == Run(other, Run(other, s, m), n)
    decreases m
  {
    hide Step;
    if m > 0 {
      RunThen(other, Step(other, s), m - 1, n);
    }
  }

  /** One step through a known word. */
  lemma StepOn(other: Uninterpreted, s: State, w: u32, i: Insn)
    requires Read32(s.c.mem, s.pc) == w && Decode(w) == i
    ensures Step(other, s) == Exec(other, i, s)
  {}
}
