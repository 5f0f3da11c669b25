/** What the relocator is told about one instruction (the disassembler's adapter). */
module Decoder {
  import opened Words
  import opened A64

  datatype Cond = Eq | Ne | Cs | Cc | Mi | Pl | Vs | Vc | Hi | Ls | Ge | Lt | Gt | Le | Al | Nv
  {
    function Code(): Nibble {
      match this
      case Eq => 0 case Ne => 1 case Cs => 2 case Cc => 3
      case Mi => 4 case Pl => 5 case Vs => 6 case Vc => 7
      case Hi => 8 case Ls => 9 case Ge => 10 case Lt => 11
      case Gt => 12 case Le => 13 case Al => 14 case Nv => 15
    }

    function Invert(): Cond {
      match this
      case Eq => Ne case Ne => Eq case Cs => Cc case Cc => Cs
      case Mi => Pl case Pl => Mi case Vs => Vc case Vc => Vs
      case Hi => Ls case Ls => Hi case Ge => Lt case Lt => Ge
      case Gt => Le case Le => Gt case Al => Nv case Nv => Al
    }

    /** AL and NV both mean "always". */
    predicate Unconditional() { this == Al || this == Nv }
  }

  function CondFromU8(v: u8): Cond {
    match v % 16
    case 0 => Eq case 1 => Ne case 2 => Cs case 3 => Cc
    case 4 => Mi case 5 => Pl case 6 => Vs case 7 => Vc
    case 8 => Hi case 9 => Ls case 10 => Ge case 11 => Lt
    case 12 => Gt case 13 => Le case 14 => Al
    case _ => Nv
  }

  lemma CondCodesRoundTrip(c: Cond, v: u8)
    ensures CondFromU8(c.Code()) == c
    ensures CondFromU8(v).Code() == v % 16
  {}

  /** Inverting the condition of a branch negates it, except for the two conditions that always hold. */
  lemma InvertNegates(c: Cond, flags: Nibble)
    ensures CondHolds(c.Invert().Code(), flags) == !CondHolds(c.Code(), flags) <==> !c.Unconditional()
  {
    match c {
      case Eq => case Ne => case Cs => case Cc => case Mi => case Pl => case Vs => case Vc =>
      case Hi => case Ls => case Ge => case Lt => case Gt => case Le => case Al => case Nv =>
    }
  }

  datatype InsnKind =
    | Branch(target: u64, link: bool)
    | BranchCond(target: u64, cond: Cond)
    | CompareBranch(target: u64, reg: RegNo, nonzero: bool, is64: bool)
    | TestBranch(target: u64, reg: RegNo, bit: int, nonzero: bool)
    | PcRelAddr(rd: RegNo, target: u64, isPage: bool)
    | PcRelLoad(rt: RegNo, target: u64, is64: bool, isSimd: bool)
    | BranchReg(rn: RegNo)
    | PcIndependent

  datatype DecodedInsn = DecodedInsn(addr: u64, raw: u32, kind: InsnKind)

  /** The adapter keeps no trace of the literal load being LDRSW or of its vector width. */
  function KindOf(addr: u64, i: Insn): InsnKind {
    match i
    case B(off) => Branch(Wrap(addr + off), false)
    case BL(off) => Branch(Wrap(addr + off), true)
    case BCond(cond, off) => BranchCond(Wrap(addr + off), CondFromU8(cond))
    case CB(is64, nonzero, rt, off) => CompareBranch(Wrap(addr + off), rt, nonzero, is64)
    case TB(bit, nonzero, rt, off) => TestBranch(Wrap(addr + off), rt, bit, nonzero)
    case ADR(rd, imm) => PcRelAddr(rd, Wrap(addr + imm), false)
    case ADRP(rd, pages) => PcRelAddr(rd, Wrap(PageOf(addr) + 0x1000 * pages), true)
    case LdrLit(size, rt, off) =>
      if size == LitPrefetch then PcIndependent
      else PcRelLoad(rt, Wrap(addr + off), size != LitW && size != LitSW, size == LitS || size == LitD || size == LitQ)
    case BR(rn) => BranchReg(rn)
    case BLR(rn) => BranchReg(rn)
    case RET(rn) => BranchReg(rn)
    case _ => PcIndependent
  }

  function DecodeAt(addr: u64, w: u32): DecodedInsn {
    DecodedInsn(addr, w, KindOf(addr, Decode(w)))
  }
}
