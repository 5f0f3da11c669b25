/**
 * Relocation preserves meaning. The unhooked machine runs the displaced instructions at their own
 * address; the hooked machine runs the words that `RelocateOne` emitted for them. Both start from
 * states that agree up to a set of scratch registers (X17 among them) and up to hidden memory: the
 * displaced window, which the hook overwrites, and whatever else belongs to the hook. A byte that
 * both store alike is hidden no longer.
 */
module Relocation {
  import opened Options
  import opened Words
  import opened Memory
  import opened A64
  import opened Decoder
  import opened Encode
  import opened Relocator

  /**
   * `target` is the displaced window's address, `[page, hi)` the hook's own code, of which the block of
   * relocated instructions is `[lo, hi)`.
   */
  datatype Env = Env(other: Uninterpreted, scratch: set<int>, hidden: iset<int>, target: int, page: int, lo: int,
                     hi: int)
  {
    predicate InWindow(a: int) { target <= a < target + 16 }

    /** Aligned code that does not wrap around the address space. */
    ghost predicate Valid() {
      && 17 in scratch
      && 0 <= target && target % 4 == 0 && target + 16 < P64
      && 0 <= page <= lo <= hi && lo % 4 == 0 && hi < P64
      && (forall a :: InWindow(a) ==> a in hidden)
    }
  }

  /** `m` and `n` hold the same bytes outside the hidden addresses. */
  ghost predicate SameSeen(e: Env, m: Mem, n: Mem) {
    forall a :: a !in e.hidden ==> Get(m, a) == Get(n, a)
  }

  ghost predicate Agree(e: Env, c: Core, d: Core) {
    && (forall n :: 0 <= n < 31 && n !in e.scratch ==> c.x[n] == d.x[n])
    && c.sp == d.sp && c.nzcv == d.nzcv && c.q == d.q
    && SameSeen(e, c.mem, d.mem)
  }

  /** None of the `n` bytes at `a` is hidden. */
  ghost predicate Seen(e: Env, a: int, n: int) {
    forall b :: a <= b < a + n ==> b !in e.hidden
  }

  /** Register `n` is no scratch register; register 31 never is. */
  predicate Steady(e: Env, n: RegNo) { n == 31 || n !in e.scratch }

  /** Where a pair instruction accesses memory. */
  function PairAddress(mode: PairMode, base: RegNo, imm: int, c: Core): u64 {
    if mode == Post then XorSP(c, base) else Wrap(XorSP(c, base) + imm)
  }

  /** How many bytes a pair takes. */
  function PairBytes(width: PairSize): int {
    match width case PairW => 8 case PairX => 16 case PairQ => 32
  }

  /** From `c`, `i` stores a register's value at `a` that is no scratch value. */
  predicate Stores(e: Env, i: Insn, c: Core, a: int) {
    match i
    case StrImm(is64, rt, rn, imm) =>
      var at := Wrap(XorSP(c, rn) + imm);
      Steady(e, rt) && at <= a < at + if is64 then 8 else 4
    case Pair(width, mode, load, r1, r2, base, imm) =>
      var at := PairAddress(mode, base, imm, c);
      !load && (width == PairQ || (Steady(e, r1) && Steady(e, r2))) && at <= a < at + PairBytes(width)
    case _ => false
  }

  /** What is still hidden once `i` has run from `c`: the stored bytes are not, except in the window. */
  ghost function Learn(e: Env, i: Insn, c: Core): Env {
    e.(hidden := iset a | a in e.hidden && (e.InWindow(a) || !Stores(e, i, c, a)))
  }

  /** Only stores teach anything. */
  lemma LearnNothing(e: Env, i: Insn, c: Core)
    requires !i.StrImm? && !i.Pair?
    ensures Learn(e, i, c) == e
  {
    assert Learn(e, i, c).hidden == e.hidden;
  }

  lemma KindStoresNothing(insn: DecodedInsn)
    requires insn == DecodeAt(insn.addr, insn.raw) && !insn.kind.PcIndependent?
    ensures !Decode(insn.raw).StrImm? && !Decode(insn.raw).Pair?
  {
    hide Decode, Wrap;
  }

  function InsnAt(s: State): DecodedInsn {
    DecodeAt(s.pc, Read32(s.c.mem, s.pc))
  }

  predicate IsCall(insn: DecodedInsn) {
    (insn.kind.Branch? && insn.kind.link) || Decode(insn.raw).BLR?
  }

  /** Whether `insn` continues with the instruction behind it. */
  predicate Falls(insn: DecodedInsn, c: Core) {
    match insn.kind
    case Branch(_, _) => false
    case BranchReg(_) => false
    case BranchCond(_, _) => !Taken(Decode(insn.raw), c)
    case CompareBranch(_, _, _, _) => !Taken(Decode(insn.raw), c)
    case TestBranch(_, _, _, _) => !Taken(Decode(insn.raw), c)
    case _ => true
  }

  /** How many steps the relocated form of `insn` takes from `c`. */
  function RelocatedSteps(insn: DecodedInsn, emitPc: u64, c: Core): nat {
    match insn.kind
    case Branch(_, link) => if link then 3 else 2
    case BranchCond(_, _) => if Falls(insn, c) then 1 else 3
    case CompareBranch(_, _, _, _) => if Falls(insn, c) then 1 else 3
    case TestBranch(_, _, _, _) => if Falls(insn, c) then 1 else 3
    case PcRelAddr(rd, target, _) => |EncodePcRelAddr(rd, emitPc, target)|
    case PcRelLoad(rt, target, is64, _) => if TryEncodeLdrLit(rt, is64, emitPc, target).Some? then 1 else 3
    case _ => 1
  }

  /** The literal loads that are carried faithfully; LDRSW becomes a load without sign extension. */
  predicate CarriedLiteral(insn: DecodedInsn, c: Core) {
    && Decode(insn.raw).LdrLit? && insn.kind.PcRelLoad?
    && match Decode(insn.raw).size
       case LitW => true
       case LitX => true
       case LitSW => Read32(c.mem, insn.kind.target) < 0x8000_0000
       case _ => false
  }

  /** The address computations that are carried: ADRP and ADD turn ADR of register 31 into an ADD to SP. */
  predicate CarriedAddress(rd: RegNo, emitPc: u64, target: u64) {
    AdrReaches(emitPc, target) || (if rd == 31 then target % 0x1000 == 0 else AdrpReaches(emitPc, target))
  }

  /**
   * What the displaced instruction must meet, in the state `c` it is reached in, to be carried:
   * it reads no scratch register, jumps not into the window, reads no hidden byte, writes neither the
   * window nor the hook's code, and is not one of the forms that the rewriting loses (B.AL and B.NV,
   * LDRSW of a negative word, vector literals, ADR of register 31 or beyond 4 GiB).
   */
  ghost predicate Carried(e: Env, insn: DecodedInsn, emitPc: u64, c: Core) {
    match insn.kind
    case Branch(target, _) => !e.InWindow(target)
    case BranchCond(target, cond) => !e.InWindow(target) && !cond.Unconditional()
    case CompareBranch(target, reg, _, _) => !e.InWindow(target) && reg !in e.scratch
    case TestBranch(target, reg, _, _) => !e.InWindow(target) && reg !in e.scratch
    case PcRelAddr(rd, target, _) => CarriedAddress(rd, emitPc, target)
    case PcRelLoad(_, target, is64, _) => CarriedLiteral(insn, c) && Seen(e, target, if is64 then 8 else 4)
    case BranchReg(rn) => rn !in e.scratch && !e.InWindow(X(c, rn))
    case PcIndependent => Insulated(e, Decode(insn.raw), insn.addr, c)
  }

  /** From `c`, `i` does not observe the difference between agreeing states and leaves the code alone. */
  ghost predicate Insulated(e: Env, i: Insn, pc: u64, c: Core) {
    && SameOn(c.mem, Effect(e.other, i, pc, c).mem, e.target, e.target + 16)
    && forall d :: Agree(e, c, d) ==>
        && Agree(Learn(e, i, c), Effect(e.other, i, pc, c), Effect(e.other, i, pc, d))
        && SameOn(d.mem, Effect(e.other, i, pc, d).mem, e.page, e.hi)
  }

  /** What the machines need not agree on behind `insn`: after a call, not on the return address either. */
  ghost function EnvBehind(e: Env, insn: DecodedInsn, c: Core): Env {
    var e1 := Learn(e, Decode(insn.raw), c);
    if IsCall(insn) then e1.(scratch := e1.scratch + {30}) else e1
  }

  /**
   * From the cores `c` and `d`, `s` is the unhooked state behind `insn` and `t` the hooked state behind
   * its relocated form: they agree, stored bytes included, continue at the same place or both behind the
   * instruction, and a call leaves each its own return address.
   */
  ghost predicate Matches(e: Env, insn: DecodedInsn, c: Core, d: Core, s: State, t: State, behind: u64) {
    && Agree(EnvBehind(e, insn, c), s.c, t.c)
    && (IsCall(insn) ==> s.c.x[30] == Wrap(insn.addr + 4) && t.c.x[30] == behind)
    && (if Falls(insn, c) then s.pc == Wrap(insn.addr + 4) && t.pc == behind else t.pc == s.pc && !e.InWindow(s.pc))
    && SameOn(c.mem, s.c.mem, e.target, e.target + 16)
    && SameOn(d.mem, t.c.mem, e.page, e.hi)
    && (!insn.kind.PcIndependent? ==> Clobbers(insn, c, s.c) && Clobbers(insn, d, t.c) && SameResult(insn, s.c, t.c))
  }

  /** The general registers that `insn` or its relocated form may write, verbatim copies aside. */
  function Clobbered(insn: DecodedInsn): set<int> {
    match insn.kind
    case Branch(_, link) => if link then {17, 30} else {17}
    case PcRelAddr(rd, _, _) => {rd}
    case PcRelLoad(rt, _, _, _) => {17, rt}
    case BranchReg(_) => if IsCall(insn) then {30} else {}
    case _ => {17}
  }

  /** From `c` to `d` no more than those registers change. */
  ghost predicate Clobbers(insn: DecodedInsn, c: Core, d: Core) {
    d == c.(x := d.x) && forall n :: 0 <= n < 31 && n !in Clobbered(insn) ==> d.x[n] == c.x[n]
  }

  /** An address or a literal is the same in both machines, whatever the register held. */
  ghost predicate SameResult(insn: DecodedInsn, c: Core, d: Core) {
    && (insn.kind.PcRelAddr? && insn.kind.rd < 31 ==> c.x[insn.kind.rd] == d.x[insn.kind.rd])
    && (insn.kind.PcRelLoad? && insn.kind.rt < 31 ==> c.x[insn.kind.rt] == d.x[insn.kind.rt])
  }

  lemma LdrX17Word()
    ensures Decode(0x5800_0051) == LdrLit(LitX, 17, 8)
  {
    assert FormOf(0x160) == FLit;
  }

  lemma BrX17Word()
    ensures Decode(0xD61F_0220) == BR(17)
  {}

  lemma BranchOverLiteralWord()
    ensures Decode(0x1400_0003) == B(12)
  {}

  /** LDR X17, #8 loads the two words behind the next instruction. */
  lemma LoadX17(other: Uninterpreted, t: State, v: u64)
    requires t.pc + 16 < P64
    requires Read32(t.c.mem, t.pc) == 0x5800_0051
    requires Read32(t.c.mem, t.pc + 8) == LowWord(v) && Read32(t.c.mem, t.pc + 12) == HighWord(v)
    ensures Step(other, t) == State(t.c.(x := t.c.x[17 := v]), t.pc + 4)
  {
    hide Decode, Step, Read32;
    LdrX17Word();
    StepOn(other, t, 0x5800_0051, LdrLit(LitX, 17, 8));
    assert Read64(t.c.mem, t.pc + 8) == v;
  }

  lemma AbsBranchRuns(other: Uninterpreted, t: State, target: u64)
    requires t.pc + 16 < P64
    requires Holds(t.c.mem, t.pc, EncodeAbsBranch(target))
    ensures Run(other, t, 2) == State(t.c.(x := t.c.x[17 := target]), target)
  {
    hide Decode, Step, Read32;
    var ws := EncodeAbsBranch(target);
    assert ws[0] == 0x5800_0051 && ws[1] == 0xD61F_0220 && ws[2] == LowWord(target) && ws[3] == HighWord(target);
    assert Read32(t.c.mem, t.pc + 4 * 1) == ws[1];
    assert Read32(t.c.mem, t.pc + 4 * 2) == ws[2];
    assert Read32(t.c.mem, t.pc + 4 * 3) == ws[3];
    LoadX17(other, t, target);
    var u := Step(other, t);
    BrX17Word();
    StepOn(other, u, 0xD61F_0220, BR(17));
    assert Run(other, t, 2) == Run(other, u, 1) == Step(other, u);
  }

  /** What every slot starts from. */
  ghost predicate SlotStart(e: Env, insn: DecodedInsn, s: State, t: State) {
    SlotSetup(e, insn, s, t) && Carried(e, insn, t.pc, s.c)
  }

  ghost predicate SlotSetup(e: Env, insn: DecodedInsn, s: State, t: State) {
    && e.Valid()
    && insn == InsnAt(s) && s.pc % 4 == 0 && e.target <= s.pc < e.target + 16
    && t.pc % 4 == 0 && e.lo <= t.pc && t.pc + 4 * |RelocateOne(insn, t.pc)| <= e.hi
    && Holds(t.c.mem, t.pc, RelocateOne(insn, t.pc))
    && Agree(e, s.c, t.c)
  }

  ghost predicate SlotSound(e: Env, insn: DecodedInsn, s: State, t: State) {
    var n := RelocatedSteps(insn, t.pc, s.c);
    var behind := t.pc + 4 * |RelocateOne(insn, t.pc)|;
    Matches(e, insn, s.c, t.c, Step(e.other, s), Run(e.other, t, n), Wrap(behind))
  }

  lemma BranchSlot(e: Env, insn: DecodedInsn, s: State, t: State)
    requires SlotStart(e, insn, s, t) && insn.kind.Branch? && !insn.kind.link
    ensures SlotSound(e, insn, s, t)
  {
    hide Decode, Read32, EncodeAbsBranch;
    KindStoresNothing(insn);
    LearnNothing(e, Decode(insn.raw), s.c);
    StepOn(e.other, s, insn.raw, Decode(insn.raw));
    AbsBranchRuns(e.other, t, insn.kind.target);
  }

  lemma CallSlot(e: Env, insn: DecodedInsn, s: State, t: State)
    requires SlotStart(e, insn, s, t) && insn.kind.Branch? && insn.kind.link
    ensures SlotSound(e, insn, s, t)
  {
    hide Decode, Read32, EncodeAbsBranch, EncodeAdr, Step;
    KindStoresNothing(insn);
    LearnNothing(e, Decode(insn.raw), s.c);
    var target := insn.kind.target;
    var ws := EncodeAbsCall(t.pc, target);
    StepOn(e.other, s, insn.raw, Decode(insn.raw));
    assert Read32(t.c.mem, t.pc + 4 * 0) == ws[0];
    AdrX30Runs(e.other, t);
    var u := Step(e.other, t);
    HoldsPart(t.c.mem, t.pc, ws, 1, 5);
    assert ws[1..5] == EncodeAbsBranch(target);
    AbsBranchRuns(e.other, u, target);
    assert Run(e.other, t, 3) == Run(e.other, u, 2);
  }

  /** ADR X30, #20 */
  lemma AdrX30Runs(other: Uninterpreted, t: State)
    requires t.pc + 20 < P64
    requires Read32(t.c.mem, t.pc) == EncodeAdr(30, t.pc, Wrap(t.pc + 20))
    ensures Step(other, t) == State(t.c.(x := t.c.x[30 := t.pc + 20]), t.pc + 4)
  {
    hide Decode, Read32, EncodeAdr;
    var w := EncodeAdr(30, t.pc, Wrap(t.pc + 20));
    DecodeAdr(30, t.pc, Wrap(t.pc + 20));
    DeltaOfOffset(t.pc, 20);
    StepOn(other, t, w, ADR(30, 20));
  }

  /** A short conditional over an absolute jump: three steps when it is not taken, one when it is. */
  lemma SkipRuns(other: Uninterpreted, t: State, w: u32, i: Insn, target: u64)
    requires t.pc + 20 < P64
    requires i.BCond? || i.CB? || i.TB?
    requires Decode(w) == i && i.off == 20
    requires Holds(t.c.mem, t.pc, [w] + EncodeAbsBranch(target))
    ensures Taken(i, t.c) ==> Run(other, t, 1) == State(t.c, t.pc + 20)
    ensures !Taken(i, t.c) ==> Run(other, t, 3) == State(t.c.(x := t.c.x[17 := target]), target)
  {
    hide Decode, Read32, EncodeAbsBranch, Taken, Step;
    var ws := [w] + EncodeAbsBranch(target);
    assert Read32(t.c.mem, t.pc + 4 * 0) == ws[0];
    StepOn(other, t, w, i);
    var u := Step(other, t);
    assert Run(other, t, 1) == Run(other, u, 0) == u;
    if !Taken(i, t.c) {
      assert u == State(t.c, t.pc + 4);
      HoldsPart(t.c.mem, t.pc, ws, 1, 5);
      assert ws[1..5] == EncodeAbsBranch(target);
      AbsBranchRuns(other, u, target);
      assert Run(other, t, 3) == Run(other, u, 2);
    }
  }

  lemma ConditionalSlot(e: Env, insn: DecodedInsn, s: State, t: State)
    requires SlotStart(e, insn, s, t)
    requires insn.kind.BranchCond? || insn.kind.CompareBranch? || insn.kind.TestBranch?
    ensures SlotSound(e, insn, s, t)
  {
    hide Decode, Read32, EncodeAbsBranch, Taken, Step, EncodeBCond, EncodeCbz, EncodeTbz;
    KindStoresNothing(insn);
    LearnNothing(e, Decode(insn.raw), s.c);
    var i := Decode(insn.raw);
    StepOn(e.other, s, insn.raw, i);
    var w := ConditionalBranchWords(insn.kind, t.pc)[0];
    InvertedBranch(insn, t.pc, s.c, t.c);
    SkipRuns(e.other, t, w, Decode(w), insn.kind.target);
  }

  /** The first word jumps over the absolute branch exactly when the displaced branch is not taken. */
  lemma InvertedBranch(insn: DecodedInsn, pc: u64, c: Core, d: Core)
    requires pc + 20 < P64
    requires insn == DecodeAt(insn.addr, insn.raw)
    requires insn.kind.BranchCond? || insn.kind.CompareBranch? || insn.kind.TestBranch?
    requires c.nzcv == d.nzcv
    requires insn.kind.BranchCond? ==> !insn.kind.cond.Unconditional()
    requires insn.kind.CompareBranch? || insn.kind.TestBranch? ==> X(c, insn.kind.reg) == X(d, insn.kind.reg)
    ensures var i := Decode(ConditionalBranchWords(insn.kind, pc)[0]);
      (i.BCond? || i.CB? || i.TB?) && i.off == 20 && Taken(i, d) == !Taken(Decode(insn.raw), c)
  {
    hide Decode, EncodeBCond, EncodeCbz, EncodeTbz, CondHolds, Pow2;
    var skip := Wrap(pc + 20);
    DeltaOfOffset(pc, 20);
    match insn.kind {
      case BranchCond(_, cond) =>
        DecodeBCond(cond.Invert(), pc, skip);
        InvertNegates(cond, c.nzcv);
        CondCodesRoundTrip(cond, 0);
        CondCodesRoundTrip(cond, Decode(insn.raw).cond);
      case CompareBranch(_, reg, nonzero, is64) =>
        DecodeCbz(reg, !nonzero, is64, pc, skip);
      case TestBranch(_, reg, bit, nonzero) =>
        TestedBit(insn.raw);
        DecodeTbz(reg, bit, !nonzero, pc, skip);
    }
  }

  lemma TestedBit(w: u32)
    requires Decode(w).TB?
    ensures 0 <= Decode(w).bit < 64
  {}

  lemma NearAddressRuns(other: Uninterpreted, t: State, rd: RegNo, target: u64)
    requires t.pc + 4 < P64
    requires Read32(t.c.mem, t.pc) == EncodeAdr(rd, t.pc, target)
    requires AdrReaches(t.pc, target)
    ensures Run(other, t, 1) == State(SetX(t.c, rd, target), t.pc + 4)
  {
    hide Decode, Read32, EncodeAdr, Step, SignExtend, Delta, AdrReaches;
    var w := EncodeAdr(rd, t.pc, target);
    DecodeAdr(rd, t.pc, target);
    AdrExact(t.pc, target);
    StepOn(other, t, w, Decode(w));
    assert Run(other, t, 1) == Run(other, Step(other, t), 0);
  }

  /** ADRP and ADD beyond the reach of ADR: exactly when they do what one ADR would. */
  lemma FarAddressRuns(other: Uninterpreted, t: State, rd: RegNo, target: u64)
    requires t.pc + 8 < P64
    requires Read32(t.c.mem, t.pc) == EncodeAdrp(rd, t.pc, target)
    requires Read32(t.c.mem, t.pc + 4) == EncodeAddImm(rd, rd, target % 0x1000, true)
    requires !AdrReaches(t.pc, target)
    ensures Run(other, t, 2) == State(SetX(t.c, rd, target), t.pc + 8) <==> CarriedAddress(rd, t.pc, target)
  {
    hide Step, PageOf, AdrReaches, AdrpReaches, Wrap, Read32, EncodeAdrp, EncodeAddImm;
    var v := AdrpRuns(other, t, rd, target);
    var u := Step(other, t);
    AddRuns(other, u, rd, target % 0x1000);
    assert Run(other, t, 2) == Run(other, u, 1) == Step(other, u);
    if rd == 31 {
      WrapMoves(t.c.sp, target % 0x1000);
    } else {
      PagePlusOffset(target, v);
      assert Step(other, u) == State(SetX(t.c, rd, Wrap(v + target % 0x1000)), t.pc + 8);
      assert SetX(t.c, rd, Wrap(v + target % 0x1000)).x[rd] == Wrap(v + target % 0x1000);
      assert SetX(t.c, rd, target).x[rd] == target;
    }
  }

  lemma AdrpRuns(other: Uninterpreted, t: State, rd: RegNo, target: u64) returns (v: u64)
    requires t.pc + 4 < P64
    requires Read32(t.c.mem, t.pc) == EncodeAdrp(rd, t.pc, target)
    ensures Step(other, t) == State(SetX(t.c, rd, v), t.pc + 4)
    ensures v % 0x1000 == 0 && (v == PageOf(target) <==> AdrpReaches(t.pc, target))
  {
    hide Decode, Read32, EncodeAdrp, Step, SignExtend, PageDelta, Delta, Wrap, PageOf, AdrpReaches;
    PcPlus(t.pc);
    var pages := SignExtend(PageDelta(t.pc, target) % 0x20_0000, 0x10_0000);
    v := Wrap(PageOf(t.pc) + 0x1000 * pages);
    PageAligned(t.pc, pages);
    DecodeAdrp(rd, t.pc, target);
    AdrpExact(t.pc, target);
    StepOn(other, t, EncodeAdrp(rd, t.pc, target), ADRP(rd, pages));
  }

  lemma PageAligned(pc: u64, pages: int)
    ensures Wrap(PageOf(pc) + 0x1000 * pages) % 0x1000 == 0
  {
    var a := PageOf(pc) + 0x1000 * pages;
    assert a == 0x1000 * (pc / 0x1000 + pages);
    assert Wrap(a) == 0x1000 * (pc / 0x1000 + pages - P64 / 0x1000 * (a / P64));
  }

  lemma AddRuns(other: Uninterpreted, u: State, rd: RegNo, off: int)
    requires u.pc + 4 < P64 && 0 <= off < 0x1000
    requires Read32(u.c.mem, u.pc) == EncodeAddImm(rd, rd, off, true)
    ensures Step(other, u) == State(SetXorSP(u.c, rd, Wrap(XorSP(u.c, rd) + off)), u.pc + 4)
  {
    hide Decode, Read32, EncodeAddImm, Step, Wrap;
    PcPlus(u.pc);
    DecodeAddImm(rd, rd, off, true);
    StepOn(other, u, EncodeAddImm(rd, rd, off, true), AddImm(true, rd, rd, off));
  }

  lemma WrapMoves(sp: u64, off: int)
    requires 0 <= off < 0x1000
    ensures Wrap(sp + off) == sp <==> off == 0
  {}

  /** The relocated address computation leaves exactly `target` in `rd`, if and only if it is carried. */
  lemma PcRelAddrRuns(other: Uninterpreted, t: State, rd: RegNo, target: u64)
    requires t.pc + 4 * |EncodePcRelAddr(rd, t.pc, target)| < P64
    requires Holds(t.c.mem, t.pc, EncodePcRelAddr(rd, t.pc, target))
    ensures var n := |EncodePcRelAddr(rd, t.pc, target)|;
      Run(other, t, n) == State(SetX(t.c, rd, target), t.pc + 4 * n) <==> CarriedAddress(rd, t.pc, target)
  {
    hide Read32, EncodeAdr, EncodeAdrp, EncodeAddImm, Run, AdrReaches, AdrpReaches;
    var ws := EncodePcRelAddr(rd, t.pc, target);
    assert Read32(t.c.mem, t.pc + 4 * 0) == ws[0];
    if AdrReaches(t.pc, target) {
      NearAddressRuns(other, t, rd, target);
    } else {
      assert Read32(t.c.mem, t.pc + 4 * 1) == ws[1];
      FarAddressRuns(other, t, rd, target);
    }
  }

  lemma PagePlusOffset(target: u64, v: u64)
    requires v % 0x1000 == 0
    ensures Wrap(v + target % 0x1000) == target <==> v == PageOf(target)
  {}

  lemma AddressSlot(e: Env, insn: DecodedInsn, s: State, t: State)
    requires SlotStart(e, insn, s, t) && insn.kind.PcRelAddr?
    ensures SlotSound(e, insn, s, t)
  {
    hide Decode, Read32, EncodePcRelAddr, Step, PageOf, CarriedAddress;
    KindStoresNothing(insn);
    LearnNothing(e, Decode(insn.raw), s.c);
    StepOn(e.other, s, insn.raw, Decode(insn.raw));
    PcRelAddrRuns(e.other, t, insn.kind.rd, insn.kind.target);
  }

  lemma NearLiteralRuns(other: Uninterpreted, t: State, rt: RegNo, is64: bool, target: u64)
    requires t.pc + 4 < P64 && t.pc % 4 == 0 && target % 4 == 0
    requires TryEncodeLdrLit(rt, is64, t.pc, target) == Some(Read32(t.c.mem, t.pc))
    ensures
      var v: u64 := if is64 then Read64(t.c.mem, target) else Read32(t.c.mem, target);
      Run(other, t, 1) == State(SetX(t.c, rt, v), t.pc + 4)
  {
    hide Decode, Read32, TryEncodeLdrLit, Step, Delta, Off19, Wrap, Read64;
    var w := Read32(t.c.mem, t.pc);
    DecodeLdrLit(rt, is64, t.pc, target);
    NearLiteral(rt, is64, t.pc, target);
    PcPlus(t.pc);
    StepOn(other, t, w, Decode(w));
    assert Run(other, t, 1) == Run(other, Step(other, t), 0);
  }

  /** Both forms of a relocated literal load put the literal's value in `rt`, up to X17. */
  lemma LiteralRuns(other: Uninterpreted, t: State, rt: RegNo, is64: bool, target: u64)
    requires t.pc + 4 * |LiteralWords(rt, is64, t.pc, target)| < P64 && t.pc % 4 == 0 && target % 4 == 0
    requires Holds(t.c.mem, t.pc, LiteralWords(rt, is64, t.pc, target))
    ensures
      var near := TryEncodeLdrLit(rt, is64, t.pc, target).Some?;
      var v: u64 := if is64 then Read64(t.c.mem, target) else Read32(t.c.mem, target);
      var c := if near then t.c else t.c.(x := t.c.x[17 := target]);
      Run(other, t, if near then 1 else 3) == State(SetX(c, rt, v), t.pc + if near then 4 else 20)
  {
    hide Read32, Read64, Run, TryEncodeLdrLit;
    if TryEncodeLdrLit(rt, is64, t.pc, target).Some? {
      assert Read32(t.c.mem, t.pc + 4 * 0) == LiteralWords(rt, is64, t.pc, target)[0];
      NearLiteralRuns(other, t, rt, is64, target);
    } else {
      FarLiteralRuns(other, t, rt, is64, target);
    }
  }

  lemma PcPlus(pc: u64)
    requires pc + 4 < P64
    ensures Wrap(pc + 4) == pc + 4
  {}

  lemma NearLiteral(rt: RegNo, is64: bool, pc: u64, target: u64)
    requires pc % 4 == 0 && target % 4 == 0
    requires TryEncodeLdrLit(rt, is64, pc, target).Some?
    ensures Wrap(pc + Off19(pc, target)) == target
  {
    hide Delta;
    DeltaAligned(target, pc);
    Off19Exact(pc, target);
  }

  lemma LoadThroughX17Word(rt: RegNo, is64: bool)
    ensures Decode(LoadThroughX17(rt, is64)) == LdrImm(is64, rt, 17, 0)
  {
    FieldsRegs(LoadThroughX17(rt, is64), rt, 17, 0, if is64 then 0x3E5 else 0x2E5);
  }

  lemma FarLiteralRuns(other: Uninterpreted, t: State, rt: RegNo, is64: bool, target: u64)
    requires t.pc + 20 < P64
    requires Holds(t.c.mem, t.pc, AbsAddrIntoX17(target) + [LoadThroughX17(rt, is64)])
    ensures
      var v: u64 := if is64 then Read64(t.c.mem, target) else Read32(t.c.mem, target);
      Run(other, t, 3) == State(SetX(t.c.(x := t.c.x[17 := target]), rt, v), t.pc + 20)
  {
    hide Decode, Read32, Step, LoadThroughX17, Read64;
    var ws := AbsAddrIntoX17(target) + [LoadThroughX17(rt, is64)];
    assert Read32(t.c.mem, t.pc + 4 * 0) == ws[0];
    assert Read32(t.c.mem, t.pc + 4 * 1) == ws[1];
    assert Read32(t.c.mem, t.pc + 4 * 2) == ws[2];
    assert Read32(t.c.mem, t.pc + 4 * 3) == ws[3];
    assert Read32(t.c.mem, t.pc + 4 * 4) == ws[4];
    LoadX17(other, t, target);
    var u := Step(other, t);
    BranchOverLiteralWord();
    StepOn(other, u, 0x1400_0003, B(12));
    var v := Step(other, u);
    assert v == State(u.c, t.pc + 16);
    LoadThroughX17Word(rt, is64);
    StepOn(other, v, ws[4], LdrImm(is64, rt, 17, 0));
    assert Run(other, t, 3) == Run(other, u, 2) == Run(other, v, 1) == Step(other, v);
  }

  /** The displaced literal load, as long as it needs no sign extension. */
  lemma DisplacedLiteral(other: Uninterpreted, insn: DecodedInsn, s: State)
    requires insn == InsnAt(s) && insn.kind.PcRelLoad? && CarriedLiteral(insn, s.c)
    ensures
      var v: u64 := if insn.kind.is64 then Read64(s.c.mem, insn.kind.target) else Read32(s.c.mem, insn.kind.target);
      Step(other, s) == State(SetX(s.c, insn.kind.rt, v), Wrap(s.pc + 4))
  {
    hide Decode, Read32, Step, Read64, Wrap, SignExtend;
    SmallWord(Read32(s.c.mem, insn.kind.target));
    StepOn(other, s, insn.raw, Decode(insn.raw));
  }

  lemma SmallWord(w: u32)
    ensures w < 0x8000_0000 ==> Wrap(SignExtend(w, 0x8000_0000)) == w
  {}

  lemma LiteralSlot(e: Env, insn: DecodedInsn, s: State, t: State)
    requires SlotStart(e, insn, s, t) && insn.kind.PcRelLoad?
    ensures SlotSound(e, insn, s, t)
  {
    hide Decode, Read32, TryEncodeLdrLit, Step, Read64, CarriedLiteral, LiteralWords;
    KindStoresNothing(insn);
    LearnNothing(e, Decode(insn.raw), s.c);
    var target := insn.kind.target;
    DisplacedLiteral(e.other, insn, s);
    LiteralAligned(insn);
    LiteralRuns(e.other, t, insn.kind.rt, insn.kind.is64, target);
    SameLiteral(e, s.c.mem, t.c.mem, target, insn.kind.is64);
  }

  lemma SameLiteral(e: Env, m: Mem, n: Mem, target: u64, is64: bool)
    requires SameSeen(e, m, n) && Seen(e, target, if is64 then 8 else 4)
    ensures Read32(m, target) == Read32(n, target) && (is64 ==> Read64(m, target) == Read64(n, target))
  {
    hide Read32, Read64;
    Read32Same(m, n, target);
    if is64 {
      Read64Same(m, n, target);
    }
  }

  lemma LiteralAligned(insn: DecodedInsn)
    requires insn == DecodeAt(insn.addr, insn.raw) && insn.addr % 4 == 0 && insn.kind.PcRelLoad?
    ensures insn.kind.target % 4 == 0
  {
    hide Decode, Wrap;
    LiteralOffset(insn.raw);
    var off := Decode(insn.raw).off;
    WrapAligned(insn.addr + off);
    assert insn.kind.target == Wrap(insn.addr + off);
  }

  lemma LiteralOffset(w: u32)
    requires Decode(w).LdrLit?
    ensures Decode(w).off % 4 == 0
  {
    assert Decode(w).off == Imm19(w);
  }

  lemma VerbatimSlot(e: Env, insn: DecodedInsn, s: State, t: State)
    requires SlotStart(e, insn, s, t) && (insn.kind.PcIndependent? || insn.kind.BranchReg?)
    ensures SlotSound(e, insn, s, t)
  {
    hide Decode, Read32, Step;
    var i := Decode(insn.raw);
    var ws := [insn.raw];
    assert Read32(t.c.mem, t.pc + 4 * 0) == ws[0];
    StepOn(e.other, s, insn.raw, i);
    StepOn(e.other, t, insn.raw, i);
    assert Run(e.other, t, 1) == Run(e.other, Step(e.other, t), 0);
    if insn.kind.PcIndependent? {
      assert Effect(e.other, i, t.pc, t.c) == Effect(e.other, i, s.pc, t.c);
    } else {
      KindStoresNothing(insn);
      LearnNothing(e, i, s.c);
    }
  }

  /** One displaced instruction and its relocated form have the same effect. */
  lemma EverySlot(e: Env, insn: DecodedInsn, s: State, t: State)
    requires SlotStart(e, insn, s, t)
    ensures SlotSound(e, insn, s, t)
  {
    hide *;
    match insn.kind {
      case Branch(_, link) => if link { CallSlot(e, insn, s, t); } else { BranchSlot(e, insn, s, t); }
      case BranchCond(_, _) => ConditionalSlot(e, insn, s, t);
      case CompareBranch(_, _, _, _) => ConditionalSlot(e, insn, s, t);
      case TestBranch(_, _, _, _) => ConditionalSlot(e, insn, s, t);
      case PcRelAddr(_, _, _) => AddressSlot(e, insn, s, t);
      case PcRelLoad(_, _, _, _) => LiteralSlot(e, insn, s, t);
      case BranchReg(_) => VerbatimSlot(e, insn, s, t);
      case PcIndependent => VerbatimSlot(e, insn, s, t);
    }
  }

  // ---------- the forms that are lost ----------

  /** The register that a literal load writes is one that the machines compare. */
  predicate Compared(e: Env, rt: RegNo) { rt != 31 && rt !in e.scratch }

  /** When the relocated literal load has the effect of the displaced one, by size of load. */
  predicate LiteralKept(e: Env, size: LitSize, rt: RegNo, target: u64, c: Core)
    requires size != LitPrefetch
  {
    if size == LitW || size == LitX then true
    else if size == LitSW then Compared(e, rt) ==> Read32(c.mem, target) < 0x8000_0000
    else c.q[rt] == LiteralValue(c.mem, target, size) && (Compared(e, rt) ==> c.x[rt] == Read64(c.mem, target))
  }

  lemma SignMatters(w: u32)
    ensures Wrap(SignExtend(w, 0x8000_0000)) == w <==> w < 0x8000_0000
  {}

  lemma LiteralEffects(e: Env, size: LitSize, rt: RegNo, target: u64, c: Core, d: Core)
    requires Agree(e, c, d) && size != LitPrefetch
    ensures
      var v: u64 := if size != LitW && size != LitSW then Read64(c.mem, target) else Read32(c.mem, target);
      Agree(e, LiteralEffect(c, target, size, rt), SetX(d, rt, v)) <==> LiteralKept(e, size, rt, target, c)
  {
    hide Read32, Read64, Read128, SignExtend, Wrap, Get;
    SignMatters(Read32(c.mem, target));
    var v: u64 := if size != LitW && size != LitSW then Read64(c.mem, target) else Read32(c.mem, target);
    var l, r := LiteralEffect(c, target, size, rt), SetX(d, rt, v);
    if size == LitW || size == LitX || size == LitSW {
      assert rt != 31 ==> r.x[rt] == v;
    } else {
      assert l.q[rt] == LiteralValue(c.mem, target, size);
      assert rt != 31 ==> r.x[rt] == v;
      if LiteralKept(e, size, rt, target, c) {
        assert l.q == c.q;
      }
    }
  }

  /**
   * A relocated literal load has the effect of the displaced one if and only if the load is LDR W or
   * LDR X, or LDRSW of a word with a clear sign bit (or into a register that is not compared), or, by
   * coincidence, a vector load that changes nothing.
   */
  lemma LiteralCarriedExactly(e: Env, insn: DecodedInsn, s: State, t: State)
    requires SlotSetup(e, insn, s, t) && insn.kind.PcRelLoad?
    requires Seen(e, insn.kind.target, if insn.kind.is64 then 8 else 4)
    ensures Decode(insn.raw).LdrLit? && Decode(insn.raw).size != LitPrefetch
    ensures Agree(e, Step(e.other, s).c, Run(e.other, t, RelocatedSteps(insn, t.pc, s.c)).c)
       <==> LiteralKept(e, Decode(insn.raw).size, insn.kind.rt, insn.kind.target, s.c)
  {
    hide Decode, Read32, TryEncodeLdrLit, Step, Read64, LiteralWords, LiteralEffect, LiteralKept, Wrap;
    var target := insn.kind.target;
    var i := Decode(insn.raw);
    StepOn(e.other, s, insn.raw, i);
    LiteralAligned(insn);
    LiteralRuns(e.other, t, insn.kind.rt, insn.kind.is64, target);
    SameLiteral(e, s.c.mem, t.c.mem, target, insn.kind.is64);
    var d := if TryEncodeLdrLit(insn.kind.rt, insn.kind.is64, t.pc, target).Some? then t.c
        else t.c.(x := t.c.x[17 := target]);
    LiteralEffects(e, i.size, insn.kind.rt, target, s.c, d);
  }

  /** B.AL and B.NV always branch; relocated, they never do. */
  lemma AlwaysBranchLost(e: Env, insn: DecodedInsn, s: State, t: State)
    requires SlotSetup(e, insn, s, t) && insn.kind.BranchCond? && insn.kind.cond.Unconditional()
    ensures Step(e.other, s) == State(s.c, insn.kind.target)
    ensures Run(e.other, t, 1) == State(t.c, t.pc + 20)
  {
    hide Decode, Read32, Step, EncodeAbsBranch, ConditionalBranchWords, Run, Agree;
    DisplacedAlways(e.other, insn, s);
    var w := InvertedAlways(insn.kind.target, insn.kind.cond, t.pc);
    assert Holds(t.c.mem, t.pc, ConditionalBranchWords(insn.kind, t.pc));
    SkipRuns(e.other, t, w, Decode(w), insn.kind.target);
  }

  lemma DisplacedAlways(other: Uninterpreted, insn: DecodedInsn, s: State)
    requires insn == InsnAt(s) && insn.kind.BranchCond? && insn.kind.cond.Unconditional()
    ensures Step(other, s) == State(s.c, insn.kind.target)
  {
    hide Decode, Read32, Step;
    var i := Decode(insn.raw);
    StepOn(other, s, insn.raw, i);
    CondCodesRoundTrip(insn.kind.cond, i.cond);
  }

  /** The inverted branch over the jump is taken whatever the flags. */
  lemma InvertedAlways(target: u64, cond: Cond, pc: u64) returns (w: u32)
    requires cond.Unconditional()
    ensures ConditionalBranchWords(BranchCond(target, cond), pc) == [w] + EncodeAbsBranch(target)
    ensures Decode(w).BCond? && Decode(w).off == 20 && forall c: Core :: Taken(Decode(w), c)
  {
    hide Decode, EncodeAbsBranch, EncodeBCond;
    DeltaOfOffset(pc, 20);
    DecodeBCond(cond.Invert(), pc, Wrap(pc + 20));
    w := ConditionalBranchWords(BranchCond(target, cond), pc)[0];
  }

  // ---------- the whole block ----------

  /** Where the relocated form of slot `k` starts; slot 4 is the jump back. */
  function SlotPc(insns: seq<DecodedInsn>, base: u64, k: nat): int
    requires k <= |insns|
  {
    base + 4 * |RelocateAll(insns[..k], base)|
  }

  /** The unhooked machine from slot `k` until it leaves the window or makes a call. */
  function Leave(e: Env, k: nat, s: State): State
    requires k < 4
    decreases 4 - k
  {
    var u := Step(e.other, s);
    if k < 3 && Falls(InsnAt(s), s.c) then Leave(e, k + 1, u) else u
  }

  /** What is still hidden when the machines leave the block. */
  ghost function EnvAfter(e: Env, k: nat, s: State): (r: Env)
    requires k < 4
    ensures r == e.(hidden := r.hidden) && forall a :: a in r.hidden ==> a in e.hidden
    decreases 4 - k
  {
    var e1 := Learn(e, Decode(InsnAt(s).raw), s.c);
    if k < 3 && Falls(InsnAt(s), s.c) then EnvAfter(e1, k + 1, Step(e.other, s)) else e1
  }

  /** The slot whose instruction leaves the window. */
  function LeavingSlot(e: Env, k: nat, s: State): (j: nat)
    requires k < 4
    ensures k <= j < 4
    decreases 4 - k
  {
    if k < 3 && Falls(InsnAt(s), s.c) then LeavingSlot(e, k + 1, Step(e.other, s)) else k
  }

  /** Every displaced instruction that is reached meets its condition. */
  ghost predicate RunCarried(e: Env, insns: seq<DecodedInsn>, k: nat, s: State)
    requires |insns| == 4 && k < 4 && 0 <= e.lo < P64
    decreases 4 - k
  {
    && 0 <= SlotPc(insns, e.lo, k) < P64
    && Carried(e, InsnAt(s), SlotPc(insns, e.lo, k), s.c)
    && (k < 3 && Falls(InsnAt(s), s.c) ==>
          RunCarried(Learn(e, Decode(InsnAt(s).raw), s.c), insns, k + 1, Step(e.other, s)))
  }

  /** The number of steps the hooked machine takes meanwhile. */
  function BlockSteps(e: Env, insns: seq<DecodedInsn>, k: nat, s: State): nat
    requires |insns| == 4 && k < 4 && 0 <= e.lo < P64
    decreases 4 - k
  {
    var one := RelocatedSteps(insns[k], Wrap(SlotPc(insns, e.lo, k)), s.c);
    if !Falls(InsnAt(s), s.c) then one
    else if k < 3 then one + BlockSteps(e, insns, k + 1, Step(e.other, s))
    else one + 2
  }

  /** The window of `m` holds the instructions `insns`, and `lo` the block relocated from them. */
  ghost predicate BlockInstalled(e: Env, insns: seq<DecodedInsn>, original: Mem, hooked: Mem) {
    && e.Valid() && |insns| == 4
    && e.hi == e.lo + 4 * |BlockWords(insns, Wrap(e.target + 16), e.lo)|
    && (forall k :: 0 <= k < 4 ==> insns[k] == DecodeAt(e.target + 4 * k, Read32(original, e.target + 4 * k)))
    && Holds(hooked, e.lo, BlockWords(insns, Wrap(e.target + 16), e.lo))
  }

  /** The states in which the two machines leave the block. */
  ghost predicate LeavesAlike(e: Env, insns: seq<DecodedInsn>, j: nat, s: State, t: State)
    requires |insns| == 4 && j < 4 && 0 <= e.lo < P64
  {
    && t.pc == s.pc && !e.InWindow(s.pc)
    && (if IsCall(insns[j]) then
          && Agree(e.(scratch := e.scratch + {30}), s.c, t.c)
          && s.c.x[30] == e.target + 4 * (j + 1)
          && t.c.x[30] == SlotPc(insns, e.lo, j + 1)
        else Agree(e, s.c, t.c))
  }

  /** The unhooked machine, from slot `k` in `s`, and the hooked one leave the block alike, the latter in `w`. */
  ghost predicate LeftAlike(e: Env, insns: seq<DecodedInsn>, k: nat, s: State, w: State)
    requires k < 4 && |insns| == 4 && 0 <= e.lo < P64
  {
    LeavesAlike(EnvAfter(e, k, s), insns, LeavingSlot(e, k, s), Leave(e, k, s), w)
  }

  lemma SlotHolds(e: Env, insns: seq<DecodedInsn>, hooked: Mem, k: nat)
    requires e.Valid() && |insns| == 4 && k < 4
    requires e.hi == e.lo + 4 * |BlockWords(insns, Wrap(e.target + 16), e.lo)|
    requires Holds(hooked, e.lo, BlockWords(insns, Wrap(e.target + 16), e.lo))
    ensures var pc := SlotPc(insns, e.lo, k);
      && e.lo <= pc < P64 && pc % 4 == 0
      && SlotPc(insns, e.lo, k + 1) == pc + 4 * |RelocateOne(insns[k], pc)| <= e.hi - 16
      && Holds(hooked, pc, RelocateOne(insns[k], pc))
  {
    hide RelocateOne, RelocateAll, Read32, Holds, EncodeAbsBranch;
    var base := e.lo;
    var a := RelocateAll(insns[..k], base);
    var whole := BlockWords(insns, Wrap(e.target + 16), base);
    RelocateAllConcat(insns[..k], insns[k..], base);
    RelocateAllConcat(insns[..k], [insns[k]], base);
    RelocateAllConcat(insns[..k + 1], insns[k + 1..], base);
    assert insns[..k] + insns[k..] == insns && insns[..k] + [insns[k]] == insns[..k + 1]
           && insns[..k + 1] + insns[k + 1..] == insns;
    var pc := SlotPc(insns, base, k);
    var b := RelocateAll(insns[..k + 1], base);
    assert |a| <= |b| <= |whole| - 4;
    assert Wrap(pc) == pc;
    RelocateAllSingle(insns[k], pc);
    assert whole[|a|..|b|] == RelocateOne(insns[k], pc);
    HoldsPart(hooked, base, whole, |a|, |b|);
  }

  lemma BackJumpHolds(e: Env, insns: seq<DecodedInsn>, hooked: Mem)
    requires e.Valid() && |insns| == 4
    requires e.hi == e.lo + 4 * |BlockWords(insns, Wrap(e.target + 16), e.lo)|
    requires Holds(hooked, e.lo, BlockWords(insns, Wrap(e.target + 16), e.lo))
    ensures SlotPc(insns, e.lo, 4) == e.hi - 16
    ensures Holds(hooked, e.hi - 16, EncodeAbsBranch(e.target + 16))
  {
    hide RelocateOne, RelocateAll, Read32, Holds, EncodeAbsBranch;
    var whole := BlockWords(insns, Wrap(e.target + 16), e.lo);
    assert insns[..4] == insns;
    HoldsPart(hooked, e.lo, whole, |whole| - 4, |whole|);
    assert whole[|whole| - 4..] == EncodeAbsBranch(e.target + 16);
    assert whole[|whole| - 4..|whole|] == whole[|whole| - 4..];
  }

  ghost predicate BlockAt(e: Env, insns: seq<DecodedInsn>, k: nat, s: State, t: State) {
    && k <= 4
    && BlockInstalled(e, insns, s.c.mem, t.c.mem)
    && s.pc == e.target + 4 * k && t.pc == SlotPc(insns, e.lo, k)
    && Agree(e, s.c, t.c)
  }

  /** One slot of the block: on to the next slot, or out. */
  lemma BlockSlot(e: Env, insns: seq<DecodedInsn>, k: nat, s: State, t: State)
    requires k < 4
    requires BlockAt(e, insns, k, s, t) && Carried(e, InsnAt(s), t.pc, s.c)
    ensures insns[k] == InsnAt(s)
    ensures var u, v := Step(e.other, s), Run(e.other, t, RelocatedSteps(insns[k], t.pc, s.c));
      var e1 := Learn(e, Decode(insns[k].raw), s.c);
      if Falls(insns[k], s.c) then BlockAt(e1, insns, k + 1, u, v)
      else LeavesAlike(e1, insns, k, u, v)
    ensures SameOn(t.c.mem, Run(e.other, t, RelocatedSteps(insns[k], t.pc, s.c)).c.mem, e.page, e.hi)
  {
    hide Step, Run, RelocatedSteps, RelocateOne, SlotSetup, SlotSound, BlockInstalled, Carried, LeavesAlike, Falls;
    hide InsnAt, Wrap, SlotPc, Agree;
    SlotReady(e, insns, k, s, t);
    EverySlot(e, insns[k], s, t);
    SlotOutcome(e, insns, k, s, t);
  }

  lemma SlotOutcome(e: Env, insns: seq<DecodedInsn>, k: nat, s: State, t: State)
    requires k < 4 && |insns| == 4 && 0 <= e.lo < P64
    requires BlockAt(e, insns, k, s, t)
    requires insns[k] == InsnAt(s) && insns[k].addr == s.pc
    requires Wrap(s.pc + 4) == s.pc + 4
    requires 0 <= SlotPc(insns, e.lo, k + 1) < P64
    requires Wrap(t.pc + 4 * |RelocateOne(insns[k], t.pc)|) == SlotPc(insns, e.lo, k + 1)
    requires SlotSound(e, insns[k], s, t)
    ensures var u, v := Step(e.other, s), Run(e.other, t, RelocatedSteps(insns[k], t.pc, s.c));
      var e1 := Learn(e, Decode(insns[k].raw), s.c);
      if Falls(insns[k], s.c) then BlockAt(e1, insns, k + 1, u, v)
      else LeavesAlike(e1, insns, k, u, v)
    ensures SameOn(t.c.mem, Run(e.other, t, RelocatedSteps(insns[k], t.pc, s.c)).c.mem, e.page, e.hi)
  {
    hide Step, Run, RelocatedSteps, RelocateOne, Matches, BlockAt, LeavesAlike, Falls, InsnAt, Wrap, SlotPc;
    SlotDone(e, insns, k, s, t, Step(e.other, s), Run(e.other, t, RelocatedSteps(insns[k], t.pc, s.c)));
  }

  lemma SlotDone(e: Env, insns: seq<DecodedInsn>, k: nat, s: State, t: State, u: State, v: State)
    requires k < 4
    requires BlockAt(e, insns, k, s, t)
    requires insns[k] == InsnAt(s) && insns[k].addr == s.pc
    requires Wrap(s.pc + 4) == s.pc + 4
    requires 0 <= SlotPc(insns, e.lo, k + 1) < P64
    requires Matches(e, insns[k], s.c, t.c, u, v, SlotPc(insns, e.lo, k + 1))
    ensures var e1 := Learn(e, Decode(insns[k].raw), s.c);
      if Falls(insns[k], s.c) then BlockAt(e1, insns, k + 1, u, v) else LeavesAlike(e1, insns, k, u, v)
    ensures SameOn(t.c.mem, v.c.mem, e.page, e.hi)
  {
    hide Decode, Read32, RelocateOne, RelocateAll, BlockWords, Falls, SlotPc, IsCall;
    NoCallFalls(insns[k], s);
    if Falls(insns[k], s.c) {
      InstalledAfter(e, insns, s.c.mem, u.c.mem, t.c.mem, v.c.mem);
    }
  }

  lemma SlotReady(e: Env, insns: seq<DecodedInsn>, k: nat, s: State, t: State)
    requires k < 4
    requires BlockAt(e, insns, k, s, t)
    ensures |insns| == 4 && 0 <= e.lo < P64
    ensures insns[k] == InsnAt(s) && insns[k].addr == s.pc
    ensures SlotSetup(e, insns[k], s, t)
    ensures 0 <= SlotPc(insns, e.lo, k + 1) < P64
    ensures Wrap(t.pc + 4 * |RelocateOne(insns[k], t.pc)|) == SlotPc(insns, e.lo, k + 1)
    ensures Wrap(s.pc + 4) == s.pc + 4
  {
    hide Decode, Read32, RelocateOne, RelocateAll, BlockWords;
    SlotHolds(e, insns, t.c.mem, k);
  }

  lemma NoCallFalls(insn: DecodedInsn, s: State)
    requires insn == InsnAt(s)
    ensures IsCall(insn) ==> !Falls(insn, s.c)
  {
    hide Decode, Read32, Taken;
  }

  /**
   * The relocated block preserves the meaning of the displaced instructions: from any slot, when
   * the unhooked machine leaves the window (or calls), the hooked machine is at the same place
   * in the same state, up to the scratch registers and with its return address in the block.
   */
  lemma {:induction false} BlockPreservesMeaning(e: Env, insns: seq<DecodedInsn>, k: nat, s: State, t: State)
    requires k < 4 && |insns| == 4 && 0 <= e.lo < P64
    requires BlockAt(e, insns, k, s, t)
    requires RunCarried(e, insns, k, s)
    ensures LeftAlike(e, insns, k, s, Run(e.other, t, BlockSteps(e, insns, k, s)))
    ensures SameOn(t.c.mem, Run(e.other, t, BlockSteps(e, insns, k, s)).c.mem, e.page, e.hi)
    decreases 4 - k
  {
    hide Decode, Read32, Step, RelocateOne, RelocateAll, BlockWords, RelocatedSteps, EncodeAbsBranch, Carried, Falls,
         Run;
    var n := RelocatedSteps(insns[k], t.pc, s.c);
    BlockSlot(e, insns, k, s, t);
    var u, v := Step(e.other, s), Run(e.other, t, n);
    if Falls(insns[k], s.c) {
      if k < 3 {
        var e1 := Learn(e, Decode(insns[k].raw), s.c);
        SameWalk(e, e1, insns, k + 1, u);
        BlockPreservesMeaning(e1, insns, k + 1, u, v);
        RunThen(e.other, t, n, BlockSteps(e, insns, k + 1, u));
      } else {
        BackJumpHolds(e, insns, v.c.mem);
        AbsBranchRuns(e.other, v, e.target + 16);
        RunThen(e.other, t, n, 2);
        NoCallFalls(insns[k], s);
      }
    }
  }

  /** What is hidden does not change the unhooked machine's way. */
  lemma {:induction false} SameWalk(e: Env, e1: Env, insns: seq<DecodedInsn>, k: nat, s: State)
    requires k < 4 && |insns| == 4 && 0 <= e.lo < P64 && e1 == e.(hidden := e1.hidden)
    ensures Leave(e1, k, s) == Leave(e, k, s) && LeavingSlot(e1, k, s) == LeavingSlot(e, k, s)
    ensures BlockSteps(e1, insns, k, s) == BlockSteps(e, insns, k, s)
    decreases 4 - k
  {
    hide Step, Falls, InsnAt, RelocatedSteps, SlotPc, Wrap;
    if k < 3 {
      SameWalk(e, e1, insns, k + 1, Step(e.other, s));
    }
  }

  lemma InstalledAfter(e: Env, insns: seq<DecodedInsn>, m: Mem, m': Mem, h: Mem, h': Mem)
    requires BlockInstalled(e, insns, m, h)
    requires SameOn(m, m', e.target, e.target + 16) && SameOn(h, h', e.lo, e.hi)
    ensures BlockInstalled(e, insns, m', h')
  {
    hide Decode, RelocateOne, RelocateAll, BlockWords;
    HoldsSame(h, h', e.lo, BlockWords(insns, Wrap(e.target + 16), e.lo));
    forall k | 0 <= k < 4
      ensures Read32(m', e.target + 4 * k) == Read32(m, e.target + 4 * k)
    {
      Read32Same(m, m', e.target + 4 * k);
    }
  }
}
