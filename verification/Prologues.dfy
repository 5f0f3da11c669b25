/**
 * Which instructions two agreeing machines run alike: a condition on the instruction's registers and
 * addresses, in place of one on its effect. It says which displaced instructions the trampoline may
 * copy, and which code behind it the machines run in step.
 */
module Prologues {
  import opened Words
  import opened Memory
  import opened A64
  import opened Decoder
  import opened Relocator
  import opened Relocation

  /** `i` at `pc` reads no scratch register and no hidden byte. */
  ghost predicate Plain(e: Env, i: Insn, pc: u64, c: Core) {
    match i
    case CB(_, _, rt, _) => Steady(e, rt)
    case TB(_, _, rt, _) => Steady(e, rt)
    case LdrLit(size, _, off) => Seen(e, Wrap(pc + off), LiteralBytes(size))
    case AddImm(_, _, rn, _) => Steady(e, rn)
    case SubImm(_, _, rn, _) => Steady(e, rn)
    case BR(rn) => Steady(e, rn)
    case BLR(rn) => Steady(e, rn)
    case RET(rn) => Steady(e, rn)
    case LdrImm(is64, _, rn, imm) => Steady(e, rn) && Seen(e, Wrap(XorSP(c, rn) + imm), if is64 then 8 else 4)
    case StrImm(_, rt, rn, _) => Steady(e, rt) && Steady(e, rn)
    case Pair(width, mode, load, a, b, base, imm) =>
      && Steady(e, base)
      && (if load then Seen(e, PairAddress(mode, base, imm, c), PairBytes(width)) else Steady(e, a) && Steady(e, b))
    case MSR(rt) => Steady(e, rt)
    case MovReg(_, _, rm) => Steady(e, rm)
    case UBFM(_, _, rn, _, _) => Steady(e, rn)
    case Other(_) => false
    case _ => true
  }

  /** How many bytes a literal load reads. */
  function LiteralBytes(size: LitSize): int {
    match size
    case LitX => 8
    case LitD => 8
    case LitQ => 16
    case LitPrefetch => 0
    case _ => 4
  }

  /** `i` stores nothing in `[lo, hi)`. */
  ghost predicate ClearOf(e: Env, i: Insn, c: Core, lo: int, hi: int) {
    forall a :: lo <= a < hi ==> !Stores(e, i, c, a)
  }

  /** The general registers that `i` writes. */
  function Written(i: Insn): set<int> {
    match i
    case BL(_) => {30}
    case BLR(_) => {30}
    case ADR(rd, _) => {rd}
    case ADRP(rd, _) => {rd}
    case LdrLit(size, rt, _) => if size == LitW || size == LitX || size == LitSW then {rt} else {}
    case AddImm(_, rd, _, _) => {rd}
    case SubImm(_, rd, _, _) => {rd}
    case LdrImm(_, rt, _, _) => {rt}
    case Pair(width, _, load, a, b, _, _) => if load && width != PairQ then {a, b} else {}
    case MRS(rt) => {rt}
    case MovReg(_, rd, _) => {rd}
    case MOVZ(_, rd, _, _) => {rd}
    case UBFM(is64, rd, _, immr, imms) =>
      var size := if is64 then 64 else 32;
      if 0 <= immr < size && 0 <= imms < size then {rd} else {}
    case _ => {}
  }

  /** What is still hidden and scratch once both machines have run `i`: neither what it stored nor what it wrote. */
  ghost function LearnAll(e: Env, i: Insn, c: Core): Env {
    Learn(e, i, c).(scratch := e.scratch - Written(i))
  }

  /** Only the bytes that `i` stores change. */
  ghost predicate StoresOnly(e: Env, i: Insn, c: Core, m: Mem, n: Mem) {
    forall a :: !Stores(e, i, c, a) ==> Get(m, a) == Get(n, a)
  }

  /** From agreeing cores, `i` leaves agreeing cores, continues alike and changes only what it stores. */
  ghost predicate RunsAlike(e: Env, i: Insn, pc: u64, c: Core, d: Core) {
    && Agree(LearnAll(e, i, c), Effect(e.other, i, pc, c), Effect(e.other, i, pc, d))
    && Next(i, pc, c) == Next(i, pc, d)
    && StoresOnly(e, i, c, c.mem, Effect(e.other, i, pc, c).mem)
    && StoresOnly(e, i, c, d.mem, Effect(e.other, i, pc, d).mem)
  }

  // ---------- memory ----------

  /** Writing the same bytes to both keeps what agreed, and makes what was written agree. */
  ghost predicate WroteAlike(e: Env, m: Mem, n: Mem, m': Mem, n': Mem, lo: int, hi: int) {
    && (forall a :: a !in e.hidden || lo <= a < hi ==> Get(m', a) == Get(n', a))
    && SameOff(m, m', lo, hi) && SameOff(n, n', lo, hi)
  }

  lemma Write32Alike(e: Env, m: Mem, n: Mem, a: int, w: u32)
    requires SameSeen(e, m, n)
    ensures WroteAlike(e, m, n, Write32(m, a, w), Write32(n, a, w), a, a + 4)
  {
    hide LE32;
  }

  /** One write behind another. */
  lemma WroteBoth(e: Env, m: Mem, n: Mem, m1: Mem, n1: Mem, m2: Mem, n2: Mem, lo: int, mid: int, hi: int)
    requires lo <= mid <= hi && WroteAlike(e, m, n, m1, n1, lo, mid)
    requires (forall a :: mid <= a < hi ==> Get(m2, a) == Get(n2, a)) && SameOff(m1, m2, mid, hi)
             && SameOff(n1, n2, mid, hi)
    ensures WroteAlike(e, m, n, m2, n2, lo, hi)
  {
    hide Get;
  }

  lemma AlikeSeen(e: Env, m: Mem, n: Mem, m': Mem, n': Mem, lo: int, hi: int)
    requires WroteAlike(e, m, n, m', n', lo, hi)
    ensures SameSeen(e, m', n')
  {}

  lemma Write64Alike(e: Env, m: Mem, n: Mem, a: int, v: u64)
    requires SameSeen(e, m, n)
    ensures WroteAlike(e, m, n, Write64(m, a, v), Write64(n, a, v), a, a + 8)
  {
    hide Write32, Get;
    var m1, n1 := Write32(m, a, LowWord(v)), Write32(n, a, LowWord(v));
    Write32Alike(e, m, n, a, LowWord(v));
    Write32Alike(e, m1, n1, a + 4, HighWord(v));
    WroteBoth(e, m, n, m1, n1, Write64(m, a, v), Write64(n, a, v), a, a + 4, a + 8);
  }

  lemma Write128Alike(e: Env, m: Mem, n: Mem, a: int, v: u128)
    requires SameSeen(e, m, n)
    ensures WroteAlike(e, m, n, Write128(m, a, v), Write128(n, a, v), a, a + 16)
  {
    hide Write64, Get;
    var m1, n1 := Write64(m, a, v % P64), Write64(n, a, v % P64);
    Write64Alike(e, m, n, a, v % P64);
    Write64Alike(e, m1, n1, a + 8, v / P64);
    WroteBoth(e, m, n, m1, n1, Write128(m, a, v), Write128(n, a, v), a, a + 8, a + 16);
  }

  lemma StoreAlike(e: Env, width: PairSize, addr: u64, a: RegNo, b: RegNo, c: Core, d: Core)
    requires Agree(e, c, d) && (width == PairQ || (Steady(e, a) && Steady(e, b)))
    ensures WroteAlike(e, c.mem, d.mem, PairStore(c, width, addr, a, b).mem, PairStore(d, width, addr, a, b).mem, addr,
                       addr + PairBytes(width))
  {
    hide Write32, Write64, Write128, Get, Read32, Read64, Read128, WroteAlike;
    var m', n' := PairStore(c, width, addr, a, b).mem, PairStore(d, width, addr, a, b).mem;
    match width
    case PairW =>
      var v, w := LowWord(X(c, a)), LowWord(X(c, b));
      Write32Alike(e, c.mem, d.mem, addr, v);
      var m1, n1 := Write32(c.mem, addr, v), Write32(d.mem, addr, v);
      AlikeSeen(e, c.mem, d.mem, m1, n1, addr, addr + 4);
      Write32Alike(e, m1, n1, addr + 4, w);
      WroteTwice(e, c.mem, d.mem, m1, n1, m', n', addr, addr + 4, addr + 8);
    case PairX =>
      var v, w := X(c, a), X(c, b);
      Write64Alike(e, c.mem, d.mem, addr, v);
      var m1, n1 := Write64(c.mem, addr, v), Write64(d.mem, addr, v);
      AlikeSeen(e, c.mem, d.mem, m1, n1, addr, addr + 8);
      Write64Alike(e, m1, n1, addr + 8, w);
      WroteTwice(e, c.mem, d.mem, m1, n1, m', n', addr, addr + 8, addr + 16);
    case PairQ =>
      var v, w := c.q[a], c.q[b];
      Write128Alike(e, c.mem, d.mem, addr, v);
      var m1, n1 := Write128(c.mem, addr, v), Write128(d.mem, addr, v);
      AlikeSeen(e, c.mem, d.mem, m1, n1, addr, addr + 16);
      Write128Alike(e, m1, n1, addr + 16, w);
      WroteTwice(e, c.mem, d.mem, m1, n1, m', n', addr, addr + 16, addr + 32);
  }

  lemma WroteTwice(e: Env, m: Mem, n: Mem, m1: Mem, n1: Mem, m2: Mem, n2: Mem, lo: int, mid: int, hi: int)
    requires lo <= mid <= hi && WroteAlike(e, m, n, m1, n1, lo, mid) && WroteAlike(e, m1, n1, m2, n2, mid, hi)
    ensures WroteAlike(e, m, n, m2, n2, lo, hi)
  {
    hide Get;
    WroteBoth(e, m, n, m1, n1, m2, n2, lo, mid, hi);
  }

  lemma SeenReads(e: Env, m: Mem, n: Mem, a: int, len: int)
    requires SameSeen(e, m, n) && Seen(e, a, len)
    ensures SameOn(m, n, a, a + len)
  {}

  // ---------- agreement ----------

  /** Both machines put the same value in register `n`. */
  lemma SetAlike(e: Env, c: Core, d: Core, n: RegNo, v: u64)
    requires Agree(e, c, d)
    ensures Agree(e.(scratch := e.scratch - {n}), SetX(c, n, v), SetX(d, n, v))
    ensures Agree(e.(scratch := e.scratch - {n}), SetXorSP(c, n, v), SetXorSP(d, n, v))
  {}

  /** The stored bytes are learned. */
  lemma StoreLearned(e: Env, i: Insn, c: Core, d: Core, c': Core, d': Core, lo: int, hi: int)
    requires Agree(e, c, d) && (forall a :: Stores(e, i, c, a) <==> lo <= a < hi)
    requires c' == c.(mem := c'.mem) && d' == d.(mem := d'.mem)
    requires WroteAlike(e, c.mem, d.mem, c'.mem, d'.mem, lo, hi)
    ensures Agree(Learn(e, i, c), c', d') && StoresOnly(e, i, c, c.mem, c'.mem) && StoresOnly(e, i, c, d.mem, d'.mem)
  {
    hide Stores, Get;
  }

  /** Without a store, nothing is learned of memory, and no memory may change. */
  lemma NoStoreAlike(e: Env, i: Insn, pc: u64, c: Core, d: Core)
    requires !i.StrImm? && !i.Pair?
    requires Agree(e.(scratch := e.scratch - Written(i)), Effect(e.other, i, pc, c), Effect(e.other, i, pc, d))
    requires Next(i, pc, c) == Next(i, pc, d)
    requires Effect(e.other, i, pc, c).mem == c.mem && Effect(e.other, i, pc, d).mem == d.mem
    ensures RunsAlike(e, i, pc, c, d)
  {
    hide Effect, Next, Agree, Stores;
    LearnNothing(e, i, c);
  }

  /** The value that `i` computes for its destination, which `SetX` or, at 31, `SetXorSP` takes. */
  function Computed(i: Insn, pc: u64, c: Core): u64
    requires i.AddImm? || i.SubImm? || i.MovReg? || i.MOVZ? || i.MRS? || i.ADR? || i.ADRP?
  {
    match i
    case AddImm(is64, _, rn, imm) => if is64 then Wrap(XorSP(c, rn) + imm) else Wrap32(XorSP(c, rn) + imm)
    case SubImm(is64, _, rn, imm) => if is64 then Wrap(XorSP(c, rn) - imm) else Wrap32(XorSP(c, rn) - imm)
    case MovReg(is64, _, rm) => if is64 then X(c, rm) else LowWord(X(c, rm))
    case MOVZ(_, _, imm, hw) => Wrap(imm * Pow2(if hw < 0 then 0 else 16 * hw))
    case MRS(_) => c.nzcv * 0x1000_0000
    case ADR(_, imm) => Wrap(pc + imm)
    case ADRP(_, pages) => Wrap(PageOf(pc) + 0x1000 * pages)
  }

  function Destination(i: Insn): RegNo {
    match i
    case AddImm(_, rd, _, _) => rd
    case SubImm(_, rd, _, _) => rd
    case MovReg(_, rd, _) => rd
    case MOVZ(_, rd, _, _) => rd
    case MRS(rt) => rt
    case ADR(rd, _) => rd
    case ADRP(rd, _) => rd
    case _ => 31
  }

  lemma ComputedAlike(e: Env, i: Insn, pc: u64, c: Core, d: Core)
    requires i.AddImm? || i.SubImm? || i.MovReg? || i.MOVZ? || i.MRS? || i.ADR? || i.ADRP?
    requires Plain(e, i, pc, c) && Agree(e, c, d)
    ensures Computed(i, pc, c) == Computed(i, pc, d)
  {
    hide Wrap, Wrap32, Pow2, PageOf, SameSeen;
  }

  lemma RegisterAlike(e: Env, i: Insn, pc: u64, c: Core, d: Core)
    requires i.AddImm? || i.SubImm? || i.MovReg? || i.MOVZ? || i.MRS? || i.ADR? || i.ADRP?
    requires Plain(e, i, pc, c) && Agree(e, c, d)
    ensures RunsAlike(e, i, pc, c, d)
  {
    hide Get, Wrap, Wrap32, Pow2, PageOf, RunsAlike, Agree;
    ComputedAlike(e, i, pc, c, d);
    SetAlike(e, c, d, Destination(i), Computed(i, pc, c));
    NoStoreAlike(e, i, pc, c, d);
  }

  lemma UbfmAlike(e: Env, i: Insn, pc: u64, c: Core, d: Core)
    requires i.UBFM? && Plain(e, i, pc, c) && Agree(e, c, d)
    ensures RunsAlike(e, i, pc, c, d)
  {
    hide Get, Wrap, Wrap32, UbfmValue, RunsAlike;
    NoStoreAlike(e, i, pc, c, d);
  }

  lemma FlagsAlike(e: Env, i: Insn, pc: u64, c: Core, d: Core)
    requires i.MSR? && Plain(e, i, pc, c) && Agree(e, c, d)
    ensures RunsAlike(e, i, pc, c, d)
  {
    hide Get, Wrap, RunsAlike;
    NoStoreAlike(e, i, pc, c, d);
  }

  lemma BranchAlike(e: Env, i: Insn, pc: u64, c: Core, d: Core)
    requires i.B? || i.BL? || i.BCond? || i.CB? || i.TB? || i.BR? || i.BLR? || i.RET?
    requires Plain(e, i, pc, c) && Agree(e, c, d)
    ensures RunsAlike(e, i, pc, c, d)
  {
    hide Get, Wrap, Pow2, CondHolds, RunsAlike;
    NoStoreAlike(e, i, pc, c, d);
  }

  lemma LiteralAlike(e: Env, i: Insn, pc: u64, c: Core, d: Core)
    requires i.LdrLit? && Plain(e, i, pc, c) && Agree(e, c, d)
    ensures RunsAlike(e, i, pc, c, d)
  {
    hide Get, Wrap, RunsAlike, SignExtend, Read32, Read64, Read128;
    var a := Wrap(pc + i.off);
    SeenReads(e, c.mem, d.mem, a, LiteralBytes(i.size));
    match i.size {
      case LitX => Read64Same(c.mem, d.mem, a);
      case LitD => Read64Same(c.mem, d.mem, a);
      case LitQ => Read128Same(c.mem, d.mem, a);
      case LitPrefetch =>
      case _ => Read32Same(c.mem, d.mem, a);
    }
    NoStoreAlike(e, i, pc, c, d);
  }

  lemma Read128Same(m: Mem, n: Mem, a: int)
    requires SameOn(m, n, a, a + 16)
    ensures Read128(m, a) == Read128(n, a)
  {
    hide Read64;
    Read64Same(m, n, a);
    Read64Same(m, n, a + 8);
  }

  lemma LoadAlike(e: Env, i: Insn, pc: u64, c: Core, d: Core)
    requires i.LdrImm? && Plain(e, i, pc, c) && Agree(e, c, d)
    ensures RunsAlike(e, i, pc, c, d)
  {
    hide Get, Wrap, RunsAlike, Read32, Read64, SameSeen;
    assert XorSP(c, i.rn) == XorSP(d, i.rn);
    var a := Wrap(XorSP(c, i.rn) + i.imm);
    if i.is64 {
      SeenReads(e, c.mem, d.mem, a, 8);
      Read64Same(c.mem, d.mem, a);
    } else {
      SeenReads(e, c.mem, d.mem, a, 4);
      Read32Same(c.mem, d.mem, a);
    }
    SetAlike(e, c, d, i.rt, if i.is64 then Read64(c.mem, a) else Read32(c.mem, a));
    NoStoreAlike(e, i, pc, c, d);
  }

  lemma StrAlike(e: Env, i: Insn, pc: u64, c: Core, d: Core)
    requires i.StrImm? && Plain(e, i, pc, c) && Agree(e, c, d)
    ensures RunsAlike(e, i, pc, c, d)
  {
    hide Get, Wrap, Write32, Write64, WroteAlike, Learn, StoresOnly, SameSeen;
    assert XorSP(c, i.rn) == XorSP(d, i.rn);
    var a: int := Wrap(XorSP(c, i.rn) + i.imm);
    Write64Alike(e, c.mem, d.mem, a, X(c, i.rt));
    Write32Alike(e, c.mem, d.mem, a, LowWord(X(c, i.rt)));
    StoreLearned(e, i, c, d, Effect(e.other, i, pc, c), Effect(e.other, i, pc, d), a, a + if i.is64 then 8 else 4);
    NothingWritten(e, i, c);
  }

  lemma NothingWritten(e: Env, i: Insn, c: Core)
    requires Written(i) == {}
    ensures LearnAll(e, i, c) == Learn(e, i, c)
  {
    assert e.scratch - Written(i) == e.scratch;
  }

  /** The base register moves alike. */
  lemma MovedAlike(e: Env, mode: PairMode, base: RegNo, imm: int, c: Core, d: Core, c': Core, d': Core)
    requires Agree(e, c', d') && XorSP(c, base) == XorSP(d, base)
    ensures var moved := Wrap(XorSP(c, base) + imm);
      Agree(e, if mode == Offset then c' else SetXorSP(c', base, moved),
            if mode == Offset then d' else SetXorSP(d', base, moved))
  {
    hide SameSeen, Wrap;
  }

  lemma PairStoreAlike(e: Env, i: Insn, pc: u64, c: Core, d: Core)
    requires i.Pair? && !i.load && Plain(e, i, pc, c) && Agree(e, c, d)
    ensures RunsAlike(e, i, pc, c, d)
  {
    hide Get, Wrap, WroteAlike, Learn, StoresOnly, SameSeen, PairStore;
    var addr := PairAddress(i.mode, i.base, i.imm, c);
    assert XorSP(c, i.base) == XorSP(d, i.base);
    StoreAlike(e, i.width, addr, i.a, i.b, c, d);
    var c', d' := PairStore(c, i.width, addr, i.a, i.b), PairStore(d, i.width, addr, i.a, i.b);
    StoreKeepsRegisters(c, i.width, addr, i.a, i.b);
    StoreKeepsRegisters(d, i.width, addr, i.a, i.b);
    StoreLearned(e, i, c, d, c', d', addr, addr + PairBytes(i.width));
    MovedAlike(Learn(e, i, c), i.mode, i.base, i.imm, c, d, c', d');
    NothingWritten(e, i, c);
  }

  lemma StoreKeepsRegisters(c: Core, width: PairSize, addr: u64, a: RegNo, b: RegNo)
    ensures PairStore(c, width, addr, a, b) == c.(mem := PairStore(c, width, addr, a, b).mem)
  {
    hide Write32, Write64, Write128;
  }

  lemma LoadedAlike(e: Env, width: PairSize, addr: u64, a: RegNo, b: RegNo, c: Core, d: Core)
    requires Agree(e, c, d) && Seen(e, addr, PairBytes(width))
    ensures Agree(e.(scratch := e.scratch - if width == PairQ then {} else {a, b}),
                  PairLoad(c, width, addr, a, b), PairLoad(d, width, addr, a, b))
    ensures PairLoad(c, width, addr, a, b).mem == c.mem && PairLoad(d, width, addr, a, b).mem == d.mem
  {
    hide Read32, Read64, Read128, Get;
    SeenReads(e, c.mem, d.mem, addr, PairBytes(width));
    hide SameSeen;
    match width
    case PairW =>
      Read32Same(c.mem, d.mem, addr);
      Read32Same(c.mem, d.mem, addr + 4);
    case PairX =>
      Read64Same(c.mem, d.mem, addr);
      Read64Same(c.mem, d.mem, addr + 8);
    case PairQ =>
      Read128Same(c.mem, d.mem, addr);
      Read128Same(c.mem, d.mem, addr + 16);
  }

  lemma PairLoadAlike(e: Env, i: Insn, pc: u64, c: Core, d: Core)
    requires i.Pair? && i.load && Plain(e, i, pc, c) && Agree(e, c, d)
    ensures RunsAlike(e, i, pc, c, d)
  {
    hide Get, Wrap, Learn, SameSeen, PairLoad;
    var addr := PairAddress(i.mode, i.base, i.imm, c);
    assert XorSP(c, i.base) == XorSP(d, i.base);
    LoadedAlike(e, i.width, addr, i.a, i.b, c, d);
    var c', d' := PairLoad(c, i.width, addr, i.a, i.b), PairLoad(d, i.width, addr, i.a, i.b);
    var e1 := e.(scratch := e.scratch - Written(i));
    MovedAlike(e1, i.mode, i.base, i.imm, c, d, c', d');
    LoadLearnsNothing(e, i, c);
  }

  lemma LoadLearnsNothing(e: Env, i: Insn, c: Core)
    requires i.Pair? && i.load
    ensures Learn(e, i, c) == e
  {
    assert Learn(e, i, c).hidden == e.hidden;
  }

  /** Machines that agree run every plain instruction alike. */
  lemma PlainRunsAlike(e: Env, i: Insn, pc: u64, c: Core, d: Core)
    requires Plain(e, i, pc, c) && Agree(e, c, d)
    ensures RunsAlike(e, i, pc, c, d)
  {
    hide Effect, Agree, RunsAlike, Steady, Seen, Next;
    match i
    case Pair(_, _, load, _, _, _, _) =>
      if load {
        PairLoadAlike(e, i, pc, c, d);
      } else {
        PairStoreAlike(e, i, pc, c, d);
      }
    case LdrImm(_, _, _, _) => LoadAlike(e, i, pc, c, d);
    case StrImm(_, _, _, _) => StrAlike(e, i, pc, c, d);
    case LdrLit(_, _, _) => LiteralAlike(e, i, pc, c, d);
    case AddImm(_, _, _, _) => RegisterAlike(e, i, pc, c, d);
    case SubImm(_, _, _, _) => RegisterAlike(e, i, pc, c, d);
    case MovReg(_, _, _) => RegisterAlike(e, i, pc, c, d);
    case UBFM(_, _, _, _, _) => UbfmAlike(e, i, pc, c, d);
    case MOVZ(_, _, _, _) => RegisterAlike(e, i, pc, c, d);
    case MRS(_) => RegisterAlike(e, i, pc, c, d);
    case MSR(_) => FlagsAlike(e, i, pc, c, d);
    case ADR(_, _) => RegisterAlike(e, i, pc, c, d);
    case ADRP(_, _) => RegisterAlike(e, i, pc, c, d);
    case _ => BranchAlike(e, i, pc, c, d);
  }

  // ---------- displaced instructions ----------

  /** A displaced instruction without PC dependency that is plain and stores away from the code. */
  ghost predicate Ordinary(e: Env, insn: DecodedInsn, c: Core) {
    var i := Decode(insn.raw);
    && insn.kind.PcIndependent? && Plain(e, i, insn.addr, c) && !i.LdrLit?
    && ClearOf(e, i, c, e.target, e.target + 16) && ClearOf(e, i, c, e.page, e.hi)
  }

  /** Agreeing on more registers is agreeing. */
  lemma AgreeLess(e: Env, i: Insn, c: Core, a: Core, b: Core)
    requires Agree(LearnAll(e, i, c), a, b)
    ensures Agree(Learn(e, i, c), a, b)
  {
    hide Learn, Get;
    LearnHides(e, i, c);
  }

  lemma AgreeSelf(e: Env, c: Core)
    ensures Agree(e, c, c)
  {}

  /** An ordinary instruction is carried, whatever it computes. */
  lemma OrdinaryIsInsulated(e: Env, insn: DecodedInsn, c: Core)
    requires Ordinary(e, insn, c)
    ensures Insulated(e, Decode(insn.raw), insn.addr, c)
  {
    hide Effect, Plain, Agree, Learn, Stores, Decode, Next;
    var i := Decode(insn.raw);
    forall d | Agree(e, c, d)
      ensures RunsAlike(e, i, insn.addr, c, d)
    {
      PlainRunsAlike(e, i, insn.addr, c, d);
    }
    forall d | Agree(e, c, d)
      ensures Agree(Learn(e, i, c), Effect(e.other, i, insn.addr, c), Effect(e.other, i, insn.addr, d))
    {
      AgreeLess(e, i, c, Effect(e.other, i, insn.addr, c), Effect(e.other, i, insn.addr, d));
    }
    AgreeSelf(e, c);
    assert RunsAlike(e, i, insn.addr, c, c);
  }

  /** The frame push that most functions begin with, STP X29, X30, [SP, #-n]!, on a stack clear of the code. */
  lemma FramePushIsCarried(e: Env, insn: DecodedInsn, imm: int, c: Core)
    requires insn.kind.PcIndependent? && Decode(insn.raw) == Pair(PairX, Pre, false, 29, 30, 31, imm)
    requires 29 !in e.scratch && 30 !in e.scratch
    requires var at := Wrap(c.sp + imm);
      (at + 16 <= e.target || e.target + 16 <= at) && (at + 16 <= e.page || e.hi <= at)
    ensures Insulated(e, Decode(insn.raw), insn.addr, c)
    ensures forall a :: Wrap(c.sp + imm) <= a < Wrap(c.sp + imm) + 16 ==> a !in Learn(e, Decode(insn.raw), c).hidden
  {
    hide Insulated, Wrap, Decode;
    OrdinaryIsInsulated(e, insn, c);
    var i := Decode(insn.raw);
    forall a | Wrap(c.sp + imm) <= a < Wrap(c.sp + imm) + 16
      ensures a !in Learn(e, i, c).hidden
    {
      assert Stores(e, i, c, a) && !e.InWindow(a);
    }
  }

  // ---------- whole prologues ----------

  /** The instructions from slot `k` on are ordinary, each in the state that it is reached in. */
  ghost predicate RunOrdinary(e: Env, k: nat, s: State)
    requires k < 4
    decreases 4 - k
  {
    && Ordinary(e, InsnAt(s), s.c)
    && (k < 3 ==> RunOrdinary(Learn(e, Decode(InsnAt(s).raw), s.c), k + 1, Step(e.other, s)))
  }

  lemma {:induction false} OrdinaryRunIsCarried(e: Env, insns: seq<DecodedInsn>, k: nat, s: State, t: State)
    requires k < 4 && |insns| == 4 && 0 <= e.lo < P64
    requires BlockAt(e, insns, k, s, t) && RunOrdinary(e, k, s)
    ensures RunCarried(e, insns, k, s)
    ensures Leave(e, k, s) == Run(e.other, s, 4 - k) && LeavingSlot(e, k, s) == 3
    ensures BlockSteps(e, insns, k, s) == 6 - k
    ensures Run(e.other, s, 4 - k).pc == e.target + 16 && !IsCall(insns[3])
    decreases 4 - k
  {
    hide Ordinary, Step, Insulated, BlockInstalled, Decode, Agree, RelocateOne, SlotPc, Read32, Run, IsCall, Falls,
         RelocatedSteps, Learn;
    OrdinaryIsInsulated(e, InsnAt(s), s.c);
    OrdinaryKind(e, InsnAt(s), s.c);
    BlockSlot(e, insns, k, s, t);
    OrdinarySteps(e, insns, k, s, t);
    FirstStep(e.other, s, 4 - k);
    LearnHides(e, Decode(InsnAt(s).raw), s.c);
    if k < 3 {
      var e1 := Learn(e, Decode(InsnAt(s).raw), s.c);
      OrdinaryRunIsCarried(e1, insns, k + 1, Step(e.other, s), Run(e.other, t, 1));
      SameWalk(e, e1, insns, k + 1, Step(e.other, s));
    } else {
      NoStep(e.other, Step(e.other, s));
    }
  }

  lemma LearnHides(e: Env, i: Insn, c: Core)
    ensures Learn(e, i, c) == e.(hidden := Learn(e, i, c).hidden)
  {}

  lemma OrdinaryKind(e: Env, insn: DecodedInsn, c: Core)
    requires Ordinary(e, insn, c) && insn == DecodeAt(insn.addr, insn.raw)
    ensures insn.kind.PcIndependent? && !IsCall(insn)
  {
    hide Decode, ClearOf, Plain, Wrap;
  }

  lemma OrdinarySteps(e: Env, insns: seq<DecodedInsn>, k: nat, s: State, t: State)
    requires k < 4 && |insns| == 4 && insns[k] == InsnAt(s) && InsnAt(s).kind.PcIndependent?
    ensures RelocatedSteps(insns[k], t.pc, s.c) == 1 && Falls(insns[k], s.c)
  {}

  lemma FirstStep(other: Uninterpreted, s: State, n: nat)
    requires n > 0
    ensures Run(other, s, n) == Run(other, Step(other, s), n - 1)
  {
    hide Step;
  }

  lemma NoStep(other: Uninterpreted, s: State)
    ensures Run(other, s, 0) == s
  {}

  /**
   * A function entry of four ordinary instructions runs in the trampoline as it did in place: six steps
   * of the hooked machine do what four of the unhooked one do.
   */
  lemma OrdinaryPrologueRelocates(e: Env, insns: seq<DecodedInsn>, s: State, t: State)
    requires |insns| == 4 && 0 <= e.lo < P64
    requires BlockAt(e, insns, 0, s, t) && RunOrdinary(e, 0, s)
    ensures var u, v := Run(e.other, s, 4), Run(e.other, t, 6);
      u.pc == e.target + 16 && v.pc == u.pc && Agree(EnvAfter(e, 0, s), u.c, v.c)
  {
    hide Run, Step, BlockAt, RunOrdinary, Agree, Decode, BlockSteps, Leave, LeavingSlot, RunCarried, EnvAfter;
    OrdinaryRunIsCarried(e, insns, 0, s, t);
    BlockPreservesMeaning(e, insns, 0, s, t);
  }
}
