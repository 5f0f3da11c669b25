/**
 * Two machines that run the same call, but return to different places. What they do not agree on are
 * the values that stand for a return address: the caller's own on one machine, the leave thunk or a
 * place in the block on the other. A view says which registers and stack slots hold such a link, and
 * how instructions move links about.
 */
module Links {
  import opened Words
  import opened Options
  import opened Memory
  import opened A64
  import opened Relocation
  import opened Prologues

  /** A link: its value on the unhooked machine and on the hooked one. */
  datatype Link = Link(plain: u64, hooked: u64)

  /** What is scratch and hidden at some point, and which registers and 8-byte slots hold links there. */
  datatype View = View(scratch: set<int>, hidden: iset<int>, regs: map<int, Link>, slots: map<int, Link>)
  {
    ghost function In(e: Env): Env { e.(scratch := scratch, hidden := hidden) }

    /** What `e` hides for good stays hidden, and links are kept in scratch registers and in seen memory. */
    ghost predicate Of(e: Env) {
      && (forall a :: a in e.hidden ==> a in hidden)
      && (forall n :: n in regs ==> 0 <= n < 31 && n in scratch)
      && (forall a :: a in slots ==> Seen(e, a, 8))
    }
  }

  ghost predicate RegsHold(regs: map<int, Link>, c: Core, d: Core) {
    forall n :: n in regs ==> 0 <= n < 31 && c.x[n] == regs[n].plain && d.x[n] == regs[n].hooked
  }

  ghost predicate SlotsHold(slots: map<int, Link>, m: Mem, n: Mem) {
    forall a :: a in slots ==> Read64(m, a) == slots[a].plain && Read64(n, a) == slots[a].hooked
  }

  /** The machines agree on all but scratch and hidden places, and hold the links where the view says. */
  ghost predicate Alike(e: Env, v: View, c: Core, d: Core) {
    Agree(v.In(e), c, d) && RegsHold(v.regs, c, d) && SlotsHold(v.slots, c.mem, d.mem)
  }

  // ---------- moving links ----------

  function LinkIn(v: View, n: RegNo): Option<Link> { if n in v.regs then Some(v.regs[n]) else None }

  function LinkAt(v: View, a: int): Option<Link> { if a in v.slots then Some(v.slots[a]) else None }

  /** Register `n` takes a link, or a value that both machines compute alike. */
  function Put(v: View, n: RegNo, l: Option<Link>): View {
    if n == 31 then v
    else if l.Some? then v.(scratch := v.scratch + {n}, regs := v.regs[n := l.value])
    else v.(scratch := v.scratch - {n}, regs := v.regs - {n})
  }

  function SlotsOff(slots: map<int, Link>, lo: int, hi: int): map<int, Link> {
    map a | a in slots && (a + 8 <= lo || hi <= a) :: slots[a]
  }

  /** The eight bytes at `a` take a link, or a value that both machines store alike. */
  ghost function Save(e: Env, v: View, a: int, l: Option<Link>): (r: View)
    ensures r.scratch == v.scratch && r.regs == v.regs
  {
    var others := SlotsOff(v.slots, a, a + 8);
    if l.None? then v.(hidden := (iset b | b in v.hidden && (b in e.hidden || !(a <= b < a + 8))), slots := others)
    else v.(hidden := (iset b | b in v.hidden || a <= b < a + 8),
            slots := if Seen(e, a, 8) then others[a := l.value] else others)
  }

  /** Behind an instruction that moves no link: what it wrote holds none any more. */
  ghost function Forget(e: Env, v: View, i: Insn, c: Core): View {
    View(v.scratch - Written(i),
         (iset a | a in v.hidden && (a in e.hidden || !Stores(v.In(e), i, c, a))),
         v.regs - Written(i),
         map a | a in v.slots && (forall b :: a <= b < a + 8 ==> !Stores(v.In(e), i, c, b)) :: v.slots[a])
  }

  /** The view behind `i`. */
  ghost function After(e: Env, v: View, i: Insn, c: Core): View {
    match i
    case MovReg(is64, rd, rm) => if is64 then Put(v, rd, LinkIn(v, rm)) else Forget(e, v, i, c)
    case LdrImm(is64, rt, rn, imm) =>
      if is64 then Put(v, rt, LinkAt(v, Wrap(XorSP(c, rn) + imm))) else Forget(e, v, i, c)
    case StrImm(is64, rt, rn, imm) =>
      if is64 then Save(e, v, Wrap(XorSP(c, rn) + imm), LinkIn(v, rt)) else Forget(e, v, i, c)
    case Pair(width, mode, load, a, b, base, imm) =>
      var at := PairAddress(mode, base, imm, c);
      if width != PairX then Forget(e, v, i, c)
      else if load then
        var loaded := Put(Put(v, a, LinkAt(v, at)), b, LinkAt(v, at + 8));
        if mode == Offset then loaded else Put(loaded, base, None)
      else Save(e, Save(e, v, at, LinkIn(v, a)), at + 8, LinkIn(v, b))
    case _ => Forget(e, v, i, c)
  }

  /** The link that `i` branches to. */
  function Exit(v: View, i: Insn): Option<Link> {
    match i
    case BR(rn) => LinkIn(v, rn)
    case RET(rn) => LinkIn(v, rn)
    case _ => None
  }

  /** Both machines have the same value in register `n`, or a link. */
  predicate Known(v: View, n: RegNo) { n == 31 || n !in v.scratch || n in v.regs }

  /** Both machines have the same eight bytes at `a`, or a link. */
  ghost predicate KnownAt(v: View, a: int) { a in v.slots || (forall b :: a <= b < a + 8 ==> b !in v.hidden) }

  /**
   * `i` reads no unknown register or byte, and takes a link only to move it or to go there: MOV, LDR, STR,
   * LDP and STP of X registers, BR and RET.
   */
  ghost predicate MovesLinks(e: Env, v: View, i: Insn, pc: u64, c: Core) {
    match i
    case MovReg(is64, _, rm) => if is64 then Known(v, rm) else Plain(v.In(e), i, pc, c)
    case LdrImm(is64, _, rn, imm) =>
      if is64 then Steady(v.In(e), rn) && KnownAt(v, Wrap(XorSP(c, rn) + imm)) else Plain(v.In(e), i, pc, c)
    case StrImm(is64, rt, rn, _) =>
      if is64 then Steady(v.In(e), rn) && Known(v, rt) else Plain(v.In(e), i, pc, c)
    case Pair(width, mode, load, a, b, base, imm) =>
      if width != PairX then Plain(v.In(e), i, pc, c)
      else
        var at := PairAddress(mode, base, imm, c);
        && Steady(v.In(e), base)
        && (if load then KnownAt(v, at) && KnownAt(v, at + 8) else Known(v, a) && Known(v, b))
    case BR(rn) => Known(v, rn)
    case RET(rn) => Known(v, rn)
    case _ => Plain(v.In(e), i, pc, c)
  }

  /** Where the machines go behind `i`: each to its own value of a link, or to the same place. */
  ghost predicate GoAlike(v: View, i: Insn, next: u64, next': u64) {
    match Exit(v, i)
    case Some(l) => next == l.plain && next' == l.hooked
    case None => next == next'
  }

  /** The hooked machine's code: the patched window and the hook's own. */
  ghost predicate CodeKept(e: Env, m: Mem, n: Mem) {
    SameOn(m, n, e.target, e.target + 16) && SameOn(m, n, e.page, e.hi)
  }

  /** `i`, run on both machines where it lies, keeps them alike and the code intact. */
  ghost predicate Keeps(e: Env, v: View, i: Insn, pc: u64, c: Core) {
    && SameOn(c.mem, Effect(e.other, i, pc, c).mem, e.target, e.target + 16)
    && forall d :: Alike(e, v, c, d) ==>
        && Alike(e, After(e, v, i, c), Effect(e.other, i, pc, c), Effect(e.other, i, pc, d))
        && GoAlike(v, i, Next(i, pc, c), Next(i, pc, d))
        && CodeKept(e, d.mem, Effect(e.other, i, pc, d).mem)
  }

  /** `i` writes nothing in `[lo, hi)`. */
  ghost predicate Clear(e: Env, i: Insn, c: Core, lo: int, hi: int) {
    forall a :: lo <= a < hi ==> !Stores(e.(scratch := {}), i, c, a)
  }

  // ---------- registers ----------

  lemma PutAlike(e: Env, v: View, n: RegNo, l: Option<Link>, x: u64, y: u64, c: Core, d: Core)
    requires Alike(e, v, c, d) && (if l.Some? then x == l.value.plain && y == l.value.hooked else x == y)
    ensures Alike(e, Put(v, n, l), SetX(c, n, x), SetX(d, n, y))
  {
    hide Read64, Get;
    assert SameSeen(Put(v, n, l).In(e), c.mem, d.mem);
  }

  /** The base register of a pair moves alike; at 31 it is the stack pointer. */
  lemma BaseAlike(e: Env, v: View, n: RegNo, x: u64, c: Core, d: Core)
    requires Alike(e, v, c, d)
    ensures Alike(e, Put(v, n, None), SetXorSP(c, n, x), SetXorSP(d, n, x))
  {
    hide Read64, Get;
    assert SameSeen(Put(v, n, None).In(e), c.mem, d.mem);
  }

  lemma PutOf(e: Env, v: View, n: RegNo, l: Option<Link>)
    requires v.Of(e)
    ensures Put(v, n, l).Of(e)
  {}

  /** What register `n` holds on either machine. */
  lemma KnownValue(e: Env, v: View, n: RegNo, c: Core, d: Core)
    requires Alike(e, v, c, d) && v.Of(e) && Known(v, n)
    ensures match LinkIn(v, n)
      case Some(l) => n < 31 && X(c, n) == l.plain && X(d, n) == l.hooked
      case None => X(c, n) == X(d, n)
  {
    hide Read64, Get;
  }

  lemma KnownWord(e: Env, v: View, a: int, c: Core, d: Core)
    requires Alike(e, v, c, d) && KnownAt(v, a)
    ensures match LinkAt(v, a)
      case Some(l) => Read64(c.mem, a) == l.plain && Read64(d.mem, a) == l.hooked
      case None => Read64(c.mem, a) == Read64(d.mem, a)
  {
    hide Read64;
    if a !in v.slots {
      Read64Same(c.mem, d.mem, a);
    }
  }

  // ---------- memory ----------

  lemma SaveOf(e: Env, v: View, a: int, l: Option<Link>)
    requires v.Of(e)
    ensures Save(e, v, a, l).Of(e)
  {}

  lemma SlotKept(m: Mem, m': Mem, lo: int, hi: int, a: int)
    requires SameOff(m, m', lo, hi) && (a + 8 <= lo || hi <= a)
    ensures Read64(m', a) == Read64(m, a)
  {
    hide Read64;
    Read64Same(m, m', a);
  }

  lemma SaveAlike(e: Env, v: View, a: int, l: Option<Link>, x: u64, y: u64, c: Core, d: Core)
    requires Alike(e, v, c, d) && (if l.Some? then x == l.value.plain && y == l.value.hooked else x == y)
    ensures var c', d' := c.(mem := Write64(c.mem, a, x)), d.(mem := Write64(d.mem, a, y));
      Alike(e, Save(e, v, a, l), c', d') && SameOff(c.mem, c'.mem, a, a + 8) && SameOff(d.mem, d'.mem, a, a + 8)
  {
    hide Read64, Write64, Get;
    var m, n := Write64(c.mem, a, x), Write64(d.mem, a, y);
    Write64Get(c.mem, a, x);
    Write64Get(d.mem, a, y);
    SaveSeen(e, v, a, l, x, y, c.mem, d.mem);
    forall b | b in Save(e, v, a, l).slots
      ensures Read64(m, b) == Save(e, v, a, l).slots[b].plain && Read64(n, b) == Save(e, v, a, l).slots[b].hooked
    {
      if b + 8 <= a || a + 8 <= b {
        SlotKept(c.mem, m, a, a + 8, b);
        SlotKept(d.mem, n, a, a + 8, b);
      }
    }
  }

  lemma SaveSeen(e: Env, v: View, a: int, l: Option<Link>, x: u64, y: u64, m: Mem, n: Mem)
    requires SameSeen(v.In(e), m, n) && (l.None? ==> x == y)
    ensures SameSeen(Save(e, v, a, l).In(e), Write64(m, a, x), Write64(n, a, y))
  {
    hide Read64, Write64, Get;
    if l.None? {
      Write64Alike(v.In(e), m, n, a, x);
    } else {
      Write64Get(m, a, x);
      Write64Get(n, a, y);
    }
  }

  // ---------- instructions that move no link ----------

  lemma RegisterKept(other: Uninterpreted, i: Insn, pc: u64, c: Core, n: int)
    requires !i.Other? && 0 <= n < 31 && n !in Written(i) && (i.Pair? ==> n != i.base)
    ensures Effect(other, i, pc, c).x[n] == c.x[n]
  {
    hide Read32, Read64, Read128, Write32, Write64, Write128, Wrap, Wrap32, Pow2, PageOf, UbfmValue, SignExtend;
    hide LiteralValue;
  }

  lemma ForgetSeen(e: Env, v: View, i: Insn, c: Core, a: Core, b: Core)
    requires e.Valid() && v.Of(e) && Agree(LearnAll(v.In(e), i, c), a, b)
    ensures Agree(Forget(e, v, i, c).In(e), a, b)
  {
    hide Get, Stores, Written;
  }

  lemma ForgetOf(e: Env, v: View, i: Insn, c: Core)
    requires v.Of(e)
    ensures Forget(e, v, i, c).Of(e)
  {
    hide Stores, Written;
  }

  lemma ForgetRegs(e: Env, v: View, i: Insn, pc: u64, c: Core, d: Core)
    requires v.Of(e) && Alike(e, v, c, d) && Plain(v.In(e), i, pc, c)
    ensures RegsHold(v.regs - Written(i), Effect(e.other, i, pc, c), Effect(e.other, i, pc, d))
  {
    hide Effect, Plain, Written, Agree, SlotsHold;
    forall n | n in v.regs - Written(i)
      ensures 0 <= n < 31 && Effect(e.other, i, pc, c).x[n] == c.x[n] && Effect(e.other, i, pc, d).x[n] == d.x[n]
    {
      PlainReads(v.In(e), i, pc, c);
      RegisterKept(e.other, i, pc, c, n);
      RegisterKept(e.other, i, pc, d, n);
    }
  }

  lemma PlainReads(e: Env, i: Insn, pc: u64, c: Core)
    requires Plain(e, i, pc, c)
    ensures !i.Other? && (i.Pair? ==> Steady(e, i.base))
  {}

  lemma ForgetSlots(e: Env, v: View, i: Insn, c: Core, m: Mem, m': Mem)
    requires StoresOnly(v.In(e), i, c, m, m')
    ensures forall a :: a in Forget(e, v, i, c).slots ==> Read64(m', a) == Read64(m, a)
  {
    hide Stores, Read64, Get, Written;
    forall a | a in Forget(e, v, i, c).slots
      ensures Read64(m', a) == Read64(m, a)
    {
      Read64Same(m, m', a);
    }
  }

  /** A plain instruction that moves no link keeps the machines alike. */
  lemma ForgetAlike(e: Env, v: View, i: Insn, pc: u64, c: Core, d: Core)
    requires e.Valid() && v.Of(e) && Alike(e, v, c, d) && Plain(v.In(e), i, pc, c)
    ensures Alike(e, Forget(e, v, i, c), Effect(e.other, i, pc, c), Effect(e.other, i, pc, d))
    ensures Next(i, pc, c) == Next(i, pc, d)
  {
    hide Effect, Next, Plain, Written, Stores, Agree, Read64, StoresOnly;
    PlainRunsAlike(v.In(e), i, pc, c, d);
    ForgetSeen(e, v, i, c, Effect(e.other, i, pc, c), Effect(e.other, i, pc, d));
    ForgetRegs(e, v, i, pc, c, d);
    ForgetSlots(e, v, i, c, c.mem, Effect(e.other, i, pc, c).mem);
    ForgetSlots(e, v, i, c, d.mem, Effect(e.other, i, pc, d).mem);
  }

  // ---------- instructions that move links ----------

  /** MOV, LDR and STR of an X register. */
  lemma MoveAlike(e: Env, v: View, i: Insn, pc: u64, c: Core, d: Core)
    requires v.Of(e) && Alike(e, v, c, d) && MovesLinks(e, v, i, pc, c)
    requires (i.MovReg? || i.LdrImm? || i.StrImm?) && i.is64
    ensures Alike(e, After(e, v, i, c), Effect(e.other, i, pc, c), Effect(e.other, i, pc, d))
  {
    hide Read64, Write64, Get, Alike, Wrap;
    match i
    case MovReg(_, rd, rm) =>
      KnownValue(e, v, rm, c, d);
      PutAlike(e, v, rd, LinkIn(v, rm), X(c, rm), X(d, rm), c, d);
    case LdrImm(_, rt, rn, imm) =>
      SteadyAddress(e, v, rn, c, d);
      var a: int := Wrap(XorSP(c, rn) + imm);
      KnownWord(e, v, a, c, d);
      PutAlike(e, v, rt, LinkAt(v, a), Read64(c.mem, a), Read64(d.mem, a), c, d);
    case StrImm(_, rt, rn, imm) =>
      SteadyAddress(e, v, rn, c, d);
      KnownValue(e, v, rt, c, d);
      SaveAlike(e, v, Wrap(XorSP(c, rn) + imm), LinkIn(v, rt), X(c, rt), X(d, rt), c, d);
  }

  lemma SteadyAddress(e: Env, v: View, n: RegNo, c: Core, d: Core)
    requires Alike(e, v, c, d) && Steady(v.In(e), n)
    ensures XorSP(c, n) == XorSP(d, n)
  {
    hide Read64, Get;
  }

  /** LDP of X registers. */
  lemma LoadPairAlike(e: Env, v: View, i: Insn, pc: u64, c: Core, d: Core)
    requires v.Of(e) && Alike(e, v, c, d) && MovesLinks(e, v, i, pc, c)
    requires i.Pair? && i.width == PairX && i.load
    ensures Alike(e, After(e, v, i, c), Effect(e.other, i, pc, c), Effect(e.other, i, pc, d))
  {
    hide Read64, Get, Alike, Wrap, SetX, SetXorSP, XorSP;
    SteadyAddress(e, v, i.base, c, d);
    var at: int := PairAddress(i.mode, i.base, i.imm, c);
    KnownWord(e, v, at, c, d);
    KnownWord(e, v, at + 8, c, d);
    var x, y := Read64(c.mem, at), Read64(d.mem, at);
    PutAlike(e, v, i.a, LinkAt(v, at), x, y, c, d);
    var v1, c1, d1 := Put(v, i.a, LinkAt(v, at)), SetX(c, i.a, x), SetX(d, i.a, y);
    var x1, y1 := Read64(c.mem, at + 8), Read64(d.mem, at + 8);
    PutAlike(e, v1, i.b, LinkAt(v, at + 8), x1, y1, c1, d1);
    BaseAlike(e, Put(v1, i.b, LinkAt(v, at + 8)), i.base, Wrap(XorSP(c, i.base) + i.imm),
              SetX(c1, i.b, x1), SetX(d1, i.b, y1));
  }

  /** STP of X registers. */
  lemma StorePairAlike(e: Env, v: View, i: Insn, pc: u64, c: Core, d: Core)
    requires v.Of(e) && Alike(e, v, c, d) && MovesLinks(e, v, i, pc, c)
    requires i.Pair? && i.width == PairX && !i.load
    ensures Alike(e, After(e, v, i, c), Effect(e.other, i, pc, c), Effect(e.other, i, pc, d))
  {
    hide Read64, Write64, Get, Alike, Wrap, Save, SetXorSP, XorSP;
    SteadyAddress(e, v, i.base, c, d);
    KnownValue(e, v, i.a, c, d);
    KnownValue(e, v, i.b, c, d);
    var at: int := PairAddress(i.mode, i.base, i.imm, c);
    SaveAlike(e, v, at, LinkIn(v, i.a), X(c, i.a), X(d, i.a), c, d);
    var v1 := Save(e, v, at, LinkIn(v, i.a));
    var c1, d1 := c.(mem := Write64(c.mem, at, X(c, i.a))), d.(mem := Write64(d.mem, at, X(d, i.a)));
    SaveAlike(e, v1, at + 8, LinkIn(v, i.b), X(c, i.b), X(d, i.b), c1, d1);
    var c2, d2 := PairStore(c, PairX, at, i.a, i.b), PairStore(d, PairX, at, i.a, i.b);
    var v2 := Save(e, v1, at + 8, LinkIn(v, i.b));
    StoredBaseAlike(e, v, v2, i.base, Wrap(XorSP(c, i.base) + i.imm), c2, d2);
  }

  lemma StoredBaseAlike(e: Env, v: View, v2: View, n: RegNo, x: u64, c: Core, d: Core)
    requires Alike(e, v2, c, d) && v.Of(e) && Steady(v.In(e), n) && v2.scratch == v.scratch && v2.regs == v.regs
    ensures Alike(e, v2, SetXorSP(c, n, x), SetXorSP(d, n, x))
  {
    hide Read64, Get;
    BaseAlike(e, v2, n, x, c, d);
    if n < 31 {
      assert v2.scratch - {n} == v2.scratch;
      assert v2.regs - {n} == v2.regs;
    }
  }

  /** From machines that are alike, an instruction that at most moves links leaves machines that are alike. */
  lemma LinksMoveAlike(e: Env, v: View, i: Insn, pc: u64, c: Core, d: Core)
    requires e.Valid() && v.Of(e) && Alike(e, v, c, d) && MovesLinks(e, v, i, pc, c)
    ensures Alike(e, After(e, v, i, c), Effect(e.other, i, pc, c), Effect(e.other, i, pc, d))
    ensures GoAlike(v, i, Next(i, pc, c), Next(i, pc, d))
  {
    hide Alike, Forget, Save, Read64, Plain;
    if (i.MovReg? || i.LdrImm? || i.StrImm?) && i.is64 {
      MoveAlike(e, v, i, pc, c, d);
    } else if i.Pair? && i.width == PairX {
      if i.load {
        LoadPairAlike(e, v, i, pc, c, d);
      } else {
        StorePairAlike(e, v, i, pc, c, d);
      }
    } else if Exit(v, i).Some? {
      ExitAlike(e, v, i, pc, c, d);
    } else {
      NoExit(e, v, i, pc, c);
      ForgetAlike(e, v, i, pc, c, d);
    }
  }

  lemma NoExit(e: Env, v: View, i: Insn, pc: u64, c: Core)
    requires MovesLinks(e, v, i, pc, c) && Exit(v, i).None?
    requires !((i.MovReg? || i.LdrImm? || i.StrImm?) && i.is64) && !(i.Pair? && i.width == PairX)
    ensures Plain(v.In(e), i, pc, c)
  {
    hide Seen;
  }

  lemma ExitAlike(e: Env, v: View, i: Insn, pc: u64, c: Core, d: Core)
    requires v.Of(e) && Alike(e, v, c, d) && Exit(v, i).Some?
    ensures Alike(e, After(e, v, i, c), Effect(e.other, i, pc, c), Effect(e.other, i, pc, d))
    ensures GoAlike(v, i, Next(i, pc, c), Next(i, pc, d))
  {
    hide Read64, Get;
    var w := Forget(e, v, i, c);
    assert w.scratch == v.scratch && w.regs == v.regs && w.slots == v.slots;
    assert w.hidden == v.hidden;
  }

  lemma AfterOf(e: Env, v: View, i: Insn, c: Core)
    requires v.Of(e)
    ensures After(e, v, i, c).Of(e)
  {
    hide View.Of, Forget, Put, Save;
    ForgetOf(e, v, i, c);
    match i
    case MovReg(_, rd, rm) => PutOf(e, v, rd, LinkIn(v, rm));
    case LdrImm(_, rt, rn, imm) => PutOf(e, v, rt, LinkAt(v, Wrap(XorSP(c, rn) + imm)));
    case StrImm(_, rt, rn, imm) => SaveOf(e, v, Wrap(XorSP(c, rn) + imm), LinkIn(v, rt));
    case Pair(_, mode, _, a, b, base, imm) =>
      var at: int := PairAddress(mode, base, imm, c);
      PutOf(e, v, a, LinkAt(v, at));
      PutOf(e, Put(v, a, LinkAt(v, at)), b, LinkAt(v, at + 8));
      PutOf(e, Put(Put(v, a, LinkAt(v, at)), b, LinkAt(v, at + 8)), base, None);
      SaveOf(e, v, at, LinkIn(v, a));
      SaveOf(e, Save(e, v, at, LinkIn(v, a)), at + 8, LinkIn(v, b));
    case _ =>
  }

  // ---------- the code stays intact ----------

  /** Whatever the registers hold, an instruction writes nothing else than where it stores. */
  lemma WritesOnly(e: Env, i: Insn, pc: u64, c: Core)
    requires !i.Other?
    ensures StoresOnly(e.(scratch := {}), i, c, c.mem, Effect(e.other, i, pc, c).mem)
  {
    hide Effect, Written, Next, Agree, Get, Plain;
    var bare := e.(scratch := {}, hidden := iset{});
    PlainAlone(bare, i, pc, c);
    AgreeSelf(bare, c);
    PlainRunsAlike(bare, i, pc, c, c);
    assert forall a :: Stores(bare, i, c, a) == Stores(e.(scratch := {}), i, c, a);
  }

  lemma PlainAlone(e: Env, i: Insn, pc: u64, c: Core)
    requires e.scratch == {} && e.hidden == iset{} && !i.Other?
    ensures Plain(e, i, pc, c)
  {
    hide Wrap;
  }

  lemma StoresTogether(e: Env, v: View, i: Insn, pc: u64, c: Core, d: Core, a: int)
    requires Alike(e, v, c, d) && MovesLinks(e, v, i, pc, c)
    ensures Stores(e.(scratch := {}), i, c, a) == Stores(e.(scratch := {}), i, d, a)
  {
    hide Read64, Get, Wrap, SlotsHold, RegsHold, SameSeen, Seen;
  }

  lemma ClearKeeps(e: Env, i: Insn, pc: u64, c: Core, lo: int, hi: int)
    requires !i.Other? && Clear(e, i, c, lo, hi)
    ensures SameOn(c.mem, Effect(e.other, i, pc, c).mem, lo, hi)
  {
    hide Effect, Stores, Get;
    WritesOnly(e, i, pc, c);
  }

  lemma NotOther(e: Env, v: View, i: Insn, pc: u64, c: Core)
    requires MovesLinks(e, v, i, pc, c)
    ensures !i.Other?
  {}

  /**
   * Every interpreted instruction that reads nothing unknown, takes links only to move or follow them, and
   * writes clear of the code, keeps the machines alike.
   */
  lemma LinksAreKept(e: Env, v: View, i: Insn, pc: u64, c: Core)
    requires e.Valid() && v.Of(e) && MovesLinks(e, v, i, pc, c)
    requires Clear(e, i, c, e.target, e.target + 16) && Clear(e, i, c, e.page, e.hi)
    ensures Keeps(e, v, i, pc, c)
  {
    hide Alike, Effect, Next, After, MovesLinks, Stores, GoAlike, View.Of, Get;
    NotOther(e, v, i, pc, c);
    ClearKeeps(e, i, pc, c, e.target, e.target + 16);
    forall d | Alike(e, v, c, d)
      ensures Alike(e, After(e, v, i, c), Effect(e.other, i, pc, c), Effect(e.other, i, pc, d))
      ensures GoAlike(v, i, Next(i, pc, c), Next(i, pc, d))
      ensures CodeKept(e, d.mem, Effect(e.other, i, pc, d).mem)
    {
      LinksMoveAlike(e, v, i, pc, c, d);
      forall a
        ensures Stores(e.(scratch := {}), i, c, a) == Stores(e.(scratch := {}), i, d, a)
      {
        StoresTogether(e, v, i, pc, c, d, a);
      }
      ClearKeeps(e, i, pc, d, e.target, e.target + 16);
      ClearKeeps(e, i, pc, d, e.page, e.hi);
    }
  }
}
