/**
 * The unhooked machine and the hooked one, run together: a displaced instruction on the one is its
 * relocated form in the block on the other, and everything else is run where it lies. They may differ in
 * links: the return address of the hooked call itself, and those that calls in the block leave.
 */
module Twins {
  import opened Words
  import opened Options
  import opened Memory
  import opened A64
  import opened Decoder
  import opened Encode
  import opened Relocator
  import opened Relocation
  import opened Links

  function InsnIn(p: State): Insn { Decode(Read32(p.c.mem, p.pc)) }

  /** The slot of the displaced instruction at `a`. */
  function SlotOf(e: Env, a: u64): (k: nat)
    requires e.InWindow(a)
    ensures k < 4
  {
    (a - e.target) / 4
  }

  predicate OnWord(e: Env, a: u64) { e.InWindow(a) ==> (a - e.target) % 4 == 0 }

  /** Where the hooked machine is when the unhooked one is at `a`. */
  function Twin(e: Env, insns: seq<DecodedInsn>, a: u64): int
    requires |insns| == 4 && 0 <= e.lo < P64
  {
    if e.InWindow(a) then SlotPc(insns, e.lo, SlotOf(e, a)) else a
  }

  /** Branches to a register are copied as they are, like instructions without PC dependency. */
  predicate Verbatim(insn: DecodedInsn) {
    insn.kind.PcIndependent? || Decode(insn.raw).RET? || Decode(insn.raw).BR?
  }

  /** The emitted words may use X17. */
  function With17(v: View): View { v.(scratch := v.scratch + {17}) }

  function Result(insn: DecodedInsn): set<int> {
    match insn.kind
    case PcRelAddr(rd, _, _) => {rd}
    case PcRelLoad(rt, _, _, _) => {rt}
    case _ => {}
  }

  /** The view behind slot `k`, not copied verbatim; a call leaves a link of its own. */
  function Rewritten(e: Env, v: View, insns: seq<DecodedInsn>, k: nat): View
    requires |insns| == 4 && 0 <= e.lo < P64 && k < 4
  {
    var insn := insns[k];
    var w := v.(scratch := v.scratch + {17} - Result(insn), regs := v.regs - Clobbered(insn));
    if IsCall(insn) then Put(w, 30, Some(Link(Wrap(insn.addr + 4), Wrap(SlotPc(insns, e.lo, k + 1))))) else w
  }

  /** The view behind the next instruction, before a jump back. */
  ghost function StepView(e: Env, v: View, insns: seq<DecodedInsn>, p: State): View
    requires |insns| == 4 && 0 <= e.lo < P64
  {
    if e.InWindow(p.pc) && !Verbatim(InsnAt(p)) then Rewritten(e, v, insns, SlotOf(e, p.pc))
    else After(e, v, InsnIn(p), p.c)
  }

  /** Where the hooked machine is then: at its own value of a link, behind the slot, or at the same place. */
  ghost function StepGoal(e: Env, v: View, insns: seq<DecodedInsn>, p: State): int
    requires |insns| == 4 && 0 <= e.lo < P64
  {
    match Exit(v, InsnIn(p))
    case Some(l) => l.hooked
    case None =>
      if e.InWindow(p.pc) && Falls(InsnAt(p), p.c) then SlotPc(insns, e.lo, SlotOf(e, p.pc) + 1)
      else Step(e.other, p).pc
  }

  /** It has come to the jump behind the last slot, from the slot or from a call that the slot made. */
  ghost predicate JumpsBack(e: Env, v: View, insns: seq<DecodedInsn>, p: State)
    requires |insns| == 4 && 0 <= e.lo < P64
  {
    StepGoal(e, v, insns, p) == SlotPc(insns, e.lo, 4)
  }

  /** That jump uses X17. */
  function JumpedBack(v: View): View { v.(scratch := v.scratch + {17}, regs := v.regs - {17}) }

  /** The view behind the unhooked machine's next instruction. */
  ghost function TwinView(e: Env, v: View, insns: seq<DecodedInsn>, p: State): View
    requires |insns| == 4 && 0 <= e.lo < P64
  {
    if JumpsBack(e, v, insns, p) then JumpedBack(StepView(e, v, insns, p)) else StepView(e, v, insns, p)
  }

  function OwnSteps(e: Env, insns: seq<DecodedInsn>, p: State): nat
    requires |insns| == 4 && 0 <= e.lo < P64
  {
    if e.InWindow(p.pc) then
      RelocatedSteps(insns[SlotOf(e, p.pc)], Wrap(SlotPc(insns, e.lo, SlotOf(e, p.pc))), p.c)
    else 1
  }

  /** How many steps the hooked machine takes for it. */
  ghost function TwinSteps(e: Env, v: View, insns: seq<DecodedInsn>, p: State): nat
    requires |insns| == 4 && 0 <= e.lo < P64
  {
    OwnSteps(e, insns, p) + if JumpsBack(e, v, insns, p) then 2 else 0
  }

  /** Where the hooked machine is then. */
  ghost function TwinGoal(e: Env, v: View, insns: seq<DecodedInsn>, p: State): int
    requires |insns| == 4 && 0 <= e.lo < P64
  {
    if JumpsBack(e, v, insns, p) then e.target + 16 else StepGoal(e, v, insns, p)
  }

  /** The next instruction does not look at what differs: in the window as its slot asks, elsewhere as it lies. */
  ghost predicate TwinCarried(e: Env, v: View, insns: seq<DecodedInsn>, p: State)
    requires |insns| == 4 && 0 <= e.lo < P64
  {
    if !e.InWindow(p.pc) then Seen(v.In(e), p.pc, 4) && Keeps(e, v, InsnIn(p), p.pc, p.c)
    else if Verbatim(InsnAt(p)) then Keeps(e, v, InsnIn(p), p.pc, p.c)
    else Carried(With17(v).In(e), InsnAt(p), Wrap(SlotPc(insns, e.lo, SlotOf(e, p.pc))), p.c)
  }

  ghost predicate Together(e: Env, v: View, insns: seq<DecodedInsn>, p: State, t: State) {
    && v.Of(e) && BlockInstalled(e, insns, p.c.mem, t.c.mem)
    && Alike(e, v, p.c, t.c)
    && OnWord(e, p.pc) && t.pc == Twin(e, insns, p.pc)
  }

  /** `u` and `w` are the states behind one instruction, `v` the view there. */
  ghost predicate Stepped(e: Env, v: View, p: State, t: State, u: State, w: State, goal: int) {
    && v.Of(e) && Alike(e, v, u.c, w.c) && w.pc == goal
    && SameOn(p.c.mem, u.c.mem, e.target, e.target + 16)
    && CodeKept(e, t.c.mem, w.c.mem)
  }

  // ---------- one instruction ----------

  /** Behind the displaced window the same word is fetched. */
  lemma BodyStep(e: Env, v: View, insns: seq<DecodedInsn>, p: State, t: State)
    requires Together(e, v, insns, p, t) && TwinCarried(e, v, insns, p) && !e.InWindow(p.pc)
    ensures Stepped(e, StepView(e, v, insns, p), p, t, Step(e.other, p), Step(e.other, t), StepGoal(e, v, insns, p))
  {
    hide Decode, Read32, Effect, Next, After, BlockInstalled, View.Of, Agree, RegsHold, SlotsHold, Exit;
    SameWord(e, v, p, t);
    AfterOf(e, v, InsnIn(p), p.c);
  }

  lemma SameWord(e: Env, v: View, p: State, t: State)
    requires Alike(e, v, p.c, t.c) && Seen(v.In(e), p.pc, 4) && t.pc == p.pc
    ensures Read32(t.c.mem, t.pc) == Read32(p.c.mem, p.pc)
  {
    hide Read32, Read64;
    Read32Same(p.c.mem, t.c.mem, p.pc);
  }

  /** A slot as the relocation results take it. */
  lemma SlotMet(e: Env, v: View, insns: seq<DecodedInsn>, p: State, t: State)
    requires Together(e, v, insns, p, t) && e.InWindow(p.pc)
    ensures BlockAt(With17(v).In(e), insns, SlotOf(e, p.pc), p, t)
    ensures insns[SlotOf(e, p.pc)] == InsnAt(p)
  {
    hide Decode, Read32, Read64, BlockWords, SlotPc, Get;
    var e1 := With17(v).In(e);
    assert BlockInstalled(e1, insns, p.c.mem, t.c.mem);
    assert Agree(e1, p.c, t.c);
  }

  lemma CopiedWord(other: Uninterpreted, insn: DecodedInsn, p: State, t: State)
    requires insn == InsnAt(p) && Verbatim(insn) && Holds(t.c.mem, t.pc, RelocateOne(insn, t.pc))
    ensures |RelocateOne(insn, t.pc)| == 1 && RelocatedSteps(insn, t.pc, p.c) == 1
    ensures var i := Decode(insn.raw);
      && Step(other, p) == State(Effect(other, i, p.pc, p.c), Next(i, p.pc, p.c))
      && Run(other, t, 1).c == Effect(other, i, p.pc, t.c)
      && (if insn.kind.PcIndependent? then
            !i.BR? && !i.RET? && Next(i, p.pc, p.c) == Wrap(p.pc + 4) && Run(other, t, 1).pc == Wrap(t.pc + 4)
          else Run(other, t, 1).pc == Next(i, p.pc, t.c))
  {
    hide Decode, Read32, Step, Wrap;
    var i := Decode(insn.raw);
    assert Read32(t.c.mem, t.pc + 4 * 0) == [insn.raw][0];
    StepOn(other, p, insn.raw, i);
    StepOn(other, t, insn.raw, i);
    assert Run(other, t, 1) == Run(other, Step(other, t), 0);
    if insn.kind.PcIndependent? {
      assert Effect(other, i, t.pc, t.c) == Effect(other, i, p.pc, t.c);
    }
  }

  /** A word that is copied does the same in the block. */
  lemma VerbatimStep(e: Env, v: View, insns: seq<DecodedInsn>, p: State, t: State)
    requires Together(e, v, insns, p, t) && TwinCarried(e, v, insns, p)
    requires e.InWindow(p.pc) && Verbatim(InsnAt(p))
    ensures Stepped(e, StepView(e, v, insns, p), p, t, Step(e.other, p),
                    Run(e.other, t, RelocatedSteps(InsnAt(p), t.pc, p.c)), StepGoal(e, v, insns, p))
  {
    hide Decode, Read32, Effect, Next, After, BlockInstalled, View.Of, Agree, RegsHold, SlotsHold, SlotPc, Run, Step;
    hide RelocateAll, BlockWords, Carried, IsCall, RelocateOne, Wrap;
    SlotMet(e, v, insns, p, t);
    SlotReady(With17(v).In(e), insns, SlotOf(e, p.pc), p, t);
    CopiedWord(e.other, InsnAt(p), p, t);
    AfterOf(e, v, InsnIn(p), p.c);
  }

  /** A rewritten instruction: what the slot theorem says of it, with the links that it leaves alone. */
  lemma RewrittenAlike(e: Env, v: View, insns: seq<DecodedInsn>, k: nat, c: Core, d: Core, u: State, w: State)
    requires |insns| == 4 && 0 <= e.lo < P64 && k < 4 && 0 <= SlotPc(insns, e.lo, k + 1) < P64
    requires v.Of(e) && Alike(e, v, c, d)
    requires insns[k] == DecodeAt(insns[k].addr, insns[k].raw) && !insns[k].kind.PcIndependent?
    requires Matches(With17(v).In(e), insns[k], c, d, u, w, SlotPc(insns, e.lo, k + 1))
    ensures var r := Rewritten(e, v, insns, k);
      r.Of(e) && Alike(e, r, u.c, w.c)
    ensures u.c.mem == c.mem && w.c.mem == d.mem
  {
    hide Decode, Read64, SlotPc, Get, Falls, IsCall;
    KindStoresNothing(insns[k]);
    LearnNothing(With17(v).In(e), Decode(insns[k].raw), c);
    var r := Rewritten(e, v, insns, k);
    assert u.c.mem == c.mem && w.c.mem == d.mem;
    assert r.hidden == v.hidden && r.slots == v.slots;
    hide Learn;
    assert Agree(r.In(e), u.c, w.c);
    assert RegsHold(r.regs, u.c, w.c);
  }

  lemma RewrittenStep(e: Env, v: View, insns: seq<DecodedInsn>, p: State, t: State)
    requires Together(e, v, insns, p, t) && TwinCarried(e, v, insns, p)
    requires e.InWindow(p.pc) && !Verbatim(InsnAt(p))
    ensures Stepped(e, StepView(e, v, insns, p), p, t, Step(e.other, p),
                    Run(e.other, t, RelocatedSteps(InsnAt(p), t.pc, p.c)), StepGoal(e, v, insns, p))
  {
    hide Decode, Read32, BlockInstalled, View.Of, Alike, SlotPc, Run, Step, Rewritten;
    hide RelocateAll, BlockWords, Carried, IsCall, RelocateOne, Wrap, RelocatedSteps, Falls, Clobbers, SameResult;
    var e1, k := With17(v).In(e), SlotOf(e, p.pc);
    SlotMet(e, v, insns, p, t);
    SlotReady(e1, insns, k, p, t);
    Within(t.pc);
    EverySlot(e1, insns[k], p, t);
    NoLinkExit(v, InsnAt(p));
    RewrittenAlike(e, v, insns, k, p.c, t.c, Step(e.other, p), Run(e.other, t, RelocatedSteps(insns[k], t.pc, p.c)));
  }

  lemma Within(a: u64)
    ensures Wrap(a) == a
  {}

  lemma NoLinkExit(v: View, insn: DecodedInsn)
    requires !Verbatim(insn)
    ensures Exit(v, Decode(insn.raw)).None?
  {
    hide Decode;
  }

  /** Behind the last slot, the jump back to the displaced window's end. */
  lemma BackStep(e: Env, v: View, insns: seq<DecodedInsn>, u: State, w: State)
    requires v.Of(e) && Alike(e, v, u.c, w.c) && BlockInstalled(e, insns, u.c.mem, w.c.mem)
    requires w.pc == SlotPc(insns, e.lo, 4)
    ensures var x := Run(e.other, w, 2);
      JumpedBack(v).Of(e) && Alike(e, JumpedBack(v), u.c, x.c) && x.pc == e.target + 16 && x.c.mem == w.c.mem
  {
    hide Decode, Read32, Read64, BlockWords, SlotPc, Run, EncodeAbsBranch, Get;
    BackJumpHolds(e, insns, w.c.mem);
    AbsBranchRuns(e.other, w, e.target + 16);
  }

  /** One instruction of the unhooked machine, and what the hooked one does for it. */
  lemma TwinStep(e: Env, v: View, insns: seq<DecodedInsn>, p: State, t: State)
    requires |insns| == 4 && 0 <= e.lo < P64
    requires Together(e, v, insns, p, t) && TwinCarried(e, v, insns, p)
    ensures var u, w := Step(e.other, p), Run(e.other, t, TwinSteps(e, v, insns, p));
      && Stepped(e, TwinView(e, v, insns, p), p, t, u, w, TwinGoal(e, v, insns, p))
      && BlockInstalled(e, insns, u.c.mem, w.c.mem)
  {
    hide BlockInstalled, View.Of, Alike, SlotPc, Run, Step, StepView, StepGoal, RelocatedSteps, TwinCarried, Decode;
    hide JumpedBack, Wrap, Verbatim;
    if !e.InWindow(p.pc) {
      BodyStep(e, v, insns, p, t);
      OneRun(e.other, t);
    } else {
      SlotMet(e, v, insns, p, t);
      SlotReady(With17(v).In(e), insns, SlotOf(e, p.pc), p, t);
      if Verbatim(InsnAt(p)) {
        VerbatimStep(e, v, insns, p, t);
      } else {
        RewrittenStep(e, v, insns, p, t);
      }
      Within(t.pc);
    }
    var n := OwnSteps(e, insns, p);
    var u, w := Step(e.other, p), Run(e.other, t, n);
    StillInstalled(e, insns, p, t, u, w);
    if JumpsBack(e, v, insns, p) {
      BackStep(e, StepView(e, v, insns, p), insns, u, w);
      RunThen(e.other, t, n, 2);
    }
  }

  lemma OneRun(other: Uninterpreted, t: State)
    ensures Run(other, t, 1) == Step(other, t)
  {
    hide Step;
    assert Run(other, t, 1) == Run(other, Step(other, t), 0);
  }

  lemma StillInstalled(e: Env, insns: seq<DecodedInsn>, p: State, t: State, u: State, w: State)
    requires BlockInstalled(e, insns, p.c.mem, t.c.mem)
    requires SameOn(p.c.mem, u.c.mem, e.target, e.target + 16) && CodeKept(e, t.c.mem, w.c.mem)
    ensures BlockInstalled(e, insns, u.c.mem, w.c.mem)
  {
    hide Decode, Read32, BlockWords, Get;
    InstalledAfter(e, insns, p.c.mem, u.c.mem, t.c.mem, w.c.mem);
  }

  // ---------- many instructions ----------

  /** The machines are at corresponding places behind the next instruction. */
  ghost predicate Onward(e: Env, v: View, insns: seq<DecodedInsn>, p: State)
    requires |insns| == 4 && 0 <= e.lo < P64
  {
    var next := Step(e.other, p).pc;
    OnWord(e, next) && TwinGoal(e, v, insns, p) == Twin(e, insns, next)
  }

  /** The next `n` instructions do not look at what differs; only the last may follow a link elsewhere. */
  ghost predicate TwinRuns(e: Env, v: View, insns: seq<DecodedInsn>, n: nat, p: State)
    requires |insns| == 4 && 0 <= e.lo < P64
    decreases n
  {
    n == 0 || (TwinCarried(e, v, insns, p) && (n > 1 ==> Onward(e, v, insns, p))
               && TwinRuns(e, TwinView(e, v, insns, p), insns, n - 1, Step(e.other, p)))
  }

  ghost function RunView(e: Env, v: View, insns: seq<DecodedInsn>, n: nat, p: State): View
    requires |insns| == 4 && 0 <= e.lo < P64
    decreases n
  {
    if n == 0 then v else RunView(e, TwinView(e, v, insns, p), insns, n - 1, Step(e.other, p))
  }

  ghost function RunSteps(e: Env, v: View, insns: seq<DecodedInsn>, n: nat, p: State): nat
    requires |insns| == 4 && 0 <= e.lo < P64
    decreases n
  {
    if n == 0 then 0
    else TwinSteps(e, v, insns, p) + RunSteps(e, TwinView(e, v, insns, p), insns, n - 1, Step(e.other, p))
  }

  ghost function RunGoal(e: Env, v: View, insns: seq<DecodedInsn>, n: nat, p: State): int
    requires |insns| == 4 && 0 <= e.lo < P64
    decreases n
  {
    if n == 0 then Twin(e, insns, p.pc)
    else if n == 1 then TwinGoal(e, v, insns, p)
    else RunGoal(e, TwinView(e, v, insns, p), insns, n - 1, Step(e.other, p))
  }

  /** What holds of the machines in `u` and `w` behind a run from `t`. */
  ghost predicate Ran(e: Env, v: View, insns: seq<DecodedInsn>, t: State, u: State, w: State, goal: int) {
    && v.Of(e) && Alike(e, v, u.c, w.c) && w.pc == goal
    && BlockInstalled(e, insns, u.c.mem, w.c.mem) && CodeKept(e, t.c.mem, w.c.mem)
  }

  /**
   * As long as the unhooked machine looks at nothing that differs, the hooked one follows it: through the
   * displaced instructions, out of the block, into calls and back into the block, and through the body.
   */
  lemma {:induction false} TwinsRun(e: Env, v: View, insns: seq<DecodedInsn>, n: nat, p: State, t: State)
    requires |insns| == 4 && 0 <= e.lo < P64
    requires Together(e, v, insns, p, t) && TwinRuns(e, v, insns, n, p)
    ensures Ran(e, RunView(e, v, insns, n, p), insns, t, Run(e.other, p, n),
                Run(e.other, t, RunSteps(e, v, insns, n, p)), RunGoal(e, v, insns, n, p))
    decreases n
  {
    hide BlockInstalled, View.Of, Alike, Step, TwinView, TwinCarried, TwinSteps, TwinGoal, Twin, OnWord, Get;
    if n > 0 {
      var m := TwinSteps(e, v, insns, p);
      var u, w := Step(e.other, p), Run(e.other, t, m);
      TwinStep(e, v, insns, p, t);
      if n == 1 {
        NoRun(e.other, u);
        NoRun(e.other, w);
      } else {
        TwinsRun(e, TwinView(e, v, insns, p), insns, n - 1, u, w);
      }
      RunThen(e.other, t, m, RunSteps(e, TwinView(e, v, insns, p), insns, n - 1, u));
    }
  }

  lemma NoRun(other: Uninterpreted, s: State)
    ensures Run(other, s, 0) == s
  {}

  // ---------- what a run adds to what differs ----------

  /** From `c`, `i` stores a link over the byte at `a`. */
  predicate SavesLink(v: View, i: Insn, c: Core, a: int) {
    match i
    case StrImm(is64, rt, rn, imm) =>
      var at := Wrap(XorSP(c, rn) + imm);
      is64 && rt in v.regs && at <= a < at + 8
    case Pair(width, mode, load, r1, r2, base, imm) =>
      var at := PairAddress(mode, base, imm, c);
      !load && width == PairX && ((r1 in v.regs && at <= a < at + 8) || (r2 in v.regs && at + 8 <= a < at + 16))
    case _ => false
  }

  /** The bytes that held a link at some time of a run. */
  ghost function Trail(e: Env, v: View, insns: seq<DecodedInsn>, n: nat, p: State): iset<int>
    requires |insns| == 4 && 0 <= e.lo < P64
    decreases n
  {
    if n == 0 then iset{}
    else (iset a | SavesLink(v, InsnIn(p), p.c, a)) + Trail(e, TwinView(e, v, insns, p), insns, n - 1, Step(e.other, p))
  }

  /** But for those that a call may destroy, a register is scratch only as long as it holds a link. */
  ghost predicate Tidy(v: View) { forall n :: n in v.scratch ==> n in {16, 17, 30} || n in v.regs }

  lemma AfterAdds(e: Env, v: View, i: Insn, c: Core)
    ensures forall a :: a in After(e, v, i, c).hidden ==> a in v.hidden || SavesLink(v, i, c, a)
    ensures Tidy(v) ==> Tidy(After(e, v, i, c))
  {
    hide Wrap, XorSP;
  }

  lemma RewrittenAdds(e: Env, v: View, insns: seq<DecodedInsn>, k: nat)
    requires |insns| == 4 && 0 <= e.lo < P64 && k < 4
    ensures Rewritten(e, v, insns, k).hidden == v.hidden
    ensures Tidy(v) ==> Tidy(Rewritten(e, v, insns, k))
  {
    hide Wrap, SlotPc, IsCall;
  }

  lemma StepAdds(e: Env, v: View, insns: seq<DecodedInsn>, p: State)
    requires |insns| == 4 && 0 <= e.lo < P64
    ensures forall a :: a in TwinView(e, v, insns, p).hidden ==> a in v.hidden || SavesLink(v, InsnIn(p), p.c, a)
    ensures Tidy(v) ==> Tidy(TwinView(e, v, insns, p))
  {
    hide After, Rewritten, SavesLink, Decode, Read32, StepGoal, SlotPc;
    AfterAdds(e, v, InsnIn(p), p.c);
    if e.InWindow(p.pc) {
      RewrittenAdds(e, v, insns, SlotOf(e, p.pc));
    }
  }

  /** Behind a run only the bytes on its trail have become hidden, and only links are in registers beside. */
  lemma {:induction false} RunAdds(e: Env, v: View, insns: seq<DecodedInsn>, n: nat, p: State)
    requires |insns| == 4 && 0 <= e.lo < P64
    ensures forall a :: a in RunView(e, v, insns, n, p).hidden ==> a in v.hidden || a in Trail(e, v, insns, n, p)
    ensures Tidy(v) ==> Tidy(RunView(e, v, insns, n, p))
    decreases n
  {
    hide TwinView, SavesLink, Decode, Read32, Step, Tidy;
    if n > 0 {
      StepAdds(e, v, insns, p);
      RunAdds(e, TwinView(e, v, insns, p), insns, n - 1, Step(e.other, p));
    }
  }
}
