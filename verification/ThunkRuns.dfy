/**
 * What the thunks do when they run. The frame is the 272 bytes below the stack pointer:
 * 31 registers and the unused SP slot of the CpuContext, then the saved X29 and X30.
 */
module ThunkRuns {
  import opened Words
  import opened Memory
  import opened A64
  import opened Encode
  import opened Relocation
  import opened Thunks

  const FRAME: int := 272

  // ---------- the emitted words ----------

  lemma PairWordDecodes(p: nat, load: bool)
    requires p < 15
    ensures Decode(PairWord(p, load)) == Pair(PairX, Offset, load, 2 * p, 2 * p + 1, 31, 16 * p)
  {
    var top := if load then 0x2A5 else 0x2A4;
    FieldsRegs(PairWord(p, load), 2 * p, 31, 2 * p + 1 + 0x20 * (2 * p), top);
    PairForm(load);
    hide PairWord, FormOf;
  }

  lemma PairForm(load: bool)
    ensures FormOf(if load then 0x2A5 else 0x2A4) == FPair
  {}

  lemma PushWord()
    ensures Decode(STP_FP_LR_PUSH) == Pair(PairX, Pre, false, 29, 30, 31, -16)
  {}

  lemma PopWord()
    ensures Decode(LDP_FP_LR_POP) == Pair(PairX, Post, true, 29, 30, 31, 16)
  {}

  lemma FrameWords()
    ensures Decode(SUB_SP_FRAME) == SubImm(true, 31, 31, 0x100)
    ensures Decode(ADD_SP_FRAME) == AddImm(true, 31, 31, 0x100)
  {}

  lemma X30Words()
    ensures Decode(STR_X30) == StrImm(true, 30, 31, 240)
    ensures Decode(LDR_X30) == LdrImm(true, 30, 31, 240)
  {}

  lemma X16Words()
    ensures Decode(MOV_X16_X30) == MovReg(true, 16, 30)
    ensures Decode(STR_X16_LR_SLOT) == StrImm(true, 16, 31, 8)
  {
    hide Decode;
    MovX16Word();
    StrX16Word();
  }

  lemma MovX16Word()
    ensures Decode(MOV_X16_X30) == MovReg(true, 16, 30)
  {}

  lemma StrX16Word()
    ensures Decode(STR_X16_LR_SLOT) == StrImm(true, 16, 31, 8)
  {}

  lemma CallWords()
    ensures Decode(MOV_X0_SP) == AddImm(true, 0, 31, 0)
    ensures Decode(0xD63F_0200) == BLR(16)
  {}

  lemma LdrX16Word()
    ensures Decode(0x5800_0070) == LdrLit(LitX, 16, 12)
  {}

  lemma RetWord()
    ensures Decode(RET_X30) == RET(30)
  {}

  lemma HookIdWord(id: u32)
    ensures Decode(MovHookId(id)) == MOVZ(false, 1, id % 0x1_0000, 0)
  {
    var w := MovHookId(id);
    var h := id % 0x1_0000;
    assert w == 1 + 0x20 * (h + 0x1_0000 * 0x294);
    assert w / 0x20 == h + 0x1_0000 * 0x294;
    assert w / 0x40_0000 == 0x14A by {
      assert w == 0x40_0000 * 0x14A + (1 + 0x20 * h);
    }
    assert w / 0x20_0000 == 0x294;
    assert FormOf(0x14A) == FMovZ;
  }

  // ---------- spilling and restoring the pairs ----------

  lemma SpillStep(other: Uninterpreted, s: State, p: nat)
    requires p < 15 && Read32(s.c.mem, s.pc) == PairWord(p, false)
    requires s.pc + 4 < P64 && s.c.sp + 256 < P64
    ensures var a := s.c.sp + 16 * p;
      Step(other, s) == State(s.c.(mem := Write64(Write64(s.c.mem, a, s.c.x[2 * p]), a + 8, s.c.x[2 * p + 1])),
                              s.pc + 4)
  {
    hide Decode, Read32, Step, PairWord, Write64;
    PairWordDecodes(p, false);
    StepOn(other, s, PairWord(p, false), Pair(PairX, Offset, false, 2 * p, 2 * p + 1, 31, 16 * p));
  }

  lemma RestoreStep(other: Uninterpreted, s: State, p: nat)
    requires p < 15 && Read32(s.c.mem, s.pc) == PairWord(p, true)
    requires s.pc + 4 < P64 && s.c.sp + 256 < P64
    ensures var a := s.c.sp + 16 * p;
      Step(other, s) == State(s.c.(x := s.c.x[2 * p := Read64(s.c.mem, a)][2 * p + 1 := Read64(s.c.mem, a + 8)]),
                              s.pc + 4)
  {
    hide Decode, Read32, Step, PairWord, Read64;
    PairWordDecodes(p, true);
    StepOn(other, s, PairWord(p, true), Pair(PairX, Offset, true, 2 * p, 2 * p + 1, 31, 16 * p));
  }

  /** The slots `[from, to)` of the register area at `f` hold the values `x`. */
  ghost predicate Slots(m: Mem, f: int, from: int, to: int, x: Regs) {
    forall n :: 0 <= n < 31 && from <= n < to ==> Read64(m, f + 8 * n) == x[n]
  }

  /** The code at `[pc, pc + 4n)` and the frame `[f, f + 272)` lie apart in the address space. */
  predicate Apart(pc: int, n: nat, f: int) {
    && 0 <= pc && pc + 4 * n < P64 && 0 <= f && f + FRAME < P64
    && (pc + 4 * n <= f || f + FRAME <= pc)
  }

  /** From `s`, the pairs from `p` on are spilled and nothing else happens. */
  ghost predicate Spilled(s: State, t: State, p: nat)
    requires p <= 15 && s.pc + 4 * (15 - p) < P64
  {
    && t == State(s.c.(mem := t.c.mem), s.pc + 4 * (15 - p))
    && Slots(t.c.mem, s.c.sp, 2 * p, 30, s.c.x)
    && SameOff(s.c.mem, t.c.mem, s.c.sp + 16 * p, s.c.sp + 240)
  }

  lemma SpilledMore(s: State, u: State, t: State, p: nat)
    requires p < 15 && s.pc + 4 * (15 - p) < P64
    requires var a := s.c.sp + 16 * p;
      u == State(s.c.(mem := Write64(Write64(s.c.mem, a, s.c.x[2 * p]), a + 8, s.c.x[2 * p + 1])), s.pc + 4)
    requires Spilled(u, t, p + 1)
    ensures Spilled(s, t, p)
    ensures SameOff(s.c.mem, u.c.mem, s.c.sp + 16 * p, s.c.sp + 16 * p + 16)
  {
    hide Read64, Write64, Get;
    var a := s.c.sp + 16 * p;
    TwoWrites(s.c.mem, a, s.c.x[2 * p], s.c.x[2 * p + 1]);
    Read64Same(u.c.mem, t.c.mem, a);
    Read64Same(u.c.mem, t.c.mem, a + 8);
    forall n | 0 <= n < 31 && 2 * p <= n < 30
      ensures Read64(t.c.mem, s.c.sp + 8 * n) == s.c.x[n]
    {
      assert n == 2 * p || n == 2 * p + 1 || 2 * (p + 1) <= n;
    }
  }

  /** The first pair is spilled and the rest of the code stays in place. */
  lemma SpillFirst(other: Uninterpreted, s: State, p: nat)
    requires p < 15
    requires Holds(s.c.mem, s.pc, PairWords(p, false))
    requires Apart(s.pc, 15 - p, s.c.sp)
    ensures var a := s.c.sp + 16 * p;
      Step(other, s) == State(s.c.(mem := Write64(Write64(s.c.mem, a, s.c.x[2 * p]), a + 8, s.c.x[2 * p + 1])),
                              s.pc + 4)
    ensures Holds(Step(other, s).c.mem, s.pc + 4, PairWords(p + 1, false))
  {
    hide Step, Read32, Write64, PairWord, Get;
    var ws := PairWords(p, false);
    assert Read32(s.c.mem, s.pc + 4 * 0) == ws[0];
    SpillStep(other, s, p);
    TwoWrites(s.c.mem, s.c.sp + 16 * p, s.c.x[2 * p], s.c.x[2 * p + 1]);
    HoldsPart(s.c.mem, s.pc, ws, 1, |ws|);
    assert ws[1..|ws|] == PairWords(p + 1, false);
    HoldsSame(s.c.mem, Step(other, s).c.mem, s.pc + 4, PairWords(p + 1, false));
  }

  lemma {:induction false} SpillRuns(other: Uninterpreted, s: State, p: nat)
    requires p <= 15
    requires Holds(s.c.mem, s.pc, PairWords(p, false))
    requires Apart(s.pc, 15 - p, s.c.sp)
    ensures Spilled(s, Run(other, s, 15 - p), p)
    decreases 15 - p
  {
    if p < 15 {
      hide Step, Write64, PairWords, Holds, Spilled;
      SpillFirst(other, s, p);
      var u := Step(other, s);
      SpillRuns(other, u, p + 1);
      SpilledMore(s, u, Run(other, u, 15 - (p + 1)), p);
      assert Run(other, s, 15 - p) == Run(other, u, 15 - (p + 1));
    } else {
      NothingSpilled(s);
      hide *;
      assert Run(other, s, 0) == s by { NoSteps(other, s); }
    }
  }

  lemma NothingSpilled(s: State)
    ensures Spilled(s, s, 15)
  {}

  lemma NoSteps(other: Uninterpreted, s: State)
    ensures Run(other, s, 0) == s
  {}

  lemma TwoWrites(m: Mem, a: int, v: u64, w: u64)
    ensures var n := Write64(Write64(m, a, v), a + 8, w);
      Read64(n, a) == v && Read64(n, a + 8) == w && SameOff(m, n, a, a + 16)
  {
    hide Write64, Read64, Get;
    var m1 := Write64(m, a, v);
    var m2 := Write64(m1, a + 8, w);
    Write64Get(m, a, v);
    Write64Get(m1, a + 8, w);
    Read64Same(m1, m2, a);
  }

  /** The registers after the pairs from `p` on were loaded from the slots at `f`. */
  ghost predicate Loaded(m: Mem, f: int, from: int, to: int, before: Regs, after: Regs) {
    forall n :: 0 <= n < 31 ==> after[n] == if from <= n < to then Read64(m, f + 8 * n) else before[n]
  }

  ghost predicate Restored(s: State, t: State, p: nat)
    requires p <= 15 && s.pc + 4 * (15 - p) < P64
  {
    && t == State(s.c.(x := t.c.x), s.pc + 4 * (15 - p))
    && Loaded(s.c.mem, s.c.sp, 2 * p, 30, s.c.x, t.c.x)
  }

  lemma {:induction false} RestoreRuns(other: Uninterpreted, s: State, p: nat)
    requires p <= 15
    requires Holds(s.c.mem, s.pc, PairWords(p, true))
    requires s.pc + 4 * (15 - p) < P64 && s.c.sp + 256 < P64
    ensures Restored(s, Run(other, s, 15 - p), p)
    decreases 15 - p
  {
    hide Step, Read32, Read64, PairWord;
    if p < 15 {
      var ws := PairWords(p, true);
      assert Read32(s.c.mem, s.pc + 4 * 0) == ws[0];
      RestoreStep(other, s, p);
      var u := Step(other, s);
      HoldsPart(s.c.mem, s.pc, ws, 1, |ws|);
      assert ws[1..|ws|] == PairWords(p + 1, true);
      RestoreRuns(other, u, p + 1);
      RestoredMore(s, u, Run(other, u, 15 - (p + 1)), p);
    }
  }

  lemma RestoredMore(s: State, u: State, t: State, p: nat)
    requires p < 15 && s.pc + 4 * (15 - p) < P64
    requires var a := s.c.sp + 16 * p;
      u == State(s.c.(x := s.c.x[2 * p := Read64(s.c.mem, a)][2 * p + 1 := Read64(s.c.mem, a + 8)]), s.pc + 4)
    requires Restored(u, t, p + 1)
    ensures Restored(s, t, p)
  {
    hide Read64;
  }

  // ---------- up to the call of the dispatcher ----------

  lemma PushFrameRuns(other: Uninterpreted, s: State)
    requires Read32(s.c.mem, s.pc) == STP_FP_LR_PUSH && Read32(s.c.mem, s.pc + 4) == SUB_SP_FRAME
    requires FRAME <= s.c.sp && Apart(s.pc, 2, s.c.sp - FRAME)
    ensures var f := s.c.sp - FRAME;
      Run(other, s, 2)
      == State(s.c.(sp := f, mem := Write64(Write64(s.c.mem, f + 256, s.c.x[29]), f + 264, s.c.x[30])), s.pc + 8)
  {
    hide Decode, Read32, Step, Write64, Get;
    var f := s.c.sp - FRAME;
    PushWord();
    FrameWords();
    StepOn(other, s, STP_FP_LR_PUSH, Pair(PairX, Pre, false, 29, 30, 31, -16));
    var u := Step(other, s);
    assert u == State(s.c.(sp := f + 256, mem := Write64(Write64(s.c.mem, f + 256, s.c.x[29]), f + 264, s.c.x[30])),
                      s.pc + 4);
    TwoWrites(s.c.mem, f + 256, s.c.x[29], s.c.x[30]);
    Read32Same(s.c.mem, u.c.mem, s.pc + 4);
    StepOn(other, u, SUB_SP_FRAME, SubImm(true, 31, 31, 0x100));
    assert Run(other, s, 2) == Run(other, u, 1) == Step(other, u);
  }

  lemma StoreX30Runs(other: Uninterpreted, s: State, id: u32)
    requires Read32(s.c.mem, s.pc) == STR_X30 && Read32(s.c.mem, s.pc + 4) == MOV_X0_SP
             && Read32(s.c.mem, s.pc + 8) == MovHookId(id)
    requires Apart(s.pc, 3, s.c.sp)
    ensures Run(other, s, 3)
      == State(s.c.(x := s.c.x[0 := s.c.sp][1 := id % 0x1_0000], mem := Write64(s.c.mem, s.c.sp + 240, s.c.x[30])),
               s.pc + 12)
  {
    hide Decode, Read32, Step, Write64, Get, MovHookId;
    X30Words();
    CallWords();
    HookIdWord(id);
    StepOn(other, s, STR_X30, StrImm(true, 30, 31, 240));
    var u := Step(other, s);
    Write64Get(s.c.mem, s.c.sp + 240, s.c.x[30]);
    Read32Same(s.c.mem, u.c.mem, s.pc + 4);
    Read32Same(s.c.mem, u.c.mem, s.pc + 8);
    StepOn(other, u, MOV_X0_SP, AddImm(true, 0, 31, 0));
    var v := Step(other, u);
    StepOn(other, v, MovHookId(id), MOVZ(false, 1, id % 0x1_0000, 0));
    assert Pow2(0) == 1;
    assert Run(other, s, 3) == Run(other, u, 2) == Run(other, v, 1) == Step(other, v);
  }

  lemma BlrParts(m: Mem, pc: int, target: u64)
    requires Holds(m, pc, BlrAbs(target))
    ensures Read32(m, pc) == 0x5800_0070 && Read32(m, pc + 4) == 0xD63F_0200 && Read64(m, pc + 12) == target
  {
    hide Read32;
    var ws := BlrAbs(target);
    assert Read32(m, pc + 4 * 0) == ws[0];
    assert Read32(m, pc + 4 * 1) == ws[1];
    assert Read32(m, pc + 4 * 3) == ws[3];
    assert Read32(m, pc + 4 * 4) == ws[4];
  }

  lemma BlrAbsRuns(other: Uninterpreted, s: State, target: u64)
    requires Holds(s.c.mem, s.pc, BlrAbs(target)) && s.pc + 20 < P64
    ensures Run(other, s, 2) == State(s.c.(x := s.c.x[16 := target][30 := s.pc + 8]), target)
  {
    hide Decode, Read32, Read64, Step, BlrAbs, Holds;
    BlrParts(s.c.mem, s.pc, target);
    LdrX16Word();
    CallWords();
    StepOn(other, s, 0x5800_0070, LdrLit(LitX, 16, 12));
    var u := Step(other, s);
    StepOn(other, u, 0xD63F_0200, BLR(16));
    assert Run(other, s, 2) == Run(other, u, 1) == Step(other, u);
  }

  /** The frame at `f` as the dispatcher finds it: X0 to X30, then the saved X29 and X30. */
  ghost predicate FrameFilled(m: Mem, f: int, x: Regs) {
    Slots(m, f, 0, 31, x) && Read64(m, f + 256) == x[29] && Read64(m, f + 264) == x[30]
  }

  lemma FrameFilledBy(m0: Mem, m1: Mem, m2: Mem, m3: Mem, f: int, x: Regs)
    requires m1 == Write64(Write64(m0, f + 256, x[29]), f + 264, x[30])
    requires Slots(m2, f, 0, 30, x) && SameOff(m1, m2, f, f + 240)
    requires m3 == Write64(m2, f + 240, x[30])
    ensures FrameFilled(m3, f, x)
    ensures SameOff(m0, m1, f, f + FRAME) && SameOff(m1, m2, f, f + FRAME) && SameOff(m2, m3, f, f + FRAME)
  {
    hide Read64, Write64, Get;
    TwoWrites(m0, f + 256, x[29], x[30]);
    Write64Get(m2, f + 240, x[30]);
    Read64Same(m1, m3, f + 256);
    Read64Same(m1, m3, f + 264);
    forall n | 0 <= n < 31
      ensures Read64(m3, f + 8 * n) == x[n]
    {
      if n < 30 {
        Read64Same(m2, m3, f + 8 * n);
      }
    }
  }

  /** The state in which the dispatcher is entered from a thunk at `s.pc`. */
  ghost predicate Dispatched(s: State, t: State, id: u32, dispatch: u64)
    requires FRAME <= s.c.sp && s.pc + 100 < P64
  {
    var f := s.c.sp - FRAME;
    && t.pc == dispatch
    && t.c == s.c.(sp := f, mem := t.c.mem, x := s.c.x[0 := f][1 := id % 0x1_0000][16 := dispatch][30 := s.pc + 88])
    && FrameFilled(t.c.mem, f, s.c.x)
    && SameOff(s.c.mem, t.c.mem, f, f + FRAME)
  }

  lemma SpillAndCallParts(m: Mem, pc: int, id: u32, dispatch: u64)
    requires Holds(m, pc, SpillAndCall(id, dispatch))
    ensures Read32(m, pc) == STP_FP_LR_PUSH && Read32(m, pc + 4) == SUB_SP_FRAME
    ensures Holds(m, pc + 8, PairWords(0, false))
    ensures Read32(m, pc + 68) == STR_X30 && Read32(m, pc + 72) == MOV_X0_SP && Read32(m, pc + 76) == MovHookId(id)
    ensures Holds(m, pc + 80, BlrAbs(dispatch))
  {
    hide Read32, PairWords, MovHookId, BlrAbs;
    var ws := SpillAndCall(id, dispatch);
    assert Read32(m, pc + 4 * 0) == ws[0];
    assert Read32(m, pc + 4 * 1) == ws[1];
    assert Read32(m, pc + 4 * 17) == ws[17];
    assert Read32(m, pc + 4 * 18) == ws[18];
    assert Read32(m, pc + 4 * 19) == ws[19];
    HoldsPart(m, pc, ws, 2, 17);
    assert ws[2..17] == PairWords(0, false);
    HoldsPart(m, pc, ws, 20, 25);
    assert ws[20..25] == BlrAbs(dispatch);
  }

  /** Twenty-two steps spill every register and call the dispatcher with the frame and the hook id. */
  lemma SpillAndCallRuns(other: Uninterpreted, s: State, id: u32, dispatch: u64)
    requires FRAME <= s.c.sp && Apart(s.pc, 25, s.c.sp - FRAME)
    requires Holds(s.c.mem, s.pc, SpillAndCall(id, dispatch))
    ensures Dispatched(s, Run(other, s, 22), id, dispatch)
  {
    hide Read32, PairWords, MovHookId, BlrAbs, Run, Write64, Read64, Get, SpillAndCall;
    var f := s.c.sp - FRAME;
    SpillAndCallParts(s.c.mem, s.pc, id, dispatch);
    PushFrameRuns(other, s);
    var a := Run(other, s, 2);
    TwoWrites(s.c.mem, f + 256, s.c.x[29], s.c.x[30]);
    CodeStays(s.c.mem, a.c.mem, s.pc, id, dispatch, f);
    SpillRuns(other, a, 0);
    var b := Run(other, a, 15);
    CodeStays(s.c.mem, b.c.mem, s.pc, id, dispatch, f);
    StoreX30Runs(other, b, id);
    var c := Run(other, b, 3);
    FrameFilledBy(s.c.mem, a.c.mem, b.c.mem, c.c.mem, f, s.c.x);
    CodeStays(s.c.mem, c.c.mem, s.pc, id, dispatch, f);
    BlrAbsRuns(other, c, dispatch);
    RunThen(other, s, 2, 15);
    RunThen(other, s, 17, 3);
    RunThen(other, s, 20, 2);
  }

  lemma CodeStays(m: Mem, n: Mem, pc: int, id: u32, dispatch: u64, f: int)
    requires Apart(pc, 25, f) && Holds(m, pc, SpillAndCall(id, dispatch)) && SameOff(m, n, f, f + FRAME)
    ensures Read32(n, pc) == STP_FP_LR_PUSH && Read32(n, pc + 4) == SUB_SP_FRAME
    ensures Holds(n, pc + 8, PairWords(0, false))
    ensures Read32(n, pc + 68) == STR_X30 && Read32(n, pc + 72) == MOV_X0_SP && Read32(n, pc + 76) == MovHookId(id)
    ensures Holds(n, pc + 80, BlrAbs(dispatch))
  {
    hide Read32, SpillAndCall, Get;
    HoldsSame(m, n, pc, SpillAndCall(id, dispatch));
    SpillAndCallParts(n, pc, id, dispatch);
  }

  // ---------- from the dispatcher's return on ----------

  /** The return lands on B #12, which jumps over the dispatcher's address. */
  lemma SkipAddressRuns(other: Uninterpreted, s: State)
    requires Read32(s.c.mem, s.pc) == 0x1400_0003 && s.pc + 12 < P64
    ensures Run(other, s, 1) == State(s.c, s.pc + 12)
  {
    hide Decode, Read32, Step;
    BranchOverLiteralWord();
    StepOn(other, s, 0x1400_0003, B(12));
    assert Run(other, s, 1) == Run(other, Step(other, s), 0);
  }

  lemma LoadX30Runs(other: Uninterpreted, s: State)
    requires Read32(s.c.mem, s.pc) == LDR_X30 && Read32(s.c.mem, s.pc + 4) == MOV_X16_X30
    requires s.pc + 8 < P64 && s.c.sp + 256 < P64
    ensures var lr := Read64(s.c.mem, s.c.sp + 240);
      Run(other, s, 2) == State(s.c.(x := s.c.x[30 := lr][16 := lr]), s.pc + 8)
  {
    hide Decode, Read32, Read64, Step;
    X30Words();
    X16Words();
    StepOn(other, s, LDR_X30, LdrImm(true, 30, 31, 240));
    var u := Step(other, s);
    StepOn(other, u, MOV_X16_X30, MovReg(true, 16, 30));
    assert Run(other, s, 2) == Run(other, u, 1) == Step(other, u);
  }

  /** The link out of X16 into its slot, then X29 and X30 popped. */
  function FrameDropped(c: Core): Core
    requires c.sp + FRAME < P64
  {
    var m := Write64(c.mem, c.sp + 264, c.x[16]);
    c.(sp := c.sp + FRAME, mem := m, x := c.x[29 := Read64(m, c.sp + 256)][30 := Read64(m, c.sp + 264)])
  }

  lemma LinkSlotRuns(other: Uninterpreted, s: State)
    requires Read32(s.c.mem, s.pc) == ADD_SP_FRAME && Read32(s.c.mem, s.pc + 4) == STR_X16_LR_SLOT
    requires Apart(s.pc, 3, s.c.sp)
    ensures Run(other, s, 2)
         == State(s.c.(sp := s.c.sp + 256, mem := Write64(s.c.mem, s.c.sp + 264, s.c.x[16])), s.pc + 8)
  {
    hide Decode, Read32, Read64, Write64, Step, Get;
    FrameWords();
    X16Words();
    StepOn(other, s, ADD_SP_FRAME, AddImm(true, 31, 31, 0x100));
    var u := Step(other, s);
    StepOn(other, u, STR_X16_LR_SLOT, StrImm(true, 16, 31, 8));
    assert Run(other, s, 2) == Run(other, u, 1) == Step(other, u);
  }

  lemma DropFrameRuns(other: Uninterpreted, s: State)
    requires Read32(s.c.mem, s.pc) == ADD_SP_FRAME && Read32(s.c.mem, s.pc + 4) == STR_X16_LR_SLOT
    requires Read32(s.c.mem, s.pc + 8) == LDP_FP_LR_POP
    requires Apart(s.pc, 3, s.c.sp)
    ensures Run(other, s, 3) == State(FrameDropped(s.c), s.pc + 12)
  {
    hide Decode, Read32, Read64, Write64, Step, Get, Run;
    LinkSlotRuns(other, s);
    var v := Run(other, s, 2);
    PopWord();
    Write64Get(s.c.mem, s.c.sp + 264, s.c.x[16]);
    Read32Same(s.c.mem, v.c.mem, s.pc + 8);
    StepOn(other, v, LDP_FP_LR_POP, Pair(PairX, Post, true, 29, 30, 31, 16));
    RunThen(other, s, 2, 1);
    RunOnce(other, v);
  }

  lemma RunOnce(other: Uninterpreted, s: State)
    ensures Run(other, s, 1) == Step(other, s)
  {
    hide Step;
    assert Run(other, s, 1) == Run(other, Step(other, s), 0);
  }

  /**
   * `t` is the state behind the restore code that was entered in `s`: every register comes from its
   * slot, except that X16 and X30 both take slot 30, and X29 takes the word above the register area.
   */
  ghost predicate RegistersBack(s: State, t: State, f: int) {
    && t.c == s.c.(sp := t.c.sp, mem := t.c.mem, x := t.c.x)
    && t.c.sp == f + FRAME
    && (forall n :: 0 <= n < 29 && n != 16 ==> t.c.x[n] == Read64(s.c.mem, f + 8 * n))
    && t.c.x[16] == t.c.x[30] == Read64(s.c.mem, f + 240)
    && t.c.x[29] == Read64(s.c.mem, f + 256)
    && SameOff(s.c.mem, t.c.mem, f, f + FRAME)
  }

  lemma RestoreParts(m: Mem, pc: int)
    requires Holds(m, pc, Restore())
    ensures Holds(m, pc, PairWords(0, true))
    ensures Read32(m, pc + 60) == LDR_X30 && Read32(m, pc + 64) == MOV_X16_X30
    ensures Read32(m, pc + 68) == ADD_SP_FRAME && Read32(m, pc + 72) == STR_X16_LR_SLOT
            && Read32(m, pc + 76) == LDP_FP_LR_POP
  {
    hide Read32, PairWords;
    var ws := Restore();
    assert Read32(m, pc + 4 * 15) == ws[15];
    assert Read32(m, pc + 4 * 16) == ws[16];
    assert Read32(m, pc + 4 * 17) == ws[17];
    assert Read32(m, pc + 4 * 18) == ws[18];
    assert Read32(m, pc + 4 * 19) == ws[19];
    HoldsPart(m, pc, ws, 0, 15);
    assert ws[0..15] == PairWords(0, true);
  }

  lemma RestoreCodeRuns(other: Uninterpreted, s: State)
    requires Apart(s.pc, 20, s.c.sp)
    requires Holds(s.c.mem, s.pc, Restore())
    ensures var t := Run(other, s, 20);
      t.pc == s.pc + 80 && RegistersBack(s, t, s.c.sp)
  {
    hide Read32, PairWords, Run, Write64, Read64, Get, Restore;
    var f := s.c.sp;
    RestoreParts(s.c.mem, s.pc);
    RestoreRuns(other, s, 0);
    var a := Run(other, s, 15);
    LoadX30Runs(other, a);
    var b := Run(other, a, 2);
    DropFrameRuns(other, b);
    Write64Get(s.c.mem, f + 264, b.c.x[16]);
    Read64Same(s.c.mem, Write64(s.c.mem, f + 264, b.c.x[16]), f + 256);
    RunThen(other, s, 15, 2);
    RunThen(other, s, 17, 3);
  }

  lemma RetRuns(other: Uninterpreted, s: State)
    requires Read32(s.c.mem, s.pc) == RET_X30
    ensures Run(other, s, 1) == State(s.c, s.c.x[30])
  {
    hide Decode, Read32, Step;
    RetWord();
    StepOn(other, s, RET_X30, RET(30));
    assert Run(other, s, 1) == Run(other, Step(other, s), 0);
  }
}
