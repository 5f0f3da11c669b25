/**
 * Frames: how the usual prologue and epilogue carry a return address through memory, and a whole function
 * made of them that a hooked call may run.
 */
module Frames {
  import opened Words
  import opened Options
  import opened Memory
  import opened A64
  import opened Decoder
  import opened Encode
  import opened Relocator
  import opened Relocation
  import opened Links
  import opened Twins
  import opened Thunks
  import opened ThunkRuns
  import opened HookFlow
  import opened Dispatch
  import opened HookedRuns
  import opened Programs
  import DispatchRuns

  /** STP X29, X30, [SP, #imm]!, by which most functions save their return address. */
  function FramePush(imm: int): Insn { Pair(PairX, Pre, false, 29, 30, 31, imm) }

  /** LDP X29, X30, [SP], #imm, by which they take it back. */
  function FramePop(imm: int): Insn { Pair(PairX, Post, true, 29, 30, 31, imm) }

  /** Pushing a frame leaves the link in the slot above the saved X29. */
  lemma FramePushSavesLink(e: Env, v: View, imm: int, pc: u64, c: Core)
    requires v.Of(e) && 30 in v.regs && Known(v, 29)
    requires Seen(e, Wrap(c.sp + imm), 16)
    ensures var at: int := Wrap(c.sp + imm);
      && MovesLinks(e, v, FramePush(imm), pc, c)
      && LinkAt(After(e, v, FramePush(imm), c), at + 8) == Some(v.regs[30])
      && KnownAt(After(e, v, FramePush(imm), c), at)
      && After(e, v, FramePush(imm), c).regs == v.regs
  {
    hide Wrap;
  }

  /** Popping it puts the link back in X30, so that RET goes to it. */
  lemma FramePopTakesLink(e: Env, v: View, imm: int, pc: u64, c: Core)
    requires (c.sp + 8) in v.slots && KnownAt(v, c.sp)
    ensures MovesLinks(e, v, FramePop(imm), pc, c)
    ensures Exit(After(e, v, FramePop(imm), c), RET(30)) == LinkAt(v, c.sp + 8)
  {
    hide Wrap;
  }
  /** A displaced instruction that moves links and falls through to the next slot. */
  lemma SlotFalls(e: Env, v: View, insns: seq<DecodedInsn>, p: State, i: Insn)
    requires |insns| == 4 && 0 <= e.lo < P64 && e.Valid() && v.Of(e)
    requires e.target <= p.pc < e.target + 12 && (p.pc - e.target) % 4 == 0
    requires InsnIn(p) == i && (i.Pair? || i.AddImm?)
    requires MovesLinks(e, v, i, p.pc, p.c)
    requires Clear(e, i, p.c, e.target, e.target + 16) && Clear(e, i, p.c, e.page, e.hi)
    ensures TwinCarried(e, v, insns, p) && Onward(e, v, insns, p)
    ensures TwinView(e, v, insns, p) == After(e, v, i, p.c) && After(e, v, i, p.c).Of(e)
    ensures Step(e.other, p) == State(Effect(e.other, i, p.pc, p.c), p.pc + 4)
    ensures SameOn(p.c.mem, Effect(e.other, i, p.pc, p.c).mem, e.target, e.target + 16)
  {
    hide Decode, Read32, MovesLinks, Clear, After, Effect, Get, SlotPc, View.Of, Alike, CodeKept, Env.Valid;
    LinksAreKept(e, v, i, p.pc, p.c);
    AfterOf(e, v, i, p.c);
    StepOn(e.other, p, Read32(p.c.mem, p.pc), i);
    PlainNext(e, i, p);
    SlotBeforeEnd(insns, e.lo, SlotOf(e, p.pc) + 1);
  }

  /** The jump back lies behind all slots. */
  lemma SlotBeforeEnd(insns: seq<DecodedInsn>, base: u64, k: nat)
    requires |insns| == 4 && k < 4
    ensures base <= SlotPc(insns, base, k) < SlotPc(insns, base, 4)
  {
    hide RelocateAll, Wrap;
    RelocateAllConcat(insns[..k], insns[k..], base);
    assert insns[..k] + insns[k..] == insns == insns[..4];
  }

  lemma PlainNext(e: Env, i: Insn, p: State)
    requires e.Valid() && e.target <= p.pc < e.target + 12 && (i.Pair? || i.AddImm?)
    ensures Next(i, p.pc, p.c) == p.pc + 4
  {}

  lemma RunsOn(e: Env, v: View, insns: seq<DecodedInsn>, n: nat, p: State)
    requires |insns| == 4 && 0 <= e.lo < P64
    requires TwinCarried(e, v, insns, p) && (n > 0 ==> Onward(e, v, insns, p))
    requires TwinRuns(e, TwinView(e, v, insns, p), insns, n, Step(e.other, p))
    ensures TwinRuns(e, v, insns, n + 1, p)
    ensures RunGoal(e, v, insns, n + 1, p)
         == if n == 0 then TwinGoal(e, v, insns, p)
            else RunGoal(e, TwinView(e, v, insns, p), insns, n, Step(e.other, p))
    ensures Run(e.other, p, n + 1) == Run(e.other, Step(e.other, p), n)
  {
    hide TwinCarried, Onward, TwinView, TwinGoal, Step;
  }

  /** `p` runs a function that pushes a frame, sets the frame pointer, pops the frame and returns. */
  ghost predicate FrameFunction(m: Mem, target: int) {
    && Read32(m, target) == STP_FP_LR_PUSH && Read32(m, target + 4) == 0x9100_03FD
    && Read32(m, target + 8) == LDP_FP_LR_POP && Read32(m, target + 12) == RET_X30
  }

  /** MOV X29, SP */
  const SetFp: Insn := AddImm(true, 29, 31, 0)

  lemma SetFramePointer()
    ensures Decode(0x9100_03FD) == SetFp
  {}

  /** The pop takes back what the push had stored. */
  lemma PushThenPop(other: Uninterpreted, c: Core, pc: u64, pc1: u64, pc2: u64)
    requires 16 <= c.sp
    ensures var c1 := Effect(other, FramePush(-16), pc, c);
      var c2 := Effect(other, SetFp, pc1, c1);
      var c3 := Effect(other, FramePop(16), pc2, c2);
      && c1.sp == c.sp - 16 && c1.mem == Write64(Write64(c.mem, c.sp - 16, c.x[29]), c.sp - 8, c.x[30])
      && c2.sp == c.sp - 16 && c2.mem == c1.mem
      && c3.sp == c.sp && c3.mem == c1.mem && c3.x[30] == c.x[30]
  {
    hide Write64, Read64, Wrap;
    WrapsDown(c.sp);
    Write64Get(Write64(c.mem, c.sp - 16, c.x[29]), c.sp - 8, c.x[30]);
  }

  lemma WrapsDown(sp: u64)
    requires 16 <= sp
    ensures Wrap(sp + -16) == sp - 16 && Wrap(sp - 16 + 16) == sp && Wrap(sp - 16 + 0) == sp - 16
  {}

  /** The link's way: from X30 into the frame, past the frame pointer, and back into X30. */
  lemma FrameViews(e: Env, v: View, c: Core, pc: u64, pc1: u64, pc2: u64)
    requires v.Of(e) && 30 in v.regs && 29 !in v.scratch && 16 <= c.sp && Seen(e, c.sp - 16, 16)
    ensures var c1 := Effect(e.other, FramePush(-16), pc, c);
      var c2 := Effect(e.other, SetFp, pc1, c1);
      var v1 := After(e, v, FramePush(-16), c);
      var v2 := After(e, v1, SetFp, c1);
      && MovesLinks(e, v, FramePush(-16), pc, c)
      && MovesLinks(e, v1, SetFp, pc1, c1)
      && MovesLinks(e, v2, FramePop(16), pc2, c2)
      && Exit(After(e, v2, FramePop(16), c2), RET(30)) == Some(v.regs[30])
  {
    hide Write64, Read64, Wrap, After, MovesLinks, View.Of, Effect;
    WrapsDown(c.sp);
    PushThenPop(e.other, c, pc, pc1, pc2);
    FramePushSavesLink(e, v, -16, pc, c);
    var c1, v1 := Effect(e.other, FramePush(-16), pc, c), After(e, v, FramePush(-16), c);
    FramePointerSet(e, v1, pc1, c1, c.sp - 16);
    FramePopTakesLink(e, After(e, v1, SetFp, c1), 16, pc2, Effect(e.other, SetFp, pc1, c1));
  }

  /** Setting the frame pointer moves no link. */
  lemma FramePointerSet(e: Env, v: View, pc: u64, c: Core, at: int)
    requires KnownAt(v, at) && (at + 8) in v.slots
    ensures MovesLinks(e, v, SetFp, pc, c)
    ensures KnownAt(After(e, v, SetFp, c), at) && LinkAt(After(e, v, SetFp, c), at + 8) == LinkAt(v, at + 8)
  {}

  /** Only the push stores, in the sixteen bytes below the stack pointer. */
  lemma FrameClearOf(e: Env, i: Insn, c: Core, lo: int, hi: int)
    requires i == FramePush(-16) || i == SetFp || i == FramePop(16)
    requires 16 <= c.sp && (i == FramePush(-16) ==> c.sp <= lo || hi <= c.sp - 16)
    ensures Clear(e, i, c, lo, hi)
  {
    hide Wrap;
    WrapsDown(c.sp);
  }

  /**
   * A function that is nothing but a frame, all of it displaced, run in a redirected call on any stack that is
   * clear of the hook: it looks at nothing that differs, and its RET leads back to the caller on the unhooked
   * machine and to the leave thunk on the hooked one.
   */
  lemma FrameFunctionReturns(e: Env, h: Hook, insns: seq<DecodedInsn>, p: State)
    requires |insns| == 4 && 0 <= e.lo < P64 && h.Valid()
    requires Describes(e, h, insns) && p.pc == e.target && FrameClear(e, h, p.c.sp)
    requires FrameFunction(p.c.mem, e.target) && Seen(e, p.c.sp - 16, 16) && p.c.x[30] != h.page + LEAVE_OFF
    ensures var v := Inside(h, Fresh(e), p);
      && TwinRuns(e, v, insns, 4, p) && RunGoal(e, v, insns, 4, p) == h.page + LEAVE_OFF
      && Run(e.other, p, 4).pc == p.c.x[30] && Run(e.other, p, 4).c.sp == p.c.sp
  {
    hide Decode, Read32, Read64, Write64, MovesLinks, After, Effect, Get, SlotPc, View.Of, BlockWords, Run, TwinRuns,
         RunGoal, TwinCarried, Onward, TwinView, TwinGoal, Exit, Wrap, Clear, Step, Env.Valid, Inside;
    var a, other := e.target, e.other;
    var v0, c0 := Inside(h, Fresh(e), p), p.c;
    PageEnds(e, h, insns);
    InsideFresh(e, h, p);
    FrameViews(e, v0, c0, a, a + 4, a + 8);
    PushThenPop(other, c0, a, a + 4, a + 8);
    PushWord();
    SetFramePointer();
    PopWord();

    SlotClear(e, h, FramePush(-16), c0);
    SlotFalls(e, v0, insns, p, FramePush(-16));
    var v1, p1 := After(e, v0, FramePush(-16), c0), Step(other, p);
    Read32Same(c0.mem, p1.c.mem, a + 4);
    SlotClear(e, h, SetFp, p1.c);
    SlotFalls(e, v1, insns, p1, SetFp);
    var v2, p2 := After(e, v1, SetFp, p1.c), Step(other, p1);
    Read32Same(c0.mem, p2.c.mem, a + 8);
    SlotClear(e, h, FramePop(16), p2.c);
    SlotFalls(e, v2, insns, p2, FramePop(16));
    var v3, p3 := After(e, v2, FramePop(16), p2.c), Step(other, p2);
    Read32Same(c0.mem, p3.c.mem, a + 12);
    SlotReturns(e, v3, insns, p3);
    LastRun(e, v3, insns, p3);
    RunsOn(e, v2, insns, 1, p2);
    RunsOn(e, v1, insns, 2, p1);
    RunsOn(e, v0, insns, 3, p);
  }

  lemma PageEnds(e: Env, h: Hook, insns: seq<DecodedInsn>)
    requires Describes(e, h, insns)
    ensures e.Valid() && e.page == h.page && e.lo == h.page + RELOC_OFF && e.hi <= h.page + PAGE
    ensures 0 <= e.target && e.target % 4 == 0 && e.target + 16 < P64
  {
    hide BlockWords;
    BlockInPage(e, h, insns);
  }

  lemma SlotClear(e: Env, h: Hook, i: Insn, c: Core)
    requires i == FramePush(-16) || i == SetFp || i == FramePop(16)
    requires e.page == h.page && e.hi <= h.page + PAGE && 16 <= c.sp && (i == FramePush(-16) ==> FrameClear(e, h, c.sp))
    ensures Clear(e, i, c, e.target, e.target + 16) && Clear(e, i, c, e.page, e.hi)
  {
    hide Clear;
    FrameClearOf(e, i, c, e.target, e.target + 16);
    FrameClearOf(e, i, c, e.page, e.hi);
  }

  /** RET in the last slot, with the link in X30. */
  lemma SlotReturns(e: Env, v: View, insns: seq<DecodedInsn>, p: State)
    requires |insns| == 4 && 0 <= e.lo < P64 && e.Valid() && v.Of(e) && p.pc == e.target + 12
    requires Read32(p.c.mem, p.pc) == RET_X30 && Exit(v, RET(30)).Some? && Exit(v, RET(30)).value.hooked < e.lo
    ensures TwinCarried(e, v, insns, p) && TwinGoal(e, v, insns, p) == Exit(v, RET(30)).value.hooked
    ensures Step(e.other, p) == State(p.c, p.c.x[30])
  {
    hide Decode, Read32, Get, SlotPc, View.Of, Env.Valid, After, Keeps, Carried;
    RetWord();
    LinksAreKept(e, v, RET(30), p.pc, p.c);
    SlotBeforeEnd(insns, e.lo, 0);
    StepOn(e.other, p, RET_X30, RET(30));
  }

  lemma LastRun(e: Env, v: View, insns: seq<DecodedInsn>, p: State)
    requires |insns| == 4 && 0 <= e.lo < P64 && TwinCarried(e, v, insns, p)
    ensures TwinRuns(e, v, insns, 1, p) && RunGoal(e, v, insns, 1, p) == TwinGoal(e, v, insns, p)
    ensures Run(e.other, p, 1) == Step(e.other, p)
  {
    hide TwinCarried, TwinGoal, TwinView, Step;
    NoRun(e.other, Step(e.other, p));
    assert TwinRuns(e, TwinView(e, v, insns, p), insns, 0, Step(e.other, p));
    assert Run(e.other, p, 1) == Run(e.other, Step(e.other, p), 0);
  }

  lemma InsideFresh(e: Env, h: Hook, p: State)
    requires h.Valid() && p.c.x[30] != h.page + LEAVE_OFF
    ensures var v := Inside(h, Fresh(e), p);
      v.Of(e) && 30 in v.regs && v.regs[30] == Link(p.c.x[30], h.page + LEAVE_OFF) && 29 !in v.scratch
  {}

  /** The enter dispatcher that does what the registry says, and nothing else. */
  lemma EnterIsServed(e: Env, h: Hook, insns: seq<DecodedInsn>, tid: Tid, p: State, s: State,
                      before: seq<DispatchRuns.Action>, during: seq<DispatchRuns.Action>)
    requires Describes(e, h, insns) && h.id < 0x1_0000
    requires Meets(e, h, insns, true, Fresh(e), p, s, e.target) && AtEntry(e, h, Fresh(e), p, e.target)
    requires CallLeaves(before, during, tid, h.id, p.c.x[30])
    requires h.id in HooksBefore(before) ==> HooksBefore(before)[h.id].leaveThunk == h.page + LEAVE_OFF
    ensures var u := DispatcherReturn(Run(e.other, s, 24), h.page + LEAVE_OFF);
      && EnterServed(e, h, HooksBefore(before), tid, s, u)
      && Dispatches(e, h, Run(e.other, s, 24), u, h.page + LEAVE_OFF)
  {
    hide Run, BlockInstalled, EnterIn, LeaveIn, Holds, Dispatches, CallLeaves, HooksBefore, HooksAfter, EnterAnswer,
         DispatcherReturn, BlockWords, SlotsHold, RegsHold, SameSeen, EncodeAbsBranch, IdPassed, LinkPassed;
    LinkRedirected(e, h, insns, true, Fresh(e), p, s, e.target, before, during, tid);
    EnterArrives(e.other, h, s);
    ReturnDispatches(e, h, Run(e.other, s, 24), h.page + LEAVE_OFF);
  }

  lemma LeaveIsServed(e: Env, h: Hook, insns: seq<DecodedInsn>, tid: Tid, v: View, q: State, r: State,
                      before: seq<DispatchRuns.Action>, during: seq<DispatchRuns.Action>, link: u64)
    requires Describes(e, h, insns) && h.id < 0x1_0000 && FrameClear(e, h, q.c.sp)
    requires Meets(e, h, insns, true, v, q, r, h.page + LEAVE_OFF)
    requires CallLeaves(before, during, tid, h.id, link) && h.id in HooksAfter(before, during, tid, h.id, link)
    ensures LeaveServed(e, h, HooksAfter(before, during, tid, h.id, link), tid, r,
                        DispatcherReturn(Run(e.other, r, 22), link))
  {
    hide Run, BlockInstalled, EnterIn, LeaveIn, Holds, Dispatches, CallLeaves, HooksBefore, HooksAfter, LeaveAnswer,
         DispatcherReturn, BlockWords, SlotsHold, RegsHold, SameSeen, EncodeAbsBranch, IdPassed, LinkPassed;
    LeaveArrives(e.other, h, r);
    SmallId(h.id);
    LeaveAnswers(before, during, tid, h.id, link, Run(e.other, r, 22));
    ReturnDispatches(e, h, Run(e.other, r, 22), link);
  }

  /**
   * Such a function, hooked: for every run of the registry in which its call is redirected and the hook stays,
   * there are dispatchers with which the call meets all that the hooked-call results ask.
   */
  lemma FrameFunctionIsTraced(e: Env, h: Hook, insns: seq<DecodedInsn>, tid: Tid, p: State, s: State,
                              before: seq<DispatchRuns.Action>, during: seq<DispatchRuns.Action>)
      returns (u: State, x: State)
    requires |insns| == 4 && 0 <= e.lo < P64 && h.Valid()
    requires Describes(e, h, insns) && !h.replaceMode && h.id < 0x1_0000 && e.scratch == {16, 17}
    requires p.pc == s.pc == e.target && Agree(e, p.c, s.c) && FrameClear(e, h, p.c.sp)
    requires Hooked(e, h, insns, true, p.c.mem, s.c.mem)
    requires FrameFunction(p.c.mem, e.target) && Seen(e, p.c.sp - 16, 16) && p.c.x[30] != h.page + LEAVE_OFF
    requires CallLeaves(before, during, tid, h.id, p.c.x[30])
    requires h.id in HooksBefore(before) ==> HooksBefore(before)[h.id].leaveThunk == h.page + LEAVE_OFF
    requires h.id in HooksAfter(before, during, tid, h.id, p.c.x[30])
    ensures CallTraced(e, h, insns, tid, Fresh(e), p, s, before, during, u, Body(4, Stop), x)
  {
    hide Run, Hooked, Dispatches, CallLeaves, HooksBefore, HooksAfter, DispatcherReturn, BlockWords, Alike, Agree,
         FrameFunction, TwinRuns, RunView, RunSteps, RunGoal, Entering, Describes, FrameClear, Seen, View.Of, Traced,
         TraceGoal, PlainAfter, HookedAfter;
    var v0 := Fresh(e);
    FreshAlike(e, p.c, s.c);
    EnterIsServed(e, h, insns, tid, p, s, before, during);
    u := DispatcherReturn(Run(e.other, s, 24), h.page + LEAVE_OFF);
    EntryMeets(e, h, insns, true, v0, p, s, e.target, u, h.page + LEAVE_OFF);
    var v1, w := Inside(h, v0, p), Run(e.other, u, 23);
    FrameFunctionReturns(e, h, insns, p);
    EntrySlot(e, h, insns);
    BodyMeets(e, h, insns, true, v1, p, w, e.lo, 4);
    var q, r := Run(e.other, p, 4), Run(e.other, w, RunSteps(e, v1, insns, 4, p));
    LeaveIsServed(e, h, insns, tid, RunView(e, v1, insns, 4, p), q, r, before, during, p.c.x[30]);
    x := DispatcherReturn(Run(e.other, r, 22), p.c.x[30]);
    OneBody(e, h, insns, tid, v1, p, e.lo, w, 4);
  }

  /** A trace that is one body. */
  lemma OneBody(e: Env, h: Hook, insns: seq<DecodedInsn>, tid: Tid, v: View, p: State, goal: int, t: State, n: nat)
    requires |insns| == 4 && 0 <= e.lo < P64 && h.Valid()
    ensures Traced(e, h, insns, tid, Body(n, Stop), v, p, goal, t)
       <==> OnWord(e, p.pc) && goal == Twin(e, insns, p.pc) && TwinRuns(e, v, insns, n, p)
    ensures PlainAfter(e, Body(n, Stop), p) == Run(e.other, p, n)
    ensures HookedAfter(e, h, insns, Body(n, Stop), v, p, t) == Run(e.other, t, RunSteps(e, v, insns, n, p))
    ensures TraceGoal(e, h, insns, Body(n, Stop), v, p, goal) == RunGoal(e, v, insns, n, p)
  {
    hide Run, TwinRuns, RunView, RunSteps, RunGoal, Twin;
    var rest: Trace := Stop;
    assert Traced(e, h, insns, tid, rest, RunView(e, v, insns, n, p), Run(e.other, p, n), RunGoal(e, v, insns, n, p),
                  Run(e.other, t, RunSteps(e, v, insns, n, p)));
  }

  lemma EntrySlot(e: Env, h: Hook, insns: seq<DecodedInsn>)
    requires |insns| == 4 && 0 <= e.lo < P64 && Describes(e, h, insns)
    ensures e.InWindow(e.target) && OnWord(e, e.target) && Twin(e, insns, e.target) == e.lo
  {
    hide BlockWords, SlotPc;
    FirstSlot(insns, e.lo);
  }
}
