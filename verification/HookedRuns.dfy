/**
 * Hooked calls whose dispatchers are those of the registry: each dispatcher answers from what the thunk
 * hands it, the hook id in W1 and the context that X0 points to, and from the registry's state at that
 * moment, whatever the other threads have done to it.
 */
module HookedRuns {
  import opened Options
  import opened Words
  import opened Memory
  import opened A64
  import opened Encode
  import opened Relocation
  import opened Thunks
  import opened ThunkRuns
  import opened HookFlow
  import opened Dispatch
  import DispatchRuns

  // ---------- what the dispatchers answer ----------

  /** The hook id that a dispatcher entered in `t` is called with. */
  function IdPassed(t: State): HookId { Wrap32(t.c.x[1]) }

  /** The link in the context that it is called with. */
  function LinkPassed(t: State): u64 {
    var context: int := t.c.x[0];
    Read64(t.c.mem, context + 240)
  }

  /** The link that the enter dispatcher leaves in the context. */
  function EnterAnswer(hooks: Hooks, tid: Tid, t: State): u64 { EnterTake(hooks, tid, IdPassed(t), LinkPassed(t)).2 }

  /** The link that the leave dispatcher leaves in the context; it does not depend on the callback put back. */
  function LeaveAnswer(hooks: Hooks, tid: Tid, t: State): u64 {
    LeavePutBack(hooks, tid, IdPassed(t), None, LinkPassed(t)).1
  }

  /** A thunk passes the low half of its hook's id, and the return address it was entered with. */
  lemma ThunkPasses(s: State, t: State, id: u32, dispatch: u64)
    requires FRAME <= s.c.sp && s.pc + 100 < P64 && Dispatched(s, t, id, dispatch)
    ensures IdPassed(t) == id % 0x1_0000 && LinkPassed(t) == s.c.x[30]
    ensures IdPassed(t) == id <==> id < 0x1_0000
  {
    hide Read64, Get;
    assert Read64(t.c.mem, s.c.sp - FRAME + 8 * 30) == s.c.x[30];
  }

  /** From the patched entry to the enter dispatcher. */
  lemma EnterArrives(other: Uninterpreted, h: Hook, s: State)
    requires h.Valid() && s.pc + 16 < P64 && StackApart(h, s.c.sp)
    requires Holds(s.c.mem, s.pc, EncodeAbsBranch(h.page)) && EnterIn(h, s.c.mem)
    ensures var t := Run(other, s, 24);
      && t.pc == h.enter && IdPassed(t) == h.id % 0x1_0000 && LinkPassed(t) == s.c.x[30]
      && t.c.sp == s.c.sp - FRAME
    ensures IdPassed(Run(other, s, 24)) == h.id <==> h.id < 0x1_0000
    ensures SameOff(s.c.mem, Run(other, s, 24).c.mem, s.c.sp - FRAME, s.c.sp)
  {
    hide Run, Holds, EncodeAbsBranch, Read32, Read64, Get, FrameFilled, IdPassed, LinkPassed;
    PatchedEntryRuns(other, h, s);
    var a := Run(other, s, 2);
    ThunkParts(a.c.mem, h.page, h.id, h.enter, h.EnterTail());
    SpillAndCallRuns(other, a, h.id, h.enter);
    RunThen(other, s, 2, 22);
    ThunkPasses(a, Run(other, a, 22), h.id, h.enter);
  }

  /** From the leave thunk to the leave dispatcher. */
  lemma LeaveArrives(other: Uninterpreted, h: Hook, r: State)
    requires h.Valid() && StackApart(h, r.c.sp) && r.pc == h.page + LEAVE_OFF && LeaveIn(h, r.c.mem)
    ensures var t := Run(other, r, 22);
      && t.pc == h.leave && IdPassed(t) == h.id % 0x1_0000 && LinkPassed(t) == r.c.x[30]
      && t.c.sp == r.c.sp - FRAME
  {
    hide Run, Holds, Read32, Read64, Get, FrameFilled, IdPassed, LinkPassed;
    ThunkParts(r.c.mem, r.pc, h.id, h.leave, [RET_X30]);
    SpillAndCallRuns(other, r, h.id, h.leave);
    ThunkPasses(r, Run(other, r, 22), h.id, h.leave);
  }

  lemma SmallId(id: HookId)
    ensures id < 0x1_0000 ==> id % 0x1_0000 == id
  {}

  // ---------- dispatchers exist ----------

  /** A dispatcher that was entered in `t` returns with `lr` in the context's link and nothing else changed. */
  function DispatcherReturn(t: State, lr: u64): State {
    State(t.c.(mem := Write64(t.c.mem, t.c.sp + 240, lr)), t.c.x[30])
  }

  /** What is asked of dispatchers can be met from every state, whatever the answer. */
  lemma ReturnDispatches(e: Env, h: Hook, t: State, lr: u64)
    requires h.Valid() && t.c.sp + FRAME < P64 && FrameClear(e, h, t.c.sp + FRAME)
    ensures Dispatches(e, h, t, DispatcherReturn(t, lr), lr)
  {
    hide Read64, Write64, Get;
    var u := DispatcherReturn(t, lr);
    Write64Get(t.c.mem, t.c.sp + 240, lr);
    forall n | 0 <= n < 30
      ensures Read64(u.c.mem, t.c.sp + 8 * n) == Read64(t.c.mem, t.c.sp + 8 * n)
    {
      Read64Same(t.c.mem, u.c.mem, t.c.sp + 8 * n);
    }
  }

  // ---------- a redirected call ----------

  /** The call's actions: entered after `before`, and in its leave dispatch, with nothing above it, after `rest`. */
  ghost predicate CallLeaves(before: seq<DispatchRuns.Action>, rest: seq<DispatchRuns.Action>, tid: Tid, id: HookId,
                             link: u64) {
    var run := before + [DispatchRuns.Call(tid, id, link)] + rest;
    && DispatchRuns.ValidRun(before) && DispatchRuns.ValidRun(run)
    && DispatchRuns.StaysIn(run, |before| + 1, tid, |DispatchRuns.Frames(DispatchRuns.After(before), tid)|)
    && DispatchRuns.Enabled(DispatchRuns.After(run), DispatchRuns.LeaveDone(tid))
    && |DispatchRuns.Frames(DispatchRuns.After(run), tid)| == |DispatchRuns.Frames(DispatchRuns.After(before), tid)| + 1
  }

  ghost function HooksBefore(before: seq<DispatchRuns.Action>): Hooks
    requires DispatchRuns.ValidRun(before)
  {
    DispatchRuns.After(before).hooks
  }

  ghost function HooksAfter(before: seq<DispatchRuns.Action>, rest: seq<DispatchRuns.Action>, tid: Tid, id: HookId,
                            link: u64): Hooks
    requires CallLeaves(before, rest, tid, id, link)
  {
    DispatchRuns.After(before + [DispatchRuns.Call(tid, id, link)] + rest).hooks
  }

  /** What the leave dispatcher answers to its own call: the caller's link if and only if the hook is still there. */
  lemma LeaveAnswers(before: seq<DispatchRuns.Action>, rest: seq<DispatchRuns.Action>, tid: Tid, id: HookId, link: u64,
                     t: State)
    requires CallLeaves(before, rest, tid, id, link) && IdPassed(t) == id
    ensures var hooks := HooksAfter(before, rest, tid, id, link);
      LeaveAnswer(hooks, tid, t) == if id in hooks then link else LinkPassed(t)
    ensures Redirects(HooksBefore(before), id)
  {
    hide DispatchRuns.After, DispatchRuns.ValidRun, DispatchRuns.StaysIn, IdPassed, LinkPassed;
    DispatchRuns.OwnLinkComesBack(before, rest, tid, id, link, LinkPassed(t));
  }

  /**
   * A call of a replaced function: it comes back to its caller, with all registers that a call may not
   * lose, if and only if the hook is still registered when it leaves.
   */
  lemma ReplacedThroughRegistry(other: Uninterpreted, h: Hook, s: State, u: State, v: State,
                                before: seq<DispatchRuns.Action>, rest: seq<DispatchRuns.Action>, tid: Tid)
    requires h.Valid() && h.replaceMode && s.pc + 16 < P64 && StackApart(h, s.c.sp) && h.id < 0x1_0000
    requires Holds(s.c.mem, s.pc, EncodeAbsBranch(h.page)) && EnterIn(h, s.c.mem) && LeaveIn(h, s.c.mem)
    requires CallLeaves(before, rest, tid, h.id, s.c.x[30])
    requires h.id in HooksBefore(before) ==> HooksBefore(before)[h.id].leaveThunk == h.page + LEAVE_OFF
    requires var t := Run(other, s, 24); OnlyLink(h, t, u, EnterAnswer(HooksBefore(before), tid, t))
    requires var t := Run(other, u, 44);
      OnlyLink(h, t, v, LeaveAnswer(HooksAfter(before, rest, tid, h.id, s.c.x[30]), tid, t))
    ensures var z := Run(other, v, 22);
      && z.pc == (if h.id in HooksAfter(before, rest, tid, h.id, s.c.x[30]) then s.c.x[30] else h.page + LEAVE_OFF)
      && SameRegisters(s.c, z.c)
  {
    hide Run, Holds, Read64, Get, EncodeAbsBranch, EnterIn, LeaveIn, OnlyLink, IdPassed, LinkPassed;
    hide CallLeaves, HooksAfter, HooksBefore;
    EnterArrives(other, h, s);
    SmallId(h.id);
    LeaveAnswers(before, rest, tid, h.id, s.c.x[30], Run(other, s, 24));
    ReplacedComesBack(other, h, s, u);
    LeaveArrives(other, h, Run(other, u, 22));
    RunThen(other, u, 22, 22);
    LeaveAnswers(before, rest, tid, h.id, s.c.x[30], Run(other, u, 44));
    ReplacedCallReturns(other, h, s, u, v,
                        LeaveAnswer(HooksAfter(before, rest, tid, h.id, s.c.x[30]), tid, Run(other, u, 44)));
  }
}
