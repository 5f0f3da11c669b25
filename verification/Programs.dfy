/**
 * Whole runs of a program, one of whose functions is hooked: the machine on which it is not, and the one
 * on which it is, with the registry's dispatchers. Calls may be nested, and other threads may do to the
 * registry what they like.
 */
module Programs {
  import opened Options
  import opened Words
  import opened Memory
  import opened A64
  import opened Decoder
  import opened Encode
  import opened Relocator
  import opened Relocation
  import opened Links
  import opened Twins
  import opened ThunkRuns
  import opened HookFlow
  import opened Dispatch
  import opened HookedRuns
  import DispatchRuns

  /**
   * How a program runs, as far as the hook is concerned: some instructions, a call of the function that the
   * registry does not redirect (`u` is the enter dispatcher's return), or one that it does, with the run
   * inside it and `x` the leave dispatcher's return. `before` is what the threads did to the registry before
   * the call, `during` what they did until it leaves. Calls within calls of the same function are nested.
   */
  datatype Trace =
    | Stop
    | Body(n: nat, rest: Trace)
    | Enter(hooks: Hooks, u: State, rest: Trace)
    | Call(before: seq<DispatchRuns.Action>, during: seq<DispatchRuns.Action>, u: State, inner: Trace, x: State,
           rest: Trace)

  /** The unhooked machine behind the trace: there, calls are calls. */
  function PlainAfter(e: Env, tr: Trace, p: State): State {
    match tr
    case Stop => p
    case Body(n, rest) => PlainAfter(e, rest, Run(e.other, p, n))
    case Enter(_, _, rest) => PlainAfter(e, rest, p)
    case Call(_, _, _, inner, _, rest) => PlainAfter(e, rest, PlainAfter(e, inner, p))
  }

  /** The view inside a call that is redirected to the leave thunk. */
  ghost function Inside(h: Hook, v: View, p: State): View
    requires h.Valid()
  {
    Entering(v, p.c.sp, Redirected(p.c.x[30], h.page + LEAVE_OFF))
  }

  /** What differs behind the trace. */
  ghost function TraceView(e: Env, h: Hook, insns: seq<DecodedInsn>, tr: Trace, v: View, p: State): View
    requires |insns| == 4 && 0 <= e.lo < P64 && h.Valid()
  {
    match tr
    case Stop => v
    case Body(n, rest) => TraceView(e, h, insns, rest, RunView(e, v, insns, n, p), Run(e.other, p, n))
    case Enter(_, _, rest) => TraceView(e, h, insns, rest, Entering(v, p.c.sp, None), p)
    case Call(_, _, _, inner, _, rest) =>
      var q := PlainAfter(e, inner, p);
      TraceView(e, h, insns, rest, Leaving(TraceView(e, h, insns, inner, Inside(h, v, p), p), q.c.sp), q)
  }

  /** The hooked machine behind the trace. */
  ghost function HookedAfter(e: Env, h: Hook, insns: seq<DecodedInsn>, tr: Trace, v: View, p: State, t: State): State
    requires |insns| == 4 && 0 <= e.lo < P64 && h.Valid()
  {
    match tr
    case Stop => t
    case Body(n, rest) =>
      HookedAfter(e, h, insns, rest, RunView(e, v, insns, n, p), Run(e.other, p, n),
                  Run(e.other, t, RunSteps(e, v, insns, n, p)))
    case Enter(_, u, rest) => HookedAfter(e, h, insns, rest, Entering(v, p.c.sp, None), p, Run(e.other, u, 23))
    case Call(_, _, _, inner, x, rest) =>
      var q := PlainAfter(e, inner, p);
      HookedAfter(e, h, insns, rest, Leaving(TraceView(e, h, insns, inner, Inside(h, v, p), p), q.c.sp), q,
                  Run(e.other, x, 22))
  }

  /** Where the hooked machine is behind the trace, from `goal`. */
  ghost function TraceGoal(e: Env, h: Hook, insns: seq<DecodedInsn>, tr: Trace, v: View, p: State, goal: int): int
    requires |insns| == 4 && 0 <= e.lo < P64 && h.Valid()
  {
    match tr
    case Stop => goal
    case Body(n, rest) =>
      TraceGoal(e, h, insns, rest, RunView(e, v, insns, n, p), Run(e.other, p, n), RunGoal(e, v, insns, n, p))
    case Enter(_, _, rest) => TraceGoal(e, h, insns, rest, Entering(v, p.c.sp, None), p, e.lo)
    case Call(_, _, _, inner, _, rest) =>
      var q := PlainAfter(e, inner, p);
      TraceGoal(e, h, insns, rest, Leaving(TraceView(e, h, insns, inner, Inside(h, v, p), p), q.c.sp), q, q.pc)
  }

  /** Whether a call in the trace is redirected. */
  predicate Redirecting(tr: Trace) {
    match tr
    case Stop => false
    case Body(_, rest) => Redirecting(rest)
    case Enter(_, _, rest) => Redirecting(rest)
    case Call(_, _, _, _, _, _) => true
  }

  /** Both machines are at the function's entry, with the same return address. */
  ghost predicate AtEntry(e: Env, h: Hook, v: View, p: State, goal: int) {
    p.pc == e.target == goal && 30 !in v.scratch && FrameClear(e, h, p.c.sp)
  }

  /** The enter dispatcher, entered from `t`, returns in `u` with what the registry says. */
  ghost predicate EnterServed(e: Env, h: Hook, hooks: Hooks, tid: Tid, t: State, u: State) {
    var a := Run(e.other, t, 24);
    Dispatches(e, h, a, u, EnterAnswer(hooks, tid, a))
  }

  ghost predicate LeaveServed(e: Env, h: Hook, hooks: Hooks, tid: Tid, r: State, x: State) {
    var a := Run(e.other, r, 22);
    Dispatches(e, h, a, x, LeaveAnswer(hooks, tid, a))
  }

  /** A redirected call from its entry to the leave thunk, which it comes to when it returns to its own caller. */
  ghost predicate CallTraced(e: Env, h: Hook, insns: seq<DecodedInsn>, tid: Tid, v: View, p: State, t: State,
                             before: seq<DispatchRuns.Action>, during: seq<DispatchRuns.Action>, u: State,
                             inner: Trace, x: State)
    requires |insns| == 4 && 0 <= e.lo < P64 && h.Valid()
    decreases inner, 1
  {
    var q := PlainAfter(e, inner, p);
    && CallLeaves(before, during, tid, h.id, p.c.x[30])
    && (h.id in HooksBefore(before) ==> HooksBefore(before)[h.id].leaveThunk == h.page + LEAVE_OFF)
    && EnterServed(e, h, HooksBefore(before), tid, t, u)
    && Traced(e, h, insns, tid, inner, Inside(h, v, p), p, e.lo, Run(e.other, u, 23))
    && TraceGoal(e, h, insns, inner, Inside(h, v, p), p, e.lo) == h.page + LEAVE_OFF
    && q.pc == p.c.x[30] && FrameClear(e, h, q.c.sp)
    && LeaveServed(e, h, HooksAfter(before, during, tid, h.id, p.c.x[30]), tid,
                   HookedAfter(e, h, insns, inner, Inside(h, v, p), p, Run(e.other, u, 23)), x)
  }

  /**
   * The unhooked machine looks at nothing that differs, calls return to their callers while their hook is
   * there, and the dispatchers answer as the registry says.
   */
  ghost predicate Traced(e: Env, h: Hook, insns: seq<DecodedInsn>, tid: Tid, tr: Trace, v: View, p: State, goal: int,
                         t: State)
    requires |insns| == 4 && 0 <= e.lo < P64 && h.Valid()
    decreases tr, 0
  {
    match tr
    case Stop => true
    case Body(n, rest) =>
      && OnWord(e, p.pc) && goal == Twin(e, insns, p.pc) && TwinRuns(e, v, insns, n, p)
      && Traced(e, h, insns, tid, rest, RunView(e, v, insns, n, p), Run(e.other, p, n), RunGoal(e, v, insns, n, p),
                Run(e.other, t, RunSteps(e, v, insns, n, p)))
    case Enter(hooks, u, rest) =>
      && AtEntry(e, h, v, p, goal) && !Redirects(hooks, h.id) && EnterServed(e, h, hooks, tid, t, u)
      && Traced(e, h, insns, tid, rest, Entering(v, p.c.sp, None), p, e.lo, Run(e.other, u, 23))
    case Call(before, during, u, inner, x, rest) =>
      var q := PlainAfter(e, inner, p);
      && AtEntry(e, h, v, p, goal) && CallTraced(e, h, insns, tid, v, p, t, before, during, u, inner, x)
      && h.id in HooksAfter(before, during, tid, h.id, p.c.x[30])
      && Traced(e, h, insns, tid, rest, Leaving(TraceView(e, h, insns, inner, Inside(h, v, p), p), q.c.sp), q, q.pc,
                Run(e.other, x, 22))
  }

  /** The hook's code on the hooked machine, with a leave thunk if calls are redirected. */
  ghost predicate Hooked(e: Env, h: Hook, insns: seq<DecodedInsn>, leaves: bool, m: Mem, n: Mem)
    requires h.Valid()
  {
    Patched(e, h, insns, m, n) && (leaves ==> LeaveIn(h, n))
  }

  /** The machines are alike, the hooked one at `goal`. */
  ghost predicate Meets(e: Env, h: Hook, insns: seq<DecodedInsn>, leaves: bool, v: View, p: State, t: State, goal: int)
    requires h.Valid()
  {
    v.Of(e) && Alike(e, v, p.c, t.c) && t.pc == goal && Hooked(e, h, insns, leaves, p.c.mem, t.c.mem)
  }

  lemma HookStays(e: Env, h: Hook, insns: seq<DecodedInsn>, leaves: bool, m: Mem, n: Mem, m': Mem, n': Mem)
    requires Describes(e, h, insns) && Hooked(e, h, insns, leaves, m, n)
    requires CodeKept(e, n, n') && BlockInstalled(e, insns, m', n')
    ensures Hooked(e, h, insns, leaves, m', n')
  {
    hide Read32, EncodeAbsBranch, BlockInstalled, BlockWords, EnterIn, LeaveIn, Get;
    PageBelow(e, h, insns);
    HoldsSame(n, n', e.target, EncodeAbsBranch(h.page));
    EnterStays(h, n, n');
    if leaves {
      LeaveStays(h, n, n');
    }
  }

  lemma PageBelow(e: Env, h: Hook, insns: seq<DecodedInsn>)
    requires Describes(e, h, insns)
    ensures e.page == h.page && h.page + RELOC_OFF <= e.hi <= h.page + PAGE
  {
    hide BlockWords;
    BlockInPage(e, h, insns);
  }

  lemma ThunkKeepsCode(e: Env, h: Hook, insns: seq<DecodedInsn>, sp: int, m: Mem, n: Mem)
    requires Describes(e, h, insns) && ThunkKeeps(e, h, sp, m, n)
    ensures CodeKept(e, m, n) && SameOn(m, n, e.lo, e.hi)
  {
    hide BlockWords, Get;
    BlockInPage(e, h, insns);
  }

  lemma BodyMeets(e: Env, h: Hook, insns: seq<DecodedInsn>, leaves: bool, v: View, p: State, t: State, goal: int,
                  n: nat)
    requires |insns| == 4 && 0 <= e.lo < P64 && Describes(e, h, insns)
    requires Meets(e, h, insns, leaves, v, p, t, goal)
    requires OnWord(e, p.pc) && goal == Twin(e, insns, p.pc) && TwinRuns(e, v, insns, n, p)
    ensures Meets(e, h, insns, leaves, RunView(e, v, insns, n, p), Run(e.other, p, n),
                  Run(e.other, t, RunSteps(e, v, insns, n, p)), RunGoal(e, v, insns, n, p))
  {
    hide View.Of, Alike, BlockInstalled, Run, TwinRuns, RunView, RunGoal, RunSteps, CodeKept, EnterIn, LeaveIn;
    hide Describes, Twin, Holds, EncodeAbsBranch;
    TwinsRun(e, v, insns, n, p, t);
    HookStays(e, h, insns, leaves, p.c.mem, t.c.mem, Run(e.other, p, n).c.mem,
              Run(e.other, t, RunSteps(e, v, insns, n, p)).c.mem);
  }

  lemma EntryMeets(e: Env, h: Hook, insns: seq<DecodedInsn>, leaves: bool, v: View, p: State, t: State, goal: int,
                   u: State, lr: u64)
    requires |insns| == 4 && 0 <= e.lo < P64 && Describes(e, h, insns) && !h.replaceMode
    requires Meets(e, h, insns, leaves, v, p, t, goal) && AtEntry(e, h, v, p, goal)
    requires Dispatches(e, h, Run(e.other, t, 24), u, lr)
    ensures Meets(e, h, insns, leaves, Entering(v, p.c.sp, Redirected(p.c.x[30], lr)), p, Run(e.other, u, 23), e.lo)
  {
    hide View.Of, BlockInstalled, Run, EnterIn, LeaveIn, Dispatches, Entering, Redirected, RegsHold, SlotsHold;
    hide BlockWords, Holds, EncodeAbsBranch, ThunkKeeps, CodeKept, SlotPc, SameSeen;
    EnterAlike(e, h, insns, v, p, t, u, lr);
    ThunkKeepsCode(e, h, insns, t.c.sp, t.c.mem, Run(e.other, u, 23).c.mem);
    HookStays(e, h, insns, leaves, p.c.mem, t.c.mem, p.c.mem, Run(e.other, u, 23).c.mem);
    FirstSlot(insns, e.lo);
  }

  /** A call that the registry leaves alone keeps its return address. */
  lemma OwnLinkKept(e: Env, h: Hook, insns: seq<DecodedInsn>, leaves: bool, v: View, p: State, t: State, goal: int,
                    hooks: Hooks, tid: Tid)
    requires Describes(e, h, insns) && h.id < 0x1_0000 && !Redirects(hooks, h.id)
    requires Meets(e, h, insns, leaves, v, p, t, goal) && AtEntry(e, h, v, p, goal)
    ensures EnterAnswer(hooks, tid, Run(e.other, t, 24)) == p.c.x[30]
  {
    hide BlockInstalled, Run, EnterIn, LeaveIn, SlotsHold, RegsHold, SameSeen, BlockWords, Holds, EncodeAbsBranch;
    hide IdPassed, LinkPassed, View.Of;
    EnterArrives(e.other, h, t);
    SmallId(h.id);
  }

  /** A call that it redirects is given the leave thunk's. */
  lemma LinkRedirected(e: Env, h: Hook, insns: seq<DecodedInsn>, leaves: bool, v: View, p: State, t: State, goal: int,
                       before: seq<DispatchRuns.Action>, during: seq<DispatchRuns.Action>, tid: Tid)
    requires Describes(e, h, insns) && h.id < 0x1_0000
    requires Meets(e, h, insns, leaves, v, p, t, goal) && AtEntry(e, h, v, p, goal)
    requires CallLeaves(before, during, tid, h.id, p.c.x[30])
    requires h.id in HooksBefore(before) ==> HooksBefore(before)[h.id].leaveThunk == h.page + LEAVE_OFF
    ensures EnterAnswer(HooksBefore(before), tid, Run(e.other, t, 24)) == h.page + LEAVE_OFF
  {
    hide BlockInstalled, Run, EnterIn, LeaveIn, SlotsHold, RegsHold, SameSeen, BlockWords, Holds, EncodeAbsBranch;
    hide IdPassed, LinkPassed, View.Of, CallLeaves, HooksBefore, HooksAfter;
    EnterArrives(e.other, h, t);
    SmallId(h.id);
    LeaveAnswers(before, during, tid, h.id, p.c.x[30], Run(e.other, t, 24));
  }

  /** A redirected call, from its entry into the block. */
  lemma CallEnters(e: Env, h: Hook, insns: seq<DecodedInsn>, tid: Tid, v: View, p: State, t: State, goal: int,
                   before: seq<DispatchRuns.Action>, during: seq<DispatchRuns.Action>, u: State, inner: Trace,
                   x: State)
    requires |insns| == 4 && 0 <= e.lo < P64 && Describes(e, h, insns) && !h.replaceMode && h.id < 0x1_0000
    requires Meets(e, h, insns, true, v, p, t, goal) && AtEntry(e, h, v, p, goal)
    requires CallTraced(e, h, insns, tid, v, p, t, before, during, u, inner, x)
    ensures Meets(e, h, insns, true, Inside(h, v, p), p, Run(e.other, u, 23), e.lo)
    ensures Traced(e, h, insns, tid, inner, Inside(h, v, p), p, e.lo, Run(e.other, u, 23))
  {
    hide Meets, Dispatches, Traced, TraceGoal, Run, CallLeaves, HooksBefore, HooksAfter, Entering, Redirected;
    hide EnterAnswer, LeaveServed, HookedAfter, PlainAfter, AtEntry, Describes;
    LinkRedirected(e, h, insns, true, v, p, t, goal, before, during, tid);
    EntryMeets(e, h, insns, true, v, p, t, goal, u, h.page + LEAVE_OFF);
  }

  /**
   * A redirected call, from the leave thunk on: to its own caller if and only if the hook is still
   * registered, else to the link that the body returned with.
   */
  lemma CallReturns(e: Env, h: Hook, insns: seq<DecodedInsn>, tid: Tid, v: View, q: State, r: State,
                    before: seq<DispatchRuns.Action>, during: seq<DispatchRuns.Action>, link: u64, x: State)
    requires Describes(e, h, insns) && h.id < 0x1_0000 && FrameClear(e, h, q.c.sp)
    requires Meets(e, h, insns, true, v, q, r, h.page + LEAVE_OFF)
    requires CallLeaves(before, during, tid, h.id, link)
    requires LeaveServed(e, h, HooksAfter(before, during, tid, h.id, link), tid, r, x)
    ensures var back := if h.id in HooksAfter(before, during, tid, h.id, link) then link else r.c.x[30];
      Meets(e, h, insns, true, Leaving(v, q.c.sp), q, Run(e.other, x, 22), back)
  {
    hide BlockInstalled, Run, EnterIn, LeaveIn, SlotsHold, RegsHold, SameSeen, BlockWords, Holds, EncodeAbsBranch;
    hide IdPassed, LinkPassed, View.Of, CallLeaves, HooksAfter, Dispatches, LeaveAnswer, ThunkKeeps, Leaving, CodeKept;
    LeaveArrives(e.other, h, r);
    SmallId(h.id);
    LeaveAnswers(before, during, tid, h.id, link, Run(e.other, r, 22));
    var back := if h.id in HooksAfter(before, during, tid, h.id, link) then link else r.c.x[30];
    LeaveAlike(e, h, v, q.c, r, x, back);
    var z := Run(e.other, x, 22);
    ThunkKeepsCode(e, h, insns, r.c.sp, r.c.mem, z.c.mem);
    InstalledAfter(e, insns, q.c.mem, q.c.mem, r.c.mem, z.c.mem);
    HookStays(e, h, insns, true, q.c.mem, r.c.mem, q.c.mem, z.c.mem);
  }

  /**
   * The hooked program follows the unhooked one. Whatever the program does, calls of the hooked function
   * and calls within them included, and whatever other threads do to the registry, the hooked machine comes
   * to where the unhooked machine comes, and they are alike: registers, flags, vectors and memory are the
   * same but for links, for what a call may destroy, and for the hook's own memory.
   */
  lemma {:induction false} ProgramFollows(e: Env, h: Hook, insns: seq<DecodedInsn>, tid: Tid, leaves: bool, tr: Trace,
                                          v: View, p: State, goal: int, t: State)
    requires |insns| == 4 && 0 <= e.lo < P64 && h.Valid()
    requires Describes(e, h, insns) && !h.replaceMode && h.id < 0x1_0000
    requires Meets(e, h, insns, leaves, v, p, t, goal) && (Redirecting(tr) ==> leaves)
    requires Traced(e, h, insns, tid, tr, v, p, goal, t)
    ensures Meets(e, h, insns, leaves, TraceView(e, h, insns, tr, v, p), PlainAfter(e, tr, p),
                  HookedAfter(e, h, insns, tr, v, p, t), TraceGoal(e, h, insns, tr, v, p, goal))
    decreases tr
  {
    hide Meets, Run, Describes, Dispatches, CallLeaves, HooksBefore, HooksAfter, Entering, Leaving, Inside, AtEntry;
    hide EnterAnswer, LeaveAnswer, TwinRuns, RunView, RunSteps, RunGoal, Twin, FrameClear, LeaveServed;
    match tr
    case Stop =>
    case Body(n, rest) =>
      BodyMeets(e, h, insns, leaves, v, p, t, goal, n);
      ProgramFollows(e, h, insns, tid, leaves, rest, RunView(e, v, insns, n, p), Run(e.other, p, n),
                     RunGoal(e, v, insns, n, p), Run(e.other, t, RunSteps(e, v, insns, n, p)));
    case Enter(hooks, u, rest) =>
      OwnLinkKept(e, h, insns, leaves, v, p, t, goal, hooks, tid);
      EntryMeets(e, h, insns, leaves, v, p, t, goal, u, p.c.x[30]);
      ProgramFollows(e, h, insns, tid, leaves, rest, Entering(v, p.c.sp, None), p, e.lo, Run(e.other, u, 23));
    case Call(before, during, u, inner, x, rest) =>
      CallEnters(e, h, insns, tid, v, p, t, goal, before, during, u, inner, x);
      var v1, w := Inside(h, v, p), Run(e.other, u, 23);
      ProgramFollows(e, h, insns, tid, leaves, inner, v1, p, e.lo, w);
      var v2, q := TraceView(e, h, insns, inner, v1, p), PlainAfter(e, inner, p);
      var r := HookedAfter(e, h, insns, inner, v1, p, w);
      CallReturns(e, h, insns, tid, v2, q, r, before, during, p.c.x[30], x);
      ProgramFollows(e, h, insns, tid, leaves, rest, Leaving(v2, q.c.sp), q, q.pc, Run(e.other, x, 22));
  }

  // ---------- one call ----------

  /**
   * A redirected call of the hooked function: `p` is the unhooked machine at its entry and `s` the hooked
   * one, called alike by the same caller. When the unhooked machine has come back to that caller, in `q`,
   * the hooked one has been through both dispatchers and is in `z`, alike; and it is back at the caller, too,
   * if and only if the hook is still registered. If it is not, it is where its body's link leads.
   */
  lemma CallThroughRegistry(e: Env, h: Hook, insns: seq<DecodedInsn>, tid: Tid, v: View, p: State, s: State,
                            before: seq<DispatchRuns.Action>, during: seq<DispatchRuns.Action>, u: State,
                            inner: Trace, x: State)
    requires |insns| == 4 && 0 <= e.lo < P64 && h.Valid()
    requires Describes(e, h, insns) && !h.replaceMode && h.id < 0x1_0000
    requires Meets(e, h, insns, true, v, p, s, e.target) && AtEntry(e, h, v, p, e.target)
    requires CallTraced(e, h, insns, tid, v, p, s, before, during, u, inner, x)
    ensures var q, z := PlainAfter(e, inner, p), Run(e.other, x, 22);
      var w := TraceView(e, h, insns, inner, Inside(h, v, p), p);
      && q.pc == p.c.x[30] == s.c.x[30]
      && Leaving(w, q.c.sp).Of(e) && Alike(e, Leaving(w, q.c.sp), q.c, z.c)
      && (h.id in HooksAfter(before, during, tid, h.id, p.c.x[30]) ==> z.pc == q.pc)
      && (30 in w.regs && w.regs[30].hooked != q.pc && z.pc == q.pc ==>
            h.id in HooksAfter(before, during, tid, h.id, p.c.x[30]))
  {
    hide Run, Describes, Dispatches, CallLeaves, HooksBefore, HooksAfter, Entering, Leaving, Inside;
    hide EnterAnswer, LeaveAnswer, LeaveServed, Hooked, FrameClear, SlotsHold, SameSeen;
    CallEnters(e, h, insns, tid, v, p, s, e.target, before, during, u, inner, x);
    var v1, w := Inside(h, v, p), Run(e.other, u, 23);
    ProgramFollows(e, h, insns, tid, true, inner, v1, p, e.lo, w);
    var v2, q := TraceView(e, h, insns, inner, v1, p), PlainAfter(e, inner, p);
    var r := HookedAfter(e, h, insns, inner, v1, p, w);
    CallReturns(e, h, insns, tid, v2, q, r, before, during, p.c.x[30], x);
  }

  /** The bytes that differ for good: thunk frames below the stack pointer, and where links were stored. */
  ghost function TraceTrail(e: Env, h: Hook, insns: seq<DecodedInsn>, tr: Trace, v: View, p: State): iset<int>
    requires |insns| == 4 && 0 <= e.lo < P64 && h.Valid()
  {
    match tr
    case Stop => iset{}
    case Body(n, rest) =>
      Trail(e, v, insns, n, p) + TraceTrail(e, h, insns, rest, RunView(e, v, insns, n, p), Run(e.other, p, n))
    case Enter(_, _, rest) =>
      FrameBytes(p.c.sp) + TraceTrail(e, h, insns, rest, Entering(v, p.c.sp, None), p)
    case Call(_, _, _, inner, _, rest) =>
      var q := PlainAfter(e, inner, p);
      FrameBytes(p.c.sp) + TraceTrail(e, h, insns, inner, Inside(h, v, p), p) + FrameBytes(q.c.sp)
      + TraceTrail(e, h, insns, rest, Leaving(TraceView(e, h, insns, inner, Inside(h, v, p), p), q.c.sp), q)
  }

  predicate InFrame(sp: int, a: int) { sp - FRAME <= a < sp }

  ghost function FrameBytes(sp: int): iset<int> { iset a | InFrame(sp, a) }

  lemma SpilledAdds(v: View, sp: int, l: Option<Link>)
    ensures forall a :: a in Entering(v, sp, l).hidden ==> a in v.hidden || a in FrameBytes(sp)
    ensures forall a :: a in Leaving(v, sp).hidden ==> a in v.hidden || a in FrameBytes(sp)
    ensures Tidy(v) ==> Tidy(Entering(v, sp, l)) && Tidy(Leaving(v, sp))
  {}

  lemma {:induction false} TraceAdds(e: Env, h: Hook, insns: seq<DecodedInsn>, tr: Trace, v: View, p: State)
    requires |insns| == 4 && 0 <= e.lo < P64 && h.Valid()
    ensures forall a :: a in TraceView(e, h, insns, tr, v, p).hidden ==>
              a in v.hidden || a in TraceTrail(e, h, insns, tr, v, p)
    ensures Tidy(v) ==> Tidy(TraceView(e, h, insns, tr, v, p))
    decreases tr
  {
    hide Run, RunView, Trail, Entering, Leaving, FrameBytes, Tidy, Redirected;
    match tr
    case Stop =>
    case Body(n, rest) =>
      RunAdds(e, v, insns, n, p);
      TraceAdds(e, h, insns, rest, RunView(e, v, insns, n, p), Run(e.other, p, n));
    case Enter(_, _, rest) =>
      SpilledAdds(v, p.c.sp, None);
      TraceAdds(e, h, insns, rest, Entering(v, p.c.sp, None), p);
    case Call(_, _, _, inner, _, rest) =>
      var v1, q := Inside(h, v, p), PlainAfter(e, inner, p);
      SpilledAdds(v, p.c.sp, Redirected(p.c.x[30], h.page + LEAVE_OFF));
      TraceAdds(e, h, insns, inner, v1, p);
      var v2 := TraceView(e, h, insns, inner, v1, p);
      SpilledAdds(v2, q.c.sp, None);
      TraceAdds(e, h, insns, rest, Leaving(v2, q.c.sp), q);
  }

  /** Nothing differs but what a call may destroy and what is hidden anyway. */
  function Fresh(e: Env): View { View({16, 17}, e.hidden, map[], map[]) }

  /**
   * `c` and `d` are the same as far as `w` goes: stack pointer, flags, vectors, the bytes that are not hidden,
   * and every register but X16, X17 and X30, except those in which a link was left.
   */
  ghost predicate SameBut(w: View, c: Core, d: Core) {
    && c.sp == d.sp && c.nzcv == d.nzcv && c.q == d.q
    && (forall n :: 0 <= n < 30 && n != 16 && n != 17 ==>
          c.x[n] == d.x[n] || (n in w.regs && c.x[n] == w.regs[n].plain && d.x[n] == w.regs[n].hooked))
    && (forall a :: a !in w.hidden ==> Get(d.mem, a) == Get(c.mem, a))
  }

  lemma AlikeIsSameBut(e: Env, w: View, c: Core, d: Core)
    requires Tidy(w) && Alike(e, w, c, d)
    ensures SameBut(w, c, d)
    ensures w.regs.Keys <= {16, 17, 30} ==> SameRegisters(c, d)
  {
    hide Read64, Get, SlotsHold;
  }

  lemma FreshAlike(e: Env, c: Core, d: Core)
    requires e.scratch == {16, 17} && Agree(e, c, d)
    ensures Fresh(e).Of(e) && Alike(e, Fresh(e), c, d) && Tidy(Fresh(e)) && 30 !in Fresh(e).scratch
  {}

  /**
   * A hooked call is transparent: from machines that agree, return address included, the hooked machine
   * comes back to the same caller as the unhooked one, with the same registers, stack pointer, flags and
   * vectors, and the same memory. What may differ are X16, X17 and X30, registers in which the function left
   * its return address, and the bytes below the stack pointer or where a link was stored.
   */
  lemma HookedCallIsTransparent(e: Env, h: Hook, insns: seq<DecodedInsn>, tid: Tid, p: State, s: State,
                                before: seq<DispatchRuns.Action>, during: seq<DispatchRuns.Action>, u: State,
                                inner: Trace, x: State)
    requires |insns| == 4 && 0 <= e.lo < P64 && h.Valid()
    requires Describes(e, h, insns) && !h.replaceMode && h.id < 0x1_0000 && e.scratch == {16, 17}
    requires p.pc == s.pc == e.target && Agree(e, p.c, s.c) && FrameClear(e, h, p.c.sp)
    requires Hooked(e, h, insns, true, p.c.mem, s.c.mem)
    requires CallTraced(e, h, insns, tid, Fresh(e), p, s, before, during, u, inner, x)
    requires h.id in HooksAfter(before, during, tid, h.id, p.c.x[30])
    ensures var q, z := PlainAfter(e, inner, p), Run(e.other, x, 22);
      var w := Leaving(TraceView(e, h, insns, inner, Inside(h, Fresh(e), p), p), q.c.sp);
      && z.pc == q.pc == s.c.x[30]
      && SameBut(w, q.c, z.c) && (w.regs == map[] ==> SameRegisters(q.c, z.c))
      && (forall a :: a in w.hidden ==> a in e.hidden || a in FrameBytes(p.c.sp) || a in FrameBytes(q.c.sp)
                                        || a in TraceTrail(e, h, insns, inner, Inside(h, Fresh(e), p), p))
  {
    hide Run, Describes, Dispatches, CallLeaves, HooksBefore, HooksAfter, Hooked, FrameClear, CallTraced, TraceView,
         TraceTrail, PlainAfter, Entering, Leaving, Redirected, SameBut, FrameBytes, Alike, Agree, Tidy, View.Of;
    FreshAlike(e, p.c, s.c);
    CallThroughRegistry(e, h, insns, tid, Fresh(e), p, s, before, during, u, inner, x);
    var v1, q, z := Inside(h, Fresh(e), p), PlainAfter(e, inner, p), Run(e.other, x, 22);
    var w := TraceView(e, h, insns, inner, v1, p);
    SpilledAdds(Fresh(e), p.c.sp, Redirected(p.c.x[30], h.page + LEAVE_OFF));
    TraceAdds(e, h, insns, inner, v1, p);
    SpilledAdds(w, q.c.sp, None);
    AlikeIsSameBut(e, Leaving(w, q.c.sp), q.c, z.c);
  }

  /**
   * A call through a hook that does not want to see the return, which need not have a leave thunk: when the
   * unhooked machine has come back to its caller, so has the hooked one, with the same registers and memory.
   */
  lemma EnterOnlyThroughRegistry(e: Env, h: Hook, insns: seq<DecodedInsn>, tid: Tid, p: State, s: State, hooks: Hooks,
                                 u: State, inner: Trace)
    requires |insns| == 4 && 0 <= e.lo < P64 && h.Valid()
    requires Describes(e, h, insns) && !h.replaceMode && h.id < 0x1_0000 && e.scratch == {16, 17}
    requires p.pc == s.pc == e.target && Agree(e, p.c, s.c) && FrameClear(e, h, p.c.sp)
    requires Hooked(e, h, insns, false, p.c.mem, s.c.mem) && !Redirecting(inner)
    requires Traced(e, h, insns, tid, Enter(hooks, u, inner), Fresh(e), p, e.target, s)
    requires PlainAfter(e, inner, p).pc == p.c.x[30]
    requires TraceGoal(e, h, insns, inner, Entering(Fresh(e), p.c.sp, None), p, e.lo) == p.c.x[30]
    ensures var q, z := PlainAfter(e, inner, p), HookedAfter(e, h, insns, Enter(hooks, u, inner), Fresh(e), p, s);
      var w := TraceView(e, h, insns, inner, Entering(Fresh(e), p.c.sp, None), p);
      && z.pc == q.pc == s.c.x[30]
      && SameBut(w, q.c, z.c) && (w.regs == map[] ==> SameRegisters(q.c, z.c))
      && (forall a :: a in w.hidden ==> a in e.hidden || a in FrameBytes(p.c.sp)
                                        || a in TraceTrail(e, h, insns, inner, Entering(Fresh(e), p.c.sp, None), p))
  {
    hide Run, Describes, Dispatches, Hooked, FrameClear, Traced, SameBut, FrameBytes, Entering, Tidy, View.Of, RegsHold,
         SlotsHold, SameSeen;
    FreshAlike(e, p.c, s.c);
    var tr, v1 := Enter(hooks, u, inner), Entering(Fresh(e), p.c.sp, None);
    ProgramFollows(e, h, insns, tid, false, tr, Fresh(e), p, e.target, s);
    SpilledAdds(Fresh(e), p.c.sp, None);
    TraceAdds(e, h, insns, inner, v1, p);
    AlikeIsSameBut(e, TraceView(e, h, insns, inner, v1, p), PlainAfter(e, inner, p).c,
                   HookedAfter(e, h, insns, tr, Fresh(e), p, s).c);
  }
}
