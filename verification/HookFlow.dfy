/**
 * A hooked call from end to end. The dispatchers are code outside the model: they enter as the states
 * that they return in, constrained by what they do to the saved context. The body runs on the machine.
 */
module HookFlow {
  import opened Words
  import opened Options
  import opened Memory
  import opened A64
  import opened Decoder
  import opened Encode
  import opened Relocator
  import opened Relocation
  import opened Links
  import opened Twins
  import opened Thunks
  import opened ThunkRuns
  import Dispatch

  /** The code of a thunk: `n` words from `pc`, all of them intact in `m`. */
  ghost predicate ThunkIn(m: Mem, pc: int, id: u32, dispatch: u64, tail: seq<u32>) {
    Holds(m, pc, SpillAndCall(id, dispatch) + Restore() + tail)
  }

  lemma ThunkParts(m: Mem, pc: int, id: u32, dispatch: u64, tail: seq<u32>)
    requires ThunkIn(m, pc, id, dispatch, tail)
    ensures Holds(m, pc, SpillAndCall(id, dispatch))
    ensures Read32(m, pc + 88) == 0x1400_0003
    ensures Holds(m, pc + 100, Restore())
    ensures Holds(m, pc + 180, tail)
  {
    hide Read32, PairWords, MovHookId;
    var ws := SpillAndCall(id, dispatch) + Restore() + tail;
    assert Read32(m, pc + 4 * 22) == ws[22];
    assert ws[22] == BlrAbs(dispatch)[2];
    HoldsPart(m, pc, ws, 0, 25);
    assert ws[0..25] == SpillAndCall(id, dispatch);
    HoldsPart(m, pc, ws, 25, 45);
    assert ws[25..45] == Restore();
    HoldsPart(m, pc, ws, 45, |ws|);
    assert ws[45..|ws|] == tail;
  }

  /** The value of register `n` behind the thunk, out of the context as the dispatcher left it. */
  function FromContext(m: Mem, f: int, n: int): u64 {
    if n == 29 then Read64(m, f + 256)
    else if n == 16 then Read64(m, f + 240)
    else Read64(m, f + 8 * n)
  }

  /**
   * From the dispatcher's return to the thunk's last word: the registers are what the context slots
   * hold, except that X16 is the redirected link and X29 is reloaded from the word above the slots, so
   * a callback's write to slot 29 is lost and one to the following `pc` field changes X29.
   */
  lemma ThunkResumes(other: Uninterpreted, u: State, pc: int, n: nat, id: u32, dispatch: u64, tail: seq<u32>)
    requires n == 45 + |tail| && Apart(pc, n, u.c.sp) && u.pc == pc + 88
    requires ThunkIn(u.c.mem, pc, id, dispatch, tail)
    ensures var f, w := u.c.sp, Run(other, u, 21);
      && w.pc == pc + 180 && w.c.sp == f + FRAME
      && (forall k :: 0 <= k < 31 ==> w.c.x[k] == FromContext(u.c.mem, f, k))
      && ThunkIn(w.c.mem, pc, id, dispatch, tail)
      && SameOff(u.c.mem, w.c.mem, f, f + FRAME)
  {
    hide Read32, Read64, Run, Restore, SpillAndCall, Get;
    ThunkParts(u.c.mem, pc, id, dispatch, tail);
    SkipAddressRuns(other, u);
    var a := Run(other, u, 1);
    RestoreCodeRuns(other, a);
    RunThen(other, u, 1, 20);
    var w := Run(other, u, 21);
    HoldsSame(u.c.mem, w.c.mem, pc, SpillAndCall(id, dispatch) + Restore() + tail);
  }

  // ---------- the scratch page ----------

  const LEAVE_OFF: int := 256
  const RELOC_OFF: int := 512
  const PAGE: int := 4096

  /** What a hook's page holds; a replaced function returns from the enter thunk itself. */
  datatype Hook = Hook(id: Dispatch.HookId, enter: u64, leave: u64, replaceMode: bool, page: u64)
  {
    predicate Valid() { page % 4 == 0 && page + PAGE < P64 }

    function EnterTail(): (ws: seq<u32>)
      requires Valid()
      ensures |ws| <= 4
    {
      if replaceMode then [RET_X30] else EncodeAbsBranch(page + RELOC_OFF)
    }
  }

  ghost predicate EnterIn(h: Hook, m: Mem)
    requires h.Valid()
  {
    ThunkIn(m, h.page, h.id, h.enter, h.EnterTail())
  }

  /** Only a hook that wants to see the return has a leave thunk. */
  ghost predicate LeaveIn(h: Hook, m: Mem)
    requires h.Valid()
  {
    ThunkIn(m, h.page + LEAVE_OFF, h.id, h.leave, [RET_X30])
  }

  /** The frame below `sp` and the hook's page lie apart. */
  predicate StackApart(h: Hook, sp: u64) {
    && FRAME <= sp
    && (sp <= h.page || h.page + PAGE <= sp - FRAME)
  }

  lemma EnterStays(h: Hook, m: Mem, n: Mem)
    requires h.Valid() && EnterIn(h, m) && SameOn(m, n, h.page, h.page + LEAVE_OFF)
    ensures EnterIn(h, n)
  {
    hide Read32, SpillAndCall, Restore, Get;
    HoldsSame(m, n, h.page, SpillAndCall(h.id, h.enter) + Restore() + h.EnterTail());
  }

  lemma LeaveStays(h: Hook, m: Mem, n: Mem)
    requires h.Valid() && LeaveIn(h, m) && SameOn(m, n, h.page + LEAVE_OFF, h.page + RELOC_OFF)
    ensures LeaveIn(h, n)
  {
    hide Read32, SpillAndCall, Restore, Get;
    HoldsSame(m, n, h.page + LEAVE_OFF, SpillAndCall(h.id, h.leave) + Restore() + [RET_X30]);
  }

  /** A dispatcher that leaves the context alone but for the link register, which becomes `lr`. */
  ghost predicate OnlyLink(h: Hook, t: State, u: State, lr: u64) {
    && u.pc == t.c.x[30]
    && u.c.sp == t.c.sp
    && (forall n :: 0 <= n < 30 ==> Read64(u.c.mem, t.c.sp + 8 * n) == Read64(t.c.mem, t.c.sp + 8 * n))
    && Read64(u.c.mem, t.c.sp + 240) == lr
    && SameOn(t.c.mem, u.c.mem, t.c.sp + 256, t.c.sp + FRAME)
    && SameOn(t.c.mem, u.c.mem, h.page, h.page + PAGE)
  }

  /** The registers a call may not lose: all but X16, X17 and X30, and the stack pointer. */
  predicate SameRegisters(c: Core, d: Core) {
    && c.sp == d.sp
    && (forall n :: 0 <= n < 30 && n != 16 && n != 17 ==> c.x[n] == d.x[n])
  }

  /**
   * Spill, dispatch and restore around a dispatcher that leaves the context alone: every register a
   * call may not lose is back, X16 and X30 hold the dispatcher's link, and the thunk's tail is next.
   * `at` is the thunk's offset in the page.
   */
  lemma ThunkTransparent(other: Uninterpreted, h: Hook, at: int, dispatch: u64, tail: seq<u32>, s: State, u: State,
                         lr: u64)
    requires h.Valid() && StackApart(h, s.c.sp) && 0 <= at && at + 4 * (45 + |tail|) <= RELOC_OFF
    requires s.pc == h.page + at && ThunkIn(s.c.mem, s.pc, h.id, dispatch, tail)
    requires OnlyLink(h, Run(other, s, 22), u, lr)
    ensures Dispatched(s, Run(other, s, 22), h.id, dispatch)
    ensures var w := Run(other, u, 21);
      && w.pc == s.pc + 180 && SameRegisters(s.c, w.c) && w.c.x[30] == lr
      && ThunkIn(w.c.mem, s.pc, h.id, dispatch, tail)
      && SameOff(u.c.mem, w.c.mem, s.c.sp - FRAME, s.c.sp)
  {
    hide Read32, Read64, Run, Restore, SpillAndCall, Get, Holds;
    var f := s.c.sp - FRAME;
    ThunkParts(s.c.mem, s.pc, h.id, dispatch, tail);
    SpillAndCallRuns(other, s, h.id, dispatch);
    var t := Run(other, s, 22);
    HoldsSame(s.c.mem, u.c.mem, s.pc, SpillAndCall(h.id, dispatch) + Restore() + tail);
    ThunkResumes(other, u, s.pc, 45 + |tail|, h.id, dispatch, tail);
    var w := Run(other, u, 21);
    Read64Same(t.c.mem, u.c.mem, f + 256);
    forall n | 0 <= n < 30 && n != 16 && n != 17
      ensures w.c.x[n] == s.c.x[n]
    {
      assert w.c.x[n] == FromContext(u.c.mem, f, n);
      assert Read64(t.c.mem, f + 8 * n) == s.c.x[n];
    }
    assert w.c.x[30] == FromContext(u.c.mem, f, 30);
  }

  // ---------- the call ----------

  /** `s` moved to the hook's page through X17. */
  function AtPage(h: Hook, s: State): State { State(s.c.(x := s.c.x[17 := h.page]), h.page) }

  /** The patched entry leads to the page with every register but X17 intact. */
  lemma PatchedEntryRuns(other: Uninterpreted, h: Hook, s: State)
    requires h.Valid() && s.pc + 16 < P64 && Holds(s.c.mem, s.pc, EncodeAbsBranch(h.page))
    ensures Run(other, s, 2) == AtPage(h, s)
  {
    hide EncodeAbsBranch, Run;
    AbsBranchRuns(other, s, h.page);
  }

  /** Steps from the dispatcher's return to the end of the enter thunk. */
  function EnterSteps(h: Hook): nat { if h.replaceMode then 22 else 23 }

  /** Where the enter thunk leads: to the relocated block, or, replaced, back to the link. */
  function EnterGoal(h: Hook, lr: u64): u64
    requires h.Valid()
  {
    if h.replaceMode then lr else h.page + RELOC_OFF
  }

  /** `w` is the state behind the enter thunk that `s` entered and `u` resumed. */
  ghost predicate Entered(h: Hook, s: State, u: State, w: State, lr: u64)
    requires h.Valid()
  {
    && w.pc == EnterGoal(h, lr) && SameRegisters(s.c, w.c) && w.c.x[30] == lr
    && w.c.nzcv == u.c.nzcv && w.c.q == u.c.q
    && SameOff(u.c.mem, w.c.mem, s.c.sp - FRAME, s.c.sp)
  }

  /**
   * Entering a hooked function: patch, enter thunk, dispatcher `u`, and on. A replaced function goes
   * straight to the link that the dispatcher left, without reaching the body.
   */
  lemma EnterHooked(other: Uninterpreted, h: Hook, s: State, u: State, lr: u64)
    requires h.Valid() && s.pc + 16 < P64 && StackApart(h, s.c.sp)
    requires Holds(s.c.mem, s.pc, EncodeAbsBranch(h.page)) && EnterIn(h, s.c.mem)
    requires OnlyLink(h, Run(other, s, 24), u, lr)
    ensures Dispatched(AtPage(h, s), Run(other, s, 24), h.id, h.enter)
    ensures Entered(h, s, u, Run(other, u, EnterSteps(h)), lr)
  {
    hide Read32, Read64, Run, Restore, SpillAndCall, Get, Holds, EncodeAbsBranch;
    PatchedEntryRuns(other, h, s);
    var a := Run(other, s, 2);
    RunThen(other, s, 2, 22);
    ThunkTransparent(other, h, 0, h.enter, h.EnterTail(), a, u, lr);
    var b := Run(other, u, 21);
    EnterStays(h, s.c.mem, u.c.mem);
    EnterStays(h, u.c.mem, b.c.mem);
    ThunkParts(b.c.mem, h.page, h.id, h.enter, h.EnterTail());
    FlagsKept(other, h, 0, h.enter, h.EnterTail(), u);
    if h.replaceMode {
      TailWord(b.c.mem, b.pc, RET_X30);
      RetRuns(other, b);
      RunThen(other, u, 21, 1);
    } else {
      AbsBranchRuns(other, b, h.page + RELOC_OFF);
      RunThen(other, u, 21, 2);
    }
  }

  lemma TailWord(m: Mem, pc: int, w: u32)
    requires Holds(m, pc, [w])
    ensures Read32(m, pc) == w
  {
    hide Read32;
    assert Read32(m, pc + 4 * 0) == [w][0];
  }

  lemma FlagsKept(other: Uninterpreted, h: Hook, at: int, dispatch: u64, tail: seq<u32>, u: State)
    requires h.Valid() && 0 <= at && at + 4 * (45 + |tail|) <= RELOC_OFF
    requires u.pc == h.page + at + 88 && Apart(h.page + at, 45 + |tail|, u.c.sp)
    requires ThunkIn(u.c.mem, h.page + at, h.id, dispatch, tail)
    ensures Run(other, u, 21).c.nzcv == u.c.nzcv && Run(other, u, 21).c.q == u.c.q
  {
    hide Read32, Read64, Run, Restore, SpillAndCall, Get, Holds;
    ThunkParts(u.c.mem, h.page + at, h.id, dispatch, tail);
    SkipAddressRuns(other, u);
    RestoreCodeRuns(other, Run(other, u, 1));
    RunThen(other, u, 1, 20);
  }

  /** Leaving: the leave thunk, its dispatcher `v`, and back to the link that the dispatcher left. */
  lemma LeaveHooked(other: Uninterpreted, h: Hook, r: State, v: State, lr: u64)
    requires h.Valid() && StackApart(h, r.c.sp)
    requires r.pc == h.page + LEAVE_OFF && LeaveIn(h, r.c.mem)
    requires OnlyLink(h, Run(other, r, 22), v, lr)
    ensures Dispatched(r, Run(other, r, 22), h.id, h.leave)
    ensures var w := Run(other, v, 22);
      && w.pc == lr && SameRegisters(r.c, w.c) && w.c.x[30] == lr && w.c.nzcv == v.c.nzcv && w.c.q == v.c.q
      && SameOff(v.c.mem, w.c.mem, r.c.sp - FRAME, r.c.sp)
  {
    hide Read32, Read64, Run, Restore, SpillAndCall, Get, Holds;
    ThunkTransparent(other, h, LEAVE_OFF, h.leave, [RET_X30], r, v, lr);
    LeaveStays(h, r.c.mem, v.c.mem);
    FlagsKept(other, h, LEAVE_OFF, h.leave, [RET_X30], v);
    var b := Run(other, v, 21);
    ThunkParts(b.c.mem, r.pc, h.id, h.leave, [RET_X30]);
    TailWord(b.c.mem, b.pc, RET_X30);
    RetRuns(other, b);
    RunThen(other, v, 21, 1);
  }

  /** `e` describes the displaced window and the code of hook `h`. */
  ghost predicate Describes(e: Env, h: Hook, insns: seq<DecodedInsn>) {
    && h.Valid() && |insns| == 4
    && e.Valid() && e.page == h.page
    && e.lo == h.page + RELOC_OFF && e.hi == e.lo + 4 * |BlockWords(insns, Wrap(e.target + 16), e.lo)|
  }

  /** The function of `e` is patched to lead to hook `h`, whose block was relocated from `p`'s memory. */
  ghost predicate Patched(e: Env, h: Hook, insns: seq<DecodedInsn>, p: Mem, m: Mem)
    requires h.Valid()
  {
    Holds(m, e.target, EncodeAbsBranch(h.page)) && EnterIn(h, m) && BlockInstalled(e, insns, p, m)
  }

  /** A thunk's frame below `sp` is clear of the hook's page and of the patched window. */
  predicate FrameClear(e: Env, h: Hook, sp: u64) {
    StackApart(h, sp) && (sp <= e.target || e.target + 16 <= sp - FRAME)
  }

  /** What was left in a thunk's frame below `sp` is not compared, nor are X16 and X17. */
  ghost function Spilled(v: View, sp: int): View {
    View(v.scratch + {16, 17}, (iset a | a in v.hidden || sp - FRAME <= a < sp), v.regs - {16, 17},
         SlotsOff(v.slots, sp - FRAME, sp))
  }

  /** Behind the enter thunk; X30 is the unhooked machine's link, or stands for it. */
  ghost function Entering(v: View, sp: int, l: Option<Link>): View {
    if l.Some? then Put(Spilled(v, sp), 30, l) else Spilled(v, sp)
  }

  /** Behind the leave thunk. */
  ghost function Leaving(v: View, sp: int): View {
    var w := Spilled(v, sp);
    w.(scratch := w.scratch + {30}, regs := w.regs - {30})
  }

  /** From `t` to `u`, a dispatcher changes the saved link to `lr`, its own frame and its own memory. */
  ghost predicate Dispatches(e: Env, h: Hook, t: State, u: State, lr: u64) {
    && OnlyLink(h, t, u, lr) && u.c.nzcv == t.c.nzcv && u.c.q == t.c.q
    && (forall a :: a !in e.hidden && !(t.c.sp <= a < t.c.sp + FRAME) ==> Get(u.c.mem, a) == Get(t.c.mem, a))
    && SameOn(t.c.mem, u.c.mem, e.target, e.target + 16)
  }

  /** From `s` to `w`, a thunk and its dispatcher keep the program's memory and the hook's code. */
  ghost predicate ThunkKeeps(e: Env, h: Hook, sp: int, m: Mem, n: Mem) {
    && (forall a :: a !in e.hidden && !(sp - FRAME <= a < sp) ==> Get(n, a) == Get(m, a))
    && SameOn(m, n, h.page, h.page + PAGE) && SameOn(m, n, e.target, e.target + 16)
  }

  lemma ThroughThunk(e: Env, h: Hook, sp: u64, s: Mem, t: Mem, u: Mem, w: Mem)
    requires FrameClear(e, h, sp)
    requires SameOff(s, t, sp - FRAME, sp) && SameOff(u, w, sp - FRAME, sp)
    requires forall a :: a !in e.hidden && !(sp - FRAME <= a < sp) ==> Get(u, a) == Get(t, a)
    requires SameOn(t, u, e.target, e.target + 16) && SameOn(t, u, h.page, h.page + PAGE)
    ensures ThunkKeeps(e, h, sp, s, w)
  {
    hide Get;
  }

  /** What the view behind a thunk says of memory follows from what the thunk keeps. */
  lemma SpilledMemory(e: Env, h: Hook, v: View, sp: int, p: Mem, s: Mem, w: Mem)
    requires v.Of(e) && SameSeen(v.In(e), p, s) && SlotsHold(v.slots, p, s) && ThunkKeeps(e, h, sp, s, w)
    ensures SameSeen(Spilled(v, sp).In(e), p, w) && SlotsHold(Spilled(v, sp).slots, p, w)
  {
    hide Get, Read64;
    forall a | a in Spilled(v, sp).slots
      ensures Read64(w, a) == Read64(s, a)
    {
      Read64Same(s, w, a);
    }
  }

  lemma SpilledOf(e: Env, v: View, sp: int)
    requires v.Of(e)
    ensures Spilled(v, sp).Of(e) && Leaving(v, sp).Of(e)
    ensures forall l: Option<Link> :: Entering(v, sp, l).Of(e)
  {}

  /** The link that a dispatcher put in place of the unhooked machine's. */
  function Redirected(own: u64, lr: u64): Option<Link> { if own == lr then None else Some(Link(own, lr)) }

  /** `w` is where the hooked machine enters the block. */
  ghost predicate InBlock(e: Env, h: Hook, v: View, insns: seq<DecodedInsn>, p: State, s: State, w: State, lr: u64) {
    && Together(e, Entering(v, s.c.sp, Redirected(p.c.x[30], lr)), insns, p, w)
    && w.c.x[30] == lr && ThunkKeeps(e, h, s.c.sp, s.c.mem, w.c.mem)
  }

  /**
   * Entering a hooked function: `p` is the unhooked machine at its entry, `s` the hooked one, called alike,
   * return address included. Whatever link `lr` the dispatcher `u` puts in place of the return address,
   * the hooked machine comes to the block with all else as the unhooked machine has it.
   */
  lemma EnterAlike(e: Env, h: Hook, insns: seq<DecodedInsn>, v: View, p: State, s: State, u: State, lr: u64)
    requires Describes(e, h, insns) && !h.replaceMode && FrameClear(e, h, s.c.sp)
    requires v.Of(e) && Alike(e, v, p.c, s.c) && 30 !in v.scratch
    requires p.pc == s.pc == e.target && Patched(e, h, insns, p.c.mem, s.c.mem)
    requires Dispatches(e, h, Run(e.other, s, 24), u, lr)
    ensures InBlock(e, h, v, insns, p, s, Run(e.other, u, 23), lr)
  {
    hide Read32, Read64, Run, Get, Holds, EncodeAbsBranch, BlockWords, RelocateAll, EnterIn, FrameFilled, OnlyLink;
    hide View.Of, Alike, BlockInstalled, Together, ThunkKeeps;
    EnterHooked(e.other, h, s, u, lr);
    var t, w := Run(e.other, s, 24), Run(e.other, u, 23);
    LinkFacts(h, t, u, lr);
    ThroughThunk(e, h, s.c.sp, s.c.mem, t.c.mem, u.c.mem, w.c.mem);
    EnteredTogether(e, h, insns, v, p, s, w, lr);
  }

  lemma LinkFacts(h: Hook, t: State, u: State, lr: u64)
    requires OnlyLink(h, t, u, lr)
    ensures SameOn(t.c.mem, u.c.mem, h.page, h.page + PAGE) && u.pc == t.c.x[30] && u.c.sp == t.c.sp
  {
    hide Get, Read64;
  }

  lemma EnteredTogether(e: Env, h: Hook, insns: seq<DecodedInsn>, v: View, p: State, s: State, w: State, lr: u64)
    requires Describes(e, h, insns) && v.Of(e) && Alike(e, v, p.c, s.c) && 30 !in v.scratch
    requires p.pc == e.target && BlockInstalled(e, insns, p.c.mem, s.c.mem)
    requires w.pc == e.lo && SameRegisters(s.c, w.c) && w.c.x[30] == lr && w.c.nzcv == s.c.nzcv && w.c.q == s.c.q
    requires ThunkKeeps(e, h, s.c.sp, s.c.mem, w.c.mem)
    ensures Together(e, Entering(v, s.c.sp, Redirected(p.c.x[30], lr)), insns, p, w)
  {
    hide Read32, Read64, Get, BlockInstalled, BlockWords, RelocateAll, SlotsHold, SameSeen;
    SpilledOf(e, v, s.c.sp);
    SpilledMemory(e, h, v, s.c.sp, p.c.mem, s.c.mem, w.c.mem);
    BlockInPage(e, h, insns);
    InstalledAfter(e, insns, p.c.mem, p.c.mem, s.c.mem, w.c.mem);
    FirstSlot(insns, e.lo);
    var v1 := Entering(v, s.c.sp, Redirected(p.c.x[30], lr));
    assert v1.hidden == Spilled(v, s.c.sp).hidden && v1.slots == Spilled(v, s.c.sp).slots;
    SeenAsHidden(e, v1, Spilled(v, s.c.sp), p.c.mem, w.c.mem);
  }

  lemma SeenAsHidden(e: Env, v: View, w: View, m: Mem, n: Mem)
    requires v.hidden == w.hidden && SameSeen(w.In(e), m, n)
    ensures SameSeen(v.In(e), m, n)
  {}

  lemma BlockInPage(e: Env, h: Hook, insns: seq<DecodedInsn>)
    requires Describes(e, h, insns)
    ensures e.page <= e.lo <= e.hi <= h.page + PAGE
  {
    hide RelocateAll, EncodeAbsBranch;
  }

  lemma FirstSlot(insns: seq<DecodedInsn>, base: u64)
    requires |insns| == 4
    ensures SlotPc(insns, base, 0) == base
  {
    assert insns[..0] == [];
  }

  /**
   * Leaving a hooked function: the hooked machine `r` has come to the leave thunk where the unhooked one,
   * `q`, has come back to its caller. The hooked machine goes to the link `lr` that the dispatcher `x`
   * leaves, with all else as the unhooked machine has it.
   */
  lemma LeaveAlike(e: Env, h: Hook, v: View, q: Core, r: State, x: State, lr: u64)
    requires h.Valid() && FrameClear(e, h, r.c.sp) && v.Of(e) && Alike(e, v, q, r.c)
    requires r.pc == h.page + LEAVE_OFF && LeaveIn(h, r.c.mem)
    requires Dispatches(e, h, Run(e.other, r, 22), x, lr)
    ensures var z := Run(e.other, x, 22);
      && z.pc == lr == z.c.x[30]
      && Leaving(v, r.c.sp).Of(e) && Alike(e, Leaving(v, r.c.sp), q, z.c)
      && ThunkKeeps(e, h, r.c.sp, r.c.mem, z.c.mem)
  {
    hide Read32, Read64, Run, Get, Holds, FrameFilled, OnlyLink, View.Of, Alike, ThunkKeeps, Restore, SpillAndCall;
    LeaveHooked(e.other, h, r, x, lr);
    var t, z := Run(e.other, r, 22), Run(e.other, x, 22);
    LinkFacts(h, t, x, lr);
    ThroughThunk(e, h, r.c.sp, r.c.mem, t.c.mem, x.c.mem, z.c.mem);
    LeftAlike(e, h, v, q, r.c, z.c);
  }

  lemma LeftAlike(e: Env, h: Hook, v: View, q: Core, r: Core, z: Core)
    requires v.Of(e) && Alike(e, v, q, r)
    requires SameRegisters(r, z) && z.nzcv == r.nzcv && z.q == r.q && ThunkKeeps(e, h, r.sp, r.mem, z.mem)
    ensures Leaving(v, r.sp).Of(e) && Alike(e, Leaving(v, r.sp), q, z)
  {
    hide Read64, Get, SlotsHold, SameSeen;
    SpilledOf(e, v, r.sp);
    SpilledMemory(e, h, v, r.sp, q.mem, r.mem, z.mem);
    SeenAsHidden(e, Leaving(v, r.sp), Spilled(v, r.sp), q.mem, z.mem);
  }

  /** A replaced function never runs: from its entry control comes back to the link that its dispatchers leave. */
  lemma ReplacedCallReturns(other: Uninterpreted, h: Hook, s: State, u: State, v: State, lr: u64)
    requires h.Valid() && h.replaceMode && s.pc + 16 < P64 && StackApart(h, s.c.sp)
    requires Holds(s.c.mem, s.pc, EncodeAbsBranch(h.page)) && EnterIn(h, s.c.mem) && LeaveIn(h, s.c.mem)
    requires OnlyLink(h, Run(other, s, 24), u, h.page + LEAVE_OFF)
    requires OnlyLink(h, Run(other, u, 44), v, lr)
    ensures Run(other, u, 22).pc == h.page + LEAVE_OFF && SameRegisters(s.c, Run(other, u, 22).c)
    ensures Run(other, u, 22).c.x[30] == h.page + LEAVE_OFF && LeaveIn(h, Run(other, u, 22).c.mem)
    ensures var z := Run(other, v, 22);
      z.pc == lr && SameRegisters(s.c, z.c)
  {
    hide Read64, Run, Get, Holds, EncodeAbsBranch, EnterIn, LeaveIn, FrameFilled;
    ReplacedComesBack(other, h, s, u);
    RunThen(other, u, 22, 22);
    LeaveHooked(other, h, Run(other, u, 22), v, lr);
  }

  lemma ReplacedComesBack(other: Uninterpreted, h: Hook, s: State, u: State)
    requires h.Valid() && h.replaceMode && s.pc + 16 < P64 && StackApart(h, s.c.sp)
    requires Holds(s.c.mem, s.pc, EncodeAbsBranch(h.page)) && EnterIn(h, s.c.mem) && LeaveIn(h, s.c.mem)
    requires OnlyLink(h, Run(other, s, 24), u, h.page + LEAVE_OFF)
    ensures var w := Run(other, u, 22);
      && w.pc == h.page + LEAVE_OFF == w.c.x[30] && SameRegisters(s.c, w.c) && LeaveIn(h, w.c.mem)
  {
    hide Read64, Run, Get, Holds, EncodeAbsBranch, EnterIn, LeaveIn, FrameFilled;
    EnterHooked(other, h, s, u, h.page + LEAVE_OFF);
    var w := Run(other, u, 22);
    LeaveStays(h, s.c.mem, w.c.mem);
  }
}
