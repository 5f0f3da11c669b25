/** Pushing and popping all registers: the emitted words restore every register exactly. */
module SaveAll {
  import opened Words
  import opened Memory
  import opened A64
  import opened WriterWords

  /** STP Ra, Rb, [SP, #-2n]! with n the register size. */
  function PushWord(width: PairSize, a: RegNo, b: RegNo): u32 { PairInsnWord(false, width, a, b, 31, -2, Pre) }

  /** LDP Ra, Rb, [SP], #2n */
  function PopWord(width: PairSize, a: RegNo, b: RegNo): u32 { PairInsnWord(true, width, a, b, 31, 2, Post) }

  /** The number of register pairs: X0 to X29, or Q0 to Q31. */
  function PairCount(width: PairSize): nat { if width == PairX then 15 else 16 }

  function PushPairs(width: PairSize, p: nat): (ws: seq<u32>)
    requires p <= PairCount(width)
    ensures |ws| == PairCount(width) - p
    decreases PairCount(width) - p
  {
    if p == PairCount(width) then [] else [PushWord(width, 2 * p, 2 * p + 1)] + PushPairs(width, p + 1)
  }

  function PopPairs(width: PairSize, p: nat): (ws: seq<u32>)
    requires p <= PairCount(width)
    ensures |ws| == p
  {
    if p == 0 then [] else [PopWord(width, 2 * (p - 1), 2 * (p - 1) + 1)] + PopPairs(width, p - 1)
  }

  lemma PopPairsStep(width: PairSize, p: nat, before: seq<u32>)
    requires p < PairCount(width)
    ensures before + PopPairs(width, p + 1) == before + [PopWord(width, 2 * p, 2 * p + 1)] + PopPairs(width, p)
  {}

  lemma NoPops(width: PairSize, before: seq<u32>)
    ensures before + PopPairs(width, 0) == before
  {}

  /** X0 to X29 in pairs, then X30 with the flags, which pass through X15. */
  function PushAllX(): (ws: seq<u32>)
    ensures |ws| == 17
  {
    PushPairs(PairX, 0) + [MrsWord(15), PushWord(PairX, 30, 15)]
  }

  function PopAllX(): (ws: seq<u32>)
    ensures |ws| == 17
  {
    [PopWord(PairX, 30, 15), MsrWord(15)] + PopPairs(PairX, 15)
  }

  function PushAllQ(): (ws: seq<u32>) { PushPairs(PairQ, 0) }

  function PopAllQ(): (ws: seq<u32>) { PopPairs(PairQ, 16) }

  // ---------- one pair ----------

  /** Register `n` of the width's register file. */
  function Val(c: Core, width: PairSize, n: RegNo): u128 {
    if width == PairQ then c.q[n] else X(c, n)
  }

  function Load(m: Mem, width: PairSize, a: int): u128 {
    if width == PairQ then Read128(m, a) else Read64(m, a)
  }

  /** Bytes that one pair takes. */
  function Size(width: PairSize): int { if width == PairQ then 32 else 16 }

  /** Bytes that `n` pairs take. */
  function Span(width: PairSize, n: int): int { if width == PairQ then 32 * n else 16 * n }

  lemma LoadSame(m: Mem, n: Mem, width: PairSize, a: int)
    requires SameOn(m, n, a, a + Size(width) / 2)
    ensures Load(m, width, a) == Load(n, width, a)
  {
    hide Read64, Get;
    Read64Same(m, n, a);
    if width == PairQ {
      Read64Same(m, n, a + 8);
    }
  }

  /** `t` is `s` after its pair (a, b) was pushed. */
  ghost predicate Pushed(s: State, t: State, width: PairSize, a: RegNo, b: RegNo) {
    && t == State(s.c.(sp := t.c.sp, mem := t.c.mem), Wrap(s.pc + 4))
    && t.c.sp == s.c.sp - Size(width)
    && Load(t.c.mem, width, t.c.sp) == Val(s.c, width, a)
    && Load(t.c.mem, width, t.c.sp + Size(width) / 2) == Val(s.c, width, b)
    && SameOff(s.c.mem, t.c.mem, t.c.sp, s.c.sp)
  }

  lemma PushStep(other: Uninterpreted, s: State, width: PairSize, a: RegNo, b: RegNo)
    requires width != PairW && s.pc + 4 < P64 && Size(width) <= s.c.sp
    requires Read32(s.c.mem, s.pc) == PushWord(width, a, b)
    ensures Pushed(s, Step(other, s), width, a, b)
  {
    hide Decode, Read32, Step, PushWord, Read64, Write64, Read128, Write128, Get;
    PushDecodes(width, a, b);
    StepOn(other, s, PushWord(width, a, b), Decode(PushWord(width, a, b)));
    var sp := s.c.sp - Size(width);
    if width == PairX {
      var m1 := Write64(s.c.mem, sp, X(s.c, a));
      var m2 := Write64(m1, sp + 8, X(s.c, b));
      Write64Get(s.c.mem, sp, X(s.c, a));
      Write64Get(m1, sp + 8, X(s.c, b));
      Read64Same(m1, m2, sp);
    } else {
      var m1 := Write128(s.c.mem, sp, s.c.q[a]);
      var m2 := Write128(m1, sp + 16, s.c.q[b]);
      Write128Get(s.c.mem, sp, s.c.q[a]);
      Write128Get(m1, sp + 16, s.c.q[b]);
      LoadSame(m1, m2, PairQ, sp);
    }
  }

  lemma PushDecodes(width: PairSize, a: RegNo, b: RegNo)
    ensures Decode(PushWord(width, a, b)) == Pair(width, Pre, false, a, b, 31, -2 * PairShift(width))
  {
    DecodePairInsn(false, width, a, b, 31, -2, Pre);
  }

  lemma PopDecodes(width: PairSize, a: RegNo, b: RegNo)
    ensures Decode(PopWord(width, a, b)) == Pair(width, Post, true, a, b, 31, 2 * PairShift(width))
  {
    DecodePairInsn(true, width, a, b, 31, 2, Post);
  }

  /** The core `c` with the register pair (a, b) set. */
  function SetPair(c: Core, width: PairSize, a: RegNo, b: RegNo, v: u128, w: u128): Core
    requires width != PairQ ==> v < P64 && w < P64
  {
    if width == PairQ then c.(q := c.q[a := v][b := w]) else SetX(SetX(c, a, v), b, w)
  }

  lemma PopStep(other: Uninterpreted, s: State, width: PairSize, a: RegNo, b: RegNo)
    requires width != PairW && s.pc + 4 < P64 && s.c.sp + Size(width) < P64
    requires Read32(s.c.mem, s.pc) == PopWord(width, a, b)
    ensures Step(other, s)
      == State(SetPair(s.c, width, a, b, Load(s.c.mem, width, s.c.sp), Load(s.c.mem, width, s.c.sp + Size(width) / 2))
                 .(sp := s.c.sp + Size(width)), s.pc + 4)
  {
    hide Decode, Read32, Step, PopWord, Read64, Read128;
    PopDecodes(width, a, b);
    StepOn(other, s, PopWord(width, a, b), Decode(PopWord(width, a, b)));
  }

  // ---------- all pairs ----------

  /** The pairs from `p` on lie below `top`, the first one uppermost. */
  ghost predicate PairsSaved(m: Mem, width: PairSize, top: int, p: int, q: int, c: Core) {
    forall k :: 0 <= p <= k < q <= 16 && (width == PairX ==> k < 15) ==>
      && Load(m, width, PairAt(top, width, k)) == Val(c, width, 2 * k)
      && Load(m, width, PairAt(top, width, k) + Size(width) / 2) == Val(c, width, 2 * k + 1)
  }

  /** Where pair `k` lies below `top`. */
  function PairAt(top: int, width: PairSize, k: int): int { top - Span(width, k + 1) }

  /** The pairs stay readable when the bytes below `top` stay. */
  lemma PairsSavedSame(m: Mem, n: Mem, width: PairSize, top: int, p: int, q: int, c: Core)
    requires PairsSaved(m, width, top, p, q, c)
    requires SameOn(m, n, top - Span(width, q), top - Span(width, p))
    ensures PairsSaved(n, width, top, p, q, c)
  {
    hide Load, Get, Val;
    forall k | 0 <= p <= k < q <= 16 && (width == PairX ==> k < 15)
      ensures Load(n, width, PairAt(top, width, k)) == Load(m, width, PairAt(top, width, k))
      ensures Load(n, width, PairAt(top, width, k) + Size(width) / 2)
              == Load(m, width, PairAt(top, width, k) + Size(width) / 2)
    {
      LoadSame(m, n, width, PairAt(top, width, k));
      LoadSame(m, n, width, PairAt(top, width, k) + Size(width) / 2);
    }
  }

  /** The code from `pc` and the stack from `lo` up to `hi` lie apart. */
  predicate Clear(pc: int, n: nat, lo: int, hi: int) {
    && pc + 4 * n < P64 && 0 <= lo <= hi < P64
    && (pc + 4 * n <= lo || hi <= pc)
  }

  lemma {:induction false} PushPairsRun(other: Uninterpreted, s: State, width: PairSize, p: nat, top: int)
    requires width != PairW && p <= PairCount(width)
    requires top == s.c.sp + Span(width, p) && Span(width, PairCount(width)) <= top
    requires Holds(s.c.mem, s.pc, PushPairs(width, p))
    requires Clear(s.pc, PairCount(width) - p, top - Span(width, PairCount(width)), s.c.sp)
    ensures var n := PairCount(width) - p;
      PairsPushed(s, Run(other, s, n), width, p, top)
    decreases PairCount(width) - p
  {
    hide Step, PushWord, Read32, Holds, Load, Val, Get;
    if p < PairCount(width) {
      FirstPushed(other, s, width, p, top);
      var u := Step(other, s);
      PushPairsRun(other, u, width, p + 1, top);
      var n := PairCount(width) - p;
      PushedMore(s, u, Run(other, u, n - 1), width, p, top);
    }
  }

  ghost predicate PairsPushed(s: State, t: State, width: PairSize, p: nat, top: int)
    requires width != PairW && p <= PairCount(width)
  {
    && t == State(s.c.(sp := t.c.sp, mem := t.c.mem), Wrap(s.pc + 4 * (PairCount(width) - p)))
    && t.c.sp == top - Span(width, PairCount(width))
    && PairsSaved(t.c.mem, width, top, p, PairCount(width), s.c)
    && SameOff(s.c.mem, t.c.mem, t.c.sp, s.c.sp)
  }

  lemma FirstPushed(other: Uninterpreted, s: State, width: PairSize, p: nat, top: int)
    requires width != PairW && p < PairCount(width)
    requires top == s.c.sp + Span(width, p) && Span(width, PairCount(width)) <= top
    requires Holds(s.c.mem, s.pc, PushPairs(width, p))
    requires Clear(s.pc, PairCount(width) - p, top - Span(width, PairCount(width)), s.c.sp)
    ensures Pushed(s, Step(other, s), width, 2 * p, 2 * p + 1)
    ensures Holds(Step(other, s).c.mem, s.pc + 4, PushPairs(width, p + 1))
  {
    hide Step, PushWord, Read32, Load, Val, Get, SameOff, SameOn;
    var ws := PushPairs(width, p);
    assert Read32(s.c.mem, s.pc + 4 * 0) == ws[0];
    PushStep(other, s, width, 2 * p, 2 * p + 1);
    HoldsPart(s.c.mem, s.pc, ws, 1, |ws|);
    assert ws[1..|ws|] == PushPairs(width, p + 1);
    Untouched(s.c.mem, Step(other, s).c.mem, s.c.sp - Size(width), s.c.sp, s.pc + 4, s.pc + 4 * |ws|);
    HoldsSame(s.c.mem, Step(other, s).c.mem, s.pc + 4, PushPairs(width, p + 1));
  }

  lemma FirstPairSaved(s: State, u: State, width: PairSize, p: nat, top: int)
    requires width != PairW && p < PairCount(width) && top == s.c.sp + Span(width, p)
    requires Pushed(s, u, width, 2 * p, 2 * p + 1)
    ensures PairsSaved(u.c.mem, width, top, p, p + 1, s.c)
    ensures u.c.sp == top - Span(width, p + 1)
  {
    hide Load, Get, Val;
  }

  lemma PushedMore(s: State, u: State, t: State, width: PairSize, p: nat, top: int)
    requires width != PairW && p < PairCount(width) && top == s.c.sp + Span(width, p)
    requires s.pc + 4 * (PairCount(width) - p) < P64
    requires Pushed(s, u, width, 2 * p, 2 * p + 1) && PairsPushed(u, t, width, p + 1, top)
    ensures PairsPushed(s, t, width, p, top)
  {
    hide PairsSaved, SameOff, SameOn, Load, Val;
    FirstPairSaved(s, u, width, p, top);
    UntouchedJoin(s.c.mem, u.c.mem, t.c.mem, t.c.sp, u.c.sp, s.c.sp);
    Untouched(u.c.mem, t.c.mem, t.c.sp, u.c.sp, u.c.sp, s.c.sp);
    PairsSavedSame(u.c.mem, t.c.mem, width, top, p, p + 1, s.c);
    PairsSavedJoin(t.c.mem, width, top, p, PairCount(width), s.c, u.c);
  }

  lemma PairsSavedJoin(m: Mem, width: PairSize, top: int, p: int, q: int, c: Core, d: Core)
    requires c.x == d.x && c.q == d.q && 0 <= p < q
    requires PairsSaved(m, width, top, p, p + 1, c) && PairsSaved(m, width, top, p + 1, q, d)
    ensures PairsSaved(m, width, top, p, q, c)
  {
    hide Load;
  }

  /** `t` is `s` with its first `p` pairs loaded from the stack and the stack pointer moved over them. */
  ghost predicate PairsPopped(s: State, t: State, width: PairSize, p: nat)
    requires width != PairW && p <= PairCount(width)
  {
    && t == State(s.c.(x := t.c.x, q := t.c.q, sp := t.c.sp), Wrap(s.pc + 4 * p))
    && t.c.sp == s.c.sp + Span(width, p)
    && (forall n :: 0 <= n < 31 ==>
          t.c.x[n] == if width == PairX && n < 2 * p then Read64(s.c.mem, Slot(s.c.sp, width, p, n)) else s.c.x[n])
    && (forall n :: 0 <= n < 32 ==>
          t.c.q[n] == if width == PairQ && n < 2 * p then Read128(s.c.mem, Slot(s.c.sp, width, p, n)) else s.c.q[n])
  }

  /** The stack slot of register `n` when pair `p - 1` is on top at `sp`. */
  function Slot(sp: int, width: PairSize, p: nat, n: int): int {
    sp + Span(width, p - 1 - n / 2) + (if n % 2 == 0 then 0 else Size(width) / 2)
  }

  lemma {:induction false} PopPairsRun(other: Uninterpreted, s: State, width: PairSize, p: nat)
    requires width != PairW && p <= PairCount(width)
    requires Holds(s.c.mem, s.pc, PopPairs(width, p))
    requires s.pc + 4 * p < P64 && s.c.sp + Span(width, p) < P64
    ensures PairsPopped(s, Run(other, s, p), width, p)
    decreases p
  {
    hide Step, PopWord, Read32, Read64, Read128, Get;
    if p > 0 {
      var ws := PopPairs(width, p);
      assert Read32(s.c.mem, s.pc + 4 * 0) == ws[0];
      PopStep(other, s, width, 2 * (p - 1), 2 * (p - 1) + 1);
      var u := Step(other, s);
      HoldsPart(s.c.mem, s.pc, ws, 1, |ws|);
      assert ws[1..|ws|] == PopPairs(width, p - 1);
      PopPairsRun(other, u, width, p - 1);
      PoppedMore(s, u, Run(other, u, p - 1), width, p);
    }
  }

  lemma PoppedMore(s: State, u: State, t: State, width: PairSize, p: nat)
    requires width != PairW && 0 < p <= PairCount(width)
    requires s.pc + 4 * p < P64 && s.c.sp + Span(width, p) < P64
    requires u == State(SetPair(s.c, width, 2 * (p - 1), 2 * (p - 1) + 1, Load(s.c.mem, width, s.c.sp),
                                Load(s.c.mem, width, s.c.sp + Size(width) / 2))
                 .(sp := s.c.sp + Size(width)), s.pc + 4)
    requires PairsPopped(u, t, width, p - 1)
    ensures PairsPopped(s, t, width, p)
  {
    hide Read64, Read128;
    forall n | 0 <= n < 2 * (p - 1)
      ensures Slot(u.c.sp, width, p - 1, n) == Slot(s.c.sp, width, p, n)
    {}
    assert Slot(s.c.sp, width, p, 2 * (p - 1)) == s.c.sp;
    assert Slot(s.c.sp, width, p, 2 * (p - 1) + 1) == s.c.sp + Size(width) / 2;
  }

  // ---------- the round trips ----------

  /** The flags as MRS delivers them. */
  function FlagsWord(f: Nibble): u64 { f * 0x1000_0000 }

  /** `t` is `s` with all of X0 to X30 and the flags on the stack. */
  ghost predicate AllXSaved(s: State, t: State)
    requires 256 <= s.c.sp && s.pc + 68 < P64
  {
    && t == State(s.c.(x := s.c.x[15 := FlagsWord(s.c.nzcv)], sp := s.c.sp - 256, mem := t.c.mem), s.pc + 68)
    && XSaved(t.c.mem, s.c.sp, s.c)
    && SameOff(s.c.mem, t.c.mem, s.c.sp - 256, s.c.sp)
  }

  /** The 256 bytes below `top` hold the general registers and the flags of `c`. */
  ghost predicate XSaved(m: Mem, top: int, c: Core) {
    && PairsSaved(m, PairX, top, 0, 15, c)
    && Read64(m, top - 256) == c.x[30] && Read64(m, top - 248) == FlagsWord(c.nzcv)
  }

  lemma XSavedSame(m: Mem, n: Mem, top: int, c: Core)
    requires XSaved(m, top, c) && SameOn(m, n, top - 256, top)
    ensures XSaved(n, top, c)
  {
    hide Read64, Get, PairsSaved;
    Read64Same(m, n, top - 256);
    Read64Same(m, n, top - 248);
    PairsSavedSame(m, n, PairX, top, 0, 15, c);
  }

  lemma MrsX15Step(other: Uninterpreted, s: State)
    requires s.pc + 4 < P64 && Read32(s.c.mem, s.pc) == MrsWord(15)
    ensures Step(other, s) == State(s.c.(x := s.c.x[15 := FlagsWord(s.c.nzcv)]), s.pc + 4)
  {
    hide Decode, Read32, Step, MrsWord;
    DecodeMrs(15);
    StepOn(other, s, MrsWord(15), MRS(15));
  }

  lemma MsrX15Step(other: Uninterpreted, s: State, f: Nibble)
    requires s.pc + 4 < P64 && Read32(s.c.mem, s.pc) == MsrWord(15) && s.c.x[15] == FlagsWord(f)
    ensures Step(other, s) == State(s.c.(nzcv := f), s.pc + 4)
  {
    hide Decode, Read32, Step, MsrWord;
    DecodeMsr(15);
    assert FlagsWord(f) / 0x1000_0000 % 16 == f;
    StepOn(other, s, MsrWord(15), MSR(15));
  }

  /** Seventeen steps push everything, writing only the 256 bytes below the stack pointer. */
  lemma PushAllXRuns(other: Uninterpreted, s: State)
    requires 256 <= s.c.sp && Clear(s.pc, 17, s.c.sp - 256, s.c.sp)
    requires Holds(s.c.mem, s.pc, PushAllX())
    ensures AllXSaved(s, Run(other, s, 17))
  {
    hide Step, PushWord, MrsWord, Read32, Load, Get, PushPairs, Run;
    var ws := PushAllX();
    HoldsPart(s.c.mem, s.pc, ws, 0, 15);
    assert ws[0..15] == PushPairs(PairX, 0);
    PushPairsRun(other, s, PairX, 0, s.c.sp);
    var a := Run(other, s, 15);
    HoldsSame(s.c.mem, a.c.mem, s.pc, ws);
    assert Read32(a.c.mem, s.pc + 4 * 15) == ws[15];
    assert Read32(a.c.mem, s.pc + 4 * 16) == ws[16];
    MrsX15Step(other, a);
    var b := Step(other, a);
    PushStep(other, b, PairX, 30, 15);
    TwoSteps(other, a);
    RunThen(other, s, 15, 2);
    LastPushed(s, a, b, Step(other, b));
  }

  lemma TwoSteps(other: Uninterpreted, s: State)
    ensures Run(other, s, 2) == Step(other, Step(other, s))
  {
    hide Step;
    assert Run(other, s, 2) == Run(other, Step(other, s), 1);
  }

  lemma LastPushed(s: State, a: State, b: State, t: State)
    requires 256 <= s.c.sp && s.pc + 68 < P64
    requires PairsPushed(s, a, PairX, 0, s.c.sp)
    requires b == State(a.c.(x := a.c.x[15 := FlagsWord(a.c.nzcv)]), a.pc + 4)
    requires Pushed(b, t, PairX, 30, 15)
    ensures AllXSaved(s, t)
  {
    hide Read64, Get, PairsSaved;
    PairsSavedSame(a.c.mem, t.c.mem, PairX, s.c.sp, 0, 15, s.c);
  }

  /** Seventeen steps bring back every register and the flags from the 256 bytes at the stack pointer. */
  lemma PopAllXRuns(other: Uninterpreted, u: State, c: Core)
    requires u.pc + 68 < P64 && u.c.sp + 256 < P64
    requires Holds(u.c.mem, u.pc, PopAllX())
    requires XSaved(u.c.mem, u.c.sp + 256, c)
    ensures Run(other, u, 17) == State(u.c.(x := c.x, nzcv := c.nzcv, sp := u.c.sp + 256), u.pc + 68)
  {
    hide Step, PopWord, MsrWord, Read32, Read64, Read128, Get, PopPairs, Run;
    var ws := PopAllX();
    assert Read32(u.c.mem, u.pc + 4 * 0) == ws[0];
    assert Read32(u.c.mem, u.pc + 4 * 1) == ws[1];
    PopStep(other, u, PairX, 30, 15);
    var a := Step(other, u);
    MsrX15Step(other, a, c.nzcv);
    var b := Step(other, a);
    HoldsPart(u.c.mem, u.pc, ws, 2, 17);
    assert ws[2..17] == PopPairs(PairX, 15);
    PopPairsRun(other, b, PairX, 15);
    TwoSteps(other, u);
    RunThen(other, u, 2, 15);
    var t := Run(other, b, 15);
    PoppedRegisters(b, t, c, u.c.sp + 256);
  }

  lemma PoppedRegisters(b: State, t: State, c: Core, top: int)
    requires PairsPopped(b, t, PairX, 15) && b.c.sp + 240 == top
    requires PairsSaved(b.c.mem, PairX, top, 0, 15, c) && b.c.x[30] == c.x[30]
    ensures t.c.x == c.x && t.c.q == b.c.q
  {
    hide Read64, Read128;
    forall n | 0 <= n < 31
      ensures t.c.x[n] == c.x[n]
    {
      if n < 30 {
        var k := n / 2;
        assert Load(b.c.mem, PairX, PairAt(top, PairX, k)) == Val(c, PairX, 2 * k);
        assert Slot(b.c.sp, PairX, 15, n) == top - 16 * (k + 1) + 8 * (n % 2);
        assert n == 2 * k || n == 2 * k + 1;
      }
    }
  }

  /**
   * Save all, run anything that keeps the saved bytes and brings the stack pointer back, restore all:
   * X0 to X30, the flags and the stack pointer are what they were, although X15 carried the flags.
   */
  lemma SaveAllXRoundTrip(other: Uninterpreted, s: State, u: State)
    requires 256 <= s.c.sp && Clear(s.pc, 17, s.c.sp - 256, s.c.sp)
    requires Holds(s.c.mem, s.pc, PushAllX())
    requires u.c.sp == s.c.sp - 256 && SameOn(Run(other, s, 17).c.mem, u.c.mem, s.c.sp - 256, s.c.sp)
    requires u.pc + 68 < P64 && Holds(u.c.mem, u.pc, PopAllX())
    ensures SameOff(s.c.mem, Run(other, s, 17).c.mem, s.c.sp - 256, s.c.sp)
    ensures Run(other, u, 17) == State(u.c.(x := s.c.x, nzcv := s.c.nzcv, sp := s.c.sp), u.pc + 68)
  {
    hide Run, Holds, Read64, Get, XSaved, PushAllX, PopAllX;
    PushAllXRuns(other, s);
    XSavedSame(Run(other, s, 17).c.mem, u.c.mem, s.c.sp, s.c);
    PopAllXRuns(other, u, s.c);
  }

  /** The same for the 32 vector registers and the 512 bytes below the stack pointer. */
  lemma SaveAllQRoundTrip(other: Uninterpreted, s: State, u: State)
    requires 512 <= s.c.sp && Clear(s.pc, 16, s.c.sp - 512, s.c.sp)
    requires Holds(s.c.mem, s.pc, PushAllQ())
    requires u.c.sp == s.c.sp - 512 && SameOn(Run(other, s, 16).c.mem, u.c.mem, s.c.sp - 512, s.c.sp)
    requires u.pc + 64 < P64 && Holds(u.c.mem, u.pc, PopAllQ())
    ensures SameOff(s.c.mem, Run(other, s, 16).c.mem, s.c.sp - 512, s.c.sp)
    ensures Run(other, u, 16) == State(u.c.(q := s.c.q, sp := s.c.sp), u.pc + 64)
  {
    hide Run, Holds, PairsSaved, SameOff, SameOn, PushAllQ, PopAllQ;
    PushAllQRuns(other, s);
    var t := Run(other, s, 16);
    QArea(s.c.sp);
    PairsSavedSame(t.c.mem, u.c.mem, PairQ, s.c.sp, 0, 16, s.c);
    PopAllQRuns(other, u, s.c);
  }

  lemma QArea(top: int)
    ensures top - Span(PairQ, 16) == top - 512 && top - Span(PairQ, 0) == top
  {}

  lemma PushAllQRuns(other: Uninterpreted, s: State)
    requires 512 <= s.c.sp && Clear(s.pc, 16, s.c.sp - 512, s.c.sp)
    requires Holds(s.c.mem, s.pc, PushAllQ())
    ensures PairsSaved(Run(other, s, 16).c.mem, PairQ, s.c.sp, 0, 16, s.c)
    ensures SameOff(s.c.mem, Run(other, s, 16).c.mem, s.c.sp - 512, s.c.sp)
  {
    hide Run, PushPairs, Holds, PairsSaved, SameOff;
    PushPairsRun(other, s, PairQ, 0, s.c.sp);
  }

  lemma PopAllQRuns(other: Uninterpreted, u: State, c: Core)
    requires u.pc + 64 < P64 && u.c.sp + 512 < P64 && Holds(u.c.mem, u.pc, PopAllQ())
    requires PairsSaved(u.c.mem, PairQ, u.c.sp + 512, 0, 16, c)
    ensures Run(other, u, 16) == State(u.c.(q := c.q, sp := u.c.sp + 512), u.pc + 64)
  {
    hide Run, PopPairs, Holds, PairsSaved, Read64, Read128;
    PopPairsRun(other, u, PairQ, 16);
    PoppedVectors(u, Run(other, u, 16), c, u.c.sp + 512);
  }

  lemma PoppedVectors(u: State, v: State, c: Core, top: int)
    requires PairsPopped(u, v, PairQ, 16) && u.c.sp + 512 == top
    requires PairsSaved(u.c.mem, PairQ, top, 0, 16, c)
    ensures v.c.q == c.q && v.c.x == u.c.x
  {
    hide Read64, Read128;
    forall n | 0 <= n < 32
      ensures v.c.q[n] == c.q[n]
    {
      var k := n / 2;
      assert Load(u.c.mem, PairQ, PairAt(top, PairQ, k)) == Val(c, PairQ, 2 * k);
      assert Slot(u.c.sp, PairQ, 16, n) == PairAt(top, PairQ, k) + 16 * (n % 2);
      assert n == 2 * k || n == 2 * k + 1;
    }
  }
}
