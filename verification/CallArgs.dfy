/** Calls with arguments: the emitted moves, processed from the last argument to the first. */
module CallArgs {
  import opened Words
  import opened Memory
  import opened A64
  import opened Encode
  import opened Relocation
  import opened WriterWords
  import opened BitmaskImm

  datatype CallArg = Address(value: u64) | Register(reg: Reg)

  /** The value an argument stands for in `c`; W registers are zero-extended. */
  function ArgValue(c: Core, arg: CallArg): u64 {
    match arg
    case Address(value) => value
    case Register(reg) => if reg.is64 then X(c, reg.n) else LowWord(X(c, reg.n))
  }

  /** The words that load argument `i`. */
  function ArgWords(i: RegNo, arg: CallArg): seq<u32> {
    match arg
    case Address(value) => LdrU64Words(i, value)
    case Register(reg) =>
      if !reg.is64 then [UxtwWord(XReg(i), reg)]
      else if reg.n != i then [MovWord(XReg(i), reg)]
      else []
  }

  /** The moves for the arguments from the last one down to `k`. */
  function SetupWords(args: seq<CallArg>, k: nat): seq<u32>
    requires k <= |args| <= 31
    decreases |args| - k
  {
    if k == |args| then [] else SetupWords(args, k + 1) + ArgWords(k, args[k])
  }

  /** What the moves down to `k` make of `c`. */
  function SetupFrom(args: seq<CallArg>, k: nat, c: Core): Core
    requires k <= |args| <= 31
    decreases |args| - k
  {
    if k == |args| then c
    else
      var d := SetupFrom(args, k + 1, c);
      SetX(d, k, ArgValue(d, args[k]))
  }

  function SetupSteps(args: seq<CallArg>, k: nat): nat
    requires k <= |args| <= 31
    decreases |args| - k
  {
    if k == |args| then 0 else SetupSteps(args, k + 1) + ArgSteps(k, args[k])
  }

  function ArgSteps(i: RegNo, arg: CallArg): nat { if arg.Address? then 2 else |ArgWords(i, arg)| }

  // ---------- running the moves ----------

  lemma LdrU64Runs(other: Uninterpreted, s: State, rt: RegNo, value: u64)
    requires s.pc + 16 < P64 && Holds(s.c.mem, s.pc, LdrU64Words(rt, value))
    ensures Run(other, s, 2) == State(SetX(s.c, rt, value), s.pc + 16)
  {
    hide Decode, Read32, Step;
    var ws := LdrU64Words(rt, value);
    assert Read32(s.c.mem, s.pc + 4 * 0) == ws[0];
    assert Read32(s.c.mem, s.pc + 4 * 1) == ws[1];
    assert Read32(s.c.mem, s.pc + 4 * 2) == ws[2];
    assert Read32(s.c.mem, s.pc + 4 * 3) == ws[3];
    assert Read64(s.c.mem, s.pc + 8) == value;
    DecodeLdrU64(rt);
    StepOn(other, s, ws[0], LdrLit(LitX, rt, 8));
    var u := Step(other, s);
    BranchOverLiteralWord();
    StepOn(other, u, 0x1400_0003, B(12));
    assert Run(other, s, 2) == Run(other, u, 1) == Step(other, u);
  }

  lemma UxtwValue(v: u64)
    ensures UbfmValue(v, 64, 0, 31) == LowWord(v)
  {
    Pow2Small();
  }

  lemma UxtwRuns(other: Uninterpreted, s: State, i: RegNo, reg: Reg)
    requires s.pc + 4 < P64 && Read32(s.c.mem, s.pc) == UxtwWord(XReg(i), reg)
    ensures Run(other, s, 1) == State(SetX(s.c, i, LowWord(X(s.c, reg.n))), s.pc + 4)
  {
    hide Decode, Read32, Step, UbfmValue, UxtwWord, LowWord;
    var w := UxtwWord(XReg(i), reg);
    DecodeUxtw(XReg(i), reg);
    UxtwValue(X(s.c, reg.n));
    StepOn(other, s, w, Decode(w));
    OneStep(other, s);
  }

  lemma MovRuns(other: Uninterpreted, s: State, i: RegNo, reg: Reg)
    requires s.pc + 4 < P64 && Read32(s.c.mem, s.pc) == MovWord(XReg(i), reg)
    ensures Run(other, s, 1) == State(SetX(s.c, i, X(s.c, reg.n)), s.pc + 4)
  {
    hide Decode, Read32, Step, MovWord;
    var w := MovWord(XReg(i), reg);
    DecodeMov(XReg(i), reg);
    StepOn(other, s, w, Decode(w));
    assert Run(other, s, 1) == Run(other, Step(other, s), 0);
  }

  lemma ArgRuns(other: Uninterpreted, s: State, i: RegNo, arg: CallArg)
    requires s.pc + 4 * |ArgWords(i, arg)| < P64 && Holds(s.c.mem, s.pc, ArgWords(i, arg))
    requires i < 31
    ensures Run(other, s, ArgSteps(i, arg)) == State(SetX(s.c, i, ArgValue(s.c, arg)), s.pc + 4 * |ArgWords(i, arg)|)
  {
    hide Decode, Read32, Step, LdrU64Words, UxtwWord, MovWord;
    match arg {
      case Address(value) => LdrU64Runs(other, s, i, value);
      case Register(reg) =>
        if !reg.is64 {
          assert Read32(s.c.mem, s.pc + 4 * 0) == ArgWords(i, arg)[0];
          UxtwRuns(other, s, i, reg);
        } else if reg.n != i {
          assert Read32(s.c.mem, s.pc + 4 * 0) == ArgWords(i, arg)[0];
          MovRuns(other, s, i, reg);
        }
    }
  }

  lemma {:induction false} SetupRuns(other: Uninterpreted, s: State, args: seq<CallArg>, k: nat)
    requires k <= |args| <= 31
    requires s.pc + 4 * |SetupWords(args, k)| < P64 && Holds(s.c.mem, s.pc, SetupWords(args, k))
    ensures Run(other, s, SetupSteps(args, k)) == State(SetupFrom(args, k, s.c), s.pc + 4 * |SetupWords(args, k)|)
    decreases |args| - k
  {
    hide Step, Run, ArgWords, ArgSteps, ArgValue, Holds;
    if k < |args| {
      var ws, rest, w := SetupWords(args, k), SetupWords(args, k + 1), ArgWords(k, args[k]);
      HoldsPart(s.c.mem, s.pc, ws, 0, |rest|);
      assert ws[0..|rest|] == rest;
      SetupRuns(other, s, args, k + 1);
      var u := Run(other, s, SetupSteps(args, k + 1));
      HoldsPart(s.c.mem, s.pc, ws, |rest|, |ws|);
      assert ws[|rest|..|ws|] == w;
      SetupKeepsMemory(args, k + 1, s.c);
      ArgRuns(other, u, k, args[k]);
      RunThen(other, s, SetupSteps(args, k + 1), ArgSteps(k, args[k]));
    } else {
      NoSetup(other, s, args);
    }
  }

  lemma NoSetup(other: Uninterpreted, s: State, args: seq<CallArg>)
    requires |args| <= 31
    ensures Run(other, s, SetupSteps(args, |args|)) == s
  {}

  lemma {:induction false} SetupKeepsMemory(args: seq<CallArg>, k: nat, c: Core)
    requires k <= |args| <= 31
    ensures SetupFrom(args, k, c) == c.(x := SetupFrom(args, k, c).x)
    decreases |args| - k
  {
    if k < |args| {
      SetupKeepsMemory(args, k + 1, c);
    }
  }

  // ---------- when the moves are a parallel move ----------

  /** Argument `j` still reads its register's entry value after register `i` took argument `i`. */
  predicate Unharmed(args: seq<CallArg>, j: nat, i: nat)
    requires j < i < |args|
  {
    args[j].Register? && args[j].reg.n == i ==>
      args[i].Register? && args[i].reg.n == i && (args[i].reg.is64 || !args[j].reg.is64)
  }

  /** No argument reads a register that a later argument has already overwritten. */
  ghost predicate ParallelSafe(args: seq<CallArg>) {
    forall j, i :: 0 <= j < i < |args| ==> Unharmed(args, j, i)
  }

  /** Every argument register holds its argument's value at entry. */
  ghost predicate Placed(args: seq<CallArg>, c: Core)
    requires |args| <= 31
  {
    forall k :: 0 <= k < |args| ==> SetupFrom(args, 0, c).x[k] == ArgValue(c, args[k])
  }

  /** The moves down to `k` touch no register below `k` or behind the arguments. */
  lemma {:induction false} OthersKept(args: seq<CallArg>, k: nat, c: Core, n: nat)
    requires k <= |args| <= 31 && n < 31 && (n < k || |args| <= n)
    ensures SetupFrom(args, k, c).x[n] == c.x[n]
    decreases |args| - k
  {
    hide ArgValue;
    if k < |args| {
      OthersKept(args, k + 1, c, n);
    }
  }

  /** Once written, an argument register keeps its value. */
  lemma {:induction false} WrittenOnce(args: seq<CallArg>, k: nat, l: nat, c: Core)
    requires k <= l < |args| <= 31
    ensures SetupFrom(args, k, c).x[l] == ArgValue(SetupFrom(args, l + 1, c), args[l])
    decreases l - k
  {
    hide ArgValue;
    if k < l {
      WrittenOnce(args, k + 1, l, c);
    }
  }

  lemma SafeArgPlaced(args: seq<CallArg>, c: Core, k: nat)
    requires ParallelSafe(args) && k < |args| <= 31
    ensures SetupFrom(args, 0, c).x[k] == ArgValue(c, args[k])
  {
    hide SetupFrom;
    WrittenOnce(args, 0, k, c);
    if args[k].Register? && args[k].reg.n < 31 {
      var n := args[k].reg.n;
      if k < n < |args| {
        assert Unharmed(args, k, n);
        WrittenOnce(args, k + 1, n, c);
        OthersKept(args, n + 1, c, n);
        assert LowWord(LowWord(c.x[n])) == LowWord(c.x[n]);
      } else {
        OthersKept(args, k + 1, c, n);
      }
    }
  }

  /** A core whose registers are all `v` but for register `i`. */
  function Probe(i: nat, v: u64, w: u64): Core
    requires i < 31
  {
    Core(seq(31, n => if n == i then w else v), 0, 0, seq(32, _ => 0), map[])
  }

  /** If argument `j` reads register `i` too late, some entry state shows it. */
  lemma HarmShows(args: seq<CallArg>, j: nat, i: nat)
    requires j < i < |args| <= 31 && !Unharmed(args, j, i)
    ensures exists c :: !Placed(args, c)
  {
    var c :=
      match args[i]
      case Address(value) => Probe(i, 0, if LowWord(value) == 0 then 1 else 0)
      case Register(reg) => if reg.n == i then Probe(i, 0, P32) else Probe(i, 0, 1);
    if Placed(args, c) {
      assert SetupFrom(args, 0, c).x[i] == ArgValue(c, args[i]);
      assert SetupFrom(args, 0, c).x[j] == ArgValue(c, args[j]);
      hide SetupFrom;
      WrittenOnce(args, 0, j, c);
      WrittenOnce(args, 0, i, c);
      WrittenOnce(args, j + 1, i, c);
      assert false;
    }
  }

  /**
   * The emitted moves place every argument's entry value, whatever the entry state, if and only if no
   * argument reads the register of a later argument, unless that one leaves what is read in place.
   */
  lemma MovesAreParallel(args: seq<CallArg>)
    requires |args| <= 31
    ensures ParallelSafe(args) <==> forall c :: Placed(args, c)
  {
    if ParallelSafe(args) {
      forall c
        ensures Placed(args, c)
      {
        forall k | 0 <= k < |args|
          ensures SetupFrom(args, 0, c).x[k] == ArgValue(c, args[k])
        {
          SafeArgPlaced(args, c, k);
        }
      }
    } else {
      var j, i :| 0 <= j < i < |args| && !Unharmed(args, j, i);
      HarmShows(args, j, i);
    }
  }

  // ---------- the call ----------

  /** Argument moves, then BL when `func` is near, else a load of `func` and BLR. */
  function CallWords(args: seq<CallArg>, func: u64, emitPc: u64): (ws: seq<u32>)
    requires |args| <= 31
  {
    var setup := SetupWords(args, 0);
    var pc := Wrap(emitPc + 4 * |setup|);
    if TryEncodeB(pc, func).Some? then setup + [BlWord(Delta(func, pc) / 4)]
    else setup + LdrU64Words(|args|, func) + [BlrWord(|args|)]
  }

  function CallSteps(args: seq<CallArg>, func: u64, emitPc: u64): nat
    requires |args| <= 31
  {
    SetupSteps(args, 0) + if TryEncodeB(Wrap(emitPc + 4 * |SetupWords(args, 0)|), func).Some? then 1 else 3
  }

  /** `t` has arrived at `func` with the return address `back` and, but for X30, every argument in place. */
  ghost predicate Called(s: State, t: State, args: seq<CallArg>, func: u64, back: int)
    requires |args| <= 31
  {
    && t.pc == func && t.c.x[30] == back
    && (forall k :: 0 <= k < |args| && k < 30 ==> t.c.x[k] == ArgValue(s.c, args[k]))
    && t.c == s.c.(x := t.c.x)
  }

  lemma NearCallRuns(other: Uninterpreted, s: State, func: u64)
    requires s.pc + 4 < P64 && s.pc % 4 == 0 && func % 4 == 0
    requires TryEncodeB(s.pc, func).Some? && Read32(s.c.mem, s.pc) == BlWord(Delta(func, s.pc) / 4)
    ensures Run(other, s, 1) == State(s.c.(x := s.c.x[30 := s.pc + 4]), func)
  {
    hide Decode, Read32, Step, BlWord;
    var imm := Delta(func, s.pc) / 4;
    DeltaAligned(func, s.pc);
    DeltaReaches(func, s.pc);
    DecodeBl(imm);
    StepOn(other, s, BlWord(imm), BL(4 * imm));
    assert Run(other, s, 1) == Run(other, Step(other, s), 0);
  }

  lemma FarCallRuns(other: Uninterpreted, s: State, r: RegNo, func: u64)
    requires s.pc + 20 < P64
    requires Holds(s.c.mem, s.pc, LdrU64Words(r, func) + [BlrWord(r)])
    ensures Run(other, s, 3) == State(SetX(SetX(s.c, r, func), 30, s.pc + 20), if r == 31 then 0 else func)
  {
    hide Decode, Read32, Step, BlrWord, LdrU64Words, Run;
    var ws := LdrU64Words(r, func) + [BlrWord(r)];
    HoldsPart(s.c.mem, s.pc, ws, 0, 4);
    assert ws[0..4] == LdrU64Words(r, func);
    LdrU64Runs(other, s, r, func);
    var u := Run(other, s, 2);
    assert Read32(s.c.mem, s.pc + 4 * 4) == ws[4];
    BlrRuns(other, u, r);
    RunThen(other, s, 2, 1);
  }

  lemma OneStep(other: Uninterpreted, s: State)
    ensures Run(other, s, 1) == Step(other, s)
  {
    hide Step;
    assert Run(other, s, 1) == Run(other, Step(other, s), 0);
  }

  /** The register after the last argument carries a far address; after X30 there is none but XZR. */
  function Arrival(args: seq<CallArg>, func: u64, emitPc: u64): u64
    requires |args| <= 31
  {
    if |args| == 31 && TryEncodeB(Wrap(emitPc + 4 * |SetupWords(args, 0)|), func).None? then 0 else func
  }

  /**
   * On both paths the call reaches `func` with the entry values of all arguments in place, except that a
   * far call with 31 arguments goes to address 0, and that the link takes the place of the 31st.
   */
  lemma CallReaches(other: Uninterpreted, s: State, args: seq<CallArg>, func: u64)
    requires |args| <= 31 && ParallelSafe(args)
    requires s.pc % 4 == 0 && func % 4 == 0 && s.pc + 4 * |CallWords(args, func, s.pc)| < P64
    requires Holds(s.c.mem, s.pc, CallWords(args, func, s.pc))
    ensures Called(s, Run(other, s, CallSteps(args, func, s.pc)), args, Arrival(args, func, s.pc),
                   s.pc + 4 * |CallWords(args, func, s.pc)|)
  {
    hide Run, Read32, SetupFrom, SetupWords, SetupSteps, BlWord, BlrWord, LdrU64Words, ArgValue, TryEncodeB, Delta,
         ParallelSafe, Holds, Wrap, Called;
    var ws, setup := CallWords(args, func, s.pc), SetupWords(args, 0);
    HoldsPart(s.c.mem, s.pc, ws, 0, |setup|);
    assert ws[0..|setup|] == setup;
    SetupRuns(other, s, args, 0);
    SetupKeepsMemory(args, 0, s.c);
    var u := Run(other, s, SetupSteps(args, 0));
    forall k | 0 <= k < |args|
      ensures u.c.x[k] == ArgValue(s.c, args[k])
    {
      SafeArgPlaced(args, s.c, k);
    }
    HoldsPart(s.c.mem, s.pc, ws, |setup|, |ws|);
    InRange(u.pc);
    if TryEncodeB(u.pc, func).Some? {
      var call := [BlWord(Delta(func, u.pc) / 4)];
      assert ws == setup + call && ws[|setup|..|ws|] == call;
      FirstWord(s.c.mem, u.pc, call[0]);
      NearCallRuns(other, u, func);
      RunThen(other, s, SetupSteps(args, 0), 1);
    } else {
      var call := LdrU64Words(|args|, func) + [BlrWord(|args|)];
      assert ws == setup + call && ws[|setup|..|ws|] == call;
      FarCallRuns(other, u, |args|, func);
      RunThen(other, s, SetupSteps(args, 0), 3);
    }
    CalledFrom(s, u, Run(other, s, CallSteps(args, func, s.pc)), args, func, Arrival(args, func, s.pc),
               s.pc + 4 * |ws|);
  }

  lemma InRange(a: u64)
    ensures Wrap(a) == a
  {}

  /** The call changes X30 and, behind the arguments, at most one more register. */
  lemma CalledFrom(s: State, u: State, t: State, args: seq<CallArg>, func: u64, to: u64, back: u64)
    requires |args| <= 31 && u.c == s.c.(x := u.c.x) && t.pc == to
    requires forall k :: 0 <= k < |args| ==> u.c.x[k] == ArgValue(s.c, args[k])
    requires t.c == SetX(u.c, 30, back) || t.c == SetX(SetX(u.c, |args|, func), 30, back)
    ensures Called(s, t, args, to, back)
  {
    hide ArgValue;
    var c := if t.c == SetX(u.c, 30, back) then u.c else SetX(u.c, |args|, func);
    assert t.c == c.(x := c.x[30 := back]) && c == s.c.(x := c.x);
  }

  lemma FirstWord(m: Mem, pc: int, w: u32)
    requires Holds(m, pc, [w])
    ensures Read32(m, pc) == w
  {
    hide Read32;
    assert Read32(m, pc + 4 * 0) == [w][0];
  }

  /** A call through register `r` goes where `r` points after the moves: to its argument, if it takes one. */
  lemma CallRegReaches(other: Uninterpreted, s: State, args: seq<CallArg>, r: RegNo)
    requires |args| <= 31 && ParallelSafe(args)
    requires s.pc + 4 * |SetupWords(args, 0)| + 4 < P64
    requires Holds(s.c.mem, s.pc, SetupWords(args, 0) + [BlrWord(r)])
    ensures Called(s, Run(other, s, SetupSteps(args, 0) + 1), args,
                   if r < |args| then ArgValue(s.c, args[r]) else X(s.c, r), s.pc + 4 * |SetupWords(args, 0)| + 4)
  {
    hide Run, Read32, Decode, SetupFrom, SetupWords, SetupSteps, BlrWord, ArgValue, ParallelSafe, Holds, Step;
    var setup := SetupWords(args, 0);
    var ws := setup + [BlrWord(r)];
    HoldsPart(s.c.mem, s.pc, ws, 0, |setup|);
    assert ws[0..|setup|] == setup;
    SetupRuns(other, s, args, 0);
    SetupKeepsMemory(args, 0, s.c);
    var u := Run(other, s, SetupSteps(args, 0));
    forall k | 0 <= k < |args|
      ensures u.c.x[k] == ArgValue(s.c, args[k])
    {
      SafeArgPlaced(args, s.c, k);
    }
    if |args| <= r < 31 {
      OthersKept(args, 0, s.c, r);
    }
    HoldsPart(s.c.mem, s.pc, ws, |setup|, |ws|);
    assert ws[|setup|..|ws|] == [BlrWord(r)];
    FirstWord(s.c.mem, u.pc, BlrWord(r));
    BlrRuns(other, u, r);
    RunThen(other, s, SetupSteps(args, 0), 1);
  }

  lemma BlrRuns(other: Uninterpreted, s: State, r: RegNo)
    requires s.pc + 4 < P64 && Read32(s.c.mem, s.pc) == BlrWord(r)
    ensures Run(other, s, 1) == State(SetX(s.c, 30, s.pc + 4), X(s.c, r))
  {
    hide Read32, Decode, BlrWord, Step;
    DecodeBlr(r);
    StepOn(other, s, BlrWord(r), BLR(r));
    OneStep(other, s);
  }
}
