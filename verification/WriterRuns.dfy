/**
 * Whole runs of the writer: emissions, labels, branches to labels, literal references and their
 * literals, in any order. Whatever comes in between, each reference is patched for its own literal.
 */
module WriterRuns {
  import opened Options
  import opened Words
  import opened Memory
  import opened A64
  import opened Encode
  import opened Relocator
  import opened WriterWords
  import opened Writer
  import opened WriterLaws

  /** A literal reference: where its load is, and the literal that was last placed for it. */
  datatype Ref = Ref(off: nat, reg: Reg, lit: Option<Literal>)
  datatype Literal = Literal(at: nat, value: u64)

  /** The writer's buffer, labels and pending branches, and the references taken so far. */
  datatype Draft = Draft(buf: seq<u8>, labels: map<string, nat>, fixups: seq<Fixup>, refs: seq<Ref>)

  datatype Op =
    | Emit(data: seq<u8>)
    | Label(name: string)
    | BranchTo(kind: FixupKind, name: string)
    | LoadRef(reg: Reg)
    | Place(ref: nat, value: u64)

  function Do(s: Draft, op: Op): Draft {
    match op
    case Emit(data) => s.(buf := s.buf + data)
    case Label(name) => s.(labels := s.labels[name := |s.buf|])
    case BranchTo(kind, name) =>
      s.(buf := s.buf + LE32(Placeholder(kind)), fixups := s.fixups + [Fixup(|s.buf|, name, kind)])
    case LoadRef(reg) => s.(buf := s.buf + LE32(LdrRefWord(reg)), refs := s.refs + [Ref(|s.buf|, reg, None)])
    case Place(ref, value) =>
      if ref >= |s.refs| || s.refs[ref].off + 4 > |s.buf| || (|s.buf| - s.refs[ref].off) % 4 != 0 then s
      else
        var r := s.refs[ref];
        s.(buf := WithLiteral(s.buf, r.off, value), refs := s.refs[ref := r.(lit := Some(Literal(|s.buf|, value)))])
  }

  function DoAll(s: Draft, ops: seq<Op>): Draft
    decreases |ops|
  {
    if ops == [] then s else Do(DoAll(s, ops[..|ops| - 1]), ops[|ops| - 1])
  }

  const Empty: Draft := Draft([], map[], [], [])

  // ---------- what every run keeps ----------

  /** The reference's word as it stands. */
  function RefWord(r: Ref): int {
    if r.lit.None? || r.lit.value.at < r.off then LdrRefWord(r.reg)
    else WithImm19(LdrRefWord(r.reg), (r.lit.value.at - r.off) / 4 % 0x8_0000)
  }

  /** The literal is in the buffer, behind its reference and a whole number of words away. */
  ghost predicate LiteralOk(buf: seq<u8>, r: Ref) {
    r.lit.Some? ==>
      var l := r.lit.value;
      r.off + 4 <= l.at && l.at + 8 <= |buf| && (l.at - r.off) % 4 == 0 && buf[l.at..l.at + 8] == LE64(l.value)
  }

  ghost predicate RefOk(buf: seq<u8>, r: Ref) {
    r.off + 4 <= |buf| && WordAt(buf, r.off) == RefWord(r) && LiteralOk(buf, r)
  }

  /** The word at `off` and the literal of `r` lie apart. */
  predicate OffLiteral(r: Ref, off: nat) {
    r.lit.Some? ==> off + 4 <= r.lit.value.at || r.lit.value.at + 8 <= off
  }

  predicate WordsApart(a: nat, b: nat) { a + 4 <= b || b + 4 <= a }

  ghost predicate Inv(s: Draft) {
    && FixupsFit(|s.buf|, s.fixups)
    && (forall i :: 0 <= i < |s.refs| ==> RefOk(s.buf, s.refs[i]))
    && (forall i, j :: 0 <= i < j < |s.refs| ==> WordsApart(s.refs[i].off, s.refs[j].off))
    && (forall i, j :: 0 <= i < |s.refs| && 0 <= j < |s.refs| ==> OffLiteral(s.refs[i], s.refs[j].off))
    && (forall i, j :: 0 <= i < |s.refs| && 0 <= j < |s.fixups| ==>
          WordsApart(s.refs[i].off, s.fixups[j].offset) && OffLiteral(s.refs[i], s.fixups[j].offset))
  }

  /** What lies at the end of the buffer stays apart from everything before it. */
  lemma BehindIsApart(buf: seq<u8>, r: Ref)
    requires RefOk(buf, r)
    ensures WordsApart(r.off, |buf|) && OffLiteral(r, |buf|)
  {}

  lemma AppendKeepsRef(buf: seq<u8>, more: seq<u8>, r: Ref)
    requires RefOk(buf, r)
    ensures RefOk(buf + more, r)
  {
    hide FromLE32, WithImm19, LdrRefWord, LE64;
    assert (buf + more)[r.off..r.off + 4] == buf[r.off..r.off + 4];
    if r.lit.Some? {
      var l := r.lit.value;
      assert (buf + more)[l.at..l.at + 8] == buf[l.at..l.at + 8];
    }
  }

  lemma AppendKeepsInv(s: Draft, more: seq<u8>)
    requires Inv(s)
    ensures Inv(s.(buf := s.buf + more))
  {
    hide OffLiteral, WordsApart, RefOk;
    forall i | 0 <= i < |s.refs|
      ensures RefOk(s.buf + more, s.refs[i])
    {
      AppendKeepsRef(s.buf, more, s.refs[i]);
    }
  }

  lemma BranchKeepsInv(s: Draft, kind: FixupKind, name: string)
    requires Inv(s)
    ensures Inv(Do(s, BranchTo(kind, name)))
  {
    hide OffLiteral, WordsApart, RefOk, LE32, Placeholder;
    AppendKeepsInv(s, LE32(Placeholder(kind)));
    var t := Do(s, BranchTo(kind, name));
    forall i, j | 0 <= i < |t.refs| && 0 <= j < |t.fixups|
      ensures WordsApart(t.refs[i].off, t.fixups[j].offset) && OffLiteral(t.refs[i], t.fixups[j].offset)
    {
      BehindIsApart(s.buf, s.refs[i]);
    }
  }

  lemma FreshRef(buf: seq<u8>, reg: Reg)
    ensures RefOk(buf + LE32(LdrRefWord(reg)), Ref(|buf|, reg, None))
  {
    hide FromLE32, LE32, LdrRefWord;
    var w := LE32(LdrRefWord(reg));
    assert (buf + w)[|buf|..|buf| + 4] == w;
    LE32RoundTrip(LdrRefWord(reg));
  }

  lemma LoadKeepsInv(s: Draft, reg: Reg)
    requires Inv(s)
    ensures Inv(Do(s, LoadRef(reg)))
  {
    hide WordsApart, RefOk, LE32, LdrRefWord;
    AppendKeepsInv(s, LE32(LdrRefWord(reg)));
    FreshRef(s.buf, reg);
    var t, n := Do(s, LoadRef(reg)), |s.refs|;
    forall i | 0 <= i < n
      ensures WordsApart(t.refs[i].off, t.refs[n].off) && OffLiteral(t.refs[i], t.refs[n].off)
    {
      BehindIsApart(s.buf, s.refs[i]);
    }
    forall j | 0 <= j < |s.fixups|
      ensures WordsApart(t.refs[n].off, t.fixups[j].offset)
    {
      FixupBehind(s, j);
    }
  }

  lemma FixupBehind(s: Draft, j: nat)
    requires FixupsFit(|s.buf|, s.fixups) && j < |s.fixups|
    ensures WordsApart(|s.buf|, s.fixups[j].offset)
  {}

  /** A field that is set twice holds what it was set to last. */
  lemma FieldSetAgain(reg: Reg, a: int, b: int)
    requires 0 <= a < 0x8_0000 && 0 <= b < 0x8_0000
    ensures var w := WithImm19(LdrRefWord(reg), a); 0 <= w < P32 && WithImm19(w, b) == WithImm19(LdrRefWord(reg), b)
    ensures LdrRefWord(reg) / 0x20 % 0x8_0000 == 0
  {
    var top := if reg.is64 then 0x58 else 0x18;
    var w := LdrRefWord(reg);
    Fields19(w, reg.n, 0, top);
    Fields19(WithImm19(w, a), reg.n, a, top);
  }

  /** Placing a literal patches its own reference, also one that had a literal before. */
  lemma PlacedRef(buf: seq<u8>, r: Ref, value: u64)
    requires RefOk(buf, r) && (|buf| - r.off) % 4 == 0
    ensures RefOk(WithLiteral(buf, r.off, value), r.(lit := Some(Literal(|buf|, value))))
  {
    var imm := (|buf| - r.off) / 4 % 0x8_0000;
    FieldSetAgain(r.reg, if r.lit.Some? then (r.lit.value.at - r.off) / 4 % 0x8_0000 else 0, imm);
    hide FromLE32, WithImm19, LdrRefWord, LE64, PatchWord;
    var w := WithImm19(WordAt(buf, r.off), imm);
    PatchedWord(buf, r.off, w, r.off);
    var b := PatchWord(buf, r.off, w);
    var t := WithLiteral(buf, r.off, value);
    assert t[r.off..r.off + 4] == b[r.off..r.off + 4];
    assert t[|buf|..|buf| + 8] == LE64(value);
  }

  /** It leaves every other reference and its literal alone. */
  lemma OtherRef(buf: seq<u8>, off: nat, value: u64, r: Ref)
    requires RefOk(buf, r) && off + 4 <= |buf| && WordsApart(off, r.off) && OffLiteral(r, off)
    ensures RefOk(WithLiteral(buf, off, value), r)
  {
    hide FromLE32, WithImm19, LdrRefWord, LE64, PatchWord;
    var w := WithImm19(WordAt(buf, off), (|buf| - off) / 4 % 0x8_0000);
    var b := PatchWord(buf, off, w);
    PatchedWord(buf, off, w, r.off);
    if r.lit.Some? {
      var l := r.lit.value;
      assert b[l.at..l.at + 8] == buf[l.at..l.at + 8];
    }
    AppendKeepsRef(b, LE64(value), r);
  }

  lemma PlaceKeepsInv(s: Draft, ref: nat, value: u64)
    requires Inv(s)
    ensures Inv(Do(s, Place(ref, value)))
  {
    hide RefOk, WithLiteral;
    var t := Do(s, Place(ref, value));
    if t != s {
      var r := s.refs[ref];
      forall i | 0 <= i < |t.refs|
        ensures RefOk(t.buf, t.refs[i])
      {
        if i == ref {
          PlacedRef(s.buf, r, value);
        } else {
          OtherRef(s.buf, r.off, value, s.refs[i]);
        }
      }
      PlacedLength(s.buf, r.off, value);
      forall j | 0 <= j < |s.refs|
        ensures OffLiteral(t.refs[ref], s.refs[j].off)
      {
        RefWithin(s.buf, s.refs[j]);
      }
    }
  }

  lemma PlacedLength(buf: seq<u8>, off: nat, value: u64)
    requires off + 4 <= |buf|
    ensures |WithLiteral(buf, off, value)| == |buf| + 8
  {}

  lemma RefWithin(buf: seq<u8>, r: Ref)
    requires RefOk(buf, r)
    ensures r.off + 4 <= |buf|
  {}

  lemma OpKeepsInv(s: Draft, op: Op)
    requires Inv(s)
    ensures Inv(Do(s, op))
  {
    match op
    case Emit(data) => AppendKeepsInv(s, data);
    case Label(_) =>
    case BranchTo(kind, name) => BranchKeepsInv(s, kind, name);
    case LoadRef(reg) => LoadKeepsInv(s, reg);
    case Place(ref, value) => PlaceKeepsInv(s, ref, value);
  }

  /** Along any run, every reference is patched for the literal that was last placed for it. */
  lemma {:induction false} EveryRunKeepsInv(s: Draft, ops: seq<Op>)
    requires Inv(s)
    ensures Inv(DoAll(s, ops))
    decreases |ops|
  {
    hide Inv, Do;
    if ops != [] {
      EveryRunKeepsInv(s, ops[..|ops| - 1]);
      OpKeepsInv(DoAll(s, ops[..|ops| - 1]), ops[|ops| - 1]);
    }
  }

  // ---------- the flushed buffer ----------

  /** Resolving the branches touches no reference and no literal. */
  lemma ResolvedRef(s: Draft, pc: u64, i: nat)
    requires Inv(s) && i < |s.refs| && Resolve(s.buf, pc, s.labels, s.fixups).1
    ensures RefOk(Resolve(s.buf, pc, s.labels, s.fixups).0, s.refs[i])
  {
    hide Resolve, FromLE32, LE64, WithImm19, LdrRefWord, WordFor;
    var r, code := s.refs[i], Resolve(s.buf, pc, s.labels, s.fixups).0;
    assert RefOk(s.buf, r);
    ResolvedBytes(s.buf, pc, s.labels, s.fixups);
    forall k | r.off <= k < r.off + 4 || (r.lit.Some? && r.lit.value.at <= k < r.lit.value.at + 8)
      ensures code[k] == s.buf[k]
    {
      forall j | 0 <= j < |s.fixups|
        ensures !Within(s.fixups[j], k)
      {
        assert WordsApart(r.off, s.fixups[j].offset) && OffLiteral(r, s.fixups[j].offset);
      }
    }
    assert code[r.off..r.off + 4] == s.buf[r.off..r.off + 4];
    if r.lit.Some? {
      var l := r.lit.value;
      assert code[l.at..l.at + 8] == s.buf[l.at..l.at + 8];
    }
  }

  lemma EmptyInv()
    ensures Inv(Empty)
  {}

  /** What a run leaves when it is flushed, or nothing if a branch cannot be resolved. */
  ghost function Flushed(pc: u64, ops: seq<Op>): Option<seq<u8>> {
    EmptyInv();
    EveryRunKeepsInv(Empty, ops);
    var s := DoAll(Empty, ops);
    var r := Resolve(s.buf, pc, s.labels, s.fixups);
    if r.1 then Some(r.0) else None
  }

  /** The load that a reference has become. */
  function LoadOf(r: Ref): Insn
    requires r.lit.Some?
  {
    LdrLit(if r.reg.is64 then LitX else LitW, r.reg.n,
           4 * SignExtend((r.lit.value.at - r.off) / 4 % 0x8_0000, 0x4_0000))
  }

  lemma LoadIsThere(code: seq<u8>, r: Ref)
    requires RefOk(code, r) && r.lit.Some?
    ensures Decode(WordAt(code, r.off)) == LoadOf(r)
    ensures LoadOf(r).off == r.lit.value.at - r.off <==> r.lit.value.at - r.off < 0x10_0000
  {
    hide Decode, FromLE32, LdrRefWord, WithImm19, SignExtend, LE64;
    LdrRefDecodes(r.reg, (r.lit.value.at - r.off) / 4 % 0x8_0000);
    DistanceField(r.lit.value.at - r.off);
  }

  /**
   * After any run and a successful flush, the load of each reference that has a literal loads that
   * literal, whatever was emitted, labelled, referenced and placed in between, if it is less than 1 MiB
   * away; and only then does it point there.
   */
  lemma EveryRefLoadsItsLiteral(other: Uninterpreted, m: State, pc: u64, ops: seq<Op>, code: seq<u8>, r: Ref)
    requires Flushed(pc, ops) == Some(code) && r in DoAll(Empty, ops).refs && r.lit.Some?
    requires pc + |code| < P64 && CodeIn(m.c.mem, pc, code) && m.pc == pc + r.off
    ensures var l := r.lit.value;
      && Decode(Read32(m.c.mem, m.pc)) == LoadOf(r) && (LoadOf(r).off == l.at - r.off <==> l.at - r.off < 0x10_0000)
      && (l.at - r.off < 0x10_0000 ==>
            Step(other, m) == State(SetX(m.c, r.reg.n, if r.reg.is64 then l.value else LowWord(l.value)),
                                    Wrap(m.pc + 4)))
  {
    hide Resolve, DoAll, Decode, Read32, FromLE32, LE64, LdrRefWord, WithImm19, Step, SignExtend, Inv;
    EmptyInv();
    EveryRunKeepsInv(Empty, ops);
    var s := DoAll(Empty, ops);
    var i: nat :| i < |s.refs| && s.refs[i] == r;
    ResolvedRef(s, pc, i);
    LoadIsThere(code, r);
    WordInCode(m.c.mem, pc, code, r.off);
    var l := r.lit.value;
    if l.at - r.off < 0x10_0000 {
      LiteralIsLoaded(other, m, pc, code, r.reg, r.off, l.at, l.value);
    }
  }

  // ---------- which branch, which label, which literal ----------

  /** How much lies in the buffer before operation `k`. */
  function Before(ops: seq<Op>, k: nat): nat
    requires k <= |ops|
  {
    |DoAll(Empty, ops[..k]).buf|
  }

  /** A label stands for the place where it was put last. */
  lemma {:induction false} LabelStays(ops: seq<Op>, l: nat)
    requires l < |ops| && ops[l].Label? && forall j :: l < j < |ops| ==> ops[j] != ops[l]
    ensures var labels := DoAll(Empty, ops).labels;
      ops[l].name in labels && labels[ops[l].name] == Before(ops, l)
    decreases |ops|
  {
    hide LE32, WithLiteral, Placeholder, LdrRefWord;
    var rest := ops[..|ops| - 1];
    if l < |rest| {
      LabelStays(rest, l);
      assert rest[..l] == ops[..l];
    }
  }

  /** A branch to a label waits at the place where it was emitted. */
  lemma {:induction false} BranchStays(ops: seq<Op>, b: nat) returns (i: nat)
    requires b < |ops| && ops[b].BranchTo?
    ensures var fixups := DoAll(Empty, ops).fixups;
      i < |fixups| && fixups[i] == Fixup(Before(ops, b), ops[b].name, ops[b].kind)
    decreases |ops|
  {
    hide LE32, WithLiteral, Placeholder, LdrRefWord;
    var rest := ops[..|ops| - 1];
    if b < |rest| {
      i := BranchStays(rest, b);
      assert rest[..b] == ops[..b];
    } else {
      i := |DoAll(Empty, rest).fixups|;
    }
  }

  /**
   * After any run and a successful flush, each branch to a label is a branch of its kind at the place where it
   * was emitted, and leads to where its label was put last, before or behind it, if and only if that is in
   * reach.
   */
  lemma EveryBranchReachesItsLabel(pc: u64, ops: seq<Op>, code: seq<u8>, b: nat, l: nat)
    requires Flushed(pc, ops) == Some(code)
    requires b < |ops| && ops[b].BranchTo? && l < |ops| && ops[l] == Label(ops[b].name)
    requires forall j :: l < j < |ops| ==> ops[j] != ops[l]
    ensures Before(ops, b) + 4 <= |code|
    ensures var at, to := Wrap(pc + Before(ops, b)), Wrap(pc + Before(ops, l));
      var insn := Decode(WordAt(code, Before(ops, b)));
      && BranchOf(ops[b].kind, insn)
      && (Wrap(at + BranchOffset(insn)) == to <==> Reachable(ops[b].kind, at, to))
  {
    hide Resolve, DoAll, Decode, FromLE32, BranchOf, Reachable, RefOk, Wrap;
    EmptyInv();
    EveryRunKeepsInv(Empty, ops);
    var s := DoAll(Empty, ops);
    LabelStays(ops, l);
    var i := BranchStays(ops, b);
    LabelsResolve(s.buf, pc, s.labels, s.fixups, i);
  }

  /** Whether a run has an operation for each label that it branches to; without one the flush is refused. */
  lemma FlushNeedsLabels(pc: u64, ops: seq<Op>, b: nat)
    requires b < |ops| && ops[b].BranchTo? && forall j :: 0 <= j < |ops| ==> ops[j] != Label(ops[b].name)
    ensures Flushed(pc, ops) == None
  {
    hide Resolve, DoAll, RefOk, FixupWord;
    EmptyInv();
    EveryRunKeepsInv(Empty, ops);
    var s := DoAll(Empty, ops);
    var i := BranchStays(ops, b);
    NeverPut(ops, ops[b].name);
    ResolvesWhenAllDo(s.buf, pc, s.labels, s.fixups);
    assert WordFor(pc, s.labels, s.fixups[i]) == None;
  }

  lemma {:induction false} NeverPut(ops: seq<Op>, name: string)
    requires forall j :: 0 <= j < |ops| ==> ops[j] != Label(name)
    ensures name !in DoAll(Empty, ops).labels
    decreases |ops|
  {
    hide LE32, WithLiteral, Placeholder, LdrRefWord;
    if ops != [] {
      NeverPut(ops[..|ops| - 1], name);
    }
  }

  /** The reference that operation `r` takes, under the number `k` that the run gives it. */
  ghost predicate TakesRef(ops: seq<Op>, r: nat, k: nat) {
    r < |ops| && ops[r].LoadRef? && k == |DoAll(Empty, ops[..r]).refs|
  }

  lemma {:induction false} RefStays(ops: seq<Op>, r: nat, k: nat)
    requires TakesRef(ops, r, k)
    ensures var refs := DoAll(Empty, ops).refs;
      k < |refs| && refs[k].off == Before(ops, r) && refs[k].reg == ops[r].reg
    decreases |ops|
  {
    hide LE32, WithLiteral, Placeholder, LdrRefWord;
    var rest := ops[..|ops| - 1];
    if r < |rest| {
      assert rest[..r] == ops[..r];
      RefStays(rest, r, k);
    }
  }

  /** A literal is that of the reference it was placed for last, at the place where it was placed. */
  lemma {:induction false} LiteralStays(ops: seq<Op>, r: nat, k: nat, p: nat)
    requires TakesRef(ops, r, k) && r < p < |ops| && ops[p].Place? && ops[p].ref == k
    requires forall j :: p < j < |ops| ==> !(ops[j].Place? && ops[j].ref == k)
    requires (Before(ops, p) - Before(ops, r)) % 4 == 0
    ensures var refs := DoAll(Empty, ops).refs;
      k < |refs| && refs[k] == Ref(Before(ops, r), ops[r].reg, Some(Literal(Before(ops, p), ops[p].value)))
    decreases |ops|
  {
    hide LE32, WithLiteral, Placeholder, LdrRefWord;
    var rest := ops[..|ops| - 1];
    assert rest[..r] == ops[..r];
    RefStays(rest, r, k);
    if p < |rest| {
      assert rest[..p] == ops[..p];
      LiteralStays(rest, r, k, p);
    } else {
      RefFits(rest, k);
    }
  }

  lemma RefFits(ops: seq<Op>, k: nat)
    requires k < |DoAll(Empty, ops).refs|
    ensures DoAll(Empty, ops).refs[k].off + 4 <= |DoAll(Empty, ops).buf|
  {
    hide DoAll, FromLE32, RefWord, LiteralOk;
    EmptyInv();
    EveryRunKeepsInv(Empty, ops);
  }

  // ---------- the writer itself ----------

  /** References are 32-bit offsets. */
  ghost predicate Addressable(s: Draft, ops: seq<Op>)
    decreases |ops|
  {
    ops == [] || ((ops[0].LoadRef? ==> |s.buf| < P32) && Addressable(Do(s, ops[0]), ops[1..]))
  }

  function DoFrom(s: Draft, ops: seq<Op>): Draft
    decreases |ops|
  {
    if ops == [] then s else DoFrom(Do(s, ops[0]), ops[1..])
  }

  lemma {:induction false} SameRun(s: Draft, ops: seq<Op>)
    ensures DoFrom(s, ops) == DoAll(s, ops)
    decreases |ops|
  {
    hide Do;
    if ops != [] {
      SameRun(Do(s, ops[0]), ops[1..]);
      FirstOp(s, ops);
    }
  }

  lemma {:induction false} FirstOp(s: Draft, ops: seq<Op>)
    requires ops != []
    ensures DoAll(s, ops) == DoAll(Do(s, ops[0]), ops[1..])
    decreases |ops|
  {
    hide Do;
    if |ops| == 1 {
      assert ops[..0] == [] && DoAll(s, ops[..0]) == s;
    } else {
      FirstOp(s, ops[..|ops| - 1]);
      assert ops[..|ops| - 1][1..] == ops[1..][..|ops| - 2];
    }
  }

  lemma NextOp(s: Draft, ops: seq<Op>, i: nat)
    requires i < |ops| && Addressable(s, ops[i..])
    ensures Addressable(Do(s, ops[i]), ops[i + 1..]) && (ops[i].LoadRef? ==> |s.buf| < P32)
    ensures DoFrom(s, ops[i..]) == DoFrom(Do(s, ops[i]), ops[i + 1..])
  {
    hide Do;
    assert ops[i..][0] == ops[i] && ops[i..][1..] == ops[i + 1..];
  }

  /** One call to the writer. */
  method PerformOne(w: Arm64Writer, refs: seq<Ref>, op: Op) returns (next: seq<Ref>)
    requires w.Valid() && (op.LoadRef? ==> |w.buf| < P32)
    requires forall k :: 0 <= k < |refs| ==> refs[k].off < P32
    modifies w
    ensures w.Valid() && w.pc == old(w.pc)
    ensures Draft(w.buf, w.labels, w.fixups, next) == Do(old(Draft(w.buf, w.labels, w.fixups, refs)), op)
    ensures forall k :: 0 <= k < |next| ==> next[k].off < P32
  {
    hide LE32, Placeholder, LdrRefWord, WithLiteral, FixupsFit;
    next := refs;
    match op {
      case Emit(data) => w.PutBytes(data);
      case Label(name) => w.PutLabel(name);
      case BranchTo(kind, name) => w.PutBranchToLabel(kind, name);
      case LoadRef(reg) =>
        BytesSmall(LdrRefWord(reg));
        var ref := w.PutLdrRegRef(reg);
        next := refs + [Ref(ref, reg, None)];
      case Place(ref, value) =>
        if ref < |refs| {
          var at := |w.buf|;
          var r := w.PutLdrRegValue(refs[ref].off, value);
          if r == Done {
            next := refs[ref := refs[ref].(lit := Some(Literal(at, value)))];
          }
        }
    }
  }

  /** A client of the writer; what it leaves is what the runs above describe. */
  method Perform(w: Arm64Writer, ops: seq<Op>) returns (refs: seq<Ref>)
    requires w.Valid() && w.buf == [] && w.labels == map[] && w.fixups == [] && Addressable(Empty, ops)
    modifies w
    ensures w.Valid() && Draft(w.buf, w.labels, w.fixups, refs) == DoAll(Empty, ops)
    ensures w.pc == old(w.pc)
  {
    hide Do, Addressable, FixupsFit, DoFrom, DoAll;
    refs := [];
    ghost var s := Empty;
    SameRun(Empty, ops);
    assert ops[0..] == ops;
    for i := 0 to |ops|
      invariant w.Valid() && w.pc == old(w.pc) && s == Draft(w.buf, w.labels, w.fixups, refs)
      invariant DoFrom(s, ops[i..]) == DoAll(Empty, ops) && Addressable(s, ops[i..])
      invariant forall k :: 0 <= k < |refs| ==> refs[k].off < P32
    {
      NextOp(s, ops, i);
      refs := PerformOne(w, refs, ops[i]);
      s := Do(s, ops[i]);
    }
    AllDone(s, ops);
  }

  lemma AllDone(s: Draft, ops: seq<Op>)
    ensures DoFrom(s, ops[|ops|..]) == s
  {}
}
