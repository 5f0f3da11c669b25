/** What resolved labels and literal references mean for the machine that runs the buffer. */
module WriterLaws {
  import opened Options
  import opened Words
  import opened Memory
  import opened A64
  import opened Encode
  import opened Relocator
  import opened WriterWords
  import opened Writer

  // ---------- labels ----------

  /** `i` is the branch that `kind` asks for; six bits of a bit number fit. */
  predicate BranchOf(kind: FixupKind, i: Insn) {
    match kind
    case FixB => i.B?
    case FixBl => i.BL?
    case FixBCond(cond) => i.BCond? && i.cond == cond.Code()
    case FixCbz(reg, nonzero) => i.CB? && i.rt == reg.n && i.is64 == reg.is64 && i.nonzero == nonzero
    case FixTbz(reg, bit, nonzero) => i.TB? && i.rt == reg.n && i.bit == bit % 64 && i.nonzero == nonzero
  }

  function BranchOffset(i: Insn): int {
    match i
    case B(off) => off
    case BL(off) => off
    case BCond(_, off) => off
    case CB(_, _, _, off) => off
    case TB(_, _, _, off) => off
    case _ => 0
  }

  /** The distances that the branch's offset field can hold. */
  predicate Reachable(kind: FixupKind, pc: u64, target: u64) {
    match kind
    case FixB => Reaches26(pc, target)
    case FixBl => Reaches26(pc, target)
    case FixBCond(_) => Reaches19(pc, target)
    case FixCbz(_, _) => Reaches19(pc, target)
    case FixTbz(_, _, _) => Reaches14(pc, target)
  }

  /**
   * A patched word is the branch that was asked for, and lands on its target exactly when in reach. B and BL
   * refuse exactly the distances beyond 128 MiB; the others refuse none.
   */
  lemma FixupWordLands(kind: FixupKind, pc: u64, target: u64)
    ensures var w := FixupWord(kind, pc, target);
      && (w.None? ==> !Reachable(kind, pc, target))
      && (w.None? <==> (kind.FixB? || kind.FixBl?) && !(-0x800_0000 <= Delta(target, pc) < 0x800_0000))
      && (w.Some? ==>
            && BranchOf(kind, Decode(w.value))
            && (Wrap(pc + BranchOffset(Decode(w.value))) == target <==> Reachable(kind, pc, target)))
  {
    hide Decode, EncodeBCond, EncodeCbz, EncodeTbz, TryEncodeB, BlWord, Wrap, Delta, Off19, SignExtend;
    match kind {
      case FixB =>
        DecodeB(pc, target);
      case FixBl =>
        var imm := Delta(target, pc) / 4;
        if -0x200_0000 <= imm < 0x200_0000 {
          DecodeBl(imm);
          OffsetLands(pc, target, 4 * imm);
        }
      case FixBCond(cond) =>
        DecodeBCond(cond, pc, target);
        Off19Exact(pc, target);
      case FixCbz(reg, nonzero) =>
        DecodeCbz(reg.n, nonzero, reg.is64, pc, target);
        Off19Exact(pc, target);
      case FixTbz(reg, bit, nonzero) =>
        DecodeTbz(reg.n, bit, nonzero, pc, target);
        Sign14(Delta(target, pc) / 4);
        OffsetLands(pc, target, 4 * SignExtend(Delta(target, pc) / 4 % 0x4000, 0x2000));
    }
  }

  lemma PatchedWord(buf: seq<u8>, off: nat, w: u32, at: nat)
    requires off + 4 <= |buf| && at + 4 <= |buf|
    ensures WordAt(PatchWord(buf, off, w), off) == w
    ensures at + 4 <= off || off + 4 <= at ==> WordAt(PatchWord(buf, off, w), at) == WordAt(buf, at)
    ensures forall k :: 0 <= k < |buf| && !(off <= k < off + 4) ==> PatchWord(buf, off, w)[k] == buf[k]
  {
    LE32RoundTrip(w);
    hide FromLE32, LE32;
    var r := PatchWord(buf, off, w);
    assert r[off..off + 4] == LE32(w);
    if at + 4 <= off || off + 4 <= at {
      assert r[at..at + 4] == buf[at..at + 4];
    }
  }

  /** Byte `k` belongs to the branch at `f`. */
  predicate Within(f: Fixup, k: int) { f.offset <= k < f.offset + 4 }

  /** Resolution succeeds exactly when every label is defined and every branch accepts its distance. */
  lemma {:induction false} ResolvesWhenAllDo(buf: seq<u8>, pc: u64, labels: map<string, nat>, fixups: seq<Fixup>)
    requires FixupsFit(|buf|, fixups)
    ensures Resolve(buf, pc, labels, fixups).1
       <==> forall i :: 0 <= i < |fixups| ==> WordFor(pc, labels, fixups[i]).Some?
    decreases |fixups|
  {
    hide WordFor, PatchWord;
    if fixups != [] {
      var w := WordFor(pc, labels, fixups[0]);
      if w.Some? {
        ResolvesWhenAllDo(PatchWord(buf, fixups[0].offset, w.value), pc, labels, fixups[1..]);
        assert forall i :: 0 < i < |fixups| ==> fixups[i] == fixups[1..][i - 1];
        assert forall i :: 0 <= i < |fixups| - 1 ==> fixups[1..][i] == fixups[i + 1];
      }
    }
  }

  /** A successful resolution writes each branch's word and no other byte. */
  lemma {:induction false} ResolvedBytes(buf: seq<u8>, pc: u64, labels: map<string, nat>, fixups: seq<Fixup>)
    requires FixupsFit(|buf|, fixups) && Resolve(buf, pc, labels, fixups).1
    ensures var r := Resolve(buf, pc, labels, fixups).0;
      && (forall i :: 0 <= i < |fixups| ==> Some(WordAt(r, fixups[i].offset)) == WordFor(pc, labels, fixups[i]))
      && (forall k :: 0 <= k < |buf| && (forall i :: 0 <= i < |fixups| ==> !Within(fixups[i], k)) ==> r[k] == buf[k])
    decreases |fixups|
  {
    hide WordFor, FromLE32;
    if fixups != [] {
      var f, rest := fixups[0], fixups[1..];
      var w := WordFor(pc, labels, f).value;
      var b := PatchWord(buf, f.offset, w);
      PatchedWord(buf, f.offset, w, f.offset);
      hide PatchWord;
      assert forall i :: 0 <= i < |rest| ==> rest[i] == fixups[i + 1];
      ResolvedBytes(b, pc, labels, rest);
      var r := Resolve(buf, pc, labels, fixups).0;
      forall k | f.offset <= k < f.offset + 4
        ensures r[k] == b[k]
      {
        forall i | 0 <= i < |rest|
          ensures !Within(rest[i], k)
        {}
      }
      assert r[f.offset..f.offset + 4] == b[f.offset..f.offset + 4];
      forall i | 0 <= i < |fixups|
        ensures Some(WordAt(r, fixups[i].offset)) == WordFor(pc, labels, fixups[i])
      {
        if i > 0 {
          assert rest[i - 1] == fixups[i];
        }
      }
    }
  }

  /**
   * After a successful flush every branch to a label is a branch of its kind, and leads to the label
   * if and only if the label is within reach of its offset field; no other byte has changed.
   */
  lemma LabelsResolve(buf: seq<u8>, pc: u64, labels: map<string, nat>, fixups: seq<Fixup>, i: nat)
    requires FixupsFit(|buf|, fixups) && i < |fixups|
    requires Resolve(buf, pc, labels, fixups).1
    ensures fixups[i].name in labels
    ensures var f := fixups[i];
      var at, target := Wrap(pc + f.offset), Wrap(pc + labels[f.name]);
      var insn := Decode(WordAt(Resolve(buf, pc, labels, fixups).0, f.offset));
      BranchOf(f.kind, insn) && (Wrap(at + BranchOffset(insn)) == target <==> Reachable(f.kind, at, target))
  {
    hide Resolve, Decode, FixupWord, BranchOf, Reachable, FromLE32;
    ResolvedBytes(buf, pc, labels, fixups);
    var f := fixups[i];
    assert WordFor(pc, labels, f).Some?;
    FixupWordLands(f.kind, Wrap(pc + f.offset), Wrap(pc + labels[f.name]));
  }

  // ---------- literal references ----------

  lemma LdrRefDecodes(reg: Reg, imm: int)
    requires 0 <= imm < 0x8_0000
    ensures var w := WithImm19(LdrRefWord(reg), imm);
      0 <= w < P32 && Decode(w) == LdrLit(if reg.is64 then LitX else LitW, reg.n, 4 * SignExtend(imm, 0x4_0000))
  {
    var top := if reg.is64 then 0x58 else 0x18;
    Fields19(LdrRefWord(reg), reg.n, 0, top);
    var w := WithImm19(LdrRefWord(reg), imm);
    Fields19(w, reg.n, imm, top);
    assert FormOf(w / 0x40_0000) == FLit;
  }

  /** The memory at `pc` holds the bytes `code`. */
  ghost predicate CodeIn(m: Mem, pc: int, code: seq<u8>) {
    forall k :: 0 <= k < |code| ==> Get(m, pc + k) == code[k]
  }

  lemma WordInCode(m: Mem, pc: int, code: seq<u8>, off: nat)
    requires CodeIn(m, pc, code) && off + 4 <= |code|
    ensures Read32(m, pc + off) == WordAt(code, off)
  {
    hide FromLE32;
    var a := pc + off;
    assert Get(m, pc + (off + 1)) == code[off + 1] && Get(m, pc + (off + 2)) == code[off + 2]
           && Get(m, pc + (off + 3)) == code[off + 3];
    assert [Get(m, a), Get(m, a + 1), Get(m, a + 2), Get(m, a + 3)] == code[off..off + 4];
  }

  /**
   * A literal reference and its value placed later: the load gets its own literal if and only if the
   * distance fits the 19-bit field, and no byte before the literal changes outside the load's word.
   */
  lemma LiteralPlaced(buf: seq<u8>, reg: Reg, ref: nat, value: u64)
    requires ref + 4 <= |buf| && (|buf| - ref) % 4 == 0 && WordAt(buf, ref) == LdrRefWord(reg)
    ensures var r := WithLiteral(buf, ref, value);
      var dist := |buf| - ref;
      && |r| == |buf| + 8 && r[|buf|..] == LE64(value)
      && (forall k :: 0 <= k < |buf| && !(ref <= k < ref + 4) ==> r[k] == buf[k])
      && Decode(WordAt(r, ref)).LdrLit? && Decode(WordAt(r, ref)).rt == reg.n
      && Decode(WordAt(r, ref)).size == (if reg.is64 then LitX else LitW)
      && (Decode(WordAt(r, ref)).off == dist <==> dist < 0x10_0000)
  {
    var dist := |buf| - ref;
    var imm := dist / 4 % 0x8_0000;
    LdrRefDecodes(reg, imm);
    DistanceField(dist);
    hide Decode, FromLE32, LE32, LdrRefWord, SignExtend;
    var w := WithImm19(LdrRefWord(reg), imm);
    var b := PatchWord(buf, ref, w);
    PatchedWord(buf, ref, w, ref);
    var r := WithLiteral(buf, ref, value);
    assert r[..|buf|] == b;
    assert r[ref..ref + 4] == b[ref..ref + 4];
  }

  lemma DistanceField(dist: nat)
    requires dist % 4 == 0
    ensures 4 * SignExtend(dist / 4 % 0x8_0000, 0x4_0000) == dist <==> dist < 0x10_0000
  {
    Sign19(dist / 4);
  }

  /** Running the load in any memory that holds the finished buffer fetches the literal. */
  lemma LiteralIsLoaded(other: Uninterpreted, s: State, pc: u64, code: seq<u8>, reg: Reg, ref: nat, lit: nat,
                        value: u64)
    requires ref < lit && lit + 8 <= |code| && pc + |code| < P64 && CodeIn(s.c.mem, pc, code)
    requires s.pc == pc + ref && code[lit..lit + 8] == LE64(value)
    requires Decode(WordAt(code, ref)) == LdrLit(if reg.is64 then LitX else LitW, reg.n, lit - ref)
    ensures Step(other, s) == State(SetX(s.c, reg.n, if reg.is64 then value else LowWord(value)), s.pc + 4)
  {
    hide Decode, FromLE32, LE32, Step;
    WordInCode(s.c.mem, pc, code, ref);
    WordInCode(s.c.mem, pc, code, lit);
    WordInCode(s.c.mem, pc, code, lit + 4);
    assert code[lit..lit + 4] == LE64(value)[..4] == LE32(LowWord(value));
    assert code[lit + 4..lit + 8] == LE64(value)[4..] == LE32(HighWord(value));
    LE32RoundTrip(LowWord(value));
    LE32RoundTrip(HighWord(value));
    StepOn(other, s, WordAt(code, ref), Decode(WordAt(code, ref)));
    hide Read32;
    assert s.pc + (lit - ref) == pc + lit;
    assert Read64(s.c.mem, pc + lit) == value;
  }
}
