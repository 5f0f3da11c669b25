/** Moving displaced instructions into a trampoline. */
module Relocator {
  import opened Words
  import opened A64
  import opened Decoder
  import opened Encode

  /** Number of instructions overwritten by the absolute patch stub. */
  const MIN_PATCH_INSNS: int := 4
  const ABS_BRANCH_LEN: int := 16

  datatype RelocError = TruncatedCode
  datatype Result<+T> = Success(value: T) | Failure(error: RelocError)

  datatype RelocatedBlock = RelocatedBlock(code: seq<u8>, displaced: seq<DecodedInsn>, patchLen: nat, resumeAddr: u64)

  /** LDR X17, #8; B #12; addr */
  function AbsAddrIntoX17(addr: u64): (ws: seq<u32>)
    ensures |ws| == 4
  {
    [0x5800_0051, 0x1400_0003, LowWord(addr), HighWord(addr)]
  }

  /** LDR Xt, [X17] or LDR Wt, [X17] */
  function LoadThroughX17(rt: RegNo, is64: bool): u32 {
    (if is64 then 0xF940_0000 else 0xB940_0000) + 17 * 0x20 + rt
  }

  /** A literal load within reach, or a load through X17 of the literal's absolute address. */
  function LiteralWords(rt: RegNo, is64: bool, emitPc: u64, target: u64): (ws: seq<u32>)
    ensures |ws| == if TryEncodeLdrLit(rt, is64, emitPc, target).Some? then 1 else 5
  {
    var near := TryEncodeLdrLit(rt, is64, emitPc, target);
    if near.Some? then [near.value] else AbsAddrIntoX17(target) + [LoadThroughX17(rt, is64)]
  }

  /** The inverted branch over an absolute jump to the real target. */
  function ConditionalBranchWords(kind: InsnKind, emitPc: u64): (ws: seq<u32>)
    requires kind.BranchCond? || kind.CompareBranch? || kind.TestBranch?
    ensures |ws| == 5
  {
    var skip := Wrap(emitPc + 20);
    var first :=
      match kind
      case BranchCond(_, cond) => EncodeBCond(cond.Invert(), emitPc, skip)
      case CompareBranch(_, reg, nonzero, is64) => EncodeCbz(reg, !nonzero, is64, emitPc, skip)
      case TestBranch(_, reg, bit, nonzero) => EncodeTbz(reg, bit, !nonzero, emitPc, skip);
    [first] + EncodeAbsBranch(kind.target)
  }

  /** The words that stand for `insn` when they are emitted at `emitPc`. */
  function RelocateOne(insn: DecodedInsn, emitPc: u64): (ws: seq<u32>)
    ensures 1 <= |ws| <= 5
  {
    match insn.kind
    case PcIndependent => [insn.raw]
    case BranchReg(_) => [insn.raw]
    case Branch(target, link) => if link then EncodeAbsCall(emitPc, target) else EncodeAbsBranch(target)
    case BranchCond(_, _) => ConditionalBranchWords(insn.kind, emitPc)
    case CompareBranch(_, _, _, _) => ConditionalBranchWords(insn.kind, emitPc)
    case TestBranch(_, _, _, _) => ConditionalBranchWords(insn.kind, emitPc)
    case PcRelAddr(rd, target, _) => EncodePcRelAddr(rd, emitPc, target)
    case PcRelLoad(rt, target, is64, _) => LiteralWords(rt, is64, emitPc, target)
  }

  /** The relocated instructions laid out one after the other from `emitPc`. */
  function RelocateAll(insns: seq<DecodedInsn>, emitPc: u64): (ws: seq<u32>)
    ensures |insns| <= |ws| <= 5 * |insns|
  {
    if |insns| == 0 then []
    else
      var chunk := RelocateOne(insns[0], emitPc);
      chunk + RelocateAll(insns[1..], Wrap(emitPc + 4 * |chunk|))
  }

  /** The whole trampoline body: relocated instructions and the jump back behind the patch. */
  function BlockWords(insns: seq<DecodedInsn>, resume: u64, base: u64): (ws: seq<u32>)
    ensures |insns| + 4 <= |ws| <= 5 * |insns| + 4
  {
    RelocateAll(insns, base) + EncodeAbsBranch(resume)
  }

  function WordAt(code: seq<u8>, off: nat): u32
    requires off + 4 <= |code|
  {
    FromLE32(code[off..off + 4])
  }

  /** The first `n` instructions of `code`, which lies at `target`. */
  function DecodePrefix(target: u64, code: seq<u8>, n: nat): (insns: seq<DecodedInsn>)
    requires 4 * n <= |code|
    ensures |insns| == n
  {
    seq(n, k requires 0 <= k < n => DecodeAt(Wrap(target + 4 * k), WordAt(code, 4 * k)))
  }

  method ComputePatchInsns(target: u64, code: seq<u8>) returns (r: Result<seq<DecodedInsn>>)
    ensures |code| < ABS_BRANCH_LEN <==> r == Failure(TruncatedCode)
    ensures |code| >= ABS_BRANCH_LEN ==> r == Success(DecodePrefix(target, code, MIN_PATCH_INSNS))
  {
    if |code| < ABS_BRANCH_LEN {
      return Failure(TruncatedCode);
    }
    var out: seq<DecodedInsn> := [];
    var off: nat := 0;
    while |out| < MIN_PATCH_INSNS
      invariant off == 4 * |out| <= 4 * MIN_PATCH_INSNS
      invariant out == DecodePrefix(target, code, |out|)
    {
      if off + 4 > |code| {
        return Failure(TruncatedCode);
      }
      out := out + [DecodeAt(Wrap(target + off), WordAt(code, off))];
      off := off + 4;
    }
    return Success(out);
  }

  lemma {:induction false} RelocateAllConcat(a: seq<DecodedInsn>, b: seq<DecodedInsn>, emitPc: u64)
    ensures RelocateAll(a + b, emitPc)
         == RelocateAll(a, emitPc) + RelocateAll(b, Wrap(emitPc + 4 * |RelocateAll(a, emitPc)|))
  {
    hide RelocateOne, RelocateAll, Wrap;
    EmptyBlock(emitPc);
    if |a| == 0 {
      assert a + b == b && a == [];
    } else {
      var chunk := RelocateOne(a[0], emitPc);
      var next := Wrap(emitPc + 4 * |chunk|);
      RelocateAllConcat(a[1..], b, next);
      RelocateFirst(a, emitPc);
      RelocateFirst(a + b, emitPc);
      assert (a + b)[1..] == a[1..] + b;
      WrapAdd(emitPc + 4 * |chunk|, 4 * |RelocateAll(a[1..], next)|);
    }
  }

  lemma RelocateFirst(insns: seq<DecodedInsn>, emitPc: u64)
    requires |insns| > 0
    ensures var chunk := RelocateOne(insns[0], emitPc);
      RelocateAll(insns, emitPc) == chunk + RelocateAll(insns[1..], Wrap(emitPc + 4 * |chunk|))
  {
    hide RelocateOne, Wrap;
  }

  lemma RelocateAllSingle(insn: DecodedInsn, emitPc: u64)
    ensures RelocateAll([insn], emitPc) == RelocateOne(insn, emitPc)
  {
    hide RelocateOne;
    assert RelocateAll([insn], emitPc) == RelocateOne(insn, emitPc)
           + RelocateAll([], Wrap(emitPc + 4 * |RelocateOne(insn, emitPc)|));
  }

  lemma EmptyBlock(emitPc: u64)
    ensures RelocateAll([], emitPc) == [] && Bytes([]) == [] && Wrap(emitPc) == emitPc
  {}

  method BuildTrampoline(target: u64, code: seq<u8>, trampolineBase: u64) returns (r: Result<RelocatedBlock>)
    ensures |code| < ABS_BRANCH_LEN <==> r == Failure(TruncatedCode)
    ensures |code| >= ABS_BRANCH_LEN ==>
      var insns := DecodePrefix(target, code, MIN_PATCH_INSNS);
      var resume := Wrap(target + ABS_BRANCH_LEN);
      && r == Success(RelocatedBlock(Bytes(BlockWords(insns, resume, trampolineBase)), insns, ABS_BRANCH_LEN, resume))
      && |r.value.code| <= 4 * 20 + 16
  {
    hide RelocateOne, RelocateAll, Wrap, DecodePrefix, Bytes;
    var displaced := ComputePatchInsns(target, code);
    if displaced.Failure? {
      return Failure(displaced.error);
    }
    var insns := displaced.value;
    var patchLen := 4 * |insns|;
    var resume := Wrap(target + patchLen);
    var codeOut: seq<u8> := [];
    var emitPc := trampolineBase;
    assert insns[..0] == [];
    EmptyBlock(trampolineBase);
    for i := 0 to |insns|
      invariant codeOut == Bytes(RelocateAll(insns[..i], trampolineBase))
      invariant emitPc == Wrap(trampolineBase + |codeOut|)
    {
      var chunk := RelocateOne(insns[i], emitPc);
      RelocateAllConcat(insns[..i], [insns[i]], trampolineBase);
      RelocateAllSingle(insns[i], emitPc);
      assert insns[..i] + [insns[i]] == insns[..i + 1];
      BytesConcat(RelocateAll(insns[..i], trampolineBase), chunk);
      WrapAdd(trampolineBase + |codeOut|, |Bytes(chunk)|);
      emitPc := Wrap(emitPc + |Bytes(chunk)|);
      codeOut := codeOut + Bytes(chunk);
    }
    assert insns[..|insns|] == insns;
    BytesConcat(RelocateAll(insns, trampolineBase), EncodeAbsBranch(resume));
    codeOut := codeOut + Bytes(EncodeAbsBranch(resume));
    return Success(RelocatedBlock(codeOut, insns, patchLen, resume));
  }
}
