/** The streaming relocator: reads ahead from a byte source and emits through a writer. */
module Streaming {
  import opened Options
  import opened Words
  import opened A64
  import opened Decoder
  import opened Encode
  import opened Relocator
  import opened Writer

  /** Reading stops behind an unconditional branch. */
  predicate EndsInput(insn: DecodedInsn) {
    (insn.kind.Branch? && !insn.kind.link) || insn.kind.BranchReg?
  }

  predicate EndsBlock(insn: DecodedInsn) {
    insn.kind.Branch? || insn.kind.BranchReg? || insn.kind.BranchCond? || insn.kind.CompareBranch?
        || insn.kind.TestBranch?
  }

  /** The words behind which nothing is read: B, BR, BLR and RET; BL only ends a block. */
  predicate StopsReading(w: u32) { Decode(w).B? || Decode(w).BR? || Decode(w).BLR? || Decode(w).RET? }

  lemma EndsInputAtBranch(addr: u64, w: u32)
    ensures EndsInput(DecodeAt(addr, w)) <==> StopsReading(w)
  {
    hide Decode, Wrap;
  }

  /** A block ends behind every branch: those, BL, and the conditional ones. */
  lemma EndsBlockAtBranch(addr: u64, w: u32)
    ensures EndsBlock(DecodeAt(addr, w))
       <==> StopsReading(w) || Decode(w).BL? || Decode(w).BCond? || Decode(w).CB? || Decode(w).TB?
  {
    hide Decode, Wrap;
  }

  function InsnNo(base: u64, source: seq<u8>, k: nat): DecodedInsn
    requires 4 * k + 4 <= |source|
  {
    DecodeAt(Wrap(base + 4 * k), WordAt(source, 4 * k))
  }

  /** The instructions still read from word `k` on: up to the end of the source or of the input. */
  function Unread(base: u64, source: seq<u8>, k: nat): (insns: seq<DecodedInsn>)
    decreases |source| - 4 * k
  {
    if 4 * k + 4 > |source| then []
    else
      var insn := InsnNo(base, source, k);
      [insn] + if EndsInput(insn) then [] else Unread(base, source, k + 1)
  }

  lemma UnreadSplits(base: u64, source: seq<u8>, k: nat)
    ensures Unread(base, source, k) ==
      if 4 * k + 4 > |source| then []
      else [InsnNo(base, source, k)] + if EndsInput(InsnNo(base, source, k)) then [] else Unread(base, source, k + 1)
  {
    hide InsnNo, EndsInput;
  }

  predicate StopsAt(source: seq<u8>, k: nat)
    requires 4 * k + 4 <= |source|
  {
    StopsReading(WordAt(source, 4 * k))
  }

  /**
   * What is read from word `k` on: all words up to the first that stops reading, that one included, or all
   * whole words that are left.
   */
  lemma {:induction false} ReadsToBranch(base: u64, source: seq<u8>, k: nat)
    requires 4 * k <= |source|
    ensures var n := |Unread(base, source, k)|;
      && 4 * (k + n) <= |source|
      && (forall j: nat :: k <= j < k + n ==> Unread(base, source, k)[j - k] == InsnNo(base, source, j))
      && (forall j: nat :: k <= j < k + n - 1 ==> !StopsAt(source, j))
      && (4 * (k + n) + 4 <= |source| ==> n > 0 && StopsAt(source, k + n - 1))
    decreases |source| - 4 * k
  {
    hide EndsInput, StopsReading, DecodeAt, WordAt, Unread, Wrap;
    UnreadSplits(base, source, k);
    if 4 * k + 4 <= |source| {
      EndsInputAtBranch(Wrap(base + 4 * k), WordAt(source, 4 * k));
      if !EndsInput(InsnNo(base, source, k)) {
        ReadsToBranch(base, source, k + 1);
      }
    }
  }

  /**
   * A fresh relocator has to do with the prefix of the source that ends with its first B, BR, BLR or RET, and
   * with all whole words if there is none.
   */
  lemma InputIsPrefix(base: u64, source: seq<u8>)
    ensures var n := |Unread(base, source, 0)|;
      && 4 * n <= |source| && Unread(base, source, 0) == DecodePrefix(base, source, n)
      && (forall j: nat :: j < n - 1 ==> !StopsAt(source, j))
      && (4 * n + 4 <= |source| ==> n > 0 && StopsAt(source, n - 1))
  {
    hide StopsAt, DecodeAt, WordAt, Unread, Wrap;
    ReadsToBranch(base, source, 0);
    var n := |Unread(base, source, 0)|;
    forall j: nat | j < n
      ensures Unread(base, source, 0)[j] == DecodePrefix(base, source, n)[j]
    {
      PrefixAt(base, source, n, j);
      assert Unread(base, source, 0)[j - 0] == InsnNo(base, source, j);
    }
  }

  lemma NextInsn(base: u64, source: seq<u8>, k: nat)
    requires 4 * k + 4 <= |source| && base + |source| < P64
    ensures InsnNo(base, source, k) == DecodeAt(base + 4 * k, WordAt(source, 4 * k))
  {
    hide DecodeAt, WordAt;
    assert Wrap(base + 4 * k) == base + 4 * k;
  }

  lemma NextPc(pc: u64)
    ensures pc + 4 < P64 ==> Wrap(pc + 4) == pc + 4
  {}

  lemma PrefixGrows(base: u64, source: seq<u8>, k: nat)
    requires 4 * k + 4 <= |source|
    ensures DecodePrefix(base, source, k + 1) == DecodePrefix(base, source, k) + [InsnNo(base, source, k)]
  {
    hide DecodeAt, WordAt, Wrap;
  }

  lemma PrefixAt(base: u64, source: seq<u8>, n: nat, k: nat)
    requires k < n && 4 * n <= |source|
    ensures DecodePrefix(base, source, n)[k] == InsnNo(base, source, k)
            && InsnNo(base, source, k).addr == Wrap(base + 4 * k)
  {
    hide Decode, KindOf, WordAt, Wrap;
  }

  /** Relocating one more instruction behind the ones emitted so far. */
  lemma EmittedMore(pc: u64, buf: seq<u8>, emitted: seq<DecodedInsn>, insn: DecodedInsn)
    ensures var start := Wrap(pc + |buf|);
      var b := buf + Bytes(RelocateAll(emitted, start));
      b + Bytes(RelocateOne(insn, Wrap(pc + |b|))) == buf + Bytes(RelocateAll(emitted + [insn], start))
  {
    hide RelocateOne, RelocateAll, Bytes, Wrap;
    var start := Wrap(pc + |buf|);
    var ws := RelocateAll(emitted, start);
    var at := Wrap(pc + |buf| + 4 * |ws|);
    WrapAdd(pc + |buf|, 4 * |ws|);
    RelocateAllConcat(emitted, [insn], start);
    RelocateAllSingle(insn, at);
    BytesConcat(ws, RelocateOne(insn, at));
    assert pc + |buf + Bytes(ws)| == pc + |buf| + 4 * |ws|;
  }

  class Arm64Relocator {
    var input: u64
    var inputPc: u64
    var eob: bool
    var eoi: bool
    var readAhead: seq<DecodedInsn>
    var source: seq<u8>
    var sourceBase: u64
    var bytesRead: nat
    /** The instructions that have left the queue. */
    ghost var consumed: seq<DecodedInsn>

    /** What was consumed and what waits is the source read so far, decoded in order. */
    ghost predicate Valid()
      reads this
    {
      && sourceBase + |source| < P64
      && bytesRead % 4 == 0 && bytesRead <= |source|
      && inputPc == sourceBase + bytesRead
      && consumed + readAhead == DecodePrefix(sourceBase, source, bytesRead / 4)
      && input == sourceBase + 4 * |consumed|
    }

    /** What a relocation of everything would still emit. */
    function Todo(): seq<DecodedInsn>
      reads this
    {
      readAhead + if eoi then [] else Unread(sourceBase, source, bytesRead / 4)
    }

    constructor WithSource(base: u64, bytes: seq<u8>)
      requires base + |bytes| < P64
      ensures Valid() && sourceBase == base && source == bytes && consumed == [] && readAhead == [] && !eoi && !eob
      ensures Todo() == Unread(base, bytes, 0)
    {
      input := base;
      inputPc := base;
      eob := false;
      eoi := false;
      readAhead := [];
      source := bytes;
      sourceBase := base;
      bytesRead := 0;
      consumed := [];
    }

    /** Resetting keeps the bytes but takes them to lie at the new address. */
    method Reset(inputCode: u64)
      requires Valid() && inputCode + |source| < P64
      modifies this
      ensures Valid() && source == old(source) && sourceBase == inputCode
      ensures consumed == [] && readAhead == [] && !eoi && !eob
      ensures Todo() == Unread(inputCode, source, 0)
    {
      input := inputCode;
      inputPc := inputCode;
      eob := false;
      eoi := false;
      readAhead := [];
      bytesRead := 0;
      sourceBase := inputCode;
      consumed := [];
    }

    method ReadU32At(addr: u64) returns (r: Option<u32>)
      ensures r == if sourceBase <= addr && addr - sourceBase + 4 <= |source|
              then Some(WordAt(source, addr - sourceBase)) else None
    {
      if addr < sourceBase {
        return None;
      }
      var off := addr - sourceBase;
      if off + 4 > |source| {
        return None;
      }
      return Some(FromLE32(source[off..off + 4]));
    }

    /** Queues the next instruction; returns the bytes read so far, or 0 at the end of the input. */
    method ReadOne() returns (n: nat)
      requires Valid()
      modifies this`eob, this`eoi, this`readAhead, this`inputPc, this`bytesRead
      ensures Valid()
      ensures old(eoi) || old(bytesRead) + 4 > |source| ==>
        n == 0 && eoi && eob == old(eob) && readAhead == old(readAhead) && bytesRead == old(bytesRead)
      ensures !old(eoi) && old(bytesRead) + 4 <= |source| ==>
        var insn := InsnNo(sourceBase, source, old(bytesRead) / 4);
        && n == bytesRead == old(bytesRead) + 4 && readAhead == old(readAhead) + [insn]
        && eoi == EndsInput(insn) && eob == (old(eob) || EndsBlock(insn))
      ensures Todo() == old(Todo())
    {
      hide DecodeAt, FromLE32, DecodePrefix, Unread, WordAt, InsnNo, Wrap;
      UnreadSplits(sourceBase, source, bytesRead / 4);
      if eoi {
        return 0;
      }
      var k := bytesRead / 4;
      var word := ReadU32At(inputPc);
      if word.None? {
        eoi := true;
        return 0;
      }
      var insn := DecodeAt(inputPc, word.value);
      NextInsn(sourceBase, source, k);
      match insn.kind {
        case Branch(_, link) =>
          eob := true;
          if !link { eoi := true; }
        case BranchReg(_) =>
          eob := true;
          eoi := true;
        case BranchCond(_, _) => eob := true;
        case CompareBranch(_, _, _, _) => eob := true;
        case TestBranch(_, _, _, _) => eob := true;
        case _ =>
      }
      ghost var before := readAhead;
      readAhead := readAhead + [insn];
      NextPc(inputPc);
      inputPc := Wrap(inputPc + 4);
      bytesRead := bytesRead + 4;
      PrefixGrows(sourceBase, source, k);
      assert consumed + readAhead == consumed + before + [insn];
      return bytesRead;
    }

    /** Removes the head of the queue. */
    method PopFront() returns (insn: DecodedInsn)
      requires Valid() && readAhead != []
      modifies this`readAhead, this`input, this`consumed
      ensures Valid() && insn == old(readAhead)[0] && readAhead == old(readAhead)[1..]
              && consumed == old(consumed) + [insn]
      ensures insn == InsnNo(sourceBase, source, |old(consumed)|)
      ensures [insn] + Todo() == old(Todo())
    {
      hide Decode, KindOf, FromLE32, DecodePrefix, Unread, InsnNo;
      insn := readAhead[0];
      ghost var all := consumed + readAhead;
      assert insn == all[|consumed|];
      assert |all| == bytesRead / 4;
      PrefixAt(sourceBase, source, bytesRead / 4, |consumed|);
      readAhead := readAhead[1..];
      input := Wrap(insn.addr + 4);
      consumed := consumed + [insn];
      assert consumed + readAhead == all;
    }

    method SkipOne() returns (ok: bool)
      requires Valid()
      modifies this
      ensures Valid() && source == old(source) && sourceBase == old(sourceBase)
      ensures ok <==> old(Todo()) != []
      ensures ok ==> consumed == old(consumed) + [old(Todo())[0]] && Todo() == old(Todo())[1..]
      ensures !ok ==> consumed == old(consumed) && Todo() == []
    {
      if readAhead == [] {
        var n := ReadOne();
        if n == 0 {
          return false;
        }
      }
      var insn := PopFront();
      return true;
    }

    method CopyOne(w: Arm64Writer) returns (ok: bool)
      requires Valid() && w.Valid()
      modifies this, w`buf
      ensures Valid() && w.Valid() && source == old(source) && sourceBase == old(sourceBase)
      ensures ok <==> old(Todo()) != []
      ensures w.buf == old(w.buf) + if ok then Bytes([old(Todo())[0].raw]) else []
      ensures Todo() == if ok then old(Todo())[1..] else []
      ensures consumed == if ok then old(consumed) + [old(Todo())[0]] else old(consumed)
    {
      if readAhead == [] {
        var n := ReadOne();
        if n == 0 {
          return false;
        }
      }
      var insn := PopFront();
      w.PutInstruction(insn.raw);
      return true;
    }

    method WriteOne(w: Arm64Writer) returns (ok: bool)
      requires Valid() && w.Valid()
      modifies this, w`buf
      ensures Valid() && w.Valid() && source == old(source) && sourceBase == old(sourceBase)
      ensures ok <==> old(Todo()) != []
      ensures w.buf == old(w.buf) + if ok then Bytes(RelocateOne(old(Todo())[0], old(w.EmitPc()))) else []
      ensures Todo() == if ok then old(Todo())[1..] else []
      ensures consumed == if ok then old(consumed) + [old(Todo())[0]] else old(consumed)
    {
      if readAhead == [] {
        var n := ReadOne();
        if n == 0 {
          return false;
        }
      }
      var insn := PopFront();
      w.PutBytes(Bytes(RelocateOne(insn, w.EmitPc())));
      return true;
    }

    /** One round of the loop below: refills an empty queue, then relocates its head. */
    method WriteNext(w: Arm64Writer) returns (more: bool)
      requires Valid() && w.Valid()
      modifies this, w`buf
      ensures Valid() && w.Valid() && source == old(source) && sourceBase == old(sourceBase)
      ensures more <==> old(Todo()) != []
      ensures w.buf == old(w.buf) + if more then Bytes(RelocateOne(old(Todo())[0], old(w.EmitPc()))) else []
      ensures Todo() == if more then old(Todo())[1..] else []
      ensures consumed == if more then old(consumed) + [old(Todo())[0]] else old(consumed)
    {
      hide RelocateOne, Bytes, DecodePrefix, Unread, InsnNo, Wrap, EndsInput, EndsBlock, Valid, FixupsFit;
      if readAhead == [] && !eoi {
        var n := ReadOne();
        if n == 0 {
          return false;
        }
      }
      if readAhead == [] {
        return false;
      }
      more := WriteOne(w);
    }

    /** Relocates what is queued and everything up to the end of the input; always terminates. */
    method WriteAll(w: Arm64Writer)
      requires Valid() && w.Valid()
      modifies this, w`buf
      ensures Valid() && w.Valid() && source == old(source) && sourceBase == old(sourceBase)
      ensures Todo() == []
      ensures consumed == old(consumed) + old(Todo())
      ensures w.buf == old(w.buf) + Bytes(RelocateAll(old(Todo()), old(w.EmitPc())))
    {
      hide RelocateOne, RelocateAll, Bytes, Unread, InsnNo, Wrap, Valid, FixupsFit, Todo;
      ghost var todo, start, emitted := Todo(), w.EmitPc(), [];
      ghost var buf0 := w.buf;
      EmptyBlock(start);
      var more := true;
      while more
        invariant Valid() && w.Valid() && source == old(source) && sourceBase == old(sourceBase)
        invariant todo == emitted + Todo() && consumed == old(consumed) + emitted
        invariant w.buf == buf0 + Bytes(RelocateAll(emitted, start))
        invariant !more ==> Todo() == []
        decreases |Todo()|, more
      {
        ghost var before := Todo();
        if before != [] {
          EmittedMore(w.pc, buf0, emitted, before[0]);
        }
        more := WriteNext(w);
        if more {
          assert emitted + before == emitted + [before[0]] + before[1..];
          emitted := emitted + [before[0]];
        }
      }
      assert emitted == todo;
    }
  }

  /** Sixteen bytes without an early end of input are read whole. */
  lemma ReadWhole(base: u64, code: seq<u8>)
    requires |code| == 16
    requires forall k :: 0 <= k < 3 ==> !EndsInput(InsnNo(base, code, k))
    ensures Unread(base, code, 0) == DecodePrefix(base, code, 4)
  {
    hide InsnNo, EndsInput, DecodePrefix, Unread;
    UnreadSplits(base, code, 0);
    UnreadSplits(base, code, 1);
    UnreadSplits(base, code, 2);
    UnreadSplits(base, code, 3);
    UnreadSplits(base, code, 4);
    PrefixGrows(base, code, 0);
    PrefixGrows(base, code, 1);
    PrefixGrows(base, code, 2);
    PrefixGrows(base, code, 3);
    NothingRead(base, code);
  }

  lemma NothingRead(base: u64, code: seq<u8>)
    ensures DecodePrefix(base, code, 0) == []
  {}

  /** When only the last instruction may end the input, streaming emits the batch block without its jump back. */
  lemma StreamMatchesBatch(base: u64, code: seq<u8>, out: u64)
    requires |code| == 16
    requires forall k: nat :: k < 3 ==> !StopsAt(code, k)
    ensures var resume := Wrap(base + 16);
      Bytes(BlockWords(DecodePrefix(base, code, 4), resume, out))
      == Bytes(RelocateAll(Unread(base, code, 0), out)) + Bytes(EncodeAbsBranch(resume))
  {
    hide StopsReading, EndsInput, DecodeAt, WordAt, DecodePrefix, Unread, RelocateAll, EncodeAbsBranch, Bytes, Wrap;
    forall k: nat | k < 3
      ensures !EndsInput(InsnNo(base, code, k))
    {
      assert !StopsAt(code, k);
      EndsInputAtBranch(Wrap(base + 4 * k), WordAt(code, 4 * k));
    }
    ReadWhole(base, code);
    BytesConcat(RelocateAll(Unread(base, code, 0), out), EncodeAbsBranch(Wrap(base + 16)));
  }
}
