/** The code writer: a growing buffer with labels, pending branches and literal references. */
module Writer {
  import opened Options
  import opened Words
  import opened A64
  import opened Decoder
  import opened Encode
  import opened Relocator
  import opened WriterWords
  import opened BitmaskImm
  import opened SaveAll
  import opened CallArgs
  import opened Shifts

  datatype WriterError =
    | UndefinedLabel(name: string)
    | OutOfReach
    | WidthMismatch
    | BadOffset
    | ShiftOutOfRange
    | BadRef
  datatype Status = Done | Error(error: WriterError)

  datatype FixupKind =
    | FixB
    | FixBl
    | FixBCond(cond: Cond)
    | FixCbz(reg: Reg, nonzero: bool)
    | FixTbz(reg: Reg, bit: nat, nonzero: bool)

  datatype Fixup = Fixup(offset: nat, name: string, kind: FixupKind)

  // ---------- pending branches ----------

  /** The placeholder emitted for a branch to a label. */
  function Placeholder(kind: FixupKind): u32 {
    match kind
    case FixB => 0x1400_0000
    case FixBl => 0x9400_0000
    case FixBCond(cond) => 0x5400_0000 + cond.Code()
    case FixCbz(_, _) => 0x3400_0000
    case FixTbz(_, _, _) => 0x3600_0000
  }

  /** The branch from `pc` to `target`; only B and BL refuse a distance. */
  function FixupWord(kind: FixupKind, pc: u64, target: u64): Option<u32> {
    match kind
    case FixB => TryEncodeB(pc, target)
    case FixBl =>
      var imm := Delta(target, pc) / 4;
      if -0x200_0000 <= imm < 0x200_0000 then Some(BlWord(imm)) else None
    case FixBCond(cond) => Some(EncodeBCond(cond, pc, target))
    case FixCbz(reg, nonzero) => Some(EncodeCbz(reg.n, nonzero, reg.is64, pc, target))
    case FixTbz(reg, bit, nonzero) => Some(EncodeTbz(reg.n, bit, nonzero, pc, target))
  }

  function PatchWord(buf: seq<u8>, off: nat, w: u32): (r: seq<u8>)
    requires off + 4 <= |buf|
    ensures |r| == |buf|
  {
    buf[..off] + LE32(w) + buf[off + 4..]
  }

  /** Pending branches lie within the buffer, in order and apart. */
  ghost predicate FixupsFit(size: nat, fixups: seq<Fixup>) {
    && (forall i :: 0 <= i < |fixups| ==> fixups[i].offset + 4 <= size)
    && (forall i, j :: 0 <= i < j < |fixups| ==> fixups[i].offset + 4 <= fixups[j].offset)
  }

  function WordFor(pc: u64, labels: map<string, nat>, f: Fixup): Option<u32> {
    if f.name in labels then FixupWord(f.kind, Wrap(pc + f.offset), Wrap(pc + labels[f.name])) else None
  }

  /** Patches the branches one after the other, up to the first that cannot be resolved. */
  function Resolve(buf: seq<u8>, pc: u64, labels: map<string, nat>, fixups: seq<Fixup>): (r: (seq<u8>, bool))
    requires FixupsFit(|buf|, fixups)
    ensures |r.0| == |buf|
    decreases |fixups|
  {
    if fixups == [] then (buf, true)
    else
      var w := WordFor(pc, labels, fixups[0]);
      if w == None then (buf, false) else Resolve(PatchWord(buf, fixups[0].offset, w.value), pc, labels, fixups[1..])
  }

  lemma NoFixups(pc: u64, labels: map<string, nat>)
    ensures forall buf :: FixupsFit(|buf|, []) && Resolve(buf, pc, labels, []) == (buf, true)
  {}

  lemma PatchedBytes(buf: seq<u8>, off: nat, w: u32)
    requires off + 4 <= |buf|
    ensures PatchWord(buf, off, w) == buf[..off] + LE32(w) + buf[off + 4..]
  {}

  /** The next pending fixup either fails the resolution or is patched in. */
  lemma ResolveStep(buf: seq<u8>, pc: u64, labels: map<string, nat>, fixups: seq<Fixup>, i: nat)
    requires i < |fixups| && FixupsFit(|buf|, fixups[i..])
    ensures fixups[i].offset + 4 <= |buf| && FixupsFit(|buf|, fixups[i + 1..])
    ensures Resolve(buf, pc, labels, fixups[i..]) ==
      (var w := WordFor(pc, labels, fixups[i]);
       if w == None then (buf, false)
       else Resolve(PatchWord(buf, fixups[i].offset, w.value), pc, labels, fixups[i + 1..]))
  {
    hide PatchWord, FixupWord;
    assert fixups[i..][0] == fixups[i] && fixups[i..][1..] == fixups[i + 1..];
  }

  // ---------- literal references ----------

  function LdrRefWord(reg: Reg): u32 { (if reg.is64 then 0x5800_0000 else 0x1800_0000) + reg.n }

  /** `w` with its 19-bit field replaced. */
  function WithImm19(w: u32, imm: int): u32
    requires 0 <= imm < 0x8_0000
  {
    w - w / 0x20 % 0x8_0000 * 0x20 + imm * 0x20
  }

  function LE64(v: u64): (b: seq<u8>)
    ensures |b| == 8
  {
    LE32(LowWord(v)) + LE32(HighWord(v))
  }

  /** Truncating the distance to 32 bits loses nothing that the 19-bit field would hold. */
  lemma TruncatedDistance(d: nat)
    ensures Wrap32(d) % 4 == d % 4 && Wrap32(d) / 4 % 0x8_0000 == d / 4 % 0x8_0000
  {
    var words := d / 4;
    DistanceFields(d, words / 0x8_0000 / 0x800, words / 0x8_0000 % 0x800, words % 0x8_0000, d % 4);
  }

  lemma DistanceFields(d: nat, q: nat, a: nat, words: nat, low: nat)
    requires a < 0x800 && words < 0x8_0000 && low < 4
    requires d == P32 * q + 0x20_0000 * a + 4 * words + low
    ensures d % P32 % 4 == d % 4 == low && d % P32 / 4 % 0x8_0000 == d / 4 % 0x8_0000 == words
  {
    assert d % P32 == 0x20_0000 * a + 4 * words + low;
    assert d / 4 == 0x8_0000 * (0x800 * q + a) + words;
    assert d % P32 / 4 == 0x8_0000 * a + words;
  }

  /** The buffer after the literal of the reference at `off` was placed at its end. */
  function WithLiteral(buf: seq<u8>, off: nat, value: u64): seq<u8>
    requires off + 4 <= |buf|
  {
    PatchWord(buf, off, WithImm19(WordAt(buf, off), (|buf| - off) / 4 % 0x8_0000)) + LE64(value)
  }

  // ---------- the writer ----------

  function PairWidth(r: Reg): PairSize { if r.isVec then PairQ else if r.is64 then PairX else PairW }

  function WidthBytes(r: Reg): int { if r.isVec then 16 else if r.is64 then 8 else 4 }

  class Arm64Writer {
    var base: u64
    var pc: u64
    var buf: seq<u8>
    var labels: map<string, nat>
    var fixups: seq<Fixup>

    ghost predicate Valid()
      reads this
    {
      FixupsFit(|buf|, fixups)
    }

    constructor (codeAddress: u64, pc: Option<u64>)
      ensures Valid() && buf == [] && labels == map[] && fixups == []
      ensures this.base == codeAddress && this.pc == match pc case Some(p) => p case None => codeAddress
    {
      this.base := codeAddress;
      this.pc := match pc case Some(p) => p case None => codeAddress;
      buf := [];
      labels := map[];
      fixups := [];
    }

    /** Exactly the words `ws` were appended. */
    twostate predicate Emitted(ws: seq<u32>)
      reads this
    {
      buf == old(buf) + Bytes(ws) && fixups == old(fixups) && labels == old(labels)
    }

    /** Logical address of the next instruction. */
    function EmitPc(): u64
      reads this
    {
      Wrap(pc + |buf|)
    }

    method PutBytes(data: seq<u8>)
      requires Valid()
      modifies this`buf
      ensures Valid() && buf == old(buf) + data
    {
      buf := buf + data;
    }

    method Skip(n: nat)
      requires Valid()
      modifies this`buf
      ensures Valid() && buf == old(buf) + seq(n, _ => 0)
    {
      buf := buf + seq(n, _ => 0);
    }

    method PutInstruction(insn: u32)
      requires Valid()
      modifies this`buf
      ensures Valid() && Emitted([insn])
    {
      BytesSmall(insn);
      buf := buf + LE32(insn);
    }

    /** A later definition of the same label wins. */
    method PutLabel(id: string)
      requires Valid()
      modifies this`labels
      ensures Valid() && labels == old(labels)[id := |buf|]
    {
      labels := labels[id := |buf|];
    }

    method PutBranchToLabel(kind: FixupKind, name: string)
      requires Valid()
      modifies this`buf, this`fixups
      ensures Valid()
      ensures buf == old(buf) + LE32(Placeholder(kind))
      ensures fixups == old(fixups) + [Fixup(|old(buf)|, name, kind)]
    {
      var off := |buf|;
      PutInstruction(Placeholder(kind));
      BytesSmall(Placeholder(kind));
      fixups := fixups + [Fixup(off, name, kind)];
    }

    method PutBImm(address: u64) returns (r: Status)
      requires Valid()
      modifies this`buf
      ensures Valid()
      ensures r == (if TryEncodeB(old(EmitPc()), address).Some? then Done else Error(OutOfReach))
      ensures Emitted(if r == Done then [TryEncodeB(old(EmitPc()), address).value] else [])
    {
      var word := TryEncodeB(EmitPc(), address);
      BytesSmall(0);
      if word.None? {
        return Error(OutOfReach);
      }
      PutInstruction(word.value);
      return Done;
    }

    method PutBlImm(address: u64) returns (r: Status)
      requires Valid()
      modifies this`buf
      ensures Valid()
      ensures r == (if TryEncodeB(old(EmitPc()), address).Some? then Done else Error(OutOfReach))
      ensures Emitted(if r == Done then [BlWord(Delta(address, old(EmitPc())) / 4)] else [])
    {
      var imm := Delta(address, EmitPc()) / 4;
      BytesSmall(0);
      if !(-0x200_0000 <= imm < 0x200_0000) {
        return Error(OutOfReach);
      }
      PutInstruction(BlWord(imm));
      return Done;
    }

    /** Takes every pending branch, resolved or not: what is left after a failure is forgotten. */
    method ResolveFixups() returns (r: Status)
      requires Valid()
      modifies this`buf, this`fixups
      ensures Valid() && fixups == []
      ensures (buf, r == Done) == Resolve(old(buf), pc, labels, old(fixups))
    {
      hide Resolve, PatchWord, LE32, FixupWord, FixupsFit;
      var pending := fixups;
      fixups := [];
      assert pending[0..] == pending;
      NoFixups(pc, labels);
      var i := 0;
      while i < |pending|
        invariant 0 <= i <= |pending| && fixups == []
        invariant FixupsFit(|buf|, pending[i..])
        invariant Resolve(buf, pc, labels, pending[i..]) == Resolve(old(buf), pc, labels, pending)
      {
        var f := pending[i];
        ResolveStep(buf, pc, labels, pending, i);
        if f.name !in labels {
          return Error(UndefinedLabel(f.name));
        }
        var word := FixupWord(f.kind, Wrap(pc + f.offset), Wrap(pc + labels[f.name]));
        if word.None? {
          return Error(OutOfReach);
        }
        PatchedBytes(buf, f.offset, word.value);
        buf := buf[..f.offset] + LE32(word.value) + buf[f.offset + 4..];
        i := i + 1;
      }
      assert pending[|pending|..] == [];
      return Done;
    }

    /** Resolves the labels and hands over the buffer; labels and addresses stay behind. */
    method TakeBytes() returns (r: Status, code: seq<u8>)
      requires Valid()
      modifies this`buf, this`fixups
      ensures Valid() && fixups == []
      ensures r == Done <==> Resolve(old(buf), pc, labels, old(fixups)).1
      ensures r == Done ==> code == Resolve(old(buf), pc, labels, old(fixups)).0 && buf == []
    {
      code := [];
      r := ResolveFixups();
      if r == Done {
        code := buf;
        buf := [];
      }
    }

    method PutLdrRegRef(reg: Reg) returns (ref: u32)
      requires Valid()
      modifies this`buf
      ensures Valid() && ref == Wrap32(|old(buf)|) && Emitted([LdrRefWord(reg)])
    {
      ref := Wrap32(|buf|);
      PutInstruction(LdrRefWord(reg));
    }

    method PutLdrRegValue(ref: u32, value: u64) returns (r: Status)
      requires Valid()
      modifies this`buf
      ensures Valid()
      ensures r == if ref + 4 > |old(buf)| then Error(BadRef)
                   else if (|old(buf)| - ref) % 4 != 0 then Error(BadOffset)
                   else Done
      ensures buf == if r == Done then WithLiteral(old(buf), ref, value) else old(buf)
    {
      if ref + 4 > |buf| {
        return Error(BadRef);
      }
      var distance := Wrap32(|buf| - ref);
      TruncatedDistance(|buf| - ref);
      if distance % 4 != 0 {
        return Error(BadOffset);
      }
      var imm19 := distance / 4 % 0x8_0000;
      var word := WithImm19(WordAt(buf, ref), imm19);
      buf := buf[..ref] + LE32(word) + buf[ref + 4..];
      PutBytes(LE64(value));
      return Done;
    }

    // ---------- single instructions ----------

    method PutMovRegReg(dst: Reg, src: Reg)
      requires Valid()
      modifies this`buf
      ensures Valid() && Emitted([MovWord(dst, src)])
    {
      PutInstruction(MovWord(dst, src));
    }

    method PutMovRegNzcv(reg: Reg)
      requires Valid()
      modifies this`buf
      ensures Valid() && Emitted([MrsWord(reg.n)])
    {
      PutInstruction(MrsWord(reg.n));
    }

    method PutMovNzcvReg(reg: Reg)
      requires Valid()
      modifies this`buf
      ensures Valid() && Emitted([MsrWord(reg.n)])
    {
      PutInstruction(MsrWord(reg.n));
    }

    method PutBlrReg(reg: Reg)
      requires Valid()
      modifies this`buf
      ensures Valid() && Emitted([BlrWord(reg.n)])
    {
      PutInstruction(BlrWord(reg.n));
    }

    method PutLdrRegU64(reg: Reg, value: u64)
      requires Valid()
      modifies this`buf
      ensures Valid() && Emitted(LdrU64Words(reg.n, value))
    {
      BytesConcat([0x5800_0040 + reg.n], [0x1400_0003]);
      BytesConcat([0x5800_0040 + reg.n] + [0x1400_0003], [LowWord(value), HighWord(value)]);
      assert LdrU64Words(reg.n, value) == [0x5800_0040 + reg.n] + [0x1400_0003] + [LowWord(value), HighWord(value)];
      BytesOfPair(value);
      PutInstruction(0x5800_0040 + reg.n);
      PutInstruction(0x1400_0003);
      PutBytes(LE64(value));
    }

    method PutUbfm(dst: Reg, src: Reg, immr: nat, imms: nat) returns (r: Status)
      requires Valid() && immr < 64 && imms < 64
      modifies this`buf
      ensures Valid() && r == if dst.is64 != src.is64 then Error(WidthMismatch) else Done
      ensures Emitted(if r == Done then [UbfmWord(dst, src, immr, imms)] else [])
    {
      BytesSmall(0);
      if dst.is64 != src.is64 {
        return Error(WidthMismatch);
      }
      PutInstruction(UbfmWord(dst, src, immr, imms));
      return Done;
    }

    method PutLslRegImm(dst: Reg, src: Reg, shift: nat) returns (r: Status)
      requires Valid()
      modifies this`buf
      ensures Valid()
      ensures r == if shift >= RegSize(dst.is64) then Error(ShiftOutOfRange)
                   else if dst.is64 != src.is64 then Error(WidthMismatch) else Done
      ensures Emitted(if r == Done then [LslWord(dst, src, shift)] else [])
    {
      var size := if dst.is64 then 64 else 32;
      BytesSmall(0);
      if shift >= size {
        return Error(ShiftOutOfRange);
      }
      var immr := (size - shift) % size;
      var imms := size - 1 - shift;
      r := PutUbfm(dst, src, immr, imms);
    }

    method PutLsrRegImm(dst: Reg, src: Reg, shift: nat) returns (r: Status)
      requires Valid()
      modifies this`buf
      ensures Valid()
      ensures r == if shift >= RegSize(dst.is64) then Error(ShiftOutOfRange)
                   else if dst.is64 != src.is64 then Error(WidthMismatch) else Done
      ensures Emitted(if r == Done then [LsrWord(dst, src, shift)] else [])
    {
      var size := if dst.is64 then 64 else 32;
      BytesSmall(0);
      if shift >= size {
        return Error(ShiftOutOfRange);
      }
      r := PutUbfm(dst, src, shift, size - 1);
    }

    // ---------- register pairs ----------

    method PutLoadStorePair(load: bool, a: Reg, b: Reg, baseReg: Reg, offset: int, mode: PairMode) returns (r: Status)
      requires Valid()
      modifies this`buf
      ensures Valid()
      ensures r == if a.isVec != b.isVec || a.is64 != b.is64 then Error(WidthMismatch)
                   else if offset % PairShift(PairWidth(a)) != 0
                        || !(-64 <= offset / PairShift(PairWidth(a)) < 64) then Error(BadOffset)
                   else Done
      ensures Emitted(if r == Done
                      then [PairInsnWord(load, PairWidth(a), a.n, b.n, baseReg.n, offset / PairShift(PairWidth(a)),
                                         mode)] else [])
    {
      BytesSmall(0);
      if a.isVec != b.isVec || a.is64 != b.is64 {
        return Error(WidthMismatch);
      }
      var scale := PairShift(PairWidth(a));
      if offset % scale != 0 {
        return Error(BadOffset);
      }
      var imm7 := offset / scale;
      if !(-64 <= imm7 < 64) {
        return Error(BadOffset);
      }
      PutInstruction(PairInsnWord(load, PairWidth(a), a.n, b.n, baseReg.n, imm7, mode));
      return Done;
    }

    method PutPushRegReg(a: Reg, b: Reg) returns (r: Status)
      requires Valid()
      modifies this`buf
      ensures Valid() && r == if a.isVec != b.isVec || a.is64 != b.is64 then Error(WidthMismatch) else Done
      ensures Emitted(if r == Done then [PushWord(PairWidth(a), a.n, b.n)] else [])
    {
      var bytes := WidthBytes(a);
      r := PutLoadStorePair(false, a, b, XReg(31), -(2 * bytes), Pre);
    }

    method PutPopRegReg(a: Reg, b: Reg) returns (r: Status)
      requires Valid()
      modifies this`buf
      ensures Valid() && r == if a.isVec != b.isVec || a.is64 != b.is64 then Error(WidthMismatch) else Done
      ensures Emitted(if r == Done then [PopWord(PairWidth(a), a.n, b.n)] else [])
    {
      var bytes := WidthBytes(a);
      r := PutLoadStorePair(true, a, b, XReg(31), 2 * bytes, Post);
    }

    /** Pushes the pairs (0, 1), (2, 3), ... of the width's registers. */
    method PutPushPairs(width: PairSize) returns (r: Status)
      requires Valid() && width != PairW
      modifies this`buf
      ensures Valid() && r == Done && Emitted(PushPairs(width, 0))
    {
      hide PushWord, LE32, Bytes, FixupsFit, PushPairs;
      ghost var start, pairs := buf, PushPairs(width, 0);
      var n := PairCount(width);
      assert pairs[..0] == [];
      BytesSmall(0);
      r := Done;
      for p := 0 to n
        invariant Valid() && r == Done && fixups == old(fixups) && labels == old(labels)
        invariant buf == start + Bytes(pairs[..p])
      {
        r := PutPushRegReg(RegOf(width, 2 * p), RegOf(width, 2 * p + 1));
        PushPairsSnoc(width, 0, p);
        BytesConcat(pairs[..p], [PushWord(width, 2 * p, 2 * p + 1)]);
      }
      assert pairs[..n] == pairs;
    }

    /** Pops the pairs in the opposite order. */
    method PutPopPairs(width: PairSize) returns (r: Status)
      requires Valid() && width != PairW
      modifies this`buf
      ensures Valid() && r == Done && Emitted(PopPairs(width, PairCount(width)))
    {
      hide PopWord, LE32, Bytes, FixupsFit, PopPairs;
      ghost var start := buf;
      ghost var emitted: seq<u32> := [];
      BytesSmall(0);
      assert start + Bytes(emitted) == start;
      r := Done;
      var p := PairCount(width);
      while p > 0
        invariant 0 <= p <= PairCount(width)
        invariant Valid() && r == Done && fixups == old(fixups) && labels == old(labels)
        invariant emitted + PopPairs(width, p) == PopPairs(width, PairCount(width))
        invariant buf == start + Bytes(emitted)
      {
        p := p - 1;
        r := PutPopRegReg(RegOf(width, 2 * p), RegOf(width, 2 * p + 1));
        BytesConcat(emitted, [PopWord(width, 2 * p, 2 * p + 1)]);
        PopPairsStep(width, p, emitted);
        emitted := emitted + [PopWord(width, 2 * p, 2 * p + 1)];
      }
      NoPops(width, emitted);
    }

    method PutPushAllXRegisters() returns (r: Status)
      requires Valid()
      modifies this`buf
      ensures Valid() && r == Done && Emitted(PushAllX())
    {
      hide PushWord, MrsWord, LE32, Bytes, FixupsFit, PushPairs;
      ghost var pairs := PushPairs(PairX, 0);
      r := PutPushPairs(PairX);
      PutMovRegNzcv(XReg(15));
      r := PutPushRegReg(XReg(30), XReg(15));
      BytesConcat(pairs, [MrsWord(15)]);
      BytesConcat(pairs + [MrsWord(15)], [PushWord(PairX, 30, 15)]);
      assert pairs + [MrsWord(15)] + [PushWord(PairX, 30, 15)] == PushAllX();
    }

    method PutPopAllXRegisters() returns (r: Status)
      requires Valid()
      modifies this`buf
      ensures Valid() && r == Done && Emitted(PopAllX())
    {
      hide PopWord, MsrWord, LE32, Bytes, FixupsFit, PopPairs;
      r := PutPopRegReg(XReg(30), XReg(15));
      PutMovNzcvReg(XReg(15));
      r := PutPopPairs(PairX);
      BytesConcat([PopWord(PairX, 30, 15)], [MsrWord(15)]);
      BytesConcat([PopWord(PairX, 30, 15)] + [MsrWord(15)], PopPairs(PairX, 15));
      assert [PopWord(PairX, 30, 15)] + [MsrWord(15)] + PopPairs(PairX, 15) == PopAllX();
    }

    method PutPushAllQRegisters() returns (r: Status)
      requires Valid()
      modifies this`buf
      ensures Valid() && r == Done && Emitted(PushAllQ())
    {
      hide LE32, Bytes, FixupsFit, PushPairs;
      r := PutPushPairs(PairQ);
    }

    method PutPopAllQRegisters() returns (r: Status)
      requires Valid()
      modifies this`buf
      ensures Valid() && r == Done && Emitted(PopAllQ())
    {
      hide LE32, Bytes, FixupsFit, PopPairs;
      r := PutPopPairs(PairQ);
    }

    // ---------- calls ----------

    /** The arguments are moved from the last one to the first. */
    method PutArgumentListSetup(args: seq<CallArg>)
      requires Valid() && |args| <= 31
      modifies this`buf
      ensures Valid() && Emitted(SetupWords(args, 0))
    {
      hide LE32, Bytes, FixupsFit, ArgWords;
      ghost var start := buf;
      BytesSmall(0);
      assert start + Bytes([]) == start;
      for i := |args| downto 0
        invariant Valid() && fixups == old(fixups) && labels == old(labels)
        invariant buf == start + Bytes(SetupWords(args, i))
      {
        PutArgument(i, args[i]);
        BytesConcat(SetupWords(args, i + 1), ArgWords(i, args[i]));
      }
    }

    method PutArgument(i: RegNo, arg: CallArg)
      requires Valid()
      modifies this`buf
      ensures Valid() && Emitted(ArgWords(i, arg))
    {
      BytesSmall(0);
      var dst := XReg(i);
      match arg {
        case Address(addr) => PutLdrRegU64(dst, addr);
        case Register(src) =>
          if src.is64 {
            if src.n != dst.n {
              PutMovRegReg(dst, src);
            }
          } else {
            PutInstruction(UxtwWord(dst, src));
          }
      }
    }

    method PutCallAddressWithArguments(func: u64, args: seq<CallArg>) returns (r: Status)
      requires Valid() && |args| <= 31
      modifies this`buf
      ensures Valid() && r == Done && Emitted(CallArgs.CallWords(args, func, old(EmitPc())))
    {
      hide LE32, Bytes, FixupsFit, SetupWords, LdrU64Words, BlWord, BlrWord;
      ghost var start := EmitPc();
      PutArgumentListSetup(args);
      WrapAdd(pc + |old(buf)|, 4 * |SetupWords(args, 0)|);
      var setup := SetupWords(args, 0);
      if TryEncodeB(EmitPc(), func).Some? {
        BytesConcat(setup, [BlWord(Delta(func, EmitPc()) / 4)]);
        r := PutBlImm(func);
      } else {
        var target := XReg(|args|);
        PutLdrRegU64(target, func);
        PutBlrReg(target);
        BytesConcat(setup, LdrU64Words(|args|, func));
        BytesConcat(setup + LdrU64Words(|args|, func), [BlrWord(|args|)]);
        r := Done;
      }
    }

    method PutCallRegWithArguments(reg: Reg, args: seq<CallArg>) returns (r: Status)
      requires Valid() && |args| <= 31
      modifies this`buf
      ensures Valid() && r == Done && Emitted(SetupWords(args, 0) + [BlrWord(reg.n)])
    {
      hide LE32, Bytes, FixupsFit, SetupWords, BlrWord;
      PutArgumentListSetup(args);
      PutBlrReg(reg);
      BytesConcat(SetupWords(args, 0), [BlrWord(reg.n)]);
      r := Done;
    }

    /** TST: ANDS with the logical immediate when it has an encoding, else through X16. */
    method PutTstRegImm(reg: Reg, imm: u64)
      requires Valid()
      modifies this`buf
      ensures Valid()
      ensures var width := if reg.is64 then 64 else 32;
        || (exists enc ::
              && 0 <= enc < 0x2000 && DecodeLogical(enc, width) == Some(imm % Pow2(width))
              && Emitted([TstImmWord(reg, enc)]))
        || ((forall enc :: 0 <= enc < 0x2000 ==> DecodeLogical(enc, width) != Some(imm % Pow2(width)))
            && Emitted(LdrU64Words(16, imm) + [TstRegWord(reg)]))
    {
      hide LE32, Bytes, FixupsFit, DecodeLogical, Pow2, LdrU64Words, ElementSize;
      var enc := TryEncodeLogicalImm(imm, if reg.is64 then 64 else 32);
      if enc.Some? {
        PutInstruction(TstImmWord(reg, enc.value));
      } else {
        PutLdrRegU64(XReg(16), imm);
        PutInstruction(TstRegWord(reg));
        BytesConcat(LdrU64Words(16, imm), [TstRegWord(reg)]);
      }
    }
  }

  /** ANDS XZR, Xn, #enc */
  function TstImmWord(reg: Reg, enc: int): u32
    requires 0 <= enc < 0x2000
  {
    Sf(reg.is64) + 0x7200_001F + reg.n * 0x20 + enc * 0x400
  }

  /** ANDS XZR, Xn, X16 */
  function TstRegWord(reg: Reg): u32 { Sf(reg.is64) + 0x6A00_001F + 0x10_0000 + reg.n * 0x20 }

  function RegOf(width: PairSize, n: RegNo): Reg { if width == PairQ then QReg(n) else XReg(n) }

  lemma BytesOfPair(value: u64)
    ensures Bytes([LowWord(value), HighWord(value)]) == LE64(value)
  {
    BytesConcat([LowWord(value)], [HighWord(value)]);
    BytesSmall(LowWord(value));
    BytesSmall(HighWord(value));
    assert [LowWord(value)] + [HighWord(value)] == [LowWord(value), HighWord(value)];
  }

  lemma {:induction false} PushPairsSnoc(width: PairSize, p: nat, q: nat)
    requires p <= q < PairCount(width)
    ensures PushPairs(width, p)[..q - p] + [PushWord(width, 2 * q, 2 * q + 1)] == PushPairs(width, p)[..q - p + 1]
    decreases q - p
  {
    hide PushWord;
    if p < q {
      PushPairsSnoc(width, p + 1, q);
      assert PushPairs(width, p)[..q - p] == [PushWord(width, 2 * p, 2 * p + 1)] + PushPairs(width, p + 1)[..q - p - 1];
      assert PushPairs(width, p)[..q - p + 1] == [PushWord(width, 2 * p, 2 * p + 1)] + PushPairs(width, p + 1)[..q - p];
    }
  }
}