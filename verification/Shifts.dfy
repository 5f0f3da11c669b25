/** LSL and LSR by an immediate, which are emitted as bit field moves. */
module Shifts {
  import opened Words
  import opened Memory
  import opened A64
  import opened WriterWords
  import opened BitmaskImm

  function RegSize(is64: bool): nat { if is64 then 64 else 32 }

  function LslWord(dst: Reg, src: Reg, shift: nat): u32
    requires shift < RegSize(dst.is64)
  {
    var size := RegSize(dst.is64);
    UbfmWord(dst, src, (size - shift) % size, size - 1 - shift)
  }

  function LsrWord(dst: Reg, src: Reg, shift: nat): u32
    requires shift < RegSize(dst.is64)
  {
    UbfmWord(dst, src, shift, RegSize(dst.is64) - 1)
  }

  /** The source register at the operation's width. */
  function Operand(c: Core, src: Reg): u64 {
    if src.is64 then X(c, src.n) else LowWord(X(c, src.n))
  }

  lemma RegRange(is64: bool)
    ensures Pow2(RegSize(is64)) == if is64 then P64 else P32
  {
    Pow2Small();
  }

  lemma LslValue(v: u64, is64: bool, shift: nat)
    requires shift < RegSize(is64) && v < Pow2(RegSize(is64))
    ensures var size := RegSize(is64);
      UbfmValue(v, size, (size - shift) % size, size - 1 - shift) == v * Pow2(shift) % Pow2(size)
  {
    hide Pow2, Wrap;
    var size := RegSize(is64);
    RegRange(is64);
    if shift == 0 {
      assert (size - shift) % size == 0;
      LslByZero(v, size);
    } else {
      assert (size - shift) % size == size - shift;
      LslByMore(v, size, shift);
    }
  }

  lemma LslByZero(v: u64, size: nat)
    requires 0 < size <= 64 && v < Pow2(size)
    ensures UbfmValue(v, size, 0, size - 1) == v == v * Pow2(0) % Pow2(size)
  {
    hide Pow2, Wrap;
    ZeroPower();
    Wrapped(v);
    SmallMod(v, Pow2(size));
  }

  lemma SmallMod(v: nat, m: nat)
    ensures v < m ==> v % m == v && v / 1 == v
  {}

  lemma LslByMore(v: u64, size: nat, shift: nat)
    requires 0 < shift < size <= 64 && Pow2(size) <= P64
    ensures UbfmValue(v, size, size - shift, size - 1 - shift) == v * Pow2(shift) % Pow2(size)
  {
    hide Pow2, Wrap;
    Pow2Add(size - shift, shift);
    ScaledMod(v, Pow2(size - shift), Pow2(shift));
    Wrapped(v * Pow2(shift) % Pow2(size));
  }

  lemma LsrValue(v: u64, is64: bool, shift: nat)
    requires shift < RegSize(is64) && v < Pow2(RegSize(is64))
    ensures UbfmValue(v, RegSize(is64), shift, RegSize(is64) - 1) == v / Pow2(shift)
  {
    var size := RegSize(is64);
    RegRange(is64);
    hide Pow2, Wrap;
    Pow2Add(shift, size - shift);
    var q := v / Pow2(shift);
    QuotientBound(v, Pow2(shift), Pow2(size - shift));
    Wrapped(q);
  }

  lemma ZeroPower()
    ensures Pow2(0) == 1
  {}

  lemma Wrapped(v: int)
    ensures 0 <= v < P64 ==> Wrap(v) == v
  {}

  lemma QuotientBound(v: nat, p: int, q: int)
    requires p > 0 && q > 0 && v < p * q
    ensures 0 <= v / p < q && v / p % q == v / p && v / p <= v
  {
    ChunkBound(v, p, q);
    DivModUnique(v / p, q, 0, v / p);
    assert v == p * (v / p) + v % p;
    MulGe2(v / p + 1, p, 1);
  }

  lemma UbfmStep(other: Uninterpreted, s: State, dst: Reg, src: Reg, immr: int, imms: int)
    requires dst.is64 == src.is64 && 0 <= immr < RegSize(dst.is64) && 0 <= imms < RegSize(dst.is64)
    requires Read32(s.c.mem, s.pc) == UbfmWord(dst, src, immr, imms)
    ensures var v := UbfmValue(Operand(s.c, src), RegSize(dst.is64), immr, imms);
      Step(other, s) == State(SetX(s.c, dst.n, if dst.is64 then v else Wrap32(v)), Wrap(s.pc + 4))
  {
    hide Decode, Read32, Step, UbfmWord, UbfmValue, Wrap, Wrap32;
    DecodeUbfm(dst, src, immr, imms);
    StepOn(other, s, UbfmWord(dst, src, immr, imms), Decode(UbfmWord(dst, src, immr, imms)));
  }

  lemma InRange(c: Core, src: Reg, v: int)
    ensures Operand(c, src) < Pow2(RegSize(src.is64))
    ensures 0 <= v < Pow2(RegSize(src.is64)) ==> Wrap(v) == v && (!src.is64 ==> Wrap32(v) == v)
  {
    hide Pow2;
    RegRange(src.is64);
  }

  /** The emitted LSL computes x * 2^shift modulo the register width. */
  lemma LslComputes(other: Uninterpreted, s: State, dst: Reg, src: Reg, shift: nat)
    requires dst.is64 == src.is64 && shift < RegSize(dst.is64)
    requires Read32(s.c.mem, s.pc) == LslWord(dst, src, shift)
    ensures Step(other, s)
         == State(SetX(s.c, dst.n, Wrap(Operand(s.c, src) * Pow2(shift) % Pow2(RegSize(dst.is64)))), Wrap(s.pc + 4))
  {
    var size := RegSize(dst.is64);
    hide Read32, Step, UbfmWord, UbfmValue, Pow2, Wrap, Wrap32, SetX, Operand;
    UbfmStep(other, s, dst, src, (size - shift) % size, size - 1 - shift);
    InRange(s.c, src, Operand(s.c, src) * Pow2(shift) % Pow2(size));
    LslValue(Operand(s.c, src), dst.is64, shift);
  }

  /** The emitted LSR computes x divided by 2^shift, rounded down. */
  lemma LsrComputes(other: Uninterpreted, s: State, dst: Reg, src: Reg, shift: nat)
    requires dst.is64 == src.is64 && shift < RegSize(dst.is64)
    requires Read32(s.c.mem, s.pc) == LsrWord(dst, src, shift)
    ensures Step(other, s) == State(SetX(s.c, dst.n, Wrap(Operand(s.c, src) / Pow2(shift))), Wrap(s.pc + 4))
  {
    var size := RegSize(dst.is64);
    hide Read32, Step, UbfmWord, UbfmValue, Pow2, Wrap, Wrap32, SetX, Operand;
    UbfmStep(other, s, dst, src, shift, size - 1);
    InRange(s.c, src, Operand(s.c, src) / Pow2(shift));
    Pow2Add(shift, size - shift);
    QuotientBound(Operand(s.c, src), Pow2(shift), Pow2(size - shift));
    LsrValue(Operand(s.c, src), dst.is64, shift);
  }

  lemma LowBitsKept(v: nat, size: nat, shift: nat)
    requires shift < size && v < Pow2(size)
    ensures v * Pow2(shift) % Pow2(size) / Pow2(shift) == v % Pow2(size - shift)
  {
    hide Pow2;
    var p, q := Pow2(shift), Pow2(size - shift);
    Pow2Add(size - shift, shift);
    ScaledMod(v, q, p);
    DivModUnique(v % q * p, p, v % q, 0);
  }

  /**
   * Running the emitted LSL and LSR by the same amount, one behind the other, leaves exactly the low bits
   * that were not pushed out; by way of the zero register, nothing.
   */
  lemma LslThenLsr(other: Uninterpreted, s: State, dst: Reg, mid: Reg, src: Reg, shift: nat)
    requires dst.is64 == mid.is64 == src.is64 && shift < RegSize(dst.is64) && s.pc + 8 < P64
    requires Read32(s.c.mem, s.pc) == LslWord(mid, src, shift) && Read32(s.c.mem, s.pc + 4) == LsrWord(dst, mid, shift)
    ensures var size := RegSize(dst.is64);
      var pushed := Wrap(Operand(s.c, src) * Pow2(shift) % Pow2(size));
      var low := if mid.n == 31 then 0 else Wrap(Operand(s.c, src) % Pow2(size - shift));
      Run(other, s, 2) == State(SetX(SetX(s.c, mid.n, pushed), dst.n, low), s.pc + 8)
  {
    hide Read32, Step, Pow2, LslWord, LsrWord;
    var size := RegSize(dst.is64);
    LslComputes(other, s, mid, src, shift);
    var u := Step(other, s);
    LsrComputes(other, u, dst, mid, shift);
    assert Run(other, s, 2) == Run(other, u, 1) == Step(other, u);
    MidOperand(s.c, mid, src, shift);
    ZeroQuotient(Pow2(shift));
  }

  lemma ZeroQuotient(p: int)
    requires p > 0
    ensures 0 / p == 0
  {}

  /** What the LSR finds in the register between. */
  lemma MidOperand(c: Core, mid: Reg, src: Reg, shift: nat)
    requires mid.is64 == src.is64 && shift < RegSize(src.is64)
    ensures var size := RegSize(src.is64);
      var d := SetX(c, mid.n, Wrap(Operand(c, src) * Pow2(shift) % Pow2(size)));
      Operand(d, mid) / Pow2(shift) == if mid.n == 31 then 0 / Pow2(shift) else Operand(c, src) % Pow2(size - shift)
  {
    hide Pow2, Wrap;
    var size := RegSize(src.is64);
    var v := Operand(c, src) * Pow2(shift) % Pow2(size);
    InRange(c, src, v);
    LowBitsKept(Operand(c, src), size, shift);
    LowOfPushed(src.is64, v);
  }

  lemma LowOfPushed(is64: bool, v: int)
    ensures 0 <= v < Pow2(RegSize(is64)) ==> Wrap(v) == v && (!is64 ==> LowWord(v) == v)
  {
    hide Pow2;
    RegRange(is64);
  }
}
