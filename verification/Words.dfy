/** A value that may be absent. */
module Options {
  datatype Option<+T> = None | Some(value: T)
}

/** Machine words as bounded integers: wrap-around, signed reading, little-endian bytes. */
module Words {

  const P32: int := 0x1_0000_0000
  const P64: int := 0x1_0000_0000_0000_0000

  type u8 = x: int | 0 <= x < 0x100
  type u32 = x: int | 0 <= x < 0x1_0000_0000
  type u64 = x: int | 0 <= x < 0x1_0000_0000_0000_0000
  type u128 = x: int | 0 <= x < 0x1_0000_0000_0000_0000_0000_0000_0000_0000

  /** The low 64 bits of `x`. */
  function Wrap(x: int): u64 { x % P64 }

  /** The low 32 bits of `x` (Rust's `as u32`). */
  function Wrap32(x: int): u32 { x % P32 }

  /** The low 64 bits of `x` read as a two's complement number (Rust's `as i64`). */
  function Signed(x: int): int {
    if Wrap(x) < P64 / 2 then Wrap(x) else Wrap(x) - P64
  }

  /** `target as i64 - pc as i64`, with the wrap-around of 64-bit arithmetic. */
  function Delta(target: u64, pc: u64): int { Signed(target - pc) }

  /** A field `v` of width w read as signed, where `half` is 2^(w-1). */
  function SignExtend(v: int, half: int): int {
    if v < half then v else v - 2 * half
  }

  lemma WrapAdd(a: int, b: int)
    ensures Wrap(Wrap(a) + b) == Wrap(a + b)
  {
    assert a + b == P64 * (a / P64) + (Wrap(a) + b);
  }

  lemma WrapAligned(x: int)
    requires x % 4 == 0
    ensures Wrap(x) % 4 == 0
  {
    var q := x / P64;
    assert x == P64 * q + Wrap(x);
    assert Wrap(x) == 4 * (x / 4 - P64 / 4 * q);
  }

  lemma DeltaAligned(target: u64, pc: u64)
    requires target % 4 == 0 && pc % 4 == 0
    ensures Delta(target, pc) % 4 == 0
  {
    WrapAligned(target - pc);
    hide Wrap;
    assert Delta(target, pc) == Wrap(target - pc) || Delta(target, pc) == Wrap(target - pc) - 4 * (P64 / 4);
  }

  lemma DeltaReaches(target: u64, pc: u64)
    ensures Wrap(pc + Delta(target, pc)) == target
    ensures -P64 / 2 <= Delta(target, pc) < P64 / 2
  {
    var d := target - pc;
    assert Wrap(d) == d || Wrap(d) == d + P64;
  }

  lemma DeltaOfOffset(pc: u64, off: int)
    requires -P64 / 2 <= off < P64 / 2
    ensures Delta(Wrap(pc + off), pc) == off
  {
    var t := Wrap(pc + off);
    assert t == pc + off || t == pc + off - P64 || t == pc + off + P64;
  }

  function Octet(x: int): u8 { x % 0x100 }

  function LE32(w: u32): (b: seq<u8>)
    ensures |b| == 4
  {
    [Octet(w), Octet(w / 0x100), Octet(w / 0x1_0000), Octet(w / 0x100_0000)]
  }

  function FromLE32(b: seq<u8>): u32
    requires |b| == 4
  {
    var b0: int, b1: int, b2: int, b3: int := b[0], b[1], b[2], b[3];
    b0 + 0x100 * b1 + 0x1_0000 * b2 + 0x100_0000 * b3
  }

  lemma LE32RoundTrip(w: u32)
    ensures FromLE32(LE32(w)) == w
  {
    var q1, q2 := w / 0x100, w / 0x1_0000;
    assert w == 0x100 * q1 + w % 0x100;
    assert q1 == 0x100 * q2 + q1 % 0x100;
    assert q2 == 0x100 * (w / 0x100_0000) + q2 % 0x100;
  }

  function LowWord(v: u64): u32 { v % P32 }

  function HighWord(v: u64): u32 { v / P32 }

  /** The byte image of a list of little-endian words. */
  function Bytes(ws: seq<u32>): (b: seq<u8>)
    ensures |b| == 4 * |ws|
  {
    if |ws| == 0 then [] else LE32(ws[0]) + Bytes(ws[1..])
  }

  lemma BytesSmall(w: u32)
    ensures Bytes([]) == [] && Bytes([w]) == LE32(w)
  {}

  lemma {:induction false} BytesAt(ws: seq<u32>, k: nat)
    requires k < |ws|
    ensures Bytes(ws)[4 * k..4 * k + 4] == LE32(ws[k])
  {
    if k > 0 {
      BytesAt(ws[1..], k - 1);
      assert Bytes(ws)[4 * k..4 * k + 4] == Bytes(ws[1..])[4 * (k - 1)..4 * (k - 1) + 4];
    }
  }

  lemma {:induction false} BytesConcat(a: seq<u32>, b: seq<u32>)
    ensures Bytes(a + b) == Bytes(a) + Bytes(b)
  {
    if |a| == 0 {
      assert a + b == b;
    } else {
      BytesConcat(a[1..], b);
      assert (a + b)[1..] == a[1..] + b;
    }
  }
}

/** Byte-addressed memory; a byte that was never written reads as zero. */
module Memory {
  import opened Words

  type Mem = map<int, u8>

  function Get(m: Mem, a: int): u8 {
    if a in m then m[a] else 0
  }

  function Read32(m: Mem, a: int): u32 {
    FromLE32([Get(m, a), Get(m, a + 1), Get(m, a + 2), Get(m, a + 3)])
  }

  function Read64(m: Mem, a: int): u64 {
    Read32(m, a) + P32 * Read32(m, a + 4)
  }

  function Read128(m: Mem, a: int): u128 {
    Read64(m, a) + P64 * Read64(m, a + 8)
  }

  function Write32(m: Mem, a: int, w: u32): Mem {
    var b := LE32(w);
    m[a := b[0]][a + 1 := b[1]][a + 2 := b[2]][a + 3 := b[3]]
  }

  function Write64(m: Mem, a: int, v: u64): Mem {
    Write32(Write32(m, a, LowWord(v)), a + 4, HighWord(v))
  }

  function Write128(m: Mem, a: int, v: u128): Mem {
    Write64(Write64(m, a, v % P64), a + 8, v / P64)
  }

  /** `m` and `n` hold the same bytes at every address of `[lo, hi)`. */
  ghost predicate SameOn(m: Mem, n: Mem, lo: int, hi: int) {
    forall a :: lo <= a < hi ==> Get(m, a) == Get(n, a)
  }

  /** `m` and `n` hold the same bytes at every address outside `[lo, hi)`. */
  ghost predicate SameOff(m: Mem, n: Mem, lo: int, hi: int) {
    forall a :: !(lo <= a < hi) ==> Get(m, a) == Get(n, a)
  }

  lemma Write32Get(m: Mem, a: int, w: u32)
    ensures SameOff(m, Write32(m, a, w), a, a + 4)
    ensures Read32(Write32(m, a, w), a) == w
  {
    var n := Write32(m, a, w);
    LE32RoundTrip(w);
    assert [Get(n, a), Get(n, a + 1), Get(n, a + 2), Get(n, a + 3)] == LE32(w);
  }

  lemma Read32Same(m: Mem, n: Mem, a: int)
    requires SameOn(m, n, a, a + 4)
    ensures Read32(m, a) == Read32(n, a)
  {}

  lemma Read64Same(m: Mem, n: Mem, a: int)
    requires SameOn(m, n, a, a + 8)
    ensures Read64(m, a) == Read64(n, a)
  {}

  lemma Write64Get(m: Mem, a: int, v: u64)
    ensures SameOff(m, Write64(m, a, v), a, a + 8)
    ensures Read64(Write64(m, a, v), a) == v
  {
    var m1 := Write32(m, a, LowWord(v));
    var m2 := Write32(m1, a + 4, HighWord(v));
    Write32Get(m, a, LowWord(v));
    Write32Get(m1, a + 4, HighWord(v));
    hide Write32, Read32;
    Read32Same(m1, m2, a);
  }

  lemma Write128Get(m: Mem, a: int, v: u128)
    ensures SameOff(m, Write128(m, a, v), a, a + 16)
    ensures Read128(Write128(m, a, v), a) == v
  {
    hide Write64, Read64;
    var m1 := Write64(m, a, v % P64);
    var m2 := Write64(m1, a + 8, v / P64);
    Write64Get(m, a, v % P64);
    Write64Get(m1, a + 8, v / P64);
    Read64Same(m1, m2, a);
  }

  lemma Untouched(m: Mem, n: Mem, lo: int, hi: int, a: int, b: int)
    requires SameOff(m, n, lo, hi) && (b <= lo || hi <= a)
    ensures SameOn(m, n, a, b)
  {}

  lemma UntouchedJoin(m: Mem, n: Mem, o: Mem, lo: int, mid: int, hi: int)
    requires lo <= mid <= hi && SameOff(m, n, mid, hi) && SameOff(n, o, lo, mid)
    ensures SameOff(m, o, lo, hi)
  {}

  /** The words `ws` lie at `a`, `a + 4`, ... */
  ghost predicate Holds(m: Mem, a: int, ws: seq<u32>) {
    forall k :: 0 <= k < |ws| ==> Read32(m, a + 4 * k) == ws[k]
  }

  /** Copying the byte image of `ws` to `a` makes the words readable there. */
  lemma CopiedCodeHolds(m: Mem, a: int, ws: seq<u32>)
    requires forall i :: 0 <= i < |Bytes(ws)| ==> Get(m, a + i) == Bytes(ws)[i]
    ensures Holds(m, a, ws)
  {
    forall k | 0 <= k < |ws|
      ensures Read32(m, a + 4 * k) == ws[k]
    {
      BytesAt(ws, k);
      LE32RoundTrip(ws[k]);
      var p := 4 * k;
      var b := Bytes(ws)[p..p + 4];
      assert b[0] == Bytes(ws)[p] && b[1] == Bytes(ws)[p + 1] && b[2] == Bytes(ws)[p + 2] && b[3] == Bytes(ws)[p + 3];
      assert [Get(m, a + p), Get(m, a + (p + 1)), Get(m, a + (p + 2)), Get(m, a + (p + 3))] == b;
    }
  }

  lemma HoldsPart(m: Mem, a: int, ws: seq<u32>, i: nat, j: nat)
    requires i <= j <= |ws|
    requires Holds(m, a, ws)
    ensures Holds(m, a + 4 * i, ws[i..j])
  {
    hide Read32;
    forall k | 0 <= k < j - i
      ensures Read32(m, a + 4 * i + 4 * k) == ws[i..j][k]
    {
      assert ws[i + k] == ws[i..j][k];
      assert a + 4 * (i + k) == a + 4 * i + 4 * k;
    }
  }

  lemma HoldsSame(m: Mem, n: Mem, a: int, ws: seq<u32>)
    requires Holds(m, a, ws)
    requires SameOn(m, n, a, a + 4 * |ws|)
    ensures Holds(n, a, ws)
  {
    forall k | 0 <= k < |ws|
      ensures Read32(n, a + 4 * k) == ws[k]
    {
      Read32Same(m, n, a + 4 * k);
    }
  }
}
