/** Logical immediates: the encoder's search against the architecture's DecodeBitMasks. */
module BitmaskImm {
  import opened Options
  import opened Words
  import opened A64

  // ---------- powers of two ----------

  lemma MulGe(m: int, d: int)
    requires m > 0 && d >= 1
    ensures m * d >= m
  {
    assert m * (d - 1) >= 0;
  }

  lemma DivModUnique(x: int, m: int, q: int, r: int)
    requires m > 0 && 0 <= r < m && x == m * q + r
    ensures x / m == q && x % m == r
  {
    var q', r' := x / m, x % m;
    assert x == m * q' + r';
    assert m * (q - q') == r' - r;
    if q > q' {
      MulGe(m, q - q');
    } else if q < q' {
      MulGe(m, q' - q);
    }
  }

  lemma {:induction false} Pow2Add(a: nat, b: nat)
    ensures Pow2(a + b) == Pow2(a) * Pow2(b)
  {
    if a > 0 {
      Pow2Add(a - 1, b);
    }
  }

  lemma Pow2Small()
    ensures Pow2(0) == 1 && Pow2(1) == 2 && Pow2(2) == 4 && Pow2(4) == 16 && Pow2(8) == 0x100 && Pow2(16) == 0x1_0000
    ensures Pow2(32) == P32 && Pow2(64) == P64
  {
    Pow2Add(16, 16);
    Pow2Add(32, 32);
  }

  /** Scaling both sides of a remainder. */
  lemma ScaledMod(x: nat, m: int, k: int)
    requires m > 0 && k > 0
    ensures x * k % (m * k) == x % m * k
  {
    var q, r := x / m, x % m;
    assert x == m * q + r;
    assert x * k == m * k * q + r * k;
    assert r * k < m * k;
    DivModUnique(x * k, m * k, q, r * k);
  }

  /** The remainder by a divisor of the modulus survives the modulus. */
  lemma ModOfMod(x: int, m: int, k: int)
    requires m > 0 && k > 0
    ensures x % (m * k) % m == x % m
  {
    var y := x % (m * k);
    var q := x / (m * k);
    assert x == m * k * q + y;
    var a, r := y / m, y % m;
    assert y == m * a + r;
    assert x == m * (k * q + a) + r;
    DivModUnique(x, m, k * q + a, r);
  }

  // ---------- DecodeBitMasks, section J1.1 of the Arm manual ----------

  /** The highest set bit of a 7-bit number, or -1. */
  function HighestSetBit(x: int): int
    requires 0 <= x < 128
  {
    if x >= 64 then 6 else if x >= 32 then 5 else if x >= 16 then 4 else if x >= 8 then 3
    else if x >= 4 then 2 else if x >= 2 then 1 else if x >= 1 then 0 else -1
  }

  function Ones(n: nat): nat { Pow2(n) - 1 }

  lemma Product(a: nat, b: nat)
    ensures a * b >= 0
  {}

  lemma Quotient(a: nat, b: nat)
    requires b > 0
    ensures a / b >= 0 && 0 <= a % b < b
  {}

  /** Rotate the `e`-bit number `x` right by `r`. */
  function Ror(x: nat, r: nat, e: nat): nat
    requires r <= e
  {
    Quotient(x, Pow2(r));
    Product(x % Pow2(r), Pow2(e - r));
    x / Pow2(r) + x % Pow2(r) * Pow2(e - r)
  }

  /** `n` copies of the `e`-bit element `x` side by side. */
  function Replicate(x: nat, e: nat, n: nat): nat {
    if n == 0 then 0
    else
      Product(Pow2(e), Replicate(x, e, n - 1));
      x + Pow2(e) * Replicate(x, e, n - 1)
  }

  /** The element size that N:imms selects, or 0 where undefined. */
  function ElementSize(n: int, imms: int): nat
    requires 0 <= n < 2 && 0 <= imms < 64
  {
    match HighestSetBit(n * 64 + 63 - imms)
    case 6 => 64 case 5 => 32 case 4 => 16 case 3 => 8 case 2 => 4 case 1 => 2
    case _ => 0
  }

  /** The immediate that N:immr:imms stands for at the given register width, if it is defined. */
  function DecodeBitMasks(n: int, immr: int, imms: int, width: int): Option<nat>
    requires 0 <= n < 2 && 0 <= immr < 64 && 0 <= imms < 64 && (width == 32 || width == 64)
  {
    var e := ElementSize(n, imms);
    if e == 0 || e > width || imms % e == e - 1 then None
    else
      Quotient(immr, e);
      Quotient(imms, e);
      Quotient(width, e);
      Some(Replicate(Ror(Ones(imms % e + 1), immr % e, e), e, width / e))
  }

  /** DecodeBitMasks of a 13-bit N:immr:imms. */
  function DecodeLogical(enc: int, width: int): Option<nat>
    requires 0 <= enc < 0x2000 && (width == 32 || width == 64)
  {
    DecodeBitMasks(enc / 0x1000, enc / 0x40 % 0x40, enc % 0x40, width)
  }

  // ---------- what the search looks for ----------

  predicate IsElementSize(e: int) { e == 2 || e == 4 || e == 8 || e == 16 || e == 32 || e == 64 }

  /** `imm` is tiled by its low `e` bits. */
  predicate Tiled(imm: nat, e: nat, width: nat)
    requires e > 0
  {
    imm == Replicate(imm % Pow2(e), e, width / e)
  }

  /** The element is a rotated run of `len` ones. */
  predicate RotatedRun(elem: nat, e: nat, len: nat, rot: nat) {
    1 <= len < e && rot < e && elem == Ror(Ones(len), rot, e)
  }

  /** `e`, `len` and `rot` describe `imm`. */
  predicate Describes(imm: nat, width: nat, e: nat, len: nat, rot: nat) {
    IsElementSize(e) && e <= width && Tiled(imm, e, width) && RotatedRun(imm % Pow2(e), e, len, rot)
  }

  function EncodeRun(e: nat, len: nat, rot: nat): int {
    (if e == 64 then 0x1000 else 0) + rot % 0x40 * 0x40 + (0x3F - (2 * e - 1) % 0x40) + (len - 1)
  }

  /** The rotated run as the search computes it, with the bits that leave the 64-bit word dropped. */
  function Candidate(len: nat, rot: nat, e: nat): nat
    requires rot <= e
  {
    if rot == 0 then Ones(len) else (Wrap(Ones(len) * Pow2(e - rot)) + Ones(len) / Pow2(rot)) % Pow2(e)
  }

  lemma CandidateIsRor(len: nat, rot: nat, e: nat)
    requires IsElementSize(e) && 1 <= len < e && rot < e
    ensures Candidate(len, rot, e) == Ror(Ones(len), rot, e)
  {
    var x := Ones(len);
    RorBounds(rot, e, len);
    if rot == 0 {
      assert Pow2(0) == 1 && x / 1 == x && x % 1 == 0;
    } else {
      var p, q := Pow2(rot), Pow2(e - rot);
      Pow2Small();
      Pow2Add(e, 64 - e);
      Pow2Add(rot, e - rot);
      hide Pow2, Ones, Wrap;
      WrappedShift(x, p, q, Pow2(64 - e), Wrap(x * q));
    }
  }

  /** A left shift truncated to the word, joined with the bits shifted right, and masked. */
  lemma WrappedShift(x: nat, p: int, q: int, k: int, a: int)
    requires p > 0 && q > 0 && k > 0 && a == x * q % (p * q * k)
    requires x / p + x % p * q < p * q
    ensures (a + x / p) % (p * q) == x / p + x % p * q
  {
    var lo, hi := x / p, x % p * q;
    ModOfMod(x * q, p * q, k);
    ScaledMod(x, p, q);
    assert a % (p * q) == hi;
    assert a == p * q * (a / (p * q)) + hi;
    DivModUnique(a + lo, p * q, a / (p * q), hi + lo);
  }

  lemma {:induction false} Pow2Mono(a: nat, b: nat)
    requires a <= b
    ensures Pow2(a) <= Pow2(b)
  {
    if a < b {
      Pow2Mono(a, b - 1);
    }
  }

  /** Rotation stays within `e` bits and keeps apart the two bit patterns it must not reach. */
  lemma RorBounds(rot: nat, e: nat, len: nat)
    requires rot < e && 1 <= len < e
    ensures var x := Ones(len); x / Pow2(rot) + x % Pow2(rot) * Pow2(e - rot) < Pow2(e)
    ensures 0 < Ror(Ones(len), rot, e) < Ones(e)
  {
    hide Pow2;
    var x, p, q := Ones(len), Pow2(rot), Pow2(e - rot);
    RunSize(e, len);
    Pow2Add(rot, e - rot);
    assert 0 < x < p * q - 1;
    RotatedParts(p, q, x / p, x % p);
  }

  lemma RunSize(e: nat, len: nat)
    requires 1 <= len < e
    ensures 0 < Ones(len) < Ones(e)
  {
    Pow2Mono(len, e - 1);
    Pow2Mono(1, len);
    assert Pow2(e) == 2 * Pow2(e - 1) && Pow2(1) == 2;
  }

  lemma RotatedParts(p: int, q: int, d: int, m: int)
    requires p > 0 && q > 0 && 0 <= m < p && d >= 0 && 0 < p * d + m < p * q - 1
    ensures 0 < d + m * q < p * q - 1
  {
    if d >= q {
      MulGe2(p, d, q);
    }
    MulGe2(q, p - 1, m);
    if d == 0 && m > 0 {
      MulGe(q, m);
    }
    MulGe2(q, m, 0);
    if m <= p - 2 {
      MulGe2(q, p - 2, m);
      assert q * (p - 2) == p * q - 2 * q;
    } else {
      assert m * q == p * q - q;
      assert p * (q - 1) == p * q - p;
    }
  }

  lemma MulGe2(m: int, a: int, b: int)
    requires m > 0 && a >= b
    ensures m * a >= m * b
  {
    assert m * (a - b) >= 0;
  }

  // ---------- encodings and descriptions ----------

  lemma ReplicateSplits(x: nat, e: nat, n: nat)
    requires n >= 1 && x < Pow2(e)
    ensures Replicate(x, e, n) % Pow2(e) == x && Replicate(x, e, n) / Pow2(e) == Replicate(x, e, n - 1)
  {
    hide Pow2;
    DivModUnique(Replicate(x, e, n), Pow2(e), Replicate(x, e, n - 1), x);
  }

  /** Copies of an element that is neither empty nor full make neither an empty nor a full word. */
  lemma {:induction false} ReplicateBounds(x: nat, e: nat, n: nat)
    requires n >= 1 && 0 < x < Ones(e)
    ensures 0 < Replicate(x, e, n) < Pow2(e * n) - 1
  {
    var p := Pow2(e);
    if n == 1 {
      assert Replicate(x, e, 1) == x + p * Replicate(x, e, 0);
      assert e * 1 == e;
    } else {
      hide Pow2;
      ReplicateBounds(x, e, n - 1);
      var r, top := Replicate(x, e, n - 1), Pow2(e * (n - 1));
      Pow2Add(e, e * (n - 1));
      assert e + e * (n - 1) == e * n;
      MulGe2(p, top - 2, r);
      assert p * (top - 2) == p * top - 2 * p;
      assert p * r >= 0;
    }
  }

  lemma LogicalFields(n: int, rot: int, imms: int)
    requires 0 <= n < 2 && 0 <= rot < 0x40 && 0 <= imms < 0x40
    ensures var enc := 0x1000 * n + 0x40 * rot + imms;
      enc / 0x1000 == n && enc / 0x40 % 0x40 == rot && enc % 0x40 == imms
  {}

  /** The prefix of imms tells the element size, its rest the run length. */
  lemma LengthField(e: nat, len: nat)
    requires IsElementSize(e) && 1 <= len < e
    ensures var n, imms := if e == 64 then 1 else 0, 0x3F - (2 * e - 1) % 0x40 + (len - 1);
      0 <= imms < 0x40 && ElementSize(n, imms) == e && imms % e == len - 1
  {
    if e == 64 {} else if e == 32 {} else if e == 16 {} else if e == 8 {} else if e == 4 {} else {}
  }

  lemma EncodedElement(e: nat, len: nat, rot: nat)
    requires IsElementSize(e) && 1 <= len < e && rot < e
    ensures var enc := EncodeRun(e, len, rot);
      && 0 <= enc < 0x2000
      && ElementSize(enc / 0x1000, enc % 0x40) == e && enc % 0x40 % e == len - 1 && enc / 0x40 % 0x40 % e == rot
  {
    hide ElementSize;
    LengthField(e, len);
    LogicalFields(if e == 64 then 1 else 0, rot, 0x3F - (2 * e - 1) % 0x40 + (len - 1));
  }

  /** What the search returns decodes to the word it describes. */
  lemma EncodedRunDecodes(imm: nat, width: nat, e: nat, len: nat, rot: nat)
    requires (width == 32 || width == 64) && Describes(imm, width, e, len, rot)
    ensures 0 <= EncodeRun(e, len, rot) < 0x2000
    ensures DecodeLogical(EncodeRun(e, len, rot), width) == Some(imm)
  {
    hide Pow2, Replicate, Ror, Ones, EncodeRun;
    EncodedElement(e, len, rot);
  }

  /** Whatever decodes is described by its fields, and is neither empty nor full. */
  lemma DecodedIsDescribed(imm: nat, width: nat, enc: int)
    requires (width == 32 || width == 64) && 0 <= enc < 0x2000 && DecodeLogical(enc, width) == Some(imm)
    ensures var e := ElementSize(enc / 0x1000, enc % 0x40);
      e > 0 && Describes(imm, width, e, enc % 0x40 % e + 1, enc / 0x40 % 0x40 % e)
    ensures 0 < imm < Pow2(width) - 1
  {
    hide Pow2, Replicate, Ror, Ones, ElementSize;
    var e := ElementSize(enc / 0x1000, enc % 0x40);
    ElementSizeIs(enc / 0x1000, enc % 0x40, width);
    var len, rot := enc % 0x40 % e + 1, enc / 0x40 % 0x40 % e;
    var elem := Ror(Ones(len), rot, e);
    RorBounds(rot, e, len);
    OnesIs(e);
    ReplicateSplits(elem, e, width / e);
    ReplicateBounds(elem, e, width / e);
  }

  lemma ElementSizeIs(n: int, imms: int, width: int)
    requires 0 <= n < 2 && 0 <= imms < 64 && (width == 32 || width == 64)
    ensures var e := ElementSize(n, imms);
      e == 0 || (IsElementSize(e) && (e <= width ==> width / e >= 1 && e * (width / e) == width))
  {}

  lemma OnesIs(n: nat)
    ensures Ones(n) == Pow2(n) - 1
  {}

  // ---------- the search ----------

  /** One more chunk compared: `v` is what remains above the chunks seen so far. */
  lemma NextChunk(elem: nat, e: nat, v: nat, n: nat)
    requires e > 0 && elem < Pow2(e)
    ensures v == Replicate(elem, e, n + 1) <==> v % Pow2(e) == elem && v / Pow2(e) == Replicate(elem, e, n)
  {
    hide Pow2;
    ReplicateSplits(elem, e, n + 1);
    assert v == Pow2(e) * (v / Pow2(e)) + v % Pow2(e);
  }

  /** The bound of a number of `k` chunks. */
  function Bound(e: nat, k: nat): nat
    requires e * k >= 0
  {
    Pow2(e * k)
  }

  lemma BoundSplits(e: nat, k: nat)
    ensures e * k >= 0 && e * (k + 1) >= 0
    ensures Bound(e, k + 1) == Pow2(e) * Bound(e, k)
  {
    hide Pow2;
    assert e + e * k == e * (k + 1);
    Pow2Add(e, e * k);
  }

  lemma ChunkBound(v: nat, p: int, q: int)
    requires p > 0 && v < p * q
    ensures 0 <= v / p < q
  {
    var d := v / p;
    if d >= q {
      MulGe2(p, d, q);
    }
  }

  /** Compares every `e`-bit chunk of `imm` with the lowest one. */
  method AllChunksEqual(imm: nat, e: nat, width: nat) returns (ok: bool)
    requires IsElementSize(e) && e <= width && (width == 32 || width == 64) && imm < Pow2(width)
    ensures ok <==> Tiled(imm, e, width)
  {
    hide Pow2, Replicate, Bound;
    var elem := imm % Pow2(e);
    var n := width / e;
    BoundIs(e, n, width);
    var v: nat := imm;
    ok := true;
    for k := 0 to n
      invariant ok
      invariant e == 64 || k == 0 ==> v == imm
      invariant e * (n - k) >= 0
      invariant e < 64 ==> v < Bound(e, n - k)
      invariant e < 64 ==> (imm == Replicate(elem, e, n) <==> v == Replicate(elem, e, n - k))
      invariant e == 64 && k == 1 ==> imm == Replicate(elem, e, n)
    {
      BoundSplits(e, n - k - 1);
      if e < 64 {
        NextChunk(elem, e, v, n - k - 1);
        ChunkBound(v, Pow2(e), Bound(e, n - k - 1));
      } else {
        WholeWord(imm);
      }
      if v % Pow2(e) != elem {
        return false;
      }
      // A shift by the whole word is no shift.
      v := if e == 64 then v else v / Pow2(e);
    }
    Empty(elem, e);
  }

  lemma BoundIs(e: nat, n: nat, width: nat)
    requires IsElementSize(e) && e <= width && (width == 32 || width == 64) && n == width / e
    ensures n >= 1 && (e == 64 ==> n == 1) && e * (n - 0) >= 0 && Bound(e, n) == Pow2(width)
  {
    assert e * n == width;
  }

  lemma WholeWord(imm: nat)
    requires imm < Pow2(64)
    ensures imm % Pow2(64) == imm && imm == Replicate(imm, 64, 1)
  {
    hide Pow2;
    assert Replicate(imm, 64, 1) == imm + Pow2(64) * Replicate(imm, 64, 0);
  }

  lemma Empty(elem: nat, e: nat)
    ensures Replicate(elem, e, 0) == 0 && e * 0 >= 0 && Bound(e, 0) == 1
  {}

  /** Tries every run length and rotation. */
  method FindRun(elem: nat, e: nat) returns (r: Option<(nat, nat)>)
    requires IsElementSize(e)
    ensures r.Some? ==> RotatedRun(elem, e, r.value.0, r.value.1)
    ensures r.None? ==> forall len: nat, rot: nat :: !RotatedRun(elem, e, len, rot)
  {
    hide Candidate, Ror, Ones;
    for len := 1 to e
      invariant forall l: nat, rot: nat :: l < len ==> !RotatedRun(elem, e, l, rot)
    {
      for rot := 0 to e
        invariant forall l: nat, q: nat :: l < len || (l == len && q < rot) ==> !RotatedRun(elem, e, l, q)
      {
        CandidateIsRor(len, rot, e);
        if Candidate(len, rot, e) == elem {
          return Some((len, rot));
        }
      }
    }
    return None;
  }

  const SIZES: seq<nat> := [2, 4, 8, 16, 32, 64]

  /** No description of `imm` uses an element of the given size. */
  ghost predicate NoneOfSize(imm: nat, width: nat, e: nat) {
    forall len: nat, rot: nat :: !Describes(imm, width, e, len, rot)
  }

  /**
   * The immediate encoder finds an encoding exactly when the architecture has one for the masked
   * value, and then the one with the smallest repeating element.
   */
  method TryEncodeLogicalImm(value: u64, width: nat) returns (r: Option<u32>)
    requires width == 32 || width == 64
    ensures var imm := value % Pow2(width);
      match r
      case None => forall enc :: 0 <= enc < 0x2000 ==> DecodeLogical(enc, width) != Some(imm)
      case Some(enc) =>
        && enc < 0x2000 && DecodeLogical(enc, width) == Some(imm)
        && forall enc' :: 0 <= enc' < 0x2000 && DecodeLogical(enc', width) == Some(imm)
             ==> ElementSize(enc / 0x1000, enc % 0x40) <= ElementSize(enc' / 0x1000, enc' % 0x40)
  {
    hide Pow2, Describes, DecodeLogical, ElementSize, EncodeRun;
    var imm := value % Pow2(width);
    if imm == 0 || imm == Pow2(width) - 1 {
      NotEmptyNorFull(imm, width);
      return None;
    }
    for i := 0 to 6
      invariant forall j :: 0 <= j < i ==> NoneOfSize(imm, width, SIZES[j])
    {
      var e := SIZES[i];
      if e > width || width % e != 0 {
        TooWide(imm, width, e);
        continue;
      }
      var ok := AllChunksEqual(imm, e, width);
      if !ok {
        NotTiled(imm, width, e);
        continue;
      }
      var run := FindRun(imm % Pow2(e), e);
      if run.Some? {
        var (len, rot) := run.value;
        DescribesIs(imm, width, e, len, rot);
        EncodedRunDecodes(imm, width, e, len, rot);
        EncodedElement(e, len, rot);
        SmallestElement(imm, width, i);
        return Some(EncodeRun(e, len, rot));
      }
      NoRun(imm, width, e);
    }
    NoEncoding(imm, width);
    return None;
  }

  lemma DescribesIs(imm: nat, width: nat, e: nat, len: nat, rot: nat)
    requires IsElementSize(e) && e <= width && Tiled(imm, e, width) && RotatedRun(imm % Pow2(e), e, len, rot)
    ensures Describes(imm, width, e, len, rot)
  {}

  lemma TooWide(imm: nat, width: nat, e: nat)
    requires IsElementSize(e) && (width == 32 || width == 64) && (e > width || width % e != 0)
    ensures NoneOfSize(imm, width, e)
  {
    hide Tiled, RotatedRun;
  }

  lemma NotTiled(imm: nat, width: nat, e: nat)
    requires e > 0 && !Tiled(imm, e, width)
    ensures NoneOfSize(imm, width, e)
  {
    hide Tiled, RotatedRun;
  }

  lemma NoRun(imm: nat, width: nat, e: nat)
    requires e > 0 && forall len: nat, rot: nat :: !RotatedRun(imm % Pow2(e), e, len, rot)
    ensures NoneOfSize(imm, width, e)
  {
    hide Tiled, RotatedRun, Pow2;
  }

  lemma NotEmptyNorFull(imm: nat, width: nat)
    requires (width == 32 || width == 64) && (imm == 0 || imm == Pow2(width) - 1)
    ensures forall enc :: 0 <= enc < 0x2000 ==> DecodeLogical(enc, width) != Some(imm)
  {
    hide DecodeLogical, Describes, Pow2;
    forall enc | 0 <= enc < 0x2000
      ensures DecodeLogical(enc, width) != Some(imm)
    {
      if DecodeLogical(enc, width) == Some(imm) {
        DecodedIsDescribed(imm, width, enc);
      }
    }
  }

  /** Sizes below `SIZES[i]` are ruled out for every encoding of `imm`. */
  lemma SmallestElement(imm: nat, width: nat, i: nat)
    requires (width == 32 || width == 64) && i <= 6
    requires forall j :: 0 <= j < i ==> NoneOfSize(imm, width, SIZES[j])
    ensures forall enc :: 0 <= enc < 0x2000 && DecodeLogical(enc, width) == Some(imm) ==>
        i < 6 && SIZES[i] <= ElementSize(enc / 0x1000, enc % 0x40)
  {
    hide DecodeLogical, Pow2, Tiled, RotatedRun, ElementSize;
    forall enc | 0 <= enc < 0x2000 && DecodeLogical(enc, width) == Some(imm)
      ensures i < 6 && SIZES[i] <= ElementSize(enc / 0x1000, enc % 0x40)
    {
      DecodedIsDescribed(imm, width, enc);
      var e := ElementSize(enc / 0x1000, enc % 0x40);
      SizeIndex(e, i);
    }
  }

  lemma SizeIndex(e: nat, i: nat)
    requires IsElementSize(e) && i <= 6
    requires forall j :: 0 <= j < i ==> SIZES[j] != e
    ensures i < 6 && SIZES[i] <= e
  {
    var k :=
      if e == 2 then 0 else if e == 4 then 1 else if e == 8 then 2
      else if e == 16 then 3 else if e == 32 then 4 else 5;
    assert SIZES[k] == e;
    assert i <= k;
  }

  lemma NoEncoding(imm: nat, width: nat)
    requires width == 32 || width == 64
    requires forall j :: 0 <= j < 6 ==> NoneOfSize(imm, width, SIZES[j])
    ensures forall enc :: 0 <= enc < 0x2000 ==> DecodeLogical(enc, width) != Some(imm)
  {
    hide DecodeLogical, NoneOfSize;
    SmallestElement(imm, width, 6);
  }
}
