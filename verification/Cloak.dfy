/** Cloaked address ranges, and the memory map that must not show them. */
module Cloak {
  import opened Words
  import opened Options

  const U64_MAX: int := P64 - 1

  function SaturatingAdd(a: u64, b: u64): u64 { if a + b > U64_MAX then U64_MAX else a + b }

  datatype Range = Range(base: u64, size: u64)
  {
    /** One past the last address; the top address of all is never inside. */
    function End(): u64 { SaturatingAdd(base, size) }

    predicate Contains(a: int) { base <= a < End() }

    predicate Overlaps(r: Range) { base < r.End() && r.base < End() }

    predicate Touches(r: Range) { Overlaps(r) || End() == r.base || r.End() == base }
  }

  /** Some address of `x` is an address of `r`, or next to one. */
  ghost predicate Near(x: Range, r: Range) { exists a, b :: x.Contains(a) && r.Contains(b) && -1 <= a - b <= 1 }

  ghost predicate Share(x: Range, r: Range) { exists a :: x.Contains(a) && r.Contains(a) }

  /** A range holds `size` addresses from `base` on, as far as the address space goes without its last one. */
  lemma ContainsExactly(r: Range, a: int)
    ensures r.Contains(a) <==> r.base <= a < r.base + r.size && a < 0xFFFF_FFFF_FFFF_FFFF
  {}

  lemma TouchesIffNear(x: Range, r: Range)
    requires x.base < x.End() && r.base < r.End()
    ensures x.Touches(r) <==> Near(x, r)
  {
    if x.Touches(r) {
      var a: int := if x.base < r.base then (if r.base < x.End() then r.base else x.End() - 1) else x.base;
      var b: int := if x.base < r.base then r.base else if x.base < r.End() then x.base else r.End() - 1;
      assert x.Contains(a) && r.Contains(b) && -1 <= a - b <= 1;
    }
  }

  lemma OverlapsIffShare(x: Range, r: Range)
    requires x.base < x.End() && r.base < r.End()
    ensures x.Overlaps(r) <==> Share(x, r)
  {
    if x.Overlaps(r) {
      var a: int := if x.base < r.base then r.base else x.base;
      assert x.Contains(a) && r.Contains(a);
    }
  }

  /** Whether one of `rs` holds `a`. */
  predicate Hidden(rs: seq<Range>, a: int) { exists i :: 0 <= i < |rs| && rs[i].Contains(a) }

  /** No two ranges overlap or adjoin. */
  ghost predicate Separate(rs: seq<Range>) {
    forall i, j :: 0 <= i < j < |rs| ==> !rs[i].Touches(rs[j])
  }

  // ---------- adding and removing ----------

  /** The ranges that do not touch `r`, in order. */
  function RetainApart(rs: seq<Range>, r: Range): seq<Range> {
    if rs == [] then []
    else (if rs[0].Touches(r) then [] else [rs[0]]) + RetainApart(rs[1..], r)
  }

  function RetainOther(rs: seq<Range>, r: Range): seq<Range> {
    if rs == [] then []
    else (if rs[0] == r then [] else [rs[0]]) + RetainOther(rs[1..], r)
  }

  function Added(rs: seq<Range>, r: Range): seq<Range> {
    if r.size == 0 then rs else RetainApart(rs, r) + [r]
  }

  datatype Edit = Add(r: Range) | Remove(r: Range)

  function Apply(rs: seq<Range>, e: Edit): seq<Range> {
    match e
    case Add(r) => Added(rs, r)
    case Remove(r) => RetainOther(rs, r)
  }

  function ApplyAll(rs: seq<Range>, edits: seq<Edit>): seq<Range>
    decreases |edits|
  {
    if edits == [] then rs else ApplyAll(Apply(rs, edits[0]), edits[1..])
  }

  lemma {:induction false} RetainedApart(rs: seq<Range>, r: Range)
    ensures forall x :: x in RetainApart(rs, r) <==> x in rs && !x.Touches(r)
    ensures Separate(rs) ==> Separate(RetainApart(rs, r))
    decreases |rs|
  {
    if rs != [] {
      RetainedApart(rs[1..], r);
      if Separate(rs) {
        SeparateTail(rs, RetainApart(rs[1..], r));
      }
    }
  }

  lemma {:induction false} RetainedOther(rs: seq<Range>, r: Range)
    ensures forall x :: x in RetainOther(rs, r) <==> x in rs && x != r
    ensures Separate(rs) ==> Separate(RetainOther(rs, r))
    decreases |rs|
  {
    if rs != [] {
      RetainedOther(rs[1..], r);
      if Separate(rs) {
        SeparateTail(rs, RetainOther(rs[1..], r));
      }
    }
  }

  /** The head stays apart from whatever remains of the tail. */
  lemma SeparateTail(rs: seq<Range>, rest: seq<Range>)
    requires rs != [] && Separate(rs) && forall x :: x in rest ==> x in rs[1..]
    ensures Separate(rs[1..])
    ensures Separate(rest) ==> Separate([rs[0]] + rest)
  {
    if Separate(rest) {
      var all := [rs[0]] + rest;
      forall i, j | 0 <= i < j < |all|
        ensures !all[i].Touches(all[j])
      {
        if i == 0 {
          assert all[j] in rs[1..];
          var k :| 0 <= k < |rs[1..]| && rs[1..][k] == all[j];
          assert rs[k + 1] == all[j];
        }
      }
    }
  }

  /** Whatever is added and removed, the stored ranges neither overlap nor adjoin. */
  lemma {:induction false} EveryRunStaysSeparate(rs: seq<Range>, edits: seq<Edit>)
    requires Separate(rs)
    ensures Separate(ApplyAll(rs, edits))
    decreases |edits|
  {
    hide Separate;
    if edits != [] {
      EditStaysSeparate(rs, edits[0]);
      EveryRunStaysSeparate(Apply(rs, edits[0]), edits[1..]);
    }
  }

  lemma EditStaysSeparate(rs: seq<Range>, e: Edit)
    requires Separate(rs)
    ensures Separate(Apply(rs, e))
  {
    match e
    case Add(r) =>
      RetainedApart(rs, r);
      var kept := RetainApart(rs, r);
      var all := kept + [r];
      forall i, j | 0 <= i < j < |all|
        ensures !all[i].Touches(all[j])
      {
        if j == |kept| {
          assert all[i] in kept;
        }
      }
    case Remove(r) =>
      RetainedOther(rs, r);
  }

  lemma HiddenIn(rs: seq<Range>, a: int)
    ensures Hidden(rs, a) <==> exists x :: x in rs && x.Contains(a)
  {
    if Hidden(rs, a) {
      var i :| 0 <= i < |rs| && rs[i].Contains(a);
      assert rs[i] in rs;
    }
    if x :| x in rs && x.Contains(a) {
      var i :| 0 <= i < |rs| && rs[i] == x;
    }
  }

  /**
   * Adding drops exactly the stored ranges that overlap `r` or adjoin it, and keeps the others as they are.
   * At the last address, which no range holds, `r` still drops what ends there.
   */
  lemma AddDrops(rs: seq<Range>, r: Range, x: Range)
    requires r.size > 0 && x in rs && x.base < x.End()
    ensures x in Added(rs, r)
       <==> x == r || if r.base < r.End() then !Near(x, r) else x.End() != 0xFFFF_FFFF_FFFF_FFFF
    ensures r in Added(rs, r) && forall y :: y in Added(rs, r) ==> y == r || y in rs
  {
    RetainedApart(rs, r);
    assert Added(rs, r)[|RetainApart(rs, r)|] == r;
    assert forall y :: y in Added(rs, r) <==> y == r || y in RetainApart(rs, r);
    if r.base < r.End() {
      TouchesIffNear(x, r);
    }
  }

  /** The ranges that stay keep their order. */
  lemma {:induction false} RetainKeepsOrder(rs: seq<Range>, r: Range)
    ensures (forall i :: 0 <= i < |rs| ==> !rs[i].Touches(r)) ==> RetainApart(rs, r) == rs
    ensures r !in rs ==> RetainOther(rs, r) == rs
    decreases |rs|
  {
    if rs != [] {
      RetainKeepsOrder(rs[1..], r);
      assert rs == [rs[0]] + rs[1..];
      if forall i :: 0 <= i < |rs| ==> !rs[i].Touches(r) {
        assert !rs[0].Touches(r);
        forall i | 0 <= i < |rs[1..]|
          ensures !rs[1..][i].Touches(r)
        {
          assert rs[1..][i] == rs[i + 1];
        }
      }
    }
  }

  /** Removing a range uncovers exactly what it alone hid, and only if it is stored as it was given. */
  lemma RemoveHides(rs: seq<Range>, r: Range, a: int)
    ensures Hidden(Apply(rs, Remove(r)), a) <==> exists x :: x in rs && x != r && x.Contains(a)
  {
    RetainedOther(rs, r);
    HiddenIn(RetainOther(rs, r), a);
    hide Hidden;
  }

  /** A range that is far from all stored ones is added and removed again without a trace. */
  lemma AddRemove(rs: seq<Range>, r: Range)
    requires r.base < r.End() && forall x :: x in rs ==> x.base < x.End() && !Near(x, r)
    ensures ApplyAll(rs, [Add(r), Remove(r)]) == rs
  {
    forall x | x in rs
      ensures !x.Touches(r) && x != r
    {
      TouchesIffNear(x, r);
      assert r.Touches(r);
    }
    RetainKeepsOrder(rs, r);
    RetainLast(rs, r);
    assert [Add(r), Remove(r)][1..] == [Remove(r)];
    assert ApplyAll(rs + [r], [Remove(r)]) == ApplyAll(RetainOther(rs + [r], r), []);
  }

  lemma {:induction false} RetainLast(rs: seq<Range>, r: Range)
    requires r !in rs
    ensures RetainOther(rs + [r], r) == rs
    decreases |rs|
  {
    if rs != [] {
      RetainLast(rs[1..], r);
      assert (rs + [r])[1..] == rs[1..] + [r];
    }
  }

  /** Adding hides exactly `r` and what the ranges that are not near it hid. */
  lemma AddHides(rs: seq<Range>, r: Range, a: int)
    requires r.base < r.End()
    ensures Hidden(Added(rs, r), a) <==> r.Contains(a) || exists x :: x in rs && !Near(x, r) && x.Contains(a)
  {
    AddedHides(rs, r, a);
    forall x | x in rs && x.Contains(a)
      ensures x.Touches(r) <==> Near(x, r)
    {
      TouchesIffNear(x, r);
    }
  }

  lemma AddedHides(rs: seq<Range>, r: Range, a: int)
    requires r.size > 0
    ensures Hidden(Added(rs, r), a) <==> r.Contains(a) || exists x :: x in rs && !x.Touches(r) && x.Contains(a)
  {
    RetainedApart(rs, r);
    HiddenIn(Added(rs, r), a);
    var kept := RetainApart(rs, r);
    assert r in kept + [r];
    forall x | x in kept
      ensures x in kept + [r]
    {}
    hide Hidden;
  }

  /**
   * An older range that touches the new one is dropped whole. So adding uncovers nothing exactly if
   * every non-empty range that it touches lies inside it.
   */
  lemma AddKeepsHidden(rs: seq<Range>, r: Range)
    requires r.size > 0 && Separate(rs)
    ensures (forall a :: Hidden(rs, a) ==> Hidden(Added(rs, r), a))
       <==> (forall x :: x in rs && x.Touches(r) && x.base < x.End() ==> r.base <= x.base && x.End() <= r.End())
  {
    if forall x :: x in rs && x.Touches(r) && x.base < x.End() ==> r.base <= x.base && x.End() <= r.End() {
      forall a | Hidden(rs, a)
        ensures Hidden(Added(rs, r), a)
      {
        HiddenIn(rs, a);
        AddedHides(rs, r, a);
      }
    } else {
      var x :| x in rs && x.Touches(r) && x.base < x.End() && !(r.base <= x.base && x.End() <= r.End());
      var a: int := if x.base < r.base then x.base else x.End() - 1;
      assert x.Contains(a) && !r.Contains(a);
      HiddenIn(rs, a);
      AddedHides(rs, r, a);
      OnlyHolder(rs, x, a);
    }
  }

  lemma OnlyHolder(rs: seq<Range>, x: Range, a: int)
    requires Separate(rs) && x in rs && x.Contains(a)
    ensures forall y :: y in rs && y.Contains(a) ==> y == x
  {
    var i :| 0 <= i < |rs| && rs[i] == x;
    forall y | y in rs && y.Contains(a)
      ensures y == x
    {
      var j :| 0 <= j < |rs| && rs[j] == y;
      assert rs[i].Overlaps(rs[j]) && rs[j].Overlaps(rs[i]);
    }
  }

  lemma EmptyProbe(rs: seq<Range>, at: u64)
    ensures (exists x :: x in rs && x.base <= at <= x.End())
       <==> Hidden(rs, at) || exists x :: x in rs && x.End() == at
  {
    if x :| x in rs && x.base <= at <= x.End() && x.End() != at {
      HiddenIn(rs, at);
      assert x.Contains(at);
    }
    if Hidden(rs, at) {
      HiddenIn(rs, at);
    }
  }

  /**
   * Among separate ranges, a non-empty range is hidden throughout exactly if one stored range holds it.
   * An empty range counts as cloaked where an address is hidden or a stored range ends.
   */
  lemma CloakedIffHidden(rs: seq<Range>, probe: Range)
    requires Separate(rs)
    ensures (exists x :: x in rs && x.base <= probe.base && x.End() >= probe.End())
       <==> if probe.base < probe.End() then forall a :: probe.Contains(a) ==> Hidden(rs, a)
            else Hidden(rs, probe.base) || exists x :: x in rs && x.End() == probe.base
  {
    if probe.base == probe.End() {
      EmptyProbe(rs, probe.base);
      return;
    }
    if x :| x in rs && x.base <= probe.base && x.End() >= probe.End() {
      forall a | probe.Contains(a)
        ensures Hidden(rs, a)
      {
        HiddenIn(rs, a);
      }
    }
    if forall a :: probe.Contains(a) ==> Hidden(rs, a) {
      assert probe.Contains(probe.base);
      HiddenIn(rs, probe.base);
      var x :| x in rs && x.Contains(probe.base);
      if x.End() < probe.End() {
        assert probe.Contains(x.End());
        HiddenIn(rs, x.End());
        var y :| y in rs && y.Contains(x.End());
        var i :| 0 <= i < |rs| && rs[i] == x;
        var j :| 0 <= j < |rs| && rs[j] == y;
        assert rs[i].Touches(rs[j]) && rs[j].Touches(rs[i]);
      }
    }
  }

  // ---------- clipping ----------

  /** The parts of `rs` inside `[start, end)`. */
  function Hits(rs: seq<Range>, start: u64, end: u64): seq<Range> {
    if rs == [] then []
    else
      var lo := if rs[0].base > start then rs[0].base else start;
      var hi := if rs[0].End() < end then rs[0].End() else end;
      (if lo < hi then [Range(lo, hi - lo)] else []) + Hits(rs[1..], start, end)
  }

  function InsertByBase(r: Range, rs: seq<Range>): seq<Range> {
    if rs == [] || r.base <= rs[0].base then [r] + rs else [rs[0]] + InsertByBase(r, rs[1..])
  }

  /** The stable sort by base. */
  function SortByBase(rs: seq<Range>): seq<Range> {
    if rs == [] then [] else InsertByBase(rs[0], SortByBase(rs[1..]))
  }

  ghost predicate ByBase(rs: seq<Range>) { forall i, j :: 0 <= i < j < |rs| ==> rs[i].base <= rs[j].base }

  lemma {:induction false} InsertedByBase(r: Range, rs: seq<Range>)
    requires ByBase(rs)
    ensures ByBase(InsertByBase(r, rs)) && multiset(InsertByBase(r, rs)) == multiset(rs) + multiset{r}
    decreases |rs|
  {
    hide ByBase;
    if rs == [] || r.base <= rs[0].base {
      FirstByBase(r, rs);
    } else {
      FirstByBase(rs[0], rs[1..]);
      assert rs == [rs[0]] + rs[1..];
      InsertedByBase(r, rs[1..]);
      NoneBelow(rs[0].base, r, rs[1..], InsertByBase(r, rs[1..]));
      FirstByBase(rs[0], InsertByBase(r, rs[1..]));
    }
  }

  lemma FirstByBase(x: Range, rs: seq<Range>)
    ensures ByBase([x] + rs) <==> ByBase(rs) && forall i :: 0 <= i < |rs| ==> x.base <= rs[i].base
    ensures ByBase(rs) && (rs == [] || x.base <= rs[0].base) ==> ByBase([x] + rs)
  {
    var all := [x] + rs;
    if ByBase(all) {
      forall i, j | 0 <= i < j < |rs|
        ensures rs[i].base <= rs[j].base
      {
        assert all[i + 1] == rs[i] && all[j + 1] == rs[j];
      }
      forall i | 0 <= i < |rs|
        ensures x.base <= rs[i].base
      {
        assert all[0] == x && all[i + 1] == rs[i];
      }
    }
  }

  lemma NoneBelow(low: u64, r: Range, rs: seq<Range>, out: seq<Range>)
    requires multiset(out) == multiset(rs) + multiset{r}
    requires low <= r.base && forall x :: x in rs ==> low <= x.base
    ensures forall i :: 0 <= i < |out| ==> low <= out[i].base
  {
    forall i | 0 <= i < |out|
      ensures low <= out[i].base
    {
      assert out[i] in multiset(out);
      assert out[i] in rs || out[i] == r;
    }
  }

  lemma {:induction false} SortedByBase(rs: seq<Range>)
    ensures ByBase(SortByBase(rs)) && multiset(SortByBase(rs)) == multiset(rs)
    decreases |rs|
  {
    if rs != [] {
      SortedByBase(rs[1..]);
      InsertedByBase(rs[0], SortByBase(rs[1..]));
      assert rs == [rs[0]] + rs[1..];
    }
  }

  lemma HiddenCons(x: Range, rs: seq<Range>, a: int)
    ensures Hidden([x] + rs, a) <==> x.Contains(a) || Hidden(rs, a)
  {
    HiddenIn([x] + rs, a);
    HiddenIn(rs, a);
  }

  lemma {:induction false} HitsInside(rs: seq<Range>, start: u64, end: u64)
    ensures forall x :: x in Hits(rs, start, end) ==> start <= x.base < x.End() <= end
    decreases |rs|
  {
    if rs != [] {
      HitsInside(rs[1..], start, end);
    }
  }

  lemma {:induction false} HitsHide(rs: seq<Range>, start: u64, end: u64, a: int)
    ensures Hidden(Hits(rs, start, end), a) <==> start <= a < end && Hidden(rs, a)
    decreases |rs|
  {
    hide Hidden;
    HiddenIn([], a);
    if rs != [] {
      HitsHide(rs[1..], start, end, a);
      assert rs == [rs[0]] + rs[1..];
      HiddenCons(rs[0], rs[1..], a);
      var lo := if rs[0].base > start then rs[0].base else start;
      var hi := if rs[0].End() < end then rs[0].End() else end;
      var rest := Hits(rs[1..], start, end);
      if lo < hi {
        var x := Range(lo, hi - lo);
        assert x.End() == hi;
        HiddenCons(x, rest, a);
      } else {
        assert [] + rest == rest;
      }
    }
  }

  /** Non-empty fragments in ascending order, with a gap between any two. */
  ghost predicate Ascending(rs: seq<Range>) {
    && (forall i :: 0 <= i < |rs| ==> rs[i].size > 0 && rs[i].base + rs[i].size == rs[i].End())
    && (forall i, j :: 0 <= i < j < |rs| ==> rs[i].End() < rs[j].base)
  }

  lemma SortedHits(rs: seq<Range>, start: u64, end: u64)
    ensures var hits := SortByBase(Hits(rs, start, end));
      && ByBase(hits) && (forall x :: x in hits ==> start <= x.base < x.End() <= end)
      && (forall a :: Hidden(hits, a) <==> start <= a < end && Hidden(rs, a))
      && (hits == [] <==> forall a :: start <= a < end ==> !Hidden(rs, a))
  {
    hide Hidden;
    var raw := Hits(rs, start, end);
    var hits := SortByBase(raw);
    SortedByBase(raw);
    forall x
      ensures x in hits <==> x in raw
    {
      assert x in multiset(hits) <==> x in multiset(raw);
    }
    forall a
      ensures Hidden(hits, a) <==> start <= a < end && Hidden(rs, a)
    {
      HitsHide(rs, start, end, a);
      HiddenIn(hits, a);
      HiddenIn(raw, a);
    }
    HitsInside(rs, start, end);
    if hits != [] {
      HiddenIn(hits, hits[0].base);
      assert hits[0] in hits;
    } else {
      forall a
        ensures !Hidden(hits, a)
      {
        HiddenIn(hits, a);
      }
    }
  }

  /** The sweep has dealt with everything below `cursor`. */
  ghost predicate Swept(hits: seq<Range>, i: nat, start: int, cursor: int, visible: seq<Range>)
    requires i <= |hits|
  {
    && Ascending(visible)
    && (forall j :: 0 <= j < i ==> hits[j].End() <= cursor)
    && (forall a :: Hidden(visible, a) ==> start <= a < cursor && !Hidden(hits, a))
    && (forall a :: start <= a < cursor && !Hidden(visible, a) ==> Hidden(hits[..i], a))
    && (forall j :: 0 <= j < |visible| ==> visible[j].End() < cursor)
  }

  lemma HiddenSnoc(rs: seq<Range>, x: Range, a: int)
    ensures Hidden(rs + [x], a) <==> x.Contains(a) || Hidden(rs, a)
  {
    HiddenIn(rs + [x], a);
    HiddenIn(rs, a);
  }

  lemma SweepStarts(hits: seq<Range>, start: u64)
    ensures Swept(hits, 0, start, start, [])
  {}

  /** A fragment behind the others. */
  lemma AscendingSnoc(visible: seq<Range>, cursor: u64, end: u64)
    requires Ascending(visible) && cursor < end && forall j :: 0 <= j < |visible| ==> visible[j].End() < cursor
    ensures Ascending(visible + [Range(cursor, end - cursor)])
  {}

  function Shown(visible: seq<Range>, cursor: u64, to: u64): seq<Range> {
    if cursor < to then visible + [Range(cursor, to - cursor)] else visible
  }

  lemma ShownHides(visible: seq<Range>, cursor: u64, to: u64, a: int)
    ensures Hidden(Shown(visible, cursor, to), a) <==> Hidden(visible, a) || cursor <= a < to
  {
    if cursor < to {
      HiddenSnoc(visible, Range(cursor, to - cursor), a);
    }
  }

  lemma SweepStep(hits: seq<Range>, i: nat, start: u64, cursor: u64, visible: seq<Range>)
    requires i < |hits| && ByBase(hits) && start <= cursor && hits[i].base < hits[i].End()
    requires Swept(hits, i, start, cursor, visible)
    ensures var c := hits[i];
      Swept(hits, i + 1, start, if c.End() > cursor then c.End() else cursor, Shown(visible, cursor, c.base))
  {
    hide Hidden, Ascending;
    var c := hits[i];
    var now := Shown(visible, cursor, c.base);
    var next := if c.End() > cursor then c.End() else cursor;
    if cursor < c.base {
      AscendingSnoc(visible, cursor, c.base);
    }
    assert hits[..i + 1] == hits[..i] + [c];
    forall a
      ensures Hidden(now, a) ==> start <= a < next && !Hidden(hits, a)
      ensures start <= a < next && !Hidden(now, a) ==> Hidden(hits[..i + 1], a)
    {
      ShownHides(visible, cursor, c.base, a);
      HiddenSnoc(hits[..i], c, a);
      if cursor <= a < c.base {
        NotHit(hits, i, cursor, a);
      }
    }
  }

  /** Nothing is hit between the hits so far and the next one. */
  lemma NotHit(hits: seq<Range>, i: nat, cursor: int, a: int)
    requires i <= |hits| && ByBase(hits) && cursor <= a && (i < |hits| ==> a < hits[i].base)
    requires forall j :: 0 <= j < i ==> hits[j].End() <= cursor
    ensures !Hidden(hits, a)
  {}

  lemma SweepEnds(hits: seq<Range>, start: u64, end: u64, cursor: u64, visible: seq<Range>)
    requires ByBase(hits) && start <= cursor <= end && Swept(hits, |hits|, start, cursor, visible)
    requires forall a :: Hidden(hits, a) ==> start <= a < end
    ensures Ascending(Shown(visible, cursor, end))
    ensures forall a :: Hidden(Shown(visible, cursor, end), a) <==> start <= a < end && !Hidden(hits, a)
  {
    hide Hidden, Ascending;
    if cursor < end {
      AscendingSnoc(visible, cursor, end);
    }
    assert hits[..|hits|] == hits;
    forall a
      ensures Hidden(Shown(visible, cursor, end), a) <==> start <= a < end && !Hidden(hits, a)
    {
      ShownHides(visible, cursor, end, a);
      if cursor <= a {
        NotHit(hits, |hits|, cursor, a);
      }
      if Hidden(hits, a) && a < cursor {
        assert !Hidden(visible, a);
      }
    }
  }

  class Registry {
    var ranges: seq<Range>

    constructor ()
      ensures ranges == []
    {
      ranges := [];
    }

    method AddRange(base: u64, size: u64)
      modifies this
      ensures ranges == Apply(old(ranges), Add(Range(base, size)))
    {
      if size == 0 {
        return;
      }
      var r := Range(base, size);
      ranges := RetainApart(ranges, r);
      ranges := ranges + [r];
    }

    method RemoveRange(base: u64, size: u64)
      modifies this
      ensures ranges == Apply(old(ranges), Remove(Range(base, size)))
    {
      ranges := RetainOther(ranges, Range(base, size));
    }

    /** The visible fragments of `[base, base + size)`; none at all means that nothing is hidden there. */
    method ClipRange(base: u64, size: u64) returns (r: Option<seq<Range>>)
      ensures r.None? <==> forall a :: Range(base, size).Contains(a) ==> !Hidden(ranges, a)
      ensures r.Some? ==> Ascending(r.value)
      ensures r.Some? ==> forall a :: Hidden(r.value, a) <==> Range(base, size).Contains(a) && !Hidden(ranges, a)
    {
      hide Hidden, Hits, SortByBase, Ascending;
      if size == 0 {
        return None;
      }
      var start, end := base, SaturatingAdd(base, size);
      var cloaked := SortByBase(Hits(ranges, start, end));
      SortedHits(ranges, start, end);
      if cloaked == [] {
        return None;
      }
      var visible: seq<Range> := [];
      var cursor := start;
      SweepStarts(cloaked, start);
      for i := 0 to |cloaked|
        invariant start <= cursor <= end
        invariant Swept(cloaked, i, start, cursor, visible)
      {
        var c := cloaked[i];
        assert c in cloaked;
        SweepStep(cloaked, i, start, cursor, visible);
        if cursor < c.base {
          visible := visible + [Range(cursor, c.base - cursor)];
        }
        cursor := if c.End() > cursor then c.End() else cursor;
      }
      SweepEnds(cloaked, start, end, cursor, visible);
      if cursor < end {
        visible := visible + [Range(cursor, end - cursor)];
      }
      return Some(visible);
    }
  }
}
