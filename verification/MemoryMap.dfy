/** Enumerating the memory map: matching lines that touch no cloaked range, neighbours merged. */
module MemoryMap {
  import opened Words
  import opened Options
  import opened Cloak

  datatype RangeInfo = RangeInfo(base: u64, size: u64, protection: string, filePath: Option<string>,
                                 fileOffset: Option<u64>)
  {
    /** A line of the map ends within the address space. */
    predicate Bounded() { base + size < P64 }

    predicate Covers(a: int) { base <= a < base + size }

    /** The same memory by protection and file. */
    predicate Alike(r: RangeInfo) { protection == r.protection && filePath == r.filePath }

    predicate Mergeable(r: RangeInfo) { Alike(r) && base + size == r.base }
  }

  // ---------- matching protections ----------

  /** Character `i` of a protection, '-' where it is too short. */
  function CharAt(s: string, i: nat): char { if i < |s| then s[i] else '-' }

  /** `have` grants every permission that `want` names. */
  ghost predicate Grants(have: string, want: string) {
    forall i: nat :: i < 3 && CharAt(want, i) != '-' ==> CharAt(have, i) == CharAt(want, i)
  }

  method ProtMatches(have: string, want: string) returns (r: bool)
    ensures r <==> Grants(have, want)
  {
    if want == "" || want == "---" {
      return true;
    }
    var h := if |have| > 3 then have[..3] else have;
    var w := if |want| > 3 then want[..3] else want;
    for i := 0 to 3
      invariant forall j: nat :: j < i && CharAt(want, j) != '-' ==> CharAt(have, j) == CharAt(want, j)
    {
      var wc := CharAt(w, i);
      assert wc == CharAt(want, i) && CharAt(h, i) == CharAt(have, i);
      if wc != '-' {
        if CharAt(h, i) != wc {
          return false;
        }
      }
    }
    return true;
  }

  /** The permissions that a protection names. */
  function Named(s: string): set<nat> { set i: nat | i < 3 && CharAt(s, i) != '-' }

  /** Every character of the protection is its permission's letter or '-'. */
  predicate Usual(s: string) { forall i: nat :: i < 3 ==> CharAt(s, i) == '-' || CharAt(s, i) == "rwx"[i] }

  /** Among protections as they are written in the map, granting is having every permission that is named. */
  lemma GrantsIsSubset(have: string, want: string)
    requires Usual(have) && Usual(want)
    ensures Grants(have, want) <==> Named(want) <= Named(have)
  {
    hide CharAt;
    if Grants(have, want) {
      forall i | i in Named(want)
        ensures i in Named(have)
      {
        assert CharAt(have, i) == CharAt(want, i);
      }
    }
    if Named(want) <= Named(have) {
      forall i: nat | i < 3 && CharAt(want, i) != '-'
        ensures CharAt(have, i) == CharAt(want, i)
      {
        assert i in Named(want);
      }
    }
  }

  // ---------- what a list of ranges shows ----------

  /** `s` shows address `a` as memory with this protection and file. */
  ghost predicate Shows(s: seq<RangeInfo>, a: int, protection: string, filePath: Option<string>) {
    exists k :: 0 <= k < |s| && Displays(s[k], a, protection, filePath)
  }

  predicate Displays(r: RangeInfo, a: int, protection: string, filePath: Option<string>) {
    r.Covers(a) && r.protection == protection && r.filePath == filePath
  }

  function TotalSize(s: seq<RangeInfo>): nat
    decreases |s|
  {
    if s == [] then 0 else TotalSize(s[..|s| - 1]) + s[|s| - 1].size
  }

  /** No range could be merged with the one before it. */
  ghost predicate Merged(s: seq<RangeInfo>) { forall k :: 0 <= k < |s| - 1 ==> !s[k].Mergeable(s[k + 1]) }

  ghost predicate AllBounded(s: seq<RangeInfo>) { forall k :: 0 <= k < |s| ==> s[k].Bounded() }

  lemma ShowsSnoc(s: seq<RangeInfo>, r: RangeInfo, a: int, protection: string, filePath: Option<string>)
    ensures Shows(s + [r], a, protection, filePath)
       <==> Shows(s, a, protection, filePath) || Displays(r, a, protection, filePath)
    ensures TotalSize(s + [r]) == TotalSize(s) + r.size
  {
    var t := s + [r];
    assert t[..|s|] == s && t[|s|] == r;
    if Shows(s, a, protection, filePath) {
      var k :| 0 <= k < |s| && Displays(s[k], a, protection, filePath);
      assert Displays(t[k], a, protection, filePath);
    }
    if Displays(r, a, protection, filePath) {
      assert Displays(t[|s|], a, protection, filePath);
    }
    hide Displays;
  }

  /** One line, from where `r` begins and as long as both, shows what `r` and `s` show. */
  ghost predicate OneLine(r: RangeInfo, s: RangeInfo, both: RangeInfo) {
    && both.base == r.base && both.size == r.size + s.size
    && forall a, p, f :: Displays(both, a, p, f) <==> Displays(r, a, p, f) || Displays(s, a, p, f)
  }

  /** Two lines are merged exactly if one line can stand for both. */
  lemma MergeableIffOneLine(r: RangeInfo, s: RangeInfo)
    requires r.size > 0 && s.size > 0 && r.base + r.size + s.size < P64
    ensures r.Mergeable(s) <==> exists both :: OneLine(r, s, both)
  {
    if r.Mergeable(s) {
      assert OneLine(r, s, r.(size := r.size + s.size));
    }
    if both :| OneLine(r, s, both) {
      assert Displays(r, r.base, r.protection, r.filePath) && Displays(s, s.base, s.protection, s.filePath);
      assert Displays(both, r.base, both.protection, both.filePath);
      assert Displays(both, r.base, r.protection, r.filePath);
      assert Displays(both, s.base, s.protection, s.filePath);
      assert Displays(both, r.base + r.size, both.protection, both.filePath);
      assert Displays(both, both.base + both.size - 1, both.protection, both.filePath);
    }
  }

  /** `out` shows what `s` shows, in as many bytes. */
  ghost predicate SameShown(out: seq<RangeInfo>, s: seq<RangeInfo>) {
    && (forall a, p, f :: Shows(out, a, p, f) <==> Shows(s, a, p, f))
    && TotalSize(out) == TotalSize(s)
  }

  lemma SnocKeepsShown(out: seq<RangeInfo>, s: seq<RangeInfo>, r: RangeInfo)
    requires SameShown(out, s)
    ensures SameShown(out + [r], s + [r])
  {
    hide Shows, Displays, TotalSize;
    ShowsSnoc(out, r, 0, "", None);
    ShowsSnoc(s, r, 0, "", None);
    forall a, p, f
      ensures Shows(out + [r], a, p, f) <==> Shows(s + [r], a, p, f)
    {
      ShowsSnoc(out, r, a, p, f);
      ShowsSnoc(s, r, a, p, f);
    }
  }

  /** Growing the last range by a mergeable one shows what listing both would. */
  lemma GrowKeepsShown(out: seq<RangeInfo>, s: seq<RangeInfo>, last: RangeInfo, r: RangeInfo)
    requires SameShown(out + [last], s) && last.Mergeable(r) && r.Bounded()
    ensures SameShown(out + [last.(size := last.size + r.size)], s + [r])
  {
    hide Shows, TotalSize;
    var grown := last.(size := last.size + r.size);
    ShowsSnoc(out, last, 0, "", None);
    ShowsSnoc(out, grown, 0, "", None);
    ShowsSnoc(s, r, 0, "", None);
    forall a, p, f
      ensures Shows(out + [grown], a, p, f) <==> Shows(s + [r], a, p, f)
    {
      ShowsSnoc(out, last, a, p, f);
      ShowsSnoc(out, grown, a, p, f);
      ShowsSnoc(s, r, a, p, f);
    }
  }

  method CoalesceRanges(ranges: seq<RangeInfo>) returns (out: seq<RangeInfo>)
    requires AllBounded(ranges)
    ensures SameShown(out, ranges) && Merged(out) && AllBounded(out)
  {
    hide SameShown;
    out := [];
    NothingShown();
    for i := 0 to |ranges|
      invariant AllBounded(out) && Merged(out)
      invariant SameShown(out, ranges[..i])
    {
      var r := ranges[i];
      assert ranges[..i + 1] == ranges[..i] + [r];
      if |out| > 0 {
        var last := out[|out| - 1];
        var lastEnd := SaturatingAdd(last.base, last.size);
        if last.protection == r.protection && last.filePath == r.filePath && lastEnd == r.base {
          assert out == out[..|out| - 1] + [last];
          GrowKeepsShown(out[..|out| - 1], ranges[..i], last, r);
          out := out[..|out| - 1] + [last.(size := last.size + r.size)];
          continue;
        }
      }
      SnocKeepsShown(out, ranges[..i], r);
      out := out + [r];
    }
    assert ranges[..|ranges|] == ranges;
  }

  lemma NothingShown()
    ensures SameShown([], [])
  {}

  // ---------- enumerating ----------

  /** A line that `enumerate_ranges` lists. */
  ghost predicate Listed(r: RangeInfo, protection: string, cloaked: seq<Range>) {
    Grants(r.protection, protection) && forall k :: 0 <= k < |cloaked| ==> !cloaked[k].Overlaps(Range(r.base, r.size))
  }

  /** A line is listed exactly if it grants what is asked for and no address of it is cloaked. */
  lemma ListedIffVisible(r: RangeInfo, protection: string, cloaked: seq<Range>)
    requires r.size > 0 && r.Bounded() && forall k :: 0 <= k < |cloaked| ==> cloaked[k].size > 0
    ensures Listed(r, protection, cloaked)
       <==> Grants(r.protection, protection)
            && forall a :: r.Covers(a) && a < 0xFFFF_FFFF_FFFF_FFFF ==> !Hidden(cloaked, a)
  {
    hide Grants;
    var probe := Range(r.base, r.size);
    forall a
      ensures probe.Contains(a) <==> r.Covers(a) && a < 0xFFFF_FFFF_FFFF_FFFF
    {
      ContainsExactly(probe, a);
    }
    forall k | 0 <= k < |cloaked|
      ensures cloaked[k].Overlaps(probe) <==> Share(cloaked[k], probe)
    {
      if cloaked[k].base < cloaked[k].End() && probe.base < probe.End() {
        OverlapsIffShare(cloaked[k], probe);
      }
    }
    if Grants(r.protection, protection) && !Listed(r, protection, cloaked) {
      var k :| 0 <= k < |cloaked| && cloaked[k].Overlaps(probe);
      var a :| cloaked[k].Contains(a) && probe.Contains(a);
      assert Hidden(cloaked, a);
    }
  }

  ghost function Filtered(maps: seq<RangeInfo>, protection: string, cloaked: seq<Range>): seq<RangeInfo>
    decreases |maps|
  {
    if maps == [] then []
    else
      var n := |maps| - 1;
      Filtered(maps[..n], protection, cloaked) + if Listed(maps[n], protection, cloaked) then [maps[n]] else []
  }

  method RangeOverlapsCloaked(cloaked: seq<Range>, base: u64, size: u64) returns (r: bool)
    ensures r <==> exists k :: 0 <= k < |cloaked| && cloaked[k].Overlaps(Range(base, size))
  {
    for k := 0 to |cloaked|
      invariant forall j :: 0 <= j < k ==> !cloaked[j].Overlaps(Range(base, size))
    {
      if cloaked[k].Overlaps(Range(base, size)) {
        return true;
      }
    }
    return false;
  }

  /** `maps` are the lines of the process's map, `cloaked` the registry's ranges. */
  method EnumerateRanges(maps: seq<RangeInfo>, protection: string, coalesce: bool, cloaked: seq<Range>)
      returns (out: seq<RangeInfo>)
    requires AllBounded(maps)
    ensures SameShown(out, Filtered(maps, protection, cloaked))
    ensures if coalesce then Merged(out) else out == Filtered(maps, protection, cloaked)
  {
    hide SameShown, Grants;
    out := [];
    for i := 0 to |maps|
      invariant out == Filtered(maps[..i], protection, cloaked) && AllBounded(out)
    {
      assert maps[..i + 1][..i] == maps[..i];
      var matches := ProtMatches(maps[i].protection, protection);
      if matches {
        var hidden := RangeOverlapsCloaked(cloaked, maps[i].base, maps[i].size);
        if !hidden {
          out := out + [maps[i]];
        }
      }
    }
    assert maps[..|maps|] == maps;
    ShownAsIs(out);
    if coalesce {
      out := CoalesceRanges(out);
    }
  }

  lemma ShownAsIs(s: seq<RangeInfo>)
    ensures SameShown(s, s)
  {}

  lemma {:induction false} FilteredShows(maps: seq<RangeInfo>, protection: string, cloaked: seq<Range>,
      a: int, p: string, f: Option<string>)
    ensures Shows(Filtered(maps, protection, cloaked), a, p, f)
       <==> exists k :: 0 <= k < |maps| && Listed(maps[k], protection, cloaked) && Displays(maps[k], a, p, f)
    decreases |maps|
  {
    hide Listed, Displays, Shows;
    if maps == [] {
      assert !Shows([], a, p, f) by { NothingAt(a, p, f); }
    } else {
      var n := |maps| - 1;
      var rest := maps[..n];
      FilteredShows(rest, protection, cloaked, a, p, f);
      assert maps == rest + [maps[n]];
      assert forall k :: 0 <= k < n ==> rest[k] == maps[k];
      if Listed(maps[n], protection, cloaked) {
        ShowsSnoc(Filtered(rest, protection, cloaked), maps[n], a, p, f);
      } else {
        assert Filtered(maps, protection, cloaked) == Filtered(rest, protection, cloaked);
      }
    }
  }

  lemma NothingAt(a: int, p: string, f: Option<string>)
    ensures !Shows([], a, p, f)
  {}

  /**
   * Exactly the matching lines that touch no cloaked range are shown, merged or not; so no cloaked
   * address ever is.
   */
  lemma EnumerationIsExact(maps: seq<RangeInfo>, out: seq<RangeInfo>, protection: string, cloaked: seq<Range>,
      a: int, p: string, f: Option<string>)
    requires AllBounded(maps) && SameShown(out, Filtered(maps, protection, cloaked))
    ensures Shows(out, a, p, f)
       <==> exists k :: 0 <= k < |maps| && Listed(maps[k], protection, cloaked) && Displays(maps[k], a, p, f)
    ensures Shows(out, a, p, f) ==> !Hidden(cloaked, a) && Grants(p, protection)
  {
    hide Shows, Grants;
    FilteredShows(maps, protection, cloaked, a, p, f);
    if Shows(out, a, p, f) {
      var k :| 0 <= k < |maps| && Listed(maps[k], protection, cloaked) && Displays(maps[k], a, p, f);
      assert maps[k].Bounded();
      forall j | 0 <= j < |cloaked|
        ensures !cloaked[j].Contains(a)
      {
        assert !cloaked[j].Overlaps(Range(maps[k].base, maps[k].size));
      }
    }
  }
}
