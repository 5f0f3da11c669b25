/** The memory access monitor: page traps that fire once and let the access through. */
module PageMonitor {
  import opened Words
  import opened Options

  /** PROT_READ, PROT_WRITE and PROT_EXEC as bits 0 to 2. */
  type Prot = p: int | 0 <= p < 8
  /** The protections of the mapped pages. */
  type Prots = map<nat, Prot>

  const PROT_NONE: Prot := 0
  const PROT_RW: Prot := 3
  const P56: int := 0x100_0000_0000_0000

  datatype Range = Range(base: u64, size: u64)
  datatype PageEntry = PageEntry(prevProt: Prot, rangeIndex: nat, pageIndex: nat, completed: bool)
  type Pages = map<nat, PageEntry>
  datatype MonitorState = MonitorState(pages: Pages, pagesTotal: nat, pagesCompleted: nat)

  datatype Access = Read | Write | Execute
  datatype Event = Event(operation: Access, from: u64, address: u64, rangeIndex: u32, pageIndex: u32,
                         pagesCompleted: u32, pagesTotal: u32)
  datatype EnableResult = Enabled(total: nat) | NoPages | MprotectFailed(page: nat)

  // ---------- pages and ranges ----------

  function Strip(a: u64): u64 { a % P56 }

  /** The page that holds `a`; `a & !(ps - 1)` for a page size that is a power of two. */
  function PageOf(ps: int, a: nat): (p: nat)
    requires ps > 0
  {
    assert a == ps * (a / ps) + a % ps;
    a - a % ps
  }

  predicate Aligned(ps: int, a: int)
    requires ps > 0
  {
    a % ps == 0
  }

  /** A range of no bytes stands for one. */
  function Extent(r: Range): int { if r.size < 1 then 1 else r.size }

  /** Page `p` shares a byte with `r`. */
  predicate Meets(ps: int, r: Range, p: nat) { p < Strip(r.base) + Extent(r) && Strip(r.base) < p + ps }

  predicate MeetsAny(ps: int, ranges: seq<Range>, p: nat) { exists i :: 0 <= i < |ranges| && Meets(ps, ranges[i], p) }

  lemma PageBounds(ps: int, a: nat)
    requires ps > 0
    ensures Aligned(ps, PageOf(ps, a)) && PageOf(ps, a) <= a < PageOf(ps, a) + ps
  {
    assert PageOf(ps, a) == ps * (a / ps);
    MultipleAligned(ps, a / ps);
  }

  lemma MultipleAligned(ps: int, q: int)
    requires ps > 0
    ensures Aligned(ps, ps * q)
  {
    var x := ps * q;
    assert x == ps * (x / ps) + x % ps;
    Apart(ps, x / ps, q);
    Apart(ps, q, x / ps);
  }

  lemma {:induction false} Apart(ps: int, a: int, b: int)
    requires ps > 0
    ensures a < b ==> ps * a + ps <= ps * b
    decreases b - a
  {
    if a < b {
      Apart(ps, a + 1, b);
      assert ps * (a + 1) == ps * a + ps;
    }
  }

  /** Aligned addresses lie a page apart. */
  lemma AlignedGap(ps: int, p: int, q: int)
    requires ps > 0 && Aligned(ps, p) && Aligned(ps, q)
    ensures p < q ==> p + ps <= q
  {
    Apart(ps, p / ps, q / ps);
    Apart(ps, q / ps, p / ps);
  }

  lemma AlignedNext(ps: int, p: nat)
    requires ps > 0 && Aligned(ps, p)
    ensures Aligned(ps, p + ps)
  {
    assert p == ps * (p / ps);
    assert p + ps == ps * (p / ps + 1);
    MultipleAligned(ps, p / ps + 1);
  }

  /** The pages from the first one of a range up to its rounded end are those that meet it. */
  lemma WalkCovers(ps: int, r: Range, p: nat)
    requires ps > 0 && Aligned(ps, p)
    ensures PageOf(ps, Strip(r.base)) <= p < PageOf(ps, Strip(r.base) + Extent(r) + ps - 1) <==> Meets(ps, r, p)
  {
    var b, e := Strip(r.base), Strip(r.base) + Extent(r) + ps - 1;
    PageBounds(ps, b);
    PageBounds(ps, e);
    AlignedGap(ps, p, PageOf(ps, b));
    AlignedGap(ps, PageOf(ps, b), p);
    AlignedGap(ps, p, PageOf(ps, e));
    AlignedGap(ps, PageOf(ps, e), p);
    hide PageOf, Aligned;
  }

  // ---------- the table of pages ----------

  /** A page without any permission is taken for one that the maps do not show yet. */
  function Query(prot: Prots, page: nat): Prot {
    if page in prot && prot[page] != PROT_NONE then prot[page] else PROT_RW
  }

  /** The page indices are a numbering of the pages from zero. */
  ghost predicate Numbered(pages: Pages) {
    && (forall p: nat :: p in pages ==> pages[p].pageIndex < |pages|)
    && (forall p: nat, q: nat :: p in pages && q in pages && pages[p].pageIndex == pages[q].pageIndex ==> p == q)
    && (forall k :: 0 <= k < |pages| ==> HasIndex(pages, k))
  }

  ghost predicate HasIndex(pages: Pages, k: int) { exists p: nat :: p in pages && pages[p].pageIndex == k }

  /** `e` is the fresh entry of page `p`: its range is the first one that the page meets. */
  ghost predicate FreshEntry(ps: int, ranges: seq<Range>, prot: Prots, p: nat, e: PageEntry) {
    && e.prevProt == Query(prot, p) && !e.completed
    && e.rangeIndex < |ranges| && Meets(ps, ranges[e.rangeIndex], p)
    && forall i :: 0 <= i < e.rangeIndex ==> !Meets(ps, ranges[i], p)
  }

  /** `pages` holds exactly the pages that meet a range. */
  ghost predicate TableOf(ps: int, ranges: seq<Range>, prot: Prots, pages: Pages)
    requires ps > 0
  {
    && (forall p: nat :: p in pages <==> Aligned(ps, p) && MeetsAny(ps, ranges, p))
    && (forall p: nat :: p in pages ==> FreshEntry(ps, ranges, prot, p, pages[p]))
    && Numbered(pages)
  }

  /** The same for the first `ri` ranges. */
  ghost predicate TableTo(ps: int, ranges: seq<Range>, prot: Prots, pages: Pages, ri: nat)
    requires ps > 0 && ri <= |ranges|
  {
    && (forall p: nat :: p in pages <==> Aligned(ps, p) && MeetsAny(ps, ranges[..ri], p))
    && (forall p: nat :: p in pages ==> FreshEntry(ps, ranges, prot, p, pages[p]))
    && Numbered(pages)
  }

  /** The same while range `ri` is walked, its pages below `page` done. */
  ghost predicate TableUpTo(ps: int, ranges: seq<Range>, prot: Prots, pages: Pages, ri: nat, page: nat)
    requires ps > 0 && ri < |ranges|
  {
    && (forall p: nat ::
          p in pages <==> Aligned(ps, p) && (MeetsAny(ps, ranges[..ri], p) || (Meets(ps, ranges[ri], p) && p < page)))
    && (forall p: nat :: p in pages ==> FreshEntry(ps, ranges, prot, p, pages[p]))
    && Numbered(pages)
  }

  lemma NumberedInsert(pages: Pages, p: nat, e: PageEntry)
    requires Numbered(pages) && p !in pages && e.pageIndex == |pages|
    ensures Numbered(pages[p := e])
  {
    var n := pages[p := e];
    assert n.Keys == pages.Keys + {p} && |n| == |n.Keys| && |pages| == |pages.Keys|;
    forall k | 0 <= k < |n|
      ensures HasIndex(n, k)
    {
      if k < |pages| {
        assert HasIndex(pages, k);
        var q :| q in pages && pages[q].pageIndex == k;
        assert q in n && n[q].pageIndex == k;
      } else {
        assert p in n && n[p].pageIndex == k;
      }
    }
  }

  lemma MeetsPrefix(ps: int, ranges: seq<Range>, ri: nat, p: nat)
    requires ri < |ranges|
    ensures MeetsAny(ps, ranges[..ri + 1], p) <==> MeetsAny(ps, ranges[..ri], p) || Meets(ps, ranges[ri], p)
    ensures !MeetsAny(ps, ranges[..ri], p) <==> forall i :: 0 <= i < ri ==> !Meets(ps, ranges[i], p)
  {
    hide Meets;
    var now, was := ranges[..ri + 1], ranges[..ri];
    assert forall i :: 0 <= i < ri ==> was[i] == ranges[i] && now[i] == ranges[i];
    if MeetsAny(ps, was, p) {
      var i :| 0 <= i < |was| && Meets(ps, was[i], p);
      assert Meets(ps, now[i], p) && Meets(ps, ranges[i], p);
    }
    if Meets(ps, ranges[ri], p) {
      assert Meets(ps, now[ri], p);
    }
    if exists i :: 0 <= i < ri && Meets(ps, ranges[i], p) {
      var i :| 0 <= i < ri && Meets(ps, ranges[i], p);
      assert Meets(ps, was[i], p);
    }
  }

  /** One step of the walk: a page already in the table keeps its entry. */
  function Insert(prot: Prots, pages: Pages, ri: nat, page: nat): Pages {
    if page in pages then pages else pages[page := PageEntry(Query(prot, page), ri, |pages|, false)]
  }

  lemma InsertKeeps(ps: int, ranges: seq<Range>, prot: Prots, pages: Pages, ri: nat, page: nat)
    requires ps > 0 && ri < |ranges| && Aligned(ps, page) && Meets(ps, ranges[ri], page)
    requires TableUpTo(ps, ranges, prot, pages, ri, page)
    ensures TableUpTo(ps, ranges, prot, Insert(prot, pages, ri, page), ri, page + ps)
  {
    hide Meets, Query, Numbered;
    var n := Insert(prot, pages, ri, page);
    if page !in pages {
      NumberedInsert(pages, page, n[page]);
      MeetsPrefix(ps, ranges, ri, page);
    }
    forall p: nat
      ensures p in n
         <==> Aligned(ps, p) && (MeetsAny(ps, ranges[..ri], p) || (Meets(ps, ranges[ri], p) && p < page + ps))
    {
      if Aligned(ps, p) {
        AlignedGap(ps, page, p);
      }
    }
  }

  lemma WalkEnds(ps: int, ranges: seq<Range>, prot: Prots, pages: Pages, ri: nat)
    requires ps > 0 && ri < |ranges|
    requires TableUpTo(ps, ranges, prot, pages, ri, PageOf(ps, Strip(ranges[ri].base) + Extent(ranges[ri]) + ps - 1))
    ensures forall p: nat :: p in pages <==> Aligned(ps, p) && MeetsAny(ps, ranges[..ri + 1], p)
  {
    hide Meets, Numbered, FreshEntry, MeetsAny, PageOf;
    forall p: nat
      ensures p in pages <==> Aligned(ps, p) && MeetsAny(ps, ranges[..ri + 1], p)
    {
      if Aligned(ps, p) {
        WalkCovers(ps, ranges[ri], p);
      }
      MeetsPrefix(ps, ranges, ri, p);
    }
  }

  lemma WalkStarts(ps: int, ranges: seq<Range>, prot: Prots, pages: Pages, ri: nat)
    requires ps > 0 && ri < |ranges|
    requires TableTo(ps, ranges, prot, pages, ri)
    ensures TableUpTo(ps, ranges, prot, pages, ri, PageOf(ps, Strip(ranges[ri].base)))
  {
    hide Meets, Numbered, FreshEntry, MeetsAny, PageOf;
    forall p: nat | Aligned(ps, p) && Meets(ps, ranges[ri], p)
      ensures !(p < PageOf(ps, Strip(ranges[ri].base)))
    {
      WalkCovers(ps, ranges[ri], p);
    }
  }

  // ---------- what the monitor does ----------

  datatype View = View(prot: Prots, state: Option<MonitorState>, enabled: bool, events: seq<Event>)

  /** mprotect of one page; it fails on a page that is not mapped. */
  function Protect(prot: Prots, page: nat, p: Prot): Prots {
    if page in prot then prot[page := p] else prot
  }

  /** Every page of `shut` without permissions. */
  function Shut(prot: Prots, shut: set<nat>): Prots {
    map p: nat | p in prot :: if p in shut then PROT_NONE else prot[p]
  }

  /** Every page of `pages` with the protection it was saved with. */
  function Restored(prot: Prots, pages: Pages): Prots {
    map p: nat | p in prot :: if p in pages then pages[p].prevProt else prot[p]
  }

  function Disabled(v: View): View {
    View(if v.state.Some? then Restored(v.prot, v.state.value.pages) else v.prot, None, false, v.events)
  }

  /** The signal handler; the second result says whether the fault was the monitor's. */
  function Faulted(ps: int, v: View, addr: u64, pc: u64, op: Access): (View, bool)
    requires ps > 0
  {
    var fault := Strip(addr);
    var page := PageOf(ps, fault);
    if !v.enabled || v.state.None? || page !in v.state.value.pages then (v, false)
    else
      var st := v.state.value;
      var e := st.pages[page];
      var prot := Protect(v.prot, page, e.prevProt);
      if e.completed then (v.(prot := prot), true)
      else
        var n := st.pagesCompleted + 1;
        var event := Event(op, pc, fault, Wrap32(e.rangeIndex), Wrap32(e.pageIndex), Wrap32(n), Wrap32(st.pagesTotal));
        (View(prot, Some(MonitorState(st.pages[page := e.(completed := true)], st.pagesTotal, n)), true,
              v.events + [event]), true)
  }

  /** No sum of the walk leaves 64 bits. */
  predicate InAddressSpace(ps: int, ranges: seq<Range>) {
    forall i :: 0 <= i < |ranges| ==> Strip(ranges[i].base) + Extent(ranges[i]) + ps - 1 < P64
  }

  /** How `Enable` leaves the monitor that `v` had been closed to. */
  ghost predicate Opened(v: View, ranges: seq<Range>, pages: Pages, r: EnableResult, shut: set<nat>, w: View) {
    && shut <= pages.Keys
    && match r
       case NoPages => ranges == [] && w == v
       case MprotectFailed(page) => page in pages && page !in v.prot && w == v.(prot := Shut(v.prot, shut))
       case Enabled(total) =>
         && ranges != [] && pages.Keys <= v.prot.Keys && shut == pages.Keys && total == |pages|
         && w == View(Shut(v.prot, shut), Some(MonitorState(pages, |pages|, 0)), true, v.events)
  }

  /** `order` goes through all of `pages`. */
  ghost predicate Covers(order: seq<nat>, pages: Pages) { forall p: nat :: p in order <==> p in pages }

  /** Having shut `shut` in `order`, the loop meets a page that is not mapped. */
  lemma StoppedAt(prot: Prots, order: seq<nat>, shut: set<nat>, todo: set<nat>, page: nat, pages: Pages)
      returns (rest: seq<nat>)
    requires (forall p: nat :: p in order <==> p in shut) && shut <= prot.Keys && page in todo && page !in prot
    requires todo <= pages.Keys && shut == pages.Keys - todo
    ensures Covers(order + rest, pages) && ShutBy(prot, order + rest) == shut
  {
    rest := [page] + Listing(todo);
    ShutBySnoc(prot, order, rest);
    StopsHere(prot, rest);
    assert (set p: nat | p in order) == shut;
  }

  lemma WentThrough(prot: Prots, order: seq<nat>, shut: set<nat>)
    requires (forall p: nat :: p in order <==> p in shut) && shut <= prot.Keys
    ensures ShutBy(prot, order) == shut
  {
    ShutBySnoc(prot, order, []);
    StopsHere(prot, []);
    assert order + [] == order && (set p: nat | p in order) == shut;
  }

  lemma StopsHere(prot: Prots, rest: seq<nat>)
    requires rest == [] || rest[0] !in prot
    ensures ShutBy(prot, rest) == {}
  {}

  ghost function Listing(s: set<nat>): (order: seq<nat>)
    ensures forall p: nat :: p in order <==> p in s
    decreases |s|
  {
    if s == {} then []
    else
      var p: nat :| p in s;
      [p] + Listing(s - {p})
  }

  /** The pages shut when the table is gone through in `order`: those before the first that is not mapped. */
  function ShutBy(prot: Prots, order: seq<nat>): set<nat> {
    if order == [] || order[0] !in prot then {} else {order[0]} + ShutBy(prot, order[1..])
  }

  /** One more page, mapped or not, at the end of an order that has met no unmapped page. */
  lemma {:induction false} ShutBySnoc(prot: Prots, order: seq<nat>, rest: seq<nat>)
    requires forall p: nat :: p in order ==> p in prot
    ensures ShutBy(prot, order + rest) == (set p: nat | p in order) + ShutBy(prot, rest)
    decreases |order|
  {
    if order == [] {
      assert order + rest == rest;
    } else {
      ShutBySnoc(prot, order[1..], rest);
      assert (order + rest)[1..] == order[1..] + rest;
      assert (set p: nat | p in order) == {order[0]} + (set p: nat | p in order[1..]);
    }
  }

  lemma ShutNone(prot: Prots)
    ensures Shut(prot, {}) == prot
  {}

  lemma ShutOne(prot: Prots, shut: set<nat>, page: nat)
    requires page in prot
    ensures Protect(Shut(prot, shut), page, PROT_NONE) == Shut(prot, shut + {page})
    ensures Shut(prot, shut + {page}).Keys == prot.Keys
  {}

  lemma NoOrder(prot: Prots)
    ensures ShutBy(prot, []) == {} && Covers([], map[])
  {}

  lemma Closed(v: View)
    ensures Disabled(v).state == None && !Disabled(v).enabled
  {}

  /** Closing a closed monitor does nothing. */
  lemma DisabledTwice(v: View, prot: Prots)
    requires v.state == None && !v.enabled
    ensures Disabled(v.(prot := prot)) == v.(prot := prot)
  {}

  class Monitor {
    const ps: int
    var prot: Prots
    var state: Option<MonitorState>
    var enabled: bool
    var events: seq<Event>

    constructor (ps: int, prot: Prots)
      ensures this.ps == ps && Now() == View(prot, None, false, [])
    {
      this.ps := ps;
      this.prot := prot;
      state := None;
      enabled := false;
      events := [];
    }

    function Now(): View
      reads this
    {
      View(prot, state, enabled, events)
    }

    method Disable()
      modifies this
      ensures Now() == Disabled(old(Now()))
    {
      enabled := false;
      if state.Some? {
        var pages := state.value.pages;
        state := None;
        var todo: set<nat> := pages.Keys;
        while todo != {}
          invariant todo <= pages.Keys
          invariant state == None && !enabled && events == old(events)
          invariant prot == map p: nat | p in old(prot) ::
                              if p in pages && p !in todo then pages[p].prevProt else old(prot)[p]
          decreases |todo|
        {
          var page: nat :| page in todo;
          prot := Protect(prot, page, pages[page].prevProt);
          todo := todo - {page};
        }
      }
    }

    method Collect(ranges: seq<Range>) returns (pages: Pages)
      requires ps > 0 && InAddressSpace(ps, ranges)
      ensures TableOf(ps, ranges, prot, pages)
    {
      hide Meets, PageOf, Aligned, Query, TableUpTo, TableTo, TableOf;
      pages := map[];
      EmptyTable(ps, ranges, prot);
      for ri := 0 to |ranges|
        invariant TableTo(ps, ranges, prot, pages, ri)
      {
        var base := Strip(ranges[ri].base);
        var size := Extent(ranges[ri]);
        var end := PageOf(ps, base + size + ps - 1);
        var page := PageOf(ps, base);
        WalkStarts(ps, ranges, prot, pages, ri);
        PageBounds(ps, base);
        PageBounds(ps, base + size + ps - 1);
        while page < end
          invariant Aligned(ps, page) && PageOf(ps, base) <= page
          invariant TableUpTo(ps, ranges, prot, pages, ri, page)
          decreases end - page
        {
          WalkCovers(ps, ranges[ri], page);
          InsertKeeps(ps, ranges, prot, pages, ri, page);
          pages := Insert(prot, pages, ri, page);
          AlignedNext(ps, page);
          page := page + ps;
        }
        WalkDone(ps, ranges, prot, pages, ri, page);
      }
      FullTable(ps, ranges, prot, pages);
    }

    /** Takes the permissions of all `pages` away, up to the first one that is not mapped. */
    method ShutAll(pages: Pages) returns (failed: Option<nat>, ghost shut: set<nat>, ghost order: seq<nat>)
      modifies this`prot
      ensures shut <= pages.Keys && prot == Shut(old(prot), shut)
      ensures Covers(order, pages) && shut == ShutBy(old(prot), order)
      ensures failed.None? <==> pages.Keys <= old(prot).Keys
      ensures failed.None? ==> shut == pages.Keys
      ensures failed.Some? ==> failed.value in pages && failed.value !in old(prot)
    {
      hide Shut, Protect, ShutBy;
      var todo: set<nat> := pages.Keys;
      shut := {};
      order := [];
      ShutNone(prot);
      while todo != {}
        invariant todo <= pages.Keys && shut == pages.Keys - todo
        invariant prot == Shut(old(prot), shut) && prot.Keys == old(prot).Keys
        invariant shut <= old(prot).Keys && forall p: nat :: p in order <==> p in shut
        decreases |todo|
      {
        var page: nat :| page in todo;
        if page !in prot {
          ghost var rest := StoppedAt(old(prot), order, shut, todo, page, pages);
          return Some(page), shut, order + rest;
        }
        ShutOne(old(prot), shut, page);
        prot := Protect(prot, page, PROT_NONE);
        todo := todo - {page};
        shut := shut + {page};
        order := order + [page];
      }
      failed := None;
      WentThrough(old(prot), order, shut);
    }

    /**
     * Opens the monitor over `ranges`, after closing the one before. `shut` are the pages that lose
     * their permissions; when a page cannot be protected, those already shut stay so.
     */
    method Enable(ranges: seq<Range>)
        returns (r: EnableResult, ghost pages: Pages, ghost shut: set<nat>, ghost order: seq<nat>)
      requires ps > 0 && InAddressSpace(ps, ranges)
      modifies this
      ensures TableOf(ps, ranges, Disabled(old(Now())).prot, pages)
      ensures Opened(Disabled(old(Now())), ranges, pages, r, shut, Now())
      ensures Covers(order, pages) && shut == ShutBy(Disabled(old(Now())).prot, order)
    {
      hide TableOf, Disabled, ShutBy, Shut, Covers;
      Disable();
      ghost var v := Now();
      Closed(old(Now()));
      var table := Collect(ranges);
      pages := table;
      shut := {};
      ShutNone(v.prot);
      NoRangesNoPages(ps, ranges, v.prot, pages);
      NoOrder(v.prot);
      order := [];
      if table == map[] {
        r := NoPages;
        return;
      }
      var failed;
      failed, shut, order := ShutAll(table);
      if failed.Some? {
        DisabledTwice(v, prot);
        Disable();
        r := MprotectFailed(failed.value);
        return;
      }
      state := Some(MonitorState(table, |table|, 0));
      enabled := true;
      r := Enabled(|table|);
    }

    method OnFault(addr: u64, pc: u64, op: Access) returns (handled: bool)
      requires ps > 0
      modifies this
      ensures (Now(), handled) == Faulted(ps, old(Now()), addr, pc, op)
    {
      if !enabled {
        return false;
      }
      var fault := Strip(addr);
      var page := PageOf(ps, fault);
      handled := false;
      if state.Some? {
        var st := state.value;
        if page in st.pages {
          var ent := st.pages[page];
          if !ent.completed {
            var n := st.pagesCompleted + 1;
            state := Some(MonitorState(st.pages[page := ent.(completed := true)], st.pagesTotal, n));
            prot := Protect(prot, page, ent.prevProt);
            events := events + [Event(op, pc, fault, Wrap32(ent.rangeIndex), Wrap32(ent.pageIndex), Wrap32(n),
                                      Wrap32(st.pagesTotal))];
          } else {
            prot := Protect(prot, page, ent.prevProt);
          }
          handled := true;
        }
      }
    }
  }

  lemma EmptyTable(ps: int, ranges: seq<Range>, prot: Prots)
    requires ps > 0
    ensures TableTo(ps, ranges, prot, map[], 0)
  {}

  lemma FullTable(ps: int, ranges: seq<Range>, prot: Prots, pages: Pages)
    requires ps > 0 && TableTo(ps, ranges, prot, pages, |ranges|)
    ensures TableOf(ps, ranges, prot, pages)
  {
    hide MeetsAny, FreshEntry, Numbered;
    assert ranges[..|ranges|] == ranges;
  }

  lemma WalkDone(ps: int, ranges: seq<Range>, prot: Prots, pages: Pages, ri: nat, page: nat)
    requires ps > 0 && ri < |ranges| && Aligned(ps, page) && TableUpTo(ps, ranges, prot, pages, ri, page)
    requires PageOf(ps, Strip(ranges[ri].base) + Extent(ranges[ri]) + ps - 1) <= page
    ensures TableTo(ps, ranges, prot, pages, ri + 1)
  {
    hide Meets, Numbered, FreshEntry, MeetsAny, PageOf;
    forall p: nat | Aligned(ps, p) && Meets(ps, ranges[ri], p)
      ensures p < PageOf(ps, Strip(ranges[ri].base) + Extent(ranges[ri]) + ps - 1) <= page
    {
      WalkCovers(ps, ranges[ri], p);
    }
    WalkEnds(ps, ranges, prot, pages, ri);
  }

  lemma NoRangesNoPages(ps: int, ranges: seq<Range>, prot: Prots, pages: Pages)
    requires ps > 0 && TableOf(ps, ranges, prot, pages)
    ensures pages == map[] <==> ranges == []
  {
    if ranges != [] {
      var b := Strip(ranges[0].base);
      PageBounds(ps, b);
      assert Meets(ps, ranges[0], PageOf(ps, b));
      assert PageOf(ps, b) in pages;
    } else {
      assert forall p: nat :: p !in pages;
      assert pages == map[];
    }
  }

  // ---------- whole runs ----------

  datatype Fault = Fault(addr: u64, pc: u64, op: Access)

  function RunFaults(ps: int, v: View, faults: seq<Fault>): View
    requires ps > 0
    decreases |faults|
  {
    if faults == [] then v
    else RunFaults(ps, Faulted(ps, v, faults[0].addr, faults[0].pc, faults[0].op).0, faults[1..])
  }

  function Completed(pages: Pages): set<nat> { set p | p in pages && pages[p].completed }

  /** Monitored pages are open exactly when they are completed; all others are as they were in `prot`. */
  function Trapped(prot: Prots, pages: Pages): Prots {
    map p | p in prot :: if p in pages then (if pages[p].completed then pages[p].prevProt else PROT_NONE) else prot[p]
  }

  /** `e` is the `k`-th event, of a page that is completed. */
  ghost predicate Reports(ps: int, pages: Pages, e: Event, k: nat)
    requires ps > 0
  {
    var page := PageOf(ps, e.address);
    && page in pages && pages[page].completed
    && e.rangeIndex == Wrap32(pages[page].rangeIndex) && e.pageIndex == Wrap32(pages[page].pageIndex)
    && e.pagesCompleted == Wrap32(k + 1) && e.pagesTotal == Wrap32(|pages|)
  }

  /** `now` is the table `table` with some pages completed. */
  ghost predicate SameTable(table: Pages, now: Pages) {
    now.Keys == table.Keys && forall p: nat :: p in table ==> now[p] == table[p].(completed := now[p].completed)
  }

  /**
   * What holds from `enable` on: `orig` are the protections before it, `table` the pages found, and
   * `seen` the events that had been sent.
   */
  ghost predicate Trapping(ps: int, orig: Prots, table: Pages, seen: seq<Event>, v: View)
    requires ps > 0
  {
    && v.enabled && v.state.Some?
    && var st := v.state.value;
    && SameTable(table, st.pages) && table.Keys <= orig.Keys
    && v.prot == Trapped(orig, st.pages)
    && st.pagesTotal == |table| && st.pagesCompleted == |Completed(st.pages)|
    && |v.events| == |seen| + st.pagesCompleted && seen <= v.events
    && (forall k :: |seen| <= k < |v.events| ==> Reports(ps, st.pages, v.events[k], k - |seen|))
    && (forall j, k :: |seen| <= j < k < |v.events| ==>
          PageOf(ps, v.events[j].address) != PageOf(ps, v.events[k].address))
  }

  /** Completing page `page` leaves the reports so far true, and the new one is the next. */
  lemma ReportsStay(ps: int, a: Pages, page: nat, e: Event, k: nat)
    requires ps > 0 && page in a && Reports(ps, a, e, k)
    ensures Reports(ps, a[page := a[page].(completed := true)], e, k)
  {
    var b := a[page := a[page].(completed := true)];
    SameSize(a, b);
  }

  lemma FaultKeepsTrapping(ps: int, orig: Prots, table: Pages, seen: seq<Event>, v: View, addr: u64, pc: u64,
                           op: Access)
    requires ps > 0 && Trapping(ps, orig, table, seen, v)
    ensures Trapping(ps, orig, table, seen, Faulted(ps, v, addr, pc, op).0)
  {
    hide PageOf, Strip;
    var w := Faulted(ps, v, addr, pc, op).0;
    var st, page := v.state.value, PageOf(ps, Strip(addr));
    if page in st.pages {
      var e := st.pages[page];
      if e.completed {
        assert w.prot == Trapped(orig, st.pages);
      } else {
        var pages := st.pages[page := e.(completed := true)];
        assert w.prot == Trapped(orig, pages);
        assert Completed(pages) == Completed(st.pages) + {page};
        assert pages.Keys == table.Keys;
        SameSize(table, pages);
        assert w.events[..|v.events|] == v.events;
        forall k | |seen| <= k < |w.events|
          ensures Reports(ps, pages, w.events[k], k - |seen|)
        {
          if k < |v.events| {
            ReportsStay(ps, st.pages, page, v.events[k], k - |seen|);
          }
        }
      }
    }
  }

  lemma SameSize(a: Pages, b: Pages)
    requires a.Keys == b.Keys
    ensures |a| == |b|
  {
    assert |a| == |a.Keys| && |b| == |b.Keys|;
  }

  /**
   * After any faults: the count is that of the completed pages, every page has sent at most one event,
   * and exactly the monitored pages not yet completed are inaccessible among those that were accessible.
   */
  lemma {:induction false} EveryRunTraps(ps: int, orig: Prots, table: Pages, seen: seq<Event>, v: View,
                                         faults: seq<Fault>)
    requires ps > 0 && Trapping(ps, orig, table, seen, v)
    ensures Trapping(ps, orig, table, seen, RunFaults(ps, v, faults))
    decreases |faults|
  {
    hide Trapping, Faulted;
    if faults != [] {
      FaultKeepsTrapping(ps, orig, table, seen, v, faults[0].addr, faults[0].pc, faults[0].op);
      EveryRunTraps(ps, orig, table, seen, Faulted(ps, v, faults[0].addr, faults[0].pc, faults[0].op).0, faults[1..]);
    }
  }

  /** Opening the monitor starts a run. */
  lemma OpenedTraps(ps: int, v: View, ranges: seq<Range>, pages: Pages, total: nat, shut: set<nat>, w: View)
    requires ps > 0 && TableOf(ps, ranges, v.prot, pages) && Opened(v, ranges, pages, Enabled(total), shut, w)
    ensures Trapping(ps, v.prot, pages, v.events, w)
  {
    hide Meets, MeetsAny, Numbered, PageOf, Aligned;
    assert forall p: nat :: p in pages ==> FreshEntry(ps, ranges, v.prot, p, pages[p]);
    assert Completed(pages) == {};
    assert w.prot == Trapped(v.prot, pages);
  }

  /**
   * A whole session, from `enable` over any faults: a page is inaccessible exactly if it is monitored
   * and not completed, or was inaccessible and is not monitored.
   */
  lemma InaccessibleIffPending(ps: int, v: View, ranges: seq<Range>, pages: Pages, total: nat, shut: set<nat>, w: View,
      faults: seq<Fault>, p: nat)
    requires ps > 0 && TableOf(ps, ranges, v.prot, pages) && Opened(v, ranges, pages, Enabled(total), shut, w)
    requires p in v.prot
    ensures var u := RunFaults(ps, w, faults);
      && u.state.Some? && p in u.prot
      && (u.prot[p] == PROT_NONE <==>
            if Monitored(ps, ranges, p) then p !in Completed(u.state.value.pages) else v.prot[p] == PROT_NONE)
  {
    hide Meets, MeetsAny, Numbered, PageOf, Aligned, RunFaults, Reports;
    OpenedTraps(ps, v, ranges, pages, total, shut, w);
    EveryRunTraps(ps, v.prot, pages, v.events, w, faults);
    if p in pages {
      assert FreshEntry(ps, ranges, v.prot, p, pages[p]);
    }
  }

  predicate Monitored(ps: int, ranges: seq<Range>, p: nat)
    requires ps > 0
  {
    Aligned(ps, p) && MeetsAny(ps, ranges, p)
  }

  /** A monitored page that has sent its event. */
  predicate Reported(v: View, p: nat) {
    v.state.Some? && p in v.state.value.pages && v.state.value.pages[p].completed
  }

  /**
   * A fault in a session, after any others: it is the monitor's own, and does not go on to the handler
   * that was there before, if and only if its page is monitored. Then the page has the protection it was
   * saved with, so that the access can go through, and no other page changes. The first such fault of a page
   * sends an event, which says what was accessed, where and from where; no other sends any.
   */
  lemma FaultIsAnswered(ps: int, v: View, ranges: seq<Range>, pages: Pages, total: nat, shut: set<nat>, w: View,
                        faults: seq<Fault>, addr: u64, pc: u64, op: Access)
    requires ps > 0 && TableOf(ps, ranges, v.prot, pages) && Opened(v, ranges, pages, Enabled(total), shut, w)
    ensures var u := RunFaults(ps, w, faults);
      var (x, handled) := Faulted(ps, u, addr, pc, op);
      var page := PageOf(ps, Strip(addr));
      && (handled <==> Monitored(ps, ranges, page))
      && (!handled ==> x == u)
      && (handled ==> page in x.prot && x.prot[page] == Saved(v.prot, page) && Reported(x, page))
      && (forall p: nat :: p in u.prot && p != page ==> p in x.prot && x.prot[p] == u.prot[p])
      && (if handled && !Reported(u, page) then
            && |x.events| == |u.events| + 1 && u.events == x.events[..|u.events|]
            && var e := x.events[|u.events|];
               e.operation == op && e.from == pc && e.address == Strip(addr)
               && e.pagesCompleted == Wrap32(|u.events| - |v.events| + 1) && e.pagesTotal == Wrap32(|pages|)
          else x.events == u.events)
  {
    hide Meets, MeetsAny, Numbered, PageOf, Aligned, RunFaults, Reports, Query, Completed, Trapped, Strip, Saved;
    OpenedTraps(ps, v, ranges, pages, total, shut, w);
    EveryRunTraps(ps, v.prot, pages, v.events, w, faults);
    var u, page := RunFaults(ps, w, faults), PageOf(ps, Strip(addr));
    if page in pages {
      assert FreshEntry(ps, ranges, v.prot, page, pages[page]);
      QueryIsSaved(v.prot, page);
      TrappedKeys(v.prot, u.state.value.pages);
    }
  }

  lemma TrappedKeys(prot: Prots, pages: Pages)
    ensures Trapped(prot, pages).Keys == prot.Keys
  {}

  /** The protection a page is given back: its own, or read and write if it had none. */
  function Saved(prot: Prots, page: nat): Prot
    requires page in prot
  {
    if prot[page] == PROT_NONE then 3 else prot[page]
  }

  lemma QueryIsSaved(prot: Prots, page: nat)
    requires page in prot
    ensures Query(prot, page) == Saved(prot, page)
  {}

  /** Once the monitor is closed, no fault is its own and none has any effect. */
  lemma ClosedIsSilent(ps: int, v: View, addr: u64, pc: u64, op: Access)
    requires ps > 0
    ensures Faulted(ps, Disabled(v), addr, pc, op) == (Disabled(v), false)
  {}

  /** A page is monitored exactly if it shares a byte with a range, where no bytes count as one. */
  lemma MonitoredIffShared(ps: int, ranges: seq<Range>, p: nat)
    requires ps > 0 && Aligned(ps, p)
    ensures Monitored(ps, ranges, p)
       <==> exists i, a :: 0 <= i < |ranges| && InPage(ps, p, a) && InRange(ranges[i], a)
  {
    hide Aligned, InRange, InPage, Meets;
    forall i | 0 <= i < |ranges|
      ensures Meets(ps, ranges[i], p) <==> exists a :: InPage(ps, p, a) && InRange(ranges[i], a)
    {
      MeetsIffShared(ps, ranges[i], p);
    }
  }

  predicate InPage(ps: int, p: nat, a: int) { p <= a < p + ps }

  /** Address `a` is in `r` as the monitor takes it: without the tag in the top byte of its base. */
  predicate InRange(r: Range, a: int) {
    var base := r.base % 0x100_0000_0000_0000;
    base <= a && (a < base + r.size || (r.size == 0 && a == base))
  }

  lemma MeetsIffShared(ps: int, r: Range, p: nat)
    requires ps > 0
    ensures Meets(ps, r, p) <==> exists a :: InPage(ps, p, a) && InRange(r, a)
  {
    var base: int := Strip(r.base);
    if Meets(ps, r, p) {
      var a := if base < p then p else base;
      assert InPage(ps, p, a) && InRange(r, a);
    }
  }

  /**
   * Closing the monitor after any faults: every page is back at the protection it had, except that a
   * monitored page without permissions has become readable and writable.
   */
  lemma DisableRestores(ps: int, v: View, ranges: seq<Range>, pages: Pages, total: nat, shut: set<nat>, w: View,
                        faults: seq<Fault>)
    requires ps > 0 && TableOf(ps, ranges, v.prot, pages) && Opened(v, ranges, pages, Enabled(total), shut, w)
    ensures var prot := Disabled(RunFaults(ps, w, faults)).prot;
      && prot == (map p | p in v.prot :: if Monitored(ps, ranges, p) then Saved(v.prot, p) else v.prot[p])
      && (prot == v.prot <==> forall p: nat :: p in v.prot && Monitored(ps, ranges, p) ==> v.prot[p] != PROT_NONE)
  {
    hide Query, RunFaults, Reports, Completed, TableOf, Monitored, Restored, Trapped, Saved;
    OpenedTraps(ps, v, ranges, pages, total, shut, w);
    EveryRunTraps(ps, v.prot, pages, v.events, w, faults);
    RestoredFromTrap(v.prot, pages, RunFaults(ps, w, faults).state.value.pages);
    RestoredQueries(ps, ranges, v.prot, pages);
    QueriesSame(ps, ranges, v.prot);
  }

  lemma RestoredQueries(ps: int, ranges: seq<Range>, prot: Prots, pages: Pages)
    requires ps > 0 && TableOf(ps, ranges, prot, pages)
    ensures Restored(prot, pages) == map p | p in prot :: if Monitored(ps, ranges, p) then Saved(prot, p) else prot[p]
  {
    hide Aligned, MeetsAny, Numbered, Meets, Query, Saved;
    forall p: nat | p in pages && p in prot
      ensures pages[p].prevProt == Saved(prot, p)
    {
      assert FreshEntry(ps, ranges, prot, p, pages[p]);
      QueryIsSaved(prot, p);
    }
  }

  lemma QueriesSame(ps: int, ranges: seq<Range>, prot: Prots)
    requires ps > 0
    ensures (map p | p in prot :: if Monitored(ps, ranges, p) then Saved(prot, p) else prot[p]) == prot
      <==> forall p: nat :: p in prot && Monitored(ps, ranges, p) ==> prot[p] != PROT_NONE
  {
    hide Monitored;
    var now: Prots := map p | p in prot :: if Monitored(ps, ranges, p) then Saved(prot, p) else prot[p];
    forall p: nat | now == prot && p in prot && Monitored(ps, ranges, p)
      ensures prot[p] != PROT_NONE
    {
      assert now[p] == Saved(prot, p);
    }
  }

  lemma RestoredFromTrap(orig: Prots, table: Pages, now: Pages)
    requires SameTable(table, now)
    ensures Restored(Trapped(orig, now), now) == Restored(orig, table)
  {}

  /**
   * When `enable` fails at a page, closing the monitor does not open the pages shut before it: the
   * protections are what they were if and only if those pages had none anyway.
   */
  lemma FailedEnableStaysShut(v: View, ranges: seq<Range>, pages: Pages, failed: nat, shut: set<nat>, w: View)
    requires v.state == None && !v.enabled && Opened(v, ranges, pages, MprotectFailed(failed), shut, w)
    ensures Disabled(w) == w && w.prot == Shut(v.prot, shut)
    ensures Disabled(w).prot == v.prot <==> forall p: nat :: p in shut && p in v.prot ==> v.prot[p] == PROT_NONE
  {
    DisabledTwice(v, w.prot);
    SameIfNone(v.prot, shut);
  }

  lemma SameIfNone(prot: Prots, shut: set<nat>)
    ensures Shut(prot, shut) == prot <==> forall p: nat :: p in shut && p in prot ==> prot[p] == PROT_NONE
  {
    if Shut(prot, shut) == prot {
      forall p: nat | p in shut && p in prot
        ensures prot[p] == PROT_NONE
      {
        assert Shut(prot, shut)[p] == PROT_NONE;
      }
    }
  }

  /**
   * Over every order in which the table may be gone through: a failed `enable` is harmless in all of them
   * if and only if every mapped page of the table was without permissions before.
   */
  lemma FailedEnableHarmless(prot: Prots, pages: Pages)
    ensures (forall order :: Covers(order, pages) ==> Shut(prot, ShutBy(prot, order)) == prot)
       <==> (forall p: nat :: p in pages && p in prot ==> prot[p] == PROT_NONE)
  {
    if forall order :: Covers(order, pages) ==> Shut(prot, ShutBy(prot, order)) == prot {
      forall p: nat | p in pages && p in prot
        ensures prot[p] == PROT_NONE
      {
        var order := [p] + Listing(pages.Keys);
        assert Covers(order, pages);
        assert order[0] == p && p in ShutBy(prot, order);
        SameIfNone(prot, ShutBy(prot, order));
      }
    }
    if forall p: nat :: p in pages && p in prot ==> prot[p] == PROT_NONE {
      forall order | Covers(order, pages)
        ensures Shut(prot, ShutBy(prot, order)) == prot
      {
        ShutAreListed(prot, order);
        SameIfNone(prot, ShutBy(prot, order));
      }
    }
  }

  lemma {:induction false} ShutAreListed(prot: Prots, order: seq<nat>)
    ensures ShutBy(prot, order) <= prot.Keys && forall p: nat :: p in ShutBy(prot, order) ==> p in order
    decreases |order|
  {
    if order != [] {
      ShutAreListed(prot, order[1..]);
    }
  }
}
