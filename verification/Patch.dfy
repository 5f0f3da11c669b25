/** Installing and removing hooks: who owns which bytes of code memory. */
module Patch {
  import opened Options
  import opened Words
  import opened Memory
  import opened A64
  import opened Encode
  import opened Decoder
  import opened Relocator
  import opened Relocation
  import opened Thunks
  import opened HookFlow
  import opened Dispatch
  import DispatchRuns

  /** Where the kernel maps a scratch page. */
  type PageAddr = a: int | 0 <= a < P64 - PAGE && a % PAGE == 0

  const PATCH_LEN: int := 16

  datatype HookError = Reloc(error: RelocError) | Mmap | Mprotect | NotFound(id: HookId) | TooShort | NoSpace
  datatype Outcome<+T> = Ok(value: T) | Err(error: HookError)

  datatype HookEntry = HookEntry(id: HookId, target: u64, trampoline: u64, leaveThunk: u64, original: seq<u8>)

  // ---------- bytes in memory ----------

  function WriteBytes(m: Mem, a: int, b: seq<u8>): Mem
    decreases |b|
  {
    if b == [] then m else WriteBytes(m[a := b[0]], a + 1, b[1..])
  }

  lemma {:induction false} WriteBytesGet(m: Mem, a: int, b: seq<u8>, x: int)
    ensures Get(WriteBytes(m, a, b), x) == if a <= x < a + |b| then b[x - a] else Get(m, x)
    decreases |b|
  {
    if b != [] {
      WriteBytesGet(m[a := b[0]], a + 1, b[1..], x);
    }
  }

  /** `n` is `m` with the bytes `b` at `a`. */
  ghost predicate Wrote(m: Mem, n: Mem, a: int, b: seq<u8>) {
    forall x :: Get(n, x) == if a <= x < a + |b| then b[x - a] else Get(m, x)
  }

  lemma WroteBytes(m: Mem, a: int, b: seq<u8>)
    ensures Wrote(m, WriteBytes(m, a, b), a, b)
  {
    forall x
      ensures Get(WriteBytes(m, a, b), x) == if a <= x < a + |b| then b[x - a] else Get(m, x)
    {
      WriteBytesGet(m, a, b, x);
    }
  }

  function Jump(target: u64): (b: seq<u8>)
    ensures |b| == PATCH_LEN
  {
    Bytes(EncodeAbsBranch(target))
  }

  // ---------- the ledger ----------

  /** A hook's scratch page and what was copied into it. */
  datatype Page = Page(at: PageAddr, enter: seq<u8>, leave: seq<u8>, block: seq<u8>)
  {
    predicate Spans(a: int) { at <= a < at + PAGE }

    /** No part runs into the next or leaves the page. */
    predicate Fits() { |enter| <= LEAVE_OFF && LEAVE_OFF + |leave| <= RELOC_OFF && RELOC_OFF + |block| <= PAGE }

    ghost predicate Intact(m: Mem) {
      Lies(m, at, enter) && Lies(m, at + LEAVE_OFF, leave) && Lies(m, at + RELOC_OFF, block)
    }
  }

  ghost predicate Lies(m: Mem, a: int, b: seq<u8>) { forall i :: 0 <= i < |b| ==> Get(m, a + i) == b[i] }

  /** A live hook: where it was placed, where its jump leads, and what it displaced. */
  datatype Live = Live(id: HookId, target: u64, goal: u64, original: seq<u8>)
  {
    predicate Covers(a: int) { target <= a < target + PATCH_LEN }
  }

  predicate Overlap(g: Live, h: Live) { g.target < h.target + PATCH_LEN && h.target < g.target + PATCH_LEN }

  /** The byte at `a` when the hooks `live` lie over the image `base`, the latest uppermost. */
  function ByteAt(base: Mem, live: seq<Live>, a: int): u8 {
    if live == [] then Get(base, a)
    else
      var h := live[|live| - 1];
      if h.Covers(a) then Jump(h.goal)[a - h.target] else ByteAt(base, live[..|live| - 1], a)
  }

  function Without(live: seq<Live>, k: nat): seq<Live>
    requires k < |live|
  {
    live[..k] + live[k + 1..]
  }

  /** No hook placed after `k` lies over its window. */
  ghost predicate Uncovered(live: seq<Live>, k: nat)
    requires k < |live|
  {
    forall j :: k < j < |live| ==> !Overlap(live[k], live[j])
  }

  /** Each hook saved what lay below it when it was placed. */
  ghost predicate Originals(base: Mem, live: seq<Live>) {
    forall k :: 0 <= k < |live| ==> SavedBelow(base, live[..k], live[k])
  }

  ghost predicate SavedBelow(base: Mem, below: seq<Live>, h: Live) {
    |h.original| == PATCH_LEN && forall a :: h.Covers(a) ==> h.original[a - h.target] == ByteAt(base, below, a)
  }

  /** Memory is the image `base` with the hooks `live` over it, outside the hooks' own pages. */
  ghost predicate Ledger(base: Mem, m: Mem, live: seq<Live>, pages: seq<Page>) {
    && Originals(base, live)
    && (forall a :: !InPages(pages, a) ==> Get(m, a) == ByteAt(base, live, a))
    && (forall k, a :: 0 <= k < |live| && live[k].Covers(a) ==> !InPages(pages, a))
  }

  predicate InPages(pages: seq<Page>, a: int) { exists i :: 0 <= i < |pages| && pages[i].Spans(a) }

  lemma ByteAtTop(base: Mem, live: seq<Live>, h: Live, a: int)
    ensures ByteAt(base, live + [h], a) == if h.Covers(a) then Jump(h.goal)[a - h.target] else ByteAt(base, live, a)
  {
    assert (live + [h])[..|live|] == live;
  }

  /** A hook that does not cover `a` does not matter there. */
  lemma {:induction false} ByteAtWithout(base: Mem, live: seq<Live>, k: nat, a: int)
    requires k < |live| && !live[k].Covers(a)
    ensures ByteAt(base, live, a) == ByteAt(base, Without(live, k), a)
    decreases |live|
  {
    hide Jump, Get;
    var n := |live| - 1;
    if k == n {
      assert Without(live, k) == live[..n];
    } else {
      ByteAtWithout(base, live[..n], k, a);
      assert Without(live, k) == Without(live[..n], k) + [live[n]];
      ByteAtTop(base, Without(live[..n], k), live[n], a);
    }
  }

  /** Where no later hook covers `a`, the byte below hook `k` shows once `k` is gone. */
  lemma {:induction false} ByteAtBelow(base: Mem, live: seq<Live>, k: nat, a: int)
    requires k <= |live| && forall j :: k <= j < |live| ==> !live[j].Covers(a)
    ensures ByteAt(base, live, a) == ByteAt(base, live[..k], a)
    decreases |live|
  {
    if k < |live| {
      ByteAtBelow(base, live[..|live| - 1], k, a);
      assert live[..|live| - 1][..k] == live[..k];
    } else {
      assert live[..k] == live;
    }
  }

  /** Placing a hook over what is there now. */
  lemma PlaceKeepsLedger(base: Mem, m: Mem, m': Mem, live: seq<Live>, pages: seq<Page>, h: Live)
    requires Ledger(base, m, live, pages)
    requires |h.original| == PATCH_LEN
    requires forall a :: h.Covers(a) ==> h.original[a - h.target] == Get(m, a) && !InPages(pages, a)
    requires Wrote(m, m', h.target, Jump(h.goal))
    ensures Ledger(base, m', live + [h], pages)
  {
    hide Jump, InPages;
    var now := live + [h];
    forall k | 0 <= k < |now|
      ensures SavedBelow(base, now[..k], now[k])
    {
      if k < |live| {
        assert now[..k] == live[..k] && SavedBelow(base, live[..k], live[k]);
      } else {
        assert now[..k] == live;
      }
    }
    forall a | !InPages(pages, a)
      ensures Get(m', a) == ByteAt(base, now, a)
    {
      ByteAtTop(base, live, h, a);
    }
  }

  /** Restoring a hook that no later hook overlaps leaves the ledger of the others. */
  lemma RestoreKeepsLedger(base: Mem, m: Mem, m': Mem, live: seq<Live>, pages: seq<Page>, k: nat)
    requires Ledger(base, m, live, pages) && k < |live| && Uncovered(live, k)
    requires Wrote(m, m', live[k].target, live[k].original)
    ensures Ledger(base, m', Without(live, k), pages)
  {
    hide Jump, InPages, ByteAt;
    var h, rest := live[k], Without(live, k);
    assert SavedBelow(base, live[..k], h);
    forall j | 0 <= j < |rest|
      ensures SavedBelow(base, rest[..j], rest[j])
    {
      if j < k {
        assert rest[..j] == live[..j] && SavedBelow(base, live[..j], live[j]);
      } else {
        assert SavedBelow(base, live[..j + 1], live[j + 1]);
        assert !Overlap(h, live[j + 1]);
        assert rest[..j] == Without(live[..j + 1], k);
        forall a | rest[j].Covers(a)
          ensures ByteAt(base, rest[..j], a) == ByteAt(base, live[..j + 1], a)
        {
          ByteAtWithout(base, live[..j + 1], k, a);
        }
      }
    }
    forall a | !InPages(pages, a)
      ensures Get(m', a) == ByteAt(base, rest, a)
    {
      if h.Covers(a) {
        forall j | k <= j < |rest|
          ensures !rest[j].Covers(a)
        {
          assert !Overlap(h, live[j + 1]);
        }
        ByteAtBelow(base, rest, k, a);
        assert rest[..k] == live[..k];
      } else {
        ByteAtWithout(base, live, k, a);
      }
    }
  }

  // ---------- the scratch page ----------

  function WritePage(m: Mem, p: Page): Mem {
    WriteBytes(WriteBytes(WriteBytes(m, p.at, p.enter), p.at + LEAVE_OFF, p.leave), p.at + RELOC_OFF, p.block)
  }

  lemma WritePageFits(m: Mem, p: Page)
    requires p.Fits()
    ensures p.Intact(WritePage(m, p)) && SameOff(m, WritePage(m, p), p.at, p.at + PAGE)
  {
    hide Get, WriteBytes;
    var m1 := WriteBytes(m, p.at, p.enter);
    var m2 := WriteBytes(m1, p.at + LEAVE_OFF, p.leave);
    WroteBytes(m, p.at, p.enter);
    WroteBytes(m1, p.at + LEAVE_OFF, p.leave);
    WroteBytes(m2, p.at + RELOC_OFF, p.block);
  }

  /** What `attach` copies into the page at `page`. */
  function PageFor(w: World, id: HookId, target: u64, code: seq<u8>, page: PageAddr, needLeave: bool,
                   replaceMode: bool): (p: Page)
    requires |code| >= PATCH_LEN
    ensures p.Fits() && p.at == page
  {
    var block: u64 := page + RELOC_OFF;
    Page(page,
         Bytes(EnterThunk(id, w.enter, block, replaceMode)),
         if needLeave then Bytes(LeaveThunk(id, w.leave)) else [],
         Bytes(BlockWords(DecodePrefix(target, code, MIN_PATCH_INSNS), Wrap(target + PATCH_LEN), block)))
  }

  // ---------- the operations ----------

  /** The dispatchers' addresses, and the targets whose protection the kernel will not change. */
  datatype World = World(enter: u64, leave: u64, refused: set<u64>)

  datatype Code = Code(mem: Mem, hooks: map<HookId, HookEntry>, nextId: HookId)
  {
    /** Overwrites the window at `target` and files the hook. */
    function Patched(e: HookEntry, goal: u64): Code {
      Code(WriteBytes(mem, e.target, Jump(goal)), hooks[e.id := e], nextId)
    }
  }

  function Attached(w: World, c: Code, target: u64, code: seq<u8>, page: Option<PageAddr>, wantLeave: bool,
                    replaceMode: bool)
      : (Code, Outcome<HookId>)
  {
    var id := c.nextId;
    var c1 := c.(nextId := Wrap32(id + 1));
    var needLeave := wantLeave || replaceMode;
    if page.None? then (c1, Err(Mmap))
    else if |code| < PATCH_LEN then (c1, Err(Reloc(TruncatedCode)))
    else
      var p := page.value;
      var c2 := c1.(mem := WritePage(c.mem, PageFor(w, id, target, code, p, needLeave, replaceMode)));
      if target in w.refused then (c2, Err(Mprotect))
      else (c2.Patched(HookEntry(id, target, p, if needLeave then p + LEAVE_OFF else 0, code[..PATCH_LEN]), p), Ok(id))
  }

  function Replaced(w: World, c: Code, target: u64, code: seq<u8>, replacement: u64): (Code, Outcome<HookId>) {
    var id := c.nextId;
    var c1 := c.(nextId := Wrap32(id + 1));
    if |code| < PATCH_LEN then (c1, Err(TooShort))
    else if target in w.refused then (c1, Err(Mprotect))
    else (c1.Patched(HookEntry(id, target, 0, 0, code[..PATCH_LEN]), replacement), Ok(id))
  }

  /** The entry is gone even when its bytes cannot be restored. */
  function Detached(w: World, c: Code, id: HookId): (Code, Outcome<()>) {
    if id !in c.hooks then (c, Err(NotFound(id)))
    else
      var e := c.hooks[id];
      var c1 := c.(hooks := c.hooks - {id});
      if e.original == [] then (c1, Ok(()))
      else if e.target in w.refused then (c1, Err(Mprotect))
      else (c1.(mem := WriteBytes(c.mem, e.target, e.original)), Ok(()))
  }

  /** Detaching `ids` one after the other, whatever becomes of each. */
  function DetachedAll(w: World, c: Code, ids: seq<HookId>): Code
    decreases |ids|
  {
    if ids == [] then c else Detached(w, DetachedAll(w, c, ids[..|ids| - 1]), ids[|ids| - 1]).0
  }

  /** `ids` lists every hook of `c` once. */
  ghost predicate Lists(ids: seq<HookId>, c: Code) {
    && (forall id :: id in ids <==> id in c.hooks)
    && (forall i, j :: 0 <= i < j < |ids| ==> ids[i] != ids[j])
  }

  /** Code memory and the hook registry, as the patcher updates them. */
  class CodeMemory {
    const world: World
    var mem: Mem
    var hooks: map<HookId, HookEntry>
    var nextId: HookId

    constructor (world: World, mem: Mem)
      ensures this.world == world && Now() == Code(mem, map[], 1)
    {
      this.world := world;
      this.mem := mem;
      hooks := map[];
      nextId := 1;
    }

    function Now(): Code
      reads this
    {
      Code(mem, hooks, nextId)
    }

    method CopyTo(a: int, b: seq<u8>)
      modifies this`mem
      ensures mem == WriteBytes(old(mem), a, b)
    {
      var i := 0;
      assert b[0..] == b;
      while i < |b|
        invariant 0 <= i <= |b|
        invariant WriteBytes(mem, a + i, b[i..]) == WriteBytes(old(mem), a, b)
      {
        mem := mem[a + i := b[i]];
        i := i + 1;
      }
    }

    method AllocId() returns (id: HookId)
      modifies this`nextId
      ensures id == old(nextId) && nextId == Wrap32(id + 1)
    {
      id := nextId;
      nextId := Wrap32(nextId + 1);
    }

    /**
     * `page` is the outcome of mapping a scratch page. The patch is always four whole words, so it needs no
     * padding.
     */
    method AttachWithDecoder(target: u64, code: seq<u8>, page: Option<PageAddr>, wantLeave: bool, replaceMode: bool)
      returns (r: Outcome<HookId>)
      modifies this
      ensures (Now(), r) == Attached(world, old(Now()), target, code, page, wantLeave, replaceMode)
    {
      hide EnterThunk, LeaveThunk, BlockWords, DecodePrefix, Bytes, EncodeAbsBranch, WriteBytes;
      var id := AllocId();
      var needLeave := wantLeave || replaceMode;
      if page.None? {
        return Err(Mmap);
      }
      var scratch := page.value;
      var built := BuildTrampoline(target, code, scratch + RELOC_OFF);
      if built.Failure? {
        return Err(Reloc(built.error));
      }
      var block := built.value;
      var enter := BuildEnterThunk(id, world.enter, scratch + RELOC_OFF, replaceMode);
      if |enter| > LEAVE_OFF {
        return Err(NoSpace);
      }
      var leave: seq<u8> := [];
      if needLeave {
        leave := BuildLeaveThunk(id, world.leave);
      }
      if |leave| > RELOC_OFF - LEAVE_OFF {
        return Err(NoSpace);
      }
      CopyTo(scratch, enter);
      CopyTo(scratch + LEAVE_OFF, leave);
      CopyTo(scratch + RELOC_OFF, block.code);
      var leaveThunk := if needLeave then scratch + LEAVE_OFF else 0;
      if target in world.refused {
        return Err(Mprotect);
      }
      CopyTo(target, Bytes(EncodeAbsBranch(scratch)));
      hooks := hooks[id := HookEntry(id, target, scratch, leaveThunk, code[..block.patchLen])];
      return Ok(id);
    }

    method ReplacePtr(target: u64, code: seq<u8>, replacement: u64) returns (r: Outcome<HookId>)
      modifies this
      ensures (Now(), r) == Replaced(world, old(Now()), target, code, replacement)
    {
      hide EncodeAbsBranch, Bytes, WriteBytes;
      var id := AllocId();
      var patchLen := if |code| < PATCH_LEN then |code| else PATCH_LEN;
      if patchLen < PATCH_LEN {
        return Err(TooShort);
      }
      if target in world.refused {
        return Err(Mprotect);
      }
      CopyTo(target, Bytes(EncodeAbsBranch(replacement)));
      hooks := hooks[id := HookEntry(id, target, 0, 0, code[..patchLen])];
      return Ok(id);
    }

    method Detach(id: HookId) returns (r: Outcome<()>)
      modifies this
      ensures (Now(), r) == Detached(world, old(Now()), id)
    {
      hide WriteBytes;
      if id !in hooks {
        return Err(NotFound(id));
      }
      var entry := hooks[id];
      hooks := hooks - {id};
      if entry.original == [] {
        return Ok(());
      }
      if entry.target in world.refused {
        return Err(Mprotect);
      }
      CopyTo(entry.target, entry.original);
      return Ok(());
    }

    /** The registry yields its ids in an order of its own. */
    method DetachAll() returns (order: seq<HookId>)
      modifies this
      ensures Lists(order, old(Now()))
      ensures Now() == DetachedAll(world, old(Now()), order)
    {
      hide WriteBytes;
      var ids := hooks.Keys;
      order := [];
      while ids != {}
        invariant ids <= old(hooks).Keys
        invariant forall id :: id in order <==> id in old(hooks) && id !in ids
        invariant forall i, j :: 0 <= i < j < |order| ==> order[i] != order[j]
        invariant Now() == DetachedAll(world, old(Now()), order)
        decreases |ids|
      {
        var id :| id in ids;
        var _ := Detach(id);
        ids := ids - {id};
        assert (order + [id])[..|order|] == order;
        order := order + [id];
      }
    }
  }

  // ---------- what every run keeps ----------

  datatype Op =
    | Attach(target: u64, code: seq<u8>, page: Option<PageAddr>, wantLeave: bool, replaceMode: bool)
    | Replace(target: u64, code: seq<u8>, replacement: u64)
    | Remove(id: HookId)

  function Do(w: World, c: Code, op: Op): Code {
    match op
    case Attach(target, code, page, wantLeave, replaceMode) =>
      Attached(w, c, target, code, page, wantLeave, replaceMode).0
    case Replace(target, code, replacement) => Replaced(w, c, target, code, replacement).0
    case Remove(id) => Detached(w, c, id).0
  }

  /** The live hooks and the pages that the run has written, in the order of their placement. */
  datatype Book = Book(live: seq<Live>, pages: seq<Page>)

  function IndexOf(live: seq<Live>, id: HookId): (k: nat)
    ensures k <= |live| && (k < |live| ==> live[k].id == id)
    ensures k == |live| ==> forall j :: 0 <= j < |live| ==> live[j].id != id
    ensures forall j :: 0 <= j < k ==> live[j].id != id
    decreases |live|
  {
    if live == [] || live[0].id == id then 0 else 1 + IndexOf(live[1..], id)
  }

  function Drop(live: seq<Live>, id: HookId): seq<Live> {
    var k := IndexOf(live, id);
    if k < |live| then Without(live, k) else live
  }

  /** The book after `op`: a placement goes on top, a removal leaves the others in place. */
  function BookAfter(w: World, c: Code, book: Book, op: Op): Book {
    match op
    case Attach(target, code, page, wantLeave, replaceMode) =>
      if page.None? || |code| < PATCH_LEN then book
      else
        var p := PageFor(w, c.nextId, target, code, page.value, wantLeave || replaceMode, replaceMode);
        Book(if target in w.refused then book.live
             else book.live + [Live(c.nextId, target, page.value, code[..PATCH_LEN])],
             book.pages + [p])
    case Replace(target, code, replacement) =>
      if |code| < PATCH_LEN || target in w.refused then book
      else book.(live := book.live + [Live(c.nextId, target, replacement, code[..PATCH_LEN])])
    case Remove(id) => book.(live := Drop(book.live, id))
  }

  /** The registry holds the live hooks, each under its own id. */
  ghost predicate Filed(w: World, hooks: map<HookId, HookEntry>, live: seq<Live>) {
    && (forall k :: 0 <= k < |live| ==> FiledUnder(w, hooks, live[k]))
    && (forall id :: id in hooks ==> IndexOf(live, id) < |live|)
    && (forall j, k :: 0 <= j < k < |live| ==> live[j].id != live[k].id)
  }

  predicate FiledUnder(w: World, hooks: map<HookId, HookEntry>, h: Live) {
    h.id in hooks && hooks[h.id].target == h.target && hooks[h.id].original == h.original && h.target !in w.refused
  }

  ghost predicate PagesKept(m: Mem, pages: seq<Page>) {
    forall i :: 0 <= i < |pages| ==> pages[i].Fits() && pages[i].Intact(m)
  }

  /** Memory, registry and pages are what the book says. */
  ghost predicate Kept(w: World, base: Mem, c: Code, book: Book) {
    Ledger(base, c.mem, book.live, book.pages) && PagesKept(c.mem, book.pages) && Filed(w, c.hooks, book.live)
  }

  /** `code` was read from `target`, outside all scratch pages, and the next hook id is free. */
  ghost predicate Fresh(c: Code, pages: seq<Page>, target: u64, code: seq<u8>) {
    && c.nextId !in c.hooks
    && forall a :: target <= a < target + PATCH_LEN && |code| >= PATCH_LEN ==>
         code[a - target] == Get(c.mem, a) && !InPages(pages, a)
  }

  /** A new page shares no byte with the hooked windows or with older pages. */
  ghost predicate PageFree(at: PageAddr, book: Book, target: u64) {
    && (target + PATCH_LEN <= at || at + PAGE <= target)
    && (forall k :: 0 <= k < |book.live| ==> book.live[k].target + PATCH_LEN <= at || at + PAGE <= book.live[k].target)
    && (forall i :: 0 <= i < |book.pages| ==> book.pages[i].at != at)
  }

  /** What the callers of a run see to. */
  ghost predicate Proper(c: Code, book: Book, op: Op) {
    match op
    case Attach(target, code, page, _, _) =>
      Fresh(c, book.pages, target, code) && (page.Some? ==> PageFree(page.value, book, target))
    case Replace(target, code, _) => Fresh(c, book.pages, target, code)
    case Remove(id) => IndexOf(book.live, id) < |book.live| ==> Uncovered(book.live, IndexOf(book.live, id))
  }

  lemma FileHook(w: World, hooks: map<HookId, HookEntry>, live: seq<Live>, h: Live, e: HookEntry)
    requires Filed(w, hooks, live) && h.id !in hooks
    requires FiledUnder(w, hooks[h.id := e], h)
    ensures Filed(w, hooks[h.id := e], live + [h])
  {
    var now, hooks' := live + [h], hooks[h.id := e];
    forall k | 0 <= k < |now|
      ensures FiledUnder(w, hooks', now[k])
    {
      if k < |live| {
        assert FiledUnder(w, hooks, live[k]);
      }
    }
    forall id | id in hooks'
      ensures IndexOf(now, id) < |now|
    {
      if id == h.id {
        assert now[|live|].id == id;
      } else {
        assert now[IndexOf(live, id)].id == id;
      }
    }
    forall j, k | 0 <= j < k < |now|
      ensures now[j].id != now[k].id
    {
      assert FiledUnder(w, hooks, live[j]);
    }
  }

  lemma UnfileHook(w: World, hooks: map<HookId, HookEntry>, live: seq<Live>, id: HookId)
    requires Filed(w, hooks, live) && id in hooks
    ensures Filed(w, hooks - {id}, Drop(live, id))
  {
    hide FiledUnder;
    var k := IndexOf(live, id);
    var rest, hooks' := Without(live, k), hooks - {id};
    forall j | 0 <= j < |rest|
      ensures FiledUnder(w, hooks', rest[j])
    {
      var i := if j < k then j else j + 1;
      assert rest[j] == live[i];
      StaysFiled(w, hooks, live[i], id);
    }
    forall id' | id' in hooks'
      ensures IndexOf(rest, id') < |rest|
    {
      var i := IndexOf(live, id');
      assert rest[if i < k then i else i - 1].id == id';
    }
  }

  lemma StaysFiled(w: World, hooks: map<HookId, HookEntry>, h: Live, id: HookId)
    requires FiledUnder(w, hooks, h) && h.id != id
    ensures FiledUnder(w, hooks - {id}, h)
  {
  }

  /** Patching a window outside the pages. */
  lemma PatchKeeps(w: World, base: Mem, c: Code, book: Book, e: HookEntry, goal: u64)
    requires Kept(w, base, c, book) && e.id !in c.hooks && e.target !in w.refused
    requires |e.original| == PATCH_LEN
    requires forall a :: e.target <= a < e.target + PATCH_LEN ==>
               e.original[a - e.target] == Get(c.mem, a) && !InPages(book.pages, a)
    ensures Kept(w, base, c.Patched(e, goal), book.(live := book.live + [Live(e.id, e.target, goal, e.original)]))
  {
    hide Jump, WriteBytes, IndexOf, Ledger, Filed;
    var h := Live(e.id, e.target, goal, e.original);
    var m' := WriteBytes(c.mem, e.target, Jump(goal));
    WroteBytes(c.mem, e.target, Jump(goal));
    PlaceKeepsLedger(base, c.mem, m', book.live, book.pages, h);
    FileHook(w, c.hooks, book.live, h, e);
    PagesStay(c.mem, m', book.pages, e.target, PATCH_LEN);
  }

  /** A write outside the pages leaves them intact. */
  lemma PagesStay(m: Mem, m': Mem, pages: seq<Page>, target: int, len: nat)
    requires PagesKept(m, pages) && SameOff(m, m', target, target + len)
    requires forall a :: target <= a < target + len ==> !InPages(pages, a)
    ensures PagesKept(m', pages)
  {
    hide Get;
    forall i | 0 <= i < |pages|
      ensures pages[i].Intact(m')
    {
      var p := pages[i];
      forall a | p.at <= a < p.at + PAGE
        ensures Get(m', a) == Get(m, a)
      {
        assert pages[i].Spans(a) && InPages(pages, a);
      }
    }
  }

  /** Writing a new page is not seen outside it. */
  lemma PageKeeps(w: World, base: Mem, c: Code, book: Book, p: Page, target: u64)
    requires Kept(w, base, c, book) && p.Fits() && PageFree(p.at, book, target)
    ensures Kept(w, base, c.(mem := WritePage(c.mem, p)), book.(pages := book.pages + [p]))
  {
    hide Jump, WriteBytes, IndexOf, ByteAt, Get, Filed, Originals, WritePage;
    var m', pages' := WritePage(c.mem, p), book.pages + [p];
    WritePageFits(c.mem, p);
    forall a
      ensures InPages(pages', a) <==> InPages(book.pages, a) || p.Spans(a)
    {
      if InPages(book.pages, a) {
        var i :| 0 <= i < |book.pages| && book.pages[i].Spans(a);
        assert pages'[i].Spans(a);
      }
      if p.Spans(a) {
        assert pages'[|book.pages|].Spans(a);
      }
    }
    hide InPages;
    forall i | 0 <= i < |pages'|
      ensures pages'[i].Fits() && pages'[i].Intact(m')
    {
      if i < |book.pages| {
        var q := book.pages[i];
        assert q.at + PAGE <= p.at || p.at + PAGE <= q.at;
        Untouched(c.mem, m', p.at, p.at + PAGE, q.at, q.at + PAGE);
      }
    }
  }

  lemma AttachKeepsBook(w: World, base: Mem, c: Code, book: Book,
      target: u64, code: seq<u8>, page: Option<PageAddr>, wantLeave: bool, replaceMode: bool)
    requires var op := Attach(target, code, page, wantLeave, replaceMode); Kept(w, base, c, book) && Proper(c, book, op)
    ensures var op := Attach(target, code, page, wantLeave, replaceMode);
      Kept(w, base, Do(w, c, op), BookAfter(w, c, book, op))
  {
    hide Filed, Ledger, PagesKept, PageFor, WritePage, Jump, WriteBytes, InPages, Get;
    if page.Some? && |code| >= PATCH_LEN {
      var p := PageFor(w, c.nextId, target, code, page.value, wantLeave || replaceMode, replaceMode);
      PageKeeps(w, base, c, book, p, target);
      if target !in w.refused {
        WindowAfterPage(c.mem, book.pages, p, target);
        var c2 := c.(nextId := Wrap32(c.nextId + 1), mem := WritePage(c.mem, p));
        PatchKeeps(w, base, c2, book.(pages := book.pages + [p]),
                   HookEntry(c.nextId, target, p.at, if wantLeave || replaceMode then p.at + LEAVE_OFF else 0,
                             code[..PATCH_LEN]), p.at);
      }
    }
  }

  lemma WindowAfterPage(m: Mem, pages: seq<Page>, p: Page, target: u64)
    requires p.Fits() && (target + PATCH_LEN <= p.at || p.at + PAGE <= target)
    requires forall a :: target <= a < target + PATCH_LEN ==> !InPages(pages, a)
    ensures forall a :: target <= a < target + PATCH_LEN ==>
              !InPages(pages + [p], a) && Get(WritePage(m, p), a) == Get(m, a)
  {
    hide Get, WritePage;
    WritePageFits(m, p);
    forall a | target <= a < target + PATCH_LEN
      ensures !InPages(pages + [p], a)
    {
      forall i | 0 <= i < |pages|
        ensures !pages[i].Spans(a)
      {
        assert !InPages(pages, a);
      }
    }
  }

  lemma RemoveKeepsBook(w: World, base: Mem, c: Code, book: Book, id: HookId)
    requires Kept(w, base, c, book) && Proper(c, book, Remove(id))
    ensures Kept(w, base, Detached(w, c, id).0, book.(live := Drop(book.live, id)))
  {
    hide Jump, WriteBytes, ByteAt, Get, InPages;
    var k := IndexOf(book.live, id);
    if id in c.hooks {
      var h := book.live[k];
      assert FiledUnder(w, c.hooks, h);
      assert SavedBelow(base, book.live[..k], h);
      var m' := WriteBytes(c.mem, h.target, h.original);
      WroteBytes(c.mem, h.target, h.original);
      RestoreKeepsLedger(base, c.mem, m', book.live, book.pages, k);
      UnfileHook(w, c.hooks, book.live, id);
      forall a | h.target <= a < h.target + PATCH_LEN
        ensures !InPages(book.pages, a)
      {
        assert h.Covers(a);
      }
      PagesStay(c.mem, m', book.pages, h.target, PATCH_LEN);
    }
  }

  /** One operation keeps the book. */
  lemma OpKeepsBook(w: World, base: Mem, c: Code, book: Book, op: Op)
    requires Kept(w, base, c, book) && Proper(c, book, op)
    ensures Kept(w, base, Do(w, c, op), BookAfter(w, c, book, op))
  {
    match op
    case Attach(target, code, page, wantLeave, replaceMode) =>
      AttachKeepsBook(w, base, c, book, target, code, page, wantLeave, replaceMode);
    case Replace(target, code, replacement) =>
      if |code| >= PATCH_LEN && target !in w.refused {
        PatchKeeps(w, base, c, book, HookEntry(c.nextId, target, 0, 0, code[..PATCH_LEN]), replacement);
      }
    case Remove(id) => RemoveKeepsBook(w, base, c, book, id);
  }

  function RunOps(w: World, c: Code, ops: seq<Op>): Code
    decreases |ops|
  {
    if ops == [] then c else RunOps(w, Do(w, c, ops[0]), ops[1..])
  }

  function BookOf(w: World, c: Code, book: Book, ops: seq<Op>): Book
    decreases |ops|
  {
    if ops == [] then book else BookOf(w, Do(w, c, ops[0]), BookAfter(w, c, book, ops[0]), ops[1..])
  }

  ghost predicate ProperRun(w: World, c: Code, book: Book, ops: seq<Op>)
    decreases |ops|
  {
    ops == [] || (Proper(c, book, ops[0]) && ProperRun(w, Do(w, c, ops[0]), BookAfter(w, c, book, ops[0]), ops[1..]))
  }

  /**
   * Every run keeps the book: outside the scratch pages, memory is the image from before the run with
   * the live hooks' jumps over it, and every page still holds what was copied into it.
   */
  lemma {:induction false} EveryRunKeepsBook(w: World, base: Mem, c: Code, book: Book, ops: seq<Op>)
    requires Kept(w, base, c, book) && ProperRun(w, c, book, ops)
    ensures Kept(w, base, RunOps(w, c, ops), BookOf(w, c, book, ops))
    decreases |ops|
  {
    hide Kept, Proper, Do, BookAfter;
    if ops != [] {
      OpKeepsBook(w, base, c, book, ops[0]);
      EveryRunKeepsBook(w, base, Do(w, c, ops[0]), BookAfter(w, c, book, ops[0]), ops[1..]);
    }
  }

  // ---------- detaching everything ----------

  /** Position `p` of `order` detaches hook `k`, which lies over `a`, and no later one does. */
  ghost predicate LastAt(live: seq<Live>, order: seq<HookId>, a: int, k: int, p: int) {
    && 0 <= k < |live| && live[k].Covers(a) && 0 <= p < |order| && order[p] == live[k].id
    && forall q, j :: p < q < |order| && 0 <= j < |live| && order[q] == live[j].id ==> !live[j].Covers(a)
  }

  /** Of the hooks over `a`, hook `k` is the last to be detached. */
  ghost predicate LastOver(live: seq<Live>, order: seq<HookId>, a: int, k: int) {
    0 <= k < |live| && live[k].Covers(a) && exists p :: LastAt(live, order, a, k, p)
  }

  /** The byte at `a` once `order` is detached: what the last hook over `a` had saved. */
  function ByteLeft(base: Mem, live: seq<Live>, order: seq<HookId>, a: int): u8
    decreases |order|
  {
    if order == [] then ByteAt(base, live, a)
    else
      var k := IndexOf(live, order[|order| - 1]);
      if k < |live| && live[k].Covers(a) then ByteAt(base, live[..k], a)
      else ByteLeft(base, live, order[..|order| - 1], a)
  }

  /** Hooks that are yet to be detached keep their entries. */
  lemma {:induction false} EntriesKept(w: World, c: Code, ids: seq<HookId>, id: HookId)
    requires id !in ids
    ensures id in DetachedAll(w, c, ids).hooks <==> id in c.hooks
    ensures id in c.hooks ==> DetachedAll(w, c, ids).hooks[id] == c.hooks[id]
    decreases |ids|
  {
    hide WriteBytes;
    if ids != [] {
      EntriesKept(w, c, ids[..|ids| - 1], id);
    }
  }

  lemma {:induction false} NoneLeft(w: World, c: Code, ids: seq<HookId>, id: HookId)
    requires id in ids
    ensures id !in DetachedAll(w, c, ids).hooks
    decreases |ids|
  {
    hide WriteBytes;
    if id in ids[..|ids| - 1] {
      NoneLeft(w, c, ids[..|ids| - 1], id);
    } else {
      assert id == ids[|ids| - 1];
    }
  }

  /** Detaching writes back what was saved, one hook after the other. */
  lemma {:induction false} DetachedByte(w: World, base: Mem, c: Code, book: Book, ids: seq<HookId>, a: int)
    requires Kept(w, base, c, book) && !InPages(book.pages, a)
    requires forall i, j :: 0 <= i < j < |ids| ==> ids[i] != ids[j]
    requires forall id :: id in ids ==> id in c.hooks
    ensures Get(DetachedAll(w, c, ids).mem, a) == ByteLeft(base, book.live, ids, a)
    decreases |ids|
  {
    hide InPages, WriteBytes, ByteAt, Get, PagesKept;
    if ids != [] {
      var rest, id := ids[..|ids| - 1], ids[|ids| - 1];
      DetachedByte(w, base, c, book, rest, a);
      EntriesKept(w, c, rest, id);
      var k := IndexOf(book.live, id);
      assert FiledUnder(w, c.hooks, book.live[k]);
      assert SavedBelow(base, book.live[..k], book.live[k]);
      RestoredByte(DetachedAll(w, c, rest).mem, book.live[k], a);
    }
  }

  lemma RestoredByte(m: Mem, h: Live, a: int)
    requires |h.original| == PATCH_LEN
    ensures Get(WriteBytes(m, h.target, h.original), a) == if h.Covers(a) then h.original[a - h.target] else Get(m, a)
  {
    hide Get, WriteBytes;
    WroteBytes(m, h.target, h.original);
  }

  /** Which hook that is. */
  lemma {:induction false} LeftByLast(base: Mem, live: seq<Live>, order: seq<HookId>, a: int)
    requires forall j, k :: 0 <= j < k < |live| ==> live[j].id != live[k].id
    ensures forall k :: LastOver(live, order, a, k) ==> ByteLeft(base, live, order, a) == ByteAt(base, live[..k], a)
    ensures (forall k :: !LastOver(live, order, a, k)) ==> ByteLeft(base, live, order, a) == ByteAt(base, live, a)
    decreases |order|
  {
    hide ByteAt;
    if order != [] {
      var n := |order| - 1;
      var rest, top := order[..n], IndexOf(live, order[n]);
      LeftByLast(base, live, rest, a);
      if top < |live| && live[top].Covers(a) {
        assert LastAt(live, order, a, top, n);
        forall k | LastOver(live, order, a, k)
          ensures k == top
        {
          LastIsTop(live, order, a, k, top);
        }
      } else {
        forall k
          ensures LastOver(live, order, a, k) <==> LastOver(live, rest, a, k)
        {
          LastBelowTop(live, order, a, k);
        }
      }
    }
  }

  lemma LastIsTop(live: seq<Live>, order: seq<HookId>, a: int, k: int, top: int)
    requires order != [] && 0 <= top < |live| && live[top].id == order[|order| - 1] && live[top].Covers(a)
    requires forall i, j :: 0 <= i < j < |live| ==> live[i].id != live[j].id
    requires LastOver(live, order, a, k)
    ensures k == top
  {
    var p :| LastAt(live, order, a, k, p);
    assert p == |order| - 1;
  }

  lemma LastBelowTop(live: seq<Live>, order: seq<HookId>, a: int, k: int)
    requires order != [] && (forall i, j :: 0 <= i < j < |live| ==> live[i].id != live[j].id)
    requires var top := IndexOf(live, order[|order| - 1]); top < |live| ==> !live[top].Covers(a)
    ensures LastOver(live, order, a, k) <==> LastOver(live, order[..|order| - 1], a, k)
  {
    hide LastAt;
    var rest := order[..|order| - 1];
    if LastOver(live, order, a, k) {
      var p :| LastAt(live, order, a, k, p);
      StillLast(live, order, a, k, p);
    }
    if LastOver(live, rest, a, k) {
      var p :| LastAt(live, rest, a, k, p);
      WasLast(live, order, a, k, p);
    }
  }

  lemma StillLast(live: seq<Live>, order: seq<HookId>, a: int, k: int, p: int)
    requires order != [] && LastAt(live, order, a, k, p)
    requires forall i, j :: 0 <= i < j < |live| ==> live[i].id != live[j].id
    requires var top := IndexOf(live, order[|order| - 1]); top < |live| ==> !live[top].Covers(a)
    ensures LastAt(live, order[..|order| - 1], a, k, p)
  {
    assert p != |order| - 1;
  }

  lemma WasLast(live: seq<Live>, order: seq<HookId>, a: int, k: int, p: int)
    requires order != [] && LastAt(live, order[..|order| - 1], a, k, p)
    requires forall i, j :: 0 <= i < j < |live| ==> live[i].id != live[j].id
    requires var top := IndexOf(live, order[|order| - 1]); top < |live| ==> !live[top].Covers(a)
    ensures LastAt(live, order, a, k, p)
  {
    hide IndexOf;
    var n := |order| - 1;
    assert order[..n][p] == order[p];
    forall q, j | p < q < |order| && 0 <= j < |live| && order[q] == live[j].id
      ensures !live[j].Covers(a)
    {
      if q < n {
        assert order[..n][q] == order[q];
      } else {
        OnlyIndex(live, order[n], j);
      }
    }
  }

  lemma OnlyIndex(live: seq<Live>, id: HookId, j: nat)
    requires j < |live| && live[j].id == id && forall i, j :: 0 <= i < j < |live| ==> live[i].id != live[j].id
    ensures IndexOf(live, id) == j
  {
    hide IndexOf;
  }

  /** Where no hook lies, the image shows. */
  lemma {:induction false} NoneOver(base: Mem, live: seq<Live>, a: int)
    requires forall j :: 0 <= j < |live| ==> !live[j].Covers(a)
    ensures ByteAt(base, live, a) == Get(base, a)
    decreases |live|
  {
    hide Get;
    if live != [] {
      NoneOver(base, live[..|live| - 1], a);
    }
  }

  /** When every hook is detached, one of those over `a` is the last. */
  lemma SomeLast(live: seq<Live>, order: seq<HookId>, a: int, j: nat)
    requires j < |live| && live[j].Covers(a) && forall i :: 0 <= i < |live| ==> live[i].id in order
    ensures exists k :: LastOver(live, order, a, k)
  {
    var p: nat :| p < |order| && order[p] == live[j].id;
    LastFrom(live, order, a, j, p);
  }

  lemma {:induction false} LastFrom(live: seq<Live>, order: seq<HookId>, a: int, k: nat, p: nat)
    requires k < |live| && live[k].Covers(a) && p < |order| && order[p] == live[k].id
    ensures exists k' :: LastOver(live, order, a, k')
    decreases |order| - p
  {
    if q: nat, j: nat :| p < q < |order| && j < |live| && order[q] == live[j].id && live[j].Covers(a) {
      LastFrom(live, order, a, j, q);
    } else {
      assert LastAt(live, order, a, k, p);
      assert LastOver(live, order, a, k);
    }
  }

  /**
   * Detaching every hook, in any order: no hook is left, and where hooks lay, the byte is the one that
   * lay below the last to go. So the image is back if and only if, at every address, what lay below that
   * hook was the image.
   */
  lemma DetachAllRestores(w: World, base: Mem, c: Code, book: Book, order: seq<HookId>)
    requires Kept(w, base, c, book) && Lists(order, c)
    ensures var d := DetachedAll(w, c, order);
      && d.hooks == map[]
      && (forall a :: !InPages(book.pages, a) ==> Get(d.mem, a) == ByteLeft(base, book.live, order, a))
      && ((forall a :: !InPages(book.pages, a) ==> Get(d.mem, a) == Get(base, a))
          <==> (forall a, k :: LastOver(book.live, order, a, k) ==> ByteAt(base, book.live[..k], a) == Get(base, a)))
  {
    hide InPages, Get, ByteAt, Ledger, PagesKept, ByteLeft, Detached, DetachedAll;
    var d, live := DetachedAll(w, c, order), book.live;
    forall id
      ensures id !in d.hooks
    {
      if id in c.hooks {
        NoneLeft(w, c, order, id);
      } else {
        EntriesKept(w, c, order, id);
      }
    }
    assert d.hooks == map[];
    forall a | !InPages(book.pages, a)
      ensures Get(d.mem, a) == ByteLeft(base, live, order, a)
    {
      DetachedByte(w, base, c, book, order, a);
    }
    LeavesImageIff(w, base, c, book, order);
  }

  lemma LeavesImageIff(w: World, base: Mem, c: Code, book: Book, order: seq<HookId>)
    requires Kept(w, base, c, book) && Lists(order, c)
    ensures (forall a :: !InPages(book.pages, a) ==> ByteLeft(base, book.live, order, a) == Get(base, a))
       <==> (forall a, k :: LastOver(book.live, order, a, k) ==> ByteAt(base, book.live[..k], a) == Get(base, a))
  {
    hide InPages, Get, ByteAt, PagesKept, ByteLeft, LastAt, Originals;
    var live := book.live;
    forall a, k | LastOver(live, order, a, k)
      ensures !InPages(book.pages, a) && ByteLeft(base, live, order, a) == ByteAt(base, live[..k], a)
    {
      LeftByLast(base, live, order, a);
    }
    forall a | forall k :: !LastOver(live, order, a, k)
      ensures ByteLeft(base, live, order, a) == Get(base, a)
    {
      LeftByLast(base, live, order, a);
      forall j | 0 <= j < |live|
        ensures !live[j].Covers(a)
      {
        if live[j].Covers(a) {
          EveryListed(w, c, live, order);
          SomeLast(live, order, a, j);
        }
      }
      NoneOver(base, live, a);
    }
  }

  lemma EveryListed(w: World, c: Code, live: seq<Live>, order: seq<HookId>)
    requires Filed(w, c.hooks, live) && Lists(order, c)
    ensures forall i :: 0 <= i < |live| ==> live[i].id in order
  {
    forall i | 0 <= i < |live|
      ensures live[i].id in order
    {
      assert FiledUnder(w, c.hooks, live[i]);
    }
  }

  /** Over each address, the hook that was placed first is detached last. */
  ghost predicate FirstIsLast(live: seq<Live>, order: seq<HookId>) {
    forall a, j, k :: LastOver(live, order, a, k) && 0 <= j < k ==> !live[j].Covers(a)
  }

  /** Of two overlapping hooks, the one placed later is detached first; so it is with disjoint hooks in any order. */
  ghost predicate NewestFirst(live: seq<Live>, order: seq<HookId>) {
    forall j, k, p, q ::
      (0 <= j < k < |live| && 0 <= p < |order| && 0 <= q < |order|
       && Overlap(live[j], live[k]) && order[p] == live[k].id && order[q] == live[j].id) ==> p < q
  }

  lemma NewestFirstIsLast(live: seq<Live>, order: seq<HookId>)
    requires NewestFirst(live, order) && forall i :: 0 <= i < |live| ==> live[i].id in order
    ensures FirstIsLast(live, order)
  {
    hide LastAt, NewestFirst;
    forall a, j, k | LastOver(live, order, a, k) && 0 <= j < k
      ensures !live[j].Covers(a)
    {
      var p :| LastAt(live, order, a, k, p);
      OlderIsBelow(live, order, a, j, k, p);
    }
  }

  lemma OlderIsBelow(live: seq<Live>, order: seq<HookId>, a: int, j: int, k: int, p: int)
    requires NewestFirst(live, order) && LastAt(live, order, a, k, p) && 0 <= j < k && live[j].id in order
    ensures !live[j].Covers(a)
  {
    var q: nat :| q < |order| && order[q] == live[j].id;
    assert live[j].Covers(a) ==> Overlap(live[j], live[k]);
  }

  /** Detached first placed last, and in particular newest first, the hooks leave the image. */
  lemma FirstIsLastRestores(w: World, base: Mem, c: Code, book: Book, order: seq<HookId>)
    requires Kept(w, base, c, book) && Lists(order, c)
    requires NewestFirst(book.live, order) || FirstIsLast(book.live, order)
    ensures forall a :: !InPages(book.pages, a) ==> Get(DetachedAll(w, c, order).mem, a) == Get(base, a)
  {
    hide InPages, Get, ByteAt, Originals, PagesKept, ByteLeft, DetachedAll, NewestFirst, LastAt;
    var live := book.live;
    EveryListed(w, c, live, order);
    if NewestFirst(live, order) {
      NewestFirstIsLast(live, order);
    }
    forall a, k | LastOver(live, order, a, k)
      ensures ByteAt(base, live[..k], a) == Get(base, a)
    {
      NoneOver(base, live[..k], a);
    }
    DetachAllRestores(w, base, c, book, order);
  }

  // ---------- detaching in whatever order the registry picks ----------

  /** Where hook `h` lies, it saved what the image had there. */
  ghost predicate SavedImage(base: Mem, h: Live) {
    |h.original| == PATCH_LEN && forall a :: h.Covers(a) ==> h.original[a - h.target] == Get(base, a)
  }

  function Ids(live: seq<Live>): (ids: seq<HookId>)
    ensures |ids| == |live| && forall i :: 0 <= i < |live| ==> ids[i] == live[i].id
  {
    if live == [] then [] else Ids(live[..|live| - 1]) + [live[|live| - 1].id]
  }

  /** The ids of the live hooks, that of hook `k` last. */
  function EndingWith(live: seq<Live>, k: nat): (ids: seq<HookId>)
    requires k < |live|
    ensures |ids| == |live| && ids[|ids| - 1] == live[k].id
    ensures forall i :: 0 <= i < |live| ==> ids[i] == live[FromPlace(|live|, k, i)].id
  {
    Ids(live[..k]) + Ids(live[k + 1..]) + [live[k].id]
  }

  /** Which hook is at place `i` of that list, and where hook `j` is in it. */
  function FromPlace(n: nat, k: nat, i: nat): (j: nat)
    requires k < n && i < n
    ensures j < n && ToPlace(n, k, j) == i
  {
    if i < k then i else if i < n - 1 then i + 1 else k
  }

  function ToPlace(n: nat, k: nat, j: nat): nat
    requires k < n && j < n
  {
    if j < k then j else if j == k then n - 1 else j - 1
  }

  lemma EndingWithLists(w: World, c: Code, live: seq<Live>, k: nat)
    requires Filed(w, c.hooks, live) && k < |live|
    ensures Lists(EndingWith(live, k), c)
  {
    hide EndingWith, IndexOf;
    var n, ids := |live|, EndingWith(live, k);
    forall id
      ensures id in ids <==> id in c.hooks
    {
      if id in c.hooks {
        var j := IndexOf(live, id);
        assert FromPlace(n, k, ToPlace(n, k, j)) == j && ids[ToPlace(n, k, j)] == id;
      }
      if id in ids {
        var i :| 0 <= i < n && ids[i] == id;
        assert FiledUnder(w, c.hooks, live[FromPlace(n, k, i)]);
      }
    }
    forall i, j | 0 <= i < j < n
      ensures ids[i] != ids[j]
    {
      hide Filed;
      DistinctIds(live, FromPlace(n, k, i), FromPlace(n, k, j), w, c);
    }
  }

  lemma DistinctIds(live: seq<Live>, i: nat, j: nat, w: World, c: Code)
    requires Filed(w, c.hooks, live) && i < |live| && j < |live| && i != j
    ensures live[i].id != live[j].id
  {
    hide IndexOf;
    if i < j {
      assert live[i].id != live[j].id;
    } else {
      assert live[j].id != live[i].id;
    }
  }

  /** The hook that goes last leaves what it saved. */
  lemma LastLeaves(w: World, base: Mem, c: Code, book: Book, k: nat, a: int)
    requires Kept(w, base, c, book) && k < |book.live| && book.live[k].Covers(a)
    ensures Lists(EndingWith(book.live, k), c) && !InPages(book.pages, a)
    ensures Get(DetachedAll(w, c, EndingWith(book.live, k)).mem, a) == book.live[k].original[a - book.live[k].target]
  {
    hide InPages, Get, ByteAt, PagesKept, DetachedAll, ByteLeft, LastOver;
    var order := EndingWith(book.live, k);
    EndingWithLists(w, c, book.live, k);
    DetachAllRestores(w, base, c, book, order);
    OnlyIndex(book.live, book.live[k].id, k);
    assert SavedBelow(base, book.live[..k], book.live[k]);
    LastByte(base, book.live, order, a, k);
  }

  lemma LastByte(base: Mem, live: seq<Live>, order: seq<HookId>, a: int, k: nat)
    requires k < |live| && live[k].Covers(a) && order != [] && IndexOf(live, order[|order| - 1]) == k
    ensures ByteLeft(base, live, order, a) == ByteAt(base, live[..k], a)
  {
    hide IndexOf, ByteAt;
  }

  /**
   * The registry goes through its hooks in an order of its own. Detaching all of them leaves the image in
   * every order if and only if every hook had saved the image: no hook was placed over another, or those
   * that were found the bytes that they replaced.
   */
  lemma DetachAllRestoresAlways(w: World, base: Mem, c: Code, book: Book)
    requires Kept(w, base, c, book)
    ensures (forall order, a ::
               Lists(order, c) && !InPages(book.pages, a) ==> Get(DetachedAll(w, c, order).mem, a) == Get(base, a))
       <==> (forall k :: 0 <= k < |book.live| ==> SavedImage(base, book.live[k]))
  {
    hide InPages, Get, ByteAt, Kept, DetachedAll, Lists, SavedImage;
    if forall order, a ::
         Lists(order, c) && !InPages(book.pages, a) ==> Get(DetachedAll(w, c, order).mem, a) == Get(base, a)
    {
      forall k | 0 <= k < |book.live|
        ensures SavedImage(base, book.live[k])
      {
        LeavesWhatItSaved(w, base, c, book, k);
      }
    }
    if forall k :: 0 <= k < |book.live| ==> SavedImage(base, book.live[k]) {
      forall order | Lists(order, c)
        ensures forall a :: !InPages(book.pages, a) ==> Get(DetachedAll(w, c, order).mem, a) == Get(base, a)
      {
        SavedImagesRestore(w, base, c, book, order);
      }
    }
  }

  lemma LeavesWhatItSaved(w: World, base: Mem, c: Code, book: Book, k: nat)
    requires Kept(w, base, c, book) && k < |book.live|
    requires forall order, a ::
      Lists(order, c) && !InPages(book.pages, a) ==> Get(DetachedAll(w, c, order).mem, a) == Get(base, a)
    ensures SavedImage(base, book.live[k])
  {
    hide InPages, Get, ByteAt, PagesKept, DetachedAll, Lists, Filed;
    assert SavedBelow(base, book.live[..k], book.live[k]);
    forall a | book.live[k].Covers(a)
      ensures book.live[k].original[a - book.live[k].target] == Get(base, a)
    {
      LastLeaves(w, base, c, book, k, a);
    }
  }

  lemma SavedImagesRestore(w: World, base: Mem, c: Code, book: Book, order: seq<HookId>)
    requires Kept(w, base, c, book) && Lists(order, c)
    requires forall k :: 0 <= k < |book.live| ==> SavedImage(base, book.live[k])
    ensures forall a :: !InPages(book.pages, a) ==> Get(DetachedAll(w, c, order).mem, a) == Get(base, a)
  {
    hide InPages, Get, ByteAt, PagesKept, DetachedAll, ByteLeft, Lists, LastAt, Filed;
    var live := book.live;
    forall a, k | LastOver(live, order, a, k)
      ensures ByteAt(base, live[..k], a) == Get(base, a)
    {
      assert SavedImage(base, live[k]) && SavedBelow(base, live[..k], live[k]);
    }
    DetachAllRestores(w, base, c, book, order);
  }

  /** Hooks on disjoint windows may be detached in any order. */
  lemma DisjointHooksDetach(w: World, base: Mem, c: Code, book: Book, order: seq<HookId>)
    requires Kept(w, base, c, book) && Lists(order, c)
    requires forall j, k :: 0 <= j < k < |book.live| ==> !Overlap(book.live[j], book.live[k])
    ensures forall a :: !InPages(book.pages, a) ==> Get(DetachedAll(w, c, order).mem, a) == Get(base, a)
  {
    hide InPages, Get, ByteAt, PagesKept, DetachedAll, ByteLeft, Lists, Filed;
    var live := book.live;
    forall k | 0 <= k < |live|
      ensures SavedImage(base, live[k])
    {
      assert SavedBelow(base, live[..k], live[k]);
      forall a | live[k].Covers(a)
        ensures ByteAt(base, live[..k], a) == Get(base, a)
      {
        assert forall j :: 0 <= j < k && live[j].Covers(a) ==> Overlap(live[j], live[k]);
        NoneOver(base, live[..k], a);
      }
    }
    SavedImagesRestore(w, base, c, book, order);
  }

  /** The window's bytes as a caller reads them. */
  function Window(m: Mem, target: u64): (b: seq<u8>)
    ensures |b| == PATCH_LEN
  {
    seq<u8>(PATCH_LEN, i requires 0 <= i < PATCH_LEN => Get(m, target + i))
  }

  /**
   * Hooks stacked on one function, in whatever way each was placed: when the last to be detached was not
   * the first to be placed, no hook is left, but the jump of the one below it is. So the function is
   * itself again exactly if the first hook went last, or the function began with that very jump.
   */
  lemma StackedHooksDetached(w: World, base: Mem, c: Code, book: Book, order: seq<HookId>, target: u64)
    requires Kept(w, base, c, book) && Lists(order, c) && book.live != []
    requires forall k :: 0 <= k < |book.live| ==> book.live[k].target == target
    ensures order != [] && IndexOf(book.live, order[|order| - 1]) < |book.live|
    ensures DetachedAll(w, c, order).hooks == map[]
    ensures var now, k := DetachedAll(w, c, order).mem, IndexOf(book.live, order[|order| - 1]);
      && Window(now, target) == (if k == 0 then Window(base, target) else Jump(book.live[k - 1].goal))
      && (Window(now, target) == Window(base, target)
          <==> k == 0 || Window(base, target) == Jump(book.live[k - 1].goal))
  {
    hide Get, Jump, PagesKept, DetachedAll, Originals, InPages, ByteLeft, ByteAt, LastOver, Window, Lists, IndexOf;
    LastIsLive(w, base, c, book, order);
    var now, k := DetachedAll(w, c, order).mem, IndexOf(book.live, order[|order| - 1]);
    DetachAllRestores(w, base, c, book, order);
    forall a | target <= a < target + PATCH_LEN
      ensures Get(now, a) == if k == 0 then Get(base, a) else Jump(book.live[k - 1].goal)[a - target]
    {
      assert book.live[k].Covers(a) && !InPages(book.pages, a);
      StackedByte(base, book.live, order, a, target);
    }
    if k == 0 {
      SameWindow(now, base, target);
    } else {
      WindowOf(now, target, Jump(book.live[k - 1].goal));
    }
  }

  lemma SameWindow(m: Mem, n: Mem, target: u64)
    requires forall a :: target <= a < target + PATCH_LEN ==> Get(m, a) == Get(n, a)
    ensures Window(m, target) == Window(n, target)
  {
    hide Get;
  }

  lemma WindowOf(m: Mem, target: u64, b: seq<u8>)
    requires |b| == PATCH_LEN && forall a :: target <= a < target + PATCH_LEN ==> Get(m, a) == b[a - target]
    ensures Window(m, target) == b
  {
    hide Get;
  }

  lemma LastIsLive(w: World, base: Mem, c: Code, book: Book, order: seq<HookId>)
    requires Kept(w, base, c, book) && Lists(order, c) && book.live != []
    ensures order != [] && IndexOf(book.live, order[|order| - 1]) < |book.live|
  {
    hide Get, PagesKept, Originals, InPages;
    EveryListed(w, c, book.live, order);
    assert book.live[0].id in order;
    assert order[|order| - 1] in c.hooks;
  }

  lemma StackedByte(base: Mem, live: seq<Live>, order: seq<HookId>, a: int, target: u64)
    requires order != [] && target <= a < target + PATCH_LEN
    requires forall k :: 0 <= k < |live| ==> live[k].target == target
    requires IndexOf(live, order[|order| - 1]) < |live|
    ensures var k := IndexOf(live, order[|order| - 1]);
      ByteLeft(base, live, order, a) == if k == 0 then Get(base, a) else Jump(live[k - 1].goal)[a - target]
  {
    hide Get, Jump;
    var k := IndexOf(live, order[|order| - 1]);
    assert live[k].Covers(a);
    if k > 0 {
      assert live[..k][|live[..k]| - 1] == live[k - 1] && live[k - 1].Covers(a);
    }
  }

  // ---------- what an installation does to its target ----------

  /**
   * An installation succeeds exactly when a page could be mapped, four whole instructions were given and the
   * target can be written, in this order of complaints; when it fails, no hook is filed and nothing but the
   * page has changed. Either way its id is spent.
   */
  lemma AttachOutcome(w: World, c: Code, target: u64, code: seq<u8>, page: Option<PageAddr>, wantLeave: bool,
                      replaceMode: bool)
    ensures var (d, r) := Attached(w, c, target, code, page, wantLeave, replaceMode);
      && (r.Ok? <==> page.Some? && |code| >= 16 && target !in w.refused)
      && (r == Err(Mmap) <==> page == None)
      && (r == Err(Reloc(TruncatedCode)) <==> page.Some? && |code| < 16)
      && (r == Err(Mprotect) <==> page.Some? && |code| >= 16 && target in w.refused)
      && (r.Ok? ==> r.value == c.nextId && d.hooks.Keys == c.hooks.Keys + {c.nextId})
      && (r.Err? ==> d.hooks == c.hooks)
      && (r.Err? ==> forall a ::
            !(page.Some? && page.value <= a < page.value + PAGE) ==> Get(d.mem, a) == Get(c.mem, a))
      && d.nextId == Wrap32(c.nextId + 1)
  {
    hide WritePage, PageFor, WriteBytes, Get;
    if page.Some? && |code| >= PATCH_LEN {
      WritePageFits(c.mem, PageFor(w, c.nextId, target, code, page.value, wantLeave || replaceMode, replaceMode));
    }
  }

  /** What an installation did, its removal undoes: the registry and all memory but the page are as before. */
  lemma AttachThenDetach(w: World, c: Code, target: u64, code: seq<u8>, page: PageAddr, wantLeave: bool,
                         replaceMode: bool)
    requires |code| >= PATCH_LEN && target !in w.refused && c.nextId !in c.hooks
    requires forall a :: target <= a < target + PATCH_LEN ==> code[a - target] == Get(c.mem, a)
    requires target + PATCH_LEN <= page || page + PAGE <= target
    ensures var d := Attached(w, c, target, code, Some(page), wantLeave, replaceMode).0;
      var (x, r) := Detached(w, d, c.nextId);
      && r == Ok(()) && x.hooks == c.hooks && x.nextId == d.nextId
      && forall a :: !(page <= a < page + PAGE) ==> Get(x.mem, a) == Get(c.mem, a)
  {
    hide WritePage, PageFor, WriteBytes, Get, Jump;
    var p := PageFor(w, c.nextId, target, code, page, wantLeave || replaceMode, replaceMode);
    WritePageFits(c.mem, p);
    var m := WritePage(c.mem, p);
    WroteBytes(m, target, Jump(page));
    WroteBytes(WriteBytes(m, target, Jump(page)), target, code[..PATCH_LEN]);
  }

  /** A function that was replaced by a bare pointer: a call of it arrives at the replacement, through X17 only. */
  lemma ReplacementRuns(other: Uninterpreted, w: World, c: Code, target: u64, code: seq<u8>, replacement: u64, s: State)
    requires |code| >= PATCH_LEN && target !in w.refused && target + PATCH_LEN < P64
    requires s.pc == target && s.c.mem == Replaced(w, c, target, code, replacement).0.mem
    ensures Run(other, s, 2) == State(s.c.(x := s.c.x[17 := replacement]), replacement)
  {
    hide WriteBytes, EncodeAbsBranch, Run, Get;
    WroteBytes(c.mem, target, Jump(replacement));
    LyingCodeHolds(s.c.mem, target, EncodeAbsBranch(replacement));
    AbsBranchRuns(other, s, replacement);
  }

  /** It does so exactly when there are sixteen bytes to save and the target can be written; nothing else changes. */
  lemma ReplaceOutcome(w: World, c: Code, target: u64, code: seq<u8>, replacement: u64)
    ensures var (d, r) := Replaced(w, c, target, code, replacement);
      && (r.Ok? <==> |code| >= 16 && target !in w.refused)
      && (r == Err(TooShort) <==> |code| < 16)
      && (r.Err? ==> d.hooks == c.hooks && d.mem == c.mem)
      && (r.Ok? ==> r.value == c.nextId && d.hooks.Keys == c.hooks.Keys + {c.nextId})
      && (forall a :: !(target <= a < target + 16) ==> Get(d.mem, a) == Get(c.mem, a))
  {
    hide WriteBytes, Get, Jump;
    WroteBytes(c.mem, target, Jump(replacement));
  }

  // ---------- the dispatchers' view of the registry ----------

  /** The patcher and the dispatchers look at one table: each at its own fields, both at the leave thunk's address. */
  ghost predicate OneTable(entries: map<HookId, HookEntry>, hooks: Hooks) {
    entries.Keys == hooks.Keys && forall id :: id in entries ==> entries[id].leaveThunk == hooks[id].leaveThunk
  }

  /**
   * An installation files its entry for both, under the same id, and calls are redirected if and only if
   * somebody wants to see them return; one that fails files nothing.
   */
  lemma AttachKeepsTable(w: World, c: Code, target: u64, code: seq<u8>, page: Option<PageAddr>, replaceMode: bool,
                         onEnter: Option<Callback>, onLeave: Option<Callback>, s: DispatchRuns.Sys)
    requires OneTable(c.hooks, s.hooks) && c.nextId == s.nextId
    ensures var (d, r) := Attached(w, c, target, code, page, onLeave.Some?, replaceMode);
      if r.Err? then OneTable(d.hooks, s.hooks)
      else
        var filed := DispatchRuns.Attach(d.hooks[c.nextId].leaveThunk, replaceMode, onEnter, onLeave);
        var s' := DispatchRuns.Next(s, filed);
        && OneTable(d.hooks, s'.hooks) && d.nextId == s'.nextId
        && (Redirects(s'.hooks, c.nextId) <==> onLeave.Some? || replaceMode)
  {
    hide WriteBytes, PageFor, WritePage;
  }

  /** A removal takes the entry from both, and no dispatch changes what the patcher sees. */
  lemma RunKeepsTable(w: World, c: Code, s: DispatchRuns.Sys, a: DispatchRuns.Action)
    requires OneTable(c.hooks, s.hooks) && !a.Attach?
    requires a.EnterDone? || a.Return? || a.LeaveDone? ==> DispatchRuns.Frames(s, a.tid) != []
    ensures OneTable(if a.Detach? then Detached(w, c, a.id).0.hooks else c.hooks, DispatchRuns.Next(s, a).hooks)
  {
    hide WriteBytes;
  }

  // ---------- what the page means to the machine ----------

  lemma LyingCodeHolds(m: Mem, a: int, ws: seq<u32>)
    requires Lies(m, a, Bytes(ws))
    ensures Holds(m, a, ws)
  {
    hide Bytes, Get;
    CopiedCodeHolds(m, a, ws);
  }

  lemma EnterThunkLies(w: World, m: Mem, id: HookId, page: PageAddr, replaceMode: bool)
    requires Lies(m, page, Bytes(EnterThunk(id, w.enter, page + RELOC_OFF, replaceMode)))
    ensures ThunkIn(m, page, id, w.enter, if replaceMode then [RET_X30] else EncodeAbsBranch(page + RELOC_OFF))
  {
    hide SpillAndCall, Restore, Lies, Holds, Bytes;
    LyingCodeHolds(m, page, EnterThunk(id, w.enter, page + RELOC_OFF, replaceMode));
  }

  lemma LeaveThunkLies(w: World, m: Mem, id: HookId, at: int)
    requires Lies(m, at, Bytes(LeaveThunk(id, w.leave)))
    ensures ThunkIn(m, at, id, w.leave, [RET_X30])
  {
    hide SpillAndCall, Restore, Lies, Holds, Bytes;
    LyingCodeHolds(m, at, LeaveThunk(id, w.leave));
  }

  lemma PageAligned(page: PageAddr)
    ensures page % 4 == 0
  {
    assert page == 4 * (PAGE / 4 * (page / PAGE));
  }

  lemma PageParts(w: World, id: HookId, target: u64, code: seq<u8>, page: PageAddr, needLeave: bool, replaceMode: bool)
    requires |code| >= PATCH_LEN
    ensures var p := PageFor(w, id, target, code, page, needLeave, replaceMode);
      && p.enter == Bytes(EnterThunk(id, w.enter, page + RELOC_OFF, replaceMode))
      && (needLeave ==> p.leave == Bytes(LeaveThunk(id, w.leave)))
      && p.block == Bytes(BlockWords(DecodePrefix(target, code, MIN_PATCH_INSNS), Wrap(target + PATCH_LEN),
                                     page + RELOC_OFF))
  {
    hide EnterThunk, LeaveThunk, BlockWords, DecodePrefix, Bytes;
  }

  /** An intact page holds the thunks that its hook needs and its relocated block as machine code. */
  lemma IntactPageServes(w: World, m: Mem, id: HookId, target: u64, code: seq<u8>, page: PageAddr, needLeave: bool,
                         replaceMode: bool)
    requires |code| >= PATCH_LEN && PageFor(w, id, target, code, page, needLeave, replaceMode).Intact(m)
    ensures var h := Hook(id, w.enter, w.leave, replaceMode, page);
      h.Valid() && EnterIn(h, m) && (needLeave ==> LeaveIn(h, m))
    ensures Holds(m, page + RELOC_OFF, BlockWords(DecodePrefix(target, code, MIN_PATCH_INSNS),
                                                  Wrap(target + PATCH_LEN), page + RELOC_OFF))
  {
    hide EnterThunk, LeaveThunk, BlockWords, DecodePrefix, Lies, Holds, Bytes, ThunkIn, PageFor, EncodeAbsBranch;
    PageParts(w, id, target, code, page, needLeave, replaceMode);
    PageAligned(page);
    EnterThunkLies(w, m, id, page, replaceMode);
    if needLeave {
      LeaveThunkLies(w, m, id, page + LEAVE_OFF);
    }
    LyingCodeHolds(m, page + RELOC_OFF,
      BlockWords(DecodePrefix(target, code, MIN_PATCH_INSNS), Wrap(target + PATCH_LEN), page + RELOC_OFF));
  }

  /** The block of an intact page is the relocated form of what `code` was read from. */
  lemma IntactPageInstallsBlock(e: Env, w: World, before: Mem, m: Mem, id: HookId, code: seq<u8>, page: PageAddr,
                                needLeave: bool, replaceMode: bool)
    requires e.Valid() && e.lo == page + RELOC_OFF && |code| >= PATCH_LEN && Lies(before, e.target, code[..PATCH_LEN])
    requires PageFor(w, id, e.target, code, page, needLeave, replaceMode).Intact(m)
    requires e.hi == e.lo + 4 * |BlockWords(DecodePrefix(e.target, code, MIN_PATCH_INSNS), Wrap(e.target + PATCH_LEN),
                                            e.lo)|
    ensures BlockInstalled(e, DecodePrefix(e.target, code, MIN_PATCH_INSNS), before, m)
  {
    hide BlockWords, PageFor, DecodePrefix, Lies, EnterIn, LeaveIn, Holds, DecodeAt, Read32;
    IntactPageServes(w, m, id, e.target, code, page, needLeave, replaceMode);
    forall k | 0 <= k < 4
      ensures DecodePrefix(e.target, code, MIN_PATCH_INSNS)[k]
              == DecodeAt(e.target + 4 * k, Read32(before, e.target + 4 * k))
    {
      LyingInsn(before, e.target, code, k);
    }
  }

  lemma LyingInsn(m: Mem, a: u64, code: seq<u8>, k: nat)
    requires |code| >= PATCH_LEN && k < 4 && Lies(m, a, code[..PATCH_LEN]) && a + 16 < P64
    ensures DecodePrefix(a, code, MIN_PATCH_INSNS)[k] == DecodeAt(a + 4 * k, Read32(m, a + 4 * k))
  {
    hide DecodeAt, Read32, WordAt, Lies;
    LyingWord(m, a, code, k);
    assert Wrap(a + 4 * k) == a + 4 * k;
  }

  lemma LyingWord(m: Mem, a: int, code: seq<u8>, k: nat)
    requires |code| >= PATCH_LEN && k < 4 && Lies(m, a, code[..PATCH_LEN])
    ensures Read32(m, a + 4 * k) == WordAt(code, 4 * k)
  {
    hide Get;
    var head, i := code[..PATCH_LEN], 4 * k;
    assert Get(m, a + i) == head[i] && Get(m, a + (i + 1)) == head[i + 1];
    assert Get(m, a + (i + 2)) == head[i + 2] && Get(m, a + (i + 3)) == head[i + 3];
    assert [Get(m, a + i), Get(m, a + i + 1), Get(m, a + i + 2), Get(m, a + i + 3)] == code[i..i + 4];
  }

  /** The window of the hook placed last shows its jump. */
  lemma TopJumpHolds(base: Mem, m: Mem, live: seq<Live>, pages: seq<Page>, h: Live)
    requires Ledger(base, m, live + [h], pages)
    ensures Holds(m, h.target, EncodeAbsBranch(h.goal))
  {
    hide Get, Bytes, EncodeAbsBranch, InPages, Originals;
    forall i | 0 <= i < PATCH_LEN
      ensures Get(m, h.target + i) == Bytes(EncodeAbsBranch(h.goal))[i]
    {
      assert (live + [h])[|live|].Covers(h.target + i);
      ByteAtTop(base, live, h, h.target + i);
    }
    LyingCodeHolds(m, h.target, EncodeAbsBranch(h.goal));
  }

  /** A function that has just been hooked is patched in the sense in which hooked calls need it. */
  lemma AttachedIsPatched(e: Env, w: World, base: Mem, c: Code, book: Book, code: seq<u8>, page: PageAddr,
                          wantLeave: bool, replaceMode: bool)
    requires 0 <= e.target < P64
    requires Kept(w, base, c, book) && Proper(c, book, Attach(e.target, code, Some(page), wantLeave, replaceMode))
    requires |code| >= PATCH_LEN && e.target !in w.refused
    requires e.Valid() && e.page == page && e.lo == page + RELOC_OFF
    requires e.hi == e.lo + 4 * |BlockWords(DecodePrefix(e.target, code, MIN_PATCH_INSNS), Wrap(e.target + PATCH_LEN),
                                            e.lo)|
    ensures var h := Hook(c.nextId, w.enter, w.leave, replaceMode, page);
      var d := Attached(w, c, e.target, code, Some(page), wantLeave, replaceMode).0;
      && Describes(e, h, DecodePrefix(e.target, code, MIN_PATCH_INSNS))
      && Patched(e, h, DecodePrefix(e.target, code, MIN_PATCH_INSNS), c.mem, d.mem)
      && (wantLeave || replaceMode ==> LeaveIn(h, d.mem))
      && (forall hooks: Hooks :: OneTable(d.hooks, hooks) ==>
            h.id in hooks && hooks[h.id].leaveThunk == if wantLeave || replaceMode then page + LEAVE_OFF else 0)
  {
    hide Filed, Ledger, PagesKept, PageFor, WritePage, WriteBytes, BlockWords, DecodePrefix, Holds, EnterIn, LeaveIn,
         BlockInstalled, Get;
    var needLeave := wantLeave || replaceMode;
    var op := Attach(e.target, code, Some(page), wantLeave, replaceMode);
    AttachKeepsBook(w, base, c, book, e.target, code, Some(page), wantLeave, replaceMode);
    var d, after := Do(w, c, op), BookAfter(w, c, book, op);
    LastPageIntact(d.mem, after.pages);
    TopJumpHolds(base, d.mem, book.live, after.pages, Live(c.nextId, e.target, page, code[..PATCH_LEN]));
    CodeLies(c, book.pages, e.target, code);
    IntactPageServes(w, d.mem, c.nextId, e.target, code, page, needLeave, replaceMode);
    IntactPageInstallsBlock(e, w, c.mem, d.mem, c.nextId, code, page, needLeave, replaceMode);
  }

  lemma LastPageIntact(m: Mem, pages: seq<Page>)
    requires PagesKept(m, pages) && pages != []
    ensures pages[|pages| - 1].Intact(m)
  {}

  lemma CodeLies(c: Code, pages: seq<Page>, target: u64, code: seq<u8>)
    requires Fresh(c, pages, target, code) && |code| >= PATCH_LEN
    ensures Lies(c.mem, target, code[..PATCH_LEN])
  {
    hide Get, InPages;
    forall i | 0 <= i < PATCH_LEN
      ensures Get(c.mem, target + i) == code[i]
    {
      var a: int := target + i;
      assert code[a - target] == Get(c.mem, a);
    }
  }
}
