/**
 * All interleavings of hooked calls: every thread has a stack of hooked calls in progress, and a
 * step is one locked section, a body's return, or the installation or removal of a hook. A hook may
 * be removed at any time, also by a callback and with calls of it in progress.
 */
module DispatchRuns {
  import opened Words
  import opened Options
  import opened Dispatch

  datatype Phase = Entering | Running | Leaving

  /** A hooked call in progress: its caller's link, and the callback it holds while dispatching. */
  datatype Frame = Frame(phase: Phase, id: HookId, link: u64, redirected: bool, cb: Option<Callback>)

  /** The callbacks a hook was installed with. */
  datatype Installed = Installed(onEnter: Option<Callback>, onLeave: Option<Callback>)

  datatype Sys = Sys(hooks: Hooks, nextId: HookId, threads: map<Tid, seq<Frame>>, installed: map<HookId, Installed>)

  function Frames(s: Sys, tid: Tid): seq<Frame> {
    if tid in s.threads then s.threads[tid] else []
  }

  function Top(s: Sys, tid: Tid): Frame
    requires Frames(s, tid) != []
  {
    Frames(s, tid)[|Frames(s, tid)| - 1]
  }

  function Below(s: Sys, tid: Tid): seq<Frame>
    requires Frames(s, tid) != []
  {
    Frames(s, tid)[..|Frames(s, tid)| - 1]
  }

  datatype Action =
    | Attach(leaveThunk: u64, replaceMode: bool, onEnter: Option<Callback>, onLeave: Option<Callback>)
    | Detach(id: HookId)
    | Call(tid: Tid, callee: HookId, link: u64)
    | EnterDone(tid: Tid)
    | Return(tid: Tid)
    | LeaveDone(tid: Tid)

  predicate Outstanding(f: Frame, id: HookId) { f.id == id && f.redirected }

  /** The next id is not in use: ids come round after 2^32 installations. */
  ghost predicate IdFree(s: Sys) {
    && s.nextId !in s.hooks
    && forall tid, i :: 0 <= i < |Frames(s, tid)| && Frames(s, tid)[i].id == s.nextId ==> Idle(Frames(s, tid)[i])
  }

  /** A call that is not redirected and holds no callback. */
  predicate Idle(f: Frame) { !f.redirected && f.cb == None }

  ghost predicate Enabled(s: Sys, a: Action) {
    match a
    case Attach(_, _, _, _) => IdFree(s)
    case Detach(id) => id in s.hooks
    case Call(_, _, _) => true
    case EnterDone(tid) => Frames(s, tid) != [] && Top(s, tid).phase == Entering
    case Return(tid) => Frames(s, tid) != [] && Top(s, tid).phase == Running
    case LeaveDone(tid) => Frames(s, tid) != [] && Top(s, tid).phase == Leaving
  }

  /** The link that the innermost frame of `tid` leaves with when `link` is in the context. */
  function LinkOnLeave(s: Sys, tid: Tid, link: u64): u64
    requires Frames(s, tid) != []
  {
    var f := Top(s, tid);
    LeavePutBack(s.hooks, tid, f.id, f.cb, link).1
  }

  function Next(s: Sys, a: Action): Sys
    requires a.EnterDone? || a.Return? || a.LeaveDone? ==> Frames(s, a.tid) != []
  {
    match a
    case Attach(leaveThunk, replaceMode, onEnter, onLeave) =>
      s.(hooks := s.hooks[s.nextId := Entry(leaveThunk, replaceMode, onEnter, onLeave, map[])],
         installed := s.installed[s.nextId := Installed(onEnter, onLeave)],
         nextId := Wrap32(s.nextId + 1))
    case Detach(id) => s.(hooks := s.hooks - {id})
    case Call(tid, id, link) =>
      var (hooks, cb, link') := EnterTake(s.hooks, tid, id, link);
      var f := Frame(Entering, id, link, Redirects(s.hooks, id), cb);
      s.(hooks := hooks, threads := s.threads[tid := Frames(s, tid) + [f]])
    case EnterDone(tid) =>
      var f := Top(s, tid);
      s.(hooks := EnterPutBack(s.hooks, f.id, f.cb),
         threads := s.threads[tid := Below(s, tid) + [f.(phase := Running, cb := None)]])
    case Return(tid) =>
      var f := Top(s, tid);
      if !f.redirected then s.(threads := s.threads[tid := Below(s, tid)])
      else
        var (hooks, cb) := LeaveTake(s.hooks, f.id);
        s.(hooks := hooks, threads := s.threads[tid := Below(s, tid) + [f.(phase := Leaving, cb := cb)]])
    case LeaveDone(tid) =>
      var f := Top(s, tid);
      s.(hooks := LeavePutBack(s.hooks, tid, f.id, f.cb, 0).0, threads := s.threads[tid := Below(s, tid)])
  }

  const Initial: Sys := Sys(map[], 1, map[], map[])

  /** Every step of `run`, taken from the empty registry, is enabled. */
  ghost predicate ValidRun(run: seq<Action>)
    decreases |run|, 0
  {
    run == [] || (ValidRun(run[..|run| - 1]) && Enabled(After(run[..|run| - 1]), run[|run| - 1]))
  }

  ghost function After(run: seq<Action>): Sys
    requires ValidRun(run)
    decreases |run|, 1
  {
    if run == [] then Initial else Next(After(run[..|run| - 1]), run[|run| - 1])
  }

  // ---------- the invariant ----------

  /** The links of the redirected frames of hook `id`, innermost last. */
  function Pending(frames: seq<Frame>, id: HookId): seq<u64> {
    if frames == [] then []
    else
      var rest := Pending(frames[..|frames| - 1], id);
      var f := frames[|frames| - 1];
      if Outstanding(f, id) then rest + [f.link] else rest
  }

  /** The shadow stacks hold exactly the pending links of their thread. */
  ghost predicate StacksMatch(s: Sys) {
    forall id, tid :: id in s.hooks ==> Saved(s.hooks[id], tid) == Pending(Frames(s, tid), id)
  }

  /** Every hook was installed; a call holds a callback only while it is dispatched, and leaves only if redirected. */
  ghost predicate FramesLive(s: Sys) {
    && (forall id :: id in s.hooks ==> id in s.installed)
    && (forall tid, i :: 0 <= i < |Frames(s, tid)| ==> FrameLive(Frames(s, tid)[i]))
  }

  predicate FrameLive(f: Frame) {
    && (f.cb.Some? ==> f.phase != Running)
    && (f.phase == Leaving ==> f.redirected)
  }

  /** Frame `i` of `tid` holds the callback that `phase` takes out of hook `id`. */
  predicate Holder(s: Sys, id: HookId, phase: Phase, tid: Tid, i: int) {
    && 0 <= i < |Frames(s, tid)|
    && Frames(s, tid)[i].id == id && Frames(s, tid)[i].phase == phase && Frames(s, tid)[i].cb.Some?
  }

  /** The callback `home` is in exactly one place: its slot or one frame. */
  ghost predicate OnePlace(s: Sys, id: HookId, phase: Phase, slot: Option<Callback>, home: Option<Callback>) {
    && (slot.Some? ==> slot == home && forall tid, i :: !Holder(s, id, phase, tid, i))
    && (forall tid, i :: Holder(s, id, phase, tid, i) ==> Frames(s, tid)[i].cb == home)
    && (forall tid, i, tid', i' ::
          Holder(s, id, phase, tid, i) && Holder(s, id, phase, tid', i') ==> tid == tid' && i == i')
    && (slot == None && home.Some? ==> exists tid, i :: Holder(s, id, phase, tid, i))
  }

  ghost predicate Owned(s: Sys) {
    forall id :: id in s.hooks && id in s.installed ==>
      && OnePlace(s, id, Entering, s.hooks[id].onEnter, s.installed[id].onEnter)
      && OnePlace(s, id, Leaving, s.hooks[id].onLeave, s.installed[id].onLeave)
  }

  ghost predicate Inv(s: Sys) { StacksMatch(s) && FramesLive(s) && Owned(s) }

  lemma PendingTop(frames: seq<Frame>, f: Frame, id: HookId)
    ensures Pending(frames + [f], id) == Pending(frames, id) + if Outstanding(f, id) then [f.link] else []
  {
    assert (frames + [f])[..|frames|] == frames;
  }

  lemma EnterTakeSaves(hooks: Hooks, tid: Tid, id: HookId, link: u64, id': HookId, tid': Tid)
    requires id' in hooks
    ensures var h := EnterTake(hooks, tid, id, link).0;
      && id' in h
      && Saved(h[id'], tid')
         == Saved(hooks[id'], tid') + if id' == id && tid' == tid && Redirects(hooks, id) then [link] else []
  {}

  lemma LeavePutBackSaves(hooks: Hooks, tid: Tid, id: HookId, cb: Option<Callback>, link: u64, id': HookId, tid': Tid)
    requires id' in hooks
    ensures var h := LeavePutBack(hooks, tid, id, cb, link).0;
      && id' in h
      && var stack := Saved(hooks[id'], tid');
         Saved(h[id'], tid') == if id' == id && tid' == tid && stack != [] then stack[..|stack| - 1] else stack
  {}

  lemma CallKeepsStacks(s: Sys, a: Action)
    requires a.Call? && StacksMatch(s)
    ensures StacksMatch(Next(s, a))
  {
    var s' := Next(s, a);
    assert s'.hooks.Keys == s.hooks.Keys;
    hide EnterTake, Redirects;
    forall id, tid | id in s'.hooks
      ensures Saved(s'.hooks[id], tid) == Pending(Frames(s', tid), id)
    {
      assert Saved(s.hooks[id], tid) == Pending(Frames(s, tid), id);
      EnterTakeSaves(s.hooks, a.tid, a.callee, a.link, id, tid);
      if tid == a.tid {
        PendingTop(Frames(s, tid), Frames(s', tid)[|Frames(s, tid)|], id);
      }
    }
  }

  lemma EnterDoneKeepsStacks(s: Sys, a: Action)
    requires a.EnterDone? && Enabled(s, a) && StacksMatch(s)
    ensures StacksMatch(Next(s, a))
  {
    var s' := Next(s, a);
    forall id, tid | id in s'.hooks
      ensures Saved(s'.hooks[id], tid) == Pending(Frames(s', tid), id)
    {
      assert Saved(s.hooks[id], tid) == Pending(Frames(s, tid), id);
      if tid == a.tid {
        PendingTop(Below(s, tid), Top(s, tid), id);
        PendingTop(Below(s, tid), Top(s, tid).(phase := Running, cb := None), id);
        assert Below(s, tid) + [Top(s, tid)] == Frames(s, tid);
      }
    }
  }

  lemma ReturnKeepsStacks(s: Sys, a: Action)
    requires a.Return? && Enabled(s, a) && StacksMatch(s)
    ensures StacksMatch(Next(s, a))
  {
    var s' := Next(s, a);
    forall id, tid | id in s'.hooks
      ensures Saved(s'.hooks[id], tid) == Pending(Frames(s', tid), id)
    {
      assert Saved(s.hooks[id], tid) == Pending(Frames(s, tid), id);
      if tid == a.tid {
        var f := Top(s, tid);
        PendingTop(Below(s, tid), f, id);
        assert Below(s, tid) + [f] == Frames(s, tid);
        if f.redirected {
          PendingTop(Below(s, tid), Frames(s', tid)[|Below(s, tid)|], id);
        }
      }
    }
  }

  lemma LeaveDoneKeepsStacks(s: Sys, a: Action)
    requires a.LeaveDone? && Enabled(s, a) && StacksMatch(s) && FramesLive(s)
    ensures StacksMatch(Next(s, a))
  {
    var s' := Next(s, a);
    var f := Top(s, a.tid);
    assert FrameLive(f);
    assert s'.hooks.Keys == s.hooks.Keys;
    hide LeavePutBack;
    forall id, tid | id in s'.hooks
      ensures Saved(s'.hooks[id], tid) == Pending(Frames(s', tid), id)
    {
      assert Saved(s.hooks[id], tid) == Pending(Frames(s, tid), id);
      LeavePutBackSaves(s.hooks, a.tid, f.id, f.cb, 0, id, tid);
      if tid == a.tid {
        PendingTop(Below(s, tid), f, id);
        assert Below(s, tid) + [f] == Frames(s, tid);
      }
    }
  }

  lemma {:induction false} NonePending(frames: seq<Frame>, id: HookId)
    requires forall i :: 0 <= i < |frames| ==> !Outstanding(frames[i], id)
    ensures Pending(frames, id) == []
  {
    if frames != [] {
      NonePending(frames[..|frames| - 1], id);
    }
  }

  lemma RegistryKeepsStacks(s: Sys, a: Action)
    requires (a.Attach? || a.Detach?) && Enabled(s, a) && StacksMatch(s) && FramesLive(s)
    ensures StacksMatch(Next(s, a))
  {
    var s' := Next(s, a);
    forall id, tid | id in s'.hooks
      ensures Saved(s'.hooks[id], tid) == Pending(Frames(s', tid), id)
    {
      if id in s.hooks {
        assert Saved(s.hooks[id], tid) == Pending(Frames(s, tid), id);
      } else {
        NonePending(Frames(s, tid), id);
      }
    }
  }

  // ---------- liveness of frames ----------

  lemma StepKeepsFramesLive(s: Sys, a: Action)
    requires Enabled(s, a) && FramesLive(s)
    ensures FramesLive(Next(s, a))
  {
    var s' := Next(s, a);
    forall tid, i | 0 <= i < |Frames(s', tid)|
      ensures FrameLive(Frames(s', tid)[i])
    {
      if i < |Frames(s, tid)| {
        assert FrameLive(Frames(s, tid)[i]);
      }
    }
  }

  // ---------- ownership of callbacks ----------

  /** The threads differ at most in the frame at the top of `tid`, which is no holder afterwards. */
  ghost predicate OnlyTopChanges(s: Sys, s': Sys, tid: Tid, k: int) {
    && (forall t :: t != tid ==> Frames(s', t) == Frames(s, t))
    && 0 <= k <= |Frames(s, tid)| && k <= |Frames(s', tid)|
    && |Frames(s, tid)| <= k + 1 && |Frames(s', tid)| <= k + 1
    && Frames(s', tid)[..k] == Frames(s, tid)[..k]
  }

  lemma HoldersBelow(s: Sys, s': Sys, tid: Tid, k: int, id: HookId, phase: Phase, t: Tid, i: int)
    requires OnlyTopChanges(s, s', tid, k) && !(t == tid && i == k)
    ensures Holder(s, id, phase, t, i) <==> Holder(s', id, phase, t, i)
    ensures Holder(s, id, phase, t, i) ==> Frames(s', t)[i] == Frames(s, t)[i]
  {
    if t == tid && 0 <= i < k {
      assert Frames(s', tid)[..k][i] == Frames(s, tid)[..k][i];
    }
  }

  /** The top frame holds nothing of `id` before or after: everything stays where it is. */
  lemma PlacesKept(s: Sys, s': Sys, tid: Tid, k: int, id: HookId, phase: Phase, slot: Option<Callback>,
                   home: Option<Callback>)
    requires OnlyTopChanges(s, s', tid, k) && OnePlace(s, id, phase, slot, home)
    requires !Holder(s, id, phase, tid, k) && !Holder(s', id, phase, tid, k)
    ensures OnePlace(s', id, phase, slot, home)
  {
    forall t, i
      ensures Holder(s, id, phase, t, i) <==> Holder(s', id, phase, t, i)
      ensures Holder(s, id, phase, t, i) ==> Frames(s', t)[i] == Frames(s, t)[i]
    {
      if !(t == tid && i == k) {
        HoldersBelow(s, s', tid, k, id, phase, t, i);
      }
    }
    hide Holder;
  }

  /** The callback moves from its slot into the top frame. */
  lemma PlaceTaken(s: Sys, s': Sys, tid: Tid, k: int, id: HookId, phase: Phase, slot: Option<Callback>,
                   home: Option<Callback>)
    requires OnlyTopChanges(s, s', tid, k) && OnePlace(s, id, phase, slot, home)
    requires !Holder(s, id, phase, tid, k)
    requires k < |Frames(s', tid)| && Frames(s', tid)[k].id == id && Frames(s', tid)[k].phase == phase
             && Frames(s', tid)[k].cb == slot
    ensures OnePlace(s', id, phase, None, home)
  {
    if slot == None {
      PlacesKept(s, s', tid, k, id, phase, slot, home);
    } else {
      forall t, i
        ensures Holder(s', id, phase, t, i) <==> t == tid && i == k
      {
        if !(t == tid && i == k) {
          HoldersBelow(s, s', tid, k, id, phase, t, i);
        }
      }
      assert Holder(s', id, phase, tid, k);
    }
  }

  /** The callback moves from the top frame back into its slot; the slot was free. */
  lemma PlaceReturned(s: Sys, s': Sys, tid: Tid, k: int, id: HookId, phase: Phase, slot: Option<Callback>,
                      home: Option<Callback>)
    requires OnlyTopChanges(s, s', tid, k) && OnePlace(s, id, phase, slot, home)
    requires k < |Frames(s, tid)| && Frames(s, tid)[k].id == id && Frames(s, tid)[k].phase == phase
    requires !Holder(s', id, phase, tid, k)
    ensures Frames(s, tid)[k].cb.Some? ==> slot == None
    ensures OnePlace(s', id, phase, if slot == None then Frames(s, tid)[k].cb else slot, home)
  {
    if Frames(s, tid)[k].cb == None {
      PlacesKept(s, s', tid, k, id, phase, slot, home);
    } else {
      assert Holder(s, id, phase, tid, k);
      forall t, i
        ensures !Holder(s', id, phase, t, i)
      {
        if !(t == tid && i == k) {
          HoldersBelow(s, s', tid, k, id, phase, t, i);
        }
      }
    }
  }

  lemma CallKeepsOwners(s: Sys, a: Action)
    requires a.Call? && FramesLive(s) && Owned(s)
    ensures Owned(Next(s, a))
  {
    var s' := Next(s, a);
    var k := |Frames(s, a.tid)|;
    forall id | id in s'.hooks && id in s'.installed
      ensures OnePlace(s', id, Entering, s'.hooks[id].onEnter, s'.installed[id].onEnter)
      ensures OnePlace(s', id, Leaving, s'.hooks[id].onLeave, s'.installed[id].onLeave)
    {
      var e, home := s.hooks[id], s.installed[id];
      PlacesKept(s, s', a.tid, k, id, Leaving, e.onLeave, home.onLeave);
      if id == a.callee {
        PlaceTaken(s, s', a.tid, k, id, Entering, e.onEnter, home.onEnter);
      } else {
        PlacesKept(s, s', a.tid, k, id, Entering, e.onEnter, home.onEnter);
      }
    }
  }

  lemma EnterDoneKeepsOwners(s: Sys, a: Action)
    requires a.EnterDone? && Enabled(s, a) && Owned(s)
    ensures Owned(Next(s, a))
  {
    var s' := Next(s, a);
    var k, f := |Below(s, a.tid)|, Top(s, a.tid);
    assert Below(s, a.tid) + [f] == Frames(s, a.tid);
    forall id | id in s'.hooks && id in s'.installed
      ensures OnePlace(s', id, Entering, s'.hooks[id].onEnter, s'.installed[id].onEnter)
      ensures OnePlace(s', id, Leaving, s'.hooks[id].onLeave, s'.installed[id].onLeave)
    {
      var e, home := s.hooks[id], s.installed[id];
      PlacesKept(s, s', a.tid, k, id, Leaving, e.onLeave, home.onLeave);
      if id == f.id {
        PlaceReturned(s, s', a.tid, k, id, Entering, e.onEnter, home.onEnter);
      } else {
        PlacesKept(s, s', a.tid, k, id, Entering, e.onEnter, home.onEnter);
      }
    }
  }

  lemma ReturnKeepsOwners(s: Sys, a: Action)
    requires a.Return? && Enabled(s, a) && Owned(s)
    ensures Owned(Next(s, a))
  {
    var s' := Next(s, a);
    var k, f := |Below(s, a.tid)|, Top(s, a.tid);
    assert Below(s, a.tid) + [f] == Frames(s, a.tid);
    forall id | id in s'.hooks && id in s'.installed
      ensures OnePlace(s', id, Entering, s'.hooks[id].onEnter, s'.installed[id].onEnter)
      ensures OnePlace(s', id, Leaving, s'.hooks[id].onLeave, s'.installed[id].onLeave)
    {
      var e, home := s.hooks[id], s.installed[id];
      PlacesKept(s, s', a.tid, k, id, Entering, e.onEnter, home.onEnter);
      if id == f.id && f.redirected {
        PlaceTaken(s, s', a.tid, k, id, Leaving, e.onLeave, home.onLeave);
      } else {
        PlacesKept(s, s', a.tid, k, id, Leaving, e.onLeave, home.onLeave);
      }
    }
  }

  lemma LeaveDoneKeepsOwners(s: Sys, a: Action)
    requires a.LeaveDone? && Enabled(s, a) && Owned(s)
    ensures Owned(Next(s, a))
  {
    var s' := Next(s, a);
    var k, f := |Below(s, a.tid)|, Top(s, a.tid);
    assert Below(s, a.tid) + [f] == Frames(s, a.tid);
    forall id | id in s'.hooks && id in s'.installed
      ensures OnePlace(s', id, Entering, s'.hooks[id].onEnter, s'.installed[id].onEnter)
      ensures OnePlace(s', id, Leaving, s'.hooks[id].onLeave, s'.installed[id].onLeave)
    {
      var e, home := s.hooks[id], s.installed[id];
      PlacesKept(s, s', a.tid, k, id, Entering, e.onEnter, home.onEnter);
      if id == f.id {
        PlaceReturned(s, s', a.tid, k, id, Leaving, e.onLeave, home.onLeave);
      } else {
        PlacesKept(s, s', a.tid, k, id, Leaving, e.onLeave, home.onLeave);
      }
    }
  }

  lemma RegistryKeepsOwners(s: Sys, a: Action)
    requires (a.Attach? || a.Detach?) && Enabled(s, a) && FramesLive(s) && Owned(s)
    ensures Owned(Next(s, a))
  {
    var s' := Next(s, a);
    forall id: HookId, phase, tid, i
      ensures Holder(s', id, phase, tid, i) <==> Holder(s, id, phase, tid, i)
      ensures a.Attach? && id == s.nextId ==> !Holder(s, id, phase, tid, i)
    {
      if a.Attach? && 0 <= i < |Frames(s, tid)| && Frames(s, tid)[i].id == s.nextId {
        assert Idle(Frames(s, tid)[i]);
      }
    }
    hide Holder;
    forall id | id in s'.hooks && id in s'.installed
      ensures OnePlace(s', id, Entering, s'.hooks[id].onEnter, s'.installed[id].onEnter)
      ensures OnePlace(s', id, Leaving, s'.hooks[id].onLeave, s'.installed[id].onLeave)
    {
      assert (a.Attach? && id == s.nextId) || (id in s.hooks && s'.hooks[id] == s.hooks[id]);
    }
  }

  // ---------- the theorems ----------

  lemma StepKeepsInv(s: Sys, a: Action)
    requires Enabled(s, a) && Inv(s)
    ensures Inv(Next(s, a))
  {
    hide StacksMatch, FramesLive, Owned, Enabled, Next;
    StepKeepsFramesLive(s, a);
    match a {
      case Attach(_, _, _, _) => RegistryKeepsStacks(s, a); RegistryKeepsOwners(s, a);
      case Detach(_) => RegistryKeepsStacks(s, a); RegistryKeepsOwners(s, a);
      case Call(_, _, _) => CallKeepsStacks(s, a); CallKeepsOwners(s, a);
      case EnterDone(_) => EnterDoneKeepsStacks(s, a); EnterDoneKeepsOwners(s, a);
      case Return(_) => ReturnKeepsStacks(s, a); ReturnKeepsOwners(s, a);
      case LeaveDone(_) => LeaveDoneKeepsStacks(s, a); LeaveDoneKeepsOwners(s, a);
    }
  }

  /** In every reachable state the stacks match the calls in progress and every callback is in one place. */
  lemma {:induction false} EveryRunKeepsInv(run: seq<Action>)
    requires ValidRun(run)
    ensures Inv(After(run))
  {
    if run != [] {
      EveryRunKeepsInv(run[..|run| - 1]);
      StepKeepsInv(After(run[..|run| - 1]), run[|run| - 1]);
    }
  }

  /**
   * Whatever the threads did meanwhile, a leave dispatch brings its own call's link back if and only if
   * the hook is still registered; otherwise what was in the context stays there.
   */
  lemma LeaveRestoresItsLink(run: seq<Action>, tid: Tid, link: u64)
    requires ValidRun(run) && Enabled(After(run), LeaveDone(tid))
    ensures var s := After(run);
      && LinkOnLeave(s, tid, link) == (if Top(s, tid).id in s.hooks then Top(s, tid).link else link)
      && (LinkOnLeave(s, tid, link) == Top(s, tid).link <==> Top(s, tid).id in s.hooks || link == Top(s, tid).link)
  {
    hide After, ValidRun;
    EveryRunKeepsInv(run);
    var s := After(run);
    var f := Top(s, tid);
    assert FrameLive(f);
    assert Below(s, tid) + [f] == Frames(s, tid);
    PendingTop(Below(s, tid), f, f.id);
    assert f.id in s.hooks ==> Saved(s.hooks[f.id], tid) == Pending(Frames(s, tid), f.id);
  }

  /** At no time do two dispatches run the same hook's enter (or leave) callback. */
  lemma NeverTwiceAtOnce(run: seq<Action>, id: HookId, phase: Phase, tid: Tid, i: int, tid': Tid, i': int)
    requires ValidRun(run) && id in After(run).hooks && phase != Running
    requires Holder(After(run), id, phase, tid, i) && Holder(After(run), id, phase, tid', i')
    ensures tid == tid' && i == i'
  {
    hide After, ValidRun;
    EveryRunKeepsInv(run);
    assert id in After(run).installed;
  }

  /** When no dispatch of a registered hook is in progress, both its callbacks are in their slots. */
  lemma NoCallbackIsLost(run: seq<Action>, id: HookId)
    requires ValidRun(run) && id in After(run).hooks
    requires forall tid, i :: 0 <= i < |Frames(After(run), tid)| && Frames(After(run), tid)[i].id == id ==>
               Frames(After(run), tid)[i].phase == Running
    ensures id in After(run).installed
    ensures After(run).hooks[id].onEnter == After(run).installed[id].onEnter
    ensures After(run).hooks[id].onLeave == After(run).installed[id].onLeave
  {
    hide After, ValidRun;
    EveryRunKeepsInv(run);
    assert id in After(run).installed;
  }

  // ---------- who gets the callback ----------

  /** Some dispatch in progress holds the callback that `phase` takes out of hook `id`. */
  ghost predicate HeldBySome(s: Sys, id: HookId, phase: Phase) { exists tid, i :: Holder(s, id, phase, tid, i) }

  /** What a dispatch of hook `id` is due: the callback the hook was installed with, unless another dispatch has it. */
  ghost function DueAtEnter(s: Sys, id: HookId): Option<Callback> {
    if id in s.installed && !HeldBySome(s, id, Entering) then s.installed[id].onEnter else None
  }

  ghost function DueAtLeave(s: Sys, id: HookId): Option<Callback> {
    if id in s.installed && !HeldBySome(s, id, Leaving) then s.installed[id].onLeave else None
  }

  /** The slots hold exactly what is due. */
  lemma SlotsAreDue(s: Sys, id: HookId)
    requires Inv(s) && id in s.hooks
    ensures id in s.installed
    ensures s.hooks[id].onEnter == DueAtEnter(s, id) && s.hooks[id].onLeave == DueAtLeave(s, id)
  {
    hide Holder;
    var e, home := s.hooks[id], s.installed[id];
    assert OnePlace(s, id, Entering, e.onEnter, home.onEnter) && OnePlace(s, id, Leaving, e.onLeave, home.onLeave);
  }

  /**
   * An enter dispatch gets the callback that the hook was installed with, unless another enter dispatch of
   * the same hook holds it just then; with the hook gone it gets none.
   */
  lemma EnterGetsCallback(run: seq<Action>, tid: Tid, id: HookId, link: u64)
    requires ValidRun(run)
    ensures ValidRun(run + [Call(tid, id, link)])
    ensures var s, t := After(run), After(run + [Call(tid, id, link)]);
      && Frames(t, tid) != [] && Below(t, tid) == Frames(s, tid)
      && Top(t, tid).id == id && Top(t, tid).phase == Entering && Top(t, tid).link == link
      && Top(t, tid).cb == if id in s.hooks then DueAtEnter(s, id) else None
  {
    assert (run + [Call(tid, id, link)])[..|run|] == run;
    EveryRunKeepsInv(run);
    EnterIsDue(After(run), tid, id, link);
  }

  lemma EnterIsDue(s: Sys, tid: Tid, id: HookId, link: u64)
    requires Inv(s)
    ensures var t := Next(s, Call(tid, id, link));
      && Frames(t, tid) != [] && Below(t, tid) == Frames(s, tid)
      && Top(t, tid).id == id && Top(t, tid).phase == Entering && Top(t, tid).link == link
      && Top(t, tid).cb == if id in s.hooks then DueAtEnter(s, id) else None
  {
    hide Inv, DueAtEnter, DueAtLeave;
    if id in s.hooks {
      SlotsAreDue(s, id);
    }
  }

  /** The leave dispatch of a redirected call gets the leave callback, under the same condition. */
  lemma LeaveGetsCallback(run: seq<Action>, tid: Tid)
    requires ValidRun(run) && Enabled(After(run), Return(tid)) && Top(After(run), tid).redirected
    ensures ValidRun(run + [Return(tid)])
    ensures var s, t := After(run), After(run + [Return(tid)]);
      && Frames(t, tid) != [] && Below(t, tid) == Below(s, tid)
      && SameCall(Top(s, tid), Top(t, tid)) && Top(t, tid).phase == Leaving
      && Top(t, tid).cb == if Top(s, tid).id in s.hooks then DueAtLeave(s, Top(s, tid).id) else None
  {
    assert (run + [Return(tid)])[..|run|] == run;
    EveryRunKeepsInv(run);
    LeaveIsDue(After(run), tid);
  }

  lemma LeaveIsDue(s: Sys, tid: Tid)
    requires Inv(s) && Enabled(s, Return(tid)) && Top(s, tid).redirected
    ensures var t := Next(s, Return(tid));
      && Frames(t, tid) != [] && Below(t, tid) == Below(s, tid)
      && SameCall(Top(s, tid), Top(t, tid)) && Top(t, tid).phase == Leaving
      && Top(t, tid).cb == if Top(s, tid).id in s.hooks then DueAtLeave(s, Top(s, tid).id) else None
  {
    hide Inv, DueAtEnter, DueAtLeave;
    if Top(s, tid).id in s.hooks {
      SlotsAreDue(s, Top(s, tid).id);
    }
  }

  // ---------- one call from its enter dispatch to its leave dispatch ----------

  lemma {:induction false} PrefixValid(run: seq<Action>, n: nat)
    requires ValidRun(run) && n <= |run|
    ensures ValidRun(run[..n])
    decreases |run|
  {
    hide Enabled, After;
    if n < |run| {
      PrefixValid(run[..|run| - 1], n);
      assert run[..|run| - 1][..n] == run[..n];
    } else {
      assert run[..n] == run;
    }
  }

  /** From its `n`-th action on, the run never leaves the call at depth `k` of `tid`. */
  ghost predicate StaysIn(run: seq<Action>, n: nat, tid: Tid, k: nat) {
    forall m :: n <= m <= |run| ==> ValidRun(run[..m]) && k < |Frames(After(run[..m]), tid)|
  }

  /** The same call, wherever its dispatch has got to. */
  predicate SameCall(f: Frame, g: Frame) { f.id == g.id && f.link == g.link && f.redirected == g.redirected }

  lemma StepKeepsCall(s: Sys, a: Action, tid: Tid, k: nat)
    requires Enabled(s, a) && k < |Frames(s, tid)| && k < |Frames(Next(s, a), tid)|
    ensures SameCall(Frames(s, tid)[k], Frames(Next(s, a), tid)[k])
  {}

  /** While a call stays, it keeps its hook and its link. */
  lemma {:induction false} CallKept(run: seq<Action>, n: nat, tid: Tid, k: nat)
    requires ValidRun(run) && n <= |run| && StaysIn(run, n, tid, k)
    ensures ValidRun(run[..n]) && k < |Frames(After(run[..n]), tid)| && k < |Frames(After(run), tid)|
    ensures SameCall(Frames(After(run[..n]), tid)[k], Frames(After(run), tid)[k])
    decreases |run|
  {
    hide Enabled, Next, Frames;
    assert run[..|run|] == run;
    if n < |run| {
      var rest := run[..|run| - 1];
      assert forall m :: n <= m <= |rest| ==> rest[..m] == run[..m];
      CallKept(rest, n, tid, k);
      StepKeepsCall(After(rest), run[|run| - 1], tid, k);
    }
  }

  /**
   * A call of hook `id` that was entered with `link`: when it leaves, with no call left above it, the
   * dispatch is for its own hook, and brings its own link back if and only if the hook is still there.
   */
  lemma OwnLinkComesBack(before: seq<Action>, rest: seq<Action>, tid: Tid, id: HookId, link: u64, context: u64)
    requires var run := before + [Call(tid, id, link)] + rest;
      && ValidRun(before) && ValidRun(run) && StaysIn(run, |before| + 1, tid, |Frames(After(before), tid)|)
      && Enabled(After(run), LeaveDone(tid)) && |Frames(After(run), tid)| == |Frames(After(before), tid)| + 1
    ensures var s := After(before + [Call(tid, id, link)] + rest);
      && Top(s, tid).id == id && Redirects(After(before).hooks, id)
      && LinkOnLeave(s, tid, context) == if id in s.hooks then link else context
  {
    hide ValidRun, Enabled, Redirects;
    var run := before + [Call(tid, id, link)] + rest;
    var k := |Frames(After(before), tid)|;
    CallKept(run, |before| + 1, tid, k);
    CallEnters(before, rest, tid, id, link);
    LeaveRestoresItsLink(run, tid, context);
    LeavesRedirected(run, tid);
  }

  lemma CallEnters(before: seq<Action>, rest: seq<Action>, tid: Tid, id: HookId, link: u64)
    requires ValidRun(before) && ValidRun((before + [Call(tid, id, link)] + rest)[..|before| + 1])
    ensures var s := After((before + [Call(tid, id, link)] + rest)[..|before| + 1]);
      var k := |Frames(After(before), tid)|;
      && k < |Frames(s, tid)|
      && SameCall(Frames(s, tid)[k], Frame(Entering, id, link, Redirects(After(before).hooks, id), None))
  {
    var called := before + [Call(tid, id, link)];
    assert (called + rest)[..|before| + 1] == called && called[..|before|] == before;
    hide Redirects;
  }

  lemma LeavesRedirected(run: seq<Action>, tid: Tid)
    requires ValidRun(run) && Enabled(After(run), LeaveDone(tid))
    ensures Top(After(run), tid).redirected
  {
    hide After, ValidRun;
    EveryRunKeepsInv(run);
    assert FrameLive(Top(After(run), tid));
  }

  // ---------- fresh ids ----------

  function Attaches(run: seq<Action>): nat {
    if run == [] then 0 else Attaches(run[..|run| - 1]) + if run[|run| - 1].Attach? then 1 else 0
  }

  /** Hooks, and calls that matter, have ids below `n`. */
  ghost predicate IdsBelow(s: Sys, n: int) {
    && (forall id :: id in s.hooks ==> id < n)
    && (forall tid, i :: 0 <= i < |Frames(s, tid)| ==> FrameBelow(Frames(s, tid)[i], n))
  }

  predicate FrameBelow(f: Frame, n: int) { Idle(f) || f.id < n }

  /** The next id is free for as long as fewer than 2^32 - 1 hooks have been installed. */
  lemma {:induction false} FreshIds(run: seq<Action>)
    requires ValidRun(run) && Attaches(run) < P32 - 1
    ensures After(run).nextId == 1 + Attaches(run) && IdsBelow(After(run), 1 + Attaches(run)) && IdFree(After(run))
    decreases |run|
  {
    hide Enabled, Next;
    if run != [] {
      FreshIds(run[..|run| - 1]);
      StepKeepsIds(After(run[..|run| - 1]), run[|run| - 1]);
    }
    BelowIsFree(After(run));
  }

  lemma BelowIsFree(s: Sys)
    requires IdsBelow(s, s.nextId)
    ensures IdFree(s)
  {
    forall tid, i | 0 <= i < |Frames(s, tid)| && Frames(s, tid)[i].id == s.nextId
      ensures Idle(Frames(s, tid)[i])
    {
      assert FrameBelow(Frames(s, tid)[i], s.nextId);
    }
  }

  lemma StepKeepsIds(s: Sys, a: Action)
    requires Enabled(s, a) && IdsBelow(s, s.nextId) && (a.Attach? ==> s.nextId + 1 < P32)
    ensures Next(s, a).nextId == s.nextId + if a.Attach? then 1 else 0
    ensures IdsBelow(Next(s, a), Next(s, a).nextId)
  {
    var s' := Next(s, a);
    forall tid, i | 0 <= i < |Frames(s', tid)|
      ensures FrameBelow(Frames(s', tid)[i], s'.nextId)
    {
      if i < |Frames(s, tid)| {
        assert FrameBelow(Frames(s, tid)[i], s.nextId);
      }
    }
  }

  /** What was installed by action `m` is what the hook's dispatches get, and where its calls are redirected to. */
  lemma {:induction false} InstalledAsAttached(run: seq<Action>, m: nat)
    requires ValidRun(run) && Attaches(run) < P32 - 1 && m < |run| && run[m].Attach?
    ensures ValidRun(run[..m]) && Attaches(run[..m]) < Attaches(run)
    ensures var s, id := After(run), 1 + Attaches(run[..m]);
      && id in s.installed && s.installed[id] == Installed(run[m].onEnter, run[m].onLeave)
      && (id in s.hooks ==>
            s.hooks[id].leaveThunk == run[m].leaveThunk && s.hooks[id].replaceMode == run[m].replaceMode)
    decreases |run|
  {
    hide Enabled, Next;
    var rest := run[..|run| - 1];
    FreshIds(rest);
    if m == |rest| {
      assert run[..m] == rest;
      AttachInstalls(After(rest), run[m]);
    } else {
      assert rest[..m] == run[..m];
      InstalledAsAttached(rest, m);
      StepKeepsInstalled(After(rest), run[|rest|], 1 + Attaches(run[..m]));
    }
  }

  lemma AttachInstalls(s: Sys, a: Action)
    requires a.Attach?
    ensures var t := Next(s, a);
      && s.nextId in t.installed && t.installed[s.nextId] == Installed(a.onEnter, a.onLeave)
      && s.nextId in t.hooks && t.hooks[s.nextId].leaveThunk == a.leaveThunk
      && t.hooks[s.nextId].replaceMode == a.replaceMode
  {}

  lemma StepKeepsInstalled(s: Sys, a: Action, id: HookId)
    requires Enabled(s, a) && id in s.installed && (a.Attach? ==> id != s.nextId)
    ensures id in Next(s, a).installed && Next(s, a).installed[id] == s.installed[id]
    ensures id in Next(s, a).hooks ==>
              && id in s.hooks
              && Next(s, a).hooks[id].leaveThunk == s.hooks[id].leaveThunk
              && Next(s, a).hooks[id].replaceMode == s.hooks[id].replaceMode
  {}

  // ---------- the registry ----------

  /**
   * The process-wide registry, as the dispatchers update it. Each method is one locked section; which
   * calls are in progress is recorded beside it.
   */
  class Registry {
    var hooks: Hooks
    var nextId: HookId
    ghost var threads: map<Tid, seq<Frame>>
    ghost var installed: map<HookId, Installed>

    constructor ()
      ensures Now() == Initial && Inv(Now())
    {
      hooks := map[];
      nextId := 1;
      threads := map[];
      installed := map[];
    }

    ghost function Now(): Sys
      reads this
    {
      Sys(hooks, nextId, threads, installed)
    }

    method Register(leaveThunk: u64, replaceMode: bool, onEnter: Option<Callback>, onLeave: Option<Callback>)
        returns (id: HookId)
      requires Inv(Now()) && IdFree(Now())
      modifies this
      ensures id == old(nextId) && Now() == Next(old(Now()), Attach(leaveThunk, replaceMode, onEnter, onLeave))
              && Inv(Now())
    {
      hide StacksMatch, FramesLive, Owned;
      StepKeepsInv(Now(), Attach(leaveThunk, replaceMode, onEnter, onLeave));
      id := nextId;
      nextId := Wrap32(nextId + 1);
      hooks := hooks[id := Entry(leaveThunk, replaceMode, onEnter, onLeave, map[])];
      installed := installed[id := Installed(onEnter, onLeave)];
    }

    method Unregister(id: HookId) returns (entry: Option<Entry>)
      requires Inv(Now())
      modifies this
      ensures entry == if id in old(hooks) then Some(old(hooks)[id]) else None
      ensures Now() == (if id in old(hooks) then Next(old(Now()), Detach(id)) else old(Now())) && Inv(Now())
    {
      hide StacksMatch, FramesLive, Owned;
      entry := None;
      if id in hooks {
        StepKeepsInv(Now(), Detach(id));
        entry := Some(hooks[id]);
        hooks := hooks - {id};
      }
    }

    /** The section before the enter callback; `link` is the context's X30. */
    method BeginEnter(tid: Tid, id: HookId, link: u64) returns (cb: Option<Callback>, link': u64)
      requires Inv(Now())
      modifies this
      ensures Now() == Next(old(Now()), Call(tid, id, link)) && Inv(Now())
      ensures cb == Top(Now(), tid).cb && cb == (if id in old(hooks) then DueAtEnter(old(Now()), id) else None)
      ensures link' == if Redirects(old(hooks), id) then old(hooks)[id].leaveThunk else link
    {
      hide StacksMatch, FramesLive, Owned;
      StepKeepsInv(Now(), Call(tid, id, link));
      EnterIsDue(Now(), tid, id, link);
      threads := Next(Now(), Call(tid, id, link)).threads;
      cb, link' := None, link;
      if id in hooks {
        var entry := hooks[id];
        var wantLeave := entry.onLeave.Some? || entry.replaceMode;
        if wantLeave && entry.leaveThunk != 0 {
          entry := entry.(savedLr := entry.savedLr[tid := Saved(entry, tid) + [link]]);
          link' := entry.leaveThunk;
        }
        cb := entry.onEnter;
        entry := entry.(onEnter := None);
        hooks := hooks[id := entry];
      }
    }

    /** The section behind the enter callback: the guarded put-back. */
    method EndEnter(tid: Tid, id: HookId, cb: Option<Callback>)
      requires Inv(Now()) && Enabled(Now(), EnterDone(tid)) && Top(Now(), tid).id == id && Top(Now(), tid).cb == cb
      modifies this
      ensures Now() == Next(old(Now()), EnterDone(tid)) && Inv(Now())
    {
      hide StacksMatch, FramesLive, Owned;
      StepKeepsInv(Now(), EnterDone(tid));
      threads := Next(Now(), EnterDone(tid)).threads;
      if id in hooks && hooks[id].onEnter.None? {
        hooks := hooks[id := hooks[id].(onEnter := cb)];
      }
    }

    /** The section before the leave callback. */
    method BeginLeave(tid: Tid, id: HookId) returns (cb: Option<Callback>)
      requires Inv(Now()) && Enabled(Now(), Return(tid)) && Top(Now(), tid).id == id && Top(Now(), tid).redirected
      modifies this
      ensures Now() == Next(old(Now()), Return(tid)) && Inv(Now())
      ensures cb == Top(Now(), tid).cb && cb == (if id in old(hooks) then DueAtLeave(old(Now()), id) else None)
    {
      hide StacksMatch, FramesLive, Owned;
      StepKeepsInv(Now(), Return(tid));
      LeaveIsDue(Now(), tid);
      threads := Next(Now(), Return(tid)).threads;
      cb := None;
      if id in hooks {
        cb := hooks[id].onLeave;
        hooks := hooks[id := hooks[id].(onLeave := None)];
      }
    }

    /** The section behind the leave callback; `link` is the context's X30. */
    method EndLeave(tid: Tid, id: HookId, cb: Option<Callback>, link: u64) returns (link': u64)
      requires Inv(Now()) && Enabled(Now(), LeaveDone(tid)) && Top(Now(), tid).id == id && Top(Now(), tid).cb == cb
      modifies this
      ensures Now() == Next(old(Now()), LeaveDone(tid)) && Inv(Now())
      ensures link' == LinkOnLeave(old(Now()), tid, link)
    {
      hide StacksMatch, FramesLive, Owned;
      StepKeepsInv(Now(), LeaveDone(tid));
      threads := Next(Now(), LeaveDone(tid)).threads;
      link' := link;
      if id in hooks {
        var entry := hooks[id];
        if entry.onLeave.None? {
          entry := entry.(onLeave := cb);
        }
        if tid in entry.savedLr {
          var stack := entry.savedLr[tid];
          if |stack| > 0 {
            link' := stack[|stack| - 1];
            entry := entry.(savedLr := entry.savedLr[tid := stack[..|stack| - 1]]);
          }
        }
        hooks := hooks[id := entry];
      }
    }
  }
}
