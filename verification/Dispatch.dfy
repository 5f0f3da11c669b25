/**
 * The hook registry and its dispatchers. A dispatch is not one step: it takes the callback out of
 * its slot under the registry lock, runs it unlocked, and puts it back under the lock again. The
 * functions below are the locked sections; `DispatchRuns` interleaves them over all threads.
 */
module Dispatch {
  import opened Words
  import opened Options

  type HookId = u32
  type Tid = int
  /** The identity of a boxed closure. */
  type Callback = int

  datatype Entry = Entry(
    leaveThunk: u64,
    replaceMode: bool,
    onEnter: Option<Callback>,
    onLeave: Option<Callback>,
    savedLr: map<Tid, seq<u64>>)

  type Hooks = map<HookId, Entry>

  function Saved(e: Entry, tid: Tid): seq<u64> {
    if tid in e.savedLr then e.savedLr[tid] else []
  }

  // ---------- the locked sections ----------

  /** Whether the first section of the enter dispatch redirects the link register. */
  predicate Redirects(hooks: Hooks, id: HookId) {
    id in hooks && (hooks[id].onLeave.Some? || hooks[id].replaceMode) && hooks[id].leaveThunk != 0
  }

  /** Pushes and redirects the link if the hook wants to see the return, and takes `onEnter` out. */
  function EnterTake(hooks: Hooks, tid: Tid, id: HookId, link: u64): (Hooks, Option<Callback>, u64) {
    if id !in hooks then (hooks, None, link)
    else
      var e := hooks[id];
      var e1 := if Redirects(hooks, id) then e.(savedLr := e.savedLr[tid := Saved(e, tid) + [link]]) else e;
      (hooks[id := e1.(onEnter := None)], e.onEnter, if Redirects(hooks, id) then e.leaveThunk else link)
  }

  /** Puts `onEnter` back unless the slot is taken or the hook is gone. */
  function EnterPutBack(hooks: Hooks, id: HookId, cb: Option<Callback>): Hooks {
    if id in hooks && hooks[id].onEnter == None then hooks[id := hooks[id].(onEnter := cb)] else hooks
  }

  function LeaveTake(hooks: Hooks, id: HookId): (Hooks, Option<Callback>) {
    if id !in hooks then (hooks, None)
    else (hooks[id := hooks[id].(onLeave := None)], hooks[id].onLeave)
  }

  /** Puts `onLeave` back and pops the thread's innermost saved link into the context. */
  function LeavePutBack(hooks: Hooks, tid: Tid, id: HookId, cb: Option<Callback>, link: u64): (Hooks, u64) {
    if id !in hooks then (hooks, link)
    else
      var e := if hooks[id].onLeave == None then hooks[id].(onLeave := cb) else hooks[id];
      var stack := Saved(e, tid);
      if |stack| == 0 then (hooks[id := e], link)
      else (hooks[id := e.(savedLr := e.savedLr[tid := stack[..|stack| - 1]])], stack[|stack| - 1])
  }
}
