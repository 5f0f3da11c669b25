/**
 * Timers: one thread per timer posts fire jobs to a queue; a single worker runs all script code,
 * among it the calls that set and clear timers. The functions below are the atomic steps; a run
 * interleaves the timer threads with the worker in any order.
 */
module Timers {
  import opened Options

  type TimerId = nat

  /** Where a timer's thread is in its loop. */
  datatype Phase = Sleeping | Checked | Submitted | Dropping | Done

  datatype Job = Fire(id: TimerId) | Script

  /** What a call that the worker is inside of has yet to do. */
  datatype Pending = Nothing | Store(id: TimerId, once: bool) | CancelHost(id: TimerId)

  /**
   * `registered` are the entries of the host's timer map, `flags` the timers whose shared flag is set,
   * `callbacks` the script's table with its `once` marks. The last four fields record the run.
   */
  datatype Sys = Sys(
    nextId: TimerId,
    registered: set<TimerId>,
    flags: set<TimerId>,
    threads: map<TimerId, Phase>,
    queue: seq<Job>,
    busy: bool,
    pending: Pending,
    callbacks: map<TimerId, bool>,
    repeating: map<TimerId, bool>,
    runs: seq<TimerId>,
    cleared: set<TimerId>,
    poked: set<TimerId>)

  function Start(): Sys { Sys(1, {}, {}, map[], [], false, Nothing, map[], map[], [], {}, {}) }

  // ---------- the timer thread ----------

  /** Awake: stop if cancelled, else post. */
  function Wake(s: Sys, id: TimerId): Sys {
    s.(threads := s.threads[id := if id in s.flags then Done else Checked])
  }

  function Submit(s: Sys, id: TimerId): Sys {
    s.(threads := s.threads[id := Submitted], queue := s.queue + [Fire(id)])
  }

  function Again(s: Sys, id: TimerId): Sys
    requires id in s.repeating
  {
    s.(threads := s.threads[id := if !s.repeating[id] || id in s.flags then Dropping else Sleeping])
  }

  function DropEntry(s: Sys, id: TimerId): Sys {
    s.(threads := s.threads[id := Done], registered := s.registered - {id})
  }

  // ---------- the worker ----------

  /** `scheduleTimer`: registers the timer and starts its thread, before the table entry is written. */
  function Schedule(s: Sys, repeats: bool): Sys {
    var id := s.nextId;
    s.(nextId := id + 1, registered := s.registered + {id}, threads := s.threads[id := Sleeping],
       repeating := s.repeating[id := repeats], pending := Store(id, !repeats))
  }

  function StoreEntry(s: Sys): Sys
    requires s.pending.Store?
  {
    s.(callbacks := s.callbacks[s.pending.id := s.pending.once], pending := Nothing)
  }

  /** The first half of `clearTimeout`. */
  function Delete(s: Sys, id: TimerId): Sys {
    s.(callbacks := s.callbacks - {id}, pending := CancelHost(id),
       cleared := if id in s.repeating then s.cleared + {id} else s.cleared)
  }

  /** The second half: the host's `cancel`. */
  function Cancel(s: Sys): Sys
    requires s.pending.CancelHost?
  {
    var id := s.pending.id;
    if id in s.registered then s.(registered := s.registered - {id}, flags := s.flags + {id}, pending := Nothing)
    else s.(pending := Nothing)
  }

  /** `__goauld_fireTimer`: a one-shot entry is deleted before its callback runs. */
  function FireTimer(s: Sys, id: TimerId): Sys {
    if id !in s.callbacks then s
    else s.(callbacks := if s.callbacks[id] then s.callbacks - {id} else s.callbacks, runs := s.runs + [id])
  }

  /** The worker takes the oldest job. */
  function Begin(s: Sys): Sys
    requires s.queue != []
  {
    var t := s.(queue := s.queue[1..], busy := true);
    match s.queue[0]
    case Fire(id) => FireTimer(t, id)
    case Script => t
  }

  datatype Step =
    | DoWake(id: TimerId) | DoSubmit(id: TimerId) | DoAgain(id: TimerId) | DoDrop(id: TimerId)
    | DoPost
    | DoBegin | DoSchedule(repeats: bool) | DoStore | DoDelete(id: TimerId) | DoCancel | DoPoke(id: TimerId) | DoFinish

  predicate AtPhase(s: Sys, id: TimerId, p: Phase) { id in s.threads && s.threads[id] == p }

  /** The worker runs script code and is inside no host call. */
  predicate InScript(s: Sys) { s.busy && s.pending == Nothing }

  predicate Enabled(s: Sys, a: Step) {
    match a
    case DoWake(id) => AtPhase(s, id, Sleeping)
    case DoSubmit(id) => AtPhase(s, id, Checked)
    case DoAgain(id) => AtPhase(s, id, Submitted) && id in s.repeating
    case DoDrop(id) => AtPhase(s, id, Dropping)
    case DoPost => true
    case DoBegin => !s.busy && s.pending == Nothing && s.queue != []
    case DoSchedule(_) => InScript(s)
    case DoStore => s.busy && s.pending.Store?
    case DoDelete(_) => InScript(s)
    case DoCancel => s.busy && s.pending.CancelHost?
    case DoPoke(_) => InScript(s)
    case DoFinish => InScript(s)
  }

  function Next(s: Sys, a: Step): Sys
    requires Enabled(s, a)
  {
    match a
    case DoWake(id) => Wake(s, id)
    case DoSubmit(id) => Submit(s, id)
    case DoAgain(id) => Again(s, id)
    case DoDrop(id) => DropEntry(s, id)
    case DoPost => s.(queue := s.queue + [Script])
    case DoBegin => Begin(s)
    case DoSchedule(repeats) => Schedule(s, repeats)
    case DoStore => StoreEntry(s)
    case DoDelete(id) => Delete(s, id)
    case DoCancel => Cancel(s)
    case DoPoke(id) => FireTimer(s, id).(poked := if id in s.callbacks then s.poked + {id} else s.poked)
    case DoFinish => s.(busy := false)
  }

  ghost predicate IsRun(s: Sys, steps: seq<Step>)
    decreases |steps|
  {
    steps == [] || (Enabled(s, steps[0]) && IsRun(Next(s, steps[0]), steps[1..]))
  }

  ghost function After(s: Sys, steps: seq<Step>): Sys
    requires IsRun(s, steps)
    decreases |steps|
  {
    if steps == [] then s else After(Next(s, steps[0]), steps[1..])
  }

  // ---------- the invariant ----------

  /**
   * What a state says of one timer: whether its thread has yet to post, how many of its fire jobs are
   * queued and how often it ran, its table entry and the one about to be written, and its marks.
   */
  datatype Facts = Facts(repeats: bool, toPost: bool, queued: nat, ran: nat, entry: Option<bool>, coming: Option<bool>,
                         flagged: bool, cleared: bool, poked: bool)
  {
    predicate Held() { entry.Some? || coming.Some? }

    /** The script has neither cleared it nor fired it by hand. */
    predicate LeftAlone() { !cleared && !poked }

    predicate Ok() {
      && (entry.Some? ==> entry.value == !repeats)
      && (coming.Some? ==> coming.value == !repeats && entry.None?)
      && (flagged ==> cleared)
      && (cleared ==> !Held())
      && (!repeats ==> ran + (if Held() then 1 else 0) <= 1)
      && (repeats && !cleared ==> Held())
      && (!repeats && LeftAlone() ==> OneShotOk())
    }

    /** A one-shot timer left alone is in one place: its thread, the queue, or the past. */
    predicate OneShotOk() {
      && (if toPost then 1 else 0) + queued + ran == 1
      && (Held() <==> ran == 0)
    }
  }

  function FactsOf(s: Sys, id: TimerId): Facts
    requires id in s.repeating
  {
    Facts(s.repeating[id], AtPhase(s, id, Sleeping) || AtPhase(s, id, Checked), multiset(s.queue)[Fire(id)],
          multiset(s.runs)[id],
          if id in s.callbacks then Some(s.callbacks[id]) else None,
          if s.pending.Store? && s.pending.id == id then Some(s.pending.once) else None,
          id in s.flags, id in s.cleared, id in s.poked)
  }

  ghost predicate Inv(s: Sys) {
    OnlyScheduled(s) && forall id: TimerId :: id in s.repeating ==> FactsOf(s, id).Ok()
  }

  /** Nothing is known of a timer that was never scheduled. */
  ghost predicate OnlyScheduled(s: Sys) {
    && (forall id: TimerId :: 0 < id < s.nextId <==> id in s.repeating)
    && (forall id: TimerId ::
          id in s.callbacks || id in s.cleared || id in s.flags || id in s.registered || id in s.threads ==>
            id in s.repeating)
    && (forall id: TimerId :: Fire(id) in s.queue || id in s.runs ==> id in s.repeating)
    && (s.pending.Store? ==> s.pending.id in s.repeating)
    && (s.pending.CancelHost? && s.pending.id in s.repeating ==> s.pending.id in s.cleared)
    && (!s.busy ==> s.pending == Nothing)
    && s.nextId > 0
  }

  lemma Pushed<T>(q: seq<T>, j: T, x: T)
    ensures multiset(q + [j])[x] == multiset(q)[x] + if j == x then 1 else 0
  {
    assert multiset(q + [j]) == multiset(q) + multiset{j};
  }

  lemma Popped<T>(q: seq<T>, x: T)
    requires q != []
    ensures multiset(q)[x] == multiset(q[1..])[x] + if q[0] == x then 1 else 0
  {
    assert q == [q[0]] + q[1..];
    assert multiset(q) == multiset{q[0]} + multiset(q[1..]);
  }

  /** How the steps of the timer threads change what is known of timer `id`. */
  function ThreadFacts(s: Sys, a: Step, id: TimerId): Facts
    requires id in s.repeating
  {
    var f := FactsOf(s, id);
    match a
    case DoWake(i) => if i == id && id in s.flags then f.(toPost := false) else f
    case DoSubmit(i) => if i == id then f.(toPost := false, queued := f.queued + 1) else f
    case DoAgain(i) => if i == id && s.repeating[id] && id !in s.flags then f.(toPost := true) else f
    case _ => f
  }

  lemma ThreadStep(s: Sys, a: Step, id: TimerId)
    requires id in s.repeating && Enabled(s, a) && (a.DoWake? || a.DoSubmit? || a.DoAgain? || a.DoDrop? || a.DoPost?)
    requires FactsOf(s, id).Ok()
    ensures id in Next(s, a).repeating && FactsOf(Next(s, a), id) == ThreadFacts(s, a, id)
            && FactsOf(Next(s, a), id).Ok()
  {
    Pushed(s.queue, Script, Fire(id));
    if a.DoSubmit? {
      Pushed(s.queue, Fire(a.id), Fire(id));
    }
  }

  lemma ScriptStep(s: Sys, a: Step, id: TimerId)
    requires id in s.repeating && Enabled(s, a) && (a.DoSchedule? || a.DoStore? || a.DoDelete? || a.DoCancel?
                                                    || a.DoFinish?)
    requires id < s.nextId && FactsOf(s, id).Ok()
    requires a.DoCancel? ==> s.pending.id !in s.repeating || s.pending.id in s.cleared
    ensures id in Next(s, a).repeating && FactsOf(Next(s, a), id).Ok()
  {}

  /** A call of `__goauld_fireTimer` for the timer. */
  function FiredFacts(f: Facts): Facts {
    if f.entry.None? then f else f.(entry := if f.entry.value then None else f.entry, ran := f.ran + 1)
  }

  lemma FireFacts(s: Sys, i: TimerId, id: TimerId)
    requires id in s.repeating
    ensures id in FireTimer(s, i).repeating
    ensures FactsOf(FireTimer(s, i), id) == if i == id then FiredFacts(FactsOf(s, id)) else FactsOf(s, id)
  {
    Pushed(s.runs, i, id);
  }

  lemma PopFacts(s: Sys, id: TimerId)
    requires id in s.repeating && Enabled(s, DoBegin)
    ensures var f, mine := FactsOf(s, id), s.queue[0] == Fire(id);
      && f.coming == None && (mine ==> f.queued > 0)
      && FactsOf(s.(queue := s.queue[1..], busy := true), id) == f.(queued := if mine then f.queued - 1 else f.queued)
  {
    Popped(s.queue, Fire(id));
  }

  lemma BeginStep(s: Sys, id: TimerId)
    requires id in s.repeating && Enabled(s, DoBegin) && FactsOf(s, id).Ok()
    ensures id in Begin(s).repeating && FactsOf(Begin(s), id).Ok()
  {
    hide FactsOf, FireTimer;
    var t := s.(queue := s.queue[1..], busy := true);
    PopFacts(s, id);
    if s.queue[0].Fire? {
      FireFacts(t, s.queue[0].id, id);
    }
  }

  lemma PokeStep(s: Sys, i: TimerId, id: TimerId)
    requires id in s.repeating && Enabled(s, DoPoke(i)) && FactsOf(s, id).Ok()
    ensures id in Next(s, DoPoke(i)).repeating && FactsOf(Next(s, DoPoke(i)), id).Ok()
  {
    FireFacts(s, i, id);
    var t := FireTimer(s, i);
    assert FactsOf(Next(s, DoPoke(i)), id) == FactsOf(t, id).(poked := id in Next(s, DoPoke(i)).poked);
  }

  lemma NewTimer(s: Sys, repeats: bool)
    requires Inv(s) && InScript(s)
    ensures FactsOf(Schedule(s, repeats), s.nextId).Ok()
  {
    assert s.nextId !in s.repeating;
    assert Fire(s.nextId) !in s.queue && s.nextId !in s.runs;
  }

  lemma StepKeepsFacts(s: Sys, a: Step, id: TimerId)
    requires Inv(s) && Enabled(s, a) && id in Next(s, a).repeating
    ensures FactsOf(Next(s, a), id).Ok()
  {
    hide FactsOf, Schedule, FireTimer;
    match a
    case DoBegin =>
      FireSameTimers(s);
      BeginStep(s, id);
    case DoPoke(i) =>
      FireSameTimers(s);
      PokeStep(s, i, id);
    case DoSchedule(repeats) =>
      ScheduleRegisters(s, repeats);
      if id == s.nextId {
        NewTimer(s, repeats);
      } else {
        ScriptStep(s, a, id);
      }
    case DoStore => ScriptStep(s, a, id);
    case DoDelete(_) => ScriptStep(s, a, id);
    case DoCancel => ScriptStep(s, a, id);
    case DoFinish => ScriptStep(s, a, id);
    case _ => ThreadStep(s, a, id);
  }

  lemma ScheduleRegisters(s: Sys, repeats: bool)
    ensures Schedule(s, repeats).repeating.Keys == s.repeating.Keys + {s.nextId}
  {}

  lemma FireSameTimers(s: Sys)
    ensures forall i: TimerId :: FireTimer(s, i).repeating == s.repeating
    ensures s.queue != [] ==> Begin(s).repeating == s.repeating
  {}

  lemma ThreadKeepsScheduled(s: Sys, a: Step)
    requires OnlyScheduled(s) && Enabled(s, a) && (a.DoWake? || a.DoSubmit? || a.DoAgain? || a.DoDrop? || a.DoPost?)
    ensures OnlyScheduled(Next(s, a))
  {
    var t := Next(s, a);
    forall j | j in t.queue
      ensures j in s.queue || j == Script || (a.DoSubmit? && j == Fire(a.id))
    {}
  }

  lemma ScriptKeepsScheduled(s: Sys, a: Step)
    requires OnlyScheduled(s) && Enabled(s, a) && (a.DoSchedule? || a.DoStore? || a.DoDelete? || a.DoCancel?
                                                   || a.DoFinish?)
    ensures OnlyScheduled(Next(s, a))
  {}

  lemma FireKeepsScheduled(s: Sys, i: TimerId)
    requires OnlyScheduled(s)
    ensures OnlyScheduled(FireTimer(s, i))
  {
    var t := FireTimer(s, i);
    assert forall x :: x in t.runs ==> x in s.runs || x in s.callbacks;
  }

  lemma StepKeepsScheduled(s: Sys, a: Step)
    requires OnlyScheduled(s) && Enabled(s, a)
    ensures OnlyScheduled(Next(s, a))
  {
    hide FireTimer, Schedule, Delete, Cancel, Wake, Submit, Again, DropEntry;
    match a
    case DoBegin =>
      var t := s.(queue := s.queue[1..], busy := true);
      assert OnlyScheduled(t);
      if s.queue[0].Fire? {
        FireKeepsScheduled(t, s.queue[0].id);
      }
    case DoPoke(i) =>
      FireKeepsScheduled(s, i);
    case DoSchedule(_) => ScriptKeepsScheduled(s, a);
    case DoStore => ScriptKeepsScheduled(s, a);
    case DoDelete(_) => ScriptKeepsScheduled(s, a);
    case DoCancel => ScriptKeepsScheduled(s, a);
    case DoFinish => ScriptKeepsScheduled(s, a);
    case _ => ThreadKeepsScheduled(s, a);
  }

  lemma StepKeepsInv(s: Sys, a: Step)
    requires Inv(s) && Enabled(s, a)
    ensures Inv(Next(s, a))
  {
    hide FactsOf, OnlyScheduled, Next;
    StepKeepsScheduled(s, a);
    forall id: TimerId | id in Next(s, a).repeating
      ensures FactsOf(Next(s, a), id).Ok()
    {
      StepKeepsFacts(s, a, id);
    }
  }

  lemma {:induction false} EveryRunKeepsInv(s: Sys, steps: seq<Step>)
    requires Inv(s) && IsRun(s, steps)
    ensures Inv(After(s, steps))
    decreases |steps|
  {
    hide Inv, Next, Enabled;
    if steps != [] {
      StepKeepsInv(s, steps[0]);
      EveryRunKeepsInv(Next(s, steps[0]), steps[1..]);
    }
  }

  // ---------- what every run keeps ----------

  ghost predicate Reachable(s: Sys) { exists steps :: IsRun(Start(), steps) && After(Start(), steps) == s }

  lemma ReachableKeepsInv(s: Sys)
    requires Reachable(s)
    ensures Inv(s)
  {
    var steps :| IsRun(Start(), steps) && After(Start(), steps) == s;
    EveryRunKeepsInv(Start(), steps);
  }

  function Runs(s: Sys, id: TimerId): nat { multiset(s.runs)[id] }

  /** The callback of a one-shot timer runs at most once, whatever the script does. */
  lemma OneShotRunsOnce(s: Sys, id: TimerId)
    requires Reachable(s) && id in s.repeating && !s.repeating[id]
    ensures Runs(s, id) <= 1
  {
    ReachableKeepsInv(s);
    assert FactsOf(s, id).Ok();
  }

  /** Once a scheduled timer has been cleared, its callback never starts again, even with a fire job queued. */
  lemma {:induction false} ClearedNeverRuns(s: Sys, steps: seq<Step>, id: TimerId)
    requires Inv(s) && IsRun(s, steps) && id in s.cleared
    ensures Runs(After(s, steps), id) == Runs(s, id) && id in After(s, steps).cleared
    decreases |steps|
  {
    if steps != [] {
      ClearedStep(s, steps[0], id);
      StepKeepsInv(s, steps[0]);
      ClearedNeverRuns(Next(s, steps[0]), steps[1..], id);
    }
  }

  lemma ClearedStep(s: Sys, a: Step, id: TimerId)
    requires Inv(s) && Enabled(s, a) && id in s.cleared
    ensures Runs(Next(s, a), id) == Runs(s, id) && id in Next(s, a).cleared
  {
    assert FactsOf(s, id).Ok();
    if a.DoPoke? {
      Pushed(s.runs, a.id, id);
    } else if a.DoBegin? && s.queue[0].Fire? {
      Pushed(s.runs, s.queue[0].id, id);
    }
  }

  /**
   * When the worker takes a fire job of a timer that has been neither cleared nor fired by hand, the
   * callback is in the table and runs, although the timer's thread started before the entry was written.
   */
  lemma FireJobFindsCallback(s: Sys, id: TimerId)
    requires Reachable(s) && Enabled(s, DoBegin) && s.queue[0] == Fire(id)
    ensures id in s.repeating
    ensures id !in s.cleared && id !in s.poked ==> Begin(s).runs == s.runs + [id]
  {
    ReachableKeepsInv(s);
    assert Fire(id) in s.queue;
    PopFacts(s, id);
    assert FactsOf(s, id).Ok();
  }

  /** A one-shot timer left alone is conserved: not yet posted, in the queue, or run; never two of these, never none. */
  lemma OneShotConserved(s: Sys, id: TimerId)
    requires Reachable(s) && id in s.repeating && !s.repeating[id] && id !in s.cleared && id !in s.poked
    ensures (if AtPhase(s, id, Sleeping) || AtPhase(s, id, Checked) then 1 else 0) + multiset(s.queue)[Fire(id)]
            + Runs(s, id) == 1
  {
    ReachableKeepsInv(s);
    assert FactsOf(s, id).Ok();
  }

  // ---------- threads ----------

  /** What a scheduled timer's thread is up to: it goes on until its flag is set or its only job is posted. */
  predicate ThreadOk(s: Sys, id: TimerId) {
    && id in s.threads && id in s.repeating
    && (id in s.registered || id in s.flags || s.threads[id] == Done)
    && (id in s.registered ==> id !in s.flags && s.threads[id] != Done)
    && (s.repeating[id] && id !in s.flags ==> s.threads[id] in {Sleeping, Checked, Submitted})
  }

  ghost predicate ThreadsOk(s: Sys) { forall id: TimerId :: id in s.repeating ==> ThreadOk(s, id) }

  lemma StepKeepsThreads(s: Sys, a: Step)
    requires OnlyScheduled(s) && ThreadsOk(s) && Enabled(s, a)
    ensures ThreadsOk(Next(s, a))
  {
    forall id: TimerId | id in Next(s, a).repeating
      ensures ThreadOk(Next(s, a), id)
    {
      if id in s.repeating {
        assert ThreadOk(s, id);
      }
    }
  }

  lemma {:induction false} EveryRunKeepsThreads(s: Sys, steps: seq<Step>)
    requires Inv(s) && ThreadsOk(s) && IsRun(s, steps)
    ensures ThreadsOk(After(s, steps))
    decreases |steps|
  {
    hide Inv, ThreadsOk, Next, Enabled;
    if steps != [] {
      ScheduledOnly(s);
      StepKeepsThreads(s, steps[0]);
      StepKeepsInv(s, steps[0]);
      EveryRunKeepsThreads(Next(s, steps[0]), steps[1..]);
    }
  }

  lemma ScheduledOnly(s: Sys)
    requires Inv(s)
    ensures OnlyScheduled(s)
  {}

  lemma ReachableThreads(s: Sys)
    requires Reachable(s)
    ensures Inv(s) && ThreadsOk(s)
  {
    var steps :| IsRun(Start(), steps) && After(Start(), steps) == s;
    EveryRunKeepsInv(Start(), steps);
    EveryRunKeepsThreads(Start(), steps);
  }

  /** The section of its loop that a thread in phase `p` enters next. */
  function TurnAt(p: Phase, id: TimerId): Step {
    if p == Sleeping then DoWake(id)
    else if p == Checked then DoSubmit(id)
    else if p == Submitted then DoAgain(id)
    else DoDrop(id)
  }

  /** How often the timer's thread posts in a run. */
  function Posts(steps: seq<Step>, id: TimerId): nat {
    if steps == [] then 0 else (if steps[0] == DoSubmit(id) then 1 else 0) + Posts(steps[1..], id)
  }

  /** The thread will not sleep again. */
  predicate Stopped(s: Sys, id: TimerId) { id in s.threads && (id in s.flags || s.threads[id] == Done) }

  function ToPost(s: Sys, id: TimerId): nat { if AtPhase(s, id, Checked) then 1 else 0 }

  lemma {:induction false} StoppedEnds(s: Sys, steps: seq<Step>, id: TimerId)
    requires Inv(s) && Stopped(s, id) && IsRun(s, steps)
    ensures Posts(steps, id) <= ToPost(s, id) && Stopped(After(s, steps), id)
    ensures AtPhase(After(s, steps), id, Sleeping) ==> AtPhase(s, id, Sleeping)
    decreases |steps|
  {
    hide Inv, Next, Enabled, Stopped, ToPost, AtPhase;
    if steps != [] {
      StoppedStep(s, steps[0], id);
      StepKeepsInv(s, steps[0]);
      StoppedEnds(Next(s, steps[0]), steps[1..], id);
    }
  }

  lemma StoppedStep(s: Sys, a: Step, id: TimerId)
    requires Inv(s) && Stopped(s, id) && Enabled(s, a)
    ensures Stopped(Next(s, a), id)
    ensures (if a == DoSubmit(id) then 1 else 0) + ToPost(Next(s, a), id) <= ToPost(s, id)
    ensures AtPhase(Next(s, a), id, Sleeping) ==> AtPhase(s, id, Sleeping)
  {
    hide FactsOf;
  }

  /**
   * Cancelling stops the thread: along any run behind the `cancel` of a scheduled timer, its thread posts at
   * most the one job that it had already made up its mind to post, none if it had not, and once it is awake it
   * never sleeps again.
   */
  lemma CancelStopsThread(s: Sys, steps: seq<Step>, id: TimerId)
    requires Reachable(s) && Enabled(s, DoCancel) && s.pending == CancelHost(id) && id in s.repeating
    requires IsRun(Next(s, DoCancel), steps)
    ensures id !in Next(s, DoCancel).registered
    ensures Posts(steps, id) <= if AtPhase(s, id, Checked) then 1 else 0
    ensures AtPhase(After(Next(s, DoCancel), steps), id, Sleeping) ==> AtPhase(s, id, Sleeping)
  {
    hide Inv;
    ReachableThreads(s);
    StepKeepsInv(s, DoCancel);
    assert ThreadOk(s, id);
    StoppedEnds(Next(s, DoCancel), steps, id);
  }

  /**
   * An interval goes on: as long as it is not cleared, its thread is in its loop, and each turn of the loop is
   * asleep, awake, or done posting, never ended.
   */
  lemma IntervalGoesOn(s: Sys, id: TimerId)
    requires Reachable(s) && id in s.repeating && s.repeating[id] && id !in s.cleared
    ensures id in s.registered && id in s.threads && s.threads[id] in {Sleeping, Checked, Submitted}
    ensures Next(s, TurnAt(s.threads[id], id)).threads[id]
         == if s.threads[id] == Sleeping then Checked else if s.threads[id] == Checked then Submitted else Sleeping
    ensures s.threads[id] == Checked ==> Next(s, TurnAt(s.threads[id], id)).queue == s.queue + [Fire(id)]
  {
    ReachableThreads(s);
    assert ThreadOk(s, id) && FactsOf(s, id).Ok();
  }

  // ---------- the order of jobs ----------

  /** The jobs that a run posts, in order. */
  function Posted(steps: seq<Step>): seq<Job> {
    if steps == [] then []
    else
      PostedBy(steps[0]) + Posted(steps[1..])
  }

  function PostedBy(a: Step): seq<Job> {
    match a case DoSubmit(id) => [Fire(id)] case DoPost => [Script] case _ => []
  }

  /** The jobs that the worker takes in it, in order. */
  ghost function TakenIn(s: Sys, steps: seq<Step>): seq<Job>
    requires IsRun(s, steps)
    decreases |steps|
  {
    if steps == [] then []
    else (if steps[0].DoBegin? then [s.queue[0]] else []) + TakenIn(Next(s, steps[0]), steps[1..])
  }

  /** Jobs are taken in the order in which they were posted; none is lost, none is taken twice. */
  lemma {:induction false} QueueIsInOrder(s: Sys, steps: seq<Step>)
    requires IsRun(s, steps)
    ensures TakenIn(s, steps) + After(s, steps).queue == s.queue + Posted(steps)
    decreases |steps|
  {
    hide Next, Enabled;
    if steps != [] {
      QueueStep(s, steps[0]);
      var t, rest := Next(s, steps[0]), steps[1..];
      QueueIsInOrder(t, rest);
      var left, posted := After(t, rest).queue, Posted(rest);
      if steps[0].DoBegin? {
        assert [s.queue[0]] + TakenIn(t, rest) + left == [s.queue[0]] + (t.queue + posted);
      } else {
        assert s.queue + PostedBy(steps[0]) + posted == s.queue + (PostedBy(steps[0]) + posted);
      }
    }
  }

  lemma QueueStep(s: Sys, a: Step)
    requires Enabled(s, a)
    ensures if a.DoBegin? then s.queue == [s.queue[0]] + Next(s, a).queue
            else Next(s, a).queue == s.queue + PostedBy(a)
  {}

  // ---------- the process-wide state ----------

  /**
   * The timer map, the job queue and the script's table, updated in place. Each method is one atomic
   * section: what a thread does under the map's lock, or the worker between two host calls.
   */
  class Runtime {
    var nextId: TimerId
    var registered: set<TimerId>
    var flags: set<TimerId>
    var threads: map<TimerId, Phase>
    var queue: seq<Job>
    var busy: bool
    var pending: Pending
    var callbacks: map<TimerId, bool>
    var repeating: map<TimerId, bool>
    ghost var runs: seq<TimerId>
    ghost var cleared: set<TimerId>
    ghost var poked: set<TimerId>

    constructor ()
      ensures Now() == Start() && Inv(Now())
    {
      nextId, registered, flags, threads, queue := 1, {}, {}, map[], [];
      busy, pending, callbacks, repeating := false, Nothing, map[], map[];
      runs, cleared, poked := [], {}, {};
    }

    ghost function Now(): Sys
      reads this
    {
      Sys(nextId, registered, flags, threads, queue, busy, pending, callbacks, repeating, runs, cleared, poked)
    }

    method ScheduleTimer(repeats: bool) returns (id: TimerId)
      requires Inv(Now()) && Enabled(Now(), DoSchedule(repeats))
      modifies this
      ensures id == old(nextId) && Now() == Next(old(Now()), DoSchedule(repeats)) && Inv(Now())
    {
      hide FactsOf, OnlyScheduled;
      StepKeepsInv(Now(), DoSchedule(repeats));
      id := nextId;
      nextId := id + 1;
      registered := registered + {id};
      threads := threads[id := Sleeping];
      repeating := repeating[id := repeats];
      pending := Store(id, !repeats);
    }

    method WriteEntry()
      requires Inv(Now()) && Enabled(Now(), DoStore)
      modifies this
      ensures Now() == Next(old(Now()), DoStore) && Inv(Now())
    {
      hide FactsOf, OnlyScheduled;
      StepKeepsInv(Now(), DoStore);
      callbacks := callbacks[pending.id := pending.once];
      pending := Nothing;
    }

    method DeleteEntry(id: TimerId)
      requires Inv(Now()) && Enabled(Now(), DoDelete(id))
      modifies this
      ensures Now() == Next(old(Now()), DoDelete(id)) && Inv(Now())
    {
      hide FactsOf, OnlyScheduled;
      StepKeepsInv(Now(), DoDelete(id));
      callbacks := callbacks - {id};
      pending := CancelHost(id);
      if id in repeating {
        cleared := cleared + {id};
      }
    }

    method CancelTimer()
      requires Inv(Now()) && Enabled(Now(), DoCancel)
      modifies this
      ensures Now() == Next(old(Now()), DoCancel) && Inv(Now())
    {
      hide FactsOf, OnlyScheduled;
      StepKeepsInv(Now(), DoCancel);
      var id := pending.id;
      pending := Nothing;
      if id in registered {
        registered := registered - {id};
        flags := flags + {id};
      }
    }

    method RunCallback(id: TimerId)
      modifies this`callbacks, this`runs
      ensures Now() == FireTimer(old(Now()), id)
    {
      if id !in callbacks {
        return;
      }
      if callbacks[id] {
        callbacks := callbacks - {id};
      }
      runs := runs + [id];
    }

    method TakeJob()
      requires Inv(Now()) && Enabled(Now(), DoBegin)
      modifies this
      ensures Now() == Next(old(Now()), DoBegin) && Inv(Now())
    {
      hide FactsOf, OnlyScheduled;
      StepKeepsInv(Now(), DoBegin);
      var job := queue[0];
      queue := queue[1..];
      busy := true;
      match job
      case Fire(id) => RunCallback(id);
      case Script =>
    }

    /** One turn of a timer thread, whichever section of its loop comes next. */
    method ThreadTurn(id: TimerId)
      requires Inv(Now()) && id in threads && Enabled(Now(), TurnAt(threads[id], id))
      modifies this
      ensures Now() == Next(old(Now()), TurnAt(old(threads)[id], id)) && Inv(Now())
    {
      hide FactsOf, OnlyScheduled;
      StepKeepsInv(Now(), TurnAt(threads[id], id));
      var phase := threads[id];
      if phase == Sleeping {
        threads := threads[id := if id in flags then Done else Checked];
      } else if phase == Checked {
        queue := queue + [Fire(id)];
        threads := threads[id := Submitted];
      } else if phase == Submitted {
        threads := threads[id := if !repeating[id] || id in flags then Dropping else Sleeping];
      } else {
        registered := registered - {id};
        threads := threads[id := Done];
      }
    }
  }
}
