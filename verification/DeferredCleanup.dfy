/** drivers/189pc/cas_cleanup.go: deferred cleanup. Tasks bracket their work with begin and end, files to delete
    are queued, and a debounce timer drains the queue and, when no task is active, cleans everything.
    The methods are the sections that run under `cleanupMu`; a run of the driver is any interleaving of them
    with timers firing and callbacks starting. */
module DeferredCleanup {
  import opened Collections
  import opened Options
  import opened Pieces

  type Obj = string

  /** The fields under the lock, and the runtime's timers: those still counting down, and those that fired
      but whose callback has not taken the lock yet. */
  datatype State = State(active: int, pending: seq<Obj>, timer: Option<nat>, armed: set<nat>, fired: set<nat>,
    created: nat)

  function Schedule(s: State): State {
    if s.active > 0 && s.pending == [] then s
    else
      var stopped := if s.timer.Some? then s.armed - {s.timer.value} else s.armed;
      s.(timer := Some(s.created), armed := stopped + {s.created}, created := s.created + 1)
  }

  function Drained(s: State): State {
    s.(pending := [], timer := None)
  }

  class Cleaner {
    var cleanupActive: int
    var cleanupFamilyObjs: seq<Obj>
    var cleanupTimer: Option<nat>
    var armed: set<nat>
    var fired: set<nat>
    var created: nat

    function View(): State
      reads this
    {
      State(cleanupActive, cleanupFamilyObjs, cleanupTimer, armed, fired, created)
    }

    constructor ()
      ensures View() == State(0, [], None, {}, {}, 0)
    {
      cleanupActive, cleanupFamilyObjs, cleanupTimer := 0, [], None;
      armed, fired, created := {}, {}, 0;
    }

    method BeginCleanupTask()
      modifies this
      ensures View() == old(View()).(active := old(cleanupActive) + 1)
    {
      cleanupActive := cleanupActive + 1;
    }

    /** The locked part of endCleanupTask; notifyTaskDone follows after the lock was released. */
    method EndCleanupTask()
      modifies this
      ensures View() ==
        old(View()).(active := if old(cleanupActive) > 0 then old(cleanupActive) - 1 else old(cleanupActive))
    {
      if cleanupActive > 0 {
        cleanupActive := cleanupActive - 1;
      }
    }

    method NotifyTaskDone()
      modifies this
      ensures View() == Schedule(old(View()))
    {
      ScheduleDebounceCleanLocked();
    }

    method QueueFamilyTransferCleanupObj(obj: Option<Obj>)
      modifies this
      ensures View() == if obj.None? then old(View())
        else Schedule(old(View()).(pending := old(cleanupFamilyObjs) + [obj.value]))
    {
      if obj.None? {
        return;
      }
      cleanupFamilyObjs := cleanupFamilyObjs + [obj.value];
      ScheduleDebounceCleanLocked();
    }

    method ScheduleDebounceCleanLocked()
      modifies this
      ensures View() == Schedule(old(View()))
    {
      if cleanupActive > 0 && |cleanupFamilyObjs| == 0 {
        return;
      }
      if cleanupTimer.Some? {
        StopTimer(cleanupTimer.value);
      }
      var t := AfterFunc();
      cleanupTimer := Some(t);
    }

    /** time.AfterFunc: a new timer starts counting down. */
    method AfterFunc() returns (t: nat)
      modifies this`armed, this`created
      ensures t == old(created) && created == t + 1 && armed == old(armed) + {t}
    {
      t := created;
      armed, created := armed + {t}, created + 1;
    }

    /** Timer.Stop: without effect on a timer that already fired. */
    method StopTimer(t: nat)
      modifies this`armed
      ensures armed == old(armed) - {t}
    {
      armed := armed - {t};
    }

    /** The locked part of runDebounceClean: the batch to delete, and whether to clean everything. */
    method RunDebounceClean() returns (familyObjs: seq<Obj>, shouldCleanAll: bool)
      modifies this
      ensures View() == Drained(old(View()))
      ensures familyObjs == old(cleanupFamilyObjs) && (shouldCleanAll <==> old(cleanupActive) == 0)
    {
      familyObjs := cleanupFamilyObjs;
      cleanupFamilyObjs := [];
      shouldCleanAll := cleanupActive == 0;
      cleanupTimer := None;
    }
  }

  // ---------- Runs ----------

  /** A system state: the cleaner, the tasks that began and have not ended, those that ended and have yet to
      notify, the callbacks that are cleaning everything, and what happened so far. `owed` says that the last
      task ended after the latest full clean was decided. */
  datatype Sys = Sys(
    s: State, running: set<nat>, notifying: set<nat>, cleaning: set<nat>,
    queued: seq<Obj>, batches: seq<seq<Obj>>, cleanedWith: seq<nat>, owed: bool)

  datatype Action =
    | Begin(task: nat) | Finish(task: nat) | Notify(task: nat)
    | NotifyOnly | Queue(obj: Obj)
    | Fire(timer: nat) | Callback(timer: nat) | CleanDone(timer: nat)

  const INITIAL := Sys(State(0, [], None, {}, {}, 0), {}, {}, {}, [], [], [], false)

  predicate Enabled(p: Sys, a: Action) {
    match a
    case Begin(t) => t !in p.running && t !in p.notifying
    case Finish(t) => t in p.running
    case Notify(t) => t in p.notifying
    case NotifyOnly => true
    case Queue(_) => true
    case Fire(t) => t in p.s.armed
    case Callback(t) => t in p.s.fired
    case CleanDone(t) => t in p.cleaning
  }

  /** The effect of a step of a task on the fields under the lock. */
  function Effect(s: State, a: Action): State {
    match a
    case Begin(_) => s.(active := s.active + 1)
    case Finish(_) => s.(active := if s.active > 0 then s.active - 1 else s.active)
    case Notify(_) => Schedule(s)
    case _ => s
  }

  function Next(p: Sys, a: Action): Sys
    requires Enabled(p, a)
  {
    match a
    case Begin(t) => p.(s := Effect(p.s, a), running := p.running + {t})
    case Finish(t) =>
      var running := p.running - {t};
      p.(s := Effect(p.s, a), running := running, notifying := p.notifying + {t}, owed := p.owed || running == {})
    case Notify(t) => p.(s := Effect(p.s, a), notifying := p.notifying - {t})
    case NotifyOnly => p.(s := Schedule(p.s))
    case Queue(o) => p.(s := Schedule(p.s.(pending := p.s.pending + [o])), queued := p.queued + [o])
    case Fire(t) => p.(s := p.s.(armed := p.s.armed - {t}, fired := p.s.fired + {t}))
    case Callback(t) =>
      var q := p.(s := Drained(p.s).(fired := p.s.fired - {t}), batches := p.batches + [p.s.pending]);
      if p.s.active == 0 then
        q.(cleaning := p.cleaning + {t}, cleanedWith := p.cleanedWith + [|p.running|], owed := false)
      else q
    case CleanDone(t) => p.(cleaning := p.cleaning - {t})
  }

  ghost predicate IsRun(p: Sys, actions: seq<Action>)
    decreases |actions|
  {
    actions == [] || (Enabled(p, actions[0]) && IsRun(Next(p, actions[0]), actions[1..]))
  }

  function After(p: Sys, actions: seq<Action>): Sys
    requires IsRun(p, actions)
    decreases |actions|
  {
    if actions == [] then p else After(Next(p, actions[0]), actions[1..])
  }

  // ---------- The brackets of linkCASVideo ----------

  /** What a task does that matters here: steps of the protocol, and the deletion of its temporary folder. */
  datatype Event = Step(action: Action) | DeleteTempDir

  /** What a trace makes of the fields under the lock; deleting a folder does not touch them. */
  function Effects(s: State, trace: seq<Event>): State {
    if trace == [] then s else EffectOf(Effects(s, trace[..|trace| - 1]), trace[|trace| - 1])
  }

  function EffectOf(s: State, e: Event): State {
    if e.Step? then Effect(s, e.action) else s
  }

  lemma EffectsSnoc(s: State, trace: seq<Event>, e: Event)
    ensures Effects(s, trace + [e]) == EffectOf(Effects(s, trace), e)
  {
    assert (trace + [e])[..|trace|] == trace;
  }

  /** beginCleanupTask, as task `t`; `trace` is what this task did so far. */
  method BeginTask(c: Cleaner, t: nat, trace: seq<Event>, ghost s: State) returns (trace': seq<Event>)
    requires c.View() == Effects(s, trace)
    modifies c
    ensures trace' == trace + [Step(Begin(t))] && c.View() == Effects(s, trace')
  {
    EffectsSnoc(s, trace, Step(Begin(t)));
    c.BeginCleanupTask();
    trace' := trace + [Step(Begin(t))];
  }

  /** endCleanupTask, which notifies after it has released the lock. */
  method EndTask(c: Cleaner, t: nat, trace: seq<Event>, ghost s: State) returns (trace': seq<Event>)
    requires c.View() == Effects(s, trace)
    modifies c
    ensures trace' == trace + [Step(Finish(t)), Step(Notify(t))] && c.View() == Effects(s, trace')
  {
    EffectsSnoc(s, trace, Step(Finish(t)));
    EffectsSnoc(s, trace + [Step(Finish(t))], Step(Notify(t)));
    assert trace + [Step(Finish(t)), Step(Notify(t))] == trace + [Step(Finish(t))] + [Step(Notify(t))];
    c.EndCleanupTask();
    c.NotifyTaskDone();
    trace' := trace + [Step(Finish(t)), Step(Notify(t))];
  }

  /** How the calls in linkCASVideo turn out. */
  datatype Calls = Calls(parses: bool, namesFile: bool, extAllowed: bool, restores: bool, findsTempDir: bool,
                         makesSubDir: bool, restoresObj: bool, links: bool)

  datatype LinkResult = Failed | RawLink | VideoLink

  /** The link that a caller gets: a link to the video file, to the small file itself, or an error. */
  function Result(calls: Calls): LinkResult {
    if !calls.parses || !calls.namesFile then Failed
    else if !Begins(calls) then RawLink
    else if calls.findsTempDir && calls.makesSubDir && calls.restoresObj && calls.links then VideoLink
    else Failed
  }

  predicate Begins(calls: Calls) {
    calls.parses && calls.namesFile && calls.extAllowed && calls.restores
  }

  /** What is done by the time linkCASVideo returns: a task that began has ended, except behind a video link, and its
      folder, if it was made, is deleted before that. */
  function Trace(calls: Calls, t: nat): seq<Event> {
    if !Begins(calls) then []
    else if Result(calls) == VideoLink then [Step(Begin(t))]
    else if calls.findsTempDir && calls.makesSubDir
      then [Step(Begin(t)), DeleteTempDir, Step(Finish(t)), Step(Notify(t))]
    else [Step(Begin(t)), Step(Finish(t)), Step(Notify(t))]
  }

  lemma DeletionHasNoEffect(s: State, trace: seq<Event>)
    ensures Effects(s, trace + [DeleteTempDir]) == Effects(s, trace)
  {
    EffectsSnoc(s, trace, DeleteTempDir);
  }

  lemma NoEffects(s: State)
    ensures Effects(s, []) == s
  {
  }

  /** linkCASVideo, exit by exit. A background routine goes on after the last one. */
  method LinkCasVideo(c: Cleaner, t: nat, calls: Calls) returns (r: LinkResult, trace: seq<Event>)
    modifies c
    ensures c.View() == Effects(old(c.View()), trace)
    ensures r == Result(calls) && trace == Trace(calls, t)
  {
    hide Effects, EffectOf, Effect;
    ghost var s := c.View();
    NoEffects(s);
    trace := [];
    if !calls.parses {
      return Failed, trace;
    }
    if !calls.namesFile {
      return Failed, trace;
    }
    if !calls.extAllowed {
      return RawLink, trace;
    }
    if !calls.restores {
      return RawLink, trace;
    }
    trace := BeginTask(c, t, trace, s);
    if !calls.findsTempDir {
      trace := EndTask(c, t, trace, s);
      return Failed, trace;
    }
    if !calls.makesSubDir {
      trace := EndTask(c, t, trace, s);
      return Failed, trace;
    }
    if !calls.restoresObj {
      DeletionHasNoEffect(s, trace);
      trace := trace + [DeleteTempDir];
      trace := EndTask(c, t, trace, s);
      return Failed, trace;
    }
    if !calls.links {
      DeletionHasNoEffect(s, trace);
      trace := trace + [DeleteTempDir];
      trace := EndTask(c, t, trace, s);
      return Failed, trace;
    }
    return VideoLink, trace;
  }

  /** The routine that linkCASVideo starts when it returns a video link. */
  method DeleteInBackground(c: Cleaner, t: nat) returns (trace: seq<Event>)
    modifies c
    ensures trace == [DeleteTempDir, Step(Finish(t)), Step(Notify(t))] && c.View() == Effects(old(c.View()), trace)
  {
    ghost var s := c.View();
    EffectsSnoc(s, [], DeleteTempDir);
    assert [] + [DeleteTempDir] == [DeleteTempDir];
    trace := EndTask(c, t, [DeleteTempDir], s);
  }

  /** On every path, with the background routine where there is one, a task does nothing or begins, finishes and
      notifies exactly once, in this order, and its folder, if it made one, is deleted once in between. */
  lemma EveryExitIsBracketed(t: nat, calls: Calls)
    ensures var begins := calls.parses && calls.namesFile && calls.extAllowed && calls.restores;
      var video := begins && calls.findsTempDir && calls.makesSubDir && calls.restoresObj && calls.links;
      var background := if video then [DeleteTempDir, Step(Finish(t)), Step(Notify(t))] else [];
      && (Result(calls) == VideoLink <==> video)
      && (Result(calls) == RawLink <==> calls.parses && calls.namesFile && !begins)
      && Trace(calls, t) + background ==
        if !begins then []
        else if calls.findsTempDir && calls.makesSubDir
          then [Step(Begin(t)), DeleteTempDir, Step(Finish(t)), Step(Notify(t))]
        else [Step(Begin(t)), Step(Finish(t)), Step(Notify(t))]
  {
    var b, d, f, n := Step(Begin(t)), DeleteTempDir, Step(Finish(t)), Step(Notify(t));
    assert [b] + [d, f, n] == [b, d, f, n];
    assert Trace(calls, t) + [] == Trace(calls, t);
  }

  // ---------- What every step keeps ----------

  /** A timer is counting down, or its callback is about to run. */
  predicate TimerDue(p: Sys) {
    p.s.armed != {} || p.s.fired != {}
  }

  /** Every queued object was handed to one batch, or is pending, in queueing order. */
  ghost predicate Conserved(p: Sys) {
    p.queued == Concat(p.batches) + p.s.pending
  }

  /** The counter counts the unfinished tasks, and full cleans were decided with none of them active. */
  ghost predicate Counted(p: Sys) {
    && p.s.active == |p.running| && p.running !! p.notifying
    && forall i :: 0 <= i < |p.cleanedWith| ==> p.cleanedWith[i] == 0
  }

  /** The timer field never dangles, and timers are told apart. */
  ghost predicate TimersTracked(p: Sys) {
    && (p.s.timer.Some? ==> p.s.timer.value in p.s.armed || p.s.timer.value in p.s.fired)
    && p.s.armed !! p.s.fired
    && forall t :: t in p.s.armed || t in p.s.fired ==> t < p.s.created
  }

  /** Nothing is pending without a timer, and a full clean that is owed will still be decided. */
  ghost predicate Due(p: Sys) {
    && (p.s.pending != [] ==> TimerDue(p))
    && (p.owed ==> p.running != {} || p.notifying != {} || TimerDue(p))
  }

  ghost predicate Inv(p: Sys) {
    Conserved(p) && Counted(p) && TimersTracked(p) && Due(p)
  }

  lemma ConservedStep(p: Sys, a: Action)
    requires Conserved(p) && Enabled(p, a)
    ensures Conserved(Next(p, a))
  {
    match a
    case Callback(t) =>
      ConcatSnoc(p.batches, p.s.pending);
    case Queue(o) =>
      assert Concat(p.batches) + (p.s.pending + [o]) == Concat(p.batches) + p.s.pending + [o];
    case _ =>
  }

  lemma CountedStep(p: Sys, a: Action)
    requires Counted(p) && Enabled(p, a)
    ensures Counted(Next(p, a))
  {
    hide Schedule;
    match a
    case Begin(t) => assert |p.running + {t}| == |p.running| + 1;
    case Finish(t) => assert |p.running - {t}| == |p.running| - 1;
    case Notify(_) => ScheduleKeeps(p.s);
    case NotifyOnly => ScheduleKeeps(p.s);
    case Queue(o) => ScheduleKeeps(p.s.(pending := p.s.pending + [o]));
    case _ =>
  }

  lemma ScheduleKeeps(s: State)
    ensures Schedule(s).active == s.active && Schedule(s).pending == s.pending
  {
  }

  lemma TimersStep(p: Sys, a: Action)
    requires TimersTracked(p) && Enabled(p, a)
    ensures TimersTracked(Next(p, a))
  {
  }

  lemma DueStep(p: Sys, a: Action)
    requires Due(p) && Counted(p) && Enabled(p, a)
    ensures Due(Next(p, a))
  {
    var q := Next(p, a);
    match a
    case Begin(t) => assert t in q.running;
    case Finish(t) => assert t in q.notifying;
    case Fire(t) => assert t in q.s.fired;
    case Notify(_) => ScheduleArms(p.s);
    case NotifyOnly => ScheduleArms(p.s);
    case Queue(o) => ScheduleArms(p.s.(pending := p.s.pending + [o]));
    case _ =>
  }

  lemma ScheduleArms(s: State)
    ensures if s.active > 0 && s.pending == [] then Schedule(s) == s else Schedule(s).armed != {}
  {
    assert !(s.active > 0 && s.pending == []) ==> s.created in Schedule(s).armed;
  }

  lemma InvStep(p: Sys, a: Action)
    requires Inv(p) && Enabled(p, a)
    ensures Inv(Next(p, a))
  {
    ConservedStep(p, a);
    CountedStep(p, a);
    TimersStep(p, a);
    DueStep(p, a);
  }

  /** Safety over every run, whatever the interleaving. */
  lemma {:induction false} Safety(p: Sys, actions: seq<Action>)
    requires Inv(p) && IsRun(p, actions)
    ensures Inv(After(p, actions))
    decreases |actions|
  {
    if actions != [] {
      InvStep(p, actions[0]);
      Safety(Next(p, actions[0]), actions[1..]);
    }
  }

  // ---------- The debounce ----------

  /** The timers that action `i` of the run arms. */
  function ArmedBy(p: Sys, actions: seq<Action>, i: nat): set<nat>
    requires IsRun(p, actions) && i < |actions|
    decreases i
  {
    var q := Next(p, actions[0]);
    if i == 0 then q.s.armed - p.s.armed else ArmedBy(q, actions[1..], i - 1)
  }

  lemma TimerNumbers(p: Sys, a: Action, t: nat)
    requires TimersTracked(p) && Enabled(p, a)
    ensures t in Next(p, a).s.armed - p.s.armed ==> Next(p, a).s.timer == Some(t) && t < Next(p, a).s.created
    ensures t < p.s.created && t !in p.s.armed ==> t < Next(p, a).s.created && t !in Next(p, a).s.armed
    ensures t < p.s.created && p.s.timer == Some(t) && !a.Callback? ==>
      t < Next(p, a).s.created
      && if Next(p, a).s.armed <= p.s.armed then Next(p, a).s.timer == Some(t) else t !in Next(p, a).s.armed
  {
  }

  /** A timer that is not counting down any more never fires again. */
  lemma {:induction false} GoneForGood(p: Sys, actions: seq<Action>, k: nat, t: nat)
    requires TimersTracked(p) && IsRun(p, actions) && k < |actions| && t < p.s.created && t !in p.s.armed
    ensures actions[k] != Fire(t)
    decreases k
  {
    if k > 0 {
      TimerNumbers(p, actions[0], t);
      TimersStep(p, actions[0]);
      hide TimersTracked, Next;
      GoneForGood(Next(p, actions[0]), actions[1..], k - 1, t);
    }
  }

  lemma {:induction false} StoppedByNext(p: Sys, actions: seq<Action>, j: nat, k: nat, t: nat)
    requires TimersTracked(p) && IsRun(p, actions) && j < k < |actions| && t < p.s.created && p.s.timer == Some(t)
    requires ArmedBy(p, actions, j) != {} && forall m :: 0 <= m <= j ==> !actions[m].Callback?
    ensures actions[k] != Fire(t)
    decreases j
  {
    var q := Next(p, actions[0]);
    TimerNumbers(p, actions[0], t);
    TimersStep(p, actions[0]);
    hide TimersTracked, Next;
    if t !in q.s.armed && !(q.s.armed <= p.s.armed) {
      GoneForGood(q, actions[1..], k - 1, t);
    } else if j > 0 {
      StoppedByNext(q, actions[1..], j - 1, k - 1, t);
    }
  }

  /** The debounce, over runs: a timer that action `i` armed does not fire after a later action `j` armed another one,
      unless a callback ran between the two. */
  lemma {:induction false} LaterRequestStops(p: Sys, actions: seq<Action>, i: nat, j: nat, k: nat, t: nat)
    requires TimersTracked(p) && IsRun(p, actions) && i < j < k < |actions|
    requires t in ArmedBy(p, actions, i) && ArmedBy(p, actions, j) != {}
    requires forall m :: i < m < j ==> !actions[m].Callback?
    ensures actions[k] != Fire(t)
    decreases i
  {
    var q := Next(p, actions[0]);
    TimersStep(p, actions[0]);
    assert ArmedBy(p, actions, j) == ArmedBy(q, actions[1..], j - 1);
    if i > 0 {
      hide TimersTracked, Next;
      LaterRequestStops(q, actions[1..], i - 1, j - 1, k - 1, t);
    } else {
      TimerNumbers(p, actions[0], t);
      if actions[j].Callback? {
        CallbackArmsNothing(q, actions[1..], j - 1);
      }
      hide TimersTracked, Next, ArmedBy;
      StoppedByNext(q, actions[1..], j - 1, k - 1, t);
    }
  }

  lemma {:induction false} CallbackArmsNothing(p: Sys, actions: seq<Action>, i: nat)
    requires IsRun(p, actions) && i < |actions| && actions[i].Callback?
    ensures ArmedBy(p, actions, i) == {}
    decreases i
  {
    if i > 0 {
      CallbackArmsNothing(Next(p, actions[0]), actions[1..], i - 1);
    }
  }

  /** Every timer counting down is the one in the field, so there is at most one. */
  ghost predicate FieldNamesAll(p: Sys) {
    forall t :: t in p.s.armed ==> p.s.timer == Some(t)
  }

  ghost predicate EverUnnamed(p: Sys, actions: seq<Action>)
    requires IsRun(p, actions)
    decreases |actions|
  {
    !FieldNamesAll(p) || (actions != [] && EverUnnamed(Next(p, actions[0]), actions[1..]))
  }

  /** Somewhere in the run, a callback runs while a newer timer is counting down. */
  ghost predicate Overtakes(p: Sys, actions: seq<Action>)
    requires IsRun(p, actions)
    decreases |actions|
  {
    actions != []
    && ((actions[0].Callback? && p.s.armed != {}) || Overtakes(Next(p, actions[0]), actions[1..]))
  }

  lemma NamesStep(p: Sys, a: Action)
    requires FieldNamesAll(p) && TimersTracked(p) && Enabled(p, a)
    ensures FieldNamesAll(Next(p, a)) <==> !(a.Callback? && p.s.armed != {})
    ensures |p.s.armed| <= 1
  {
    if t :| t in p.s.armed {
      assert p.s.armed == {t};
    }
  }

  /** The field names every timer that counts down all along, and so at most one counts down, if and only if no
      callback runs while a newer timer is counting down. */
  lemma {:induction false} OneTimerIff(p: Sys, actions: seq<Action>)
    requires FieldNamesAll(p) && TimersTracked(p) && IsRun(p, actions)
    ensures EverUnnamed(p, actions) <==> Overtakes(p, actions)
    ensures !Overtakes(p, actions) ==> |After(p, actions).s.armed| <= 1
    decreases |actions|
  {
    if actions != [] {
      NamesStep(p, actions[0]);
      TimersStep(p, actions[0]);
      hide FieldNamesAll, TimersTracked, Next, Enabled;
      var q := Next(p, actions[0]);
      if FieldNamesAll(q) {
        OneTimerIff(q, actions[1..]);
      } else {
        assert EverUnnamed(q, actions[1..]);
      }
    } else {
      NamesStep(p, NotifyOnly);
    }
  }

  /** Every callback of the run is that of the timer in the field. */
  ghost predicate CallbacksInTurn(p: Sys, actions: seq<Action>)
    requires IsRun(p, actions)
    decreases |actions|
  {
    actions != [] ==>
      && (actions[0].Callback? ==> p.s.timer == Some(actions[0].timer))
      && CallbacksInTurn(Next(p, actions[0]), actions[1..])
  }

  /** As long as each callback is that of the timer in the field, at most one timer counts down. */
  lemma {:induction false} OneTimerInTurn(p: Sys, actions: seq<Action>)
    requires FieldNamesAll(p) && TimersTracked(p) && IsRun(p, actions) && CallbacksInTurn(p, actions)
    ensures |After(p, actions).s.armed| <= 1
    decreases |actions|
  {
    if actions != [] {
      NamesStep(p, actions[0]);
      TimersStep(p, actions[0]);
      assert actions[0].Callback? ==> p.s.armed == {};
      hide FieldNamesAll, TimersTracked, Next, Enabled;
      OneTimerInTurn(Next(p, actions[0]), actions[1..]);
    } else {
      NamesStep(p, NotifyOnly);
    }
  }

  /** A callback out of turn: the first timer has fired, but its callback takes the lock only after the next request,
      and clears the field that names the second timer. The request after that arms a third one beside it. */
  lemma OvertakingArmsTwo()
    ensures exists actions :: IsRun(INITIAL, actions) && |After(INITIAL, actions).s.armed| == 2
  {
    var p1 := Next(INITIAL, NotifyOnly);
    var p2 := Next(p1, Fire(0));
    var p3 := Next(p2, NotifyOnly);
    var p4 := Next(p3, Callback(0));
    var p5 := Next(p4, NotifyOnly);
    var rest := [Fire(0), NotifyOnly, Callback(0), NotifyOnly];
    RunOf4(p1, p2, p3, p4, p5, rest);
    var actions := [NotifyOnly] + rest;
    assert actions[1..] == rest && p5.s.armed == {1, 2};
    assert IsRun(INITIAL, actions) && After(INITIAL, actions) == p5;
  }

  // ---------- Nothing is forgotten ----------

  /** Steps that the system takes on its own, without new work arriving. */
  predicate Internal(a: Action) {
    !(a.Begin? || a.Queue? || a.NotifyOnly?)
  }

  function Measure(p: Sys): nat {
    5 * |p.running| + 4 * |p.notifying| + 3 * |p.s.armed| + 2 * |p.s.fired| + |p.cleaning|
  }

  lemma MeasureDrops(p: Sys, a: Action)
    requires Inv(p) && Enabled(p, a) && Internal(a)
    ensures Measure(Next(p, a)) < Measure(p)
  {
    var q := Next(p, a);
    match a
    case Finish(t) => assert |q.running| == |p.running| - 1;
    case Notify(t) =>
      SubsetSize(q.s.armed, p.s.armed + {p.s.created});
      assert |p.s.armed + {p.s.created}| <= |p.s.armed| + 1;
      assert |q.notifying| == |p.notifying| - 1;
    case Fire(t) => assert |q.s.armed| == |p.s.armed| - 1 && |q.s.fired| <= |p.s.fired| + 1;
    case Callback(t) => assert |q.s.fired| == |p.s.fired| - 1 && |q.cleaning| <= |p.cleaning| + 1;
    case CleanDone(t) => assert |q.cleaning| == |p.cleaning| - 1;
    case _ =>
  }

  ghost predicate Quiet(p: Sys) {
    p.running == {} && p.notifying == {} && !TimerDue(p) && p.cleaning == {}
  }

  /** As long as the system is not quiet, some internal step is possible. */
  lemma NotQuietCanStep(p: Sys) returns (a: Action)
    requires !Quiet(p)
    ensures Enabled(p, a) && Internal(a)
  {
    if p.running != {} {
      var t :| t in p.running;
      a := Finish(t);
    } else if p.notifying != {} {
      var t :| t in p.notifying;
      a := Notify(t);
    } else if p.s.armed != {} {
      var t :| t in p.s.armed;
      a := Fire(t);
    } else if p.s.fired != {} {
      var t :| t in p.s.fired;
      a := Callback(t);
    } else {
      var t :| t in p.cleaning;
      a := CleanDone(t);
    }
  }

  /** Left alone, the system comes to rest after a bounded number of steps, whatever their order. */
  lemma {:induction false} ComesToRest(p: Sys, actions: seq<Action>)
    requires Inv(p) && IsRun(p, actions) && forall i :: 0 <= i < |actions| ==> Internal(actions[i])
    ensures |actions| + Measure(After(p, actions)) <= Measure(p)
    decreases |actions|
  {
    if actions != [] {
      MeasureDrops(p, actions[0]);
      InvStep(p, actions[0]);
      ComesToRest(Next(p, actions[0]), actions[1..]);
    }
  }

  // ---------- What the protocol does not promise ----------

  /** Only the decision to clean everything is taken without active tasks: the cleaning itself runs outside the
      lock, and a task may begin meanwhile. */
  lemma CleaningMayMeetATask()
    ensures exists actions ::
      IsRun(INITIAL, actions) && After(INITIAL, actions).cleaning != {} && After(INITIAL, actions).running != {}
  {
    var p1 := Next(INITIAL, NotifyOnly);
    var p2 := Next(p1, Fire(0));
    var p3 := Next(p2, Callback(0));
    var p4 := Next(p3, Begin(7));
    var actions := [NotifyOnly, Fire(0), Callback(0), Begin(7)];
    RunOf4(INITIAL, p1, p2, p3, p4, actions);
    assert 0 in p4.cleaning && 7 in p4.running;
  }

  predicate MeetsATask(p: Sys) {
    p.cleaning != {} && p.running != {}
  }

  /** Somewhere in the run, a full clean is deleting while a task is active. */
  ghost predicate EverMeets(p: Sys, actions: seq<Action>)
    requires IsRun(p, actions)
    decreases |actions|
  {
    MeetsATask(p) || (actions != [] && EverMeets(Next(p, actions[0]), actions[1..]))
  }

  /** Somewhere in the run, a task begins while a full clean is deleting. */
  ghost predicate BeginsDuringClean(p: Sys, actions: seq<Action>)
    requires IsRun(p, actions)
    decreases |actions|
  {
    actions != []
    && ((actions[0].Begin? && p.cleaning != {}) || BeginsDuringClean(Next(p, actions[0]), actions[1..]))
  }

  lemma MeetingStep(p: Sys, a: Action)
    requires Inv(p) && Enabled(p, a) && !MeetsATask(p)
    ensures MeetsATask(Next(p, a)) <==> a.Begin? && p.cleaning != {}
  {
    match a
    case Begin(t) => assert t in Next(p, a).running;
    case Callback(t) => assert p.s.active == 0 ==> p.running == {};
    case _ =>
  }

  /** They meet when a task begins during a clean: no clean is ever decided under a running task. */
  lemma {:induction false} MeetsIfBegins(p: Sys, actions: seq<Action>)
    requires Inv(p) && !MeetsATask(p) && IsRun(p, actions)
    ensures EverMeets(p, actions) <==> BeginsDuringClean(p, actions)
    decreases |actions|
  {
    if actions != [] {
      var q := Next(p, actions[0]);
      MeetingStep(p, actions[0]);
      InvStep(p, actions[0]);
      hide Inv, Next, Enabled, MeetsATask;
      if MeetsATask(q) {
        assert EverMeets(q, actions[1..]);
      } else {
        MeetsIfBegins(q, actions[1..]);
      }
    }
  }

  /** How many tasks have begun and not finished. */
  function Balance(actions: seq<Action>): int {
    if actions == [] then 0
    else
      var a := actions[|actions| - 1];
      Balance(actions[..|actions| - 1]) + if a.Begin? then 1 else if a.Finish? then -1 else 0
  }

  /** The callback that runs as action `i` finds no task and decides to clean everything. */
  ghost predicate Decides(actions: seq<Action>, i: nat) {
    i < |actions| && actions[i].Callback? && Balance(actions[..i]) == 0
  }

  /** The clean decided as action `i` has not been done. */
  ghost predicate StillCleans(actions: seq<Action>, i: nat, t: nat) {
    Decides(actions, i) && actions[i].timer == t && CleanDone(t) !in actions[i..]
  }

  lemma {:induction false} RunPrefix(p: Sys, actions: seq<Action>, k: nat)
    requires IsRun(p, actions) && k < |actions|
    ensures IsRun(p, actions[..k]) && Enabled(After(p, actions[..k]), actions[k])
    ensures k + 1 == |actions| ==> After(p, actions) == Next(After(p, actions[..k]), actions[k])
    decreases |actions|
  {
    hide Next, Enabled;
    if k > 0 {
      RunPrefix(Next(p, actions[0]), actions[1..], k - 1);
      assert actions[..k][1..] == actions[1..][..k - 1];
    }
  }

  /** What the state knows of the run: the unfinished tasks, and the cleans that were decided and not done. */
  lemma {:induction false} StateOfRun(actions: seq<Action>)
    requires IsRun(INITIAL, actions)
    ensures var p := After(INITIAL, actions);
      && Counted(p) && p.s.active == Balance(actions)
      && forall t :: t in p.cleaning <==> exists i :: StillCleans(actions, i, t)
    decreases |actions|
  {
    if actions != [] {
      var n := |actions| - 1;
      RunPrefix(INITIAL, actions, n);
      StateOfRun(actions[..n]);
      var p, a := After(INITIAL, actions[..n]), actions[n];
      CountedStep(p, a);
      BalanceStep(p, a);
      forall t ensures t in Next(p, a).cleaning <==> exists i :: StillCleans(actions, i, t) {
        CleaningStep(p, actions, t);
      }
    }
  }

  lemma BalanceStep(p: Sys, a: Action)
    requires Counted(p) && Enabled(p, a)
    ensures Next(p, a).s.active == p.s.active + if a.Begin? then 1 else if a.Finish? then -1 else 0
  {
    if a.Finish? {
      assert a.task in p.running;
    }
  }

  lemma CleaningStep(p: Sys, actions: seq<Action>, t: nat)
    requires actions != []
    requires var init := actions[..|actions| - 1];
      && Enabled(p, actions[|actions| - 1]) && p.s.active == Balance(init)
      && (t in p.cleaning <==> exists i :: StillCleans(init, i, t))
    ensures t in Next(p, actions[|actions| - 1]).cleaning <==> exists i :: StillCleans(actions, i, t)
  {
    var n := |actions| - 1;
    var init, a := actions[..n], actions[n];
    forall i: nat | i < n
      ensures StillCleans(actions, i, t) <==> StillCleans(init, i, t) && a != CleanDone(t)
    {
      assert init[..i] == actions[..i] && actions[i..] == init[i..] + [a];
    }
    assert actions[n..] == [a];
    assert StillCleans(actions, n, t) <==> a == Callback(t) && p.s.active == 0;
    if i: nat :| StillCleans(actions, i, t) {
      assert i < n || i == n;
    }
  }

  // ---------- At rest ----------

  /** The objects that a run queues, in order. */
  function Requested(actions: seq<Action>): seq<Obj> {
    if actions == [] then []
    else (if actions[0].Queue? then [actions[0].obj] else []) + Requested(actions[1..])
  }

  lemma {:induction false} QueuedOfRun(p: Sys, actions: seq<Action>)
    requires IsRun(p, actions)
    ensures After(p, actions).queued == p.queued + Requested(actions)
    decreases |actions|
  {
    if actions != [] {
      QueuedOfRun(Next(p, actions[0]), actions[1..]);
    }
  }

  /** Action `i` ends the last task, and no later callback decides to clean everything. */
  ghost predicate Owes(actions: seq<Action>, i: nat) {
    && i < |actions| && actions[i].Finish? && Balance(actions[..i + 1]) == 0
    && forall j :: i < j < |actions| ==> !Decides(actions, j)
  }

  lemma {:induction false} OwedOfRun(actions: seq<Action>)
    requires IsRun(INITIAL, actions)
    ensures After(INITIAL, actions).owed <==> exists i :: Owes(actions, i)
    decreases |actions|
  {
    if actions != [] {
      var n := |actions| - 1;
      RunPrefix(INITIAL, actions, n);
      OwedOfRun(actions[..n]);
      StateOfRun(actions[..n]);
      StateOfRun(actions);
      OwedStep(After(INITIAL, actions[..n]), actions);
    }
  }

  lemma OwesLonger(actions: seq<Action>, i: nat)
    requires i + 1 < |actions|
    ensures Owes(actions, i) <==> Owes(actions[..|actions| - 1], i) && !Decides(actions, |actions| - 1)
  {
    var init := actions[..|actions| - 1];
    assert init[..i + 1] == actions[..i + 1];
    forall j: nat | j < |init| ensures Decides(init, j) <==> Decides(actions, j) {
      assert init[..j] == actions[..j];
    }
    hide Balance, Decides;
  }

  lemma OwedStep(p: Sys, actions: seq<Action>)
    requires actions != [] && Enabled(p, actions[|actions| - 1])
    requires var init, q := actions[..|actions| - 1], Next(p, actions[|actions| - 1]);
      && p.s.active == Balance(init) && |q.running| == Balance(actions)
      && (p.owed <==> exists i :: Owes(init, i))
    ensures Next(p, actions[|actions| - 1]).owed <==> exists i :: Owes(actions, i)
  {
    var n := |actions| - 1;
    var init, a := actions[..n], actions[n];
    assert actions[..n + 1] == actions && actions[..n] == init;
    assert Owes(actions, n) <==> a.Finish? && |Next(p, a).running| == 0;
    assert Decides(actions, n) <==> a.Callback? && p.s.active == 0;
    hide Owes, Decides, Balance;
    forall i: nat | i < n
      ensures Owes(actions, i) <==> Owes(init, i) && !Decides(actions, n)
    {
      OwesLonger(actions, i);
    }
    if i: nat :| Owes(actions, i) {
      assert i < n || i == n;
    }
  }

  /** Whenever a run has come to rest, every object that it queued was handed to exactly one batch, in queueing order,
      everything was cleaned after the last task had ended, and never was that decided while a task was active. */
  lemma AtRestAllIsClean(actions: seq<Action>)
    requires IsRun(INITIAL, actions) && Quiet(After(INITIAL, actions))
    ensures var p := After(INITIAL, actions);
      && Concat(p.batches) == Requested(actions)
      && (forall i :: 0 <= i < |p.cleanedWith| ==> p.cleanedWith[i] == 0)
      && forall i :: 0 <= i < |actions| && actions[i].Finish? && Balance(actions[..i + 1]) == 0 ==>
          exists j :: i < j < |actions| && Decides(actions, j)
  {
    assert Inv(INITIAL);
    Safety(INITIAL, actions);
    QueuedOfRun(INITIAL, actions);
    OwedOfRun(actions);
    var p := After(INITIAL, actions);
    assert Concat(p.batches) + [] == Concat(p.batches) && [] + Requested(actions) == Requested(actions);
    forall i | 0 <= i < |actions| && actions[i].Finish? && Balance(actions[..i + 1]) == 0
      ensures exists j :: i < j < |actions| && Decides(actions, j)
    {
      assert !Owes(actions, i);
    }
  }

  // ---------- Cleaning beside a task ----------

  /** A task begins while a clean is deleting: as action `j`, after the clean was decided as action `i`. */
  ghost predicate LateBegin(actions: seq<Action>, i: nat, j: nat) {
    i < j < |actions| && actions[j].Begin? && Decides(actions, i) && CleanDone(actions[i].timer) !in actions[i..j]
  }

  ghost predicate BeginsAt(p: Sys, actions: seq<Action>, j: nat) {
    j < |actions| && actions[j].Begin? && IsRun(p, actions[..j]) && After(p, actions[..j]).cleaning != {}
  }

  lemma {:induction false} BeginsSomewhere(p: Sys, actions: seq<Action>)
    requires IsRun(p, actions)
    ensures BeginsDuringClean(p, actions) <==> exists j :: BeginsAt(p, actions, j)
    decreases |actions|
  {
    if actions != [] {
      var q, rest := Next(p, actions[0]), actions[1..];
      BeginsSomewhere(q, rest);
      assert BeginsAt(p, actions, 0) <==> actions[0].Begin? && p.cleaning != {};
      forall j: nat | j < |rest| ensures BeginsAt(p, actions, j + 1) <==> BeginsAt(q, rest, j) {
        assert actions[..j + 1][1..] == rest[..j];
      }
      if j: nat :| BeginsAt(p, actions, j) {
        assert j == 0 || BeginsAt(q, rest, j - 1);
      }
      if j: nat :| BeginsAt(q, rest, j) {
        assert BeginsAt(p, actions, j + 1);
      }
    }
  }

  /** A full clean and a task are at work together in a run if and only if, in the list of its actions, a callback runs
      when as many tasks have finished as have begun, and a later task begins before that clean is done. */
  lemma MeetingIsALateBegin(actions: seq<Action>)
    requires IsRun(INITIAL, actions)
    ensures EverMeets(INITIAL, actions) <==> exists i, j :: LateBegin(actions, i, j)
  {
    MeetsIfBegins(INITIAL, actions);
    BeginsSomewhere(INITIAL, actions);
    hide EverMeets, BeginsDuringClean;
    forall j: nat | j < |actions| && actions[j].Begin?
      ensures BeginsAt(INITIAL, actions, j) <==> exists i :: LateBegin(actions, i, j)
    {
      LateBeginAt(actions, j);
    }
    if j: nat :| BeginsAt(INITIAL, actions, j) {
      var i :| LateBegin(actions, i, j);
    }
    if i: nat, j: nat :| LateBegin(actions, i, j) {
      assert BeginsAt(INITIAL, actions, j);
    }
  }

  lemma LateBeginAt(actions: seq<Action>, j: nat)
    requires IsRun(INITIAL, actions) && j < |actions| && actions[j].Begin?
    ensures BeginsAt(INITIAL, actions, j) <==> exists i :: LateBegin(actions, i, j)
  {
    hide Next, Enabled, IsRun, After, Balance, Counted;
    RunPrefix(INITIAL, actions, j);
    var before := actions[..j];
    StateOfRun(before);
    forall i: nat | i < j
      ensures before[i] == actions[i] && before[..i] == actions[..i] && before[i..] == actions[i..j]
    {
    }
    var p := After(INITIAL, before);
    if t :| t in p.cleaning {
      var i :| StillCleans(before, i, t);
      assert LateBegin(actions, i, j);
    }
    if i: nat :| LateBegin(actions, i, j) {
      assert before[i..] == actions[i..j] && Decides(before, i);
      assert StillCleans(before, i, actions[i].timer);
      assert actions[i].timer in p.cleaning;
    }
  }

  lemma RunOf4(p: Sys, p1: Sys, p2: Sys, p3: Sys, p4: Sys, actions: seq<Action>)
    requires |actions| == 4
    requires Enabled(p, actions[0]) && p1 == Next(p, actions[0]) && Enabled(p1, actions[1]) &&
      p2 == Next(p1, actions[1])
    requires Enabled(p2, actions[2]) && p3 == Next(p2, actions[2]) && Enabled(p3, actions[3]) &&
      p4 == Next(p3, actions[3])
    ensures IsRun(p, actions) && After(p, actions) == p4
  {
    var a1, a2, a3, a4 := actions[1..], actions[2..], actions[3..], actions[4..];
    assert a1[1..] == a2 && a2[1..] == a3 && a3[1..] == a4 && a4 == [];
    assert IsRun(p3, a3) && After(p3, a3) == p4;
    assert IsRun(p2, a2) && After(p2, a2) == p4;
    assert IsRun(p1, a1) && After(p1, a1) == p4;
  }
}
