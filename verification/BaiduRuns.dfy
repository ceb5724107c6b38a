/** Uploads of drivers/baidu_netdisk/driver.go on the cache of drivers/base/upload.go, as steps of runs that interleave.
    A PrecreateResp is one object: each run that takes it from the cache works on the same block list. */
module BaiduRuns {
  import opened Options
  import opened PartLists

  /** One PrecreateResp with the service's side of it. The file has `count` slices, numbered from 0, and the service
      `asked` for some of them; it holds `server`, and the client has seen `seen` to be there. `list` is the block list
      now, and `older` are the arrays it was before, which a loop that began earlier still reads. */
  datatype Session = Session(
    key: Key, count: nat, asked: set<int>, server: set<int>, seen: set<int>, older: seq<seq<int>>, list: seq<int>,
    created: bool)

  function All(e: Session): set<int> {
    AllParts(0, e.count)
  }

  /** Array number `version` of the block list. */
  function Version(e: Session, version: nat): seq<int> {
    if version < |e.older| then e.older[version] else e.list
  }

  /** The answer to a precreate request; what the service does not ask for it has. */
  function Opened(key: Key, count: nat, list: seq<int>): Session {
    var have := AllParts(0, count) - Remaining(list);
    Session(key, count, Remaining(list), have, have, [], list, false)
  }

  /** A call of Put: in its loop over the slices, between an expired upload id and the next precreate, or at the create
      request. `expiries` counts the rounds of the outer loop that are over. */
  datatype Run =
    | Attempting(key: Key, expiries: nat, id: nat, version: nat, attempt: Attempt)
    | Renewing(key: Key, expiries: nat, count: nat)
    | Creating(key: Key, expiries: nat, id: nat)
    | Ended

  /** `crashed`: an index was out of range, which ends the process. */
  datatype Sys = Sys(cache: map<Key, nat>, sessions: map<nat, Session>, runs: map<nat, Run>, crashed: bool)

  datatype Action =
    | Start(run: nat, key: Key, id: nat, count: nat, list: seq<int>)
    | Launch(run: nat)
    | Received(run: nat, i: nat)
    | Blanked(run: nat, i: nat)
    | SliceFails(run: nat, i: nat, cause: Cause)
    | Cancel(run: nat)
    | WaitOk(run: nat)
    | WaitFails(run: nat)
    | Renew(run: nat, id: nat, list: seq<int>)
    | NotRenewed(run: nat)
    | Create(run: nat, accepted: bool)
    | Expire(key: Key)

  const INITIAL := Sys(map[], map[], map[], false)

  function Held(run: Run): Option<nat> {
    if run.Attempting? || run.Creating? then Some(run.id) else None
  }

  predicate IsAttempting(s: Sys, r: nat) {
    r in s.runs && s.runs[r].Attempting? && s.runs[r].id in s.sessions
  }

  /** The array over which the loop of the run goes. */
  function LoopList(s: Sys, r: nat): seq<int>
    requires IsAttempting(s, r)
  {
    Version(s.sessions[s.runs[r].id], s.runs[r].version)
  }

  predicate IsActive(s: Sys, r: nat, i: nat) {
    IsAttempting(s, r) && i in s.runs[r].attempt.active
  }

  /** What the service may answer to precreate: each slice of the file at most once. */
  ghost predicate ProperList(list: seq<int>, count: nat) {
    Distinct(list) && Remaining(list) <= AllParts(0, count)
  }

  ghost predicate Enabled(s: Sys, a: Action) {
    !s.crashed &&
    match a
    case Start(r, key, id, count, list) =>
      r !in s.runs &&
      if key in s.cache then s.cache[key] in s.sessions
      else id !in s.sessions && ProperList(list, count)
    case Launch(r) => IsAttempting(s, r) && CanLaunch(LoopList(s, r), s.runs[r].attempt)
    case Received(r, i) => IsActive(s, r, i)
    case Blanked(r, i) => IsActive(s, r, i) && s.runs[r].attempt.active[i] in s.sessions[s.runs[r].id].server
    case SliceFails(r, i, cause) => IsActive(s, r, i)
    case Cancel(r) => IsAttempting(s, r)
    case WaitOk(r) => IsAttempting(s, r) && EndsWell(LoopList(s, r), s.runs[r].attempt)
    case WaitFails(r) => IsAttempting(s, r) && EndsBadly(s.runs[r].attempt)
    case Renew(r, id, list) =>
      r in s.runs && s.runs[r].Renewing? && id !in s.sessions && ProperList(list, s.runs[r].count)
    case NotRenewed(r) => r in s.runs && s.runs[r].Renewing?
    case Create(r, _) => r in s.runs && s.runs[r].Creating? && s.runs[r].id in s.sessions
    case Expire(key) => key in s.cache
  }

  /** A run and its session change together. */
  function Moved(s: Sys, r: nat, run: Run, id: nat, e: Session): Sys {
    s.(runs := s.runs[r := run], sessions := s.sessions[id := e])
  }

  /** A slice has reached the service. */
  function Gained(e: Session, x: int): Session { e.(server := e.server + {x}) }

  /** Success of slice `x` is noted at index `i` of the block list as it is now. */
  function Noted(e: Session, i: nat, x: int): Session
    requires i < |e.list|
  {
    e.(list := e.list[i := BLANK], seen := e.seen + {x})
  }

  /** The block list is replaced by a new array without blanks. */
  function Filtered(e: Session): Session { e.(older := e.older + [e.list], list := Filter(e.list)) }

  /** The run after an attempt that failed. */
  function AfterFailure(run: Run, count: nat): Run
    requires run.Attempting? && run.attempt.stopped.Some?
  {
    if run.attempt.stopped.value.UploadIdExpired? then Renewing(run.key, run.expiries, count) else Ended
  }

  /** The run after a new precreate: a second round of the loop, or past the loop. */
  function AfterRenewal(run: Run, id: nat): Run
    requires run.Renewing?
  {
    if run.expiries + 1 < 2 then Attempting(run.key, run.expiries + 1, id, 0, BEGUN)
    else Creating(run.key, run.expiries + 1, id)
  }

  /** The steps. Start takes the saved progress or opens a session. The steps of the loop are as for every errgroup,
      with the list read from the loop's array and written in the present one. A failed attempt saves the progress
      whatever the error was. With an expired upload id a new session is opened, which is saved at once while the run
      goes on with it. A successful create request removes the saved progress of the key. */
  ghost function Next(s: Sys, a: Action): Sys
    requires Enabled(s, a)
  {
    match a
    case Start(r, key, id, count, list) =>
      if key in s.cache then
        var e := s.sessions[s.cache[key]];
        s.(cache := s.cache - {key}, runs := s.runs[r := Attempting(key, 0, s.cache[key], |e.older|, BEGUN)])
      else Moved(s, r, Attempting(key, 0, id, 0, BEGUN), id, Opened(key, count, list))
    case Launch(r) => s.(runs := s.runs[r := s.runs[r].(attempt := Launched(LoopList(s, r), s.runs[r].attempt))])
    case Received(r, i) =>
      s.(sessions := s.sessions[s.runs[r].id := Gained(s.sessions[s.runs[r].id], s.runs[r].attempt.active[i])])
    case Blanked(r, i) =>
      var run, e := s.runs[r], s.sessions[s.runs[r].id];
      if i < |e.list| then
        var after := run.(attempt := Returned(run.attempt, i, None));
        Moved(s, r, after, run.id, Noted(e, i, run.attempt.active[i]))
      else s.(crashed := true)
    case SliceFails(r, i, cause) =>
      s.(runs := s.runs[r := s.runs[r].(attempt := Returned(s.runs[r].attempt, i, Some(cause)))])
    case Cancel(r) => s.(runs := s.runs[r := s.runs[r].(attempt := Stopped(s.runs[r].attempt, Canceled))])
    case WaitOk(r) => s.(runs := s.runs[r := Creating(s.runs[r].key, s.runs[r].expiries, s.runs[r].id)])
    case WaitFails(r) =>
      var run, e := s.runs[r], s.sessions[s.runs[r].id];
      Moved(s, r, AfterFailure(run, e.count), run.id, Filtered(e)).(cache := s.cache[run.key := run.id])
    case Renew(r, id, list) =>
      var run := s.runs[r];
      Moved(s, r, AfterRenewal(run, id), id, Opened(run.key, run.count, list)).(cache := s.cache[run.key := id])
    case NotRenewed(r) => s.(runs := s.runs[r := Ended])
    case Create(r, accepted) =>
      var run, e := s.runs[r], s.sessions[s.runs[r].id];
      if accepted then Moved(s, r, Ended, run.id, e.(created := true)).(cache := s.cache - {run.key})
      else s.(runs := s.runs[r := Ended])
    case Expire(key) => s.(cache := s.cache - {key})
  }

  // ---------- What every step keeps while no two runs hold one session ----------

  /** The slices seen at the service and the remaining entries are together all slices, and no slice is in both. */
  ghost predicate SessionOk(e: Session) {
    && e.seen <= e.server <= All(e) && e.asked <= All(e)
    && Distinct(e.list) && Remaining(e.list) == All(e) - e.seen
  }

  /** How far a run is with its session. */
  ghost predicate Fits(run: Run, e: Session) {
    && !run.Ended? && run.key == e.key
    && match run
      case Attempting(_, expiries, _, version, attempt) =>
        expiries < 2 && version == |e.older| && Tracks(e.list, attempt)
      case Creating(_, expiries, _) =>
        if expiries < 2 then e.server == All(e) else expiries == 2 && e.server == e.seen == All(e) - e.asked
      case _ => false
  }

  ghost predicate RunOk(s: Sys, run: Run) {
    match run
    case Attempting(_, _, id, _, _) => id in s.sessions && Fits(run, s.sessions[id])
    case Creating(_, _, id) => id in s.sessions && Fits(run, s.sessions[id])
    case Renewing(_, expiries, _) => expiries < 2
    case Ended => true
  }

  ghost predicate Shared(s: Sys) {
    exists q, r :: q in s.runs && r in s.runs && q != r && Held(s.runs[q]).Some? && Held(s.runs[q]) == Held(s.runs[r])
  }

  /** Saved progress that a run still holds belongs to a run past its first expiry. */
  ghost predicate CachedIsSpare(s: Sys) {
    forall k, r :: k in s.cache && r in s.runs && Held(s.runs[r]) == Some(s.cache[k]) ==> s.runs[r].expiries >= 1
  }

  ghost predicate AllSessionsOk(s: Sys) { forall id :: id in s.sessions ==> SessionOk(s.sessions[id]) }

  ghost predicate AllCachedOk(s: Sys) {
    forall k :: k in s.cache ==> s.cache[k] in s.sessions && s.sessions[s.cache[k]].key == k
  }

  ghost predicate AllRunsOk(s: Sys) { forall r :: r in s.runs ==> RunOk(s, s.runs[r]) }

  ghost predicate Inv(s: Sys) {
    !s.crashed && AllSessionsOk(s) && AllCachedOk(s) && AllRunsOk(s) && !Shared(s) && CachedIsSpare(s)
  }

  ghost predicate Unheld(s: Sys, id: nat) {
    forall r :: r in s.runs ==> Held(s.runs[r]) != Some(id)
  }

  ghost predicate Uncached(s: Sys, id: nat) {
    forall k :: k in s.cache ==> s.cache[k] != id
  }

  /** The run that holds a session goes on with it. */
  lemma GoesOn(s: Sys, r: nat, run: Run, e: Session)
    requires Inv(s) && r in s.runs && Held(s.runs[r]).Some? && Held(run) == Held(s.runs[r])
    requires SessionOk(e) && Fits(run, e) && run.expiries == s.runs[r].expiries
    requires e.key == s.sessions[s.runs[r].id].key
    ensures Inv(Moved(s, r, run, s.runs[r].id, e))
  {
    hide SessionOk, Fits;
    var t := Moved(s, r, run, s.runs[r].id, e);
    assert AllRunsOk(t) by {
      forall q | q in t.runs ensures RunOk(t, t.runs[q]) {
        assert RunOk(s, s.runs[q]);
      }
    }
    assert forall q :: q in t.runs ==> q in s.runs && Held(t.runs[q]) == Held(s.runs[q]);
  }

  /** A run lets go of its session. */
  lemma LetsGo(s: Sys, r: nat, run: Run)
    requires Inv(s) && r in s.runs && Held(run).None? && RunOk(s, run)
    ensures var t := s.(runs := s.runs[r := run]);
      Inv(t) && (Held(s.runs[r]).Some? ==> Unheld(t, s.runs[r].id))
  {
    hide SessionOk, Fits;
  }

  /** A session that nobody holds changes. */
  lemma UnheldChanges(s: Sys, id: nat, e: Session)
    requires Inv(s) && Unheld(s, id) && SessionOk(e)
    requires id in s.sessions ==> e.key == s.sessions[id].key
    ensures Inv(s.(sessions := s.sessions[id := e]))
  {
    hide SessionOk, Fits;
    var t := s.(sessions := s.sessions[id := e]);
    forall q | q in t.runs ensures RunOk(t, t.runs[q]) {
      assert RunOk(s, s.runs[q]);
    }
  }

  lemma Saves(s: Sys, key: Key, id: nat)
    requires Inv(s) && id in s.sessions && s.sessions[id].key == key
    requires forall r :: r in s.runs && Held(s.runs[r]) == Some(id) ==> s.runs[r].expiries >= 1
    ensures Inv(s.(cache := s.cache[key := id]))
  {
    hide SessionOk, Fits;
  }

  lemma Uncaches(s: Sys, key: Key)
    requires Inv(s)
    ensures Inv(s.(cache := s.cache - {key}))
    ensures key in s.cache ==> Uncached(s.(cache := s.cache - {key}), s.cache[key])
  {
    hide SessionOk, Fits;
  }

  /** A run gets a session that nobody holds. */
  lemma Gets(s: Sys, r: nat, run: Run)
    requires Inv(s) && Held(run).Some? && Unheld(s, run.id) && RunOk(s, run)
    requires run.expiries >= 1 || Uncached(s, run.id)
    ensures Inv(s.(runs := s.runs[r := run]))
  {
    hide SessionOk, Fits;
  }

  /** A new session is nobody's. */
  lemma Opens(s: Sys, id: nat, key: Key, count: nat, list: seq<int>)
    requires Inv(s) && id !in s.sessions && ProperList(list, count)
    ensures var t := s.(sessions := s.sessions[id := Opened(key, count, list)]);
      Inv(t) && Unheld(t, id) && Uncached(t, id)
  {
    OpenedOk(key, count, list);
    assert Unheld(s, id) by {
      forall r | r in s.runs ensures Held(s.runs[r]) != Some(id) {
        assert RunOk(s, s.runs[r]);
      }
    }
    hide SessionOk, Fits, Inv, Opened, ProperList;
    UnheldChanges(s, id, Opened(key, count, list));
    assert Uncached(s, id) by { AreCached(s, id); }
  }

  lemma AreCached(s: Sys, id: nat)
    requires Inv(s) && id !in s.sessions
    ensures Uncached(s, id)
  {
  }

  lemma OpenedOk(key: Key, count: nat, list: seq<int>)
    requires ProperList(list, count)
    ensures SessionOk(Opened(key, count, list)) && Tracks(list, BEGUN)
    ensures var e := Opened(key, count, list); e.server == e.seen == All(e) - e.asked
  {
    hide AllParts, Remaining, Distinct;
    var e := Opened(key, count, list);
    assert All(e) - e.seen == Remaining(list);
  }

  // ---------- The steps ----------

  lemma LaunchFits(run: Run, e: Session)
    requires run.Attempting? && Fits(run, e) && CanLaunch(e.list, run.attempt)
    ensures Fits(run.(attempt := Launched(e.list, run.attempt)), e)
  {
    LaunchTracks(e.list, run.attempt);
  }

  lemma FailureFits(run: Run, e: Session, i: nat, cause: Cause)
    requires run.Attempting? && Fits(run, e)
    ensures Fits(run.(attempt := Returned(run.attempt, i, Some(cause))), e)
    ensures Fits(run.(attempt := Stopped(run.attempt, cause)), e)
  {
    ErrorTracks(e.list, run.attempt, i, cause);
  }

  /** The entry of a routine at work holds its slice, which has not been seen to succeed. */
  lemma ActiveFits(run: Run, e: Session, i: nat)
    requires run.Attempting? && SessionOk(e) && Fits(run, e) && i in run.attempt.active
    ensures i < |e.list| && e.list[i] == run.attempt.active[i] >= 0
    ensures e.list[i] in All(e) && e.list[i] !in e.seen
  {
    assert e.list[i] in Remaining(e.list);
  }

  lemma GainedFits(run: Run, e: Session, i: nat)
    requires run.Attempting? && SessionOk(e) && Fits(run, e) && i in run.attempt.active
    ensures SessionOk(Gained(e, run.attempt.active[i])) && Fits(run, Gained(e, run.attempt.active[i]))
  {
    ActiveFits(run, e, i);
    hide Remaining, Distinct, AllParts, Tracks;
  }

  lemma NotedFits(run: Run, e: Session, i: nat)
    requires run.Attempting? && SessionOk(e) && Fits(run, e) && i in run.attempt.active
    requires run.attempt.active[i] in e.server
    ensures i < |e.list| && SessionOk(Noted(e, i, run.attempt.active[i]))
    ensures Fits(run.(attempt := Returned(run.attempt, i, None)), Noted(e, i, run.attempt.active[i]))
  {
    ActiveFits(run, e, i);
    BlankOne(e.list, i);
    SuccessTracks(e.list, run.attempt, i);
    hide Remaining, Distinct, AllParts, Tracks, Returned;
  }

  lemma CreatingFits(run: Run, e: Session)
    requires run.Attempting? && SessionOk(e) && Fits(run, e) && EndsWell(e.list, run.attempt)
    ensures Fits(Creating(run.key, run.expiries, run.id), e) && e.server == All(e)
  {
    NoErrorMeansAllDone(e.list, run.attempt);
    hide Remaining, Distinct, AllParts, Tracks, EndsWell;
    assert forall k :: k in All(e) ==> k !in All(e) - e.seen;
  }

  lemma FilteredOk(e: Session)
    requires SessionOk(e)
    ensures SessionOk(Filtered(e)) && Remaining(Filtered(e).list) == Remaining(e.list)
  {
    FilterKeeps(e.list);
  }

  lemma LoopListIsList(s: Sys, r: nat)
    requires Inv(s) && IsAttempting(s, r)
    ensures var e := s.sessions[s.runs[r].id];
      SessionOk(e) && Fits(s.runs[r], e) && LoopList(s, r) == e.list
  {
    assert RunOk(s, s.runs[r]);
  }

  lemma SameSession(s: Sys, r: nat, run: Run, id: nat)
    requires id in s.sessions
    ensures Moved(s, r, run, id, s.sessions[id]) == s.(runs := s.runs[r := run])
  {
    assert s.sessions[id := s.sessions[id]] == s.sessions;
  }

  lemma LoopStepKeeps(s: Sys, a: Action)
    requires Inv(s) && Enabled(s, a)
    requires a.Launch? || a.SliceFails? || a.Cancel? || a.WaitOk?
    ensures Inv(Next(s, a))
  {
    LoopListIsList(s, a.run);
    var run, e := s.runs[a.run], s.sessions[s.runs[a.run].id];
    var moved := Next(s, a).runs[a.run];
    match a {
      case Launch(_) => LaunchFits(run, e);
      case SliceFails(_, i, cause) => FailureFits(run, e, i, cause);
      case Cancel(_) => FailureFits(run, e, 0, Canceled);
      case WaitOk(_) => CreatingFits(run, e);
    }
    SameSession(s, a.run, moved, run.id);
    hide Inv, SessionOk, Fits;
    GoesOn(s, a.run, moved, e);
  }

  lemma SliceStepKeeps(s: Sys, a: Action)
    requires Inv(s) && Enabled(s, a) && (a.Received? || a.Blanked?)
    ensures Inv(Next(s, a))
  {
    LoopListIsList(s, a.run);
    var run, e := s.runs[a.run], s.sessions[s.runs[a.run].id];
    match a {
      case Received(r, i) =>
        GainedFits(run, e, i);
        hide Inv, SessionOk, Fits;
        GoesOn(s, r, run, Gained(e, run.attempt.active[i]));
        assert s.runs[r := run] == s.runs;
      case Blanked(r, i) =>
        NotedFits(run, e, i);
        hide Inv, SessionOk, Fits;
        GoesOn(s, r, run.(attempt := Returned(run.attempt, i, None)), Noted(e, i, run.attempt.active[i]));
    }
  }

  /** Start takes saved progress that a run past its first expiry still holds. */
  ghost predicate TakesOver(s: Sys, a: Action) {
    a.Start? && a.key in s.cache &&
    exists r :: r in s.runs && Held(s.runs[r]) == Some(s.cache[a.key]) && s.runs[r].expiries >= 1 &&
      s.runs[r].key == a.key
  }

  lemma StartKeeps(s: Sys, a: Action)
    requires Inv(s) && Enabled(s, a) && a.Start? && !TakesOver(s, a)
    ensures Inv(Next(s, a))
  {
    if a.key in s.cache {
      TakenIsUnheld(s, a);
      var id := s.cache[a.key];
      var t := s.(cache := s.cache - {a.key});
      var run := Attempting(a.key, 0, id, |s.sessions[id].older|, BEGUN);
      assert RunOk(t, run);
      hide Inv, RunOk, SessionOk;
      Uncaches(s, a.key);
      Gets(t, a.run, run);
    } else {
      var t := s.(sessions := s.sessions[a.id := Opened(a.key, a.count, a.list)]);
      var run := Attempting(a.key, 0, a.id, 0, BEGUN);
      OpenedOk(a.key, a.count, a.list);
      assert RunOk(t, run);
      hide Inv, RunOk, SessionOk;
      Opens(s, a.id, a.key, a.count, a.list);
      Gets(t, a.run, run);
    }
  }

  /** Without a second owner, whoever still holds saved progress is past its first expiry. */
  lemma TakenIsUnheld(s: Sys, a: Action)
    requires Inv(s) && Enabled(s, a) && a.Start? && !TakesOver(s, a) && a.key in s.cache
    ensures Unheld(s, s.cache[a.key]) && s.sessions[s.cache[a.key]].key == a.key
  {
    forall r | r in s.runs ensures Held(s.runs[r]) != Some(s.cache[a.key]) {
      assert RunOk(s, s.runs[r]);
    }
  }

  lemma WaitFailsKeeps(s: Sys, a: Action)
    requires Inv(s) && Enabled(s, a) && a.WaitFails?
    ensures Inv(Next(s, a))
  {
    LoopListIsList(s, a.run);
    var run, e := s.runs[a.run], s.sessions[s.runs[a.run].id];
    FilteredOk(e);
    var after := AfterFailure(run, e.count);
    var t := s.(runs := s.runs[a.run := after]);
    var u := t.(sessions := t.sessions[run.id := Filtered(e)]);
    assert run.key == e.key == Filtered(e).key && RunOk(s, after);
    hide Inv, RunOk, SessionOk, Fits, Filtered, AfterFailure;
    LetsGo(s, a.run, after);
    UnheldChanges(t, run.id, Filtered(e));
    Saves(u, run.key, run.id);
  }

  lemma RenewKeeps(s: Sys, a: Action)
    requires Inv(s) && Enabled(s, a) && a.Renew?
    ensures Inv(Next(s, a))
  {
    var run := s.runs[a.run];
    assert RunOk(s, run);
    var after := AfterRenewal(run, a.id);
    var t := s.(sessions := s.sessions[a.id := Opened(run.key, run.count, a.list)]);
    var u := t.(runs := t.runs[a.run := after]);
    OpenedOk(run.key, run.count, a.list);
    assert RunOk(t, after) && t.sessions[a.id].key == run.key && Held(after) == Some(a.id) && after.expiries >= 1;
    hide Inv, RunOk, SessionOk, Opened, AfterRenewal;
    Opens(s, a.id, run.key, run.count, a.list);
    Gets(t, a.run, after);
    OnlyHolder(t, a.run, after);
    Saves(u, run.key, a.id);
  }

  lemma OnlyHolder(s: Sys, r: nat, run: Run)
    requires Held(run).Some? && Unheld(s, run.id)
    ensures var t := s.(runs := s.runs[r := run]);
      forall q :: q in t.runs && Held(t.runs[q]) == Some(run.id) ==> t.runs[q] == run
  {
  }

  lemma CreateKeeps(s: Sys, a: Action)
    requires Inv(s) && Enabled(s, a) && a.Create?
    ensures Inv(Next(s, a))
  {
    var run, e := s.runs[a.run], s.sessions[s.runs[a.run].id];
    var t := s.(runs := s.runs[a.run := Ended]);
    assert SessionOk(e) && SessionOk(e.(created := true));
    LetsGo(s, a.run, Ended);
    if a.accepted {
      hide Inv, SessionOk;
      UnheldChanges(t, run.id, e.(created := true));
      Uncaches(t.(sessions := t.sessions[run.id := e.(created := true)]), run.key);
    }
  }

  lemma InvStep(s: Sys, a: Action)
    requires Inv(s) && Enabled(s, a) && !TakesOver(s, a)
    ensures Inv(Next(s, a))
  {
    if a.NotRenewed? {
      LetsGo(s, a.run, Ended);
    } else {
      hide Inv;
      match a
      case Start(_, _, _, _, _) => StartKeeps(s, a);
      case Received(_, _) => SliceStepKeeps(s, a);
      case Blanked(_, _) => SliceStepKeeps(s, a);
      case WaitFails(_) => WaitFailsKeeps(s, a);
      case Renew(_, _, _) => RenewKeeps(s, a);
      case Create(_, _) => CreateKeeps(s, a);
      case Expire(key) => Uncaches(s, key);
      case _ => LoopStepKeeps(s, a);
    }
  }

  // ---------- Every run ----------

  ghost predicate IsRun(s: Sys, actions: seq<Action>)
    decreases |actions|
  {
    actions == [] || (Enabled(s, actions[0]) && IsRun(Next(s, actions[0]), actions[1..]))
  }

  ghost function After(s: Sys, actions: seq<Action>): Sys
    requires IsRun(s, actions)
    decreases |actions|
  {
    if actions == [] then s else After(Next(s, actions[0]), actions[1..])
  }

  ghost predicate NoTakeover(s: Sys, actions: seq<Action>)
    requires IsRun(s, actions)
    decreases |actions|
  {
    actions == [] || (!TakesOver(s, actions[0]) && NoTakeover(Next(s, actions[0]), actions[1..]))
  }

  ghost predicate EverShared(s: Sys, actions: seq<Action>)
    requires IsRun(s, actions)
    decreases |actions|
  {
    Shared(s) || (actions != [] && EverShared(Next(s, actions[0]), actions[1..]))
  }

  lemma {:induction false} Safety(s: Sys, actions: seq<Action>)
    requires Inv(s) && IsRun(s, actions) && NoTakeover(s, actions)
    ensures Inv(After(s, actions))
    decreases |actions|
  {
    if actions != [] {
      InvStep(s, actions[0]);
      hide Inv, Next, Enabled, TakesOver;
      Safety(Next(s, actions[0]), actions[1..]);
    }
  }

  lemma TakeoverShares(s: Sys, a: Action)
    requires Enabled(s, a) && TakesOver(s, a)
    ensures Shared(Next(s, a))
  {
    var r :| r in s.runs && Held(s.runs[r]) == Some(s.cache[a.key]);
    var t := Next(s, a);
    assert r in t.runs && a.run in t.runs && r != a.run && Held(t.runs[r]) == Held(t.runs[a.run]);
  }

  /** A session gets a second owner in a run if and only if some Start takes saved progress that a run past its first
      expiry still holds: its entry was neither taken, nor overwritten, nor did it expire. */
  lemma {:induction false} SharedIffTakeover(s: Sys, actions: seq<Action>)
    requires Inv(s) && IsRun(s, actions)
    ensures EverShared(s, actions) <==> !NoTakeover(s, actions)
    decreases |actions|
  {
    assert !Shared(s);
    if actions != [] {
      var a, rest := actions[0], actions[1..];
      if TakesOver(s, a) {
        TakeoverShares(s, a);
        assert EverShared(Next(s, a), rest);
      } else {
        InvStep(s, a);
        hide Inv, Shared, Next, Enabled, TakesOver;
        SharedIffTakeover(Next(s, a), rest);
      }
    }
  }

  lemma InitialOk()
    ensures Inv(INITIAL)
  {
  }

  // ---------- When the file is created ----------

  /** How many times run `r` opened a new session for an expired upload id. */
  function Renewals(actions: seq<Action>, r: nat): nat {
    if actions == [] then 0
    else (if actions[0].Renew? && actions[0].run == r then 1 else 0) + Renewals(actions[1..], r)
  }

  function Expiries(s: Sys, r: nat): nat {
    if r in s.runs && !s.runs[r].Ended? then s.runs[r].expiries else 0
  }

  ghost predicate IsOver(s: Sys, r: nat) { r in s.runs && s.runs[r].Ended? }

  lemma RenewalStep(s: Sys, a: Action, r: nat)
    requires Enabled(s, a)
    ensures IsOver(s, r) ==> IsOver(Next(s, a), r)
    ensures !IsOver(Next(s, a), r) ==> Expiries(Next(s, a), r) == Expiries(s, r) + Renewals([a], r)
  {
    hide Launched, Returned, Stopped, Filter, Opened, CanLaunch, EndsWell, EndsBadly;
    hide ProperList, Version, Remaining, AllParts;
    assert [a][1..] == [];
  }

  lemma {:induction false} OverStays(s: Sys, actions: seq<Action>, r: nat)
    requires IsRun(s, actions) && IsOver(s, r)
    ensures IsOver(After(s, actions), r)
    decreases |actions|
  {
    if actions != [] {
      RenewalStep(s, actions[0], r);
      OverStays(Next(s, actions[0]), actions[1..], r);
    }
  }

  /** The rounds of the loop that are over are the renewals of the run. */
  lemma {:induction false} ExpiriesAreRenewals(s: Sys, actions: seq<Action>, r: nat)
    requires IsRun(s, actions) && !IsOver(After(s, actions), r)
    ensures Expiries(After(s, actions), r) == Expiries(s, r) + Renewals(actions, r)
    decreases |actions|
  {
    if actions != [] {
      var a, rest := actions[0], actions[1..];
      RenewalStep(s, a, r);
      assert Renewals([a], r) + Renewals(rest, r) == Renewals(actions, r) by { assert [a][1..] == []; }
      hide Next, Enabled, Expiries, IsOver;
      if IsOver(Next(s, a), r) {
        OverStays(Next(s, a), rest, r);
      }
      ExpiriesAreRenewals(Next(s, a), rest, r);
    }
  }

  ghost predicate NoneExpired(s: Sys) {
    forall r :: Expiries(s, r) == 0
  }

  /** As long as no upload id expires, nobody gets a second owner. */
  lemma {:induction false} NoExpiryNoTakeover(s: Sys, actions: seq<Action>)
    requires IsRun(s, actions) && NoneExpired(s) && forall i :: 0 <= i < |actions| ==> !actions[i].Renew?
    ensures NoTakeover(s, actions)
    decreases |actions|
  {
    if actions != [] {
      var a := actions[0];
      assert !TakesOver(s, a) by {
        assert forall r :: r in s.runs && Held(s.runs[r]).Some? ==> Expiries(s, r) == s.runs[r].expiries;
      }
      forall r ensures Expiries(Next(s, a), r) == 0 {
        RenewalStep(s, a, r);
        assert [a][1..] == [];
      }
      hide Next, Enabled, TakesOver;
      NoExpiryNoTakeover(Next(s, a), actions[1..]);
    }
  }

  /** Uploads that follow one another: each one starts when all before it are over. */
  ghost predicate OneAtATime(s: Sys, actions: seq<Action>)
    requires IsRun(s, actions)
    decreases |actions|
  {
    actions == [] ||
    ((actions[0].Start? ==> forall r :: r in s.runs ==> s.runs[r].Ended?)
      && OneAtATime(Next(s, actions[0]), actions[1..]))
  }

  lemma {:induction false} OneAtATimeNoTakeover(s: Sys, actions: seq<Action>)
    requires IsRun(s, actions) && OneAtATime(s, actions)
    ensures NoTakeover(s, actions)
    decreases |actions|
  {
    if actions != [] {
      assert !TakesOver(s, actions[0]);
      hide Next, Enabled, TakesOver;
      OneAtATimeNoTakeover(Next(s, actions[0]), actions[1..]);
    }
  }

  /** After any number of uploads that were cancelled, failed, resumed, renewed or created, in any interleaving in which
      no session got a second owner: a create request comes with every slice at the service, if and only if its run
      did not see the upload id expire twice or the third session asks for nothing. */
  lemma CreatesAreComplete(actions: seq<Action>, r: nat, accepted: bool)
    requires IsRun(INITIAL, actions) && NoTakeover(INITIAL, actions)
    requires Enabled(After(INITIAL, actions), Create(r, accepted))
    ensures var s := After(INITIAL, actions);
      var e := s.sessions[s.runs[r].id];
      && (e.server == All(e) <==> Renewals(actions, r) < 2 || e.asked == {})
      && (Renewals(actions, r) >= 2 ==> e.server == All(e) - e.asked)
  {
    InitialOk();
    Safety(INITIAL, actions);
    var s := After(INITIAL, actions);
    assert RunOk(s, s.runs[r]);
    var e := s.sessions[s.runs[r].id];
    assert SessionOk(e) && Fits(s.runs[r], e);
    ExpiriesAreRenewals(INITIAL, actions, r);
    hide Remaining, Distinct, AllParts;
    assert e.asked != {} && e.server == All(e) - e.asked ==> e.server != All(e) by {
      if e.asked != {} {
        var x :| x in e.asked;
        assert x in All(e) && x !in All(e) - e.asked;
      }
    }
  }

  /** In the same runs: what the service holds and the remaining entries are together all slices, no matter who holds
      the session; an entry that remains was not seen to succeed; no index is ever out of range. */
  lemma NothingIsLost(actions: seq<Action>, id: nat)
    requires IsRun(INITIAL, actions) && NoTakeover(INITIAL, actions)
    ensures var s := After(INITIAL, actions);
      && !s.crashed
      && (id in s.sessions ==>
            var e := s.sessions[id];
            && e.server + Remaining(e.list) == All(e)
            && Remaining(e.list) == All(e) - e.seen && e.seen <= e.server && Distinct(e.list))
  {
    InitialOk();
    Safety(INITIAL, actions);
    var s := After(INITIAL, actions);
    hide Remaining, Distinct, AllParts;
    if id in s.sessions {
      assert SessionOk(s.sessions[id]);
    }
  }

  // ---------- What a run sends ----------

  /** The slices for which run `r` starts routines, in order. */
  ghost function Sent(s: Sys, actions: seq<Action>, r: nat): seq<int>
    requires IsRun(s, actions)
    decreases |actions|
  {
    if actions == [] then []
    else SentBy(s, actions[0], r) + Sent(Next(s, actions[0]), actions[1..], r)
  }

  ghost function SentBy(s: Sys, a: Action, r: nat): seq<int>
    requires Enabled(s, a)
  {
    if a == Launch(r) && LoopList(s, r)[s.runs[r].attempt.next] >= 0
    then [LoopList(s, r)[s.runs[r].attempt.next]]
    else []
  }

  /** What the loop of run `r` still has to send. */
  ghost function ToSend(s: Sys, r: nat): seq<int> {
    if IsAttempting(s, r) && s.runs[r].attempt.next <= |LoopList(s, r)|
    then Filter(LoopList(s, r)[s.runs[r].attempt.next..])
    else []
  }

  lemma {:induction false} FilterCons(x: int, parts: seq<int>)
    ensures Filter([x] + parts) == (if x >= 0 then [x] else []) + Filter(parts)
  {
    var all := [x] + parts;
    if parts == [] {
      assert all[..0] == [] && Filter([]) == [];
      assert Filter(all) == Filter([]) + (if x >= 0 then [x] else []);
    } else {
      FilterCons(x, parts[..|parts| - 1]);
      assert all[..|all| - 1] == [x] + parts[..|parts| - 1];
    }
  }

  lemma LaunchSends(list: seq<int>, next: nat)
    requires next < |list|
    ensures Filter(list[next..]) == (if list[next] >= 0 then [list[next]] else []) + Filter(list[next + 1..])
  {
    assert list[next..] == [list[next]] + list[next + 1..];
    FilterCons(list[next], list[next + 1..]);
  }

  function Actor(a: Action): Option<nat> { if a.Expire? then None else Some(a.run) }

  /** A step of another run leaves a run and its session alone. */
  lemma OthersKeepOut(s: Sys, a: Action, r: nat)
    requires Inv(s) && Enabled(s, a) && Actor(a) != Some(r) && IsAttempting(s, r)
    ensures var t := Next(s, a);
      IsAttempting(t, r) && t.runs[r] == s.runs[r] && t.sessions[s.runs[r].id] == s.sessions[s.runs[r].id]
  {
    hide Launched, Returned, Stopped, Filter, Opened, CanLaunch, EndsWell, EndsBadly;
    hide ProperList, Version, Remaining, AllParts;
    hide AllSessionsOk, AllRunsOk, AllCachedOk, CachedIsSpare;
    assert !a.Start? && !a.Expire? && !a.Renew? && !a.NotRenewed? ==> Held(s.runs[a.run]) != Held(s.runs[r]);
  }

  lemma OwnSliceStep(s: Sys, a: Action)
    requires Inv(s) && Enabled(s, a) && (a.Blanked? || a.Received?)
    ensures SentBy(s, a, a.run) == [] && IsAttempting(Next(s, a), a.run)
    ensures ToSend(Next(s, a), a.run) == ToSend(s, a.run)
  {
    LoopListIsList(s, a.run);
    var run, e := s.runs[a.run], s.sessions[s.runs[a.run].id];
    ActiveFits(run, e, a.i);
    assert a.i < run.attempt.next <= |e.list|;
    assert e.list[a.i := BLANK][run.attempt.next..] == e.list[run.attempt.next..];
    hide Inv, Filter, SessionOk, Fits;
  }

  lemma OwnLoopStep(s: Sys, a: Action)
    requires Inv(s) && Enabled(s, a) && (a.Launch? || a.SliceFails? || a.Cancel? || a.WaitOk?)
    ensures SentBy(s, a, a.run) + ToSend(Next(s, a), a.run) == ToSend(s, a.run)
    ensures IsAttempting(Next(s, a), a.run) || (a.WaitOk? && Next(s, a).runs[a.run].Creating?)
  {
    LoopListIsList(s, a.run);
    hide Filter, SessionOk, Returned, Stopped;
    if a.Launch? {
      LaunchSends(LoopList(s, a.run), s.runs[a.run].attempt.next);
    } else if a.WaitOk? {
      assert LoopList(s, a.run)[s.runs[a.run].attempt.next..] == [];
      FilterKeeps([]);
    }
  }

  /** What was sent and what is left to send stay the same list together, until Wait fails. */
  lemma SentStep(s: Sys, a: Action, r: nat)
    requires Inv(s) && Enabled(s, a) && IsAttempting(s, r) && a != WaitFails(r)
    ensures SentBy(s, a, r) + ToSend(Next(s, a), r) == ToSend(s, r)
    ensures IsAttempting(Next(s, a), r) || (a == WaitOk(r) && Next(s, a).runs[r].Creating?)
  {
    if Actor(a) != Some(r) {
      OthersKeepOut(s, a, r);
    } else if a.Blanked? || a.Received? {
      OwnSliceStep(s, a);
    } else {
      assert a.Launch? || a.SliceFails? || a.Cancel? || a.WaitOk?;
      hide Inv, ToSend, SentBy, Next;
      OwnLoopStep(s, a);
    }
  }

  lemma {:induction false} AfterTheLoop(s: Sys, actions: seq<Action>, r: nat)
    requires IsRun(s, actions) && r in s.runs && (s.runs[r].Creating? || s.runs[r].Ended?)
    ensures Sent(s, actions, r) == []
    decreases |actions|
  {
    if actions != [] {
      var t := Next(s, actions[0]);
      assert r in t.runs && (t.runs[r].Creating? || t.runs[r].Ended?);
      AfterTheLoop(t, actions[1..], r);
    }
  }

  /** An attempt that gets through its loop without an error sends exactly the entries of its list, in order: for a run
      that takes saved progress, these are the slices not yet seen at the service. */
  lemma {:induction false} AttemptSends(s: Sys, actions: seq<Action>, r: nat)
    requires Inv(s) && IsRun(s, actions) && NoTakeover(s, actions) && IsAttempting(s, r)
    requires WaitOk(r) in actions && WaitFails(r) !in actions
    ensures Sent(s, actions, r) == ToSend(s, r)
    decreases |actions|
  {
    var a, rest := actions[0], actions[1..];
    SentStep(s, a, r);
    InvStep(s, a);
    var t := Next(s, a);
    hide Inv, Next, Enabled, TakesOver, ToSend;
    if a == WaitOk(r) {
      AfterTheLoop(t, rest, r);
    } else {
      AttemptSends(t, rest, r);
    }
  }

  /** A run that takes saved progress sends, if its loop ends without an error, each slice that was not yet seen at the
      service, once, and no other. */
  lemma ResumedSendsTheRest(s: Sys, a: Action, actions: seq<Action>)
    requires Inv(s) && Enabled(s, a) && a.Start? && !TakesOver(s, a) && a.key in s.cache
    requires IsRun(Next(s, a), actions) && NoTakeover(Next(s, a), actions)
    requires WaitOk(a.run) in actions && WaitFails(a.run) !in actions
    ensures var sent, e := Sent(Next(s, a), actions, a.run), s.sessions[s.cache[a.key]];
      Distinct(sent) && Remaining(sent) == All(e) - e.seen && forall i :: 0 <= i < |sent| ==> sent[i] >= 0
  {
    InvStep(s, a);
    var t := Next(s, a);
    var e := s.sessions[s.cache[a.key]];
    assert SessionOk(e) && LoopList(t, a.run) == e.list && e.list[0..] == e.list;
    FilterKeeps(e.list);
    AttemptSends(t, actions, a.run);
  }

  /** A failed attempt and the run that takes up its progress: the same session and the same remaining slices. */
  lemma FailedIsResumed(s: Sys, r: nat, q: nat)
    requires Inv(s) && Enabled(s, WaitFails(r)) && q !in s.runs
    ensures var t := Next(s, WaitFails(r));
      var b := Start(q, s.runs[r].key, 0, 0, []);
      && Enabled(t, b) && !TakesOver(t, b)
      && IsAttempting(Next(t, b), q) && Next(t, b).runs[q].id == s.runs[r].id
      && var e, f := s.sessions[s.runs[r].id], Next(t, b).sessions[s.runs[r].id];
        && f.server == e.server && f.seen == e.seen
        && f.list == Filter(e.list) && Remaining(f.list) == Remaining(e.list)
  {
    LoopListIsList(s, r);
    FilteredOk(s.sessions[s.runs[r].id]);
    assert forall k :: k in s.runs && k != r ==> Held(s.runs[k]) != Some(s.runs[r].id);
  }

  lemma {:induction false} RunAppend(s: Sys, actions: seq<Action>, more: seq<Action>)
    requires IsRun(s, actions) && IsRun(After(s, actions), more)
    ensures IsRun(s, actions + more) && After(s, actions + more) == After(After(s, actions), more)
    decreases |actions|
  {
    hide Next, Enabled;
    if actions == [] {
      assert [] + more == more;
    } else {
      RunAppend(Next(s, actions[0]), actions[1..], more);
      assert (actions + more)[1..] == actions[1..] + more;
    }
  }

  lemma RunSnoc(s: Sys, actions: seq<Action>, a: Action)
    requires IsRun(s, actions) && Enabled(After(s, actions), a)
    ensures IsRun(s, actions + [a]) && After(s, actions + [a]) == Next(After(s, actions), a)
  {
    hide Next, Enabled;
    assert [a][1..] == [];
    assert IsRun(Next(After(s, actions), a), []);
    RunAppend(s, actions, [a]);
  }
}
