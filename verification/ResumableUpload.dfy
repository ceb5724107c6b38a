/** FastUpload of drivers/189pc/utils.go, with the cache of saved progress in drivers/base/upload.go: what every
    interleaving of uploading runs keeps. */
module ResumableUpload {
  import opened Options
  import opened PartLists

  // ---------- Runs of FastUpload ----------

  datatype Progress = Progress(id: nat, parts: seq<int>)

  /** An upload session: its number of parts, those the server holds, those whose success the client has seen,
      whether the server had the file already, and whether the session was committed. */
  datatype Session = Session(total: nat, server: set<int>, seen: set<int>, hasFile: bool, committed: bool)

  /** All parts of a session; they are numbered from 1. */
  function All(e: Session): set<int> {
    AllParts(1, e.total)
  }

  datatype Run = Uploading(key: Key, progress: Progress, attempt: Attempt) | Committing(id: nat) | Ended

  datatype Sys = Sys(cache: map<Key, Progress>, sessions: map<nat, Session>, runs: map<nat, Run>)

  datatype Action =
    | Start(run: nat, key: Key, id: nat, total: nat, dataExists: bool)
    | Launch(run: nat)
    | Received(run: nat, i: nat)
    | Blanked(run: nat, i: nat)
    | PartFails(run: nat, i: nat, cause: Cause)
    | Cancel(run: nat)
    | WaitOk(run: nat)
    | WaitFails(run: nat)
    | Commit(run: nat, accepted: bool)
    | Expire(key: Key)

  const INITIAL := Sys(map[], map[], map[])

  predicate IsUploading(s: Sys, r: nat) {
    r in s.runs && s.runs[r].Uploading? && s.runs[r].progress.id in s.sessions
  }

  /** Routine `i` of the run is at work. */
  predicate IsActive(s: Sys, r: nat, i: nat) {
    IsUploading(s, r) && i in s.runs[r].attempt.active
  }

  predicate Enabled(s: Sys, a: Action) {
    match a
    case Start(r, key, id, total, _) => r !in s.runs && (key in s.cache || id !in s.sessions)
    case Launch(r) => IsUploading(s, r) && CanLaunch(s.runs[r].progress.parts, s.runs[r].attempt)
    case Received(r, i) => IsActive(s, r, i)
    case Blanked(r, i) => IsActive(s, r, i) && i < |s.runs[r].progress.parts|
      && s.runs[r].attempt.active[i] in s.sessions[s.runs[r].progress.id].server
    case PartFails(r, i, cause) => IsActive(s, r, i)
    case Cancel(r) => IsUploading(s, r)
    case WaitOk(r) => IsUploading(s, r) && EndsWell(s.runs[r].progress.parts, s.runs[r].attempt)
    case WaitFails(r) => IsUploading(s, r) && EndsBadly(s.runs[r].attempt)
    case Commit(r, _) => r in s.runs && s.runs[r].Committing? && s.runs[r].id in s.sessions
    case Expire(key) => key in s.cache
  }

  function SetAttempt(s: Sys, r: nat, a: Attempt): Sys
    requires IsUploading(s, r)
  {
    s.(runs := s.runs[r := s.runs[r].(attempt := a)])
  }

  /** The steps: taking the saved progress or opening a session; starting the routine of an entry; a part reaching the
      server, and the routine blanking its entry, or failing; the cancellation of the upload; the two results of Wait;
      the commit; and the expiry of saved progress. */
  function Next(s: Sys, a: Action): Sys
    requires Enabled(s, a)
  {
    match a
    case Start(r, key, id, total, dataExists) =>
      if key in s.cache then s.(cache := s.cache - {key}, runs := s.runs[r := Uploading(key, s.cache[key], BEGUN)])
      else
        var t := s.(sessions := s.sessions[id := Session(total, {}, {}, dataExists, false)]);
        t.(runs := s.runs[r :=
          if dataExists then Committing(id) else Uploading(key, Progress(id, Numbered(1, total)), BEGUN)])
    case Launch(r) => SetAttempt(s, r, Launched(s.runs[r].progress.parts, s.runs[r].attempt))
    case Received(r, i) =>
      var id := s.runs[r].progress.id;
      var e := s.sessions[id];
      s.(sessions := s.sessions[id := e.(server := e.server + {s.runs[r].attempt.active[i]})])
    case Blanked(r, i) =>
      var p := s.runs[r].progress;
      var e := s.sessions[p.id];
      s.(sessions := s.sessions[p.id := e.(seen := e.seen + {s.runs[r].attempt.active[i]})],
         runs := s.runs[r :=
           s.runs[r].(progress := p.(parts := p.parts[i := BLANK]), attempt := Returned(s.runs[r].attempt, i, None))])
    case PartFails(r, i, cause) => SetAttempt(s, r, Returned(s.runs[r].attempt, i, Some(cause)))
    case Cancel(r) => SetAttempt(s, r, Stopped(s.runs[r].attempt, Canceled))
    case WaitOk(r) => s.(runs := s.runs[r := Committing(s.runs[r].progress.id)])
    case WaitFails(r) =>
      var p := s.runs[r].progress;
      var t := s.(runs := s.runs[r := Ended]);
      if s.runs[r].attempt.stopped.value == Canceled
        then t.(cache := s.cache[s.runs[r].key := p.(parts := Filter(p.parts))]) else t
    case Commit(r, accepted) =>
      var t := s.(runs := s.runs[r := Ended]);
      if accepted then t.(sessions := s.sessions[s.runs[r].id := s.sessions[s.runs[r].id].(committed := true)]) else t
    case Expire(key) => s.(cache := s.cache - {key})
  }

  // ---------- What every step keeps ----------

  /** The server can finish the session. */
  ghost predicate Complete(e: Session) {
    e.hasFile || e.server == All(e)
  }

  ghost predicate SessionOk(e: Session) {
    e.seen <= e.server <= All(e) && (e.committed ==> Complete(e))
  }

  /** The parts seen to succeed and the remaining entries are together all parts, and no part is in both. */
  ghost predicate ProgressOk(s: Sys, p: Progress) {
    p.id in s.sessions && Distinct(p.parts) && Remaining(p.parts) == All(s.sessions[p.id]) - s.sessions[p.id].seen
  }

  /** No entry from `next` on is blank; so each one is sent as a part. */
  ghost predicate NoBlanks(parts: seq<int>, next: nat) {
    forall i :: next <= i < |parts| ==> parts[i] >= 0
  }

  ghost predicate RunOk(s: Sys, r: Run) {
    match r
    case Uploading(_, p, a) => ProgressOk(s, p) && Tracks(p.parts, a) && NoBlanks(p.parts, a.next)
    case Committing(id) => id in s.sessions && Complete(s.sessions[id])
    case Ended => true
  }

  function SessionOf(r: Run): Option<nat> {
    match r
    case Uploading(_, p, _) => Some(p.id)
    case Committing(id) => Some(id)
    case Ended => None
  }

  /** Each session is in the hands of one run, or of the cache under one key. */
  ghost predicate OneOwner(s: Sys) {
    && (forall q, r :: q in s.runs && r in s.runs && q != r && SessionOf(s.runs[q]).Some? ==>
          SessionOf(s.runs[q]) != SessionOf(s.runs[r]))
    && (forall k, r :: k in s.cache && r in s.runs ==> SessionOf(s.runs[r]) != Some(s.cache[k].id))
    && (forall k, l :: k in s.cache && l in s.cache && k != l ==> s.cache[k].id != s.cache[l].id)
  }

  ghost predicate AllSessionsOk(s: Sys) { forall id :: id in s.sessions ==> SessionOk(s.sessions[id]) }

  ghost predicate AllCachedOk(s: Sys) {
    forall k :: k in s.cache ==> ProgressOk(s, s.cache[k]) && NoBlanks(s.cache[k].parts, 0)
  }

  ghost predicate AllRunsOk(s: Sys) { forall r :: r in s.runs ==> RunOk(s, s.runs[r]) }

  ghost predicate Inv(s: Sys) {
    AllSessionsOk(s) && AllCachedOk(s) && AllRunsOk(s) && OneOwner(s)
  }

  // ---------- The effect of each part of a step ----------

  ghost predicate Unowned(s: Sys, id: nat) {
    && (forall r :: r in s.runs ==> SessionOf(s.runs[r]) != Some(id))
    && (forall k :: k in s.cache ==> s.cache[k].id != id)
  }

  lemma EndKeeps(s: Sys, r: nat)
    requires Inv(s) && r in s.runs
    ensures var t := s.(runs := s.runs[r := Ended]);
      Inv(t) && (SessionOf(s.runs[r]).Some? ==> Unowned(t, SessionOf(s.runs[r]).value))
  {
    hide Remaining, Distinct, AllParts, Tracks, NoBlanks;
  }

  lemma UncacheKeeps(s: Sys, key: Key)
    requires Inv(s) && key in s.cache
    ensures var t := s.(cache := s.cache - {key});
      Inv(t) && Unowned(t, s.cache[key].id) && ProgressOk(t, s.cache[key]) && NoBlanks(s.cache[key].parts, 0)
  {
    hide Remaining, Distinct, AllParts, Tracks, NoBlanks;
  }

  lemma SaveKeeps(s: Sys, key: Key, p: Progress)
    requires Inv(s) && Unowned(s, p.id) && ProgressOk(s, p) && NoBlanks(p.parts, 0)
    ensures Inv(s.(cache := s.cache[key := p]))
  {
    hide Remaining, Distinct, AllParts, Tracks, NoBlanks;
  }

  lemma GiveKeeps(s: Sys, r: nat, run: Run)
    requires Inv(s) && r !in s.runs && RunOk(s, run) && (SessionOf(run).Some? ==> Unowned(s, SessionOf(run).value))
    ensures Inv(s.(runs := s.runs[r := run]))
  {
    hide Remaining, Distinct, AllParts, Tracks, NoBlanks;
  }

  lemma OpenKeeps(s: Sys, id: nat, total: nat, dataExists: bool)
    requires Inv(s) && id !in s.sessions
    ensures var t := s.(sessions := s.sessions[id := Session(total, {}, {}, dataExists, false)]);
      Inv(t) && Unowned(t, id) && ProgressOk(t, Progress(id, Numbered(1, total)))
  {
    FreshParts(1, total);
    hide Remaining, Distinct, Numbered, AllParts, Tracks, NoBlanks;
  }

  /** A run changes how far it is, keeping its session and its list. */
  lemma AttemptKeeps(s: Sys, r: nat, a: Attempt)
    requires Inv(s) && IsUploading(s, r) && Tracks(s.runs[r].progress.parts, a) &&
      NoBlanks(s.runs[r].progress.parts, a.next)
    ensures Inv(SetAttempt(s, r, a))
  {
    hide Remaining, Distinct, AllParts, Tracks, NoBlanks;
  }

  lemma BegunTracks(parts: seq<int>)
    ensures Tracks(parts, BEGUN)
  {
  }

  lemma StartKeeps(s: Sys, a: Action)
    requires Inv(s) && Enabled(s, a) && a.Start?
    ensures Inv(Next(s, a))
  {
    if a.key in s.cache {
      BegunTracks(s.cache[a.key].parts);
      hide Inv, Unowned, ProgressOk, Tracks, NoBlanks;
      UncacheKeeps(s, a.key);
      GiveKeeps(s.(cache := s.cache - {a.key}), a.run, Uploading(a.key, s.cache[a.key], BEGUN));
    } else {
      BegunTracks(Numbered(1, a.total));
      assert NoBlanks(Numbered(1, a.total), 0);
      hide Inv, Unowned, ProgressOk, Tracks, NoBlanks, Numbered;
      OpenKeeps(s, a.id, a.total, a.dataExists);
      var t := s.(sessions := s.sessions[a.id := Session(a.total, {}, {}, a.dataExists, false)]);
      GiveKeeps(t, a.run, if a.dataExists then Committing(a.id)
        else Uploading(a.key, Progress(a.id, Numbered(1, a.total)), BEGUN));
    }
  }

  /** The entry of a routine at work holds its part, which has not been seen to succeed. */
  lemma ActiveEntry(s: Sys, r: nat, i: nat)
    requires Inv(s) && IsActive(s, r, i)
    ensures var p := s.runs[r].progress;
      && i < |p.parts| && p.parts[i] == s.runs[r].attempt.active[i] >= 0
      && p.parts[i] in All(s.sessions[p.id]) && p.parts[i] !in s.sessions[p.id].seen
  {
    var p := s.runs[r].progress;
    assert RunOk(s, s.runs[r]);
    assert p.parts[i] in Remaining(p.parts);
  }

  lemma LaunchKeeps(s: Sys, a: Action)
    requires Inv(s) && Enabled(s, a) && (a.Launch? || a.PartFails? || a.Cancel?)
    ensures Inv(Next(s, a))
  {
    var run := s.runs[a.run];
    assert RunOk(s, run);
    match a
    case Launch(r) =>
      LaunchTracks(run.progress.parts, run.attempt);
      AttemptKeeps(s, r, Launched(run.progress.parts, run.attempt));
    case PartFails(r, i, cause) =>
      ErrorTracks(run.progress.parts, run.attempt, i, cause);
      AttemptKeeps(s, r, Returned(run.attempt, i, Some(cause)));
    case Cancel(r) =>
      ErrorTracks(run.progress.parts, run.attempt, 0, Canceled);
      AttemptKeeps(s, r, Stopped(run.attempt, Canceled));
  }

  lemma ReceivedKeeps(s: Sys, a: Action)
    requires Inv(s) && Enabled(s, a) && a.Received?
    ensures Inv(Next(s, a))
  {
    ActiveEntry(s, a.run, a.i);
    hide Remaining, Distinct, AllParts, Tracks, NoBlanks;
    var t := Next(s, a);
    assert AllSessionsOk(t) && AllCachedOk(t);
    assert AllRunsOk(t);
    assert OneOwner(t);
  }

  lemma BlankedKeeps(s: Sys, a: Action)
    requires Inv(s) && Enabled(s, a) && a.Blanked?
    ensures Inv(Next(s, a))
  {
    ActiveEntry(s, a.run, a.i);
    var run := s.runs[a.run];
    assert RunOk(s, run);
    BlankOne(run.progress.parts, a.i);
    SuccessTracks(run.progress.parts, run.attempt, a.i);
    assert NoBlanks(run.progress.parts[a.i := BLANK], run.attempt.next);
    hide Remaining, Distinct, AllParts, Tracks, NoBlanks;
    var t := Next(s, a);
    assert AllSessionsOk(t) && AllCachedOk(t);
    assert AllRunsOk(t);
    assert OneOwner(t);
  }

  lemma AllSeen(e: Session)
    requires SessionOk(e) && All(e) - e.seen == {}
    ensures e.server == All(e)
  {
    assert forall k :: k in All(e) ==> k !in All(e) - e.seen;
  }

  /** Wait returned no error: so all routines were started and succeeded, no entry remains, and the server holds every
      part. */
  lemma WaitOkKeeps(s: Sys, a: Action)
    requires Inv(s) && Enabled(s, a) && a.WaitOk?
    ensures Inv(Next(s, a))
    ensures var id := s.runs[a.run].progress.id;
      Remaining(s.runs[a.run].progress.parts) == {} && s.sessions[id].server == All(s.sessions[id])
  {
    var run := s.runs[a.run];
    assert RunOk(s, run) && SessionOk(s.sessions[run.progress.id]);
    NoErrorMeansAllDone(run.progress.parts, run.attempt);
    AllSeen(s.sessions[run.progress.id]);
    hide Remaining, Distinct, AllParts, Tracks, NoBlanks;
    var t := Next(s, a);
    assert AllSessionsOk(t) && AllCachedOk(t);
    assert AllRunsOk(t);
    assert OneOwner(t);
  }

  lemma WaitFailsKeeps(s: Sys, a: Action)
    requires Inv(s) && Enabled(s, a) && a.WaitFails?
    ensures Inv(Next(s, a))
  {
    var p := s.runs[a.run].progress;
    assert RunOk(s, s.runs[a.run]);
    FilterKeeps(p.parts);
    EndKeeps(s, a.run);
    var t := s.(runs := s.runs[a.run := Ended]);
    assert ProgressOk(t, p.(parts := Filter(p.parts))) && NoBlanks(Filter(p.parts), 0);
    hide Inv, Unowned, Filter, ProgressOk, NoBlanks;
    if s.runs[a.run].attempt.stopped.value == Canceled {
      SaveKeeps(t, s.runs[a.run].key, p.(parts := Filter(p.parts)));
    }
  }

  lemma CommitKeeps(s: Sys, a: Action)
    requires Inv(s) && Enabled(s, a) && a.Commit?
    ensures Inv(Next(s, a))
  {
    assert RunOk(s, s.runs[a.run]);
    EndKeeps(s, a.run);
    hide Remaining, Distinct, AllParts, Tracks, NoBlanks, OneOwner, Unowned;
    var t := Next(s, a);
    assert AllSessionsOk(t) && AllCachedOk(t);
    assert AllRunsOk(t);
    OwnersOf(s.(runs := s.runs[a.run := Ended]), t);
  }

  lemma OwnersOf(s: Sys, t: Sys)
    requires OneOwner(s) && t.runs == s.runs && t.cache == s.cache
    ensures OneOwner(t)
  {
  }

  lemma InvStep(s: Sys, a: Action)
    requires Inv(s) && Enabled(s, a)
    ensures Inv(Next(s, a))
  {
    hide Inv;
    match a
    case Start(_, _, _, _, _) => StartKeeps(s, a);
    case Launch(_) => LaunchKeeps(s, a);
    case PartFails(_, _, _) => LaunchKeeps(s, a);
    case Cancel(_) => LaunchKeeps(s, a);
    case Received(_, _) => ReceivedKeeps(s, a);
    case Blanked(_, _) => BlankedKeeps(s, a);
    case WaitOk(_) => WaitOkKeeps(s, a);
    case WaitFails(_) => WaitFailsKeeps(s, a);
    case Commit(_, _) => CommitKeeps(s, a);
    case Expire(key) => UncacheKeeps(s, key);
  }

  // ---------- Every run ----------

  ghost predicate IsRun(s: Sys, actions: seq<Action>)
    decreases |actions|
  {
    actions == [] || (Enabled(s, actions[0]) && IsRun(Next(s, actions[0]), actions[1..]))
  }

  function After(s: Sys, actions: seq<Action>): Sys
    requires IsRun(s, actions)
    decreases |actions|
  {
    if actions == [] then s else After(Next(s, actions[0]), actions[1..])
  }

  lemma {:induction false} Safety(s: Sys, actions: seq<Action>)
    requires Inv(s) && IsRun(s, actions)
    ensures Inv(After(s, actions))
    decreases |actions|
  {
    if actions != [] {
      InvStep(s, actions[0]);
      hide Inv, Next, Enabled;
      Safety(Next(s, actions[0]), actions[1..]);
    }
  }

  /** After any number of runs that were cancelled, broke, resumed or expired, in any interleaving: a committed
      session is complete, and saved progress lists exactly the parts whose success was not seen. */
  lemma CommitsAreComplete(actions: seq<Action>, id: nat, key: Key)
    requires IsRun(INITIAL, actions)
    ensures var s := After(INITIAL, actions);
      && (id in s.sessions && s.sessions[id].committed ==>
        s.sessions[id].hasFile || s.sessions[id].server == All(s.sessions[id]))
      && (key in s.cache ==> s.cache[key].id in s.sessions)
      && (key in s.cache ==> var e := s.sessions[s.cache[key].id];
            Remaining(s.cache[key].parts) == All(e) - e.seen && e.seen <= e.server)
  {
    assert Inv(INITIAL);
    Safety(INITIAL, actions);
  }

  /** A part whose success was seen is never sent again in its session, by whichever run holds the session, and no
      routine is ever started for a blank entry. */
  lemma SeenIsNotResent(actions: seq<Action>, run: nat, i: nat)
    requires IsRun(INITIAL, actions)
    ensures var s := After(INITIAL, actions);
      Enabled(s, Received(run, i)) ==>
        var p := s.runs[run].progress;
        i < |p.parts| && p.parts[i] in All(s.sessions[p.id]) && p.parts[i] !in s.sessions[p.id].seen
    ensures var s := After(INITIAL, actions);
      Enabled(s, Launch(run)) ==> s.runs[run].progress.parts[s.runs[run].attempt.next] >= 0
  {
    assert Inv(INITIAL);
    Safety(INITIAL, actions);
    var s := After(INITIAL, actions);
    if Enabled(s, Received(run, i)) {
      ActiveEntry(s, run, i);
    }
    if Enabled(s, Launch(run)) {
      assert RunOk(s, s.runs[run]);
    }
  }

  // ---------- Uploads can be finished ----------

  lemma RunCons(s: Sys, a: Action, actions: seq<Action>)
    requires Enabled(s, a) && IsRun(Next(s, a), actions)
    ensures IsRun(s, [a] + actions) && After(s, [a] + actions) == After(Next(s, a), actions)
  {
    assert ([a] + actions)[1..] == actions;
  }

  /** How many steps an upload that is not disturbed has left: starting routines, and two steps for each part. */
  function Left(s: Sys, r: nat): nat
    requires IsUploading(s, r)
  {
    var p := s.runs[r].progress.parts;
    2 * |Remaining(p)| + if s.runs[r].attempt.next < |p| then |p| - s.runs[r].attempt.next else 0
  }

  /** Sending the part of a routine and noticing it. */
  lemma SendOne(s: Sys, r: nat, i: nat) returns (t: Sys)
    requires Inv(s) && IsActive(s, r, i) && s.runs[r].attempt.stopped.None?
    ensures Enabled(s, Received(r, i)) && Enabled(Next(s, Received(r, i)), Blanked(r, i))
    ensures t == Next(Next(s, Received(r, i)), Blanked(r, i)) && Inv(t) && IsUploading(t, r) &&
      Left(t, r) == Left(s, r) - 2
    ensures t.runs[r].attempt.stopped.None? && t.runs[r].progress.id == s.runs[r].progress.id
  {
    ActiveEntry(s, r, i);
    var parts := s.runs[r].progress.parts;
    assert RunOk(s, s.runs[r]);
    BlankOne(parts, i);
    assert parts[i] in Remaining(parts);
    InvStep(s, Received(r, i));
    var t1 := Next(s, Received(r, i));
    assert t1.runs == s.runs;
    hide Inv, Remaining;
    t := Next(t1, Blanked(r, i));
    InvStep(t1, Blanked(r, i));
  }

  lemma LaunchOne(s: Sys, r: nat) returns (t: Sys)
    requires Inv(s) && IsUploading(s, r) && s.runs[r].attempt.stopped.None? &&
      CanLaunch(s.runs[r].progress.parts, s.runs[r].attempt)
    ensures Enabled(s, Launch(r)) && t == Next(s, Launch(r)) && Inv(t) && IsUploading(t, r) &&
      Left(t, r) == Left(s, r) - 1
    ensures t.runs[r].attempt.stopped.None? && t.runs[r].progress == s.runs[r].progress
  {
    t := Next(s, Launch(r));
    InvStep(s, Launch(r));
  }

  /** From any reachable state, an upload that was not stopped can be brought to the commit by starting each routine
      that is left and sending each part of its list once. In particular this holds for a run that resumes saved
      progress. */
  lemma {:induction false} Finishes(s: Sys, r: nat) returns (actions: seq<Action>)
    requires Inv(s) && IsUploading(s, r) && s.runs[r].attempt.stopped.None?
    ensures IsRun(s, actions) && |actions| == Left(s, r) + 1
    ensures r in After(s, actions).runs && After(s, actions).runs[r] == Committing(s.runs[r].progress.id)
    decreases Left(s, r)
  {
    var run := s.runs[r];
    if run.attempt.active != map[] {
      var i :| i in run.attempt.active;
      var t := SendOne(s, r, i);
      hide Inv, Next, Enabled, IsRun, Left;
      var rest := Finishes(t, r);
      RunCons(Next(s, Received(r, i)), Blanked(r, i), rest);
      RunCons(s, Received(r, i), [Blanked(r, i)] + rest);
      actions := [Received(r, i)] + ([Blanked(r, i)] + rest);
    } else if CanLaunch(run.progress.parts, run.attempt) {
      var t := LaunchOne(s, r);
      hide Inv, Next, Enabled, IsRun, Left;
      var rest := Finishes(t, r);
      RunCons(s, Launch(r), rest);
      actions := [Launch(r)] + rest;
    } else {
      WaitOkKeeps(s, WaitOk(r));
      actions := [WaitOk(r)] + [];
      RunCons(s, WaitOk(r), []);
    }
  }

  /** A cancelled upload and the run that resumes it: the same session, and exactly the parts not seen to succeed. */
  lemma CancelledIsResumed(s: Sys, r: nat, q: nat)
    requires Inv(s) && Enabled(s, WaitFails(r)) && s.runs[r].attempt.stopped == Some(Canceled) && q !in s.runs
    ensures var key := s.runs[r].key;
      var t := Next(s, WaitFails(r));
      var b := Start(q, key, 0, 0, false);
      && Enabled(t, b)
      && var u := Next(t, b);
        && IsUploading(u, q) && u.runs[q].progress.id == s.runs[r].progress.id && u.runs[q].attempt == BEGUN
        && u.sessions == s.sessions && key !in u.cache
        && Remaining(u.runs[q].progress.parts) == Remaining(s.runs[r].progress.parts)
  {
    FilterKeeps(s.runs[r].progress.parts);
  }

  // ---------- What is lost ----------

  /** A run that broke for another reason than cancellation leaves its session to nobody. */
  lemma BrokenIsGivenUp(s: Sys, r: nat)
    requires Inv(s) && Enabled(s, WaitFails(r)) && s.runs[r].attempt.stopped != Some(Canceled)
    ensures var t := Next(s, WaitFails(r));
      t.cache == s.cache && t.sessions == s.sessions && Unowned(t, s.runs[r].progress.id)
  {
    EndKeeps(s, r);
  }

  lemma UnownedStays(s: Sys, a: Action, id: nat)
    requires Inv(s) && Enabled(s, a) && id in s.sessions && Unowned(s, id)
    ensures var t := Next(s, a);
      id in t.sessions && t.sessions[id] == s.sessions[id] && Unowned(t, id)
  {
    hide Inv, Remaining, Distinct, Filter, Numbered, AllParts, Launched, Returned, Stopped, EndsWell, EndsBadly;
    assert !a.Expire? && !a.Start? ==> SessionOf(s.runs[a.run]) != Some(id);
  }

  /** A session that nobody holds, whether its run broke or its saved progress expired, is never taken up again:
      no later run sends a part to it or commits it. */
  lemma {:induction false} LostForGood(s: Sys, actions: seq<Action>, id: nat)
    requires Inv(s) && IsRun(s, actions) && id in s.sessions && Unowned(s, id)
    ensures var t := After(s, actions);
      id in t.sessions && t.sessions[id] == s.sessions[id] && Unowned(t, id)
    decreases |actions|
  {
    if actions != [] {
      UnownedStays(s, actions[0], id);
      InvStep(s, actions[0]);
      hide Inv, Next, Enabled, Unowned;
      LostForGood(Next(s, actions[0]), actions[1..], id);
    }
  }

  // ---------- What is committed ----------

  /** Somewhere in the run, an accepted commit of this session takes place. */
  ghost predicate EverCommits(s: Sys, actions: seq<Action>, id: nat)
    requires IsRun(s, actions)
    decreases |actions|
  {
    actions != []
    && ((actions[0].Commit? && actions[0].accepted && s.runs[actions[0].run].id == id)
      || EverCommits(Next(s, actions[0]), actions[1..], id))
  }

  lemma CommitStep(s: Sys, a: Action, id: nat)
    requires Enabled(s, a)
    ensures id in s.sessions ==> id in Next(s, a).sessions
    ensures IsCommitted(Next(s, a), id) <==>
      IsCommitted(s, id) || (a.Commit? && a.accepted && s.runs[a.run].id == id)
  {
    hide Remaining, Distinct, Filter, Numbered, AllParts, Launched, Returned, Stopped, EndsWell, EndsBadly;
  }

  predicate IsCommitted(s: Sys, id: nat) {
    id in s.sessions && s.sessions[id].committed
  }

  /** A session is committed if and only if a commit of it was accepted. */
  lemma {:induction false} CommittedIff(s: Sys, actions: seq<Action>, id: nat)
    requires IsRun(s, actions)
    ensures IsCommitted(After(s, actions), id) <==> IsCommitted(s, id) || EverCommits(s, actions, id)
    decreases |actions|
  {
    if actions != [] {
      CommitStep(s, actions[0], id);
      hide Next, Enabled, IsCommitted;
      CommittedIff(Next(s, actions[0]), actions[1..], id);
    }
  }

  lemma {:induction false} EndedIsOver(s: Sys, actions: seq<Action>, r: nat)
    requires IsRun(s, actions) && r in s.runs && s.runs[r] == Ended
    ensures forall a :: a in actions ==> a.Expire? || a.run != r
    decreases |actions|
  {
    if actions != [] {
      EndedStays(s, actions[0], r);
      hide Next, Enabled;
      EndedIsOver(Next(s, actions[0]), actions[1..], r);
      assert actions == [actions[0]] + actions[1..];
    }
  }

  lemma EndedStays(s: Sys, a: Action, r: nat)
    requires Enabled(s, a) && r in s.runs && s.runs[r] == Ended
    ensures (a.Expire? || a.run != r) && r in Next(s, a).runs && Next(s, a).runs[r] == Ended
  {
    hide Remaining, Distinct, Filter, Numbered, AllParts, Launched, Returned, Stopped, EndsWell, EndsBadly;
  }

  /** What one run does leaves the session of another one alone. */
  lemma HeldStays(s: Sys, a: Action, id: nat, r: nat)
    requires Inv(s) && Enabled(s, a) && r in s.runs && s.runs[r] == Committing(id) && id in s.sessions
    requires a.Expire? || a.run != r
    ensures var t := Next(s, a);
      r in t.runs && t.runs[r] == s.runs[r] && id in t.sessions && t.sessions[id] == s.sessions[id]
  {
    assert OneOwner(s);
    hide Inv, Remaining, Distinct, Filter, Numbered, AllParts, Launched, Returned, Stopped, EndsWell, EndsBadly;
    assert !a.Expire? && !a.Start? ==> SessionOf(s.runs[a.run]) != Some(id);
  }

  lemma CommitEnds(s: Sys, r: nat, accepted: bool)
    requires Inv(s) && Enabled(s, Commit(r, accepted))
    ensures var t, id := Next(s, Commit(r, accepted)), s.runs[r].id;
      && Unowned(t, id) && r in t.runs && t.runs[r] == Ended
      && id in t.sessions && t.sessions[id].server == s.sessions[id].server
      && (t.sessions[id].committed <==> s.sessions[id].committed || accepted)
  {
    EndKeeps(s, r);
    hide Inv;
  }

  lemma {:induction false} CommitsUnsent(s: Sys, actions: seq<Action>, id: nat, r: nat)
    requires Inv(s) && IsRun(s, actions) && r in s.runs && s.runs[r] == Committing(id)
    requires id in s.sessions && s.sessions[id].server == {} && !s.sessions[id].committed
    ensures var t := After(s, actions);
      id in t.sessions && t.sessions[id].server == {} && (t.sessions[id].committed <==> Commit(r, true) in actions)
    ensures forall a :: a in actions && !a.Expire? && a.run == r ==> a.Commit?
    decreases |actions|
  {
    if actions != [] {
      var a, rest := actions[0], actions[1..];
      assert actions == [a] + rest;
      InvStep(s, a);
      if !a.Expire? && a.run == r {
        CommitEnds(s, r, a.accepted);
        hide Inv, Next, Enabled, Unowned;
        LostForGood(Next(s, a), rest, id);
        EndedIsOver(Next(s, a), rest, r);
      } else {
        HeldStays(s, a, id, r);
        hide Inv, Next, Enabled;
        CommitsUnsent(Next(s, a), rest, id, r);
      }
    }
  }

  /** Without saved progress, an upload of a file that the server has only sends the commit, whatever else goes on: no
      part of it ever reaches the server, and the session is committed if and only if its commit is accepted. */
  lemma FoundIsNotSent(s: Sys, r: nat, key: Key, id: nat, total: nat, actions: seq<Action>)
    requires Inv(s) && Enabled(s, Start(r, key, id, total, true)) && key !in s.cache
    requires IsRun(Next(s, Start(r, key, id, total, true)), actions)
    ensures var t := After(Next(s, Start(r, key, id, total, true)), actions);
      id in t.sessions && t.sessions[id].server == {} && (t.sessions[id].committed <==> Commit(r, true) in actions)
    ensures forall a :: a in actions && !a.Expire? && a.run == r ==> a.Commit?
  {
    var a := Start(r, key, id, total, true);
    InvStep(s, a);
    var t := Next(s, a);
    assert t.runs[r] == Committing(id) && t.sessions[id] == Session(total, {}, {}, true, false);
    hide Inv, Next, Enabled;
    CommitsUnsent(t, actions, id, r);
  }
}
