/** Concrete runs of drivers/baidu_netdisk/driver.go in which a session gets a second owner, or the upload id expires
    twice. */
module BaiduMishaps {
  import opened Options
  import opened PartLists
  import opened BaiduRuns

  /** Two slices, both asked for. */
  const FRESH := Session("k", 2, {0, 1}, {}, {}, [], [0, 1], false)

  lemma TwoSlices()
    ensures AllParts(0, 2) == {0, 1} && Remaining([0, 1]) == {0, 1} && ProperList([0, 1], 2)
    ensures Opened("k", 2, [0, 1]) == FRESH
    ensures Filter([0, 1]) == [0, 1] && Filter([-1, 1]) == [1]
  {
    FreshParts(0, 2);
    assert Numbered(0, 2) == [0, 1];
    assert 0 in Numbered(0, 2) && 1 in Numbered(0, 2);
    assert [0, 1] == [] + [0] + [1] && [-1, 1] == [] + [-1] + [1];
  }

  /** A first attempt whose upload id expires. */
  function ExpiryOf(r: nat): seq<Action> {
    [Launch(r), SliceFails(r, 0, UploadIdExpired), WaitFails(r)]
  }

  lemma OneExpiry(s: Sys, r: nat)
    requires !s.crashed && IsAttempting(s, r) && s.runs[r].attempt == BEGUN && s.runs[r].version == 0
    requires s.sessions[s.runs[r].id] == FRESH && s.runs[r].key == "k"
    ensures IsRun(s, ExpiryOf(r))
    ensures After(s, ExpiryOf(r)) == Sys(
      s.cache["k" := s.runs[r].id], s.sessions[s.runs[r].id := FRESH.(older := [[0, 1]])],
      s.runs[r := Renewing("k", s.runs[r].expiries, 2)], false)
  {
    TwoSlices();
    hide AllParts, Remaining, Filter, ProperList;
    var a1, a2, a3 := Launch(r), SliceFails(r, 0, UploadIdExpired), WaitFails(r);
    var s1 := Next(s, a1);
    assert s1.runs[r].attempt == Attempt(1, map[0 := 0], None);
    var s2 := Next(s1, a2);
    assert s2.runs[r].attempt == Attempt(1, map[], Some(UploadIdExpired));
    var s3 := Next(s2, a3);
    assert [] + [[0, 1]] == [[0, 1]];
    assert s3.runs == s.runs[r := Renewing("k", s.runs[r].expiries, 2)];
    assert s3.sessions == s.sessions[s.runs[r].id := FRESH.(older := [[0, 1]])];
    RunSnoc(s, [], a1);
    RunSnoc(s, [a1], a2);
    RunSnoc(s, [a1, a2], a3);
  }

  /** Runs 0 and 1 and the session they may share, which is number 2. */
  ghost predicate Stands(s: Sys, first: Run, second: Run, e: Session) {
    !s.crashed && s.runs == map[0 := first, 1 := second] && 2 in s.sessions && s.sessions[2] == e
  }

  /** Run 0 has its upload id expire and goes on with a second session; run 1 finds it in the cache. */
  const TWO_OWNERS: seq<Action> :=
    [Start(0, "k", 1, 2, [0, 1])] + ExpiryOf(0) + [Renew(0, 2, [0, 1])] + [Start(1, "k", 3, 2, [0, 1])]

  lemma TwoOwners()
    ensures IsRun(INITIAL, TWO_OWNERS)
    ensures var s := After(INITIAL, TWO_OWNERS);
      Shared(s) && Stands(s, Attempting("k", 1, 2, 0, BEGUN), Attempting("k", 0, 2, 0, BEGUN), FRESH)
  {
    TwoSlices();
    hide AllParts, Remaining, Filter, ProperList;
    var a1, a5, a6 := Start(0, "k", 1, 2, [0, 1]), Renew(0, 2, [0, 1]), Start(1, "k", 3, 2, [0, 1]);
    RunSnoc(INITIAL, [], a1);
    var s1 := Next(INITIAL, a1);
    OneExpiry(s1, 0);
    RunAppend(INITIAL, [a1], ExpiryOf(0));
    var s4 := After(s1, ExpiryOf(0));
    var s5 := Next(s4, a5);
    RunSnoc(INITIAL, [a1] + ExpiryOf(0), a5);
    var s6 := Next(s5, a6);
    RunSnoc(INITIAL, [a1] + ExpiryOf(0) + [a5], a6);
    assert s6.runs == map[0 := Attempting("k", 1, 2, 0, BEGUN), 1 := Attempting("k", 0, 2, 0, BEGUN)];
    assert Held(s6.runs[0]) == Held(s6.runs[1]);
  }

  /** Both owners send slice 0, and the second one slice 1 as well. */
  const BOTH_LAUNCH: seq<Action> := [Launch(0), Launch(1), Launch(1)]
  const SENDER := Attempting("k", 0, 2, 0, Attempt(2, map[0 := 0, 1 := 1], None))

  lemma BothLaunch(s: Sys)
    requires Stands(s, Attempting("k", 1, 2, 0, BEGUN), Attempting("k", 0, 2, 0, BEGUN), FRESH)
    ensures IsRun(s, BOTH_LAUNCH)
    ensures Stands(After(s, BOTH_LAUNCH), Attempting("k", 1, 2, 0, Attempt(1, map[0 := 0], None)), SENDER, FRESH)
  {
    var s1 := Next(s, Launch(0));
    RunSnoc(s, [], Launch(0));
    var s2 := Next(s1, Launch(1));
    RunSnoc(s, [Launch(0)], Launch(1));
    var s3 := Next(s2, Launch(1));
    RunSnoc(s, [Launch(0), Launch(1)], Launch(1));
    assert s3.runs[1].attempt.active == map[0 := 0, 1 := 1];
  }

  /** The first owner notes the success of slice 0. */
  const FIRST_NOTES: seq<Action> := [Received(0, 0), Blanked(0, 0)]
  const NOTED := FRESH.(list := [-1, 1], server := {0}, seen := {0})

  lemma FirstNotes(s: Sys)
    requires Stands(s, Attempting("k", 1, 2, 0, Attempt(1, map[0 := 0], None)), SENDER, FRESH)
    ensures IsRun(s, FIRST_NOTES)
    ensures Stands(After(s, FIRST_NOTES), Attempting("k", 1, 2, 0, Attempt(1, map[], None)), SENDER, NOTED)
  {
    var s1 := Next(s, Received(0, 0));
    RunSnoc(s, [], Received(0, 0));
    var s2 := Next(s1, Blanked(0, 0));
    RunSnoc(s, [Received(0, 0)], Blanked(0, 0));
    assert s2.runs[0].attempt.active == map[];
  }

  /** It is cancelled, which makes a new, shorter list. */
  const FIRST_SAVES: seq<Action> := [Cancel(0), WaitFails(0)]
  const SHORT := NOTED.(older := [[-1, 1]], list := [1])

  lemma FirstSaves(s: Sys)
    requires Stands(s, Attempting("k", 1, 2, 0, Attempt(1, map[], None)), SENDER, NOTED)
    ensures IsRun(s, FIRST_SAVES)
    ensures var t := After(s, FIRST_SAVES); Stands(t, Ended, SENDER, SHORT) && t.cache == s.cache["k" := 2]
  {
    TwoSlices();
    hide AllParts, Remaining, Filter, ProperList;
    var s1 := Next(s, Cancel(0));
    RunSnoc(s, [], Cancel(0));
    var s2 := Next(s1, WaitFails(0));
    RunSnoc(s, [Cancel(0)], WaitFails(0));
    assert [] + [[-1, 1]] == [[-1, 1]];
  }

  const SHORTENED: seq<Action> := TWO_OWNERS + BOTH_LAUNCH + FIRST_NOTES + FIRST_SAVES

  lemma Shortened()
    ensures IsRun(INITIAL, SHORTENED)
    ensures var s := After(INITIAL, SHORTENED); Stands(s, Ended, SENDER, SHORT) && "k" in s.cache && s.cache["k"] == 2
  {
    hide Next, Enabled, Stands;
    TwoOwners();
    BothLaunch(After(INITIAL, TWO_OWNERS));
    RunAppend(INITIAL, TWO_OWNERS, BOTH_LAUNCH);
    FirstNotes(After(INITIAL, TWO_OWNERS + BOTH_LAUNCH));
    RunAppend(INITIAL, TWO_OWNERS + BOTH_LAUNCH, FIRST_NOTES);
    FirstSaves(After(INITIAL, TWO_OWNERS + BOTH_LAUNCH + FIRST_NOTES));
    RunAppend(INITIAL, TWO_OWNERS + BOTH_LAUNCH + FIRST_NOTES, FIRST_SAVES);
  }

  /** From there, noting slice 1 at its old index is out of range. */
  lemma SecondOwnerCrashes()
    ensures IsRun(INITIAL, SHORTENED + [Received(1, 1)] + [Blanked(1, 1)])
    ensures After(INITIAL, SHORTENED + [Received(1, 1)] + [Blanked(1, 1)]).crashed
  {
    Shortened();
    hide TWO_OWNERS, BOTH_LAUNCH, FIRST_NOTES, FIRST_SAVES, SHORTENED;
    RunSnoc(INITIAL, SHORTENED, Received(1, 1));
    RunSnoc(INITIAL, SHORTENED + [Received(1, 1)], Blanked(1, 1));
  }

  /** Or the second owner notes slice 0 at its old index, where slice 1 stands now. */
  const SECOND_NOTES: seq<Action> := [Blanked(1, 0)]
  const BOTH_NOTED := SHORT.(list := [-1])

  lemma SecondNotes(s: Sys)
    requires Stands(s, Ended, SENDER, SHORT)
    ensures IsRun(s, SECOND_NOTES)
    ensures var t := After(s, SECOND_NOTES);
      Stands(t, Ended, SENDER.(attempt := Attempt(2, map[1 := 1], None)), BOTH_NOTED) && t.cache == s.cache
  {
    RunSnoc(s, [], Blanked(1, 0));
    assert After(s, SECOND_NOTES).runs[1].attempt.active == map[1 := 1];
  }

  /** It fails with slice 1, and what it saves is an empty list. */
  const SECOND_SAVES: seq<Action> := [SliceFails(1, 1, Broken), WaitFails(1)]
  const EMPTIED := BOTH_NOTED.(older := [[-1, 1], [-1]], list := [])

  lemma SecondSaves(s: Sys)
    requires Stands(s, Ended, SENDER.(attempt := Attempt(2, map[1 := 1], None)), BOTH_NOTED)
    ensures IsRun(s, SECOND_SAVES)
    ensures var t := After(s, SECOND_SAVES); Stands(t, Ended, Ended, EMPTIED) && t.cache == s.cache["k" := 2]
  {
    FilterCons(-1, []);
    assert [-1] + [] == [-1] && Filter([]) == [];
    hide Filter;
    var s1 := Next(s, SliceFails(1, 1, Broken));
    RunSnoc(s, [], SliceFails(1, 1, Broken));
    assert s1.runs[1].attempt.active == map[];
    RunSnoc(s, [SliceFails(1, 1, Broken)], WaitFails(1));
    assert [[-1, 1]] + [[-1]] == [[-1, 1], [-1]];
  }

  /** The next upload finds nothing left to send and creates the file. */
  const THIRD_CREATES: seq<Action> := [Start(2, "k", 3, 2, [0, 1]), WaitOk(2), Create(2, true)]

  lemma ThirdCreates(s: Sys)
    requires Stands(s, Ended, Ended, EMPTIED) && "k" in s.cache && s.cache["k"] == 2
    ensures IsRun(s, THIRD_CREATES)
    ensures var t := After(s, THIRD_CREATES); 2 in t.sessions && t.sessions[2] == EMPTIED.(created := true)
  {
    var a1, a2, a3 := Start(2, "k", 3, 2, [0, 1]), WaitOk(2), Create(2, true);
    var s1 := Next(s, a1);
    RunSnoc(s, [], a1);
    assert LoopList(s1, 2) == [];
    var s2 := Next(s1, a2);
    RunSnoc(s, [a1], a2);
    RunSnoc(s, [a1, a2], a3);
  }

  lemma {:induction false} RenewalsAppend(actions: seq<Action>, more: seq<Action>, r: nat)
    ensures Renewals(actions + more, r) == Renewals(actions, r) + Renewals(more, r)
  {
    if actions == [] {
      assert [] + more == more;
    } else {
      RenewalsAppend(actions[1..], more, r);
      assert (actions + more)[1..] == actions[1..] + more;
    }
  }

  lemma {:induction false} NoRenewals(actions: seq<Action>, r: nat)
    requires forall i :: 0 <= i < |actions| ==> !actions[i].Renew?
    ensures Renewals(actions, r) == 0
  {
    if actions != [] {
      NoRenewals(actions[1..], r);
    }
  }

  const LOSES_A_SLICE: seq<Action> := SHORTENED + SECOND_NOTES + SECOND_SAVES + THIRD_CREATES

  lemma OneRenewal(r: nat)
    ensures Renewals(LOSES_A_SLICE, r) <= 1
  {
    var before, renew, start :=
      [Start(0, "k", 1, 2, [0, 1])] + ExpiryOf(0), [Renew(0, 2, [0, 1])], [Start(1, "k", 3, 2, [0, 1])];
    NoRenewals(before, r);
    assert Renewals(renew, r) <= 1 by { assert renew[1..] == []; }
    NoRenewals(start, r);
    NoRenewals(BOTH_LAUNCH, r);
    NoRenewals(FIRST_NOTES, r);
    NoRenewals(FIRST_SAVES, r);
    NoRenewals(SECOND_NOTES, r);
    NoRenewals(SECOND_SAVES, r);
    NoRenewals(THIRD_CREATES, r);
    hide Renewals, BOTH_LAUNCH, FIRST_NOTES, FIRST_SAVES, SECOND_NOTES, SECOND_SAVES, THIRD_CREATES;
    RenewalsAppend(before, renew, r);
    RenewalsAppend(before + renew, start, r);
    RenewalsAppend(TWO_OWNERS, BOTH_LAUNCH, r);
    RenewalsAppend(TWO_OWNERS + BOTH_LAUNCH, FIRST_NOTES, r);
    RenewalsAppend(TWO_OWNERS + BOTH_LAUNCH + FIRST_NOTES, FIRST_SAVES, r);
    RenewalsAppend(SHORTENED, SECOND_NOTES, r);
    RenewalsAppend(SHORTENED + SECOND_NOTES, SECOND_SAVES, r);
    RenewalsAppend(SHORTENED + SECOND_NOTES + SECOND_SAVES, THIRD_CREATES, r);
  }

  /** So with a second owner the file is created without a slice that nobody sent successfully, although no run saw its
      upload id expire twice. */
  lemma SecondOwnerLosesASlice()
    ensures IsRun(INITIAL, LOSES_A_SLICE) && (forall r :: Renewals(LOSES_A_SLICE, r) <= 1)
    ensures var s := After(INITIAL, LOSES_A_SLICE);
      2 in s.sessions && s.sessions[2].created && 1 in All(s.sessions[2]) && 1 !in s.sessions[2].server
  {
    Shortened();
    TwoSlices();
    var s := After(INITIAL, SHORTENED);
    hide Next, Enabled, Renewals, SHORTENED, SECOND_NOTES, SECOND_SAVES, THIRD_CREATES;
    SecondNotes(s);
    RunAppend(INITIAL, SHORTENED, SECOND_NOTES);
    var t := After(s, SECOND_NOTES);
    SecondSaves(t);
    RunAppend(INITIAL, SHORTENED + SECOND_NOTES, SECOND_SAVES);
    ThirdCreates(After(t, SECOND_SAVES));
    RunAppend(INITIAL, SHORTENED + SECOND_NOTES + SECOND_SAVES, THIRD_CREATES);
    forall r ensures Renewals(LOSES_A_SLICE, r) <= 1 {
      OneRenewal(r);
    }
  }

  /** An upload id that expires twice: the third session is created with nothing at the service. */
  const EXPIRED_TWICE: seq<Action> :=
    [Start(0, "k", 1, 2, [0, 1])] + ExpiryOf(0) + [Renew(0, 2, [0, 1])] + ExpiryOf(0) + [Renew(0, 3, [0, 1])] +
      [Create(0, true)]

  lemma RenewsOnce(s: Sys, before: seq<Action>, id: nat) returns (t: Sys)
    requires IsRun(INITIAL, before) && s == After(INITIAL, before)
    requires !s.crashed && IsAttempting(s, 0) && s.runs[0].attempt == BEGUN && s.runs[0].version == 0
    requires s.sessions[s.runs[0].id] == FRESH && s.runs[0].key == "k" && s.runs[0].expiries < 2 && id !in s.sessions
    ensures var actions := before + ExpiryOf(0) + [Renew(0, id, [0, 1])];
      IsRun(INITIAL, actions) && t == After(INITIAL, actions)
    ensures !t.crashed && t.sessions.Keys == s.sessions.Keys + {id} && t.sessions[id] == FRESH
    ensures 0 in t.runs && t.runs[0] == AfterRenewal(Renewing("k", s.runs[0].expiries, 2), id)
  {
    TwoSlices();
    hide AllParts, Remaining, Filter, ProperList;
    OneExpiry(s, 0);
    RunAppend(INITIAL, before, ExpiryOf(0));
    RunSnoc(INITIAL, before + ExpiryOf(0), Renew(0, id, [0, 1]));
    t := Next(After(s, ExpiryOf(0)), Renew(0, id, [0, 1]));
  }

  lemma SecondExpiryCreatesNothing()
    ensures IsRun(INITIAL, EXPIRED_TWICE)
    ensures var s := After(INITIAL, EXPIRED_TWICE);
      3 in s.sessions && s.sessions[3].created && All(s.sessions[3]) == {0, 1} && s.sessions[3].server == {}
  {
    TwoSlices();
    hide AllParts, Remaining, Filter, ProperList;
    var a1 := Start(0, "k", 1, 2, [0, 1]);
    RunSnoc(INITIAL, [], a1);
    var s1 := Next(INITIAL, a1);
    var s5 := RenewsOnce(s1, [a1], 2);
    var as5 := [a1] + ExpiryOf(0) + [Renew(0, 2, [0, 1])];
    var s9 := RenewsOnce(s5, as5, 3);
    RunSnoc(INITIAL, as5 + ExpiryOf(0) + [Renew(0, 3, [0, 1])], Create(0, true));
  }
}
