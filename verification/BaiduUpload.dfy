/** drivers/baidu_netdisk/driver.go: Put as a caller sees it, one upload at a time. The routines of an attempt are run
    in the order of the list; runs that interleave are in module BaiduRuns. */
module BaiduUpload {
  import opened Options
  import opened PartLists

  /** A PrecreateResp. */
  class Precreate {
    const uploadid: nat
    var blockList: seq<int>

    constructor (id: nat, blocks: seq<int>)
      ensures uploadid == id && blockList == blocks
    {
      uploadid, blockList := id, blocks;
    }
  }

  /** The cache of saved progress; saving nil leaves an entry that does not count as progress. */
  class UploadStateCache {
    var entries: map<Key, Precreate?>

    method Save(key: Key, p: Precreate?)
      modifies this
      ensures entries == old(entries)[key := p]
    {
      entries := entries[key := p];
    }

    method GetDel(key: Key) returns (p: Precreate?)
      modifies this
      ensures p == (if key in old(entries) then old(entries)[key] else null)
      ensures entries == old(entries) - {key}
    {
      p := if key in entries then entries[key] else null;
      entries := entries - {key};
    }
  }

  /** What comes of sending a slice: stored; stored, but the answer is lost; or not stored. */
  datatype Sending = Stored | Unanswered(cause: Cause) | Refused(cause: Cause)

  /** The service: the slices it has of each session, and every slice that was ever sent to it. */
  class Service {
    var next: nat
    var has: map<nat, set<int>>
    var sent: seq<int>

    ghost predicate Valid() reads this {
      forall id :: id in has ==> id < next
    }

    /** A session for a file of `count` slices, in which the service asks for `blocks`. */
    method Open(count: nat, blocks: seq<int>) returns (p: Precreate)
      requires Valid()
      modifies this
      ensures Valid() && fresh(p) && p.blockList == blocks && p.uploadid !in old(has) && sent == old(sent)
      ensures has == old(has)[p.uploadid := AllParts(0, count) - Remaining(blocks)]
    {
      p := new Precreate(next, blocks);
      has := has[next := AllParts(0, count) - Remaining(blocks)];
      next := next + 1;
    }

    method Take(id: nat, slice: int, sending: Sending)
      requires Valid() && id in has
      modifies this
      ensures Valid() && next == old(next) && sent == old(sent) + [slice]
      ensures has == old(has)[id := old(has)[id] + if sending.Refused? then {} else {slice}]
    {
      sent := sent + [slice];
      has := has[id := has[id] + if sending.Refused? then {} else {slice}];
    }
  }

  /** What an attempt meets: how the sending of each slice ends, if not well, and before which entry the upload is
      cancelled. */
  datatype Trial = Trial(sendings: map<int, Sending>, cancelled: Option<nat>)

  function SendingOf(trial: Trial, slice: int): Sending {
    if slice in trial.sendings then trial.sendings[slice] else Stored
  }

  /** The loop gets past entry `i`. */
  predicate Passes(blocks: seq<int>, trial: Trial, i: nat)
    requires i < |blocks|
  {
    trial.cancelled != Some(i) && (blocks[i] < 0 || SendingOf(trial, blocks[i]).Stored?)
  }

  /** The first `done` entries are passed, and no more. */
  ghost predicate StopsAt(blocks: seq<int>, trial: Trial, done: nat) {
    && done <= |blocks| && (forall i: nat :: i < done ==> Passes(blocks, trial, i))
    && (done < |blocks| ==> !Passes(blocks, trial, done))
  }

  /** What Wait returns after the loop has stopped there. */
  function ErrorAt(blocks: seq<int>, trial: Trial, done: nat): Option<Cause> {
    if done < |blocks| && trial.cancelled != Some(done) then
      match SendingOf(trial, blocks[done])
      case Stored => None
      case Unanswered(cause) => Some(cause)
      case Refused(cause) => Some(cause)
    else if trial.cancelled.Some? then Some(Canceled)
    else None
  }

  /** The entries for which something was sent. */
  function Tried(blocks: seq<int>, trial: Trial, done: nat): seq<int>
    requires done <= |blocks|
  {
    if done < |blocks| && trial.cancelled != Some(done) then blocks[..done + 1] else blocks[..done]
  }

  /** The slices the service has and the remaining entries are together all slices. */
  ghost predicate Covered(has: set<int>, blocks: seq<int>, count: nat) {
    AllParts(0, count) <= has + Remaining(blocks)
  }

  lemma {:induction false} FilterAppend(a: seq<int>, b: seq<int>)
    ensures Filter(a + b) == Filter(a) + Filter(b)
  {
    if b == [] {
      assert a + b == a;
    } else {
      var before := b[..|b| - 1];
      FilterAppend(a, before);
      assert (a + b)[..|a + b| - 1] == a + before;
    }
  }

  lemma {:induction false} AllBlank(blocks: seq<int>)
    requires forall i :: 0 <= i < |blocks| ==> blocks[i] < 0
    ensures Filter(blocks) == []
  {
    if blocks != [] {
      AllBlank(blocks[..|blocks| - 1]);
    }
  }

  /** The list when its first `done` entries are through. */
  ghost predicate IsRestOf(blocks: seq<int>, before: seq<int>, done: nat) {
    && done <= |before| == |blocks| && blocks[done..] == before[done..]
    && forall i :: 0 <= i < done ==> blocks[i] < 0
  }

  lemma RestOf(blocks: seq<int>, before: seq<int>, done: nat)
    requires IsRestOf(blocks, before, done)
    ensures Filter(blocks) == Filter(before[done..])
  {
    AllBlank(blocks[..done]);
    FilterAppend(blocks[..done], blocks[done..]);
    assert blocks == blocks[..done] + blocks[done..];
    assert [] + Filter(blocks[done..]) == Filter(blocks[done..]);
  }

  lemma PrefixSnoc(blocks: seq<int>, i: nat)
    requires i < |blocks|
    ensures Remaining(blocks[..i + 1]) == Remaining(blocks[..i]) + if blocks[i] >= 0 then {blocks[i]} else {}
    ensures Filter(blocks[..i + 1]) == Filter(blocks[..i]) + if blocks[i] >= 0 then [blocks[i]] else []
  {
    assert blocks[..i + 1] == blocks[..i] + [blocks[i]];
    RemainingSnoc(blocks[..i], blocks[i]);
    assert blocks[..i + 1][..i] == blocks[..i];
  }

  /** The routine of an entry: it sends the slice, and blanks the entry if that went well. */
  method SendSlice(service: Service, p: Precreate, i: nat, sending: Sending)
    requires service.Valid() && p.uploadid in service.has && i < |p.blockList|
    modifies service, p
    ensures service.Valid() && service.sent == old(service.sent) + [old(p.blockList)[i]]
    ensures service.has == old(service.has)[p.uploadid :=
      old(service.has[p.uploadid]) + if sending.Refused? then {} else {old(p.blockList)[i]}]
    ensures p.blockList == if sending.Stored? then old(p.blockList)[i := BLANK] else old(p.blockList)
  {
    service.Take(p.uploadid, p.blockList[i], sending);
    if sending.Stored? {
      p.blockList := p.blockList[i := BLANK];
    }
  }

  /** An attempt that is through with the first `done` entries: its list, what was sent since the beginning, and what
      the service has of the session. */
  ghost predicate Through(blocks: seq<int>, trial: Trial, done: nat, list: seq<int>, sent: seq<int>, had: set<int>,
    has: set<int>) {
    && IsRestOf(list, blocks, done) && (forall i: nat :: i < done ==> Passes(blocks, trial, i))
    && sent == Filter(blocks[..done]) && has == had + Remaining(blocks[..done])
  }

  lemma ThroughOne(blocks: seq<int>, trial: Trial, i: nat, list: seq<int>, sent: seq<int>, had: set<int>, has: set<int>)
    requires Through(blocks, trial, i, list, sent, had, has) && i < |blocks| && Passes(blocks, trial, i)
    ensures blocks[i] < 0 ==> Through(blocks, trial, i + 1, list, sent, had, has)
    ensures blocks[i] >= 0 ==>
      Through(blocks, trial, i + 1, list[i := BLANK], sent + [blocks[i]], had, has + {blocks[i]})
  {
    PrefixSnoc(blocks, i);
    assert sent + [] == sent;
    hide Remaining, Filter, Passes;
  }

  /** What an attempt from `blocks` ends with, when the loop stopped after `done` entries. */
  ghost predicate EndsAt(
    blocks: seq<int>, trial: Trial, done: nat, error: Option<Cause>, list: seq<int>, sent: seq<int>, had: set<int>,
    has: set<int>)
  {
    && StopsAt(blocks, trial, done) && error == ErrorAt(blocks, trial, done)
    && IsRestOf(list, blocks, done) && sent == Filter(Tried(blocks, trial, done))
    && had + Remaining(blocks[..done]) <= has <= had + Remaining(Tried(blocks, trial, done))
  }

  lemma EndsThere(
    blocks: seq<int>, trial: Trial, i: nat, error: Option<Cause>, list: seq<int>, sent: seq<int>, had: set<int>,
    has: set<int>)
    requires Through(blocks, trial, i, list, sent, had, has) && error == ErrorAt(blocks, trial, i)
    requires i == |blocks| || trial.cancelled == Some(i)
    ensures EndsAt(blocks, trial, i, error, list, sent, had, has)
  {
    assert i < |blocks| ==> !Passes(blocks, trial, i);
    hide Remaining, Filter, Passes, IsRestOf, ErrorAt;
  }

  lemma FailsThere(
    blocks: seq<int>, trial: Trial, i: nat, error: Option<Cause>, list: seq<int>, sent: seq<int>, had: set<int>,
    has: set<int>)
    requires Through(blocks, trial, i, list, sent, had, has) && error == ErrorAt(blocks, trial, i)
    requires i < |blocks| && trial.cancelled != Some(i) && blocks[i] >= 0 && !SendingOf(trial, blocks[i]).Stored?
    ensures EndsAt(blocks, trial, i, error, list, sent + [blocks[i]], had, has)
    ensures EndsAt(blocks, trial, i, error, list, sent + [blocks[i]], had, has + {blocks[i]})
  {
    assert !Passes(blocks, trial, i);
    PrefixSnoc(blocks, i);
    hide Remaining, Filter, Passes, IsRestOf, ErrorAt;
  }

  /** The loop over the slices and Wait. Each entry is sent to the service until one fails or the upload is cancelled;
      Wait gives an error exactly then. */
  method UploadSlices(service: Service, p: Precreate, trial: Trial)
    returns (error: Option<Cause>, ghost done: nat, ghost sent: seq<int>)
    requires service.Valid() && p.uploadid in service.has
    modifies service, p
    ensures service.Valid() && p.uploadid in service.has && service.sent == old(service.sent) + sent
    ensures EndsAt(old(p.blockList), trial, done, error, p.blockList, sent, old(service.has[p.uploadid]),
      service.has[p.uploadid])
    ensures service.has == old(service.has)[p.uploadid := service.has[p.uploadid]]
  {
    var blocks := p.blockList;
    ghost var had := service.has[p.uploadid];
    sent := [];
    assert Through(blocks, trial, 0, p.blockList, [], had, service.has[p.uploadid]) by { EmptyPrefix(blocks); }
    hide Remaining, Filter, Through, EndsAt, IsRestOf, Tried;
    for i := 0 to |blocks|
      invariant service.Valid() && p.uploadid in service.has && service.sent == old(service.sent) + sent
      invariant service.has == old(service.has)[p.uploadid := service.has[p.uploadid]]
      invariant Through(blocks, trial, i, p.blockList, sent, had, service.has[p.uploadid])
      invariant |p.blockList| == |blocks| && p.blockList[i..] == blocks[i..]
    {
      if trial.cancelled == Some(i) {
        EndsThere(blocks, trial, i, Some(Canceled), p.blockList, sent, had, service.has[p.uploadid]);
        return Some(Canceled), i, sent;
      }
      assert p.blockList[i] == p.blockList[i..][0] == blocks[i];
      assert p.blockList[i..][1..] == p.blockList[i + 1..] && blocks[i..][1..] == blocks[i + 1..];
      ghost var list, has := p.blockList, service.has[p.uploadid];
      if blocks[i] >= 0 {
        var sending := SendingOf(trial, blocks[i]);
        SendSlice(service, p, i, sending);
        if !sending.Stored? {
          FailsThere(blocks, trial, i, Some(sending.cause), list, sent, had, has);
          assert has + {} == has;
          return Some(sending.cause), i, sent + [blocks[i]];
        }
        ThroughOne(blocks, trial, i, list, sent, had, has);
        sent := sent + [blocks[i]];
      } else {
        ThroughOne(blocks, trial, i, list, sent, had, has);
      }
    }
    error := if trial.cancelled.Some? then Some(Canceled) else None;
    done := |blocks|;
    EndsThere(blocks, trial, done, error, p.blockList, sent, had, service.has[p.uploadid]);
  }

  lemma EmptyPrefix(blocks: seq<int>)
    ensures Filter(blocks[..0]) == [] && Remaining(blocks[..0]) == {}
  {
  }

  lemma EndsCovered(
    blocks: seq<int>, trial: Trial, done: nat, error: Option<Cause>, list: seq<int>, sent: seq<int>, had: set<int>,
    has: set<int>, count: nat)
    requires EndsAt(blocks, trial, done, error, list, sent, had, has) && Covered(had, blocks, count)
    ensures Filter(list) == Filter(blocks[done..]) && Covered(has, Filter(list), count)
    ensures error.None? ==> sent == Filter(blocks) && AllParts(0, count) <= has
  {
    RestOf(list, blocks, done);
    FilterKeeps(blocks[done..]);
    assert blocks[..done] + blocks[done..] == blocks;
    assert Remaining(blocks) <= Remaining(blocks[..done]) + Remaining(blocks[done..]);
    if error.None? {
      ErrorIfNotThrough(blocks, trial, done);
      assert blocks[..done] == blocks;
    }
  }

  lemma ErrorIfNotThrough(blocks: seq<int>, trial: Trial, done: nat)
    requires StopsAt(blocks, trial, done)
    ensures ErrorAt(blocks, trial, done).None? ==> done == |blocks|
  {
  }

  /** One round of the outer loop: on any error the remaining slices are saved. */
  method RunAttempt(service: Service, cache: UploadStateCache, key: Key, p: Precreate, trial: Trial, ghost count: nat)
    returns (error: Option<Cause>, ghost done: nat, ghost sent: seq<int>)
    requires service.Valid() && p.uploadid in service.has && Covered(service.has[p.uploadid], p.blockList, count)
    modifies service, cache, p
    ensures service.Valid() && p.uploadid in service.has && service.sent == old(service.sent) + sent
    ensures service.has == old(service.has)[p.uploadid := service.has[p.uploadid]]
    ensures old(service.has[p.uploadid]) <= service.has[p.uploadid]
    ensures StopsAt(old(p.blockList), trial, done) && error == ErrorAt(old(p.blockList), trial, done)
    ensures sent == Filter(Tried(old(p.blockList), trial, done))
    ensures error.None? ==> AllParts(0, count) <= service.has[p.uploadid] && sent == Filter(old(p.blockList))
    ensures error.None? ==> cache.entries == old(cache.entries)
    ensures error.Some? ==> p.blockList == Filter(old(p.blockList)[done..])
    ensures error.Some? ==> cache.entries == old(cache.entries)[key := p]
    ensures Covered(service.has[p.uploadid], p.blockList, count)
  {
    ghost var blocks, had := p.blockList, service.has[p.uploadid];
    error, done, sent := UploadSlices(service, p, trial);
    EndsCovered(blocks, trial, done, error, p.blockList, sent, had, service.has[p.uploadid], count);
    if error.Some? {
      p.blockList := SliceFilter(p.blockList);
      cache.Save(key, p);
    }
  }

  /** What precreate answers: an error; that the service has the file; or a session, with the slices it asks for. */
  datatype Answer = Failure | Rapid | Asks(blocks: seq<int>)

  /** How Put ends: a precreate failed, or found the file; the attempt of a round failed; or the create request was
      sent, after so many rounds that ended with an expired upload id. */
  datatype Outcome =
    | NoSession
    | RapidUpload
    | Stopped(id: nat, cause: Cause, expiries: nat)
    | Created(id: nat, accepted: bool, expiries: nat)

  /** The saved progress of the key, if any, covers the file. */
  ghost predicate SavedOk(service: Service, cache: UploadStateCache, key: Key, count: nat)
    reads service, cache, if key in cache.entries && cache.entries[key] != null then {cache.entries[key]} else {}
  {
    key in cache.entries && cache.entries[key] != null ==>
      var p := cache.entries[key];
      p.uploadid in service.has && Covered(service.has[p.uploadid], p.blockList, count)
  }

  /** The list of the first round. */
  ghost function FirstList(cache: UploadStateCache, key: Key, answers: seq<Answer>): seq<int>
    requires |answers| > 0
    reads cache, if key in cache.entries && cache.entries[key] != null then {cache.entries[key]} else {}
  {
    if key in cache.entries && cache.entries[key] != null then cache.entries[key].blockList
    else if answers[0].Asks? then answers[0].blocks
    else []
  }

  /** Only the entry of this key differs. */
  ghost predicate SameElsewhere(m: map<Key, Precreate?>, n: map<Key, Precreate?>, key: Key) {
    m - {key} == n - {key}
  }

  /** Sessions only gain slices. */
  ghost predicate Grows(has: map<nat, set<int>>, more: map<nat, set<int>>) {
    forall id :: id in has ==> id in more && has[id] <= more[id]
  }

  ghost predicate HasSaved(entries: map<Key, Precreate?>, key: Key) {
    key in entries && entries[key] != null
  }

  /** How the first round decides the rest: `blocks` is its list, and it stopped after `done` entries. */
  ghost predicate FirstRound(blocks: seq<int>, trial: Trial, done: nat, o: Outcome, sent: seq<int>) {
    && StopsAt(blocks, trial, done)
    && match ErrorAt(blocks, trial, done)
      case None => o.Created? && o.expiries == 0 && sent == Filter(blocks)
      case Some(UploadIdExpired) => !((o.Created? || o.Stopped?) && o.expiries == 0)
      case Some(cause) =>
        o.Stopped? && o.cause == cause && o.expiries == 0 && sent == Filter(Tried(blocks, trial, done))
  }

  lemma SavedSame(m: map<Key, Precreate?>, n: map<Key, Precreate?>, key: Key, p: Precreate?)
    requires SameElsewhere(m, n, key)
    ensures SameElsewhere(m[key := p], n, key)
  {
    assert m[key := p] - {key} == m - {key};
  }

  lemma GrowsOne(had: map<nat, set<int>>, has: map<nat, set<int>>, id: nat, more: set<int>)
    requires Grows(had, has) && (id in has ==> has[id] <= more)
    ensures Grows(had, has[id := more])
  {
  }

  /** The answers name only slices of the file. */
  ghost predicate ProperAnswers(answers: seq<Answer>, count: nat) {
    forall i :: 0 <= i < |answers| && answers[i].Asks? ==> Remaining(answers[i].blocks) <= AllParts(0, count)
  }

  /** The beginning of a round: the first one works on the list `first`, a later one on a session that was opened for
      it, after the first one had stopped because the upload id expired. */
  ghost predicate AtRound(expiries: nat, has: set<int>, list: seq<int>, count: nat, first: seq<int>, trial: Trial,
      done: nat, answers: seq<Answer>)
    requires expiries < |answers|
  {
    && Covered(has, list, count)
    && if expiries == 0 then list == first
       else
         && answers[expiries].Asks? && list == answers[expiries].blocks && has == AllParts(0, count) - Remaining(list)
         && StopsAt(first, trial, done) && ErrorAt(first, trial, done) == Some(UploadIdExpired)
  }

  lemma AtRoundCovered(expiries: nat, has: set<int>, list: seq<int>, count: nat, first: seq<int>, trial: Trial,
      done: nat, answers: seq<Answer>)
    requires expiries < |answers| && AtRound(expiries, has, list, count, first, trial, done, answers)
    ensures Covered(has, list, count)
  {
  }

  lemma OpenedCovers(blocks: seq<int>, count: nat)
    requires Remaining(blocks) <= AllParts(0, count)
    ensures Covered(AllParts(0, count) - Remaining(blocks), blocks, count)
  {
  }

  /** The next round after one in which the upload id expired. */
  lemma NextRound(expiries: nat, has: set<int>, list: seq<int>, count: nat, first: seq<int>, trials: seq<Trial>,
      done: nat, d: nat, answers: seq<Answer>)
    requires |trials| == 2 && |answers| == 3 && expiries < 2 && ProperAnswers(answers, count)
    requires AtRound(expiries, has, list, count, first, trials[0], done, answers)
    requires StopsAt(list, trials[expiries], d) && ErrorAt(list, trials[expiries], d) == Some(UploadIdExpired)
    requires answers[expiries + 1].Asks?
    ensures var blocks := answers[expiries + 1].blocks;
      AtRound(expiries + 1, AllParts(0, count) - Remaining(blocks), blocks, count, first, trials[0],
              if expiries == 0 then d else done, answers)
  {
    OpenedCovers(answers[expiries + 1].blocks, count);
    hide Covered, StopsAt, ErrorAt, Remaining, AllParts;
  }

  /** The outcome of a call in which the round after so many expiries was the last one. */
  lemma FirstRoundOf(expiries: nat, has: set<int>, list: seq<int>, count: nat, first: seq<int>, trials: seq<Trial>,
      done: nat, d: nat, answers: seq<Answer>, o: Outcome, sent: seq<int>)
    requires |trials| == 2 && |answers| == 3 && expiries < 2
    requires AtRound(expiries, has, list, count, first, trials[0], done, answers)
    requires StopsAt(list, trials[expiries], d)
    requires expiries == 0 ==>
      match ErrorAt(list, trials[0], d)
      case None => o.Created? && o.expiries == 0 && sent == Filter(list)
      case Some(UploadIdExpired) => o.NoSession? || o.RapidUpload?
      case Some(cause) => o.Stopped? && o.cause == cause && o.expiries == 0 && sent == Filter(Tried(list, trials[0], d))
    requires expiries > 0 ==> !((o.Created? || o.Stopped?) && o.expiries == 0)
    ensures FirstRound(first, trials[0], if expiries == 0 then d else done, o, sent)
  {
    hide Covered, StopsAt, ErrorAt, Remaining, AllParts, Filter, Tried;
  }

  /** The saved progress, or else a first session. */
  method Begin(service: Service, cache: UploadStateCache, key: Key, count: nat, answer: Answer) returns (p: Precreate?)
    requires service.Valid() && SavedOk(service, cache, key, count)
    requires answer.Asks? ==> Remaining(answer.blocks) <= AllParts(0, count)
    modifies service, cache
    ensures service.Valid() && service.sent == old(service.sent) && Grows(old(service.has), service.has)
    ensures cache.entries == old(cache.entries) - {key}
    ensures old(HasSaved(cache.entries, key)) ==> p == old(cache.entries[key])
    ensures !old(HasSaved(cache.entries, key)) ==> (p != null <==> answer.Asks?) && (p != null ==> fresh(p))
    ensures p != null ==> p.uploadid in service.has && Covered(service.has[p.uploadid], p.blockList, count)
    ensures p != null ==>
      p.blockList == if old(HasSaved(cache.entries, key)) then old(cache.entries[key].blockList) else answer.blocks
  {
    p := cache.GetDel(key);
    if p == null && answer.Asks? {
      OpenedCovers(answer.blocks, count);
      p := service.Open(count, answer.blocks);
    }
  }

  /** What the rounds come to: the session they end with, what the service has of it, and what else a caller learns. */
  ghost predicate RoundsEnd(first: seq<int>, trials: seq<Trial>, answers: seq<Answer>, count: nat, o: Outcome, id: nat,
                            list: seq<int>, has: set<int>, done: nat, sent: seq<int>)
    requires |trials| == 2 && |answers| == 3
  {
    && FirstRound(first, trials[0], done, o, sent) && Covered(has, list, count)
    && (o.Stopped? ==> o.id == id && (o.expiries == 0 ==> done <= |first| && list == Filter(first[done..])))
    && (o.Created? ==> o.id == id && (o.expiries < 2 ==> AllParts(0, count) <= has))
    && (o.Created? && o.expiries >= 2 ==> answers[2].Asks? && has == AllParts(0, count) - Remaining(answers[2].blocks))
  }

  /** How a call ends from the round on `list` on, in terms of the answers alone: an attempt that gets through leads to
      the create request; an expired upload id to another precreate, which fails, finds the file, or asks for the list
      of the next round; and any other error is returned. After two rounds the create request is sent all the same. */
  ghost predicate Unfolds(list: seq<int>, trials: seq<Trial>, answers: seq<Answer>, expiries: nat, o: Outcome)
    requires |trials| == 2 && |answers| == 3 && expiries <= 2
    decreases 2 - expiries
  {
    if expiries == 2 then o.Created? && o.expiries == 2
    else exists d ::
      && StopsAt(list, trials[expiries], d)
      && match ErrorAt(list, trials[expiries], d)
      case None => o.Created? && o.expiries == expiries
      case Some(UploadIdExpired) =>
        (match answers[expiries + 1]
        case Failure => o == NoSession
        case Rapid => o == RapidUpload
        case Asks(blocks) => Unfolds(blocks, trials, answers, expiries + 1, o))
      case Some(cause) => o.Stopped? && o.cause == cause && o.expiries == expiries
  }

  lemma UnfoldsLast(list: seq<int>, trials: seq<Trial>, answers: seq<Answer>, o: Outcome)
    requires |trials| == 2 && |answers| == 3 && o.Created? && o.expiries == 2
    ensures Unfolds(list, trials, answers, 2, o)
  {
  }

  lemma RoundUnfolds(list: seq<int>, trials: seq<Trial>, answers: seq<Answer>, expiries: nat, d: nat, id: nat,
      accepts: bool)
    requires |trials| == 2 && |answers| == 3 && expiries < 2 && StopsAt(list, trials[expiries], d)
    ensures var error, renewal := ErrorAt(list, trials[expiries], d), answers[expiries + 1];
      if error == Some(UploadIdExpired) && renewal.Asks? then
        forall o :: Unfolds(renewal.blocks, trials, answers, expiries + 1, o) ==>
          Unfolds(list, trials, answers, expiries, o)
      else Unfolds(list, trials, answers, expiries, EndOf(error, id, expiries, accepts, renewal))
  {
    hide StopsAt, ErrorAt;
  }

  /** The round after so many expiries ends the loop. */
  lemma EndsInRound(expiries: nat, had: set<int>, blocks: seq<int>, count: nat, first: seq<int>, trials: seq<Trial>,
      done: nat, d: nat, answers: seq<Answer>, o: Outcome, id: nat, list: seq<int>, has: set<int>, sent: seq<int>)
    requires |trials| == 2 && |answers| == 3 && expiries < 2
    requires AtRound(expiries, had, blocks, count, first, trials[0], done, answers) && Covered(has, list, count)
    requires StopsAt(blocks, trials[expiries], d)
    requires match ErrorAt(blocks, trials[expiries], d)
      case None =>
        o.Created? && o.id == id && o.expiries == expiries && AllParts(0, count) <= has &&
          (expiries == 0 ==> sent == Filter(blocks))
      case Some(UploadIdExpired) => o.NoSession? || o.RapidUpload?
      case Some(cause) =>
        o == Stopped(id, cause, expiries) && list == Filter(blocks[d..]) &&
          (expiries == 0 ==> sent == Filter(Tried(blocks, trials[0], d)))
    ensures RoundsEnd(first, trials, answers, count, o, id, list, has, if expiries == 0 then d else done, sent)
  {
    FirstRoundOf(expiries, had, blocks, count, first, trials, done, d, answers, o, sent);
    hide Covered, Remaining, AllParts, Filter, Tried, FirstRound, ErrorAt;
  }

  /** The loop over the rounds ends with a session for which nothing is sent. */
  lemma EndsAfterRounds(has: set<int>, list: seq<int>, count: nat, first: seq<int>, trials: seq<Trial>, done: nat,
                        answers: seq<Answer>, o: Outcome, id: nat, sent: seq<int>)
    requires |trials| == 2 && |answers| == 3 && AtRound(2, has, list, count, first, trials[0], done, answers)
    requires o.Created? && o.id == id && o.expiries == 2
    ensures RoundsEnd(first, trials, answers, count, o, id, list, has, done, sent)
  {
    hide Covered, Remaining, AllParts;
  }

  /** One round: an attempt, and with an expired upload id a new session, which is saved at once. `o` is how Put ends if
      it ends here. */
  method Round(service: Service, cache: UploadStateCache, key: Key, count: nat, p: Precreate, answers: seq<Answer>,
               trials: seq<Trial>, accepts: bool, expiries: nat, ghost first: seq<int>, ghost done: nat)
    returns (o: Option<Outcome>, q: Precreate, ghost now: nat, ghost sent: seq<int>)
    requires service.Valid() && p.uploadid in service.has && |answers| == 3 && |trials| == 2 &&
      ProperAnswers(answers, count)
    requires expiries < 2 && AtRound(expiries, service.has[p.uploadid], p.blockList, count, first, trials[0], done,
      answers)
    modifies service, cache, p
    ensures service.Valid() && Grows(old(service.has), service.has) && service.sent == old(service.sent) + sent
    ensures (if o.Some? then q == p else fresh(q)) && q.uploadid in service.has
    ensures cache.entries == if o.Some? && o.value.Created? then old(cache.entries) else old(cache.entries)[key := q]
    ensures o.Some? && o.value.Created? ==> o.value.accepted == accepts && o.value.expiries == expiries
    ensures o.None? ==> AtRound(expiries + 1, service.has[q.uploadid], q.blockList, count, first, trials[0], now,
      answers)
    ensures o.Some? ==> Unfolds(old(p.blockList), trials, answers, expiries, o.value)
    ensures o.None? ==> forall end :: Unfolds(q.blockList, trials, answers, expiries + 1, end) ==>
      Unfolds(old(p.blockList), trials, answers, expiries, end)
    ensures o.Some? ==> forall before: seq<int> :: (expiries == 0 ==> before == []) ==>
      RoundsEnd(first, trials, answers, count, o.value, q.uploadid, q.blockList, service.has[q.uploadid], now,
        before + sent)
  {
    q := p;
    var error;
    ghost var d;
    ghost var list, has, all := p.blockList, service.has[p.uploadid], service.has;
    AtRoundCovered(expiries, has, list, count, first, trials[0], done, answers);
    SameAtFirst(cache.entries, key, all);
    hide Filter, Remaining, AllParts, Tried, Covered, Grows, AtRound, StopsAt, RoundsEnd, ProperAnswers, Unfolds;
    error, d, sent := RunAttempt(service, cache, key, p, trials[expiries], count);
    RoundUnfolds(list, trials, answers, expiries, d, p.uploadid, accepts);
    GrowsOne(all, all, p.uploadid, service.has[p.uploadid]);
    now := if expiries == 0 then d else done;
    if error.Some? && error.value.UploadIdExpired? && answers[expiries + 1].Asks? {
      NextRound(expiries, has, list, count, first, trials, done, d, answers);
      ghost var sofar := service.has;
      q := service.Open(count, answers[expiries + 1].blocks);
      GrowsOne(all, sofar, q.uploadid, service.has[q.uploadid]);
      cache.Save(key, q);
      o := None;
    } else {
      var end := EndOf(error, p.uploadid, expiries, accepts, answers[expiries + 1]);
      forall before: seq<int> | expiries == 0 ==> before == []
        ensures RoundsEnd(first, trials, answers, count, end, p.uploadid, p.blockList, service.has[p.uploadid], now,
          before + sent)
      {
        assert [] + sent == sent;
        EndsInRound(expiries, has, list, count, first, trials, done, d, answers, end, p.uploadid, p.blockList,
                    service.has[p.uploadid], before + sent);
      }
      o := Some(end);
    }
  }

  /** The rounds, up to two; `q` is the session they end with, which the cache holds unless the first round went
      well. */
  method Rounds(service: Service, cache: UploadStateCache, key: Key, count: nat, p: Precreate, answers: seq<Answer>,
                trials: seq<Trial>, accepts: bool)
    returns (o: Outcome, q: Precreate, ghost done: nat, ghost sent: seq<int>)
    requires service.Valid() && p.uploadid in service.has && Covered(service.has[p.uploadid], p.blockList, count)
    requires |answers| == 3 && |trials| == 2 && ProperAnswers(answers, count) && key !in cache.entries
    modifies service, cache, p
    ensures service.Valid() && Grows(old(service.has), service.has) && service.sent == old(service.sent) + sent
    ensures SameElsewhere(cache.entries, old(cache.entries), key) && (fresh(q) || q == p) && q.uploadid in service.has
    ensures key in cache.entries <==> !(o.Created? && o.expiries == 0)
    ensures key in cache.entries ==> cache.entries[key] == q
    ensures o.Created? ==> o.accepted == accepts
    ensures RoundsEnd(old(p.blockList), trials, answers, count, o, q.uploadid, q.blockList, service.has[q.uploadid],
      done, sent)
    ensures Unfolds(old(p.blockList), trials, answers, 0, o)
  {
    done, sent, q := 0, [], p;
    ghost var first := p.blockList;
    var expiries := 0;
    assert AtRound(0, service.has[q.uploadid], q.blockList, count, first, trials[0], done, answers);
    SameAtFirst(cache.entries, key, service.has);
    hide Filter, Remaining, AllParts, Tried, Covered, Grows, SameElsewhere, AtRound, StopsAt, RoundsEnd, ProperAnswers,
      Unfolds;
    while expiries < 2
      invariant forall end :: Unfolds(q.blockList, trials, answers, expiries, end) ==>
        Unfolds(first, trials, answers, 0, end)
      invariant 0 <= expiries <= 2 && service.Valid() && q.uploadid in service.has && (fresh(q) || q == p)
      invariant AtRound(expiries, service.has[q.uploadid], q.blockList, count, first, trials[0], done, answers)
      invariant Grows(old(service.has), service.has) && service.sent == old(service.sent) + sent
      invariant SameElsewhere(cache.entries, old(cache.entries), key)
      invariant if expiries == 0 then sent == [] && key !in cache.entries && q == p
                else key in cache.entries && cache.entries[key] == q
    {
      var end;
      ghost var more;
      ghost var before, all, entries := sent, service.has, cache.entries;
      end, q, done, more := Round(service, cache, key, count, q, answers, trials, accepts, expiries, first, done);
      GrowsOn(old(service.has), all, service.has);
      SavedSame(entries, old(cache.entries), key, q);
      sent := before + more;
      if end.Some? {
        return end.value, q, done, sent;
      }
      expiries := expiries + 1;
    }
    o := Created(q.uploadid, accepts, 2);
    UnfoldsLast(q.blockList, trials, answers, o);
    EndsAfterRounds(service.has[q.uploadid], q.blockList, count, first, trials, done, answers, o, q.uploadid, sent);
  }

  /** How Put ends with a round that gives no new session. */
  function EndOf(error: Option<Cause>, id: nat, expiries: nat, accepts: bool, renewal: Answer): Outcome {
    match error
    case None => Created(id, accepts, expiries)
    case Some(UploadIdExpired) => if renewal.Rapid? then RapidUpload else NoSession
    case Some(cause) => Stopped(id, cause, expiries)
  }

  lemma SameAtFirst(m: map<Key, Precreate?>, key: Key, has: map<nat, set<int>>)
    ensures SameElsewhere(m, m, key) && Grows(has, has)
  {
  }

  lemma GrowsOn(had: map<nat, set<int>>, has: map<nat, set<int>>, more: map<nat, set<int>>)
    requires Grows(had, has) && Grows(has, more)
    ensures Grows(had, more)
  {
  }

  lemma SameOn(m: map<Key, Precreate?>, n: map<Key, Precreate?>, key: Key)
    requires SameElsewhere(m, n - {key}, key)
    ensures SameElsewhere(m, n, key)
  {
    assert (n - {key}) - {key} == n - {key};
  }

  /** Put, from the saved progress on. `answers` are those to up to three precreate requests, the first of them used
      only without saved progress. When the file is created, all slices are at the service, unless the upload id expired
      twice: then none of those are for which the third session asks. What is saved when Put returns covers the file. */
  method Put(service: Service, cache: UploadStateCache, key: Key, count: nat, answers: seq<Answer>, trials: seq<Trial>,
             accepts: bool)
    returns (o: Outcome, ghost done: nat, ghost sent: seq<int>)
    requires service.Valid() && SavedOk(service, cache, key, count)
    requires |answers| == 3 && |trials| == 2 && ProperAnswers(answers, count)
    modifies service, cache, if HasSaved(cache.entries, key) then {cache.entries[key]} else {}
    ensures service.Valid() && SavedOk(service, cache, key, count)
    ensures Grows(old(service.has), service.has) && service.sent == old(service.sent) + sent
    ensures SameElsewhere(cache.entries, old(cache.entries), key)
    ensures HasSaved(cache.entries, key) ==>
      fresh(cache.entries[key]) || (old(HasSaved(cache.entries, key)) && cache.entries[key] == old(cache.entries[key]))
    ensures old(HasSaved(cache.entries, key)) || answers[0].Asks? ==>
      FirstRound(old(FirstList(cache, key, answers)), trials[0], done, o, sent)
    ensures old(HasSaved(cache.entries, key)) || answers[0].Asks? ==>
      Unfolds(old(FirstList(cache, key, answers)), trials, answers, 0, o)
    ensures !old(HasSaved(cache.entries, key)) && answers[0].Rapid? ==> o == RapidUpload
    ensures !old(HasSaved(cache.entries, key)) && answers[0].Failure? ==> o == NoSession
    ensures o.Stopped? ==> HasSaved(cache.entries, key) && cache.entries[key].uploadid == o.id
    ensures o.Stopped? && o.expiries == 0 ==>
      done <= |old(FirstList(cache, key, answers))|
      && cache.entries[key].blockList == Filter(old(FirstList(cache, key, answers))[done..])
    ensures o.Created? ==> o.id in service.has && o.accepted == accepts
    ensures o.Created? && o.expiries < 2 ==> AllParts(0, count) <= service.has[o.id]
    ensures o.Created? && o.expiries >= 2 ==>
      answers[2].Asks? && service.has[o.id] == AllParts(0, count) - Remaining(answers[2].blocks)
    ensures o.Created? ==> (HasSaved(cache.entries, key) <==> o.expiries > 0 && !accepts)
    ensures o.Created? && HasSaved(cache.entries, key) ==> cache.entries[key].uploadid == o.id
  {
    done, sent := 0, [];
    SameAtFirst(cache.entries, key, service.has);
    var start := Begin(service, cache, key, count, answers[0]);
    if start == null {
      return if answers[0].Rapid? then RapidUpload else NoSession, 0, [];
    }
    ghost var begun := service.has;
    hide Filter, Remaining, AllParts, Covered, Grows, SameElsewhere, FirstRound, ProperAnswers, Unfolds;
    var p: Precreate;
    o, p, done, sent := Rounds(service, cache, key, count, start, answers, trials, accepts);
    GrowsOn(old(service.has), begun, service.has);
    SameOn(cache.entries, old(cache.entries), key);
    if o.Created? && accepts {
      SavedSame(cache.entries, old(cache.entries), key, null);
      cache.Save(key, null);
    }
  }

  lemma FilterTwice(blocks: seq<int>)
    ensures Filter(Filter(blocks)) == Filter(blocks)
  {
    FilterKeeps(blocks);
    NothingToFilter(Filter(blocks));
  }

  lemma {:induction false} NothingToFilter(blocks: seq<int>)
    requires forall i :: 0 <= i < |blocks| ==> blocks[i] >= 0
    ensures Filter(blocks) == blocks
  {
    if blocks != [] {
      var before, last := blocks[..|blocks| - 1], blocks[|blocks| - 1];
      assert blocks == before + [last];
      NothingToFilter(before);
    }
  }

  /** Without failures the loop goes up to the entry before which the upload is cancelled. */
  lemma CancelledAt(blocks: seq<int>, k: nat, done: nat, o: Outcome, sent: seq<int>)
    requires FirstRound(blocks, Trial(map[], Some(k)), done, o, sent)
    ensures done == if k < |blocks| then k else |blocks|
    ensures o.Stopped? && o.cause == Canceled && o.expiries == 0 && sent == Filter(blocks[..done])
  {
    var trial := Trial(map[], Some(k));
    assert forall i: nat :: i < |blocks| && i != k ==> Passes(blocks, trial, i);
    assert k < |blocks| ==> !Passes(blocks, trial, k);
    assert Tried(blocks, trial, done) == blocks[..done];
    hide Filter, Tried;
  }

  lemma NotDisturbed(blocks: seq<int>, done: nat, o: Outcome, sent: seq<int>)
    requires FirstRound(blocks, Trial(map[], None), done, o, sent)
    ensures o.Created? && o.expiries == 0 && sent == Filter(blocks)
  {
    assert forall i: nat :: i < |blocks| ==> Passes(blocks, Trial(map[], None), i);
    hide Filter, Tried;
  }

  lemma CutAndRest(earlier: seq<int>, first: seq<int>, done: nat, sent: seq<int>, rest: seq<int>, more: seq<int>)
    requires done <= |first| && sent == Filter(first[..done]) && rest == Filter(first[done..]) && more == Filter(rest)
    ensures (earlier + sent) + more == earlier + Filter(first)
  {
    FilterTwice(first[done..]);
    FilterAppend(first[..done], first[done..]);
    assert first[..done] + first[done..] == first;
  }

  /** An upload that is cancelled anywhere and resumed sends each slice of its list once, in order, and the file is
      created with all of them, whatever the create request of the second call gives. */
  method CancelAndResume(service: Service, cache: UploadStateCache, key: Key, count: nat, answers: seq<Answer>, k: nat,
                         accepts: bool)
    returns (o: Outcome)
    requires service.Valid() && SavedOk(service, cache, key, count)
    requires |answers| == 3 && ProperAnswers(answers, count) && (HasSaved(cache.entries, key) || answers[0].Asks?)
    modifies service, cache, if HasSaved(cache.entries, key) then {cache.entries[key]} else {}
    ensures o.Created? && o.expiries == 0 && o.id in service.has && AllParts(0, count) <= service.has[o.id]
    ensures service.sent == old(service.sent) + Filter(old(FirstList(cache, key, answers)))
    ensures !HasSaved(cache.entries, key)
  {
    ghost var first := FirstList(cache, key, answers);
    var cut, whole := Trial(map[], Some(k)), Trial(map[], None);
    hide Remaining, AllParts, Covered, Grows, SameElsewhere, ProperAnswers, Filter, FirstRound, Unfolds;
    var stopped;
    ghost var done, sent;
    stopped, done, sent := Put(service, cache, key, count, answers, [cut, cut], accepts);
    CancelledAt(first, k, done, stopped, sent);
    ghost var rest := cache.entries[key].blockList;
    ghost var more, again;
    o, again, more := Put(service, cache, key, count, answers, [whole, whole], accepts);
    NotDisturbed(rest, again, o, more);
    CutAndRest(old(service.sent), first, done, sent, rest, more);
  }
}
