/** drivers/alias: which of the backend objects with the same path an operation works on.
    `Get` builds the candidate vector, a conflict policy filters it, `getAllObjs` compacts it in place. */
module AliasPolicy {
  import opened Options
  import opened Results

  datatype Error = ObjectNotFound | NotFile | NotFolder | PathConflict | SamePathLeak

  datatype Policy = First | Deterministic | DeterministicOrAll | All | AllStrict | RandomBalanced | Quota | QuotaStrict

  datatype Info = Info(isDir: bool, size: int, hashes: map<string, string>)

  /** A candidate: the hole that stands for the roots already known to miss, a looked-up object, or a path
      still to be looked up. */
  datatype Cand = Hole | Plain(path: string, info: Info) | Temp(path: string)

  /** The backend, as far as looking objects up is concerned. */
  type Files = map<string, Info>

  const NO_INFO := Info(false, 0, map[])

  function HashOf(o: Info, kind: string): string {
    if kind in o.hashes then o.hashes[kind] else ""
  }

  predicate IsConsistent(a: Info, b: Info) {
    a.size == b.size && forall kind :: kind in a.hashes ==> HashOf(b, kind) == "" || HashOf(b, kind) == a.hashes[kind]
  }

  /** Which of the two objects is asked first does not matter, unless a hash is recorded as an empty string. */
  lemma ConsistencyIsMutual(a: Info, b: Info)
    requires "" !in a.hashes.Values && "" !in b.hashes.Values
    ensures IsConsistent(a, b) <==> IsConsistent(b, a)
  {
  }

  /** The lookup of one candidate; `first` is the object that the request named. */
  function Check(c: Cand, first: Info, files: Files, consistency: bool): Option<Error> {
    match c
    case Hole => Some(ObjectNotFound)
    case Plain(_, _) => None
    case Temp(path) =>
      if path !in files then Some(ObjectNotFound)
      else if !first.isDir then
        if files[path].isDir then Some(NotFile)
        else if consistency && !IsConsistent(first, files[path]) then Some(ObjectNotFound)
        else None
      else if !files[path].isDir then Some(NotFolder)
      else None
  }

  /** Two objects may stand for the same alias path: both are folders, or both are files, and if consistency is asked
      for, the files have one size and no hash of the second one, unless it is empty, differs from that of the first. */
  ghost predicate Agrees(first: Info, other: Info, consistency: bool) {
    && other.isDir == first.isDir
    && (consistency && !first.isDir ==>
      && other.size == first.size
      && forall kind :: kind in first.hashes && kind in other.hashes && other.hashes[kind] != "" ==>
        other.hashes[kind] == first.hashes[kind])
  }

  /** A candidate counts if it was found already, or if its path exists as an object that agrees with the first one. */
  lemma CountsIff(c: Cand, first: Info, files: Files, consistency: bool)
    ensures Check(c, first, files, consistency).None? <==>
      c.Plain? || (c.Temp? && c.path in files && Agrees(first, files[c.path], consistency))
  {
    if c.Temp? && c.path in files {
      var other := files[c.path];
      assert forall kind :: kind in first.hashes && kind !in other.hashes ==> HashOf(other, kind) == "";
    }
  }

  /** What is kept of a candidate that was found. */
  function Kept(c: Cand): Cand {
    if c.Temp? then Plain(c.path, NO_INFO) else c
  }

  // ---------- The policies, as functions of the existence vector ----------

  /** The elements whose flag is set, in order. */
  function Pick<T>(xs: seq<T>, v: seq<bool>): (p: seq<T>)
    requires |xs| == |v|
    ensures |p| <= |xs|
  {
    if xs == [] then []
    else
      var n := |xs| - 1;
      Pick(xs[..n], v[..n]) + if v[n] then [xs[n]] else []
  }

  /** What each policy promises: `hits` are the existing objects, `total` counts all candidates. */
  function Selected<T>(policy: Policy, hits: seq<T>, total: nat): Result<seq<T>, Error> {
    var n := |hits|;
    match policy
    case First => if n == 0 then Err(ObjectNotFound) else Ok([hits[0]])
    case Deterministic => if n == 0 then Err(ObjectNotFound) else if n == 1 then Ok(hits) else Err(PathConflict)
    case DeterministicOrAll =>
      if n == 0 then Err(ObjectNotFound) else if n == 1 || n == total then Ok(hits) else Err(SamePathLeak)
    case AllStrict => if total == 0 then Err(ObjectNotFound) else if n == total then Ok(hits) else Err(SamePathLeak)
    case _ => if n == 0 then Err(ObjectNotFound) else Ok(hits)
  }

  // ---------- The stateful filter ----------

  /** The closure that getWriteAndPutFilterFunc returns, with its two captured variables. */
  class PolicyFilter {
    const policy: Policy
    var all: bool
    var l: nat

    constructor (policy: Policy)
      ensures this.policy == policy && all && l == 0
    {
      this.policy := policy;
      all, l := true, 0;
    }

    /** Given the lookup error of the next candidate: go on or not, and the error to report. */
    method IfContinue(err: Option<Error>) returns (cont: bool, e: Option<Error>)
      modifies this
      ensures (cont, e, all, l) == Next(policy, old(all), old(l), err)
    {
      if policy == All {
        return true, err;
      }
      if err.Some? {
        if policy == AllStrict {
          return false, Some(SamePathLeak);
        } else if policy == DeterministicOrAll {
          if l >= 2 {
            return false, Some(SamePathLeak);
          }
        }
        all := false;
      } else {
        if policy == First {
          return false, None;
        } else if policy == Deterministic {
          if l > 0 {
            return false, Some(PathConflict);
          }
        } else if policy == DeterministicOrAll {
          if l > 0 && !all {
            return false, Some(SamePathLeak);
          }
        }
        l := l + 1;
      }
      return true, err;
    }
  }

  function Next(policy: Policy, all: bool, l: nat, err: Option<Error>): (bool, Option<Error>, bool, nat) {
    if policy == All then (true, err, all, l)
    else if err.Some? then
      if policy == AllStrict || (policy == DeterministicOrAll && l >= 2) then (false, Some(SamePathLeak), all, l)
      else (true, err, false, l)
    else if policy == First then (false, None, all, l)
    else if policy == Deterministic && l > 0 then (false, Some(PathConflict), all, l)
    else if policy == DeterministicOrAll && l > 0 && !all then (false, Some(SamePathLeak), all, l)
    else (true, None, all, l + 1)
  }

  /** The captured variables after `n` candidates, `m` of them found, none of which ended the loop. */
  ghost predicate FilterState(policy: Policy, all: bool, l: nat, m: nat, n: nat) {
    match policy
    case All => true
    case First => m == 0
    case Deterministic => l == m <= 1
    case DeterministicOrAll => l == m && (all <==> m == n) && (m <= 1 || m == n)
    case AllStrict => m == n
    case _ => true
  }

  lemma {:induction false} PickPrefix<T>(xs: seq<T>, v: seq<bool>, k: nat)
    requires k <= |xs| == |v|
    ensures Pick(xs[..k], v[..k]) <= Pick(xs, v)
    ensures |Pick(xs, v)| <= |Pick(xs[..k], v[..k])| + |xs| - k
  {
    var n := |xs| - 1;
    if k == |xs| {
      assert xs[..k] == xs && v[..k] == v;
    } else {
      PickPrefix(xs[..n], v[..n], k);
      assert xs[..n][..k] == xs[..k] && v[..n][..k] == v[..k];
    }
  }

  lemma PickSnoc<T>(xs: seq<T>, v: seq<bool>, k: nat)
    requires k < |xs| == |v|
    ensures Pick(xs[..k + 1], v[..k + 1]) == Pick(xs[..k], v[..k]) + if v[k] then [xs[k]] else []
  {
    assert xs[..k + 1][..k] == xs[..k] && v[..k + 1][..k] == v[..k];
  }

  /** Whatever the rest of the candidates brings, the filter's verdict is that of the policy: `before` were
      found among the first `k` candidates, `hits` one later, and `found` among all `total`. */
  lemma VerdictIsFinal<T>(policy: Policy, all: bool, l: nat, err: Option<Error>, before: seq<T>, hits: seq<T>, k: nat,
      found: seq<T>, total: nat)
    requires FilterState(policy, all, l, |before|, k) && |before| <= k < total
    requires |hits| == |before| + (if err.None? then 1 else 0)
    requires hits <= found && |found| <= |hits| + total - k - 1
    ensures var (cont, e, all', l') := Next(policy, all, l, err);
      if cont then FilterState(policy, all', l', |hits|, k + 1) && (e.Some? <==> err.Some?)
      else if e.Some? then Selected(policy, found, total) == Err(e.value)
      else err.None? && Selected(policy, found, total) == Ok(hits)
  {
    assert |hits| == 1 ==> hits == [hits[0]];
  }

  lemma VerdictAtEnd<T>(policy: Policy, all: bool, l: nat, hits: seq<T>, total: nat)
    requires FilterState(policy, all, l, |hits|, total) && |hits| <= total
    ensures Selected(policy, hits, total) == if hits == [] then Err(ObjectNotFound) else Ok(hits)
  {
    assert |hits| == 0 <==> hits == [];
  }

  // ---------- getAllObjs ----------

  function KeptAll(cs: seq<Cand>): seq<Cand> {
    seq(|cs|, i requires 0 <= i < |cs| => Kept(cs[i]))
  }

  function Exists(cs: seq<Cand>, first: Info, files: Files, consistency: bool): seq<bool> {
    seq(|cs|, i requires 0 <= i < |cs| => Check(cs[i], first, files, consistency).None?)
  }

  /** The first `length` entries are the chosen ones, the others are still what they were. */
  ghost predicate Compacted(now: seq<Cand>, cs: seq<Cand>, chosen: seq<Cand>, length: nat) {
    && length == |chosen| <= |now| == |cs|
    && now[..length] == chosen && now[length..] == cs[length..]
  }

  lemma CompactStep(now: seq<Cand>, cs: seq<Cand>, chosen: seq<Cand>, length: nat, x: Cand)
    requires Compacted(now, cs, chosen, length) && length < |now|
    ensures Compacted(now[length := x], cs, chosen + [x], length + 1)
  {
    assert cs[length + 1..] == cs[length..][1..];
  }

  /** Filters the candidates in place: on success the result is the first `r.value` entries of the array. The
      write position never passes the read position, so no entry is overwritten before it is read. */
  method GetAllObjs(objs: array<Cand>, policy: Policy, files: Files, consistency: bool) returns (r: Result<nat, Error>)
    requires objs.Length > 0 && objs[0].Plain?
    modifies objs
    ensures var cs := old(objs[..]);
      IsVerdict(r, objs[..], cs, Selected(policy, Pick(KeptAll(cs), Exists(cs, cs[0].info, files, consistency)), |cs|))
  {
    r := FilterInPlace(objs, policy, files, consistency, KeptAll(objs[..]),
      Exists(objs[..], objs[0].info, files, consistency));
  }

  ghost predicate IsVerdict(r: Result<nat, Error>, now: seq<Cand>, cs: seq<Cand>, chosen: Result<seq<Cand>, Error>) {
    if chosen.Err? then r == Err(chosen.error)
    else r == Ok(|chosen.value|) && Compacted(now, cs, chosen.value, r.value)
  }

  /** The loop state before candidate `i`; `xs` and `v` are what would be kept of each candidate, and
      whether it exists. */
  ghost predicate Filtering(policy: Policy, all: bool, l: nat, now: seq<Cand>, cs: seq<Cand>, xs: seq<Cand>,
      v: seq<bool>, i: nat, length: nat) {
    && i <= |cs| == |xs| == |v| == |now| && cs != []
    && length == |Pick(xs[..i], v[..i])| <= i
    && Compacted(now, cs, Pick(xs[..i], v[..i]), length)
    && FilterState(policy, all, l, length, i)
    && now[0] == cs[0] && (i > 0 ==> length > 0)
  }

  lemma FilterStep(policy: Policy, all: bool, l: nat, now: seq<Cand>, cs: seq<Cand>, xs: seq<Cand>, v: seq<bool>,
      i: nat, length: nat, err: Option<Error>)
    requires i < |cs| && Filtering(policy, all, l, now, cs, xs, v, i, length)
    requires (v[i] <==> err.None?) && v[0] && xs[0] == cs[0]
    ensures now[i] == cs[i]
    ensures var (cont, e, all', l') := Next(policy, all, l, err);
      var chosen := Selected(policy, Pick(xs, v), |xs|);
      if e.Some? then
        if cont then Filtering(policy, all', l', now, cs, xs, v, i + 1, length) else chosen == Err(e.value)
      else
        if cont then Filtering(policy, all', l', now[length := xs[i]], cs, xs, v, i + 1, length + 1)
        else IsVerdict(Ok(length + 1), now[length := xs[i]], cs, chosen)
  {
    hide FilterState, Selected, Pick, Next;
    var before, hits := Pick(xs[..i], v[..i]), Pick(xs[..i + 1], v[..i + 1]);
    assert now[length..][i - length] == cs[length..][i - length];
    PickSnoc(xs, v, i);
    PickPrefix(xs, v, i + 1);
    VerdictIsFinal(policy, all, l, err, before, hits, i, Pick(xs, v), |xs|);
    CompactStep(now, cs, before, length, xs[i]);
    assert before + [] == before;
  }

  lemma FilterBegin(policy: Policy, cs: seq<Cand>, xs: seq<Cand>, v: seq<bool>)
    requires |cs| == |xs| == |v| && cs != []
    ensures Filtering(policy, true, 0, cs, cs, xs, v, 0, 0)
  {
  }

  method FilterInPlace(objs: array<Cand>, policy: Policy, files: Files, consistency: bool, ghost xs: seq<Cand>,
      ghost v: seq<bool>)
    returns (r: Result<nat, Error>)
    requires objs.Length > 0 && objs[0].Plain? && |xs| == |v| == objs.Length
    requires forall i :: 0 <= i < |xs| ==>
      xs[i] == Kept(objs[i]) && v[i] == Check(objs[i], objs[0].info, files, consistency).None?
    modifies objs
    ensures IsVerdict(r, objs[..], old(objs[..]), Selected(policy, Pick(xs, v), |xs|))
  {
    hide FilterState, Selected, Pick;
    ghost var cs := objs[..];
    FilterBegin(policy, cs, xs, v);
    var filter := new PolicyFilter(policy);
    var length := 0;
    for i := 0 to objs.Length
      invariant length <= i && filter.policy == policy
      invariant Filtering(policy, filter.all, filter.l, objs[..], cs, xs, v, i, length)
    {
      var o := objs[i];
      assert objs[..][i] == o && objs[..][0] == cs[0];
      var err := Check(o, objs[0].info, files, consistency);
      ghost var now := objs[..];
      FilterStep(policy, filter.all, filter.l, now, cs, xs, v, i, length, Check(cs[i], cs[0].info, files, consistency));
      var cont, e := filter.IfContinue(err);
      if e.Some? {
        if !cont {
          return Err(e.value);
        }
      } else {
        objs[length] := Kept(o);
        assert objs[..] == now[length := xs[i]];
        length := length + 1;
        if !cont {
          return Ok(length);
        }
      }
    }
    assert xs[..objs.Length] == xs && v[..objs.Length] == v;
    VerdictAtEnd(policy, filter.all, filter.l, Pick(xs, v), |xs|);
    if length == 0 {
      return Err(ObjectNotFound);
    }
    return Ok(length);
  }
}
