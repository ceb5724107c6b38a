/** drivers/alias/driver.go `Get`: from the roots of an alias to the candidate vector, and what the
    conflict policies then mean for the roots themselves. */
module AliasRoots {
  import opened Options
  import opened Results
  import opened AliasPolicy

  /** Root `idx` is the first one under which the path exists. */
  ghost predicate IsFirstExisting(roots: seq<string>, files: Files, idx: nat) {
    idx < |roots| && roots[idx] in files && forall i :: 0 <= i < idx ==> roots[i] !in files
  }

  /** The vector that `Get` builds: the first existing object, one hole for all the roots before it,
      and the later roots still to be looked up. */
  function Candidates(roots: seq<string>, files: Files, idx: nat): seq<Cand>
    requires idx < |roots| && roots[idx] in files
  {
    [Plain(roots[idx], files[roots[idx]])] + (if idx > 0 then [Hole] else []) + Temps(roots[idx + 1..])
  }

  function Temps(paths: seq<string>): seq<Cand> {
    seq(|paths|, i requires 0 <= i < |paths| => Temp(paths[i]))
  }

  method Get(roots: seq<string>, files: Files) returns (r: Result<seq<Cand>, Error>)
    ensures r.Err? ==> r.error == ObjectNotFound && forall i :: 0 <= i < |roots| ==> roots[i] !in files
    ensures r.Ok? ==> exists idx: nat :: IsFirstExisting(roots, files, idx) && r.value == Candidates(roots, files, idx)
  {
    for idx := 0 to |roots|
      invariant forall i :: 0 <= i < idx ==> roots[i] !in files
    {
      if roots[idx] !in files {
        continue;
      }
      var rest := roots[idx + 1..];
      var objs := [Plain(roots[idx], files[roots[idx]])];
      if idx > 0 {
        objs := objs + [Hole];
      }
      ghost var head := objs;
      for k := 0 to |rest|
        invariant objs == head + Temps(rest[..k])
      {
        objs := objs + [Temp(rest[k])];
        assert Temps(rest[..k + 1]) == Temps(rest[..k]) + [Temp(rest[k])];
      }
      assert rest[..|rest|] == rest;
      assert IsFirstExisting(roots, files, idx);
      return Ok(objs);
    }
    return Err(ObjectNotFound);
  }

  /** Whether the path exists under each root, as the driver sees it: a later root counts when its object
      is of the same kind as the first one, and consistent with it if that is checked. */
  function RootExists(roots: seq<string>, files: Files, consistency: bool, idx: nat): seq<bool>
    requires idx < |roots| && roots[idx] in files
  {
    seq(|roots|, i requires 0 <= i < |roots| =>
      i == idx || (i > idx && Check(Temp(roots[i]), files[roots[idx]], files, consistency).None?))
  }

  function PathOf(c: Cand): string {
    if c.Hole? then "" else c.path
  }

  function Paths(cs: seq<Cand>): seq<string> {
    seq(|cs|, i requires 0 <= i < |cs| => PathOf(cs[i]))
  }

  lemma {:induction false} PickConcat<T>(xs: seq<T>, v: seq<bool>, ys: seq<T>, w: seq<bool>)
    requires |xs| == |v| && |ys| == |w|
    ensures Pick(xs + ys, v + w) == Pick(xs, v) + Pick(ys, w)
    decreases |ys|
  {
    if ys == [] {
      assert xs + ys == xs && v + w == v;
    } else {
      var n := |ys| - 1;
      PickConcat(xs, v, ys[..n], w[..n]);
      assert (xs + ys)[..|xs| + n] == xs + ys[..n] && (v + w)[..|v| + n] == v + w[..n];
    }
  }

  lemma {:induction false} PickNone<T>(xs: seq<T>, v: seq<bool>)
    requires |xs| == |v| && forall i :: 0 <= i < |v| ==> !v[i]
    ensures Pick(xs, v) == []
  {
    if xs != [] {
      PickNone(xs[..|xs| - 1], v[..|xs| - 1]);
    }
  }

  lemma {:induction false} PickPaths(cs: seq<Cand>, v: seq<bool>)
    requires |cs| == |v|
    ensures Paths(Pick(cs, v)) == Pick(Paths(cs), v)
  {
    if cs != [] {
      var n := |cs| - 1;
      PickPaths(cs[..n], v[..n]);
      assert Paths(cs)[..n] == Paths(cs[..n]);
    }
  }

  lemma {:induction false} PickAll<T>(xs: seq<T>, v: seq<bool>)
    requires |xs| == |v|
    ensures |Pick(xs, v)| == |xs| <==> forall i :: 0 <= i < |v| ==> v[i]
  {
    if xs != [] {
      var n := |xs| - 1;
      PickAll(xs[..n], v[..n]);
      assert v == v[..n] + [v[n]];
    }
  }

  /** The paths of the candidates: the first existing root, the hole, the later roots. */
  lemma CandidatePaths(roots: seq<string>, files: Files, idx: nat)
    requires idx < |roots| && roots[idx] in files
    ensures Paths(KeptAll(Candidates(roots, files, idx))) ==
      [roots[idx]] + (if idx > 0 then [""] else []) + roots[idx + 1..]
  {
    var cs := Candidates(roots, files, idx);
    var expected := [roots[idx]] + (if idx > 0 then [""] else []) + roots[idx + 1..];
    forall j | 0 <= j < |cs| ensures PathOf(Kept(cs[j])) == expected[j] {
    }
  }

  /** Their existence flags. */
  lemma CandidateFlags(roots: seq<string>, files: Files, consistency: bool, idx: nat)
    requires idx < |roots| && roots[idx] in files
    ensures Exists(Candidates(roots, files, idx), files[roots[idx]], files, consistency)
      == [true] + (if idx > 0 then [false] else []) + RootExists(roots, files, consistency, idx)[idx + 1..]
  {
    var cs := Candidates(roots, files, idx);
    var expected := [true] + (if idx > 0 then [false] else []) + RootExists(roots, files, consistency, idx)[idx + 1..];
    var k := if idx > 0 then 2 else 1;
    forall j | 0 <= j < |cs| ensures Check(cs[j], files[roots[idx]], files, consistency).None? == expected[j] {
      if j >= k {
        assert cs[j] == Temp(roots[j - k + idx + 1]);
        assert expected[j] == RootExists(roots, files, consistency, idx)[j - k + idx + 1];
      }
    }
  }

  /** The candidate vector loses nothing that matters: the objects found among the candidates are those of
      the existing roots, in order, and all candidates exist exactly when all roots do. */
  lemma CandidatesMatchRoots(roots: seq<string>, files: Files, consistency: bool, idx: nat)
    requires IsFirstExisting(roots, files, idx)
    ensures var cs := Candidates(roots, files, idx);
      var v := Exists(cs, cs[0].info, files, consistency);
      var re := RootExists(roots, files, consistency, idx);
      && Paths(Pick(KeptAll(cs), v)) == Pick(roots, re)
      && (|Pick(KeptAll(cs), v)| == |cs| <==> forall i :: 0 <= i < |re| ==> re[i])
  {
    var cs := Candidates(roots, files, idx);
    var v := Exists(cs, cs[0].info, files, consistency);
    var re := RootExists(roots, files, consistency, idx);
    CandidatePaths(roots, files, idx);
    CandidateFlags(roots, files, consistency, idx);
    PickPaths(KeptAll(cs), v);
    PickAll(KeptAll(cs), v);
    assert |v| == |cs| == |KeptAll(cs)|;
    FirstFlag(roots, files, consistency, idx, re);
    hide Exists, RootExists, KeptAll, Candidates, Paths, Pick;
    AcrossRoots(roots, re, idx, if idx > 0 then [""] else [], if idx > 0 then [false] else [], Paths(KeptAll(cs)), v);
  }

  lemma FirstFlag(roots: seq<string>, files: Files, consistency: bool, idx: nat, re: seq<bool>)
    requires IsFirstExisting(roots, files, idx) && re == RootExists(roots, files, consistency, idx)
    ensures |re| == |roots| && re[idx] && forall i :: 0 <= i < idx ==> !re[i]
  {
  }

  /** Taking the missed first roots out and putting a missed hole in changes neither what is picked nor whether
      all flags are set. */
  lemma AcrossRoots(roots: seq<string>, re: seq<bool>, idx: nat, hole: seq<string>, miss: seq<bool>,
      paths: seq<string>, v: seq<bool>)
    requires idx < |roots| == |re| && re[idx] && forall i :: 0 <= i < idx ==> !re[i]
    requires |hole| == |miss| && miss == if idx > 0 then [false] else []
    requires paths == [roots[idx]] + hole + roots[idx + 1..] && v == [true] + miss + re[idx + 1..]
    ensures Pick(paths, v) == Pick(roots, re)
    ensures (forall i :: 0 <= i < |v| ==> v[i]) <==> forall i :: 0 <= i < |re| ==> re[i]
  {
    hide Pick;
    AllAcrossHole(v, re, idx);
    var rest, late := roots[idx + 1..], re[idx + 1..];
    assert roots == roots[..idx] + ([roots[idx]] + rest) && re == re[..idx] + ([true] + late);
    PickAfterMisses(roots[..idx], re[..idx], [roots[idx]] + rest, [true] + late);
    PickAcrossHole(roots[idx], rest, late, hole, miss);
  }

  /** The roots before the first existing one contribute nothing. */
  lemma PickAfterMisses<T>(before: seq<T>, missed: seq<bool>, rest: seq<T>, flags: seq<bool>)
    requires |before| == |missed| && |rest| == |flags| && forall i :: 0 <= i < |missed| ==> !missed[i]
    ensures Pick(before + rest, missed + flags) == Pick(rest, flags)
  {
    PickNone(before, missed);
    PickConcat(before, missed, rest, flags);
  }

  /** Neither does the hole that replaces them. */
  lemma PickAcrossHole<T>(first: T, later: seq<T>, late: seq<bool>, hole: seq<T>, miss: seq<bool>)
    requires |later| == |late| && |hole| == |miss| && forall i :: 0 <= i < |miss| ==> !miss[i]
    ensures Pick([first] + hole + later, [true] + miss + late) == Pick([first] + later, [true] + late)
  {
    PickNone(hole, miss);
    PickAround([first], [true], hole, miss, later, late);
    PickConcat([first], [true], later, late);
  }

  lemma PickAround<T>(a: seq<T>, va: seq<bool>, b: seq<T>, vb: seq<bool>, c: seq<T>, vc: seq<bool>)
    requires |a| == |va| && |b| == |vb| && |c| == |vc| && Pick(b, vb) == []
    ensures Pick(a + b + c, va + vb + vc) == Pick(a, va) + Pick(c, vc)
  {
    hide Pick;
    PickConcat(a + b, va + vb, c, vc);
    PickConcat(a, va, b, vb);
    assert Pick(a, va) + [] == Pick(a, va);
  }

  lemma AllAcrossHole(v: seq<bool>, re: seq<bool>, idx: nat)
    requires idx < |re| && re[idx] && forall i :: 0 <= i < idx ==> !re[i]
    requires v == [true] + (if idx > 0 then [false] else []) + re[idx + 1..]
    ensures (forall i :: 0 <= i < |v| ==> v[i]) <==> forall i :: 0 <= i < |re| ==> re[i]
  {
    if idx > 0 {
      assert !v[1] && !re[0];
    } else {
      assert v == re;
    }
  }

  /** What the policies promise about the roots. `found` are the roots under which the path exists. */
  lemma PoliciesOverRoots(policy: Policy, roots: seq<string>, files: Files, consistency: bool, idx: nat)
    requires IsFirstExisting(roots, files, idx)
    ensures var cs := Candidates(roots, files, idx);
      var chosen := Selected(policy, Pick(KeptAll(cs), Exists(cs, cs[0].info, files, consistency)), |cs|);
      var re := RootExists(roots, files, consistency, idx);
      var found := Pick(roots, re);
      && (chosen.Ok? <==> match policy
           case AllStrict => forall i :: 0 <= i < |re| ==> re[i]
           case Deterministic => |found| == 1
           case DeterministicOrAll => |found| == 1 || forall i :: 0 <= i < |re| ==> re[i]
           case _ => true)
      && (chosen.Ok? ==> Paths(chosen.value) == if policy == First then [roots[idx]] else found)
      && (chosen.Err? ==> chosen.error == if policy == Deterministic then PathConflict else SamePathLeak)
  {
    CandidatesMatchRoots(roots, files, consistency, idx);
    var cs := Candidates(roots, files, idx);
    var hits := Pick(KeptAll(cs), Exists(cs, cs[0].info, files, consistency));
    var re := RootExists(roots, files, consistency, idx);
    FirstFound(roots, re, idx);
    assert |Paths(hits)| == |hits|;
    assert Paths(hits)[0] == PathOf(hits[0]);
  }

  lemma FirstFound<T>(xs: seq<T>, v: seq<bool>, idx: nat)
    requires idx < |xs| == |v| && v[idx] && forall i :: 0 <= i < idx ==> !v[i]
    ensures |Pick(xs, v)| > 0 && Pick(xs, v)[0] == xs[idx]
  {
    PickNone(xs[..idx], v[..idx]);
    PickSnoc(xs, v, idx);
    PickPrefix(xs, v, idx + 1);
  }

  predicate Everywhere(flags: seq<bool>) {
    forall i :: 0 <= i < |flags| ==> flags[i]
  }

  predicate Nowhere(flags: seq<bool>) {
    forall i :: 0 <= i < |flags| ==> !flags[i]
  }

  predicate OnlyAt(flags: seq<bool>, idx: nat) {
    forall i :: 0 <= i < |flags| && i != idx ==> !flags[i]
  }

  /** The outcome of resolving an alias path, over the roots; `idx` is the first root that has the path. */
  function Choice(policy: Policy, roots: seq<string>, re: seq<bool>, idx: nat): Result<seq<string>, Error>
    requires idx < |roots| == |re|
  {
    var found := Pick(roots, re);
    var everywhere := Everywhere(re);
    match policy
    case First => Ok([roots[idx]])
    case AllStrict => if everywhere then Ok(roots) else Err(SamePathLeak)
    case Deterministic => if |found| == 1 then Ok([roots[idx]]) else Err(PathConflict)
    case DeterministicOrAll => if |found| == 1 || everywhere then Ok(found) else Err(SamePathLeak)
    case _ => Ok(found)
  }

  lemma ChosenResolves(policy: Policy, roots: seq<string>, files: Files, consistency: bool, idx: nat,
      r: Result<seq<string>, Error>)
    requires IsFirstExisting(roots, files, idx)
    requires var cs := Candidates(roots, files, idx);
      var chosen := Selected(policy, Pick(KeptAll(cs), Exists(cs, cs[0].info, files, consistency)), |cs|);
      r == if chosen.Ok? then Ok(Paths(chosen.value)) else Err(chosen.error)
    ensures r == Choice(policy, roots, RootExists(roots, files, consistency, idx), idx)
  {
    var re := RootExists(roots, files, consistency, idx);
    PoliciesOverRoots(policy, roots, files, consistency, idx);
    FirstFound(roots, re, idx);
    PickWhole(roots, re);
    var found := Pick(roots, re);
    assert |found| == 1 ==> found == [found[0]];
  }

  /** The roots that a policy works on, or the error it gives. */
  ghost function Resolved(policy: Policy, roots: seq<string>, files: Files, consistency: bool):
    Result<seq<string>, Error>
  {
    if exists idx: nat :: IsFirstExisting(roots, files, idx) then
      var idx: nat :| IsFirstExisting(roots, files, idx);
      Choice(policy, roots, RootExists(roots, files, consistency, idx), idx)
    else Err(ObjectNotFound)
  }

  /** A root counts if and only if the path exists under it as an object that agrees with the first one; where no empty
      hash is recorded, files agree if no kind of hash has two values. */
  lemma RootCounts(roots: seq<string>, files: Files, consistency: bool, idx: nat, i: nat)
    requires IsFirstExisting(roots, files, idx) && i < |roots|
    ensures RootExists(roots, files, consistency, idx)[i] <==>
      roots[i] in files && Agrees(files[roots[idx]], files[roots[i]], consistency)
    ensures roots[i] in files && "" !in files[roots[i]].hashes.Values + files[roots[idx]].hashes.Values ==>
      var a, b := files[roots[idx]], files[roots[i]];
      Agrees(a, b, consistency) <==>
        && (a.isDir <==> b.isDir)
        && (consistency && !a.isDir ==>
          a.size == b.size && forall k :: k in a.hashes && k in b.hashes ==> a.hashes[k] == b.hashes[k])
  {
    CountsIff(Temp(roots[i]), files[roots[idx]], files, consistency);
    CountsIff(Temp(roots[idx]), files[roots[idx]], files, consistency);
    hide Check, IsConsistent, HashOf;
  }

  /** The roots that count, over the backend alone. */
  ghost function Counting(roots: seq<string>, files: Files, consistency: bool, idx: nat): seq<bool>
    requires idx < |roots| && roots[idx] in files
  {
    seq(|roots|, i requires 0 <= i < |roots| =>
      roots[i] in files && Agrees(files[roots[idx]], files[roots[i]], consistency))
  }

  /** What a policy makes of the roots that count; `idx` is the first of them. */
  ghost predicate IsOutcome(policy: Policy, roots: seq<string>, counts: seq<bool>, idx: nat,
      r: Result<seq<string>, Error>)
    requires |counts| == |roots| && idx < |roots|
  {
    && (r.Ok? <==>
      && (policy == AllStrict ==> Everywhere(counts))
      && (policy == Deterministic ==> OnlyAt(counts, idx))
      && (policy == DeterministicOrAll ==> OnlyAt(counts, idx) || Everywhere(counts)))
    && (r.Err? ==> r.error == if policy == Deterministic then PathConflict else SamePathLeak)
    && (r.Ok? ==> r.value != [] && r.value[0] == roots[idx])
    && (r.Ok? && policy == First ==> |r.value| == 1)
    && (r.Ok? && policy != First ==> IsSelection(r.value, roots, counts))
  }

  /** `paths` holds the roots that count and no others. */
  ghost predicate IsSelection(paths: seq<string>, roots: seq<string>, counts: seq<bool>)
    requires |counts| == |roots|
  {
    && (forall p :: p in paths ==> exists i :: 0 <= i < |roots| && p == roots[i] && counts[i])
    && forall i :: 0 <= i < |roots| && counts[i] ==> roots[i] in paths
  }

  lemma {:induction false} PickSelects(roots: seq<string>, v: seq<bool>)
    requires |roots| == |v|
    ensures IsSelection(Pick(roots, v), roots, v)
  {
    if roots != [] {
      var n := |roots| - 1;
      PickSelects(roots[..n], v[..n]);
      assert Pick(roots, v) == Pick(roots[..n], v[..n]) + if v[n] then [roots[n]] else [];
      OneMoreSelected(Pick(roots[..n], v[..n]), roots, v);
    }
  }

  lemma OneMoreSelected(p: seq<string>, roots: seq<string>, v: seq<bool>)
    requires |roots| == |v| > 0
    requires var n := |roots| - 1; IsSelection(p, roots[..n], v[..n])
    ensures var n := |roots| - 1; IsSelection(p + if v[n] then [roots[n]] else [], roots, v)
  {
    var n := |roots| - 1;
    var q := p + if v[n] then [roots[n]] else [];
    forall x | x in q ensures exists i :: 0 <= i < |roots| && x == roots[i] && v[i] {
      if x in p {
        var i :| 0 <= i < n && x == roots[..n][i] && v[..n][i];
        assert x == roots[i] && v[i];
      }
    }
    forall i | 0 <= i < |roots| && v[i] ensures roots[i] in q {
      if i < n {
        assert roots[..n][i] in p;
      }
    }
  }

  /** One element is picked if and only if just one flag is set. */
  lemma {:induction false} PickOne<T>(xs: seq<T>, v: seq<bool>, idx: nat)
    requires |xs| == |v| && idx < |v| && v[idx]
    ensures |Pick(xs, v)| == 1 <==> OnlyAt(v, idx)
  {
    var n := |xs| - 1;
    assert v == v[..n] + [v[n]];
    PickNoneIff(xs[..n], v[..n]);
    if idx < n {
      PickOne(xs[..n], v[..n], idx);
      assert v[..n][idx];
    }
  }

  lemma {:induction false} PickNoneIff<T>(xs: seq<T>, v: seq<bool>)
    requires |xs| == |v|
    ensures |Pick(xs, v)| == 0 <==> Nowhere(v)
  {
    if xs != [] {
      var n := |xs| - 1;
      PickNoneIff(xs[..n], v[..n]);
      assert v == v[..n] + [v[n]];
    }
  }

  lemma FoundAmong(roots: seq<string>, re: seq<bool>, idx: nat)
    requires |re| == |roots| && idx < |roots| && re[idx] && forall i :: 0 <= i < idx ==> !re[i]
    ensures var found := Pick(roots, re);
      && found != [] && found[0] == roots[idx] && IsSelection(found, roots, re)
      && (OnlyAt(re, idx) <==> |found| == 1) && (|found| == 1 ==> found == [roots[idx]])
      && (Everywhere(re) ==> found == roots)
  {
    FirstFound(roots, re, idx);
    PickSelects(roots, re);
    PickOne(roots, re, idx);
    PickWhole(roots, re);
  }

  lemma ChoiceMeans(policy: Policy, roots: seq<string>, re: seq<bool>, idx: nat)
    requires |re| == |roots| && idx < |roots| && re[idx] && forall i :: 0 <= i < idx ==> !re[i]
    ensures IsOutcome(policy, roots, re, idx, Choice(policy, roots, re, idx))
  {
    hide Pick, IsSelection, Everywhere, OnlyAt;
    FoundAmong(roots, re, idx);
  }

  /** The outcome of resolving, over the backend alone. */
  lemma OutcomeOverFiles(policy: Policy, roots: seq<string>, files: Files, consistency: bool, idx: nat)
    requires IsFirstExisting(roots, files, idx)
    ensures IsOutcome(policy, roots, Counting(roots, files, consistency, idx), idx,
      Choice(policy, roots, RootExists(roots, files, consistency, idx), idx))
  {
    var re := RootExists(roots, files, consistency, idx);
    forall i: nat | i < |roots| ensures re[i] == Counting(roots, files, consistency, idx)[i] {
      RootCounts(roots, files, consistency, idx, i);
    }
    ChoiceMeans(policy, roots, re, idx);
    hide IsOutcome, Choice, RootExists, Agrees;
    assert Counting(roots, files, consistency, idx) == re;
  }

  /** The chosen paths are roots that exist, all folders or all files, and if `all`, no root is left out that exists as
      an object of this kind. */
  ghost predicate AreFound(paths: seq<string>, roots: seq<string>, files: Files, all: bool) {
    && paths != [] && paths[0] in files
    && (forall p :: p in paths ==> p in roots && p in files && files[p].isDir == files[paths[0]].isDir)
    && (all ==> forall p :: p in roots && p in files && files[p].isDir == files[paths[0]].isDir ==> p in paths)
  }

  /** So every chosen path exists; and where no consistency is asked for, all that exist as objects of the right kind
      are chosen, except by the policy that wants the first one. */
  lemma ChosenExist(policy: Policy, roots: seq<string>, files: Files, consistency: bool, idx: nat,
      r: Result<seq<string>, Error>)
    requires IsFirstExisting(roots, files, idx) && r.Ok?
    requires IsOutcome(policy, roots, Counting(roots, files, consistency, idx), idx, r)
    ensures AreFound(r.value, roots, files, !consistency && policy != First)
  {
    var counts := Counting(roots, files, consistency, idx);
    forall p | p in r.value ensures p in roots && p in files && files[p].isDir == files[r.value[0]].isDir {
      if policy != First {
        var i :| 0 <= i < |roots| && p == roots[i] && counts[i];
      }
    }
    forall p | p in roots && p in files && files[p].isDir == files[r.value[0]].isDir
      ensures !consistency && policy != First ==> p in r.value
    {
      var i :| 0 <= i < |roots| && p == roots[i];
      assert !consistency ==> counts[i];
    }
  }

  lemma OneFirst(roots: seq<string>, files: Files, i: nat, j: nat)
    requires IsFirstExisting(roots, files, i) && IsFirstExisting(roots, files, j)
    ensures i == j
  {
  }

  /** Resolving an alias path for a write: the candidate vector, then the policy, in place. */
  method Resolve(roots: seq<string>, files: Files, consistency: bool, policy: Policy)
    returns (r: Result<seq<string>, Error>)
    ensures (forall i :: 0 <= i < |roots| ==> roots[i] !in files) ==> r == Err(ObjectNotFound)
    ensures forall idx: nat :: IsFirstExisting(roots, files, idx) ==>
      r == Choice(policy, roots, RootExists(roots, files, consistency, idx), idx)
    ensures r == Resolved(policy, roots, files, consistency)
    ensures r.Ok? ==> AreFound(r.value, roots, files, !consistency && policy != First)
    ensures forall idx: nat :: IsFirstExisting(roots, files, idx) ==>
      IsOutcome(policy, roots, Counting(roots, files, consistency, idx), idx, r)
  {
    hide Selected, Pick, Exists, KeptAll, Choice, RootExists, Candidates, Resolved, Counting, IsOutcome,
      AreFound;
    var cands := Get(roots, files);
    if cands.Err? {
      NoneResolved(policy, roots, files, consistency);
      return Err(cands.error);
    }
    var objs := new Cand[|cands.value|](i requires 0 <= i < |cands.value| => cands.value[i]);
    assert objs[..] == cands.value;
    ghost var idx: nat :| IsFirstExisting(roots, files, idx) && cands.value == Candidates(roots, files, idx);
    CandidatesBegin(roots, files, idx);
    var kept := GetAllObjs(objs, policy, files, consistency);
    r := if kept.Ok? then Ok(Paths(objs[..kept.value])) else Err(kept.error);
    ChosenResolves(policy, roots, files, consistency, idx, r);
    ResolvedIs(policy, roots, files, consistency, idx);
    OutcomeOverFiles(policy, roots, files, consistency, idx);
    if r.Ok? {
      ChosenExist(policy, roots, files, consistency, idx, r);
    }
  }

  lemma NoneResolved(policy: Policy, roots: seq<string>, files: Files, consistency: bool)
    requires forall i :: 0 <= i < |roots| ==> roots[i] !in files
    ensures Resolved(policy, roots, files, consistency) == Err(ObjectNotFound)
    ensures forall idx: nat :: !IsFirstExisting(roots, files, idx)
  {
  }

  lemma CandidatesBegin(roots: seq<string>, files: Files, idx: nat)
    requires IsFirstExisting(roots, files, idx)
    ensures Candidates(roots, files, idx) != [] && Candidates(roots, files, idx)[0].Plain?
    ensures idx < |roots| && roots[idx] in files
  {
  }

  lemma ResolvedIs(policy: Policy, roots: seq<string>, files: Files, consistency: bool, idx: nat)
    requires IsFirstExisting(roots, files, idx)
    ensures idx < |RootExists(roots, files, consistency, idx)| == |roots|
    ensures Resolved(policy, roots, files, consistency)
      == Choice(policy, roots, RootExists(roots, files, consistency, idx), idx)
    ensures forall i: nat :: IsFirstExisting(roots, files, i) ==> i == idx
  {
    forall i: nat | IsFirstExisting(roots, files, i) ensures i == idx {
      OneFirst(roots, files, i, idx);
    }
  }

  lemma {:induction false} PickWhole<T>(xs: seq<T>, v: seq<bool>)
    requires |xs| == |v|
    ensures (forall i :: 0 <= i < |v| ==> v[i]) ==> Pick(xs, v) == xs
  {
    if xs != [] {
      PickWhole(xs[..|xs| - 1], v[..|xs| - 1]);
    }
  }
}
