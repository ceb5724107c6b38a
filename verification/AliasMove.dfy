/** drivers/alias/driver.go `Move` and `Copy` from the roots of the alias on: both sides are resolved by the conflict
    policies, paired by mount, and then moved or copied. */
module AliasMove {
  import opened Collections
  import opened Options
  import opened Results
  import opened AliasPolicy
  import opened AliasRoots
  import AliasAllocate

  type Obj = AliasAllocate.Obj
  type Mounts = AliasAllocate.Mounts
  type Op = AliasAllocate.Op

  /** Resolving gives objects that are told apart even if two roots have the same path. */
  function ObjsOf(paths: seq<string>): seq<Obj> {
    seq(|paths|, i requires 0 <= i < |paths| => AliasAllocate.Obj(i, paths[i]))
  }

  function PathsOf(objs: seq<Obj>): seq<string> {
    seq(|objs|, i requires 0 <= i < |objs| => objs[i].path)
  }

  /** The paths that some storage is mounted for. */
  function Mounted(paths: seq<string>, mounts: Mounts): seq<string> {
    if paths == [] then []
    else
      Mounted(paths[..|paths| - 1], mounts) + if paths[|paths| - 1] in mounts then [paths[|paths| - 1]] else []
  }

  lemma {:induction false} MountedObjs(paths: seq<string>, mounts: Mounts)
    ensures PathsOf(AliasAllocate.Resolvable(ObjsOf(paths), mounts)) == Mounted(paths, mounts)
  {
    if paths != [] {
      var n := |paths| - 1;
      MountedObjs(paths[..n], mounts);
      assert ObjsOf(paths)[..n] == ObjsOf(paths[..n]);
    }
  }

  function Without(objs: seq<Obj>, j: nat): seq<Obj>
    requires j < |objs|
  {
    objs[..j] + objs[j + 1..]
  }

  lemma OneLess(objs: seq<Obj>, j: nat)
    requires j < |objs|
    ensures multiset(objs) == multiset(Without(objs, j)) + multiset{objs[j]}
    ensures multiset(PathsOf(objs)) == multiset(PathsOf(Without(objs, j))) + multiset{objs[j].path}
  {
    var a, b := objs[..j], objs[j + 1..];
    assert objs == a + [objs[j]] + b;
    assert PathsOf(objs) == PathsOf(a) + [objs[j].path] + PathsOf(b);
    assert PathsOf(Without(objs, j)) == PathsOf(a) + PathsOf(b);
  }

  /** Rearranging objects rearranges their paths. */
  lemma {:induction false} SamePaths(a: seq<Obj>, b: seq<Obj>)
    requires multiset(a) == multiset(b)
    ensures multiset(PathsOf(a)) == multiset(PathsOf(b)) && |a| == |b|
    decreases |a|
  {
    assert |a| == |multiset(a)| == |multiset(b)| == |b|;
    if a != [] {
      assert a[0] in multiset(b);
      var j :| 0 <= j < |b| && b[j] == a[0];
      OneLess(a, 0);
      OneLess(b, j);
      hide PathsOf, Without;
      assert multiset(Without(a, 0)) == multiset(a) - multiset{a[0]};
      assert multiset(Without(b, j)) == multiset(b) - multiset{a[0]};
      SamePaths(Without(a, 0), Without(b, j));
    }
  }

  lemma {:induction false} CountsOnce<T>(s: seq<T>)
    requires NoRepeats(s)
    ensures forall x :: multiset(s)[x] == if x in s then 1 else 0
  {
    if s != [] {
      var n := |s| - 1;
      CountsOnce(s[..n]);
      assert s == s[..n] + [s[n]];
      assert s[n] !in s[..n];
    }
  }

  lemma SameElements<T>(a: seq<T>, b: seq<T>)
    requires NoRepeats(a) && NoRepeats(b) && AliasAllocate.ToSet(a) == AliasAllocate.ToSet(b)
    ensures multiset(a) == multiset(b)
  {
    CountsOnce(a);
    CountsOnce(b);
    assert forall x :: x in a <==> x in AliasAllocate.ToSet(a);
    assert forall x :: x in b <==> x in AliasAllocate.ToSet(b);
  }

  // ---------- Move ----------

  datatype MoveOutcome =
    | PermissionDenied
    | NotResolved(error: Error)
    | Refused
    | Panicked
    | Done(log: seq<Op>)

  /** The destinations that get a source from their own storage when destination `i` gets source `f[i]`. */
  ghost function StaysAt(srcs: seq<Obj>, dsts: seq<Obj>, mounts: Mounts, f: seq<nat>): set<nat>
    requires |f| == |dsts| && forall i :: 0 <= i < |f| ==> f[i] < |srcs|
  {
    set i: nat | i < |dsts| && srcs[f[i]].path in mounts && dsts[i].path in mounts
      && mounts[srcs[f[i]].path] == mounts[dsts[i].path]
  }

  /** No other choice of sources for the destinations keeps more of the moves on one mount. */
  ghost predicate MostStay(log: seq<Op>, mounts: Mounts) {
    var srcs, dsts := AliasAllocate.Sources(log), AliasAllocate.Targets(log);
    && |dsts| <= |srcs|
    && forall f: seq<nat> ::
        |f| == |dsts| && (forall i :: 0 <= i < |f| ==> f[i] < |srcs|) && NoRepeats(f) ==>
        |StaysAt(srcs, dsts, mounts, f)| <= |StaysAt(srcs, dsts, mounts, AliasAllocate.Identity(|dsts|))|
  }

  lemma {:induction false} MountedAre(paths: seq<string>, mounts: Mounts)
    ensures forall p :: p in Mounted(paths, mounts) <==> p in paths && p in mounts
  {
    if paths != [] {
      var n := |paths| - 1;
      assert paths == paths[..n] + [paths[n]];
      MountedAre(paths[..n], mounts);
    }
  }

  /** The paths are roots that exist and have a storage, and if `all`, no such root is left out that has an object of
      the same kind. */
  ghost predicate FromRoots(paths: seq<string>, roots: seq<string>, files: AliasPolicy.Files, mounts: Mounts, all: bool)
  {
    && (forall p :: p in paths ==> p in roots && p in files && p in mounts)
    && (all ==> forall p, q :: p in paths && q in roots && q in files && q in mounts ==>
        files[q].isDir == files[p].isDir ==> q in paths)
  }

  lemma SameMembers<T>(a: seq<T>, b: seq<T>)
    requires multiset(a) == multiset(b)
    ensures forall x :: x in a <==> x in b
  {
    assert forall x :: x in a <==> x in multiset(a);
    assert forall x :: x in b <==> x in multiset(b);
  }

  lemma FoundHaveRoots(paths: seq<string>, s: seq<string>, roots: seq<string>, files: AliasPolicy.Files,
      mounts: Mounts, all: bool)
    requires multiset(paths) == multiset(Mounted(s, mounts)) && AreFound(s, roots, files, all)
    ensures FromRoots(paths, roots, files, mounts, all)
  {
    MountedAre(s, mounts);
    SameMembers(paths, Mounted(s, mounts));
  }

  /** Paths that all have a storage are all mounted. */
  lemma {:induction false} AllMounted(paths: seq<string>, mounts: Mounts)
    requires forall p :: p in paths ==> p in mounts
    ensures Mounted(paths, mounts) == paths
  {
    if paths != [] {
      var n := |paths| - 1;
      assert paths == paths[..n] + [paths[n]];
      AllMounted(paths[..n], mounts);
    }
  }

  /** Every source with a storage is moved or removed once, every destination is moved to once, and as many moves as
      possible stay on one mount. */
  ghost predicate Carries(log: seq<Op>, s: seq<string>, d: seq<string>, mounts: Mounts) {
    && multiset(PathsOf(AliasAllocate.Sources(log))) == multiset(Mounted(s, mounts))
    && multiset(PathsOf(AliasAllocate.Targets(log))) == multiset(d)
    && MostStay(log, mounts)
  }

  /** What was resolved comes from the roots, so what was moved does. */
  lemma MovedFromRoots(log: seq<Op>, s: seq<string>, d: seq<string>, srcRoots: seq<string>, dstRoots: seq<string>,
      files: AliasPolicy.Files, mounts: Mounts, allSrc: bool, allDst: bool)
    requires Carries(log, s, d, mounts) && AreFound(s, srcRoots, files, allSrc) && AreFound(d, dstRoots, files, allDst)
    requires !exists p :: p in d && p !in mounts
    ensures FromRoots(PathsOf(AliasAllocate.Sources(log)), srcRoots, files, mounts, allSrc)
    ensures FromRoots(PathsOf(AliasAllocate.Targets(log)), dstRoots, files, mounts, allDst)
  {
    hide AreFound, FromRoots, MostStay, PathsOf;
    AllMounted(d, mounts);
    FoundHaveRoots(PathsOf(AliasAllocate.Sources(log)), s, srcRoots, files, mounts, allSrc);
    FoundHaveRoots(PathsOf(AliasAllocate.Targets(log)), d, dstRoots, files, mounts, allDst);
  }

  /** `policy` is the one for uploads, or none if those are disabled. Every root that has the source and a storage is
      moved or removed once, and every destination root that the policy chose is moved to once; it panics exactly if
      there are fewer of the former. */
  method Move(srcRoots: seq<string>, dstRoots: seq<string>, files: AliasPolicy.Files, consistency: bool,
      policy: Option<Policy>, mounts: Mounts)
    returns (r: MoveOutcome)
    ensures r.PermissionDenied? <==> policy.None?
    ensures policy.Some? ==>
      var d := Resolved(policy.value, dstRoots, files, consistency);
      var s := Resolved(All, srcRoots, files, consistency);
      if d.Err? then r == NotResolved(d.error)
      else if s.Err? then r == NotResolved(s.error)
      else
        && (r.Refused? <==> |s.value| < |d.value| || exists p :: p in d.value && p !in mounts)
        && (!r.Refused? ==> (r.Panicked? <==> |Mounted(s.value, mounts)| < |d.value|) && !r.NotResolved?)
        && (r.Done? ==> Carries(r.log, s.value, d.value, mounts))
    ensures r.Done? ==>
      && FromRoots(PathsOf(AliasAllocate.Sources(r.log)), srcRoots, files, mounts, !consistency)
      && FromRoots(PathsOf(AliasAllocate.Targets(r.log)), dstRoots, files, mounts,
          !consistency && policy != Some(First))
  {
    hide Resolved, IsOutcome, IsFirstExisting, Choice, AreFound, FromRoots, Carries, PathsOf, Mounted;
    if policy.None? {
      return PermissionDenied;
    }
    var d := Resolve(dstRoots, files, consistency, policy.value);
    if d.Err? {
      return NotResolved(d.error);
    }
    var s := Resolve(srcRoots, files, consistency, All);
    if s.Err? {
      return NotResolved(s.error);
    }
    r := MoveObjs(s.value, d.value, mounts);
    if r.Done? {
      MovedFromRoots(r.log, s.value, d.value, srcRoots, dstRoots, files, mounts, !consistency,
        !consistency && policy.value != First);
    }
  }

  /** Pairing what was resolved, and moving it. */
  method MoveObjs(s: seq<string>, d: seq<string>, mounts: Mounts) returns (r: MoveOutcome)
    ensures r.Refused? || r.Panicked? || r.Done?
    ensures r.Refused? <==> |s| < |d| || exists p :: p in d && p !in mounts
    ensures !r.Refused? ==> (r.Panicked? <==> |Mounted(s, mounts)| < |d|)
    ensures r.Done? ==> Carries(r.log, s, d, mounts)
  {
    hide Carries;
    var objs := ObjsOf(d);
    var dst := new Obj[|objs|](i requires 0 <= i < |objs| => objs[i]);
    assert dst[..] == objs;
    var m := AliasAllocate.Move(dst, ObjsOf(s), mounts);
    MoveOverRoots(s, d, mounts, m);
    match m
    case Failed => return Refused;
    case Panicked(_) => return Panicked;
    case Done(log) => return Done(log);
  }

  lemma MoveOverRoots(s: seq<string>, d: seq<string>, mounts: Mounts, m: AliasAllocate.MoveResult)
    requires var srcs, dsts := ObjsOf(s), ObjsOf(d);
      && (m.Failed? <==> |srcs| < |dsts| || exists o :: o in dsts && AliasAllocate.Mount(o, mounts).None?)
      && (!m.Failed? ==> (m.Panicked? <==> |AliasAllocate.Resolvable(srcs, mounts)| < |dsts|))
      && (m.Done? ==>
        && multiset(AliasAllocate.Sources(m.log)) == multiset(AliasAllocate.Resolvable(srcs, mounts))
        && NoRepeats(AliasAllocate.Targets(m.log))
        && AliasAllocate.ToSet(AliasAllocate.Targets(m.log)) == AliasAllocate.ToSet(dsts)
        && exists k ::
            AliasAllocate.MatchedFirst(AliasAllocate.Sources(m.log), AliasAllocate.Targets(m.log), mounts, k))
    ensures m.Failed? <==> |s| < |d| || exists p :: p in d && p !in mounts
    ensures !m.Failed? ==> (m.Panicked? <==> |Mounted(s, mounts)| < |d|)
    ensures m.Done? ==> Carries(m.log, s, d, mounts)
  {
    var srcs, dsts := ObjsOf(s), ObjsOf(d);
    MountedObjs(s, mounts);
    DestinationsHaveMounts(d, mounts);
    assert |AliasAllocate.Resolvable(srcs, mounts)| == |Mounted(s, mounts)|;
    hide ObjsOf, PathsOf, Mounted, MostStay;
    if m.Done? {
      var froms, tos := AliasAllocate.Sources(m.log), AliasAllocate.Targets(m.log);
      SamePaths(froms, AliasAllocate.Resolvable(srcs, mounts));
      SameElements(tos, dsts);
      SamePaths(tos, dsts);
      var k :| AliasAllocate.MatchedFirst(froms, tos, mounts, k);
      assert forall o :: o in tos ==> AliasAllocate.Mount(o, mounts).Some? by {
        forall o | o in tos ensures AliasAllocate.Mount(o, mounts).Some? {
          assert o in AliasAllocate.ToSet(tos);
        }
      }
      GreedyStays(m.log, mounts, k);
    }
  }

  lemma DestinationsHaveMounts(d: seq<string>, mounts: Mounts)
    ensures (exists o :: o in ObjsOf(d) && AliasAllocate.Mount(o, mounts).None?) <==> exists p :: p in d && p !in mounts
    ensures NoRepeats(ObjsOf(d)) && PathsOf(ObjsOf(d)) == d && |ObjsOf(d)| == |d|
  {
    if p :| p in d && p !in mounts {
      var i :| 0 <= i < |d| && d[i] == p;
      assert ObjsOf(d)[i] in ObjsOf(d);
    }
  }

  lemma StaysAreSame(srcs: seq<Obj>, dsts: seq<Obj>, mounts: Mounts, f: seq<nat>)
    requires |f| == |dsts| && forall i :: 0 <= i < |f| ==> f[i] < |srcs|
    requires forall o :: o in dsts ==> AliasAllocate.Mount(o, mounts).Some?
    ensures StaysAt(srcs, dsts, mounts, f) == AliasAllocate.SameMount(srcs, dsts, mounts, f)
  {
    assert forall i :: 0 <= i < |dsts| ==> dsts[i] in dsts;
  }

  lemma GreedyStays(log: seq<Op>, mounts: Mounts, k: nat)
    requires AliasAllocate.MatchedFirst(AliasAllocate.Sources(log), AliasAllocate.Targets(log), mounts, k)
    requires |AliasAllocate.Targets(log)| <= |AliasAllocate.Sources(log)|
    requires forall o :: o in AliasAllocate.Targets(log) ==> AliasAllocate.Mount(o, mounts).Some?
    ensures MostStay(log, mounts)
  {
    var srcs, dsts := AliasAllocate.Sources(log), AliasAllocate.Targets(log);
    forall f: seq<nat> | |f| == |dsts| && (forall i :: 0 <= i < |f| ==> f[i] < |srcs|) && NoRepeats(f)
      ensures |StaysAt(srcs, dsts, mounts, f)| <= |StaysAt(srcs, dsts, mounts, AliasAllocate.Identity(|dsts|))|
    {
      AliasAllocate.GreedyIsOptimal(srcs, dsts, mounts, k, f);
      StaysAreSame(srcs, dsts, mounts, f);
      StaysAreSame(srcs, dsts, mounts, AliasAllocate.Identity(|dsts|));
    }
  }

  // ---------- Copy ----------

  datatype CopyOutcome = CopyDenied | CopyNotResolved(error: Error) | CopyRefused | Copied(pairs: seq<(string, string)>)

  function Tos(pairs: seq<(string, string)>): seq<string> {
    seq(|pairs|, i requires 0 <= i < |pairs| => pairs[i].1)
  }

  /** Every copy starts from one of the sources, and from one on the destination's own mount if there is one. */
  ghost predicate FedFromNearby(pairs: seq<(string, string)>, sources: seq<string>, mounts: Mounts) {
    forall i :: 0 <= i < |pairs| ==>
      && pairs[i].0 in sources
      && ((exists p :: p in sources && p in mounts && pairs[i].1 in mounts && mounts[p] == mounts[pairs[i].1]) ==>
        pairs[i].0 in mounts && pairs[i].1 in mounts && mounts[pairs[i].0] == mounts[pairs[i].1])
  }

  /** Every destination root that the policy chose is copied to once, from a root that has the source. */
  method Copy(srcRoots: seq<string>, dstRoots: seq<string>, files: AliasPolicy.Files, consistency: bool,
      policy: Option<Policy>, mounts: Mounts, random: bool)
    returns (r: CopyOutcome)
    ensures r.CopyDenied? <==> policy.None?
    ensures policy.Some? ==>
      var d := Resolved(policy.value, dstRoots, files, consistency);
      var s := Resolved(All, srcRoots, files, consistency);
      if d.Err? then r == CopyNotResolved(d.error)
      else if exists p :: p in d.value && p !in mounts then r == CopyRefused
      else if s.Err? then r == CopyNotResolved(s.error)
      else
        && r.Copied? && multiset(Tos(r.pairs)) == multiset(d.value) && FedFromNearby(r.pairs, s.value, mounts)
    ensures r.Copied? ==>
      && FromRoots(Tos(r.pairs), dstRoots, files, mounts, !consistency && policy != Some(First))
      && forall i :: 0 <= i < |r.pairs| ==> r.pairs[i].0 in srcRoots && r.pairs[i].0 in files
  {
    hide Resolved, IsOutcome, IsFirstExisting, Choice, FromRoots, FedFromNearby, Tos;
    if policy.None? {
      return CopyDenied;
    }
    var d := Resolve(dstRoots, files, consistency, policy.value);
    if d.Err? {
      return CopyNotResolved(d.error);
    }
    if p :| p in d.value && p !in mounts {
      return CopyRefused;
    }
    var s := Resolve(srcRoots, files, consistency, All);
    if s.Err? {
      return CopyNotResolved(s.error);
    }
    var pairs := CopyObjs(s.value, d.value, mounts, random);
    CopiedFromRoots(pairs, s.value, d.value, srcRoots, dstRoots, files, mounts, !consistency,
      !consistency && policy.value != First);
    return Copied(pairs);
  }

  /** Giving every destination a source. */
  method CopyObjs(s: seq<string>, d: seq<string>, mounts: Mounts, random: bool) returns (pairs: seq<(string, string)>)
    requires s != [] && forall p :: p in d ==> p in mounts
    ensures multiset(Tos(pairs)) == multiset(d) && FedFromNearby(pairs, s, mounts)
  {
    hide FedFromNearby, Tos;
    var objs, sources := ObjsOf(d), ObjsOf(s);
    var dst := new Obj[|objs|](i requires 0 <= i < |objs| => objs[i]);
    assert dst[..] == objs;
    DestinationsHaveMounts(d, mounts);
    var srcs := AliasAllocate.GetCopyObjs(dst, sources, mounts, random);
    CopyOverRoots(s, d, mounts, srcs.value, dst[..]);
    return Pairs(srcs.value, dst[..]);
  }

  lemma CopiedFromRoots(pairs: seq<(string, string)>, s: seq<string>, d: seq<string>, srcRoots: seq<string>,
      dstRoots: seq<string>, files: AliasPolicy.Files, mounts: Mounts, allSrc: bool, allDst: bool)
    requires multiset(Tos(pairs)) == multiset(d) && FedFromNearby(pairs, s, mounts)
    requires AreFound(s, srcRoots, files, allSrc) && AreFound(d, dstRoots, files, allDst)
    requires forall p :: p in d ==> p in mounts
    ensures FromRoots(Tos(pairs), dstRoots, files, mounts, allDst)
    ensures forall i :: 0 <= i < |pairs| ==> pairs[i].0 in srcRoots && pairs[i].0 in files
  {
    AllMounted(d, mounts);
    FoundHaveRoots(Tos(pairs), d, dstRoots, files, mounts, allDst);
  }

  function Pairs(srcs: seq<Obj>, dsts: seq<Obj>): seq<(string, string)>
    requires |srcs| == |dsts|
  {
    seq(|srcs|, i requires 0 <= i < |srcs| => (srcs[i].path, dsts[i].path))
  }

  lemma CopyOverRoots(s: seq<string>, d: seq<string>, mounts: Mounts, srcs: seq<Obj>, dsts: seq<Obj>)
    requires NoRepeats(dsts) && AliasAllocate.ToSet(dsts) == AliasAllocate.ToSet(ObjsOf(d))
    requires |srcs| == |dsts| && AliasAllocate.AllFed(srcs, dsts, ObjsOf(s), mounts)
    ensures multiset(Tos(Pairs(srcs, dsts))) == multiset(d)
    ensures FedFromNearby(Pairs(srcs, dsts), s, mounts)
  {
    DestinationsHaveMounts(d, mounts);
    SameElements(dsts, ObjsOf(d));
    SamePaths(dsts, ObjsOf(d));
    assert Tos(Pairs(srcs, dsts)) == PathsOf(dsts);
    forall i | 0 <= i < |srcs| ensures FedFromNearby([Pairs(srcs, dsts)[i]], s, mounts) {
      WellFedOverRoots(srcs[i], dsts[i], s, mounts);
    }
    assert forall i :: 0 <= i < |srcs| ==> [Pairs(srcs, dsts)[i]][0] == Pairs(srcs, dsts)[i];
  }

  lemma WellFedOverRoots(src: Obj, dst: Obj, s: seq<string>, mounts: Mounts)
    requires AliasAllocate.WellFed(src, dst, ObjsOf(s), mounts)
    ensures FedFromNearby([(src.path, dst.path)], s, mounts)
  {
    var i :| 0 <= i < |s| && ObjsOf(s)[i] == src;
    assert s[i] == src.path;
    if p :| p in s && p in mounts && dst.path in mounts && mounts[p] == mounts[dst.path] {
      var j :| 0 <= j < |s| && s[j] == p;
      assert ObjsOf(s)[j] in ObjsOf(s) && AliasAllocate.Mount(ObjsOf(s)[j], mounts) == AliasAllocate.Mount(dst, mounts);
    }
  }
}
