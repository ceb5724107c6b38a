/** drivers/alias/util.go `getMoveObjs` and `getCopyObjs`, and `Move` in drivers/alias/driver.go: pairing
    source objects with destination folders so that as many pairs as possible stay on one backend. */
module AliasAllocate {
  import opened Collections
  import opened Options
  import opened Results

  /** An object in memory: `id` is its identity, `path` says where it lives. */
  datatype Obj = Obj(id: nat, path: string)

  /** Which storage is mounted for a path; paths that are not in the map have none. */
  type Mounts = map<string, string>

  function Mount(o: Obj, mounts: Mounts): Option<string> {
    if o.path in mounts then Some(mounts[o.path]) else None
  }

  function ToSet<T>(s: seq<T>): set<T> {
    set x | x in s
  }

  /** The sources whose storage resolves. */
  function Resolvable(s: seq<Obj>, mounts: Mounts): seq<Obj> {
    if s == [] then [] else
      Resolvable(s[..|s| - 1], mounts) + if Mount(s[|s| - 1], mounts).Some? then [s[|s| - 1]] else []
  }

  // ---------- The destinations by mount ----------

  /** The destinations that are still unassigned, by mount and in order (dstStorageMap). */
  type ByMount = map<string, seq<Obj>>

  /** `m` files exactly the objects `open` under their mounts, each once, and has no empty entry. */
  ghost predicate Files(m: ByMount, open: set<Obj>, mounts: Mounts) {
    && (forall mp :: mp in m ==> m[mp] != [] && NoRepeats(m[mp]))
    && (forall mp, o :: mp in m && o in m[mp] ==> o in open && Mount(o, mounts) == Some(mp))
    && (forall o :: o in open ==>
      Mount(o, mounts).Some? && Mount(o, mounts).value in m && o in m[Mount(o, mounts).value])
  }

  method FileByMount(dst: seq<Obj>, mounts: Mounts) returns (r: Option<ByMount>)
    requires NoRepeats(dst)
    ensures r.Some? <==> forall o :: o in dst ==> Mount(o, mounts).Some?
    ensures r.Some? ==> Files(r.value, ToSet(dst), mounts)
  {
    var m: ByMount := map[];
    for i := 0 to |dst|
      invariant forall j :: 0 <= j < i ==> Mount(dst[j], mounts).Some?
      invariant Files(m, ToSet(dst[..i]), mounts)
    {
      var o := dst[i];
      if o.path !in mounts {
        assert o in dst && Mount(o, mounts).None?;
        return None;
      }
      var mp := mounts[o.path];
      FileOne(m, ToSet(dst[..i]), mounts, o);
      m := m[mp := (if mp in m then m[mp] else []) + [o]];
      assert ToSet(dst[..i + 1]) == ToSet(dst[..i]) + {o};
    }
    assert dst[..|dst|] == dst;
    return Some(m);
  }

  lemma FileOne(m: ByMount, open: set<Obj>, mounts: Mounts, o: Obj)
    requires Files(m, open, mounts) && o !in open && Mount(o, mounts).Some?
    ensures var mp := Mount(o, mounts).value;
      Files(m[mp := (if mp in m then m[mp] else []) + [o]], open + {o}, mounts)
  {
  }

  // ---------- Overwriting the destination slice ----------

  /** The first `k` entries of the slice are assigned destinations, `open` are the others; together they are
      the destinations `all`, each once. The entries from `k` on may be stale. */
  ghost predicate Placing(all: seq<Obj>, now: seq<Obj>, open: set<Obj>, k: nat) {
    && k + |open| == |all| == |now|
    && NoRepeats(now[..k]) && ToSet(now[..k]) !! open && ToSet(now[..k]) + open == ToSet(all)
  }

  lemma {:induction false} SizeOfSet<T>(s: seq<T>)
    requires NoRepeats(s)
    ensures |ToSet(s)| == |s|
  {
    if s != [] {
      var m, x := s[..|s| - 1], s[|s| - 1];
      SizeOfSet(m);
      assert ToSet(s) == ToSet(m) + {x};
    }
  }

  lemma PlaceOne(all: seq<Obj>, now: seq<Obj>, open: set<Obj>, k: nat, o: Obj)
    requires Placing(all, now, open, k) && o in open
    ensures k < |now| && Placing(all, now[k := o], open - {o}, k + 1)
  {
    assert now[k := o][..k + 1] == now[..k] + [o];
    assert ToSet(now[..k] + [o]) == ToSet(now[..k]) + {o};
  }

  lemma AllPlaced(all: seq<Obj>, now: seq<Obj>, k: nat)
    requires Placing(all, now, {}, k)
    ensures k == |now| && NoRepeats(now) && ToSet(now) == ToSet(all)
  {
    assert now[..k] == now;
  }

  /** The loop over the map of unassigned destinations, which Go visits in no particular order. */
  method PlaceRest(dst: array<Obj>, open: set<Obj>, k: nat, ghost all: seq<Obj>)
    requires k <= dst.Length && Placing(all, dst[..], open, k)
    modifies dst
    ensures dst[..k] == old(dst[..k]) && NoRepeats(dst[..]) && ToSet(dst[..]) == ToSet(all)
    ensures forall j :: k <= j < dst.Length ==> dst[j] in open
  {
    hide Placing;
    var rest, j := open, k;
    while rest != {}
      invariant k <= j <= dst.Length && rest <= open && Placing(all, dst[..], rest, j)
      invariant dst[..k] == old(dst[..k])
      invariant forall i :: k <= i < j ==> dst[i] in open
      decreases rest
    {
      var o :| o in rest;
      ghost var now := dst[..];
      PlaceOne(all, now, rest, j, o);
      dst[j] := o;
      assert dst[..] == now[j := o];
      rest, j := rest - {o}, j + 1;
    }
    AllPlaced(all, dst[..], j);
  }

  // ---------- getMoveObjs ----------

  /** The first `k` pairs share a mount; no source and no destination behind them share one. */
  ghost predicate MatchedFirst(srcs: seq<Obj>, dsts: seq<Obj>, mounts: Mounts, k: nat) {
    && k <= |srcs| && k <= |dsts|
    && (forall i :: 0 <= i < k ==> Mount(srcs[i], mounts) == Mount(dsts[i], mounts))
    && (forall i, j :: k <= i < |srcs| && k <= j < |dsts| ==> Mount(srcs[i], mounts) != Mount(dsts[j], mounts))
  }

  ghost predicate Paired(srcs: seq<Obj>, dsts: seq<Obj>, mounts: Mounts) {
    |srcs| <= |dsts| && forall i :: 0 <= i < |srcs| ==> Mount(srcs[i], mounts) == Mount(dsts[i], mounts)
  }

  ghost predicate Stranded(rest: seq<Obj>, m: ByMount, mounts: Mounts) {
    forall s :: s in rest ==> Mount(s, mounts).Some? && Mount(s, mounts).value !in m
  }

  ghost predicate NoCommonMount(rest: seq<Obj>, open: set<Obj>, mounts: Mounts) {
    forall s, o :: s in rest && o in open ==> Mount(s, mounts) != Mount(o, mounts)
  }

  ghost predicate Accounted(srcs: seq<Obj>, rest: seq<Obj>, seen: seq<Obj>, mounts: Mounts) {
    multiset(srcs) + multiset(rest) == multiset(Resolvable(seen, mounts))
  }

  /** The loop state of getMoveObjs after the sources `seen`. */
  ghost predicate Matching(all: seq<Obj>, now: seq<Obj>, open: set<Obj>, m: ByMount, mounts: Mounts, seen: seq<Obj>,
      srcs: seq<Obj>, rest: seq<Obj>) {
    && Placing(all, now, open, |srcs|) && Files(m, open, mounts)
    && Paired(srcs, now, mounts) && Stranded(rest, m, mounts) && Accounted(srcs, rest, seen, mounts)
  }

  lemma AccountOne(srcs: seq<Obj>, rest: seq<Obj>, seen: seq<Obj>, mounts: Mounts, src: Obj)
    requires Accounted(srcs, rest, seen, mounts)
    ensures Mount(src, mounts).Some? ==>
      Accounted(srcs + [src], rest, seen + [src], mounts) && Accounted(srcs, rest + [src], seen + [src], mounts)
    ensures Mount(src, mounts).None? ==> Accounted(srcs, rest, seen + [src], mounts)
  {
    var r := Resolvable(seen, mounts);
    assert Resolvable(seen + [src], mounts) == r + if Mount(src, mounts).Some? then [src] else [] by {
      assert (seen + [src])[..|seen|] == seen;
    }
    hide Resolvable;
    assert multiset(r + [src]) == multiset(r) + multiset([src]);
    assert r + [] == r;
  }

  /** Taking the first unassigned destination of a mount. */
  lemma TakeOne(m: ByMount, open: set<Obj>, mounts: Mounts, mp: string)
    requires Files(m, open, mounts) && mp in m
    ensures m[mp][0] in open && Mount(m[mp][0], mounts) == Some(mp)
    ensures Files(if |m[mp]| == 1 then m - {mp} else m[mp := m[mp][1..]], open - {m[mp][0]}, mounts)
  {
    assert m[mp][0] in m[mp];
    assert m[mp] == [m[mp][0]] + m[mp][1..];
  }

  /** A source finds an unassigned destination on its mount. */
  lemma PairOne(all: seq<Obj>, now: seq<Obj>, open: set<Obj>, m: ByMount, mounts: Mounts, seen: seq<Obj>,
      srcs: seq<Obj>, rest: seq<Obj>, src: Obj, mp: string)
    requires Matching(all, now, open, m, mounts, seen, srcs, rest)
    requires Mount(src, mounts) == Some(mp) && mp in m
    ensures m[mp] != [] && |srcs| < |now|
    ensures var m' := if |m[mp]| == 1 then m - {mp} else m[mp := m[mp][1..]];
      Matching(all, now[|srcs| := m[mp][0]], open - {m[mp][0]}, m', mounts, seen + [src], srcs + [src], rest)
  {
    assert m[mp] != [] by {
      assert Files(m, open, mounts);
    }
    hide Placing, Files, Accounted, Paired, Stranded;
    var dst := m[mp][0];
    TakeOne(m, open, mounts, mp);
    PlaceOne(all, now, open, |srcs|, dst);
    AccountOne(srcs, rest, seen, mounts, src);
    PairedMore(srcs, now, mounts, src, dst);
    StrandedStill(rest, m, if |m[mp]| == 1 then m - {mp} else m[mp := m[mp][1..]], mounts);
  }

  lemma PairedMore(srcs: seq<Obj>, now: seq<Obj>, mounts: Mounts, src: Obj, dst: Obj)
    requires Paired(srcs, now, mounts) && |srcs| < |now| && Mount(src, mounts) == Mount(dst, mounts)
    ensures Paired(srcs + [src], now[|srcs| := dst], mounts)
  {
  }

  lemma StrandedStill(rest: seq<Obj>, m: ByMount, m': ByMount, mounts: Mounts)
    requires Stranded(rest, m, mounts) && m'.Keys <= m.Keys
    ensures Stranded(rest, m', mounts)
  {
  }

  /** A source finds none: it is kept apart, or dropped when its storage does not resolve. */
  lemma StrandOne(all: seq<Obj>, now: seq<Obj>, open: set<Obj>, m: ByMount, mounts: Mounts, seen: seq<Obj>,
      srcs: seq<Obj>, rest: seq<Obj>, src: Obj)
    requires Matching(all, now, open, m, mounts, seen, srcs, rest)
    requires Mount(src, mounts).Some? ==> Mount(src, mounts).value !in m
    ensures Matching(all, now, open, m, mounts, seen + [src], srcs,
      if Mount(src, mounts).Some? then rest + [src] else rest)
  {
    AccountOne(srcs, rest, seen, mounts, src);
    hide Placing, Files, Accounted;
  }

  /** The pairing loop: each source takes the first unassigned destination on its mount, if there is one. */
  method PairSources(dst: array<Obj>, tmpSrc: seq<Obj>, mounts: Mounts, filed: ByMount, all: set<Obj>)
    returns (srcs: seq<Obj>, rest: seq<Obj>, open: set<Obj>)
    requires Placing(dst[..], dst[..], all, 0) && Files(filed, all, mounts)
    modifies dst
    ensures |srcs| <= dst.Length && Placing(old(dst[..]), dst[..], open, |srcs|) && Paired(srcs, dst[..], mounts)
    ensures NoCommonMount(rest, open, mounts)
    ensures multiset(srcs + rest) == multiset(Resolvable(tmpSrc, mounts))
  {
    ghost var given := dst[..];
    var m := filed;
    srcs, rest, open := [], [], all;
    MatchBegins(given, all, m, mounts);
    assert tmpSrc[..0] == [];
    hide Matching, Files, Placing, Resolvable, Paired, NoCommonMount;
    for i := 0 to |tmpSrc|
      invariant Matching(given, dst[..], open, m, mounts, tmpSrc[..i], srcs, rest)
    {
      var src := tmpSrc[i];
      ghost var now := dst[..];
      assert tmpSrc[..i + 1] == tmpSrc[..i] + [src];
      if src.path in mounts && mounts[src.path] in m {
        var mp := mounts[src.path];
        PairOne(given, now, open, m, mounts, tmpSrc[..i], srcs, rest, src, mp);
        var tmp := m[mp];
        dst[|srcs|] := tmp[0];
        assert dst[..] == now[|srcs| := tmp[0]];
        m := if |tmp| == 1 then m - {mp} else m[mp := tmp[1..]];
        srcs := srcs + [src];
        open := open - {tmp[0]};
      } else {
        StrandOne(given, now, open, m, mounts, tmpSrc[..i], srcs, rest, src);
        if src.path in mounts {
          rest := rest + [src];
        }
      }
    }
    assert tmpSrc[..|tmpSrc|] == tmpSrc;
    MatchEnds(given, dst[..], open, m, mounts, tmpSrc, srcs, rest);
  }

  /** Pairs sources with destinations in place: on success `dst` holds the destinations in pairing order and
      the result the sources; the sources behind the last destination are surplus. */
  method GetMoveObjs(dst: array<Obj>, tmpSrc: seq<Obj>, mounts: Mounts) returns (r: Failable<seq<Obj>>)
    requires NoRepeats(dst[..])
    modifies dst
    ensures r.Err? <==> |tmpSrc| < dst.Length || exists o :: o in old(dst[..]) && Mount(o, mounts).None?
    ensures r.Ok? ==> NoRepeats(dst[..]) && ToSet(dst[..]) == ToSet(old(dst[..]))
    ensures r.Ok? ==> multiset(r.value) == multiset(Resolvable(tmpSrc, mounts))
    ensures r.Ok? ==> exists k :: MatchedFirst(r.value, dst[..], mounts, k)
  {
    if |tmpSrc| < dst.Length {
      return Err(());
    }
    var filed := FileByMount(dst[..], mounts);
    if filed.None? {
      return Err(());
    }
    ghost var all := dst[..];
    SizeOfSet(all);
    var srcs, rest, open := PairSources(dst, tmpSrc, mounts, filed.value, ToSet(dst[..]));
    ghost var now := dst[..];
    PlaceRest(dst, open, |srcs|, all);
    MatchedThenRest(srcs, rest, now, dst[..], open, mounts);
    return Ok(srcs + rest);
  }

  lemma MatchedThenRest(srcs: seq<Obj>, rest: seq<Obj>, now: seq<Obj>, after: seq<Obj>, open: set<Obj>, mounts: Mounts)
    requires |srcs| <= |after| == |now| && after[..|srcs|] == now[..|srcs|] && Paired(srcs, now, mounts)
    requires forall j :: |srcs| <= j < |after| ==> after[j] in open
    requires NoCommonMount(rest, open, mounts)
    ensures MatchedFirst(srcs + rest, after, mounts, |srcs|)
  {
    forall i | 0 <= i < |srcs| ensures after[i] == now[i] {
      assert after[..|srcs|][i] == now[..|srcs|][i];
    }
  }

  lemma MatchBegins(given: seq<Obj>, open: set<Obj>, m: ByMount, mounts: Mounts)
    requires Placing(given, given, open, 0) && Files(m, open, mounts)
    ensures Matching(given, given, open, m, mounts, [], [], [])
  {
  }

  /** After the last source: no kept source shares a mount with an unassigned destination. */
  lemma MatchEnds(all: seq<Obj>, now: seq<Obj>, open: set<Obj>, m: ByMount, mounts: Mounts, seen: seq<Obj>,
      srcs: seq<Obj>, rest: seq<Obj>)
    requires Matching(all, now, open, m, mounts, seen, srcs, rest)
    ensures |srcs| <= |now| && Placing(all, now, open, |srcs|)
    ensures Paired(srcs, now, mounts)
    ensures NoCommonMount(rest, open, mounts)
    ensures multiset(srcs + rest) == multiset(Resolvable(seen, mounts))
  {
  }

  // ---------- The greedy pairing is optimal ----------

  /** The destinations that get a source from their own mount when destination `i` gets source `f[i]`. */
  ghost function SameMount(srcs: seq<Obj>, dsts: seq<Obj>, mounts: Mounts, f: seq<nat>): set<nat>
    requires |f| == |dsts| && forall i :: 0 <= i < |f| ==> f[i] < |srcs|
  {
    set i: nat | i < |dsts| && Mount(srcs[f[i]], mounts) == Mount(dsts[i], mounts)
  }

  function Identity(n: nat): seq<nat> {
    seq(n, i => i)
  }

  lemma InjectiveImage(a: set<nat>, phi: map<nat, nat>, k: nat)
    requires forall i :: i in a ==> i in phi && phi[i] < k
    requires forall i, j :: i in a && j in a && i != j ==> phi[i] != phi[j]
    ensures |a| <= k
  {
    SameSize(a, phi);
    SubsetSize(set i | i in a :: phi[i], Below(k));
  }

  lemma {:induction false} SameSize(a: set<nat>, phi: map<nat, nat>)
    requires forall i :: i in a ==> i in phi
    requires forall i, j :: i in a && j in a && i != j ==> phi[i] != phi[j]
    ensures |set i | i in a :: phi[i]| == |a|
  {
    if a != {} {
      var x :| x in a;
      SameSize(a - {x}, phi);
      assert (set i | i in a :: phi[i]) == (set i | i in a - {x} :: phi[i]) + {phi[x]};
    }
  }

  ghost function Below(k: nat): (s: set<nat>)
    ensures |s| == k && forall i: nat :: i in s <==> i < k
  {
    if k == 0 then {}
    else
      var s := Below(k - 1);
      assert k - 1 !in s;
      s + {k - 1}
  }

  /** The greedy pair that stands for the same-mount pair (f[i], i): the pair of source f[i] if the mount has an
      unmatched destination (then all its sources are matched), otherwise the pair of destination i. */
  ghost function Witness(srcs: seq<Obj>, dsts: seq<Obj>, mounts: Mounts, k: nat, f: seq<nat>, i: nat): nat
    requires |f| == |dsts| && i < |f|
  {
    if exists j :: k <= j < |dsts| && Mount(dsts[j], mounts) == Mount(dsts[i], mounts) then f[i] else i
  }

  lemma WitnessIsMatched(srcs: seq<Obj>, dsts: seq<Obj>, mounts: Mounts, k: nat, f: seq<nat>, i: nat)
    requires MatchedFirst(srcs, dsts, mounts, k) && |f| == |dsts| && i < |f| && f[i] < |srcs|
    requires Mount(srcs[f[i]], mounts) == Mount(dsts[i], mounts)
    ensures var w := Witness(srcs, dsts, mounts, k, f, i);
      w < k && Mount(srcs[w], mounts) == Mount(dsts[w], mounts) == Mount(dsts[i], mounts)
  {
  }

  lemma AtMostMatched(srcs: seq<Obj>, dsts: seq<Obj>, mounts: Mounts, k: nat, f: seq<nat>)
    requires MatchedFirst(srcs, dsts, mounts, k)
    requires |f| == |dsts| && (forall i :: 0 <= i < |f| ==> f[i] < |srcs|) && NoRepeats(f)
    ensures |SameMount(srcs, dsts, mounts, f)| <= k
  {
    var a := SameMount(srcs, dsts, mounts, f);
    var phi := map i | i in a :: Witness(srcs, dsts, mounts, k, f, i);
    forall i | i in a
      ensures phi[i] < k && Mount(srcs[phi[i]], mounts) == Mount(dsts[phi[i]], mounts) == Mount(dsts[i], mounts)
    {
      WitnessIsMatched(srcs, dsts, mounts, k, f, i);
    }
    hide MatchedFirst;
    forall i, j | i in a && j in a && i != j ensures phi[i] != phi[j] {
      assert f[i] != f[j];
    }
    InjectiveImage(a, phi, k);
  }

  lemma GreedyMatches(srcs: seq<Obj>, dsts: seq<Obj>, mounts: Mounts, k: nat)
    requires MatchedFirst(srcs, dsts, mounts, k) && |dsts| <= |srcs|
    ensures |SameMount(srcs, dsts, mounts, Identity(|dsts|))| == k
  {
    assert SameMount(srcs, dsts, mounts, Identity(|dsts|)) == Below(k);
  }

  /** No assignment of distinct sources to the destinations keeps more pairs on one mount than the greedy one. */
  lemma GreedyIsOptimal(srcs: seq<Obj>, dsts: seq<Obj>, mounts: Mounts, k: nat, f: seq<nat>)
    requires MatchedFirst(srcs, dsts, mounts, k) && |dsts| <= |srcs|
    requires |f| == |dsts| && (forall i :: 0 <= i < |f| ==> f[i] < |srcs|) && NoRepeats(f)
    ensures |SameMount(srcs, dsts, mounts, f)| <= |SameMount(srcs, dsts, mounts, Identity(|dsts|))|
  {
    AtMostMatched(srcs, dsts, mounts, k, f);
    GreedyMatches(srcs, dsts, mounts, k);
  }

  // ---------- Move ----------

  datatype Op = Moved(src: Obj, dst: Obj) | Removed(src: Obj)

  /** `Panicked` is the index panic that `Move` runs into when it has fewer sources than destinations. */
  datatype MoveResult = Failed | Panicked(log: seq<Op>) | Done(log: seq<Op>)

  function Sources(log: seq<Op>): seq<Obj> {
    seq(|log|, i requires 0 <= i < |log| => log[i].src)
  }

  function Targets(log: seq<Op>): seq<Obj> {
    if log == [] then [] else Targets(log[..|log| - 1]) + if log[|log| - 1].Moved? then [log[|log| - 1].dst] else []
  }

  /** `Move`: the pairs are moved, surplus sources removed. It works on each source that resolves exactly once
      and moves to each destination exactly once; it panics exactly when fewer sources resolve than there
      are destinations. */
  method Move(dst: array<Obj>, tmpSrc: seq<Obj>, mounts: Mounts) returns (r: MoveResult)
    requires NoRepeats(dst[..])
    modifies dst
    ensures r.Failed? <==> |tmpSrc| < dst.Length || exists o :: o in old(dst[..]) && Mount(o, mounts).None?
    ensures !r.Failed? ==> (r.Panicked? <==> |Resolvable(tmpSrc, mounts)| < dst.Length)
    ensures r.Done? ==> multiset(Sources(r.log)) == multiset(Resolvable(tmpSrc, mounts))
    ensures r.Done? ==> NoRepeats(Targets(r.log)) && ToSet(Targets(r.log)) == ToSet(old(dst[..]))
    ensures r.Done? ==> exists k :: MatchedFirst(Sources(r.log), Targets(r.log), mounts, k)
  {
    var paired := GetMoveObjs(dst, tmpSrc, mounts);
    if paired.Err? {
      return Failed;
    }
    SameLength(paired.value, Resolvable(tmpSrc, mounts));
    r := MoveAndRemove(paired.value, dst[..]);
  }

  /** The two loops of `Move` over the pairing. */
  method MoveAndRemove(srcs: seq<Obj>, dsts: seq<Obj>) returns (r: MoveResult)
    ensures if |srcs| < |dsts| then r.Panicked? else r.Done? && Sources(r.log) == srcs && Targets(r.log) == dsts
  {
    var log := [];
    for i := 0 to |dsts|
      invariant i <= |srcs| && Sources(log) == srcs[..i] && Targets(log) == dsts[..i]
    {
      if i >= |srcs| {
        return Panicked(log);
      }
      LogOne(log, Moved(srcs[i], dsts[i]));
      log := log + [Moved(srcs[i], dsts[i])];
    }
    for i := |dsts| to |srcs|
      invariant Sources(log) == srcs[..i] && Targets(log) == dsts
    {
      LogOne(log, Removed(srcs[i]));
      log := log + [Removed(srcs[i])];
    }
    return Done(log);
  }

  lemma SameLength<T>(s: seq<T>, t: seq<T>)
    requires multiset(s) == multiset(t)
    ensures |s| == |t|
  {
    assert |s| == |multiset(s)| == |multiset(t)| == |t|;
  }

  lemma LogOne(log: seq<Op>, op: Op)
    ensures Sources(log + [op]) == Sources(log) + [op.src]
    ensures Targets(log + [op]) == Targets(log) + if op.Moved? then [op.dst] else []
  {
    assert (log + [op])[..|log|] == log;
  }

  /** When every source resolves there is nothing to panic about, and no source is left out. */
  lemma {:induction false} AllResolve(s: seq<Obj>, mounts: Mounts)
    ensures (forall o :: o in s ==> Mount(o, mounts).Some?) <==> Resolvable(s, mounts) == s
    ensures |Resolvable(s, mounts)| <= |s|
  {
    if s != [] {
      var m := s[..|s| - 1];
      AllResolve(m, mounts);
      assert s == m + [s[|s| - 1]];
      assert forall o :: o in s <==> o in m || o == s[|s| - 1];
    }
  }

  /** For instance, one destination on a mount, and one source whose storage is gone: there are enough objects, and
      still the pairing comes out shorter than the destinations. */
  method MoveCanPanic() returns (r: MoveResult)
    ensures r.Panicked?
  {
    var source, target := Obj(0, "/gone/a"), Obj(1, "/here/a");
    var mounts := map["/here/a" := "/here"];
    var dst := new Obj[] [target];
    assert dst[..] == [target] && Mount(source, mounts).None?;
    assert [source][..0] == [] && Resolvable([source], mounts) == Resolvable([], mounts) == [];
    r := Move(dst, [source], mounts);
  }

  // ---------- getCopyObjs ----------

  /** Some source lives on the mount of `o`. */
  ghost predicate HasLocalSource(o: Obj, sources: seq<Obj>, mounts: Mounts) {
    exists s :: s in sources && Mount(s, mounts) == Mount(o, mounts)
  }

  /** A destination got a source from its own mount if there was one. */
  ghost predicate WellFed(src: Obj, dst: Obj, sources: seq<Obj>, mounts: Mounts) {
    src in sources && (HasLocalSource(dst, sources, mounts) ==> Mount(src, mounts) == Mount(dst, mounts))
  }

  ghost predicate AllFed(srcs: seq<Obj>, dsts: seq<Obj>, sources: seq<Obj>, mounts: Mounts) {
    |srcs| <= |dsts| && forall i :: 0 <= i < |srcs| ==> WellFed(srcs[i], dsts[i], sources, mounts)
  }

  /** No source seen so far lives on a mount that still waits for one. */
  ghost predicate NoneMissed(seen: seq<Obj>, m: ByMount, mounts: Mounts) {
    forall s :: s in seen && Mount(s, mounts).Some? ==> Mount(s, mounts).value !in m
  }

  /** The loop state of getCopyObjs: the sources `seen` are done with. */
  ghost predicate Feeding(all: seq<Obj>, now: seq<Obj>, open: set<Obj>, m: ByMount, mounts: Mounts, sources: seq<Obj>,
      seen: seq<Obj>, srcs: seq<Obj>) {
    && Placing(all, now, open, |srcs|) && Files(m, open, mounts)
    && AllFed(srcs, now, sources, mounts) && NoneMissed(seen, m, mounts)
  }

  lemma FeedOne(all: seq<Obj>, now: seq<Obj>, open: set<Obj>, m: ByMount, mounts: Mounts, sources: seq<Obj>,
      seen: seq<Obj>, srcs: seq<Obj>, src: Obj, mp: string)
    requires Feeding(all, now, open, m, mounts, sources, seen, srcs)
    requires src in sources && Mount(src, mounts) == Some(mp) && mp in m
    ensures m[mp] != [] && |srcs| < |now|
    ensures var m' := if |m[mp]| == 1 then m - {mp} else m[mp := m[mp][1..]];
      Feeding(all, now[|srcs| := m[mp][0]], open - {m[mp][0]}, m', mounts, sources, seen, srcs + [src])
  {
    assert m[mp] != [] by {
      assert Files(m, open, mounts);
    }
    hide Placing, Files, AllFed, NoneMissed;
    var dst := m[mp][0];
    TakeOne(m, open, mounts, mp);
    PlaceOne(all, now, open, |srcs|, dst);
    FedMore(srcs, now, sources, mounts, src, dst);
    NoneMissedStill(seen, m, if |m[mp]| == 1 then m - {mp} else m[mp := m[mp][1..]], mounts);
  }

  lemma FedMore(srcs: seq<Obj>, now: seq<Obj>, sources: seq<Obj>, mounts: Mounts, src: Obj, dst: Obj)
    requires AllFed(srcs, now, sources, mounts) && |srcs| < |now|
    requires src in sources && Mount(src, mounts) == Mount(dst, mounts)
    ensures AllFed(srcs + [src], now[|srcs| := dst], sources, mounts)
  {
  }

  lemma NoneMissedStill(seen: seq<Obj>, m: ByMount, m': ByMount, mounts: Mounts)
    requires NoneMissed(seen, m, mounts) && m'.Keys <= m.Keys
    ensures NoneMissed(seen, m', mounts)
  {
  }

  /** The inner loop: one source feeds all unassigned destinations `tmp` of its mount. */
  method FeedMount(dst: array<Obj>, src: Obj, tmp: seq<Obj>, given: seq<Obj>, waiting: set<Obj>,
                   ghost all: seq<Obj>, ghost m: ByMount, mounts: Mounts, ghost sources: seq<Obj>, ghost seen: seq<Obj>,
                     ghost mp: string)
    returns (srcs: seq<Obj>, open: set<Obj>)
    requires Feeding(all, dst[..], waiting, m, mounts, sources, seen, given)
    requires src in sources && Mount(src, mounts) == Some(mp) && mp in m && m[mp] == tmp != []
    modifies dst
    ensures Feeding(all, dst[..], open, m - {mp}, mounts, sources, seen, srcs)
  {
    hide Feeding;
    srcs, open := given, waiting;
    ghost var left := m;
    for i := 0 to |tmp|
      invariant Feeding(all, dst[..], open, left, mounts, sources, seen, srcs)
      invariant left == if i == |tmp| then m - {mp} else m[mp := tmp[i..]]
    {
      ghost var now := dst[..];
      FeedOne(all, now, open, left, mounts, sources, seen, srcs, src, mp);
      dst[|srcs|] := tmp[i];
      assert dst[..] == now[|srcs| := tmp[i]];
      left := if |left[mp]| == 1 then left - {mp} else left[mp := left[mp][1..]];
      srcs, open := srcs + [src], open - {tmp[i]};
    }
  }

  lemma FeedBegins(given: seq<Obj>, open: set<Obj>, m: ByMount, mounts: Mounts, sources: seq<Obj>)
    requires Placing(given, given, open, 0) && Files(m, open, mounts)
    ensures Feeding(given, given, open, m, mounts, sources, [], [])
  {
  }

  lemma FeedSeen(all: seq<Obj>, now: seq<Obj>, open: set<Obj>, m: ByMount, mounts: Mounts, sources: seq<Obj>,
      seen: seq<Obj>, srcs: seq<Obj>, src: Obj)
    requires Feeding(all, now, open, m, mounts, sources, seen, srcs)
    requires Mount(src, mounts).Some? ==> Mount(src, mounts).value !in m
    ensures Feeding(all, now, open, m, mounts, sources, seen + [src], srcs)
  {
  }

  lemma MountWaits(all: seq<Obj>, now: seq<Obj>, open: set<Obj>, m: ByMount, mounts: Mounts, sources: seq<Obj>,
      seen: seq<Obj>, srcs: seq<Obj>, mp: string)
    requires Feeding(all, now, open, m, mounts, sources, seen, srcs) && mp in m
    ensures m[mp] != []
  {
  }

  lemma FeedEnds(all: seq<Obj>, now: seq<Obj>, open: set<Obj>, m: ByMount, mounts: Mounts, sources: seq<Obj>,
      srcs: seq<Obj>)
    requires Feeding(all, now, open, m, mounts, sources, sources, srcs)
    ensures |srcs| <= |now| && Placing(all, now, open, |srcs|) && AllFed(srcs, now, sources, mounts)
    ensures forall o :: o in open ==> !HasLocalSource(o, sources, mounts)
  {
  }

  /** The loop over the sources. */
  method FeedLocally(dst: array<Obj>, tmpSrc: seq<Obj>, mounts: Mounts, filed: ByMount, waiting: set<Obj>)
    returns (srcs: seq<Obj>, open: set<Obj>)
    requires Placing(dst[..], dst[..], waiting, 0) && Files(filed, waiting, mounts)
    modifies dst
    ensures |srcs| <= dst.Length && Placing(old(dst[..]), dst[..], open, |srcs|) &&
      AllFed(srcs, dst[..], tmpSrc, mounts)
    ensures forall o :: o in open ==> !HasLocalSource(o, tmpSrc, mounts)
  {
    ghost var given := dst[..];
    var m := filed;
    srcs, open := [], waiting;
    FeedBegins(given, open, m, mounts, tmpSrc);
    assert tmpSrc[..0] == [];
    hide Feeding, Files, Placing, AllFed, HasLocalSource;
    for i := 0 to |tmpSrc|
      invariant Feeding(given, dst[..], open, m, mounts, tmpSrc, tmpSrc[..i], srcs)
    {
      var src := tmpSrc[i];
      assert tmpSrc[..i + 1] == tmpSrc[..i] + [src];
      if src.path in mounts && mounts[src.path] in m {
        var mp := mounts[src.path];
        MountWaits(given, dst[..], open, m, mounts, tmpSrc, tmpSrc[..i], srcs, mp);
        srcs, open := FeedMount(dst, src, m[mp], srcs, open, given, m, mounts, tmpSrc, tmpSrc[..i], mp);
        m := m - {mp};
      }
      FeedSeen(given, dst[..], open, m, mounts, tmpSrc, tmpSrc[..i], srcs, src);
    }
    assert tmpSrc[..|tmpSrc|] == tmpSrc;
    FeedEnds(given, dst[..], open, m, mounts, tmpSrc, srcs);
  }

  /** A source for each left-over destination: the first one, or one drawn at random. */
  method FeedRest(fed: seq<Obj>, n: nat, tmpSrc: seq<Obj>, random: bool) returns (srcs: seq<Obj>)
    requires |fed| <= n && tmpSrc != []
    ensures |srcs| == n && srcs[..|fed|] == fed && forall i :: |fed| <= i < n ==> srcs[i] in tmpSrc
  {
    srcs := fed;
    while |srcs| < n
      invariant |fed| <= |srcs| <= n && srcs[..|fed|] == fed
      invariant forall i :: |fed| <= i < |srcs| ==> srcs[i] in tmpSrc
    {
      var src := tmpSrc[0];
      if random {
        var k :| 0 <= k < |tmpSrc|;
        src := tmpSrc[k];
      }
      srcs := srcs + [src];
    }
  }

  lemma AllFedInTheEnd(srcs: seq<Obj>, now: seq<Obj>, after: seq<Obj>, k: nat, open: set<Obj>, sources: seq<Obj>,
      mounts: Mounts)
    requires k <= |srcs| == |after| == |now| && after[..k] == now[..k] && AllFed(srcs[..k], now, sources, mounts)
    requires forall j :: k <= j < |after| ==> srcs[j] in sources && after[j] in open
    requires forall o :: o in open ==> !HasLocalSource(o, sources, mounts)
    ensures AllFed(srcs, after, sources, mounts)
  {
    forall i | 0 <= i < |srcs| ensures WellFed(srcs[i], after[i], sources, mounts) {
      if i < k {
        assert after[i] == after[..k][i] == now[..k][i] == now[i];
        assert WellFed(srcs[..k][i], now[i], sources, mounts);
      }
    }
  }

  /** Pairs every destination with a source: on success `dst` holds the destinations in pairing order.
      `random` says that sources for the left-over destinations are drawn at random. */
  method GetCopyObjs(dst: array<Obj>, tmpSrc: seq<Obj>, mounts: Mounts, random: bool) returns (r: Failable<seq<Obj>>)
    requires NoRepeats(dst[..]) && tmpSrc != []
    modifies dst
    ensures r.Err? <==> exists o :: o in old(dst[..]) && Mount(o, mounts).None?
    ensures r.Ok? ==> NoRepeats(dst[..]) && ToSet(dst[..]) == ToSet(old(dst[..]))
    ensures r.Ok? ==> |r.value| == dst.Length && AllFed(r.value, dst[..], tmpSrc, mounts)
  {
    var filed := FileByMount(dst[..], mounts);
    if filed.None? {
      return Err(());
    }
    ghost var all := dst[..];
    SizeOfSet(all);
    var fed, open := FeedLocally(dst, tmpSrc, mounts, filed.value, ToSet(dst[..]));
    hide AllFed, HasLocalSource, Placing, Files;
    ghost var now := dst[..];
    PlaceRest(dst, open, |fed|, all);
    var srcs := FeedRest(fed, dst.Length, tmpSrc, random);
    AllFedInTheEnd(srcs, now, dst[..], |fed|, open, tmpSrc, mounts);
    return Ok(srcs);
  }
}
