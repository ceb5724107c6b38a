/** The part lists of uploads that resume, and one run of an errgroup over such a list: pkg/errgroup/errgroup.go
    with the loops of drivers/189pc/utils.go and drivers/baidu_netdisk/driver.go. */
module PartLists {
  import opened Options

  /** What progress is saved under: the account and the hash of the content. */
  type Key = string

  /** A finished entry is blanked out; blanks are negative. */
  const BLANK: int := -1

  function Remaining(parts: seq<int>): set<int> {
    set i | 0 <= i < |parts| && parts[i] >= 0 :: parts[i]
  }

  ghost predicate Distinct(parts: seq<int>) {
    forall i, j :: 0 <= i < j < |parts| && parts[i] >= 0 ==> parts[i] != parts[j]
  }

  function Filter(parts: seq<int>): seq<int> {
    if parts == [] then []
    else Filter(parts[..|parts| - 1]) + if parts[|parts| - 1] >= 0 then [parts[|parts| - 1]] else []
  }

  /** utils.SliceFilter on a part list. */
  method SliceFilter(parts: seq<int>) returns (kept: seq<int>)
    ensures kept == Filter(parts)
  {
    kept := [];
    for i := 0 to |parts|
      invariant kept == Filter(parts[..i])
    {
      assert parts[..i + 1][..i] == parts[..i];
      if parts[i] >= 0 {
        kept := kept + [parts[i]];
      }
    }
    assert parts[..|parts|] == parts;
  }

  /** Dropping the blanks loses no part and doubles none. */
  lemma {:induction false} FilterKeeps(parts: seq<int>)
    ensures Remaining(Filter(parts)) == Remaining(parts) && |Filter(parts)| <= |parts|
    ensures Distinct(parts) ==> Distinct(Filter(parts))
    ensures forall i :: 0 <= i < |Filter(parts)| ==> Filter(parts)[i] >= 0
  {
    if parts != [] {
      var before, last := parts[..|parts| - 1], parts[|parts| - 1];
      FilterKeeps(before);
      assert parts == before + [last];
      RemainingSnoc(before, last);
      RemainingSnoc(Filter(before), last);
      DistinctSnoc(before, last);
      DistinctSnoc(Filter(before), last);
      hide Remaining, Distinct;
      assert Filter(before) + [] == Filter(before);
    }
  }

  lemma DistinctSnoc(parts: seq<int>, x: int)
    ensures Distinct(parts + [x]) <==> Distinct(parts) && (x < 0 || x !in Remaining(parts))
  {
    var more := parts + [x];
    assert more[|parts|] == x && forall i :: 0 <= i < |parts| ==> more[i] == parts[i];
    if x >= 0 && x in Remaining(parts) {
      var i :| 0 <= i < |parts| && parts[i] == x;
      assert more[i] == more[|parts|];
    }
    if Distinct(more) {
      assert forall i :: 0 <= i < |parts| && more[i] >= 0 ==> more[i] != more[|parts|];
    }
  }

  lemma RemainingSnoc(parts: seq<int>, x: int)
    ensures Remaining(parts + [x]) == Remaining(parts) + if x >= 0 then {x} else {}
  {
    var more := parts + [x];
    assert more[|parts|] == x;
    assert forall i :: 0 <= i < |parts| ==> more[i] == parts[i];
  }

  /** Blanking an entry takes exactly its part off the list. */
  lemma BlankOne(parts: seq<int>, i: nat)
    requires i < |parts| && parts[i] >= 0 && Distinct(parts)
    ensures Remaining(parts[i := BLANK]) == Remaining(parts) - {parts[i]} && Distinct(parts[i := BLANK])
  {
    var less := parts[i := BLANK];
    forall x | x in Remaining(parts) - {parts[i]} ensures x in Remaining(less) {
      var j :| 0 <= j < |parts| && parts[j] == x && x >= 0;
      assert less[j] == x;
    }
    forall x | x in Remaining(less) ensures x in Remaining(parts) && x != parts[i] {
      var j :| 0 <= j < |less| && less[j] == x && x >= 0;
      assert parts[j] == x && j != i;
    }
  }

  /** The parts 1 to n, as FastUpload numbers them, or the slices 0 to n - 1 of Baidu. */
  function Numbered(first: nat, n: nat): seq<int> { seq(n, i => first + i) }

  function AllParts(first: nat, n: nat): set<int> {
    set k | k in Numbered(first, n)
  }

  lemma FreshParts(first: nat, n: nat)
    ensures Distinct(Numbered(first, n)) && Remaining(Numbered(first, n)) == AllParts(first, n)
  {
    forall k | k in AllParts(first, n) ensures k in Remaining(Numbered(first, n)) {
      assert Numbered(first, n)[k - first] == k;
    }
  }

  // ---------- One run over a list ----------

  /** Why the context of the errgroup ended. */
  datatype Cause = Canceled | UploadIdExpired | Broken

  /** The loop has passed the entries before `next`, `active` are the running routines with the parts they send, and
      `stopped` is why the context ended, if it has. */
  datatype Attempt = Attempt(next: nat, active: map<nat, int>, stopped: Option<Cause>)

  const BEGUN := Attempt(0, map[], None)

  /** The loop starts a routine for each entry that is not blank. It breaks when it sees that the context ended, which
      it may see late. */
  predicate CanLaunch(list: seq<int>, a: Attempt) {
    a.next < |list|
  }

  function Launched(list: seq<int>, a: Attempt): Attempt
    requires CanLaunch(list, a)
  {
    Attempt(a.next + 1, if list[a.next] >= 0 then a.active[a.next := list[a.next]] else a.active, a.stopped)
  }

  /** A routine returns; the first error ends the context. */
  function Returned(a: Attempt, i: nat, error: Option<Cause>): Attempt {
    Attempt(a.next, a.active - {i}, if a.stopped.None? then error else a.stopped)
  }

  function Stopped(a: Attempt, cause: Cause): Attempt {
    a.(stopped := if a.stopped.None? then Some(cause) else a.stopped)
  }

  /** Wait returns when no routine runs any more and the loop is over: without an error if the context is alive. */
  predicate EndsWell(list: seq<int>, a: Attempt) {
    a.stopped.None? && a.next >= |list| && a.active == map[]
  }

  predicate EndsBadly(a: Attempt) {
    a.stopped.Some? && a.active == map[]
  }

  /** Each running routine has its entry, and as long as nothing went wrong each entry that was passed is blank or
      has its routine. */
  ghost predicate Tracks(list: seq<int>, a: Attempt) {
    && a.next <= |list|
    && (forall i :: i in a.active ==> i < a.next && list[i] == a.active[i] >= 0)
    && (a.stopped.None? ==> forall i: nat :: i < a.next && list[i] >= 0 ==> i in a.active)
  }

  lemma LaunchTracks(list: seq<int>, a: Attempt)
    requires Tracks(list, a) && CanLaunch(list, a)
    ensures Tracks(list, Launched(list, a))
  {
  }

  /** A routine that succeeds blanks its entry. */
  lemma SuccessTracks(list: seq<int>, a: Attempt, i: nat)
    requires Tracks(list, a) && i in a.active
    ensures i < |list| && list[i] == a.active[i] && Tracks(list[i := BLANK], Returned(a, i, None))
  {
  }

  lemma ErrorTracks(list: seq<int>, a: Attempt, i: nat, cause: Cause)
    requires Tracks(list, a)
    ensures Tracks(list, Returned(a, i, Some(cause))) && Tracks(list, Stopped(a, cause))
  {
  }

  /** If Wait returns no error, every entry of the list is blank. */
  lemma NoErrorMeansAllDone(list: seq<int>, a: Attempt)
    requires Tracks(list, a) && EndsWell(list, a)
    ensures Remaining(list) == {}
  {
    assert forall i: nat :: i < |list| ==> list[i] < 0;
  }
}
