/** The folder that holds one chunked file, and the size table that `Get` rebuilds from its listing. */
module ChunkFolder {
  import opened Options
  import opened PartNames
  import opened Streams

  /** A file or subfolder of a chunk folder; a file's size is the length of its data. */
  datatype Entry = Entry(name: string, isDir: bool, data: seq<byte>)

  type Folder = map<string, Entry>

  /** What `Get` gives back; `Panic` stands for a run-time panic of the Go code. */
  datatype GetResult = Panic | Object(size: nat, table: seq<int>, hashes: map<string, string>)

  function Index(e: Entry, ext: string): Option<int> {
    if e.isDir then None else IndexForGet(e.name, ext)
  }

  function PartSizeOf(e: Entry, ext: string): nat {
    if Index(e, ext).Some? then |e.data| else 0
  }

  /** Sizes of all part files. */
  function TotalSize(l: seq<Entry>, ext: string): nat {
    if l == [] then 0 else TotalSize(l[..|l| - 1], ext) + PartSizeOf(l[|l| - 1], ext)
  }

  /** The size of the last listed file with index `i`. */
  function SizeOf(l: seq<Entry>, ext: string, i: int): Option<nat> {
    if l == [] then None
    else if Index(l[|l| - 1], ext) == Some(i) then Some(|l[|l| - 1].data|)
    else SizeOf(l[..|l| - 1], ext, i)
  }

  function Absent(i: nat): int { if i == 0 then -1 else 0 }

  function Cell(l: seq<Entry>, ext: string, i: nat): int {
    match SizeOf(l, ext, i) case Some(s) => s case None => Absent(i)
  }

  /** `t` is the size table of listing `l`: as long as the largest index needs, each cell the size of
      its part, or the mark of absence (-1 for part 0, 0 for the others). */
  ghost predicate IsTable(l: seq<Entry>, ext: string, t: seq<int>) {
    && |t| >= 1
    && (forall i :: 0 <= i < |t| ==> t[i] == Cell(l, ext, i))
    && (forall i: nat :: SizeOf(l, ext, i).Some? ==> i < |t|)
    && (|t| == 1 || SizeOf(l, ext, |t| - 1).Some?)
  }

  ghost predicate HasNegative(l: seq<Entry>, ext: string) {
    exists i: int :: i < 0 && SizeOf(l, ext, i).Some?
  }

  /** The variables of the loop after `k` entries. */
  ghost predicate Counted(l: seq<Entry>, ext: string, k: nat, total: nat, sizes: seq<int>, first: bool)
    requires k <= |l|
  {
    && !HasNegative(l[..k], ext) && total == TotalSize(l[..k], ext) && IsTable(l[..k], ext, sizes)
    && (first <==> SizeOf(l[..k], ext, 0).Some?)
  }

  lemma CountNothing(l: seq<Entry>, ext: string)
    ensures Counted(l, ext, 0, 0, [-1], false)
  {
    assert l[..0] == [];
  }

  lemma CountOther(l: seq<Entry>, ext: string, k: nat, total: nat, sizes: seq<int>, first: bool)
    requires k < |l| && Counted(l, ext, k, total, sizes, first) && Index(l[k], ext).None?
    ensures Counted(l, ext, k + 1, total, sizes, first)
  {
    SizeOfSnoc(l, ext, k);
    hide SizeOf, TotalSize, Index;
  }

  lemma CountPart(l: seq<Entry>, ext: string, k: nat, total: nat, t: seq<int>, first: bool, idx: nat, u: seq<int>)
    requires k < |l| && Counted(l, ext, k, total, t, first) && Index(l[k], ext) == Some(idx)
    requires |u| == if |t| > idx then |t| else idx + 1
    requires forall j :: 0 <= j < |u| ==> u[j] == if j == idx then |l[k].data| else if j < |t| then t[j] else 0
    ensures Counted(l, ext, k + 1, total + |l[k].data|, u, first || idx == 0)
  {
    TableStep(l, ext, k, t, u);
    SizeOfSnoc(l, ext, k);
    hide SizeOf, TotalSize, Index, IsTable, HasNegative;
  }

  lemma NegativePart(l: seq<Entry>, ext: string, k: nat, idx: int)
    requires k < |l| && Index(l[k], ext) == Some(idx) && idx < 0
    ensures HasNegative(l, ext)
  {
    SizeOfSnoc(l, ext, k);
    NegativeStays(l, ext, k + 1, idx);
  }

  lemma CountedAll(l: seq<Entry>, ext: string, total: nat, sizes: seq<int>, first: bool)
    requires Counted(l, ext, |l|, total, sizes, first)
    ensures !HasNegative(l, ext) && total == TotalSize(l, ext) && IsTable(l, ext, sizes)
    ensures first <==> SizeOf(l, ext, 0).Some?
  {
    assert l[..|l|] == l;
  }

  function HashOf(e: Entry, ext: string): Option<(string, string)> {
    if e.isDir then None else HashOfName(e.name, ext)
  }

  /** The hashes of known kinds; of several files for one kind the last one counts. */
  function HashesOf(l: seq<Entry>, ext: string, known: set<string>): map<string, string> {
    if l == [] then map[]
    else
      var h := HashesOf(l[..|l| - 1], ext, known);
      match HashOf(l[|l| - 1], ext)
      case Some(hash) => if hash.0 in known then h[hash.0 := hash.1] else h
      case None => h
  }

  ghost predicate ListsHash(l: seq<Entry>, ext: string, kind: string, value: string) {
    exists e :: e in l && HashOf(e, ext) == Some((kind, value))
  }

  ghost predicate ListsNoHash(l: seq<Entry>, ext: string, kind: string) {
    forall e :: e in l && HashOf(e, ext).Some? ==> HashOf(e, ext).value.0 != kind
  }

  /** Every hash found is that of a listed file, and every known kind with a listed file is found. */
  lemma {:induction false} HashesAreListed(l: seq<Entry>, ext: string, known: set<string>, kind: string)
    ensures var h := HashesOf(l, ext, known);
      if kind in h then kind in known && ListsHash(l, ext, kind, h[kind])
      else kind !in known || ListsNoHash(l, ext, kind)
  {
    if l != [] {
      var n := |l| - 1;
      HashesAreListed(l[..n], ext, known, kind);
      HashesSnoc(l, ext, known, n);
      assert l == l[..n] + [l[n]] && l[..n + 1] == l;
      hide HashOf, HashesOf;
    }
  }

  /** The loop of `Get` over the listing; `known` are the kinds of hashes that have a name. */
  method Get(l: seq<Entry>, ext: string, known: set<string>) returns (r: GetResult)
    ensures r.Object? ==> r.hashes == HashesOf(l, ext, known)
    ensures r.Panic? <==> HasNegative(l, ext) || SizeOf(l, ext, 0).None?
    ensures r.Object? ==> r.size == TotalSize(l, ext) && IsTable(l, ext, r.table)
  {
    var total: nat := 0;
    var sizes: seq<int> := [-1];
    var first := None;
    var h: map<string, string> := map[];
    CountNothing(l, ext);
    assert l[..0] == [] && HashesOf([], ext, known) == map[];
    hide Counted, HasNegative, SizeOf, TotalSize, IsTable, HashesOf;
    for k := 0 to |l|
      invariant h == HashesOf(l[..k], ext, known)
      invariant Counted(l, ext, k, total, sizes, first.Some?) && |sizes| >= 1
    {
      var o := l[k];
      HashesSnoc(l, ext, known, k);
      if o.isDir {
        CountOther(l, ext, k, total, sizes, first.Some?);
        continue;
      }
      if "hash_" <= o.name {
        var cut := Cut(TrimSuffix(o.name[5..], ext), '_');
        if cut.Some? && cut.value.0 in known {
          h := h[cut.value.0 := cut.value.1];
        }
        CountOther(l, ext, k, total, sizes, first.Some?);
        continue;
      }
      var idx := Atoi(TrimSuffix(o.name, ext));
      if idx.None? {
        CountOther(l, ext, k, total, sizes, first.Some?);
        continue;
      }
      ghost var before, seen := sizes, first.Some?;
      if idx.value < 0 {
        NegativePart(l, ext, k, idx.value);
      }
      if |sizes| > idx.value {
        if idx.value == 0 {
          first := Some(o);
        }
        if idx.value < 0 {
          return Panic;
        }
        sizes := sizes[idx.value := |o.data|];
      } else if |sizes| == idx.value {
        sizes := sizes + [|o.data|];
      } else {
        sizes := seq(idx.value + 1, i requires 0 <= i <= idx.value => if i < |sizes| then sizes[i] else 0);
        sizes := sizes[idx.value := |o.data|];
      }
      CountPart(l, ext, k, total, before, seen, idx.value, sizes);
      total := total + |o.data|;
    }
    CountedAll(l, ext, total, sizes, first.Some?);
    if first.None? {
      return Panic;
    }
    assert l[..|l|] == l;
    return Object(total, sizes, h);
  }

  lemma HashesSnoc(l: seq<Entry>, ext: string, known: set<string>, k: nat)
    requires k < |l|
    ensures HashesOf(l[..k + 1], ext, known) ==
      match HashOf(l[k], ext)
      case Some(hash) => if hash.0 in known then HashesOf(l[..k], ext, known)[hash.0 := hash.1]
        else HashesOf(l[..k], ext, known)
      case None => HashesOf(l[..k], ext, known)
  {
    assert l[..k + 1][..k] == l[..k];
  }

  lemma SizeOfSnoc(l: seq<Entry>, ext: string, k: nat)
    requires k < |l|
    ensures forall i :: SizeOf(l[..k + 1], ext, i) == if Index(l[k], ext) == Some(i) then Some(|l[k].data|)
      else SizeOf(l[..k], ext, i)
    ensures TotalSize(l[..k + 1], ext) == TotalSize(l[..k], ext) + PartSizeOf(l[k], ext)
  {
    assert l[..k + 1][..k] == l[..k];
  }

  /** One part file with a non-negative index: only its own cell changes, absent cells fill the gap. */
  lemma TableStep(l: seq<Entry>, ext: string, k: nat, t: seq<int>, u: seq<int>)
    requires k < |l| && IsTable(l[..k], ext, t) && !HasNegative(l[..k], ext)
    requires Index(l[k], ext).Some? && Index(l[k], ext).value >= 0
    requires |u| == if |t| > Index(l[k], ext).value then |t| else Index(l[k], ext).value + 1
    requires forall j :: 0 <= j < |u| ==>
      u[j] == if j == Index(l[k], ext).value then |l[k].data| else if j < |t| then t[j] else 0
    ensures IsTable(l[..k + 1], ext, u) && !HasNegative(l[..k + 1], ext)
  {
    SizeOfSnoc(l, ext, k);
    forall j | 0 <= j < |u| ensures u[j] == Cell(l[..k + 1], ext, j) {
      if j < |t| { assert t[j] == Cell(l[..k], ext, j); }
    }
  }

  lemma NegativeStays(l: seq<Entry>, ext: string, k: nat, i: int)
    requires k <= |l| && SizeOf(l[..k], ext, i).Some?
    ensures SizeOf(l, ext, i).Some?
    decreases |l| - k
  {
    if k < |l| {
      SizeOfSnoc(l, ext, k);
      NegativeStays(l, ext, k + 1, i);
    } else {
      assert l[..k] == l;
    }
  }

  /** The size that `List` reports for the same folder. */
  method ListedSize(l: seq<Entry>, ext: string) returns (total: nat)
    ensures total == TotalSize(l, ext)
  {
    total := 0;
    for k := 0 to |l|
      invariant total == TotalSize(l[..k], ext)
    {
      SizeOfSnoc(l, ext, k);
      ListAndGetAgreeOnNames(l[k].name, ext);
      if !l[k].isDir {
        var trimmed := TrimSuffix(l[k].name, ext);
        if "hash_" <= trimmed && '_' in trimmed[5..] {
          continue;
        }
        var idx := Atoi(trimmed);
        if idx.Some? {
          total := total + |l[k].data|;
        }
      }
    }
    assert l[..|l|] == l;
  }

  // ---------- Independence of the listing order ----------

  ghost predicate Distinct(l: seq<Entry>, ext: string) {
    forall i, j :: 0 <= i < j < |l| && Index(l[i], ext).Some? ==> Index(l[i], ext) != Index(l[j], ext)
  }

  lemma {:induction false} SizeOfMember(l: seq<Entry>, ext: string, i: int)
    ensures SizeOf(l, ext, i).None? ==> forall e :: e in l ==> Index(e, ext) != Some(i)
    ensures SizeOf(l, ext, i).Some? ==>
      exists e :: e in l && Index(e, ext) == Some(i) && SizeOf(l, ext, i) == Some(|e.data|)
  {
    if l != [] {
      var m := l[..|l| - 1];
      SizeOfMember(m, ext, i);
      assert l == m + [l[|l| - 1]];
      assert forall e :: e in m ==> e in l;
    }
  }

  lemma SizeOfDistinct(l: seq<Entry>, ext: string, e: Entry)
    requires Distinct(l, ext) && e in l && Index(e, ext).Some?
    ensures SizeOf(l, ext, Index(e, ext).value) == Some(|e.data|)
  {
    SizeOfMember(l, ext, Index(e, ext).value);
  }

  lemma SizeOfPermuted(l: seq<Entry>, m: seq<Entry>, ext: string, i: int)
    requires multiset(l) == multiset(m) && Distinct(l, ext) && Distinct(m, ext)
    ensures SizeOf(l, ext, i) == SizeOf(m, ext, i)
  {
    assert forall e :: e in l <==> e in multiset(l);
    assert forall e :: e in m <==> e in multiset(m);
    SizeOfMember(l, ext, i);
    SizeOfMember(m, ext, i);
    if SizeOf(l, ext, i).Some? {
      var e :| e in l && Index(e, ext) == Some(i);
      SizeOfDistinct(l, ext, e);
      SizeOfDistinct(m, ext, e);
    }
  }

  lemma TotalSizeSnoc(l: seq<Entry>, e: Entry, ext: string)
    ensures TotalSize(l + [e], ext) == TotalSize(l, ext) + PartSizeOf(e, ext)
  {
    assert (l + [e])[..|l|] == l;
  }

  lemma {:induction false} TotalSizeRemove(l: seq<Entry>, ext: string, k: nat)
    requires k < |l|
    ensures TotalSize(l, ext) == TotalSize(l[..k] + l[k + 1..], ext) + PartSizeOf(l[k], ext)
    decreases |l|
  {
    hide TotalSize;
    var n := |l| - 1;
    var before := l[..n];
    assert l == before + [l[n]];
    TotalSizeSnoc(before, l[n], ext);
    if k == n {
      assert l[..k] + l[k + 1..] == before;
    } else {
      TotalSizeRemove(before, ext, k);
      var less := before[..k] + before[k + 1..];
      TotalSizeSnoc(less, l[n], ext);
      assert l[..k] + l[k + 1..] == less + [l[n]];
    }
  }

  lemma {:induction false} TotalSizePermuted(l: seq<Entry>, m: seq<Entry>, ext: string)
    requires multiset(l) == multiset(m)
    ensures TotalSize(l, ext) == TotalSize(m, ext)
    decreases |l|
  {
    if l == [] {
      assert |multiset(m)| == 0;
    } else {
      var k := WithoutLast(l, m);
      TotalSizeRemove(m, ext, k);
      TotalSizePermuted(l[..|l| - 1], m[..k] + m[k + 1..], ext);
    }
  }

  lemma WithoutLast<T>(l: seq<T>, m: seq<T>) returns (k: nat)
    requires multiset(l) == multiset(m) && l != []
    ensures k < |m| && m[k] == l[|l| - 1]
    ensures multiset(l[..|l| - 1]) == multiset(m[..k] + m[k + 1..])
  {
    var e, before := l[|l| - 1], l[..|l| - 1];
    assert l == before + [e] + [];
    TakenOut(before, e, []);
    assert before + [] == before;
    assert e in multiset(m);
    k :| 0 <= k < |m| && m[k] == e;
    assert m == m[..k] + [e] + m[k + 1..];
    TakenOut(m[..k], e, m[k + 1..]);
  }

  lemma TakenOut<T>(a: seq<T>, e: T, b: seq<T>)
    ensures multiset(a + b) == multiset(a + [e] + b) - multiset{e}
  {
  }

  /** Whatever order the backend lists the folder in, `Get` builds the same table, reports the same size
      and panics in the same cases. */
  lemma TableIgnoresListingOrder(l: seq<Entry>, m: seq<Entry>, ext: string, t: seq<int>, u: seq<int>)
    requires multiset(l) == multiset(m) && Distinct(l, ext) && Distinct(m, ext)
    requires IsTable(l, ext, t) && IsTable(m, ext, u)
    ensures t == u && TotalSize(l, ext) == TotalSize(m, ext)
    ensures HasNegative(l, ext) == HasNegative(m, ext) && SizeOf(l, ext, 0) == SizeOf(m, ext, 0)
  {
    forall i: int ensures SizeOf(l, ext, i) == SizeOf(m, ext, i) { SizeOfPermuted(l, m, ext, i); }
    TotalSizePermuted(l, m, ext);
    assert |t| == |u| by {
      assert |t| > 1 ==> |t| - 1 < |u|;
      assert |u| > 1 ==> |u| - 1 < |t|;
    }
  }

  /** A subfolder is never taken for a part, whatever its name. */
  lemma SubfoldersDoNotCount(l: seq<Entry>, ext: string, d: Entry)
    requires d.isDir
    ensures TotalSize(l + [d], ext) == TotalSize(l, ext)
    ensures forall i: int :: SizeOf(l + [d], ext, i) == SizeOf(l, ext, i)
  {
    assert (l + [d])[..|l|] == l;
  }
}
