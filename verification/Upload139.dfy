/** drivers/139: planning the parts of an upload, asking for their addresses in batches of 100, and feeding the
    parts from one stream that is read once, front to back. */
module Upload139 {
  import opened Pieces
  import opened Streams
  import opened Units

  const BATCH: nat := 100

  datatype PartInfo = PartInfo(number: nat, size: int, offset: int)

  /** An upload address, as the server sends it: the number can be anything. */
  datatype PartUrl = PartUrl(number: int, url: string)

  datatype Sent = Sent(url: PartUrl, data: seq<byte>)

  // ---------- Planning ----------

  /** The setting is used as it is, if it is not 0. */
  function PartSize(custom: int, size: nat): (n: int)
    ensures custom >= 0 ==> n > 0
  {
    if custom != 0 then custom
    else if size / GB > 30 then 512 * MB
    else 100 * MB
  }

  /** Division as in Go, which rounds towards zero. */
  function Quotient(a: int, b: int): int
    requires b != 0
  {
    var q := (if a >= 0 then a else -a) / (if b >= 0 then b else -b);
    if (a >= 0) == (b >= 0) then q else -q
  }

  /** With the default sizes, files below 31 GB have at most 318 parts; from there on the parts are larger, so that a
      file has fewer parts than that up to 159 GB. */
  lemma DefaultPartCount(content: seq<byte>)
    ensures PartSize(0, |content|) == 512 * MB <==> |content| >= 31 * GB
    ensures |content| <= 159 * GB ==> |Split(content, PartSize(0, |content|))| <= 318
  {
    var n := PartSize(0, |content|);
    SplitCount(content, n);
    assert |content| <= 318 * n || |content| > 159 * GB;
    if n < |content| <= 318 * n {
      assert (|content| + n - 1) / n <= 318;
    }
  }

  /** `infos` describes the pieces of every content of this size: their numbers, lengths and places. */
  ghost predicate Describes(infos: seq<PartInfo>, pieces: seq<seq<byte>>, n: nat) {
    && |infos| == |pieces|
    && forall i :: 0 <= i < |infos| ==> infos[i] == PartInfo(i + 1, |pieces[i]|, i * n)
  }

  lemma InfoAt(content: seq<byte>, n: nat, i: nat)
    requires n > 0 && i < |Split(content, n)|
    ensures i * n <= |content|
    ensures |Split(content, n)[i]| == if |content| - i * n <= n then |content| - i * n else n
    ensures content[i * n..i * n + |Split(content, n)[i]|] == Split(content, n)[i]
  {
    SplitAt(content, n, i);
    assert (i + 1) * n == i * n + n;
  }

  /** How many parts are planned for a negative part size. */
  function OddParts(custom: int, size: nat): int
    requires custom < 0
  {
    Quotient(size + custom - 1, custom)
  }

  lemma OddPartsAre(custom: int, size: nat)
    requires custom < 0
    ensures OddParts(custom, size) < 0 <==> size > -2 * custom
    ensures OddParts(custom, size) == 2 <==> size == 0 && custom == -1
    ensures OddParts(custom, size) == 1 <==> size == 1 || (size == 0 && custom < -1)
    ensures OddParts(custom, size) <= 2
  {
    var p := -custom;
    if size > p {
      Bands(size - p - 1, p);
      assert OddParts(custom, size) == -((size - p - 1) / p);
    } else {
      Bands(p + 1 - size, p);
      assert OddParts(custom, size) == (p + 1 - size) / p;
    }
    hide OddParts;
  }

  lemma Bands(a: nat, p: nat)
    requires p > 0
    ensures a / p == 0 <==> a < p
    ensures p <= a < 2 * p ==> a / p == 1
    ensures p == 1 ==> a / p == a
  {
    if p <= a < 2 * p {
      QuotientIs(a, p, 1, a - p);
    }
    if a / p == 0 {
      assert a == a / p * p + a % p;
    }
  }

  /** A plan; `Panicked` because room was asked for a negative number of parts. */
  datatype Plan = Panicked | Canceled | Infos(infos: seq<PartInfo>)

  /** The parts tile the file: part k is the half-open interval [(k-1)*n, min(k*n, size)) of it. With a negative part
      size the planning panics if the file is longer than twice its absolute value; otherwise it plans one part or two
      for an empty file, one for a byte, and none for longer files, with the negative size as theirs. */
  method PersonalPartInfos(custom: int, size: nat, cancelled: bool, ghost content: seq<byte>) returns (r: Plan)
    requires |content| == size
    ensures custom >= 0 ==> r == Canceled || r.Infos?
    ensures custom >= 0 ==> (r.Canceled? <==> cancelled)
    ensures custom >= 0 && r.Infos? ==>
      Describes(r.infos, Split(content, PartSize(custom, size)), PartSize(custom, size))
    ensures custom > 0 && r.Infos? ==> Describes(r.infos, Split(content, custom), custom)
    ensures custom < 0 ==> (r.Panicked? <==> size > -2 * custom)
    ensures custom < 0 ==> (r.Canceled? <==> cancelled && size <= 1 && size <= -2 * custom)
    ensures custom < 0 && r.Infos? ==>
      |r.infos| == if size > 1 then 0 else if size == 0 && custom == -1 then 2 else 1
    ensures custom < 0 && r.Infos? ==>
      forall i :: 0 <= i < |r.infos| ==> r.infos[i] == PartInfo(i + 1, custom, i * custom)
  {
    var n := PartSize(custom, size);
    var part := 1;
    if size > n {
      part := Quotient(size + n - 1, n);
    }
    if custom < 0 {
      OddPartsAre(custom, size);
    }
    if part < 0 {
      return Panicked;
    }
    if n > 0 {
      SplitCount(content, n);
      assert part == |Split(content, n)|;
    }
    var infos := [];
    hide PartSize, Split, Quotient, OddParts;
    for i := 0 to part
      invariant |infos| == i && (cancelled ==> i == 0)
      invariant n > 0 ==> forall j :: 0 <= j < i ==> infos[j] == PartInfo(j + 1, |Split(content, n)[j]|, j * n)
      invariant n < 0 ==> forall j :: 0 <= j < i ==> infos[j] == PartInfo(j + 1, n, j * n)
    {
      if cancelled {
        return Canceled;
      }
      if n > 0 {
        InfoAt(content, n, i);
      }
      var start := i * n;
      var byteSize := if size - start <= n then size - start else n;
      assert n < 0 ==> start <= 0;
      infos := infos + [PartInfo(i + 1, byteSize, start)];
    }
    assert n > 0 ==> part >= 1 by { if n > 0 { SplitAtMost(content, n); } }
    return Infos(infos);
  }

  // ---------- One batch ----------

  ghost predicate Sorted(us: seq<PartUrl>) {
    forall i, j :: 0 <= i < j < |us| ==> us[i].number <= us[j].number
  }

  /** All but element `j` of the first `n` is sorted, and it is not below what follows it. */
  ghost predicate SortedBut(us: seq<PartUrl>, j: nat, n: nat)
    requires j < n <= |us|
  {
    && (forall x, y :: 0 <= x < y < n && x != j && y != j ==> us[x].number <= us[y].number)
    && forall y :: j < y < n ==> us[j].number <= us[y].number
  }

  function Swapped(us: seq<PartUrl>, j: nat): seq<PartUrl>
    requires 0 < j < |us|
  {
    us[j - 1 := us[j]][j := us[j - 1]]
  }

  lemma SwapKeeps(us: seq<PartUrl>, j: nat, n: nat)
    requires 0 < j < n <= |us| && SortedBut(us, j, n) && us[j - 1].number > us[j].number
    ensures SortedBut(Swapped(us, j), j - 1, n)
    ensures multiset(Swapped(us, j)) == multiset(us)
  {
  }

  /** Sorting the addresses in place by their part numbers. */
  method SortByNumber(a: array<PartUrl>)
    modifies a
    ensures Sorted(a[..]) && multiset(a[..]) == multiset(old(a[..]))
  {
    for i := 0 to a.Length
      invariant Sorted(a[..i]) && multiset(a[..]) == multiset(old(a[..]))
    {
      Sink(a, i);
      assert a[..][..i + 1] == a[..i + 1];
    }
    assert a[..a.Length] == a[..];
  }

  /** Element `i` on its way down, now at `j`. */
  ghost predicate Sinking(us: seq<PartUrl>, was: seq<PartUrl>, j: nat, i: nat) {
    j <= i < |us| == |was| && SortedBut(us, j, i + 1) && multiset(us) == multiset(was)
  }

  method Sink(a: array<PartUrl>, i: nat)
    requires i < a.Length && Sorted(a[..i])
    modifies a
    ensures Sorted(a[..][..i + 1]) && multiset(a[..]) == multiset(old(a[..]))
  {
    ghost var was := a[..];
    assert was[..i] == a[..i];
    SinkBegins(was, i);
    hide Sinking, Sorted;
    var j := i;
    while j > 0 && a[j - 1].number > a[j].number
      invariant 0 <= j <= i && Sinking(a[..], was, j, i)
    {
      SinkStep(a[..], was, j, i);
      SwapAt(a, j);
      j := j - 1;
    }
    SinkEnds(a[..], was, j, i);
  }

  method SwapAt(a: array<PartUrl>, j: nat)
    requires 0 < j < a.Length
    modifies a
    ensures a[..] == Swapped(old(a[..]), j)
  {
    a[j - 1], a[j] := a[j], a[j - 1];
  }

  lemma SinkBegins(us: seq<PartUrl>, i: nat)
    requires i < |us| && Sorted(us[..i])
    ensures Sinking(us, us, i, i)
  {
    assert forall x :: 0 <= x < i ==> us[..i][x] == us[x];
  }

  lemma SinkStep(us: seq<PartUrl>, was: seq<PartUrl>, j: nat, i: nat)
    requires Sinking(us, was, j, i) && j > 0 && us[j - 1].number > us[j].number
    ensures Sinking(Swapped(us, j), was, j - 1, i)
  {
    SwapKeeps(us, j, i + 1);
  }

  lemma SinkEnds(us: seq<PartUrl>, was: seq<PartUrl>, j: nat, i: nat)
    requires Sinking(us, was, j, i) && (j > 0 ==> us[j - 1].number <= us[j].number)
    ensures Sorted(us[..i + 1]) && multiset(us) == multiset(was)
  {
    forall x, y | 0 <= x < y < i + 1 ensures us[x].number <= us[y].number {
      if y == j && x < j - 1 {
        assert us[x].number <= us[j - 1].number;
      }
    }
  }

  predicate Accepts(u: PartUrl, count: nat, failing: set<int>) {
    1 <= u.number <= count && u.number !in failing
  }

  ghost predicate AllAccepted(us: seq<PartUrl>, count: nat, failing: set<int>) {
    forall i :: 0 <= i < |us| ==> Accepts(us[i], count, failing)
  }

  /** How much a reader limited to `x` bytes gives of `y`. */
  function Min(x: int, y: nat): nat { if x < 0 then 0 else if x <= y then x else y }

  /** Dealing the stream out to the addresses in order, up to the first one that is invalid or fails. */
  ghost function Deal(us: seq<PartUrl>, infos: seq<PartInfo>, failing: set<int>, s: seq<byte>): seq<Sent> {
    if us == [] || !Accepts(us[0], |infos|, failing) then []
    else
      var n := Min(infos[us[0].number - 1].size, |s|);
      [Sent(us[0], s[..n])] + Deal(us[1..], infos, failing, s[n..])
  }

  /** What is left of the stream afterwards. */
  ghost function Left(us: seq<PartUrl>, infos: seq<PartInfo>, s: seq<byte>): seq<byte>
    requires AllAccepted(us, |infos|, {})
  {
    if us == [] then s
    else
      assert Accepts(us[0], |infos|, {});
      Left(us[1..], infos, s[Min(infos[us[0].number - 1].size, |s|)..])
  }

  /** After `i` addresses: what is sent and what the stream still holds add up to the whole deal. */
  ghost predicate Dealing(us: seq<PartUrl>, i: nat, infos: seq<PartInfo>, failing: set<int>, all: seq<byte>,
      rest: seq<byte>, sent: seq<Sent>)
    requires i <= |us|
  {
    && AllAccepted(us[..i], |infos|, failing)
    && sent + Deal(us[i..], infos, failing, rest) == Deal(us, infos, failing, all)
    && (AllAccepted(us, |infos|, {}) ==> Left(us[i..], infos, rest) == Left(us, infos, all))
  }

  lemma DealBegin(us: seq<PartUrl>, infos: seq<PartInfo>, failing: set<int>, all: seq<byte>)
    ensures Dealing(us, 0, infos, failing, all, all, [])
  {
    assert us[0..] == us;
    assert [] + Deal(us, infos, failing, all) == Deal(us, infos, failing, all);
  }

  lemma DealStep(us: seq<PartUrl>, i: nat, infos: seq<PartInfo>, failing: set<int>, all: seq<byte>, rest: seq<byte>,
      sent: seq<Sent>, part: seq<byte>)
    requires i < |us| && Dealing(us, i, infos, failing, all, rest, sent)
    requires 1 <= us[i].number <= |infos| && us[i].number !in failing
    requires part == rest[..Min(infos[us[i].number - 1].size, |rest|)]
    ensures Dealing(us, i + 1, infos, failing, all, rest[|part|..], sent + [Sent(us[i], part)])
  {
    Taken(us[i], infos, failing, rest, part);
    AcceptedUpTo(us, i, infos, failing);
    DealAt(us, i, infos, failing, rest, part, sent);
    if AllAccepted(us, |infos|, {}) {
      LeftAt(us, i, infos, rest, |part|);
    }
    hide Deal, Left, AllAccepted, Accepts, Min;
  }

  lemma DealAt(us: seq<PartUrl>, i: nat, infos: seq<PartInfo>, failing: set<int>, rest: seq<byte>, part: seq<byte>,
      sent: seq<Sent>)
    requires i < |us| && Accepts(us[i], |infos|, failing) && part <= rest
    requires |part| == Min(infos[us[i].number - 1].size, |rest|)
    ensures sent + Deal(us[i..], infos, failing, rest)
      == (sent + [Sent(us[i], part)]) + Deal(us[i + 1..], infos, failing, rest[|part|..])
  {
    assert us[i..][0] == us[i] && us[i..][1..] == us[i + 1..] && rest[..|part|] == part;
    DealHead(us[i..], infos, failing, rest, |part|);
    Regroup(sent, [Sent(us[i], part)], Deal(us[i + 1..], infos, failing, rest[|part|..]));
    hide Deal, Accepts, Min;
  }

  lemma Regroup<T>(a: seq<T>, b: seq<T>, c: seq<T>)
    ensures a + (b + c) == (a + b) + c
  {
  }

  lemma LeftAt(us: seq<PartUrl>, i: nat, infos: seq<PartInfo>, rest: seq<byte>, n: nat)
    requires i < |us| && AllAccepted(us, |infos|, {}) && Accepts(us[i], |infos|, {})
    requires n == Min(infos[us[i].number - 1].size, |rest|)
    ensures AllAccepted(us[i..], |infos|, {}) && AllAccepted(us[i + 1..], |infos|, {}) && n <= |rest|
    ensures Left(us[i + 1..], infos, rest[n..]) == Left(us[i..], infos, rest)
  {
    AcceptedRest(us, i, infos);
    assert us[i..][0] == us[i];
    assert us[i..][1..] == us[i + 1..];
    LeftHead(us[i..], infos, rest, n);
    hide Left, AllAccepted, Accepts, Min;
  }

  lemma AcceptedUpTo(us: seq<PartUrl>, i: nat, infos: seq<PartInfo>, failing: set<int>)
    requires i < |us| && AllAccepted(us[..i], |infos|, failing) && Accepts(us[i], |infos|, failing)
    ensures AllAccepted(us[..i + 1], |infos|, failing)
  {
    hide Accepts;
  }

  lemma Taken(u: PartUrl, infos: seq<PartInfo>, failing: set<int>, rest: seq<byte>, part: seq<byte>)
    requires 1 <= u.number <= |infos| && u.number !in failing
    requires part == rest[..Min(infos[u.number - 1].size, |rest|)]
    ensures Accepts(u, |infos|, failing) && Accepts(u, |infos|, {})
    ensures |part| == Min(infos[u.number - 1].size, |rest|) && part == rest[..|part|]
  {
  }

  lemma AcceptedRest(us: seq<PartUrl>, i: nat, infos: seq<PartInfo>)
    requires i <= |us| && AllAccepted(us, |infos|, {})
    ensures AllAccepted(us[i..], |infos|, {})
  {
  }

  lemma DealEnd(us: seq<PartUrl>, i: nat, infos: seq<PartInfo>, failing: set<int>, all: seq<byte>, rest: seq<byte>,
      sent: seq<Sent>)
    requires i <= |us| && Dealing(us, i, infos, failing, all, rest, sent)
    requires i == |us| || us[i].number < 1 || us[i].number > |infos| || us[i].number in failing
    ensures sent == Deal(us, infos, failing, all)
    ensures AllAccepted(us, |infos|, failing) <==> i == |us|
    ensures i == |us| ==> AllAccepted(us, |infos|, {}) && rest == Left(us, infos, all)
  {
    if i == |us| {
      assert us[..i] == us;
    }
  }

  /** uploadPersonalParts. `failing` holds the part numbers that the server refuses. */
  method UploadParts(infos: seq<PartInfo>, urls: array<PartUrl>, stream: Reader, failing: set<int>)
    returns (sent: seq<Sent>, ok: bool)
    requires stream.Valid()
    modifies urls, stream
    ensures Sorted(urls[..]) && multiset(urls[..]) == multiset(old(urls[..]))
    ensures stream.Valid() && sent == Deal(urls[..], infos, failing, old(stream.Rest()))
    ensures ok <==> AllAccepted(urls[..], |infos|, failing)
    ensures ok ==> AllAccepted(urls[..], |infos|, {}) && stream.Rest() == Left(urls[..], infos, old(stream.Rest()))
  {
    SortByNumber(urls);
    ghost var us, all := urls[..], stream.Rest();
    sent := [];
    DealBegin(us, infos, failing, all);
    hide Deal, Left, Dealing, AllAccepted, Accepts, Min, Sorted;
    for i := 0 to urls.Length
      invariant urls[..] == us && stream.Valid() && Dealing(us, i, infos, failing, all, stream.Rest(), sent)
    {
      var u := urls[i];
      ghost var rest := stream.Rest();
      var index := u.number - 1;
      if index < 0 || index >= |infos| {
        DealEnd(us, i, infos, failing, all, rest, sent);
        return sent, false;
      }
      var part := stream.Read(if infos[index].size < 0 then 0 else infos[index].size);
      if u.number in failing {
        DealEnd(us, i, infos, failing, all, rest, sent);
        return sent, false;
      }
      DealStep(us, i, infos, failing, all, rest, sent, part);
      sent := sent + [Sent(u, part)];
    }
    DealEnd(us, urls.Length, infos, failing, all, stream.Rest(), sent);
    return sent, true;
  }

  // ---------- Every byte at most once, in order ----------

  function Data(sent: seq<Sent>): seq<seq<byte>> {
    seq(|sent|, i requires 0 <= i < |sent| => sent[i].data)
  }

  lemma DataConcat(a: seq<Sent>, b: seq<Sent>)
    ensures Concat(Data(a + b)) == Concat(Data(a)) + Concat(Data(b))
  {
    ConcatAppend(Data(a), Data(b));
    assert Data(a + b) == Data(a) + Data(b);
  }

  lemma DealHead(us: seq<PartUrl>, infos: seq<PartInfo>, failing: set<int>, s: seq<byte>, n: nat)
    requires us != [] && Accepts(us[0], |infos|, failing) && n == Min(infos[us[0].number - 1].size, |s|)
    ensures Deal(us, infos, failing, s) == [Sent(us[0], s[..n])] + Deal(us[1..], infos, failing, s[n..])
  {
  }

  lemma LeftHead(us: seq<PartUrl>, infos: seq<PartInfo>, s: seq<byte>, n: nat)
    requires us != [] && AllAccepted(us, |infos|, {})
    requires Accepts(us[0], |infos|, {}) ==> n == Min(infos[us[0].number - 1].size, |s|)
    ensures n <= |s| && AllAccepted(us[1..], |infos|, {}) && Left(us, infos, s) == Left(us[1..], infos, s[n..])
  {
  }

  lemma AcceptedHead(us: seq<PartUrl>, infos: seq<PartInfo>, failing: set<int>)
    requires us != []
    ensures AllAccepted(us, |infos|, failing)
      <==> Accepts(us[0], |infos|, failing) && AllAccepted(us[1..], |infos|, failing)
    ensures AllAccepted(us, |infos|, failing) ==> AllAccepted(us, |infos|, {})
  {
    assert us == [us[0]] + us[1..];
  }

  lemma {:induction false} DealConserves(us: seq<PartUrl>, infos: seq<PartInfo>, failing: set<int>, s: seq<byte>)
    ensures Concat(Data(Deal(us, infos, failing, s))) <= s
    ensures AllAccepted(us, |infos|, failing) && AllAccepted(us, |infos|, {}) ==>
      Concat(Data(Deal(us, infos, failing, s))) + Left(us, infos, s) == s
    decreases |us|
  {
    if us == [] || !Accepts(us[0], |infos|, failing) {
      return;
    }
    hide Deal, Left, AllAccepted, Concat, Data;
    var n := Min(infos[us[0].number - 1].size, |s|);
    DealHead(us, infos, failing, s, n);
    AcceptedHead(us, infos, failing);
    DealConserves(us[1..], infos, failing, s[n..]);
    var head, tail := Sent(us[0], s[..n]), Deal(us[1..], infos, failing, s[n..]);
    if AllAccepted(us, |infos|, failing) {
      LeftHead(us, infos, s, n);
      HeadConserves(head, tail, Left(us[1..], infos, s[n..]), s, n);
    } else {
      HeadConserves(head, tail, [], s, n);
    }
  }

  lemma HeadConserves(head: Sent, tail: seq<Sent>, left: seq<byte>, s: seq<byte>, n: nat)
    requires n <= |s| && head.data == s[..n] && Concat(Data(tail)) <= s[n..]
    ensures Concat(Data([head] + tail)) <= s
    ensures Concat(Data(tail)) + left == s[n..] ==> Concat(Data([head] + tail)) + left == s
  {
    DataConcat([head], tail);
    assert Data([head]) == [s[..n]];
    ConcatSnoc([], s[..n]);
    hide Concat, Data;
    var x := Concat(Data(tail));
    assert s == s[..n] + s[n..];
    assert s[..n] + (x + left) == s[..n] + x + left;
  }

  // ---------- Parts and pieces ----------

  /** The first `k` pieces were sent, each once, to the address with its number. */
  ghost predicate Delivered(sent: seq<Sent>, pieces: seq<seq<byte>>, k: nat)
    requires k <= |pieces|
  {
    |sent| == k && forall i :: 0 <= i < k ==> sent[i].url.number == i + 1 && sent[i].data == pieces[i]
  }

  ghost predicate Has(us: seq<PartUrl>, k: int) {
    exists i :: 0 <= i < |us| && us[i].number == k
  }

  /** As many addresses as parts were asked for, in any order, every requested number among them. */
  ghost predicate Answers(us: seq<PartUrl>, lo: nat, hi: nat) {
    |us| == hi - lo && forall k :: lo < k <= hi ==> Has(us, k)
  }

  lemma {:induction false} SortedAnswer(us: seq<PartUrl>, lo: nat, hi: nat)
    requires Sorted(us) && lo <= hi && forall k :: lo < k <= hi ==> Has(us, k)
    ensures |us| >= hi - lo
    ensures |us| == hi - lo ==> forall j :: 0 <= j < |us| ==> us[j].number == lo + 1 + j
    decreases hi
  {
    if hi > lo {
      assert Has(us, hi);
      var p :| 0 <= p < |us| && us[p].number == hi;
      forall k | lo < k <= hi - 1 ensures Has(us[..p], k) {
        assert Has(us, k);
        var i :| 0 <= i < |us| && us[i].number == k;
        assert i < p && us[..p][i].number == k;
      }
      SortedAnswer(us[..p], lo, hi - 1);
      assert forall j :: 0 <= j < p ==> us[j] == us[..p][j];
    }
  }

  lemma PermutedAnswer(us: seq<PartUrl>, vs: seq<PartUrl>, lo: nat, hi: nat)
    requires multiset(us) == multiset(vs) && Answers(us, lo, hi)
    ensures Answers(vs, lo, hi)
  {
    assert |multiset(us)| == |multiset(vs)|;
    forall k | lo < k <= hi ensures Has(vs, k) {
      assert Has(us, k);
      var i :| 0 <= i < |us| && us[i].number == k;
      assert us[i] in multiset(vs);
    }
  }

  ghost predicate Consecutive(us: seq<PartUrl>, lo: nat) {
    forall j :: 0 <= j < |us| ==> us[j].number == lo + 1 + j
  }

  ghost predicate ArePieces(sent: seq<Sent>, us: seq<PartUrl>, pieces: seq<seq<byte>>, lo: nat) {
    && |sent| == |us| && lo + |us| <= |pieces|
    && forall j :: 0 <= j < |us| ==> sent[j] == Sent(us[j], pieces[lo + j])
  }

  lemma ArePiecesCons(tail: seq<Sent>, us: seq<PartUrl>, pieces: seq<seq<byte>>, lo: nat)
    requires us != [] && ArePieces(tail, us[1..], pieces, lo + 1)
    ensures ArePieces([Sent(us[0], pieces[lo])] + tail, us, pieces, lo)
  {
    assert forall j :: 0 < j < |us| ==> us[j] == us[1..][j - 1];
  }

  lemma ConsecutiveTail(us: seq<PartUrl>, lo: nat)
    requires us != [] && Consecutive(us, lo)
    ensures us[0].number == lo + 1 && Consecutive(us[1..], lo + 1)
  {
  }

  /** Dealing a stream that begins with piece `lo` to the numbers `lo + 1` and so on hands out those pieces. */
  lemma {:induction false} DealPieces(us: seq<PartUrl>, infos: seq<PartInfo>, failing: set<int>,
      pieces: seq<seq<byte>>, n: nat, lo: nat)
    requires Describes(infos, pieces, n) && lo + |us| <= |pieces| && AllAccepted(us, |infos|, failing) &&
      Consecutive(us, lo)
    ensures AllAccepted(us, |infos|, {}) && Left(us, infos, From(pieces, lo)) == From(pieces, lo + |us|)
    ensures ArePieces(Deal(us, infos, failing, From(pieces, lo)), us, pieces, lo)
    decreases |us|
  {
    if us == [] {
      return;
    }
    hide From, Left, Deal, Describes, AllAccepted, Consecutive, ArePieces;
    AcceptedHead(us, infos, failing);
    ConsecutiveTail(us, lo);
    FirstPiece(us, infos, failing, pieces, n, lo);
    DealPieces(us[1..], infos, failing, pieces, n, lo + 1);
    ArePiecesCons(Deal(us[1..], infos, failing, From(pieces, lo + 1)), us, pieces, lo);
  }

  lemma FirstPiece(us: seq<PartUrl>, infos: seq<PartInfo>, failing: set<int>, pieces: seq<seq<byte>>, n: nat, lo: nat)
    requires Describes(infos, pieces, n) && lo < |pieces|
    requires us != [] && AllAccepted(us, |infos|, failing) && AllAccepted(us, |infos|, {}) && us[0].number == lo + 1
    ensures Deal(us, infos, failing, From(pieces, lo)) ==
      [Sent(us[0], pieces[lo])] + Deal(us[1..], infos, failing, From(pieces, lo + 1))
    ensures AllAccepted(us[1..], |infos|, {}) &&
      Left(us, infos, From(pieces, lo)) == Left(us[1..], infos, From(pieces, lo + 1))
  {
    var s, m := From(pieces, lo), |pieces[lo]|;
    assert Accepts(us[0], |infos|, failing) && infos[lo] == PartInfo(lo + 1, m, lo * n);
    assert s[..m] == pieces[lo] && s[m..] == From(pieces, lo + 1);
    hide From, Left, Deal, Describes, AllAccepted;
    DealHead(us, infos, failing, s, m);
    LeftHead(us, infos, s, m);
  }

  ghost predicate Refuses(failing: set<int>, lo: nat, hi: nat) {
    exists k :: lo < k <= hi && k in failing
  }

  lemma DeliveredMore(sent: seq<Sent>, more: seq<Sent>, us: seq<PartUrl>, pieces: seq<seq<byte>>, lo: nat)
    requires lo + |us| <= |pieces| && Delivered(sent, pieces, lo) && ArePieces(more, us, pieces, lo) &&
      Consecutive(us, lo)
    ensures Delivered(sent + more, pieces, lo + |us|)
  {
  }

  // ---------- The whole upload ----------

  datatype Create = Refused | Exists | NoParts | Parts(urls: seq<PartUrl>)

  datatype Outcome = Crashed | Failed | AlreadyExists | NothingToSend | Completed

  // What the server answers

  /** The number of answers that an upload needs: one comes with the creation, and one for each further 100 parts. */
  function Batches(n: nat): nat {
    if n <= BATCH then 1 else (n + BATCH - 1) / BATCH
  }

  /** The first `m` answers; `more[i]` is the one to the request for the parts from `i + 1` on. */
  function Answered(first: seq<PartUrl>, more: map<nat, seq<PartUrl>>, m: nat): seq<seq<PartUrl>>
    requires m > 0
  {
    if m == 1 then [first]
    else Answered(first, more, m - 1) + [if (m - 1) * BATCH in more then more[(m - 1) * BATCH] else []]
  }

  /** No request for more addresses fails. */
  ghost predicate NoneMissing(more: map<nat, seq<PartUrl>>, m: nat) {
    forall b :: 1 <= b < m ==> b * BATCH in more
  }

  /** Every number is that of a part, and the server takes what is sent there. */
  ghost predicate EachAccepted(answers: seq<seq<PartUrl>>, count: nat, failing: set<int>) {
    forall b :: 0 <= b < |answers| ==> AllAccepted(answers[b], count, failing)
  }

  function Count(answers: seq<seq<PartUrl>>): nat {
    if answers == [] then 0 else Count(answers[..|answers| - 1]) + |answers[|answers| - 1]|
  }

  /** Each answer has the next numbers, in whatever order. */
  ghost predicate InOrder(answers: seq<seq<PartUrl>>) {
    answers == [] || (
      var init := answers[..|answers| - 1];
      var last := answers[|answers| - 1];
      InOrder(init) && Answers(last, Count(init), Count(init) + |last|))
  }

  lemma AnswersSnoc(answers: seq<seq<PartUrl>>, us: seq<PartUrl>)
    ensures Count(answers + [us]) == Count(answers) + |us|
    ensures InOrder(answers + [us]) <==> InOrder(answers) && Answers(us, Count(answers), Count(answers) + |us|)
  {
    assert (answers + [us])[..|answers|] == answers;
  }

  lemma {:induction false} AnsweredPrefix(first: seq<PartUrl>, more: map<nat, seq<PartUrl>>, m: nat, k: nat)
    requires 0 < m <= k
    ensures Answered(first, more, m) <= Answered(first, more, k) && |Answered(first, more, k)| == k
  {
    if m < k {
      AnsweredPrefix(first, more, m, k - 1);
    } else if m > 1 {
      AnsweredPrefix(first, more, m - 1, m - 1);
    }
  }

  // How far the upload is

  /** The numbers to which something was sent are 1, 2, 3 and so on. */
  ghost predicate Numbered(sent: seq<Sent>) {
    forall i :: 0 <= i < |sent| ==> sent[i].url.number == i + 1
  }

  /** What was sent and what the stream holds make up the file. As long as the answers had the next numbers, exactly the
      first parts are sent; once they had not, the numbers are wrong for good. */
  ghost predicate Progress(infos: seq<PartInfo>, pieces: seq<seq<byte>>, n: nat, answers: seq<seq<PartUrl>>,
      sent: seq<Sent>, rest: seq<byte>)
  {
    && Concat(Data(sent)) + rest == Concat(pieces)
    && |sent| == Count(answers) && (Numbered(sent) <==> InOrder(answers))
    && (Describes(infos, pieces, n) && InOrder(answers) ==>
      |sent| <= |pieces| && Delivered(sent, pieces, |sent|) && rest == From(pieces, |sent|))
  }

  /** Sending the parts of one answer. */
  method SendBatch(infos: seq<PartInfo>, urls: seq<PartUrl>, stream: Reader, failing: set<int>, before: seq<Sent>,
      ghost pieces: seq<seq<byte>>, ghost n: nat, ghost answers: seq<seq<PartUrl>>)
    returns (sent: seq<Sent>, ok: bool)
    requires stream.Valid() && Progress(infos, pieces, n, answers, before, stream.Rest())
    modifies stream
    ensures stream.Valid() && Concat(Data(sent)) <= Concat(pieces)
    ensures ok <==> AllAccepted(urls, |infos|, failing)
    ensures ok ==> Progress(infos, pieces, n, answers + [urls], sent, stream.Rest())
  {
    var a := new PartUrl[|urls|](i requires 0 <= i < |urls| => urls[i]);
    assert a[..] == urls;
    ghost var rest := stream.Rest();
    hide Progress, Deal, Left, Data, Concat, Sorted, AllAccepted;
    var more;
    more, ok := UploadParts(infos, a, stream, failing);
    sent := before + more;
    PermutedAccepted(a[..], urls, |infos|, failing);
    SentIsPrefix(infos, a[..], failing, pieces, n, answers, before, rest);
    if ok {
      BatchProgress(infos, urls, a[..], failing, pieces, n, answers, before, rest);
    }
  }

  lemma PermutedAccepted(us: seq<PartUrl>, vs: seq<PartUrl>, count: nat, failing: set<int>)
    requires multiset(us) == multiset(vs)
    ensures AllAccepted(us, count, failing) <==> AllAccepted(vs, count, failing)
  {
    assert forall u :: u in us <==> u in multiset(us);
    assert forall u :: u in vs <==> u in multiset(vs);
    assert AllAccepted(us, count, failing) <==> forall u :: u in us ==> Accepts(u, count, failing);
    assert AllAccepted(vs, count, failing) <==> forall u :: u in vs ==> Accepts(u, count, failing);
  }

  lemma SentIsPrefix(infos: seq<PartInfo>, us: seq<PartUrl>, failing: set<int>, pieces: seq<seq<byte>>, n: nat,
      answers: seq<seq<PartUrl>>, before: seq<Sent>, rest: seq<byte>)
    requires Progress(infos, pieces, n, answers, before, rest)
    ensures Concat(Data(before + Deal(us, infos, failing, rest))) <= Concat(pieces)
    ensures AllAccepted(us, |infos|, failing) && AllAccepted(us, |infos|, {}) ==>
      Concat(Data(before + Deal(us, infos, failing, rest))) + Left(us, infos, rest) == Concat(pieces)
  {
    var more := Deal(us, infos, failing, rest);
    DataConcat(before, more);
    DealConserves(us, infos, failing, rest);
    hide Deal, Left, Data, Concat, AllAccepted, InOrder, Count, Describes, Delivered, Numbered, From;
    var x, y := Concat(Data(before)), Concat(Data(more));
    assert rest == y + rest[|y|..] && x + (y + rest[|y|..]) == x + y + rest[|y|..];
    if AllAccepted(us, |infos|, failing) && AllAccepted(us, |infos|, {}) {
      var left := Left(us, infos, rest);
      assert x + (y + left) == x + y + left;
    }
  }

  /** Accepted addresses each get something, in their order. */
  lemma {:induction false} DealNumbers(us: seq<PartUrl>, infos: seq<PartInfo>, failing: set<int>, s: seq<byte>)
    requires AllAccepted(us, |infos|, failing)
    ensures |Deal(us, infos, failing, s)| == |us|
    ensures forall j :: 0 <= j < |us| ==> Deal(us, infos, failing, s)[j].url == us[j]
    decreases |us|
  {
    if us != [] {
      AcceptedHead(us, infos, failing);
      var n := Min(infos[us[0].number - 1].size, |s|);
      DealHead(us, infos, failing, s, n);
      DealNumbers(us[1..], infos, failing, s[n..]);
    }
  }

  /** Sorted addresses have the next numbers one by one if and only if the answer had them in some order. */
  lemma SortedIsConsecutive(urls: seq<PartUrl>, us: seq<PartUrl>, lo: nat)
    requires Sorted(us) && multiset(us) == multiset(urls)
    ensures Answers(urls, lo, lo + |urls|) <==> Consecutive(us, lo)
  {
    SameCount(us, urls);
    if Answers(urls, lo, lo + |urls|) {
      PermutedAnswer(urls, us, lo, lo + |urls|);
      SortedAnswer(us, lo, lo + |urls|);
    }
    if Consecutive(us, lo) {
      forall k | lo < k <= lo + |us| ensures Has(us, k) {
        assert us[k - lo - 1].number == k;
      }
      PermutedAnswer(us, urls, lo, lo + |us|);
    }
  }

  lemma NumberedMore(sent: seq<Sent>, more: seq<Sent>, us: seq<PartUrl>)
    requires |more| == |us| && forall j :: 0 <= j < |us| ==> more[j].url == us[j]
    ensures Numbered(sent + more) <==> Numbered(sent) && Consecutive(us, |sent|)
  {
    var all := sent + more;
    assert forall i :: 0 <= i < |sent| ==> all[i] == sent[i];
    assert forall j :: 0 <= j < |more| ==> all[|sent| + j] == more[j];
    if Numbered(all) {
      forall j | 0 <= j < |us| ensures us[j].number == |sent| + 1 + j {
        assert all[|sent| + j].url.number == |sent| + j + 1;
      }
    }
  }

  lemma BatchProgress(infos: seq<PartInfo>, urls: seq<PartUrl>, us: seq<PartUrl>, failing: set<int>,
      pieces: seq<seq<byte>>, n: nat, answers: seq<seq<PartUrl>>, before: seq<Sent>, rest: seq<byte>)
    requires Progress(infos, pieces, n, answers, before, rest)
    requires Sorted(us) && multiset(us) == multiset(urls)
    requires AllAccepted(us, |infos|, failing) && AllAccepted(us, |infos|, {})
    ensures Progress(infos, pieces, n, answers + [urls], before + Deal(us, infos, failing, rest), Left(us, infos, rest))
  {
    hide Deal, Left, From, Sorted, Answers, AllAccepted, Consecutive, Concat, Data, Numbered, InOrder, Count;
    hide Describes, Delivered;
    var more := Deal(us, infos, failing, rest);
    var lo := |before|;
    AnswersSnoc(answers, urls);
    SentIsPrefix(infos, us, failing, pieces, n, answers, before, rest);
    DealNumbers(us, infos, failing, rest);
    SortedIsConsecutive(urls, us, lo);
    NumberedMore(before, more, us);
    SameCount(us, urls);
    if Describes(infos, pieces, n) && InOrder(answers + [urls]) {
      BatchDelivers(infos, us, failing, pieces, n, before);
    }
  }

  lemma SameCount(us: seq<PartUrl>, vs: seq<PartUrl>)
    requires multiset(us) == multiset(vs)
    ensures |us| == |vs|
  {
    assert |us| == |multiset(us)| == |multiset(vs)| == |vs|;
  }

  /** An answer with the next numbers, dealt to from the next piece on, delivers its pieces. */
  lemma BatchDelivers(infos: seq<PartInfo>, us: seq<PartUrl>, failing: set<int>, pieces: seq<seq<byte>>, n: nat,
      before: seq<Sent>)
    requires Describes(infos, pieces, n) && |before| <= |pieces| && Delivered(before, pieces, |before|)
    requires AllAccepted(us, |infos|, failing) && Consecutive(us, |before|)
    ensures |before| + |us| <= |pieces|
    ensures Delivered(before + Deal(us, infos, failing, From(pieces, |before|)), pieces, |before| + |us|)
    ensures AllAccepted(us, |infos|, {})
    ensures Left(us, infos, From(pieces, |before|)) == From(pieces, |before| + |us|)
  {
    hide Deal, Left, From, Describes, AllAccepted, Consecutive, ArePieces, Delivered;
    LastNumberFits(us, infos, failing, pieces, n, |before|);
    DealPieces(us, infos, failing, pieces, n, |before|);
    DeliveredMore(before, Deal(us, infos, failing, From(pieces, |before|)), us, pieces, |before|);
  }

  /** The last of the next numbers is still that of a part. */
  lemma LastNumberFits(us: seq<PartUrl>, infos: seq<PartInfo>, failing: set<int>, pieces: seq<seq<byte>>, n: nat,
      lo: nat)
    requires Describes(infos, pieces, n) && AllAccepted(us, |infos|, failing) && Consecutive(us, lo) && lo <= |pieces|
    ensures lo + |us| <= |pieces|
  {
    if us != [] {
      assert Accepts(us[|us| - 1], |infos|, failing);
    }
  }

  lemma BatchesAre(n: nat, m: nat)
    requires m >= 1
    ensures m * BATCH < n ==> m < Batches(n)
    ensures m * BATCH >= n && (m == 1 || (m - 1) * BATCH < n) ==> m == Batches(n)
  {
  }

  /** The batches: the one that came with the creation and those asked for afterwards. It ends well exactly if every
      request is answered, with numbers of parts that are taken. Then every part is delivered exactly if the answers
      had all the numbers, each the next ones in some order. */
  method SendAll(infos: seq<PartInfo>, urls: seq<PartUrl>, more: map<nat, seq<PartUrl>>, stream: Reader,
      failing: set<int>, ghost pieces: seq<seq<byte>>, ghost n: nat)
    returns (sent: seq<Sent>, ok: bool)
    requires stream.Valid() && Progress(infos, pieces, n, [], [], stream.Rest())
    modifies stream
    ensures Concat(Data(sent)) <= Concat(pieces)
    ensures var m := Batches(|infos|);
      ok <==> NoneMissing(more, m) && EachAccepted(Answered(urls, more, m), |infos|, failing)
    ensures ok ==> stream.Valid()
    ensures ok ==> Progress(infos, pieces, n, Answered(urls, more, Batches(|infos|)), sent, stream.Rest())
  {
    hide Progress, Data, Concat, EachAccepted, NoneMissing, Batches;
    ghost var count, m := |infos|, 1;
    BatchesAre(count, 1);
    AnsweredFrom(urls, more, 1, count, failing);
    assert [] + [urls] == Answered(urls, more, 1);
    sent, ok := SendBatch(infos, urls, stream, failing, [], pieces, n, []);
    if !ok {
      return;
    }
    var i := BATCH;
    while i < |infos|
      invariant 1 <= m && i == m * BATCH && m <= Batches(count) && stream.Valid()
      invariant m == 1 || (m - 1) * BATCH < count
      invariant Progress(infos, pieces, n, Answered(urls, more, m), sent, stream.Rest())
      invariant Concat(Data(sent)) <= Concat(pieces)
      invariant NoneMissing(more, m) && EachAccepted(Answered(urls, more, m), count, failing)
    {
      BatchesAre(count, m);
      AnsweredFrom(urls, more, m + 1, count, failing);
      AnsweredNext(urls, more, m, count, failing);
      if i !in more {
        return sent, false;
      }
      sent, ok := SendBatch(infos, more[i], stream, failing, sent, pieces, n, Answered(urls, more, m));
      if !ok {
        return;
      }
      m := m + 1;
      i := i + BATCH;
    }
    BatchesAre(count, m);
    return sent, true;
  }

  /** What all answers need, the first `m` of them need. */
  lemma AnsweredFrom(first: seq<PartUrl>, more: map<nat, seq<PartUrl>>, m: nat, count: nat, failing: set<int>)
    requires m >= 1
    ensures m <= Batches(count) && NoneMissing(more, Batches(count)) ==> NoneMissing(more, m)
    ensures m <= Batches(count) && EachAccepted(Answered(first, more, Batches(count)), count, failing) ==>
      EachAccepted(Answered(first, more, m), count, failing)
    ensures m == 1 ==> NoneMissing(more, 1)
    ensures m == 1 ==> (EachAccepted(Answered(first, more, 1), count, failing) <==> AllAccepted(first, count, failing))
  {
    AnsweredPrefix(first, more, m, m);
    hide AllAccepted;
    assert Answered(first, more, 1)[0] == first && |Answered(first, more, 1)| == 1;
    if m <= Batches(count) {
      AnsweredPrefix(first, more, m, Batches(count));
    }
  }

  lemma AnsweredNext(first: seq<PartUrl>, more: map<nat, seq<PartUrl>>, m: nat, count: nat, failing: set<int>)
    requires m >= 1 && NoneMissing(more, m) && EachAccepted(Answered(first, more, m), count, failing)
    ensures NoneMissing(more, m + 1) <==> m * BATCH in more
    ensures m * BATCH in more ==> Answered(first, more, m + 1) == Answered(first, more, m) + [more[m * BATCH]]
    ensures m * BATCH in more ==>
      (EachAccepted(Answered(first, more, m + 1), count, failing) <==> AllAccepted(more[m * BATCH], count, failing))
  {
    hide AllAccepted;
    var before := Answered(first, more, m);
    if m * BATCH in more {
      var all := before + [more[m * BATCH]];
      assert forall b :: 0 <= b < |before| ==> all[b] == before[b];
      assert all[|before|] == more[m * BATCH];
    }
  }

  // What proper answers bring

  /** Addresses that answer a request have exactly the numbers asked for. */
  lemma {:induction false} AnswersOnly(us: seq<PartUrl>, lo: nat, hi: nat)
    requires lo <= hi && Answers(us, lo, hi)
    ensures forall i :: 0 <= i < |us| ==> lo < us[i].number <= hi
    decreases hi
  {
    if lo < hi {
      assert Has(us, hi);
      var p :| 0 <= p < |us| && us[p].number == hi;
      var rest := us[..p] + us[p + 1..];
      forall k | lo < k <= hi - 1 ensures Has(rest, k) {
        assert Has(us, k);
        var i :| 0 <= i < |us| && us[i].number == k;
        assert if i < p then rest[i] == us[i] else rest[i - 1] == us[i];
      }
      AnswersOnly(rest, lo, hi - 1);
      forall i | 0 <= i < |us| && i != p ensures lo < us[i].number <= hi {
        assert if i < p then rest[i] == us[i] else rest[i - 1] == us[i];
      }
    }
  }

  lemma ProperAccepted(us: seq<PartUrl>, lo: nat, hi: nat, count: nat, failing: set<int>)
    requires lo <= hi <= count && Answers(us, lo, hi)
    ensures AllAccepted(us, count, failing) <==> !Refuses(failing, lo, hi)
  {
    AnswersOnly(us, lo, hi);
    if Refuses(failing, lo, hi) {
      var k :| lo < k <= hi && k in failing;
      assert Has(us, k);
    }
  }

  /** The end of the batch that begins after part `i`. */
  function BatchEnd(i: nat, n: nat): nat { if i + BATCH <= n then i + BATCH else n }

  /** Every batch of 100 parts is answered, with the numbers asked for. */
  ghost predicate ProperServer(create: Create, more: map<nat, seq<PartUrl>>, n: nat) {
    && create.Parts? && Answers(create.urls, 0, BatchEnd(0, n))
    && forall b :: 1 <= b < Batches(n) ==>
      b * BATCH in more && Answers(more[b * BATCH], b * BATCH, BatchEnd(b * BATCH, n))
  }

  lemma RefusesJoin(failing: set<int>, lo: nat, hi: nat)
    requires lo <= hi
    ensures Refuses(failing, 0, hi) <==> Refuses(failing, 0, lo) || Refuses(failing, lo, hi)
  {
    if Refuses(failing, 0, hi) {
      var k :| 0 < k <= hi && k in failing;
      assert k <= lo || lo < k;
    }
  }

  /** If every batch is answered with the numbers asked for, the answers have all the numbers, and they are accepted
      exactly if the server refuses no part. */
  lemma {:induction false} ProperAnswers(create: Create, more: map<nat, seq<PartUrl>>, n: nat, m: nat,
      failing: set<int>)
    requires ProperServer(create, more, n) && 1 <= m <= Batches(n)
    ensures var all := Answered(create.urls, more, m);
      && NoneMissing(more, m) && InOrder(all) && Count(all) == BatchEnd((m - 1) * BATCH, n)
      && (EachAccepted(all, n, failing) <==> !Refuses(failing, 0, BatchEnd((m - 1) * BATCH, n)))
  {
    var lo, hi := (m - 1) * BATCH, BatchEnd((m - 1) * BATCH, n);
    if m == 1 {
      ProperAccepted(create.urls, 0, hi, n, failing);
      AnswersSnoc([], create.urls);
      assert [] + [create.urls] == Answered(create.urls, more, 1);
      AnsweredFrom(create.urls, more, 1, n, failing);
    } else {
      ProperAnswers(create, more, n, m - 1, failing);
      BatchBefore(n, m);
      var us, before := more[lo], Answered(create.urls, more, m - 1);
      ProperAccepted(us, lo, hi, n, failing);
      AnswersSnoc(before, us);
      RefusesJoin(failing, lo, hi);
      EachSnoc(before, us, n, failing);
    }
  }

  lemma BatchBefore(n: nat, m: nat)
    requires 1 < m <= Batches(n)
    ensures (m - 1) * BATCH < n && BatchEnd((m - 2) * BATCH, n) == (m - 1) * BATCH
  {
  }

  lemma EachSnoc(answers: seq<seq<PartUrl>>, us: seq<PartUrl>, count: nat, failing: set<int>)
    ensures EachAccepted(answers + [us], count, failing)
      <==> EachAccepted(answers, count, failing) && AllAccepted(us, count, failing)
  {
    hide AllAccepted;
    var all := answers + [us];
    assert forall b :: 0 <= b < |answers| ==> all[b] == answers[b];
    assert all[|answers|] == us;
  }

  // personalPut

  /** personalPut from the creation of the file on. `more[i]` is the answer to the request for the parts from
      `i + 1` on; no entry means that the request fails. Whatever the server answers, the bytes sent are a prefix
      of the file, so no byte is sent twice or out of order. The upload completes exactly if every request is answered
      with numbers of parts that are taken, and then every part has received its piece exactly if the answers had all
      the numbers, each the next ones in some order. */
  method PersonalPut(custom: int, cancelled: bool, create: Create, more: map<nat, seq<PartUrl>>, failing: set<int>,
      completes: bool, stream: Reader)
    returns (outcome: Outcome, sent: seq<Sent>, ghost pieces: seq<seq<byte>>)
    requires stream.Valid() && stream.pos == 0
    modifies stream
    ensures custom >= 0 ==> pieces == Split(stream.data, PartSize(custom, |stream.data|))
    ensures custom > 0 ==> pieces == Split(stream.data, custom)
    ensures custom == 0 ==> pieces == Split(stream.data, if |stream.data| < 31 * GB then 100 * MB else 512 * MB)
    ensures outcome == Crashed <==> custom < 0 && |stream.data| > -2 * custom
    ensures outcome != Crashed && !(cancelled && (custom >= 0 || |stream.data| <= 1)) ==>
      && (outcome == AlreadyExists <==> create.Exists?)
      && (outcome == NothingToSend <==> create.NoParts?)
      && (create.Refused? ==> outcome == Failed && sent == [])
    ensures outcome != Crashed && cancelled && (custom >= 0 || |stream.data| <= 1) ==> outcome == Failed && sent == []
    ensures Concat(Data(sent)) <= stream.data
    ensures custom >= 0 && create.Parts? ==>
      var all := Answered(create.urls, more, Batches(|pieces|));
      && (outcome == Completed <==>
            !cancelled && completes && NoneMissing(more, Batches(|pieces|)) && EachAccepted(all, |pieces|, failing))
      && (outcome == Completed ==>
            (Delivered(sent, pieces, |pieces|) <==> InOrder(all) && Count(all) == |pieces|))
    ensures custom >= 0 && ProperServer(create, more, |pieces|) ==>
      (outcome == Completed <==> !cancelled && !Refuses(failing, 0, |pieces|) && completes)
    ensures custom >= 0 && ProperServer(create, more, |pieces|) && outcome == Completed ==>
      Delivered(sent, pieces, |pieces|)
    ensures !create.Parts? ==> outcome != Completed
    ensures outcome == AlreadyExists || outcome == NothingToSend || outcome == Crashed ==> sent == []
  {
    ghost var content, n := stream.Rest(), if custom < 0 then 1 else PartSize(custom, |stream.data|);
    assert content == stream.data;
    pieces := Split(content, n);
    sent := [];
    assert Concat(pieces) == content && Concat(Data([])) == [] by { StartsEmpty([], content, n); }
    var plan := PersonalPartInfos(custom, |stream.data|, cancelled, content);
    if custom >= 0 && ProperServer(create, more, |pieces|) {
      ProperUpload(create, more, pieces, failing);
    }
    hide Split, Concat, Data, Progress, Answers, Refuses, PartSize, Delivered, ProperServer, InOrder, Count;
    hide EachAccepted, NoneMissing, Answered, Batches;
    if plan.Panicked? {
      return Crashed, sent, pieces;
    }
    if plan.Canceled? || create.Refused? {
      return Failed, sent, pieces;
    }
    if create.Exists? {
      return AlreadyExists, sent, pieces;
    }
    if create.NoParts? {
      return NothingToSend, sent, pieces;
    }
    StartsEmpty(plan.infos, content, n);
    var ok;
    sent, ok := SendAll(plan.infos, create.urls, more, stream, failing, pieces, n);
    if ok && custom >= 0 {
      AllSent(plan.infos, pieces, n, Answered(create.urls, more, Batches(|pieces|)), sent, stream.Rest());
    }
    return if ok && completes then Completed else Failed, sent, pieces;
  }

  lemma ProperUpload(create: Create, more: map<nat, seq<PartUrl>>, pieces: seq<seq<byte>>, failing: set<int>)
    requires ProperServer(create, more, |pieces|)
    ensures var m := Batches(|pieces|);
      var all := Answered(create.urls, more, m);
      && create.Parts? && NoneMissing(more, m) && InOrder(all) && Count(all) == |pieces|
      && (EachAccepted(all, |pieces|, failing) <==> !Refuses(failing, 0, |pieces|))
  {
    ProperAnswers(create, more, |pieces|, Batches(|pieces|), failing);
    assert BatchEnd((Batches(|pieces|) - 1) * BATCH, |pieces|) == |pieces|;
  }

  /** For example, of a file of two parts only the first gets an address: nothing fails, and the upload completes
      without the second. */
  lemma ShortAnswerPasses(url: string)
    ensures var all := Answered([PartUrl(1, url)], map[], Batches(2));
      NoneMissing(map[], Batches(2)) && EachAccepted(all, 2, {}) && InOrder(all) && Count(all) == 1
  {
    var us := [PartUrl(1, url)];
    AnswersSnoc([], us);
    assert [] + [us] == [us] && us[0].number == 1;
    assert Has(us, 1);
  }

  /** At the end, the parts are delivered exactly if the answers had all the numbers. */
  lemma AllSent(infos: seq<PartInfo>, pieces: seq<seq<byte>>, n: nat, answers: seq<seq<PartUrl>>, sent: seq<Sent>,
      rest: seq<byte>)
    requires Progress(infos, pieces, n, answers, sent, rest) && Describes(infos, pieces, n)
    ensures Delivered(sent, pieces, |pieces|) <==> InOrder(answers) && Count(answers) == |pieces|
  {
    hide InOrder, Count, Describes, Concat, Data, From;
  }

  lemma StartsEmpty(infos: seq<PartInfo>, content: seq<byte>, n: nat)
    requires n > 0
    ensures Concat(Split(content, n)) == content && Concat(Data([])) == []
    ensures Progress(infos, Split(content, n), n, [], [], content)
  {
    ConcatSplit(content, n);
    SequentialRead(content, n);
    assert Data([]) == [];
  }
}
