/** Cutting a sequence into consecutive pieces of a fixed size, and gluing pieces together.
    Every splitter of the repository (chunk files, hash slices, upload parts) is proved against `Split`. */
module Pieces {

  function Concat<T>(parts: seq<seq<T>>): seq<T> {
    if parts == [] then [] else parts[0] + Concat(parts[1..])
  }

  /** The pieces of `s`: all of length `n` but the last, which is nonempty unless `s` is empty. */
  function Split<T>(s: seq<T>, n: nat): seq<seq<T>>
    requires n > 0
    decreases |s|
  {
    if |s| <= n then [s] else [s[..n]] + Split(s[n..], n)
  }

  lemma {:induction false} ConcatSplit<T>(s: seq<T>, n: nat)
    requires n > 0
    ensures Concat(Split(s, n)) == s
    decreases |s|
  {
    if |s| <= n {
      assert [s][1..] == [];
    } else {
      ConcatSplit(s[n..], n);
      assert Split(s, n)[1..] == Split(s[n..], n);
      assert s == s[..n] + s[n..];
    }
  }

  lemma {:induction false} ConcatAppend<T>(a: seq<seq<T>>, b: seq<seq<T>>)
    ensures Concat(a + b) == Concat(a) + Concat(b)
  {
    if a == [] {
      assert a + b == b;
    } else {
      ConcatAppend(a[1..], b);
      assert (a + b)[1..] == a[1..] + b && (a + b)[0] == a[0];
      assert a[0] + (Concat(a[1..]) + Concat(b)) == (a[0] + Concat(a[1..])) + Concat(b);
    }
  }

  lemma ConcatSnoc<T>(a: seq<seq<T>>, p: seq<T>)
    ensures Concat(a + [p]) == Concat(a) + p
  {
    ConcatAppend(a, [p]);
    assert [p][1..] == [];
  }

  /** How many pieces there are, as the ceiling division the drivers compute. */
  lemma {:induction false} SplitCount<T>(s: seq<T>, n: nat)
    requires n > 0
    ensures |Split(s, n)| == if |s| <= n then 1 else (|s| + n - 1) / n
    decreases |s|
  {
    if |s| > n {
      SplitCount(s[n..], n);
      CeilStep(|s|, n);
    }
  }

  lemma CeilStep(x: nat, n: nat)
    requires 0 < n < x
    ensures (x + n - 1) / n == 1 + (x - n + n - 1) / n
    ensures x - n <= n ==> (x - n + n - 1) / n == 1
  {
    var q, r := (x - 1) / n, (x - 1) % n;
    assert x - 1 == q * n + r;
    QuotientIs(x + n - 1, n, q + 1, r);
    if x - n <= n {
      QuotientIs(x - 1, n, 1, x - 1 - n);
    }
  }

  lemma QuotientIs(x: int, n: int, q: int, r: int)
    requires 0 <= r < n && x == q * n + r
    ensures x / n == q && x % n == r
  {
    var d := x / n - q;
    assert x / n * n + x % n == x;
    assert d * n == r - x % n;
    MultipleGap(d, n);
  }

  lemma MultipleGap(d: int, n: int)
    requires n > 0
    ensures d >= 1 ==> d * n >= n
    ensures d <= -1 ==> d * n <= -n
  {
  }

  lemma {:induction false} SplitAtMost<T>(s: seq<T>, n: nat)
    requires n > 0
    ensures 1 <= |Split(s, n)| <= if s == [] then 1 else |s|
    decreases |s|
  {
    if |s| > n {
      SplitAtMost(s[n..], n);
    }
  }

  /** Piece `i` is the half-open interval [i*n, min((i+1)*n, |s|)). */
  lemma {:induction false} SplitAt<T>(s: seq<T>, n: nat, i: nat)
    requires n > 0 && i < |Split(s, n)|
    ensures 0 <= i * n <= |s|
    ensures Split(s, n)[i] == s[i * n..if (i + 1) * n <= |s| then (i + 1) * n else |s|]
    ensures i + 1 < |Split(s, n)| <==> (i + 1) * n < |s|
    decreases |s|
  {
    if |s| > n && i > 0 {
      SplitAt(s[n..], n, i - 1);
      assert (i - 1) * n == i * n - n && (i - 1 + 1) * n == (i + 1) * n - n;
    } else {
      assert i == 0;
    }
  }

  /** What remains when the first `i` pieces are gone. */
  function From<T>(parts: seq<seq<T>>, i: nat): seq<T>
    requires i <= |parts|
    decreases |parts| - i
  {
    if i == |parts| then [] else parts[i] + From(parts, i + 1)
  }

  lemma {:induction false} FromIsConcat<T>(parts: seq<seq<T>>, i: nat)
    requires i <= |parts|
    ensures From(parts, i) == Concat(parts[i..])
    decreases |parts| - i
  {
    if i < |parts| {
      FromIsConcat(parts, i + 1);
      assert parts[i..][0] == parts[i] && parts[i..][1..] == parts[i + 1..];
    }
  }

  /** A reader that gets `n` bytes at a time, and all the rest at the last piece, gets the pieces in order. */
  lemma SequentialRead<T>(s: seq<T>, n: nat)
    requires n > 0
    ensures From(Split(s, n), 0) == s
    ensures forall i :: 0 <= i < |Split(s, n)| - 1 ==> |Split(s, n)[i]| == n
  {
    var p := Split(s, n);
    FromIsConcat(p, 0);
    assert p[0..] == p;
    ConcatSplit(s, n);
    forall i | 0 <= i < |p| - 1 ensures |p[i]| == n {
      SplitAt(s, n, i);
      assert (i + 1) * n == i * n + n;
    }
  }
}
