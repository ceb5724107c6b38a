/** `Link` of drivers/chunk/driver.go: the check for missing parts and the range reader over the parts.
    `remote[i]` is what the name of part `i` resolves to at the backend when the part is opened. */
module ChunkReader {
  import opened Options
  import opened Results
  import opened PartNames
  import opened Streams

  type Remote = seq<Option<seq<byte>>>

  ghost predicate Accepted(t: seq<int>)
    requires |t| >= 1
  {
    t[0] != -1 && forall i :: 1 <= i < |t| - 1 ==> t[i] != 0
  }

  /** The check of `Link` for missing parts. */
  method Link(t: seq<int>) returns (ok: bool)
    requires |t| >= 1
    ensures ok <==> Accepted(t)
  {
    if t[0] == -1 {
      return false;
    }
    var i := 1;
    while i < |t| - 1
      invariant 1 <= i && forall j :: 1 <= j < i && j < |t| - 1 ==> t[j] != 0
    {
      if t[i] == 0 {
        return false;
      }
      i := i + 1;
    }
    return true;
  }

  /** Where part `i` begins in the file. */
  function Offset(t: seq<nat>, i: nat): nat
    requires i <= |t|
  {
    if i == 0 then 0 else Offset(t, i - 1) + t[i - 1]
  }

  /** Part `i` can still be opened and has the size that the table promises. */
  predicate Intact(remote: Remote, t: seq<nat>, i: nat)
    requires i < |t| == |remote|
  {
    remote[i].Some? && |remote[i].value| == t[i]
  }

  /** The bytes of part `i`; a part that is not intact counts as zeros of the promised size. */
  function PartBytes(remote: Remote, t: seq<nat>, i: nat): (b: seq<byte>)
    requires i < |t| == |remote|
    ensures |b| == t[i]
  {
    if Intact(remote, t, i) then remote[i].value else seq(t[i], _ => 0)
  }

  /** The file content that the first `i` parts hold. */
  function Content(remote: Remote, t: seq<nat>, i: nat): (c: seq<byte>)
    requires |remote| == |t|
    requires i <= |t|
    ensures |c| == Offset(t, i)
  {
    if i == 0 then [] else Content(remote, t, i - 1) + PartBytes(remote, t, i - 1)
  }

  /** Go's int64 addition. */
  function Add64(a: int, b: int): int {
    if a + b > MAX_INT64 then a + b - 0x1_0000_0000_0000_0000 else a + b
  }

  function Clamp(start: int, length: int, size: int): int {
    if length < 0 || Add64(start, length) > size then size - start else length
  }

  /** Part `i` contains byte `start`. */
  predicate Holds(t: seq<nat>, i: nat, start: int)
    requires i < |t|
  {
    Offset(t, i) <= start < Offset(t, i + 1)
  }

  /** Part `i` contains byte `start`, or begins inside the range after it. */
  predicate Touched(t: seq<nat>, start: int, length: int, i: nat)
    requires i < |t|
  {
    Holds(t, i, start) || start < Offset(t, i) < start + length
  }

  /** When a nonempty range can be served: it lies inside the parts, and every part it touches is intact. */
  ghost predicate Servable(remote: Remote, t: seq<nat>, start: int, length: int)
    requires |remote| == |t|
  {
    && start < Offset(t, |t|) && start + length <= Offset(t, |t|)
    && forall i :: 0 <= i < |t| && Touched(t, start, length, i) ==> Intact(remote, t, i)
  }

  /** Where a stream that begins in part `i` ends: at the end of the range, except that a range inside
      one part is served to the end of that part. */
  function StreamEnd(t: seq<nat>, i: nat, start: int, length: int): int
    requires i < |t|
  {
    if start + length <= Offset(t, i + 1) then Offset(t, i + 1) else start + length
  }

  ghost predicate EndsAt(t: seq<nat>, start: int, length: int, stop: int) {
    exists i: nat :: i < |t| && Holds(t, i, start) && stop == StreamEnd(t, i, start, length)
  }

  lemma {:induction false} OffsetsGrow(t: seq<nat>, i: nat, j: nat)
    requires i <= j <= |t|
    ensures Offset(t, i) <= Offset(t, j)
  {
    if i < j {
      OffsetsGrow(t, i, j - 1);
    }
  }

  lemma {:induction false} ContentPrefix(remote: Remote, t: seq<nat>, i: nat, j: nat)
    requires |remote| == |t|
    requires i <= j <= |t|
    ensures Content(remote, t, i) <= Content(remote, t, j)
  {
    if i < j {
      ContentPrefix(remote, t, i, j - 1);
    }
  }

  /** The touched parts among the first `n`, in order. */
  function TouchedParts(t: seq<nat>, start: int, length: int, n: nat): seq<nat>
    requires n <= |t|
  {
    if n == 0 then []
    else TouchedParts(t, start, length, n - 1) + if Touched(t, start, length, n - 1) then [n - 1] else []
  }

  lemma TouchedOverlaps(t: seq<nat>, start: int, length: int, i: nat)
    requires i < |t|
    ensures length > 0 ==> (Touched(t, start, length, i) <==> start < Offset(t, i + 1) && Offset(t, i) < start + length)
  {
  }

  /** They are all the parts that a nonempty range overlaps, once each. */
  lemma {:induction false} TouchedPartsAre(t: seq<nat>, start: int, length: int, n: nat)
    requires n <= |t|
    ensures forall i: nat :: i in TouchedParts(t, start, length, n) <==> i < n && Touched(t, start, length, i)
    ensures length > 0 ==> forall i: nat :: i < |t| ==>
      (i in TouchedParts(t, start, length, n) <==> i < n && start < Offset(t, i + 1) && Offset(t, i) < start + length)
    ensures forall a, b :: 0 <= a < b < |TouchedParts(t, start, length, n)| ==>
      TouchedParts(t, start, length, n)[a] < TouchedParts(t, start, length, n)[b]
  {
    if n > 0 {
      TouchedPartsAre(t, start, length, n - 1);
      var before, now := TouchedParts(t, start, length, n - 1), TouchedParts(t, start, length, n);
      TouchedOverlaps(t, start, length, n - 1);
      hide Touched, Offset;
      assert forall a :: 0 <= a < |before| ==> before[a] in before;
      assert forall i: nat :: i in now <==> i in before || (i == n - 1 && Touched(t, start, length, i));
    }
  }

  lemma {:induction false} TouchedPrefix(t: seq<nat>, start: int, length: int, i: nat, j: nat)
    requires i <= j <= |t|
    ensures TouchedParts(t, start, length, i) <= TouchedParts(t, start, length, j)
    ensures (forall k :: i <= k < j ==> !Touched(t, start, length, k)) ==>
      TouchedParts(t, start, length, i) == TouchedParts(t, start, length, j)
  {
    if i < j {
      TouchedPrefix(t, start, length, i, j - 1);
    }
  }

  /** Of the first `idx` parts, those touched were linked, in order, and they are intact. */
  ghost predicate LinkedSoFar(remote: Remote, t: seq<nat>, start: int, length: int, idx: nat, links: seq<nat>)
    requires |remote| == |t|
    requires idx <= |t|
  {
    && links == TouchedParts(t, start, length, idx)
    && forall i :: 0 <= i < idx && Touched(t, start, length, i) ==> Intact(remote, t, i)
  }

  /** `mergedRrf`: opens the touched parts in turn and joins their bytes. `links` lists the parts it opened. */
  method RangeRead(remote: Remote, t: seq<nat>, fileSize: int, rangeStart: nat, rangeLength: int)
    returns (r: Failable<seq<byte>>, links: seq<nat>)
    requires |remote| == |t|
    ensures var l := Clamp(rangeStart, rangeLength, fileSize);
      if l == 0 then r == Ok([]) && links == [] else Serves(remote, t, rangeStart, l, r, links)
  {
    var start: int, length := rangeStart, rangeLength;
    if length < 0 || Add64(start, length) > fileSize {
      length := fileSize - start;
    }
    if length == 0 {
      return Ok([]), [];
    }
    r, links := ReadParts(remote, t, start, length);
  }

  /** The outcome of reading the nonempty range: it succeeds exactly when the range is servable, yields the
      file's bytes from `start` on, and opens exactly the touched parts in order, or the first of them on an error. */
  ghost predicate Serves(remote: Remote, t: seq<nat>, start: nat, length: int, r: Failable<seq<byte>>, links: seq<nat>)
    requires |remote| == |t|
  {
    && links <= TouchedParts(t, start, length, |t|)
    && (r.Ok? <==> Servable(remote, t, start, length))
    && (r.Ok? ==>
      && LinkedSoFar(remote, t, start, length, |t|, links)
      && EndsAt(t, start, length, start + |r.value|)
      && start + |r.value| <= Offset(t, |t|)
      && r.value == Content(remote, t, |t|)[start..start + |r.value|])
  }

  /** Joining the first `n` bytes of the next part. */
  lemma PartJoined(remote: Remote, t: seq<nat>, idx: nat, start: nat, rs: seq<byte>, n: nat)
    requires |remote| == |t| && idx < |t| && start <= Offset(t, idx) && n <= t[idx]
    requires rs == Content(remote, t, idx)[start..Offset(t, idx)]
    ensures rs + PartBytes(remote, t, idx)[..n] == Content(remote, t, idx + 1)[start..Offset(t, idx) + n]
  {
  }

  lemma PartBegun(remote: Remote, t: seq<nat>, idx: nat, start: nat)
    requires |remote| == |t| && idx < |t| && Offset(t, idx) <= start <= Offset(t, idx + 1)
    ensures PartBytes(remote, t, idx)[start - Offset(t, idx)..] ==
      Content(remote, t, idx + 1)[start..Offset(t, idx + 1)]
  {
  }

  lemma Linked(remote: Remote, t: seq<nat>, start: int, length: int, idx: nat, links: seq<nat>)
    requires |remote| == |t| && idx < |t| && LinkedSoFar(remote, t, start, length, idx, links)
    ensures Offset(t, idx + 1) <= start ==> LinkedSoFar(remote, t, start, length, idx + 1, links)
    ensures Touched(t, start, length, idx) && Intact(remote, t, idx) ==>
      LinkedSoFar(remote, t, start, length, idx + 1, links + [idx])
  {
  }

  lemma BrokenPart(remote: Remote, t: seq<nat>, start: nat, length: int, idx: nat, links: seq<nat>)
    requires |remote| == |t| && idx < |t| && LinkedSoFar(remote, t, start, length, idx, links)
    requires Touched(t, start, length, idx) && !Intact(remote, t, idx)
    ensures Serves(remote, t, start, length, Err(()), links + [idx])
  {
    TouchedPrefix(t, start, length, idx + 1, |t|);
  }

  lemma AllLinked(remote: Remote, t: seq<nat>, start: nat, length: int, idx: nat, links: seq<nat>)
    requires |remote| == |t| && idx < |t| && LinkedSoFar(remote, t, start, length, idx + 1, links)
    requires start < Offset(t, idx + 1) && start + length <= Offset(t, idx + 1)
    ensures LinkedSoFar(remote, t, start, length, |t|, links) && Servable(remote, t, start, length)
  {
    OffsetsGrow(t, idx + 1, |t|);
    forall i | idx < i < |t| ensures !Touched(t, start, length, i) {
      OffsetsGrow(t, idx + 1, i);
    }
    TouchedPrefix(t, start, length, idx + 1, |t|);
  }

  lemma SamePrefix(a: seq<byte>, b: seq<byte>, i: nat, j: nat)
    requires i <= j <= |a| && a <= b
    ensures a[i..j] == b[i..j]
  {
  }

  lemma AllServed(remote: Remote, t: seq<nat>, start: nat, length: int, first: nat, idx: nat, rs: seq<byte>,
      links: seq<nat>)
    requires |remote| == |t| && first <= idx < |t| && LinkedSoFar(remote, t, start, length, idx + 1, links)
    requires Holds(t, first, start) && start < Offset(t, idx + 1) && start + length <= Offset(t, idx + 1)
    requires start + |rs| == StreamEnd(t, first, start, length) <= Offset(t, idx + 1)
    requires rs == Content(remote, t, idx + 1)[start..start + |rs|]
    ensures Serves(remote, t, start, length, Ok(rs), links)
  {
    AllLinked(remote, t, start, length, idx, links);
    ContentPrefix(remote, t, idx + 1, |t|);
    OffsetsGrow(t, idx + 1, |t|);
    SamePrefix(Content(remote, t, idx + 1), Content(remote, t, |t|), start, start + |rs|);
    assert EndsAt(t, start, length, start + |rs|);
  }

  /** The loop state before part `idx`: still looking for the first part, or reading since part `first`. */
  ghost predicate Progress(remote: Remote, t: seq<nat>, rangeStart: nat, rangeLength: int, idx: nat,
                           readFrom: bool, start: int, length: int, first: nat, rs: seq<byte>, links: seq<nat>)
    requires |remote| == |t|
  {
    && idx <= |t|
    && LinkedSoFar(remote, t, rangeStart, rangeLength, idx, links)
    && (!readFrom ==> start == rangeStart - Offset(t, idx) >= 0 && length == rangeLength)
    && (readFrom ==>
      && length == rangeStart + rangeLength - Offset(t, idx) > 0
      && first < idx && Holds(t, first, rangeStart) && Offset(t, first + 1) <= Offset(t, idx)
      && rs == Content(remote, t, idx)[rangeStart..Offset(t, idx)])
  }

  lemma FirstPart(remote: Remote, t: seq<nat>, rangeStart: nat, rangeLength: int, idx: nat,
                  start: int, length: int, links: seq<nat>)
    requires |remote| == |t| && idx < |t|
    requires Progress(remote, t, rangeStart, rangeLength, idx, false, start, length, 0, [], links)
    ensures start >= t[idx] ==>
      Progress(remote, t, rangeStart, rangeLength, idx + 1, false, start - t[idx], length, 0, [], links)
    ensures start < t[idx] && !Intact(remote, t, idx) ==>
      Serves(remote, t, rangeStart, rangeLength, Err(()), links + [idx])
    ensures start < t[idx] && Intact(remote, t, idx) ==>
      var rs := remote[idx].value[start..];
      var rest := length - (t[idx] - start);
      if rest <= 0 then Serves(remote, t, rangeStart, rangeLength, Ok(rs), links + [idx])
      else Progress(remote, t, rangeStart, rangeLength, idx + 1, true, start, rest, idx, rs, links + [idx])
  {
    Linked(remote, t, rangeStart, rangeLength, idx, links);
    if start < t[idx] {
      assert Touched(t, rangeStart, rangeLength, idx);
      if !Intact(remote, t, idx) {
        BrokenPart(remote, t, rangeStart, rangeLength, idx, links);
      } else {
        PartBegun(remote, t, idx, rangeStart);
        if length - (t[idx] - start) <= 0 {
          AllServed(remote, t, rangeStart, rangeLength, idx, idx, remote[idx].value[start..], links + [idx]);
        }
      }
    }
  }

  lemma LaterPart(remote: Remote, t: seq<nat>, rangeStart: nat, rangeLength: int, idx: nat,
                  start: int, length: int, first: nat, rs: seq<byte>, links: seq<nat>)
    requires |remote| == |t| && idx < |t|
    requires Progress(remote, t, rangeStart, rangeLength, idx, true, start, length, first, rs, links)
    ensures !Intact(remote, t, idx) ==> Serves(remote, t, rangeStart, rangeLength, Err(()), links + [idx])
    ensures Intact(remote, t, idx) ==>
      var part := remote[idx].value;
      if length > |part| then Progress(remote, t, rangeStart, rangeLength, idx + 1, true, start, length - |part|, first,
        rs + part[..|part|], links + [idx])
      else Serves(remote, t, rangeStart, rangeLength, Ok(rs + part[..length]), links + [idx])
  {
    Linked(remote, t, rangeStart, rangeLength, idx, links);
    assert Touched(t, rangeStart, rangeLength, idx);
    if !Intact(remote, t, idx) {
      BrokenPart(remote, t, rangeStart, rangeLength, idx, links);
    } else {
      var n := if length > t[idx] then t[idx] else length;
      PartJoined(remote, t, idx, rangeStart, rs, n);
      if length <= t[idx] {
        AllServed(remote, t, rangeStart, rangeLength, first, idx, rs + remote[idx].value[..n], links + [idx]);
      }
    }
  }

  /** The loop over the parts: skips those before the range, reads the first one from the middle to its end,
      the later ones from their beginning, the last of them only as far as the range goes. */
  method ReadParts(remote: Remote, t: seq<nat>, rangeStart: nat, rangeLength: int)
    returns (r: Failable<seq<byte>>, links: seq<nat>)
    requires rangeLength != 0 && |remote| == |t|
    ensures Serves(remote, t, rangeStart, rangeLength, r, links)
  {
    links := [];
    var start: int, length := rangeStart, rangeLength;
    var rs: seq<byte> := [];
    var readFrom := false;
    ghost var first := 0;
    var idx := 0;
    assert Progress(remote, t, rangeStart, rangeLength, idx, readFrom, start, length, first, rs, links);
    hide Progress, Serves, Offset;
    while idx < |t|
      invariant idx <= |t| && (!readFrom ==> first == 0 && rs == [])
      invariant Progress(remote, t, rangeStart, rangeLength, idx, readFrom, start, length, first, rs, links)
    {
      ProgressMeans(remote, t, rangeStart, rangeLength, idx, readFrom, start, length, first, rs, links);
      if readFrom {
        LaterPart(remote, t, rangeStart, rangeLength, idx, start, length, first, rs, links);
        links := links + [idx];
        if remote[idx].None? || |remote[idx].value| != t[idx] {
          return Err(()), links;
        }
        var part := remote[idx].value;
        var newLength := length - |part|;
        if newLength >= 0 {
          rs := rs + part[..|part|];
        } else {
          rs := rs + part[..length];
        }
        if newLength <= 0 {
          return Ok(rs), links;
        }
        length := newLength;
      } else {
        FirstPart(remote, t, rangeStart, rangeLength, idx, start, length, links);
        if start - t[idx] >= 0 {
          start := start - t[idx];
        } else {
          links := links + [idx];
          if remote[idx].None? || |remote[idx].value| != t[idx] {
            return Err(()), links;
          }
          var part := remote[idx].value;
          rs := part[start..];
          length := length - (|part| - start);
          if length <= 0 {
            return Ok(rs), links;
          }
          readFrom := true;
          first := idx;
        }
      }
      idx := idx + 1;
    }
    PartsAreOver(remote, t, rangeStart, rangeLength, readFrom, start, length, first, rs, links);
    return Err(()), links;
  }

  lemma ProgressMeans(remote: Remote, t: seq<nat>, rangeStart: nat, rangeLength: int, idx: nat, readFrom: bool,
                      start: int, length: int, first: nat, rs: seq<byte>, links: seq<nat>)
    requires |remote| == |t|
    requires Progress(remote, t, rangeStart, rangeLength, idx, readFrom, start, length, first, rs, links)
    ensures if readFrom then length > 0 else start >= 0
  {
  }

  /** A range that is not served by the end goes beyond the parts. */
  lemma PartsAreOver(remote: Remote, t: seq<nat>, rangeStart: nat, rangeLength: int, readFrom: bool,
                     start: int, length: int, first: nat, rs: seq<byte>, links: seq<nat>)
    requires |remote| == |t|
    requires Progress(remote, t, rangeStart, rangeLength, |t|, readFrom, start, length, first, rs, links)
    ensures Serves(remote, t, rangeStart, rangeLength, Err(()), links)
  {
  }
}
