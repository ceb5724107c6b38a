/** The slice table that FastUpload (drivers/189pc/utils.go) and Put (drivers/baidu_netdisk/driver.go) compute while
    they spool the file, and the section of the file that is sent for each entry of the table. */
module SliceTable {
  import opened Options
  import opened Pieces
  import opened Streams
  import opened SliceHasher

  function Count(size: nat, sliceSize: nat): nat
    requires sliceSize > 0
  {
    if size > sliceSize then (size + sliceSize - 1) / sliceSize else 1
  }

  function LastSize(size: nat, sliceSize: nat): nat
    requires sliceSize > 0
  {
    if size % sliceSize == 0 then sliceSize else size % sliceSize
  }

  /** The counts and lengths computed beforehand are those of the pieces. */
  lemma PieceSizes(content: seq<byte>, n: nat, i: nat)
    requires n > 0 && i < Count(|content|, n)
    ensures |Split(content, n)| == Count(|content|, n) && i * n <= |content|
    ensures i + 1 < Count(|content|, n) ==> |content| - i * n > n && |Split(content, n)[i]| == n
    ensures i + 1 == Count(|content|, n) ==> |content| - i * n <= n && |Split(content, n)[i]| == |content| - i * n
    ensures i + 1 == Count(|content|, n) && content != [] ==> |content| - i * n == LastSize(|content|, n)
    ensures Split(content, n)[i] == content[i * n..i * n + |Split(content, n)[i]|]
  {
    SplitCount(content, n);
    SplitAt(content, n, i);
    assert (i + 1) * n == i * n + n;
    if i + 1 == Count(|content|, n) && content != [] {
      var last := |content| - i * n;
      assert last > 0 by { LastIsNonempty(content, n, i); }
      if last == n {
        QuotientIs(|content|, n, i + 1, 0);
      } else {
        QuotientIs(|content|, n, i, last);
      }
    }
  }

  lemma LastIsNonempty(content: seq<byte>, n: nat, i: nat)
    requires n > 0 && content != [] && i < |Split(content, n)|
    ensures i * n < |content|
  {
    if i > 0 {
      SplitAt(content, n, i - 1);
    }
  }

  /** What the first `i` rounds did to a stream that holds the whole file. */
  ghost predicate Done(content: seq<byte>, n: nat, i: nat, written: nat, hexs: seq<Text>)
    requires n > 0
  {
    && i <= |Split(content, n)| && hexs == Hashes(Split(content, n)[..i])
    && written == if i < |Split(content, n)| then i * n else |content|
  }

  lemma NextRound(content: seq<byte>, n: nat, i: nat, written: nat, hexs: seq<Text>, part: seq<byte>)
    requires n > 0 && Done(content, n, i, written, hexs) && i < Count(|content|, n) && written <= |content|
    requires written + |part| <= |content| && part == content[written..written + |part|]
    requires |part| == if i + 1 < Count(|content|, n) then n else |content| - written
    ensures Done(content, n, i + 1, written + |part|, hexs + [Hex(OfBytes(part), true)])
  {
    PieceSizes(content, n, i);
    var pieces := Split(content, n);
    assert (i + 1) * n == i * n + n;
    assert part == content[i * n..i * n + |part|];
    assert pieces[..i + 1] == pieces[..i] + [part];
    HashesSnoc(pieces[..i], part);
  }

  ghost predicate Enough(all: seq<byte>, size: nat) {
    |all| == size || 0 < size <= |all|
  }

  ghost predicate Spooled(all: seq<byte>, size: nat, n: nat, i: nat, written: nat, hexs: seq<Text>)
    requires n > 0
  {
    written <= |all| && (Enough(all, size) ==> Done(all[..size], n, i, written, hexs))
  }

  lemma SpoolStart(all: seq<byte>, size: nat, n: nat)
    requires n > 0
    ensures Spooled(all, size, n, 0, 0, []) && Count(size, n) >= 1
  {
    if Enough(all, size) {
      SplitAtMost(all[..size], n);
      assert Split(all[..size], n)[..0] == [];
    }
    if size > n {
      CeilStep(size, n);
    }
  }

  lemma SpoolStep(all: seq<byte>, size: nat, n: nat, i: nat, written: nat, hexs: seq<Text>, byteSize: nat,
      part: seq<byte>)
    requires n > 0 && i < Count(size, n) && Spooled(all, size, n, i, written, hexs)
    requires byteSize == if i + 1 == Count(size, n) then LastSize(size, n) else n
    requires part == if byteSize <= |all| - written then all[written..written + byteSize] else all[written..]
    ensures Spooled(all, size, n, i + 1, written + |part|, hexs + [Hex(OfBytes(part), true)])
  {
    if Enough(all, size) {
      var content := all[..size];
      RoundLength(content, n, i, written, hexs);
      assert written + |part| <= |content|;
      assert part == all[written..written + |part|] == content[written..written + |part|];
      hide Done, Split, Hashes;
      NextRound(content, n, i, written, hexs, part);
    }
  }

  lemma SpoolEnd(all: seq<byte>, size: nat, n: nat, written: nat, hexs: seq<Text>)
    requires n > 0 && Spooled(all, size, n, Count(size, n), written, hexs)
    ensures size > 0 ==> (written == size <==> |all| >= size)
    ensures Enough(all, size) ==> hexs == Hashes(Split(all[..size], n))
  {
    if Enough(all, size) {
      RoundsOver(all[..size], n, written, hexs);
    }
  }

  /** How much the rounds ask of the stream; for an empty file the only round asks for a whole slice. */
  function Asked(size: nat, sliceSize: nat): nat { if size == 0 then sliceSize else size }

  /** The start of a round, when every read so far gave what was asked. */
  function AskedBefore(size: nat, n: nat, i: nat): nat
    requires n > 0
  {
    if i < Count(size, n) then i * n else Asked(size, n)
  }

  lemma AskedNext(size: nat, n: nat, i: nat)
    requires n > 0 && i < Count(size, n)
    ensures AskedBefore(size, n, i) + (if i + 1 == Count(size, n) then LastSize(size, n) else n) ==
      AskedBefore(size, n, i + 1)
    ensures AskedBefore(size, n, i + 1) <= Asked(size, n)
  {
    var content: seq<byte> := seq(size, k => 0);
    PieceSizes(content, n, i);
    assert (i + 1) * n == i * n + n;
    if size == 0 {
      assert Count(size, n) == 1 && i == 0;
    }
  }

  /** The state of the rounds: the table, and, with a stream that breaks, that it gave all that was asked. */
  ghost predicate InRounds(all: seq<byte>, size: nat, n: nat, i: nat, written: nat, hexs: seq<Text>, breaks: bool)
    requires n > 0
  {
    Spooled(all, size, n, i, written, hexs) && (breaks ==> written == AskedBefore(size, n, i))
  }

  lemma RoundsBegin(all: seq<byte>, size: nat, n: nat, breaks: bool)
    requires n > 0
    ensures InRounds(all, size, n, 0, 0, [], breaks) && Count(size, n) >= 1
  {
    SpoolStart(all, size, n);
  }

  lemma RoundsStep(all: seq<byte>, size: nat, n: nat, i: nat, written: nat, hexs: seq<Text>, byteSize: nat,
                   part: seq<byte>, breaks: bool)
    requires n > 0 && i < Count(size, n) && InRounds(all, size, n, i, written, hexs, breaks) && written <= |all|
    requires byteSize == if i + 1 == Count(size, n) then LastSize(size, n) else n
    requires part == if byteSize <= |all| - written then all[written..written + byteSize] else all[written..]
    ensures if breaks && |part| < byteSize then |all| < Asked(size, n)
            else InRounds(all, size, n, i + 1, written + |part|, hexs + [Hex(OfBytes(part), true)], breaks)
  {
    SpoolStep(all, size, n, i, written, hexs, byteSize, part);
    AskedNext(size, n, i);
    hide Spooled, Count, LastSize, AskedBefore, Asked;
  }

  lemma RoundsEnd(all: seq<byte>, size: nat, n: nat, written: nat, hexs: seq<Text>, breaks: bool)
    requires n > 0 && InRounds(all, size, n, Count(size, n), written, hexs, breaks) && written <= |all|
    ensures size > 0 ==> (written == size <==> |all| >= size)
    ensures Enough(all, size) ==> hexs == Hashes(Split(all[..size], n))
    ensures breaks ==> |all| >= Asked(size, n)
  {
    SpoolEnd(all, size, n, written, hexs);
  }

  /** Reads the stream slice by slice. The context is cancelled from some round on, if at all. `breaks`: what comes
      after the last byte of the stream is an error and not its end. `spooled`: a temporary file receives the bytes,
      which is what makes a stream that ends early an error. */
  method BuildTable(size: nat, sliceSize: nat, stream: Reader, spooled: bool, cancelled: Option<nat>, breaks: bool)
    returns (ok: bool, hexs: seq<Text>)
    requires sliceSize > 0 && stream.Valid()
    modifies stream
    ensures ok <==>
      (cancelled.Some? ==> cancelled.value >= Count(size, sliceSize)) &&
      (breaks ==> |old(stream.Rest())| >= Asked(size, sliceSize)) &&
      (spooled && size > 0 ==> |old(stream.Rest())| >= size)
    ensures ok && Enough(old(stream.Rest()), size) ==> hexs == Hashes(Split(old(stream.Rest())[..size], sliceSize))
  {
    ghost var all := stream.Rest();
    var count, byteSize := Count(size, sliceSize), sliceSize;
    var written: nat := 0;
    hexs := [];
    RoundsBegin(all, size, sliceSize, breaks);
    hide Split, Hashes, Enough, InRounds, Count, LastSize, Asked;
    for i := 0 to count
      invariant stream.Valid() && written <= |all| && stream.Rest() == all[written..]
      invariant i < count ==> byteSize == sliceSize
      invariant InRounds(all, size, sliceSize, i, written, hexs, breaks)
      invariant cancelled.Some? && i > 0 ==> cancelled.value >= i
    {
      if cancelled.Some? && cancelled.value <= i {
        return false, [];
      }
      if i + 1 == count {
        byteSize := LastSize(size, sliceSize);
      }
      var part := stream.Read(byteSize);
      assert |part| <= |all| - written && all[written..][|part|..] == all[written + |part|..];
      RoundsStep(all, size, sliceSize, i, written, hexs, byteSize, part, breaks);
      if breaks && |part| < byteSize {
        return false, [];
      }
      written := written + |part|;
      hexs := hexs + [Hex(OfBytes(part), true)];
    }
    RoundsEnd(all, size, sliceSize, written, hexs, breaks);
    if spooled && size > 0 && written != size {
      return false, [];
    }
    return true, hexs;
  }

  lemma RoundLength(content: seq<byte>, n: nat, i: nat, written: nat, hexs: seq<Text>)
    requires n > 0 && Done(content, n, i, written, hexs) && i < Count(|content|, n)
    ensures written <= |content|
    ensures i + 1 < Count(|content|, n) ==> |content| - written > n
    ensures i + 1 == Count(|content|, n) && content != [] ==> |content| - written == LastSize(|content|, n)
    ensures i + 1 == Count(|content|, n) && content == [] ==> written == 0
  {
    PieceSizes(content, n, i);
  }

  lemma RoundsOver(content: seq<byte>, n: nat, written: nat, hexs: seq<Text>)
    requires n > 0 && Done(content, n, Count(|content|, n), written, hexs)
    ensures written == |content| && hexs == Hashes(Split(content, n))
  {
    SplitCount(content, n);
    assert Split(content, n)[..|Split(content, n)|] == Split(content, n);
  }

  // ---------- What is sent ----------

  /** io.NewSectionReader over the part number the server names (from 1), cut off at the end of the file. */
  function Section(content: seq<byte>, sliceSize: nat, partNumber: nat): seq<byte>
    requires sliceSize > 0 && partNumber >= 1
  {
    var offset := (partNumber - 1) * sliceSize;
    var byteSize := if partNumber == Count(|content|, sliceSize) then LastSize(|content|, sliceSize) else sliceSize;
    if offset >= |content| then []
    else if byteSize <= |content| - offset then content[offset..offset + byteSize]
    else content[offset..]
  }

  /** The section sent for part `k` is the slice whose hash stands in entry `k` of the table, so that all sections
      together are the file. */
  lemma SectionIsSlice(content: seq<byte>, n: nat, k: nat)
    requires n > 0 && 1 <= k <= Count(|content|, n)
    ensures k <= |Split(content, n)| && Section(content, n, k) == Split(content, n)[k - 1]
  {
    PieceSizes(content, n, k - 1);
  }

  lemma SectionsAreTheFile(content: seq<byte>, n: nat)
    requires n > 0
    ensures Concat(seq(Count(|content|, n), i requires 0 <= i < Count(|content|, n) => Section(content, n, i + 1))) ==
      content
  {
    var sections := seq(Count(|content|, n), i requires 0 <= i < Count(|content|, n) => Section(content, n, i + 1));
    SplitCount(content, n);
    forall i | 0 <= i < |sections| ensures sections[i] == Split(content, n)[i] {
      SectionIsSlice(content, n, i + 1);
    }
    assert sections == Split(content, n);
    ConcatSplit(content, n);
  }
}
