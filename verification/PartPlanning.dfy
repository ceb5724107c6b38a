/** How many parts an upload gets: drivers/115/util.go, drivers/115_open/upload.go, drivers/189pc/help.go and
    drivers/baidu_netdisk/util.go. */
module PartPlanning {
  import opened Options
  import opened Results
  import opened Pieces
  import opened Streams
  import opened Units

  /** The number of parts of this size, as the drivers compute it. */
  function CeilDiv(size: nat, n: nat): nat
    requires n > 0
  {
    (size + n - 1) / n
  }

  lemma CeilDivIs(size: nat, n: nat, m: nat)
    requires n > 0
    ensures CeilDiv(size, n) <= m <==> size <= m * n
  {
    var q := CeilDiv(size, n);
    assert q * n <= size + n - 1 < q * n + n;
    MultipleGap(q - m, n);
    MultipleGap(m + 1 - q, n);
    assert (q - m) * n == q * n - m * n && (m + 1 - q) * n == m * n + n - q * n;
  }

  // ---------- 115: SplitFile ----------

  datatype Chunk = Chunk(number: int, offset: int, size: int)

  /** A size or number that is refused, or a run-time panic of the Go code. */
  datatype Fault = Refused | Panicked

  /** Numbered from 1, nonempty, and adjacent from the beginning of the file up to `end`. */
  ghost predicate Tiles(chunks: seq<Chunk>, end: int) {
    && (chunks == [] ==> end == 0)
    && forall i :: 0 <= i < |chunks| ==>
        && chunks[i].number == i + 1 && chunks[i].size > 0
        && chunks[i].offset == (if i == 0 then 0 else chunks[i - 1].offset + chunks[i - 1].size)
        && (i == |chunks| - 1 ==> chunks[i].offset + chunks[i].size == end)
  }

  lemma TilesSnoc(chunks: seq<Chunk>, end: int, size: int)
    requires Tiles(chunks, end) && size > 0
    ensures Tiles(chunks + [Chunk(|chunks| + 1, end, size)], end + size)
  {
  }

  /** All chunks have exactly this size. */
  ghost predicate Even(chunks: seq<Chunk>, n: int) {
    forall i :: 0 <= i < |chunks| ==> chunks[i].size == n
  }

  /** All chunks but the last have exactly this size; together with the tiling this determines them. */
  ghost predicate EvenButLast(chunks: seq<Chunk>, n: int) {
    forall i :: 0 <= i < |chunks| - 1 ==> chunks[i].size == n
  }

  lemma EvenSnoc(chunks: seq<Chunk>, n: int, c: Chunk)
    requires Even(chunks, n)
    ensures EvenButLast(chunks, n) && EvenButLast(chunks + [c], n) && (c.size == n ==> Even(chunks + [c], n))
  {
  }

  lemma NextMultiple(i: int, n: int)
    ensures (i + 1) * n == i * n + n && (i - 1) * n == i * n - n
  {
  }

  lemma PartIsPositive(fileSize: nat, chunkNum: nat)
    requires 0 < chunkNum <= fileSize
    ensures fileSize / chunkNum >= 1 && 0 <= fileSize % chunkNum
    ensures fileSize == (chunkNum - 1) * (fileSize / chunkNum) + (fileSize / chunkNum + fileSize % chunkNum)
  {
    NextMultiple(chunkNum, fileSize / chunkNum);
  }

  method SplitFileByPartNum(fileSize: nat, chunkNum: int) returns (r: Result<seq<Chunk>, Fault>)
    ensures r == Err(Refused) <==> chunkNum <= 0 || chunkNum > 10000 || chunkNum > fileSize
    ensures r != Err(Panicked)
    ensures r.Ok? ==> |r.value| == chunkNum && Tiles(r.value, fileSize) && EvenButLast(r.value, fileSize / chunkNum)
    ensures r.Ok? ==> r.value[chunkNum - 1].size == fileSize / chunkNum + fileSize % chunkNum
  {
    if chunkNum <= 0 || chunkNum > 10000 {
      return Err(Refused);
    }
    if chunkNum > fileSize {
      return Err(Refused);
    }
    var part, rest := fileSize / chunkNum, fileSize % chunkNum;
    PartIsPositive(fileSize, chunkNum);
    var chunks: seq<Chunk> := [];
    assert Tiles([], 0) && Even([], part) && EvenButLast([], part);
    hide Tiles, Even, EvenButLast;
    for i := 0 to chunkNum
      invariant |chunks| == i && (i < chunkNum ==> Even(chunks, part)) && EvenButLast(chunks, part)
      invariant Tiles(chunks, if i == chunkNum then fileSize else i * part)
      invariant i == chunkNum ==> chunks[i - 1].size == part + rest
    {
      NextMultiple(i, part);
      var size := if i == chunkNum - 1 then part + rest else part;
      TilesSnoc(chunks, i * part, size);
      EvenSnoc(chunks, part, Chunk(i + 1, i * part, size));
      chunks := chunks + [Chunk(i + 1, i * part, size)];
    }
    return Ok(chunks);
  }

  method SplitFileByPartSize(fileSize: nat, chunkSize: int) returns (r: Result<seq<Chunk>, Fault>)
    ensures r == Err(Refused) <==> chunkSize <= 0 || fileSize / chunkSize >= 10000
    ensures r != Err(Panicked)
    ensures r.Ok? ==> |r.value| == CeilDiv(fileSize, chunkSize) <= 10000
    ensures r.Ok? ==> Tiles(r.value, fileSize) && EvenButLast(r.value, chunkSize)
  {
    if chunkSize <= 0 {
      return Err(Refused);
    }
    var chunkN := fileSize / chunkSize;
    if chunkN >= 10000 {
      return Err(Refused);
    }
    CeilOfParts(fileSize, chunkSize);
    var chunks: seq<Chunk> := [];
    assert FullChunks([], chunkSize, 0);
    hide FullChunks, Tiles, EvenButLast, CeilDiv;
    for i := 0 to chunkN
      invariant |chunks| == i && FullChunks(chunks, chunkSize, i)
    {
      NextFull(chunks, chunkSize, i);
      chunks := chunks + [Chunk(i + 1, i * chunkSize, chunkSize)];
    }
    LastPart(chunks, chunkSize, chunkN, fileSize % chunkSize);
    if fileSize % chunkSize > 0 {
      chunks := chunks + [Chunk(chunkN + 1, chunkN * chunkSize, fileSize % chunkSize)];
    }
    return Ok(chunks);
  }

  ghost predicate FullChunks(chunks: seq<Chunk>, n: int, k: nat) {
    |chunks| == k && Even(chunks, n) && Tiles(chunks, k * n)
  }

  lemma NextFull(chunks: seq<Chunk>, n: int, k: nat)
    requires n > 0 && FullChunks(chunks, n, k)
    ensures FullChunks(chunks + [Chunk(k + 1, k * n, n)], n, k + 1)
  {
    hide Tiles, Even;
    NextMultiple(k, n);
    TilesSnoc(chunks, k * n, n);
    EvenSnoc(chunks, n, Chunk(k + 1, k * n, n));
  }

  lemma LastPart(chunks: seq<Chunk>, n: int, k: nat, rest: nat)
    requires n > 0 && FullChunks(chunks, n, k)
    ensures Tiles(chunks, k * n) && EvenButLast(chunks, n)
    ensures var more := chunks + [Chunk(k + 1, k * n, rest)];
      rest > 0 ==> Tiles(more, k * n + rest) && EvenButLast(more, n)
  {
    hide Tiles, Even, EvenButLast;
    EvenSnoc(chunks, n, Chunk(k + 1, k * n, rest));
    if rest > 0 {
      TilesSnoc(chunks, k * n, rest);
    }
  }

  lemma CeilOfParts(size: nat, n: nat)
    requires n > 0
    ensures size == size / n * n + size % n && CeilDiv(size, n) == size / n + if size % n > 0 then 1 else 0
  {
    var q, r := size / n, size % n;
    NextMultiple(q, n);
    if r > 0 {
      QuotientIs(size + n - 1, n, q + 1, r - 1);
    } else {
      QuotientIs(size + n - 1, n, q, n - 1);
    }
  }

  /** 1000 chunks for each begun gigabyte, 10000 from 9 GB on. */
  function ChunkNum(fileSize: nat): (n: nat)
    ensures 1000 <= n <= 10000
  {
    if fileSize < 9 * GB then (fileSize / GB + 1) * 1000 else 10000
  }

  /** The begun gigabytes, a thousand chunks for each. */
  lemma ChunkNumIs(fileSize: nat)
    ensures var k := ChunkNum(fileSize) / 1000;
      && ChunkNum(fileSize) == k * 1000
      && if fileSize < 9 * GB then (k - 1) * GB <= fileSize < k * GB else k == 10
  {
  }

  /** The two branches that plan the chunks: 1000 for each begun gigabyte, and 10000 above 9 GB.
      Neither is taken at exactly 9 GB. */
  method PlannedChunks(fileSize: nat) returns (r: Result<seq<Chunk>, Fault>)
    ensures r != Err(Panicked) && (r == Err(Refused) <==> fileSize < 1000)
    ensures r.Ok? ==> (r.value == [] <==> fileSize == 9 * GB)
    ensures r.Ok? && r.value != [] ==>
      |r.value| == ChunkNum(fileSize) && Tiles(r.value, fileSize) && EvenButLast(r.value, fileSize / ChunkNum(fileSize))
      && r.value[|r.value| - 1].size >= fileSize / ChunkNum(fileSize)
  {
    hide Tiles, EvenButLast;
    for i := 1 to 10
      invariant fileSize >= (i - 1) * GB
    {
      if fileSize < i * GB {
        assert ChunkNum(fileSize) == i * 1000;
        r := SplitFileByPartNum(fileSize, i * 1000);
        return;
      }
    }
    if fileSize > 9 * GB {
      r := SplitFileByPartNum(fileSize, 10000);
      return;
    }
    return Ok([]);
  }

  /** SplitFile rejects files below 1000 bytes, panics on exactly 9 GB, where neither branch makes chunks, and in
      all other cases makes 1 to 10000 chunks that tile the file: as many as planned if that gives at least 100 KB
      to each, and otherwise chunks of 100 KB with a smaller last one. */
  method SplitFile(fileSize: nat) returns (r: Result<seq<Chunk>, Fault>)
    ensures r == Err(Refused) <==> fileSize < 1000
    ensures r == Err(Panicked) <==> fileSize == 9 * GB
    ensures r.Ok? ==> 1 <= |r.value| <= 10000 && Tiles(r.value, fileSize)
    ensures r.Ok? && fileSize / ChunkNum(fileSize) >= 100 * KB ==>
      |r.value| == ChunkNum(fileSize) && EvenButLast(r.value, fileSize / ChunkNum(fileSize))
      && r.value[|r.value| - 1].size >= 100 * KB
    ensures r.Ok? && fileSize / ChunkNum(fileSize) < 100 * KB ==>
      |r.value| == CeilDiv(fileSize, 100 * KB) && EvenButLast(r.value, 100 * KB)
  {
    r := PlannedChunks(fileSize);
    if r.Err? {
      assert r.error == Refused;
      return;
    }
    if r.value == [] {
      return Err(Panicked);
    }
    FirstOf(r.value, fileSize / ChunkNum(fileSize));
    hide Tiles, EvenButLast, CeilDiv, ChunkNum;
    if r.value[0].size < 100 * KB {
      FallbackFits(fileSize, ChunkNum(fileSize));
      CeilOfParts(fileSize, 100 * KB);
      r := SplitFileByPartSize(fileSize, 100 * KB);
    }
  }

  lemma FirstOf(chunks: seq<Chunk>, n: int)
    requires EvenButLast(chunks, n) && |chunks| >= 2
    ensures chunks[0].size == n
  {
  }

  /** The fallback is not taken with too many parts. */
  lemma FallbackFits(fileSize: nat, num: nat)
    requires 1000 <= num <= 10000 && fileSize / num < 100 * KB
    ensures fileSize / (100 * KB) < 10000
  {
    var part := fileSize / num;
    assert fileSize < num * part + num;
    assert num * part + num == num * (part + 1) <= num * (100 * KB) by { Monotone(num, part + 1, 100 * KB); }
    BelowQuotient(fileSize, num);
  }

  lemma Monotone(n: nat, a: int, b: int)
    requires a <= b
    ensures n * a <= n * b && n * a + n == n * (a + 1)
  {
  }

  lemma BelowQuotient(fileSize: nat, num: nat)
    requires fileSize < num * (100 * KB) && num <= 10000
    ensures fileSize / (100 * KB) < 10000
  {
    assert fileSize < 10000 * (100 * KB);
  }

  // ---------- 115_open ----------

  function CalPartSize(fileSize: nat): (n: nat)
    ensures n > 0
  {
    if fileSize <= 20 * MB then 20 * MB
    else if fileSize > 1 * TB then 5 * GB
    else if fileSize > 768 * GB then 109951163
    else if fileSize > 512 * GB then 82463373
    else if fileSize > 384 * GB then 54975582
    else if fileSize > 256 * GB then 41231687
    else if fileSize > 128 * GB then 27487791
    else 20 * MB
  }

  /** Every step of the ladder is the smallest part size with which the largest file of the step has at most 10000
      parts; below it parts have 20 MB, above it 5 GB. */
  lemma LadderIsTight(fileSize: nat, low: nat, high: nat)
    requires (low, high) in {(128, 256), (256, 384), (384, 512), (512, 768), (768, 1024)}
    ensures fileSize <= 128 * GB ==> CalPartSize(fileSize) == 20 * MB
    ensures low * GB < fileSize <= high * GB ==>
      && CalPartSize(fileSize) > 1
      && CeilDiv(high * GB, CalPartSize(fileSize)) <= 10000 < CeilDiv(high * GB, CalPartSize(fileSize) - 1)
    ensures fileSize > 1024 * GB ==> CalPartSize(fileSize) == 5 * GB
  {
    if low * GB < fileSize <= high * GB {
      var n := CalPartSize(fileSize);
      CeilDivIs(high * GB, n, 10000);
      CeilDivIs(high * GB, n - 1, 10000);
      hide CeilDiv;
    }
  }

  /** The ladder keeps to 10000 parts exactly up to 50000 GB. */
  lemma AtMost10000Parts(fileSize: nat)
    ensures CeilDiv(fileSize, CalPartSize(fileSize)) <= 10000 <==> fileSize <= 50000 * GB
  {
    CeilDivIs(fileSize, CalPartSize(fileSize), 10000);
  }

  /** Where part `i` begins; after the last part, the end of the file. */
  ghost predicate OffsetOf(content: seq<byte>, n: nat, partNum: nat, i: nat, offset: nat) {
    i >= 1 && offset == if i == partNum + 1 then |content| else (i - 1) * n
  }

  function Pieces115(content: seq<byte>, n: nat): seq<seq<byte>>
    requires n > 0
  {
    if content == [] then [] else Split(content, n)
  }

  lemma PartStep(content: seq<byte>, n: nat, partNum: nat, i: nat, offset: nat, partSize: int)
    requires n > 0 && 1 <= i <= partNum == |Pieces115(content, n)| && OffsetOf(content, n, partNum, i, offset)
    requires partSize == if i == partNum then |content| - (i - 1) * n else n
    ensures partSize >= 0 && offset + partSize <= |content| &&
      content[offset..offset + partSize] == Pieces115(content, n)[i - 1]
    ensures OffsetOf(content, n, partNum, i + 1, if i == partNum then |content| else offset + partSize)
  {
    PieceOfLoop(content, n, i - 1);
    NextMultiple(i, n);
  }

  /** The part loop of multpartUpload. `fails` holds the parts whose upload fails for good. The parts sent are the
      consecutive pieces of the file; an empty file has none. */
  method MultipartUpload(content: seq<byte>, fails: set<nat>) returns (ok: bool, parts: seq<seq<byte>>)
    ensures ok ==> parts == Pieces115(content, CalPartSize(|content|)) && Concat(parts) == content
    ensures ok <==> forall i :: 1 <= i <= CeilDiv(|content|, CalPartSize(|content|)) ==> i !in fails
  {
    var fileSize, chunkSize := |content|, CalPartSize(|content|);
    var partNum := (fileSize + chunkSize - 1) / chunkSize;
    assert partNum == CeilDiv(fileSize, chunkSize);
    ghost var pieces := Pieces115(content, chunkSize);
    PieceCount(content, chunkSize);
    ConcatSplit(content, chunkSize);
    assert pieces[..0] == [] && Concat<byte>([]) == [] && OffsetOf(content, chunkSize, partNum, 1, 0);
    assert Concat(pieces) == content;
    hide CalPartSize, Split, Concat, OffsetOf, Pieces115, CeilDiv;
    parts := [];
    var offset: nat := 0;
    for i := 1 to partNum + 1
      invariant parts == pieces[..i - 1] && OffsetOf(content, chunkSize, partNum, i, offset)
      invariant forall j :: 1 <= j < i ==> j !in fails
    {
      var partSize := if i == partNum then fileSize - (i - 1) * chunkSize else chunkSize;
      PartStep(content, chunkSize, partNum, i, offset, partSize);
      if i in fails {
        return false, [];
      }
      parts := parts + [content[offset..offset + partSize]];
      assert pieces[..i] == pieces[..i - 1] + [pieces[i - 1]];
      offset := if i == partNum then fileSize else offset + partSize;
    }
    assert pieces[..|pieces|] == pieces;
    return true, parts;
  }

  lemma PieceCount(content: seq<byte>, n: nat)
    requires n > 0
    ensures (|content| + n - 1) / n == if content == [] then 0 else |Split(content, n)|
  {
    SplitCount(content, n);
    if 0 < |content| <= n {
      QuotientIs(|content| + n - 1, n, 1, |content| - 1);
    } else if content == [] {
      QuotientIs(n - 1, n, 0, n - 1);
    }
  }

  lemma PieceOfLoop(content: seq<byte>, n: nat, i: nat)
    requires n > 0 && i < |Split(content, n)|
    ensures i * n <= |content|
    ensures i + 1 < |Split(content, n)| ==> i * n + n <= |content| && Split(content, n)[i] == content[i * n..i * n + n]
    ensures i + 1 == |Split(content, n)| ==> Split(content, n)[i] == content[i * n..|content|]
  {
    SplitAt(content, n, i);
    assert (i + 1) * n == i * n + n;
  }

  // ---------- 189pc ----------

  const DEFAULT_189: nat := 1024 * 1024 * 10

  function Ceil(x: real): int { -((-x).Floor) }

  function PartSize189(size: nat): int {
    if size > DEFAULT_189 * 2 * 999 then
      var times := Ceil(size as real / 1999.0 / DEFAULT_189 as real);
      (if times > 5 then times else 5) * DEFAULT_189
    else if size > DEFAULT_189 * 999 then DEFAULT_189 * 2
    else DEFAULT_189
  }

  /** Up to the second threshold there are at most 999 parts, beyond it at most 1999; and the part size is the smallest
      multiple of 10 MB, there from 50 MB on, that achieves this. */
  lemma PartCount189(size: nat)
    ensures var n := PartSize189(size);
      && n >= DEFAULT_189 && n % DEFAULT_189 == 0
      && (size <= DEFAULT_189 * 2 * 999 ==> CeilDiv(size, n) <= 999)
      && (size <= DEFAULT_189 * 2 * 999 && n > DEFAULT_189 ==> CeilDiv(size, n - DEFAULT_189) > 999)
      && (size > DEFAULT_189 * 2 * 999 ==> CeilDiv(size, n) <= 1999 && n >= 5 * DEFAULT_189)
      && (size > DEFAULT_189 * 2 * 999 && n > 5 * DEFAULT_189 ==> CeilDiv(size, n - DEFAULT_189) > 1999)
  {
    if size > DEFAULT_189 * 2 * 999 {
      var times := Ceil(size as real / 1999.0 / DEFAULT_189 as real);
      CeilBetween(size, times);
      hide Ceil, CeilDiv;
      EnoughTimes(size, times, if times > 5 then times else 5);
    } else {
      CeilDivIs(size, PartSize189(size), 999);
      if size > DEFAULT_189 * 999 {
        CeilDivIs(size, DEFAULT_189, 999);
      }
    }
  }

  lemma EnoughTimes(size: nat, times: int, k: nat)
    requires (times - 1) * (1999 * DEFAULT_189) < size <= times * (1999 * DEFAULT_189)
    requires k == if times > 5 then times else 5
    ensures CeilDiv(size, k * DEFAULT_189) <= 1999 && k * DEFAULT_189 % DEFAULT_189 == 0
    ensures k * DEFAULT_189 > 5 * DEFAULT_189 ==> CeilDiv(size, k * DEFAULT_189 - DEFAULT_189) > 1999
  {
    CeilDivIs(size, k * DEFAULT_189, 1999);
    if k > 5 {
      CeilDivIs(size, k * DEFAULT_189 - DEFAULT_189, 1999);
    }
  }

  lemma CeilBetween(size: nat, times: int)
    requires times == Ceil(size as real / 1999.0 / DEFAULT_189 as real)
    ensures (times - 1) * (1999 * DEFAULT_189) < size <= times * (1999 * DEFAULT_189)
  {
    var x := size as real / 1999.0 / DEFAULT_189 as real;
    assert times as real - 1.0 < x <= times as real;
    assert x * (1999.0 * DEFAULT_189 as real) == size as real;
  }

  // ---------- Baidu ----------

  const DEFAULT_SLICE: nat := 4 * MB
  const VIP_SLICE: nat := 16 * MB
  const SVIP_SLICE: nat := 32 * MB
  const MAX_SLICES: nat := 2048
  const STEP: nat := 1 * MB

  function MaxSlice(vipType: int): nat {
    if vipType == 1 then VIP_SLICE else if vipType == 2 then SVIP_SLICE else DEFAULT_SLICE
  }

  /** getSliceSize. With low bandwidth the loop ends with the smallest step that keeps to 2048 slices, if the
      maximum slice size allows that many at all. */
  method GetSliceSize(vipType: int, custom: int, lowBandwidth: bool, filesize: nat) returns (r: int)
    ensures vipType == 0 ==> r == 4 * MB
    ensures r >= 4 * MB && (vipType == 1 ==> r <= 16 * MB) && (vipType == 2 ==> r <= 32 * MB)
    ensures custom == 0 && !lowBandwidth ==>
      r == if vipType == 1 then 16 * MB else if vipType == 2 then 32 * MB else 4 * MB
    ensures vipType != 0 && custom != 0 && (vipType == 1 || vipType == 2) ==>
      r == if custom < DEFAULT_SLICE then DEFAULT_SLICE else if custom > MaxSlice(vipType) then MaxSlice(vipType)
        else custom
    ensures vipType !in {0, 1, 2} && custom != 0 ==> r == if custom < DEFAULT_SLICE then DEFAULT_SLICE else custom
    ensures vipType != 0 && custom == 0 && (!lowBandwidth || filesize > MAX_SLICES * MaxSlice(vipType)) ==>
      r == MaxSlice(vipType)
    ensures vipType != 0 && custom == 0 && lowBandwidth && filesize <= MAX_SLICES * MaxSlice(vipType) ==>
      && DEFAULT_SLICE <= r <= MaxSlice(vipType) && (r - DEFAULT_SLICE) % STEP == 0
      && CeilDiv(filesize, r) <= MAX_SLICES
      && (r > DEFAULT_SLICE ==> CeilDiv(filesize, r - STEP) > MAX_SLICES)
  {
    if vipType == 0 {
      return DEFAULT_SLICE;
    }
    if custom != 0 {
      if custom < DEFAULT_SLICE {
        return DEFAULT_SLICE;
      }
      if vipType == 1 && custom > VIP_SLICE {
        return VIP_SLICE;
      }
      if vipType == 2 && custom > SVIP_SLICE {
        return SVIP_SLICE;
      }
      return custom;
    }
    var maxSliceSize := MaxSlice(vipType);
    hide CeilDiv;
    if lowBandwidth {
      var step := SmallestStep(maxSliceSize, filesize);
      if step.Some? {
        return step.value;
      }
    }
    return maxSliceSize;
  }

  /** The loop for low bandwidth. */
  method SmallestStep(maxSliceSize: nat, filesize: nat) returns (r: Option<nat>)
    requires maxSliceSize >= DEFAULT_SLICE && (maxSliceSize - DEFAULT_SLICE) % STEP == 0
    ensures r.None? <==> filesize > MAX_SLICES * maxSliceSize
    ensures r.Some? ==> DEFAULT_SLICE <= r.value <= maxSliceSize && (r.value - DEFAULT_SLICE) % STEP == 0
    ensures r.Some? ==> CeilDiv(filesize, r.value) <= MAX_SLICES
    ensures r.Some? && r.value > DEFAULT_SLICE ==> CeilDiv(filesize, r.value - STEP) > MAX_SLICES
  {
    hide CeilDiv;
    var size := DEFAULT_SLICE;
    while size <= maxSliceSize
      invariant DEFAULT_SLICE <= size && (size - DEFAULT_SLICE) % STEP == 0
      invariant size > DEFAULT_SLICE ==> filesize > MAX_SLICES * (size - STEP)
      invariant size <= maxSliceSize || size - STEP == maxSliceSize
    {
      CeilDivIs(filesize, size, MAX_SLICES);
      if filesize <= MAX_SLICES * size {
        if size > DEFAULT_SLICE {
          CeilDivIs(filesize, size - STEP, MAX_SLICES);
        }
        return Some(size);
      }
      size := size + STEP;
    }
    return None;
  }
}
