/** Hashing a file slice by slice: the streaming writer of drivers/189/util.go and the batch loop of
    drivers/189pc/torrent.go, and the slice hash that each of them derives. */
module SliceHasher {
  import opened Options
  import opened Pieces
  import opened Streams

  const DEFAULT: nat := 10485760

  /** What MD5 is applied to: bytes, or hash texts joined by line breaks. The digests themselves are opaque. */
  datatype Digest = OfBytes(data: seq<byte>) | OfJoined(texts: seq<Text>)

  /** A digest in hexadecimal, in upper or lower case. */
  datatype Text = Hex(digest: Digest, upper: bool)

  function ToUpper(t: Text): Text { t.(upper := true) }

  /** Upper-case hashes of consecutive pieces. */
  function Hashes(pieces: seq<seq<byte>>): seq<Text> {
    seq(|pieces|, i requires 0 <= i < |pieces| => Hex(OfBytes(pieces[i]), true))
  }

  lemma HashesSnoc(pieces: seq<seq<byte>>, p: seq<byte>)
    ensures Hashes(pieces + [p]) == Hashes(pieces) + [Hex(OfBytes(p), true)]
  {
  }

  ghost predicate AllOfSize(pieces: seq<seq<byte>>, n: nat) {
    forall i :: 0 <= i < |pieces| ==> |pieces[i]| == n
  }

  /** Full pieces with a shorter rest are the pieces of the whole; an empty rest counts only when it is all. */
  lemma {:induction false} SplitOf(pieces: seq<seq<byte>>, rest: seq<byte>, n: nat)
    requires AllOfSize(pieces, n) && |rest| < n
    ensures Split(Concat(pieces) + rest, n) == if rest == [] && pieces != [] then pieces else pieces + [rest]
    decreases |pieces|
  {
    var s := Concat(pieces) + rest;
    if pieces == [] {
      assert s == rest;
    } else {
      var tail := Concat(pieces[1..]) + rest;
      assert s == pieces[0] + tail;
      assert pieces == [pieces[0]] + pieces[1..] && (tail == [] ==> s == pieces[0]);
      if |pieces| > 1 {
        assert |pieces[1..][0]| == n && Concat(pieces[1..]) == pieces[1..][0] + Concat(pieces[1..][1..]);
      }
      if tail != [] {
        SplitOf(pieces[1..], rest, n);
        assert s[..n] == pieces[0] && s[n..] == tail;
      }
    }
  }

  // ---------- Streaming ----------

  class SliceHashWriter {
    const sliceSize: nat
    /** The bytes hashed since the last reset. */
    var hash: seq<byte>
    var md5s: seq<Text>
    var finish: nat
    ghost var slices: seq<seq<byte>>

    ghost predicate Valid()
      reads this
    {
      && sliceSize > 0 && AllOfSize(slices, sliceSize) && |hash| < sliceSize
      && md5s == Hashes(slices)
      && finish == |slices| * sliceSize + |hash|
    }

    /** Everything written so far. */
    ghost function Content(): seq<byte>
      reads this
    {
      Concat(slices) + hash
    }

    constructor (size: nat)
      requires size > 0
      ensures Valid() && Content() == [] && sliceSize == size
    {
      sliceSize, hash, md5s, finish, slices := size, [], [], 0, [];
    }

    /** One write: all of it, cut at the slice boundaries, or nothing when the upload was cancelled. */
    method Write(p: seq<byte>, cancelled: bool) returns (n: nat, ok: bool)
      requires Valid()
      modifies this
      ensures Valid() && ok == !cancelled
      ensures Content() == if ok then old(Content()) + p else old(Content())
      ensures n == if ok then |p| else 0
    {
      if cancelled {
        return 0, false;
      }
      var written := 0;
      while written < |p|
        invariant Valid() && written <= |p| && Content() == old(Content()) + p[..written]
      {
        QuotientIs(finish, sliceSize, |slices|, |hash|);
        var sliceRemain := sliceSize - finish % sliceSize;
        var toWrite := |p| - written;
        if toWrite > sliceRemain {
          toWrite := sliceRemain;
        }
        ghost var before := Content();
        Feed(p[written..written + toWrite]);
        assert p[..written] + p[written..written + toWrite] == p[..written + toWrite];
        assert before + p[written..written + toWrite] == old(Content()) + p[..written + toWrite];
        written := written + toWrite;
      }
      assert p[..|p|] == p;
      return |p|, true;
    }

    /** Hashing bytes that do not cross a slice boundary; a slice that became full is recorded. */
    method Feed(x: seq<byte>)
      requires Valid() && 0 < |x| <= sliceSize - |hash|
      modifies this
      ensures Valid() && Content() == old(Content()) + x
    {
      hash := hash + x;
      finish := finish + |x|;
      assert Content() == old(Content()) + x;
      FullSlice(finish, sliceSize, |slices|, |hash|);
      if finish % sliceSize == 0 {
        md5s := md5s + [Hex(OfBytes(hash), true)];
        HashesSnoc(slices, hash);
        ConcatSnoc(slices, hash);
        slices := slices + [hash];
        hash := [];
      }
    }

    /** The fix-up after the last write: a partial slice, and the empty slice of an empty file. */
    method FinalFixUp()
      requires Valid()
      modifies this
      ensures md5s == Hashes(Split(old(Content()), sliceSize))
    {
      QuotientIs(finish, sliceSize, |slices|, |hash|);
      SplitOf(slices, hash, sliceSize);
      HashesSnoc(slices, hash);
      MultipleGap(|slices|, sliceSize);
      if finish % sliceSize != 0 || finish == 0 {
        md5s := md5s + [Hex(OfBytes(hash), true)];
      }
    }
  }

  lemma FullSlice(finish: nat, n: nat, slices: nat, hash: nat)
    requires 0 < hash <= n && finish == slices * n + hash
    ensures finish % n == 0 <==> hash == n
    ensures hash == n ==> finish == (slices + 1) * n
  {
    if hash == n {
      QuotientIs(finish, n, slices + 1, 0);
    } else {
      QuotientIs(finish, n, slices, hash);
    }
  }

  /** Caching the file in newUpload. The recorded hashes do not depend on how the stream is cut into writes. */
  method CacheAndHash(writes: seq<seq<byte>>, cancelled: set<nat>, sliceSize: nat) returns (ok: bool, md5s: seq<Text>)
    requires sliceSize > 0
    ensures ok <==> forall i :: 0 <= i < |writes| ==> i !in cancelled
    ensures ok ==> md5s == Hashes(Split(Concat(writes), sliceSize))
  {
    var w := new SliceHashWriter(sliceSize);
    assert Concat(writes[..0]) == [];
    hide Concat, Hashes, Split;
    for i := 0 to |writes|
      invariant fresh(w) && w.Valid() && w.sliceSize == sliceSize && w.Content() == Concat(writes[..i])
      invariant forall j :: 0 <= j < i ==> j !in cancelled
    {
      assert writes[..i + 1] == writes[..i] + [writes[i]];
      ConcatSnoc(writes[..i], writes[i]);
      var n, wrote := w.Write(writes[i], i in cancelled);
      if !wrote {
        return false, [];
      }
    }
    assert writes[..|writes|] == writes;
    w.FinalFixUp();
    return true, w.md5s;
  }

  // ---------- Batch ----------

  /** The chunks read so far, all of them full, and what is left. */
  ghost predicate Chunked(content: seq<byte>, size: nat, pieces: seq<seq<byte>>, all: seq<byte>, md5s: seq<Text>,
                          rest: seq<byte>)
  {
    AllOfSize(pieces, size) && md5s == Hashes(pieces) && all == Concat(pieces) && all + rest == content
  }

  lemma FullChunk(content: seq<byte>, size: nat, pieces: seq<seq<byte>>, all: seq<byte>, md5s: seq<Text>,
                  chunk: seq<byte>, rest: seq<byte>)
    requires Chunked(content, size, pieces, all, md5s, chunk + rest) && |chunk| == size
    ensures Chunked(content, size, pieces + [chunk], all + chunk, md5s + [Hex(OfBytes(chunk), true)], rest)
  {
    assert all + (chunk + rest) == all + chunk + rest;
    HashesSnoc(pieces, chunk);
    ConcatSnoc(pieces, chunk);
  }

  lemma LastChunk(content: seq<byte>, size: nat, pieces: seq<seq<byte>>, all: seq<byte>, md5s: seq<Text>,
      chunk: seq<byte>)
    requires Chunked(content, size, pieces, all, md5s, chunk) && |chunk| < size
    ensures all + chunk == content
    ensures (if |chunk| > 0 then md5s + [Hex(OfBytes(chunk), true)] else md5s) == BatchHashes(content, size)
  {
    HashesSnoc(pieces, chunk);
    SplitOf(pieces, chunk, size);
    hide Split, Hashes;
  }

  /** ComputeSliceMD5sFromReader. An empty file has no slices here. `breaks`: what comes after the last byte of the
      reader is an error and not its end. */
  method ComputeSliceMD5s(reader: Reader, sliceSize: int, breaks: bool) returns (ok: bool, fileMd5: Text,
      md5s: seq<Text>)
    requires reader.Valid()
    modifies reader
    ensures ok <==> !breaks
    ensures ok ==> fileMd5 == Hex(OfBytes(old(reader.Rest())), true)
    ensures ok ==> md5s == BatchHashes(old(reader.Rest()), if sliceSize <= 0 then DEFAULT else sliceSize)
  {
    var size: nat := if sliceSize <= 0 then DEFAULT else sliceSize;
    ghost var content := reader.Rest();
    ghost var pieces: seq<seq<byte>> := [];
    var all: seq<byte> := [];
    md5s := [];
    assert Chunked(content, size, pieces, all, md5s, content);
    hide Chunked, BatchHashes;
    while true
      invariant reader.Valid() && Chunked(content, size, pieces, all, md5s, reader.Rest())
      decreases |reader.Rest()|
    {
      ghost var rest := reader.Rest();
      var chunk := reader.Read(size);
      assert rest == chunk + reader.Rest();
      if |chunk| < size {
        assert rest == chunk;
        LastChunk(content, size, pieces, all, md5s, chunk);
        if |chunk| > 0 {
          md5s := md5s + [Hex(OfBytes(chunk), true)];
        }
        return !breaks, Hex(OfBytes(all + chunk), true), md5s;
      }
      FullChunk(content, size, pieces, all, md5s, chunk, reader.Rest());
      all := all + chunk;
      md5s := md5s + [Hex(OfBytes(chunk), true)];
      pieces := pieces + [chunk];
    }
  }

  ghost function BatchHashes(content: seq<byte>, sliceSize: nat): seq<Text>
    requires sliceSize > 0
  {
    if content == [] then [] else Hashes(Split(content, sliceSize))
  }

  // ---------- The slice hash ----------

  /** The slice hash a file ought to have: of the joined slice hashes when it has several slices. */
  function Proper(content: seq<byte>): Digest {
    if |content| > DEFAULT then OfJoined(Hashes(Split(content, DEFAULT))) else OfBytes(content)
  }

  function UploadSliceMd5(fileSize: int, fileMd5: Text, md5s: seq<Text>): Text {
    if fileSize > DEFAULT && |md5s| > 0 then Hex(OfJoined(md5s), false) else fileMd5
  }

  /** The choice in GenerateTorrent, which gets the upper-case file hash. */
  function TorrentSliceMd5(fileMd5: Text, md5s: seq<Text>): Text {
    if |md5s| > 1 then ToUpper(Hex(OfJoined(md5s), false)) else fileMd5
  }

  /** The first half of newUpload: the hashes it sends. A hash that is known beforehand skips the slices. */
  method UploadHashes(known: Option<Text>, fileSize: int, writes: seq<seq<byte>>, cancelled: set<nat>)
    returns (ok: bool, fileMd5: Text, md5s: seq<Text>, sliceMd5: Text)
    ensures known.Some? ==> ok && fileMd5 == known.value && md5s == []
    ensures known.None? ==> (ok <==> forall i :: 0 <= i < |writes| ==> i !in cancelled)
    ensures known.None? && ok ==>
      fileMd5 == Hex(OfBytes(Concat(writes)), false) && md5s == Hashes(Split(Concat(writes), DEFAULT))
    ensures ok ==> sliceMd5 == UploadSliceMd5(fileSize, fileMd5, md5s)
  {
    ok, md5s := true, [];
    if known.Some? {
      fileMd5 := known.value;
    } else {
      fileMd5 := Hex(OfBytes(Concat(writes)), false);
      ok, md5s := CacheAndHash(writes, cancelled, DEFAULT);
    }
    sliceMd5 := if fileSize > DEFAULT && |md5s| > 0 then Hex(OfJoined(md5s), false) else fileMd5;
  }

  lemma SeveralSlices(content: seq<byte>, n: nat)
    requires n > 0
    ensures |Hashes(Split(content, n))| > 1 <==> |content| > n
    ensures |Hashes(Split(content, n))| >= 1
  {
    SplitAtMost(content, n);
    if |content| > n {
      SplitAtMost(content[n..], n);
    }
  }

  /** The torrent made after an upload names the slice hash that the upload sent, up to letter case, whether or
      not the file hash was known beforehand. */
  lemma UploadAgreesWithTorrent(content: seq<byte>, known: Option<Text>, fileMd5: Text, md5s: seq<Text>)
    requires known.Some? ==> md5s == []
    requires known.None? ==> md5s == Hashes(Split(content, DEFAULT))
    ensures TorrentSliceMd5(ToUpper(fileMd5), md5s) == ToUpper(UploadSliceMd5(|content|, fileMd5, md5s))
  {
    SeveralSlices(content, DEFAULT);
  }

  /** The batch hasher leads to the proper slice hash for every content, the empty one included. */
  lemma BatchIsProper(content: seq<byte>)
    ensures TorrentSliceMd5(Hex(OfBytes(content), true), BatchHashes(content, DEFAULT)) == Hex(Proper(content), true)
    ensures content != [] ==> BatchHashes(content, DEFAULT) == Hashes(Split(content, DEFAULT))
  {
    SeveralSlices(content, DEFAULT);
  }

  /** The upload sends the proper slice hash if and only if the file hash had to be computed or the file has one
      slice: with a hash known beforehand a larger file is sent with its file hash as slice hash. */
  lemma UploadIsProper(content: seq<byte>, known: Option<Text>, fileMd5: Text, md5s: seq<Text>)
    requires fileMd5.digest == OfBytes(content)
    requires known.Some? ==> fileMd5 == known.value && md5s == []
    requires known.None? ==> md5s == Hashes(Split(content, DEFAULT))
    ensures UploadSliceMd5(|content|, fileMd5, md5s).digest == Proper(content) <==> known.None? || |content| <= DEFAULT
  {
    SeveralSlices(content, DEFAULT);
  }

  /** For instance, a file of zeros that is one byte longer than a slice. */
  lemma KnownHashSkipsTheSlices()
    ensures var content: seq<byte> := seq(DEFAULT + 1, _ => 0);
      var fileMd5 := Hex(OfBytes(content), false);
      && UploadSliceMd5(|content|, fileMd5, []) == fileMd5 && fileMd5.digest != Proper(content)
      && UploadSliceMd5(|content|, fileMd5, Hashes(Split(content, DEFAULT))).digest == Proper(content)
  {
    var content: seq<byte> := seq(DEFAULT + 1, _ => 0);
    var fileMd5 := Hex(OfBytes(content), false);
    UploadIsProper(content, Some(fileMd5), fileMd5, []);
    UploadIsProper(content, None, fileMd5, Hashes(Split(content, DEFAULT)));
  }
}
