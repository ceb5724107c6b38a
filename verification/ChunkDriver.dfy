/** drivers/chunk/driver.go: cutting a file into numbered parts (`Put`), and the round trip through the
    listing (`Get`), the check for missing parts (`Link`) and the range reader. */
module ChunkDriver {
  import opened Collections
  import opened Options
  import opened Results
  import opened PartNames
  import opened Streams
  import opened Pieces
  import opened ChunkFolder
  import opened ChunkReader

  // ---------- Put ----------

  /** The folder after the first `k` parts were stored over what was there. */
  function WithParts(folder: Folder, parts: seq<seq<byte>>, k: nat, ext: string): Folder
    requires k <= |parts|
  {
    if k == 0 then folder
    else StorePart(WithParts(folder, parts, k - 1, ext), k - 1, parts[k - 1], ext)
  }

  /** One remote upload: a file with the part's name, replacing one of the same name. */
  function StorePart(folder: Folder, i: nat, data: seq<byte>, ext: string): Folder {
    folder[PartName(i, ext) := Entry(PartName(i, ext), false, data)]
  }

  /** A folder in which the pieces of `content` were stored as parts 0, 1, 2, ... */
  function Stored(content: seq<byte>, partSize: nat, ext: string, folder: Folder): Folder
    requires partSize > 0
  {
    var parts := Split(content, partSize);
    WithParts(folder, parts, |parts|, ext)
  }

  /** What is left of a folder when a part could not be stored: `Put` removes it, unless that fails too, which it
      ignores. */
  function AfterFailure(folder: Folder, removes: bool): Folder {
    if removes then map[] else folder
  }

  /** The splitting loop of `Put`: `count` full parts from the shared reader. The upload of part
      `failsAt`, if there is one, fails. */
  method StoreFullParts(file: Reader, partSize: nat, count: nat, ext: string, folder: Folder, failsAt: nat,
      removes: bool, ghost parts: seq<seq<byte>>)
    returns (ok: bool, folder': Folder)
    requires file.Valid() && file.Rest() == From(parts, 0) && count < |parts|
    requires forall i :: 0 <= i < count ==> |parts[i]| == partSize
    modifies file
    ensures ok <==> count <= failsAt
    ensures ok ==> folder' == WithParts(folder, parts, count, ext)
    ensures ok ==> file.Valid() && file.Rest() == From(parts, count)
    ensures !ok ==> folder' == AfterFailure(WithParts(folder, parts, failsAt, ext), removes)
  {
    folder' := folder;
    var partIndex := 0;
    while partIndex < count
      invariant 0 <= partIndex <= count && partIndex <= failsAt && file.Valid()
      invariant folder' == WithParts(folder, parts, partIndex, ext)
      invariant file.Rest() == From(parts, partIndex)
    {
      var b := file.Read(partSize);
      assert b == parts[partIndex];
      if partIndex == failsAt {
        return false, if removes then map[] else folder';
      }
      folder' := StorePart(folder', partIndex, b, ext);
      partIndex := partIndex + 1;
    }
    return true, folder';
  }

  /** The file that records a hash in its name; its content is one zero byte. */
  function HashEntry(kind: string, value: string, ext: string): Entry {
    Entry(HashName(kind, value, ext), false, [0])
  }

  /** The folder after the hash files, of which those in `fails` could not be stored. */
  function WithHashes(folder: Folder, hashes: seq<(string, string)>, fails: set<nat>, k: nat, ext: string): Folder
    requires k <= |hashes|
  {
    if k == 0 then folder
    else
      var f := WithHashes(folder, hashes, fails, k - 1, ext);
      var e := HashEntry(hashes[k - 1].0, hashes[k - 1].1, ext);
      if k - 1 in fails then f else f[e.name := e]
  }

  /** The folder afterwards, or the file that was stored beside it. */
  datatype PutResult = Failed(folder: Folder) | Direct(data: seq<byte>) | Chunked(folder: Folder)

  /** Thumbnails, and small files if only large ones are chunked, are uploaded as they are. */
  predicate IsDirect(thumbnail: bool, largeOnly: bool, size: nat, partSize: nat) {
    thumbnail || (largeOnly && size <= partSize)
  }

  /** `Put`: a direct upload, or the hash files, whose failures are ignored, and then the parts. `failsAt` is the part
      whose upload fails, if any, and 0 lets a direct upload fail; `removes` says whether the removal after a failed
      part works. */
  method Put(file: Reader, partSize: nat, ext: string, folder: Folder, failsAt: nat, removes: bool, thumbnail: bool,
      largeOnly: bool, storeHash: bool, hashes: seq<(string, string)>, hashFails: set<nat>)
    returns (r: PutResult)
    requires partSize > 0 && file.Valid()
    modifies file
    ensures IsDirect(thumbnail, largeOnly, |old(file.Rest())|, partSize) ==>
      r == if failsAt == 0 then Failed(folder) else Direct(old(file.Rest()))
    ensures !IsDirect(thumbnail, largeOnly, |old(file.Rest())|, partSize) ==>
      var parts := Split(old(file.Rest()), partSize);
      var f := if storeHash then WithHashes(folder, hashes, hashFails, |hashes|, ext) else folder;
      r == if |parts| <= failsAt then Chunked(Stored(old(file.Rest()), partSize, ext, f))
        else Failed(AfterFailure(WithParts(f, parts, failsAt, ext), removes))
    ensures r.Direct? ==> r.data == old(file.Rest()) && failsAt > 0
    ensures thumbnail ==> !r.Chunked?
    ensures !thumbnail && !largeOnly ==> !r.Direct?
    ensures !thumbnail && largeOnly && r.Direct? ==> |r.data| <= partSize
    ensures !thumbnail && r.Chunked? ==> PartName(0, ext) in r.folder
    ensures !thumbnail && largeOnly && r.Chunked? ==> partSize < |old(file.Rest())| && PartName(1, ext) in r.folder
    ensures failsAt > |old(file.Rest())| ==> !r.Failed?
    ensures r.Chunked? && |old(file.Rest())| < MAX_INT64 ==>
      HashFilesAre(r.folder, folder, ext, storeHash, hashes, hashFails)
  {
    SplitAtMost(file.Rest(), partSize);
    var size := |file.data| - file.pos;
    if thumbnail || (largeOnly && size <= partSize) {
      var b := file.Read(size);
      return if failsAt == 0 then Failed(folder) else Direct(b);
    }
    var f := folder;
    if storeHash {
      for i := 0 to |hashes|
        invariant f == WithHashes(folder, hashes, hashFails, i, ext)
      {
        var e := HashEntry(hashes[i].0, hashes[i].1, ext);
        if i !in hashFails {
          f := f[e.name := e];
        }
      }
    }
    ghost var parts := Split(file.Rest(), partSize);
    PartsAreStored(f, parts, |parts|, ext);
    SplitInTwo(file.Rest(), partSize);
    HashFilesStay(folder, hashes, hashFails, ext, parts, f, storeHash);
    hide HashFilesAre, Split, WithHashes, WithParts;
    var ok, f' := PutParts(file, partSize, ext, f, failsAt, removes);
    return if ok then Chunked(f') else Failed(f');
  }

  lemma {:induction false} PartsAreStored(folder: Folder, parts: seq<seq<byte>>, k: nat, ext: string)
    requires k <= |parts|
    ensures forall i: nat :: i < k ==> PartName(i, ext) in WithParts(folder, parts, k, ext)
  {
    if k > 0 {
      PartsAreStored(folder, parts, k - 1, ext);
    }
  }

  /** The file named after this hash is in the folder and holds one zero byte. */
  predicate HasHashFile(folder: Folder, hash: (string, string), ext: string) {
    var name := HashName(hash.0, hash.1, ext);
    name in folder && folder[name] == Entry(name, false, [0])
  }

  predicate SameAt(name: string, a: Folder, b: Folder) {
    if name in a then name in b && a[name] == b[name] else name !in b
  }

  /** The name of one of these hashes. */
  ghost predicate NamesHash(name: string, hashes: seq<(string, string)>, ext: string) {
    exists i :: 0 <= i < |hashes| && name == HashName(hashes[i].0, hashes[i].1, ext)
  }

  /** What a chunked upload does to the hash files: the new ones are stored, and all others are as before. */
  ghost predicate HashFilesAre(after: Folder, before: Folder, ext: string, storeHash: bool,
      hashes: seq<(string, string)>, fails: set<nat>)
  {
    && (storeHash ==> forall i :: 0 <= i < |hashes| && i !in fails ==> HasHashFile(after, hashes[i], ext))
    && forall name: string :: "hash_" <= name ==>
        SameAt(name, after, before) || (storeHash && NamesHash(name, hashes, ext))
  }

  lemma {:induction false} HashFilesStored(folder: Folder, hashes: seq<(string, string)>, fails: set<nat>, k: nat,
      ext: string)
    requires k <= |hashes|
    ensures forall i :: 0 <= i < k && i !in fails ==>
      HasHashFile(WithHashes(folder, hashes, fails, k, ext), hashes[i], ext)
    ensures forall name: string ::
      SameAt(name, WithHashes(folder, hashes, fails, k, ext), folder) || NamesHash(name, hashes, ext)
  {
    if k > 0 {
      HashFilesStored(folder, hashes, fails, k - 1, ext);
      assert NamesHash(HashName(hashes[k - 1].0, hashes[k - 1].1, ext), hashes, ext);
      hide NamesHash;
    }
  }

  /** Storing parts touches no file whose name begins like that of a hash file. */
  lemma {:induction false} PartsTouchNoHashFile(folder: Folder, parts: seq<seq<byte>>, k: nat, ext: string,
      name: string)
    requires k <= |parts| <= MAX_INT64 && "hash_" <= name
    ensures SameAt(name, WithParts(folder, parts, k, ext), folder)
  {
    if k > 0 {
      PartsTouchNoHashFile(folder, parts, k - 1, ext, name);
      IndexOfPartName(k - 1, ext);
      assert name != PartName(k - 1, ext);
    }
  }

  /** The hash files are still there when the parts are stored, and there are no others unless hashes are stored. */
  lemma HashFilesStay(folder: Folder, hashes: seq<(string, string)>, fails: set<nat>, ext: string,
      parts: seq<seq<byte>>, f: Folder, storeHash: bool)
    requires f == if storeHash then WithHashes(folder, hashes, fails, |hashes|, ext) else folder
    ensures |parts| <= MAX_INT64 ==>
      HashFilesAre(WithParts(f, parts, |parts|, ext), folder, ext, storeHash, hashes, fails)
  {
    var after := WithParts(f, parts, |parts|, ext);
    if |parts| <= MAX_INT64 {
      HashFilesStored(folder, hashes, fails, |hashes|, ext);
      hide WithHashes, WithParts, NamesHash;
      forall name: string | "hash_" <= name
        ensures SameAt(name, after, folder) || (storeHash && NamesHash(name, hashes, ext))
        ensures SameAt(name, after, f)
      {
        PartsTouchNoHashFile(f, parts, |parts|, ext, name);
      }
      forall i | 0 <= i < |hashes| && storeHash && i !in fails ensures HasHashFile(after, hashes[i], ext) {
        assert SameAt(HashName(hashes[i].0, hashes[i].1, ext), after, f);
      }
    }
  }

  /** Into a folder without hash files: `Get` reports the hashes of the uploaded file, those of known kinds. */
  lemma HashesReported(before: Folder, after: Folder, ext: string, hashes: seq<(string, string)>, l: seq<Entry>,
      known: set<string>, kind: string)
    requires HashFilesAre(after, before, ext, true, hashes, {}) && Lists(l, after)
    requires forall name: string :: "hash_" <= name ==> name !in before
    requires forall i :: 0 <= i < |hashes| ==> '_' !in hashes[i].0
    requires forall i, j :: 0 <= i < j < |hashes| ==> hashes[i].0 != hashes[j].0
    ensures kind in HashesOf(l, ext, known) <==> kind in known && exists i :: 0 <= i < |hashes| && hashes[i].0 == kind
    ensures forall i :: 0 <= i < |hashes| && hashes[i].0 == kind && kind in known ==>
      kind in HashesOf(l, ext, known) && HashesOf(l, ext, known)[kind] == hashes[i].1
  {
    HashesAreListed(l, ext, known, kind);
    forall i | 0 <= i < |hashes|
      ensures exists e :: e in l && HashOf(e, ext) == Some(hashes[i])
    {
      HashNameReadBack(hashes[i].0, hashes[i].1, ext);
      var name := HashName(hashes[i].0, hashes[i].1, ext);
      assert HasHashFile(after, hashes[i], ext);
      assert after[name] in l && HashOf(after[name], ext) == Some(hashes[i]);
    }
    forall e | e in l && HashOf(e, ext).Some?
      ensures exists i :: 0 <= i < |hashes| && HashOf(e, ext) == Some(hashes[i])
    {
      assert SameAt(e.name, after, before) || NamesHash(e.name, hashes, ext);
      var i :| 0 <= i < |hashes| && e.name == HashName(hashes[i].0, hashes[i].1, ext);
      HashNameReadBack(hashes[i].0, hashes[i].1, ext);
    }
    hide HashOf, HashesOf, HasHashFile;
  }

  /** Over an older upload the hash files of both are listed, and the order of the listing decides which one counts. */
  lemma StaleHashWins(ext: string)
    ensures var earlier, later := HashEntry("md5", "0", ext), HashEntry("md5", "1", ext);
      && HashesOf([earlier, later], ext, {"md5"}) == map["md5" := "1"]
      && HashesOf([later, earlier], ext, {"md5"}) == map["md5" := "0"]
  {
    var earlier, later := HashEntry("md5", "0", ext), HashEntry("md5", "1", ext);
    HashNameReadBack("md5", "0", ext);
    HashNameReadBack("md5", "1", ext);
    hide HashName, HashOfName;
    OneHash(earlier, ext);
    OneHash(later, ext);
    assert [earlier, later][..1] == [earlier] && [later, earlier][..1] == [later];
  }

  lemma OneHash(e: Entry, ext: string)
    ensures HashesOf([e], ext, {"md5"}) ==
      if HashOf(e, ext).Some? && HashOf(e, ext).value.0 == "md5" then map["md5" := HashOf(e, ext).value.1] else map[]
  {
    assert [e][..0] == [];
  }

  /** A file that does not fit in one part has at least two. */
  lemma SplitInTwo(content: seq<byte>, n: nat)
    requires n > 0
    ensures |Split(content, n)| > 0 && (|content| > n ==> |Split(content, n)| > 1)
  {
  }

  /** The chunked upload: the full parts, then whatever the reader still holds as the last part. */
  method PutParts(file: Reader, partSize: nat, ext: string, folder: Folder, failsAt: nat, removes: bool)
    returns (ok: bool, folder': Folder)
    requires partSize > 0 && file.Valid()
    modifies file
    ensures ok <==> |Split(old(file.Rest()), partSize)| <= failsAt
    ensures ok ==> folder' == Stored(old(file.Rest()), partSize, ext, folder)
    ensures !ok ==>
      folder' == AfterFailure(WithParts(folder, Split(old(file.Rest()), partSize), failsAt, ext), removes)
  {
    ghost var content := file.Rest();
    ghost var parts := Split(content, partSize);
    var fullPartCount, tailSize := PartCount(|file.data| - file.pos, partSize);
    LastPartIndex(content, partSize, fullPartCount, tailSize);
    SequentialRead(content, partSize);
    ok, folder' := StoreFullParts(file, partSize, fullPartCount, ext, folder, failsAt, removes, parts);
    if !ok {
      return;
    }
    var b := file.Read(|file.data| - file.pos);
    assert b == parts[fullPartCount] && |b| == tailSize;
    if fullPartCount == failsAt {
      return false, if removes then map[] else folder';
    }
    folder' := StorePart(folder', fullPartCount, b, ext);
  }

  /** How `Put` finds its last part, never an empty one after a full one. */
  method PartCount(size: nat, partSize: nat) returns (fullPartCount: nat, tailSize: nat)
    requires partSize > 0
    ensures size == fullPartCount * partSize + tailSize
    ensures 0 < tailSize <= partSize || fullPartCount == tailSize == 0
  {
    fullPartCount := size / partSize;
    tailSize := size % partSize;
    if tailSize == 0 && fullPartCount > 0 {
      fullPartCount := fullPartCount - 1;
      tailSize := partSize;
    }
  }

  lemma {:induction false} LastPartIndex(s: seq<byte>, n: nat, count: nat, tail: nat)
    requires n > 0 && |s| == count * n + tail
    requires 0 < tail <= n || count == tail == 0
    ensures |Split(s, n)| == count + 1 && |Split(s, n)[count]| == tail
    decreases |s|
  {
    if count > 0 {
      OneLess(count, n);
      var rest := s[n..];
      assert Split(s, n) == [s[..n]] + Split(rest, n);
      hide Split;
      LastPartIndex(rest, n, count - 1, tail);
    }
  }

  lemma OneLess(count: nat, n: nat)
    requires count > 0
    ensures count * n == (count - 1) * n + n >= n
  {
    assert (count - 1) * n >= 0;
  }

  // ---------- What the stored folder looks like to Get and Link ----------

  /** What the part names resolve to when `Link` opens them. */
  function Resolve(folder: Folder, ext: string, n: nat): Remote {
    seq(n, i requires 0 <= i < n =>
      var name := PartName(i, ext);
      if name in folder && !folder[name].isDir then Some(folder[name].data) else None)
  }

  ghost predicate WellNamed(folder: Folder) {
    forall name :: name in folder ==> folder[name].name == name
  }

  /** `l` lists the folder, in any order. */
  ghost predicate Lists(l: seq<Entry>, folder: Folder) {
    && (forall e :: e in l ==> e.name in folder && folder[e.name] == e)
    && (forall name :: name in folder ==> folder[name] in l)
    && NoRepeats(l)
  }

  function PartNamesOf(lost: set<nat>, ext: string): set<string> {
    set i | i in lost :: PartName(i, ext)
  }

  lemma PartNamesDiffer(i: nat, j: nat, ext: string)
    requires i <= MAX_INT64 && j <= MAX_INT64 && PartName(i, ext) == PartName(j, ext)
    ensures i == j
  {
    IndexOfPartName(i, ext);
    IndexOfPartName(j, ext);
  }

  /** `f` is `folder` with the first `k` parts under their names and everything else as before. */
  ghost predicate Overlaid(f: Folder, folder: Folder, parts: seq<seq<byte>>, k: nat, ext: string)
    requires k <= |parts|
  {
    && WellNamed(f)
    && (forall i: nat :: i < k ==> PartName(i, ext) in f && f[PartName(i, ext)] == PartEntry(parts, i, ext))
    && (forall name :: name in f ==> (name in folder && f[name] == folder[name]) || IsNew(name, k, ext))
    && (forall name :: name in folder ==> name in f && (f[name] == folder[name] || IsNew(name, k, ext)))
  }

  ghost predicate IsNew(name: string, k: nat, ext: string) {
    exists i: nat :: i < k && name == PartName(i, ext)
  }

  function PartEntry(parts: seq<seq<byte>>, i: nat, ext: string): Entry
    requires i < |parts|
  {
    Entry(PartName(i, ext), false, parts[i])
  }

  lemma OverlaidStep(f: Folder, folder: Folder, parts: seq<seq<byte>>, k: nat, ext: string)
    requires k < |parts| <= MAX_INT64 && Overlaid(f, folder, parts, k, ext)
    ensures Overlaid(StorePart(f, k, parts[k], ext), folder, parts, k + 1, ext)
  {
    NamesApart(k, ext);
    var name, e := PartName(k, ext), PartEntry(parts, k, ext);
    assert StorePart(f, k, parts[k], ext) == f[name := e] && e.name == name;
    hide IsNew, PartName, PartEntry, StorePart;
  }

  lemma NamesApart(k: nat, ext: string)
    requires k <= MAX_INT64
    ensures forall i: nat :: i < k ==> PartName(i, ext) != PartName(k, ext)
    ensures forall name :: IsNew(name, k + 1, ext) == (IsNew(name, k, ext) || name == PartName(k, ext))
  {
    forall i: nat | i < k ensures PartName(i, ext) != PartName(k, ext) {
      if PartName(i, ext) == PartName(k, ext) {
        PartNamesDiffer(i, k, ext);
      }
    }
    forall name ensures IsNew(name, k + 1, ext) == (IsNew(name, k, ext) || name == PartName(k, ext)) {
      if IsNew(name, k + 1, ext) {
        var i: nat :| i < k + 1 && name == PartName(i, ext);
        assert i < k || i == k;
      }
    }
  }

  /** The folder after `k` parts: those parts under their names, everything else as before. */
  lemma {:induction false} WithPartsHolds(folder: Folder, parts: seq<seq<byte>>, k: nat, ext: string)
    requires k <= |parts| <= MAX_INT64 && WellNamed(folder)
    ensures Overlaid(WithParts(folder, parts, k, ext), folder, parts, k, ext)
  {
    if k > 0 {
      WithPartsHolds(folder, parts, k - 1, ext);
      hide Overlaid;
      OverlaidStep(WithParts(folder, parts, k - 1, ext), folder, parts, k - 1, ext);
    }
  }

  /** The part files of the folder are exactly the parts 0, 1, 2, ... of this list, under their names. */
  ghost predicate HoldsParts(f: Folder, ext: string, parts: seq<seq<byte>>) {
    && WellNamed(f)
    && (forall i: nat :: i < |parts| ==>
        PartName(i, ext) in f && f[PartName(i, ext)] == PartEntry(parts, i, ext))
    && forall name :: name in f && Index(f[name], ext).Some? ==> IsNew(name, |parts|, ext)
  }

  /** Hash files are no parts: what holds of a folder with these parts holds of it with hash files as well. */
  lemma {:induction false} HashFilesAreNoParts(folder: Folder, hashes: seq<(string, string)>, fails: set<nat>, k: nat,
      ext: string, parts: seq<seq<byte>>)
    requires k <= |hashes| && |parts| <= MAX_INT64 && HoldsParts(folder, ext, parts)
    ensures HoldsParts(WithHashes(folder, hashes, fails, k, ext), ext, parts)
  {
    if k > 0 {
      HashFilesAreNoParts(folder, hashes, fails, k - 1, ext, parts);
      var e := HashEntry(hashes[k - 1].0, hashes[k - 1].1, ext);
      assert "hash_" <= e.name;
      forall i: nat | i < |parts| ensures PartName(i, ext) != e.name {
        IndexOfPartName(i, ext);
      }
    }
  }

  /** Only the first part may be empty. */
  ghost predicate Solid(parts: seq<seq<byte>>) {
    |parts| <= MAX_INT64 && forall i :: 0 < i < |parts| ==> parts[i] != []
  }

  lemma SplitIsSolid(content: seq<byte>, n: nat)
    requires n > 0 && |content| <= MAX_INT64
    ensures Solid(Split(content, n)) && Split(content, n) != []
  {
    SplitAtMost(content, n);
    forall i | 0 < i < |Split(content, n)| ensures Split(content, n)[i] != [] {
      SplitAt(content, n, i - 1);
      SplitAt(content, n, i);
      assert (i - 1 + 1) * n == i * n && (i + 1) * n == i * n + n;
    }
  }

  // ---------- Uploading over what is there ----------

  /** The parts of an older upload that a new one of `n` parts does not replace. */
  function Stale(older: seq<seq<byte>>, n: nat): seq<seq<byte>> {
    if n <= |older| then older[n..] else []
  }

  /** `Put` does not clear the folder: after `k` parts it holds those, followed by the older ones not replaced yet. */
  lemma OverwrittenHolds(folder: Folder, parts: seq<seq<byte>>, k: nat, ext: string, older: seq<seq<byte>>)
    requires k <= |parts| <= MAX_INT64 && |older| <= MAX_INT64 && HoldsParts(folder, ext, older)
    ensures HoldsParts(WithParts(folder, parts, k, ext), ext, parts[..k] + Stale(older, k))
  {
    var all := parts[..k] + Stale(older, k);
    var f := WithParts(folder, parts, k, ext);
    WithPartsHolds(folder, parts, k, ext);
    forall i: nat | i < |all| ensures PartName(i, ext) in f && f[PartName(i, ext)] == PartEntry(all, i, ext) {
      if i >= k {
        assert all[i] == older[i];
        NotNew(i, k, ext);
      }
    }
    forall name | name in f && Index(f[name], ext).Some? ensures IsNew(name, |all|, ext) {
      if !IsNew(name, k, ext) {
        assert IsNew(name, |older|, ext);
        var i: nat :| i < |older| && name == PartName(i, ext);
        assert i < |all|;
      }
    }
  }

  /** So an upload leaves the pieces of the new file followed by the stale parts. */
  lemma StoredHolds(content: seq<byte>, partSize: nat, ext: string, folder: Folder, older: seq<seq<byte>>)
    requires partSize > 0 && |content| <= MAX_INT64 && |older| <= MAX_INT64 && HoldsParts(folder, ext, older)
    ensures var parts := Split(content, partSize);
      HoldsParts(Stored(content, partSize, ext, folder), ext, parts + Stale(older, |parts|))
  {
    var parts := Split(content, partSize);
    SplitAtMost(content, partSize);
    OverwrittenHolds(folder, parts, |parts|, ext, older);
    assert parts[..|parts|] == parts;
  }

  /** And an upload that fails destroys the older file: nothing is left of it, or, if the removal fails as well, a
      mixture of the new parts before the failed one and the older parts behind them, which passes for a file. */
  lemma FailedUploadDestroys(folder: Folder, parts: seq<seq<byte>>, failsAt: nat, ext: string, older: seq<seq<byte>>,
      removes: bool)
    requires failsAt < |parts| && Solid(parts) && Solid(older) && HoldsParts(folder, ext, older)
    ensures var left := if removes then [] else parts[..failsAt] + Stale(older, failsAt);
      HoldsParts(AfterFailure(WithParts(folder, parts, failsAt, ext), removes), ext, left) && Solid(left)
  {
    if !removes {
      OverwrittenHolds(folder, parts, failsAt, ext, older);
    }
  }

  lemma NotNew(i: nat, n: nat, ext: string)
    requires n <= i <= MAX_INT64
    ensures !IsNew(PartName(i, ext), n, ext)
  {
    forall j: nat | j < n ensures PartName(i, ext) != PartName(j, ext) {
      if PartName(i, ext) == PartName(j, ext) {
        PartNamesDiffer(i, j, ext);
      }
    }
  }

  /** For example, one byte stored over an older upload of three in parts of one and two bytes: the second part stays
      in the folder. */
  lemma StalePartsRemain(b: byte)
    ensures var older := [[b], [b, b]];
      var before := WithParts(map[], older, 2, "");
      var after := Stored([b], 1, "", before);
      && HoldsParts(before, "", older) && HoldsParts(after, "", older)
      && PartName(1, "") in after && after[PartName(1, "")].data == [b, b]
  {
    var older := [[b], [b, b]];
    var before := WithParts(map[], older, 2, "");
    OverwrittenHolds(map[], older, 2, "", []);
    assert older[..2] + Stale([], 2) == older;
    assert Split([b], 1) == [[b]] && [[b]] + Stale(older, 1) == older;
    StoredHolds([b], 1, "", before, older);
  }

  // ---------- Listing, and losing parts ----------

  /** From a folder that holds these parts, the parts `lost` were deleted, and `l` lists what is left. */
  ghost predicate HeldThenLost(f: Folder, ext: string, parts: seq<seq<byte>>, lost: set<nat>, l: seq<Entry>) {
    && HoldsParts(f, ext, parts) && |parts| <= MAX_INT64
    && (forall i :: i in lost ==> i < |parts|)
    && Lists(l, f - PartNamesOf(lost, ext))
  }

  /** The part files left in the folder are exactly the surviving parts. */
  lemma SurvivingEntries(f: Folder, ext: string, parts: seq<seq<byte>>, lost: set<nat>, l: seq<Entry>)
    requires HeldThenLost(f, ext, parts, lost, l)
    ensures forall i: nat :: i < |parts| && i !in lost ==>
      PartEntry(parts, i, ext) in l && Index(PartEntry(parts, i, ext), ext) == Some(i)
    ensures forall e :: e in l && Index(e, ext).Some? ==>
      exists i: nat :: i < |parts| && i !in lost && e == PartEntry(parts, i, ext)
  {
    forall i: nat | i < |parts| && i !in lost
      ensures PartEntry(parts, i, ext) in l && Index(PartEntry(parts, i, ext), ext) == Some(i)
    {
      IndexOfPartName(i, ext);
      forall j: nat | j in lost ensures PartName(i, ext) != PartName(j, ext) {
        if PartName(i, ext) == PartName(j, ext) { PartNamesDiffer(i, j, ext); }
      }
      assert PartName(i, ext) in f - PartNamesOf(lost, ext);
    }
    forall e | e in l && Index(e, ext).Some?
      ensures exists i: nat :: i < |parts| && i !in lost && e == PartEntry(parts, i, ext)
    {
      assert e.name in f && f[e.name] == e && e.name !in PartNamesOf(lost, ext);
      var i: nat :| i < |parts| && e.name == PartName(i, ext);
      assert i !in lost && e == PartEntry(parts, i, ext);
    }
  }

  /** `Get` sees the surviving parts with their sizes, and nothing else. */
  lemma SurvivingSizes(f: Folder, ext: string, parts: seq<seq<byte>>, lost: set<nat>, l: seq<Entry>)
    requires HeldThenLost(f, ext, parts, lost, l)
    ensures forall i: int :: SizeOf(l, ext, i) == if 0 <= i < |parts| && i !in lost then Some(|parts[i]|) else None
    ensures Distinct(l, ext)
  {
    SurvivingEntries(f, ext, parts, lost, l);
    forall i: int ensures SizeOf(l, ext, i) == if 0 <= i < |parts| && i !in lost then Some(|parts[i]|) else None {
      SizeOfMember(l, ext, i);
    }
    forall i, j | 0 <= i < j < |l| && Index(l[i], ext).Some? ensures Index(l[i], ext) != Index(l[j], ext) {
      assert l[i] in l && l[j] in l && l[i] != l[j];
    }
  }

  /** Deleting parts of a stored file: as long as part 0 is left, `Link` accepts what `Get` reports exactly
      when the surviving parts are the first ones. So every gap is detected, and only a lost tail is not;
      an intact file always passes. */
  lemma MissingPartsDetected(f: Folder, ext: string, parts: seq<seq<byte>>, lost: set<nat>, l: seq<Entry>, t: seq<int>)
    requires HeldThenLost(f, ext, parts, lost, l) && Solid(parts) && parts != []
    requires 0 !in lost && IsTable(l, ext, t)
    ensures Accepted(t) <==> forall i, j :: i in lost && i < j < |parts| ==> j in lost
    ensures !HasNegative(l, ext) && SizeOf(l, ext, 0).Some?
  {
    var n := |parts|;
    SurvivingSizes(f, ext, parts, lost, l);
    assert forall i :: 0 <= i < |t| ==> t[i] == Cell(l, ext, i);
    assert forall i: nat :: i in lost ==> Cell(l, ext, i) == 0;
    assert |t| <= n;
    if Accepted(t) {
      forall i, j | i in lost && i < j < n ensures j in lost {
        assert SizeOf(l, ext, j).Some? ==> j < |t|;
      }
    } else {
      var i :| 1 <= i < |t| - 1 && t[i] == 0;
      assert t[i] == Cell(l, ext, i);
      assert i in lost;
      assert |t| - 1 !in lost && i < |t| - 1;
    }
  }

  /** For example, of a file of three one-byte parts the last one may get lost without `Link` noticing: `Get`
      then reports a file of two bytes. */
  lemma LostTailPasses(b: byte)
    ensures var l := [Entry("0", false, [b]), Entry("1", false, [b])];
      IsTable(l, "", [1, 1]) && Accepted([1, 1]) && TotalSize(l, "") == 2
      && Concat(Split([b, b, b], 1)) == [b, b, b] && |Split([b, b, b], 1)| == 3
  {
    var l := [Entry("0", false, [b]), Entry("1", false, [b])];
    ExampleListing(b);
    ConcatSplit([b, b, b], 1);
    SplitCount([b, b, b], 1);
  }

  lemma ExampleListing(b: byte)
    ensures var l := [Entry("0", false, [b]), Entry("1", false, [b])];
      IsTable(l, "", [1, 1]) && TotalSize(l, "") == 2
  {
    var e0, e1 := Entry("0", false, [b]), Entry("1", false, [b]);
    IndexOfPartName(0, "");
    IndexOfPartName(1, "");
    assert PartName(0, "") == "0" && PartName(1, "") == "1";
    assert [e0, e1][..1] == [e0] && [e0][..0] == [];
    assert forall i: int :: SizeOf([e0], "", i) == if i == 0 then Some(1) else None;
    assert TotalSize([e0], "") == 1 && PartSizeOf(e1, "") == 1;
    assert forall i: int :: SizeOf([e0, e1], "", i) == if i == 0 || i == 1 then Some(1) else None;
  }

  // ---------- The round trip ----------

  /** The sizes of the parts below `n` that are listed. */
  function ListedSizes(l: seq<Entry>, ext: string, n: nat): nat {
    if n == 0 then 0
    else ListedSizes(l, ext, n - 1) + (match SizeOf(l, ext, n - 1) case Some(s) => s case None => 0)
  }

  lemma {:induction false} ListedSizesStep(l: seq<Entry>, m: seq<Entry>, ext: string, n: nat, k: Option<int>, size: nat)
    requires forall i :: 0 <= i < n ==> SizeOf(l, ext, i) == if k == Some(i) then Some(size) else SizeOf(m, ext, i)
    requires k.Some? ==> SizeOf(m, ext, k.value).None?
    ensures ListedSizes(l, ext, n) == ListedSizes(m, ext, n) + if k.Some? && 0 <= k.value < n then size else 0
  {
    if n > 0 {
      ListedSizesStep(l, m, ext, n - 1, k, size);
    }
  }

  /** With distinct part indices below `n`, the size that `Get` and `List` report is the sum of the parts. */
  lemma {:induction false} TotalIsSum(l: seq<Entry>, ext: string, n: nat)
    requires Distinct(l, ext) && forall e :: e in l && Index(e, ext).Some? ==> 0 <= Index(e, ext).value < n
    ensures TotalSize(l, ext) == ListedSizes(l, ext, n)
  {
    if l == [] {
      ListedSizesEmpty(ext, n);
    } else {
      var m, e := l[..|l| - 1], l[|l| - 1];
      assert l[..|l|] == l;
      LastIsNew(l, ext);
      TotalIsSum(m, ext, n);
      SizeOfSnoc(l, ext, |l| - 1);
      ListedSizesStep(l, m, ext, n, Index(e, ext), |e.data|);
    }
  }

  lemma LastIsNew(l: seq<Entry>, ext: string)
    requires Distinct(l, ext) && l != []
    ensures var m, e := l[..|l| - 1], l[|l| - 1];
      && Distinct(m, ext) && e in l && (forall d :: d in m ==> d in l)
      && (Index(e, ext).Some? ==> SizeOf(m, ext, Index(e, ext).value).None?)
  {
    var m, e := l[..|l| - 1], l[|l| - 1];
    if Index(e, ext).Some? {
      SizeOfMember(m, ext, Index(e, ext).value);
    }
  }

  lemma {:induction false} ListedSizesEmpty(ext: string, n: nat)
    ensures ListedSizes([], ext, n) == 0
  {
    if n > 0 {
      ListedSizesEmpty(ext, n - 1);
    }
  }

  lemma {:induction false} ContentOfParts(remote: Remote, t: seq<nat>, parts: seq<seq<byte>>, i: nat)
    requires |remote| == |t| == |parts| && i <= |t|
    requires forall k :: 0 <= k < |t| ==> remote[k] == Some(parts[k]) && t[k] == |parts[k]|
    ensures Content(remote, t, i) == Concat(parts[..i])
  {
    if i > 0 {
      ContentOfParts(remote, t, parts, i - 1);
      ConcatSnoc(parts[..i - 1], parts[i - 1]);
      assert parts[..i] == parts[..i - 1] + [parts[i - 1]];
    }
  }

  lemma {:induction false} OffsetsAreListedSizes(t: seq<nat>, l: seq<Entry>, ext: string, i: nat)
    requires i <= |t| && forall k :: 0 <= k < i ==> SizeOf(l, ext, k) == Some(t[k])
    ensures Offset(t, i) == ListedSizes(l, ext, i)
  {
    if i > 0 {
      OffsetsAreListedSizes(t, l, ext, i - 1);
    }
  }

  /** List a folder with these parts in any order and rebuild the table: `Get` succeeds and reports their total
      size, `Link` accepts, every part is intact, and together they are the file that is read. */
  lemma RoundTrip(f: Folder, ext: string, parts: seq<seq<byte>>, l: seq<Entry>, t: seq<int>)
    requires HeldThenLost(f, ext, parts, {}, l) && Solid(parts) && parts != [] && IsTable(l, ext, t)
    ensures !HasNegative(l, ext) && SizeOf(l, ext, 0).Some? && TotalSize(l, ext) == |Concat(parts)|
    ensures Accepted(t) && forall k :: 0 <= k < |t| ==> t[k] >= 0
    ensures var remote := Resolve(f, ext, |t|);
      && (forall i :: 0 <= i < |t| ==> Intact(remote, t, i))
      && Content(remote, t, |t|) == Concat(parts)
  {
    MissingPartsDetected(f, ext, parts, {}, l, t);
    TableSizes(f, ext, parts, l, t);
    hide IsTable, HeldThenLost, Solid, Accepted, HasNegative;
    ContentIsParts(f, ext, parts, t);
    TotalIsConcat(f, ext, parts, l, t);
  }

  lemma ContentIsParts(f: Folder, ext: string, parts: seq<seq<byte>>, t: seq<nat>)
    requires |t| == |parts| && forall k :: 0 <= k < |t| ==>
      t[k] == |parts[k]| && Resolve(f, ext, |t|)[k] == Some(parts[k])
    ensures Content(Resolve(f, ext, |t|), t, |t|) == Concat(parts) && Offset(t, |t|) == |Concat(parts)|
    ensures forall i :: 0 <= i < |t| ==> Intact(Resolve(f, ext, |t|), t, i)
  {
    assert |Resolve(f, ext, |t|)| == |t|;
    hide Resolve, Concat;
    ContentOfParts(Resolve(f, ext, |t|), t, parts, |t|);
    assert parts[..|t|] == parts;
  }

  lemma TotalIsConcat(f: Folder, ext: string, parts: seq<seq<byte>>, l: seq<Entry>, t: seq<nat>)
    requires HeldThenLost(f, ext, parts, {}, l) && |t| == |parts| && Offset(t, |t|) == |Concat(parts)|
    requires forall k :: 0 <= k < |t| ==> SizeOf(l, ext, k) == Some(t[k])
    ensures TotalSize(l, ext) == |Concat(parts)|
  {
    SurvivingSizes(f, ext, parts, {}, l);
    SurvivingEntries(f, ext, parts, {}, l);
    assert |parts| <= MAX_INT64;
    hide HeldThenLost, Concat, SizeOf, TotalSize, Distinct;
    OffsetsAreListedSizes(t, l, ext, |t|);
    IndicesBelow(l, ext, parts);
    TotalIsSum(l, ext, |t|);
  }

  /** The table of an intact folder holds the size of each part. */
  lemma TableSizes(f: Folder, ext: string, parts: seq<seq<byte>>, l: seq<Entry>, t: seq<int>)
    requires HeldThenLost(f, ext, parts, {}, l) && parts != [] && IsTable(l, ext, t)
    ensures |t| == |parts| && forall k :: 0 <= k < |t| ==> t[k] == |parts[k]| && SizeOf(l, ext, k) == Some(t[k])
    ensures forall k :: 0 <= k < |t| ==> Resolve(f, ext, |t|)[k] == Some(parts[k])
  {
    SurvivingSizes(f, ext, parts, {}, l);
    assert SizeOf(l, ext, |parts| - 1).Some?;
    forall k | 0 <= k < |t| ensures t[k] == |parts[k]| && SizeOf(l, ext, k) == Some(t[k]) {
      assert t[k] == Cell(l, ext, k);
    }
  }

  lemma IndicesBelow(l: seq<Entry>, ext: string, parts: seq<seq<byte>>)
    requires forall e :: e in l && Index(e, ext).Some? ==>
      exists i: nat :: i < |parts| && i !in {} && e == PartEntry(parts, i, ext)
    requires |parts| <= MAX_INT64
    ensures forall e :: e in l && Index(e, ext).Some? ==> 0 <= Index(e, ext).value < |parts|
  {
    forall e | e in l && Index(e, ext).Some? ensures 0 <= Index(e, ext).value < |parts| {
      var i: nat :| i < |parts| && e == PartEntry(parts, i, ext);
      IndexOfPartName(i, ext);
    }
  }

  function Sizes(parts: seq<seq<byte>>): seq<nat> {
    seq(|parts|, i requires 0 <= i < |parts| => |parts[i]|)
  }

  /** What a caller asked for, without machine arithmetic: the range cut off at the end of the file. */
  function Wanted(content: seq<byte>, start: nat, length: int): seq<byte>
    requires start <= |content|
  {
    if length < 0 || start + length > |content| then content[start..] else content[start..start + length]
  }

  lemma ClampMeans(content: seq<byte>, start: nat, length: int)
    requires start <= MAX_INT64 && length <= MAX_INT64 && |content| <= MAX_INT64
    ensures var l := Clamp(start, length, |content|);
      if start > |content| then l != 0
      else if length >= 0 && start + length > MAX_INT64 then l != 0 && start + l > |content|
      else l == |Wanted(content, start, length)|
  {
  }

  /** One part, which holds byte `start`, goes on behind `stop`. */
  ghost predicate GoesBeyond(sizes: seq<nat>, start: nat, stop: nat) {
    exists i: nat :: i < |sizes| && Holds(sizes, i, start) && stop < Offset(sizes, i + 1)
  }

  function Max(a: nat, b: nat): nat { if a < b then b else a }

  /** What a reader of the file gets that consists of parts of these sizes: an error exactly if it starts behind the
      end or `start + length` overflows an int64, nothing if nothing was asked for, and otherwise the file from `start`
      on, up to the end of the range, or to the end of the part that holds all of it, from exactly the parts that the
      range touches, in order. */
  ghost predicate Delivers(content: seq<byte>, sizes: seq<nat>, start: nat, length: int, r: Failable<seq<byte>>,
      links: seq<nat>)
  {
    && (r.Ok? <==> start <= |content| && (length < 0 || start + length <= MAX_INT64))
    && (r.Ok? ==>
      var wanted := Wanted(content, start, length);
      if wanted == [] then r.value == [] && links == []
      else
        && wanted <= r.value <= content[start..]
        && (forall i: nat :: i < |sizes| && Holds(sizes, i, start) ==>
            start + |r.value| == Max(start + |wanted|, Offset(sizes, i + 1)))
        && (r.value == wanted <==> !GoesBeyond(sizes, start, start + |wanted|))
        && links == TouchedParts(sizes, start, |wanted|, |sizes|))
  }

  /** Reading from intact parts: the outcome without machine arithmetic. */
  lemma RangeIsWanted(remote: Remote, t: seq<nat>, content: seq<byte>, start: nat, length: int,
      r: Failable<seq<byte>>, links: seq<nat>)
    requires |remote| == |t| && Content(remote, t, |t|) == content && forall i :: 0 <= i < |t| ==> Intact(remote, t, i)
    requires start <= MAX_INT64 && length <= MAX_INT64 && |content| <= MAX_INT64
    requires var l := Clamp(start, length, |content|);
      if l == 0 then r == Ok([]) && links == [] else Serves(remote, t, start, l, r, links)
    ensures Delivers(content, t, start, length, r, links)
  {
    ClampMeans(content, start, length);
    var l := Clamp(start, length, |content|);
    if l != 0 && r.Ok? {
      assert l == |Wanted(content, start, length)| > 0;
      ServedIsWanted(remote, t, content, start, length, r.value, links);
    }
  }

  lemma ServedIsWanted(remote: Remote, t: seq<nat>, content: seq<byte>, start: nat, length: int, rs: seq<byte>,
      links: seq<nat>)
    requires |remote| == |t| && Content(remote, t, |t|) == content && start <= |content|
    requires Wanted(content, start, length) != []
    requires Serves(remote, t, start, |Wanted(content, start, length)|, Ok(rs), links)
    ensures var wanted := Wanted(content, start, length);
      && wanted <= rs <= content[start..]
      && (forall j: nat :: j < |t| && Holds(t, j, start) ==> start + |rs| == Max(start + |wanted|, Offset(t, j + 1)))
      && (rs == wanted <==> !GoesBeyond(t, start, start + |wanted|)) && links == TouchedParts(t, start, |wanted|, |t|)
  {
    var wanted := Wanted(content, start, length);
    EndOfStream(t, start, |wanted|, start + |rs|);
    SamePieces(content, start, |wanted|, |rs|);
    hide Offset, Content, TouchedParts, EndsAt, GoesBeyond, Intact, Touched;
  }

  lemma SamePieces(content: seq<byte>, start: nat, m: nat, n: nat)
    requires m <= n && start + n <= |content|
    ensures content[start..start + m] <= content[start..start + n] <= content[start..]
    ensures start + m == |content| ==> content[start..] == content[start..start + m]
  {
  }

  lemma EndOfStream(t: seq<nat>, start: nat, length: nat, stop: nat)
    requires EndsAt(t, start, length, stop)
    ensures start + length <= stop && (stop == start + length <==> !GoesBeyond(t, start, start + length))
    ensures forall j: nat :: j < |t| && Holds(t, j, start) ==> stop == Max(start + length, Offset(t, j + 1))
  {
    var i: nat :| i < |t| && Holds(t, i, start) && stop == StreamEnd(t, i, start, length);
    OnlyHolder(t, i, start);
    hide Offset;
  }

  /** Only one part holds a byte. */
  lemma OnlyHolder(t: seq<nat>, i: nat, start: nat)
    requires i < |t| && Holds(t, i, start)
    ensures forall j: nat :: j < |t| && Holds(t, j, start) ==> j == i
  {
    forall j: nat | j < |t| && Holds(t, j, start) ensures j == i {
      if j < i { OffsetsGrow(t, j + 1, i); }
      if i < j { OffsetsGrow(t, i + 1, j); }
    }
  }

  /** For example, reading a file of two bytes from byte 1 on: a length of at most the largest int64 less 1 is cut
      off at the end of the file, but with the largest int64 the sum wraps around, the length stays, and no part is
      left to serve it. */
  lemma OverflowSkipsTheClamp(a: byte, b: byte)
    ensures Clamp(1, MAX_INT64 - 1, 2) == 1 && Clamp(1, MAX_INT64, 2) == MAX_INT64
    ensures Servable([Some([a, b])], [2], 1, 1) && !Servable([Some([a, b])], [2], 1, MAX_INT64)
  {
    assert Offset([2], 1) == 2;
  }

  /** A backend listing, in whatever order. */
  method ListFolder(folder: Folder) returns (l: seq<Entry>)
    requires WellNamed(folder)
    ensures Lists(l, folder)
  {
    l := [];
    var names := folder.Keys;
    while names != {}
      invariant names <= folder.Keys
      invariant forall e :: e in l ==> e.name in folder && e.name !in names && folder[e.name] == e
      invariant forall name :: name in folder && name !in names ==> folder[name] in l
      invariant NoRepeats(l)
      decreases names
    {
      var name :| name in names;
      l := l + [folder[name]];
      names := names - {name};
    }
  }

  /** End to end, as a client sees it: `Put` over what the folder holds, then list the folder, rebuild the table, check
      it, and read a range. Unless the file is uploaded as it is, or the upload fails, what is read is the new file,
      followed by the stale parts of a longer older upload: an error exactly behind the end or on overflow, and
      otherwise the range asked for, or more of the one part that holds it, from exactly the parts it touches. So the
      stream begins with the bytes asked for whenever the read starts in the new file; read to the end, it is right
      exactly if the stale parts hold nothing. */
  method StoreThenRead(file: Reader, partSize: nat, ext: string, folder: Folder, failsAt: nat, removes: bool,
      thumbnail: bool, largeOnly: bool, storeHash: bool, hashes: seq<(string, string)>, hashFails: set<nat>,
      start: nat, length: int, ghost older: seq<seq<byte>>)
    returns (put: PutResult, r: Failable<seq<byte>>, links: seq<nat>, ghost tail: seq<byte>)
    requires partSize > 0 && file.Valid() && HoldsParts(folder, ext, older) && Solid(older)
    requires |file.Rest()| + |Concat(Stale(older, |Split(file.Rest(), partSize)|))| <= MAX_INT64
    requires start <= MAX_INT64 && length <= MAX_INT64
    modifies file
    ensures put.Direct? ==> put.data == old(file.Rest())
    ensures !thumbnail && (!largeOnly || |old(file.Rest())| > partSize) ==> !put.Direct?
    ensures !thumbnail && !put.Failed? && largeOnly && |old(file.Rest())| <= partSize ==> put.Direct?
    ensures failsAt > |old(file.Rest())| ==> !put.Failed?
    ensures var parts := Split(old(file.Rest()), partSize);
      var stale := Stale(older, |parts|);
      && tail == Concat(stale)
      && (put.Chunked? ==> Delivers(old(file.Rest()) + tail, Sizes(parts + stale), start, length, r, links))
    ensures put.Chunked? && r.Ok? && start <= |old(file.Rest())| ==> Wanted(old(file.Rest()), start, length) <= r.value
    ensures put.Chunked? && r.Ok? && start <= |old(file.Rest())| && length < 0 ==>
      (r.value == old(file.Rest())[start..] <==> tail == [])
  {
    ghost var content := file.Rest();
    ghost var parts := Split(content, partSize);
    ghost var all := parts + Stale(older, |parts|);
    tail := Concat(Stale(older, |parts|));
    StoredIsSolid(content, partSize, older);
    hide HoldsParts, Solid, Concat, Split, Stale, Delivers, Stored, WithParts, WithHashes, HashFilesAre;
    put := Put(file, partSize, ext, folder, failsAt, removes, thumbnail, largeOnly, storeHash, hashes, hashFails);
    if !put.Chunked? {
      return put, Err(()), [], tail;
    }
    HashFilesAreNoParts(folder, hashes, hashFails, |hashes|, ext, older);
    ghost var f := if storeHash then WithHashes(folder, hashes, hashFails, |hashes|, ext) else folder;
    StoredHolds(content, partSize, ext, f, older);
    r, links := ReadStored(put.folder, ext, start, length, all);
    if r.Ok? && start <= |content| {
      DeliveredBegins(content, tail, Sizes(all), start, length, r, links);
    }
  }

  lemma DeliveredBegins(content: seq<byte>, tail: seq<byte>, sizes: seq<nat>, start: nat, length: int,
      r: Failable<seq<byte>>, links: seq<nat>)
    requires Delivers(content + tail, sizes, start, length, r, links) && r.Ok? && start <= |content|
    ensures Wanted(content, start, length) <= r.value
    ensures length < 0 ==> (r.value == content[start..] <==> tail == [])
  {
    WantedOfWhole(content, tail, start, length);
  }

  lemma StoredIsSolid(content: seq<byte>, partSize: nat, older: seq<seq<byte>>)
    requires partSize > 0 && Solid(older) && |content| <= MAX_INT64
    ensures var parts := Split(content, partSize);
      var all := parts + Stale(older, |parts|);
      && Solid(all) && all != [] && Concat(all) == content + Concat(Stale(older, |parts|)) && |parts| <= |content| + 1
  {
    var parts := Split(content, partSize);
    SplitIsSolid(content, partSize);
    SplitAtMost(content, partSize);
    ConcatSplit(content, partSize);
    ConcatAppend(parts, Stale(older, |parts|));
  }

  lemma WantedOfWhole(content: seq<byte>, tail: seq<byte>, start: nat, length: int)
    requires start <= |content|
    ensures Wanted(content, start, length) <= Wanted(content + tail, start, length)
    ensures Wanted(content + tail, start, -1) == content[start..] + tail
  {
    var whole := content + tail;
    assert whole[start..] == content[start..] + tail;
    if length >= 0 && start + length <= |whole| {
      assert whole[start..start + length] == whole[start..][..length];
      assert start + length <= |content| ==> content[start..start + length] == whole[start..start + length];
    }
  }

  /** Listing a folder that holds these parts, rebuilding the table, checking it and reading a range. */
  method ReadStored(f: Folder, ext: string, start: nat, length: int, ghost parts: seq<seq<byte>>)
    returns (r: Failable<seq<byte>>, links: seq<nat>)
    requires HoldsParts(f, ext, parts) && Solid(parts) && parts != [] && |Concat(parts)| <= MAX_INT64
    requires start <= MAX_INT64 && length <= MAX_INT64
    ensures Delivers(Concat(parts), Sizes(parts), start, length, r, links)
  {
    var l := ListFolder(f);
    assert f - PartNamesOf({}, ext) == f;
    var found := Get(l, ext, {});
    var t := TableOf(f, ext, parts, l, found);
    var ok := Link(t);
    assert ok;
    r, links := RangeRead(Resolve(f, ext, |t|), t, found.size, start, length);
    hide HoldsParts, Solid, Concat, Delivers;
    assert t == Sizes(parts);
    RangeIsWanted(Resolve(f, ext, |t|), t, Concat(parts), start, length, r, links);
  }

  /** The table that `Get` returned for an intact folder. */
  method TableOf(ghost f: Folder, ghost ext: string, ghost parts: seq<seq<byte>>, ghost l: seq<Entry>, found: GetResult)
    returns (t: seq<nat>)
    requires HeldThenLost(f, ext, parts, {}, l) && Solid(parts) && parts != []
    requires found.Panic? <==> HasNegative(l, ext) || SizeOf(l, ext, 0).None?
    requires found.Object? ==> found.size == TotalSize(l, ext) && IsTable(l, ext, found.table)
    ensures found.Object? && t == found.table && found.size == |Concat(parts)| && |t| >= 1 && Accepted(t)
    ensures t == Sizes(parts)
    ensures var remote := Resolve(f, ext, |t|);
      && (forall i :: 0 <= i < |t| ==> Intact(remote, t, i))
      && Content(remote, t, |t|) == Concat(parts)
  {
    SurvivingSizes(f, ext, parts, {}, l);
    RoundTrip(f, ext, parts, l, found.table);
    TableSizes(f, ext, parts, l, found.table);
    t := found.table;
  }

  // ---------- Uploading over an older chunk folder ----------

  ghost predicate IsOwn(e: Entry, ext: string, n: nat) {
    exists i: nat :: i < n && e.name == PartName(i, ext)
  }

  /** The entries that carry the name of one of the `n` new parts. */
  ghost function Own(l: seq<Entry>, ext: string, n: nat): seq<Entry> {
    if l == [] then []
    else
      var e := l[|l| - 1];
      Own(l[..|l| - 1], ext, n) + if IsOwn(e, ext, n) then [e] else []
  }

  /** The sizes of all part files that the upload of `n` parts left in place. */
  ghost function StaleSize(l: seq<Entry>, ext: string, n: nat): nat {
    if l == [] then 0
    else
      var e := l[|l| - 1];
      StaleSize(l[..|l| - 1], ext, n) + if IsOwn(e, ext, n) then 0 else PartSizeOf(e, ext)
  }

  lemma {:induction false} OwnAndStale(l: seq<Entry>, ext: string, n: nat)
    ensures TotalSize(l, ext) == TotalSize(Own(l, ext, n), ext) + StaleSize(l, ext, n)
  {
    if l != [] {
      var m, e := l[..|l| - 1], l[|l| - 1];
      OwnAndStale(m, ext, n);
      TotalSizeSnoc(Own(m, ext, n), e, ext);
      assert Own(m, ext, n) + [] == Own(m, ext, n);
    }
  }

  lemma {:induction false} OwnMembers(l: seq<Entry>, ext: string, n: nat)
    requires NoRepeats(l)
    ensures forall e :: e in Own(l, ext, n) <==> e in l && IsOwn(e, ext, n)
    ensures NoRepeats(Own(l, ext, n))
  {
    if l != [] {
      var m, e := l[..|l| - 1], l[|l| - 1];
      var o := Own(m, ext, n);
      OwnMembers(m, ext, n);
      hide IsOwn;
      assert l == m + [e] && e !in m;
      assert o + [] == o;
      if IsOwn(e, ext, n) {
        assert NoRepeats(o + [e]);
      }
    }
  }

  lemma StoredTableExists(f: Folder, ext: string, parts: seq<seq<byte>>, l: seq<Entry>) returns (t: seq<int>)
    requires HeldThenLost(f, ext, parts, {}, l) && parts != []
    ensures IsTable(l, ext, t)
  {
    SurvivingSizes(f, ext, parts, {}, l);
    t := seq(|parts|, i requires 0 <= i < |parts| => |parts[i]|);
  }

  /** `Put` never clears the folder, so parts of a longer older upload stay. The reported size exceeds the
      file's by exactly what they hold: it is right if and only if every stale part is empty. */
  lemma ReportedSizeAfterOverwrite(content: seq<byte>, partSize: nat, ext: string, folder: Folder, l: seq<Entry>)
    requires partSize > 0 && |content| <= MAX_INT64 && WellNamed(folder)
    requires Lists(l, Stored(content, partSize, ext, folder))
    ensures TotalSize(l, ext) == |content| + StaleSize(l, ext, |Split(content, partSize)|)
  {
    var parts := Split(content, partSize);
    SplitIsSolid(content, partSize);
    ConcatSplit(content, partSize);
    OwnAndStale(l, ext, |parts|);
    var clean := WithParts(map[], parts, |parts|, ext);
    OwnListed(parts, ext, folder, l);
    hide Split, Concat, WithParts, Own, StaleSize;
    var t := StoredTableExists(clean, ext, parts, Own(l, ext, |parts|));
    RoundTrip(clean, ext, parts, Own(l, ext, |parts|), t);
  }

  /** The entries of the new parts list a folder that holds just them. */
  lemma OwnListed(parts: seq<seq<byte>>, ext: string, folder: Folder, l: seq<Entry>)
    requires |parts| <= MAX_INT64 && WellNamed(folder) && Lists(l, WithParts(folder, parts, |parts|, ext))
    ensures HeldThenLost(WithParts(map[], parts, |parts|, ext), ext, parts, {}, Own(l, ext, |parts|))
  {
    var n := |parts|;
    var f, clean := WithParts(folder, parts, n, ext), WithParts(map[], parts, n, ext);
    OwnMembers(l, ext, n);
    WithPartsHolds(folder, parts, n, ext);
    WithPartsHolds(map[], parts, n, ext);
    hide WithParts, Own, Lists, IsOwn, Overlaid;
    OwnLists(f, clean, folder, parts, ext, l, Own(l, ext, n));
  }

  lemma OwnLists(f: Folder, clean: Folder, folder: Folder, parts: seq<seq<byte>>, ext: string, l: seq<Entry>,
      own: seq<Entry>)
    requires |parts| <= MAX_INT64 && Lists(l, f) && NoRepeats(own)
    requires forall e :: e in own <==> e in l && IsOwn(e, ext, |parts|)
    requires Overlaid(f, folder, parts, |parts|, ext) && Overlaid(clean, map[], parts, |parts|, ext)
    ensures HeldThenLost(clean, ext, parts, {}, own)
  {
    assert clean - PartNamesOf({}, ext) == clean;
    forall name | name in clean ensures clean[name] in own {
      assert IsNew(name, |parts|, ext);
      var i: nat :| i < |parts| && name == PartName(i, ext);
      assert clean[name] == PartEntry(parts, i, ext) == f[name];
    }
    forall e | e in own ensures e.name in clean && clean[e.name] == e {
      var i: nat :| i < |parts| && e.name == PartName(i, ext);
      assert f[e.name] == PartEntry(parts, i, ext) == clean[e.name];
    }
  }

  /** After a tail of the parts is lost, the folder holds the parts before it: reads see a shorter file. */
  lemma LostTailHolds(f: Folder, ext: string, parts: seq<seq<byte>>, k: nat, lost: set<nat>)
    requires HoldsParts(f, ext, parts) && k <= |parts| <= MAX_INT64 &&
      (forall i: nat :: i in lost <==> k <= i < |parts|)
    ensures HoldsParts(f - PartNamesOf(lost, ext), ext, parts[..k])
  {
    var g := f - PartNamesOf(lost, ext);
    forall i: nat | i < k ensures PartName(i, ext) in g {
      forall j: nat | j in lost ensures PartName(i, ext) != PartName(j, ext) {
        if PartName(i, ext) == PartName(j, ext) { PartNamesDiffer(i, j, ext); }
      }
    }
    forall name | name in g && Index(g[name], ext).Some? ensures IsNew(name, k, ext) {
      var i: nat :| i < |parts| && name == PartName(i, ext);
      assert i !in lost;
    }
  }
}
