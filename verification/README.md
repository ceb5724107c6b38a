# Verified models of the storage drivers

OpenList aggregates cloud drives. Most of a driver is plumbing to a remote service, but several contain
self-contained algorithms. This project models those in Dafny and proves what they promise. `dafny verify
dfyconfig.toml` checks everything.

| Modules | What they model |
|---|---|
| PartNames, ChunkFolder, ChunkReader, ChunkDriver | The chunk driver: a file is cut into numbered parts, a size table is rebuilt from an unordered listing, and byte ranges are served across parts. |
| AliasPolicy, AliasRoots, AliasAllocate, AliasMove | The alias driver: conflict policies as stateful filters that compact a slice in place, the pairing of sources with destinations by mount, and both together in `Move` and `Copy`. |
| DeferredCleanup | The debounced cleanup of the 189pc driver: a task counter, a queue and a timer under one lock, over all interleavings. |
| TextLines, IndentTree, IndentTreeShape, IndentTreePrint, NodeTree, IndentTreeLookup | The indented folder tree of the 123 link driver: a stack machine over lines, lookup by path, sizes of folders. |
| SliceHasher, SliceTable | Hashing a file slice by slice: the streaming writer, the batch loop, the slice table, and the slice hash derived from them. |
| Upload139 | The 139 upload: parts planned ahead, addresses in batches of 100, one stream read front to back. |
| PartLists, ResumableUpload | Uploads of the 189pc driver that are cancelled, saved, resumed and committed: the errgroup over a part list, and every interleaving of uploading runs. |
| BaiduUpload, BaiduRuns, BaiduMishaps | The same for Baidu, whose progress is saved on every error and whose upload id can expire: `Put` as one caller sees it, every interleaving, and runs in which it goes wrong. |
| PartPlanning | Part sizes and part counts of the 115, 115 open, 189pc and Baidu drivers. |
| BlockCipher, Base64Hex, BaiduMd5 | The codecs: padding with ECB and CBC, base64 text to hexadecimal text, and Baidu's disguised MD5 sums. |
| LimiterRegistry | Rate limiters shared per user and counted by reference. |
| Pieces, Streams, Collections, Units, Wrappers | What they share: splitting and joining sequences, readers, and small types. |

Code that changes objects, arrays or buffers is modelled by classes and methods with the same fields and loops, each
proved against a function of its inputs; the laws are lemmas about those functions. Concurrent code is a step system
whose steps are the sections under a lock (or between two of them), and the theorems are about every run. Hashes are
formal terms, the block cipher is an arbitrary family of invertible functions, and answers of servers are parameters.

## Findings

Where a property does not hold of the code, the code is modelled as it is, an input shows it, and the exact condition
under which the property holds is proved.

* Chunk: a range with `start + length` beyond the largest int64 is a read error although the end of the file is meant
  (`RangeIsWanted`, `OverflowSkipsTheClamp`); ranges that come in over HTTP are cut off at the size before they get
  there. Uploading over a longer older file leaves its last parts behind: they are counted in the reported size
  (`ReportedSizeAfterOverwrite`) and follow the new content in reads, which are right to the end if and only if the
  stale parts are empty (`StoreThenRead`, `StalePartsRemain`). Its hash files stay, too, and the order of the listing
  decides which hash is reported (`StaleHashWins`). An upload over an older file that fails destroys the
  older file, or mixes both if the removal of the folder fails too (`FailedUploadDestroys`). The check in `Link`
  passes if and only if the missing parts are a tail of the file (`MissingPartsDetected`, `LostTailPasses`).
* Alias: the comment in `getMoveObjs` that there are at least as many unassigned sources as unassigned destinations
  holds if every source has a storage. Otherwise `Move` panics if and only if fewer sources resolve than there are
  destinations (`AliasAllocate.Move`, `AliasMove.Move`, `MoveCanPanic`).
* 189pc cleanup: a full clean is decided without active tasks, but a task and a deletion under way meet in a run if and
  only if some callback runs with all begun tasks finished and a task begins before that clean is done
  (`MeetingIsALateBegin`, `CleaningMayMeetATask`). The timer field names every armed timer, so that a new request stops
  them all, if and only if no callback runs while a newer timer is armed (`OneTimerIff`, `OvertakingArmsTwo`).
* 123 link: a file line closes the folders of its level and deeper, so a line indented below it does not belong to the
  nearest shallower folder (`NearestShallowerIsParent`, `FileClosesFolder`).
* 189: a file hash that is known beforehand is sent as slice hash, which is the proper one if and only if the file has
  one slice (`UploadIsProper`, `KnownHashSkipsTheSlices`).
* Baidu: after an expired upload id the new progress is saved while it is in use. A session gets a second owner if and
  only if an upload takes saved progress that an upload past its first expiry still holds (`SharedIffTakeover`,
  `TwoOwners`); then an index can be out of range, and the file can be created without a slice
  (`SecondOwnerCrashes`, `SecondOwnerLosesASlice`). Without a second owner, the file is created with all slices if and
  only if the upload id did not expire twice or the third session asks for none (`CreatesAreComplete`,
  `SecondExpiryCreatesNothing`).
* 139: an answer with too few addresses, or with numbers of other parts, does not fail the upload. When it completes,
  every part is delivered if and only if the answers had all the numbers, each the next ones in some order
  (`PersonalPut`, `ShortAnswerPasses`).
* 115: `SplitFile` panics on a file of exactly 9 GB (`SplitFile`).
* Aliyundrive: the counters equal the numbers of holders if and only if no driver is initialized again while it still
  holds a limiter; otherwise that limiter leaks for good (`CountersAreExact`, `LeaksStayRegistered`, `ReinitLeaks`).

## Model

| member | source | states |
|---|---|---|
| PartNames.AtoiOfDecimal | drivers/chunk/driver.go:478-480 | A part number printed in decimal is read back by Atoi as the same number, for every number that fits an int64. |
| PartNames.NoLeadingZero | drivers/chunk/driver.go:478-480 | Part numbers are printed in base ten, without leading zeros. |
| PartNames.AtoiAccepts | drivers/chunk/driver.go:102-105 | Atoi accepts one or more digits behind at most one sign, with a value that fits an int64, and gives that value. |
| PartNames.AtoiRejects | drivers/chunk/driver.go:102-105 | Atoi accepts nothing else. |
| PartNames.HashLikeIsNoNumber | drivers/chunk/driver.go:92-105 | A name with the prefix of a hash file never parses as a part number, however much of it the extension eats. |
| PartNames.ListAndGetAgreeOnNames | drivers/chunk/driver.go:177-190 | `List` and `Get`, which trim the extension and look for hash names in different orders, take exactly the same files for parts, for every name and extension. |
| PartNames.IndexOfPartName | drivers/chunk/driver.go:102-105 | Reading back the name that `Put` gives to part i yields i, for every custom extension. |
| PartNames.IndexMeans | drivers/chunk/driver.go:88-105 | A file that `Get` takes for part i is named by a numeral of i with at most one sign, with or without the extension behind it. |
| PartNames.BareNumeralIsAPart | drivers/chunk/driver.go:102-105 | A file whose name is a bare numeral is taken for that part, too, although `Put` writes another name. |
| PartNames.HashNameReadBack | drivers/chunk/driver.go:92-99 | `Get` reads back the kind and the value of the hash that `Put` writes into a name, for every value and extension. |
| ChunkFolder.Get | drivers/chunk/driver.go:83-135 | The loop over an unordered listing ends with the size table of the listing, the total size, and for each known kind of hash the last one listed; it panics exactly when a negative index or no part 0 is listed. |
| ChunkFolder.ListedSize | drivers/chunk/driver.go:170-195 | `List` reports the total of the same part files as `Get`, for every listing. |
| ChunkFolder.TotalSizePermuted | drivers/chunk/driver.go:106 | The reported size does not depend on the order of the listing. |
| ChunkFolder.TableIgnoresListingOrder | drivers/chunk/driver.go:88-120 | Two listings of the same files give the same table, the same size and a panic in the same cases. |
| ChunkFolder.SizeOfMember | drivers/chunk/driver.go:107-119 | The size recorded for an index is that of a listed file with this index, and there is none exactly if no such file is listed. |
| ChunkFolder.SubfoldersDoNotCount | drivers/chunk/driver.go:89-91 | A subfolder is never taken for a part, whatever its name. |
| ChunkFolder.HashesAreListed | drivers/chunk/driver.go:92-101 | Every hash reported is that of a listed file, and every known kind with a listed file is reported. |
| ChunkReader.Link | drivers/chunk/driver.go:270-280 | The missing-part check passes exactly if part 0 was listed and no middle cell of the table is zero. |
| ChunkReader.RangeRead | drivers/chunk/driver.go:282-377 | A range read fails exactly if the range is not inside the parts or a part it touches is gone or has the wrong size; otherwise it opens exactly the touched parts, in order, and yields the file from `start` on, ending at the end of the range or, for a range inside one part, at the end of that part. |
| ChunkReader.TouchedPartsAre | drivers/chunk/driver.go:291-376 | The parts that a successful read opens are exactly those that overlap the range, each once, in increasing order. |
| ChunkReader.ReadParts | drivers/chunk/driver.go:291-376 | The loop over the parts serves a nonempty range: same success condition, same bytes, same parts opened, for every start and length. |
| ChunkReader.FirstPart | drivers/chunk/driver.go:339-373 | One round of the loop that finds the beginning of the range keeps the loop state, with the early return for a range inside one part. |
| ChunkReader.LaterPart | drivers/chunk/driver.go:298-336 | One round of the loop on a later part keeps the loop state, with the early return at the end of the range. |
| ChunkDriver.StoreFullParts | drivers/chunk/driver.go:446-462 | The splitting loop stores piece k of the content under the name of part k and leaves the rest in the reader; it fails exactly if one of its uploads does, and then the folder is removed, unless the removal fails as well. |
| ChunkDriver.Put | drivers/chunk/driver.go:413-476 | With only large files chunked, what is uploaded as it is has at most one part size of bytes, and what is chunked has a second part; without that option nothing but a thumbnail is uploaded as it is, and a thumbnail is never chunked. What is uploaded as it is is the whole content. A chunked upload leaves the parts over what was there and the hash files, whose failures are ignored, under their names with one zero byte, and no other hash file is touched. It fails exactly if the direct upload or one of the parts does; after a failed part nothing is left of the folder, or all that was there so far if the removal fails. |
| ChunkDriver.PutParts | drivers/chunk/driver.go:440-476 | The chunked upload leaves exactly the consecutive pieces of the file as parts 0, 1, 2, ... over what the folder held; it fails exactly if one of the uploads does, with the folder removed or, if that fails, left with the parts before the failed one over what it held. |
| ChunkDriver.HashFilesAreNoParts | drivers/chunk/driver.go:427-438 | Writing hash files, whichever of them fail, leaves the parts that a folder holds as they are. |
| ChunkDriver.HashFilesStay | drivers/chunk/driver.go:427-474 | The hash files stored first are still there when the parts are stored, and without that option no hash file changes. |
| ChunkDriver.HashesReported | drivers/chunk/driver.go:92-101 | Put into a folder without hash files, a file is listed with exactly its hashes of known kinds. |
| ChunkDriver.StaleHashWins | drivers/chunk/driver.go:92-101 | A concrete listing with an older hash file of the same kind: the order of the listing decides which hash is reported. |
| ChunkDriver.PartCount | drivers/chunk/driver.go:440-445 | The number of full parts and the size of the last part are those of the split; the last part is empty only for an empty file. |
| ChunkDriver.WithPartsHolds | drivers/chunk/driver.go:446-474 | After k uploads the folder holds those parts under their names and everything else as before. |
| ChunkDriver.StoredHolds | drivers/chunk/driver.go:446-476 | After an upload over the parts of an older file, the folder holds the pieces of the new file followed by those parts of the older one whose numbers the new file does not reach. |
| ChunkDriver.OverwrittenHolds | drivers/chunk/driver.go:446-462 | After the first k parts of an upload over an older file, the folder holds those parts followed by the older ones from k on. |
| ChunkDriver.FailedUploadDestroys | drivers/chunk/driver.go:457-460 | An upload over an older file that fails at some part leaves nothing of the older file or, if the removal fails too, the new parts before the failed one followed by the older parts, which pass for a file. |
| ChunkDriver.StalePartsRemain | drivers/chunk/driver.go:446-476 | A concrete folder: one byte stored over an upload of three in parts of one and two bytes leaves the second old part under its name, and the folder still holds two parts. |
| ChunkDriver.SurvivingEntries | drivers/chunk/driver.go:83-120 | After some parts of a stored file were deleted, the part files in any listing are exactly the surviving parts. |
| ChunkDriver.SurvivingSizes | drivers/chunk/driver.go:106-119 | `Get` sees exactly the surviving parts, each with its size. |
| ChunkDriver.MissingPartsDetected | drivers/chunk/driver.go:270-280 | After deleting any set of parts but part 0, `Link` accepts exactly if the deleted parts are a tail of the file (none, or all from some part on). |
| ChunkDriver.LostTailHolds | drivers/chunk/driver.go:270-280 | After a tail of the parts is lost, the folder is that of the shorter file before it, so reads of that file are what clients get. |
| ChunkDriver.LostTailPasses | drivers/chunk/driver.go:270-280 | A concrete listing: a file of three one-byte parts has lost its third; the table is [1, 1], the reported size 2, and `Link` accepts. |
| ChunkDriver.TotalIsSum | drivers/chunk/driver.go:106 | With distinct indices below n the reported size is the sum of the sizes of the parts 0 to n-1. |
| ChunkDriver.RoundTrip | drivers/chunk/driver.go:83-136 | For a folder that holds any parts, stale ones of an older upload among them: list it in any order and rebuild the table; `Get` does not panic and reports the size of all parts together, `Link` accepts, and the parts together are what is read. |
| ChunkDriver.RangeIsWanted | drivers/chunk/driver.go:282-289 | Reading from intact parts fails exactly if the range starts behind the file or `start + length` overflows an int64. Otherwise exactly the parts the range touches are opened, in order, and the stream runs from the first byte asked for to the end of the range or the end of the part with the first byte, whichever is later; it is exactly what was asked for if and only if that part does not go on behind the range. |
| ChunkDriver.OverflowSkipsTheClamp | drivers/chunk/driver.go:282-289 | A concrete range: read from byte 1 of two bytes, the largest int64 as length is not cut off at the end of the file and the read fails, while one less is served. |
| ChunkDriver.ReadStored | drivers/chunk/driver.go:83-136 | Listing, table, check and range read of a folder that holds parts: the same outcome in terms of the parts, their sizes and their content. |
| ChunkDriver.StoreThenRead | drivers/chunk/driver.go:413-476 | End to end with `Put` itself, over an empty folder or any older upload, with hash files or without: what is uploaded as it is is the content. Otherwise what is read is the new file followed by the stale parts, with the exact failure, the exact bytes and the parts opened; a read that starts in the new file begins with the bytes asked for, and read to the end it is right if and only if the stale parts hold nothing. |
| ChunkDriver.ReportedSizeAfterOverwrite | drivers/chunk/driver.go:446-475 | Uploading over an older, longer chunk folder: the reported size is the size of the file plus the sizes of all part files that the new upload did not replace. |
| AliasPolicy.ConsistencyIsMutual | drivers/alias/util.go:110-121 | The consistency of two objects does not depend on which is asked first, if no hash is recorded as an empty string. |
| AliasPolicy.CountsIff | drivers/alias/util.go:129-147 | A candidate counts if it was found already, or if its path exists as an object of the same kind as the first one; for files with consistency on, also only if the sizes agree and no nonempty hash differs from that of the first. |
| AliasPolicy.PolicyFilter.IfContinue | drivers/alias/util.go:193-222 | One call of the filter closure: its answer and the new values of its captured variables. |
| AliasPolicy.VerdictIsFinal | drivers/alias/util.go:195-222 | When the filter stops the loop, its answer is what the policy promises for the whole candidate list, whatever the candidates not looked at would have brought. |
| AliasPolicy.FilterStep | drivers/alias/util.go:126-168 | One candidate: the entry read was not overwritten before, and the loop goes on or ends with the verdict of the policy. |
| AliasPolicy.FilterInPlace | drivers/alias/util.go:123-173 | The compacting loop ends with the selected candidates at the front of the same array and everything behind them unchanged, or with the error of the policy. |
| AliasPolicy.GetAllObjs | drivers/alias/util.go:123-173 | all_strict succeeds iff all candidates count, deterministic iff exactly one, deterministic_or_all iff one or all, first gives the first and the others give all that count in order; computed in place. What counts is stated by CountsIff. |
| AliasRoots.Get | drivers/alias/driver.go:114-170 | The candidate vector is the first existing object, one nil for all roots before it, and one path per later root; not found exactly if no root has the path. |
| AliasRoots.CandidatesMatchRoots | drivers/alias/driver.go:151-167 | The objects found among the candidates are those of the existing roots in order, and all candidates exist exactly if all roots do: one nil stands for any number of missing roots. |
| AliasRoots.RootCounts | drivers/alias/util.go:130-147 | Over the backend alone: a root counts if and only if the path exists under it as an object of the same kind as the first and, for files with consistency on, the sizes agree and no kind of hash has two values. |
| AliasRoots.OutcomeOverFiles | drivers/alias/util.go:187-231 | What each policy makes of those roots: all_strict succeeds iff all count, deterministic iff only the first, deterministic_or_all iff only the first or all; first gives the first, every other policy exactly the roots that count; and which error otherwise. |
| AliasRoots.ChosenExist | drivers/alias/util.go:225-231 | Every chosen path exists, all as folders or all as files; and with consistency off none that exists as an object of this kind is left out, except by the policy for the first. |
| AliasRoots.PoliciesOverRoots | drivers/alias/util.go:187-223 | What each policy selects, stated over the existence vector of all roots. |
| AliasRoots.Resolve | drivers/alias/util.go:225-231 | Resolving a path for a write, end to end: the outcome of every policy, as a function of the existence vector and over the backend alone; every path returned exists, and with consistency off no existing path of the right kind is missing, except for the policy that takes the first. |
| AliasAllocate.FileByMount | drivers/alias/util.go:405-415 | The destinations filed by mount are exactly the given ones, each once; it fails exactly if some destination has no storage. |
| AliasAllocate.PairSources | drivers/alias/util.go:416-437 | The pairing loop over the sources: every overwrite `dstObjs[len(srcObjs)]` is in bounds, no destination is lost or doubled, the pairs share a mount, and no source kept apart shares a mount with an unassigned destination. |
| AliasAllocate.PlaceRest | drivers/alias/util.go:438-443 | Appending the unassigned destinations, visited in any order, completes the slice to a permutation of the given destinations. |
| AliasAllocate.GetMoveObjs | drivers/alias/util.go:390-445 | Sources come out as a permutation of the resolvable ones, destinations as a permutation of the given ones, the same-mount pairs first and none left possible behind them. |
| AliasAllocate.AtMostMatched | drivers/alias/util.go:418-437 | Every injective assignment of sources to destinations has at most as many same-mount pairs as there are matched ones. |
| AliasAllocate.GreedyIsOptimal | drivers/alias/util.go:418-437 | The number of same-mount pairs is the maximum over all injective assignments. |
| AliasAllocate.AllResolve | drivers/alias/util.go:419-422 | No source is dropped exactly if every source has a storage. |
| AliasAllocate.Move | drivers/alias/driver.go:360-375 | `Move` moves or removes each resolvable source exactly once and moves to each destination exactly once, same-mount pairs first; it panics exactly if fewer sources resolve than there are destinations. |
| AliasAllocate.MoveCanPanic | drivers/alias/driver.go:360-375 | A concrete call: one destination, and one source whose storage is gone, so there are as many sources as destinations and `Move` panics. |
| AliasAllocate.MoveAndRemove | drivers/alias/driver.go:363-372 | The two loops move pair by pair and remove the surplus, and run out of bounds exactly with fewer sources than destinations. |
| AliasAllocate.FeedMount | drivers/alias/util.go:369-376 | One source feeds every unassigned destination of its mount; overwrites stay in bounds and lose no destination. |
| AliasAllocate.FeedLocally | drivers/alias/util.go:362-377 | After the loop, a destination is unassigned only if no resolvable source lives on its mount. |
| AliasAllocate.GetCopyObjs | drivers/alias/util.go:339-388 | The pairs cover every destination exactly once, and a destination gets a source of its own mount whenever there is one; fails exactly if a destination has no storage. |
| AliasMove.Move | drivers/alias/driver.go:360-375 | `Move` from the roots on: each root that has the source and a storage is moved or removed once, each destination root that the policy chose is moved to once, and no choice of sources keeps more moves on one mount. Everything moved, removed or moved to is a root where the path exists and has a storage, and with consistency off none of the right kind is left out. It is refused, fails to resolve and panics exactly under conditions on the roots. |
| AliasMove.Copy | drivers/alias/driver.go:387-397 | `Copy` from the roots on: each destination root that the policy chose is copied to once, from a root where the source exists, on its own mount whenever there is one; with consistency off no destination of the right kind is left out; refusals are exact. |
| AliasMove.MovedFromRoots | drivers/alias/driver.go:360-375 | What was resolved comes from the roots, so what is moved, removed or moved to does. |
| AliasMove.MoveObjs | drivers/alias/driver.go:363-375 | Pairing what was resolved and moving it: each source with a storage once, each destination once, as many moves as possible on one mount; refusal and panic are exact. |
| AliasMove.CopyObjs | drivers/alias/driver.go:390-397 | Giving every destination a source: each destination once, from its own mount whenever there is a source on it. |
| DeferredCleanup.Cleaner.NotifyTaskDone | drivers/189pc/cas_cleanup.go:107-111 | Schedules under the lock. |
| DeferredCleanup.Cleaner.QueueFamilyTransferCleanupObj | drivers/189pc/cas_cleanup.go:128-136 | Appends the object and schedules; a nil object changes nothing. |
| DeferredCleanup.Cleaner.ScheduleDebounceCleanLocked | drivers/189pc/cas_cleanup.go:146-154 | Arms a new timer and stops the old one, unless tasks are active and nothing is pending. |
| DeferredCleanup.Cleaner.RunDebounceClean | drivers/189pc/cas_cleanup.go:156-162 | Hands out and empties the queue, clears the timer field even if a newer timer is armed, and decides a full clean exactly if no task is active. |
| DeferredCleanup.LinkCasVideo | drivers/189pc/cas_preview.go:99-148 | Each of the return paths with its own calls: the result is that of the first call that fails, and the counter and the queue change by exactly the steps of the path taken. |
| DeferredCleanup.DeleteInBackground | drivers/189pc/cas_preview.go:141-146 | The background routine deletes the folder and then ends the task. |
| DeferredCleanup.EveryExitIsBracketed | drivers/189pc/cas_preview.go:114-148 | On every return path, with the background routine where there is one, a task does nothing or is Begin followed by exactly one Finish and one Notify, and the temporary folder is deleted exactly once in between on the paths after it was made and never otherwise; which paths give which result. |
| DeferredCleanup.ConservedStep | drivers/189pc/cas_cleanup.go:128-165 | Every step keeps: the queued objects are the concatenation of all batches and the pending ones, in order. |
| DeferredCleanup.CountedStep | drivers/189pc/cas_cleanup.go:113-124 | Every step keeps: `cleanupActive` is the number of begun, unfinished tasks, and full cleans were decided with none. |
| DeferredCleanup.TimersStep | drivers/189pc/cas_cleanup.go:146-162 | Every step keeps: the timer field refers to an armed or a fired timer, and timers are told apart. |
| DeferredCleanup.LaterRequestStops | drivers/189pc/cas_cleanup.go:146-154 | The debounce, over runs: a timer that one step armed does not fire after a later step armed another one, unless a callback ran between the two. |
| DeferredCleanup.GoneForGood | drivers/189pc/cas_cleanup.go:150-153 | A timer that is not counting down any more never fires again in a run. |
| DeferredCleanup.OneTimerIff | drivers/189pc/cas_cleanup.go:150-160 | The timer field names every timer that is counting down all along a run, so that at most one is, if and only if no callback runs while a newer timer is counting down. |
| DeferredCleanup.OneTimerInTurn | drivers/189pc/cas_cleanup.go:150-160 | In a run in which each callback is that of the timer in the field, at most one timer is ever armed. |
| DeferredCleanup.OvertakingArmsTwo | drivers/189pc/cas_cleanup.go:150-160 | A concrete run: a callback that takes the lock late clears the field that names a newer timer, and the next request arms a second one beside it. |
| DeferredCleanup.DueStep | drivers/189pc/cas_cleanup.go:146-162 | Every step keeps: pending objects imply an armed timer or a waiting callback, and an owed full clean is still due. |
| DeferredCleanup.Safety | drivers/189pc/cas_cleanup.go:113-182 | The four invariants hold after every interleaving of tasks, queueing, timers and callbacks. |
| DeferredCleanup.MeasureDrops | drivers/189pc/cas_cleanup.go:113-182 | Every step that the system takes on its own lowers a measure. |
| DeferredCleanup.NotQuietCanStep | drivers/189pc/cas_cleanup.go:146-182 | While anything is active, armed, fired or cleaning, some step is possible. |
| DeferredCleanup.ComesToRest | drivers/189pc/cas_cleanup.go:113-182 | Left alone, the system is at rest after a bounded number of steps, whatever their order. |
| DeferredCleanup.AtRestAllIsClean | drivers/189pc/cas_cleanup.go:156-182 | At rest, every object that the run queued was handed to exactly one batch, in order, after every end of the last task a callback decided to clean everything, and never was that decided while a task was active. |
| DeferredCleanup.CleaningMayMeetATask | drivers/189pc/cas_cleanup.go:164-181 | A run in which a full clean is still deleting while a task has begun: only the decision is taken without active tasks. |
| DeferredCleanup.MeetingIsALateBegin | drivers/189pc/cas_cleanup.go:164-181 | A run reaches a state with a task active while a full clean is deleting if and only if, in its list of actions, a callback runs when as many tasks have finished as have begun, and a later task begins before that clean is done. |
| DeferredCleanup.StateOfRun | drivers/189pc/cas_cleanup.go:156-182 | What the state knows of a run: the counter is the number of tasks begun and not finished, and the cleans under way are those decided and not done. |
| DeferredCleanup.QueuedOfRun | drivers/189pc/cas_cleanup.go:128-136 | The queued objects are those of the Queue steps of the run, in order. |
| DeferredCleanup.OwedOfRun | drivers/189pc/cas_cleanup.go:118-165 | A full clean is owed exactly if some step ended the last task and no later callback decided to clean everything. |
| TextLines.SplitJoin | drivers/123_link/parse.go:33 | Splitting undoes joining when no part contains the separator. |
| TextLines.TrimIs | drivers/123_link/parse.go:51 | Trimming takes white space off both ends, and all of it; printable ASCII characters are none. |
| TextLines.IndentIs | drivers/123_link/parse.go:38-44 | The indent counts all the spaces that a line begins with. |
| IndentTree.BuildTree | drivers/123_link/parse.go:32-86 | The loop fails exactly if some line is malformed and otherwise builds the tree of the line steps; the root is never popped. |
| IndentTree.ReadLine | drivers/123_link/parse.go:37-63 | Counting the indent in a loop, the parity check and trimming classify each line as blank, folder, file or malformed. |
| IndentTree.AddLine | drivers/123_link/parse.go:56-83 | Popping, appending to the top of the stack and pushing: the new tree and stack. |
| IndentTreeShape.ParentIsNearest | drivers/123_link/parse.go:58-61 | Looking back over the lines finds the nearest folder that encloses an item, or the root. |
| IndentTreeShape.PopChain | drivers/123_link/parse.go:58-61 | Popping by level leaves exactly the folders that a backward scan from the new line meets. |
| IndentTreeShape.ChainStep | drivers/123_link/parse.go:58-72 | After each line the stack again holds the folders met going back from that line, each shallower than the one above it. |
| IndentTreeShape.StackIncreases | drivers/123_link/parse.go:56-72 | After any lines the root is at the bottom of the stack and the levels strictly increase towards the top. |
| IndentTreeShape.FlatAppend | drivers/123_link/parse.go:70-82 | Appending a child to the d-th node of the last-child path appends one entry to the preorder and changes no other. |
| IndentTreeShape.ShapeStep | drivers/123_link/parse.go:56-83 | One line keeps: preorder and parents of the tree are those of the lines read so far, and each open folder sits on the last-child path. |
| IndentTreeShape.RunShape | drivers/123_link/parse.go:36-84 | The same after any sequence of lines. |
| IndentTreeShape.TreeShape | drivers/123_link/parse.go:32-86 | For every accepted text: the preorder of the tree is the sequence of non-blank lines, and each node hangs under the nearest preceding folder that encloses it. |
| IndentTreeShape.NodeOfLine | drivers/123_link/parse.go:62-82 | The node of every non-blank line, in terms of its text: half the indent is its level; a text with a colon at the end gives a folder with no url and the text without the colon as name; any other gives a file with the url, name, size and time of the file line. |
| IndentTreeShape.LinesSkipped | drivers/123_link/parse.go:45-55 | Exactly the lines of white space behind an even number of spaces are skipped; exactly those with an odd indent or a text that is neither that of a folder nor a file line are refused. |
| IndentTreeShape.NearestShallowerIsParent | drivers/123_link/parse.go:58-61 | The nearest preceding folder of smaller level is the parent if and only if no file line in between is at its level or shallower. |
| IndentTreeShape.FileClosesFolder | drivers/123_link/parse.go:58-61 | A file line beside a folder closes it: an example where the nearest shallower folder is not the parent. |
| IndentTreePrint.ClassifyPrinted | drivers/123_link/parse.go:37-63 | A printed line is read back as the line it was printed from. |
| IndentTreePrint.TextReadsBack | drivers/123_link/parse.go:33-54 | Splitting and classifying a printed forest gives exactly its lines. |
| IndentTreePrint.FillFolder | drivers/123_link/parse.go:70-82 | Filling a folder that was just appended is appending the filled folder. |
| IndentTreePrint.RunForest | drivers/123_link/parse.go:36-84 | Reading the lines of a forest appends that forest to the node open at its level and leaves the open folders above as they were. |
| IndentTreePrint.BuildUndoesPrint | drivers/123_link/parse.go:32-86 | `BuildTree` is the inverse of two-space-indent printing, for every well-formed forest. |
| NodeTree.GetByPath | drivers/123_link/types.go:20-37 | Finds a node if and only if some chain of nodes has the given names; of several chains the one that comes first. |
| NodeTree.SplitPathOf | drivers/123_link/parse.go:141-148 | A path splits into "root" and its names; the first component is ignored; "/" is the root alone. |
| NodeTree.GetNodeFromRootByPath | drivers/123_link/parse.go:150-152 | The lookup succeeds exactly if the chain of the path exists below the root. |
| IndentTreeLookup.TreesDenote | drivers/123_link/parse.go:62-82 | The nodes of the tree of a forest have the names, levels, urls, sizes, times and contents that its author wrote. |
| IndentTreeLookup.ChainOfWalk | drivers/123_link/types.go:20-37 | Every walk by name in that tree goes along a chain of folders and files with these names, and ends at the node of the last one. |
| IndentTreeLookup.WalkOfChain | drivers/123_link/types.go:20-37 | Every chain of folders and files is such a walk. |
| IndentTreeLookup.BuildAndFind | drivers/123_link/parse.go:32-152 | Build and look up, for every well-formed forest: the lookup of a path in the tree built from the printed text succeeds if and only if its author wrote a chain of folders and files with these names, and gives the node of the first such chain. |
| NodeTree.CalSize | drivers/123_link/types.go:43-53 | Writes the total of every folder into the tree, returns the total of the root and changes nothing else. |
| NodeTree.TotalIsSum | drivers/123_link/types.go:47-52 | The total of a folder is the sum of the sizes of all files below it, at any depth, for trees whose files are leaves. |
| NodeTree.RunKeepsLeafFiles | drivers/123_link/parse.go:73-83 | Built trees have their files as leaves: no line is ever appended below a file. |
| NodeTree.RootTotal | drivers/123_link/driver.go:28-36 | After `Init`, the size of the root is the sum of the sizes on all file lines of the text. |
| SliceHasher.SplitOf | drivers/189/util.go:521-556 | Full slices with a shorter rest are the slices of the whole; an empty rest counts only when it is all. |
| SliceHasher.SliceHashWriter.Write | drivers/189/util.go:521-556 | One write consumes all its bytes, whatever their number and wherever slices end; a cancelled one consumes nothing. |
| SliceHasher.SliceHashWriter.Feed | drivers/189/util.go:534-549 | Bytes up to a slice boundary: a slice that became full is recorded and the hash reset. |
| SliceHasher.SliceHashWriter.FinalFixUp | drivers/189/util.go:342-345 | After the fix-up the recorded hashes are those of the consecutive slices of everything written, one of the empty string for an empty file. |
| SliceHasher.CacheAndHash | drivers/189/util.go:324-345 | The recorded hashes do not depend on how the stream is cut into writes. |
| SliceHasher.ComputeSliceMD5s | drivers/189pc/torrent.go:268-296 | The batch loop fails exactly if the reader ends with an error; otherwise it gives the hashes of the consecutive slices and of the whole, none for an empty file; a nonpositive slice size means 10 MB. |
| SliceHasher.UploadHashes | drivers/189/util.go:320-359 | The hashes that an upload sends: known hash or computed ones, and the slice hash chosen from them. |
| SliceHasher.SeveralSlices | drivers/189/util.go:354-359 | More than one slice exists exactly if the file is longer than the slice size. |
| SliceHasher.UploadAgreesWithTorrent | drivers/189pc/torrent.go:26-46 | The torrent made after an upload names the slice hash that the upload sent, up to letter case, whether or not the file hash was known beforehand. |
| SliceHasher.BatchIsProper | drivers/189pc/torrent.go:26-46 | From the batch hashes the torrent derives the proper slice hash for every content; on nonempty content both hashers give the same list. |
| SliceHasher.UploadIsProper | drivers/189/util.go:322-359 | The upload sends the proper slice hash if and only if the file hash had to be computed or the file has at most one slice. |
| SliceHasher.KnownHashSkipsTheSlices | drivers/189/util.go:322-359 | A concrete file of one byte more than a slice: with a known hash its file hash is sent as slice hash, which is not the proper one; without, the proper one is sent. |
| SliceTable.PieceSizes | drivers/189pc/utils.go:944-952 | The slice count and the last slice size computed beforehand are those of the split. |
| SliceTable.BuildTable | drivers/189pc/utils.go:954-988 | Succeeds exactly if the context is not cancelled before the last round, the stream does not break off with an error before all that is asked was read, and a stream that just ends early is not spooled; the table then holds the hash of each slice, in order. |
| SliceTable.SectionIsSlice | drivers/189pc/utils.go:1058-1065 | The section sent for part k is the slice whose hash stands in entry k of the table. |
| SliceTable.SectionsAreTheFile | drivers/baidu_netdisk/driver.go:316-337 | All sections together are the file. |
| Upload139.DefaultPartCount | drivers/139/driver.go:611-620 | Parts become larger exactly from 31 GB on; with the default sizes a file of up to 159 GB has at most 318 parts. |
| Upload139.PersonalPartInfos | drivers/139/driver.go:662-685 | Part k is the interval [(k-1)*size, min(k*size, file size)) of the file, one empty part for an empty file. With a negative part size the planning panics exactly if the file is longer than twice its absolute value, and otherwise plans at most two parts of that negative size. |
| Upload139.SortByNumber | drivers/139/util.go:744-747 | Sorts the addresses in place by part number, keeping them all. |
| Upload139.UploadParts | drivers/139/util.go:743-780 | In order of their numbers, each address gets the next bytes of the stream, as many as its part is long; it stops at the first invalid or refused number and consumes the stream accordingly. |
| Upload139.DealConserves | drivers/139/util.go:749-762 | Whatever the addresses, the bytes sent are a prefix of the stream: none is sent twice or out of order. |
| Upload139.SortedAnswer | drivers/139/util.go:744-747 | An answer with as many addresses as asked for, every number among them, is after sorting exactly the range of numbers asked for. |
| Upload139.SortedIsConsecutive | drivers/139/util.go:744-747 | After sorting, the addresses have the next numbers one by one if and only if the answer had them in some order. |
| Upload139.DealPieces | drivers/139/util.go:749-762 | A stream that begins with piece k, dealt to the numbers from k+1 on, hands out exactly those pieces. |
| Upload139.SendBatch | drivers/139/driver.go:765-768 | One batch, whatever its answer: it goes on exactly if every number is that of a part and is taken; sent bytes and remaining stream stay the file, and the parts sent stay exactly the first ones if and only if the answers had the next numbers. |
| Upload139.SendAll | drivers/139/driver.go:764-791 | The loop over the batches of 100 ends well exactly if every request is answered, with numbers of parts that are taken. |
| Upload139.PersonalPut | drivers/139/driver.go:742-803 | For any server: the bytes sent are a prefix of the file; the upload completes exactly if every request is answered with numbers of parts that are taken; and when it completes, every part has received exactly its piece if and only if the answers had all the numbers, each the next ones in some order. It panics exactly as the planning does. A positive setting is the part size; the default is 100 MB below 31 GB and 512 MB from there on. A refused request fails, and a file that exists or needs no parts is reported as such, exactly if the server says so. |
| Upload139.ProperAnswers | drivers/139/driver.go:764-791 | If every batch is answered with the numbers asked for, the answers have all the numbers, and they are taken exactly if the server refuses no part. |
| Upload139.ShortAnswerPasses | drivers/139/driver.go:764-803 | A concrete answer with an address for the first of two parts only: nothing fails, and the upload completes without the second part. |
| PartLists.SliceFilter | pkg/utils/slice.go:87-95 | Keeps the unfinished entries in order. |
| PartLists.FilterKeeps | drivers/189pc/utils.go:1077-1078 | Dropping the blanks loses no part, doubles none and leaves no blank. |
| PartLists.BlankOne | drivers/189pc/utils.go:1071 | Blanking an entry takes exactly its part off the list. |
| PartLists.SuccessTracks | pkg/errgroup/errgroup.go:78-101 | While routines run, each has its entry, and an entry that the loop has passed is blank or has its routine, as long as the context is alive; a routine that succeeds keeps this. |
| PartLists.NoErrorMeansAllDone | pkg/errgroup/errgroup.go:47-50 | When Wait returns without an error, the loop is over, no routine runs and the context is alive: then no entry of the list remains. |
| ResumableUpload.StartKeeps | drivers/189pc/utils.go:1009-1036 | Taking the saved progress (get and delete) or opening a session keeps the invariants; the session has one owner. |
| ResumableUpload.LaunchKeeps | drivers/189pc/utils.go:1044-1056 | Starting the routine of the next entry, a routine that fails, and a cancellation keep the invariants. |
| ResumableUpload.ActiveEntry | drivers/189pc/utils.go:1044-1073 | A running routine sends the part of its entry, which is a part of the session not seen to succeed. |
| ResumableUpload.BlankedKeeps | drivers/189pc/utils.go:1065-1073 | A part seen to succeed moves from the list to the finished parts; both together stay all parts. |
| ResumableUpload.WaitOkKeeps | pkg/errgroup/errgroup.go:47-50 | Wait without an error implies that no entry remains and the server holds every part; derived from the loop and the routines. |
| ResumableUpload.WaitFailsKeeps | drivers/189pc/utils.go:1075-1081 | A cancelled run saves exactly its remaining parts and gives the session up; a broken one loses it. |
| ResumableUpload.CommitKeeps | drivers/189pc/utils.go:1085-1094 | Committed sessions are complete. |
| ResumableUpload.Safety | drivers/189pc/utils.go:1009-1094 | All invariants hold after any interleaving of runs that are cancelled, break, resume or expire. |
| ResumableUpload.CommitsAreComplete | drivers/189pc/utils.go:1085-1094 | A committed session has all parts on the server, or the server had the file; saved progress lists exactly the parts not seen to succeed. |
| ResumableUpload.SeenIsNotResent | drivers/189pc/utils.go:1044-1073 | A part seen to succeed is never sent again in its session, by whichever run holds it, and no routine is started for a blank entry. |
| ResumableUpload.Finishes | drivers/189pc/utils.go:1044-1083 | From every reachable state an upload that was not stopped can be brought to the commit by starting each routine that is left and sending each part of its list once. |
| ResumableUpload.CancelledIsResumed | drivers/base/upload.go:16-31 | A cancelled upload is resumed in the same session with exactly the parts not seen to succeed, and the cache no longer holds it. |
| ResumableUpload.BrokenIsGivenUp | drivers/189pc/utils.go:1075-1081 | A run that fails for another reason than cancellation saves nothing: its session is left to nobody. |
| ResumableUpload.LostForGood | drivers/189pc/utils.go:1009-1094 | A session that nobody holds is never taken up again: no later run sends a part to it or commits it. |
| ResumableUpload.CommittedIff | drivers/189pc/utils.go:1085-1094 | In every run, a session is committed if and only if a commit of it was accepted. |
| ResumableUpload.FoundIsNotSent | drivers/189pc/utils.go:1009-1036 | Without saved progress, an upload of a file that the server has sends no part and only the commit, whatever other runs do, and its session is committed if and only if that is accepted. |
| BaiduRuns.LoopStepKeeps | drivers/baidu_netdisk/driver.go:316-351 | The steps of the loop that end no slice (a routine starts or fails, a cancellation, Wait without an error) keep the invariants while no two runs hold one session. |
| BaiduRuns.SliceStepKeeps | drivers/baidu_netdisk/driver.go:338-342 | A slice reaching the service and its entry being blanked keep: slices seen and remaining entries are together all slices, none in both, and the index is in range. |
| BaiduRuns.CreatingFits | drivers/baidu_netdisk/driver.go:349-352 | If Wait returns no error, the service holds every slice; derived from the loop and the routines. |
| BaiduRuns.WaitFailsKeeps | drivers/baidu_netdisk/driver.go:354-361 | A failed attempt saves exactly its remaining slices, whatever the error, and gives the session up. |
| BaiduRuns.RenewKeeps | drivers/baidu_netdisk/driver.go:361-376 | A new session for an expired upload id, saved at once while the run goes on with it, keeps the invariants. |
| BaiduRuns.StartKeeps | drivers/baidu_netdisk/driver.go:275-290 | Taking saved progress, or a precreate, keeps the invariants unless the progress is still held by a run past its first expiry. |
| BaiduRuns.Safety | drivers/baidu_netdisk/driver.go:275-393 | All invariants hold after any interleaving of any number of uploads in which nobody takes over such progress. |
| BaiduRuns.SharedIffTakeover | drivers/baidu_netdisk/driver.go:371-376 | In a run a session gets a second owner if and only if some upload takes saved progress that an upload past its first expiry still holds. |
| BaiduRuns.NoExpiryNoTakeover | drivers/baidu_netdisk/driver.go:361-376 | As long as no upload id expires, no session gets a second owner, so that the invariants hold in all such runs. |
| BaiduRuns.OneAtATimeNoTakeover | drivers/baidu_netdisk/driver.go:275-393 | Uploads of which each starts when the ones before it are over, however often their upload ids expire, never share a session. |
| BaiduRuns.ExpiriesAreRenewals | drivers/baidu_netdisk/driver.go:300-378 | The rounds of the outer loop that are over are the new sessions that this run opened for expired upload ids. |
| BaiduRuns.CreatesAreComplete | drivers/baidu_netdisk/driver.go:381-393 | Without a second owner, a create request comes with every slice at the service if and only if its run did not see the upload id expire twice or the third session asks for nothing; after two expiries none of the slices asked for is there. |
| BaiduRuns.NothingIsLost | drivers/baidu_netdisk/driver.go:316-376 | Without a second owner, in every reachable state: the slices at the service and the remaining entries of a session are together all slices, and an entry remains exactly if its slice was not seen to succeed. |
| BaiduRuns.AttemptSends | drivers/baidu_netdisk/driver.go:316-352 | An attempt that gets through its loop without an error sends exactly the entries that were left, in order, whatever other runs do. |
| BaiduRuns.ResumedSendsTheRest | drivers/baidu_netdisk/driver.go:275-352 | A run that takes saved progress sends, if its loop ends without an error, each slice not yet seen at the service, once, and no other. |
| BaiduRuns.FailedIsResumed | drivers/baidu_netdisk/driver.go:354-356 | After any failed attempt the next upload of the same content gets the same session with the same remaining slices. |
| BaiduMishaps.TwoOwners | drivers/baidu_netdisk/driver.go:371-376 | A concrete run after which two uploads hold one session: the upload id expires once, and a second upload of the same content finds the new session in the cache. |
| BaiduMishaps.SecondOwnerCrashes | drivers/baidu_netdisk/driver.go:342 | From there: the first owner replaces the list by a shorter one, and noting a success at its old index is out of range. |
| BaiduMishaps.SecondOwnerLosesASlice | drivers/baidu_netdisk/driver.go:342-356 | Or: noting it at the old index strikes another slice off the list, and the file is created without that slice although no run saw two expiries. |
| BaiduMishaps.SecondExpiryCreatesNothing | drivers/baidu_netdisk/driver.go:300-393 | A concrete run with two expired upload ids, after which the file is created with none of its slices at the service. |
| BaiduUpload.UploadSlices | drivers/baidu_netdisk/driver.go:316-350 | One upload at a time: the slices are sent in order up to the first that fails or the cancellation; what was sent, what the service has and what is left on the list are exactly those, and Wait gives an error exactly in those cases. |
| BaiduUpload.EndsCovered | drivers/baidu_netdisk/driver.go:349-356 | What is saved after an attempt covers the file together with what the service has; without an error the service has all slices. |
| BaiduUpload.RunAttempt | drivers/baidu_netdisk/driver.go:316-356 | Success leaves the cache alone with every slice at the service; any error saves the remaining slices, which cover the file. |
| BaiduUpload.Rounds | drivers/baidu_netdisk/driver.go:298-378 | The loop of up to two rounds: how it ends is decided by the slices, the cancellation and the answers; the cache holds the session it ends with unless the first round went well. |
| BaiduUpload.Put | drivers/baidu_netdisk/driver.go:275-393 | From the saved progress to the create request: how it ends, as a function of the answers alone (a failed precreate, a found file, the error of an attempt, or the create request), for the first request and every renewal; every slice is at the service when the file is created, unless the upload id expired twice, and then none of those the third session asks for; what is saved afterwards covers the file, and other keys are untouched. |
| BaiduUpload.CancelAndResume | drivers/baidu_netdisk/driver.go:275-393 | Two calls of `Put`, the first cancelled before any entry: together they send each slice of the list once, in order, and the file is created with all of them. |
| PartPlanning.SplitFileByPartNum | drivers/115/util.go:439-463 | The chunks are numbered from 1 and tile the file: the even share each, and the remainder with the last; fails exactly on an invalid number. |
| PartPlanning.SplitFileByPartSize | drivers/115/util.go:467-494 | As many chunks as the rounded-up quotient tile the file, all but the last of the given size; fails exactly on an invalid size or 10000 full chunks. |
| PartPlanning.SplitFile | drivers/115/util.go:414-435 | Fails exactly below 1000 bytes, panics exactly on 9 GB, and otherwise gives 1 to 10000 chunks that tile the file: the planned number if each gets at least 100 KB, else chunks of 100 KB with a smaller last one. |
| PartPlanning.FallbackFits | drivers/115/util.go:429-433 | The fallback by part size never hits its too-many-parts error. |
| PartPlanning.ChunkNumIs | drivers/115/util.go:415-427 | A thousand chunks are planned for each begun gigabyte below 9 GB, and 10000 from there on. |
| PartPlanning.AtMost10000Parts | drivers/115_open/upload.go:19-37 | The size ladder gives at most 10000 parts if and only if the file has at most 50000 GB. |
| PartPlanning.LadderIsTight | drivers/115_open/upload.go:19-37 | Every step of the ladder is the smallest part size with which the largest file of the step has at most 10000 parts; parts have 20 MB up to 128 GB and 5 GB beyond 1 TB. |
| PartPlanning.MultipartUpload | drivers/115_open/upload.go:88-135 | The parts sent are the consecutive pieces of the file and together the file; it fails exactly if a part fails for good. |
| PartPlanning.PartCount189 | drivers/189pc/help.go:217-226 | At most 999 parts up to the second threshold and at most 1999 beyond it, where the part size is the smallest multiple of 10 MB, there from 50 MB on, with that property. |
| PartPlanning.SmallestStep | drivers/baidu_netdisk/util.go:369-379 | The loop for low bandwidth ends with the smallest step that keeps to 2048 slices, and without one exactly if the maximum slice size needs more. |
| PartPlanning.GetSliceSize | drivers/baidu_netdisk/util.go:327-386 | At least 4 MB, and at most 16 or 32 MB for members: the clamped custom size; with low bandwidth the smallest step that keeps to 2048 slices whenever the maximum slice size allows one; else the maximum for the membership. |
| BlockCipher.PadLength | drivers/139/util.go:999-1003 | The padded length is a positive multiple of the block size, longer than the data by at most one block. |
| BlockCipher.UnpadUndoesPad | drivers/139/util.go:999-1016 | Unpadding undoes padding if and only if the padding length fits in a byte, so always for block sizes below 256. |
| BlockCipher.PadIsPkcs7 | drivers/139/util.go:999-1016 | Section 6.3 of RFC 5652, for block sizes below 256: a text is the padded data if and only if it is the data followed by up to one block of bytes that each hold their number, and unpadding reads every such text. |
| BlockCipher.UnpadReadsTheLastByte | drivers/139/util.go:1006-1016 | Unpadding fails exactly on an empty text and on a last byte larger than its length, and otherwise drops as many bytes as the last one says. |
| BlockCipher.EcbBlock | drivers/189/help.go:143-145 | The k-th block of the ECB text is the encryption of the k-th block, and the other way round. |
| BlockCipher.EcbRoundTrip | drivers/189/help.go:143-145 | Decrypting block by block undoes encrypting block by block. |
| BlockCipher.EncryptBlocks | drivers/189/help.go:141-146 | The loop fills the buffer with the encryption of each block, in bounds. |
| BlockCipher.AesEncrypt | drivers/189/help.go:135-153 | Pads and encrypts: decrypted block by block, the result is the plaintext with PKCS7 padding, every byte of it; keys of 16, 24 and 32 bytes are accepted and any other yields nothing. |
| BlockCipher.AesEcbDecrypt | drivers/139/util.go:1019-1037 | Decrypts block by block and unpads; fails on a bad key or a length that is no multiple of the block size. |
| BlockCipher.EcbUndone | drivers/139/util.go:1032-1036 | ECB decryption and unpadding undo padding and the ECB loop, for every text. |
| BlockCipher.CbcRoundTrip | drivers/139/util.go:1048-1068 | CBC decryption undoes CBC encryption for every vector (section 6.2 of NIST SP 800-38A). |
| BlockCipher.CbcBlock | drivers/139/util.go:1048-1052 | The k-th ciphertext block is the encryption of the exclusive or of the k-th block with the ciphertext block before it, or the vector (section 6.2 of NIST SP 800-38A). |
| BlockCipher.CbcBlockBack | drivers/139/util.go:1066-1068 | The k-th decrypted block is the exclusive or of the decryption of the k-th block with the ciphertext block before it, or the vector. |
| BlockCipher.CbcUndone | drivers/139/util.go:1040-1070 | `aesCbcDecrypt` undoes `aesCbcEncrypt` for every plaintext; encryption fails only on a bad key or vector, and the ciphertext is a positive number of blocks that decrypt to the plaintext with PKCS7 padding. |
| BlockCipher.OpenUndoesSeal | drivers/139/util.go:1143-1191 | A body framed with its vector is read back by the receiving side, for every body, vector and valid key; the frame begins with the vector, and what follows decrypts to the body with PKCS7 padding. |
| Base64Hex.B64ToHex | drivers/189/help.go:53-85 | The loop runs the sextets of the text through the state machine and panics exactly on a character outside the alphabet. |
| Base64Hex.StepReads | drivers/189/help.go:61-78 | One round of the loop multiplies the number read so far by 64 and adds the sextet, whatever the position in the group, and the digits lag behind the sextets by exactly the bits left over. |
| Base64Hex.SextetsOfBase64 | drivers/189/help.go:57-60 | The base64 text of any bytes holds exactly the sextets of their groups; padding signs are skipped. |
| Base64Hex.RunOfGroups | drivers/189/help.go:61-83 | Running over the encoding of any bytes adds their hexadecimal digits and never ends after a single sextet. |
| Base64Hex.Base64BecomesHex | drivers/189/help.go:53-85 | For every byte sequence, `b64tohex` of its base64 text is its lower-case hexadecimal text, in all padding cases (sections 4 and 8 of RFC 4648); the final branch is not taken. |
| Base64Hex.Tables | drivers/189/help.go:45-51 | The characters of sextets and digits are those of the two tables, in their order. |
| Base64Hex.TestVectors | drivers/189/help.go:45-85 | Test vectors of section 10 of RFC 4648, and a text with the last two characters of the table. |
| BaiduMd5.EncryptMd5 | drivers/baidu_netdisk/util.go:471-486 | The loop writes the disguise of the rearranged sum; panics exactly below 32 characters. |
| BaiduMd5.DecryptMd5 | drivers/baidu_netdisk/util.go:451-469 | Returns plain hexadecimal text unchanged, else removes the disguise; panics exactly if fewer than 32 characters were written. |
| BaiduMd5.XorBitsTwice | drivers/baidu_netdisk/util.go:464 | Exclusive or with the same number twice changes nothing. |
| BaiduMd5.NibbleIsXor | drivers/baidu_netdisk/util.go:478 | Exclusive or of four-bit numbers, bit by bit. |
| BaiduMd5.EncryptedAt | drivers/baidu_netdisk/util.go:471-485 | The disguise of every sum, character by character: at position i stands the digit from the other eight characters of the same half, mixed with i modulo 16; position 9 counts from g on. |
| BaiduMd5.DisguisedIsNotPlain | drivers/baidu_netdisk/util.go:452-454 | A disguised sum is never taken for a plain one. |
| BaiduMd5.DecryptUndoesEncrypt | drivers/baidu_netdisk/util.go:451-486 | For every 32-digit sum in lower case the disguise has the disguised form, and decrypting it gives the sum. |
| BaiduMd5.EncryptUndoesDecrypt | drivers/baidu_netdisk/util.go:451-486 | Every text of the disguised form decrypts to a sum, and encrypting that gives the text back: the form is exactly the image. |
| LimiterRegistry.Registry.GetLimiterForUser | drivers/aliyundrive_open/limiter.go:40-63 | Returns the registered limiter of the user with one more use, or a new one, and then deletes the unused ones; whatever is in use stays registered as the same object. |
| LimiterRegistry.Registry.CleanUp | drivers/aliyundrive_open/limiter.go:45-49 | Deletes exactly the limiters with no use but the global one. |
| LimiterRegistry.Registry.Free | drivers/aliyundrive_open/limiter.go:80-87 | One use less of that object, in the whole registry. |
| LimiterRegistry.AliyundriveOpen.Init | drivers/aliyundrive_open/driver.go:37-56 | The global limiter is taken and returned, then the one of the user taken and registered in use, or none if the request fails; one use is added for that user and no other counter changes, and all limiters in use stay registered, of all users. |
| LimiterRegistry.AliyundriveOpen.Drop | drivers/aliyundrive_open/driver.go:67-72 | Returns the limiter that Init took, if any, takes off one use of its user and no other, and clears the field. |
| LimiterRegistry.Share | drivers/aliyundrive_open/driver.go:37-56 | Two drivers of one user get the same limiter, in use and registered, although a driver of another user, who gets a different one, is initialized between them. |
| LimiterRegistry.ShareAndReturn | drivers/aliyundrive_open/driver.go:37-72 | Against any registry, two drivers of one user and one of another are initialized and dropped: the first two have the registered limiter of their user, the third another one, and all counters are back where they were. |
| LimiterRegistry.InitAddsOneUse | drivers/aliyundrive_open/driver.go:37-56 | Init adds one use to the limiter of its user, if it gets one, and leaves every other counter as it was, the bracket around the first request included. |
| LimiterRegistry.InitIsItsSteps | drivers/aliyundrive_open/driver.go:37-56 | An Init that nothing interrupts is its steps one after the other, whether or not the driver still holds a limiter. |
| LimiterRegistry.TakenCounted | drivers/aliyundrive_open/limiter.go:51-62 | Taking a limiter keeps the counters equal to holders plus leaks. |
| LimiterRegistry.CleanedKeeps | drivers/aliyundrive_open/limiter.go:43-50 | The clean-up deletes no limiter that anyone holds, and not the global one. |
| LimiterRegistry.ReturnCounted | drivers/aliyundrive_open/limiter.go:80-87 | Returning a limiter keeps the counters equal to holders plus leaks. |
| LimiterRegistry.NothingIdleIsKept | drivers/aliyundrive_open/limiter.go:45-49 | Whenever a limiter is taken, no limiter without a use is left but the global one. |
| LimiterRegistry.Safety | drivers/aliyundrive_open/limiter.go:40-87 | The invariants hold after every interleaving of the steps of Init and Drop of any number of drivers. |
| LimiterRegistry.RegistryIsSound | drivers/aliyundrive_open/driver.go:37-72 | Counter equals holders plus leaks; all holders for a user hold the object in the registry; the global entry stays once created. |
| LimiterRegistry.LeaksAreReinits | drivers/aliyundrive_open/driver.go:38 | Limiters leak in exactly the runs in which a driver that still holds one is initialized again. |
| LimiterRegistry.LeaksStayRegistered | drivers/aliyundrive_open/limiter.go:43-50 | A limiter that leaked stays in the registry for good, counted as used. |
| LimiterRegistry.CountersAreExact | drivers/aliyundrive_open/driver.go:37-72 | In a run all counters equal the numbers of current holders if and only if no driver that still held a limiter was initialized again. |
| LimiterRegistry.ReinitLeaks | drivers/aliyundrive_open/driver.go:38 | A concrete run after which nobody holds a limiter that is counted as used and stays registered. |

## Left out

Contracts that state less than the code has:

- ChunkDriver.StoreThenRead: sizes fit an int64; what the folder holds is the parts of an older upload, without a gap, and other files.
- ChunkDriver.Put: an error in looking up the storage of the folder and progress reports are left out; a failed upload of a part leaves no trace of that part.
- ChunkFolder.Get: totals are unbounded integers, and a table of any length can be allocated.
- ChunkFolder.ListedSize: the hashes that `List` reports are left out.
- AliasAllocate.GetCopyObjs: the random choice of a source for a left-over destination is any choice; the disabled policy is left out.
- AliasAllocate.GetMoveObjs: the order in which the map of unassigned destinations is visited is arbitrary; storage lookups are a fixed map. That the destinations are different objects is how AliasMove.Move makes them.
- AliasPolicy.GetAllObjs: the vector is as `Get` builds it, so its first entry is a looked-up object; lookups give the same answer when repeated.
- DeferredCleanup.Safety: `Drop`, which stops and clears the timer without handing out what is pending, is not a step; deletions have no outcome.
- IndentTree.BuildTree: the tree is a value and a stack entry stands for a node of the last-child path, which models the pointers of the source but not their sharing; file lines are looked up in a table of what parseFileLine makes of them.
- NodeTree.CalSize: works on the tree as a value; sums are unbounded.
- SliceHasher.UploadAgreesWithTorrent: the declared file size is the length of the content.
- Upload139.SortByNumber: an insertion sort stands for the library's sort; the order of equal numbers is open in both.
- ResumableUpload.Safety: values stand for the progress objects, whose owner is identified by the session; a failed request for a session starts no run; retries of a part are folded into how its routine ends.
- BaiduUpload.Put: one call at a time, with the routines of an attempt in the order of the list; BaiduRuns has calls and routines in any order.
- BaiduRuns.Safety: a key stands for the account and the content, so that all sessions of a key have the same slices; a failed first precreate starts no run; retries of a slice are folded into how its routine ends.
- PartPlanning.PartCount189: exact rational division instead of floating point.
- PartPlanning.MultipartUpload: retries are folded into the outcome of a part.
- BlockCipher.OpenUndoesSeal: base64 around the payload and the branch for plain JSON answers are left out.
- Base64Hex.B64ToHex: shifts and disjunctions of small numbers are written as arithmetic; text is a sequence of characters below 128.
- BaiduMd5.DecryptMd5: text is a sequence of characters below 256.
- LimiterRegistry.Safety: a driver is not dropped in the middle of its own Init; waiting on a limiter is left out.

Not modelled at all:

- HTTP, login, token refresh, signing, JSON and XML, the router and the WebDAV, FTP and SFTP servers.
- MD5, SHA-1, SHA-256, AES blocks and RSA as functions; only invertibility of the block cipher is assumed.
- Rate limiting, progress reports, logging, retry timing, jitter and the debounce delay as a duration.
- The weighted random choice and the quota policy of the alias driver, which only pick one of the existing objects.
- GetMultiUploadUrls of the 189pc driver and the old upload loops, whose progress the server decides.
- UploadByMultipart of the 115 driver, Baidu photo, azure_blob and the share drivers.
- The URL and time parsing of parseFileLine.
