# Models of the CLI transport, the credential and download stores, and the build scripts

This project models the parts of the repository where the state is hardest to keep straight, and
proves what they promise over all inputs, all runs or all interleavings. `dafny verify dfyconfig.toml`
checks everything.

| file | models |
|---|---|
| `streams.dfy` | the stream multiplexer: the locked table of records, `write_loop`, and the write halves handed between them |
| `calls.dfy` | outbound calls: the id counter, the callback table and the dispatch of replies |
| `msgpack.dfy`, `frames.dfy` | the MessagePack formats, and the frame parser that cuts a byte stream into messages |
| `channel.dfy` | the read branch posting replies to its own bounded channel |
| `fingerprint.dfy`, `classify.dfy` | the byte stream behind a tree's fingerprint, and the rebuild verdict from two snapshots |
| `imports.dfy`, `edits.dfy` | merging duplicate imports, and applying formatter edits back to front |
| `cache.dfy` | the LRU list of downloads over its write-through state file, against the directories on disk |
| `keyring.dfy`, `auth.dfy` | the keyring store that splits a credential over entries, and the session that chooses between it and a file |
| `endpoints.dfy`, `overrides.dfy` | the mock policy server's endpoint state, and wiring and unwiring its overrides |

`prelude.dfy` and `json.dfy` hold shared vocabulary.

Concurrent code is a state machine: one lock scope, or one resumption of an awaited write, is one
step, and a run is any interleaving. Code that changes fields, files or vectors in place is a class
whose methods are proved to take exactly the step of a specification function; the lemmas then say
what any run of such steps keeps. Failing writes, removals, renames and keyring calls are inputs.

## What the proofs found

Properties one would expect and that the code does not have are stated with the exact condition
under which they hold, and with an input that shows the other side.

- A reply dispatched between sending a request and inserting its callback resolves nothing, and the
  call stays pending (`RpcCalls.EarlyReplyIsLost`).
- More than eight synchronous replies from one read, on an empty queue, leave the read loop waiting
  for a receiver that is itself (`ReplyChannel.NineRepliesDeadlock`).
- A clean file whose mode goes from 0644 to 0600 has another path state and is reported "unchanged"
  (`ChangeDetection.ChmodIsUnreported`).
- Merging imports twice differs from merging once when a module imports a name as a type both inline
  and by `import type`, or when a source line starts with the placeholder text; such a line makes the
  function throw if it names a module that is not imported, and otherwise becomes a second import
  (`ImportMerger.MergeIsIdempotentIff`, `ImportMerger.MergeFailsIff`).
- A cached directory can end up unlisted when five other names are touched between the touch and the
  rename of a create, or when a create runs between the two halves of a delete. The exact condition
  on a schedule is `DownloadCache.ScheduleTrackedIff`; see also
  `DownloadCache.FiveOthersLoseTheEntry` and `DownloadCache.DeleteAroundCreateLosesTheEntry`.
- A credential whose sealed length is a multiple of the step, or whose last piece ends in the
  marker, is stored without error, shown for the rest of the session, and may not be found by the
  next one (`KeyringStore.NothingBeyondIsMissing`, `CredentialSession.SurvivesRestartIff`). Clearing
  a keyring that holds nothing is an error (`CredentialSession.SecondClearFails`).
- Wiring twice and unwiring once restores the overrides file only if the first wiring did not change
  it; and with an old backup and no overrides file, unwiring brings the old backup back
  (`OverridesWiring.SecondWireRestoresIff`, `OverridesWiring.RestoredIff`).

The comment above `write_loop` (cli/src/rpc.rs:588-591) says that the loop shuts its write half down
when the record is gone; the code does so also when the record is still there, ended and empty. The
model follows the code. So it does for `unwireOverrides`, whose comment
(scripts/mock-policy-server/server.ts:737-741) describes only what happens without a backup.

## Model

| member | source | states |
|---|---|---|
| StreamProtocol.StepKeepsInv | cli/src/rpc.rs:542-631 | Every enabled step of any caller, loop or other stream keeps the invariant of one stream and moves its write half only along the allowed handovers. |
| StreamProtocol.RunKeepsInv | cli/src/rpc.rs:542-631 | The invariant survives every interleaving of any length in which no id is inserted twice. |
| StreamProtocol.ReachableInv | cli/src/rpc.rs:542-631 | It holds in every state reachable from the empty table. |
| StreamProtocol.HistoryIsRun | cli/src/rpc.rs:564-573 | What the state records as accepted is, for any run, the segments of the writes made while the stream had a record, read off the steps; and a stream is marked as failed exactly if a write of its loop failed. |
| StreamProtocol.NothingIsDropped | cli/src/rpc.rs:564-584 | From its insertion until it is removed, a stream accepts every segment written to it, in order, whatever its loop is doing. |
| StreamProtocol.RemoveIsFinal | cli/src/rpc.rs:543-562 | After a remove the record is gone or marked ended for good, and the write half is never parked again. |
| StreamProtocol.BytesInOrder | cli/src/rpc.rs:564-585 | For any run: the bytes written to a stream, then what its loop holds undrained, then what its record queues, are exactly the segments sent to it, in order, unless one of its writes failed. |
| StreamProtocol.WrittenDespiteFailures | cli/src/rpc.rs:601-628 | Failed or not: the segments sent are batches drained in order, then the queue, and what was written is a prefix of each batch; the last one is completed by what the loop still holds. |
| StreamProtocol.OnePlace | cli/src/rpc.rs:531-585 | A write half is in exactly one place: parked in its record, held by one unfinished task, or shut down once; parked means an empty queue and no end asked for. |
| StreamProtocol.ShutdownIsLast | cli/src/rpc.rs:543-562 | A shut-down half was shut down once, its record is gone and no task holds it; everything sent was written first, unless a write failed. |
| StreamProtocol.EndedLoopTerminates | cli/src/rpc.rs:596-631 | Once a stream is ended and not written to, its loop takes a bounded number of steps under any interleaving and write failures, can always run while unfinished, and ends with the record removed and the half shut down. |
| StreamProtocol.EndedLoopRuns | cli/src/rpc.rs:596-631 | Along any such run, steps taken plus the remaining measure never exceed the measure at the start. |
| StreamProtocol.TaskCanRun | cli/src/rpc.rs:601-628 | A loop that holds a write half always has an enabled step of its own. |
| StreamProtocol.OwnStepShrinks | cli/src/rpc.rs:601-630 | Each own step of an ended stream's loop lowers the measure on queued and undrained segments. |
| StreamProtocol.Streams.InsertStream | cli/src/rpc.rs:575-584 | Inserting parks a fresh write half in a new record with an empty queue, and nothing else changes. |
| StreamProtocol.Streams.SendSegment | cli/src/rpc.rs:564-573 | A write queues the segment on a known stream, and starts a loop with the half if it was parked. |
| StreamProtocol.Streams.RemoveStream | cli/src/rpc.rs:543-562 | A remove takes a parked half away with its record to be shut down, or marks the record ended. |
| StreamProtocol.Streams.LockScope | cli/src/rpc.rs:603-621 | The locked block of the loop gives up, removes the ended record, parks the half, or swaps the queue with its own items. |
| StreamProtocol.Streams.WriteAll | cli/src/rpc.rs:623-627 | A resumption of the write advances the first item, finishes it, or fails and drops the drained rest. |
| StreamProtocol.Streams.ShutdownHalf | cli/src/rpc.rs:558-561 | Shutting a half down counts once on its pipe and finishes it. |
| StreamProtocol.Streams.WriteLoop | cli/src/rpc.rs:596-631 | Run without interference, the loop terminates, has written everything accepted unless a write failed, and leaves the half parked with an empty queue or shut down with no record. |
| RpcCalls.StepKeepsInv | cli/src/rpc.rs:342-450 | Each send, insertion and dispatch keeps the correspondence of the table with the history of calls, as long as at most 2^32 ids are taken. |
| RpcCalls.RegisteredWasSent | cli/src/rpc.rs:347-381 | A call can be registered only if its request was delivered, under the id it took; each request and each stream takes one id. |
| RpcCalls.CallbacksRunOnce | cli/src/rpc.rs:397-450 | In every interleaving within 2^32 ids, no callback runs twice, each runs on a reply with its own id, and the table is exactly the registered unanswered calls. |
| RpcCalls.ResolvedIffRepliedAfterRegistration | cli/src/rpc.rs:420-450 | A call is resolved exactly when some reply with its id was dispatched after it was registered, before the mutex was poisoned. |
| RpcCalls.HistoryOf | cli/src/rpc.rs:342-450 | The table's poisoning, registrations and answers, each characterised by the steps of the run. |
| RpcCalls.EarlyReplyIsLost | cli/src/rpc.rs:356-381 | A concrete run: request sent, reply dispatched, callback inserted; the call stays pending and nothing ran. |
| RpcCalls.CallTable.Begin | cli/src/rpc.rs:347-359 | Taking the next id and sending: a request that cannot be sent registers nothing. |
| RpcCalls.CallTable.Insert | cli/src/rpc.rs:361-378 | The callback goes into the table under its id, unless the mutex is poisoned. |
| RpcCalls.CallTable.DispatchReply | cli/src/rpc.rs:441-448 | A reply takes the callback of its id out of the table and runs it, if there is one; a reply without an id poisons the mutex. |
| MessagePack.DecodeIsStable | cli/src/msgpack_rpc.rs:139-162 | A verdict of a value or of bad data is unchanged by bytes that arrive later. |
| MessagePack.StrictPrefixIsIncomplete | cli/src/msgpack_rpc.rs:143-149 | Every strict prefix of a value's bytes is incomplete: never bad, never a shorter value. |
| MessagePack.DecodeIsLocal | cli/src/msgpack_rpc.rs:155-160 | A value is decoded from its own bytes only, whatever the buffer holds after them. |
| MessagePack.Decode | cli/src/msgpack_rpc.rs:139-162 | A decoded value takes at least one byte and no more than there are. |
| MessagePack.RoundTrip | cli/src/msgpack_rpc.rs:28-34 | Decoding an encoding gives back the value and takes exactly its bytes, whatever follows, for every format and size. |
| MessagePack.IntRoundTrip | cli/src/msgpack_rpc.rs:28-34 | So for every integer of 64 signed or unsigned bits, in the shortest of the nine encodings. |
| MessagePack.HeadAnnounces | cli/src/msgpack_rpc.rs:28-34 | The shortest head of a string, binary, extension, array or map decodes to its kind and size. |
| MessagePack.ManyRoundTrip | cli/src/msgpack_rpc.rs:28-34 | Encodings of a list of values, concatenated, decode to that list. |
| MessagePack.EncodingIsShortest | cli/src/msgpack_rpc.rs:28-34 | Any value decoded is one that can be encoded, and no encoding of it is shorter than the one chosen. |
| MessagePack.ByteFormats | cli/src/msgpack_rpc.rs:139-162 | The values of single bytes: fixed integers, nil, booleans, and the reserved byte, which is bad. |
| MessagePack.UnsignedFormats | cli/src/msgpack_rpc.rs:139-162 | Unsigned integers of one, two, four and eight bytes, shortest or not. |
| MessagePack.SignedFormats | cli/src/msgpack_rpc.rs:139-162 | Signed integers likewise, negative or not. |
| MessagePack.FloatFormats | cli/src/msgpack_rpc.rs:139-162 | Floats of four and eight bytes. |
| MessagePack.PayloadFormats | cli/src/msgpack_rpc.rs:139-162 | Strings, binary data and extensions under each of their heads. |
| MessagePack.ContainerFormats | cli/src/msgpack_rpc.rs:139-162 | Arrays, and maps of twice as many values, under each of their heads. |
| MessagePack.ItemFormats | cli/src/msgpack_rpc.rs:139-162 | The values of a container follow one another. |
| MessagePack.BigEndianFirst | cli/src/msgpack_rpc.rs:139-162 | Sizes and integers have their most significant byte first. |
| MessagePack.NeverBad | cli/src/msgpack_rpc.rs:151-154 | Without the reserved byte nothing is bad, only incomplete. |
| MessagePack.BadItem | cli/src/msgpack_rpc.rs:151-154 | A container with a bad value after whole ones is bad. |
| FrameParser.NothingIsLost | cli/src/msgpack_rpc.rs:71-72 | The bytes of the frames, then the leftover, are the bytes received. |
| FrameParser.FramesDecodeAlone | cli/src/msgpack_rpc.rs:155-160 | Each frame takes at least one byte and decodes on its own to its value; the leftover starts with no complete value. |
| FrameParser.DrainInTwo | cli/src/msgpack_rpc.rs:66-97 | Draining, then draining the leftover with more bytes, is draining all of it at once. |
| FrameParser.ReceiveIsDrain | cli/src/msgpack_rpc.rs:66-97 | Receiving in any number of reads is draining their concatenation, up to the reads after bad data. |
| FrameParser.CuttingDoesNotMatter | cli/src/msgpack_rpc.rs:66-97 | Two ways of cutting the same bytes into reads give the same frames and the same error. |
| FrameParser.MessagesArriveIntact | cli/src/msgpack_rpc.rs:27-35 | Encoded messages, cut into reads anywhere, arrive as the same messages with their exact bytes and nothing left over. |
| FrameParser.MsgPackCodec.DecodeFrame | cli/src/msgpack_rpc.rs:139-162 | One decode: a frame and an advanced buffer, or no frame and the buffer untouched. |
| FrameParser.MsgPackCodec.ReadBranch | cli/src/msgpack_rpc.rs:68-98 | The loop of one read yields exactly the drained frames, leaves the leftover, terminates, and reports bad data. |
| ReplyChannel.BatchCompletesIffRoom | cli/src/msgpack_rpc.rs:59-101 | The read branch can get stuck under some scheduling of the spawned tasks exactly when queued, background and produced messages up to its last own send exceed the capacity. |
| ReplyChannel.SafeRunNeverBlocks | cli/src/msgpack_rpc.rs:66-101 | With room, the loop's next send is never blocked, in any run. |
| ReplyChannel.UnsafeRunSticks | cli/src/msgpack_rpc.rs:66-101 | Without room, a run to a state with no enabled step is constructed. |
| ReplyChannel.RoomForAllSuffices | cli/src/msgpack_rpc.rs:59-97 | Queued plus produced messages within the capacity of eight suffice. |
| ReplyChannel.RunsAreBounded | cli/src/msgpack_rpc.rs:71-97 | Steps of a batch are bounded by its frames and messages, so an unblocked batch completes. |
| ReplyChannel.NineRepliesDeadlock | cli/src/msgpack_rpc.rs:59-75 | From an empty queue, n synchronous replies can get stuck exactly when n exceeds eight. |
| ReplyChannel.PostsAreProduced | cli/src/msgpack_rpc.rs:72-96 | The messages a batch of frames produces are those the loop posts itself plus those its futures send. |
| ReplyChannel.PostsOf | cli/src/msgpack_rpc.rs:72-96 | For one frame the loop sends its synchronous reply, or the announcement of its opened streams, and nothing else. |
| ReplyChannel.LoopStepIsDispatch | cli/src/msgpack_rpc.rs:71-97 | A step of the loop is the dispatch of the next frame: its own message is queued at once, those of its future are still to come. |
| ReplyChannel.FramesGoThrough | cli/src/msgpack_rpc.rs:59-97 | A batch of frames whose messages fit with what is queued never blocks the loop, under any scheduling. |
| ReplyChannel.Connection.ReadBranch | cli/src/msgpack_rpc.rs:68-97 | On real bytes, while no future runs: replies and stream announcements are queued in order and futures counted, and the branch stalls exactly when what it posts does not fit, with the queue full of the first eight. |
| TreeFingerprint.ParseIsInverse | scripts/fumie-debug-package-state.py:96-108 | A parser recovers the exact list of paths, modes, kinds, targets and contents from the emitted bytes. |
| TreeFingerprint.ParseEmitted | scripts/fumie-debug-package-state.py:96-108 | One entry is recovered whatever bytes follow, though link targets and contents are raw bytes. |
| TreeFingerprint.WalkIsExact | scripts/fumie-debug-package-state.py:89-108 | The walk holds an entry exactly for each path of the tree, with that path's own mode, its kind, and the content of a file or the target of a link. |
| TreeFingerprint.WalkIsValid | scripts/fumie-debug-package-state.py:89-98 | Every entry walked has a relative path of names without slash or NUL and a mode of at most 07777. |
| TreeFingerprint.StreamDeterminesTree | scripts/fumie-debug-package-state.py:86-109 | Trees with the same stream have at every path nothing, or files of the same mode and content, links of the same mode and target, directories or other things of the same mode. |
| TreeFingerprint.ContentsMatter | scripts/fumie-debug-package-state.py:100-104 | Files that differ in content have different streams. |
| TreeFingerprint.StreamIgnoresOrder | scripts/fumie-debug-package-state.py:90-91 | The stream does not depend on the order in which directories list their names, at any depth. |
| TreeFingerprint.WalkIgnoresOrder | scripts/fumie-debug-package-state.py:89-92 | Nor does the walk from any prefix. |
| TreeFingerprint.SortSorts | scripts/fumie-debug-package-state.py:90-91 | The in-place sort of distinct names gives a strictly increasing list. |
| TreeFingerprint.LessIsLexicographic | scripts/fumie-debug-package-state.py:90-91 | Names are ordered byte by byte, and a prefix comes first. |
| TreeFingerprint.SortedNamesAgree | scripts/fumie-debug-package-state.py:90-92 | Two sorted lists of the same names name the same item at each position. |
| TreeFingerprint.UpdateDigest | scripts/fumie-debug-package-state.py:92-108 | The inner loop feeds one directory's entries, after those already fed. |
| TreeFingerprint.Fingerprint | scripts/fumie-debug-package-state.py:86-109 | The top-down loop over pending directories feeds exactly the bytes of the specified walk, and terminates. |
| ChangeDetection.VisibleChangeIsReported | scripts/fumie-debug-package-state.py:35-79 | A path whose contents, link target or executable bit differ is in `changed`, whatever was committed, staged or dirty in either snapshot. |
| ChangeDetection.UnreportedExactly | scripts/fumie-debug-package-state.py:35-79 | A path whose state differs goes unreported exactly when it is clean both times and HEAD has the same blob. |
| ChangeDetection.CanonicalChangeIsReported | scripts/fumie-debug-package-state.py:41-66 | With only the modes git itself writes, every difference in path state is reported. |
| ChangeDetection.ChmodIsUnreported | scripts/fumie-debug-package-state.py:41-66 | Without them it is not: 0644 to 0600 on a clean file is classified "unchanged". |
| ChangeDetection.ReportedIff | scripts/fumie-debug-package-state.py:126-140 | A path is reported exactly when its blob differs between the commits, it is dirty in one snapshot only, or it is dirty in both with a different file state. |
| ChangeDetection.DirtyIff | scripts/fumie-debug-package-state.py:35-38 | A path is dirty exactly when it is tracked and not as HEAD has it, in HEAD but not in the index, or an untracked file or link that is not ignored. |
| ChangeDetection.NothingChanged | scripts/fumie-debug-package-state.py:112-149 | A world that did not change is "unchanged" with no paths, whatever is dirty in it. |
| ChangeDetection.EditIsReported | scripts/fumie-debug-package-state.py:112-149 | Changed contents, executable bit, link target or kind of thing are reported. |
| ChangeDetection.VerdictIsExact | scripts/fumie-debug-package-state.py:135-149 | Against a comparable snapshot the verdict is "unchanged" exactly if all reported paths are under `scripts/`, and "full" exactly if one is neither there nor under `src/` outside `src/vscode-dts/`. |
| ChangeDetection.AnythingElseIsFull | scripts/fumie-debug-package-state.py:113-132 | Without a complete record of this version and context at a commit that exists the verdict is "full" with no paths; a state file that is no object makes the script fail. |
| ChangeDetection.VerdictIsSound | scripts/fumie-debug-package-state.py:112-149 | "Unchanged" means every visible change is under `scripts/`; "core" that every other one is under `src/` outside `src/vscode-dts/`; another context is always "full". |
| ImportMerger.Collect | scripts/sync-agent-host-protocol.ts:169-200 | The first loop gathers each module's names in order, and the other lines with one placeholder per module. |
| ImportMerger.MergeDuplicateImports | scripts/sync-agent-host-protocol.ts:158-220 | Both loops compute the specified merge, an uncaught exception included. |
| ImportMerger.MergeKeepsOutline | scripts/sync-agent-host-protocol.ts:183-200 | Other lines stay in order, and each module keeps one import, where it was first imported. |
| ImportMerger.MergeFailsIff | scripts/sync-agent-host-protocol.ts:203-205 | The function throws exactly when another line starts with the placeholder text and goes on with a module that is not imported. |
| ImportMerger.MergeKeepsBindings | scripts/sync-agent-host-protocol.ts:202-219 | Whenever it returns, exactly the same names are imported from the same modules, as types or as values. |
| ImportMerger.MergedForm | scripts/sync-agent-host-protocol.ts:206-216 | Each import of the result has its module's distinct value names, then `type ` and each distinct type name, in order of first occurrence; without value names it is a type import. |
| ImportMerger.NamesInTwo | scripts/sync-agent-host-protocol.ts:173-199 | The names gathered for a module are those of its lines, one after the other. |
| ImportMerger.TidyIsKept | scripts/sync-agent-host-protocol.ts:158-220 | Lines with one import per module, each of distinct names, come out as they are. |
| ImportMerger.MergeIsIdempotentIff | scripts/sync-agent-host-protocol.ts:202-219 | Whenever it returns, merging again changes nothing exactly when no other line starts with the placeholder text and no module imports a name as a type both inline and by `import type`. |
| ImportMerger.CombineAgain | scripts/sync-agent-host-protocol.ts:206-216 | Combining a combined import once more is the identity exactly when no name is typed in both ways. |
| ImportMerger.OthersSurviveIffClean | scripts/sync-agent-host-protocol.ts:202-219 | The other lines survive in order exactly when none starts with the placeholder text. |
| ImportMerger.CombineBinds | scripts/sync-agent-host-protocol.ts:206-216 | The combined import binds what the separate ones did. |
| TextEdits.ApplyEdits | scripts/sync-agent-host-protocol.ts:55-62 | Applying ordered, disjoint edits from last to first is splicing them all into the original text at once. |
| TextEdits.SpliceLength | scripts/sync-agent-host-protocol.ts:56-60 | The result is as long as the original plus each edit's new length minus its span. |
| TextEdits.UncoveredTextIsKept | scripts/sync-agent-host-protocol.ts:56-60 | A character no edit covers is in the result, moved by the growth of the edits before it. |
| TextEdits.NewTextIsInPlace | scripts/sync-agent-host-protocol.ts:56-60 | Each edit's text appears where its span was, moved likewise. |
| DownloadCache.ListIsRecentHistory | cli/src/download_cache.rs:119-139 | After any touches from an empty list with evictions succeeding, the list is the last five distinct names used, most recent first. |
| DownloadCache.IndexIsBounded | cli/src/download_cache.rs:119-139 | A name's index is the number of distinct others used since its last use and not deleted, and at most the number of distinct other names used since its last use, failed evictions and deletions included. |
| DownloadCache.ListedIffKept | cli/src/download_cache.rs:69-139 | After any touches and deletions with evictions succeeding, a name is listed exactly when it was used, not deleted since, and at no time since had five other names been used and not deleted. |
| DownloadCache.TouchedIffFewOthers | cli/src/download_cache.rs:119-139 | With touches only, that is: used, and fewer than five distinct other names since. |
| DownloadCache.TouchKeepsAccount | cli/src/download_cache.rs:119-139 | Whether or not the eviction succeeds, a touch keeps the list free of duplicates, each entry preceded by exactly the names used since and not deleted, and every name to be kept listed. |
| DownloadCache.TouchOutcome | cli/src/download_cache.rs:119-136 | The name comes first and the others keep their order; with five or more others the last one goes with its directory, unless that is there and cannot be removed. |
| DownloadCache.DropKeepsAccount | cli/src/download_cache.rs:69-71 | So does every deletion. |
| DownloadCache.StepKeepsTrackedIff | cli/src/download_cache.rs:52-139 | An atomic step keeps every cached directory listed exactly when a rename finds its name listed, or a list update of a deletion finds the directory gone; touches always do. |
| DownloadCache.ScheduleKeepsTracked | cli/src/download_cache.rs:52-139 | Whatever removals by touches fail: every cached directory is listed at the end of any interleaving in which each rename has a touch of its name before it, with no deletion of it and fewer than five distinct others touched in between, and each list update of a deletion a removal, with no rename of the name in between. |
| DownloadCache.ScheduleTrackedIff | cli/src/download_cache.rs:52-139 | With removals succeeding, from an empty cache: all directories are listed at all times exactly when each rename comes while its name is to be kept, and each list update while the directory is removed or evicted since the last rename, all read off the schedule. |
| DownloadCache.PresentAfter | cli/src/download_cache.rs:63-139 | Which directories a schedule leaves: those renamed into place, not removed by a deletion since, and to be kept ever since. |
| DownloadCache.RenameKeepsTrackedIff | cli/src/download_cache.rs:99-105 | A rename keeps every directory listed exactly when its name is to be kept by the history. |
| DownloadCache.FiveOthersLoseTheEntry | cli/src/download_cache.rs:99-105 | After any history, with only touches of other names since the create's own touch, the rename keeps every directory listed exactly when fewer than five distinct names were touched. |
| DownloadCache.DeleteAroundCreateLosesTheEntry | cli/src/download_cache.rs:63-72 | A create between the removal and the list update of a delete of the same name leaves an unlisted directory. |
| DownloadCache.Cache.LoadOrGet | cli/src/state.rs:47-59 | The list in memory if there is one, else that of the file, else the empty list; and it is kept in memory. |
| DownloadCache.Cache.Restart | cli/src/state.rs:47-59 | A new process has the same list if the last save was written; it tracks its directories exactly if the file lists them. |
| DownloadCache.Cache.Save | cli/src/state.rs:61-85 | A save changes the state in memory even when the file cannot be opened or is cut short. |
| DownloadCache.Cache.TouchEntry | cli/src/download_cache.rs:119-139 | The in-place edit of the list and the disk is the specified touch; all directories stay tracked even if saving or removing fails. |
| DownloadCache.Cache.Exists | cli/src/download_cache.rs:52-60 | A hit is moved to the front of the list by a touch, which may evict; a miss changes nothing; directories stay tracked. |
| DownloadCache.Cache.Delete | cli/src/download_cache.rs:63-72 | A deletion removes the directory and every occurrence in the list, or changes nothing when the directory cannot be removed. |
| DownloadCache.Cache.Create | cli/src/download_cache.rs:78-117 | A create that stages its directory touches its name and succeeds exactly when one of 21 renames does and the touch did not evict the staging directory, which it cannot unless that is itself listed; the list and the directories in every outcome; directories stay tracked. |
| KeyringStore.StoredReadsBackIff | cli/src/auth.rs:327-371 | A stored text reads back, over any earlier contents of the keyring, exactly when its length is not a multiple of the step and its last piece does not end in the marker. |
| KeyringStore.ReadBack | cli/src/auth.rs:327-371 | In every case, what reading after storing gives, with whatever follows the stored entries. |
| KeyringStore.NothingBeyondIsMissing | cli/src/auth.rs:327-371 | Any other text, stored in an empty keyring without error, is not found at all. |
| KeyringStore.ExactMultipleHasNoEnd | cli/src/auth.rs:353-363 | A positive exact multiple of the step is stored in marked entries only. |
| KeyringStore.StoreIsLocal | cli/src/auth.rs:349-371 | A store changes only entries it can write, each within the entry limit, and none outside those it needs. |
| KeyringStore.StoreSucceedsIff | cli/src/auth.rs:353-370 | A store succeeds exactly when none of the entries it needs refuses. |
| KeyringStore.ReadStopsAtEnd | cli/src/auth.rs:330-344 | Reading fails, finds nothing, or finds a text, as the first entry that does not continue is broken, missing, or there. |
| KeyringStore.StoredEntries | cli/src/auth.rs:353-370 | A store leaves all its entries there, and reading storable text stops at the last of them. |
| KeyringStore.DeleteIsExact | cli/src/auth.rs:375-379 | Deleting goes through the entries in order, succeeds exactly if each is there and deletable, and removes nothing else. |
| KeyringStore.ClearIsFinal | cli/src/auth.rs:373-383 | After a clear that succeeds no credential is found and every entry handled is gone; it fails if an entry reading stops at is missing. |
| KeyringStore.KeyringStorage.Read | cli/src/auth.rs:327-347 | The loop joins the pieces up to the first unmarked one, reports a missing or broken entry, and makes handles for all it visits. |
| KeyringStore.KeyringStorage.Store | cli/src/auth.rs:349-371 | The loop writes the pieces in order until one is refused, and makes handles for all it visits. |
| KeyringStore.KeyringStorage.Clear | cli/src/auth.rs:373-383 | Reads to make handles, then deletes every handled entry until one fails; the handles go only on success. |
| CredentialSession.RunKeepsInv | cli/src/auth.rs:439-488 | In every run, a session that uses the keyring has the file in reserve, and no token file exists. |
| CredentialSession.OpenedChoice | cli/src/auth.rs:439-488 | A session uses the file, with what it holds, if the environment asks for it, it exists, or the keyring is broken; else the keyring, with what it holds. |
| CredentialSession.RememberedUntilReplaced | cli/src/auth.rs:505-521 | The current credential is the last one stored, even if every store failed, until another is stored or a clear succeeds; a failed clear changes nothing. |
| CredentialSession.StoredSurvivesRestart | cli/src/auth.rs:615-637 | A credential the file accepted, directly or as the fallback, is found by the next session; one the keyring accepted is, if its sealed form is storable. |
| CredentialSession.SurvivesRestartIff | cli/src/auth.rs:439-488 | On a faultless keyring, a stored credential survives a restart whatever the keyring held exactly when its sealed form is storable. |
| CredentialSession.ClearedStaysCleared | cli/src/auth.rs:515-521 | After a clear that succeeded, the next session finds no credential, even if the keyring then fails. |
| CredentialSession.StoreThenClear | cli/src/auth.rs:373-383 | Clearing after a store removes every entry the store wrote, those a read would not reach included. |
| CredentialSession.ClearWorksAgain | cli/src/auth.rs:373-383 | After a clear, a storable credential stored without faults can be cleared again. |
| CredentialSession.SecondClearFails | cli/src/auth.rs:373-380 | Clearing the keyring again reports an error. |
| CredentialSession.Auth.WithStorage | cli/src/auth.rs:439-488 | The first use chooses file or keyring by the environment, the file's existence and the keyring's health, and remembers what it read. |
| CredentialSession.Auth.GetCurrentCredential | cli/src/auth.rs:506-512 | Returns what is remembered and leaves it there. |
| CredentialSession.Auth.StoreCredentials | cli/src/auth.rs:615-637 | Stores, falls back to the file once if the keyring refuses, and remembers the credential in any case. |
| CredentialSession.Auth.ClearCredentials | cli/src/auth.rs:515-521 | Clears the storage in use and forgets the credential only on success. |
| EndpointState.AcceptedIff | scripts/mock-policy-server/server.ts:254-331 | A request is accepted exactly when it is one update or a lone non-empty array of them, each well formed for its endpoint, no endpoint named twice. |
| EndpointState.ItemAcceptedIff | scripts/mock-policy-server/server.ts:277-330 | One update passes exactly when it has only known fields, names a known endpoint not seen before, sets something, and its preset, status and activity are valid. |
| EndpointState.RejectionExplains | scripts/mock-policy-server/server.ts:254-318 | An error is true of the request, or of the first update that is not acceptable, named by its position if there are several. |
| EndpointState.CommitPointwise | scripts/mock-policy-server/server.ts:333-360 | An accepted batch changes only named endpoints, each from its state before the batch, and keeps the key set. |
| EndpointState.RevisedParts | scripts/mock-policy-server/server.ts:341-355 | Each part of an entry comes from the update, else from the named preset, else stays; a preset activates unless told otherwise. |
| EndpointState.AppliedFields | scripts/mock-policy-server/server.ts:254-362 | From an accepted request's JSON to the new state: status, body and activity as given, else from the named preset, else as before. |
| EndpointState.UnnamedStay | scripts/mock-policy-server/server.ts:333-360 | Endpoints no update names keep their state. |
| EndpointState.UpdateParts | scripts/mock-policy-server/server.ts:316-330 | The typed form of a well-formed update leaves nothing out. |
| EndpointState.OrderDoesNotMatter | scripts/mock-policy-server/server.ts:254-362 | Any permutation of an accepted batch is accepted with the same outcome. |
| EndpointState.BatchIsSequence | scripts/mock-policy-server/server.ts:254-362 | An accepted batch has the effect of posting its updates one after the other. |
| EndpointState.ServeKeepsInv | scripts/mock-policy-server/server.ts:254-374 | Every request, accepted or rejected, and every reset keeps the key set and the status range 200 to 599. |
| EndpointState.ReachableInv | scripts/mock-policy-server/server.ts:63-374 | So they hold in every state a server reaches, if the presets of its table are in range. |
| EndpointState.ResetIsDefault | scripts/mock-policy-server/server.ts:364-374 | A reset puts each endpoint at its first preset, or at 200 with an empty object, mocked if marked so. |
| EndpointState.PolicyState.CheckUpdates | scripts/mock-policy-server/server.ts:254-331 | The validation loop gives the updates in order, or the first error. |
| EndpointState.PolicyState.ApplyEndpointUpdates | scripts/mock-policy-server/server.ts:254-362 | Validate, build the next state aside, commit: a rejected batch leaves the state unchanged. |
| EndpointState.PolicyState.ResetEndpointState | scripts/mock-policy-server/server.ts:364-374 | The loop over the table gives the initial state, whatever the state was. |
| OverridesWiring.RestoredIff | scripts/mock-policy-server/server.ts:709-748 | Wiring and unwiring restores the overrides file, byte for byte or absent, exactly when it existed or there was no earlier backup; without one, the backup is gone again too. |
| OverridesWiring.UnwireAfterWire | scripts/mock-policy-server/server.ts:709-786 | What unwiring after wiring leaves in every case, a wiring that threw included. |
| OverridesWiring.WiredIff | scripts/mock-policy-server/server.ts:684-735 | In between, every endpoint points at the server exactly when the overrides file was absent, did not parse, or held an object; wiring throws exactly on null. |
| OverridesWiring.WiredMeans | scripts/mock-policy-server/server.ts:684-697 | A file with an agent object is wired exactly if each product key has the address of its last endpoint. |
| OverridesWiring.NotWired | scripts/mock-policy-server/server.ts:684-694 | A file that is absent, does not parse, or has no agent is not wired. |
| OverridesWiring.UrlMapAt | scripts/mock-policy-server/server.ts:675-681 | Each product key gets the address of its last endpoint. |
| OverridesWiring.BaseAgentIs | scripts/mock-policy-server/server.ts:710-711 | The product's agent is its property if it is there and not null, else nothing. |
| OverridesWiring.SpreadIs | scripts/mock-policy-server/server.ts:727-731 | What spreading copies of an object, an array, a text, and anything else. |
| OverridesWiring.NoProduct | scripts/mock-policy-server/server.ts:710-711 | Without a readable product file wiring only throws. |
| OverridesWiring.WireKeepsTheRest | scripts/mock-policy-server/server.ts:720-733 | Wiring gives each endpoint its address and keeps all other top-level overrides, all keys of the product's agent and all overrides of it that are not endpoint addresses. |
| OverridesWiring.WireIsIdempotent | scripts/mock-policy-server/server.ts:709-735 | Wiring again rewrites the same file, and backs up the wired one. |
| OverridesWiring.UnwireAfterTwoWires | scripts/mock-policy-server/server.ts:714-747 | After wiring twice, unwiring leaves what the first wiring wrote, and no backup. |
| OverridesWiring.SecondWireRestoresIff | scripts/mock-policy-server/server.ts:714-747 | So it restores the overrides file exactly when the first wiring left it as it was. |
| OverridesWiring.SecondWireLosesTheOriginal | scripts/mock-policy-server/server.ts:714-747 | From no files, wiring once and unwiring leaves none, wiring twice and unwiring a wired overrides file. |
| OverridesWiring.SurgicalUnwire | scripts/mock-policy-server/server.ts:751-785 | Without a backup, from any file with an agent, every endpoint address goes back to the product's or away, other overrides stay, and an agent equal to the product's, or a file left empty, is dropped. |
| OverridesWiring.UnwireThrowsIff | scripts/mock-policy-server/server.ts:751-761 | Unwiring throws exactly, without a backup, on null and where the product file is needed but cannot be read; it then changes nothing. |
| OverridesWiring.UnwireLeavesAlone | scripts/mock-policy-server/server.ts:751-758 | Without a backup and without an agent it leaves the files alone. |
| OverridesWiring.Overrides.OverrideUrls | scripts/mock-policy-server/server.ts:675-681 | The loop gives each product key the address of its last endpoint. |
| OverridesWiring.Overrides.WireOverrides | scripts/mock-policy-server/server.ts:709-735 | Backup, parse and rewrite, with the exceptions on an unreadable product file and on null. |
| OverridesWiring.Overrides.RevertAgent | scripts/mock-policy-server/server.ts:763-770 | The loop over the endpoints restores or deletes exactly their keys. |
| OverridesWiring.Overrides.UnwireOverrides | scripts/mock-policy-server/server.ts:742-786 | Restores a backup wholesale, else reverts the file in place, rewrites it or removes it. |

## Left out

- Sockets, pipes, async scheduling and serde themselves: bytes, maps and inputs that say what succeeds stand for them.
- Streams: ids are fresh in every run considered; `register_stream`, which takes them from the same wrapping counter as calls, is not modelled further, nor is the wrap after 2^32 ids.
- Calls: what a callback does with the reply's body, and the dispatch of incoming requests to registered methods, are not modelled; neither is registering a method name twice.
- MessagePack.Decode: decodes an untyped value, so it does not give the verdicts of decoding into `PartialIncoming` (wrong, unknown or missing fields), of the nesting-depth limit and of the UTF-8 check of strings; floats are kept as raw bytes.
- ReplyChannel.Connection.ReadBranch: runs without interference from spawned futures, which the step model beside it has; the write side, `msg_rx` and shutdown branches, a failed write ending the loop, and cancellation of the read are not modelled.
- TreeFingerprint: the hash, files that change while they are read, unreadable directories and the race between listing and `lstat` are not modelled; only the bytes fed to the hash are.
- ChangeDetection: git is a map from commits to blobs plus an index of tracked paths and a fixed ignore set; staged contents, submodules, filters and path decoding (`nul_paths`) are not modelled; the hash is injective by assumption.
- ImportMerger: the regular expressions, the collapsing of multi-line imports and line endings; lines are taken as already matched.
- TextEdits: the formatter; its edits are taken as ordered, disjoint and within the text.
- DownloadCache: symbolic links, and several processes on one cache; the exact condition for interleavings is for removals that succeed, the sufficient one for any; a list read from a damaged file counts as empty.
- KeyringStore: sealed text is ASCII, so that cutting at a byte never splits a character, where the code would panic; the Linux thread with its five-second timeout is not modelled.
- CredentialSession: sealing and unsealing are given functions of which only the round trip is assumed; expiry, refresh, the login flows and provider choice are not modelled; only one process works on the token file.
- EndpointState: error texts are kept as kinds with their data; the GUI, the request log and the served responses are not modelled; the presets in the table are assumed to be within the status range.
- OverridesWiring: the order of keys is not kept, so the comparison of nested values does not see it; file operations succeed, except that product.json may be unreadable; inherited properties such as `length` of a string agent are not looked up.
- `cli/src/json_rpc.rs`, `cli/src/singleton.rs`, the tunnels, the passthrough proxy and the remaining scripts are not part of this model: they repeat these patterns or are input and output only.
