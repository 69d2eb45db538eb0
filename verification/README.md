# InvariantFS, verified model

This project models the stateful core of InvariantFS in Dafny 4.11 and proves what each part is for. `dafny verify dfyconfig.toml` checks all of it. The model follows the C code's own branches, constants and failure paths. Where the code and its comments disagree the model follows the code, and the difference is listed under "Where the code differs from its promise".

| part | files |
|---|---|
| streaming writes: tail window, dirty list, read/write/ftruncate/flush/release | Bytes, Standings, WriteStaging, DirtyHandles, WriteDaemon, WriteRuns |
| the engine write session underneath: segments, child recipes, aliasing, the committed recipe of one or two levels and its reader | SegmentMap, StoredFile, ChildRecipe, StoredTree, RangeEffect, EngineSession, EngineCalls, EngineRuns |
| the daemon's name table: sorted rows, stage, two-way merge, sync, rebuild | Names, NameTable, TableMerge, StagedTable, TableSync, TableRuns |
| POSIX ACLs: validator, evaluator, the three mode/ACL folds, path traversal | AclBlob, AclShape, AclEval, AclFold, AclLaws, AclExact, Traversal |
| the watermark ladder of the background sweep | Ladder |
| mkfs: zone layout, allocation bitmap, tail anchor | Mkfs, MkfsBitmap |
| the sweep driver: collector hash index, container-chain splitter | Collector, ChainSplit |

## What is proved

- **Writes.** The daemon runs on the engine session below, not on an assumption about it: every range write, read, truncate and commit it makes resumes the modelled session, works on its segments and saves it. The reference is a map from names to byte strings in which every write is a zero-extending splice and every truncate a cut or zero-extension. Take every run of open, write, read, ftruncate, flush and release in which each name has at most one handle, writes stay within the format's bounds or beyond 2^48 (where they are refused) and never go back to a child recipe (4 GiB unless configured otherwise) that the file has left, a length is set only while the file is in its first child, and a file is committed only when no segment but its last is stored short and no child was leaped over. If no engine call fails, the daemon returns exactly what that map returns, every closed name has the map's content committed in entries that can be read back whole, and nothing is staged on a handle without a session; and no call fails if the engine answers every one (`WriteRuns.Run`). A write may jump past a short last segment: it is served at once, and the file may be committed once that segment was written, too (`WriteRuns.JumpThenPad`). Apart from the bounds, each condition on writes, cuts and commits answers to a failure of the code in the next section. Below the runs every single call is specified for failing engine calls too, and what decides its outcome is kept apart: the view and the bytes read need only that the session never went back, and the bytes published need no more in one child, and past it that no child was leaped over; that the published entries cover the file is a further condition, exact for a loaded session (`Standings.Publishes`). A write that fails drops session and window, the handle shows the committed file again, and a commit after it publishes nothing (`WriteRuns.FailedWriteRollsBack`). How each engine call goes is an arbitrary oracle: well, refused, unable to load the old file, or short of space from any segment on.
- **The engine session.** Every session whose writes only move onward, over any number of child recipes, answers every `vol_write_range`, `vol_write_truncate` and `vol_write_read` as the plain byte string does and ends with its content (`EngineRuns.Serve`); within one child every write is onward. A commit of one child keeps the file's bytes, and its entries tile the file if and only if no short segment was left behind (`WriteSession.Publish`). A commit of several children stores a top recipe, which covers the file if and only if every sealed child was full when it was left and no short segment was left behind, and then has its bytes (`WriteSession.PublishTree`). The reader of either form returns a range if and only if the entries cover every byte of it (`StoredFile.ReadRange`, `StoredTree.ReadTree`). For every other session the effect of a range write is given byte by byte: the data lands, and of the first and the last segment of the range nothing else is left if the session does not serve it when the write gets there, which a test of the session before the call decides. So the write is the splice if and only if those segments held only zeros around it (`WriteSession.WriteRange`). A truncate in the last of several children has its if-and-only-if too (`TruncateInLast`), and so has a load that fails midway (`EngineCalls.LoadPart`).
- **Name table.** Every run of upsert, remove, merge, rebuild and lookup, with any allocation failing, is a run of a plain map (`TableRuns.Run`). The merge never writes past a buffer of exactly the two lengths together. A finished rebuild gives every entry of the walk its own inode, size and time under its path, and every directory a second row of size 0 under its anchor (`TableSync.RebuiltHolds`). A sync that does not mark the table stale leaves it in agreement with the engine on every key it looked at (`TableSync.SyncParents`).
- **ACLs.** The validator accepts exactly the grammar USER_OBJ USER\* GROUP_OBJ GROUP\* MASK? OTHER of section 23 of IEEE P1003.1e draft 17 with its id and permission rules. The single scan of the evaluator is the declarative access check. The folds keep lists valid and round-trip with the mode. What they grant is given exactly: under an inherited list a caller has what the default list grants and the triad of their class allows if and only if there is a MASK or no reachable named entry exceeds the group triad (`AclExact.CreateExactIff`), and who has what after a chmod is stated for every valid list (`AclExact.ChmodExact`). A list that a fold reports as trivial answers every request as the mode alone does. Supplementary groups count as the primary one does. Path traversal succeeds exactly when the declarative check passes on every ancestor it looks at.
- **Ladder.** From any ladder state and any volume, over any number of ticks with manual passes and writers in between and captures failing at will, the ladder starts at most two passes, two more for every time a writer raises the fill, and one more for every pass that supersedes anything. Once a tick starts none, none follows until a writer raises the fill. From below: after a pass and any number of ticks that started none, the next starts one if and only if it is over the mark and debt is owed, the fill has passed the last exit fill, or a tick in between was at or under the mark (`Ladder.StartsAgainIff`).
- **mkfs.** Zones partition the volume, and the bitmap is exact to the bit: what is reserved is claimed, and what the allocator draws from is free.
- **Sweep driver.** The chained hash index is a linear search through every rehash, each kept path has one slot with its last delivery, and the splitter's rows rejoin to the name.

## Where the code differs from its promise

Each of these is proved, with the exact condition where the failure has one that can be tested before the call.

- A staged window that cannot be pushed ends the write loop without an error, and the full size is returned. Of a write inside one segment, on a ready handle with a session and a buffer, everything is taken if and only if the handle is not stuck before the call, that is, unless a window is staged that the data cannot join and the engine will refuse it (`Daemon.Write` with `WriteHandle.Stuck`, `AcknowledgedWriteLost`).
- A commit whose first engine call fails keeps its staged window on a handle without a session, and no other commit of a sound handle does (`Daemon.Commit`).
- A session whose old file could not be loaded counts as loaded. It has the file's content if and only if every byte past the windows that were read is zero (`EngineCalls.LoadPart`, `WriteHandle.LoadOld`). The push that met the failure may be one whose answer is dropped, as in a read by path, so the next flush succeeds and publishes a file that has lost its old content (`FailedLoadPublished`).
- A write that jumps past the partial last segment of the file it took over does not fill that segment up, although no unmapped range is ever to exist. The commit succeeds, with the right bytes, and a read of the gap is refused (`EngineRuns.JumpLeavesHole`; `WriteSession.Publish` has the exact condition).
- A write that leaps over the rest of a child recipe seals that child at the length the file had before it, and the length is not renewed. The session serves every byte, but the committed top recipe has a gap (`EngineRuns.LeapLeavesGap`; `WriteSession.PublishTree` has the exact condition).
- A truncate back into an earlier child drops the children behind it from the top recipe and then seals the open one onto it again, past the new end of the file. Every later read of the committed file is refused. The child that is opened again serves nothing the session wrote, so a last segment that is stored again loses the bytes it should keep, unless it is the old file's (`WriteSession.CutBack`, `EngineRuns.CutBackUnreadable` for every such session, `CutBackLosesAll` from a new file).
- An ftruncate beyond 2^48 discards the writes that were pending (`Daemon.Truncate`).
- A session that goes back to a sealed child recipe no longer reads the other segments of that child that it wrote itself: they come back as zeros, and a partial write over one of them keeps zeros (`EngineRuns.GoingBackHides` for every such session, `BackwardsReadsZero` from a new file, `Read`). A single write across a segment boundary of such a child loses the rest of its last segment (`WriteSession.WriteRange`, `SpanningWriteLoses`).
- A truncate inside the last of several children does not zero the rest of the cut segment, because it compares the file's segment number with the entries of the open child alone. Growing the file again brings the old bytes back (`TruncateInLast`, `EngineRuns.GrowingBringsBack`, `CutBytesReturn` from a new file).
- A directory path of exactly 255 bytes gets the same table key as its own anchor. A finished rebuild is in order if and only if there is none (`TableSync.Rebuild`, `WalkRowsDistinctIff`), and removing such a directory leaves a live row of its name (`LongDirOutlivesRemoval`).
- After `chmod` nobody exceeds the triad of their class if and only if the list has a MASK or no reachable named entry exceeds the group triad (`ChmodBoundIff`, `MasklessChmodExceeds`). The same condition decides whether inheritance cuts every grant to the triad of the caller's class (`AclExact.CreateExactIff`).
- An empty reclaim is taken as proof that the window just armed holds only live blocks. It speaks of the previous window; debt is left behind exactly when a discharge pass reclaims nothing and supersedes something (`DebtLeftIff`, `DebtLeftStays`).
- The bitmap has a bit for every block if and only if `total_blocks mod 32768` is not in 1..7 (`BitmapCoversIff`).
- The segments of a split name rejoin to it if and only if none is 288 bytes or longer (`RejoinIff`).

## Model

| member | source | states |
|---|---|---|
| Bytes.SpliceAppend | src/cli/fuse_fs.c:2441-2486 | writing two adjacent pieces one after the other is writing their concatenation |
| Bytes.SplicePrefixThenAll | src/cli/fuse_fs.c:1999-2012 | re-driving a range of which any prefix was already applied gives the whole splice: a retry of a failed push is idempotent |
| Bytes.GrowWindow | src/cli/fuse_fs.c:2470-2478 | copying a piece into the tail buffer and widening or starting the window is splicing the piece over the old overlay |
| Standings.AfterAppend | src/cli/fuse_fs.c:2441-2486 | the same for all that is known of a file: content, short segments, stored segments, open child and leaps |
| Standings.PartThenAll | src/cli/fuse_fs.c:1999-2012 | and so for a window of which a part was pushed already |
| Standings.GrowWindowed | src/cli/fuse_fs.c:2470-2478 | and so for a window that grows |
| Standings.RecutSettled | src/core/vol_write.c:906-1000 | a file in its first child whose needed segments are stored can be cut or extended to any length and published with its bytes, whole iff the cut leaves no short segment in the middle |
| WriteStaging.SegmentNumberFits | src/cli/fuse_fs.c:2428-2444 | for offset + size up to 2^48 the 32-bit segment number is the true one |
| WriteStaging.WriteHandle.LoadOld | src/core/vol_write.c:796-804 | the session stands for the committed file once it is loaded; of a file without a hole the first load fails exactly when the engine's does; a failed load is taken for loaded, and leaves the content unchanged iff there are only zeros past the windows that were read; with nothing read it leaves an empty file |
| WriteStaging.WriteHandle.WriteRange | src/core/vol_write.c:808-887 | on a session that streams, for a write that does not go back to a sealed child: the splice on success, the splice of some prefix on failure, with what is left of short segments, open child and leaps; it fails exactly when the engine does |
| WriteStaging.WriteHandle.FlushTail | src/cli/fuse_fs.c:2002-2012 | whatever the engine answers, short of losing the old file, a sound handle stays sound and what it stands for does not change; success empties the window, failure keeps it; it succeeds if the engine takes it |
| WriteStaging.WriteHandle.Stage | src/cli/fuse_fs.c:2470-2478 | what the handle stands for becomes what writing the piece makes of it; the window stays one interval in one segment that can be pushed |
| WriteStaging.WriteHandle.PutSegment | src/cli/fuse_fs.c:2449-2454 | on success the view is the splice of the whole segment; it fails exactly when an engine call failed, and always when the staged window cannot be pushed first; never if the engine answers |
| WriteStaging.WriteHandle.PutStaged | src/cli/fuse_fs.c:2464-2478 | a sub-segment piece is spliced into the view or nothing changes: refused iff a window is staged that it cannot join and the engine does not take that |
| WriteStaging.WriteHandle.PutAll | src/cli/fuse_fs.c:2441-2487 | the loop splices in a prefix of the data, all of it exactly when no engine call failed and the buffer was there; data inside one segment is taken iff the handle is not stuck; no call fails if the engine answers |
| DirtyHandles.DirtyList.Add | src/cli/fuse_fs.c:1938-1945 | the handle is listed once, newest first, and the list stays linked and duplicate-free |
| DirtyHandles.DirtyList.Del | src/cli/fuse_fs.c:1947-1954 | the handle is gone, the others keep their order, its link is cleared |
| WriteDaemon.Daemon.EnsureSession | src/cli/fuse_fs.c:2015-2030 | the session is begun once, the handle listed as the newest, its view unchanged; a failure changes nothing |
| WriteDaemon.Daemon.AbortFailed | src/cli/fuse_fs.c:1966-1977 | session and window are dropped and the handle stands for the committed file |
| WriteDaemon.Daemon.Write | src/cli/fuse_fs.c:2403-2489 | on a non-negative result the view is the splice of the taken prefix, for every write up to 2^48 that does not go back to a child that was left, and a session it began is the newest; the prefix is everything iff no engine call failed, and inside one segment iff the handle was not stuck before; a short write on an open session is always reported as complete; a failed one drops session and window, leaves the handle with the committed file and reports the errno of the call that failed, and one that finds no buffer keeps what was taken |
| WriteDaemon.Daemon.EngineCommit | src/core/vol_write.c:1046-1254 | success publishes the bytes of a session of one child or of full ones, with entries that cover them iff no short segment was left behind, and changes no other file; failure changes none |
| WriteDaemon.Daemon.Commit | src/cli/fuse_fs.c:3015-3077 | success publishes the view in the same way and nothing else; failure changes no file and takes the name off the table; on a sound handle the window survives iff the push of it was not granted |
| WriteDaemon.Daemon.Release | src/cli/fuse_fs.c:3114-3126 | the view is published and the handle gone; a failed commit changes no file and takes the name off the table |
| WriteDaemon.Daemon.EngineTruncate | src/core/vol_write.c:890-1001 | the session becomes the resized file, to any length, for a session in its first child; it succeeds if the engine answers |
| WriteDaemon.Daemon.Truncate | src/cli/fuse_fs.c:3306-3354 | success publishes the resized view at once; the session ends either way; a failure changes no file and reports the errno of the call that failed, EIO if the session cannot be begun; beyond 2^48 the result is EFBIG and the pending writes are gone; no call fails if the engine answers |
| WriteDaemon.Daemon.FlushNamed | src/cli/fuse_fs.c:2053-2059 | pushes the windows of every session on the name, touches no other session and changes no handle's view, even when pushes fail; none fails if the engine answers |
| WriteDaemon.Daemon.FindDirty | src/cli/fuse_fs.c:1979-1985 | the newest session on the name, or null iff there is none |
| WriteDaemon.Daemon.EngineRead | src/core/vol_write.c:1009-1038 | with no failing call the slice of the session's file, for every session that never went back; the session keeps its content unless its old file is lost |
| WriteDaemon.Daemon.ReadCommitted | src/cli/fuse_fs.c:2067-2100 | ENOENT iff the name is absent or off the table, EIO only for a file with a hole, otherwise the slice of the committed bytes |
| WriteDaemon.Daemon.Read | src/cli/fuse_fs.c:2032-2100 | with no failing call, the bytes of the newest session's view; without a session, the committed file; a session that fails is EIO or ESTALE; sessions on other names are not touched |
| WriteDaemon.AcknowledgedWriteLost | src/cli/fuse_fs.c:2464-2488 | two writes to a new file, of which the second returns 1 and its byte is not in the view |
| WriteDaemon.FailedLoadPublished | src/core/vol_write.c:796-804 | a file of 65537 bytes, one byte written over it, one failed load met by a read by path: the flush succeeds and publishes at most 65536 bytes |
| WriteRuns.Step | src/cli/fuse_fs.c:1936-2489 | one operation without a failing call returns what the byte store returns and leads to its next state; no call fails if the engine answers |
| WriteRuns.Run | src/cli/fuse_fs.c:1936-2489 | every run of any length of allowed operations without a failing call is a run of the byte store, over any number of children, every closed name has its content committed, every file can still be read whole, and nothing is staged without a session; no call fails if the engine answers |
| WriteRuns.FailedWriteRollsBack | src/cli/fuse_fs.c:2480-2489 | whatever the handle had taken before: after a failed write it shows the committed file, and the commit behind it succeeds and publishes nothing |
| WriteRuns.JumpThenPad | src/core/vol_write.c:846-885 | for every file with a short last segment: after a write that jumps past it a flush is not allowed, and is once the segment was written |
| SegmentMap.PatchIsSplice | src/core/vol_write.c:862-885 | storing one patched segment is splicing the piece into the file, and past the end stays zero |
| SegmentMap.OverZerosExact | src/core/vol_write.c:862-885 | a piece stored over zeros is the splice iff the segment had only zeros around it |
| SegmentMap.CutDropped | src/core/vol_write.c:921-984 | dropping the segments past the new end and zeroing the rest of the cut one is the resize, in both directions |
| StoredFile.ReadRange | src/core/vol_read.c:1690-2090 | the slice of the file if and only if entries cover every byte of the range, otherwise nothing |
| StoredFile.FirstEntry | src/core/vol_read.c:1800-1825 | of more than eight entries the first that ends after the offset, otherwise the very first |
| StoredFile.TrimmedFile | src/core/vol_write.c:1068-1096 | dropping the entries past the end and storing the last at its exact length keeps the bytes, and tiles the file iff there was no gap |
| ChildRecipe.OpenedFiles | src/core/vol_write.c:247-355 | sealing the open child and opening any other keeps the recipe a filing of the same segments |
| ChildRecipe.OpenedTall | src/core/vol_write.c:284-296 | a child that the file fills when it is left gets its full length in the top recipe |
| ChildRecipe.OpenedShort | src/core/vol_write.c:267-296 | one that the file does not fill is sealed short, and a short one stays so |
| ChildRecipe.BoundIs | src/core/vol_write.c:818-834 | a write and a truncate are refused at the same length: past 2^48 bytes or past 2^24 full children |
| StoredTree.ReadTree | src/core/vol_read.c:1752-2090 | a file of two levels: nothing if a top entry reaches past the file, otherwise the slice iff the top entries and the entries of the children cover every byte of the range |
| EngineSession.WriteSession.Alias | src/core/vol_write.c:749-760 | a session that takes over a plain old file has its content and can read all of it |
| EngineSession.WriteSession.Materialize | src/core/vol_write.c:761-789 | a session that stores an old file again window by window has its content, over any number of children; one that stops midway has exactly the windows it got and zeros for the rest, and of a file without a hole it stops only where there is no space |
| EngineSession.WriteSession.Current | src/core/vol_write.c:558-657 | the bytes of a readable segment, zeros for an unreadable one |
| EngineSession.WriteSession.WriteSeg | src/core/vol_write.c:430-541 | exactly one segment changes, or none without space; which entries count as written after a child switch; onward sessions go on streaming |
| EngineSession.WriteSession.WritePiece | src/core/vol_write.c:862-885 | the file becomes the splice of the piece iff the segment was readable or held only zeros around it |
| EngineSession.WriteSession.ZeroFill | src/core/vol_write.c:661-675 | no byte changes and every segment below the target is stored |
| RangeEffect.LandedMore | src/core/vol_write.c:862-885 | piece after piece: the effects of two adjacent pieces on every byte compose, and a later piece blanks none of the data before it |
| RangeEffect.LandedIsSplice | src/core/vol_write.c:808-887 | a write that blanks some segments is the splice iff they held only zeros around it |
| RangeEffect.TracksReads | src/core/vol_write.c:314-355 | whether the next segment is served is decided by the session before the write: a child opened on the way serves only what is the old file's |
| EngineSession.WriteSession.WriteRange | src/core/vol_write.c:808-887 | for every session: every byte of the file after the data, or the prefix it had space for, has landed; the splice iff nothing was lost, and always for an onward session; which segments are still short, and when a sealed child becomes short; EFBIG exactly beyond the bounds |
| EngineSession.WriteSession.Read | src/core/vol_write.c:1009-1038 | byte for byte the file in readable segments and zero in others; the slice of the file for a streaming session |
| EngineSession.WriteSession.ZeroCut | src/core/vol_write.c:967-984 | the rest of the segment at the cut is zero and no other byte changes |
| EngineSession.WriteSession.Truncate | src/core/vol_write.c:890-1001 | the resized file, extending or cutting to any length, for every session without a sealed child, and which segments are still short |
| EngineSession.WriteSession.TruncateInLast | src/core/vol_write.c:943-1000 | with sealed children and both ends in the open one: every stored byte of the kept segments stays, and the result is the resize iff only zeros are stored between the ends |
| EngineSession.WriteSession.CutBack | src/core/vol_write.c:943-1139 | back into an earlier child, then committed: the top recipe reaches past the file; the last segment keeps its bytes unless it is stored again and not the old file's, and then is zero |
| EngineSession.WriteSession.Publish | src/core/vol_write.c:1046-1096 | the published recipe has the session's bytes, and tiles the file iff no short segment was left behind |
| EngineSession.WriteSession.PublishTree | src/core/vol_write.c:1096-1139 | with sealed children: the top recipe covers the file iff every sealed child has its full length and no short segment was left behind, and in the first case has its bytes |
| EngineCalls.Load | src/core/vol_write.c:690-804 | a loaded session streams and has the file's bytes and no short segment that the file does not have; a file without a hole is always loaded |
| EngineCalls.LoadPart | src/core/vol_write.c:761-804 | a load that stops after some windows of a file without a hole leaves the file as it was iff there are only zeros past them |
| EngineCalls.Range | src/core/vol_write.c:808-887 | a session that streams takes the splice of the prefix it had space for, if the write does not go back, and goes on streaming |
| EngineCalls.Cut | src/core/vol_write.c:890-1001 | such a session in its first child becomes the resized file and goes on streaming |
| EngineCalls.Publish | src/core/vol_write.c:1046-1254 | such a session that ends in its open child publishes a file that is covered by its entries iff no child and no segment but the last is short, and that has its bytes if no child is |
| EngineRuns.JumpLeavesHole | src/core/vol_write.c:808-887 | for every old file with a partial last segment and every write past it: the commit has the right bytes, and a byte of the gap cannot be read |
| EngineRuns.LeapLeavesGap | src/core/vol_write.c:281-296 | for every streaming session and every write that leaps over a child boundary past the end: the session has the splice, and the committed file cannot be read through |
| EngineRuns.CutBackUnreadable | src/core/vol_write.c:943-952 | for every streaming session that ends in a later child, every cut into an earlier one and every non-empty read of the result: refused |
| EngineRuns.CutBackLosesAll | src/core/vol_write.c:943-984 | three segments of ones in three children, cut to one byte: the stored byte is zero, and reading it is refused |
| EngineRuns.BackwardsReadsZero | src/core/vol_write.c:314-355 | three segments written in order and then the second again: the first reads as zero |
| EngineRuns.SpanningWriteLoses | src/core/vol_write.c:808-887 | three segments written in order, then two bytes across the boundary of the first two: the write succeeds and the byte after them is zero |
| EngineRuns.CutBytesReturn | src/core/vol_write.c:967-984 | two segments cut to 65537 bytes and grown to 65538: the cut byte is back |
| EngineRuns.GrowingBringsBack | src/core/vol_write.c:967-984 | cutting a file in its last child and growing it within the same segment gives the old bytes back |
| EngineRuns.GoingBackHides | src/core/vol_write.c:314-355 | after a segment of a sealed child is stored, any other byte the session wrote in that child is read as zero although the file has it |
| EngineRuns.Serve | src/core/vol_write.c:808-1038 | every session whose writes only move onward, over any number of children, answers every call as the plain byte string does and ends with its content; lengths are set to any value before the first child is sealed |
| NameTable.ApplyPermuted | src/cli/fuse_fs.c:501-508 | rows with distinct names give the same map in any order |
| NameTable.ApplyCommutes | src/cli/fuse_fs.c:581-600 | a row commutes past rows of other names |
| Names.LessIff | src/cli/fuse_fs.c:368-381 | the order of the rows is decided by the first character in which two names differ, or by the shorter name |
| TableMerge.SortKeepsDistinct | src/cli/fuse_fs.c:501-502 | sorting distinct rows gives a strictly sorted table of the same rows |
| TableMerge.SkipDuplicates | src/cli/fuse_fs.c:512-515 | the last staged row of a name is the one merged |
| TableMerge.MergeRows | src/cli/fuse_fs.c:497-558 | strictly sorted, free of tombstones, within \|main\| + \|stage\| rows, and as a map the main rows with the staged rows put over them |
| StagedTable.Table.FindStaged | src/cli/fuse_fs.c:560-568 | the newest staged row of the name, or none |
| StagedTable.Table.FindMain | src/cli/fuse_fs.c:569-574 | binary search finds the first row of the name iff there is one, also where names repeat |
| StagedTable.Table.Find | src/cli/fuse_fs.c:560-574 | exactly the map's live row |
| StagedTable.Table.Flush | src/cli/fuse_fs.c:497-558 | the map never changes; with memory the stage empties and main is tombstone-free, without it main stays and the stage is only permuted |
| StagedTable.Table.Upsert | src/cli/fuse_fs.c:581-626 | sets one key, or changes nothing exactly when the name has no row and the stage cannot grow; with memory the stage is flushed before it holds 1024 rows |
| StagedTable.Table.Remove | src/cli/fuse_fs.c:628-649 | deletes one key; where a name has more rows, exactly the first is tombstoned |
| TableSync.SyncOne | src/cli/fuse_fs.c:703-721 | evicts only on a completed absence, refreshes on a read row, otherwise keeps the row and marks the table stale; a table not marked agrees with the engine; no other key changes |
| TableSync.SyncParents | src/cli/fuse_fs.c:723-741 | the same for every ancestor and its anchor and no other key; stale iff some lookup did not complete, and otherwise in agreement with the engine on all of them |
| TableSync.WalkRowsDistinctIff | src/cli/fuse_fs.c:406-440 | the rows of a walk have distinct names iff no directory path has 255 bytes |
| TableSync.Collect | src/cli/fuse_fs.c:406-440 | all rows of the walk, or exactly the first that fit when memory ends |
| TableSync.Rebuild | src/cli/fuse_fs.c:2102-2115 | the table is the walk's map and degraded iff the walk did not finish; a finished one is in order iff every anchor fits, and then has every entry's own fields and no other name |
| TableSync.LongDirOutlivesRemoval | src/cli/fuse_fs.c:406-649 | a directory of 255 bytes removed after a rebuild still has a live row |
| TableSync.RebuiltHolds | src/cli/fuse_fs.c:406-440 | after a finished rebuild every entry is found under its path with its own inode, size and time, every directory with size 0 under its path and its anchor, and nothing else is found |
| TableSync.LookUp | src/cli/fuse_fs.c:756-781 | the map's row; a miss rebuilds a stale table once, and a finished rebuild mirrors the walk; absence is claimed only of a table that is not degraded |
| TableRuns.Run | src/cli/fuse_fs.c:351-649 | every run from an empty table is a chain of maps that explains every answer, with any allocation failing |
| AclBlob.SetPermDecode | src/cli/fuse_fs.c:1015-1018 | rewriting a permission field changes that entry's permissions and nothing else |
| AclBlob.DecodeEncode | src/cli/fuse_fs.c:1015-1018 | writing entries out as little-endian 16-, 16- and 32-bit fields behind a header and reading them gives them back |
| AclBlob.EncodeDecode | src/cli/fuse_fs.c:1015-1018 | reading a blob of whole entries and writing them out gives the same bytes |
| AclShape.Validate | src/cli/fuse_fs.c:1022-1063 | accepts iff the header is version 2 and 3 to 128 whole entries follow the tag grammar and the id and permission rules, all by their stored numbers |
| AclEval.FindMask | src/cli/fuse_fs.c:1136-1142 | the first MASK entry's permissions, or 7 |
| AclEval.Eval | src/cli/fuse_fs.c:1123-1178 | without a list the mode triad; on a valid list exactly the declarative access check |
| AclFold.Chmod | src/cli/fuse_fs.c:1499-1536 | the blob becomes the chmod fold, 1 iff it says more than a mode, -1 iff a tag is none of the six or there is no group class |
| AclFold.Create | src/cli/fuse_fs.c:1445-1492 | on a valid list: the create fold, nine mode bits that are its first entry, its group class and its last, and whether it says more than that mode |
| AclFold.SyncMode | src/cli/fuse_fs.c:1543-1573 | on a valid list: the nine low bits are the first entry, the group class and the last entry, and every bit above them is the old mode's |
| AclLaws.FoldsKeepAcl | src/cli/fuse_fs.c:1445-1536 | both folds map valid lists to valid lists with the same tags and ids |
| AclLaws.FoldedBlobValid | src/cli/fuse_fs.c:1445-1536 | a validated blob is still valid after either in-place fold |
| AclLaws.ChmodRoundTrip | src/cli/fuse_fs.c:1499-1573 | syncing the mode after a chmod gives back the nine low bits of the new mode and all other bits of the old |
| AclLaws.AccessMonotone | src/cli/fuse_fs.c:1123-1178 | taking rights out of entries and mask grants nobody anything new |
| AclLaws.CreateNeverWidens | src/cli/fuse_fs.c:1445-1492 | every access under the folded list was granted under the default list |
| AclLaws.CreateIdempotent | src/cli/fuse_fs.c:1445-1492 | folding again with the same or the returned mode changes nothing |
| AclLaws.TrivialAclIsMode | src/cli/fuse_fs.c:1131-1135 | a list without named entries and MASK answers every request as any mode that mirrors it |
| AclLaws.TrivialAfterChmod | src/cli/fuse_fs.c:3422-3426 | a chmod fold that returns 0 may be dropped for the mode, whatever its special bits |
| AclLaws.TrivialAfterCreate | src/cli/fuse_fs.c:1439-1492 | a create fold that returns 0 may be dropped for the mode |
| AclLaws.BoundedByMask | src/cli/fuse_fs.c:1499-1536 | with a MASK, or named entries within the group triad, no grant exceeds the triad of the caller's class |
| AclLaws.ChmodBoundIff | src/cli/fuse_fs.c:1499-1536 | the bound holds iff there is a MASK or no reachable named entry exceeds the group triad |
| AclLaws.MasklessChmodExceeds | src/cli/fuse_fs.c:1022-1063 | a valid list without MASK whose named user keeps rwx after chmod 0 |
| AclExact.CoversEach | src/cli/fuse_fs.c:1123-1178 | a request is granted iff each of read, write and execute it asks for is |
| AclExact.ModeByClass | src/cli/fuse_fs.c:1107-1135 | without a list: the owner by the owner triad, a member of the file's group, primary or supplementary, by the group triad, anybody else by the last |
| AclExact.GroupsDecide | src/cli/fuse_fs.c:1107-1178 | with a list: a caller whom no entry names is judged by the entries of all groups the caller is in, under the mask, and by OTHER iff there is none |
| AclExact.PrimaryDoesNotMatter | src/cli/fuse_fs.c:1107-1115 | which of the caller's groups is the primary one changes no answer |
| AclExact.CreateExact | src/cli/fuse_fs.c:1445-1492 | with a MASK, or with no reachable named entry above the group triad: the folded list grants iff the default list does and the triad of the caller's class covers the request |
| AclExact.CreateExactIff | src/cli/fuse_fs.c:1445-1492 | and for no other valid list is that so for every caller and request |
| AclExact.CreatedMode | src/cli/fuse_fs.c:1445-1492 | the mode that comes back is the default list's mirror cut by the nine bits that went in |
| AclExact.ChmodExact | src/cli/fuse_fs.c:1499-1536 | every valid list after a chmod: owner and others by the new triads; named entries by their old rights, under the group triad if there is a MASK; the owning group likewise, or by the group triad if there is none |
| AclExact.PlainIffThree | src/cli/fuse_fs.c:1499-1536 | a valid list says more than a mode iff it has more than three entries |
| AclExact.ValidIsFolded | src/cli/fuse_fs.c:1445-1536 | neither fold refuses a valid list |
| Traversal.PermCheck | src/cli/fuse_fs.c:1213-1279 | the declarative check of one path; an unreadable row or list is EIO, never a permit |
| Traversal.RootAccess | src/cli/fuse_fs.c:1213-1279 | the root grants user 0 everything and everyone else all but writing |
| Traversal.Traverse | src/cli/fuse_fs.c:1291-1313 | succeeds iff every ancestor shorter than 300 bytes is a directory the caller may search; otherwise the error of the topmost that is not |
| Traversal.PassesIff | src/cli/fuse_fs.c:1291-1313 | an ancestor passes iff it is a directory and the execute bit is granted, by its list if it has one that can be read and by its mode if it has none |
| Ladder.SweepLadder.Tick | src/cli/fuse_fs.c:2920-3006 | a tick starts a pass exactly when the ladder calls for one, and leaves the ladder that `StartsAgainIff` and `MountStartsIff` describe |
| Ladder.Serve | src/cli/fuse_fs.c:2912-3006 | any number of ticks: none starts a pass on a ladder that is switched off; at or under the mark only the first can, on an earlier mount's debt; over the mark one does whenever the tick before it was at or under the mark and started none |
| Ladder.CalmReArms | src/cli/fuse_fs.c:2929-2934 | a tick at or under the mark that starts no pass re-arms the ladder: the next over the mark starts one |
| Ladder.StartsAgainIff | src/cli/fuse_fs.c:2929-3003 | after a pass and any ticks that started none, the next starts one iff it is over the mark and the pass left debt that is owed, the fill is above the pass's exit fill, or a tick in between was at or under the mark |
| Ladder.MountStartsIff | src/cli/fuse_fs.c:2830-2842 | until a mount's first pass, a tick starts one iff the ladder is on and an earlier mount left its window live or the fill is over the mark |
| Ladder.DebtIsEarned | src/cli/fuse_fs.c:2930-3003 | in every run and environment: discharge passes plus debt owed <= fresh passes plus reclaiming passes plus the initial debt |
| Ladder.MountDebtIsEarned | src/cli/fuse_fs.c:2830-2842 | from a mount the inherited window is worth one |
| Ladder.LadderConverges | src/cli/fuse_fs.c:2920-3006 | at most two passes, two more for each rise of the fill and one for each pass that supersedes anything, for any interleaving and any capture outcome |
| Ladder.QuietLadderStops | src/cli/fuse_fs.c:2953-2999 | at most two passes once the fill no longer rises and nothing is superseded, three if only the first event is not quiet |
| Ladder.SilenceLasts | src/cli/fuse_fs.c:2920-3006 | once a tick starts no pass, no later one does until a writer raises the fill |
| Ladder.BoundsAreReached | src/cli/fuse_fs.c:2953-2999 | both quiet bounds are reached |
| Ladder.RiseIsWorthTwo | src/cli/fuse_fs.c:2920-3006 | a run with one rise that starts four passes: the bound for rises is reached |
| Ladder.FreshDebtIsCollected | src/cli/fuse_fs.c:2790-2812 | the debt of a fresh pass is collected by the next tick while the fill is over the mark |
| Ladder.DebtLeftIff | src/cli/fuse_fs.c:2991-3003 | a captured pass leaves unowed debt iff it discharges, reclaims nothing and supersedes something |
| Ladder.DebtLeftStays | src/cli/fuse_fs.c:2991-3003 | such debt never makes the ladder start another pass while the fill does not rise |
| Mkfs.MetadataFits | src/cli/mkfs.c:311-339 | from 64 MiB on and for every fraction 8..256 the metadata leaves a remainder: no underflow |
| Mkfs.ComputeLayout | src/cli/mkfs.c:275-379 | refused iff a device is too small (64 MiB, the second 16 MiB) or leaves no shadow; otherwise the zones in order, ending the volume |
| Mkfs.SingleDevicePartition | src/cli/mkfs.c:363-379 | on one device every block is in exactly one zone |
| Mkfs.RawIsFifth | src/cli/mkfs.c:336-364 | on one device shadow is four times RAW and at most four blocks more |
| Mkfs.TwoDeviceZones | src/cli/mkfs.c:340-379 | no block in two zones, RAW on the first device, shadow exactly the rest of the second |
| Mkfs.AnchorIsLastBlock | src/cli/mkfs.c:778-779 | the anchor is the last block of the device that holds it |
| MkfsBitmap.BitmapCoversIff | src/cli/mkfs.c:311 | a bit for every block iff total mod 32768 is not in 1..7 |
| MkfsBitmap.BitIsShifted | src/cli/mkfs.c:580-604 | block i is the bit of weight 2^(i mod 8) of byte i / 8 |
| MkfsBitmap.SetRange | src/cli/mkfs.c:580-593 | exactly the bits of the range are added |
| MkfsBitmap.ClearRange | src/cli/mkfs.c:599-604 | exactly the bits of the range are removed |
| MkfsBitmap.MarkBitmap | src/cli/mkfs.c:571-617 | the finished bitmap is set exactly on the claimed blocks: superblock, bitmap, the 32 mapper blocks, the two root pages, one device's whole metadata zone, the second device's reserved span and the anchor are set; RAW, shadow and the rest of a two-device metadata zone are clear |
| MkfsBitmap.ReservedOrAllocatable | src/cli/mkfs.c:571-617 | every block is one or the other, except what lies between RAW and the end of the first of two devices |
| Collector.Rehash | tools/invf-sweep.c:1350-1366 | doubling relinks every node in place and every bucket holds exactly its slots again |
| Collector.Insert | tools/invf-sweep.c:1342-1375 | the new slot is indexed with all others; at most one entry per bucket on average if growth succeeds |
| Collector.SweepCollector.Find | tools/invf-sweep.c:1332-1340 | the slot of the name iff there is one: the hash index is a linear search |
| Collector.SweepCollector.Walk | tools/invf-sweep.c:1393-1443 | a kept path has one slot with this inode and size; stops iff a slot array cannot grow, and then nothing changes |
| Collector.SweepCollector.Collect | tools/invf-sweep.c:1393-1443 | a whole walk holds what was delivered up to where it stopped: a path iff something other than a directory was delivered under it and it is non-empty, at most 255 bytes and no internal record's; it stops only out of memory |
| Collector.DeliveredIsLast | tools/invf-sweep.c:1393-1443 | that is, for each path, exactly its last kept delivery |
| ChainSplit.Split | tools/invf-sweep.c:407-453 | the longest run of proven levels that leaves a row for the rest, as the buffers store it |
| ChainSplit.RowsJoin | tools/invf-sweep.c:403-404 | no cut loses or invents a character |
| ChainSplit.RejoinIff | tools/invf-sweep.c:425-453 | the stored segments rejoin to the name iff none reaches 288 bytes; names under 288 bytes always do |
| ChainSplit.Paths | tools/invf-sweep.c:720-725 | the panel's paths are the joins of the leading segments, never clipped |
| ChainSplit.Panel | tools/invf-sweep.c:457-471 | the bottom row spells the whole name iff no row outgrew its buffer |

## Left out

- Concurrency: every operation runs under the daemon's one lock and is modelled as one step.
- WriteHandle.tail: the 64 KiB buffer is a value that methods reassign, so aliasing of the C buffer is not captured.
- WriteStaging.WriteHandle.WriteRange: what it makes of a session that goes back to a sealed child is stated at the engine only (`EngineSession.WriteSession.WriteRange`, `EngineRuns.GoingBackHides`).
- WriteRuns.Run: at most one handle for a name, no failing engine call, no write back to a child that was left, lengths set only in the first child, no commit while a segment but the last is short or a child was leaped over, and committed files without a hole to begin with. Single calls are specified without a handle limit and for failing calls. Truncates beyond 2^48 are in `Daemon.Truncate` only.
- WriteDaemon.Daemon.Commit: the name comes back with a later successful commit or truncate of it; that a table rebuild brings it back as well is not modelled.
- WriteDaemon.Daemon.Read: the io latch and the degraded-table answer in front of a committed read are not modelled.
- EngineCalls.Cut: what a truncate makes of a session with sealed children is an arbitrary file here; `TruncateInLast` and `CutBack` have it at the engine.
- EngineCalls.Publish: what a commit publishes for a session that went back to a sealed child, or that stored segments past its end for want of space, is an arbitrary file.
- EngineRuns.Serve: cuts come before the first child is sealed, because later ones fail (`TruncateInLast`, `CutBack`).
- StoredFile.ReadRange: entries of plain segments; shared batches, containers and the heat and cache bookkeeping of the reader are not modelled. `StoredTree.ReadTree` has child entries.
- EngineSession.WriteSession.Truncate: sessions without a sealed child; `TruncateInLast` and `CutBack` have the others.
- EngineSession.WriteSession.TruncateInLast: both ends in the open last child; a longer file that ends in a later child is not modelled.
- EngineSession.WriteSession.CutBack: the truncate and the commit behind it in one step, for a streaming session that ends in its open child; the blocks it frees are not modelled.
- EngineSession.WriteSession.Current: segments and sealed recipes are readable and storable; device errors, compression, block addresses and frees are not modelled, and neither is the generation check after a rollback.
- EngineSession.WriteSession.Alias: an old file of plain segments that fits one child.
- EngineSession.WriteSession.Publish: a session of one child; `PublishTree` has the others. The row update and the retirement of old blocks are not modelled.
- EngineSession.WriteSession.PublishTree: a streaming session that ends in its open child.
- StagedTable.Table.Upsert: names of at most 255 bytes, as the row buffer truncates longer ones.
- TableSync.LookUp: requires that every anchor fits, because a table with colliding rows is not a map any more (see `TableSync.LongDirOutlivesRemoval`).
- TableSync.RebuiltHolds: requires the same, for the same reason.
- TableRuns.Run: rebuilds from walks in which every anchor fits, and names of at most 255 bytes.
- TableMerge.SortRows: the C library's qsort is an insertion sort here; any sort gives the same rows since the names are distinct.
- AclEval.Eval: says nothing about long blobs that fail validation; they cannot be stored through the daemon.
- AclFold.Create: says nothing about blobs that fail validation beyond leaving the header alone.
- AclFold.SyncMode: says nothing about lists that fail validation.
- Traversal.PermCheck: a stored list is one the daemon validated; what a list damaged on the volume answers is not modelled.
- Traversal.Traverse: lookups are a snapshot, so a row that changes between two lookups of one walk is not captured.
- TableSync.SyncParents: how each allocation goes is a function of the name, so a name that is synced twice in one scan, as below "a//b", gets one answer for both.
- Ladder: times, locking and the sweep's own work; a pass is what it captures, supersedes and frees.
- MkfsBitmap.MarkBitmap: requires the sizes for which the bitmap has a bit for every block; for the others the C loops write past the buffer's bits.
- Collector.Insert: allocation of the bucket node succeeds, as in `Walk`.
- Collector.SweepCollector.Walk: allocation of a bucket node is assumed to succeed; without one the slot would not be indexed. The hash is an arbitrary function, and `hash & mask` is the remainder because table sizes are powers of two.
- ChainSplit.Split: the container predicate is an arbitrary function of the path.
- tmpstore.c, the ARC cache, the B+ tree, delta log, save points, codecs, fsck, import and the plugin host.
- FUSE lifecycle, signals, mount options, progress output and the dashboard.
