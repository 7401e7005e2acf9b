# Nuvora Core, modelled and proved in Dafny

Nuvora Core is a small x86-64 kernel with its host tools. This project models its parts whose correctness spans whole
runs and states their properties over every input and every reachable state. Code that changes state in place is a
class or an array here, with the loops of the source; each such method is proved against a specification function, and
the properties are lemmas about those functions and invariants that every step keeps.

`dafny verify dfyconfig.toml` checks everything.

## The parts

- **Virtual memory** (`PageTables`, `TableSteps`, `RangeWalk`, `AddressSpace`, `AddressSpaceRuns`, `FrameSpace`,
  `TaskHeap`). Physical memory is a map from frames to 512 entries. `Walk` follows the entries as the processor does; the
  invariant keeps the finite tree of private entries and its inverse, so no frame is reached twice. Every operation of
  `kernel/memory64.c` is proved to act on the four-level tables exactly as on a finite map from page to frame and
  permissions, for all address spaces at once, and to conserve frames over any sequence of requests. `FrameSpace` ties
  the bytes at user addresses to bytes in frames; `task_grow` is built on it all.
- **Two-slot snapshots** (`Snapshot`, `StoreProtocol`, `StoreRuns`, `StoreMount`, `Store`, `VolumeCommit`). The disk is
  durable sectors plus unflushed sector writes in order; a crash keeps any subset of them, each sector whole. Writes,
  flushes, failures, crashes and restarts are steps of a state machine. At every point of every run a crash leaves one
  whole snapshot. The checksum is the real CRC-32; no property of it beyond its being a function is used. `VolumeCommit`
  joins the commit with the export before it and the rebase after it: no commit, successful or failed, changes what a
  file shows, and all that a crash can restore are volumes that were saved.
- **Runs of the file system** (`FsVolume`, `VolumeStart`, `VolumeActs`, `VolumeShows`, `VolumeRuns`). From the first start
  on, any sequence of writes, creations, removals, renames, replacements, commits and losses of power, met by any faults
  of the disk: each request does to the tree and the contents what its specification says, and after a restart the
  volume shows what it showed at the last successful commit or at a later one.
- **TCP** (`TcpStream`, `TcpRuns`, `Tcp`, `TcpSessions`, `Wire`, `TcpPackets`). The network loses, duplicates and reorders
  segments. Sequence numbers are 32 bits and wrap; lemmas tie them to unbounded positions in the streams. Whatever is
  called on a connection, and whatever arrives, is a run of its events. Checksums are proved on the bytes that the kernel
  builds (section 1 of RFC 1071, sections 3.1 and 3.4 of RFC 9293).
- **File system tree and files** (`FsTree`, `FsEdits`, `FsStart`, `FileTree`, `PagedFile`, `FileData`). Parent pointers in a
  table of 512 nodes, paths printed and parsed, edits with their rollback; file contents kept lazily in pages over a
  snapshot refine a flat byte array.
- **Export and import of a volume** (`FsStream`, `FsExport`, `VolumeExport`, `FsImport`, `FsRoundTrip`, `VolumeImport`,
  `FullVolume`). The payload, the order in which directories precede their contents, the two-pass import, and that one
  undoes the other.
- **Extent store** (`ExtentCodec`, `ExtentRanges`, `ExtentValidate`, `ExtentPlan`, `ExtentImport`, `ExtentEntries`,
  `ExtentStore`). The offline copy-on-write importer of `scripts/extent_store.py`, on the sector disk of `StoreProtocol`:
  its data writes and its commit are one run of the protocol, and whatever a crash keeps of it, both old roots' files
  read as before and the newest root is the old one or the new one with the imported files in it. `ExtentPlan` says which
  blocks an import takes; on a disk without faults its outcome is the planned one.
- **ELF loading** (`ElfImage`, `ElfChecks`, `ElfLoader`, `ElfMeaning`). Which executables are accepted and the memory they
  prescribe, in the frames behind the page tables of the task, including RELATIVE relocations and read-only data after
  relocation (System V AMD64 psABI, section 4.4).
- **Allocators** (`Bits`, `BuddyIndex`, `PageBuddy`, `PhysicalAllocator`, `HeapArena`, `KernelHeap`, `Slab`,
  `KernelMemory`). The bit-packed index of free blocks over the bitmap, the page allocator with its cursors and shortcut,
  the first-fit heap, the slabs over the page allocator, and `kmalloc` and `kfree` over both.
- **Tasks** (`TaskProtocol`, `TaskRuns`, `Tasks`). Spawning, waiting, ending, stopping and reaping as a protocol.

## Where the code differs from what one might expect

Each of the first five is stated with its exact condition, and an example shows that it occurs.

- `task_grow`: when `vm_map` reports that a page is already mapped, the rollback unmaps that page too. A growth within its
  limits fails that way exactly when the range has a mapped page and the free frames cover the pages before the first such
  page with their missing tables; without a mapped page in the range every failure leaves the mapping as it was
  (`TaskHeap.Task.Grow`; the page is lost in `TaskHeap.LostPage`).
- `vm_map` out of memory: the page map never changes; the free set is unchanged exactly when no empty table prepared
  earlier lay on the path, since the clean-up frees such a table as well (`AddressSpace.PhysicalMemory.Map`; a table is
  lost in `AddressSpace.PreparedTableLost`).
- `store_init`: an unreadable newer snapshot is treated like a damaged one, so the older one is restored without notice.
  Of two whole slots the newer is restored exactly when all its sectors are readable
  (`StoreMount.OlderRestoredOnReadError`; it happens in `StoreMount.OlderRestored`).
- `page_alloc_run`: a count that is a power of two is served as an aligned block only, so it fails although an
  unaligned run of that length is free; other counts fail exactly when there is no run
  (`PhysicalAllocator.Allocator.PageAllocRun`; a run is missed in `PhysicalAllocator.UnalignedRunMissed`).
- `fs_import_stream`: the room for the records is compared with the nodes in use before the volume is emptied, so
  a payload that would fit after clearing can be rejected; it is then rejected untouched
  (`VolumeImport.Volumes.ImportStream`). Its one caller mounts an empty volume at a start, where this cannot matter
  (`VolumeRuns.Start` always mounts); a second import into a full volume would be refused
  (`FullVolume.FullImportRefused`).
- `load_elf`: a relocation may overlap another; the later one wins byte by byte (`ElfMeaning.ImageWords`).

## Model

| member | source | states |
|---|---|---|
| AddressSpace.PhysicalMemory.Create | kernel/memory64.c:110-126 | a new root has an empty page map and takes two frames, which is possible exactly when two are free; otherwise nothing changes; other roots keep their maps |
| AddressSpace.PhysicalMemory.BuildTables | kernel/memory64.c:136-152 | creating the tables on the way to an address adds only those tables; it fails only when no frame is left |
| AddressSpace.PhysicalMemory.FindTable | kernel/memory64.c:136-152 | without creating, the last table is found exactly when the tree holds it |
| AddressSpace.PhysicalMemory.Map | kernel/memory64.c:158-168 | each outcome characterised: invalid request, page already there, out of memory (page map unchanged; the free set unchanged exactly when no empty prepared table was pending on the path), or one new zeroed page; frames counted exactly; other roots unchanged |
| AddressSpace.PhysicalMemory.UndoMap | kernel/memory64.c:158-168 | the clean-up after running out of memory restores the page map, and the free set exactly when the path had no empty table before |
| AddressSpace.PhysicalMemory.Translate | kernel/memory64.c:169-173 | answers from the page map: an address exactly for accessible user pages, with the right frame and offset |
| AddressSpace.PhysicalMemory.ReadOnly | kernel/memory64.c:174-181 | removes write permission of exactly one page of the map; all error cases |
| AddressSpace.PhysicalMemory.Protect | kernel/memory64.c:182-191 | replaces the permissions of exactly one page of the map; all error cases |
| AddressSpace.PhysicalMemory.PageFlags | kernel/memory64.c:192-197 | returns the permissions in the map, or fails exactly for absent pages |
| AddressSpace.PhysicalMemory.Prepare | kernel/memory64.c:198-204 | creates the tables but no page: all page maps unchanged, frames counted exactly |
| AddressSpace.PhysicalMemory.MovePage | kernel/memory64.c:205-212 | moves one entry between two maps with its frame and permissions, freeing the page it replaces; succeeds exactly when the source has the page and the target has the tables; otherwise nothing changes |
| AddressSpace.PhysicalMemory.IsEmpty | kernel/memory64.c:213-218 | a table is empty exactly when none of its 512 entries is present |
| AddressSpace.PhysicalMemory.Visit | kernel/memory64.c:219-240 | the recursive walk over a table applies the operation to exactly the pages of the range below it, frees exactly the private tables that become empty and counts the pages |
| AddressSpace.PhysicalMemory.VisitSlot | kernel/memory64.c:219-240 | the same for one slot, skipping shared supervisor entries |
| AddressSpace.PhysicalMemory.RangeOperation | kernel/memory64.c:241-244 | range validation and its exact effect on the page map; frees exactly what the operation drops |
| AddressSpace.PhysicalMemory.CountRange | kernel/memory64.c:245 | the number of mapped pages in the range, changing nothing |
| AddressSpace.PhysicalMemory.UnmapRange | kernel/memory64.c:246 | the page map without the pages of the range |
| AddressSpace.PhysicalMemory.ClearRange | kernel/memory64.c:247 | zeroes exactly the frames of the range and keeps every page map |
| AddressSpace.PhysicalMemory.ChangeRange | kernel/memory64.c:248-251 | new permissions for exactly the pages of the range |
| AddressSpace.PhysicalMemory.Unmap | kernel/memory64.c:252-273 | the page map without that page; its frame and the tables that become empty are freed; the table of the shared first GiB stays |
| AddressSpace.PhysicalMemory.WalkUser | kernel/memory64.c:274-284 | counts the pages below a table, or frees every private frame below it exactly once |
| AddressSpace.PhysicalMemory.Destroy | kernel/memory64.c:285-289 | frees exactly the frames of the root; all other roots keep their maps |
| AddressSpace.PhysicalMemory.UserRange | kernel/memory64.c:290-305 | true exactly when the range is empty or lies in user memory with every page accessible as asked |
| AddressSpace.PhysicalMemory.PageCount | kernel/memory64.c:306 | the number of pages in the map |
| AddressSpace.PreparedTableLost | kernel/memory64.c:158-204 | an example: a prepared table is freed by a later vm_map() on its path that runs out of memory |
| AddressSpaceRuns.Perform | kernel/memory64.c:110-306 | a request on the four-level tables does to the finite maps of all roots exactly what was asked: it takes effect when the frames and tables for it are there and changes nothing otherwise |
| AddressSpaceRuns.WritableExecutableNeedsJit | kernel/memory64.c:153-191 | over every run, a page that is writable and executable goes back to a request with the JIT flag |
| AddressSpaceRuns.FramesApart | kernel/memory64.c:136-212 | no frame backs two pages, of one root or of two, and none of them is free |
| AddressSpaceRuns.NothingLeaks | kernel/memory64.c:110-126 | no frame is left with a root when there is none: with the same frames under management, the free ones are the same |
| AddressSpaceRuns.PerformAll | kernel/memory64.c:110-306 | every sequence of requests, with handles to the address spaces made so far, is a run in which each step is its own request and takes effect when the frames and tables for it are there; no frame leaks from before the first root to after the last, and without a JIT request no page is ever writable and executable |
| PageTables.TreeIsWalk | kernel/memory64.c:136-152 | what the processor finds by walking the four levels in memory is the finite tree the invariant records |
| TableSteps.PageBits | kernel/memory64.c:153-168 | every page of the tree is present and either a user page or a retained page without access that can neither be written nor executed |
| TableSteps.RollbackRestores | kernel/memory64.c:158-168 | undoing a partly built path gives back the tree exactly |
| RangeWalk.WalkedPages | kernel/memory64.c:219-240 | a walk over all slots of the root changes the page map exactly as the operation on the finite map |
| FrameSpace.BytesApart | kernel/memory64.c:136-173 | two user addresses share a byte of physical memory only if they are the same address of the same root |
| FrameSpace.WriteShows | kernel/usercopy.c:15-24 | bytes written through a page's frame appear at that page's addresses and at no other address of any root |
| FrameSpace.CopyToSpace | kernel/usercopy.c:12-26 | the source appears at its addresses, in frames reached through the page tables, and nothing else changes in any root; it succeeds exactly when all pages are mapped and accessible |
| FrameSpace.CopyRepresents | kernel/usercopy.c:12-26 | what the copy does to frames is what the same copy does to the byte map |
| FrameSpace.MapZeroed | kernel/memory64.c:158-168 | a fresh page shows zeros at its addresses and no address of any root changes otherwise; each outcome is decided by the request, the page map and the free frames |
| TaskHeap.Task.Rollback | kernel/task.c:307-311 | the rollback undoes the new pages; it also unmaps the page that was in the way |
| TaskHeap.Task.Grow | kernel/task.c:289-316 | growing or shrinking changes exactly the pages of the range; which of success, EEXIST and ENOMEM a growth within its limits gives is decided by the first mapped page of the range and the frames missing before it; without a mapped page in the range every failure leaves the mapping as it was, and without empty tables also the tables and the free frames |
| TaskHeap.LostPage | kernel/task.c:305-311 | an example: a failed growth unmaps the page that was mapped at the end of the heap |
| StoreRuns.RunInv | kernel/store.c:148-191 | the invariant holds at every point of every run, also with failing writes and flushes and unreadable restarts |
| StoreRuns.CrashAtomicity | kernel/store.c:67-123 | at every point of every run a crash leaves the whole last committed snapshot or the whole one being committed, never a mixture |
| StoreRuns.CommittedSurvives | kernel/store.c:148-191 | once a snapshot is committed, every later start that can read the disk finds it or one sealed after it |
| StoreRuns.ActiveSlotUntouched | kernel/store.c:148-191 | no step but a restart writes into the slot in use |
| StoreRuns.GenerationsDifferByOne | kernel/store.c:99-118 | two valid slots are one generation apart and the later one is tried first, also when the 32-bit generation wraps |
| StoreProtocol.RestoredAfterCrash | kernel/store.c:67-123 | whatever subset of unflushed sectors a crash keeps, the slot that start-up picks holds the committed snapshot, or the candidate whose header was being written |
| StoreProtocol.StepKeeps | kernel/store.c:148-191 | every write, flush, commit, abort and restart keeps the invariant of the two slots |
| StoreProtocol.DataWriteKeeps | kernel/store.c:148-191 | writing file data outside both slots keeps the invariant of the commit protocol |
| StoreMount.MountRestores | kernel/store.c:67-123 | with a readable disk and enough room start-up restores the slot of the protocol |
| StoreMount.MountedIsRestorable | kernel/store.c:67-123 | a restored slot is whole and importable |
| StoreMount.MountedEmpty | kernel/store.c:119-122 | only a volume with two erased headers is taken for an empty one |
| StoreMount.OlderRestoredOnReadError | kernel/store.c:99-118 | of two whole slots the newer is restored exactly when all its sectors are readable; otherwise the older one is, silently |
| StoreMount.ExhaustedDisablesWrites | kernel/store.c:99-122 | running out of room restores nothing, leaves an error that keeps writing off, and is reported only for a whole snapshot; only a blank volume mounts as an empty one |
| StoreMount.OlderRestored | kernel/store.c:76-118 | an example: of two whole snapshots the older is mounted without an error because a sector of the newer cannot be read |
| Store.Writer.Fill | kernel/store.c:136-139 | bytes collect in the sector buffer |
| Store.VolumeState.WritePayload | kernel/store.c:129-147 | the payload written so far lies in the full sectors and the buffer, with its length and checksum; every sector write is a step of the protocol |
| Store.VolumeState.EraseHeader | kernel/store.c:157-161 | the header of the inactive slot is erased and flushed first |
| Store.VolumeState.FinishPayload | kernel/store.c:165-169 | the last sector is padded with zeros and written |
| Store.VolumeState.FlushPayload | kernel/store.c:170-171 | after this flush the whole payload is durable in the inactive slot |
| Store.VolumeState.WriteHeader | kernel/store.c:172-184 | the header goes out last; only a successful flush switches the active slot |
| Store.VolumeState.StoreReadBytes | kernel/store.c:41-54 | returns the bytes of the slot that were asked for, or an error |
| Store.VolumeState.Restore | kernel/store.c:55-66 | accepts a slot exactly when it is readable, its checksum matches and the importer takes it |
| Store.VolumeState.StoreInit | kernel/store.c:67-123 | start-up computes the mount of the model from the disk |
| Store.VolumeState.Restart | kernel/store.c:67-123 | a crash and a start are one restart step of the protocol |
| Store.VolumeState.SealPayload | kernel/store.c:148-171 | before the header is written, the other slot is erased, holds the whole exported payload, and all file data written before is durable |
| Store.VolumeState.SyncOne | kernel/store.c:148-191 | a commit is a run of the protocol: on a reliable disk it succeeds exactly when the export did and fits; on success the exported payload is committed under the next generation, on failure the active slot is as before; at every point of it nothing else than the old or the new snapshot can be restored, the new one only when all earlier file data is durable, and no header goes out for an export that failed or does not fit |
| Store.VolumeState.WriteData | scripts/extent_store.py:170-178 | a write of file data, failing or not, is a step of the protocol |
| Snapshot.CrcMoreAppend | kernel/store.c:23-31 | the checksum can be computed piece by piece |
| Snapshot.HeaderReads | kernel/store.c:32-40 | the header that is written reads back as the generation, length and checksum it was made from, and is valid |
| VolumeCommit.FileKept | kernel/store.c:148-191 | a file shows the same on two disks that hold the payload it lies in |
| VolumeCommit.CommitVolume | kernel/store.c:148-191 | a commit, successful or failed at any operation, changes the contents of no file |
| VolumeCommit.RebaseVolume | kernel/fs.c:1166-1175 | exactly the exported files point into the new slot, and every file shows what it showed |
| VolumeCommit.SyncVolume | kernel/store.c:148-191 | export, commit and rebase together: whatever fails, every file shows what it showed and files with bytes on the disk point at the active slot; what a crash may restore besides the old payload is exactly the volume as it is; on a reliable disk the commit succeeds exactly when the volume fits |
| VolumeCommit.SyncCrash | kernel/store.c:148-191 | wherever a crash cuts a commit, start-up finds the payload from before or the new one |
| VolumeCommit.CommittedComesBack | kernel/store.c:67-191 | a committed volume comes back after a crash with the same kinds, paths and contents, or the volume of the commit that the crash cut does |
| VolumeCommit.SyncOnlyVolumes | kernel/store.c:148-191 | every point of a commit has only saved volumes in its slots, if there was nothing else before |
| VolumeCommit.StartOnlyVolumes | kernel/store.c:67-123 | a start, whatever it can read, adds nothing to what the slots hold |
| VolumeCommit.CrashFindsVolume | kernel/store.c:67-191 | after any number of commits, failures, crashes and starts, what a crash leaves is nothing or a whole saved volume, and the importer rebuilds exactly that volume |
| VolumeRuns.WriteNode | kernel/fs.c:526-646 | a write through a path changes the contents of that one file, or of none; with a readable disk and memory for its pages it succeeds |
| VolumeRuns.MakeNode | kernel/fs.c:190-206 | creating a path adds one node without contents, exactly when it is allowed |
| VolumeRuns.DeleteNode | kernel/fs.c:746-761 | removing a path removes one node and its contents, exactly when it is allowed |
| VolumeRuns.RenameNode | kernel/fs.c:825-868 | a move changes the tree as allowed and the contents of no node |
| VolumeRuns.ReplaceNode | kernel/fs.c:869-906 | a replacement drops the contents of the replaced file and of no other |
| VolumeRuns.CommitHome | kernel/store.c:148-191 | after a commit a crash can bring back what the volume shows, and after a successful one nothing else |
| VolumeRuns.Start | kernel/store.c:67-123 | after a loss of power at any moment a start always mounts, and the volume shows something that the disk could hold |
| VolumeRuns.Perform | kernel/fs.c:190-1175 | every request, met by any fault, acts on the tree and the contents as its specification says |
| VolumeRuns.PerformAll | kernel/fs.c:190-1175 | every sequence of writes, creations, removals, renames, replacements, commits and losses of power from a start on is a run of its own requests, and the nodes show what its last state says |
| VolumeShows.WriteShows | kernel/fs.c:526-646 | a write replaces the contents of one record of the volume |
| VolumeShows.MakeShows | kernel/fs.c:190-206 | a creation adds one record with a path that was not there |
| VolumeShows.DeleteShows | kernel/fs.c:746-761 | a removal takes exactly the record of that path |
| VolumeShows.RenameShows | kernel/fs.c:825-868 | a move changes the path of every record at or below the old path, and of no other |
| VolumeShows.ReplaceShows | kernel/fs.c:869-906 | a replacement leaves one record at the new path, with the contents of the source |
| VolumeShows.RestartShows | kernel/store.c:67-191 | over every run: what a restart after a successful commit shows is what the volume showed at that commit or at a later one |
| VolumeStart.RestoredFirst | kernel/store.c:99-118 | the slot that a start restores is the one it tries first |
| VolumeStart.Reboot | kernel/store.c:67-123 | a crash and a start with a readable disk: what is mounted is what the protocol finds; it is mounted when the importer takes it, and only that can come back afterwards |
| VolumeStart.ImportMounted | kernel/store.c:55-66 | mounting rebuilds the volume from the active slot, at the length its header gives |
| VolumeStart.RestoreVolume | kernel/store.c:55-66 | after a start the nodes show exactly the records of the mounted payload, every other node is as before, and all that the next commit requires holds |
| FsVolume.MovedInner | kernel/fs.c:825-868 | a move inside a volume, or outside all of them, takes no node into it or out of it |
| FsVolume.RenamedInner | kernel/fs.c:835-847 | whatever fs_move() allows leaves the set of nodes of the volume as it is |
| FsVolume.ReplacedInner | kernel/fs.c:881-905 | whatever fs_replace() allows takes from the volume only the file that was replaced |
| TcpRuns.InputReceives | kernel/net.c:357-398 | an honest segment extends what was received by exactly the missing bytes that fit the window; end of file only with the last byte |
| TcpRuns.TakeAckExact | kernel/net.c:370-380 | an acknowledgment releases exactly the bytes before its position, and nothing when it is not outstanding |
| TcpRuns.InputKeepsSending | kernel/net.c:352-380 | any segment, honest or not, keeps the outgoing bytes matched to their numbers; acknowledgment only advances |
| TcpRuns.RunInv | kernel/net.c:330-422 | both halves hold at every point of every run under loss, duplication and reordering |
| TcpRuns.DeliversPrefix | kernel/net.c:330-399 | what was delivered and buffered is a prefix of the peer's stream, the buffer is bounded, end of file only at the true end |
| TcpRuns.RunAdvances | kernel/net.c:370-380 | delivered and acknowledged data never go back |
| TcpRuns.WireCarriesStream | kernel/net.c:400-422 | every transmission and retransmission carries the application's bytes for its sequence numbers |
| TcpRuns.HandshakeOpens | kernel/net.c:340-351 | whatever arrives, the endpoint stays closed until a segment acknowledges its SYN; the first that does opens it with the numbers of that segment, or breaks off |
| TcpRuns.StepKeeps | kernel/net.c:330-422 | every arrival, read, write, retry, delayed retry, acknowledgment and close keeps both halves |
| TcpSessions.Session.constructor | kernel/net.c:340-351 | the segment that acknowledges the SYN opens a run at its start |
| TcpSessions.Session.Arrives | kernel/net.c:330-399 | an arriving segment is the next event of the run, with its acknowledgment if one went out |
| TcpSessions.Session.Retry | kernel/net.c:400-422 | the timer is an event of the run: a retransmission, a delay, the end after the last attempt, or an acknowledgment |
| TcpSessions.Session.Recv | kernel/net.c:634-645 | what the application gets continues what it got before, and all of it is a prefix of the peer's stream; end of file only when it is the whole stream |
| TcpSessions.Session.Send | kernel/net.c:646-655 | sent data goes on the application's stream; an attempt that fails is no event |
| TcpSessions.Session.Close | kernel/net.c:592-599 | closing ends the run with or without a last segment |
| Tcp.Endpoint.TcpInput | kernel/net.c:330-399 | updates the fields as the function on the stream |
| Tcp.Endpoint.ReleaseAcked | kernel/net.c:370-380 | shifts the unacknowledged bytes and their number |
| Tcp.Endpoint.AcceptData | kernel/net.c:381-398 | appends the new bytes that fit |
| Tcp.Endpoint.Accepts | kernel/net.c:357-369 | the window test of section 3.10.7.4 of RFC 9293 |
| Tcp.Endpoint.TcpRetry | kernel/net.c:400-422 | what is due is sent again with the same bytes and numbers, is delayed when the frame has to wait, and is given up after five attempts or without a route; otherwise a pending acknowledgment is tried once a tick; exactly in these cases |
| Tcp.Endpoint.Open | kernel/net.c:600-632 | the SYN takes one sequence number; it is sent, waits, or the connection fails, as the network decides |
| Tcp.Endpoint.Recv | kernel/net.c:634-645 | takes the front of the buffer and reopens the window; end of file, waiting and invalid lengths exactly as the state says |
| Tcp.Endpoint.Send | kernel/net.c:646-655 | queues exactly what was sent, and sends only when everything before is acknowledged; each result exactly as the state and the network say |
| Tcp.Endpoint.Close | kernel/net.c:592-599 | ends with FIN, or RST when bytes are outstanding |
| Tcp.Endpoint.TcpPacket | kernel/net.c:280-311 | sends a segment with the current acknowledgment and window, or nothing when the frame has to wait or cannot go |
| Tcp.Endpoint.TcpAck | kernel/net.c:314-317 | an acknowledgment that could not be sent stays pending |
| Tcp.Endpoint.Usable | kernel/net.c:626-633 | a failed connection is given up and reported once |
| TcpPackets.Receive | kernel/net.c:330-399 | a packet that is whole, well formed and for this connection acts as the segment in it; any other changes nothing |
| TcpPackets.Deliver | kernel/net.c:280-399 | the bytes built for a segment, delivered, act as that segment |
| TcpPackets.BuiltIsForUs | kernel/net.c:280-339 | every built segment, of any length and contents, is accepted by the peer it is for and reads back as it was |
| Wire.TcpBytesValid | kernel/net.c:289-329 | every segment produced passes the validity test for the same addresses, at every length |
| Wire.TcpRoundTrip | kernel/net.c:289-339 | the fields and data of a produced segment are read back |
| Wire.UdpBytesValid | kernel/net.c:246-263 | every datagram produced passes the validity test and its checksum is never zero |
| Wire.HeaderChecksum | kernel/net.c:233-245 | a header with its checksum filled in sums to all ones |
| Wire.FoldResidue | kernel/net.c:77-83 | folding the carries keeps the sum modulo 0xffff |
| Wire.AddWords | kernel/net.c:77-83 | the accumulator holds the sum of the 16-bit words, odd tail padded, and never overflows 32 bits |
| Wire.FoldSum | kernel/net.c:80-82 | folding ends with the 16-bit one's-complement sum |
| Wire.Checksum | kernel/net.c:77-83 | the complement of that sum |
| Wire.TcpChecksumValid | kernel/net.c:318-329 | true exactly for segments whose sum with the pseudo header is all ones |
| Wire.UdpChecksumValid | kernel/net.c:84-94 | true exactly for datagrams without checksum or with the right one |
| Wire.BuildTcp | kernel/net.c:289-307 | writes exactly the bytes of the segment |
| Wire.BuildUdp | kernel/net.c:246-263 | writes exactly the bytes of the datagram |
| VolumeExport.SameSum | kernel/fs.c:1050-1092 | counting by slot and writing by depth gives the same number of records and bytes |
| VolumeExport.Measure | kernel/fs.c:1050-1064 | the number of records, bytes and levels; no space exactly when there is something to write and it does not fit |
| VolumeExport.WriteRecord | kernel/fs.c:1077-1089 | one record: header, path and contents |
| VolumeExport.WriteDepth | kernel/fs.c:1070-1090 | one level of the volume, with the recorded offsets |
| VolumeExport.WriteData | kernel/fs.c:1083-1088 | the contents are read through file_copy() and written page by page, completely |
| VolumeExport.ExportStream | kernel/fs.c:1045-1093 | writes exactly the payload of the volume's records, their contents read through file_copy(), parents before children, and where each node's contents lie; the length it announced is the length it wrote |
| VolumeImport.Volumes.NodeCount | kernel/fs.c:250-256 | the number of live nodes |
| VolumeImport.Volumes.ClearVolume | kernel/fs.c:948-963 | the volume is empty and every other node is as it was |
| VolumeImport.Volumes.ClearPass | kernel/fs.c:951-962 | each pass removes at least the deepest level |
| VolumeImport.GoodComponents | kernel/fs.c:1115-1123 | accepts exactly the paths whose components are valid names |
| VolumeImport.CheckEntries | kernel/fs.c:1137-1157 | the first pass accepts exactly the payloads that the model reads, and touches nothing |
| VolumeImport.Volumes.BuildEntries | kernel/fs.c:1140-1157 | the second pass builds the model's node table record by record |
| VolumeImport.Volumes.AddEntry | kernel/fs.c:1146-1152 | one record becomes one node with its backing, or nothing changes |
| VolumeImport.StreamEntry | kernel/fs.c:1095-1126 | reads from the slot exactly what the model reads, with all rejections |
| VolumeImport.Volumes.ImportStream | kernel/fs.c:1128-1164 | the volume is cleared exactly when every record passed the first pass; before that nothing is touched, after it a failure leaves the volume empty and the rest as it was, and success gives exactly the payload's entries, backed by the slot; with a readable disk the outcome is decided by the payload and the nodes in use |
| FullVolume.FullHome | kernel/fs.c:1128-1164 | after any start, a snapshot with as many files as there are nodes left is restored |
| FullVolume.FullImportRefused | kernel/fs.c:1128-1134 | an example: after a start and with /home restored from a snapshot that fills the node table, an import of one file is refused although it would empty /home first |
| FsRoundTrip.ImportedEntries | kernel/fs.c:1137-1157 | after success the volume holds exactly the kinds, paths and contents of the payload and the rest of the tree is as it was |
| FsRoundTrip.ExportImport | kernel/fs.c:1045-1164 | importing an export into an empty volume of the same path rebuilds the same set of kind, path and contents |
| FsRoundTrip.ExportedData | kernel/fs.c:1078-1089 | the contents of each node lie in the payload at the offset that was recorded for it |
| FsImport.RecordParent | kernel/fs.c:1143-1147 | the directory a record is created in lies in the volume and its path goes on by the name |
| FsImport.BuildExact | kernel/fs.c:1137-1157 | the second pass succeeds exactly when every record lies in the root of the volume or in an earlier directory and no path is repeated |
| FsImport.BuildKeeps | kernel/fs.c:1140-1155 | after any number of records the old nodes are as before and each record has its node |
| FsExport.RecordGood | kernel/fs.c:1070-1089 | every node of a volume gives a record that the reader accepts |
| FsExport.PartlyNext | kernel/fs.c:1069-1090 | taking the nodes by depth and slot emits each once and parents first |
| FsExport.PartlyEnd | kernel/fs.c:1069-1090 | after the deepest level the order holds every node of the volume exactly once, parents first |
| FsStream.PayloadRoundTrip | kernel/fs.c:1045-1126 | the records of a volume are read back unchanged from the payload written for them |
| FsTree.LookupPath | kernel/fs.c:106-150 | looking up the printed path of any live node finds that node, from any current directory |
| FsTree.PathsDiffer | kernel/fs.c:762-781 | different live nodes have different paths |
| FsTree.WalkPath | kernel/fs.c:106-150 | walking the path of a node and then more is walking the rest from that node |
| FsEdits.CreatedPaths | kernel/fs.c:190-206 | a new node has its parent's path and its name; no other path changes |
| FsEdits.CreatedOk | kernel/fs.c:190-206 | creating keeps the tree acyclic, sibling names unique and paths within the bound |
| FsEdits.RemovedPaths | kernel/fs.c:746-761 | removing a leaf keeps the tree well formed and all other paths |
| FsEdits.MovedPath | kernel/fs.c:825-868 | a move changes exactly the paths of the subtree, by their prefix |
| FsEdits.MovedOk | kernel/fs.c:825-868 | a move whose new paths all fit keeps the tree well formed |
| FileTree.Table.constructor | kernel/fs.c:207-296 | the tree of a start, node by node: the fixed directories and files, the programs of the archive and the roots of the volumes, well formed and with nothing unlocked above a locked node |
| FileTree.Table.FsPath | kernel/fs.c:762-781 | prints the path of the model, or fails exactly when it is too long |
| FileTree.Table.Descendant | kernel/fs.c:804-813 | true exactly when climbing meets the other node |
| FileTree.Table.FindChild | kernel/fs.c:85-90 | the lowest node of that name and parent |
| FileTree.Table.FindVolume | kernel/fs.c:814-818 | the first volume whose root is above the node |
| FileTree.Table.NextName | kernel/fs.c:131-137 | the next component, if it fits |
| FileTree.Table.Follow | kernel/fs.c:126-147 | the loop of the lookup computes the walk of the model |
| FileTree.Table.FsLookup | kernel/fs.c:106-150 | every result and error of a lookup, including drive letters and trailing slashes |
| FileTree.LookupLive | kernel/fs.c:106-150 | a path is never resolved to an unused slot, even from a stale directory |
| FileTree.Table.ParentFor | kernel/fs.c:151-171 | splits a path into directory and name, with all error cases |
| FileTree.Table.MakeNode | kernel/fs.c:91-105 | the lowest free slot |
| FileTree.Table.CreateNode | kernel/fs.c:190-206 | succeeds exactly when allowed and then adds exactly that node; otherwise nothing changes; keeps the invariant |
| FileTree.Table.FsRemove | kernel/fs.c:746-761 | succeeds exactly for an unlocked, unused leaf and then removes exactly it |
| FileTree.Table.FsMove | kernel/fs.c:825-868 | succeeds exactly when allowed; a move whose paths do not fit leaves exactly the old tree; keeps the invariant |
| FileTree.Table.MoveTo | kernel/fs.c:851-865 | moves, or restores the old tree when a path of the subtree is too long |
| FileTree.Table.FsReplace | kernel/fs.c:869-906 | succeeds exactly when allowed; the replaced file is gone and the source has its path; keeps the invariant |
| FileTree.ReplaceKeeps | kernel/fs.c:869-906 | replacing keeps the tree well formed and the volumes mounted |
| FsStart.StartLaid | kernel/fs.c:207-296 | every node of a start goes into an existing directory under a name that is new there |
| PagedFile.WrittenOverlays | kernel/fs.c:526-646 | changing pages at the written positions is overlaying the bytes on a flat array and zero-filling the gap |
| PagedFile.HoleBytes | kernel/fs.c:580-593 | a hole that is filled shows the same bytes as before |
| FileData.RebasedBytes | kernel/fs.c:1166-1175 | a file without pages backed by its own exported bytes has the same contents |
| FileData.File.FileCopy | kernel/fs.c:57-84 | copies out exactly the bytes of the contents, from pages, snapshot or zeros |
| FileData.File.PagePart | kernel/fs.c:66-82 | one turn: the bytes up to the end of a page |
| FileData.File.Prepare | kernel/fs.c:576-597 | all pages of a write are made with the bytes they showed, or none; memory runs out exactly when fewer frames are left than pages are missing |
| FileData.File.RollBack | kernel/fs.c:615-622 | frees exactly the pages of this call and leaves the others |
| FileData.File.CopyIn | kernel/fs.c:604-610 | the bytes land at their offset across pages |
| FileData.File.WritePages | kernel/fs.c:562-623 | a write overlays the contents, or fails and changes nothing |
| FileData.File.WriteData | kernel/fs.c:624-646 | the same for embedded contents |
| FileData.File.GrowData | kernel/fs.c:624-639 | the larger buffer keeps the contents |
| FileData.File.FsWrite | kernel/fs.c:546-646 | a write at any offset makes the contents the overlay with zero-filled gap; on no memory, no space or a read error they are unchanged; with a readable disk it fails for memory exactly when the pages that are not there yet, or the table, do not fit |
| FileData.File.Truncate | kernel/fs.c:46-56 | released files are empty |
| FileData.File.Unmark | kernel/fs.c:598-599 | the marks go and no byte changes |
| FileData.File.PageTable | kernel/fs.c:563-574 | a larger page table shows the same bytes |
| FileData.File.Stored | kernel/fs.c:57-84 | an imported file shows its part of the payload in its slot |
| FileData.File.Rebase | kernel/fs.c:1166-1175 | the file points to its bytes in the new slot and has the same contents |
| ExtentStore.ReadRoots | scripts/extent_store.py:103-125 | reads both slots: the good roots, the newest last, or an error exactly when there is none and the volume is not blank |
| ExtentStore.NewestRoot | scripts/extent_store.py:103-125 | after any run and crash the newest root is the one that the protocol restores; there is one unless both headers are blank |
| ExtentStore.Open | scripts/extent_store.py:204-208 | opening a disk at rest is a restart of the protocol |
| ExtentStore.CheckSources | scripts/extent_store.py:213-229 | accepts exactly the requests with good, different names, for new files or with replacement for old ones, that fit the table |
| ExtentStore.CopySources | scripts/extent_store.py:230-238 | all sources are copied and the entry list with them stays valid; the blocks taken are those that the plan gives; on a reliable disk that happens exactly when as many blocks are free as the data touches |
| ExtentStore.Commit | scripts/extent_store.py:187-201 | commits the encoded list through the protocol, the file data being durable before the header; on a reliable disk it succeeds exactly when the list fits |
| ExtentStore.DataSafe | scripts/extent_store.py:230-238 | a crash while the sources are copied leaves both roots whole and the old one newest |
| ExtentStore.CommitSafe | scripts/extent_store.py:187-239 | a crash while the new root is written leaves both old roots whole, and the newest root is the old or the new one, with every imported file in it |
| ExtentStore.ImportExtents | scripts/extent_store.py:204-239 | whatever fails and wherever a crash cuts the import, every file of both old roots reads as before and the newest root is the old or the new one; refused requests write nothing; on a reliable disk the outcome and the committed list are those that the requests, the old list and the free blocks determine; success makes the sources readable under their paths |
| ExtentStore.PlanFits | scripts/extent_store.py:156-184 | all sources have a plan exactly when as many blocks are free as their data touches |
| ExtentStore.PlanWhenRoom | scripts/extent_store.py:204-239 | an import has a plan exactly when the blocks that no root uses are as many as the data touches |
| ExtentPlan.SourceFits | scripts/extent_store.py:156-184 | one source has a plan exactly when as many blocks are free as its data touches |
| ExtentPlan.RoomCovered | scripts/extent_store.py:128-134 | the room of a list of free ranges is the number of blocks it covers |
| ExtentEntries.KeyIsGood | scripts/extent_store.py:43-60 | the path of an imported file is a valid path in the home directory |
| ExtentEntries.RenewedPlaces | scripts/extent_store.py:230-238 | replaced entries keep their places and new ones follow |
| ExtentEntries.RenewedIs | scripts/extent_store.py:230-238 | the new list holds, by path, the imported files and the old entries of all other paths |
| ExtentEntries.PutValid | scripts/extent_store.py:43-67 | an imported file in blocks of its own keeps the list valid, so that validate() in commit() accepts it |
| ExtentEntries.AllRangesApart | scripts/extent_store.py:64-67 | all extents are disjoint exactly when they are so within and between the entries |
| ExtentImport.Region.TakeRun | scripts/extent_store.py:164-168 | takes the start of the first free range; it fails exactly when no block is free |
| ExtentImport.Region.WriteBlock | scripts/extent_store.py:170-178 | the sectors of a block, each write a step of the protocol, reach the block and no other |
| ExtentImport.Region.CopyRun | scripts/extent_store.py:170-178 | copies the source blocks, padding the last one with zeros |
| ExtentImport.Region.NextRun | scripts/extent_store.py:163-182 | one turn: a free run is taken and filled |
| ExtentImport.Region.WriteSource | scripts/extent_store.py:156-184 | the extents are those of the plan: in order, disjoint, inside the file and in newly taken blocks, and they read back as the source with holes as zeros; only free blocks are written; on a reliable disk it is done or full exactly as the plan says |
| ExtentImport.TidyMore | scripts/extent_store.py:179-181 | a run added to the extents, merged or not, keeps them disjoint and in the blocks taken |
| ExtentImport.Region.CopyRange | scripts/extent_store.py:159-182 | one range of data: the runs that are taken for it and filled are those of the plan |
| ExtentRanges.CheckIsApart | scripts/extent_store.py:64-67 | comparing neighbours after sorting decides whether all ranges are disjoint |
| ExtentRanges.FreeRanges | scripts/extent_store.py:128-134 | the blocks of the result are exactly those of the region that no used range covers, in order, as the recursive definition gives them |
| ExtentValidate.Validate | scripts/extent_store.py:43-67 | accepts exactly the lists with parents before children, unique valid paths and pairwise disjoint extents in bounds |
| ExtentValidate.Decode | scripts/extent_store.py:70-91 | accepts exactly the payloads of valid lists |
| ExtentValidate.ValidRoundTrip | scripts/extent_store.py:43-100 | every valid list is decoded from its encoding |
| ExtentCodec.DecodeEncode | scripts/extent_store.py:70-100 | decoding an encoded list gives it back |
| ExtentCodec.EncodeDecode | scripts/extent_store.py:70-100 | encoding a decoded payload gives it back byte for byte |
| ExtentCodec.EncodeAll | scripts/extent_store.py:94-100 | the loop writes exactly the encoding |
| ExtentCodec.DecodeAll | scripts/extent_store.py:70-89 | the loop reads exactly what the function reads, with all rejections |
| ElfLoader.Space.CopyTo | kernel/usercopy.c:12-26 | writes all bytes, in the frames behind the pages, exactly when every page of the range is mapped; other address spaces show what they did |
| ElfLoader.MapSegment | kernel/elf_loader.h:151-158 | maps exactly the pages of the segment, zeroed, with its permissions; it runs out of memory only with fewer than four free frames for each page |
| ElfLoader.LoadSegments | kernel/elf_loader.h:149-161 | after success each page of each segment holds the file bytes and zeros; a page in the way was there before; memory runs out only with fewer than four free frames for each page |
| ElfLoader.Relocate | kernel/elf_loader.h:162-166 | the relocations apply in order and never fail |
| ElfLoader.ProtectRelro | kernel/elf_loader.h:167-172 | exactly the whole pages of RELRO ranges become read-only |
| ElfLoader.LoadElf | kernel/elf_loader.h:90-175 | a file that is not accepted changes nothing; an accepted one is loaded as prescribed, unless a page was in the way or fewer than four frames were free for each page; what was mapped before stays, and every other address space shows what it did |
| ElfLoader.Space.Map | kernel/memory64.c:158-168 | one more zeroed page with its permissions, through the page tables; memory runs out exactly when the frames do not make the page and its missing tables; other address spaces show what they did |
| ElfLoader.Space.ReadOnly | kernel/memory64.c:174-181 | exactly the write permission of one page goes, and no byte of any address space changes |
| ElfMeaning.ImagePermissions | kernel/elf_loader.h:148-175 | no loaded page is writable and executable, and whole RELRO pages end read-only |
| ElfMeaning.ImageBytes | kernel/elf_loader.h:148-175 | an address no relocation covers holds the file byte, or zero up to the size in memory |
| ElfMeaning.ImageWords | kernel/elf_loader.h:162-166 | elsewhere the last relocation that covers an address decides its byte |
| ElfChecks.FindSegment | kernel/elf_loader.h:25-34 | the first segment that holds the range, if any |
| ElfChecks.CheckSegments | kernel/elf_loader.h:108-142 | accepts exactly valid segment lists with an executable entry, and tells the ABI |
| ElfChecks.CheckRelro | kernel/elf_loader.h:145-147 | every RELRO range lies in one writable segment |
| ElfChecks.ScanTable | kernel/elf_loader.h:53-73 | accepts exactly dynamic tables with known, unrepeated entries and a terminator, and reads their values |
| ElfChecks.CheckTable | kernel/elf_loader.h:73-88 | accepts exactly consistent tables whose every relocation is allowed |
| ElfChecks.ElfRelocations | kernel/elf_loader.h:40-89 | the relocations of the only dynamic segment, or rejection exactly when there are none to accept |
| ElfImage.PagesApart | kernel/elf_loader.h:133-139 | accepted segments occupy disjoint pages |
| ElfImage.SegmentPlace | kernel/elf_loader.h:117-127 | an accepted segment lies in user memory, takes its bytes from inside the file and is not writable and executable |
| ElfImage.FileFits | kernel/elf_loader.h:35-39 | what an address range takes from the file is in the file |
| ElfImage.RelaPlace | kernel/elf_loader.h:80-86 | a relocated word lies in a writable segment that is not executable |
| ElfImage.Word64Number | kernel/elf_loader.h:162-166 | the eight bytes written for a relocation read back as its value |
| PhysicalAllocator.Allocator.Commit | kernel/memory.c:126-136 | marks exactly the pages busy and handed out, and keeps count and index exact |
| PhysicalAllocator.Allocator.PageAlloc | kernel/memory.c:166-201 | a free page not handed out before, failing exactly when no page is free, despite the two cursors and the depleted shortcut |
| PhysicalAllocator.Allocator.Search | kernel/memory.c:170-184 | finds a free page whenever there is one |
| PhysicalAllocator.Allocator.SearchNormal | kernel/memory.c:171-176 | finds a normal page whenever there is one; otherwise they are depleted |
| PhysicalAllocator.Allocator.PageAllocBelow | kernel/memory.c:137-165 | a free page below the limit, failing exactly when there is none |
| PhysicalAllocator.Allocator.PageAllocOrder | kernel/memory.c:202-209 | an aligned block, failing exactly when no aligned block is free |
| PhysicalAllocator.Allocator.PageAllocRun | kernel/memory.c:210-239 | a run of free pages; for a power of two it fails although an unaligned run is free, otherwise exactly when none is |
| PhysicalAllocator.Allocator.ScanRun | kernel/memory.c:216-238 | the first-fit scan finds the lowest run |
| PhysicalAllocator.Allocator.PageAllocRunBelow | kernel/memory.c:240-268 | the lowest run below the limit, failing exactly when there is none |
| PhysicalAllocator.Allocator.PageFree | kernel/memory.c:275-284 | the page is free again, exactly once; a page that is not handed out is refused, where the kernel panics |
| PhysicalAllocator.Allocator.PagePin | kernel/memory.c:269-274 | a pinned page stays busy and can no longer be freed |
| PhysicalAllocator.Allocator.FindPage | kernel/memory.c:170-180 | the lowest free page between two bounds |
| PhysicalAllocator.Allocator.FindBlock | kernel/memory.c:205-207 | an aligned free block above or below the first 4 GiB, whenever there is one |
| PhysicalAllocator.UnalignedRunMissed | kernel/memory.c:210-215 | an example: pages 5 and 6 are free and a run of two is refused |
| PageBuddy.Index.constructor | common/page_buddy.c:25-41 | every level bit is set exactly when its aligned block is free |
| PageBuddy.Index.FreeBlock | common/page_buddy.c:4-10 | a bit answers whether the block is free |
| PageBuddy.Index.SetBlock | common/page_buddy.c:11-17 | changes one bit and no other |
| PageBuddy.Index.RefreshOrder | common/page_buddy.c:42-56 | one level agrees with the bitmap again |
| PageBuddy.Index.Refresh | common/page_buddy.c:42-56 | after refreshing the changed range all levels agree with the bitmap again |
| PageBuddy.Index.ScanPages | common/page_buddy.c:64-71 | the masked word scan finds the lowest free page |
| PageBuddy.Index.ScanLevels | common/page_buddy.c:72-83 | the masked byte scan finds the lowest free block |
| PageBuddy.Index.Find | common/page_buddy.c:57-85 | the lowest aligned free block inside the bounds, or the failure value exactly when there is none |
| PageBuddy.FoundMeans | common/page_buddy.c:57-85 | which is a run of free pages |
| BuddyIndex.HalvedStart | common/page_buddy.c:25-41 | block numbers of a level and pages correspond |
| Bits.LowestFrom | common/page_buddy.c:57-85 | the scan for the lowest set bit |
| HeapArena.ObjectsDisjoint | kernel/memory.c:306-342 | live objects never overlap |
| HeapArena.TakenObjects | kernel/memory.c:306-342 | an allocation adds one object and keeps the others |
| HeapArena.FreedObjects | kernel/memory.c:353-377 | freeing removes that object only |
| HeapArena.TakenTiled | kernel/memory.c:306-342 | blocks still tile the arena with no two free neighbours, and the sum of live sizes is exact |
| HeapArena.FreedTiled | kernel/memory.c:343-377 | the same after freeing and merging on both sides |
| HeapArena.AllFreed | kernel/memory.c:343-377 | with nothing live there is one free block |
| KernelHeap.Heap.FindFit | kernel/memory.c:319-323 | the first free block that fits |
| KernelHeap.Heap.Merge | kernel/memory.c:343-352 | merges with the free block after it |
| KernelHeap.Heap.Kmalloc | kernel/memory.c:318-341 | the heap part of kmalloc: an aligned object inside the arena that overlaps no live one, or none exactly when no block fits; used bytes exact |
| KernelHeap.Heap.Kfree | kernel/memory.c:366-376 | the heap part of kfree: exactly that object goes, used bytes exact; a pointer that is no live object is refused, where the kernel panics |
| Slab.ObjectsApart | common/slab.c:21-48 | objects of the pool never overlap |
| Slab.EmptyPool | common/slab.c:50-74 | a pool without live objects has no pages |
| Slab.SlabPool.FindSlot | common/slab.c:38-41 | the lowest free slot of a page |
| Slab.SlabPool.SlabAlloc | common/slab.c:21-48 | a slot of the smallest fitting size class that was not in use; no other object changes; it fails exactly for sizes out of range, or when every page of the class is full and no frame is free; a new page comes from the page allocator only when the class is full |
| Slab.SlabPool.SlabFree | common/slab.c:50-74 | frees exactly that object, gives a page that becomes empty back to the page allocator, and refuses addresses that are no live object |
| Slab.SlabPool.GiveBack | common/slab.c:62-72 | an empty page leaves its list, the list stays well linked, and its frame is free again |
| KernelMemory.Memory.Kmalloc | kernel/memory.c:306-342 | an object from a slab page when one serves the size, else from the heap, none exactly when neither does; it joins the live objects and used bytes grow by its size; frames move between the free ones and the slab pages only |
| KernelMemory.Memory.Kfree | kernel/memory.c:353-377 | exactly the live object at the address goes, whichever allocator it is in, and used bytes shrink by its size; any other address is refused, where the kernel panics |
| KernelMemory.Memory.FreeAll | kernel/memory.c:306-377 | freeing all live objects in any order leaves one free block, no slab page, their frames free again and no byte in use |
| KernelMemory.Memory.AllApart | kernel/memory.c:306-377 | any two live objects are apart, from slabs or heap |
| KernelMemory.Memory.UsedShares | kernel/memory.c:306-377 | the bytes in use are those of the heap and those of the slab objects |
| KernelMemory.UsedIsSum | kernel/memory.c:306-377 | the heap's count is the sum over its live objects |
| TaskProtocol.FinishTasks | kernel/task.c:228-251 | the end of a task, slot by slot: it becomes a zombie, its children are orphaned, a waiting parent gets the status |
| TaskProtocol.OnlyParentWakes | kernel/task.c:228-247 | only the parent is woken |
| TaskProtocol.StepKeeps | kernel/task.c:14-41 | spawn, wait, exit, stop, reap, tick, schedule and session teardown keep the invariant |
| TaskRuns.RunInv | kernel/task.c:14-41 | the invariant holds in every reachable state |
| TaskRuns.NoLostWakeup | kernel/task.c:259-270 | in every reachable state a waiting task has a child of its own that is no zombie and not collected, and whose end wakes it |
| TaskRuns.StatusAtMostOnce | kernel/task.c:228-270 | each exit status is delivered at most once |
| TaskRuns.PidsUnique | kernel/task.c:85-92 | occupied slots have different process numbers |
| TaskRuns.StatusKept | kernel/task.c:25-41 | an uncollected zombie with a living parent is kept with its status |
| TaskRuns.WaitGetsStatus | kernel/task.c:259-270 | waiting for it returns that status |
| Tasks.Table.FindPid | kernel/task.c:14-19 | the lowest occupied slot of that number |
| Tasks.Table.AllocatePid | kernel/task.c:85-92 | a number no occupied slot has; the search ends |
| Tasks.Table.TaskReap | kernel/task.c:25-41 | frees exactly the zombies that are collected or orphaned and not running |
| Tasks.Table.Spawn | kernel/task.c:93-130 | a new task in a free slot with a new number, or nothing changes |
| Tasks.Table.FinishTask | kernel/task.c:228-251 | the table after the end of a task is that of the model |
| Tasks.Table.TaskExit | kernel/task.c:252-258 | the current task ends with its status |
| Tasks.Table.TaskWait | kernel/task.c:259-270 | all three outcomes of a wait |
| Tasks.Table.TaskStop | kernel/task.c:271-279 | who may stop whom, and its effect |
| Tasks.Table.TaskEndSession | kernel/task.c:280-288 | every task but the first and the exception ends, in slot order |
| Tasks.Table.TaskTick | kernel/task.c:193-202 | wakes exactly the sleepers whose time has come |
| Tasks.Table.Schedule | kernel/task.c:203-227 | picks the next ready task in round-robin order, if there is one |

## Left out

Not modelled:

- Device drivers and bus discovery: the disk is read, write and flush of sectors, each of which may fail.
- Desktop, windows, accounts, console, fonts, input and their permission checks on paths and calls.
- Linux compatibility (`NV_ENABLE_COMPAT`): its groups and images; tasks are modelled without them.
- Kernel version-3 extents: `kernel/fs_extent.inc` is not part of this model. The kernel's snapshots are those of
  versions 1 and 2; version 3 appears with its header magic, its format and its commit, as `scripts/extent_store.py` has
  them, and not with the dry run of both slots in `store_init`.
- DHCP, ARP, ping, UDP inboxes and adapter choice: an unresolved neighbour is a send that asks to try again.
- `memory_init`, `memory_reserve` and the page scans used before the buddy index exists.
- TLB invalidation, interrupts and floating-point state, and the zeroing of pages by the page allocator. Supervisor entries are present entries that walks must skip.
- The bytes inside user frames in `AddressSpace`: `FrameSpace` has them as the contents of physical memory beside the
  page tables.
- `fs_open`, `fs_read`, `fs_list`, `fs_stat` and descriptor offsets; the older one-buffer export and import
  (`fs_export_volume`, `fs_import_volume`), which the streaming ones replace.
- Error codes are kept where callers act on them; several that callers treat alike are one value.
- In `scripts/extent_store.py`: `layout` (its result is the condition `LayoutOk`), `import_tree` and the export, host
  files that change while they are copied, and the tests that a source is a regular file and not the image itself.

Stated more narrowly, or in another form than the code:

- AddressSpace.PhysicalMemory.Create: the shared supervisor entries are parameters.
- Store.VolumeState.SyncOne: takes the exported pieces as input; `VolumeCommit.SyncVolume` passes it what `fs_export_stream` writes.
- VolumeCommit.SyncVolume: the export is made before the commit's writes and not between them; it reads the active slot only, which they do not touch.
- TaskHeap.Task.Grow: with an empty table that `vm_prepare` left behind, which tables and frames a failing growth frees is not stated, only the mapping; `vm_map` can free such a table.
- VolumeRuns.PerformAll: one mounted volume, requests by path from the root directory, and starts at which the disk can be read; the programs of the archive are nodes without contents, and nothing keeps a file open between requests.
- VolumeRuns.Start: the importer of the mount is the outcome of `fs_import_stream` as a function of the payload; the import itself follows it.
- TcpRuns.DeliversPrefix: the peer's segments lie within 2^31 of the expected number, as 32-bit comparison needs.
- ExtentImport.Region.CopyRun: copies block by block, not in pieces of 1 MiB, each block as eight sector writes; the host's report of data ranges is a parameter that covers all nonzero bytes.
- ExtentStore.Commit: writes the payload sector by sector as `sync_one` does, not with one call; the order of header, payload and header and the syncs between them are those of the script.
- KernelHeap.Heap.Kfree: a header is recognised by its place in the arena; user bytes that imitate a header are not modelled.
- KernelMemory.Memory.Kfree: the panics on an address without a live object are a result.
- FileData.File.FsWrite: how many pages are left, whether `kmalloc` has room, and which sectors cannot be read are parameters.
- PhysicalAllocator.Allocator.PageFree: the panic on an invalid page is a result.
- FileData.File.Capacity: the power-of-two test by `cap & (cap - 1)` is written as repeated halving, as is the one on `align` and on `count`; `ctz` is a search for the lowest bit.
- Tasks.Table.Spawn: preparing the image and the kernel stack are inputs that say whether they succeeded.
- FileTree.Table.constructor: the numbers of the devices and the contents of the programs are left out; a program named "." or ".." is excluded, and the panics of `fs_unpack` are its precondition.
- TcpSessions.Session.Arrives: a segment that is not honest data of the peer must be one without stream data (SYN, RST or no ACK).
- Bits.LowestFrom: words and bytes are bit-vectors, indexed by natural numbers.
