# CollaboCore, modelled and proved

CollaboCore runs a WebAssembly Linux guest and speaks, by hand, the protocols around it: SQLite's wal-index
without shared memory, a packed virtqueue, dynamic linking replayed in every thread, a TCP proxy, vsock
credit, file trees served from archives, and several codecs. This project models each of these in Dafny and
proves what it is for. `dafny verify dfyconfig.toml` checks all of it.

Each subsystem has a specification (datatypes and functions; for protocols a state machine whose steps any
number of parties may take in any order), proofs about every input or every run, and, where the code works
by changing things, a class or methods with loops proved to do what the specification says. What a specification's
own functions decide (who is granted a lock, which library answers, what replaces what) is stated once more without
them, as laws over masks, raw descriptors, paths or bytes.

| files | models |
|---|---|
| `WalIndex`, `WalIndexProofs`, `WalIndexNode` | the emulation of shared memory (python/patches/sqlite-shm.c) |
| `PackedRing`, `PackedRingProofs`, `PackedQueue` | the packed virtqueue with its driver (engine/src/virtio.rs; section 2.7 of VirtIO 1.1) |
| `Dylink`, `DylinkLookup`, `DylinkProofs`, `DylinkThread` | the dlopen log and its replay (engine/src/dylink.rs) |
| `TcpProxy`, `TcpProxyProofs`, `TcpConnection` | a proxied connection (engine/src/net.rs; sections 3.4 and 3.8.6 of RFC 9293) |
| `Vsock` | stream credit (engine/src/vsock.rs; section 5.10.6.3 of VirtIO 1.1) |
| `ImageTree`, `ImageTreeRules`, `ImageTreeProofs`, `ImageTreeBuild`, `ImageTreeLinks` | archives merged into one tree (engine/src/image_fs.rs) |
| `ZipStore`, `ZipStoreLaws`, `ZipStoreFs` | the in-memory file system (host/zip-store.js) |
| `ByteStrings`, `Zip`, `ZipProofs`, `ZipReader`, `Crc` | stored ZIP archives and CRC-32 (host/zip.js, engine/src/zip.rs) |
| `Cpio` | newc archives, written and parsed (engine/src/protocol.rs, engine/src/image_fs.rs) |
| `Devicetree`, `DevicetreeBlob` | the flattened device tree (engine/src/devicetree.rs) |
| `HttpNumbers`, `HttpFraming`, `HttpFramingProofs`, `HttpReaders`, `HttpLengths`, `HttpStatus`, `HttpClient` | a bridged response, sent, and read in two ways (host/http-protocol.js, python/lib/collabo_core.py) |
| `FuseNodes` | the node table of a shared directory (engine/src/fs.rs) |
| `Glob` | device patterns (engine/src/serial.rs) |

## How the models stand to the code

- **Wal-index.** Words are the unit, as in the code. A lock call is several steps (flush in runs, decide,
  refresh), so other processes act in between; a process's own stores may fall between the runs of its flush.
  SQLite's discipline (shared locks cover one slot, unlocks match locks, READ_LOCK(0) is held exclusive only
  together with CKPT_LOCK, words are stored under the locks the comment at lines 146-155 names) is what a step
  may do; it is not assumed of the result. Reads and writes of the file succeed.
- **Virtqueue.** Positions are counted without bound; index and wrap flag are proved to be their residue and
  parity. A driver may write its id in any descriptor of a chain. The code takes it from the first, where the
  specification puts it in the last: `RightIdExactly` says when that is the same, `SplitIdsMisread` what happens
  otherwise. Linux writes it in all of them. Release may be in any order, not only in order.
- **Dynamic linking.** A function is its provider, a name the program or a library exports. Runs are those in
  which every load that starts growing the table completes. A module may import anything more than once, and
  the program may export a function under several names; what that costs, `TwoSlotsExactly` says.
- **TCP.** The guest's segments are any cuts of one stream within one sequence window of what was accepted,
  repeated and reordered at will, with any acknowledgement number. `NothingLost` and `EndIsTold` are equivalences
  because the code acknowledges data and a FIN that come before the host is connected, and tells the host of
  neither (`EarlyDataIsLost`, `EarlyFinIsLost`). The writer thread is a party of its own: a flush that finds the
  connection finished forgets it and shuts the socket both ways, which may overtake what the writer still has
  (`LastBytesCutOff`); `AllArrives` says when everything arrives.
- **Vsock.** Packets made under the lock may be put on the queue in another order, as two host threads may do;
  a packet's credit and its data are taken up under two locks, with other steps between. That no more is
  outstanding than the guest last advertised is false of a guest that shrinks its buffer (`ShrinkingOverruns`):
  `WithinExactly` says which packet breaks it, `GuestNeverOverrun` is for guests that never shrink it.
- **Image trees.** The flat view (path to file) follows the rules at lines 14-19 of engine/src/image_fs.rs entry
  by entry; the tree of numbered nodes is proved to say the same of every path. The root's own children must be
  directories, none called run.
- **ZipStore.** Node objects are values under the numbers they were made in. A symlink refused for space stays
  in the tree with bytes nobody counts: `Symlink` says exactly when.
- **ZIP.** Byte-string names, seconds. What the layout takes from elsewhere (the checksum, what a DOS time stands
  for, which names are safe) is a parameter of the reader and writer; `SoundRoundTrip` puts in the real checksum
  and the real check of names. The writer takes one entry or one byte more than the reader (`AtTheLimit`).
- **cpio.** Device numbers stay the two halves the header has. A name ending in NUL, or named like the trailer,
  does not come back: `ExactlyPlainNames` says these are all.
- **Device tree.** A reservation of (0, 0) ends the list for a reader, so what is behind it is lost
  (`ReservationsExactly`).
- **HTTP.** int(line, 16) and parseInt(line, 16) are two functions (`HttpNumbers`): signs, spaces, 0x,
  underscores, digits followed by anything, a byte order mark. What Python makes of digits and spaces that are
  not ASCII is a parameter, `fold`. A length that is NaN sends decodeResponse back to byte 0; a negative one
  sends it backwards, and the client round a loop that never ends (`Endless`). So decodeResponse need not end:
  it is modelled for any number of turns of its last loop, and `Decodes` says that it ends and how. The client
  raises where int() refuses the status code, as in `200OK`, which decodeResponse takes. The two readers disagree
  on some responses that no bridge sends; `StatusLinesExactly` and `LengthLinesExactly` say around which lines.
- **Node table.** Lookup counts may saturate (UNLINK forgets the most there can be); counts of children and
  handles never do. Not claimed, as the code does not keep it: that every live node is in `ids`, or that the
  paths of children follow a directory's rename. The order in which DESTROY comes upon the handles is any.

## Model

| member | source | states |
|---|---|---|
| WalIndexProofs.RunRefinesSharedMemory | python/patches/sqlite-shm.c:156-239 | In every run of stores, lock calls and mappings by any number of processes and connections, the word everyone together stands for (its owner's copy, or the file's) is the last value anyone stored there: private copies synced through a file refine one shared memory. |
| WalIndexProofs.StepRefinesSharedMemory | python/patches/sqlite-shm.c:405-460 | One step changes the emulated memory at a store, at that word, to that value, and nowhere else; flushes, grants, releases and refreshes change no word. |
| WalIndexProofs.RunKeepsInv | python/patches/sqlite-shm.c:405-460 | Every reachable state keeps the lock and data invariants, from nodes just opened over a file with any content. |
| WalIndexProofs.InvStep | python/patches/sqlite-shm.c:405-460 | Each step of a call, a store or a mapping keeps them: counts match masks, kernel locks match counts, a dirty word is owned, and what nobody else owns is current after a refresh. |
| WalIndexProofs.InvInit | python/patches/sqlite-shm.c:280-330 | Nodes just opened, with nothing mapped and no locks, satisfy the invariant. |
| WalIndexProofs.AtMostOneOwner | python/patches/sqlite-shm.c:146-160 | No two processes own a wal-index word at the same time. |
| WalIndexProofs.WritersOwn | python/patches/sqlite-shm.c:146-155 | A connection that SQLite lets write a word is in a process that owns it. |
| WalIndexProofs.ReachableLocks | python/patches/sqlite-shm.c:418-457 | In every reachable state each aLock entry is -1 for exactly one exclusive connection, or else the number of connections sharing the slot; a dirty word is owned, and by one process. |
| WalIndexProofs.OwnedWordIsCurrent | python/patches/sqlite-shm.c:156-160 | In every run, a word a connection may write holds in its process the last value anyone stored. |
| WalIndexProofs.AcquiredIsCurrent | python/patches/sqlite-shm.c:432-457 | Right after a lock is obtained, every mapped word that no other process owns holds the last value anyone stored. |
| WalIndexProofs.ReleasedIsClean | python/patches/sqlite-shm.c:412-431 | When locks are let go, no word that stops being owned differs from the file. |
| WalIndexProofs.FinishTakesNothing | python/patches/sqlite-shm.c:439-456 | Completing a lock takes away no ownership the process had. |
| WalIndexProofs.FlushOrderFree | python/patches/sqlite-shm.c:178-207 | In every invariant state, two processes may flush in either order: every word of the file comes out the same, as what they changed they own, and not both. |
| WalIndexProofs.RefreshLeavesCurrent | python/patches/sqlite-shm.c:210-239 | Its own flush behind it, a refresh leaves a process's copy as it is exactly if every word it does not own was as in the file. |
| WalIndexProofs.SharedGrantedExactly | python/patches/sqlite-shm.c:432-445 | In every state the invariant allows: a connection that does not share the slot yet is granted it exactly if no connection of any process holds it exclusive and no other process is being granted it exclusive. Connections of its own process that share it do not stand in its way. |
| WalIndexProofs.ExclusiveGrantedExactly | python/patches/sqlite-shm.c:446-457 | An exclusive lock over slots is granted exactly if nobody holds any of them, shared or exclusive, and no other process is being granted one. |
| WalIndexProofs.RefusedChangesNothing | python/patches/sqlite-shm.c:432-457 | A call that is refused changes no lock, no mask, no word and not the file. |
| WalIndexProofs.FinishGives | python/patches/sqlite-shm.c:440-456 | A granted call gives its connection the slots asked for, shared or exclusive as asked, and no others; no other connection's masks change. |
| WalIndexProofs.UnlockLetsGo | python/patches/sqlite-shm.c:418-431 | An unlock takes the covered slots from its own connection's masks and nothing from any other's. |
| WalIndexNode.ShmNode.ChangedRun | python/patches/sqlite-shm.c:189-195 | A run of at most 128 words, all of which differ from the shadow. |
| WalIndexNode.ShmNode.FlushRegion | python/patches/sqlite-shm.c:182-204 | The file has the changed words of the region, the bytes touched are those alone, and the shadow marks them as written. |
| WalIndexNode.ShmNode.FlushNode | python/patches/sqlite-shm.c:178-207 | All regions: file, shadow and touched words are what the specification's flush says; no word left unchanged is written. |
| WalIndexNode.ShmNode.RefreshNode | python/patches/sqlite-shm.c:210-239 | Both copies become the specification's refresh of what they were. |
| WalIndexNode.ShmNode.ShmLock | python/patches/sqlite-shm.c:405-460 | The whole call: flush first, then the protocol's decision on counts and kernel, whose meaning `SharedGrantedExactly`, `ExclusiveGrantedExactly` and `UnlockLetsGo` state, and its counts, masks and copies. |
| WalIndexNode.ShmNode.LockOneShared | python/patches/sqlite-shm.c:432-445 | A shared lock: busy exactly if the slot is exclusive here, or nobody here has it and the kernel refuses; else read in before it is counted. Whose locks that means: `SharedGrantedExactly`. |
| WalIndexNode.ShmNode.LockRange | python/patches/sqlite-shm.c:446-457 | An exclusive lock over slots: busy if any is held here. |
| WalIndexNode.ShmNode.MapRegion | python/patches/sqlite-shm.c:365-403 | A region more that the file has: both copies start as what the file holds. |
| WalIndexNode.ShmFile.ReadAt | python/patches/sqlite-shm.c:117-130 | Past the end of the file there are zeros. |
| WalIndexNode.ShmFile.WriteAt | python/patches/sqlite-shm.c:132-141 | Exactly the written range changes. |
| PackedRingProofs.ExactlyOnceInOrder | engine/src/virtio.rs:106-187 | For any conforming driver, wherever it writes its ids, any ring size and any run: what pop yielded is a prefix of what was published, each chain once and in order; the descriptor under the cursor is taken exactly while something is left to yield; and whenever buffers are held, release finds room. |
| PackedRingProofs.NothingStale | engine/src/virtio.rs:106-121 | With nothing unpopped, the descriptor under the device's cursor is not taken, whatever earlier laps left there. |
| PackedRingProofs.PopTakesNext | engine/src/virtio.rs:123-158 | With something unpopped, the walk from the cursor yields that chain whole, also across the end of the ring. |
| PackedRingProofs.ReleaseHasRoom | engine/src/virtio.rs:160-167 | The slot a completion goes to is never found full, in whatever order buffers are released. |
| PackedRingProofs.DriverSeesCompletion | engine/src/virtio.rs:169-187 | The driver's own flag tells it exactly whether a completion is waiting; the id it finds there is that of the chain's first descriptor. |
| PackedRingProofs.RightIdExactly | engine/src/virtio.rs:125-130 | The id a completion carries is the one section 2.7 of VirtIO 1.1 promises, the last descriptor's, exactly if the chain's first descriptor has the same. |
| PackedRingProofs.SplitIdsMisread | engine/src/virtio.rs:125-130 | Every chain a driver may write whose first and last ids differ: offered to a new queue, popped and released, it is completed under the wrong id. |
| PackedRing.FlagsShowCompletion | engine/src/virtio.rs:169-179 | Length and id written, a waiting driver sees nothing yet; the flags, written last, show it the whole completion. |
| PackedRingProofs.JointStep | engine/src/virtio.rs:106-187 | Every step of driver and device keeps the joint invariant. |
| PackedRingProofs.JointInit | engine/src/virtio.rs:97-99 | It holds of a new queue over a ring never used. |
| PackedRingProofs.RunYields | engine/src/virtio.rs:123-158 | Over any run, the chains yielded are those published between the two positions of the cursor. |
| PackedRing.ResidueAndParity | engine/src/virtio.rs:106-121 | Index and wrap flag are the residue and the lap parity of an unbounded position. |
| PackedRing.Jump | engine/src/virtio.rs:180-186 | Advancing by a whole chain is advancing slot by slot, across the end of the ring too. |
| PackedRing.Lap | engine/src/virtio.rs:106-121 | One lap on, the index is the same and the flag is not. |
| PackedQueue.Queue.Advance | engine/src/virtio.rs:106-121 | Takes the descriptor under the cursor exactly if bits 7 and 15 of its raw flags differ and bit 7 is the lap's, and moves on. |
| PackedQueue.Queue.Pop | engine/src/virtio.rs:123-158 | Nothing, if the raw flags are not ready; the error, if the chain never ends; else a request whose buffer k has the address and length of the ring's k-th raw descriptor from the cursor on, writable exactly if its flag 2 is set, or those of the table the first one names, read at address + 16k for k below length / 16, with an error if that is no multiple of 16 or outside memory. |
| PackedQueue.Queue.Walk | engine/src/virtio.rs:127-137 | Follows a chain to its end, or finds it endless. |
| PackedQueue.Queue.Finish | engine/src/virtio.rs:138-156 | The same of a walked chain: its own descriptors, or those of the table that its one descriptor names. |
| PackedQueue.Queue.Release | engine/src/virtio.rs:160-187 | The raw descriptor under the cursor gets the length, the id and then the flags (2 if anything was written, 7 and 15 as the lap has them), which alone show the driver a completion (asserted between the writes), its address kept; the cursor moves by the chain's length. On a full ring it refuses and writes nothing. |
| PackedQueue.PopGivesNextBuffer | engine/src/virtio.rs:123-158 | In every joint state, pop gives nothing exactly if all was taken, and else a buffer for each descriptor the driver published next: its address, length and direction, in order, or those of the table it names. |
| PackedQueue.WalkAlong | engine/src/virtio.rs:127-137 | A chain is the descriptors in a row from the cursor on, around the end of the ring, the last of them the first without flag 1. |
| PackedQueue.RequestGives | engine/src/virtio.rs:138-156 | What a walked chain of raw descriptors becomes: a buffer each, or one for each entry of the table. |
| DylinkProofs.TablesAgree | engine/src/dylink.rs:511-553 | In every run, two threads that applied the same prefix of the log have the same table, of the same size with the same function in every slot; one that applied less has a prefix of it. |
| DylinkProofs.PointersKeepMeaning | engine/src/dylink.rs:441-471 | A function's index, once given, means that function ever after, in the table of every thread that has caught up. |
| DylinkProofs.StepKeepsKnown | engine/src/dylink.rs:441-471 | No step changes an index already given. |
| DylinkProofs.KnownIndexIsRight | engine/src/dylink.rs:441-471 | A known index holds the function it is of, in any thread caught up. |
| DylinkProofs.SlotsAreFunctions | engine/src/dylink.rs:441-471 | In every run, each slot added is of one function, and no two functions share one. |
| DylinkProofs.LoadReplays | engine/src/dylink.rs:511-553 | Replaying the load a thread logged gives exactly the table that thread built while loading. |
| DylinkProofs.SlotReplays | engine/src/dylink.rs:728-740 | The same for the slot a dlsym added. |
| DylinkProofs.LinkageOk | engine/src/dylink.rs:585-697 | Linking any module adds slots one after another at the end, each with its provider's function. |
| DylinkProofs.TwoSlotsExactly | engine/src/dylink.rs:441-471 | One load gives one function two slots exactly if the module asks twice for a function of its own, or for one of the program's under two names neither of which had an index. |
| DylinkProofs.TwoNamesTwoSlots | engine/src/dylink.rs:441-471 | A program that exports one function under two names, and a module that asks for both: two slots hold it. |
| DylinkProofs.LinkedOnce | engine/src/dylink.rs:591-644 | Resolving imports, repeated ones too, never gives a function of another module a second slot. |
| DylinkProofs.LaterExtends | engine/src/dylink.rs:529-553 | A longer prefix of the log extends the table and changes nothing in it. |
| DylinkProofs.InvStep | engine/src/dylink.rs:441-740 | Loads, symbol look-ups and catching up, by any thread, keep the invariant. |
| DylinkProofs.RunInv | engine/src/dylink.rs:441-740 | So does every run from a new process. |
| DylinkLookup.FindExactly | engine/src/dylink.rs:405-421 | For an import: the program exactly if it exports the name; else library i exactly if i is the first global library that exports it; nobody exactly if there is neither. |
| DylinkLookup.HandleExactly | engine/src/dylink.rs:699-722 | dlsym with a handle answers from that library alone, global or not, exactly if it exports the name. |
| DylinkLookup.GlobalOnly | engine/src/dylink.rs:699-722 | In every run: dlsym(0) answers from the program or from a library the run loaded global, and from none it loaded local. |
| DylinkLookup.LibrariesAsLoaded | engine/src/dylink.rs:555-697 | In every run, the libraries are those its loads named, in order, each with its exports and global or local as asked. |
| DylinkLookup.OwnExactly | engine/src/dylink.rs:591-666 | A module answers for itself exactly the names it asks for and exports and nobody before it provides. |
| DylinkLookup.SlotsExactly | engine/src/dylink.rs:591-666 | A load adds a slot exactly for what the module asks of others that has no index yet, and for what it answers itself. |
| DylinkLookup.LoadLaysOut | engine/src/dylink.rs:585-697 | A load keeps the table, leaves empty slots up to the alignment, then has the module's elements in order and its added slots behind them. |
| DylinkLookup.AlignExactly | engine/src/dylink.rs:587-588 | A library's base is the least multiple of its alignment at or past the table's end. |
| DylinkLookup.ReplayRefuses | engine/src/dylink.rs:511-527 | A thread replays a load only onto a table of the size it was loaded at; the table then has the size it had after it. |
| DylinkThread.Thread.FunctionIndex | engine/src/dylink.rs:441-471 | An existing index is reused; otherwise one slot is added and logged. |
| DylinkThread.Thread.ReplayLoad | engine/src/dylink.rs:511-527 | One logged load applied to this thread's table. |
| DylinkThread.Thread.CatchUp | engine/src/dylink.rs:529-553 | The thread's view becomes the replay of the whole log. |
| DylinkThread.Thread.LinkImports | engine/src/dylink.rs:591-644 | Imports resolved in order, each by the search `FindExactly` states, slots added as the specification has it, and the module's own names noted. |
| DylinkThread.Thread.LinkAll | engine/src/dylink.rs:585-697 | Table growth, imports and own functions together. |
| DylinkThread.Thread.AddOwn | engine/src/dylink.rs:648-666 | A module's own exports get their slots. |
| DylinkThread.Thread.Instantiate | engine/src/dylink.rs:555-697 | The log grows by one load, and the thread stands where replaying it stands. |
| DylinkThread.Thread.Sym | engine/src/dylink.rs:699-744 | A symbol's index, by the search `FindExactly` and `HandleExactly` state, added and logged if it had none. |
| DylinkThread.BuildIndex | engine/src/dylink.rs:441-471 | The cache has the first index of every function in the table. |
| TcpProxyProofs.HostStream | engine/src/net.rs:779-842 | In every run: bytes sent followed by bytes queued are the bytes read from the host socket; in flight never exceeds 65,536; a FIN is sent at most once, after all data. |
| TcpProxyProofs.ByteInOneSegment | engine/src/net.rs:793-807 | Every byte sent is in exactly one segment, at sequence ISN + 1 + n modulo 2^32. |
| TcpProxyProofs.GuestStream | engine/src/net.rs:560-585 | However segments are repeated or reordered, what goes to the host socket after it is connected is the in-order part the acknowledgement number claims, each byte once, and the FIN is accepted once, after all of it. |
| TcpProxyProofs.NothingLost | engine/src/net.rs:567-582 | Once the host is connected, its writer thread has been handed the guest's stream from its first byte exactly if the run accepted no data segment before that. |
| TcpProxyProofs.EndIsTold | engine/src/net.rs:575-582 | A finished guest's side of the host connection is closed exactly if the FIN was not accepted before the host was connected, or a flush has forgotten the connection. |
| TcpProxyProofs.AllArrives | engine/src/net.rs:834-858 | A host that was told of the end has the guest's whole stream exactly if no data was accepted before it was connected and no flush forgot the connection while its writer still had bytes to write. |
| TcpProxyProofs.LastBytesCutOff | engine/src/net.rs:834-858 | A run in which the host ends first and the guest's last byte comes with its FIN and last acknowledgement: the connection is forgotten, its socket shut both ways, and the byte never written. |
| TcpProxyProofs.EarlyDataIsLost | engine/src/net.rs:567-574 | A run in which data that came before is acknowledged and never delivered. |
| TcpProxyProofs.EarlyFinIsLost | engine/src/net.rs:692-706 | A run in which no byte is lost, but a FIN that came before is acknowledged and the host not told: connecting opens the direction again. |
| TcpProxyProofs.SendOneKeeps | engine/src/net.rs:793-807 | A data segment of 1 to 1400 bytes continues the stream at its own sequence number and stays within the window advertised. |
| TcpProxyProofs.SendDataKeeps | engine/src/net.rs:793-807 | So does the whole loop, which ends with nothing more to send. |
| TcpProxyProofs.FlushSendsAll | engine/src/net.rs:779-842 | After a flush nothing sendable is left, and a FIN has gone out if the host is done and all data is sent. |
| TcpProxyProofs.AckKeeps | engine/src/net.rs:560-565 | Whatever number is acknowledged, it moves the window only over what was sent: the wrapping subtractions are exact. |
| TcpProxyProofs.FinishedExactly | engine/src/net.rs:834-842 | A connection is finished exactly when both sides have ended and the guest has acknowledged every byte read from the host and the FIN; then both streams are complete. |
| TcpProxyProofs.EverySegmentAcknowledges | engine/src/net.rs:779-842 | In every run, each segment to the guest, SYN-ACK, data, FIN or plain, acknowledges its initial number + 1 + the bytes and the FIN accepted when it was sent, modulo 2^32; these counts never go back and never exceed what was accepted. |
| TcpProxyProofs.StepAcknowledges | engine/src/net.rs:692-842 | Every segment a step sends acknowledges all that was accepted before it. |
| TcpProxyProofs.AcknowledgedAtOnce | engine/src/net.rs:779-842 | A flush asked to acknowledge, on an established connection, sends at least one segment. |
| TcpProxyProofs.AcceptedExactly | engine/src/net.rs:567-585 | A segment's data is accepted exactly where it is next in the guest's stream, in full; a FIN exactly where all before it was. |
| TcpProxyProofs.AckTakenExactly | engine/src/net.rs:547-565 | An acknowledgement of n bytes in flight moves the window to n; any other number changes nothing. The window is the segment's. |
| TcpProxyProofs.InvStep | engine/src/net.rs:510-842 | Every step, from either side, keeps the invariant. |
| TcpProxyProofs.RunKeeps | engine/src/net.rs:510-842 | So does every run. |
| TcpConnection.Connection.constructor | engine/src/net.rs:589-650 | A connection as a SYN opens it: sequence numbers, window and flags. |
| TcpConnection.Connection.ReceiveTcp | engine/src/net.rs:547-586 | The connection and what is written to the host follow the specification; an acknowledgement is due for data and FIN. |
| TcpConnection.Connection.HostConnected | engine/src/net.rs:692-706 | The SYN-ACK, and the state after it. |
| TcpProxyProofs.HostReadKeeps | engine/src/net.rs:759-764 | What the host socket gives is queued behind what was: sent followed by queued stays all that was read, and the FIN stays behind it. |
| TcpConnection.Connection.Flush | engine/src/net.rs:779-858 | The segments of the specification, in its loop (what they carry: `HostStream`, `ByteInOneSegment`, `EverySegmentAcknowledges`); a finished connection's socket is closed, any other stays as it was. |
| TcpConnection.Connection.Room | engine/src/net.rs:168-174 | What the guest's window has room for. |
| VsockProofs.FlowControl | engine/src/vsock.rs:162-270 | Under any interleaving with a conforming guest, a packet's credit and its data taken up in two steps with others between them: incoming never exceeds BUF_ALLOC, no fwd_cnt tells more than was consumed, the writer's 32-bit subtraction is the unbounded one, and what the host has read and holds is a prefix of what the guest sent. |
| VsockProofs.GuestNeverOverrun | engine/src/vsock.rs:248-270 | With a guest whose buffer never shrinks, in every run: written less consumed is at most written less heard of, which is at most the buffer last heard of, which is at most the guest's buffer now. |
| VsockProofs.WithinExactly | engine/src/vsock.rs:162-167 | With any guest: no more is outstanding than the buffer last heard of, all through a run, exactly if every packet heard had a buffer with room for what was then outstanding. |
| VsockProofs.WithinStep | engine/src/vsock.rs:162-167 | Only hearing a packet can break it, and does exactly if that packet's buffer is too small. |
| VsockProofs.ShrinkingOverruns | engine/src/vsock.rs:162-167 | A run in which a guest shrinks its buffer under five bytes on their way, and they exceed what it last advertised. |
| VsockProofs.WriteWithinWindow | engine/src/vsock.rs:248-270 | A write stays within the buffer last advertised, by what was last said consumed, and makes progress. |
| VsockProofs.InvStep | engine/src/vsock.rs:162-270 | Every step of reader, writer, delivery and guest keeps the invariant. |
| VsockProofs.RunKeeps | engine/src/vsock.rs:162-270 | So does every run. |
| VsockConnection.ConnectionState.Read | engine/src/vsock.rs:192-231 | Bytes out in order, the count taken, and an update exactly when a quarter of the buffer was consumed since the last. |
| VsockConnection.ConnectionState.Reserve | engine/src/vsock.rs:248-270 | What a write may take now, counted before it is sent. |
| VsockProofs.CreditKeeps | engine/src/vsock.rs:436-443 | The credit of a packet is taken up under one lock, in the order packets were sent: what is known consumed never exceeds what was, and its data waits for the next lock. |
| VsockProofs.EnqueueKeeps | engine/src/vsock.rs:169-177 | Its data, under the next lock, whatever came between: still in order, and within the buffer. |
| VsockProofs.HostBytesInOrder | engine/src/vsock.rs:248-270 | Over any run in which packets reach the queue in order: the payloads the guest was given, followed by those on their way, are what was on its way and then what writers wrote, each byte once and in order. |
| VsockProofs.HostBytesConserved | engine/src/vsock.rs:248-270 | Over any run at all, packets overtaking one another: no byte lost, made up or given twice. |
| VsockProofs.WriteTakesMost | engine/src/vsock.rs:248-270 | A write takes the least of its data, 2048 bytes and what the guest has room for; its packet has the first bytes and says all that was read. |
| VsockProofs.ReadTakesMost | engine/src/vsock.rs:192-231 | A read takes all there is room for, the oldest first; a credit update goes out exactly when 64 KiB were read since the last. |
| ImageTreeLinks.Build | engine/src/image_fs.rs:163-200 | Merging any archives into the id-indexed tree says of every path what unpacking them entry by entry says, or fails exactly where that does, or where the root has a child that is no directory or is called run. |
| ImageTreeBuild.Tree.Add | engine/src/image_fs.rs:247-322 | One archive merged: what unpacking its entries in order leaves. |
| ImageTreeBuild.Tree.AddEntry | engine/src/image_fs.rs:247-322 | One entry, in the tree as in the flat view, whose rules are those proved of it below: `FileReplaces`, `LinkShares`, `OtherStays`, `OtherReplaces`, `DirMerges`, `WayBlocked`, `RefusedExactly`. |
| ImageTreeBuild.Tree.DirectoryAt | engine/src/image_fs.rs:230-244 | Directories on the way made where missing, or nothing at all if something else is in the way. |
| ImageTreeBuild.Tree.AddAt | engine/src/image_fs.rs:259-320 | The entry at its path, its parents made first. |
| ImageTreeBuild.Tree.AddDir | engine/src/image_fs.rs:271-282 | A directory entry, merged or new. |
| ImageTreeBuild.Tree.AddOther | engine/src/image_fs.rs:283-320 | An entry that is no directory, at its path: what stays, what cannot be served, and what is replaced, as the flat view has it. |
| ImageTreeBuild.Tree.Place | engine/src/image_fs.rs:302-319 | Another name for a file of this archive, or a node of its own. |
| ImageTreeLinks.CountLinks | engine/src/image_fs.rs:325-346 | A non-directory's link count is the number of paths that lead to it (1 if none does), and nothing else changes. |
| ImageTreeLinks.EveryNameCounts | engine/src/image_fs.rs:325-346 | The names counted over all directories are the paths. |
| ImageTreeLinks.DirectoriesAreATree | engine/src/image_fs.rs:230-346 | Each directory has one path, and lies deeper than those above it: no cycles, one parent each. |
| ImageTreeProofs.OnePath | engine/src/image_fs.rs:230-244 | Two paths to one directory are the same path. |
| ImageTreeProofs.LookupRename | engine/src/image_fs.rs:309-316 | Changing one name changes one path and no other. |
| ImageTreeProofs.RefinesRename | engine/src/image_fs.rs:309-316 | Giving a name in the tree is giving a path in the flat view. |
| ImageTreeProofs.RefinesNamed | engine/src/image_fs.rs:223-241 | So is adding a node under a name. |
| ImageTreeRules.LastFileWins | engine/src/image_fs.rs:163-322 | Over all archives: the last file entry of a path that takes effect (its way open, no directory with something in it there, no second hard link) decides what the path names in the end: its data, mode, owner, time and size. |
| ImageTreeRules.FileReplaces | engine/src/image_fs.rs:283-319 | A file entry whose parents can be made replaces a file, link, device or empty directory: its path names an inode of its own, with the entry's data, mode, owner, time and size. |
| ImageTreeRules.LinkShares | engine/src/image_fs.rs:302-316 | A second hard link of an archive becomes another name of the first one's inode, which takes its data and size if it comes with some. |
| ImageTreeRules.OtherStays | engine/src/image_fs.rs:283-289 | A directory with something in it stays whatever comes that is no directory, and so does a link or device when another of its type comes. |
| ImageTreeRules.OtherReplaces | engine/src/image_fs.rs:283-319 | A link or device replaces anything else, with its own target or device number. |
| ImageTreeRules.DirMerges | engine/src/image_fs.rs:271-282 | A directory entry gives a directory that is there its mode, owner and time, and leaves what is in it; it replaces anything else. |
| ImageTreeRules.OthersStay | engine/src/image_fs.rs:247-322 | Every other path that was there names what it named; what is new is the entry's path and the way to it. |
| ImageTreeRules.WayMade | engine/src/image_fs.rs:230-244 | Missing directories on the way are made, 0755, root's and with the entry's time, exactly if nothing but directories is on it. |
| ImageTreeRules.WayBlocked | engine/src/image_fs.rs:267-267 | An entry with something else on its way does nothing. |
| ImageTreeRules.RefusedExactly | engine/src/image_fs.rs:250-299 | An archive is refused exactly for a name with a part `..`, or for a link to be placed whose target is no text. |
| ImageTreeRules.RootTakesMode | engine/src/image_fs.rs:260-266 | An entry for the archive's root changes at most the root's mode. |
| ImageTreeRules.NamesExactly | engine/src/image_fs.rs:252-258 | Parts joined by slashes stand for those that are not empty and not `.`, and for nothing if one is `..`. |
| ZipStoreFs.Store.Write | host/zip-store.js:308-326 | The file becomes its old content with the bytes put there and zeros where it was shorter, counted against the limit; or nothing changes and ENOSPC. All invariants kept: counters are sums within limits, buffers are zero beyond their size, a kept checksum is right, the nodes are a tree. |
| ZipStoreFs.WriteBuffer | host/zip-store.js:311-321 | The grown buffer with the bytes set in it holds the zero-padded content, and is zero beyond it. |
| ZipStoreFs.GrowBuffer | host/zip-store.js:311-320 | Growing by doubling within the limit changes no content. |
| ZipStoreFs.Store.Truncate | host/zip-store.js:420-434 | Cut off or filled up with zeros; or nothing changes and ENOSPC. |
| ZipStoreFs.Store.Read | host/zip-store.js:302-306 | The slice of the content, or nothing past its end. |
| ZipStoreFs.Store.Open | host/zip-store.js:279-289 | One more handle, the content kept or emptied; EISDIR and EINVAL for what is no file. |
| ZipStoreFs.Store.CreateFile | host/zip-store.js:291-300 | Opens what is there, refuses it if exclusive, or makes an open file. |
| ZipStoreFs.Store.Release | host/zip-store.js:338-341 | One handle less; a removed file is freed, once, at its last. |
| ZipStoreFs.Store.Rename | host/zip-store.js:253-277 | Exactly the refusals of the code, in its order; else the node moves, what was replaced goes, and the directories stay a rooted tree. |
| ZipStoreFs.Store.IsAbove | host/zip-store.js:258-264 | The walk up finds whether a directory would move below itself. |
| ZipStoreFs.Store.Clear | host/zip-store.js:265-270 | What has the new name is removed if it may be. |
| ZipStoreFs.Store.Unlink | host/zip-store.js:240-244 | A name removed; the node freed unless it is open. |
| ZipStoreFs.Store.Rmdir | host/zip-store.js:246-251 | The same for an empty directory. |
| ZipStoreFs.Store.Mkdir | host/zip-store.js:236-238 | A directory more, or why not. |
| ZipStoreFs.Store.Symlink | host/zip-store.js:227-234 | A link; and the accounting is right afterwards exactly if the link was not refused for space after it was added. |
| ZipStoreFs.Store.Create | host/zip-store.js:384-391 | A node under a new name, or why not. |
| ZipStoreFs.Store.Add | host/zip-store.js:393-401 | One entry more, within the limit. |
| ZipStoreFs.Store.Remove | host/zip-store.js:403-410 | Name and node gone, counted off at once or when last closed. |
| ZipStoreFs.Store.Free | host/zip-store.js:412-418 | Counted off once, and only when gone and not open. |
| ZipStoreFs.Store.ImportEntry | host/zip-store.js:131-165 | An archive entry is found under its path afterwards, with its content; on failure the invariants still hold. |
| ZipStoreFs.Store.constructor | host/zip-store.js:67-75 | An empty tree, at most 65,000 entries. |
| ZipStoreProofs.MoveShape | host/zip-store.js:258-273 | A node moved anywhere but below itself leaves a tree. |
| ZipStoreProofs.ReachesRoot | host/zip-store.js:253-277 | From every node in the tree, parents lead to the root. |
| ZipStoreProofs.OneName | host/zip-store.js:393-410 | Everything in the tree but the root has one name, in one directory; what is gone has none. |
| ZipStoreProofs.SetInPlace | host/zip-store.js:319-321 | Bytes set in a zero-padded buffer are bytes put in the file. |
| ZipStoreLaws.WriteExactly | host/zip-store.js:308-326 | Byte by byte: what was written where it was written, zeros in a gap before it, and every other byte as it was. |
| ZipStoreLaws.ReadsWhatWasWritten | host/zip-store.js:302-326 | Reading where and as much as was written gives what was written. |
| ZipStoreLaws.ResizeExactly | host/zip-store.js:420-434 | Byte by byte: what is before the new size stays, what is added is zero. |
| ZipStoreLaws.AddExactly | host/zip-store.js:393-401 | A new node has its name, and no other name and no other node changes. |
| ZipStoreLaws.RemoveExactly | host/zip-store.js:403-410 | A removed name is gone and no other, and of all nodes only the one it named is marked. |
| ZipStoreLaws.MoveExactly | host/zip-store.js:271-277 | A moved node has its new name in place of its old one, and no other name changes. |
| ZipStoreLaws.RenameExactly | host/zip-store.js:253-277 | A rename that goes through: the new name names the node, the old one nothing (unless they are one), what it replaced is gone, and every other name is as it was. |
| ZipStoreLaws.RenameRefusals | host/zip-store.js:253-270 | Each error of a rename holds exactly where its reason is the first. |
| ZipStoreLaws.CreateRefusals | host/zip-store.js:384-401 | ENOTDIR, EEXIST and ENOSPC, in this order, and exactly for their reasons. |
| ZipProofs.SoundRoundTrip | host/zip.js:72-244 | For any entries with clean paths, numbers in range and right checksums: the writer takes them exactly up to 65,535 entries and 4 GiB, and the reader gives the same paths, types, data, modes, times and checksums back exactly below both limits. |
| ZipProofs.RoundTrip | host/zip.js:72-244 | The same for any checksum and any notion of a clean name. |
| ZipProofs.AtTheLimit | host/zip.js:181-183 | What the writer still takes at a limit the reader refuses as ZIP64. |
| ZipProofs.EntryBack | host/zip.js:187-242 | One entry, wherever its two records lie, is read as what it was. |
| ZipProofs.CleanStays | host/zip.js:153-158 | A clean path, with a directory's slash or without, comes back as it is. |
| ZipProofs.MtimeFound | host/zip.js:161-170 | The UT field gives the exact time. |
| ZipProofs.EndFound | host/zip.js:172-182 | The end record is found, with its count and offset. |
| ZipProofs.LocalLayout | host/zip.js:97-111 | Each field of a local header at its offset, as section 4.3.7 of the APPNOTE has it, its name and UT field behind it. |
| ZipProofs.CentralLayout | host/zip.js:113-131 | Each field of a central header at its offset (section 4.3.12). |
| ZipProofs.AttributesLayout | host/zip.js:128-128 | The Unix type and mode in the upper half of the external attributes, the directory bit in the lower. |
| ZipProofs.EndLayout | host/zip.js:140-147 | The end record of one disk and no comment (section 4.3.16). |
| ZipReader.ReadsOnlyWhatIsThere | host/zip.js:178-244 | On any bytes that are read as an archive: every entry is that of a directory record which is neither encrypted nor compressed, whose name is safe, whose local header is one and whose data lies in the archive and has its checksum; path, kind, mode and data are that record's. |
| ZipReader.TakenIsReadable | host/zip.js:199-241 | The same of one record, with where the next one is. |
| ZipReader.SkippedIsRoot | host/zip.js:222-223 | A record that gives no entry is the root's own. |
| ZipReader.RefusedFor | host/zip.js:218-230 | Encrypted, compressed, unsafe or corrupt: each refusal exactly where its reason is the first. |
| ZipReader.UnsafeExactly | host/zip.js:153-158 | A name is refused exactly if a part of it is `..` or has a NUL in it. |
| Zip.WriteZip | host/zip.js:72-148 | The archive of the specification, or its refusal at the entry that breaks a limit. |
| Zip.ReadZip | host/zip.js:178-244 | What the specification reads, whatever the bytes. |
| Zip.SearchEnd | host/zip.js:172-179 | The last end record within reach of a comment. |
| Zip.ReadDirectory | host/zip.js:185-243 | The directory's entries in order, the root's own left out. |
| Crc.TableCrc | host/zip.js:48-52 | The table form computes the CRC-32 the bit-by-bit form defines, on every byte string and from any running checksum. |
| Crc.MakeTable | host/zip.js:40-45 | Entry n is n shifted out eight times. |
| Crc.BitwiseCrc | engine/src/zip.rs:17-27 | The masked loop is the same register. |
| Crc.ByteStep | host/zip.js:48-52 | Eight shifts at once: a table look-up by the low byte, and the rest shifted. |
| Crc.ContinueConcat | host/zip.js:47-52 | Continuing over b after a is the checksum of a followed by b. |
| Glob.ExactOnTextsWithoutStars | engine/src/serial.rs:166-191 | The single-backtrack loop accepts what `*` and `?` mean, for every pattern, exactly on the texts without a `*`. |
| Glob.RunMeans | engine/src/serial.rs:166-191 | At every point of the loop, what it will answer is whether the rest matches from here or from a later backtrack. |
| Glob.Match | engine/src/serial.rs:166-191 | The loop ends, and on a text without `*` answers the recursive meaning. |
| Glob.TrapMatches | engine/src/serial.rs:172-172 | For any text with a `*` in it there is a pattern that matches ... |
| Glob.TrapFails | engine/src/serial.rs:172-172 | ... and that the loop refuses, as it takes the text's `*` for a literal match first. |
| CpioProofs.RoundTrip | engine/src/protocol.rs:951-977 | Parsing the overlay gives every name, mode, size and number back, in order, each offset at its data, and ends at the archive's end. |
| CpioProofs.ExactlyPlainNames | engine/src/image_fs.rs:395-405 | The names come back as they were exactly if none ends in NUL and none is the trailer's. |
| CpioProofs.BackToBack | engine/src/image_fs.rs:367-425 | An archive, NULs up to a multiple of four, and another one: the entries of both, the second's offsets shifted; or its failure. |
| CpioProofs.RecordBack | engine/src/image_fs.rs:385-423 | A record anywhere on a four-byte boundary is read as what it was written from. |
| CpioProofs.RecordExactly | engine/src/image_fs.rs:382-399 | On any bytes: there is a record with these fields exactly at a multiple of four with a whole header there, magic 070701 or 070702, twelve numbers of eight digits, and a name that ends in the archive. |
| CpioProofs.RecordPlaced | engine/src/image_fs.rs:395-401 | Its name is what is there without the NULs at its end, its data is at the next multiple of four, the next record at the one after the data. |
| Cpio.CpioOverlay | engine/src/protocol.rs:951-977 | The writer's bytes, padding as it goes. |
| Cpio.ReadEntries | engine/src/image_fs.rs:367-425 | The parser's loop gives the specification's entries, or fails where it does. |
| DevicetreeBlob.RoundTrip | engine/src/devicetree.rs:111-159 | For every tree with NUL-free names, read by sections 5.2 to 5.5 of the Devicetree Specification: the same nested nodes, property names and encoded values, in order, the reservations up to the first of address and size zero, and the boot CPU; all offsets and sizes in the header are right. |
| DevicetreeBlob.ReservationsExactly | engine/src/devicetree.rs:119-124 | All reservations are read back exactly if none of them is (0, 0), which ends the list. |
| DevicetreeBlob.Generate | engine/src/devicetree.rs:111-159 | The writer's blob, its name offsets and header filled in at the end. |
| DevicetreeBlob.NamesFilled | engine/src/devicetree.rs:131-141 | After the strings are written, every property's slot holds its own name's offset and nothing else changed. |
| DevicetreeBlob.PatchName | engine/src/devicetree.rs:133-140 | One name's offset, in all its slots and no others. |
| DevicetreeBlob.Writer.Walk | engine/src/devicetree.rs:82-107 | The node's tokens follow, with a reference for every property. |
| DevicetreeBlob.Writer.WalkProp | engine/src/devicetree.rs:90-101 | A property's token, its name's offset left open. |
| DevicetreeBlob.Writer.AddRef | engine/src/devicetree.rs:75-80 | One more slot for a name, new or known. |
| DevicetreeBlob.Writer.Align | engine/src/devicetree.rs:64-68 | Zeros up to the next multiple of four. |
| DevicetreeBlob.RefsToRight | engine/src/devicetree.rs:75-101 | Each name is listed once, every property's slot is under its name, and nothing else is. |
| DevicetreeBlob.OffsetsRight | engine/src/devicetree.rs:131-140 | Every patched offset leads to its own NUL-terminated name. |
| DevicetreeBlob.HeaderRight | engine/src/devicetree.rs:143-157 | The header says the total size, where each block is, and versions 17 and 16. |
| DevicetreeProofs.TokensBack | engine/src/devicetree.rs:82-107 | The tokens of a tree are read as that tree. |
| DevicetreeProofs.StructBack | engine/src/devicetree.rs:82-129 | The structure block is read as its tokens. |
| DevicetreeProofs.ValueEncoded | engine/src/devicetree.rs:22-37 | A U32 is four bytes, most significant first, a U64 two such words, cells one each in order, a string has a NUL behind it, bytes are as they are. |
| HttpFramingProofs.StreamBack | host/http-protocol.js:227-250 | All bytes of a response whose status code the client takes make its head and exactly its pieces, joined, with nothing left over. |
| HttpFramingProofs.NoPrefixIsWhole | python/lib/collabo_core.py:105-160 | The client takes no strict prefix of a response for a whole one. |
| HttpFramingProofs.AnswerOn | python/lib/collabo_core.py:127-153 | More bytes change nothing in what was read, and are left unread. |
| HttpReaders.ResponseDecodes | host/http-protocol.js:286-318 | decodeResponse on a response with any status line its pattern takes ends with the pieces joined and complete, and with nothing else. |
| HttpReaders.CutResponseDecodes | host/http-protocol.js:286-318 | On every strict prefix it ends, and finds nothing complete. |
| HttpReaders.ReadersAgree | host/http-protocol.js:286-318 | If the status line is one to both readers or to neither, every length line reached is the same number to parseInt and to int(), and not negative, and no byte order mark hides a line: both readers end, and both find a whole response with the same body or neither does. |
| HttpReaders.BodiesAgree | host/http-protocol.js:306-317 | The same of the body, from any place on. |
| HttpStatus.StatusLinesExactly | python/lib/collabo_core.py:257-263 | For every status line: the two readers agree on all responses in step below it exactly if decodeResponse's pattern and int(code) both take it or neither does. |
| HttpStatus.StatusExactly | python/lib/collabo_core.py:257-263 | The same for any way a client takes codes and any two number functions that read what is written. |
| HttpStatus.GluedStatusParts | python/lib/collabo_core.py:257-263 | The response of status line `200OK`: complete to decodeResponse, while the client's int() raises. |
| HttpFramingProofs.StatusAccepts | python/lib/collabo_core.py:257-263 | int(code) takes every status line the bridge writes: three digits, then a space or the end. |
| HttpLengths.LengthLinesExactly | host/http-protocol.js:306-314 | For every ASCII length line: the two readers agree on all responses around it, under heads as the bridge sends them, exactly if parseInt and int() give the same number for it, not negative. |
| HttpLengths.TrustedExactly | host/http-protocol.js:306-314 | The same for any two number functions that read what is written, of which the decoder's is not negative where the client's is not. |
| HttpLengths.NoNumberParts | host/http-protocol.js:306-314 | Where int() refuses a line, whatever parseInt makes of it (a number, NaN, a step back), there is a response the decoder calls complete or never leaves. |
| HttpLengths.NumberParts | host/http-protocol.js:306-314 | Where both read a number and not the same, there is a response whole to the client that the decoder finds incomplete or longer. |
| HttpLengths.SemicolonParts | host/http-protocol.js:310-313 | The response of length line `5;`: complete to decodeResponse, malformed to the client. |
| HttpLengths.NaNParts | host/http-protocol.js:310-313 | A response whose length line is `zz`: NaN sends the decoder to byte 0, and it ends complete; to the client it is malformed. |
| HttpLengths.MarkParts | host/http-protocol.js:315-316 | A trailer with a byte order mark: complete to decodeResponse, refused by the client. |
| HttpNumbers.HexBack | host/http-protocol.js:246-246 | What toString(16) writes is that number to int() and to parseInt. |
| HttpNumbers.PlainAgrees | python/lib/collabo_core.py:139-139 | Hexadecimal digits alone are the same number to both. |
| HttpNumbers.SameSign | python/lib/collabo_core.py:139-139 | An ASCII line that is no negative number to int() is none to parseInt. |
| HttpNumbers.Underscore | python/lib/collabo_core.py:139-139 | `1_0` is 16 to int() and 1 to parseInt. |
| HttpFraming.Remaining | python/lib/collabo_core.py:149-153 | A negative length never comes down to nothing, however often the loop turns. |
| HttpClient.Fetch | python/lib/collabo_core.py:246-263 | Sent in any pieces and received in any others: the head, and the pieces joined. |
| HttpClient.FetchCut | python/lib/collabo_core.py:105-109 | Cut short anywhere: never a whole response. |
| HttpClient.Response.Request | python/lib/collabo_core.py:246-263 | The head loop, then int() of the status code, which may raise: its answer depends on all the bytes and not on how recv() cuts them. |
| HttpClient.Response.ReadBody | python/lib/collabo_core.py:127-160 | The same of the body, for whatever int() makes of the length lines. |
| HttpClient.Response.Line | python/lib/collabo_core.py:111-118 | A line, across any cuts. |
| HttpClient.Response.Exactly | python/lib/collabo_core.py:120-125 | So many bytes, across any cuts. |
| HttpClient.Response.Fill | python/lib/collabo_core.py:105-109 | What is still to be read does not change. |
| HttpFraming.WriteBody | host/http-protocol.js:236-250 | Each piece with its length, empty ones left out, then the trailer. |
| HttpFraming.DecodeAll | host/http-protocol.js:286-318 | The cursor's loops, NaN and negative places included, decode as the specification does, for any number of turns. |
| FuseNodesProofs.RunKeeps | engine/src/fs.rs:381-444 | In every run of requests, READDIR and DESTROY among them: each node's parent is in the table, its children and handles are what it counts, every ids entry names a live node with that path, and paths are in the share, also those of listings kept from before a rename. |
| FuseNodesProofs.InvStep | engine/src/fs.rs:381-832 | Every request keeps this, whatever the host's own calls answer. |
| FuseNodesProofs.ReadDirPinsNothing | engine/src/fs.rs:742-805 | After a READDIR, from any offset and with a listing however old, no node is left that was not there before, and every node the guest may name or has open is still there, unchanged but for its count of children. |
| FuseNodesProofs.DestroyCloses | engine/src/fs.rs:827-832 | DESTROY, in whatever order the handles come, leaves no handle and no node held open. |
| FuseNodesProofs.ListingInside | engine/src/fs.rs:751-780 | What a READDIR goes through is in the share: the listing it kept, or the host's names that could be looked up. |
| FuseNodesProofs.DropKeeps | engine/src/fs.rs:396-411 | A dropped node is named by nothing, and its parent counted it: the subtraction does not saturate. |
| FuseNodesProofs.CloseKeeps | engine/src/fs.rs:437-444 | A closed handle was counted by its node. |
| FuseNodesProofs.MoveKeeps | engine/src/fs.rs:634-662 | A moved node was counted by its old parent, and is by its new one. |
| FuseNodesProofs.CollectDropsUnneeded | engine/src/fs.rs:396-411 | Collecting drops no node the guest may name or has open. |
| FuseNodesProofs.ParentsStay | engine/src/fs.rs:396-411 | Nor one with a node in it. |
| FuseNodesProofs.ChildInside | engine/src/fs.rs:455-461 | A valid name in a known directory always gives a path inside the share, and nothing else does. |
| FuseNodesProofs.EnterNames | engine/src/fs.rs:519-525 | LOOKUP, MKDIR and SYMLINK: the path has an id, the one it had or a new one in its parent, with one lookup more; no other path, node or handle changes. |
| FuseNodesProofs.CreateOpens | engine/src/fs.rs:678-691 | CREATE: the same, and the next handle is that node's. |
| FuseNodesProofs.ForgetExactly | engine/src/fs.rs:413-418 | FORGET takes its count off, floored at nothing; the node and its name are gone exactly if nothing else needs it. |
| FuseNodesProofs.UnlinkForgets | engine/src/fs.rs:622-633 | UNLINK and RMDIR: a path's node nobody has open goes with its name, any other keeps everything but its lookups; an unknown path changes nothing. |
| FuseNodesProofs.RenameMoves | engine/src/fs.rs:634-662 | RENAME, the old directory still needed: the id of the old path is that of the new one, path and parent follow, and no other name, node or handle changes. |
| FuseNodesProofs.RenameKeepsOthers | engine/src/fs.rs:634-662 | RENAME always: every node the guest may name or has open is there as it was, the moved one with its new path and parent, and no path leads to another id than it did. |
| FuseNodesProofs.CollectClears | engine/src/fs.rs:396-411 | Collecting stops nowhere too soon: the parent of a dropped node is dropped too, or is needed. |
| FuseDevice.FsDevice.Process | engine/src/fs.rs:519-832 | One request does to the table what the specification says, and keeps the invariant. |
| FuseDevice.FsDevice.ReadDirectory | engine/src/fs.rs:742-805 | The listing kept or read, its entries interned, then all of them collected. |
| FuseDevice.FsDevice.Collect | engine/src/fs.rs:396-411 | The loop ends, and drops what the specification drops. |
| FuseDevice.FsDevice.Intern | engine/src/fs.rs:381-394 | The id of a path, old or new. |
| FuseDevice.FsDevice.ForgetNode | engine/src/fs.rs:413-418 | Lookups given back, then collected. |
| FuseDevice.FsDevice.AddHandle | engine/src/fs.rs:427-435 | A handle more, counted. |
| FuseDevice.FsDevice.RemoveHandle | engine/src/fs.rs:437-444 | A handle less, and the node collected. |
| FuseDevice.FsDevice.RenameNode | engine/src/fs.rs:634-662 | The moved node keeps its id; path and parent follow it. |

## Left out

- Wasmtime, compiling, traps and user programs (engine/src/machine.rs, engine/src/user.rs, engine/src/program_cache.rs), and the rewriting of modules in engine/src/dylink.rs: library behaviour not visible in this repository.
- TLS interception, DNS, ICMP, ARP, policy lists, ssh-agent, host functions and the JSON control protocol: one decision each, with no state to keep.
- Web, Flutter and launcher user interfaces, packaging and build scripts.
- sqlite-shm.c: opening and closing nodes, the dead-man switch, read-only nodes, refused mappings, I/O errors.
- virtio.rs: memory bounds of buffers, a driver that breaks the protocol, device set-up and interrupts.
- dylink.rs: a library that exports one function under two names (they are two here), data symbols, thread-local storage, fork, and what a load that fails part-way leaves.
- net.rs: opening and refusing by policy, RST, errors of the host socket, checksums and headers, and one flush over several connections.
- vsock.rs: waiting, deadlines, closing and the registry of connections; each of write_all's turns is a step.
- image_fs.rs: reading archives from disk, answering FUSE requests, and the link counts of directories (a replaced empty directory still counts in its old parent).
- zip-store.js: times, modes and owners, saving and loading through a backing store, listings. Update in place of node objects is an update of the node under its number.
- zip.js and zip.rs: the calendar behind DOS times, and collecting a folder's files.
- cpio: names that are not UTF-8 are refused by the code; here a name is any bytes.
- http-protocol.js and collabo_core.py: requests, what header fields mean, and the errors behind a refused trailer; numbers beyond 2^53, which parseInt rounds, lie past the end of a response either way.
- fs.rs: the host's file system itself, whose answers are part of each request, reading and writing files, the bytes of answers, and Windows, where a name with a backslash is refused too.
- serial.rs: case folding on Windows, USB patterns and the serial line.
- WalIndexNode.ShmNode.MapRegion: does not state refused mappings, extending the file for a new region or read-only nodes, because they are single refusals that change no word.
- WalIndexNode.ShmNode.FlushNode: loads each word once where the code may reload it for the next run; stores between runs are steps of the protocol model.
- DylinkThread.Thread.Sym: does not model data symbols, whose address is a sum, or the error for an unknown handle.
- ZipStoreFs.Store.ImportEntry: states one entry; importZip is this for each entry in order.
- Cpio.ReadEntries: does not refuse names that are not UTF-8, because names are any bytes here.
- HttpFraming.DecodeAll: is bounded by a number of turns, because the code's last loop may never end.
- HttpClient.Response.Request: says whether int() takes the status code, not which number it is, nor the reason.
- HttpReaders.ReadersAgree: compares completeness and bodies; the status number may differ (`2000 x` is 200 to one and 2000 to the other).
- HttpLengths.LengthLinesExactly: is for ASCII lines, because int() reads digits of other scripts by tables of Unicode.
- ImageTreeLinks.CountLinks: states nothing of a directory's count, because the code's is not the number of its subdirectories.
- FuseNodesProofs.RunKeeps: does not bound lookups below u64, because the code does not either.
