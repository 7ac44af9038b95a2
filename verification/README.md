# Verified models of the TabLinux machine

TabLinux runs Linux on a RISC-V machine in a browser tab. Much of that machine consists of fast or
indirect mechanisms that must agree with something simple: a software TLB with the page tables, a 9p
folder listed on demand with the folder, batched time with single steps, an interrupt index with a
scan, a sparse snapshot with the machine, a blob patched in place with the tree it prints. This
project models those mechanisms in Dafny and proves the agreements, for all inputs and over whole
runs. `dafny verify dfyconfig.toml` checks everything.

Code that updates state is modelled by classes and loops (`Mmu`, `Controller`, `Device`,
`VirtioMmio`, `DeviceBus`, `VirtioBlk`, `GuestMem`, `Emitter`, `Writer`, `Reader`, `Cpu`, and the
in-place patchers). Each method is proved equal to a specification function, and the results are
lemmas about those functions. Those results in turn are told from the outside where they can be:
from page tables spelled by their indices, descriptors and headers spelled in bytes, instructions
assembled from the specification's tables, directories listed by a client. Where the source can fail
or panic, so does the model, by an `Option` or an error value.

| files | what they model |
|---|---|
| `Mmu.dfy` | Sv39 translation (sections 4.3.2 and 4.4 of the RISC-V Privileged Architecture) behind a 4-way, 64-set TLB |
| `Devicetree.dfy`, `DevicetreeFormat.dfy`, `DevicetreeParser.dfy`, `DevicetreePatch.dfy`, `DevicetreePanic.dfy` | printing, parsing and patching flattened devicetrees (sections 5.4 and 5.5 of the Devicetree Specification) |
| `Plic.dfy` | the interrupt controller and its derived index of claimable sources |
| `NinepTree.dfy`, `NinepServer.dfy`, `NinepDevice.dfy`, `NinepSeed.dfy` | the inode tree, the messages of 9P2000.L, the device in place, seeding and listing |
| `NinepHost.dfy`, `NinepLazy.dfy`, `NinepPark.dfy`, `NinepSession.dfy` | a server that reads the host folder directly, folders listed on demand, parked requests, and whole sessions |
| `NinepReaddir.dfy`, `NinepEffects.dfy` | what a client sees: a directory listed reply by reply, and what each change does to paths and contents |
| `NinepWriteback.dfy` | the record of changes and its replay on the host |
| `GuestMemory.dfy`, `Virtqueue.dfy`, `Transport.dfy`, `UsedRing.dfy`, `NinepChains.dfy`, `DeviceClock.dfy` | scatter lists, split virtqueues (section 2.7 of Virtio 1.2), deferred completions, used rings, chains held by the 9p device, and batched time |
| `Block.dfy` | the block device (section 5.2 of Virtio 1.2) over an in-memory disk |
| `DriverRing.dfy`, `BlockDriver.dfy`, `EndToEnd.dfy` | the driver's side in bytes: descriptors, rings and request headers it prints, and a request from kick to used ring |
| `Snapshot.dfy`, `SnapshotLayout.dfy`, `SnapshotStream.dfy` | saving and loading the machine |
| `Instructions.dfy`, `Codec.dfy`, `WideCodec.dfy`, `DecodeListing.dfy` | encoding, and decoding against the instruction listings (chapter 24 of the RISC-V Unprivileged ISA) |
| `Compressed.dfy`, `Rvc.dfy` | expanding compressed instructions, and an assembler of their forms (chapter 16) |
| `Multiply.dfy` | the M extension (chapter 7) |
| `Checksum.dfy` | the Internet checksum (RFC 1071) and its incremental update (section 3 of RFC 1624) in echo replies |
| `Bytes.dfy` | byte strings and fixed-width integers |

## Where a property fails

In these places the code does less than its documentation or its neighbours suggest. The model does
what the code does, and the named lemmas give the exact condition.

- A sector number of 2^55 or more in a write acts on the sector it is congruent to; reads have no such
  case (`Block.OutIsFaithfulBelowWrap`, `Block.InIsArrayRead`).
- In user mode the U bit of a leaf is not consulted, so user code may use supervisor pages that R, W and X
  allow (`Sv39.TranslationExactly`).
- A write to, or a resize of, a listed file whose contents the host has not delivered acts on an empty file:
  the rest turns into zeros, or comes back uncut (`NinepEffects.WriteKeepsTheRest`,
  `NinepEffects.AppendToUnread`, `NinepEffects.ResizeKeepsTheRest`).
- A listing stops for good before an entry that does not fit into one reply (`NinepReaddir.ListsAllExactly`).
- The halfwords the source takes for c.lbu, c.sb, c.lhu and c.sh are not laid out as the Zcb extension has
  them; they agree only for three offsets (`Rvc.ByteFormsExpandExactly`, `Rvc.BytesAsTheSourceHasThem`).
- A fence is decoded with its predecessor and successor sets exchanged (`DecodeListing.FenceListed`).
- A queue whose size does not divide 2^16 loses its place when the index wraps (`Virtqueue.DrainCondition`,
  `Virtqueue.WrapCondition`).
- The comment on `patch_memory` promises an answer of false for a malformed tree. Both patchers panic
  instead when the last property the token walk reaches does not fit into the blob
  (`DevicetreePanic.MemoryPanicsExactly`, `DevicetreePanic.InitrdPanicsExactly`).
- `patch_initrd` can answer false after rewriting the blob, when there are candidates but not two
  (`DevicetreePatch.FalseButWrittenExactly`).
- `put_file` and `mkdir_p` through a file add a second child of that name (`NinepSeed.PutFileKeepsTree`,
  `NinepSeed.MkdirPKeepsTree`).
- Replayed changes do not restore a path that changed between file and directory
  (`NinepWriteback.WriteBackRoundTrip`).
- A message can record what is not so: through a fid whose inode is no longer linked, under a name with a
  slash, or by resizing a directory (`NinepWriteback.HandleKeepsTracked`). The mirror then loses a directory
  that is still there (`NinepWriteback.UnlinkedFidDeletesTheParent`) or never gets one that was made
  (`NinepWriteback.ResizedDirectoryIsForgotten`).
- A snapshot drops a partial last page of memory, and a gap between occupied slots would close
  (`Snapshot.SnapshotRoundTrip`); attaching never leaves a gap (`Snapshot.AttachKeepsPrefix`).
- A double-precision store is encoded with the opcode of integer stores, and operands too wide for their
  fields spill into others (`Codec.RoundTripExactly`, `WideCodec.WideRoundTripExactly`).
- The checksum accumulator wraps at 2^32, and what is summed beyond may not verify
  (`Checksum.ChecksumVerifies`, `Checksum.LongOnesDoNotVerify`).
- The product in `mulhsu` can exceed 128 bits (`Multiply.MixedOverflows`), where a build with overflow checks
  panics; with wrapping arithmetic the result is right all the same (`Multiply.MixedProductIsExact`).

## Model

| member | source | states |
|---|---|---|
| `Mmu.Run` | crates/riscv-supervisor/src/mmu.rs:115-192 | over any run of accesses and of remappings followed by a flush, every outcome and the final memory are those of a machine with no TLB, whatever was cached, evicted, duplicated or stale |
| `Mmu.Mmu.Translate` | crates/riscv-supervisor/src/mmu.rs:115-192 | with a coherent TLB: outcome and memory equal the TLB-free translation (walk, identity fallback, permission, A/D update), and the TLB stays coherent |
| `Mmu.HitAgreesWithWalk` | crates/riscv-supervisor/src/mmu.rs:216-233 | a truthful entry whose cached A/D bits suffice answers what the walk, the permission check and the A/D update answer, with memory unchanged |
| `Mmu.TruthfulSurvivesAdUpdate` | crates/riscv-supervisor/src/mmu.rs:203-214 | an entry that was true of memory stays true, up to stale A/D bits, when any page-table words gain A/D bits |
| `Mmu.AfterAdUpdate` | crates/riscv-supervisor/src/mmu.rs:178-192 | after the A/D update of one translation every cached entry is still true, and so is the entry about to be cached |
| `Mmu.Mmu.Refill` | crates/riscv-supervisor/src/mmu.rs:178-192 | the tail of a permitted miss leaves exactly the updated leaf in memory and keeps the TLB coherent |
| `Mmu.Mmu.WalkSv39` | crates/riscv-supervisor/src/mmu.rs:284-361 | the level loop computes the recursive three-level walk: leaf with address, size, flags and its own address, or no leaf |
| `Mmu.Mmu.SetAd` | crates/riscv-supervisor/src/mmu.rs:196-214 | writes exactly one word, only if A (or D on a store) is missing, and returns the flags memory then holds |
| `Mmu.Tlb.Lookup` | crates/riscv-supervisor/src/mmu.rs:58-74 | answers the first match by page size (4K, 2M, 1G) and then way, and nothing exactly if no valid entry matches |
| `Mmu.Tlb.Insert` | crates/riscv-supervisor/src/mmu.rs:76-88 | replaces exactly one way, the round-robin victim of the set of the page number, advances that counter only, and the entry is matched by every address of its page |
| `Mmu.Tlb.Flush` | crates/riscv-supervisor/src/mmu.rs:37-44 | no entry is valid afterwards and all counters are zero |
| `Mmu.Mmu.FlushTlb` | crates/riscv-supervisor/src/mmu.rs:113 | afterwards the TLB is coherent with any memory and any root |
| `Sv39.WalkIgnoresAdBits` | crates/riscv-supervisor/src/mmu.rs:284-361 | turning on A/D bits anywhere changes no walk in level, address or permissions; the reported A/D bits only grow |
| `Sv39.WalkIsPerPage` | crates/riscv-supervisor/src/mmu.rs:308-361 | two addresses of the page a walk ends at walk to the same leaf, for every level |
| `Sv39.FailingWalkIsPerPage` | crates/riscv-supervisor/src/mmu.rs:284-361 | a walk without a leaf fails for the whole 4 KiB page |
| `Sv39.WalkReportsItsLeaf` | crates/riscv-supervisor/src/mmu.rs:284-361 | what a walk reports is what memory holds at the leaf address it reports |
| `Sv39.WalkTouchesAlignedWords` | crates/riscv-supervisor/src/mmu.rs:308-361 | every entry a walk reads lies at a multiple of 8, at most one for each level, and the leaf is the last |
| `Sv39.WalkReadsNothingElse` | crates/riscv-supervisor/src/mmu.rs:308-361 | two memories that agree on the entries a walk reads give the same walk |
| `Sv39.UpdateAdTouchesTheLeaf` | crates/riscv-supervisor/src/mmu.rs:203-214 | the A/D update of a walk changes at most the leaf and only by adding A/D bits |
| `Sv39.AdDiscipline` | crates/riscv-supervisor/src/mmu.rs:178-214 | a fault leaves memory unchanged; a success through the tables leaves the leaf accessed, and dirty after a store, and every other word alone |
| `Sv39.WalksSurviveTranslation` | crates/riscv-supervisor/src/mmu.rs:178-214 | whatever a translation writes, every walk of every address from every root keeps its level, physical address and R/W/X/U |
| `Sv39.SmallPage` | crates/riscv-supervisor/src/mmu.rs:284-361 | told without the walk's own address arithmetic: if root entry i2 points to a table and its entry i1 to another, the address spelled (i2, i1, i0, offset) walks to page frame * 4096 + offset of that table's entry i0, which is the leaf reported, or to nothing exactly if that entry maps nothing |
| `Sv39.LargePage` | crates/riscv-supervisor/src/mmu.rs:284-361 | if root entry i2 points to a table whose entry i1 maps, the address walks to that frame plus i0 pages plus the offset; nothing if the entry refuses or its frame is not a multiple of 512 |
| `Sv39.HugePage` | crates/riscv-supervisor/src/mmu.rs:284-361 | if root entry i2 itself maps, the address walks to that frame plus i1 * 512 + i0 pages plus the offset; nothing if it refuses or its frame is not a multiple of 2^18 |
| `Sv39.CanonicalIsSignExtended` | crates/riscv-supervisor/src/mmu.rs:132-135 | the addresses that are walked at all are those below 2^38 and from 2^64 - 2^38 on |
| `Sv39.TranslationExactly` | crates/riscv-supervisor/src/mmu.rs:115-277 | the outcome of a translation from the walk alone, every refusal spelled out: holes, the identity range, R/W/X with MXR, and supervisor access to user pages with SUM; user mode does not consult U |
| `PteLayout.WordRoundTrip` | crates/riscv-supervisor/src/mmu.rs:304-361 | unpacking a word and packing it again gives the word |
| `PteLayout.FieldsRoundTrip` | crates/riscv-supervisor/src/mmu.rs:304-361 | packing fields into a word and unpacking gives them back |
| `PteLayout.WordIsLaidOut` | crates/riscv-supervisor/src/mmu.rs:304-361 | an entry as a number: V, R, W, X, U, G, A, D are bits 0 to 7, two software bits, the frame from bit 10 and the rest from bit 54 |
| `PteLayout.OrSetsAccessedAndDirty` | crates/riscv-supervisor/src/mmu.rs:203-214 | OR-ing 0x40, and 0x80 on a store, sets exactly A and D and no other field |
| `PteLayout.RawWalkIsWalk` | crates/riscv-supervisor/src/mmu.rs:308-361 | the walk on words, by bit tests, is the walk on the entries they encode |
| `PteLayout.MarkingCommutes` | crates/riscv-supervisor/src/mmu.rs:203-214 | storing the marked word is marking the entry, so words stay the encoding of the entries |
| `PteLayout.EveryMemoryIsDecoded` | crates/riscv-supervisor/src/mmu.rs:308-361 | every memory of entries whose fields fit in a word is what some words decode to |
| `DevicetreeParser.ParseInvertsSerialize` | kernels/gen_dtb_v2.py:59-156 | parse after serialize gives the tree back, for every tree with NUL-free ASCII names and any property bytes |
| `DevicetreeParser.SerializeIsInjective` | kernels/gen_dtb_v2.py:109-156 | two well-named trees never share a blob |
| `Devicetree.SerializeTree` | kernels/gen_dtb_v2.py:109-156 | the recursive emitter over growing buffers computes the blob of the tree: header, structure block, deduplicated string table |
| `Devicetree.Emitter.StrOff` | kernels/gen_dtb_v2.py:113-122 | interns the string: the old offset if known, otherwise appended with its NUL |
| `Devicetree.Emitter.AddProp` | kernels/gen_dtb_v2.py:124-146 | appends exactly the property token, its header, its bytes and the padding |
| `Devicetree.Emitter.Emit` | kernels/gen_dtb_v2.py:124-146 | appends exactly the printed tokens of the subtree, with the string table threaded through |
| `Devicetree.InternKeepsOffsets` | kernels/gen_dtb_v2.py:113-122 | every offset handed out before stays valid as the table grows |
| `DevicetreeFormat.HeaderIsPlain` | kernels/gen_dtb_v2.py:147-156 | the header of a printed blob, byte for byte: magic 0xd00dfeed, sizes, offsets, version 17, compatible with 16, and the blocks where it says |
| `DevicetreeFormat.PrintedIsPlain` | kernels/gen_dtb_v2.py:109-146 | the structure block spelled out for any tree, tokens 1, 2, 3 and 9, names and values padded to four, and every name at the offset its properties give |
| `DevicetreeParser.ParseBlob` | kernels/gen_dtb_v2.py:59-107 | the loop with a position, a root and a node stack computes the parse function, error cases included |
| `DevicetreeParser.TakeItem` | kernels/gen_dtb_v2.py:66-107 | decodes the token at a position with everything that belongs to it, or fails where the source does |
| `DevicetreeParser.PopNode` | kernels/gen_dtb_v2.py:85-107 | popping completes the node in its parent |
| `DevicetreeParser.PrintedReads` | kernels/gen_dtb_v2.py:59-156 | printed tokens read back as themselves, token after token, across padding and string offsets |
| `DevicetreeParser.ApplyChild` | kernels/gen_dtb_v2.py:85-107 | inside an open node the tokens of a subtree add exactly that subtree as the last child |
| `DevicetreePatch.PatchMemoryCommutes` | crates/riscv-machine/src/fdt.rs:109-181 | patching a printed tree is printing the tree whose last 16-byte `reg` under a memory node is replaced; the answer is true and no other byte changes |
| `DevicetreePatch.PatchMemoryRefuses` | crates/riscv-machine/src/fdt.rs:109-181 | without such a property the answer is false and the blob unchanged |
| `DevicetreePatch.MarksAreSpelled` | crates/riscv-machine/src/fdt.rs:137-172 | the properties patched are a 16-byte reg in a memory node and 8-byte linux,initrd-start and linux,initrd-end |
| `DevicetreePatch.PatchInitrdCommutes` | crates/riscv-machine/src/fdt.rs:26-90 | patching a printed tree is printing the tree with its last start and last end replaced; the answer is true exactly if there are two candidates in all |
| `DevicetreePatch.HalfInitrdIsStillPatched` | crates/riscv-machine/src/fdt.rs:26-90 | with a start and no end the start is rewritten although the answer is false (unless there were two starts) |
| `DevicetreePatch.LoneEndIsStillPatched` | crates/riscv-machine/src/fdt.rs:26-90 | the same with an end and no start |
| `DevicetreePatch.PatchInitrdRefuses` | crates/riscv-machine/src/fdt.rs:26-90 | with neither, the answer is false and the blob unchanged |
| `DevicetreePatch.FalseButWrittenExactly` | crates/riscv-machine/src/fdt.rs:26-90 | on printed trees the answer can be false with the blob changed if and only if the number of candidates is neither 0 nor 2 |
| `DevicetreePanic.MemoryPanicsExactly` | crates/riscv-machine/src/fdt.rs:109-181 | for every blob: patch_memory panics if and only if the blob passes the checks at the top and the last token the walk reaches is a property with a cut-off header, or a 16-byte `reg` inside a memory node with a cut-off value; otherwise false leaves the blob as it was |
| `DevicetreePanic.InitrdPanicsExactly` | crates/riscv-machine/src/fdt.rs:26-90 | for every blob: patch_initrd panics if and only if the last token reached is a property with a cut-off header, or an 8-byte initrd start or end with a cut-off value |
| `DevicetreePanic.ScanEnds` | crates/riscv-machine/src/fdt.rs:137-172 | how any scan ends, told from the last token it reaches and the node it is in there |
| `DevicetreePanic.CutOffIsLast` | crates/riscv-machine/src/fdt.rs:137-172 | a header that does not fit is the last token reached, wherever it stands |
| `DevicetreePanic.CutOffPropertyPanics` | crates/riscv-machine/src/fdt.rs:150-170 | such blobs exist: cut off inside the header of the first property, both patchers panic |
| `DevicetreePatch.PatchMemoryInPlace` | crates/riscv-machine/src/fdt.rs:109-181 | the in-place patcher computes the patch function on any bytes; an answer of false leaves every byte alone |
| `DevicetreePatch.PatchInitrdInPlace` | crates/riscv-machine/src/fdt.rs:26-90 | the in-place patcher computes the patch function on any bytes, its panic included |
| `DevicetreePatch.ScanLoop` | crates/riscv-machine/src/fdt.rs:137-172 | the token loop computes the scan with depth, memory-node state and the places found |
| `DevicetreePatch.StepTree` | crates/riscv-machine/src/fdt.rs:137-172 | scanning a subtree finds exactly its marked properties in order and comes back to the depth and memory state it had |
| `DevicetreePatch.PrintEdited` | crates/riscv-machine/src/fdt.rs:73-90 | replacing a value by one of the same length overwrites exactly those bytes of the printed blob |
| `Plic.BestIsLowestOfMaximalPriority` | crates/riscv-devices/src/device_bus.rs:84-104 | the choice is the lowest-numbered source of maximal priority among asserted, unclaimed, enabled sources above threshold, and 0 exactly if there is none |
| `Plic.Controller.FindBest` | crates/riscv-devices/src/device_bus.rs:84-104 | the walk over the bits of the claimable index finds what a plain scan over every source finds |
| `Plic.Controller.FindAnyPending` | crates/riscv-devices/src/device_bus.rs:106-111 | true exactly if some context has an eligible source |
| `Plic.Controller.SetLevel` | crates/riscv-devices/src/device_bus.rs:63-69 | changes one level and keeps the index exact: bit i iff asserted and not claimed |
| `Plic.Controller.RecalcClaimable` | crates/riscv-devices/src/device_bus.rs:70-78 | makes the bit of one source exact and leaves the others as they were |
| `Plic.Controller.Claim` | crates/riscv-devices/src/device_bus.rs:113-121 | returns the best source, marks it claimed, keeps the index exact |
| `Plic.Controller.Complete` | crates/riscv-devices/src/device_bus.rs:122-127 | unclaims the named source, ignores numbers out of range, keeps the index exact |
| `Plic.Controller.ReadRegister` | crates/riscv-devices/src/device_bus.rs:661-698 | a load from any offset: its value and its effect; loading a claim register claims |
| `Plic.Controller.WriteRegister` | crates/riscv-devices/src/device_bus.rs:700-725 | a store to any offset: the whole new state; storing to a claim register completes |
| `Plic.Controller.Restore` | crates/riscv-devices/src/device_bus.rs:1106-1129 | takes over a saved state with the index recomputed equal |
| `Plic.Controller.SkipIdle` | crates/riscv-devices/src/device_bus.rs:84-104 | sources without a claimable bit do not change the outcome of the scan |
| `Plic.SettingsReadBack` | crates/riscv-devices/src/device_bus.rs:661-725 | a store to a priority, enable word or threshold is what a later load gives, every other setting keeps its value, and lines and claims are untouched |
| `Plic.RegistersShow` | crates/riscv-devices/src/device_bus.rs:661-698 | what the registers show: priority and threshold, pending as asserted and not claimed, enable bit by bit |
| `Plic.ClaimExactly` | crates/riscv-devices/src/device_bus.rs:661-725 | told from register reads alone: a claim gives 0 exactly if nothing is ready, otherwise a ready source that none ready exceeds in priority and none of equal priority precedes |
| `Plic.ClaimHides` | crates/riscv-devices/src/device_bus.rs:661-698 | a claim hides the source it gives from the pending words and changes no other pending bit and no setting |
| `Plic.LinesShow` | crates/riscv-devices/src/device_bus.rs:63-69 | raising or lowering a line, and completing, show in the pending word as they should |
| `Plic.NumberOfBits` | crates/riscv-devices/src/device_bus.rs:661-725 | an enable word reads back as the number written |
| `Plic.ClearLowestIsTheWordStep` | crates/riscv-devices/src/device_bus.rs:84-104 | the step `w & (w - 1)` of the bit loop on machine words is the step the loop on bits takes |
| `Plic.ClearLowestOnWords` | crates/riscv-devices/src/device_bus.rs:84-104 | on the low bits of a machine word it clears exactly the first set one |
| `Plic.StaysInService` | crates/riscv-devices/src/device_bus.rs:113-127 | a claimed source stays claimed through any events that do not complete it |
| `Plic.NoReclaimBeforeCompletion` | crates/riscv-devices/src/device_bus.rs:113-127 | over any run, between two claims of one source from any contexts there is a store completing it |
| `NinepTree.AttachKeepsTree` | crates/riscv-devices/src/virtio_9p.rs:160-174 | linking a new inode under an unused name keeps: indices in range, parent below child, names unique, one link per inode |
| `NinepTree.DetachKeepsTree` | crates/riscv-devices/src/virtio_9p.rs:853-862 | dropping the links to an inode keeps the invariant |
| `NinepTree.PathOfFollow` | crates/riscv-devices/src/virtio_9p.rs:175-199 | a path that resolves is the path of the inode it resolves to |
| `NinepTree.FollowPathOf` | crates/riscv-devices/src/virtio_9p.rs:175-199 | the path of every linked inode resolves to it |
| `NinepTree.FollowAttach` | crates/riscv-devices/src/virtio_9p.rs:620-667 | linking changes what exactly one path resolves to |
| `NinepTree.FollowDetach` | crates/riscv-devices/src/virtio_9p.rs:794-817 | unlinking a childless inode changes what exactly one path resolves to |
| `NinepTree.FollowUntouched` | crates/riscv-devices/src/virtio_9p.rs:175-184 | changes to inodes that are not linked change no path |
| `NinepTree.SplitJoin` | crates/riscv-devices/src/virtio_9p.rs:175-199 | joining slash-free non-empty names with slashes and splitting gives the names back |
| `NinepTree.ResolveJoinedPath` | crates/riscv-devices/src/virtio_9p.rs:175-199 | the path string of a linked inode resolves to that inode |
| `NinepTree.JoinIsInjective` | crates/riscv-devices/src/virtio_9p.rs:186-199 | two component paths with one string are equal |
| `NinepTree.JoinIsSpelled` | crates/riscv-devices/src/virtio_9p.rs:186-199 | a path is its names with a slash between each two |
| `NinepServer.Handle` | crates/riscv-devices/src/virtio_9p.rs:505-862 | every message keeps the tree invariant and all fids in range |
| `NinepServer.DeferringChangesNothing` | crates/riscv-devices/src/virtio_9p.rs:470-503 | a message that waits for the host changes neither inodes nor fids nor records, and waits only for something unloaded of the right kind |
| `NinepServer.ReadAfterWrite` | crates/riscv-devices/src/virtio_9p.rs:668-714 | a read of what was just written gives it back, whatever the file held and wherever it was put |
| `NinepServer.OverwrittenByte` | crates/riscv-devices/src/virtio_9p.rs:689-714 | a write changes exactly the bytes it covers; a gap before it reads as zeros |
| `NinepServer.ResizedByte` | crates/riscv-devices/src/virtio_9p.rs:765-788 | truncation and extension keep every byte below the new size |
| `NinepReaddir.ReaddirExactly` | crates/riscv-devices/src/virtio_9p.rs:715-764 | the reply past a cookie is the entries of the directory from that position on, two synthetic ones first, each numbered by its position, as many as fit into the count and one more would not |
| `NinepReaddir.ResumingLists` | crates/riscv-devices/src/virtio_9p.rs:715-764 | a client that resumes with the last cookie until an empty reply has together got the entries from its start up to the first that does not fit, in order, each once |
| `NinepReaddir.ResumingEnds` | crates/riscv-devices/src/virtio_9p.rs:715-764 | such a listing ends after at most one reply per entry and one empty one |
| `NinepReaddir.ListsAllExactly` | crates/riscv-devices/src/virtio_9p.rs:715-764 | it lists the whole directory if and only if every entry fits into a reply by itself |
| `NinepEffects.ChangeExactly` | crates/riscv-devices/src/virtio_9p.rs:620-862 | create, mkdir, write, setattr, remove and unlinkat through a linked fid, told from paths and contents alone: each is refused with the error its rule gives and changes nothing, or changes what is at one path as its rule says, every other path keeping what it had |
| `NinepEffects.CreateWriteRead` | crates/riscv-devices/src/virtio_9p.rs:620-714 | create, write at 0 and read through one fid give the bytes back, and getattr gives their size and the mode asked for |
| `NinepEffects.MkdirWalkList` | crates/riscv-devices/src/virtio_9p.rs:647-667 | a directory just made is walked to by its name and lists as empty, itself and its parent aside, without a request to the host |
| `NinepEffects.AttributesReadBack` | crates/riscv-devices/src/virtio_9p.rs:765-788 | getattr after setattr gives the mode and size that were set and otherwise what it gave before |
| `NinepEffects.UnknownFidIsRefused` | crates/riscv-devices/src/virtio_9p.rs:505-862 | any message through a fid that is not open is answered with error 9 and changes nothing |
| `NinepEffects.OtherRefusals` | crates/riscv-devices/src/virtio_9p.rs:536-579 | a missing name is error 2, a count without names 22, reading a directory 21, listing a file 20, an unknown message 38, none changing anything |
| `NinepEffects.VersionExactly` | crates/riscv-devices/src/virtio_9p.rs:507-523 | version closes every fid, agrees on at most 131072 bytes and accepts exactly 9P2000.L |
| `NinepEffects.WriteKeepsTheRest` | crates/riscv-devices/src/virtio_9p.rs:689-714 | a write leaves the file as its old contents with the bytes put over them if and only if the contents had been delivered, or there was nothing but zeros to keep |
| `NinepEffects.AppendToUnread` | crates/riscv-devices/src/virtio_9p.rs:689-714 | appending to a file that is listed and not yet read turns everything before into zeros |
| `NinepEffects.ResizeKeepsTheRest` | crates/riscv-devices/src/virtio_9p.rs:765-788 | a resize leaves the file as its old contents cut or extended if and only if they had been delivered or what stays is zeros; before delivery a read then fetches the old contents again |
| `NinepServer.Deliver` | crates/riscv-devices/src/virtio_9p.rs:1001-1045 | whatever bytes the host sends, delivery keeps the invariant and only adds inodes |
| `NinepServer.AddStubs` | crates/riscv-devices/src/virtio_9p.rs:205-229 | any list of records keeps the invariant: reserved and known names are skipped |
| `NinepPark.Submit` | crates/riscv-devices/src/virtio_9p.rs:956-991 | a message leaves the tree sound and every parked request pointing into it at something of the right kind |
| `NinepPark.Supply` | crates/riscv-devices/src/virtio_9p.rs:1001-1045 | so does an answer from the host |
| `NinepPark.HandleGrows` | crates/riscv-devices/src/virtio_9p.rs:505-862 | no message removes an inode number or changes the kind of an inode, so parked requests stay meaningful |
| `NinepHost.HandleAgrees` | crates/riscv-devices/src/virtio_9p.rs:524-610 | on any tree that stands for a host folder, loaded or not, an answered read-only message gets the reply, and moves the session as, a server that reads the folder directly does |
| `NinepHost.AnswersWithin` | crates/riscv-devices/src/virtio_9p.rs:536-609 | every inode number an answered read-only message gives out is in the table |
| `NinepHost.NumberingGrows` | crates/riscv-devices/src/virtio_9p.rs:205-229 | as the table grows a reply keeps its meaning |
| `NinepHost.PlaceIsPath` | crates/riscv-devices/src/virtio_9p.rs:186-199 | in such a tree the path of an inode is the host path it stands for |
| `NinepHost.PlacesAreDistinct` | crates/riscv-devices/src/virtio_9p.rs:160-199 | distinct inodes stand for distinct host paths, so the renumbering is one to one |
| `NinepHost.InspectAgrees` | crates/riscv-devices/src/virtio_9p.rs:668-688 | getattr, open, read and readdir agree with the folder, including offsets and the count limit |
| `NinepHost.WalkMessageAgrees` | crates/riscv-devices/src/virtio_9p.rs:536-579 | a walk of any names, `..` included, agrees with the folder, partial walks and errors included |
| `NinepLazy.RecordIsSpelled` | web/vm-worker.js:235-253 | a record as the worker prints it, byte by byte: length of the name, name, 1 for a directory, size little-endian |
| `NinepLazy.ListingRoundTrip` | web/vm-worker.js:235-253 | what the worker prints as a listing of UTF-8 names parses to the same records |
| `NinepLazy.ListingRepresents` | crates/riscv-devices/src/virtio_9p.rs:205-229 | an honest listing turns a tree that stands for the folder into one that does, with the directory loaded and no inode renumbered |
| `NinepLazy.ContentsRepresent` | crates/riscv-devices/src/virtio_9p.rs:1001-1045 | honest bytes do the same for a file |
| `NinepLazy.WalkAdvances` | crates/riscv-devices/src/virtio_9p.rs:536-579 | once the directory a walk stopped at is listed, the walk answers or stops strictly later |
| `NinepLazy.DeliveryGoesDeeper` | crates/riscv-devices/src/virtio_9p.rs:1001-1045 | each honest delivery brings the waiting message strictly nearer its answer, below one delivery per name |
| `NinepLazy.DeliveryRepresents` | crates/riscv-devices/src/virtio_9p.rs:1001-1045 | each honest delivery keeps the tree standing for the folder and the session where it was |
| `NinepSession.Compare` | crates/riscv-devices/src/virtio_9p.rs:375-381 | for every folder and every read-only session: a device started lazy and one started empty and seeded both give the replies of a server that reads the folder directly, each under a single one-to-one renumbering of inodes for the whole session |
| `NinepSession.LazyEqualsSeeded` | crates/riscv-devices/src/virtio_9p.rs:470-503 | the same from any two idle devices that stand for the folder |
| `NinepSession.Converse` | crates/riscv-devices/src/virtio_9p.rs:956-1045 | one message to completion: the reply is the reply of a server on the folder, after at most one delivery per name, and none when seeded |
| `NinepSession.Run` | crates/riscv-devices/src/virtio_9p.rs:956-1045 | a whole read-only session: every reply is the reference reply under one renumbering, and every number given out names an inode |
| `NinepSession.Serve` | crates/riscv-devices/src/virtio_9p.rs:1001-1045 | answering the one outstanding request re-runs the parked message on the tree with the answer in it |
| `NinepSession.FreshLazyRepresents` | crates/riscv-devices/src/virtio_9p.rs:122-129 | an unlisted root stands for any folder |
| `NinepSeed.MkdirPKeepsTree` | crates/riscv-devices/src/virtio_9p.rs:263-276 | making directories keeps the invariant if and only if the path does not pass through a file |
| `NinepSeed.PutFileKeepsTree` | crates/riscv-devices/src/virtio_9p.rs:235-261 | putting a file keeps the invariant if and only if its directory part does not pass through a file |
| `NinepSeed.SeedRepresents` | web/vm-worker.js:346-371 | seeding an empty tree from a folder gives a tree without stubs that stands for the folder |
| `NinepSeed.SeedCompletes` | web/vm-worker.js:346-371 | walking the rest of any directory completes it and everything below, and leaves the rest alone |
| `NinepSeed.ListFilesIsExact` | crates/riscv-devices/src/virtio_9p.rs:278-298 | the listing holds exactly the linked files with their bytes, each once, under a path that resolves to it |
| `NinepWriteback.WriteBackRoundTrip` | crates/riscv-devices/src/virtio_9p.rs:916-936 | start in step, any run of messages each recorded truly, drain, replay in any order: tree and mirror are in step again if and only if no path changed between file and directory |
| `NinepWriteback.ReplayRestores` | web/main.js:383-398 | draining and replaying in any order makes the mirror equal to the tree if and only if no path changed its kind |
| `NinepWriteback.HandleKeepsTracked` | crates/riscv-devices/src/virtio_9p.rs:620-862 | a message keeps the record truthful if and only if what it records is true, told from the tree before it: for every kind of message, through linked and unlinked fids |
| `NinepWriteback.MarkedExactly` | crates/riscv-devices/src/virtio_9p.rs:367-371 | when at most one path changed, recording it is truthful if and only if the record says what is there, or the path is the root |
| `NinepWriteback.ReviseExactly` | crates/riscv-devices/src/virtio_9p.rs:689-714 | a recorded write or resize of any inode is truthful if and only if the path it records is the root or a file |
| `NinepWriteback.CreateExactly` | crates/riscv-devices/src/virtio_9p.rs:620-667 | a creation is truthful if and only if its name can be spelled and its directory is linked, or something of its kind stands at the path recorded |
| `NinepWriteback.RemovalExactly` | crates/riscv-devices/src/virtio_9p.rs:794-817 | a removal is truthful if and only if the inode is linked, or the path recorded is the root or resolves to nothing |
| `NinepWriteback.ResizeKeepsTracked` | crates/riscv-devices/src/virtio_9p.rs:765-788 | changing the size of a linked inode, with whatever other bits, is truthful if and only if it is a file or the root |
| `NinepWriteback.PoliteRecordsTruly` | crates/riscv-devices/src/virtio_9p.rs:620-862 | a guest that uses linked fids and spellable names and resizes only files and the root records nothing false |
| `NinepWriteback.ApplyApproaches` | web/main.js:316-335 | replaying one recorded path makes the mirror agree there and disagree nowhere else |
| `NinepWriteback.ApplyIsLocal` | web/main.js:316-335 | any replayed change creates only what its path passes through and removes only what is below it |
| `NinepWriteback.FalseDeletionLoses` | web/main.js:316-335 | replaying a false deletion, in any order, loses the path and everything below that no other record brings back |
| `NinepWriteback.UnlinkedFidDeletesTheParent` | crates/riscv-devices/src/virtio_9p.rs:794-817 | remove through a fid whose inode is already unlinked records the parent directory as deleted, and the replay deletes it and what is in it |
| `NinepWriteback.ResizedDirectoryIsForgotten` | crates/riscv-devices/src/virtio_9p.rs:765-788 | setting the size of a directory replaces its record by one that drains to nothing, so a directory made since the last drain is missing from the mirror |
| `NinepWriteback.ForgottenStays` | crates/riscv-devices/src/virtio_9p.rs:916-936 | where a record drains to nothing and no other is near, the replay leaves the mirror as it was |
| `NinepDevice.Device.Child` | crates/riscv-devices/src/virtio_9p.rs:165-173 | the linear search finds the link of that name |
| `NinepDevice.Device.PathString` | crates/riscv-devices/src/virtio_9p.rs:186-199 | the upward loop computes the path string |
| `NinepDevice.Device.Resolve` | crates/riscv-devices/src/virtio_9p.rs:175-184 | the component loop computes resolution from the root |
| `NinepDevice.Device.WalkNames` | crates/riscv-devices/src/virtio_9p.rs:536-579 | the loop over names computes the walk: where it ends, or which directory has to be listed first |
| `NinepDevice.Device.ReadEntries` | crates/riscv-devices/src/virtio_9p.rs:715-764 | the loop computes the entries of a directory past the cookie that fit into the count, which NinepReaddir.ReaddirExactly spells out |
| `NinepDevice.Device.CreateNode` | crates/riscv-devices/src/virtio_9p.rs:620-667 | create and mkdir: new tree, fids and record, or the error, with nothing else changed |
| `NinepDevice.Device.WriteFile` | crates/riscv-devices/src/virtio_9p.rs:689-714 | write at an offset, growing with zeros: new tree and record |
| `NinepDevice.Device.SetAttributes` | crates/riscv-devices/src/virtio_9p.rs:765-788 | chmod and truncate: new tree and record |
| `NinepDevice.Device.UnlinkChild` | crates/riscv-devices/src/virtio_9p.rs:853-862 | drops the links to the target, refusing a directory with entries |
| `NinepDevice.Device.RemoveFid` | crates/riscv-devices/src/virtio_9p.rs:794-817 | remove: new tree, fids and record, or the error |
| `NinepDevice.Device.RemoveName` | crates/riscv-devices/src/virtio_9p.rs:794-817 | unlinkat: new tree and record, or the error |
| `NinepDevice.Device.HandleMsg` | crates/riscv-devices/src/virtio_9p.rs:505-850 | one message in place is the specification step on the whole state |
| `NinepDevice.Device.ApplyListing` | crates/riscv-devices/src/virtio_9p.rs:205-229 | the record loop, stopping at the first record that is cut off or whose name is not UTF-8, adds exactly the stubs |
| `NinepDevice.Device.Receive` | crates/riscv-devices/src/virtio_9p.rs:956-991 | a message is answered, or parked under the next id with its chain and a request for what it needs |
| `NinepDevice.Device.Accept` | crates/riscv-devices/src/virtio_9p.rs:1001-1045 | unknown ids change nothing; otherwise the payload goes in and the parked message is run again |
| `NinepDevice.Device.MakeDirs` | crates/riscv-devices/src/virtio_9p.rs:263-276 | the loop over components computes mkdir_p |
| `NinepDevice.Device.Put` | crates/riscv-devices/src/virtio_9p.rs:235-261 | computes put_file: directories made, leaf created or overwritten |
| `NinepDevice.Device.WalkDirectory` | crates/riscv-devices/src/virtio_9p.rs:284-298 | the recursion lists every file below a directory depth first |
| `NinepDevice.Device.SeedFrom` | web/vm-worker.js:346-371 | the recursive copy of a host directory |
| `NinepDevice.Device.TakeChanges` | crates/riscv-devices/src/virtio_9p.rs:916-936 | hands over the changes and forgets the record |
| `NinepChains.NoChainIsLost` | crates/riscv-devices/src/virtio.rs:547-616 | over any run of kicks, time, flushes, answers and guest stores, each chain that walked is in exactly one of: reported, pending, held |
| `NinepChains.HeldIdsAreDistinct` | crates/riscv-devices/src/virtio_9p.rs:956-1045 | over any run the device stays sound, and until the 32-bit counter comes round no two held requests share an id |
| `NinepChains.SubmitNumbers` | crates/riscv-devices/src/virtio_9p.rs:956-991 | a message parks under a fresh id |
| `NinepChains.SupplyNumbers` | crates/riscv-devices/src/virtio_9p.rs:1001-1045 | an unknown id changes nothing; otherwise the same chain completes, or the same chain and message wait again under a fresh id |
| `NinepChains.ParkKeepsIds` | crates/riscv-devices/src/virtio_9p.rs:956-991 | ids stay distinct if and only if the next id is not in use |
| `NinepChains.ReportsReachTheDriver` | crates/riscv-devices/src/virtio.rs:375-448 | over any run: what walked is what is reported, pending or held, and at each point of it what is reported there is what the used rings gain there |
| `GuestMemory.SgReadIsSlice` | crates/riscv-devices/src/virtio.rs:115-134 | reading a scatter list in DRAM is slicing the string it spells |
| `GuestMemory.SgWriteIsOver` | crates/riscv-devices/src/virtio.rs:136-155 | writing a list of disjoint buffers is writing over the string it spells |
| `GuestMemory.SgWriteOutside` | crates/riscv-devices/src/virtio.rs:136-155 | memory outside the buffers is untouched |
| `GuestMemory.GuestMem.Read` | crates/riscv-devices/src/virtio.rs:47-62 | bytes inside DRAM, zeros for a window outside |
| `GuestMemory.GuestMem.Write` | crates/riscv-devices/src/virtio.rs:47-68 | stores inside DRAM, nothing for a window outside |
| `GuestMemory.GuestMem.Gather` | crates/riscv-devices/src/virtio.rs:115-134 | the buffer loop computes the scatter read for any buffers |
| `GuestMemory.GuestMem.Scatter` | crates/riscv-devices/src/virtio.rs:136-155 | the buffer loop computes the scatter write for any buffers |
| `Block.InIsArrayRead` | crates/riscv-devices/src/virtio_blk.rs:158-248 | for every 64-bit sector number a read is a read of the array of sectors: its bytes in order at the front, only the status besides, disk unchanged, or an error |
| `Block.ReadChecks` | crates/riscv-devices/src/virtio_blk.rs:64-74 | the checks in wrapping arithmetic admit exactly the reads inside the array |
| `Block.OutIsArrayWrite` | crates/riscv-devices/src/virtio_blk.rs:158-248 | a write is a write to the array of sectors at its number modulo 2^55, refused exactly when it does not fit, is empty or the disk is read-only |
| `Block.OutIsFaithfulBelowWrap` | crates/riscv-devices/src/virtio_blk.rs:76-87 | it is the write at its own sector number if and only if that number is below 2^55, or wraps to one where it does not fit |
| `Block.OutWraps` | crates/riscv-devices/src/virtio_blk.rs:76-87 | from 2^55 on a sector number acts as the one it is congruent to |
| `Block.StatusIsLast` | crates/riscv-devices/src/virtio_blk.rs:158-248 | the status is the last writable byte, and only a successful write changes the disk |
| `Block.SectorsHoldTheLatest` | crates/riscv-devices/src/virtio_blk.rs:158-248 | over any run, every sector holds what the last successful write to it put there, or what it held at first |
| `BlockDriver.HeaderReads` | crates/riscv-devices/src/virtio_blk.rs:158-184 | a request whose readable buffers spell type, reserved word and sector little-endian and then a payload is read as that type, sector and payload |
| `BlockDriver.DriverReads` | crates/riscv-devices/src/virtio_blk.rs:158-248 | a printed request of type 0: the driver finds the sectors from the number it printed on, what was there after them, and status 0, or everything as it was and status 1, with disk and length exact |
| `BlockDriver.DriverWrites` | crates/riscv-devices/src/virtio_blk.rs:158-248 | a printed request of type 1: the whole sectors of the payload are on the disk at the number printed modulo 2^55, and status 0, or disk unchanged and status 1, exactly when they fit |
| `BlockDriver.DriverAsksOtherwise` | crates/riscv-devices/src/virtio_blk.rs:225-248 | types 4 and 8 succeed, 8 with the name riscv-vm-disk, and any other type is answered 2; none touches the disk |
| `BlockDriver.SectorsHoldWhatWasSent` | crates/riscv-devices/src/virtio_blk.rs:158-248 | over any run of printed requests every sector holds what the last write accepted for it sent, or what it held at first |
| `EndToEnd.RequestEndToEnd` | crates/riscv-devices/src/virtio.rs:375-616 | a block request printed into descriptors, chain and available ring, kicked and waited for: until 2000 units have passed nothing is reported; then disk and answer buffers are what the request asks for and the used ring spells its head and length with the index one further |
| `EndToEnd.ReadEndToEnd` | crates/riscv-devices/src/virtio.rs:375-616 | a printed read: after 2000 units the driver's buffers hold the sectors and the used ring says so |
| `EndToEnd.WriteEndToEnd` | crates/riscv-devices/src/virtio.rs:375-616 | a printed write: after 2000 units the disk holds the payload and the used ring says so |
| `EndToEnd.KickServesOne` | crates/riscv-devices/src/virtio.rs:547-616 | a kick with one chain published hands it to the device, makes its completion due 2000 units later unless deferred, and moves on by one |
| `EndToEnd.KickServesPublished` | crates/riscv-devices/src/virtio.rs:547-616 | a kick with any number published, spelled in the available index, serves exactly those in order |
| `EndToEnd.ReportedWhenDue` | crates/riscv-devices/src/virtio.rs:398-422 | the passing of time reports a completion exactly from the time it is due, and raises the interrupt with it |
| `EndToEnd.UsedBytes` | crates/riscv-devices/src/virtio.rs:683-692 | a report as bytes: head and length little-endian in the slot of the index, and the index one further |
| `Block.VirtioBlk.ReadBackend` | crates/riscv-devices/src/virtio_blk.rs:64-74 | the in-memory backend reads that slice or fails |
| `Block.VirtioBlk.WriteBackend` | crates/riscv-devices/src/virtio_blk.rs:76-87 | the in-memory backend overwrites that slice or changes nothing |
| `Block.VirtioBlk.ServeIn` | crates/riscv-devices/src/virtio_blk.rs:186-204 | a read request against memory and disk in place |
| `Block.VirtioBlk.ServeOut` | crates/riscv-devices/src/virtio_blk.rs:205-224 | a write request against memory and disk in place |
| `Block.VirtioBlk.Serve` | crates/riscv-devices/src/virtio_blk.rs:158-248 | one request in place is the specification: disk, memory and reported length |
| `Virtqueue.WalkFollowsChain` | crates/riscv-devices/src/virtio.rs:620-681 | an acyclic chain is walked to its end, buffers in order, split by the WRITE flag, indirect tables included |
| `DriverRing.DescriptorReads` | crates/riscv-devices/src/virtio.rs:620-638 | sixteen bytes that spell address, length, flags and next are read as that descriptor |
| `DriverRing.PrintedChainWalks` | crates/riscv-devices/src/virtio.rs:620-681 | a chain printed into the descriptor table, through entries in any order without repetition, walks to exactly its readable and writable buffers in order |
| `DriverRing.IndirectChainWalks` | crates/riscv-devices/src/virtio.rs:639-664 | the same for a chain printed into an indirect table that one descriptor announces |
| `DriverRing.AvailReads` | crates/riscv-devices/src/virtio.rs:555-600 | the available index and slots are read as the driver spelled them |
| `Virtqueue.Pigeonhole` | crates/riscv-devices/src/virtio.rs:620-681 | a chain without repetition is no longer than its table, so the step limit cuts no acyclic chain |
| `Virtqueue.DrainVisits` | crates/riscv-devices/src/virtio.rs:587-616 | a kick visits the ring slots from the last position on, once each, in order, up to its limit |
| `Virtqueue.DrainServesNext` | crates/riscv-devices/src/virtio.rs:587-616 | draining one position further serves the head that the next slot holds in memory as the earlier ones left it, if its chain can be walked |
| `Virtqueue.DrainFollowsTheCount` | crates/riscv-devices/src/virtio.rs:587-616 | for a queue size dividing 2^16 a kick serves exactly the chains published since the last one: the slots of the count in order, and at each the head that stands there, across the 16-bit wrap |
| `Virtqueue.DrainCondition` | crates/riscv-devices/src/virtio.rs:587-616 | a kick follows every count of the driver if and only if the queue size divides 2^16 |
| `Virtqueue.WrapCondition` | crates/riscv-devices/src/virtio.rs:587-616 | the wrap of the index goes unnoticed if and only if the queue size divides 2^16 |
| `DeviceClock.BatchEqualsSteps` | crates/riscv-devices/src/device_bus.rs:523-593 | a batch of n and n single steps give the same memory, timer, interrupts and completions with the same time left, for any slots with separate rings |
| `DeviceClock.TickNForm` | crates/riscv-devices/src/device_bus.rs:523-541 | the closed form of a batch of any size |
| `DeviceClock.AdvanceTwice` | crates/riscv-devices/src/virtio.rs:398-422 | advancing by n and then by one reports what advancing by n + 1 does, in the same order, even with completions out of due order |
| `DeviceClock.DueTwice` | crates/riscv-devices/src/virtio.rs:398-422 | looking twice retires what looking once at the later time does |
| `DeviceClock.ReportsCommute` | crates/riscv-devices/src/virtio.rs:683-692 | reports into separate used rings commute |
| `DeviceClock.DeviceBus.TickSlots` | crates/riscv-devices/src/device_bus.rs:555-593 | the slot loop over shared memory computes the reports and the advanced slots |
| `DeviceClock.DeviceBus.StepOnce` | crates/riscv-devices/src/device_bus.rs:543-553 | one retired instruction |
| `DeviceClock.DeviceBus.StepMany` | crates/riscv-devices/src/device_bus.rs:523-541 | a batch of retired instructions |
| `UsedRing.RingsShowReports` | crates/riscv-devices/src/virtio.rs:683-692 | however the completions of a slot are mixed, each queue's used ring shows its own (chain, length) in order after the old ones, with the index advanced by their number across the 16-bit wrap and every other entry kept |
| `UsedRing.PushShows` | crates/riscv-devices/src/virtio.rs:683-692 | one report: the entry in the slot of the index, the index one further |
| `UsedRing.PushKeeps` | crates/riscv-devices/src/virtio.rs:683-692 | one report leaves every other slot as it was |
| `UsedRing.StepIsShown` | crates/riscv-devices/src/virtio.rs:375-448 | what an event of the transport reports is what the used rings gain by it |
| `UsedRing.ReportedIsShown` | crates/riscv-devices/src/virtio.rs:375-448 | at any point of any run, what is reported is what was reported before, what the used rings gain there, and what is reported later |
| `Transport.RunConserves` | crates/riscv-devices/src/virtio.rs:375-448 | for any device that accounts for what it defers: over any run, what was owed plus what walked is what is owed plus what was reported |
| `Transport.StepConserves` | crates/riscv-devices/src/virtio.rs:375-448 | the same for each event |
| `Transport.RunKeeps` | crates/riscv-devices/src/virtio.rs:375-448 | a device property that survives each chain and each answer holds after any run |
| `Transport.WalkChain` | crates/riscv-devices/src/virtio.rs:620-681 | the descriptor loop terminates on every table and computes the walk |
| `Transport.AddTable` | crates/riscv-devices/src/virtio.rs:639-664 | the indirect-table loop adds exactly its buffers to the two sides |
| `Transport.VirtioMmio.Kick` | crates/riscv-devices/src/virtio.rs:547-616 | serves the available chains: new device, memory, queue and pending list |
| `Transport.VirtioMmio.Tick` | crates/riscv-devices/src/virtio.rs:398-422 | reports the due completions at the front, in order |
| `Transport.VirtioMmio.Flush` | crates/riscv-devices/src/virtio.rs:375-396 | reports everything pending |
| `Transport.VirtioMmio.Supply` | crates/riscv-devices/src/virtio.rs:441-448 | the chain the answer completes is queued at once, due now |
| `Checksum.FoldIsRemainder` | crates/riscv-hostnet/src/lib.rs:32-46 | carry folding is the remainder modulo 65535 with 65535 standing for zero, except for a zero sum |
| `Checksum.ZeroMeansVerified` | crates/riscv-hostnet/src/lib.rs:32-46 | for all data the computation gives zero if and only if the accumulator is not zero and the sum leaves the number of wraps modulo 65535; without a wrap that is the data verifying |
| `Checksum.ChecksumVerifies` | crates/riscv-hostnet/src/lib.rs:32-46 | a checksum computed over a zero field and written there always gives zero in the same computation; the data verifies if and only if the accumulator wrapped a multiple of 65535 times |
| `Checksum.ShortDoesNotWrap` | crates/riscv-hostnet/src/lib.rs:32-46 | up to 131074 bytes it does not wrap |
| `Checksum.LongOnesDoNotVerify` | crates/riscv-hostnet/src/lib.rs:32-46 | with 131076 bytes of ones after the field the data does not verify |
| `Checksum.Compute` | crates/riscv-hostnet/src/lib.rs:32-46 | the byte-pair loop with a wrapping accumulator, odd lengths included, computes the checksum |
| `Checksum.IcmpReply` | crates/riscv-hostnet/src/lib.rs:90-137 | answers exactly the echo requests to the gateway: addresses exchanged, identifier, sequence and payload returned, both checksums zero in the same computation, the header verifying, and the message verifying if and only if the accumulator wrapped a multiple of 65535 times |
| `Checksum.PrintedRequestIsRecognised` | crates/riscv-hostnet/src/lib.rs:90-104 | a frame is taken for an echo request exactly if its bytes say IPv4, ICMP, 10.0.2.2 and type 8 behind a header of the length announced |
| `Checksum.EchoReplyVerifies` | web/net-adapter.js:105-137 | the two checksums of the reply verify if and only if those of the request do, across the end-around carry and for any payload, with addresses exchanged and the rest unchanged |
| `Checksum.ReplyKeepsSum` | web/net-adapter.js:105-137 | clearing the type and raising the checksum changes the sum by 0 or by exactly 65535 |
| `Checksum.SwapKeepsSum` | web/net-adapter.js:105-137 | exchanging the two addresses leaves the header sum unchanged |
| `Checksum.DeliverEchoReply` | web/net-adapter.js:105-137 | the byte-by-byte edit of a copy produces that reply |
| `Snapshot.SnapshotRoundTrip` | crates/riscv-devices/src/device_bus.rs:1006-1188 | load after save restores the machine if and only if nothing but zeros follows the last whole page and the occupied slots come first, each with the interrupt of its place |
| `Snapshot.SnapshotForm` | crates/riscv-devices/src/device_bus.rs:1006-1188 | what load gives after save for every machine: all but a partial last page, devices moved to the front |
| `Snapshot.PagesRoundTrip` | crates/riscv-devices/src/device_bus.rs:1079-1091 | the sparse page list restores every whole page |
| `Snapshot.WholePagesAreAll` | crates/riscv-devices/src/device_bus.rs:1006-1023 | memory comes back if and only if nothing but zeros follows the last whole page |
| `Snapshot.MmioRoundTrip` | crates/riscv-devices/src/virtio.rs:761-815 | a transport comes back as it was: features, status, rings, positions, clock, pending list |
| `Snapshot.PlicRoundTrip` | crates/riscv-devices/src/device_bus.rs:1106-1129 | the interrupt controller comes back as it was |
| `Snapshot.DeviceRoundTrip` | crates/riscv-devices/src/virtio_net.rs:168-187 | a network card, a disk and a share come back from kind and blob |
| `Snapshot.AttachKeepsPrefix` | crates/riscv-devices/src/device_bus.rs:307-319 | attaching is how slots fill, and keeps the occupied ones a prefix with their interrupts |
| `Snapshot.SlotsComeBack` | crates/riscv-devices/src/device_bus.rs:1131-1184 | every device returns to its slot and interrupt if and only if the occupied slots are a prefix |
| `Snapshot.FieldsRoundTrip` | crates/riscv-core/src/state.rs:17-72 | fields of any widths read back as written, with what follows left over |
| `SnapshotLayout.SnapshotIsLaidOut` | crates/riscv-devices/src/device_bus.rs:1006-1075 | the bytes of a snapshot of any machine that can be saved, spelled out field by field: memory size, the non-zero pages each after its number, timers, console, interrupt controller, slots with their transports, and the poll counter |
| `SnapshotStream.SaveState` | crates/riscv-devices/src/device_bus.rs:1006-1075 | the writer produces the snapshot, or refuses if a device cannot be saved |
| `SnapshotStream.LoadState` | crates/riscv-devices/src/device_bus.rs:1079-1188 | the reader computes the load on any bytes, failing where the source fails |
| `SnapshotStream.Writer.Fields` | crates/riscv-core/src/state.rs:17-32 | appends each field little-endian |
| `SnapshotStream.Writer.Blob` | crates/riscv-core/src/state.rs:33-36 | appends the length and the bytes |
| `SnapshotStream.Writer.Pages` | crates/riscv-devices/src/device_bus.rs:1006-1023 | appends each non-zero page after its number |
| `SnapshotStream.Writer.Mmio` | crates/riscv-devices/src/virtio.rs:761-785 | appends the transport state |
| `SnapshotStream.Writer.Slots` | crates/riscv-devices/src/device_bus.rs:1061-1072 | appends each slot |
| `SnapshotStream.Reader.TakeBytes` | crates/riscv-core/src/state.rs:48-52 | the next bytes, or nothing and no movement |
| `SnapshotStream.Reader.Fields` | crates/riscv-core/src/state.rs:53-67 | the next fields, or failure |
| `SnapshotStream.Reader.Blob` | crates/riscv-core/src/state.rs:68-72 | the next length-prefixed bytes, or failure |
| `SnapshotStream.Reader.Pages` | crates/riscv-devices/src/device_bus.rs:1083-1091 | copies recorded pages into memory in place, failing outside it |
| `SnapshotStream.Reader.Mmio` | crates/riscv-devices/src/virtio.rs:787-815 | reads a transport back |
| `SnapshotStream.Reader.Slots` | crates/riscv-devices/src/device_bus.rs:1131-1184 | re-attaches each recorded device to the first free slot |
| `Codec.RoundTripExactly` | crates/riscv-core/src/encode.rs:12-157 | with operands that fit their fields, an encoded instruction decodes to itself if and only if it is well-formed and not a double-precision store |
| `WideCodec.WideRoundTripExactly` | crates/riscv-core/src/encode.rs:12-157 | with operands as wide as the source declares them: if and only if all are in range, the instruction is well-formed and not a double-precision store |
| `WideCodec.AllAgree` | crates/riscv-core/src/encode.rs:264-292 | operands in range encode as if they could not be otherwise |
| `Codec.DecodeInvertsEncode` | crates/riscv-core/src/decode.rs:9-316 | decoding undoes encoding for every other well-formed instruction |
| `Codec.FsdDecodesAsSd` | crates/riscv-core/src/encode.rs:269-273 | a double-precision store is encoded as, and decodes as, the integer store |
| `Codec.DecodedIsWellFormed` | crates/riscv-core/src/decode.rs:9-316 | every 32-bit word decodes to a well-formed instruction |
| `DecodeListing.RListed` | crates/riscv-core/src/decode.rs:9-284 | a word decodes to a register operation if and only if it matches the listing of chapter 24 of the RISC-V Unprivileged ISA, opcode, funct3 and funct7 and nothing else |
| `DecodeListing.IListed` | crates/riscv-core/src/decode.rs:9-284 | likewise loads and immediate operations |
| `DecodeListing.JalrListed` | crates/riscv-core/src/decode.rs:9-284 | a word decodes to jalr if and only if its opcode is 0x67, whatever its funct3 |
| `DecodeListing.ShiftListed` | crates/riscv-core/src/decode.rs:9-284 | likewise the immediate shifts, five or six bits of amount |
| `DecodeListing.BListed` | crates/riscv-core/src/decode.rs:9-284 | likewise branches |
| `DecodeListing.SListed` | crates/riscv-core/src/decode.rs:9-284 | likewise stores, floating point included |
| `DecodeListing.UpperListed` | crates/riscv-core/src/decode.rs:9-284 | likewise lui, auipc and jal |
| `DecodeListing.SysListed` | crates/riscv-core/src/decode.rs:9-284 | likewise the system instructions, whatever their rd and rs1 |
| `DecodeListing.CsrListed` | crates/riscv-core/src/decode.rs:9-284 | likewise the six CSR instructions |
| `DecodeListing.FencesListed` | crates/riscv-core/src/decode.rs:9-284 | likewise sfence.vma and fence.i |
| `DecodeListing.FenceListed` | crates/riscv-core/src/decode.rs:9-284 | a word decodes to a fence if and only if its opcode and funct3 say so, but with predecessor and successor sets exchanged against the specification |
| `DecodeListing.AmoListed` | crates/riscv-core/src/decode.rs:9-284 | a word decodes to an atomic operation if and only if it matches the listing, with acquire and release in bits 26 and 25 |
| `DecodeListing.LoadReservedListed` | crates/riscv-core/src/decode.rs:9-284 | likewise load-reserved, whatever its rs2 field |
| `DecodeListing.IImmListed` | crates/riscv-core/src/decode.rs:285-288 | the I immediate, bit for bit |
| `DecodeListing.SImmListed` | crates/riscv-core/src/decode.rs:293-299 | the S immediate, bit for bit |
| `DecodeListing.BImmListed` | crates/riscv-core/src/decode.rs:300-308 | the B immediate, bit for bit |
| `DecodeListing.JImmListed` | crates/riscv-core/src/decode.rs:309-316 | the J immediate, bit for bit |
| `Compressed.ExpansionIsWellFormed` | crates/riscv-core/src/compressed.rs:9-264 | every halfword that expands at all expands to a well-formed instruction that can be encoded |
| `Compressed.ExpansionSurvivesEncoding` | crates/riscv-core/src/compressed.rs:9-264 | expanded, encoded and decoded, a halfword gives its expansion (double-precision stores aside) |
| `Rvc.FormsExpand` | crates/riscv-core/src/compressed.rs:9-264 | an assembler of the forms of chapter 16 of the RISC-V Unprivileged ISA, from operands to halfword: every legal form expands to the instruction the chapter gives for it |
| `Rvc.EveryExpansionIsAForm` | crates/riscv-core/src/compressed.rs:9-264 | and every halfword that expands is one of those forms, apart from the group used for bytes and halves |
| `Rvc.RefusedExactly` | crates/riscv-core/src/compressed.rs:9-264 | the halfwords that do not expand are exactly six masked patterns: not compressed, illegal, reserved, or with a forbidden zero |
| `Rvc.ByteFormsExpandExactly` | crates/riscv-core/src/compressed.rs:53-86 | against the Zcb extension, c.lbu, c.lhu, c.lh, c.sb and c.sh expand rightly if and only if the offset is 0 or 3 in c.lbu, or 0 in c.sh |
| `Rvc.BytesAsTheSourceHasThem` | crates/riscv-core/src/compressed.rs:53-86 | what the source makes of that group: operation in bits 11 and 10, offset in bits 12, 6 and 5 |
| `Compressed.JumpOffsetIsScrambled` | crates/riscv-core/src/compressed.rs:266-281 | the C.J offset is the scrambled-bit definition of chapter 16 of the RISC-V Unprivileged ISA, bit for bit |
| `Compressed.BranchOffsetIsScrambled` | crates/riscv-core/src/compressed.rs:283-295 | the C.BEQZ and C.BNEZ offset likewise |
| `Multiply.UnsignedProductIsExact` | crates/riscv-core/src/execute.rs:382-408 | mulhu and mul are the two halves of the exact product |
| `Multiply.SignedProductIsExact` | crates/riscv-core/src/execute.rs:387-393 | mulh and mul are the two halves of the exact signed product |
| `Multiply.MixedProductIsExact` | crates/riscv-core/src/execute.rs:394-400 | mulhsu and mul are the two halves of the exact mixed product, although the source multiplies modulo 2^128 |
| `Multiply.MixedOverflows` | crates/riscv-core/src/execute.rs:394-400 | the product the source forms for mulhsu exceeds 128 bits if and only if the first operand is negative and the second at least two |
| `Multiply.DivisionIsExact` | crates/riscv-core/src/execute.rs:409-433 | div and rem: dividend = divisor * quotient + remainder modulo the word size in every case, truncated and with the sign of the dividend, zero divisor and overflow included |
| `Multiply.UnsignedDivisionIsExact` | crates/riscv-core/src/execute.rs:417-440 | divu and remu likewise, exactly and with remainder below divisor unless that is zero |
| `Multiply.WordFormsExtend` | crates/riscv-core/src/execute.rs:441-476 | every W form is the 32-bit operation on the low halves, sign-extended |
| `Multiply.LowIsLow` | crates/riscv-core/src/execute.rs:382-386 | mul does not depend on how the operands are read |
| `Multiply.ProductInstructions` | crates/riscv-core/src/execute.rs:382-408 | what lands in the destination: mulhu, mulh and mulhsu with mul are the exact unsigned, signed and mixed products |
| `Multiply.DivisionInstructions` | crates/riscv-core/src/execute.rs:409-440 | div with rem and divu with remu divide, zero divisor and overflow included |
| `Multiply.WordInstructions` | crates/riscv-core/src/execute.rs:441-476 | the W forms do so on the low halves and leave sign-extended results |
| `Multiply.Cpu.Execute` | crates/riscv-core/src/execute.rs:382-476 | one instruction in place: the destination alone changes, never register zero, and the program counter moves by the width |
| `Multiply.Cpu.WriteReg` | crates/riscv-core/src/execute.rs:80-84 | register zero is never written |

## Left out

Parts of the repository:

- JIT, run loop, supervisor traps and CSRs, floating point, atomics and the integer instructions outside the M extension are not part of this model.
- The browser page, terminal, worker pump, storage and cloud synchronisation, image building and benchmarks are not part of this model.
- The network device's receive path, the ARP reply, UART and timer registers are not part of this model.
- Debug counters and logs are omitted from every modelled structure.

Limits of what is modelled:

- Mmu.Mmu.Translate: page tables are a map from addresses to 64-bit words, so page tables placed in device registers are not covered.
- Mmu.Run: page tables are changed by software only together with a flush.
- DevicetreeParser.ParseInvertsSerialize: names are NUL-free ASCII as the encoder requires; trees whose blocks exceed 32-bit fields are refused, as the packer refuses them.
- DevicetreeParser.ParseBlob: names are kept as bytes; the source replaces bytes that are not ASCII by a replacement character.
- DevicetreePatch.ScanLoop: the two patchers' token loops are one loop that keeps the state of both; they read the same tokens in the same order.
- NinepServer.Handle: messages and replies are values; their byte layout, the replacement of what is not UTF-8 in their names, and times are not modelled, and the reply to TSTATFS is reduced to its inode count.
- NinepHost.HandleAgrees: the message is read-only (attach, walk, getattr, open, read, readdir, clunk and the constant replies); TSTATFS reports the inode count and is excluded.
- NinepSession.Compare: the host answers each request with the folder's own listing or bytes; names the page hides at the root, and failures that arrive as an empty payload, are not modelled.
- NinepSession.LazyEqualsSeeded: the client waits for each reply.
- NinepEffects.ChangeExactly: the fid is linked; through an unlinked one NinepWriteback.HandleKeepsTracked says what is recorded.
- NinepEffects.MkdirWalkList: the directory it is made in has been listed, or the folder is not lazy; otherwise the walk asks the host first.
- NinepReaddir.ReaddirExactly: the directory has been listed, or the folder is not lazy.
- NinepWriteback.WriteBackRoundTrip: the tree is loaded; the store takes any slash-free name, where a real one refuses `.` and `..`.
- NinepChains.NoChainIsLost: runs without device reset, queue reconfiguration or a switch to lazy mode; it holds for any byte layout of messages.
- NinepChains.HeldIdsAreDistinct: says nothing about ids once 2^32 have been handed out, when NinepChains.ParkKeepsIds is the exact condition.
- GuestMemory.SgReadIsSlice: buffers lie in DRAM; an address plus an offset that exceeds 64 bits is not modelled.
- Block.SectorsHoldTheLatest: buffers lie in DRAM and answer buffers are disjoint; integers are those of a 64-bit release build; file and browser backends are not modelled.
- EndToEnd.RequestEndToEnd: one request is outstanding, its buffers, its chain and the rings are apart, and the guest leaves memory alone between the kick and the report.
- EndToEnd.KickServesPublished: the queue size divides 2^16 and no more chains are published than the queue holds.
- Rvc.EveryExpansionIsAForm: the group of byte and half accesses is Rvc.BytesAsTheSourceHasThem instead.
- DecodeListing.RListed: integer, atomic and system instructions; for the floating-point operations only loads and stores are listed.
- DeviceClock.BatchEqualsSteps: the used rings of different slots are apart, clocks do not wrap, and the receive poll of the network device is excluded.
- DeviceClock.DeviceBus.StepOnce: the receive poll of the network device inside the slot loop is not modelled.
- DeviceClock.DeviceBus.StepMany: nor is the receive poll after the slot loop of the batched step.
- UsedRing.RingsShowReports: the rings lie in DRAM and apart, queue sizes divide 2^16, and a queue reports no more at once than its ring has slots.
- UsedRing.ReportedIsShown: the same is asked of the rings at the point looked at; what the guest or a device later writes over a ring is not constrained.
- Transport.RunConserves: guest memory and the device are values inside the transport; a slot lists the queues its driver has set up.
- Transport.VirtioMmio.Kick: for devices without a receive queue, as the disk and the share are; a kick of the network card's receive queue polls instead.
- Snapshot.SnapshotRoundTrip: the state a snapshot does not carry (disk bytes, the 9p tree, host queues, captured console) is not part of the machine.
- Codec.DecodeInvertsEncode: operands are as wide as their fields and immediates 32-bit vectors, sign-extended; WideCodec has the declared widths. Fence fields are in the positions the source uses.
- Multiply.Cpu.Execute: register numbers are below 32, as decoding yields them.
