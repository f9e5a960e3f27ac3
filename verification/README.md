# A Dafny model of coffeeOS: storage, memory and network cores

coffeeOS is a 32-bit hobby operating system written in C. This project models three of its stateful
stacks in Dafny and proves what they promise. Methods follow the C functions branch by branch, over
the fields and arrays those functions update; pure functions and predicates say what the state means.

**Storage** (`fs/fat32.c`, `fs/vfs.c`, `fs/fat32_format.c`). A write-back sector cache over devices that
may fail at any transfer, two mirrored FATs, cluster chains, directories of 8.3 names, and a descriptor
table. Each layer refines a simpler thing: the cache a disk (`SectorCache`), the FAT a list of words
(`FatTable`, `Fat32`), a chain a byte sequence (`FileBytes`, `ChainIO`), a directory a map of
case-insensitive names (`DirSlots`, `Directory`, `DirWrite`), and the file calls named byte sequences with
descriptors (`FileSpec`, `FileSystem`, `VfsFiles`, `VfsTable`, `Vfs`), over whole runs (`FileRuns`).
`Threading` says how the links of the FAT run below all that. `ChainLimits` holds inputs at which
chain reads and writes fall short. `WriteOrder` looks at the device after
every single-sector write. `Uncached` holds the readers that bypass the cache. `Format` and `FreshVolume`
supply the state every run begins from, and `Format.Remount` the way back to it; `DiskLayout` says which
byte of a volume holds which number.

**Memory** (`mem/pmm.c`, `mm/paging.c`, `mm/vm.c`). A bitmap frame allocator with a hint and reference
counts (`Pmm`), two-level page tables reached through a recursive slot (`PageEntry`, `PageTables`,
`Paging`), what kernel code reaches through them (`KernelAccess`), copy-on-write faults (`Vm`) and a lazily
backed heap (`Heap`).

**Network** (`net/ip.c`, `net/tcp.c`, `net/ipv4.c`). The one's-complement checksum (`Checksum`), packets and
segments that verify themselves (`Packets`), the in-order receive stream (`TcpStream`), fragmentation and
reassembly (`Reassembly`) and whole runs of it (`ReassemblyRuns`).

## How to read it

- Device transfers fail at will. A counter `failures` records failed transfers; the code modelled never
  looks at it. Most method contracts say what holds when it did not move, and what holds regardless. A failed read leaves its
  buffer alone, as the cache assumes (fs/fat32.c:157-168).
- `Seen` is the volume as cached readers see it, `Stored` as it lies on the device. A volume is clean
  when the two agree. `history` keeps the device image after each completed sector write.
- Methods take ghost parameters (a chain, a directory, the place of an entry) that tie the state to its
  meaning. They are never read by the code.
- `FreshVolume.Start`, `Paging.Boot`, `Heap.StartHeap` (on what `Boot` leaves) and the constructors of `Pmm`,
  `TcpStream` and `Reassembly` build states that meet the invariants the other methods ask for and keep.
- `Vfs.FileTable.Neat` carries the free count and the soundness of the links through every file call, and
  with them the ordering on the device (`NeatIsOrdered`).
- `Arithmetic` holds what several modules need of division and finite sets.
- Many bodies begin with `hide`: it keeps definitions out of one proof so that each stays quick.

## Exact conditions

Where a simple statement is not true of the code, the model keeps the code and the contract gives the
condition under which it is true.

- A chain write can fail on a sound volume with room, because link steps are counted over the whole call
  (fs/fat32.c:580, 616): it finishes exactly when `ChainIO.CanFinish` holds. 2048 bytes at the start of a
  file on four clusters of 512 bytes do not (`ChainLimits.EnoughRoomAndRefused`).
- Positions in a chain are computed in 32 bits (fs/fat32.c:546, 606): every byte of a transfer lies where
  its caller counts it exactly if offset plus length is at most 2^32 (`ChainLimits.InPlaceExactly`). The
  content theorems are for such calls; beyond, `ChainIO.WriteTurn` still says where each chunk goes: the
  rest begins anew at the start of the file, and the length is returned. After a seek to 0xFFFFFFFF a write
  of two bytes is such a call (`ChainLimits.LastPositionWraps`).
- A refused write has already written a part: that part, and nothing else, is in the chain
  (`ChainIO.PartWritten`). The file system is then as if the part had been written, except that the entry
  and the descriptor keep the old size (`VfsFiles.HalfWritten`); bytes beyond that size are zero no more,
  unless the part put only zeros there (`VfsFiles.RefusedTail`).
- A link that cannot be read during a chain write is taken for the end of the chain (fs/fat32.c:622-637).
  At the last cluster that is no harm. Short of it a new cluster is linked in, the rest of the chain is cut
  off, and the call may still return the length: a call that returns the length has rewritten the slice
  exactly when it was not torn in this way (`ChainIO.WriteChain`, `ChainLimits.MisreadCutsTail`,
  `ChainLimits.OneMisread`). Failing reads in the allocator's search do no harm.
- A chain read gives up with -1 in one sound case (`ChainIO.Overrun`): the chain takes every cluster of the
  volume and is read from its first cluster to beyond its end (`ChainLimits.OneByteTooMany`). The same -1
  is also the count 2^32 - 1 as a signed number, and nothing else is (`ChainLimits.MinusOne`). A link that
  cannot be read ends a read early: fewer bytes come back, but never others (`ChainIO.ReadPart`).
- A directory sector or link that cannot be read ends a search with "not found" (fs/fat32.c:802-804).
  `vfs_open` with VFS_O_CREATE then enters a second entry under the same name
  (`Vfs.FileTable.OpenNew`), and the directory stands for no map any more (`DirSlots.SecondEntry`).
  With no failing transfer "not found" means what it says; a hit is always right (`Directory.DirFind`).
- A create that finds a free cluster for the file but none for the full directory fails and keeps the
  file's cluster: nothing else changes, but one cluster is lost (`Vfs.FileTable.Open`).
- An empty `vfs_write` beyond the end of a file sets its size to the position although no cluster holds
  those bytes: the size is right exactly when `VfsFiles.GrowsByBytes` holds
  (`VfsFiles.EmptyWriteClaimsBytes` is a case where it does not).
- An 8.3 name whose first byte is 0xE5 is created as an entry that counts as deleted at once
  (`FileSystem.NewEntryIsFound`).
- Formatting a device with so many clusters that their numbers reach the reserved 28-bit values succeeds,
  but the volume cannot be used in full (`Format.FormatFits`, `Format.LargestDeviceDoesNotFit`).
- A free count of zero in FSInfo reads as unknown (fs/fat32.c:1169-1171): of a volume that is full when it is
  synced, mounting believes that all clusters but one are free. Every other exact count survives
  (`Format.Remount`, `Format.BelievedExactly`, `Format.FullVolumeForgets`).
- Names that are 8.3 names, and so need no long-name entry, are exactly those of `ShortNames.ShortExactly`.
- A seek beyond 2^32 begins anew at the start of the file, one below zero stops there: seeking back ends
  where it began exactly if neither happened (`FileSpec.ThereAndBack`).
- A page marked for users below a directory entry that is not is out of their reach: `UpdateFlags` does not
  open the directory entry, `MapPage` does (`Paging.FlagsReach`).
- A read of a FAT entry that fails reads as "bad cluster": `fat32_free_chain` then frees a prefix of the
  chain and succeeds (`Fat32.Volume.FreeChain` gives the length of the prefix).
- `pmm_alloc_page` answers 0 when nothing is free and also when the lowest free frame is frame 0
  (`Pmm.ZeroIsAmbiguous`); a reference added at the cap is lost (`Pmm.SaturationLosesAReference`); an
  available range that spans all 4 GiB frees nothing (`Pmm.ClippedFrees`); a reserved range that passes
  4 GiB is marked at one frame or not at all (`Pmm.MarkedTouches`, `Pmm.LastPageNotMarked`).
- Changing a mapping stays inside its directory exactly when the page table has no second owner
  (`PageTables.IsolatedIffExclusive`). User halves meet this; the kernel directory's identity map of the
  first 64 MiB does not, since it shares its tables with the map at 0xC0000000 (`Paging.BootTables`).
- `paging_create_user_directory_phys` fills the new directory, and reads the kernel's, through the pages of
  the current directory that have the frames' physical addresses (mm/paging.c:377-386). It makes the
  directory exactly when those pages show the directory's frame, writable, and the words of the kernel's
  directory (`KernelAccess.MadeExactly`); in particular when both show the frames of the same numbers.
  From the boot directory that is so exactly for frames below 64 MiB (`Paging.BootCreates`). It fails when
  low memory is used up and a higher frame is taken instead, at the fallback of mm/paging.c:370-375
  (`Paging.LowMemoryExhausted`), and when the current directory is itself a fresh user directory
  (`KernelAccess.FreshDirectoryFaults`): the first store faults. Where the page shows another frame, the
  words of the directory go there (`Paging.AddressSpaces.CreateUserDirectory`).
- `ip_receive` adds the Ethernet header to the total length in 16 bits (net/ip.c:116). Packets are passed on
  exactly with a sound header and a total length that fits the frame or exceeds 65521, where the sum wraps;
  what is passed on lies in the frame exactly when the sum does not wrap (`Packets.AcceptedExactly`). A
  frame that ends with a header of total length 65535 is passed on with 65515 bytes of payload
  (`Packets.LongestLengthWraps`).
- `tcp_checksum` copies the segment into a buffer of 1492 bytes (net/tcp.c:20, 38-40). It stays inside
  exactly for segments of up to 1480 bytes (`Packets.TcpChecker.Checksum`); one of 1481 bytes is too long
  (`Packets.OneByteBeyond`). Segments built by `tcp_send_segment` are never longer.
- `ip_send` computes the total length in 16 bits (net/ip.c:44-46): payloads of up to 1480 bytes are built,
  longer ones refused, except that from 65516 bytes on the length wraps, the payload is let through and
  runs over the packet buffer (`Packets.IpOutput.Build`).
- A data segment that is next in order but finds too little room in the receive ring breaks the stream;
  any other arrival does not (`TcpStream.DeliverTracks`).
- `free_virtual_pages` stops half way at a page that is already free, with the pages before it freed
  (`Heap.KernelHeap.FreePages`). Its size is computed in 32 bits, so that a count of 2^20 pages passes for
  every heap page (`Heap.WrappedCountPasses`, `Heap.PassesExactly`); it then frees everything up to the
  first page that is free already.

## Model

| member | source | states |
|---|---|---|
| SectorCache.Cache.FlushSlot | fs/fat32.c:133-146 | writing one dirty slot to the device that owns it changes no reader's view |
| SectorCache.Cache.Read | fs/fat32.c:149-172 | returns the view at one address; an eviction on the way changes no view of any device |
| SectorCache.Cache.Write | fs/fat32.c:175-195 | on success the view of every device is as before except at this device and address; on failure everywhere |
| SectorCache.Cache.Flush | fs/fat32.c:198-211 | on success no slot of this device is dirty and the device equals its view; slots of another volume do not matter |
| SectorCache.Cache.DirectWrite | fs/fat32.c:345-353 | a direct write with cache_invalidate_lba changes the view at one address and cannot be shadowed by a stale slot |
| SectorCache.CleanMeansOnDisk | fs/fat32.c:198-211 | a coherent cache with no dirty slot of a device shows exactly that device |
| SectorCache.QuietTransitive | fs/fat32.c:133-211 | any run of reads, evictions and flushes moves only view sectors to disk, also at every write in between |
| SectorCache.FilledSlotWrote | fs/fat32.c:184-193 | retagging a slot that is clean or already holds the sector loses no other sector |
| FatTable.PutFat1 | fs/fat32.c:243-267 | one 32-bit store at the computed sector and offset changes exactly that entry of the first FAT |
| FatTable.PutFat2 | fs/fat32.c:300-322 | the same for the mirror |
| FatTable.PutData | fs/fat32.c:489-529 | sectors of one cluster hold no FAT word and no byte of another cluster |
| FatTable.Geometry.ClusterToLba | fs/fat32.c:489-491 | the sector formula agrees with laying clusters end to end |
| FatTable.EntrySet | fs/fat32.c:270-322 | both copies read the value in the low 28 bits, keep their own high nibble and every other word |
| VolumeState.QuietVolume | fs/fat32.c:133-211 | cache traffic leaves the volume as seen, and mixes only old and new FAT entries on the device |
| VolumeState.SettledKeepsClean | fs/fat32.c:133-211 | clusters whose bytes were on the device stay so under traffic that does not write them |
| Fat32.Volume.ReadFat | fs/fat32.c:243-267 | the low 28 bits of the entry as seen, or the bad-cluster value when out of range or unreadable |
| Fat32.Volume.WriteFat | fs/fat32.c:270-322 | both copies set under their own reserved nibbles, first FAT1; a failure leaves nothing or FAT1 only |
| Fat32.Volume.UpdateFsInfo | fs/fat32.c:325-355 | FSInfo and its backup on the device carry the signatures and the counters; the FATs, all data and the other reserved sectors stay |
| Fat32.CountsAreStored | fs/fat32.c:325-355 | the stored counters read back, whether or not the old sector was signed |
| Fat32.Volume.WriteBarrier | fs/fat32.c:358-363 | on success everything seen is on the device, and both FSInfo sectors there hold the two signatures, the free count and the hint; the FAT moves to the device entry by entry, and the other reserved sectors stay |
| Fat32.Volume.AllocCluster | fs/fat32.c:366-402 | takes the first free cluster in circular order from the hint, fails exactly when none is free, keeps an exact free count exact; on success the new count and hint are in both FSInfo sectors on the device |
| Fat32.NextIsFirst | fs/fat32.c:366-402 | the cluster taken is the first free one on the circle of numbers from the hint, or from 2 if the hint names no cluster |
| Fat32.Volume.FreeChain | fs/fat32.c:405-438 | frees exactly the chain when no transfer fails, else a prefix of known length; the count follows, and on success is in both FSInfo sectors on the device |
| Fat32.Volume.GetNth | fs/fat32.c:465-486 | the n-th cluster of a chain, the bad-cluster value past its end |
| Fat32.Volume.ReadCluster | fs/fat32.c:494-510 | the cluster's bytes as seen |
| Fat32.Volume.WriteCluster | fs/fat32.c:513-529 | on success the cluster holds the buffer; nothing else changes even on failure |
| Fat32.Volume.FsckCount | fs/fat32.c:1246-1256 | after counting, the free count is exact, and a change is reported exactly when it was not |
| Chains.ScanFindsAny | fs/fat32.c:366-402 | one wrap-around turn visits every cluster: it fails exactly when the free count is zero |
| Chains.CountAfterSet | fs/fat32.c:366-438 | how the number of free entries moves when one entry changes |
| Chains.AllocKeepsSound | fs/fat32.c:366-402 | taking a free cluster adds a chain of one to pairwise disjoint chains |
| Chains.LinkKeepsSound | fs/fat32.c:613-638 | linking it behind a live chain keeps all chains chains and pairwise disjoint |
| Chains.FreeKeepsSound | fs/fat32.c:405-438 | freeing one live chain leaves every other live chain as it was |
| Chains.FreeAllCounts | fs/fat32.c:405-438 | freeing k clusters of a chain frees exactly k entries |
| Chains.ChainFits | fs/fat32.c:405-486 | a chain is never longer than the volume, so walk limits do not cut sound chains |
| FileBytes.PatchedReads | fs/fat32.c:575-658 | what a patched byte sequence holds: old bytes, zeros, the new slice |
| FileBytes.OtherChainUntouched | fs/fat32.c:575-658 | a chain that shares nothing with a growing chain keeps its links, its bytes and its distance |
| FileBytes.LinkedGrows | fs/fat32.c:613-638 | extending a chain by a zeroed free cluster appends one cluster of zeros to its bytes |
| FileBytes.SlicePatches | fs/fat32.c:592-657 | overwriting part of one cluster patches the byte sequence at the corresponding place |
| FileBytes.FreeAllKeeps | fs/fat32.c:405-438 | freeing keeps both copies in agreement and every reserved nibble |
| WriteOrder.OneEntryAtATime | fs/fat32.c:358-396 | if the device's first FAT moves between two FATs one entry apart, every image in between is one of the two |
| WriteOrder.TakeKeepsLinks | fs/fat32.c:366-402 | marking a free cluster end-of-chain makes no link dangle |
| WriteOrder.LinkKeepsLinks | fs/fat32.c:632-638 | linking to a cluster that is not free makes no link dangle |
| WriteOrder.SoundHasNoDangling | fs/fat32.c:613-638 | a sound volume whose links all belong to live chains has no dangling link |
| Threading.FreeThreads | fs/fat32.c:405-438 | freeing a chain, or the part of it that a misread leaves, makes no link dangle: nothing led into it but its own links |
| Threading.GrownThreads | fs/fat32.c:613-638 | a chain that grows into free clusters keeps all links sound: none dangles, no two lead to one cluster |
| Threading.TakeThreads | fs/fat32.c:366-402 | a free cluster that is taken is one no link leads to |
| ChainIO.Extend | fs/fat32.c:613-638 | one extension: succeeds exactly when a cluster is free, appends zeros, and no device write shows a link to a free cluster |
| ChainIO.Walk | fs/fat32.c:613-638 | after a successful walk the chain reaches the wanted cluster, extended by zeros as needed, unless a link read that failed short of its end tore it; without a failing transfer it succeeds exactly when limit and room suffice |
| ChainIO.WriteChain | fs/fat32.c:575-658 | finishes exactly under CanFinish when no transfer fails; every call that returns the length, untorn, leaves the old bytes zero-extended with the slice replaced and nothing else changed; a refused one has rewritten a part; no device write shows a dangling link |
| ChainIO.CanFinishExactly | fs/fat32.c:575-658 | a write to the a-th to b-th clusters of a file can finish exactly if b + 1 clusters can be had and (b - a + 1)(a + b) is at most twice the volume's number of clusters |
| ChainIO.OverrunExactly | fs/fat32.c:532-572 | a read gives up exactly if the chain takes all clusters and the read goes from the first of them past the end |
| ChainIO.WriteTurn | fs/fat32.c:592-657 | one chunk at its position modulo 2^32: the walk, the link steps it uses up, and the bytes it adds; a refused turn adds none |
| ChainIO.TornIsNoChain | fs/fat32.c:622-637 | a chain cut by a misread link is a chain no more |
| ChainLimits.MisreadCutsTail | fs/fat32.c:622-637 | after a misread the file is the part before it and a cluster of zeros; the rest stays allocated outside it |
| ChainLimits.OneMisread | fs/fat32.c:622-637 | three clusters, one failed link read, two clusters lost |
| ChainLimits.EnoughRoomAndRefused | fs/fat32.c:616-619 | a write that has its clusters and exceeds the link limit |
| ChainLimits.OneByteTooMany | fs/fat32.c:532-572 | a read one byte past a chain that fills the volume gives up, although 2048 bytes are there |
| ChainLimits.InPlaceExactly | fs/fat32.c:605-608 | each byte of a transfer lies where its caller counts it exactly if the transfer ends by 2^32 |
| ChainLimits.LastPositionWraps | fs/fat32.c:605-608 | two bytes at the last position: the second becomes the first of the file |
| ChainLimits.MinusOne | fs/fat32.c:532-572 | -1 means Overrun or a count of 2^32 - 1 |
| ChainIO.ReadChain | fs/fat32.c:532-572 | returns the chain's bytes at the offset up to its end, giving up exactly under Overrun; whatever fails, the bytes returned are the chain's |
| Format.FormatDevice | fs/fat32_format.c:63-219 | on success every region of the device is as laid out; other devices are untouched |
| Format.BootRoundTrip | fs/fat32_format.c:95-128 | mounting reads back every parameter formatting wrote |
| Format.MountFindsFormat | fs/fat32.c:1119-1177 | mounting accepts a formatted device and derives the layout that was formatted, in 32-bit arithmetic |
| Format.FormatFits | fs/fat32_format.c:88-93 | regions are disjoint and on the device, every cluster has a FAT entry, and the volume is usable exactly below the reserved numbers |
| Format.LargestDeviceDoesNotFit | fs/fat32_format.c:88-93 | a device that formats but whose last cluster numbers read as end-of-chain |
| Format.MountRecounts | fs/fat32.c:1159-1174 | the estimate in FSInfo is never believed: mounting computes its own count |
| Format.Mount | fs/fat32.c:1119-1177 | accepts exactly the boot sectors that pass the checks; placement and allocator fields as computed |
| Format.Remount | fs/fat32.c:358-363 | a barrier and then a mount of the same device give the same volume with the same free count and hint, when the count is from 1 to the total; an exact count survives exactly if it is not zero or the volume has one cluster |
| Format.BelievedExactly | fs/fat32.c:1161-1174 | a stored exact count is believed exactly if it is not zero or the volume has one cluster |
| Format.FullVolumeForgets | fs/fat32.c:1169-1171 | a full volume of 507 clusters comes back with 506 free |
| Format.FormattedIsSound | fs/fat32_format.c:130-205 | a formatted volume has one chain, equal FATs, no dangling link, and an exact mounted free count |
| FreshVolume.FormattedIsEmpty | fs/fat32_format.c:63-219 | a formatted volume holds an empty file system whose directory carries only the label |
| FreshVolume.Start | fs/fat32_format.c:63-219 | format, mount and vfs_init in turn give a ready table, no file, exact free count, ordered FAT; only a failing transfer prevents it |
| DiskLayout.FatEntryAt | fs/fat32.c:243-267 | entry c of a FAT is the little-endian number at byte 4c of its sectors |
| DiskLayout.FatSizeTight | fs/fat32_format.c:88-89 | the FATs have as few sectors of 128 entries as one entry for every eight sectors takes |
| DiskLayout.BootFields | fs/fat32_format.c:95-128 | the boot sector, field by field at its byte positions |
| DiskLayout.BackupFields | fs/fat32_format.c:140-167 | the backup is the boot sector without the three geometry numbers |
| DiskLayout.FirstSectors | fs/fat32_format.c:179-217 | the three entries at the start of each FAT and the label's entry, zeros behind them |
| DiskLayout.BlankInfo | fs/fat32_format.c:130-139 | the FSInfo sector of a blank volume, field by field |
| DiskLayout.LabelBytes | fs/fat32_format.c:30-48 | a label is upper-cased, cut to eleven bytes or filled up with spaces |
| DiskLayout.MountReads | fs/fat32.c:1132-1147 | what mounting reads in any boot sector, at which bytes, and exactly which sectors it accepts |
| DiskLayout.MountLayout | fs/fat32.c:1149-1158 | where it finds the regions of any accepted volume: two FATs behind the reserved sectors, then as many clusters as the rest has room for |
| DiskLayout.InfoFields | fs/fat32.c:325-355 | an FSInfo sector keeps all but its counters, or is signed anew and zero elsewhere if a signature was missing |
| DiskLayout.EntryFields | fs/fat32.c:226-240 | an entry's first cluster and size at their byte positions |
| DiskLayout.EntryMarks | fs/fat32.c:802-830 | which entries are end markers, deleted, long-name slots, directories and plain files |
| DiskLayout.NewEntryBytes | fs/vfs.c:511-519 | a new entry: name, archive bit, first cluster, and zeros in all other fields |
| ShortNames.NameEqCi | fs/fat32.c:85-95 | equal exactly when the case-folded strings are |
| ShortNames.ComputeTo83 | fs/vfs.c:51-88 | the 11 bytes filled in place are the folded characters before and after the last dot, cut and padded |
| ShortNames.ShortExactly | fs/vfs.c:51-88 | a name reads back from its 8.3 form, case aside, exactly if it is up to eight characters, alone or with a dot and one to three more, none of them a dot, a space or one of + , ; = [ and ] |
| ShortNames.InteriorDotsVanish | fs/vfs.c:57-72 | only the last dot of a name divides it; the others are dropped |
| ShortNames.ReplacedAlike | fs/vfs.c:73-78 | writing _ for one of + , ; = [ and ] gives the same 8.3 form |
| FileSystem.NewEntryIsFound | fs/vfs.c:511-519 | an 8.3 name is found under itself again and counts as live exactly when it does not begin with 0xE5 |
| DirSlots.SearchSector | fs/fat32.c:806-845 | the sector loop finds the first matching live entry or the end marker |
| DirSlots.FreeInSector | fs/fat32.c:966-1049 | the sector loop finds the first end marker or deleted entry |
| DirSlots.FindIsLookup | fs/fat32.c:777-859 | in a tidy directory searching is looking the name up in the map |
| DirSlots.SearchExactly | fs/fat32.c:806-845 | over any entries: the first live 8.3 entry of the name before the first end marker, the end marker if there is none, else neither |
| DirSlots.CreateInserts | fs/fat32.c:917-1074 | writing a new name into the first free place inserts it and keeps end markers a suffix |
| DirSlots.InsertedAt | fs/fat32.c:966-1072 | a new entry takes the place of the first deleted entry or end marker, or the first of a new cluster of zeros; every other entry stays |
| DirSlots.DeleteRemoves | fs/fat32.c:1086-1101 | marking an entry deleted removes exactly its name |
| DirSlots.UpdateReplaces | fs/fat32.c:1104-1116 | rewriting an entry behind its name replaces its value |
| DirSlots.ZeroesAddRoom | fs/fat32.c:1052-1072 | a zeroed cluster behind a full directory adds room and no name |
| DirSlots.SecondEntry | fs/fat32.c:802-804 | an entry created under a name that is there already leaves a directory that stands for no map |
| DirSlots.RunIsMap | fs/fat32.c:777-1116 | under any run of creations, deletions and updates, with extension, the directory is the map the same operations make |
| Directory.DirFind | fs/fat32.c:777-859 | a hit is never due to a failing transfer; without one it finds an entry exactly when the directory's search does, with its value and its place on the device |
| Directory.PatchSector | fs/fat32.c:1104-1116 | read, overlay, write back: one slice of one cluster changes |
| DirWrite.DirCreate | fs/fat32.c:917-1074 | succeeds exactly when there is a free entry or a free cluster; the entry lands in the first free place, and no device write shows a dangling link |
| DirWrite.CreatedEntries | fs/fat32.c:917-1074 | after a creation the directory reads as the old entries with the new one inserted, a zeroed cluster behind them if it was full |
| DirWrite.MarkDeleted | fs/fat32.c:1086-1101 | one entry gets the deleted mark, all else stays, all of it on the device |
| DirWrite.RestampedEntries | fs/fat32.c:1104-1116 | replacing an entry behind its name is the directory's update |
| DirWrite.UpdateDirEntry | fs/fat32.c:1104-1116 | one entry replaced in the cache, nothing flushed |
| FileSystem.NodeRewritten | fs/vfs.c:619-651 | writing into one file's chain changes that file's bytes, no other file, and not the directory |
| FileSystem.EntryStamped | fs/vfs.c:324-353 | rewriting the entry to the new start and size makes directory and file agree again |
| FileSystem.SpareTaken | fs/vfs.c:502-510 | a zeroed cluster taken for a new file disturbs nothing and is an empty file apart from all others |
| FileSystem.SpareFiled | fs/vfs.c:511-524 | entering it in the directory, which may grow, files it under its name |
| FileSystem.NodeTruncated | fs/vfs.c:545-569 | take a cluster, free the old chain, zero: the file is empty, all others as before |
| FileSystem.NodeRemoved | fs/vfs.c:762-788 | free the chain, mark the entry: exactly that file is gone |
| VfsFiles.SyncOpenFile | fs/vfs.c:324-353 | the direct read sees the current entry although the call is in the middle of changing the file; afterwards entry and file agree and all is on the device |
| VfsFiles.WriteUnsynced | fs/vfs.c:619-640 | after the chain write the entry's sector is on the device as seen, so the direct read is safe |
| VfsFiles.RefusedLeaves | fs/vfs.c:637-640 | after a refused write the volume holds the file system with the part written, its entry lagging behind |
| VfsFiles.RefusedTail | fs/vfs.c:637-640 | the zeros beyond the old size survive exactly if the part changes no byte and puts only zeros behind it |
| VfsFiles.TruncateFile | fs/vfs.c:545-569 | no space exactly when no cluster is free; else the file is empty with a new start; free count and links stay sound |
| VfsFiles.CreateFile | fs/vfs.c:502-524 | no space, an error, or success, each exactly when free clusters and directory room say so; then one empty file more, or no file and one cluster less; free count and links stay sound, and no device write shows a dangling link |
| VfsFiles.RemoveFile | fs/vfs.c:762-788 | the file is gone and as many clusters are free again as it had; the free count stays exact and no link dangles |
| Vfs.FileTable.constructor | fs/vfs.c:443-451 | a table with every descriptor closed |
| Vfs.FileTable.Open | fs/vfs.c:459-575 | the answer in every case, and on success the abstract open: create, truncate, append as asked, on the lowest closed descriptor; on a refusal nothing but a cluster may be lost; whatever was changed is on the device |
| VfsTable.FirstShut | fs/vfs.c:472-479 | the lowest closed descriptor: all below it are open, and there is none only if all are |
| Vfs.FileTable.OpenNew | fs/vfs.c:483-527 | a name that was not found is entered, whether or not it is in the directory |
| Vfs.FileTable.Close | fs/vfs.c:578-585 | the descriptor is shut, files stay |
| Vfs.FileTable.Read | fs/vfs.c:588-616 | returns the file's bytes from the position, up to its end or, if a transfer fails, fewer, and moves the position by their number |
| Vfs.FileTable.Write | fs/vfs.c:619-651 | succeeds exactly when the chain write can finish; every success that was not torn patches the file's bytes and nothing else, and leaves no slot dirty; every success moves this position by the bytes written, and keeps its flags and its entry's place; the other descriptors stay whatever happens; a refusal has written a part, which alone changed |
| Vfs.FileTable.Seek | fs/vfs.c:654-676 | the position is the 64-bit target, never below zero, cut to 32 bits |
| Vfs.FileTable.Delete | fs/vfs.c:762-788 | the name is gone, its clusters are free, other files and descriptors stay |
| Vfs.FileTable.NeatIsOrdered | fs/fat32.c:358-396 | between calls the device shows no dangling link, also after deletions and truncations |
| FileRuns.Run | fs/vfs.c:459-788 | a run of calls up to the first failing transfer or refused write answers as the same run over named byte sequences, state by state, and keeps free count and links sound |
| FileRuns.Make | fs/vfs.c:459-788 | one call of such a run |
| FileSpec.WriteThenRead | fs/vfs.c:588-676 | writing, seeking back and reading returns what was written |
| FileSpec.WriteIsLocal | fs/vfs.c:619-651 | a write changes one slice of one file; a gap before it reads as zeros |
| FileSpec.WritesJoin | fs/vfs.c:619-651 | two writes in a row are one write of both pieces, for files, descriptors and position |
| FileSpec.WriteMoves | fs/vfs.c:643 | a write moves its descriptor by the number of bytes and keeps its flags, its file and all other descriptors |
| FileSpec.ReadsJoin | fs/vfs.c:588-616 | two reads in a row are one read of both lengths |
| FileSpec.ReadIs | fs/vfs.c:588-616 | a read gives the bytes from the position on, as many as asked for or as there are, and moves its descriptor by them |
| FileSpec.OpenIs | fs/vfs.c:459-575 | what is in the file and where the descriptor stands after opening with and without truncation and append; nothing else changes |
| FileSpec.AppendExtends | fs/vfs.c:570-572 | opening for appending and writing puts the bytes behind those there were |
| FileSpec.ReplaceThenRead | fs/vfs.c:545-569 | opening with truncation and writing leaves what was written, which a later descriptor reads back in full |
| FileSpec.OthersStay | fs/vfs.c:578-676 | closing, deleting and seeking change one descriptor or one file |
| FileSpec.TargetIs | fs/vfs.c:664-674 | a seek goes to the sum, to the start if that is negative, and 2^32 further down if it does not fit 32 bits |
| FileSpec.ThereAndBack | fs/vfs.c:664-674 | seeking forward and back ends where it began exactly if the target was not cut off |
| FileSpec.LastWriteWins | fs/vfs.c:588-676 | after any run of writes each byte is the last one written there, else the first one, else zero |
| Uncached.ReadFatDirect | fs/vfs.c:156-170 | with everything on the device it reads what the cached reader reads |
| Uncached.ScanDirectory | fs/vfs.c:356-421 | with everything on the device it lists the directory that cached readers see, up to the caller's limit |
| Uncached.ListedIsLive | fs/vfs.c:356-421 | no live entry of an 8.3 directory is missing from the listing |
| Uncached.ListedComesFrom | fs/vfs.c:356-421 | nothing else is listed |
| Uncached.ListedInOrder | fs/vfs.c:376-404 | the listing tells of the entries before the first end marker that are neither deleted nor long-name slots, each once, in the order of the directory |
| Uncached.LimitKept | fs/vfs.c:392-403 | a listing is cut off behind the number of entries the caller has room for, and nowhere else |
| Uncached.ListingFields | fs/vfs.c:393-402 | what is told of an entry: its name, size, first cluster, and the directory bit |
| Pmm.FrameAllocator.constructor | mem/pmm.c:148-315 | after start-up a frame is in use exactly when no available range touches it or a reserved one does; counter and hint are right |
| Pmm.MarkedTouches | mem/pmm.c:92-118 | which frames a reserved range marks, its end computed in 32 bits |
| Pmm.LastPageNotMarked | mem/pmm.c:92-118 | two pages reserved at the last page below 4 GiB mark nothing |
| Pmm.ClippedFrees | mem/pmm.c:209-219 | clipping an available range at 4 GiB loses nothing, except a range that spans all of it |
| Pmm.TouchesAByte | mem/pmm.c:92-146 | a range touches a frame exactly if one byte of the frame is in the range |
| Pmm.FrameAllocator.FindClear | mem/pmm.c:336-380 | the word and bit scan finds the lowest clear bit of its range |
| Pmm.FrameAllocator.AllocPage | mem/pmm.c:383-432 | takes the lowest free frame: the hint never hides one |
| Pmm.FrameAllocator.AllocPageBelow | mem/pmm.c:317-381 | takes the lowest free frame if it lies under the limit, else changes nothing |
| Pmm.FrameAllocator.RefDec | mem/pmm.c:511-532 | drops one reference; the last one frees the frame and lowers the hint to it |
| Pmm.FrameAllocator.RefInc | mem/pmm.c:494-509 | adds one reference below the cap |
| Pmm.FrameAllocator.MarkUsed | mem/pmm.c:476-492 | marks without counting twice |
| Pmm.TakeThenDrop | mem/pmm.c:383-457 | allocating and freeing gives back the frames as they were |
| Pmm.AddThenDrop | mem/pmm.c:494-532 | dropping undoes adding below the cap |
| Pmm.MarkThenDrop | mem/pmm.c:476-532 | dropping undoes marking a free frame |
| Pmm.OneFrame | mem/pmm.c:383-532 | what taking, dropping, adding and marking do to one frame and its references; all other frames stay |
| Pmm.FreeMeansRoom | mem/pmm.c:383-432 | there is a free frame exactly when the used count is below the total |
| Pmm.ZeroIsAmbiguous | mem/pmm.c:383-432 | answer 0 exactly when memory is exhausted or frame 0 is free |
| Pmm.SaturationLosesAReference | mem/pmm.c:506-508 | at the cap an added reference is lost |
| PageEntry.DecodeEncode | mm/paging.c:62-80 | an entry written and read back is the entry |
| PageEntry.EntryBits | mm/paging.c:62-80 | the bits of the word written for an entry: 0 present, 1 writable, 2 user, 9 copy-on-write, the frame from bit 12 on |
| PageEntry.DecodeBits | mm/paging.c:73-80 | what is read from any word: the frame from bit 12 on, and bits 0, 1, 2 and 9 |
| PageEntry.WithIsOr | mm/paging.c:300-317 | setting and clearing a flag sets and clears its one bit of the word |
| PageEntry.OneBit | mm/paging.c:284-320 | setting or clearing one bit leaves the other bits and the frame |
| PageTables.RecursiveWindow | mm/paging.c:82-88 | through the recursive slot the directory shows at 0xFFFFF000 and table i at 0xFFC00000 + 4096 i |
| PageTables.EntryWritten | mm/paging.c:187-241 | writing one table entry changes one translation, and no other if the table is exclusive |
| PageTables.IsolatedIffExclusive | mm/paging.c:187-320 | a change stays in its directory exactly when no other slot names the table |
| PageTables.TableAdded | mm/paging.c:132-151 | a new zeroed table changes no translation and has one owner |
| PageTables.NothingElseOpened | mm/paging.c:144-157 | opening a slot to users gives them no page that was not marked for them already, and takes none away |
| PageTables.DirectoryAdded | mm/paging.c:366-389 | a new directory maps nothing below 0xC0000000, shares the kernel's tables above, and disturbs no directory |
| KernelAccess.StoresWhereWritable | mm/paging.c:511-514 | with write protection on, the entry of a page alone decides whether the kernel can write it, since all slots are writable |
| KernelAccess.WindowIsWritable | mm/paging.c:82-88 | through the recursive window every table of the current directory can be written |
| KernelAccess.MadeExactly | mm/paging.c:366-389 | a frame becomes a directory exactly when the two pages used show the right frames |
| KernelAccess.FreshDirectoryFaults | mm/paging.c:377-378 | from a fresh user directory the creation of another one faults |
| Paging.Boot | mm/paging.c:451-512 | the boot directory maps the first 64 MiB at 0 and at 0xC0000000 and nothing else below the recursive window, with all tables in frames in use |
| Paging.BootCreates | mm/paging.c:366-389 | in the boot directory creation goes through exactly for frames below 64 MiB |
| Paging.LowMemoryExhausted | mm/paging.c:370-378 | with all frames below 64 MiB in use, creation from the boot directory faults at its first store |
| Paging.BootTables | mm/paging.c:483-505 | its low tables are shared with the high ones, so they are not exclusive |
| Paging.UserIsExclusive | mm/paging.c:123-162 | user-half tables of every other directory have one owner |
| Paging.AddressSpaces.Walk | mm/paging.c:123-162 | finds or creates the table; no translation changes; fails exactly when a frame is needed and none is free; its directory entry is marked for users exactly if it was or the caller asks for it, and no other word of any directory changes |
| Paging.AddressSpaces.MapPage | mm/paging.c:187-214 | maps exactly when the request is well formed, the page unmapped and a table available; a single-key update; user code can then read the page exactly if the user bit was asked for, and write it exactly if both bits were |
| Paging.AddressSpaces.UnmapPage | mm/paging.c:220-241 | unmaps exactly the mapped pages; a single-key removal |
| Paging.AddressSpaces.UpdateFlags | mm/paging.c:284-320 | sets, then clears, the three bits of one mapping |
| Paging.FlagsReach | mm/paging.c:284-320 | after a change of flags user code reaches the page as far as the new flags and the unchanged directory entry allow; frame and copy-on-write bit are as asked |
| Paging.AddressSpaces.GetMapping | mm/paging.c:255-282 | tells frame, offset and bits of a mapping |
| Paging.AddressSpaces.MapPageIn | mm/paging.c:333-342 | the same in another directory, user access included: the current one is restored, and a user page disturbs no other translation anywhere |
| Paging.AddressSpaces.UnmapPageIn | mm/paging.c:344-353 | likewise for unmapping |
| Paging.AddressSpaces.UpdateFlagsIn | mm/paging.c:322-331 | likewise for reflagging |
| Paging.AddressSpaces.GetMappingIn | mm/paging.c:355-364 | likewise for looking up |
| Paging.AddressSpaces.CreateUserDirectory | mm/paging.c:366-389 | no frame exactly when none is free; else all stores and loads through the current directory, with a fault or the frame they fill in every case; where the pages show the right frames, an empty user half, the kernel's other half, no page that user code could reach, all other directories as before |
| Paging.AddressSpaces.TempMap | mm/paging.c:93-113 | the scratch page shows the frame; no other page of any directory changes |
| Vm.FaultHandler.CowFault | mm/vm.c:166-210 | all or nothing: a private writable copy with the same bytes and user bit and one reference less on the old frame, or nothing changed; succeeds exactly when the page is marked and frames suffice; user code can then read and write the page exactly if the page was marked for it; all other data frames keep their words |
| Vm.Swapped | mm/vm.c:200-206 | after the copy, unmapping and remapping cannot fail |
| Vm.CowBalance | mm/vm.c:166-210 | the frames after the fault: one taken for the copy, one more if the scratch page had no table, one reference less on the old frame, which is free if that was its last |
| Paging.DataWritten | mm/vm.c:195-198 | writing a frame that is no table touches no translation |
| Heap.KernelHeap.AllocatePages | mm/vm.c:46-74 | the lowest run of free pages, 0 exactly when there is none |
| Heap.OutOfUsersReach | mm/vm.c:143-148 | user code reaches no heap page, in the current directory or through the same table in another one |
| Heap.KernelHeap.LazyFault | mm/vm.c:126-164 | a lazy page gets a zeroed frame of its own exactly when frames suffice, else nothing changes; frames in use that are no tables keep their words |
| Heap.KernelHeap.ReleasePage | mm/vm.c:99-117 | one page given back with its frame; frames still in use that are no tables keep their words |
| Heap.KernelHeap.FreePages | mm/vm.c:76-120 | frees up to the first page that is free already, and says so; no other page of any directory changes, and no word of a frame still in use |
| Heap.PassesExactly | mm/vm.c:90-95 | which ranges pass the checks, in 32-bit arithmetic |
| Heap.StartHeap | mm/vm.c:36-44 | paging_init and vm_init in turn leave a heap whose pages are all free and unmapped |
| Heap.HeapFramesReturn | mm/vm.c:46-164 | between two states with no backed page, every frame the heap gained is a table |
| Heap.PageReserved | mm/vm.c:143-163 | after a first touch every frame in use is a table, backs exactly one heap page, or belongs to others |
| Heap.PageReleased | mm/vm.c:105-116 | the same after a page is given back, and its frame is free |
| Checksum.IpChecksum | net/ip.c:16-31 | computes the complement of the folded sum without overflowing 32 bits |
| Checksum.ChecksumOfNumber | net/ip.c:16-31 | the checksum of a string, zero-padded to even length, is what its big-endian number leaves to a multiple of 65535; only the number zero has the checksum 65535 |
| Checksum.OddIsPadded | net/ip.c:24-26 | an odd string has the checksum of the same string with a zero byte behind it |
| Checksum.WorkedExamples | net/ip.c:16-31 | the example of section 3 of RFC 1071 and a single byte |
| Checksum.FoldIs | net/ip.c:27-29 | folding keeps the sum modulo 65535, and only zero folds to zero |
| Checksum.VerifiesExactly | net/ip.c:16-31 | no other value in the field makes the whole verify, save the other zero |
| Checksum.SelfVerifies | net/ip.c:16-31 | a checksum stored in a zeroed even-aligned field makes the checksum of the whole zero, for every length |
| Packets.IpOutput.Build | net/ip.c:34-69 | the buffer holds the packet; oversized payloads are refused before anything changes, those whose total length wraps run over the buffer |
| Packets.ReceiveIp | net/ip.c:87-132 | passes on exactly the packets with a sound header and a total length that fits or wraps, with the place and length of the payload |
| Packets.AcceptedExactly | net/ip.c:104-132 | sound means version 4, header within total length, and the checksum of the header with its field zeroed in that field; what is passed on lies in the frame exactly when 14 plus total length does not wrap |
| Packets.LongestLengthWraps | net/ip.c:115-118 | a header alone with total length 65535 is passed on |
| Packets.TcpChecker.Checksum | net/tcp.c:28-42 | the checksum over pseudo-header and segment, inside the buffer exactly up to 1480 bytes |
| Packets.TcpChecker.Receive | net/tcp.c:224-244 | reads exactly the segments with a fitting offset, a sound checksum and at most 1480 bytes; says when the buffer does not suffice |
| Packets.SegmentAcceptedExactly | net/tcp.c:224-244 | a sound checksum field is the checksum with that field zeroed, zero standing for itself or for all ones |
| Packets.OneByteBeyond | net/tcp.c:20-40 | 1481 bytes with their pseudo-header are one byte more than the buffer |
| Packets.SentIsAccepted | net/ip.c:34-132 | every built packet is accepted, with any padding, and gives back protocol, addresses and payload |
| Packets.PacketLayout | net/ip.c:51-69 | a built packet field by field, in network byte order |
| Packets.SegmentIsAccepted | net/tcp.c:45-80 | every built segment passes the receiver's checks and reads back |
| Packets.SegmentLayout | net/tcp.c:28-80 | pseudo-header and built segment field by field, in network byte order |
| Packets.SegmentVerifies | net/tcp.c:28-42 | the pseudo-header keeps the checksum field even-aligned |
| TcpStream.TcpSocket.Push | net/tcp.c:83-95 | appends as many bytes as the ring has room for |
| TcpStream.TcpSocket.Recv | net/tcp.c:206-209 | hands out the oldest unread bytes, as many as there are or were asked for: what it hands out goes behind what was handed out before, and what is unread is the rest |
| TcpStream.TcpSocket.Receive | net/tcp.c:223-278 | reset, handshake and data path of an open socket: data is taken only when it is next, behind what is unread and up to the ring's room, and moves the expected number by its whole length; a socket that is not open takes nothing |
| TcpStream.TcpSocket.Send | net/tcp.c:179-188 | refused unless open, established and sendable, with the sequence number as it was; else at most one segment's worth under the running sequence number, which moves on by its length |
| TcpStream.DeliverTracks | net/tcp.c:274-278 | an arrival keeps returned plus unread bytes the stream's prefix exactly when it is not next or fits |
| TcpStream.RunTracks | net/tcp.c:191-278 | over any run with reordering, loss and duplication, returned plus unread bytes are the prefix that the sequence number measures |
| TcpStream.Serve | net/tcp.c:191-278 | over any fair run of arrivals and reads the buffers handed out are, put together, the stream from where the reader stood; each is as long as what was unread or asked for |
| TcpStream.InOrderIsReturned | net/tcp.c:179-278 | what is sent in chunks, arrives in order and is read in between is returned whole |
| TcpStream.SentIsCut | net/tcp.c:179-188 | what the sender numbers one after the other is cut from one stream |
| Reassembly.MarkBlocks | net/ipv4.c:41-49 | marks exactly the blocks of the fragment |
| Reassembly.AllBlocksPresent | net/ipv4.c:51-61 | all blocks up to the length are marked |
| Reassembly.Reassembler.Receive | net/ipv4.c:198-210 | an unfragmented datagram is handed on as it is and takes no slot |
| Reassembly.Reassembler.Reassemble | net/ipv4.c:74-135 | delivers exactly when the arrival completes the datagram, and then the payload; other datagrams are not touched; fragments beyond the buffer or without a slot change nothing; four datagrams always find slots |
| ReassemblyRuns.Reassembled | net/ipv4.c:74-153 | any run of arrivals and ticks over up to four datagrams gives out exactly the payloads the run delivers, in order |
| ReassemblyRuns.DeliveredExactly | net/ipv4.c:74-153 | over a run with interleaving, reordering and duplication a datagram is delivered exactly when its last fragment and all its blocks have arrived in time |
| ReassemblyRuns.SentIsDelivered | net/ipv4.c:74-263 | once every fragment of a payload of at most 1536 bytes is among the arrivals, in time, it has been delivered |
| Reassembly.ReadyIsComplete | net/ipv4.c:117-131 | a slot is ready exactly when last fragment and all blocks have come, and then holds the payload |
| Reassembly.OversizeNever | net/ipv4.c:80-82 | a datagram larger than the buffer is never delivered, since its last fragment is always dropped |
| Reassembly.Reassembler.Tick | net/ipv4.c:142-153 | gives up exactly the slots idle for more than 100 ticks on a wrapping clock, and changes nothing else in any slot |
| Reassembly.SendFragments | net/ipv4.c:226-263 | the fragments are consecutive cuts that fit a frame and together complete the payload |
| Reassembly.AllArrivedIsComplete | net/ipv4.c:226-263 | once all fragments have arrived, in any order and number, the datagram is complete |

## Left out

- Long file names: decoding, creation and deletion of long-name slots; names here are 8.3 names only.
- Directory.DirFind: long-name slots are passed over, where the C code also compares the decoded long name.
- DirWrite.DirCreate: one slot only, for entries that need no long name.
- Vfs.FileTable.Open: paths are names in one directory; path splitting, nested directories and the volume label opened as a file are not modelled.
- Vfs.FileTable.Write: says nothing of the files after a write in which a transfer failed, unless it returns the length untorn.
- ChainIO.WriteChain: what a write leaves when it fails because of a failing transfer is described by the order of its device writes only.
- Vfs.FileTable.Delete: files only; the emptiness test and deletion of directories are not modelled.
- Two descriptors for one file: the contracts of Open and Delete speak of files that are not open elsewhere.
- vfs_mkdir, vfs_rename, vfs_stat and the whole-file helpers, which combine the operations above.
- Format.Remount: asks that boot sector and FSInfo are as mounting needs them; formatting makes them so, and barrier, allocator and freeing keep them so, which is not stated for the file calls above them.
- fat32_fsck beyond its flush and count: it rewrites the second FAT on the device behind the cache.
- Null-pointer checks, volume indices, and the current_cluster field of descriptors, which nothing reads.
- Ordering on the device at every single write is claimed for extension only: deletion and truncation free a chain before the entry goes. Between calls it holds after them too (`Vfs.FileTable.NeatIsOrdered`).
- Pmm.FrameAllocator.constructor: the Multiboot map is a list of available and reserved ranges; parsing it is not modelled.
- Paging.AddressSpaces.Walk: this and what builds on it speaks of pages below the recursive window at 0xFFC00000; there is no TLB in the model: an entry takes effect when it is written.
- Paging.AddressSpaces.CreateUserDirectory: a page fault ends the call; it is not resumed where the fault handler of mm/vm.c would repair a lazy or copy-on-write page that happens to have the new frame's address.
- Paging.Boot: ends before the identity maps of boot structures and the read-only protection of the kernel text.
- Vm.FaultHandler.CowFault: requires that the page marked copy-on-write maps no free frame and no table, and is not the scratch page; copies words where the C code copies bytes.
- Heap.KernelHeap.FreePages: a wrapped size must meet a free page, since without one the C code leaves its table.
- Kernel-half mappings made after a directory was created, as seen from that directory.
- Packets.IpOutput.Build: next-hop choice, address resolution and the link; where a payload runs over the buffer the model stops.
- Packets.TcpChecker.Checksum: where a segment runs over the buffer the model stops.
- Packets.ReceiveIp: dispatch to the protocols; `behind` stands for the bytes that memory holds behind the frame, since a header may reach there.
- TcpStream.TcpSocket.Receive: segments with FIN, answers' contents, timeouts and polling.
- Reassembly.Reassembler.Reassemble: fragments are cuts of one payload per identification; header parsing and header bytes are left out, and the block bitmap is a sequence of booleans.
- Spinlocks, interrupts, drivers, logging, the desktop, the shell and the boot code.
