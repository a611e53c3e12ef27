# Canyon: verified models of the file system, the frame allocator and the ELF mapper

Canyon is a small x86-64 operating system in Rust. This project models its three stateful cores in Dafny and
proves what they promise for every input, every run and every interleaving of threads:

* **CAFS** (`fs/src/cafs`), the file system: the inode index tree, the write-back block cache, the bitmap
  allocator, the inode cache, the directory encoding and the operations `init`, `open`, `create`, `write`, `data`,
  `sub_inodes`, `df` and `flush`; above it the **VFS** (`fs/src/vfs`) with its tree of directory entries.
* the **physical frame allocator** (`kernel/src/memory/frame.rs`) and its DMA client.
* the **ELF segment mapper** of the boot loader (`bootloader/efi/src/page_table.rs`).

`dafny verify dfyconfig.toml` checks the whole project.

## How the model is built

| file | what it models |
|---|---|
| `Prelude.dfy` | types shared by all |
| `Layout.dfy` | block types, constants, `index_blocks` and its ceiling arithmetic |
| `Sequences.dfy` | sorting, distinctness, padding |
| `IndexTree.dfy` | flattening (`blocks`) and radix lookup (`get_block_id`) of an index tree |
| `IndexBuild.dfy` | `forward`, `extend`, `shrink` as functions on stores, and histories of resizes |
| `Cache.dfy` | the block cache used by one thread, as a class |
| `CacheProtocol.dfy` | the block cache shared by threads, as a state machine over lock, read guard, device and queue steps; who waits for whom, and deadlock |
| `Bitmap.dfy` | the bitmap allocator over the cache, as methods |
| `BitmapProtocol.dfy` | `alloc` under interleaving |
| `MetaOps.dfy` | `blocks`, `get_block_id`, `forward`, `extend`, `shrink`, `clear_size` as methods over the cache |
| `FileSystem.dfy` | the disk regions and the invariant that ties a disk to a map from inode numbers to files |
| `FsOps.dfy` | the block-level halves of `init`, `create`, `write`, `data` as methods |
| `InodeCache.dfy` | eviction from the 32-slot inode cache, by reference counts |
| `Directory.dfy` | the inode-number codec and the zero-separated directory |
| `Cafs.dfy` | the class `CAFS` with inode objects shared by handles |
| `CodedShrink.dfy` | the shrinking branch of `write` as coded, with `dealloc` editing whatever block it computes |
| `History.dfy` | whole histories of creates, writes, reads, handle drops and mounts: a client's view of them, and the `CAFS` object against it |
| `Vfs.dfy` | paths, the tree of directory entries, `create`/`read`/`write` by path, mounting again, sequences of calls |
| `FrameAllocator.dfy` | the free list and the DMA provider |
| `ElfMapper.dfy` | page table, physical memory, `map_segment`, `map_elf` |

Two ideas run through the file system part. The class `CacheManager` keeps a ghost `view`, the device overlaid by
the cached blocks; every operation above it is specified on that view, so eviction is invisible by construction of
the contracts. The predicate `FsOk` says that a view holds a given map of files: every inode's tree is the one
`forward` builds from its ids, its data blocks hold its bytes, a bit of a bitmap is set exactly when the block or
inode behind it is owned, and no block is owned twice. `CAFS.Valid` adds that cached inode objects agree with the
disk and that no more than five block handles were ever held at once.

Where the code and what it is for disagree, the model follows the code and says exactly when the two agree:

* The comment at fs/src/cafs/layout.rs:374 speaks of 511 entries in an index block; the code has 63.
* A shrinking `write` passes block ids where `dealloc` wants bit numbers (fs/src/cafs/mod.rs:459-464). `CodedShrink`
  models what that does. If it does not panic, the bitmap stays right if and only if the file keeps its number of data
  blocks (`CodedShrink.LeakWitness` exhibits a leak), and another file stays intact if and only if none of its blocks is
  one that `dealloc` takes for a bitmap block (`CodedShrink.ShrinkSparesOthers`). With no fewer inode than data bitmap
  blocks, as in `fake_fs` (fs/src/cafs/mod.rs:522-531), every id misses the bitmap and `dealloc` edits a block of the
  data area. `CAFS.Write` takes the number subtracted from the ids as the parameter `rebase`: 0 is the code, the start of
  the data area its design.
* `create` puts the new inode into the inode cache twice, so its slots are never freed. `CAFS.Create` states exactly
  when it panics: no inode or block left, a name too long, or no slot. In the histories of `History.Replay` the sixteenth
  create of a mount is the one without a slot.
* `create` through a path checks neither duplicates nor the parent's type: `Vfs.MadeIsFound` and `Vfs.MadeAgrees`
  say exactly when the new file can be found, and when it is still there after the next mount.
* `map_segment` rounds the file offset down without counting the bytes it adds. With the page count unchanged by that
  (`ElfMapper.CountsPages`, which holds for every page-aligned segment) the image is right. Otherwise the last page of
  the file part is left out: `ElfMapper.Machine.MapSegment` says exactly when such a segment fails, when it panics, and
  when its image is right all the same.
* `map_segment` maps the page of the address one past a zeroed part. When that address starts a page, this page holds no
  byte of the segment, so `map_elf` can refuse a file whose segments share no page (`ElfMapper.ApartButRefused`).
  `ElfMapper.MapsItsPages` says exactly when the mapped pages are those that hold the segment.
* The merge with the lower neighbour in `deallocate` is never taken; freeing a free frame always breaks the list.
* A concurrent `alloc` may return None although a bit is free: exactly the bits that were given back during its scan
  and not taken again (`BitmapProtocol.NoneLeavesFree`).
* `flush` beside a thread that holds a block's lock or read guard and calls `get`, as `write` and `CaInode::from` do, can
  deadlock (`CacheProtocol.FlushDeadlock`). `CacheProtocol.BlockedIs` says exactly which threads cannot step,
  `CacheProtocol.DeadlockIsForever` that a deadlocked set of threads never steps again, and
  `CacheProtocol.NeverDeadlocked` gives a discipline under which none arises.

## Model

| member | source | states |
|---|---|---|
| `Layout.LevelCounts` | fs/src/cafs/layout.rs:145-186 | for every size up to L4_MAX each level count is the ceiling of the level below over 63, the top level used has exactly one block and nothing above it is used |
| `Layout.CapacityIsExact` | fs/src/cafs/layout.rs:387-394 | L4_MAX is exact: a size fits if and only if the one L4 block can hold its L3 entries |
| `Layout.RecordSizes` | fs/src/cafs/layout.rs:41-51 | size, 36 direct entries, indirect pointer, type and name fill an inode's block; 63 entries and a type fill an index block |
| `Layout.TierBoundaries` | fs/src/cafs/layout.rs:145-186 | for every size: no index block up to 18432 bytes, exactly one up to 50688, and the height of the tree changes at 2050560 and at 128042496 |
| `Layout.CountsAreMonotone` | fs/src/cafs/layout.rs:349-354 | data and index counts never fall as the size grows, across all tier boundaries, so the subtractions in `shrink` and `write` do not underflow |
| `Layout.SameDataSameIndex` | fs/src/cafs/layout.rs:136-186 | the index counts depend on the number of data blocks only |
| `Layout.SumsFitU64` | fs/src/cafs/layout.rs:140-186 | the sums taken inside the count arithmetic stay below 2^64 |
| `Sequences.SortedIsUnique` | fs/src/cafs/layout.rs:110-133 | a sorted list is determined by its multiset, which makes the sorted index list of `blocks` well determined |
| `IndexTree.BlocksOfBuilt` | fs/src/cafs/layout.rs:110-133 | flattening an index built from `idx` and `dat` yields the sorted `idx` and `dat` in its original order, at every depth |
| `IndexTree.WalkRow` | fs/src/cafs/layout.rs:506-540 | walking a block from any entry on collects exactly the data ids, in order, and the index ids that the levels below hold there |
| `IndexTree.LookupNode` | fs/src/cafs/layout.rs:470-493 | radix descent from a block of any level finds the data id at that position |
| `IndexTree.LookupOfBuilt` | fs/src/cafs/layout.rs:91-107 | `get_block_id(i)` is the i-th data id for i below the count and None for every larger i, at every depth |
| `IndexTree.IndexOnDisk` | fs/src/cafs/layout.rs:188-315 | where every id stands on the disk: the first 36 data ids in the inode, the index ids dealt out from the root down, and in each block of a level the next 63 ids of the level below, zeros past the end |
| `IndexTree.DataFitsSpan` | fs/src/cafs/layout.rs:470-493 | a level of n blocks covers at most n spans of data, so digits of an index in range never leave the tree |
| `IndexBuild.ForwardBuilds` | fs/src/cafs/layout.rs:188-315 | `forward` builds the index of exactly the ids it is given and changes no other block |
| `IndexBuild.RoundTrip` | fs/src/cafs/layout.rs:188-315 | `forward` then `blocks` returns the sorted index list and the data list in order, for every size up to L4_MAX |
| `IndexBuild.ExtendKeeps` | fs/src/cafs/layout.rs:319-335 | `extend` keeps the old data ids as a prefix and puts the new index ids after the sorted old ones; owned ids are the old ids plus the supplied ones, each once |
| `IndexBuild.ShrinkKeeps` | fs/src/cafs/layout.rs:339-363 | `shrink` keeps a prefix of the data ids; kept ids plus returned ids are the old ids as multisets |
| `IndexBuild.ShrunkIds` | fs/src/cafs/layout.rs:339-363 | how many ids of each kind `shrink` keeps and returns: those the new size calls for, and the rest |
| `IndexBuild.ShrinkReturns` | fs/src/cafs/layout.rs:339-363 | which ids `shrink` returns and in which order: index ids from the largest down, data ids from the last |
| `IndexBuild.FreshIsValid` | fs/src/cafs/layout.rs:55-61 | a new inode is a valid index that owns nothing |
| `IndexBuild.HistoryConserves` | fs/src/cafs/layout.rs:319-363 | over every sequence of extends and shrinks, ids held at the end plus ids returned equal ids held at the start plus ids supplied |
| `IndexBuild.HistoryFromEmpty` | fs/src/cafs/layout.rs:319-363 | from an empty inode every sequence of resizes ends with exactly the counts of the final size, all ids distinct, and lookup and flattening agree |
| `Cache.EvictKeeps` | fs/src/cafs/cache.rs:72-76 | dropping an unheld entry, written back if modified, leaves the view and every held block as they were |
| `Cache.LoadKeeps` | fs/src/cafs/cache.rs:18-27 | loading a block that is not cached leaves the view as it was |
| `Cache.SyncKeeps` | fs/src/cafs/cache.rs:54-61 | `sync` brings the device up to date at one block and leaves the view as it was |
| `Cache.PokeKeeps` | fs/src/cafs/cache.rs:67-69 | `modify` changes the view at that block and nowhere else |
| `Cache.VictimExists` | fs/src/cafs/cache.rs:102-111 | a full cache with fewer than 32 held blocks has an entry to evict |
| `Cache.CacheManager.Evict` | fs/src/cafs/cache.rs:100-110 | the substitution step drops the first entry nobody holds, writes it back if modified, and keeps the view |
| `Cache.CacheManager.Get` | fs/src/cafs/cache.rs:91-119 | a cached block is found with nothing changed, another is loaded into the last slot; the view is the same; the panic is excluded exactly by its condition |
| `Cache.CacheManager.Open` | fs/src/cafs/cache.rs:91-119 | taking a handle and its lock records it and leaves the view; a thread never locks a block it already holds for writing |
| `Cache.CacheManager.Flush` | fs/src/cafs/cache.rs:121-125 | with no lock held, the device equals the view afterwards |
| `CacheProtocol.OneLiveCopy` | fs/src/cafs/cache.rs:91-119 | in every state of every interleaving each block has at most one live cache object, evicted ones being written back included |
| `CacheProtocol.OneHandleObject` | fs/src/cafs/cache.rs:91-119 | any two held handles of one block are the same object |
| `CacheProtocol.StepKeeps` | fs/src/cafs/cache.rs:54-125 | every step of every thread (queue lock, block lock, read guard, search, evict, write back, load, push, modify, sync, drop) keeps the invariant, 32 slots included |
| `CacheProtocol.StepShows` | fs/src/cafs/cache.rs:54-125 | one step changes the device overlaid by live blocks only if it is a `modify`, and then at that block |
| `CacheProtocol.ViewIsUnique` | fs/src/cafs/cache.rs:54-76 | the overlay is a function of the state |
| `CacheProtocol.RunRefines` | fs/src/cafs/cache.rs:91-125 | over every interleaved run the cache over the device is a plain disk to which the modifications are applied in order |
| `CacheProtocol.ReadsSeeLastModify` | fs/src/cafs/cache.rs:63-69 | every read through a handle returns the last modification of its block by any thread |
| `CacheProtocol.GetReturns` | fs/src/cafs/cache.rs:91-119 | in every run, `get(b)` hands its caller one handle, of a live object of block b, whatever other threads do between call and return |
| `CacheProtocol.GetThenUse` | fs/src/cafs/cache.rs:63-119 | what is read through that handle, as long as it is held, is what a plain disk holds at b, and what is modified is b and nothing else |
| `CacheProtocol.AccountsBalance` | fs/src/cafs/cache.rs:91-125 | in every run a thread's handles are those given less those dropped, its read guards those taken less those let go, and it owns a lock exactly when it took it once more than it let it go |
| `CacheProtocol.FlushSaves` | fs/src/cafs/cache.rs:121-125 | when `flush` returns, the device holds for each block what it held when `flush` began, unless that block was modified meanwhile, whatever other threads do |
| `CacheProtocol.CleanStays` | fs/src/cafs/cache.rs:54-61 | a block that `flush` has passed stays on the device under every other thread's steps |
| `CacheProtocol.EvictsFirst` | fs/src/cafs/cache.rs:100-108 | in every run an eviction happens with all 32 slots taken, takes the first block that no thread holds and moves the last slot into its place |
| `CacheProtocol.RunOutMeans` | fs/src/cafs/cache.rs:109-111 | the panic of `get` happens only when 32 different blocks are held at that moment |
| `CacheProtocol.GuardedStays` | fs/src/cafs/mod.rs:68-80 | while a thread holds a read guard, no thread's step changes or drops the block |
| `CacheProtocol.BlockedIs` | fs/src/cafs/cache.rs:91-125 | a thread that has not panicked is unable to step if and only if it waits for a thread inside the queue's lock, or for the holder of a block's write lock or read guard |
| `CacheProtocol.DeadlockStays` | fs/src/cafs/cache.rs:91-125 | a set of threads each of which waits for one of them takes no step, and stays so under every step of the others |
| `CacheProtocol.DeadlockIsForever` | fs/src/cafs/cache.rs:91-125 | in every run such threads take no step from then on |
| `CacheProtocol.DeadlockOrProgress` | fs/src/cafs/cache.rs:91-125 | in every state without a panic each thread leads, directly or in turn, to one that can step, or those that do not are a deadlocked set |
| `CacheProtocol.FlushDeadlock` | fs/src/cafs/cache.rs:91-125 | a run of three threads for either kind of holder: one inside `get` with a block locked or read, one in `flush`, deadlocked while the third can go on |
| `CacheProtocol.LockDeadlock` | fs/src/cafs/cache.rs:63-69 | a run in which a thread asks for the write lock of a block it holds and is deadlocked by itself |
| `CacheProtocol.CalmKept` | fs/src/cafs/cache.rs:91-125 | every step that keeps the discipline keeps what excludes deadlock: locks are asked for in order and holders are outside `get` while anyone flushes |
| `CacheProtocol.CalmLeads` | fs/src/cafs/cache.rs:91-125 | in such a state every thread can step or waits, directly or in turn, for one that can |
| `CacheProtocol.NeverDeadlocked` | fs/src/cafs/cache.rs:91-125 | in every run in which threads ask for block locks and read guards in some fixed order of the blocks, call `flush` holding none and only while no holder is inside `get`, and as holders call `get` only while nobody flushes: no set of threads is ever deadlocked, and every thread can step or waits, directly or in turn, for one that can |
| `CacheProtocol.VictimFound` | fs/src/cafs/cache.rs:102-111 | with fewer blocks held, a thread that finds the cache full can evict |
| `Bitmap.TrailingOnesIsFirstClear` | fs/src/cafs/bitmap.rs:64-64 | `trailing_ones` of a word that is not all ones is its lowest clear bit |
| `Bitmap.SetBitOf` | fs/src/cafs/bitmap.rs:68-70 | the or adds exactly that bit to the set of bits of the whole bitmap |
| `Bitmap.ClearBitOf` | fs/src/cafs/bitmap.rs:83-94 | the subtraction removes exactly that bit |
| `Bitmap.Decompose` | fs/src/cafs/bitmap.rs:97-102 | block, word and position determine the bit number |
| `Bitmap.AllocIn` | fs/src/cafs/bitmap.rs:56-75 | one round of the loop takes the lowest clear bit of the block, or finds it full |
| `Bitmap.Alloc` | fs/src/cafs/bitmap.rs:54-81 | returns the lowest clear bit and changes only that bit; None exactly when every bit is set |
| `Bitmap.Dealloc` | fs/src/cafs/bitmap.rs:83-94 | clears exactly the given set bit |
| `Bitmap.CountOnes` | fs/src/cafs/bitmap.rs:37-45 | the shift loop counts the ones of a word |
| `Bitmap.OnesCountBits` | fs/src/cafs/bitmap.rs:37-45 | that count is the number of set bits below the word's width |
| `Bitmap.FreeCount` | fs/src/cafs/bitmap.rs:26-52 | the result plus the number of set bits is the number of bits |
| `BitmapProtocol.NotTwice` | fs/src/cafs/bitmap.rs:54-81 | under every interleaving a bit is handed out twice only if it was given back in between |
| `BitmapProtocol.NoneLeavesFree` | fs/src/cafs/bitmap.rs:54-81 | under every interleaving, when `alloc` returns None a bit is free if and only if it was given back during the scan and not taken again |
| `BitmapProtocol.TakesLowest` | fs/src/cafs/bitmap.rs:54-81 | under every interleaving `alloc` takes a free bit, and a lower bit is free then if and only if it was given back during the scan and not taken again |
| `BitmapProtocol.NoneMeansFull` | fs/src/cafs/bitmap.rs:54-81 | so a scan that ends in None while nobody gives bits back leaves every bit set |
| `BitmapProtocol.NoneThoughFree` | fs/src/cafs/bitmap.rs:54-94 | a run in which `alloc` returns None although a bit was given back during its scan |
| `MetaOps.ToVecHeld` | fs/src/cafs/layout.rs:506-540 | the recursive walk through the cache returns the flattening, changes nothing and holds one handle a level |
| `MetaOps.LookupHeld` | fs/src/cafs/layout.rs:470-493 | the recursive descent through the cache returns the data id at that position and holds one handle a level |
| `MetaOps.GetBlockIdOf` | fs/src/cafs/layout.rs:91-107 | through the cache, the id of data block i, None past the last, with at most four handles more |
| `MetaOps.BlocksOf` | fs/src/cafs/layout.rs:110-133 | through the cache, `blocks` returns the sorted index ids and the data ids, with at most four handles more |
| `MetaOps.Forward` | fs/src/cafs/layout.rs:188-315 | the four writing loops leave the view that `forward` as a function describes |
| `MetaOps.WriteLevel` | fs/src/cafs/layout.rs:220-312 | one level's loop writes each of its index blocks with the next 63 ids of the level below |
| `MetaOps.ExtendMeta` | fs/src/cafs/layout.rs:319-335 | `extend` over the cache is `extend` as a function, whose properties are `IndexBuild.ExtendKeeps` |
| `MetaOps.ShrinkMeta` | fs/src/cafs/layout.rs:339-363 | `shrink` over the cache is `shrink` as a function, in the order `pop` returns the ids |
| `MetaOps.ClearSize` | fs/src/cafs/layout.rs:366-371 | the inode becomes empty and every id it owned is returned once |
| `FileSystem.PlanIsOk` | fs/src/cafs/mod.rs:206-236 | for every device: 4096 inodes and as many blocks for each inode bitmap block, the regions one after the other up to the end, and the number of data bitmap blocks for which every bit has a block and no further one would fit |
| `FileSystem.DefaultImage` | fs/src/main.rs:22-34 | the geometry of the default image, 102400 blocks with 10 inode bitmap blocks |
| `FileSystem.BlankIsOk` | fs/src/cafs/mod.rs:237-262 | a super block followed by zeros is a file system without files |
| `FileSystem.ResizeKeeps` | fs/src/cafs/mod.rs:426-467 | resizing one file keeps both bitmaps in agreement, every file's tree and every other file's bytes |
| `FileSystem.FillKeeps` | fs/src/cafs/mod.rs:468-477 | writing the data blocks of one file makes its bytes those written and keeps everything else |
| `FileSystem.GrowStep` | fs/src/cafs/mod.rs:436-455 | allocation, `extend` and the inode block together keep block ownership one to one with the bitmap |
| `FileSystem.CutStep` | fs/src/cafs/mod.rs:456-465 | `shrink` and the release of the ids it returned, as designed, keep it too |
| `FileSystem.CreateKeeps` | fs/src/cafs/mod.rs:308-326 | a new inode under a free number is an empty file and leaves every other file as it was |
| `FileSystem.MirrorCount` | fs/src/cafs/mod.rs:484-488 | as many bits are set as blocks are owned |
| `FsOps.AllocData` | fs/src/cafs/mod.rs:328-334 | the lowest free block of the data area is taken and nothing else changes; None exactly when every bit is set |
| `FsOps.GrowHeld` | fs/src/cafs/mod.rs:436-455 | the growing branch of `write`, run while the inode's block is locked, keeps the file system invariant and takes the lowest free blocks, data blocks first; fails exactly when there are too few |
| `FsOps.CutHeld` | fs/src/cafs/mod.rs:456-465 | the shrinking branch keeps it when the ids are rebased, or when no block is freed |
| `FsOps.Resize` | fs/src/cafs/mod.rs:431-467 | the closure of `write` leaves a tree of the new size, at most five handles held, and returns its data ids; fails exactly when there are too few blocks |
| `FsOps.Fill` | fs/src/cafs/mod.rs:468-477 | each data block takes its 512 bytes of the contents, padded with zeros |
| `FsOps.WriteFile` | fs/src/cafs/mod.rs:426-478 | afterwards the file has exactly these bytes and every other file is as it was; fails exactly when there are too few blocks |
| `FsOps.LoadInode` | fs/src/cafs/mod.rs:62-92 | the loaded object has the type, size, name and data ids of the file |
| `FsOps.ReadBlocks` | fs/src/cafs/mod.rs:108-137 | the bytes collected from the blocks are the bytes of the file, the last block cut to size |
| `FsOps.NewInode` | fs/src/cafs/mod.rs:308-322 | the lowest free inode number becomes an empty file; None exactly when all are taken |
| `FsOps.Format` | fs/src/cafs/mod.rs:237-262 | the clearing loop and the super block make an empty file system of whatever the device held |
| `InodeCache.RoomIffNotAllStuck` | fs/src/cafs/mod.rs:347-361 | there is a free slot or a victim exactly when not every slot is held by a second reference |
| `InodeCache.NoRoomMeans` | fs/src/cafs/mod.rs:347-361 | there is no room only when all 32 slots are taken and every object in them has another reference |
| `InodeCache.EvictOne` | fs/src/cafs/mod.rs:349-357 | evicting takes out one slot with a single reference and leaves the stuck slots as they were |
| `InodeCache.StuckBound` | fs/src/cafs/mod.rs:347-361 | objects in two slots and objects held outside keep their slots |
| `InodeCache.TakeHandle` | fs/src/cafs/mod.rs:363-372 | a handle makes its object's slot stuck if it was not |
| `Directory.EncodeHasNoZero` | fs/src/cafs/mod.rs:155-175 | no byte of an encoded inode number is zero |
| `Directory.DecodeOfEncode` | fs/src/cafs/mod.rs:155-190 | decoding inverts encoding for every 64-bit number |
| `Directory.InodeNumberBinary` | fs/src/cafs/mod.rs:155-175 | the loop computes the ten bytes on disk: each of the number's eight bytes, 255 for a zero, then the flag of the zeros and 10, or 255 and 20 where there is none |
| `Directory.InodeNumberFrom` | fs/src/cafs/mod.rs:177-190 | the loop computes the number that any ten bytes stand for, byte by byte |
| `Directory.EncodedBytes` | fs/src/cafs/mod.rs:155-175 | every byte of the encoding of every 64-bit number |
| `Directory.DecodedBytes` | fs/src/cafs/mod.rs:177-190 | every byte of the number that ten bytes stand for, encoded or not |
| `Directory.SplitIs` | fs/src/cafs/mod.rs:504-504 | the pieces of any bytes have no zero and give the bytes back when joined with zeros |
| `Directory.SplitOfDir` | fs/src/cafs/mod.rs:504-504 | splitting a directory at its zero bytes yields the encodings it was built from, in order |
| `Directory.Listing` | fs/src/cafs/mod.rs:504-509 | the parsing loop on any bytes: the decoded pieces, or the panic on a piece that is too short |
| `Directory.ParsedIs` | fs/src/cafs/mod.rs:504-509 | what is read from any bytes: one number for each piece, decoded from its first ten bytes; the panic exactly when a piece is shorter |
| `Directory.ParsedOfDir` | fs/src/cafs/mod.rs:494-511 | what is parsed from a directory to which numbers were appended is these numbers, in order |
| `Directory.ParsedOfAppend` | fs/src/cafs/mod.rs:409-419 | appending a number to any directory appends it to what is parsed from it |
| `Cafs.CAFS.Init` | fs/src/cafs/mod.rs:206-272 | from any device of the right size: a valid file system of the planned geometry with an empty root named `/`, all of it on the device |
| `Cafs.CAFS.Open` | fs/src/cafs/mod.rs:274-306 | the geometry and the files are those the device holds |
| `Cafs.CAFS.MakeRoom` | fs/src/cafs/mod.rs:349-358 | finds room exactly when some slot is not stuck; with all slots taken swaps out the first object that only its slot refers to, else nothing |
| `Cafs.CAFS.Load` | fs/src/cafs/mod.rs:376-400 | a reloaded inode object equals the disk and takes the last slot after making room; panics exactly when all 32 slots are stuck |
| `Cafs.CAFS.CaInodeOf` | fs/src/cafs/mod.rs:363-402 | one object per number, the cached one if there is one, with the exact panic condition |
| `Cafs.CAFS.Data` | fs/src/cafs/mod.rs:108-137 | through any outstanding handle: exactly the bytes of the file now |
| `Cafs.CAFS.Write` | fs/src/cafs/mod.rs:426-482 | the file has these bytes, no other file changed, every handle sees it; panics exactly for want of an inode-cache slot or of blocks; the blocks it takes are the lowest that no file owned, data blocks first |
| `Cafs.CAFS.AddInodeCache` | fs/src/cafs/mod.rs:347-361 | pushes the object into the last slot after making room, panics exactly when every slot is stuck |
| `Cafs.CAFS.AllocInodeMeta` | fs/src/cafs/mod.rs:308-326 | the lowest free number becomes an empty file whose object takes one stuck slot; panics exactly on a long name or for want of an inode or a slot |
| `Cafs.CAFS.EnterParent` | fs/src/cafs/mod.rs:409-419 | the parent's bytes are its old bytes with the new number appended; panics exactly for want of a slot or of blocks |
| `Cafs.CAFS.KeepCreated` | fs/src/cafs/mod.rs:421-423 | the second push; at most 15 objects of creates under the root fit |
| `Cafs.CAFS.Create` | fs/src/cafs/mod.rs:406-424 | an empty file under the lowest free number, listed last in the parent; panics exactly on a long name or for want of an inode, of blocks for the parent's entry, or of a slot beside the stuck ones, the new inode and the parent |
| `Cafs.CAFS.SubInodes` | fs/src/cafs/mod.rs:494-511 | what is parsed from a directory's bytes, nothing for a file; panics exactly for want of a cache slot or on an entry that is too short |
| `Cafs.CAFS.Flush` | fs/src/cafs/mod.rs:336-338 | the device holds everything |
| `Cafs.CAFS.Df` | fs/src/cafs/mod.rs:484-488 | free bytes plus 512 for each owned block make the total |
| `Cafs.Remount` | fs/src/cafs/mod.rs:274-306 | flush and open again: same geometry, and for every inode the same type, name, size, blocks and bytes |
| `History.HistoryOutcome` | fs/src/cafs/mod.rs:406-482 | over every history of creates, writes, reads, drops and mounts that does not panic: numbers 1, 2, 3, ... go to the names in order, each file holds the last bytes written to it, and the root, unless overwritten, lists the numbers in order |
| `History.Replay` | fs/src/cafs/mod.rs:406-482 | any sequence of creates, writes, reads by number or kept handle, handle drops and remounts on a mounted object: it panics exactly at the operation the client's view names, the readings are exactly the view's, number and bytes, and at the end the files are the view's |
| `History.FormatAndReplay` | fs/src/cafs/mod.rs:206-272 | the same from the formatting of a device on, and the files end as the history says |
| `History.ReadsLastWrite` | fs/src/cafs/mod.rs:108-137 | each read of the client's view, by number or through a kept handle, is of that inode and returns the last bytes written to it before |
| `History.OwnedAreUsed` | fs/src/cafs/mod.rs:431-465 | the blocks the files own are as many as their sizes ask for, so the client's view can tell when blocks run out |
| `History.FiveOps` | fs/src/cafs/mod.rs:522-531 | with 20480 blocks: create, write, create, mount and read of any short contents can be asked for, do not panic and read back what was written |
| `History.Perform` | fs/src/cafs/mod.rs:406-482 | each operation on the object is one step of the client's view and panics exactly when the view says |
| `CodedShrink.WithinBitmap` | fs/src/cafs/bitmap.rs:83-102 | an id below the number of bits: `dealloc` asserts that bit set and clears it |
| `CodedShrink.PastBitmap` | fs/src/cafs/bitmap.rs:83-102 | any other id: `dealloc` changes one block of the data area and leaves the bitmap alone |
| `CodedShrink.ReleaseClears` | fs/src/cafs/mod.rs:459-464 | the coded loops clear only bits whose numbers are among the freed ids, and none if all ids are past the bitmap |
| `CodedShrink.ReleaseAsCoded` | fs/src/cafs/mod.rs:456-465 | after such clearing the bitmap mirrors the remaining owners if and only if nothing was freed |
| `CodedShrink.ShrinkFrees` | fs/src/cafs/layout.rs:339-363 | `shrink` frees blocks exactly when the new size needs fewer data blocks |
| `CodedShrink.ShrinkAsCoded` | fs/src/cafs/mod.rs:456-465 | a coded shrinking write that does not panic keeps bitmap and owners in agreement if and only if the number of data blocks stays; where all ids miss the bitmap it clears no bit |
| `CodedShrink.ReleaseSpares` | fs/src/cafs/mod.rs:459-464 | the coded loops keep the index and the bytes of a file if and only if no freed id leads `dealloc` to one of its blocks |
| `CodedShrink.ShrinkSparesOthers` | fs/src/cafs/mod.rs:456-465 | a coded shrinking write that does not panic leaves another file intact if and only if none of its blocks is taken for a bitmap block |
| `CodedShrink.IdsLeaveBitmap` | fs/src/cafs/mod.rs:213-229 | every id misses the bitmap if and only if the data area starts past as many blocks as the bitmap has bits, as it does with no fewer inode than data bitmap blocks |
| `CodedShrink.DeallocCoded` | fs/src/cafs/bitmap.rs:83-94 | `dealloc` as called, through the cache, with its exact panic condition |
| `CodedShrink.ShrinkCoded` | fs/src/cafs/mod.rs:456-465 | the shrinking branch through the cache is `shrink` followed by the coded release |
| `CodedShrink.TestGeometry` | fs/src/cafs/mod.rs:522-531 | with 20480 blocks and 2 inode bitmap blocks every block id misses the bitmap |
| `CodedShrink.WrongBlock` | fs/src/cafs/bitmap.rs:83-102 | there, releasing block 8198 takes 64 off the first byte of block 8197, and releasing block 8197 then passes |
| `CodedShrink.LeakWitness` | fs/src/cafs/mod.rs:426-467 | there, on the object: emptying a file of 1024 bytes of 255 does not panic, leaves the inode empty and both its blocks marked as taken |
| `Vfs.NameReadsBack` | fs/src/cafs/mod.rs:139-146 | a stored name reads back as given if and only if it has no zero byte |
| `Vfs.ParsePath` | fs/src/vfs/path.rs:12-24 | parents and name of a path; panics exactly on paths without a slash |
| `Vfs.PathRoundTrip` | fs/src/vfs/path.rs:12-24 | names without slashes survive being joined to a path and parsed |
| `Vfs.SplitSlashIs` | fs/src/vfs/path.rs:12-24 | every path is what comes before its first slash, which is skipped, and its components, each after a slash and without one |
| `Vfs.NewDentry` | fs/src/vfs/dir_entry.rs:19-35 | an entry with the inode's number, type and name; no handle remains |
| `Vfs.ReadSubDentry` | fs/src/vfs/dir_entry.rs:41-55 | for any finite tree of listings, nested directories included: exactly that tree, whatever is evicted meanwhile |
| `Vfs.TreeIsUnique` | fs/src/vfs/dir_entry.rs:41-55 | the files determine the tree |
| `Vfs.WalkToPushed` | fs/src/vfs/dir_entry.rs:59-76 | what a path one component longer finds after a push: elder entries first |
| `Vfs.PushSpares` | fs/src/vfs/mod.rs:45-67 | a push leaves every path to the same entry with the same children in order, with one child more exactly on the path of the push |
| `Vfs.WalkFollows` | fs/src/vfs/dir_entry.rs:59-76 | a walk ends at the entry that the names lead to, first child of that name by first child, or reports the first name of which the entry reached has no child |
| `Vfs.LeadsToOne` | fs/src/vfs/dir_entry.rs:59-76 | names lead to one entry at most |
| `Vfs.NotPastMissing` | fs/src/vfs/dir_entry.rs:59-76 | names that lead to an entry have no missing one among them, so the two results exclude each other |
| `Vfs.VFS.constructor` | fs/src/vfs/mod.rs:23-31 | the tree of the device's listings, never panicking for want of cache slots |
| `Vfs.VFS.FindDentry` | fs/src/vfs/dir_entry.rs:59-76 | the loop finds the entry that the names lead to, first child by first child, or reports the first name of which the entry reached has no child |
| `Vfs.VFS.Create` | fs/src/vfs/mod.rs:45-67 | error on a missing parent with nothing changed; otherwise a new inode and its entry, with the exact panic condition: name, inodes, blocks and slots |
| `Vfs.VFS.Read` | fs/src/vfs/mod.rs:71-83 | the bytes of the file the path leads to, or the missing component |
| `Vfs.VFS.Write` | fs/src/vfs/mod.rs:86-98 | the file the path leads to has these bytes and no other file changed; the tree still fits; exact panic condition: blocks and slots |
| `Vfs.EntryHasFile` | fs/src/vfs/mod.rs:86-98 | every nonempty path leads to an inode other than the root, so the root's listing cannot be overwritten by path |
| `Vfs.MadeIsFound` | fs/src/vfs/mod.rs:45-67 | the new file is found under its path if and only if its name has no zero byte and the path led nowhere before |
| `Vfs.MadeAgrees` | fs/src/vfs/mod.rs:45-67 | after `create` the tree is the one `read_sub_dentry` would build if and only if it was before and the parent is the root |
| `Vfs.Remount` | fs/src/vfs/mod.rs:23-31 | flushing and mounting again reads the root's entries without what is below them, so the same tree if and only if nothing is |
| `Vfs.TraceAgrees` | fs/src/vfs/mod.rs:45-98 | after any sequence of creates and writes the tree is the one `read_sub_dentry` would build if and only if it was at the start and every file was created in the root |
| `Vfs.Replay` | fs/src/vfs/mod.rs:45-98 | the same of any sequence of calls on the object, as far as it gets without a panic |
| `Vfs.PlainIsFeasible` | fs/src/vfs/mod.rs:45-98 | any number of creates in the root and of writes of equally many blocks, as far as the root can list them, is a sequence that `Replay` takes |
| `FrameAllocator.CanonicalIsUnique` | kernel/src/memory/frame.rs:75-184 | history independence: canonical lists with the same free frames are equal |
| `FrameAllocator.RunInOneRange` | kernel/src/memory/frame.rs:94-113 | a run of free frames lies in one range of a canonical list |
| `FrameAllocator.FrameAllocator.Allocate` | kernel/src/memory/frame.rs:75-87 | the lowest free frame, which alone leaves the free set; None exactly when nothing is free; the list stays canonical |
| `FrameAllocator.FrameAllocator.AllocRange` | kernel/src/memory/frame.rs:94-113 | the lowest start of a free run of that length, which alone is removed; None exactly when there is no such run |
| `FrameAllocator.FrameAllocator.Scan` | kernel/src/memory/frame.rs:123-149 | where and how the scan stops |
| `FrameAllocator.FrameAllocator.Deallocate` | kernel/src/memory/frame.rs:115-184 | the list stays canonical if and only if the frame was not free, and then gains exactly that frame |
| `FrameAllocator.InsertFrees` | kernel/src/memory/frame.rs:150-166 | inserting or appending a range of one frame keeps the list canonical and adds that frame |
| `FrameAllocator.GrowFrees` | kernel/src/memory/frame.rs:132-144 | growing a range to either side does the same |
| `FrameAllocator.MergeFrees` | kernel/src/memory/frame.rs:176-183 | growing right and merging with the next range does the same |
| `FrameAllocator.DoubleFree` | kernel/src/memory/frame.rs:128-166 | freeing a free frame leaves overlapping ranges |
| `FrameAllocator.AllocDma` | kernel/src/drivers/provider.rs:13-31 | the lowest page-aligned block whose bytes all lie in free frames; exactly the frames with bytes of it are taken; panics exactly when there is no such block |
| `FrameAllocator.DeallocDma` | kernel/src/drivers/provider.rs:19-40 | frees exactly the frames with bytes of the block, one by one, whatever else was allocated meanwhile |
| `FrameAllocator.DmaRoundTrip` | kernel/src/drivers/provider.rs:13-40 | allocating and freeing restores the very same list of ranges |
| `ElfMapper.Machine.MapFrames` | bootloader/efi/src/page_table.rs:77-85 | the pages were unmapped and now map to consecutive frames, nothing else changed |
| `ElfMapper.Machine.MapNew` | bootloader/efi/src/page_table.rs:128-140 | each page gets its own new frame |
| `ElfMapper.Machine.CopyLast` | bootloader/efi/src/page_table.rs:91-125 | the last file page maps to a copy; the shared frame is untouched; panics exactly if that page was not mapped and there was a frame for the copy |
| `ElfMapper.Machine.ZeroBytes` | bootloader/efi/src/page_table.rs:142-149 | the addresses read zero and no other byte of physical memory changed |
| `ElfMapper.Machine.Bss` | bootloader/efi/src/page_table.rs:87-150 | the memory past the file part reads zero, everything below reads as before, only new frames change |
| `ElfMapper.Machine.MapSegment` | bootloader/efi/src/page_table.rs:46-153 | with the pages counted right it succeeds exactly when the pages it maps, from the segment's first to that of its end address, are unmapped and there are frames for it, and makes the image the one the header describes; miscounted, exactly when it succeeds, when it panics, which pages it adds, and that the image is right if and only if the left-out page held the right bytes before or, where it is copied, the file repeats there what it has one page earlier; frames not handed out by the allocator keep every byte |
| `ElfMapper.FileMapped` | bootloader/efi/src/page_table.rs:57-85 | every byte of the file part in the pages counted, all of them if counted right, is mapped to where it lies in the file |
| `ElfMapper.Machine.MapElf` | bootloader/efi/src/page_table.rs:33-44 | the file is untouched; the outcome is that of the segments in turn, miscounted ones included; a segment counted right keeps its image unless a later miscounted one copies a page of it; with all counted right: no panic, success exactly when the pages it maps for all segments are unmapped and apart and there are frames for all, and then all images hold at once |
| `ElfMapper.ImageStays` | bootloader/efi/src/page_table.rs:92-111 | mapping another segment that leaves its pages mapped leaves an image alone, a shared last frame included |
| `ElfMapper.ShortKeeps` | bootloader/efi/src/page_table.rs:91-125 | a miscounted segment leaves another's pages mapped as they were unless it copies one that holds bytes of it |
| `ElfMapper.TailOfCopy` | bootloader/efi/src/page_table.rs:91-125 | a copy of the last frame counted, mapped at the left-out page, holds the file's bytes if and only if the file repeats there what it has one page earlier |
| `ElfMapper.MapsItsPages` | bootloader/efi/src/page_table.rs:127-140 | the mapped pages are those that hold bytes of the segment if and only if it has no zeroed part or that does not end at a page boundary; else there is one page more |
| `ElfMapper.ApartButRefused` | bootloader/efi/src/page_table.rs:127-140 | two segments that share no page, counted right, with frames enough, that `map_elf` refuses |
| `ElfMapper.ApartIsEnough` | bootloader/efi/src/page_table.rs:33-44 | where no zeroed part ends at a page boundary, `map_elf` needs only the pages that hold bytes unmapped and apart |
| `ElfMapper.AlignedCounts` | bootloader/efi/src/page_table.rs:57-66 | page-aligned segments are always counted right |
| `ElfMapper.Miscounted` | bootloader/efi/src/page_table.rs:59-66 | a header the format allows whose pages are miscounted |

## Left out

- Byte layout: blocks are typed values (super block, bitmap words, inode, index block, data); raw pointer casts, `repr(C)` and alignment in `Cache::get_ref` and `get_mut` are not modelled.
- Locks and reference counts: `spin` and `Arc` are abstracted to held locks, read guards and counts; fairness is not modelled, and the locks of the inode cache and of inode objects are not part of `CacheProtocol`.
- Panics: a call that panics has no state afterwards; running out of inodes, data blocks or inode-cache slots and a name too long are results; running out of block-cache slots is shown impossible for one thread and is a step of `CacheProtocol`; sizes above L4_MAX are excluded.
- Inodes as values: `MetaOps` passes the inode's `Meta` in and out instead of changing it in place under its lock; the lock itself is modelled.
- Concurrency above the block cache: `CAFS`, `VFS` and the frame allocator are modelled for one thread, the block cache and `Bitmap::alloc` for many.
- Cafs.CAFS.Write: with `rebase` 0, as coded, it is stated for writes that free no block, because the others break the bitmap; `CodedShrink.ShrinkCoded` follows those up to the release of the blocks, and what `write` then does with a tree that `dealloc` may have edited is not modelled.
- FsOps.CutHeld: the same, as the shrinking branch of `write`.
- FsOps.Resize: the same, as the closure of `write`.
- FsOps.WriteFile: the same, as `write` below the inode cache.
- Vfs.VFS.Write: the same, by path.
- Vfs.ReadSubDentry: requires that the listings form a finite tree; on a cycle the source does not return, on an entry that is too short it panics.
- Vfs.VFS.constructor: the same; the further operations by path are stated for a root that lists files, which is all that `create` makes.
- Vfs.VFS.FindDentry: entries are values owned by their parent; the `Weak` parent and file system pointers are not modelled.
- History.Replay: asks of each operation, up to and with the first that panics, an inode or handle that exists, a size up to L4_MAX and, for a write, as many data blocks as before or more.
- Vfs.Replay: asks the same of each call whatever blocks the files got, and does not say at which call it panics.
- FrameAllocator.FrameAllocator.Allocate: requires a canonical list; `memory::init` neither sorts nor merges the firmware's memory map.
- ElfMapper.Machine.MapSegment: page-table frames, page flags and TLB flushes are not modelled; `map_to` fails exactly on a mapped page, and a frame allocator that panics on failure is one that returns nothing.
- ElfMapper.Machine.MapElf: says nothing of the image of a miscounted segment, which `MapSegment` states, nor of one with a page that such a segment copied.
- 64-bit widths: numbers are unbounded except where `Layout.SumsFitU64`, the inode-number codec and the bitmap words state the width.
- The `filter` argument of `IndirectBlock::to_vec`, `Meta` accessors, `ls_root` and other one-line getters would only add easy members.
- `map_stack`, `map_physical_memory`, the bump allocator, interrupts, drivers, logging, processes and UEFI plumbing.
