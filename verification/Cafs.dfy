/** CAFS: inode objects, the inode cache and the operations of the file system. */
module Cafs {
  import opened Prelude
  import opened Layout
  import opened Cache
  import opened Bitmap
  import opened FileSystem
  import opened FsOps
  import opened InodeCache
  import opened Directory

  const MAX_HANDLES: nat := 5
  const ROOT_NAME: seq<byte> := [47]

  /** The name as the inode stores it: 200 bytes, padded with zeros. */
  function PadName(name: seq<byte>): (r: seq<byte>)
    requires |name| <= NAME_LENGTH_LIMIT
    ensures |r| == 200 && r[..|name|] == name && forall i :: |name| <= i < 200 ==> r[i] == 0
  {
    name + seq(NAME_LENGTH_LIMIT + 1 - |name|, _ => 0)
  }

  lemma RootName()
    ensures |ROOT_NAME| <= NAME_LENGTH_LIMIT
    ensures NewFile(Dir, PadName(ROOT_NAME)) == FileRec(Dir, [47] + seq(199, _ => 0), [], [], [])
  {
  }

  /** An inode object; the cache and outside handles share it. */
  class CaInode {
    const number: nat
    const kind: InodeType
    const name: seq<byte>
    var size: nat
    var blocks: seq<nat>

    constructor (number: nat, kind: InodeType, name: seq<byte>, size: nat, blocks: seq<nat>)
      ensures this.number == number && this.kind == kind && this.name == name
      ensures this.size == size && this.blocks == blocks
    {
      this.number, this.kind, this.name := number, kind, name;
      this.size, this.blocks := size, blocks;
    }
  }

  /** The object holds what `CaInode::from` would load for it now. */
  ghost predicate Matches(o: CaInode, files: Files)
    reads o
  {
    && o.number in files
    && o.kind == files[o.number].kind && o.name == files[o.number].name
    && o.size == |files[o.number].bytes| && o.blocks == files[o.number].dat
  }

  /** Inode cache coherence: one object per number, each in step with the disk, none evicted while held. */
  ghost predicate InodesOk(cache: seq<CaInode>, handles: multiset<CaInode>, files: Files)
    reads cache
  {
    && |cache| <= INODE_CACHE_SIZE
    && (forall o :: o in cache ==> Matches(o, files))
    && (forall o, p :: o in cache && p in cache && o.number == p.number ==> o == p)
    && (forall o :: o in handles ==> o in cache)
  }

  /** These objects, none of them the root, hold two slots each. */
  ghost predicate Doubled(objects: set<CaInode>, cache: seq<CaInode>) {
    forall o :: o in objects ==> multiset(cache)[o] >= 2 && o.number != 0
  }

  lemma NoneDoubled(cache: seq<CaInode>)
    ensures Doubled({}, cache)
  {
  }

  /** What eviction and loading keep: objects with another reference keep their slots, none gains a slot. */
  ghost predicate KeepsShared(before: seq<CaInode>, handles: multiset<CaInode>, after: seq<CaInode>) {
    forall o :: o in before ==>
                  && multiset(after)[o] <= multiset(before)[o]
                  && (Strong(before, handles, o) >= 2 ==> multiset(after)[o] == multiset(before)[o])
  }

  lemma DoubledKept(objects: set<CaInode>, before: seq<CaInode>, handles: multiset<CaInode>, after: seq<CaInode>)
    requires Doubled(objects, before) && KeepsShared(before, handles, after)
    ensures Doubled(objects, after)
  {
    MembersByCount(before);
  }

  ghost predicate IsCached(cache: seq<CaInode>, n: nat) {
    exists o :: o in cache && o.number == n
  }

  /** Owned blocks plus what the change of size needs fit the bitmap. */
  ghost predicate HasBlocks(g: Geometry, files: Files, n: nat, newSize: nat)
    requires n in files
  {
    |OwnedIds(files)| + Need(|files[n].bytes|, newSize) <= DataCount(g)
  }

  /** The blocks that `f'` has more than `f`, data blocks first, were the lowest that no file owned, in this order. */
  ghost predicate TakesUnowned(g: Geometry, files: Files, f: FileRec, f': FileRec) {
    && f.dat <= f'.dat && |f.idx| <= |f'.idx|
    && var ids := f'.dat[|f.dat|..] + f'.idx[|f.idx|..];
       forall i, id :: 0 <= i < |ids| && DataStart(g) <= id < ids[i] ==> id in OwnedIds(files) || id in ids[..i]
  }

  lemma TakesByOwners(s: Store, g: Geometry, files: Files, f: FileRec, f': FileRec)
    requires FsOk(s, g, files) && IsBitmap(s, DataBitmapStart(g), g.dataBitmapBlocks) && TakesLowest(s, g, f, f')
    ensures TakesUnowned(g, files, f, f')
  {
    hide FsOk, MapsOk, ShapesOk, ContentsOk, DataBits, IsBitmap, OwnedIds;
    FsParts(s, g, files);
    MirrorOf(s, g, files);
    var ids := f'.dat[|f.dat|..] + f'.idx[|f.idx|..];
    forall i, id | 0 <= i < |ids| && DataStart(g) <= id < ids[i]
      ensures id in OwnedIds(files) || id in ids[..i]
    {
      assert id - DataStart(g) + DataStart(g) == id;
    }
  }

  lemma PlanHasInodes(totalBlocks: nat, inodeBitmapBlocks: nat)
    requires BigEnough(totalBlocks, inodeBitmapBlocks) && inodeBitmapBlocks > 0
    ensures InodeCount(Plan(totalBlocks, inodeBitmapBlocks)) > 0 && totalBlocks > 0
  {
  }

  lemma FirstIsZero(n: nat)
    requires TakenBelow(map[], n)
    ensures n == 0
  {
    var none: Files := map[];
    assert 0 !in none;
  }

  lemma OneObject(o: CaInode, files: Files)
    requires o.number in files && files[o.number] == NewFile(o.kind, o.name) && o.size == 0 && o.blocks == []
    ensures InodesOk([o], multiset{}, files)
  {
  }

  lemma EmptyCacheOk(files: Files)
    ensures InodesOk([], multiset{}, files)
  {
  }

  lemma Fewer(cache: seq<CaInode>, q: seq<CaInode>, handles: multiset<CaInode>, victim: CaInode)
    requires multiset(q) == multiset(cache) - multiset{victim} && victim in cache && Strong(cache, handles, victim) == 1
    ensures forall o :: o in cache && o != victim ==> o in q
    ensures forall o :: o in q ==> o in cache
    ensures KeepsShared(cache, handles, q)
  {
    MembersByCount(cache);
    MembersByCount(q);
  }

  lemma EvictInode(cache: seq<CaInode>, handles: multiset<CaInode>, files: Files, i: nat)
    requires InodesOk(cache, handles, files) && i < |cache| && Strong(cache, handles, cache[i]) == 1
    ensures InodesOk(SwapRemove(cache, i), handles, files)
    ensures forall o :: o in SwapRemove(cache, i) ==> o in cache
    ensures KeepsShared(cache, handles, SwapRemove(cache, i))
  {
    hide SwapRemove, Stuck, Evictable, Matches, KeepsShared;
    EvictOne(cache, handles, i);
    var q := SwapRemove(cache, i);
    Fewer(cache, q, handles, cache[i]);
    assert forall o :: o in handles ==> o != cache[i] && o in q;
  }

  lemma PushInode(cache: seq<CaInode>, handles: multiset<CaInode>, files: Files, o: CaInode)
    requires InodesOk(cache, handles - multiset{o}, files) && |cache| < INODE_CACHE_SIZE
    requires Matches(o, files) && forall p :: p in cache && p.number == o.number ==> p == o
    ensures InodesOk(cache + [o], handles, files)
  {
    hide Matches;
    assert forall p :: p in cache + [o] <==> p in cache || p == o;
    assert forall p :: p in handles && p != o ==> p in handles - multiset{o};
  }

  lemma TakeInode(cache: seq<CaInode>, handles: multiset<CaInode>, files: Files, o: CaInode)
    requires InodesOk(cache, handles, files) && o in cache
    ensures InodesOk(cache, handles + multiset{o}, files)
  {
  }

  lemma DropInode(cache: seq<CaInode>, handles: multiset<CaInode>, files: Files, o: CaInode)
    requires InodesOk(cache, handles, files)
    ensures InodesOk(cache, handles - multiset{o}, files)
  {
  }

  lemma UniqueInode(cache: seq<CaInode>, handles: multiset<CaInode>, files: Files, o: CaInode)
    requires InodesOk(cache, handles, files) && o in cache
    ensures Matches(o, files)
    ensures forall p :: p in cache && p.number == o.number ==> p == o
  {
  }

  /** A loaded inode enters the queue. */
  lemma LoadedInode(before: seq<CaInode>, queue: seq<CaInode>, handles: multiset<CaInode>, files: Files, o: CaInode)
    requires InodesOk(queue, handles, files) && |queue| < INODE_CACHE_SIZE && Matches(o, files)
    requires !IsCached(before, o.number) && o !in before && KeepsShared(before, handles, queue)
    requires forall p :: p in queue ==> p in before
    ensures InodesOk(queue + [o], handles, files)
    ensures Stuck(queue + [o], handles) == Stuck(queue, handles)
    ensures Strong(queue + [o], handles, o) == 1
    ensures KeepsShared(before, handles, queue + [o])
    ensures forall p :: p in queue + [o] ==> p in before || p == o
  {
    assert o !in queue && o !in handles;
    PushUnheld(queue, handles, o);
    assert handles - multiset{o} == handles;
    PushInode(queue, handles, files, o);
    hide Stuck, InodesOk, Matches;
    assert forall p :: multiset(queue + [o])[p] == multiset(queue)[p] + if p == o then 1 else 0;
  }

  lemma MatchesNew(o: CaInode, files: Files)
    requires o.number in files
    requires o.kind == files[o.number].kind && o.name == files[o.number].name
    requires o.size == |files[o.number].bytes| && o.blocks == files[o.number].dat
    ensures Matches(o, files)
  {
  }

  lemma KeepsAll(cache: seq<CaInode>, handles: multiset<CaInode>)
    ensures KeepsShared(cache, handles, cache)
  {
  }

  lemma HandleMatches(cache: seq<CaInode>, handles: multiset<CaInode>, files: Files, o: CaInode)
    requires InodesOk(cache, handles, files) && o in handles
    ensures o in cache && o.number in files && o.size == |files[o.number].bytes| && o.blocks == files[o.number].dat
  {
  }

  /** The free bits of the bitmap are the blocks nobody owns. */
  lemma Afford(s: Store, g: Geometry, files: Files, n: nat, newSize: nat)
    requires FsOk(s, g, files) && n in files
    ensures IsBitmap(s, DataBitmapStart(g), g.dataBitmapBlocks)
    ensures Affordable(s, g, |files[n].bytes|, newSize) <==> HasBlocks(g, files, n, newSize)
  {
    hide Need, OwnedIds, IsBitmap, DataBits, ShapesOk, ContentsOk;
    MirrorOf(s, g, files);
    MirrorCount(DataBits(s, g), OwnedIds(files), DataStart(g));
  }

  /** The lowest free number became a new, empty file. */
  ghost predicate Added(before: Files, after: Files, n: nat, kind: InodeType, name: seq<byte>) {
    n !in before && TakenBelow(before, n) && after == before[n := NewFile(kind, name)]
  }

  lemma AddedIntro(before: Files, n: nat, kind: InodeType, name: seq<byte>)
    requires n !in before && TakenBelow(before, n)
    ensures Added(before, before[n := NewFile(kind, name)], n, kind, name)
  {
  }

  lemma InodesMore(cache: seq<CaInode>, handles: multiset<CaInode>, files: Files, n: nat, f: FileRec)
    requires InodesOk(cache, handles, files) && n !in files
    ensures InodesOk(cache, handles, files[n := f])
    ensures forall p :: p in cache ==> p.number != n
  {
  }

  lemma MatchesEmpty(o: CaInode, files: Files)
    requires o.number in files && files[o.number] == NewFile(o.kind, o.name) && o.size == 0 && o.blocks == []
    ensures Matches(o, files)
  {
  }

  lemma Unaffected(q: seq<CaInode>, handles: multiset<CaInode>, o: CaInode)
    requires o !in q
    ensures Stuck(q, handles + multiset{o}) == Stuck(q, handles)
  {
    assert Evictable(q, handles + multiset{o}) == Evictable(q, handles);
  }

  /** A new object, held by its maker, enters the queue. */
  lemma FirstPush(before: seq<CaInode>, q: seq<CaInode>, handles: multiset<CaInode>, o: CaInode)
    requires o !in before && (forall p :: p in q ==> p in before) && KeepsShared(before, handles, q)
    requires Stuck(q, handles) == Stuck(before, handles)
    ensures Stuck(q + [o], handles + multiset{o}) == Stuck(before, handles) + 1
    ensures KeepsShared(before, handles, q + [o])
    ensures forall p :: p in q + [o] ==> p in before || p == o
    ensures o in q + [o]
  {
    assert o !in q;
    PushHeld(q, handles + multiset{o}, o);
    Unaffected(q, handles, o);
    hide Stuck;
    assert forall p :: multiset(q + [o])[p] == multiset(q)[p] + if p == o then 1 else 0;
  }

  /** The size of a directory after one more entry. */
  function AppendedSize(bytes: seq<byte>): nat {
    if bytes == [] then NUMBER_LEN else |bytes| + 1 + NUMBER_LEN
  }

  /** The inode numbered `n` is in the cache and has more than one reference. */
  ghost predicate IsStuck(cache: seq<CaInode>, handles: multiset<CaInode>, n: nat) {
    exists o :: o in cache && o.number == n && Strong(cache, handles, o) >= 2
  }

  /** No inode has become stuck. */
  ghost predicate NoneStuckMore(before: seq<CaInode>, handles: multiset<CaInode>, after: seq<CaInode>) {
    forall n: nat :: IsStuck(after, handles, n) ==> IsStuck(before, handles, n)
  }

  lemma StuckStays(before: seq<CaInode>, handles: multiset<CaInode>, after: seq<CaInode>)
    requires KeepsShared(before, handles, after)
    requires forall p :: p in after ==> p in before || Strong(after, handles, p) == 1
    ensures NoneStuckMore(before, handles, after)
  {
    MembersByCount(before);
    MembersByCount(after);
    forall n: nat | IsStuck(after, handles, n)
      ensures IsStuck(before, handles, n)
    {
      var o :| o in after && o.number == n && Strong(after, handles, o) >= 2;
      assert o in before && Strong(before, handles, o) >= 2;
    }
  }

  /**
   * Slots that are taken for good while `create` runs, before its last push: those stuck already, one for
   * the new inode and one for the parent unless that is stuck already.
   */
  ghost function SlotsToCreate(cache: seq<CaInode>, handles: multiset<CaInode>, parent: nat): int {
    Stuck(cache, handles) + if IsStuck(cache, handles, parent) then 1 else 2
  }

  lemma SlotsNeeded(cache: seq<CaInode>, handles: multiset<CaInode>, parent: nat)
    ensures SlotsToCreate(cache, handles, parent) ==
            Stuck(cache, handles) + if IsStuck(cache, handles, parent) then 1 else 2
  {
  }

  lemma NotCached(cache: seq<CaInode>, handles: multiset<CaInode>, n: nat)
    ensures !IsCached(cache, n) ==> !IsStuck(cache, handles, n)
  {
  }

  lemma InCache(cache: seq<CaInode>, o: CaInode, n: nat)
    requires o in cache && o.number == n
    ensures IsCached(cache, n)
  {
  }

  lemma AddedParts(before: Files, after: Files, n: nat, kind: InodeType, name: seq<byte>, parent: nat)
    requires Added(before, after, n, kind, name) && parent in before
    ensures n !in before && n != parent && parent in after && after[parent] == before[parent]
  {
  }

  /** The new inode is not the parent, and eviction leaves the parent's references as they were. */
  lemma SameParent(c0: seq<CaInode>, h0: multiset<CaInode>, c1: seq<CaInode>, meta: CaInode, parent: nat)
    requires KeepsShared(c0, h0, c1) && meta.number != parent
    requires forall p :: p in c1 ==> p in c0 || p == meta
    ensures IsStuck(c1, h0 + multiset{meta}, parent) <==> IsStuck(c0, h0, parent)
  {
    MembersByCount(c0);
    MembersByCount(c1);
  }

  /** Holding the parent costs a slot unless it was stuck. */
  lemma ParentTaken(c1: seq<CaInode>, h1: multiset<CaInode>, c2: seq<CaInode>, p: CaInode, parent: nat, files: Files)
    requires p in c2 && p.number == parent && InodesOk(c2, h1 + multiset{p}, files)
    requires Stuck(c2, h1) == Stuck(c1, h1)
    requires IsCached(c1, parent) ==> c2 == c1
    requires !IsCached(c1, parent) ==> Strong(c2, h1, p) == 1
    ensures Stuck(c2, h1 + multiset{p}) == Stuck(c1, h1) + if IsStuck(c1, h1, parent) then 0 else 1
    ensures Strong(c2, h1, p) == 1 <==> !IsStuck(c1, h1, parent)
  {
    TakeHandle(c2, h1, p);
    MembersByCount(c2);
    UniqueInode(c2, h1 + multiset{p}, files, p);
    hide Stuck, InodesOk;
  }

  lemma MetaKept(c1: seq<CaInode>, h1: multiset<CaInode>, c2: seq<CaInode>, meta: CaInode)
    requires KeepsShared(c1, h1, c2) && meta in c1 && meta in h1
    ensures meta in c2
  {
    MembersByCount(c1);
    MembersByCount(c2);
  }

  lemma AppendIs(bytes: seq<byte>, n: nat, contents: seq<byte>)
    requires n <= U64_MAX && contents == (if bytes != [] then bytes + [0] else bytes) + Encode(n)
    ensures contents == Append(bytes, n) && |contents| == AppendedSize(bytes) && |contents| >= |bytes|
  {
  }

  lemma GrowthOnly(small: nat, large: nat)
    requires small <= large
    ensures DataBlocks(large) >= DataBlocks(small)
  {
    CountsAreMonotone(small, large);
  }

  /** A new file owns nothing, so what the parent needs is as affordable as before. */
  lemma StillHas(g: Geometry, files0: Files, files1: Files, n: nat, name: seq<byte>, parent: nat)
    requires Added(files0, files1, n, File, name) && parent in files0 && parent in files1
    requires files1[parent] == files0[parent]
    ensures HasBlocks(g, files1, parent, AppendedSize(files1[parent].bytes)) <==>
            HasBlocks(g, files0, parent, AppendedSize(files0[parent].bytes))
  {
    hide Need;
    assert OwnedIds(files1) == OwnedIds(files0) by {
      forall id | id in OwnedIds(files1)
        ensures id in OwnedIds(files0)
      {
        var k :| k in files1 && id in files1[k].Owned();
        assert k != n;
        OwnedBy(files0, k, id);
      }
      forall id | id in OwnedIds(files0)
        ensures id in OwnedIds(files1)
      {
        var k :| k in files0 && id in files0[k].Owned();
        OwnedBy(files1, k, id);
      }
    }
  }

  /** Before its last push, `create` holds two objects besides those that earlier calls left in two slots. */
  lemma TwoMore(c: seq<CaInode>, h: multiset<CaInode>, created: set<CaInode>, meta: CaInode, p: CaInode)
    requires Doubled(created, c) && meta in c && p in c && meta in h && p in h && meta != p && meta !in created
    ensures p.number == 0 ==> Stuck(c, h) >= 2 * |created| + 2
  {
    MembersByCount(c);
    if p.number == 0 {
      StuckBound(c, h, created, {meta, p});
    }
  }

  /** The second push takes a slot; the parent's gets free again if nobody else refers to it. */
  lemma Accounts(c: seq<CaInode>, h: multiset<CaInode>, q: seq<CaInode>, meta: CaInode, p: CaInode)
    requires KeepsShared(c, h, q) && meta in c && p in c && meta in h && p in h && meta != p && Stuck(q, h) == Stuck(c, h)
    ensures var c', h' := q + [meta], h - multiset{p};
            && Strong(c', h', p) == Strong(c, h', p)
            && Stuck(c', h') == Stuck(c, h) + if Strong(c', h', p) == 1 then 0 else 1
  {
    var c', h' := q + [meta], h - multiset{p};
    MembersByCount(c);
    MembersByCount(c');
    assert forall o :: multiset(c')[o] == multiset(q)[o] + if o == meta then 1 else 0;
    PushHeld(q, h, meta);
    assert h' + multiset{p} == h;
    TakeHandle(c', h', p);
  }

  /** One object carries the number, so it alone decides. */
  lemma ParentFree(cache: seq<CaInode>, handles: multiset<CaInode>, files: Files, p: CaInode)
    requires InodesOk(cache, handles, files) && Strong(cache, handles, p) >= 1
    ensures Strong(cache, handles, p) == 1 ==> !IsStuck(cache, handles, p.number)
  {
    MembersByCount(cache);
  }

  lemma HasOne(c1: seq<CaInode>, h1: multiset<CaInode>, c2: seq<CaInode>, p: CaInode, c3: seq<CaInode>)
    requires p in c2 && Strong(c3, h1, p) == Strong(c2, h1, p)
    ensures Strong(c3, h1, p) >= 1
  {
    MembersByCount(c2);
  }

  lemma Twice(c: seq<CaInode>, h: multiset<CaInode>, q: seq<CaInode>, created: set<CaInode>, meta: CaInode)
    requires Doubled(created, c) && KeepsShared(c, h, q) && meta in c && meta in h && meta.number != 0
    ensures Doubled(created + {meta}, q + [meta])
  {
    DoubledKept(created, c, h, q);
    MembersByCount(c);
    assert forall p :: multiset(q + [meta])[p] == multiset(q)[p] + if p == meta then 1 else 0;
  }

  /** File `n` has these bytes, in whatever blocks; nothing else about it and no other file changed. */
  ghost predicate Rewritten(before: Files, after: Files, n: nat, bytes: seq<byte>) {
    && n in before && n in after
    && after[n] == before[n].(bytes := bytes, idx := after[n].idx, dat := after[n].dat)
    && after == before[n := after[n]]
  }

  /** A new file under the lowest free number, and its number appended to the parent's bytes. */
  ghost predicate Entered(before: Files, after: Files, parent: nat, n: nat, name: seq<byte>) {
    && parent in before && n !in before && TakenBelow(before, n) && n <= U64_MAX
    && n in after && after[n] == NewFile(File, name)
    && Rewritten(before[n := NewFile(File, name)], after, parent, Append(before[parent].bytes, n))
  }

  lemma EnteredIntro(files0: Files, files1: Files, files2: Files, parent: nat, n: nat, name: seq<byte>)
    requires Added(files0, files1, n, File, name) && parent in files0 && n <= U64_MAX && n != parent
    requires parent in files1 && Rewritten(files1, files2, parent, Append(files1[parent].bytes, n))
    ensures Entered(files0, files2, parent, n, name)
  {
  }

  lemma NotDoubledYet(created: set<CaInode>, c0: seq<CaInode>)
    requires Doubled(created, c0)
    ensures forall o :: o in created ==> o in c0
  {
    MembersByCount(c0);
  }

  lemma CacheSlots()
    ensures INODE_CACHE_SIZE == 32
  {
  }

  lemma PeakIs(peak: nat, held: nat)
    ensures MAX_HANDLES == 5
    ensures peak <= MAX_HANDLES && held <= MAX_HANDLES ==> Peak(peak, held) <= MAX_HANDLES
  {
  }

  lemma SuperOf(s: Store, g: Geometry, files: Files)
    requires FsOk(s, g, files)
    ensures 0 in s && s[0] == Super(true, g)
  {
  }

  lemma RewrittenIntro(before: Files, n: nat, bytes: seq<byte>, f: FileRec)
    requires n in before && f == before[n].(bytes := bytes, idx := f.idx, dat := f.dat)
    ensures Rewritten(before, before[n := f], n, bytes)
  {
  }

  /** The numbers that inode `n` lists: none if it is a file; None where reading them panics. */
  function Listed(files: Files, n: nat): Option<seq<nat>>
    requires n in files
  {
    if files[n].kind == Dir then Parsed(files[n].bytes) else Some([])
  }

  lemma ListedIs(files: Files, n: nat)
    requires n in files
    ensures Listed(files, n) == if files[n].kind == Dir then Parsed(files[n].bytes) else Some([])
  {
  }

  lemma Distribute(a: nat, b: nat, c: nat)
    requires a + b == c
    ensures a * BLOCK_SIZE + b * BLOCK_SIZE == c * BLOCK_SIZE
  {
  }

  lemma KindOf(cache: seq<CaInode>, handles: multiset<CaInode>, files: Files, o: CaInode)
    requires InodesOk(cache, handles, files) && o in handles
    ensures o.number in files && o.kind == files[o.number].kind
  {
  }

  /** Nothing while there is a free slot; otherwise the first object that only its slot refers to is swapped out. */
  ghost predicate MadeRoom(before: seq<CaInode>, handles: multiset<CaInode>, after: seq<CaInode>) {
    if |before| < INODE_CACHE_SIZE then after == before else
      exists i :: 0 <= i < |before| && Strong(before, handles, before[i]) == 1 && after == SwapRemove(before, i)
                  && forall k :: 0 <= k < i ==> Strong(before, handles, before[k]) != 1
  }

  lemma NoRoomNeeded(cache: seq<CaInode>, handles: multiset<CaInode>)
    ensures |cache| < INODE_CACHE_SIZE ==> MadeRoom(cache, handles, cache)
  {
  }

  lemma RoomByEviction(cache: seq<CaInode>, handles: multiset<CaInode>, i: nat)
    requires i < |cache| && |cache| >= INODE_CACHE_SIZE && Strong(cache, handles, cache[i]) == 1
    requires forall k :: 0 <= k < i ==> Strong(cache, handles, cache[k]) != 1
    ensures MadeRoom(cache, handles, SwapRemove(cache, i))
  {
    hide SwapRemove;
  }

  /** The search of the substitution step. */
  method FirstUnshared(queue: seq<CaInode>, handles: multiset<CaInode>) returns (i: nat)
    ensures i <= |queue| && forall k :: 0 <= k < i ==> Strong(queue, handles, queue[k]) != 1
    ensures if i < |queue| then Strong(queue, handles, queue[i]) == 1 && HasVictim(queue, handles) else !HasVictim(queue, handles)
  {
    i := 0;
    while i < |queue| && Strong(queue, handles, queue[i]) != 1
      invariant i <= |queue|
      invariant forall k :: 0 <= k < i ==> Strong(queue, handles, queue[k]) != 1
    {
      i := i + 1;
    }
  }

  lemma Shorter(queue: seq<CaInode>, i: nat)
    requires i < |queue|
    ensures |SwapRemove(queue, i)| < |queue|
  {
  }

  lemma QueueFits(cache: seq<CaInode>, handles: multiset<CaInode>, files: Files)
    requires InodesOk(cache, handles, files)
    ensures |cache| <= INODE_CACHE_SIZE
  {
  }

  class CAFS {
    const cm: CacheManager
    const g: Geometry
    /** The inode cache. */
    var cache: seq<CaInode>
    /** Handles of inode objects held outside the cache. */
    var handles: multiset<CaInode>
    /** The files by inode number. */
    ghost var files: Files
    /** Objects that `create` has put into the cache twice. */
    ghost var created: set<CaInode>

    ghost predicate Valid()
      reads this, cm, cache
    {
      && cm.Valid() && cm.pins == map[] && cm.peak <= MAX_HANDLES
      && FsOk(cm.view, g, files) && 0 in files
      && InodesOk(cache, handles, files)
      && Doubled(created, cache)
    }

    lemma Intro()
      requires cm.Valid() && cm.pins == map[] && cm.peak <= MAX_HANDLES
      requires FsOk(cm.view, g, files) && 0 in files
      requires InodesOk(cache, handles, files) && Doubled(created, cache)
      ensures Valid()
    {
    }

    lemma Elim()
      requires Valid()
      ensures cm.Valid() && cm.pins == map[] && cm.peak <= MAX_HANDLES
      ensures FsOk(cm.view, g, files) && 0 in files
      ensures InodesOk(cache, handles, files) && Doubled(created, cache)
    {
    }

    /** CAFS::init */
    constructor Init(device: Store, totalBlocks: nat, inodeBitmapBlocks: nat)
      requires BigEnough(totalBlocks, inodeBitmapBlocks) && inodeBitmapBlocks > 0
      requires forall id: nat :: id in device <==> id < totalBlocks
      ensures Valid() && fresh(cm) && fresh(cache)
      ensures g == Plan(totalBlocks, inodeBitmapBlocks)
      ensures files == map[0 := NewFile(Dir, PadName(ROOT_NAME))] && |cache| == 1 && IsCached(cache, 0)
      ensures files[0].kind == Dir && files[0].name == [47] + seq(199, _ => 0) && files[0].bytes == []
      ensures cm.device == cm.view
      ensures handles == multiset{} && created == {}
    {
      hide *;
      cm := new CacheManager(device);
      g := Plan(totalBlocks, inodeBitmapBlocks);
      cache, handles, files, created := [], multiset{}, map[], {};
      new;
      RootName();
      PlanIsOk(totalBlocks, inodeBitmapBlocks);
      PlanHasInodes(totalBlocks, inodeBitmapBlocks);
      Format(cm, g);
      var r := NewInode(cm, g, Dir, PadName(ROOT_NAME), files);
      var n := r.value;
      files := files[n := NewFile(Dir, PadName(ROOT_NAME))];
      FirstIsZero(n);
      var root := new CaInode(n, Dir, PadName(ROOT_NAME), 0, []);
      cache := [root];
      InCache(cache, root, 0);
      OneObject(root, files);
      NoneDoubled(cache);
      cm.Flush();
      PeakIs(0, 1);
      Intro();
    }

    /** CAFS::open of a device that holds these files. */
    constructor Open(device: Store, ghost geometry: Geometry, ghost contents: Files)
      requires FsOk(device, geometry, contents) && 0 in contents
      ensures Valid() && fresh(cm) && cache == []
      ensures g == geometry && files == contents && cm.view == device
      ensures handles == multiset{} && created == {}
    {
      var manager := new CacheManager(device);
      hide *;
      CacheSizeIs();
      SuperOf(device, geometry, contents);
      var block := manager.Read(0);
      cm := manager;
      g := block.geometry;
      cache, handles, files, created := [], multiset{}, contents, {};
      new;
      EmptyCacheOk(files);
      NoneDoubled(cache);
      PeakIs(0, 1);
      Intro();
    }

    /** The substitution step of `add_inode_cache` and `cainode`; `ok` is false where they panic. */
    method MakeRoom() returns (ok: bool)
      requires InodesOk(cache, handles, files)
      modifies this`cache
      ensures ok <==> Stuck(old(cache), handles) < INODE_CACHE_SIZE
      ensures ok ==> MadeRoom(old(cache), handles, cache)
      ensures ok ==> InodesOk(cache, handles, files) && |cache| < INODE_CACHE_SIZE
      ensures ok ==> Stuck(cache, handles) == Stuck(old(cache), handles)
      ensures ok ==> forall o :: o in cache ==> o in old(cache)
      ensures ok ==> KeepsShared(old(cache), handles, cache)
    {
      hide *;
      QueueFits(cache, handles, files);
      RoomIffNotAllStuck(cache, handles);
      KeepsAll(cache, handles);
      NoRoomNeeded(cache, handles);
      ok := true;
      if |cache| == INODE_CACHE_SIZE {
        var i := FirstUnshared(cache, handles);
        if i == |cache| {
          ok := false;
        } else {
          EvictOne(cache, handles, i);
          EvictInode(cache, handles, files, i);
          RoomByEviction(cache, handles, i);
          Shorter(cache, i);
          cache := SwapRemove(cache, i);
        }
      }
    }

    /** The lookup of `cainode`. */
    method Find(n: nat) returns (i: nat)
      ensures i <= |cache|
      ensures i < |cache| ==> cache[i].number == n
      ensures i == |cache| <==> !IsCached(cache, n)
    {
      i := 0;
      while i < |cache| && cache[i].number != n
        invariant i <= |cache|
        invariant forall k :: 0 <= k < i ==> cache[k].number != n
      {
        i := i + 1;
      }
      if i < |cache| {
        assert cache[i] in cache;
      }
    }

    /** The loading branch of `cainode`; None where it panics. */
    method Load(n: nat) returns (r: Option<CaInode>)
      requires Valid() && n in files && !IsCached(cache, n)
      modifies this`cache, cm
      ensures r.Some? <==> Stuck(old(cache), handles) < INODE_CACHE_SIZE
      ensures r.Some? ==>
                && Valid() && cm.view == old(cm.view)
                && fresh(r.value) && r.value in cache && r.value.number == n
                && |cache| > 0 && cache[|cache| - 1] == r.value && MadeRoom(old(cache), handles, cache[..|cache| - 1])
                && Strong(cache, handles, r.value) == 1
                && Stuck(cache, handles) == Stuck(old(cache), handles)
                && KeepsShared(old(cache), handles, cache)
                && forall p :: p in cache ==> p in old(cache) || p == r.value
    {
      hide *;
      Elim();
      var ok := MakeRoom();
      r := None;
      if ok {
        var kind, size, name, blocks := LoadInode(cm, g, n, files);
        var o := new CaInode(n, kind, name, size, blocks);
        MatchesNew(o, files);
        LoadedInode(old(cache), cache, handles, files, o);
        DoubledKept(created, old(cache), handles, cache + [o]);
        cache := cache + [o];
        PeakIs(old(cm.peak), 5);
        Intro();
        r := Some(o);
      }
    }

    /** CAFS::cainode, which takes a handle; None where it panics. */
    method CaInodeOf(n: nat) returns (r: Option<CaInode>)
      requires Valid() && n in files
      modifies this`cache, this`handles, cm
      ensures r.Some? <==> IsCached(old(cache), n) || Stuck(old(cache), old(handles)) < INODE_CACHE_SIZE
      ensures r.Some? ==>
                && Valid() && cm.view == old(cm.view)
                && r.value in cache && r.value.number == n
                && handles == old(handles) + multiset{r.value}
                && Stuck(cache, old(handles)) == Stuck(old(cache), old(handles))
                && KeepsShared(old(cache), old(handles), cache)
                && (forall p :: p in cache ==> p in old(cache) || fresh(p))
                && (IsCached(old(cache), n) ==> cache == old(cache))
                && (!IsCached(old(cache), n) ==> Strong(cache, old(handles), r.value) == 1)
                && NoneStuckMore(old(cache), old(handles), cache)
    {
      hide *;
      var i := Find(n);
      if i < |cache| {
        r := Some(cache[i]);
        KeepsAll(cache, handles);
      } else {
        r := Load(n);
      }
      if r.Some? {
        StuckStays(old(cache), old(handles), cache);
        Elim();
        TakeInode(cache, handles, files, r.value);
        handles := handles + multiset{r.value};
        Intro();
      }
    }

    /** A handle goes out of scope. */
    method Drop(o: CaInode)
      requires Valid()
      modifies this`handles
      ensures Valid() && handles == old(handles) - multiset{o}
    {
      hide *;
      Elim();
      DropInode(cache, handles, files, o);
      handles := handles - multiset{o};
      Intro();
    }

    /** Inode::data through a handle: the bytes of the file, whatever was evicted or written since. */
    method Data(o: CaInode) returns (data: seq<byte>)
      requires Valid() && o in handles
      modifies cm
      ensures Valid() && cm.view == old(cm.view)
      ensures o.number in files && data == files[o.number].bytes
    {
      hide *;
      Elim();
      HandleMatches(cache, handles, files, o);
      data := ReadBlocks(cm, g, o.number, o.blocks, o.size, files);
      PeakIs(old(cm.peak), 1);
      Intro();
    }

    /** The object's fields follow the file; every other object has another number. */
    method Refresh(o: CaInode, size: nat, blocks: seq<nat>, ghost f: FileRec)
      requires InodesOk(cache, handles, files) && o in cache && size == |f.bytes|
      requires f.kind == files[o.number].kind && f.name == files[o.number].name && f.dat == blocks
      modifies o, this`files
      ensures files == old(files)[o.number := f] && InodesOk(cache, handles, files)
    {
      o.size, o.blocks := size, blocks;
      files := files[o.number := f];
    }

    /**
     * CAFS::write. The source passes block ids to the bitmap as they are (`rebase == 0`), which is right
     * only when no block is freed; with `rebase` the start of the data area any size may be written.
     */
    method Write(n: nat, bytes: seq<byte>, rebase: nat) returns (ok: bool)
      requires Valid() && n in files && |bytes| <= L4_MAX
      requires rebase == DataStart(g) || DataBlocks(|bytes|) >= DataBlocks(|files[n].bytes|)
      modifies this`cache, this`handles, this`files, cm, (set o | o in cache)
      ensures ok <==>
              && (IsCached(old(cache), n) || Stuck(old(cache), old(handles)) < INODE_CACHE_SIZE)
              && HasBlocks(g, old(files), n, |bytes|)
      ensures ok ==>
                && Valid() && handles == old(handles)
                && Rewritten(old(files), files, n, bytes)
                && (|bytes| >= |old(files)[n].bytes| ==> TakesUnowned(g, old(files), old(files)[n], files[n]))
                && NoneStuckMore(old(cache), old(handles), cache)
                && Stuck(cache, handles) == Stuck(old(cache), old(handles))
                && KeepsShared(old(cache), old(handles), cache)
                && (forall p :: p in cache ==> p in old(cache) || fresh(p))
                && (IsCached(old(cache), n) ==> cache == old(cache))
    {
      hide *;
      var r := CaInodeOf(n);
      ok := r.Some?;
      if ok {
        var o := r.value;
        Elim();
        Afford(cm.view, g, files, n, |bytes|);
        ghost var s := cm.view;
        ghost var f: FileRec;
        var blocks;
        ok, blocks, f := WriteFile(cm, g, n, bytes, rebase, files);
        if !ok { return; }
        if |bytes| >= |files[n].bytes| { TakesByOwners(s, g, files, files[n], f); }
        RewrittenIntro(files, n, bytes, f);
        Refresh(o, |bytes|, blocks, f);
        PeakIs(old(cm.peak), 5);
        PeakIs(cm.peak, 5);
        Intro();
        Drop(o);
        assert handles == old(handles);
      }
    }

    /** CAFS::add_inode_cache; `ok` is false where it panics. */
    method AddInodeCache(o: CaInode) returns (ok: bool, ghost q: seq<CaInode>)
      requires InodesOk(cache, handles, files) && Matches(o, files)
      requires forall p :: p in cache && p.number == o.number ==> p == o
      modifies this`cache
      ensures ok <==> Stuck(old(cache), handles) < INODE_CACHE_SIZE
      ensures ok ==>
                && cache == q + [o] && MadeRoom(old(cache), handles, q) && InodesOk(cache, handles, files)
                && Stuck(q, handles) == Stuck(old(cache), handles)
                && KeepsShared(old(cache), handles, q)
                && forall p :: p in q ==> p in old(cache)
    {
      hide *;
      ok := MakeRoom();
      q := cache;
      if ok {
        DropInode(cache, handles, files, o);
        PushInode(cache, handles, files, o);
        cache := cache + [o];
      }
    }

    /** CAFS::alloc_inode_meta; None where it panics: no inode left, a name too long, or no room in the inode cache. */
    method AllocInodeMeta(kind: InodeType, name: seq<byte>) returns (r: Option<CaInode>)
      requires Valid()
      modifies this`cache, this`handles, this`files, cm
      ensures r.Some? <==>
              |old(files)| < InodeCount(g) && |name| <= NAME_LENGTH_LIMIT && Stuck(old(cache), old(handles)) < INODE_CACHE_SIZE
      ensures r.Some? ==>
                && Valid() && fresh(r.value) && r.value in cache
                && handles == old(handles) + multiset{r.value}
                && Added(old(files), files, r.value.number, kind, PadName(name)) && r.value.number < InodeCount(g)
                && Stuck(cache, handles) == Stuck(old(cache), old(handles)) + 1
                && KeepsShared(old(cache), old(handles), cache)
                && forall p :: p in cache ==> p in old(cache) || p == r.value
    {
      hide *;
      Elim();
      ghost var before := cache;
      r := None;
      if |name| > NAME_LENGTH_LIMIT { return; }
      var number := NewInode(cm, g, kind, PadName(name), files);
      if number.None? { return; }
      var n := number.value;
      AddedIntro(files, n, kind, PadName(name));
      InodesMore(cache, handles, files, n, NewFile(kind, PadName(name)));
      files := files[n := NewFile(kind, PadName(name))];
      var o := new CaInode(n, kind, PadName(name), 0, []);
      MatchesEmpty(o, files);
      var ok; ghost var q;
      ok, q := AddInodeCache(o);
      if ok {
        TakeInode(cache, handles, files, o);
        FirstPush(before, q, handles, o);
        DoubledKept(created, before, handles, cache);
        handles := handles + multiset{o};
        PeakIs(old(cm.peak), 1);
        Intro();
        r := Some(o);
      }
    }

    /** The part of `create` that rewrites the parent, which it keeps a handle of. */
    method EnterParent(parent: nat, n: nat) returns (p: Option<CaInode>)
      requires Valid() && parent in files && n <= U64_MAX && AppendedSize(files[parent].bytes) <= L4_MAX
      modifies this`cache, this`handles, this`files, cm, (set o | o in cache)
      ensures p.Some? <==>
              && (IsCached(old(cache), parent) || Stuck(old(cache), old(handles)) < INODE_CACHE_SIZE)
              && HasBlocks(g, old(files), parent, AppendedSize(old(files)[parent].bytes))
      ensures p.Some? ==>
                && Valid() && p.value in cache && p.value.number == parent
                && handles == old(handles) + multiset{p.value}
                && Rewritten(old(files), files, parent, Append(old(files)[parent].bytes, n))
                && KeepsShared(old(cache), old(handles), cache)
                && (forall o :: o in cache ==> o in old(cache) || fresh(o))
                && Stuck(cache, handles) ==
                   Stuck(old(cache), old(handles)) + (if IsStuck(old(cache), old(handles), parent) then 0 else 1)
                && (Strong(cache, old(handles), p.value) == 1 <==> !IsStuck(old(cache), old(handles), parent))
    {
      hide *;
      ghost var c1, h1, files1 := cache, handles, files;
      p := CaInodeOf(parent);
      if p.None? { return; }
      ghost var c2 := cache;
      Elim();
      ParentTaken(c1, h1, c2, p.value, parent, files);
      var contents := Data(p.value);
      var number := InodeNumberBinary(n);
      contents := (if contents != [] then contents + [0] else contents) + number;
      AppendIs(files1[parent].bytes, n, contents);
      GrowthOnly(|files1[parent].bytes|, |contents|);
      InCache(c2, p.value, parent);
      assert cache == c2 && forall o :: o in cache ==> o in old(cache) || fresh(o);
      var ok := Write(parent, contents, 0);
      if !ok { p := None; }
    }

    /** The end of `create`: the new inode enters the cache a second time, the parent's handle is dropped. */
    method KeepCreated(meta: CaInode, p: CaInode) returns (ok: bool)
      requires Valid() && meta in cache && p in cache && meta in handles && p in handles
      requires meta != p && meta !in created && meta.number != 0
      modifies this`cache, this`handles, this`created
      ensures ok <==> Stuck(old(cache), old(handles)) < INODE_CACHE_SIZE
      ensures ok ==> Valid() && handles == old(handles) - multiset{p} && created == old(created) + {meta}
      ensures ok ==> forall o :: o in cache ==> o in old(cache)
      ensures ok ==>
                && Strong(cache, handles, p) == Strong(old(cache), old(handles) - multiset{p}, p)
                && Stuck(cache, handles) == Stuck(old(cache), old(handles)) + if Strong(cache, handles, p) == 1 then 0 else 1
      ensures ok && p.number == 0 ==> |created| <= 15
    {
      hide *;
      ghost var c, h := cache, handles;
      Elim();
      UniqueInode(cache, handles, files, meta);
      TwoMore(c, h, created, meta, p);
      CacheSlots();
      ghost var q;
      ok, q := AddInodeCache(meta);
      if ok {
        Twice(c, h, q, created, meta);
        Accounts(c, h, q, meta, p);
        created := created + {meta};
        Intro();
        Drop(p);
      }
    }

    /** The part of `create` after the new inode is made; `ok` is false where it panics. */
    method EnterAndKeep(meta: CaInode, parent: nat) returns (ok: bool)
      requires Valid() && parent in files && meta.number <= U64_MAX && AppendedSize(files[parent].bytes) <= L4_MAX
      requires meta in cache && meta in handles && meta !in created && meta.number != 0 && meta.number != parent
      modifies this, cm, (set o | o in cache)
      ensures ok <==>
              && (IsCached(old(cache), parent) || Stuck(old(cache), old(handles)) < INODE_CACHE_SIZE)
              && HasBlocks(g, old(files), parent, AppendedSize(old(files)[parent].bytes))
              && Stuck(old(cache), old(handles)) + (if IsStuck(old(cache), old(handles), parent) then 0 else 1) < INODE_CACHE_SIZE
      ensures ok ==>
                && Valid() && handles == old(handles) && created == old(created) + {meta}
                && Rewritten(old(files), files, parent, Append(old(files)[parent].bytes, meta.number))
                && (forall o :: o in cache ==> o in old(cache) || fresh(o))
                && (parent == 0 ==> |created| <= 15)
      ensures ok && !IsStuck(old(cache), old(handles), parent) ==>
                Stuck(cache, handles) == Stuck(old(cache), old(handles)) + 1 && !IsStuck(cache, handles, parent)
    {
      hide *;
      ghost var c1, h1 := cache, handles;
      var p := EnterParent(parent, meta.number);
      ok := p.Some?;
      if !ok { return; }
      ghost var c2, h2 := cache, handles;
      MetaKept(c1, h1, c2, meta);
      assert h2 - multiset{p.value} == h1;
      ok := KeepCreated(meta, p.value);
      if ok {
        Elim();
        HasOne(c1, h1, c2, p.value, cache);
        ParentFree(cache, handles, files, p.value);
      }
    }

    /**
     * CAFS::create; None where it panics: no inode left, a name too long, too few blocks for the parent's entry, or no
     * room in the inode cache at one of the steps.
     */
    method Create(parent: nat, name: seq<byte>) returns (r: Option<CaInode>)
      requires Valid() && parent in files && InodeCount(g) <= U64_MAX && AppendedSize(files[parent].bytes) <= L4_MAX
      modifies this, cm, (set o | o in cache)
      ensures r.Some? <==>
              && |old(files)| < InodeCount(g) && |name| <= NAME_LENGTH_LIMIT
              && SlotsToCreate(old(cache), old(handles), parent) < INODE_CACHE_SIZE
              && HasBlocks(g, old(files), parent, AppendedSize(old(files)[parent].bytes))
      ensures r.Some? && !IsStuck(old(cache), old(handles), parent) ==>
                Stuck(cache, handles) == Stuck(old(cache), old(handles)) + 2 && !IsStuck(cache, handles, parent)
      ensures r.Some? ==>
                && Valid() && fresh(r.value) && r.value.number <= U64_MAX
                && handles == old(handles) + multiset{r.value} && created == old(created) + {r.value}
                && Entered(old(files), files, parent, r.value.number, PadName(name))
                && forall o :: o in cache ==> o in old(cache) || fresh(o)
      ensures r.Some? && parent == 0 ==> |created| <= 15
    {
      hide *;
      ghost var c0, h0, files0 := cache, handles, files;
      r := None;
      Elim();
      NotDoubledYet(created, c0);
      SlotsNeeded(c0, h0, parent);
      var m := AllocInodeMeta(File, name);
      if m.None? { return; }
      var meta := m.value;
      ghost var c1, h1, files1 := cache, handles, files;
      AddedParts(files0, files1, meta.number, File, PadName(name), parent);
      SameParent(c0, h0, c1, meta, parent);
      StillHas(g, files0, files1, meta.number, PadName(name), parent);
      NotCached(c1, h1, parent);
      assert forall o :: o in cache ==> o in old(cache) || fresh(o);
      var ok := EnterAndKeep(meta, parent);
      if ok {
        EnteredIntro(files0, files1, files, parent, meta.number, PadName(name));
        r := Some(meta);
      }
    }

    /** CAFS::sub_inodes; None where the inode cache has no room or an entry of the directory is too short. */
    method SubInodes(n: nat) returns (r: Option<seq<nat>>)
      requires n in files && Valid()
      modifies this`cache, this`handles, cm
      ensures r.Some? <==>
              (IsCached(old(cache), n) || Stuck(old(cache), old(handles)) < INODE_CACHE_SIZE) && Listed(files, n).Some?
      ensures r.Some? ==> Valid() && handles == old(handles) && r == Listed(files, n)
      ensures r.Some? ==> Stuck(cache, handles) == Stuck(old(cache), old(handles))
      ensures r.Some? ==> forall p :: p in cache ==> p in old(cache) || fresh(p)
    {
      hide *;
      ListedIs(files, n);
      var parent := CaInodeOf(n);
      if parent.None? { return None; }
      var o := parent.value;
      Elim();
      KindOf(cache, handles, files, o);
      r := Some([]);
      if o.kind != File {
        var data := Data(o);
        r := Listing(data);
        if r.None? { return; }
      }
      Drop(o);
      assert handles == old(handles);
    }

    /** CAFS::flush: the device now holds everything. */
    method Flush()
      requires Valid()
      modifies cm
      ensures Valid() && cm.view == old(cm.view) && cm.device == cm.view
    {
      hide *;
      Elim();
      cm.Flush();
      Intro();
    }

    /** CAFS::df: free and total bytes; what is not free is owned by files. */
    method Df() returns (free: nat, total: nat)
      requires Valid()
      modifies cm
      ensures Valid() && cm.view == old(cm.view)
      ensures total == DataCount(g) * BLOCK_SIZE
      ensures free + |OwnedIds(files)| * BLOCK_SIZE == total
    {
      hide *;
      Elim();
      FsParts(cm.view, g, files);
      MirrorOf(cm.view, g, files);
      MirrorCount(DataBits(cm.view, g), OwnedIds(files), DataStart(g));
      DataBitsAre(cm.view, g);
      DataCountIs(g);
      CacheSizeIs();
      NothingHeld(DataBitmapStart(g), g.dataBitmapBlocks);
      var count := FreeCount(cm, DataBitmapStart(g), g.dataBitmapBlocks);
      PeakIs(old(cm.peak), 1);
      Intro();
      free, total := count * BLOCK_SIZE, DataCount(g) * BLOCK_SIZE;
      Distribute(count, |OwnedIds(files)|, DataCount(g));
    }
  }

  /**
   * Flushing and opening the device again: the same geometry and, for every inode, the same type, name,
   * size, blocks and bytes.
   */
  method Remount(fs: CAFS) returns (again: CAFS)
    requires fs.Valid()
    modifies fs.cm
    ensures fresh(again) && fresh(again.cm) && again.Valid() && again.g == fs.g && again.files == fs.files
    ensures again.cache == [] && again.handles == multiset{}
    ensures fs.Valid() && again.cm.view == fs.cm.view
  {
    fs.Flush();
    fs.Elim();
    hide *;
    again := new CAFS.Open(fs.cm.device, fs.g, fs.files);
  }
}
