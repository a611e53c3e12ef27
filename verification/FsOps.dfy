/** The parts of CAFS::write and CaInode that run over the block cache. */
module FsOps {
  import opened Prelude
  import opened Layout
  import opened Sequences
  import opened Cache
  import opened IndexTree
  import opened IndexBuild
  import opened Bitmap
  import opened MetaOps
  import opened FileSystem

  // ---------------------------------------------------------------------------
  // Allocation
  // ---------------------------------------------------------------------------

  /** The numbers below `n`. */
  ghost function UpTo(n: nat): set<nat> {
    if n == 0 then {} else UpTo(n - 1) + {n - 1}
  }

  lemma {:induction false} UpToMembers(n: nat)
    ensures forall b: nat :: b in UpTo(n) <==> b < n
    ensures |UpTo(n)| == n
  {
    if n == 0 {
    } else {
      UpToMembers(n - 1);
      var below, last := UpTo(n - 1), n - 1;
      assert UpTo(n) == below + {last};
      assert last !in below;
      hide UpTo;
    }
  }

  /** Every bit is set exactly when as many are set as there are. */
  lemma FullByCount(s: Store, start: nat, n: nat)
    requires IsBitmap(s, start, n)
    ensures |Bits(s, start, n)| <= n * BLOCK_BITS
    ensures FullBelow(s, start, n, n * BLOCK_BITS) <==> |Bits(s, start, n)| == n * BLOCK_BITS
  {
    var all, bits := UpTo(n * BLOCK_BITS), Bits(s, start, n);
    UpToMembers(n * BLOCK_BITS);
    hide BitAt, IsBitmap, UpTo;
    Subset(bits, all);
    if FullBelow(s, start, n, n * BLOCK_BITS) {
      assert bits == all;
    } else {
      var b :| 0 <= b < n * BLOCK_BITS && !BitAt(s, start, n, b);
      Subset(bits, all - {b});
    }
  }

  /** One bit set in the data bitmap hands out one block. */
  lemma OneAllocated(s: Store, g: Geometry, bit: nat)
    requires IsBitmap(s, DataBitmapStart(g), g.dataBitmapBlocks)
    requires bit < DataCount(g) && bit !in DataBits(s, g)
    ensures var s' := BitSet(s, DataBitmapStart(g), g.dataBitmapBlocks, bit);
            Allocated(s, s', g, [bit + DataStart(g)]) && |DataBits(s', g)| == |DataBits(s, g)| + 1
  {
    SetBitOf(s, DataBitmapStart(g), g.dataBitmapBlocks, bit);
    Decompose(bit);
    hide Bits, IsBitmap;
    var s' := BitSet(s, DataBitmapStart(g), g.dataBitmapBlocks, bit);
    assert DataBits(s', g) == DataBits(s, g) + {bit};
    assert BlockOf(bit) < g.dataBitmapBlocks;
  }

  lemma AllocatedJoins(s: Store, s1: Store, s2: Store, g: Geometry, a: seq<nat>, b: seq<nat>)
    requires Allocated(s, s1, g, a) && Allocated(s1, s2, g, b)
    ensures Allocated(s, s2, g, a + b)
  {
    hide IsBitmap, DataBits;
    forall id | id in a
      ensures id !in b
    {
      assert id - DataStart(g) + DataStart(g) in a;
      assert id - DataStart(g) in DataBits(s1, g);
    }
    DistinctConcat(a, b);
  }

  /** The blocks below each of these were taken, by somebody or by those before it. */
  ghost predicate LowestFree(s: Store, g: Geometry, ids: seq<nat>)
    requires IsBitmap(s, DataBitmapStart(g), g.dataBitmapBlocks)
  {
    forall i, id :: 0 <= i < |ids| && DataStart(g) <= id < ids[i] ==> id - DataStart(g) in DataBits(s, g) || id in ids[..i]
  }

  lemma LowestByBits(s: Store, g: Geometry, bit: nat)
    requires IsBitmap(s, DataBitmapStart(g), g.dataBitmapBlocks) && bit < DataCount(g)
    requires FullBelow(s, DataBitmapStart(g), g.dataBitmapBlocks, bit)
    ensures LowestFree(s, g, [bit + DataStart(g)])
  {
    hide BitAt, IsBitmap;
  }

  lemma NoneLowest(s: Store, g: Geometry)
    requires IsBitmap(s, DataBitmapStart(g), g.dataBitmapBlocks)
    ensures LowestFree(s, g, [])
  {
  }

  lemma LowestJoins(s: Store, s1: Store, g: Geometry, ids: seq<nat>, more: seq<nat>)
    requires Allocated(s, s1, g, ids) && LowestFree(s, g, ids) && LowestFree(s1, g, more)
    ensures LowestFree(s, g, ids + more)
  {
    hide IsBitmap, DataBits;
    var all := ids + more;
    forall i, x | 0 <= i < |all| && DataStart(g) <= x < all[i]
      ensures x - DataStart(g) in DataBits(s, g) || x in all[..i]
    {
      if i < |ids| {
        assert all[..i] == ids[..i];
      } else {
        var k := i - |ids|;
        assert all[..i] == ids + more[..k];
        assert x in more[..k] || x - DataStart(g) in DataBits(s1, g);
        assert x - DataStart(g) + DataStart(g) == x;
      }
    }
  }

  lemma DataCountIs(g: Geometry)
    ensures DataCount(g) == g.dataBitmapBlocks * BLOCK_BITS
  {
  }

  /** CAFS::alloc_data: the lowest free block of the data area; None where it panics, exactly when none is free. */
  method AllocData(cm: CacheManager, g: Geometry) returns (r: Option<nat>)
    requires cm.Valid() && IsBitmap(cm.view, DataBitmapStart(g), g.dataBitmapBlocks)
    requires Unheld(cm.pins, DataBitmapStart(g), g.dataBitmapBlocks) && |cm.pins| < CACHE_SIZE
    modifies cm
    ensures cm.Valid() && cm.pins == old(cm.pins) && cm.peak <= Peak(old(cm.peak), |cm.pins| + 1)
    ensures r.Some? <==> |old(DataBits(cm.view, g))| < DataCount(g)
    ensures r.None? ==> cm.view == old(cm.view)
    ensures r.Some? ==>
              && Allocated(old(cm.view), cm.view, g, [r.value]) && LowestFree(old(cm.view), g, [r.value])
              && IsBitmap(cm.view, DataBitmapStart(g), g.dataBitmapBlocks)
              && |DataBits(cm.view, g)| == |old(DataBits(cm.view, g))| + 1
  {
    hide *;
    DataCountIs(g);
    ghost var s := cm.view;
    DataBitsAre(s, g);
    FullByCount(s, DataBitmapStart(g), g.dataBitmapBlocks);
    var bit := Alloc(cm, DataBitmapStart(g), g.dataBitmapBlocks);
    if bit.None? { return None; }
    OneAllocated(s, g, bit.value);
    LowestByBits(s, g, bit.value);
    AllocatedParts(s, cm.view, g, [bit.value + DataStart(g)]);
    r := Some(bit.value + DataStart(g));
  }

  lemma NothingAllocated(s: Store, g: Geometry)
    requires IsBitmap(s, DataBitmapStart(g), g.dataBitmapBlocks)
    ensures Allocated(s, s, g, [])
  {
  }

  /** The allocation loops of `write`; None where one of the calls panics, exactly when there are too few free blocks. */
  method AllocBlocks(cm: CacheManager, g: Geometry, k: nat) returns (r: Option<seq<nat>>)
    requires cm.Valid() && IsBitmap(cm.view, DataBitmapStart(g), g.dataBitmapBlocks)
    requires Unheld(cm.pins, DataBitmapStart(g), g.dataBitmapBlocks) && |cm.pins| < CACHE_SIZE
    modifies cm
    ensures r.Some? <==> k == 0 || |old(DataBits(cm.view, g))| + k <= DataCount(g)
    ensures r.Some? ==>
              && cm.Valid() && cm.pins == old(cm.pins) && cm.peak <= Peak(old(cm.peak), |cm.pins| + 1)
              && |r.value| == k && Allocated(old(cm.view), cm.view, g, r.value) && LowestFree(old(cm.view), g, r.value)
              && IsBitmap(cm.view, DataBitmapStart(g), g.dataBitmapBlocks)
              && |DataBits(cm.view, g)| == |old(DataBits(cm.view, g))| + k
  {
    hide *;
    var ids := [];
    NothingAllocated(cm.view, g);
    NoneLowest(cm.view, g);
    for i := 0 to k
      invariant cm.Valid() && cm.pins == old(cm.pins) && cm.peak <= Peak(old(cm.peak), |cm.pins| + 1)
      invariant |ids| == i && Allocated(old(cm.view), cm.view, g, ids) && LowestFree(old(cm.view), g, ids)
      invariant IsBitmap(cm.view, DataBitmapStart(g), g.dataBitmapBlocks)
      invariant |DataBits(cm.view, g)| == |old(DataBits(cm.view, g))| + i
      invariant i == 0 || |DataBits(cm.view, g)| <= DataCount(g)
    {
      ghost var s := cm.view;
      var id := AllocData(cm, g);
      if id.None? { return None; }
      LowestJoins(old(cm.view), s, g, ids, [id.value]);
      AllocatedJoins(old(cm.view), s, cm.view, g, ids, [id.value]);
      ids := ids + [id.value];
    }
    r := Some(ids);
  }

  // ---------------------------------------------------------------------------
  // Resizing
  // ---------------------------------------------------------------------------

  /** Blocks a change of size takes from the bitmap. */
  function Need(oldSize: nat, newSize: nat): nat {
    if oldSize < newSize then DataDelta(oldSize, newSize) + IndexDelta(oldSize, newSize) else 0
  }

  /** Enough free blocks for the change of size. */
  ghost predicate Affordable(s: Store, g: Geometry, oldSize: nat, newSize: nat)
    requires IsBitmap(s, DataBitmapStart(g), g.dataBitmapBlocks)
  {
    |DataBits(s, g)| + Need(oldSize, newSize) <= DataCount(g)
  }

  /** The inode's own block is the only one held. */
  ghost predicate HoldsInode(pins: map<nat, Pin>, g: Geometry, n: nat) {
    pins.Keys == {InodeBlock(g, n)} && pins[InodeBlock(g, n)] == Exclusive
  }

  lemma HeldApart(s: Store, g: Geometry, files: Files, n: nat, pins: map<nat, Pin>, ids: seq<nat>)
    requires MapsOk(s, g, files) && n in files && HoldsInode(pins, g, n)
    ensures Unheld(pins, DataBitmapStart(g), g.dataBitmapBlocks) && |pins| == 1 && |pins| + 5 <= CACHE_SIZE
    ensures InDataArea(g, ids) ==> NoneHeld(pins, ids)
  {
    InodeInArea(s, g, files, n);
    assert |pins.Keys| == |pins|;
  }

  lemma AreaParts(g: Geometry, a: seq<nat>, b: seq<nat>)
    requires InDataArea(g, a + b)
    ensures InDataArea(g, a) && InDataArea(g, b)
  {
    assert forall id :: id in a ==> id in a + b;
    assert forall id :: id in b ==> id in a + b;
  }

  lemma AreaOfAllocated(s: Store, s1: Store, g: Geometry, ids: seq<nat>)
    requires Allocated(s, s1, g, ids)
    ensures InDataArea(g, ids)
  {
  }

  /** The blocks that `f'` has more than `f`, data blocks first, were the lowest free ones, in this order. */
  ghost predicate TakesLowest(s: Store, g: Geometry, f: FileRec, f': FileRec)
    requires IsBitmap(s, DataBitmapStart(g), g.dataBitmapBlocks)
  {
    && f.dat <= f'.dat && |f.idx| <= |f'.idx| && (f'.idx[..|f.idx|] == f.idx || f'.idx[..|f.idx|] == Sort(f.idx))
    && LowestFree(s, g, f'.dat[|f.dat|..] + f'.idx[|f.idx|..])
  }

  lemma SameLength(a: seq<nat>, b: seq<nat>)
    requires multiset(a) == multiset(b)
    ensures |a| == |b|
  {
    assert |multiset(a)| == |a| && |multiset(b)| == |b|;
  }

  lemma TakesThese(s: Store, g: Geometry, f: FileRec, f': FileRec, data: seq<nat>, index: seq<nat>)
    requires IsBitmap(s, DataBitmapStart(g), g.dataBitmapBlocks) && LowestFree(s, g, data + index)
    requires f'.dat == f.dat + data && f'.idx == Sort(f.idx) + index
    ensures TakesLowest(s, g, f, f')
  {
    assert multiset(Sort(f.idx)) == multiset(f.idx);
    SameLength(Sort(f.idx), f.idx);
    assert f'.dat[|f.dat|..] == data && f'.idx[|f.idx|..] == index && f'.idx[..|f.idx|] == Sort(f.idx);
    hide LowestFree, Sort;
  }

  lemma BitsFit(s: Store, g: Geometry)
    requires IsBitmap(s, DataBitmapStart(g), g.dataBitmapBlocks)
    ensures |DataBits(s, g)| <= DataCount(g)
  {
    FullByCount(s, DataBitmapStart(g), g.dataBitmapBlocks);
  }

  lemma OwnedIsBoth(f: FileRec)
    ensures f.Owned() == f.idx + f.dat
  {
  }

  lemma NeedIs(oldSize: nat, newSize: nat)
    requires oldSize < newSize
    ensures Need(oldSize, newSize) == DataDelta(oldSize, newSize) + IndexDelta(oldSize, newSize)
  {
  }

  lemma AffordableIs(s: Store, g: Geometry, oldSize: nat, newSize: nat)
    requires IsBitmap(s, DataBitmapStart(g), g.dataBitmapBlocks)
    ensures Affordable(s, g, oldSize, newSize) <==> |DataBits(s, g)| + Need(oldSize, newSize) <= DataCount(g)
  {
  }

  /** The growing branch of `write`, inside the closure that holds the inode's block; `ok` is false where it panics. */
  method GrowHeld(cm: CacheManager, g: Geometry, n: nat, m: Meta, newSize: nat, ghost files: Files)
    returns (ok: bool, m': Meta, ghost f: FileRec)
    requires cm.Valid() && MapsOk(cm.view, g, files) && ShapesOk(cm.view, g, files) && n in files
    requires HasInode(cm.view, g, n) && m == MetaAt(cm.view, g, n) && m.size < newSize <= L4_MAX
    requires HoldsInode(cm.pins, g, n) && IsBitmap(cm.view, DataBitmapStart(g), g.dataBitmapBlocks)
    modifies cm
    ensures ok <==> Affordable(old(cm.view), g, m.size, newSize)
    ensures ok ==>
              && cm.Valid() && cm.pins == old(cm.pins) && cm.peak <= Peak(old(cm.peak), 5)
              && m'.size == newSize && f == files[n].(idx := f.idx, dat := f.dat) && TakesLowest(old(cm.view), g, files[n], f)
              && var s' := WithMeta(cm.view, g, n, m');
                 && MapsOk(s', g, files[n := f]) && ShapesOk(s', g, files[n := f])
                 && (forall k :: k in files && k != n && ContentOk(old(cm.view), g, k, files[k]) ==> ContentOk(s', g, k, files[k]))
  {
    hide *;
    ghost var s := cm.view;
    HeldApart(s, g, files, n, cm.pins, files[n].idx);
    NeedIs(m.size, newSize);
    BitsFit(s, g);
    AffordableIs(s, g, m.size, newSize);
    m', f := m, files[n];
    var info := IndexBlocks(newSize);
    var d := AllocBlocks(cm, g, DataDelta(m.size, newSize));
    if d.None? { return false, m, f; }
    var data := d.value;
    ghost var s1 := cm.view;
    var i := AllocBlocks(cm, g, IndexDelta(m.size, newSize));
    if i.None? { return false, m, f; }
    var index := i.value;
    AllocatedJoins(s, s1, cm.view, g, data, index);
    GrowStep(s, cm.view, g, files, n, newSize, data, index);
    ghost var x := Indexed(cm.view, m, files[n].idx, files[n].dat);
    ghost var y := Extend(x, newSize, data, index);
    AreaOfAllocated(s1, cm.view, g, index);
    ShapeAt(s, g, files, n);
    OwnedIsBoth(files[n]);
    AreaParts(g, files[n].idx, files[n].dat);
    HeldApart(s, g, files, n, cm.pins, index);
    ok := true;
    m' := ExtendMeta(cm, m, newSize, info, data, index, files[n].idx, files[n].dat);
    f := files[n].(idx := y.idx, dat := y.dat);
    ExtendKeeps(x, newSize, data, index);
    LowestJoins(s, s1, g, data, index);
    TakesThese(s, g, files[n], f, data, index);
  }

  lemma TakesNone(s: Store, g: Geometry, f: FileRec)
    requires IsBitmap(s, DataBitmapStart(g), g.dataBitmapBlocks)
    ensures TakesLowest(s, g, f, f)
  {
    assert f.dat[|f.dat|..] + f.idx[|f.idx|..] == [] && f.idx[..|f.idx|] == f.idx;
    NoneLowest(s, g);
    hide LowestFree;
  }

  lemma ReleasedJoins(s: Store, s1: Store, s2: Store, g: Geometry, ids: seq<nat>, i: nat)
    requires i < |ids| && Released(s, s1, g, ids[..i]) && Released(s1, s2, g, [ids[i]])
    ensures Released(s, s2, g, ids[..i + 1])
  {
    hide IsBitmap, DataBits;
    assert ids[..i + 1] == ids[..i] + [ids[i]];
  }

  lemma NothingReleased(s: Store, g: Geometry)
    requires IsBitmap(s, DataBitmapStart(g), g.dataBitmapBlocks)
    ensures Released(s, s, g, [])
  {
  }

  lemma OneReleased(s: Store, g: Geometry, bit: nat)
    requires IsBitmap(s, DataBitmapStart(g), g.dataBitmapBlocks) && bit in DataBits(s, g)
    ensures Released(s, BitCleared(s, DataBitmapStart(g), g.dataBitmapBlocks, bit), g, [bit + DataStart(g)])
  {
    ClearBitOf(s, DataBitmapStart(g), g.dataBitmapBlocks, bit);
    Decompose(bit);
    hide Bits, IsBitmap;
    var s' := BitCleared(s, DataBitmapStart(g), g.dataBitmapBlocks, bit);
    assert DataBits(s', g) == DataBits(s, g) - {bit};
    assert BlockOf(bit) < g.dataBitmapBlocks;
  }

  /** What is still set after some of the ids were released. */
  lemma StillSet(s: Store, s1: Store, g: Geometry, ids: seq<nat>, i: nat)
    requires IsBitmap(s, DataBitmapStart(g), g.dataBitmapBlocks) && Distinct(ids) && i < |ids|
    requires Released(s, s1, g, ids[..i]) && forall id :: id in ids ==> id >= DataStart(g) && id - DataStart(g) in DataBits(s, g)
    ensures IsBitmap(s1, DataBitmapStart(g), g.dataBitmapBlocks)
    ensures ids[i] >= DataStart(g) && ids[i] - DataStart(g) in DataBits(s1, g)
  {
    hide IsBitmap, DataBits;
    assert ids[i] in ids;
    assert ids[i] !in ids[..i];
    var b := ids[i] - DataStart(g);
    assert b + DataStart(g) == ids[i];
  }

  /**
   * The deallocation loops of `write`. The source passes the block ids themselves, which is `rebase == 0`;
   * the bitmap counts from the start of the data area, which is what `rebase` has to be for any id.
   */
  method ReleaseBlocks(cm: CacheManager, g: Geometry, ids: seq<nat>, rebase: nat)
    requires cm.Valid() && IsBitmap(cm.view, DataBitmapStart(g), g.dataBitmapBlocks)
    requires Unheld(cm.pins, DataBitmapStart(g), g.dataBitmapBlocks) && |cm.pins| < CACHE_SIZE
    requires Distinct(ids) && forall id :: id in ids ==> id >= DataStart(g) && id - DataStart(g) in DataBits(cm.view, g)
    requires rebase == DataStart(g) || ids == []
    modifies cm
    ensures cm.Valid() && cm.pins == old(cm.pins) && cm.peak <= Peak(old(cm.peak), |cm.pins| + 1)
    ensures Released(old(cm.view), cm.view, g, ids)
  {
    hide *;
    ghost var s := cm.view;
    NothingReleased(s, g);
    assert ids[..0] == [];
    for i := 0 to |ids|
      invariant cm.Valid() && cm.pins == old(cm.pins) && cm.peak <= Peak(old(cm.peak), |cm.pins| + 1)
      invariant Released(s, cm.view, g, ids[..i])
    {
      ghost var s1 := cm.view;
      StillSet(s, s1, g, ids, i);
      DataBitsAre(s1, g);
      Dealloc(cm, DataBitmapStart(g), g.dataBitmapBlocks, ids[i] - rebase);
      OneReleased(s1, g, ids[i] - rebase);
      ReleasedJoins(s, s1, cm.view, g, ids, i);
    }
    assert ids[..|ids|] == ids;
  }

  lemma ReleasedBoth(s: Store, s1: Store, s2: Store, g: Geometry, a: seq<nat>, b: seq<nat>)
    requires Released(s, s1, g, a) && Released(s1, s2, g, b)
    ensures Released(s, s2, g, a + b)
  {
    hide IsBitmap, DataBits;
  }

  lemma FreedParts(all: seq<nat>, y: Indexed, a: seq<nat>, b: seq<nat>)
    requires Distinct(all) && multiset(y.Owned()) + multiset(a + b) == multiset(all)
    ensures Distinct(a) && Distinct(b) && Elements(a) !! Elements(b)
    ensures forall id :: id in a || id in b || id in y.idx ==> id in all
  {
    DistinctPart(all, y.Owned(), a + b);
    DistinctConcat(a, b);
    assert forall id :: id in a || id in b ==> id in Elements(a + b);
    assert forall id :: id in y.idx ==> id in Elements(y.Owned());
    assert forall id :: id in Elements(all) ==> id in all;
  }

  lemma AllOwned(files: Files, n: nat)
    requires n in files
    ensures forall id :: id in files[n].Owned() ==> id in OwnedIds(files)
  {
  }

  lemma BitmapKept(s: Store, g: Geometry, all: seq<nat>, y: Indexed)
    requires IsBitmap(s, DataBitmapStart(g), g.dataBitmapBlocks) && OnlyTouches(s, y.store, y.idx)
    requires InDataArea(g, all) && forall id :: id in y.idx ==> id in all
    ensures IsBitmap(y.store, DataBitmapStart(g), g.dataBitmapBlocks) && DataBits(y.store, g) == DataBits(s, g)
  {
    hide Bits;
    BitsFrame(s, y.store, DataBitmapStart(g), g.dataBitmapBlocks);
  }

  lemma MirrorHas(bits: set<nat>, ids: set<nat>, base: nat, id: nat)
    requires Mirrors(bits, ids, base) && id in ids
    ensures id >= base && id - base in bits
  {
  }

  /** The ids that `shrink` returned are set in the bitmap, each once, and it left the bitmap alone. */
  lemma FreedAreSet(s: Store, g: Geometry, files: Files, n: nat, y: Indexed, a: seq<nat>, b: seq<nat>)
    requires MapsOk(s, g, files) && ShapesOk(s, g, files) && n in files
    requires OnlyTouches(s, y.store, y.idx)
    requires multiset(y.Owned()) + multiset(a + b) == multiset(files[n].Owned())
    ensures Distinct(a) && Distinct(b) && Elements(a) !! Elements(b)
    ensures IsBitmap(y.store, DataBitmapStart(g), g.dataBitmapBlocks)
    ensures forall id :: id in a || id in b ==> id >= DataStart(g) && id - DataStart(g) in DataBits(y.store, g)
  {
    hide *;
    ShapeAt(s, g, files, n);
    FreedParts(files[n].Owned(), y, a, b);
    MirrorOf(s, g, files);
    AllOwned(files, n);
    BitmapKept(s, g, files[n].Owned(), y);
    forall id | id in a || id in b
      ensures id >= DataStart(g) && id - DataStart(g) in DataBits(y.store, g)
    {
      assert id in files[n].Owned();
      MirrorHas(DataBits(y.store, g), OwnedIds(files), DataStart(g), id);
    }
  }

  lemma StillSetAfter(s: Store, s1: Store, g: Geometry, a: seq<nat>, b: seq<nat>)
    requires IsBitmap(s, DataBitmapStart(g), g.dataBitmapBlocks) && Released(s, s1, g, a) && Elements(a) !! Elements(b)
    requires forall id :: id in b ==> id >= DataStart(g) && id - DataStart(g) in DataBits(s, g)
    ensures IsBitmap(s1, DataBitmapStart(g), g.dataBitmapBlocks)
    ensures forall id :: id in b ==> id - DataStart(g) in DataBits(s1, g)
  {
    hide IsBitmap, DataBits;
    forall id | id in b
      ensures id - DataStart(g) in DataBits(s1, g)
    {
      assert id in Elements(b);
      assert id - DataStart(g) + DataStart(g) == id;
    }
  }

  /** A shrink that keeps the number of data blocks returns no id. */
  lemma NothingFreed(x: Indexed, newSize: nat)
    requires x.Valid() && newSize <= x.meta.size && DataBlocks(newSize) == DataBlocks(x.meta.size)
    ensures Shrinkable(x, newSize) && Shrink(x, newSize).freed == Ids([], [])
  {
    hide *;
    SameDataSameIndex(newSize, x.meta.size);
    ShrunkIds(x, newSize);
    assert IndexDelta(newSize, x.meta.size) == 0;
    assert DataDelta(newSize, x.meta.size) == 0;
  }

  lemma SameOwned(x: Indexed, f: FileRec)
    requires x.idx == f.idx && x.dat == f.dat
    ensures x.Owned() == f.Owned()
  {
  }

  /** The shrinking branch of `write`, inside the closure that holds the inode's block. */
  method CutHeld(cm: CacheManager, g: Geometry, n: nat, m: Meta, newSize: nat, rebase: nat, ghost files: Files)
    returns (m': Meta, ghost f: FileRec)
    requires cm.Valid() && MapsOk(cm.view, g, files) && ShapesOk(cm.view, g, files) && n in files
    requires HasInode(cm.view, g, n) && m == MetaAt(cm.view, g, n) && newSize < m.size
    requires rebase == DataStart(g) || DataBlocks(newSize) == DataBlocks(m.size)
    requires HoldsInode(cm.pins, g, n)
    modifies cm
    ensures cm.Valid() && cm.pins == old(cm.pins) && cm.peak <= Peak(old(cm.peak), 5)
    ensures m'.size == newSize && f == files[n].(idx := f.idx, dat := f.dat)
    ensures var s' := WithMeta(cm.view, g, n, m');
            && MapsOk(s', g, files[n := f]) && ShapesOk(s', g, files[n := f])
            && (forall k :: k in files && k != n && ContentOk(old(cm.view), g, k, files[k]) ==> ContentOk(s', g, k, files[k]))
  {
    hide *;
    ghost var s := cm.view;
    ghost var x := Indexed(s, m, files[n].idx, files[n].dat);
    ShapeAt(s, g, files, n);
    OwnedIsBoth(files[n]);
    AreaParts(g, files[n].idx, files[n].dat);
    HeldApart(s, g, files, n, cm.pins, files[n].idx);
    if DataBlocks(newSize) == DataBlocks(m.size) { NothingFreed(x, newSize); }
    var freed;
    m', freed := ShrinkMeta(cm, m, newSize, files[n].idx, files[n].dat);
    ShrinkKeeps(x, newSize);
    ghost var y := Shrink(x, newSize).after;
    SameOwned(x, files[n]);
    FreedAreSet(s, g, files, n, y, freed.index, freed.data);
    ReleaseBlocks(cm, g, freed.index, rebase);
    StillSetAfter(y.store, cm.view, g, freed.index, freed.data);
    ghost var s1 := cm.view;
    ReleaseBlocks(cm, g, freed.data, rebase);
    ReleasedBoth(y.store, s1, cm.view, g, freed.index, freed.data);
    CutStep(s, cm.view, g, files, n, newSize);
    f := files[n].(idx := y.idx, dat := y.dat);
  }

  // ---------------------------------------------------------------------------
  // write
  // ---------------------------------------------------------------------------

  /** Every file but `n` has its contents. */
  ghost predicate OthersIntact(s: Store, g: Geometry, files: Files, n: nat) {
    forall k :: k in files && k != n ==> ContentOk(s, g, k, files[k])
  }

  /** File `n` has its index and size, its data blocks are yet to be written. */
  ghost predicate AwaitsData(s: Store, g: Geometry, files: Files, n: nat, size: nat) {
    && MapsOk(s, g, files) && ShapesOk(s, g, files) && n in files
    && HasInode(s, g, n) && MetaAt(s, g, n).size == size
    && OthersIntact(s, g, files, n)
  }

  lemma ReadyToResize(s: Store, g: Geometry, files: Files, n: nat)
    requires FsOk(s, g, files) && n in files
    ensures AwaitsData(s, g, files, n, |files[n].bytes|)
    ensures InodeBlock(g, n) in s && IsBitmap(s, DataBitmapStart(g), g.dataBitmapBlocks)
  {
    assert ContentOk(s, g, n, files[n]);
    hide ShapesOk, ContentOk;
  }

  lemma AwaitsParts(s: Store, g: Geometry, files: Files, n: nat, size: nat)
    requires AwaitsData(s, g, files, n, size)
    ensures MapsOk(s, g, files) && ShapesOk(s, g, files) && n in files
    ensures HasInode(s, g, n) && MetaAt(s, g, n).size == size
    ensures s[InodeBlock(g, n)] == Inode(MetaAt(s, g, n))
  {
    hide MapsOk, ShapesOk, OthersIntact;
  }

  lemma AwaitsIntro(s: Store, s': Store, g: Geometry, files: Files, n: nat, f: FileRec, size: nat, m: Meta)
    requires AwaitsData(s, g, files, n, size)
    requires MapsOk(s', g, files[n := f]) && ShapesOk(s', g, files[n := f])
    requires InodeBlock(g, n) in s' && s'[InodeBlock(g, n)] == Inode(m)
    requires forall k :: k in files && k != n && ContentOk(s, g, k, files[k]) ==> ContentOk(s', g, k, files[k])
    ensures AwaitsData(s', g, files[n := f], n, m.size)
  {
    hide MapsOk, ShapesOk, ContentOk;
  }

  lemma OneInode(g: Geometry, n: nat, pins: map<nat, Pin>)
    requires pins == map[InodeBlock(g, n) := Exclusive]
    ensures HoldsInode(pins, g, n) && |pins| == 1
  {
  }

  lemma WithMetaIs(s: Store, g: Geometry, n: nat, m: Meta)
    ensures WithMeta(s, g, n, m) == s[InodeBlock(g, n) := Inode(m)]
    ensures InodeBlock(g, n) in s && s[InodeBlock(g, n)] == Inode(m) ==> WithMeta(s, g, n, m) == s
  {
  }

  lemma ReadBack(s: Store, g: Geometry, files: Files, n: nat, pins: map<nat, Pin>)
    requires MapsOk(s, g, files) && ShapesOk(s, g, files) && n in files && HoldsInode(pins, g, n) && HasInode(s, g, n)
    ensures Built(s, MetaAt(s, g, n), files[n].idx, files[n].dat)
    ensures Distinct(files[n].idx) && NoneHeld(pins, files[n].idx) && |pins| + 5 <= CACHE_SIZE
  {
    ShapeAt(s, g, files, n);
    IndexPart(Indexed(s, MetaAt(s, g, n), files[n].idx, files[n].dat));
    AreaParts(g, files[n].idx, files[n].dat);
    HeldApart(s, g, files, n, pins, files[n].idx);
  }

  lemma NoNeed(s: Store, g: Geometry, oldSize: nat, newSize: nat)
    requires IsBitmap(s, DataBitmapStart(g), g.dataBitmapBlocks) && oldSize >= newSize && |DataBits(s, g)| <= DataCount(g)
    ensures Affordable(s, g, oldSize, newSize)
  {
    hide DataBits;
  }

  /** The closure of `write`: resize the index under the inode's lock and read the data ids back. */
  method Resize(cm: CacheManager, g: Geometry, n: nat, newSize: nat, rebase: nat, ghost files: Files)
    returns (ok: bool, blocks: seq<nat>, ghost f: FileRec)
    requires cm.Valid() && cm.pins == map[] && FsOk(cm.view, g, files) && n in files && newSize <= L4_MAX
    requires IsBitmap(cm.view, DataBitmapStart(g), g.dataBitmapBlocks)
    requires rebase == DataStart(g) || DataBlocks(newSize) >= DataBlocks(|files[n].bytes|)
    modifies cm
    ensures ok <==> Affordable(old(cm.view), g, |files[n].bytes|, newSize)
    ensures ok ==>
              && cm.Valid() && cm.pins == map[] && cm.peak <= Peak(old(cm.peak), 5)
              && f == files[n].(idx := f.idx, dat := f.dat) && blocks == f.dat
              && (newSize >= |files[n].bytes| ==> TakesLowest(old(cm.view), g, files[n], f))
              && AwaitsData(cm.view, g, files[n := f], n, newSize)
  {
    hide *;
    ghost var s := cm.view;
    ok, blocks := true, [];
    BitsFit(s, g);
    TakesNone(s, g, files[n]);
    ReadyToResize(s, g, files, n);
    AwaitsParts(s, g, files, n, |files[n].bytes|);
    CacheSizeIs();
    var id := InodeBlock(g, n);
    cm.Open(id, true);
    OneInode(g, n, cm.pins);
    var block := cm.Peek(id);
    var m := block.meta;
    var m' := m;
    f := files[n];
    if m.size < newSize {
      ok, m', f := GrowHeld(cm, g, n, m, newSize, files);
      if !ok { return; }
    } else if m.size > newSize {
      NoNeed(s, g, m.size, newSize);
      CountsAreMonotone(newSize, m.size);
      m', f := CutHeld(cm, g, n, m, newSize, rebase, files);
    } else {
      NoNeed(s, g, m.size, newSize);
      assert files[n := f] == files;
      WithMetaIs(s, g, n, m);
    }
    WithMetaIs(cm.view, g, n, m');
    cm.Poke(id, Inode(m'));
    AwaitsIntro(s, cm.view, g, files, n, f, |files[n].bytes|, m');
    AwaitsParts(cm.view, g, files[n := f], n, newSize);
    ReadBack(cm.view, g, files[n := f], n, cm.pins);
    var ids := BlocksOf(cm, m', f.idx, f.dat);
    PinUnpin(map[], id, Exclusive);
    cm.Close(id);
    blocks := ids.data;
  }

  /** The copy loop of `write`: each block takes the next bytes of `contents.chain(repeat(0))`. */
  method Fill(cm: CacheManager, dat: seq<nat>, bytes: seq<byte>)
    requires cm.Valid() && cm.pins == map[] && Distinct(dat) && Elements(dat) <= cm.view.Keys
    modifies cm
    ensures cm.Valid() && cm.pins == map[] && cm.peak <= Peak(old(cm.peak), 1)
    ensures OnlyTouches(old(cm.view), cm.view, dat)
    ensures forall k :: 0 <= k < |dat| ==> dat[k] in cm.view && cm.view[dat[k]] == Data(Chunk(bytes, k))
  {
    hide Coherent, Chunk;
    for i := 0 to |dat|
      invariant cm.Valid() && cm.pins == map[] && cm.peak <= Peak(old(cm.peak), 1)
      invariant OnlyTouches(old(cm.view), cm.view, dat)
      invariant forall k :: 0 <= k < i ==> dat[k] in cm.view && cm.view[dat[k]] == Data(Chunk(bytes, k))
    {
      assert dat[i] in Elements(dat) && dat[i] in dat;
      cm.Modify(dat[i], Data(Chunk(bytes, i)));
    }
  }

  lemma AwaitsFill(s: Store, g: Geometry, files: Files, n: nat, size: nat)
    requires AwaitsData(s, g, files, n, size)
    ensures Distinct(files[n].dat) && Elements(files[n].dat) <= s.Keys
  {
    AwaitsParts(s, g, files, n, size);
    ShapeAt(s, g, files, n);
    DistinctConcat(files[n].idx, files[n].dat);
    var x := Indexed(s, MetaAt(s, g, n), files[n].idx, files[n].dat);
    assert Elements(files[n].dat) <= Elements(x.Owned());
  }

  lemma Filled(s: Store, s': Store, g: Geometry, files: Files, n: nat, bytes: seq<byte>)
    requires AwaitsData(s, g, files, n, |bytes|)
    requires OnlyTouches(s, s', files[n].dat)
    requires forall k :: 0 <= k < |files[n].dat| ==> files[n].dat[k] in s' && s'[files[n].dat[k]] == Data(Chunk(bytes, k))
    ensures FsOk(s', g, files[n := files[n].(bytes := bytes)])
  {
    hide MapsOk, ShapesOk, FsOk, ContentOk, Chunk, OnlyTouches;
    FillKeeps(s, s', g, files, n, bytes);
  }

  lemma TakesSame(s: Store, g: Geometry, f: FileRec, h: FileRec, bytes: seq<byte>)
    requires IsBitmap(s, DataBitmapStart(g), g.dataBitmapBlocks)
    ensures TakesLowest(s, g, f, h) ==> TakesLowest(s, g, f, h.(bytes := bytes))
  {
  }

  /** CAFS::write below the inode cache: file `n` has these bytes, the others are as they were; panics if too few blocks are free. */
  method WriteFile(cm: CacheManager, g: Geometry, n: nat, bytes: seq<byte>, rebase: nat, ghost files: Files)
    returns (ok: bool, blocks: seq<nat>, ghost f: FileRec)
    requires cm.Valid() && cm.pins == map[] && FsOk(cm.view, g, files) && n in files && |bytes| <= L4_MAX
    requires IsBitmap(cm.view, DataBitmapStart(g), g.dataBitmapBlocks)
    requires rebase == DataStart(g) || DataBlocks(|bytes|) >= DataBlocks(|files[n].bytes|)
    modifies cm
    ensures ok <==> Affordable(old(cm.view), g, |files[n].bytes|, |bytes|)
    ensures ok ==>
              && cm.Valid() && cm.pins == map[] && cm.peak <= Peak(old(cm.peak), 5)
              && f == files[n].(bytes := bytes, idx := f.idx, dat := f.dat) && blocks == f.dat
              && (|bytes| >= |files[n].bytes| ==> TakesLowest(old(cm.view), g, files[n], f))
              && FsOk(cm.view, g, files[n := f])
  {
    hide *;
    ghost var h: FileRec;
    ok, blocks, h := Resize(cm, g, n, |bytes|, rebase, files);
    f := h;
    if !ok { return; }
    TakesSame(old(cm.view), g, files[n], h, bytes);
    AwaitsFill(cm.view, g, files[n := h], n, |bytes|);
    ghost var s := cm.view;
    Fill(cm, blocks, bytes);
    Filled(s, cm.view, g, files[n := h], n, bytes);
    f := h.(bytes := bytes);
    assert files[n := h][n := f] == files[n := f];
  }

  // ---------------------------------------------------------------------------
  // CaInode
  // ---------------------------------------------------------------------------

  lemma ReadBackShared(s: Store, g: Geometry, files: Files, n: nat, pins: map<nat, Pin>)
    requires MapsOk(s, g, files) && ShapesOk(s, g, files) && n in files && HasInode(s, g, n)
    requires pins == map[InodeBlock(g, n) := Shared(1)]
    ensures Built(s, MetaAt(s, g, n), files[n].idx, files[n].dat)
    ensures Distinct(files[n].idx) && NoneHeld(pins, files[n].idx) && |pins| == 1 && |pins| + 5 <= CACHE_SIZE
  {
    ReadBack(s, g, files, n, map[InodeBlock(g, n) := Exclusive]);
  }

  /** CaInode::from: what a freshly loaded inode object holds. */
  method LoadInode(cm: CacheManager, g: Geometry, n: nat, ghost files: Files)
    returns (kind: InodeType, size: nat, name: seq<byte>, blocks: seq<nat>)
    requires cm.Valid() && cm.pins == map[] && FsOk(cm.view, g, files) && n in files
    modifies cm
    ensures cm.Valid() && cm.pins == map[] && cm.view == old(cm.view) && cm.peak <= Peak(old(cm.peak), 5)
    ensures kind == files[n].kind && size == |files[n].bytes| && name == files[n].name && blocks == files[n].dat
  {
    hide *;
    ghost var s := cm.view;
    ReadyToResize(s, g, files, n);
    AwaitsParts(s, g, files, n, |files[n].bytes|);
    ShapeAt(s, g, files, n);
    CacheSizeIs();
    var id := InodeBlock(g, n);
    cm.Open(id, false);
    var block := cm.Peek(id);
    var m := block.meta;
    ReadBackShared(s, g, files, n, cm.pins);
    var ids := BlocksOf(cm, m, files[n].idx, files[n].dat);
    PinUnpin(map[], id, Shared(1));
    cm.Close(id);
    kind, size, name, blocks := m.kind, m.size, m.name, ids.data;
  }

  lemma ChunkBytes(bytes: seq<byte>, k: nat, take: nat)
    requires take <= BLOCK_SIZE && BLOCK_SIZE * k + take <= |bytes|
    ensures bytes[..BLOCK_SIZE * k] + Chunk(bytes, k)[..take] == bytes[..BLOCK_SIZE * k + take]
  {
  }

  /** How many bytes the last block of a file holds. */
  function LastSize(size: nat): nat {
    if size % BLOCK_SIZE != 0 then size % BLOCK_SIZE else BLOCK_SIZE
  }

  /** How many bytes of block `i` of `count` belong to a file of this size. */
  lemma LastBlock(size: nat, i: nat, count: nat)
    requires count == DataBlocks(size) && i < count
    ensures i < count - 1 ==> BLOCK_SIZE * i + BLOCK_SIZE <= size
    ensures i == count - 1 ==> LastSize(size) <= BLOCK_SIZE && BLOCK_SIZE * i + LastSize(size) == size
  {
  }

  lemma FileBlocks(s: Store, g: Geometry, files: Files, n: nat)
    requires FsOk(s, g, files) && n in files
    ensures |files[n].dat| == DataBlocks(|files[n].bytes|) && Distinct(files[n].dat)
    ensures forall k :: 0 <= k < |files[n].dat| ==>
                          files[n].dat[k] in s && s[files[n].dat[k]] == Data(Chunk(files[n].bytes, k))
  {
    assert ContentOk(s, g, n, files[n]);
    ShapeAt(s, g, files, n);
    DistinctConcat(files[n].idx, files[n].dat);
    IndexPart(Indexed(s, MetaAt(s, g, n), files[n].idx, files[n].dat));
    hide Chunk, MapsOk, ShapesOk, DataBlocks;
  }

  lemma DistinctAt(s: seq<nat>)
    requires Distinct(s)
    ensures forall i, j :: 0 <= i < j < |s| ==> s[i] != s[j]
  {
  }

  lemma NoBlocks(size: nat)
    requires DataBlocks(size) == 0
    ensures size == 0
  {
  }

  /** CaInode::data */
  method ReadBlocks(cm: CacheManager, g: Geometry, n: nat, blocks: seq<nat>, size: nat, ghost files: Files)
    returns (data: seq<byte>)
    requires cm.Valid() && cm.pins == map[] && FsOk(cm.view, g, files) && n in files
    requires blocks == files[n].dat && size == |files[n].bytes|
    modifies cm
    ensures cm.Valid() && cm.pins == map[] && cm.view == old(cm.view) && cm.peak <= Peak(old(cm.peak), 1)
    ensures data == files[n].bytes
  {
    hide *;
    ghost var s, bytes := cm.view, files[n].bytes;
    FileBlocks(s, g, files, n);
    DistinctAt(blocks);
    CacheSizeIs();
    data := [];
    if blocks != [] {
      var last := blocks[|blocks| - 1];
      for i := 0 to |blocks|
        invariant cm.Valid() && cm.pins == map[] && cm.view == s && cm.peak <= Peak(old(cm.peak), 1)
        invariant i < |blocks| ==> BLOCK_SIZE * i <= size && data == bytes[..BLOCK_SIZE * i]
        invariant i == |blocks| ==> data == bytes
      {
        var id := blocks[i];
        var block := cm.Read(id);
        LastBlock(size, i, |blocks|);
        if id == last {
          ChunkBytes(bytes, i, LastSize(size));
          data := data + block.bytes[..LastSize(size)];
        } else {
          ChunkBytes(bytes, i, BLOCK_SIZE);
          assert block.bytes[..BLOCK_SIZE] == block.bytes;
          data := data + block.bytes;
        }
      }
    } else {
      NoBlocks(size);
    }
  }

  // ---------------------------------------------------------------------------
  // alloc_inode_meta, init, open
  // ---------------------------------------------------------------------------

  lemma InodesByCount(s: Store, g: Geometry, files: Files)
    requires FsOk(s, g, files)
    ensures IsBitmap(s, InodeBitmapStart(), g.inodeBitmapBlocks)
    ensures FullBelow(s, InodeBitmapStart(), g.inodeBitmapBlocks, InodeCount(g)) <==> |files| >= InodeCount(g)
  {
    LowParts(s, g, files);
    assert |files.Keys| == |files|;
    FullByCount(s, InodeBitmapStart(), g.inodeBitmapBlocks);
  }

  /** All numbers below `n` are taken. */
  ghost predicate TakenBelow(files: Files, n: nat) {
    forall k :: 0 <= k < n ==> k in files
  }

  lemma TakenByBits(s: Store, g: Geometry, files: Files, n: nat)
    requires FsOk(s, g, files) && IsBitmap(s, InodeBitmapStart(), g.inodeBitmapBlocks) && n <= InodeCount(g)
    requires FullBelow(s, InodeBitmapStart(), g.inodeBitmapBlocks, n)
    ensures TakenBelow(files, n)
  {
    LowParts(s, g, files);
    hide FsOk, BitAt;
    forall k | 0 <= k < n
      ensures k in files
    {
      assert k in Bits(s, InodeBitmapStart(), g.inodeBitmapBlocks);
    }
  }

  lemma InodeCountIs(g: Geometry)
    ensures InodeCount(g) == g.inodeBitmapBlocks * BLOCK_BITS
  {
  }

  lemma NothingHeld(start: nat, n: nat)
    ensures Unheld(map[], start, n)
  {
  }

  lemma CreatedParts(s: Store, g: Geometry, n: nat, kind: InodeType, name: seq<byte>)
    requires GeometryOk(g) && IsBitmap(s, InodeBitmapStart(), g.inodeBitmapBlocks) && n < InodeCount(g)
    requires forall id: nat :: id in s <==> id < g.totalBlocks
    ensures var s1 := BitSet(s, InodeBitmapStart(), g.inodeBitmapBlocks, n);
            InodeBlock(g, n) in s1 && Created(s, g, n, kind, name) == s1[InodeBlock(g, n) := Inode(FreshMeta(kind, name))]
  {
    assert InodeBlock(g, n) == InodeStart(g) + n;
  }

  /** The block part of CAFS::alloc_inode_meta: the lowest free number becomes an empty file; None where it panics. */
  method NewInode(cm: CacheManager, g: Geometry, kind: InodeType, name: seq<byte>, ghost files: Files) returns (r: Option<nat>)
    requires cm.Valid() && cm.pins == map[] && FsOk(cm.view, g, files)
    modifies cm
    ensures cm.Valid() && cm.pins == map[] && cm.peak <= Peak(old(cm.peak), 1)
    ensures r.Some? <==> |files| < InodeCount(g)
    ensures r.Some? ==>
              && r.value !in files && TakenBelow(files, r.value) && r.value < InodeCount(g)
              && FsOk(cm.view, g, files[r.value := NewFile(kind, name)])
  {
    hide *;
    ghost var s := cm.view;
    CacheSizeIs();
    InodesByCount(s, g, files);
    InodeCountIs(g);
    NothingHeld(InodeBitmapStart(), g.inodeBitmapBlocks);
    r := Alloc(cm, InodeBitmapStart(), g.inodeBitmapBlocks);
    if r.None? { return; }
    var n := r.value;
    LowParts(s, g, files);
    TakenByBits(s, g, files, n);
    CreateKeeps(s, g, files, n, kind, name);
    CreatedParts(s, g, n, kind, name);
    cm.Modify(InodeBlock(g, n), Inode(FreshMeta(kind, name)));
  }

  /** The clearing loop and the super block of CAFS::init. */
  method Format(cm: CacheManager, g: Geometry)
    requires cm.Valid() && cm.pins == map[] && GeometryOk(g) && g.totalBlocks > 0
    requires forall id: nat :: id in cm.view <==> id < g.totalBlocks
    modifies cm
    ensures cm.Valid() && cm.pins == map[] && cm.peak <= Peak(old(cm.peak), 1)
    ensures forall id: nat :: id < g.totalBlocks ==> id in cm.view && cm.view[id] == if id == 0 then Super(true, g) else Zeroed
    ensures FsOk(cm.view, g, map[])
  {
    hide Coherent, FsOk;
    for i := 0 to g.totalBlocks
      invariant cm.Valid() && cm.pins == map[] && cm.peak <= Peak(old(cm.peak), 1)
      invariant forall id: nat :: id in cm.view <==> id < g.totalBlocks
      invariant forall id :: 0 <= id < i ==> cm.view[id] == Zeroed
    {
      cm.Modify(i, Zeroed);
    }
    cm.Modify(0, Super(true, g));
    BlankIsOk(cm.view, g);
  }
}
