/**
 * What a CAFS device holds: the regions of the disk, the invariant that ties every block to the
 * super block, a bitmap, an inode or a file, and the steps of a write as changes of the store.
 */
module FileSystem {
  import opened Prelude
  import opened Layout
  import opened Sequences
  import opened IndexTree
  import opened IndexBuild
  import opened Bitmap

  // ---------------------------------------------------------------------------
  // Regions
  // ---------------------------------------------------------------------------

  function InodeBitmapStart(): nat { 1 }

  function InodeStart(g: Geometry): nat { 1 + g.inodeBitmapBlocks }

  function DataBitmapStart(g: Geometry): nat { 1 + g.inodeBitmapBlocks + g.inodeAreaBlocks }

  function DataStart(g: Geometry): nat { 1 + g.inodeBitmapBlocks + g.inodeAreaBlocks + g.dataBitmapBlocks }

  function InodeCount(g: Geometry): nat { g.inodeBitmapBlocks * BLOCK_BITS }

  function DataCount(g: Geometry): nat { g.dataBitmapBlocks * BLOCK_BITS }

  /** CAFS::inode_pos_of: the block of an inode; `META_SIZE` makes the offset zero. */
  function InodeBlock(g: Geometry, n: nat): nat {
    var inodesPerBlock := BLOCK_SIZE / META_SIZE;
    InodeStart(g) + n / inodesPerBlock
  }

  /** The blocks that the inodes take in the inode area, and what remains for data. */
  function InodeAreaBlocks(inodeBitmapBlocks: nat): nat {
    CeilDiv(inodeBitmapBlocks * BLOCK_BITS * META_SIZE, BLOCK_SIZE)
  }

  predicate BigEnough(totalBlocks: nat, inodeBitmapBlocks: nat) {
    totalBlocks >= 1 + inodeBitmapBlocks + InodeAreaBlocks(inodeBitmapBlocks)
  }

  /** The geometry that CAFS::init chooses. */
  function Plan(totalBlocks: nat, inodeBitmapBlocks: nat): Geometry
    requires BigEnough(totalBlocks, inodeBitmapBlocks)
  {
    var inodeAreaBlocks := InodeAreaBlocks(inodeBitmapBlocks);
    var dataTotal := totalBlocks - 1 - (inodeBitmapBlocks + inodeAreaBlocks);
    var dataBitmapBlocks := dataTotal / (BLOCK_BITS + 1);
    Geometry(totalBlocks, inodeBitmapBlocks, inodeAreaBlocks, dataBitmapBlocks, dataTotal - dataBitmapBlocks)
  }

  /** The regions lie one after the other, each inode has a block and each data bit has one. */
  ghost predicate GeometryOk(g: Geometry) {
    && g.inodeAreaBlocks == InodeCount(g)
    && DataStart(g) + g.dataAreaBlocks == g.totalBlocks
    && DataCount(g) <= g.dataAreaBlocks
  }

  /**
   * The geometry that `init` records, for every device: 4096 inodes and as many blocks for each inode bitmap block, the
   * regions one after the other, and as many data bitmap blocks as there are blocks for their bits, no further one.
   */
  lemma PlanIsOk(totalBlocks: nat, inodeBitmapBlocks: nat)
    requires BigEnough(totalBlocks, inodeBitmapBlocks)
    ensures GeometryOk(Plan(totalBlocks, inodeBitmapBlocks))
    ensures var g := Plan(totalBlocks, inodeBitmapBlocks);
            && g.totalBlocks == totalBlocks && g.inodeBitmapBlocks == inodeBitmapBlocks
            && InodeCount(g) == 4096 * inodeBitmapBlocks && DataCount(g) == 4096 * g.dataBitmapBlocks
            && InodeBitmapStart() == 1 && InodeStart(g) == 1 + inodeBitmapBlocks
            && DataBitmapStart(g) == InodeStart(g) + 4096 * inodeBitmapBlocks
            && DataStart(g) == DataBitmapStart(g) + g.dataBitmapBlocks && DataStart(g) + g.dataAreaBlocks == totalBlocks
            && 0 <= g.dataAreaBlocks - DataCount(g) <= 4096
  {
  }

  /** The default image of `fs`, 102400 blocks with 10 inode bitmap blocks. */
  lemma DefaultImage()
    ensures BigEnough(102400, 10)
    ensures Plan(102400, 10) == Geometry(102400, 10, 40960, 14, 61415)
    ensures DataStart(Plan(102400, 10)) == 40985 && DataCount(Plan(102400, 10)) * BLOCK_SIZE == 29_360_128
  {
  }

  // ---------------------------------------------------------------------------
  // Files
  // ---------------------------------------------------------------------------

  /** A file as the store represents it: its contents and the blocks it owns. */
  datatype FileRec = FileRec(kind: InodeType, name: seq<byte>, bytes: seq<byte>, idx: seq<nat>, dat: seq<nat>)
  {
    function Owned(): seq<nat> {
      idx + dat
    }
  }

  type Files = map<nat, FileRec>

  /** The bytes of data block `k` of a file, padded with zeros. */
  function Chunk(bytes: seq<byte>, k: nat): (r: seq<byte>)
    ensures |r| == BLOCK_SIZE
    ensures forall i :: 0 <= i < BLOCK_SIZE ==>
                          r[i] == if BLOCK_SIZE * k + i < |bytes| then bytes[BLOCK_SIZE * k + i] else 0
  {
    seq(BLOCK_SIZE, i requires 0 <= i < BLOCK_SIZE =>
      if BLOCK_SIZE * k + i < |bytes| then bytes[BLOCK_SIZE * k + i] else 0)
  }

  ghost predicate InDataArea(g: Geometry, ids: seq<nat>) {
    forall id :: id in ids ==> DataStart(g) <= id < DataStart(g) + DataCount(g)
  }

  ghost predicate HasInode(s: Store, g: Geometry, n: nat) {
    InodeBlock(g, n) in s && s[InodeBlock(g, n)].Inode?
  }

  function MetaAt(s: Store, g: Geometry, n: nat): Meta
    requires HasInode(s, g, n)
  {
    s[InodeBlock(g, n)].meta
  }

  /** The inode on disk describes this file and its index is intact. */
  ghost predicate ShapeOk(s: Store, g: Geometry, n: nat, f: FileRec) {
    && HasInode(s, g, n)
    && var m := MetaAt(s, g, n);
       && m.kind == f.kind && m.name == f.name
       && Indexed(s, m, f.idx, f.dat).Valid()
       && InDataArea(g, f.Owned())
  }

  /** The data blocks hold the bytes of this file. */
  ghost predicate ContentOk(s: Store, g: Geometry, n: nat, f: FileRec) {
    && HasInode(s, g, n)
    && MetaAt(s, g, n).size == |f.bytes|
    && (forall k :: 0 <= k < |f.dat| ==> f.dat[k] in s && s[f.dat[k]] == Data(Chunk(f.bytes, k)))
  }

  /** The blocks owned by some file. */
  ghost function OwnedIds(files: Files): set<nat> {
    set n, id | n in files && id in files[n].Owned() :: id
  }

  ghost predicate NoSharing(files: Files) {
    forall n, m, id :: n in files && m in files && id in files[n].Owned() && id in files[m].Owned() ==> n == m
  }

  /** Bits of a set of block ids, counted from `base`. */
  ghost predicate Mirrors(bits: set<nat>, ids: set<nat>, base: nat) {
    && (forall b :: b in bits ==> b + base in ids)
    && (forall id :: id in ids ==> id >= base && id - base in bits)
  }

  /** Super block and bitmaps: a bit of the data bitmap is set exactly when a file owns its block. */
  ghost predicate MapsOk(s: Store, g: Geometry, files: Files) {
    && GeometryOk(g)
    && (forall id: nat :: id in s <==> id < g.totalBlocks)
    && g.totalBlocks > 0 && s[0] == Super(true, g)
    && IsBitmap(s, InodeBitmapStart(), g.inodeBitmapBlocks)
    && Bits(s, InodeBitmapStart(), g.inodeBitmapBlocks) == files.Keys
    && IsBitmap(s, DataBitmapStart(g), g.dataBitmapBlocks)
    && Mirrors(Bits(s, DataBitmapStart(g), g.dataBitmapBlocks), OwnedIds(files), DataStart(g))
  }

  ghost predicate ShapesOk(s: Store, g: Geometry, files: Files) {
    && (forall n :: n in files ==> ShapeOk(s, g, n, files[n]))
    && NoSharing(files)
  }

  ghost predicate ContentsOk(s: Store, g: Geometry, files: Files) {
    forall n :: n in files ==> ContentOk(s, g, n, files[n])
  }

  ghost predicate FsOk(s: Store, g: Geometry, files: Files) {
    MapsOk(s, g, files) && ShapesOk(s, g, files) && ContentsOk(s, g, files)
  }

  /** The inode numbers in use have their own block in the inode area. */
  lemma InodeInArea(s: Store, g: Geometry, files: Files, n: nat)
    requires MapsOk(s, g, files) && n in files
    ensures n < InodeCount(g) && InodeStart(g) <= InodeBlock(g, n) == InodeStart(g) + n < DataBitmapStart(g)
    ensures InodeBlock(g, n) in s
  {
    assert n in Bits(s, InodeBitmapStart(), g.inodeBitmapBlocks);
  }

  // ---------------------------------------------------------------------------
  // What a change of some blocks leaves alone
  // ---------------------------------------------------------------------------

  lemma ShapeFrame(s: Store, s': Store, g: Geometry, n: nat, f: FileRec)
    requires ShapeOk(s, g, n, f) && s'.Keys == s.Keys
    requires s'[InodeBlock(g, n)] == s[InodeBlock(g, n)]
    requires forall id :: id in f.idx ==> id in s && s'[id] == s[id]
    ensures ShapeOk(s', g, n, f)
  {
    var m := MetaAt(s, g, n);
    BuiltFrame(s, s', m, f.idx, f.dat);
    assert Indexed(s', m, f.idx, f.dat).Owned() == Indexed(s, m, f.idx, f.dat).Owned();
  }

  lemma ContentFrame(s: Store, s': Store, g: Geometry, n: nat, f: FileRec)
    requires ContentOk(s, g, n, f) && s'.Keys == s.Keys
    requires s'[InodeBlock(g, n)] == s[InodeBlock(g, n)]
    requires forall id :: id in f.dat && id in s ==> s'[id] == s[id]
    ensures ContentOk(s', g, n, f)
  {
  }

  // ---------------------------------------------------------------------------
  // Steps
  // ---------------------------------------------------------------------------

  ghost predicate InBitmaps(g: Geometry, id: nat) {
    DataBitmapStart(g) <= id < DataStart(g)
  }

  lemma OwnedBy(files: Files, n: nat, id: nat)
    requires n in files && id in files[n].Owned()
    ensures id in OwnedIds(files)
  {
  }

  /** Owned ids after file `n` was replaced. */
  lemma OwnedAfter(files: Files, n: nat, f: FileRec)
    requires NoSharing(files)
    ensures n in files ==>
              OwnedIds(files[n := f]) == (OwnedIds(files) - Elements(files[n].Owned())) + Elements(f.Owned())
    ensures n !in files ==> OwnedIds(files[n := f]) == OwnedIds(files) + Elements(f.Owned())
  {
    var files' := files[n := f];
    forall id
      ensures id in OwnedIds(files') <==>
              id in f.Owned() || (id in OwnedIds(files) && (n in files ==> id !in files[n].Owned()))
    {
      if id in OwnedIds(files') {
        var m :| m in files' && id in files'[m].Owned();
        if m != n { assert m in files && id in files[m].Owned(); }
      }
      if id in f.Owned() { OwnedBy(files', n, id); }
      if id in OwnedIds(files) && (n in files ==> id !in files[n].Owned()) {
        var m :| m in files && id in files[m].Owned();
        assert m != n;
        OwnedBy(files', m, id);
      }
    }
  }

  /** The ids of `f` were file `n`'s already, or nobody's. */
  ghost predicate Claims(files: Files, n: nat, f: FileRec) {
    forall id :: id in f.Owned() ==> (n in files && id in files[n].Owned()) || id !in OwnedIds(files)
  }

  lemma SharingAfter(files: Files, n: nat, f: FileRec)
    requires NoSharing(files) && Claims(files, n, f)
    ensures NoSharing(files[n := f])
  {
    var files' := files[n := f];
    forall p, q, id | p in files' && q in files' && id in files'[p].Owned() && id in files'[q].Owned()
      ensures p == q
    {
      if p != n && q == n {
        OwnedBy(files, p, id);
      } else if p == n && q != n {
        OwnedBy(files, q, id);
      }
    }
  }

  /** A file's blocks lie outside the bitmaps, the inodes and every other file's blocks. */
  lemma Apart(s: Store, g: Geometry, files: Files, m: nat, id: nat)
    requires MapsOk(s, g, files) && ShapesOk(s, g, files) && m in files && id in files[m].Owned()
    ensures id >= DataStart(g) && !InBitmaps(g, id) && id in s
    ensures forall n :: n in files ==> InodeBlock(g, n) != id
    ensures forall n :: n in files && n != m ==> id !in files[n].Owned()
  {
    assert ShapeOk(s, g, m, files[m]);
    forall n | n in files
      ensures InodeBlock(g, n) != id
    {
      InodeInArea(s, g, files, n);
    }
  }

  /** What the resize of file `n` to `f` may change. */
  ghost predicate ResizeTouches(s: Store, s': Store, g: Geometry, n: nat, f: FileRec) {
    && s'.Keys == s.Keys
    && forall id :: id in s && !InBitmaps(g, id) && id != InodeBlock(g, n) && id !in f.idx ==> s'[id] == s[id]
  }

  lemma Untouched(s: Store, s': Store, g: Geometry, files: Files, n: nat, f: FileRec, m: nat, id: nat)
    requires MapsOk(s, g, files) && ShapesOk(s, g, files) && n in files && m in files && m != n
    requires ResizeTouches(s, s', g, n, f) && Claims(files, n, f) && InDataArea(g, f.Owned())
    requires id in files[m].Owned() || id == InodeBlock(g, m)
    ensures id in s && s'.Keys == s.Keys && s'[id] == s[id]
  {
    hide MapsOk, ShapesOk;
    InodeInArea(s, g, files, n);
    InodeInArea(s, g, files, m);
    assert id in f.idx ==> id in f.Owned();
    if id in files[m].Owned() {
      Apart(s, g, files, m, id);
      OwnedBy(files, m, id);
    }
  }

  lemma OthersKeep(s: Store, s': Store, g: Geometry, files: Files, n: nat, f: FileRec, m: nat)
    requires MapsOk(s, g, files) && ShapesOk(s, g, files) && n in files && m in files && m != n
    requires ResizeTouches(s, s', g, n, f) && Claims(files, n, f) && InDataArea(g, f.Owned())
    ensures ShapeOk(s', g, m, files[m])
    ensures ContentOk(s, g, m, files[m]) ==> ContentOk(s', g, m, files[m])
  {
    assert ShapeOk(s, g, m, files[m]);
    assert forall id :: id in files[m].idx || id in files[m].dat ==> id in files[m].Owned();
    hide *;
    forall id | id in files[m].Owned()
      ensures id in s && s'[id] == s[id]
    {
      Untouched(s, s', g, files, n, f, m, id);
    }
    Untouched(s, s', g, files, n, f, m, InodeBlock(g, m));
    ShapeFrame(s, s', g, m, files[m]);
    if ContentOk(s, g, m, files[m]) {
      ContentFrame(s, s', g, m, files[m]);
    }
  }

  lemma AssembleShapes(s: Store, g: Geometry, files: Files, n: nat, f: FileRec)
    requires NoSharing(files[n := f]) && ShapeOk(s, g, n, f)
    requires forall m :: m in files && m != n ==> ShapeOk(s, g, m, files[m])
    ensures ShapesOk(s, g, files[n := f])
  {
    hide ShapeOk, NoSharing;
  }

  lemma AssembleContents(s: Store, g: Geometry, files: Files, n: nat, f: FileRec)
    requires ContentOk(s, g, n, f)
    requires forall m :: m in files && m != n ==> ContentOk(s, g, m, files[m])
    ensures ContentsOk(s, g, files[n := f])
  {
    hide ContentOk;
  }

  /** The part of `MapsOk` that does not concern the data bitmap. */
  ghost predicate LowOk(s: Store, g: Geometry, inodes: set<nat>) {
    && GeometryOk(g)
    && (forall id: nat :: id in s <==> id < g.totalBlocks)
    && g.totalBlocks > 0 && s[0] == Super(true, g)
    && IsBitmap(s, InodeBitmapStart(), g.inodeBitmapBlocks)
    && Bits(s, InodeBitmapStart(), g.inodeBitmapBlocks) == inodes
  }

  lemma AssembleMaps(s: Store, g: Geometry, files: Files, n: nat, f: FileRec)
    requires LowOk(s, g, files.Keys + {n})
    requires IsBitmap(s, DataBitmapStart(g), g.dataBitmapBlocks)
    requires Mirrors(Bits(s, DataBitmapStart(g), g.dataBitmapBlocks), OwnedIds(files[n := f]), DataStart(g))
    ensures MapsOk(s, g, files[n := f])
  {
    hide IsBitmap, Bits, Mirrors, OwnedIds, GeometryOk;
    assert files[n := f].Keys == files.Keys + {n};
  }

  lemma ShapeParts(s: Store, g: Geometry, n: nat, f: FileRec)
    requires ShapeOk(s, g, n, f)
    ensures InDataArea(g, f.Owned()) && HasInode(s, g, n)
    ensures MetaAt(s, g, n).kind == f.kind && MetaAt(s, g, n).name == f.name
    ensures Indexed(s, MetaAt(s, g, n), f.idx, f.dat).Valid()
  {
  }

  lemma SharingPart(s: Store, g: Geometry, files: Files)
    requires ShapesOk(s, g, files)
    ensures NoSharing(files)
    ensures forall n :: n in files ==> ShapeOk(s, g, n, files[n])
  {
  }

  /** The super block and the inode bitmap are not part of any resize. */
  lemma LowBlocksKeep(s: Store, s': Store, g: Geometry, files: Files, n: nat, f: FileRec)
    requires MapsOk(s, g, files) && n in files && ResizeTouches(s, s', g, n, f) && InDataArea(g, f.Owned())
    ensures LowOk(s', g, files.Keys)
  {
    InodeInArea(s, g, files, n);
    assert forall id :: id in f.idx ==> id in f.Owned();
    forall id | 0 <= id < InodeStart(g)
      ensures id in s' && s'[id] == s[id]
    {
    }
    BitsFrame(s, s', InodeBitmapStart(), g.inodeBitmapBlocks);
  }

  /** Resizing one file keeps the bitmaps, every file's index and every other file's contents. */
  lemma ResizeKeeps(s: Store, s': Store, g: Geometry, files: Files, n: nat, f: FileRec)
    requires MapsOk(s, g, files) && ShapesOk(s, g, files) && n in files
    requires ResizeTouches(s, s', g, n, f) && Claims(files, n, f)
    requires ShapeOk(s', g, n, f)
    requires IsBitmap(s', DataBitmapStart(g), g.dataBitmapBlocks)
    requires Mirrors(Bits(s', DataBitmapStart(g), g.dataBitmapBlocks), OwnedIds(files[n := f]), DataStart(g))
    ensures MapsOk(s', g, files[n := f]) && ShapesOk(s', g, files[n := f])
    ensures forall m :: m in files && m != n && ContentOk(s, g, m, files[m]) ==> ContentOk(s', g, m, files[m])
  {
    hide *;
    ShapeParts(s', g, n, f);
    SharingPart(s, g, files);
    forall m | m in files && m != n
      ensures ShapeOk(s', g, m, files[m])
      ensures ContentOk(s, g, m, files[m]) ==> ContentOk(s', g, m, files[m])
    {
      OthersKeep(s, s', g, files, n, f, m);
    }
    SharingAfter(files, n, f);
    LowBlocksKeep(s, s', g, files, n, f);
    assert files.Keys + {n} == files.Keys;
    AssembleShapes(s', g, files, n, f);
    AssembleMaps(s', g, files, n, f);
  }

  lemma FsIntro(s: Store, g: Geometry, files: Files)
    requires MapsOk(s, g, files) && ShapesOk(s, g, files) && ContentsOk(s, g, files)
    ensures FsOk(s, g, files)
  {
  }

  lemma NewBytes(s: Store, s': Store, g: Geometry, n: nat, f: FileRec, bytes: seq<byte>)
    requires ShapeOk(s', g, n, f) && HasInode(s, g, n) && MetaAt(s, g, n).size == |bytes|
    requires InodeBlock(g, n) in s' && s'[InodeBlock(g, n)] == s[InodeBlock(g, n)]
    requires forall k :: 0 <= k < |f.dat| ==> f.dat[k] in s' && s'[f.dat[k]] == Data(Chunk(bytes, k))
    ensures ShapeOk(s', g, n, f.(bytes := bytes)) && ContentOk(s', g, n, f.(bytes := bytes))
  {
    hide Chunk;
    assert f.(bytes := bytes).Owned() == f.Owned();
  }

  lemma SameOwner(s: Store, g: Geometry, files: Files, n: nat, bytes: seq<byte>)
    requires MapsOk(s, g, files) && NoSharing(files) && n in files
    ensures var files' := files[n := files[n].(bytes := bytes)]; MapsOk(s, g, files') && NoSharing(files')
  {
    var f := files[n].(bytes := bytes);
    assert f.Owned() == files[n].Owned();
    SharingAfter(files, n, f);
    OwnedAfter(files, n, f);
    assert Elements(files[n].Owned()) <= OwnedIds(files);
    assert OwnedIds(files[n := f]) == OwnedIds(files);
    hide NoSharing, OwnedIds, Mirrors, IsBitmap, Bits;
    assert files[n := f].Keys == files.Keys;
  }

  lemma FillKeepsOne(s: Store, s': Store, g: Geometry, files: Files, n: nat, m: nat)
    requires MapsOk(s, g, files) && ShapesOk(s, g, files) && n in files && m in files
    requires m != n ==> ContentOk(s, g, m, files[m])
    requires OnlyTouches(s, s', files[n].dat)
    ensures InodeBlock(g, m) in s && InodeBlock(g, m) in s' && s'[InodeBlock(g, m)] == s[InodeBlock(g, m)]
    ensures ShapeOk(s', g, m, files[m])
    ensures m != n ==> ContentOk(s', g, m, files[m])
  {
    InodeInArea(s, g, files, m);
    assert ShapeOk(s, g, m, files[m]) && ShapeOk(s, g, n, files[n]);
    forall id | id in files[n].dat
      ensures id != InodeBlock(g, m) && id !in files[m].idx && (m != n ==> id !in files[m].dat)
    {
      assert id in files[n].Owned();
      Apart(s, g, files, n, id);
      DistinctConcat(files[n].idx, files[n].dat);
      assert id in Elements(files[n].dat);
    }
    hide *;
    ShapeFrame(s, s', g, m, files[m]);
    if m != n { ContentFrame(s, s', g, m, files[m]); }
  }

  /** The maps lie below the data area. */
  lemma SameLow(s: Store, s': Store, g: Geometry, files: Files)
    requires MapsOk(s, g, files) && s'.Keys == s.Keys
    requires forall id :: id in s && id < DataStart(g) ==> s'[id] == s[id]
    ensures MapsOk(s', g, files)
  {
    hide Bits, OwnedIds, Mirrors;
    BitsFrame(s, s', InodeBitmapStart(), g.inodeBitmapBlocks);
    BitsFrame(s, s', DataBitmapStart(g), g.dataBitmapBlocks);
  }

  lemma FillKeepsMaps(s: Store, s': Store, g: Geometry, files: Files, n: nat)
    requires MapsOk(s, g, files) && ShapesOk(s, g, files) && n in files && OnlyTouches(s, s', files[n].dat)
    ensures MapsOk(s', g, files)
  {
    forall id | id in s && id < DataStart(g)
      ensures id in s' && s'[id] == s[id]
    {
      if id in files[n].dat {
        assert id in files[n].Owned();
        Apart(s, g, files, n, id);
      }
    }
    SameLow(s, s', g, files);
  }

  /** Writing the data blocks of one file makes its contents the bytes written and keeps everything else. */
  lemma FillKeeps(s: Store, s': Store, g: Geometry, files: Files, n: nat, bytes: seq<byte>)
    requires MapsOk(s, g, files) && ShapesOk(s, g, files) && n in files
    requires HasInode(s, g, n) && MetaAt(s, g, n).size == |bytes|
    requires forall m :: m in files && m != n ==> ContentOk(s, g, m, files[m])
    requires OnlyTouches(s, s', files[n].dat)
    requires forall k :: 0 <= k < |files[n].dat| ==> files[n].dat[k] in s' && s'[files[n].dat[k]] == Data(Chunk(bytes, k))
    ensures FsOk(s', g, files[n := files[n].(bytes := bytes)])
  {
    hide *;
    var f := files[n].(bytes := bytes);
    SharingPart(s, g, files);
    forall m | m in files
      ensures ShapeOk(s', g, m, files[m])
      ensures m != n ==> ContentOk(s', g, m, files[m])
    {
      FillKeepsOne(s, s', g, files, n, m);
    }
    FillKeepsOne(s, s', g, files, n, n);
    NewBytes(s, s', g, n, files[n], bytes);
    FillKeepsMaps(s, s', g, files, n);
    SameOwner(s', g, files, n, bytes);
    AssembleShapes(s', g, files, n, f);
    AssembleContents(s', g, files, n, f);
    FsIntro(s', g, files[n := f]);
  }

  // ---------------------------------------------------------------------------
  // Growing
  // ---------------------------------------------------------------------------

  ghost function DataBits(s: Store, g: Geometry): set<nat>
    requires IsBitmap(s, DataBitmapStart(g), g.dataBitmapBlocks)
  {
    Bits(s, DataBitmapStart(g), g.dataBitmapBlocks)
  }

  /** `s'` differs from `s` in the data bitmap only. */
  ghost predicate OnlyBitmap(s: Store, s': Store, g: Geometry) {
    && s'.Keys == s.Keys
    && IsBitmap(s, DataBitmapStart(g), g.dataBitmapBlocks)
    && IsBitmap(s', DataBitmapStart(g), g.dataBitmapBlocks)
    && forall id :: id in s && !InBitmaps(g, id) ==> s'[id] == s[id]
  }

  /** The allocator handed out `ids`, which were free. */
  ghost predicate Allocated(s: Store, s': Store, g: Geometry, ids: seq<nat>) {
    && OnlyBitmap(s, s', g)
    && InDataArea(g, ids) && Distinct(ids)
    && (forall id :: id in ids ==> id - DataStart(g) !in DataBits(s, g))
    && (forall b: nat :: b in DataBits(s', g) <==> b in DataBits(s, g) || b + DataStart(g) in ids)
  }

  /** The allocator took `ids` back. */
  ghost predicate Released(s: Store, s': Store, g: Geometry, ids: seq<nat>) {
    && OnlyBitmap(s, s', g)
    && (forall b: nat :: b in DataBits(s', g) <==> b in DataBits(s, g) && b + DataStart(g) !in ids)
  }

  /** The inode's view of the store survives changes of the bitmap. */
  lemma IndexedUnderBitmap(s: Store, s': Store, g: Geometry, files: Files, n: nat)
    requires MapsOk(s, g, files) && ShapesOk(s, g, files) && n in files && OnlyBitmap(s, s', g)
    ensures ShapeOk(s', g, n, files[n]) && MetaAt(s', g, n) == MetaAt(s, g, n)
  {
    InodeInArea(s, g, files, n);
    assert ShapeOk(s, g, n, files[n]);
    forall id | id in files[n].idx
      ensures id in s && s'[id] == s[id]
    {
      assert id in files[n].Owned();
      Apart(s, g, files, n, id);
    }
    hide Indexed.Valid, InDataArea;
    ShapeFrame(s, s', g, n, files[n]);
  }

  /** Newly allocated ids belong to nobody. */
  lemma FreshIds(s: Store, s': Store, g: Geometry, files: Files, ids: seq<nat>, id: nat)
    requires MapsOk(s, g, files) && Allocated(s, s', g, ids) && id in ids
    ensures id !in OwnedIds(files) && id != 0 && id in s
  {
    hide Bits, OwnedIds, IsBitmap, Distinct;
  }

  lemma AllocatedStores(s: Store, s1: Store, g: Geometry, ids: seq<nat>)
    requires Allocated(s, s1, g, ids)
    ensures OnlyBitmap(s, s1, g) && s1.Keys == s.Keys && Distinct(ids)
  {
    hide IsBitmap, DataBits, Distinct;
  }

  lemma ExtendableIntro(x: Indexed, files: Files, n: nat, newSize: nat, data: seq<nat>, index: seq<nat>)
    requires x.Valid() && n in files && x.idx == files[n].idx && x.dat == files[n].dat
    requires x.meta.size <= newSize <= L4_MAX && Distinct(data + index)
    requires |data| == DataDelta(x.meta.size, newSize) && |index| == IndexDelta(x.meta.size, newSize)
    requires forall id :: id in data + index ==> id !in OwnedIds(files) && id != 0 && id in x.store
    ensures Extendable(x, newSize, data, index)
  {
    hide Built, DataDelta, IndexDelta;
    assert forall id :: id in x.Owned() ==> id in files[n].Owned() && id in OwnedIds(files);
    DistinctConcat(x.Owned(), data + index);
    assert forall id :: id in data || id in index ==> id in data + index;
  }

  /** The new ids are what `extend` may take. */
  lemma CanExtend(s: Store, s1: Store, g: Geometry, files: Files, n: nat, newSize: nat, data: seq<nat>, index: seq<nat>)
    requires MapsOk(s, g, files) && ShapesOk(s, g, files) && n in files
    requires Allocated(s, s1, g, data + index)
    requires HasInode(s, g, n) && MetaAt(s, g, n).size <= newSize <= L4_MAX
    requires |data| == DataDelta(MetaAt(s, g, n).size, newSize) && |index| == IndexDelta(MetaAt(s, g, n).size, newSize)
    ensures var x := Indexed(s1, MetaAt(s, g, n), files[n].idx, files[n].dat);
            x.Valid() && Extendable(x, newSize, data, index)
  {
    hide *;
    AllocatedStores(s, s1, g, data + index);
    IndexedUnderBitmap(s, s1, g, files, n);
    ShapeParts(s1, g, n, files[n]);
    forall id | id in data + index
      ensures id !in OwnedIds(files) && id != 0 && id in s
    {
      FreshIds(s, s1, g, files, data + index, id);
    }
    ExtendableIntro(Indexed(s1, MetaAt(s, g, n), files[n].idx, files[n].dat), files, n, newSize, data, index);
  }

  /** The store after a resize that ends with the inode's own block. */
  function WithMeta(s: Store, g: Geometry, n: nat, m: Meta): Store {
    s[InodeBlock(g, n) := Inode(m)]
  }

  /** A rebuilt index, once the inode is stored, is a well-shaped file. */
  lemma StoredShape(y: Indexed, g: Geometry, n: nat, f: FileRec)
    requires y.Valid() && f.idx == y.idx && f.dat == y.dat && InDataArea(g, f.Owned())
    requires y.meta.kind == f.kind && y.meta.name == f.name
    requires InodeBlock(g, n) in y.store && InodeBlock(g, n) < DataStart(g)
    ensures ShapeOk(WithMeta(y.store, g, n, y.meta), g, n, f)
  {
    var s' := WithMeta(y.store, g, n, y.meta);
    forall id | id in y.idx
      ensures id in y.store && s'[id] == y.store[id]
    {
      assert id in f.Owned();
      assert id in Elements(y.Owned());
    }
    BuiltFrame(y.store, s', y.meta, y.idx, y.dat);
    assert Indexed(s', y.meta, y.idx, y.dat).Owned() == y.Owned();
    assert s'.Keys == y.store.Keys;
  }

  /** Nothing but the bitmap, the inode and the new index blocks changes. */
  lemma StoredTouches(s: Store, s1: Store, y: Indexed, g: Geometry, n: nat, f: FileRec)
    requires OnlyBitmap(s, s1, g) && OnlyTouches(s1, y.store, y.idx) && f.idx == y.idx
    requires InodeBlock(g, n) in s && InodeBlock(g, n) < DataBitmapStart(g) && InDataArea(g, f.Owned())
    ensures ResizeTouches(s, WithMeta(y.store, g, n, y.meta), g, n, f)
    ensures var s' := WithMeta(y.store, g, n, y.meta);
            IsBitmap(s', DataBitmapStart(g), g.dataBitmapBlocks) && DataBits(s', g) == DataBits(s1, g)
  {
    var s' := WithMeta(y.store, g, n, y.meta);
    assert forall id :: id in y.idx ==> id in f.Owned();
    assert s'.Keys == s.Keys;
    forall id | DataBitmapStart(g) <= id < DataStart(g)
      ensures id in s' && s'[id] == s1[id]
    {
      assert id in s1 && id !in y.idx;
    }
    BitsFrame(s1, s', DataBitmapStart(g), g.dataBitmapBlocks);
  }

  lemma MirrorGrow(bits: set<nat>, bits': set<nat>, ids: set<nat>, ids': set<nat>, base: nat, added: seq<nat>)
    requires Mirrors(bits, ids, base)
    requires forall id :: id in added ==> id >= base
    requires forall b: nat :: b in bits' <==> b in bits || b + base in added
    requires ids' == ids + Elements(added)
    ensures Mirrors(bits', ids', base)
  {
    forall id | id in ids'
      ensures id >= base && id - base in bits'
    {
      if id in added { assert id - base + base in added; }
    }
    forall b | b in bits'
      ensures b + base in ids'
    {
    }
  }

  lemma MirrorCut(bits: set<nat>, bits': set<nat>, ids: set<nat>, ids': set<nat>, base: nat, freed: seq<nat>)
    requires Mirrors(bits, ids, base)
    requires forall b: nat :: b in bits' <==> b in bits && b + base !in freed
    requires ids' == ids - Elements(freed)
    ensures Mirrors(bits', ids', base)
  {
    forall id | id in ids'
      ensures id >= base && id - base in bits'
    {
      assert id - base in bits && id - base + base == id;
    }
  }

  lemma MirrorOf(s: Store, g: Geometry, files: Files)
    requires MapsOk(s, g, files)
    ensures IsBitmap(s, DataBitmapStart(g), g.dataBitmapBlocks)
    ensures Mirrors(DataBits(s, g), OwnedIds(files), DataStart(g))
  {
  }

  /** Owned blocks after `extend`: the old ones and the new ones. */
  lemma OwnedAfterGrow(files: Files, n: nat, f: FileRec, added: seq<nat>)
    requires NoSharing(files) && n in files
    requires multiset(f.Owned()) == multiset(files[n].Owned()) + multiset(added)
    requires forall id :: id in added ==> id !in OwnedIds(files)
    ensures OwnedIds(files[n := f]) == OwnedIds(files) + Elements(added)
    ensures Claims(files, n, f)
  {
    ElementsOfMultiset(f.Owned(), files[n].Owned() + added);
    assert forall id :: id in f.Owned() <==> id in Elements(files[n].Owned() + added);
    OwnedAfter(files, n, f);
    assert Elements(files[n].Owned()) <= OwnedIds(files);
    assert Elements(files[n].Owned() + added) == Elements(files[n].Owned()) + Elements(added);
  }

  /** Owned blocks after `shrink`: the old ones without those returned. */
  lemma OwnedAfterCut(files: Files, n: nat, f: FileRec, freed: seq<nat>)
    requires NoSharing(files) && n in files && Distinct(files[n].Owned())
    requires multiset(f.Owned()) + multiset(freed) == multiset(files[n].Owned())
    ensures OwnedIds(files[n := f]) == OwnedIds(files) - Elements(freed)
    ensures Claims(files, n, f)
  {
    DistinctPart(files[n].Owned(), f.Owned(), freed);
    assert forall id :: id in f.Owned() ==> id in Elements(f.Owned());
    assert forall id :: id in Elements(files[n].Owned()) ==> id in files[n].Owned();
    OwnedAfter(files, n, f);
    assert Elements(files[n].Owned()) <= OwnedIds(files);
  }

  lemma ShapeAt(s: Store, g: Geometry, files: Files, n: nat)
    requires ShapesOk(s, g, files) && n in files
    ensures HasInode(s, g, n) && MetaAt(s, g, n).kind == files[n].kind && MetaAt(s, g, n).name == files[n].name
    ensures InDataArea(g, files[n].Owned()) && Distinct(files[n].Owned())
    ensures Indexed(s, MetaAt(s, g, n), files[n].idx, files[n].dat).Valid()
    ensures NoSharing(files)
  {
    assert ShapeOk(s, g, n, files[n]);
    assert Indexed(s, MetaAt(s, g, n), files[n].idx, files[n].dat).Owned() == files[n].Owned();
    hide ShapeOk, Built, NoSharing;
  }

  lemma MetaStored(s: Store, g: Geometry, n: nat, m: Meta)
    ensures HasInode(WithMeta(s, g, n, m), g, n) && MetaAt(WithMeta(s, g, n, m), g, n) == m
  {
  }

  lemma StoresAgree(s: Store, s1: Store, y: Indexed, g: Geometry, n: nat)
    requires OnlyBitmap(s, s1, g) || s1 == s
    requires OnlyTouches(s1, y.store, y.idx) && InodeBlock(g, n) in s && InodeBlock(g, n) < DataBitmapStart(g)
    ensures InodeBlock(g, n) in y.store && InodeBlock(g, n) < DataStart(g)
  {
  }

  lemma DataBitsAre(s: Store, g: Geometry)
    requires IsBitmap(s, DataBitmapStart(g), g.dataBitmapBlocks)
    ensures DataBits(s, g) == Bits(s, DataBitmapStart(g), g.dataBitmapBlocks)
  {
  }

  lemma AllocatedParts(s: Store, s1: Store, g: Geometry, ids: seq<nat>)
    requires Allocated(s, s1, g, ids)
    ensures OnlyBitmap(s, s1, g)
    ensures IsBitmap(s, DataBitmapStart(g), g.dataBitmapBlocks) && IsBitmap(s1, DataBitmapStart(g), g.dataBitmapBlocks)
    ensures forall id :: id in ids ==> id >= DataStart(g)
    ensures forall b: nat :: b in DataBits(s1, g) <==> b in DataBits(s, g) || b + DataStart(g) in ids
  {
    hide IsBitmap, DataBits, Distinct;
  }

  lemma AllInArea(g: Geometry, a: seq<nat>, b: seq<nat>, c: seq<nat>)
    requires InDataArea(g, a) && InDataArea(g, b) && multiset(c) == multiset(a) + multiset(b)
    ensures InDataArea(g, c)
  {
    SameMembers(c, multiset(a + b));
    SameMembers(a + b, multiset(a + b));
    assert forall id :: id in a + b ==> id in a || id in b;
  }

  lemma GrowOwned(s: Store, s1: Store, g: Geometry, files: Files, n: nat, x: Indexed, y: Indexed, added: seq<nat>)
    requires MapsOk(s, g, files) && ShapesOk(s, g, files) && n in files && Allocated(s, s1, g, added)
    requires x.idx == files[n].idx && x.dat == files[n].dat
    requires multiset(y.Owned()) == multiset(x.Owned()) + multiset(added)
    ensures var f := files[n].(idx := y.idx, dat := y.dat);
            && OwnedIds(files[n := f]) == OwnedIds(files) + Elements(added)
            && Claims(files, n, f) && InDataArea(g, f.Owned())
    ensures OnlyBitmap(s, s1, g)
  {
    var f := files[n].(idx := y.idx, dat := y.dat);
    assert f.Owned() == y.Owned() && files[n].Owned() == x.Owned();
    hide MapsOk, ShapesOk, NoSharing, OwnedIds, Claims, Indexed.Valid, MetaAt, HasInode;
    ShapeAt(s, g, files, n);
    forall id | id in added
      ensures id !in OwnedIds(files)
    {
      FreshIds(s, s1, g, files, added, id);
    }
    OwnedAfterGrow(files, n, f, added);
    AllInArea(g, files[n].Owned(), added, f.Owned());
  }

  /** The whole of a growing resize: allocation, `extend` and the inode's own block. */
  lemma GrowStep(s: Store, s1: Store, g: Geometry, files: Files, n: nat, newSize: nat, data: seq<nat>, index: seq<nat>)
    requires MapsOk(s, g, files) && ShapesOk(s, g, files) && n in files
    requires Allocated(s, s1, g, data + index)
    requires HasInode(s, g, n) && MetaAt(s, g, n).size <= newSize <= L4_MAX
    requires |data| == DataDelta(MetaAt(s, g, n).size, newSize) && |index| == IndexDelta(MetaAt(s, g, n).size, newSize)
    ensures var x := Indexed(s1, MetaAt(s, g, n), files[n].idx, files[n].dat);
            x.Valid() && Extendable(x, newSize, data, index) && Readable(x.store, x.meta)
    ensures var y := Extend(Indexed(s1, MetaAt(s, g, n), files[n].idx, files[n].dat), newSize, data, index);
            var f := files[n].(idx := y.idx, dat := y.dat);
            var s' := WithMeta(y.store, g, n, y.meta);
            && MapsOk(s', g, files[n := f]) && ShapesOk(s', g, files[n := f])
            && HasInode(s', g, n) && MetaAt(s', g, n) == y.meta && y.meta.size == newSize
            && (forall m :: m in files && m != n && ContentOk(s, g, m, files[m]) ==> ContentOk(s', g, m, files[m]))
  {
    hide *;
    CanExtend(s, s1, g, files, n, newSize, data, index);
    var x := Indexed(s1, MetaAt(s, g, n), files[n].idx, files[n].dat);
    ExtendKeeps(x, newSize, data, index);
    var y := Extend(x, newSize, data, index);
    var f := files[n].(idx := y.idx, dat := y.dat);
    var s' := WithMeta(y.store, g, n, y.meta);
    GrowOwned(s, s1, g, files, n, x, y, data + index);
    InodeInArea(s, g, files, n);
    ShapeAt(s, g, files, n);
    StoresAgree(s, s1, y, g, n);
    StoredShape(y, g, n, f);
    StoredTouches(s, s1, y, g, n, f);
    AllocatedParts(s, s1, g, data + index);
    MirrorOf(s, g, files);
    MirrorGrow(DataBits(s, g), DataBits(s', g), OwnedIds(files), OwnedIds(files[n := f]), DataStart(g), data + index);
    DataBitsAre(s', g);
    ResizeKeeps(s, s', g, files, n, f);
    MetaStored(y.store, g, n, y.meta);
  }

  lemma IndexInStore(s: Store, y: Indexed)
    requires y.Valid() && OnlyTouches(s, y.store, y.idx)
    ensures Elements(y.idx) <= s.Keys
  {
    assert Elements(y.idx) <= Elements(y.Owned());
  }

  lemma CutOwned(g: Geometry, files: Files, n: nat, x: Indexed, y: Indexed, freed: seq<nat>)
    requires NoSharing(files) && n in files && Distinct(files[n].Owned()) && InDataArea(g, files[n].Owned())
    requires x.idx == files[n].idx && x.dat == files[n].dat
    requires multiset(y.Owned()) + multiset(freed) == multiset(x.Owned())
    ensures var f := files[n].(idx := y.idx, dat := y.dat);
            && OwnedIds(files[n := f]) == OwnedIds(files) - Elements(freed)
            && Claims(files, n, f) && InDataArea(g, f.Owned())
  {
    var f := files[n].(idx := y.idx, dat := y.dat);
    assert f.Owned() == y.Owned() && files[n].Owned() == x.Owned();
    OwnedAfterCut(files, n, f, freed);
    DistinctPart(files[n].Owned(), f.Owned(), freed);
    assert forall id :: id in f.Owned() ==> id in Elements(f.Owned());
    assert forall id :: id in Elements(files[n].Owned()) ==> id in files[n].Owned();
    hide NoSharing, OwnedIds, Claims, Distinct;
  }

  lemma CutBits(s: Store, s2: Store, g: Geometry, n: nat, y: Indexed, f: FileRec, freed: seq<nat>)
    requires OnlyTouches(s, y.store, y.idx) && Released(y.store, s2, g, freed) && Elements(y.idx) <= s.Keys
    requires f.idx == y.idx && InDataArea(g, f.Owned())
    requires InodeBlock(g, n) in s && InodeBlock(g, n) < DataBitmapStart(g)
    requires IsBitmap(s, DataBitmapStart(g), g.dataBitmapBlocks)
    ensures var s' := WithMeta(s2, g, n, y.meta);
            && ResizeTouches(s, s', g, n, f)
            && IsBitmap(s', DataBitmapStart(g), g.dataBitmapBlocks)
            && (forall b: nat :: b in DataBits(s', g) <==> b in DataBits(s, g) && b + DataStart(g) !in freed)
    ensures s2.Keys == y.store.Keys && forall id :: id in y.idx ==> id in y.store && s2[id] == y.store[id]
  {
    var s' := WithMeta(s2, g, n, y.meta);
    assert forall id :: id in f.idx ==> id in f.Owned() && id in Elements(y.idx);
    assert s'.Keys == s.Keys;
    hide Bits;
    BitsFrame(s, y.store, DataBitmapStart(g), g.dataBitmapBlocks);
    BitsFrame(s2, s', DataBitmapStart(g), g.dataBitmapBlocks);
    assert DataBits(y.store, g) == DataBits(s, g) && DataBits(s', g) == DataBits(s2, g);
  }

  lemma CutStore(s: Store, s2: Store, g: Geometry, n: nat, y: Indexed, f: FileRec, freed: seq<nat>)
    requires y.Valid() && OnlyTouches(s, y.store, y.idx) && Released(y.store, s2, g, freed) && Elements(y.idx) <= s.Keys
    requires f.idx == y.idx && f.dat == y.dat && InDataArea(g, f.Owned())
    requires y.meta.kind == f.kind && y.meta.name == f.name
    requires InodeBlock(g, n) in s && InodeBlock(g, n) < DataBitmapStart(g)
    requires IsBitmap(s, DataBitmapStart(g), g.dataBitmapBlocks)
    ensures var s' := WithMeta(s2, g, n, y.meta);
            && ResizeTouches(s, s', g, n, f) && ShapeOk(s', g, n, f)
            && IsBitmap(s', DataBitmapStart(g), g.dataBitmapBlocks)
            && (forall b: nat :: b in DataBits(s', g) <==> b in DataBits(s, g) && b + DataStart(g) !in freed)
  {
    CutBits(s, s2, g, n, y, f, freed);
    hide IsBitmap, DataBits, InBitmaps;
    var z := Indexed(s2, y.meta, y.idx, y.dat);
    BuiltFrame(y.store, s2, y.meta, y.idx, y.dat);
    assert z.Owned() == y.Owned();
    hide Built, Distinct;
    StoredShape(z, g, n, f);
  }

  /** The whole of a shrinking resize: `shrink`, the release of the ids it returned, the inode's own block. */
  lemma CutStep(s: Store, s2: Store, g: Geometry, files: Files, n: nat, newSize: nat)
    requires MapsOk(s, g, files) && ShapesOk(s, g, files) && n in files
    requires HasInode(s, g, n) && newSize <= MetaAt(s, g, n).size
    requires var x := Indexed(s, MetaAt(s, g, n), files[n].idx, files[n].dat);
             x.Valid() && Shrinkable(x, newSize) &&
             Released(Shrink(x, newSize).after.store, s2, g,
                      Shrink(x, newSize).freed.index + Shrink(x, newSize).freed.data)
    ensures var y := Shrink(Indexed(s, MetaAt(s, g, n), files[n].idx, files[n].dat), newSize).after;
            var f := files[n].(idx := y.idx, dat := y.dat);
            var s' := WithMeta(s2, g, n, y.meta);
            && MapsOk(s', g, files[n := f]) && ShapesOk(s', g, files[n := f])
            && HasInode(s', g, n) && MetaAt(s', g, n) == y.meta && y.meta.size == newSize
            && (forall m :: m in files && m != n && ContentOk(s, g, m, files[m]) ==> ContentOk(s', g, m, files[m]))
  {
    hide *;
    var x := Indexed(s, MetaAt(s, g, n), files[n].idx, files[n].dat);
    ShrinkKeeps(x, newSize);
    var r := Shrink(x, newSize);
    var y, freed := r.after, r.freed.index + r.freed.data;
    var f := files[n].(idx := y.idx, dat := y.dat);
    var s' := WithMeta(s2, g, n, y.meta);
    ShapeAt(s, g, files, n);
    CutOwned(g, files, n, x, y, freed);
    InodeInArea(s, g, files, n);
    MirrorOf(s, g, files);
    IndexInStore(s, y);
    CutStore(s, s2, g, n, y, f, freed);
    MirrorCut(DataBits(s, g), DataBits(s', g), OwnedIds(files), OwnedIds(files[n := f]), DataStart(g), freed);
    DataBitsAre(s', g);
    ResizeKeeps(s, s', g, files, n, f);
    MetaStored(s2, g, n, y.meta);
  }

  // ---------------------------------------------------------------------------
  // Creating
  // ---------------------------------------------------------------------------

  /** A new file: no bytes, no blocks. */
  function NewFile(kind: InodeType, name: seq<byte>): FileRec {
    FileRec(kind, name, [], [], [])
  }

  /** The store after `alloc_inode_meta`. */
  ghost function Created(s: Store, g: Geometry, n: nat, kind: InodeType, name: seq<byte>): Store
    requires IsBitmap(s, InodeBitmapStart(), g.inodeBitmapBlocks) && n < InodeCount(g)
  {
    WithMeta(BitSet(s, InodeBitmapStart(), g.inodeBitmapBlocks, n), g, n, FreshMeta(kind, name))
  }

  /** Only the inode bitmap and the new inode's block change. */
  lemma CreatedTouches(s: Store, g: Geometry, n: nat, kind: InodeType, name: seq<byte>)
    requires GeometryOk(g) && forall id: nat :: id in s <==> id < g.totalBlocks
    requires IsBitmap(s, InodeBitmapStart(), g.inodeBitmapBlocks) && n < InodeCount(g)
    requires n !in Bits(s, InodeBitmapStart(), g.inodeBitmapBlocks)
    ensures var s' := Created(s, g, n, kind, name);
            && s'.Keys == s.Keys
            && (forall id :: id in s && (id == 0 || id >= InodeStart(g)) && id != InodeStart(g) + n ==> s'[id] == s[id])
            && s'[InodeBlock(g, n)] == Inode(FreshMeta(kind, name)) && InodeBlock(g, n) == InodeStart(g) + n
            && IsBitmap(s', InodeBitmapStart(), g.inodeBitmapBlocks)
            && Bits(s', InodeBitmapStart(), g.inodeBitmapBlocks) ==
               Bits(s, InodeBitmapStart(), g.inodeBitmapBlocks) + {n}
  {
    var s1, s' := BitSet(s, InodeBitmapStart(), g.inodeBitmapBlocks, n), Created(s, g, n, kind, name);
    Decompose(n);
    SetBitOf(s, InodeBitmapStart(), g.inodeBitmapBlocks, n);
    hide Bits;
    assert BlockOf(n) < g.inodeBitmapBlocks;
    BitsFrame(s1, s', InodeBitmapStart(), g.inodeBitmapBlocks);
  }

  lemma CreateKeepsFile(s: Store, s': Store, g: Geometry, files: Files, n: nat, m: nat)
    requires FsOk(s, g, files) && m in files && m != n && s'.Keys == s.Keys
    requires forall id :: id in s && (id == 0 || id >= InodeStart(g)) && id != InodeStart(g) + n ==> s'[id] == s[id]
    requires n < InodeCount(g)
    ensures ShapeOk(s', g, m, files[m]) && ContentOk(s', g, m, files[m])
  {
    InodeInArea(s, g, files, m);
    assert ContentOk(s, g, m, files[m]) && ShapeOk(s, g, m, files[m]);
    forall id | id in files[m].Owned()
      ensures id in s && s'[id] == s[id]
    {
      Apart(s, g, files, m, id);
    }
    assert forall id :: id in files[m].idx || id in files[m].dat ==> id in files[m].Owned();
    assert s'[InodeBlock(g, m)] == s[InodeBlock(g, m)];
    hide *;
    ShapeFrame(s, s', g, m, files[m]);
    ContentFrame(s, s', g, m, files[m]);
  }

  lemma FsParts(s: Store, g: Geometry, files: Files)
    requires FsOk(s, g, files)
    ensures MapsOk(s, g, files) && ShapesOk(s, g, files) && ContentsOk(s, g, files)
  {
  }

  lemma LowParts(s: Store, g: Geometry, files: Files)
    requires FsOk(s, g, files)
    ensures GeometryOk(g) && forall id: nat :: id in s <==> id < g.totalBlocks
    ensures IsBitmap(s, InodeBitmapStart(), g.inodeBitmapBlocks)
    ensures Bits(s, InodeBitmapStart(), g.inodeBitmapBlocks) == files.Keys
  {
  }

  lemma NewFileOk(s: Store, g: Geometry, n: nat, kind: InodeType, name: seq<byte>)
    requires InodeBlock(g, n) in s && s[InodeBlock(g, n)] == Inode(FreshMeta(kind, name))
    ensures ShapeOk(s, g, n, NewFile(kind, name)) && ContentOk(s, g, n, NewFile(kind, name))
  {
    FreshIsValid(s, kind, name);
  }

  lemma NewOwnsNothing(files: Files, n: nat, f: FileRec, kind: InodeType, name: seq<byte>)
    requires NoSharing(files) && n !in files && f == NewFile(kind, name)
    ensures NoSharing(files[n := f]) && OwnedIds(files[n := f]) == OwnedIds(files)
  {
    assert f.Owned() == [];
    SharingAfter(files, n, f);
    OwnedAfter(files, n, f);
  }

  lemma CreateKeepsMaps(s: Store, s': Store, g: Geometry, files: Files, n: nat, f: FileRec)
    requires MapsOk(s, g, files) && s'.Keys == s.Keys && n < InodeCount(g)
    requires forall id :: id in s && (id == 0 || id >= InodeStart(g)) && id != InodeStart(g) + n ==> s'[id] == s[id]
    requires IsBitmap(s', InodeBitmapStart(), g.inodeBitmapBlocks)
    requires Bits(s', InodeBitmapStart(), g.inodeBitmapBlocks) == files.Keys + {n}
    requires OwnedIds(files[n := f]) == OwnedIds(files)
    ensures MapsOk(s', g, files[n := f])
  {
    hide Bits, OwnedIds, Mirrors;
    BitsFrame(s, s', DataBitmapStart(g), g.dataBitmapBlocks);
    assert files[n := f].Keys == files.Keys + {n};
  }

  /** Creating an inode adds an empty file under a number that was free and keeps every other file. */
  lemma CreateKeeps(s: Store, g: Geometry, files: Files, n: nat, kind: InodeType, name: seq<byte>)
    requires FsOk(s, g, files) && n !in files && n < InodeCount(g)
    ensures IsBitmap(s, InodeBitmapStart(), g.inodeBitmapBlocks)
    ensures FsOk(Created(s, g, n, kind, name), g, files[n := NewFile(kind, name)])
  {
    LowParts(s, g, files);
    hide *;
    var s', f := Created(s, g, n, kind, name), NewFile(kind, name);
    CreatedTouches(s, g, n, kind, name);
    forall m | m in files && m != n
      ensures ShapeOk(s', g, m, files[m]) && ContentOk(s', g, m, files[m])
    {
      CreateKeepsFile(s, s', g, files, n, m);
    }
    NewFileOk(s', g, n, kind, name);
    FsParts(s, g, files);
    SharingPart(s, g, files);
    NewOwnsNothing(files, n, f, kind, name);
    CreateKeepsMaps(s, s', g, files, n, f);
    AssembleShapes(s', g, files, n, f);
    AssembleContents(s', g, files, n, f);
    FsIntro(s', g, files[n := f]);
  }

  lemma {:induction false} ZeroHasNoBit(k: nat)
    ensures !Bit(0, k)
  {
    if k == 0 {
    } else {
      ZeroHasNoBit(k - 1);
    }
  }

  lemma BlankBits(s: Store, start: nat, n: nat)
    requires forall id :: start <= id < start + n ==> id in s && s[id] == Zeroed
    ensures IsBitmap(s, start, n) && Bits(s, start, n) == {}
  {
    forall b | 0 <= b < n * BLOCK_BITS
      ensures !BitAt(s, start, n, b)
    {
      Decompose(b);
      ZeroHasNoBit(PosOf(b));
    }
  }

  /** A device that holds a super block and zeros is a file system without files. */
  lemma BlankIsOk(s: Store, g: Geometry)
    requires GeometryOk(g) && g.totalBlocks > 0 && (forall id: nat :: id in s <==> id < g.totalBlocks)
    requires s[0] == Super(true, g) && forall id :: id in s && id > 0 ==> s[id] == Zeroed
    ensures FsOk(s, g, map[])
  {
    BlankBits(s, InodeBitmapStart(), g.inodeBitmapBlocks);
    BlankBits(s, DataBitmapStart(g), g.dataBitmapBlocks);
    hide Bits;
    assert OwnedIds(map[]) == {};
  }

  // ---------------------------------------------------------------------------
  // Counting
  // ---------------------------------------------------------------------------

  /** As many bits are set as blocks are owned. */
  lemma {:induction false} MirrorCount(bits: set<nat>, ids: set<nat>, base: nat)
    requires Mirrors(bits, ids, base)
    ensures |bits| == |ids|
    decreases bits
  {
    if bits == {} {
      assert ids == {};
    } else {
      var b :| b in bits;
      var bits', ids' := bits - {b}, ids - {b + base};
      assert b + base in ids;
      forall id | id in ids'
        ensures id >= base && id - base in bits'
      {
        assert id - base in bits && id - base != b;
      }
      assert Mirrors(bits', ids', base);
      MirrorCount(bits', ids', base);
    }
  }
}
