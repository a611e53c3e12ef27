/**
 * The shrinking branch of `write` as coded: it hands the freed block ids to `Bitmap::dealloc`, which takes bit
 * numbers counted from the start of the data area and edits whatever block it computes from them.
 */
module CodedShrink {
  import opened Prelude
  import opened Layout
  import opened Sequences
  import opened Cache
  import opened IndexTree
  import opened IndexBuild
  import opened Bitmap
  import opened MetaOps
  import opened FileSystem
  import opened FsOps
  import opened Directory
  import opened Cafs

  // ---------------------------------------------------------------------------
  // Bitmap::dealloc with a block id for a bit number
  // ---------------------------------------------------------------------------

  /** The block that `dealloc` takes for the one that holds bit `id`. */
  function Target(g: Geometry, id: nat): nat {
    DataBitmapStart(g) + BlockOf(id)
  }

  /** Word `w` of a block, of whatever kind; super block and inodes lie below every target. */
  function WordAt(b: Block, w: nat): nat
    requires w < WORDS
  {
    match b
    case Words(ws) => if |ws| == WORDS then ws[w] else 0
    case Data(bytes) => if |bytes| == BLOCK_SIZE then FromLeBytes(bytes[8 * w..8 * w + 8]) else 0
    case Index(entries, level) => if |entries| != INDIRECT_LEN then 0 else if w < INDIRECT_LEN then entries[w] else Height(level) - 1
    case _ => 0
  }

  /** The block after word `w` was lowered to `v`. */
  function Lowered(b: Block, w: nat, v: nat): Block
    requires w < WORDS && v < WordAt(b, w)
  {
    match b
    case Words(ws) => Words(ws[w := v])
    case Data(bytes) => Data(bytes[..8 * w] + LeBytes(v, 8) + bytes[8 * w + 8..])
    case Index(entries, level) => if w < INDIRECT_LEN then Index(entries[w := v], level) else Index(entries, TypeAt(v + 1))
    case _ => b
  }

  /** The assertion of `dealloc` holds, on a block of the device. */
  ghost predicate CodedOk(s: Store, g: Geometry, id: nat) {
    Decompose(id);
    Target(g, id) in s && Bit(WordAt(s[Target(g, id)], WordOf(id)), PosOf(id))
  }

  /** What `dealloc` then leaves. */
  ghost function CodedDealloc(s: Store, g: Geometry, id: nat): Store
    requires CodedOk(s, g, id)
  {
    Decompose(id);
    var t := Target(g, id);
    var w := WordAt(s[t], WordOf(id));
    SubBit(w, PosOf(id), 0);
    s[t := Lowered(s[t], WordOf(id), w - Pow2(PosOf(id)))]
  }

  /** The loop over the freed ids; None where one of the calls panics. */
  ghost function CodedRelease(s: Store, g: Geometry, ids: seq<nat>): Option<Store> {
    if ids == [] then Some(s) else
      var n := |ids| - 1;
      match CodedRelease(s, g, ids[..n])
      case None => None
      case Some(s1) => if CodedOk(s1, g, ids[n]) then Some(CodedDealloc(s1, g, ids[n])) else None
  }

  /** An id that happens to be a bit number: that bit is cleared, and must be set. */
  lemma WithinBitmap(s: Store, g: Geometry, id: nat)
    requires IsBitmap(s, DataBitmapStart(g), g.dataBitmapBlocks) && id < DataCount(g)
    ensures CodedOk(s, g, id) <==> id in DataBits(s, g)
    ensures CodedOk(s, g, id) ==> CodedDealloc(s, g, id) == BitCleared(s, DataBitmapStart(g), g.dataBitmapBlocks, id)
  {
    Decompose(id);
    assert BlockOf(id) < g.dataBitmapBlocks;
    ZeroHasNoBit(PosOf(id));
    assert IsWords(s[Target(g, id)]);
  }

  lemma {:induction false} PowIsPositive(k: nat)
    ensures Pow2(k) > 0
  {
    if k == 0 {
    } else {
      PowIsPositive(k - 1);
    }
  }

  /** `b'` is `b` with some of its words lowered, at least one. */
  ghost predicate Lower(b: Block, b': Block) {
    && (forall w :: 0 <= w < WORDS ==> WordAt(b', w) <= WordAt(b, w))
    && exists w :: 0 <= w < WORDS && WordAt(b', w) < WordAt(b, w)
  }

  lemma LowerTwice(a: Block, b: Block, c: Block)
    requires Lower(a, b) && Lower(b, c)
    ensures Lower(a, c)
  {
    hide WordAt;
    var w :| 0 <= w < WORDS && WordAt(b, w) < WordAt(a, w);
    assert WordAt(c, w) < WordAt(a, w);
  }

  lemma LowerDiffers(b: Block, b': Block)
    requires Lower(b, b')
    ensures b' != b
  {
  }

  lemma LoweredBytes(bytes: seq<byte>, w: nat, v: nat, j: nat)
    requires |bytes| == BLOCK_SIZE && w < WORDS && j < WORDS && v < WordAt(Data(bytes), w)
    ensures WordAt(Lowered(Data(bytes), w, v), j) == if j == w then v else WordAt(Data(bytes), j)
  {
    LowBytes(bytes[8 * w..8 * w + 8]);
    LeBytesRoundTrip(v, 8);
    var bytes' := bytes[..8 * w] + LeBytes(v, 8) + bytes[8 * w + 8..];
    hide FromLeBytes, LeBytes;
    if j == w {
      assert bytes'[8 * w..8 * w + 8] == LeBytes(v, 8);
    } else {
      assert bytes'[8 * j..8 * j + 8] == bytes[8 * j..8 * j + 8];
    }
  }

  /** Lowering one word lowers that word and keeps the others. */
  lemma LoweredWord(b: Block, w: nat, v: nat, j: nat)
    requires w < WORDS && j < WORDS && v < WordAt(b, w)
    ensures WordAt(Lowered(b, w, v), j) == if j == w then v else WordAt(b, j)
  {
    if b.Data? {
      LoweredBytes(b.bytes, w, v, j);
    }
    hide FromLeBytes, LeBytes;
  }

  lemma ClearedLower(b: Block, w: nat, k: nat)
    requires w < WORDS && Bit(WordAt(b, w), k)
    ensures WordAt(b, w) >= Pow2(k) && Lower(b, Lowered(b, w, WordAt(b, w) - Pow2(k)))
  {
    hide WordAt, Lowered, Bit;
    SubBit(WordAt(b, w), k, 0);
    PowIsPositive(k);
    var b' := Lowered(b, w, WordAt(b, w) - Pow2(k));
    forall j | 0 <= j < WORDS
      ensures WordAt(b', j) <= WordAt(b, j) && (j == w ==> WordAt(b', j) < WordAt(b, j))
    {
      LoweredWord(b, w, WordAt(b, w) - Pow2(k), j);
    }
  }

  lemma OneLowers(s: Store, g: Geometry, id: nat)
    requires CodedOk(s, g, id)
    ensures var s' := CodedDealloc(s, g, id);
            && s'.Keys == s.Keys && Lower(s[Target(g, id)], s'[Target(g, id)])
            && forall t :: t in s && t != Target(g, id) ==> s'[t] == s[t]
  {
    hide Lowered, WordAt, Lower, Bit, Target, WordOf, PosOf, BlockOf, Pow2;
    Decompose(id);
    ClearedLower(s[Target(g, id)], WordOf(id), PosOf(id));
  }

  lemma PastTarget(g: Geometry, id: nat)
    requires id >= DataCount(g)
    ensures Target(g, id) >= DataStart(g)
  {
    Decompose(id);
    assert BlockOf(id) >= g.dataBitmapBlocks;
  }

  /** Any other id: one block of the data area is edited, and the bitmap is left alone. */
  lemma PastBitmap(s: Store, g: Geometry, id: nat)
    requires IsBitmap(s, DataBitmapStart(g), g.dataBitmapBlocks) && id >= DataCount(g)
    ensures Target(g, id) >= DataStart(g)
    ensures CodedOk(s, g, id) ==>
              var s' := CodedDealloc(s, g, id);
              && OnlyTouches(s, s', [Target(g, id)]) && s'[Target(g, id)] != s[Target(g, id)]
              && IsBitmap(s', DataBitmapStart(g), g.dataBitmapBlocks) && DataBits(s', g) == DataBits(s, g)
  {
    PastTarget(g, id);
    if CodedOk(s, g, id) {
      var s' := CodedDealloc(s, g, id);
      hide CodedOk, CodedDealloc, Lower, Bits, Target;
      OneLowers(s, g, id);
      LowerDiffers(s[Target(g, id)], s'[Target(g, id)]);
      BitsFrame(s, s', DataBitmapStart(g), g.dataBitmapBlocks);
    }
  }

  /** What clearing bits of these numbers, and no others, can leave of a bitmap. */
  ghost predicate ClearsOnly(bits: set<nat>, bits': set<nat>, numbers: seq<nat>) {
    bits' <= bits && forall b :: b in bits && b !in numbers ==> b in bits'
  }

  lemma {:induction false} LeastOf(s: set<nat>) returns (least: nat)
    requires s != {}
    ensures least in s && forall x :: x in s ==> least <= x
    decreases s
  {
    var x :| x in s;
    if s == {x} {
      least := x;
    } else {
      var m := LeastOf(s - {x});
      least := if m < x then m else x;
      assert forall y :: y in s ==> y == x || y in s - {x};
    }
  }

  /**
   * `write` hands the freed block ids to `dealloc`, which takes bit numbers, counted from the start of the
   * data area. Whatever those calls clear, the bitmap mirrors the remaining owners if and only if nothing
   * was freed: the bit of the lowest freed block is never among the bits named.
   */
  lemma ReleaseAsCoded(bits: set<nat>, bits': set<nat>, owned: set<nat>, base: nat, freed: seq<nat>)
    requires base > 0 && Mirrors(bits, owned, base) && Elements(freed) <= owned
    requires ClearsOnly(bits, bits', freed)
    ensures Mirrors(bits', owned - Elements(freed), base) <==> freed == []
  {
    if freed == [] {
      assert bits' == bits;
      assert owned - Elements(freed) == owned;
    } else {
      assert freed[0] in Elements(freed);
      var least := LeastOf(Elements(freed));
      var b := least - base;
      assert b in freed ==> b in Elements(freed);
      assert b in bits && b !in freed;
      assert b in bits' && b + base !in owned - Elements(freed);
    }
  }

  /** The condition a caller can check: a shrinking write frees blocks exactly when it needs fewer data blocks. */
  lemma ShrinkFrees(x: Indexed, newSize: nat)
    requires x.Valid() && newSize <= x.meta.size
    ensures Shrinkable(x, newSize)
    ensures var freed := Shrink(x, newSize).freed;
            freed.index + freed.data == [] <==> DataBlocks(newSize) == DataBlocks(x.meta.size)
  {
    ShrunkIds(x, newSize);
    hide *;
    if DataBlocks(newSize) == DataBlocks(x.meta.size) {
      NothingFreed(x, newSize);
    } else {
      var freed := Shrink(x, newSize).freed;
      assert |freed.data| == DataDelta(newSize, x.meta.size) > 0;
      assert |freed.index + freed.data| > 0;
    }
  }

  lemma OneClears(s: Store, g: Geometry, id: nat)
    requires IsBitmap(s, DataBitmapStart(g), g.dataBitmapBlocks) && CodedOk(s, g, id)
    ensures var s' := CodedDealloc(s, g, id);
            && s'.Keys == s.Keys && IsBitmap(s', DataBitmapStart(g), g.dataBitmapBlocks)
            && ClearsOnly(DataBits(s, g), DataBits(s', g), [id])
            && (forall b :: b in s && b < DataBitmapStart(g) ==> s'[b] == s[b])
            && (id >= DataCount(g) ==> DataBits(s', g) == DataBits(s, g))
  {
    if id < DataCount(g) {
      WithinBitmap(s, g, id);
      ClearBitOf(s, DataBitmapStart(g), g.dataBitmapBlocks, id);
      Decompose(id);
      assert BlockOf(id) < g.dataBitmapBlocks;
    } else {
      PastBitmap(s, g, id);
    }
  }

  /** The coded loop clears only bits whose numbers are among the ids, and none if all ids are past the bitmap. */
  lemma {:induction false} ReleaseClears(s: Store, g: Geometry, ids: seq<nat>)
    requires IsBitmap(s, DataBitmapStart(g), g.dataBitmapBlocks) && CodedRelease(s, g, ids).Some?
    ensures var s' := CodedRelease(s, g, ids).value;
            && s'.Keys == s.Keys && IsBitmap(s', DataBitmapStart(g), g.dataBitmapBlocks)
            && ClearsOnly(DataBits(s, g), DataBits(s', g), ids)
            && (forall b :: b in s && b < DataBitmapStart(g) ==> s'[b] == s[b])
            && ((forall id :: id in ids ==> id >= DataCount(g)) ==> DataBits(s', g) == DataBits(s, g))
  {
    if ids == [] {
    } else {
      var n := |ids| - 1;
      ReleaseClears(s, g, ids[..n]);
      var s1 := CodedRelease(s, g, ids[..n]).value;
      assert ids[n] in ids;
      hide CodedOk, CodedDealloc, IsBitmap, DataBits;
      OneClears(s1, g, ids[n]);
      assert forall id :: id in ids <==> id in ids[..n] || id == ids[n];
    }
  }

  /** The index of file `n` as the store holds it, and what shrinking it frees, in the order `write` releases it. */
  ghost function IndexOf(s: Store, g: Geometry, files: Files, n: nat): Indexed
    requires HasInode(s, g, n) && n in files
  {
    Indexed(s, MetaAt(s, g, n), files[n].idx, files[n].dat)
  }

  ghost function Freed(x: Indexed, newSize: nat): seq<nat>
    requires Shrinkable(x, newSize)
  {
    Shrink(x, newSize).freed.index + Shrink(x, newSize).freed.data
  }

  ghost function Cut(f: FileRec, y: Indexed): FileRec {
    f.(idx := y.idx, dat := y.dat)
  }

  lemma IndexIs(s: Store, g: Geometry, files: Files, n: nat)
    requires HasInode(s, g, n) && n in files
    ensures IndexOf(s, g, files, n) == Indexed(s, MetaAt(s, g, n), files[n].idx, files[n].dat)
  {
  }

  lemma FreedIs(x: Indexed, newSize: nat)
    requires Shrinkable(x, newSize)
    ensures Freed(x, newSize) == Shrink(x, newSize).freed.index + Shrink(x, newSize).freed.data
  {
  }

  lemma CutIs(f: FileRec, y: Indexed)
    ensures Cut(f, y) == f.(idx := y.idx, dat := y.dat)
  {
  }

  lemma InAreaFrom(g: Geometry, all: seq<nat>, a: seq<nat>, b: seq<nat>)
    requires InDataArea(g, all) && forall id :: id in a || id in b ==> id in all
    ensures forall id :: id in a + b ==> id >= DataStart(g)
  {
  }

  lemma InodeStays(s: Store, s': Store, touched: seq<nat>, g: Geometry, n: nat)
    requires HasInode(s, g, n) && OnlyTouches(s, s', touched)
    ensures InodeBlock(g, n) in s'
  {
  }

  lemma FreedOwned(files: Files, n: nat, y: Indexed, freed: seq<nat>)
    requires n in files && Distinct(files[n].Owned())
    requires multiset(y.Owned()) + multiset(freed) == multiset(files[n].Owned())
    ensures Elements(freed) <= OwnedIds(files)
  {
    DistinctPart(files[n].Owned(), y.Owned(), freed);
    AllOwned(files, n);
    assert forall id :: id in Elements(files[n].Owned()) ==> id in files[n].Owned();
  }

  /** What `shrink` alone leaves: the bitmap untouched, every freed id still owned and set. */
  lemma BeforeRelease(s: Store, g: Geometry, files: Files, n: nat, newSize: nat)
    requires MapsOk(s, g, files) && ShapesOk(s, g, files) && n in files
    requires HasInode(s, g, n) && newSize <= MetaAt(s, g, n).size
    ensures IndexOf(s, g, files, n).Valid() && Shrinkable(IndexOf(s, g, files, n), newSize)
    ensures var x := IndexOf(s, g, files, n);
            var y := Shrink(x, newSize).after;
            && IsBitmap(s, DataBitmapStart(g), g.dataBitmapBlocks)
            && IsBitmap(y.store, DataBitmapStart(g), g.dataBitmapBlocks) && DataBits(y.store, g) == DataBits(s, g)
            && Mirrors(DataBits(s, g), OwnedIds(files), DataStart(g))
            && OwnedIds(files[n := Cut(files[n], y)]) == OwnedIds(files) - Elements(Freed(x, newSize))
            && Elements(Freed(x, newSize)) <= OwnedIds(files)
            && (forall id :: id in Freed(x, newSize) ==> id >= DataStart(g))
            && InodeBlock(g, n) in y.store && InodeBlock(g, n) < DataBitmapStart(g)
  {
    hide *;
    ShapeAt(s, g, files, n);
    IndexIs(s, g, files, n);
    var x := IndexOf(s, g, files, n);
    ShrinkKeeps(x, newSize);
    var r := Shrink(x, newSize);
    FreedIs(x, newSize);
    var freed := Freed(x, newSize);
    CutIs(files[n], r.after);
    CutOwned(g, files, n, x, r.after, freed);
    MirrorOf(s, g, files);
    SameOwned(x, files[n]);
    FreedOwned(files, n, r.after, freed);
    FreedParts(files[n].Owned(), r.after, r.freed.index, r.freed.data);
    BitmapKept(s, g, files[n].Owned(), r.after);
    InAreaFrom(g, files[n].Owned(), r.freed.index, r.freed.data);
    InodeInArea(s, g, files, n);
    InodeStays(s, r.after.store, r.after.idx, g, n);
  }

  lemma NoneToRelease(s: Store, g: Geometry)
    ensures CodedRelease(s, g, []) == Some(s)
  {
  }

  lemma MetaOutside(s: Store, g: Geometry, n: nat, m: Meta)
    requires IsBitmap(s, DataBitmapStart(g), g.dataBitmapBlocks) && InodeBlock(g, n) < DataBitmapStart(g)
    ensures IsBitmap(WithMeta(s, g, n, m), DataBitmapStart(g), g.dataBitmapBlocks)
    ensures DataBits(WithMeta(s, g, n, m), g) == DataBits(s, g)
  {
    hide Bits;
    BitsFrame(s, WithMeta(s, g, n, m), DataBitmapStart(g), g.dataBitmapBlocks);
  }

  lemma StartIsPositive(g: Geometry)
    ensures DataStart(g) > 0
  {
  }

  /**
   * A shrinking write as coded that does not panic leaves the bitmap in agreement with the owners if and only if
   * the file keeps its number of data blocks. Where every id misses the bitmap, no bit is cleared at all.
   */
  lemma ShrinkAsCoded(s: Store, g: Geometry, files: Files, n: nat, newSize: nat)
    requires MapsOk(s, g, files) && ShapesOk(s, g, files) && n in files
    requires HasInode(s, g, n) && newSize <= MetaAt(s, g, n).size
    ensures Shrinkable(IndexOf(s, g, files, n), newSize)
    ensures var x := IndexOf(s, g, files, n);
            var y := Shrink(x, newSize).after;
            var released := CodedRelease(y.store, g, Freed(x, newSize));
            && (DataBlocks(newSize) == DataBlocks(x.meta.size) ==> released == Some(y.store))
            && (released.Some? ==>
                  var s' := WithMeta(released.value, g, n, y.meta);
                  && IsBitmap(s, DataBitmapStart(g), g.dataBitmapBlocks) && IsBitmap(s', DataBitmapStart(g), g.dataBitmapBlocks)
                  && (Mirrors(DataBits(s', g), OwnedIds(files[n := Cut(files[n], y)]), DataStart(g)) <==>
                      DataBlocks(newSize) == DataBlocks(x.meta.size))
                  && (DataStart(g) >= DataCount(g) ==> DataBits(s', g) == DataBits(s, g)))
  {
    BeforeRelease(s, g, files, n, newSize);
    hide *;
    var x := IndexOf(s, g, files, n);
    var r := Shrink(x, newSize);
    var freed := Freed(x, newSize);
    FreedIs(x, newSize);
    ShrinkFrees(x, newSize);
    NoneToRelease(r.after.store, g);
    var released := CodedRelease(r.after.store, g, freed);
    if released.Some? {
      ReleaseClears(r.after.store, g, freed);
      MetaOutside(released.value, g, n, r.after.meta);
      StartIsPositive(g);
      ReleaseAsCoded(DataBits(s, g), DataBits(released.value, g), OwnedIds(files), DataStart(g), freed);
    }
  }

  // ---------------------------------------------------------------------------
  // What happens to the other files
  // ---------------------------------------------------------------------------

  /** One of the ids leads `dealloc` to block `t`. */
  ghost predicate Hits(g: Geometry, ids: seq<nat>, t: nat) {
    exists id :: id in ids && Target(g, id) == t
  }

  lemma HitsMore(g: Geometry, ids: seq<nat>, id: nat, t: nat)
    ensures Hits(g, ids + [id], t) <==> Hits(g, ids, t) || Target(g, id) == t
  {
    var all := ids + [id];
    assert id in all && forall i :: i in ids ==> i in all;
    assert forall i :: i in all ==> i in ids || i == id;
    hide Target;
  }

  /** However often a block is hit, the coded loop leaves it lower than it was; it leaves every other block alone. */
  lemma {:induction false} ReleaseLowers(s: Store, g: Geometry, ids: seq<nat>)
    requires CodedRelease(s, g, ids).Some?
    ensures var s' := CodedRelease(s, g, ids).value;
            && s'.Keys == s.Keys
            && forall t :: t in s ==> if Hits(g, ids, t) then Lower(s[t], s'[t]) else s'[t] == s[t]
  {
    if ids == [] {
    } else {
      var n := |ids| - 1;
      ReleaseLowers(s, g, ids[..n]);
      var s1 := CodedRelease(s, g, ids[..n]).value;
      var s' := CodedDealloc(s1, g, ids[n]);
      assert ids[..n] + [ids[n]] == ids;
      hide CodedOk, CodedDealloc, Hits, Lower, Target;
      OneLowers(s1, g, ids[n]);
      forall t | t in s
        ensures if Hits(g, ids, t) then Lower(s[t], s'[t]) else s'[t] == s[t]
      {
        HitsMore(g, ids[..n], ids[n], t);
        if Hits(g, ids[..n], t) && Target(g, ids[n]) == t {
          LowerTwice(s[t], s1[t], s'[t]);
        }
      }
    }
  }

  /** The levels of an index fix the contents of its blocks. */
  lemma {:induction false} LinkedFixes(s: Store, s': Store, l: Levels, id: nat)
    requires Linked(s, l) && Linked(s', l) && id in l.Index()
    ensures id in s && id in s' && s'[id] == s[id]
    decreases l
  {
    if l.Leaf? {
      assert false;
    } else if id in l.ids {
      var j :| 0 <= j < |l.ids| && l.ids[j] == id;
      hide Row;
    } else {
      assert l.Index() == l.ids + l.down.Index();
      LinkedFixes(s, s', l.down, id);
    }
  }

  lemma ShapeFixes(s: Store, s': Store, g: Geometry, n: nat, f: FileRec, id: nat)
    requires ShapeOk(s, g, n, f) && ShapeOk(s', g, n, f) && MetaAt(s', g, n) == MetaAt(s, g, n) && id in f.idx
    ensures id in s && id in s' && s'[id] == s[id]
  {
    var m := MetaAt(s, g, n);
    LevelsShape(m.size, f.idx, f.dat);
    LinkedFixes(s, s', LevelsOf(m.size, f.idx, f.dat), id);
  }

  lemma ContentFixes(s: Store, s': Store, g: Geometry, n: nat, f: FileRec, id: nat)
    requires ContentOk(s, g, n, f) && ContentOk(s', g, n, f) && id in f.dat
    ensures id in s && id in s' && s'[id] == s[id]
  {
    var k :| 0 <= k < |f.dat| && f.dat[k] == id;
    hide Chunk;
  }

  lemma OwnedSplits(s: Store, g: Geometry, n: nat, f: FileRec)
    requires ShapeOk(s, g, n, f)
    ensures forall id :: id in f.Owned() <==> id in f.idx || id in f.dat
    ensures forall id :: id in f.Owned() ==> id in s
  {
    assert f.Owned() == Indexed(s, MetaAt(s, g, n), f.idx, f.dat).Owned();
    assert forall id :: id in f.Owned() ==> id in Elements(f.Owned());
  }

  lemma FileFrame(s: Store, s': Store, g: Geometry, n: nat, f: FileRec)
    requires ShapeOk(s, g, n, f) && ContentOk(s, g, n, f) && s'.Keys == s.Keys && InodeBlock(g, n) in s
    requires s'[InodeBlock(g, n)] == s[InodeBlock(g, n)]
    requires forall id :: (id in f.idx || id in f.dat) && id in s ==> s'[id] == s[id]
    ensures ShapeOk(s', g, n, f) && ContentOk(s', g, n, f)
  {
    OwnedSplits(s, g, n, f);
    hide *;
    ShapeFrame(s, s', g, n, f);
    ContentFrame(s, s', g, n, f);
  }

  lemma InodeUnhit(s: Store, g: Geometry, n: nat, ids: seq<nat>)
    requires InodeBlock(g, n) < DataBitmapStart(g)
    ensures !Hits(g, ids, InodeBlock(g, n))
  {
  }

  lemma SameMeta(s: Store, s': Store, g: Geometry, n: nat, f: FileRec)
    requires ShapeOk(s, g, n, f) && s'.Keys == s.Keys
    ensures InodeBlock(g, n) in s
    ensures s'[InodeBlock(g, n)] == s[InodeBlock(g, n)] ==> HasInode(s', g, n) && HasInode(s, g, n) && MetaAt(s', g, n) == MetaAt(s, g, n)
  {
  }

  /** The coded loop keeps the index and the bytes of a file if and only if it hits none of the file's blocks. */
  lemma ReleaseSpares(s: Store, s': Store, g: Geometry, n: nat, f: FileRec, ids: seq<nat>)
    requires ShapeOk(s, g, n, f) && ContentOk(s, g, n, f) && InodeBlock(g, n) < DataBitmapStart(g)
    requires CodedRelease(s, g, ids) == Some(s')
    ensures ShapeOk(s', g, n, f) && ContentOk(s', g, n, f) <==> forall id :: id in f.Owned() ==> !Hits(g, ids, id)
  {
    InodeUnhit(s, g, n, ids);
    ReleaseLowers(s, g, ids);
    OwnedSplits(s, g, n, f);
    hide *;
    SameMeta(s, s', g, n, f);
    if forall id :: id in f.Owned() ==> !Hits(g, ids, id) {
      FileFrame(s, s', g, n, f);
    } else {
      var id :| id in f.Owned() && Hits(g, ids, id);
      LowerDiffers(s[id], s'[id]);
      if ShapeOk(s', g, n, f) && ContentOk(s', g, n, f) {
        if id in f.idx {
          ShapeFixes(s, s', g, n, f, id);
        } else {
          ContentFixes(s, s', g, n, f, id);
        }
      }
    }
  }

  lemma TouchesLess(s: Store, s': Store, g: Geometry, n: nat, f: FileRec, touched: seq<nat>)
    requires OnlyTouches(s, s', touched) && f.idx == touched
    ensures ResizeTouches(s, s', g, n, f)
  {
  }

  lemma KeptClaims(g: Geometry, files: Files, n: nat, x: Indexed, y: Indexed, f: FileRec, freed: seq<nat>)
    requires n in files && x.idx == files[n].idx && x.dat == files[n].dat && InDataArea(g, files[n].Owned())
    requires f == files[n].(idx := y.idx, dat := y.dat)
    requires multiset(y.Owned()) + multiset(freed) == multiset(x.Owned())
    ensures Claims(files, n, f) && InDataArea(g, f.Owned())
  {
    assert f.Owned() == y.Owned() && files[n].Owned() == x.Owned();
    hide OwnedIds;
    forall id | id in f.Owned()
      ensures id in files[n].Owned()
    {
      assert id in multiset(y.Owned());
      assert id in multiset(x.Owned());
    }
  }

  lemma ContentAt(s: Store, g: Geometry, files: Files, m: nat)
    requires ContentsOk(s, g, files) && m in files
    ensures ContentOk(s, g, m, files[m])
  {
  }

  /** What `shrink` on file `n` leaves of file `m`: its blocks and its inode as they were. */
  lemma ShrinkSpares(s: Store, g: Geometry, files: Files, n: nat, newSize: nat, m: nat)
    requires FsOk(s, g, files) && n in files && m in files && m != n
    requires HasInode(s, g, n) && newSize <= MetaAt(s, g, n).size
    ensures Shrinkable(IndexOf(s, g, files, n), newSize)
    ensures var s1 := Shrink(IndexOf(s, g, files, n), newSize).after.store;
            ShapeOk(s1, g, m, files[m]) && ContentOk(s1, g, m, files[m])
  {
    hide *;
    FsParts(s, g, files);
    BeforeRelease(s, g, files, n, newSize);
    var x := IndexOf(s, g, files, n);
    ShapeAt(s, g, files, n);
    IndexIs(s, g, files, n);
    ShrinkKeeps(x, newSize);
    var r := Shrink(x, newSize);
    var f := Cut(files[n], r.after);
    CutIs(files[n], r.after);
    TouchesLess(s, r.after.store, g, n, f, r.after.idx);
    KeptClaims(g, files, n, x, r.after, f, r.freed.index + r.freed.data);
    OthersKeep(s, r.after.store, g, files, n, f, m);
    ContentAt(s, g, files, m);
  }

  /** Storing the inode of `n` changes nothing for `m`. */
  lemma MetaElsewhere(s0: Store, s: Store, g: Geometry, files: Files, n: nat, meta: Meta, m: nat)
    requires MapsOk(s0, g, files) && ShapesOk(s0, g, files) && n in files && m in files && m != n && InodeBlock(g, n) in s
    ensures var s' := WithMeta(s, g, n, meta);
            ShapeOk(s', g, m, files[m]) && ContentOk(s', g, m, files[m]) <==> ShapeOk(s, g, m, files[m]) && ContentOk(s, g, m, files[m])
  {
    var s' := WithMeta(s, g, n, meta);
    assert InodeBlock(g, m) != InodeBlock(g, n);
    forall id | id in files[m].idx || id in files[m].dat
      ensures id != InodeBlock(g, n)
    {
      assert id in files[m].Owned();
      Apart(s0, g, files, m, id);
    }
    hide MapsOk, ShapesOk, ShapeOk, ContentOk, InodeBlock;
    assert s'.Keys == s.Keys;
    if ShapeOk(s, g, m, files[m]) && ContentOk(s, g, m, files[m]) {
      FileFrame(s, s', g, m, files[m]);
    }
    if ShapeOk(s', g, m, files[m]) && ContentOk(s', g, m, files[m]) {
      FileFrame(s', s, g, m, files[m]);
    }
  }

  /**
   * A shrinking write of file `n` as coded that does not panic leaves another file intact if and only if none of
   * that file's blocks is one that `dealloc` takes for a bitmap block.
   */
  lemma ShrinkSparesOthers(s: Store, g: Geometry, files: Files, n: nat, newSize: nat, m: nat)
    requires FsOk(s, g, files) && n in files && m in files && m != n
    requires HasInode(s, g, n) && newSize <= MetaAt(s, g, n).size
    ensures Shrinkable(IndexOf(s, g, files, n), newSize)
    ensures var x := IndexOf(s, g, files, n);
            var y := Shrink(x, newSize).after;
            var released := CodedRelease(y.store, g, Freed(x, newSize));
            released.Some? ==>
              var s' := WithMeta(released.value, g, n, y.meta);
              (ShapeOk(s', g, m, files[m]) && ContentOk(s', g, m, files[m]) <==>
               forall id :: id in files[m].Owned() ==> !Hits(g, Freed(x, newSize), id))
  {
    hide *;
    FsParts(s, g, files);
    BeforeRelease(s, g, files, n, newSize);
    ShrinkSpares(s, g, files, n, newSize, m);
    InodeInArea(s, g, files, m);
    InodeInArea(s, g, files, n);
    var x := IndexOf(s, g, files, n);
    var y := Shrink(x, newSize).after;
    var released := CodedRelease(y.store, g, Freed(x, newSize));
    if released.Some? {
      ReleaseSpares(y.store, released.value, g, m, files[m], Freed(x, newSize));
      ReleaseLowers(y.store, g, Freed(x, newSize));
      MetaElsewhere(s, released.value, g, files, n, y.meta, m);
    }
  }

  // ---------------------------------------------------------------------------
  // When the ids leave the bitmap
  // ---------------------------------------------------------------------------

  /**
   * Every block id misses the data bitmap if and only if the data area starts past as many blocks as the bitmap has
   * bits, which it does whenever there are no fewer inode than data bitmap blocks.
   */
  lemma IdsLeaveBitmap(g: Geometry)
    requires GeometryOk(g) && g.dataAreaBlocks > 0
    ensures (forall id :: DataStart(g) <= id < g.totalBlocks ==> Target(g, id) >= DataStart(g)) <==> DataStart(g) >= DataCount(g)
    ensures g.inodeBitmapBlocks >= g.dataBitmapBlocks ==> DataStart(g) >= DataCount(g)
  {
    forall id: nat
      ensures Target(g, id) >= DataStart(g) <==> id >= DataCount(g)
    {
    }
    if DataStart(g) < DataCount(g) {
      assert Target(g, DataStart(g)) < DataStart(g);
    }
  }

  // ---------------------------------------------------------------------------
  // The code
  // ---------------------------------------------------------------------------

  lemma DeviceKeys(cm: CacheManager)
    requires cm.Valid()
    ensures cm.device.Keys == cm.view.Keys
  {
  }

  /** Bitmap::dealloc as `write` calls it; `ok` is false where it panics. */
  method DeallocCoded(cm: CacheManager, g: Geometry, id: nat) returns (ok: bool)
    requires cm.Valid() && Target(g, id) !in cm.pins && |cm.pins| < CACHE_SIZE
    modifies cm
    ensures ok <==> CodedOk(old(cm.view), g, id)
    ensures ok ==> cm.Valid() && cm.pins == old(cm.pins) && cm.view == CodedDealloc(old(cm.view), g, id)
  {
    hide CacheManager.Valid, WordAt, Lowered, Bit, Pow2, Target, WordOf, PosOf;
    Decompose(id);
    DeviceKeys(cm);
    var t := Target(g, id);
    if t !in cm.device {
      return false;
    }
    PinUnpin(cm.pins, t, Exclusive);
    cm.Open(t, true);
    var block := cm.Peek(t);
    var w := WordAt(block, WordOf(id));
    if !Bit(w, PosOf(id)) {
      return false;
    }
    SubBit(w, PosOf(id), 0);
    PowIsPositive(PosOf(id));
    cm.Poke(t, Lowered(block, WordOf(id), w - Pow2(PosOf(id))));
    cm.Close(t);
    ok := true;
  }

  lemma OneMoreReleased(s: Store, g: Geometry, ids: seq<nat>, i: nat)
    requires i < |ids| && CodedRelease(s, g, ids[..i]).Some?
    ensures var s1 := CodedRelease(s, g, ids[..i]).value;
            CodedRelease(s, g, ids[..i + 1]) == if CodedOk(s1, g, ids[i]) then Some(CodedDealloc(s1, g, ids[i])) else None
  {
    assert ids[..i + 1][..i] == ids[..i];
    hide CodedOk, CodedDealloc;
  }

  lemma {:induction false} Panics(s: Store, g: Geometry, ids: seq<nat>, i: nat)
    requires i <= |ids| && CodedRelease(s, g, ids[..i]).None?
    ensures CodedRelease(s, g, ids).None?
    decreases |ids|
  {
    hide CodedOk, CodedDealloc;
    if i == |ids| {
      assert ids[..i] == ids;
    } else {
      var front := ids[..|ids| - 1];
      assert front[..i] == ids[..i];
      Panics(s, g, front, i);
    }
  }

  /** One of the deallocation loops of `write`. */
  method ReleaseCoded(cm: CacheManager, g: Geometry, ids: seq<nat>) returns (ok: bool)
    requires cm.Valid() && |cm.pins| < CACHE_SIZE && forall id :: id in ids ==> Target(g, id) !in cm.pins
    modifies cm
    ensures ok <==> CodedRelease(old(cm.view), g, ids).Some?
    ensures ok ==> cm.Valid() && cm.pins == old(cm.pins) && cm.view == CodedRelease(old(cm.view), g, ids).value
  {
    hide *;
    ghost var s := cm.view;
    NoneToRelease(s, g);
    assert ids[..0] == [];
    for i := 0 to |ids|
      invariant cm.Valid() && cm.pins == old(cm.pins) && CodedRelease(s, g, ids[..i]) == Some(cm.view)
    {
      OneMoreReleased(s, g, ids, i);
      ok := DeallocCoded(cm, g, ids[i]);
      if !ok {
        Panics(s, g, ids, i + 1);
        return;
      }
    }
    assert ids[..|ids|] == ids;
    ok := true;
  }

  /** The two loops one after the other. */
  lemma {:induction false} ReleaseBoth(s: Store, g: Geometry, a: seq<nat>, b: seq<nat>)
    ensures CodedRelease(s, g, a).None? ==> CodedRelease(s, g, a + b).None?
    ensures CodedRelease(s, g, a).Some? ==> CodedRelease(s, g, a + b) == CodedRelease(CodedRelease(s, g, a).value, g, b)
    decreases |b|
  {
    hide CodedOk, CodedDealloc;
    if b == [] {
      assert a + b == a;
    } else {
      var n := |b| - 1;
      ReleaseBoth(s, g, a, b[..n]);
      assert (a + b)[..|a + b| - 1] == a + b[..n] && (a + b)[|a + b| - 1] == b[n];
    }
  }

  lemma TargetsApart(g: Geometry, n: nat, pins: map<nat, Pin>, ids: seq<nat>)
    requires HoldsInode(pins, g, n) && InodeBlock(g, n) < DataBitmapStart(g)
    ensures forall id :: id in ids ==> Target(g, id) !in pins
  {
  }

  /** The shrinking branch of `write` as coded, with the inode's block held; `ok` is false where it panics. */
  method ShrinkCoded(cm: CacheManager, g: Geometry, n: nat, newSize: nat, ghost files: Files) returns (ok: bool)
    requires cm.Valid() && cm.pins == map[] && FsOk(cm.view, g, files) && n in files && newSize < |files[n].bytes|
    modifies cm
    ensures HasInode(old(cm.view), g, n) && Shrinkable(IndexOf(old(cm.view), g, files, n), newSize)
    ensures var x := IndexOf(old(cm.view), g, files, n);
            var y := Shrink(x, newSize).after;
            var released := CodedRelease(y.store, g, Freed(x, newSize));
            && (ok <==> released.Some?)
            && (ok ==> cm.Valid() && cm.pins == map[] && cm.view == WithMeta(released.value, g, n, y.meta))
  {
    hide *;
    ghost var s := cm.view;
    ReadyToResize(s, g, files, n);
    AwaitsParts(s, g, files, n, |files[n].bytes|);
    BeforeRelease(s, g, files, n, newSize);
    IndexIs(s, g, files, n);
    ghost var x := IndexOf(s, g, files, n);
    CacheSizeIs();
    var id := InodeBlock(g, n);
    cm.Open(id, true);
    OneInode(g, n, cm.pins);
    var block := cm.Peek(id);
    var m := block.meta;
    ReadBack(s, g, files, n, cm.pins);
    var m', freed := ShrinkMeta(cm, m, newSize, files[n].idx, files[n].dat);
    FreedIs(x, newSize);
    ghost var y := Shrink(x, newSize).after;
    ReleaseBoth(y.store, g, freed.index, freed.data);
    TargetsApart(g, n, cm.pins, freed.index);
    TargetsApart(g, n, cm.pins, freed.data);
    ok := ReleaseCoded(cm, g, freed.index);
    if !ok { return; }
    ok := ReleaseCoded(cm, g, freed.data);
    if !ok { return; }
    WithMetaIs(cm.view, g, n, m');
    cm.Poke(id, Inode(m'));
    PinUnpin(map[], id, Exclusive);
    cm.Close(id);
  }

  // ---------------------------------------------------------------------------
  // The geometry of `fake_fs`: 20480 blocks, 2 inode bitmap blocks
  // ---------------------------------------------------------------------------

  lemma TestGeometry()
    ensures BigEnough(20480, 2)
    ensures var g := Plan(20480, 2);
            && DataBitmapStart(g) == 8195 && DataStart(g) == 8197 && DataCount(g) == 8192
            && forall id :: 8197 <= id < 20480 ==> Target(g, id) >= 8197
  {
    PlanIsOk(20480, 2);
    IdsLeaveBitmap(Plan(20480, 2));
  }

  lemma Odd(w: nat)
    ensures Bit(2 * w + 1, 0)
  {
  }

  lemma Half(w: nat, k: nat)
    ensures Bit(2 * w + 1, k + 1) == Bit(w, k)
  {
    assert (2 * w + 1) / 2 == w;
  }

  lemma {:induction false} SameHigh(bytes: seq<byte>)
    ensures LeBytes(FromLeBytes(bytes), |bytes|) == bytes
  {
    if bytes == [] {
    } else {
      SameHigh(bytes[1..]);
    }
  }

  /** Bit 6 of 255 and bit 5 of 191, whatever lies above. */
  lemma SomeBits(high: nat)
    ensures Bit(255 + 256 * high, 6) && Bit(191 + 256 * high, 5)
  {
    hide Bit;
    Odd(1 + 2 * high);
    Half(127 + 128 * high, 5);
    Half(63 + 64 * high, 4);
    Half(31 + 32 * high, 3);
    Half(15 + 16 * high, 2);
    Half(7 + 8 * high, 1);
    Half(3 + 4 * high, 0);
    Odd(2 + 4 * high);
    Half(95 + 128 * high, 4);
    Half(47 + 64 * high, 3);
    Half(23 + 32 * high, 2);
    Half(11 + 16 * high, 1);
    Half(5 + 8 * high, 0);
  }

  lemma LowWord(low: seq<byte>, low': seq<byte>)
    requires |low| == 8 && low[0] == 255 && low' == [191] + low[1..]
    ensures var w := FromLeBytes(low); w >= 64 && Bit(w, 6) && LeBytes(w - 64, 8) == low'
    ensures Bit(FromLeBytes(low'), 5)
  {
    hide Bit;
    var high, w := FromLeBytes(low[1..]), FromLeBytes(low);
    SomeBits(high);
    SameHigh(low[1..]);
    assert w == 255 + 256 * high;
    assert (w - 64) % 256 == 191 && (w - 64) / 256 == high;
    assert low'[1..] == low[1..];
    assert FromLeBytes(low') == 191 + 256 * high;
  }

  lemma WordOfFirst(b: byte, rest: seq<byte>)
    requires |rest| == BLOCK_SIZE - 1
    ensures WordAt(Data([b] + rest), 0) == FromLeBytes([b] + rest[..7])
  {
    hide FromLeBytes;
    assert ([b] + rest)[0..8] == [b] + rest[..7];
  }

  lemma PutFirst(b: byte, b': byte, rest: seq<byte>, v: nat)
    requires |rest| == BLOCK_SIZE - 1 && v < WordAt(Data([b] + rest), 0) && LeBytes(v, 8) == [b'] + rest[..7]
    ensures Lowered(Data([b] + rest), 0, v) == Data([b'] + rest)
  {
    hide FromLeBytes, LeBytes;
    var bytes := [b] + rest;
    assert bytes[..0] + ([b'] + rest[..7]) + bytes[8..] == [b'] + rest;
  }

  lemma FirstWord(rest: seq<byte>)
    requires |rest| == BLOCK_SIZE - 1
    ensures var w := WordAt(Data([255] + rest), 0);
            w >= 64 && Bit(w, 6) && Lowered(Data([255] + rest), 0, w - 64) == Data([191] + rest)
    ensures Bit(WordAt(Data([191] + rest), 0), 5)
  {
    hide FromLeBytes, LeBytes, Bit, WordAt, Lowered;
    var low := [255] + rest[..7];
    assert low[1..] == rest[..7];
    LowWord(low, [191] + rest[..7]);
    WordOfFirst(255, rest);
    WordOfFirst(191, rest);
    PutFirst(255, 191, rest, FromLeBytes(low) - 64);
  }

  /** Releasing block 8198 there takes 64 off the first byte of block 8197; releasing block 8197 then passes as well. */
  lemma WrongBlock(s: Store, rest: seq<byte>)
    requires |rest| == BLOCK_SIZE - 1 && 8197 in s && s[8197] == Data([255] + rest)
    ensures BigEnough(20480, 2)
    ensures var g := Plan(20480, 2);
            && CodedOk(s, g, 8198) && CodedDealloc(s, g, 8198) == s[8197 := Data([191] + rest)]
            && CodedOk(s[8197 := Data([191] + rest)], g, 8197)
  {
    TestGeometry();
    var g := Plan(20480, 2);
    FirstWord(rest);
    assert Target(g, 8198) == 8197 && WordOf(8198) == 0 && PosOf(8198) == 6;
    assert Target(g, 8197) == 8197 && WordOf(8197) == 0 && PosOf(8197) == 5;
    assert Pow2(6) == 64;
    hide Plan, WordAt, Lowered, Bit, Pow2, Target, WordOf, PosOf;
  }

  lemma SizesOf()
    ensures DataBlocks(1024) == 2 && IndexBlocks(1024) == LevelInfo(0, 0, 0, 0, 2)
    ensures DataBlocks(0) == 0 && IndexBlocks(0) == LevelInfo(0, 0, 0, 0, 0)
  {
  }

  lemma NothingOwned(g: Geometry, files: Files, name: seq<byte>)
    requires files == map[0 := NewFile(Dir, name)] && DataCount(g) == 8192
    ensures 0 in files && |files[0].bytes| == 0 && files[0].dat == [] && OwnedIds(files) == {}
    ensures HasBlocks(g, files, 0, 1024)
  {
    assert OwnedIds(files) == {};
    SizesOf();
    hide OwnedIds, DataBlocks, IndexBlocks;
  }

  lemma SmallFile(x: Indexed)
    requires x.Valid() && x.meta.size == 1024
    ensures x.idx == [] && |x.dat| == 2 && x.dat[0] != x.dat[1]
  {
    SizesOf();
    hide DataBlocks, IndexBlocks, Linked, LevelsOf, Pad;
    assert x.Owned() == x.dat;
  }

  /** The first two blocks taken from an empty data area. */
  lemma FirstTwo(g: Geometry, files0: Files, f0: FileRec, f: FileRec)
    requires DataStart(g) == 8197 && f0.dat == [] && f.idx == [] && OwnedIds(files0) == {} && TakesUnowned(g, files0, f0, f)
    requires |f.dat| == 2 && f.dat[0] != f.dat[1] && InDataArea(g, f.Owned())
    ensures f.dat == [8197, 8198]
  {
    hide OwnedIds, DataStart;
    var dat := f.dat;
    var ids := dat[|f0.dat|..] + f.idx[|f0.idx|..];
    assert ids == dat;
    assert dat[0] in f.Owned() && dat[1] in f.Owned();
    var none, one := ids[..0], ids[..1];
    assert none == [] && one == [dat[0]];
    assert 8197 !in OwnedIds(files0) && 8198 !in OwnedIds(files0);
    assert 8197 < ids[0] ==> 8197 in none;
    assert 8197 < ids[1] ==> 8197 in one;
    assert 8198 < ids[1] ==> 8198 in one;
  }

  lemma RootWritten(files0: Files, files: Files, contents: seq<byte>)
    requires files0.Keys == {0} && Rewritten(files0, files, 0, contents)
    ensures files.Keys == {0} && files[0].bytes == contents
  {
  }

  lemma SizeIs(s: Store, g: Geometry, n: nat, f: FileRec)
    requires ContentOk(s, g, n, f)
    ensures HasInode(s, g, n) && MetaAt(s, g, n).size == |f.bytes|
  {
  }

  /** The first file of 1024 bytes gets the first two blocks of the data area. */
  lemma FirstBlocks(s: Store, g: Geometry, files0: Files, files: Files, contents: seq<byte>)
    requires FsOk(s, g, files) && DataStart(g) == 8197 && files0.Keys == {0}
    requires Rewritten(files0, files, 0, contents) && |contents| == 1024
    requires files0[0].dat == [] && OwnedIds(files0) == {} && TakesUnowned(g, files0, files0[0], files[0])
    ensures files.Keys == {0} && files[0].bytes == contents
    ensures files[0].idx == [] && files[0].dat == [8197, 8198]
    ensures HasInode(s, g, 0) && MetaAt(s, g, 0).size == 1024 && ContentOk(s, g, 0, files[0])
  {
    RootWritten(files0, files, contents);
    hide *;
    FsParts(s, g, files);
    ShapeAt(s, g, files, 0);
    ContentAt(s, g, files, 0);
    SizeIs(s, g, 0, files[0]);
    SmallFile(Indexed(s, MetaAt(s, g, 0), files[0].idx, files[0].dat));
    FirstTwo(g, files0, files0[0], files[0]);
  }

  lemma ValidParts(x: Indexed)
    requires x.Valid()
    ensures Built(x.store, x.meta, x.idx, x.dat)
  {
  }

  lemma FreedData(x: Indexed, newSize: nat)
    requires Shrinkable(x, newSize)
    ensures DataDelta(newSize, x.meta.size) <= |Blocks(x.store, x.meta).data|
    ensures Shrink(x, newSize).freed.data == Popped(Blocks(x.store, x.meta).data, DataDelta(newSize, x.meta.size))
  {
  }

  lemma TouchesNone(s: Store, s': Store, touched: seq<nat>)
    requires OnlyTouches(s, s', touched) && |touched| == 0
    ensures s' == s
  {
  }

  lemma NoIndex(info: LevelInfo)
    requires info.l4 == 0 && info.l3 == 0 && info.blockDirectory == 0 && info.blockTable == 0
    ensures IndexBlockCount(info) == 0
  {
  }

  lemma DeltasOf(newSize: nat, size: nat)
    requires newSize == 0 && size == 1024
    ensures DataDelta(newSize, size) == 2 && IndexDelta(newSize, size) == 0 && IndexBlockCount(IndexBlocks(newSize)) == 0
  {
    hide *;
    SizesOf();
    NoIndex(LevelInfo(0, 0, 0, 0, 2));
    NoIndex(LevelInfo(0, 0, 0, 0, 0));
  }

  lemma PopsBoth(a: nat, b: nat)
    ensures Popped([a, b], 2) == [b, a]
  {
    assert [a, b][..1] == [a];
    assert Popped([a], 1) == [a];
  }

  /** Emptying it frees the two, the second first, without changing a block. */
  lemma FreesBoth(x: Indexed)
    requires x.Valid() && x.meta.size == 1024 && x.idx == [] && x.dat == [8197, 8198]
    ensures Shrinkable(x, 0) && Freed(x, 0) == [8198, 8197] && Shrink(x, 0).after.store == x.store
  {
    ShrinkKeeps(x, 0);
    ShrunkIds(x, 0);
    ValidParts(x);
    BlocksOfBuilt(x.store, x.meta, x.idx, x.dat);
    FreedData(x, 0);
    hide *;
    DeltasOf(0, x.meta.size);
    FreedIs(x, 0);
    PopsBoth(8197, 8198);
    TouchesNone(x.store, Shrink(x, 0).after.store, Shrink(x, 0).after.idx);
  }

  lemma FirstBytes(contents: seq<byte>) returns (rest: seq<byte>)
    requires |contents| == 1024 && forall i :: 0 <= i < 1024 ==> contents[i] == 255
    ensures |rest| == BLOCK_SIZE - 1 && Chunk(contents, 0) == [255] + rest
  {
    rest := Chunk(contents, 0)[1..];
  }

  /** So releasing the two ids as coded passes. */
  lemma BothPass(s: Store, files: Files, contents: seq<byte>)
    requires BigEnough(20480, 2) && 0 in files && ContentOk(s, Plan(20480, 2), 0, files[0])
    requires files[0].bytes == contents && files[0].dat == [8197, 8198]
    requires |contents| == 1024 && forall i :: 0 <= i < 1024 ==> contents[i] == 255
    ensures CodedRelease(s, Plan(20480, 2), [8198, 8197]).Some?
  {
    var g := Plan(20480, 2);
    var rest := FirstBytes(contents);
    assert files[0].dat[0] == 8197;
    hide Plan, CodedOk, CodedDealloc, Chunk;
    WrongBlock(s, rest);
    assert [8198, 8197][..1] == [8198] && [8198][..0] == [];
    assert CodedRelease(s, g, [8198]) == Some(s[8197 := Data([191] + rest)]);
  }

  lemma OwnsBoth(files: Files)
    requires files.Keys == {0} && files[0].idx == [] && files[0].dat == [8197, 8198]
    ensures OwnedIds(files) == {8197, 8198}
  {
    assert files[0].Owned() == [8197, 8198];
    assert 8197 in files[0].Owned() && 8198 in files[0].Owned();
  }

  lemma MirrorsBoth(bits: set<nat>, ids: set<nat>, base: nat)
    requires Mirrors(bits, ids, base) && ids == {base, base + 1}
    ensures bits == {0, 1}
  {
    assert base in ids && base + 1 in ids;
    assert base - base in bits && base + 1 - base in bits;
    forall b | b in bits
      ensures b == 0 || b == 1
    {
      assert b + base in ids;
    }
  }

  lemma TwoBits(s: Store, g: Geometry, files: Files)
    requires FsOk(s, g, files) && files.Keys == {0} && files[0].idx == [] && files[0].dat == [8197, 8198] && DataStart(g) == 8197
    ensures IsBitmap(s, DataBitmapStart(g), g.dataBitmapBlocks) && DataBits(s, g) == {0, 1}
  {
    hide *;
    FsParts(s, g, files);
    MirrorOf(s, g, files);
    OwnsBoth(files);
    MirrorsBoth(DataBits(s, g), OwnedIds(files), DataStart(g));
  }

  lemma LargeEnough()
    ensures 1024 <= L4_MAX
  {
  }

  lemma StoredMeta(s: Store, g: Geometry, n: nat)
    ensures forall s0, m :: s == WithMeta(s0, g, n, m) ==> HasInode(s, g, n) && MetaAt(s, g, n) == m
  {
  }

  /**
   * A formatted device of that geometry, 1024 bytes of 255 written to the root, and the write of an empty file as
   * coded: it does not panic, and both blocks stay marked as taken although no file owns any.
   */
  method LeakWitness(device: Store) returns (fs: CAFS, ok: bool)
    requires forall id: nat :: id in device <==> id < 20480
    ensures BigEnough(20480, 2) && fs.g == Plan(20480, 2) && fs.files.Keys == {0}
    ensures ok
    ensures HasInode(fs.cm.view, fs.g, 0) && MetaAt(fs.cm.view, fs.g, 0).size == 0
    ensures IsBitmap(fs.cm.view, DataBitmapStart(fs.g), fs.g.dataBitmapBlocks) && DataBits(fs.cm.view, fs.g) == {0, 1}
  {
    TestGeometry();
    hide *;
    fs := new CAFS.Init(device, 20480, 2);
    ghost var files0 := fs.files;
    RootName();
    NothingOwned(fs.g, fs.files, PadName(ROOT_NAME));
    var contents := seq(1024, _ => 255);
    GrowthOnly(0, 1024);
    LargeEnough();
    ok := fs.Write(0, contents, 0);
    fs.Elim();
    ghost var s := fs.cm.view;
    FirstBlocks(s, fs.g, files0, fs.files, contents);
    TwoBits(s, fs.g, fs.files);
    FsParts(s, fs.g, fs.files);
    BeforeRelease(s, fs.g, fs.files, 0, 0);
    ShrinkAsCoded(s, fs.g, fs.files, 0, 0);
    IndexIs(s, fs.g, fs.files, 0);
    FreesBoth(IndexOf(s, fs.g, fs.files, 0));
    BothPass(s, fs.files, contents);
    ShrinkKeeps(IndexOf(s, fs.g, fs.files, 0), 0);
    ok := ShrinkCoded(fs.cm, fs.g, 0, 0, fs.files);
    StoredMeta(fs.cm.view, fs.g, 0);
  }
}
