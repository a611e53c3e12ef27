/**
 * `Meta` and `IndirectBlock` as they run over the block cache: each method takes and drops the handles
 * the source takes and drops, and is proved against the functions of IndexTree and IndexBuild.
 */
module MetaOps {
  import opened Prelude
  import opened Layout
  import opened Sequences
  import opened Cache
  import opened IndexTree
  import opened IndexBuild
  import opened Bitmap

  /** None of these blocks is held. */
  ghost predicate NoneHeld(pins: map<nat, Pin>, ids: seq<nat>) {
    forall id :: id in ids ==> id !in pins
  }

  /** The ids of the levels are blocks of the store, all different. */
  ghost predicate Placed(s: Store, l: Levels) {
    Linked(s, l) && l.NonZero() && Distinct(l.Index())
  }

  lemma PlacedDown(s: Store, l: Levels, pins: map<nat, Pin>, p: nat, pin: Pin)
    requires Placed(s, l) && l.Up? && l.down.Up? && NoneHeld(pins, l.down.Index()) && p < |l.down.ids|
    ensures Placed(s, l.down) && l.down.ids[p] in s && l.down.ids[p] !in pins
    ensures NoneHeld(pins[l.down.ids[p] := pin], l.down.down.Index())
  {
    var d := l.down;
    assert l.Index() == l.ids + d.Index();
    assert d.Index() == d.ids + d.down.Index();
    DistinctConcat(l.ids, d.Index());
    DistinctConcat(d.ids, d.down.Index());
    assert d.ids[p] in d.Index() && d.ids[p] in Elements(d.ids);
    assert forall id :: id in d.down.Index() ==> id in d.Index() && id in Elements(d.down.Index());
  }

  lemma RankOf(l: Levels)
    requires l.Up?
    ensures l.Rank() == l.down.Rank() + 1
  {
  }

  lemma Onward(done: seq<nat>, x: seq<nat>, rest: seq<nat>, all: seq<nat>)
    requires done + (x + rest) == all
    ensures (done + x) + rest == all
  {
  }

  lemma RootEntries(s: Store, l: Levels, j: nat)
    requires Linked(s, l) && l.Up? && j < |l.ids|
    ensures l.ids[j] in s && s[l.ids[j]].Index? && |s[l.ids[j]].entries| == INDIRECT_LEN
  {
  }

  lemma EntryOf(s: Store, l: Levels, j: nat, e: nat)
    requires Linked(s, l) && l.NonZero() && l.Up? && j < |l.ids| && e < INDIRECT_LEN
    ensures l.ids[j] in s && s[l.ids[j]].Index? && |s[l.ids[j]].entries| == INDIRECT_LEN
    ensures var p, child := INDIRECT_LEN * j + e, s[l.ids[j]].entries[e];
            && (child == 0 <==> p >= |l.down.ids|)
            && (child != 0 ==> child == l.down.ids[p])
            && (s[l.ids[j]].level == BlockTable <==> l.down.Leaf?)
  {
    assert s[l.ids[j]] == Index(Row(l.down.ids, j), TypeAt(l.Rank()));
    var p := INDIRECT_LEN * j + e;
    if p < |l.down.ids| {
      assert l.down.ids[p] in l.down.ids;
    }
  }

  lemma PlacedParts(s: Store, l: Levels)
    requires Placed(s, l)
    ensures Linked(s, l) && l.NonZero() && Distinct(l.Index())
  {
  }

  lemma RankUp(l: Levels)
    requires l.Up? && l.down.Up?
    ensures l.Rank() == l.down.Rank() + 1 >= 2
  {
  }

  /** IndirectBlock::_to_vec of block `j` of a level, of which the caller holds a handle. */
  method ToVecHeld(cm: CacheManager, id: nat, ghost l: Levels, ghost j: nat) returns (ids: Ids)
    requires cm.Valid() && Placed(cm.view, l) && l.Up? && j < |l.ids| && id == l.ids[j]
    requires id in cm.pins && NoneHeld(cm.pins, l.down.Index())
    requires |cm.pins| + l.Rank() <= CACHE_SIZE
    modifies cm
    ensures cm.Valid() && cm.view == old(cm.view) && cm.pins == old(cm.pins)
    ensures cm.peak <= Peak(old(cm.peak), |cm.pins| + l.Rank() - 1)
    ensures Tree(cm.view, id, l.Rank()) && ids == ToVecFrom(cm.view, id, l.Rank(), 0)
    decreases l
  {
    hide *;
    ghost var s, held := cm.view, cm.pins;
    PlacedParts(s, l);
    RankOf(l);
    NodeIsTree(s, l, j);
    var block := cm.Peek(id);
    RootEntries(s, l, j);
    ids := Ids([], []);
    ghost var all := ToVecFrom(s, id, l.Rank(), 0);
    for e := 0 to INDIRECT_LEN
      invariant cm.Valid() && cm.view == s && cm.pins == held
      invariant cm.peak <= Peak(old(cm.peak), |cm.pins| + l.Rank() - 1)
      invariant ids.index + ToVecFrom(s, id, l.Rank(), e).index == all.index
      invariant ids.data + ToVecFrom(s, id, l.Rank(), e).data == all.data
    {
      var child := block.entries[e];
      EntryOf(s, l, j, e);
      StepRow(s, l, j, e);
      ghost var rest := ToVecFrom(s, id, l.Rank(), e + 1);
      if child != 0 {
        if block.level == BlockTable {
          Onward(ids.data, [child], rest.data, all.data);
          ids := Ids(ids.index, ids.data + [child]);
        } else {
          ghost var p := INDIRECT_LEN * j + e;
          RankUp(l);
          PlacedDown(s, l, held, p, Shared(1));
          PinUnpin(held, child, Shared(1));
          cm.Open(child, false);
          var sub := ToVecHeld(cm, child, l.down, p);
          cm.Close(child);
          Onward(ids.index, [child] + sub.index, rest.index, all.index);
          Onward(ids.data, sub.data, rest.data, all.data);
          ids := Ids(ids.index + ([child] + sub.index), ids.data + sub.data);
        }
      }
    }
    ToVecEnd(s, id, l.Rank());
  }

  lemma HoldRoot(s: Store, l: Levels, pins: map<nat, Pin>)
    requires Linked(s, l) && l.NonZero() && l.Up? && |l.ids| == 1 && Distinct(l.Index()) && NoneHeld(pins, l.Index())
    ensures Placed(s, l) && l.ids[0] in s && l.ids[0] !in pins
    ensures NoneHeld(pins[l.ids[0] := Shared(1)], l.down.Index())
  {
    assert l.Index() == l.ids + l.down.Index();
    DistinctConcat(l.ids, l.down.Index());
    assert l.ids[0] in l.Index() && l.ids[0] in Elements(l.ids);
    assert forall id :: id in l.down.Index() ==> id in l.Index() && id in Elements(l.down.Index());
  }

  lemma RootHeightOf(s: Store, l: Levels)
    requires Linked(s, l) && l.Up? && |l.ids| == 1
    ensures l.Rank() <= 4 && l.ids[0] in s && s[l.ids[0]].Index? && Height(s[l.ids[0]].level) == l.Rank()
    ensures Tree(s, l.ids[0], l.Rank()) ==> ToVec(s, l.ids[0]) == ToVecFrom(s, l.ids[0], l.Rank(), 0)
  {
  }

  /** The part of `blocks` that takes the root's handle. */
  method ToVecRoot(cm: CacheManager, root: nat, ghost l: Levels) returns (ids: Ids)
    requires cm.Valid() && Linked(cm.view, l) && l.NonZero() && Distinct(l.Index()) && NoneHeld(cm.pins, l.Index())
    requires l.Up? && l.ids == [root] && |cm.pins| + 5 <= CACHE_SIZE
    modifies cm
    ensures cm.Valid() && cm.view == old(cm.view) && cm.pins == old(cm.pins)
    ensures cm.peak <= Peak(old(cm.peak), |cm.pins| + 4)
    ensures root in cm.view && cm.view[root].Index? && Tree(cm.view, root, Height(cm.view[root].level))
    ensures ids == ToVec(cm.view, root)
  {
    hide *;
    RootHeightOf(cm.view, l);
    ghost var held := cm.pins;
    HoldRoot(cm.view, l, held);
    PinUnpin(held, root, Shared(1));
    cm.Open(root, false);
    ids := ToVecHeld(cm, root, l, 0);
    cm.Close(root);
  }

  /** Meta::blocks of a built inode, whose own block the caller may hold. */
  method BlocksOf(cm: CacheManager, m: Meta, ghost idx: seq<nat>, ghost dat: seq<nat>) returns (ids: Ids)
    requires cm.Valid() && Built(cm.view, m, idx, dat) && Distinct(idx) && NoneHeld(cm.pins, idx)
    requires |cm.pins| + 5 <= CACHE_SIZE
    modifies cm
    ensures cm.Valid() && cm.view == old(cm.view) && cm.pins == old(cm.pins)
    ensures cm.peak <= Peak(old(cm.peak), |cm.pins| + 4)
    ensures Readable(cm.view, m) && ids == Blocks(cm.view, m) == Ids(Sort(idx), dat)
  {
    hide Coherent, Tree, ToVec, Linked, LevelsOf, IndexBlocks, NonZero, Sort;
    LevelsShape(m.size, idx, dat);
    BlocksOfBuilt(cm.view, m, idx, dat);
    if m.indirect != 0 {
      assert idx != [];
      var sub := ToVecRoot(cm, m.indirect, LevelsOf(m.size, idx, dat));
      ids := Ids(Sort([m.indirect] + sub.index), NonZero(m.direct) + sub.data);
    } else {
      ids := Ids([], NonZero(m.direct));
    }
  }

  lemma HeightIs(s: Store, l: Levels, j: nat)
    requires Linked(s, l) && l.Up? && j < |l.ids|
    ensures l.ids[j] in s && s[l.ids[j]].Index? && |s[l.ids[j]].entries| == INDIRECT_LEN
    ensures s[l.ids[j]].level == BlockTable <==> l.down.Leaf?
    ensures s[l.ids[j]].level == TypeAt(l.Rank())
  {
    assert s[l.ids[j]] == Index(Row(l.down.ids, j), TypeAt(l.Rank()));
  }

  lemma LastStep(s: Store, l: Levels, j: nat, inner: nat, at: nat)
    requires Linked(s, l) && l.NonZero() && l.Up? && l.down.Leaf? && j < |l.ids| && l.Rank() == l.down.Rank() + 1
    requires inner < Span(l.Rank()) && at == Span(l.Rank()) * j + inner < |l.Data()| && l.Data() == l.down.Data()
    ensures l.ids[j] in s && s[l.ids[j]].Index? && |s[l.ids[j]].entries| == INDIRECT_LEN && inner < INDIRECT_LEN
    ensures s[l.ids[j]].entries[inner] == l.Data()[at]
  {
    hide Linked, Levels.NonZero, Levels.Data, Levels.Rank;
    LeafData(l.down);
    assert Span(1) == INDIRECT_LEN * Span(0) == INDIRECT_LEN;
    EntryOf(s, l, j, inner);
  }

  /** Where the descent goes: block `p` of the level below, by the digits of the index. */
  lemma NextStep(s: Store, l: Levels, j: nat, inner: nat, at: nat) returns (p: nat)
    requires Linked(s, l) && l.NonZero() && l.Shaped() && l.Up? && l.down.Up? && j < |l.ids|
    requires inner < Span(l.Rank()) && at == Span(l.Rank()) * j + inner < |l.Data()|
    ensures l.ids[j] in s && s[l.ids[j]].Index? && |s[l.ids[j]].entries| == INDIRECT_LEN && s[l.ids[j]].level != BlockTable
    ensures var q, offset := Slot(s[l.ids[j]].level, inner), Offset(s[l.ids[j]].level, inner);
            && q < INDIRECT_LEN && p < |l.down.ids| && s[l.ids[j]].entries[q] == l.down.ids[p]
            && offset < Span(l.down.Rank()) && at == Span(l.down.Rank()) * p + offset
    ensures l.down.Shaped() && |l.down.Data()| == |l.Data()| && l.down.Data() == l.Data()
  {
    UpParts(s, l);
    HeightIs(s, l, j);
    RankUp(l);
    hide Linked, Levels.Shaped, Levels.Data, Levels.NonZero, Slot, Offset, Divisor, Levels.Rank;
    var r := l.Rank();
    var d := Span(r - 1);
    SlotIs(r, inner);
    SpanPositive(r - 1);
    Digits(inner, d, j);
    p := INDIRECT_LEN * j + inner / d;
    InReach(l.down, p, inner % d);
    EntryOf(s, l, j, inner / d);
  }

  /** IndirectBlock::get_block_id of block `j` of a level, of which the caller holds a handle. */
  method LookupHeld(cm: CacheManager, id: nat, inner: nat, ghost l: Levels, ghost j: nat, ghost at: nat) returns (r: nat)
    requires cm.Valid() && Placed(cm.view, l) && l.Shaped() && l.Up? && j < |l.ids| && id == l.ids[j]
    requires inner < Span(l.Rank()) && at == Span(l.Rank()) * j + inner < |l.Data()|
    requires id in cm.pins && NoneHeld(cm.pins, l.down.Index())
    requires |cm.pins| + l.Rank() <= CACHE_SIZE
    modifies cm
    ensures cm.Valid() && cm.view == old(cm.view) && cm.pins == old(cm.pins)
    ensures cm.peak <= Peak(old(cm.peak), |cm.pins| + l.Rank() - 1)
    ensures r == l.Data()[at]
    decreases l
  {
    hide *;
    ghost var s, held := cm.view, cm.pins;
    PlacedParts(s, l);
    UpParts(s, l);
    var block := cm.Peek(id);
    HeightIs(s, l, j);
    if block.level == BlockTable {
      LastStep(s, l, j, inner, at);
      r := block.entries[inner];
    } else {
      RankUp(l);
      var q, offset := Slot(block.level, inner), Offset(block.level, inner);
      ghost var p := NextStep(s, l, j, inner, at);
      var child := block.entries[q];
      PlacedDown(s, l, held, p, Shared(1));
      PinUnpin(held, child, Shared(1));
      cm.Open(child, false);
      r := LookupHeld(cm, child, offset, l.down, p, at);
      cm.Close(child);
    }
  }

  lemma CountedData(size: nat, idx: seq<nat>, dat: seq<nat>)
    requires Counted(size, idx, dat)
    ensures |dat| == DataBlocks(size)
  {
  }

  lemma DirectEntry(m: Meta, dat: seq<nat>, i: nat)
    requires m.direct == Pad(dat, DIRECT_COUNT) && i < DIRECT_COUNT && i < |dat|
    ensures |m.direct| == DIRECT_COUNT && m.direct[i] == dat[i]
  {
  }

  lemma FromRoot(s: Store, m: Meta, idx: seq<nat>, dat: seq<nat>, i: nat)
    requires Built(s, m, idx, dat) && DIRECT_COUNT <= i < |dat| && Distinct(idx)
    ensures var l, inner := LevelsOf(m.size, idx, dat), i - DIRECT_COUNT;
            && Linked(s, l) && l.NonZero() && l.Shaped() && l.Up? && l.ids == [m.indirect] && l.Index() == idx
            && inner < Span(l.Rank()) && inner < |l.Data()| && l.Data()[inner] == dat[i]
            && Span(l.Rank()) * 0 + inner == inner
  {
    LevelsShape(m.size, idx, dat);
    var l := LevelsOf(m.size, idx, dat);
    hide LevelsOf, Levels.Shaped, Levels.Index, Levels.Data, Levels.NonZero, Linked;
    DataFitsSpan(l);
  }

  /** Meta::get_block_id of a built inode: the id of data block `i`, None past the last, at most four handles held. */
  method GetBlockIdOf(cm: CacheManager, m: Meta, i: nat, ghost idx: seq<nat>, ghost dat: seq<nat>) returns (r: Option<nat>)
    requires cm.Valid() && Built(cm.view, m, idx, dat) && Distinct(idx) && NoneHeld(cm.pins, idx)
    requires |cm.pins| + 5 <= CACHE_SIZE
    modifies cm
    ensures cm.Valid() && cm.view == old(cm.view) && cm.pins == old(cm.pins)
    ensures cm.peak <= Peak(old(cm.peak), |cm.pins| + 4)
    ensures r == if i < |dat| then Some(dat[i]) else None
    ensures Findable(cm.view, m, i) && r == GetBlockId(cm.view, m, i)
  {
    hide *;
    LookupOfBuilt(cm.view, m, idx, dat, i);
    BuiltParts(cm.view, m, idx, dat);
    CountedData(m.size, idx, dat);
    if DataBlocks(m.size) <= i {
      r := None;
    } else if i < DIRECT_COUNT {
      DirectEntry(m, dat, i);
      r := Some(m.direct[i]);
    } else {
      ghost var l, held := LevelsOf(m.size, idx, dat), cm.pins;
      FromRoot(cm.view, m, idx, dat, i);
      HoldRoot(cm.view, l, held);
      PinUnpin(held, m.indirect, Shared(1));
      RootHeightOf(cm.view, l);
      cm.Open(m.indirect, false);
      var id := LookupHeld(cm, m.indirect, i - DIRECT_COUNT, l, 0, i - DIRECT_COUNT);
      cm.Close(m.indirect);
      r := Some(id);
    }
  }

  // ---------------------------------------------------------------------------
  // forward
  // ---------------------------------------------------------------------------

  /** One of the loops of `forward`: each block of a level takes the next entries of the level below. */
  method WriteLevel(cm: CacheManager, up: seq<nat>, down: seq<nat>, t: IndirectBlockType)
    requires cm.Valid() && Elements(up) <= cm.view.Keys && NoneHeld(cm.pins, up) && |cm.pins| < CACHE_SIZE
    modifies cm
    ensures cm.Valid() && cm.pins == old(cm.pins) && cm.peak <= Peak(old(cm.peak), |cm.pins| + 1)
    ensures cm.view == PutLevel(old(cm.view), up, down, t, |up|) && cm.view.Keys == old(cm.view).Keys
  {
    hide Coherent;
    var next := 0;
    for j := 0 to |up|
      invariant cm.Valid() && cm.pins == old(cm.pins) && cm.peak <= Peak(old(cm.peak), |cm.pins| + 1)
      invariant next == INDIRECT_LEN * j
      invariant cm.view == PutLevel(old(cm.view), up, down, t, j) && cm.view.Keys == old(cm.view).Keys
    {
      assert up[j] in Elements(up) && up[j] in up;
      var entries := Pad(down[Min(next, |down|)..], INDIRECT_LEN);
      cm.Modify(up[j], Index(entries, t));
      next := next + INDIRECT_LEN;
    }
  }

  lemma PutUp(s: Store, ids: seq<nat>, d: Levels)
    requires d.Rank() <= 3
    ensures PutLevels(s, Up(ids, d)) == PutLevels(PutLevel(s, ids, d.ids, TypeAt(d.Rank() + 1), |ids|), d)
  {
  }

  /** Empty levels above the root write nothing. */
  lemma {:induction false} DealAbove(s: Store, h: nat, k: nat, info: LevelInfo, idx: seq<nat>, data: seq<nat>)
    requires h <= k <= 4 && forall i :: h < i <= 4 ==> LevelCount(info, i) == 0
    ensures Deal(h, info, idx, data).Rank() == h && Deal(k, info, idx, data).Rank() == k
    ensures PutLevels(s, Deal(k, info, idx, data)) == PutLevels(s, Deal(h, info, idx, data))
  {
    hide PutLevels;
    RankOfDeal(h, info, idx, data);
    RankOfDeal(k, info, idx, data);
    if k <= h {
    } else {
      DealAbove(s, h, k - 1, info, idx, data);
      var d := Deal(k - 1, info, idx, data);
      assert LevelCount(info, k) == 0;
      assert idx[0..] == idx && idx[..0] == [];
      assert Deal(k, info, idx, data) == Up([], d);
      PutUp(s, [], d);
    }
  }

  lemma DealParts(k: nat, info: LevelInfo, idx: seq<nat>, p: nat, q: nat, data: seq<nat>)
    requires 1 <= k <= 4 && p <= q <= |idx| && q - p == LevelCount(info, k)
    ensures Deal(k, info, idx[p..], data) == Up(idx[p..q], Deal(k - 1, info, idx[q..], data))
  {
    assert idx[p..][..q - p] == idx[p..q];
    assert idx[p..][q - p..] == idx[q..];
  }

  /** The store after the four loops of `forward`. */
  function FourLevels(s: Store, l4: seq<nat>, l3: seq<nat>, l2: seq<nat>, l1: seq<nat>, data: seq<nat>): Store {
    var s4 := PutLevel(s, l4, l3, L4, |l4|);
    var s3 := PutLevel(s4, l3, l2, L3, |l3|);
    var s2 := PutLevel(s3, l2, l1, BlockDirectory, |l2|);
    PutLevel(s2, l1, data, BlockTable, |l1|)
  }

  lemma FourPuts(s: Store, l4: seq<nat>, l3: seq<nat>, l2: seq<nat>, l1: seq<nat>, data: seq<nat>)
    ensures var l := Up(l4, Up(l3, Up(l2, Up(l1, Leaf(data)))));
            l.Rank() == 4 && PutLevels(s, l) == FourLevels(s, l4, l3, l2, l1, data)
  {
    var d1 := Up(l1, Leaf(data));
    var d2 := Up(l2, d1);
    var d3 := Up(l3, d2);
    assert d1.Rank() == 1 && d2.Rank() == 2 && d3.Rank() == 3;
    hide PutLevel;
    var s4 := PutLevel(s, l4, l3, L4, |l4|);
    var s3 := PutLevel(s4, l3, l2, L3, |l3|);
    var s2 := PutLevel(s3, l2, l1, BlockDirectory, |l2|);
    PutUp(s, l4, d3);
    PutUp(s4, l3, d2);
    PutUp(s3, l2, d1);
    PutUp(s2, l1, Leaf(data));
  }

  lemma DealNone(info: LevelInfo, idx: seq<nat>, data: seq<nat>)
    ensures Deal(0, info, idx, data) == Leaf(data)
  {
  }

  /** The slices of the index ids that `forward` takes for each level. */
  lemma DealFour(info: LevelInfo, idx: seq<nat>, data: seq<nat>)
    requires |idx| == IndexBlockCount(info)
    ensures var a := info.l4;
            var b := a + info.l3;
            var c := b + info.blockDirectory;
            Deal(4, info, idx, data) == Up(idx[..a], Up(idx[a..b], Up(idx[b..c], Up(idx[c..], Leaf(data)))))
  {
    hide Deal;
    var a := info.l4;
    var b := a + info.l3;
    var c := b + info.blockDirectory;
    DealParts(4, info, idx, 0, a, data);
    DealParts(3, info, idx, a, b, data);
    DealParts(2, info, idx, b, c, data);
    DealParts(1, info, idx, c, |idx|, data);
    DealNone(info, idx[|idx|..], data);
    assert idx[0..] == idx;
  }

  lemma ForwardByLevel(s: Store, size: nat, idx: seq<nat>, dat: seq<nat>)
    ensures var l := Deal(RootHeight(IndexBlocks(size)), IndexBlocks(size), idx, PastDirect(dat));
            l.Rank() <= 4 && ForwardStore(s, size, idx, dat) == PutLevels(s, l)
  {
    RankOfDeal(RootHeight(IndexBlocks(size)), IndexBlocks(size), idx, PastDirect(dat));
  }

  lemma HeightAtMostFour(info: LevelInfo)
    ensures RootHeight(info) <= 4
  {
  }

  lemma IndexCountParts(info: LevelInfo)
    ensures IndexBlockCount(info) == info.l4 + info.l3 + info.blockDirectory + info.blockTable
  {
  }

  /** The four loops of `forward`, one after the other, write the levels. */
  lemma FourLoops(s: Store, size: nat, idx: seq<nat>, dat: seq<nat>)
    requires size <= L4_MAX && |idx| == IndexBlockCount(IndexBlocks(size))
    ensures var info := IndexBlocks(size);
            var a := info.l4;
            var b := a + info.l3;
            var c := b + info.blockDirectory;
            ForwardStore(s, size, idx, dat) == FourLevels(s, idx[..a], idx[a..b], idx[b..c], idx[c..], PastDirect(dat))
  {
    hide *;
    LevelCounts(size);
    var info, data := IndexBlocks(size), PastDirect(dat);
    ForwardByLevel(s, size, idx, dat);
    HeightAtMostFour(info);
    IndexCountParts(info);
    DealAbove(s, RootHeight(info), 4, info, idx, data);
    DealFour(info, idx, data);
    var a := info.l4;
    var b := a + info.l3;
    var c := b + info.blockDirectory;
    FourPuts(s, idx[..a], idx[a..b], idx[b..c], idx[c..], data);
  }

  /** The topmost level in use holds exactly one block, whose id comes first. */
  lemma OneRoot(size: nat)
    requires DIRECT_MAX < size <= L4_MAX
    ensures var info := IndexBlocks(size);
            || info.l4 == 1
            || (info.l4 == 0 && (|| info.l3 == 1
                                 || (info.l3 == 0 && (|| info.blockDirectory == 1
                                                      || (info.blockDirectory == 0 && info.blockTable == 1)))))
  {
    LevelCounts(size);
    IndirectBlocksAsCeiling(size);
    hide IndexBlocks, CeilDiv, IndirectBlocks;
    var info := IndexBlocks(size);
    assert LevelCount(info, 4) == info.l4 && LevelCount(info, 3) == info.l3;
    assert LevelCount(info, 2) == info.blockDirectory && LevelCount(info, 1) == info.blockTable;
  }

  lemma NoIndex(s: Store, size: nat, dat: seq<nat>)
    requires size <= DIRECT_MAX
    ensures IndexBlockCount(IndexBlocks(size)) == 0
    ensures ForwardStore(s, size, [], dat) == s
  {
  }

  lemma OneBlock(s: Store, l4: seq<nat>, l3: seq<nat>)
    requires |l4| == 1
    ensures PutLevel(s, l4, l3, L4, 1) == s[l4[0] := Index(Pad(l3, INDIRECT_LEN), L4)]
  {
    assert l3[0..] == l3;
    assert PutLevel(s, l4, l3, L4, 0) == s;
  }

  lemma NoBlock(s: Store, l4: seq<nat>, l3: seq<nat>)
    requires l4 == []
    ensures PutLevel(s, l4, l3, L4, 0) == s
  {
  }

  /** The index writes of `forward`. */
  method WriteIndex(cm: CacheManager, l4: seq<nat>, l3: seq<nat>, l2: seq<nat>, l1: seq<nat>, data: seq<nat>)
    requires cm.Valid() && |l4| <= 1 && |cm.pins| < CACHE_SIZE
    requires Elements(l4) <= cm.view.Keys && Elements(l3) <= cm.view.Keys
    requires Elements(l2) <= cm.view.Keys && Elements(l1) <= cm.view.Keys
    requires NoneHeld(cm.pins, l4) && NoneHeld(cm.pins, l3) && NoneHeld(cm.pins, l2) && NoneHeld(cm.pins, l1)
    modifies cm
    ensures cm.Valid() && cm.pins == old(cm.pins) && cm.peak <= Peak(old(cm.peak), |cm.pins| + 1)
    ensures cm.view == FourLevels(old(cm.view), l4, l3, l2, l1, data) && cm.view.Keys == old(cm.view).Keys
  {
    hide Coherent, PutLevel;
    if l4 != [] {
      assert l4[0] in Elements(l4);
      OneBlock(cm.view, l4, l3);
      cm.Modify(l4[0], Index(Pad(l3, INDIRECT_LEN), L4));
    } else {
      NoBlock(cm.view, l4, l3);
    }
    WriteLevel(cm, l3, l2, L3);
    WriteLevel(cm, l2, l1, BlockDirectory);
    WriteLevel(cm, l1, data, BlockTable);
  }

  lemma SlicesOf(pins: map<nat, Pin>, idx: seq<nat>, a: nat, b: nat, c: nat)
    requires a <= b <= c <= |idx| && NoneHeld(pins, idx)
    ensures NoneHeld(pins, idx[..a]) && NoneHeld(pins, idx[a..b]) && NoneHeld(pins, idx[b..c]) && NoneHeld(pins, idx[c..])
    ensures Elements(idx[..a]) <= Elements(idx) && Elements(idx[a..b]) <= Elements(idx)
    ensures Elements(idx[b..c]) <= Elements(idx) && Elements(idx[c..]) <= Elements(idx)
  {
  }

  /** The branch of `forward` for a file with index blocks; yields the root. */
  method WriteTree(cm: CacheManager, size: nat, info: LevelInfo, idx: seq<nat>, dat: seq<nat>) returns (root: nat)
    requires cm.Valid() && DIRECT_MAX < size <= L4_MAX && info == IndexBlocks(size) && |idx| == IndexBlockCount(info)
    requires Elements(idx) <= cm.view.Keys && NoneHeld(cm.pins, idx) && |cm.pins| < CACHE_SIZE
    modifies cm
    ensures cm.Valid() && cm.pins == old(cm.pins) && cm.peak <= Peak(old(cm.peak), |cm.pins| + 1)
    ensures cm.view == ForwardStore(old(cm.view), size, idx, dat) && cm.view.Keys == old(cm.view).Keys
    ensures idx != [] && root == idx[0]
  {
    hide *;
    FourLoops(cm.view, size, idx, dat);
    OneRoot(size);
    IndexCountParts(info);
    var a := info.l4;
    var b := a + info.l3;
    var c := b + info.blockDirectory;
    SlicesOf(cm.pins, idx, a, b, c);
    WriteIndex(cm, idx[..a], idx[a..b], idx[b..c], idx[c..], PastDirect(dat));
    if info.l4 == 1 {
      root := idx[..a][0];
    } else if info.l3 == 1 {
      root := idx[a..b][0];
    } else if info.blockDirectory == 1 {
      root := idx[b..c][0];
    } else {
      root := idx[c..][0];
    }
  }

  /** Meta::forward */
  method Forward(cm: CacheManager, m: Meta, info: LevelInfo, idx: seq<nat>, dat: seq<nat>) returns (m': Meta)
    requires cm.Valid() && info == IndexBlocks(m.size) && Counted(m.size, idx, dat) && Distinct(idx)
    requires Elements(idx) <= cm.view.Keys && NoneHeld(cm.pins, idx) && |cm.pins| < CACHE_SIZE
    modifies cm
    ensures cm.Valid() && cm.pins == old(cm.pins) && cm.peak <= Peak(old(cm.peak), |cm.pins| + 1)
    ensures cm.view == ForwardStore(old(cm.view), m.size, idx, dat) && cm.view.Keys == old(cm.view).Keys
    ensures m' == ForwardMeta(m, idx, dat)
  {
    hide Coherent, IndexBlocks, ForwardStore, IndexBlockCount, NoneHeld, Distinct;
    m' := m.(direct := Pad(dat, DIRECT_COUNT));
    var indirectSize := if m.size >= DIRECT_MAX then m.size - DIRECT_MAX else 0;
    if indirectSize != 0 {
      var root := WriteTree(cm, m.size, info, idx, dat);
      m' := m'.(indirect := root);
    } else {
      NoIndex(cm.view, m.size, dat);
      m' := m'.(indirect := 0);
    }
  }

  // ---------------------------------------------------------------------------
  // extend, shrink, clear_size
  // ---------------------------------------------------------------------------

  /** The lists handed to `forward` by `extend`. */
  lemma ExtendLists(x: Indexed, newSize: nat, data: seq<nat>, index: seq<nat>, pins: map<nat, Pin>)
    requires x.Valid() && Extendable(x, newSize, data, index) && NoneHeld(pins, x.idx) && NoneHeld(pins, index)
    ensures Readable(x.store, x.meta) && Distinct(x.idx) && Built(x.store, x.meta, x.idx, x.dat)
    ensures var y := Extend(x, newSize, data, index);
            && y.idx == Sort(x.idx) + index && y.dat == x.dat + data
            && y.store == ForwardStore(x.store, newSize, y.idx, y.dat)
            && y.meta == ForwardMeta(x.meta.(size := newSize), y.idx, y.dat)
            && Counted(newSize, y.idx, y.dat) && Distinct(y.idx)
            && Elements(y.idx) <= x.store.Keys && NoneHeld(pins, y.idx)
  {
    DistinctConcat(x.idx, x.dat);
    ExtendKeeps(x, newSize, data, index);
    BlocksOfBuilt(x.store, x.meta, x.idx, x.dat);
    hide Blocks, Readable, ForwardStore, Linked, LevelsOf, IndexBlocks, DataBlocks;
    var y := Extend(x, newSize, data, index);
    DistinctConcat(y.idx, y.dat);
    SameMembers(Sort(x.idx), multiset(x.idx));
    SameMembers(x.idx, multiset(x.idx));
    assert Elements(y.idx) <= Elements(y.Owned());
  }

  /** Meta::extend */
  method ExtendMeta(cm: CacheManager, m: Meta, newSize: nat, info: LevelInfo, data: seq<nat>, index: seq<nat>,
                    ghost idx: seq<nat>, ghost dat: seq<nat>) returns (m': Meta)
    requires cm.Valid() && |cm.pins| + 5 <= CACHE_SIZE && info == IndexBlocks(newSize)
    requires var x := Indexed(cm.view, m, idx, dat); x.Valid() && Extendable(x, newSize, data, index)
    requires NoneHeld(cm.pins, idx) && NoneHeld(cm.pins, index)
    modifies cm
    ensures cm.Valid() && cm.pins == old(cm.pins) && cm.peak <= Peak(old(cm.peak), |cm.pins| + 4)
    ensures Readable(old(cm.view), m)
    ensures var y := Extend(Indexed(old(cm.view), m, idx, dat), newSize, data, index);
            cm.view == y.store && m' == y.meta
  {
    hide *;
    ExtendLists(Indexed(cm.view, m, idx, dat), newSize, data, index, cm.pins);
    var ids := BlocksOf(cm, m, idx, dat);
    m' := m.(size := newSize);
    m' := Forward(cm, m', info, ids.index + index, ids.data + data);
  }

  lemma PoppedStep(s: seq<nat>, n: nat)
    requires n <= |s|
    ensures n == 0 ==> Popped(s, n) == []
    ensures n > 0 ==> Popped(s, n) == [s[|s| - 1]] + Popped(s[..|s| - 1], n - 1)
  {
  }

  /** The `pop` loops of `shrink`. */
  method Pop(s: seq<nat>, n: nat) returns (kept: seq<nat>, popped: seq<nat>)
    requires n <= |s|
    ensures kept == s[..|s| - n] && popped == Popped(s, n)
  {
    hide *;
    kept, popped := s, [];
    for i := 0 to n
      invariant kept == s[..|s| - i]
      invariant popped + Popped(kept, n - i) == Popped(s, n)
    {
      PoppedStep(kept, n - i);
      popped := popped + [kept[|kept| - 1]];
      kept := kept[..|kept| - 1];
    }
    PoppedStep(kept, 0);
  }

  lemma ShrinkIs(x: Indexed, newSize: nat, index: seq<nat>, data: seq<nat>)
    requires Shrinkable(x, newSize) && Blocks(x.store, x.meta) == Ids(index, data)
    ensures IndexDelta(newSize, x.meta.size) <= |index| && DataDelta(newSize, x.meta.size) <= |data|
    ensures var y := Shrink(x, newSize).after;
            var ni, nd := IndexDelta(newSize, x.meta.size), DataDelta(newSize, x.meta.size);
            && y.idx == index[..|index| - ni] && y.dat == data[..|data| - nd]
            && Shrink(x, newSize).freed == Ids(Popped(index, ni), Popped(data, nd))
            && y.store == ForwardStore(x.store, newSize, y.idx, y.dat)
            && y.meta == ForwardMeta(x.meta.(size := newSize), y.idx, y.dat)
  {
    hide Popped, Blocks, Readable, IndexBlocks, DataBlocks, ForwardStore;
  }

  lemma IndexPart(x: Indexed)
    requires x.Valid()
    ensures Distinct(x.idx) && Built(x.store, x.meta, x.idx, x.dat) && Elements(x.idx) <= x.store.Keys
    ensures Counted(x.meta.size, x.idx, x.dat)
  {
    DistinctConcat(x.idx, x.dat);
    assert Elements(x.idx) <= Elements(x.Owned());
  }

  lemma HeldPart(pins: map<nat, Pin>, idx: seq<nat>, n: nat)
    requires NoneHeld(pins, idx) && n <= |Sort(idx)|
    ensures NoneHeld(pins, Sort(idx)[..n])
  {
    SameMembers(Sort(idx), multiset(idx));
    SameMembers(idx, multiset(idx));
  }

  lemma SameKeys(s: Store, s': Store, touched: seq<nat>)
    requires OnlyTouches(s, s', touched)
    ensures s'.Keys == s.Keys
  {
  }

  lemma ShrinkLists(x: Indexed, newSize: nat, pins: map<nat, Pin>)
    requires x.Valid() && newSize <= x.meta.size && NoneHeld(pins, x.idx)
    ensures Shrinkable(x, newSize) && Distinct(x.idx) && Built(x.store, x.meta, x.idx, x.dat)
    ensures IndexDelta(newSize, x.meta.size) <= |Sort(x.idx)| && DataDelta(newSize, x.meta.size) <= |x.dat|
    ensures var y := Shrink(x, newSize).after;
            var ni, nd := IndexDelta(newSize, x.meta.size), DataDelta(newSize, x.meta.size);
            && y.idx == Sort(x.idx)[..|Sort(x.idx)| - ni] && y.dat == x.dat[..|x.dat| - nd]
            && Shrink(x, newSize).freed == Ids(Popped(Sort(x.idx), ni), Popped(x.dat, nd))
            && y.store == ForwardStore(x.store, newSize, y.idx, y.dat)
            && y.meta == ForwardMeta(x.meta.(size := newSize), y.idx, y.dat)
            && Counted(newSize, y.idx, y.dat) && Distinct(y.idx)
            && Elements(y.idx) <= x.store.Keys && NoneHeld(pins, y.idx)
  {
    hide *;
    IndexPart(x);
    ShrinkKeeps(x, newSize);
    BlocksOfBuilt(x.store, x.meta, x.idx, x.dat);
    ShrinkIs(x, newSize, Sort(x.idx), x.dat);
    var y := Shrink(x, newSize).after;
    IndexPart(y);
    HeldPart(pins, x.idx, |y.idx|);
    SameKeys(x.store, y.store, y.idx);
  }

  /** Meta::shrink, which also returns the ids that are no longer used. */
  method ShrinkMeta(cm: CacheManager, m: Meta, newSize: nat, ghost idx: seq<nat>, ghost dat: seq<nat>)
    returns (m': Meta, freed: Ids)
    requires cm.Valid() && |cm.pins| + 5 <= CACHE_SIZE
    requires Indexed(cm.view, m, idx, dat).Valid() && newSize <= m.size
    requires NoneHeld(cm.pins, idx)
    modifies cm
    ensures cm.Valid() && cm.pins == old(cm.pins) && cm.peak <= Peak(old(cm.peak), |cm.pins| + 4)
    ensures Shrinkable(Indexed(old(cm.view), m, idx, dat), newSize)
    ensures var y := Shrink(Indexed(old(cm.view), m, idx, dat), newSize);
            cm.view == y.after.store && m' == y.after.meta && freed == y.freed
  {
    hide *;
    ghost var x := Indexed(cm.view, m, idx, dat);
    ShrinkLists(x, newSize, cm.pins);
    var ids := BlocksOf(cm, m, idx, dat);
    var index, freedIndex := Pop(ids.index, IndexDelta(newSize, m.size));
    var data, freedData := Pop(ids.data, DataDelta(newSize, m.size));
    freed := Ids(freedIndex, freedData);
    m' := m.(size := newSize);
    m' := Forward(cm, m', IndexBlocks(newSize), index, data);
  }

  lemma FreshFields(kind: InodeType, name: seq<byte>)
    ensures FreshMeta(kind, name).kind == kind && FreshMeta(kind, name).name == name
  {
  }

  /** Meta::clear_size: the inode becomes a new one and every block it owned is returned once. */
  method ClearSize(cm: CacheManager, m: Meta, ghost idx: seq<nat>, ghost dat: seq<nat>)
    returns (m': Meta, ids: seq<nat>)
    requires cm.Valid() && |cm.pins| + 5 <= CACHE_SIZE
    requires Built(cm.view, m, idx, dat) && Distinct(idx) && NoneHeld(cm.pins, idx)
    modifies cm
    ensures cm.Valid() && cm.view == old(cm.view) && cm.pins == old(cm.pins)
    ensures Indexed(cm.view, m', [], []).Valid() && m'.kind == m.kind && m'.name == m.name
    ensures multiset(ids) == multiset(idx + dat)
  {
    hide *;
    var found := BlocksOf(cm, m, idx, dat);
    m' := FreshMeta(m.kind, m.name);
    FreshIsValid(cm.view, m.kind, m.name);
    FreshFields(m.kind, m.name);
    ids := found.index + found.data;
  }
}
