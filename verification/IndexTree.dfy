/**
 * The index tree of an inode: building it from flat id lists (`forward`), flattening it back
 * (`blocks`) and radix lookup in it (`get_block_id`), all over a store of typed blocks.
 */
module IndexTree {
  import opened Prelude
  import opened Layout
  import opened Sequences

  /** Index block ids and data block ids. */
  datatype Ids = Ids(index: seq<nat>, data: seq<nat>)

  // ---------------------------------------------------------------------------
  // Reading a tree
  // ---------------------------------------------------------------------------

  /** `id` is an index block of height `h` and each nonzero entry above the leaves is one of height `h - 1`. */
  ghost predicate Tree(s: Store, id: nat, h: nat)
    decreases h
  {
    && id in s && s[id].Index? && Height(s[id].level) == h
    && |s[id].entries| == INDIRECT_LEN
    && (h > 1 ==>
          forall j :: 0 <= j < INDIRECT_LEN && s[id].entries[j] != 0 ==> Tree(s, s[id].entries[j], h - 1))
  }

  /** What `_to_vec` pushes for the entries of block `id` from position `j` on. */
  ghost function ToVecFrom(s: Store, id: nat, h: nat, j: nat): Ids
    requires Tree(s, id, h) && j <= INDIRECT_LEN
    decreases h, INDIRECT_LEN - j
  {
    if j == INDIRECT_LEN then
      Ids([], [])
    else
      var e := s[id].entries[j];
      var rest := ToVecFrom(s, id, h, j + 1);
      if e == 0 then
        rest
      else if s[id].level == BlockTable then
        Ids(rest.index, [e] + rest.data)
      else
        var sub := ToVecFrom(s, e, h - 1, 0);
        Ids([e] + sub.index + rest.index, sub.data + rest.data)
  }

  ghost function ToVec(s: Store, id: nat): Ids
    requires id in s && s[id].Index? && Tree(s, id, Height(s[id].level))
  {
    ToVecFrom(s, id, Height(s[id].level), 0)
  }

  /** The ids of a table that are in use. */
  function NonZero(entries: seq<nat>): seq<nat> {
    if entries == [] then []
    else (if entries[0] != 0 then [entries[0]] else []) + NonZero(entries[1..])
  }

  ghost predicate Readable(s: Store, m: Meta) {
    m.indirect != 0 ==>
      m.indirect in s && s[m.indirect].Index? && Tree(s, m.indirect, Height(s[m.indirect].level))
  }

  /** Meta::blocks */
  ghost function Blocks(s: Store, m: Meta): Ids
    requires Readable(s, m)
  {
    if m.indirect == 0 then
      Ids([], NonZero(m.direct))
    else
      var ids := ToVec(s, m.indirect);
      Ids(Sort([m.indirect] + ids.index), NonZero(m.direct) + ids.data)
  }

  /** Data blocks below one entry of an index block of this type. */
  function Divisor(t: IndirectBlockType): nat
    requires t != BlockTable
  {
    match t
    case BlockDirectory => INDIRECT_LEN
    case L3 => INDIRECT_LEN * INDIRECT_LEN
    case L4 => INDIRECT_LEN * INDIRECT_LEN * INDIRECT_LEN
  }

  /** The entry of an index block that leads to data block `inner`. */
  function Slot(t: IndirectBlockType, inner: nat): nat
    requires t != BlockTable
  {
    inner / Divisor(t)
  }

  /** The position of data block `inner` below that entry. */
  function Offset(t: IndirectBlockType, inner: nat): nat
    requires t != BlockTable
  {
    inner % Divisor(t)
  }

  /** Every block the radix lookup of `inner` visits is an index block of the right height. */
  ghost predicate Path(s: Store, id: nat, h: nat, inner: nat)
    decreases h
  {
    && id in s && s[id].Index? && Height(s[id].level) == h && |s[id].entries| == INDIRECT_LEN
    && if s[id].level == BlockTable then
         inner < INDIRECT_LEN
       else
         var q := Slot(s[id].level, inner);
         q < INDIRECT_LEN && Path(s, s[id].entries[q], h - 1, Offset(s[id].level, inner))
  }

  /** IndirectBlock::get_block_id */
  ghost function Lookup(s: Store, id: nat, h: nat, inner: nat): nat
    requires Path(s, id, h, inner)
    decreases h
  {
    if s[id].level == BlockTable then
      s[id].entries[inner]
    else
      Lookup(s, s[id].entries[Slot(s[id].level, inner)], h - 1, Offset(s[id].level, inner))
  }

  /** What `Meta::get_block_id` needs in order to run. */
  ghost predicate Findable(s: Store, m: Meta, i: nat) {
    && |m.direct| == DIRECT_COUNT
    && (DIRECT_COUNT <= i < DataBlocks(m.size) ==>
          && m.indirect in s && s[m.indirect].Index?
          && Path(s, m.indirect, Height(s[m.indirect].level), i - DIRECT_COUNT))
  }

  /** Meta::get_block_id */
  ghost function GetBlockId(s: Store, m: Meta, i: nat): Option<nat>
    requires Findable(s, m, i)
  {
    if DataBlocks(m.size) <= i then None
    else if i < DIRECT_COUNT then Some(m.direct[i])
    else Some(Lookup(s, m.indirect, Height(s[m.indirect].level), i - DIRECT_COUNT))
  }

  // ---------------------------------------------------------------------------
  // Levels: the ids of an index, level by level. `Leaf` holds the data ids past the direct table.
  // ---------------------------------------------------------------------------

  datatype Levels = Leaf(ids: seq<nat>) | Up(ids: seq<nat>, down: Levels)
  {
    function Rank(): nat {
      match this
      case Leaf(_) => 0
      case Up(_, d) => 1 + d.Rank()
    }

    /** First position of the level below that belongs to block `j` of this level. */
    function Cut(j: nat): (c: nat)
      requires Up?
      ensures c <= |down.ids|
    {
      Min(INDIRECT_LEN * j, |down.ids|)
    }

    /** The data ids. */
    function Data(): seq<nat> {
      match this
      case Leaf(ids) => ids
      case Up(_, d) => d.Data()
    }

    /** The index ids, root first. */
    function Index(): seq<nat> {
      match this
      case Leaf(_) => []
      case Up(ids, d) => ids + d.Index()
    }

    ghost predicate NonZero() {
      0 !in ids && (Up? ==> down.NonZero())
    }

    /** Each level has one block per `INDIRECT_LEN` entries of the level below. */
    ghost predicate Shaped() {
      Up? ==> |ids| == CeilDiv(|down.ids|, INDIRECT_LEN) && down.Shaped()
    }

    /** The data ids below the blocks `a .. b` of this level. */
    ghost function Leaves(a: nat, b: nat): seq<nat>
      requires a <= b <= |ids|
    {
      match this
      case Leaf(_) => ids[a..b]
      case Up(_, d) => d.Leaves(Cut(a), Cut(b))
    }

    /** The blocks `a .. b` of this level and all index blocks below them; nothing at the leaves. */
    ghost function Inner(a: nat, b: nat): multiset<nat>
      requires a <= b <= |ids|
    {
      match this
      case Leaf(_) => multiset{}
      case Up(_, d) => multiset(ids[a..b]) + d.Inner(Cut(a), Cut(b))
    }

    lemma {:induction false} SplitLeaves(a: nat, b: nat, c: nat)
      requires a <= b <= c <= |ids|
      ensures Leaves(a, c) == Leaves(a, b) + Leaves(b, c)
    {
      if Leaf? {
      } else {
        down.SplitLeaves(Cut(a), Cut(b), Cut(c));
      }
    }

    lemma {:induction false} SplitInner(a: nat, b: nat, c: nat)
      requires a <= b <= c <= |ids|
      ensures Inner(a, c) == Inner(a, b) + Inner(b, c)
    {
      if Leaf? {
      } else {
        assert ids[a..c] == ids[a..b] + ids[b..c];
        down.SplitInner(Cut(a), Cut(b), Cut(c));
      }
    }

    lemma {:induction false} EmptyRange(a: nat)
      requires a <= |ids|
      ensures Leaves(a, a) == [] && Inner(a, a) == multiset{}
    {
      if Leaf? {
      } else {
        down.EmptyRange(Cut(a));
      }
    }

    /** The whole of a level covers the whole of every level below. */
    lemma {:induction false} FullRange()
      requires Shaped()
      ensures Leaves(0, |ids|) == Data()
      ensures Inner(0, |ids|) == multiset(Index())
    {
      if Up? {
        assert Cut(|ids|) == |down.ids|;
        assert ids[0..|ids|] == ids;
        down.FullRange();
      } else {
        assert ids[0..|ids|] == ids;
      }
    }
  }

  /** The entries that block `j` of a level gets from the level below. */
  function Row(down: seq<nat>, j: nat): (r: seq<nat>)
    ensures |r| == INDIRECT_LEN
    ensures forall e :: 0 <= e < INDIRECT_LEN ==>
                          r[e] == if INDIRECT_LEN * j + e < |down| then down[INDIRECT_LEN * j + e] else 0
  {
    Pad(down[Min(INDIRECT_LEN * j, |down|)..], INDIRECT_LEN)
  }

  ghost predicate LevelBuilt(s: Store, up: seq<nat>, down: seq<nat>, t: IndirectBlockType) {
    forall j :: 0 <= j < |up| ==> up[j] in s && s[up[j]] == Index(Row(down, j), t)
  }

  /** The store holds the blocks of every level. */
  ghost predicate Linked(s: Store, l: Levels) {
    && l.Rank() <= 4
    && (l.Up? ==> LevelBuilt(s, l.ids, l.down.ids, TypeAt(l.Rank())) && Linked(s, l.down))
  }

  // ---------------------------------------------------------------------------
  // Flattening a built tree
  // ---------------------------------------------------------------------------

  lemma {:induction false} NodeIsTree(s: Store, l: Levels, j: nat)
    requires Linked(s, l) && l.Up? && j < |l.ids|
    ensures Tree(s, l.ids[j], l.Rank())
    decreases l
  {
    var id := l.ids[j];
    assert s[id] == Index(Row(l.down.ids, j), TypeAt(l.Rank()));
    if l.down.Leaf? {
    } else {
      forall e | 0 <= e < INDIRECT_LEN && s[id].entries[e] != 0
        ensures Tree(s, s[id].entries[e], l.down.Rank())
      {
        NodeIsTree(s, l.down, INDIRECT_LEN * j + e);
      }
    }
  }

  /** One step of `_to_vec`: entry `e` of block `j`, then the entries after it. */
  lemma StepRow(s: Store, l: Levels, j: nat, e: nat)
    requires Linked(s, l) && l.NonZero() && l.Up? && j < |l.ids| && e < INDIRECT_LEN
    requires Tree(s, l.ids[j], l.Rank())
    ensures Linked(s, l.down) && l.down.NonZero()
    ensures var p := INDIRECT_LEN * j + e;
            var here, rest := ToVecFrom(s, l.ids[j], l.Rank(), e), ToVecFrom(s, l.ids[j], l.Rank(), e + 1);
            if p >= |l.down.ids| then
              here == rest
            else if l.down.Leaf? then
              here == Ids(rest.index, [l.down.ids[p]] + rest.data)
            else
              && Tree(s, l.down.ids[p], l.down.Rank())
              && var sub := ToVecFrom(s, l.down.ids[p], l.down.Rank(), 0);
                 here == Ids([l.down.ids[p]] + sub.index + rest.index, sub.data + rest.data)
  {
    var p := INDIRECT_LEN * j + e;
    assert s[l.ids[j]] == Index(Row(l.down.ids, j), TypeAt(l.Rank()));
    if p < |l.down.ids| {
      assert l.down.ids[p] in l.down.ids;
      if l.down.Up? { NodeIsTree(s, l.down, p); }
    }
  }

  lemma ToVecEnd(s: Store, id: nat, h: nat)
    requires Tree(s, id, h)
    ensures ToVecFrom(s, id, h, INDIRECT_LEN) == Ids([], [])
  {
  }

  lemma OneBlock(d: Levels, p: nat)
    requires p < |d.ids|
    ensures d.Leaf? ==> d.Leaves(p, p + 1) == [d.ids[p]] && d.Inner(p, p + 1) == multiset{}
    ensures d.Up? ==> d.Leaves(p, p + 1) == d.down.Leaves(d.Cut(p), d.Cut(p + 1))
    ensures d.Up? ==> d.Inner(p, p + 1) == multiset{d.ids[p]} + d.down.Inner(d.Cut(p), d.Cut(p + 1))
  {
    assert d.ids[p..p + 1] == [d.ids[p]];
  }

  /** What block `p` of a level contributes to the walk of its parent. */
  lemma {:induction false} WalkEntry(s: Store, d: Levels, p: nat)
    requires Linked(s, d) && d.NonZero() && p < |d.ids|
    ensures d.Leaf? ==> d.Leaves(p, p + 1) == [d.ids[p]] && d.Inner(p, p + 1) == multiset{}
    ensures d.Up? ==>
              && Tree(s, d.ids[p], d.Rank())
              && var sub := ToVecFrom(s, d.ids[p], d.Rank(), 0);
                 sub.data == d.Leaves(p, p + 1) && multiset([d.ids[p]] + sub.index) == d.Inner(p, p + 1)
    decreases d, INDIRECT_LEN + 1
  {
    hide Tree, ToVecFrom, Linked, Levels.Leaves, Levels.Inner, Levels.NonZero;
    OneBlock(d, p);
    if d.Leaf? {
    } else {
      NodeIsTree(s, d, p);
      WalkRow(s, d, p, 0);
    }
  }

  /** Walking block `j` of a level from entry `e` finds the ids that the level below holds there. */
  lemma {:induction false} WalkRow(s: Store, l: Levels, j: nat, e: nat)
    requires Linked(s, l) && l.NonZero() && l.Up? && j < |l.ids| && e <= INDIRECT_LEN
    requires Tree(s, l.ids[j], l.Rank())
    ensures var a, b := Min(INDIRECT_LEN * j + e, |l.down.ids|), l.Cut(j + 1);
            var got := ToVecFrom(s, l.ids[j], l.Rank(), e);
            got.data == l.down.Leaves(a, b) && multiset(got.index) == l.down.Inner(a, b)
    decreases l, INDIRECT_LEN - e
  {
    hide Linked, Tree, ToVecFrom, Levels.Leaves, Levels.Inner, Levels.NonZero;
    var p := INDIRECT_LEN * j + e;
    var a, b := Min(p, |l.down.ids|), l.Cut(j + 1);
    if e == INDIRECT_LEN {
      ToVecEnd(s, l.ids[j], l.Rank());
      l.down.EmptyRange(a);
    } else {
      StepRow(s, l, j, e);
      WalkRow(s, l, j, e + 1);
      var here, rest := ToVecFrom(s, l.ids[j], l.Rank(), e), ToVecFrom(s, l.ids[j], l.Rank(), e + 1);
      if p >= |l.down.ids| {
        assert here == rest;
      } else {
        WalkEntry(s, l.down, p);
        l.down.SplitLeaves(p, p + 1, b);
        l.down.SplitInner(p, p + 1, b);
        assert here.data == l.down.Leaves(p, p + 1) + rest.data;
        assert multiset(here.index) == l.down.Inner(p, p + 1) + multiset(rest.index);
      }
    }
  }

  lemma RootBlock(s: Store, l: Levels)
    requires Linked(s, l) && l.Up? && |l.ids| == 1
    ensures l.ids[0] in s && s[l.ids[0]].Index? && s[l.ids[0]].level == TypeAt(l.Rank())
    ensures Height(TypeAt(l.Rank())) == l.Rank()
  {
  }

  /** Flattening from the root of a shaped index yields all its data ids, in order, and all its index ids. */
  lemma WalkRoot(s: Store, l: Levels)
    requires Linked(s, l) && l.NonZero() && l.Shaped() && l.Up? && |l.ids| == 1
    ensures Tree(s, l.ids[0], l.Rank()) && s[l.ids[0]].level == TypeAt(l.Rank())
    ensures ToVec(s, l.ids[0]).data == l.Data()
    ensures multiset([l.ids[0]] + ToVec(s, l.ids[0]).index) == multiset(l.Index())
  {
    hide Linked, Tree, ToVecFrom, Levels.Leaves, Levels.Inner, Levels.NonZero, Levels.Shaped, Levels.Data, Levels.Index;
    RootBlock(s, l);
    WalkEntry(s, l, 0);
    l.FullRange();
  }

  // ---------------------------------------------------------------------------
  // What `forward` leaves in the store
  // ---------------------------------------------------------------------------

  /** `forward` deals the index ids out to the levels from the root down. */
  function Deal(h: nat, info: LevelInfo, idx: seq<nat>, data: seq<nat>): Levels
    requires h <= 4
  {
    if h == 0 then Leaf(data)
    else
      var n := Min(LevelCount(info, h), |idx|);
      Up(idx[..n], Deal(h - 1, info, idx[n..], data))
  }

  function PastDirect(dat: seq<nat>): seq<nat> {
    dat[Min(DIRECT_COUNT, |dat|)..]
  }

  function LevelsOf(size: nat, idx: seq<nat>, dat: seq<nat>): Levels {
    Deal(RootHeight(IndexBlocks(size)), IndexBlocks(size), idx, PastDirect(dat))
  }

  /** As many ids as a file of this size needs, none of them zero. */
  ghost predicate Counted(size: nat, idx: seq<nat>, dat: seq<nat>) {
    && size <= L4_MAX
    && |dat| == DataBlocks(size)
    && |idx| == IndexBlockCount(IndexBlocks(size))
    && 0 !in idx && 0 !in dat
  }

  /** The inode and the store hold exactly the index that `forward` builds from `idx` and `dat`. */
  ghost predicate Built(s: Store, m: Meta, idx: seq<nat>, dat: seq<nat>) {
    && Counted(m.size, idx, dat)
    && m.direct == Pad(dat, DIRECT_COUNT)
    && m.indirect == (if idx == [] then 0 else idx[0])
    && Linked(s, LevelsOf(m.size, idx, dat))
  }

  function CountUpTo(info: LevelInfo, h: nat): nat
    requires h <= 4
  {
    if h == 0 then 0 else LevelCount(info, h) + CountUpTo(info, h - 1)
  }

  lemma {:induction false} DealShape(h: nat, info: LevelInfo, idx: seq<nat>, data: seq<nat>)
    requires h <= 4 && |idx| == CountUpTo(info, h)
    requires h >= 1 ==> info.blockTable == CeilDiv(|data|, INDIRECT_LEN)
    requires forall k :: 2 <= k <= h ==> LevelCount(info, k) == CeilDiv(LevelCount(info, k - 1), INDIRECT_LEN)
    requires 0 !in idx && 0 !in data
    ensures var l := Deal(h, info, idx, data);
            && l.Rank() == h && l.Data() == data && l.Index() == idx
            && l.Shaped() && l.NonZero()
            && (h >= 1 ==> |l.ids| == LevelCount(info, h))
  {
    if h == 0 {
    } else {
      var n := LevelCount(info, h);
      assert idx == idx[..n] + idx[n..];
      DealShape(h - 1, info, idx[n..], data);
    }
  }

  lemma AllCounts(info: LevelInfo, h: nat)
    requires h <= 4 && forall k :: h < k <= 4 ==> LevelCount(info, k) == 0
    ensures CountUpTo(info, h) == IndexBlockCount(info)
  {
    assert h < 4 ==> LevelCount(info, 4) == 0;
    assert h < 3 ==> LevelCount(info, 3) == 0;
    assert h < 2 ==> LevelCount(info, 2) == 0;
    assert h < 1 ==> LevelCount(info, 1) == 0;
    assert CountUpTo(info, 1) == info.blockTable;
    assert CountUpTo(info, 2) == info.blockDirectory + CountUpTo(info, 1);
    assert CountUpTo(info, 3) == info.l3 + CountUpTo(info, 2);
    assert CountUpTo(info, 4) == info.l4 + CountUpTo(info, 3);
  }

  /** The levels of a counted index form a tree under a single root. */
  lemma LevelsShape(size: nat, idx: seq<nat>, dat: seq<nat>)
    requires Counted(size, idx, dat)
    ensures var l := LevelsOf(size, idx, dat);
            && l.Rank() <= 4 && l.Data() == PastDirect(dat) && l.Index() == idx && l.Shaped() && l.NonZero()
            && (l.Up? <==> idx != [])
            && (l.Up? <==> |dat| > DIRECT_COUNT)
            && (l.Up? ==> l.ids == [idx[0]])
  {
    LevelCounts(size);
    var info := IndexBlocks(size);
    var h := RootHeight(info);
    AllCounts(info, h);
    hide IndexBlocks, RootHeight, CeilDiv;
    DealShape(h, info, idx, PastDirect(dat));
    var l := LevelsOf(size, idx, dat);
    assert l.Up? ==> idx == l.ids + l.down.Index();
  }

  lemma {:induction false} NonZeroOfPad(s: seq<nat>, n: nat)
    requires 0 !in s
    ensures NonZero(Pad(s, n)) == s[..Min(n, |s|)]
    decreases n
  {
    if n == 0 {
    } else {
      var p := Pad(s, n);
      var rest := if s == [] then [] else s[1..];
      assert p[1..] == Pad(rest, n - 1);
      NonZeroOfPad(rest, n - 1);
      if s != [] {
        assert s[0] in s;
        assert s[..Min(n, |s|)] == [s[0]] + rest[..Min(n - 1, |rest|)];
      }
    }
  }

  lemma BuiltParts(s: Store, m: Meta, idx: seq<nat>, dat: seq<nat>)
    requires Built(s, m, idx, dat)
    ensures Counted(m.size, idx, dat) && Linked(s, LevelsOf(m.size, idx, dat))
    ensures m.direct == Pad(dat, DIRECT_COUNT) && (idx != [] ==> idx[0] != 0) && 0 !in dat
    ensures m.indirect == if idx == [] then 0 else idx[0]
  {
    assert idx != [] ==> idx[0] in idx;
  }

  lemma DirectThenRest(dat: seq<nat>)
    ensures dat == dat[..Min(DIRECT_COUNT, |dat|)] + PastDirect(dat)
  {
  }

  lemma BlocksOfFlat(s: Store, m: Meta)
    requires m.indirect == 0
    ensures Readable(s, m) && Blocks(s, m) == Ids([], NonZero(m.direct))
  {
  }

  lemma BlocksOfTree(s: Store, m: Meta)
    requires m.indirect != 0 && m.indirect in s && s[m.indirect].Index? && Tree(s, m.indirect, Height(s[m.indirect].level))
    ensures Readable(s, m)
    ensures var walk := ToVec(s, m.indirect);
            Blocks(s, m) == Ids(Sort([m.indirect] + walk.index), NonZero(m.direct) + walk.data)
  {
  }

  /** Build/flatten round trip: `blocks` returns the index ids sorted and the data ids in file order. */
  lemma BlocksOfBuilt(s: Store, m: Meta, idx: seq<nat>, dat: seq<nat>)
    requires Built(s, m, idx, dat)
    ensures Readable(s, m)
    ensures Blocks(s, m) == Ids(Sort(idx), dat)
  {
    BuiltParts(s, m, idx, dat);
    LevelsShape(m.size, idx, dat);
    NonZeroOfPad(dat, DIRECT_COUNT);
    var l := LevelsOf(m.size, idx, dat);
    hide *;
    DirectThenRest(dat);
    if l.Up? {
      WalkRoot(s, l);
      RootBlock(s, l);
      BlocksOfTree(s, m);
      SortedIsUnique(Sort([m.indirect] + ToVec(s, m.indirect).index), Sort(idx));
    } else {
      BlocksOfFlat(s, m);
      SortedIsUnique(Sort(idx), []);
    }
  }

  // ---------------------------------------------------------------------------
  // Radix lookup
  // ---------------------------------------------------------------------------

  /** Data blocks below one block of height `h`. */
  function Span(h: nat): nat {
    if h == 0 then 1 else INDIRECT_LEN * Span(h - 1)
  }

  lemma {:induction false} InReach(l: Levels, j: nat, rem: nat)
    requires l.Shaped() && Span(l.Rank()) * j + rem < |l.Data()|
    ensures j < |l.ids|
  {
    if l.Leaf? {
    } else {
      var w := Span(l.down.Rank());
      assert Span(l.Rank()) * j == w * (INDIRECT_LEN * j);
      InReach(l.down, INDIRECT_LEN * j, rem);
    }
  }

  lemma Digits(inner: nat, d: nat, j: nat)
    requires d > 0 && inner < INDIRECT_LEN * d
    ensures var q, r := inner / d, inner % d;
            q < INDIRECT_LEN && r < d && (INDIRECT_LEN * d) * j + inner == d * (INDIRECT_LEN * j + q) + r
  {
    var q, r := inner / d, inner % d;
    assert inner == d * q + r;
    Scale(q, INDIRECT_LEN, d);
    assert q >= INDIRECT_LEN ==> q * d >= INDIRECT_LEN * d;
    assert d * (INDIRECT_LEN * j + q) == d * (INDIRECT_LEN * j) + d * q;
    assert d * (INDIRECT_LEN * j) == (INDIRECT_LEN * d) * j;
  }

  lemma SpanIsDivisor(h: nat)
    requires 2 <= h <= 4
    ensures Divisor(TypeAt(h)) == Span(h - 1)
  {
  }

  lemma {:induction false} SpanPositive(h: nat)
    ensures Span(h) > 0
  {
    if h == 0 {
    } else {
      SpanPositive(h - 1);
    }
  }

  /** A level of `n` blocks has at most `n` spans of data below it. */
  lemma {:induction false} DataFitsSpan(l: Levels)
    requires l.Shaped()
    ensures |l.Data()| <= Span(l.Rank()) * |l.ids|
  {
    if l.Leaf? {
    } else {
      DataFitsSpan(l.down);
      var w := Span(l.down.Rank());
      assert |l.down.ids| <= INDIRECT_LEN * |l.ids|;
      assert w * |l.down.ids| <= w * (INDIRECT_LEN * |l.ids|);
      assert w * (INDIRECT_LEN * |l.ids|) == Span(l.Rank()) * |l.ids|;
    }
  }

  lemma LookupLeaf(s: Store, l: Levels, j: nat, inner: nat)
    requires Linked(s, l) && l.Up? && l.down.Leaf? && j < |l.ids|
    requires inner < INDIRECT_LEN && INDIRECT_LEN * j + inner < |l.down.ids|
    ensures Path(s, l.ids[j], l.Rank(), inner)
    ensures Lookup(s, l.ids[j], l.Rank(), inner) == l.down.ids[INDIRECT_LEN * j + inner]
  {
    assert s[l.ids[j]] == Index(Row(l.down.ids, j), TypeAt(l.Rank()));
  }

  lemma LookupStep(s: Store, l: Levels, j: nat, inner: nat, q: nat, r: nat)
    requires Linked(s, l) && l.Up? && l.down.Up? && j < |l.ids| && l.Rank() >= 2
    requires q == Slot(TypeAt(l.Rank()), inner) < INDIRECT_LEN && r == Offset(TypeAt(l.Rank()), inner)
    requires INDIRECT_LEN * j + q < |l.down.ids|
    requires Path(s, l.down.ids[INDIRECT_LEN * j + q], l.down.Rank(), r)
    ensures Path(s, l.ids[j], l.Rank(), inner)
    ensures Lookup(s, l.ids[j], l.Rank(), inner) == Lookup(s, l.down.ids[INDIRECT_LEN * j + q], l.down.Rank(), r)
  {
    hide Slot, Offset;
    assert s[l.ids[j]] == Index(Row(l.down.ids, j), TypeAt(l.Rank()));
  }

  lemma UpParts(s: Store, l: Levels)
    requires Linked(s, l) && l.Shaped() && l.Up?
    ensures Linked(s, l.down) && l.down.Shaped() && l.Data() == l.down.Data() && l.Rank() == l.down.Rank() + 1
    ensures l.Rank() <= 4
  {
  }

  lemma LeafData(l: Levels)
    requires l.Leaf?
    ensures l.Data() == l.ids && l.Rank() == 0
  {
  }

  lemma SlotIs(r: nat, inner: nat)
    requires 2 <= r <= 4
    ensures Span(r - 1) > 0 && Slot(TypeAt(r), inner) == inner / Span(r - 1) && Offset(TypeAt(r), inner) == inner % Span(r - 1)
  {
    SpanIsDivisor(r);
    SpanPositive(r - 1);
  }

  /** Looking up `inner` below block `j` of a level finds the data id that lies there. */
  lemma {:induction false} LookupNode(s: Store, l: Levels, j: nat, inner: nat, at: nat)
    requires Linked(s, l) && l.Shaped() && l.Up?
    requires inner < Span(l.Rank()) && at == Span(l.Rank()) * j + inner < |l.Data()|
    ensures j < |l.ids| && Path(s, l.ids[j], l.Rank(), inner)
    ensures Lookup(s, l.ids[j], l.Rank(), inner) == l.Data()[at]
    decreases l
  {
    hide Path, Lookup, Linked, Levels.Shaped, Levels.Data, Slot, Offset, Divisor;
    UpParts(s, l);
    InReach(l, j, inner);
    if l.down.Up? {
      var r := l.Rank();
      var d := Span(r - 1);
      SpanPositive(r - 1);
      SlotIs(r, inner);
      Digits(inner, d, j);
      LookupNode(s, l.down, INDIRECT_LEN * j + inner / d, inner % d, at);
      LookupStep(s, l, j, inner, inner / d, inner % d);
    } else {
      assert Span(1) == INDIRECT_LEN * Span(0) == INDIRECT_LEN;
      LeafData(l.down);
      LookupLeaf(s, l, j, inner);
    }
  }

  /** Radix lookup agrees with the flat list of data ids, at every depth, and is None past the end. */
  lemma LookupOfBuilt(s: Store, m: Meta, idx: seq<nat>, dat: seq<nat>, i: nat)
    requires Built(s, m, idx, dat)
    ensures Findable(s, m, i)
    ensures GetBlockId(s, m, i) == if i < |dat| then Some(dat[i]) else None
  {
    LevelsShape(m.size, idx, dat);
    var l := LevelsOf(m.size, idx, dat);
    if DIRECT_COUNT <= i < |dat| {
      hide Path, Lookup, LevelsOf;
      var inner := i - DIRECT_COUNT;
      DataFitsSpan(l);
      LookupNode(s, l, 0, inner, inner);
      assert s[m.indirect] == Index(Row(l.down.ids, 0), TypeAt(l.Rank()));
    }
  }

  // ---------------------------------------------------------------------------
  // The index as it lies on the disk
  // ---------------------------------------------------------------------------

  /** Block `id` is an index block of this type and holds the 63 ids of `below` from number 63 * `j` on, zeros past the end. */
  ghost predicate Places(s: Store, id: nat, t: IndirectBlockType, below: seq<nat>, j: nat) {
    && id in s && s[id].Index? && s[id].level == t && |s[id].entries| == 63
    && forall e :: 0 <= e < 63 ==> s[id].entries[e] == if 63 * j + e < |below| then below[63 * j + e] else 0
  }

  /** The blocks of one level, given the ids of the level below. */
  ghost predicate LevelOnDisk(s: Store, t: IndirectBlockType, up: seq<nat>, below: seq<nat>) {
    forall j :: 0 <= j < |up| ==> Places(s, up[j], t, below, j)
  }

  lemma BuiltOnDisk(s: Store, up: seq<nat>, below: seq<nat>, t: IndirectBlockType)
    requires LevelBuilt(s, up, below, t)
    ensures LevelOnDisk(s, t, up, below)
  {
  }

  lemma DealIs(h: nat, info: LevelInfo, idx: seq<nat>, data: seq<nat>)
    requires 1 <= h <= 4 && LevelCount(info, h) <= |idx|
    ensures var n := LevelCount(info, h); Deal(h, info, idx, data) == Up(idx[..n], Deal(h - 1, info, idx[n..], data))
    ensures Deal(0, info, idx, data) == Leaf(data)
  {
  }

  lemma {:induction false} DealRank(h: nat, info: LevelInfo, idx: seq<nat>, data: seq<nat>)
    requires h <= 4
    ensures Deal(h, info, idx, data).Rank() == h
  {
    if h == 0 {
    } else {
      DealRank(h - 1, info, idx[Min(LevelCount(info, h), |idx|)..], data);
    }
  }

  lemma DealtTop(s: Store, h: nat, info: LevelInfo, idx: seq<nat>, data: seq<nat>, below: seq<nat>)
    requires 1 <= h <= 4 && LevelCount(info, h) <= |idx| && Linked(s, Deal(h, info, idx, data))
    requires Deal(h - 1, info, idx[LevelCount(info, h)..], data).ids == below
    ensures Linked(s, Deal(h - 1, info, idx[LevelCount(info, h)..], data))
    ensures LevelOnDisk(s, TypeAt(h), idx[..LevelCount(info, h)], below)
  {
    DealRank(h, info, idx, data);
    var l := Deal(h, info, idx, data);
    hide LevelBuilt, LevelOnDisk, Deal;
    DealIs(h, info, idx, data);
    BuiltOnDisk(s, l.ids, l.down.ids, TypeAt(h));
  }

  lemma LeafIs(info: LevelInfo, idx: seq<nat>, data: seq<nat>)
    ensures Deal(0, info, idx, data) == Leaf(data)
  {
  }

  lemma TablesOnDisk(s: Store, info: LevelInfo, idx: seq<nat>, data: seq<nat>)
    requires |idx| == info.blockTable && Linked(s, Deal(1, info, idx, data))
    ensures LevelOnDisk(s, BlockTable, idx, data)
  {
    hide Linked, LevelOnDisk, Deal;
    DealIs(1, info, idx, data);
    assert idx[..|idx|] == idx && idx[|idx|..] == [];
    LeafIs(info, idx[|idx|..], data);
    DealtTop(s, 1, info, idx, data, data);
  }

  lemma DirectoriesOnDisk(s: Store, info: LevelInfo, idx: seq<nat>, data: seq<nat>)
    requires |idx| == info.blockDirectory + info.blockTable && Linked(s, Deal(2, info, idx, data))
    ensures LevelOnDisk(s, BlockDirectory, idx[..info.blockDirectory], idx[info.blockDirectory..])
    ensures LevelOnDisk(s, BlockTable, idx[info.blockDirectory..], data)
  {
    hide Linked, LevelOnDisk, Deal;
    var rest := idx[info.blockDirectory..];
    DealIs(1, info, rest, data);
    assert rest[..info.blockTable] == rest;
    DealtTop(s, 2, info, idx, data, rest);
    TablesOnDisk(s, info, rest, data);
  }

  lemma L3OnDisk(s: Store, info: LevelInfo, idx: seq<nat>, data: seq<nat>)
    requires |idx| == info.l3 + info.blockDirectory + info.blockTable && Linked(s, Deal(3, info, idx, data))
    ensures var l2, l1 := info.l3, info.l3 + info.blockDirectory;
            && LevelOnDisk(s, L3, idx[..l2], idx[l2..l1]) && LevelOnDisk(s, BlockDirectory, idx[l2..l1], idx[l1..])
            && LevelOnDisk(s, BlockTable, idx[l1..], data)
  {
    hide Linked, LevelOnDisk, Deal;
    var rest := idx[info.l3..];
    DealIs(2, info, rest, data);
    DealtTop(s, 3, info, idx, data, rest[..info.blockDirectory]);
    DirectoriesOnDisk(s, info, rest, data);
    assert rest[..info.blockDirectory] == idx[info.l3..info.l3 + info.blockDirectory];
    assert rest[info.blockDirectory..] == idx[info.l3 + info.blockDirectory..];
  }

  lemma L4OnDisk(s: Store, info: LevelInfo, idx: seq<nat>, data: seq<nat>)
    requires |idx| == info.l4 + info.l3 + info.blockDirectory + info.blockTable && Linked(s, Deal(4, info, idx, data))
    ensures var l3, l2, l1 := info.l4, info.l4 + info.l3, info.l4 + info.l3 + info.blockDirectory;
            && LevelOnDisk(s, L4, idx[..l3], idx[l3..l2]) && LevelOnDisk(s, L3, idx[l3..l2], idx[l2..l1])
            && LevelOnDisk(s, BlockDirectory, idx[l2..l1], idx[l1..]) && LevelOnDisk(s, BlockTable, idx[l1..], data)
  {
    hide Linked, LevelOnDisk, Deal;
    var rest := idx[info.l4..];
    var l3, l2, l1 := info.l4, info.l4 + info.l3, info.l4 + info.l3 + info.blockDirectory;
    DealIs(3, info, rest, data);
    DealtTop(s, 4, info, idx, data, rest[..info.l3]);
    L3OnDisk(s, info, rest, data);
    assert rest[..info.l3] == idx[l3..l2];
    assert rest[info.l3..info.l3 + info.blockDirectory] == idx[l2..l1];
    assert rest[info.l3 + info.blockDirectory..] == idx[l1..];
  }

  /** The index ids dealt out to the levels from the top: each block of a level has the next 63 ids of the level below. */
  ghost predicate OnDisk(s: Store, info: LevelInfo, idx: seq<nat>, data: seq<nat>) {
    var l3, l2, l1 := info.l4, info.l4 + info.l3, info.l4 + info.l3 + info.blockDirectory;
    && l1 + info.blockTable == |idx|
    && LevelOnDisk(s, L4, idx[..l3], idx[l3..l2]) && LevelOnDisk(s, L3, idx[l3..l2], idx[l2..l1])
    && LevelOnDisk(s, BlockDirectory, idx[l2..l1], idx[l1..]) && LevelOnDisk(s, BlockTable, idx[l1..], data)
  }

  lemma NoLevel(s: Store, t: IndirectBlockType, up: seq<nat>, below: seq<nat>)
    requires up == []
    ensures LevelOnDisk(s, t, up, below)
  {
  }

  lemma OnDiskFrom4(s: Store, info: LevelInfo, idx: seq<nat>, data: seq<nat>)
    requires |idx| == IndexBlockCount(info) && Linked(s, Deal(4, info, idx, data))
    ensures OnDisk(s, info, idx, data)
  {
    hide Linked, LevelOnDisk, Deal;
    L4OnDisk(s, info, idx, data);
  }

  lemma OnDiskFrom3(s: Store, info: LevelInfo, idx: seq<nat>, data: seq<nat>)
    requires |idx| == IndexBlockCount(info) && info.l4 == 0 && Linked(s, Deal(3, info, idx, data))
    ensures OnDisk(s, info, idx, data)
  {
    hide Linked, LevelOnDisk, Deal;
    L3OnDisk(s, info, idx, data);
    NoLevel(s, L4, idx[..0], idx[0..info.l3]);
    assert idx[..info.l3] == idx[0..info.l3];
  }

  lemma OnDiskFrom2(s: Store, info: LevelInfo, idx: seq<nat>, data: seq<nat>)
    requires |idx| == IndexBlockCount(info) && info.l4 == info.l3 == 0 && Linked(s, Deal(2, info, idx, data))
    ensures OnDisk(s, info, idx, data)
  {
    hide Linked, LevelOnDisk, Deal;
    DirectoriesOnDisk(s, info, idx, data);
    NoLevel(s, L4, idx[..0], idx[0..0]);
    NoLevel(s, L3, idx[0..0], idx[0..info.blockDirectory]);
    assert idx[..info.blockDirectory] == idx[0..info.blockDirectory];
  }

  lemma OnDiskFrom1(s: Store, info: LevelInfo, idx: seq<nat>, data: seq<nat>)
    requires |idx| == IndexBlockCount(info) && info.l4 == info.l3 == info.blockDirectory == 0
    requires info.blockTable > 0 ==> Linked(s, Deal(1, info, idx, data))
    ensures OnDisk(s, info, idx, data)
  {
    hide Linked, LevelOnDisk, Deal;
    NoLevel(s, L4, idx[..0], idx[0..0]);
    NoLevel(s, L3, idx[0..0], idx[0..0]);
    NoLevel(s, BlockDirectory, idx[0..0], idx[0..]);
    assert idx[0..] == idx;
    if info.blockTable > 0 {
      TablesOnDisk(s, info, idx, data);
    } else {
      NoLevel(s, BlockTable, idx[0..], data);
    }
  }

  /**
   * Where every id of an inode stands on the disk: the direct table has the first 36 data ids; the index ids are, in order,
   * the L4 block, the L3 blocks, the block directories and the block tables, and each block of a level has the next 63 ids
   * of the level below.
   */
  lemma IndexOnDisk(s: Store, m: Meta, idx: seq<nat>, dat: seq<nat>)
    requires Built(s, m, idx, dat)
    ensures |m.direct| == 36 && forall i :: 0 <= i < 36 ==> m.direct[i] == if i < |dat| then dat[i] else 0
    ensures m.indirect == if idx == [] then 0 else idx[0]
    ensures OnDisk(s, IndexBlocks(m.size), idx, if |dat| > 36 then dat[36..] else [])
  {
    BuiltParts(s, m, idx, dat);
    LevelCounts(m.size);
    var info, data := IndexBlocks(m.size), PastDirect(dat);
    var h := RootHeight(info);
    assert data == if |dat| > 36 then dat[36..] else [];
    hide IndexBlocks, Built, CeilDiv, Linked, OnDisk, Deal, PastDirect;
    assert h < 4 ==> LevelCount(info, 4) == 0;
    assert h < 3 ==> LevelCount(info, 3) == 0;
    assert h < 2 ==> LevelCount(info, 2) == 0;
    assert h < 1 ==> LevelCount(info, 1) == 0;
    if h == 4 {
      OnDiskFrom4(s, info, idx, data);
    } else if h == 3 {
      OnDiskFrom3(s, info, idx, data);
    } else if h == 2 {
      OnDiskFrom2(s, info, idx, data);
    } else {
      OnDiskFrom1(s, info, idx, data);
    }
  }
}
