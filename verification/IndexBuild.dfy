/**
 * Rebuilding the index of an inode: `forward`, `extend`, `shrink` and `clear_size` as functions
 * of the store, and what whole histories of resizes keep.
 */
module IndexBuild {
  import opened Prelude
  import opened Layout
  import opened Sequences
  import opened IndexTree

  /** The store after the first `n` blocks `up` of one level were rewritten with the ids `down`. */
  function PutLevel(s: Store, up: seq<nat>, down: seq<nat>, t: IndirectBlockType, n: nat): Store
    requires n <= |up|
  {
    if n == 0 then s else PutLevel(s, up, down, t, n - 1)[up[n - 1] := Index(Row(down, n - 1), t)]
  }

  /** The store after every level was rewritten, root level first. */
  function PutLevels(s: Store, l: Levels): Store
    requires l.Rank() <= 4
    decreases l
  {
    match l
    case Leaf(_) => s
    case Up(ids, d) => PutLevels(PutLevel(s, ids, d.ids, TypeAt(l.Rank()), |ids|), d)
  }

  lemma {:induction false} RankOfDeal(h: nat, info: LevelInfo, idx: seq<nat>, data: seq<nat>)
    requires h <= 4
    ensures Deal(h, info, idx, data).Rank() == h
  {
    if h == 0 {
    } else {
      RankOfDeal(h - 1, info, idx[Min(LevelCount(info, h), |idx|)..], data);
    }
  }

  /** The blocks `forward` writes. */
  function ForwardStore(s: Store, size: nat, idx: seq<nat>, dat: seq<nat>): Store {
    RankOfDeal(RootHeight(IndexBlocks(size)), IndexBlocks(size), idx, PastDirect(dat));
    PutLevels(s, LevelsOf(size, idx, dat))
  }

  /** The inode `forward` leaves. */
  function ForwardMeta(m: Meta, idx: seq<nat>, dat: seq<nat>): Meta {
    m.(direct := Pad(dat, DIRECT_COUNT), indirect := if idx == [] then 0 else idx[0])
  }

  /** `s'` differs from `s` at most at the ids `touched`, and has the same blocks. */
  ghost predicate OnlyTouches(s: Store, s': Store, touched: seq<nat>) {
    && s'.Keys == s.Keys
    && forall id :: id in s && id !in touched ==> s'[id] == s[id]
  }

  lemma {:induction false} PutLevelBuilds(s: Store, up: seq<nat>, down: seq<nat>, t: IndirectBlockType, n: nat)
    requires n <= |up| && Distinct(up) && Elements(up) <= s.Keys
    ensures OnlyTouches(s, PutLevel(s, up, down, t, n), up)
    ensures forall j :: 0 <= j < n ==> PutLevel(s, up, down, t, n)[up[j]] == Index(Row(down, j), t)
  {
    if n == 0 {
    } else {
      PutLevelBuilds(s, up, down, t, n - 1);
      assert up[n - 1] in Elements(up);
    }
  }

  lemma {:induction false} PutLevelsBuilds(s: Store, l: Levels)
    requires l.Rank() <= 4 && Distinct(l.Index()) && Elements(l.Index()) <= s.Keys
    ensures OnlyTouches(s, PutLevels(s, l), l.Index())
    ensures Linked(PutLevels(s, l), l)
    decreases l
  {
    if l.Leaf? {
    } else {
      var d, t := l.down, TypeAt(l.Rank());
      assert l.Index() == l.ids + d.Index();
      DistinctConcat(l.ids, d.Index());
      assert Elements(l.ids) <= Elements(l.Index()) && Elements(d.Index()) <= Elements(l.Index());
      PutLevelBuilds(s, l.ids, d.ids, t, |l.ids|);
      var s1 := PutLevel(s, l.ids, d.ids, t, |l.ids|);
      PutLevelsBuilds(s1, d);
      var s2 := PutLevels(s1, d);
      forall j | 0 <= j < |l.ids|
        ensures l.ids[j] in s2 && s2[l.ids[j]] == Index(Row(d.ids, j), t)
      {
        assert l.ids[j] in Elements(l.ids);
        assert l.ids[j] !in d.Index();
      }
    }
  }

  /** `forward` builds the index of exactly the ids it is given and touches no other block. */
  lemma ForwardBuilds(s: Store, m: Meta, idx: seq<nat>, dat: seq<nat>)
    requires Counted(m.size, idx, dat) && Distinct(idx) && Elements(idx) <= s.Keys
    ensures Built(ForwardStore(s, m.size, idx, dat), ForwardMeta(m, idx, dat), idx, dat)
    ensures OnlyTouches(s, ForwardStore(s, m.size, idx, dat), idx)
  {
    LevelsShape(m.size, idx, dat);
    PutLevelsBuilds(s, LevelsOf(m.size, idx, dat));
  }

  /** Building a tree and flattening it again gives back the ids, at every size up to L4_MAX. */
  lemma RoundTrip(s: Store, m: Meta, idx: seq<nat>, dat: seq<nat>)
    requires Counted(m.size, idx, dat) && Distinct(idx) && Elements(idx) <= s.Keys
    ensures var s', m' := ForwardStore(s, m.size, idx, dat), ForwardMeta(m, idx, dat);
            Readable(s', m') && Blocks(s', m') == Ids(Sort(idx), dat)
  {
    ForwardBuilds(s, m, idx, dat);
    BlocksOfBuilt(ForwardStore(s, m.size, idx, dat), ForwardMeta(m, idx, dat), idx, dat);
  }

  /** A built index depends only on the blocks of its own index ids. */
  lemma {:induction false} LinkedFrame(s: Store, s': Store, l: Levels)
    requires Linked(s, l)
    requires forall id :: id in l.Index() ==> id in s && id in s' && s'[id] == s[id]
    ensures Linked(s', l)
    decreases l
  {
    if l.Leaf? {
    } else {
      assert l.Index() == l.ids + l.down.Index();
      forall j | 0 <= j < |l.ids|
        ensures l.ids[j] in s' && s'[l.ids[j]] == s[l.ids[j]]
      {
        assert l.ids[j] in l.Index();
      }
      LinkedFrame(s, s', l.down);
    }
  }

  lemma BuiltFrame(s: Store, s': Store, m: Meta, idx: seq<nat>, dat: seq<nat>)
    requires Built(s, m, idx, dat)
    requires forall id :: id in idx ==> id in s && id in s' && s'[id] == s[id]
    ensures Built(s', m, idx, dat)
  {
    LevelsShape(m.size, idx, dat);
    LinkedFrame(s, s', LevelsOf(m.size, idx, dat));
  }

  // ---------------------------------------------------------------------------
  // extend, shrink, clear_size
  // ---------------------------------------------------------------------------

  /** An inode, the store around it and the ids it owns. */
  datatype Indexed = Indexed(store: Store, meta: Meta, idx: seq<nat>, dat: seq<nat>)
  {
    function Owned(): seq<nat> {
      idx + dat
    }

    ghost predicate Valid() {
      && Built(store, meta, idx, dat)
      && Distinct(Owned())
      && Elements(Owned()) <= store.Keys
    }
  }

  /** The last `n` elements in the order `pop` returns them. */
  function Popped(s: seq<nat>, n: nat): (r: seq<nat>)
    requires n <= |s|
    ensures |r| == n && forall k :: 0 <= k < n ==> r[k] == s[|s| - 1 - k]
    ensures multiset(r) + multiset(s[..|s| - n]) == multiset(s)
  {
    if n == 0 then
      assert s[..|s|] == s;
      []
    else
      var last, rest := s[|s| - 1], s[..|s| - 1];
      assert s == rest + [last];
      assert rest[..|rest| - (n - 1)] == s[..|s| - n];
      [last] + Popped(rest, n - 1)
  }

  lemma PoppedSplit(s: seq<nat>, n: nat, kept: seq<nat>, popped: seq<nat>)
    requires n <= |s| && kept == s[..|s| - n] && popped == Popped(s, n)
    ensures multiset(popped) + multiset(kept) == multiset(s)
  {
  }

  /** Meta::extend, given one new id for each block the new size adds. */
  ghost function Extend(x: Indexed, newSize: nat, data: seq<nat>, index: seq<nat>): Indexed
    requires Readable(x.store, x.meta)
  {
    var ids := Blocks(x.store, x.meta);
    var idx, dat := ids.index + index, ids.data + data;
    var m := x.meta.(size := newSize);
    Indexed(ForwardStore(x.store, newSize, idx, dat), ForwardMeta(m, idx, dat), idx, dat)
  }

  /** How many index and data blocks a change of size adds or removes. */
  function IndexDelta(small: nat, large: nat): (d: nat)
    requires small <= large
    ensures IndexBlockCount(IndexBlocks(small)) + d == IndexBlockCount(IndexBlocks(large))
  {
    CountsAreMonotone(small, large);
    IndexBlockCount(IndexBlocks(large)) - IndexBlockCount(IndexBlocks(small))
  }

  function DataDelta(small: nat, large: nat): (d: nat)
    requires small <= large
    ensures DataBlocks(small) + d == DataBlocks(large)
  {
    CountsAreMonotone(small, large);
    DataBlocks(large) - DataBlocks(small)
  }

  ghost predicate Extendable(x: Indexed, newSize: nat, data: seq<nat>, index: seq<nat>) {
    && x.meta.size <= newSize <= L4_MAX
    && |data| == DataDelta(x.meta.size, newSize)
    && |index| == IndexDelta(x.meta.size, newSize)
    && Distinct(x.Owned() + (data + index))
    && 0 !in data && 0 !in index
    && Elements(data) <= x.store.Keys && Elements(index) <= x.store.Keys
  }

  /** `extend` keeps the old data ids as a prefix and owns the old and the new ids, each once. */
  lemma ExtendKeeps(x: Indexed, newSize: nat, data: seq<nat>, index: seq<nat>)
    requires x.Valid() && Extendable(x, newSize, data, index)
    ensures Readable(x.store, x.meta)
    ensures var y := Extend(x, newSize, data, index);
            && y.Valid() && y.meta == x.meta.(size := newSize, direct := y.meta.direct, indirect := y.meta.indirect)
            && y.dat == x.dat + data && y.idx == Sort(x.idx) + index
            && multiset(y.Owned()) == multiset(x.Owned()) + multiset(data + index)
            && OnlyTouches(x.store, y.store, y.idx)
  {
    hide Readable, Blocks, ForwardStore, Linked, LevelsOf;
    BlocksOfBuilt(x.store, x.meta, x.idx, x.dat);
    var y := Extend(x, newSize, data, index);
    assert y.idx == Sort(x.idx) + index && y.dat == x.dat + data;
    assert multiset(y.Owned()) == multiset(x.Owned() + (data + index));
    DistinctPermutation(x.Owned() + (data + index), y.Owned());
    DistinctConcat(y.idx, y.dat);
    ElementsOfMultiset(Sort(x.idx), x.idx);
    assert 0 !in y.idx by { assert forall i :: i in Sort(x.idx) ==> i in Elements(x.idx); }
    assert Elements(y.Owned()) <= x.store.Keys by { ElementsOfMultiset(x.Owned() + (data + index), y.Owned()); }
    assert Elements(y.idx) <= Elements(y.Owned());
    ForwardBuilds(x.store, x.meta.(size := newSize), y.idx, y.dat);
  }

  lemma Regroup(a: seq<nat>, b: seq<nat>, a': seq<nat>, b': seq<nat>, p: seq<nat>, q: seq<nat>)
    requires multiset(a') + multiset(a) == multiset(p) && multiset(b') + multiset(b) == multiset(q)
    ensures multiset(a + b) + multiset(a' + b') == multiset(p + q)
  {
  }

  datatype Shrunk = Shrunk(after: Indexed, freed: Ids)

  /** The tree can be flattened and has as many ids as `shrink` pops. */
  ghost predicate Shrinkable(x: Indexed, newSize: nat) {
    && Readable(x.store, x.meta) && newSize <= x.meta.size
    && IndexDelta(newSize, x.meta.size) <= |Blocks(x.store, x.meta).index|
    && DataDelta(newSize, x.meta.size) <= |Blocks(x.store, x.meta).data|
  }

  /** Meta::shrink */
  ghost function Shrink(x: Indexed, newSize: nat): Shrunk
    requires Shrinkable(x, newSize)
  {
    var ids := Blocks(x.store, x.meta);
    var ni, nd := IndexDelta(newSize, x.meta.size), DataDelta(newSize, x.meta.size);
    var idx, dat := ids.index[..|ids.index| - ni], ids.data[..|ids.data| - nd];
    var m := x.meta.(size := newSize);
    Shrunk(Indexed(ForwardStore(x.store, newSize, idx, dat), ForwardMeta(m, idx, dat), idx, dat),
           Ids(Popped(ids.index, ni), Popped(ids.data, nd)))
  }

  lemma ShrunkIds(x: Indexed, newSize: nat)
    requires x.Valid() && newSize <= x.meta.size
    ensures Shrinkable(x, newSize)
    ensures var y := Shrink(x, newSize);
            && y.after.dat <= x.dat
            && multiset(y.after.Owned()) + multiset(y.freed.index + y.freed.data) == multiset(x.Owned())
            && |y.after.idx| == IndexBlockCount(IndexBlocks(newSize))
            && |y.after.dat| == DataBlocks(newSize)
            && |y.freed.index| == IndexDelta(newSize, x.meta.size)
            && |y.freed.data| == DataDelta(newSize, x.meta.size)
  {
    hide Readable, Blocks, ForwardStore, Linked, LevelsOf, IndexBlocks, DataBlocks, IndexBlockCount, Popped, Sort, ForwardMeta, Pad;
    BlocksOfBuilt(x.store, x.meta, x.idx, x.dat);
    ElementsOfMultiset(Sort(x.idx), x.idx);
    var y := Shrink(x, newSize);
    PoppedSplit(Sort(x.idx), IndexDelta(newSize, x.meta.size), y.after.idx, y.freed.index);
    PoppedSplit(x.dat, DataDelta(newSize, x.meta.size), y.after.dat, y.freed.data);
    Regroup(y.after.idx, y.after.dat, y.freed.index, y.freed.data, Sort(x.idx), x.dat);
    assert multiset(x.Owned()) == multiset(Sort(x.idx) + x.dat);
  }

  /** Which ids `shrink` keeps and returns: it pops the index ids from the largest down and the data ids from the last. */
  lemma ShrinkReturns(x: Indexed, newSize: nat)
    requires x.Valid() && newSize <= x.meta.size
    ensures Shrinkable(x, newSize)
    ensures var y := Shrink(x, newSize); var sorted := Sort(x.idx);
            && |y.after.idx| <= |sorted| && y.after.idx == sorted[..|y.after.idx|] && y.after.dat <= x.dat
            && |y.freed.index| == |sorted| - |y.after.idx| && |y.freed.data| == |x.dat| - |y.after.dat|
            && (forall k :: 0 <= k < |y.freed.index| ==> y.freed.index[k] == sorted[|sorted| - 1 - k])
            && (forall k :: 0 <= k < |y.freed.data| ==> y.freed.data[k] == x.dat[|x.dat| - 1 - k])
  {
    hide Readable, Blocks, ForwardStore, Linked, LevelsOf, IndexBlocks, DataBlocks, IndexBlockCount, Popped, Sort, ForwardMeta, Pad;
    BlocksOfBuilt(x.store, x.meta, x.idx, x.dat);
    ShrunkIds(x, newSize);
  }

  /** `shrink` keeps a prefix of the data ids; the ids it keeps and those it returns are the old ids, each once. */
  lemma ShrinkKeeps(x: Indexed, newSize: nat)
    requires x.Valid() && newSize <= x.meta.size
    ensures Shrinkable(x, newSize)
    ensures var y := Shrink(x, newSize);
            && y.after.Valid()
            && y.after.meta == x.meta.(size := newSize, direct := y.after.meta.direct, indirect := y.after.meta.indirect)
            && y.after.dat <= x.dat
            && multiset(y.after.Owned()) + multiset(y.freed.index + y.freed.data) == multiset(x.Owned())
            && OnlyTouches(x.store, y.after.store, y.after.idx)
  {
    ShrunkIds(x, newSize);
    hide Shrinkable, ForwardStore, Linked, LevelsOf, IndexBlocks, DataBlocks, IndexBlockCount;
    var y := Shrink(x, newSize);
    var z := y.after;
    DistinctPart(x.Owned(), z.Owned(), y.freed.index + y.freed.data);
    DistinctConcat(z.idx, z.dat);
    assert Elements(z.idx) <= Elements(z.Owned()) && Elements(z.dat) <= Elements(z.Owned());
    assert 0 !in Elements(x.Owned());
    ForwardBuilds(x.store, x.meta.(size := newSize), z.idx, z.dat);
  }

  // ---------------------------------------------------------------------------
  // Histories of resizes
  // ---------------------------------------------------------------------------

  /** Meta::init */
  function FreshMeta(kind: InodeType, name: seq<byte>): Meta {
    Meta(0, Zeros(DIRECT_COUNT), 0, kind, name)
  }

  lemma EmptyBuilt(s: Store, m: Meta)
    requires m.size == 0 && m.direct == Zeros(DIRECT_COUNT) && m.indirect == 0
    ensures Built(s, m, [], [])
  {
    assert Pad([], DIRECT_COUNT) == Zeros(DIRECT_COUNT);
    assert LevelsOf(0, [], []) == Leaf([]);
  }

  /** A new inode owns nothing. */
  lemma FreshIsValid(s: Store, kind: InodeType, name: seq<byte>)
    ensures Indexed(s, FreshMeta(kind, name), [], []).Valid()
  {
    var m := FreshMeta(kind, name);
    EmptyBuilt(s, m);
    hide Built;
    assert Indexed(s, m, [], []).Owned() == [];
  }

  datatype Resize = Grow(size: nat, data: seq<nat>, index: seq<nat>) | Reduce(size: nat)

  ghost predicate Allowed(x: Indexed, op: Resize) {
    match op
    case Grow(size, data, index) => Extendable(x, size, data, index)
    case Reduce(size) => size <= x.meta.size
  }

  ghost function Resized(x: Indexed, op: Resize): (y: Indexed)
    requires x.Valid() && Allowed(x, op)
    ensures y.Valid()
  {
    match op
    case Grow(size, data, index) =>
      ExtendKeeps(x, size, data, index);
      Extend(x, size, data, index)
    case Reduce(size) =>
      ShrinkKeeps(x, size);
      Shrink(x, size).after
  }

  /** The ids a step takes in and gives back. */
  function Supplied(op: Resize): multiset<nat> {
    match op
    case Grow(_, data, index) => multiset(data + index)
    case Reduce(_) => multiset{}
  }

  ghost function Returned(x: Indexed, op: Resize): multiset<nat>
    requires x.Valid() && Allowed(x, op)
  {
    match op
    case Grow(_, _, _) => multiset{}
    case Reduce(size) =>
      ShrinkKeeps(x, size);
      multiset(Shrink(x, size).freed.index + Shrink(x, size).freed.data)
  }

  ghost predicate AllAllowed(x: Indexed, ops: seq<Resize>)
    requires x.Valid()
    decreases |ops|
  {
    ops != [] ==> Allowed(x, ops[0]) && AllAllowed(Resized(x, ops[0]), ops[1..])
  }

  ghost function ResizedAll(x: Indexed, ops: seq<Resize>): (y: Indexed)
    requires x.Valid() && AllAllowed(x, ops)
    ensures y.Valid()
    decreases |ops|
  {
    if ops == [] then x else ResizedAll(Resized(x, ops[0]), ops[1..])
  }

  function AllSupplied(ops: seq<Resize>): multiset<nat> {
    if ops == [] then multiset{} else Supplied(ops[0]) + AllSupplied(ops[1..])
  }

  ghost function AllReturned(x: Indexed, ops: seq<Resize>): multiset<nat>
    requires x.Valid() && AllAllowed(x, ops)
    decreases |ops|
  {
    if ops == [] then multiset{} else Returned(x, ops[0]) + AllReturned(Resized(x, ops[0]), ops[1..])
  }

  lemma StepConserves(x: Indexed, op: Resize)
    requires x.Valid() && Allowed(x, op)
    ensures multiset(Resized(x, op).Owned()) + Returned(x, op) == multiset(x.Owned()) + Supplied(op)
  {
    hide Extend, Shrink, Shrinkable;
    match op
    case Grow(size, data, index) => ExtendKeeps(x, size, data, index);
    case Reduce(size) => ShrinkKeeps(x, size);
  }

  lemma Telescope(x: multiset<nat>, y: multiset<nat>, z: multiset<nat>,
                  s: multiset<nat>, r: multiset<nat>, s': multiset<nat>, r': multiset<nat>)
    requires y + r == x + s && z + r' == y + s'
    ensures z + (r + r') == x + (s + s')
  {
    assert z + (r + r') == (z + r') + r;
    assert (y + s') + r == (y + r) + s';
  }

  /**
   * Over any history of resizes no id is lost or made up: the ids held at the end and those returned
   * on the way are the ids held at the start and those supplied on the way.
   */
  lemma {:induction false} HistoryConserves(x: Indexed, ops: seq<Resize>)
    requires x.Valid() && AllAllowed(x, ops)
    ensures multiset(ResizedAll(x, ops).Owned()) + AllReturned(x, ops) == multiset(x.Owned()) + AllSupplied(ops)
    decreases |ops|
  {
    hide Resized, Returned, Supplied, Built, Allowed, Indexed.Valid;
    if ops == [] {
    } else {
      StepConserves(x, ops[0]);
      var y := Resized(x, ops[0]);
      HistoryConserves(y, ops[1..]);
      assert ResizedAll(x, ops) == ResizedAll(y, ops[1..]);
      assert AllReturned(x, ops) == Returned(x, ops[0]) + AllReturned(y, ops[1..]);
      Telescope(multiset(x.Owned()), multiset(y.Owned()), multiset(ResizedAll(y, ops[1..]).Owned()),
                Supplied(ops[0]), Returned(x, ops[0]), AllSupplied(ops[1..]), AllReturned(y, ops[1..]));
    }
  }

  /**
   * From a new inode, any history of resizes ends with exactly the blocks the final size calls for, all
   * distinct, and `blocks` and `get_block_id` both read the same list of data ids back.
   */
  lemma HistoryFromEmpty(s: Store, kind: InodeType, name: seq<byte>, ops: seq<Resize>, i: nat)
    requires Indexed(s, FreshMeta(kind, name), [], []).Valid()
    requires AllAllowed(Indexed(s, FreshMeta(kind, name), [], []), ops)
    ensures var y := ResizedAll(Indexed(s, FreshMeta(kind, name), [], []), ops);
            && Readable(y.store, y.meta)
            && var ids := Blocks(y.store, y.meta);
               && |ids.data| == DataBlocks(y.meta.size)
               && |ids.index| == IndexBlockCount(IndexBlocks(y.meta.size))
               && Distinct(ids.index + ids.data)
               && Findable(y.store, y.meta, i)
               && GetBlockId(y.store, y.meta, i) == (if i < |ids.data| then Some(ids.data[i]) else None)
  {
    var y := ResizedAll(Indexed(s, FreshMeta(kind, name), [], []), ops);
    hide Blocks, Readable, Findable, GetBlockId, Linked, IndexBlocks, DataBlocks;
    BlocksOfBuilt(y.store, y.meta, y.idx, y.dat);
    LookupOfBuilt(y.store, y.meta, y.idx, y.dat, i);
    ElementsOfMultiset(Sort(y.idx), y.idx);
    DistinctPermutation(y.Owned(), Sort(y.idx) + y.dat);
  }
}
