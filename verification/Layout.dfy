/** On-disk layout of CAFS: constants, block variants and the arithmetic of the inode index. */
module Layout {
  import opened Prelude

  const BLOCK_SIZE: nat := 512
  const BLOCK_BITS: nat := 4096
  const DIRECT_COUNT: nat := 36
  const NAME_LENGTH_LIMIT: nat := 199

  /** The size of an inode's record. */
  const META_SIZE: nat := 512

  /** Entries of an index block, BLOCK_SIZE / 8 - 1: one 8-byte slot holds the block's type. */
  const INDIRECT_LEN: nat := 63

  const DIRECT_MAX: nat := DIRECT_COUNT * BLOCK_SIZE
  const BLOCK_TABLE_INDIRECT_MAX: nat := INDIRECT_LEN * BLOCK_SIZE
  const BLOCK_TABLE_MAX: nat := DIRECT_MAX + BLOCK_TABLE_INDIRECT_MAX
  const BLOCK_DIRECTORY_INDIRECT_MAX: nat := INDIRECT_LEN * BLOCK_TABLE_INDIRECT_MAX
  const BLOCK_DIRECTORY_MAX: nat := DIRECT_MAX + BLOCK_DIRECTORY_INDIRECT_MAX
  const L3_INDIRECT_MAX: nat := INDIRECT_LEN * BLOCK_DIRECTORY_INDIRECT_MAX
  const L3_MAX: nat := DIRECT_MAX + L3_INDIRECT_MAX
  const L4_INDIRECT_MAX: nat := INDIRECT_LEN * L3_INDIRECT_MAX
  const L4_MAX: nat := DIRECT_MAX + L4_INDIRECT_MAX
  const U64_MAX: nat := 0xffff_ffff_ffff_ffff

  datatype InodeType = File | Dir

  datatype IndirectBlockType = BlockTable | BlockDirectory | L3 | L4

  datatype Meta = Meta(size: nat, direct: seq<nat>, indirect: nat, kind: InodeType, name: seq<byte>)

  /** The numbers a super block records. */
  datatype Geometry = Geometry(totalBlocks: nat, inodeBitmapBlocks: nat, inodeAreaBlocks: nat,
                               dataBitmapBlocks: nat, dataAreaBlocks: nat)

  /** A block, as the type it was last written with. `Zeroed` is the block of 512 zero bytes. */
  datatype Block =
    | Zeroed
    | Super(valid: bool, geometry: Geometry)
    | Words(words: seq<nat>)
    | Inode(meta: Meta)
    | Index(entries: seq<nat>, level: IndirectBlockType)
    | Data(bytes: seq<byte>)

  type Store = map<nat, Block>

  datatype LevelInfo = LevelInfo(l4: nat, l3: nat, blockDirectory: nat, blockTable: nat, direct: nat)

  function CeilDiv(a: nat, b: nat): nat
    requires b > 0
  {
    (a + b - 1) / b
  }

  function Min(a: nat, b: nat): nat {
    if a <= b then a else b
  }

  function DataBlocks(size: nat): nat {
    CeilDiv(size, BLOCK_SIZE)
  }

  /** Data blocks that do not fit the direct table. */
  function IndirectBlocks(size: nat): nat {
    if DataBlocks(size) > DIRECT_COUNT then DataBlocks(size) - DIRECT_COUNT else 0
  }

  function IndexBlocks(size: nat): LevelInfo {
    var indirectSize := if size >= DIRECT_MAX then size - DIRECT_MAX else 0;
    var blockTableLen := CeilDiv(indirectSize, BLOCK_TABLE_INDIRECT_MAX);
    var blockDirectoryLen := CeilDiv(indirectSize, BLOCK_DIRECTORY_INDIRECT_MAX);
    var l3Len := CeilDiv(indirectSize, L3_INDIRECT_MAX);
    if size > L3_MAX then
      LevelInfo(1, l3Len, blockDirectoryLen, blockTableLen, DIRECT_COUNT)
    else if size > BLOCK_DIRECTORY_MAX then
      LevelInfo(0, 1, blockDirectoryLen, blockTableLen, DIRECT_COUNT)
    else if size > BLOCK_TABLE_MAX then
      LevelInfo(0, 0, 1, blockTableLen, DIRECT_COUNT)
    else if size > DIRECT_MAX then
      LevelInfo(0, 0, 0, 1, DIRECT_COUNT)
    else
      LevelInfo(0, 0, 0, 0, DataBlocks(size))
  }

  function IndexBlockCount(info: LevelInfo): nat {
    info.l4 + info.l3 + info.blockDirectory + info.blockTable
  }

  /** Height of the root: 0 without index blocks, 1 for a lone block table, up to 4 for an L4 root. */
  function RootHeight(info: LevelInfo): nat {
    if info.l4 == 1 then 4
    else if info.l3 == 1 then 3
    else if info.blockDirectory == 1 then 2
    else if info.blockTable == 1 then 1
    else 0
  }

  /** Number of index blocks at height `k`. */
  function LevelCount(info: LevelInfo, k: nat): nat
    requires 1 <= k <= 4
  {
    match k
    case 1 => info.blockTable
    case 2 => info.blockDirectory
    case 3 => info.l3
    case _ => info.l4
  }

  function Height(t: IndirectBlockType): nat {
    match t
    case BlockTable => 1
    case BlockDirectory => 2
    case L3 => 3
    case L4 => 4
  }

  function TypeAt(k: nat): IndirectBlockType
    requires 1 <= k <= 4
  {
    match k
    case 1 => BlockTable
    case 2 => BlockDirectory
    case 3 => L3
    case _ => L4
  }

  // ---------------------------------------------------------------------------
  // Ceiling division
  // ---------------------------------------------------------------------------

  /** The ceiling is the one `c` with (c - 1) * b < a <= c * b. */
  lemma CeilBounds(a: nat, b: nat)
    requires b > 0
    ensures var c := CeilDiv(a, b); c * b - b < a <= c * b
  {
    var c := CeilDiv(a, b);
    var r := (a + b - 1) % b;
    assert a + b - 1 == b * c + r;
    assert b * c == c * b;
  }

  lemma Scale(x: nat, y: nat, b: nat)
    ensures x < y ==> x * b + b <= y * b
  {
    if x < y {
      assert (x + 1) * b <= y * b;
    }
  }

  lemma CeilUnique(a: nat, b: nat, c: nat)
    requires b > 0 && c * b - b < a <= c * b
    ensures CeilDiv(a, b) == c
  {
    CeilBounds(a, b);
    Scale(CeilDiv(a, b), c, b);
    Scale(c, CeilDiv(a, b), b);
  }

  lemma CeilMonotone(a: nat, a': nat, b: nat)
    requires b > 0 && a <= a'
    ensures CeilDiv(a, b) <= CeilDiv(a', b)
  {
    CeilBounds(a, b);
    CeilBounds(a', b);
    Scale(CeilDiv(a', b), CeilDiv(a, b), b);
  }

  lemma CeilAtMost(a: nat, b: nat, c: nat)
    requires b > 0
    ensures CeilDiv(a, b) <= c <==> a <= c * b
  {
    CeilBounds(a, b);
    Scale(c, CeilDiv(a, b), b);
    Scale(CeilDiv(a, b), c, b);
  }

  lemma CeilCeil(a: nat, b: nat, c: nat)
    requires b > 0 && c > 0
    ensures b * c > 0
    ensures CeilDiv(CeilDiv(a, b), c) == CeilDiv(a, b * c)
  {
    var x := CeilDiv(a, b);
    var y := CeilDiv(x, c);
    CeilBounds(a, b);
    CeilBounds(x, c);
    assert y * (b * c) == y * c * b;
    assert x * b <= y * c * b;
    assert y * c - c + 1 <= x;
    assert (y * c - c) * b <= (x - 1) * b;
    assert (x - 1) * b == x * b - b;
    assert (y * c - c) * b == y * (b * c) - b * c;
    CeilUnique(a, b * c, y);
  }

  /** Where the ceiling is 0, 1 or more. */
  lemma CeilTiers(a: nat, b: nat)
    requires b > 0
    ensures CeilDiv(a, b) == 0 <==> a == 0
    ensures CeilDiv(a, b) == 1 <==> 0 < a <= b
  {
    CeilBounds(a, b);
    var c := CeilDiv(a, b);
    if c >= 2 { assert 2 * b <= c * b; }
  }

  // ---------------------------------------------------------------------------
  // Index arithmetic
  // ---------------------------------------------------------------------------

  /** How many of the data blocks the index covers. */
  lemma IndirectBlocksAsCeiling(size: nat)
    ensures size <= DIRECT_MAX ==> IndirectBlocks(size) == 0
    ensures size > DIRECT_MAX ==> IndirectBlocks(size) == CeilDiv(size - DIRECT_MAX, BLOCK_SIZE) > 0
  {
  }

  lemma DirectCount(size: nat)
    ensures IndexBlocks(size).direct == Min(DataBlocks(size), DIRECT_COUNT)
  {
    IndirectBlocksAsCeiling(size);
    assert size > DIRECT_MAX ==> DataBlocks(size) > DIRECT_COUNT;
  }

  /**
   * Up to L4_MAX the level counts describe a tree: every level used holds one entry for each
   * `INDIRECT_LEN` entries of the level below, the root level holds exactly one block and
   * no level above it is used.
   */
  lemma LevelCounts(size: nat)
    requires size <= L4_MAX
    ensures var info := IndexBlocks(size); var h := RootHeight(info);
            && info.direct == Min(DataBlocks(size), DIRECT_COUNT)
            && (h == 0 <==> IndirectBlocks(size) == 0)
            && (h >= 1 ==> info.blockTable == CeilDiv(IndirectBlocks(size), INDIRECT_LEN))
            && (forall k :: 2 <= k <= h ==> LevelCount(info, k) == CeilDiv(LevelCount(info, k - 1), INDIRECT_LEN))
            && (h >= 1 ==> LevelCount(info, h) == 1)
            && (forall k :: h < k <= 4 ==> LevelCount(info, k) == 0)
  {
    hide CeilDiv;
    IndirectBlocksAsCeiling(size);
    DirectCount(size);
    if size > DIRECT_MAX {
      var n := size - DIRECT_MAX;
      CeilCeil(n, BLOCK_SIZE, INDIRECT_LEN);
      CeilCeil(n, BLOCK_TABLE_INDIRECT_MAX, INDIRECT_LEN);
      CeilCeil(n, BLOCK_DIRECTORY_INDIRECT_MAX, INDIRECT_LEN);
      CeilCeil(n, L3_INDIRECT_MAX, INDIRECT_LEN);
      CeilTiers(n, BLOCK_TABLE_INDIRECT_MAX);
      CeilTiers(n, BLOCK_DIRECTORY_INDIRECT_MAX);
      CeilTiers(n, L3_INDIRECT_MAX);
      CeilTiers(n, L4_INDIRECT_MAX);
    }
  }

  /** The bound of `LevelCounts` is exact: past L4_MAX the single L4 block cannot hold its L3 entries. */
  lemma CapacityIsExact(size: nat)
    ensures size <= L4_MAX <==> IndexBlocks(size).l3 <= INDIRECT_LEN
  {
    hide CeilDiv;
    if size > L3_MAX {
      CeilAtMost(size - DIRECT_MAX, L3_INDIRECT_MAX, INDIRECT_LEN);
    }
  }

  /** Growing a file never lowers its number of index or data blocks, across every tier boundary. */
  lemma CountsAreMonotone(a: nat, b: nat)
    requires a <= b
    ensures DataBlocks(a) <= DataBlocks(b)
    ensures IndexBlockCount(IndexBlocks(a)) <= IndexBlockCount(IndexBlocks(b))
  {
    hide CeilDiv;
    CeilMonotone(a, b, BLOCK_SIZE);
    if a > DIRECT_MAX {
      CeilMonotone(a - DIRECT_MAX, b - DIRECT_MAX, BLOCK_TABLE_INDIRECT_MAX);
      CeilMonotone(a - DIRECT_MAX, b - DIRECT_MAX, BLOCK_DIRECTORY_INDIRECT_MAX);
      CeilMonotone(a - DIRECT_MAX, b - DIRECT_MAX, L3_INDIRECT_MAX);
      CeilTiers(b - DIRECT_MAX, BLOCK_TABLE_INDIRECT_MAX);
      CeilTiers(b - DIRECT_MAX, BLOCK_DIRECTORY_INDIRECT_MAX);
      CeilTiers(b - DIRECT_MAX, L3_INDIRECT_MAX);
    }
  }

  lemma TierByBlocks(size: nat)
    ensures size > DIRECT_MAX <==> DataBlocks(size) > DIRECT_COUNT
    ensures size > BLOCK_TABLE_MAX <==> DataBlocks(size) > DIRECT_COUNT + INDIRECT_LEN
    ensures size > BLOCK_DIRECTORY_MAX <==> DataBlocks(size) > DIRECT_COUNT + INDIRECT_LEN * INDIRECT_LEN
    ensures size > L3_MAX <==> DataBlocks(size) > DIRECT_COUNT + INDIRECT_LEN * INDIRECT_LEN * INDIRECT_LEN
  {
    hide CeilDiv;
    CeilAtMost(size, BLOCK_SIZE, DIRECT_COUNT);
    CeilAtMost(size, BLOCK_SIZE, DIRECT_COUNT + INDIRECT_LEN);
    CeilAtMost(size, BLOCK_SIZE, DIRECT_COUNT + INDIRECT_LEN * INDIRECT_LEN);
    CeilAtMost(size, BLOCK_SIZE, DIRECT_COUNT + INDIRECT_LEN * INDIRECT_LEN * INDIRECT_LEN);
  }

  lemma LevelsByBlocks(size: nat)
    requires size > DIRECT_MAX
    ensures var n, k := size - DIRECT_MAX, DataBlocks(size) - DIRECT_COUNT;
            && k >= 0
            && CeilDiv(n, BLOCK_TABLE_INDIRECT_MAX) == CeilDiv(k, INDIRECT_LEN)
            && CeilDiv(n, BLOCK_DIRECTORY_INDIRECT_MAX) == CeilDiv(CeilDiv(k, INDIRECT_LEN), INDIRECT_LEN)
            && CeilDiv(n, L3_INDIRECT_MAX) == CeilDiv(CeilDiv(CeilDiv(k, INDIRECT_LEN), INDIRECT_LEN), INDIRECT_LEN)
  {
    IndirectBlocksAsCeiling(size);
    assert DataBlocks(size) - DIRECT_COUNT == CeilDiv(size - DIRECT_MAX, BLOCK_SIZE);
    hide CeilDiv;
    var n := size - DIRECT_MAX;
    CeilCeil(n, BLOCK_SIZE, INDIRECT_LEN);
    CeilCeil(n, BLOCK_TABLE_INDIRECT_MAX, INDIRECT_LEN);
    CeilCeil(n, BLOCK_DIRECTORY_INDIRECT_MAX, INDIRECT_LEN);
  }

  /** The index of a file depends on its number of data blocks only. */
  lemma SameDataSameIndex(a: nat, b: nat)
    requires DataBlocks(a) == DataBlocks(b)
    ensures IndexBlocks(a) == IndexBlocks(b)
  {
    hide CeilDiv;
    TierByBlocks(a);
    TierByBlocks(b);
    if a > DIRECT_MAX {
      LevelsByBlocks(a);
      LevelsByBlocks(b);
    }
  }

  /** No sum of `IndexBlocks` leaves 64 bits for a size the index can represent. */
  lemma SumsFitU64(size: nat)
    requires size <= L4_MAX
    ensures size + BLOCK_SIZE - 1 <= U64_MAX
    ensures size + L3_INDIRECT_MAX - 1 <= U64_MAX
  {
  }

  // ---------------------------------------------------------------------------
  // The numbers themselves
  // ---------------------------------------------------------------------------

  /**
   * An inode's record, made of its size, the direct table, the indirect pointer, the type and the name, fills its block; so
   * does an index block, made of its entries and its type. A bitmap block has a bit for each bit of a block.
   */
  lemma RecordSizes()
    ensures 8 + 8 * DIRECT_COUNT + 8 + 8 + (NAME_LENGTH_LIMIT + 1) == META_SIZE == BLOCK_SIZE
    ensures 8 * INDIRECT_LEN + 8 == BLOCK_SIZE && 8 * BLOCK_SIZE == BLOCK_BITS
    ensures BLOCK_SIZE == 512 && NAME_LENGTH_LIMIT == 199 && L4_MAX == 8_065_534_464
  {
  }

  /** Where each tier begins and ends, for every size. */
  lemma TierBoundaries(size: nat)
    ensures IndexBlockCount(IndexBlocks(size)) == 0 <==> size <= 18432
    ensures IndexBlockCount(IndexBlocks(size)) == 1 <==> 18432 < size <= 50688
    ensures RootHeight(IndexBlocks(size)) == 0 <==> size <= 18432
    ensures RootHeight(IndexBlocks(size)) == 1 <==> 18432 < size <= 50688
    ensures RootHeight(IndexBlocks(size)) == 2 <==> 50688 < size <= 2_050_560
    ensures RootHeight(IndexBlocks(size)) == 3 <==> 2_050_560 < size <= 128_042_496
    ensures RootHeight(IndexBlocks(size)) == 4 <==> 128_042_496 < size
  {
    if size > 18432 {
      CeilBounds(size - DIRECT_MAX, BLOCK_TABLE_INDIRECT_MAX);
      CeilBounds(size - DIRECT_MAX, BLOCK_DIRECTORY_INDIRECT_MAX);
      CeilBounds(size - DIRECT_MAX, L3_INDIRECT_MAX);
    }
    hide CeilDiv;
  }
}
