/** The bitmap allocator: first-fit over 64-bit words in cached blocks. */
module Bitmap {
  import opened Prelude
  import opened Layout
  import opened Sequences
  import opened Cache

  const WORDS: nat := 64
  const WORD_BITS: nat := 64

  // ---------------------------------------------------------------------------
  // Words
  // ---------------------------------------------------------------------------

  function Pow2(k: nat): (p: nat)
    ensures p > 0
  {
    if k == 0 then 1 else 2 * Pow2(k - 1)
  }

  /** Bit `k` of a word. */
  predicate Bit(w: nat, k: nat) {
    if k == 0 then w % 2 == 1 else Bit(w / 2, k - 1)
  }

  /** `w | 1 << k` */
  function OrBit(w: nat, k: nat): nat {
    if Bit(w, k) then w else w + Pow2(k)
  }

  /** u64::trailing_ones */
  function TrailingOnes(w: nat): nat {
    if w % 2 == 0 then 0 else 1 + TrailingOnes(w / 2)
  }

  function Ones(w: nat): nat {
    if w == 0 then 0 else w % 2 + Ones(w / 2)
  }

  lemma {:induction false} AddBit(w: nat, k: nat, q: nat)
    requires !Bit(w, k)
    ensures Bit(w + Pow2(k), q) <==> q == k || Bit(w, q)
  {
    if k > 0 {
      assert (w + Pow2(k)) / 2 == w / 2 + Pow2(k - 1) && (w + Pow2(k)) % 2 == w % 2;
      if q > 0 { AddBit(w / 2, k - 1, q - 1); }
    } else {
      assert (w + 1) / 2 == w / 2;
    }
  }

  lemma {:induction false} SubBit(w: nat, k: nat, q: nat)
    requires Bit(w, k)
    ensures w >= Pow2(k)
    ensures Bit(w - Pow2(k), q) <==> q != k && Bit(w, q)
  {
    if k > 0 {
      SubBit(w / 2, k - 1, if q > 0 then q - 1 else 0);
      assert (w - Pow2(k)) / 2 == w / 2 - Pow2(k - 1) && (w - Pow2(k)) % 2 == w % 2;
    } else {
      assert (w - 1) / 2 == w / 2;
    }
  }

  lemma {:induction false} AddBitFits(w: nat, k: nat, n: nat)
    requires !Bit(w, k) && k < n && w < Pow2(n)
    ensures w + Pow2(k) < Pow2(n)
  {
    assert Pow2(n) == 2 * Pow2(n - 1);
    if k == 0 {
    } else {
      assert Pow2(k) == 2 * Pow2(k - 1);
      AddBitFits(w / 2, k - 1, n - 1);
    }
  }

  /** The lowest clear bit of a word that is not all ones. */
  lemma {:induction false} TrailingOnesIsFirstClear(w: nat, n: nat)
    requires w < Pow2(n) - 1
    ensures TrailingOnes(w) < n
    ensures !Bit(w, TrailingOnes(w))
    ensures forall q :: 0 <= q < TrailingOnes(w) ==> Bit(w, q)
  {
    if w % 2 == 0 {
    } else {
      TrailingOnesIsFirstClear(w / 2, n - 1);
      forall q | 0 <= q < TrailingOnes(w)
        ensures Bit(w, q)
      {
        if q > 0 { assert Bit(w / 2, q - 1); }
      }
    }
  }

  lemma {:induction false} AllOnes(n: nat, q: nat)
    requires q < n
    ensures Bit(Pow2(n) - 1, q)
  {
    if q == 0 {
    } else {
      assert (Pow2(n) - 1) / 2 == Pow2(n - 1) - 1;
      AllOnes(n - 1, q - 1);
    }
  }

  lemma Pow2Of64()
    ensures Pow2(64) == U64_MAX + 1
  {
    assert Pow2(8) == 256;
    assert Pow2(16) == 256 * Pow2(8);
    assert Pow2(24) == 256 * Pow2(16);
    assert Pow2(32) == 256 * Pow2(24);
    assert Pow2(40) == 256 * Pow2(32);
    assert Pow2(48) == 256 * Pow2(40);
    assert Pow2(56) == 256 * Pow2(48);
    assert Pow2(64) == 256 * Pow2(56);
  }

  /** The shift loop of `free_count`. */
  method CountOnes(w: nat) returns (ones: nat)
    ensures ones == Ones(w)
  {
    ones := 0;
    var num := w;
    while num != 0
      invariant ones + Ones(num) == Ones(w)
    {
      if num % 2 == 1 {
        ones := ones + 1;
      }
      num := num / 2;
    }
  }

  // ---------------------------------------------------------------------------
  // Bits in the store
  // ---------------------------------------------------------------------------

  predicate IsWords(b: Block) {
    match b
    case Zeroed => true
    case Words(ws) => |ws| == WORDS && forall i :: 0 <= i < WORDS ==> ws[i] <= U64_MAX
    case _ => false
  }

  /** The block read as an array of words. */
  function AsWords(b: Block): (ws: seq<nat>)
    requires IsWords(b)
    ensures |ws| == WORDS && forall i :: 0 <= i < WORDS ==> ws[i] <= U64_MAX
  {
    if b == Zeroed then Zeros(WORDS) else b.words
  }

  /** Blocks `start .. start + n` hold a bitmap. */
  ghost predicate IsBitmap(s: Store, start: nat, n: nat) {
    forall id :: start <= id < start + n ==> id in s && IsWords(s[id])
  }

  /** `decompose`: the block, word and bit in which bit number `b` lies. */
  function BlockOf(b: nat): nat { b / BLOCK_BITS }

  function WordOf(b: nat): nat { b % BLOCK_BITS / WORD_BITS }

  function PosOf(b: nat): nat { b % BLOCK_BITS % WORD_BITS }

  lemma Decompose(b: nat)
    ensures WordOf(b) < WORDS && PosOf(b) < WORD_BITS
    ensures b == BlockOf(b) * BLOCK_BITS + (WordOf(b) * WORD_BITS + PosOf(b))
  {
  }

  lemma Compose(i: nat, j: nat, k: nat)
    requires j < WORDS && k < WORD_BITS
    ensures var b := i * BLOCK_BITS + (j * WORD_BITS + k);
            BlockOf(b) == i && WordOf(b) == j && PosOf(b) == k
  {
  }

  ghost predicate BitAt(s: Store, start: nat, n: nat, b: nat)
    requires IsBitmap(s, start, n) && b < n * BLOCK_BITS
  {
    Decompose(b);
    Bit(AsWords(s[start + BlockOf(b)])[WordOf(b)], PosOf(b))
  }

  /** The bits that are set. */
  ghost function Bits(s: Store, start: nat, n: nat): set<nat>
    requires IsBitmap(s, start, n)
  {
    set b | 0 <= b < n * BLOCK_BITS && BitAt(s, start, n, b)
  }

  lemma BitsFrame(s: Store, s': Store, start: nat, n: nat)
    requires IsBitmap(s, start, n)
    requires forall id :: start <= id < start + n ==> id in s' && s'[id] == s[id]
    ensures IsBitmap(s', start, n) && Bits(s', start, n) == Bits(s, start, n)
  {
    forall b | 0 <= b < n * BLOCK_BITS
      ensures BitAt(s', start, n, b) == BitAt(s, start, n, b)
    {
      Decompose(b);
    }
  }

  /** The block after bit `b`'s word was replaced by `w`. */
  function WithWord(block: Block, j: nat, w: nat): Block
    requires IsWords(block) && j < WORDS
  {
    Words(AsWords(block)[j := w])
  }

  /** Replacing one word changes the bits of that word only. */
  lemma OneWordChanged(s: Store, start: nat, n: nat, bit: nat, w: nat, b: nat)
    requires IsBitmap(s, start, n) && bit < n * BLOCK_BITS && b < n * BLOCK_BITS && w <= U64_MAX
    ensures WordOf(bit) < WORDS && PosOf(b) < WORD_BITS
    ensures var id := start + BlockOf(bit);
            var s' := s[id := WithWord(s[id], WordOf(bit), w)];
            && IsBitmap(s', start, n)
            && BitAt(s', start, n, b) ==
               if BlockOf(b) == BlockOf(bit) && WordOf(b) == WordOf(bit) then Bit(w, PosOf(b)) else BitAt(s, start, n, b)
  {
    Decompose(bit);
    Decompose(b);
  }

  /** The store after the `|=` of `alloc`. */
  ghost function BitSet(s: Store, start: nat, n: nat, bit: nat): Store
    requires IsBitmap(s, start, n) && bit < n * BLOCK_BITS
  {
    Decompose(bit);
    var id := start + BlockOf(bit);
    s[id := WithWord(s[id], WordOf(bit), OrBit(AsWords(s[id])[WordOf(bit)], PosOf(bit)))]
  }

  /** The store after the `-=` of `dealloc`. */
  ghost function BitCleared(s: Store, start: nat, n: nat, bit: nat): Store
    requires IsBitmap(s, start, n) && bit in Bits(s, start, n)
  {
    Decompose(bit);
    var id := start + BlockOf(bit);
    var w := AsWords(s[id])[WordOf(bit)];
    SubBit(w, PosOf(bit), 0);
    s[id := WithWord(s[id], WordOf(bit), w - Pow2(PosOf(bit)))]
  }

  lemma SetOneBit(s: Store, start: nat, n: nat, bit: nat, b: nat)
    requires IsBitmap(s, start, n) && bit < n * BLOCK_BITS && b < n * BLOCK_BITS && !BitAt(s, start, n, bit)
    ensures IsBitmap(BitSet(s, start, n, bit), start, n)
    ensures BitAt(BitSet(s, start, n, bit), start, n, b) <==> b == bit || BitAt(s, start, n, b)
  {
    Decompose(bit);
    Decompose(b);
    var k := PosOf(bit);
    var v := AsWords(s[start + BlockOf(bit)])[WordOf(bit)];
    Pow2Of64();
    AddBitFits(v, k, WORD_BITS);
    hide Bit, Pow2, AsWords;
    OneWordChanged(s, start, n, bit, v + Pow2(k), b);
    AddBit(v, k, PosOf(b));
  }

  lemma SetBitOf(s: Store, start: nat, n: nat, bit: nat)
    requires IsBitmap(s, start, n) && bit < n * BLOCK_BITS && bit !in Bits(s, start, n)
    ensures IsBitmap(BitSet(s, start, n, bit), start, n)
    ensures Bits(BitSet(s, start, n, bit), start, n) == Bits(s, start, n) + {bit}
  {
    hide BitAt, BitSet, IsBitmap;
    SetOneBit(s, start, n, bit, bit);
    forall b | 0 <= b < n * BLOCK_BITS
      ensures BitAt(BitSet(s, start, n, bit), start, n, b) <==> b == bit || BitAt(s, start, n, b)
    {
      SetOneBit(s, start, n, bit, b);
    }
  }

  lemma ClearBitOf(s: Store, start: nat, n: nat, bit: nat)
    requires IsBitmap(s, start, n) && bit in Bits(s, start, n)
    ensures IsBitmap(BitCleared(s, start, n, bit), start, n)
    ensures Bits(BitCleared(s, start, n, bit), start, n) == Bits(s, start, n) - {bit}
  {
    Decompose(bit);
    var k := PosOf(bit);
    var v := AsWords(s[start + BlockOf(bit)])[WordOf(bit)];
    SubBit(v, k, 0);
    var s' := BitCleared(s, start, n, bit);
    OneWordChanged(s, start, n, bit, v - Pow2(k), bit);
    forall b | 0 <= b < n * BLOCK_BITS
      ensures BitAt(s', start, n, b) <==> b != bit && BitAt(s, start, n, b)
    {
      Decompose(b);
      OneWordChanged(s, start, n, bit, v - Pow2(k), b);
      SubBit(v, k, PosOf(b));
    }
  }

  // ---------------------------------------------------------------------------
  // alloc, dealloc, free_count
  // ---------------------------------------------------------------------------

  /** All bits below `b` are taken. */
  ghost predicate FullBelow(s: Store, start: nat, n: nat, b: nat)
    requires IsBitmap(s, start, n)
  {
    forall c :: 0 <= c < b && c < n * BLOCK_BITS ==> BitAt(s, start, n, c)
  }

  /** What the `find` of `alloc` learns about one block. */
  lemma FullWords(s: Store, start: nat, n: nat, i: nat, ws: seq<nat>, j: nat)
    requires IsBitmap(s, start, n) && i < n && j <= WORDS && ws == AsWords(s[start + i])
    requires FullBelow(s, start, n, i * BLOCK_BITS)
    requires forall k :: 0 <= k < j ==> ws[k] == U64_MAX
    ensures FullBelow(s, start, n, i * BLOCK_BITS + j * WORD_BITS)
  {
    Pow2Of64();
    forall c | i * BLOCK_BITS <= c < i * BLOCK_BITS + j * WORD_BITS
      ensures BitAt(s, start, n, c)
    {
      Decompose(c);
      assert BlockOf(c) == i && WordOf(c) < j;
      AllOnes(WORD_BITS, PosOf(c));
      assert ws[WordOf(c)] == U64_MAX;
    }
  }

  lemma FirstClear(s: Store, start: nat, n: nat, i: nat, ws: seq<nat>, j: nat)
    requires IsBitmap(s, start, n) && i < n && j < WORDS && ws == AsWords(s[start + i])
    requires FullBelow(s, start, n, i * BLOCK_BITS + j * WORD_BITS)
    requires ws[j] != U64_MAX
    ensures var b := i * BLOCK_BITS + (j * WORD_BITS + TrailingOnes(ws[j]));
            && b < n * BLOCK_BITS && !BitAt(s, start, n, b) && FullBelow(s, start, n, b)
            && s[start + i := WithWord(s[start + i], j, OrBit(ws[j], TrailingOnes(ws[j])))] == BitSet(s, start, n, b)
  {
    Pow2Of64();
    TrailingOnesIsFirstClear(ws[j], WORD_BITS);
    var k := TrailingOnes(ws[j]);
    Compose(i, j, k);
    forall c | i * BLOCK_BITS + j * WORD_BITS <= c < i * BLOCK_BITS + (j * WORD_BITS + k)
      ensures BitAt(s, start, n, c)
    {
      Compose(i, j, c - (i * BLOCK_BITS + j * WORD_BITS));
    }
  }

  /** No block of the bitmap is held. */
  ghost predicate Unheld(pins: map<nat, Pin>, start: nat, n: nat) {
    forall id :: start <= id < start + n ==> id !in pins
  }

  function Peak(peak: nat, held: nat): (p: nat)
    ensures p >= peak && p >= held && (p == peak || p == held)
  {
    if held > peak then held else peak
  }

  lemma BitmapBlock(s: Store, pins: map<nat, Pin>, start: nat, n: nat, i: nat)
    requires IsBitmap(s, start, n) && Unheld(pins, start, n) && i < n
    ensures start + i in s && IsWords(s[start + i]) && start + i !in pins
  {
  }

  method FirstNotFull(ws: seq<nat>) returns (j: nat)
    requires |ws| == WORDS
    ensures j <= WORDS && (j < WORDS ==> ws[j] != U64_MAX)
    ensures forall k :: 0 <= k < j ==> ws[k] == U64_MAX
  {
    j := 0;
    while j < WORDS && ws[j] == U64_MAX
      invariant j <= WORDS
      invariant forall k :: 0 <= k < j ==> ws[k] == U64_MAX
    {
      j := j + 1;
    }
  }

  /** One round of the block loop of `alloc`, under the block's write lock. */
  method AllocIn(cm: CacheManager, start: nat, n: nat, i: nat) returns (r: Option<nat>)
    requires cm.Valid() && IsBitmap(cm.view, start, n) && Unheld(cm.pins, start, n) && |cm.pins| < CACHE_SIZE
    requires i < n && FullBelow(cm.view, start, n, i * BLOCK_BITS)
    modifies cm
    ensures cm.Valid() && cm.pins == old(cm.pins) && cm.peak == Peak(old(cm.peak), |cm.pins| + 1)
    ensures r.None? ==> cm.view == old(cm.view) && FullBelow(cm.view, start, n, (i + 1) * BLOCK_BITS)
    ensures r.Some? ==>
              && r.value < n * BLOCK_BITS
              && !BitAt(old(cm.view), start, n, r.value)
              && FullBelow(old(cm.view), start, n, r.value)
              && cm.view == BitSet(old(cm.view), start, n, r.value)
  {
    hide CacheManager.Valid, BitAt, FullBelow, BitSet, OrBit, WithWord, TrailingOnes, IsBitmap, IsWords, Unheld, AsWords;
    ghost var s, held := cm.view, cm.pins;
    var id := start + i;
    BitmapBlock(s, held, start, n, i);
    PinUnpin(held, id, Exclusive);
    cm.Open(id, true);
    var block := cm.Peek(id);
    var ws := AsWords(block);
    var j := FirstNotFull(ws);
    FullWords(s, start, n, i, ws, j);
    r := None;
    if j < WORDS {
      FirstClear(s, start, n, i, ws, j);
      var k := TrailingOnes(ws[j]);
      cm.Poke(id, WithWord(block, j, OrBit(ws[j], k)));
      r := Some(i * BLOCK_BITS + (j * WORD_BITS + k));
    }
    cm.Close(id);
  }

  /** Bitmap::alloc: takes the lowest clear bit; None exactly when every bit is set. */
  method Alloc(cm: CacheManager, start: nat, n: nat) returns (r: Option<nat>)
    requires cm.Valid() && IsBitmap(cm.view, start, n) && Unheld(cm.pins, start, n) && |cm.pins| < CACHE_SIZE
    modifies cm
    ensures cm.Valid() && cm.pins == old(cm.pins) && cm.peak <= Peak(old(cm.peak), |cm.pins| + 1)
    ensures r.None? <==> FullBelow(old(cm.view), start, n, n * BLOCK_BITS)
    ensures r.None? ==> cm.view == old(cm.view)
    ensures r.Some? ==>
              && r.value < n * BLOCK_BITS
              && r.value !in Bits(old(cm.view), start, n)
              && FullBelow(old(cm.view), start, n, r.value)
              && cm.view == BitSet(old(cm.view), start, n, r.value)
  {
    hide Coherent;
    for i := 0 to n
      invariant cm.Valid() && cm.pins == old(cm.pins) && cm.view == old(cm.view)
      invariant cm.peak <= Peak(old(cm.peak), |cm.pins| + 1)
      invariant FullBelow(cm.view, start, n, i * BLOCK_BITS)
    {
      r := AllocIn(cm, start, n, i);
      if r.Some? {
        return;
      }
    }
    r := None;
  }

  /** Bitmap::dealloc: the bit must be set, which the source asserts. */
  method Dealloc(cm: CacheManager, start: nat, n: nat, bit: nat)
    requires cm.Valid() && IsBitmap(cm.view, start, n) && Unheld(cm.pins, start, n) && |cm.pins| < CACHE_SIZE
    requires bit in Bits(cm.view, start, n)
    modifies cm
    ensures cm.Valid() && cm.pins == old(cm.pins) && cm.peak <= Peak(old(cm.peak), |cm.pins| + 1)
    ensures cm.view == BitCleared(old(cm.view), start, n, bit)
  {
    hide Coherent;
    Decompose(bit);
    ghost var held := cm.pins;
    var id := start + BlockOf(bit);
    cm.Open(id, true);
    var block := cm.Peek(id);
    var w := AsWords(block)[WordOf(bit)];
    assert Bit(w, PosOf(bit));
    SubBit(w, PosOf(bit), 0);
    cm.Poke(id, WithWord(block, WordOf(bit), w - Pow2(PosOf(bit))));
    cm.Close(id);
    assert cm.pins == held;
  }

  /** The bits set below `b`. */
  ghost function BitsBelow(s: Store, start: nat, n: nat, b: nat): set<nat>
    requires IsBitmap(s, start, n) && b <= n * BLOCK_BITS
  {
    set c | 0 <= c < b && BitAt(s, start, n, c)
  }

  ghost function OnesBelow(w: nat, k: nat): nat {
    if k == 0 then 0 else OnesBelow(w, k - 1) + if Bit(w, k - 1) then 1 else 0
  }

  lemma {:induction false} OnesBelowHalves(w: nat, k: nat)
    requires k > 0
    ensures OnesBelow(w, k) == w % 2 + OnesBelow(w / 2, k - 1)
  {
    if k == 1 {
    } else {
      OnesBelowHalves(w, k - 1);
    }
  }

  lemma {:induction false} OnesCountBits(w: nat, k: nat)
    requires w < Pow2(k)
    ensures Ones(w) == OnesBelow(w, k)
  {
    if k == 0 {
    } else {
      OnesBelowHalves(w, k);
      OnesCountBits(w / 2, k - 1);
    }
  }

  lemma OneMore(s: Store, start: nat, n: nat, b: nat)
    requires IsBitmap(s, start, n) && b < n * BLOCK_BITS
    ensures |BitsBelow(s, start, n, b + 1)| == |BitsBelow(s, start, n, b)| + if BitAt(s, start, n, b) then 1 else 0
  {
    hide BitAt;
    var below := BitsBelow(s, start, n, b);
    assert BitsBelow(s, start, n, b + 1) == if BitAt(s, start, n, b) then below + {b} else below;
  }

  /** Counting through one word. */
  lemma {:induction false} CountWord(s: Store, start: nat, n: nat, i: nat, j: nat, k: nat)
    requires IsBitmap(s, start, n) && i < n && j < WORDS && k <= WORD_BITS
    ensures var base := i * BLOCK_BITS + j * WORD_BITS;
            && base + k <= n * BLOCK_BITS
            && |BitsBelow(s, start, n, base + k)| ==
               |BitsBelow(s, start, n, base)| + OnesBelow(AsWords(s[start + i])[j], k)
  {
    hide BitsBelow;
    if k == 0 {
    } else {
      CountWord(s, start, n, i, j, k - 1);
      var b := i * BLOCK_BITS + j * WORD_BITS + (k - 1);
      Compose(i, j, k - 1);
      OneMore(s, start, n, b);
    }
  }

  lemma {:induction false} OnesBelowBound(w: nat, k: nat)
    ensures OnesBelow(w, k) <= k
  {
    if k == 0 {
    } else {
      OnesBelowBound(w, k - 1);
    }
  }

  method FreeInBlock(ws: seq<nat>, ghost s: Store, ghost start: nat, ghost n: nat, ghost i: nat)
    returns (free: nat)
    requires IsBitmap(s, start, n) && i < n && ws == AsWords(s[start + i])
    ensures free + |BitsBelow(s, start, n, i * BLOCK_BITS + BLOCK_BITS)| ==
            BLOCK_BITS + |BitsBelow(s, start, n, i * BLOCK_BITS)|
  {
    hide IsBitmap, BitsBelow, OnesBelow, Ones, Pow2, Bit;
    free := 0;
    Pow2Of64();
    for j := 0 to WORDS
      invariant free + |BitsBelow(s, start, n, i * BLOCK_BITS + j * WORD_BITS)| ==
                j * WORD_BITS + |BitsBelow(s, start, n, i * BLOCK_BITS)|
    {
      CountWord(s, start, n, i, j, WORD_BITS);
      OnesCountBits(ws[j], WORD_BITS);
      OnesBelowBound(ws[j], WORD_BITS);
      var ones := CountOnes(ws[j]);
      free := free + (WORD_BITS - ones);
    }
  }

  lemma NoneBelow(s: Store, start: nat, n: nat)
    requires IsBitmap(s, start, n)
    ensures BitsBelow(s, start, n, 0) == {}
  {
  }

  lemma AllBelow(s: Store, start: nat, n: nat)
    requires IsBitmap(s, start, n)
    ensures BitsBelow(s, start, n, n * BLOCK_BITS) == Bits(s, start, n)
  {
  }

  /** Bitmap::free_count: the free bits and the set bits are all the bits. */
  method FreeCount(cm: CacheManager, start: nat, n: nat) returns (free: nat)
    requires cm.Valid() && IsBitmap(cm.view, start, n) && Unheld(cm.pins, start, n) && |cm.pins| < CACHE_SIZE
    modifies cm
    ensures cm.Valid() && cm.view == old(cm.view) && cm.pins == old(cm.pins)
    ensures cm.peak <= Peak(old(cm.peak), |cm.pins| + 1)
    ensures free + |Bits(cm.view, start, n)| == n * BLOCK_BITS
  {
    hide Coherent, BitsBelow, BitAt;
    free := 0;
    ghost var s := cm.view;
    NoneBelow(s, start, n);
    for i := 0 to n
      invariant cm.Valid() && cm.view == s && cm.pins == old(cm.pins)
      invariant cm.peak <= Peak(old(cm.peak), |cm.pins| + 1)
      invariant free + |BitsBelow(s, start, n, i * BLOCK_BITS)| == i * BLOCK_BITS
    {
      BitmapBlock(s, cm.pins, start, n, i);
      var block := cm.Read(start + i);
      var here := FreeInBlock(AsWords(block), s, start, n, i);
      free := free + here;
    }
    AllBelow(s, start, n);
  }
}
