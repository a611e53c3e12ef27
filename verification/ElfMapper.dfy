/** Mapping the load segments of an ELF file: page table and physical memory as maps. */
module ElfMapper {
  import opened Prelude
  import opened Sequences

  /** A program header; `vaddr` and `offset` agree modulo the page size, as section "Program Header" of the gABI asks. */
  datatype Segment = Segment(load: bool, offset: nat, vaddr: nat, fileSize: nat, memSize: nat)

  datatype Outcome = Done | Failed | Panicked

  ghost predicate Frames(memory: map<nat, seq<byte>>) {
    forall f :: f in memory ==> |memory[f]| == PAGE
  }

  /** Reading virtual address `v` yields `b`. */
  ghost predicate Reads(table: map<nat, nat>, memory: map<nat, seq<byte>>, v: nat, b: byte) {
    && v / PAGE in table && table[v / PAGE] in memory && |memory[table[v / PAGE]]| == PAGE
    && memory[table[v / PAGE]][v % PAGE] == b
  }

  ghost predicate Contains(memory: map<nat, seq<byte>>, a: nat, b: byte) {
    a / PAGE in memory && |memory[a / PAGE]| == PAGE && memory[a / PAGE][a % PAGE] == b
  }

  /** The file lies in physical memory from `start` on. */
  ghost predicate FileAt(memory: map<nat, seq<byte>>, start: nat, file: seq<byte>) {
    forall a :: 0 <= a < |file| ==> Contains(memory, start + a, file[a])
  }

  /** How many bytes of memory the segment takes. */
  function Extent(seg: Segment): nat {
    if seg.memSize > seg.fileSize then seg.memSize else seg.fileSize
  }

  /** Address `v` of the segment reads as the program header says: the file's byte, or zero past its end. */
  ghost predicate Holds(table: map<nat, nat>, memory: map<nat, seq<byte>>, seg: Segment, file: seq<byte>, v: nat)
    requires seg.offset + seg.fileSize <= |file| && seg.vaddr <= v
  {
    Reads(table, memory, v, if v < seg.vaddr + seg.fileSize then file[seg.offset + (v - seg.vaddr)] else 0)
  }

  /** The memory image that the program header describes. */
  ghost predicate ImageOk(table: map<nat, nat>, memory: map<nat, seq<byte>>, seg: Segment, file: seq<byte>)
    requires seg.offset + seg.fileSize <= |file|
  {
    forall v :: seg.vaddr <= v < seg.vaddr + Extent(seg) ==> Holds(table, memory, seg, file, v)
  }

  /**
   * The pages that hold the file's bytes are as many as the frames that `map_segment` counts, which leaves
   * the offset inside the first page out of account.
   */
  predicate CountsPages(seg: Segment) {
    Extent(seg) == 0 || (seg.vaddr % PAGE + seg.fileSize - 1) / PAGE == (seg.fileSize - 1) / PAGE
  }

  /** Frames still to be handed out are different, exist and are not mapped. */
  ghost predicate PoolOk(table: map<nat, nat>, memory: map<nat, seq<byte>>, pool: seq<nat>) {
    && Distinct(pool) && Frames(memory)
    && (forall f :: f in pool ==> f in memory)
    && (forall p :: p in table ==> table[p] !in pool)
  }

  ghost predicate Unmapped(table: map<nat, nat>, p: nat, n: nat) {
    forall q :: p <= q < p + n ==> q !in table
  }

  /** `table` was extended at the pages `p .. p + n`, which were not mapped, and nowhere else. */
  ghost predicate Extends(before: map<nat, nat>, after: map<nat, nat>, p: nat, n: nat) {
    && (forall q :: q in after <==> q in before || p <= q < p + n)
    && (forall q :: q in before ==> !(p <= q < p + n) && after[q] == before[q])
  }

  /** Byte `o` of frame `f` is where some address of `from .. to` lies. */
  ghost predicate Touched(table: map<nat, nat>, from: nat, to: nat, f: nat, o: nat) {
    exists v :: from <= v < to && v / PAGE in table && table[v / PAGE] == f && v % PAGE == o
  }

  /** x86_64::align_up to the page size. */
  function AlignUp(a: nat): nat {
    (a + PAGE - 1) / PAGE * PAGE
  }

  /** The pages from that of `zeroStart` to that of `zeroEnd`, both included. */
  function BssPages(zeroStart: nat, zeroEnd: nat): nat
    requires zeroStart <= zeroEnd
  {
    zeroEnd / PAGE - zeroStart / PAGE + 1
  }

  /** The pages that are added past the file part, up to and with that of `zeroEnd`, are not mapped. */
  ghost predicate BssFree(table: map<nat, nat>, zeroStart: nat, zeroEnd: nat) {
    forall q :: AlignUp(zeroStart) / PAGE <= q <= zeroEnd / PAGE ==> q !in table
  }

  /** The `n` pages from that of `zeroStart` on map to the first `n` frames of the pool, other pages as before. */
  ghost predicate NewPages(before: map<nat, nat>, after: map<nat, nat>, pool: seq<nat>, rest: seq<nat>, zeroStart: nat, n: nat) {
    var first := zeroStart / PAGE;
    && n <= |pool| && rest == pool[n..]
    && (forall q :: q in after <==> q in before || first <= q < first + n)
    && (forall q :: first <= q < first + n ==> after[q] == pool[q - first])
    && (forall q :: q in before && !(first <= q < first + n) ==> after[q] == before[q])
  }

  /** Of the pages from `zeroStart` to `zeroEnd` at most the last page of the file was mapped before. */
  ghost predicate Remapped(before: map<nat, nat>, zeroStart: nat, zeroEnd: nat, lastPage: nat) {
    forall q :: q in before && zeroStart / PAGE <= q <= zeroEnd / PAGE ==> zeroStart % PAGE != 0 && q == lastPage
  }

  /** What the pages past the file part need: as many frames as pages, and pages that are not mapped. */
  lemma BssCount(t0: map<nat, nat>, t1: map<nat, nat>, pool: seq<nat>, p1: seq<nat>, zeroStart: nat, zeroEnd: nat, lastPage: nat, n: nat)
    requires zeroStart < zeroEnd
    requires zeroStart % PAGE == 0 ==> t1 == t0 && p1 == pool
    requires zeroStart % PAGE != 0 ==>
               && lastPage == zeroStart / PAGE && lastPage in t0 && pool != [] && p1 == pool[1..] && t1 == t0[lastPage := pool[0]]
    requires var s, e := AlignUp(zeroStart) / PAGE, zeroEnd / PAGE; n == if e >= s then e - s + 1 else 0
    ensures n <= |p1| <==> BssPages(zeroStart, zeroEnd) <= |pool|
    ensures Unmapped(t1, AlignUp(zeroStart) / PAGE, n) <==> BssFree(t0, zeroStart, zeroEnd)
  {
    var s := AlignUp(zeroStart) / PAGE;
    assert s == if zeroStart % PAGE == 0 then zeroStart / PAGE else zeroStart / PAGE + 1;
    assert forall q: nat :: s <= q ==> (q in t1 <==> q in t0);
  }

  /** Copying the last page and adding the pages after it takes the pool's frames in order. */
  lemma TableOfBss(t0: map<nat, nat>, t1: map<nat, nat>, t2: map<nat, nat>, pool: seq<nat>, p1: seq<nat>, p2: seq<nat>,
                   zeroStart: nat, zeroEnd: nat, lastPage: nat)
    requires zeroStart < zeroEnd
    requires zeroStart % PAGE == 0 ==> t1 == t0 && p1 == pool
    requires zeroStart % PAGE != 0 ==>
               && lastPage == zeroStart / PAGE && lastPage in t0 && pool != [] && p1 == pool[1..] && t1 == t0[lastPage := pool[0]]
    requires var s, e := AlignUp(zeroStart) / PAGE, zeroEnd / PAGE;
             var n := if e >= s then e - s + 1 else 0;
             && Extends(t1, t2, s, n) && n <= |p1| && p2 == p1[n..]
             && forall q :: s <= q < s + n ==> t2[q] == p1[q - s]
    ensures NewPages(t0, t2, pool, p2, zeroStart, BssPages(zeroStart, zeroEnd))
    ensures Remapped(t0, zeroStart, zeroEnd, lastPage)
  {
    var first := zeroStart / PAGE;
    var s := AlignUp(zeroStart) / PAGE;
    assert s == if zeroStart % PAGE == 0 then first else first + 1;
  }

  /** Every address to be zeroed is mapped, to a frame of the pool. */
  lemma BssMapped(t0: map<nat, nat>, t2: map<nat, nat>, memory: map<nat, seq<byte>>, pool: seq<nat>, rest: seq<nat>,
                  zeroStart: nat, zeroEnd: nat)
    requires zeroStart < zeroEnd && NewPages(t0, t2, pool, rest, zeroStart, BssPages(zeroStart, zeroEnd))
    requires forall f :: f in pool ==> f in memory
    ensures forall v :: zeroStart <= v < zeroEnd ==> v / PAGE in t2 && t2[v / PAGE] in memory && t2[v / PAGE] in pool
  {
    forall v | zeroStart <= v < zeroEnd
      ensures v / PAGE in t2 && t2[v / PAGE] in memory && t2[v / PAGE] in pool
    {
      var q := v / PAGE;
      assert zeroStart / PAGE <= q <= zeroEnd / PAGE;
      assert t2[q] == pool[q - zeroStart / PAGE];
    }
  }

  lemma SamePool(table: map<nat, nat>, memory: map<nat, seq<byte>>, memory': map<nat, seq<byte>>, pool: seq<nat>)
    requires PoolOk(table, memory, pool) && memory'.Keys == memory.Keys && Frames(memory')
    ensures PoolOk(table, memory', pool)
  {
  }

  /** Zeroing leaves the frames that were not in the pool alone. */
  lemma Outside(t2: map<nat, nat>, memory: map<nat, seq<byte>>, memory': map<nat, seq<byte>>, pool: seq<nat>,
                zeroStart: nat, zeroEnd: nat, n: nat, t0: map<nat, nat>, rest: seq<nat>)
    requires Frames(memory) && Frames(memory') && memory'.Keys == memory.Keys
    requires forall v :: zeroStart <= v < zeroEnd ==> v / PAGE in t2 && t2[v / PAGE] in pool
    requires forall f, o :: f in memory' && 0 <= o < PAGE ==>
                              memory'[f][o] == memory[f][o] || Touched(t2, zeroStart, zeroEnd, f, o)
    ensures forall f :: f in memory && f !in pool ==> memory'[f] == memory[f]
  {
    forall f | f in memory && f !in pool
      ensures memory'[f] == memory[f]
    {
      assert forall o :: 0 <= o < PAGE ==> memory'[f][o] == memory[f][o];
    }
  }

  /** The copy reads like the frame it was made of. */
  lemma CopyKeeps(t0: map<nat, nat>, m0: map<nat, seq<byte>>, t1: map<nat, nat>, m1: map<nat, seq<byte>>, pool: seq<nat>,
                  lastPage: nat, endFrame: int, copied: bool, v: nat, b: byte)
    requires PoolOk(t0, m0, pool) && Frames(m1) && m1.Keys == m0.Keys
    requires Reads(t0, m0, v, b)
    requires !copied ==> t1 == t0 && m1 == m0
    requires copied ==> pool != [] && lastPage in t0 && t1 == t0[lastPage := pool[0]]
    requires copied ==> forall f :: f in m1 && f != pool[0] ==> m1[f] == m0[f]
    requires copied && endFrame >= 0 && endFrame as nat in m0 ==> m1[pool[0]] == m0[endFrame as nat]
    requires copied && v / PAGE == lastPage ==> t0[lastPage] == endFrame
    ensures Reads(t1, m1, v, b)
  {
    if copied {
      assert pool[0] in pool;
      assert t0[v / PAGE] != pool[0];
    }
  }

  lemma CopyReads(t0: map<nat, nat>, m0: map<nat, seq<byte>>, t1: map<nat, nat>, m1: map<nat, seq<byte>>, pool: seq<nat>,
                  lastPage: nat, endFrame: nat, v: nat)
    requires Frames(m0) && Frames(m1) && m1.Keys == m0.Keys && pool != [] && pool[0] in m0
    requires lastPage in t0 && t1 == t0[lastPage := pool[0]] && endFrame in m0 && m1[pool[0]] == m0[endFrame]
    requires v / PAGE == lastPage
    ensures Reads(t1, m1, v, m0[endFrame][v % PAGE])
  {
  }

  ghost predicate PoolOkHere(table: map<nat, nat>, pool: seq<nat>) {
    Distinct(pool) && forall p :: p in table ==> table[p] !in pool
  }

  lemma NotTouched(t0: map<nat, nat>, t2: map<nat, nat>, pool: seq<nat>, rest: seq<nat>, zeroStart: nat, zeroEnd: nat, v: nat)
    requires zeroStart < zeroEnd && PoolOkHere(t0, pool) && NewPages(t0, t2, pool, rest, zeroStart, BssPages(zeroStart, zeroEnd))
    requires v < zeroStart && v / PAGE in t0
    ensures v / PAGE in t2 && !Touched(t2, zeroStart, zeroEnd, t2[v / PAGE], v % PAGE)
  {
    var first := zeroStart / PAGE;
    forall w | zeroStart <= w < zeroEnd && w / PAGE in t2 && t2[w / PAGE] == t2[v / PAGE]
      ensures w % PAGE != v % PAGE
    {
      var q := w / PAGE;
      assert first <= q <= zeroEnd / PAGE;
      assert t2[q] == pool[q - first] && pool[q - first] in pool;
      assert v / PAGE == q;
    }
  }

  /** Zeroing from `zeroStart` on does not reach the addresses below. */
  lemma BelowKeeps(t0: map<nat, nat>, t1: map<nat, nat>, t2: map<nat, nat>, memory: map<nat, seq<byte>>, memory': map<nat, seq<byte>>,
                   pool: seq<nat>, rest: seq<nat>, zeroStart: nat, zeroEnd: nat, v: nat, b: byte)
    requires zeroStart < zeroEnd && PoolOkHere(t0, pool) && NewPages(t0, t2, pool, rest, zeroStart, BssPages(zeroStart, zeroEnd))
    requires v < zeroStart && v / PAGE in t0 && v / PAGE in t1 && Reads(t1, memory, v, b)
    requires t2[v / PAGE] == t1[v / PAGE]
    requires Frames(memory) && Frames(memory') && memory'.Keys == memory.Keys
    requires forall f, o :: f in memory' && 0 <= o < PAGE ==>
                              memory'[f][o] == memory[f][o] || Touched(t2, zeroStart, zeroEnd, f, o)
    ensures Reads(t2, memory', v, b)
  {
    var f, o := t2[v / PAGE], v % PAGE;
    NotTouched(t0, t2, pool, rest, zeroStart, zeroEnd, v);
    assert memory'[f][o] == memory[f][o];
  }

  // ---------------------------------------------------------------------------
  // Segments
  // ---------------------------------------------------------------------------

  /** What the bootloader's own loading of the file and the ELF format give. */
  ghost predicate Loadable(seg: Segment, start: nat, file: seq<byte>) {
    && start % PAGE == 0 && start >= PAGE
    && seg.vaddr % PAGE == seg.offset % PAGE
    && seg.offset + seg.fileSize <= |file|
  }

  /** The frame allocator does not hand out the frames that hold the file. */
  ghost predicate FileApart(start: nat, file: seq<byte>, pool: seq<nat>) {
    forall f :: f in pool ==> f < start / PAGE || f * PAGE >= start + |file|
  }

  ghost predicate Suffix(rest: seq<nat>, pool: seq<nat>) {
    |rest| <= |pool| && rest == pool[|pool| - |rest|..]
  }

  /** Every page mapped before is mapped as before. */
  ghost predicate Grows(before: map<nat, nat>, after: map<nat, nat>) {
    forall p :: p in before ==> p in after && after[p] == before[p]
  }

  /** The last page the segment takes, and how many frames it asks the frame allocator for. */
  function EndPage(seg: Segment): int {
    if seg.memSize > seg.fileSize then (seg.vaddr + seg.memSize) / PAGE else seg.vaddr / PAGE + (seg.fileSize - 1) / PAGE
  }

  function NewFrames(seg: Segment): nat {
    if seg.memSize > seg.fileSize then BssPages(seg.vaddr + seg.fileSize, seg.vaddr + seg.memSize) else 0
  }

  /** Page `q` is one of the segment's. */
  ghost predicate InPages(seg: Segment, q: nat) {
    seg.load && seg.vaddr / PAGE <= q <= EndPage(seg)
  }

  /** The segment's pages are not mapped and the frame allocator has the frames it takes. */
  ghost predicate CanMap(table: map<nat, nat>, pool: seq<nat>, seg: Segment) {
    NewFrames(seg) <= |pool| && forall q :: InPages(seg, q) ==> q !in table
  }

  /** Exactly the segment's pages were added, and its frames taken. */
  ghost predicate Added(before: map<nat, nat>, pool: seq<nat>, after: map<nat, nat>, rest: seq<nat>, seg: Segment) {
    |rest| + NewFrames(seg) == |pool| && forall q :: q in after <==> q in before || InPages(seg, q)
  }

  /** The page of the last byte of the file part. */
  function LastPage(seg: Segment): int {
    (seg.vaddr + seg.fileSize - 1) / PAGE
  }

  /** How many pages `map_segment` maps to the file's own frames. */
  function FilePages(seg: Segment): nat {
    (seg.fileSize - 1) / PAGE + 1
  }

  /** The last page of the file part is copied to a frame of its own. */
  predicate Recopied(seg: Segment) {
    seg.memSize > seg.fileSize && (seg.vaddr + seg.fileSize) % PAGE != 0
  }

  /** Miscounted, the segment finds the pages it maps free, and the page it left out mapped if it wants to copy that. */
  ghost predicate CanMapShort(table: map<nat, nat>, pool: seq<nat>, seg: Segment) {
    && Unmapped(table, seg.vaddr / PAGE, FilePages(seg)) && NewFrames(seg) <= |pool|
    && (seg.memSize > seg.fileSize ==> BssFree(table, seg.vaddr + seg.fileSize, seg.vaddr + seg.memSize))
    && (Recopied(seg) ==> exists q :: q in table && q == LastPage(seg))
  }

  /** Miscounted, the segment maps page `q`. */
  ghost predicate InShort(seg: Segment, q: nat) {
    || seg.vaddr / PAGE <= q < seg.vaddr / PAGE + FilePages(seg)
    || (seg.memSize > seg.fileSize && AlignUp(seg.vaddr + seg.fileSize) / PAGE <= q <= (seg.vaddr + seg.memSize) / PAGE)
  }

  /** Exactly those pages were added, the frames taken, and no page but the copied one mapped elsewhere. */
  ghost predicate AddedShort(before: map<nat, nat>, pool: seq<nat>, after: map<nat, nat>, rest: seq<nat>, seg: Segment) {
    && |rest| + NewFrames(seg) == |pool| && (forall q :: q in after <==> q in before || InShort(seg, q))
    && (forall p :: p in before && (Recopied(seg) ==> p != LastPage(seg)) ==> after[p] == before[p])
  }

  /** Miscounted, the segment wants to copy a page that is not mapped. */
  ghost predicate PanicsShort(table: map<nat, nat>, pool: seq<nat>, seg: Segment) {
    Unmapped(table, seg.vaddr / PAGE, FilePages(seg)) && Recopied(seg) && pool != [] && forall q :: q in table ==> q != LastPage(seg)
  }

  /** The addresses of the file part in its last page. */
  predicate InTail(seg: Segment, v: nat) {
    seg.vaddr <= v < seg.vaddr + seg.fileSize && v / PAGE == LastPage(seg)
  }

  ghost predicate TailHolds(table: map<nat, nat>, memory: map<nat, seq<byte>>, seg: Segment, file: seq<byte>)
    requires seg.offset + seg.fileSize <= |file|
  {
    forall v: nat :: InTail(seg, v) ==> Holds(table, memory, seg, file, v)
  }

  /** The file part's bytes in its last page are those one page before them in the file. */
  ghost predicate TailRepeats(seg: Segment, file: seq<byte>)
    requires seg.offset + seg.fileSize <= |file|
  {
    forall v: nat :: InTail(seg, v) ==>
      var a := seg.offset + (v - seg.vaddr); a >= PAGE && file[a] == file[a - PAGE]
  }

  lemma Counting(seg: Segment, start: nat, file: seq<byte>, physStart: nat, startFrame: nat, endFrame: int)
    requires Loadable(seg, start, file)
    requires physStart == start + (seg.offset - seg.offset % PAGE)
    requires startFrame == physStart / PAGE && endFrame == (physStart + seg.fileSize - 1) / PAGE
    ensures physStart == startFrame * PAGE && startFrame > 0
    ensures endFrame - startFrame + 1 == FilePages(seg)
    ensures LastPage(seg) == seg.vaddr / PAGE + (seg.vaddr % PAGE + seg.fileSize - 1) / PAGE
  {
  }

  lemma LastPageIs(seg: Segment, zeroStart: nat)
    requires zeroStart == seg.vaddr + seg.fileSize && zeroStart % PAGE != 0
    ensures zeroStart > 0 && (zeroStart - 1) / PAGE == zeroStart / PAGE == LastPage(seg)
  {
  }

  /** The frames mapped for the file hold bytes of the file, so they are not in the pool. */
  lemma FramesApart(t0: map<nat, nat>, t1: map<nat, nat>, memory: map<nat, seq<byte>>, pool: seq<nat>, start: nat, file: seq<byte>,
                    seg: Segment, startFrame: nat, n: nat)
    requires PoolOk(t0, memory, pool) && FileApart(start, file, pool) && Loadable(seg, start, file)
    requires startFrame * PAGE == start + (seg.offset - seg.offset % PAGE) && n == FilePages(seg)
    requires Extends(t0, t1, seg.vaddr / PAGE, n)
    requires forall q :: seg.vaddr / PAGE <= q < seg.vaddr / PAGE + n ==> t1[q] == startFrame + (q - seg.vaddr / PAGE)
    ensures PoolOk(t1, memory, pool)
  {
    var page := seg.vaddr / PAGE;
    forall q | page <= q < page + n
      ensures t1[q] !in pool
    {
      var k := q - page;
      var a := startFrame * PAGE + k * PAGE - start;
      assert 0 <= a < |file|;
      assert (start + a) / PAGE == startFrame + k;
    }
  }

  lemma FileByte(memory: map<nat, seq<byte>>, start: nat, file: seq<byte>, a: nat)
    requires FileAt(memory, start, file) && a < |file|
    ensures (start + a) / PAGE in memory && |memory[(start + a) / PAGE]| == PAGE
    ensures memory[(start + a) / PAGE][(start + a) % PAGE] == file[a]
  {
    var b := file[a];
  }

  /** Every byte of the file part that lies in the pages counted, all of them if counted right, is mapped to where it lies. */
  lemma FileMapped(t1: map<nat, nat>, memory: map<nat, seq<byte>>, seg: Segment, start: nat, file: seq<byte>, startFrame: nat, n: nat)
    requires FileAt(memory, start, file) && Loadable(seg, start, file)
    requires startFrame * PAGE == start + (seg.offset - seg.offset % PAGE) && n == FilePages(seg)
    requires forall q :: seg.vaddr / PAGE <= q < seg.vaddr / PAGE + n ==> q in t1 && t1[q] == startFrame + (q - seg.vaddr / PAGE)
    ensures forall v :: seg.vaddr <= v < seg.vaddr + seg.fileSize && v / PAGE < seg.vaddr / PAGE + n ==> Holds(t1, memory, seg, file, v)
    ensures CountsPages(seg) ==> forall v :: seg.vaddr <= v < seg.vaddr + seg.fileSize ==> Holds(t1, memory, seg, file, v)
  {
    assert CountsPages(seg) ==> forall v :: seg.vaddr <= v < seg.vaddr + seg.fileSize ==> v / PAGE < seg.vaddr / PAGE + n;
    forall v | seg.vaddr <= v < seg.vaddr + seg.fileSize && v / PAGE < seg.vaddr / PAGE + n
      ensures Holds(t1, memory, seg, file, v)
    {
      var a := seg.offset + (v - seg.vaddr);
      var q := v / PAGE;
      assert q - seg.vaddr / PAGE <= (seg.vaddr % PAGE + seg.fileSize - 1) / PAGE;
      assert (start + a) / PAGE == startFrame + (q - seg.vaddr / PAGE) && (start + a) % PAGE == v % PAGE;
      FileByte(memory, start, file, a);
    }
  }

  lemma SuffixOf(pool: seq<nat>, rest: seq<nat>, t1: map<nat, nat>, t2: map<nat, nat>, zeroStart: nat, n: nat)
    requires NewPages(t1, t2, pool, rest, zeroStart, n)
    ensures Suffix(rest, pool)
  {
  }

  lemma SuffixSelf(pool: seq<nat>)
    ensures Suffix(pool, pool)
  {
  }

  /** A file page that is mapped already stands in the segment's way. */
  lemma FilePagesTaken(table: map<nat, nat>, pool: seq<nat>, seg: Segment, n: nat)
    requires seg.load && n == FilePages(seg) && !Unmapped(table, seg.vaddr / PAGE, n)
    ensures CountsPages(seg) ==> !CanMap(table, pool, seg)
  {
    var q :| seg.vaddr / PAGE <= q < seg.vaddr / PAGE + n && q in table;
    assert InPages(seg, q);
  }

  lemma FilePagesAdded(t0: map<nat, nat>, t1: map<nat, nat>, pool: seq<nat>, seg: Segment, n: nat)
    requires seg.memSize <= seg.fileSize && n == FilePages(seg) && Extends(t0, t1, seg.vaddr / PAGE, n)
    ensures CanMap(t0, pool, seg) && (seg.load ==> Added(t0, pool, t1, pool, seg))
  {
  }

  /** With the pages counted right, the pages past the file part follow the file pages. */
  lemma BssStart(seg: Segment, n: nat)
    requires CountsPages(seg) && seg.memSize > seg.fileSize && n == FilePages(seg)
    requires LastPage(seg) == seg.vaddr / PAGE + (seg.vaddr % PAGE + seg.fileSize - 1) / PAGE
    ensures var zeroStart, zeroEnd := seg.vaddr + seg.fileSize, seg.vaddr + seg.memSize;
            && AlignUp(zeroStart) / PAGE == seg.vaddr / PAGE + n
            && EndPage(seg) == zeroEnd / PAGE >= seg.vaddr / PAGE + n - 1
            && NewFrames(seg) == BssPages(zeroStart, zeroEnd)
            && (zeroStart % PAGE != 0 ==> n >= 1 && LastPage(seg) == seg.vaddr / PAGE + n - 1)
  {
  }

  /** What is left to ask once the file pages are mapped. */
  lemma SegmentRoom(t0: map<nat, nat>, t1: map<nat, nat>, pool: seq<nat>, seg: Segment, n: nat)
    requires CountsPages(seg) && seg.load && seg.memSize > seg.fileSize
    requires n == FilePages(seg) && Extends(t0, t1, seg.vaddr / PAGE, n)
    requires LastPage(seg) == seg.vaddr / PAGE + (seg.vaddr % PAGE + seg.fileSize - 1) / PAGE
    ensures var zeroStart, zeroEnd := seg.vaddr + seg.fileSize, seg.vaddr + seg.memSize;
            && (CanMap(t0, pool, seg) <==> BssPages(zeroStart, zeroEnd) <= |pool| && BssFree(t1, zeroStart, zeroEnd))
            && (zeroStart % PAGE != 0 ==> LastPage(seg) >= 0 && LastPage(seg) as nat in t1)
  {
    BssStart(seg, n);
    hide AlignUp, EndPage, CountsPages, LastPage, BssPages;
    var s := seg.vaddr / PAGE + n;
    assert forall q: nat :: s <= q ==> (q in t1 <==> q in t0);
  }

  lemma AllPagesAdded(t0: map<nat, nat>, t1: map<nat, nat>, t2: map<nat, nat>, pool: seq<nat>, rest: seq<nat>, seg: Segment, n: nat)
    requires CountsPages(seg) && seg.memSize > seg.fileSize
    requires n == FilePages(seg) && Extends(t0, t1, seg.vaddr / PAGE, n)
    requires var zeroStart, zeroEnd := seg.vaddr + seg.fileSize, seg.vaddr + seg.memSize;
             NewPages(t1, t2, pool, rest, zeroStart, BssPages(zeroStart, zeroEnd))
    ensures seg.load ==> Added(t0, pool, t2, rest, seg)
  {
    var first := (seg.vaddr + seg.fileSize) / PAGE;
    assert seg.vaddr / PAGE <= first <= seg.vaddr / PAGE + n;
    assert first + BssPages(seg.vaddr + seg.fileSize, seg.vaddr + seg.memSize) == EndPage(seg) + 1;
  }

  lemma FramesOfPool(table: map<nat, nat>, memory: map<nat, seq<byte>>, pool: seq<nat>)
    requires PoolOk(table, memory, pool)
    ensures Frames(memory)
  {
  }

  lemma ImageOfFile(table: map<nat, nat>, memory: map<nat, seq<byte>>, seg: Segment, file: seq<byte>)
    requires seg.offset + seg.fileSize <= |file| && seg.memSize <= seg.fileSize
    requires forall v :: seg.vaddr <= v < seg.vaddr + seg.fileSize ==> Holds(table, memory, seg, file, v)
    ensures ImageOk(table, memory, seg, file)
  {
  }

  lemma GrowsByFrames(t0: map<nat, nat>, t1: map<nat, nat>, p: nat, n: nat)
    requires Extends(t0, t1, p, n)
    ensures Grows(t0, t1)
  {
  }

  lemma AfterBss(t0: map<nat, nat>, t1: map<nat, nat>, m1: map<nat, seq<byte>>, t2: map<nat, nat>, m2: map<nat, seq<byte>>,
                 seg: Segment, file: seq<byte>, startFrame: nat, n: nat, endFrame: int, lastPage: nat, rest: seq<nat>, pool: seq<nat>)
    requires seg.offset + seg.fileSize <= |file| && seg.memSize > seg.fileSize && CountsPages(seg)
    requires n == FilePages(seg) && endFrame - startFrame + 1 == n
    requires Extends(t0, t1, seg.vaddr / PAGE, n)
    requires forall q :: seg.vaddr / PAGE <= q < seg.vaddr / PAGE + n ==> t1[q] == startFrame + (q - seg.vaddr / PAGE)
    requires forall v :: seg.vaddr <= v < seg.vaddr + seg.fileSize ==> Holds(t1, m1, seg, file, v)
    requires LastPage(seg) == seg.vaddr / PAGE + (seg.vaddr % PAGE + seg.fileSize - 1) / PAGE
    requires var zeroStart, zeroEnd := seg.vaddr + seg.fileSize, seg.vaddr + seg.memSize;
             && (zeroStart % PAGE != 0 ==> lastPage == LastPage(seg))
             && NewPages(t1, t2, pool, rest, zeroStart, BssPages(zeroStart, zeroEnd))
             && Remapped(t1, zeroStart, zeroEnd, lastPage)
             && (forall v :: zeroStart <= v < zeroEnd ==> Reads(t2, m2, v, 0))
             && (forall v, b :: v < zeroStart && v / PAGE in t1 && Reads(t1, m1, v, b)
                                && (zeroStart % PAGE != 0 && v / PAGE == lastPage ==> t1[lastPage] == endFrame)
                                ==> Reads(t2, m2, v, b))
    ensures ImageOk(t2, m2, seg, file)
    ensures Grows(t0, t2)
  {
    var zeroStart := seg.vaddr + seg.fileSize;
    if zeroStart % PAGE != 0 {
      assert lastPage == seg.vaddr / PAGE + n - 1;
    }
    forall v | seg.vaddr <= v < seg.vaddr + Extent(seg)
      ensures Holds(t2, m2, seg, file, v)
    {
      if v < zeroStart {
        assert Holds(t1, m1, seg, file, v);
        assert v / PAGE in t1;
      }
    }
  }

  // ---------------------------------------------------------------------------
  // Miscounted segments
  // ---------------------------------------------------------------------------

  /** Miscounted, the last page of the file part is the one after the pages counted. */
  lemma ShortByOne(seg: Segment)
    requires !CountsPages(seg)
    ensures LastPage(seg) == seg.vaddr / PAGE + FilePages(seg)
    ensures forall v :: seg.vaddr <= v < seg.vaddr + seg.fileSize ==> v / PAGE < seg.vaddr / PAGE + FilePages(seg) || InTail(seg, v)
    ensures var zeroStart := seg.vaddr + seg.fileSize;
            && AlignUp(zeroStart) / PAGE == LastPage(seg) + 1
            && zeroStart / PAGE == if zeroStart % PAGE == 0 then LastPage(seg) + 1 else LastPage(seg)
  {
  }

  /** What is left to ask once the counted pages are mapped. */
  lemma ShortRoom(t0: map<nat, nat>, t1: map<nat, nat>, pool: seq<nat>, seg: Segment)
    requires !CountsPages(seg) && Extends(t0, t1, seg.vaddr / PAGE, FilePages(seg))
    ensures LastPage(seg) >= 0
    ensures LastPage(seg) as nat in t1 <==> LastPage(seg) as nat in t0
    ensures seg.memSize <= seg.fileSize ==> CanMapShort(t0, pool, seg) && !PanicsShort(t0, pool, seg)
    ensures seg.memSize > seg.fileSize ==>
              var zeroStart, zeroEnd := seg.vaddr + seg.fileSize, seg.vaddr + seg.memSize;
              && (CanMapShort(t0, pool, seg) <==>
                  && BssPages(zeroStart, zeroEnd) <= |pool| && BssFree(t1, zeroStart, zeroEnd)
                  && (zeroStart % PAGE != 0 ==> LastPage(seg) as nat in t1))
              && (PanicsShort(t0, pool, seg) <==> zeroStart % PAGE != 0 && pool != [] && LastPage(seg) as nat !in t1)
  {
    ShortByOne(seg);
    hide AlignUp, CountsPages, LastPage, FilePages, BssPages;
    var s := seg.vaddr / PAGE + FilePages(seg);
    assert forall q: nat :: s <= q ==> (q in t1 <==> q in t0);
  }

  lemma ShortTaken(t0: map<nat, nat>, pool: seq<nat>, seg: Segment)
    requires !Unmapped(t0, seg.vaddr / PAGE, FilePages(seg))
    ensures !CanMapShort(t0, pool, seg) && !PanicsShort(t0, pool, seg)
  {
  }

  /** The counted pages and the zeroed part being right, the image is right if and only if the last file page is. */
  lemma ImageByTail(t: map<nat, nat>, m: map<nat, seq<byte>>, seg: Segment, file: seq<byte>)
    requires seg.offset + seg.fileSize <= |file| && !CountsPages(seg)
    requires forall v :: seg.vaddr <= v < seg.vaddr + seg.fileSize && v / PAGE < seg.vaddr / PAGE + FilePages(seg) ==> Holds(t, m, seg, file, v)
    requires forall v :: seg.vaddr + seg.fileSize <= v < seg.vaddr + Extent(seg) ==> Reads(t, m, v, 0)
    ensures ImageOk(t, m, seg, file) <==> TailHolds(t, m, seg, file)
  {
    ShortByOne(seg);
    hide Reads, CountsPages, LastPage, FilePages;
    if TailHolds(t, m, seg, file) {
      forall v | seg.vaddr <= v < seg.vaddr + Extent(seg)
        ensures Holds(t, m, seg, file, v)
      {
      }
    }
  }

  /** Where the last file page stays as it was, what it held before decides. */
  lemma TailAsBefore(t0: map<nat, nat>, m0: map<nat, seq<byte>>, t: map<nat, nat>, m: map<nat, seq<byte>>, pool: seq<nat>,
                     seg: Segment, file: seq<byte>)
    requires seg.offset + seg.fileSize <= |file| && PoolOk(t0, m0, pool) && LastPage(seg) >= 0
    requires m.Keys == m0.Keys && forall f :: f in m && f !in pool ==> m[f] == m0[f]
    requires var q: nat := LastPage(seg); (q in t <==> q in t0) && (q in t0 ==> t[q] == t0[q])
    ensures TailHolds(t, m, seg, file) <==> TailHolds(t0, m0, seg, file)
  {
    forall v: nat, b: byte | InTail(seg, v)
      ensures Reads(t, m, v, b) <==> Reads(t0, m0, v, b)
    {
    }
    hide Reads, InTail, LastPage;
  }

  lemma TailOffset(seg: Segment, start: nat, frame: nat, v: nat)
    requires start % PAGE == 0 && seg.vaddr % PAGE == seg.offset % PAGE && seg.fileSize > 0 && !CountsPages(seg) && InTail(seg, v)
    requires (frame + 1 - FilePages(seg)) * PAGE == start + (seg.offset - seg.offset % PAGE)
    ensures var a := seg.offset + (v - seg.vaddr); a >= PAGE && (start + (a - PAGE)) / PAGE == frame && (start + (a - PAGE)) % PAGE == v % PAGE
  {
    ShortByOne(seg);
    var a := seg.offset + (v - seg.vaddr);
    assert v == (seg.vaddr / PAGE + FilePages(seg)) * PAGE + v % PAGE;
    assert a == seg.offset - seg.offset % PAGE + FilePages(seg) * PAGE + v % PAGE;
  }

  /** Where it is a copy of the last frame counted, it repeats the page before it in the file. */
  lemma TailOfCopy(t: map<nat, nat>, m0: map<nat, seq<byte>>, m: map<nat, seq<byte>>, seg: Segment, start: nat, file: seq<byte>, frame: nat)
    requires Loadable(seg, start, file) && FileAt(m0, start, file) && !CountsPages(seg) && seg.fileSize > 0
    requires (frame + 1 - FilePages(seg)) * PAGE == start + (seg.offset - seg.offset % PAGE)
    requires frame in m0 && |m0[frame]| == PAGE
    requires forall v: nat :: InTail(seg, v) ==> Reads(t, m, v, m0[frame][v % PAGE])
    ensures TailHolds(t, m, seg, file) <==> TailRepeats(seg, file)
  {
    ShortByOne(seg);
    forall v: nat | InTail(seg, v)
      ensures var a := seg.offset + (v - seg.vaddr); a >= PAGE && m0[frame][v % PAGE] == file[a - PAGE]
    {
      TailOffset(seg, start, frame, v);
      FileByte(m0, start, file, seg.offset + (v - seg.vaddr) - PAGE);
    }
    hide CountsPages, FilePages, Loadable, FileAt, InTail;
  }

  /** Nothing but the counted pages was added. */
  lemma ShortOfFile(t0: map<nat, nat>, t1: map<nat, nat>, m: map<nat, seq<byte>>, pool: seq<nat>, seg: Segment, file: seq<byte>)
    requires seg.offset + seg.fileSize <= |file| && !CountsPages(seg) && seg.memSize <= seg.fileSize
    requires Extends(t0, t1, seg.vaddr / PAGE, FilePages(seg)) && PoolOk(t0, m, pool)
    requires forall v :: seg.vaddr <= v < seg.vaddr + seg.fileSize && v / PAGE < seg.vaddr / PAGE + FilePages(seg) ==> Holds(t1, m, seg, file, v)
    ensures ImageOk(t1, m, seg, file) <==> TailHolds(t0, m, seg, file)
  {
    ShortByOne(seg);
    hide Reads, Frames, CountsPages, LastPage, FilePages, Holds, ImageOk, TailHolds, PoolOk;
    ImageByTail(t1, m, seg, file);
    TailAsBefore(t0, m, t1, m, pool, seg, file);
  }

  lemma NoTail(t: map<nat, nat>, m: map<nat, seq<byte>>, seg: Segment, file: seq<byte>)
    requires seg.fileSize == 0 && seg.offset <= |file|
    ensures TailHolds(t, m, seg, file) && TailRepeats(seg, file)
  {
  }

  lemma EndFrameIs(memory: map<nat, seq<byte>>, seg: Segment, start: nat, file: seq<byte>, endFrame: int)
    requires Loadable(seg, start, file) && FileAt(memory, start, file) && seg.fileSize > 0
    requires (endFrame + 1 - FilePages(seg)) * PAGE == start + (seg.offset - seg.offset % PAGE)
    ensures endFrame >= 0 && endFrame as nat in memory && |memory[endFrame as nat]| == PAGE
  {
    var a := seg.offset - seg.offset % PAGE + (FilePages(seg) - 1) * PAGE;
    assert a < |file| && start + a == endFrame * PAGE;
    FileByte(memory, start, file, a);
  }

  /** The zeroed part was added, and the last file page copied if it ends inside a page. */
  lemma ShortOfBss(t0: map<nat, nat>, t1: map<nat, nat>, m1: map<nat, seq<byte>>, t2: map<nat, nat>, m2: map<nat, seq<byte>>,
                   pool: seq<nat>, rest: seq<nat>, seg: Segment, start: nat, file: seq<byte>, endFrame: int, lastPage: nat)
    requires Loadable(seg, start, file) && FileAt(m1, start, file) && !CountsPages(seg) && seg.memSize > seg.fileSize
    requires (endFrame + 1 - FilePages(seg)) * PAGE == start + (seg.offset - seg.offset % PAGE)
    requires Extends(t0, t1, seg.vaddr / PAGE, FilePages(seg)) && PoolOk(t0, m1, pool)
    requires forall v :: seg.vaddr <= v < seg.vaddr + seg.fileSize && v / PAGE < seg.vaddr / PAGE + FilePages(seg) ==> Holds(t1, m1, seg, file, v)
    requires m2.Keys == m1.Keys && forall f :: f in m2 && f !in pool ==> m2[f] == m1[f]
    requires var zeroStart, zeroEnd := seg.vaddr + seg.fileSize, seg.vaddr + seg.memSize;
             && (zeroStart % PAGE != 0 ==> lastPage == LastPage(seg))
             && NewPages(t1, t2, pool, rest, zeroStart, BssPages(zeroStart, zeroEnd))
             && (forall v :: zeroStart <= v < zeroEnd ==> Reads(t2, m2, v, 0))
             && (forall v, b :: v < zeroStart && v / PAGE in t1 && Reads(t1, m1, v, b)
                                && (zeroStart % PAGE != 0 && v / PAGE == lastPage ==> t1[lastPage] == endFrame)
                                ==> Reads(t2, m2, v, b))
             && (zeroStart % PAGE != 0 && endFrame >= 0 && endFrame as nat in m1 && |m1[endFrame as nat]| == PAGE ==>
                   forall v :: lastPage * PAGE <= v < zeroStart ==> Reads(t2, m2, v, m1[endFrame as nat][v % PAGE]))
    ensures ImageOk(t2, m2, seg, file) <==> if Recopied(seg) then TailRepeats(seg, file) else TailHolds(t0, m1, seg, file)
  {
    ShortByOne(seg);
    hide Frames, CountsPages, FilePages, ImageOk, TailHolds, TailRepeats, PoolOk, FileAt;
    forall v | seg.vaddr <= v < seg.vaddr + seg.fileSize && v / PAGE < seg.vaddr / PAGE + FilePages(seg)
      ensures Holds(t2, m2, seg, file, v)
    {
      assert Holds(t1, m1, seg, file, v);
    }
    ImageByTail(t2, m2, seg, file);
    if !Recopied(seg) {
      TailAsBefore(t0, m1, t2, m2, pool, seg, file);
    } else if seg.fileSize > 0 {
      EndFrameIs(m1, seg, start, file, endFrame);
      TailOfCopy(t2, m1, m2, seg, start, file, endFrame as nat);
    } else {
      NoTail(t2, m2, seg, file);
    }
  }

  lemma ShortPagesAdded(t0: map<nat, nat>, t1: map<nat, nat>, t2: map<nat, nat>, pool: seq<nat>, rest: seq<nat>, seg: Segment)
    requires !CountsPages(seg) && Extends(t0, t1, seg.vaddr / PAGE, FilePages(seg))
    requires seg.memSize <= seg.fileSize ==> t2 == t1 && rest == pool
    requires seg.memSize > seg.fileSize ==>
               var zeroStart, zeroEnd := seg.vaddr + seg.fileSize, seg.vaddr + seg.memSize;
               && NewPages(t1, t2, pool, rest, zeroStart, BssPages(zeroStart, zeroEnd)) && BssFree(t1, zeroStart, zeroEnd)
               && (Recopied(seg) ==> exists q :: q in t0 && q == LastPage(seg))
    ensures AddedShort(t0, pool, t2, rest, seg)
  {
    ShortByOne(seg);
    hide CountsPages, LastPage, FilePages, AlignUp;
  }

  // ---------------------------------------------------------------------------
  // Several segments
  // ---------------------------------------------------------------------------

  lemma FileStays(memory: map<nat, seq<byte>>, memory': map<nat, seq<byte>>, start: nat, file: seq<byte>, pool: seq<nat>)
    requires FileAt(memory, start, file) && FileApart(start, file, pool) && memory'.Keys == memory.Keys
    requires forall f :: f in memory' && f !in pool ==> memory'[f] == memory[f]
    ensures FileAt(memory', start, file)
  {
    forall a | 0 <= a < |file|
      ensures Contains(memory', start + a, file[a])
    {
      FileByte(memory, start, file, a);
      assert (start + a) / PAGE !in pool;
    }
  }

  lemma LessPool(start: nat, file: seq<byte>, pool: seq<nat>, rest: seq<nat>)
    requires FileApart(start, file, pool) && Suffix(rest, pool)
    ensures FileApart(start, file, rest)
  {
    forall f | f in rest
      ensures f in pool
    {
      var i :| 0 <= i < |rest| && rest[i] == f;
      assert pool[|pool| - |rest| + i] == f;
    }
  }

  /** The segment is loaded and some byte of it lies in page `q`. */
  ghost predicate HoldsBytes(seg: Segment, q: nat) {
    seg.load && exists v :: seg.vaddr <= v < seg.vaddr + Extent(seg) && v / PAGE == q
  }

  /** The pages that hold bytes of the segment are mapped as before. */
  ghost predicate KeepsPages(before: map<nat, nat>, after: map<nat, nat>, seg: Segment) {
    forall q :: HoldsBytes(seg, q) && q in before ==> q in after && after[q] == before[q]
  }

  /** Mapping another segment leaves an image alone: its pages stay and its frames are no longer in the pool. */
  lemma ImageStays(t: map<nat, nat>, m: map<nat, seq<byte>>, pool: seq<nat>, t': map<nat, nat>, m': map<nat, seq<byte>>,
                   seg: Segment, file: seq<byte>)
    requires seg.load && seg.offset + seg.fileSize <= |file| && ImageOk(t, m, seg, file) && PoolOk(t, m, pool)
    requires KeepsPages(t, t', seg)
    requires m'.Keys == m.Keys && forall f :: f in m' && f !in pool ==> m'[f] == m[f]
    ensures ImageOk(t', m', seg, file)
  {
    forall v | seg.vaddr <= v < seg.vaddr + Extent(seg)
      ensures Holds(t', m', seg, file, v)
    {
      assert Holds(t, m, seg, file, v);
      assert HoldsBytes(seg, v / PAGE);
    }
  }

  lemma GrowsKeeps(t: map<nat, nat>, t': map<nat, nat>, seg: Segment)
    requires Grows(t, t')
    ensures KeepsPages(t, t', seg)
  {
    hide HoldsBytes;
  }

  ghost predicate Spares(later: Segment, seg: Segment) {
    later.load && !CountsPages(later) && Recopied(later) ==> forall q :: HoldsBytes(seg, q) ==> q != LastPage(later)
  }

  /** No later segment, being miscounted, copies a page that holds bytes of segment `k`. */
  ghost predicate Spared(segs: seq<Segment>, k: nat)
    requires k < |segs|
  {
    forall j :: k < j < |segs| ==> Spares(segs[j], segs[k])
  }

  lemma ShortKeeps(t: map<nat, nat>, p: seq<nat>, t': map<nat, nat>, p': seq<nat>, later: Segment, seg: Segment)
    requires later.load && !CountsPages(later) && AddedShort(t, p, t', p', later) && Spares(later, seg)
    ensures KeepsPages(t, t', seg)
  {
    hide HoldsBytes, CountsPages, Recopied, LastPage, InShort;
  }

  lemma SparedMore(segs: seq<Segment>, i: nat, k: nat)
    requires k < i < |segs| && Spared(segs[..i + 1], k)
    ensures Spared(segs[..i], k) && Spares(segs[i], segs[k])
  {
    hide Spares;
    forall j | k < j < i
      ensures Spares(segs[..i][j], segs[..i][k])
    {
      assert segs[..i + 1][j] == segs[..i][j];
    }
    assert segs[..i + 1][i] == segs[i];
  }

  // ---------------------------------------------------------------------------
  // How mapping the segments in turn ends
  // ---------------------------------------------------------------------------

  ghost function OutcomeOf(table: map<nat, nat>, pool: seq<nat>, seg: Segment): Outcome {
    if !seg.load then Done
    else if CountsPages(seg) then if CanMap(table, pool, seg) then Done else Failed
    else if CanMapShort(table, pool, seg) then Done
    else if PanicsShort(table, pool, seg) then Panicked
    else Failed
  }

  /** It depends on which pages are mapped and how many frames there are. */
  lemma SameOutcome(t: map<nat, nat>, p: seq<nat>, t': map<nat, nat>, p': seq<nat>, seg: Segment)
    requires t.Keys == t'.Keys && |p| == |p'|
    ensures OutcomeOf(t, p, seg) == OutcomeOf(t', p', seg)
  {
    assert forall q :: q in t <==> q in t';
    assert p == [] <==> p' == [];
    hide CountsPages, Recopied, LastPage, FilePages, NewFrames, EndPage, AlignUp;
  }

  /** The pages that the segment maps. */
  ghost function PagesOf(seg: Segment): set<nat> {
    set q: nat | q <= seg.vaddr + Extent(seg) && seg.load && if CountsPages(seg) then InPages(seg, q) else InShort(seg, q)
  }

  ghost function AllPages(segs: seq<Segment>): set<nat> {
    if segs == [] then {} else AllPages(segs[..|segs| - 1]) + PagesOf(segs[|segs| - 1])
  }

  lemma PagesAre(seg: Segment, q: nat)
    ensures seg.load && CountsPages(seg) ==> (q in PagesOf(seg) <==> InPages(seg, q))
    ensures seg.load && !CountsPages(seg) ==> (q in PagesOf(seg) <==> InShort(seg, q))
    ensures !seg.load ==> q !in PagesOf(seg)
  {
  }

  /** How many frames the load segments ask for. */
  function AllFrames(segs: seq<Segment>): nat {
    if segs == [] then 0 else
      var n := |segs| - 1;
      AllFrames(segs[..n]) + if segs[n].load then NewFrames(segs[n]) else 0
  }

  /** Segment after segment, up to the first that fails or panics, given the pages mapped and the frames left. */
  ghost function InTurn(pages: set<nat>, frames: nat, segs: seq<Segment>): Outcome {
    if segs == [] then Done else
      var n := |segs| - 1;
      var front, taken := InTurn(pages, frames, segs[..n]), AllFrames(segs[..n]);
      if front != Done || taken > frames then front
      else OutcomeOf(map q | q in pages + AllPages(segs[..n]) :: 0, seq(frames - taken, _ => 0), segs[n])
  }

  lemma TurnOf(pages: set<nat>, frames: nat, segs: seq<Segment>, i: nat, t: map<nat, nat>, p: seq<nat>)
    requires i < |segs| && InTurn(pages, frames, segs[..i]) == Done
    requires t.Keys == pages + AllPages(segs[..i]) && |p| + AllFrames(segs[..i]) == frames
    ensures InTurn(pages, frames, segs[..i + 1]) == OutcomeOf(t, p, segs[i])
  {
    hide OutcomeOf, AllPages, AllFrames;
    assert segs[..i + 1][..i] == segs[..i];
    var t' := map q | q in pages + AllPages(segs[..i]) :: 0;
    SameOutcome(t, p, t', seq(|p|, _ => 0), segs[i]);
  }

  lemma {:induction false} TurnStops(pages: set<nat>, frames: nat, segs: seq<Segment>, i: nat)
    requires i <= |segs| && InTurn(pages, frames, segs[..i]) != Done
    ensures InTurn(pages, frames, segs) == InTurn(pages, frames, segs[..i])
    decreases |segs|
  {
    hide OutcomeOf, AllPages, AllFrames;
    if i == |segs| {
      assert segs[..i] == segs;
    } else {
      var front := segs[..|segs| - 1];
      assert front[..i] == segs[..i];
      TurnStops(pages, frames, front, i);
    }
  }

  lemma TurnTaken(t0: map<nat, nat>, frames: nat, segs: seq<Segment>, i: nat, t: map<nat, nat>, p: seq<nat>, t': map<nat, nat>, p': seq<nat>)
    requires i < |segs| && t.Keys == t0.Keys + AllPages(segs[..i]) && |p| + AllFrames(segs[..i]) == frames
    requires !segs[i].load ==> t' == t && p' == p
    requires segs[i].load && CountsPages(segs[i]) ==> Added(t, p, t', p', segs[i])
    requires segs[i].load && !CountsPages(segs[i]) ==> AddedShort(t, p, t', p', segs[i])
    ensures t'.Keys == t0.Keys + AllPages(segs[..i + 1]) && |p'| + AllFrames(segs[..i + 1]) == frames
  {
    assert segs[..i + 1][..i] == segs[..i];
    hide InPages, InShort, CountsPages, NewFrames, PagesOf, Recopied, LastPage;
    forall q: nat
      ensures q in t' <==> q in t || q in PagesOf(segs[i])
    {
      PagesAre(segs[i], q);
    }
  }

  /** The images of the segments counted right stand, where none of their pages was copied since. */
  ghost predicate ImagesOk(t: map<nat, nat>, m: map<nat, seq<byte>>, segs: seq<Segment>, start: nat, file: seq<byte>) {
    forall k :: 0 <= k < |segs| && segs[k].load && CountsPages(segs[k]) && Spared(segs, k) ==>
                  Loadable(segs[k], start, file) && ImageOk(t, m, segs[k], file)
  }

  lemma ImagesAre(t: map<nat, nat>, m: map<nat, seq<byte>>, segs: seq<Segment>, start: nat, file: seq<byte>)
    requires ImagesOk(t, m, segs, start, file)
    ensures forall k :: 0 <= k < |segs| && segs[k].load && CountsPages(segs[k]) && Spared(segs, k) ==>
                          Loadable(segs[k], start, file) && ImageOk(t, m, segs[k], file)
  {
  }

  lemma LoadableFits(start: nat, file: seq<byte>)
    ensures forall seg :: Loadable(seg, start, file) ==> seg.offset + seg.fileSize <= |file|
  {
  }

  lemma ImagesStay(t: map<nat, nat>, m: map<nat, seq<byte>>, p: seq<nat>, t': map<nat, nat>, m': map<nat, seq<byte>>, p': seq<nat>,
                   segs: seq<Segment>, i: nat, start: nat, file: seq<byte>)
    requires i < |segs| && ImagesOk(t, m, segs[..i], start, file) && PoolOk(t, m, p)
    requires m'.Keys == m.Keys && forall f :: f in m' && f !in p ==> m'[f] == m[f]
    requires segs[i].load ==> Loadable(segs[i], start, file)
    requires segs[i].load && CountsPages(segs[i]) ==> ImageOk(t', m', segs[i], file)
    requires !segs[i].load || CountsPages(segs[i]) ==> Grows(t, t')
    requires segs[i].load && !CountsPages(segs[i]) ==> AddedShort(t, p, t', p', segs[i])
    ensures ImagesOk(t', m', segs[..i + 1], start, file)
  {
    hide Reads, Frames, PoolOk, ImageOk, Grows, CountsPages, AddedShort, Spared, Spares, KeepsPages, Loadable;
    LoadableFits(start, file);
    var all := segs[..i + 1];
    forall k | 0 <= k < |all| && all[k].load && CountsPages(all[k]) && Spared(all, k)
      ensures Loadable(all[k], start, file) && ImageOk(t', m', all[k], file)
    {
      if k < i {
        SparedMore(segs, i, k);
        assert segs[..i][k] == segs[k];
        if segs[i].load && !CountsPages(segs[i]) {
          ShortKeeps(t, p, t', p', segs[i], segs[k]);
        } else {
          GrowsKeeps(t, t', segs[k]);
        }
        ImageStays(t, m, p, t', m', segs[k], file);
      }
    }
  }

  /** The pages of every load segment are counted right. */
  ghost predicate AllCounted(segs: seq<Segment>) {
    forall i :: 0 <= i < |segs| && segs[i].load ==> CountsPages(segs[i])
  }

  lemma AllSpared(segs: seq<Segment>)
    requires AllCounted(segs)
    ensures forall k :: 0 <= k < |segs| ==> Spared(segs, k) && (segs[k].load ==> CountsPages(segs[k]))
  {
    hide CountsPages, Recopied, HoldsBytes;
  }

  lemma CountedAt(segs: seq<Segment>, i: nat)
    requires i < |segs|
    ensures AllCounted(segs) && segs[i].load ==> CountsPages(segs[i])
  {
  }

  lemma OutcomeIs(t: map<nat, nat>, p: seq<nat>, seg: Segment, out: Outcome)
    requires out == Panicked <==> seg.load && !CountsPages(seg) && PanicsShort(t, p, seg)
    requires !seg.load ==> out == Done
    requires seg.load && CountsPages(seg) ==> (out == Done <==> CanMap(t, p, seg))
    requires seg.load && !CountsPages(seg) ==> (out == Done <==> CanMapShort(t, p, seg))
    ensures out == OutcomeOf(t, p, seg)
  {
    hide CountsPages, CanMap, CanMapShort, PanicsShort;
  }

  ghost predicate InAnyPages(segs: seq<Segment>, q: nat) {
    exists k :: 0 <= k < |segs| && InPages(segs[k], q)
  }

  /** The segments' pages are not mapped and no two segments share a page. */
  ghost predicate PagesApart(table: map<nat, nat>, segs: seq<Segment>) {
    && (forall k, q :: 0 <= k < |segs| && InPages(segs[k], q) ==> q !in table)
    && (forall j, k, q :: 0 <= j < k < |segs| && InPages(segs[k], q) ==> !InPages(segs[j], q))
  }

  /** Exactly the pages of these segments were added, each once, and their frames taken. */
  ghost predicate MappedAll(t0: map<nat, nat>, p0: seq<nat>, t: map<nat, nat>, p: seq<nat>, segs: seq<Segment>) {
    && |p| + AllFrames(segs) == |p0| && PagesApart(t0, segs)
    && forall q :: q in t <==> q in t0 || InAnyPages(segs, q)
  }

  lemma NoneMapped(t: map<nat, nat>, p: seq<nat>)
    ensures MappedAll(t, p, t, p, [])
  {
  }

  lemma FirstTurn(t: map<nat, nat>, p: seq<nat>)
    ensures InTurn(t.Keys, |p|, []) == Done && AllPages([]) == {} && AllFrames([]) == 0
    ensures MappedAll(t, p, t, p, [])
    ensures forall m, start, file :: ImagesOk(t, m, [], start, file)
  {
    NoneMapped(t, p);
  }

  ghost predicate CanMapAll(table: map<nat, nat>, pool: seq<nat>, segs: seq<Segment>) {
    AllFrames(segs) <= |pool| && PagesApart(table, segs)
  }

  lemma MappedCould(t0: map<nat, nat>, p0: seq<nat>, t: map<nat, nat>, p: seq<nat>, segs: seq<Segment>)
    requires MappedAll(t0, p0, t, p, segs)
    ensures CanMapAll(t0, p0, segs)
  {
  }

  lemma OneMapped(t0: map<nat, nat>, p0: seq<nat>, t: map<nat, nat>, p: seq<nat>, t': map<nat, nat>, p': seq<nat>,
                  segs: seq<Segment>, seg: Segment)
    requires MappedAll(t0, p0, t, p, segs)
    requires if seg.load then CanMap(t, p, seg) && Added(t, p, t', p', seg) else t' == t && p' == p
    ensures MappedAll(t0, p0, t', p', segs + [seg])
  {
    var all := segs + [seg];
    assert all[..|segs|] == segs && all[|segs|] == seg;
    hide EndPage, NewFrames;
    forall q: nat
      ensures InAnyPages(all, q) <==> InAnyPages(segs, q) || InPages(seg, q)
    {
      if k :| 0 <= k < |segs| && InPages(segs[k], q) {
        assert InPages(all[k], q);
      }
      if InPages(seg, q) {
        assert InPages(all[|segs|], q);
      }
    }
    forall k, q: nat | 0 <= k < |segs| && InPages(segs[k], q)
      ensures q in t
    {
      assert InAnyPages(segs, q);
    }
  }

  lemma {:induction false} MoreFrames(segs: seq<Segment>, i: nat)
    requires i <= |segs|
    ensures AllFrames(segs[..i]) <= AllFrames(segs)
    decreases |segs|
  {
    if i == |segs| {
      assert segs[..i] == segs;
    } else {
      var front := segs[..|segs| - 1];
      assert front[..i] == segs[..i];
      MoreFrames(front, i);
    }
  }

  /** A segment that cannot be mapped after the earlier ones is one that cannot be mapped with them. */
  lemma Blocked(t0: map<nat, nat>, p0: seq<nat>, t: map<nat, nat>, p: seq<nat>, segs: seq<Segment>, i: nat)
    requires i < |segs| && segs[i].load && MappedAll(t0, p0, t, p, segs[..i]) && !CanMap(t, p, segs[i])
    ensures !CanMapAll(t0, p0, segs)
  {
    MoreFrames(segs, i + 1);
    assert segs[..i + 1][..i] == segs[..i] && segs[..i + 1][i] == segs[i];
    hide EndPage, NewFrames;
    if NewFrames(segs[i]) <= |p| {
      var q: nat :| InPages(segs[i], q) && q in t;
      if InAnyPages(segs[..i], q) {
        var k :| 0 <= k < i && InPages(segs[..i][k], q);
        assert InPages(segs[k], q);
      }
    }
  }

  class Machine {
    var table: map<nat, nat>
    var memory: map<nat, seq<byte>>
    /** The frames the frame allocator will return, in this order. */
    var pool: seq<nat>

    constructor (table: map<nat, nat>, memory: map<nat, seq<byte>>, pool: seq<nat>)
      ensures this.table == table && this.memory == memory && this.pool == pool
    {
      this.table, this.memory, this.pool := table, memory, pool;
    }

    /** The loop that maps the file's own frames. */
    method MapFrames(page: nat, frame: nat, n: nat) returns (ok: bool)
      modifies this`table
      ensures ok <==> Unmapped(old(table), page, n)
      ensures ok ==> Extends(old(table), table, page, n) && forall q :: page <= q < page + n ==> table[q] == frame + (q - page)
    {
      for k := 0 to n
        invariant Extends(old(table), table, page, k)
        invariant forall q :: page <= q < page + k ==> table[q] == frame + (q - page)
      {
        if page + k in table {
          return false;
        }
        table := table[page + k := frame + k];
      }
      ok := true;
    }

    /** The loop that maps additional frames, one new frame a page. */
    method MapNew(page: nat, n: nat) returns (ok: bool)
      requires PoolOk(table, memory, pool)
      modifies this`table, this`pool
      ensures ok <==> n <= |old(pool)| && Unmapped(old(table), page, n)
      ensures ok ==>
                && PoolOk(table, memory, pool)
                && Extends(old(table), table, page, n) && n <= |old(pool)| && pool == old(pool)[n..]
                && forall q :: page <= q < page + n ==> table[q] == old(pool)[q - page]
    {
      ghost var all := pool;
      for k := 0 to n
        invariant PoolOk(table, memory, pool)
        invariant Extends(old(table), table, page, k)
        invariant k <= |all| && pool == all[k..]
        invariant forall q :: page <= q < page + k ==> table[q] == all[q - page]
      {
        if pool == [] {
          return false;
        }
        var frame := pool[0];
        pool := pool[1..];
        if page + k in table {
          return false;
        }
        table := table[page + k := frame];
      }
      ok := true;
    }

    /** `write_bytes` of zeros through the page table. */
    method ZeroBytes(from: nat, to: nat)
      requires from <= to && Frames(memory)
      requires forall v :: from <= v < to ==> v / PAGE in table && table[v / PAGE] in memory
      modifies this`memory
      ensures Frames(memory) && memory.Keys == old(memory).Keys
      ensures forall v :: from <= v < to ==> Reads(table, memory, v, 0)
      ensures forall f, o :: f in memory && 0 <= o < PAGE ==>
                               memory[f][o] == old(memory)[f][o] || Touched(table, from, to, f, o)
    {
      for v := from to to
        invariant Frames(memory) && memory.Keys == old(memory).Keys
        invariant forall w :: from <= w < v ==> Reads(table, memory, w, 0)
        invariant forall f, o :: f in memory && 0 <= o < PAGE ==>
                                   memory[f][o] == old(memory)[f][o] || Touched(table, from, v, f, o)
      {
        var f := table[v / PAGE];
        assert Touched(table, from, v + 1, f, v % PAGE);
        ghost var before := memory;
        memory := memory[f := memory[f][v % PAGE := 0]];
        assert Reads(table, memory, v, 0);
        assert forall w :: from <= w < v && Reads(table, before, w, 0) ==> Reads(table, memory, w, 0);
      }
    }

    /** The copy of the last file page, which another segment's page may share the frame of. */
    method CopyLast(lastPage: nat, endFrame: int) returns (out: Outcome)
      requires PoolOk(table, memory, pool)
      modifies this
      ensures out == Failed <==> old(pool) == []
      ensures out == Panicked <==> old(pool) != [] && lastPage !in old(table)
      ensures out == Done ==>
                && lastPage in old(table) && old(pool) != [] && pool == old(pool)[1..]
                && table == old(table)[lastPage := old(pool)[0]]
                && PoolOk(table, memory, pool)
      ensures out != Failed ==>
                && old(pool) != [] && memory.Keys == old(memory).Keys && Frames(memory)
                && (forall f :: f in memory && f != old(pool)[0] ==> memory[f] == old(memory)[f])
                && (endFrame >= 0 && endFrame as nat in old(memory) ==> memory[old(pool)[0]] == old(memory)[endFrame as nat])
      ensures out == Failed ==> memory == old(memory)
    {
      if pool == [] {
        return Failed;
      }
      var newFrame := pool[0];
      assert newFrame in pool;
      pool := pool[1..];
      if endFrame >= 0 && endFrame as nat in memory {
        memory := memory[newFrame := memory[endFrame as nat]];
      }
      if lastPage !in table {
        return Panicked;
      }
      table := table[lastPage := newFrame];
      out := Done;
    }

    /** The part of `map_segment` that provides zeroed memory past the file's bytes. */
    method Bss(zeroStart: nat, zeroEnd: nat, lastPage: nat, endFrame: int) returns (out: Outcome)
      requires PoolOk(table, memory, pool) && zeroStart < zeroEnd
      requires zeroStart % PAGE != 0 ==> lastPage == zeroStart / PAGE
      modifies this
      ensures Frames(memory) && memory.Keys == old(memory).Keys
      ensures forall f :: f in memory && f !in old(pool) ==> memory[f] == old(memory)[f]
      ensures out == Panicked <==> zeroStart % PAGE != 0 && lastPage !in old(table) && old(pool) != []
      ensures zeroStart % PAGE == 0 || lastPage in old(table) ==>
                (out == Done <==> BssPages(zeroStart, zeroEnd) <= |old(pool)| && BssFree(old(table), zeroStart, zeroEnd))
      ensures out == Done ==>
                && PoolOk(table, memory, pool)
                && NewPages(old(table), table, old(pool), pool, zeroStart, BssPages(zeroStart, zeroEnd))
                && (zeroStart % PAGE != 0 ==> lastPage in old(table))
                && Remapped(old(table), zeroStart, zeroEnd, lastPage)
                && (forall v :: zeroStart <= v < zeroEnd ==> Reads(table, memory, v, 0))
                && (forall v, b :: v < zeroStart && v / PAGE in old(table) && Reads(old(table), old(memory), v, b)
                                   && (zeroStart % PAGE != 0 && v / PAGE == lastPage ==> old(table)[lastPage] == endFrame)
                                   ==> Reads(table, memory, v, b))
                && (zeroStart % PAGE != 0 && endFrame >= 0 && endFrame as nat in old(memory) ==>
                      forall v :: lastPage * PAGE <= v < zeroStart ==> Reads(table, memory, v, old(memory)[endFrame as nat][v % PAGE]))
    {
      out := Done;
      if zeroStart % PAGE != 0 {
        out := CopyLast(lastPage, endFrame);
        if out != Done { return; }
      }
      ghost var t1, m1, p1 := table, memory, pool;
      var startPage := AlignUp(zeroStart) / PAGE;
      var endPage := zeroEnd / PAGE;
      var n := if endPage >= startPage then endPage - startPage + 1 else 0;
      BssCount(old(table), t1, old(pool), p1, zeroStart, zeroEnd, lastPage, n);
      var ok := MapNew(startPage, n);
      if !ok { return Failed; }
      hide Frames, PoolOk, Reads;
      TableOfBss(old(table), t1, table, old(pool), p1, pool, zeroStart, zeroEnd, lastPage);
      ghost var k := BssPages(zeroStart, zeroEnd);
      BssMapped(old(table), table, m1, old(pool), pool, zeroStart, zeroEnd);
      ZeroBytes(zeroStart, zeroEnd);
      SamePool(table, m1, memory, pool);
      Outside(table, m1, memory, old(pool), zeroStart, zeroEnd, k, old(table), pool);
      forall v, b | v < zeroStart && v / PAGE in old(table) && Reads(old(table), old(memory), v, b)
                    && (zeroStart % PAGE != 0 && v / PAGE == lastPage ==> old(table)[lastPage] == endFrame)
        ensures Reads(table, memory, v, b)
      {
        CopyKeeps(old(table), old(memory), t1, m1, old(pool), lastPage, endFrame, zeroStart % PAGE != 0, v, b);
        BelowKeeps(old(table), t1, table, m1, memory, old(pool), pool, zeroStart, zeroEnd, v, b);
      }
      if zeroStart % PAGE != 0 && endFrame >= 0 && endFrame as nat in old(memory) {
        forall v | lastPage * PAGE <= v < zeroStart
          ensures Reads(table, memory, v, old(memory)[endFrame as nat][v % PAGE])
        {
          CopyReads(old(table), old(memory), t1, m1, old(pool), lastPage, endFrame as nat, v);
          BelowKeeps(old(table), t1, table, m1, memory, old(pool), pool, zeroStart, zeroEnd, v, old(memory)[endFrame as nat][v % PAGE]);
        }
      }
    }

    /**
     * map_segment. With the pages counted right it succeeds exactly when it can, and the image is the one the header
     * describes. Miscounted, it leaves out the last page of the file part: it panics where it wants to copy that page
     * and finds it unmapped, and after a success the image is right exactly when the page mapped there before, or the
     * copy of the page before, happens to hold the right bytes. It never changes a frame that was not handed out by
     * the frame allocator.
     */
    method MapSegment(seg: Segment, start: nat, ghost file: seq<byte>) returns (out: Outcome)
      requires PoolOk(table, memory, pool) && FileAt(memory, start, file) && FileApart(start, file, pool)
      requires seg.load ==> Loadable(seg, start, file)
      modifies this
      ensures Frames(memory) && memory.Keys == old(memory).Keys
      ensures forall f :: f in memory && f !in old(pool) ==> memory[f] == old(memory)[f]
      ensures !seg.load ==> out == Done && table == old(table) && memory == old(memory) && pool == old(pool)
      ensures out == Panicked <==> seg.load && !CountsPages(seg) && PanicsShort(old(table), old(pool), seg)
      ensures out == Done ==> PoolOk(table, memory, pool) && Suffix(pool, old(pool))
      ensures seg.load && CountsPages(seg) ==> (out == Done <==> CanMap(old(table), old(pool), seg))
      ensures seg.load && !CountsPages(seg) ==> (out == Done <==> CanMapShort(old(table), old(pool), seg))
      ensures out == Done && seg.load && CountsPages(seg) ==>
                ImageOk(table, memory, seg, file) && Added(old(table), old(pool), table, pool, seg)
      ensures out == Done && (!seg.load || CountsPages(seg)) ==> Grows(old(table), table)
      ensures out == Done && seg.load && !CountsPages(seg) ==>
                && AddedShort(old(table), old(pool), table, pool, seg)
                && (ImageOk(table, memory, seg, file) <==>
                    if Recopied(seg) then TailRepeats(seg, file) else TailHolds(old(table), old(memory), seg, file))
    {
      if !seg.load {
        SuffixSelf(pool);
        return Done;
      }
      hide Reads, Frames, PoolOk, NewPages, FileAt, FileApart, ImageOk, Holds, Suffix, Grows, Remapped, CanMap, Added, AddedShort, CanMapShort, PanicsShort;
      var fileOffset := seg.offset - seg.offset % PAGE;
      var physStart := start + fileOffset;
      var startPage := seg.vaddr / PAGE;
      var startFrame := physStart / PAGE;
      var endFrame := (physStart + seg.fileSize - 1) / PAGE;
      Counting(seg, start, file, physStart, startFrame, endFrame);
      var n := endFrame - startFrame + 1;
      var ok := MapFrames(startPage, startFrame, n);
      if !ok {
        FilePagesTaken(old(table), pool, seg, n);
        ShortTaken(old(table), pool, seg);
        return Failed;
      }
      FramesApart(old(table), table, memory, pool, start, file, seg, startFrame, n);
      FileMapped(table, memory, seg, start, file, startFrame, n);
      out := FinishSegment(seg, n, startFrame, endFrame, old(table), start, file);
    }

    /** The rest of `map_segment`, once the file's frames are mapped. */
    method FinishSegment(seg: Segment, ghost n: nat, ghost startFrame: nat, endFrame: int, ghost t0: map<nat, nat>, ghost start: nat,
                         ghost file: seq<byte>)
      returns (out: Outcome)
      requires PoolOk(t0, memory, pool) && PoolOk(table, memory, pool)
      requires seg.load && Loadable(seg, start, file) && FileAt(memory, start, file)
      requires startFrame * PAGE == start + (seg.offset - seg.offset % PAGE)
      requires n == FilePages(seg) && endFrame - startFrame + 1 == n
      requires Extends(t0, table, seg.vaddr / PAGE, n)
      requires forall q :: seg.vaddr / PAGE <= q < seg.vaddr / PAGE + n ==> table[q] == startFrame + (q - seg.vaddr / PAGE)
      requires LastPage(seg) == seg.vaddr / PAGE + (seg.vaddr % PAGE + seg.fileSize - 1) / PAGE
      requires CountsPages(seg) ==>
                 forall v :: seg.vaddr <= v < seg.vaddr + seg.fileSize ==> Holds(table, memory, seg, file, v)
      requires forall v :: seg.vaddr <= v < seg.vaddr + seg.fileSize && v / PAGE < seg.vaddr / PAGE + n ==>
                             Holds(table, memory, seg, file, v)
      modifies this
      ensures Frames(memory) && memory.Keys == old(memory).Keys
      ensures forall f :: f in memory && f !in old(pool) ==> memory[f] == old(memory)[f]
      ensures out == Panicked <==> !CountsPages(seg) && PanicsShort(t0, old(pool), seg)
      ensures out == Done ==> PoolOk(table, memory, pool) && Suffix(pool, old(pool))
      ensures CountsPages(seg) ==> (out == Done <==> CanMap(t0, old(pool), seg))
      ensures !CountsPages(seg) ==> (out == Done <==> CanMapShort(t0, old(pool), seg))
      ensures out == Done && CountsPages(seg) ==>
                Added(t0, old(pool), table, pool, seg) && ImageOk(table, memory, seg, file) && Grows(t0, table)
      ensures out == Done && !CountsPages(seg) ==>
                && AddedShort(t0, old(pool), table, pool, seg)
                && (ImageOk(table, memory, seg, file) <==>
                    if Recopied(seg) then TailRepeats(seg, file) else TailHolds(t0, old(memory), seg, file))
    {
      hide Reads, Frames, PoolOk, NewPages, ImageOk, Holds, Suffix, Grows, Remapped, Extends, CountsPages, LastPage, BssPages, Extent, CanMap, Added, BssFree,
           CanMapShort, PanicsShort, AddedShort, FilePages, TailHolds, TailRepeats, FileAt;
      ghost var t1, m1, p1 := table, memory, pool;
      FramesOfPool(table, memory, pool);
      if seg.memSize <= seg.fileSize {
        SuffixSelf(pool);
        if CountsPages(seg) {
          ImageOfFile(table, memory, seg, file);
          FilePagesAdded(t0, table, pool, seg, n);
        }
        GrowsByFrames(t0, table, seg.vaddr / PAGE, n);
        if !CountsPages(seg) {
          ShortRoom(t0, table, pool, seg);
          ShortOfFile(t0, table, memory, pool, seg, file);
          ShortPagesAdded(t0, table, table, pool, pool, seg);
        }
        return Done;
      }
      var zeroStart := seg.vaddr + seg.fileSize;
      var zeroEnd := seg.vaddr + seg.memSize;
      if zeroStart % PAGE != 0 { LastPageIs(seg, zeroStart); }
      var lastPage := if zeroStart > 0 then (zeroStart - 1) / PAGE else 0;
      if CountsPages(seg) { SegmentRoom(t0, table, pool, seg, n); } else { ShortRoom(t0, table, pool, seg); }
      out := Bss(zeroStart, zeroEnd, lastPage, endFrame);
      if out == Done {
        SuffixOf(p1, pool, t1, table, zeroStart, BssPages(zeroStart, zeroEnd));
        if CountsPages(seg) {
          AfterBss(t0, t1, m1, table, memory, seg, file, startFrame, n, endFrame, lastPage, pool, p1);
          AllPagesAdded(t0, t1, table, p1, pool, seg, n);
        } else {
          ShortOfBss(t0, t1, m1, table, memory, p1, pool, seg, start, file, endFrame, lastPage);
          ShortPagesAdded(t0, t1, table, p1, pool, seg);
        }
      }
    }

    /**
     * map_elf ends as mapping the segments in turn says. With all pages counted right it succeeds exactly when the
     * segments' pages are free and apart and there are frames for all of them; then the images of all load segments
     * stand side by side. In any case the image of a segment counted right survives every later segment but a
     * miscounted one that copies a page of it. The file is untouched.
     */
    method MapElf(segs: seq<Segment>, start: nat, ghost file: seq<byte>) returns (out: Outcome)
      requires PoolOk(table, memory, pool) && FileAt(memory, start, file) && FileApart(start, file, pool)
      requires forall i :: 0 <= i < |segs| && segs[i].load ==> Loadable(segs[i], start, file)
      modifies this
      ensures FileAt(memory, start, file)
      ensures out == InTurn(old(table).Keys, |old(pool)|, segs)
      ensures out == Done ==> forall i :: 0 <= i < |segs| && segs[i].load && CountsPages(segs[i]) && Spared(segs, i) ==>
                                            Loadable(segs[i], start, file) && ImageOk(table, memory, segs[i], file)
      ensures AllCounted(segs) ==> out != Panicked && (out == Done <==> CanMapAll(old(table), old(pool), segs))
      ensures AllCounted(segs) && out == Done ==> forall i :: 0 <= i < |segs| && segs[i].load ==>
                                            Loadable(segs[i], start, file) && ImageOk(table, memory, segs[i], file)
    {
      hide *;
      FirstTurn(table, pool);
      assert segs[..0] == [];
      for i := 0 to |segs|
        invariant PoolOk(table, memory, pool) && FileAt(memory, start, file) && FileApart(start, file, pool)
        invariant InTurn(old(table).Keys, |old(pool)|, segs[..i]) == Done
        invariant table.Keys == old(table).Keys + AllPages(segs[..i]) && |pool| + AllFrames(segs[..i]) == |old(pool)|
        invariant ImagesOk(table, memory, segs[..i], start, file)
        invariant AllCounted(segs) ==> MappedAll(old(table), old(pool), table, pool, segs[..i])
      {
        ghost var t, m, p := table, memory, pool;
        TurnOf(old(table).Keys, |old(pool)|, segs, i, t, p);
        out := MapSegment(segs[i], start, file);
        OutcomeIs(t, p, segs[i], out);
        FileStays(m, memory, start, file, p);
        CountedAt(segs, i);
        if out != Done {
          TurnStops(old(table).Keys, |old(pool)|, segs, i + 1);
          if AllCounted(segs) { Blocked(old(table), old(pool), t, p, segs, i); }
          return;
        }
        assert segs[..i + 1] == segs[..i] + [segs[i]];
        LessPool(start, file, p, pool);
        TurnTaken(old(table), |old(pool)|, segs, i, t, p, table, pool);
        if AllCounted(segs) { OneMapped(old(table), old(pool), t, p, table, pool, segs[..i], segs[i]); }
        ImagesStay(t, m, p, table, memory, pool, segs, i, start, file);
      }
      assert segs[..|segs|] == segs;
      if AllCounted(segs) {
        MappedCould(old(table), old(pool), table, pool, segs);
        AllSpared(segs);
      }
      ImagesAre(table, memory, segs, start, file);
      out := Done;
    }
  }

  // ---------------------------------------------------------------------------
  // The page past an aligned end
  // ---------------------------------------------------------------------------

  lemma BytePages(seg: Segment, q: nat)
    ensures HoldsBytes(seg, q) <==> seg.load && Extent(seg) > 0 && seg.vaddr / PAGE <= q <= (seg.vaddr + Extent(seg) - 1) / PAGE
  {
    if seg.load && Extent(seg) > 0 && seg.vaddr / PAGE <= q <= (seg.vaddr + Extent(seg) - 1) / PAGE {
      var v := if q == seg.vaddr / PAGE then seg.vaddr else q * PAGE;
      assert v / PAGE == q;
    }
  }

  lemma EndPageIs(seg: Segment)
    requires CountsPages(seg)
    ensures Extent(seg) == 0 ==> EndPage(seg) == seg.vaddr / PAGE - 1
    ensures seg.memSize > seg.fileSize && (seg.vaddr + seg.memSize) % PAGE == 0 ==>
              EndPage(seg) == (seg.vaddr + Extent(seg) - 1) / PAGE + 1 > seg.vaddr / PAGE
    ensures Extent(seg) > 0 && (seg.memSize <= seg.fileSize || (seg.vaddr + seg.memSize) % PAGE != 0) ==>
              EndPage(seg) == (seg.vaddr + Extent(seg) - 1) / PAGE
  {
  }

  /**
   * `map_segment` maps exactly the pages that hold bytes of the segment, unless its zeroed part ends at a page
   * boundary: then it maps the page after it too.
   */
  lemma MapsItsPages(seg: Segment)
    requires seg.load && CountsPages(seg)
    ensures (forall q: nat :: InPages(seg, q) <==> HoldsBytes(seg, q)) <==>
            seg.memSize <= seg.fileSize || (seg.vaddr + seg.memSize) % PAGE != 0
    ensures forall q: nat :: InPages(seg, q) <==>
              HoldsBytes(seg, q) || (seg.memSize > seg.fileSize && (seg.vaddr + seg.memSize) % PAGE == 0 && q == EndPage(seg))
  {
    hide HoldsBytes;
    EndPageIs(seg);
    forall q: nat
      ensures InPages(seg, q) <==>
              HoldsBytes(seg, q) || (seg.memSize > seg.fileSize && (seg.vaddr + seg.memSize) % PAGE == 0 && q == EndPage(seg))
    {
      BytePages(seg, q);
    }
    if seg.memSize > seg.fileSize && (seg.vaddr + seg.memSize) % PAGE == 0 {
      var q: nat := EndPage(seg);
      BytePages(seg, q);
      assert InPages(seg, q) && !HoldsBytes(seg, q);
    }
  }

  /** Two segments are apart: no page holds bytes of both. */
  ghost predicate BytesApart(segs: seq<Segment>) {
    forall j, k, q :: 0 <= j < k < |segs| && HoldsBytes(segs[k], q) ==> !HoldsBytes(segs[j], q)
  }

  /** Page-aligned segments are always counted right. */
  lemma AlignedCounts(seg: Segment)
    requires seg.vaddr % PAGE == 0
    ensures CountsPages(seg)
  {
  }

  /** So a file whose segments are apart can fail to load: here the second segment starts where the first ends. */
  lemma ApartButRefused(pool: seq<nat>)
    ensures var a, b := Segment(true, 0x1000, 0x1000, 0x1000, 0x2000), Segment(true, 0x3000, 0x3000, 0x1000, 0x1000);
            && CountsPages(a) && CountsPages(b) && BytesApart([a, b])
            && (|pool| >= 2 ==> AllFrames([a, b]) <= |pool|) && !CanMapAll(map[], pool, [a, b])
  {
    var a, b := Segment(true, 0x1000, 0x1000, 0x1000, 0x2000), Segment(true, 0x3000, 0x3000, 0x1000, 0x1000);
    var segs := [a, b];
    AlignedCounts(a);
    AlignedCounts(b);
    forall q: nat
      ensures HoldsBytes(b, q) ==> !HoldsBytes(a, q)
    {
      BytePages(a, q);
      BytePages(b, q);
    }
    assert segs[..1] == [a] && segs[..1][..0] == [];
    assert AllFrames([a]) == 2;
    assert InPages(segs[0], 3) && InPages(segs[1], 3);
  }

  /** Where no zeroed part ends at a page boundary, loading asks for the pages that hold bytes and no others. */
  lemma ApartIsEnough(table: map<nat, nat>, segs: seq<Segment>)
    requires forall i :: 0 <= i < |segs| && segs[i].load ==>
               CountsPages(segs[i]) && (segs[i].memSize <= segs[i].fileSize || (segs[i].vaddr + segs[i].memSize) % PAGE != 0)
    ensures PagesApart(table, segs) <==>
            BytesApart(segs) && forall k, q :: 0 <= k < |segs| && HoldsBytes(segs[k], q) ==> q !in table
  {
    forall k | 0 <= k < |segs|
      ensures forall q: nat :: InPages(segs[k], q) <==> HoldsBytes(segs[k], q)
    {
      if segs[k].load { MapsItsPages(segs[k]); }
    }
    hide HoldsBytes, InPages;
  }

  /** A header the format allows and `map_segment` miscounts: 512 bytes from offset 0xf00 cross into a second page. */
  lemma Miscounted()
    ensures !CountsPages(Segment(true, 0xf00, 0x1f00, 0x200, 0x200))
    ensures 0xf00 % PAGE == 0x1f00 % PAGE
  {
  }
}
