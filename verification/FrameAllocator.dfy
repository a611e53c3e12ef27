/** The physical frame allocator: free memory as a sorted, coalesced list of ranges, and its DMA client. */
module FrameAllocator {
  import opened Prelude

  ghost predicate Covers(r: MemoryRange, f: nat) {
    r.start <= f < r.End()
  }

  /** Frames are numbered; a range is never empty in a canonical list. */
  datatype MemoryRange = MemoryRange(start: nat, pages: nat)
  {
    /** The frame after the last, `end_frame() + 1`. */
    function End(): nat {
      start + pages
    }

    ghost function Frames(): set<nat> {
      set f: nat | start <= f < start + pages && Covers(this, f)
    }
  }

  /** Sorted, nonempty, disjoint and with a gap between neighbours. */
  ghost predicate Canonical(s: seq<MemoryRange>) {
    && (forall i :: 0 <= i < |s| ==> s[i].pages >= 1)
    && (forall i, j :: 0 <= i < j < |s| ==> s[i].End() < s[j].start)
  }

  ghost predicate IsFree(s: seq<MemoryRange>, f: nat) {
    exists i :: 0 <= i < |s| && Covers(s[i], f)
  }

  /** The free frames. */
  ghost function Free(s: seq<MemoryRange>): set<nat> {
    if s == [] then {} else s[0].Frames() + Free(s[1..])
  }

  lemma {:induction false} FreeMembers(s: seq<MemoryRange>, f: nat)
    ensures f in Free(s) <==> IsFree(s, f)
  {
    if s == [] {
    } else {
      FreeMembers(s[1..], f);
      if IsFree(s, f) {
        var i :| 0 <= i < |s| && Covers(s[i], f);
        if i > 0 { assert s[1..][i - 1] == s[i]; }
      }
      if IsFree(s[1..], f) {
        var i :| 0 <= i < |s| - 1 && Covers(s[1..][i], f);
        assert s[i + 1] == s[1..][i];
      }
    }
  }

  lemma FreeIs(s: seq<MemoryRange>)
    ensures forall f: nat :: f in Free(s) <==> IsFree(s, f)
  {
    forall f: nat
      ensures f in Free(s) <==> IsFree(s, f)
    {
      FreeMembers(s, f);
    }
  }

  // ---------------------------------------------------------------------------
  // A canonical list is determined by its set of frames
  // ---------------------------------------------------------------------------

  /** The frame after a range is not free: neighbours never touch. */
  lemma GapAfter(s: seq<MemoryRange>, i: nat)
    requires Canonical(s) && i < |s|
    ensures !IsFree(s, s[i].End())
  {
    forall k | 0 <= k < |s|
      ensures !Covers(s[k], s[i].End())
    {
      if k < i {
        assert s[k].End() < s[i].start;
      } else if k > i {
        assert s[i].End() < s[k].start;
      }
    }
  }

  lemma FirstRange(a: seq<MemoryRange>, b: seq<MemoryRange>)
    requires Canonical(a) && Canonical(b) && a != [] && b != []
    requires forall f: nat :: IsFree(a, f) <==> IsFree(b, f)
    ensures a[0].start >= b[0].start
    ensures a[0].start == b[0].start ==> a[0].End() <= b[0].End()
  {
    assert Covers(a[0], a[0].start);
    assert IsFree(b, a[0].start);
    GapAfter(b, 0);
    assert !Covers(a[0], b[0].End());
  }

  lemma RestFree(s: seq<MemoryRange>, f: nat)
    requires Canonical(s) && s != []
    ensures IsFree(s[1..], f) <==> IsFree(s, f) && !Covers(s[0], f)
  {
    if IsFree(s, f) && !Covers(s[0], f) {
      var i :| 0 <= i < |s| && Covers(s[i], f);
      assert s[1..][i - 1] == s[i];
    }
    if IsFree(s[1..], f) {
      var i :| 0 <= i < |s| - 1 && Covers(s[1..][i], f);
      assert s[i + 1] == s[1..][i] && Covers(s[i + 1], f);
    }
  }

  lemma {:induction false} UniqueByMembership(a: seq<MemoryRange>, b: seq<MemoryRange>)
    requires Canonical(a) && Canonical(b) && forall f: nat :: IsFree(a, f) <==> IsFree(b, f)
    ensures a == b
  {
    if a == [] && b != [] {
      assert Covers(b[0], b[0].start) && IsFree(b, b[0].start);
    } else if a != [] && b == [] {
      assert Covers(a[0], a[0].start) && IsFree(a, a[0].start);
    } else if a != [] {
      FirstRange(a, b);
      FirstRange(b, a);
      assert a[0] == b[0];
      forall f: nat
        ensures IsFree(a[1..], f) <==> IsFree(b[1..], f)
      {
        RestFree(a, f);
        RestFree(b, f);
      }
      UniqueByMembership(a[1..], b[1..]);
      assert a == [a[0]] + a[1..] && b == [b[0]] + b[1..];
    }
  }

  /** History independence: whatever led to two canonical lists, equal free frames make them equal. */
  lemma CanonicalIsUnique(a: seq<MemoryRange>, b: seq<MemoryRange>)
    requires Canonical(a) && Canonical(b) && Free(a) == Free(b)
    ensures a == b
  {
    FreeIs(a);
    FreeIs(b);
    UniqueByMembership(a, b);
  }

  // ---------------------------------------------------------------------------
  // Runs of free frames
  // ---------------------------------------------------------------------------

  /** `pages` consecutive free frames from `f` on. */
  ghost predicate FreeRun(s: seq<MemoryRange>, f: nat, pages: nat) {
    forall k :: f <= k < f + pages ==> IsFree(s, k)
  }

  /** In a canonical list a run of free frames lies inside one range. */
  lemma RunInOneRange(s: seq<MemoryRange>, f: nat, pages: nat, i: nat)
    requires Canonical(s) && pages >= 1 && FreeRun(s, f, pages) && i < |s| && Covers(s[i], f)
    ensures f + pages <= s[i].End()
  {
    GapAfter(s, i);
  }

  /** Removing the first `pages` frames of range `i`. */
  function Carve(s: seq<MemoryRange>, i: nat, pages: nat): seq<MemoryRange>
    requires i < |s| && pages <= s[i].pages
  {
    if s[i].pages == pages then s[..i] + s[i + 1..]
    else s[i := MemoryRange(s[i].start + pages, s[i].pages - pages)]
  }

  /** A frame lies in one range at most. */
  lemma OthersApart(s: seq<MemoryRange>, i: nat, f: nat)
    requires Canonical(s) && i < |s|
    ensures Covers(s[i], f) ==> forall k :: 0 <= k < |s| && k != i ==> !Covers(s[k], f)
  {
  }

  lemma RemoveMember(s: seq<MemoryRange>, i: nat, f: nat)
    requires Canonical(s) && i < |s|
    ensures IsFree(s[..i] + s[i + 1..], f) <==> IsFree(s, f) && !Covers(s[i], f)
  {
    hide Canonical, Covers;
    var t := s[..i] + s[i + 1..];
    OthersApart(s, i, f);
    if IsFree(s, f) && !Covers(s[i], f) {
      var k :| 0 <= k < |s| && Covers(s[k], f);
      assert t[if k < i then k else k - 1] == s[k];
    }
    if IsFree(t, f) {
      var k :| 0 <= k < |t| && Covers(t[k], f);
      assert t[k] == s[if k < i then k else k + 1];
    }
  }

  lemma RemoveKeeps(s: seq<MemoryRange>, i: nat)
    requires Canonical(s) && i < |s|
    ensures Canonical(s[..i] + s[i + 1..])
    ensures forall f: nat :: IsFree(s[..i] + s[i + 1..], f) <==> IsFree(s, f) && !Covers(s[i], f)
  {
    var t := s[..i] + s[i + 1..];
    assert forall k :: 0 <= k < |t| ==> t[k] == s[if k < i then k else k + 1];
    assert Canonical(t);
    hide Canonical, IsFree;
    forall f: nat
      ensures IsFree(t, f) <==> IsFree(s, f) && !Covers(s[i], f)
    {
      RemoveMember(s, i, f);
    }
  }

  lemma TrimKeeps(s: seq<MemoryRange>, i: nat, pages: nat)
    requires Canonical(s) && i < |s| && pages < s[i].pages
    ensures var t := s[i := MemoryRange(s[i].start + pages, s[i].pages - pages)];
            && Canonical(t)
            && forall f: nat :: IsFree(t, f) <==> IsFree(s, f) && !(s[i].start <= f < s[i].start + pages)
  {
    var t := s[i := MemoryRange(s[i].start + pages, s[i].pages - pages)];
    forall f: nat
      ensures IsFree(t, f) <==> IsFree(s, f) && !(s[i].start <= f < s[i].start + pages)
    {
      OthersApart(s, i, f);
      assert forall k :: 0 <= k < |s| && k != i ==> t[k] == s[k];
      if IsFree(s, f) {
        var k :| 0 <= k < |s| && Covers(s[k], f);
        assert k != i ==> Covers(t[k], f);
        assert k == i && !(s[i].start <= f < s[i].start + pages) ==> Covers(t[i], f);
      }
      if IsFree(t, f) {
        var k :| 0 <= k < |t| && Covers(t[k], f);
        assert Covers(s[k], f);
      }
    }
  }

  lemma CarveKeeps(s: seq<MemoryRange>, i: nat, pages: nat)
    requires Canonical(s) && i < |s| && pages <= s[i].pages
    ensures Canonical(Carve(s, i, pages))
    ensures forall f: nat :: IsFree(Carve(s, i, pages), f) <==> IsFree(s, f) && !(s[i].start <= f < s[i].start + pages)
  {
    hide IsFree, Canonical;
    if s[i].pages == pages {
      RemoveKeeps(s, i);
      assert forall f: nat :: Covers(s[i], f) <==> s[i].start <= f < s[i].start + pages;
    } else {
      TrimKeeps(s, i, pages);
    }
  }

  lemma FirstIsLowest(s: seq<MemoryRange>)
    requires Canonical(s) && s != []
    ensures s[0].pages >= 1 && IsFree(s, s[0].start) && forall f: nat :: IsFree(s, f) ==> s[0].start <= f
  {
    assert Covers(s[0], s[0].start);
  }

  /** The first frame of the first range is the lowest free frame. */
  lemma LowestFrame(s: seq<MemoryRange>)
    requires Canonical(s) && s != []
    ensures s[0].start in Free(s) && forall f :: f in Free(s) ==> s[0].start <= f
    ensures Free(Carve(s, 0, 1)) == Free(s) - {s[0].start}
  {
    hide *;
    FirstIsLowest(s);
    CarveKeeps(s, 0, 1);
    FreeMembers(s, s[0].start);
    forall f: nat
      ensures f in Free(s) ==> s[0].start <= f
      ensures f in Free(Carve(s, 0, 1)) <==> f in Free(s) - {s[0].start}
    {
      FreeMembers(s, f);
      FreeMembers(Carve(s, 0, 1), f);
    }
  }

  // ---------------------------------------------------------------------------
  // The outcomes of deallocate
  // ---------------------------------------------------------------------------

  datatype Side = Neither | Left | Right

  /** The ranges before `i` end below `addr`, or contain it. */
  ghost predicate Passed(s: seq<MemoryRange>, i: nat, addr: nat) {
    i <= |s| && forall k :: 0 <= k < i ==> s[k].End() < addr || Covers(s[k], addr)
  }

  /** Where and how the scan of `deallocate` stopped. */
  ghost predicate Stopped(s: seq<MemoryRange>, i: nat, addr: nat, side: Side) {
    && i < |s| && Passed(s, i, addr) && s[i].End() >= addr && !Covers(s[i], addr)
    && match side
       case Right => s[i].End() == addr
       case Left => s[i].End() != addr && s[i].start == addr + 1
       case Neither => s[i].End() != addr && s[i].start > addr + 1
  }

  /** The range at which the scan stopped, with `addr` added to it. */
  function Grown(r: MemoryRange, addr: nat, side: Side): MemoryRange {
    match side
    case Right => MemoryRange(r.start, r.pages + 1)
    case Left => MemoryRange(addr, r.pages + 1)
    case Neither => r
  }

  function Inserted(s: seq<MemoryRange>, i: nat, addr: nat): seq<MemoryRange>
    requires i <= |s|
  {
    s[..i] + [MemoryRange(addr, 1)] + s[i..]
  }

  /** Ranges `i` and `i + 1` become one. */
  function Merged(s: seq<MemoryRange>, i: nat): seq<MemoryRange>
    requires i + 1 < |s|
  {
    s[..i] + [MemoryRange(s[i].start, s[i].pages + s[i + 1].pages)] + s[i + 2..]
  }

  /** `t` is canonical and has exactly one more free frame. */
  ghost predicate FreedOne(s: seq<MemoryRange>, addr: nat, t: seq<MemoryRange>) {
    Canonical(t) && forall f: nat :: IsFree(t, f) <==> IsFree(s, f) || f == addr
  }

  lemma NotInside(s: seq<MemoryRange>, i: nat, addr: nat)
    requires Passed(s, i, addr) && !IsFree(s, addr)
    ensures forall k :: 0 <= k < i ==> s[k].End() < addr
  {
  }

  lemma InsertMember(s: seq<MemoryRange>, i: nat, addr: nat, f: nat)
    requires i <= |s|
    ensures IsFree(Inserted(s, i, addr), f) <==> IsFree(s, f) || f == addr
  {
    var t := Inserted(s, i, addr);
    if IsFree(s, f) {
      var k :| 0 <= k < |s| && Covers(s[k], f);
      assert t[if k < i then k else k + 1] == s[k];
    }
    assert t[i] == MemoryRange(addr, 1);
    assert f == addr ==> Covers(t[i], f);
    if IsFree(t, f) && f != addr {
      var k :| 0 <= k < |t| && Covers(t[k], f);
      assert t[k] == s[if k < i then k else k - 1];
    }
  }

  lemma InsertCanonical(s: seq<MemoryRange>, i: nat, addr: nat)
    requires Canonical(s) && i <= |s|
    requires forall k :: 0 <= k < i ==> s[k].End() < addr
    requires forall k :: i <= k < |s| ==> addr + 1 < s[k].start
    ensures Canonical(Inserted(s, i, addr))
  {
    var t := Inserted(s, i, addr);
    forall k, m | 0 <= k < m < |t|
      ensures t[k].End() < t[m].start
    {
      assert t[k] == if k < i then s[k] else if k == i then MemoryRange(addr, 1) else s[k - 1];
      assert t[m] == if m < i then s[m] else if m == i then MemoryRange(addr, 1) else s[m - 1];
    }
  }

  lemma InsertFrees(s: seq<MemoryRange>, i: nat, addr: nat)
    requires Canonical(s) && !IsFree(s, addr) && Passed(s, i, addr) && (i < |s| ==> addr + 1 < s[i].start)
    ensures FreedOne(s, addr, Inserted(s, i, addr))
  {
    NotInside(s, i, addr);
    assert forall k :: i < k < |s| ==> s[i].End() < s[k].start;
    InsertCanonical(s, i, addr);
    hide Canonical, IsFree, Inserted;
    forall f: nat
      ensures IsFree(Inserted(s, i, addr), f) <==> IsFree(s, f) || f == addr
    {
      InsertMember(s, i, addr, f);
    }
  }

  lemma GrowMember(s: seq<MemoryRange>, i: nat, addr: nat, side: Side, f: nat)
    requires Stopped(s, i, addr, side) && side != Neither
    ensures IsFree(s[i := Grown(s[i], addr, side)], f) <==> IsFree(s, f) || f == addr
  {
    var t := s[i := Grown(s[i], addr, side)];
    assert Covers(t[i], f) <==> Covers(s[i], f) || f == addr;
    if IsFree(s, f) {
      var k :| 0 <= k < |s| && Covers(s[k], f);
      assert Covers(t[k], f);
    }
    if IsFree(t, f) && f != addr {
      var k :| 0 <= k < |t| && Covers(t[k], f);
      assert Covers(s[k], f);
    }
  }

  lemma GrowFrees(s: seq<MemoryRange>, i: nat, addr: nat, side: Side)
    requires Canonical(s) && !IsFree(s, addr) && Stopped(s, i, addr, side) && side != Neither
    requires side == Right && i + 1 < |s| ==> s[i + 1].start != addr + 1
    ensures FreedOne(s, addr, s[i := Grown(s[i], addr, side)])
  {
    var t := s[i := Grown(s[i], addr, side)];
    NotInside(s, i, addr);
    assert forall k :: i < k < |s| ==> i + 1 == k || s[i + 1].End() < s[k].start;
    assert Canonical(t);
    hide Canonical, IsFree;
    forall f: nat
      ensures IsFree(t, f) <==> IsFree(s, f) || f == addr
    {
      GrowMember(s, i, addr, side, f);
    }
  }

  lemma MergeMember(s: seq<MemoryRange>, i: nat, f: nat)
    requires i + 1 < |s| && s[i].End() == s[i + 1].start
    ensures IsFree(Merged(s, i), f) <==> IsFree(s, f)
  {
    var t := Merged(s, i);
    assert Covers(t[i], f) <==> Covers(s[i], f) || Covers(s[i + 1], f);
    if IsFree(s, f) {
      var k :| 0 <= k < |s| && Covers(s[k], f);
      assert k < i ==> t[k] == s[k];
      assert k > i + 1 ==> t[k - 1] == s[k];
    }
    if IsFree(t, f) {
      var k :| 0 <= k < |t| && Covers(t[k], f);
      assert k != i ==> t[k] == s[if k < i then k else k + 1];
    }
  }

  lemma MergeCanonical(s: seq<MemoryRange>, i: nat, addr: nat)
    requires Canonical(s) && Stopped(s, i, addr, Right) && i + 1 < |s| && s[i + 1].start == addr + 1
    ensures Canonical(Merged(s[i := Grown(s[i], addr, Right)], i))
  {
    var t := Merged(s[i := Grown(s[i], addr, Right)], i);
    forall k, m | 0 <= k < m < |t|
      ensures t[k].End() < t[m].start
    {
      assert t[i].start == s[i].start && t[i].End() == s[i + 1].End();
      assert k != i ==> t[k] == s[if k < i then k else k + 1];
      assert m != i ==> t[m] == s[if m < i then m else m + 1];
    }
  }

  lemma MergeFrees(s: seq<MemoryRange>, i: nat, addr: nat)
    requires Canonical(s) && !IsFree(s, addr) && Stopped(s, i, addr, Right)
    requires i + 1 < |s| && s[i + 1].start == addr + 1
    ensures FreedOne(s, addr, Merged(s[i := Grown(s[i], addr, Right)], i))
  {
    var g := s[i := Grown(s[i], addr, Right)];
    MergeCanonical(s, i, addr);
    hide Canonical, IsFree, Merged;
    forall f: nat
      ensures IsFree(Merged(g, i), f) <==> IsFree(s, f) || f == addr
    {
      GrowMember(s, i, addr, Right, f);
      MergeMember(g, i, f);
    }
  }

  /** Freeing a frame that is free already leaves two ranges that overlap. */
  lemma DoubleFree(s: seq<MemoryRange>, i: nat, addr: nat)
    requires Canonical(s) && IsFree(s, addr) && Passed(s, i, addr) && (i < |s| ==> addr + 1 < s[i].start)
    ensures !Canonical(Inserted(s, i, addr))
  {
    var j :| 0 <= j < |s| && Covers(s[j], addr);
    assert j < i;
    var t := Inserted(s, i, addr);
    assert t[j] == s[j] && t[i] == MemoryRange(addr, 1);
  }

  /** The scan stops beside a range only if the frame is not free. */
  lemma StopsBeside(s: seq<MemoryRange>, i: nat, addr: nat, side: Side)
    requires Canonical(s) && Stopped(s, i, addr, side) && side != Neither
    ensures !IsFree(s, addr)
  {
    forall k | 0 <= k < |s|
      ensures !Covers(s[k], addr)
    {
      if k < i {
        assert s[k].End() < s[i].start;
      } else if k > i {
        assert s[i].End() < s[k].start;
      }
    }
  }

  /** Ranges that are too short start no run. */
  lemma TooShort(s: seq<MemoryRange>, i: nat, pages: nat)
    requires Canonical(s) && i <= |s| && forall k :: 0 <= k < i ==> s[k].pages < pages
    ensures pages >= 1 && i == |s| ==> forall f: nat :: !FreeRun(s, f, pages)
    ensures pages >= 1 && i < |s| ==> forall f: nat :: FreeRun(s, f, pages) ==> s[i].start <= f
  {
    if pages >= 1 {
      forall f: nat | FreeRun(s, f, pages)
        ensures i < |s| && s[i].start <= f
      {
        assert IsFree(s, f);
        var k :| 0 <= k < |s| && Covers(s[k], f);
        RunInOneRange(s, f, pages, k);
      }
    }
  }

  lemma FitsHere(s: seq<MemoryRange>, i: nat, pages: nat)
    requires Canonical(s) && i < |s| && pages <= s[i].pages
    ensures FreeRun(s, s[i].start, pages)
  {
    forall k | s[i].start <= k < s[i].start + pages
      ensures IsFree(s, k)
    {
      assert Covers(s[i], k);
    }
  }

  class FrameAllocator {
    var segments: seq<MemoryRange>

    constructor (ranges: seq<MemoryRange>)
      ensures segments == ranges
    {
      segments := ranges;
    }

    /** FrameAllocator::allocate: the lowest free frame, None exactly when there is none. */
    method Allocate() returns (r: Option<nat>)
      requires Canonical(segments)
      modifies this
      ensures Canonical(segments)
      ensures r.None? <==> Free(old(segments)) == {}
      ensures r.None? ==> segments == old(segments)
      ensures r.Some? ==>
                && r.value in Free(old(segments)) && (forall f :: f in Free(old(segments)) ==> r.value <= f)
                && Free(segments) == Free(old(segments)) - {r.value}
    {
      if |segments| == 0 {
        return None;
      }
      LowestFrame(segments);
      CarveKeeps(segments, 0, 1);
      hide Free, IsFree, Canonical;
      var addr := segments[0].start;
      if segments[0].pages == 1 {
        segments := segments[1..];
      } else {
        segments := segments[0 := MemoryRange(addr + 1, segments[0].pages - 1)];
      }
      assert segments == Carve(old(segments), 0, 1);
      r := Some(addr);
    }

    /**
     * FrameAllocator::alloc_range: the lowest frame that starts a free run of `pages` frames; None exactly
     * when there is no such run. Asking for no frame changes nothing.
     */
    method AllocRange(pages: nat) returns (r: Option<nat>)
      requires Canonical(segments)
      modifies this
      ensures Canonical(segments)
      ensures pages >= 1 ==> (r.None? <==> forall f: nat :: !FreeRun(old(segments), f, pages))
      ensures pages == 0 ==> (r.None? <==> old(segments) == []) && (r.Some? ==> r.value == old(segments)[0].start)
      ensures r.None? || pages == 0 ==> segments == old(segments)
      ensures r.Some? ==>
                && FreeRun(old(segments), r.value, pages)
                && (pages >= 1 ==> forall f: nat :: FreeRun(old(segments), f, pages) ==> r.value <= f)
                && (forall f: nat :: IsFree(segments, f) <==> IsFree(old(segments), f) && !(r.value <= f < r.value + pages))
    {
      ghost var s := segments;
      var i := 0;
      while i < |segments| && segments[i].pages < pages
        invariant i <= |segments|
        invariant forall k :: 0 <= k < i ==> segments[k].pages < pages
      {
        i := i + 1;
      }
      TooShort(s, i, pages);
      if i == |segments| {
        return None;
      }
      var addr := segments[i].start;
      CarveKeeps(segments, i, pages);
      FitsHere(s, i, pages);
      if segments[i].pages == pages {
        segments := segments[..i] + segments[i + 1..];
      } else {
        segments := segments[i := MemoryRange(segments[i].start + pages, segments[i].pages - pages)];
      }
      assert segments == Carve(s, i, pages);
      if pages == 0 {
        assert segments == s;
      }
      r := Some(addr);
    }

    /** The scan of `deallocate`: stops at the range that takes `addr`, or before which it goes. */
    method Scan(addr: nat) returns (index: int, side: Side)
      requires Canonical(segments)
      modifies this
      ensures -1 <= index < |old(segments)|
      ensures index == -1 ==> segments == old(segments) && side == Neither && Passed(old(segments), |old(segments)|, addr)
      ensures index != -1 ==>
                && Stopped(old(segments), index, addr, side)
                && segments == old(segments)[index := Grown(old(segments)[index], addr, side)]
    {
      index, side := -1, Neither;
      ghost var s := segments;
      var i := 0;
      while i < |segments| && index == -1
        invariant 0 <= i <= |s| && -1 <= index < |s|
        invariant index == -1 ==> segments == s && side == Neither && Passed(s, i, addr)
        invariant index != -1 ==> Stopped(s, index, addr, side) && segments == s[index := Grown(s[index], addr, side)]
        decreases |s| - i, if index == -1 then 1 else 0
      {
        var segment := segments[i];
        if segment.End() < addr {
          i := i + 1;
        } else if segment.End() == addr {
          index, side := i, Right;
          segments := segments[i := MemoryRange(segment.start, segment.pages + 1)];
        } else if segment.start == addr + 1 {
          index, side := i, Left;
          segments := segments[i := MemoryRange(addr, segment.pages + 1)];
        } else if segment.start > addr + 1 {
          index := i;
        } else {
          i := i + 1;
        }
      }
    }

    /**
     * FrameAllocator::deallocate. Freeing a frame that is not free adds exactly that frame and keeps the list
     * canonical; freeing a free frame breaks the canonical form, always.
     */
    method Deallocate(addr: nat)
      requires Canonical(segments)
      modifies this
      ensures Canonical(segments) <==> !IsFree(old(segments), addr)
      ensures !IsFree(old(segments), addr) ==> FreedOne(old(segments), addr, segments)
    {
      ghost var s := segments;
      if |segments| == 0 {
        segments := [MemoryRange(addr, 1)];
        assert segments == Inserted(s, 0, addr);
        InsertFrees(s, 0, addr);
        return;
      }
      var index, side := Scan(addr);
      hide Canonical, IsFree;
      if side == Neither {
        var at := if index != -1 then index else |segments|;
        assert segments == s;
        segments := segments[..at] + [MemoryRange(addr, 1)] + segments[at..];
        assert segments == Inserted(s, at, addr);
        if IsFree(s, addr) { DoubleFree(s, at, addr); } else { InsertFrees(s, at, addr); }
        return;
      }
      StopsBeside(s, index, addr, side);
      if side == Right && index + 1 < |s| && s[index + 1].start == addr + 1 {
        MergeFrees(s, index, addr);
      } else {
        GrowFrees(s, index, addr, side);
      }
      if side == Left && index != 0 {
        if segments[index - 1].End() == segments[index].start {
          // The scan would have stopped at the range below: this merge is never taken.
          assert false;
        }
      }
      if side == Right && index != |segments| - 1 {
        if segments[index].End() == segments[index + 1].start {
          segments := Merged(segments, index);
        }
      }
    }
  }

  // ---------------------------------------------------------------------------
  // The DMA provider
  // ---------------------------------------------------------------------------

  function Pages(size: nat): nat {
    (size + PAGE - 1) / PAGE
  }

  /** Some byte of the `size` bytes from `paddr` on lies in frame `f`. */
  ghost predicate InBlock(paddr: nat, size: nat, f: nat) {
    exists a :: paddr <= a < paddr + size && a / PAGE == f
  }

  lemma BlockFrames(paddr: nat, size: nat, f: nat)
    requires paddr % PAGE == 0
    ensures InBlock(paddr, size, f) <==> paddr / PAGE <= f < paddr / PAGE + Pages(size)
  {
    if paddr / PAGE <= f < paddr / PAGE + Pages(size) {
      var a := f * PAGE;
      assert paddr <= a < paddr + size && a / PAGE == f;
    }
  }

  /** All these bytes lie in free frames. */
  ghost predicate RoomAt(s: seq<MemoryRange>, paddr: nat, size: nat) {
    forall f: nat :: InBlock(paddr, size, f) ==> IsFree(s, f)
  }

  lemma RoomIsRun(s: seq<MemoryRange>, frame: nat, size: nat)
    ensures RoomAt(s, frame * PAGE, size) <==> FreeRun(s, frame, Pages(size))
  {
    hide IsFree, InBlock, Pages;
    assert frame * PAGE / PAGE == frame && frame * PAGE % PAGE == 0;
    forall f: nat
      ensures InBlock(frame * PAGE, size, f) <==> frame <= f < frame + Pages(size)
    {
      BlockFrames(frame * PAGE, size, f);
    }
  }

  /** `t` has exactly the frames with bytes of the block more than `s`, which has none of them. */
  ghost predicate FreedBlock(s: seq<MemoryRange>, paddr: nat, size: nat, t: seq<MemoryRange>) {
    && (forall f: nat :: InBlock(paddr, size, f) ==> !IsFree(s, f))
    && (forall f: nat :: IsFree(t, f) <==> IsFree(s, f) || InBlock(paddr, size, f))
  }

  /**
   * Provider::alloc_dma: the virtual and physical address of the block; None where the source panics. The block is the
   * lowest whose bytes all lie in free frames, and exactly the frames with bytes of it are taken.
   */
  method AllocDma(fa: FrameAllocator, size: nat, offset: nat) returns (r: Option<(nat, nat)>)
    requires Canonical(fa.segments)
    modifies fa
    ensures Canonical(fa.segments)
    ensures r.None? ==> fa.segments == old(fa.segments)
    ensures size > 0 ==> (r.None? <==> forall f: nat :: !RoomAt(old(fa.segments), f * PAGE, size))
    ensures size == 0 ==>
              (r.None? <==> old(fa.segments) == []) && (r.Some? ==> r.value.1 == old(fa.segments)[0].start * PAGE)
    ensures r.Some? ==>
              && r.value.1 % PAGE == 0 && r.value.0 == r.value.1 + offset
              && RoomAt(old(fa.segments), r.value.1, size)
              && (size > 0 ==> forall f: nat :: RoomAt(old(fa.segments), f * PAGE, size) ==> r.value.1 <= f * PAGE)
              && FreedBlock(fa.segments, r.value.1, size, old(fa.segments))
  {
    ghost var s := fa.segments;
    forall f: nat
      ensures RoomAt(s, f * PAGE, size) <==> FreeRun(s, f, Pages(size))
    {
      RoomIsRun(s, f, size);
    }
    hide Canonical, IsFree, FreeRun, RoomAt, InBlock;
    assert size > 0 <==> Pages(size) >= 1;
    var frame := fa.AllocRange(Pages(size));
    if frame.None? { return None; }
    var paddr := frame.value * PAGE;
    assert paddr / PAGE == frame.value && paddr % PAGE == 0;
    forall f: nat
      ensures InBlock(paddr, size, f) <==> frame.value <= f < frame.value + Pages(size)
    {
      BlockFrames(paddr, size, f);
    }
    r := Some((paddr + offset, paddr));
  }

  /**
   * Provider::dealloc_dma frees the frames one by one, through every kind of merge: exactly those with bytes of the block,
   * which the source takes from the start of the address's frame on.
   */
  method DeallocDma(fa: FrameAllocator, vaddr: nat, size: nat, offset: nat)
    requires Canonical(fa.segments) && vaddr >= offset
    requires forall f: nat :: InBlock((vaddr - offset) / PAGE * PAGE, size, f) ==> !IsFree(fa.segments, f)
    modifies fa
    ensures Canonical(fa.segments) && FreedBlock(old(fa.segments), (vaddr - offset) / PAGE * PAGE, size, fa.segments)
  {
    var frame := (vaddr - offset) / PAGE;
    ghost var s := fa.segments;
    assert frame * PAGE / PAGE == frame && frame * PAGE % PAGE == 0;
    hide IsFree, Canonical, InBlock;
    forall f: nat
      ensures InBlock(frame * PAGE, size, f) <==> frame <= f < frame + Pages(size)
    {
      BlockFrames(frame * PAGE, size, f);
    }
    for i := 0 to Pages(size)
      invariant Canonical(fa.segments)
      invariant forall f: nat :: IsFree(fa.segments, f) <==> IsFree(s, f) || frame <= f < frame + i
    {
      assert !IsFree(s, frame + i);
      fa.Deallocate(frame + i);
    }
  }

  lemma SameBlock(s: seq<MemoryRange>, paddr: nat, size: nat, a: seq<MemoryRange>, b: seq<MemoryRange>)
    requires Canonical(a) && Canonical(b) && FreedBlock(s, paddr, size, a) && FreedBlock(s, paddr, size, b)
    ensures a == b
  {
    hide IsFree, Canonical, InBlock;
    UniqueByMembership(a, b);
  }

  /** Allocating a block for DMA and freeing it again restores the very same list of ranges. */
  method DmaRoundTrip(fa: FrameAllocator, size: nat, offset: nat) returns (ok: bool)
    requires Canonical(fa.segments)
    modifies fa
    ensures fa.segments == old(fa.segments)
  {
    var r := AllocDma(fa, size, offset);
    ok := r.Some?;
    if ok {
      ghost var s := fa.segments;
      hide IsFree, Canonical, InBlock;
      assert r.value.1 / PAGE * PAGE == r.value.1;
      DeallocDma(fa, r.value.0, size, offset);
      SameBlock(s, r.value.1, size, old(fa.segments), fa.segments);
    }
  }
}
