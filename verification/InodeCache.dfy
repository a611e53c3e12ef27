/** The 32-slot inode cache as a queue of shared objects: who may be evicted, and how many slots are stuck. */
module InodeCache {
  import opened Cache

  const INODE_CACHE_SIZE: nat := 32

  /** Arc::strong_count: references from the queue and handles outside it. */
  function Strong<T(==)>(queue: seq<T>, handles: multiset<T>, o: T): nat {
    multiset(queue)[o] + handles[o]
  }

  /** The objects that only one slot of the queue refers to. */
  ghost function Evictable<T>(queue: seq<T>, handles: multiset<T>): set<T> {
    set o | o in queue && Strong(queue, handles, o) == 1
  }

  /** The slots that no eviction can free. */
  ghost function Stuck<T>(queue: seq<T>, handles: multiset<T>): int {
    |queue| - |Evictable(queue, handles)|
  }

  ghost predicate HasVictim<T>(queue: seq<T>, handles: multiset<T>) {
    exists i :: 0 <= i < |queue| && Strong(queue, handles, queue[i]) == 1
  }

  /** Objects that hold two slots, and objects held from outside, keep their slots. */
  lemma StuckBound<T>(queue: seq<T>, handles: multiset<T>, twice: set<T>, once: set<T>)
    requires forall o :: o in twice ==> multiset(queue)[o] >= 2
    requires forall o :: o in once ==> o in queue && Strong(queue, handles, o) >= 2
    requires twice !! once
    ensures Stuck(queue, handles) >= 2 * |twice| + |once|
  {
    var e := Evictable(queue, handles);
    var m := multiset(twice) + multiset(twice) + multiset(once) + multiset(e);
    assert forall o :: o in e || o in once ==> multiset(queue)[o] >= 1;
    assert forall o :: m[o] <= multiset(queue)[o];
    assert multiset(queue) == m + (multiset(queue) - m);
  }

  /** `add_inode_cache` and `cainode` find room exactly when not every slot is stuck. */
  lemma RoomIffNotAllStuck<T>(queue: seq<T>, handles: multiset<T>)
    requires |queue| <= INODE_CACHE_SIZE
    ensures |queue| < INODE_CACHE_SIZE || HasVictim(queue, handles) <==> Stuck(queue, handles) < INODE_CACHE_SIZE
  {
    StuckBound(queue, handles, {}, {});
    var e := Evictable(queue, handles);
    if HasVictim(queue, handles) {
      var i :| 0 <= i < |queue| && Strong(queue, handles, queue[i]) == 1;
      assert queue[i] in e;
    }
  }

  lemma MembersByCount<T>(s: seq<T>)
    ensures forall x :: x in s <==> multiset(s)[x] > 0
  {
  }

  lemma SwapRemoveMultiset<T>(queue: seq<T>, i: nat)
    requires i < |queue|
    ensures multiset(SwapRemove(queue, i)) == multiset(queue) - multiset{queue[i]}
  {
    var n := |queue| - 1;
    assert queue == queue[..i] + [queue[i]] + queue[i + 1..];
    if i < n {
      assert queue[i + 1..] == queue[i + 1..n] + [queue[n]];
      assert SwapRemove(queue, i) == queue[..i] + [queue[n]] + queue[i + 1..n];
    } else {
      assert SwapRemove(queue, i) == queue[..i];
    }
  }

  /** Evicting frees a slot that was not stuck. */
  lemma EvictOne<T>(queue: seq<T>, handles: multiset<T>, i: nat)
    requires i < |queue| && Strong(queue, handles, queue[i]) == 1
    ensures var q := SwapRemove(queue, i);
            && multiset(q) == multiset(queue) - multiset{queue[i]}
            && queue[i] !in q
            && Stuck(q, handles) == Stuck(queue, handles)
            && Evictable(q, handles) == Evictable(queue, handles) - {queue[i]}
  {
    var q, o := SwapRemove(queue, i), queue[i];
    SwapRemoveMultiset(queue, i);
    assert multiset(queue)[o] == 1 by { assert o in queue; }
    MembersByCount(q);
    MembersByCount(queue);
    assert forall p :: p != o ==> multiset(q)[p] == multiset(queue)[p];
    assert Evictable(q, handles) == Evictable(queue, handles) - {o};
  }

  /** Pushing an object somebody holds takes one slot that is stuck. */
  lemma PushHeld<T>(queue: seq<T>, handles: multiset<T>, o: T)
    requires handles[o] >= 1
    ensures Stuck(queue + [o], handles) == Stuck(queue, handles) + 1
  {
    var q := queue + [o];
    MembersByCount(q);
    MembersByCount(queue);
    assert forall p :: multiset(q)[p] == multiset(queue)[p] + if p == o then 1 else 0;
    assert Evictable(q, handles) == Evictable(queue, handles);
  }

  /** Taking a handle makes the object's slot stuck if it was not. */
  lemma TakeHandle<T>(queue: seq<T>, handles: multiset<T>, o: T)
    requires o in queue
    ensures Stuck(queue, handles + multiset{o}) ==
            Stuck(queue, handles) + if Strong(queue, handles, o) == 1 then 1 else 0
  {
    MembersByCount(queue);
    assert Evictable(queue, handles + multiset{o}) == Evictable(queue, handles) - {o};
  }

  /** An object nobody holds takes a slot that can be freed again. */
  lemma PushUnheld<T>(queue: seq<T>, handles: multiset<T>, o: T)
    requires o !in queue && handles[o] == 0
    ensures Stuck(queue + [o], handles) == Stuck(queue, handles)
    ensures Strong(queue + [o], handles, o) == 1
  {
    var q := queue + [o];
    MembersByCount(q);
    MembersByCount(queue);
    assert forall p :: multiset(q)[p] == multiset(queue)[p] + if p == o then 1 else 0;
    assert Evictable(q, handles) == Evictable(queue, handles) + {o};
  }

  /** There is no room only when the 32 slots are taken and each object in them has another reference. */
  lemma NoRoomMeans<T>(queue: seq<T>, handles: multiset<T>)
    requires |queue| <= INODE_CACHE_SIZE && Stuck(queue, handles) >= INODE_CACHE_SIZE
    ensures |queue| == 32 && forall i :: 0 <= i < |queue| ==> Strong(queue, handles, queue[i]) >= 2
  {
    RoomIffNotAllStuck(queue, handles);
    forall i | 0 <= i < |queue|
      ensures Strong(queue, handles, queue[i]) >= 2
    {
      assert queue[i] in queue;
      MembersByCount(queue);
      assert Strong(queue, handles, queue[i]) != 1;
    }
  }
}
