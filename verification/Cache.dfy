/** The write-back block cache, used by one thread: 32 slots over a block device. */
module Cache {
  import opened Layout

  const CACHE_SIZE: nat := 32

  lemma CacheSizeIs()
    ensures CACHE_SIZE == 32
  {
  }

  /** How the RwLock of a cached block is held; a block nobody holds a handle of is `Free`. */
  datatype Pin = Free | Shared(n: nat) | Exclusive

  datatype Entry = Entry(id: nat, block: Block, modified: bool, pin: Pin)

  predicate Cached(queue: seq<Entry>, id: nat) {
    exists i :: 0 <= i < |queue| && queue[i].id == id
  }

  ghost predicate UniqueIds(queue: seq<Entry>) {
    forall i, j :: 0 <= i < j < |queue| ==> queue[i].id != queue[j].id
  }

  /** Vec::swap_remove */
  function SwapRemove<T>(q: seq<T>, i: nat): (r: seq<T>)
    requires i < |q|
    ensures |r| == |q| - 1
    ensures forall k :: 0 <= k < |r| ==> r[k] == if k == i then q[|q| - 1] else q[k]
  {
    var last := q[|q| - 1];
    if i == |q| - 1 then q[..i] else q[..i] + [last] + q[i + 1..|q| - 1]
  }

  /** `Cache::new` and the write-back in `Cache::sync` keep each entry in step with the device. */
  ghost predicate InStep(device: Store, queue: seq<Entry>) {
    forall i :: 0 <= i < |queue| ==>
                  && queue[i].id in device
                  && (queue[i].modified || device[queue[i].id] == queue[i].block)
  }

  /** The device overlaid by the cached blocks. */
  ghost predicate Overlays(device: Store, queue: seq<Entry>, view: Store) {
    && view.Keys == device.Keys
    && (forall i :: 0 <= i < |queue| ==> queue[i].id in view && view[queue[i].id] == queue[i].block)
    && (forall id :: id in view && !Cached(queue, id) ==> view[id] == device[id])
  }

  ghost predicate PinsOf(queue: seq<Entry>, pins: map<nat, Pin>) {
    && (forall i :: 0 <= i < |queue| ==>
                      if queue[i].pin == Free then queue[i].id !in pins
                      else queue[i].id in pins && pins[queue[i].id] == queue[i].pin)
    && (forall id :: id in pins ==> Cached(queue, id))
  }

  ghost function IdsOf(queue: seq<Entry>): set<nat> {
    set i | 0 <= i < |queue| :: queue[i].id
  }

  lemma {:induction false} CountIds(queue: seq<Entry>)
    requires UniqueIds(queue)
    ensures |IdsOf(queue)| == |queue|
  {
    if queue == [] {
    } else {
      var n := |queue| - 1;
      var front := queue[..n];
      CountIds(front);
      assert forall i :: 0 <= i < n ==> front[i] == queue[i];
      assert IdsOf(queue) == IdsOf(front) + {queue[n].id};
      assert queue[n].id !in IdsOf(front);
    }
  }

  lemma Subset<T>(a: set<T>, b: set<T>)
    requires a <= b
    ensures |a| <= |b|
  {
    assert b == a + (b - a);
  }

  /** A full cache in which fewer than 32 blocks are held has an entry that may be evicted. */
  lemma VictimExists(queue: seq<Entry>, pins: map<nat, Pin>)
    requires UniqueIds(queue) && PinsOf(queue, pins) && |queue| == 32 && |pins| < 32
    ensures exists i :: 0 <= i < |queue| && queue[i].pin == Free
  {
    CountIds(queue);
    assert |pins.Keys| == |pins|;
    if forall i :: 0 <= i < |queue| ==> queue[i].pin != Free {
      Subset(IdsOf(queue), pins.Keys);
    }
  }

  /** The invariant of the cache, over its parts. */
  ghost predicate Coherent(device: Store, queue: seq<Entry>, view: Store, pins: map<nat, Pin>) {
    && |queue| <= CACHE_SIZE
    && UniqueIds(queue)
    && InStep(device, queue)
    && Overlays(device, queue, view)
    && PinsOf(queue, pins)
  }

  /** The device after `Cache::sync` of one entry. */
  function Synced(device: Store, e: Entry): Store {
    if e.modified then device[e.id := e.block] else device
  }

  lemma RemovedIds(queue: seq<Entry>, i: nat)
    requires UniqueIds(queue) && i < |queue|
    ensures UniqueIds(SwapRemove(queue, i)) && !Cached(SwapRemove(queue, i), queue[i].id)
    ensures forall k :: 0 <= k < |queue| - 1 ==> SwapRemove(queue, i)[k].id != queue[i].id
    ensures forall id :: Cached(queue, id) <==> id == queue[i].id || Cached(SwapRemove(queue, i), id)
  {
    hide SwapRemove;
    var q := SwapRemove(queue, i);
    forall k | 0 <= k < |queue| && k != i
      ensures Cached(q, queue[k].id)
    {
      assert q[if k == |queue| - 1 then i else k] == queue[k];
    }
  }

  /** Evicting an unheld entry changes neither the view nor the held blocks. */
  lemma EvictKeeps(device: Store, queue: seq<Entry>, view: Store, pins: map<nat, Pin>, i: nat)
    requires Coherent(device, queue, view, pins) && i < |queue| && queue[i].pin == Free
    ensures Coherent(Synced(device, queue[i]), SwapRemove(queue, i), view, pins)
    ensures forall id :: Cached(queue, id) <==> id == queue[i].id || Cached(SwapRemove(queue, i), id)
  {
    hide SwapRemove, Cached, UniqueIds;
    var q, d, v := SwapRemove(queue, i), Synced(device, queue[i]), queue[i].id;
    RemovedIds(queue, i);
    assert view[v] == queue[i].block;
    assert InStep(d, q);
    assert Overlays(d, q, view);
    assert PinsOf(q, pins);
  }

  /** Loading a block that is not cached changes nothing but the slot it gets. */
  lemma LoadKeeps(device: Store, queue: seq<Entry>, view: Store, pins: map<nat, Pin>, id: nat)
    requires Coherent(device, queue, view, pins) && |queue| < CACHE_SIZE
    requires id in device && !Cached(queue, id)
    ensures Coherent(device, queue + [Entry(id, device[id], false, Free)], view, pins)
  {
    var q := queue + [Entry(id, device[id], false, Free)];
    assert forall k :: 0 <= k < |queue| ==> q[k] == queue[k];
    assert q[|queue|].id == id;
    assert forall x :: Cached(q, x) <==> x == id || Cached(queue, x);
  }

  lemma SameIds(q: seq<Entry>, r: seq<Entry>)
    requires |q| == |r| && forall k :: 0 <= k < |q| ==> q[k].id == r[k].id
    ensures forall id :: Cached(q, id) <==> Cached(r, id)
    ensures UniqueIds(q) ==> UniqueIds(r)
  {
  }

  lemma SameBlocks(device: Store, q: seq<Entry>, r: seq<Entry>, view: Store)
    requires |q| == |r| && forall k :: 0 <= k < |q| ==> q[k].id == r[k].id && q[k].block == r[k].block
    requires Overlays(device, q, view)
    ensures Overlays(device, r, view)
  {
    SameIds(q, r);
    hide Cached;
  }

  lemma SamePins(q: seq<Entry>, r: seq<Entry>, pins: map<nat, Pin>)
    requires |q| == |r| && forall k :: 0 <= k < |q| ==> q[k].id == r[k].id && q[k].pin == r[k].pin
    requires PinsOf(q, pins)
    ensures PinsOf(r, pins)
  {
    SameIds(q, r);
    hide Cached;
  }

  lemma Repinned(queue: seq<Entry>, pins: map<nat, Pin>, i: nat, pin: Pin)
    requires UniqueIds(queue) && PinsOf(queue, pins) && i < |queue|
    ensures PinsOf(queue[i := queue[i].(pin := pin)],
                   if pin == Free then pins - {queue[i].id} else pins[queue[i].id := pin])
  {
    var q := queue[i := queue[i].(pin := pin)];
    SameIds(queue, q);
    assert Cached(queue, queue[i].id);
    hide Cached;
  }

  lemma Overlaid(device: Store, queue: seq<Entry>, view: Store, i: nat, b: Block)
    requires UniqueIds(queue) && Overlays(device, queue, view) && i < |queue|
    ensures Overlays(device, queue[i := queue[i].(block := b, modified := true)], view[queue[i].id := b])
  {
    var q := queue[i := queue[i].(block := b, modified := true)];
    SameIds(queue, q);
    assert Cached(queue, queue[i].id);
    hide Cached;
  }

  lemma Updated(device: Store, queue: seq<Entry>, view: Store, i: nat)
    requires UniqueIds(queue) && InStep(device, queue) && Overlays(device, queue, view) && i < |queue|
    ensures InStep(Synced(device, queue[i]), queue[i := queue[i].(modified := false)])
    ensures Overlays(Synced(device, queue[i]), queue, view)
  {
    assert Cached(queue, queue[i].id);
    hide Cached;
  }

  /** Changing how one block is held. */
  lemma RepinKeeps(device: Store, queue: seq<Entry>, view: Store, pins: map<nat, Pin>, i: nat, pin: Pin)
    requires Coherent(device, queue, view, pins) && i < |queue|
    ensures var id := queue[i].id;
            Coherent(device, queue[i := queue[i].(pin := pin)], view,
                     if pin == Free then pins - {id} else pins[id := pin])
  {
    var q := queue[i := queue[i].(pin := pin)];
    assert InStep(device, q);
    hide UniqueIds, Cached, InStep, Overlays, PinsOf;
    SameIds(queue, q);
    SameBlocks(device, queue, q, view);
    Repinned(queue, pins, i, pin);
  }

  /** `modify` changes the view at one block. */
  lemma PokeKeeps(device: Store, queue: seq<Entry>, view: Store, pins: map<nat, Pin>, i: nat, b: Block)
    requires Coherent(device, queue, view, pins) && i < |queue|
    ensures Coherent(device, queue[i := queue[i].(block := b, modified := true)], view[queue[i].id := b], pins)
  {
    var q := queue[i := queue[i].(block := b, modified := true)];
    assert InStep(device, q);
    hide UniqueIds, Cached, InStep, Overlays, PinsOf;
    SameIds(queue, q);
    SamePins(queue, q, pins);
    Overlaid(device, queue, view, i, b);
  }

  /** `sync` brings the device up to date at one block and leaves the view alone. */
  lemma SyncKeeps(device: Store, queue: seq<Entry>, view: Store, pins: map<nat, Pin>, i: nat)
    requires Coherent(device, queue, view, pins) && i < |queue|
    ensures Coherent(Synced(device, queue[i]), queue[i := queue[i].(modified := false)], view, pins)
  {
    var q := queue[i := queue[i].(modified := false)];
    hide UniqueIds, Cached, InStep, Overlays, PinsOf;
    SameIds(queue, q);
    SamePins(queue, q, pins);
    Updated(device, queue, view, i);
    SameBlocks(Synced(device, queue[i]), queue, q, view);
  }

  lemma RoomToGet(device: Store, queue: seq<Entry>, view: Store, pins: map<nat, Pin>)
    requires Coherent(device, queue, view, pins) && |pins| < CACHE_SIZE
    ensures |queue| < CACHE_SIZE || exists k :: 0 <= k < |queue| && queue[k].pin == Free
  {
    if |queue| == CACHE_SIZE {
      VictimExists(queue, pins);
    }
  }

  lemma HeldIsCached(device: Store, queue: seq<Entry>, view: Store, pins: map<nat, Pin>, id: nat)
    requires Coherent(device, queue, view, pins) && id in pins
    ensures Cached(queue, id) && id in view
  {
  }

  lemma SlotIsView(device: Store, queue: seq<Entry>, view: Store, pins: map<nat, Pin>, i: nat)
    requires Coherent(device, queue, view, pins) && i < |queue|
    ensures queue[i].id in view && view[queue[i].id] == queue[i].block
    ensures if queue[i].pin == Free then queue[i].id !in pins
            else queue[i].id in pins && pins[queue[i].id] == queue[i].pin
  {
  }

  /** Taking a handle and dropping it again. */
  lemma PinUnpin(pins: map<nat, Pin>, id: nat, pin: Pin)
    requires id !in pins
    ensures pins[id := pin] - {id} == pins
    ensures |pins[id := pin]| == |pins| + 1
  {
    assert pins[id := pin].Keys == pins.Keys + {id};
    assert |pins[id := pin].Keys| == |pins[id := pin]|;
  }

  class CacheManager {
    var device: Store
    var queue: seq<Entry>
    /** What a plain device without a cache would hold. */
    ghost var view: Store
    /** The blocks of which a handle is held, and how. */
    ghost var pins: map<nat, Pin>
    /** The most blocks ever held at once. */
    ghost var peak: nat

    ghost predicate Valid()
      reads this
    {
      Coherent(device, queue, view, pins) && |pins| <= peak
    }

    constructor (device: Store)
      ensures Valid() && this.device == device && view == device && pins == map[] && peak == 0
    {
      this.device := device;
      queue := [];
      view := device;
      pins := map[];
      peak := 0;
    }

    method Find(id: nat) returns (i: nat)
      ensures i <= |queue|
      ensures i < |queue| ==> queue[i].id == id
      ensures i == |queue| ==> !Cached(queue, id)
    {
      i := 0;
      while i < |queue| && queue[i].id != id
        invariant i <= |queue|
        invariant forall k :: 0 <= k < i ==> queue[k].id != id
      {
        i := i + 1;
      }
    }

    /** The substitution step of `get`: drops the first entry nobody holds, which writes it back if modified. */
    method Evict() returns (i: nat)
      requires Valid() && |queue| == CACHE_SIZE
      requires exists i :: 0 <= i < |queue| && queue[i].pin == Free
      modifies this`device, this`queue
      ensures Valid() && |queue| == CACHE_SIZE - 1
      ensures i < CACHE_SIZE && old(queue)[i].pin == Free && forall k :: 0 <= k < i ==> old(queue)[k].pin != Free
      ensures queue == SwapRemove(old(queue), i) && device == Synced(old(device), old(queue)[i])
      ensures forall id :: Cached(queue, id) ==> old(Cached(queue, id))
    {
      hide Coherent, SwapRemove, Cached, Synced;
      i := 0;
      while queue[i].pin != Free
        invariant 0 <= i < |queue|
        invariant forall k :: 0 <= k < i ==> queue[k].pin != Free
        decreases |queue| - i
      {
        i := i + 1;
      }
      EvictKeeps(device, queue, view, pins, i);
      device, queue := Synced(device, queue[i]), SwapRemove(queue, i);
    }

    /**
     * CacheManager::get. It panics when the block is not cached, all 32 slots are taken and every
     * entry is held, and only then.
     */
    method Get(id: nat) returns (i: nat)
      requires Valid() && id in view
      requires Cached(queue, id) || |queue| < CACHE_SIZE || exists k :: 0 <= k < |queue| && queue[k].pin == Free
      modifies this`device, this`queue
      ensures Valid() && i < |queue| && queue[i].id == id
      ensures Cached(old(queue), id) ==> queue == old(queue) && device == old(device)
      ensures !Cached(old(queue), id) ==> i == |queue| - 1 && id in device && queue[i] == Entry(id, device[id], false, Free)
      ensures !Cached(old(queue), id) && |old(queue)| < CACHE_SIZE ==> queue[..i] == old(queue) && device == old(device)
    {
      i := Find(id);
      if i == |queue| {
        if |queue| == CACHE_SIZE {
          var victim := Evict();
        }
        LoadKeeps(device, queue, view, pins, id);
        i := |queue|;
        queue := queue + [Entry(id, device[id], false, Free)];
      }
    }

    /** `get(id)` followed by `read()` or `write()`: no lock of the same thread may be in the way. */
    method Open(id: nat, exclusive: bool)
      requires Valid() && id in view
      requires id in pins ==> pins[id].Shared? && !exclusive
      requires |pins| < CACHE_SIZE
      modifies this
      ensures Valid() && view == old(view)
      ensures id !in old(pins) ==> pins == old(pins)[id := if exclusive then Exclusive else Shared(1)]
      ensures id in old(pins) ==> pins == old(pins)[id := Shared(old(pins)[id].n + 1)]
      ensures peak == if |pins| > old(peak) then |pins| else old(peak)
    {
      hide Coherent;
      RoomToGet(device, queue, view, pins);
      var i := Get(id);
      SlotIsView(device, queue, view, pins, i);
      var pin := if exclusive then Exclusive else if queue[i].pin.Shared? then Shared(queue[i].pin.n + 1) else Shared(1);
      RepinKeeps(device, queue, view, pins, i, pin);
      queue := queue[i := queue[i].(pin := pin)];
      pins := pins[id := pin];
      peak := if |pins| > peak then |pins| else peak;
    }

    /** The guard and the handle go out of scope. */
    method Close(id: nat)
      requires Valid() && id in pins && (pins[id] == Exclusive || pins[id] == Shared(1))
      modifies this
      ensures Valid() && view == old(view) && pins == old(pins) - {id} && peak == old(peak)
    {
      hide Coherent;
      HeldIsCached(device, queue, view, pins, id);
      var i := Find(id);
      RepinKeeps(device, queue, view, pins, i, Free);
      queue := queue[i := queue[i].(pin := Free)];
      Subset((pins - {id}).Keys, pins.Keys);
      pins := pins - {id};
    }

    /** Cache::read of a block that is held. */
    method Peek(id: nat) returns (b: Block)
      requires Valid() && id in pins
      ensures id in view && b == view[id]
    {
      hide Coherent;
      HeldIsCached(device, queue, view, pins, id);
      var i := Find(id);
      SlotIsView(device, queue, view, pins, i);
      b := queue[i].block;
    }

    /** Cache::modify of a block that is held for writing. */
    method Poke(id: nat, b: Block)
      requires Valid() && id in pins && pins[id] == Exclusive
      modifies this
      ensures Valid() && id in old(view) && view == old(view)[id := b] && pins == old(pins) && peak == old(peak)
    {
      hide Coherent;
      HeldIsCached(device, queue, view, pins, id);
      var i := Find(id);
      PokeKeeps(device, queue, view, pins, i, b);
      queue := queue[i := queue[i].(block := b, modified := true)];
      view := view[id := b];
    }

    /** `get(id).read().read(..)` with a closure that asks for no other block. */
    method Read(id: nat) returns (b: Block)
      requires Valid() && id in view && id !in pins && |pins| < CACHE_SIZE
      modifies this
      ensures Valid() && view == old(view) && pins == old(pins)
      ensures b == view[id]
      ensures peak == if |pins| + 1 > old(peak) then |pins| + 1 else old(peak)
    {
      hide Coherent;
      Open(id, false);
      b := Peek(id);
      Close(id);
      assert pins == old(pins);
    }

    /** `get(id).write().modify(..)` with a closure that overwrites the block. */
    method Modify(id: nat, b: Block)
      requires Valid() && id in view && id !in pins && |pins| < CACHE_SIZE
      modifies this
      ensures Valid() && view == old(view)[id := b] && pins == old(pins)
      ensures peak == if |pins| + 1 > old(peak) then |pins| + 1 else old(peak)
    {
      hide Coherent;
      Open(id, true);
      Poke(id, b);
      Close(id);
      assert pins == old(pins);
    }

    /** CacheManager::flush takes each cached block's write lock, so nothing may be held. */
    method Flush()
      requires Valid() && pins == map[]
      modifies this`device, this`queue
      ensures Valid() && device == view && forall k :: 0 <= k < |queue| ==> !queue[k].modified
    {
      for i := 0 to |queue|
        invariant Valid() && |queue| == |old(queue)|
        invariant forall k :: 0 <= k < i ==> !queue[k].modified
      {
        SyncKeeps(device, queue, view, pins, i);
        device, queue := Synced(device, queue[i]), queue[i := queue[i].(modified := false)];
      }
      assert device == view by {
        forall id | id in view
          ensures device[id] == view[id]
        {
          if Cached(queue, id) {
            var k :| 0 <= k < |queue| && queue[k].id == id;
          }
        }
      }
    }
  }
}
