/**
 * The block cache shared by several threads, as a state machine: every lock acquisition, device access and
 * change of the queue is a step of its own, and the threads' steps interleave in any order.
 */
module CacheProtocol {
  import opened Layout
  import Cache

  /** A live `Cache`, behind its `Arc`. */
  datatype Object = Object(block: nat, content: Block, modified: bool)

  datatype Slot = Slot(block: nat, obj: nat)

  /** Where a thread stands in `get`, in `flush` or before a block's lock. */
  datatype Pc =
    | Idle
    | Asking(block: nat)                     // in `get`, no lock: before `queue.read()`
    | Finding(block: nat)                    // queue read lock, before the first search
    | Missed(block: nat)                     // no lock: between `drop(lock)` and `queue.write()`
    | Rechecking(block: nat)                 // queue write lock, before the second search
    | WritingBack(block: nat, victim: nat)   // queue write lock, inside the drop of the evicted block
    | Loading(block: nat)                    // queue write lock, before the device is read
    | Loaded(block: nat, content: Block)     // queue write lock, after the device was read
    | FlushAsking                            // in `flush`, no lock: before `queue.read()`
    | Flushing(next: nat)                    // queue read lock
    | FlushWriting(next: nat)                // queue read lock and the block's lock, `modified` already cleared
    | Locking(obj: nat, exclusive: bool)     // before a handle's `write()` or `read()`
    | Panicked

  /** `guards` are the read guards that the thread holds of cached blocks. */
  datatype Thread = Thread(pc: Pc, handles: multiset<nat>, guards: multiset<nat>)

  /** `locks` gives the thread that holds the write lock of a cached block. */
  datatype State = State(disk: Store, queue: seq<Slot>, objs: map<nat, Object>, threads: seq<Thread>, locks: map<nat, nat>)

  datatype Action =
    | GetCall(block: nat) | GetBegin | Hit(i: nat) | Miss | GetAgain | HitAgain(i: nat)
    | Room | Evict(i: nat) | RunOut | WriteBack | ReadDevice | Push(obj: nat)
    | Clone(obj: nat) | DropHandle(obj: nat)
    | Want(obj: nat) | Lock | Unlock(obj: nat) | WantRead(obj: nat) | ReadLock | ReadUnlock(obj: nat)
    | Modify(obj: nat, content: Block) | Read(obj: nat, content: Block)
    | FlushCall | FlushBegin | SyncBegin | SyncEnd | FlushEnd

  predicate Reading(pc: Pc) {
    pc.Finding? || pc.Flushing? || pc.FlushWriting?
  }

  predicate Writing(pc: Pc) {
    pc.Rechecking? || pc.WritingBack? || pc.Loading? || pc.Loaded? || pc.Panicked?
  }

  /** The queue's RwLock can be taken for reading, for writing. */
  predicate ReadFree(s: State) {
    forall u :: 0 <= u < |s.threads| ==> !Writing(s.threads[u].pc)
  }

  predicate WriteFree(s: State) {
    forall u :: 0 <= u < |s.threads| ==> !Writing(s.threads[u].pc) && !Reading(s.threads[u].pc)
  }

  predicate HasBlock(queue: seq<Slot>, b: nat) {
    exists i :: 0 <= i < |queue| && queue[i].block == b
  }

  predicate HasObject(queue: seq<Slot>, o: nat) {
    exists i :: 0 <= i < |queue| && queue[i].obj == o
  }

  /** `find`: `i` is the first slot of block `b`. */
  predicate FoundAt(queue: seq<Slot>, b: nat, i: nat) {
    i < |queue| && queue[i].block == b && forall j :: 0 <= j < i ==> queue[j].block != b
  }

  /** `Arc::strong_count` is more than one: some thread holds a handle besides the queue's own. */
  predicate Held(s: State, o: nat) {
    exists u :: 0 <= u < |s.threads| && o in s.threads[u].handles
  }

  predicate Victim(s: State, i: nat) {
    i < |s.queue| && !Held(s, s.queue[i].obj) && forall j :: 0 <= j < i ==> Held(s, s.queue[j].obj)
  }

  /** Thread `t` holds the write lock of object `o`. */
  predicate Owns(s: State, t: nat, o: nat) {
    o in s.locks && s.locks[o] == t
  }

  /** No thread holds a read guard of object `o`. */
  predicate Unread(s: State, o: nat) {
    forall u :: 0 <= u < |s.threads| ==> o !in s.threads[u].guards
  }

  /** When thread `t` may take the step `a`. */
  ghost predicate Enabled(s: State, t: nat, a: Action) {
    t < |s.threads| &&
    var me := s.threads[t];
    match a
    case GetCall(b) => me.pc.Idle? && b in s.disk
    case GetBegin => me.pc.Asking? && ReadFree(s)
    case Hit(i) => me.pc.Finding? && FoundAt(s.queue, me.pc.block, i)
    case Miss => me.pc.Finding? && !HasBlock(s.queue, me.pc.block)
    case GetAgain => me.pc.Missed? && WriteFree(s)
    case HitAgain(i) => me.pc.Rechecking? && FoundAt(s.queue, me.pc.block, i)
    case Room => me.pc.Rechecking? && !HasBlock(s.queue, me.pc.block) && |s.queue| != Cache.CACHE_SIZE
    case Evict(i) =>
      && me.pc.Rechecking? && !HasBlock(s.queue, me.pc.block) && |s.queue| == Cache.CACHE_SIZE
      && Victim(s, i) && s.queue[i].obj in s.objs
    case RunOut =>
      && me.pc.Rechecking? && !HasBlock(s.queue, me.pc.block) && |s.queue| == Cache.CACHE_SIZE
      && forall i :: 0 <= i < |s.queue| ==> Held(s, s.queue[i].obj)
    case WriteBack => me.pc.WritingBack? && me.pc.victim in s.objs
    case ReadDevice => me.pc.Loading? && me.pc.block in s.disk
    case Push(o) => me.pc.Loaded? && o !in s.objs
    case Clone(o) => me.pc.Idle? && o in me.handles
    case DropHandle(o) => me.pc.Idle? && o in me.handles && (me.handles[o] > 1 || (!Owns(s, t, o) && o !in me.guards))
    case Want(o) => me.pc.Idle? && o in me.handles
    case Lock => me.pc.Locking? && me.pc.exclusive && me.pc.obj !in s.locks && Unread(s, me.pc.obj)
    case Unlock(o) => me.pc.Idle? && Owns(s, t, o)
    case WantRead(o) => me.pc.Idle? && o in me.handles
    case ReadLock => me.pc.Locking? && !me.pc.exclusive && me.pc.obj !in s.locks
    case ReadUnlock(o) => me.pc.Idle? && o in me.guards
    case Modify(o, c) => me.pc.Idle? && Owns(s, t, o) && o in s.objs
    case Read(o, c) => me.pc.Idle? && (o in me.guards || Owns(s, t, o)) && o in s.objs && s.objs[o].content == c
    case FlushCall => me.pc.Idle?
    case FlushBegin => me.pc.FlushAsking? && ReadFree(s)
    case SyncBegin =>
      && me.pc.Flushing? && me.pc.next < |s.queue| && s.queue[me.pc.next].obj in s.objs
      && s.queue[me.pc.next].obj !in s.locks && Unread(s, s.queue[me.pc.next].obj)
    case SyncEnd => me.pc.FlushWriting? && me.pc.next < |s.queue| && s.queue[me.pc.next].obj in s.objs
    case FlushEnd => me.pc.Flushing? && me.pc.next == |s.queue|
  }

  function At(s: State, t: nat, pc: Pc): State
    requires t < |s.threads|
  {
    s.(threads := s.threads[t := s.threads[t].(pc := pc)])
  }

  function Owning(s: State, t: nat, pc: Pc, handles: multiset<nat>): State
    requires t < |s.threads|
  {
    s.(threads := s.threads[t := s.threads[t].(pc := pc, handles := handles)])
  }

  function Guarding(s: State, t: nat, pc: Pc, guards: multiset<nat>): State
    requires t < |s.threads|
  {
    s.(threads := s.threads[t := s.threads[t].(pc := pc, guards := guards)])
  }

  /** The state after the step `a` of thread `t`. */
  ghost function After(s: State, t: nat, a: Action): State
    requires Enabled(s, t, a)
  {
    var me := s.threads[t];
    match a
    case GetCall(b) => At(s, t, Asking(b))
    case GetBegin => At(s, t, Finding(me.pc.block))
    case Hit(i) => Owning(s, t, Idle, me.handles + multiset{s.queue[i].obj})
    case Miss => At(s, t, Missed(me.pc.block))
    case GetAgain => At(s, t, Rechecking(me.pc.block))
    case HitAgain(i) => Owning(s, t, Idle, me.handles + multiset{s.queue[i].obj})
    case Room => At(s, t, Loading(me.pc.block))
    case Evict(i) =>
      var o := s.queue[i].obj;
      var rest := s.(queue := Cache.SwapRemove(s.queue, i));
      if s.objs[o].modified then
        At(rest.(objs := s.objs[o := s.objs[o].(modified := false)]), t, WritingBack(me.pc.block, o))
      else
        At(rest.(objs := s.objs - {o}), t, Loading(me.pc.block))
    case RunOut => At(s, t, Panicked)
    case WriteBack =>
      var o := me.pc.victim;
      At(s.(disk := s.disk[s.objs[o].block := s.objs[o].content], objs := s.objs - {o}), t, Loading(me.pc.block))
    case ReadDevice => At(s, t, Loaded(me.pc.block, s.disk[me.pc.block]))
    case Push(o) =>
      Owning(s.(queue := s.queue + [Slot(me.pc.block, o)], objs := s.objs[o := Object(me.pc.block, me.pc.content, false)]),
             t, Idle, me.handles + multiset{o})
    case Clone(o) => Owning(s, t, Idle, me.handles + multiset{o})
    case DropHandle(o) => Owning(s, t, Idle, me.handles - multiset{o})
    case Want(o) => At(s, t, Locking(o, true))
    case Lock => At(s.(locks := s.locks[me.pc.obj := t]), t, Idle)
    case Unlock(o) => s.(locks := s.locks - {o})
    case WantRead(o) => At(s, t, Locking(o, false))
    case ReadLock => Guarding(s, t, Idle, me.guards + multiset{me.pc.obj})
    case ReadUnlock(o) => Guarding(s, t, Idle, me.guards - multiset{o})
    case Modify(o, c) => s.(objs := s.objs[o := s.objs[o].(content := c, modified := true)])
    case Read(o, c) => s
    case FlushCall => At(s, t, FlushAsking)
    case FlushBegin => At(s, t, Flushing(0))
    case SyncBegin =>
      var o := s.queue[me.pc.next].obj;
      if s.objs[o].modified then
        At(s.(objs := s.objs[o := s.objs[o].(modified := false)], locks := s.locks[o := t]), t, FlushWriting(me.pc.next))
      else
        At(s, t, Flushing(me.pc.next + 1))
    case SyncEnd =>
      var o := s.queue[me.pc.next].obj;
      At(s.(disk := s.disk[s.objs[o].block := s.objs[o].content], locks := s.locks - {o}), t, Flushing(me.pc.next + 1))
    case FlushEnd => At(s, t, Idle)
  }

  // ---------------------------------------------------------------------------
  // The invariant
  // ---------------------------------------------------------------------------

  /** A writer of the queue is alone. */
  ghost predicate Exclusion(s: State) {
    forall t, u :: 0 <= t < |s.threads| && 0 <= u < |s.threads| && t != u && Writing(s.threads[t].pc) ==>
                     !Writing(s.threads[u].pc) && !Reading(s.threads[u].pc)
  }

  ghost predicate QueueOk(s: State) {
    && |s.queue| <= Cache.CACHE_SIZE
    && (forall i :: 0 <= i < |s.queue| ==> s.queue[i].obj in s.objs && s.objs[s.queue[i].obj].block == s.queue[i].block)
    && (forall i, j :: 0 <= i < j < |s.queue| ==> s.queue[i].block != s.queue[j].block)
  }

  /** What a thread's position in `get` or `flush` tells about the shared state. */
  ghost predicate PcOk(s: State, t: nat)
    requires t < |s.threads|
  {
    match s.threads[t].pc
    case Asking(b) => b in s.disk
    case Finding(b) => b in s.disk
    case Missed(b) => b in s.disk
    case Rechecking(b) => b in s.disk
    case WritingBack(b, o) =>
      && b in s.disk && !HasBlock(s.queue, b) && |s.queue| < Cache.CACHE_SIZE
      && o in s.objs && s.objs[o].block != b && !HasBlock(s.queue, s.objs[o].block)
    case Loading(b) => b in s.disk && !HasBlock(s.queue, b) && |s.queue| < Cache.CACHE_SIZE
    case Loaded(b, c) => b in s.disk && s.disk[b] == c && !HasBlock(s.queue, b) && |s.queue| < Cache.CACHE_SIZE
    case Flushing(i) => i <= |s.queue|
    case FlushWriting(i) =>
      && i < |s.queue| && s.queue[i].obj in s.locks && s.locks[s.queue[i].obj] == t
      && s.queue[i].obj in s.objs && !s.objs[s.queue[i].obj].modified
    case Locking(o, _) => o in s.threads[t].handles
    case _ => true
  }

  ghost predicate PcsOk(s: State) {
    forall t :: 0 <= t < |s.threads| ==> PcOk(s, t)
  }

  /** The evicted block whose drop has not yet written it back. */
  ghost predicate Dying(s: State, o: nat) {
    exists t :: 0 <= t < |s.threads| && s.threads[t].pc.WritingBack? && s.threads[t].pc.victim == o
  }

  ghost predicate BeingSynced(s: State, o: nat) {
    exists t :: 0 <= t < |s.threads| && s.threads[t].pc.FlushWriting? && s.threads[t].pc.next < |s.queue|
                && s.queue[s.threads[t].pc.next].obj == o
  }

  ghost predicate LiveOk(s: State) {
    forall o :: o in s.objs ==> HasObject(s.queue, o) || Dying(s, o)
  }

  ghost predicate HandlesOk(s: State) {
    forall t, o :: 0 <= t < |s.threads| && o in s.threads[t].handles ==> HasObject(s.queue, o)
  }

  ghost predicate LocksOk(s: State) {
    forall o :: o in s.locks ==>
                  && s.locks[o] < |s.threads|
                  && (|| o in s.threads[s.locks[o]].handles
                      || (&& s.threads[s.locks[o]].pc.FlushWriting? && s.threads[s.locks[o]].pc.next < |s.queue|
                          && s.queue[s.threads[s.locks[o]].pc.next].obj == o))
  }

  /** A thread has a handle of a block that it reads, and nobody holds the block's write lock then. */
  ghost predicate GuardsOk(s: State) {
    forall t :: 0 <= t < |s.threads| ==>
                  forall o :: o in s.threads[t].guards ==> o in s.threads[t].handles && o !in s.locks
  }

  /** A live block agrees with the device unless it is marked modified or its write is under way. */
  ghost predicate InStep(s: State) {
    forall o :: o in s.objs ==>
                  && s.objs[o].block in s.disk
                  && (s.objs[o].modified || s.disk[s.objs[o].block] == s.objs[o].content || Dying(s, o) || BeingSynced(s, o))
  }

  ghost predicate Inv(s: State) {
    Exclusion(s) && QueueOk(s) && PcsOk(s) && LiveOk(s) && HandlesOk(s) && LocksOk(s) && GuardsOk(s) && InStep(s)
  }

  // ---------------------------------------------------------------------------
  // What the threads see
  // ---------------------------------------------------------------------------

  ghost predicate Live(s: State, b: nat) {
    exists o :: o in s.objs && s.objs[o].block == b
  }

  /** `view` is the device overlaid by the live cached blocks. */
  ghost predicate Shows(s: State, view: Store) {
    && view.Keys == s.disk.Keys
    && (forall o :: o in s.objs ==> s.objs[o].block in view && view[s.objs[o].block] == s.objs[o].content)
    && (forall b :: b in view && !Live(s, b) ==> view[b] == s.disk[b])
  }

  /** The plain disk that the cache stands for: only `Modify` changes it. */
  ghost function Effect(s: State, a: Action, view: Store): Store
    requires a.Modify? ==> a.obj in s.objs
  {
    if a.Modify? then view[s.objs[a.obj].block := a.content] else view
  }

  /** Every block has at most one live cached copy. */
  ghost predicate OneCopy(s: State) {
    forall o, p :: o in s.objs && p in s.objs && s.objs[o].block == s.objs[p].block ==> o == p
  }

  lemma DyingIsAlone(s: State, o: nat, p: nat)
    requires Inv(s) && Dying(s, o) && HasObject(s.queue, p)
    ensures o in s.objs && p in s.objs && s.objs[o].block != s.objs[p].block
  {
    var t :| 0 <= t < |s.threads| && s.threads[t].pc.WritingBack? && s.threads[t].pc.victim == o;
    assert PcOk(s, t);
    var i :| 0 <= i < |s.queue| && s.queue[i].obj == p;
  }

  lemma OneLiveCopy(s: State)
    requires Inv(s)
    ensures OneCopy(s)
  {
    forall o, p | o in s.objs && p in s.objs && s.objs[o].block == s.objs[p].block
      ensures o == p
    {
      if Dying(s, o) && Dying(s, p) {
        var t :| 0 <= t < |s.threads| && s.threads[t].pc.WritingBack? && s.threads[t].pc.victim == o;
        var u :| 0 <= u < |s.threads| && s.threads[u].pc.WritingBack? && s.threads[u].pc.victim == p;
        assert Writing(s.threads[t].pc) && Writing(s.threads[u].pc);
      } else if Dying(s, o) {
        DyingIsAlone(s, o, p);
      } else if Dying(s, p) {
        DyingIsAlone(s, p, o);
      } else {
        assert HasObject(s.queue, o) && HasObject(s.queue, p);
      }
    }
  }

  /** Handles of one block are handles of one object. */
  lemma OneHandleObject(s: State, t: nat, u: nat, o: nat, p: nat)
    requires Inv(s) && t < |s.threads| && u < |s.threads|
    requires o in s.threads[t].handles && p in s.threads[u].handles
    ensures o in s.objs && p in s.objs
    ensures s.objs[o].block == s.objs[p].block ==> o == p
  {
    OneLiveCopy(s);
    assert HasObject(s.queue, o) && HasObject(s.queue, p);
  }

  // ---------------------------------------------------------------------------
  // Every step keeps the invariant
  // ---------------------------------------------------------------------------

  /** Not in the middle of writing a block to the device. */
  predicate Quiet(pc: Pc) {
    !pc.WritingBack? && !pc.FlushWriting?
  }

  /** The queue's lock lets thread `t` go from where it is to `pc`. */
  predicate MayGo(s: State, t: nat, pc: Pc)
    requires t < |s.threads|
  {
    && (Writing(pc) ==> Writing(s.threads[t].pc) || WriteFree(s))
    && (Reading(pc) ==> Reading(s.threads[t].pc) || ReadFree(s))
  }

  /** Only thread `t` has moved, as the queue's lock allows. */
  ghost predicate Moved(s: State, s': State, t: nat) {
    && t < |s.threads| == |s'.threads| && MayGo(s, t, s'.threads[t].pc)
    && forall u :: 0 <= u < |s.threads| && u != t ==> s'.threads[u] == s.threads[u]
  }

  lemma Excludes(s: State, s': State, t: nat)
    requires Exclusion(s) && Moved(s, s', t)
    ensures Exclusion(s')
  {
  }

  lemma SameWrites(s: State, s': State, t: nat)
    requires Moved(s, s', t) && s'.queue == s.queue && Quiet(s.threads[t].pc) && Quiet(s'.threads[t].pc)
    ensures forall o :: Dying(s', o) <==> Dying(s, o)
    ensures forall o :: BeingSynced(s', o) <==> BeingSynced(s, o)
  {
    forall o
      ensures Dying(s', o) <==> Dying(s, o)
      ensures BeingSynced(s', o) <==> BeingSynced(s, o)
    {
      if u :| 0 <= u < |s.threads| && s.threads[u].pc.WritingBack? && s.threads[u].pc.victim == o {
        assert s'.threads[u].pc.WritingBack? && s'.threads[u].pc.victim == o;
      }
      if u :| 0 <= u < |s.threads| && s.threads[u].pc.FlushWriting? && s.threads[u].pc.next < |s.queue|
              && s.queue[s.threads[u].pc.next].obj == o {
        assert s'.threads[u].pc.FlushWriting? && s'.queue[s'.threads[u].pc.next].obj == o;
      }
    }
  }

  /** A thread may move and change its handles as long as the locks allow it. */
  lemma MoveKeeps(s: State, t: nat, pc: Pc, handles: multiset<nat>)
    requires Inv(s) && t < |s.threads| && Quiet(s.threads[t].pc) && Quiet(pc) && MayGo(s, t, pc)
    requires PcOk(Owning(s, t, pc, handles), t)
    requires forall o :: o in handles ==> HasObject(s.queue, o)
    requires forall o :: o in s.locks && s.locks[o] == t ==> o in handles
    requires forall o :: o in s.threads[t].guards ==> o in handles
    ensures Inv(Owning(s, t, pc, handles))
  {
    hide Dying, BeingSynced, HasObject, HasBlock, WriteFree, ReadFree;
    var s' := Owning(s, t, pc, handles);
    Excludes(s, s', t);
    forall u | 0 <= u < |s.threads|
      ensures PcOk(s', u)
    {
      assert PcOk(s, u);
    }
    SameWrites(s, s', t);
    assert LocksOk(s');
    assert GuardsOk(s');
  }

  lemma OwnLocks(s: State, t: nat)
    requires Inv(s) && t < |s.threads| && Quiet(s.threads[t].pc)
    ensures forall o :: o in s.locks && s.locks[o] == t ==> o in s.threads[t].handles
    ensures forall o :: o in s.threads[t].guards ==> o in s.threads[t].handles
  {
  }

  /** As `MoveKeeps`, for a thread that keeps its handles. */
  lemma GoKeeps(s: State, t: nat, pc: Pc)
    requires Inv(s) && t < |s.threads| && Quiet(s.threads[t].pc) && Quiet(pc) && MayGo(s, t, pc)
    requires PcOk(At(s, t, pc), t)
    ensures Inv(At(s, t, pc))
  {
    var h := s.threads[t].handles;
    assert At(s, t, pc) == Owning(s, t, pc, h);
    OwnLocks(s, t);
    MoveKeeps(s, t, pc, h);
  }

  /** A change of locks alone leaves the rest of the invariant. */
  lemma LocksApart(s: State, locks: map<nat, nat>)
    requires Exclusion(s) && QueueOk(s) && LiveOk(s) && HandlesOk(s) && InStep(s)
    ensures var s' := s.(locks := locks); Exclusion(s') && QueueOk(s') && LiveOk(s') && HandlesOk(s') && InStep(s')
  {
    hide HasObject, WriteFree, ReadFree;
    var s' := s.(locks := locks);
    assert forall o :: Dying(s', o) == Dying(s, o) && BeingSynced(s', o) == BeingSynced(s, o);
    hide Dying, BeingSynced;
  }

  lemma InvParts(s: State)
    requires Inv(s)
    ensures Exclusion(s) && QueueOk(s) && PcsOk(s) && LiveOk(s) && HandlesOk(s) && LocksOk(s) && GuardsOk(s) && InStep(s)
  {
  }

  lemma InvJoins(s: State)
    requires Exclusion(s) && QueueOk(s) && PcsOk(s) && LiveOk(s) && HandlesOk(s) && LocksOk(s) && GuardsOk(s) && InStep(s)
    ensures Inv(s)
  {
  }

  lemma LockedPcs(s: State, t: nat, o: nat)
    requires PcsOk(s) && o !in s.locks
    ensures PcsOk(s.(locks := s.locks[o := t]))
  {
    hide HasBlock;
    var s' := s.(locks := s.locks[o := t]);
    forall u | 0 <= u < |s.threads|
      ensures PcOk(s', u)
    {
      assert PcOk(s, u);
    }
  }

  lemma LockKeeps(s: State, t: nat, o: nat)
    requires Inv(s) && t < |s.threads| && Quiet(s.threads[t].pc) && o in s.threads[t].handles && o !in s.locks && Unread(s, o)
    ensures Inv(s.(locks := s.locks[o := t]))
  {
    InvParts(s);
    hide Inv, Exclusion, QueueOk, LiveOk, HandlesOk, InStep, HasBlock;
    var s' := s.(locks := s.locks[o := t]);
    LocksApart(s, s'.locks);
    LockedPcs(s, t, o);
    assert LocksOk(s');
    assert GuardsOk(s');
    InvJoins(s');
  }

  lemma UnlockedPcs(s: State, t: nat, o: nat)
    requires PcsOk(s) && t < |s.threads| && Quiet(s.threads[t].pc) && Owns(s, t, o)
    ensures PcsOk(s.(locks := s.locks - {o}))
  {
    hide HasBlock;
    var s' := s.(locks := s.locks - {o});
    forall u | 0 <= u < |s.threads|
      ensures PcOk(s', u)
    {
      assert PcOk(s, u);
    }
  }

  lemma UnlockKeeps(s: State, t: nat, o: nat)
    requires Inv(s) && t < |s.threads| && Quiet(s.threads[t].pc) && Owns(s, t, o)
    ensures Inv(s.(locks := s.locks - {o}))
  {
    InvParts(s);
    UnlockedPcs(s, t, o);
    hide Inv, Exclusion, QueueOk, LiveOk, HandlesOk, InStep, PcsOk;
    var s' := s.(locks := s.locks - {o});
    LocksApart(s, s'.locks);
    assert LocksOk(s');
    assert GuardsOk(s');
    InvJoins(s');
  }

  lemma SamePcs(s: State, s': State)
    requires s'.queue == s.queue && |s'.threads| == |s.threads|
    requires forall u :: 0 <= u < |s.threads| ==> s'.threads[u].pc == s.threads[u].pc
    ensures forall o :: Dying(s', o) <==> Dying(s, o)
    ensures forall o :: BeingSynced(s', o) <==> BeingSynced(s, o)
  {
    forall o
      ensures Dying(s', o) <==> Dying(s, o)
      ensures BeingSynced(s', o) <==> BeingSynced(s, o)
    {
      if u :| 0 <= u < |s.threads| && s.threads[u].pc.WritingBack? && s.threads[u].pc.victim == o {
        assert s'.threads[u].pc.WritingBack? && s'.threads[u].pc.victim == o;
      }
      if u :| 0 <= u < |s.threads| && s.threads[u].pc.FlushWriting? && s.threads[u].pc.next < |s.queue|
              && s.queue[s.threads[u].pc.next].obj == o {
        assert s'.threads[u].pc.FlushWriting? && s'.queue[s'.threads[u].pc.next].obj == o;
      }
    }
  }

  lemma GuardApart(s: State, t: nat, guards: multiset<nat>)
    requires t < |s.threads| && Exclusion(s) && QueueOk(s) && PcsOk(s) && LiveOk(s) && HandlesOk(s) && LocksOk(s) && InStep(s)
    ensures var s' := Guarding(s, t, s.threads[t].pc, guards);
            Exclusion(s') && QueueOk(s') && PcsOk(s') && LiveOk(s') && HandlesOk(s') && LocksOk(s') && InStep(s')
  {
    hide HasObject, HasBlock;
    var s' := Guarding(s, t, s.threads[t].pc, guards);
    SamePcs(s, s');
    hide Dying, BeingSynced;
    forall u | 0 <= u < |s.threads|
      ensures PcOk(s', u)
    {
      assert PcOk(s, u);
    }
  }

  /** A thread's read guards may change as long as it has handles of their blocks and nobody writes them. */
  lemma GuardKeeps(s: State, t: nat, guards: multiset<nat>)
    requires Inv(s) && t < |s.threads|
    requires forall o :: o in guards ==> o in s.threads[t].handles && o !in s.locks
    ensures Inv(Guarding(s, t, s.threads[t].pc, guards))
  {
    InvParts(s);
    GuardApart(s, t, guards);
    hide Inv, Exclusion, QueueOk, LiveOk, HandlesOk, InStep, PcsOk, LocksOk;
    var s' := Guarding(s, t, s.threads[t].pc, guards);
    assert GuardsOk(s');
    InvJoins(s');
  }

  lemma ModifiedApart(s: State, o: nat, c: Block)
    requires Exclusion(s) && QueueOk(s) && HandlesOk(s) && LocksOk(s) && GuardsOk(s) && o in s.objs
    ensures var s' := s.(objs := s.objs[o := s.objs[o].(content := c, modified := true)]);
            Exclusion(s') && QueueOk(s') && HandlesOk(s') && LocksOk(s') && GuardsOk(s')
  {
    hide HasObject, HasBlock, WriteFree, ReadFree;
  }

  lemma ModifiedInStep(s: State, o: nat, c: Block)
    requires LiveOk(s) && InStep(s) && o in s.objs
    ensures var s' := s.(objs := s.objs[o := s.objs[o].(content := c, modified := true)]); LiveOk(s') && InStep(s')
  {
    hide Dying, BeingSynced, HasObject;
    SamePcs(s, s.(objs := s.objs[o := s.objs[o].(content := c, modified := true)]));
  }

  lemma ModifiedPcs(s: State, t: nat, o: nat, c: Block)
    requires PcsOk(s) && t < |s.threads| && Quiet(s.threads[t].pc) && o in s.objs && Owns(s, t, o)
    ensures PcsOk(s.(objs := s.objs[o := s.objs[o].(content := c, modified := true)]))
  {
    hide HasBlock;
    var s' := s.(objs := s.objs[o := s.objs[o].(content := c, modified := true)]);
    forall u | 0 <= u < |s.threads|
      ensures PcOk(s', u)
    {
      assert PcOk(s, u);
    }
  }

  lemma ModifyKeeps(s: State, t: nat, o: nat, c: Block)
    requires Inv(s) && t < |s.threads| && Quiet(s.threads[t].pc) && o in s.objs && Owns(s, t, o)
    ensures Inv(s.(objs := s.objs[o := s.objs[o].(content := c, modified := true)]))
  {
    InvParts(s);
    ModifiedPcs(s, t, o, c);
    ModifiedApart(s, o, c);
    ModifiedInStep(s, o, c);
    hide *;
    InvJoins(s.(objs := s.objs[o := s.objs[o].(content := c, modified := true)]));
  }

  /** No other thread is inside the queue's lock while `t` is its writer. */
  lemma Alone(s: State, t: nat)
    requires Inv(s) && t < |s.threads| && Writing(s.threads[t].pc)
    ensures forall u :: 0 <= u < |s.threads| && u != t ==>
              var pc := s.threads[u].pc; pc.Idle? || pc.Asking? || pc.Missed? || pc.FlushAsking? || pc.Locking?
    ensures forall o :: !BeingSynced(s, o)
    ensures forall o :: Dying(s, o) ==> s.threads[t].pc.WritingBack? && s.threads[t].pc.victim == o
    ensures forall o :: o in s.locks ==> s.locks[o] < |s.threads| && o in s.threads[s.locks[o]].handles
  {
  }

  /** A step of the queue's only writer leaves the other threads where they are. */
  lemma WriterKeeps(s: State, s': State, t: nat)
    requires Inv(s) && Moved(s, s', t) && Writing(s.threads[t].pc) && !s'.threads[t].pc.FlushWriting?
    requires s'.locks == s.locks && s'.disk.Keys == s.disk.Keys && s.threads[t].handles <= s'.threads[t].handles
    requires s'.threads[t].guards == s.threads[t].guards
    requires PcOk(s', t) && QueueOk(s') && LiveOk(s') && HandlesOk(s') && InStep(s')
    ensures Inv(s')
  {
    hide Dying, BeingSynced, HasObject, HasBlock, WriteFree, ReadFree, InStep, LiveOk, QueueOk;
    Alone(s, t);
    Excludes(s, s', t);
    forall u | 0 <= u < |s.threads|
      ensures PcOk(s', u)
    {
      assert PcOk(s, u);
    }
    forall o | o in s'.locks
      ensures s'.locks[o] < |s'.threads| && o in s'.threads[s'.locks[o]].handles
    {
      assert o in s.locks;
    }
    assert LocksOk(s');
  }

  lemma WriteBackKeeps(s: State, t: nat, o: nat)
    requires Inv(s) && t < |s.threads| && s.threads[t].pc.WritingBack? && s.threads[t].pc.victim == o && o in s.objs
    ensures Inv(At(s.(disk := s.disk[s.objs[o].block := s.objs[o].content], objs := s.objs - {o}), t, Loading(s.threads[t].pc.block)))
  {
    var s' := At(s.(disk := s.disk[s.objs[o].block := s.objs[o].content], objs := s.objs - {o}), t, Loading(s.threads[t].pc.block));
    Alone(s, t);
    assert PcOk(s, t);
    assert Dying(s, o);
    forall p | p in s'.objs
      ensures HasObject(s.queue, p) && s'.objs[p].block != s.objs[o].block
    {
      assert HasObject(s.queue, p);
      DyingIsAlone(s, o, p);
    }
    forall i | 0 <= i < |s.queue|
      ensures s.queue[i].obj != o
    {
      assert HasObject(s.queue, s.queue[i].obj);
      assert HasBlock(s.queue, s.queue[i].block);
    }
    assert HandlesOk(s');
    WriterKeeps(s, s', t);
  }

  lemma QueueGrows(q: seq<Slot>, q': seq<Slot>, b: nat, o: nat)
    requires q' == q + [Slot(b, o)]
    ensures forall p :: HasObject(q', p) <==> p == o || HasObject(q, p)
    ensures forall c :: HasBlock(q', c) <==> c == b || HasBlock(q, c)
  {
    assert q'[|q|] == Slot(b, o);
    assert forall i :: 0 <= i < |q| ==> q'[i] == q[i];
  }

  lemma PushKeeps(s: State, t: nat, o: nat)
    requires Inv(s) && t < |s.threads| && s.threads[t].pc.Loaded? && o !in s.objs
    ensures var me := s.threads[t];
            Inv(Owning(s.(queue := s.queue + [Slot(me.pc.block, o)], objs := s.objs[o := Object(me.pc.block, me.pc.content, false)]),
                       t, Idle, me.handles + multiset{o}))
  {
    var me := s.threads[t];
    var s' := Owning(s.(queue := s.queue + [Slot(me.pc.block, o)], objs := s.objs[o := Object(me.pc.block, me.pc.content, false)]),
                     t, Idle, me.handles + multiset{o});
    Alone(s, t);
    assert PcOk(s, t);
    QueueGrows(s.queue, s'.queue, me.pc.block, o);
    assert QueueOk(s');
    assert LiveOk(s');
    assert HandlesOk(s');
    assert InStep(s');
    WriterKeeps(s, s', t);
  }

  /** swap_remove takes out slot `i` and no other. */
  lemma QueueShrinks(q: seq<Slot>, i: nat)
    requires i < |q| && forall j, k :: 0 <= j < k < |q| ==> q[j].block != q[k].block && q[j].obj != q[k].obj
    ensures forall p :: HasObject(Cache.SwapRemove(q, i), p) <==> p != q[i].obj && HasObject(q, p)
    ensures forall c :: HasBlock(Cache.SwapRemove(q, i), c) <==> c != q[i].block && HasBlock(q, c)
    ensures var r := Cache.SwapRemove(q, i); forall j, k :: 0 <= j < k < |r| ==> r[j].block != r[k].block
  {
    hide Cache.SwapRemove;
    var r := Cache.SwapRemove(q, i);
    forall k | 0 <= k < |q| && k != i
      ensures HasObject(r, q[k].obj) && HasBlock(r, q[k].block)
    {
      assert r[if k == |q| - 1 then i else k] == q[k];
    }
  }

  lemma Unshared(s: State)
    requires QueueOk(s)
    ensures forall j, k :: 0 <= j < k < |s.queue| ==> s.queue[j].block != s.queue[k].block && s.queue[j].obj != s.queue[k].obj
  {
  }

  lemma QueueOkLess(s: State, s': State, i: nat)
    requires QueueOk(s) && i < |s.queue| && s'.queue == Cache.SwapRemove(s.queue, i)
    requires forall o :: o in s.objs && o != s.queue[i].obj ==> o in s'.objs && s'.objs[o] == s.objs[o]
    ensures QueueOk(s') && |s'.queue| < Cache.CACHE_SIZE
  {
    hide Cache.SwapRemove;
    Unshared(s);
    QueueShrinks(s.queue, i);
    var r := s'.queue;
    forall k | 0 <= k < |r|
      ensures r[k].obj in s'.objs && s'.objs[r[k].obj].block == r[k].block
    {
      var j := if k == i then |s.queue| - 1 else k;
      assert r[k] == s.queue[j] && j != i;
    }
  }

  /** Evicting a clean block: nothing is written. */
  lemma EvictCleanKeeps(s: State, t: nat, i: nat)
    requires Inv(s) && t < |s.threads| && s.threads[t].pc.Rechecking? && !HasBlock(s.queue, s.threads[t].pc.block)
    requires i < |s.queue| && !Held(s, s.queue[i].obj) && s.queue[i].obj in s.objs
    ensures Inv(At(s.(queue := Cache.SwapRemove(s.queue, i), objs := s.objs - {s.queue[i].obj}), t, Loading(s.threads[t].pc.block)))
  {
    hide Cache.SwapRemove;
    var o := s.queue[i].obj;
    var s' := At(s.(queue := Cache.SwapRemove(s.queue, i), objs := s.objs - {o}), t, Loading(s.threads[t].pc.block));
    Alone(s, t);
    assert PcOk(s, t);
    Unshared(s);
    QueueShrinks(s.queue, i);
    QueueOkLess(s, s', i);
    hide QueueOk, HasObject, HasBlock, BeingSynced;
    assert LiveOk(s');
    assert HandlesOk(s');
    assert InStep(s');
    WriterKeeps(s, s', t);
  }

  /** The parts of the invariant about live blocks and handles, once object `o` has left the queue and is dying. */
  lemma EvictedRest(s: State, s': State, t: nat, o: nat)
    requires LiveOk(s) && HandlesOk(s) && InStep(s) && t < |s.threads| && o in s.objs && !Held(s, o)
    requires forall p :: HasObject(s'.queue, p) <==> p != o && HasObject(s.queue, p)
    requires forall p :: !Dying(s, p) && !BeingSynced(s, p)
    requires s'.objs == s.objs[o := s.objs[o].(modified := false)] && s'.disk == s.disk && Dying(s', o)
    requires |s'.threads| == |s.threads| && forall u :: 0 <= u < |s.threads| ==> s'.threads[u].handles == s.threads[u].handles
    ensures LiveOk(s') && HandlesOk(s') && InStep(s')
  {
    hide HasObject, Dying, BeingSynced;
    forall u, p | 0 <= u < |s'.threads| && p in s'.threads[u].handles
      ensures HasObject(s'.queue, p)
    {
      assert p in s.threads[u].handles;
    }
  }

  /** Evicting a modified block: its drop has yet to write it. */
  lemma EvictModifiedKeeps(s: State, t: nat, i: nat)
    requires Inv(s) && t < |s.threads| && s.threads[t].pc.Rechecking? && !HasBlock(s.queue, s.threads[t].pc.block)
    requires i < |s.queue| && !Held(s, s.queue[i].obj) && s.queue[i].obj in s.objs
    ensures var o := s.queue[i].obj;
            Inv(At(s.(queue := Cache.SwapRemove(s.queue, i), objs := s.objs[o := s.objs[o].(modified := false)]),
                   t, WritingBack(s.threads[t].pc.block, o)))
  {
    hide Cache.SwapRemove;
    var o := s.queue[i].obj;
    var s' := At(s.(queue := Cache.SwapRemove(s.queue, i), objs := s.objs[o := s.objs[o].(modified := false)]),
                 t, WritingBack(s.threads[t].pc.block, o));
    Alone(s, t);
    assert PcOk(s, t);
    Unshared(s);
    QueueShrinks(s.queue, i);
    QueueOkLess(s, s', i);
    assert s.queue[i].block == s.objs[o].block && HasBlock(s.queue, s.queue[i].block);
    assert s'.threads[t].pc == WritingBack(s.threads[t].pc.block, o);
    assert Dying(s', o);
    hide QueueOk, HasObject, HasBlock, BeingSynced, LocksOk, GuardsOk, Exclusion;
    EvictedRest(s, s', t, o);
    WriterKeeps(s, s', t);
  }

  lemma SyncBeginLocks(s: State, s': State, t: nat, o: nat)
    requires Inv(s) && t < |s.threads| && s.threads[t].pc.Flushing? && s.threads[t].pc.next < |s.queue|
    requires s.queue[s.threads[t].pc.next].obj == o && o !in s.locks && Unread(s, o) && o in s.objs
    requires s' == At(s.(objs := s.objs[o := s.objs[o].(modified := false)], locks := s.locks[o := t]), t, FlushWriting(s.threads[t].pc.next))
    ensures LocksOk(s')
  {
    hide Dying, BeingSynced, HasObject, HasBlock, PcsOk, PcOk, Exclusion, InStep, LiveOk, HandlesOk, QueueOk;
    forall p | p in s.locks
      ensures s.locks[p] < |s.threads| && s'.locks[p] == s.locks[p] && (s.locks[p] == t ==> p in s.threads[t].handles)
    {
    }
  }

  lemma NowSyncing(s: State, t: nat, o: nat)
    requires t < |s.threads| && s.threads[t].pc.FlushWriting? && s.threads[t].pc.next < |s.queue|
    requires s.queue[s.threads[t].pc.next].obj == o
    ensures BeingSynced(s, o)
  {
  }

  /** Writes under way stay under way when thread `t`, which wrote nothing, moves. */
  lemma WritesSpread(s: State, s': State, t: nat)
    requires Moved(s, s', t) && s'.queue == s.queue && Quiet(s.threads[t].pc)
    ensures forall o :: Dying(s, o) ==> Dying(s', o)
    ensures forall o :: BeingSynced(s, o) ==> BeingSynced(s', o)
  {
    forall o | Dying(s, o)
      ensures Dying(s', o)
    {
      var u :| 0 <= u < |s.threads| && s.threads[u].pc.WritingBack? && s.threads[u].pc.victim == o;
      assert s'.threads[u].pc.WritingBack?;
    }
    forall o | BeingSynced(s, o)
      ensures BeingSynced(s', o)
    {
      var u :| 0 <= u < |s.threads| && s.threads[u].pc.FlushWriting? && s.threads[u].pc.next < |s.queue|
               && s.queue[s.threads[u].pc.next].obj == o;
      assert s'.threads[u].pc.FlushWriting?;
    }
  }

  lemma SyncBeginInStep(s: State, s': State, t: nat, o: nat)
    requires Inv(s) && t < |s.threads| && s.threads[t].pc.Flushing? && s.threads[t].pc.next < |s.queue|
    requires s.queue[s.threads[t].pc.next].obj == o && o !in s.locks && Unread(s, o) && o in s.objs
    requires s' == At(s.(objs := s.objs[o := s.objs[o].(modified := false)], locks := s.locks[o := t]), t, FlushWriting(s.threads[t].pc.next))
    ensures InStep(s')
  {
    hide Dying, BeingSynced, HasObject, HasBlock, PcsOk, PcOk, Exclusion, LocksOk, LiveOk, HandlesOk, QueueOk;
    WritesSpread(s, s', t);
    NowSyncing(s', t, o);
  }

  lemma SyncBeginPcs(s: State, s': State, t: nat, o: nat)
    requires Inv(s) && t < |s.threads| && s.threads[t].pc.Flushing? && s.threads[t].pc.next < |s.queue|
    requires s.queue[s.threads[t].pc.next].obj == o && o !in s.locks && Unread(s, o) && o in s.objs
    requires s' == At(s.(objs := s.objs[o := s.objs[o].(modified := false)], locks := s.locks[o := t]), t, FlushWriting(s.threads[t].pc.next))
    ensures PcsOk(s')
  {
    hide Dying, BeingSynced, HasObject, HasBlock, LocksOk, LiveOk, HandlesOk, InStep, QueueOk;
    forall u | 0 <= u < |s.threads|
      ensures PcOk(s', u)
    {
      assert PcOk(s, u);
    }
  }

  lemma SyncBeginKeeps(s: State, t: nat, o: nat)
    requires Inv(s) && t < |s.threads| && s.threads[t].pc.Flushing? && s.threads[t].pc.next < |s.queue|
    requires s.queue[s.threads[t].pc.next].obj == o && o !in s.locks && Unread(s, o) && o in s.objs
    ensures Inv(At(s.(objs := s.objs[o := s.objs[o].(modified := false)], locks := s.locks[o := t]), t, FlushWriting(s.threads[t].pc.next)))
  {
    hide Dying, BeingSynced, HasObject, HasBlock, WriteFree, ReadFree, PcsOk, PcOk, Exclusion, LocksOk, InStep;
    var s' := At(s.(objs := s.objs[o := s.objs[o].(modified := false)], locks := s.locks[o := t]), t, FlushWriting(s.threads[t].pc.next));
    Excludes(s, s', t);
    WritesSpread(s, s', t);
    SyncBeginPcs(s, s', t, o);
    SyncBeginLocks(s, s', t, o);
    SyncBeginInStep(s, s', t, o);
    assert QueueOk(s');
    assert LiveOk(s');
    assert HandlesOk(s');
  }

  lemma SyncEndPcs(s: State, s': State, t: nat, o: nat)
    requires Inv(s) && t < |s.threads| && s.threads[t].pc.FlushWriting? && s.threads[t].pc.next < |s.queue|
    requires s.queue[s.threads[t].pc.next].obj == o && o in s.objs && s.objs[o].block in s.disk
    requires s' == At(s.(disk := s.disk[s.objs[o].block := s.objs[o].content], locks := s.locks - {o}), t, Flushing(s.threads[t].pc.next + 1))
    ensures PcsOk(s')
  {
    hide Dying, BeingSynced, HasObject, HasBlock, LocksOk, LiveOk, HandlesOk, InStep, QueueOk;
    assert PcOk(s, t);
    forall u | 0 <= u < |s.threads|
      ensures PcOk(s', u)
    {
      assert PcOk(s, u);
      assert !Writing(s.threads[u].pc);
    }
  }

  /** Once thread `t` has written object `o`, only the writes of the others are under way. */
  lemma WritesEnd(s: State, s': State, t: nat, o: nat)
    requires Moved(s, s', t) && s'.queue == s.queue && s.threads[t].pc.FlushWriting? && s.threads[t].pc.next < |s.queue|
    requires s.queue[s.threads[t].pc.next].obj == o
    ensures forall p :: Dying(s, p) ==> Dying(s', p)
    ensures forall p :: BeingSynced(s, p) && p != o ==> BeingSynced(s', p)
  {
    forall p | Dying(s, p)
      ensures Dying(s', p)
    {
      var u :| 0 <= u < |s.threads| && s.threads[u].pc.WritingBack? && s.threads[u].pc.victim == p;
      assert s'.threads[u].pc.WritingBack?;
    }
    forall p | BeingSynced(s, p) && p != o
      ensures BeingSynced(s', p)
    {
      var u :| 0 <= u < |s.threads| && s.threads[u].pc.FlushWriting? && s.threads[u].pc.next < |s.queue|
               && s.queue[s.threads[u].pc.next].obj == p;
      assert s'.threads[u].pc.FlushWriting?;
    }
  }

  lemma SyncEndLocks(s: State, s': State, t: nat, o: nat)
    requires LocksOk(s) && GuardsOk(s) && t < |s.threads| && s.threads[t].pc.FlushWriting? && s.threads[t].pc.next < |s.queue|
    requires s.queue[s.threads[t].pc.next].obj == o && o in s.objs
    requires s' == At(s.(disk := s.disk[s.objs[o].block := s.objs[o].content], locks := s.locks - {o}), t, Flushing(s.threads[t].pc.next + 1))
    ensures LocksOk(s') && GuardsOk(s')
  {
  }

  lemma SyncEndInStep(s: State, s': State, t: nat, o: nat)
    requires Inv(s) && t < |s.threads| && s.threads[t].pc.FlushWriting? && s.threads[t].pc.next < |s.queue|
    requires s.queue[s.threads[t].pc.next].obj == o && o in s.objs
    requires s' == At(s.(disk := s.disk[s.objs[o].block := s.objs[o].content], locks := s.locks - {o}), t, Flushing(s.threads[t].pc.next + 1))
    requires forall p :: Dying(s, p) ==> Dying(s', p)
    requires forall p :: BeingSynced(s, p) && p != o ==> BeingSynced(s', p)
    ensures InStep(s')
  {
    InvParts(s);
    OneLiveCopy(s);
    hide Inv, Dying, BeingSynced, HasObject, HasBlock, PcsOk, Exclusion, LocksOk, GuardsOk, QueueOk, LiveOk, HandlesOk;
  }

  lemma SyncEndKeeps(s: State, t: nat, o: nat)
    requires Inv(s) && t < |s.threads| && s.threads[t].pc.FlushWriting? && s.threads[t].pc.next < |s.queue|
    requires s.queue[s.threads[t].pc.next].obj == o && o in s.objs
    ensures Inv(At(s.(disk := s.disk[s.objs[o].block := s.objs[o].content], locks := s.locks - {o}), t, Flushing(s.threads[t].pc.next + 1)))
  {
    InvParts(s);
    assert s.objs[o].block in s.disk;
    hide Inv, Dying, BeingSynced, HasObject, HasBlock, WriteFree, ReadFree, PcsOk, PcOk, Exclusion, InStep, LocksOk, GuardsOk;
    var s' := At(s.(disk := s.disk[s.objs[o].block := s.objs[o].content], locks := s.locks - {o}), t, Flushing(s.threads[t].pc.next + 1));
    Excludes(s, s', t);
    WritesEnd(s, s', t, o);
    SyncEndPcs(s, s', t, o);
    SyncEndLocks(s, s', t, o);
    SyncEndInStep(s, s', t, o);
    assert QueueOk(s');
    assert LiveOk(s');
    assert HandlesOk(s');
    InvJoins(s');
  }

  lemma PcOf(s: State, t: nat)
    requires Inv(s) && t < |s.threads|
    ensures PcOk(s, t)
  {
  }

  /** The steps of `get` and `flush` that neither move a block nor write one. */
  predicate Moving(a: Action) {
    || a.GetBegin? || a.Miss? || a.GetAgain? || a.Room? || a.RunOut? || a.ReadDevice? || a.FlushBegin? || a.FlushEnd?
  }

  /** The steps with which a thread asks for something. */
  predicate Calling(a: Action) {
    a.GetCall? || a.FlushCall? || a.Want? || a.WantRead?
  }

  lemma CallingKeeps(s: State, t: nat, a: Action)
    requires Inv(s) && Enabled(s, t, a) && Calling(a)
    ensures Inv(After(s, t, a))
  {
    hide Inv, HasBlock, ReadFree, WriteFree, Held, FoundAt, Victim, Unread, Owns;
    GoKeeps(s, t, After(s, t, a).threads[t].pc);
  }

  lemma QueueBound(s: State)
    requires Inv(s)
    ensures |s.queue| <= Cache.CACHE_SIZE
  {
  }

  lemma MovingKeeps(s: State, t: nat, a: Action)
    requires Inv(s) && Enabled(s, t, a) && Moving(a)
    ensures Inv(After(s, t, a))
  {
    hide Inv, HasBlock, ReadFree, WriteFree, Held, FoundAt, Victim, Unread, Owns;
    QueueBound(s);
    PcOf(s, t);
    GoKeeps(s, t, After(s, t, a).threads[t].pc);
  }

  predicate Handling(a: Action) {
    a.Hit? || a.HitAgain? || a.Clone? || a.DropHandle?
  }

  lemma IdleOk(s: State, t: nat, handles: multiset<nat>)
    requires t < |s.threads|
    ensures Quiet(Idle) && MayGo(s, t, Idle) && t < |Owning(s, t, Idle, handles).threads| && PcOk(Owning(s, t, Idle, handles), t)
  {
    hide ReadFree, WriteFree;
  }

  lemma HandlingParts(s: State, t: nat, a: Action)
    requires Enabled(s, t, a) && Handling(a)
    ensures t < |s.threads| && t < |After(s, t, a).threads| && Quiet(s.threads[t].pc)
    ensures var handles := After(s, t, a).threads[t].handles;
            && After(s, t, a) == Owning(s, t, Idle, handles)
            && (forall o :: o in handles ==> o in s.threads[t].handles || HasObject(s.queue, o))
            && (forall o :: o in s.threads[t].handles && (o in s.threads[t].guards || (o in s.locks && s.locks[o] == t)) ==> o in handles)
  {
    hide HasBlock, ReadFree, WriteFree, Held, Victim, Unread, Cache.SwapRemove;
    if a.Hit? || a.HitAgain? {
      assert HasObject(s.queue, s.queue[a.i].obj);
    }
  }

  lemma HandlesQueued(s: State, t: nat)
    requires Inv(s) && t < |s.threads|
    ensures forall o :: o in s.threads[t].handles ==> HasObject(s.queue, o)
  {
  }

  lemma HandlingKeeps(s: State, t: nat, a: Action)
    requires Inv(s) && Enabled(s, t, a) && Handling(a)
    ensures Inv(After(s, t, a))
  {
    hide *;
    HandlingParts(s, t, a);
    OwnLocks(s, t);
    HandlesQueued(s, t);
    IdleOk(s, t, After(s, t, a).threads[t].handles);
    MoveKeeps(s, t, Idle, After(s, t, a).threads[t].handles);
  }

  lemma SyncKeeps(s: State, t: nat, a: Action)
    requires Inv(s) && Enabled(s, t, a) && (a.SyncBegin? || a.SyncEnd?)
    ensures Inv(After(s, t, a))
  {
    hide Inv, HasBlock, ReadFree, WriteFree, Held, FoundAt, Victim;
    var o := s.queue[s.threads[t].pc.next].obj;
    if a.SyncEnd? {
      SyncEndKeeps(s, t, o);
    } else if s.objs[o].modified {
      SyncBeginKeeps(s, t, o);
    } else {
      GoKeeps(s, t, Flushing(s.threads[t].pc.next + 1));
    }
  }

  lemma EvictKeeps(s: State, t: nat, a: Action)
    requires Inv(s) && Enabled(s, t, a) && a.Evict?
    ensures Inv(After(s, t, a))
  {
    hide Inv, HasBlock, ReadFree, WriteFree, Held, FoundAt, Cache.SwapRemove;
    if s.objs[s.queue[a.i].obj].modified {
      EvictModifiedKeeps(s, t, a.i);
    } else {
      EvictCleanKeeps(s, t, a.i);
    }
  }

  lemma RestKeeps(s: State, t: nat)
    requires Inv(s) && t < |s.threads| && Quiet(s.threads[t].pc)
    ensures Inv(At(s, t, Idle))
  {
    GoKeeps(s, t, Idle);
  }

  lemma GuardingPc(s: State, t: nat, guards: multiset<nat>)
    requires t < |s.threads|
    ensures t < |Guarding(s, t, s.threads[t].pc, guards).threads|
    ensures Guarding(s, t, s.threads[t].pc, guards).threads[t].pc == s.threads[t].pc
    ensures At(Guarding(s, t, s.threads[t].pc, guards), t, Idle) == Guarding(s, t, Idle, guards)
  {
  }

  lemma HandleOfLocking(s: State, t: nat)
    requires Inv(s) && t < |s.threads| && s.threads[t].pc.Locking?
    ensures s.threads[t].pc.obj in s.threads[t].handles
  {
    PcOf(s, t);
  }

  /** The read guards of thread `t` after it has gained or dropped one. */
  function NewGuards(s: State, t: nat, a: Action): multiset<nat>
    requires t < |s.threads| && (a.ReadLock? ==> s.threads[t].pc.Locking?) && (a.ReadLock? || a.ReadUnlock?)
  {
    if a.ReadLock? then s.threads[t].guards + multiset{s.threads[t].pc.obj} else s.threads[t].guards - multiset{a.obj}
  }

  lemma LockingParts(s: State, t: nat, a: Action)
    requires Enabled(s, t, a) && (a.Lock? || a.ReadLock? || a.ReadUnlock?)
    ensures t < |s.threads| && Quiet(s.threads[t].pc) && (a.Lock? || a.ReadLock? ==> s.threads[t].pc.Locking? && s.threads[t].pc.obj !in s.locks)
    ensures a.Lock? ==>
              Unread(s, s.threads[t].pc.obj) && After(s, t, a) == At(s.(locks := s.locks[s.threads[t].pc.obj := t]), t, Idle)
    ensures !a.Lock? ==>
              var guards := NewGuards(s, t, a);
              && (forall o :: o in guards ==> o in s.threads[t].guards || (a.ReadLock? && o == s.threads[t].pc.obj))
              && After(s, t, a) == Guarding(s, t, Idle, guards)
  {
    hide Unread, HasBlock, HasObject, ReadFree, WriteFree, Held, FoundAt, Victim, Cache.SwapRemove, Owns;
  }

  lemma GuardsFree(s: State, t: nat)
    requires Inv(s) && t < |s.threads|
    ensures forall o :: o in s.threads[t].guards ==> o !in s.locks
  {
  }

  lemma LockingKeeps(s: State, t: nat, a: Action)
    requires Inv(s) && Enabled(s, t, a) && (a.Lock? || a.ReadLock? || a.ReadUnlock?)
    ensures Inv(After(s, t, a))
  {
    hide *;
    LockingParts(s, t, a);
    OwnLocks(s, t);
    GuardsFree(s, t);
    if s.threads[t].pc.Locking? { HandleOfLocking(s, t); }
    if a.Lock? {
      LockKeeps(s, t, s.threads[t].pc.obj);
      RestKeeps(s.(locks := s.locks[s.threads[t].pc.obj := t]), t);
    } else {
      var guards := NewGuards(s, t, a);
      GuardKeeps(s, t, guards);
      GuardingPc(s, t, guards);
      RestKeeps(Guarding(s, t, s.threads[t].pc, guards), t);
    }
  }

  lemma OtherKeeps(s: State, t: nat, a: Action)
    requires Inv(s) && Enabled(s, t, a) && (a.WriteBack? || a.Push? || a.Unlock? || a.Modify? || a.Read?)
    ensures Inv(After(s, t, a))
  {
    hide Inv, HasBlock, ReadFree, WriteFree, Held, FoundAt, Victim;
    match a
    case WriteBack => WriteBackKeeps(s, t, s.threads[t].pc.victim);
    case Push(o) => PushKeeps(s, t, o);
    case Unlock(o) => UnlockKeeps(s, t, o);
    case Modify(o, c) => ModifyKeeps(s, t, o, c);
    case Read(_, _) =>
  }

  /** Every step of every thread keeps the invariant. */
  lemma StepKeeps(s: State, t: nat, a: Action)
    requires Inv(s) && Enabled(s, t, a)
    ensures Inv(After(s, t, a))
  {
    hide Inv, Enabled, After;
    if Moving(a) {
      MovingKeeps(s, t, a);
    } else if Calling(a) {
      CallingKeeps(s, t, a);
    } else if Handling(a) {
      HandlingKeeps(s, t, a);
    } else if a.SyncBegin? || a.SyncEnd? {
      SyncKeeps(s, t, a);
    } else if a.Evict? {
      EvictKeeps(s, t, a);
    } else if a.Lock? || a.ReadLock? || a.ReadUnlock? {
      LockingKeeps(s, t, a);
    } else {
      OtherKeeps(s, t, a);
    }
  }

  // ---------------------------------------------------------------------------
  // Every step but `Modify` leaves the view alone
  // ---------------------------------------------------------------------------

  /** The same blocks are live with the same contents, over the same device. */
  ghost predicate SameBlocks(s: State, s': State) {
    && s'.disk == s.disk && s'.objs.Keys == s.objs.Keys
    && forall o :: o in s.objs ==> s'.objs[o].block == s.objs[o].block && s'.objs[o].content == s.objs[o].content
  }

  lemma SameView(s: State, s': State, view: Store)
    requires SameBlocks(s, s') && Shows(s, view)
    ensures Shows(s', view)
  {
  }

  /** Dropping a block that the device agrees with. */
  lemma DropShows(s: State, o: nat, view: Store)
    requires Shows(s, view) && o in s.objs && s.objs[o].block in s.disk && s.disk[s.objs[o].block] == s.objs[o].content
    ensures Shows(s.(objs := s.objs - {o}), view)
  {
    var s' := s.(objs := s.objs - {o});
    forall b | b in view && !Live(s', b)
      ensures view[b] == s.disk[b]
    {
      if p :| p in s.objs && s.objs[p].block == b {
        assert p in s'.objs || p == o;
      }
    }
  }

  /** Writing a live block to the device. */
  lemma WriteShows(s: State, o: nat, view: Store)
    requires Shows(s, view) && o in s.objs && s.objs[o].block in s.disk
    ensures Shows(s.(disk := s.disk[s.objs[o].block := s.objs[o].content]), view)
  {
  }

  /** Loading a block that is not live. */
  lemma LoadShows(s: State, o: nat, b: nat, view: Store)
    requires Shows(s, view) && o !in s.objs && b in s.disk && forall p :: p in s.objs ==> s.objs[p].block != b
    ensures Shows(s.(objs := s.objs[o := Object(b, s.disk[b], false)]), view)
  {
    var s' := s.(objs := s.objs[o := Object(b, s.disk[b], false)]);
    assert view[b] == s.disk[b];
    forall c | Live(s, c)
      ensures Live(s', c)
    {
      var p :| p in s.objs && s.objs[p].block == c;
      assert s'.objs[p].block == c;
    }
  }

  lemma ModifyShows(s: State, o: nat, c: Block, view: Store)
    requires Shows(s, view) && OneCopy(s) && o in s.objs
    ensures Shows(s.(objs := s.objs[o := s.objs[o].(content := c, modified := true)]), view[s.objs[o].block := c])
  {
    var s' := s.(objs := s.objs[o := s.objs[o].(content := c, modified := true)]);
    forall b | Live(s, b)
      ensures Live(s', b)
    {
      var p :| p in s.objs && s.objs[p].block == b;
      assert s'.objs[p].block == b;
    }
    assert Live(s', s.objs[o].block);
  }

  lemma EvictShows(s: State, t: nat, a: Action, view: Store)
    requires Inv(s) && Enabled(s, t, a) && a.Evict? && Shows(s, view)
    ensures Shows(After(s, t, a), view)
  {
    Alone(s, t);
    var o := s.queue[a.i].obj;
    if s.objs[o].modified {
      hide Shows;
      SameView(s, After(s, t, a), view);
    } else {
      DropShows(s, o, view);
    }
  }

  lemma WriteBackShows(s: State, t: nat, view: Store)
    requires Inv(s) && Enabled(s, t, WriteBack) && Shows(s, view)
    ensures Shows(After(s, t, WriteBack), view)
  {
    var o := s.threads[t].pc.victim;
    var w := s.(disk := s.disk[s.objs[o].block := s.objs[o].content]);
    WriteShows(s, o, view);
    DropShows(w, o, view);
    SameView(w.(objs := w.objs - {o}), After(s, t, WriteBack), view);
  }

  lemma PushShows(s: State, t: nat, a: Action, view: Store)
    requires Inv(s) && Enabled(s, t, a) && a.Push? && Shows(s, view)
    ensures Shows(After(s, t, a), view)
  {
    Alone(s, t);
    PcOf(s, t);
    var b := s.threads[t].pc.block;
    forall p | p in s.objs
      ensures s.objs[p].block != b
    {
      assert HasObject(s.queue, p);
      var i :| 0 <= i < |s.queue| && s.queue[i].obj == p;
      assert HasBlock(s.queue, s.queue[i].block);
    }
    LoadShows(s, a.obj, b, view);
    SameView(s.(objs := s.objs[a.obj := Object(b, s.disk[b], false)]), After(s, t, a), view);
  }

  lemma SyncEndShows(s: State, t: nat, view: Store)
    requires Inv(s) && Enabled(s, t, SyncEnd) && Shows(s, view)
    ensures Shows(After(s, t, SyncEnd), view)
  {
    var o := s.queue[s.threads[t].pc.next].obj;
    WriteShows(s, o, view);
    SameView(s.(disk := s.disk[s.objs[o].block := s.objs[o].content]), After(s, t, SyncEnd), view);
  }

  lemma OtherShows(s: State, t: nat, a: Action, view: Store)
    requires Enabled(s, t, a) && Shows(s, view)
    requires !a.Modify? && !a.Evict? && !a.WriteBack? && !a.Push? && !a.SyncEnd?
    ensures Shows(After(s, t, a), view)
  {
    hide Shows, HasBlock, ReadFree, WriteFree, Held, FoundAt, Victim;
    SameView(s, After(s, t, a), view);
  }

  /** One step of the protocol is one step of a plain disk, or none. */
  lemma StepShows(s: State, t: nat, a: Action, view: Store)
    requires Inv(s) && Enabled(s, t, a) && Shows(s, view)
    ensures a.Modify? ==> a.obj in s.objs && s.objs[a.obj].block in view
    ensures Shows(After(s, t, a), Effect(s, a, view))
  {
    assert a.Modify? ==> s.objs[a.obj].block in view;
    hide Inv, Shows, HasBlock, ReadFree, WriteFree, Held, FoundAt, Victim, Cache.SwapRemove;
    if a.Modify? {
      OneLiveCopy(s);
      ModifyShows(s, a.obj, a.content, view);
    } else if a.Evict? {
      EvictShows(s, t, a, view);
    } else if a.WriteBack? {
      WriteBackShows(s, t, view);
    } else if a.Push? {
      PushShows(s, t, a, view);
    } else if a.SyncEnd? {
      SyncEndShows(s, t, view);
    } else {
      OtherShows(s, t, a, view);
    }
  }

  /** There is one such view. */
  lemma ViewIsUnique(s: State, v: Store, w: Store)
    requires Shows(s, v) && Shows(s, w)
    ensures v == w
  {
    forall b | b in v
      ensures v[b] == w[b]
    {
      if o :| o in s.objs && s.objs[o].block == b {
        assert v[b] == s.objs[o].content;
      }
    }
  }

  // ---------------------------------------------------------------------------
  // Whole runs
  // ---------------------------------------------------------------------------

  datatype Event = Event(thread: nat, action: Action)

  /** `CacheManager::new` over a device, and threads that have not begun. */
  ghost predicate Initial(s: State) {
    && s.queue == [] && s.objs == map[] && s.locks == map[]
    && forall t :: 0 <= t < |s.threads| ==> s.threads[t] == Thread(Idle, multiset{}, multiset{})
  }

  ghost predicate Follows(s: State, e: Event, s': State) {
    Enabled(s, e.thread, e.action) && s' == After(s, e.thread, e.action)
  }

  /** The threads' steps `events`, interleaved in any order, lead through `states`. */
  ghost predicate Run(states: seq<State>, events: seq<Event>) {
    && |states| == |events| + 1
    && Initial(states[0])
    && forall i :: 0 <= i < |events| ==> Follows(states[i], events[i], states[i + 1])
  }

  /** A plain disk to which the first `n` events' modifications are applied in order. */
  ghost function PlainDisk(states: seq<State>, events: seq<Event>, n: nat): (disk: Store)
    requires Run(states, events) && n <= |events|
    ensures disk.Keys == states[0].disk.Keys
  {
    if n == 0 then states[0].disk else
      var s, a, before := states[n - 1], events[n - 1].action, PlainDisk(states, events, n - 1);
      if a.Modify? && a.obj in s.objs && s.objs[a.obj].block in before then before[s.objs[a.obj].block := a.content] else before
  }

  lemma InitialOk(s: State)
    requires Initial(s)
    ensures Inv(s) && Shows(s, s.disk)
  {
  }

  /** Under every interleaving, the invariant holds and the cache over the device is the plain disk. */
  lemma {:induction false} RunRefines(states: seq<State>, events: seq<Event>, n: nat)
    requires Run(states, events) && n <= |events|
    ensures Inv(states[n]) && Shows(states[n], PlainDisk(states, events, n))
  {
    hide Inv, Shows, Enabled, After;
    if n == 0 {
      InitialOk(states[0]);
    } else {
      RunRefines(states, events, n - 1);
      var e, s := events[n - 1], states[n - 1];
      assert Follows(s, e, states[n]);
      StepKeeps(s, e.thread, e.action);
      StepShows(s, e.thread, e.action, PlainDisk(states, events, n - 1));
    }
  }

  /** A read through a handle sees the last modification of its block, by whatever thread. */
  lemma ReadsSeeLastModify(states: seq<State>, events: seq<Event>, n: nat)
    requires Run(states, events) && n < |events| && events[n].action.Read?
    ensures var o, c, disk := events[n].action.obj, events[n].action.content, PlainDisk(states, events, n);
            o in states[n].objs && states[n].objs[o].block in disk && disk[states[n].objs[o].block] == c
  {
    RunRefines(states, events, n);
    assert Follows(states[n], events[n], states[n + 1]);
  }

  // ---------------------------------------------------------------------------
  // Flush
  // ---------------------------------------------------------------------------

  predicate InFlush(pc: Pc) {
    pc.Flushing? || pc.FlushWriting?
  }

  /** Live block `o` is on the device and nobody is about to write it. */
  ghost predicate Clean(s: State, o: nat) {
    && o in s.objs && !s.objs[o].modified && !BeingSynced(s, o)
    && s.objs[o].block in s.disk && s.disk[s.objs[o].block] == s.objs[o].content
  }

  /** Thread `t` is in `flush`, and if it has passed block `b` then that block is clean. */
  ghost predicate Passed(s: State, t: nat, b: nat) {
    && t < |s.threads| && InFlush(s.threads[t].pc)
    && forall j :: 0 <= j < s.threads[t].pc.next && j < |s.queue| && s.queue[j].block == b ==> Clean(s, s.queue[j].obj)
  }

  /** Event `e` is not a modification of block `b`. */
  ghost predicate Spares(s: State, e: Event, b: nat) {
    e.action.Modify? && e.action.obj in s.objs ==> s.objs[e.action.obj].block != b
  }

  /** While a thread is in `flush`, no thread changes the queue. */
  lemma QueueStays(s: State, t: nat, u: nat, a: Action)
    requires Inv(s) && t < |s.threads| && InFlush(s.threads[t].pc) && Enabled(s, u, a)
    ensures After(s, u, a).queue == s.queue && !Writing(s.threads[u].pc)
    ensures !a.Evict? && !a.WriteBack? && !a.Push? && !a.GetAgain?
  {
    hide HasBlock, HasObject, Held, FoundAt, Victim, QueueOk, PcsOk, LiveOk, HandlesOk, LocksOk, InStep;
  }

  lemma SyncedBefore(s: State, u: nat, a: Action, o: nat)
    requires Enabled(s, u, a) && After(s, u, a).queue == s.queue && !a.SyncBegin? && !a.SyncEnd?
    requires !a.WriteBack? && !a.Push? && !a.Evict?
    ensures BeingSynced(After(s, u, a), o) ==> BeingSynced(s, o)
  {
    hide HasBlock, HasObject, Held, FoundAt, Victim, ReadFree, WriteFree;
    var s' := After(s, u, a);
    if BeingSynced(s', o) {
      var v :| 0 <= v < |s'.threads| && s'.threads[v].pc.FlushWriting? && s'.threads[v].pc.next < |s.queue|
               && s.queue[s'.threads[v].pc.next].obj == o;
      assert s.threads[v].pc == s'.threads[v].pc;
    }
  }

  lemma SyncSpares(s: State, u: nat, a: Action, o: nat)
    requires Inv(s) && OneCopy(s) && Enabled(s, u, a) && (a.SyncBegin? || a.SyncEnd?) && Clean(s, o)
    ensures Clean(After(s, u, a), o)
  {
    hide Inv, HasBlock, HasObject, Held, FoundAt, Victim, ReadFree, WriteFree;
    var s' := After(s, u, a);
    var p := s.queue[s.threads[u].pc.next].obj;
    if a.SyncEnd? {
      NowSyncing(s, u, p);
      assert p != o;
    }
    assert forall v :: 0 <= v < |s.threads| && v != u ==> s'.threads[v] == s.threads[v];
  }

  /** A clean block stays clean while a thread is in `flush` and nobody modifies it. */
  lemma CleanStays(s: State, t: nat, u: nat, a: Action, o: nat)
    requires Inv(s) && t < |s.threads| && InFlush(s.threads[t].pc) && Enabled(s, u, a)
    requires Clean(s, o) && (a.Modify? ==> a.obj != o)
    ensures Clean(After(s, u, a), o)
  {
    QueueStays(s, t, u, a);
    OneLiveCopy(s);
    if a.SyncBegin? || a.SyncEnd? {
      SyncSpares(s, u, a, o);
    } else {
      SyncedBefore(s, u, a, o);
      hide Inv, OneCopy, BeingSynced, HasBlock, HasObject, Held, FoundAt, Victim, ReadFree, WriteFree;
    }
  }

  /** A block that `flush` finds unmodified, with its lock free, is on the device. */
  lemma UnmodifiedIsClean(s: State, t: nat, o: nat)
    requires Inv(s) && t < |s.threads| && Reading(s.threads[t].pc) && o in s.objs && o !in s.locks && !s.objs[o].modified
    ensures Clean(s, o)
  {
    forall u | 0 <= u < |s.threads|
      ensures !s.threads[u].pc.WritingBack?
      ensures s.threads[u].pc.FlushWriting? ==> s.threads[u].pc.next < |s.queue| && s.queue[s.threads[u].pc.next].obj in s.locks
    {
      assert PcOk(s, u);
      assert !Writing(s.threads[u].pc);
    }
    assert !Dying(s, o) && !BeingSynced(s, o);
  }

  lemma SyncEndCleans(s: State, t: nat)
    requires Inv(s) && Enabled(s, t, SyncEnd)
    ensures Clean(After(s, t, SyncEnd), s.queue[s.threads[t].pc.next].obj)
  {
    var s' := After(s, t, SyncEnd);
    var o := s.queue[s.threads[t].pc.next].obj;
    assert PcOk(s, t);
    forall u | 0 <= u < |s.threads| && s'.threads[u].pc.FlushWriting? && s'.threads[u].pc.next < |s.queue|
      ensures s.queue[s'.threads[u].pc.next].obj != o
    {
      assert PcOk(s, u);
    }
    assert !BeingSynced(s', o);
  }

  lemma QueueObject(s: State, j: nat)
    requires Inv(s) && j < |s.queue|
    ensures s.queue[j].obj in s.objs && s.objs[s.queue[j].obj].block == s.queue[j].block
  {
  }

  lemma OthersStay(s: State, t: nat, u: nat, a: Action)
    requires t < |s.threads| && t != u && Enabled(s, u, a)
    ensures |After(s, u, a).threads| == |s.threads| && After(s, u, a).threads[t] == s.threads[t]
  {
    hide HasBlock, HasObject, Held, FoundAt, Victim, ReadFree, WriteFree, Cache.SwapRemove;
  }

  /** How far a step takes the thread that is in `flush`. */
  lemma FlushMoves(s: State, t: nat, e: Event)
    requires t < |s.threads| && InFlush(s.threads[t].pc) && Enabled(s, e.thread, e.action) && e != Event(t, FlushEnd)
    ensures var s' := After(s, e.thread, e.action);
            && t < |s'.threads| && InFlush(s'.threads[t].pc)
            && (s'.threads[t].pc.next != s.threads[t].pc.next ==>
                  && e.thread == t && s'.threads[t].pc.next == s.threads[t].pc.next + 1 <= |s.queue|
                  && var o := s.queue[s.threads[t].pc.next].obj;
                     && o in s.objs
                     && (e.action.SyncEnd? || (e.action.SyncBegin? && o !in s.locks && !s.objs[o].modified)))
  {
    if e.thread == t {
      hide HasBlock, HasObject, Held, FoundAt, Victim, ReadFree, WriteFree, Cache.SwapRemove;
      assert e.action.SyncBegin? || e.action.SyncEnd?;
    } else {
      OthersStay(s, t, e.thread, e.action);
      hide Enabled, After;
    }
  }

  lemma FlushStep(s: State, t: nat, e: Event, b: nat)
    requires Inv(s) && Passed(s, t, b) && Enabled(s, e.thread, e.action) && Spares(s, e, b)
    requires e != Event(t, FlushEnd)
    ensures Passed(After(s, e.thread, e.action), t, b)
  {
    var s' := After(s, e.thread, e.action);
    QueueStays(s, t, e.thread, e.action);
    FlushMoves(s, t, e);
    forall j | 0 <= j < s'.threads[t].pc.next && j < |s.queue| && s.queue[j].block == b
      ensures Clean(s', s.queue[j].obj)
    {
      var o := s.queue[j].obj;
      QueueObject(s, j);
      if j < s.threads[t].pc.next {
        CleanStays(s, t, e.thread, e.action, o);
      } else if e.action.SyncEnd? {
        SyncEndCleans(s, t);
      } else {
        UnmodifiedIsClean(s, t, o);
        CleanStays(s, t, e.thread, e.action, o);
      }
    }
  }

  lemma FlushStarts(s: State, t: nat, b: nat)
    requires Enabled(s, t, FlushBegin)
    ensures Passed(After(s, t, FlushBegin), t, b)
  {
  }

  /** From the first step of `flush` on, what it has passed stays clean. */
  lemma {:induction false} FlushProgress(states: seq<State>, events: seq<Event>, k: nat, n: nat, t: nat, b: nat)
    requires Run(states, events) && k < n <= |events| && events[k] == Event(t, FlushBegin)
    requires forall i :: k < i < n ==> events[i] != Event(t, FlushEnd) && Spares(states[i], events[i], b)
    ensures Passed(states[n], t, b)
  {
    hide Inv, Shows, Enabled, After, Passed, Spares;
    assert Follows(states[n - 1], events[n - 1], states[n]);
    if n == k + 1 {
      FlushStarts(states[k], t, b);
    } else {
      FlushProgress(states, events, k, n - 1, t, b);
      RunRefines(states, events, n - 1);
      FlushStep(states[n - 1], t, events[n - 1], b);
    }
  }

  lemma {:induction false} PlainDiskSpared(states: seq<State>, events: seq<Event>, k: nat, n: nat, b: nat)
    requires Run(states, events) && k <= n <= |events| && forall i :: k <= i < n ==> Spares(states[i], events[i], b)
    requires b in PlainDisk(states, events, k)
    ensures b in PlainDisk(states, events, n) && PlainDisk(states, events, n)[b] == PlainDisk(states, events, k)[b]
  {
    hide Follows, Initial, Enabled, After;
    if k == n {
    } else {
      PlainDiskSpared(states, events, k, n - 1, b);
      assert Spares(states[n - 1], events[n - 1], b);
    }
  }

  lemma FlushedAtEnd(s: State, t: nat, b: nat, view: Store)
    requires Inv(s) && Enabled(s, t, FlushEnd) && Passed(s, t, b) && Shows(s, view) && b in s.disk
    ensures b in view && s.disk[b] == view[b]
  {
    if Live(s, b) {
      var o :| o in s.objs && s.objs[o].block == b;
      forall u | 0 <= u < |s.threads|
        ensures !s.threads[u].pc.WritingBack?
      {
        assert !Writing(s.threads[u].pc);
      }
      assert HasObject(s.queue, o);
      var j :| 0 <= j < |s.queue| && s.queue[j].obj == o;
      assert Clean(s, s.queue[j].obj);
    }
  }

  lemma FlushEnds(s: State, t: nat)
    requires Enabled(s, t, FlushEnd)
    ensures After(s, t, FlushEnd).disk == s.disk
  {
  }

  lemma SparedEnds(states: seq<State>, events: seq<Event>, k: nat, m: nat, b: nat)
    requires |states| == |events| + 1 && k < m < |events| && !events[k].action.Modify? && !events[m].action.Modify?
    requires forall i :: k < i < m ==> Spares(states[i], events[i], b)
    ensures forall i :: k <= i < m + 1 ==> Spares(states[i], events[i], b)
  {
  }

  /**
   * When `flush` returns, the device holds what block `b` held when `flush` began, unless `b` was modified
   * meanwhile: under every interleaving with other threads' gets, evictions, flushes and modifications.
   */
  lemma FlushSaves(states: seq<State>, events: seq<Event>, k: nat, m: nat, t: nat, b: nat)
    requires Run(states, events) && k < m < |events| && b in states[m].disk
    requires events[k] == Event(t, FlushBegin) && events[m] == Event(t, FlushEnd)
    requires forall i :: k < i < m ==> events[i] != Event(t, FlushEnd) && Spares(states[i], events[i], b)
    ensures b in states[m + 1].disk && b in PlainDisk(states, events, k)
    ensures states[m + 1].disk[b] == PlainDisk(states, events, k)[b] == PlainDisk(states, events, m + 1)[b]
  {
    hide Inv, Shows, After, Enabled, Passed, Spares;
    RunRefines(states, events, m);
    FlushProgress(states, events, k, m, t, b);
    assert Follows(states[m], events[m], states[m + 1]);
    FlushEnds(states[m], t);
    FlushedAtEnd(states[m], t, b, PlainDisk(states, events, m));
    SparedEnds(states, events, k, m, b);
    PlainDiskSpared(states, events, k, m + 1, b);
  }

  // ---------------------------------------------------------------------------
  // Running out of cache blocks
  // ---------------------------------------------------------------------------

  ghost function HeldObjects(s: State): set<nat> {
    set t, o | 0 <= t < |s.threads| && o in s.threads[t].handles :: o
  }

  ghost function Objects(q: seq<Slot>): set<nat> {
    set i | 0 <= i < |q| :: q[i].obj
  }

  lemma {:induction false} CountObjects(q: seq<Slot>)
    requires forall j, k :: 0 <= j < k < |q| ==> q[j].obj != q[k].obj
    ensures |Objects(q)| == |q|
  {
    if q == [] {
    } else {
      var n := |q| - 1;
      var front := q[..n];
      assert forall i :: 0 <= i < n ==> front[i] == q[i];
      CountObjects(front);
      assert Objects(q) == Objects(front) + {q[n].obj};
      assert q[n].obj !in Objects(front);
    }
  }

  /** `get` panics only when 32 different blocks are held by threads at that moment. */
  lemma RunOutMeans(s: State, t: nat)
    requires Inv(s) && Enabled(s, t, RunOut)
    ensures |HeldObjects(s)| >= 32
  {
    Unshared(s);
    CountObjects(s.queue);
    assert Objects(s.queue) <= HeldObjects(s);
    Cache.Subset(Objects(s.queue), HeldObjects(s));
  }

  ghost function FirstUnheld(s: State, from: nat): (i: nat)
    requires from <= |s.queue| && exists k :: from <= k < |s.queue| && !Held(s, s.queue[k].obj)
    requires forall j :: 0 <= j < from ==> Held(s, s.queue[j].obj)
    ensures Victim(s, i)
    decreases |s.queue| - from
  {
    if !Held(s, s.queue[from].obj) then from else FirstUnheld(s, from + 1)
  }

  /** With fewer blocks held, a thread that finds the cache full finds a block to evict. */
  lemma VictimFound(s: State, t: nat)
    requires Inv(s) && t < |s.threads| && s.threads[t].pc.Rechecking? && !HasBlock(s.queue, s.threads[t].pc.block)
    requires |s.queue| == 32 && |HeldObjects(s)| < 32
    ensures exists i :: Enabled(s, t, Evict(i))
  {
    if forall i :: 0 <= i < |s.queue| ==> Held(s, s.queue[i].obj) {
      RunOutMeans(s, t);
    } else {
      var i := FirstUnheld(s, 0);
      QueueObject(s, i);
      assert Enabled(s, t, Evict(i));
    }
  }

  // ---------------------------------------------------------------------------
  // Who waits for whom
  // ---------------------------------------------------------------------------

  ghost predicate CanStep(s: State, t: nat) {
    exists a :: Enabled(s, t, a)
  }

  /** Thread `t` holds the write lock or a read guard of object `o`. */
  ghost predicate Holds(s: State, t: nat, o: nat) {
    t < |s.threads| && (Owns(s, t, o) || o in s.threads[t].guards)
  }

  /** Thread `t` cannot go on before thread `u` has let go of a lock. */
  ghost predicate WaitsFor(s: State, t: nat, u: nat) {
    && t < |s.threads| && u < |s.threads|
    && match s.threads[t].pc
       case Asking(_) => Writing(s.threads[u].pc)
       case FlushAsking => Writing(s.threads[u].pc)
       case Missed(_) => Writing(s.threads[u].pc) || Reading(s.threads[u].pc)
       case Flushing(i) => i < |s.queue| && Holds(s, u, s.queue[i].obj)
       case Locking(o, exclusive) => Owns(s, u, o) || (exclusive && o in s.threads[u].guards)
       case _ => false
  }

  /** A number above all of these. */
  lemma {:induction false} Above(used: set<nat>) returns (o: nat)
    ensures forall x :: x in used ==> x < o
    decreases used
  {
    if used == {} {
      o := 0;
    } else {
      var y :| y in used;
      var rest := used - {y};
      o := Above(rest);
      o := if o <= y then y + 1 else o;
      assert forall x :: x in used ==> x == y || x in rest;
    }
  }

  ghost function FirstOf(queue: seq<Slot>, b: nat, from: nat): (i: nat)
    requires from <= |queue| && exists k :: from <= k < |queue| && queue[k].block == b
    requires forall j :: 0 <= j < from ==> queue[j].block != b
    ensures FoundAt(queue, b, i)
    decreases |queue| - from
  {
    if queue[from].block == b then from else FirstOf(queue, b, from + 1)
  }

  lemma RecheckSteps(s: State, t: nat)
    requires Inv(s) && t < |s.threads| && s.threads[t].pc.Rechecking?
    ensures CanStep(s, t)
  {
    var b := s.threads[t].pc.block;
    if HasBlock(s.queue, b) {
      var i := FirstOf(s.queue, b, 0);
      assert Enabled(s, t, HitAgain(i));
    } else if |s.queue| != Cache.CACHE_SIZE {
      assert Enabled(s, t, Room);
    } else if forall i :: 0 <= i < |s.queue| ==> Held(s, s.queue[i].obj) {
      assert Enabled(s, t, RunOut);
    } else {
      var i := FirstUnheld(s, 0);
      QueueObject(s, i);
      assert Enabled(s, t, Evict(i));
    }
  }

  /** A thread that holds the queue's write lock, and has not panicked, can step. */
  lemma WriterSteps(s: State, t: nat)
    requires Inv(s) && t < |s.threads| && Writing(s.threads[t].pc) && !s.threads[t].pc.Panicked?
    ensures CanStep(s, t)
  {
    PcOf(s, t);
    match s.threads[t].pc
    case Rechecking(b) => RecheckSteps(s, t);
    case WritingBack(_, _) => assert Enabled(s, t, WriteBack);
    case Loading(_) => assert Enabled(s, t, ReadDevice);
    case Loaded(_, _) =>
      var o := Above(s.objs.Keys);
      assert o !in s.objs.Keys;
      assert Enabled(s, t, Push(o));
  }

  lemma LockOwner(s: State, o: nat)
    requires Inv(s) && o in s.locks
    ensures s.locks[o] < |s.threads|
  {
  }

  lemma FlushingSteps(s: State, t: nat)
    requires Inv(s) && t < |s.threads| && s.threads[t].pc.Flushing?
    ensures CanStep(s, t) || exists u :: WaitsFor(s, t, u)
  {
    var i := s.threads[t].pc.next;
    PcOf(s, t);
    if i == |s.queue| {
      assert Enabled(s, t, FlushEnd);
    } else {
      QueueObject(s, i);
      var o := s.queue[i].obj;
      if o in s.locks {
        LockOwner(s, o);
        assert WaitsFor(s, t, s.locks[o]);
      } else if u :| 0 <= u < |s.threads| && o in s.threads[u].guards {
        assert WaitsFor(s, t, u);
      } else {
        assert Enabled(s, t, SyncBegin);
      }
    }
  }

  /** So can one that holds it for reading, unless it waits for a block. */
  lemma ReaderSteps(s: State, t: nat)
    requires Inv(s) && t < |s.threads| && Reading(s.threads[t].pc)
    ensures CanStep(s, t) || (s.threads[t].pc.Flushing? && exists u :: WaitsFor(s, t, u))
  {
    PcOf(s, t);
    match s.threads[t].pc
    case Finding(b) =>
      if HasBlock(s.queue, b) {
        var i := FirstOf(s.queue, b, 0);
        assert Enabled(s, t, Hit(i));
      } else {
        assert Enabled(s, t, Miss);
      }
    case Flushing(i) => FlushingSteps(s, t);
    case FlushWriting(i) => assert Enabled(s, t, SyncEnd);
    case _ =>
  }

  lemma LockingSteps(s: State, t: nat)
    requires Inv(s) && t < |s.threads| && s.threads[t].pc.Locking?
    ensures CanStep(s, t) || exists u :: WaitsFor(s, t, u)
  {
    var o, exclusive := s.threads[t].pc.obj, s.threads[t].pc.exclusive;
    if o in s.locks {
      LockOwner(s, o);
      assert WaitsFor(s, t, s.locks[o]);
    } else if !exclusive {
      assert Enabled(s, t, ReadLock);
    } else if u :| 0 <= u < |s.threads| && o in s.threads[u].guards {
      assert WaitsFor(s, t, u);
    } else {
      assert Enabled(s, t, Lock);
    }
  }

  /** A thread inside neither of the queue's locks can step, or waits for one that is, or for a block's holder. */
  lemma OutsiderSteps(s: State, t: nat)
    requires Inv(s) && t < |s.threads| && !Writing(s.threads[t].pc) && !Reading(s.threads[t].pc)
    ensures CanStep(s, t) || exists u :: WaitsFor(s, t, u)
  {
    var pc := s.threads[t].pc;
    if pc.Idle? {
      assert Enabled(s, t, FlushCall);
    } else if pc.Locking? {
      LockingSteps(s, t);
    } else if u :| 0 <= u < |s.threads| && Writing(s.threads[u].pc) {
      assert WaitsFor(s, t, u);
    } else if !pc.Missed? {
      assert Enabled(s, t, if pc.Asking? then GetBegin else FlushBegin);
    } else if u :| 0 <= u < |s.threads| && Reading(s.threads[u].pc) {
      assert WaitsFor(s, t, u);
    } else {
      assert Enabled(s, t, GetAgain);
    }
  }

  lemma WaitersStand(s: State, t: nat, u: nat, a: Action)
    requires WaitsFor(s, t, u)
    ensures !Enabled(s, t, a)
  {
    hide HasBlock, HasObject, Held, FoundAt, Victim;
  }

  /** A thread that has not panicked is unable to step if and only if it waits for some thread. */
  lemma BlockedIs(s: State, t: nat)
    requires Inv(s) && t < |s.threads| && !s.threads[t].pc.Panicked?
    ensures !CanStep(s, t) <==> exists u :: WaitsFor(s, t, u)
  {
    if Writing(s.threads[t].pc) {
      WriterSteps(s, t);
    } else if Reading(s.threads[t].pc) {
      ReaderSteps(s, t);
    } else {
      OutsiderSteps(s, t);
    }
    hide Inv, Enabled, WaitsFor;
    if u :| WaitsFor(s, t, u) {
      forall a
        ensures !Enabled(s, t, a)
      {
        WaitersStand(s, t, u, a);
      }
    }
  }

  // ---------------------------------------------------------------------------
  // Deadlock of some of the threads
  // ---------------------------------------------------------------------------

  predicate Among(some: set<nat>, t: nat) {
    t in some
  }

  /** Each of these threads waits for one of them. */
  ghost predicate Deadlocked(s: State, some: set<nat>) {
    some != {} && forall t :: Among(some, t) ==> exists u :: u in some && WaitsFor(s, t, u)
  }

  ghost predicate NonePanicked(s: State) {
    forall t :: 0 <= t < |s.threads| ==> !s.threads[t].pc.Panicked?
  }

  /** Locks are let go by their owners alone. */
  lemma OwnersStay(s: State, u: nat, v: nat, a: Action)
    requires Inv(s) && Enabled(s, v, a) && v != u
    ensures forall o :: Owns(s, u, o) ==> Owns(After(s, v, a), u, o)
  {
    PcOf(s, v);
    hide Inv, HasBlock, HasObject, Held, FoundAt, Victim, ReadFree, WriteFree, Unread, Cache.SwapRemove;
  }

  /** Another thread's step does not end a wait. */
  lemma WaitStays(s: State, t: nat, u: nat, v: nat, a: Action)
    requires Inv(s) && WaitsFor(s, t, u) && Enabled(s, v, a) && v != t && v != u
    ensures WaitsFor(After(s, v, a), t, u)
  {
    OthersStay(s, t, v, a);
    OthersStay(s, u, v, a);
    OwnersStay(s, u, v, a);
    if s.threads[t].pc.Flushing? {
      QueueStays(s, t, v, a);
    }
    hide Inv, Enabled, After;
  }

  /** None of them ever steps, whatever the other threads do. */
  lemma DeadlockStays(s: State, some: set<nat>, v: nat, a: Action)
    requires Inv(s) && Deadlocked(s, some) && Enabled(s, v, a)
    ensures v !in some && Deadlocked(After(s, v, a), some)
  {
    hide Inv, Enabled, After, WaitsFor;
    if Among(some, v) {
      var u :| u in some && WaitsFor(s, v, u);
      WaitersStand(s, v, u, a);
    }
    forall t | Among(some, t)
      ensures exists u :: u in some && WaitsFor(After(s, v, a), t, u)
    {
      var u :| u in some && WaitsFor(s, t, u);
      WaitStays(s, t, u, v, a);
    }
  }

  /** In every run, deadlocked threads take no step any more. */
  lemma {:induction false} DeadlockIsForever(states: seq<State>, events: seq<Event>, k: nat, n: nat, some: set<nat>)
    requires Run(states, events) && k <= n <= |events| && Deadlocked(states[k], some)
    ensures Deadlocked(states[n], some)
    ensures forall i :: k <= i < n ==> events[i].thread !in some
  {
    hide Inv, Shows, Enabled, After, Deadlocked;
    if k == n {
    } else {
      DeadlockIsForever(states, events, k, n - 1, some);
      RunRefines(states, events, n - 1);
      assert Follows(states[n - 1], events[n - 1], states[n]);
      DeadlockStays(states[n - 1], some, events[n - 1].thread, events[n - 1].action);
    }
  }

  /** The thread can step, or it waits, directly or in at most `k` turns, for one that can. */
  ghost predicate LeadsIn(s: State, t: nat, k: nat)
    decreases k
  {
    CanStep(s, t) || (k > 0 && exists u :: WaitsFor(s, t, u) && LeadsIn(s, u, k - 1))
  }

  ghost predicate Leads(s: State, t: nat) {
    exists k: nat :: LeadsIn(s, t, k)
  }

  lemma LeadsOn(s: State, t: nat, u: nat)
    requires WaitsFor(s, t, u) && Leads(s, u)
    ensures Leads(s, t)
  {
    var k: nat :| LeadsIn(s, u, k);
    assert LeadsIn(s, t, k + 1);
  }

  lemma WaitsFrom(s: State, t: nat, u: nat)
    requires WaitsFor(s, t, u)
    ensures t < |s.threads| && u < |s.threads|
  {
  }

  ghost function NotLeading(s: State): set<nat> {
    set t: nat | t < |s.threads| && !Leads(s, t)
  }

  /** Where no threads are deadlocked, every thread waits at most for one that can step. */
  lemma DeadlockOrProgress(s: State)
    requires Inv(s) && NonePanicked(s)
    ensures (forall t: nat :: t < |s.threads| ==> Leads(s, t)) || Deadlocked(s, NotLeading(s))
  {
    hide Inv, WaitsFor, CanStep;
    var some := NotLeading(s);
    forall t | Among(some, t)
      ensures exists u :: u in some && WaitsFor(s, t, u)
    {
      assert !LeadsIn(s, t, 0);
      BlockedIs(s, t);
      var u :| WaitsFor(s, t, u);
      WaitsFrom(s, t, u);
      if Leads(s, u) { LeadsOn(s, t, u); }
      assert u in some;
    }
    if t: nat :| t < |s.threads| && !Leads(s, t) {
      assert t in some;
    }
  }

  // ---------------------------------------------------------------------------
  // A discipline that excludes deadlock
  // ---------------------------------------------------------------------------

  predicate InGet(pc: Pc) {
    pc.Asking? || pc.Finding? || pc.Missed? || Writing(pc)
  }

  /** Some thread has called `flush` and not returned. */
  ghost predicate AnyFlush(s: State) {
    exists t :: 0 <= t < |s.threads| && (s.threads[t].pc.FlushAsking? || InFlush(s.threads[t].pc))
  }

  function BlockAt(s: State, o: nat): nat {
    if o in s.objs then s.objs[o].block else 0
  }

  /** Every block that thread `t` holds comes before block `b`. */
  ghost predicate HoldsBefore(s: State, t: nat, order: nat -> nat, b: nat) {
    forall o :: Holds(s, t, o) ==> order(BlockAt(s, o)) < order(b)
  }

  ghost predicate HoldsNone(s: State, t: nat) {
    forall o :: !Holds(s, t, o)
  }

  /**
   * A discipline for callers, for some order of the blocks: a thread asks for a block's lock or read guard only if
   * the block comes after all those it holds; it calls `flush` only if it holds none and no thread that holds one is
   * inside `get`; and while it holds one it calls `get` only if no thread is inside `flush`.
   */
  ghost predicate Disciplined(s: State, t: nat, a: Action, order: nat -> nat) {
    && (a.Want? || a.WantRead? ==> HoldsBefore(s, t, order, BlockAt(s, a.obj)))
    && (a.FlushCall? ==>
          HoldsNone(s, t) && forall u :: 0 <= u < |s.threads| && InGet(s.threads[u].pc) ==> HoldsNone(s, u))
    && (a.GetCall? ==> HoldsNone(s, t) || !AnyFlush(s))
  }

  /** Where thread `t` may be, holding block `o`, while another is in `flush`. */
  ghost predicate MayHold(s: State, t: nat, o: nat)
    requires t < |s.threads|
  {
    var pc := s.threads[t].pc;
    pc.Idle? || pc.Locking? || (pc.FlushWriting? && pc.next < |s.queue| && s.queue[pc.next].obj == o)
  }

  ghost predicate FlushCalm(s: State) {
    AnyFlush(s) ==> forall t, o :: Holds(s, t, o) ==> MayHold(s, t, o)
  }

  ghost predicate LocksInOrder(s: State, order: nat -> nat) {
    forall t :: 0 <= t < |s.threads| && s.threads[t].pc.Locking? ==> HoldsBefore(s, t, order, BlockAt(s, s.threads[t].pc.obj))
  }

  ghost predicate Calm(s: State, order: nat -> nat) {
    FlushCalm(s) && LocksInOrder(s, order)
  }

  lemma CalmParts(s: State, order: nat -> nat)
    requires Calm(s, order)
    ensures FlushCalm(s) && LocksInOrder(s, order)
  {
  }

  lemma CalmJoins(s: State, order: nat -> nat)
    requires FlushCalm(s) && LocksInOrder(s, order)
    ensures Calm(s, order)
  {
  }

  /** Only the thread that steps can gain a lock. */
  lemma NoNewOwner(s: State, u: nat, v: nat, a: Action)
    requires Enabled(s, v, a) && v != u
    ensures forall o :: Owns(After(s, v, a), u, o) ==> Owns(s, u, o)
  {
    hide HasBlock, HasObject, Held, FoundAt, Victim, ReadFree, WriteFree, Unread, Cache.SwapRemove;
  }

  lemma NoNewHolds(s: State, u: nat, v: nat, a: Action)
    requires Enabled(s, v, a) && v != u && u < |s.threads|
    ensures forall o :: Holds(After(s, v, a), u, o) ==> Holds(s, u, o)
  {
    NoNewOwner(s, u, v, a);
    OthersStay(s, u, v, a);
    hide Enabled, After, Owns;
  }

  lemma HeldStays(s: State, u: nat, o: nat, i: nat)
    requires u < |s.threads| && o in s.threads[u].handles && Victim(s, i)
    ensures s.queue[i].obj != o
  {
    assert Held(s, o);
  }

  lemma LiveStays(s: State, v: nat, a: Action, o: nat)
    requires Enabled(s, v, a) && o in s.objs
    requires a.WriteBack? ==> s.threads[v].pc.victim != o
    requires a.Evict? ==> s.queue[a.i].obj != o
    ensures var s' := After(s, v, a);
            && o in s'.objs && s'.objs[o].block == s.objs[o].block
            && (s'.objs[o].content != s.objs[o].content ==> a.Modify? && a.obj == o)
  {
    hide HasBlock, HasObject, FoundAt, ReadFree, WriteFree, Unread, Cache.SwapRemove, Owns, Held;
  }

  lemma HeldLives(s: State, u: nat, o: nat)
    requires Inv(s) && u < |s.threads| && o in s.threads[u].handles
    ensures o in s.objs && HasObject(s.queue, o)
  {
    assert HasObject(s.queue, o);
  }

  lemma VictimApart(s: State, v: nat, o: nat)
    requires Inv(s) && v < |s.threads| && s.threads[v].pc.WritingBack? && HasObject(s.queue, o)
    ensures s.threads[v].pc.victim != o
  {
    assert Dying(s, s.threads[v].pc.victim);
    DyingIsAlone(s, s.threads[v].pc.victim, o);
  }

  /** A block that a thread has a handle of stays the same block. */
  lemma BlockStays(s: State, u: nat, v: nat, a: Action, o: nat)
    requires Inv(s) && Enabled(s, v, a) && u < |s.threads| && o in s.threads[u].handles
    ensures BlockAt(After(s, v, a), o) == BlockAt(s, o)
  {
    hide Inv, HasBlock, HasObject, FoundAt, ReadFree, WriteFree, Unread, Cache.SwapRemove, Owns, Held;
    HeldLives(s, u, o);
    if a.WriteBack? {
      VictimApart(s, v, o);
    } else if a.Evict? {
      HeldStays(s, u, o, a.i);
    }
    LiveStays(s, v, a, o);
  }

  /** What a thread in front of a lock holds, it has handles of. */
  lemma HoldsHandles(s: State, t: nat)
    requires Inv(s) && t < |s.threads| && Quiet(s.threads[t].pc)
    ensures forall o :: Holds(s, t, o) ==> o in s.threads[t].handles
  {
    OwnLocks(s, t);
    hide Inv;
  }

  lemma OthersInOrder(s: State, t: nat, v: nat, a: Action, order: nat -> nat)
    requires Inv(s) && Enabled(s, v, a) && t != v && t < |s.threads| && s.threads[t].pc.Locking?
    requires HoldsBefore(s, t, order, BlockAt(s, s.threads[t].pc.obj))
    ensures HoldsBefore(After(s, v, a), t, order, BlockAt(After(s, v, a), s.threads[t].pc.obj))
  {
    HoldsHandles(s, t);
    HandleOfLocking(s, t);
    NoNewHolds(s, t, v, a);
    hide Inv, Enabled, After, BlockAt, Holds;
    BlockStays(s, t, v, a, s.threads[t].pc.obj);
    var s' := After(s, v, a);
    forall o | Holds(s', t, o)
      ensures order(BlockAt(s', o)) < order(BlockAt(s', s.threads[t].pc.obj))
    {
      BlockStays(s, t, v, a, o);
    }
  }

  lemma WanterInOrder(s: State, v: nat, a: Action, order: nat -> nat)
    requires Enabled(s, v, a) && Disciplined(s, v, a, order) && v < |After(s, v, a).threads|
    requires After(s, v, a).threads[v].pc.Locking?
    ensures HoldsBefore(After(s, v, a), v, order, BlockAt(After(s, v, a), After(s, v, a).threads[v].pc.obj))
  {
    hide HasBlock, HasObject, Held, FoundAt, Victim, ReadFree, WriteFree, Unread, Cache.SwapRemove, AnyFlush;
    assert a.Want? || a.WantRead?;
    var s' := After(s, v, a);
    assert forall o :: Holds(s', v, o) ==> Holds(s, v, o);
  }

  lemma ThreadsStay(s: State, v: nat, a: Action)
    requires Enabled(s, v, a)
    ensures v < |s.threads| == |After(s, v, a).threads|
  {
    hide HasBlock, HasObject, Held, FoundAt, Victim, ReadFree, WriteFree, Unread, Cache.SwapRemove;
  }

  lemma OrderKept(s: State, v: nat, a: Action, order: nat -> nat)
    requires Inv(s) && LocksInOrder(s, order) && Enabled(s, v, a) && Disciplined(s, v, a, order)
    ensures LocksInOrder(After(s, v, a), order)
  {
    hide Inv, Enabled, After, Disciplined, HoldsBefore, BlockAt;
    var s' := After(s, v, a);
    ThreadsStay(s, v, a);
    forall t | 0 <= t < |s'.threads| && s'.threads[t].pc.Locking?
      ensures HoldsBefore(s', t, order, BlockAt(s', s'.threads[t].pc.obj))
    {
      if t == v {
        WanterInOrder(s, v, a, order);
      } else {
        OthersStay(s, t, v, a);
        OthersInOrder(s, t, v, a, order);
      }
    }
  }

  /** The steps of `flush` on a block: it holds that block's lock and no other. */
  lemma SyncHolds(s: State, v: nat, a: Action, o: nat)
    requires Inv(s) && Enabled(s, v, a) && (a.SyncBegin? || a.SyncEnd?) && Holds(After(s, v, a), v, o)
    requires forall p :: Holds(s, v, p) ==> MayHold(s, v, p)
    ensures MayHold(After(s, v, a), v, o)
  {
    PcOf(s, v);
    GuardsFree(s, v);
    hide Inv, HasBlock, HasObject, Held, FoundAt, Victim, ReadFree, WriteFree, Unread;
    assert o in s.threads[v].guards ==> Holds(s, v, o);
    assert Owns(s, v, o) ==> Holds(s, v, o);
  }

  /** Every other step: a thread that is inside `get` or `flush` then holds nothing. */
  lemma OtherHolds(s: State, v: nat, a: Action, o: nat, order: nat -> nat)
    requires Enabled(s, v, a) && !a.SyncBegin? && !a.SyncEnd? && Disciplined(s, v, a, order) && AnyFlush(s)
    requires forall p :: Holds(s, v, p) ==> MayHold(s, v, p)
    ensures v < |After(s, v, a).threads| && (Holds(After(s, v, a), v, o) ==> MayHold(After(s, v, a), v, o))
  {
    hide HasBlock, HasObject, Held, FoundAt, Victim, ReadFree, WriteFree, Unread, Cache.SwapRemove, AnyFlush, HoldsBefore;
    var s' := After(s, v, a);
    if !s'.threads[v].pc.Idle? && !s'.threads[v].pc.Locking? {
      assert s'.locks == s.locks && s'.threads[v].guards == s.threads[v].guards;
      assert !Holds(s, v, o);
    }
  }

  lemma StillCalm(s: State, v: nat, a: Action, order: nat -> nat)
    requires Inv(s) && FlushCalm(s) && AnyFlush(s) && Enabled(s, v, a) && Disciplined(s, v, a, order)
    ensures FlushCalm(After(s, v, a))
  {
    hide Inv, Enabled, After, AnyFlush, Disciplined;
    var s' := After(s, v, a);
    ThreadsStay(s, v, a);
    forall t: nat, o: nat | Holds(s', t, o)
      ensures MayHold(s', t, o)
    {
      if t != v {
        NoNewHolds(s, t, v, a);
        OthersStay(s, t, v, a);
        if s.threads[t].pc.FlushWriting? { QueueStays(s, t, v, a); }
      } else if a.SyncBegin? || a.SyncEnd? {
        SyncHolds(s, v, a, o);
      } else {
        OtherHolds(s, v, a, o, order);
      }
    }
  }

  lemma FlushMade(s: State, v: nat, a: Action)
    requires Enabled(s, v, a) && v < |After(s, v, a).threads|
    requires !s.threads[v].pc.FlushAsking? && !InFlush(s.threads[v].pc)
    requires After(s, v, a).threads[v].pc.FlushAsking? || InFlush(After(s, v, a).threads[v].pc)
    ensures a == FlushCall
  {
    hide HasBlock, HasObject, Held, FoundAt, Victim, ReadFree, WriteFree, Unread, Owns, Cache.SwapRemove;
  }

  /** With no thread in `flush`, only a new call of `flush` can make one. */
  lemma FirstFlush(s: State, v: nat, a: Action)
    requires Enabled(s, v, a) && !AnyFlush(s) && AnyFlush(After(s, v, a))
    ensures a == FlushCall
  {
    var s' := After(s, v, a);
    hide Enabled, After;
    ThreadsStay(s, v, a);
    var t :| 0 <= t < |s'.threads| && (s'.threads[t].pc.FlushAsking? || InFlush(s'.threads[t].pc));
    assert !s.threads[t].pc.FlushAsking? && !InFlush(s.threads[t].pc);
    if t == v {
      FlushMade(s, v, a);
    } else {
      OthersStay(s, t, v, a);
    }
  }

  lemma FlushCalled(s: State, v: nat, order: nat -> nat)
    requires Enabled(s, v, FlushCall) && Disciplined(s, v, FlushCall, order) && !AnyFlush(s)
    ensures FlushCalm(After(s, v, FlushCall))
  {
    var s' := After(s, v, FlushCall);
    forall t: nat, o: nat | Holds(s', t, o)
      ensures MayHold(s', t, o)
    {
      assert Holds(s, t, o) && t != v;
      assert !InGet(s.threads[t].pc);
      assert !s.threads[t].pc.FlushAsking? && !InFlush(s.threads[t].pc);
    }
  }

  lemma NoFlushIsCalm(s: State)
    requires !AnyFlush(s)
    ensures FlushCalm(s)
  {
  }

  /** With the discipline, calm states lead to calm states. */
  lemma CalmKept(s: State, v: nat, a: Action, order: nat -> nat)
    requires Inv(s) && Calm(s, order) && Enabled(s, v, a) && Disciplined(s, v, a, order)
    ensures Calm(After(s, v, a), order)
  {
    hide *;
    CalmParts(s, order);
    OrderKept(s, v, a, order);
    if AnyFlush(s) {
      StillCalm(s, v, a, order);
    } else if AnyFlush(After(s, v, a)) {
      FirstFlush(s, v, a);
      FlushCalled(s, v, order);
    } else {
      NoFlushIsCalm(After(s, v, a));
    }
    CalmJoins(After(s, v, a), order);
  }

  // ---------------------------------------------------------------------------
  // Progress under the discipline
  // ---------------------------------------------------------------------------

  /** At least as far in the order as every block that some of the first `n` threads waits for. */
  ghost function Last(s: State, order: nat -> nat, n: nat): (last: nat)
    requires n <= |s.threads|
    ensures forall t :: 0 <= t < n && s.threads[t].pc.Locking? ==> order(BlockAt(s, s.threads[t].pc.obj)) <= last
  {
    if n == 0 then 0 else
      var front, pc := Last(s, order, n - 1), s.threads[n - 1].pc;
      if pc.Locking? && order(BlockAt(s, pc.obj)) > front then order(BlockAt(s, pc.obj)) else front
  }

  /** How far thread `t` is from being able to step. */
  ghost function Weight(s: State, order: nat -> nat, t: nat): nat
    requires t < |s.threads|
  {
    var last := Last(s, order, |s.threads|);
    match s.threads[t].pc
    case Locking(o, _) => last + 1 - order(BlockAt(s, o)) + if AnyFlush(s) then 0 else 2
    case Flushing(_) => last + 2
    case Asking(_) => if AnyFlush(s) then last + 3 else 1
    case FlushAsking => last + 3
    case Missed(_) => if AnyFlush(s) then last + 3 else 1
    case _ => 0
  }

  lemma InQueueLock(s: State, t: nat)
    requires t < |s.threads|
    ensures InFlush(s.threads[t].pc) || s.threads[t].pc.FlushAsking? ==> AnyFlush(s)
  {
  }

  /** Whoever holds the block that a thread waits for is nearer to a step. */
  lemma HolderIsLighter(s: State, order: nat -> nat, t: nat, u: nat, o: nat)
    requires Calm(s, order) && t < |s.threads| && u < |s.threads| && Holds(s, u, o)
    requires || s.threads[t].pc.Flushing?
             || (s.threads[t].pc.Locking? && s.threads[t].pc.obj == o)
    ensures Weight(s, order, u) < Weight(s, order, t)
  {
    InQueueLock(s, t);
    InQueueLock(s, u);
    hide AnyFlush, BlockAt;
    if AnyFlush(s) {
      assert MayHold(s, u, o);
    }
    assert s.threads[u].pc.Locking? ==> order(BlockAt(s, o)) < order(BlockAt(s, s.threads[u].pc.obj));
  }

  lemma WaitIsLighter(s: State, order: nat -> nat, t: nat, u: nat)
    requires Calm(s, order) && WaitsFor(s, t, u)
    ensures Weight(s, order, u) < Weight(s, order, t)
  {
    InQueueLock(s, t);
    InQueueLock(s, u);
    var pc := s.threads[t].pc;
    if pc.Flushing? {
      HolderIsLighter(s, order, t, u, s.queue[pc.next].obj);
    } else if pc.Locking? {
      HolderIsLighter(s, order, t, u, pc.obj);
    } else {
      hide AnyFlush, Calm, BlockAt;
    }
  }

  /** In a calm state every thread can step or waits, directly or in turn, for one that can. */
  lemma {:induction false} CalmLeads(s: State, order: nat -> nat, t: nat)
    requires Inv(s) && NonePanicked(s) && Calm(s, order) && t < |s.threads|
    ensures Leads(s, t)
    decreases Weight(s, order, t)
  {
    hide Inv, Calm, WaitsFor, CanStep, Weight;
    BlockedIs(s, t);
    if CanStep(s, t) {
      assert LeadsIn(s, t, 0);
    } else {
      var u :| WaitsFor(s, t, u);
      WaitsFrom(s, t, u);
      WaitIsLighter(s, order, t, u);
      CalmLeads(s, order, u);
      LeadsOn(s, t, u);
    }
  }

  lemma {:induction false} NoCircle(s: State, order: nat -> nat, some: set<nat>, t: nat)
    requires Calm(s, order) && t < |s.threads| && t in some
    ensures !Deadlocked(s, some)
    decreases Weight(s, order, t)
  {
    hide Calm, WaitsFor, Weight;
    if Deadlocked(s, some) {
      assert Among(some, t);
      var u :| u in some && WaitsFor(s, t, u);
      WaitsFrom(s, t, u);
      WaitIsLighter(s, order, t, u);
      NoCircle(s, order, some, u);
    }
  }

  lemma CalmIsFree(s: State, order: nat -> nat, some: set<nat>)
    requires Calm(s, order)
    ensures !Deadlocked(s, some)
  {
    hide Calm, WaitsFor;
    if Deadlocked(s, some) {
      var t :| t in some;
      assert Among(some, t);
      var u :| u in some && WaitsFor(s, t, u);
      WaitsFrom(s, t, u);
      NoCircle(s, order, some, t);
    }
  }

  ghost predicate DisciplinedRun(states: seq<State>, events: seq<Event>, order: nat -> nat) {
    && Run(states, events)
    && forall i :: 0 <= i < |events| ==>
                     Disciplined(states[i], events[i].thread, events[i].action, order) && !events[i].action.RunOut?
  }

  lemma PanicsOnlyByRunOut(s: State, t: nat, a: Action)
    requires NonePanicked(s) && Enabled(s, t, a) && !a.RunOut?
    ensures NonePanicked(After(s, t, a))
  {
    hide HasBlock, HasObject, Held, FoundAt, Victim, ReadFree, WriteFree, Unread, Cache.SwapRemove;
  }

  lemma CalmAtFirst(s: State, order: nat -> nat)
    requires Initial(s)
    ensures Calm(s, order) && NonePanicked(s)
  {
  }

  lemma {:induction false} StaysCalm(states: seq<State>, events: seq<Event>, order: nat -> nat, n: nat)
    requires DisciplinedRun(states, events, order) && n <= |events|
    ensures Inv(states[n]) && Calm(states[n], order) && NonePanicked(states[n])
  {
    hide Inv, Shows, Enabled, After, Calm, NonePanicked, Disciplined;
    RunRefines(states, events, n);
    if n == 0 {
      CalmAtFirst(states[0], order);
    } else {
      StaysCalm(states, events, order, n - 1);
      var s, e := states[n - 1], events[n - 1];
      assert Follows(s, e, states[n]);
      CalmKept(s, e.thread, e.action, order);
      PanicsOnlyByRunOut(s, e.thread, e.action);
    }
  }

  /**
   * In every run that keeps the discipline, for whatever order of the blocks, and does not run out of cache blocks:
   * no threads are ever deadlocked, and every thread can step or waits, directly or in turn, for one that can.
   */
  lemma NeverDeadlocked(states: seq<State>, events: seq<Event>, order: nat -> nat, n: nat)
    requires DisciplinedRun(states, events, order) && n <= |events|
    ensures forall t: nat :: t < |states[n].threads| ==> Leads(states[n], t)
    ensures forall some: set<nat> :: !Deadlocked(states[n], some)
  {
    StaysCalm(states, events, order, n);
    hide Inv, Calm, NonePanicked, Leads, Deadlocked, DisciplinedRun;
    forall t: nat | t < |states[n].threads|
      ensures Leads(states[n], t)
    {
      CalmLeads(states[n], order, t);
    }
    forall some: set<nat>
      ensures !Deadlocked(states[n], some)
    {
      CalmIsFree(states[n], order, some);
    }
  }

  // ---------------------------------------------------------------------------
  // Deadlocks that the discipline excludes
  // ---------------------------------------------------------------------------

  lemma OnlyBegun(s: State)
    requires Initial(s)
    ensures Run([s], [])
  {
  }

  lemma RunGrows(states: seq<State>, events: seq<Event>, e: Event, s': State) returns (longer: seq<State>, more: seq<Event>)
    requires Run(states, events) && |states| == |events| + 1 && Follows(states[|events|], e, s')
    ensures longer == states + [s'] && more == events + [e] && Run(longer, more)
  {
    hide Follows;
    longer, more := states + [s'], events + [e];
    forall i | 0 <= i < |more|
      ensures Follows(longer[i], more[i], longer[i + 1])
    {
      if i < |events| {
        assert longer[i] == states[i] && longer[i + 1] == states[i + 1] && more[i] == events[i];
      }
    }
  }

  /** Three threads over a device of two blocks, the second and third at `pc` and idle. */
  function World(queue: seq<Slot>, objs: map<nat, Object>, locks: map<nat, nat>, first: Thread, pc: Pc): State {
    State(map[0 := Zeroed, 1 := Zeroed], queue, objs,
          [first, Thread(pc, multiset{}, multiset{}), Thread(Idle, multiset{}, multiset{})], locks)
  }

  function NothingCached(pc: Pc): State {
    World([], map[], map[], Thread(pc, multiset{}, multiset{}), Idle)
  }

  /** The first thread holds the lock, or a read guard, of block 0, which is object 7. */
  function BlockHeld(pc: Pc, exclusive: bool, other: Pc): State {
    World([Slot(0, 7)], map[7 := Object(0, Zeroed, false)], if exclusive then map[7 := 0] else map[],
          Thread(pc, multiset{7}, if exclusive then multiset{} else multiset{7}), other)
  }

  function BlockCached(pc: Pc): State {
    World([Slot(0, 7)], map[7 := Object(0, Zeroed, false)], map[], Thread(pc, multiset{7}, multiset{}), Idle)
  }

  lemma Loads()
    ensures Follows(NothingCached(Idle), Event(0, GetCall(0)), NothingCached(Asking(0)))
    ensures Follows(NothingCached(Asking(0)), Event(0, GetBegin), NothingCached(Finding(0)))
    ensures Follows(NothingCached(Finding(0)), Event(0, Miss), NothingCached(Missed(0)))
  {
    hide HasObject, Held, FoundAt, Victim, Unread, Owns;
  }

  lemma Fetches()
    ensures Follows(NothingCached(Missed(0)), Event(0, GetAgain), NothingCached(Rechecking(0)))
    ensures Follows(NothingCached(Rechecking(0)), Event(0, Room), NothingCached(Loading(0)))
    ensures Follows(NothingCached(Loading(0)), Event(0, ReadDevice), NothingCached(Loaded(0, Zeroed)))
  {
    hide HasObject, Held, FoundAt, Victim, Unread, Owns;
  }

  lemma Pushes()
    ensures Follows(NothingCached(Loaded(0, Zeroed)), Event(0, Push(7)), BlockCached(Idle))
  {
    var s, s' := NothingCached(Loaded(0, Zeroed)), BlockCached(Idle);
    var none: multiset<nat> := multiset{};
    assert none + multiset{7} == multiset{7};
    assert Enabled(s, 0, Push(7));
    assert After(s, 0, Push(7)).threads == s'.threads;
    assert After(s, 0, Push(7)).queue == s'.queue;
  }

  lemma Asks(exclusive: bool)
    ensures Follows(BlockCached(Idle), Event(0, if exclusive then Want(7) else WantRead(7)), BlockCached(Locking(7, exclusive)))
  {
    hide HasBlock, HasObject, Held, FoundAt, Victim, Owns, Unread, ReadFree, WriteFree;
    assert After(BlockCached(Idle), 0, if exclusive then Want(7) else WantRead(7)).threads == BlockCached(Locking(7, exclusive)).threads;
  }

  lemma Locks(exclusive: bool)
    ensures Follows(BlockCached(Locking(7, exclusive)), Event(0, if exclusive then Lock else ReadLock), BlockHeld(Idle, exclusive, Idle))
  {
    hide HasBlock, HasObject, Held, FoundAt, Victim, Owns, ReadFree, WriteFree;
    var s, s' := BlockCached(Locking(7, exclusive)), BlockHeld(Idle, exclusive, Idle);
    var none: multiset<nat> := multiset{};
    assert none + multiset{7} == multiset{7};
    if exclusive {
      assert Enabled(s, 0, Lock);
      assert After(s, 0, Lock).threads == s'.threads;
      assert After(s, 0, Lock).locks == s'.locks;
    } else {
      assert Enabled(s, 0, ReadLock);
      assert After(s, 0, ReadLock).threads == s'.threads;
    }
  }

  lemma Searches(exclusive: bool)
    ensures Follows(BlockHeld(Idle, exclusive, Idle), Event(0, GetCall(1)), BlockHeld(Asking(1), exclusive, Idle))
    ensures Follows(BlockHeld(Asking(1), exclusive, Idle), Event(0, GetBegin), BlockHeld(Finding(1), exclusive, Idle))
    ensures Follows(BlockHeld(Finding(1), exclusive, Idle), Event(0, Miss), BlockHeld(Missed(1), exclusive, Idle))
  {
  }

  lemma FlushIsCalled(exclusive: bool)
    ensures Follows(BlockHeld(Missed(1), exclusive, Idle), Event(1, FlushCall), BlockHeld(Missed(1), exclusive, FlushAsking))
  {
    hide HasBlock, HasObject, Held, FoundAt, Victim, Unread, Owns, ReadFree, WriteFree;
    var s, s' := BlockHeld(Missed(1), exclusive, Idle), BlockHeld(Missed(1), exclusive, FlushAsking);
    assert After(s, 1, FlushCall).threads == s'.threads;
  }

  lemma FlushIsBegun(exclusive: bool)
    ensures Follows(BlockHeld(Missed(1), exclusive, FlushAsking), Event(1, FlushBegin), BlockHeld(Missed(1), exclusive, Flushing(0)))
  {
    hide HasBlock, HasObject, Held, FoundAt, Victim, Unread, Owns, WriteFree;
    var s, s' := BlockHeld(Missed(1), exclusive, FlushAsking), BlockHeld(Missed(1), exclusive, Flushing(0));
    assert Enabled(s, 1, FlushBegin);
    assert After(s, 1, FlushBegin).threads == s'.threads;
  }

  lemma BothWait(exclusive: bool)
    ensures var s := BlockHeld(Missed(1), exclusive, Flushing(0));
            NonePanicked(s) && Deadlocked(s, {0, 1}) && CanStep(s, 2)
  {
    var s := BlockHeld(Missed(1), exclusive, Flushing(0));
    assert WaitsFor(s, 0, 1);
    assert Holds(s, 0, 7);
    assert WaitsFor(s, 1, 0);
    assert Enabled(s, 2, FlushCall);
  }

  lemma StartsInitial()
    ensures Run([NothingCached(Idle)], [])
  {
    OnlyBegun(NothingCached(Idle));
  }

  /** A run in which the first thread comes to hold block 0. */
  lemma Holding(exclusive: bool) returns (states: seq<State>, events: seq<Event>)
    ensures Run(states, events) && |events| == 9 && |states| == 10 && states[9] == BlockHeld(Idle, exclusive, Idle)
  {
    hide *;
    StartsInitial();
    Loads();
    Fetches();
    Pushes();
    Asks(exclusive);
    Locks(exclusive);
    states, events := [NothingCached(Idle)], [];
    states, events := RunGrows(states, events, Event(0, GetCall(0)), NothingCached(Asking(0)));
    states, events := RunGrows(states, events, Event(0, GetBegin), NothingCached(Finding(0)));
    states, events := RunGrows(states, events, Event(0, Miss), NothingCached(Missed(0)));
    states, events := RunGrows(states, events, Event(0, GetAgain), NothingCached(Rechecking(0)));
    states, events := RunGrows(states, events, Event(0, Room), NothingCached(Loading(0)));
    states, events := RunGrows(states, events, Event(0, ReadDevice), NothingCached(Loaded(0, Zeroed)));
    states, events := RunGrows(states, events, Event(0, Push(7)), BlockCached(Idle));
    states, events := RunGrows(states, events, Event(0, if exclusive then Want(7) else WantRead(7)), BlockCached(Locking(7, exclusive)));
    states, events := RunGrows(states, events, Event(0, if exclusive then Lock else ReadLock), BlockHeld(Idle, exclusive, Idle));
  }

  /**
   * One thread holds a block's lock, as `write` does with the inode's, or its read guard, as `from` does, and looks
   * for another block while a second one flushes: the two are deadlocked, whatever the third does.
   */
  lemma FlushDeadlock(exclusive: bool) returns (states: seq<State>, events: seq<Event>)
    ensures Run(states, events) && |events| == 14 && |states| == 15
    ensures NonePanicked(states[14]) && Deadlocked(states[14], {0, 1}) && CanStep(states[14], 2)
  {
    hide *;
    states, events := Holding(exclusive);
    Searches(exclusive);
    FlushIsCalled(exclusive);
    FlushIsBegun(exclusive);
    BothWait(exclusive);
    states, events := RunGrows(states, events, Event(0, GetCall(1)), BlockHeld(Asking(1), exclusive, Idle));
    states, events := RunGrows(states, events, Event(0, GetBegin), BlockHeld(Finding(1), exclusive, Idle));
    states, events := RunGrows(states, events, Event(0, Miss), BlockHeld(Missed(1), exclusive, Idle));
    states, events := RunGrows(states, events, Event(1, FlushCall), BlockHeld(Missed(1), exclusive, FlushAsking));
    states, events := RunGrows(states, events, Event(1, FlushBegin), BlockHeld(Missed(1), exclusive, Flushing(0)));
  }

  lemma AsksAgain(exclusive: bool)
    ensures var s := BlockHeld(Locking(7, true), exclusive, Idle);
            Follows(BlockHeld(Idle, exclusive, Idle), Event(0, Want(7)), s) && NonePanicked(s) && Deadlocked(s, {0})
  {
    var s := BlockHeld(Locking(7, true), exclusive, Idle);
    assert WaitsFor(s, 0, 0);
  }

  /** A thread that asks for the lock of a block that it holds is deadlocked by itself. */
  lemma LockDeadlock(exclusive: bool) returns (states: seq<State>, events: seq<Event>)
    ensures Run(states, events) && |events| == 10 && |states| == 11
    ensures NonePanicked(states[10]) && Deadlocked(states[10], {0})
  {
    hide *;
    states, events := Holding(exclusive);
    AsksAgain(exclusive);
    states, events := RunGrows(states, events, Event(0, Want(7)), BlockHeld(Locking(7, true), exclusive, Idle));
  }

  // ---------------------------------------------------------------------------
  // Read guards
  // ---------------------------------------------------------------------------

  lemma OwnGuards(s: State, t: nat)
    requires Inv(s) && t < |s.threads|
    ensures forall o :: o in s.threads[t].guards ==> o in s.threads[t].handles
  {
  }

  /** What a thread reads under its guard stays the same, whatever the others do. */
  lemma GuardedStays(s: State, t: nat, o: nat, v: nat, a: Action)
    requires Inv(s) && t < |s.threads| && o in s.threads[t].guards && Enabled(s, v, a)
    ensures o in s.objs && o in After(s, v, a).objs && After(s, v, a).objs[o].content == s.objs[o].content
  {
    hide Inv, HasBlock, HasObject, FoundAt, ReadFree, WriteFree, Unread, Cache.SwapRemove, Held, After;
    GuardsFree(s, t);
    OwnGuards(s, t);
    HeldLives(s, t, o);
    if a.WriteBack? {
      VictimApart(s, v, o);
    } else if a.Evict? {
      HeldStays(s, t, o, a.i);
    }
    LiveStays(s, v, a, o);
  }

  // ---------------------------------------------------------------------------
  // What `get` hands out
  // ---------------------------------------------------------------------------

  /** Thread `t` is inside a `get` of block `b`, if inside one at all. */
  ghost predicate GetsOnly(s: State, t: nat, b: nat) {
    && t < |s.threads|
    && var pc := s.threads[t].pc;
       pc.Asking? || pc.Finding? || pc.Missed? || pc.Rechecking? || pc.WritingBack? || pc.Loading? || pc.Loaded? ==> pc.block == b
  }

  lemma StillGets(s: State, t: nat, b: nat, v: nat, a: Action)
    requires GetsOnly(s, t, b) && Enabled(s, v, a) && !(v == t && a.GetCall?)
    ensures GetsOnly(After(s, v, a), t, b)
  {
    if v == t {
      hide HasBlock, HasObject, Held, FoundAt, Victim, ReadFree, WriteFree, Unread, Owns, Cache.SwapRemove;
    } else {
      OthersStay(s, t, v, a);
      hide Enabled, After;
    }
  }

  lemma GetCalled(s: State, t: nat, b: nat)
    requires Enabled(s, t, GetCall(b))
    ensures GetsOnly(After(s, t, GetCall(b)), t, b)
  {
  }

  lemma {:induction false} GetGoesOn(states: seq<State>, events: seq<Event>, k: nat, n: nat, t: nat, b: nat)
    requires Run(states, events) && k < n <= |events| && events[k] == Event(t, GetCall(b))
    requires forall i :: k < i < n ==> !(events[i].thread == t && events[i].action.GetCall?)
    ensures GetsOnly(states[n], t, b)
  {
    hide Enabled, After, GetsOnly, Initial;
    assert Follows(states[n - 1], events[n - 1], states[n]);
    if n == k + 1 {
      GetCalled(states[k], t, b);
    } else {
      GetGoesOn(states, events, k, n - 1, t, b);
      StillGets(states[n - 1], t, b, events[n - 1].thread, events[n - 1].action);
    }
  }

  predicate Returns(a: Action) {
    a.Hit? || a.HitAgain? || a.Push?
  }

  /** The step with which `get` returns gives the thread one handle, of a live object of the block asked for. */
  lemma ReturnGives(s: State, t: nat, a: Action, b: nat) returns (o: nat)
    requires Inv(s) && Enabled(s, t, a) && Returns(a) && GetsOnly(s, t, b)
    ensures var s' := After(s, t, a);
            && t < |s'.threads| && s'.threads[t].handles == s.threads[t].handles + multiset{o}
            && o in s'.objs && s'.objs[o].block == b
  {
    hide HasBlock, HasObject, Held, Victim, ReadFree, WriteFree, Unread, Owns, Cache.SwapRemove;
    if a.Push? {
      o := a.obj;
    } else {
      o := s.queue[a.i].obj;
      QueueObject(s, a.i);
    }
  }

  /**
   * In every run, a `get` of block `b`, called at `k` and returning at `m`, hands out one handle of a live object of block
   * `b`, whatever the other threads do meanwhile.
   */
  lemma GetReturns(states: seq<State>, events: seq<Event>, k: nat, m: nat, t: nat, b: nat) returns (o: nat)
    requires Run(states, events) && k < m < |events| && events[k] == Event(t, GetCall(b))
    requires events[m].thread == t && Returns(events[m].action)
    requires forall i :: k < i < m ==> !(events[i].thread == t && events[i].action.GetCall?)
    ensures t < |states[m].threads| && t < |states[m + 1].threads|
    ensures states[m + 1].threads[t].handles == states[m].threads[t].handles + multiset{o}
    ensures o in states[m + 1].objs && states[m + 1].objs[o].block == b
  {
    GetGoesOn(states, events, k, m, t, b);
    RunRefines(states, events, m);
    assert Follows(states[m], events[m], states[m + 1]);
    ThreadsStay(states[m], t, events[m].action);
    hide Inv, Shows, Enabled, After, GetsOnly, Initial;
    o := ReturnGives(states[m], t, events[m].action, b);
  }

  /** A handle held without a break stays one of the same block. */
  lemma {:induction false} HandleKeepsBlock(states: seq<State>, events: seq<Event>, m: nat, n: nat, t: nat, o: nat, b: nat)
    requires Run(states, events) && m <= n <= |events| && o in states[m].objs && states[m].objs[o].block == b
    requires forall i :: m <= i <= n ==> t < |states[i].threads| && o in states[i].threads[t].handles
    ensures o in states[n].objs && states[n].objs[o].block == b
  {
    hide Inv, Shows, Enabled, After, Initial;
    if m == n {
    } else {
      HandleKeepsBlock(states, events, m, n - 1, t, o, b);
      RunRefines(states, events, n - 1);
      RunRefines(states, events, n);
      assert Follows(states[n - 1], events[n - 1], states[n]);
      BlockStays(states[n - 1], t, events[n - 1].thread, events[n - 1].action, o);
      HeldLives(states[n], t, o);
    }
  }

  lemma LiveShown(s: State, view: Store, o: nat)
    requires Shows(s, view) && o in s.objs
    ensures s.objs[o].block in view && view[s.objs[o].block] == s.objs[o].content
  {
  }

  lemma ReadHolds(s: State, e: Event)
    requires Enabled(s, e.thread, e.action)
    ensures e.action.Read? ==> e.action.obj in s.objs && s.objs[e.action.obj].content == e.action.content
  {
  }

  /**
   * What a thread reads through the handle that `get(b)` gave it is what block `b` holds: the last modification of `b` by
   * any thread. What it modifies is block `b` and no other.
   */
  lemma GetThenUse(states: seq<State>, events: seq<Event>, k: nat, m: nat, n: nat, t: nat, b: nat) returns (o: nat)
    requires Run(states, events) && k < m < n < |events| && events[k] == Event(t, GetCall(b))
    requires events[m].thread == t && Returns(events[m].action)
    requires forall i :: k < i < m ==> !(events[i].thread == t && events[i].action.GetCall?)
    ensures t < |states[m].threads| && t < |states[m + 1].threads|
    ensures states[m + 1].threads[t].handles == states[m].threads[t].handles + multiset{o}
    ensures (forall i :: m < i <= n ==> t < |states[i].threads| && o in states[i].threads[t].handles) ==>
              && b in PlainDisk(states, events, n)
              && (forall c :: events[n].action == Read(o, c) ==> c == PlainDisk(states, events, n)[b])
              && (forall c :: events[n].action == Modify(o, c) ==>
                                PlainDisk(states, events, n + 1) == PlainDisk(states, events, n)[b := c])
  {
    o := GetReturns(states, events, k, m, t, b);
    if forall i :: m < i <= n ==> t < |states[i].threads| && o in states[i].threads[t].handles {
      HandleKeepsBlock(states, events, m + 1, n, t, o, b);
      RunRefines(states, events, n);
      LiveShown(states[n], PlainDisk(states, events, n), o);
      assert Follows(states[n], events[n], states[n + 1]);
      ReadHolds(states[n], events[n]);
      hide Inv, Shows, Enabled, After, Initial;
    }
  }

  /**
   * In every run an eviction takes the first block that no thread holds: all 32 slots are taken, those before it are held,
   * and afterwards the last slot's block stands in its place and the others where they stood.
   */
  lemma EvictsFirst(states: seq<State>, events: seq<Event>, n: nat)
    requires Run(states, events) && n < |events| && events[n].action.Evict?
    ensures var q, q', i := states[n].queue, states[n + 1].queue, events[n].action.i;
            && |q| == 32 && |q'| == 31 && i < 32
            && (forall t :: 0 <= t < |states[n].threads| ==> q[i].obj !in states[n].threads[t].handles)
            && (forall k :: 0 <= k < i ==> exists t :: 0 <= t < |states[n].threads| && q[k].obj in states[n].threads[t].handles)
            && (forall k :: 0 <= k < 31 ==> q'[k] == if k == i then q[31] else q[k])
  {
    assert Follows(states[n], events[n], states[n + 1]);
    hide HasBlock, HasObject, FoundAt, ReadFree, WriteFree, Unread, Owns, Initial;
  }

  // ---------------------------------------------------------------------------
  // Handles, guards and locks are accounted for
  // ---------------------------------------------------------------------------

  /** What event `e` adds to the handles that thread `t` has of object `o`. */
  function HandleChange(s: State, e: Event, t: nat, o: nat): int {
    if e.thread != t then 0 else
      match e.action
      case Hit(i) => if i < |s.queue| && s.queue[i].obj == o then 1 else 0
      case HitAgain(i) => if i < |s.queue| && s.queue[i].obj == o then 1 else 0
      case Push(p) => if p == o then 1 else 0
      case Clone(p) => if p == o then 1 else 0
      case DropHandle(p) => if p == o then -1 else 0
      case _ => 0
  }

  /** Thread `t` stands in front of the lock of object `o`. */
  predicate InFront(s: State, t: nat, o: nat) {
    t < |s.threads| && s.threads[t].pc.Locking? && s.threads[t].pc.obj == o
  }

  function GuardChange(s: State, e: Event, t: nat, o: nat): int {
    if e.thread != t then 0 else
      match e.action
      case ReadLock => if InFront(s, t, o) then 1 else 0
      case ReadUnlock(p) => if p == o then -1 else 0
      case _ => 0
  }

  /** Object `o` is the one that thread `t`'s `flush` is at. */
  predicate AtNext(s: State, t: nat, o: nat) {
    t < |s.threads| && InFlush(s.threads[t].pc) && s.threads[t].pc.next < |s.queue| && s.queue[s.threads[t].pc.next].obj == o
  }

  function LockChange(s: State, e: Event, t: nat, o: nat): int {
    if e.thread != t then 0 else
      match e.action
      case Lock => if InFront(s, t, o) then 1 else 0
      case Unlock(p) => if p == o then -1 else 0
      case SyncBegin => if AtNext(s, t, o) && o in s.objs && s.objs[o].modified then 1 else 0
      case SyncEnd => if AtNext(s, t, o) then -1 else 0
      case _ => 0
  }

  ghost function Sum(states: seq<State>, events: seq<Event>, change: (State, Event) -> int, n: nat): int
    requires n <= |events| && |states| == |events| + 1
  {
    if n == 0 then 0 else Sum(states, events, change, n - 1) + change(states[n - 1], events[n - 1])
  }

  lemma SameHandles(s: State, t: nat, a: Action)
    requires Enabled(s, t, a) && !Handling(a) && !a.Push?
    ensures t < |After(s, t, a).threads| && After(s, t, a).threads[t].handles == s.threads[t].handles
  {
    hide HasBlock, HasObject, Held, FoundAt, Victim, ReadFree, WriteFree, Unread, Owns, Cache.SwapRemove;
  }

  lemma OtherHandles(s: State, t: nat, a: Action)
    requires Enabled(s, t, a) && (Handling(a) || a.Push?)
    ensures t < |After(s, t, a).threads|
    ensures After(s, t, a).threads[t].handles ==
            match a
            case Hit(i) => s.threads[t].handles + multiset{s.queue[i].obj}
            case HitAgain(i) => s.threads[t].handles + multiset{s.queue[i].obj}
            case Push(p) => s.threads[t].handles + multiset{p}
            case Clone(p) => s.threads[t].handles + multiset{p}
            case DropHandle(p) => s.threads[t].handles - multiset{p}
            case _ => s.threads[t].handles
    ensures (a.Hit? || a.HitAgain? ==> a.i < |s.queue|) && (a.DropHandle? ==> a.obj in s.threads[t].handles)
  {
    hide HasBlock, HasObject, Held, Victim, ReadFree, WriteFree, Unread, Owns, Cache.SwapRemove;
  }

  lemma HandlesStep(s: State, e: Event, t: nat, o: nat)
    requires Enabled(s, e.thread, e.action) && t < |s.threads|
    ensures var s' := After(s, e.thread, e.action);
            t < |s'.threads| && s'.threads[t].handles[o] == s.threads[t].handles[o] + HandleChange(s, e, t, o)
  {
    hide Enabled, After;
    ThreadsStay(s, e.thread, e.action);
    if e.thread != t {
      OthersStay(s, t, e.thread, e.action);
    } else if Handling(e.action) || e.action.Push? {
      OtherHandles(s, t, e.action);
    } else {
      SameHandles(s, t, e.action);
    }
  }

  lemma SameGuards(s: State, t: nat, a: Action)
    requires Enabled(s, t, a) && !a.ReadLock? && !a.ReadUnlock?
    ensures t < |After(s, t, a).threads| && After(s, t, a).threads[t].guards == s.threads[t].guards
  {
    hide HasBlock, HasObject, Held, FoundAt, Victim, ReadFree, WriteFree, Unread, Owns, Cache.SwapRemove;
  }

  lemma GuardsStep(s: State, e: Event, t: nat, o: nat)
    requires Enabled(s, e.thread, e.action) && t < |s.threads|
    ensures var s' := After(s, e.thread, e.action);
            t < |s'.threads| && s'.threads[t].guards[o] == s.threads[t].guards[o] + GuardChange(s, e, t, o)
  {
    ThreadsStay(s, e.thread, e.action);
    if e.thread != t {
      OthersStay(s, t, e.thread, e.action);
      hide Enabled, After;
    } else if e.action.ReadLock? {
    } else if e.action.ReadUnlock? {
    } else {
      SameGuards(s, t, e.action);
      hide Enabled, After;
    }
  }

  function One(b: bool): nat {
    if b then 1 else 0
  }

  lemma SameLocks(s: State, t: nat, a: Action)
    requires Enabled(s, t, a) && !a.Lock? && !a.Unlock? && !a.SyncBegin? && !a.SyncEnd?
    ensures After(s, t, a).locks == s.locks
  {
    hide HasBlock, HasObject, Held, FoundAt, Victim, ReadFree, WriteFree, Unread, Owns, Cache.SwapRemove;
  }

  lemma OwnLockStep(s: State, t: nat, a: Action, o: nat)
    requires Inv(s) && Enabled(s, t, a)
    ensures One(Owns(After(s, t, a), t, o)) == One(Owns(s, t, o)) + LockChange(s, Event(t, a), t, o)
  {
    PcOf(s, t);
    hide Inv, HasBlock, HasObject, Held, FoundAt, Victim, ReadFree, WriteFree, Unread, Cache.SwapRemove;
    if a.Lock? {
    } else if a.Unlock? {
    } else if a.SyncBegin? {
    } else if a.SyncEnd? {
    } else {
      SameLocks(s, t, a);
      hide Enabled, After;
    }
  }

  lemma NoLockChange(s: State, e: Event, t: nat, o: nat)
    ensures e.thread != t ==> LockChange(s, e, t, o) == 0
  {
  }

  lemma LocksStep(s: State, e: Event, t: nat, o: nat)
    requires Inv(s) && Enabled(s, e.thread, e.action)
    ensures One(Owns(After(s, e.thread, e.action), t, o)) == One(Owns(s, t, o)) + LockChange(s, e, t, o)
  {
    if e.thread == t {
      OwnLockStep(s, t, e.action, o);
      assert e == Event(t, e.action);
    } else {
      OwnersStay(s, t, e.thread, e.action);
      NoNewOwner(s, t, e.thread, e.action);
    }
    hide Inv, Enabled, After, Owns, LockChange;
    assert e.thread != t ==> LockChange(s, e, t, o) == 0 by {
      NoLockChange(s, e, t, o);
    }
  }

  /**
   * In every run the handles that a thread has of an object are those that `get` and `clone` gave it less those it dropped,
   * its read guards those it took less those it let go, and it owns the object's lock exactly when it has taken it once
   * more, for itself or in `flush`, than let it go.
   */
  lemma {:induction false} AccountsBalance(states: seq<State>, events: seq<Event>, n: nat, t: nat, o: nat)
    requires Run(states, events) && n <= |events| && t < |states[0].threads|
    ensures t < |states[n].threads|
    ensures states[n].threads[t].handles[o] == Sum(states, events, (s, e) => HandleChange(s, e, t, o), n)
    ensures states[n].threads[t].guards[o] == Sum(states, events, (s, e) => GuardChange(s, e, t, o), n)
    ensures One(Owns(states[n], t, o)) == Sum(states, events, (s, e) => LockChange(s, e, t, o), n)
  {
    hide Inv, Shows, Enabled, After, HandleChange, GuardChange, LockChange;
    if n == 0 {
    } else {
      AccountsBalance(states, events, n - 1, t, o);
      RunRefines(states, events, n - 1);
      var s, e := states[n - 1], events[n - 1];
      assert Follows(s, e, states[n]);
      HandlesStep(s, e, t, o);
      GuardsStep(s, e, t, o);
      LocksStep(s, e, t, o);
    }
  }
}
