/**
 * `Bitmap::alloc` called by several threads at once. The search of one bitmap block and the setting of the bit
 * happen under that block's write lock, so each is one step; between blocks other threads may run.
 */
module BitmapProtocol {
  import opened Layout

  datatype Pc = Idle | Scanning(block: nat)

  /** The set bits of a bitmap of `n` blocks, and where each thread is. */
  datatype State = State(n: nat, bits: set<nat>, pcs: seq<Pc>)

  datatype Action = Begin | Take(bit: nat) | Skip | GiveUp | Dealloc(bit: nat)

  datatype Event = Event(thread: nat, action: Action)

  predicate InBlock(b: nat, i: nat) {
    i * BLOCK_BITS <= b < (i + 1) * BLOCK_BITS
  }

  /** Every bit of block `i` is set. */
  ghost predicate BlockFull(bits: set<nat>, i: nat) {
    forall b: nat :: InBlock(b, i) ==> b in bits
  }

  ghost predicate Follows(s: State, e: Event, s': State) {
    && e.thread < |s.pcs| &&
    var pc := s.pcs[e.thread];
    match e.action
    case Begin => pc.Idle? && s' == s.(pcs := s.pcs[e.thread := Scanning(0)])
    case Take(b) =>
      && pc.Scanning? && pc.block < s.n && InBlock(b, pc.block) && b !in s.bits
      && (forall c: nat :: InBlock(c, pc.block) && c < b ==> c in s.bits)
      && s' == s.(bits := s.bits + {b}, pcs := s.pcs[e.thread := Idle])
    case Skip =>
      && pc.Scanning? && pc.block < s.n && BlockFull(s.bits, pc.block)
      && s' == s.(pcs := s.pcs[e.thread := Scanning(pc.block + 1)])
    case GiveUp => pc.Scanning? && pc.block == s.n && s' == s.(pcs := s.pcs[e.thread := Idle])
    case Dealloc(b) => b in s.bits && s' == s.(bits := s.bits - {b})
  }

  ghost predicate Run(states: seq<State>, events: seq<Event>) {
    && |states| == |events| + 1
    && forall i :: 0 <= i < |events| ==> Follows(states[i], events[i], states[i + 1])
  }

  /** None of the events `i .. j` gives bit `b` back. */
  ghost predicate Kept(events: seq<Event>, i: nat, j: nat, b: nat) {
    j <= |events| && forall k :: i <= k < j ==> events[k].action != Dealloc(b)
  }

  lemma {:induction false} BitStays(states: seq<State>, events: seq<Event>, i: nat, j: nat, b: nat)
    requires Run(states, events) && i <= j <= |events| && b in states[i].bits && Kept(events, i, j, b)
    ensures b in states[j].bits
  {
    if i == j {
    } else {
      BitStays(states, events, i, j - 1, b);
      assert Follows(states[j - 1], events[j - 1], states[j]);
    }
  }

  /** Whatever the interleaving, a bit is not handed out twice unless it was given back in between. */
  lemma NotTwice(states: seq<State>, events: seq<Event>, i: nat, j: nat, b: nat)
    requires Run(states, events) && i < j < |events|
    requires events[i].action == Take(b) && events[j].action == Take(b)
    ensures exists k :: i < k < j && events[k].action == Dealloc(b)
  {
    assert Follows(states[i], events[i], states[i + 1]);
    assert Follows(states[j], events[j], states[j + 1]);
    if forall k :: i < k < j ==> events[k].action != Dealloc(b) {
      BitStays(states, events, i + 1, j, b);
    }
  }

  // ---------------------------------------------------------------------------
  // What None means
  // ---------------------------------------------------------------------------

  /** Thread `t` begins a scan at event `i`, ends it with None at event `j` and begins no other in between. */
  ghost predicate ScanFails(events: seq<Event>, i: nat, j: nat, t: nat) {
    && i < j < |events| && events[i] == Event(t, Begin) && events[j] == Event(t, GiveUp)
    && forall m :: i < m < j ==> events[m] != Event(t, Begin)
  }

  /** Bit `b` was set at some state after `i` and up to `j`. */
  ghost predicate Seen(states: seq<State>, i: nat, j: nat, b: nat) {
    exists k :: i < k <= j && k < |states| && b in states[k].bits
  }

  /** Every bit of a block that thread `t` has passed was set at some state of its scan. */
  lemma {:induction false} PassedSeen(states: seq<State>, events: seq<Event>, i: nat, j: nat, t: nat, b: nat, c: nat)
    requires Run(states, events) && i < j <= |events| && events[i] == Event(t, Begin)
    requires forall m :: i < m < j ==> events[m] != Event(t, Begin)
    requires t < |states[j].pcs| && states[j].pcs[t].Scanning? && c < states[j].pcs[t].block && InBlock(b, c)
    ensures Seen(states, i, j, b)
    decreases j
  {
    var e := events[j - 1];
    assert Follows(states[j - 1], e, states[j]);
    if j == i + 1 {
      // The scan has just begun and has passed no block.
      assert false;
    } else if e.thread == t && e.action.Skip? && states[j - 1].pcs[t].block == c {
      assert b in states[j].bits;
    } else {
      PassedSeen(states, events, i, j - 1, t, b, c);
      var k :| i < k <= j - 1 && k < |states| && b in states[k].bits;
      assert k <= j;
    }
  }

  /** Event `k` gives bit `b` back, and nobody takes it again before event `j`. */
  ghost predicate GivenBack(events: seq<Event>, k: nat, j: nat, b: nat) {
    k < j <= |events| && events[k].action == Dealloc(b) && forall m :: k < m < j ==> events[m].action != Take(b)
  }

  /** A bit that was set and is clear now was given back last. */
  lemma {:induction false} LastDealloc(states: seq<State>, events: seq<Event>, i: nat, j: nat, b: nat) returns (k: nat)
    requires Run(states, events) && i <= j <= |events| && b in states[i].bits && b !in states[j].bits
    ensures i <= k && GivenBack(events, k, j, b)
    decreases j
  {
    var e := events[j - 1];
    assert Follows(states[j - 1], e, states[j]);
    if e.action == Dealloc(b) {
      k := j - 1;
    } else {
      k := LastDealloc(states, events, i, j - 1, b);
    }
  }

  /** A bit that was given back and is not taken again stays clear. */
  lemma {:induction false} StaysClear(states: seq<State>, events: seq<Event>, k: nat, j: nat, b: nat)
    requires Run(states, events) && GivenBack(events, k, j, b)
    ensures b !in states[j].bits
    decreases j
  {
    assert Follows(states[j - 1], events[j - 1], states[j]);
    if j == k + 1 {
      assert events[j - 1].action == Dealloc(b);
    } else {
      StaysClear(states, events, k, j - 1, b);
    }
  }

  /**
   * Under every interleaving, when `alloc` returns None a bit is free if and only if it was given back during the
   * scan and not taken again.
   */
  lemma NoneLeavesFree(states: seq<State>, events: seq<Event>, i: nat, j: nat, t: nat, b: nat)
    requires Run(states, events) && ScanFails(events, i, j, t) && b < states[j].n * BLOCK_BITS
    ensures b !in states[j].bits <==> exists k :: i < k && GivenBack(events, k, j, b)
  {
    assert Follows(states[j], events[j], states[j + 1]);
    if b !in states[j].bits {
      var c := b / BLOCK_BITS;
      assert c < states[j].n && InBlock(b, c);
      PassedSeen(states, events, i, j, t, b, c);
      var k :| i < k <= j && k < |states| && b in states[k].bits;
      var d := LastDealloc(states, events, k, j, b);
    }
    if k :| i < k && GivenBack(events, k, j, b) {
      StaysClear(states, events, k, j, b);
    }
  }

  lemma InSomeBlock(b: nat, i: nat, n: nat)
    requires InBlock(b, i) && i < n
    ensures b < n * BLOCK_BITS
  {
    assert (i + 1) * BLOCK_BITS <= n * BLOCK_BITS;
  }

  /**
   * Under every interleaving, `alloc` takes a free bit of the bitmap, and below it a bit is free then if and only if it
   * was given back during the scan and not taken again.
   */
  lemma TakesLowest(states: seq<State>, events: seq<Event>, i: nat, j: nat, t: nat, b: nat, c: nat)
    requires Run(states, events) && i < j < |events| && events[i] == Event(t, Begin) && events[j] == Event(t, Take(b))
    requires (forall m :: i < m < j ==> events[m] != Event(t, Begin)) && c < b
    ensures b < states[j].n * BLOCK_BITS && b !in states[j].bits && states[j + 1].bits == states[j].bits + {b}
    ensures c !in states[j].bits <==> exists k :: i < k && GivenBack(events, k, j, c)
  {
    assert Follows(states[j], events[j], states[j + 1]);
    InSomeBlock(b, states[j].pcs[t].block, states[j].n);
    if c !in states[j].bits {
      var d := c / BLOCK_BITS;
      assert InBlock(c, d);
      assert d <= states[j].pcs[t].block;
      PassedSeen(states, events, i, j, t, c, d);
      var k :| i < k <= j && k < |states| && c in states[k].bits;
      var e := LastDealloc(states, events, k, j, c);
    }
    if k :| i < k && GivenBack(events, k, j, c) {
      StaysClear(states, events, k, j, c);
    }
  }

  /** The last scan that thread `t` began. */
  lemma {:induction false} LastBegin(events: seq<Event>, i: nat, j: nat, t: nat) returns (k: nat)
    requires i < j <= |events| && events[i] == Event(t, Begin)
    ensures i <= k < j && events[k] == Event(t, Begin) && forall m :: k < m < j ==> events[m] != Event(t, Begin)
  {
    if j == i + 1 || events[j - 1] == Event(t, Begin) {
      k := j - 1;
    } else {
      k := LastBegin(events, i, j - 1, t);
    }
  }

  /** No event of `i .. j` is a dealloc. */
  ghost predicate OnlyAllocs(events: seq<Event>, i: nat, j: nat) {
    j <= |events| && forall k :: i <= k < j ==> !events[k].action.Dealloc?
  }

  /** So if no thread gave a bit back during the scan, `alloc` returns None only when every bit is set. */
  lemma NoneMeansFull(states: seq<State>, events: seq<Event>, i: nat, j: nat, t: nat)
    requires Run(states, events) && i < j < |events| && OnlyAllocs(events, i, j)
    requires events[i] == Event(t, Begin) && events[j] == Event(t, GiveUp)
    ensures forall b :: 0 <= b < states[j].n * BLOCK_BITS ==> b in states[j].bits
  {
    var k := LastBegin(events, i, j, t);
    forall b | 0 <= b < states[j].n * BLOCK_BITS
      ensures b in states[j].bits
    {
      NoneLeavesFree(states, events, k, j, t, b);
    }
  }

  /** With a dealloc in between it may return None although a bit is free: one block, scanned just before. */
  lemma NoneThoughFree() returns (states: seq<State>, events: seq<Event>)
    ensures Run(states, events) && |events| == 4
    ensures events[0] == Event(0, Begin) && events[3] == Event(0, GiveUp)
    ensures BlockFull(states[0].bits, 0) && states[0].n == 1
    ensures 0 !in states[3].bits && states[3].n == 1
  {
    var full := set b: nat | b < BLOCK_BITS && InBlock(b, 0);
    var s0 := State(1, full, [Idle, Idle]);
    var s1 := State(1, full, [Scanning(0), Idle]);
    var s2 := State(1, full, [Scanning(1), Idle]);
    var s3 := State(1, full - {0}, [Scanning(1), Idle]);
    var s4 := State(1, full - {0}, [Idle, Idle]);
    states := [s0, s1, s2, s3, s4];
    events := [Event(0, Begin), Event(0, Skip), Event(1, Dealloc(0)), Event(0, GiveUp)];
    assert Follows(s0, events[0], s1);
    assert Follows(s1, events[1], s2);
    assert Follows(s2, events[2], s3);
    assert Follows(s3, events[3], s4);
  }
}
