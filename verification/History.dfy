/** What whole histories of CAFS operations add up to: the object against a client's view of it. */
module History {
  import opened Prelude
  import opened Layout
  import opened Sequences
  import opened IndexTree
  import opened IndexBuild
  import opened FileSystem
  import opened FsOps
  import opened InodeCache
  import opened Directory
  import opened Cafs

  // ---------------------------------------------------------------------------
  // The client's view
  // ---------------------------------------------------------------------------

  /**
   * What a client may do: create a file in the root and keep its handle, write to a file, read one by number or
   * through a kept handle, drop a handle, flush and mount again.
   */
  datatype Op = Make(name: seq<byte>) | Put(number: nat, bytes: seq<byte>) | Fetch(number: nat) | FetchHeld(k: nat)
              | Release(k: nat) | Mount

  datatype Doc = Doc(name: seq<byte>, bytes: seq<byte>)

  /**
   * Inode number `n` is `docs[n]`, the root first. `held` are the numbers of the kept handles, `makes` counts the
   * creates since the last mount, `readings` are the inodes read and what was read, oldest first.
   */
  datatype Client = Client(docs: seq<Doc>, held: seq<nat>, makes: nat, readings: seq<(nat, seq<byte>)>)

  function Start(rootName: seq<byte>): Client {
    Client([Doc(rootName, [])], [], 0, [])
  }

  /** What an operation reads. */
  function Reads(c: Client, op: Op): Option<(nat, seq<byte>)> {
    match op
    case Fetch(n) => if n < |c.docs| then Some((n, c.docs[n].bytes)) else None
    case FetchHeld(k) =>
      if k < |c.held| && c.held[k] < |c.docs| then Some((c.held[k], c.docs[c.held[k]].bytes)) else None
    case _ => None
  }

  /** What an operation does. One that CAFS cannot be asked for does nothing. */
  function Apply(c: Client, op: Op): Client {
    match op
    case Make(name) =>
      if 0 < |c.docs| <= U64_MAX && |name| <= NAME_LENGTH_LIMIT then
        c.(docs := c.docs[0 := c.docs[0].(bytes := Append(c.docs[0].bytes, |c.docs|))] + [Doc(PadName(name), [])],
           held := c.held + [|c.docs|], makes := c.makes + 1)
      else c
    case Put(n, bytes) => if n < |c.docs| then c.(docs := c.docs[n := c.docs[n].(bytes := bytes)]) else c
    case Release(k) => if k < |c.held| then c.(held := c.held[..k] + c.held[k + 1..]) else c
    case Mount => c.(held := [], makes := 0)
    case _ => c.(readings := c.readings + match Reads(c, op) case Some(r) => [r] case None => [])
  }

  function After(c: Client, ops: seq<Op>): Client {
    if ops == [] then c else Apply(After(c, ops[..|ops| - 1]), ops[|ops| - 1])
  }

  /**
   * What CAFS asks of its caller: inodes and handles that exist, sizes that the index can represent, and, as `write`
   * is coded, no write that frees blocks.
   */
  predicate Legal(c: Client, op: Op) {
    match op
    case Make(_) => c.docs != [] && AppendedSize(c.docs[0].bytes) <= L4_MAX
    case Put(n, bytes) =>
      n < |c.docs| && |bytes| <= L4_MAX && DataBlocks(|bytes|) >= DataBlocks(|c.docs[n].bytes|)
    case Fetch(n) => n < |c.docs|
    case FetchHeld(k) => k < |c.held|
    case Release(k) => k < |c.held|
    case Mount => true
  }

  /** Blocks that a file of this size occupies. */
  function BlocksFor(size: nat): nat {
    DataBlocks(size) + IndexBlockCount(IndexBlocks(size))
  }

  /** Blocks that the files occupy together. */
  function Used(docs: seq<Doc>): nat {
    if docs == [] then 0 else Used(docs[..|docs| - 1]) + BlocksFor(|docs[|docs| - 1].bytes|)
  }

  const MAX_MAKES := 15

  /** Where CAFS panics: out of inodes, blocks or slots of the inode cache, or a name too long. */
  predicate Panics(g: Geometry, c: Client, op: Op) {
    match op
    case Make(name) =>
      || |c.docs| >= InodeCount(g) || |name| > NAME_LENGTH_LIMIT || c.makes >= MAX_MAKES
      || Used(Apply(c, op).docs) > DataCount(g)
    case Put(_, _) => Used(Apply(c, op).docs) > DataCount(g)
    case _ => false
  }

  /** No operation panics. */
  ghost predicate Runs(g: Geometry, c: Client, ops: seq<Op>) {
    forall i :: 0 <= i < |ops| ==> !Panics(g, After(c, ops[..i]), ops[i])
  }

  /** Every operation, up to and with the first that panics, is one that CAFS can be asked for. */
  ghost predicate Ready(g: Geometry, c: Client, ops: seq<Op>) {
    forall i :: 0 <= i < |ops| && Runs(g, c, ops[..i]) ==> Legal(After(c, ops[..i]), ops[i])
  }

  lemma AfterOne(c: Client, ops: seq<Op>, n: nat)
    requires n < |ops|
    ensures After(c, ops[..n + 1]) == Apply(After(c, ops[..n]), ops[n])
  {
    assert ops[..n + 1][..n] == ops[..n];
    hide Apply;
  }

  lemma RunsOneMore(g: Geometry, c: Client, ops: seq<Op>, n: nat)
    requires n < |ops| && Runs(g, c, ops[..n]) && !Panics(g, After(c, ops[..n]), ops[n])
    ensures Runs(g, c, ops[..n + 1])
  {
    hide After, Panics;
    var all := ops[..n + 1];
    forall i | 0 <= i < |all|
      ensures !Panics(g, After(c, all[..i]), all[i])
    {
      if i < n {
        assert all[..i] == ops[..n][..i];
        assert !Panics(g, After(c, ops[..n][..i]), ops[..n][i]);
      } else {
        assert all[..i] == ops[..n];
      }
    }
  }

  lemma RunsPrefix(g: Geometry, c: Client, ops: seq<Op>, n: nat)
    requires n <= |ops| && Runs(g, c, ops)
    ensures Runs(g, c, ops[..n])
  {
    hide After, Panics;
    forall i | 0 <= i < n
      ensures !Panics(g, After(c, ops[..n][..i]), ops[..n][i])
    {
      assert ops[..n][..i] == ops[..i];
    }
  }

  lemma ReadyPrefix(g: Geometry, c: Client, ops: seq<Op>, n: nat)
    requires n <= |ops| && Ready(g, c, ops)
    ensures Ready(g, c, ops[..n])
  {
    hide After, Runs, Legal;
    forall i | 0 <= i < n && Runs(g, c, ops[..n][..i])
      ensures Legal(After(c, ops[..n][..i]), ops[..n][i])
    {
      assert ops[..n][..i] == ops[..i];
    }
  }

  lemma OpParts(g: Geometry, c: Client, ops: seq<Op>, n: nat)
    requires n < |ops| && Ready(g, c, ops)
    ensures Runs(g, c, ops) ==> !Panics(g, After(c, ops[..n]), ops[n])
    ensures Runs(g, c, ops[..n]) ==> Legal(After(c, ops[..n]), ops[n])
  {
    hide After, Panics, Legal;
  }

  // ---------------------------------------------------------------------------
  // What a history amounts to
  // ---------------------------------------------------------------------------

  /** The names of the files created, oldest first. */
  function Names(ops: seq<Op>): seq<seq<byte>> {
    if ops == [] then []
    else
      var n := |ops| - 1;
      Names(ops[..n]) + if ops[n].Make? then [ops[n].name] else []
  }

  /** The last bytes written to inode `n`, none if it was only created. */
  function LastPut(ops: seq<Op>, n: nat): seq<byte> {
    if ops == [] then []
    else
      var k := |ops| - 1;
      if ops[k].Put? && ops[k].number == n then ops[k].bytes else LastPut(ops[..k], n)
  }

  predicate RootUnwritten(ops: seq<Op>) {
    forall i :: 0 <= i < |ops| && ops[i].Put? ==> ops[i].number != 0
  }

  function FirstNumbers(count: nat): (r: seq<nat>)
    ensures |r| == count && forall k :: 0 <= k < count ==> r[k] == k + 1
  {
    seq(count, k => k + 1)
  }

  function ListOf(count: nat): seq<byte> {
    if count <= U64_MAX then DirBytes(FirstNumbers(count)) else []
  }

  lemma ListGrows(count: nat)
    requires count < U64_MAX
    ensures ListOf(count + 1) == Append(ListOf(count), count + 1)
  {
    assert FirstNumbers(count + 1)[..count] == FirstNumbers(count);
    hide Append;
  }

  ghost predicate FilesHold(docs: seq<Doc>, ops: seq<Op>, names: seq<seq<byte>>) {
    && |docs| == |names| + 1
    && (forall k: nat :: k < |names| ==> |names[k]| <= NAME_LENGTH_LIMIT && docs[k + 1].name == PadName(names[k]))
    && (forall n: nat :: 1 <= n < |docs| ==> docs[n].bytes == LastPut(ops, n))
    && (forall n: nat :: n >= |docs| ==> LastPut(ops, n) == [])
  }

  ghost predicate Outcome(docs: seq<Doc>, ops: seq<Op>, rootName: seq<byte>) {
    && FilesHold(docs, ops, Names(ops))
    && docs[0].name == rootName && (RootUnwritten(ops) ==> docs[0].bytes == ListOf(|Names(ops)|))
  }

  lemma LastPutOne(ops: seq<Op>, op: Op)
    ensures forall n: nat :: LastPut(ops + [op], n) == if op.Put? && op.number == n then op.bytes else LastPut(ops, n)
  {
    assert (ops + [op])[..|ops|] == ops;
  }

  lemma FilesMake(docs: seq<Doc>, ops: seq<Op>, names: seq<seq<byte>>, name: seq<byte>, root: Doc)
    requires FilesHold(docs, ops, names) && |name| <= NAME_LENGTH_LIMIT
    ensures FilesHold(docs[0 := root] + [Doc(PadName(name), [])], ops + [Make(name)], names + [name])
  {
    hide PadName;
    LastPutOne(ops, Make(name));
    var docs', names' := docs[0 := root] + [Doc(PadName(name), [])], names + [name];
    forall k: nat | k < |names'|
      ensures |names'[k]| <= NAME_LENGTH_LIMIT && docs'[k + 1].name == PadName(names'[k])
    {
      assert k < |names| ==> names'[k] == names[k];
    }
  }

  lemma FilesPut(docs: seq<Doc>, ops: seq<Op>, names: seq<seq<byte>>, n: nat, bytes: seq<byte>)
    requires FilesHold(docs, ops, names) && n < |docs|
    ensures FilesHold(docs[n := docs[n].(bytes := bytes)], ops + [Put(n, bytes)], names)
  {
    hide PadName;
    LastPutOne(ops, Put(n, bytes));
  }

  lemma FilesSame(docs: seq<Doc>, ops: seq<Op>, names: seq<seq<byte>>, op: Op)
    requires FilesHold(docs, ops, names) && !op.Put?
    ensures FilesHold(docs, ops + [op], names)
  {
    hide PadName;
    LastPutOne(ops, op);
  }

  lemma HoldsAll(docs: seq<Doc>, ops: seq<Op>, names: seq<seq<byte>>)
    requires FilesHold(docs, ops, names)
    ensures |docs| == |names| + 1
  {
  }

  lemma FilesOne(g: Geometry, c: Client, ops: seq<Op>, op: Op, names: seq<seq<byte>>)
    requires FilesHold(c.docs, ops, names) && Legal(c, op) && !Panics(g, c, op) && InodeCount(g) <= U64_MAX
    ensures FilesHold(Apply(c, op).docs, ops + [op], if op.Make? then names + [op.name] else names)
    ensures Apply(c, op).docs[0] == if op.Make? || (op.Put? && op.number == 0) then
                                      c.docs[0].(bytes := Apply(c, op).docs[0].bytes) else c.docs[0]
    ensures op.Make? ==> |names| < U64_MAX && Apply(c, op).docs[0].bytes == Append(c.docs[0].bytes, |names| + 1)
  {
    hide Append, PadName, Used, DataBlocks, FilesHold, LastPut;
    HoldsAll(c.docs, ops, names);
    match op
    case Make(name) =>
      FilesMake(c.docs, ops, names, name, c.docs[0].(bytes := Append(c.docs[0].bytes, |c.docs|)));
      HoldsAll(Apply(c, op).docs, ops + [op], names + [name]);
    case Put(n, bytes) =>
      FilesPut(c.docs, ops, names, n, bytes);
    case _ =>
      FilesSame(c.docs, ops, names, op);
  }

  lemma OneMore(ops: seq<Op>, op: Op)
    ensures Names(ops + [op]) == if op.Make? then Names(ops) + [op.name] else Names(ops)
    ensures RootUnwritten(ops + [op]) <==> RootUnwritten(ops) && (op.Put? ==> op.number != 0)
  {
    var all := ops + [op];
    assert all[..|ops|] == ops && all[|ops|] == op;
    assert forall i :: 0 <= i < |ops| ==> all[i] == ops[i];
  }

  lemma OutcomeOne(g: Geometry, c: Client, ops: seq<Op>, op: Op, rootName: seq<byte>)
    requires Outcome(c.docs, ops, rootName) && Legal(c, op) && !Panics(g, c, op) && InodeCount(g) <= U64_MAX
    ensures Outcome(Apply(c, op).docs, ops + [op], rootName)
  {
    hide Apply, Legal, Panics, Append, ListOf, Names, RootUnwritten, FilesHold;
    HoldsAll(c.docs, ops, Names(ops));
    FilesOne(g, c, ops, op, Names(ops));
    OneMore(ops, op);
    if op.Make? {
      ListGrows(|Names(ops)|);
    }
  }

  lemma NoOps(rootName: seq<byte>)
    ensures After(Start(rootName), []) == Start(rootName) && Outcome(Start(rootName).docs, [], rootName)
  {
    assert ListOf(0) == [];
  }

  /**
   * Over every history that does not panic: inode numbers are handed out 1, 2, 3, ... to the names in the order of
   * their creates, every file holds exactly the last bytes written to it, and, unless the root was overwritten, it
   * lists the numbers in that order.
   */
  lemma {:induction false} HistoryOutcome(g: Geometry, ops: seq<Op>, rootName: seq<byte>)
    requires InodeCount(g) <= U64_MAX && Ready(g, Start(rootName), ops) && Runs(g, Start(rootName), ops)
    ensures Outcome(After(Start(rootName), ops).docs, ops, rootName)
    decreases |ops|
  {
    hide *;
    var c := Start(rootName);
    if ops == [] {
      NoOps(rootName);
    } else {
      var n := |ops| - 1;
      RunsPrefix(g, c, ops, n);
      ReadyPrefix(g, c, ops, n);
      HistoryOutcome(g, ops[..n], rootName);
      OpParts(g, c, ops, n);
      OutcomeOne(g, After(c, ops[..n]), ops[..n], ops[n], rootName);
      AfterOne(c, ops, n);
      assert ops[..n] + [ops[n]] == ops && ops[..n + 1] == ops;
    }
  }

  ghost predicate HeldOk(c: Client) {
    forall k :: 0 <= k < |c.held| ==> 1 <= c.held[k] < |c.docs|
  }

  lemma HeldOne(c: Client, op: Op)
    requires HeldOk(c)
    ensures HeldOk(Apply(c, op))
  {
    hide Append, PadName;
  }

  /** Kept handles are of files that exist. */
  lemma {:induction false} HeldExist(c: Client, ops: seq<Op>)
    requires HeldOk(c)
    ensures HeldOk(After(c, ops))
    decreases |ops|
  {
    if ops == [] {
    } else {
      HeldExist(c, ops[..|ops| - 1]);
      HeldOne(After(c, ops[..|ops| - 1]), ops[|ops| - 1]);
      hide Apply, HeldOk;
    }
  }

  /** Every read of a file returns the last bytes written to it before, whatever was mounted or dropped in between. */
  lemma ReadsLastWrite(g: Geometry, ops: seq<Op>, i: nat, rootName: seq<byte>)
    requires InodeCount(g) <= U64_MAX && Ready(g, Start(rootName), ops) && Runs(g, Start(rootName), ops)
    requires i < |ops| && (ops[i].Fetch? || ops[i].FetchHeld?)
    ensures var c := After(Start(rootName), ops[..i]);
            && Reads(c, ops[i]).Some?
            && After(Start(rootName), ops[..i + 1]).readings == c.readings + [Reads(c, ops[i]).value]
            && var (n, bytes) := Reads(c, ops[i]).value;
               && n == (if ops[i].Fetch? then ops[i].number else c.held[ops[i].k])
               && (n != 0 ==> bytes == LastPut(ops[..i], n))
  {
    var start := Start(rootName);
    RunsPrefix(g, start, ops, i);
    ReadyPrefix(g, start, ops, i);
    HistoryOutcome(g, ops[..i], rootName);
    assert Legal(After(start, ops[..i]), ops[i]);
    AfterOne(start, ops, i);
    HeldExist(start, ops[..i]);
    hide After, Runs, Ready, Names;
  }

  // ---------------------------------------------------------------------------
  // How many blocks the files occupy
  // ---------------------------------------------------------------------------

  /** The files are those the client knows. */
  ghost predicate Shows(files: Files, docs: seq<Doc>) {
    && (forall n: nat :: n in files <==> n < |docs|)
    && forall n: nat :: n < |docs| ==>
                          && files[n].kind == (if n == 0 then Dir else File)
                          && files[n].name == docs[n].name && files[n].bytes == docs[n].bytes
  }

  ghost function OwnedBelow(files: Files, k: nat): set<nat> {
    set n, id | n in files && n < k && id in files[n].Owned() :: id
  }

  lemma {:induction false} CountDistinct(ids: seq<nat>)
    requires Distinct(ids)
    ensures |Elements(ids)| == |ids|
  {
    if ids == [] {
    } else {
      var n := |ids| - 1;
      CountDistinct(ids[..n]);
      assert ids == ids[..n] + [ids[n]];
      assert Elements(ids) == Elements(ids[..n]) + {ids[n]};
    }
  }

  lemma SizeOfFile(x: Indexed)
    requires x.Valid()
    ensures |Elements(x.Owned())| == BlocksFor(x.meta.size)
  {
    CountDistinct(x.Owned());
    hide Linked, LevelsOf, IndexBlocks, DataBlocks, Pad;
  }

  lemma OwnedOneMore(files: Files, k: nat)
    requires NoSharing(files) && k in files
    ensures OwnedBelow(files, k + 1) == OwnedBelow(files, k) + Elements(files[k].Owned())
    ensures OwnedBelow(files, k) !! Elements(files[k].Owned())
  {
    forall id
      ensures id in OwnedBelow(files, k + 1) <==> id in OwnedBelow(files, k) || id in files[k].Owned()
    {
      if id in OwnedBelow(files, k + 1) {
        var n :| n in files && n < k + 1 && id in files[n].Owned();
        assert n < k ==> id in OwnedBelow(files, k);
      }
      if id in files[k].Owned() {
        assert k < k + 1;
      }
    }
    assert forall id :: id in Elements(files[k].Owned()) <==> id in files[k].Owned();
  }

  lemma UsedOne(docs: seq<Doc>, n: nat)
    requires n < |docs|
    ensures Used(docs[..n + 1]) == Used(docs[..n]) + BlocksFor(|docs[n].bytes|)
  {
    assert docs[..n + 1][..n] == docs[..n];
    hide BlocksFor;
  }

  lemma ShownAt(files: Files, docs: seq<Doc>, n: nat)
    requires Shows(files, docs) && n < |docs|
    ensures n in files && files[n].bytes == docs[n].bytes && files[n].name == docs[n].name
  {
  }

  lemma SizeAt(s: Store, g: Geometry, files: Files, n: nat)
    requires ContentsOk(s, g, files) && n in files
    ensures HasInode(s, g, n) && MetaAt(s, g, n).size == |files[n].bytes|
  {
    assert ContentOk(s, g, n, files[n]);
  }

  lemma {:induction false} OwnedUpTo(s: Store, g: Geometry, files: Files, docs: seq<Doc>, k: nat)
    requires ShapesOk(s, g, files) && ContentsOk(s, g, files) && Shows(files, docs) && k <= |docs|
    ensures |OwnedBelow(files, k)| == Used(docs[..k])
    decreases k
  {
    if k == 0 {
      assert OwnedBelow(files, 0) == {};
    } else {
      var n := k - 1;
      OwnedUpTo(s, g, files, docs, n);
      hide *;
      UsedOne(docs, n);
      ShownAt(files, docs, n);
      ShapeAt(s, g, files, n);
      SizeAt(s, g, files, n);
      var x := Indexed(s, MetaAt(s, g, n), files[n].idx, files[n].dat);
      SizeOfFile(x);
      SameOwned(x, files[n]);
      OwnedOneMore(files, n);
      assert |OwnedBelow(files, k)| == |OwnedBelow(files, n)| + |Elements(files[n].Owned())|;
    }
  }

  lemma AllBelow(files: Files, docs: seq<Doc>)
    requires Shows(files, docs)
    ensures OwnedBelow(files, |docs|) == OwnedIds(files)
  {
  }

  /** The blocks that the files own are as many as their sizes ask for. */
  lemma OwnedAreUsed(s: Store, g: Geometry, files: Files, docs: seq<Doc>)
    requires FsOk(s, g, files) && Shows(files, docs)
    ensures |OwnedIds(files)| == Used(docs)
  {
    hide *;
    FsParts(s, g, files);
    OwnedUpTo(s, g, files, docs, |docs|);
    AllBelow(files, docs);
    assert docs[..|docs|] == docs;
  }

  lemma {:induction false} UsedAfterPut(docs: seq<Doc>, n: nat, d: Doc)
    requires n < |docs|
    ensures Used(docs[n := d]) + BlocksFor(|docs[n].bytes|) == Used(docs) + BlocksFor(|d.bytes|)
    decreases |docs|
  {
    hide BlocksFor;
    var k := |docs| - 1;
    if n == k {
      assert docs[n := d][..k] == docs[..k];
    } else {
      assert docs[n := d][..k] == docs[..k][n := d];
      UsedAfterPut(docs[..k], n, d);
    }
  }

  /** What a change of size that frees nothing adds to the blocks of a file is what it takes from the bitmap. */
  lemma TakenIsAdded(size: nat, newSize: nat)
    requires DataBlocks(newSize) >= DataBlocks(size)
    ensures BlocksFor(newSize) == BlocksFor(size) + Need(size, newSize)
  {
    if newSize <= size {
      CountsAreMonotone(newSize, size);
      SameDataSameIndex(size, newSize);
    }
    hide DataBlocks, IndexBlocks;
  }

  lemma RoomToPut(s: Store, g: Geometry, files: Files, docs: seq<Doc>, n: nat, d: Doc)
    requires FsOk(s, g, files) && Shows(files, docs) && n < |docs| && DataBlocks(|d.bytes|) >= DataBlocks(|docs[n].bytes|)
    ensures n in files && (HasBlocks(g, files, n, |d.bytes|) <==> Used(docs[n := d]) <= DataCount(g))
  {
    OwnedAreUsed(s, g, files, docs);
    UsedAfterPut(docs, n, d);
    TakenIsAdded(|docs[n].bytes|, |d.bytes|);
    ShownAt(files, docs, n);
    hide FsOk, Shows, OwnedIds, Used, BlocksFor, Need, DataBlocks;
  }

  lemma EmptyAddsNone(docs: seq<Doc>, d: Doc)
    requires d.bytes == []
    ensures Used(docs + [d]) == Used(docs)
  {
    assert (docs + [d])[..|docs|] == docs;
  }

  lemma {:induction false} CountBelow(numbers: set<nat>, k: nat)
    requires forall n: nat :: n in numbers <==> n < k
    ensures |numbers| == k
    decreases k
  {
    if k == 0 {
      assert numbers == {};
    } else {
      CountBelow(numbers - {k - 1}, k - 1);
    }
  }

  lemma ShownCount(files: Files, docs: seq<Doc>)
    requires Shows(files, docs)
    ensures |files| == |docs|
  {
    CountBelow(files.Keys, |docs|);
  }

  // ---------------------------------------------------------------------------
  // The same history on the object
  // ---------------------------------------------------------------------------

  /** The object holds the client's files and handles, and no slot is stuck but the two of each file created. */
  ghost predicate Tracks(fs: CAFS, held: seq<CaInode>, c: Client)
    reads fs
  {
    && Shows(fs.files, c.docs)
    && fs.handles == multiset(held) && |held| == |c.held|
    && (forall k :: 0 <= k < |held| ==> held[k].number == c.held[k] && held[k] in fs.created)
    && Stuck(fs.cache, fs.handles) == 2 * c.makes && c.makes <= MAX_MAKES && !IsStuck(fs.cache, fs.handles, 0)
  }

  lemma TracksParts(fs: CAFS, held: seq<CaInode>, c: Client)
    requires Tracks(fs, held, c)
    ensures Shows(fs.files, c.docs) && fs.handles == multiset(held) && |held| == |c.held|
    ensures forall k :: 0 <= k < |held| ==> held[k].number == c.held[k] && held[k] in fs.created
    ensures Stuck(fs.cache, fs.handles) == 2 * c.makes && c.makes <= MAX_MAKES && !IsStuck(fs.cache, fs.handles, 0)
    ensures SlotsToCreate(fs.cache, fs.handles, 0) < INODE_CACHE_SIZE <==> c.makes < MAX_MAKES
    ensures Stuck(fs.cache, fs.handles) < INODE_CACHE_SIZE
  {
  }

  lemma TracksIntro(fs: CAFS, held: seq<CaInode>, c: Client)
    requires Shows(fs.files, c.docs) && fs.handles == multiset(held) && |held| == |c.held|
    requires forall k :: 0 <= k < |held| ==> held[k].number == c.held[k] && held[k] in fs.created
    requires Stuck(fs.cache, fs.handles) == 2 * c.makes && c.makes <= MAX_MAKES && !IsStuck(fs.cache, fs.handles, 0)
    ensures Tracks(fs, held, c)
  {
  }

  /** The root after one more create. */
  function Enlisted(c: Client): Doc
    requires 0 < |c.docs| <= U64_MAX
  {
    c.docs[0].(bytes := Append(c.docs[0].bytes, |c.docs|))
  }

  lemma AppendSize(bytes: seq<byte>, n: nat)
    requires n <= U64_MAX
    ensures |Append(bytes, n)| == AppendedSize(bytes) && |Append(bytes, n)| >= |bytes|
  {
    hide Encode;
  }

  lemma MadeUses(c: Client, name: seq<byte>)
    requires 0 < |c.docs| <= U64_MAX && |name| <= NAME_LENGTH_LIMIT
    ensures Used(Apply(c, Make(name)).docs) == Used(c.docs[0 := Enlisted(c)])
    ensures |Enlisted(c).bytes| == AppendedSize(c.docs[0].bytes) && |Enlisted(c).bytes| >= |c.docs[0].bytes|
  {
    hide Used, PadName, Append;
    EmptyAddsNone(c.docs[0 := Enlisted(c)], Doc(PadName(name), []));
    AppendSize(c.docs[0].bytes, |c.docs|);
  }

  lemma MakePanics(g: Geometry, c: Client, name: seq<byte>)
    ensures Panics(g, c, Make(name)) <==>
            || |c.docs| >= InodeCount(g) || |name| > NAME_LENGTH_LIMIT || c.makes >= MAX_MAKES
            || Used(Apply(c, Make(name)).docs) > DataCount(g)
    ensures Legal(c, Make(name)) ==> c.docs != [] && AppendedSize(c.docs[0].bytes) <= L4_MAX
  {
    hide Used, Apply;
  }

  /** When the client's create finds room. */
  lemma RoomToMake(s: Store, g: Geometry, files: Files, c: Client, name: seq<byte>)
    requires FsOk(s, g, files) && Shows(files, c.docs) && Legal(c, Make(name)) && InodeCount(g) <= U64_MAX
    ensures 0 in files && AppendedSize(files[0].bytes) <= L4_MAX
    ensures !Panics(g, c, Make(name)) <==>
            && |files| < InodeCount(g) && |name| <= NAME_LENGTH_LIMIT && c.makes < MAX_MAKES
            && HasBlocks(g, files, 0, AppendedSize(files[0].bytes))
  {
    hide *;
    MakePanics(g, c, name);
    ShownCount(files, c.docs);
    ShownAt(files, c.docs, 0);
    if |files| < InodeCount(g) && |name| <= NAME_LENGTH_LIMIT {
      MadeUses(c, name);
      GrowthOnly(|c.docs[0].bytes|, |Enlisted(c).bytes|);
      RoomToPut(s, g, files, c.docs, 0, Enlisted(c));
    }
  }

  lemma ShowsMade(files: Files, files': Files, c: Client, name: seq<byte>, n: nat)
    requires Shows(files, c.docs) && |name| <= NAME_LENGTH_LIMIT && Entered(files, files', 0, n, PadName(name))
    ensures n == |c.docs| && Shows(files', Apply(c, Make(name)).docs)
    ensures Apply(c, Make(name)).held == c.held + [n] && Apply(c, Make(name)).makes == c.makes + 1
  {
    assert n > |c.docs| ==> |c.docs| in files;
    hide Append, PadName;
  }

  lemma ShowsPut(files: Files, files': Files, c: Client, n: nat, bytes: seq<byte>)
    requires Shows(files, c.docs) && Rewritten(files, files', n, bytes)
    ensures n < |c.docs| && Shows(files', Apply(c, Put(n, bytes)).docs)
    ensures Apply(c, Put(n, bytes)) == c.(docs := Apply(c, Put(n, bytes)).docs)
  {
  }

  /** `create` in the root. */
  method PerformMake(fs: CAFS, held: seq<CaInode>, name: seq<byte>, ghost c: Client) returns (ok: bool, held': seq<CaInode>)
    requires fs.Valid() && Tracks(fs, held, c) && Legal(c, Make(name)) && InodeCount(fs.g) <= U64_MAX
    modifies fs, fs.cm, (set o | o in fs.cache)
    ensures ok <==> !Panics(fs.g, c, Make(name))
    ensures ok ==>
              && fs.Valid() && Tracks(fs, held', Apply(c, Make(name)))
              && forall o :: o in fs.cache ==> o in old(fs.cache) || fresh(o)
  {
    hide *;
    fs.Elim();
    TracksParts(fs, held, c);
    RoomToMake(fs.cm.view, fs.g, fs.files, c, name);
    ghost var files := fs.files;
    var r := fs.Create(0, name);
    ok, held' := r.Some?, held;
    if ok {
      held' := held + [r.value];
      ShowsMade(files, fs.files, c, name, r.value.number);
      TracksIntro(fs, held', Apply(c, Make(name)));
    }
  }

  lemma RoomForPut(s: Store, g: Geometry, files: Files, c: Client, n: nat, bytes: seq<byte>)
    requires FsOk(s, g, files) && Shows(files, c.docs) && Legal(c, Put(n, bytes))
    ensures n in files && |bytes| <= L4_MAX && DataBlocks(|bytes|) >= DataBlocks(|files[n].bytes|)
    ensures !Panics(g, c, Put(n, bytes)) <==> HasBlocks(g, files, n, |bytes|)
  {
    ShownAt(files, c.docs, n);
    RoomToPut(s, g, files, c.docs, n, c.docs[n].(bytes := bytes));
    hide FsOk, Shows, HasBlocks, Used, DataBlocks;
  }

  lemma StillFree(before: seq<CaInode>, handles: multiset<CaInode>, after: seq<CaInode>, n: nat)
    requires NoneStuckMore(before, handles, after) && !IsStuck(before, handles, n)
    ensures !IsStuck(after, handles, n)
  {
  }

  /** `write` to a file. */
  method PerformPut(fs: CAFS, held: seq<CaInode>, n: nat, bytes: seq<byte>, ghost c: Client) returns (ok: bool)
    requires fs.Valid() && Tracks(fs, held, c) && Legal(c, Put(n, bytes))
    modifies fs, fs.cm, (set o | o in fs.cache)
    ensures ok <==> !Panics(fs.g, c, Put(n, bytes))
    ensures ok ==>
              && fs.Valid() && Tracks(fs, held, Apply(c, Put(n, bytes)))
              && forall o :: o in fs.cache ==> o in old(fs.cache) || fresh(o)
  {
    hide *;
    fs.Elim();
    TracksParts(fs, held, c);
    RoomForPut(fs.cm.view, fs.g, fs.files, c, n, bytes);
    ghost var files, cache := fs.files, fs.cache;
    ok := fs.Write(n, bytes, 0);
    if ok {
      ShowsPut(files, fs.files, c, n, bytes);
      StillFree(cache, fs.handles, fs.cache, 0);
      TracksIntro(fs, held, Apply(c, Put(n, bytes)));
    }
  }

  lemma Fetched(c: Client, op: Op)
    requires Legal(c, op) && HeldOk(c) && (op.Fetch? || op.FetchHeld?)
    ensures Reads(c, op).Some? && Apply(c, op) == c.(readings := c.readings + [Reads(c, op).value])
    ensures op.Fetch? ==> op.number < |c.docs| && Reads(c, op).value == (op.number, c.docs[op.number].bytes)
    ensures op.FetchHeld? ==>
              && op.k < |c.held| && c.held[op.k] < |c.docs|
              && Reads(c, op).value == (c.held[op.k], c.docs[c.held[op.k]].bytes)
  {
  }

  lemma TakenAndDropped(handles: multiset<CaInode>, o: CaInode)
    ensures handles + multiset{o} - multiset{o} == handles
  {
  }

  /** A read by number: the inode is loaded and dropped again. */
  method PerformFetch(fs: CAFS, held: seq<CaInode>, n: nat, ghost c: Client) returns (bytes: seq<byte>)
    requires fs.Valid() && Tracks(fs, held, c) && n < |c.docs|
    modifies fs`cache, fs`handles, fs.cm
    ensures fs.Valid() && bytes == c.docs[n].bytes && Tracks(fs, held, c)
    ensures forall o :: o in fs.cache ==> o in old(fs.cache) || fresh(o)
  {
    hide *;
    TracksParts(fs, held, c);
    ShownAt(fs.files, c.docs, n);
    ghost var cache := fs.cache;
    var r := fs.CaInodeOf(n);
    bytes := fs.Data(r.value);
    fs.Drop(r.value);
    TakenAndDropped(multiset(held), r.value);
    StillFree(cache, fs.handles, fs.cache, 0);
    TracksIntro(fs, held, c);
  }

  /** Dropping a handle of an object that two slots of the cache refer to frees none of them. */
  lemma DropDoubled(cache: seq<CaInode>, handles: multiset<CaInode>, o: CaInode)
    requires multiset(cache)[o] >= 2
    ensures Stuck(cache, handles - multiset{o}) == Stuck(cache, handles)
    ensures forall n: nat :: IsStuck(cache, handles - multiset{o}, n) ==> IsStuck(cache, handles, n)
  {
    var handles' := handles - multiset{o};
    assert Evictable(cache, handles') == Evictable(cache, handles);
    forall n: nat | IsStuck(cache, handles', n)
      ensures IsStuck(cache, handles, n)
    {
      var p :| p in cache && p.number == n && Strong(cache, handles', p) >= 2;
      assert Strong(cache, handles, p) >= 2;
    }
  }

  lemma WithoutOne(held: seq<CaInode>, k: nat)
    requires k < |held|
    ensures multiset(held[..k] + held[k + 1..]) == multiset(held) - multiset{held[k]}
  {
    assert held == held[..k] + [held[k]] + held[k + 1..];
  }

  lemma ReleasedIs(c: Client, k: nat)
    requires Legal(c, Release(k))
    ensures k < |c.held| && Apply(c, Release(k)) == c.(held := c.held[..k] + c.held[k + 1..])
  {
  }

  lemma DoubledAt(created: set<CaInode>, cache: seq<CaInode>, o: CaInode)
    requires Doubled(created, cache) && o in created
    ensures multiset(cache)[o] >= 2
  {
  }

  method PerformRelease(fs: CAFS, held: seq<CaInode>, k: nat, ghost c: Client) returns (held': seq<CaInode>)
    requires fs.Valid() && Tracks(fs, held, c) && Legal(c, Release(k))
    modifies fs`handles
    ensures fs.Valid() && Tracks(fs, held', Apply(c, Release(k)))
  {
    hide *;
    ReleasedIs(c, k);
    TracksParts(fs, held, c);
    fs.Elim();
    DoubledAt(fs.created, fs.cache, held[k]);
    DropDoubled(fs.cache, fs.handles, held[k]);
    WithoutOne(held, k);
    fs.Drop(held[k]);
    held' := held[..k] + held[k + 1..];
    TracksIntro(fs, held', Apply(c, Release(k)));
  }

  lemma MountedIs(c: Client)
    ensures Apply(c, Mount) == c.(held := [], makes := 0)
  {
  }

  lemma NoneStuck()
    ensures Stuck<CaInode>([], multiset{}) == 0 && !IsStuck([], multiset{}, 0)
  {
  }

  method PerformMount(fs: CAFS, held: seq<CaInode>, ghost c: Client) returns (again: CAFS)
    requires fs.Valid() && Tracks(fs, held, c)
    modifies fs.cm
    ensures fresh(again) && fresh(again.cm) && again.Valid() && again.g == fs.g && again.cache == []
    ensures Tracks(again, [], Apply(c, Mount))
  {
    hide *;
    TracksParts(fs, held, c);
    MountedIs(c);
    NoneStuck();
    again := Remount(fs);
    ghost var none: seq<CaInode> := [];
    assert again.handles == multiset(none);
    TracksIntro(again, none, Apply(c, Mount));
  }

  lemma NeverPanics(g: Geometry, c: Client, op: Op)
    requires !op.Make? && !op.Put?
    ensures !Panics(g, c, op)
  {
  }

  lemma ReadsNothing(c: Client, op: Op)
    requires !op.Fetch? && !op.FetchHeld?
    ensures Reads(c, op) == None && Apply(c, op).readings == c.readings
  {
    hide Append, PadName;
  }

  lemma HandleExists(fs: CAFS, held: seq<CaInode>, c: Client, k: nat)
    requires Tracks(fs, held, c) && k < |held|
    ensures held[k] in fs.handles && held[k].number == c.held[k]
  {
    assert held[k] in multiset(held);
  }

  method PerformRead(fs: CAFS, held: seq<CaInode>, op: Op, ghost c: Client) returns (read: (nat, seq<byte>))
    requires fs.Valid() && Tracks(fs, held, c) && Legal(c, op) && HeldOk(c) && (op.Fetch? || op.FetchHeld?)
    modifies fs`cache, fs`handles, fs.cm
    ensures fs.Valid() && Tracks(fs, held, Apply(c, op)) && Reads(c, op) == Some(read)
    ensures forall o :: o in fs.cache ==> o in old(fs.cache) || fresh(o)
  {
    hide *;
    Fetched(c, op);
    TracksParts(fs, held, c);
    if op.Fetch? {
      var bytes := PerformFetch(fs, held, op.number, c);
      read := (op.number, bytes);
    } else {
      HandleExists(fs, held, c, op.k);
      var bytes := fs.Data(held[op.k]);
      ShownAt(fs.files, c.docs, c.held[op.k]);
      read := (held[op.k].number, bytes);
    }
    TracksParts(fs, held, c);
    TracksIntro(fs, held, Apply(c, op));
  }

  /** One operation on the object; `ok` is false where it panics. */
  method Perform(fs: CAFS, held: seq<CaInode>, op: Op, ghost c: Client)
    returns (ok: bool, fs': CAFS, held': seq<CaInode>, read: Option<(nat, seq<byte>)>)
    requires fs.Valid() && Tracks(fs, held, c) && Legal(c, op) && HeldOk(c) && InodeCount(fs.g) <= U64_MAX
    modifies fs, fs.cm, (set o | o in fs.cache)
    ensures ok <==> !Panics(fs.g, c, op)
    ensures ok ==>
              && fs'.Valid() && fs'.g == fs.g && Tracks(fs', held', Apply(c, op)) && read == Reads(c, op)
              && (fs' == fs || fresh(fs')) && (fs'.cm == fs.cm || fresh(fs'.cm))
              && forall o :: o in fs'.cache ==> o in old(fs.cache) || fresh(o)
  {
    hide *;
    ok, fs', held', read := true, fs, held, None;
    if op.Make? {
      ReadsNothing(c, op);
      ok, held' := PerformMake(fs, held, op.name, c);
    } else if op.Put? {
      ReadsNothing(c, op);
      ok := PerformPut(fs, held, op.number, op.bytes, c);
    } else {
      NeverPanics(fs.g, c, op);
      if op.Fetch? || op.FetchHeld? {
        var r := PerformRead(fs, held, op, c);
        read := Some(r);
      } else if op.Release? {
        ReadsNothing(c, op);
        held' := PerformRelease(fs, held, op.k, c);
      } else {
        ReadsNothing(c, op);
        fs' := PerformMount(fs, held, c);
        held' := [];
      }
    }
  }

  lemma NothingYet(g: Geometry, c: Client)
    ensures After(c, []) == c && Runs(g, c, [])
  {
  }

  lemma ReadMore(c: Client, op: Op)
    ensures Apply(c, op).readings == c.readings + match Reads(c, op) case Some(r) => [r] case None => []
  {
    hide Append, PadName;
  }

  /**
   * Any sequence of operations on a mounted file system: it panics exactly where the client's view says, and until
   * then every read returns what the client's view has, through whatever handle, eviction and mount.
   */
  method Replay(start: CAFS, handles: seq<CaInode>, ops: seq<Op>, ghost c0: Client)
    returns (fs: CAFS, done: nat, readings: seq<(nat, seq<byte>)>)
    requires start.Valid() && Tracks(start, handles, c0) && HeldOk(c0) && c0.readings == []
    requires InodeCount(start.g) <= U64_MAX && Ready(start.g, c0, ops)
    modifies start, start.cm, (set o | o in start.cache)
    ensures done <= |ops| && Runs(start.g, c0, ops[..done])
    ensures done < |ops| ==> Panics(start.g, After(c0, ops[..done]), ops[done])
    ensures readings == After(c0, ops[..done]).readings
    ensures done == |ops| ==> fs.Valid() && Shows(fs.files, After(c0, ops).docs)
  {
    hide *;
    ghost var c := c0;
    fs, done, readings := start, 0, [];
    var held := handles;
    NothingYet(start.g, c0);
    assert ops[..0] == [];
    while done < |ops|
      invariant done <= |ops| && fs.Valid() && Tracks(fs, held, c) && fs.g == start.g
      invariant c == After(c0, ops[..done]) && Runs(fs.g, c0, ops[..done]) && readings == c.readings
      invariant (fs == start || fresh(fs)) && (fs.cm == start.cm || fresh(fs.cm))
      invariant forall o :: o in fs.cache ==> o in old(start.cache) || fresh(o)
    {
      OpParts(fs.g, c0, ops, done);
      HeldExist(c0, ops[..done]);
      AfterOne(c0, ops, done);
      var ok, fs', held', read := Perform(fs, held, ops[done], c);
      if !ok { return; }
      RunsOneMore(fs.g, c0, ops, done);
      ReadMore(c, ops[done]);
      c := Apply(c, ops[done]);
      if read.Some? { readings := readings + [read.value]; }
      fs, held, done := fs', held', done + 1;
    }
    assert ops[..|ops|] == ops;
    TracksParts(fs, held, c);
  }

  lemma OneSlot(cache: seq<CaInode>)
    requires |cache| == 1
    ensures Stuck(cache, multiset{}) == 0 && !IsStuck(cache, multiset{}, 0)
  {
    var o := cache[0];
    assert cache == [o];
    assert Evictable(cache, multiset{}) == {o};
  }

  lemma StartShown(files: Files, rootName: seq<byte>)
    requires files == map[0 := NewFile(Dir, rootName)]
    ensures Shows(files, Start(rootName).docs) && HeldOk(Start(rootName))
    ensures Start(rootName).held == [] && Start(rootName).makes == 0 <= MAX_MAKES && Start(rootName).readings == []
  {
  }

  /** The same from the formatting of a device on: reads return the last bytes written, files hold them. */
  method FormatAndReplay(device: Store, totalBlocks: nat, inodeBitmapBlocks: nat, ops: seq<Op>)
    returns (fs: CAFS, done: nat, readings: seq<(nat, seq<byte>)>)
    requires BigEnough(totalBlocks, inodeBitmapBlocks) && inodeBitmapBlocks > 0
    requires forall id: nat :: id in device <==> id < totalBlocks
    requires InodeCount(Plan(totalBlocks, inodeBitmapBlocks)) <= U64_MAX
    requires Ready(Plan(totalBlocks, inodeBitmapBlocks), Start(PadName(ROOT_NAME)), ops)
    ensures var g, c := Plan(totalBlocks, inodeBitmapBlocks), Start(PadName(ROOT_NAME));
            && done <= |ops| && Runs(g, c, ops[..done])
            && (done < |ops| ==> Panics(g, After(c, ops[..done]), ops[done]))
            && readings == After(c, ops[..done]).readings
            && (done == |ops| ==>
                  fs.Valid() && Shows(fs.files, After(c, ops).docs) && Outcome(After(c, ops).docs, ops, PadName(ROOT_NAME)))
  {
    hide *;
    RootName();
    var start := new CAFS.Init(device, totalBlocks, inodeBitmapBlocks);
    OneSlot(start.cache);
    StartShown(start.files, PadName(ROOT_NAME));
    TracksIntro(start, [], Start(PadName(ROOT_NAME)));
    fs, done, readings := Replay(start, [], ops, Start(PadName(ROOT_NAME)));
    if done == |ops| {
      assert ops[..done] == ops;
      HistoryOutcome(start.g, ops, PadName(ROOT_NAME));
    }
  }

  // ---------------------------------------------------------------------------
  // A history on the geometry of `fake_fs`: 20480 blocks, 2 inode bitmap blocks
  // ---------------------------------------------------------------------------

  lemma SmallBlocks(size: nat)
    requires size <= BLOCK_SIZE
    ensures BlocksFor(size) <= 1 && DataBlocks(size) >= DataBlocks(0)
  {
    GrowthOnly(0, size);
  }

  lemma {:induction false} SmallUsed(docs: seq<Doc>)
    requires forall n :: 0 <= n < |docs| ==> |docs[n].bytes| <= BLOCK_SIZE
    ensures Used(docs) <= |docs|
    decreases |docs|
  {
    if docs == [] {
    } else {
      SmallUsed(docs[..|docs| - 1]);
      SmallBlocks(|docs[|docs| - 1].bytes|);
      hide BlocksFor;
    }
  }

  lemma FakeGeometry()
    ensures BigEnough(20480, 2)
    ensures InodeCount(Plan(20480, 2)) == 8192 <= U64_MAX && DataCount(Plan(20480, 2)) == 8192
  {
    PlanIsOk(20480, 2);
  }

  lemma OpGrows(g: Geometry, c: Client, ops: seq<Op>, op: Op)
    requires Ready(g, c, ops) && Runs(g, c, ops) && Legal(After(c, ops), op) && !Panics(g, After(c, ops), op)
    ensures Ready(g, c, ops + [op]) && Runs(g, c, ops + [op]) && After(c, ops + [op]) == Apply(After(c, ops), op)
  {
    hide Legal, Panics, Apply;
    var all := ops + [op];
    assert all[..|ops|] == ops;
    forall i | 0 <= i < |all|
      ensures !Panics(g, After(c, all[..i]), all[i]) && Legal(After(c, all[..i]), all[i])
    {
      if i < |ops| {
        assert all[..i] == ops[..i];
        RunsPrefix(g, c, ops, i);
      }
    }
  }

  lemma MadeRoot(c: Client, name: seq<byte>)
    requires 0 < |c.docs| <= U64_MAX && |name| <= NAME_LENGTH_LIMIT
    ensures Apply(c, Make(name)).docs == c.docs[0 := Enlisted(c)] + [Doc(PadName(name), [])]
  {
    hide Append, PadName;
  }

  lemma SmallMake(c: Client, name: seq<byte>)
    requires 1 <= |c.docs| <= 3 && |name| <= NAME_LENGTH_LIMIT && c.makes < MAX_MAKES
    requires forall n :: 0 <= n < |c.docs| ==> |c.docs[n].bytes| <= if n == 0 then 200 else BLOCK_SIZE
    ensures BigEnough(20480, 2) && Legal(c, Make(name)) && !Panics(Plan(20480, 2), c, Make(name))
    ensures |Apply(c, Make(name)).docs[0].bytes| <= |c.docs[0].bytes| + 1 + NUMBER_LEN
  {
    hide Apply, Panics, Used, Append, Plan, InodeCount, DataCount, Enlisted;
    FakeGeometry();
    MakePanics(Plan(20480, 2), c, name);
    MadeUses(c, name);
    MadeRoot(c, name);
    SmallUsed(c.docs[0 := Enlisted(c)]);
  }

  lemma SmallPut(c: Client, n: nat, bytes: seq<byte>)
    requires n < |c.docs| <= 3 && |bytes| <= BLOCK_SIZE && c.docs[n].bytes == []
    requires forall n :: 0 <= n < |c.docs| ==> |c.docs[n].bytes| <= BLOCK_SIZE
    ensures BigEnough(20480, 2) && Legal(c, Put(n, bytes)) && !Panics(Plan(20480, 2), c, Put(n, bytes))
  {
    FakeGeometry();
    SmallBlocks(|bytes|);
    SmallUsed(Apply(c, Put(n, bytes)).docs);
    hide Used, Plan, DataCount, DataBlocks;
  }

  lemma NothingReady(g: Geometry, c: Client)
    ensures Ready(g, c, [])
  {
  }

  /** Two creates, a write, a mount and a read, which returns what was written. */
  lemma FiveOps(a: seq<byte>, b: seq<byte>, bytes: seq<byte>, rootName: seq<byte>)
    requires |a| <= NAME_LENGTH_LIMIT && |b| <= NAME_LENGTH_LIMIT && |bytes| <= BLOCK_SIZE
    ensures BigEnough(20480, 2)
    ensures var g, c, ops := Plan(20480, 2), Start(rootName), [Make(a), Put(1, bytes), Make(b), Mount, Fetch(1)];
            Ready(g, c, ops) && Runs(g, c, ops) && After(c, ops).readings == [(1, bytes)]
  {
    FakeGeometry();
    hide Append, PadName, Plan, InodeCount, DataCount, Used, DataBlocks, Ready, Runs, After, Panics;
    var g, c := Plan(20480, 2), Start(rootName);
    NothingYet(g, c);
    NothingReady(g, c);
    SmallMake(c, a);
    OpGrows(g, c, [], Make(a));
    var c1, ops1 := Apply(c, Make(a)), [] + [Make(a)];
    SmallPut(c1, 1, bytes);
    OpGrows(g, c, ops1, Put(1, bytes));
    var c2, ops2 := Apply(c1, Put(1, bytes)), ops1 + [Put(1, bytes)];
    SmallMake(c2, b);
    OpGrows(g, c, ops2, Make(b));
    var c3, ops3 := Apply(c2, Make(b)), ops2 + [Make(b)];
    NeverPanics(g, c3, Mount);
    OpGrows(g, c, ops3, Mount);
    var c4, ops4 := Apply(c3, Mount), ops3 + [Mount];
    NeverPanics(g, c4, Fetch(1));
    OpGrows(g, c, ops4, Fetch(1));
    assert ops4 + [Fetch(1)] == [Make(a), Put(1, bytes), Make(b), Mount, Fetch(1)];
  }
}
