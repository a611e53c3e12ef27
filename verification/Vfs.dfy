/** The tree of directory entries over CAFS, and the operations on paths. */
module Vfs {
  import opened Prelude
  import opened Layout
  import opened FileSystem
  import opened InodeCache
  import opened Directory
  import opened Cafs

  type Name = seq<byte>

  /** A directory entry; its `subdirs` are owned by it alone. */
  datatype Dentry = Dentry(number: nat, kind: InodeType, name: Name, subdirs: seq<Dentry>)

  /** A result, the error `NotExist` with the missing component, or a panic of the file system below. */
  datatype Outcome<T> = Done(value: T) | NotExist(name: Name) | Panicked

  /** Inode::name: the stored name up to its first zero byte. */
  function Shown(padded: Name): (r: Name)
    ensures 0 !in r && r <= padded && (|r| < |padded| ==> padded[|r|] == 0)
  {
    if padded == [] || padded[0] == 0 then [] else [padded[0]] + Shown(padded[1..])
  }

  lemma {:induction false} ShownOfPadded(name: Name, zeros: Name)
    requires forall i :: 0 <= i < |zeros| ==> zeros[i] == 0
    ensures |Shown(name + zeros)| <= |name|
    ensures Shown(name + zeros) == name <==> 0 !in name
  {
    var all := name + zeros;
    if name == [] {
    } else {
      assert all[0] == name[0] && all[1..] == name[1..] + zeros;
      ShownOfPadded(name[1..], zeros);
      assert name == [name[0]] + name[1..];
      if name[0] != 0 {
        assert Shown(all) == [name[0]] + Shown(all[1..]);
        assert Shown(all) == name <==> Shown(all[1..]) == name[1..] by {
          assert Shown(all)[1..] == Shown(all[1..]);
        }
      }
    }
  }

  /** A name reads back as it was given if and only if it has no zero byte. */
  lemma NameReadsBack(name: Name)
    requires |name| <= NAME_LENGTH_LIMIT
    ensures Shown(PadName(name)) == name <==> 0 !in name
  {
    ShownOfPadded(name, seq(NAME_LENGTH_LIMIT + 1 - |name|, _ => 0));
  }

  /** `iter().find`: the first child of that name. */
  function First(children: seq<Dentry>, name: Name): (i: nat)
    ensures i <= |children|
    ensures i < |children| ==> children[i].name == name
    ensures forall k :: 0 <= k < i ==> children[k].name != name
  {
    if children == [] || children[0].name == name then 0 else
      var i := First(children[1..], name);
      assert forall k :: 1 <= k < i + 1 ==> children[k] == children[1..][k - 1];
      i + 1
  }

  /** The entry that a list of names leads to. */
  function Walk(d: Dentry, dirs: seq<Name>): Outcome<Dentry>
    decreases |dirs|
  {
    if dirs == [] then Done(d) else
      var i := First(d.subdirs, dirs[0]);
      if i == |d.subdirs| then NotExist(dirs[0]) else Walk(d.subdirs[i], dirs[1..])
  }

  /** `c` is the first of the entry's children that has this name. */
  ghost predicate FirstChild(d: Dentry, name: Name, c: Dentry) {
    exists i :: 0 <= i < |d.subdirs| && d.subdirs[i] == c && c.name == name && forall k :: 0 <= k < i ==> d.subdirs[k].name != name
  }

  /** From `d` on, each entry of the chain is the first child, of the name that is next, of the one before it. */
  ghost predicate Chain(d: Dentry, dirs: seq<Name>, chain: seq<Dentry>) {
    && |chain| == |dirs| + 1 && chain[0] == d
    && forall k :: 0 <= k < |dirs| ==> FirstChild(chain[k], dirs[k], chain[k + 1])
  }

  ghost predicate Leads(d: Dentry, dirs: seq<Name>, e: Dentry) {
    exists chain :: Chain(d, dirs, chain) && chain[|dirs|] == e
  }

  /** The names before number `k` lead to an entry that has no child of name `k`. */
  ghost predicate EndsAt(d: Dentry, dirs: seq<Name>, k: nat) {
    k < |dirs| && exists e :: Leads(d, dirs[..k], e) && forall i :: 0 <= i < |e.subdirs| ==> e.subdirs[i].name != dirs[k]
  }

  lemma LeadsNowhere(d: Dentry)
    ensures Leads(d, [], d)
  {
    assert Chain(d, [], [d]);
  }

  lemma LeadsOn(d: Dentry, dirs: seq<Name>, c: Dentry, e: Dentry)
    requires dirs != [] && FirstChild(d, dirs[0], c) && Leads(c, dirs[1..], e)
    ensures Leads(d, dirs, e)
  {
    hide FirstChild;
    var chain :| Chain(c, dirs[1..], chain) && chain[|dirs| - 1] == e;
    var longer := [d] + chain;
    forall k | 0 <= k < |dirs|
      ensures FirstChild(longer[k], dirs[k], longer[k + 1])
    {
      if k > 0 {
        assert dirs[1..][k - 1] == dirs[k];
      }
    }
    assert Chain(d, dirs, longer) && longer[|dirs|] == e;
  }

  lemma EndsOn(d: Dentry, dirs: seq<Name>, c: Dentry, k: nat)
    requires dirs != [] && FirstChild(d, dirs[0], c) && EndsAt(c, dirs[1..], k)
    ensures EndsAt(d, dirs, k + 1)
  {
    hide FirstChild, Leads;
    var e :| Leads(c, dirs[1..][..k], e) && forall i :: 0 <= i < |e.subdirs| ==> e.subdirs[i].name != dirs[1..][k];
    assert dirs[..k + 1][1..] == dirs[1..][..k];
    LeadsOn(d, dirs[..k + 1], c, e);
  }

  /**
   * The walk ends at the entry that the names lead to, first child by first child, or reports the first name that the
   * entry reached so far has no child of.
   */
  lemma {:induction false} WalkFollows(d: Dentry, dirs: seq<Name>)
    ensures match Walk(d, dirs)
            case Done(e) => Leads(d, dirs, e)
            case NotExist(x) => exists k: nat :: EndsAt(d, dirs, k) && x == dirs[k]
            case Panicked => false
    decreases |dirs|
  {
    if dirs == [] {
      LeadsNowhere(d);
    } else {
      var i := First(d.subdirs, dirs[0]);
      if i == |d.subdirs| {
        LeadsNowhere(d);
        assert dirs[..0] == [];
        assert EndsAt(d, dirs, 0);
      } else {
        var c := d.subdirs[i];
        assert FirstChild(d, dirs[0], c);
        WalkFollows(c, dirs[1..]);
        hide FirstChild, Leads;
        match Walk(c, dirs[1..])
        case Done(e) => LeadsOn(d, dirs, c, e);
        case NotExist(x) =>
          var k: nat :| EndsAt(c, dirs[1..], k) && x == dirs[1..][k];
          EndsOn(d, dirs, c, k);
        case Panicked =>
      }
    }
  }

  lemma OneFirstChild(d: Dentry, name: Name, a: Dentry, b: Dentry)
    requires FirstChild(d, name, a) && FirstChild(d, name, b)
    ensures a == b
  {
  }

  lemma {:induction false} SameChain(d: Dentry, dirs: seq<Name>, p: seq<Dentry>, q: seq<Dentry>, k: nat)
    requires Chain(d, dirs, p) && Chain(d, dirs, q) && k <= |dirs|
    ensures p[k] == q[k]
  {
    hide FirstChild;
    if k == 0 {
    } else {
      SameChain(d, dirs, p, q, k - 1);
      OneFirstChild(p[k - 1], dirs[k - 1], p[k], q[k]);
    }
  }

  /** Names lead to one entry at most, and to none past a missing one; so the two cases exclude each other. */
  lemma LeadsToOne(d: Dentry, dirs: seq<Name>, a: Dentry, b: Dentry)
    requires Leads(d, dirs, a) && Leads(d, dirs, b)
    ensures a == b
  {
    var p :| Chain(d, dirs, p) && p[|dirs|] == a;
    var q :| Chain(d, dirs, q) && q[|dirs|] == b;
    SameChain(d, dirs, p, q, |dirs|);
  }

  lemma NotPastMissing(d: Dentry, dirs: seq<Name>, k: nat, e: Dentry)
    requires Leads(d, dirs, e)
    ensures !EndsAt(d, dirs, k)
  {
    if k < |dirs| {
      var chain :| Chain(d, dirs, chain) && chain[|dirs|] == e;
      assert Chain(d, dirs[..k], chain[..k + 1]);
      assert FirstChild(chain[k], dirs[k], chain[k + 1]);
      forall f | Leads(d, dirs[..k], f)
        ensures f == chain[k]
      {
        LeadsToOne(d, dirs[..k], f, chain[k]);
      }
    }
  }

  /** The tree after a push into the `subdirs` of the entry that `dirs` leads to. */
  function PushAt(d: Dentry, dirs: seq<Name>, child: Dentry): Dentry
    requires Walk(d, dirs).Done?
    decreases |dirs|
  {
    if dirs == [] then d.(subdirs := d.subdirs + [child]) else
      var i := First(d.subdirs, dirs[0]);
      d.(subdirs := d.subdirs[i := PushAt(d.subdirs[i], dirs[1..], child)])
  }

  /** Every entry names an inode, with the inode's type and name; only the root has number 0, and the others are files. */
  ghost predicate Known(d: Dentry, files: Files) {
    && d.number in files && d.kind == files[d.number].kind && d.name == Shown(files[d.number].name)
    && forall k :: 0 <= k < |d.subdirs| ==>
                     d.subdirs[k].number != 0 && d.subdirs[k].kind == File && Known(d.subdirs[k], files)
  }

  function EntryOf(files: Files, n: nat): Dentry
    requires n in files
  {
    Dentry(n, files[n].kind, Shown(files[n].name), [])
  }

  ghost function Numbers(children: seq<Dentry>): seq<nat> {
    seq(|children|, k requires 0 <= k < |children| => children[k].number)
  }

  /** What `read_sub_dentry` builds: below every entry, the entries that its inode lists, in order. */
  ghost predicate IsTree(d: Dentry, files: Files) {
    && d.number in files && d == EntryOf(files, d.number).(subdirs := d.subdirs)
    && Listed(files, d.number) == Some(Numbers(d.subdirs))
    && forall k :: 0 <= k < |d.subdirs| ==> IsTree(d.subdirs[k], files)
  }

  /** There is at most one such tree. */
  lemma {:induction false} TreeIsUnique(a: Dentry, b: Dentry, files: Files)
    requires IsTree(a, files) && IsTree(b, files) && a.number == b.number
    ensures a == b
  {
    var m, n := Numbers(a.subdirs), Numbers(b.subdirs);
    assert |m| == |n|;
    forall k | 0 <= k < |a.subdirs|
      ensures a.subdirs[k] == b.subdirs[k]
    {
      assert m[k] == n[k];
      TreeIsUnique(a.subdirs[k], b.subdirs[k], files);
    }
    assert a.subdirs == b.subdirs;
  }

  // ---------------------------------------------------------------------------
  // Walking and growing the tree
  // ---------------------------------------------------------------------------

  lemma {:induction false} KnownWalk(d: Dentry, files: Files, dirs: seq<Name>)
    requires Known(d, files) && Walk(d, dirs).Done?
    ensures Known(Walk(d, dirs).value, files)
    ensures dirs != [] ==> Walk(d, dirs).value.number != 0
    decreases |dirs|
  {
    if dirs == [] {
    } else {
      var i := First(d.subdirs, dirs[0]);
      KnownWalk(d.subdirs[i], files, dirs[1..]);
      if |dirs| == 1 { assert Walk(d, dirs) == Walk(d.subdirs[i], []); }
    }
  }

  /** Creating or rewriting files does not disturb the entries. */
  lemma {:induction false} KnownMore(d: Dentry, before: Files, after: Files)
    requires Known(d, before)
    requires forall n :: n in before ==> n in after && after[n].kind == before[n].kind && after[n].name == before[n].name
    ensures Known(d, after)
  {
    forall k | 0 <= k < |d.subdirs|
      ensures Known(d.subdirs[k], after)
    {
      KnownMore(d.subdirs[k], before, after);
    }
  }

  lemma {:induction false} KnownPush(d: Dentry, files: Files, dirs: seq<Name>, child: Dentry)
    requires Known(d, files) && Walk(d, dirs).Done? && Known(child, files) && child.number != 0 && child.kind == File
    ensures Known(PushAt(d, dirs, child), files)
    ensures PushAt(d, dirs, child).number == d.number && PushAt(d, dirs, child).name == d.name
    ensures dirs != [] ==> Numbers(PushAt(d, dirs, child).subdirs) == Numbers(d.subdirs)
    ensures dirs == [] ==> Numbers(PushAt(d, dirs, child).subdirs) == Numbers(d.subdirs) + [child.number]
    decreases |dirs|
  {
    if dirs == [] {
    } else {
      var i := First(d.subdirs, dirs[0]);
      KnownPush(d.subdirs[i], files, dirs[1..], child);
    }
  }

  lemma NamePushed(d: Dentry, dirs: seq<Name>, child: Dentry)
    requires Walk(d, dirs).Done?
    ensures PushAt(d, dirs, child).name == d.name
  {
  }

  lemma FirstIs(children: seq<Dentry>, name: Name, i: nat)
    requires i <= |children| && (i < |children| ==> children[i].name == name)
    requires forall k :: 0 <= k < i ==> children[k].name != name
    ensures First(children, name) == i
  {
  }

  lemma FirstOfUpdated(children: seq<Dentry>, name: Name, next: Dentry)
    requires First(children, name) < |children| && next.name == name
    ensures First(children[First(children, name) := next], name) == First(children, name)
  {
    FirstIs(children[First(children, name) := next], name, First(children, name));
  }

  /** What a walk one step further than a push finds: elder children come first. */
  lemma {:induction false} WalkToPushed(d: Dentry, dirs: seq<Name>, child: Dentry, name: Name)
    requires Walk(d, dirs).Done?
    ensures Walk(PushAt(d, dirs, child), dirs + [name]) ==
            (var all := Walk(d, dirs).value.subdirs + [child];
             var i := First(all, name);
             if i == |all| then NotExist(name) else Done(all[i]))
    decreases |dirs|
  {
    if dirs == [] {
      assert (dirs + [name])[1..] == [];
    } else {
      var i := First(d.subdirs, dirs[0]);
      var next := PushAt(d.subdirs[i], dirs[1..], child);
      NamePushed(d.subdirs[i], dirs[1..], child);
      FirstOfUpdated(d.subdirs, dirs[0], next);
      WalkToPushed(d.subdirs[i], dirs[1..], child, name);
      assert (dirs + [name])[1..] == dirs[1..] + [name];
    }
  }

  /** An entry but for what is below it. */
  ghost predicate SameEntry(a: Dentry, b: Dentry) {
    a.number == b.number && a.kind == b.kind && a.name == b.name
  }

  /** `b` has the children of `a`, each with the same number, type and name, and after them those of `more`. */
  ghost predicate SameChildren(a: Dentry, b: Dentry, more: seq<Dentry>) {
    && |b.subdirs| == |a.subdirs| + |more| && b.subdirs[|a.subdirs|..] == more
    && forall k :: 0 <= k < |a.subdirs| ==> SameEntry(a.subdirs[k], b.subdirs[k])
  }

  lemma {:induction false} PushedTop(d: Dentry, dirs: seq<Name>, child: Dentry)
    requires Walk(d, dirs).Done?
    ensures SameEntry(d, PushAt(d, dirs, child))
    ensures SameChildren(d, PushAt(d, dirs, child), if dirs == [] then [child] else [])
    decreases |dirs|
  {
    if dirs == [] {
    } else {
      var i := First(d.subdirs, dirs[0]);
      PushedTop(d.subdirs[i], dirs[1..], child);
    }
  }

  lemma SameSelf(d: Dentry)
    ensures SameEntry(d, d) && SameChildren(d, d, [])
  {
  }

  /**
   * A push changes no other entry: every path that led to an entry leads to the same one, with the same children in the
   * same order, and one child more exactly on the path of the push.
   */
  lemma {:induction false} PushSpares(d: Dentry, dirs: seq<Name>, child: Dentry, path: seq<Name>)
    requires Walk(d, dirs).Done? && Walk(d, path).Done?
    ensures var r := Walk(PushAt(d, dirs, child), path);
            && r.Done? && SameEntry(Walk(d, path).value, r.value)
            && SameChildren(Walk(d, path).value, r.value, if path == dirs then [child] else [])
    decreases |path|
  {
    PushedTop(d, dirs, child);
    if path == [] {
    } else {
      var all, all' := d.subdirs, PushAt(d, dirs, child).subdirs;
      var j := First(all, path[0]);
      FirstIs(all', path[0], j);
      if dirs != [] && dirs[0] == path[0] {
        PushSpares(all[j], dirs[1..], child, path[1..]);
        assert dirs == [dirs[0]] + dirs[1..] && path == [path[0]] + path[1..];
      } else {
        assert all'[j] == all[j];
        SameSelf(Walk(all[j], path[1..]).value);
      }
    }
  }

  // ---------------------------------------------------------------------------
  // Paths
  // ---------------------------------------------------------------------------

  const SLASH: byte := 47

  /** str::split('/') */
  function SplitSlash(path: Name): (parts: seq<Name>)
    ensures parts != []
  {
    if path == [] then [[]] else
      var rest := SplitSlash(path[1..]);
      if path[0] == SLASH then [[]] + rest else [[path[0]] + rest[0]] + rest[1..]
  }

  /** The components that `parse_path` sees: what comes before the first slash is skipped. */
  function Components(path: Name): seq<Name> {
    SplitSlash(path)[1..]
  }

  function Join(names: seq<Name>): Name {
    if names == [] then [] else [SLASH] + names[0] + Join(names[1..])
  }

  lemma {:induction false} SplitOfJoin(head: Name, names: seq<Name>)
    requires SLASH !in head && forall k :: 0 <= k < |names| ==> SLASH !in names[k]
    ensures SplitSlash(head + Join(names)) == [head] + names
    decreases |names|, |head|
  {
    var path := head + Join(names);
    if head != [] {
      assert path[0] == head[0] && path[1..] == head[1..] + Join(names);
      SplitOfJoin(head[1..], names);
      assert [head[0]] + head[1..] == head;
    } else if names != [] {
      assert path[1..] == names[0] + Join(names[1..]);
      SplitOfJoin(names[0], names[1..]);
      assert names == [names[0]] + names[1..];
    }
  }

  /** Names without slashes survive being written as a path and parsed again. */
  lemma PathRoundTrip(names: seq<Name>)
    requires forall k :: 0 <= k < |names| ==> SLASH !in names[k]
    ensures Components(Join(names)) == names
  {
    SplitOfJoin([], names);
    assert [] + Join(names) == Join(names);
  }

  /** Every path is what comes before its first slash and its components, each after a slash; none of them has one. */
  lemma {:induction false} SplitSlashIs(path: Name)
    ensures var parts := SplitSlash(path);
            path == parts[0] + Join(Components(path)) && forall k :: 0 <= k < |parts| ==> SLASH !in parts[k]
  {
    if path == [] {
    } else {
      SplitSlashIs(path[1..]);
      var rest, parts := SplitSlash(path[1..]), SplitSlash(path);
      hide Join;
      assert path == [path[0]] + path[1..];
      if path[0] == SLASH {
        assert parts[1..] == rest;
        assert forall k :: 1 <= k < |parts| ==> parts[k] == rest[k - 1];
      } else {
        assert parts[1..] == rest[1..];
        assert forall k :: 1 <= k < |parts| ==> parts[k] == rest[k];
      }
    }
  }

  function Parents(path: Name): seq<Name>
    requires Components(path) != []
  {
    Components(path)[..|Components(path)| - 1]
  }

  function BaseName(path: Name): Name
    requires Components(path) != []
  {
    Components(path)[|Components(path)| - 1]
  }

  lemma {:induction false} SlashSplits(path: Name)
    ensures |SplitSlash(path)| == 1 <==> SLASH !in path
  {
    if path == [] {
    } else {
      SlashSplits(path[1..]);
      assert path == [path[0]] + path[1..];
    }
  }

  /** VFS::parse_path; None where it panics, which is on paths without a slash. */
  function ParsePath(path: Name): (r: Option<(seq<Name>, Name)>)
    ensures r.None? <==> 47 !in path
    ensures r.None? <==> Components(path) == []
    ensures r.Some? ==> r.value == (Parents(path), BaseName(path))
  {
    SlashSplits(path);
    var dirs := SplitSlash(path)[1..];
    if dirs == [] then None else Some((dirs[..|dirs| - 1], dirs[|dirs| - 1]))
  }

  lemma PartsJoin(path: Name)
    requires Components(path) != []
    ensures Parents(path) + [BaseName(path)] == Components(path)
  {
  }

  // ---------------------------------------------------------------------------
  // The virtual file system
  // ---------------------------------------------------------------------------

  /** The tree fits the files: entries are known, and the root's entries are those its bytes list, in order. */
  ghost predicate TreeOk(root: Dentry, files: Files) {
    && Known(root, files) && root.number == 0 && root.kind == Dir
    && Listed(files, 0) == Some(Numbers(root.subdirs))
  }

  lemma LeafOf(cache: seq<CaInode>, handles: multiset<CaInode>, files: Files, o: CaInode)
    requires InodesOk(cache, handles, files) && o in handles
    ensures o.number in files && EntryOf(files, o.number) == Dentry(o.number, o.kind, Shown(o.name), [])
  {
  }

  /** DirEntry::new */
  method NewDentry(fs: CAFS, n: nat) returns (r: Outcome<Dentry>)
    requires fs.Valid() && n in fs.files
    modifies fs`cache, fs`handles, fs.cm
    ensures r == if IsCached(old(fs.cache), n) || Stuck(old(fs.cache), old(fs.handles)) < INODE_CACHE_SIZE
                 then Done(EntryOf(fs.files, n)) else Panicked
    ensures r.Done? ==>
              && fs.Valid() && fs.handles == old(fs.handles) && fs.cm.view == old(fs.cm.view)
              && Stuck(fs.cache, fs.handles) == Stuck(old(fs.cache), old(fs.handles))
              && forall p :: p in fs.cache ==> p in old(fs.cache) || fresh(p)
  {
    hide *;
    var inode := fs.CaInodeOf(n);
    if inode.None? { return Panicked; }
    var o := inode.value;
    fs.Elim();
    LeafOf(fs.cache, fs.handles, fs.files, o);
    r := Done(Dentry(n, o.kind, Shown(o.name), []));
    fs.Drop(o);
    assert fs.handles == old(fs.handles);
  }

  lemma TreeParts(d: Dentry, files: Files)
    requires IsTree(d, files)
    ensures d.number in files && EntryOf(files, d.number) == d.(subdirs := [])
    ensures Listed(files, d.number) == Some(Numbers(d.subdirs)) && |Numbers(d.subdirs)| == |d.subdirs|
    ensures forall k :: 0 <= k < |d.subdirs| ==> Numbers(d.subdirs)[k] == d.subdirs[k].number && IsTree(d.subdirs[k], files)
  {
  }

  /** DirEntry::read_sub_dentry, which calls itself for every entry it finds; it ends only if there is a finite tree. */
  method ReadSubDentry(fs: CAFS, d: Dentry, ghost tree: Dentry) returns (r: Dentry)
    requires fs.Valid() && Stuck(fs.cache, fs.handles) < INODE_CACHE_SIZE
    requires IsTree(tree, fs.files) && d == tree.(subdirs := [])
    modifies fs`cache, fs`handles, fs.cm
    ensures fs.Valid() && fs.handles == old(fs.handles) && Stuck(fs.cache, fs.handles) == Stuck(old(fs.cache), old(fs.handles))
    ensures r == tree
    ensures forall p :: p in fs.cache ==> p in old(fs.cache) || fresh(p)
    decreases tree
  {
    hide *;
    TreeParts(tree, fs.files);
    var inodes := fs.SubInodes(d.number);
    ghost var stuck := Stuck(fs.cache, fs.handles);
    r := d;
    for i := 0 to |inodes.value|
      invariant fs.Valid() && fs.handles == old(fs.handles) && Stuck(fs.cache, fs.handles) == stuck
      invariant r == tree.(subdirs := tree.subdirs[..i])
      invariant forall p :: p in fs.cache ==> p in old(fs.cache) || fresh(p)
    {
      TreeParts(tree.subdirs[i], fs.files);
      var entry := NewDentry(fs, inodes.value[i]);
      var child := ReadSubDentry(fs, entry.value, tree.subdirs[i]);
      r := r.(subdirs := r.subdirs + [child]);
    }
    assert tree.subdirs[..|tree.subdirs|] == tree.subdirs;
  }

  /** Sizes that the index can represent, and inode numbers of 64 bits, wherever the path leads. */
  ghost predicate CanCreate(g: Geometry, files: Files, root: Dentry, parents: seq<Name>) {
    Walk(root, parents).Done? ==>
      && InodeCount(g) <= U64_MAX
      && var n := Walk(root, parents).value.number; n in files && AppendedSize(files[n].bytes) <= L4_MAX
  }

  /** Such a size, and a write that, as coded, frees no block, wherever the path leads. */
  ghost predicate CanWrite(files: Files, root: Dentry, names: seq<Name>, bytes: seq<byte>) {
    Walk(root, names).Done? ==>
      var n := Walk(root, names).value.number;
      n in files && |bytes| <= L4_MAX && DataBlocks(|bytes|) >= DataBlocks(|files[n].bytes|)
  }

  lemma HandleCached(cache: seq<CaInode>, handles: multiset<CaInode>, files: Files, o: CaInode)
    requires InodesOk(cache, handles, files) && o in handles
    ensures IsCached(cache, o.number)
  {
  }

  lemma KnownIs(d: Dentry, files: Files)
    requires Known(d, files)
    ensures d.number in files && d.kind == files[d.number].kind
  {
  }

  /** Every path leads to a file, and never back to the root. */
  lemma EntryHasFile(root: Dentry, files: Files, names: seq<Name>)
    requires TreeOk(root, files) && names != [] && Walk(root, names).Done?
    ensures Walk(root, names).value.number in files && Walk(root, names).value.number != 0
  {
    KnownWalk(root, files, names);
    KnownIs(Walk(root, names).value, files);
  }

  lemma WriteParts(files: Files, root: Dentry, names: seq<Name>, bytes: seq<byte>)
    requires CanWrite(files, root, names, bytes) && Walk(root, names).Done?
    ensures var n := Walk(root, names).value.number;
            n in files && |bytes| <= L4_MAX && DataBlocks(|bytes|) >= DataBlocks(|files[n].bytes|)
  {
  }

  /** Writing to a file that is not the root keeps the tree as it is. */
  lemma RewrittenTree(root: Dentry, files: Files, files': Files, n: nat, bytes: seq<byte>)
    requires TreeOk(root, files) && n != 0 && Rewritten(files, files', n, bytes)
    ensures TreeOk(root, files')
  {
    KnownMore(root, files, files');
  }

  // ---------------------------------------------------------------------------
  // What `create` means for paths and for the next mount
  // ---------------------------------------------------------------------------

  lemma {:induction false} WalkOneMore(d: Dentry, dirs: seq<Name>, name: Name)
    requires Walk(d, dirs).Done?
    ensures Walk(d, dirs + [name]) ==
            (var all := Walk(d, dirs).value.subdirs;
             var i := First(all, name);
             if i == |all| then NotExist(name) else Done(all[i]))
    decreases |dirs|
  {
    if dirs == [] {
      assert (dirs + [name])[1..] == [];
    } else {
      var i := First(d.subdirs, dirs[0]);
      WalkOneMore(d.subdirs[i], dirs[1..], name);
      assert (dirs + [name])[1..] == dirs[1..] + [name];
    }
  }

  /** What `create` did: a new inode `n` in CAFS, listed in the parent's bytes, and its entry in the tree. */
  ghost predicate Made(root: Dentry, files: Files, root': Dentry, files': Files, parents: seq<Name>, name: Name, n: nat) {
    && |name| <= NAME_LENGTH_LIMIT && Walk(root, parents).Done?
    && Entered(files, files', Walk(root, parents).value.number, n, PadName(name))
    && root' == PushAt(root, parents, EntryOf(files', n))
  }

  /**
   * The new file is found under its path if and only if its name has no zero byte and no elder sibling
   * has that name: `create` checks neither.
   */
  lemma MadeIsFound(root: Dentry, files: Files, root': Dentry, files': Files, parents: seq<Name>, name: Name, n: nat)
    requires TreeOk(root, files) && Made(root, files, root', files', parents, name, n)
    ensures n in files'
    ensures Walk(root', parents + [name]) == Done(EntryOf(files', n)) <==>
            0 !in name && Walk(root, parents + [name]).NotExist?
  {
    var child := EntryOf(files', n);
    var there := Walk(root, parents).value.subdirs;
    NameReadsBack(name);
    hide Shown, PadName;
    WalkToPushed(root, parents, child, name);
    WalkOneMore(root, parents, name);
    KnownWalk(root, files, parents);
    var i := First(there, name);
    if i < |there| {
      FirstIs(there + [child], name, i);
      assert Known(there[i], files);
    } else {
      FirstIs(there + [child], name, if child.name == name then i else i + 1);
    }
  }

  /** No entry of the root has entries of its own. */
  ghost predicate Flat(root: Dentry) {
    forall k :: 0 <= k < |root.subdirs| ==> root.subdirs[k].subdirs == []
  }

  lemma TreeIffFlat(root: Dentry, files: Files)
    requires TreeOk(root, files)
    ensures IsTree(root, files) <==> Flat(root)
  {
    forall k | 0 <= k < |root.subdirs|
      ensures IsTree(root.subdirs[k], files) <==> root.subdirs[k].subdirs == []
    {
      var c := root.subdirs[k];
      assert Known(c, files) && c.kind == File;
      assert c.subdirs == [] <==> Numbers(c.subdirs) == [] by { assert |Numbers(c.subdirs)| == |c.subdirs|; }
    }
  }

  lemma PushNotFlat(d: Dentry, dirs: seq<Name>, child: Dentry)
    requires Walk(d, dirs).Done?
    ensures PushAt(d, dirs, child).subdirs != []
  {
  }

  lemma EntryKnown(files: Files, n: nat)
    requires n in files
    ensures Known(EntryOf(files, n), files) && EntryOf(files, n).number == n
  {
  }

  lemma WalkNowhere(d: Dentry)
    ensures Walk(d, []) == Done(d)
  {
  }

  lemma EnteredTree(root: Dentry, files: Files, files': Files, parents: seq<Name>, n: nat, name: Name)
    requires TreeOk(root, files) && Walk(root, parents).Done? && |name| <= NAME_LENGTH_LIMIT
    requires Entered(files, files', Walk(root, parents).value.number, n, PadName(name))
    ensures n in files' && n != 0
    ensures var root' := PushAt(root, parents, EntryOf(files', n));
            TreeOk(root', files') && Made(root, files, root', files', parents, name, n)
  {
    hide Append, PadName, Known, Walk, PushAt, Shown, Parsed;
    var child := EntryOf(files', n);
    KnownWalk(root, files, parents);
    KnownMore(root, files, files');
    KnownIs(root, files);
    EntryKnown(files', n);
    KnownPush(root, files', parents, child);
    KnownIs(PushAt(root, parents, child), files');
    WalkNowhere(root);
    var nums := Numbers(root.subdirs);
    if parents == [] {
      ParsedOfAppend(files[0].bytes, n);
    }
    assert Listed(files', 0) == Some(Numbers(PushAt(root, parents, child).subdirs));
  }

  /**
   * The tree in memory is the one the next mount will read if and only if it was so before and the parent
   * is the root: a file has no listing, so what is created under one is lost.
   */
  lemma MadeAgrees(root: Dentry, files: Files, root': Dentry, files': Files, parents: seq<Name>, name: Name, n: nat)
    requires TreeOk(root, files) && Made(root, files, root', files', parents, name, n)
    ensures IsTree(root', files') <==> IsTree(root, files) && parents == []
  {
    var child := EntryOf(files', n);
    KnownMore(root, files, files');
    hide Shown, PadName;
    TreeIffFlat(root, files);
    EntryKnown(files', n);
    EnteredTree(root, files, files', parents, n, name);
    TreeIffFlat(root', files');
    if parents == [] {
      assert forall k :: 0 <= k < |root.subdirs| ==> root'.subdirs[k] == root.subdirs[k];
      assert root'.subdirs[|root.subdirs|] == child;
    } else {
      var i := First(root.subdirs, parents[0]);
      PushNotFlat(root.subdirs[i], parents[1..], child);
      assert root'.subdirs[i].subdirs != [];
    }
  }

  lemma NoneStuck()
    ensures Stuck<CaInode>([], multiset{}) < INODE_CACHE_SIZE
  {
  }

  /** A root directory that lists files, as every history of `create` leaves it. */
  ghost predicate OnlyFiles(root: Dentry) {
    root.kind == Dir && forall k :: 0 <= k < |root.subdirs| ==> root.subdirs[k].number != 0 && root.subdirs[k].kind == File
  }

  lemma TreeOfFiles(root: Dentry, files: Files)
    requires IsTree(root, files) && root.number == 0 && OnlyFiles(root)
    ensures TreeOk(root, files)
  {
    forall k | 0 <= k < |root.subdirs|
      ensures Known(root.subdirs[k], files)
    {
      var c := root.subdirs[k];
      assert IsTree(c, files) && c.kind == File;
      assert |Numbers(c.subdirs)| == 0;
    }
  }

  lemma CreateParts(g: Geometry, files: Files, root: Dentry, parents: seq<Name>)
    requires CanCreate(g, files, root, parents) && Walk(root, parents).Done?
    ensures InodeCount(g) <= U64_MAX
    ensures var n := Walk(root, parents).value.number; n in files && AppendedSize(files[n].bytes) <= L4_MAX
  {
  }

  class VFS {
    const fs: CAFS
    /** The dentry cache. */
    var root: Dentry

    ghost predicate Valid()
      reads this, fs, fs.cm, fs.cache
    {
      fs.Valid() && TreeOk(root, fs.files)
    }

    lemma Intro()
      requires fs.Valid() && TreeOk(root, fs.files)
      ensures Valid()
    {
    }

    lemma Elim()
      requires Valid()
      ensures fs.Valid() && TreeOk(root, fs.files)
    {
    }

    /** VFS::new over a device that holds these files, whose listings form a tree. */
    constructor (device: Store, ghost geometry: Geometry, ghost contents: Files, ghost tree: Dentry)
      requires FsOk(device, geometry, contents) && tree.number == 0 && IsTree(tree, contents)
      ensures fresh(fs) && fresh(fs.cm) && fs.g == geometry && fs.files == contents
      ensures fs.Valid() && fs.handles == multiset{} && fs.created == {} && forall o :: o in fs.cache ==> fresh(o)
      ensures root == tree
      ensures OnlyFiles(tree) ==> Valid()
    {
      hide *;
      TreeParts(tree, contents);
      fs := new CAFS.Open(device, geometry, contents);
      root := Dentry(0, Dir, [], []);
      new;
      NoneStuck();
      var entry := NewDentry(fs, 0);
      root := ReadSubDentry(fs, entry.value, tree);
      if OnlyFiles(tree) {
        TreeOfFiles(root, fs.files);
        Intro();
      }
    }

    /** VFS::find_dentry */
    method FindDentry(dirs: seq<Name>) returns (r: Outcome<Dentry>)
      ensures r == Walk(root, dirs) && !r.Panicked?
      ensures r.Done? ==> Leads(root, dirs, r.value)
      ensures r.NotExist? ==> exists k: nat :: EndsAt(root, dirs, k) && r.name == dirs[k]
    {
      WalkFollows(root, dirs);
      hide Leads, EndsAt;
      var dir := root;
      for i := 0 to |dirs|
        invariant Walk(root, dirs) == Walk(dir, dirs[i..])
      {
        var k := First(dir.subdirs, dirs[i]);
        if k == |dir.subdirs| {
          return NotExist(dirs[i]);
        }
        dir := dir.subdirs[k];
        assert dirs[i..][1..] == dirs[i + 1..];
      }
      r := Done(dir);
    }

    /** VFS::create. `n` is the new inode's number. */
    method Create(path: Name) returns (r: Outcome<()>, ghost n: nat)
      requires Components(path) != [] ==> CanCreate(fs.g, fs.files, root, Parents(path))
      requires Valid()
      modifies this, fs, fs.cm, (set o | o in fs.cache)
      ensures Components(path) == [] ==> r.Panicked?
      ensures Components(path) != [] ==>
                match Walk(old(root), Parents(path))
                case NotExist(missing) =>
                  r == NotExist(missing) && Valid() && root == old(root) && fs.files == old(fs.files) && fs.cache == old(fs.cache)
                case Panicked => false
                case Done(dir) =>
                  && dir.number in old(fs.files)
                  && (!r.Panicked? <==>
                        && |old(fs.files)| < InodeCount(fs.g) && |BaseName(path)| <= NAME_LENGTH_LIMIT
                        && SlotsToCreate(old(fs.cache), old(fs.handles), dir.number) < INODE_CACHE_SIZE
                        && HasBlocks(fs.g, old(fs.files), dir.number, AppendedSize(old(fs.files)[dir.number].bytes)))
                  && (!r.Panicked? ==>
                        && r == Done(()) && Valid() && fs.handles == old(fs.handles)
                        && (forall o :: o in fs.cache ==> o in old(fs.cache) || fresh(o))
                        && Made(old(root), old(fs.files), root, fs.files, Parents(path), BaseName(path), n))
    {
      hide *;
      n := 0;
      var p := ParsePath(path);
      if p.None? {
        return Panicked, 0;
      }
      var (parents, name) := p.value;
      var d := FindDentry(parents);
      Elim();
      if d.NotExist? {
        return NotExist(d.name), 0;
      }
      var dir := d.value.number;
      CreateParts(fs.g, fs.files, root, parents);
      var inode := fs.Create(dir, name);
      if inode.None? {
        return Panicked, 0;
      }
      var o := inode.value;
      n := o.number;
      EnteredTree(old(root), old(fs.files), fs.files, parents, n, name);
      AddEntry(o, parents);
      assert fs.handles == old(fs.handles);
      Intro();
      r := Done(());
    }

    /** The end of `create`: an entry for the new inode, whose handle is then dropped. */
    method AddEntry(o: CaInode, parents: seq<Name>)
      requires fs.Valid() && o in fs.handles && Walk(root, parents).Done? && o.number in fs.files
      modifies this`root, fs`cache, fs`handles, fs.cm
      ensures fs.Valid() && fs.handles == old(fs.handles) - multiset{o}
      ensures root == PushAt(old(root), parents, EntryOf(fs.files, o.number))
      ensures forall p :: p in fs.cache ==> p in old(fs.cache) || fresh(p)
    {
      hide *;
      fs.Elim();
      HandleCached(fs.cache, fs.handles, fs.files, o);
      var entry := NewDentry(fs, o.number);
      root := PushAt(root, parents, entry.value);
      fs.Drop(o);
    }

    /** VFS::read_unstable */
    method Read(path: Name) returns (r: Outcome<seq<byte>>)
      requires Valid()
      modifies fs`cache, fs`handles, fs.cm
      ensures Components(path) == [] ==> r.Panicked?
      ensures Components(path) != [] ==>
                match Walk(root, Components(path))
                case NotExist(missing) => r == NotExist(missing) && Valid()
                case Panicked => false
                case Done(d) =>
                  && d.number in fs.files
                  && (r.Panicked? <==> !IsCached(old(fs.cache), d.number) && Stuck(old(fs.cache), old(fs.handles)) >= INODE_CACHE_SIZE)
                  && (!r.Panicked? ==> Valid() && fs.handles == old(fs.handles) && r == Done(fs.files[d.number].bytes))
    {
      hide *;
      var p := ParsePath(path);
      if p.None? {
        return Panicked;
      }
      PartsJoin(path);
      var d := FindDentry(p.value.0 + [p.value.1]);
      Elim();
      if d.NotExist? {
        return NotExist(d.name);
      }
      EntryHasFile(root, fs.files, Components(path));
      var inode := fs.CaInodeOf(d.value.number);
      if inode.None? {
        return Panicked;
      }
      var data := fs.Data(inode.value);
      fs.Drop(inode.value);
      assert fs.handles == old(fs.handles);
      Intro();
      r := Done(data);
    }

    /** VFS::write */
    method Write(path: Name, contents: seq<byte>) returns (r: Outcome<()>)
      requires CanWrite(fs.files, root, Components(path), contents)
      requires Valid()
      modifies fs`cache, fs`handles, fs`files, fs.cm, (set o | o in fs.cache)
      ensures Components(path) == [] ==> r.Panicked?
      ensures Components(path) != [] ==>
                match Walk(root, Components(path))
                case NotExist(missing) => r == NotExist(missing) && Valid() && fs.files == old(fs.files) && fs.cache == old(fs.cache)
                case Panicked => false
                case Done(d) =>
                  && d.number in old(fs.files)
                  && (!r.Panicked? <==>
                        && (IsCached(old(fs.cache), d.number) || Stuck(old(fs.cache), old(fs.handles)) < INODE_CACHE_SIZE)
                        && HasBlocks(fs.g, old(fs.files), d.number, |contents|))
                  && (!r.Panicked? ==>
                        && r == Done(()) && Valid() && fs.handles == old(fs.handles)
                        && (forall o :: o in fs.cache ==> o in old(fs.cache) || fresh(o))
                        && Rewritten(old(fs.files), fs.files, d.number, contents))
    {
      hide *;
      var p := ParsePath(path);
      if p.None? {
        return Panicked;
      }
      PartsJoin(path);
      var d := FindDentry(p.value.0 + [p.value.1]);
      Elim();
      if d.NotExist? {
        return NotExist(d.name);
      }
      EntryHasFile(root, fs.files, Components(path));
      WriteParts(fs.files, root, Components(path), contents);
      var ok := fs.Write(d.value.number, contents, 0);
      if !ok {
        return Panicked;
      }
      RewrittenTree(root, old(fs.files), fs.files, d.value.number, contents);
      Intro();
      r := Done(());
    }
  }

  // ---------------------------------------------------------------------------
  // The next mount
  // ---------------------------------------------------------------------------

  /** The root with its entries, and nothing below them. */
  ghost function Flattened(root: Dentry): Dentry {
    root.(subdirs := seq(|root.subdirs|, k requires 0 <= k < |root.subdirs| => root.subdirs[k].(subdirs := [])))
  }

  lemma FlattenedIsTree(root: Dentry, files: Files)
    requires TreeOk(root, files)
    ensures IsTree(Flattened(root), files) && OnlyFiles(Flattened(root)) && Flattened(root).number == 0
    ensures Flattened(root) == root <==> Flat(root)
  {
    var flat := Flattened(root);
    assert Numbers(flat.subdirs) == Numbers(root.subdirs);
    forall k | 0 <= k < |root.subdirs|
      ensures IsTree(flat.subdirs[k], files) && flat.subdirs[k].number != 0 && flat.subdirs[k].kind == File
    {
      assert Known(root.subdirs[k], files);
      assert Numbers([]) == [];
    }
    if Flat(root) {
      assert flat.subdirs == root.subdirs;
    } else {
      var k :| 0 <= k < |root.subdirs| && root.subdirs[k].subdirs != [];
      assert flat.subdirs[k].subdirs == [];
    }
  }

  /** Flushing and mounting again reads the root's entries; it reads the whole tree if and only if nothing is below them. */
  method Remount(v: VFS) returns (w: VFS)
    requires v.Valid()
    modifies v.fs.cm
    ensures fresh(w) && w.Valid() && w.fs.g == v.fs.g && w.fs.files == v.fs.files
    ensures w.root == Flattened(v.root) && IsTree(w.root, v.fs.files)
    ensures w.root == v.root <==> Flat(v.root)
  {
    hide *;
    v.Elim();
    v.fs.Flush();
    v.fs.Elim();
    FlattenedIsTree(v.root, v.fs.files);
    w := new VFS(v.fs.cm.device, v.fs.g, v.fs.files, Flattened(v.root));
  }

  // ---------------------------------------------------------------------------
  // Sequences of calls
  // ---------------------------------------------------------------------------

  datatype Call = Make(path: Name) | Put(path: Name, bytes: seq<byte>)

  datatype Event = Created(parents: seq<Name>, name: Name, number: nat) | Wrote(number: nat, bytes: seq<byte>) | Refused

  datatype Snapshot = Snapshot(root: Dentry, files: Files)

  /** What a call that does not panic does. */
  ghost predicate Step(s: Snapshot, e: Event, s': Snapshot) {
    match e
    case Created(parents, name, n) => Made(s.root, s.files, s'.root, s'.files, parents, name, n)
    case Wrote(n, bytes) => n != 0 && s'.root == s.root && Rewritten(s.files, s'.files, n, bytes)
    case Refused => s' == s
  }

  ghost predicate Trace(states: seq<Snapshot>, events: seq<Event>) {
    |states| == |events| + 1 && forall k :: 0 <= k < |events| ==> Step(states[k], events[k], states[k + 1])
  }

  /** Every file created was created in the root. */
  ghost predicate AllInRoot(events: seq<Event>) {
    forall k :: 0 <= k < |events| && events[k].Created? ==> events[k].parents == []
  }

  lemma StepAgrees(s: Snapshot, e: Event, s': Snapshot)
    requires TreeOk(s.root, s.files) && Step(s, e, s')
    ensures TreeOk(s'.root, s'.files)
    ensures IsTree(s'.root, s'.files) <==> IsTree(s.root, s.files) && (e.Created? ==> e.parents == [])
  {
    match e
    case Created(parents, name, n) =>
      EnteredTree(s.root, s.files, s'.files, parents, n, name);
      MadeAgrees(s.root, s.files, s'.root, s'.files, parents, name, n);
    case Wrote(n, bytes) =>
      RewrittenTree(s.root, s.files, s'.files, n, bytes);
      TreeIffFlat(s.root, s.files);
      TreeIffFlat(s'.root, s'.files);
    case Refused =>
  }

  /**
   * After any sequence of creates and writes by path, the tree kept in memory is the one that `read_sub_dentry` would
   * build if and only if it was so at the start and every file was created in the root.
   */
  lemma {:induction false} TraceAgrees(states: seq<Snapshot>, events: seq<Event>, n: nat)
    requires Trace(states, events) && n <= |events| && TreeOk(states[0].root, states[0].files)
    ensures TreeOk(states[n].root, states[n].files)
    ensures IsTree(states[n].root, states[n].files) <==> IsTree(states[0].root, states[0].files) && AllInRoot(events[..n])
  {
    hide TreeOk, IsTree, Step;
    if n == 0 {
    } else {
      TraceAgrees(states, events, n - 1);
      assert Step(states[n - 1], events[n - 1], states[n]);
      StepAgrees(states[n - 1], events[n - 1], states[n]);
      var all := events[..n];
      assert all[..n - 1] == events[..n - 1] && all[n - 1] == events[n - 1];
      assert AllInRoot(all) <==> AllInRoot(events[..n - 1]) && (events[n - 1].Created? ==> events[n - 1].parents == []) by {
        assert forall k :: 0 <= k < n - 1 ==> events[..n - 1][k] == all[k];
      }
    }
  }

  /** What the file system asks of a call: sizes the index can represent, and no write that frees blocks. */
  ghost predicate CallOk(g: Geometry, s: Snapshot, c: Call) {
    match c
    case Make(path) => Components(path) != [] ==> CanCreate(g, s.files, s.root, Parents(path))
    case Put(path, bytes) => CanWrite(s.files, s.root, Components(path), bytes)
  }

  /** Event `e` is what call `c` does in state `s`. */
  ghost predicate Answers(s: Snapshot, c: Call, e: Event) {
    Components(c.path) != [] &&
    match c
    case Make(path) =>
      (match Walk(s.root, Parents(path))
       case Done(_) => e.Created? && e.parents == Parents(path) && e.name == BaseName(path)
       case _ => e.Refused?)
    case Put(path, bytes) =>
      (match Walk(s.root, Components(path))
       case Done(d) => e == Wrote(d.number, bytes)
       case _ => e.Refused?)
  }

  /** Whatever the calls before it did, each call finds what the file system asks of it. */
  ghost predicate Feasible(g: Geometry, s: Snapshot, calls: seq<Call>)
    decreases |calls|
  {
    calls == [] ||
    (&& CallOk(g, s, calls[0])
     && forall e, s' :: Answers(s, calls[0], e) && Step(s, e, s') ==> Feasible(g, s', calls[1..]))
  }

  /** Creates in the root and writes of contents that take `d` blocks, whether or not their paths lead anywhere. */
  ghost predicate Plain(calls: seq<Call>, d: nat) {
    forall k :: 0 <= k < |calls| ==>
      match calls[k]
      case Make(path) => Components(path) != [] ==> Parents(path) == []
      case Put(path, bytes) => Components(path) != [] && |bytes| <= L4_MAX && DataBlocks(|bytes|) == d
  }

  /** No file but the root takes more than `d` blocks, and the root can list `more` files more. */
  ghost predicate Small(s: Snapshot, d: nat, more: nat) {
    && (forall n :: n in s.files && n != 0 ==> DataBlocks(|s.files[n].bytes|) <= d)
    && 0 in s.files && |s.files[0].bytes| + (NUMBER_LEN + 1) * more <= L4_MAX
  }

  lemma AppendLength(bytes: seq<byte>, n: nat)
    requires n <= U64_MAX
    ensures |Append(bytes, n)| <= |bytes| + NUMBER_LEN + 1
  {
  }

  lemma NoBytes(d: nat)
    ensures DataBlocks(0) <= d
  {
  }

  lemma SmallStays(s: Snapshot, c: Call, e: Event, s': Snapshot, d: nat, more: nat)
    requires TreeOk(s.root, s.files) && Small(s, d, more) && more > 0 && Plain([c], d) && Answers(s, c, e) && Step(s, e, s')
    ensures Small(s', d, more - 1)
  {
    assert c == [c][0];
    WalkNowhere(s.root);
    hide TreeOk, Walk, Components, PadName, DataBlocks, PushAt;
    match e
    case Created(parents, name, n) =>
      AppendLength(s.files[0].bytes, n);
      NoBytes(d);
    case Wrote(n, bytes) =>
    case Refused =>
  }

  lemma PlainCall(g: Geometry, s: Snapshot, c: Call, d: nat, more: nat)
    requires TreeOk(s.root, s.files) && Small(s, d, more) && more > 0 && Plain([c], d) && InodeCount(g) <= U64_MAX
    ensures CallOk(g, s, c)
  {
    assert c == [c][0];
    WalkNowhere(s.root);
    if c.Put? && Walk(s.root, Components(c.path)).Done? {
      if Components(c.path) != [] {
        EntryHasFile(s.root, s.files, Components(c.path));
      }
    }
    hide Walk, Components, DataBlocks;
  }

  /** Any number of creates in the root and of writes of `d` blocks each is feasible, as far as the root can list them. */
  lemma {:induction false} PlainIsFeasible(g: Geometry, s: Snapshot, calls: seq<Call>, d: nat)
    requires TreeOk(s.root, s.files) && Small(s, d, |calls|) && Plain(calls, d) && InodeCount(g) <= U64_MAX
    ensures Feasible(g, s, calls)
    decreases |calls|
  {
    if calls == [] {
    } else {
      var c, rest := calls[0], calls[1..];
      assert Plain([c], d) && Plain(rest, d);
      PlainCall(g, s, c, d, |calls|);
      hide TreeOk, Small, Plain, CallOk, Answers, Step;
      forall e, s' | Answers(s, c, e) && Step(s, e, s')
        ensures Feasible(g, s', rest)
      {
        StepAgrees(s, e, s');
        SmallStays(s, c, e, s', d, |calls|);
        PlainIsFeasible(g, s', rest, d);
      }
    }
  }

  lemma CallParts(g: Geometry, s: Snapshot, c: Call)
    requires CallOk(g, s, c)
    ensures c.Make? && Components(c.path) != [] ==> CanCreate(g, s.files, s.root, Parents(c.path))
    ensures c.Put? ==> CanWrite(s.files, s.root, Components(c.path), c.bytes)
  {
  }

  lemma RefusedIs(s: Snapshot, c: Call)
    ensures Step(s, Refused, s)
    ensures c.Make? && Components(c.path) != [] && Walk(s.root, Parents(c.path)).NotExist? ==> Answers(s, c, Refused)
    ensures c.Put? && Components(c.path) != [] && Walk(s.root, Components(c.path)).NotExist? ==> Answers(s, c, Refused)
  {
  }

  lemma CreatedIs(s: Snapshot, path: Name, n: nat, s': Snapshot)
    requires Components(path) != [] && Walk(s.root, Parents(path)).Done?
    requires Made(s.root, s.files, s'.root, s'.files, Parents(path), BaseName(path), n)
    ensures Answers(s, Make(path), Created(Parents(path), BaseName(path), n))
    ensures Step(s, Created(Parents(path), BaseName(path), n), s')
  {
  }

  lemma WroteIs(s: Snapshot, path: Name, bytes: seq<byte>, s': Snapshot)
    requires Components(path) != [] && Walk(s.root, Components(path)).Done? && s'.root == s.root
    requires var n := Walk(s.root, Components(path)).value.number; n != 0 && Rewritten(s.files, s'.files, n, bytes)
    ensures var n := Walk(s.root, Components(path)).value.number;
            Answers(s, Put(path, bytes), Wrote(n, bytes)) && Step(s, Wrote(n, bytes), s')
  {
  }

  /** One call on the object; `ok` is false where it panics. */
  method Perform(v: VFS, c: Call) returns (ok: bool, ghost e: Event)
    requires v.Valid() && CallOk(v.fs.g, Snapshot(v.root, v.fs.files), c)
    modifies v, v.fs, v.fs.cm, (set o | o in v.fs.cache)
    ensures ok ==>
              && v.Valid() && Answers(old(Snapshot(v.root, v.fs.files)), c, e)
              && Step(old(Snapshot(v.root, v.fs.files)), e, Snapshot(v.root, v.fs.files))
              && forall o :: o in v.fs.cache ==> o in old(v.fs.cache) || fresh(o)
  {
    hide *;
    ghost var s := Snapshot(v.root, v.fs.files);
    CallParts(v.fs.g, s, c);
    RefusedIs(s, c);
    e := Refused;
    match c
    case Make(path) =>
      ghost var n;
      var r;
      r, n := v.Create(path);
      ok := !r.Panicked?;
      if r.Done? {
        e := Created(Parents(path), BaseName(path), n);
        CreatedIs(s, path, n, Snapshot(v.root, v.fs.files));
      }
    case Put(path, bytes) =>
      v.Elim();
      if Components(path) != [] && Walk(v.root, Components(path)).Done? { EntryHasFile(v.root, v.fs.files, Components(path)); }
      var r := v.Write(path, bytes);
      ok := !r.Panicked?;
      if r.Done? {
        e := Wrote(Walk(s.root, Components(path)).value.number, bytes);
        WroteIs(s, path, bytes, Snapshot(v.root, v.fs.files));
      }
  }

  lemma FeasibleCall(g: Geometry, s: Snapshot, calls: seq<Call>)
    requires Feasible(g, s, calls) && calls != []
    ensures CallOk(g, s, calls[0])
    ensures forall e, s' :: Answers(s, calls[0], e) && Step(s, e, s') ==> Feasible(g, s', calls[1..])
  {
  }

  lemma TraceOfNone(s: Snapshot)
    ensures Trace([s], [])
  {
  }

  lemma TraceGrows(states: seq<Snapshot>, events: seq<Event>, e: Event, s': Snapshot)
    requires Trace(states, events) && |states| == |events| + 1 && Step(states[|events|], e, s')
    ensures Trace(states + [s'], events + [e])
  {
    hide Step;
    var all, steps := states + [s'], events + [e];
    forall k | 0 <= k < |steps|
      ensures Step(all[k], steps[k], all[k + 1])
    {
      if k < |events| {
        assert all[k] == states[k] && all[k + 1] == states[k + 1] && steps[k] == events[k];
      }
    }
  }

  /**
   * Any sequence of creates and writes on a mounted file system, as far as it gets without a panic: the tree in memory
   * is the one the next mount reads if and only if it was so at the start and every file was created in the root.
   */
  method Replay(v: VFS, calls: seq<Call>) returns (done: nat, ghost states: seq<Snapshot>, ghost events: seq<Event>)
    requires v.Valid() && Feasible(v.fs.g, Snapshot(v.root, v.fs.files), calls)
    modifies v, v.fs, v.fs.cm, (set o | o in v.fs.cache)
    ensures done <= |calls| && Trace(states, events) && |events| == done && |states| == done + 1
    ensures states[0] == old(Snapshot(v.root, v.fs.files))
    ensures forall k :: 0 <= k < done ==> Answers(states[k], calls[k], events[k])
    ensures done == |calls| ==>
              && v.Valid() && states[done] == Snapshot(v.root, v.fs.files)
              && (IsTree(v.root, v.fs.files) <==> IsTree(states[0].root, states[0].files) && AllInRoot(events))
  {
    hide *;
    v.Elim();
    TraceOfNone(Snapshot(v.root, v.fs.files));
    done, states, events := 0, [Snapshot(v.root, v.fs.files)], [];
    assert calls[0..] == calls;
    while done < |calls|
      invariant done <= |calls| && Trace(states, events) && |events| == done && |states| == done + 1
      invariant states[0] == old(Snapshot(v.root, v.fs.files))
      invariant forall k :: 0 <= k < done ==> Answers(states[k], calls[k], events[k])
      invariant v.Valid() && states[done] == Snapshot(v.root, v.fs.files)
      invariant Feasible(v.fs.g, states[done], calls[done..])
      invariant forall o :: o in v.fs.cache ==> o in old(v.fs.cache) || fresh(o)
    {
      FeasibleCall(v.fs.g, states[done], calls[done..]);
      var ok; ghost var e;
      ok, e := Perform(v, calls[done]);
      if !ok { return; }
      assert calls[done..][1..] == calls[done + 1..];
      ghost var s' := Snapshot(v.root, v.fs.files);
      TraceGrows(states, events, e, s');
      states, events, done := states + [s'], events + [e], done + 1;
    }
    TraceAgrees(states, events, done);
    assert events[..done] == events;
  }
}
