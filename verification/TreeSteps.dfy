/**
 * The steps of a transaction that changes the tree of names: an inode rewritten, taken
 * into use or put back, a name added or cleared.  Each is one update of the tree.
 */
module TreeSteps {
  import opened Sectors
  import opened FsSpec
  import opened FsInv
  import opened FsSteps
  import opened Log
  import opened Blocks
  import opened BlockMap
  import opened Inodes
  import opened Trunc
  import opened DirSpec
  import opened Dirs
  import opened LinkSpec
  import opened Links
  import opened TreeOf
  import opened Paths

  // Inodes as the operations leave them

  /** A directory begins with its dots. */
  ghost predicate Dotted(c: seq<byte>) {
    2 * DESIZE <= |c| && NamedAt(c, 0, DOT) && NamedAt(c, 1, DOTDOT)
  }

  /** A directory is sound and begins with its dots; an inode not in use has no contents. */
  ghost predicate Fit(v: Disk, d: Dinode) {
    (d.typ == T_DIR ==> IsDir(v, d) && Dotted(Contents(v, d))) && (d.typ == 0 ==> d.size == 0)
  }

  ghost predicate AllFit(v: Disk, ii: seq<Dinode>) {
    forall i | 0 <= i < |ii| :: Fit(v, ii[i])
  }

  /** All inodes but one fit. */
  ghost predicate FitBut(v: Disk, ii: seq<Dinode>, x: nat) {
    forall i | 0 <= i < |ii| && i != x :: Fit(v, ii[i])
  }

  lemma {:induction false} FitKept(v: Disk, ii: seq<Dinode>, v': Disk, ii': seq<Dinode>, i: nat, x: nat)
    requires SameFiles(v, ii, v', ii', i) && i < |ii| && FitBut(v, ii, x) &&
      (forall j | 0 <= j < |ii| :: Mapped(v, ii[j]))
    requires i == x || Fit(v', ii'[i])
    ensures FitBut(v', ii', x)
  {
    hide Mapped, Contents, DirOk, NamedAt;
    forall j | 0 <= j < |ii'| && j != x
      ensures Fit(v', ii'[j])
    {
      if j != i { assert SameFile(v, ii[j], v', ii'[j]) && Fit(v, ii[j]); }
    }
  }

  /** The directories of a tree in shape are sound. */
  lemma {:induction false} SoundOfShape(v: Disk, ii: seq<Dinode>, home: seq<Home>)
    requires AllFit(v, ii) && Shaped(NodesOf(v, ii), home)
    ensures DirsSound(v, ii)
  {
    hide IsDir, Names, Contents, Dotted;
    var ns := NodesOf(v, ii);
    forall i | 0 <= i < |ii|
      ensures DirSound(v, ii[i], |ii|)
    {
      assert Fit(v, ii[i]) && NodeShape(ns, home, i);
      if ii[i].typ == T_DIR {
        forall s | s in ns[i].dir
          ensures ns[i].dir[s] < |ii|
        {
          if ns[i].Live() { assert EntryShape(ns, home, i, s); }
        }
      }
    }
  }

  // The transaction

  /** A transaction is open on a sound file system; it may still log the sectors of `base` and `slack` others. */
  ghost predicate Trans(log: Log, lay: Layout, ii: seq<Dinode>, owner: seq<Owner>, base: set<nat>, slack: nat)
    reads log, log.bc
  {
    && Ready(log, lay) && log.busy && log.bc.a.held == {} && FsOk(log.View(), ii, owner, lay)
    && Table(log.View(), ii, lay)
    && Room(log.bc.a.pinned, base, slack) && lay.Bitmaps() <= base
  }

  lemma {:induction false} TransFacts(log: Log, lay: Layout, ii: seq<Dinode>, owner: seq<Owner>, base: set<nat>,
                                      slack: nat)
    requires Trans(log, lay, ii, owner, base, slack)
    ensures |log.bc.a.pinned| <= CAP && lay.Ok() && |log.View()| == lay.Start() && |ii| == lay.ninodes
    ensures forall i | 0 <= i < |ii| :: ii[i].Ok() && Mapped(log.View(), ii[i])
  {
    hide Log.Valid, Log.View, Table, Mapped, Layout.Bitmaps;
    ShapeOf(log.View(), ii, owner, lay);
    RoomWithin(log.bc.a.pinned, base, slack, {}, 0);
    RoomEmpty(log.bc.a.pinned);
  }

  // Rewriting an inode

  /** An inode relabelled: its blocks, and so its contents, stay. */
  lemma {:induction false} Relabel(v: Disk, ii: seq<Dinode>, owner: seq<Owner>, lay: Layout, i: nat, d: Dinode)
    requires FsOk(v, ii, owner, lay) && i < |ii| && d.Ok() && d.size == ii[i].size && d.addrs == ii[i].addrs
    ensures FsOk(v, ii[i := d], owner, lay) && Mapped(v, d) && Contents(v, d) == Contents(v, ii[i])
  {
    var ii' := ii[i := d];
    RelabelMapped(v, ii[i], d);
    hide Mapped, Contents, Bit, Word;
    forall j: nat, k: nat | j < |ii'| && k < NSLOTS
      ensures OwnsSlot(v, ii', owner, j, k)
    {
      assert OwnsSlot(v, ii, owner, j, k);
    }
    forall b: nat | b < |owner|
      ensures OwnedOk(v, ii', owner, lay, b)
    {
      assert OwnedOk(v, ii, owner, lay, b);
    }
  }

  lemma {:induction false} RelabelMapped(v: Disk, d: Dinode, d': Dinode)
    requires Mapped(v, d) && d'.Ok() && d'.size == d.size && d'.addrs == d.addrs
    ensures Mapped(v, d') && Contents(v, d') == Contents(v, d)
  {
    hide Word;
    forall k: nat | k < NSLOTS
      ensures MappedSlot(v, d', k) && Addr(v, d', k) == Addr(v, d, k)
    {
      assert MappedSlot(v, d, k);
    }
    forall o | 0 <= o < d.size
      ensures ByteAt(v, d', o) == ByteAt(v, d, o)
    {
    }
  }

  /** What rewriting inode `i` as `d` does. */
  ghost predicate Rewritten(v: Disk, ii: seq<Dinode>, v': Disk, ii': seq<Dinode>, lay: Layout, i: nat, d: Dinode) {
    && i < |ii| && ii' == ii[i := d] && SameFiles(v, ii, v', ii', i) && Mapped(v, ii[i]) && Mapped(v', d)
    && Contents(v', d) == Contents(v, ii[i])
    && lay.Ok() && |v| == |v'| == lay.Start() && FreeBlocks(v', lay) == FreeBlocks(v, lay)
  }

  lemma {:induction false} PutRewrites(v: Disk, ii: seq<Dinode>, owner: seq<Owner>, lay: Layout, i: nat, d: Dinode)
    requires FsOk(v, ii, owner, lay) && Table(v, ii, lay) && i < |ii| && d.Ok() && d.size == ii[i].size &&
      d.addrs == ii[i].addrs
    ensures var v', ii' := PutInode(v, lay, i, d), ii[i := d];
      FsOk(v', ii', owner, lay) && Table(v', ii', lay) && Rewritten(v, ii, v', ii', lay, i, d)
  {
    var v' := PutInode(v, lay, i, d);
    assert TableWrite(v, v', lay, lay.IBlock(i)) by { hide PutDinode, FsOk; }
    hide PutInode, Mapped, Contents, FsOwn, Table, TableWrite, FreeBlocks;
    TableOfPut(v, ii, lay, i, d);
    TableWriteOk(v, v', ii, owner, lay, lay.IBlock(i));
    Relabel(v', ii, owner, lay, i, d);
    assert SameFile(v, ii[i], v', ii[i]);
    forall j: nat | j < |ii| && j != i
      ensures SameFile(v, ii[j], v', ii[i := d][j])
    {
      assert SameFile(v, ii[j], v', ii[j]);
    }
  }

  /** `inode_update` of an inode whose size and blocks are as on disk. */
  method SetInode(log: Log, i: nat, d: Dinode, ghost lay: Layout, ghost ii: seq<Dinode>, ghost owner: seq<Owner>,
                  ghost base: set<nat>, ghost slack: nat)
    requires Trans(log, lay, ii, owner, base, slack) && i < |ii| && lay.IBlock(i) in base
    requires d.Ok() && d.size == ii[i].size && d.addrs == ii[i].addrs
    modifies log`lh, log`slot, log.bc
    ensures Trans(log, lay, ii[i := d], owner, base, slack) &&
      Rewritten(old(log.View()), ii, log.View(), ii[i := d], lay, i, d)
  {
    hide Log.Valid, Log.View, FsOk, Table, Room, Layout.Bitmaps, PutInode, Rewritten;
    PutRewrites(log.View(), ii, owner, lay, i, d);
    TransFacts(log, lay, ii, owner, base, slack);
    InodeUpdate(log, i, d, lay, base, slack);
  }

  /** Rewriting an inode is one update of the tree: of type and link count. */
  lemma {:induction false} RewrittenNode(v: Disk, ii: seq<Dinode>, v': Disk, ii': seq<Dinode>, lay: Layout, i: nat,
                                         d: Dinode)
    requires Rewritten(v, ii, v', ii', lay, i, d) && (forall j | 0 <= j < |ii| :: Mapped(v, ii[j]))
    ensures NodesOf(v', ii') == NodesOf(v, ii)[i := NodeOf(v', d)]
    ensures d.typ == ii[i].typ ==>
      NodeOf(v', d) == NodesOf(v, ii)[i].(nlink := Signed(d.nlink)) && (Fit(v, ii[i]) ==> Fit(v', d))
    ensures d.typ == ii[i].typ && DirsSound(v, ii) ==> DirsSound(v', ii')
  {
    hide Mapped, Contents, DirOk, Names, FreeBlocks, Dotted;
    OneNode(v, ii, v', ii', i);
    if d.typ == ii[i].typ && DirsSound(v, ii) {
      forall j | 0 <= j < |ii'|
        ensures DirSound(v', ii'[j], |ii'|)
      {
        assert DirSound(v, ii[j], |ii|);
        if j != i { assert SameFile(v, ii[j], v', ii'[j]); }
      }
    }
  }

  // Contents of the other files

  /** An inode's contents are as before. */
  ghost predicate SameContents(v: Disk, d: Dinode, v': Disk, d': Dinode) {
    Mapped(v, d) && Mapped(v', d') && d'.typ == d.typ && d'.size == d.size && Contents(v', d') == Contents(v, d)
  }

  lemma {:induction false} OtherSame(v: Disk, ii: seq<Dinode>, v': Disk, ii': seq<Dinode>, i: nat, j: nat)
    requires SameFiles(v, ii, v', ii', i) && j < |ii| && j != i && Mapped(v, ii[j])
    ensures SameContents(v, ii[j], v', ii'[j]) && (IsDir(v, ii[j]) ==> IsDir(v', ii'[j])) && ii'[j] == ii[j]
  {
    hide Mapped, Contents, DirOk;
    assert SameFile(v, ii[j], v', ii'[j]);
  }

  lemma {:induction false} RewrittenSame(v: Disk, ii: seq<Dinode>, v': Disk, ii': seq<Dinode>, lay: Layout, i: nat,
                                         d: Dinode)
    requires Rewritten(v, ii, v', ii', lay, i, d) && d.typ == ii[i].typ && d.size == ii[i].size
    ensures SameContents(v, ii[i], v', ii'[i]) && SameFiles(v, ii, v', ii', i) &&
      FreeBlocks(v', lay) == FreeBlocks(v, lay)
  {
    hide Mapped, Contents;
  }

  lemma {:induction false} SameType(v: Disk, d: Dinode, v': Disk, d': Dinode)
    requires SameContents(v, d, v', d')
    ensures d'.typ == d.typ
  {
  }

  lemma {:induction false} SameTwice(v: Disk, d: Dinode, v1: Disk, d1: Dinode, v2: Disk, d2: Dinode)
    requires SameContents(v, d, v1, d1) && SameContents(v1, d1, v2, d2)
    ensures SameContents(v, d, v2, d2)
  {
    hide Mapped, Contents;
  }

  /** Every inode but two keeps its type and its contents. */
  ghost predicate OthersKept(v: Disk, ii: seq<Dinode>, v': Disk, ii': seq<Dinode>, a: nat, b: nat) {
    |ii| == |ii'| && forall j: nat | j < |ii| && j != a && j != b :: SameContents(v, ii[j], v', ii'[j])
  }

  lemma {:induction false} OthersOfSame(v: Disk, ii: seq<Dinode>, v': Disk, ii': seq<Dinode>, i: nat, a: nat, b: nat)
    requires SameFiles(v, ii, v', ii', i) && (i == a || i == b) && forall j | 0 <= j < |ii| :: Mapped(v, ii[j])
    ensures OthersKept(v, ii, v', ii', a, b)
  {
    hide Mapped, Contents, IsDir;
    forall j: nat | j < |ii| && j != a && j != b
      ensures SameContents(v, ii[j], v', ii'[j])
    {
      OtherSame(v, ii, v', ii', i, j);
    }
  }

  lemma {:induction false} OthersOfRewrite(v: Disk, ii: seq<Dinode>, v': Disk, ii': seq<Dinode>, lay: Layout, i: nat,
                                           d: Dinode, a: nat, b: nat)
    requires Rewritten(v, ii, v', ii', lay, i, d) && (i == a || i == b || d.typ == ii[i].typ) && d.size == ii[i].size
    requires forall j | 0 <= j < |ii| :: Mapped(v, ii[j])
    ensures OthersKept(v, ii, v', ii', a, b) && (d.typ == ii[i].typ ==> SameContents(v, ii[i], v', ii'[i]))
  {
    hide Mapped, Contents, IsDir, FreeBlocks;
    forall j: nat | j < |ii| && j != a && j != b
      ensures SameContents(v, ii[j], v', ii'[j])
    {
      if j != i { OtherSame(v, ii, v', ii', i, j); } else { RewrittenSame(v, ii, v', ii', lay, i, d); }
    }
  }

  lemma {:induction false} OthersTwice(v: Disk, ii: seq<Dinode>, v1: Disk, ii1: seq<Dinode>, v2: Disk, ii2: seq<Dinode>,
                                       a: nat, b: nat)
    requires OthersKept(v, ii, v1, ii1, a, b) && OthersKept(v1, ii1, v2, ii2, a, b)
    ensures OthersKept(v, ii, v2, ii2, a, b)
  {
    hide SameContents;
    forall j: nat | j < |ii| && j != a && j != b
      ensures SameContents(v, ii[j], v2, ii2[j])
    {
      SameTwice(v, ii[j], v1, ii1[j], v2, ii2[j]);
    }
  }

  lemma {:induction false} OthersWiden(v: Disk, ii: seq<Dinode>, v': Disk, ii': seq<Dinode>, a: nat, b: nat)
    requires OthersKept(v, ii, v', ii', a, a)
    ensures OthersKept(v, ii, v', ii', a, b) && OthersKept(v, ii, v', ii', b, a) &&
      (b < |ii| && b != a ==> SameContents(v, ii[b], v', ii'[b]))
  {
    hide SameContents;
  }

  lemma {:induction false} OthersSelf(v: Disk, ii: seq<Dinode>, a: nat, b: nat)
    requires forall j | 0 <= j < |ii| :: Mapped(v, ii[j])
    ensures OthersKept(v, ii, v, ii, a, b)
  {
    hide Mapped;
  }

  /** A transaction on the tree, with the inode cache: its copies are right, and all inodes but `x` fit. */
  ghost predicate Working(log: Log, cache: IC.InodeCache, lay: Layout, ii: seq<Dinode>, owner: seq<Owner>,
                          base: set<nat>, slack: nat, x: nat)
    reads log, log.bc, cache
  {
    && Trans(log, lay, ii, owner, base, slack) && FitBut(log.View(), ii, x)
    && cache.Valid() && IC.Copies(cache.slots, ii) && |cache.at| == |ii|
  }

  /** `inode_lock` within a transaction. */
  method Lock(log: Log, cache: IC.InodeCache, k: nat, ghost i: nat, ghost lay: Layout, ghost ii: seq<Dinode>,
              ghost owner: seq<Owner>, ghost base: set<nat>, ghost slack: nat, ghost x: nat)
    returns (ok: bool)
    requires Working(log, cache, lay, ii, owner, base, slack, x) && Refers(cache, ii, k, i)
    modifies log.bc, cache`slots
    ensures ok == (ii[i].typ != 0) && log.View() == old(log.View()) && log.bc.a.pinned == old(log.bc.a.pinned)
    ensures ok ==> Working(log, cache, lay, ii, owner, base, slack, x) && Locked(cache, ii, k, i)
    ensures ok ==> cache.slots == old(cache.slots)[k := old(cache.slots[k]).(valid := true, d := ii[i])]
    ensures cache.Empty() == old(cache.Empty()) && forall j: nat :: cache.Ref(j) == old(cache.Ref(j))
  {
    hide Log.Valid, Log.View, FsOk, Table, FitBut, Room, Layout.Bitmaps, IC.InodeCache.Empty, IC.InodeCache.Ref;
    TransFacts(log, lay, ii, owner, base, slack);
    ok := LockInode(log, cache, k, i, lay, ii);
  }

  /** The link count of a locked inode is set, in memory and on disk. */
  method SetLinks(log: Log, cache: IC.InodeCache, k: nat, n: nat, ghost i: nat, ghost lay: Layout,
                  ghost ii: seq<Dinode>, ghost owner: seq<Owner>, ghost base: set<nat>, ghost slack: nat, ghost x: nat)
    returns (ghost ii': seq<Dinode>)
    requires Working(log, cache, lay, ii, owner, base, slack, x) && Locked(cache, ii, k, i) && lay.IBlock(i) in base &&
      n < U16
    modifies log`lh, log`slot, log.bc, cache`slots
    ensures Working(log, cache, lay, ii', owner, base, slack, x) && Locked(cache, ii', k, i)
    ensures ii' == ii[i := ii[i].(nlink := n)] && Rewritten(old(log.View()), ii, log.View(), ii', lay, i, ii'[i])
    ensures NodesOf(log.View(), ii') ==
      NodesOf(old(log.View()), ii)[i := NodesOf(old(log.View()), ii)[i].(nlink := Signed(n))]
    ensures cache.slots == old(cache.slots)[k := old(cache.slots[k]).(d := ii'[i])] &&
      cache.Empty() == old(cache.Empty())
    ensures forall j: nat :: cache.Ref(j) == old(cache.Ref(j))
  {
    hide Log.Valid, Log.View, Trans, FitBut, Rewritten, NodesOf, IC.InodeCache.Empty, IC.InodeCache.Ref, IC.Placed;
    TransFacts(log, lay, ii, owner, base, slack);
    assert IC.CopyOk(cache.slots[k], ii);
    ghost var v := log.View();
    var d := cache.slots[k].d.(nlink := n);
    IC.CopiesStored(cache.slots, cache.at, ii, k, cache.slots[k].(d := d), d);
    cache.Fill(k, true, d);
    SetInode(log, cache.slots[k].inum, d, lay, ii, owner, base, slack);
    ii' := ii[i := d];
    RewrittenNode(v, ii, log.View(), ii', lay, i, d);
    RewrittenFit(v, ii, log.View(), ii', lay, i, d, x);
  }

  lemma {:induction false} RewrittenFit(v: Disk, ii: seq<Dinode>, v': Disk, ii': seq<Dinode>, lay: Layout, i: nat,
                                        d: Dinode, x: nat)
    requires Rewritten(v, ii, v', ii', lay, i, d) && (forall j | 0 <= j < |ii| :: Mapped(v, ii[j])) && FitBut(v, ii, x)
    requires i == x || d.typ == ii[i].typ
    ensures FitBut(v', ii', x)
  {
    hide Mapped, Contents, DirOk, Names, FreeBlocks, Fit, NodesOf;
    RewrittenNode(v, ii, v', ii', lay, i, d);
    FitKept(v, ii, v', ii', i, x);
  }

  // Taking an inode into use

  /** The lowest inode from `k` on that is not in use. */
  ghost function FirstFree(ii: seq<Dinode>, k: nat): (r: nat)
    requires k <= |ii|
    ensures k <= r <= |ii| && (r < |ii| ==> ii[r].typ == 0) && forall j | k <= j < r :: ii[j].typ != 0
    decreases |ii| - k
  {
    if k == |ii| || ii[k].typ == 0 then k else FirstFree(ii, k + 1)
  }

  function NewInode(typ: nat): Dinode {
    Dinode(typ, 0, 0, 0, 0, seq(NDIRECT + 1, _ => 0))
  }

  lemma {:induction false} UnusedBlocks(v: Disk, d: Dinode)
    requires Mapped(v, d) && d.size == 0
    ensures d.addrs == seq(NDIRECT + 1, _ => 0)
  {
    forall k: nat | k <= NDIRECT
      ensures d.addrs[k] == 0
    {
      assert MappedSlot(v, d, k);
    }
  }

  lemma {:induction false} NoNames(v: Disk, d: Dinode)
    requires Mapped(v, d) && d.size == 0
    ensures NodeOf(v, d) == Node(d.typ, Signed(d.nlink), map[])
    ensures d.typ == T_DIR ==> IsDir(v, d) && Contents(v, d) == []
  {
    hide Mapped;
  }

  /** `inode_alloc`: the lowest inode not in use, cleared and given a type, and a reference to it. */
  method InodeAlloc(log: Log, cache: IC.InodeCache, typ: nat, ghost lay: Layout, ghost ii: seq<Dinode>,
                    ghost owner: seq<Owner>, ghost base: set<nat>, ghost slack: nat)
    returns (k: nat, inum: nat, ghost ii': seq<Dinode>)
    requires Working(log, cache, lay, ii, owner, base, slack, |ii|) && 0 < typ < U16 && 1 <= |ii|
    requires FirstFree(ii, 1) < |ii| && lay.IBlock(FirstFree(ii, 1)) in base && cache.Empty() > 0
    modifies log`lh, log`slot, log.bc, cache
    ensures inum == FirstFree(ii, 1) && ii' == ii[inum := NewInode(typ)]
    ensures Working(log, cache, lay, ii', owner, base, slack, inum) && Refers(cache, ii', k, inum)
    ensures Rewritten(old(log.View()), ii, log.View(), ii', lay, inum, ii'[inum])
    ensures NodesOf(log.View(), ii') == NodesOf(old(log.View()), ii)[inum := Node(typ, 0, map[])]
    ensures typ == T_DIR ==> IsDir(log.View(), ii'[inum]) && Contents(log.View(), ii'[inum]) == []
    ensures |cache.slots| == IC.NINODE && cache.slots == old(cache.slots)[k := cache.slots[k]] &&
      (old(cache.slots[k].ref) == 0 || old(cache.slots[k].inum) == inum)
    ensures forall j: nat :: cache.Ref(j) == old(cache.Ref(j)) + if j == inum then 1 else 0
    ensures forall j: nat | j < |ii| && j != inum ::
      |cache.at| == |ii| == |old(cache.at)| && cache.at[j] == old(cache.at[j])
  {
    hide Log.Valid, Log.View, Trans, FitBut, Rewritten, NodesOf, IC.InodeCache.Empty;
    TransFacts(log, lay, ii, owner, base, slack);
    ghost var v := log.View();
    inum := FindFree(log, lay, ii, owner, base, slack);
    UnusedFits(v, ii, inum);
    UnusedBlocks(v, ii[inum]);
    IC.CopiesTaken(cache.slots, ii, inum, NewInode(typ));
    SetInode(log, inum, NewInode(typ), lay, ii, owner, base, slack);
    ii' := ii[inum := NewInode(typ)];
    RewrittenNode(v, ii, log.View(), ii', lay, inum, ii'[inum]);
    RewrittenNew(v, ii, log.View(), ii', lay, inum, ii'[inum]);
    ghost var was := cache.slots;
    k := cache.Get(inum);
    TakenCopies(was, cache.slots, ii', k);
    assert cache.Ref(inum) > 0;
  }

  lemma {:induction false} UnusedFits(v: Disk, ii: seq<Dinode>, i: nat)
    requires FitBut(v, ii, |ii|) && i < |ii| && ii[i].typ == 0
    ensures ii[i].size == 0
  {
    assert Fit(v, ii[i]);
  }

  lemma {:induction false} RewrittenNew(v: Disk, ii: seq<Dinode>, v': Disk, ii': seq<Dinode>, lay: Layout, i: nat,
                                        d: Dinode)
    requires Rewritten(v, ii, v', ii', lay, i, d) && (forall j | 0 <= j < |ii| :: Mapped(v, ii[j])) &&
      FitBut(v, ii, |ii|) && d.size == 0
    ensures FitBut(v', ii', i) && NodeOf(v', d) == Node(d.typ, Signed(d.nlink), map[])
    ensures d.typ == T_DIR ==> IsDir(v', d) && Contents(v', d) == []
  {
    hide Mapped, Contents, DirOk, Names, FreeBlocks, Fit, IsDir;
    NoNames(v', d);
    FitKept(v, ii, v', ii', i, i);
  }

  /** The search of `inode_alloc`. */
  method FindFree(log: Log, ghost lay: Layout, ghost ii: seq<Dinode>, ghost owner: seq<Owner>, ghost base: set<nat>,
                  ghost slack: nat)
    returns (inum: nat)
    requires Trans(log, lay, ii, owner, base, slack) && 1 <= |ii| && FirstFree(ii, 1) < |ii|
    modifies log.bc
    ensures Trans(log, lay, ii, owner, base, slack) && log.View() == old(log.View()) && inum == FirstFree(ii, 1)
  {
    TransFacts(log, lay, ii, owner, base, slack);
    hide Log.Valid, Log.View, FsOk, Table, Room, Layout.Bitmaps;
    var size, ninodes := ReadSuper(log, lay);
    inum := 1;
    while inum < ninodes
      invariant 1 <= inum <= |ii| && FirstFree(ii, 1) == FirstFree(ii, inum)
      invariant Trans(log, lay, ii, owner, base, slack) && log.View() == old(log.View()) &&
        log.bc.a.pinned == old(log.bc.a.pinned)
    {
      var d := ReadInode(log, inum, lay, ii);
      if d.typ == 0 { return; }
      inum := inum + 1;
    }
  }

  // Names

  lemma {:induction false} DottedKept(c: seq<byte>, k: nat, e: seq<byte>)
    requires Whole(c) && Dotted(c) && 2 <= k <= EntryCount(c) && IsEntry(e)
    ensures Dotted(Splice(c, DESIZE * k, e))
  {
    SpliceEntry(c, k, e, 0);
    SpliceEntry(c, k, e, 1);
  }

  /** There is room in the directory, in the log and on the disk for another entry. */
  ghost predicate CanAdd(v: Disk, lay: Layout, d: Dinode, slack: nat) {
    && Mapped(v, d) && lay.Ok() && |v| == lay.Start()
    && !BadWrite(d.size, NewOffset(v, d), DESIZE) && EntryCost(d.size, NewOffset(v, d)) <= slack
    && Growth(d.size, NewOffset(v, d)) <= |FreeBlocks(v, lay)|
  }

  lemma {:induction false} CanAddMore(v: Disk, lay: Layout, d: Dinode, slack: nat, slack': nat)
    requires slack <= slack'
    ensures CanAdd(v, lay, d, slack) ==> CanAdd(v, lay, d, slack')
  {
  }

  lemma {:induction false} CostAtMost(size: nat, off: nat)
    ensures EntryCost(size, off) <= 2
  {
  }

  lemma {:induction false} FitButIsDir(v: Disk, ii: seq<Dinode>, i: nat, x: nat)
    requires FitBut(v, ii, x) && i < |ii| && i != x && ii[i].typ == T_DIR
    ensures IsDir(v, ii[i]) && Mapped(v, ii[i])
  {
    assert Fit(v, ii[i]);
  }

  /** Name `s` of directory `i` has been given to inode `inum`. */
  ghost predicate Named(v: Disk, ii: seq<Dinode>, v': Disk, ii': seq<Dinode>, i: nat, s: Name, inum: nat) {
    && i < |ii| == |ii'| && IsDir(v, ii[i]) && IsDir(v', ii'[i]) && ii'[i].nlink == ii[i].nlink
    && SameFiles(v, ii, v', ii', i)
    && inum < U16 && Contents(v', ii'[i]) == Splice(Contents(v, ii[i]), NewOffset(v, ii[i]), NewEntry(s, inum))
    && Names(Contents(v', ii'[i])) == Names(Contents(v, ii[i]))[s := inum]
  }

  lemma {:induction false} NamedNode(v: Disk, ii: seq<Dinode>, v': Disk, ii': seq<Dinode>, i: nat, s: Name, inum: nat,
                                     x: nat)
    requires Named(v, ii, v', ii', i, s, inum) && (forall j | 0 <= j < |ii| :: Mapped(v, ii[j])) && FitBut(v, ii, x)
    ensures NodesOf(v', ii') == WithName(NodesOf(v, ii), i, s, inum) &&
      FitBut(v', ii', x)
  {
    hide Mapped, Contents, DirOk, Names, Dotted, Splice;
    OneNode(v, ii, v', ii', i);
    if i != x {
      assert Fit(v, ii[i]);
      DirSize(v, ii[i]);
      DottedSkips(Contents(v, ii[i]));
      DottedKept(Contents(v, ii[i]), FirstDead(Contents(v, ii[i]), 0), NewEntry(s, inum));
    }
    FitKept(v, ii, v', ii', i, x);
  }

  lemma {:induction false} DottedSkips(c: seq<byte>)
    requires Whole(c) && Dotted(c)
    ensures 2 <= FirstDead(c, 0)
  {
  }

  /** `dir_link` on a locked directory. */
  method AddName(log: Log, cache: IC.InodeCache, k: nat, name: Name, inum: nat, ghost i: nat, ghost lay: Layout,
                 ghost ii: seq<Dinode>, ghost owner: seq<Owner>, ghost base: set<nat>, ghost slack: nat, ghost x: nat)
    returns (r: int, ghost ii': seq<Dinode>, ghost owner': seq<Owner>)
    requires Working(log, cache, lay, ii, owner, base, slack, x) && Locked(cache, ii, k, i) && lay.IBlock(i) in base &&
      IsDir(log.View(), ii[i])
    requires IsString(name) && Cut(name) == name && 0 < inum < U16
    requires name !in NodesOf(log.View(), ii)[i].dir ==> CanAdd(log.View(), lay, ii[i], slack)
    modifies log`lh, log`slot, log.bc, cache`slots
    ensures |ii'| == |ii| && Locked(cache, ii', k, i) &&
      cache.slots == old(cache.slots)[k := old(cache.slots[k]).(d := ii'[i])]
    ensures cache.Empty() == old(cache.Empty()) && forall j: nat :: cache.Ref(j) == old(cache.Ref(j))
    ensures old(name in NodesOf(log.View(), ii)[i].dir) ==>
      r == -1 && log.View() == old(log.View()) && ii' == ii && owner' == owner &&
        Working(log, cache, lay, ii, owner, base, slack, x)
    ensures old(name !in NodesOf(log.View(), ii)[i].dir) ==>
      && r == 0 && Named(old(log.View()), ii, log.View(), ii', i, name, inum)
      && EntryCost(ii[i].size, NewOffset(old(log.View()), ii[i])) <= slack
      && Working(log, cache, lay, ii', owner', base, slack - EntryCost(ii[i].size, NewOffset(old(log.View()), ii[i])),
         x)
      && |FreeBlocks(log.View(), lay)| ==
         |FreeBlocks(old(log.View()), lay)| - Growth(ii[i].size, NewOffset(old(log.View()), ii[i]))
      && NodesOf(log.View(), ii') == WithName(NodesOf(old(log.View()), ii), i, name, inum)
  {
    hide Log.Valid, Log.View, FsOk, Table, FitBut, Room, Layout.Bitmaps, Mapped, Contents, Names, DirOk,
      IC.InodeCache.Empty, IC.InodeCache.Ref;
    hide FreeBlocks, Growth, EntryCost, BadWrite, Splice, FirstDead, SameFiles, Cut, IsString;
    TransFacts(log, lay, ii, owner, base, slack);
    assert IC.CopyOk(cache.slots[k], ii);
    ghost var v := log.View();
    NewOffsetWhole(v, ii[i]);
    var d;
    r, d, ii', owner' := DirLink(log, cache.slots[k].inum, cache.slots[k].d, name, inum, lay, ii, owner, base, slack);
    IC.CopiesStored(cache.slots, cache.at, ii, k, cache.slots[k].(d := d), d);
    cache.Fill(k, true, d);
    if r == 0 {
      SameFilesSeq(v, ii, log.View(), ii', i);
      NamedNode(v, ii, log.View(), ii', i, name, inum, x);
    } else {
      assert ii[i := d] == ii;
    }
  }

  lemma {:induction false} NewOffsetWhole(v: Disk, d: Dinode)
    requires IsDir(v, d)
    ensures NewOffset(v, d) % DESIZE == 0
  {
  }

  lemma {:induction false} LessSlack(log: Log, cache: IC.InodeCache, lay: Layout, ii: seq<Dinode>, owner: seq<Owner>,
                                     base: set<nat>, slack: nat, slack': nat, x: nat)
    requires Working(log, cache, lay, ii, owner, base, slack, x) && slack' <= slack
    ensures Working(log, cache, lay, ii, owner, base, slack', x)
  {
    hide Log.Valid, Log.View, FsOk, Table, FitBut, Layout.Bitmaps;
  }

  lemma {:induction false} NamedOthers(v: Disk, ii: seq<Dinode>, v': Disk, ii': seq<Dinode>, i: nat, s: Name, inum: nat)
    requires Named(v, ii, v', ii', i, s, inum) && forall j | 0 <= j < |ii| :: Mapped(v, ii[j])
    ensures OthersKept(v, ii, v', ii', i, i)
  {
    hide IsDir, Names, Contents, Mapped, SameFiles, Splice;
    OthersOfSame(v, ii, v', ii', i, i, i);
  }

  /** `dir_link` on a locked directory, with room for it: whatever the entry's place, two sectors cover it. */
  method AddEntry(log: Log, cache: IC.InodeCache, k: nat, name: Name, inum: nat, ghost i: nat, ghost lay: Layout,
                  ghost ii: seq<Dinode>, ghost owner: seq<Owner>, ghost base: set<nat>, ghost slack: nat)
    returns (r: int, ghost ii': seq<Dinode>, ghost owner': seq<Owner>)
    requires Working(log, cache, lay, ii, owner, base, slack, |ii|) && Locked(cache, ii, k, i) &&
      lay.IBlock(i) in base && ii[i].typ == T_DIR && slack >= 2
    requires IsString(name) && Cut(name) == name && 0 < inum < U16
    requires name !in NodesOf(log.View(), ii)[i].dir ==> CanAdd(log.View(), lay, ii[i], 2)
    modifies log`lh, log`slot, log.bc, cache`slots
    ensures |ii'| == |ii| && Working(log, cache, lay, ii', owner', base, slack - 2, |ii|) && Locked(cache, ii', k, i)
    ensures cache.slots == old(cache.slots)[k := old(cache.slots[k]).(d := ii'[i])] &&
      cache.Empty() == old(cache.Empty())
    ensures forall j: nat :: cache.Ref(j) == old(cache.Ref(j))
    ensures var ns := NodesOf(old(log.View()), ii);
      if name in ns[i].dir then r == -1 && NodesOf(log.View(), ii') == ns
      else r == 0 && NodesOf(log.View(), ii') == WithName(ns, i, name, inum)
    ensures OthersKept(old(log.View()), ii, log.View(), ii', i, i)
  {
    hide OthersKept;
    hide Log.Valid, Log.View, Trans, FitBut, IsDir, Contents, Layout.Bitmaps, NodesOf, Named, CanAdd, IsString, Cut,
      IC.InodeCache.Empty, IC.InodeCache.Ref, IC.Placed;
    hide EntryCost, Growth, NewOffset, FreeBlocks, Mapped;
    ghost var v := log.View();
    FitButIsDir(v, ii, i, |ii|);
    CanAddMore(v, lay, ii[i], 2, slack);
    CostAtMost(ii[i].size, NewOffset(v, ii[i]));
    TransFacts(log, lay, ii, owner, base, slack);
    r, ii', owner' := AddName(log, cache, k, name, inum, i, lay, ii, owner, base, slack, |ii|);
    if r == 0 { NamedOthers(v, ii, log.View(), ii', i, name, inum); } else { OthersSelf(v, ii, i, i); }
    LessSlack(log, cache, lay, ii', owner', base, if r == 0 then slack - EntryCost(ii[i].size, NewOffset(v, ii[i]))
      else slack, slack - 2, |ii|);
  }

  /** `dir_lookup` in a locked directory. */
  method Lookup(log: Log, cache: IC.InodeCache, k: nat, name: Name, ghost i: nat, ghost lay: Layout,
                ghost ii: seq<Dinode>, ghost owner: seq<Owner>, ghost base: set<nat>, ghost slack: nat)
    returns (inum: nat, off: nat)
    requires Trans(log, lay, ii, owner, base, slack) && Locked(cache, ii, k, i) && IsDir(log.View(), ii[i]) &&
      IsString(name) && Cut(name) == name
    modifies log`lh, log`slot, log.bc
    ensures Trans(log, lay, ii, owner, base, slack) && log.View() == old(log.View())
    ensures inum == 0 <==> name !in NodesOf(log.View(), ii)[i].dir
    ensures inum != 0 ==> NodesOf(log.View(), ii)[i].dir[name] == inum
    ensures inum != 0 ==>
      Whole(Contents(log.View(), ii[i])) && off == DESIZE * FirstNamed(Contents(log.View(), ii[i]), name, 0)
  {
    hide Log.Valid, Log.View, FsOk, Table, Room, Layout.Bitmaps, Mapped, Contents, Names, DirOk, FirstNamed, Cut,
      IsString;
    TransFacts(log, lay, ii, owner, base, slack);
    assert IC.CopyOk(cache.slots[k], ii);
    inum, off := DirLookup(log, cache.slots[k].d, name, lay, ii, owner, i);
  }

  /** `isdirempty` of a locked directory that fits: no names but its dots. */
  method IsEmpty(log: Log, cache: IC.InodeCache, k: nat, ghost i: nat, ghost lay: Layout, ghost ii: seq<Dinode>,
                 ghost owner: seq<Owner>, ghost base: set<nat>, ghost slack: nat)
    returns (empty: bool)
    requires Trans(log, lay, ii, owner, base, slack) && Locked(cache, ii, k, i) && Fit(log.View(), ii[i]) &&
      ii[i].typ == T_DIR
    modifies log`lh, log`slot, log.bc
    ensures Trans(log, lay, ii, owner, base, slack) && log.View() == old(log.View())
    ensures empty <==> forall s | s in NodesOf(log.View(), ii)[i].dir :: Dots(s)
  {
    hide Log.Valid, Log.View, FsOk, Table, Room, Layout.Bitmaps, Mapped, Contents, Names, DirOk, OnlyFirstTwo, Dotted;
    TransFacts(log, lay, ii, owner, base, slack);
    assert IC.CopyOk(cache.slots[k], ii);
    DirSize(log.View(), ii[i]);
    DottedOnly(Contents(log.View(), ii[i]));
    empty := IsDirEmpty(log, cache.slots[k].d, lay, ii, owner, i);
  }

  lemma {:induction false} DottedOnly(c: seq<byte>)
    requires DirOk(c) && Dotted(c)
    ensures 2 <= EntryCount(c) && LiveAt(c, 0) && LiveAt(c, 1) &&
      (OnlyFirstTwo(c) <==> forall s | s in Names(c) :: Dots(s))
  {
    InMap(c, EntryCount(c), 0, DOT);
    InMap(c, EntryCount(c), 1, DOTDOT);
    hide DirMap;
    if forall s | s in Names(c) :: Dots(s) { assert Names(c).Keys == {DOT, DOTDOT}; }
  }

  /** Name `s` has gone from directory `i`. */
  ghost predicate Cleared(v: Disk, ii: seq<Dinode>, v': Disk, ii': seq<Dinode>, i: nat, s: Name) {
    && i < |ii| == |ii'| && IsDir(v, ii[i]) && IsDir(v', ii'[i]) && ii'[i].nlink == ii[i].nlink
    && SameFiles(v, ii, v', ii', i)
    && Contents(v', ii'[i]) == Splice(Contents(v, ii[i]), DESIZE * FirstNamed(Contents(v, ii[i]), s, 0), NoEntry())
    && s in Names(Contents(v, ii[i])) && Names(Contents(v', ii'[i])) == Names(Contents(v, ii[i])) - {s}
  }

  lemma {:induction false} ClearedNode(v: Disk, ii: seq<Dinode>, v': Disk, ii': seq<Dinode>, i: nat, s: Name, x: nat)
    requires Cleared(v, ii, v', ii', i, s) && (forall j | 0 <= j < |ii| :: Mapped(v, ii[j])) && FitBut(v, ii, x) &&
      !Dots(s)
    ensures NodesOf(v', ii') == NodesOf(v, ii)[i := NodesOf(v, ii)[i].(dir := NodesOf(v, ii)[i].dir - {s})] &&
      FitBut(v', ii', x)
  {
    hide Mapped, Contents, DirOk, Names, Dotted, Splice;
    OneNode(v, ii, v', ii', i);
    if i != x {
      assert Fit(v, ii[i]);
      DirSize(v, ii[i]);
      var c := Contents(v, ii[i]);
      DottedPast(c, s);
      DottedKept(c, FirstNamed(c, s, 0), NoEntry());
    }
    FitKept(v, ii, v', ii', i, x);
  }

  lemma {:induction false} DottedPast(c: seq<byte>, s: Name)
    requires Dotted(c) && !Dots(s)
    ensures 2 <= FirstNamed(c, s, 0)
  {
  }

  lemma {:induction false} WriteInside(size: nat, k: nat)
    requires DESIZE * k + DESIZE <= size <= MAXFILE * BSIZE && size % DESIZE == 0
    ensures !BadWrite(size, DESIZE * k, DESIZE) && DESIZE * k % DESIZE == 0 && EntryCost(size, DESIZE * k) <= 2 &&
      Growth(size, DESIZE * k) == 0
  {
    GrowthIs(size, DESIZE * k);
    hide Growth;
  }

  /** Clearing a name costs no block, and there is room for it in the log. */
  lemma {:induction false} CanClear(log: Log, lay: Layout, ii: seq<Dinode>, owner: seq<Owner>, base: set<nat>,
                                    slack: nat, i: nat, s: Name)
    requires Trans(log, lay, ii, owner, base, slack) && i < |ii| && IsDir(log.View(), ii[i]) && lay.IBlock(i) in base &&
      slack >= 2
    requires Whole(Contents(log.View(), ii[i])) && s in Names(Contents(log.View(), ii[i]))
    ensures var off := DESIZE * FirstNamed(Contents(log.View(), ii[i]), s, 0);
      CanPut(log.View(), log.bc.a.pinned, lay, ii, i, off, base, slack) && EntryCost(ii[i].size, off) <= 2
  {
    hide Log.Valid, Log.View, FsOk, Contents, Mapped, Table, Room, Layout.Bitmaps, FreeBlocks, Names, FirstNamed,
      Growth, EntryCost, BadWrite;
    DirSize(log.View(), ii[i]);
    SearchIsLookup(Contents(log.View(), ii[i]), s);
    WriteInside(ii[i].size, FirstNamed(Contents(log.View(), ii[i]), s, 0));
  }

  /** `sys_unlink`'s write over the entry it found. */
  method ClearName(log: Log, cache: IC.InodeCache, k: nat, ghost name: Name, off: nat, ghost i: nat, ghost lay: Layout,
                   ghost ii: seq<Dinode>, ghost owner: seq<Owner>, ghost base: set<nat>, ghost slack: nat, ghost x: nat)
    returns (ghost ii': seq<Dinode>, ghost owner': seq<Owner>)
    requires Working(log, cache, lay, ii, owner, base, slack, x) && Locked(cache, ii, k, i) && lay.IBlock(i) in base &&
      IsDir(log.View(), ii[i])
    requires name in NodesOf(log.View(), ii)[i].dir && !Dots(name) && slack >= 2
    requires Whole(Contents(log.View(), ii[i])) && off == DESIZE * FirstNamed(Contents(log.View(), ii[i]), name, 0)
    modifies log`lh, log`slot, log.bc, cache`slots
    ensures |ii'| == |ii| && Locked(cache, ii', k, i) &&
      cache.slots == old(cache.slots)[k := old(cache.slots[k]).(d := ii'[i])]
    ensures cache.Empty() == old(cache.Empty()) && forall j: nat :: cache.Ref(j) == old(cache.Ref(j))
    ensures ii' == ii && owner' == owner
    ensures Cleared(old(log.View()), ii, log.View(), ii', i, name) &&
      Working(log, cache, lay, ii', owner', base, slack - 2, x)
    ensures NodesOf(log.View(), ii') ==
      NodesOf(old(log.View()), ii)[i :=
      NodesOf(old(log.View()), ii)[i].(dir := NodesOf(old(log.View()), ii)[i].dir - {name})]
  {
    hide Log.Valid, Log.View, FsOk, Table, FitBut, Layout.Bitmaps, Mapped, Contents, Names, DirOk, IC.InodeCache.Empty,
      IC.InodeCache.Ref;
    hide CanPut, FreeBlocks, Growth, EntryCost, Splice, FirstNamed, SameFiles, Room;
    TransFacts(log, lay, ii, owner, base, slack);
    CanClear(log, lay, ii, owner, base, slack, i, name);
    assert IC.CopyOk(cache.slots[k], ii);
    ghost var v := log.View();
    var d;
    d, ii', owner' := DirClear(log, cache.slots[k].inum, cache.slots[k].d, name, off, lay, ii, owner, base, slack);
    RoomWithin(log.bc.a.pinned, base, slack - EntryCost(ii[i].size, off), base, slack - 2);
    IC.CopiesStored(cache.slots, cache.at, ii, k, cache.slots[k].(d := d), d);
    cache.Fill(k, true, d);
    SameFilesSeq(v, ii, log.View(), ii', i);
    ClearedNode(v, ii, log.View(), ii', i, name, x);
  }

  // Putting an inode back

  lemma {:induction false} EmptiedNode(v: Disk, ii: seq<Dinode>, owner: seq<Owner>, v1: Disk, ii1: seq<Dinode>,
                                       owner1: seq<Owner>, v2: Disk, ii2: seq<Dinode>, lay: Layout, i: nat, d: Dinode,
                                       x: nat)
    requires (forall j | 0 <= j < |ii| :: Mapped(v, ii[j])) && FitBut(v, ii, x)
    requires Emptied(v, ii, owner, v1, ii1, owner1, lay, i) && Rewritten(v1, ii1, v2, ii2, lay, i, d) &&
      d == ii1[i].(typ := 0) && d.nlink == 0
    ensures NodesOf(v2, ii2) == NodesOf(v, ii)[i := Node(0, 0, map[])] && FitBut(v2, ii2, x)
    ensures SameFiles(v, ii, v2, ii2, i) && d.size == 0 && owner1 == Disown(owner, i)
  {
    hide Mapped, Contents, FreeBlocks, FsOk, Table, FreesExactly, Disown, Names;
    SameFilesTrans(v, ii, v1, ii1, v2, ii2, i);
    OneNode(v, ii, v2, ii2, i);
    FitKept(v, ii, v2, ii2, i, x);
  }

  /** Out of use, and empty. */
  predicate OutOfUse(d: Dinode) {
    d.typ == 0 && d.size == 0
  }

  /** Who owns a block decides whether it is marked: without the blocks of `i`, exactly these are free besides. */
  lemma {:induction false} DisownFrees(v: Disk, ii: seq<Dinode>, owner: seq<Owner>, v': Disk, ii': seq<Dinode>,
                                       lay: Layout, i: nat)
    requires FsOwn(v, ii, owner, lay) && FsOwn(v', ii', Disown(owner, i), lay)
    ensures FreesExactly(v, v', owner, lay, i)
  {
    hide BlockBit, Addr, OwnsSlot;
    forall b: nat | b < |owner|
      ensures BlockBit(v', lay, b) == (BlockBit(v, lay, b) && !(owner[b].Slot? && owner[b].inum == i))
    {
      assert OwnedOk(v, ii, owner, lay, b) && OwnedOk(v', ii', Disown(owner, i), lay, b);
    }
  }

  /** The part of `inode_put` that frees the inode. */
  method FreeInode(log: Log, cache: IC.InodeCache, k: nat, ghost i: nat, ghost lay: Layout, ghost ii: seq<Dinode>,
                   ghost owner: seq<Owner>, ghost base: set<nat>, ghost slack: nat, ghost x: nat)
    returns (ghost ii': seq<Dinode>, ghost owner': seq<Owner>)
    requires Working(log, cache, lay, ii, owner, base, slack, x) && Locked(cache, ii, k, i) && lay.IBlock(i) in base &&
      ii[i].nlink == 0
    modifies log`lh, log`slot, log.bc, cache`slots
    ensures |ii'| == |ii| && Working(log, cache, lay, ii', owner', base, slack, x) && Refers(cache, ii', k, i) &&
      ii' == ii[i := ii'[i]]
    ensures cache.slots == old(cache.slots)[k := cache.slots[k].(ref := old(cache.slots[k].ref), inum := i)]
    ensures cache.Empty() == old(cache.Empty()) && forall j: nat :: cache.Ref(j) == old(cache.Ref(j))
    ensures NodesOf(log.View(), ii') == NodesOf(old(log.View()), ii)[i := Node(0, 0, map[])]
    ensures SameFiles(old(log.View()), ii, log.View(), ii', i) && OutOfUse(ii'[i]) && owner' == Disown(owner, i)
  {
    hide Log.Valid, Log.View, FsOk, Table, FitBut, Layout.Bitmaps, Mapped, Contents, IC.InodeCache.Empty,
      IC.InodeCache.Ref, NodesOf, Room, FreesExactly, Rewritten, SameFiles, Disown;
    TransFacts(log, lay, ii, owner, base, slack);
    assert IC.CopyOk(cache.slots[k], ii);
    ghost var v := log.View();
    var d;
    ghost var ii1;
    d, ii1, owner' := InodeTrunc(log, cache.slots[k].inum, cache.slots[k].d, lay, ii, owner, base, slack);
    ghost var v1 := log.View();
    SetInode(log, cache.slots[k].inum, d.(typ := 0), lay, ii1, owner', base, slack);
    d := d.(typ := 0);
    ii' := ii1[i := d];
    assert ii' == ii[i := d];
    EmptiedNode(v, ii, owner, v1, ii1, owner', log.View(), ii', lay, i, d, x);
    IC.CopiesStored(cache.slots, cache.at, ii, k, cache.slots[k].(valid := false, d := d), d);
    cache.Fill(k, false, d);
  }

  lemma {:induction false} TransOwn(log: Log, lay: Layout, ii: seq<Dinode>, owner: seq<Owner>, base: set<nat>,
                                    slack: nat)
    requires Trans(log, lay, ii, owner, base, slack)
    ensures FsOwn(log.View(), ii, owner, lay)
  {
    hide Log.Valid, Log.View, Table, Mapped, OwnsSlot, OwnedOk;
  }

  lemma {:induction false} SameFilesSelf(v: Disk, ii: seq<Dinode>, i: nat)
    ensures SameFiles(v, ii, v, ii, i)
  {
  }

  /** `inode_put` of an inode that has been locked or has links: the last reference to one without links frees it. */
  method InodePut(log: Log, cache: IC.InodeCache, k: nat, ghost i: nat, ghost lay: Layout, ghost ii: seq<Dinode>,
                  ghost owner: seq<Owner>, ghost base: set<nat>, ghost slack: nat, ghost x: nat)
    returns (ghost ii': seq<Dinode>, ghost owner': seq<Owner>)
    requires Working(log, cache, lay, ii, owner, base, slack, x) && Refers(cache, ii, k, i) && lay.IBlock(i) in base
    requires cache.slots[k].valid || ii[i].nlink != 0
    modifies log`lh, log`slot, log.bc, cache
    ensures |ii'| == |ii| && Working(log, cache, lay, ii', owner', base, slack, x)
    ensures NodesOf(log.View(), ii') == Dropped(NodesOf(old(log.View()), ii), i, old(cache.Ref(i)) == 1)
    ensures forall j: nat :: cache.Ref(j) == old(cache.Ref(j)) - if j == i then 1 else 0
    ensures |cache.slots| == IC.NINODE && forall j | 0 <= j < IC.NINODE && j != k ::
      cache.slots[j] == old(cache.slots[j])
    ensures forall j | 0 <= j < |ii| && j != i :: cache.at[j] == old(cache.at[j])
    ensures !(old(cache.Ref(i)) == 1 && ii[i].nlink == 0) ==>
      ii' == ii && owner' == owner && log.View() == old(log.View())
    ensures old(cache.Ref(i)) > 1 ==>
      cache.at == old(cache.at) && cache.slots[k] == old(cache.slots[k]).(ref := old(cache.slots[k].ref) - 1)
    ensures ii' == ii[i := ii'[i]] && SameFiles(old(log.View()), ii, log.View(), ii', i)
    ensures old(cache.Ref(i)) == 1 && ii[i].nlink == 0 ==>
      OutOfUse(ii'[i]) && owner' == Disown(owner, i) && FreesExactly(old(log.View()), log.View(), owner, lay, i)
  {
    hide Log.Valid, Log.View, Trans, FitBut, Disown, FreesExactly, Mapped, IC.InodeCache.Empty;
    TransFacts(log, lay, ii, owner, base, slack);
    assert IC.CopyOk(cache.slots[k], ii);
    ghost var v := log.View();
    TransOwn(log, lay, ii, owner, base, slack);
    SameFilesSelf(v, ii, i);
    ii', owner' := ii, owner;
    if LastPut(cache.slots[k]) {
      ii', owner' := FreeInode(log, cache, k, i, lay, ii, owner, base, slack, x);
      TransOwn(log, lay, ii', owner', base, slack);
      DisownFrees(v, ii, owner, log.View(), ii', lay, i);
    }
    assert IC.CopyOk(cache.slots[k], ii') && cache.Ref(i) == old(cache.Ref(i));
    CopiesRef(cache.slots, ii', k, cache.slots[k].(ref := cache.slots[k].ref - 1));
    cache.Put(k);
  }
}
