/**
 * Transactions on the tree of names: what they start from, what they log, and what a crash
 * leaves.  At every sector write on the way, the disk is one from which recovery finds the
 * tree as it was or as it is after.
 */
module Namespace {
  import opened Sectors
  import opened FsSpec
  import opened FsInv
  import opened FsSteps
  import opened LogSpec
  import opened Log
  import opened Blocks
  import opened Inodes
  import opened Files
  import opened DirSpec
  import opened LinkSpec
  import opened PathSpec
  import opened TreeOf
  import opened Paths
  import opened Trunc
  import opened TreeSteps

  /** The tree on disk is in shape, its link counts are right and its directories begin with their dots. */
  ghost predicate TreeOk(v: Disk, ii: seq<Dinode>, home: seq<Home>) {
    AllFit(v, ii) && Shaped(NodesOf(v, ii), home) && LinksOk(NodesOf(v, ii))
  }

  /** The sectors that operations on inodes `i` and `j` may log, blocks of directories aside. */
  ghost function BaseOf(lay: Layout, i: nat, j: nat): set<nat> {
    lay.Bitmaps() + {lay.IBlock(i), lay.IBlock(j)}
  }

  /** Blocks of directories that a transaction may log besides. */
  const SLACK := CAP - 3

  /** A transaction has just begun. */
  ghost predicate Opened(log: Log, cache: IC.InodeCache, lay: Layout, ii: seq<Dinode>, owner: seq<Owner>)
    reads log, log.bc, cache
  {
    && Ready(log, lay) && log.busy && log.bc.a.held == {} && log.bc.a.pinned == {}
    && FsOk(log.View(), ii, owner, lay) && Table(log.View(), ii, lay)
    && lay.size < BPB && AllFit(log.View(), ii) && cache.Valid() && IC.Copies(cache.slots, ii) && |cache.at| == |ii|
  }

  lemma {:induction false} OpenedWorking(log: Log, cache: IC.InodeCache, lay: Layout, ii: seq<Dinode>,
                                         owner: seq<Owner>, i: nat, j: nat)
    requires Opened(log, cache, lay, ii, owner)
    ensures Working(log, cache, lay, ii, owner, BaseOf(lay, i, j), SLACK, |ii|)
  {
    hide Log.Valid, Log.View, FsOk, Table, Fit, Layout.Bitmaps;
    OneBitmap(lay);
    UnionBound(lay.Bitmaps(), {lay.IBlock(i), lay.IBlock(j)});
    UnionBound({lay.IBlock(i)}, {lay.IBlock(j)});
    assert {lay.IBlock(i)} + {lay.IBlock(j)} == {lay.IBlock(i), lay.IBlock(j)};
    assert {} + BaseOf(lay, i, j) == BaseOf(lay, i, j);
  }

  // Link counts

  lemma {:induction false} SignedStep(n: nat)
    requires n < U16
    ensures Signed((n + 1) % U16) == Inc16(Signed(n)) && Signed((n + U16 - 1) % U16) == Dec16(Signed(n))
  {
  }

  /** A link count less one. */
  function Dec16(n: int): int {
    if n == -MAXLINK - 1 then MAXLINK else n - 1
  }

  lemma {:induction false} NodeFacts(log: Log, lay: Layout, ii: seq<Dinode>, owner: seq<Owner>, base: set<nat>,
                                     slack: nat, i: nat)
    requires Trans(log, lay, ii, owner, base, slack) && i < |ii|
    ensures var n := NodesOf(log.View(), ii)[i];
      n.typ == ii[i].typ && n.nlink == Signed(ii[i].nlink) && ii[i].nlink < U16 && -MAXLINK - 1 <= n.nlink <= MAXLINK
  {
    TransFacts(log, lay, ii, owner, base, slack);
  }

  /** `nlink` of a locked inode goes up or down by one, and the inode is written back. */
  method StepLinks(log: Log, cache: IC.InodeCache, k: nat, up: bool, ghost i: nat, ghost lay: Layout,
                   ghost ii: seq<Dinode>, ghost owner: seq<Owner>, ghost base: set<nat>, ghost slack: nat, ghost x: nat)
    returns (ghost ii': seq<Dinode>)
    requires Working(log, cache, lay, ii, owner, base, slack, x) && Locked(cache, ii, k, i) && lay.IBlock(i) in base
    modifies log`lh, log`slot, log.bc, cache`slots
    ensures Working(log, cache, lay, ii', owner, base, slack, x) && Locked(cache, ii', k, i)
    ensures ii' == ii[i := ii[i].(nlink := (ii[i].nlink + (if up then 1 else U16 - 1)) % U16)] &&
      Rewritten(old(log.View()), ii, log.View(), ii', lay, i, ii'[i])
    ensures var ns := NodesOf(old(log.View()), ii);
      NodesOf(log.View(), ii') == ns[i := ns[i].(nlink := if up then Inc16(ns[i].nlink) else Dec16(ns[i].nlink))]
    ensures cache.slots == old(cache.slots)[k := old(cache.slots[k]).(d := ii'[i])] &&
      cache.Empty() == old(cache.Empty())
    ensures forall j: nat :: cache.Ref(j) == old(cache.Ref(j))
  {
    hide Log.Valid, Log.View, Trans, FitBut, Rewritten, NodesOf, IC.InodeCache.Empty, IC.InodeCache.Ref, IC.Placed;
    NodeFacts(log, lay, ii, owner, base, slack, i);
    SignedStep(ii[i].nlink);
    assert IC.CopyOk(cache.slots[k], ii);
    ii' := SetLinks(log, cache, k, (cache.slots[k].d.nlink + (if up then 1 else U16 - 1)) % U16, i, lay, ii, owner,
      base, slack, x);
  }

  lemma {:induction false} AllFitIs(v: Disk, ii: seq<Dinode>)
    ensures AllFit(v, ii) <==> FitBut(v, ii, |ii|)
  {
    hide Fit;
  }

  /** `inode_get` within a transaction: a reference to `inum`; what is locked stays locked. */
  method GetInode(log: Log, cache: IC.InodeCache, inum: nat, ghost lay: Layout, ghost ii: seq<Dinode>,
                  ghost owner: seq<Owner>, ghost base: set<nat>, ghost slack: nat, ghost x: nat, ghost k0: nat,
                  ghost i0: nat)
    returns (k: nat)
    requires Working(log, cache, lay, ii, owner, base, slack, x) && inum < |ii| && cache.Empty() > 0 &&
      Locked(cache, ii, k0, i0)
    modifies cache
    ensures Working(log, cache, lay, ii, owner, base, slack, x) && Refers(cache, ii, k, inum) &&
      Locked(cache, ii, k0, i0) && (i0 != inum ==> k != k0)
    ensures forall j: nat :: cache.Ref(j) == old(cache.Ref(j)) + if j == inum then 1 else 0
  {
    hide Log.Valid, Log.View, Trans, FitBut, IC.InodeCache.Empty;
    ghost var was := cache.slots;
    k := cache.Get(inum);
    TakenCopies(was, cache.slots, ii, k);
    assert cache.Ref(inum) > 0;
  }

  lemma {:induction false} FitAt(v: Disk, ii: seq<Dinode>, i: nat)
    requires AllFit(v, ii) && i < |ii|
    ensures Fit(v, ii[i])
  {
  }

  // Beginning and ending

  /** `begin_trans`. */
  method BeginTree(log: Log, cache: IC.InodeCache, ghost lay: Layout, ghost ii: seq<Dinode>, ghost owner: seq<Owner>)
    requires Quiet(log, lay, ii, owner) && lay.size < BPB && AllFit(log.View(), ii) && cache.Valid() &&
      IC.Copies(cache.slots, ii) && |cache.at| == |ii|
    modifies log`busy, log`past, log`base
    ensures Opened(log, cache, lay, ii, owner) && log.View() == old(log.View()) == log.base &&
      log.past == log.bc.a.trace
  {
    hide Log.Valid, Log.View, FsOk, Table, AllFit, IC.Copies, IC.Placed;
    log.Begin();
  }

  /** `commit_trans`: what was logged fits, and every disk since the beginning stands for the tree before or after. */
  method CommitTree(log: Log, cache: IC.InodeCache, ghost lay: Layout, ghost ii: seq<Dinode>, ghost owner: seq<Owner>,
                    ghost base: set<nat>)
    requires Working(log, cache, lay, ii, owner, base, 0, |ii|)
    modifies log`lh, log`slot, log`busy, log.bc
    ensures Quiet(log, lay, ii, owner) && log.View() == old(log.View()) && AllFit(log.View(), ii)
    ensures EitherWay(log.bc.a.trace, log.past, log.start, log.base, log.View())
  {
    hide Log.Valid, Log.View, FsOk, Table, FitBut, IC.Copies, IC.Placed, StandsFor, Room, Layout.Bitmaps;
    TransFacts(log, lay, ii, owner, base, 0);
    ghost var m := log.Commit();
    AllFitIs(log.View(), ii);
  }

  // What a call that takes names away does to files and blocks

  /**
   * Directory `dp` has changed, and inode `ip` has gone out of use if `gone`; every other inode has its type and
   * contents as before, and so has `ip` if it is still in use.  No block changes hands but those of `ip`.
   */
  ghost predicate Removed(v: Disk, ii: seq<Dinode>, owner: seq<Owner>, v': Disk, ii': seq<Dinode>, owner': seq<Owner>,
                          dp: nat, ip: nat, gone: bool)
  {
    && dp < |ii| && ip < |ii| == |ii'| && OthersKept(v, ii, v', ii', dp, ip)
    && (if gone then OutOfUse(ii'[ip]) else ip == dp || SameContents(v, ii[ip], v', ii'[ip]))
    && owner' == if gone then Disown(owner, ip) else owner
  }

  /** The blocks that become free are exactly those of inodes that have gone out of use, and none is taken. */
  ghost predicate FreesTheGone(v: Disk, v': Disk, owner: seq<Owner>, ii': seq<Dinode>, lay: Layout) {
    && lay.Ok() && |v| == |v'| == |owner| == lay.Start()
    && forall b: nat | b < |owner| :: BlockBit(v', lay, b) == (BlockBit(v, lay, b) && !OfTheGone(owner[b], ii'))
  }

  predicate OfTheGone(o: Owner, ii': seq<Dinode>) {
    o.Slot? && o.inum < |ii'| && ii'[o.inum].typ == 0
  }

  /** An inode not in use owns no block, so no block is lost to one. */
  lemma {:induction false} OwnersInUse(v: Disk, ii: seq<Dinode>, owner: seq<Owner>, lay: Layout, b: nat)
    requires FsOk(v, ii, owner, lay) && AllFit(v, ii) && b < |owner| && owner[b].Slot?
    ensures owner[b].inum < |ii| && ii[owner[b].inum].typ != 0
  {
    hide Addr, OwnsSlot, BlockBit;
    assert OwnedOk(v, ii, owner, lay, b);
    var i, k := owner[b].inum, owner[b].k;
    assert Mapped(v, ii[i]) && MappedSlot(v, ii[i], k) && Fit(v, ii[i]);
  }

  lemma {:induction false} RemovedFrees(v: Disk, ii: seq<Dinode>, owner: seq<Owner>, v': Disk, ii': seq<Dinode>,
                                        owner': seq<Owner>, lay: Layout, dp: nat, ip: nat, gone: bool)
    requires FsOk(v, ii, owner, lay) && FsOk(v', ii', owner', lay) && AllFit(v', ii')
    requires Removed(v, ii, owner, v', ii', owner', dp, ip, gone)
    ensures FreesTheGone(v, v', owner, ii', lay)
  {
    forall b: nat | b < |owner|
      ensures BlockBit(v', lay, b) == (BlockBit(v, lay, b) && !OfTheGone(owner[b], ii'))
    {
      assert OwnedOk(v, ii, owner, lay, b) && OwnedOk(v', ii', owner', lay, b);
      hide BlockBit, Addr, OwnsSlot, Mapped, AllFit;
      if owner'[b].Slot? { OwnersInUse(v', ii', owner', lay, b); }
    }
  }

  /** Between system calls: the tree on disk is in order, and `refs` are the references to inodes. */
  ghost predicate Settled(log: Log, cache: IC.InodeCache, lay: Layout, ii: seq<Dinode>, owner: seq<Owner>,
                          home: seq<Home>, refs: seq<nat>)
    reads log, log.bc, cache
  {
    && Quiet(log, lay, ii, owner) && lay.size < BPB && TreeOk(log.View(), ii, home)
    && Holding(cache, refs, NOWHERE, cache.Empty()) && IC.Copies(cache.slots, ii) && |refs| == |ii|
  }

  lemma {:induction false} RefsOf(cache: IC.InodeCache, refs: seq<nat>, cur: int, room: nat)
    requires Holding(cache, refs, cur, room)
    ensures cache.Valid() && |cache.at| == |refs| && cache.Empty() == room - if 0 <= cur < |refs| &&
      refs[cur] == 0 then 1 else 0
    ensures forall j: nat | j < |refs| :: cache.Ref(j) == refs[j] + if j == cur then 1 else 0
  {
    forall j: nat | j < |refs|
      ensures cache.Ref(j) == refs[j] + if j == cur then 1 else 0
    {
      assert RefIs(cache, refs, cur, j);
    }
  }

  /** The references are those of `refs` again; how many slots are empty follows from them. */
  lemma {:induction false} HoldingAgain(cache: IC.InodeCache, refs: seq<nat>, slots: seq<IC.Slot>, at: seq<int>,
                                        cur: nat)
    requires cache.Valid() && |cache.at| == |refs| == |at| && IC.Placed(slots, at) && cur < |refs|
    requires forall j: nat | j < |refs| ::
      cache.Ref(j) == refs[j] && IC.RefAt(slots, at, j) == refs[j] + if j == cur then 1 else 0
    ensures Holding(cache, refs, NOWHERE, IC.EmptyCount(slots, |slots|) + if refs[cur] == 0 then 1 else 0)
    ensures cache.Empty() == IC.EmptyCount(slots, |slots|) + if refs[cur] == 0 then 1 else 0
  {
    forall j: nat | j < |refs|
      ensures RefIs(cache, refs, NOWHERE, j)
    {
    }
    IC.RefsGiveEmpty(slots, at, cache.slots, cache.at, cur);
  }

  lemma {:induction false} CacheOf(log: Log, cache: IC.InodeCache, lay: Layout, ii: seq<Dinode>, owner: seq<Owner>,
                                   base: set<nat>, slack: nat, x: nat)
    requires Working(log, cache, lay, ii, owner, base, slack, x)
    ensures cache.Valid() && IC.Copies(cache.slots, ii) && |cache.at| == |ii|
  {
  }

  /** The references `namex` finds, from the counts. */
  lemma {:induction false} HoldingOf(cache: IC.InodeCache, refs: seq<nat>)
    requires cache.Valid() && |cache.at| == |refs| && forall j: nat | j < |refs| :: cache.Ref(j) == refs[j]
    ensures Holding(cache, refs, NOWHERE, cache.Empty())
  {
    forall j: nat | j < |refs|
      ensures RefIs(cache, refs, NOWHERE, j)
    {
    }
  }

  lemma {:induction false} CountRange(log: Log, cache: IC.InodeCache, lay: Layout, ii: seq<Dinode>, owner: seq<Owner>,
                                      i: nat)
    requires Opened(log, cache, lay, ii, owner) && i < |ii|
    ensures NodesOf(log.View(), ii)[i].nlink <= MAXLINK
  {
    OpenedWorking(log, cache, lay, ii, owner, i, i);
    NodeFacts(log, lay, ii, owner, BaseOf(lay, i, i), SLACK, i);
  }

  /** A tree in order can be walked. */
  lemma {:induction false} Browsable(log: Log, lay: Layout, ii: seq<Dinode>, owner: seq<Owner>, home: seq<Home>)
    requires Quiet(log, lay, ii, owner) && TreeOk(log.View(), ii, home)
    ensures Browsing(log, lay, ii, owner) && ROOT < |ii|
  {
    hide Log.Valid, Log.View, FsOk, Table, AllFit;
    SoundOfShape(log.View(), ii, home);
  }

  lemma {:induction false} OpenedBrowsing(log: Log, cache: IC.InodeCache, lay: Layout, ii: seq<Dinode>,
                                          owner: seq<Owner>, home: seq<Home>)
    requires Opened(log, cache, lay, ii, owner) && TreeOk(log.View(), ii, home)
    ensures Browsing(log, lay, ii, owner) && ROOT < |ii|
  {
    hide Log.Valid, Log.View, FsOk, Table, AllFit, IC.Copies, IC.Placed;
    SoundOfShape(log.View(), ii, home);
  }

  /** Walking a path leaves a transaction as it was opened. */
  lemma {:induction false} StillOpened(log: Log, cache: IC.InodeCache, lay: Layout, ii: seq<Dinode>, owner: seq<Owner>)
    requires Browsing(log, lay, ii, owner) && log.busy && log.bc.a.pinned == {} && lay.size < BPB &&
      AllFit(log.View(), ii)
    requires cache.Valid() && IC.Copies(cache.slots, ii) && |cache.at| == |ii|
    ensures Opened(log, cache, lay, ii, owner)
  {
    hide Log.Valid, Log.View, FsOk, Table, AllFit, IC.Copies, IC.Placed;
  }

  lemma {:induction false} OpenedPins(log: Log, cache: IC.InodeCache, lay: Layout, ii: seq<Dinode>, owner: seq<Owner>)
    requires Opened(log, cache, lay, ii, owner)
    ensures log.busy && log.bc.a.pinned == {} && lay.size < BPB && IC.Copies(cache.slots, ii)
  {
  }

  /** The last element of a path, as it is looked up. */
  function LastName(path: Name): Name {
    if Elements(path, 0) == [] then [] else Clip(Elements(path, 0)[|Elements(path, 0)| - 1])
  }

  /** Where a path starts. */
  function StartOf(path: Name, cwd: nat): nat {
    if path != [] && path[0] == SLASH then ROOT else cwd
  }

  /** `w` is a sound file system whose tree is in order and is one of two. */
  ghost predicate OneOrOther(w: Disk, lay: Layout, ns: seq<Node>, ns': seq<Node>) {
    exists x, o, h :: Sound(w, x, o, lay) && TreeOk(w, x, h) && (NodesOf(w, x) == ns || NodesOf(w, x) == ns')
  }

  /**
   * Crash safety of the tree.  Stop a call at any of its sector writes, then let recovery be cut
   * off any number of times: the attempt that completes leaves a sound file system whose link
   * counts are right, with the tree as it was before the call or as it is after.
   */
  lemma {:induction false} TreeSurvives(trace: seq<Disk>, before: seq<Disk>, k: nat, lay: Layout, v: Disk,
                                        ii: seq<Dinode>, owner: seq<Owner>, home: seq<Home>, v': Disk, ii': seq<Dinode>,
                                        owner': seq<Owner>, home': seq<Home>, crashes: seq<nat>)
    requires lay.Start() >= 0 && EitherWay(trace, before, lay.Start(), v, v') && |before| <= k < |trace|
    requires Sound(v, ii, owner, lay) && TreeOk(v, ii, home) && Sound(v', ii', owner', lay) && TreeOk(v', ii', home')
    ensures HeaderOk(trace[k], lay.Start())
    ensures var start := lay.Start() as nat;
      var last := AfterCrashes(trace[k], start, crashes);
      var r := Recovering(last, start, Word(last[start], 0) + 1);
      Word(r[start], 0) == 0 && OneOrOther(r[..start], lay, NodesOf(v, ii), NodesOf(v', ii'))
  {
    hide Sound, TreeOk, Logical, HeaderOk, NodesOf;
    RecoveryIdempotent(trace[k], lay.Start(), crashes);
    var w := Logical(trace[k], lay.Start());
    if w == v {
      assert Sound(w, ii, owner, lay) && TreeOk(w, ii, home);
    } else {
      assert Sound(w, ii', owner', lay) && TreeOk(w, ii', home');
    }
  }

  /** Starting again after a crash: what the disk stands for is there again, in order and with nothing pending. */
  method Restart(bc: BC.BufCache<Sector>, ghost lay: Layout, ghost v: Disk, ghost ii: seq<Dinode>,
                 ghost owner: seq<Owner>, ghost home: seq<Home>) returns (log: Log)
    requires bc.Valid() && bc.a.held == bc.a.pinned == {} && bc.a.view == bc.a.disk && lay.Ok() &&
      |bc.a.disk| == lay.size && SuperOk(bc.a.disk[1], lay)
    requires StandsFor(bc.a.disk, lay.Start(), v) && Sound(v, ii, owner, lay) && TreeOk(v, ii, home)
    modifies bc
    ensures fresh(log) && log.bc == bc && Quiet(log, lay, ii, owner) && log.View() == v && TreeOk(log.View(), ii, home)
  {
    hide BC.Rep, HeaderOk, Logical, Extends, FsOk, Table, TreeOk, Log.Valid, Log.View;
    log := LogInit(bc, lay);
    SoundDisk(v, ii, owner, lay);
  }

  lemma {:induction false} SoundDisk(v: Disk, ii: seq<Dinode>, owner: seq<Owner>, lay: Layout)
    requires Sound(v, ii, owner, lay)
    ensures DiskOk(v, lay)
  {
    hide Table, Mapped;
    ShapeOf(v, ii, owner, lay);
  }
}
