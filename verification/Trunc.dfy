/**
 * Discarding a file's contents: every block in a slot of the inode is freed,
 * once, and no other.
 */
module Trunc {
  import opened Sectors
  import opened FsSpec
  import opened FsInv
  import opened FsSteps
  import opened Log
  import opened Blocks
  import opened BlockMap
  import opened Inodes

  /** Block `b` is in one of the slots `gone` of inode `i`. */
  ghost predicate InSlots(owner: seq<Owner>, i: nat, gone: set<nat>, b: nat)
    requires b < |owner|
  {
    owner[b].Slot? && owner[b].inum == i && owner[b].k in gone
  }

  ghost predicate FreedBit(v0: Disk, v: Disk, owner: seq<Owner>, lay: Layout, i: nat, gone: set<nat>, b: nat)
    requires lay.Ok() && |v0| == |v| == |owner| == lay.Start() && b < |owner|
  {
    BlockBit(v, lay, b) == (BlockBit(v0, lay, b) && !InSlots(owner, i, gone, b))
  }

  /** `v` is `v0` with exactly the blocks in slots `gone` of inode `i` marked free. */
  ghost predicate Freed(v0: Disk, v: Disk, owner: seq<Owner>, lay: Layout, i: nat, gone: set<nat>) {
    && lay.Ok() && |v0| == |v| == |owner| == lay.Start()
    && (forall s | 0 <= s < |v| && (s < lay.BBlock(0) || lay.DataStart() <= s) :: v[s] == v0[s])
    && (forall b: nat | b < |owner| :: FreedBit(v0, v, owner, lay, i, gone, b))
  }

  lemma {:induction false} FreedNone(v: Disk, ii: seq<Dinode>, owner: seq<Owner>, lay: Layout, i: nat)
    requires FsOwn(v, ii, owner, lay)
    ensures Freed(v, v, owner, lay, i, {})
  {
  }

  /** An empty slot has nothing to free. */
  lemma {:induction false} FreedEmpty(v0: Disk, v: Disk, ii: seq<Dinode>, owner: seq<Owner>, lay: Layout, i: nat,
                                      gone: set<nat>, k: nat)
    requires FsOwn(v0, ii, owner, lay) && i < |ii| && k < NSLOTS && Addr(v0, ii[i], k) == 0 &&
      Freed(v0, v, owner, lay, i, gone)
    ensures Freed(v0, v, owner, lay, i, gone + {k})
  {
    hide BlockBit, Addr, OwnsSlot;
    forall b: nat | b < |owner|
      ensures FreedBit(v0, v, owner, lay, i, gone + {k}, b)
    {
      assert FreedBit(v0, v, owner, lay, i, gone, b) && OwnedOk(v0, ii, owner, lay, b);
    }
  }

  /** A block in a slot not yet freed is still marked, so freeing it cannot panic, and frees that slot alone. */
  lemma {:induction false} FreedStep(v0: Disk, v: Disk, ii: seq<Dinode>, owner: seq<Owner>, lay: Layout, i: nat,
                                     gone: set<nat>, k: nat)
    requires FsOwn(v0, ii, owner, lay) && i < |ii| && k < NSLOTS && Addr(v0, ii[i], k) != 0 &&
      Freed(v0, v, owner, lay, i, gone) && k !in gone
    ensures var a := Addr(v0, ii[i], k);
      && a < |v| && lay.DataStart() <= a && v[a] == v0[a] && BlockBit(v, lay, a)
      && Freed(v0, Mark(v, lay, a, false), owner, lay, i, gone + {k})
  {
    hide BlockBit, Addr, OwnsSlot, Mark;
    var a := Addr(v0, ii[i], k);
    AddrOwned(v0, ii, owner, lay, i, k);
    assert FreedBit(v0, v, owner, lay, i, gone, a);
    var v' := Mark(v, lay, a, false);
    MarkFrame(v, lay, a);
    forall b: nat | b < |owner|
      ensures FreedBit(v0, v', owner, lay, i, gone + {k}, b)
    {
      assert FreedBit(v0, v, owner, lay, i, gone, b) && OwnedOk(v0, ii, owner, lay, b);
      MarkBit(v, lay, a, false, b);
    }
  }

  lemma {:induction false} MarkFrame(v: Disk, lay: Layout, a: nat)
    requires lay.Ok() && |v| == lay.Start() && a < |v|
    ensures |Mark(v, lay, a, false)| == |v|
    ensures forall s | 0 <= s < |v| && (s < lay.BBlock(0) || lay.DataStart() <= s) :: Mark(v, lay, a, false)[s] == v[s]
  {
    hide PutBit;
    InBitmaps(lay, a);
    assert lay.BBlock(0) <= lay.BBlock(a);
  }

  ghost predicate Empty(d: Dinode) {
    d.Ok() && d.size == 0 && forall k | 0 <= k <= NDIRECT :: d.addrs[k] == 0
  }

  ghost function Disown(owner: seq<Owner>, i: nat): (r: seq<Owner>)
    ensures |r| == |owner| && forall b | 0 <= b < |r| ::
      r[b] == if owner[b].Slot? && owner[b].inum == i then Nobody else owner[b]
  {
    seq(|owner|, b requires 0 <= b < |owner| => if owner[b].Slot? && owner[b].inum == i then Nobody else owner[b])
  }

  ghost predicate AllSlots(gone: set<nat>) {
    forall k: nat | k < NSLOTS :: k in gone
  }

  /** With every slot freed and the inode emptied, the invariant holds and the other files are as before. */
  lemma {:induction false} TruncDone(v0: Disk, v: Disk, ii: seq<Dinode>, owner: seq<Owner>, lay: Layout, i: nat,
                                     gone: set<nat>, d': Dinode)
    requires FsOk(v0, ii, owner, lay) && i < |ii| && Freed(v0, v, owner, lay, i, gone) && AllSlots(gone) && Empty(d')
    ensures FsOk(v, ii[i := d'], Disown(owner, i), lay) && SameFiles(v0, ii, v, ii[i := d'], i) && SameTable(v0, v, lay)
    ensures Mapped(v, d') && Contents(v, d') == []
  {
    hide Contents, BlockBit, FsOwn, FreedBit;
    var ii', owner' := ii[i := d'], Disown(owner, i);
    forall j: nat | j < |ii|
      ensures Untouched(v0, v, owner, j)
    {
      TruncUntouched(v0, v, ii, owner, lay, i, gone, j);
    }
    forall j: nat | j < |ii| && j != i
      ensures SameFile(v0, ii[j], v, ii'[j])
    {
      FrameInode(v0, v, ii, owner, lay, j);
    }
    EmptyMapped(v, d');
    TruncOwn(v0, v, ii, owner, lay, i, gone, d');
    assert forall j | 0 <= j < |ii| :: Mapped(v0, ii[j]);
    SameKeepsOk(v0, ii, v, ii', owner', lay, i);
  }

  lemma {:induction false} EmptyMapped(v: Disk, d: Dinode)
    requires Empty(d) && 0 < |v|
    ensures Mapped(v, d)
  {
    hide Word;
    forall k: nat | k < NSLOTS
      ensures MappedSlot(v, d, k)
    {
      assert d.addrs[NDIRECT] == 0 && (k <= NDIRECT ==> d.addrs[k] == 0);
    }
  }

  lemma {:induction false} TruncUntouched(v0: Disk, v: Disk, ii: seq<Dinode>, owner: seq<Owner>, lay: Layout, i: nat,
                                          gone: set<nat>, j: nat)
    requires FsOwn(v0, ii, owner, lay) && Freed(v0, v, owner, lay, i, gone)
    ensures Untouched(v0, v, owner, j)
  {
    hide BlockBit, OwnsSlot, OwnedOk, FreedBit;
    forall s: nat | s < |v| && owner[s].Slot? && owner[s].inum == j
      ensures v[s] == v0[s]
    {
      if s < lay.DataStart() { MetadataUnowned(v0, ii, owner, lay, s); }
    }
  }

  lemma {:induction false} TruncOwn(v0: Disk, v: Disk, ii: seq<Dinode>, owner: seq<Owner>, lay: Layout, i: nat,
                                    gone: set<nat>, d': Dinode)
    requires FsOwn(v0, ii, owner, lay) && i < |ii| && Freed(v0, v, owner, lay, i, gone) && AllSlots(gone) && Empty(d')
    ensures FsOwn(v, ii[i := d'], Disown(owner, i), lay)
  {
    hide BlockBit, Word, Untouched;
    var ii', owner' := ii[i := d'], Disown(owner, i);
    forall j: nat, k: nat | j < |ii| && k < NSLOTS
      ensures (j != i ==> Addr(v, ii'[j], k) == Addr(v0, ii[j], k)) && OwnsSlot(v, ii', owner', j, k)
    {
      assert OwnsSlot(v0, ii, owner, j, k);
      if j != i {
        TruncUntouched(v0, v, ii, owner, lay, i, gone, j);
        FrameAddr(v0, v, ii, owner, lay, j, k);
      } else {
        assert d'.addrs[NDIRECT] == 0 && (k <= NDIRECT ==> d'.addrs[k] == 0);
      }
    }
    forall b: nat | b < |owner|
      ensures OwnedOk(v, ii', owner', lay, b)
    {
      assert OwnedOk(v0, ii, owner, lay, b) && FreedBit(v0, v, owner, lay, i, gone, b);
    }
  }

  /** What truncation works under: the transaction may log the bitmap and the inode. */
  ghost predicate Truncating(log: Log, lay: Layout, ii: seq<Dinode>, owner: seq<Owner>, i: nat, v0: Disk,
                             gone: set<nat>, fixed: set<nat>, extra: nat)
    reads log, log.bc
  {
    && Ready(log, lay) && log.busy && FsOk(v0, ii, owner, lay) && i < |ii| && Freed(v0, log.View(), owner, lay, i, gone)
    && Room(log.bc.a.pinned, fixed, extra) && lay.Bitmaps() <= fixed
  }

  /** Free the block in slot `k`, if there is one. */
  method FreeSlot(log: Log, a: nat, ghost lay: Layout, ghost ii: seq<Dinode>, ghost owner: seq<Owner>, ghost i: nat,
                  ghost v0: Disk, ghost gone: set<nat>, ghost k: nat, ghost fixed: set<nat>, ghost extra: nat)
    requires Truncating(log, lay, ii, owner, i, v0, gone, fixed, extra) && k < NSLOTS && k !in gone &&
      a == Addr(v0, ii[i], k)
    requires log.bc.a.held == {} ||
      (k != NDIRECT && NDIRECT !in gone && log.bc.a.held == {ii[i].addrs[NDIRECT]} && ii[i].addrs[NDIRECT] != 0)
    modifies log`lh, log`slot, log.bc
    ensures Truncating(log, lay, ii, owner, i, v0, gone + {k}, fixed, extra)
    ensures log.bc.a.held == old(log.bc.a.held) && log.bc.a.KeepsHeld(old(log.bc.a)) &&
      old(log.bc.a.pinned) <= log.bc.a.pinned
  {
    hide Log.Valid, Log.View, FsOwn, Freed, Addr, Word, BlockBit, Room, HoldsData, Mark;
    if a != 0 {
      FreedStep(v0, log.View(), ii, owner, lay, i, gone, k);
      HeldOk(v0, log.View(), ii, owner, lay, i, gone, log.bc.a.held);
      RoomWithin(log.bc.a.pinned, fixed, extra, lay.Bitmaps(), 0);
      ghost var p := log.bc.a.pinned;
      BlockFree(log, a, lay);
      RoomKept(p, fixed, extra, lay.BBlock(a));
    } else {
      FreedEmpty(v0, log.View(), ii, owner, lay, i, gone, k);
    }
  }

  lemma {:induction false} HeldOk(v0: Disk, v: Disk, ii: seq<Dinode>, owner: seq<Owner>, lay: Layout, i: nat,
                                  gone: set<nat>, held: set<nat>)
    requires FsOwn(v0, ii, owner, lay) && i < |ii| && Freed(v0, v, owner, lay, i, gone)
    requires held == {} || (NDIRECT !in gone && held == {ii[i].addrs[NDIRECT]} && ii[i].addrs[NDIRECT] != 0)
    ensures HoldsData(held, v, lay)
  {
    if held != {} {
      FreedStep(v0, v, ii, owner, lay, i, gone, NDIRECT);
    }
  }

  method TruncDirect(log: Log, d: Dinode, ghost lay: Layout, ghost ii: seq<Dinode>, ghost owner: seq<Owner>,
                     ghost i: nat, ghost v0: Disk, ghost fixed: set<nat>, ghost extra: nat)
    returns (d': Dinode, ghost gone: set<nat>)
    requires Truncating(log, lay, ii, owner, i, v0, {}, fixed, extra) && log.bc.a.held == {} && i < |ii| &&
      ii[i] == d && d.Ok()
    modifies log`lh, log`slot, log.bc
    ensures Truncating(log, lay, ii, owner, i, v0, gone, fixed, extra) && log.bc.a.held == {} &&
      old(log.bc.a.pinned) <= log.bc.a.pinned
    ensures forall k: nat :: k in gone <==> k < NDIRECT
    ensures d' == d.(addrs := d'.addrs) && d'.Ok() && d'.addrs[NDIRECT] == d.addrs[NDIRECT] &&
      forall k | 0 <= k < NDIRECT :: d'.addrs[k] == 0
  {
    hide Log.Valid, Log.View, Truncating, Word;
    d', gone := d, {};
    var k := 0;
    while k < NDIRECT
      invariant 0 <= k <= NDIRECT && (forall j: nat :: j in gone <==> j < k)
      invariant Truncating(log, lay, ii, owner, i, v0, gone, fixed, extra) && log.bc.a.held == {} &&
        old(log.bc.a.pinned) <= log.bc.a.pinned
      invariant d' == d.(addrs := d'.addrs) && d'.Ok() && d'.addrs[k..] == d.addrs[k..] && forall j | 0 <= j < k ::
        d'.addrs[j] == 0
    {
      assert d'.addrs[k] == d'.addrs[k..][0] == d.addrs[k] == Addr(v0, ii[i], k);
      FreeSlot(log, d'.addrs[k], lay, ii, owner, i, v0, gone, k, fixed, extra);
      d' := d'.(addrs := d'.addrs[k := 0]);
      gone := gone + {k};
      k := k + 1;
    }
  }

  /** Slots of the indirect block of an inode that has none are empty. */
  lemma {:induction false} FreedNoIndirect(v0: Disk, v: Disk, ii: seq<Dinode>, owner: seq<Owner>, lay: Layout, i: nat,
                                           gone: set<nat>, k: nat)
    returns (gone': set<nat>)
    requires FsOwn(v0, ii, owner, lay) && i < |ii| && ii[i].addrs[NDIRECT] == 0 && Freed(v0, v, owner, lay, i, gone) &&
      NDIRECT <= k <= NSLOTS
    requires forall j: nat | j < k :: j in gone
    ensures Freed(v0, v, owner, lay, i, gone') && AllSlots(gone')
    decreases NSLOTS - k
  {
    hide FsOwn, Freed, Word;
    if k == NSLOTS {
      gone' := gone;
    } else {
      FreedEmpty(v0, v, ii, owner, lay, i, gone, k);
      gone' := FreedNoIndirect(v0, v, ii, owner, lay, i, gone + {k}, k + 1);
    }
  }

  /** Free the entries of the indirect block, held meanwhile, then the block itself. */
  method TruncIndirect(log: Log, ia: nat, ghost lay: Layout, ghost ii: seq<Dinode>, ghost owner: seq<Owner>,
                       ghost i: nat, ghost v0: Disk, ghost gone0: set<nat>, ghost fixed: set<nat>, ghost extra: nat)
    returns (ghost gone: set<nat>)
    requires Truncating(log, lay, ii, owner, i, v0, gone0, fixed, extra) && log.bc.a.held == {}
    requires i < |ii| && ii[i].Ok() && ia == ii[i].addrs[NDIRECT] && ia != 0 && forall k: nat ::
      k in gone0 <==> k < NDIRECT
    modifies log`lh, log`slot, log.bc
    ensures Truncating(log, lay, ii, owner, i, v0, gone, fixed, extra) && log.bc.a.held == {} &&
      old(log.bc.a.pinned) <= log.bc.a.pinned
    ensures AllSlots(gone)
  {
    hide Log.Valid, Log.View, Word, Freed, FsOk, Room;
    gone := gone0;
    TruncFacts(log, lay, ii, owner, i, v0, gone, fixed, extra);
    var h, data := log.Read(ia);
    var j := 0;
    while j < NINDIRECT
      invariant 0 <= j <= NINDIRECT && (forall k: nat :: k in gone <==> k < NDIRECT || NDIRECT < k <= NDIRECT + j)
      invariant Truncating(log, lay, ii, owner, i, v0, gone, fixed, extra) && log.bc.a.held == {ia} &&
        log.bc.a.Holding(h, ia)
      invariant old(log.bc.a.pinned) <= log.bc.a.pinned
    {
      FreeSlot(log, Word(data, j), lay, ii, owner, i, v0, gone, NDIRECT + 1 + j, fixed, extra);
      gone := gone + {NDIRECT + 1 + j};
      j := j + 1;
    }
    log.Release(h, ia);
    FreeSlot(log, ia, lay, ii, owner, i, v0, gone, NDIRECT, fixed, extra);
    gone := gone + {NDIRECT};
  }

  lemma {:induction false} TruncFacts(log: Log, lay: Layout, ii: seq<Dinode>, owner: seq<Owner>, i: nat, v0: Disk,
                                      gone: set<nat>, fixed: set<nat>, extra: nat)
    requires Truncating(log, lay, ii, owner, i, v0, gone, fixed, extra) && i < |ii| && ii[i].Ok() &&
      ii[i].addrs[NDIRECT] != 0 && NDIRECT !in gone
    ensures var ia := ii[i].addrs[NDIRECT];
      && Ready(log, lay) && ia < log.start && |log.bc.a.pinned| <= CAP && ia < |log.View()| == |v0|
      && forall j: nat | j < NINDIRECT :: Word(log.View()[ia], j) == Addr(v0, ii[i], NDIRECT + 1 + j)
  {
    hide Log.Valid, Log.View, Word, FsOwn, Freed;
    FreedStep(v0, log.View(), ii, owner, lay, i, gone, NDIRECT);
    RoomWithin(log.bc.a.pinned, fixed, extra, {}, 0);
    RoomEmpty(log.bc.a.pinned);
    AddrOwned(v0, ii, owner, lay, i, NDIRECT);
    FreedLength(v0, log.View(), owner, lay, i, gone);
  }

  lemma {:induction false} FreedLength(v0: Disk, v: Disk, owner: seq<Owner>, lay: Layout, i: nat, gone: set<nat>)
    requires Freed(v0, v, owner, lay, i, gone)
    ensures |v0| == |v| == lay.Start()
  {
  }

  /** Exactly the blocks inode `i` owned go from used to free. */
  ghost predicate FreesExactly(v: Disk, v': Disk, owner: seq<Owner>, lay: Layout, i: nat) {
    && lay.Ok() && |v| == |v'| == |owner| == lay.Start()
    && forall b: nat | b < |owner| ::
       BlockBit(v', lay, b) == (BlockBit(v, lay, b) && !(owner[b].Slot? && owner[b].inum == i))
  }

  /** File `i` is emptied; the other files are as before. */
  ghost predicate Emptied(v: Disk, ii: seq<Dinode>, owner: seq<Owner>, v': Disk, ii': seq<Dinode>, owner': seq<Owner>,
                          lay: Layout, i: nat) {
    && i < |ii| == |ii'| && FsOk(v', ii', owner', lay) && Table(v', ii', lay) && ii' == ii[i := ii'[i]]
    && ii'[i] == ii[i].(size := 0, addrs := ii'[i].addrs) && Empty(ii'[i]) && Mapped(v', ii'[i])
    && Contents(v', ii'[i]) == []
    && SameFiles(v, ii, v', ii', i) && owner' == Disown(owner, i) && FreesExactly(v, v', owner, lay, i)
  }

  lemma {:induction false} TruncUpdated(v: Disk, v1: Disk, v2: Disk, ii: seq<Dinode>, owner: seq<Owner>, lay: Layout,
                                        i: nat, gone: set<nat>, d': Dinode)
    requires FsOk(v, ii, owner, lay) && Table(v, ii, lay) && i < |ii| && Freed(v, v1, owner, lay, i, gone) &&
      AllSlots(gone)
    requires Empty(d') && d' == ii[i].(size := 0, addrs := d'.addrs) && v2 == PutInode(v1, lay, i, d')
    ensures Emptied(v, ii, owner, v2, ii[i := d'], Disown(owner, i), lay, i)
  {
    var ii', owner' := ii[i := d'], Disown(owner, i);
    assert TableWrite(v1, v2, lay, lay.IBlock(i)) by { hide PutDinode, FreedBit, FsOk; }
    assert FreesExactly(v, v2, owner, lay, i) by { FreedFinally(v, v1, v2, ii, owner, lay, i, gone); }
    hide PutInode, Contents, Table, TableWrite, Mapped, FsOwn, Freed, FreesExactly;
    TruncDone(v, v1, ii, owner, lay, i, gone, d');
    TableKept(v, v1, ii, lay);
    TableOfPut(v1, ii, lay, i, d');
    TableWriteOk(v1, v2, ii', owner', lay, lay.IBlock(i));
    assert SameFile(v1, ii'[i], v2, ii'[i]);
    SameFilesTrans(v, ii, v1, ii', v2, ii', i);
  }

  lemma {:induction false} FreedFinally(v: Disk, v1: Disk, v2: Disk, ii: seq<Dinode>, owner: seq<Owner>, lay: Layout,
                                        i: nat, gone: set<nat>)
    requires FsOk(v, ii, owner, lay) && Freed(v, v1, owner, lay, i, gone) && AllSlots(gone) && i < |ii| &&
      TableWrite(v1, v2, lay, lay.IBlock(i))
    ensures FreesExactly(v, v2, owner, lay, i)
  {
    hide Bit, OwnsSlot;
    forall b: nat | b < |owner|
      ensures BlockBit(v2, lay, b) == (BlockBit(v, lay, b) && !(owner[b].Slot? && owner[b].inum == i))
    {
      assert FreedBit(v, v1, owner, lay, i, gone, b) && OwnedOk(v, ii, owner, lay, b);
      assert lay.BBlock(b) >= lay.BBlock(0);
    }
  }

  /** `inode_trunc`: free all blocks of the file, empty the inode and write it back. */
  method InodeTrunc(log: Log, i: nat, d: Dinode, ghost lay: Layout, ghost ii: seq<Dinode>, ghost owner: seq<Owner>,
                    ghost fixed: set<nat>, ghost extra: nat)
    returns (d': Dinode, ghost ii': seq<Dinode>, ghost owner': seq<Owner>)
    requires Ready(log, lay) && log.busy && log.bc.a.held == {} && FsOk(log.View(), ii, owner, lay) &&
      Table(log.View(), ii, lay)
    requires i < |ii| && ii[i] == d && Room(log.bc.a.pinned, fixed, extra) && lay.Bitmaps() <= fixed
    requires Allowed(lay.IBlock(i), log.bc.a.pinned, fixed)
    modifies log`lh, log`slot, log.bc
    ensures Ready(log, lay) && log.bc.a.held == {} && Room(log.bc.a.pinned, fixed, extra) &&
      old(log.bc.a.pinned) <= log.bc.a.pinned
    ensures Emptied(old(log.View()), ii, owner, log.View(), ii', owner', lay, i) && d' == ii'[i]
  {
    hide Log.Valid, Log.View, Word, Freed, FsOwn, Room, Ready, Mapped, Table, Emptied;
    ghost var v := log.View();
    ShapeOf(v, ii, owner, lay);
    FreedNone(v, ii, owner, lay, i);
    ghost var gone;
    d', gone := TruncDirect(log, d, lay, ii, owner, i, v, fixed, extra);
    if d'.addrs[NDIRECT] != 0 {
      gone := TruncIndirect(log, d'.addrs[NDIRECT], lay, ii, owner, i, v, gone, fixed, extra);
      d' := d'.(addrs := d'.addrs[NDIRECT := 0]);
    } else {
      gone := FreedNoIndirect(v, log.View(), ii, owner, lay, i, gone, NDIRECT);
    }
    d' := d'.(size := 0);
    ghost var v1 := log.View();
    InodeUpdate(log, i, d', lay, fixed, extra);
    TruncUpdated(v, v1, log.View(), ii, owner, lay, i, gone, d');
    ii', owner' := ii[i := d'], Disown(owner, i);
  }
}
