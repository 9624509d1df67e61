/**
 * Reading and writing a file through its inode.  Offsets and lengths are
 * unsigned 32-bit, and their sum wraps as in the original.
 */
module Inodes {
  import opened Sectors
  import opened FsSpec
  import opened FsInv
  import opened FsSteps
  import opened Log
  import opened Blocks
  import opened BlockMap

  /** On disk, inode `i` reads as `ii[i]`. */
  ghost predicate TableAt(v: Disk, ii: seq<Dinode>, lay: Layout, i: nat)
    requires lay.Ok() && |v| == lay.Start() && i < |ii| == lay.ninodes
  {
    DinodeAt(v[lay.IBlock(i)], i % IPB) == ii[i]
  }

  ghost predicate Table(v: Disk, ii: seq<Dinode>, lay: Layout) {
    lay.Ok() && |v| == lay.Start() && |ii| == lay.ninodes && forall i: nat | i < |ii| :: TableAt(v, ii, lay, i)
  }

  /** The disk with inode `i` rewritten. */
  ghost function PutInode(v: Disk, lay: Layout, i: nat, d: Dinode): Disk
    requires lay.Ok() && |v| == lay.Start() && i < lay.ninodes && d.Ok()
  {
    v[lay.IBlock(i) := PutDinode(v[lay.IBlock(i)], i % IPB, d)]
  }

  lemma {:induction false} TableOfPut(v: Disk, ii: seq<Dinode>, lay: Layout, i: nat, d: Dinode)
    requires Table(v, ii, lay) && i < |ii| && d.Ok()
    ensures Table(PutInode(v, lay, i, d), ii[i := d], lay)
  {
    hide DinodeAt, PutDinode;
    var v', ii' := PutInode(v, lay, i, d), ii[i := d];
    forall j: nat | j < |ii'|
      ensures TableAt(v', ii', lay, j)
    {
      assert TableAt(v, ii, lay, j);
      DinodeOfPut(v[lay.IBlock(i)], i % IPB, d, j % IPB);
    }
  }

  /** The inode table determines the inodes. */
  lemma {:induction false} TableUnique(v: Disk, ii: seq<Dinode>, ii': seq<Dinode>, lay: Layout)
    requires Table(v, ii, lay) && Table(v, ii', lay)
    ensures ii == ii'
  {
    hide DinodeAt;
    forall i: nat | i < |ii|
      ensures ii[i] == ii'[i]
    {
      assert TableAt(v, ii, lay, i) && TableAt(v, ii', lay, i);
    }
  }

  /** `v'` differs from `v` in the inode table only. */
  ghost predicate TableWrite(v: Disk, v': Disk, lay: Layout, s: nat) {
    lay.Ok() && |v| == |v'| == lay.Start() && 2 <= s < lay.BBlock(0) && v' == v[s := v'[s]]
  }

  lemma {:induction false} TableWriteUntouched(v: Disk, v': Disk, ii: seq<Dinode>, owner: seq<Owner>, lay: Layout,
                                               s: nat, i: nat)
    requires FsOwn(v, ii, owner, lay) && TableWrite(v, v', lay, s)
    ensures Untouched(v, v', owner, i)
  {
    hide Word, Bit, OwnsSlot, OwnedOk;
    MetadataUnowned(v, ii, owner, lay, s);
  }

  lemma {:induction false} TableWriteOwn(v: Disk, v': Disk, ii: seq<Dinode>, owner: seq<Owner>, lay: Layout, s: nat)
    requires FsOwn(v, ii, owner, lay) && TableWrite(v, v', lay, s)
    ensures FsOwn(v', ii, owner, lay)
  {
    hide Word, Bit, Addr, Untouched;
    forall i: nat, k: nat | i < |ii| && k < NSLOTS
      ensures Addr(v', ii[i], k) == Addr(v, ii[i], k) && OwnsSlot(v', ii, owner, i, k)
    {
      TableWriteUntouched(v, v', ii, owner, lay, s, i);
      FrameAddr(v, v', ii, owner, lay, i, k);
      assert OwnsSlot(v, ii, owner, i, k);
    }
    forall b: nat | b < |owner|
      ensures OwnedOk(v', ii, owner, lay, b)
    {
      assert OwnedOk(v, ii, owner, lay, b);
      assert lay.BBlock(b) >= lay.BBlock(0);
    }
  }

  /** Rewriting a sector of the inode table touches no file and frees no block. */
  lemma {:induction false} TableWriteOk(v: Disk, v': Disk, ii: seq<Dinode>, owner: seq<Owner>, lay: Layout, s: nat)
    requires FsOk(v, ii, owner, lay) && TableWrite(v, v', lay, s)
    ensures FsOk(v', ii, owner, lay) && FreeBlocks(v', lay) == FreeBlocks(v, lay)
    ensures forall i: nat | i < |ii| :: SameFile(v, ii[i], v', ii[i])
  {
    hide FsOwn, Contents, Untouched, Mapped;
    TableWriteOwn(v, v', ii, owner, lay, s);
    forall i: nat | i < |ii|
      ensures SameFile(v, ii[i], v', ii[i])
    {
      TableWriteUntouched(v, v', ii, owner, lay, s, i);
      FrameInode(v, v', ii, owner, lay, i);
    }
    TableWriteFree(v, v', lay, s);
  }

  lemma {:induction false} TableWriteFree(v: Disk, v': Disk, lay: Layout, s: nat)
    requires TableWrite(v, v', lay, s)
    ensures FreeBlocks(v', lay) == FreeBlocks(v, lay)
  {
    hide Bit;
    forall b: nat | b < |v|
      ensures BlockBit(v', lay, b) == BlockBit(v, lay, b)
    {
      assert lay.BBlock(b) >= lay.BBlock(0);
    }
  }

  /** Writing the in-memory inode to the inode table. */
  method InodeUpdate(log: Log, i: nat, d: Dinode, ghost lay: Layout, ghost fixed: set<nat>, ghost extra: nat)
    requires Ready(log, lay) && log.busy && log.bc.a.held == {} && i < lay.ninodes && d.Ok()
    requires Room(log.bc.a.pinned, fixed, extra) && Allowed(lay.IBlock(i), log.bc.a.pinned, fixed)
    modifies log`lh, log`slot, log.bc
    ensures Ready(log, lay) && log.bc.a.held == {} && log.View() == PutInode(old(log.View()), lay, i, d)
    ensures Room(log.bc.a.pinned, fixed, extra) && log.bc.a.pinned == old(log.bc.a.pinned) + {lay.IBlock(i)}
  {
    hide Log.Valid, Log.View, PutDinode, Room, Word;
    RoomAllowed(log.bc.a.pinned, fixed, extra, lay.IBlock(i));
    var h, data := log.Read(i / IPB + 2);
    log.Put(h, PutDinode(data, i % IPB, d), lay.IBlock(i));
  }

  /** Slots in use by a file of `size` bytes: its blocks, and the indirect block past the direct ones. */
  function SlotCount(size: nat): nat {
    (size + BSIZE - 1) / BSIZE + if size > BSIZE * NDIRECT then 1 else 0
  }

  function Min(x: nat, y: nat): nat {
    if x < y then x else y
  }

  function Max(x: nat, y: nat): nat {
    if x < y then y else x
  }

  lemma {:induction false} SlotCountStep(size: nat, bn: nat, end: nat)
    requires BSIZE * bn <= size && BSIZE * bn < end <= BSIZE * (bn + 1)
    ensures SlotCount(size) + NewBlocks(size, bn) == SlotCount(Max(size, end))
  {
  }

  lemma {:induction false} SlotCountMono(x: nat, y: nat)
    requires x <= y
    ensures SlotCount(x) <= SlotCount(y)
  {
  }

  /** File `i` has had `src` spliced in at `off`; the other files and the inode table are as before. */
  ghost predicate WroteAt(v: Disk, ii: seq<Dinode>, v': Disk, ii': seq<Dinode>, lay: Layout, i: nat, off: nat,
                          src: seq<byte>) {
    && i < |ii| == |ii'| && lay.Ok() && |v| == |v'| == lay.Start() && Mapped(v, ii[i]) && Mapped(v', ii'[i])
    && off <= ii[i].size
    && Contents(v', ii'[i]) == Splice(Contents(v, ii[i]), off, src) && ii'[i].size == Max(ii[i].size, off + |src|)
    && SameFiles(v, ii, v', ii', i) && SameTable(v, v', lay) && KeepsSlots(v, ii[i], v', ii'[i])
    && |FreeBlocks(v', lay)| == |FreeBlocks(v, lay)| - (SlotCount(ii'[i].size) - SlotCount(ii[i].size))
  }

  lemma {:induction false} SpliceGrown(c: seq<byte>, src: seq<byte>)
    requires 0 < |src|
    ensures Splice(c + [0], |c|, src) == Splice(c, |c|, src)
  {
    assert (c + [0])[..|c|] == c[..|c|];
  }

  /** `bmap`, then a store into the block it gives. */
  lemma {:induction false} WroteBlock(v: Disk, ii: seq<Dinode>, v1: Disk, ii1: seq<Dinode>, owner1: seq<Owner>,
                                      v2: Disk, ii2: seq<Dinode>, lay: Layout, i: nat, bn: nat, p: nat, src: seq<byte>,
                                      addr: nat)
    requires Reaches(v, ii, v1, ii1, owner1, lay, i, bn, addr) && p + |src| <= BSIZE && 0 < |src|
    requires BSIZE * bn + p <= ii[i].size && Stores(v1, ii1[i], v2, bn, p, src)
    requires |ii2| == |ii1| && ii2 == ii1[i := ii2[i]] &&
      ii2[i] == ii1[i].(size := Max(ii1[i].size, BSIZE * bn + p + |src|))
    ensures FsOk(v2, ii2, owner1, lay) && WroteAt(v, ii, v2, ii2, lay, i, BSIZE * bn + p, src)
  {
    hide FsOwn, Addr, Contents, Stores, SameFiles, SameTable, FreeBlocks, Splice;
    var off := BSIZE * bn + p;
    assert Mapped(v1, ii1[i]);
    StoreOk(v1, ii1, owner1, lay, i, bn, p, src, v2, ii2[i]);
    SameFilesTrans(v, ii, v1, ii1, v2, ii2, i);
    SameTableTrans(v, v1, v2, lay);
    SlotCountStep(ii[i].size, bn, off + |src|);
    if BSIZE * bn == ii[i].size {
      SpliceGrown(Contents(v, ii[i]), src);
    } else {
      assert Contents(v1, ii1[i]) == Contents(v, ii[i]);
    }
    ShapeOf(v2, ii2, owner1, lay);
    StoreLength(v1, ii1[i], v2, bn, p, src);
    StoreFree(v1, ii1, owner1, lay, i, bn, p, src, v2);
    forall k: nat | k < NSLOTS
      ensures KeepsSlot(v, ii[i], v2, ii2[i], k)
    {
      assert KeepsSlot(v, ii[i], v1, ii1[i], k);
      StoreAddr(v1, ii1, owner1, lay, i, bn, p, src, v2, ii2[i], i, k);
    }
  }

  lemma {:induction false} ShapeOf(v: Disk, ii: seq<Dinode>, owner: seq<Owner>, lay: Layout)
    requires FsOwn(v, ii, owner, lay)
    ensures Shape(v, ii, owner, lay)
  {
  }

  lemma {:induction false} StoreFree(v: Disk, ii: seq<Dinode>, owner: seq<Owner>, lay: Layout, i: nat, bn: nat, p: nat,
                                     src: seq<byte>, v': Disk)
    requires FsOwn(v, ii, owner, lay) && i < |ii| && Stores(v, ii[i], v', bn, p, src) && Addr(v, ii[i], SlotOf(bn)) != 0
    ensures |v'| == |v| && FreeBlocks(v', lay) == FreeBlocks(v, lay)
  {
    hide Bit, Fill, Word, OwnsSlot, OwnedOk;
    AddrOwned(v, ii, owner, lay, i, SlotOf(bn));
    forall b: nat | b < |v|
      ensures BlockBit(v', lay, b) == BlockBit(v, lay, b)
    {
    }
  }

  /** The state of `inode_write`'s loop, with room to log the sectors of `fixed` and `extra` new blocks. */
  ghost predicate Writing(log: Log, lay: Layout, ii: seq<Dinode>, owner: seq<Owner>, i: nat, fixed: set<nat>,
                          extra: nat)
    reads log, log.bc
  {
    && Ready(log, lay) && log.busy && FsOk(log.View(), ii, owner, lay) && log.bc.a.held == {} && i < |ii|
    && Room(log.bc.a.pinned, fixed, extra) && lay.Bitmaps() <= fixed
    && (ii[i].addrs[NDIRECT] != 0 ==> Allowed(ii[i].addrs[NDIRECT], log.bc.a.pinned, fixed))
  }

  /** `src` goes into block `bn` of the file at `p`, in the log. */
  method StoreBlock(log: Log, addr: nat, p: nat, src: seq<byte>, ghost lay: Layout, ghost d: Dinode, ghost bn: nat,
                    ghost fixed: set<nat>, ghost extra: nat)
    requires Ready(log, lay) && log.busy && log.bc.a.held == {} && Room(log.bc.a.pinned, fixed, extra) &&
      Allowed(addr, log.bc.a.pinned, fixed)
    requires d.Ok() && bn < MAXFILE && addr == Addr(log.View(), d, SlotOf(bn)) && 1 < addr < |log.View()| &&
      p + |src| <= BSIZE
    modifies log`lh, log`slot, log.bc
    ensures Ready(log, lay) && log.bc.a.held == {} && Stores(old(log.View()), d, log.View(), bn, p, src)
    ensures Room(log.bc.a.pinned, fixed, extra) && log.bc.a.pinned == old(log.bc.a.pinned) + {addr}
  {
    hide Log.Valid, Log.View, Room, Addr, Fill;
    RoomAllowed(log.bc.a.pinned, fixed, extra, addr);
    var h, data := log.Read(addr);
    FillOk(data, p, src);
    log.Put(h, Sector(data.bytes[..p] + src + data.bytes[p + |src|..]), addr);
  }

  /** One round of `inode_write`'s loop: `src` goes into the block at `off`. */
  method WriteBlock(log: Log, d: Dinode, off: nat, src: seq<byte>, ghost lay: Layout, ghost ii: seq<Dinode>,
                    ghost owner: seq<Owner>, ghost i: nat, ghost fixed: set<nat>, ghost extra: nat)
    returns (d': Dinode, ghost ii': seq<Dinode>, ghost owner': seq<Owner>)
    requires Writing(log, lay, ii, owner, i, fixed, extra) && d.Ok() && ii[i].addrs == d.addrs
    requires off <= ii[i].size && off + |src| <= MAXFILE * BSIZE && 0 < |src| <= BSIZE - off % BSIZE
    requires SlotCount(Max(ii[i].size, off + |src|)) - SlotCount(ii[i].size) <= extra
    requires SlotCount(Max(ii[i].size, off + |src|)) - SlotCount(ii[i].size) <= |FreeBlocks(log.View(), lay)|
    requires off / BSIZE * BSIZE < ii[i].size ==>
      Allowed(Addr(log.View(), ii[i], SlotOf(off / BSIZE)), log.bc.a.pinned, fixed)
    modifies log`lh, log`slot, log.bc
    ensures SlotCount(ii[i].size) <= SlotCount(Max(ii[i].size, off + |src|))
    ensures d' == d.(addrs := d'.addrs) && d'.Ok() && WroteAt(old(log.View()), ii, log.View(), ii', lay, i, off, src)
    ensures |ii'| == |ii| && ii'[i] == ii[i].(addrs := d'.addrs, size := Max(ii[i].size, off + |src|))
    ensures Writing(log, lay, ii', owner', i, fixed,
      extra - (SlotCount(Max(ii[i].size, off + |src|)) - SlotCount(ii[i].size)))
    ensures old(log.bc.a.pinned) <= log.bc.a.pinned && (off + |src| <= ii[i].size ==> owner' == owner)
  {
    hide Log.Valid, Log.View, Word, Room, FsOwn, Reaches, FreeBlocks, Contents, WroteAt, Addr, Mapped, Stores;
    ghost var v := log.View();
    var bn, p := off / BSIZE, off % BSIZE;
    SlotCountStep(ii[i].size, bn, off + |src|);
    var addr;
    ghost var ii1: seq<Dinode>;
    addr, d', ii1, owner' := Bmap(log, d, bn, lay, ii, owner, i, fixed, extra);
    ghost var v1, extra1 := log.View(), extra - NewBlocks(ii[i].size, bn);
    ReachedBlock(v, ii, v1, ii1, owner', lay, i, bn, addr);
    StoreBlock(log, addr, p, src, lay, ii1[i], bn, fixed, extra1);
    ii' := ii1[i := ii1[i].(size := Max(ii1[i].size, off + |src|))];
    WroteBlock(v, ii, v1, ii1, owner', log.View(), ii', lay, i, bn, p, src, addr);
    ShapeOf(log.View(), ii', owner', lay);
  }

  lemma {:induction false} FillOk(s: Sector, p: nat, src: seq<byte>)
    requires p + |src| <= BSIZE
    ensures Fill(s, p, src) == Sector(s.bytes[..p] + src + s.bytes[p + |src|..])
  {
  }

  lemma {:induction false} ReachedBlock(v: Disk, ii: seq<Dinode>, v1: Disk, ii1: seq<Dinode>, owner1: seq<Owner>,
                                        lay: Layout, i: nat, bn: nat, addr: nat)
    requires Reaches(v, ii, v1, ii1, owner1, lay, i, bn, addr) && BSIZE * bn <= ii[i].size
    ensures ii1[i].Ok() && bn < MAXFILE && addr == Addr(v1, ii1[i], SlotOf(bn)) && 1 < addr < |v1| && |ii1| == |ii|
    ensures ii1[i].size == Max(ii[i].size, BSIZE * bn + 1)
    ensures BSIZE * bn < ii[i].size ==> addr == Addr(v, ii[i], SlotOf(bn))
    ensures ii[i].addrs[NDIRECT] != 0 ==> ii1[i].addrs[NDIRECT] == ii[i].addrs[NDIRECT]
    ensures ii1[i].addrs[NDIRECT] != 0 ==> ii[i].addrs[NDIRECT] != 0 || (NDIRECT <= bn && BSIZE * bn == ii[i].size)
  {
    hide FsOwn, Word, Contents, FreeBlocks;
    AddrOwned(v1, ii1, owner1, lay, i, SlotOf(bn));
    assert MappedSlot(v1, ii1[i], SlotOf(bn)) && MappedSlot(v, ii[i], SlotOf(bn));
    assert KeepsSlot(v, ii[i], v1, ii1[i], SlotOf(bn)) && KeepsSlot(v, ii[i], v1, ii1[i], NDIRECT);
    assert MappedSlot(v1, ii1[i], NDIRECT) && MappedSlot(v, ii[i], NDIRECT);
  }

  lemma {:induction false} SpliceTwice(c: seq<byte>, off: nat, a: seq<byte>, b: seq<byte>)
    requires off <= |c|
    ensures off + |a| <= |Splice(c, off, a)| && Splice(Splice(c, off, a), off + |a|, b) == Splice(c, off, a + b)
  {
    var c1 := Splice(c, off, a);
    var c2 := Splice(c1, off + |a|, b);
    SpliceLength(c, off, a);
    SpliceLength(c1, off + |a|, b);
    forall o | 0 <= o < |c2|
      ensures c2[o] == if off <= o < off + |a + b| then (a + b)[o - off] else c[o]
    {
      SpliceAt(c1, off + |a|, b, o);
      if o < |c1| { SpliceAt(c, off, a, o); }
    }
    SpliceIs(c, c2, off, a + b);
  }

  lemma {:induction false} SpliceLength(c: seq<byte>, off: nat, src: seq<byte>)
    requires off <= |c|
    ensures |Splice(c, off, src)| == Max(|c|, off + |src|)
  {
  }

  lemma {:induction false} SpliceAt(c: seq<byte>, off: nat, src: seq<byte>, o: nat)
    requires off <= |c| && o < |Splice(c, off, src)|
    ensures off <= o < off + |src| || o < |c|
    ensures Splice(c, off, src)[o] == if off <= o < off + |src| then src[o - off] else c[o]
  {
  }

  lemma {:induction false} WroteNothing(v: Disk, ii: seq<Dinode>, lay: Layout, i: nat, off: nat)
    requires i < |ii| && lay.Ok() && |v| == lay.Start() && Mapped(v, ii[i]) && off <= ii[i].size
    ensures WroteAt(v, ii, v, ii, lay, i, off, [])
  {
    hide Addr, Contents;
    assert Splice(Contents(v, ii[i]), off, []) == Contents(v, ii[i]);
  }

  lemma {:induction false} WroteThen(v: Disk, ii: seq<Dinode>, v1: Disk, ii1: seq<Dinode>, v2: Disk, ii2: seq<Dinode>,
                                     lay: Layout, i: nat, off: nat, a: seq<byte>, b: seq<byte>)
    requires WroteAt(v, ii, v1, ii1, lay, i, off, a) && WroteAt(v1, ii1, v2, ii2, lay, i, off + |a|, b)
    ensures WroteAt(v, ii, v2, ii2, lay, i, off, a + b)
  {
    hide Addr, Mapped, Contents, SameFiles, SameTable, Splice, FreeBlocks;
    SpliceTwice(Contents(v, ii[i]), off, a, b);
    SameFilesTrans(v, ii, v1, ii1, v2, ii2, i);
    SameTableTrans(v, v1, v2, lay);
    SlotCountMono(ii[i].size, ii1[i].size);
    forall k: nat | k < NSLOTS
      ensures KeepsSlot(v, ii[i], v2, ii2[i], k)
    {
      assert KeepsSlot(v, ii[i], v1, ii1[i], k) && KeepsSlot(v1, ii1[i], v2, ii2[i], k);
    }
  }

  /** Existing blocks of the file that a write from `off` to `end` touches are allowed for in the log. */
  ghost predicate BlocksAllowed(v: Disk, d: Dinode, off: nat, end: nat, pinned: set<nat>, fixed: set<nat>) {
    && d.Ok()
    && forall bn: nat | off / BSIZE <= bn < MAXFILE && BSIZE * bn < d.size
    && BSIZE * bn < end :: Allowed(Addr(v, d, SlotOf(bn)), pinned, fixed)
  }

  /** `tot` bytes of `src` are in: `ii0` has become `ii`, and what is left of the room still covers the rest. */
  ghost predicate Looping(log: Log, lay: Layout, v0: Disk, ii0: seq<Dinode>, i: nat, off: nat, src: seq<byte>, tot: nat,
                          d: Dinode, ii: seq<Dinode>, owner0: seq<Owner>, owner: seq<Owner>, fixed: set<nat>,
                          extra: nat, pinned0: set<nat>)
    reads log, log.bc
  {
    && tot <= |src| && (tot == 0 || tot == |src| || (off + tot) % BSIZE == 0) && i < |ii0| == |ii| && d.Ok()
    && var size := ii0[i].size; var end := Max(size, off + |src|);
    && d == ii0[i].(addrs := d.addrs) && ii[i] == d.(size := Max(size, off + tot))
    && WroteAt(v0, ii0, log.View(), ii, lay, i, off, src[..tot])
    && SlotCount(size) <= SlotCount(ii[i].size) <= SlotCount(end) && SlotCount(ii[i].size) - SlotCount(size) <= extra
    && Writing(log, lay, ii, owner, i, fixed, extra - (SlotCount(ii[i].size) - SlotCount(size)))
    && pinned0 <= log.bc.a.pinned && (off + |src| <= size ==> owner == owner0)
  }

  /** What `inode_write` started from. */
  ghost predicate Started(v0: Disk, lay: Layout, ii0: seq<Dinode>, i: nat, off: nat, src: seq<byte>, fixed: set<nat>,
                          extra: nat, pinned0: set<nat>) {
    && i < |ii0| && off <= ii0[i].size && off + |src| <= MAXFILE * BSIZE && lay.Ok() && |v0| == lay.Start()
    && SlotCount(Max(ii0[i].size, off + |src|)) - SlotCount(ii0[i].size) <= extra
    && SlotCount(Max(ii0[i].size, off + |src|)) - SlotCount(ii0[i].size) <= |FreeBlocks(v0, lay)|
    && BlocksAllowed(v0, ii0[i], off, off + |src|, pinned0, fixed)
  }

  /** One round of the loop: up to the end of a block. */
  method WriteRound(log: Log, d: Dinode, off: nat, src: seq<byte>, tot: nat, ghost lay: Layout, ghost v0: Disk,
                    ghost ii0: seq<Dinode>, ghost ii: seq<Dinode>, ghost owner0: seq<Owner>, ghost owner: seq<Owner>,
                    ghost i: nat, ghost fixed: set<nat>, ghost extra: nat, ghost pinned0: set<nat>)
    returns (m: nat, d': Dinode, ghost ii': seq<Dinode>, ghost owner': seq<Owner>)
    requires Started(v0, lay, ii0, i, off, src, fixed, extra, pinned0) && tot < |src|
    requires Looping(log, lay, v0, ii0, i, off, src, tot, d, ii, owner0, owner, fixed, extra, pinned0)
    modifies log`lh, log`slot, log.bc
    ensures 0 < m <= |src| - tot &&
      Looping(log, lay, v0, ii0, i, off, src, tot + m, d', ii', owner0, owner', fixed, extra, pinned0)
  {
    hide Log.Valid, Log.View, Room, FsOwn, FreeBlocks, WroteAt, Addr, SlotCount, Ready, BlocksAllowed;
    ghost var v1, end := log.View(), Max(ii0[i].size, off + |src|);
    var o := off + tot;
    m := PieceLength(o, |src| - tot);
    WriteRoundReady(v0, ii0, v1, ii, lay, i, off, src[..tot], m, end, off + |src|, pinned0, log.bc.a.pinned, fixed);
    d', ii', owner' :=
      WriteBlock(log, d, o, src[tot..tot + m], lay, ii, owner, i, fixed,
      extra - (SlotCount(ii[i].size) - SlotCount(ii0[i].size)));
    WroteThen(v0, ii0, v1, ii, log.View(), ii', lay, i, off, src[..tot], src[tot..tot + m]);
    assert src[..tot] + src[tot..tot + m] == src[..tot + m];
    SlotCountMono(ii'[i].size, end);
  }

  method WriteLoop(log: Log, d0: Dinode, off: nat, src: seq<byte>, ghost lay: Layout, ghost ii0: seq<Dinode>,
                   ghost owner0: seq<Owner>, ghost i: nat, ghost fixed: set<nat>, ghost extra: nat)
    returns (d: Dinode, ghost ii: seq<Dinode>, ghost owner: seq<Owner>)
    requires Writing(log, lay, ii0, owner0, i, fixed, extra) && d0.Ok() && ii0[i] == d0 &&
      Started(log.View(), lay, ii0, i, off, src, fixed, extra, log.bc.a.pinned)
    modifies log`lh, log`slot, log.bc
    ensures SlotCount(d0.size) <= SlotCount(Max(d0.size, off + |src|))
    ensures d == d0.(addrs := d.addrs) && d.Ok() && WroteAt(old(log.View()), ii0, log.View(), ii, lay, i, off, src)
    ensures |ii| == |ii0| && ii[i] == d.(size := Max(d0.size, off + |src|)) && old(log.bc.a.pinned) <= log.bc.a.pinned
    ensures Writing(log, lay, ii, owner, i, fixed, extra - (SlotCount(Max(d0.size, off + |src|)) - SlotCount(d0.size)))
    ensures off + |src| <= d0.size ==> owner == owner0
  {
    hide Log.Valid, Log.View, WroteAt, SlotCount, Writing, BlocksAllowed, FreeBlocks;
    ghost var v0, pinned0 := log.View(), log.bc.a.pinned;
    d, ii, owner := d0, ii0, owner0;
    var tot := 0;
    SlotCountMono(d0.size, Max(d0.size, off + |src|));
    WritingShape(log, lay, ii0, owner0, i, fixed, extra);
    WroteNothing(v0, ii0, lay, i, off);
    assert src[..0] == [];
    while tot < |src|
      invariant Looping(log, lay, v0, ii0, i, off, src, tot, d, ii, owner0, owner, fixed, extra, pinned0)
      decreases |src| - tot
    {
      var m;
      m, d, ii, owner := WriteRound(log, d, off, src, tot, lay, v0, ii0, ii, owner0, owner, i, fixed, extra, pinned0);
      tot := tot + m;
    }
    assert src[..tot] == src;
  }

  lemma {:induction false} WritingShape(log: Log, lay: Layout, ii: seq<Dinode>, owner: seq<Owner>, i: nat,
                                        fixed: set<nat>, extra: nat)
    requires Writing(log, lay, ii, owner, i, fixed, extra)
    ensures lay.Ok() && |log.View()| == lay.Start() && |ii| == lay.ninodes && ii[i].Ok() && Mapped(log.View(), ii[i])
  {
    hide Log.Valid, Log.View, Mapped;
    ShapeOf(log.View(), ii, owner, lay);
  }

  /** Between rounds the resources left still cover the next one. */
  lemma {:induction false} WriteRoundReady(v0: Disk, ii0: seq<Dinode>, v: Disk, ii: seq<Dinode>, lay: Layout, i: nat,
                                           off: nat, done: seq<byte>, m: nat, end: nat, upto: nat, pinned0: set<nat>,
                                           pinned: set<nat>, fixed: set<nat>)
    requires WroteAt(v0, ii0, v, ii, lay, i, off, done) && pinned0 <= pinned
    requires BlocksAllowed(v0, ii0[i], off, upto, pinned0, fixed) && off + |done| < upto && off + |done| + m <= end &&
      Max(ii0[i].size, off + |done|) <= end
    requires SlotCount(end) - SlotCount(ii0[i].size) <= |FreeBlocks(v0, lay)|
    requires done == [] || (off + |done|) % BSIZE == 0
    ensures SlotCount(Max(ii[i].size,
      off + |done| + m)) - SlotCount(ii0[i].size) <= SlotCount(end) - SlotCount(ii0[i].size)
    ensures SlotCount(Max(ii[i].size, off + |done| + m)) - SlotCount(ii[i].size) <= |FreeBlocks(v, lay)|
    ensures ii[i].Ok() && ((off + |done|) / BSIZE * BSIZE < ii[i].size && (off + |done|) / BSIZE < MAXFILE ==>
      Allowed(Addr(v, ii[i], SlotOf((off + |done|) / BSIZE)), pinned, fixed))
  {
    hide Contents, FreeBlocks, SlotCount, Addr, Splice, SameFiles, SameTable;
    SlotCountMono(Max(ii[i].size, off + |done| + m), end);
    var bn := (off + |done|) / BSIZE;
    if bn * BSIZE < ii[i].size && bn < MAXFILE {
      assert BSIZE * bn < ii0[i].size;
      assert MappedSlot(v0, ii0[i], SlotOf(bn)) && KeepsSlot(v0, ii0[i], v, ii[i], SlotOf(bn));
    }
  }

  /** The tests that make `inode_write` return -1, in 32-bit arithmetic. */
  predicate BadWrite(size: nat, off: nat, n: nat): (b: bool)
    ensures off < U32 && n < U32 ==> (b <==> !(off <= size && off + n <= MAXFILE * BSIZE))
  {
    off > size || (off + n) % U32 < off || (off + n) % U32 > MAXFILE * BSIZE
  }

  /** File `i` has had `src` spliced in at `off`; the other files are as before. */
  ghost predicate Wrote(v: Disk, ii: seq<Dinode>, v': Disk, ii': seq<Dinode>, i: nat, off: nat, src: seq<byte>) {
    && i < |ii| == |ii'| && Mapped(v, ii[i]) && Mapped(v', ii'[i]) && off <= ii[i].size
    && Contents(v', ii'[i]) == Splice(Contents(v, ii[i]), off, src)
    && ii'[i] == ii[i].(addrs := ii'[i].addrs, size := Max(ii[i].size, off + |src|)) && SameFiles(v, ii, v', ii', i)
  }

  /** A write that does not grow the file leaves its inode as it was. */
  lemma {:induction false} NoGrowth(v: Disk, ii: seq<Dinode>, v': Disk, ii': seq<Dinode>, lay: Layout, i: nat, off: nat,
                                    src: seq<byte>)
    requires WroteAt(v, ii, v', ii', lay, i, off, src) && off + |src| <= ii[i].size
    requires ii'[i] == ii[i].(addrs := ii'[i].addrs, size := ii'[i].size)
    ensures ii'[i] == ii[i]
  {
    hide Contents, FreeBlocks, SameFiles, SameTable, Splice;
    forall k: nat | k <= NDIRECT
      ensures ii'[i].addrs[k] == ii[i].addrs[k]
    {
      assert MappedSlot(v, ii[i], k) && MappedSlot(v', ii'[i], k) && KeepsSlot(v, ii[i], v', ii'[i], k);
    }
  }

  /** An inode table no sector of which changed still lists the same inodes. */
  lemma {:induction false} TableKept(v: Disk, v': Disk, ii: seq<Dinode>, lay: Layout)
    requires Table(v, ii, lay) && SameTable(v, v', lay)
    ensures Table(v', ii, lay)
  {
    hide DinodeAt;
    forall i: nat | i < |ii|
      ensures TableAt(v', ii, lay, i)
    {
      assert TableAt(v, ii, lay, i);
    }
  }

  lemma {:induction false} SameFilesSeq(v: Disk, ii: seq<Dinode>, v': Disk, ii': seq<Dinode>, i: nat)
    requires SameFiles(v, ii, v', ii', i) && i < |ii|
    ensures ii' == ii[i := ii'[i]]
  {
    hide Mapped, Contents;
    forall j: nat | j < |ii|
      ensures ii'[j] == ii[i := ii'[i]][j]
    {
      if j != i { assert SameFile(v, ii[j], v', ii'[j]); }
    }
  }

  /** `inode_write` when the file does not grow: the in-memory inode is already the one on disk. */
  lemma {:induction false} WroteInside(v: Disk, ii: seq<Dinode>, v': Disk, ii': seq<Dinode>, lay: Layout, i: nat,
                                       off: nat, src: seq<byte>)
    requires WroteAt(v, ii, v', ii', lay, i, off, src) && off + |src| <= ii[i].size && Table(v, ii, lay)
    requires ii'[i] == ii[i].(addrs := ii'[i].addrs, size := ii'[i].size)
    ensures ii' == ii && Table(v', ii', lay) && Wrote(v, ii, v', ii', i, off, src)
  {
    hide Contents, FreeBlocks, SameFiles, SameTable, Splice, Table, Mapped;
    NoGrowth(v, ii, v', ii', lay, i, off, src);
    SameFilesSeq(v, ii, v', ii', i);
    TableKept(v, v', ii, lay);
  }

  /** `inode_write` when the file grows: the inode is rewritten to match. */
  lemma {:induction false} WroteAndUpdated(v: Disk, ii: seq<Dinode>, v1: Disk, ii': seq<Dinode>, owner': seq<Owner>,
                                           v2: Disk, lay: Layout, i: nat, off: nat, src: seq<byte>)
    requires WroteAt(v, ii, v1, ii', lay, i, off, src) && Table(v, ii, lay) && FsOk(v1, ii', owner', lay)
    requires ii'[i] == ii[i].(addrs := ii'[i].addrs, size := ii'[i].size) && v2 == PutInode(v1, lay, i, ii'[i])
    ensures Table(v2, ii', lay) && Wrote(v, ii, v2, ii', i, off, src) && FsOk(v2, ii', owner', lay)
    ensures FreeBlocks(v2, lay) == FreeBlocks(v1, lay)
  {
    assert TableWrite(v1, v2, lay, lay.IBlock(i)) by { hide PutDinode, Contents, SameFiles, SameTable, Mapped; }
    hide Contents, FreeBlocks, SameTable, Splice, Table, Mapped, PutInode, FsOwn, TableWrite;
    SameFilesSeq(v, ii, v1, ii', i);
    TableKept(v, v1, ii, lay);
    TableOfPut(v1, ii, lay, i, ii'[i]);
    TableWriteOk(v1, v2, ii', owner', lay, lay.IBlock(i));
    assert SameFile(v1, ii'[i], v2, ii'[i]);
    SameFilesTrans(v, ii, v1, ii', v2, ii', i);
  }

  lemma {:induction false} WroteCount(v: Disk, ii: seq<Dinode>, v': Disk, ii': seq<Dinode>, lay: Layout, i: nat,
                                      off: nat, src: seq<byte>)
    requires WroteAt(v, ii, v', ii', lay, i, off, src)
    ensures lay.Ok() && |v| == |v'| == lay.Start() && i < |ii|
    ensures |FreeBlocks(v', lay)| ==
      |FreeBlocks(v, lay)| - (SlotCount(Max(ii[i].size, off + |src|)) - SlotCount(ii[i].size))
  {
  }

  /**
   * What a write of `n` bytes at `off` needs: log room and free blocks for what it adds, log room for what it touches.
   */
  ghost predicate CanWrite(log: Log, lay: Layout, ii: seq<Dinode>, i: nat, off: nat, n: nat, fixed: set<nat>,
                           extra: nat)
    reads log, log.bc
  {
    && i < |ii| && lay.Ok() && |log.View()| == lay.Start()
    && SlotCount(Max(ii[i].size, off + n)) - SlotCount(ii[i].size) <= extra
    && SlotCount(Max(ii[i].size, off + n)) - SlotCount(ii[i].size) <= |FreeBlocks(log.View(), lay)|
    && BlocksAllowed(log.View(), ii[i], off, off + n, log.bc.a.pinned, fixed)
    && Allowed(lay.IBlock(i), log.bc.a.pinned, fixed)
  }

  /** `inode_write`: splice `src` into the file at `off`, growing it if need be, or refuse and change nothing. */
  method InodeWrite(log: Log, i: nat, d: Dinode, src: seq<byte>, off: nat, ghost lay: Layout, ghost ii: seq<Dinode>,
                    ghost owner: seq<Owner>, ghost fixed: set<nat>, ghost extra: nat)
    returns (r: int, d': Dinode, ghost ii': seq<Dinode>, ghost owner': seq<Owner>)
    requires Ready(log, lay) && log.busy && log.bc.a.held == {} && FsOk(log.View(), ii, owner, lay) &&
      Table(log.View(), ii, lay)
    requires i < |ii| && ii[i] == d && off < U32 && |src| < U32
    requires !BadWrite(d.size, off, |src|) ==>
      Writing(log, lay, ii, owner, i, fixed, extra) && CanWrite(log, lay, ii, i, off, |src|, fixed, extra)
    modifies log`lh, log`slot, log.bc
    ensures Ready(log, lay) && log.bc.a.held == {} && FsOk(log.View(), ii', owner', lay)
    ensures r == if off <= d.size && off + |src| <= MAXFILE * BSIZE then |src| else -1
    ensures r < 0 ==>
      log.View() == old(log.View()) && log.bc.a == old(log.bc.a) && log.lh == old(log.lh) && d' == d && ii' == ii &&
      owner' == owner
    ensures r >= 0 ==> Wrote(old(log.View()), ii, log.View(), ii', i, off, src)
    ensures r >= 0 ==> SlotCount(d.size) <= SlotCount(Max(d.size, off + |src|))
    ensures r >= 0 ==>
      Writing(log, lay, ii', owner', i, fixed, extra - (SlotCount(Max(d.size, off + |src|)) - SlotCount(d.size)))
    ensures r >= 0 ==>
      |FreeBlocks(log.View(), lay)| ==
      |FreeBlocks(old(log.View()), lay)| - (SlotCount(Max(d.size, off + |src|)) - SlotCount(d.size))
    ensures |ii'| == |ii| && d' == ii'[i] && Table(log.View(), ii', lay) && old(log.bc.a.pinned) <= log.bc.a.pinned
    ensures off + |src| <= d.size ==> ii' == ii && owner' == owner
  {
    hide Log.Valid, Log.View, Word, Room, FsOwn, Mapped, Contents, WroteAt, SlotCount, Ready, Table, Wrote,
      BlocksAllowed;
    d', ii', owner' := d, ii, owner;
    if off > d.size || (off + |src|) % U32 < off { return -1, d', ii', owner'; }
    if (off + |src|) % U32 > MAXFILE * BSIZE { return -1, d', ii', owner'; }
    r := |src|;
    ghost var v := log.View();
    WritingShape(log, lay, ii, owner, i, fixed, extra);
    d', ii', owner' := WriteLoop(log, d, off, src, lay, ii, owner, i, fixed, extra);
    WroteCount(v, ii, log.View(), ii', lay, i, off, src);
    if |src| > 0 && off + |src| > d'.size {
      d' := d'.(size := off + |src|);
      ghost var v1 := log.View();
      InodeUpdate(log, i, d', lay, fixed, extra - (SlotCount(Max(d.size, off + |src|)) - SlotCount(d.size)));
      WroteAndUpdated(v, ii, v1, ii', owner', log.View(), lay, i, off, src);
    } else {
      WroteInside(v, ii, log.View(), ii', lay, i, off, src);
    }
  }

  /** A file's bytes within one block are that block's. */
  lemma {:induction false} PieceOf(v: Disk, d: Dinode, bn: nat, p: nat, m: nat)
    requires Mapped(v, d) && p + m <= BSIZE && BSIZE * bn + p + m <= d.size && 0 < m
    ensures bn < MAXFILE && Addr(v, d, SlotOf(bn)) < |v|
    ensures Contents(v, d)[BSIZE * bn + p..BSIZE * bn + p + m] == v[Addr(v, d, SlotOf(bn))].bytes[p..p + m]
  {
    hide Addr;
    assert MappedSlot(v, d, SlotOf(bn));
    var a, b := Contents(v, d)[BSIZE * bn + p..BSIZE * bn + p + m], v[Addr(v, d, SlotOf(bn))].bytes[p..p + m];
    forall j | 0 <= j < m
      ensures a[j] == b[j]
    {
      var o := BSIZE * bn + p + j;
      assert o / BSIZE == bn && o % BSIZE == p + j;
      assert a[j] == ByteAt(v, d, o);
    }
  }

  /** The tests that make `inode_read` return -1, in 32-bit arithmetic. */
  predicate BadRead(size: nat, off: nat, n: nat): (b: bool)
    ensures off < U32 && n < U32 ==> (b <==> !(off <= size && off + n < U32))
  {
    off > size || (off + n) % U32 < off
  }

  lemma {:induction false} FsMapped(v: Disk, ii: seq<Dinode>, owner: seq<Owner>, lay: Layout, i: nat)
    requires FsOk(v, ii, owner, lay) && i < |ii|
    ensures Mapped(v, ii[i])
  {
    hide FsOwn;
  }

  /** Nothing but the placement of buffers has changed. */
  ghost predicate AsBefore(log: Log, lay: Layout, v: Disk, a: BC.Abs<Sector>, lh: seq<nat>, slot: seq<int>)
    reads log, log.bc
  {
    Ready(log, lay) && log.bc.a.held == {} && log.View() == v && log.bc.a.Same(a) && log.lh == lh && log.slot == slot
  }

  /** Bytes to copy from or to the block at `off`, with `left` to go. */
  function PieceLength(off: nat, left: nat): (m: nat)
    requires left > 0
    ensures 0 < m <= left && m <= BSIZE - off % BSIZE && (m == left || (off + m) % BSIZE == 0)
  {
    if left < BSIZE - off % BSIZE then left else BSIZE - off % BSIZE
  }

  /** `inode_read`: the bytes from `off` on, clipped to the file; allocates and logs nothing. */
  method InodeRead(log: Log, d: Dinode, off: nat, n: nat, ghost lay: Layout, ghost ii: seq<Dinode>,
                   ghost owner: seq<Owner>, ghost i: nat)
    returns (r: int, dst: seq<byte>)
    requires Ready(log, lay) && log.bc.a.held == {} && |log.bc.a.pinned| <= CAP
    requires FsOk(log.View(), ii, owner, lay) && i < |ii| && ii[i] == d && off < U32 && n < U32
    modifies log`lh, log`slot, log.bc
    ensures Ready(log, lay) && log.bc.a.held == {}
    ensures log.View() == old(log.View()) && log.bc.a.Same(old(log.bc.a)) && log.lh == old(log.lh) &&
      log.slot == old(log.slot)
    ensures off > d.size || off + n >= U32 ==> r == -1 && dst == []
    ensures off <= d.size && off + n < U32 ==>
      && r == |dst| == Min(n, d.size - off) && Mapped(log.View(), d)
      && dst == Contents(log.View(), d)[off..off + r]
  {
    hide Log.Valid, Log.View, FsOk, Mapped, Contents, Ready, BadRead;
    dst := [];
    ghost var v, a, lh, slot := log.View(), log.bc.a, log.lh, log.slot;
    FsMapped(v, ii, owner, lay, i);
    if BadRead(d.size, off, n) { return -1, []; }
    var len := if off + n > d.size then d.size - off else n;
    assert Contents(v, d)[off..off] == [];
    while |dst| < len
      invariant |dst| <= len && AsBefore(log, lay, v, a, lh, slot) && dst == Contents(v, d)[off..off + |dst|]
      decreases len - |dst|
    {
      var m := PieceLength(off + |dst|, len - |dst|);
      var piece := ReadPiece(log, d, off + |dst|, m, lay, ii, owner, i);
      SliceMore(Contents(v, d), off, |dst|, m);
      dst := dst + piece;
    }
    r := len;
  }

  /** One round of `inode_read`'s loop. */
  method ReadPiece(log: Log, d: Dinode, o: nat, m: nat, ghost lay: Layout, ghost ii: seq<Dinode>,
                   ghost owner: seq<Owner>, ghost i: nat)
    returns (piece: seq<byte>)
    requires Ready(log, lay) && log.bc.a.held == {} && |log.bc.a.pinned| <= CAP
    requires FsOk(log.View(), ii, owner, lay) && i < |ii| && ii[i] == d && 0 < m <= BSIZE - o % BSIZE && o + m <= d.size
    modifies log`lh, log`slot, log.bc
    ensures Ready(log, lay) && log.bc.a.held == {}
    ensures log.View() == old(log.View()) && log.bc.a.Same(old(log.bc.a)) && log.lh == old(log.lh) &&
      log.slot == old(log.slot)
    ensures Mapped(log.View(), d) && piece == Contents(log.View(), d)[o..o + m]
  {
    hide Log.Valid, Log.View, Word, FsOwn, Contents, Addr, Reaches;
    ghost var v := log.View();
    assert Mapped(v, ii[i]);
    RoomNone(log.bc.a.pinned);
    PieceOf(v, d, o / BSIZE, o % BSIZE, m);
    var addr, d', ii', owner' := Bmap(log, d, o / BSIZE, lay, ii, owner, i, {}, 0);
    ReachedBlock(v, ii, v, ii', owner', lay, i, o / BSIZE, addr);
    var data := log.Peek(addr);
    piece := data.bytes[o % BSIZE..o % BSIZE + m];
  }

  lemma {:induction false} RoomNone(pinned: set<nat>)
    requires |pinned| <= CAP
    ensures Room(pinned, {}, 0)
  {
    assert pinned + {} == pinned;
  }

  lemma {:induction false} SliceMore(c: seq<byte>, off: nat, n: nat, m: nat)
    requires off + n + m <= |c|
    ensures c[off..off + n] + c[off + n..off + n + m] == c[off..off + n + m]
  {
  }
}
