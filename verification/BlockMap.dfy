/**
 * Mapping a file's block number to a disk block, allocating at the end of the
 * file: direct blocks, then the indirect block and its entries.
 */
module BlockMap {
  import opened Sectors
  import opened FsSpec
  import opened FsInv
  import opened FsSteps
  import opened Log
  import opened Blocks

  /** Blocks that `bmap` must allocate to reach block `bn` of a file of `size` bytes (no further than its end). */
  function NewBlocks(size: nat, bn: nat): nat {
    if BSIZE * bn < size then 0 else if bn == NDIRECT then 2 else 1
  }

  /** Slots in use before stay as they were. */
  ghost predicate KeepsSlots(v: Disk, d: Dinode, v': Disk, d': Dinode) {
    d.Ok() && d'.Ok() && forall k: nat | k < NSLOTS :: KeepsSlot(v, d, v', d', k)
  }

  ghost predicate KeepsSlot(v: Disk, d: Dinode, v': Disk, d': Dinode, k: nat)
    requires d.Ok() && d'.Ok() && k < NSLOTS
  {
    Addr(v, d, k) != 0 ==> Addr(v', d', k) == Addr(v, d, k)
  }

  /**
   * File `i` reaches block `bn`, at disk block `addr`: unchanged if it was long
   * enough, else longer by a zero byte.  All else is as before.
   */
  ghost predicate Reaches(v: Disk, ii: seq<Dinode>, v': Disk, ii': seq<Dinode>, owner': seq<Owner>, lay: Layout, i: nat,
                          bn: nat, addr: nat) {
    && i < |ii| == |ii'| && FsOk(v', ii', owner', lay) && Mapped(v, ii[i]) && Mapped(v', ii'[i]) && bn < MAXFILE
    && ii'[i].size == (if BSIZE * bn < ii[i].size then ii[i].size else BSIZE * bn + 1)
    && Contents(v', ii'[i]) == Contents(v, ii[i]) + (if BSIZE * bn < ii[i].size then [] else [0])
    && SameFiles(v, ii, v', ii', i) && SameTable(v, v', lay) && KeepsSlots(v, ii[i], v', ii'[i])
    && addr == Addr(v', ii'[i], SlotOf(bn)) && addr != 0
    && |v| == |v'| && |FreeBlocks(v', lay)| == |FreeBlocks(v, lay)| - NewBlocks(ii[i].size, bn)
  }

  lemma {:induction false} ReachesAlready(v: Disk, ii: seq<Dinode>, owner: seq<Owner>, lay: Layout, i: nat, bn: nat)
    requires FsOk(v, ii, owner, lay) && i < |ii| && bn < MAXFILE && BSIZE * bn < ii[i].size
    ensures Reaches(v, ii, v, ii, owner, lay, i, bn, Addr(v, ii[i], SlotOf(bn)))
  {
    hide FsOwn, Addr, Contents;
    assert Mapped(v, ii[i]) && MappedSlot(v, ii[i], SlotOf(bn));
  }

  lemma {:induction false} ReachesByOne(v: Disk, v': Disk, ii: seq<Dinode>, owner: seq<Owner>, lay: Layout, i: nat,
                                        d': Dinode, b: nat, bn: nat)
    requires FsOk(v, ii, owner, lay) && i < |ii| && bn < MAXFILE && bn != NDIRECT && ii[i].size == BSIZE * bn
    requires Hooks(v, v', ii[i], d', lay, b, SlotOf(bn)) && !BlockBit(v, lay, b) && d'.size == ii[i].size + 1
    ensures b < |owner| && Reaches(v, ii, v', ii[i := d'], owner[b := Slot(i, SlotOf(bn))], lay, i, bn, b)
  {
    hide FsOwn, Addr, Contents, Hooks, BlockBit, SameFiles, SameTable, FreeBlocks;
    var k := SlotOf(bn);
    assert Mapped(v, ii[i]) && MappedSlot(v, ii[i], k);
    HookShape(v, v', ii, owner, lay, i, d', b, k);
    FreeUnowned(v, ii, owner, lay, b);
    HookGrow(v, v', ii, owner, lay, i, d', b, bn);
    HookFree(v, v', ii, owner, lay, i, d', b, k);
    forall j: nat | j < NSLOTS
      ensures Addr(v', d', j) == if j == k then b else Addr(v, ii[i], j)
    {
      HookAddr(v, v', ii, owner, lay, i, d', b, k, j);
    }
  }

  lemma {:induction false} ReachesByTwo(v: Disk, v1: Disk, v2: Disk, ii: seq<Dinode>, ii1: seq<Dinode>,
                                        ii2: seq<Dinode>, owner: seq<Owner>, owner1: seq<Owner>, lay: Layout, i: nat,
                                        b1: nat, b2: nat)
    requires FsOk(v, ii, owner, lay) && i < |ii| == |ii1| == |ii2| && ii1 == ii[i := ii1[i]] && ii2 == ii1[i := ii2[i]]
    requires ii[i].size == BSIZE * NDIRECT && ii2[i].size == ii[i].size + 1
    requires Hooks(v, v1, ii[i], ii1[i], lay, b1, NDIRECT) && !BlockBit(v, lay, b1) &&
      owner1 == owner[b1 := Slot(i, NDIRECT)]
    requires Hooks(v1, v2, ii1[i], ii2[i], lay, b2, NDIRECT + 1) && !BlockBit(v1, lay, b2)
    ensures b2 < |owner1| && Reaches(v, ii, v2, ii2, owner1[b2 := Slot(i, NDIRECT + 1)], lay, i, NDIRECT, b2)
  {
    hide FsOwn, Addr, Contents, Hooks, BlockBit, SameFiles, SameTable, FreeBlocks;
    var k1, k2 := NDIRECT, NDIRECT + 1;
    assert Mapped(v, ii[i]) && MappedSlot(v, ii[i], k1) && MappedSlot(v, ii[i], k2);
    HookShape(v, v1, ii, owner, lay, i, ii1[i], b1, k1);
    FreeUnowned(v, ii, owner, lay, b1);
    HookOwn(v, v1, ii, owner, lay, i, ii1[i], b1, k1);
    HookShape(v1, v2, ii1, owner1, lay, i, ii2[i], b2, k2);
    FreeUnowned(v1, ii1, owner1, lay, b2);
    HookAddr(v, v1, ii, owner, lay, i, ii1[i], b1, k1, k2);
    HookGrowIndirect(v, v1, v2, ii, ii1, ii2, owner, owner1, lay, i, b1, b2);
    HookFree(v, v1, ii, owner, lay, i, ii1[i], b1, k1);
    HookFree(v1, v2, ii1, owner1, lay, i, ii2[i], b2, k2);
    forall j: nat | j < NSLOTS
      ensures Addr(v2, ii2[i], j) == if j == k2 then b2 else if j == k1 then b1 else Addr(v, ii[i], j)
    {
      HookAddr(v, v1, ii, owner, lay, i, ii1[i], b1, k1, j);
      HookAddr(v1, v2, ii1, owner1, lay, i, ii2[i], b2, k2, j);
    }
  }

  lemma {:induction false} RoomWithin(pinned: set<nat>, fixed: set<nat>, extra: nat, fixed': set<nat>, extra': nat)
    requires Room(pinned, fixed, extra) && fixed' <= fixed && extra' <= extra
    ensures Room(pinned, fixed', extra')
  {
    assert pinned + fixed == pinned + fixed' + (fixed - fixed' - pinned);
  }

  /** With the invariant and a free block, allocation can go ahead. */
  lemma {:induction false} AllocReady(log: Log, lay: Layout, ii: seq<Dinode>, owner: seq<Owner>, fixed: set<nat>,
                                      extra: nat)
    requires Ready(log, lay) && log.busy && FsOwn(log.View(), ii, owner, lay) &&
      HoldsData(log.bc.a.held, log.View(), lay)
    requires Room(log.bc.a.pinned, fixed, extra) && lay.Bitmaps() <= fixed && 0 < extra &&
      0 < |FreeBlocks(log.View(), lay)|
    ensures CanAlloc(log, lay)
  {
    hide Log.Valid, Log.View, Word, BlockBit, Room;
    var v := log.View();
    RoomWithin(log.bc.a.pinned, fixed, extra, lay.Bitmaps(), 1);
    var b :| b in FreeBlocks(v, lay);
    forall c: nat | c < lay.DataStart()
      ensures BlockBit(v, lay, c)
    {
      MetadataUnowned(v, ii, owner, lay, c);
      assert OwnedOk(v, ii, owner, lay, c);
    }
  }

  /** The log sector `s` is one the transaction has logged or allowed for. */
  ghost predicate Allowed(s: nat, pinned: set<nat>, fixed: set<nat>) {
    s in pinned || s in fixed
  }

  /** Log space, free blocks and position are such that `bmap` can reach block `bn` of file `i`. */
  ghost predicate MayReach(log: Log, lay: Layout, ii: seq<Dinode>, owner: seq<Owner>, i: nat, bn: nat, fixed: set<nat>,
                           extra: nat)
    reads log, log.bc
  {
    && Ready(log, lay) && FsOk(log.View(), ii, owner, lay) && log.bc.a.held == {}
    && i < |ii| && bn < MAXFILE && BSIZE * bn <= ii[i].size
    && Room(log.bc.a.pinned, fixed, extra)
    && (BSIZE * bn == ii[i].size ==>
          && log.busy && lay.Bitmaps() <= fixed
          && NewBlocks(ii[i].size, bn) <= extra && NewBlocks(ii[i].size, bn) <= |FreeBlocks(log.View(), lay)|
          && (ii[i].addrs[NDIRECT] != 0 ==> Allowed(ii[i].addrs[NDIRECT], log.bc.a.pinned, fixed)))
  }

  /** Allocate one block on behalf of a slot, keeping the books on log space. */
  method AllocFor(log: Log, ghost lay: Layout, ghost ii: seq<Dinode>, ghost owner: seq<Owner>, ghost fixed: set<nat>,
                  ghost extra: nat)
    returns (r: nat)
    requires Ready(log, lay) && log.busy && FsOwn(log.View(), ii, owner, lay) &&
      HoldsData(log.bc.a.held, log.View(), lay)
    requires Room(log.bc.a.pinned, fixed, extra) && lay.Bitmaps() <= fixed && 0 < extra &&
      0 < |FreeBlocks(log.View(), lay)|
    modifies log`lh, log`slot, log.bc
    ensures Ready(log, lay) && Allocates(old(log.View()), log.View(), lay, r)
    ensures Room(log.bc.a.pinned, fixed, extra - 1) && old(log.bc.a.pinned) <= log.bc.a.pinned && r in log.bc.a.pinned
    ensures log.bc.a.held == old(log.bc.a.held) && log.bc.a.KeepsHeld(old(log.bc.a))
  {
    hide Log.Valid, Log.View, Word, BlockBit, Room, FsOwn, Allocates, HoldsData, CanAlloc;
    AllocReady(log, lay, ii, owner, fixed, extra);
    ghost var p := log.bc.a.pinned;
    r := BlockAlloc(log, lay);
    RoomKept(p, fixed, extra, lay.BBlock(r));
    RoomUsed(p + {lay.BBlock(r)}, fixed, extra, r);
    assert p + {lay.BBlock(r)} + {r} == log.bc.a.pinned;
  }

  method BmapDirect(log: Log, d: Dinode, bn: nat, ghost lay: Layout, ghost ii: seq<Dinode>, ghost owner: seq<Owner>,
                    ghost i: nat, ghost fixed: set<nat>, ghost extra: nat)
    returns (addr: nat, d': Dinode, ghost ii': seq<Dinode>, ghost owner': seq<Owner>)
    requires MayReach(log, lay, ii, owner, i, bn, fixed, extra) && d.Ok() && ii[i].addrs == d.addrs && bn < NDIRECT
    modifies log`lh, log`slot, log.bc
    ensures Ready(log, lay) && log.bc.a.held == {} && d' == d.(addrs := d'.addrs) && d'.Ok()
    ensures Reaches(old(log.View()), ii, log.View(), ii', owner', lay, i, bn, addr) &&
      ii'[i] == ii[i].(addrs := d'.addrs, size := ii'[i].size)
    ensures Room(log.bc.a.pinned, fixed, extra - NewBlocks(ii[i].size, bn)) && old(log.bc.a.pinned) <= log.bc.a.pinned
    ensures BSIZE * bn < ii[i].size ==>
      log.View() == old(log.View()) && log.bc.a.Same(old(log.bc.a)) && log.lh == old(log.lh) &&
      log.slot == old(log.slot) && owner' == owner
    ensures BSIZE * bn >= ii[i].size ==> addr in log.bc.a.pinned
  {
    hide Log.Valid, Log.View, Word, Room, FsOwn, Reaches, HoldsData, CanAlloc, Contents, FreeBlocks, Alloc;
    ghost var v := log.View();
    d', ii', owner' := d, ii, owner;
    assert Mapped(v, ii[i]) && MappedSlot(v, ii[i], bn);
    addr := d.addrs[bn];
    if addr == 0 {
      assert HoldsData({}, v, lay) by { NoneHeld(v, lay); }
      addr := AllocFor(log, lay, ii, owner, fixed, extra);
      d' := d.(addrs := d.addrs[bn := addr]);
      ii' := ii[i := ii[i].(addrs := d'.addrs, size := ii[i].size + 1)];
      ReachesByOne(v, log.View(), ii, owner, lay, i, ii'[i], addr, bn);
      owner' := owner[addr := Slot(i, bn)];
    } else {
      ReachesAlready(v, ii, owner, lay, i, bn);
    }
  }

  lemma {:induction false} NoneHeld(v: Disk, lay: Layout)
    requires lay.Ok() && |v| == lay.Start()
    ensures HoldsData({}, v, lay)
  {
  }

  lemma {:induction false} RoomAllowed(pinned: set<nat>, fixed: set<nat>, extra: nat, s: nat)
    requires Room(pinned, fixed, extra) && Allowed(s, pinned, fixed)
    ensures Room(pinned + {s}, fixed, extra) && |pinned| + extra <= CAP
  {
    assert pinned + {s} + fixed == pinned + fixed;
    assert pinned + fixed == pinned + (fixed - pinned);
  }

  lemma {:induction false} RoomEmpty(pinned: set<nat>)
    requires Room(pinned, {}, 0)
    ensures |pinned| <= CAP
  {
    assert pinned + {} == pinned;
  }

  /** An inode's indirect block is a data block in use; holding it does not get in the way of allocating. */
  lemma {:induction false} HoldIndirect(v: Disk, ii: seq<Dinode>, owner: seq<Owner>, lay: Layout, i: nat)
    requires FsOwn(v, ii, owner, lay) && i < |ii| && ii[i].addrs[NDIRECT] != 0
    ensures lay.Ok() && |v| == lay.Start() && lay.DataStart() <= ii[i].addrs[NDIRECT] < |v|
    ensures HoldsData({ii[i].addrs[NDIRECT]}, v, lay)
  {
    hide Word, BlockBit;
    AddrOwned(v, ii, owner, lay, i, NDIRECT);
  }

  /** `v'` is `v` with a free block allocated for entry `j` of the indirect block `ia`. */
  ghost predicate FillsEntry(v: Disk, v': Disk, lay: Layout, ia: nat, j: nat, b: nat) {
    && lay.Ok() && |v| == lay.Start() && j < NINDIRECT && ia < |v| && lay.DataStart() <= b < |v| && !BlockBit(v, lay, b)
    && v' == Alloc(v, lay, b)[ia := SetWord(v[ia], j, b)]
  }

  lemma {:induction false} EntryFilled(v: Disk, v1: Disk, lay: Layout, ia: nat, j: nat, b: nat)
    requires Allocates(v, v1, lay, b) && j < NINDIRECT && lay.DataStart() <= ia < |v| && BlockBit(v, lay, ia)
    ensures ia < |v1| && v1[ia] == v[ia] && b < U32 && FillsEntry(v, v1[ia := SetWord(v[ia], j, b)], lay, ia, j, b)
  {
    hide Bit, PutBit, SetWord;
  }

  /** Entry `j` of the indirect block of file `i`, allocating a block for it if it has none. */
  method EntryFor(log: Log, ia: nat, j: nat, ghost lay: Layout, ghost ii: seq<Dinode>, ghost owner: seq<Owner>,
                  ghost i: nat, ghost fixed: set<nat>, ghost extra: nat)
    returns (addr: nat)
    requires Ready(log, lay) && FsOwn(log.View(), ii, owner, lay) && log.bc.a.held == {} && j < NINDIRECT
    requires i < |ii| && ia == ii[i].addrs[NDIRECT] && 0 < ia < |log.View()|
    requires Room(log.bc.a.pinned, fixed, extra)
    requires Word(log.View()[ia], j) == 0 ==>
      log.busy && lay.Bitmaps() <= fixed && Allowed(ia, log.bc.a.pinned, fixed) && 0 < extra &&
        0 < |FreeBlocks(log.View(), lay)|
    modifies log`lh, log`slot, log.bc
    ensures Ready(log, lay) && log.bc.a.held == {} && old(log.bc.a.pinned) <= log.bc.a.pinned
    ensures Word(old(log.View())[ia], j) != 0 ==>
      && addr == Word(old(log.View())[ia], j) && log.View() == old(log.View()) && Room(log.bc.a.pinned, fixed, extra)
      && log.bc.a.Same(old(log.bc.a)) && log.lh == old(log.lh) && log.slot == old(log.slot)
    ensures Word(old(log.View())[ia], j) == 0 ==>
      FillsEntry(old(log.View()), log.View(), lay, ia, j, addr) && Room(log.bc.a.pinned, fixed, extra - 1) &&
        addr in log.bc.a.pinned
  {
    hide Log.Valid, Log.View, Word, SetWord, Room, FsOwn, HoldsData, FreeBlocks, Allocates, FillsEntry, BlockBit;
    ghost var v := log.View();
    HoldIndirect(v, ii, owner, lay, i);
    RoomWithin(log.bc.a.pinned, fixed, extra, {}, 0);
    RoomEmpty(log.bc.a.pinned);
    var h, data := log.Read(ia);
    addr := Word(data, j);
    if addr == 0 {
      assert log.bc.a.held == {ia};
      addr := AllocFor(log, lay, ii, owner, fixed, extra);
      HeldInUse(v, lay, ia);
      EntryFilled(v, log.View(), lay, ia, j, addr);
      RoomAllowed(log.bc.a.pinned, fixed, extra - 1, ia);
      log.Put(h, SetWord(data, j, addr), ia);
    } else {
      log.Release(h, ia);
    }
  }

  lemma {:induction false} HeldInUse(v: Disk, lay: Layout, ia: nat)
    requires lay.Ok() && |v| == lay.Start() && HoldsData({ia}, v, lay)
    ensures lay.DataStart() <= ia < |v| && BlockBit(v, lay, ia)
  {
    assert ia in {ia};
  }

  /** Entries of the indirect block as slots. */
  lemma {:induction false} EntrySlot(v: Disk, ii: seq<Dinode>, owner: seq<Owner>, lay: Layout, i: nat, bn: nat)
    requires FsOk(v, ii, owner, lay) && i < |ii| && NDIRECT <= bn < MAXFILE && BSIZE * bn <= ii[i].size
    ensures ii[i].addrs[NDIRECT] == 0 ==>
      bn == NDIRECT && ii[i].size == BSIZE * NDIRECT && NewBlocks(ii[i].size, bn) == 2
    ensures ii[i].addrs[NDIRECT] != 0 ==>
      && ii[i].addrs[NDIRECT] < |v|
      && Addr(v, ii[i], SlotOf(bn)) == Word(v[ii[i].addrs[NDIRECT]], bn - NDIRECT)
      && (Word(v[ii[i].addrs[NDIRECT]], bn - NDIRECT) == 0 <==> BSIZE * bn == ii[i].size)
      && (BSIZE * bn == ii[i].size ==> bn != NDIRECT)
  {
    hide Word, FsOwn;
    assert Mapped(v, ii[i]) && MappedSlot(v, ii[i], NDIRECT) && MappedSlot(v, ii[i], SlotOf(bn));
  }

  method BmapIndirect(log: Log, d: Dinode, bn: nat, ghost lay: Layout, ghost ii: seq<Dinode>, ghost owner: seq<Owner>,
                      ghost i: nat, ghost fixed: set<nat>, ghost extra: nat)
    returns (addr: nat, d': Dinode, ghost ii': seq<Dinode>, ghost owner': seq<Owner>)
    requires MayReach(log, lay, ii, owner, i, bn, fixed, extra) && d.Ok() && ii[i].addrs == d.addrs && NDIRECT <= bn
    modifies log`lh, log`slot, log.bc
    ensures Ready(log, lay) && log.bc.a.held == {} && d' == d.(addrs := d'.addrs) && d'.Ok()
    ensures Reaches(old(log.View()), ii, log.View(), ii', owner', lay, i, bn, addr) &&
      ii'[i] == ii[i].(addrs := d'.addrs, size := ii'[i].size)
    ensures Room(log.bc.a.pinned, fixed, extra - NewBlocks(ii[i].size, bn)) && old(log.bc.a.pinned) <= log.bc.a.pinned
    ensures BSIZE * bn < ii[i].size ==>
      log.View() == old(log.View()) && log.bc.a.Same(old(log.bc.a)) && log.lh == old(log.lh) &&
      log.slot == old(log.slot) && owner' == owner
    ensures BSIZE * bn >= ii[i].size ==> addr in log.bc.a.pinned && Allowed(d'.addrs[NDIRECT], log.bc.a.pinned, fixed)
  {
    hide Log.Valid, Log.View, Word, SetWord, Room, FsOwn, Reaches, HoldsData, FreeBlocks, Alloc, BlockBit, Contents;
    ghost var v := log.View();
    d', ii', owner' := d, ii, owner;
    EntrySlot(v, ii, owner, lay, i, bn);
    var ia := d.addrs[NDIRECT];
    if ia == 0 {
      NoneHeld(v, lay);
      ia := AllocFor(log, lay, ii, owner, fixed, extra);
      ghost var v1 := log.View();
      d' := d.(addrs := d.addrs[NDIRECT := ia]);
      ghost var ii1 := ii[i := ii[i].(addrs := d'.addrs)];
      IndirectHooked(v, v1, ii, owner, lay, i, ii1[i], ia);
      ghost var owner1 := owner[ia := Slot(i, NDIRECT)];
      addr := EntryFor(log, ia, bn - NDIRECT, lay, ii1, owner1, i, fixed, extra - 1);
      ii' := ii1[i := ii1[i].(size := ii[i].size + 1)];
      ReachesByTwo(v, v1, log.View(), ii, ii1, ii', owner, owner1, lay, i, ia, addr);
      owner' := owner1[addr := Slot(i, NDIRECT + 1)];
    } else {
      addr := EntryFor(log, ia, bn - NDIRECT, lay, ii, owner, i, fixed, extra);
      if BSIZE * bn < ii[i].size {
        ReachesAlready(v, ii, owner, lay, i, bn);
      } else {
        ii' := ii[i := ii[i].(size := ii[i].size + 1)];
        ReachesByOne(v, log.View(), ii, owner, lay, i, ii'[i], addr, bn);
        owner' := owner[addr := Slot(i, SlotOf(bn))];
      }
    }
  }

  /** The first allocation for a file that outgrows its direct blocks. */
  lemma {:induction false} IndirectHooked(v: Disk, v1: Disk, ii: seq<Dinode>, owner: seq<Owner>, lay: Layout, i: nat,
                                          d1: Dinode, ia: nat)
    requires FsOk(v, ii, owner, lay) && i < |ii| && Allocates(v, v1, lay, ia) && ii[i].addrs[NDIRECT] == 0
    requires d1 == ii[i].(addrs := ii[i].addrs[NDIRECT := ia])
    ensures d1.Ok() && ia < |owner| && Hooks(v, v1, ii[i], d1, lay, ia, NDIRECT)
    ensures FsOwn(v1, ii[i := d1], owner[ia := Slot(i, NDIRECT)], lay) && 0 < ia < |v1| && Word(v1[ia], 0) == 0
    ensures |FreeBlocks(v1, lay)| == |FreeBlocks(v, lay)| - 1
  {
    assert Hooks(v, v1, ii[i], d1, lay, ia, NDIRECT) by { hide Word, BlockBit, Bit, PutBit, FsOwn; }
    hide Word, BlockBit, Alloc, FsOwn, Hooks;
    FreeUnowned(v, ii, owner, lay, ia);
    HookShape(v, v1, ii, owner, lay, i, d1, ia, NDIRECT);
    HookOwn(v, v1, ii, owner, lay, i, d1, ia, NDIRECT);
    HookFree(v, v1, ii, owner, lay, i, d1, ia, NDIRECT);
    HookData(v, v1, ii, owner, lay, i, d1, ia, NDIRECT, 0);
    ZeroWord(0);
  }

  /** The disk block of block `bn` of a file, allocated if the file ends there. */
  method Bmap(log: Log, d: Dinode, bn: nat, ghost lay: Layout, ghost ii: seq<Dinode>, ghost owner: seq<Owner>,
              ghost i: nat, ghost fixed: set<nat>, ghost extra: nat)
    returns (addr: nat, d': Dinode, ghost ii': seq<Dinode>, ghost owner': seq<Owner>)
    requires MayReach(log, lay, ii, owner, i, bn, fixed, extra) && d.Ok() && ii[i].addrs == d.addrs
    modifies log`lh, log`slot, log.bc
    ensures Ready(log, lay) && log.bc.a.held == {} && d' == d.(addrs := d'.addrs) && d'.Ok()
    ensures Reaches(old(log.View()), ii, log.View(), ii', owner', lay, i, bn, addr) &&
      ii'[i] == ii[i].(addrs := d'.addrs, size := ii'[i].size)
    ensures Room(log.bc.a.pinned, fixed, extra - NewBlocks(ii[i].size, bn)) && old(log.bc.a.pinned) <= log.bc.a.pinned
    ensures BSIZE * bn < ii[i].size ==>
      log.View() == old(log.View()) && log.bc.a.Same(old(log.bc.a)) && log.lh == old(log.lh) &&
      log.slot == old(log.slot) && owner' == owner
    ensures BSIZE * bn >= ii[i].size ==>
      addr in log.bc.a.pinned && (NDIRECT <= bn ==> Allowed(d'.addrs[NDIRECT], log.bc.a.pinned, fixed))
  {
    hide Log.Valid, Log.View, Reaches, MayReach, Room, Allowed;
    if bn < NDIRECT {
      addr, d', ii', owner' := BmapDirect(log, d, bn, lay, ii, owner, i, fixed, extra);
    } else {
      addr, d', ii', owner' := BmapIndirect(log, d, bn, lay, ii, owner, i, fixed, extra);
    }
  }
}
