/**
 * The block allocator over the log: first-fit search of the bitmap, zeroing of
 * the block found, and freeing.
 */
module Blocks {
  import opened Sectors
  import opened FsSpec
  import opened FsInv
  import opened FsSteps
  import opened LogSpec
  import opened Log

  /** The most sectors one transaction may log: then every operation below finds log space and buffers. */
  const CAP := 7

  /** Logging the sectors of `fixed` and `extra` more stays within the bound. */
  ghost predicate Room(pinned: set<nat>, fixed: set<nat>, extra: nat) {
    |pinned + fixed| + extra <= CAP
  }

  /** The log is in order and its disk laid out as `lay`. */
  ghost predicate Ready(log: Log, lay: Layout)
    reads log, log.bc
  {
    log.Valid() && log.start == lay.Start() && log.size == lay.nlog && DiskOk(log.View(), lay)
  }

  ghost predicate HasFree(v: Disk, lay: Layout)
    requires lay.Ok() && |v| == lay.Start()
  {
    exists b: nat :: b < |v| && !BlockBit(v, lay, b)
  }

  /** Held sectors are data blocks in use. */
  ghost predicate HoldsData(held: set<nat>, v: Disk, lay: Layout)
    requires lay.Ok() && |v| == lay.Start()
  {
    |held| <= 1 && forall s | s in held :: lay.DataStart() <= s < |v| && BlockBit(v, lay, s)
  }

  method ReadSuper(log: Log, ghost lay: Layout) returns (size: nat, ninodes: nat)
    requires Ready(log, lay) && |log.bc.a.pinned| <= CAP && |log.bc.a.held| <= 1 && 1 !in log.bc.a.held
    modifies log.bc
    ensures Ready(log, lay) && log.View() == old(log.View()) && log.bc.a.pinned == old(log.bc.a.pinned)
    ensures log.bc.a.held == old(log.bc.a.held) && log.bc.a.KeepsHeld(old(log.bc.a))
    ensures size == lay.size && ninodes == lay.ninodes
  {
    hide Log.Valid, Log.View, Word;
    var data := log.Peek(1);
    size, ninodes := Word(data, 0), Word(data, 2);
  }

  /** `log_init`: where the log lies is read off the superblock; then committed transactions are put in place. */
  method LogInit(bc: BC.BufCache<Sector>, ghost lay: Layout) returns (log: Log)
    requires bc.Valid() && bc.a.held == bc.a.pinned == {} && bc.a.view == bc.a.disk && lay.Ok() &&
      |bc.a.disk| == lay.size
    requires SuperOk(bc.a.disk[1], lay) && HeaderOk(bc.a.disk, lay.Start())
    modifies bc
    ensures fresh(log) && log.bc == bc && log.start == lay.Start() && log.size == lay.nlog && log.Valid() &&
      !log.busy && bc.a.held == bc.a.pinned == {}
    ensures log.View() == Logical(old(bc.a.disk), lay.Start())
    ensures Extends(bc.a.trace, old(bc.a.trace), old(bc.a.disk), lay.Start(), Word(old(bc.a.disk)[lay.Start()], 0) + 1)
  {
    hide BC.Rep, HeaderOk, Word, Logical, Extends;
    BC.Sized(bc.c, bc.a);
    BC.PinnedBound(bc.c, bc.a);
    var r := bc.Read(1);
    var b := r.value;
    BC.HeldBuffer(bc.c, bc.a, b, 1);
    var data := bc.c.bufs[b].data;
    bc.Release(b, 1);
    assert bc.a.held == {};
    log := new Log(bc, Word(data, 0) - Word(data, 3), Word(data, 3));
    log.Recover();
  }

  /** Zero a block. */
  method BlockZero(log: Log, b: nat, ghost lay: Layout)
    requires Ready(log, lay) && log.busy && |log.bc.a.pinned| < CAP && |log.bc.a.held| <= 1 &&
      lay.DataStart() <= b < log.start && b !in log.bc.a.held
    modifies log`lh, log`slot, log.bc
    ensures Ready(log, lay) && log.View() == old(log.View())[b := Zero()]
    ensures log.bc.a.pinned == old(log.bc.a.pinned) + {b} && log.bc.a.held == old(log.bc.a.held)
    ensures log.bc.a.KeepsHeld(old(log.bc.a))
  {
    hide Log.Valid, Log.View, Word, Zero;
    var h, data := log.Read(b);
    log.Put(h, Zero(), b);
    assert log.bc.a.held == old(log.bc.a).held;
  }

  /** The inner scan of `block_alloc`: the first clear bit among the first `n` of a bitmap sector, else `n`. */
  method FirstClear(data: Sector, n: nat) returns (bi: nat)
    requires n <= BPB
    ensures bi <= n && (forall c: nat | c < bi :: Bit(data, c)) && (bi < n ==> !Bit(data, bi))
  {
    hide ByteBit;
    bi := 0;
    while bi < n && Bit(data, bi)
      invariant bi <= n && forall c: nat | c < bi :: Bit(data, c)
    {
      bi := bi + 1;
    }
  }

  ghost predicate MetaMarked(v: Disk, lay: Layout)
    requires lay.Ok() && |v| == lay.Start()
  {
    forall b: nat | b < lay.DataStart() :: BlockBit(v, lay, b)
  }

  /** Blocks below `n` are all in use. */
  ghost predicate UsedBelow(v: Disk, lay: Layout, n: nat)
    requires lay.Ok() && |v| == lay.Start()
  {
    forall c: nat | c < n && c < lay.size :: BlockBit(v, lay, c)
  }

  /** `r` is the lowest free block of `v`, and `v'` has it marked and zeroed. */
  ghost predicate Allocates(v: Disk, v': Disk, lay: Layout, r: nat) {
    && lay.Ok() && |v| == lay.Start() && lay.DataStart() <= r < |v|
    && !BlockBit(v, lay, r) && UsedBelow(v, lay, r) && v' == Alloc(v, lay, r)
  }

  /** Scanning the bitmap sector of block `b` (a multiple of BPB). */
  lemma {:induction false} ScanStep(v: Disk, lay: Layout, b: nat, bi: nat)
    requires lay.Ok() && |v| == lay.Start() && b < lay.size && b % BPB == 0 && UsedBelow(v, lay, b) && bi <= BPB &&
      b + bi <= lay.size
    requires forall c: nat | c < bi :: Bit(v[lay.BBlock(b)], c)
    ensures UsedBelow(v, lay, b + bi) && (b + bi == lay.size ==> UsedBelow(v, lay, b + BPB))
    ensures bi < BPB && b + bi < lay.size ==>
      lay.BBlock(b + bi) == lay.BBlock(b) && (BlockBit(v, lay, b + bi) == Bit(v[lay.BBlock(b)], bi))
  {
    hide Bit;
    forall c: nat | c < b + bi && c < lay.size
      ensures BlockBit(v, lay, c)
    {
      if b <= c {
        assert c % BPB == c - b && lay.BBlock(c) == lay.BBlock(b);
      }
    }
  }

  lemma {:induction false} ScanEnds(v: Disk, lay: Layout, n: nat)
    requires lay.Ok() && |v| == lay.Start() && HasFree(v, lay) && UsedBelow(v, lay, n)
    ensures n < |v|
  {
    var b: nat :| b < |v| && !BlockBit(v, lay, b);
  }

  lemma {:induction false} InBitmaps(lay: Layout, b: nat)
    requires lay.Ok() && b < lay.size
    ensures lay.BBlock(b) in lay.Bitmaps() && lay.BBlock(b) < lay.DataStart() &&
      lay.BBlock(b) == lay.BBlock(b / BPB * BPB)
  {
    var j := b / BPB;
    assert lay.BBlock(j * BPB) == lay.BBlock(b);
  }

  /** Logging one of the sectors allowed for keeps the room for the rest. */
  lemma {:induction false} RoomKept(pinned: set<nat>, fixed: set<nat>, extra: nat, s: nat)
    requires Room(pinned, fixed, extra) && s in fixed
    ensures Room(pinned + {s}, fixed, extra) && |pinned| + extra <= CAP
  {
    assert pinned + {s} + fixed == pinned + fixed;
    assert pinned + fixed == pinned + (fixed - pinned);
  }

  lemma {:induction false} RoomUsed(pinned: set<nat>, fixed: set<nat>, extra: nat, s: nat)
    requires Room(pinned, fixed, extra) && 0 < extra
    ensures Room(pinned + {s}, fixed, extra - 1) && |pinned| + extra <= CAP
  {
    assert pinned + {s} + fixed == pinned + fixed + {s};
    assert pinned + fixed == pinned + (fixed - pinned);
  }

  /** Buffers, log space and bitmap are such that a block can be allocated. */
  ghost predicate CanAlloc(log: Log, lay: Layout)
    reads log, log.bc
  {
    && Ready(log, lay) && log.busy && Room(log.bc.a.pinned, lay.Bitmaps(), 1)
    && HoldsData(log.bc.a.held, log.View(), lay)
    && HasFree(log.View(), lay) && MetaMarked(log.View(), lay)
  }

  /**
   * Allocate the lowest free block, marked and zeroed.  The search also covers the
   * log area at the end of the disk; a free block below it keeps the result out.
   */
  method BlockAlloc(log: Log, ghost lay: Layout) returns (r: nat)
    requires CanAlloc(log, lay)
    modifies log`lh, log`slot, log.bc
    ensures Ready(log, lay) && Allocates(old(log.View()), log.View(), lay, r)
    ensures log.bc.a.pinned == old(log.bc.a.pinned) + {lay.BBlock(r), r} && lay.BBlock(r) in lay.Bitmaps()
    ensures log.bc.a.held == old(log.bc.a.held) && log.bc.a.KeepsHeld(old(log.bc.a))
  {
    hide Log.Valid, Log.View, Word, UsedBelow, BlockBit, Room, Allocates;
    ghost var v := log.View();
    RoomUsed(log.bc.a.pinned, lay.Bitmaps(), 1, 0);
    var size, ninodes := ReadSuper(log, lay);
    var b := 0;
    UsedBelowZero(v, lay);
    while b < size
      invariant b % BPB == 0 && UsedBelow(v, lay, b) && CanAlloc(log, lay) && log.View() == v
      invariant log.bc.a.pinned == old(log.bc.a.pinned) && log.bc.a.held == old(log.bc.a.held) &&
        log.bc.a.KeepsHeld(old(log.bc.a))
    {
      var found;
      found, r := ScanSector(log, b, size, ninodes, lay);
      if found { return; }
      b := b + BPB;
    }
    ScanEnds(v, lay, b);
    assert false;
  }

  /** One round of the outer scan: take the first free block of the bitmap sector of `b`, if it has one. */
  method ScanSector(log: Log, b: nat, size: nat, ninodes: nat, ghost lay: Layout) returns (found: bool, r: nat)
    requires CanAlloc(log, lay) && size == lay.size && ninodes == lay.ninodes
    requires b < size && b % BPB == 0 && UsedBelow(log.View(), lay, b)
    modifies log`lh, log`slot, log.bc
    ensures Ready(log, lay) && log.bc.a.held == old(log.bc.a.held) && log.bc.a.KeepsHeld(old(log.bc.a))
    ensures !found ==>
      log.View() == old(log.View()) && log.bc.a.pinned == old(log.bc.a.pinned) && UsedBelow(log.View(), lay, b + BPB)
    ensures found ==> Allocates(old(log.View()), log.View(), lay, r)
    ensures found ==> log.bc.a.pinned == old(log.bc.a.pinned) + {lay.BBlock(r), r} && lay.BBlock(r) in lay.Bitmaps()
  {
    hide Log.Valid, Log.View, Bit, PutBit, UsedBelow, BlockBit, Room, Allocates, Alloc, MetaMarked, HasFree, SuperOk,
      Layout.Bitmaps;
    ghost var v := log.View();
    RoomUsed(log.bc.a.pinned, lay.Bitmaps(), 1, 0);
    InBitmaps(lay, b);
    var h, data := log.Read(b / BPB + ninodes / IPB + 3);
    var bi := FirstClear(data, if BPB < size - b then BPB else size - b);
    ScanStep(v, lay, b, bi);
    found := bi < BPB && b + bi < size;
    r := b + bi;
    if found {
      AllocPlace(v, lay, r);
      TakeBlock(log, h, PutBit(data, bi, true), r, lay);
    } else {
      log.Release(h, lay.BBlock(b));
    }
    assert log.bc.a.held == old(log.bc.a).held;
  }

  /** Write the marked bitmap sector held in `h`, release it, and zero the block. */
  method TakeBlock(log: Log, h: nat, marked: Sector, r: nat, ghost lay: Layout)
    requires Ready(log, lay) && log.busy && Room(log.bc.a.pinned, lay.Bitmaps(), 1) &&
      lay.DataStart() <= r < log.start && r !in log.bc.a.held
    requires log.bc.a.Holding(h, lay.BBlock(r)) && |log.bc.a.held| <= 2 && |log.bc.a.held - {lay.BBlock(r)}| <= 1
    requires marked == PutBit(log.View()[lay.BBlock(r)], r % BPB, true)
    modifies log`lh, log`slot, log.bc
    ensures Ready(log, lay) && log.View() == Alloc(old(log.View()), lay, r)
    ensures log.bc.a.pinned == old(log.bc.a.pinned) + {lay.BBlock(r), r} && lay.BBlock(r) in lay.Bitmaps()
    ensures log.bc.a.held == old(log.bc.a.held) - {lay.BBlock(r)} && log.bc.a.KeepsHeld(old(log.bc.a))
  {
    hide Log.Valid, Log.View, Word, Zero, PutBit, Room;
    InBitmaps(lay, r);
    RoomKept(log.bc.a.pinned, lay.Bitmaps(), 1, lay.BBlock(r));
    RoomUsed(log.bc.a.pinned + {lay.BBlock(r)}, lay.Bitmaps(), 1, r);
    log.Put(h, marked, lay.BBlock(r));
    BlockZero(log, r, lay);
  }

  lemma {:induction false} UsedBelowZero(v: Disk, lay: Layout)
    requires lay.Ok() && |v| == lay.Start()
    ensures UsedBelow(v, lay, 0)
  {
  }

  /** The first free block is a data block below the log, and nobody holds it. */
  lemma {:induction false} AllocPlace(v: Disk, lay: Layout, r: nat)
    requires lay.Ok() && |v| == lay.Start() && r < lay.size && HasFree(v, lay) && MetaMarked(v, lay)
    requires UsedBelow(v, lay, r) && !BlockBit(v, lay, r)
    ensures lay.DataStart() <= r < |v| && Allocates(v, Alloc(v, lay, r), lay, r)
  {
    ScanEnds(v, lay, r);
  }

  /** Free a block that is in use: clears its bit and nothing else. */
  method BlockFree(log: Log, b: nat, ghost lay: Layout)
    requires Ready(log, lay) && log.busy && Room(log.bc.a.pinned, lay.Bitmaps(), 0) &&
      HoldsData(log.bc.a.held, log.View(), lay)
    requires b < log.start && BlockBit(log.View(), lay, b)
    modifies log`lh, log`slot, log.bc
    ensures Ready(log, lay) && log.View() == Mark(old(log.View()), lay, b, false)
    ensures log.bc.a.pinned == old(log.bc.a.pinned) + {lay.BBlock(b)} && lay.BBlock(b) in lay.Bitmaps()
    ensures log.bc.a.held == old(log.bc.a.held) && log.bc.a.KeepsHeld(old(log.bc.a))
  {
    hide Log.Valid, Log.View, Word, Bit, PutBit, Room;
    InBitmaps(lay, b);
    RoomKept(log.bc.a.pinned, lay.Bitmaps(), 0, lay.BBlock(b));
    var size, ninodes := ReadSuper(log, lay);
    var h, data := log.Read(b / BPB + ninodes / IPB + 3);
    log.Put(h, PutBit(data, b % BPB, false), lay.BBlock(b));
    assert log.bc.a.held == old(log.bc.a).held;
  }
}
