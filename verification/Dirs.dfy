/** Directory operations on the file system: looking a name up, adding an entry, clearing one. */
module Dirs {
  import opened Sectors
  import opened FsSpec
  import opened FsInv
  import opened FsSteps
  import opened Log
  import opened Blocks
  import opened BlockMap
  import opened Inodes
  import opened DirSpec

  /** Inode `d` is a directory whose contents are sound entries. */
  ghost predicate IsDir(v: Disk, d: Dinode) {
    Mapped(v, d) && d.typ == T_DIR && DirOk(Contents(v, d))
  }

  /** Reading is possible, and changes nothing. */
  ghost predicate Readable(log: Log, lay: Layout, ii: seq<Dinode>, owner: seq<Owner>, i: nat)
    reads log, log.bc
  {
    Ready(log, lay) && log.bc.a.held == {} && |log.bc.a.pinned| <= CAP && FsOk(log.View(), ii, owner, lay) &&
      i < |ii| && IsDir(log.View(), ii[i])
  }

  lemma {:induction false} DirSize(v: Disk, d: Dinode)
    requires IsDir(v, d)
    ensures |Contents(v, d)| == d.size <= MAXFILE * BSIZE < U32 && d.size % DESIZE == 0 &&
      d.size == DESIZE * EntryCount(Contents(v, d))
  {
    hide Contents, MappedSlot;
  }

  /** One entry read from a directory. */
  method ReadEntry(log: Log, d: Dinode, k: nat, ghost lay: Layout, ghost ii: seq<Dinode>, ghost owner: seq<Owner>,
                   ghost i: nat)
    returns (de: seq<byte>)
    requires Readable(log, lay, ii, owner, i) && ii[i] == d && DESIZE * k < d.size
    modifies log`lh, log`slot, log.bc
    ensures Readable(log, lay, ii, owner, i) && log.View() == old(log.View()) && log.bc.a.Same(old(log.bc.a)) &&
      log.lh == old(log.lh) && log.slot == old(log.slot)
    ensures DESIZE * k + DESIZE <= |Contents(log.View(), d)| && de == EntryAt(Contents(log.View(), d), k)
  {
    DirSize(log.View(), d);
    hide Log.Valid, Log.View, FsOk, Contents, Mapped, Ready, DirOk;
    var r;
    r, de := InodeRead(log, d, DESIZE * k, DESIZE, lay, ii, owner, i);
  }

  /** `dir_lookup`: the number the name maps to, and the offset of its entry, or 0. */
  method DirLookup(log: Log, d: Dinode, name: Name, ghost lay: Layout, ghost ii: seq<Dinode>, ghost owner: seq<Owner>,
                   ghost i: nat)
    returns (inum: nat, off: nat)
    requires Readable(log, lay, ii, owner, i) && ii[i] == d && IsString(name)
    modifies log`lh, log`slot, log.bc
    ensures Readable(log, lay, ii, owner, i) && log.View() == old(log.View()) && log.bc.a.Same(old(log.bc.a)) &&
      log.lh == old(log.lh) && log.slot == old(log.slot)
    ensures var c := Contents(log.View(), d);
      && Whole(c) && (inum == 0 <==> Cut(name) !in Names(c))
      && (inum != 0 ==> Names(c)[Cut(name)] == inum && off == DESIZE * FirstNamed(c, Cut(name), 0) && off < |c|)
  {
    DirSize(log.View(), d);
    ghost var c := Contents(log.View(), d);
    assert DirOk(c);
    SearchIsLookup(c, Cut(name));
    hide Log.Valid, Log.View, FsOk, Contents, Mapped, Ready, DirOk, Readable, Names, FirstNamed, NamedAt, LiveAt, Cut,
      SameName;
    var k := 0;
    while DESIZE * k < d.size
      invariant k <= EntryCount(c) && FirstNamed(c, Cut(name), 0) == FirstNamed(c, Cut(name), k)
      invariant Readable(log, lay, ii, owner, i) && log.View() == old(log.View())
      invariant log.bc.a.Same(old(log.bc.a)) && log.lh == old(log.lh) && log.slot == old(log.slot)
      decreases d.size - DESIZE * k
    {
      var de := ReadEntry(log, d, k, lay, ii, owner, i);
      FirstNamedStep(c, Cut(name), k);
      if Inum(de) != 0 {
        SameNameIs(name, de[2..], 0);
        if SameName(name, de[2..], 0) { return Inum(de), DESIZE * k; }
      }
      k := k + 1;
    }
    return 0, 0;
  }

  /** New blocks taken by an entry written at `off`. */
  function Growth(size: nat, off: nat): (g: int)
    ensures g >= 0
  {
    SlotCountMono(size, Max(size, off + DESIZE));
    SlotCount(Max(size, off + DESIZE)) - SlotCount(size)
  }

  /**
   * Sectors an entry written at `off` may log, besides the bitmap and the inode: a block, and past the direct blocks
   * the indirect one.
   */
  function EntryCost(size: nat, off: nat): nat {
    if size <= BSIZE * NDIRECT && off < BSIZE * NDIRECT then 1 else 2
  }

  /** Of these, the ones that exist already. */
  ghost function Touched(v: Disk, d: Dinode, off: nat): set<nat>
    requires d.Ok() && off / BSIZE < MAXFILE
  {
    (if BSIZE * (off / BSIZE) < d.size then {Addr(v, d, SlotOf(off / BSIZE))} else {})
    + (if d.addrs[NDIRECT] != 0 then {d.addrs[NDIRECT]} else {})
  }

  lemma {:induction false} TouchedCost(v: Disk, d: Dinode, off: nat)
    requires Mapped(v, d) && off <= d.size && off % DESIZE == 0 && d.size % DESIZE == 0 &&
      off + DESIZE <= MAXFILE * BSIZE
    ensures |Touched(v, d, off)| + Growth(d.size, off) <= EntryCost(d.size, off)
  {
    assert MappedSlot(v, d, NDIRECT) && Addr(v, d, NDIRECT) == d.addrs[NDIRECT];
    hide Addr, Mapped;
    var a := if BSIZE * (off / BSIZE) < d.size then {Addr(v, d, SlotOf(off / BSIZE))} else {};
    var b := if d.addrs[NDIRECT] != 0 then {d.addrs[NDIRECT]} else {};
    assert |a + b| <= |a| + |b| by { assert a + b == a + (b - a); }
    GrowthIs(d.size, off);
  }

  lemma {:induction false} SlotCountIs(size: nat, k: nat)
    requires BSIZE * k < size + BSIZE <= BSIZE * (k + 1)
    ensures SlotCount(size) == k + if k > NDIRECT then 1 else 0
  {
    assert (size + BSIZE - 1) / BSIZE == k;
  }

  lemma {:induction false} GrowthIs(size: nat, off: nat)
    requires off <= size && off % DESIZE == 0 && size % DESIZE == 0
    ensures Growth(size, off) == if BSIZE * (off / BSIZE) < size then 0 else if off == BSIZE * NDIRECT then 2 else 1
    ensures BSIZE * (off / BSIZE) >= size ==> off == size && size % BSIZE == 0
  {
    var q := off / BSIZE;
    assert BSIZE * q <= off < BSIZE * (q + 1) && off == DESIZE * (off / DESIZE);
    EntryInside(off / DESIZE, q);
    if BSIZE * q < size {
      if off + DESIZE > size {
        SlotCountIs(size, q + 1);
        SlotCountIs(off + DESIZE, q + 1);
      }
    } else {
      SlotCountIs(size, q);
      SlotCountIs(off + DESIZE, q + 1);
    }
  }

  /** An entry does not cross a block boundary. */
  lemma {:induction false} EntryInside(e: nat, q: nat)
    requires DESIZE * e < BSIZE * (q + 1)
    ensures DESIZE * e + DESIZE <= BSIZE * (q + 1)
  {
    var n := 32 * (q + 1);
    assert BSIZE * (q + 1) == DESIZE * n;
    assert e < n;
    assert DESIZE * (e + 1) <= DESIZE * n;
  }

  /**
   * A transaction that has logged `pinned`, and may log `base` and `slack` more, can write an entry at `off` of
   * directory `i`.
   */
  ghost predicate CanPut(v: Disk, pinned: set<nat>, lay: Layout, ii: seq<Dinode>, i: nat, off: nat, base: set<nat>,
                         slack: nat) {
    && i < |ii| && Table(v, ii, lay) && !BadWrite(ii[i].size, off, DESIZE) && off % DESIZE == 0
    && Room(pinned, base, slack) && lay.Bitmaps() <= base && lay.IBlock(i) in base
    && EntryCost(ii[i].size, off) <= slack && Growth(ii[i].size, off) <= |FreeBlocks(v, lay)|
  }

  lemma {:induction false} TouchedRoom(pinned: set<nat>, base: set<nat>, t: set<nat>)
    ensures |pinned + (base + t)| <= |pinned + base| + |t|
  {
    assert pinned + (base + t) == (pinned + base) + (t - (pinned + base));
    assert t == (t - (pinned + base)) + t * (pinned + base);
  }

  lemma {:induction false} TouchedAllowed(v: Disk, d: Dinode, off: nat, pinned: set<nat>, base: set<nat>)
    requires d.Ok() && off / BSIZE < MAXFILE && off % DESIZE == 0
    ensures BlocksAllowed(v, d, off, off + DESIZE, pinned, base + Touched(v, d, off))
  {
    hide Addr;
    forall bn: nat | off / BSIZE <= bn < MAXFILE && BSIZE * bn < d.size && BSIZE * bn < off + DESIZE
      ensures Allowed(Addr(v, d, SlotOf(bn)), pinned, base + Touched(v, d, off))
    {
      assert bn == off / BSIZE;
    }
  }

  /** What the write may log on the way, and how many blocks it may allocate. */
  lemma {:induction false} PutReady(v: Disk, pinned: set<nat>, lay: Layout, ii: seq<Dinode>, i: nat, off: nat,
                                    base: set<nat>, slack: nat)
    requires CanPut(v, pinned, lay, ii, i, off, base, slack) && IsDir(v, ii[i])
    ensures off <= ii[i].size && off + DESIZE <= MAXFILE * BSIZE && off / BSIZE < MAXFILE
    ensures var fixed := base + Touched(v, ii[i], off);
      && Growth(ii[i].size, off) <= CAP - |pinned + fixed|
      && Room(pinned, fixed, CAP - |pinned + fixed|) && lay.Bitmaps() <= fixed && Allowed(lay.IBlock(i), pinned, fixed)
      && (ii[i].addrs[NDIRECT] != 0 ==> Allowed(ii[i].addrs[NDIRECT], pinned, fixed))
      && BlocksAllowed(v, ii[i], off, off + DESIZE, pinned, fixed)
      && |pinned + fixed| + Growth(ii[i].size, off) <= |pinned + base| + EntryCost(ii[i].size, off)
  {
    DirSize(v, ii[i]);
    PutInside(ii[i].size, off);
    TouchedCost(v, ii[i], off);
    TouchedRoom(pinned, base, Touched(v, ii[i], off));
    TouchedAllowed(v, ii[i], off, pinned, base);
    hide Addr, Growth, EntryCost, Mapped, Table, FreeBlocks, DirOk, BlocksAllowed, Layout.Bitmaps;
  }

  lemma {:induction false} PutInside(size: nat, off: nat)
    requires !BadWrite(size, off, DESIZE) && size <= MAXFILE * BSIZE
    ensures off <= size && off + DESIZE <= MAXFILE * BSIZE && off / BSIZE < MAXFILE
  {
  }

  lemma {:induction false} RoomLeft(pinned: set<nat>, pinned': set<nat>, base: set<nat>, fixed: set<nat>, growth: nat,
                                    slack: nat, cost: nat)
    requires base <= fixed && Room(pinned, base, slack) && growth <= CAP - |pinned + fixed| && cost <= slack
    requires Room(pinned', fixed, CAP - |pinned + fixed| - growth) &&
      |pinned + fixed| + growth <= |pinned + base| + cost
    ensures Room(pinned', base, slack - cost)
  {
    RoomWithin(pinned', fixed, CAP - |pinned + fixed| - growth, base, CAP - |pinned + fixed| - growth);
  }

  /** The search for a dead entry in `dir_link`. */
  method FindDead(log: Log, d: Dinode, ghost lay: Layout, ghost ii: seq<Dinode>, ghost owner: seq<Owner>,
                  ghost i: nat) returns (off: nat)
    requires Readable(log, lay, ii, owner, i) && ii[i] == d
    modifies log`lh, log`slot, log.bc
    ensures Readable(log, lay, ii, owner, i) && log.View() == old(log.View()) && log.bc.a.Same(old(log.bc.a)) &&
      log.lh == old(log.lh) && log.slot == old(log.slot)
    ensures off == DESIZE * FirstDead(Contents(log.View(), d), 0)
  {
    DirSize(log.View(), d);
    ghost var c := Contents(log.View(), d);
    hide Log.Valid, Log.View, FsOk, Contents, Mapped, Ready, DirOk, Readable;
    var k := 0;
    while DESIZE * k < d.size
      invariant k <= EntryCount(c) && FirstDead(c, 0) == FirstDead(c, k)
      invariant Readable(log, lay, ii, owner, i) && log.View() == old(log.View())
      invariant log.bc.a.Same(old(log.bc.a)) && log.lh == old(log.lh) && log.slot == old(log.slot)
      decreases d.size - DESIZE * k
    {
      var de := ReadEntry(log, d, k, lay, ii, owner, i);
      if Inum(de) == 0 { break; }
      k := k + 1;
    }
    return DESIZE * k;
  }

  /**
   * Writing one entry: the directory's contents are spliced, every other file is as before, and the log holds no more
   * than allowed for.
   */
  method PutEntry(log: Log, i: nat, d: Dinode, e: seq<byte>, off: nat, ghost lay: Layout, ghost ii: seq<Dinode>,
                  ghost owner: seq<Owner>, ghost base: set<nat>, ghost slack: nat)
    returns (d': Dinode, ghost ii': seq<Dinode>, ghost owner': seq<Owner>)
    requires Readable(log, lay, ii, owner, i) && ii[i] == d && IsEntry(e) && log.busy
    requires CanPut(log.View(), log.bc.a.pinned, lay, ii, i, off, base, slack)
    modifies log`lh, log`slot, log.bc
    ensures Ready(log, lay) && log.bc.a.held == {} && FsOk(log.View(), ii', owner', lay) && Table(log.View(), ii', lay)
    ensures |ii'| == |ii| && d' == ii'[i] && Wrote(old(log.View()), ii, log.View(), ii', i, off, e)
    ensures EntryCost(d.size, off) <= slack && Room(log.bc.a.pinned, base, slack - EntryCost(d.size, off))
    ensures |FreeBlocks(log.View(), lay)| == |FreeBlocks(old(log.View()), lay)| - Growth(d.size, off)
    ensures off + DESIZE <= d.size ==> ii' == ii && owner' == owner
  {
    PutReady(log.View(), log.bc.a.pinned, lay, ii, i, off, base, slack);
    ghost var fixed, pinned := base + Touched(log.View(), d, off), log.bc.a.pinned;
    hide Log.Valid, Log.View, FsOk, Contents, Mapped, Ready, DirOk, Wrote, Table, Room, SlotCount, FreeBlocks,
      BlocksAllowed, Layout.Bitmaps, Touched, EntryCost;
    var r;
    r, d', ii', owner' := InodeWrite(log, i, d, e, off, lay, ii, owner, fixed, CAP - |pinned + fixed|);
    WritingRoom(log, lay, ii', owner', i, fixed, CAP - |pinned + fixed| - Growth(d.size, off));
    RoomLeft(pinned, log.bc.a.pinned, base, fixed, Growth(d.size, off), slack, EntryCost(d.size, off));
  }

  lemma {:induction false} WritingRoom(log: Log, lay: Layout, ii: seq<Dinode>, owner: seq<Owner>, i: nat,
                                       fixed: set<nat>, extra: nat)
    requires Writing(log, lay, ii, owner, i, fixed, extra)
    ensures Room(log.bc.a.pinned, fixed, extra)
  {
  }

  lemma {:induction false} WroteDir(v: Disk, ii: seq<Dinode>, v': Disk, ii': seq<Dinode>, i: nat, off: nat,
                                    e: seq<byte>)
    requires Wrote(v, ii, v', ii', i, off, e) && ii[i].typ == T_DIR && DirOk(Splice(Contents(v, ii[i]), off, e))
    ensures IsDir(v', ii'[i]) && ii'[i].nlink == ii[i].nlink &&
      Contents(v', ii'[i]) == Splice(Contents(v, ii[i]), off, e) && SameFiles(v, ii, v', ii', i)
  {
    hide Contents, Mapped, DirOk, Splice, SameFiles;
  }

  /** Where `dir_link` puts a new entry. */
  ghost function NewOffset(v: Disk, d: Dinode): nat
    requires Mapped(v, d)
  {
    DESIZE * FirstDead(Contents(v, d), 0)
  }

  /**
   * `dir_link`: a new name is added to the directory's map, in the first dead entry or at the end; a name already there
   * is refused.
   */
  method DirLink(log: Log, i: nat, d: Dinode, name: Name, inum: nat, ghost lay: Layout, ghost ii: seq<Dinode>,
                 ghost owner: seq<Owner>, ghost base: set<nat>, ghost slack: nat)
    returns (r: int, d': Dinode, ghost ii': seq<Dinode>, ghost owner': seq<Owner>)
    requires Readable(log, lay, ii, owner, i) && ii[i] == d && IsString(name) && 0 < inum < U16 && log.busy &&
      Table(log.View(), ii, lay)
    requires Cut(name) !in Names(Contents(log.View(), d)) ==>
      CanPut(log.View(), log.bc.a.pinned, lay, ii, i, NewOffset(log.View(), d), base, slack)
    modifies log`lh, log`slot, log.bc
    ensures Ready(log, lay) && log.bc.a.held == {} && FsOk(log.View(), ii', owner', lay) &&
      Table(log.View(), ii', lay) && |ii'| == |ii| && d' == ii'[i]
    ensures Mapped(old(log.View()), d) && Whole(Contents(old(log.View()), d)) && IsDir(log.View(), d') &&
      d'.nlink == d.nlink
    ensures var was := Names(Contents(old(log.View()), d));
      if Cut(name) in was then r == -1 && log.View() == old(log.View()) && d' == d && ii' == ii && owner' == owner &&
        log.bc.a.pinned == old(log.bc.a.pinned)
      else
        && r == 0 && Names(Contents(log.View(), d')) == was[Cut(name) := inum]
        && SameFiles(old(log.View()), ii, log.View(), ii', i)
        && Contents(log.View(), d') ==
           Splice(Contents(old(log.View()), d), NewOffset(old(log.View()), d), NewEntry(name, inum))
        && EntryCost(d.size, NewOffset(old(log.View()), d)) <= slack
        && Room(log.bc.a.pinned, base, slack - EntryCost(d.size, NewOffset(old(log.View()), d)))
        && |FreeBlocks(log.View(), lay)| ==
           |FreeBlocks(old(log.View()), lay)| - Growth(d.size, NewOffset(old(log.View()), d))
  {
    ghost var v, c := log.View(), Contents(log.View(), d);
    DirSize(v, d);
    assert IsDir(v, d) && DirOk(c) && Whole(c);
    ghost var k := FirstDead(c, 0);
    hide Log.Valid, Log.View, FsOk, Contents, Mapped, Ready, DirOk, Names, Wrote, Table, SameFiles, FirstDead,
      FirstNamed, CanPut, Cut, NewEntry, Room, FreeBlocks;
    hide Growth, EntryCost;
    var found, at := DirLookup(log, d, name, lay, ii, owner, i);
    d', ii', owner' := d, ii, owner;
    if found != 0 { return -1, d', ii', owner'; }
    var off := FindDead(log, d, lay, ii, owner, i);
    d', ii', owner' := PutEntry(log, i, d, NewEntry(name, inum), off, lay, ii, owner, base, slack);
    LinkMap(c, k, name, inum);
    WroteDir(v, ii, log.View(), ii', i, off, NewEntry(name, inum));
    r := 0;
  }

  /** The entry cleared by `sys_unlink`: its name leaves the directory's map. */
  method DirClear(log: Log, i: nat, d: Dinode, ghost name: Name, off: nat, ghost lay: Layout, ghost ii: seq<Dinode>,
                  ghost owner: seq<Owner>, ghost base: set<nat>, ghost slack: nat)
    returns (d': Dinode, ghost ii': seq<Dinode>, ghost owner': seq<Owner>)
    requires Readable(log, lay, ii, owner, i) && ii[i] == d && log.busy &&
      CanPut(log.View(), log.bc.a.pinned, lay, ii, i, off, base, slack)
    requires var c := Contents(log.View(), d); Whole(c) && name in Names(c) && off == DESIZE * FirstNamed(c, name, 0)
    modifies log`lh, log`slot, log.bc
    ensures Ready(log, lay) && log.bc.a.held == {} && FsOk(log.View(), ii', owner', lay) &&
      Table(log.View(), ii', lay) && |ii'| == |ii| && d' == ii'[i]
    ensures Mapped(old(log.View()), d) && Whole(Contents(old(log.View()), d)) && IsDir(log.View(), d') &&
      d'.nlink == d.nlink && SameFiles(old(log.View()), ii, log.View(), ii', i)
    ensures Names(Contents(log.View(), d')) == Names(Contents(old(log.View()), d)) - {name}
    ensures off <= |Contents(old(log.View()), d)| &&
      Contents(log.View(), d') == Splice(Contents(old(log.View()), d), off, NoEntry())
    ensures EntryCost(d.size, off) <= slack && Room(log.bc.a.pinned, base, slack - EntryCost(d.size, off))
    ensures ii' == ii && owner' == owner
  {
    ghost var v, c := log.View(), Contents(log.View(), d);
    DirSize(v, d);
    SearchIsLookup(c, name);
    UnlinkMap(c, FirstNamed(c, name, 0), name);
    assert IsDir(v, d);
    hide Log.Valid, Log.View, FsOk, Contents, Mapped, Ready, DirOk, Names, Wrote, Table, SameFiles, FirstNamed, Room,
      FreeBlocks, Growth, EntryCost, CanPut;
    d', ii', owner' := PutEntry(log, i, d, NoEntry(), off, lay, ii, owner, base, slack);
    WroteDir(v, ii, log.View(), ii', i, off, NoEntry());
  }

  /** `isdirempty`, for a directory that begins with its two dots: no other name is left. */
  method IsDirEmpty(log: Log, d: Dinode, ghost lay: Layout, ghost ii: seq<Dinode>, ghost owner: seq<Owner>,
                    ghost i: nat) returns (empty: bool)
    requires Readable(log, lay, ii, owner, i) && ii[i] == d
    requires var c := Contents(log.View(), d); 2 <= EntryCount(c) && LiveAt(c, 0) && LiveAt(c, 1)
    modifies log`lh, log`slot, log.bc
    ensures Readable(log, lay, ii, owner, i) && log.View() == old(log.View()) && log.bc.a.Same(old(log.bc.a)) &&
      log.lh == old(log.lh) && log.slot == old(log.slot)
    ensures var c := Contents(log.View(), d);
      Whole(c) && 2 <= EntryCount(c) && (empty <==> OnlyFirstTwo(c))
  {
    DirSize(log.View(), d);
    ghost var c := Contents(log.View(), d);
    assert DirOk(c);
    EmptyMeansTwoNames(c);
    hide Log.Valid, Log.View, FsOk, Contents, Mapped, Ready, DirOk, Readable, Names, OnlyFirstTwo;
    var k := 2;
    while DESIZE * k < d.size
      invariant 2 <= k <= EntryCount(c) && FirstLive(c, 2) == FirstLive(c, k)
      invariant Readable(log, lay, ii, owner, i) && log.View() == old(log.View())
      invariant log.bc.a.Same(old(log.bc.a)) && log.lh == old(log.lh) && log.slot == old(log.slot)
      decreases d.size - DESIZE * k
    {
      var de := ReadEntry(log, d, k, lay, ii, owner, i);
      if Inum(de) != 0 { return false; }
      k := k + 1;
    }
    return true;
  }
}
