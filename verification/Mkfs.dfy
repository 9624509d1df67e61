/** The file system `mkfs` lays out: a root directory with its dots, from which everything starts. */
module Mkfs {
  import opened Sectors
  import opened FsSpec
  import opened FsInv
  import opened FsSteps
  import opened Inodes
  import opened Files
  import opened DirSpec
  import opened LinkSpec
  import opened Links
  import opened TreeOf
  import opened TreeSteps
  import opened Namespace

  /** The root's directory block: its two dots, and unused entries. */
  function RootBlock(): Sector {
    Sector(NewEntry(DOT, ROOT) + NewEntry(DOTDOT, ROOT) + seq(BSIZE - 2 * DESIZE, _ => 0))
  }

  /** The root's size as `mkfs` rounds it, from `off` bytes of entries. */
  function Rounded(off: nat): nat {
    (off / BSIZE + 1) * BSIZE
  }

  /** The rounding leaves the root with the blocks its size calls for exactly when its entries did not fill a block. */
  lemma {:induction false} RoundingExact(v: Disk, d: Dinode)
    requires Mapped(v, d) && Rounded(d.size) <= MAXFILE * BSIZE
    ensures Mapped(v, d.(size := Rounded(d.size))) <==> d.size % BSIZE != 0
  {
    hide Addr;
    var q, d' := d.size / BSIZE, d.(size := Rounded(d.size));
    assert forall k: nat | k < NSLOTS :: Addr(v, d', k) == Addr(v, d, k) by { SameAddrs(v, d, d'); }
    assert d.size == BSIZE * q + d.size % BSIZE && d'.size == BSIZE * q + BSIZE;
    if d.size % BSIZE == 0 {
      assert MappedSlot(v, d, SlotOf(q)) && !MappedSlot(v, d', SlotOf(q));
    } else {
      forall k: nat | k < NSLOTS
        ensures MappedSlot(v, d', k)
      {
        assert MappedSlot(v, d, k);
        BelowBoth(k, d.size, q);
      }
    }
  }

  lemma {:induction false} SameAddrs(v: Disk, d: Dinode, d': Dinode)
    requires d.Ok() && d'.Ok() && d'.addrs == d.addrs
    ensures forall k: nat | k < NSLOTS :: Addr(v, d', k) == Addr(v, d, k)
  {
  }

  lemma {:induction false} BelowBoth(k: nat, size: nat, q: nat)
    requires BSIZE * q < size < BSIZE * q + BSIZE
    ensures Extent(k) < size <==> Extent(k) < BSIZE * q + BSIZE
  {
    var e := if k <= NDIRECT then k else k - 1;
    assert Extent(k) == BSIZE * e;
  }

  function RootInode(lay: Layout): Dinode {
    Dinode(T_DIR, 0, 0, 1, Rounded(2 * DESIZE), [lay.DataStart()] + seq(NDIRECT, _ => 0))
  }

  function RootTable(lay: Layout): (ii: seq<Dinode>)
    requires ROOT < lay.ninodes
    ensures |ii| == lay.ninodes && forall i | 0 <= i < |ii| :: ii[i] == if i == ROOT then RootInode(lay) else Unused()
  {
    seq(lay.ninodes, i => if i == ROOT then RootInode(lay) else Unused())
  }

  /** What `mkfs` writes, when it is given no files. */
  ghost predicate RootImage(v: Disk, lay: Layout) {
    && lay.Ok() && lay.DataStart() < lay.Start() == |v| && SuperOk(v[1], lay)
    && Table(v, RootTable(lay), lay) && v[lay.DataStart()] == RootBlock()
    && forall b: nat | b < lay.Start() :: BlockBit(v, lay, b) <==> b <= lay.DataStart()
  }

  ghost function RootOwner(lay: Layout): seq<Owner>
    requires lay.Ok() && lay.DataStart() < lay.Start()
  {
    seq(lay.Start(), _ => Nobody)[lay.DataStart() := Slot(ROOT, 0)]
  }

  lemma {:induction false} RootAddrs(v: Disk, lay: Layout, i: nat, k: nat)
    requires lay.Ok() && lay.DataStart() < lay.Start() == |v| && i < lay.ninodes && k < NSLOTS
    ensures RootTable(lay)[i].Ok() && Addr(v, RootTable(lay)[i], k) == if i == ROOT && k == 0 then lay.DataStart()
      else 0
  {
  }

  lemma {:induction false} RootMapped(v: Disk, lay: Layout, i: nat)
    requires RootImage(v, lay) && i < lay.ninodes
    ensures Mapped(v, RootTable(lay)[i])
  {
    hide Addr, Table, BlockBit, SuperOk;
    RootAddrs(v, lay, i, 0);
    forall k: nat | k < NSLOTS
      ensures MappedSlot(v, RootTable(lay)[i], k)
    {
      RootAddrs(v, lay, i, k);
    }
  }

  lemma {:induction false} RootOwned(v: Disk, lay: Layout)
    requires RootImage(v, lay)
    ensures FsOwn(v, RootTable(lay), RootOwner(lay), lay)
  {
    hide Addr, Table, BlockBit, SuperOk;
    var ii, owner := RootTable(lay), RootOwner(lay);
    forall i | 0 <= i < |ii|
      ensures ii[i].Ok()
    {
      RootAddrs(v, lay, i, 0);
    }
    forall i: nat, k: nat | i < |ii| && k < NSLOTS
      ensures OwnsSlot(v, ii, owner, i, k)
    {
      RootAddrs(v, lay, i, k);
    }
    RootAddrs(v, lay, ROOT, 0);
    forall b: nat | b < |owner|
      ensures OwnedOk(v, ii, owner, lay, b)
    {
      assert BlockBit(v, lay, b) <==> b <= lay.DataStart();
    }
  }

  // The directory

  lemma {:induction false} NoneLive(n: nat)
    requires DESIZE * n <= BSIZE
    ensures DirMap(EmptyBlock(), n) == map[]
  {
    if n > 0 { NoneLive(n - 1); }
  }

  function EmptyBlock(): seq<byte> {
    seq(BSIZE, _ => 0)
  }

  lemma {:induction false} EmptyNames()
    ensures var c := EmptyBlock();
      DirOk(c) && Names(c) == map[] && EntryCount(c) == 32 && !LiveAt(c, 0) && !LiveAt(c, 1)
  {
    NoneLive(EntryCount(EmptyBlock()));
  }

  lemma {:induction false} RootBytes()
    ensures RootBlock().bytes == Splice(Splice(EmptyBlock(), 0, NewEntry(DOT, ROOT)), DESIZE, NewEntry(DOTDOT, ROOT))
  {
    hide NewEntry;
  }

  lemma {:induction false} RootNames()
    ensures var c := RootBlock().bytes; DirOk(c) && Names(c) == DotsOf(ROOT, ROOT) && Dotted(c)
  {
    hide DirOk, Names, NewEntry, Splice, EmptyBlock, RootBlock, EntryName, Inum;
    assert DOT != DOTDOT by { assert |DOT| != |DOTDOT|; }
    EmptyNames();
    RootBytes();
    NewEntryIs(DOT, ROOT);
    NewEntryIs(DOTDOT, ROOT);
    var c, e, f := EmptyBlock(), NewEntry(DOT, ROOT), NewEntry(DOTDOT, ROOT);
    var c1 := Splice(c, 0, e);
    LinkMap(c, 0, DOT, ROOT);
    SpliceEntry(c, 0, e, 0);
    SpliceEntry(c, 0, e, 1);
    LinkMap(c1, 1, DOTDOT, ROOT);
    SpliceEntry(c1, 1, f, 0);
    SpliceEntry(c1, 1, f, 1);
  }

  lemma {:induction false} RootContents(v: Disk, lay: Layout)
    requires RootImage(v, lay) && Mapped(v, RootInode(lay))
    ensures Contents(v, RootInode(lay)) == RootBlock().bytes
  {
    hide Table, BlockBit, SuperOk, Mapped, RootBlock;
    assert Addr(v, RootInode(lay), 0) == lay.DataStart();
  }

  /** The file system `mkfs` makes is sound, and its tree is in order: a root that is its own parent. */
  lemma {:induction false} RootInOrder(v: Disk, lay: Layout)
    requires RootImage(v, lay)
    ensures Sound(v, RootTable(lay), RootOwner(lay), lay) &&
      TreeOk(v, RootTable(lay), seq(lay.ninodes, _ => Home(ROOT, [], 0)))
  {
    var ii := RootTable(lay);
    RootOwned(v, lay);
    forall i | 0 <= i < |ii|
      ensures Mapped(v, ii[i])
    {
      RootMapped(v, lay, i);
    }
    RootContents(v, lay);
    RootNames();
    RootOnly(lay.ninodes);
    hide Mapped, Contents, DirOk, Names, Table, FsOwn, Shaped, LinksOk, Dotted, RootBlock, RootImage;
    forall i | 0 <= i < |ii|
      ensures Fit(v, ii[i]) && NodeOf(v, ii[i]) == if i == ROOT then Node(T_DIR, 1, DotsOf(ROOT, ROOT))
        else Node(0, 0, map[])
    {
    }
    assert NodesOf(v, ii) == seq(lay.ninodes, _ => Node(0, 0, map[]))[ROOT := Node(T_DIR, 1, DotsOf(ROOT, ROOT))];
  }

  // Making it

  lemma {:induction false} ZeroDinode(k: nat)
    requires k < IPB
    ensures DinodeAt(Zero(), k) == Unused()
  {
    forall j | 0 <= j <= NDIRECT
      ensures Addrs(Zero(), k)[j] == 0
    {
      ZeroWord(16*k + 3 + j);
    }
    ZeroWord(16*k + 2);
    assert Addrs(Zero(), k) == seq(NDIRECT + 1, _ => 0);
  }

  lemma {:induction false} ZeroBit(x: nat, k: nat)
    requires x == 0
    ensures !ByteBit(x, k)
  {
    if k > 0 { ZeroBit(0, k - 1); }
  }

  /** `balloc`: a bitmap sector with the first `used` bits set. */
  method Balloc(used: nat) returns (s: Sector)
    requires used <= BPB
    ensures forall j: nat | j < BPB :: Bit(s, j) <==> j < used
  {
    hide Bit, PutBit;
    s := Zero();
    forall j: nat | j < BPB
      ensures !Bit(s, j)
    {
      assert Bit(s, j) == ByteBit(0, j % 8) by { ZeroBitAt(j); }
      ZeroBit(0, j % 8);
    }
    var i := 0;
    while i < used
      invariant i <= used && forall j: nat | j < BPB :: Bit(s, j) <==> j < i
    {
      forall j: nat | j < BPB
        ensures Bit(PutBit(s, i, true), j) <==> j < i + 1
      {
        BitOfPutBit(s, i, true, j);
      }
      s := PutBit(s, i, true);
      i := i + 1;
    }
  }

  lemma {:induction false} ZeroBitAt(j: nat)
    requires j < BPB
    ensures Bit(Zero(), j) == ByteBit(0, j % 8)
  {
  }

  function SuperBlock(size: nat, nblocks: nat, ninodes: nat, nlog: nat): Sector
    requires size < U32 && nblocks < U32 && ninodes < U32 && nlog < U32
  {
    SetWord(SetWord(SetWord(SetWord(Zero(), 0, size), 1, nblocks), 2, ninodes), 3, nlog)
  }

  lemma {:induction false} SuperHolds(lay: Layout, nblocks: nat)
    requires lay.Ok() && lay.size < BPB && nblocks < U32
    ensures lay.ninodes < U32 && lay.nlog < U32 && SuperOk(SuperBlock(lay.size, nblocks, lay.ninodes, lay.nlog), lay)
  {
    hide Word, SetWord;
    var s0 := SetWord(Zero(), 0, lay.size);
    var s1 := SetWord(s0, 1, nblocks);
    var s2 := SetWord(s1, 2, lay.ninodes);
    WordOfSetWord(Zero(), 0, lay.size, 0);
    WordOfSetWord(s0, 1, nblocks, 0);
    WordOfSetWord(s1, 2, lay.ninodes, 0);
    WordOfSetWord(s1, 2, lay.ninodes, 2);
    WordOfSetWord(s2, 3, lay.nlog, 0);
    WordOfSetWord(s2, 3, lay.nlog, 2);
    WordOfSetWord(s2, 3, lay.nlog, 3);
  }

  lemma {:induction false} RootTableOf(v: Disk, lay: Layout)
    requires lay.Ok() && lay.DataStart() < lay.Start() == |v| && RootInode(lay).Ok()
    requires forall s | 2 <= s < lay.BBlock(0) ::
      v[s] == if s == lay.IBlock(ROOT) then PutDinode(Zero(), ROOT % IPB, RootInode(lay)) else Zero()
    ensures Table(v, RootTable(lay), lay)
  {
    hide DinodeAt, PutDinode, RootInode, Zero;
    var ii := RootTable(lay);
    forall i: nat | i < |ii|
      ensures TableAt(v, ii, lay, i)
    {
      ZeroDinode(i % IPB);
      DinodeOfPut(Zero(), ROOT % IPB, RootInode(lay), i % IPB);
      assert 2 <= lay.IBlock(i) < lay.BBlock(0);
    }
  }

  /** `mkfs` without files. */
  method Make(lay: Layout) returns (v: Disk)
    requires lay.Ok() && lay.size < BPB && lay.DataStart() < lay.Start()
    ensures RootImage(v, lay)
  {
    hide PutDinode, Bit, Zero, Table, SuperBlock, RootBlock, SuperOk;
    var nblocks := lay.size - lay.DataStart() - lay.nlog;
    SuperHolds(lay, nblocks);
    RootInodeOk(lay);
    var bitmap := Balloc(lay.DataStart() + 1);
    v := seq(lay.Start(), _ => Zero());
    v := v[1 := SuperBlock(lay.size, nblocks, lay.ninodes, lay.nlog)];
    v := v[lay.IBlock(ROOT) := PutDinode(v[lay.IBlock(ROOT)], ROOT % IPB, RootInode(lay))];
    v := v[lay.DataStart() := RootBlock()];
    v := v[lay.BBlock(0) := bitmap];
    RootTableOf(v, lay);
  }

  lemma {:induction false} RootInodeOk(lay: Layout)
    requires lay.Ok()
    ensures RootInode(lay).Ok()
  {
  }
}
