/**
 * The file-system invariant: every block belongs to at most one slot of one
 * inode, exactly the metadata and the owned blocks are marked in the bitmap,
 * and an inode has exactly the blocks its size calls for (no holes, no slack).
 */
module FsInv {
  import opened Sectors
  import opened FsSpec

  datatype Owner = Nobody | Slot(inum: nat, k: nat)

  /** The slot of the `bn`-th block of a file. */
  function SlotOf(bn: nat): nat {
    if bn < NDIRECT then bn else bn + 1
  }

  /** A slot is in use when the file is longer than this. */
  function Extent(k: nat): nat {
    if k <= NDIRECT then BSIZE * k else BSIZE * (k - 1)
  }

  /** The block in slot `k` of an inode; 0 for none. */
  ghost function Addr(v: Disk, d: Dinode, k: nat): nat
    requires d.Ok() && k < NSLOTS
  {
    if k <= NDIRECT then d.addrs[k]
    else if 0 < d.addrs[NDIRECT] < |v| then Word(v[d.addrs[NDIRECT]], k - NDIRECT - 1)
    else 0
  }

  ghost predicate BlockBit(v: Disk, lay: Layout, b: nat)
    requires lay.Ok() && |v| == lay.Start() && b < lay.size
  {
    Bit(v[lay.BBlock(b)], b % BPB)
  }

  ghost predicate SuperOk(s: Sector, lay: Layout) {
    Word(s, 0) == lay.size && Word(s, 2) == lay.ninodes && Word(s, 3) == lay.nlog
  }

  ghost predicate Shape(v: Disk, ii: seq<Dinode>, owner: seq<Owner>, lay: Layout) {
    && lay.Ok() && |v| == |owner| == lay.Start() && |ii| == lay.ninodes
    && (forall i | 0 <= i < |ii| :: ii[i].Ok()) && SuperOk(v[1], lay)
  }

  /** The block in slot `k` of inode `i`, if any, is recorded as belonging there. */
  ghost predicate OwnsSlot(v: Disk, ii: seq<Dinode>, owner: seq<Owner>, i: nat, k: nat)
    requires i < |ii| && ii[i].Ok() && k < NSLOTS
  {
    var a := Addr(v, ii[i], k); a == 0 || (a < |owner| && owner[a] == Slot(i, k))
  }

  /** A block recorded as owned is marked in the bitmap and is in that slot; any other is metadata or free. */
  ghost predicate OwnedOk(v: Disk, ii: seq<Dinode>, owner: seq<Owner>, lay: Layout, b: nat)
    requires Shape(v, ii, owner, lay) && b < |owner|
  {
    match owner[b]
    case Nobody => BlockBit(v, lay, b) == (b < lay.DataStart())
    case Slot(i, k) =>
      lay.DataStart() <= b && BlockBit(v, lay, b) && i < |ii| && k < NSLOTS && Addr(v, ii[i], k) == b
  }

  ghost predicate FsOwn(v: Disk, ii: seq<Dinode>, owner: seq<Owner>, lay: Layout) {
    && Shape(v, ii, owner, lay)
    && (forall i: nat, k: nat | i < |ii| && k < NSLOTS :: OwnsSlot(v, ii, owner, i, k))
    && (forall b: nat | b < |owner| :: OwnedOk(v, ii, owner, lay, b))
  }

  ghost predicate MappedSlot(v: Disk, d: Dinode, k: nat)
    requires d.Ok() && k < NSLOTS
  {
    Addr(v, d, k) < |v| && (Addr(v, d, k) != 0 <==> Extent(k) < d.size)
  }

  /** The inode has exactly the blocks its size calls for. */
  ghost predicate Mapped(v: Disk, d: Dinode) {
    d.Ok() && d.size <= MAXFILE * BSIZE && forall k: nat | k < NSLOTS :: MappedSlot(v, d, k)
  }

  ghost predicate FsOk(v: Disk, ii: seq<Dinode>, owner: seq<Owner>, lay: Layout) {
    FsOwn(v, ii, owner, lay) && forall i | 0 <= i < |ii| :: Mapped(v, ii[i])
  }

  ghost function ByteAt(v: Disk, d: Dinode, o: nat): byte
    requires Mapped(v, d) && o < d.size
  {
    assert MappedSlot(v, d, SlotOf(o / BSIZE));
    v[Addr(v, d, SlotOf(o / BSIZE))].bytes[o % BSIZE]
  }

  /** The bytes of a file. */
  ghost function Contents(v: Disk, d: Dinode): (r: seq<byte>)
    requires Mapped(v, d)
    ensures |r| == d.size && forall o | 0 <= o < |r| :: r[o] == ByteAt(v, d, o)
  {
    seq<byte>(d.size, o requires 0 <= o < d.size && Mapped(v, d) => ByteAt(v, d, o))
  }

  /** No sector belonging to inode `i` differs. */
  ghost predicate Untouched(v: Disk, v': Disk, owner: seq<Owner>, i: nat) {
    |v| == |v'| == |owner| && forall s | 0 <= s < |v| && owner[s].Slot? && owner[s].inum == i :: v'[s] == v[s]
  }

  lemma {:induction false} AddrOwned(v: Disk, ii: seq<Dinode>, owner: seq<Owner>, lay: Layout, i: nat, k: nat)
    requires FsOwn(v, ii, owner, lay) && i < |ii| && k < NSLOTS
    ensures var a := Addr(v, ii[i], k);
      a < |v| && (a != 0 ==> lay.DataStart() <= a && owner[a] == Slot(i, k) && BlockBit(v, lay, a))
  {
    assert OwnsSlot(v, ii, owner, i, k);
    var a := Addr(v, ii[i], k);
    if a != 0 { assert OwnedOk(v, ii, owner, lay, a); }
  }

  /** An inode none of whose sectors changed keeps its slots, its shape and its contents. */
  lemma {:induction false} FrameAddr(v: Disk, v': Disk, ii: seq<Dinode>, owner: seq<Owner>, lay: Layout, i: nat, k: nat)
    requires FsOwn(v, ii, owner, lay) && i < |ii| && k < NSLOTS && Untouched(v, v', owner, i)
    ensures Addr(v', ii[i], k) == Addr(v, ii[i], k)
  {
    AddrOwned(v, ii, owner, lay, i, NDIRECT);
  }

  lemma {:induction false} FrameInode(v: Disk, v': Disk, ii: seq<Dinode>, owner: seq<Owner>, lay: Layout, i: nat)
    requires FsOwn(v, ii, owner, lay) && i < |ii| && Mapped(v, ii[i]) && Untouched(v, v', owner, i)
    ensures Mapped(v', ii[i]) && Contents(v', ii[i]) == Contents(v, ii[i])
  {
    hide FsOwn, Word;
    var d := ii[i];
    forall k: nat | k < NSLOTS
      ensures Addr(v', d, k) == Addr(v, d, k) && MappedSlot(v', d, k)
    {
      assert MappedSlot(v, d, k);
      FrameAddr(v, v', ii, owner, lay, i, k);
    }
    forall o: nat | o < d.size
      ensures ByteAt(v', d, o) == ByteAt(v, d, o)
    {
      var k := SlotOf(o / BSIZE);
      assert MappedSlot(v, d, k);
      AddrOwned(v, ii, owner, lay, i, k);
    }
  }
}
