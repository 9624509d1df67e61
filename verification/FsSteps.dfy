/**
 * What the writes of the block and inode layers do to the invariant: marking
 * and zeroing a block, hooking it into a slot, storing data, rewriting an inode.
 */
module FsSteps {
  import opened Sectors
  import opened FsSpec
  import opened FsInv

  ghost predicate DiskOk(v: Disk, lay: Layout) {
    lay.Ok() && |v| == lay.Start() && SuperOk(v[1], lay)
  }

  /** The bitmap with the bit of block `b` set or cleared. */
  ghost function Mark(v: Disk, lay: Layout, b: nat, x: bool): Disk
    requires lay.Ok() && |v| == lay.Start() && b < lay.size
  {
    v[lay.BBlock(b) := PutBit(v[lay.BBlock(b)], b % BPB, x)]
  }

  lemma {:induction false} MarkBit(v: Disk, lay: Layout, b: nat, x: bool, c: nat)
    requires lay.Ok() && |v| == lay.Start() && b < lay.size && c < lay.size
    ensures BlockBit(Mark(v, lay, b, x), lay, c) == if c == b then x else BlockBit(v, lay, c)
  {
    hide Bit, PutBit;
    BitOfPutBit(v[lay.BBlock(b)], b % BPB, x, c % BPB);
  }

  /** `block_alloc`: mark the block, then zero it. */
  ghost function Alloc(v: Disk, lay: Layout, b: nat): Disk
    requires lay.Ok() && |v| == lay.Start() && b < |v|
  {
    Mark(v, lay, b, true)[b := Zero()]
  }

  lemma {:induction false} AllocBit(v: Disk, lay: Layout, b: nat, c: nat)
    requires lay.Ok() && |v| == lay.Start() && lay.DataStart() <= b < |v| && c < lay.size
    ensures BlockBit(Alloc(v, lay, b), lay, c) == (c == b || BlockBit(v, lay, c))
  {
    hide Bit, PutBit;
    MarkBit(v, lay, b, true, c);
  }

  lemma {:induction false} ZeroWord(j: nat)
    requires j < 128
    ensures Word(Zero(), j) == 0
  {
  }

  /** A free block hooked into an empty slot: the write that may follow allocation is the indirect entry. */
  ghost predicate Hooks(v: Disk, v': Disk, d: Dinode, d': Dinode, lay: Layout, b: nat, k: nat)
  {
    && lay.Ok() && |v| == |v'| == lay.Start() && d.Ok() && d'.Ok() && k < NSLOTS && lay.DataStart() <= b < |v|
    && (if k <= NDIRECT then v' == Alloc(v, lay, b) && d'.addrs == d.addrs[k := b]
        else
          && 0 < d.addrs[NDIRECT] < |v| && d'.addrs == d.addrs
          && v' == Alloc(v, lay, b)[d.addrs[NDIRECT] := SetWord(v[d.addrs[NDIRECT]], k - NDIRECT - 1, b)])
  }

  /** Hooking fills slot `k` of the inode and no other slot of it. */
  lemma {:induction false} HookAddr(v: Disk, v': Disk, ii: seq<Dinode>, owner: seq<Owner>, lay: Layout, i: nat,
                                    d': Dinode, b: nat, k: nat, j: nat)
    requires FsOwn(v, ii, owner, lay) && i < |ii| && Hooks(v, v', ii[i], d', lay, b, k) && owner[b] == Nobody &&
      j < NSLOTS
    requires Addr(v, ii[i], k) == 0
    ensures Addr(v', d', j) == if j == k then b else Addr(v, ii[i], j)
  {
    hide FsOwn, Bit, PutBit, Word, SetWord;
    AddrOwned(v, ii, owner, lay, i, NDIRECT);
    var a := ii[i].addrs[NDIRECT];
    if k > NDIRECT && j > NDIRECT {
      WordOfSetWord(v[a], k - NDIRECT - 1, b, j - NDIRECT - 1);
    } else if j > NDIRECT {
      ZeroWord(j - NDIRECT - 1);
    }
  }

  lemma {:induction false} HookUntouched(v: Disk, v': Disk, ii: seq<Dinode>, owner: seq<Owner>, lay: Layout, i: nat,
                                         d': Dinode, b: nat, k: nat, i': nat)
    requires FsOwn(v, ii, owner, lay) && i < |ii| && Hooks(v, v', ii[i], d', lay, b, k) && owner[b] == Nobody && i' != i
    ensures Untouched(v, v', owner, i')
  {
    hide OwnsSlot, OwnedOk, Bit, PutBit, Word, SetWord;
    AddrOwned(v, ii, owner, lay, i, NDIRECT);
    var m := lay.BBlock(b);
    MetadataUnowned(v, ii, owner, lay, m);
  }

  lemma {:induction false} MetadataUnowned(v: Disk, ii: seq<Dinode>, owner: seq<Owner>, lay: Layout, s: nat)
    requires FsOwn(v, ii, owner, lay) && s < lay.DataStart()
    ensures owner[s] == Nobody
  {
    assert OwnedOk(v, ii, owner, lay, s);
  }

  /** Hooking a free block into an empty slot keeps ownership exact. */
  lemma {:induction false} HookOwn(v: Disk, v': Disk, ii: seq<Dinode>, owner: seq<Owner>, lay: Layout, i: nat,
                                   d': Dinode, b: nat, k: nat)
    requires FsOwn(v, ii, owner, lay) && i < |ii| && Hooks(v, v', ii[i], d', lay, b, k) && owner[b] == Nobody
    requires Addr(v, ii[i], k) == 0
    ensures b < |owner| && FsOwn(v', ii[i := d'], owner[b := Slot(i, k)], lay)
  {
    hide Bit, PutBit, Word, SetWord, Addr, Hooks, BlockBit;
    HookShape(v, v', ii, owner, lay, i, d', b, k);
    var ii', owner' := ii[i := d'], owner[b := Slot(i, k)];
    forall j: nat, l: nat | j < |ii| && l < NSLOTS
      ensures Addr(v', ii'[j], l) == (if j == i && l == k then b else Addr(v, ii[j], l)) &&
        OwnsSlot(v', ii', owner', j, l)
    {
      assert OwnsSlot(v, ii, owner, j, l);
      if j == i {
        HookAddr(v, v', ii, owner, lay, i, d', b, k, l);
      } else {
        HookUntouched(v, v', ii, owner, lay, i, d', b, k, j);
        FrameAddr(v, v', ii, owner, lay, j, l);
      }
    }
    forall c: nat | c < |owner|
      ensures OwnedOk(v', ii', owner', lay, c)
    {
      assert OwnedOk(v, ii, owner, lay, c);
      HookBit(v, v', ii, owner, lay, i, d', b, k, c);
    }
  }

  lemma {:induction false} HookShape(v: Disk, v': Disk, ii: seq<Dinode>, owner: seq<Owner>, lay: Layout, i: nat,
                                     d': Dinode, b: nat, k: nat)
    requires FsOwn(v, ii, owner, lay) && i < |ii| && Hooks(v, v', ii[i], d', lay, b, k)
    ensures d'.Ok() && |v'| == |v| == |owner| && lay.DataStart() <= b < |owner| && k < NSLOTS &&
      Shape(v', ii[i := d'], owner[b := Slot(i, k)], lay)
  {
    hide Bit, PutBit, Word, SetWord, BlockBit, OwnsSlot, OwnedOk;
    AddrOwned(v, ii, owner, lay, i, NDIRECT);
  }

  lemma {:induction false} HookBit(v: Disk, v': Disk, ii: seq<Dinode>, owner: seq<Owner>, lay: Layout, i: nat,
                                   d': Dinode, b: nat, k: nat, c: nat)
    requires FsOwn(v, ii, owner, lay) && i < |ii| && Hooks(v, v', ii[i], d', lay, b, k) && c < |owner|
    ensures BlockBit(v', lay, c) == (c == b || BlockBit(v, lay, c))
  {
    hide Bit, PutBit, Word, SetWord, OwnsSlot, OwnedOk;
    AllocBit(v, lay, b, c);
    AddrOwned(v, ii, owner, lay, i, NDIRECT);
  }

  /** Files other than `i` are the same in both states. */
  ghost predicate SameFiles(v: Disk, ii: seq<Dinode>, v': Disk, ii': seq<Dinode>, i: nat) {
    |ii| == |ii'| && forall j: nat | j < |ii| && j != i :: SameFile(v, ii[j], v', ii'[j])
  }

  ghost predicate SameFile(v: Disk, d: Dinode, v': Disk, d': Dinode) {
    d' == d && (Mapped(v, d) ==> Mapped(v', d) && Contents(v', d) == Contents(v, d))
  }

  lemma {:induction false} SameFilesTrans(v: Disk, ii: seq<Dinode>, v1: Disk, ii1: seq<Dinode>, v2: Disk,
                                          ii2: seq<Dinode>, i: nat)
    requires SameFiles(v, ii, v1, ii1, i) && SameFiles(v1, ii1, v2, ii2, i)
    ensures SameFiles(v, ii, v2, ii2, i)
  {
    hide Mapped, Contents;
    forall j: nat | j < |ii| && j != i
      ensures SameFile(v, ii[j], v2, ii2[j])
    {
      assert SameFile(v, ii[j], v1, ii1[j]) && SameFile(v1, ii1[j], v2, ii2[j]);
    }
  }

  /** The inode table is the same in both states. */
  ghost predicate SameTable(v: Disk, v': Disk, lay: Layout) {
    |v| == |v'| && forall s | 2 <= s < lay.BBlock(0) && s < |v| :: v'[s] == v[s]
  }

  /** Hooking leaves the other files and the inode table alone. */
  lemma {:induction false} HookOthers(v: Disk, v': Disk, ii: seq<Dinode>, owner: seq<Owner>, lay: Layout, i: nat,
                                      d': Dinode, b: nat, k: nat)
    requires FsOwn(v, ii, owner, lay) && i < |ii| && Hooks(v, v', ii[i], d', lay, b, k) && owner[b] == Nobody
    ensures SameFiles(v, ii, v', ii[i := d'], i) && SameTable(v, v', lay)
  {
    forall j: nat | j < |ii| && j != i
      ensures SameFile(v, ii[j], v', ii[i := d'][j])
    {
      hide FsOwn, Hooks, Contents, Mapped;
      if Mapped(v, ii[j]) {
        HookUntouched(v, v', ii, owner, lay, i, d', b, k, j);
        FrameInode(v, v', ii, owner, lay, j);
      }
    }
    assert SameTable(v, v', lay) by {
      hide Bit, PutBit, Word, SetWord, OwnsSlot, OwnedOk;
      AddrOwned(v, ii, owner, lay, i, NDIRECT);
    }
  }

  /** The slots that come into use when a file of exactly `bn` blocks grows. */
  ghost predicate Fresh(bn: nat, k: nat) {
    k == SlotOf(bn) || (bn == NDIRECT && k == NDIRECT)
  }

  /** A full file whose next slots are filled with a zeroed block is one zero byte longer. */
  lemma {:induction false} Grow(v: Disk, d: Dinode, v': Disk, d': Dinode, bn: nat)
    requires Mapped(v, d) && d.size == BSIZE * bn && bn < MAXFILE && d'.Ok() && d'.size == d.size + 1 && |v'| == |v|
    requires forall k: nat | k < NSLOTS ::
      if Fresh(bn, k) then 0 < Addr(v', d', k) < |v| else Addr(v', d', k) == Addr(v, d, k)
    requires forall j: nat | j < bn ::
      Addr(v, d, SlotOf(j)) < |v| && v'[Addr(v, d, SlotOf(j))] == v[Addr(v, d, SlotOf(j))]
    requires Addr(v', d', SlotOf(bn)) < |v'| && v'[Addr(v', d', SlotOf(bn))] == Zero()
    ensures Mapped(v', d') && Contents(v', d') == Contents(v, d) + [0]
  {
    hide Word;
    forall k: nat | k < NSLOTS
      ensures MappedSlot(v', d', k)
    {
      assert MappedSlot(v, d, k);
      assert Addr(v', d', k) == if Fresh(bn, k) then Addr(v', d', k) else Addr(v, d, k);
    }
    forall o: nat | o < d'.size
      ensures ByteAt(v', d', o) == if o < d.size then ByteAt(v, d, o) else 0
    {
      var k := SlotOf(o / BSIZE);
      assert o < d.size ==> o / BSIZE < bn && !Fresh(bn, k);
      assert Addr(v', d', k) == if Fresh(bn, k) then Addr(v', d', k) else Addr(v, d, k);
    }
  }

  /** Hooking leaves the blocks in the other data slots alone, and the hooked block zero. */
  lemma {:induction false} HookData(v: Disk, v': Disk, ii: seq<Dinode>, owner: seq<Owner>, lay: Layout, i: nat,
                                    d': Dinode, b: nat, k: nat, j: nat)
    requires FsOwn(v, ii, owner, lay) && i < |ii| && Hooks(v, v', ii[i], d', lay, b, k) && owner[b] == Nobody &&
      j < MAXFILE
    ensures Addr(v, ii[i], SlotOf(j)) < |v|
    ensures Addr(v, ii[i], SlotOf(j)) != 0 ==> v'[Addr(v, ii[i], SlotOf(j))] == v[Addr(v, ii[i], SlotOf(j))]
    ensures v'[b] == Zero()
  {
    hide OwnsSlot, OwnedOk, Bit, PutBit, Word, SetWord;
    AddrOwned(v, ii, owner, lay, i, NDIRECT);
    AddrOwned(v, ii, owner, lay, i, SlotOf(j));
  }

  /** File `i` has grown by one zero byte; the other files and the inode table are as before. */
  ghost predicate Grew(v: Disk, ii: seq<Dinode>, v': Disk, ii': seq<Dinode>, owner': seq<Owner>, lay: Layout, i: nat) {
    && i < |ii| == |ii'| && FsOk(v', ii', owner', lay) && Mapped(v, ii[i]) && Mapped(v', ii'[i])
    && Contents(v', ii'[i]) == Contents(v, ii[i]) + [0] && SameFiles(v, ii, v', ii', i) && SameTable(v, v', lay)
  }

  /** `bmap` past the end of a file of `bn` blocks, when one allocation does. */
  lemma {:induction false} HookGrow(v: Disk, v': Disk, ii: seq<Dinode>, owner: seq<Owner>, lay: Layout, i: nat,
                                    d': Dinode, b: nat, bn: nat)
    requires FsOk(v, ii, owner, lay) && i < |ii| && bn < MAXFILE && bn != NDIRECT
    requires Hooks(v, v', ii[i], d', lay, b, SlotOf(bn)) && owner[b] == Nobody
    requires ii[i].size == BSIZE * bn && d'.size == ii[i].size + 1
    ensures b < |owner| && Grew(v, ii, v', ii[i := d'], owner[b := Slot(i, SlotOf(bn))], lay, i)
  {
    hide FsOwn, Hooks, Addr, Contents, SameFiles, SameTable;
    var d, k := ii[i], SlotOf(bn);
    assert Mapped(v, d) && MappedSlot(v, d, k);
    HookShape(v, v', ii, owner, lay, i, d', b, k);
    HookOwn(v, v', ii, owner, lay, i, d', b, k);
    HookOthers(v, v', ii, owner, lay, i, d', b, k);
    forall j: nat | j < NSLOTS
      ensures if Fresh(bn, j) then 0 < Addr(v', d', j) < |v| else Addr(v', d', j) == Addr(v, d, j)
    {
      HookAddr(v, v', ii, owner, lay, i, d', b, k, j);
    }
    HookAddr(v, v', ii, owner, lay, i, d', b, k, k);
    HookData(v, v', ii, owner, lay, i, d', b, k, 0);
    forall j: nat | j < bn
      ensures Addr(v, d, SlotOf(j)) < |v| && v'[Addr(v, d, SlotOf(j))] == v[Addr(v, d, SlotOf(j))]
    {
      assert MappedSlot(v, d, SlotOf(j));
      HookData(v, v', ii, owner, lay, i, d', b, k, j);
    }
    Grow(v, d, v', d', bn);
    SameKeepsOk(v, ii, v', ii[i := d'], owner[b := Slot(i, k)], lay, i);
  }

  lemma {:induction false} SameKeepsOk(v: Disk, ii: seq<Dinode>, v': Disk, ii': seq<Dinode>, owner': seq<Owner>,
                                       lay: Layout, i: nat)
    requires (forall j | 0 <= j < |ii| :: Mapped(v, ii[j])) && SameFiles(v, ii, v', ii', i) && i < |ii'| &&
      Mapped(v', ii'[i])
    requires FsOwn(v', ii', owner', lay)
    ensures FsOk(v', ii', owner', lay)
  {
    hide Mapped, FsOwn, Contents;
    forall j: nat | j < |ii'|
      ensures Mapped(v', ii'[j])
    {
      if j != i { assert SameFile(v, ii[j], v', ii'[j]); }
    }
  }

  /** `bmap` past the end of a file of exactly NDIRECT blocks: the indirect block first, then its first entry. */
  lemma {:induction false} HookGrowIndirect(v: Disk, v1: Disk, v2: Disk, ii: seq<Dinode>, ii1: seq<Dinode>,
                                            ii2: seq<Dinode>, owner: seq<Owner>, owner1: seq<Owner>, lay: Layout,
                                            i: nat, b1: nat, b2: nat)
    requires FsOk(v, ii, owner, lay) && i < |ii| == |ii1| == |ii2| && ii1 == ii[i := ii1[i]] && ii2 == ii1[i := ii2[i]]
    requires Hooks(v, v1, ii[i], ii1[i], lay, b1, NDIRECT) && owner[b1] == Nobody &&
      owner1 == owner[b1 := Slot(i, NDIRECT)]
    requires Hooks(v1, v2, ii1[i], ii2[i], lay, b2, NDIRECT + 1) && owner1[b2] == Nobody
    requires ii[i].size == BSIZE * NDIRECT && ii2[i].size == ii[i].size + 1
    ensures b2 < |owner1| && Grew(v, ii, v2, ii2, owner1[b2 := Slot(i, NDIRECT + 1)], lay, i)
  {
    hide FsOwn, Hooks, Addr, Contents, SameFiles, SameTable;
    var d, d1, d2, k1, k2 := ii[i], ii1[i], ii2[i], NDIRECT, NDIRECT + 1;
    assert Mapped(v, d) && MappedSlot(v, d, k1) && MappedSlot(v, d, k2);
    HookShape(v, v1, ii, owner, lay, i, d1, b1, k1);
    HookOwn(v, v1, ii, owner, lay, i, d1, b1, k1);
    HookOthers(v, v1, ii, owner, lay, i, d1, b1, k1);
    HookAddr(v, v1, ii, owner, lay, i, d1, b1, k1, k2);
    HookShape(v1, v2, ii1, owner1, lay, i, d2, b2, k2);
    HookOwn(v1, v2, ii1, owner1, lay, i, d2, b2, k2);
    HookOthers(v1, v2, ii1, owner1, lay, i, d2, b2, k2);
    SameFilesTrans(v, ii, v1, ii1, v2, ii2, i);
    assert SameTable(v, v2, lay) by { SameTableTrans(v, v1, v2, lay); }
    forall j: nat | j < NSLOTS
      ensures if Fresh(NDIRECT, j) then 0 < Addr(v2, d2, j) < |v| else Addr(v2, d2, j) == Addr(v, d, j)
    {
      HookAddr(v, v1, ii, owner, lay, i, d1, b1, k1, j);
      HookAddr(v1, v2, ii1, owner1, lay, i, d2, b2, k2, j);
    }
    HookAddr(v1, v2, ii1, owner1, lay, i, d2, b2, k2, k2);
    HookData(v1, v2, ii1, owner1, lay, i, d2, b2, k2, 0);
    forall j: nat | j < NDIRECT
      ensures Addr(v, d, SlotOf(j)) < |v| && v2[Addr(v, d, SlotOf(j))] == v[Addr(v, d, SlotOf(j))]
    {
      assert MappedSlot(v, d, SlotOf(j));
      HookData(v, v1, ii, owner, lay, i, d1, b1, k1, j);
      HookAddr(v, v1, ii, owner, lay, i, d1, b1, k1, SlotOf(j));
      HookData(v1, v2, ii1, owner1, lay, i, d2, b2, k2, j);
    }
    Grow(v, d, v2, d2, NDIRECT);
    SameKeepsOk(v, ii, v2, ii2, owner1[b2 := Slot(i, k2)], lay, i);
  }

  lemma {:induction false} SameTableTrans(v: Disk, v1: Disk, v2: Disk, lay: Layout)
    requires SameTable(v, v1, lay) && SameTable(v1, v2, lay)
    ensures SameTable(v, v2, lay)
  {
  }

  /** `c` with `src` written over it from `off` on, growing it if need be. */
  ghost function Splice(c: seq<byte>, off: nat, src: seq<byte>): seq<byte>
    requires off <= |c|
  {
    c[..off] + src + if off + |src| <= |c| then c[off + |src|..] else []
  }

  /** `memmove` of `src` into a block. */
  ghost function Fill(s: Sector, p: nat, src: seq<byte>): Sector
    requires p + |src| <= BSIZE
  {
    Sector(s.bytes[..p] + src + s.bytes[p + |src|..])
  }

  /** Storing into a block of a file splices its contents. */
  lemma {:induction false} StoreContents(v: Disk, ii: seq<Dinode>, owner: seq<Owner>, lay: Layout, i: nat, bn: nat,
                                         p: nat, src: seq<byte>, v': Disk, d': Dinode)
    requires FsOwn(v, ii, owner, lay) && i < |ii| && Mapped(v, ii[i]) && bn < MAXFILE && p + |src| <= BSIZE && d'.Ok()
    requires BSIZE * bn + p <= ii[i].size && BSIZE * bn < ii[i].size
    requires d'.addrs == ii[i].addrs && d'.size == if ii[i].size < BSIZE * bn + p + |src| then BSIZE * bn + p + |src|
      else ii[i].size
    requires Stores(v, ii[i], v', bn, p, src)
    ensures Mapped(v', d') && Contents(v', d') == Splice(Contents(v, ii[i]), BSIZE * bn + p, src)
  {
    hide FsOwn, Word, Addr, Stores, ByteAt, Splice;
    var d := ii[i];
    forall k: nat | k < NSLOTS
      ensures Addr(v', d', k) == Addr(v, d, k) && MappedSlot(v', d', k)
    {
      assert MappedSlot(v, d, k) && MappedSlot(v, d, SlotOf(bn));
      StoreAddr(v, ii, owner, lay, i, bn, p, src, v', d', i, k);
      StoreLength(v, ii[i], v', bn, p, src);
    }
    var off := BSIZE * bn + p;
    forall o: nat | o < d'.size
      ensures ByteAt(v', d', o) == if off <= o < off + |src| then src[o - off] else ByteAt(v, d, o)
    {
      StoreByte(v, ii, owner, lay, i, bn, p, src, v', d', o);
    }
    SpliceIs(Contents(v, d), Contents(v', d'), off, src);
  }

  /** A sequence that agrees with `src` on its range and with `c` elsewhere is the splice. */
  lemma {:induction false} SpliceIs(c: seq<byte>, c': seq<byte>, off: nat, src: seq<byte>)
    requires off <= |c| && |c'| == if |c| < off + |src| then off + |src| else |c|
    requires forall o | 0 <= o < |c'| :: c'[o] == if off <= o < off + |src| then src[o - off] else c[o]
    ensures c' == Splice(c, off, src)
  {
    var r := Splice(c, off, src);
    forall o | 0 <= o < |c'|
      ensures c'[o] == r[o]
    {
      if off + |src| <= o {
        assert r[o] == c[off + |src|..][o - off - |src|];
      }
    }
  }

  lemma {:induction false} StoreByte(v: Disk, ii: seq<Dinode>, owner: seq<Owner>, lay: Layout, i: nat, bn: nat, p: nat,
                                     src: seq<byte>, v': Disk, d': Dinode, o: nat)
    requires FsOwn(v, ii, owner, lay) && i < |ii| && Mapped(v, ii[i]) && bn < MAXFILE && p + |src| <= BSIZE &&
      Mapped(v', d')
    requires BSIZE * bn + p <= ii[i].size && BSIZE * bn < ii[i].size && o < d'.size
    requires d'.addrs == ii[i].addrs && d'.size == if ii[i].size < BSIZE * bn + p + |src| then BSIZE * bn + p + |src|
      else ii[i].size
    requires Stores(v, ii[i], v', bn, p, src) && Addr(v', d', SlotOf(o / BSIZE)) == Addr(v, ii[i], SlotOf(o / BSIZE))
    ensures var off := BSIZE * bn + p;
      ByteAt(v', d', o) == if off <= o < off + |src| then src[o - off] else ByteAt(v, ii[i], o)
  {
    hide FsOwn, Word;
    var d, k := ii[i], SlotOf(o / BSIZE);
    assert MappedSlot(v, d, SlotOf(bn)) && MappedSlot(v, d, k);
    AddrOwned(v, ii, owner, lay, i, SlotOf(bn));
    AddrOwned(v, ii, owner, lay, i, k);
    assert o == BSIZE * (o / BSIZE) + o % BSIZE;
    if o / BSIZE != bn {
      assert Addr(v, d, k) != Addr(v, d, SlotOf(bn));
    }
  }

  lemma {:induction false} StoreLength(v: Disk, d: Dinode, v': Disk, bn: nat, p: nat, src: seq<byte>)
    requires Stores(v, d, v', bn, p, src)
    ensures |v'| == |v|
  {
  }

  ghost predicate Stores(v: Disk, d: Dinode, v': Disk, bn: nat, p: nat, src: seq<byte>) {
    && d.Ok() && bn < MAXFILE && p + |src| <= BSIZE
    && var a := Addr(v, d, SlotOf(bn)); a < |v| && v' == v[a := Fill(v[a], p, src)]
  }

  /** Storing into a block of file `i` keeps ownership, the other files and the inode table. */
  lemma {:induction false} StoreOthers(v: Disk, ii: seq<Dinode>, owner: seq<Owner>, lay: Layout, i: nat, bn: nat,
                                       p: nat, src: seq<byte>, v': Disk, d': Dinode)
    requires FsOwn(v, ii, owner, lay) && i < |ii| && Stores(v, ii[i], v', bn, p, src) && Addr(v, ii[i], SlotOf(bn)) != 0
    requires d'.Ok() && d'.addrs == ii[i].addrs
    ensures FsOwn(v', ii[i := d'], owner, lay) && SameFiles(v, ii, v', ii[i := d'], i) && SameTable(v, v', lay)
  {
    hide Fill, Word, Addr, BlockBit, OwnsSlot, OwnedOk, Mapped, Contents;
    var ii', a := ii[i := d'], Addr(v, ii[i], SlotOf(bn));
    AddrOwned(v, ii, owner, lay, i, SlotOf(bn));
    forall j: nat, k: nat | j < |ii| && k < NSLOTS
      ensures Addr(v', ii'[j], k) == Addr(v, ii[j], k) && OwnsSlot(v', ii', owner, j, k)
    {
      StoreAddr(v, ii, owner, lay, i, bn, p, src, v', d', j, k);
    }
    forall b: nat | b < |owner|
      ensures OwnedOk(v', ii', owner, lay, b)
    {
      StoreOwnedOk(v, ii, owner, lay, i, bn, p, src, v', d', b);
    }
    forall j: nat | j < |ii| && j != i
      ensures SameFile(v, ii[j], v', ii'[j])
    {
      if Mapped(v, ii[j]) {
        FrameInode(v, v', ii, owner, lay, j);
      }
    }
  }

  lemma {:induction false} StoreAddr(v: Disk, ii: seq<Dinode>, owner: seq<Owner>, lay: Layout, i: nat, bn: nat, p: nat,
                                     src: seq<byte>, v': Disk, d': Dinode, j: nat, k: nat)
    requires FsOwn(v, ii, owner, lay) && i < |ii| && Stores(v, ii[i], v', bn, p, src) && Addr(v, ii[i], SlotOf(bn)) != 0
    requires d'.Ok() && d'.addrs == ii[i].addrs && j < |ii| && k < NSLOTS
    ensures Addr(v', ii[i := d'][j], k) == Addr(v, ii[j], k) && OwnsSlot(v', ii[i := d'], owner, j, k)
  {
    hide Fill, Word, OwnedOk;
    AddrOwned(v, ii, owner, lay, i, SlotOf(bn));
    AddrOwned(v, ii, owner, lay, j, NDIRECT);
    assert OwnsSlot(v, ii, owner, j, k);
  }

  lemma {:induction false} StoreOwnedOk(v: Disk, ii: seq<Dinode>, owner: seq<Owner>, lay: Layout, i: nat, bn: nat,
                                        p: nat, src: seq<byte>, v': Disk, d': Dinode, b: nat)
    requires FsOwn(v, ii, owner, lay) && i < |ii| && Stores(v, ii[i], v', bn, p, src) && Addr(v, ii[i], SlotOf(bn)) != 0
    requires d'.Ok() && d'.addrs == ii[i].addrs && b < |owner|
    ensures Shape(v', ii[i := d'], owner, lay) && OwnedOk(v', ii[i := d'], owner, lay, b)
  {
    hide Fill, Word, Bit, OwnsSlot;
    AddrOwned(v, ii, owner, lay, i, SlotOf(bn));
    assert OwnedOk(v, ii, owner, lay, b);
    if owner[b].Slot? {
      StoreAddr(v, ii, owner, lay, i, bn, p, src, v', d', owner[b].inum, owner[b].k);
    }
  }

  /** One step of `inode_write`'s loop keeps the invariant. */
  lemma {:induction false} StoreOk(v: Disk, ii: seq<Dinode>, owner: seq<Owner>, lay: Layout, i: nat, bn: nat, p: nat,
                                   src: seq<byte>, v': Disk, d': Dinode)
    requires FsOk(v, ii, owner, lay) && i < |ii| && bn < MAXFILE && p + |src| <= BSIZE && d'.Ok()
    requires BSIZE * bn + p <= ii[i].size && BSIZE * bn < ii[i].size && Stores(v, ii[i], v', bn, p, src)
    requires d'.addrs == ii[i].addrs && d'.size == if ii[i].size < BSIZE * bn + p + |src| then BSIZE * bn + p + |src|
      else ii[i].size
    ensures FsOk(v', ii[i := d'], owner, lay) && SameFiles(v, ii, v', ii[i := d'], i) && SameTable(v, v', lay)
    ensures Mapped(v', d') && Contents(v', d') == Splice(Contents(v, ii[i]), BSIZE * bn + p, src)
  {
    hide FsOwn, Addr, Contents, Stores, SameFiles;
    assert Mapped(v, ii[i]) && MappedSlot(v, ii[i], SlotOf(bn));
    StoreContents(v, ii, owner, lay, i, bn, p, src, v', d');
    StoreOthers(v, ii, owner, lay, i, bn, p, src, v', d');
    SameKeepsOk(v, ii, v', ii[i := d'], owner, lay, i);
  }

  ghost function FreeBlocks(v: Disk, lay: Layout): set<nat>
    requires lay.Ok() && |v| == lay.Start()
  {
    set b: nat | b < |v| && !BlockBit(v, lay, b)
  }

  /** A block whose bit is clear belongs to nobody. */
  lemma {:induction false} FreeUnowned(v: Disk, ii: seq<Dinode>, owner: seq<Owner>, lay: Layout, b: nat)
    requires FsOwn(v, ii, owner, lay) && b < |v| && !BlockBit(v, lay, b)
    ensures owner[b] == Nobody && lay.DataStart() <= b
  {
    assert OwnedOk(v, ii, owner, lay, b);
  }

  /** Hooking a block in uses up exactly that free block. */
  lemma {:induction false} HookFree(v: Disk, v': Disk, ii: seq<Dinode>, owner: seq<Owner>, lay: Layout, i: nat,
                                    d': Dinode, b: nat, k: nat)
    requires FsOwn(v, ii, owner, lay) && i < |ii| && Hooks(v, v', ii[i], d', lay, b, k) && !BlockBit(v, lay, b)
    ensures |v'| == |v| && FreeBlocks(v', lay) == FreeBlocks(v, lay) - {b} &&
      |FreeBlocks(v', lay)| == |FreeBlocks(v, lay)| - 1
  {
    hide FsOwn, BlockBit, Hooks;
    HookShape(v, v', ii, owner, lay, i, d', b, k);
    forall c: nat | c < |v|
      ensures c in FreeBlocks(v', lay) <==> c in FreeBlocks(v, lay) - {b}
    {
      HookBit(v, v', ii, owner, lay, i, d', b, k, c);
    }
    assert FreeBlocks(v', lay) == FreeBlocks(v, lay) - {b};
  }
}
