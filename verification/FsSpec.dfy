/**
 * The on-disk file system: superblock, inode table, free-block bitmap and data
 * blocks, as functions of the home sectors `v`.
 *
 * Slot `k` of an inode is direct block `k` for k < 12, the indirect block for
 * k = 12, and entry `k - 13` of the indirect block above that.  `owner` inverts
 * the slots: it says for each block which slot of which inode it belongs to.
 */
module FsSpec {
  import opened Sectors

  const NDIRECT := 12
  const NINDIRECT := 128
  const MAXFILE := NDIRECT + NINDIRECT
  const NSLOTS := MAXFILE + 1
  const IPB := 8

  type Disk = seq<Sector>

  datatype Layout = Layout(size: nat, ninodes: nat, nlog: nat)
  {
    function Start(): int { size - nlog }
    function IBlock(i: nat): nat { i / IPB + 2 }
    function BBlock(b: nat): nat { b / BPB + ninodes / IPB + 3 }
    function DataStart(): nat { ninodes / IPB + 3 + size / BPB + 1 }
    predicate Ok() { DataStart() <= Start() && 9 <= nlog && size < U32 && 1 < ninodes }
    /** The sectors of the bitmap. */
    ghost function Bitmaps(): set<nat> { set j: nat | j <= size / BPB :: BBlock(j * BPB) }
  }

  datatype Dinode = Dinode(typ: nat, major: nat, minor: nat, nlink: nat, size: nat, addrs: seq<nat>)
  {
    predicate Ok() {
      && typ < U16 && major < U16 && minor < U16 && nlink < U16 && size < U32
      && |addrs| == NDIRECT + 1 && forall j | 0 <= j < |addrs| :: addrs[j] < U32
    }
  }

  function Addrs(s: Sector, k: nat): (r: seq<nat>)
    requires k < IPB
    ensures |r| == NDIRECT + 1 && forall j | 0 <= j < |r| :: r[j] == Word(s, 16*k + 3 + j)
  {
    seq<nat>(NDIRECT + 1, j requires 0 <= j <= NDIRECT && k < IPB => Word(s, 16*k + 3 + j))
  }

  /** The `k`-th of the inodes in an inode block. */
  function DinodeAt(s: Sector, k: nat): (d: Dinode)
    requires k < IPB
    ensures d.Ok()
  {
    Dinode(Half(s, 32*k), Half(s, 32*k + 1), Half(s, 32*k + 2), Half(s, 32*k + 3), Word(s, 16*k + 2), Addrs(s, k))
  }

  /** `s` with the first `n` addresses of inode `k` overwritten by those of `d`. */
  function PutAddrs(s: Sector, k: nat, d: Dinode, n: nat): Sector
    requires k < IPB && d.Ok() && n <= NDIRECT + 1
  {
    if n == 0 then s else SetWord(PutAddrs(s, k, d, n - 1), 16*k + 2 + n, d.addrs[n - 1])
  }

  function PutHalves(s: Sector, k: nat, d: Dinode): Sector
    requires k < IPB && d.Ok()
  {
    SetHalf(SetHalf(SetHalf(SetHalf(s, 32*k, d.typ), 32*k + 1, d.major), 32*k + 2, d.minor), 32*k + 3, d.nlink)
  }

  /** The stores of `inode_update` into the inode block. */
  function PutDinode(s: Sector, k: nat, d: Dinode): Sector
    requires k < IPB && d.Ok()
  {
    PutAddrs(SetWord(PutHalves(s, k, d), 16*k + 2, d.size), k, d, NDIRECT + 1)
  }

  /** A word store leaves the half words outside it alone, and the other way round. */
  lemma {:induction false} HalfWordFrame(s: Sector, h: nat, w: nat, x: nat, y: nat)
    requires h < 256 && w < 128 && h / 2 != w && x < U32 && y < U16
    ensures Half(SetWord(s, w, x), h) == Half(s, h)
    ensures Word(SetHalf(s, h, y), w) == Word(s, w)
  {
  }

  lemma {:induction false} PutHalvesAt(s: Sector, k: nat, d: Dinode, h: nat, w: nat)
    requires k < IPB && d.Ok() && h < 256 && w < 128
    ensures Half(PutHalves(s, k, d), h) ==
            if h == 32*k then d.typ else if h == 32*k + 1 then d.major
            else if h == 32*k + 2 then d.minor else if h == 32*k + 3 then d.nlink else Half(s, h)
    ensures w != 16*k && w != 16*k + 1 ==> Word(PutHalves(s, k, d), w) == Word(s, w)
  {
    hide Half, Word, SetHalf;
    var s1 := SetHalf(s, 32*k, d.typ);
    var s2 := SetHalf(s1, 32*k + 1, d.major);
    var s3 := SetHalf(s2, 32*k + 2, d.minor);
    HalfOfSetHalf(s, 32*k, d.typ, h);
    HalfOfSetHalf(s1, 32*k + 1, d.major, h);
    HalfOfSetHalf(s2, 32*k + 2, d.minor, h);
    HalfOfSetHalf(s3, 32*k + 3, d.nlink, h);
    if w != 16*k && w != 16*k + 1 {
      HalfWordFrame(s, 32*k, w, 0, d.typ);
      HalfWordFrame(s1, 32*k + 1, w, 0, d.major);
      HalfWordFrame(s2, 32*k + 2, w, 0, d.minor);
      HalfWordFrame(s3, 32*k + 3, w, 0, d.nlink);
    }
  }

  lemma {:induction false} PutAddrsAt(s: Sector, k: nat, d: Dinode, n: nat, h: nat, w: nat)
    requires k < IPB && d.Ok() && n <= NDIRECT + 1 && h < 256 && w < 128
    ensures Word(PutAddrs(s, k, d, n), w) == if 16*k + 3 <= w < 16*k + 3 + n then d.addrs[w - 16*k - 3] else Word(s, w)
    ensures !(16*k + 3 <= h / 2 <= 16*k + 15) ==> Half(PutAddrs(s, k, d, n), h) == Half(s, h)
  {
    hide Half, Word, SetWord;
    if n > 0 {
      PutAddrsAt(s, k, d, n - 1, h, w);
      var s', v := PutAddrs(s, k, d, n - 1), d.addrs[n - 1];
      WordOfSetWord(s', 16*k + 2 + n, v, w);
      if !(16*k + 3 <= h / 2 <= 16*k + 15) {
        HalfWordFrame(s', h, 16*k + 2 + n, v, 0);
      }
    }
  }

  lemma {:induction false} PutDinodeAt(s: Sector, k: nat, d: Dinode, h: nat, w: nat)
    requires k < IPB && d.Ok() && h < 256 && w < 128
    ensures h / 32 != k ==> Half(PutDinode(s, k, d), h) == Half(s, h)
    ensures w / 16 != k ==> Word(PutDinode(s, k, d), w) == Word(s, w)
    ensures h == 32*k ==> Half(PutDinode(s, k, d), h) == d.typ
    ensures h == 32*k + 1 ==> Half(PutDinode(s, k, d), h) == d.major
    ensures h == 32*k + 2 ==> Half(PutDinode(s, k, d), h) == d.minor
    ensures h == 32*k + 3 ==> Half(PutDinode(s, k, d), h) == d.nlink
    ensures w == 16*k + 2 ==> Word(PutDinode(s, k, d), w) == d.size
    ensures 16*k + 3 <= w < 16*k + 16 ==> Word(PutDinode(s, k, d), w) == d.addrs[w - 16*k - 3]
  {
    hide Half, Word, SetWord, PutHalves, PutAddrs;
    var s1 := PutHalves(s, k, d);
    PutHalvesAt(s, k, d, h, w);
    PutAddrsAt(SetWord(s1, 16*k + 2, d.size), k, d, NDIRECT + 1, h, w);
    WordOfSetWord(s1, 16*k + 2, d.size, w);
    if h / 2 != 16*k + 2 {
      HalfWordFrame(s1, h, 16*k + 2, d.size, 0);
    }
  }

  /** `inode_update` writes inode `k` and no other inode of the block. */
  lemma {:induction false} DinodeOfPut(s: Sector, k: nat, d: Dinode, j: nat)
    requires k < IPB && j < IPB && d.Ok()
    ensures DinodeAt(PutDinode(s, k, d), j) == if j == k then d else DinodeAt(s, j)
  {
    hide Half, Word, PutDinode;
    var r := PutDinode(s, k, d);
    forall i | 0 <= i <= NDIRECT
      ensures Addrs(r, j)[i] == if j == k then d.addrs[i] else Addrs(s, j)[i]
    {
      PutDinodeAt(s, k, d, 0, 16*j + 3 + i);
    }
    PutDinodeAt(s, k, d, 32*j, 16*j + 2);
    PutDinodeAt(s, k, d, 32*j + 1, 0);
    PutDinodeAt(s, k, d, 32*j + 2, 0);
    PutDinodeAt(s, k, d, 32*j + 3, 0);
    assert Addrs(r, j) == if j == k then d.addrs else Addrs(s, j);
  }
}
