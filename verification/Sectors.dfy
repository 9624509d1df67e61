/**
 * Disk sectors as 512 raw bytes, with the three typed views the file system
 * casts them to: little-endian 32-bit words (superblock, log header, indirect
 * blocks, inode fields), 16-bit halves (inode type and link count) and single
 * bits (the free-block bitmap).
 */
module Sectors {
  const BSIZE := 512
  const BPB := 4096
  const U16 := 0x1_0000
  const U32 := 0x1_0000_0000

  type byte = x: int | 0 <= x < 256
  type Block = s: seq<byte> | |s| == BSIZE witness seq(BSIZE, _ => 0)

  datatype Sector = Sector(bytes: Block)

  function Zero(): Sector {
    Sector(seq(BSIZE, _ => 0))
  }

  /** The little-endian word at word index `i`. */
  function Word(s: Sector, i: nat): (w: nat)
    requires i < 128
    ensures w < U32
  {
    var b := s.bytes;
    b[4*i] as int + 256 * b[4*i + 1] as int + 0x1_0000 * b[4*i + 2] as int + 0x100_0000 * b[4*i + 3] as int
  }

  function SetWord(s: Sector, i: nat, v: nat): (r: Sector)
    requires i < 128 && v < U32
  {
    Sector(s.bytes[4*i := v % 256][4*i + 1 := v / 256 % 256][4*i + 2 := v / 0x1_0000 % 256][4*i + 3 := v / 0x100_0000])
  }

  lemma {:induction false} WordOfSetWord(s: Sector, i: nat, v: nat, j: nat)
    requires i < 128 && v < U32 && j < 128
    ensures Word(SetWord(s, i, v), j) == if j == i then v else Word(s, j)
  {
    if j == i {
      var a, b, c := v % 256, v / 256 % 256, v / 0x1_0000 % 256;
      assert v == a + 256 * (v / 256);
      assert v / 256 == b + 256 * (v / 0x1_0000);
      assert v / 0x1_0000 == c + 256 * (v / 0x100_0000);
    }
  }

  /** The little-endian half word at half index `i`. */
  function Half(s: Sector, i: nat): (h: nat)
    requires i < 256
    ensures h < U16
  {
    s.bytes[2*i] as int + 256 * s.bytes[2*i + 1] as int
  }

  function SetHalf(s: Sector, i: nat, v: nat): (r: Sector)
    requires i < 256 && v < U16
  {
    Sector(s.bytes[2*i := v % 256][2*i + 1 := v / 256])
  }

  lemma {:induction false} HalfOfSetHalf(s: Sector, i: nat, v: nat, j: nat)
    requires i < 256 && v < U16 && j < 256
    ensures Half(SetHalf(s, i, v), j) == if j == i then v else Half(s, j)
  {
  }

  /** Bit `k` of a byte, the truth value of `x & (1 << k)`. */
  predicate ByteBit(x: nat, k: nat) {
    if k == 0 then x % 2 == 1 else ByteBit(x / 2, k - 1)
  }

  /** `x | (1 << k)` when `v`, `x & ~(1 << k)` otherwise. */
  function PutByteBit(x: nat, k: nat, v: bool): nat {
    if k == 0 then x - x % 2 + (if v then 1 else 0) else 2 * PutByteBit(x / 2, k - 1, v) + x % 2
  }

  lemma {:induction false} PutByteBitAt(x: nat, k: nat, v: bool, j: nat)
    ensures ByteBit(PutByteBit(x, k, v), j) == if j == k then v else ByteBit(x, j)
  {
    var y := PutByteBit(x, k, v);
    if k > 0 && j > 0 {
      PutByteBitAt(x / 2, k - 1, v, j - 1);
      assert y / 2 == PutByteBit(x / 2, k - 1, v);
    } else if k == 0 && j > 0 {
      assert y / 2 == x / 2;
    }
  }

  lemma {:induction false} PutByteBitRange(x: nat, k: nat, v: bool, bits: nat, bound: nat)
    requires k < bits <= 8 && bound == [1, 2, 4, 8, 16, 32, 64, 128, 256][bits] && x < bound
    ensures PutByteBit(x, k, v) < bound
  {
    if k > 0 {
      PutByteBitRange(x / 2, k - 1, v, bits - 1, bound / 2);
    }
  }

  predicate Bit(s: Sector, i: nat)
    requires i < BPB
  {
    ByteBit(s.bytes[i / 8], i % 8)
  }

  /** The bitmap update `data[i/8] |= m` (or `&= ~m`) with `m = 1 << (i % 8)`. */
  function PutBit(s: Sector, i: nat, v: bool): (r: Sector)
    requires i < BPB
  {
    PutByteBitRange(s.bytes[i / 8], i % 8, v, 8, 256);
    Sector(s.bytes[i / 8 := PutByteBit(s.bytes[i / 8], i % 8, v)])
  }

  /** Setting or clearing one bit changes that bit and no other. */
  lemma {:induction false} BitOfPutBit(s: Sector, i: nat, v: bool, j: nat)
    requires i < BPB && j < BPB
    ensures Bit(PutBit(s, i, v), j) == if j == i then v else Bit(s, j)
  {
    PutByteBitAt(s.bytes[i / 8], i % 8, v, j % 8);
  }
}
