/** Physical pages as 4096 raw bytes, with the view as 1024 little-endian words that page tables use. */
module Frames {
  import opened Sectors

  const PAGESIZE := 4096
  const ENTRIES := 1024
  /** Physical pages in a 32-bit address space. */
  const NFRAMES := 0x10_0000

  type PageBytes = s: seq<byte> | |s| == PAGESIZE witness seq(PAGESIZE, _ => 0)

  datatype Page = Page(bytes: PageBytes)

  /** Entry `k` of a page read as a page table. */
  function Pte(p: Page, k: nat): (w: nat)
    requires k < ENTRIES
    ensures w < U32
  {
    var b := p.bytes;
    b[4*k] as int + 256 * b[4*k + 1] as int + 0x1_0000 * b[4*k + 2] as int + 0x100_0000 * b[4*k + 3] as int
  }

  function SetPte(p: Page, k: nat, v: nat): Page
    requires k < ENTRIES && v < U32
  {
    Page(p.bytes[4*k := v % 256][4*k + 1 := v / 256 % 256][4*k + 2 := v / 0x1_0000 % 256][4*k + 3 := v / 0x100_0000])
  }

  lemma {:induction false} PteOfSetPte(p: Page, k: nat, v: nat, l: nat)
    requires k < ENTRIES && v < U32 && l < ENTRIES
    ensures Pte(SetPte(p, k, v), l) == if l == k then v else Pte(p, l)
  {
    if l == k {
      var a, b, c := v % 256, v / 256 % 256, v / 0x1_0000 % 256;
      assert v == a + 256 * (v / 256);
      assert v / 256 == b + 256 * (v / 0x1_0000);
      assert v / 0x1_0000 == c + 256 * (v / 0x100_0000);
    }
  }

  /** The page with `src` copied in at `off`. */
  function PutBytes(p: Page, off: nat, src: seq<byte>): (r: Page)
    requires off + |src| <= PAGESIZE
    ensures forall x | 0 <= x < PAGESIZE :: r.bytes[x] == if off <= x < off + |src| then src[x - off] else p.bytes[x]
  {
    Page(p.bytes[..off] + src + p.bytes[off + |src|..])
  }
}
