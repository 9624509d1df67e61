/** Loading an executable: each loadable segment is mapped page by page, filled from the file and padded with zeros. */
module Elf {
  import opened Sectors
  import opened Frames
  import opened PageAlloc
  import opened Containers
  import opened PageTables
  import opened AddressSpaces
  import opened UserCopy

  /** A program header. */
  datatype Segment = Segment(load: bool, offset: nat, va: nat, filesz: nat, memsz: nat, writable: bool)

  function Down(a: nat): nat {
    a / PAGESIZE * PAGESIZE
  }

  function Up(a: nat): nat {
    Down(a + PAGESIZE - 1)
  }

  /** The segment lies in user memory and in the file, at the same offset within a page. */
  predicate SegmentOk(exe: seq<byte>, s: Segment) {
    && VM_USERLO <= s.va && s.va + s.memsz <= VM_USERHI && s.filesz <= s.memsz && s.offset + s.filesz <= |exe|
    && s.va % PAGESIZE == s.offset % PAGESIZE
  }

  function First(s: Segment): nat {
    Down(s.va)
  }

  function Past(s: Segment): nat {
    Up(s.va + s.memsz)
  }

  /** Byte `o` of the pages of a segment: the file's up to the end of its part, then zeros. */
  function ImageByte(exe: seq<byte>, s: Segment, o: nat): byte {
    if First(s) + o < s.va + s.filesz && s.filesz > 0 && Down(s.offset) + o < |exe| then exe[Down(s.offset) + o] else 0
  }

  function Image(exe: seq<byte>, s: Segment, n: nat): (r: seq<byte>)
    ensures |r| == n && forall o | 0 <= o < n :: r[o] == ImageByte(exe, s, o)
  {
    seq(n, o requires 0 <= o < n => ImageByte(exe, s, o))
  }

  /** What a process must find for a segment: its bytes from the file, then zeros up to its size in memory. */
  ghost predicate Loaded(v: Vm, i: nat, exe: seq<byte>, s: Segment) {
    && |v.pdir| == NUM_IDS && i < NUM_IDS && |v.pdir[i]| == ENTRIES && SegmentOk(exe, s)
    && forall x: nat | x < s.memsz :: LoadedByte(v, i, exe, s, x)
  }

  predicate LoadedByte(v: Vm, i: nat, exe: seq<byte>, s: Segment, x: nat)
    requires |v.pdir| == NUM_IDS && i < NUM_IDS && |v.pdir[i]| == ENTRIES && SegmentOk(exe, s) && x < s.memsz
  {
    Present(v, i, s.va + x) && UserByte(v, i, s.va + x) == if x < s.filesz then exe[s.offset + x] else 0
  }

  lemma {:induction false} ImageLoads(v: Vm, i: nat, exe: seq<byte>, s: Segment)
    requires SegmentOk(exe, s) && Holds(v, i, First(s), Image(exe, s, Past(s) - First(s)))
    ensures Loaded(v, i, exe, s)
  {
    var image := Image(exe, s, Past(s) - First(s));
    forall x: nat | x < s.memsz
      ensures LoadedByte(v, i, exe, s, x)
    {
      assert HoldsAt(v, i, First(s), image, s.va + x);
      assert s.va - First(s) == s.offset - Down(s.offset);
    }
  }

  /** The access rights of a segment's pages. */
  function RightsOf(s: Segment): nat {
    PTE_U + PTE_P + if s.writable then PTE_W else 0
  }

  /** Process `i` has the addresses from `lo` to `hi` mapped with these rights and no others. */
  ghost predicate Rights(v: Vm, i: nat, lo: nat, hi: nat, perm: nat) {
    && |v.pdir| == NUM_IDS && i < NUM_IDS && |v.pdir[i]| == ENTRIES && perm % 2 == 1
    && forall wa: nat | lo <= wa < hi :: UserVa(wa) && RightsAt(v, i, wa, perm)
  }

  predicate RightsAt(v: Vm, i: nat, wa: nat, perm: nat)
    requires |v.pdir| == NUM_IDS && i < NUM_IDS && |v.pdir[i]| == ENTRIES && UserVa(wa)
  {
    Present(v, i, wa) && Translate(v, i, wa) % PAGESIZE == perm
  }

  /** No mapping has changed, but for those of process `i` between `lo` and `hi`. */
  ghost predicate MapKept(v: Vm, v': Vm, i: nat, lo: nat, hi: nat) {
    && Directories(v, v')
    && forall x: nat, wa: nat | 0 < x < NUM_IDS && UserVa(wa) && !(x == i && lo <= wa < hi) :: EntryKept(v, v', x, wa)
  }

  predicate EntryKept(v: Vm, v': Vm, x: nat, wa: nat)
    requires |v.pdir| == |v'.pdir| == NUM_IDS && x < NUM_IDS && |v.pdir[x]| == |v'.pdir[x]| == ENTRIES && UserVa(wa)
  {
    Present(v, x, wa) ==> Translate(v', x, wa) == Translate(v, x, wa)
  }

  lemma {:induction false} GrowsKeeps(v: Vm, v': Vm, j: nat, i: nat, lo: nat, hi: nat)
    requires MapGrows(v, v', j)
    ensures MapKept(v, v', i, lo, hi)
  {
    hide Translate;
    forall x: nat, wa: nat | 0 < x < NUM_IDS && UserVa(wa)
      ensures EntryKept(v, v', x, wa)
    {
      assert EntryGrows(v, v', j, x, wa);
    }
  }

  lemma {:induction false} MapKeptWiden(v: Vm, v': Vm, i: nat, lo: nat, hi: nat, lo': nat, hi': nat)
    requires MapKept(v, v', i, lo, hi) && lo' <= lo && hi <= hi'
    ensures MapKept(v, v', i, lo', hi')
  {
    hide EntryKept;
  }

  lemma {:induction false} MapKeptTrans(v: Vm, v1: Vm, v2: Vm, i: nat, lo: nat, hi: nat)
    requires MapKept(v, v1, i, lo, hi) && MapKept(v1, v2, i, lo, hi)
    ensures MapKept(v, v2, i, lo, hi)
  {
    hide Translate;
    forall x: nat, wa: nat | 0 < x < NUM_IDS && UserVa(wa) && !(x == i && lo <= wa < hi)
      ensures EntryKept(v, v2, x, wa)
    {
      assert EntryKept(v, v1, x, wa) && EntryKept(v1, v2, x, wa);
    }
  }

  lemma {:induction false} RightsKept(v: Vm, v': Vm, i: nat, lo: nat, hi: nat, a: nat, b: nat, perm: nat)
    requires Rights(v, i, a, b, perm) && MapKept(v, v', i, lo, hi) && 0 < i && (b <= lo || hi <= a || hi <= lo)
    ensures Rights(v', i, a, b, perm)
  {
    hide Translate;
    forall wa: nat | a <= wa < b
      ensures RightsAt(v', i, wa, perm)
    {
      assert RightsAt(v, i, wa, perm) && EntryKept(v, v', i, wa);
    }
  }

  lemma {:induction false} RightsMore(v: Vm, i: nat, a: nat, b: nat, c: nat, perm: nat)
    requires Rights(v, i, a, b, perm) && Rights(v, i, b, c, perm)
    ensures Rights(v, i, a, c, perm)
  {
    hide RightsAt;
  }

  lemma {:induction false} MapKeptSelf(v: Vm, i: nat, lo: nat, hi: nat)
    requires Directories(v, v)
    ensures MapKept(v, v, i, lo, hi)
  {
  }

  /** A new page changes only the mappings of its own addresses, and gives them all its rights. */
  lemma {:induction false} PageRights(v: Vm, v': Vm, i: nat, va: nat, p: nat, perm: nat)
    requires 0 < i < NUM_IDS && UserVa(va) && va % PAGESIZE == 0 && va + PAGESIZE <= VM_USERHI && perm < PAGESIZE &&
      perm % 2 == 1
    requires Updated(v, v', i, Pdx(va), Ptx(va), p * PAGESIZE + perm)
    ensures MapKept(v, v', i, va, va + PAGESIZE) && Rights(v', i, va, va + PAGESIZE, perm)
  {
    UpdatedEntry(v, v', i, va, p, perm);
    forall x: nat, wa: nat | 0 < x < NUM_IDS && UserVa(wa) && !(x == i && va <= wa < va + PAGESIZE)
      ensures EntryKept(v, v', x, wa)
    {
      SamePage(wa, va);
      SamePage(va, wa);
      assert SameEntry(v, v', x, Pdx(wa), Ptx(wa));
    }
    forall wa: nat | va <= wa < va + PAGESIZE
      ensures UserVa(wa) && RightsAt(v', i, wa, perm)
    {
      SamePage(va, wa);
    }
  }

  /** Mapping a new page disturbs only the page it maps. */
  lemma {:induction false} MapSeenPage(v: Vm, use: seq<Use>, v': Vm, i: nat, va: nat, e: nat)
    requires MapOk(v, use) && 0 < i < NUM_IDS && UserVa(va) && va % PAGESIZE == 0
    requires Updated(v, v', i, Pdx(va), Ptx(va), e) && DataKept(v, v', use)
    ensures Kept(v, v', i, va, va + PAGESIZE)
  {
    forall x: nat, wa: nat | 0 < x < NUM_IDS && UserVa(wa) && !(x == i && va <= wa < va + PAGESIZE)
      ensures SameByte(v, v', x, wa)
    {
      SamePage(wa, va);
      SamePage(va, wa);
      assert SameEntry(v, v', x, Pdx(wa), Ptx(wa));
      assert EntryOk(v, use, x, Pdx(wa), Ptx(wa));
    }
  }

  lemma {:induction false} PageMapped(v: Vm, i: nat, va: nat)
    requires Directories(v, v) && 0 < i < NUM_IDS && UserVa(va) && va % PAGESIZE == 0 && va + PAGESIZE <= VM_USERHI &&
      Present(v, i, va)
    ensures forall n | 0 <= n <= PAGESIZE :: RangeMapped(v, i, va, n)
  {
    forall wa: nat | va <= wa < va + PAGESIZE
      ensures UserVa(wa) && Present(v, i, wa)
    {
      SamePage(va, wa);
    }
  }

  /** The call of `alloc_page` for the next page of a segment. */
  method NewPage(sp: Spaces, pid: nat, va: nat, perm: nat) returns (ghost got: bool)
    requires sp.Valid() && 0 < pid < NUM_IDS && UserVa(va) && va % PAGESIZE == 0 && va + PAGESIZE <= VM_USERHI &&
      perm < PAGESIZE && perm % 2 == 1
    modifies sp`v, sp`use, sp.ct, sp.ct.at
    ensures sp.Valid() && Kept(old(sp.v), sp.v, pid, va, va + PAGESIZE)
    ensures MapKept(old(sp.v), sp.v, pid, va, va + PAGESIZE) && (got ==> Rights(sp.v, pid, va, va + PAGESIZE, perm))
    ensures old(sp.Room(pid)) >= 2 ==>
      got && sp.Room(pid) >= old(sp.Room(pid)) - 2 && forall n | 0 <= n <= PAGESIZE :: RangeMapped(sp.v, pid, va, n)
  {
    hide Containers.Valid, FreeAbove;
    SamePage(va, va);
    ghost var v0, use0 := sp.v, sp.use;
    KeptSelf(v0);
    KeptWiden(v0, v0, 0, 0, 0, pid, va, va + PAGESIZE);
    MapKeptSelf(v0, pid, va, va + PAGESIZE);
    var r := sp.AllocPage(pid, va, perm);
    got := r != MAGIC;
    if r != MAGIC {
      ghost var p: nat :| Updated(v0, sp.v, pid, Pdx(va), Ptx(va), p * PAGESIZE + perm);
      MapSeenPage(v0, use0, sp.v, pid, va, p * PAGESIZE + perm);
      PageRights(v0, sp.v, pid, va, p, perm);
      UpdatedEntry(v0, sp.v, pid, va, p, perm);
      hide Updated, PtOk, MapOk, Kept, MapKept, Rights;
      PageMapped(sp.v, pid, va);
    }
  }

  /** The bytes of one page: `n` from the file at `fa`, then zeros. */
  function PageImage(exe: seq<byte>, fa: nat, n: nat): seq<byte>
    requires n <= PAGESIZE && (n > 0 ==> fa + n <= |exe|)
  {
    if n == 0 then Repeated(0, PAGESIZE) else exe[fa..fa + n] + Repeated(0, PAGESIZE - n)
  }

  /** How many bytes of the page at `va` come from a file part that ends at `zva`. */
  function FromFile(va: nat, zva: nat, filesz: nat): nat {
    if va < Down(zva) then PAGESIZE else if va < zva && filesz > 0 then zva - va else 0
  }

  /** A piece of the file, which lies at `at` in the kernel, goes to user memory. */
  method CopyPiece(sp: Spaces, exe: seq<byte>, at: nat, pid: nat, va: nat, fa: nat, n: nat) returns (ghost ok: bool)
    requires sp.Valid() && 0 < pid < NUM_IDS && InUser(va, n) && fa + n <= |exe| && InKernel(at, |exe|)
    modifies sp`v, sp`use, sp.ct, sp.ct.at
    ensures sp.Valid() && Kept(old(sp.v), sp.v, pid, va, va + n) && (ok ==> Holds(sp.v, pid, va, exe[fa..fa + n]))
    ensures MapGrows(old(sp.v), sp.v, pid)
    ensures RangeMapped(old(sp.v), pid, va, n) ==> ok && sp.Room(pid) == old(sp.Room(pid))
  {
    hide Spaces.Valid, Spaces.Tables, Spaces.Room, Kept, Holds, RangeMapped, PageCount, MapGrows;
    CheckHolds(va, at + fa, n);
    var copied, left;
    copied, left, ok := CopyOut(sp, exe[fa..fa + n], at + fa, pid, va);
    assert exe[fa..fa + n][..n] == exe[fa..fa + n];
  }

  /** One page of a segment. */
  method LoadPage(sp: Spaces, exe: seq<byte>, at: nat, pid: nat, va: nat, fa: nat, zva: nat, filesz: nat, perm: nat)
    returns (ghost ok: bool, ghost got: bool)
    requires sp.Valid() && 0 < pid < NUM_IDS && UserVa(va) && va % PAGESIZE == 0 && va + PAGESIZE <= VM_USERHI &&
      perm < PAGESIZE && perm % 2 == 1
    requires InKernel(at, |exe|) && FromFile(va, zva, filesz) <= PAGESIZE &&
      (FromFile(va, zva, filesz) > 0 ==> fa + FromFile(va, zva, filesz) <= |exe|)
    modifies sp`v, sp`use, sp.ct, sp.ct.at
    ensures sp.Valid() && Kept(old(sp.v), sp.v, pid, va, va + PAGESIZE)
    ensures ok ==> Holds(sp.v, pid, va, PageImage(exe, fa, FromFile(va, zva, filesz)))
    ensures MapKept(old(sp.v), sp.v, pid, va, va + PAGESIZE) && (got ==> Rights(sp.v, pid, va, va + PAGESIZE, perm))
    ensures old(sp.Room(pid)) >= 2 ==> ok && got && sp.Room(pid) >= old(sp.Room(pid)) - 2
  {
    hide Spaces.Valid, Spaces.Tables, Containers.Valid, Backed, PtOk, MapOk, Spaces.Room, Kept, Holds, RangeMapped,
      PageCount, MapGrows, MapKept, Rights;
    ghost var v0 := sp.v;
    got := NewPage(sp, pid, va, perm);
    ghost var v1 := sp.v;
    var n;
    if va < Down(zva) {
      ok := CopyPiece(sp, exe, at, pid, va, fa, PAGESIZE);
      assert PageImage(exe, fa, PAGESIZE) == exe[fa..fa + PAGESIZE];
    } else if va < zva && filesz > 0 {
      ghost var ok1, ok2;
      n, ok1 := Memset(sp, pid, va, 0, PAGESIZE);
      ghost var v2 := sp.v;
      if ok1 { RangeSub(v2, pid, va, PAGESIZE, zva - va); }
      ok2 := CopyPiece(sp, exe, at, pid, va, fa, zva - va);
      ok := ok1 && ok2;
      KeptWiden(v2, sp.v, pid, va, zva, pid, va, va + PAGESIZE);
      KeptTrans(v1, v2, sp.v, pid, va, va + PAGESIZE);
      GrowsTrans(v1, v2, sp.v, pid);
      if ok { PaddedPage(v2, sp.v, pid, va, exe[fa..fa + (zva - va)]); }
    } else {
      n, ok := Memset(sp, pid, va, 0, PAGESIZE);
    }
    KeptTrans(v0, v1, sp.v, pid, va, va + PAGESIZE);
    GrowsKeeps(v1, sp.v, pid, pid, 0, 0);
    GrowsKeeps(v1, sp.v, pid, pid, va, va + PAGESIZE);
    MapKeptTrans(v0, v1, sp.v, pid, va, va + PAGESIZE);
    if got { RightsKept(v1, sp.v, pid, 0, 0, va, va + PAGESIZE, perm); }
  }

  lemma {:induction false} RangeSub(v: Vm, i: nat, va: nat, n: nat, m: nat)
    requires RangeMapped(v, i, va, n) && m <= n
    ensures RangeMapped(v, i, va, m)
  {
  }

  lemma {:induction false} PaddedPage(v: Vm, v': Vm, i: nat, va: nat, src: seq<byte>)
    requires 0 < i && |src| <= PAGESIZE && Holds(v, i, va, Repeated(0, PAGESIZE)) && Holds(v', i, va, src) &&
      Kept(v, v', i, va, va + |src|)
    ensures Holds(v', i, va, src + Repeated(0, PAGESIZE - |src|))
  {
    var pad := Repeated(0, PAGESIZE - |src|);
    var mid := va + |src|;
    forall wa: nat | mid <= wa < mid + |pad|
      ensures HoldsAt(v', i, mid, pad, wa)
    {
      assert HoldsAt(v, i, va, Repeated(0, PAGESIZE), wa) && SameByte(v, v', i, wa);
    }
    HoldsAppend(v', i, va, src, pad);
  }

  lemma {:induction false} Rounding(exe: seq<byte>, s: Segment)
    requires SegmentOk(exe, s)
    ensures First(s) % PAGESIZE == 0 && Past(s) % PAGESIZE == 0 && VM_USERLO <= First(s) <= s.va &&
      s.va + s.memsz <= Past(s) <= VM_USERHI
    ensures s.va - First(s) == s.offset - Down(s.offset) && Down(s.offset) <= s.offset
  {
  }

  /** How the file's part of a page ends. */
  lemma {:induction false} FileEnd(va: nat, zva: nat, filesz: nat)
    requires va % PAGESIZE == 0
    ensures var k := FromFile(va, zva, filesz);
      && k <= PAGESIZE && (k > 0 ==> va + k <= zva && (filesz > 0 || Down(zva) > va))
      && (k < PAGESIZE && filesz > 0 ==> zva <= va + k)
  {
  }

  lemma {:induction false} Aligned(a: nat, m: nat, b: nat)
    requires a % PAGESIZE == 0 && b % PAGESIZE == 0 && a + PAGESIZE * m < b
    ensures a + PAGESIZE * m + PAGESIZE <= b && (a + PAGESIZE * m) % PAGESIZE == 0
  {
  }

  /** The image grows by one page at a time, and never runs past the file. */
  lemma {:induction false} ImageStep(exe: seq<byte>, s: Segment, m: nat)
    requires SegmentOk(exe, s) && First(s) + PAGESIZE * m < Past(s)
    ensures First(s) + PAGESIZE * m + PAGESIZE <= Past(s) <= VM_USERHI && UserVa(First(s) + PAGESIZE * m) &&
      (First(s) + PAGESIZE * m) % PAGESIZE == 0
    ensures var n := PAGESIZE * m;
      var k := FromFile(First(s) + n, s.va + s.filesz, s.filesz);
      && k <= PAGESIZE && (k > 0 ==> Down(s.offset) + n + k <= |exe|)
      && Image(exe, s, n + PAGESIZE) == Image(exe, s, n) + PageImage(exe, Down(s.offset) + n, k)
  {
    hide Down, Up, First, Past, FromFile;
    var n := PAGESIZE * m;
    Rounding(exe, s);
    Aligned(First(s), m, Past(s));
    FileEnd(First(s) + n, s.va + s.filesz, s.filesz);
    NoFile(s, n);
    PageOfImage(exe, s, n, FromFile(First(s) + n, s.va + s.filesz, s.filesz));
  }

  /** Without a part in the file, no page has bytes from it. */
  lemma {:induction false} NoFile(s: Segment, n: nat)
    requires (First(s) + n) % PAGESIZE == 0
    ensures s.filesz == 0 ==> FromFile(First(s) + n, s.va + s.filesz, s.filesz) == 0
  {
  }

  lemma {:induction false} PageOfImage(exe: seq<byte>, s: Segment, n: nat, k: nat)
    requires SegmentOk(exe, s) && s.va - First(s) == s.offset - Down(s.offset) && k <= PAGESIZE &&
      (k > 0 ==> Down(s.offset) + n + k <= |exe|)
    requires (k > 0 ==> s.filesz > 0 && First(s) + n + k <= s.va + s.filesz) &&
      (k < PAGESIZE && s.filesz > 0 ==> s.va + s.filesz <= First(s) + n + k)
    ensures Image(exe, s, n + PAGESIZE) == Image(exe, s, n) + PageImage(exe, Down(s.offset) + n, k)
  {
    hide Down, Up, First, SegmentOk;
    var page := PageImage(exe, Down(s.offset) + n, k);
    forall o | 0 <= o < PAGESIZE
      ensures page[o] == ImageByte(exe, s, n + o)
    {
    }
  }

  function PagesOf(s: Segment): nat {
    (Past(s) - First(s)) / PAGESIZE
  }

  lemma {:induction false} PagesExact(s: Segment)
    ensures First(s) <= Past(s) && PAGESIZE * PagesOf(s) == Past(s) - First(s)
  {
  }

  /** A segment after `m` of its pages. */
  ghost predicate Loading(v0: Vm, room0: int, v: Vm, room: int, pid: nat, exe: seq<byte>, s: Segment, m: nat,
                          ok: bool) {
    && 0 < pid && SegmentOk(exe, s) && First(s) <= Past(s) && m <= PagesOf(s) && Kept(v0, v, pid, First(s), Past(s))
    && (ok ==> Holds(v, pid, First(s), Image(exe, s, PAGESIZE * m)))
    && (room0 >= 2 * PagesOf(s) ==> ok && room >= room0 - 2 * m)
  }

  lemma {:induction false} LoadingNone(v: Vm, room: int, pid: nat, exe: seq<byte>, s: Segment)
    requires Directories(v, v) && 0 < pid < NUM_IDS && SegmentOk(exe, s)
    ensures Loading(v, room, v, room, pid, exe, s, 0, true)
  {
    PagesExact(s);
    KeptSelf(v);
    KeptWiden(v, v, 0, 0, 0, pid, First(s), Past(s));
  }

  lemma {:induction false} LoadingNext(v0: Vm, room0: int, v: Vm, room: int, v': Vm, room': int, pid: nat,
                                       exe: seq<byte>, s: Segment, m: nat, ok: bool, ok': bool, va: nat,
                                       page: seq<byte>)
    requires Loading(v0, room0, v, room, pid, exe, s, m, ok) && va == First(s) + PAGESIZE * m &&
      va + PAGESIZE <= Past(s)
    requires Kept(v, v', pid, va, va + PAGESIZE) && (room >= 2 ==> ok' && room' >= room - 2)
    requires Image(exe, s, PAGESIZE * m + PAGESIZE) == Image(exe, s, PAGESIZE * m) + page &&
      (ok' ==> Holds(v', pid, va, page))
    ensures Loading(v0, room0, v', room', pid, exe, s, m + 1, ok && ok') && (room0 >= 2 * PagesOf(s) ==> room >= 2)
  {
    PagesExact(s);
    assert PAGESIZE * m + PAGESIZE == PAGESIZE * (m + 1);
    hide Kept, Holds, Down, Up, PagesOf, Image, First, Past, SegmentOk;
    KeptWiden(v, v', pid, va, va + PAGESIZE, pid, First(s), Past(s));
    KeptTrans(v0, v, v', pid, First(s), Past(s));
    if ok && ok' {
      KeptHolds(v, v', pid, va, va + PAGESIZE, First(s), Image(exe, s, PAGESIZE * m));
      HoldsAppend(v', pid, First(s), Image(exe, s, PAGESIZE * m), page);
    }
  }

  /** The mappings of a segment after `m` of its pages, all of them new ones if `got`. */
  ghost predicate Mapping(v0: Vm, room0: int, v: Vm, pid: nat, s: Segment, m: nat, got: bool) {
    && First(s) <= Past(s) && MapKept(v0, v, pid, First(s), Past(s))
    && (got ==> Rights(v, pid, First(s), First(s) + PAGESIZE * m, RightsOf(s)))
    && (room0 >= 2 * PagesOf(s) ==> got)
  }

  lemma {:induction false} MappingNone(v: Vm, room: int, pid: nat, s: Segment)
    requires Directories(v, v) && 0 < pid < NUM_IDS
    ensures Mapping(v, room, v, pid, s, 0, true)
  {
    PagesExact(s);
    MapKeptSelf(v, pid, First(s), Past(s));
  }

  lemma {:induction false} MappingNext(v0: Vm, room0: int, v: Vm, v': Vm, pid: nat, s: Segment, m: nat, got: bool,
                                       got': bool, va: nat)
    requires Mapping(v0, room0, v, pid, s, m, got) && va == First(s) + PAGESIZE * m && va + PAGESIZE <= Past(s) &&
      0 < pid
    requires MapKept(v, v', pid, va, va + PAGESIZE) && (got' ==> Rights(v', pid, va, va + PAGESIZE, RightsOf(s)))
    requires room0 >= 2 * PagesOf(s) ==> got'
    ensures Mapping(v0, room0, v', pid, s, m + 1, got && got')
  {
    hide MapKept, Rights, First, Past, PagesOf;
    assert va + PAGESIZE == First(s) + PAGESIZE * (m + 1);
    MapKeptWiden(v, v', pid, va, va + PAGESIZE, First(s), Past(s));
    MapKeptTrans(v0, v, v', pid, First(s), Past(s));
    if got && got' {
      RightsKept(v, v', pid, va, va + PAGESIZE, First(s), va, RightsOf(s));
      RightsMore(v', pid, First(s), va, va + PAGESIZE, RightsOf(s));
    }
  }

  /**
   * `elf_load`, one segment: if its pages can be had, the process finds the segment's image, with the rights the
   * segment asks for.
   */
  method LoadSegment(sp: Spaces, exe: seq<byte>, at: nat, pid: nat,
                     s: Segment) returns (ghost ok: bool, ghost got: bool)
    requires sp.Valid() && 0 < pid < NUM_IDS && SegmentOk(exe, s) && InKernel(at, |exe|)
    modifies sp`v, sp`use, sp.ct, sp.ct.at
    ensures sp.Valid() && First(s) <= Past(s) && Kept(old(sp.v), sp.v, pid, First(s), Past(s))
    ensures ok ==> Holds(sp.v, pid, First(s), Image(exe, s, Past(s) - First(s)))
    ensures MapKept(old(sp.v), sp.v, pid, First(s), Past(s)) &&
      (got ==> Rights(sp.v, pid, First(s), Past(s), PTE_U + PTE_P + if s.writable then PTE_W else 0))
    ensures old(sp.Room(pid)) >= 2 * PagesOf(s) ==> ok && got && sp.Room(pid) >= old(sp.Room(pid)) - 2 * PagesOf(s)
  {
    hide Spaces.Valid, Spaces.Tables, Spaces.Room, Kept, Holds, FromFile, Down, Up, PagesOf, Image, PageImage, First,
      Past, Loading, SegmentOk, MapKept, Rights, Mapping;
    ValidDirectories(sp);
    PagesExact(s);
    var fa, va := Down(s.offset), First(s);
    var zva, eva := s.va + s.filesz, Past(s);
    var perm := PTE_U + PTE_P;
    if s.writable { perm := perm + PTE_W; }
    ok, got := true, true;
    ghost var v0, room0, m := sp.v, sp.Room(pid), 0;
    LoadingNone(v0, room0, pid, exe, s);
    MappingNone(v0, room0, pid, s);
    while va < eva
      invariant sp.Valid() && va == First(s) + PAGESIZE * m <= eva == Past(s) && fa == Down(s.offset) + PAGESIZE * m
      invariant Loading(v0, room0, sp.v, sp.Room(pid), pid, exe, s, m, ok) && Mapping(v0, room0, sp.v, pid, s, m, got)
      decreases eva - va
    {
      ghost var v1, room1 := sp.v, sp.Room(pid);
      ImageStep(exe, s, m);
      ghost var ok1, got1;
      ok1, got1 := LoadPage(sp, exe, at, pid, va, fa, zva, s.filesz, perm);
      LoadingNext(v0, room0, v1, room1, sp.v, sp.Room(pid), pid, exe, s, m, ok, ok1, va,
        PageImage(exe, fa, FromFile(va, zva, s.filesz)));
      MappingNext(v0, room0, v1, sp.v, pid, s, m, got, got1, va);
      ok, got := ok && ok1, got && got1;
      va, fa, m := va + PAGESIZE, fa + PAGESIZE, m + 1;
    }
    LoadingAll(v0, room0, sp.v, sp.Room(pid), pid, exe, s, m, ok);
    MappingAll(v0, room0, sp.v, pid, s, m, got);
  }

  lemma {:induction false} MappingAll(v0: Vm, room0: int, v: Vm, pid: nat, s: Segment, m: nat, got: bool)
    requires Mapping(v0, room0, v, pid, s, m, got) && First(s) + PAGESIZE * m == Past(s)
    ensures MapKept(v0, v, pid, First(s), Past(s)) && (got ==> Rights(v, pid, First(s), Past(s), RightsOf(s)))
    ensures room0 >= 2 * PagesOf(s) ==> got
  {
  }

  lemma {:induction false} LoadingAll(v0: Vm, room0: int, v: Vm, room: int, pid: nat, exe: seq<byte>, s: Segment,
                                      m: nat, ok: bool)
    requires Loading(v0, room0, v, room, pid, exe, s, m, ok) && First(s) + PAGESIZE * m == Past(s)
    ensures First(s) <= Past(s) && Kept(v0, v, pid, First(s), Past(s)) &&
      (ok ==> Holds(v, pid, First(s), Image(exe, s, Past(s) - First(s))))
    ensures room0 >= 2 * PagesOf(s) ==> ok && room >= room0 - 2 * PagesOf(s)
  {
    PagesExact(s);
  }

  /** No page belongs to two loadable segments. */
  ghost predicate Apart(segs: seq<Segment>) {
    forall a, b | 0 <= a < b < |segs| && segs[a].load && segs[b].load ::
      Past(segs[a]) <= First(segs[b]) || Past(segs[b]) <= First(segs[a])
  }

  function TotalPages(segs: seq<Segment>, n: nat): nat
    requires n <= |segs|
  {
    if n == 0 then 0 else TotalPages(segs, n - 1) + if segs[n - 1].load then PagesOf(segs[n - 1]) else 0
  }

  ghost predicate ImageHeld(v: Vm, pid: nat, exe: seq<byte>, s: Segment) {
    First(s) <= Past(s) && (s.load ==> SegmentOk(exe, s) && Holds(v, pid, First(s), Image(exe, s, Past(s) - First(s))))
  }

  ghost predicate RightsHeld(v: Vm, pid: nat, s: Segment) {
    s.load ==> Rights(v, pid, First(s), Past(s), RightsOf(s))
  }

  /**
   * `elf_load`.  If memory suffices, the process finds every loadable segment: the file's bytes,
   * then zeros up to its size in memory, in pages that it can write exactly if the segment is
   * writable.  No other process finds anything changed in any case.
   */
  method Load(sp: Spaces, exe: seq<byte>, at: nat, segs: seq<Segment>,
              pid: nat) returns (ghost ok: bool, ghost got: bool)
    requires sp.Valid() && 0 < pid < NUM_IDS && Apart(segs) && InKernel(at, |exe|)
    requires forall k | 0 <= k < |segs| :: segs[k].load ==> SegmentOk(exe, segs[k])
    modifies sp`v, sp`use, sp.ct, sp.ct.at
    ensures sp.Valid() && Kept(old(sp.v), sp.v, pid, VM_USERLO, VM_USERHI)
    ensures MapKept(old(sp.v), sp.v, pid, VM_USERLO, VM_USERHI)
    ensures old(sp.Room(pid)) >= 2 * TotalPages(segs, |segs|) ==> ok && got
    ensures got ==> forall k | 0 <= k < |segs| :: segs[k].load ==>
      Rights(sp.v, pid, First(segs[k]), Past(segs[k]), PTE_U + PTE_P + if segs[k].writable then PTE_W else 0)
    ensures ok ==> forall k | 0 <= k < |segs| :: segs[k].load ==> Loaded(sp.v, pid, exe, segs[k])
  {
    hide Spaces.Valid, Spaces.Tables, Spaces.Room, Kept, Holds, Loaded, First, Past, PagesOf, SegmentOk, Image, MapKept,
      Rights;
    ValidDirectories(sp);
    KeptSelf(sp.v);
    KeptWiden(sp.v, sp.v, 0, 0, 0, pid, VM_USERLO, VM_USERHI);
    MapKeptSelf(sp.v, pid, VM_USERLO, VM_USERHI);
    ok, got := true, true;
    ghost var v0 := sp.v;
    var i := 0;
    while i < |segs|
      invariant sp.Valid() && i <= |segs| && Kept(v0, sp.v, pid, VM_USERLO, VM_USERHI) &&
        MapKept(v0, sp.v, pid, VM_USERLO, VM_USERHI)
      invariant got ==> forall k | 0 <= k < i :: RightsHeld(sp.v, pid, segs[k])
      invariant old(sp.Room(pid)) >= 2 * TotalPages(segs, |segs|) ==>
        ok && got && sp.Room(pid) >= old(sp.Room(pid)) - 2 * TotalPages(segs, i)
      invariant ok ==> forall k | 0 <= k < i :: ImageHeld(sp.v, pid, exe, segs[k])
    {
      PagesExact(segs[i]);
      if segs[i].load {
        ghost var v1 := sp.v;
        TotalMono(segs, i + 1, |segs|);
        InUserMemory(exe, segs[i]);
        ghost var ok1, got1;
        ok1, got1 := LoadSegment(sp, exe, at, pid, segs[i]);
        KeptWiden(v1, sp.v, pid, First(segs[i]), Past(segs[i]), pid, VM_USERLO, VM_USERHI);
        KeptTrans(v0, v1, sp.v, pid, VM_USERLO, VM_USERHI);
        MapKeptWiden(v1, sp.v, pid, First(segs[i]), Past(segs[i]), VM_USERLO, VM_USERHI);
        MapKeptTrans(v0, v1, sp.v, pid, VM_USERLO, VM_USERHI);
        if got {
          forall k | 0 <= k < i
            ensures RightsHeld(sp.v, pid, segs[k])
          {
            assert RightsHeld(v1, pid, segs[k]);
            if segs[k].load {
              RightsKept(v1, sp.v, pid, First(segs[i]), Past(segs[i]), First(segs[k]), Past(segs[k]),
                RightsOf(segs[k]));
            }
          }
        }
        if ok {
          forall k | 0 <= k < i
            ensures ImageHeld(sp.v, pid, exe, segs[k])
          {
            assert ImageHeld(v1, pid, exe, segs[k]);
            if segs[k].load {
              KeptHolds(v1, sp.v, pid, First(segs[i]), Past(segs[i]), First(segs[k]),
                Image(exe, segs[k], Past(segs[k]) - First(segs[k])));
            }
          }
        }
        ok, got := ok && ok1, got && got1;
      }
      i := i + 1;
    }
    if got {
      forall k | 0 <= k < |segs| && segs[k].load
        ensures Rights(sp.v, pid, First(segs[k]), Past(segs[k]), RightsOf(segs[k]))
      {
        assert RightsHeld(sp.v, pid, segs[k]);
      }
    }
    if ok {
      forall k | 0 <= k < |segs| && segs[k].load
        ensures Loaded(sp.v, pid, exe, segs[k])
      {
        assert ImageHeld(sp.v, pid, exe, segs[k]);
        ImageLoads(sp.v, pid, exe, segs[k]);
      }
    }
  }

  lemma {:induction false} InUserMemory(exe: seq<byte>, s: Segment)
    requires SegmentOk(exe, s)
    ensures VM_USERLO <= First(s) <= Past(s) <= VM_USERHI
  {
  }

  lemma {:induction false} TotalMono(segs: seq<Segment>, m: nat, n: nat)
    requires m <= n <= |segs|
    ensures TotalPages(segs, m) <= TotalPages(segs, n)
  {
    if m < n { TotalMono(segs, m, n - 1); }
  }
}
