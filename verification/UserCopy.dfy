/**
 * Copying between kernel buffers and user memory, page by page through the
 * page tables, mapping pages that are missing on the way.
 */
module UserCopy {
  import opened Sectors
  import opened Frames
  import opened PageAlloc
  import opened Containers
  import opened PageTables
  import opened AddressSpaces

  const VM_USERLO := 0x4000_0000
  const VM_USERHI := 0xF000_0000
  const PTE_P := 1
  const PTE_W := 2
  const PTE_U := 4

  predicate UserVa(va: nat) {
    VM_USERLO <= va < VM_USERHI
  }

  function Translate(v: Vm, i: nat, va: nat): nat
    requires |v.pdir| == NUM_IDS && i < NUM_IDS && |v.pdir[i]| == ENTRIES && UserVa(va)
  {
    Entry(v, i, Pdx(va), Ptx(va))
  }

  /** The address is mapped: its entry has the present bit. */
  predicate Present(v: Vm, i: nat, va: nat)
    requires |v.pdir| == NUM_IDS && i < NUM_IDS && |v.pdir[i]| == ENTRIES && UserVa(va)
  {
    Translate(v, i, va) % 2 == 1
  }

  /** The byte a process finds at a mapped address. */
  function UserByte(v: Vm, i: nat, va: nat): byte
    requires |v.pdir| == NUM_IDS && i < NUM_IDS && |v.pdir[i]| == ENTRIES && UserVa(va)
  {
    var p := Translate(v, i, va) / PAGESIZE;
    if p < |v.mem| then v.mem[p].bytes[va % PAGESIZE] else 0
  }

  /** Process `x` finds at `wa` what it found before, if it found anything. */
  predicate SameByte(v: Vm, v': Vm, x: nat, wa: nat)
    requires |v.pdir| == |v'.pdir| == NUM_IDS && x < NUM_IDS && |v.pdir[x]| == |v'.pdir[x]| == ENTRIES && UserVa(wa)
  {
    Present(v, x, wa) ==> Present(v', x, wa) && UserByte(v', x, wa) == UserByte(v, x, wa)
  }

  predicate Directories(v: Vm, v': Vm) {
    |v.pdir| == |v'.pdir| == NUM_IDS && forall x | 0 <= x < NUM_IDS :: |v.pdir[x]| == |v'.pdir[x]| == ENTRIES
  }

  /** Which addresses are mapped has not changed, except in the page of `va`. */
  ghost predicate SamePresence(v: Vm, v': Vm, i: nat, va: nat) {
    && Directories(v, v')
    && forall x: nat, wa: nat | 0 < x < NUM_IDS && UserVa(wa)
    && !(x == i && wa / PAGESIZE == va / PAGESIZE) :: EquallyPresent(v, v', x, wa)
  }

  predicate EquallyPresent(v: Vm, v': Vm, x: nat, wa: nat)
    requires |v.pdir| == |v'.pdir| == NUM_IDS && x < NUM_IDS && |v.pdir[x]| == |v'.pdir[x]| == ENTRIES && UserVa(wa)
  {
    Present(v', x, wa) == Present(v, x, wa)
  }

  /** Process `i` has all `n` addresses from `lo` mapped. */
  ghost predicate RangeMapped(v: Vm, i: nat, lo: nat, n: nat) {
    && |v.pdir| == NUM_IDS && i < NUM_IDS && |v.pdir[i]| == ENTRIES
    && forall wa: nat | lo <= wa < lo + n :: UserVa(wa) && Present(v, i, wa)
  }

  lemma {:induction false} SameMapPresence(v: Vm, v': Vm, i: nat, va: nat)
    requires SameMap(v, v')
    ensures SamePresence(v, v', i, va) && (0 < i < NUM_IDS && UserVa(va) ==> EquallyPresent(v, v', i, va))
  {
    forall x: nat, wa: nat | 0 < x < NUM_IDS && UserVa(wa)
      ensures EquallyPresent(v, v', x, wa)
    {
      SamePage(wa, wa);
      assert SameEntry(v, v', x, Pdx(wa), Ptx(wa));
    }
  }

  lemma {:induction false} UpdatedPresence(v: Vm, v': Vm, i: nat, va: nat, e: nat)
    requires UserVa(va) && Updated(v, v', i, Pdx(va), Ptx(va), e)
    ensures SamePresence(v, v', i, va)
  {
    forall x: nat, wa: nat | 0 < x < NUM_IDS && UserVa(wa) && !(x == i && wa / PAGESIZE == va / PAGESIZE)
      ensures EquallyPresent(v, v', x, wa)
    {
      SamePage(va, wa);
      SamePage(wa, va);
      assert SameEntry(v, v', x, Pdx(wa), Ptx(wa));
    }
  }

  lemma {:induction false} PresenceTrans(v: Vm, v1: Vm, v2: Vm, i: nat, va: nat)
    requires SamePresence(v, v1, i, va) && SamePresence(v1, v2, i, va)
    ensures SamePresence(v, v2, i, va)
  {
    forall x: nat, wa: nat | 0 < x < NUM_IDS && UserVa(wa) && !(x == i && wa / PAGESIZE == va / PAGESIZE)
      ensures EquallyPresent(v, v2, x, wa)
    {
      assert EquallyPresent(v, v1, x, wa) && EquallyPresent(v1, v2, x, wa);
    }
  }

  /** A mapping stays as it is, rights and all; one that is new is process `i`'s, for the user to read and write. */
  predicate EntryGrows(v: Vm, v': Vm, i: nat, x: nat, wa: nat)
    requires |v.pdir| == |v'.pdir| == NUM_IDS && x < NUM_IDS && |v.pdir[x]| == |v'.pdir[x]| == ENTRIES && UserVa(wa)
  {
    if Present(v, x, wa) then Translate(v', x, wa) == Translate(v, x, wa)
    else Present(v', x, wa) ==> x == i && Translate(v', x, wa) % PAGESIZE == PTE_P + PTE_W + PTE_U
  }

  ghost predicate MapGrows(v: Vm, v': Vm, i: nat) {
    Directories(v, v') && forall x: nat, wa: nat | 0 < x < NUM_IDS && UserVa(wa) :: EntryGrows(v, v', i, x, wa)
  }

  lemma {:induction false} GrowsSelf(v: Vm, i: nat)
    requires Directories(v, v)
    ensures MapGrows(v, v, i)
  {
  }

  lemma {:induction false} GrowsTrans(v: Vm, v1: Vm, v2: Vm, i: nat)
    requires MapGrows(v, v1, i) && MapGrows(v1, v2, i)
    ensures MapGrows(v, v2, i)
  {
    hide Translate;
    forall x: nat, wa: nat | 0 < x < NUM_IDS && UserVa(wa)
      ensures EntryGrows(v, v2, i, x, wa)
    {
      assert EntryGrows(v, v1, i, x, wa) && EntryGrows(v1, v2, i, x, wa);
    }
  }

  lemma {:induction false} SameMapGrows(v: Vm, v': Vm, i: nat)
    requires SameMap(v, v')
    ensures MapGrows(v, v', i)
  {
    forall x: nat, wa: nat | 0 < x < NUM_IDS && UserVa(wa)
      ensures EntryGrows(v, v', i, x, wa)
    {
      SamePage(wa, wa);
      assert SameEntry(v, v', x, Pdx(wa), Ptx(wa));
    }
  }

  lemma {:induction false} UpdatedGrows(v: Vm, v': Vm, i: nat, va: nat, p: nat)
    requires i < NUM_IDS && UserVa(va) && Updated(v, v', i, Pdx(va), Ptx(va), p * PAGESIZE + (PTE_P + PTE_W + PTE_U))
    requires |v.pdir| == NUM_IDS && |v.pdir[i]| == ENTRIES && !Present(v, i, va)
    ensures MapGrows(v, v', i)
  {
    forall x: nat, wa: nat | 0 < x < NUM_IDS && UserVa(wa)
      ensures EntryGrows(v, v', i, x, wa)
    {
      SamePage(wa, va);
      SamePage(va, wa);
      if !(x == i && Pdx(wa) == Pdx(va) && Ptx(wa) == Ptx(va)) { assert SameEntry(v, v', x, Pdx(wa), Ptx(wa)); }
    }
  }

  /** No process finds anything changed, but for process `i` between `lo` and `hi`. */
  ghost predicate Kept(v: Vm, v': Vm, i: nat, lo: nat, hi: nat) {
    && Directories(v, v')
    && forall x: nat, wa: nat | 0 < x < NUM_IDS && UserVa(wa) && !(x == i && lo <= wa < hi) :: SameByte(v, v', x, wa)
  }

  /** Process `i` finds `src` at `lo`. */
  ghost predicate Holds(v: Vm, i: nat, lo: nat, src: seq<byte>) {
    && |v.pdir| == NUM_IDS && i < NUM_IDS && |v.pdir[i]| == ENTRIES
    && forall wa: nat | lo <= wa < lo + |src| :: HoldsAt(v, i, lo, src, wa)
  }

  predicate HoldsAt(v: Vm, i: nat, lo: nat, src: seq<byte>, wa: nat)
    requires |v.pdir| == NUM_IDS && i < NUM_IDS && |v.pdir[i]| == ENTRIES && lo <= wa < lo + |src|
  {
    UserVa(wa) && Present(v, i, wa) && UserByte(v, i, wa) == src[wa - lo]
  }

  lemma {:induction false} KeptTrans(v: Vm, v1: Vm, v2: Vm, i: nat, lo: nat, hi: nat)
    requires Kept(v, v1, i, lo, hi) && Kept(v1, v2, i, lo, hi)
    ensures Kept(v, v2, i, lo, hi)
  {
    forall x: nat, wa: nat | 0 < x < NUM_IDS && UserVa(wa) && !(x == i && lo <= wa < hi)
      ensures SameByte(v, v2, x, wa)
    {
      assert SameByte(v, v1, x, wa) && SameByte(v1, v2, x, wa);
    }
  }

  lemma {:induction false} KeptHolds(v: Vm, v': Vm, i: nat, lo: nat, hi: nat, at: nat, src: seq<byte>)
    requires Kept(v, v', i, lo, hi) && Holds(v, i, at, src) && 0 < i && (at + |src| <= lo || hi <= at || hi <= lo)
    ensures Holds(v', i, at, src)
  {
    forall wa: nat | at <= wa < at + |src|
      ensures HoldsAt(v', i, at, src, wa)
    {
      assert HoldsAt(v, i, at, src, wa) && SameByte(v, v', i, wa);
    }
  }

  lemma {:induction false} HoldsAppend(v: Vm, i: nat, lo: nat, src: seq<byte>, more: seq<byte>)
    requires Holds(v, i, lo, src) && Holds(v, i, lo + |src|, more)
    ensures Holds(v, i, lo, src + more)
  {
    forall wa: nat | lo <= wa < lo + |src + more|
      ensures HoldsAt(v, i, lo, src + more, wa)
    {
      if wa < lo + |src| { assert HoldsAt(v, i, lo, src, wa); } else { assert HoldsAt(v, i, lo + |src|, more, wa); }
    }
  }

  /** Addresses with the same indices lie in the same page. */
  lemma {:induction false} SamePage(va: nat, wa: nat)
    requires UserVa(va)
    ensures UserSlot(Pdx(va)) && Ptx(va) < ENTRIES && va / PAGESIZE == Pdx(va) * 1024 + Ptx(va)
    ensures UserVa(wa) && Pdx(va) == Pdx(wa) && Ptx(va) == Ptx(wa) ==> va / PAGESIZE == wa / PAGESIZE
    ensures va / PAGESIZE == wa / PAGESIZE ==> Pdx(va) == Pdx(wa) && Ptx(va) == Ptx(wa)
  {
    assert va / (4096 * 1024) == va / 4096 / 1024;
    assert wa / (4096 * 1024) == wa / 4096 / 1024;
  }

  /** Writing a page that is no page table leaves the whole map as it was. */
  lemma {:induction false} PutPageSameMap(v: Vm, use: seq<Use>, id0: nat, p: nat, page: Page)
    requires PtOk(v, use, id0) && MapOk(v, use) && p < NFRAMES && (p == 0 || use[p].Data?)
    ensures var v' := PutPage(v, p, page); PtOk(v', use, id0) && MapOk(v', use) && SameMap(v, v')
  {
    assert UseOk(v, use, p);
    PutPageKeeps(v, use, id0, p, page);
    var v' := PutPage(v, p, page);
    forall x: nat, y: nat, z: nat | x < NUM_IDS && y < ENTRIES && z < ENTRIES
      ensures SameEntry(v, v', x, y, z)
    {
      assert TableOk(v, use, id0, x, y);
    }
    forall x: nat, y: nat, z: nat | 0 < x < NUM_IDS && UserSlot(y) && z < ENTRIES
      ensures EntryOk(v', use, x, y, z)
    {
      assert EntryOk(v, use, x, y, z) && SameEntry(v, v', x, y, z);
    }
    forall q: nat | q < NFRAMES
      ensures DataOk(v', use, q)
    {
      assert DataOk(v, use, q);
      if use[q].Data? { assert SameEntry(v, v', use[q].i, use[q].j, use[q].k); }
    }
  }

  /** A store through the entry of `va` is found by nobody at any other address. */
  lemma {:induction false} PutElsewhere(v: Vm, use: seq<Use>, i: nat, va: nat, src: seq<byte>, p: nat, x: nat, wa: nat)
    requires MapOk(v, use) && 0 < i < NUM_IDS && UserVa(va) && Present(v, i, va) && va % PAGESIZE + |src| <= PAGESIZE &&
      p == Translate(v, i, va) / PAGESIZE < NFRAMES
    requires var v' := PutPage(v, p, PutBytes(v.mem[p], va % PAGESIZE, src));
      SameMap(v, v') && |v'.pdir| == NUM_IDS && x < NUM_IDS && |v'.pdir[x]| == |v.pdir[x]| == ENTRIES
    requires 0 < x && UserVa(wa) && !(x == i && va <= wa < va + |src|)
    ensures SameByte(v, PutPage(v, p, PutBytes(v.mem[p], va % PAGESIZE, src)), x, wa)
  {
    var v' := PutPage(v, p, PutBytes(v.mem[p], va % PAGESIZE, src));
    SamePage(wa, va);
    SamePage(va, wa);
    assert SameEntry(v, v', x, Pdx(wa), Ptx(wa)) && EntryOk(v, use, x, Pdx(wa), Ptx(wa)) &&
      EntryOk(v, use, i, Pdx(va), Ptx(va));
    hide MapOk, SameMap;
  }

  /** Bytes put through a present entry are found at that address, and nobody finds anything else changed. */
  lemma {:induction false} PutSeen(v: Vm, use: seq<Use>, id0: nat, i: nat, va: nat, src: seq<byte>)
    requires PtOk(v, use, id0) && MapOk(v, use) && 0 < i < NUM_IDS && UserVa(va) && Present(v, i, va) &&
      va % PAGESIZE + |src| <= PAGESIZE
    ensures var p := Translate(v, i, va) / PAGESIZE;
      && p < NFRAMES
      && var v' := PutPage(v, p, PutBytes(v.mem[p], va % PAGESIZE, src));
      PtOk(v', use, id0) && MapOk(v', use) && SameMap(v, v') && Kept(v, v', i, va, va + |src|) &&
        (va + |src| <= VM_USERHI ==> Holds(v', i, va, src))
  {
    hide PtOk, PutBytes;
    SamePage(va, va);
    assert EntryOk(v, use, i, Pdx(va), Ptx(va));
    var p := Translate(v, i, va) / PAGESIZE;
    var page := PutBytes(v.mem[p], va % PAGESIZE, src);
    var v' := PutPage(v, p, page);
    PutPageSameMap(v, use, id0, p, page);
    forall x: nat, wa: nat | 0 < x < NUM_IDS && UserVa(wa) && !(x == i && va <= wa < va + |src|)
      ensures SameByte(v, v', x, wa)
    {
      PutElsewhere(v, use, i, va, src, p, x, wa);
    }
    if va + |src| <= VM_USERHI { PutHeld(v, i, va, src, p); }
  }

  lemma {:induction false} PutHeld(v: Vm, i: nat, va: nat, src: seq<byte>, p: nat)
    requires |v.pdir| == NUM_IDS && i < NUM_IDS && |v.pdir[i]| == ENTRIES && UserVa(va) && Present(v, i, va) &&
      va % PAGESIZE + |src| <= PAGESIZE && va + |src| <= VM_USERHI
    requires p == Translate(v, i, va) / PAGESIZE < NFRAMES == |v.mem| &&
      SameMap(v, PutPage(v, p, PutBytes(v.mem[p], va % PAGESIZE, src)))
    ensures Holds(PutPage(v, p, PutBytes(v.mem[p], va % PAGESIZE, src)), i, va, src)
  {
    var v' := PutPage(v, p, PutBytes(v.mem[p], va % PAGESIZE, src));
    SamePage(va, va);
    assert SameEntry(v, v', i, Pdx(va), Ptx(va));
    forall wa: nat | va <= wa < va + |src|
      ensures HoldsAt(v', i, va, src, wa)
    {
      SamePage(va, wa);
    }
  }

  /** A write through an entry that is not present, to page 0 for want of any, is found by nobody. */
  lemma {:induction false} PutUnseen(v: Vm, use: seq<Use>, id0: nat, i: nat, va: nat, src: seq<byte>)
    requires PtOk(v, use, id0) && MapOk(v, use) && 0 < i < NUM_IDS && UserVa(va) && !Present(v, i, va) &&
      va % PAGESIZE + |src| <= PAGESIZE
    ensures var p := Translate(v, i, va) / PAGESIZE;
      && p < NFRAMES
      && var v' := PutPage(v, p, PutBytes(v.mem[p], va % PAGESIZE, src));
      PtOk(v', use, id0) && MapOk(v', use) && SameMap(v, v') && Kept(v, v', 0, 0, 0)
  {
    SamePage(va, va);
    assert EntryOk(v, use, i, Pdx(va), Ptx(va));
    var p := Translate(v, i, va) / PAGESIZE;
    var page := PutBytes(v.mem[p], va % PAGESIZE, src);
    PutPageSameMap(v, use, id0, p, page);
    var v' := PutPage(v, p, page);
    assert UseOk(v, use, 0);
    hide PtOk;
    forall x: nat, wa: nat | 0 < x < NUM_IDS && UserVa(wa)
      ensures SameByte(v, v', x, wa)
    {
      SamePage(wa, va);
      assert SameEntry(v, v', x, Pdx(wa), Ptx(wa)) && EntryOk(v, use, x, Pdx(wa), Ptx(wa));
    }
  }

  /** Mapping a fresh page at an address that was not mapped changes nothing anyone finds. */
  lemma {:induction false} MapSeen(v: Vm, use: seq<Use>, v': Vm, i: nat, va: nat, e: nat)
    requires MapOk(v, use) && 0 < i < NUM_IDS && UserVa(va) && !Present(v, i, va)
    requires Updated(v, v', i, Pdx(va), Ptx(va), e) && DataKept(v, v', use)
    ensures Kept(v, v', 0, 0, 0)
  {
    forall x: nat, wa: nat | 0 < x < NUM_IDS && UserVa(wa)
      ensures SameByte(v, v', x, wa)
    {
      SamePage(wa, va);
      SamePage(va, wa);
      if !(x == i && Pdx(wa) == Pdx(va) && Ptx(wa) == Ptx(va)) { assert SameEntry(v, v', x, Pdx(wa), Ptx(wa)); }
      assert EntryOk(v, use, x, Pdx(wa), Ptx(wa));
    }
  }

  lemma {:induction false} KeptSelf(v: Vm)
    requires Directories(v, v)
    ensures Kept(v, v, 0, 0, 0)
  {
  }

  lemma {:induction false} KeptWiden(v: Vm, v': Vm, i: nat, lo: nat, hi: nat, j: nat, lo': nat, hi': nat)
    requires Kept(v, v', i, lo, hi) && (hi <= lo || (j == i && lo' <= lo && hi <= hi'))
    ensures Kept(v, v', j, lo', hi')
  {
  }

  lemma {:induction false} LowBits(p: nat, perm: nat)
    requires perm < PAGESIZE
    ensures (p * PAGESIZE + perm) % PAGESIZE == perm && (p * PAGESIZE + perm) % 2 == perm % 2
  {
  }

  lemma {:induction false} UpdatedEntry(v: Vm, v': Vm, i: nat, va: nat, p: nat, perm: nat)
    requires UserVa(va) && Updated(v, v', i, Pdx(va), Ptx(va), p * PAGESIZE + perm) && perm < PAGESIZE && perm % 2 == 1
    ensures |v'.pdir| == NUM_IDS && i < NUM_IDS && |v'.pdir[i]| == ENTRIES && Present(v', i, va) &&
      Translate(v', i, va) % PAGESIZE == perm
  {
    hide Updated, Pdx, Ptx;
    EntryIs(v, v', i, Pdx(va), Ptx(va), p * PAGESIZE + perm);
    LowBits(p, perm);
  }

  lemma {:induction false} EntryIs(v: Vm, v': Vm, i: nat, j: nat, k: nat, e: nat)
    requires Updated(v, v', i, j, k, e)
    ensures |v'.pdir| == NUM_IDS && i < NUM_IDS && |v'.pdir[i]| == ENTRIES && j < ENTRIES && k < ENTRIES &&
      Entry(v', i, j, k) == e
  {
  }

  /** The start of each round: look the address up, and map a page if there is none. */
  method Reach(sp: Spaces, i: nat, va: nat) returns (e: nat)
    requires sp.Valid() && 0 < i < NUM_IDS && UserVa(va)
    modifies sp`v, sp`use, sp.ct, sp.ct.at
    ensures sp.Valid() && Directories(sp.v, sp.v) && e == Translate(sp.v, i, va) && Kept(old(sp.v), sp.v, 0, 0, 0) &&
      SamePresence(old(sp.v), sp.v, i, va) && MapGrows(old(sp.v), sp.v, i)
    ensures Directories(old(sp.v), old(sp.v)) && Present(old(sp.v), i, va) ==>
      sp.v == old(sp.v) && sp.Room(i) == old(sp.Room(i))
    ensures old(sp.Room(i)) >= 2 ==> e % 2 == 1 && sp.Room(i) >= old(sp.Room(i)) - 2
  {
    hide Containers.Valid, FreeAbove, PtOk, MapOk, Kept, Updated, DataKept, MapGrows;
    ValidDirectories(sp);
    SamePage(va, va);
    e := Translate(sp.v, i, va);
    KeptSelf(sp.v);
    GrowsSelf(sp.v, i);
    if e % 2 == 0 {
      ghost var v0, use0 := sp.v, sp.use;
      var r := sp.AllocPage(i, va, PTE_P + PTE_U + PTE_W);
      if r != MAGIC {
        ghost var p: nat :| Updated(v0, sp.v, i, Pdx(va), Ptx(va), p * PAGESIZE + 7);
        MapSeen(v0, use0, sp.v, i, va, p * PAGESIZE + 7);
        UpdatedPresence(v0, sp.v, i, va, p * PAGESIZE + 7);
        UpdatedEntry(v0, sp.v, i, va, p, 7);
        UpdatedGrows(v0, sp.v, i, va, p);
      }
      e := Translate(sp.v, i, va);
    }
  }

  /** The part of one page: `src` goes to `va`, if the page can be had. */
  method Store(sp: Spaces, i: nat, va: nat, src: seq<byte>) returns (ghost ok: bool)
    requires sp.Valid() && 0 < i < NUM_IDS && UserVa(va) && va % PAGESIZE + |src| <= PAGESIZE && va + |src| <= VM_USERHI
    modifies sp`v, sp`use, sp.ct, sp.ct.at
    ensures sp.Valid() && Kept(old(sp.v), sp.v, i, va, va + |src|) && SamePresence(old(sp.v), sp.v, i, va)
    ensures MapGrows(old(sp.v), sp.v, i) && (ok ==> Holds(sp.v, i, va, src))
    ensures Directories(sp.v, sp.v) && ok == Present(sp.v, i, va)
    ensures Directories(old(sp.v), old(sp.v)) &&
      (Present(old(sp.v), i, va) ==> ok && SameMap(old(sp.v), sp.v) && sp.Room(i) == old(sp.Room(i)))
    ensures old(sp.Room(i)) >= 2 ==> ok && sp.Room(i) >= old(sp.Room(i)) - 2
  {
    hide Containers.Valid, FreeAbove;
    var e := Reach(sp, i, va);
    ghost var v1, v0 := sp.v, old(sp.v);
    hide PtOk, MapOk, Kept, SamePresence, Holds, SameMap, MapGrows;
    var p := e / PAGESIZE;
    ok := e % 2 == 1;
    KeptWiden(v0, v1, 0, 0, 0, i, va, va + |src|);
    if ok { PutSeen(v1, sp.use, sp.id0, i, va, src); } else { PutUnseen(v1, sp.use, sp.id0, i, va, src); }
    sp.v := PutPage(sp.v, p, PutBytes(sp.v.mem[p], va % PAGESIZE, src));
    if !ok { KeptWiden(v1, sp.v, 0, 0, 0, i, va, va + |src|); }
    SameMapPresence(v1, sp.v, i, va);
    SameMapGrows(v1, sp.v, i);
    GrowsTrans(v0, v1, sp.v, i);
    PresenceTrans(v0, v1, sp.v, i, va);
    KeptTrans(v0, v1, sp.v, i, va, va + |src|);
  }

  /** The bytes up to `n` have been stored, and `ok` tells whether all of them could be. */
  ghost predicate Stored(v0: Vm, v: Vm, i: nat, uva: nat, src: seq<byte>, n: nat, ok: bool) {
    && n <= |src| && 0 < i < NUM_IDS && VM_USERLO <= uva && uva + |src| <= VM_USERHI && Kept(v0, v, i, uva, uva + |src|)
    && (ok ==> Holds(v, i, uva, src[..n]))
    && (!ok ==> exists gap: nat :: uva <= gap < uva + n && !Present(v, i, gap))
    && (n == 0 || n == |src| || (uva + n) % PAGESIZE == 0)
  }

  lemma {:induction false} StoredNone(v: Vm, i: nat, uva: nat, src: seq<byte>)
    requires Directories(v, v) && 0 < i < NUM_IDS && VM_USERLO <= uva && uva + |src| <= VM_USERHI
    ensures Stored(v, v, i, uva, src, 0, true)
  {
    KeptSelf(v);
    KeptWiden(v, v, 0, 0, 0, i, uva, uva + |src|);
  }

  function PieceSize(va: nat, len: nat): nat {
    if len < PAGESIZE - va % PAGESIZE then len else PAGESIZE - va % PAGESIZE
  }

  lemma {:induction false} NextPage(va: nat, len: nat)
    requires len > 0
    ensures var m := PieceSize(va, len);
      0 < m <= len && va % PAGESIZE + m <= PAGESIZE && (m == len || (va + m) % PAGESIZE == 0)
  {
  }

  /** The pages that `n` bytes from `va` on reach into. */
  function PageCount(va: nat, n: nat): nat {
    if n == 0 then 0 else (va + n - 1) / PAGESIZE - va / PAGESIZE + 1
  }

  lemma {:induction false} PageCountNext(va: nat, n: nat, len: nat)
    requires n < len && (n == 0 || (va + n) % PAGESIZE == 0)
    ensures var m := PieceSize(va + n, len - n); PageCount(va, n + m) == PageCount(va, n) + 1 <= PageCount(va, len)
  {
    var m := PieceSize(va + n, len - n);
    assert (va + n + m - 1) / PAGESIZE == (va + n) / PAGESIZE;
    if n > 0 { assert (va + n - 1) / PAGESIZE == (va + n) / PAGESIZE - 1; }
  }

  lemma {:induction false} EarlierPage(a: nat, b: nat)
    requires a < b && b % PAGESIZE == 0
    ensures a / PAGESIZE != b / PAGESIZE
  {
  }

  lemma {:induction false} StoredNext(v0: Vm, v: Vm, v': Vm, i: nat, uva: nat, src: seq<byte>, n: nat, ok: bool, m: nat,
                                      ok': bool)
    requires Stored(v0, v, i, uva, src, n, ok) && n < |src| && m == PieceSize(uva + n, |src| - n)
    requires n + m <= |src| && Kept(v, v', i, uva + n, uva + n + m) && SamePresence(v, v', i, uva + n)
    requires ok' == Present(v', i, uva + n) && (ok' ==> Holds(v', i, uva + n, src[n..n + m]))
    ensures Stored(v0, v', i, uva, src, n + m, ok && ok')
  {
    hide Present, Kept, Holds;
    NextPage(uva + n, |src| - n);
    KeptWiden(v, v', i, uva + n, uva + n + m, i, uva, uva + |src|);
    KeptTrans(v0, v, v', i, uva, uva + |src|);
    if !ok {
      var gap: nat :| uva <= gap < uva + n && !Present(v, i, gap);
      EarlierPage(gap, uva + n);
      assert EquallyPresent(v, v', i, gap);
    } else if ok' {
      KeptHolds(v, v', i, uva + n, uva + n + m, uva, src[..n]);
      HoldsAppend(v', i, uva, src[..n], src[n..n + m]);
      assert src[..n] + src[n..n + m] == src[..n + m];
    }
  }

  lemma {:induction false} StoredAll(v0: Vm, v: Vm, i: nat, uva: nat, src: seq<byte>, ok: bool)
    requires Stored(v0, v, i, uva, src, |src|, ok)
    ensures ok <==> RangeMapped(v, i, uva, |src|)
    ensures ok ==> Holds(v, i, uva, src)
  {
    assert src[..|src|] == src;
    if ok {
      forall wa: nat | uva <= wa < uva + |src|
        ensures Present(v, i, wa)
      {
        assert HoldsAt(v, i, uva, src, wa);
      }
    }
  }

  /** Where everything is mapped, a round maps nothing new. */
  lemma {:induction false} RangeKept(v: Vm, v': Vm, i: nat, uva: nat, n: nat, k: nat)
    requires RangeMapped(v, i, uva, n) && k < n && 0 < i && Directories(v, v') &&
      (Present(v, i, uva + k) ==> SameMap(v, v'))
    ensures RangeMapped(v', i, uva, n) && Present(v, i, uva + k)
  {
    forall wa: nat | uva <= wa < uva + n
      ensures Present(v', i, wa)
    {
      SamePage(wa, wa);
      assert SameEntry(v, v', i, Pdx(wa), Ptx(wa));
    }
  }

  lemma {:induction false} ValidDirectories(sp: Spaces)
    requires sp.Valid()
    ensures Directories(sp.v, sp.v)
  {
  }

  /** The range lies in user memory. */
  predicate InUser(uva: nat, len: nat) {
    VM_USERLO <= uva && uva + len <= VM_USERHI
  }

  /** The range check of both copies, on 32-bit addresses: the ends of the two ranges are taken modulo 2^32. */
  predicate Checked(uva: nat, kva: nat, len: nat) {
    VM_USERLO <= uva && (uva + len) % U32 <= VM_USERHI && (kva + len) % U32 <= VM_USERHI
  }

  /** A kernel buffer below the top of user memory. */
  predicate InKernel(kva: nat, len: nat) {
    kva + len <= VM_USERHI
  }

  /** The check admits exactly the ranges in user memory, and those that end beyond 2^32. */
  lemma {:induction false} CheckExact(uva: nat, kva: nat, len: nat)
    requires uva < U32 && len < U32 && InKernel(kva, len)
    ensures Checked(uva, kva, len) <==> InUser(uva, len) || (VM_USERLO <= uva && U32 <= uva + len <= U32 + VM_USERHI)
  {
  }

  /** A range that passes the check and yet leaves user memory. */
  lemma {:induction false} CheckWraps()
    ensures Checked(VM_USERLO, 0, U32 - VM_USERLO) && !InUser(VM_USERLO, U32 - VM_USERLO)
  {
  }

  /** How much of the range lies in user memory. */
  function UserPart(uva: nat, len: nat): (n: nat)
    requires VM_USERLO <= uva
    ensures n <= len && (n < len ==> uva + n >= VM_USERHI) && (n > 0 ==> uva + n <= VM_USERHI) &&
      (n == len <==> InUser(uva, len) || len == 0)
  {
    if uva >= VM_USERHI then 0 else if uva + len <= VM_USERHI then len else VM_USERHI - uva
  }

  /** Storing so far, with what is left of the memory there was to map pages. */
  ghost predicate Storing(v0: Vm, room0: int, v: Vm, room: int, i: nat, uva: nat, src: seq<byte>, n: nat, ok: bool) {
    && Stored(v0, v, i, uva, src, n, ok)
    && (room0 >= 2 * PageCount(uva, |src|) ==> ok && room >= room0 - 2 * PageCount(uva, n))
    && (RangeMapped(v0, i, uva, |src|) ==> ok && room == room0 && RangeMapped(v, i, uva, |src|))
  }

  lemma {:induction false} StoringNone(v: Vm, room: int, i: nat, uva: nat, src: seq<byte>)
    requires Directories(v, v) && 0 < i < NUM_IDS && InUser(uva, |src|)
    ensures Storing(v, room, v, room, i, uva, src, 0, true)
  {
    StoredNone(v, i, uva, src);
  }

  lemma {:induction false} StoringNext(v0: Vm, room0: int, v: Vm, room: int, v': Vm, room': int, i: nat, uva: nat,
                                       src: seq<byte>, n: nat, ok: bool, m: nat, ok': bool)
    requires Storing(v0, room0, v, room, i, uva, src, n, ok) && n < |src| && m == PieceSize(uva + n, |src| - n)
    requires n + m <= |src| && Kept(v, v', i, uva + n, uva + n + m) && SamePresence(v, v', i, uva + n)
    requires ok' == Present(v', i, uva + n) && (ok' ==> Holds(v', i, uva + n, src[n..n + m]))
    requires Present(v, i, uva + n) ==> ok' && SameMap(v, v') && room' == room
    requires room >= 2 ==> ok' && room' >= room - 2
    ensures Storing(v0, room0, v', room', i, uva, src, n + m, ok && ok')
  {
    assert n == 0 || (uva + n) % PAGESIZE == 0;
    StoredNext(v0, v, v', i, uva, src, n, ok, m, ok');
    PageCountNext(uva, n, |src|);
    hide Stored, RangeMapped, Kept, Holds, SamePresence, PageCount, PieceSize, Present;
    if RangeMapped(v0, i, uva, |src|) { RangeKept(v, v', i, uva, |src|, n); }
  }

  lemma {:induction false} StoringAll(v0: Vm, room0: int, v: Vm, room: int, i: nat, uva: nat, src: seq<byte>, ok: bool)
    requires Storing(v0, room0, v, room, i, uva, src, |src|, ok)
    ensures (ok <==> RangeMapped(v, i, uva, |src|)) && (ok ==> Holds(v, i, uva, src)) &&
      Kept(v0, v, i, uva, uva + |src|)
    ensures RangeMapped(v0, i, uva, |src|) ==> ok && room == room0
    ensures room0 >= 2 * PageCount(uva, |src|) ==> ok
  {
    StoredAll(v0, v, i, uva, src, ok);
  }

  /** The loop of `pt_copyout` and `pt_memset` over a range in user memory. */
  method StoreAll(sp: Spaces, src: seq<byte>, i: nat, uva: nat) returns (ghost ok: bool)
    requires sp.Valid() && 0 < i < NUM_IDS && InUser(uva, |src|)
    modifies sp`v, sp`use, sp.ct, sp.ct.at
    ensures sp.Valid() && Kept(old(sp.v), sp.v, i, uva, uva + |src|) && MapGrows(old(sp.v), sp.v, i)
    ensures (ok <==> RangeMapped(sp.v, i, uva, |src|)) && (ok ==> Holds(sp.v, i, uva, src))
    ensures RangeMapped(old(sp.v), i, uva, |src|) ==> ok && sp.Room(i) == old(sp.Room(i))
    ensures old(sp.Room(i)) >= 2 * PageCount(uva, |src|) ==> ok
  {
    hide Spaces.Valid, Spaces.Tables, Spaces.Room, Storing, RangeMapped, Holds, Kept, SamePresence, PageCount,
      PieceSize, MapGrows;
    ValidDirectories(sp);
    ok := true;
    var copied := 0;
    ghost var v0, room0 := sp.v, sp.Room(i);
    GrowsSelf(v0, i);
    StoringNone(v0, room0, i, uva, src);
    while copied < |src|
      invariant sp.Valid() && copied <= |src| && Storing(v0, room0, sp.v, sp.Room(i), i, uva, src, copied, ok) &&
        MapGrows(v0, sp.v, i)
      decreases |src| - copied
    {
      ghost var v1, room1 := sp.v, sp.Room(i);
      NextPage(uva + copied, |src| - copied);
      var size := PieceSize(uva + copied, |src| - copied);
      ghost var ok1 := Store(sp, i, uva + copied, src[copied..copied + size]);
      GrowsTrans(v0, v1, sp.v, i);
      StoringNext(v0, room0, v1, room1, sp.v, sp.Room(i), i, uva, src, copied, ok, size, ok1);
      ok := ok && ok1;
      copied := copied + size;
    }
    StoringAll(v0, room0, sp.v, sp.Room(i), i, uva, src, ok);
  }

  /**
   * `pt_copyout`.  If the range is mapped in the end, the process finds `src` there; nobody
   * finds anything else changed, whether or not it is.  `left` tells that a range that passed
   * the check leaves user memory; it is followed up to there.
   */
  method CopyOut(sp: Spaces, src: seq<byte>, kva: nat, i: nat,
                 uva: nat) returns (copied: nat, left: bool, ghost ok: bool)
    requires sp.Valid() && 0 < i < NUM_IDS && uva < U32 && kva < U32 && |src| < U32
    modifies sp`v, sp`use, sp.ct, sp.ct.at
    ensures sp.Valid() && MapGrows(old(sp.v), sp.v, i)
    ensures !Checked(uva, kva, |src|) ==> copied == 0 && !left && sp.v == old(sp.v)
    ensures Checked(uva, kva, |src|) ==>
      && copied == UserPart(uva, |src|) && left == (copied < |src|) && Kept(old(sp.v), sp.v, i, uva, uva + copied)
      && (ok <==> RangeMapped(sp.v, i, uva, copied)) && (ok ==> Holds(sp.v, i, uva, src[..copied]))
      && (RangeMapped(old(sp.v), i, uva, copied) ==> ok && sp.Room(i) == old(sp.Room(i)))
      && (old(sp.Room(i)) >= 2 * PageCount(uva, copied) ==> ok)
  {
    hide Spaces.Valid, Spaces.Tables, Spaces.Room, RangeMapped, Holds, Kept, PageCount, MapGrows;
    ValidDirectories(sp);
    GrowsSelf(sp.v, i);
    ok, copied, left := true, 0, false;
    if !Checked(uva, kva, |src|) { return; }
    copied := UserPart(uva, |src|);
    left := copied < |src|;
    if copied == 0 {
      NothingStored(sp, i, uva);
    } else {
      ok := StoreAll(sp, src[..copied], i, uva);
    }
  }

  lemma {:induction false} NothingStored(sp: Spaces, i: nat, uva: nat)
    requires sp.Valid() && 0 < i < NUM_IDS
    ensures Kept(sp.v, sp.v, i, uva, uva) && RangeMapped(sp.v, i, uva, 0) && Holds(sp.v, i, uva, [])
  {
    ValidDirectories(sp);
  }

  function Repeated(c: byte, n: nat): seq<byte> {
    seq(n, _ => c)
  }

  /** `pt_memset`, in user memory. */
  method Memset(sp: Spaces, i: nat, va: nat, c: byte, len: nat) returns (done: nat, ghost ok: bool)
    requires sp.Valid() && 0 < i < NUM_IDS && InUser(va, len)
    modifies sp`v, sp`use, sp.ct, sp.ct.at
    ensures sp.Valid() && done == len && Kept(old(sp.v), sp.v, i, va, va + len) && MapGrows(old(sp.v), sp.v, i)
    ensures (ok <==> RangeMapped(sp.v, i, va, len)) && (ok ==> Holds(sp.v, i, va, Repeated(c, len)))
    ensures RangeMapped(old(sp.v), i, va, len) ==> ok && sp.Room(i) == old(sp.Room(i))
    ensures old(sp.Room(i)) >= 2 * PageCount(va, len) ==> ok
  {
    hide Spaces.Valid, Spaces.Tables, Spaces.Room, RangeMapped, Holds, Kept, PageCount, MapGrows;
    ok := StoreAll(sp, Repeated(c, len), i, va);
    done := len;
  }

  /** The bytes up to `|dst|` have been fetched, and `ok` tells whether all of them were mapped. */
  ghost predicate Fetched(v0: Vm, v: Vm, i: nat, uva: nat, len: nat, dst: seq<byte>, ok: bool) {
    && |dst| <= len && 0 < i < NUM_IDS && VM_USERLO <= uva && uva + len <= VM_USERHI && Kept(v0, v, 0, 0, 0)
    && (ok ==> Holds(v, i, uva, dst))
    && (!ok ==> exists gap: nat :: uva <= gap < uva + |dst| && !Present(v, i, gap))
    && (dst == [] || |dst| == len || (uva + |dst|) % PAGESIZE == 0)
    && (RangeMapped(v0, i, uva, len) ==> v == v0)
  }

  lemma {:induction false} LoadSeen(v: Vm, use: seq<Use>, i: nat, va: nat, m: nat)
    requires MapOk(v, use) && 0 < i < NUM_IDS && UserVa(va) && va % PAGESIZE + m <= PAGESIZE && va + m <= VM_USERHI
    ensures Translate(v, i, va) / PAGESIZE < NFRAMES == |v.mem|
    ensures Present(v, i, va) ==>
      Holds(v, i, va, v.mem[Translate(v, i, va) / PAGESIZE].bytes[va % PAGESIZE..va % PAGESIZE + m])
  {
    SamePage(va, va);
    assert EntryOk(v, use, i, Pdx(va), Ptx(va));
    if Present(v, i, va) {
      var src := v.mem[Translate(v, i, va) / PAGESIZE].bytes[va % PAGESIZE..va % PAGESIZE + m];
      forall wa: nat | va <= wa < va + m
        ensures HoldsAt(v, i, va, src, wa)
      {
        SamePage(va, wa);
      }
    }
  }

  lemma {:induction false} FetchedNext(v0: Vm, v: Vm, v': Vm, i: nat, uva: nat, len: nat, dst: seq<byte>, ok: bool,
                                       more: seq<byte>, ok': bool)
    requires Fetched(v0, v, i, uva, len, dst, ok) && |dst| < len && |more| == PieceSize(uva + |dst|, len - |dst|)
    requires Kept(v, v', 0, 0, 0) && SamePresence(v, v', i, uva + |dst|) && (Present(v, i, uva + |dst|) ==> v' == v)
    requires ok' == Present(v', i, uva + |dst|) && (ok' ==> Holds(v', i, uva + |dst|, more))
    ensures Fetched(v0, v', i, uva, len, dst + more, ok && ok')
  {
    hide Present, Kept, Holds;
    NextPage(uva + |dst|, len - |dst|);
    KeptTrans(v0, v, v', 0, 0, 0);
    if !ok {
      var gap: nat :| uva <= gap < uva + |dst| && !Present(v, i, gap);
      EarlierPage(gap, uva + |dst|);
      assert EquallyPresent(v, v', i, gap);
    } else if ok' {
      KeptWiden(v, v', 0, 0, 0, i, 0, 0);
      KeptHolds(v, v', i, 0, 0, uva, dst);
      HoldsAppend(v', i, uva, dst, more);
    }
  }

  lemma {:induction false} FetchedAll(v0: Vm, v: Vm, i: nat, uva: nat, len: nat, dst: seq<byte>, ok: bool)
    requires Fetched(v0, v, i, uva, len, dst, ok) && |dst| == len
    ensures (ok <==> RangeMapped(v, i, uva, len)) && (ok ==> Holds(v, i, uva, dst)) && Kept(v0, v, 0, 0, 0)
    ensures RangeMapped(v0, i, uva, len) ==> v == v0
  {
    if ok {
      forall wa: nat | uva <= wa < uva + len
        ensures Present(v, i, wa)
      {
        assert HoldsAt(v, i, uva, dst, wa);
      }
    }
  }

  /** One round of `pt_copyin`. */
  method Load(sp: Spaces, i: nat, va: nat, m: nat) returns (more: seq<byte>, ghost ok: bool)
    requires sp.Valid() && 0 < i < NUM_IDS && UserVa(va) && va % PAGESIZE + m <= PAGESIZE && va + m <= VM_USERHI
    modifies sp`v, sp`use, sp.ct, sp.ct.at
    ensures sp.Valid() && |more| == m && Kept(old(sp.v), sp.v, 0, 0, 0) && SamePresence(old(sp.v), sp.v, i, va) &&
      MapGrows(old(sp.v), sp.v, i)
    ensures Directories(old(sp.v), old(sp.v)) && (Present(old(sp.v), i, va) ==> sp.v == old(sp.v))
    ensures Directories(sp.v, sp.v) && ok == Present(sp.v, i, va) && (ok ==> Holds(sp.v, i, va, more))
  {
    hide Containers.Valid, FreeAbove, MapGrows;
    var e := Reach(sp, i, va);
    LoadSeen(sp.v, sp.use, i, va, m);
    more := sp.v.mem[e / PAGESIZE].bytes[va % PAGESIZE..va % PAGESIZE + m];
    ok := e % 2 == 1;
  }

  /** The loop of `pt_copyin` over a range in user memory. */
  method FetchAll(sp: Spaces, i: nat, uva: nat, len: nat) returns (dst: seq<byte>, ghost ok: bool)
    requires sp.Valid() && 0 < i < NUM_IDS && InUser(uva, len)
    modifies sp`v, sp`use, sp.ct, sp.ct.at
    ensures sp.Valid() && |dst| == len && Kept(old(sp.v), sp.v, 0, 0, 0) && MapGrows(old(sp.v), sp.v, i)
    ensures (ok <==> RangeMapped(sp.v, i, uva, len)) && (ok ==> Holds(sp.v, i, uva, dst)) &&
      (RangeMapped(old(sp.v), i, uva, len) ==> ok && sp.v == old(sp.v))
  {
    hide Spaces.Valid, Spaces.Tables, Fetched, RangeMapped, Holds, Kept, SamePresence, Present, MapGrows;
    ValidDirectories(sp);
    ok, dst := true, [];
    ghost var v0 := sp.v;
    GrowsSelf(v0, i);
    FetchedNone(v0, i, uva, len);
    while |dst| < len
      invariant sp.Valid() && |dst| <= len && Fetched(v0, sp.v, i, uva, len, dst, ok) && MapGrows(v0, sp.v, i)
      decreases len - |dst|
    {
      ghost var v1 := sp.v;
      NextPage(uva + |dst|, len - |dst|);
      var size := PieceSize(uva + |dst|, len - |dst|);
      ghost var ok1;
      var more;
      more, ok1 := Load(sp, i, uva + |dst|, size);
      GrowsTrans(v0, v1, sp.v, i);
      FetchedNext(v0, v1, sp.v, i, uva, len, dst, ok, more, ok1);
      ok := ok && ok1;
      dst := dst + more;
    }
    FetchedAll(v0, sp.v, i, uva, len, dst, ok);
  }

  /**
   * `pt_copyin`.  If the range is mapped in the end, `dst` is what the process finds there;
   * nobody finds anything changed.  `left` is as for `pt_copyout`.
   */
  method CopyIn(sp: Spaces, kva: nat, i: nat, uva: nat, len: nat) returns (dst: seq<byte>, left: bool, ghost ok: bool)
    requires sp.Valid() && 0 < i < NUM_IDS && uva < U32 && kva < U32 && len < U32
    modifies sp`v, sp`use, sp.ct, sp.ct.at
    ensures sp.Valid() && MapGrows(old(sp.v), sp.v, i)
    ensures !Checked(uva, kva, len) ==> dst == [] && !left && sp.v == old(sp.v)
    ensures Checked(uva, kva, len) ==>
      && |dst| == UserPart(uva, len) && left == (|dst| < len) && Kept(old(sp.v), sp.v, 0, 0, 0)
      && (ok <==> RangeMapped(sp.v, i, uva, |dst|)) && (ok ==> Holds(sp.v, i, uva, dst))
      && (RangeMapped(old(sp.v), i, uva, |dst|) ==> ok && sp.v == old(sp.v))
  {
    hide Spaces.Valid, Spaces.Tables, RangeMapped, Holds, Kept, MapGrows;
    ValidDirectories(sp);
    GrowsSelf(sp.v, i);
    ok, dst, left := true, [], false;
    if !Checked(uva, kva, len) { return; }
    var n := UserPart(uva, len);
    left := n < len;
    if n == 0 {
      NothingStored(sp, i, uva);
      NothingStored(sp, i, 0);
      KeptWiden(sp.v, sp.v, i, 0, 0, 0, 0, 0);
    } else {
      dst, ok := FetchAll(sp, i, uva, n);
    }
  }

  lemma {:induction false} FetchedNone(v: Vm, i: nat, uva: nat, len: nat)
    requires Directories(v, v) && 0 < i < NUM_IDS && InUser(uva, len)
    ensures Fetched(v, v, i, uva, len, [], true)
  {
    KeptSelf(v);
  }

  /**
   * Out and back in again: the same bytes, as far as they lie in user memory and it is mapped or there is memory to map
   * it.
   */
  method RoundTrip(sp: Spaces, src: seq<byte>, kva: nat, i: nat, uva: nat) returns (dst: seq<byte>)
    requires sp.Valid() && 0 < i < NUM_IDS && uva < U32 && kva < U32 && |src| < U32
    modifies sp`v, sp`use, sp.ct, sp.ct.at
    ensures sp.Valid()
    ensures Checked(uva, kva, |src|) ==>
      var n := UserPart(uva, |src|);
      RangeMapped(old(sp.v), i, uva, n) || old(sp.Room(i)) >= 2 * PageCount(uva, n) ==> dst == src[..n]
    ensures InUser(uva, |src|) && InKernel(kva, |src|) && RangeMapped(old(sp.v), i, uva, |src|) ==> dst == src
  {
    hide Spaces.Valid, Spaces.Tables, Spaces.Room, RangeMapped, Holds, Kept, PageCount, MapGrows;
    var copied, left;
    ghost var ok, ok1;
    CheckHolds(uva, kva, |src|);
    copied, left, ok := CopyOut(sp, src, kva, i, uva);
    dst, left, ok1 := CopyIn(sp, kva, i, uva, |src|);
    if Checked(uva, kva, |src|) && ok { HoldsUnique(sp.v, i, uva, src[..copied], dst); }
  }

  lemma {:induction false} CheckHolds(uva: nat, kva: nat, len: nat)
    requires uva < U32 && kva < U32 && len < U32
    ensures InUser(uva, len) && InKernel(kva, len) ==> Checked(uva, kva, len)
  {
  }

  lemma {:induction false} HoldsUnique(v: Vm, i: nat, lo: nat, src: seq<byte>, dst: seq<byte>)
    requires Holds(v, i, lo, src) && Holds(v, i, lo, dst) && |src| == |dst|
    ensures dst == src
  {
    forall x | 0 <= x < |src|
      ensures dst[x] == src[x]
    {
      assert HoldsAt(v, i, lo, src, lo + x) && HoldsAt(v, i, lo, dst, lo + x);
    }
  }
}
