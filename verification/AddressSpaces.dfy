/**
 * Address spaces: initialising the directories, mapping and unmapping, and
 * allocating pages for user addresses.
 */
module AddressSpaces {
  import opened Frames
  import opened PageAlloc
  import opened Containers
  import opened PageTables

  /** What a user address maps to is a data page set aside for that address alone. */
  predicate EntryOk(v: Vm, use: seq<Use>, i: nat, j: nat, k: nat)
    requires Shape(v, use) && i < NUM_IDS && j < ENTRIES && k < ENTRIES
  {
    var e := Entry(v, i, j, k);
    e == 0 || (e / PAGESIZE < NFRAMES && use[e / PAGESIZE] == Data(i, j, k))
  }

  predicate DataOk(v: Vm, use: seq<Use>, p: nat)
    requires Shape(v, use) && p < NFRAMES
  {
    use[p].Data? ==>
      && 0 < use[p].i < NUM_IDS && UserSlot(use[p].j) && use[p].k < ENTRIES
      && Entry(v, use[p].i, use[p].j, use[p].k) != 0 && Entry(v, use[p].i, use[p].j, use[p].k) / PAGESIZE == p
  }

  ghost predicate MapOk(v: Vm, use: seq<Use>) {
    && Shape(v, use)
    && (forall i: nat, j: nat, k: nat | 0 < i < NUM_IDS && UserSlot(j) && k < ENTRIES :: EntryOk(v, use, i, j, k))
    && (forall p: nat | p < NFRAMES :: DataOk(v, use, p))
  }

  /** Pages in use are allocated ones. */
  ghost predicate Backed(use: seq<Use>, norm: seq<bool>, taken: seq<bool>) {
    && |use| == NFRAMES && |norm| == |taken| <= NFRAMES
    && (forall p: nat | p < |norm| :: norm[p] ==> p >= VM_USERLO_PI)
    && (forall p: nat | p < NFRAMES :: use[p].Spare? || (p < |taken| && taken[p]))
  }

  /** No two user mappings share a page, and no user mapping reaches a page table. */
  lemma {:induction false} Isolation(v: Vm, use: seq<Use>, id0: nat, norm: seq<bool>, taken: seq<bool>, i: nat, j: nat,
                                     k: nat, x: nat, y: nat, z: nat)
    requires PtOk(v, use, id0) && MapOk(v, use) && Backed(use, norm, taken)
    requires 0 < i < NUM_IDS && UserSlot(j) && k < ENTRIES && Entry(v, i, j, k) != 0
    requires x < NUM_IDS && y < ENTRIES && z < ENTRIES
    ensures var p := Entry(v, i, j, k) / PAGESIZE;
      && VM_USERLO_PI <= p < |taken| && taken[p] && v.pdir[x][y] / PAGESIZE != p
      && (0 < x && UserSlot(y) && Entry(v, x, y, z) != 0 && Entry(v, x, y, z) / PAGESIZE == p ==>
          x == i && y == j && z == k)
  {
    assert EntryOk(v, use, i, j, k) && TableOk(v, use, id0, x, y) && UseOk(v, use, Entry(v, i, j, k) / PAGESIZE);
    if 0 < x && UserSlot(y) { assert EntryOk(v, use, x, y, z); }
  }

  lemma {:induction false} ContainerCount(ct: Containers)
    requires ct.Valid()
    ensures |ct.cs| == NUM_IDS
  {
  }

  /** Data pages keep their contents. */
  ghost predicate DataKept(v: Vm, v': Vm, use: seq<Use>) {
    |v.mem| == |v'.mem| == |use| && forall p | 0 <= p < |use| && use[p].Data? :: v'.mem[p] == v.mem[p]
  }

  // Initialisation

  /** `idptbl_init`: the identity tables, entry by entry. */
  method InitIdentity(mem0: seq<Page>, id0: nat) returns (mem: seq<Page>)
    requires |mem0| == NFRAMES && id0 + ENTRIES <= NFRAMES
    ensures |mem| == NFRAMES && forall j: nat, k: nat | j < ENTRIES && k < ENTRIES :: IdentOk(Vm([], mem), id0, j, k)
    ensures forall p | 0 <= p < NFRAMES && !(id0 <= p < id0 + ENTRIES) :: mem[p] == mem0[p]
  {
    mem := mem0;
    var i := 0;
    while i < 1024
      invariant i <= 1024 && |mem| == NFRAMES
      invariant forall j: nat, k: nat | j < i && k < ENTRIES :: IdentOk(Vm([], mem), id0, j, k)
      invariant forall p | 0 <= p < NFRAMES && !(id0 <= p < id0 + i) :: mem[p] == mem0[p]
    {
      var page := InitIdentityTable(mem[id0 + i], i);
      ghost var was := mem;
      mem := mem[id0 + i := page];
      forall j: nat, k: nat | j < i + 1 && k < ENTRIES
        ensures IdentOk(Vm([], mem), id0, j, k)
      {
        if j < i { assert IdentOk(Vm([], was), id0, j, k); }
      }
      i := i + 1;
    }
  }

  method InitIdentityTable(page: Page, i: nat) returns (r: Page)
    requires i < 1024
    ensures forall k: nat | k < ENTRIES :: Pte(r, k) == (i * 1024 + k) * PAGESIZE + KernelPerm(i)
  {
    var perm := if i < 256 || i >= 960 then 0x103 else 3;
    r := page;
    var j := 0;
    while j < 1024
      invariant j <= 1024 && forall k: nat | k < j :: Pte(r, k) == (i * 1024 + k) * PAGESIZE + perm
    {
      ghost var was := r;
      r := SetPte(r, j, (i * 1024 + j) * PAGESIZE + perm);
      forall k: nat | k < j + 1
        ensures Pte(r, k) == (i * 1024 + k) * PAGESIZE + perm
      {
        PteOfSetPte(was, j, (i * 1024 + j) * PAGESIZE + perm, k);
      }
      j := j + 1;
    }
  }

  /** `pdir_init` for one process: identity in the kernel's slots, nothing in the user's. */
  method InitDir(id0: nat) returns (dir: seq<nat>)
    ensures |dir| == ENTRIES && forall j: nat | j < ENTRIES :: dir[j] == if UserSlot(j) then 0 else Pde(id0 + j)
  {
    dir := [];
    var j := 0;
    while j < 1024
      invariant j == |dir| <= 1024 && forall y: nat | y < j :: dir[y] == if UserSlot(y) then 0 else Pde(id0 + y)
    {
      if j < 256 || j >= 960 { dir := dir + [Pde(id0 + j)]; } else { dir := dir + [0]; }
      j := j + 1;
    }
  }

  /** Slot `j` of a new directory `i`. */
  predicate FreshSlot(pdir: seq<seq<nat>>, id0: nat, i: nat, j: nat)
    requires i < |pdir| && j < |pdir[i]|
  {
    pdir[i][j] == if i > 0 && UserSlot(j) then 0 else Pde(id0 + j)
  }

  /** `pdir_init_kern`: all directories, with process 0 mapped one to one throughout. */
  method InitDirs(id0: nat) returns (pdir: seq<seq<nat>>)
    ensures |pdir| == NUM_IDS && forall i | 0 <= i < NUM_IDS :: |pdir[i]| == ENTRIES
    ensures forall i: nat, j: nat | i < NUM_IDS && j < ENTRIES :: FreshSlot(pdir, id0, i, j)
  {
    pdir := [];
    while |pdir| < NUM_IDS
      invariant |pdir| <= NUM_IDS && forall i | 0 <= i < |pdir| :: |pdir[i]| == ENTRIES
      invariant forall i: nat, j: nat | i < |pdir| && j < ENTRIES ::
        pdir[i][j] == if UserSlot(j) then 0 else Pde(id0 + j)
      decreases NUM_IDS - |pdir|
    {
      var dir := InitDir(id0);
      pdir := pdir + [dir];
    }
    var kern: seq<nat>, j := pdir[0], 256;
    assert forall y: nat | y < ENTRIES :: pdir[0][y] == if UserSlot(y) then 0 else Pde(id0 + y);
    while j < 960
      invariant 256 <= j <= 960 && |kern| == ENTRIES
      invariant forall y: nat | y < ENTRIES :: kern[y] == if j <= y && UserSlot(y) then 0 else Pde(id0 + y)
    {
      kern := kern[j := Pde(id0 + j)];
      j := j + 1;
    }
    pdir := pdir[0 := kern];
  }

  lemma {:induction false} FreshMap(v: Vm, use: seq<Use>, id0: nat)
    requires Shape(v, use) && 0 < id0 && id0 + ENTRIES <= VM_USERLO_PI &&
      (forall p | 0 <= p < NFRAMES :: use[p] == Spare)
    requires forall j: nat, k: nat | j < ENTRIES && k < ENTRIES :: IdentOk(Vm([], v.mem), id0, j, k)
    requires forall i: nat, j: nat | i < NUM_IDS && j < ENTRIES :: FreshSlot(v.pdir, id0, i, j)
    ensures PtOk(v, use, id0) && MapOk(v, use)
    ensures forall i: nat, j: nat, k: nat | 0 < i < NUM_IDS && UserSlot(j) && k < ENTRIES :: Entry(v, i, j, k) == 0
  {
    forall j: nat, k: nat | j < ENTRIES && k < ENTRIES
      ensures IdentOk(v, id0, j, k)
    {
      assert IdentOk(Vm([], v.mem), id0, j, k);
    }
    forall i: nat, j: nat | i < NUM_IDS && j < ENTRIES
      ensures TableOk(v, use, id0, i, j)
    {
      assert FreshSlot(v.pdir, id0, i, j);
    }
    forall p: nat | p < NFRAMES
      ensures UseOk(v, use, p) && DataOk(v, use, p)
    {
      assert use[p] == Spare;
    }
    forall i: nat, j: nat, k: nat | 0 < i < NUM_IDS && UserSlot(j) && k < ENTRIES
      ensures EntryOk(v, use, i, j, k) && Entry(v, i, j, k) == 0
    {
      assert FreshSlot(v.pdir, id0, i, j);
    }
  }

  // Steps on the map with its uses

  /** A page that was spare may become a table or be set aside without disturbing any mapping. */
  lemma {:induction false} SpareKeeps(v: Vm, use: seq<Use>, v': Vm, p: nat, u: Use)
    requires MapOk(v, use) && Shape(v', use) && SameMap(v, v') && p < NFRAMES && use[p].Spare? && !u.Data?
    ensures MapOk(v', use[p := u])
  {
    var use' := use[p := u];
    forall i: nat, j: nat, k: nat | 0 < i < NUM_IDS && UserSlot(j) && k < ENTRIES
      ensures EntryOk(v', use', i, j, k)
    {
      assert EntryOk(v, use, i, j, k) && SameEntry(v, v', i, j, k);
    }
    forall q: nat | q < NFRAMES
      ensures DataOk(v', use', q)
    {
      assert DataOk(v, use, q);
      if use'[q].Data? { assert SameEntry(v, v', use[q].i, use[q].j, use[q].k); }
    }
  }

  /** The uses after entry (i, j, k) has come to map `p`, or nothing if `p` is 0. */
  function Remapped(v: Vm, use: seq<Use>, i: nat, j: nat, k: nat, p: nat): (r: seq<Use>)
    requires Shape(v, use) && i < NUM_IDS && j < ENTRIES && k < ENTRIES && p < NFRAMES
    ensures |r| == |use|
  {
    var e := Entry(v, i, j, k);
    var freed := if e != 0 && e / PAGESIZE < NFRAMES then use[e / PAGESIZE := Held] else use;
    if p == 0 then freed else freed[p := Data(i, j, k)]
  }

  /** Mapping a page set aside for the purpose keeps all mappings apart. */
  lemma {:induction false} RemapKeeps(v: Vm, use: seq<Use>, v': Vm, i: nat, j: nat, k: nat, p: nat, e: nat)
    requires MapOk(v, use) && Shape(v', use) && 0 < i < NUM_IDS && UserSlot(j) && k < ENTRIES &&
      Updated(v, v', i, j, k, e)
    requires p < NFRAMES && e / PAGESIZE == p && (e != 0 <==> p != 0) && (p != 0 ==> use[p].Spare? || use[p].Held?)
    ensures MapOk(v', Remapped(v, use, i, j, k, p))
  {
    var use' := Remapped(v, use, i, j, k, p);
    assert EntryOk(v, use, i, j, k);
    forall x: nat, y: nat, z: nat | 0 < x < NUM_IDS && UserSlot(y) && z < ENTRIES
      ensures EntryOk(v', use', x, y, z)
    {
      assert EntryOk(v, use, x, y, z);
      if !(x == i && y == j && z == k) { assert SameEntry(v, v', x, y, z); }
    }
    forall q: nat | q < NFRAMES
      ensures DataOk(v', use', q)
    {
      assert DataOk(v, use, q);
      if use'[q].Data? && (q != p || p == 0) { assert SameEntry(v, v', use[q].i, use[q].j, use[q].k); }
    }
  }

  lemma {:induction false} RemapPt(v: Vm, use: seq<Use>, id0: nat, v': Vm, i: nat, j: nat, k: nat, p: nat)
    requires PtOk(v', use, id0) && MapOk(v, use) && 0 < i < NUM_IDS && UserSlot(j) && k < ENTRIES && p < NFRAMES
    requires p != 0 ==> p >= VM_USERLO_PI && (use[p].Spare? || use[p].Held?)
    ensures PtOk(v', Remapped(v, use, i, j, k, p), id0)
  {
    var use' := Remapped(v, use, i, j, k, p);
    assert EntryOk(v, use, i, j, k);
    forall x: nat, y: nat | x < NUM_IDS && y < ENTRIES
      ensures TableOk(v', use', id0, x, y)
    {
      assert TableOk(v', use, id0, x, y);
    }
    forall q: nat | q < NFRAMES
      ensures UseOk(v', use', q)
    {
      assert UseOk(v', use, q);
    }
  }

  class Spaces {
    const ct: Containers
    const id0: nat
    var v: Vm
    ghost var use: seq<Use>

    /** The directories are sound and their tables are allocated pages. */
    ghost predicate Tables()
      reads this, ct, ct.at
    {
      ct.Valid() && PtOk(v, use, id0) && Backed(use, ct.at.norm, ct.at.taken)
    }

    /** And so are the user mappings: each has an allocated page of its own. */
    ghost predicate Valid()
      reads this, ct, ct.at
    {
      Tables() && MapOk(v, use)
    }

    /** Pages process `i` can still get without a failure: quota left, and free pages above the cursor. */
    ghost function Room(i: nat): int
      reads this, ct, ct.at
    {
      if i >= |ct.cs| || |ct.at.norm| != |ct.at.taken| then 0
      else
        var quota, above := ct.cs[i].quota - ct.cs[i].usage, FreeAbove(ct.at.norm, ct.at.taken, ct.at.cursor);
        if quota < above then quota else above
    }

    /** `pdir_init_kern`, over whatever memory holds. */
    constructor (ct: Containers, mem0: seq<Page>, id0: nat)
      requires ct.Valid() && |mem0| == NFRAMES && 0 < id0 && id0 + ENTRIES <= VM_USERLO_PI
      requires |ct.at.norm| <= NFRAMES && forall p: nat | p < |ct.at.norm| :: ct.at.norm[p] ==> p >= VM_USERLO_PI
      ensures Valid() && this.ct == ct && this.id0 == id0
      ensures forall i: nat, j: nat, k: nat | 0 < i < NUM_IDS && UserSlot(j) && k < ENTRIES :: Entry(v, i, j, k) == 0
    {
      assert |ct.at.norm| == |ct.at.taken|;
      hide Containers.Valid;
      var mem := InitIdentity(mem0, id0);
      var pdir := InitDirs(id0);
      this.ct, this.id0, v, use := ct, id0, Vm(pdir, mem), seq(NFRAMES, _ => Spare);
      FreshMap(Vm(pdir, mem), seq(NFRAMES, _ => Spare), id0);
    }

    /** A page from the process's container: an allocated page that nothing uses, or 0. */
    method GetPage(i: nat) returns (p: nat)
      requires Tables() && i < NUM_IDS
      modifies ct, ct.at
      ensures Tables()
      ensures p == 0 ==> ct.at.taken == old(ct.at.taken)
      ensures p != 0 ==>
        && VM_USERLO_PI <= p < NFRAMES && use[p].Spare?
        && p < |old(ct.at.taken)| && !old(ct.at.taken)[p] && ct.at.taken == old(ct.at.taken)[p := true]
      ensures old(Room(i)) > 0 ==> p != 0 && Room(i) == old(Room(i)) - 1
    {
      assert ct.cs[i].usage <= ct.cs[i].quota by { assert InTree(ct.cs, i); }
      hide Containers.Valid, PtOk, FreeAbove;
      p := ct.Alloc(i);
      if old(ct.cs[i].usage) < old(ct.cs[i].quota) {
        AllocatesAbove(ct.at.norm, old(ct.at.cursor), old(ct.at.taken), p, ct.at.cursor, ct.at.taken);
      }
    }

    /** `alloc_ptbl` for a slot that has no table: a cleared table page is hung under it, or 0 is returned. */
    method AllocTable(i: nat, va: nat) returns (p: nat)
      requires Tables() && 0 < i < NUM_IDS && UserSlot(Pdx(va)) && v.pdir[i][Pdx(va)] == 0
      modifies this`v, this`use, ct, ct.at
      ensures Tables() && SameMap(old(v), v) && (old(Room(i)) > 0 ==> p != 0 && Room(i) == old(Room(i)) - 1)
      ensures p == 0 ==> v == old(v) && use == old(use) && ct.at.taken == old(ct.at.taken)
      ensures p != 0 ==>
        && p < NFRAMES && old(use)[p].Spare? && p < |old(ct.at.taken)| && !old(ct.at.taken)[p]
        && ct.at.taken == old(ct.at.taken)[p := true]
        && use == old(use)[p := PTable(i, Pdx(va))] && v.pdir[i][Pdx(va)] != 0 && v.mem == old(v.mem)[p := v.mem[p]]
    {
      hide Containers.Valid, FreeAbove;
      ContainerCount(ct);
      assert Shape(v, use);
      p := GetPage(i);
      if p != 0 {
        var pdx := va / (4096 * 1024);
        ghost var v0, page := v, v.mem[p];
        var dir: seq<nat> := v.pdir[i];
        v := v.(pdir := v.pdir[i := dir[pdx := Pde(p)]]);
        assert v == Hang(v0, i, pdx, p, page);
        var k := 0;
        while k < 1024
          invariant k <= 1024 && v == Hang(v0, i, pdx, p, page) && Cleared(page, k)
          modifies this`v
        {
          ClearNext(page, k);
          page := SetPte(page, k, 0);
          v := v.(mem := v.mem[v.pdir[i][pdx] / PAGESIZE := SetPte(v.mem[v.pdir[i][pdx] / PAGESIZE], k, 0)]);
          k := k + 1;
        }
        NewTable(v0, use, id0, i, pdx, p, page);
        use := use[p := PTable(i, pdx)];
      } else {
        assert forall x: nat, y: nat, z: nat | x < NUM_IDS && y < ENTRIES && z < ENTRIES :: SameEntry(v, v, x, y, z);
      }
    }
  
    /**
     * `map_page`, for a user address and a process other than 0.  One entry of the map changes,
     * or, when no table page can be had, none does.
     */
    method MapPage(i: nat, va: nat, page: nat, perm: nat) returns (r: nat)
      requires Tables() && 0 < i < NUM_IDS && UserSlot(Pdx(va)) && page < NFRAMES && perm < PAGESIZE
      modifies this`v, this`use, ct, ct.at
      ensures Tables()
      ensures r == MAGIC ==> v == old(v) && use == old(use) && ct.at.taken == old(ct.at.taken)
      ensures r != MAGIC ==> Updated(old(v), v, i, Pdx(va), Ptx(va), page * PAGESIZE + perm)
      ensures r == 0 ==> use == old(use) && ct.at.taken == old(ct.at.taken)
      ensures r != 0 && r != MAGIC ==>
        r < NFRAMES && old(use)[r].Spare? && r < |old(ct.at.taken)| && !old(ct.at.taken)[r] &&
          use == old(use)[r := PTable(i, Pdx(va))] && ct.at.taken == old(ct.at.taken)[r := true]
      ensures DataKept(old(v), v, old(use))
      ensures old(Room(i)) > 0 ==> r != MAGIC && Room(i) >= old(Room(i)) - 1
    {
      hide Containers.Valid, FreeAbove;
      ContainerCount(ct);
      assert TableOk(v, use, id0, i, Pdx(va));
      var pde := v.pdir[i][Pdx(va)];
      if pde != 0 {
        r := 0;
      } else {
        r := AllocTable(i, va);
        if r == 0 { r := MAGIC; }
      }
      if r != MAGIC {
        ghost var v1 := v;
        SetEntry(v, use, id0, i, Pdx(va), Ptx(va), page * PAGESIZE + perm);
        assert TableOk(v, use, id0, i, Pdx(va));
        var p := v.pdir[i][Pdx(va)] / PAGESIZE;
        v := PutPage(v, p, SetPte(v.mem[p], Ptx(va), page * PAGESIZE + perm));
        UpdatedAfter(old(v), v1, v, i, Pdx(va), Ptx(va), page * PAGESIZE + perm);
      }
    }

    /** `unmap_page`: the entry is returned and cleared; nothing else changes. */
    method UnmapPage(i: nat, va: nat) returns (e: nat)
      requires Valid() && 0 < i < NUM_IDS && UserSlot(Pdx(va))
      modifies this`v, this`use
      ensures Valid() && e == old(Entry(v, i, Pdx(va), Ptx(va))) && DataKept(old(v), v, old(use))
      ensures Updated(old(v), v, i, Pdx(va), Ptx(va), 0)
      ensures use == Remapped(old(v), old(use), i, Pdx(va), Ptx(va), 0)
    {
      hide Containers.Valid;
      ghost var j, k := Pdx(va), Ptx(va);
      assert TableOk(v, use, id0, i, j) && EntryOk(v, use, i, j, k);
      e := Entry(v, i, Pdx(va), Ptx(va));
      if e != 0 {
        SetEntry(v, use, id0, i, j, k, 0);
        var p := v.pdir[i][Pdx(va)] / PAGESIZE;
        v := PutPage(v, p, SetPte(v.mem[p], Ptx(va), 0));
        RemapPt(old(v), use, id0, v, i, j, k, 0);
        RemapKeeps(old(v), use, v, i, j, k, 0, 0);
        use := Remapped(old(v), use, i, j, k, 0);
      } else {
        assert forall x: nat, y: nat, z: nat | x < NUM_IDS && y < ENTRIES && z < ENTRIES :: SameEntry(v, v, x, y, z);
      }
    }

    /**
     * `alloc_page`.  On success the address maps a page that was not allocated before; when the
     * page is had but the table is not, the page stays allocated and unmapped.
     */
    method AllocPage(i: nat, va: nat, perm: nat) returns (r: nat)
      requires Valid() && 0 < i < NUM_IDS && UserSlot(Pdx(va)) && perm < PAGESIZE
      modifies this`v, this`use, ct, ct.at
      ensures Valid() && DataKept(old(v), v, old(use))
      ensures r == MAGIC ==> v == old(v)
      ensures r != MAGIC ==>
        exists p: nat ::
          p < |old(ct.at.taken)| && !old(ct.at.taken)[p] && Updated(old(v), v, i, Pdx(va), Ptx(va), p * PAGESIZE + perm)
      ensures old(Room(i)) >= 2 ==> r != MAGIC && Room(i) >= old(Room(i)) - 2
    {
      hide Containers.Valid, FreeAbove, PtOk, MapOk, Updated;
      ContainerCount(ct);
      PtShape(v, use, id0);
      ghost var v0, use0, j, k := v, use, Pdx(va), Ptx(va);
      var pi := GetPage(i);
      if pi == 0 {
        r := MAGIC;
      } else {
        SetAside(v, use, id0, pi);
        use := use[pi := Held];
        ghost var use1 := use;
        r := MapPage(i, va, pi, perm);
        if r != MAGIC {
          MappedNew(v0, use1, v, use, id0, ct.at.norm, ct.at.taken, i, j, k, r, pi, perm);
          use := Remapped(v0, use, i, j, k, pi);
        }
      }
    }
  }

  /** The uses after a successful mapping, with `r` the table page it took, if any. */
  lemma {:induction false} MappedNew(v0: Vm, use0: seq<Use>, v: Vm, use: seq<Use>, id0: nat, norm: seq<bool>,
                                     taken: seq<bool>, i: nat, j: nat, k: nat, r: nat, p: nat, perm: nat)
    requires MapOk(v0, use0) && 0 < i < NUM_IDS && UserSlot(j) && k < ENTRIES && VM_USERLO_PI <= p < NFRAMES &&
      use0[p].Held? && perm < PAGESIZE
    requires use == if r == 0 then use0 else if r < NFRAMES then use0[r := PTable(i, j)] else []
    requires r != 0 ==> r < NFRAMES && use0[r].Spare?
    requires PtOk(v, use, id0) && Backed(use, norm, taken) && Updated(v0, v, i, j, k, p * PAGESIZE + perm)
    ensures Shape(v0, use) && PtOk(v, Remapped(v0, use, i, j, k, p), id0) && MapOk(v, Remapped(v0, use, i, j, k, p))
    ensures Backed(Remapped(v0, use, i, j, k, p), norm, taken)
  {
    hide PtOk, Updated;
    if r != 0 {
      assert forall x: nat, y: nat, z: nat | x < NUM_IDS && y < ENTRIES && z < ENTRIES :: SameEntry(v0, v0, x, y, z);
      SpareKeeps(v0, use0, v0, r, PTable(i, j));
    }
    assert Shape(v, use) by { PtShape(v, use, id0); }
    assert EntryOk(v0, use, i, j, k);
    RemapPt(v0, use, id0, v, i, j, k, p);
    RemapKeeps(v0, use, v, i, j, k, p, p * PAGESIZE + perm);
  }

  lemma {:induction false} PtShape(v: Vm, use: seq<Use>, id0: nat)
    requires PtOk(v, use, id0)
    ensures Shape(v, use)
  {
  }

  lemma {:induction false} SetAside(v: Vm, use: seq<Use>, id0: nat, p: nat)
    requires PtOk(v, use, id0) && MapOk(v, use) && VM_USERLO_PI <= p < NFRAMES && use[p].Spare?
    ensures PtOk(v, use[p := Held], id0) && MapOk(v, use[p := Held])
  {
    var use' := use[p := Held];
    assert forall x: nat, y: nat, z: nat | x < NUM_IDS && y < ENTRIES && z < ENTRIES :: SameEntry(v, v, x, y, z);
    SpareKeeps(v, use, v, p, Held);
    forall x: nat, y: nat | x < NUM_IDS && y < ENTRIES
      ensures TableOk(v, use', id0, x, y)
    {
      assert TableOk(v, use, id0, x, y);
    }
    forall q: nat | q < NFRAMES
      ensures UseOk(v, use', q)
    {
      assert UseOk(v, use, q);
    }
  }

  lemma {:induction false} UpdatedAfter(v: Vm, v1: Vm, v2: Vm, i: nat, j: nat, k: nat, e: nat)
    requires SameMap(v, v1) && Updated(v1, v2, i, j, k, e)
    ensures Updated(v, v2, i, j, k, e)
  {
    forall x: nat, y: nat, z: nat | x < NUM_IDS && y < ENTRIES && z < ENTRIES && !(x == i && y == j && z == k)
      ensures SameEntry(v, v2, x, y, z)
    {
      assert SameEntry(v, v1, x, y, z) && SameEntry(v1, v2, x, y, z);
    }
  }
}
