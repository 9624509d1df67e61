/**
 * Two-level page tables (32-bit paging): one page directory per process and
 * page tables kept in physical pages.  The abstract view is one map from
 * (process, directory index, table index) to page table entries.
 */
module PageTables {
  import opened Sectors
  import opened Frames
  import opened PageAlloc
  import opened Containers

  const PT_PERM_PTU := 7
  const MAGIC := 1048577

  datatype Vm = Vm(pdir: seq<seq<nat>>, mem: seq<Page>)

  /** What a physical page is used for, beyond the kernel's own pages. */
  datatype Use = Spare | PTable(i: nat, j: nat) | Data(i: nat, j: nat, k: nat) | Held

  predicate Shape(v: Vm, use: seq<Use>) {
    |v.pdir| == NUM_IDS && (forall i | 0 <= i < NUM_IDS :: |v.pdir[i]| == ENTRIES) && |v.mem| == |use| == NFRAMES
  }

  /** Directory slots of user addresses. */
  predicate UserSlot(j: nat) {
    256 <= j < 960
  }

  function Pdx(va: nat): nat {
    va / (4096 * 1024)
  }

  function Ptx(va: nat): nat {
    va / 4096 % 1024
  }

  /** The directory entry for table page `p`. */
  function Pde(p: nat): nat {
    p * PAGESIZE + PT_PERM_PTU
  }

  /** `get_ptbl_entry_by_va`, by indices: 0 where nothing is mapped. */
  function Entry(v: Vm, i: nat, j: nat, k: nat): nat
    requires |v.pdir| == NUM_IDS && i < NUM_IDS && |v.pdir[i]| == ENTRIES && j < ENTRIES && k < ENTRIES
  {
    var pde := v.pdir[i][j];
    if pde == 0 || pde / PAGESIZE >= |v.mem| then 0 else Pte(v.mem[pde / PAGESIZE], k)
  }

  function KernelPerm(j: nat): nat {
    if UserSlot(j) then 3 else 0x103
  }

  /** Entry `k` of identity table `j`, which is page `id0 + j`. */
  predicate IdentOk(v: Vm, id0: nat, j: nat, k: nat)
    requires |v.mem| == NFRAMES && id0 + ENTRIES <= NFRAMES && j < ENTRIES && k < ENTRIES
  {
    Pte(v.mem[id0 + j], k) == (j * 1024 + k) * PAGESIZE + KernelPerm(j)
  }

  /** Process 0 and every kernel slot use the identity tables; a user slot is empty or has a table page of its own. */
  predicate TableOk(v: Vm, use: seq<Use>, id0: nat, i: nat, j: nat)
    requires Shape(v, use) && i < NUM_IDS && j < ENTRIES
  {
    if i == 0 || !UserSlot(j) then v.pdir[i][j] == Pde(id0 + j)
    else v.pdir[i][j] == 0 ||
         (v.pdir[i][j] / PAGESIZE < NFRAMES && v.pdir[i][j] == Pde(v.pdir[i][j] / PAGESIZE) &&
         use[v.pdir[i][j] / PAGESIZE] == PTable(i, j))
  }

  predicate UseOk(v: Vm, use: seq<Use>, p: nat)
    requires Shape(v, use) && p < NFRAMES
  {
    && (p < VM_USERLO_PI ==> use[p].Spare?)
    && (use[p].PTable? ==> 0 < use[p].i < NUM_IDS && UserSlot(use[p].j) && v.pdir[use[p].i][use[p].j] == Pde(p))
  }

  ghost predicate PtOk(v: Vm, use: seq<Use>, id0: nat) {
    && Shape(v, use) && 0 < id0 && id0 + ENTRIES <= VM_USERLO_PI
    && (forall i: nat, j: nat | i < NUM_IDS && j < ENTRIES :: TableOk(v, use, id0, i, j))
    && (forall p: nat | p < NFRAMES :: UseOk(v, use, p))
    && (forall j: nat, k: nat | j < ENTRIES && k < ENTRIES :: IdentOk(v, id0, j, k))
  }

  /** Every process sees the kernel's half of memory mapped one to one, and process 0 sees all of it so. */
  lemma {:induction false} IdentityMap(v: Vm, use: seq<Use>, id0: nat, i: nat, j: nat, k: nat)
    requires PtOk(v, use, id0) && i < NUM_IDS && j < ENTRIES && k < ENTRIES && (i == 0 || !UserSlot(j))
    ensures Entry(v, i, j, k) == (j * 1024 + k) * PAGESIZE + KernelPerm(j)
  {
    assert TableOk(v, use, id0, i, j) && IdentOk(v, id0, j, k);
  }

  predicate SameEntry(v: Vm, v': Vm, i: nat, j: nat, k: nat)
    requires |v.pdir| == |v'.pdir| == NUM_IDS && i < NUM_IDS && |v.pdir[i]| == |v'.pdir[i]| == ENTRIES && j < ENTRIES &&
      k < ENTRIES
  {
    Entry(v', i, j, k) == Entry(v, i, j, k)
  }

  /** The map differs in nothing but entry (i, j, k), which is now `e`. */
  ghost predicate Updated(v: Vm, v': Vm, i: nat, j: nat, k: nat, e: nat) {
    && |v.pdir| == |v'.pdir| == NUM_IDS && i < NUM_IDS && j < ENTRIES && k < ENTRIES
    && (forall x | 0 <= x < NUM_IDS :: |v.pdir[x]| == |v'.pdir[x]| == ENTRIES)
    && Entry(v', i, j, k) == e
    && forall x: nat, y: nat, z: nat | x < NUM_IDS && y < ENTRIES && z < ENTRIES
    && !(x == i && y == j && z == k) :: SameEntry(v, v', x, y, z)
  }

  /** The map does not differ at all. */
  ghost predicate SameMap(v: Vm, v': Vm) {
    && |v.pdir| == |v'.pdir| == NUM_IDS && (forall x | 0 <= x < NUM_IDS :: |v.pdir[x]| == |v'.pdir[x]| == ENTRIES)
    && forall x: nat, y: nat, z: nat | x < NUM_IDS && y < ENTRIES && z < ENTRIES :: SameEntry(v, v', x, y, z)
  }

  /** The table page of a directory slot is no other slot's, except that processes share the identity tables. */
  lemma {:induction false} TableUnique(v: Vm, use: seq<Use>, id0: nat, i: nat, j: nat, x: nat, y: nat)
    requires PtOk(v, use, id0) && 0 < i < NUM_IDS && UserSlot(j) && v.pdir[i][j] != 0 && x < NUM_IDS && y < ENTRIES &&
      !(x == i && y == j)
    ensures v.pdir[x][y] / PAGESIZE != v.pdir[i][j] / PAGESIZE && v.pdir[i][j] / PAGESIZE >= VM_USERLO_PI
  {
    assert TableOk(v, use, id0, i, j) && TableOk(v, use, id0, x, y) && UseOk(v, use, v.pdir[i][j] / PAGESIZE);
  }

  function PutPage(v: Vm, p: nat, page: Page): Vm
    requires p < |v.mem|
  {
    v.(mem := v.mem[p := page])
  }

  /** Writing a page that is no identity table keeps the directories' invariant. */
  lemma {:induction false} PutPageKeeps(v: Vm, use: seq<Use>, id0: nat, p: nat, page: Page)
    requires PtOk(v, use, id0) && p < NFRAMES && (p < id0 || p >= VM_USERLO_PI)
    ensures PtOk(PutPage(v, p, page), use, id0)
  {
    var v' := PutPage(v, p, page);
    forall i: nat, j: nat | i < NUM_IDS && j < ENTRIES
      ensures TableOk(v', use, id0, i, j)
    {
      assert TableOk(v, use, id0, i, j);
    }
    forall q: nat | q < NFRAMES
      ensures UseOk(v', use, q)
    {
      assert UseOk(v, use, q);
    }
    forall j: nat, k: nat | j < ENTRIES && k < ENTRIES
      ensures IdentOk(v', id0, j, k)
    {
      assert IdentOk(v, id0, j, k);
    }
  }

  /** `set_ptbl_entry` and `rmv_ptbl_entry` on a user slot change one entry of the map. */
  lemma {:induction false} SetEntry(v: Vm, use: seq<Use>, id0: nat, i: nat, j: nat, k: nat, e: nat)
    requires PtOk(v, use, id0) && 0 < i < NUM_IDS && UserSlot(j) && k < ENTRIES && v.pdir[i][j] != 0 && e < U32
    ensures var p := v.pdir[i][j] / PAGESIZE;
      && p < NFRAMES && PtOk(PutPage(v, p, SetPte(v.mem[p], k, e)), use, id0)
      && Updated(v, PutPage(v, p, SetPte(v.mem[p], k, e)), i, j, k, e)
  {
    assert TableOk(v, use, id0, i, j);
    var p := v.pdir[i][j] / PAGESIZE;
    assert UseOk(v, use, p);
    var v' := PutPage(v, p, SetPte(v.mem[p], k, e));
    PutPageKeeps(v, use, id0, p, SetPte(v.mem[p], k, e));
    hide PtOk;
    PteOfSetPte(v.mem[p], k, e, k);
    forall x: nat, y: nat, z: nat | x < NUM_IDS && y < ENTRIES && z < ENTRIES && !(x == i && y == j && z == k)
      ensures SameEntry(v, v', x, y, z)
    {
      if x == i && y == j { PteOfSetPte(v.mem[p], k, e, z); } else { TableUnique(v, use, id0, i, j, x, y); }
    }
  }

  predicate Cleared(p: Page, n: nat)
    requires n <= ENTRIES
  {
    forall k | 0 <= k < n :: Pte(p, k) == 0
  }

  lemma {:induction false} ClearNext(p: Page, n: nat)
    requires n < ENTRIES && Cleared(p, n)
    ensures Cleared(SetPte(p, n, 0), n + 1)
  {
    forall k | 0 <= k < n + 1
      ensures Pte(SetPte(p, n, 0), k) == 0
    {
      PteOfSetPte(p, n, 0, k);
    }
  }

  function Hang(v: Vm, i: nat, j: nat, p: nat, page: Page): Vm
    requires i < |v.pdir| && j < |v.pdir[i]| && p < |v.mem|
  {
    var dir: seq<nat> := v.pdir[i];
    Vm(v.pdir[i := dir[j := Pde(p)]], v.mem[p := page])
  }

  /** Hanging a cleared page under an empty user slot maps nothing. */
  lemma {:induction false} NewTable(v: Vm, use: seq<Use>, id0: nat, i: nat, j: nat, p: nat, page: Page)
    requires PtOk(v, use, id0) && 0 < i < NUM_IDS && UserSlot(j) && v.pdir[i][j] == 0
    requires VM_USERLO_PI <= p < NFRAMES && use[p].Spare? && Cleared(page, ENTRIES)
    ensures PtOk(Hang(v, i, j, p, page), use[p := PTable(i, j)], id0) && SameMap(v, Hang(v, i, j, p, page))
  {
    var v', use' := Hang(v, i, j, p, page), use[p := PTable(i, j)];
    assert Pde(p) / PAGESIZE == p;
    forall x: nat, y: nat | x < NUM_IDS && y < ENTRIES
      ensures TableOk(v', use', id0, x, y)
    {
      assert TableOk(v, use, id0, x, y);
    }
    forall q: nat | q < NFRAMES
      ensures UseOk(v', use', q)
    {
      assert UseOk(v, use, q);
    }
    forall y: nat, k: nat | y < ENTRIES && k < ENTRIES
      ensures IdentOk(v', id0, y, k)
    {
      assert IdentOk(v, id0, y, k);
    }
    forall x: nat, y: nat, z: nat | x < NUM_IDS && y < ENTRIES && z < ENTRIES
      ensures SameEntry(v, v', x, y, z)
    {
      assert TableOk(v, use, id0, x, y);
    }
  }
}
