/** Bringing memory up: from the BIOS map through the allocation table and the containers to the page tables. */
module Boot {
  import opened Frames
  import opened PageAlloc
  import opened Containers
  import opened PageTables
  import opened AddressSpaces
  import opened MemMap

  /** Every page that can be handed out lies wholly in memory the BIOS reported as usable. */
  ghost predicate OnlyUsable(norm: seq<bool>, ps: seq<Report>) {
    forall p: nat, a: nat | p < |norm| && norm[p] && p * PAGESIZE <= a < (p + 1) * PAGESIZE :: Usable(ps, a)
  }

  ghost predicate Usable(ps: seq<Report>, a: nat) {
    Reported(ps, |ps|, MEM_RAM, a)
  }

  /**
   * From `pmmap_init` to `pdir_init_kern`: address spaces in which no user address is mapped yet, over usable pages
   * only.
   */
  method Init(ps: seq<Report>, mem0: seq<Page>, id0: nat) returns (sp: Spaces)
    requires 0 < LowCount(ps, |ps|) <= SLOTS && (forall k | 0 <= k < |ps| :: ps[k].Ok())
    requires |mem0| == NFRAMES && 0 < id0 && id0 + ENTRIES <= VM_USERLO_PI
    ensures fresh(sp) && sp.Valid() && OnlyUsable(sp.ct.at.norm, ps)
    ensures forall p: nat | p < |sp.ct.at.norm| :: !sp.ct.at.taken[p]
    ensures forall i: nat, j: nat, k: nat | 0 < i < NUM_IDS && UserSlot(j) && k < ENTRIES :: Entry(sp.v, i, j, k) == 0
  {
    hide Perm, Covered, Reported;
    var m := MemMap.Init(ps);
    var perm := PmemInit(m.list);
    var at := AllocationTable(perm, m.list);
    forall p: nat, a: nat | p < |at.norm| && at.norm[p] && p * PAGESIZE <= a < (p + 1) * PAGESIZE
      ensures Usable(ps, a)
    {
      UsableIsReported(ps, m.list, p, a);
    }
    var ct := new Containers(at);
    sp := new Spaces(ct, mem0, id0);
  }
}
