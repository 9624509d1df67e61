/**
 * The physical memory map: regions reported by the BIOS, kept in a list
 * sorted by start, merged, and turned into the permissions of pages.
 */
module MemMap {
  import opened Frames
  import opened PageAlloc

  const TOP := 0xffff_ffff
  const SLOTS := 128
  const MEM_RAM := 1
  const VM_USERHI_PI := 983040

  datatype Region = Region(start: nat, end: nat, typ: nat)

  /** One entry of the BIOS map: a base and a length of 64 bits each, in two halves. */
  datatype Report = Report(baseLow: nat, baseHigh: nat, lengthLow: nat, lengthHigh: nat, typ: nat) {
    predicate Ok() {
      baseLow <= TOP && baseHigh <= TOP && lengthLow <= TOP && lengthHigh <= TOP
    }

    /** The entry reports address `a`. */
    predicate Has(a: nat) {
      0x1_0000_0000 * baseHigh + baseLow <= a < 0x1_0000_0000 * baseHigh + baseLow + 0x1_0000_0000 * lengthHigh +
        lengthLow
    }
  }

  predicate Holds(r: Region, t: nat, a: nat) {
    r.typ == t && r.start <= a < r.end
  }

  ghost predicate Covered(l: seq<Region>, t: nat, a: nat) {
    exists k :: 0 <= k < |l| && Holds(l[k], t, a)
  }

  ghost predicate Sorted(l: seq<Region>) {
    forall i, j | 0 <= i < j < |l| :: l[i].start <= l[j].start
  }

  ghost predicate Proper(l: seq<Region>) {
    forall k | 0 <= k < |l| :: l[k].start <= l[k].end <= TOP
  }

  function Insertion(l: seq<Region>, r: Region, k: nat): seq<Region>
    requires k <= |l|
  {
    l[..k] + [r] + l[k..]
  }

  lemma {:induction false} InsertionCover(l: seq<Region>, r: Region, k: nat, t: nat, a: nat)
    requires k <= |l|
    ensures Covered(Insertion(l, r, k), t, a) <==> Covered(l, t, a) || Holds(r, t, a)
  {
    var l' := Insertion(l, r, k);
    if Covered(l, t, a) {
      var j :| 0 <= j < |l| && Holds(l[j], t, a);
      assert l'[if j < k then j else j + 1] == l[j];
    }
    if Holds(r, t, a) { assert l'[k] == r; }
    if Covered(l', t, a) {
      var j :| 0 <= j < |l'| && Holds(l'[j], t, a);
      if j != k { assert l'[j] == l[if j < k then j else j - 1]; }
    }
  }

  predicate Mergeable(r: Region, s: Region) {
    r.start <= s.start && r.end >= s.start && r.typ == s.typ
  }

  function Larger(x: nat, y: nat): nat {
    if x > y then x else y
  }

  function Join(r: Region, s: Region): Region {
    r.(end := Larger(r.end, s.end))
  }

  /** Some region of the list, of the same type, reaches over all of `r`. */
  ghost predicate Absorbed(l: seq<Region>, r: Region) {
    exists k :: 0 <= k < |l| && Within(r, l[k])
  }

  predicate Within(r: Region, s: Region) {
    r.typ == s.typ && s.start <= r.start && r.end <= s.end
  }

  lemma {:induction false} InsertionAbsorbs(l: seq<Region>, r: Region, k: nat, s: Region)
    requires k <= |l|
    ensures Absorbed(Insertion(l, r, k), r) && (Absorbed(l, s) ==> Absorbed(Insertion(l, r, k), s))
  {
    var l' := Insertion(l, r, k);
    assert Within(r, l'[k]);
    if Absorbed(l, s) {
      var j :| 0 <= j < |l| && Within(s, l[j]);
      assert Within(s, l'[if j < k then j else j + 1]);
    }
  }

  /** Merging breaks no region up. */
  lemma {:induction false} MergedAbsorbs(l: seq<Region>, r: Region)
    requires Absorbed(l, r)
    ensures Absorbed(Merged(l), r)
    decreases |l|
  {
    if |l| >= 2 {
      var j :| 0 <= j < |l| && Within(r, l[j]);
      var joins := Mergeable(l[0], l[1]);
      var head, k := if joins then Join(l[0], l[1]) else l[0], if joins then 2 else 1;
      if j < k {
        assert Within(r, Merged(l)[0]);
      } else {
        assert Within(r, l[k..][j - k]);
        MergedAbsorbs(l[k..], r);
        var x :| 0 <= x < |Merged(l[k..])| && Within(r, Merged(l[k..])[x]);
        assert Merged(l)[x + 1] == Merged(l[k..])[x];
      }
    }
  }

  /** One pass over the list: a region absorbs its neighbour where they overlap or touch, and is then left behind. */
  function Merged(l: seq<Region>): (r: seq<Region>)
    ensures |r| <= |l| && (l == [] <==> r == [])
  {
    if |l| < 2 then l
    else if Mergeable(l[0], l[1]) then [Join(l[0], l[1])] + Merged(l[2..])
    else [l[0]] + Merged(l[1..])
  }

  lemma {:induction false} ConsCover(r: Region, l: seq<Region>, t: nat, a: nat)
    ensures Covered([r] + l, t, a) <==> Holds(r, t, a) || Covered(l, t, a)
  {
    assert [r] + l == Insertion(l, r, 0);
    InsertionCover(l, r, 0, t, a);
  }

  /** Merging covers the same addresses, type by type. */
  lemma {:induction false} MergedCover(l: seq<Region>, t: nat, a: nat)
    ensures Covered(Merged(l), t, a) == Covered(l, t, a)
    decreases |l|
  {
    if |l| >= 2 {
      ConsCover(l[0], l[1..], t, a);
      assert l == [l[0]] + l[1..];
      if Mergeable(l[0], l[1]) {
        MergedCover(l[2..], t, a);
        ConsCover(Join(l[0], l[1]), Merged(l[2..]), t, a);
        ConsCover(l[1], l[2..], t, a);
        assert l[1..] == [l[1]] + l[2..];
      } else {
        MergedCover(l[1..], t, a);
        ConsCover(l[0], Merged(l[1..]), t, a);
      }
    }
  }

  lemma {:induction false} SortedCons(r: Region, l: seq<Region>)
    requires Sorted(l) && Proper(l) && r.start <= r.end <= TOP && (l == [] || r.start <= l[0].start)
    ensures Sorted([r] + l) && Proper([r] + l)
  {
    forall j | 0 <= j < |l|
      ensures r.start <= l[j].start
    {
      if j > 0 { assert l[0].start <= l[j].start; }
    }
  }

  lemma {:induction false} SortedTail(l: seq<Region>, k: nat)
    requires Sorted(l) && Proper(l) && k <= |l|
    ensures Sorted(l[k..]) && Proper(l[k..])
  {
  }

  lemma {:induction false} MergedSorted(l: seq<Region>)
    requires Sorted(l) && Proper(l)
    ensures Sorted(Merged(l)) && Proper(Merged(l)) && (l != [] ==> Merged(l)[0].start == l[0].start)
    decreases |l|
  {
    if |l| >= 2 {
      var joins := Mergeable(l[0], l[1]);
      var head, k := if joins then Join(l[0], l[1]) else l[0], if joins then 2 else 1;
      assert head.start <= head.end <= TOP && (k < |l| ==> head.start <= l[k].start);
      SortedTail(l, k);
      assert Merged(l) == [head] + Merged(l[k..]);
      hide Sorted, Proper;
      MergedSorted(l[k..]);
      SortedCons(head, Merged(l[k..]));
    }
  }

  ghost predicate FullyMerged(l: seq<Region>) {
    forall k | 0 < k < |l| :: !Mergeable(l[k - 1], l[k])
  }

  /** No region that absorbs its neighbour also reaches the one after. */
  predicate NoChain(l: seq<Region>) {
    if |l| < 3 then true
    else if Mergeable(l[0], l[1]) then !Mergeable(Join(l[0], l[1]), l[2]) && NoChain(l[2..])
    else NoChain(l[1..])
  }

  /**
   * The pass does not look again at a region that has absorbed one, so it merges fully exactly when there is no chain.
   */
  lemma {:induction false} MergedFully(l: seq<Region>)
    ensures FullyMerged(Merged(l)) <==> NoChain(l)
    ensures l != [] ==> Merged(l)[0].start == l[0].start && Merged(l)[0].typ == l[0].typ
    decreases |l|
  {
    if |l| >= 2 {
      var joins := Mergeable(l[0], l[1]);
      var head, rest := if joins then Join(l[0], l[1]) else l[0], if joins then l[2..] else l[1..];
      MergedFully(rest);
      var m := Merged(rest);
      assert Merged(l) == [head] + m;
      assert FullyMerged([head] + m) <==>
        (m == [] || !Mergeable(head, m[0])) && FullyMerged(m) by { FullyMergedCons(head, m); }
    }
  }

  lemma {:induction false} FullyMergedCons(r: Region, m: seq<Region>)
    ensures FullyMerged([r] + m) <==> (m == [] || !Mergeable(r, m[0])) && FullyMerged(m)
  {
    var l := [r] + m;
    if FullyMerged(l) {
      if m != [] { assert !Mergeable(l[0], l[1]); }
      forall k | 0 < k < |m|
        ensures !Mergeable(m[k - 1], m[k])
      {
        assert !Mergeable(l[k], l[k + 1]);
      }
    }
  }

  /** Three regions in a row, each reaching into the next, are left as two that still overlap. */
  lemma {:induction false} ChainOfThree()
    ensures var l := [Region(0, 10, MEM_RAM), Region(5, 20, MEM_RAM), Region(15, 30, MEM_RAM)];
      Merged(l) == [Region(0, 20, MEM_RAM), Region(15, 30, MEM_RAM)] && !FullyMerged(Merged(l))
  {
    var l := [Region(0, 10, MEM_RAM), Region(5, 20, MEM_RAM), Region(15, 30, MEM_RAM)];
    assert l[2..] == [Region(15, 30, MEM_RAM)];
    assert Merged(l) == [Region(0, 20, MEM_RAM), Region(15, 30, MEM_RAM)];
    assert Mergeable(Merged(l)[0], Merged(l)[1]);
  }

  class Map {
    var list: seq<Region>
    var used: nat

    ghost predicate Valid()
      reads this
    {
      Sorted(list) && Proper(list)
    }

    constructor ()
      ensures Valid() && list == [] && used == 0
    {
      list, used := [], 0;
    }

    /** `pmmap_insert`: behind every region that starts no later. */
    method Insert(start: nat, end: nat, typ: nat)
      requires Valid() && used < SLOTS && start <= end <= TOP
      modifies this
      ensures Valid() && used == old(used) + 1
      ensures exists k ::
        0 <= k <= |old(list)| && list == Insertion(old(list), Region(start, end, typ), k) &&
        (forall j | 0 <= j < k :: old(list)[j].start <= start)
    {
      var k := 0;
      while k < |list| && start >= list[k].start
        invariant k <= |list| && forall j | 0 <= j < k :: list[j].start <= start
      {
        k := k + 1;
      }
      used := used + 1;
      list := Insertion(list, Region(start, end, typ), k);
    }

    /** `pmmap_merge`, its first step. */
    method Merge()
      requires Valid()
      modifies this`list
      ensures Valid() && list == Merged(old(list))
    {
      MergedSorted(list);
      hide Merged, Sorted, Proper;
      var i := 0;
      assert list[..0] + Merged(list) == Merged(list) && list[0..] == list;
      while i + 1 < |list|
        invariant i <= |list| && Merged(old(list)) == list[..i] + Merged(list[i..])
        decreases |list| - i
      {
        MergedStep(list, i);
        if Mergeable(list[i], list[i + 1]) { list := list[..i] + [Join(list[i], list[i + 1])] + list[i + 2..]; }
        i := i + 1;
      }
      MergedStep(list, i);
    }
  }

  lemma {:induction false} Regroup(a: seq<Region>, r: Region, b: seq<Region>)
    ensures a + ([r] + b) == (a + [r]) + b
  {
  }

  /** The list with its front done: one round of the loop, and its end. */
  lemma {:induction false} MergedStep(l: seq<Region>, i: nat)
    requires i <= |l|
    ensures i + 1 >= |l| ==> l[..i] + Merged(l[i..]) == l
    ensures i + 1 < |l| ==>
      var l' := if Mergeable(l[i], l[i + 1]) then l[..i] + [Join(l[i], l[i + 1])] + l[i + 2..] else l;
      i + 1 <= |l'| && l[..i] + Merged(l[i..]) == l'[..i + 1] + Merged(l'[i + 1..])
  {
    var rest := l[i..];
    if i + 1 >= |l| {
      assert Merged(rest) == rest;
    } else if Mergeable(l[i], l[i + 1]) {
      var head, tail := l[..i] + [Join(l[i], l[i + 1])], l[i + 2..];
      assert Merged(rest) == [Join(l[i], l[i + 1])] + Merged(rest[2..]);
      hide Merged;
      assert rest[2..] == tail;
      assert (head + tail)[i + 1..] == tail && (head + tail)[..i + 1] == head;
      Regroup(l[..i], Join(l[i], l[i + 1]), Merged(tail));
    } else {
      assert Merged(rest) == [l[i]] + Merged(rest[1..]);
      hide Merged;
      assert rest[1..] == l[i + 1..];
      assert l[..i + 1] == l[..i] + [l[i]];
      Regroup(l[..i], l[i], Merged(l[i + 1..]));
    }
  }

  /** The region an entry becomes: what lies below the top of 32-bit memory. */
  function Clipped(p: Report): Region
    requires p.Ok()
  {
    Region(p.baseLow, if p.lengthHigh != 0 || p.lengthLow >= TOP - p.baseLow then TOP
      else p.baseLow + p.lengthLow, p.typ)
  }

  lemma {:induction false} ClippedHolds(p: Report, t: nat, a: nat)
    requires p.Ok() && a < TOP && p.baseHigh == 0
    ensures Holds(Clipped(p), t, a) <==> p.typ == t && p.Has(a)
  {
  }

  ghost predicate Reported(ps: seq<Report>, n: nat, t: nat, a: nat)
    requires n <= |ps|
  {
    exists k :: 0 <= k < n && ps[k].typ == t && ps[k].Has(a)
  }

  /** Entries that start below 4 GB, among the first `n`: the others are passed over. */
  function LowCount(ps: seq<Report>, n: nat): nat
    requires n <= |ps|
  {
    if n == 0 then 0 else LowCount(ps, n - 1) + if ps[n - 1].baseHigh == 0 then 1 else 0
  }

  lemma {:induction false} LowCountMono(ps: seq<Report>, m: nat, n: nat)
    requires m <= n <= |ps|
    ensures LowCount(ps, m) <= LowCount(ps, n)
  {
    if m < n { LowCountMono(ps, m, n - 1); }
  }

  /** `pmmap_init`: the list covers exactly what the BIOS reported below the top of memory, type by type. */
  method Init(ps: seq<Report>) returns (m: Map)
    requires LowCount(ps, |ps|) <= SLOTS && forall k | 0 <= k < |ps| :: ps[k].Ok()
    ensures fresh(m) && m.Valid() && (LowCount(ps, |ps|) > 0 ==> m.list != [])
    ensures forall t: nat, a: nat | a < TOP :: Covered(m.list, t, a) == Reported(ps, |ps|, t, a)
    ensures forall k | 0 <= k < |ps| :: ps[k].baseHigh == 0 ==> Absorbed(m.list, Clipped(ps[k]))
  {
    m := new Map();
    var i := 0;
    while i < |ps|
      invariant i <= |ps| && fresh(m) && m.Valid() && m.used == |m.list| == LowCount(ps, i)
      invariant forall t: nat, a: nat | a < TOP :: Covered(m.list, t, a) == Reported(ps, i, t, a)
      invariant forall k | 0 <= k < i :: ps[k].baseHigh == 0 ==> Absorbed(m.list, Clipped(ps[k]))
    {
      var p := ps[i];
      ghost var l := m.list;
      LowCountMono(ps, i + 1, |ps|);
      if p.baseHigh == 0 {
        var r := Clipped(p);
        m.Insert(r.start, r.end, r.typ);
        ghost var k :| 0 <= k <= |l| && m.list == Insertion(l, r, k);
        forall t: nat, a: nat | a < TOP
          ensures Covered(m.list, t, a) == Reported(ps, i + 1, t, a)
        {
          InsertionCover(l, r, k, t, a);
          ReportedNext(ps, i, t, a);
        }
        forall x | 0 <= x < i + 1 && ps[x].baseHigh == 0
          ensures Absorbed(m.list, Clipped(ps[x]))
        {
          InsertionAbsorbs(l, r, k, Clipped(ps[x]));
        }
      } else {
        forall t: nat, a: nat | a < TOP
          ensures Covered(m.list, t, a) == Reported(ps, i + 1, t, a)
        {
          ReportedNext(ps, i, t, a);
        }
      }
      i := i + 1;
    }
    ghost var l := m.list;
    m.Merge();
    forall t: nat, a: nat | a < TOP
      ensures Covered(m.list, t, a) == Reported(ps, |ps|, t, a)
    {
      MergedCover(l, t, a);
    }
    forall k | 0 <= k < |ps| && ps[k].baseHigh == 0
      ensures Absorbed(m.list, Clipped(ps[k]))
    {
      MergedAbsorbs(l, Clipped(ps[k]));
    }
  }

  lemma {:induction false} ReportedNext(ps: seq<Report>, i: nat, t: nat, a: nat)
    requires i < |ps| && ps[i].Ok() && a < TOP
    ensures Reported(ps, i + 1, t, a) <==> Reported(ps, i, t, a) || (ps[i].baseHigh == 0 && Holds(Clipped(ps[i]), t, a))
  {
    if ps[i].baseHigh == 0 { ClippedHolds(ps[i], t, a); }
    if ps[i].typ == t && ps[i].Has(a) { assert Reported(ps, i + 1, t, a); }
    if Reported(ps, i, t, a) {
      var k :| 0 <= k < i && ps[k].typ == t && ps[k].Has(a);
      assert k < i + 1;
    }
  }

  // Permissions of pages

  /** Region `r` contains the whole of page `i`. */
  predicate Contains(r: Region, i: nat) {
    r.start <= i * PAGESIZE && (i + 1) * PAGESIZE <= r.end
  }

  /** The first region at or after `j` that contains page `i`, or the length of the list. */
  function FirstWith(l: seq<Region>, i: nat, j: nat): nat
    requires j <= |l|
    decreases |l| - j
  {
    if j == |l| || Contains(l[j], i) then j else FirstWith(l, i, j + 1)
  }

  /**
   * The permission of page `i`: 1 for the kernel's, 2 for a user page whose first containing region is usable, else 0.
   */
  function Perm(l: seq<Region>, i: nat): nat {
    if i < VM_USERLO_PI || i >= VM_USERHI_PI then 1
    else
      var j := FirstWith(l, i, 0);
      if FirstBounded(l, i, 0); j < |l| && l[j].typ == MEM_RAM then 2 else 0
  }

  lemma {:induction false} FirstBounded(l: seq<Region>, i: nat, j: nat)
    requires j <= |l|
    ensures j <= FirstWith(l, i, j) <= |l| && (FirstWith(l, i, j) < |l| ==> Contains(l[FirstWith(l, i, j)], i))
    ensures forall k | j <= k < FirstWith(l, i, j) :: !Contains(l[k], i)
    decreases |l| - j
  {
    if j < |l| && !Contains(l[j], i) { FirstBounded(l, i, j + 1); }
  }

  /** `pmem_init`: the number of pages and the permission of each. */
  method PmemInit(l: seq<Region>) returns (perm: seq<nat>)
    requires Proper(l)
    ensures |perm| <= NFRAMES && (l != [] ==> 0 < |perm|) && (forall k | 0 <= k < |l| :: l[k].end < |perm| * PAGESIZE)
    ensures if l == [] then perm == [] else exists k :: 0 <= k < |l| && |perm| == l[k].end / PAGESIZE + 1
    ensures forall i | 0 <= i < |perm| :: perm[i] == Perm(l, i)
  {
    var i, nps := 0, 0;
    while i < |l|
      invariant i <= |l| && nps <= NFRAMES && (i > 0 ==> nps > 0) && forall k | 0 <= k < i :: l[k].end < nps * PAGESIZE
      invariant if i == 0 then nps == 0 else exists k :: 0 <= k < i && nps == l[k].end / PAGESIZE + 1
    {
      var s, len := l[i].start, l[i].end - l[i].start;
      var maxs := (s + len) / PAGESIZE + 1;
      if maxs > nps { nps := maxs; }
      i := i + 1;
    }
    perm := [];
    i := 0;
    while i < nps
      invariant i == |perm| <= nps && forall k | 0 <= k < i :: perm[k] == Perm(l, k)
    {
      if i < VM_USERLO_PI || i >= VM_USERHI_PI {
        perm := perm + [1];
      } else {
        var p := PagePerm(l, i);
        perm := perm + [p];
      }
      i := i + 1;
    }
  }

  /** The search through the regions for one page. */
  method PagePerm(l: seq<Region>, i: nat) returns (p: nat)
    requires Proper(l) && VM_USERLO_PI <= i < VM_USERHI_PI
    ensures p == Perm(l, i)
  {
    var j, flag, isnorm := 0, false, false;
    while j < |l| && !flag
      invariant j <= |l| && (flag ==> 0 < j && FirstWith(l, i, 0) == j - 1 && isnorm == (l[j - 1].typ == MEM_RAM))
      invariant !flag ==> FirstWith(l, i, 0) == FirstWith(l, i, j)
    {
      var s, len := l[j].start, l[j].end - l[j].start;
      isnorm := l[j].typ == MEM_RAM;
      if s <= i * PAGESIZE && len + s >= (i + 1) * PAGESIZE { flag := true; }
      j := j + 1;
    }
    p := if flag && isnorm then 2 else 0;
  }

  /** A page with permission 2 lies wholly in memory the BIOS reported as usable, and in the user range. */
  lemma {:induction false} UsableIsReported(ps: seq<Report>, l: seq<Region>, i: nat, a: nat)
    requires Proper(l) && (forall t: nat, x: nat | x < TOP :: Covered(l, t, x) == Reported(ps, |ps|, t, x))
    requires Perm(l, i) == 2 && i * PAGESIZE <= a < (i + 1) * PAGESIZE
    ensures VM_USERLO_PI <= i < VM_USERHI_PI && Reported(ps, |ps|, MEM_RAM, a)
  {
    FirstBounded(l, i, 0);
    assert Holds(l[FirstWith(l, i, 0)], MEM_RAM, a);
    assert Covered(l, MEM_RAM, a);
  }

  /** Region `k` is the first to contain page `i`. */
  ghost predicate FirstToContain(l: seq<Region>, i: nat, k: nat) {
    k < |l| && Contains(l[k], i) && forall j | 0 <= j < k :: !Contains(l[j], i)
  }

  /** A user page has permission 2 exactly if the first region to contain it is usable. */
  lemma {:induction false} UsableExactly(l: seq<Region>, i: nat)
    ensures Perm(l, i) == 2 <==>
      VM_USERLO_PI <= i < VM_USERHI_PI && exists k: nat :: FirstToContain(l, i, k) && l[k].typ == MEM_RAM
  {
    FirstBounded(l, i, 0);
    var j := FirstWith(l, i, 0);
    if j < |l| { assert FirstToContain(l, i, j); }
    forall k: nat | FirstToContain(l, i, k)
      ensures k == j
    {
    }
  }

  /**
   * A user page that lies wholly in one entry of the BIOS's for usable memory has permission 2, unless the BIOS gives
   * every byte of it some other use as well.
   */
  lemma {:induction false} ReportedIsUsable(ps: seq<Report>, l: seq<Region>, i: nat, k: nat, a: nat)
    requires k < |ps| && ps[k].Ok() && ps[k].baseHigh == 0 && ps[k].typ == MEM_RAM && Contains(Clipped(ps[k]), i)
    requires VM_USERLO_PI <= i < VM_USERHI_PI && i * PAGESIZE <= a < (i + 1) * PAGESIZE && Absorbed(l, Clipped(ps[k]))
    requires forall t: nat, x: nat | x < TOP :: Covered(l, t, x) == Reported(ps, |ps|, t, x)
    requires forall t: nat :: Reported(ps, |ps|, t, a) ==> t == MEM_RAM
    ensures Perm(l, i) == 2
  {
    FirstBounded(l, i, 0);
    var j := FirstWith(l, i, 0);
    var x :| 0 <= x < |l| && Within(Clipped(ps[k]), l[x]);
    assert Contains(l[x], i);
    assert j < |l| && Holds(l[j], l[j].typ, a);
    assert Covered(l, l[j].typ, a);
  }

  /** The allocation table that follows: only user pages are normal. */
  method AllocationTable(perm: seq<nat>, ghost l: seq<Region>) returns (at: Pages)
    requires 0 < |perm| <= NFRAMES && forall i | 0 <= i < |perm| :: perm[i] == Perm(l, i)
    ensures fresh(at) && at.Valid() && |at.norm| == |perm| && forall p: nat | p < |at.norm| ::
      at.norm[p] <==> perm[p] == 2
    ensures forall p: nat | p < |at.norm| :: (at.norm[p] ==> p >= VM_USERLO_PI) && !at.taken[p]
  {
    at := new Pages(seq(|perm|, i requires 0 <= i < |perm| => perm[i] > 1));
  }
}
