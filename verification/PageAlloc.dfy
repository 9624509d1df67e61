/**
 * The physical page allocator: a table of pages with permission and
 * allocation flags, scanned from a cursor that does not wrap around.
 */
module PageAlloc {
  /** First physical page of user memory; also where the cursor starts. */
  const VM_USERLO_PI := 262144

  predicate FreePage(norm: seq<bool>, taken: seq<bool>, p: nat) {
    0 < p < |norm| == |taken| && norm[p] && !taken[p]
  }

  /** The number of free normal pages below `n`, page 0 aside. */
  function FreeCount(norm: seq<bool>, taken: seq<bool>, n: nat): nat
    requires n <= |norm| == |taken|
  {
    if n == 0 then 0 else FreeCount(norm, taken, n - 1) + if FreePage(norm, taken, n - 1) then 1 else 0
  }

  lemma {:induction false} FreeCountSet(norm: seq<bool>, taken: seq<bool>, p: nat, v: bool, n: nat)
    requires p < n <= |norm| == |taken| && 0 < p && norm[p] && taken[p] != v
    ensures FreeCount(norm, taken[p := v], n) == FreeCount(norm, taken, n) + if v then -1 else 1
  {
    if p < n - 1 { FreeCountSet(norm, taken, p, v, n - 1); } else { FreeCountAbove(norm, taken, p, v, n - 1); }
  }

  lemma {:induction false} FreeCountAbove(norm: seq<bool>, taken: seq<bool>, p: nat, v: bool, n: nat)
    requires n <= p < |norm| == |taken|
    ensures FreeCount(norm, taken[p := v], n) == FreeCount(norm, taken, n)
  {
    if n > 0 { FreeCountAbove(norm, taken, p, v, n - 1); }
  }

  /** A positive count is a free page. */
  lemma {:induction false} SomeFree(norm: seq<bool>, taken: seq<bool>, n: nat) returns (p: nat)
    requires n <= |norm| == |taken| && FreeCount(norm, taken, n) > 0
    ensures FreePage(norm, taken, p)
  {
    if FreePage(norm, taken, n - 1) { p := n - 1; } else { p := SomeFree(norm, taken, n - 1); }
  }

  /**
   * What one call of `palloc` does from a cursor: the first free page above it, or 0 and the cursor back at the bottom.
   */
  ghost predicate Allocates(norm: seq<bool>, cursor: nat, taken: seq<bool>, p: nat, cursor': nat, taken': seq<bool>) {
    && (p == 0 ==> (forall i | cursor < i < |norm| :: !FreePage(norm, taken, i)) && cursor' == 0 && taken' == taken)
    && (p != 0 ==>
        && cursor < p && FreePage(norm, taken, p) && (forall i | cursor < i < p :: !FreePage(norm, taken, i))
        && cursor' == p && taken' == taken[p := true])
  }

  /** If `palloc` fails while a page is free, the very next call succeeds. */
  lemma {:induction false} SecondTrySucceeds(norm: seq<bool>, c0: nat, a0: seq<bool>, c1: nat, a1: seq<bool>, p: nat,
                                             c2: nat, a2: seq<bool>, x: nat)
    requires FreePage(norm, a0, x) && Allocates(norm, c0, a0, 0, c1, a1) && Allocates(norm, c1, a1, p, c2, a2)
    ensures p != 0 && FreePage(norm, a0, p) && p <= x
  {
  }

  /** The number of free pages above the cursor. */
  function FreeAbove(norm: seq<bool>, taken: seq<bool>, cursor: nat): int
    requires |norm| == |taken|
  {
    if cursor < |norm| then FreeCount(norm, taken, |norm|) - FreeCount(norm, taken, cursor + 1) else 0
  }

  lemma {:induction false} NoneBetween(norm: seq<bool>, taken: seq<bool>, lo: nat, hi: nat)
    requires lo <= hi <= |norm| == |taken| && forall i | lo <= i < hi :: !FreePage(norm, taken, i)
    ensures FreeCount(norm, taken, hi) == FreeCount(norm, taken, lo)
  {
    if lo < hi { NoneBetween(norm, taken, lo, hi - 1); }
  }

  lemma {:induction false} FreeCountMono(norm: seq<bool>, taken: seq<bool>, lo: nat, hi: nat)
    requires lo <= hi <= |norm| == |taken|
    ensures FreeCount(norm, taken, lo) <= FreeCount(norm, taken, hi)
  {
    if lo < hi { FreeCountMono(norm, taken, lo, hi - 1); }
  }

  /** `palloc` fails exactly when no page above the cursor is free, and otherwise uses up one of them. */
  lemma {:induction false} AllocatesAbove(norm: seq<bool>, cursor: nat, taken: seq<bool>, p: nat, cursor': nat,
                                          taken': seq<bool>)
    requires |norm| == |taken| && Allocates(norm, cursor, taken, p, cursor', taken')
    ensures p == 0 <==> FreeAbove(norm, taken, cursor) == 0
    ensures p != 0 ==> |taken'| == |norm| && FreeAbove(norm, taken', cursor') == FreeAbove(norm, taken, cursor) - 1
    ensures FreeAbove(norm, taken, cursor) >= 0
  {
    if p == 0 {
      if cursor < |norm| { NoneBetween(norm, taken, cursor + 1, |norm|); }
    } else {
      NoneBetween(norm, taken, cursor + 1, p);
      FreeCountSet(norm, taken, p, true, |norm|);
      FreeCountAbove(norm, taken, p, true, p);
      FreeCountMono(norm, taken, p + 1, |norm|);
    }
  }

  lemma {:induction false} SmallMod(x: nat, n: nat)
    requires x < n
    ensures x % n == x
  {
  }

  class Pages {
    const norm: seq<bool>
    var taken: seq<bool>
    var cursor: nat

    predicate Valid()
      reads this
    {
      |norm| == |taken| && 0 < |norm| && forall p | 0 <= p < |taken| :: taken[p] ==> p > 0 && norm[p]
    }

    /** The table as `pmem_init` leaves it. */
    constructor (norm: seq<bool>)
      requires 0 < |norm|
      ensures Valid() && this.norm == norm && taken == seq(|norm|, _ => false)
    {
      this.norm, taken, cursor := norm, seq(|norm|, _ => false), VM_USERLO_PI;
    }

    /** `palloc`. */
    method Palloc() returns (p: nat)
      requires Valid()
      modifies this
      ensures Valid() && Allocates(norm, old(cursor), old(taken), p, cursor, taken)
    {
      var tnps := |norm|;
      var index := cursor + 1;
      var free := tnps;
      while index < tnps && free == tnps
        invariant cursor < index && (free == tnps || (cursor < free == index - 1 && FreePage(norm, taken, free)))
        invariant forall i | cursor < i < index && i < |norm| && i != free :: !FreePage(norm, taken, i)
        decreases tnps - index
      {
        if norm[index] && !taken[index] { free := index; }
        index := index + 1;
      }
      if free == tnps { free := 0; } else { taken := taken[free := true]; }
      SmallMod(free, tnps);
      cursor := free % tnps;
      return free;
    }

    /** `pfree`. */
    method Pfree(p: nat)
      requires Valid() && p < |norm|
      modifies this
      ensures Valid() && taken == old(taken)[p := false] && cursor == old(cursor)
    {
      taken := taken[p := false];
    }
  }
}
