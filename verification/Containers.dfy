/**
 * Containers: the tree of memory quotas.  Quota given to a child is charged
 * to its parent; a page is charged before it is allocated.
 */
module Containers {
  import opened PageAlloc
  import opened Sectors

  const NUM_IDS := 64
  const MAX_CHILDREN := 3

  datatype Container = Container(quota: nat, usage: nat, parent: nat, nchildren: nat, used: bool)

  /** `container_can_consume`, in 32-bit arithmetic. */
  predicate CanConsume(c: Container, n: nat) {
    (c.usage + n) % U32 <= c.quota
  }

  /**
   * The check is right for every `n` whose sum with the usage does not wrap; when it wraps, the check always passes.
   */
  lemma {:induction false} CanConsumeExact(c: Container, n: nat)
    requires c.usage <= c.quota < U32 && n < U32
    ensures CanConsume(c, n) <==> n <= c.quota - c.usage || c.usage + n >= U32
  {
    if c.usage + n >= U32 { assert (c.usage + n) % U32 == c.usage + n - U32; }
  }

  function ChildId(id: nat, k: nat): nat {
    id * MAX_CHILDREN + 1 + k
  }

  /** Two containers never get the same child. */
  lemma {:induction false} ChildIdsDiffer(i: nat, k: nat, j: nat, l: nat)
    requires k < MAX_CHILDREN && l < MAX_CHILDREN
    ensures ChildId(i, k) == ChildId(j, l) ==> i == j && k == l
    ensures ChildId(i, k) > i
  {
  }

  /** Quota not yet used, over the first `n` containers. */
  function Slack(cs: seq<Container>, n: nat): int
    requires n <= |cs|
  {
    if n == 0 then 0 else Slack(cs, n - 1) + cs[n - 1].quota - cs[n - 1].usage
  }

  lemma {:induction false} SlackUpdate(cs: seq<Container>, i: nat, c: Container, n: nat)
    requires n <= |cs| && i < |cs|
    ensures Slack(cs[i := c], n) == Slack(cs, n) + if i < n then (c.quota - c.usage) - (cs[i].quota - cs[i].usage)
      else 0
  {
    if n > 0 { SlackUpdate(cs, i, c, n - 1); }
  }

  lemma {:induction false} SlackBound(cs: seq<Container>, i: nat, n: nat)
    requires n <= |cs| && i < |cs| && forall k | 0 <= k < |cs| :: cs[k].usage <= cs[k].quota
    ensures Slack(cs, n) >= if i < n then cs[i].quota - cs[i].usage else 0
  {
    if n > 0 { SlackBound(cs, i, n - 1); }
  }

  /** A container in use has kept within its quota, and is the child of one in use that counts it. */
  predicate InTree(cs: seq<Container>, i: nat)
    requires i < |cs|
  {
    && cs[i].usage <= cs[i].quota && cs[i].nchildren <= MAX_CHILDREN
    && (!cs[i].used ==> cs[i].quota == 0 && cs[i].nchildren == 0)
    && (cs[i].used && i > 0 ==>
        var p := cs[i].parent; p < i && cs[p].used && exists k :: 0 <= k < cs[p].nchildren && i == ChildId(p, k))
  }

  predicate TreeOk(cs: seq<Container>) {
    |cs| == NUM_IDS && cs[0].used && forall i | 0 <= i < NUM_IDS :: InTree(cs, i)
  }

  /** A container in use is found in its number: parent and place among the children. */
  lemma {:induction false} ParentOf(cs: seq<Container>, p: nat, k: nat)
    requires TreeOk(cs) && k < MAX_CHILDREN && ChildId(p, k) < NUM_IDS && cs[ChildId(p, k)].used
    ensures cs[ChildId(p, k)].parent == p && cs[p].used && k < cs[p].nchildren
  {
    var i := ChildId(p, k);
    assert InTree(cs, i) && InTree(cs, cs[i].parent);
    var l :| 0 <= l < cs[cs[i].parent].nchildren && i == ChildId(cs[i].parent, l);
    ChildIdsDiffer(p, k, cs[i].parent, l);
  }

  /** The next child of a container is a container not in use. */
  lemma {:induction false} NextChildUnused(cs: seq<Container>, id: nat)
    requires TreeOk(cs) && id < NUM_IDS && cs[id].nchildren < MAX_CHILDREN && ChildId(id, cs[id].nchildren) < NUM_IDS
    ensures !cs[ChildId(id, cs[id].nchildren)].used
  {
    if cs[ChildId(id, cs[id].nchildren)].used { ParentOf(cs, id, cs[id].nchildren); }
  }

  class Containers {
    const at: Pages
    var cs: seq<Container>
    /** Charges for which no page was handed out. */
    ghost var lost: nat

    /** Every free page is either unused quota of some container or a lost charge. */
    ghost predicate Valid()
      reads this, at
    {
      && at.Valid() && TreeOk(cs)
      && FreeCount(at.norm, at.taken, |at.norm|) == Slack(cs, NUM_IDS) + lost
    }

    /** `container_init`: the root's quota is the number of free normal pages. */
    constructor (at: Pages)
      requires at.Valid() && (forall p | 0 <= p < |at.norm| :: !at.taken[p])
      ensures Valid() && this.at == at && lost == 0 &&
        cs[0] == Container(FreeCount(at.norm, at.taken, |at.norm|), 0, 0, 0, true)
      ensures forall i | 0 < i < NUM_IDS :: cs[i] == Container(0, 0, 0, 0, false)
    {
      var quota := 0;
      var i := 1;
      while i < |at.norm|
        invariant 1 <= i <= |at.norm| && quota == FreeCount(at.norm, at.taken, i)
      {
        if at.norm[i] && !at.taken[i] { quota := quota + 1; }
        i := i + 1;
      }
      this.at, lost := at, 0;
      var none := seq(NUM_IDS, _ => Container(0, 0, 0, 0, false));
      cs := none[0 := Container(quota, 0, 0, 0, true)];
      NoSlack(none, NUM_IDS);
      SlackUpdate(none, 0, Container(quota, 0, 0, 0, true), NUM_IDS);
    }

    /** While a container has quota left, a free normal page exists. */
    lemma {:induction false} QuotaMeansPage(id: nat) returns (p: nat)
      requires Valid() && id < NUM_IDS && cs[id].usage < cs[id].quota
      ensures FreePage(at.norm, at.taken, p)
    {
      assert forall k | 0 <= k < NUM_IDS :: InTree(cs, k) ==> cs[k].usage <= cs[k].quota;
      SlackBound(cs, id, NUM_IDS);
      p := SomeFree(at.norm, at.taken, |at.norm|);
    }

    /** `container_split`, called within quota and with room for a child. */
    method Split(id: nat, quota: nat) returns (child: nat)
      requires Valid() && id < NUM_IDS && cs[id].used && quota <= cs[id].quota - cs[id].usage
      requires cs[id].nchildren < MAX_CHILDREN && ChildId(id, cs[id].nchildren) < NUM_IDS
      modifies this
      ensures Valid() && child == ChildId(id, old(cs[id].nchildren)) && !old(cs)[child].used && lost == old(lost)
      ensures cs[child] == Container(quota, 0, id, 0, true)
      ensures cs[id] == old(cs[id]).(usage := old(cs[id].usage) + quota, nchildren := old(cs[id].nchildren) + 1)
      ensures forall i | 0 <= i < NUM_IDS && i != id && i != child :: cs[i] == old(cs[i])
    {
      NextChildUnused(cs, id);
      ghost var cs0 := cs;
      assert InTree(cs, id);
      var nc := cs[id].nchildren;
      child := id * MAX_CHILDREN + 1 + nc;
      assert InTree(cs, child);
      SlackUpdate(cs, child, Container(quota, 0, id, 0, true), NUM_IDS);
      cs := cs[child := Container(quota, 0, id, 0, true)];
      var parent := cs[id].(usage := cs[id].usage + quota, nchildren := nc + 1);
      SlackUpdate(cs, id, parent, NUM_IDS);
      cs := cs[id := parent];
      forall i | 0 <= i < NUM_IDS
        ensures InTree(cs, i)
      {
        SplitKeeps(cs0, cs, id, quota, i);
      }
    }

    /** `container_alloc`: the charge comes first, and is lost if the allocator then fails. */
    method Alloc(id: nat) returns (p: nat)
      requires Valid() && id < NUM_IDS
      modifies this, at
      ensures Valid()
      ensures old(cs[id].usage) == old(cs[id].quota) ==>
        p == 0 && cs == old(cs) && at.taken == old(at.taken) && lost == old(lost)
      ensures old(cs[id].usage) < old(cs[id].quota) ==>
        && cs == old(cs)[id := old(cs[id]).(usage := old(cs[id].usage) + 1)]
        && Allocates(at.norm, old(at.cursor), old(at.taken), p, at.cursor, at.taken)
        && lost == old(lost) + if p == 0 then 1 else 0
    {
      assert InTree(cs, id);
      var u, q := cs[id].usage, cs[id].quota;
      if u == q { return 0; }
      ghost var cs0 := cs;
      SlackUpdate(cs, id, cs[id].(usage := u + 1), NUM_IDS);
      cs := cs[id := cs[id].(usage := u + 1)];
      p := at.Palloc();
      if p == 0 { lost := lost + 1; } else { FreeCountSet(at.norm, old(at.taken), p, true, |at.norm|); }
      forall i | 0 <= i < NUM_IDS
        ensures InTree(cs, i)
      {
        assert InTree(cs0, i);
      }
    }

    /** `container_free`. */
    method Free(id: nat, p: nat)
      requires Valid() && id < NUM_IDS && p < |at.norm|
      modifies this, at
      ensures Valid() && at.taken == old(at.taken)[p := false] && at.cursor == old(at.cursor)
      ensures cs ==
        old(cs)[id :=
        old(cs[id]).(usage := old(cs[id].usage) - if old(at.taken[p]) && old(cs[id].usage) > 0 then 1 else 0)]
    {
      if at.taken[p] {
        FreeCountSet(at.norm, at.taken, p, false, |at.norm|);
        at.Pfree(p);
        ghost var cs0 := cs;
        assert InTree(cs, id);
        if cs[id].usage > 0 {
          SlackUpdate(cs, id, cs[id].(usage := cs[id].usage - 1), NUM_IDS);
          cs := cs[id := cs[id].(usage := cs[id].usage - 1)];
        } else {
          lost := lost + 1;
        }
        forall i | 0 <= i < NUM_IDS
          ensures InTree(cs, i)
        {
          assert InTree(cs0, i);
        }
      }
    }
  }

  lemma {:induction false} NoSlack(cs: seq<Container>, n: nat)
    requires n <= |cs| && forall k | 0 <= k < |cs| :: cs[k].quota == cs[k].usage == 0
    ensures Slack(cs, n) == 0
  {
    if n > 0 { NoSlack(cs, n - 1); }
  }

  lemma {:induction false} SplitKeeps(cs: seq<Container>, cs': seq<Container>, id: nat, quota: nat, i: nat)
    requires TreeOk(cs) && |cs'| == NUM_IDS && id < NUM_IDS && cs[id].used && quota <= cs[id].quota - cs[id].usage &&
      cs[id].nchildren < MAX_CHILDREN
    requires var child := ChildId(id, cs[id].nchildren);
      && child < NUM_IDS && !cs[child].used
      && cs' ==
         cs[child := Container(quota, 0, id, 0, true)][id :=
         cs[id].(usage := cs[id].usage + quota, nchildren := cs[id].nchildren + 1)]
    requires i < NUM_IDS
    ensures InTree(cs', i)
  {
    var child := ChildId(id, cs[id].nchildren);
    assert InTree(cs, i) && InTree(cs, id);
    if i == child {
      assert i == ChildId(id, cs[id].nchildren) && cs[id].nchildren < cs'[id].nchildren;
    } else if cs[i].used && i > 0 {
      var p := cs[i].parent;
      var k :| 0 <= k < cs[p].nchildren && i == ChildId(p, k);
      assert k < cs'[p].nchildren;
    }
  }
}
