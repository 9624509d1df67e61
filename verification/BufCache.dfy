/**
 * The buffer cache: NBUF in-memory copies of disk sectors on a doubly linked
 * most-recently-used ring, over a disk that is written one sector at a time.
 *
 * The ring is index based (`HEAD` is the list head).  The abstract state says
 * what it all means: `ring` lists the buffers met when walking `next` from the
 * head, `at` maps a cached sector to its buffer, `view` is what a reader of
 * each sector sees, `held` and `pinned` are the sectors of the busy and of the
 * dirty buffers, and `trace` records the disk after every sector write: a crash
 * leaves one of its entries behind.
 */
module BufCache {
  const NBUF := 10
  const HEAD := NBUF
  const ROOTDEV := 1
  const NODEV := -1

  datatype Option<+T> = None | Some(value: T)

  datatype Buf<D> = Buf(dev: int, sector: nat, busy: bool, valid: bool, dirty: bool, data: D)
  {
    predicate Clean() { !busy && !dirty }
    predicate Holds(s: nat) { dev == ROOTDEV && sector == s }
    predicate Free() { dev == NODEV && Clean() }
  }

  /** The concrete cache and disk. */
  datatype Cache<D> = Cache(bufs: seq<Buf<D>>, prev: seq<nat>, next: seq<nat>, disk: seq<D>)

  /** The abstract cache a `Cache` represents. */
  datatype Abs<D> = Abs(disk: seq<D>, view: seq<D>, at: seq<int>, held: set<nat>, pinned: set<nat>,
                        ring: seq<nat>, trace: seq<seq<D>>)
  {
    /** The sector is held in buffer `b`. */
    predicate Holding(b: nat, s: nat) { s in held && s < |at| && at[s] == b }

    /** Nothing but the holdings and the placement of buffers has changed. */
    ghost predicate Same(was: Abs<D>) { disk == was.disk && view == was.view && pinned == was.pinned &&
                         trace == was.trace }

    /** Every sector held both in `was` and now is in the same buffer. */
    ghost predicate KeepsHeld(was: Abs<D>) { |at| == |was.at| && forall s | s in was.held && s in held && s < |at| ::
                              at[s] == was.at[s] }
  }

  /** The `i`-th stop of a walk along the ring; the head is at both ends. */
  ghost function Node(ring: seq<nat>, i: int): nat {
    if 0 <= i < |ring| then ring[i] else HEAD
  }

  /** `prev` and `next` thread exactly the buffers of `ring`, in order, through the head. */
  ghost predicate Threaded(ring: seq<nat>, prev: seq<nat>, next: seq<nat>)
  {
    && |prev| == |next| == NBUF + 1
    && (forall i | 0 <= i < |ring| :: ring[i] < NBUF)
    && (forall i, j | 0 <= i < j < |ring| :: ring[i] != ring[j])
    && (forall i | -1 <= i < |ring| :: next[Node(ring, i)] == Node(ring, i + 1))
    && (forall i | 0 <= i <= |ring| :: prev[Node(ring, i)] == Node(ring, i - 1))
  }

  ghost function Without(ring: seq<nat>, k: nat): seq<nat>
    requires k < |ring|
  {
    ring[..k] + ring[k + 1..]
  }

  /** Splicing out the buffer at position `k`. */
  lemma {:induction false} UnlinkThreaded(ring: seq<nat>, prev: seq<nat>, next: seq<nat>, k: nat)
    requires Threaded(ring, prev, next) && k < |ring|
    ensures prev[ring[k]] == Node(ring, k - 1) <= HEAD && next[ring[k]] == Node(ring, k + 1) <= HEAD
    ensures Threaded(Without(ring, k), prev[next[ring[k]] := prev[ring[k]]], next[prev[ring[k]] := next[ring[k]]])
  {
    var r := Without(ring, k);
    assert ring[k] == Node(ring, k);
    assert forall i | 0 <= i < |r| :: r[i] == if i < k then ring[i] else ring[i + 1];
    var p, n := Node(ring, k - 1), Node(ring, k + 1);
    assert prev[ring[k]] == p && next[ring[k]] == n;
    var next' := next[p := n];
    var prev' := prev[n := p];
    forall i | -1 <= i < |r|
      ensures next'[Node(r, i)] == Node(r, i + 1)
    {
      assert Node(r, i) == if i < k then Node(ring, i) else Node(ring, i + 1);
      assert Node(r, i + 1) == if i + 1 < k then Node(ring, i + 1) else Node(ring, i + 2);
      assert i != k - 1 ==> Node(r, i) != p;
    }
    forall i | 0 <= i <= |r|
      ensures prev'[Node(r, i)] == Node(r, i - 1)
    {
      assert Node(r, i) == if i < k then Node(ring, i) else Node(ring, i + 1);
      assert Node(r, i - 1) == if i - 1 < k then Node(ring, i - 1) else Node(ring, i);
      assert i != k ==> Node(r, i) != n;
    }
  }

  /** Hooking an absent buffer in right after the head. */
  lemma {:induction false} PushThreaded(ring: seq<nat>, prev: seq<nat>, next: seq<nat>, b: nat)
    requires Threaded(ring, prev, next) && b < NBUF && b !in ring
    ensures next[HEAD] <= HEAD
    ensures Threaded([b] + ring, prev[b := HEAD][next[HEAD] := b], next[b := next[HEAD]][HEAD := b])
  {
    var r := [b] + ring;
    assert next[Node(ring, -1)] == Node(ring, 0);
    assert prev[Node(ring, |ring|)] == Node(ring, |ring| - 1);
    assert forall i | 0 < i <= |r| :: Node(r, i) == Node(ring, i - 1);
  }

  /** Ring shape: every buffer is on the ring exactly once. */
  ghost predicate RingOk(ring: seq<nat>, prev: seq<nat>, next: seq<nat>)
  {
    && |ring| == NBUF && Threaded(ring, prev, next)
    && (forall b: nat | b < NBUF :: b in ring)
  }

  /** The pointer stores of a release, from one well-formed ring to the next. */
  lemma {:induction false} MoveThreaded(ring: seq<nat>, prev: seq<nat>, next: seq<nat>, k: nat)
    requires RingOk(ring, prev, next) && k < NBUF
    ensures var b := ring[k];
      && prev[b] <= HEAD && next[b] <= HEAD
      && var next1 := next[prev[b] := next[b]];
      && next1[HEAD] <= HEAD
      && RingOk([b] + Without(ring, k), prev[next[b] := prev[b]][b := HEAD][next1[HEAD] := b],
         next1[b := next1[HEAD]][HEAD := b])
  {
    var b := ring[k];
    UnlinkThreaded(ring, prev, next, k);
    var rest := Without(ring, k);
    assert b !in rest by {
      assert forall i | 0 <= i < |rest| :: rest[i] == if i < k then ring[i] else ring[i + 1];
    }
    PushThreaded(rest, prev[next[b] := prev[b]], next[prev[b] := next[b]], b);
    RotationKeepsAll(ring, k);
  }

  /** Moving one element to the front keeps every element. */
  lemma {:induction false} RotationKeepsAll(ring: seq<nat>, k: nat)
    requires k < |ring|
    ensures forall c | c in ring :: c in [ring[k]] + Without(ring, k)
  {
    var r := [ring[k]] + Without(ring, k);
    forall c | c in ring
      ensures c in r
    {
      var i :| 0 <= i < |ring| && ring[i] == c;
      assert c == if i < k then r[i + 1] else if i == k then r[0] else r[i];
    }
  }

  ghost predicate Shows<D>(x: Buf<D>, s: nat, home: D, seen: D, held: bool, pinned: bool)
  {
    && x.Holds(s) && x.valid && x.data == seen && x.busy == held && x.dirty == pinned
    && (x.Clean() ==> x.data == home)
  }

  /** Buffer `b` is unassigned and clean, or is the one buffer of its sector. */
  ghost predicate Indexed<D>(bufs: seq<Buf<D>>, at: seq<int>, b: nat)
    requires b < |bufs|
  {
    bufs[b].Free() || (bufs[b].sector < |at| && at[bufs[b].sector] == b)
  }

  /** Sector `s` is uncached and seen as on the disk, or seen as its buffer has it. */
  ghost predicate Cached<D>(bufs: seq<Buf<D>>, a: Abs<D>, s: nat)
    requires |bufs| == NBUF && |a.view| == |a.disk| == |a.at| && s < |a.at|
  {
    if a.at[s] < 0 then a.view[s] == a.disk[s] && s !in a.held && s !in a.pinned
    else a.at[s] < NBUF && Shows(bufs[a.at[s]], s, a.disk[s], a.view[s], s in a.held, s in a.pinned)
  }

  /** One buffer per sector; the view is the cached copy, else the disk; clean buffers equal the disk. */
  ghost predicate Rep<D>(c: Cache<D>, a: Abs<D>)
  {
    && RingOk(a.ring, c.prev, c.next) && |c.bufs| == NBUF && c.disk == a.disk
    && |a.view| == |a.disk| == |a.at| && (forall s | s in a.held || s in a.pinned :: s < |a.at|)
    && a.trace != [] && a.trace[|a.trace| - 1] == a.disk
    && (forall s: nat | s < |a.at| :: Cached(c.bufs, a, s))
    && (forall b: nat | b < NBUF :: Indexed(c.bufs, a.at, b))
  }

  ghost predicate HasClean<D>(bufs: seq<Buf<D>>)
  {
    exists b :: 0 <= b < |bufs| && bufs[b].Clean()
  }

  /** Buffer `b`, until now that of `x`, becomes the buffer of sector `s`. */
  ghost function Reassign<D>(at: seq<int>, x: Buf<D>, s: nat, b: nat): seq<int>
    requires s < |at|
  {
    (if x.dev == ROOTDEV && x.sector < |at| then at[x.sector := -1] else at)[s := b]
  }

  /** The abstract state once the buffer of sector `x.sector` is `x`, with or without a write of it. */
  ghost function Put<D>(a: Abs<D>, x: Buf<D>, write: bool): Abs<D>
    requires x.sector < |a.disk| == |a.view|
  {
    var s := x.sector;
    var disk := if write then a.disk[s := x.data] else a.disk;
    a.(disk := disk, view := a.view[s := x.data], trace := if write then a.trace + [disk] else a.trace,
       held := if x.busy then a.held + {s} else a.held - {s},
       pinned := if x.dirty then a.pinned + {s} else a.pinned - {s})
  }

  lemma {:induction false} PutBuf<D>(c: Cache<D>, a: Abs<D>, b: nat, x: Buf<D>, write: bool)
    requires Rep(c, a) && x.sector < |a.at| && a.at[x.sector] == b && x.dev == ROOTDEV && x.valid
    requires x.Clean() && !write ==> x.sector < |a.disk| && x.data == a.disk[x.sector]
    ensures b < NBUF && c.bufs[b].Holds(x.sector) && x.sector < |a.disk|
    ensures Rep(c.(bufs := c.bufs[b := x], disk := Put(a, x, write).disk), Put(a, x, write))
  {
    var s := x.sector;
    assert Cached(c.bufs, a, s);
    var a', bufs' := Put(a, x, write), c.bufs[b := x];
    forall t: nat | t < |a.at|
      ensures Cached(bufs', a', t)
    {
      assert Cached(c.bufs, a, t);
    }
    forall i: nat | i < NBUF
      ensures Indexed(bufs', a'.at, i)
    {
      assert Indexed(c.bufs, a.at, i);
    }
  }

  /** Handing a clean buffer over to an uncached sector loses nothing. */
  lemma {:induction false} Recycle<D>(c: Cache<D>, a: Abs<D>, s: nat, b: nat)
    requires Rep(c, a) && s < |a.at| && a.at[s] < 0 && b < NBUF && c.bufs[b].Clean()
    ensures Rep(c.(bufs := c.bufs[b := Buf(ROOTDEV, s, true, true, false, a.disk[s])]),
                a.(at := Reassign(a.at, c.bufs[b], s, b), held := a.held + {s}))
    ensures forall t | t in a.held :: t < |a.at| && Reassign(a.at, c.bufs[b], s, b)[t] == a.at[t]
  {
    var a' := a.(at := Reassign(a.at, c.bufs[b], s, b), held := a.held + {s});
    var bufs' := c.bufs[b := Buf(ROOTDEV, s, true, true, false, a.disk[s])];
    assert Indexed(c.bufs, a.at, b) && Cached(c.bufs, a, s);
    forall t: nat | t < |a.at|
      ensures Cached(bufs', a', t) && (t in a.held ==> a'.at[t] == a.at[t])
    {
      assert Cached(c.bufs, a, t);
    }
    forall i: nat | i < NBUF
      ensures Indexed(bufs', a'.at, i)
    {
      assert Indexed(c.bufs, a.at, i);
    }
  }

  lemma {:induction false} Sized<D>(c: Cache<D>, a: Abs<D>)
    requires Rep(c, a)
    ensures |a.at| == |a.disk| == |a.view|
  {
  }

  /** What a holder of sector `s` knows of its buffer. */
  lemma {:induction false} HeldBuffer<D>(c: Cache<D>, a: Abs<D>, b: nat, s: nat)
    requires Rep(c, a) && a.Holding(b, s)
    ensures |c.bufs| == NBUF && |a.at| == |a.disk| == |a.view| && b < NBUF &&
      Shows(c.bufs[b], s, a.disk[s], a.view[s], true, s in a.pinned)
  {
    assert Cached(c.bufs, a, s);
  }

  /** A sector neither held nor pinned is seen as on the disk; a pinned one is cached. */
  lemma {:induction false} SeenAs<D>(c: Cache<D>, a: Abs<D>, s: nat)
    requires Rep(c, a) && s < |a.at|
    ensures s !in a.held && s !in a.pinned ==> a.view[s] == a.disk[s]
    ensures s in a.pinned ==> a.at[s] >= 0
  {
    assert Cached(c.bufs, a, s);
  }

  /** With nothing held or pinned, the view is the disk. */
  lemma {:induction false} AllSeen<D>(c: Cache<D>, a: Abs<D>)
    requires Rep(c, a) && a.held == a.pinned == {}
    ensures a.view == a.disk
  {
    forall s: nat | s < |a.at|
      ensures a.view[s] == a.disk[s]
    {
      SeenAs(c, a, s);
    }
  }

  /** With fewer than NBUF sectors pinned (dirty or busy), a recyclable buffer exists. */
  lemma {:induction false} PinnedBound<D>(c: Cache<D>, a: Abs<D>)
    requires Rep(c, a) && |a.held + a.pinned| < NBUF
    ensures HasClean(c.bufs)
  {
    if !HasClean(c.bufs) {
      forall b: nat | b < NBUF
        ensures c.bufs[b].sector < |a.at| && a.at[c.bufs[b].sector] == b && c.bufs[b].sector in a.held + a.pinned
      {
        assert Indexed(c.bufs, a.at, b) && !c.bufs[b].Clean();
        assert Cached(c.bufs, a, c.bufs[b].sector);
      }
      PinnedPrefix(c.bufs, a.at, NBUF, a.held + a.pinned);
    }
  }

  /** The first `n` buffers, all on sectors of `pins`, take up `n` of them. */
  lemma {:induction false} PinnedPrefix<D>(bufs: seq<Buf<D>>, at: seq<int>, n: nat, pins: set<nat>)
    requires n <= |bufs|
    requires forall b | 0 <= b < n :: bufs[b].sector < |at| && at[bufs[b].sector] == b && bufs[b].sector in pins
    ensures |pins| >= n
  {
    if n > 0 {
      PinnedPrefix(bufs, at, n - 1, pins - {bufs[n - 1].sector});
    }
  }

  class BufCache<D> {
    var c: Cache<D>
    ghost var a: Abs<D>

    ghost predicate Valid()
      reads this
    {
      Rep(c, a)
    }

    constructor (d: seq<D>, fill: D)
      ensures Valid() && a.disk == a.view == d && a.trace == [d]
      ensures a.held == {} && a.pinned == {}
    {
      var bufs := seq(NBUF, _ => Buf(NODEV, 0, false, false, false, fill));
      var prev, next := InitRing();
      c := Cache(bufs, prev, next, d);
      a := Abs(d, d, seq(|d|, _ => -1), {}, {}, [9, 8, 7, 6, 5, 4, 3, 2, 1, 0], [d]);
    }

    /** The linking loop of `bufcache_init`: buffers end up in reverse order. */
    static method InitRing() returns (prev: seq<nat>, next: seq<nat>)
      ensures RingOk([9, 8, 7, 6, 5, 4, 3, 2, 1, 0], prev, next)
    {
      prev, next := seq(NBUF + 1, _ => HEAD), seq(NBUF + 1, _ => HEAD);
      var b := 0;
      ghost var ring: seq<nat> := [];
      while b < NBUF
        invariant 0 <= b <= NBUF && |ring| == b && Threaded(ring, prev, next)
        invariant forall i | 0 <= i < b :: ring[i] == b - 1 - i
      {
        PushThreaded(ring, prev, next, b);
        next := next[b := next[HEAD]];
        prev := prev[b := HEAD];
        prev := prev[next[HEAD] := b];
        next := next[HEAD := b];
        ring := [b] + ring;
        b := b + 1;
      }
      assert ring == [9, 8, 7, 6, 5, 4, 3, 2, 1, 0];
    }

    /**
     * Look the sector up; failing that, recycle the least recently used buffer
     * that is neither busy nor dirty.  `None` is the "no buffers" panic.
     */
    method Get(s: nat) returns (r: Option<nat>)
      requires Valid() && s < |a.at| && s !in a.held
      modifies this`c
      ensures c == old(c).(bufs := c.bufs)
      ensures r.Some? <==> a.at[s] >= 0 || HasClean(old(c).bufs)
      ensures r.None? ==> c == old(c)
      ensures r.Some? ==> r.value < NBUF
      ensures a.at[s] >= 0 ==>
        r == Some(a.at[s]) && c.bufs == old(c).bufs[a.at[s] := old(c).bufs[a.at[s]].(busy := true)]
      ensures r.Some? && a.at[s] < 0 ==>
        && old(c).bufs[r.value].Clean()
        && c.bufs == old(c).bufs[r.value := Buf(ROOTDEV, s, true, false, false, old(c).bufs[r.value].data)]
        && Oldest(old(c).bufs, a.ring, r.value)
    {
      assert Node(a.ring, -1) == HEAD == Node(a.ring, NBUF);
      var b := c.next[HEAD];
      ghost var k := 0;
      while b != HEAD
        invariant 0 <= k <= NBUF && b == Node(a.ring, k)
        invariant forall i | 0 <= i < k :: !c.bufs[a.ring[i]].Holds(s)
        decreases NBUF - k
      {
        if c.bufs[b].dev == ROOTDEV && c.bufs[b].sector == s {
          assert Indexed(c.bufs, a.at, b);
          c := c.(bufs := c.bufs[b := c.bufs[b].(busy := true)]);
          return Some(b);
        }
        b := c.next[b];
        k := k + 1;
      }
      assert forall i: nat | i < NBUF :: i in a.ring;
      assert forall i | i in a.ring :: !c.bufs[i].Holds(s);
      assert Cached(c.bufs, a, s);
      b := c.prev[HEAD];
      k := NBUF;
      while b != HEAD
        invariant 0 <= k <= NBUF && b == Node(a.ring, k - 1)
        invariant forall i | k <= i < NBUF :: !c.bufs[a.ring[i]].Clean()
        decreases k
      {
        if !c.bufs[b].busy && !c.bufs[b].dirty {
          assert a.ring[k - 1] == b;
          c := c.(bufs := c.bufs[b := Buf(ROOTDEV, s, true, false, false, c.bufs[b].data)]);
          return Some(b);
        }
        b := c.prev[b];
        k := k - 1;
      }
      assert forall i | i in a.ring :: !c.bufs[i].Clean();
      return None;
    }

    /** Return a busy buffer holding the current contents of the sector. */
    method Read(s: nat) returns (r: Option<nat>)
      requires Valid() && s < |a.at| && s !in a.held
      modifies this
      ensures Valid()
      ensures r.Some? <==> old(a).at[s] >= 0 || HasClean(old(c).bufs)
      ensures r.None? ==> c == old(c) && a == old(a)
      ensures r.Some? ==> a.Same(old(a)) && a.held == old(a).held + {s} && a.ring == old(a).ring && a.KeepsHeld(old(a))
      ensures r.Some? ==> r.value < NBUF && a.Holding(r.value, s) && c.bufs[r.value].data == a.view[s]
    {
      assert Cached(c.bufs, a, s);
      r := Get(s);
      if r.None? { return; }
      var b := r.value;
      if !c.bufs[b].valid {
        Recycle(old(c), a, s, b);
        c := c.(bufs := c.bufs[b := c.bufs[b].(data := c.disk[s], valid := true)]);
        assert c.bufs == old(c).bufs[b := c.bufs[b]];
        a := a.(at := Reassign(a.at, old(c).bufs[b], s, b), held := a.held + {s});
      } else {
        PutBuf(old(c), a, b, c.bufs[b], false);
        a := Put(a, c.bufs[b], false);
      }
    }

    /** The caller's stores into the data of a buffer it holds. */
    method Modify(b: nat, d: D, ghost s: nat)
      requires Valid() && a.Holding(b, s)
      modifies this
      ensures Valid() && s < |old(a).view| && a.view == old(a).view[s := d] && a.disk == old(a).disk &&
        a.trace == old(a).trace
      ensures a.held == old(a).held && a.pinned == old(a).pinned && a.at == old(a).at && a.ring == old(a).ring
    {
      assert Cached(c.bufs, a, s);
      PutBuf(c, a, b, c.bufs[b].(data := d), false);
      a := Put(a, c.bufs[b].(data := d), false);
      c := c.(bufs := c.bufs[b := c.bufs[b].(data := d)]);
    }

    /** `b->flags |= B_DIRTY`: pins the buffer until it is written. */
    method Pin(b: nat, ghost s: nat)
      requires Valid() && a.Holding(b, s)
      modifies this
      ensures Valid() && a.pinned == old(a).pinned + {s} && a.view == old(a).view && a.disk == old(a).disk &&
        a.trace == old(a).trace
      ensures a.held == old(a).held && a.at == old(a).at && a.ring == old(a).ring
    {
      assert Cached(c.bufs, a, s);
      PutBuf(c, a, b, c.bufs[b].(dirty := true), false);
      a := Put(a, c.bufs[b].(dirty := true), false);
      c := c.(bufs := c.bufs[b := c.bufs[b].(dirty := true)]);
      assert a.view == old(a).view;
    }

    /** Write a held buffer to its sector: the only step that changes the disk. */
    method Write(b: nat, ghost s: nat)
      requires Valid() && a.Holding(b, s)
      modifies this
      ensures Valid() && s < |old(a).disk| == |old(a).view|
      ensures a.disk == old(a).disk[s := old(a).view[s]] && a.trace == old(a).trace + [a.disk] && a.view == old(a).view
      ensures a.pinned == old(a).pinned - {s} && a.held == old(a).held && a.at == old(a).at && a.ring == old(a).ring
    {
      assert Cached(c.bufs, a, s);
      var x := c.bufs[b].(dirty := false, valid := true);
      PutBuf(c, a, b, x, true);
      a := Put(a, x, true);
      c := c.(bufs := c.bufs[b := c.bufs[b].(dirty := true)]);
      c := c.(disk := c.disk[c.bufs[b].sector := c.bufs[b].data]);
      c := c.(bufs := c.bufs[b := c.bufs[b].(dirty := false, valid := true)]);
      assert c.bufs == old(c).bufs[b := x] && a.view == old(a).view;
    }

    /** Give a held buffer back, as the most recently used one. */
    method Release(b: nat, ghost s: nat)
      requires Valid() && a.Holding(b, s) && s < |a.disk| == |a.view|
      requires s in a.pinned || a.view[s] == a.disk[s]
      modifies this
      ensures Valid() && a.Same(old(a)) && a.held == old(a).held - {s} && a.at == old(a).at
      ensures exists k ::
        0 <= k < NBUF && |old(a).ring| == NBUF && old(a).ring[k] == b && a.ring == [b] + Without(old(a).ring, k)
    {
      assert Cached(c.bufs, a, s);
      var x := c.bufs[b].(busy := false);
      PutBuf(c, a, b, x, false);
      assert b in a.ring;
      ghost var k :| 0 <= k < |a.ring| && a.ring[k] == b;
      var prev, next := MoveToFront(b, c.prev, c.next, a.ring, k);
      c := Cache(c.bufs[b := x], prev, next, c.disk);
      ghost var a1 := Put(a, x, false);
      a := a1.(ring := [b] + Without(a.ring, k));
      forall t: nat | t < |a.at|
        ensures Cached(c.bufs, a, t)
      {
        assert Cached(c.bufs, a1, t);
      }
      assert a.view == old(a).view;
    }

    static method MoveToFront(b: nat, prev0: seq<nat>, next0: seq<nat>, ghost ring: seq<nat>, ghost k: nat)
      returns (prev: seq<nat>, next: seq<nat>)
      requires RingOk(ring, prev0, next0) && k < NBUF && ring[k] == b
      ensures RingOk([b] + Without(ring, k), prev, next)
    {
      MoveThreaded(ring, prev0, next0, k);
      prev, next := prev0, next0;
      var p, n := prev[b], next[b];
      prev := prev[n := p];
      next := next[p := n];
      next := next[b := next[HEAD]];
      prev := prev[b := HEAD];
      prev := prev[next[HEAD] := b];
      next := next[HEAD := b];
    }

    /**
     * Read a sector in, overwrite it, write it out and release it: the caller's
     * four-call idiom for a synchronous store.
     */
    method Store(s: nat, d: D)
      requires Valid() && s < |a.at| && s !in a.held && (a.at[s] >= 0 || |a.held + a.pinned| < NBUF)
      modifies this
      ensures Valid() && s < |old(a).view| == |old(a).disk| && a.KeepsHeld(old(a))
      ensures a.disk == old(a).disk[s := d] && a.view == old(a).view[s := d] && a.trace == old(a).trace + [a.disk]
      ensures a.pinned == old(a).pinned - {s} && a.held == old(a).held
    {
      if a.at[s] < 0 {
        PinnedBound(c, a);
      }
      var r := Read(s);
      var b := r.value;
      Modify(b, d, s);
      Write(b, s);
      Release(b, s);
      assert a.held == old(a).held;
    }
  }

  ghost predicate Oldest<D>(bufs: seq<Buf<D>>, ring: seq<nat>, b: nat)
    requires |ring| <= NBUF <= |bufs|
  {
    exists i :: 0 <= i < |ring| && ring[i] == b && forall j | i < j < |ring| && ring[j] < NBUF :: !bufs[ring[j]].Clean()
  }
}
