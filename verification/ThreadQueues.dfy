/**
 * Thread queues: doubly linked lists threaded through the thread control
 * blocks by index, with NUM_IDS as the null index.  Queue NUM_IDS is the
 * ready queue.
 */
module ThreadQueues {
  const NUM_IDS := 64
  const READYQ := NUM_IDS

  datatype Links = Links(head: seq<nat>, tail: seq<nat>, prev: seq<nat>, next: seq<nat>)

  /** The queues as sequences, with the place of each thread: its queue, or -1, and its position there. */
  datatype Queues = Queues(q: seq<seq<nat>>, at: seq<int>, pos: seq<nat>)

  function First(s: seq<nat>): nat {
    if s == [] then NUM_IDS else s[0]
  }

  function Last(s: seq<nat>): nat {
    if s == [] then NUM_IDS else s[|s| - 1]
  }

  predicate Shape(l: Links, a: Queues) {
    && |l.head| == |l.tail| == |a.q| == NUM_IDS + 1
    && |l.prev| == |l.next| == |a.at| == |a.pos| == NUM_IDS
  }

  predicate Ends(l: Links, a: Queues, c: nat)
    requires Shape(l, a) && c <= NUM_IDS
  {
    l.head[c] == First(a.q[c]) && l.tail[c] == Last(a.q[c])
  }

  /** Position `k` of queue `c` holds a thread that knows its place and its neighbours. */
  predicate Linked(l: Links, a: Queues, c: nat, k: nat)
    requires Shape(l, a) && c <= NUM_IDS && k < |a.q[c]|
  {
    var p := a.q[c][k];
    && p < NUM_IDS && a.at[p] == c && a.pos[p] == k
    && l.prev[p] == (if k == 0 then NUM_IDS else a.q[c][k - 1])
    && l.next[p] == (if k + 1 == |a.q[c]| then NUM_IDS else a.q[c][k + 1])
  }

  predicate Placed(a: Queues, p: nat)
    requires |a.q| == NUM_IDS + 1 && |a.at| == |a.pos| == NUM_IDS && p < NUM_IDS
  {
    a.at[p] == -1 || (0 <= a.at[p] <= NUM_IDS && a.pos[p] < |a.q[a.at[p]]| && a.q[a.at[p]][a.pos[p]] == p)
  }

  /** The links hold exactly these sequences; a thread is in at most one queue, at one position. */
  ghost predicate Rep(l: Links, a: Queues) {
    && Shape(l, a)
    && (forall c: nat | c <= NUM_IDS :: Ends(l, a, c))
    && (forall c: nat, k: nat | c <= NUM_IDS && k < |a.q[c]| :: Linked(l, a, c, k))
    && (forall p: nat | p < NUM_IDS :: Placed(a, p))
  }

  /** The queues share no thread and none holds a thread twice. */
  lemma {:induction false} Disjoint(l: Links, a: Queues, c: nat, k: nat, c': nat, k': nat)
    requires Rep(l, a) && c <= NUM_IDS && c' <= NUM_IDS && k < |a.q[c]| && k' < |a.q[c']|
    ensures a.q[c][k] == a.q[c'][k'] ==> c == c' && k == k'
  {
    assert Linked(l, a, c, k) && Linked(l, a, c', k');
  }

  /** No queued thread has the same neighbour on both sides, so the guard in `tqueue_remove` never skips its update. */
  lemma {:induction false} NeighboursDiffer(l: Links, a: Queues, p: nat)
    requires Rep(l, a) && p < NUM_IDS && a.at[p] >= 0 && l.prev[p] != NUM_IDS
    ensures l.prev[p] != l.next[p]
  {
    var c, k := a.at[p], a.pos[p];
    assert Placed(a, p);
    assert Linked(l, a, c, k);
    if k + 1 < |a.q[c]| { Disjoint(l, a, c, k - 1, c, k + 1); }
  }

  /** Queue `c` with position `k` cut out, and everyone behind moved up. */
  function Cut(a: Queues, c: nat, k: nat): Queues
    requires c < |a.q| && k < |a.q[c]| && |a.at| == |a.pos| == NUM_IDS && a.q[c][k] < NUM_IDS
  {
    var p := a.q[c][k];
    Queues(a.q[c := a.q[c][..k] + a.q[c][k + 1..]], a.at[p := -1],
      seq<nat>(NUM_IDS, x requires 0 <= x < NUM_IDS && |a.at| == |a.pos| == NUM_IDS =>
        if a.at[x] == c && a.pos[x] > k then a.pos[x] - 1 else a.pos[x]))
  }

  /** `l'` is `l` with the gap around position `k` of queue `c` closed. */
  predicate Closed(l: Links, a: Queues, l': Links, c: nat, k: nat)
    requires Shape(l, a) && Shape(l', a) && c <= NUM_IDS && k < |a.q[c]|
  {
    var p, s := a.q[c][k], a.q[c];
    var before, after := if k == 0 then NUM_IDS else s[k - 1], if k + 1 == |s| then NUM_IDS else s[k + 1];
    && l'.head == (if k == 0 then l.head[c := after] else l.head)
    && l'.tail == (if k + 1 == |s| then l.tail[c := before] else l.tail)
    && (forall x | 0 <= x < NUM_IDS && x != p :: l'.next[x] == if k > 0 && x == before then after else l.next[x])
    && (forall x | 0 <= x < NUM_IDS && x != p :: l'.prev[x] == if k + 1 < |s| && x == after then before else l.prev[x])
  }

  lemma {:induction false} CutLinked(l: Links, a: Queues, l': Links, c: nat, k: nat, e: nat, j: nat)
    requires Rep(l, a) && c <= NUM_IDS && k < |a.q[c]| && a.q[c][k] < NUM_IDS && Shape(l', a) && Closed(l, a, l', c, k)
    requires e <= NUM_IDS && j < |Cut(a, c, k).q[e]|
    ensures Linked(l', Cut(a, c, k), e, j)
  {
    var i := if e == c && j >= k then j + 1 else j;
    assert Cut(a, c, k).q[e][j] == a.q[e][i];
    assert Linked(l, a, e, i) && Linked(l, a, c, k);
    if k > 0 { Disjoint(l, a, e, i, c, k - 1); }
    if k + 1 < |a.q[c]| { Disjoint(l, a, e, i, c, k + 1); }
  }

  /** Closing the gap represents the queue without the thread that was there. */
  lemma {:induction false} CutRep(l: Links, a: Queues, l': Links, c: nat, k: nat)
    requires Rep(l, a) && c <= NUM_IDS && k < |a.q[c]| && a.q[c][k] < NUM_IDS && Shape(l', a) && Closed(l, a, l', c, k)
    ensures Rep(l', Cut(a, c, k))
  {
    var b := Cut(a, c, k);
    assert Linked(l, a, c, k);
    forall e: nat | e <= NUM_IDS
      ensures Ends(l', b, e)
    {
      assert Ends(l, a, e);
    }
    forall e: nat, j: nat | e <= NUM_IDS && j < |b.q[e]|
      ensures Linked(l', b, e, j)
    {
      CutLinked(l, a, l', c, k, e, j);
    }
    forall x: nat | x < NUM_IDS
      ensures Placed(b, x)
    {
      assert Placed(a, x);
    }
  }

  lemma {:induction false} AppendRep(l: Links, a: Queues, l': Links, c: nat, p: nat)
    requires Rep(l, a) && c <= NUM_IDS && p < NUM_IDS && a.at[p] == -1 && Shape(l', a)
    requires var last := Last(a.q[c]);
      && l'.head == (if a.q[c] == [] then l.head[c := p] else l.head) && l'.tail == l.tail[c := p]
      && l'.prev[p] == last && l'.next[p] == NUM_IDS
      && (forall x | 0 <= x < NUM_IDS && x != p :: l'.prev[x] == l.prev[x])
      && (forall x | 0 <= x < NUM_IDS && x != p :: l'.next[x] == if x == last then p else l.next[x])
    ensures Rep(l', Queues(a.q[c := a.q[c] + [p]], a.at[p := c], a.pos[p := |a.q[c]|]))
  {
    var b := Queues(a.q[c := a.q[c] + [p]], a.at[p := c], a.pos[p := |a.q[c]|]);
    forall e: nat | e <= NUM_IDS
      ensures Ends(l', b, e)
    {
      assert Ends(l, a, e);
    }
    forall e: nat, j: nat | e <= NUM_IDS && j < |b.q[e]|
      ensures Linked(l', b, e, j)
    {
      if e != c || j < |a.q[c]| {
        assert Linked(l, a, e, j);
        if |a.q[c]| > 0 { Disjoint(l, a, e, j, c, |a.q[c]| - 1); }
      }
    }
    forall x: nat | x < NUM_IDS
      ensures Placed(b, x)
    {
      assert Placed(a, x);
    }
  }

  class TQueue {
    var l: Links
    ghost var a: Queues

    ghost predicate Valid()
      reads this
    {
      Rep(l, a)
    }

    /** `tqueue_init`: all queues empty. */
    constructor ()
      ensures Valid() && a == Queues(seq(NUM_IDS + 1, _ => []), seq(NUM_IDS, _ => -1), seq(NUM_IDS, _ => 0))
    {
      l := Links(seq(NUM_IDS + 1, _ => NUM_IDS), seq(NUM_IDS + 1, _ => NUM_IDS), seq(NUM_IDS, _ => NUM_IDS),
        seq(NUM_IDS, _ => NUM_IDS));
      a := Queues(seq(NUM_IDS + 1, _ => []), seq(NUM_IDS, _ => -1), seq(NUM_IDS, _ => 0));
    }

    /** `tqueue_enqueue`: append at the tail. */
    method Enqueue(chid: nat, pid: nat)
      requires Valid() && chid <= NUM_IDS && pid < NUM_IDS && a.at[pid] == -1
      modifies this
      ensures Valid() && a.q == old(a.q)[chid := old(a.q[chid]) + [pid]] && a.at == old(a.at)[pid := chid]
    {
      assert Ends(l, a, chid);
      ghost var l0, a0, n := l, a, |a.q[chid]|;
      if n > 0 { assert Linked(l, a, chid, n - 1); }
      var tail := l.tail[chid];
      if tail == NUM_IDS {
        l := l.(prev := l.prev[pid := NUM_IDS], next := l.next[pid := NUM_IDS]);
        l := l.(head := l.head[chid := pid], tail := l.tail[chid := pid]);
      } else {
        l := l.(next := l.next[tail := pid]);
        l := l.(prev := l.prev[pid := tail]);
        l := l.(next := l.next[pid := NUM_IDS]);
        l := l.(tail := l.tail[chid := pid]);
      }
      a := Queues(a.q[chid := a.q[chid] + [pid]], a.at[pid := chid], a.pos[pid := n]);
      AppendRep(l0, a0, l, chid, pid);
    }

    /** `tqueue_dequeue`: take the head, or NUM_IDS from an empty queue. */
    method Dequeue(chid: nat) returns (pid: nat)
      requires Valid() && chid <= NUM_IDS
      modifies this
      ensures Valid() && pid == First(old(a.q[chid]))
      ensures old(a.q[chid]) == [] ==> a == old(a)
      ensures old(a.q[chid]) != [] ==>
        pid < NUM_IDS && a.q == old(a.q)[chid := old(a.q[chid])[1..]] && a.at == old(a.at)[pid := -1]
    {
      assert Ends(l, a, chid);
      ghost var l0, a0 := l, a;
      if |a.q[chid]| > 0 { assert Linked(l, a, chid, 0); }
      if |a.q[chid]| > 1 { assert Linked(l, a, chid, 1); }
      pid := NUM_IDS;
      var head := l.head[chid];
      if head != NUM_IDS {
        pid := head;
        var next := l.next[head];
        if next == NUM_IDS {
          l := l.(head := l.head[chid := NUM_IDS], tail := l.tail[chid := NUM_IDS]);
        } else {
          l := l.(prev := l.prev[next := NUM_IDS]);
          l := l.(head := l.head[chid := next]);
        }
        l := l.(prev := l.prev[pid := NUM_IDS], next := l.next[pid := NUM_IDS]);
        assert a.q[chid][..0] + a.q[chid][1..] == a.q[chid][1..];
        a := Cut(a, chid, 0);
        CutRep(l0, a0, l, chid, 0);
      }
    }

    /** `tqueue_remove`: take a thread out of the middle. */
    method Remove(chid: nat, pid: nat)
      requires Valid() && chid <= NUM_IDS && pid < NUM_IDS && a.at[pid] == chid
      modifies this
      ensures Valid() && a.at == old(a.at)[pid := -1]
      ensures var s, k := old(a.q[chid]), old(a.pos[pid]);
        k < |s| && s[k] == pid && a.q == old(a.q)[chid := s[..k] + s[k + 1..]]
    {
      ghost var l0, a0, k := l, a, a.pos[pid];
      assert Placed(a, pid) && Ends(l, a, chid) && Linked(l, a, chid, k);
      if k > 0 {
        assert Linked(l, a, chid, k - 1);
        NeighboursDiffer(l, a, pid);
      }
      if k + 1 < |a.q[chid]| { assert Linked(l, a, chid, k + 1); }
      var prev, next := l.prev[pid], l.next[pid];
      if prev == NUM_IDS {
        if next == NUM_IDS {
          l := l.(head := l.head[chid := NUM_IDS], tail := l.tail[chid := NUM_IDS]);
        } else {
          l := l.(prev := l.prev[next := NUM_IDS]);
          l := l.(head := l.head[chid := next]);
        }
      } else {
        if next == NUM_IDS {
          l := l.(next := l.next[prev := NUM_IDS]);
          l := l.(tail := l.tail[chid := prev]);
        } else {
          if prev != next { l := l.(next := l.next[prev := next]); }
          l := l.(prev := l.prev[next := prev]);
        }
      }
      l := l.(prev := l.prev[pid := NUM_IDS], next := l.next[pid := NUM_IDS]);
      a := Cut(a, chid, k);
      CutRep(l0, a0, l, chid, k);
    }
  }
}
