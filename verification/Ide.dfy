/**
 * The IDE request queue: buffers linked through `qnext`, appended by `ide_rw`
 * and taken off, one per interrupt, by `ide_intr`.  The drive is one sector
 * transferred per request: a write reaches the disk when the request is
 * started, a read is taken from it at the interrupt.
 */
module Ide {
  const NONE := -1

  datatype Buf<D> = Buf(busy: bool, valid: bool, dirty: bool, sector: nat, data: D, qnext: int) {
    /** The loop condition of `ide_rw`. */
    predicate Pending() {
      !valid || dirty
    }
  }

  datatype Queue<D> = Queue(bufs: seq<Buf<D>>, head: int, disk: seq<D>)

  /** `q` lists the queued buffers in order; `pos` gives each buffer's position, or -1. */
  predicate Linked<D>(s: Queue<D>, q: seq<nat>, pos: seq<int>, k: nat)
    requires k < |q| && |pos| == |s.bufs|
  {
    && q[k] < |s.bufs| && pos[q[k]] == k
    && s.bufs[q[k]].qnext == (if k + 1 == |q| then NONE else q[k + 1])
    && s.bufs[q[k]].busy && s.bufs[q[k]].Pending()
  }

  predicate Rep<D>(s: Queue<D>, q: seq<nat>, pos: seq<int>) {
    && |pos| == |s.bufs| && s.head == (if q == [] then NONE else q[0])
    && (forall k | 0 <= k < |q| :: Linked(s, q, pos, k))
    && (forall b | 0 <= b < |pos| :: pos[b] == NONE || (0 <= pos[b] < |q| && q[pos[b]] == b))
    && (forall b | 0 <= b < |s.bufs| :: s.bufs[b].sector < |s.disk|)
  }

  /** The request at the head is under way: if it is a write, the drive has its data. */
  predicate Started<D(==)>(s: Queue<D>, q: seq<nat>)
    requires q != [] ==> q[0] < |s.bufs| && s.bufs[q[0]].sector < |s.disk|
  {
    q != [] && s.bufs[q[0]].dirty ==> s.disk[s.bufs[q[0]].sector] == s.bufs[q[0]].data
  }

  datatype Outcome<D> = Outcome(bufs: seq<Buf<D>>, disk: seq<D>)

  /** One request carried out: a write updates the disk, a read the buffer; either way they then agree. */
  function Transfer<D>(o: Outcome<D>, b: nat): (r: Outcome<D>)
    requires b < |o.bufs| && forall x | 0 <= x < |o.bufs| :: o.bufs[x].sector < |o.disk|
    ensures |r.bufs| == |o.bufs| && |r.disk| == |o.disk| && forall x | 0 <= x < |o.bufs| ::
      r.bufs[x].sector == o.bufs[x].sector
    ensures !r.bufs[b].Pending() && r.bufs[b].data == r.disk[r.bufs[b].sector]
    ensures o.bufs[b].dirty ==> r.bufs[b].data == o.bufs[b].data
    ensures !o.bufs[b].dirty ==> r.disk == o.disk
    ensures forall x | 0 <= x < |o.bufs| && x != b :: r.bufs[x] == o.bufs[x]
    ensures forall x | 0 <= x < |o.disk| && x != o.bufs[b].sector :: r.disk[x] == o.disk[x]
  {
    var u := o.bufs[b];
    var disk := if u.dirty then o.disk[u.sector := u.data] else o.disk;
    Outcome(o.bufs[b := u.(valid := true, dirty := false, data := disk[u.sector])], disk)
  }

  /** The requests from position `k` of `q` carried out in order. */
  function Serve<D>(o: Outcome<D>, q: seq<nat>, k: nat): (r: Outcome<D>)
    requires k <= |q| && (forall i | 0 <= i < |q| :: q[i] < |o.bufs|) && forall x | 0 <= x < |o.bufs| ::
      o.bufs[x].sector < |o.disk|
    ensures |r.bufs| == |o.bufs| && |r.disk| == |o.disk| && forall x | 0 <= x < |o.bufs| ::
      r.bufs[x].sector == o.bufs[x].sector
    decreases |q| - k
  {
    if k == |q| then o else Serve(Transfer(o, q[k]), q, k + 1)
  }

  /** No buffer is queued twice, and no two queued buffers are for the same sector. */
  predicate Apart<D>(bufs: seq<Buf<D>>, q: seq<nat>) {
    && (forall i | 0 <= i < |q| :: q[i] < |bufs|)
    && forall i, j | 0 <= i < j < |q| :: q[i] != q[j] && bufs[q[i]].sector != bufs[q[j]].sector
  }

  /** Sector `x` is one that a queued buffer writes. */
  predicate Writes<D>(bufs: seq<Buf<D>>, q: seq<nat>, i: nat, x: nat) {
    i < |q| && q[i] < |bufs| && bufs[q[i]].dirty && bufs[q[i]].sector == x
  }

  predicate Fits<D>(o: Outcome<D>, q: seq<nat>) {
    (forall i | 0 <= i < |q| :: q[i] < |o.bufs|) && forall x | 0 <= x < |o.bufs| :: o.bufs[x].sector < |o.disk|
  }

  lemma {:induction false} ServeOtherBuffer<D>(o: Outcome<D>, q: seq<nat>, k: nat, x: nat)
    requires k <= |q| && Fits(o, q) && x < |o.bufs| && forall i | k <= i < |q| :: q[i] != x
    ensures Serve(o, q, k).bufs[x] == o.bufs[x]
    decreases |q| - k
  {
    if k < |q| { ServeOtherBuffer(Transfer(o, q[k]), q, k + 1, x); }
  }

  lemma {:induction false} ServeOtherSector<D>(o: Outcome<D>, q: seq<nat>, k: nat, x: nat)
    requires k <= |q| && Fits(o, q) && x < |o.disk| && forall i: nat | k <= i :: !Writes(o.bufs, q, i, x)
    ensures Serve(o, q, k).disk[x] == o.disk[x]
    decreases |q| - k
  {
    if k < |q| {
      var o1 := Transfer(o, q[k]);
      assert !Writes(o.bufs, q, k, x);
      forall i: nat | k + 1 <= i
        ensures !Writes(o1.bufs, q, i, x)
      {
        assert !Writes(o.bufs, q, i, x);
      }
      ServeOtherSector(o1, q, k + 1, x);
    }
  }

  /** Buffer `b` and its sector agree: on the buffer's data if it was written, on the disk's if it was read. */
  predicate Agreed<D(==)>(o: Outcome<D>, r: Outcome<D>, b: nat)
    requires b < |o.bufs| == |r.bufs| && o.bufs[b].sector < |o.disk| == |r.disk|
  {
    && !r.bufs[b].Pending() && r.bufs[b].data == r.disk[o.bufs[b].sector]
    && r.bufs[b].data == if o.bufs[b].dirty then o.bufs[b].data else o.disk[o.bufs[b].sector]
  }

  /** A request leaves the others what they were. */
  lemma {:induction false} ApartAfter<D>(o: Outcome<D>, q: seq<nat>, k: nat)
    requires k < |q| && Fits(o, q) && Apart(o.bufs, q)
    ensures var o1 := Transfer(o, q[k]); Fits(o1, q) && Apart(o1.bufs, q)
  {
  }

  lemma {:induction false} ServeFirst<D>(o: Outcome<D>, q: seq<nat>, k: nat)
    requires k < |q| && Fits(o, q) && Apart(o.bufs, q)
    ensures Agreed(o, Serve(Transfer(o, q[k]), q, k + 1), q[k])
  {
    hide Serve;
    var o1 := Transfer(o, q[k]);
    ServeOtherBuffer(o1, q, k + 1, q[k]);
    ServeOtherSector(o1, q, k + 1, o.bufs[q[k]].sector);
  }

  lemma {:induction false} ServeAgrees<D>(o: Outcome<D>, q: seq<nat>, k: nat, i: nat)
    requires k <= i < |q| && Fits(o, q) && Apart(o.bufs, q)
    ensures Agreed(o, Serve(o, q, k), q[i])
    decreases |q| - k
  {
    hide Serve;
    ServeNext(o, q, k);
    if i == k {
      ServeFirst(o, q, k);
    } else {
      var o1 := Transfer(o, q[k]);
      ApartAfter(o, q, k);
      assert o1.bufs[q[i]] == o.bufs[q[i]] && o1.disk[o.bufs[q[i]].sector] == o.disk[o.bufs[q[i]].sector];
      hide Transfer, Apart;
      ServeAgrees(o1, q, k + 1, i);
    }
  }

  lemma {:induction false} ServeNext<D>(o: Outcome<D>, q: seq<nat>, k: nat)
    requires k < |q| && Fits(o, q)
    ensures Serve(o, q, k) == Serve(Transfer(o, q[k]), q, k + 1)
  {
  }

  /**
   * All requests served.  A buffer that was written keeps its data, and the disk has it; one that was read has what
   * the disk had; and no other buffer and no other sector is touched.
   */
  lemma {:induction false} ServeExact<D>(o: Outcome<D>, q: seq<nat>)
    requires Fits(o, q) && Apart(o.bufs, q)
    ensures var r := Serve(o, q, 0);
      && (forall i | 0 <= i < |q| :: Agreed(o, r, q[i]))
      && (forall x: nat | x < |o.bufs| && x !in q :: r.bufs[x] == o.bufs[x])
      && forall x: nat | x < |o.disk| && (forall i: nat :: !Writes(o.bufs, q, i, x)) :: r.disk[x] == o.disk[x]
  {
    hide Serve, Agreed, Apart;
    var r := Serve(o, q, 0);
    forall i | 0 <= i < |q|
      ensures Agreed(o, r, q[i])
    {
      ServeAgrees(o, q, 0, i);
    }
    forall x: nat | x < |o.bufs| && x !in q
      ensures r.bufs[x] == o.bufs[x]
    {
      ServeOtherBuffer(o, q, 0, x);
    }
    forall x: nat | x < |o.disk| && forall i: nat :: !Writes(o.bufs, q, i, x)
      ensures r.disk[x] == o.disk[x]
    {
      ServeOtherSector(o, q, 0, x);
    }
  }

  lemma {:induction false} ServeDrop<D>(o: Outcome<D>, q: seq<nat>, k: nat)
    requires 0 < k <= |q| && (forall i | 0 <= i < |q| :: q[i] < |o.bufs|) && forall x | 0 <= x < |o.bufs| ::
      o.bufs[x].sector < |o.disk|
    ensures Serve(o, q[1..], k - 1) == Serve(o, q, k)
    decreases |q| - k
  {
    if k < |q| { ServeDrop(Transfer(o, q[k]), q, k + 1); }
  }

  lemma {:induction false} ServeAppend<D>(o: Outcome<D>, q: seq<nat>, b: nat, k: nat)
    requires k <= |q| && (forall i | 0 <= i < |q| :: q[i] < |o.bufs|) && b < |o.bufs| && forall x | 0 <= x < |o.bufs| ::
      o.bufs[x].sector < |o.disk|
    ensures Serve(o, q + [b], k) == Transfer(Serve(o, q, k), b)
    decreases |q| - k
  {
    if k < |q| { ServeAppend(Transfer(o, q[k]), q, b, k + 1); }
  }

  /** Links play no part in what a request does. */
  function Unlinked<D>(bufs: seq<Buf<D>>): (r: seq<Buf<D>>)
    ensures |r| == |bufs| && forall x | 0 <= x < |r| :: r[x] == bufs[x].(qnext := NONE)
  {
    seq(|bufs|, x requires 0 <= x < |bufs| => bufs[x].(qnext := NONE))
  }

  /** What the buffers and the disk will be once every queued request is done. */
  ghost function Final<D>(s: Queue<D>, q: seq<nat>, pos: seq<int>): Outcome<D>
    requires Rep(s, q, pos)
  {
    assert forall k | 0 <= k < |q| :: Linked(s, q, pos, k) ==> q[k] < |s.bufs|;
    Serve(Outcome(Unlinked(s.bufs), s.disk), q, 0)
  }

  /** Where the queued buffers are for different sectors, the order of the queue does not show in the end. */
  lemma {:induction false} FinalExact<D>(s: Queue<D>, q: seq<nat>, pos: seq<int>)
    requires Rep(s, q, pos) && Apart(s.bufs, q)
    ensures var o, r := Outcome(Unlinked(s.bufs), s.disk), Final(s, q, pos);
      && (forall i | 0 <= i < |q| :: q[i] < |o.bufs| && Agreed(o, r, q[i]))
      && (forall x: nat | x < |o.bufs| && x !in q :: r.bufs[x] == o.bufs[x])
      && forall x: nat | x < |o.disk| && (forall i: nat :: !Writes(s.bufs, q, i, x)) :: r.disk[x] == o.disk[x]
  {
    hide Serve, Agreed;
    var o := Outcome(Unlinked(s.bufs), s.disk);
    assert Apart(o.bufs, q) && Fits(o, q);
    ServeExact(o, q);
    assert forall i: nat, x: nat :: Writes(o.bufs, q, i, x) ==> Writes(s.bufs, q, i, x);
  }

  /** Starting the head early changes nothing in the end. */
  lemma {:induction false} StartKeepsFinal<D>(s: Queue<D>, q: seq<nat>, pos: seq<int>)
    requires Rep(s, q, pos) && q != [] && q[0] < |s.bufs|
    ensures var u := s.bufs[q[0]];
      var s' := if u.dirty then s.(disk := s.disk[u.sector := u.data]) else s;
      Rep(s', q, pos) && Final(s', q, pos) == Final(s, q, pos) && Started(s', q)
  {
    var u := s.bufs[q[0]];
    if u.dirty {
      var s' := s.(disk := s.disk[u.sector := u.data]);
      assert forall k | 0 <= k < |q| :: Linked(s, q, pos, k) ==> Linked(s', q, pos, k);
      var o, o' := Outcome(Unlinked(s.bufs), s.disk), Outcome(Unlinked(s.bufs), s'.disk);
      assert o'.disk[u.sector := u.data] == o.disk[u.sector := u.data];
      assert Transfer(o, q[0]) == Transfer(o', q[0]);
    }
  }

  function MovedUp(pos: seq<int>): seq<int> {
    seq(|pos|, x requires 0 <= x < |pos| => if pos[x] > 0 then pos[x] - 1 else NONE)
  }

  lemma {:induction false} PopLinked<D>(s: Queue<D>, s': Queue<D>, q: seq<nat>, pos: seq<int>)
    requires Rep(s, q, pos) && q != [] && Linked(s, q, pos, 0) && |s'.bufs| == |s.bufs| && |s'.disk| == |s.disk|
    requires s'.head == s.bufs[q[0]].qnext && s'.bufs == s.bufs[q[0] := s'.bufs[q[0]]] &&
      s'.bufs[q[0]].sector == s.bufs[q[0]].sector
    ensures Rep(s', q[1..], MovedUp(pos))
  {
    forall k | 0 <= k < |q[1..]|
      ensures Linked(s', q[1..], MovedUp(pos), k)
    {
      assert Linked(s, q, pos, k + 1);
    }
  }

  lemma {:induction false} QueuedInRange<D>(s: Queue<D>, q: seq<nat>, pos: seq<int>)
    requires Rep(s, q, pos)
    ensures forall k | 0 <= k < |q| :: q[k] < |s.bufs|
  {
    assert forall k | 0 <= k < |q| :: Linked(s, q, pos, k) ==> q[k] < |s.bufs|;
  }

  /** Finishing a request that was under way and taking it off the queue leaves the final outcome as it was. */
  lemma {:induction false} PopRep<D>(s: Queue<D>, s': Queue<D>, q: seq<nat>, pos: seq<int>, data: D)
    requires Rep(s, q, pos) && q != [] && Linked(s, q, pos, 0) && Started(s, q) && data == s.disk[s.bufs[q[0]].sector]
    requires s' ==
      Queue(s.bufs[q[0] := s.bufs[q[0]].(data := data, valid := true, dirty := false)], s.bufs[q[0]].qnext, s.disk)
    ensures Rep(s', q[1..], MovedUp(pos)) && Final(s', q[1..], MovedUp(pos)) == Final(s, q, pos)
  {
    var b, u := q[0], s.bufs[q[0]];
    PopLinked(s, s', q, pos);
    QueuedInRange(s, q, pos);
    var o := Outcome(Unlinked(s.bufs), s.disk);
    assert u.sector < |s.disk| && forall x | 0 <= x < |o.bufs| :: o.bufs[x].sector < |o.disk|;
    assert Final(s, q, pos) == Serve(Transfer(o, b), q, 1);
    assert Final(s', q[1..], MovedUp(pos)) == Serve(Outcome(Unlinked(s'.bufs), s'.disk), q[1..], 0);
    hide Rep, Serve;
    assert u.dirty ==> o.disk[u.sector := u.data] == o.disk;
    assert Transfer(o, b) == Outcome(Unlinked(s'.bufs), s'.disk);
    ServeDrop(Transfer(o, b), q, 1);
  }

  // Appending

  function Detached<D>(s: Queue<D>, b: nat): Queue<D>
    requires b < |s.bufs|
  {
    s.(bufs := s.bufs[b := s.bufs[b].(qnext := NONE)])
  }

  /** The queue with `b` linked at its end. */
  ghost function Appended<D>(s: Queue<D>, q: seq<nat>, b: nat): Queue<D>
    requires b < |s.bufs| && (q != [] ==> q[|q| - 1] < |s.bufs|)
  {
    var s1 := Detached(s, b);
    if q == [] then s1.(head := b) else s1.(bufs := s1.bufs[q[|q| - 1] := s1.bufs[q[|q| - 1]].(qnext := b)])
  }

  lemma {:induction false} RepHead<D>(s: Queue<D>, q: seq<nat>, pos: seq<int>)
    requires Rep(s, q, pos)
    ensures s.head == NONE <==> q == []
    ensures q != [] ==> q[|q| - 1] < |s.bufs|
  {
    assert forall k | 0 <= k < |q| :: Linked(s, q, pos, k) ==> q[k] < |s.bufs|;
  }

  lemma {:induction false} DetachRep<D>(s: Queue<D>, q: seq<nat>, pos: seq<int>, b: nat)
    requires Rep(s, q, pos) && b < |s.bufs| && pos[b] == NONE
    ensures Rep(Detached(s, b), q, pos)
  {
    forall k | 0 <= k < |q|
      ensures Linked(Detached(s, b), q, pos, k)
    {
      assert Linked(s, q, pos, k);
    }
  }

  lemma {:induction false} AppendRep<D>(s: Queue<D>, q: seq<nat>, pos: seq<int>, b: nat)
    requires Rep(s, q, pos) && b < |s.bufs| && s.bufs[b].busy && s.bufs[b].Pending() && pos[b] == NONE
    ensures q != [] ==> q[|q| - 1] < |s.bufs|
    ensures var s' := Appended(s, q, b); Rep(s', q + [b], pos[b := |q|]) && Unlinked(s'.bufs) == Unlinked(s.bufs)
  {
    RepHead(s, q, pos);
    var s', q', pos' := Appended(s, q, b), q + [b], pos[b := |q|];
    forall k | 0 <= k < |q'|
      ensures Linked(s', q', pos', k)
    {
      if q != [] { assert Linked(s, q, pos, |q| - 1); }
      if k < |q| { assert Linked(s, q, pos, k); }
    }
  }

  /** The walk of `ide_rw` along the queue, to its last request. */
  method LastQueued<D>(s: Queue<D>, ghost q: seq<nat>, ghost pos: seq<int>) returns (p: nat)
    requires Rep(s, q, pos) && q != []
    ensures p == q[|q| - 1] < |s.bufs|
  {
    p := s.head;
    ghost var k := 0;
    assert Linked(s, q, pos, 0);
    while s.bufs[p].qnext != NONE
      invariant k < |q| && q[k] == p && Linked(s, q, pos, k)
      decreases |q| - k
    {
      p, k := s.bufs[p].qnext, k + 1;
      assert Linked(s, q, pos, k);
    }
  }

  class Ide<D(==)> {
    var s: Queue<D>
    ghost var q: seq<nat>
    ghost var pos: seq<int>

    ghost predicate Valid()
      reads this
    {
      Rep(s, q, pos) && (q != [] ==> Linked(s, q, pos, 0)) && Started(s, q)
    }

    /** `ide_start`. */
    method Start(b: nat)
      requires Rep(s, q, pos) && q != [] && q[0] == b < |s.bufs|
      modifies this`s
      ensures Valid() && Final(s, q, pos) == old(Final(s, q, pos)) && s.bufs == old(s.bufs) && s.head == old(s.head)
    {
      StartKeepsFinal(s, q, pos);
      assert Linked(s, q, pos, 0);
      if s.bufs[b].dirty { s := s.(disk := s.disk[s.bufs[b].sector := s.bufs[b].data]); }
    }

    /** The walk to the end of the queue in `ide_rw`. */
    method Append(b: nat)
      requires Rep(s, q, pos) && b < |s.bufs| && s.bufs[b].busy && s.bufs[b].Pending() && pos[b] == NONE
      modifies this
      ensures Rep(s, q, pos) && q == old(q) + [b] && pos == old(pos)[b := |old(q)|] && s.disk == old(s.disk)
      ensures Unlinked(s.bufs) == old(Unlinked(s.bufs))
    {
      hide Rep, Linked;
      DetachRep(s, q, pos, b);
      AppendRep(s, q, pos, b);
      s := Detached(s, b);
      RepHead(s, q, pos);
      if s.head == NONE {
        s := s.(head := b);
      } else {
        var p := LastQueued(s, q, pos);
        s := s.(bufs := s.bufs[p := s.bufs[p].(qnext := b)]);
      }
      q, pos := q + [b], pos[b := |q|];
    }

    /** `ide_rw` up to its waiting loop: the request goes last, and nothing already queued comes out differently. */
    method Submit(b: nat)
      requires Valid() && b < |s.bufs| && s.bufs[b].busy && s.bufs[b].Pending() && pos[b] == NONE
      modifies this
      ensures Valid() && q == old(q) + [b] && pos == old(pos)[b := |old(q)|] &&
        Unlinked(s.bufs) == old(Unlinked(s.bufs))
      ensures Final(s, q, pos) == Transfer(old(Final(s, q, pos)), b)
    {
      ghost var s0, q0, pos0 := s, q, pos;
      Append(b);
      assert forall k | 0 <= k < |q0| :: Linked(s0, q0, pos0, k) ==> q0[k] < |s0.bufs|;
      ServeAppend(Outcome(Unlinked(s0.bufs), s0.disk), q0, b, 0);
      assert Linked(s, q, pos, 0);
      if s.head == b { Start(b); }
    }

    /** `ide_intr`: the first request is finished, and the final outcome of the queue is unchanged. */
    method Intr() returns (b: int)
      requires Valid()
      modifies this
      ensures Valid() && Final(s, q, pos) == old(Final(s, q, pos))
      ensures old(q) == [] ==> b == NONE && q == [] && s == old(s)
      ensures old(q) != [] ==>
        && b == old(q)[0] && q == old(q)[1..] && pos[b] == NONE
        && !s.bufs[b].Pending() && s.bufs[b].sector < |s.disk| == |old(s.disk)|
        && s.bufs[b].data == old(s.disk)[s.bufs[b].sector]
        && s.bufs[b] == old(s.bufs)[b].(data := s.bufs[b].data, valid := true, dirty := false)
        && (old(s.bufs)[b].dirty ==> s.bufs[b].data == old(s.bufs)[b].data)
        && forall x | 0 <= x < |s.bufs| && x != b :: s.bufs[x] == old(s.bufs[x])
    {
      b := s.head;
      if b == NONE { return; }
      Pop();
      if s.head != NONE {
        assert Linked(s, q, pos, 0);
        Start(s.head);
      }
    }

    /** The head comes off the queue with its buffer and the disk in agreement. */
    method Pop()
      requires Valid() && q != []
      modifies this
      ensures Rep(s, q, pos) && Final(s, q, pos) == old(Final(s, q, pos))
      ensures q == old(q)[1..] && pos == MovedUp(old(pos)) && s.disk == old(s.disk) && (q == [] <==> s.head == NONE)
      ensures var b := old(q)[0];
        && b < |s.bufs| == |old(s.bufs)| && old(pos)[b] == 0 && s.bufs == old(s.bufs)[b := s.bufs[b]]
        && !s.bufs[b].Pending() && s.bufs[b].sector < |s.disk| && s.bufs[b].data == s.disk[s.bufs[b].sector]
        && s.bufs[b] == old(s.bufs)[b].(data := s.bufs[b].data, valid := true, dirty := false)
        && (old(s.bufs)[b].dirty ==> s.bufs[b].data == old(s.bufs)[b].data)
    {
      ghost var s0 := s;
      assert Linked(s, q, pos, 0);
      var b := s.head;
      var u := s.bufs[b];
      var data := if u.dirty then u.data else s.disk[u.sector];
      s := Queue(s.bufs[b := u.(data := data, valid := true, dirty := false)], u.qnext, s.disk);
      PopRep(s0, s, q, pos, data);
      q, pos := q[1..], MovedUp(pos);
      if q != [] { assert Linked(s, q, pos, 0); }
    }
  }
}
