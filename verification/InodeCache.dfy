/** The inode cache: slots with reference counts, one per inode in use, and copies of the inodes. */
module InodeCache {
  import opened FsSpec

  const NINODE := 50

  /** A slot; `d` is a copy of the inode once `valid`. */
  datatype Slot = Slot(ref: nat, inum: nat, valid: bool, d: Dinode)

  function Vacant(): Slot {
    Slot(0, 0, false, Dinode(0, 0, 0, 0, 0, seq(NDIRECT + 1, _ => 0)))
  }

  /** A valid copy is the inode on disk, and in use. */
  predicate CopyOk(s: Slot, ii: seq<Dinode>) {
    s.ref > 0 && s.valid ==> s.inum < |ii| && s.d == ii[s.inum] && s.d.typ != 0
  }

  ghost predicate Copies(slots: seq<Slot>, ii: seq<Dinode>) {
    forall k | 0 <= k < |slots| :: CopyOk(slots[k], ii)
  }

  /** Rewriting an inode through its slot keeps the copies right. */
  lemma {:induction false} CopiesStored(slots: seq<Slot>, at: seq<int>, ii: seq<Dinode>, k: nat, s: Slot, d: Dinode)
    requires Placed(slots, at) && Copies(slots, ii) && k < NINODE && slots[k].ref > 0 && slots[k].inum < |ii|
    requires CopyOk(s, ii[slots[k].inum := d])
    ensures Copies(slots[k := s], ii[slots[k].inum := d])
  {
    var i, slots' := slots[k].inum, slots[k := s];
    forall j | 0 <= j < |slots'|
      ensures CopyOk(slots'[j], ii[i := d])
    {
      assert CopyOk(slots[j], ii) && SlotOk(slots, at, j) && SlotOk(slots, at, k);
    }
  }

  /** Taking an unused inode into use leaves the copies right: none is of it. */
  lemma {:induction false} CopiesTaken(slots: seq<Slot>, ii: seq<Dinode>, i: nat, d: Dinode)
    requires Copies(slots, ii) && i < |ii| && ii[i].typ == 0
    ensures Copies(slots, ii[i := d])
  {
    forall j | 0 <= j < |slots|
      ensures CopyOk(slots[j], ii[i := d])
    {
      assert CopyOk(slots[j], ii);
    }
  }

  function EmptyCount(slots: seq<Slot>, n: nat): nat
    requires n <= |slots|
  {
    if n == 0 then 0 else EmptyCount(slots, n - 1) + if slots[n - 1].ref == 0 then 1 else 0
  }

  lemma {:induction false} EmptyCountUpdate(slots: seq<Slot>, k: nat, s: Slot, n: nat)
    requires n <= |slots| && k < |slots|
    ensures EmptyCount(slots[k := s], n) == EmptyCount(slots, n) + if k >= n then 0
      else (if s.ref == 0 then 1 else 0) - (if slots[k].ref == 0 then 1 else 0)
  {
    if n > 0 { EmptyCountUpdate(slots, k, s, n - 1); }
  }

  lemma {:induction false} NoneEmpty(slots: seq<Slot>, n: nat)
    requires n <= |slots| && forall k | 0 <= k < n :: slots[k].ref > 0
    ensures EmptyCount(slots, n) == 0
  {
    if n > 0 { NoneEmpty(slots, n - 1); }
  }

  /** An occupied slot is the one its inode is found in. */
  predicate SlotOk(slots: seq<Slot>, at: seq<int>, k: nat)
    requires k < |slots|
  {
    slots[k].ref > 0 ==> slots[k].inum < |at| && at[slots[k].inum] == k
  }

  predicate PlaceOk(slots: seq<Slot>, at: seq<int>, i: nat)
    requires i < |at|
  {
    at[i] == -1 || (0 <= at[i] < |slots| && slots[at[i]].ref > 0 && slots[at[i]].inum == i)
  }

  ghost predicate Placed(slots: seq<Slot>, at: seq<int>) {
    && |slots| == NINODE
    && (forall k: nat | k < NINODE :: SlotOk(slots, at, k))
    && (forall i: nat | i < |at| :: PlaceOk(slots, at, i))
  }

  function RefAt(slots: seq<Slot>, at: seq<int>, i: nat): nat {
    if i < |at| && 0 <= at[i] < |slots| then slots[at[i]].ref else 0
  }

  /** Changing one slot, which was empty or held the same inode, concerns that inode alone. */
  lemma {:induction false} OneSlot(was: seq<Slot>, wasAt: seq<int>, slots: seq<Slot>, at: seq<int>, k: nat)
    requires Placed(was, wasAt) && k < NINODE == |slots| && slots == was[k := slots[k]] && |at| == |wasAt|
    requires SlotOk(slots, at, k) && (was[k].ref > 0 ==> slots[k].inum == was[k].inum) && slots[k].inum < |at|
    requires at[slots[k].inum] == if slots[k].ref == 0 then -1 else k
    requires wasAt[slots[k].inum] == k || wasAt[slots[k].inum] == -1
    requires forall i | 0 <= i < |at| && i != slots[k].inum :: at[i] == wasAt[i]
    ensures Placed(slots, at) && forall i: nat | i != slots[k].inum :: RefAt(slots, at, i) == RefAt(was, wasAt, i)
  {
    forall j: nat | j < NINODE
      ensures SlotOk(slots, at, j)
    {
      assert SlotOk(was, wasAt, j);
    }
    forall i: nat | i < |at|
      ensures PlaceOk(slots, at, i) && (i != slots[k].inum ==> RefAt(slots, at, i) == RefAt(was, wasAt, i))
    {
      assert PlaceOk(was, wasAt, i);
      if wasAt[i] == k { assert SlotOk(was, wasAt, k); }
    }
  }

  /** The inodes in the first `n` slots. */
  ghost function Inums(slots: seq<Slot>, n: nat): set<nat>
    requires n <= |slots|
  {
    if n == 0 then {} else Inums(slots, n - 1) + if slots[n - 1].ref > 0 then {slots[n - 1].inum} else {}
  }

  lemma {:induction false} InumsCount(slots: seq<Slot>, at: seq<int>, n: nat)
    requires Placed(slots, at) && n <= NINODE
    ensures |Inums(slots, n)| + EmptyCount(slots, n) == n && forall i: nat ::
      i in Inums(slots, n) <==> i < |at| && 0 <= at[i] < n
  {
    if n > 0 {
      InumsCount(slots, at, n - 1);
      assert SlotOk(slots, at, n - 1);
      forall i: nat | i < |at| && at[i] == n - 1
        ensures slots[n - 1].ref > 0 && slots[n - 1].inum == i
      {
        assert PlaceOk(slots, at, i);
      }
    }
  }

  lemma {:induction false} Occupied(slots: seq<Slot>, at: seq<int>)
    requires Placed(slots, at)
    ensures |Inums(slots, NINODE)| + EmptyCount(slots, NINODE) == NINODE && forall i: nat ::
      i in Inums(slots, NINODE) <==> i < |at| && RefAt(slots, at, i) > 0
  {
    InumsCount(slots, at, NINODE);
    hide Inums, EmptyCount;
    forall i: nat | i < |at|
      ensures i in Inums(slots, NINODE) <==> RefAt(slots, at, i) > 0
    {
      assert PlaceOk(slots, at, i);
    }
  }

  /**
   * How many slots are empty follows from the references: one fewer to `cur` empties its slot if it was the only one.
   */
  lemma {:induction false} RefsGiveEmpty(slots: seq<Slot>, at: seq<int>, slots': seq<Slot>, at': seq<int>, cur: nat)
    requires Placed(slots, at) && Placed(slots', at') && |at| == |at'| && cur < |at| && RefAt(slots, at, cur) > 0
    requires forall i: nat | i < |at| :: RefAt(slots', at', i) == RefAt(slots, at, i) - if i == cur then 1 else 0
    ensures EmptyCount(slots', |slots'|) == EmptyCount(slots, |slots|) + if RefAt(slots, at, cur) == 1 then 1 else 0
  {
    Occupied(slots, at);
    Occupied(slots', at');
    hide Inums, EmptyCount, RefAt, SlotOk, PlaceOk;
    var was, gone := Inums(slots, NINODE), if RefAt(slots, at, cur) == 1 then {cur} else {};
    forall i: nat
      ensures i in Inums(slots', NINODE) <==> i in was - gone
    {
      assert i < |at| ==> RefAt(slots', at', i) == RefAt(slots, at, i) - if i == cur then 1 else 0;
    }
    assert Inums(slots', NINODE) == was - gone;
    assert was == (was - gone) + gone;
  }

  class InodeCache {
    var slots: seq<Slot>
    /** The slot of each inode, or -1. */
    ghost var at: seq<int>

    ghost predicate Valid()
      reads this
    {
      Placed(slots, at)
    }

    /** The number of references to inode `i`. */
    ghost function Ref(i: nat): nat
      reads this
    {
      RefAt(slots, at, i)
    }

    ghost function Empty(): nat
      reads this
    {
      EmptyCount(slots, |slots|)
    }

    constructor (ghost inodes: nat)
      ensures Valid() && |at| == inodes && Empty() == NINODE && (forall i: nat :: Ref(i) == 0) && forall ii ::
        Copies(slots, ii)
    {
      slots := seq(NINODE, _ => Vacant());
      at := seq(inodes, _ => -1);
      AllEmpty(NINODE);
    }

    /** `inode_get`: one more reference, in the slot the inode has or in an empty one. */
    method Get(inum: nat) returns (k: nat)
      requires Valid() && inum < |at| && (Ref(inum) > 0 || Empty() > 0)
      modifies this
      ensures Valid() && |at| == |old(at)| && k < NINODE && at[inum] == k && Ref(inum) == old(Ref(inum)) + 1
      ensures forall i: nat | i != inum :: Ref(i) == old(Ref(i)) && (i < |at| ==> at[i] == old(at[i]))
      ensures Empty() == old(Empty()) - (if old(Ref(inum)) == 0 then 1 else 0) && (old(Ref(inum)) > 0 ==> at == old(at))
      ensures slots == old(slots)[k := slots[k]] && slots[k].inum == inum
      ensures if old(Ref(inum)) > 0 then slots[k] == old(slots[k]).(ref := slots[k].ref)
        else !slots[k].valid && old(slots[k].ref) == 0
    {
      assert PlaceOk(slots, at, inum);
      var empty: nat := NINODE;
      k := 0;
      while k < NINODE
        invariant k <= NINODE && empty <= NINODE && (empty < NINODE ==> empty < k && slots[empty].ref == 0)
        invariant empty == NINODE ==> forall j | 0 <= j < k :: slots[j].ref > 0
        invariant forall j | 0 <= j < k :: !(slots[j].ref > 0 && slots[j].inum == inum)
      {
        if slots[k].ref > 0 && slots[k].inum == inum {
          assert SlotOk(slots, at, k);
          EmptyCountUpdate(slots, k, slots[k].(ref := slots[k].ref + 1), NINODE);
          slots := slots[k := slots[k].(ref := slots[k].ref + 1)];
          OneSlot(old(slots), old(at), slots, at, k);
          return;
        }
        if empty == NINODE && slots[k].ref == 0 { empty := k; }
        k := k + 1;
      }
      if empty == NINODE { NoneEmpty(slots, NINODE); }
      k := empty;
      EmptyCountUpdate(slots, k, slots[k].(ref := 1, inum := inum, valid := false), NINODE);
      slots := slots[k := slots[k].(ref := 1, inum := inum, valid := false)];
      at := at[inum := k];
      OneSlot(old(slots), old(at), slots, at, k);
    }

    /** `inode_dup`. */
    method Dup(k: nat)
      requires Valid() && k < NINODE && slots[k].ref > 0
      modifies this`slots
      ensures Valid() && slots[k].inum == old(slots[k].inum) && Ref(slots[k].inum) == old(Ref(slots[k].inum)) + 1 &&
        Empty() == old(Empty())
      ensures forall i: nat | i != slots[k].inum :: Ref(i) == old(Ref(i))
      ensures slots == old(slots)[k := old(slots[k]).(ref := old(slots[k].ref) + 1)]
    {
      assert SlotOk(slots, at, k);
      EmptyCountUpdate(slots, k, slots[k].(ref := slots[k].ref + 1), NINODE);
      slots := slots[k := slots[k].(ref := slots[k].ref + 1)];
      OneSlot(old(slots), old(at), slots, at, k);
    }

    /** The reference `inode_put` drops; the slot is empty when it was the last. */
    method Put(k: nat)
      requires Valid() && k < NINODE && slots[k].ref > 0
      modifies this
      ensures Valid() && |at| == |old(at)| && Ref(old(slots[k].inum)) == old(Ref(slots[k].inum)) - 1
      ensures forall i: nat | i != old(slots[k].inum) :: Ref(i) == old(Ref(i)) && (i < |at| ==> at[i] == old(at[i]))
      ensures old(slots[k].inum) < |at| && (old(slots[k].ref) > 1 ==> at == old(at))
      ensures Empty() == old(Empty()) + if old(slots[k].ref) == 1 then 1 else 0
      ensures slots == old(slots)[k := old(slots[k]).(ref := old(slots[k].ref) - 1)]
    {
      assert SlotOk(slots, at, k);
      ghost var i := slots[k].inum;
      EmptyCountUpdate(slots, k, slots[k].(ref := slots[k].ref - 1), NINODE);
      slots := slots[k := slots[k].(ref := slots[k].ref - 1)];
      if slots[k].ref == 0 { at := at[i := -1]; }
      OneSlot(old(slots), old(at), slots, at, k);
    }

    /** The copy is set, or given up. */
    method Fill(k: nat, valid: bool, d: Dinode)
      requires Valid() && k < NINODE && slots[k].ref > 0
      modifies this`slots
      ensures Valid() && slots == old(slots)[k := old(slots[k]).(valid := valid, d := d)]
      ensures Empty() == old(Empty()) && forall i: nat :: Ref(i) == old(Ref(i))
    {
      Filled(slots, at, k, valid, d);
      slots := slots[k := slots[k].(valid := valid, d := d)];
    }
  }

  lemma {:induction false} Filled(slots: seq<Slot>, at: seq<int>, k: nat, valid: bool, d: Dinode)
    requires Placed(slots, at) && k < NINODE && slots[k].ref > 0
    ensures var slots' := slots[k := slots[k].(valid := valid, d := d)];
      Placed(slots', at) && (forall i: nat :: RefAt(slots', at, i) == RefAt(slots, at, i)) &&
        EmptyCount(slots', NINODE) == EmptyCount(slots, NINODE)
  {
    var slots' := slots[k := slots[k].(valid := valid, d := d)];
    assert SlotOk(slots, at, k) && RefAt(slots', at, slots[k].inum) == RefAt(slots, at, slots[k].inum);
    EmptyCountUpdate(slots, k, slots'[k], NINODE);
    OneSlot(slots, at, slots', at, k);
  }

  lemma {:induction false} AllEmpty(n: nat)
    ensures EmptyCount(seq(NINODE, _ => Vacant()), if n <= NINODE then n else NINODE) == if n <= NINODE then n
      else NINODE
  {
    if 0 < n <= NINODE { AllEmpty(n - 1); } else if n > NINODE { AllEmpty(NINODE); }
  }
}
