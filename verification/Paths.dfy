/** Path resolution: a walk from the root or the working directory, one directory lookup per element. */
module Paths {
  import opened FsSpec
  import opened FsInv
  import opened Log
  import opened Blocks
  import opened Inodes
  import opened DirSpec
  import opened Dirs
  import opened LinkSpec
  import opened PathSpec
  import opened TreeOf
  import opened Walks
  import IC = InodeCache

  /** The file system can be read, and its directories are sound; they may name inodes not in use. */
  ghost predicate Browsing(log: Log, lay: Layout, ii: seq<Dinode>, owner: seq<Owner>)
    reads log, log.bc
  {
    && Ready(log, lay) && log.bc.a.held == {} && |log.bc.a.pinned| <= CAP
    && FsOk(log.View(), ii, owner, lay) && Table(log.View(), ii, lay) && DirsSound(log.View(), ii)
  }

  /** The copy of inode `i` from the inode table. */
  method ReadInode(log: Log, i: nat, ghost lay: Layout, ghost ii: seq<Dinode>) returns (d: Dinode)
    requires Ready(log, lay) && log.bc.a.held == {} && |log.bc.a.pinned| <= CAP && Table(log.View(), ii, lay) &&
      i < |ii|
    modifies log.bc
    ensures Ready(log, lay) && log.bc.a.held == {} && log.View() == old(log.View()) && log.bc.a.Same(old(log.bc.a)) &&
      d == ii[i]
  {
    assert TableAt(log.View(), ii, lay, i);
    assert i / IPB + 2 < log.start;
    hide Log.Valid, Log.View, DinodeAt;
    var data := log.Peek(i / IPB + 2);
    d := DinodeAt(data, i % IPB);
  }

  /** Slot `k` refers to inode `i`, and the copies in the cache are right. */
  ghost predicate Refers(cache: IC.InodeCache, ii: seq<Dinode>, k: nat, i: nat)
    reads cache
  {
    && cache.Valid() && IC.Copies(cache.slots, ii) && k < IC.NINODE == |cache.slots| && i < |cache.at| == |ii|
    && cache.at[i] == k
    && cache.slots[k].ref > 0 && cache.slots[k].inum == i
  }

  /** Slot `k` refers to inode `i` and has a copy of it. */
  ghost predicate Locked(cache: IC.InodeCache, ii: seq<Dinode>, k: nat, i: nat)
    reads cache
  {
    Refers(cache, ii, k, i) && cache.slots[k].valid
  }

  /** `inode_lock`: the inode is read in if there is no copy of it; `ok` is false for the panic on one not in use. */
  method LockInode(log: Log, cache: IC.InodeCache, k: nat, ghost i: nat, ghost lay: Layout,
                   ghost ii: seq<Dinode>) returns (ok: bool)
    requires Ready(log, lay) && log.bc.a.held == {} && |log.bc.a.pinned| <= CAP && Table(log.View(), ii, lay) &&
      Refers(cache, ii, k, i)
    modifies log.bc, cache`slots
    ensures Ready(log, lay) && log.bc.a.held == {} && log.View() == old(log.View()) && log.bc.a.Same(old(log.bc.a))
    ensures ok == (ii[i].typ != 0) && cache.Valid() && cache.Empty() == old(cache.Empty()) && forall j: nat ::
      cache.Ref(j) == old(cache.Ref(j))
    ensures ok ==>
      Locked(cache, ii, k, i) && cache.slots == old(cache.slots)[k := old(cache.slots[k]).(valid := true, d := ii[i])]
    ensures !ok ==> cache.slots == old(cache.slots)
  {
    assert IC.CopyOk(cache.slots[k], ii);
    hide Log.Valid, Log.View, Table;
    if !cache.slots[k].valid {
      var d := ReadInode(log, cache.slots[k].inum, lay, ii);
      if d.typ == 0 { return false; }
      IC.CopiesStored(cache.slots, cache.at, ii, k, cache.slots[k].(valid := true, d := d), d);
      assert ii[i := d] == ii;
      cache.Fill(k, true, d);
    }
    return true;
  }

  // References

  const NOWHERE := -1

  ghost predicate RefIs(cache: IC.InodeCache, base: seq<nat>, cur: int, i: nat)
    requires i < |base|
    reads cache
  {
    cache.Ref(i) == base[i] + if i == cur then 1 else 0
  }

  /** The references are those of `base`, and one more to `cur`; `room` slots were empty to begin with. */
  ghost predicate Holding(cache: IC.InodeCache, base: seq<nat>, cur: int, room: nat)
    reads cache
  {
    && cache.Valid() && |cache.at| == |base|
    && (forall i: nat | i < |base| :: RefIs(cache, base, cur, i))
    && cache.Empty() == room - if 0 <= cur < |base| && base[cur] == 0 then 1 else 0
  }

  /** Inodes that were referred to before are still in the same slots. */
  ghost predicate Stays(base: seq<nat>, was: seq<int>, at: seq<int>) {
    |was| == |at| == |base| && forall i: nat | i < |base| && base[i] > 0 :: at[i] == was[i]
  }

  lemma {:induction false} StaysTrans(base: seq<nat>, was: seq<int>, mid: seq<int>, at: seq<int>)
    requires Stays(base, was, mid) && Stays(base, mid, at)
    ensures Stays(base, was, at)
  {
  }

  lemma {:induction false} CopiesRef(slots: seq<IC.Slot>, ii: seq<Dinode>, k: nat, s: IC.Slot)
    requires IC.Copies(slots, ii) && k < |slots| && IC.CopyOk(s, ii)
    ensures IC.Copies(slots[k := s], ii)
  {
    var slots' := slots[k := s];
    forall j | 0 <= j < |slots'|
      ensures IC.CopyOk(slots'[j], ii)
    {
      assert IC.CopyOk(slots[j], ii);
    }
  }

  /** The test in `inode_put`: this is the last reference, to an inode without links. */
  predicate LastPut(s: IC.Slot) {
    s.ref == 1 && s.valid && s.d.nlink == 0
  }

  /** The reference to `cur` given up, unless that frees the inode. */
  method Drop(cache: IC.InodeCache, k: nat, ghost ii: seq<Dinode>, ghost base: seq<nat>, ghost cur: nat,
              ghost room: nat) returns (ok: bool)
    requires Holding(cache, base, cur, room) && |base| == |ii| && Refers(cache, ii, k, cur)
    modifies cache
    ensures ok == !old(LastPut(cache.slots[k]))
    ensures ok ==>
      Holding(cache, base, NOWHERE, room) && IC.Copies(cache.slots, ii) && Stays(base, old(cache.at), cache.at)
  {
    if LastPut(cache.slots[k]) { return false; }
    assert RefIs(cache, base, cur, cur) && IC.CopyOk(cache.slots[k], ii);
    CopiesRef(cache.slots, ii, k, cache.slots[k].(ref := cache.slots[k].ref - 1));
    cache.Put(k);
    forall i: nat | i < |base|
      ensures RefIs(cache, base, NOWHERE, i)
    {
      assert old(RefIs(cache, base, cur, i));
    }
    return true;
  }

  /** A reference to `inum` for the one to `cur`, unless that frees `cur`. */
  method Trade(cache: IC.InodeCache, k: nat, inum: nat, ghost ii: seq<Dinode>, ghost base: seq<nat>, ghost cur: nat,
               ghost room: nat)
    returns (ok: bool, k': nat)
    requires Holding(cache, base, cur, room) && room >= 2 && |base| == |ii| && inum < |base| &&
      Locked(cache, ii, k, cur)
    modifies cache
    ensures ok == !(ii[cur].nlink == 0 && base[cur] == 0 && inum != cur)
    ensures ok ==>
      Holding(cache, base, inum, room) && Refers(cache, ii, k', inum) && Stays(base, old(cache.at), cache.at)
  {
    assert RefIs(cache, base, cur, cur) && RefIs(cache, base, cur, inum);
    assert IC.PlaceOk(cache.slots, cache.at, cur) && IC.CopyOk(cache.slots[k], ii) && cache.slots[k].inum == cur;
    ghost var was := cache.slots;
    k' := cache.Get(inum);
    TakenCopies(was, cache.slots, ii, k');
    assert IC.PlaceOk(cache.slots, cache.at, cur) && cache.Ref(cur) > 0 && cache.Ref(inum) > 0;
    if LastPut(cache.slots[k]) { return false, k'; }
    assert IC.CopyOk(cache.slots[k], ii);
    CopiesRef(cache.slots, ii, k, cache.slots[k].(ref := cache.slots[k].ref - 1));
    cache.Put(k);
    ok := true;
    forall i: nat | i < |base|
      ensures RefIs(cache, base, inum, i)
    {
      assert old(RefIs(cache, base, cur, i));
    }
    assert IC.PlaceOk(cache.slots, cache.at, inum) && RefIs(cache, base, inum, inum);
  }

  lemma {:induction false} TakenCopies(was: seq<IC.Slot>, slots: seq<IC.Slot>, ii: seq<Dinode>, k: nat)
    requires IC.Copies(was, ii) && k < |was| == |slots| && slots == was[k := slots[k]]
    requires !slots[k].valid || (was[k].ref > 0 && slots[k] == was[k].(ref := slots[k].ref))
    ensures IC.Copies(slots, ii)
  {
    assert IC.CopyOk(was[k], ii);
    CopiesRef(was, ii, k, slots[k]);
  }

  /** The first reference: to the root, or to the working directory. */
  method Start(cache: IC.InodeCache, absolute: bool, cwd: nat, ghost ii: seq<Dinode>, ghost base: seq<nat>,
               ghost room: nat) returns (k: nat, cur: nat)
    requires Holding(cache, base, NOWHERE, room) && IC.Copies(cache.slots, ii) && room >= 2 && ROOT < |base| == |ii|
    requires cwd < IC.NINODE && cache.slots[cwd].ref > 0
    modifies cache
    ensures Holding(cache, base, cur, room) && Refers(cache, ii, k, cur) && Stays(base, old(cache.at), cache.at)
    ensures cur == (if absolute then ROOT else old(cache.slots[cwd].inum)) && (base[cur] == 0 ==> !cache.slots[k].valid)
  {
    ghost var was := cache.slots;
    if absolute {
      cur := ROOT;
      k := cache.Get(ROOT);
    } else {
      cur := cache.slots[cwd].inum;
      assert IC.SlotOk(cache.slots, cache.at, cwd);
      k := cwd;
      cache.Dup(cwd);
    }
    TakenCopies(was, cache.slots, ii, k);
    assert old(RefIs(cache, base, NOWHERE, cur));
    forall i: nat | i < |base|
      ensures RefIs(cache, base, cur, i)
    {
      assert old(RefIs(cache, base, NOWHERE, i));
    }
  }

  /** Slot `k` holds the one reference taken, to `cur`. */
  ghost predicate Visiting(cache: IC.InodeCache, ii: seq<Dinode>, base: seq<nat>, k: int, cur: nat, room: nat)
    reads cache
  {
    0 <= k && Refers(cache, ii, k, cur) && Holding(cache, base, cur, room) && room >= 2 && |base| == |ii|
  }

  /** What the walk finds by looking up an element in `cur`. */
  datatype Found = Parent | Child(inum: nat) | Missing | Panic

  /** One round of `namex`'s loop up to the lookup; `last` stops at the directory itself. */
  method LookIn(log: Log, cache: IC.InodeCache, k: nat, s: Name, last: bool, ghost cur: nat, ghost room: nat,
                ghost lay: Layout, ghost ii: seq<Dinode>, ghost owner: seq<Owner>, ghost base: seq<nat>)
    returns (f: Found)
    requires Browsing(log, lay, ii, owner) && Visiting(cache, ii, base, k, cur, room) && IsString(s) && Cut(s) == s
    modifies log`lh, log`slot, log.bc, cache`slots
    ensures Browsing(log, lay, ii, owner) && log.View() == old(log.View()) && log.bc.a.Same(old(log.bc.a)) &&
      log.lh == old(log.lh) && log.slot == old(log.slot)
    ensures var n := NodesOf(log.View(), ii)[cur];
      f == if n.typ == 0 then Panic else if n.typ != T_DIR then Missing else if last then Parent
           else if s !in n.dir then Missing else Child(n.dir[s])
    ensures f != Panic ==> Visiting(cache, ii, base, k, cur, room) && Locked(cache, ii, k, cur)
    ensures f.Child? ==> f.inum < |ii|
  {
    assert DirSound(log.View(), ii[cur], |ii|);
    hide Log.Valid, Log.View, FsOk, Table, DirsSound, Ready, Contents, Names, DirOk, Mapped, FirstNamed,
      IC.InodeCache.Empty;
    var ok := LockInode(log, cache, k, cur, lay, ii);
    if !ok { return Panic; }
    forall i: nat | i < |base|
      ensures RefIs(cache, base, cur, i)
    {
      assert old(RefIs(cache, base, cur, i));
    }
    if cache.slots[k].d.typ != T_DIR { return Missing; }
    if last { return Parent; }
    var inum, off := DirLookup(log, cache.slots[k].d, s, lay, ii, owner, cur);
    f := if inum == 0 then Missing else Child(inum);
  }

  /** The walk so far: the first `n` of the elements have led to `cur`. */
  ghost predicate Walking(ns: seq<Node>, base: seq<nat>, start: nat, es: seq<Name>, parent: bool, n: nat, cur: nat) {
    n <= |es| && Walk(ns, base, start, es, n) == At(cur) && (parent ==> n < |es| || es == [])
  }

  /** What one more element says about the answer. */
  lemma {:induction false} ResolveRound(ns: seq<Node>, base: seq<nat>, start: nat, es: seq<Name>, parent: bool, n: nat,
                                        cur: nat)
    requires n < |es| && Walk(ns, base, start, es, n) == At(cur)
    ensures Walk(ns, base, start, es, n + 1) == Next(ns, base, At(cur), Clip(es[n]))
    ensures parent && n == |es| - 1 ==> Resolve(ns, base, start, es, parent) == Enter(ns, base, At(cur))
    ensures !(parent && n == |es| - 1) && !Next(ns, base, At(cur), Clip(es[n])).At? ==>
      Resolve(ns, base, start, es, parent) == Next(ns, base, At(cur), Clip(es[n]))
  {
    hide Next, Clip;
    var p := Walk(ns, base, start, es, n + 1);
    if !p.At? {
      WalkEnded(ns, base, start, es, n + 1, |es|);
      if n < |es| - 1 { WalkEnded(ns, base, start, es, n + 1, |es| - 1); }
    }
  }

  /** What a round of the loop found says about the answer. */
  lemma {:induction false} WalkRound(ns: seq<Node>, base: seq<nat>, start: nat, es: seq<Name>, parent: bool, n: nat,
                                     cur: nat)
    requires Walking(ns, base, start, es, parent, n, cur) && cur < |ns| == |base| && n < |es|
    ensures var s, r, last := Clip(es[n]), Resolve(ns, base, start, es, parent), parent && n == |es| - 1;
      && (ns[cur].typ == 0 ==> r == Stuck)
      && (ns[cur].typ == T_DIR && last ==> r == At(cur))
      && (ns[cur].typ != 0 && (ns[cur].typ != T_DIR || (!last && s !in ns[cur].dir)) ==>
          r == if Loose(ns, base, cur) then Stuck else Lost)
      && (ns[cur].typ == T_DIR && !last && s in ns[cur].dir ==>
          if Loose(ns, base, cur) && ns[cur].dir[s] != cur then r == Stuck
          else Walking(ns, base, start, es, parent, n + 1, ns[cur].dir[s]))
  {
    ResolveRound(ns, base, start, es, parent, n, cur);
    hide Clip, Walk, Resolve;
  }

  lemma {:induction false} WalkStart(ns: seq<Node>, base: seq<nat>, start: nat, es: seq<Name>)
    ensures Walk(ns, base, start, es, 0) == At(start)
  {
  }

  lemma {:induction false} WalkEnd(ns: seq<Node>, base: seq<nat>, start: nat, es: seq<Name>, parent: bool, n: nat,
                                   cur: nat)
    requires Walking(ns, base, start, es, parent, n, cur) && n == |es|
    ensures Resolve(ns, base, start, es, parent) == (if parent then Lost else At(cur)) && (parent ==> n == 0)
  {
  }

  lemma {:induction false} VisitRef(cache: IC.InodeCache, ii: seq<Dinode>, base: seq<nat>, k: nat, cur: nat, room: nat)
    requires Visiting(cache, ii, base, k, cur, room)
    ensures cache.slots[k].ref == base[cur] + 1
  {
    assert RefIs(cache, base, cur, cur);
  }

  /** The last put of an inode without links is of a loose one. */
  lemma {:induction false} LastIsLoose(log: Log, lay: Layout, owner: seq<Owner>, cache: IC.InodeCache, ii: seq<Dinode>,
                                       base: seq<nat>, k: nat, cur: nat, room: nat)
    requires Browsing(log, lay, ii, owner) && Visiting(cache, ii, base, k, cur, room) && Locked(cache, ii, k, cur)
    ensures LastPut(cache.slots[k]) <==> Loose(NodesOf(log.View(), ii), base, cur)
    ensures Loose(NodesOf(log.View(), ii), base, cur) <==> ii[cur].nlink == 0 && base[cur] == 0
  {
    hide Log.Valid, Log.View, IsDir, Names;
    ShapeOf(log.View(), ii, owner, lay);
    VisitRef(cache, ii, base, k, cur, room);
    assert IC.CopyOk(cache.slots[k], ii);
  }

  /** The answer of `namex`, at an inode or nowhere. */
  ghost predicate Answer(cache: IC.InodeCache, ii: seq<Dinode>, base: seq<nat>, k: int, r: Place, room: nat)
    reads cache
  {
    match r
    case At(x) => 0 <= k && Refers(cache, ii, k, x) && Holding(cache, base, x, room)
    case Lost => k == -1 && Holding(cache, base, NOWHERE, room) && IC.Copies(cache.slots, ii)
    case Stuck => k == -1
  }

  /** Slot `k` holds the one reference taken, to `cur`, where the walk has come to; at the start it may be unread. */
  ghost predicate OnTheWay(cache: IC.InodeCache, ns: seq<Node>, ii: seq<Dinode>, base: seq<nat>, start: nat,
                           es: seq<Name>, parent: bool, k: int, cur: nat, n: nat, room: nat)
    reads cache
  {
    && Visiting(cache, ii, base, k, cur, room) && Walking(ns, base, start, es, parent, n, cur) && |ns| == |ii|
    && (n == 0 && base[cur] == 0 ==> !cache.slots[k].valid)
  }

  /** One round of `namex`'s loop: the answer is known, or the walk goes on from the next element. */
  method Round(log: Log, cache: IC.InodeCache, k: nat, name: Name, last: bool, cur: nat, ghost es: seq<Name>,
               ghost parent: bool, ghost start: nat, ghost n: nat, ghost room: nat, ghost lay: Layout,
               ghost ii: seq<Dinode>, ghost owner: seq<Owner>, ghost base: seq<nat>)
    returns (done: bool, ok: bool, k': int, cur': nat, ghost r: Place)
    requires Browsing(log, lay, ii, owner) &&
      OnTheWay(cache, NodesOf(log.View(), ii), ii, base, start, es, parent, k, cur, n, room)
    requires n < |es| && name == Clip(es[n]) && last == (parent && n == |es| - 1) && IsString(name) && Cut(name) == name
    modifies log`lh, log`slot, log.bc, cache
    ensures Browsing(log, lay, ii, owner) && log.View() == old(log.View()) && log.bc.a.Same(old(log.bc.a)) &&
      log.lh == old(log.lh) && log.slot == old(log.slot)
    ensures done ==>
      r == Resolve(NodesOf(log.View(), ii), base, start, es, parent) && ok == (r != Stuck) &&
      Answer(cache, ii, base, k', r, room)
    ensures done && r.At? && parent ==> last
    ensures ok || !done ==> Stays(base, old(cache.at), cache.at)
    ensures !done ==> OnTheWay(cache, NodesOf(log.View(), ii), ii, base, start, es, parent, k', cur', n + 1, room)
  {
    hide Log.Valid, Log.View, IsDir, Names, Holding, Browsing, Clip, IsString, Walk, Resolve, Walking,
      IC.InodeCache.Empty, IC.InodeCache.Valid, IC.Copies;
    WalkRound(NodesOf(log.View(), ii), base, start, es, parent, n, cur);
    var f := LookIn(log, cache, k, name, last, cur, room, lay, ii, owner, base);
    done, ok, k', cur', r := true, false, -1, cur, Stuck;
    match f {
      case Panic =>
      case Parent => ok, k', r := true, k, At(cur);
      case Missing =>
        LastIsLoose(log, lay, owner, cache, ii, base, k, cur, room);
        ok := Drop(cache, k, ii, base, cur, room);
        r := if ok then Lost else Stuck;
      case Child(inum) =>
        LastIsLoose(log, lay, owner, cache, ii, base, k, cur, room);
        ok, k' := Trade(cache, k, inum, ii, base, cur, room);
        if ok { done, cur' := false, inum; } else { k' := -1; }
    }
  }

  /**
   * `namex`.  The answer is where the path's elements lead, and exactly one reference
   * to it has been taken; without an answer, no reference count has changed.  `ok` is
   * false when the walk is stuck: at an inode not in use, where `inode_lock` panics, or
   * at one that would go out of use here.
   */
  method NameX(log: Log, cache: IC.InodeCache, path: Name, parent: bool, cwd: nat, ghost lay: Layout,
               ghost ii: seq<Dinode>, ghost owner: seq<Owner>, ghost base: seq<nat>)
    returns (ok: bool, k: int, name: Name, ghost r: Place)
    requires Browsing(log, lay, ii, owner) && IsString(path) && ROOT < |ii| == |base|
    requires Holding(cache, base, NOWHERE, cache.Empty()) && IC.Copies(cache.slots, ii) && cache.Empty() >= 2
    requires cwd < IC.NINODE && cache.slots[cwd].ref > 0
    modifies log`lh, log`slot, log.bc, cache
    ensures Browsing(log, lay, ii, owner) && log.View() == old(log.View()) && log.bc.a.Same(old(log.bc.a)) &&
      log.lh == old(log.lh) && log.slot == old(log.slot)
    ensures var start := if path != [] && path[0] == SLASH then ROOT else old(cache.slots[cwd].inum);
      r == Resolve(NodesOf(log.View(), ii), base, start, Elements(path, 0), parent)
    ensures ok == (r != Stuck) && Answer(cache, ii, base, k, r, old(cache.Empty())) &&
      (ok ==> Stays(base, old(cache.at), cache.at))
    ensures parent && r.At? ==> Elements(path, 0) != [] && name == Clip(Elements(path, 0)[|Elements(path, 0)| - 1])
  {
    hide Log.Valid, Log.View, Holding, Stays, Elements, Browsing, Clip, IsString, Resolve, Walk, IC.InodeCache.Empty,
      IC.InodeCache.Valid, IC.Copies;
    ghost var room, v, ns, es := cache.Empty(), log.View(), NodesOf(log.View(), ii), Elements(path, 0);
    var cur: nat;
    k, cur := Start(cache, path != [] && path[0] == SLASH, cwd, ii, base, room);
    ghost var start, n := cur, 0;
    WalkStart(ns, base, start, es);
    var pos: nat := 0;
    name := [];
    while true
      invariant Browsing(log, lay, ii, owner) && log.View() == v && log.bc.a.Same(old(log.bc.a)) &&
        log.lh == old(log.lh) && log.slot == old(log.slot)
      invariant Stays(base, old(cache.at), cache.at) && n <= |es| && pos <= |path| && Elements(path, pos) == es[n..] &&
        OnTheWay(cache, ns, ii, base, start, es, parent, k, cur, n, room)
      decreases |path| - pos
    {
      var next;
      next, name := SkipElem(path, pos);
      if next == -1 { break; }
      ClippedName(path, 0, n);
      var done;
      ghost var mid := cache.at;
      done, ok, k, cur, r :=
        Round(log, cache, k, name, parent && next == |path|, cur, es, parent, start, n, room, lay, ii, owner, base);
      if ok || !done { StaysTrans(base, old(cache.at), mid, cache.at); }
      if done { return; }
      pos, n := next, n + 1;
    }
    WalkEnd(ns, base, start, es, parent, n, cur);
    ok, r := true, At(cur);
    if parent {
      VisitRef(cache, ii, base, k, cur, room);
      ghost var mid := cache.at;
      ok := Drop(cache, k, ii, base, cur, room);
      StaysTrans(base, old(cache.at), mid, cache.at);
      k, r := -1, Lost;
    }
  }
}
