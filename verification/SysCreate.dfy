/** `create`, as `sys_mkdir` and `sys_open` call it: a new file or directory under a new name. */
module SysCreate {
  import opened Sectors
  import opened FsSpec
  import opened FsInv
  import opened FsSteps
  import opened Log
  import opened Inodes
  import opened Files
  import opened DirSpec
  import opened Dirs
  import opened LinkSpec
  import opened Links
  import opened PathSpec
  import opened TreeOf
  import opened Walks
  import opened TreeLaws
  import opened Paths
  import opened TreeSteps
  import opened Namespace

  // The dots of a new directory

  lemma {:induction false} DotFirst(inum: nat)
    requires 0 < inum < U16
    ensures var c := Splice([], 0, NewEntry(DOT, inum)); |c| == DESIZE && NamedAt(c, 0, DOT) && FirstDead(c, 0) == 1
  {
    var c := Splice([], 0, NewEntry(DOT, inum));
    NewEntryIs(DOT, inum);
    SpliceEntry([], 0, NewEntry(DOT, inum), 0);
    assert LiveAt(c, 0) && EntryCount(c) == 1;
  }

  lemma {:induction false} DotsSecond(c: seq<byte>, inum: nat)
    requires 0 < inum < U16 && |c| == DESIZE && NamedAt(c, 0, DOT)
    ensures Dotted(Splice(c, DESIZE, NewEntry(DOTDOT, inum)))
  {
    NewEntryIs(DOTDOT, inum);
    SpliceEntry(c, 1, NewEntry(DOTDOT, inum), 0);
    SpliceEntry(c, 1, NewEntry(DOTDOT, inum), 1);
  }

  lemma {:induction false} DotNames()
    ensures DOT != DOTDOT && IsString(DOT) && IsString(DOTDOT) && Cut(DOT) == DOT && Cut(DOTDOT) == DOTDOT
  {
    assert |DOT| != |DOTDOT|;
  }

  /** The first dot goes into a new block. */
  lemma {:induction false} CanAddFirst(v: Disk, lay: Layout, d: Dinode)
    requires IsDir(v, d) && Contents(v, d) == [] && lay.Ok() && |v| == lay.Start() && 1 <= |FreeBlocks(v, lay)|
    ensures CanAdd(v, lay, d, 1) && NewOffset(v, d) == 0 && EntryCost(d.size, 0) == 1 && Growth(d.size, 0) == 1
  {
    hide Mapped, FreeBlocks;
  }

  /** The second goes after it. */
  lemma {:induction false} CanAddSecond(v: Disk, lay: Layout, d: Dinode)
    requires IsDir(v, d) && |Contents(v, d)| == DESIZE && FirstDead(Contents(v, d), 0) == 1 && lay.Ok() &&
      |v| == lay.Start()
    ensures CanAdd(v, lay, d, 1) && NewOffset(v, d) == DESIZE && EntryCost(d.size, DESIZE) == 1 &&
      Growth(d.size, DESIZE) == 0
  {
    hide Mapped, FreeBlocks;
  }

  /** A directory with its first dot only. */
  ghost predicate OneDot(v: Disk, d: Dinode) {
    IsDir(v, d) && |Contents(v, d)| == DESIZE && NamedAt(Contents(v, d), 0, DOT) && FirstDead(Contents(v, d), 0) == 1
  }

  /** "." in a new directory. */
  method AddDot(log: Log, cache: IC.InodeCache, k: nat, ip: nat, ghost lay: Layout, ghost ii: seq<Dinode>,
                ghost owner: seq<Owner>, ghost base: set<nat>)
    returns (ghost ii': seq<Dinode>, ghost owner': seq<Owner>)
    requires Working(log, cache, lay, ii, owner, base, SLACK, ip) && Locked(cache, ii, k, ip) && lay.IBlock(ip) in base
    requires IsDir(log.View(), ii[ip]) && Contents(log.View(), ii[ip]) == [] && 0 < ip < U16
    requires NodesOf(log.View(), ii)[ip].dir == map[] && 1 <= |FreeBlocks(log.View(), lay)|
    modifies log`lh, log`slot, log.bc, cache`slots
    ensures |ii'| == |ii| && Working(log, cache, lay, ii', owner', base, SLACK - 1, ip) && Locked(cache, ii', k, ip) &&
      OneDot(log.View(), ii'[ip])
    ensures NodesOf(log.View(), ii') ==
      NodesOf(old(log.View()), ii)[ip := NodesOf(old(log.View()), ii)[ip].(dir := map[DOT := ip])]
    ensures SameFiles(old(log.View()), ii, log.View(), ii', ip) &&
      |FreeBlocks(log.View(), lay)| == |FreeBlocks(old(log.View()), lay)| - 1
    ensures cache.slots == old(cache.slots)[k := old(cache.slots[k]).(d := ii'[ip])] &&
      cache.Empty() == old(cache.Empty())
    ensures forall j: nat :: cache.Ref(j) == old(cache.Ref(j))
  {
    hide Log.Valid, Log.View, Trans, FitBut, IsDir, Contents, Layout.Bitmaps, NodesOf, Named, CanAdd, IsString, Cut,
      IC.InodeCache.Empty, IC.InodeCache.Ref, IC.Placed;
    hide EntryCost, Growth, NewOffset, FreeBlocks, SameFiles, NamedAt, FirstDead, Splice, NewEntry;
    DotNames();
    TransFacts(log, lay, ii, owner, base, SLACK);
    ghost var v := log.View();
    CanAddFirst(v, lay, ii[ip]);
    CanAddMore(v, lay, ii[ip], 1, SLACK);
    var r;
    r, ii', owner' := AddName(log, cache, k, DOT, ip, ip, lay, ii, owner, base, SLACK, ip);
    NamedContents(v, ii, log.View(), ii', ip, DOT, ip);
    DotFirst(ip);
  }

  /** ".." after it: now the directory fits. */
  method AddDotDot(log: Log, cache: IC.InodeCache, k: nat, ip: nat, dp: nat, ghost lay: Layout, ghost ii: seq<Dinode>,
                   ghost owner: seq<Owner>, ghost base: set<nat>)
    returns (ghost ii': seq<Dinode>, ghost owner': seq<Owner>)
    requires Working(log, cache, lay, ii, owner, base, SLACK - 1, ip) && Locked(cache, ii, k, ip) &&
      lay.IBlock(ip) in base
    requires OneDot(log.View(), ii[ip]) && 0 < dp < U16 && DOTDOT !in NodesOf(log.View(), ii)[ip].dir
    modifies log`lh, log`slot, log.bc, cache`slots
    ensures |ii'| == |ii| && Working(log, cache, lay, ii', owner', base, SLACK - 2, |ii|) && Locked(cache, ii', k, ip)
    ensures var n := NodesOf(old(log.View()), ii)[ip];
      NodesOf(log.View(), ii') == NodesOf(old(log.View()), ii)[ip := n.(dir := n.dir[DOTDOT := dp])]
    ensures SameFiles(old(log.View()), ii, log.View(), ii', ip) &&
      |FreeBlocks(log.View(), lay)| == |FreeBlocks(old(log.View()), lay)|
    ensures cache.slots == old(cache.slots)[k := old(cache.slots[k]).(d := ii'[ip])] &&
      cache.Empty() == old(cache.Empty())
    ensures forall j: nat :: cache.Ref(j) == old(cache.Ref(j))
  {
    hide Log.Valid, Log.View, Trans, FitBut, IsDir, Contents, Layout.Bitmaps, NodesOf, Named, CanAdd, IsString, Cut,
      IC.InodeCache.Empty, IC.InodeCache.Ref, IC.Placed;
    hide EntryCost, Growth, NewOffset, FreeBlocks, SameFiles, NamedAt, FirstDead, Splice, NewEntry, Dotted;
    DotNames();
    TransFacts(log, lay, ii, owner, base, SLACK - 1);
    ghost var v := log.View();
    CanAddSecond(v, lay, ii[ip]);
    CanAddMore(v, lay, ii[ip], 1, SLACK - 1);
    var r;
    r, ii', owner' := AddName(log, cache, k, DOTDOT, dp, ip, lay, ii, owner, base, SLACK - 1, ip);
    NamedContents(v, ii, log.View(), ii', ip, DOTDOT, dp);
    DotsSecond(Contents(v, ii[ip]), dp);
    NowFits(log.View(), ii', ip);
  }

  lemma {:induction false} NamedContents(v: Disk, ii: seq<Dinode>, v': Disk, ii': seq<Dinode>, i: nat, s: Name,
                                         inum: nat)
    requires Named(v, ii, v', ii', i, s, inum)
    ensures IsDir(v, ii[i]) && IsDir(v', ii'[i]) && SameFiles(v, ii, v', ii', i) && ii'[i].typ == T_DIR
    ensures Contents(v', ii'[i]) == Splice(Contents(v, ii[i]), NewOffset(v, ii[i]), NewEntry(s, inum))
  {
  }

  lemma {:induction false} NowFits(v: Disk, ii: seq<Dinode>, i: nat)
    requires FitBut(v, ii, i) && i < |ii| && ii[i].typ == T_DIR && IsDir(v, ii[i]) && Dotted(Contents(v, ii[i]))
    ensures FitBut(v, ii, |ii|)
  {
    hide IsDir, Dotted;
  }

  // The new inode

  /** `create`'s new inode, with one link, before it has a name. */
  method MakeInode(log: Log, cache: IC.InodeCache, typ: nat, ghost k0: nat, ghost dp: nat, ghost lay: Layout,
                   ghost ii: seq<Dinode>, ghost owner: seq<Owner>, ghost base: set<nat>)
    returns (k: nat, ip: nat, ghost ii': seq<Dinode>)
    requires Working(log, cache, lay, ii, owner, base, SLACK, |ii|) && Locked(cache, ii, k0, dp) && ii[dp].typ != 0 &&
      0 < typ < U16 && 1 <= |ii|
    requires FirstFree(ii, 1) < |ii| && lay.IBlock(FirstFree(ii, 1)) in base && cache.Empty() > 0
    modifies log`lh, log`slot, log.bc, cache
    ensures ip == FirstFree(ii, 1) && |ii'| == |ii| && ii'[ip].typ == typ && ii'[ip].size == 0 && ii'[dp] == ii[dp]
    ensures Working(log, cache, lay, ii', owner, base, SLACK, ip) && Locked(cache, ii', k, ip) &&
      Locked(cache, ii', k0, dp)
    ensures NodesOf(log.View(), ii') == NodesOf(old(log.View()), ii)[ip := Node(typ, 1, map[])] &&
      SameFiles(old(log.View()), ii, log.View(), ii', ip)
    ensures typ == T_DIR ==> IsDir(log.View(), ii'[ip]) && Contents(log.View(), ii'[ip]) == []
    ensures lay.Ok() && |log.View()| == lay.Start() == |old(log.View())| &&
      FreeBlocks(log.View(), lay) == FreeBlocks(old(log.View()), lay)
    ensures forall j: nat :: cache.Ref(j) == old(cache.Ref(j)) + if j == ip then 1 else 0
  {
    hide Log.Valid, Log.View, Trans, FitBut, IsDir, Contents, Layout.Bitmaps, NodesOf, NodeOf, FreeBlocks, SameFiles,
      Mapped, IC.InodeCache.Empty, IC.Placed;
    ghost var ii1, v := ii, log.View();
    k, ip, ii1 := InodeAlloc(log, cache, typ, lay, ii, owner, base, SLACK);
    ghost var v1 := log.View();
    var ok := Lock(log, cache, k, ip, lay, ii1, owner, base, SLACK, ip);
    ii' := SetLinks(log, cache, k, 1, ip, lay, ii1, owner, base, SLACK, ip);
    SameFilesTrans(v, ii, v1, ii1, log.View(), ii', ip);
    RewrittenDir(v1, ii1, log.View(), ii', lay, ip, ii'[ip]);
  }

  lemma {:induction false} RewrittenDir(v: Disk, ii: seq<Dinode>, v': Disk, ii': seq<Dinode>, lay: Layout, i: nat,
                                        d: Dinode)
    requires Rewritten(v, ii, v', ii', lay, i, d) && d.typ == ii[i].typ
    ensures IsDir(v, ii[i]) ==> IsDir(v', d) && Contents(v', d) == Contents(v, ii[i])
  {
    hide Mapped, Contents, DirOk;
  }

  /** What the new inode and its parent come to before the new name is in. */
  function Begun(ns: seq<Node>, dp: nat, ip: nat, typ: nat): (r: seq<Node>)
    requires dp < |ns| && ip < |ns|
    ensures |r| == |ns|
  {
    ns[ip := Node(typ, 1, if typ == T_DIR then DotsOf(ip, dp) else map[])][dp :=
      ns[dp].(nlink := if typ == T_DIR then Inc16(ns[dp].nlink) else ns[dp].nlink)]
  }

  lemma {:induction false} BegunThenNamed(ns: seq<Node>, dp: nat, ip: nat, typ: nat, s: Name)
    requires dp < |ns| && ip < |ns| && dp != ip
    ensures WithName(Begun(ns, dp, ip, typ), dp, s, ip) == Created(ns, dp, s, ip, typ)
  {
  }

  lemma {:induction false} BegunSteps(ns: seq<Node>, dp: nat, ip: nat)
    requires dp < |ns| && ip < |ns| && dp != ip
    ensures ns[ip := Node(T_DIR, 1, map[])][dp := ns[dp].(nlink := Inc16(ns[dp].nlink))][ip :=
      Node(T_DIR, 1, map[DOT := ip])][ip := Node(T_DIR, 1, map[DOT := ip][DOTDOT := dp])] == Begun(ns, dp, ip, T_DIR)
  {
    DotNames();
    assert map[DOT := ip][DOTDOT := dp] == DotsOf(ip, dp);
  }

  /** A new directory gets its dots, and its parent a link. */
  method MakeDir(log: Log, cache: IC.InodeCache, k0: nat, k: nat, dp: nat, ip: nat, ghost ns: seq<Node>,
                 ghost lay: Layout, ghost ii: seq<Dinode>, ghost owner: seq<Owner>, ghost base: set<nat>)
    returns (ghost ii': seq<Dinode>, ghost owner': seq<Owner>)
    requires Working(log, cache, lay, ii, owner, base, SLACK, ip) && Locked(cache, ii, k, ip) &&
      Locked(cache, ii, k0, dp) && dp != ip && lay.IBlock(ip) in base && lay.IBlock(dp) in base
    requires |ns| == |ii| && NodesOf(log.View(), ii) == ns[ip := Node(T_DIR, 1, map[])] && 0 < ip < U16 &&
      0 < dp < U16 && lay.Ok() && |log.View()| == lay.Start()
    requires IsDir(log.View(), ii[ip]) && Contents(log.View(), ii[ip]) == [] && 1 <= |FreeBlocks(log.View(), lay)|
    modifies log`lh, log`slot, log.bc, cache`slots
    ensures |ii'| == |ii| && Working(log, cache, lay, ii', owner', base, SLACK - 2, |ii|) &&
      Locked(cache, ii', k, ip) && Locked(cache, ii', k0, dp)
    ensures NodesOf(log.View(), ii') == Begun(ns, dp, ip, T_DIR) &&
      SameContents(old(log.View()), ii[dp], log.View(), ii'[dp]) &&
        OthersKept(old(log.View()), ii, log.View(), ii', dp, ip)
    ensures lay.Ok() && |log.View()| == lay.Start() &&
      |FreeBlocks(log.View(), lay)| == |FreeBlocks(old(log.View()), lay)| - 1
    ensures forall j: nat :: cache.Ref(j) == old(cache.Ref(j))
  {
    hide Log.Valid, Log.View, Trans, FitBut, IsDir, Contents, Layout.Bitmaps, NodesOf, NodeOf, Begun, OneDot,
      FreeBlocks, SameFiles, Mapped, Rewritten;
    hide IC.InodeCache.Empty, IC.InodeCache.Ref, IC.Placed, OthersKept;
    DotNames();
    ghost var v := log.View();
    TransFacts(log, lay, ii, owner, base, SLACK);
    ghost var ii1 := StepLinks(log, cache, k0, true, dp, lay, ii, owner, base, SLACK, ip);
    ghost var v1 := log.View();
    TransFacts(log, lay, ii1, owner, base, SLACK);
    RewrittenSame(v, ii, v1, ii1, lay, dp, ii1[dp]);
    OtherSame(v, ii, v1, ii1, dp, ip);
    OthersOfSame(v, ii, v1, ii1, dp, dp, ip);
    ghost var ii2, owner2 := AddDot(log, cache, k, ip, lay, ii1, owner, base);
    ghost var v2 := log.View();
    TransFacts(log, lay, ii2, owner2, base, SLACK - 1);
    OtherSame(v1, ii1, v2, ii2, ip, dp);
    OthersOfSame(v1, ii1, v2, ii2, ip, dp, ip);
    OthersTwice(v, ii, v1, ii1, v2, ii2, dp, ip);
    ii', owner' := AddDotDot(log, cache, k, ip, dp, lay, ii2, owner2, base);
    TransFacts(log, lay, ii', owner', base, SLACK - 2);
    OtherSame(v2, ii2, log.View(), ii', ip, dp);
    OthersOfSame(v2, ii2, log.View(), ii', ip, dp, ip);
    OthersTwice(v, ii, v2, ii2, log.View(), ii', dp, ip);
    BegunSteps(ns, dp, ip);
  }

  /** There is room for a new entry in directory `d`, and for a new directory's block. */
  ghost predicate RoomToCreate(v: Disk, lay: Layout, d: Dinode, typ: nat) {
    CanAdd(v, lay, d, 2) && Growth(d.size, NewOffset(v, d)) + (if typ == T_DIR then 1 else 0) <= |FreeBlocks(v, lay)|
  }

  lemma {:induction false} CanAddAfter(v: Disk, lay: Layout, d: Dinode, typ: nat, v': Disk, d': Dinode)
    requires RoomToCreate(v, lay, d, typ) && SameContents(v, d, v', d') && |v'| == lay.Start()
    requires |FreeBlocks(v', lay)| == |FreeBlocks(v, lay)| - if typ == T_DIR then 1 else 0
    ensures CanAdd(v', lay, d', 2)
  {
    hide Mapped, Contents, FreeBlocks, Growth, EntryCost, BadWrite, FirstDead;
  }

  /** The new inode with its dots, everything but its name: the tree is `Begun`. */
  method MakeNode(log: Log, cache: IC.InodeCache, k0: nat, typ: nat, dp: nat, ghost lay: Layout, ghost ii: seq<Dinode>,
                  ghost owner: seq<Owner>, ghost base: set<nat>)
    returns (k: nat, ip: nat, ghost ii': seq<Dinode>, ghost owner': seq<Owner>)
    requires Working(log, cache, lay, ii, owner, base, SLACK, |ii|) && Locked(cache, ii, k0, dp) &&
      ii[dp].typ == T_DIR && (typ == T_DIR || typ == T_FILE) && 0 < dp
    requires FirstFree(ii, 1) < |ii| <= U16 && lay.IBlock(FirstFree(ii, 1)) in base && lay.IBlock(dp) in base &&
      cache.Empty() > 0
    requires RoomToCreate(log.View(), lay, ii[dp], typ)
    modifies log`lh, log`slot, log.bc, cache
    ensures ip == FirstFree(ii, 1) && ip != dp && |ii'| == |ii| &&
      Working(log, cache, lay, ii', owner', base, SLACK - 2, |ii|)
    ensures Locked(cache, ii', k, ip) && Locked(cache, ii', k0, dp) && k != k0 && ii'[dp].typ == T_DIR
    ensures NodesOf(log.View(), ii') == Begun(NodesOf(old(log.View()), ii), dp, ip, typ) &&
      CanAdd(log.View(), lay, ii'[dp], 2)
    ensures OthersKept(old(log.View()), ii, log.View(), ii', dp, ip) && (typ == T_FILE ==> ii'[ip].size == 0)
    ensures forall j: nat :: cache.Ref(j) == old(cache.Ref(j)) + if j == ip then 1 else 0
  {
    hide Log.Valid, Log.View, Trans, FitBut, IsDir, Contents, Layout.Bitmaps, NodesOf, NodeOf, Begun, FreeBlocks,
      SameFiles, Mapped, CanAdd, Growth, NewOffset, SameContents;
    hide IC.InodeCache.Empty, IC.InodeCache.Ref, IC.Placed, OthersKept;
    ghost var v, ns := log.View(), NodesOf(log.View(), ii);
    TransFacts(log, lay, ii, owner, base, SLACK);
    k, ip, ii' := MakeInode(log, cache, typ, k0, dp, lay, ii, owner, base);
    owner' := owner;
    TransFacts(log, lay, ii', owner, base, SLACK);
    OtherSame(v, ii, log.View(), ii', ip, dp);
    OthersOfSame(v, ii, log.View(), ii', ip, dp, ip);
    ghost var v1, d1, ii1 := log.View(), ii'[dp], ii';
    if typ == T_DIR {
      ii', owner' := MakeDir(log, cache, k0, k, dp, ip, ns, lay, ii', owner, base);
      SameTwice(v, ii[dp], v1, d1, log.View(), ii'[dp]);
      OthersTwice(v, ii, v1, ii1, log.View(), ii', dp, ip);
    } else {
      FileBegun(ns, dp, ip);
      FileFits(log.View(), ii', ip);
      LessSlack(log, cache, lay, ii', owner, base, SLACK, SLACK - 2, |ii|);
    }
    TransFacts(log, lay, ii', owner', base, SLACK - 2);
    CanAddAfter(v, lay, ii[dp], typ, log.View(), ii'[dp]);
    SameType(v, ii[dp], log.View(), ii'[dp]);
  }

  lemma {:induction false} FileBegun(ns: seq<Node>, dp: nat, ip: nat)
    requires dp < |ns| && ip < |ns| && dp != ip
    ensures ns[ip := Node(T_FILE, 1, map[])] == Begun(ns, dp, ip, T_FILE)
  {
  }

  lemma {:induction false} FileFits(v: Disk, ii: seq<Dinode>, i: nat)
    requires FitBut(v, ii, i) && i < |ii| && ii[i].typ == T_FILE
    ensures FitBut(v, ii, |ii|)
  {
    hide IsDir, Dotted;
  }

  lemma {:induction false} SameSize(v: Disk, d: Dinode, v': Disk, d': Dinode)
    requires SameContents(v, d, v', d')
    ensures d'.size == d.size
  {
  }

  /** `create` when the name is new. */
  method MakeNew(log: Log, cache: IC.InodeCache, k0: nat, name: Name, typ: nat, dp: nat, ghost ns: seq<Node>,
                 ghost lay: Layout, ghost ii: seq<Dinode>, ghost owner: seq<Owner>, ghost base: set<nat>)
    returns (k: nat, ip: nat, ghost ii': seq<Dinode>, ghost owner': seq<Owner>)
    requires Working(log, cache, lay, ii, owner, base, SLACK, |ii|) && Locked(cache, ii, k0, dp) &&
      ii[dp].typ == T_DIR && (typ == T_DIR || typ == T_FILE) && 0 < dp
    requires FirstFree(ii, 1) < |ii| <= U16 && lay.IBlock(FirstFree(ii, 1)) in base && lay.IBlock(dp) in base &&
      cache.Empty() > 0
    requires ns == NodesOf(log.View(), ii) && RoomToCreate(log.View(), lay, ii[dp], typ) && IsString(name) &&
      Cut(name) == name && name !in ns[dp].dir
    modifies log`lh, log`slot, log.bc, cache
    ensures ip == FirstFree(ii, 1) && |ii'| == |ii| && Working(log, cache, lay, ii', owner', base, 0, |ii|) &&
      Locked(cache, ii', k, ip)
    ensures NodesOf(log.View(), ii') == Dropped(Created(ns, dp, name, ip, typ), dp, old(cache.Ref(dp)) == 1)
    ensures OthersKept(old(log.View()), ii, log.View(), ii', dp, ip) && (typ == T_FILE ==> ii'[ip].size == 0)
    ensures forall j: nat :: cache.Ref(j) == old(cache.Ref(j)) + (if j == ip then 1 else 0) - if j == dp then 1 else 0
  {
    hide Log.Valid, Log.View, Trans, FitBut, IsDir, Contents, Layout.Bitmaps, NodesOf, NodeOf, Created, FreeBlocks,
      SameFiles, Mapped, CanAdd, Growth, EntryCost, NewOffset, Named, Cut, IsString;
    hide IC.InodeCache.Empty, IC.Placed, RoomToCreate, Dropped, OthersKept, SameContents;
    ghost var v := log.View();
    ghost var ii1, owner1;
    k, ip, ii1, owner1 := MakeNode(log, cache, k0, typ, dp, lay, ii, owner, base);
    ghost var v1 := log.View();
    BegunThenNamed(ns, dp, ip, typ, name);
    var r;
    ghost var ii2, owner2;
    r, ii2, owner2 := AddEntry(log, cache, k0, name, ip, dp, lay, ii1, owner1, base, SLACK - 2);
    ghost var v2 := log.View();
    TransFacts(log, lay, ii2, owner2, base, SLACK - 4);
    ii', owner' := InodePut(log, cache, k0, dp, lay, ii2, owner2, base, 0, |ii|);
    OthersOfSame(v2, ii2, log.View(), ii', dp, dp, dp);
    OthersTwice(v1, ii1, v2, ii2, log.View(), ii', dp, dp);
    OthersWiden(v1, ii1, log.View(), ii', dp, ip);
    SameSize(v1, ii1[ip], log.View(), ii'[ip]);
    OthersTwice(v, ii, v1, ii1, log.View(), ii', dp, ip);
  }

  // A name that is there already

  /**
   * What is left when `create` finds the name: the directory is put back, and what was found, unless it is the file
   * asked for.
   */
  ghost function FoundTree(ns: seq<Node>, refs: seq<nat>, dp: nat, ip: nat, typ: nat): (r: seq<Node>)
    requires dp < |ns| == |refs| && ip < |ns|
    ensures |r| == |ns|
  {
    var ns1 := Dropped(ns, dp, refs[dp] == 0 && ip != dp);
    if typ == T_FILE && ns[ip].typ == T_FILE then ns1 else Dropped(ns1, ip, refs[ip] == 0)
  }

  /** `create` when the name is taken; `ok` is false for the panic on an inode not in use. */
  method OpenFound(log: Log, cache: IC.InodeCache, k0: nat, inum: nat, typ: nat, ghost dp: nat, ghost ns: seq<Node>,
                   ghost refs: seq<nat>, ghost lay: Layout, ghost ii: seq<Dinode>, ghost owner: seq<Owner>,
                   ghost base: set<nat>)
    returns (ok: bool, k: int, ghost ii': seq<Dinode>, ghost owner': seq<Owner>)
    requires Working(log, cache, lay, ii, owner, base, SLACK, |ii|) && Locked(cache, ii, k0, dp) &&
      inum < |ii| == |refs| && cache.Empty() > 0
    requires lay.IBlock(inum) in base && lay.IBlock(dp) in base && ns == NodesOf(log.View(), ii)
    requires forall j: nat | j < |refs| :: cache.Ref(j) == refs[j] + if j == dp then 1 else 0
    modifies log`lh, log`slot, log.bc, cache
    ensures ok == (ns[inum].typ != 0)
    ensures ok ==>
      |ii'| == |ii| && Working(log, cache, lay, ii', owner', base, 0, |ii|) &&
      NodesOf(log.View(), ii') == FoundTree(ns, refs, dp, inum, typ)
    ensures ok ==>
      OthersKept(old(log.View()), ii, log.View(), ii', dp, inum) &&
      (typ == T_FILE && ns[inum].typ == T_FILE && inum != dp ==>
      SameContents(old(log.View()), ii[inum], log.View(), ii'[inum]))
    ensures ok ==> if typ == T_FILE && ns[inum].typ == T_FILE then 0 <= k && Locked(cache, ii', k, inum) else k == -1
    ensures ok ==> forall j: nat | j < |refs| :: cache.Ref(j) == refs[j] + if 0 <= k && j == inum then 1 else 0
  {
    hide Log.Valid, Log.View, Trans, FitBut, Layout.Bitmaps, NodesOf, NodeOf, IC.InodeCache.Empty, IC.Placed;
    hide OthersKept, SameContents, SameFiles, Mapped;
    ghost var v := log.View();
    TransFacts(log, lay, ii, owner, base, SLACK);
    NodeFacts(log, lay, ii, owner, base, SLACK, inum);
    k := GetInode(log, cache, inum, lay, ii, owner, base, SLACK, |ii|, k0, dp);
    assert cache.Ref(dp) == refs[dp] + if inum == dp then 2 else 1;
    ghost var ii1, owner1 := InodePut(log, cache, k0, dp, lay, ii, owner, base, SLACK, |ii|);
    assert Refers(cache, ii1, k, inum);
    ghost var v1 := log.View();
    OthersOfSame(v, ii, v1, ii1, dp, dp, dp);
    OthersWiden(v, ii, v1, ii1, dp, inum);
    TransFacts(log, lay, ii1, owner1, base, SLACK);
    ii', owner' := ii1, owner1;
    ok := Lock(log, cache, k, inum, lay, ii1, owner1, base, SLACK, |ii|);
    if ok {
      if typ == T_FILE && cache.slots[k].d.typ == T_FILE {
      } else {
        ii', owner' := InodePut(log, cache, k, inum, lay, ii1, owner1, base, SLACK, |ii|);
        OthersOfSame(v1, ii1, log.View(), ii', inum, dp, inum);
        OthersTwice(v, ii, v1, ii1, log.View(), ii', dp, inum);
        k := -1;
      }
      LessSlack(log, cache, lay, ii', owner', base, SLACK, 0, |ii|);
    }
  }

  // Both together

  /** What `create` of name `s` in directory `dp` makes of the tree; `free` is the lowest inode not in use. */
  ghost function CreateTree(ns: seq<Node>, refs: seq<nat>, dp: nat, s: Name, typ: nat, free: nat): (r: seq<Node>)
    requires dp < |ns| == |refs| && (if s in ns[dp].dir then ns[dp].dir[s] < |ns| else free < |ns|)
    ensures |r| == |ns|
  {
    if s in ns[dp].dir then FoundTree(ns, refs, dp, ns[dp].dir[s], typ)
      else Dropped(Created(ns, dp, s, free, typ), dp, refs[dp] == 0)
  }

  /** The inode that `create` hands out, or -1. */
  function CreateInum(ns: seq<Node>, dp: nat, s: Name, typ: nat, free: nat): int
    requires dp < |ns| && (s in ns[dp].dir ==> ns[dp].dir[s] < |ns|)
  {
    if s !in ns[dp].dir then free else if typ == T_FILE && ns[ns[dp].dir[s]].typ == T_FILE then ns[dp].dir[s] else -1
  }

  /**
   * The counts come out right exactly when nothing was made, or the directory is linked and has room for a
   * subdirectory's link.
   */
  predicate CreateSound(ns: seq<Node>, dp: nat, s: Name, typ: nat)
    requires dp < |ns|
  {
    s !in ns[dp].dir ==> ns[dp].Live() && (typ == T_DIR ==> ns[dp].nlink < MAXLINK)
  }

  function HomeAfter(ns: seq<Node>, home: seq<Home>, dp: nat, s: Name, free: nat): seq<Home>
    requires dp < |ns| == |home| && (s !in ns[dp].dir ==> free < |ns|)
  {
    if s in ns[dp].dir then home else home[free := Home(dp, s, home[dp].depth + 1)]
  }

  lemma {:induction false} CreateTreeOk(ns: seq<Node>, home: seq<Home>, refs: seq<nat>, dp: nat, s: Name, typ: nat,
                                        free: nat)
    requires Shaped(ns, home) && LinksOk(ns) && dp < |ns| == |refs| && ns[dp].typ == T_DIR && ns[dp].nlink <= MAXLINK &&
      (typ == T_DIR || typ == T_FILE)
    requires if s in ns[dp].dir then ns[dp].dir[s] < |ns| else 0 < free < |ns| && ns[free].typ == 0
    ensures var ns' := CreateTree(ns, refs, dp, s, typ, free);
      (LinksOk(ns') <==> CreateSound(ns, dp, s, typ)) &&
        (LinksOk(ns') ==> Shaped(ns', HomeAfter(ns, home, dp, s, free)))
  {
    assert |home| == |ns|;
    hide Shaped, LinksOk, Created, Dropped;
    if s in ns[dp].dir {
      var ip := ns[dp].dir[s];
      DroppedOk(ns, home, dp, refs[dp] == 0 && ip != dp);
      DroppedOk(Dropped(ns, dp, refs[dp] == 0 && ip != dp), home, ip, refs[ip] == 0);
    } else {
      CreatedExact(ns, home, dp, s, free, typ);
      DroppedOk(Created(ns, dp, s, free, typ), HomeAfter(ns, home, dp, s, free), dp, refs[dp] == 0);
    }
  }

  /** There is an inode and room for a new entry, should one be needed. */
  ghost predicate CanCreate(v: Disk, ii: seq<Dinode>, lay: Layout, dp: nat, s: Name, typ: nat)
    requires dp < |ii|
  {
    s !in NodesOf(v, ii)[dp].dir ==> FirstFree(ii, 1) < |ii| && RoomToCreate(v, lay, ii[dp], typ)
  }

  /** `create` goes through unless the path leads out of the tree, or its name to an inode not in use. */
  ghost predicate Creatable(ns: seq<Node>, p: Place, s: Name) {
    p != Stuck &&
      (p.At? && p.inum < |ns| && s in ns[p.inum].dir && ns[p.inum].dir[s] < |ns| ==> ns[ns[p.inum].dir[s]].typ != 0)
  }

  /** What `create` in a directory leaves: the tree, and one reference, to the inode handed out. */
  ghost predicate CreatedIn(log: Log, cache: IC.InodeCache, lay: Layout, ns: seq<Node>, ii: seq<Dinode>, refs: seq<nat>,
                            dp: nat, s: Name, typ: nat, k: int, ii': seq<Dinode>, owner': seq<Owner>, base: set<nat>)
    reads log, log.bc, cache
  {
    && dp < |ns| == |ii| == |ii'| == |refs| && 1 <= |ns|
    && (if s in ns[dp].dir then ns[dp].dir[s] < |ns| else 0 < FirstFree(ii, 1) < |ns| && ns[FirstFree(ii, 1)].typ == 0)
    && Working(log, cache, lay, ii', owner', base, 0, |ii|)
    && NodesOf(log.View(), ii') == CreateTree(ns, refs, dp, s, typ, FirstFree(ii, 1))
    && var i := CreateInum(ns, dp, s, typ, FirstFree(ii, 1));
       && (if i == -1 then k == -1 else 0 <= k && 0 <= i < |ii| && Locked(cache, ii', k, i) && lay.IBlock(i) in base)
       && forall j: nat | j < |refs| :: cache.Ref(j) == refs[j] + if j == i then 1 else 0
  }

  /** The inode `create` will work on: the one the name leads to, or the lowest not in use. */
  ghost function Target(ns: seq<Node>, ii: seq<Dinode>, dp: nat, s: Name): nat
    requires dp < |ns| && 1 <= |ii|
  {
    if s in ns[dp].dir then ns[dp].dir[s] else FirstFree(ii, 1)
  }

  /**
   * No file but the directory and the target changes its contents; a file that is found is not touched, and one that
   * is made is empty.
   */
  ghost predicate ContentsAfter(v: Disk, ii: seq<Dinode>, v': Disk, ii': seq<Dinode>, dp: nat, s: Name, typ: nat) {
    && dp < |ii| == |ii'|
    && var ns := NodesOf(v, ii);
    var t := Target(ns, ii, dp, s);
    && OthersKept(v, ii, v', ii', dp, t) && t < |ii|
    && (typ == T_FILE && s in ns[dp].dir && ns[t].typ == T_FILE && t != dp ==> SameContents(v, ii[t], v', ii'[t]))
    && (typ == T_FILE && s !in ns[dp].dir ==> ii'[t].size == 0)
  }

  /** What `create` may rely on once its transaction is open. */
  lemma {:induction false} CreateReady(log: Log, cache: IC.InodeCache, lay: Layout, ii: seq<Dinode>, owner: seq<Owner>,
                                       home: seq<Home>, dp: nat, s: Name, typ: nat)
    requires Opened(log, cache, lay, ii, owner) && TreeOk(log.View(), ii, home) && dp < |ii| && ii[dp].typ == T_DIR
    requires CanCreate(log.View(), ii, lay, dp, s, typ)
    ensures IsDir(log.View(), ii[dp]) && 0 < dp && ROOT < |ii|
    ensures var ns := NodesOf(log.View(), ii);
      var ip := Target(ns, ii, dp, s);
      && ip < |ii| && Working(log, cache, lay, ii, owner, BaseOf(lay, dp, ip), SLACK, |ii|)
      && lay.IBlock(dp) in BaseOf(lay, dp, ip) && lay.IBlock(ip) in BaseOf(lay, dp, ip)
      && (s !in ns[dp].dir ==> 0 < ip && ns[ip].typ == 0)
  {
    hide Log.Valid, Log.View, Trans, FitBut, AllFit, LinksOk, Shaped, IsDir, Layout.Bitmaps, RoomToCreate, Opened;
    hide TreeOk;
    var ns := NodesOf(log.View(), ii);
    DirOf(log.View(), ii, home, dp);
    OpenedWorking(log, cache, lay, ii, owner, dp, Target(ns, ii, dp, s));
  }

  /** `create` in a directory, within a transaction; `ok` is false for the panic on a name whose inode is not in use. */
  method CreateIn(log: Log, cache: IC.InodeCache, k0: nat, name: Name, typ: nat, ghost dp: nat, ghost ns: seq<Node>,
                  ghost lay: Layout, ghost ii: seq<Dinode>, ghost owner: seq<Owner>, ghost home: seq<Home>,
                  ghost refs: seq<nat>)
    returns (ok: bool, k: int, ghost ii': seq<Dinode>, ghost owner': seq<Owner>, ghost base: set<nat>)
    requires Opened(log, cache, lay, ii, owner) && TreeOk(log.View(), ii, home) && ns == NodesOf(log.View(), ii) &&
      |refs| == |ii| <= U16
    requires Refers(cache, ii, k0, dp) && ii[dp].typ == T_DIR && cache.Empty() > 0 && (typ == T_DIR || typ == T_FILE)
    requires IsString(name) && Cut(name) == name && CanCreate(log.View(), ii, lay, dp, name, typ)
    requires forall j: nat | j < |refs| :: cache.Ref(j) == refs[j] + if j == dp then 1 else 0
    modifies log`lh, log`slot, log.bc, cache
    ensures ok == Creatable(ns, At(dp), name) &&
      (ok ==> CreatedIn(log, cache, lay, ns, ii, refs, dp, name, typ, k, ii', owner', base))
    ensures ok ==> ContentsAfter(old(log.View()), ii, log.View(), ii', dp, name, typ)
  {
    hide OthersKept, SameContents;
    hide Log.Valid, Log.View, Trans, FitBut, AllFit, LinksOk, IsDir, Contents, Layout.Bitmaps, NodesOf, FoundTree,
      Created, Dropped, Opened, Cut, IsString, RoomToCreate;
    hide IC.InodeCache.Empty, IC.Placed, Shaped, FirstFree, TreeOk, BaseOf;
    CreateReady(log, cache, lay, ii, owner, home, dp, name, typ);
    base := BaseOf(lay, dp, Target(ns, ii, dp, name));
    ok := Lock(log, cache, k0, dp, lay, ii, owner, base, SLACK, |ii|);
    var inum, off := Lookup(log, cache, k0, name, dp, lay, ii, owner, base, SLACK);
    if inum != 0 {
      ok, k, ii', owner' := OpenFound(log, cache, k0, inum, typ, dp, ns, refs, lay, ii, owner, base);
    } else {
      var i;
      k, i, ii', owner' := MakeNew(log, cache, k0, name, typ, cache.slots[k0].inum, ns, lay, ii, owner, base);
    }
  }

  lemma {:induction false} DirOf(v: Disk, ii: seq<Dinode>, home: seq<Home>, i: nat)
    requires TreeOk(v, ii, home) && i < |ii| && ii[i].typ == T_DIR
    ensures IsDir(v, ii[i]) && 0 < i && ROOT < |ii| && forall s | s in NodesOf(v, ii)[i].dir ::
      NodesOf(v, ii)[i].dir[s] < |ii|
  {
    hide Names, Contents, DirOk, Mapped;
    SoundOfShape(v, ii, home);
    assert DirSound(v, ii[i], |ii|);
    assert NodesOf(v, ii)[i].typ == T_DIR;
  }

  /** What a call of `create` on a path comes to: the inode handed out, or -1, and the tree. */
  ghost predicate CreateDone(ns: seq<Node>, refs: seq<nat>, p: Place, s: Name, typ: nat, free: nat, ns': seq<Node>,
                             i: int) {
    && |ns| == |refs|
    && match p
       case At(dp) =>
         && dp < |ns| && (if s in ns[dp].dir then ns[dp].dir[s] < |ns| else free < |ns|)
         && ns' == CreateTree(ns, refs, dp, s, typ, free) && i == CreateInum(ns, dp, s, typ, free)
       case _ => ns' == ns && i == -1
  }

  /**
   * How a transaction of `create` stands before its commit: slot `k` refers to the file handed out, and no other
   * reference is left.
   */
  ghost predicate Made(log: Log, cache: IC.InodeCache, lay: Layout, ns: seq<Node>, ii: seq<Dinode>, refs: seq<nat>,
                       p: Place, s: Name, typ: nat, k: int, i: int, ii': seq<Dinode>, owner': seq<Owner>,
                       base: set<nat>)
    reads log, log.bc, cache
  {
    && 1 <= |ii| == |ii'| == |refs| == |ns| && Working(log, cache, lay, ii', owner', base, 0, |ii|)
    && CreateDone(ns, refs, p, s, typ, FirstFree(ii, 1), NodesOf(log.View(), ii'), i)
    && (p.At? ==>
       p.inum < |ns| && ns[p.inum].typ == T_DIR &&
       (s !in ns[p.inum].dir ==> 0 < FirstFree(ii, 1) < |ns| && ns[FirstFree(ii, 1)].typ == 0))
    && (if i == -1 || typ == T_DIR then k == -1 else 0 <= k && 0 <= i < |ii| && Locked(cache, ii', k, i))
    && forall j: nat | j < |refs| :: cache.Ref(j) == refs[j] + if k != -1 && j == i then 1 else 0
  }

  /** Where the path leads, there is room for what may be made. */
  ghost predicate RoomAtEnd(v: Disk, ii: seq<Dinode>, lay: Layout, refs: seq<nat>, path: Name, cwd: nat, typ: nat) {
    var p := Resolve(NodesOf(v, ii), refs, StartOf(path, cwd), Elements(path, 0), true);
    p.At? && p.inum < |ii| ==> CanCreate(v, ii, lay, p.inum, LastName(path), typ)
  }

  /** `create` in the directory found; a directory made is put back. */
  method CreateThere(log: Log, cache: IC.InodeCache, k0: nat, name: Name, typ: nat, ghost dp: nat, ghost ns: seq<Node>,
                     ghost lay: Layout, ghost ii: seq<Dinode>, ghost owner: seq<Owner>, ghost home: seq<Home>,
                     ghost refs: seq<nat>)
    returns (ok: bool, k: int, ghost i: int, ghost ii': seq<Dinode>, ghost owner': seq<Owner>, ghost base: set<nat>)
    requires Opened(log, cache, lay, ii, owner) && TreeOk(log.View(), ii, home) && ns == NodesOf(log.View(), ii) &&
      |refs| == |ii| <= U16
    requires Refers(cache, ii, k0, dp) && ii[dp].typ == T_DIR && cache.Empty() > 0 && (typ == T_DIR || typ == T_FILE)
    requires IsString(name) && Cut(name) == name && CanCreate(log.View(), ii, lay, dp, name, typ)
    requires forall j: nat | j < |refs| :: cache.Ref(j) == refs[j] + if j == dp then 1 else 0
    modifies log`lh, log`slot, log.bc, cache
    ensures ok == Creatable(ns, At(dp), name) &&
      (ok ==> Made(log, cache, lay, ns, ii, refs, At(dp), name, typ, k, i, ii', owner', base))
    ensures ok ==> ContentsAfter(old(log.View()), ii, log.View(), ii', dp, name, typ)
  {
    hide ContentsAfter, SameFiles, Mapped;
    hide Log.Valid, Log.View, Trans, FitBut, AllFit, Shaped, LinksOk, NodesOf, Cut, IsString, CanCreate, CreateTree,
      Opened, IC.Placed, IC.InodeCache.Empty;
    assert ns[dp].typ == T_DIR;
    ok, k, ii', owner', base := CreateIn(log, cache, k0, name, typ, dp, ns, lay, ii, owner, home, refs);
    i := -1;
    if !ok { return; }
    i := CreateInum(ns, dp, name, typ, FirstFree(ii, 1));
    if k != -1 && typ == T_DIR {
      MadeDir(ns, refs, dp, name, FirstFree(ii, 1));
      NodeFacts(log, lay, ii', owner', base, 0, i);
      ii', owner' := InodePut(log, cache, k, i, lay, ii', owner', base, 0, |ii|);
      k := -1;
    }
  }

  /**
   * The transaction of `sys_mkdir` or of `sys_open` with O_CREATE up to the commit; a directory made is put back, a
   * file is kept.
   */
  method CreateFrom(log: Log, cache: IC.InodeCache, path: Name, typ: nat, cwd: nat, ghost ns: seq<Node>,
                    ghost lay: Layout, ghost ii: seq<Dinode>, ghost owner: seq<Owner>, ghost home: seq<Home>,
                    ghost refs: seq<nat>)
    returns (ok: bool, k: int, ghost p: Place, ghost i: int, ghost ii': seq<Dinode>, ghost owner': seq<Owner>,
      ghost base: set<nat>)
    requires Opened(log, cache, lay, ii, owner) && TreeOk(log.View(), ii, home) && ns == NodesOf(log.View(), ii) &&
      |refs| == |ii| <= U16
    requires Holding(cache, refs, NOWHERE, cache.Empty()) && cache.Empty() >= 2 && IsString(path) && cwd < IC.NINODE &&
      cache.slots[cwd].ref > 0
    requires typ == T_DIR || typ == T_FILE
    requires RoomAtEnd(log.View(), ii, lay, refs, path, cache.slots[cwd].inum, typ)
    modifies log`lh, log`slot, log.bc, cache
    ensures p == Resolve(ns, refs, StartOf(path, old(cache.slots[cwd].inum)), Elements(path, 0), true) &&
      ok == Creatable(ns, p, LastName(path))
    ensures ok ==> Made(log, cache, lay, ns, ii, refs, p, LastName(path), typ, k, i, ii', owner', base)
    ensures ok ==> if p.At? then ContentsAfter(old(log.View()), ii, log.View(), ii', p.inum, LastName(path), typ)
                   else log.View() == old(log.View()) && ii' == ii
  {
    hide ContentsAfter;
    hide Log.Valid, Log.View, Trans, FitBut, AllFit, Shaped, LinksOk, NodesOf, Elements, Resolve, Clip, Cut, IsString,
      CanCreate, CreateTree, Opened, Holding, Browsing;
    hide IC.Copies, IC.SlotOk, IC.PlaceOk, IC.InodeCache.Empty;
    ghost var room := cache.Empty();
    RefsOf(cache, refs, NOWHERE, room);
    OpenedBrowsing(log, cache, lay, ii, owner, home);
    OpenedPins(log, cache, lay, ii, owner);
    var name;
    ok, k, name, p := NameX(log, cache, path, true, cwd, lay, ii, owner, refs);
    ParentIsDir(ns, refs, StartOf(path, old(cache.slots[cwd].inum)), Elements(path, 0));
    i, ii', owner', base := -1, ii, owner, {};
    if !ok { return; }
    RefsOf(cache, refs, if p.At? then p.inum else NOWHERE, room);
    StillOpened(log, cache, lay, ii, owner);
    if k == -1 {
      base := BaseOf(lay, 0, 0);
      OpenedWorking(log, cache, lay, ii, owner, 0, 0);
      LessSlack(log, cache, lay, ii, owner, base, SLACK, 0, |ii|);
      return;
    }
    ClippedName(path, 0, |Elements(path, 0)| - 1);
    ok, k, i, ii', owner', base := CreateThere(log, cache, k, name, typ, p.inum, ns, lay, ii, owner, home, refs);
  }

  /** A directory just made has a link, so that putting it back frees nothing. */
  lemma {:induction false} MadeDir(ns: seq<Node>, refs: seq<nat>, dp: nat, s: Name, free: nat)
    requires dp < |ns| == |refs| && s !in ns[dp].dir && free < |ns| && ns[free].typ == 0 && ns[dp].typ == T_DIR
    ensures CreateTree(ns, refs, dp, s, T_DIR, free)[free].nlink == 1
  {
  }

  /** The counts come out right at the end of a path. */
  predicate SoundAt(ns: seq<Node>, p: Place, s: Name, typ: nat) {
    p.At? && p.inum < |ns| ==> CreateSound(ns, p.inum, s, typ)
  }

  ghost function HomesAfter(ns: seq<Node>, home: seq<Home>, p: Place, s: Name, free: nat): seq<Home> {
    if p.At? && p.inum < |ns| == |home| && free < |ns| then HomeAfter(ns, home, p.inum, s, free) else home
  }

  lemma {:induction false} CreateDoneOk(ns: seq<Node>, home: seq<Home>, refs: seq<nat>, p: Place, s: Name, typ: nat,
                                        free: nat, ns': seq<Node>, i: int)
    requires Shaped(ns, home) && LinksOk(ns) && CreateDone(ns, refs, p, s, typ, free, ns', i) &&
      (typ == T_DIR || typ == T_FILE)
    requires p.At? ==>
      p.inum < |ns| && ns[p.inum].typ == T_DIR && ns[p.inum].nlink <= MAXLINK &&
      (s !in ns[p.inum].dir ==> 0 < free < |ns| && ns[free].typ == 0)
    ensures (LinksOk(ns') <==> SoundAt(ns, p, s, typ)) &&
      (LinksOk(ns') ==> Shaped(ns', HomesAfter(ns, home, p, s, free)))
  {
    assert |home| == |ns|;
    hide Shaped, LinksOk, CreateTree;
    if p.At? { CreateTreeOk(ns, home, refs, p.inum, s, typ, free); }
  }

  /** Inode `i`, not in use before, is a new file with nothing in it or a new directory with its dots. */
  predicate FreshNode(ns: seq<Node>, ns': seq<Node>, i: nat, typ: nat, dp: nat) {
    && i < |ns| == |ns'| && ns[i].typ == 0 && ns'[i].typ == typ && ns'[i].nlink == 1
    && (typ != T_DIR ==> ns'[i].dir == map[])
    && (typ == T_DIR ==> ns'[i].dir.Keys == {DOT, DOTDOT} && ns'[i].dir[DOT] == i && ns'[i].dir[DOTDOT] == dp)
  }

  /** What a user of the tree sees of `create`: a new inode under the path, or a tree with the same names. */
  ghost predicate CreateSeen(ns: seq<Node>, refs: seq<nat>, start: nat, es: seq<Name>, typ: nat, ns': seq<Node>, i: int,
                             refs': seq<nat>) {
    && NoNewOrphan(ns, refs, ns', refs')
    && var p := Resolve(ns, refs, start, es, true);
    && (!p.At? ==> ns' == ns && i == -1)
    && (p.At? && es != [] && SoundAt(ns, p, Clip(es[|es| - 1]), typ) && Clip(es[|es| - 1]) !in ns[p.inum].dir ==>
       i >= 0 && FreshNode(ns, ns', i, typ, p.inum) && NameMade(ns, ns', refs', start, es, p.inum, i, i))
    && (p.At? && start < |ns| && ns[start].nlink > 0 && es != [] && Clip(es[|es| - 1]) in ns[p.inum].dir ==>
       var ip := ns[p.inum].dir[Clip(es[|es| - 1])];
       ns' == ns && ip < |ns| && i == if typ == T_FILE && ns[ip].typ == T_FILE then ip else -1)
  }

  lemma {:induction false} CreateNames(ns: seq<Node>, home: seq<Home>, refs: seq<nat>, start: nat, es: seq<Name>,
                                       typ: nat, free: nat, ns': seq<Node>, i: int, refs': seq<nat>)
    requires Shaped(ns, home) && LinksOk(ns) && es != [] && (typ == T_DIR || typ == T_FILE)
    requires var p := Resolve(ns, refs, start, es, true);
      p.At? && p.inum < |ns| && ns[p.inum].nlink <= MAXLINK && 0 < free < |ns| && ns[free].typ == 0 &&
      Clip(es[|es| - 1]) !in ns[p.inum].dir && SoundAt(ns, p, Clip(es[|es| - 1]), typ) &&
      CreateDone(ns, refs, p, Clip(es[|es| - 1]), typ, free, ns', i)
    ensures i == free && FreshNode(ns, ns', free, typ, Resolve(ns, refs, start, es, true).inum) &&
      NameMade(ns, ns', refs', start, es, Resolve(ns, refs, start, es, true).inum, free, free)
  {
    hide Shaped, LinksOk, Resolve, Clip, Arrives;
    var dp, s := Resolve(ns, refs, start, es, true).inum, Clip(es[|es| - 1]);
    ParentTrail(ns, refs, start, es, dp);
    CreateDoneOk(ns, home, refs, At(dp), s, typ, free, ns', i);
    assert ns' == Created(ns, dp, s, free, typ);
    assert KeepsNames(ns, ns');
    if start < |ns| && ns'[start].nlink > 0 {
      PathFound(ns, ns', HomesAfter(ns, home, At(dp), s, free), refs', start, es, dp);
    }
  }

  lemma {:induction false} CreateOrphans(ns: seq<Node>, refs: seq<nat>, p: Place, s: Name, typ: nat, free: nat,
                                         ns': seq<Node>, i: int, refs': seq<nat>)
    requires LinksOk(ns) && CreateDone(ns, refs, p, s, typ, free, ns', i)
    requires if i == -1 || typ == T_DIR then refs' == refs else 0 <= i < |refs| && refs' == refs[i := refs[i] + 1]
    ensures NoNewOrphan(ns, refs, ns', refs')
  {
    if p.At? { assert LinkOk(ns, p.inum); }
    hide LinksOk;
  }

  /** A name that is there already is found, and nothing changes. */
  lemma {:induction false} CreateFinds(ns: seq<Node>, home: seq<Home>, refs: seq<nat>, start: nat, es: seq<Name>,
                                       typ: nat, free: nat, ns': seq<Node>, i: int)
    requires Shaped(ns, home) && LinksOk(ns) && es != [] && start < |ns| && ns[start].nlink > 0
    requires var p := Resolve(ns, refs, start, es, true);
      p.At? && p.inum < |ns| && Clip(es[|es| - 1]) in ns[p.inum].dir &&
      CreateDone(ns, refs, p, Clip(es[|es| - 1]), typ, free, ns', i)
    ensures var ip := ns[Resolve(ns, refs, start, es, true).inum].dir[Clip(es[|es| - 1])];
      ns' == ns && ip < |ns| && i == if typ == T_FILE && ns[ip].typ == T_FILE then ip else -1
  {
    hide Shaped, LinksOk, Resolve, Clip;
    LinkedResolve(ns, home, refs, start, es, true);
    LinkedChild(ns, home, Resolve(ns, refs, start, es, true).inum, Clip(es[|es| - 1]));
  }

  lemma {:induction false} CreateIsSeen(ns: seq<Node>, home: seq<Home>, refs: seq<nat>, path: Name, cwd: nat, typ: nat,
                                        free: nat, ns': seq<Node>, i: int, refs': seq<nat>)
    requires Shaped(ns, home) && LinksOk(ns) && (typ == T_DIR || typ == T_FILE)
    requires var p := Resolve(ns, refs, StartOf(path, cwd), Elements(path, 0), true);
      && CreateDone(ns, refs, p, LastName(path), typ, free, ns', i)
      && (p.At? ==>
         p.inum < |ns| && ns[p.inum].nlink <= MAXLINK &&
         (LastName(path) !in ns[p.inum].dir ==> 0 < free < |ns| && ns[free].typ == 0))
    requires if i == -1 || typ == T_DIR then refs' == refs else 0 <= i < |refs| && refs' == refs[i := refs[i] + 1]
    ensures CreateSeen(ns, refs, StartOf(path, cwd), Elements(path, 0), typ, ns', i, refs')
  {
    hide Shaped, LinksOk, Elements, Resolve, Clip, StartOf, NoNewOrphan, NameMade, FreshNode, CreateTree, CreateInum,
      CreateSound;
    var start, es := StartOf(path, cwd), Elements(path, 0);
    var p := Resolve(ns, refs, start, es, true);
    CreateOrphans(ns, refs, p, LastName(path), typ, free, ns', i, refs');
    ParentIsDir(ns, refs, start, es);
    if p.At? && SoundAt(ns, p, LastName(path), typ) && LastName(path) !in ns[p.inum].dir {
      CreateNames(ns, home, refs, start, es, typ, free, ns', i, refs');
    }
    if p.At? && start < |ns| && ns[start].nlink > 0 && LastName(path) in ns[p.inum].dir {
      CreateFinds(ns, home, refs, start, es, typ, free, ns', i);
    }
  }

  /**
   * `sys_mkdir` and, for files, the part of `sys_open` that creates.  The tree afterwards is given
   * exactly; its link counts are right exactly when the directory is linked and, for a
   * subdirectory, its count does not overflow, or nothing was made.
   */
  method Create(log: Log, cache: IC.InodeCache, path: Name, typ: nat, cwd: nat, ghost lay: Layout,
                ghost ii: seq<Dinode>, ghost owner: seq<Owner>, ghost home: seq<Home>, ghost refs: seq<nat>)
    returns (ok: bool, k: int, ghost i: int, ghost ii': seq<Dinode>, ghost owner': seq<Owner>, ghost home': seq<Home>,
      ghost refs': seq<nat>)
    requires Settled(log, cache, lay, ii, owner, home, refs) && |ii| <= U16 && IsString(path) && cache.Empty() >= 2
    requires (typ == T_DIR || typ == T_FILE) && cwd < IC.NINODE && cache.slots[cwd].ref > 0
    requires RoomAtEnd(log.View(), ii, lay, refs, path, cache.slots[cwd].inum, typ)
    modifies log, log.bc, cache
    ensures var ns := NodesOf(old(log.View()), ii);
      var p, s := Resolve(ns, refs, StartOf(path, old(cache.slots[cwd].inum)), Elements(path, 0), true), LastName(path);
      && ok == Creatable(ns, p, s)
      && (ok ==> 1 <= |ii| == |ii'| && CreateDone(ns, refs, p, s, typ, FirstFree(ii, 1), NodesOf(log.View(), ii'), i))
      && (ok ==> (Settled(log, cache, lay, ii', owner', home', refs') <==> SoundAt(ns, p, s, typ)))
    ensures ok ==>
      CreateSeen(NodesOf(old(log.View()), ii), refs, StartOf(path, old(cache.slots[cwd].inum)), Elements(path, 0), typ,
        NodesOf(log.View(), ii'), i, refs')
    ensures var p := Resolve(NodesOf(old(log.View()), ii), refs, StartOf(path, old(cache.slots[cwd].inum)),
      Elements(path, 0), true);
      ok ==> if p.At? then ContentsAfter(old(log.View()), ii, log.View(), ii', p.inum, LastName(path), typ)
             else log.View() == old(log.View()) && ii' == ii
    ensures ok ==> if i == -1 || typ == T_DIR then k == -1 && refs' == refs
                   else 0 <= i < |refs| && refs' == refs[i := refs[i] + 1] && 0 <= k && Refers(cache, ii', k, i)
    ensures ok ==>
      Quiet(log, lay, ii', owner') &&
      EitherWay(log.bc.a.trace, old(log.bc.a.trace), log.start, old(log.View()), log.View())
  {
    hide Log.Valid, Log.View, FsOk, Table, AllFit, Shaped, LinksOk, NodesOf, Elements, Resolve, IsString, IC.Copies,
      IC.SlotOk, IC.PlaceOk, IC.InodeCache.Empty, Working, EitherWay;
    hide ContentsAfter, RoomAtEnd, CreateDone, CreateSeen, LastName, SoundAt, HomesAfter, Creatable, Holding;
    ghost var ns, v := NodesOf(log.View(), ii), log.View();
    RefsOf(cache, refs, NOWHERE, cache.Empty());
    BeginTree(log, cache, lay, ii, owner);
    ghost var c := cache.slots[cwd].inum;
    ghost var p0 := Resolve(ns, refs, StartOf(path, c), Elements(path, 0), true);
    if p0.At? && p0.inum < |ii| { CountRange(log, cache, lay, ii, owner, p0.inum); }
    ghost var p, base;
    ok, k, p, i, ii', owner', base := CreateFrom(log, cache, path, typ, cwd, ns, lay, ii, owner, home, refs);
    home', refs' := home, refs;
    if !ok { return; }
    home' := HomesAfter(ns, home, p, LastName(path), FirstFree(ii, 1));
    refs' := if k == -1 then refs else refs[i := refs[i] + 1];
    CacheOf(log, cache, lay, ii', owner', base, 0, |ii|);
    CommitTree(log, cache, lay, ii', owner', base);
    HoldingOf(cache, refs');
    CreateDoneOk(ns, home, refs, p, LastName(path), typ, FirstFree(ii, 1), NodesOf(log.View(), ii'), i);
    CreateIsSeen(ns, home, refs, path, c, typ, FirstFree(ii, 1), NodesOf(log.View(), ii'), i, refs');
  }

  /**
   * From a working directory that is linked, `create` does not panic, and the counts are right unless the parent's
   * overflows.
   */
  lemma {:induction false} LinkedCreates(ns: seq<Node>, home: seq<Home>, refs: seq<nat>, path: Name, cwd: nat, s: Name,
                                         typ: nat)
    requires Shaped(ns, home) && LinksOk(ns) && |ns| == |refs| && cwd < |ns| && ns[cwd].nlink > 0
    ensures var p := Resolve(ns, refs, StartOf(path, cwd), Elements(path, 0), true);
      Creatable(ns, p, s) &&
        (p.At? ==>
        p.inum < |ns| &&
        (SoundAt(ns, p, s, typ) <==> s in ns[p.inum].dir || typ != T_DIR || ns[p.inum].nlink < MAXLINK))
  {
    hide Elements, Resolve;
    var p := Resolve(ns, refs, StartOf(path, cwd), Elements(path, 0), true);
    LinkedResolve(ns, home, refs, StartOf(path, cwd), Elements(path, 0), true);
    if p.At? && s in ns[p.inum].dir { LinkedChild(ns, home, p.inum, s); }
    hide Shaped, LinksOk;
  }
}
