/** `sys_link`: a second name for a file. */
module SysLink {
  import opened Sectors
  import opened FsSpec
  import opened FsInv
  import opened FsSteps
  import opened Log
  import opened Blocks
  import opened Inodes
  import opened Files
  import opened DirSpec
  import opened Dirs
  import opened LinkSpec
  import opened Links
  import opened PathSpec
  import opened TreeOf
  import opened Walks
  import opened TreeLaws
  import opened Paths
  import opened TreeSteps
  import opened Namespace

  /** The tree while the inode's count is already up for the name to come. */
  function Raised(ns: seq<Node>, ip: nat): (r: seq<Node>)
    requires ip < |ns|
    ensures |r| == |ns|
  {
    ns[ip := ns[ip].(nlink := Inc16(ns[ip].nlink))]
  }

  lemma {:induction false} RaisedThenNamed(ns: seq<Node>, ip: nat, dp: nat, s: Name)
    requires ip < |ns| && dp < |ns| && ip != dp
    ensures WithName(Raised(ns, ip), dp, s, ip) == Linked(ns, ip, dp, s)
  {
  }

  lemma {:induction false} RaisedThenLowered(ns: seq<Node>, ip: nat)
    requires ip < |ns| && -MAXLINK - 1 <= ns[ip].nlink <= MAXLINK
    ensures var ns1 := Raised(ns, ip); ns1[ip := ns1[ip].(nlink := Dec16(ns1[ip].nlink))] == ns
  {
  }

  /** Rewriting another inode leaves room for an entry where there was. */
  lemma {:induction false} CanAddKept(v: Disk, ii: seq<Dinode>, v': Disk, ii': seq<Dinode>, lay: Layout, i: nat,
                                      d: Dinode, j: nat, slack: nat)
    requires Rewritten(v, ii, v', ii', lay, i, d) && j < |ii| && CanAdd(v, lay, ii[j], slack) &&
      (i == j ==> d.size == ii[i].size)
    ensures CanAdd(v', lay, ii'[j], slack)
  {
    hide Mapped, Contents, FreeBlocks, Growth, EntryCost, BadWrite, FirstDead;
    if j != i { assert SameFile(v, ii[j], v', ii'[j]); }
  }

  /** `sys_link` once the directory is found: the name is added, unless it is there, and the directory put back. */
  method NameIn(log: Log, cache: IC.InodeCache, kd: nat, ghost ki: nat, name: Name, inum: nat, ghost dp: nat,
                ghost lay: Layout, ghost ii: seq<Dinode>, ghost owner: seq<Owner>)
    returns (r: int, ghost ii': seq<Dinode>, ghost owner': seq<Owner>)
    requires Working(log, cache, lay, ii, owner, BaseOf(lay, dp, inum), SLACK, |ii|) && Refers(cache, ii, kd, dp) &&
      Refers(cache, ii, ki, inum) && dp != inum
    requires ii[dp].typ == T_DIR && IsString(name) && Cut(name) == name && 0 < inum < U16
    requires name !in NodesOf(log.View(), ii)[dp].dir ==> CanAdd(log.View(), lay, ii[dp], 2)
    modifies log`lh, log`slot, log.bc, cache
    ensures |ii'| == |ii| && Working(log, cache, lay, ii', owner', BaseOf(lay, dp, inum), SLACK - 2, |ii|) &&
      Refers(cache, ii', ki, inum)
    ensures forall j: nat :: cache.Ref(j) == old(cache.Ref(j)) - if j == dp then 1 else 0
    ensures var ns := NodesOf(old(log.View()), ii);
      if name in ns[dp].dir then r == -1 && NodesOf(log.View(), ii') == Dropped(ns, dp, old(cache.Ref(dp)) == 1)
      else r == 0 &&
           NodesOf(log.View(), ii') ==
           Dropped(WithName(ns, dp, name, inum), dp, old(cache.Ref(dp)) == 1)
    ensures OthersKept(old(log.View()), ii, log.View(), ii', dp, dp)
  {
    hide OthersKept, SameFiles, Mapped, IC.InodeCache.Ref, IC.Copies;
    hide Log.Valid, Log.View, Trans, FitBut, Layout.Bitmaps, NodesOf, CanAdd, IsString, Cut, Dropped, WithName,
      IC.InodeCache.Empty, IC.Placed;
    ghost var base := BaseOf(lay, dp, inum);
    var ok := Lock(log, cache, kd, dp, lay, ii, owner, base, SLACK, |ii|);
    ghost var ii1, owner1;
    r, ii1, owner1 := AddEntry(log, cache, kd, name, inum, dp, lay, ii, owner, base, SLACK);
    ghost var v1 := log.View();
    TransFacts(log, lay, ii1, owner1, base, SLACK - 2);
    ii', owner' := InodePut(log, cache, kd, dp, lay, ii1, owner1, base, SLACK - 2, |ii|);
    OthersOfSame(v1, ii1, log.View(), ii', dp, dp, dp);
    OthersTwice(old(log.View()), ii, v1, ii1, log.View(), ii', dp, dp);
  }

  lemma {:induction false} RefersStill(cache: IC.InodeCache, ii: seq<Dinode>, k: nat, i: nat, refs: seq<nat>,
                                       was: seq<int>)
    requires cache.Valid() && IC.Copies(cache.slots, ii) && Stays(refs, was, cache.at) && |refs| == |ii| && i < |ii| &&
      refs[i] > 0 && was[i] == k && k < IC.NINODE
    ensures Refers(cache, ii, k, i)
  {
    assert IC.PlaceOk(cache.slots, cache.at, i);
  }

  lemma {:induction false} WorkingBrowsing(log: Log, cache: IC.InodeCache, lay: Layout, ii: seq<Dinode>,
                                           owner: seq<Owner>, base: set<nat>, slack: nat, x: nat)
    requires Working(log, cache, lay, ii, owner, base, slack, x) && DirsSound(log.View(), ii)
    ensures Browsing(log, lay, ii, owner) && log.busy && Room(log.bc.a.pinned, base, slack) && lay.Bitmaps() <= base &&
      FitBut(log.View(), ii, x)
  {
    hide Log.Valid, Log.View, FsOk, Table, FitBut, DirsSound, IC.Copies, IC.Placed, Layout.Bitmaps;
    TransFacts(log, lay, ii, owner, base, slack);
  }

  lemma {:induction false} BrowsingWorking(log: Log, cache: IC.InodeCache, lay: Layout, ii: seq<Dinode>,
                                           owner: seq<Owner>, base: set<nat>, slack: nat, x: nat)
    requires Browsing(log, lay, ii, owner) && log.busy && Room(log.bc.a.pinned, base, slack) && lay.Bitmaps() <= base &&
      FitBut(log.View(), ii, x)
    requires cache.Valid() && IC.Copies(cache.slots, ii) && |cache.at| == |ii|
    ensures Working(log, cache, lay, ii, owner, base, slack, x)
  {
    hide Log.Valid, Log.View, FsOk, Table, FitBut, DirsSound, IC.Copies, IC.Placed, Room, Layout.Bitmaps;
  }

  /** The count of inode `ip` has been raised, and nothing else. */
  ghost predicate RaisedTo(v: Disk, ii: seq<Dinode>, v': Disk, ii': seq<Dinode>, lay: Layout, ip: nat) {
    && ip < |ii| == |ii'| && Rewritten(v, ii, v', ii', lay, ip, ii'[ip])
    && ii'[ip] == ii[ip].(nlink := (ii[ip].nlink + 1) % U16)
    && NodesOf(v', ii') == Raised(NodesOf(v, ii), ip)
  }

  /** Between the raising of the count and the adding of the name, with the directory found or not. */
  ghost predicate Between(log: Log, cache: IC.InodeCache, lay: Layout, ii: seq<Dinode>, owner: seq<Owner>,
                          refs: seq<nat>, base: set<nat>, ki: nat, kd: int, ip: nat, p: Place, name: Name)
    reads log, log.bc, cache
  {
    && Working(log, cache, lay, ii, owner, base, SLACK, |ii|) && Refers(cache, ii, ki, ip) && |refs| == |ii|
    && (p == Lost ==> kd == -1)
    && (p.At? ==>
       p.inum < |ii| && ii[p.inum].typ == T_DIR && 0 <= kd && Refers(cache, ii, kd, p.inum) && IsString(name) &&
       Cut(name) == name)
    && forall j: nat | j < |refs| :: cache.Ref(j) == refs[j] + if p.At? && j == p.inum then 1 else 0
  }

  /** In the middle of `sys_link`: the inode's count is raised, and the directory for the new name looked for. */
  method RaiseAndFind(log: Log, cache: IC.InodeCache, ki: nat, path: Name, cwd: nat, ghost ip: nat, ghost lay: Layout,
                      ghost ii: seq<Dinode>, ghost owner: seq<Owner>, ghost refs: seq<nat>, ghost base: set<nat>)
    returns (ok: bool, kd: int, name: Name, ghost p: Place, ghost ii': seq<Dinode>)
    requires Working(log, cache, lay, ii, owner, base, SLACK, |ii|) && Locked(cache, ii, ki, ip) &&
      lay.IBlock(ip) in base && DirsSound(log.View(), ii)
    requires ROOT < |ii| == |refs| && (forall j: nat | j < |refs| :: cache.Ref(j) == refs[j]) && refs[ip] > 0 &&
      cache.Empty() >= 2
    requires IsString(path) && cwd < IC.NINODE && cache.slots[cwd].ref > 0
    modifies log`lh, log`slot, log.bc, cache
    ensures RaisedTo(old(log.View()), ii, log.View(), ii', lay, ip) && ok == (p != Stuck)
    ensures p ==
      Resolve(NodesOf(log.View(), ii'), refs, StartOf(path, old(cache.slots[cwd].inum)), Elements(path, 0), true)
    ensures ok ==>
      Between(log, cache, lay, ii', owner, refs, base, ki, kd, ip, p, name) &&
      (p.At? ==> Elements(path, 0) != [] && name == LastName(path))
  {
    hide Log.Valid, Log.View, Trans, FitBut, Room, Layout.Bitmaps, DirsSound, NodesOf, Resolve, Elements, Clip, Cut,
      IsString, Rewritten, Stays, Holding, Browsing;
    hide IC.InodeCache.Empty, IC.SlotOk, IC.PlaceOk, IC.Copies;
    ghost var v, at := log.View(), cache.at;
    TransFacts(log, lay, ii, owner, base, SLACK);
    ii' := StepLinks(log, cache, ki, true, ip, lay, ii, owner, base, SLACK, |ii|);
    RewrittenNode(v, ii, log.View(), ii', lay, ip, ii'[ip]);
    WorkingBrowsing(log, cache, lay, ii', owner, base, SLACK, |ii|);
    HoldingOf(cache, refs);
    ghost var room := cache.Empty();
    ParentIsDir(NodesOf(log.View(), ii'), refs, StartOf(path, cache.slots[cwd].inum), Elements(path, 0));
    ok, kd, name, p := NameX(log, cache, path, true, cwd, lay, ii', owner, refs);
    if ok {
      RefsOf(cache, refs, if p.At? then p.inum else NOWHERE, room);
      RefersStill(cache, ii', ki, ip, refs, at);
      BrowsingWorking(log, cache, lay, ii', owner, base, SLACK, |ii|);
      if p.At? { ClippedName(path, 0, |Elements(path, 0)| - 1); }
    }
  }

  /** The end of `sys_link` when no name was added: the count goes down again. */
  method Undo(log: Log, cache: IC.InodeCache, ki: nat, ghost ip: nat, ghost ns0: seq<Node>, ghost lay: Layout,
              ghost ii: seq<Dinode>, ghost owner: seq<Owner>, ghost base: set<nat>, ghost slack: nat)
    returns (ghost ii': seq<Dinode>, ghost owner': seq<Owner>)
    requires Working(log, cache, lay, ii, owner, base, slack, |ii|) && Refers(cache, ii, ki, ip) &&
      lay.IBlock(ip) in base && ii[ip].typ != 0
    requires ip < |ns0| && -MAXLINK - 1 <= ns0[ip].nlink <= MAXLINK && NodesOf(log.View(), ii) == Raised(ns0, ip)
    modifies log`lh, log`slot, log.bc, cache
    ensures |ii'| == |ii| && Working(log, cache, lay, ii', owner', base, slack, |ii|)
    ensures NodesOf(log.View(), ii') == Dropped(ns0, ip, old(cache.Ref(ip)) == 1)
    ensures forall j: nat :: cache.Ref(j) == old(cache.Ref(j)) - if j == ip then 1 else 0
    ensures OthersKept(old(log.View()), ii, log.View(), ii', ip, ip)
  {
    hide OthersKept, SameContents, SameFiles, Mapped;
    hide Log.Valid, Log.View, Trans, FitBut, NodesOf, Raised, Rewritten, Dropped, IC.InodeCache.Empty, IC.Placed;
    RaisedThenLowered(ns0, ip);
    var ok := Lock(log, cache, ki, ip, lay, ii, owner, base, slack, |ii|);
    ghost var v := log.View();
    TransFacts(log, lay, ii, owner, base, slack);
    ghost var ii1 := StepLinks(log, cache, ki, false, ip, lay, ii, owner, base, slack, |ii|);
    ghost var v1 := log.View();
    OthersOfRewrite(v, ii, v1, ii1, lay, ip, ii1[ip], ip, ip);
    TransFacts(log, lay, ii1, owner, base, slack);
    ii', owner' := InodePut(log, cache, ki, ip, lay, ii1, owner, base, slack, |ii|);
    OthersOfSame(v1, ii1, log.View(), ii', ip, ip, ip);
    OthersTwice(v, ii, v1, ii1, log.View(), ii', ip, ip);
  }

  /** What `sys_link` makes of the tree when the path for the new name leads to `p`. */
  ghost function LinkTree(ns: seq<Node>, refs: seq<nat>, ip: nat, p: Place, s: Name): seq<Node>
    requires ip < |ns| == |refs| && (p.At? ==> p.inum < |ns|)
  {
    match p
    case At(dp) =>
      if s in ns[dp].dir then Dropped(Dropped(ns, dp, refs[dp] == 0), ip, refs[ip] == 0)
      else Dropped(Linked(ns, ip, dp, s), dp, refs[dp] == 0)
    case _ => Dropped(ns, ip, refs[ip] == 0)
  }

  /** Every file but the two keeps its contents; and so does the one linked, if it is. */
  ghost predicate FilesKept(v: Disk, ii: seq<Dinode>, v': Disk, ii': seq<Dinode>, dp: nat, ip: nat, linked: bool) {
    OthersKept(v, ii, v', ii', dp, ip) && ip < |ii| && (linked ==> SameContents(v, ii[ip], v', ii'[ip]))
  }

  lemma {:induction false} FilesKeptAfter(v: Disk, ii: seq<Dinode>, v1: Disk, ii1: seq<Dinode>, v2: Disk,
                                          ii2: seq<Dinode>, dp: nat, ip: nat, linked: bool)
    requires OthersKept(v, ii, v1, ii1, dp, ip) && ip < |ii| && SameContents(v, ii[ip], v1, ii1[ip])
    requires FilesKept(v1, ii1, v2, ii2, dp, ip, linked)
    ensures FilesKept(v, ii, v2, ii2, dp, ip, linked)
  {
    hide SameContents;
    OthersTwice(v, ii, v1, ii1, v2, ii2, dp, ip);
    if linked { SameTwice(v, ii[ip], v1, ii1[ip], v2, ii2[ip]); }
  }

  /** With the directory found, the name is added and both inodes put back, or the count is lowered again. */
  method Finish(log: Log, cache: IC.InodeCache, ki: nat, kd: int, inum: nat, name: Name, ghost p: Place, ghost v: Disk,
                ghost ii0: seq<Dinode>, ghost lay: Layout, ghost ii: seq<Dinode>, ghost owner: seq<Owner>,
                ghost refs: seq<nat>, ghost base: set<nat>)
    returns (r: int, ghost ii': seq<Dinode>, ghost owner': seq<Owner>)
    requires Working(log, cache, lay, ii, owner, base, SLACK, |ii|) && Refers(cache, ii, ki, inum) &&
      ii[inum].typ != 0 && ii[inum].typ != T_DIR && 0 < inum < U16
    requires |ii0| == |ii| == |refs| && LinksOk(NodesOf(v, ii0)) && NodesOf(v, ii0)[inum].nlink <= MAXLINK &&
      NodesOf(log.View(), ii) == Raised(NodesOf(v, ii0), inum)
    requires p != Stuck && base == BaseOf(lay, if p.At? then p.inum else inum, inum) && (p.At? <==> kd != -1)
    requires p.At? ==>
      p.inum < |ii| && ii[p.inum].typ == T_DIR && 0 <= kd && Refers(cache, ii, kd, p.inum) && IsString(name) &&
      Cut(name) == name
    requires p.At? && name !in NodesOf(v, ii0)[p.inum].dir ==> CanAdd(log.View(), lay, ii[p.inum], 2)
    requires forall j: nat | j < |refs| ::
      cache.Ref(j) == refs[j] + (if j == inum then 1 else 0) + if p.At? && j == p.inum then 1 else 0
    modifies log`lh, log`slot, log.bc, cache
    ensures |ii'| == |ii| && Working(log, cache, lay, ii', owner', base, 0, |ii|)
    ensures NodesOf(log.View(), ii') == LinkTree(NodesOf(v, ii0), refs, inum, p, name) && r == if p.At? &&
      name !in NodesOf(v, ii0)[p.inum].dir then 0 else -1
    ensures forall j: nat | j < |refs| :: cache.Ref(j) == refs[j]
    ensures FilesKept(old(log.View()), ii, log.View(), ii', if p.At? then p.inum else inum, inum, r == 0)
  {
    hide OthersKept, SameContents, SameFiles;
    hide Log.Valid, Log.View, Trans, FitBut, NodesOf, Rewritten, CanAdd, Cut, IsString, LinksOk, Linked,
      IC.InodeCache.Empty, IC.Placed, IC.InodeCache.Ref;
    ghost var ns, v0 := NodesOf(v, ii0), log.View();
    assert ns[inum].nlink >= 0 by { LinkIs(ns, inum); }
    r := -1;
    if kd == -1 {
      ii', owner' := Undo(log, cache, ki, inum, ns, lay, ii, owner, base, SLACK);
      LessSlack(log, cache, lay, ii', owner', base, SLACK, 0, |ii|);
      return;
    }
    ghost var dp := p.inum;
    RaisedThenNamed(ns, inum, dp, name);
    ghost var ii1, owner1;
    r, ii1, owner1 := NameIn(log, cache, kd, ki, name, inum, dp, lay, ii, owner);
    NodeFacts(log, lay, ii1, owner1, base, SLACK - 2, inum);
    ghost var v1 := log.View();
    OthersWiden(v0, ii, v1, ii1, dp, inum);
    if r < 0 {
      DropRaised(ns, inum, dp, refs[dp] == 0);
      ii', owner' := Undo(log, cache, ki, inum, Dropped(ns, dp, refs[dp] == 0), lay, ii1, owner1, base, SLACK - 2);
      OthersWiden(v1, ii1, log.View(), ii', inum, dp);
      FilesKeptAfter(v0, ii, v1, ii1, log.View(), ii', dp, inum, false);
    } else {
      ii', owner' := InodePut(log, cache, ki, inum, lay, ii1, owner1, base, SLACK - 2, |ii|);
    }
    LessSlack(log, cache, lay, ii', owner', base, SLACK - 2, 0, |ii|);
  }

  lemma {:induction false} LinkIs(ns: seq<Node>, i: nat)
    requires LinksOk(ns) && i < |ns|
    ensures ns[i].nlink >= 0
  {
    assert LinkOk(ns, i);
  }

  lemma {:induction false} DropRaised(ns: seq<Node>, ip: nat, dp: nat, last: bool)
    requires ip < |ns| && dp < |ns| && ip != dp
    ensures Dropped(Raised(ns, ip), dp, last) == Raised(Dropped(ns, dp, last), ip)
  {
  }

  /** The counts come out right exactly when no name was added, or the directory is linked and the count had room. */
  predicate LinkSound(ns: seq<Node>, ip: nat, p: Place, s: Name)
    requires ip < |ns| && (p.At? ==> p.inum < |ns|)
  {
    p.At? && s !in ns[p.inum].dir ==> ns[p.inum].Live() && ns[ip].nlink < MAXLINK
  }

  lemma {:induction false} LinkTreeOk(ns: seq<Node>, home: seq<Home>, refs: seq<nat>, ip: nat, p: Place, s: Name)
    requires Shaped(ns, home) && LinksOk(ns) && ip < |ns| == |refs| && ns[ip].typ != 0 && ns[ip].typ != T_DIR &&
      ns[ip].nlink <= MAXLINK
    requires p.At? ==> p.inum < |ns| && ns[p.inum].typ == T_DIR
    ensures var ns' := LinkTree(ns, refs, ip, p, s);
      (LinksOk(ns') <==> LinkSound(ns, ip, p, s)) && (LinksOk(ns') ==> Shaped(ns', home))
  {
    hide Shaped, LinksOk;
    match p {
      case At(dp) =>
        if s in ns[dp].dir {
          DroppedOk(ns, home, dp, refs[dp] == 0);
          DroppedOk(Dropped(ns, dp, refs[dp] == 0), home, ip, refs[ip] == 0);
        } else {
          LinkedExact(ns, home, ip, dp, s);
          DroppedOk(Linked(ns, ip, dp, s), home, dp, refs[dp] == 0);
        }
      case _ => DroppedOk(ns, home, ip, refs[ip] == 0);
    }
  }

  /** Where the path for the new name leads, with the count of `ip` raised and a reference to it held. */
  ghost function NewPlace(ns: seq<Node>, refs: seq<nat>, ip: nat, path: Name, cwd: nat): Place
    requires ip < |ns| == |refs|
  {
    Resolve(Raised(ns, ip), refs[ip := refs[ip] + 1], StartOf(path, cwd), Elements(path, 0), true)
  }

  lemma {:induction false} InUse(ns: seq<Node>, home: seq<Home>, i: nat)
    requires Shaped(ns, home) && i < |ns|
    ensures ROOT < |ns| && (ns[i].typ != 0 ==> i != 0)
  {
  }

  lemma {:induction false} PutKeeps(v: Disk, ii: seq<Dinode>, v': Disk, ii': seq<Dinode>, dp: nat, ip: nat)
    requires SameFiles(v, ii, v', ii', ip) && ip < |ii| && forall j | 0 <= j < |ii| :: Mapped(v, ii[j])
    ensures FilesKept(v, ii, v', ii', dp, ip, false)
  {
    hide SameFiles, SameContents, Mapped;
    OthersOfSame(v, ii, v', ii', ip, dp, ip);
  }

  lemma {:induction false} DirFound(v: Disk, ii: seq<Dinode>, v1: Disk, ii1: seq<Dinode>, lay: Layout, ip: nat,
                                    p: Place)
    requires ip < |ii| == |ii1| && Rewritten(v, ii, v1, ii1, lay, ip, ii1[ip]) && ii1[ip].typ == ii[ip].typ != T_DIR
    ensures p.At? && p.inum < |ii| && ii1[p.inum].typ == T_DIR ==>
      p.inum != ip && ii[p.inum].typ == T_DIR && NodesOf(v, ii)[p.inum].typ == T_DIR
  {
  }

  /** The transaction of `sys_link`, once it has begun; `ok` is false if it stops in a panic. */
  method LinkIn(log: Log, cache: IC.InodeCache, ki: nat, path: Name, cwd: nat, ghost ip: nat, ghost lay: Layout,
                ghost ii: seq<Dinode>, ghost owner: seq<Owner>, ghost home: seq<Home>, ghost refs: seq<nat>)
    returns (ok: bool, r: int, ghost ii': seq<Dinode>, ghost owner': seq<Owner>, ghost base: set<nat>)
    requires Opened(log, cache, lay, ii, owner) && TreeOk(log.View(), ii, home) && Refers(cache, ii, ki, ip) &&
      |refs| == |ii| <= U16
    requires (forall j: nat | j < |refs| :: cache.Ref(j) == refs[j] + if j == ip then 1 else 0) && cache.Empty() >= 2
    requires IsString(path) && cwd < IC.NINODE && cache.slots[cwd].ref > 0
    requires var ns := NodesOf(log.View(), ii);
      var p := NewPlace(ns, refs, ip, path, cache.slots[cwd].inum);
      p.At? && p.inum < |ns| && LastName(path) !in ns[p.inum].dir ==> CanAdd(log.View(), lay, ii[p.inum], 2)
    modifies log`lh, log`slot, log.bc, cache
    ensures var ns := NodesOf(old(log.View()), ii);
      var p := NewPlace(ns, refs, ip, path, old(cache.slots[cwd].inum));
      && ok == (ns[ip].typ != 0 && (ns[ip].typ != T_DIR ==> p != Stuck))
      && (ok ==>
         |ii'| == |ii| && Working(log, cache, lay, ii', owner', base, 0, |ii|) && forall j: nat | j < |refs| ::
         cache.Ref(j) == refs[j])
      && (ok && ns[ip].typ == T_DIR ==> r == -1 && NodesOf(log.View(), ii') == Dropped(ns, ip, refs[ip] == 0))
      && (ok && ns[ip].typ != T_DIR ==>
          && (p.At? ==> p.inum < |ns| && ns[p.inum].typ == T_DIR)
          && NodesOf(log.View(), ii') == LinkTree(ns, refs, ip, p, LastName(path)) && r == if p.At?
          && LastName(path) !in ns[p.inum].dir then 0 else -1)
      && (ok ==> FilesKept(old(log.View()), ii, log.View(), ii', if p.At? then p.inum else ip, ip, r == 0))
  {
    hide FilesKept, OthersKept, SameContents, SameFiles, Mapped;
    hide Log.Valid, Log.View, Trans, FitBut, AllFit, Shaped, LinksOk, NodesOf, Rewritten, CanAdd, Cut, IsString, Raised,
      Linked, Dropped, Resolve, Elements, Clip, DirsSound;
    hide IC.InodeCache.Empty, IC.SlotOk, IC.PlaceOk, Opened;
    ghost var v, ns := log.View(), NodesOf(log.View(), ii);
    ghost var p := NewPlace(ns, refs, ip, path, cache.slots[cwd].inum);
    ghost var refs1 := refs[ip := refs[ip] + 1];
    base := BaseOf(lay, if p.At? then p.inum else ip, ip);
    OpenedWorking(log, cache, lay, ii, owner, if p.At? then p.inum else ip, ip);
    SoundOfShape(v, ii, home);
    InUse(ns, home, ip);
    TransFacts(log, lay, ii, owner, base, SLACK);
    NodeFacts(log, lay, ii, owner, base, SLACK, ip);
    r, ii', owner' := -1, ii, owner;
    ok := Lock(log, cache, ki, ip, lay, ii, owner, base, SLACK, |ii|);
    if !ok { return; }
    if cache.slots[ki].d.typ == T_DIR {
      ii', owner' := InodePut(log, cache, ki, ip, lay, ii, owner, base, SLACK, |ii|);
      PutKeeps(v, ii, log.View(), ii', if p.At? then p.inum else ip, ip);
      LessSlack(log, cache, lay, ii', owner', base, SLACK, 0, |ii|);
      return;
    }
    var inum, kd, name := cache.slots[ki].inum, -1, [];
    ghost var p1, ii1;
    ok, kd, name, p1, ii1 := RaiseAndFind(log, cache, ki, path, cwd, ip, lay, ii, owner, refs1, base);
    if !ok { return; }
    DirFound(v, ii, log.View(), ii1, lay, ip, p1);
    if p1.At? && name !in ns[p1.inum].dir { CanAddKept(v, ii, log.View(), ii1, lay, ip, ii1[ip], p1.inum, 2); }
    ghost var v1, dp := log.View(), if p1.At? then p1.inum else ip;
    OthersOfRewrite(v, ii, v1, ii1, lay, ip, ii1[ip], dp, ip);
    r, ii', owner' := Finish(log, cache, ki, kd, inum, name, p1, v, ii, lay, ii1, owner, refs, base);
    FilesKeptAfter(v, ii, v1, ii1, log.View(), ii', dp, ip, r == 0);
  }

  /** What `sys_link` does with the inode its first path leads to; directories are refused. */
  ghost predicate LinkDone(ns: seq<Node>, refs: seq<nat>, ip: nat, path: Name, cwd: nat, ns': seq<Node>, r: int) {
    && ip < |ns| == |refs|
    && if ns[ip].typ == T_DIR then r == -1 && ns' == Dropped(ns, ip, refs[ip] == 0)
       else
         var p, s := NewPlace(ns, refs, ip, path, cwd), LastName(path);
         && (p.At? ==> p.inum < |ns| && ns[p.inum].typ == T_DIR)
         && ns' == LinkTree(ns, refs, ip, p, s) && r == if p.At? && s !in ns[p.inum].dir then 0 else -1
  }

  /**
   * Link counts are right after `sys_link` exactly when it added no name, or did so in a linked directory to a count
   * with room.
   */
  ghost predicate CountsRight(ns: seq<Node>, refs: seq<nat>, ip: nat, path: Name, cwd: nat)
    requires ip < |ns| == |refs|
  {
    var p := NewPlace(ns, refs, ip, path, cwd);
    ns[ip].typ != T_DIR && p.At? && p.inum < |ns| ==> LinkSound(ns, ip, p, LastName(path))
  }

  lemma {:induction false} LinkDoneOk(ns: seq<Node>, home: seq<Home>, refs: seq<nat>, ip: nat, path: Name, cwd: nat,
                                      ns': seq<Node>, r: int)
    requires Shaped(ns, home) && LinksOk(ns) && LinkDone(ns, refs, ip, path, cwd, ns', r) && ns[ip].typ != 0 &&
      ns[ip].nlink <= MAXLINK
    ensures (LinksOk(ns') <==> CountsRight(ns, refs, ip, path, cwd)) && (LinksOk(ns') ==> Shaped(ns', home))
  {
    hide Shaped, LinksOk, Dropped, LinkTree, NewPlace, LastName;
    if ns[ip].typ == T_DIR {
      DroppedOk(ns, home, ip, refs[ip] == 0);
    } else {
      LinkTreeOk(ns, home, refs, ip, NewPlace(ns, refs, ip, path, cwd), LastName(path));
    }
  }

  /** The new name is seen, as the file's, where the counts come out right. */
  lemma {:induction false} LinkNames(ns: seq<Node>, home: seq<Home>, refs: seq<nat>, ip: nat, path: Name, cwd: nat,
                                     ns': seq<Node>)
    requires Shaped(ns, home) && LinksOk(ns) && LinkDone(ns, refs, ip, path, cwd, ns', 0) && ns[ip].typ != 0 &&
      ns[ip].nlink <= MAXLINK && CountsRight(ns, refs, ip, path, cwd)
    ensures var p := NewPlace(ns, refs, ip, path, cwd);
      p.At? && NameMade(ns, ns', refs, StartOf(path, cwd), Elements(path, 0), p.inum, ip, |ns|)
  {
    hide Shaped, LinksOk, Elements, Resolve, Clip, StartOf, Arrives;
    LinkDoneOk(ns, home, refs, ip, path, cwd, ns', 0);
    var start, es, dp := StartOf(path, cwd), Elements(path, 0), NewPlace(ns, refs, ip, path, cwd).inum;
    ParentTrail(Raised(ns, ip), refs[ip := refs[ip] + 1], start, es, dp);
    assert KeepsNames(Raised(ns, ip), ns');
    if start < |ns| && ns'[start].nlink > 0 { PathFound(Raised(ns, ip), ns', home, refs, start, es, dp); }
  }

  /** Whether or not a name was added, no inode is left in use that nothing leads to. */
  lemma {:induction false} LinkOrphans(ns: seq<Node>, refs: seq<nat>, ip: nat, path: Name, cwd: nat, ns': seq<Node>,
                                       r: int)
    requires LinksOk(ns) && LinkDone(ns, refs, ip, path, cwd, ns', r)
    ensures NoNewOrphan(ns, refs, ns', refs)
  {
    assert LinkOk(ns, ip);
    hide LinksOk, NewPlace, LastName, Count;
    hide Dropped;
    var p, s := NewPlace(ns, refs, ip, path, cwd), LastName(path);
    var ns1 := if ns[ip].typ == T_DIR || !p.At? then ns
    else if s in ns[p.inum].dir then Dropped(ns, p.inum, refs[p.inum] == 0) else Linked(ns, ip, p.inum, s);
    if ns[ip].typ != T_DIR && p.At? { DroppedOrphans(ns, refs, p.inum); }
    DroppedOrphans(ns1, refs, if ns[ip].typ != T_DIR && p.At? && s !in ns[p.inum].dir then p.inum else ip);
  }

  /** What a user of the tree sees of `sys_link`. */
  ghost predicate LinkSeen(ns: seq<Node>, refs: seq<nat>, ip: nat, path: Name, cwd: nat, ns': seq<Node>, r: int) {
    && NoNewOrphan(ns, refs, ns', refs) && ip < |ns| == |refs|
    && (r == 0 && CountsRight(ns, refs, ip, path, cwd) ==>
       var p := NewPlace(ns, refs, ip, path, cwd);
       p.At? && NameMade(ns, ns', refs, StartOf(path, cwd), Elements(path, 0), p.inum, ip, |ns|))
    && (r != 0 && ns[ip].nlink > 0 && NewDirLinked(ns, NewPlace(ns, refs, ip, path, cwd)) ==> ns' == ns)
  }

  predicate NewDirLinked(ns: seq<Node>, p: Place) {
    p.At? && p.inum < |ns| ==> ns[p.inum].nlink > 0
  }

  /** A call that fails leaves the tree as it was, if the inodes it met are linked. */
  lemma {:induction false} FailedLink(ns: seq<Node>, refs: seq<nat>, ip: nat, path: Name, cwd: nat, ns': seq<Node>,
                                      r: int)
    requires LinkDone(ns, refs, ip, path, cwd, ns', r) && r != 0 && ns[ip].nlink > 0
    requires NewDirLinked(ns, NewPlace(ns, refs, ip, path, cwd))
    ensures ns' == ns
  {
    hide NewPlace, LastName;
  }

  lemma {:induction false} LinkIsSeen(ns: seq<Node>, home: seq<Home>, refs: seq<nat>, ip: nat, path: Name, cwd: nat,
                                      ns': seq<Node>, r: int)
    requires Shaped(ns, home) && LinksOk(ns) && LinkDone(ns, refs, ip, path, cwd, ns', r) && ns[ip].typ != 0 &&
      ns[ip].nlink <= MAXLINK
    ensures LinkSeen(ns, refs, ip, path, cwd, ns', r)
  {
    assert ip < |ns| == |refs|;
    hide Shaped, LinksOk, LinkDone, CountsRight, NewPlace, NameMade, NoNewOrphan, Elements, StartOf;
    LinkOrphans(ns, refs, ip, path, cwd, ns', r);
    if r == 0 && CountsRight(ns, refs, ip, path, cwd) { LinkNames(ns, home, refs, ip, path, cwd, ns'); }
    if r != 0 && ns[ip].nlink > 0 && NewDirLinked(ns, NewPlace(ns, refs, ip, path, cwd)) {
      FailedLink(ns, refs, ip, path, cwd, ns', r);
    }
  }

  /** There is room for the new name. */
  ghost predicate RoomForName(v: Disk, ii: seq<Dinode>, lay: Layout, refs: seq<nat>, ip: nat, path: Name, cwd: nat)
    requires ip < |ii| == |refs|
  {
    var ns := NodesOf(v, ii);
    var p := NewPlace(ns, refs, ip, path, cwd);
    p.At? && p.inum < |ns| && LastName(path) !in ns[p.inum].dir ==> CanAdd(v, lay, ii[p.inum], 2)
  }

  /** `sys_link` from the inode on: its reference is given back, and all is committed. */
  method LinkFrom(log: Log, cache: IC.InodeCache, ki: nat, path: Name, cwd: nat, ghost ip: nat, ghost lay: Layout,
                  ghost ii: seq<Dinode>, ghost owner: seq<Owner>, ghost home: seq<Home>, ghost refs: seq<nat>,
                  ghost room: nat)
    returns (ok: bool, r: int, ghost ii': seq<Dinode>, ghost owner': seq<Owner>)
    requires Quiet(log, lay, ii, owner) && lay.size < BPB && TreeOk(log.View(), ii, home) &&
      Refers(cache, ii, ki, ip) && |refs| == |ii| <= U16
    requires Holding(cache, refs, ip, room) && room >= 3 && IsString(path) && cwd < IC.NINODE &&
      cache.slots[cwd].ref > 0
    requires RoomForName(log.View(), ii, lay, refs, ip, path, cache.slots[cwd].inum)
    modifies log, log.bc, cache
    ensures var ns := NodesOf(old(log.View()), ii);
      && ok == (ns[ip].typ != 0 &&
         (ns[ip].typ != T_DIR ==> NewPlace(ns, refs, ip, path, old(cache.slots[cwd].inum)) != Stuck))
      && (ok ==> |ii'| == |ii| && LinkDone(ns, refs, ip, path, old(cache.slots[cwd].inum), NodesOf(log.View(), ii'), r))
      && (ok ==> (TreeOk(log.View(), ii', home) <==> CountsRight(ns, refs, ip, path, old(cache.slots[cwd].inum))))
      && (ok ==> LinkSeen(ns, refs, ip, path, old(cache.slots[cwd].inum), NodesOf(log.View(), ii'), r))
      && (ok ==>
         var p := NewPlace(ns, refs, ip, path, old(cache.slots[cwd].inum));
         FilesKept(old(log.View()), ii, log.View(), ii', if p.At? then p.inum else ip, ip, r == 0))
    ensures ok ==>
      Quiet(log, lay, ii', owner') && IC.Copies(cache.slots, ii') && Holding(cache, refs, NOWHERE, room) &&
      cache.Empty() == room
    ensures ok ==> EitherWay(log.bc.a.trace, old(log.bc.a.trace), log.start, old(log.View()), log.View())
  {
    hide Log.Valid, Log.View, FsOk, Table, AllFit, Shaped, LinksOk, NodesOf, IsString, IC.Copies, IC.SlotOk, IC.PlaceOk,
      IC.RefAt, IC.EmptyCount, RefIs, LinkTree, Working, EitherWay;
    hide CanAdd, NewPlace, LastName, CountsRight, LinkSeen, FilesKept;
    ghost var slots, at, ns, v, c := cache.slots, cache.at, NodesOf(log.View(), ii), log.View(), cache.slots[cwd].inum;
    RefsOf(cache, refs, ip, room);
    BeginTree(log, cache, lay, ii, owner);
    ghost var base;
    CountRange(log, cache, lay, ii, owner, ip);
    ok, r, ii', owner', base := LinkIn(log, cache, ki, path, cwd, ip, lay, ii, owner, home, refs);
    if !ok { return; }
    CacheOf(log, cache, lay, ii', owner', base, 0, |ii|);
    CommitTree(log, cache, lay, ii', owner', base);
    HoldingAgain(cache, refs, slots, at, ip);
    LinkDoneOk(ns, home, refs, ip, path, c, NodesOf(log.View(), ii'), r);
    LinkIsSeen(ns, home, refs, ip, path, c, NodesOf(log.View(), ii'), r);
  }

  /**
   * `sys_link`.  The tree afterwards is given exactly; its link counts are right exactly when the
   * directory is linked and the file's count does not overflow, or no name was added.
   */
  method Link(log: Log, cache: IC.InodeCache, from: Name, to: Name, cwd: nat, ghost lay: Layout, ghost ii: seq<Dinode>,
              ghost owner: seq<Owner>, ghost home: seq<Home>, ghost refs: seq<nat>)
    returns (ok: bool, r: int, ghost ii': seq<Dinode>, ghost owner': seq<Owner>)
    requires Settled(log, cache, lay, ii, owner, home, refs) && |ii| <= U16 && IsString(from) && IsString(to) &&
      cache.Empty() >= 3
    requires cwd < IC.NINODE && cache.slots[cwd].ref > 0
    requires var p :=
      Resolve(NodesOf(log.View(), ii), refs, StartOf(from, cache.slots[cwd].inum), Elements(from, 0), false);
      p.At? && p.inum < |ii| ==> RoomForName(log.View(), ii, lay, refs, p.inum, to, cache.slots[cwd].inum)
    modifies log, log.bc, cache
    ensures var ns, c := NodesOf(old(log.View()), ii), old(cache.slots[cwd].inum);
      match Resolve(ns, refs, StartOf(from, c), Elements(from, 0), false)
      case Stuck => !ok
      case Lost =>
        ok && r == -1 && log.View() == old(log.View()) && ii' == ii && Settled(log, cache, lay, ii', owner', home, refs)
      case At(ip) =>
        && ip < |ns| && ok == (ns[ip].typ != 0 && (ns[ip].typ != T_DIR ==> NewPlace(ns, refs, ip, to, c) != Stuck))
        && (ok ==> |ii'| == |ii| && LinkDone(ns, refs, ip, to, c, NodesOf(log.View(), ii'), r))
        && (ok ==> (Settled(log, cache, lay, ii', owner', home, refs) <==> CountsRight(ns, refs, ip, to, c)))
        && (ok ==> LinkSeen(ns, refs, ip, to, c, NodesOf(log.View(), ii'), r))
        && (ok ==>
           var p := NewPlace(ns, refs, ip, to, c);
           FilesKept(old(log.View()), ii, log.View(), ii', if p.At? then p.inum else ip, ip, r == 0))
    ensures ok ==> Quiet(log, lay, ii', owner') && cache.Empty() == old(cache.Empty())
    ensures ok ==> EitherWay(log.bc.a.trace, old(log.bc.a.trace), log.start, old(log.View()), log.View())
  {
    hide Log.Valid, Log.View, FsOk, Table, TreeOk, NodesOf, Elements, Resolve, Clip, IsString, IC.Copies, IC.SlotOk,
      IC.PlaceOk, IC.InodeCache.Empty, Holding;
    hide RoomForName, LinkDone, LinkSeen, FilesKept, CountsRight, NewPlace, Stays;
    RefsOf(cache, refs, NOWHERE, cache.Empty());
    ghost var v, room, c, at := log.View(), cache.Empty(), cache.slots[cwd].inum, cache.at;
    Browsable(log, lay, ii, owner, home);
    CwdPlace(cache, refs, cwd);
    ghost var p;
    var k, name;
    ok, k, name, p := NameX(log, cache, from, false, cwd, lay, ii, owner, refs);
    r, ii', owner' := -1, ii, owner;
    if ok {
      RefsOf(cache, refs, if p.At? then p.inum else NOWHERE, room);
      RefersStill(cache, ii, cwd, c, refs, at);
    }
    if ok && k != -1 {
      ok, r, ii', owner' := LinkFrom(log, cache, k, to, cwd, p.inum, lay, ii, owner, home, refs, room);
    }
  }

  lemma {:induction false} CwdPlace(cache: IC.InodeCache, refs: seq<nat>, cwd: nat)
    requires cache.Valid() && |cache.at| == |refs| && (forall j: nat | j < |refs| :: cache.Ref(j) == refs[j]) &&
      cwd < IC.NINODE && cache.slots[cwd].ref > 0
    ensures var c := cache.slots[cwd].inum; c < |refs| && cache.at[c] == cwd && refs[c] > 0
  {
    assert IC.SlotOk(cache.slots, cache.at, cwd);
    assert cache.Ref(cache.slots[cwd].inum) > 0;
  }

  // From a linked working directory

  /** A raised count makes no difference to a walk from an inode with links. */
  lemma {:induction false} RaisedWalk(ns: seq<Node>, home: seq<Home>, refs: seq<nat>, refs': seq<nat>, ip: nat, i: nat,
                                      es: seq<Name>, n: nat)
    requires Shaped(ns, home) && LinksOk(ns) && i < |ns| && ns[i].nlink > 0 && n <= |es| && ip < |ns| &&
      ns[ip].typ != T_DIR
    ensures Walk(Raised(ns, ip), refs', i, es, n) == Walk(ns, refs, i, es, n)
  {
    hide Walk, Shaped, LinksOk, Clip, Next;
    if n == 0 {
      WalkNone(ns, refs, i, es);
      WalkNone(Raised(ns, ip), refs', i, es);
    } else {
      RaisedWalk(ns, home, refs, refs', ip, i, es, n - 1);
      LinkedWalk(ns, home, refs, i, es, n - 1);
      WalkLast(ns, refs, i, es, n);
      WalkLast(Raised(ns, ip), refs', i, es, n);
      RaisedNext(ns, refs, refs', ip, Walk(ns, refs, i, es, n - 1), Clip(es[n - 1]));
    }
  }

  /** A raised count makes no difference to a step from an inode with links. */
  lemma {:induction false} RaisedNext(ns: seq<Node>, refs: seq<nat>, refs': seq<nat>, ip: nat, p: Place, s: Name)
    requires ip < |ns| && ns[ip].typ != T_DIR
    requires p.At? ==> p.inum < |ns| && ns[p.inum].typ != 0 && ns[p.inum].nlink > 0
    ensures Next(Raised(ns, ip), refs', p, s) == Next(ns, refs, p, s)
  {
  }

  lemma {:induction false} WalkNone(ns: seq<Node>, refs: seq<nat>, i: nat, es: seq<Name>)
    ensures Walk(ns, refs, i, es, 0) == At(i)
  {
  }

  lemma {:induction false} WalkLast(ns: seq<Node>, refs: seq<nat>, i: nat, es: seq<Name>, n: nat)
    requires 0 < n <= |es|
    ensures Walk(ns, refs, i, es, n) == Next(ns, refs, Walk(ns, refs, i, es, n - 1), Clip(es[n - 1]))
  {
  }

  /**
   * From a working directory that is linked, `sys_link` does not panic on the way to the new name, and its counts are
   * right unless one overflows.
   */
  lemma {:induction false} LinkedLinks(ns: seq<Node>, home: seq<Home>, refs: seq<nat>, ip: nat, path: Name, cwd: nat)
    requires Shaped(ns, home) && LinksOk(ns) && ip < |ns| == |refs| && cwd < |ns| && ns[cwd].nlink > 0 &&
      ns[ip].typ != T_DIR
    ensures NewPlace(ns, refs, ip, path, cwd) != Stuck &&
      (ns[ip].nlink < MAXLINK ==> CountsRight(ns, refs, ip, path, cwd))
  {
    var es, i := Elements(path, 0), StartOf(path, cwd);
    hide Elements, Clip, Walk;
    if es != [] {
      RaisedWalk(ns, home, refs, refs[ip := refs[ip] + 1], ip, i, es, |es| - 1);
      LinkedWalk(ns, home, refs, i, es, |es| - 1);
    }
  }
}
