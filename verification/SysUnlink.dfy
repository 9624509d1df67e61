/** `sys_unlink`: a name goes from its directory, and its inode with the last link and reference. */
module SysUnlink {
  import opened Sectors
  import opened FsSpec
  import opened FsInv
  import opened FsSteps
  import opened Log
  import opened Inodes
  import opened Files
  import opened DirSpec
  import opened Dirs
  import opened LinkSpec
  import opened Links
  import opened PathSpec
  import opened TreeOf
  import opened Walks
  import opened TreeLaws
  import opened Paths
  import opened Trunc
  import opened TreeSteps
  import opened Namespace

  /** `sys_unlink` takes the name away. */
  predicate Unlinkable(ns: seq<Node>, dp: nat, s: Name)
    requires dp < |ns|
  {
    !Dots(s) && s in ns[dp].dir && ns[dp].dir[s] < |ns| &&
      (ns[ns[dp].dir[s]].typ == T_DIR ==> forall x | x in ns[ns[dp].dir[s]].dir :: Dots(x))
  }

  /** The parent's part of the unlinked tree. */
  function Severed(ns: seq<Node>, dp: nat, s: Name): seq<Node>
    requires dp < |ns| && s in ns[dp].dir && ns[dp].dir[s] < |ns|
  {
    ns[dp := Node(ns[dp].typ, ns[dp].nlink - (if ns[ns[dp].dir[s]].typ == T_DIR then 1 else 0), ns[dp].dir - {s})]
  }

  lemma {:induction false} SeveredSteps(ns: seq<Node>, dp: nat, s: Name, ns1: seq<Node>, ns2: seq<Node>, last: bool)
    requires dp < |ns| && s in ns[dp].dir && ns[dp].dir[s] < |ns| && ns[dp].nlink > 0 &&
      (ns[ns[dp].dir[s]].typ == T_DIR ==> ns[dp].nlink > 1)
    requires ns1 == ns[dp := ns[dp].(dir := ns[dp].dir - {s})]
    requires ns2 == if ns[ns[dp].dir[s]].typ == T_DIR then ns1[dp := ns1[dp].(nlink := Dec16(ns1[dp].nlink))] else ns1
    ensures Dropped(ns2, dp, last) == ns2 == Severed(ns, dp, s)
  {
  }

  lemma {:induction false} SeveredThenLowered(ns: seq<Node>, dp: nat, s: Name)
    requires dp < |ns| && s in ns[dp].dir && ns[dp].dir[s] < |ns| && ns[dp].dir[s] != dp && ns[ns[dp].dir[s]].nlink > 0
    ensures var ip, ns2 := ns[dp].dir[s], Severed(ns, dp, s);
      ns2[ip := ns2[ip].(nlink := Dec16(ns2[ip].nlink))] == Unlinked(ns, dp, s)
  {
  }

  /** What the tree's invariants say of a name that can be taken away. */
  lemma {:induction false} UnlinkFacts(ns: seq<Node>, home: seq<Home>, dp: nat, s: Name)
    requires Shaped(ns, home) && LinksOk(ns) && dp < |ns| && ns[dp].typ == T_DIR && Unlinkable(ns, dp, s)
    ensures var ip := ns[dp].dir[s];
      && ip != dp && ns[dp].Live() && ns[ip].typ != 0 && ns[ip].nlink > 0 && (ns[ip].typ == T_DIR ==> ns[dp].nlink > 1)
      && Shaped(Unlinked(ns, dp, s), home) && LinksOk(Unlinked(ns, dp, s))
  {
    NamedIsLinked(ns, home, dp, s);
    UnlinkedOk(ns, home, dp, s);
  }

  lemma {:induction false} SeveredLinks(ns: seq<Node>, dp: nat, s: Name)
    requires dp < |ns| && s in ns[dp].dir && ns[dp].dir[s] < |ns| && ns[dp].nlink > 0
    requires ns[ns[dp].dir[s]].typ == T_DIR ==> ns[dp].nlink > 1
    ensures Severed(ns, dp, s)[dp].nlink > 0
  {
  }

  lemma {:induction false} ClearedOthers(v: Disk, ii: seq<Dinode>, v': Disk, ii': seq<Dinode>, i: nat, s: Name)
    requires Cleared(v, ii, v', ii', i, s) && forall j | 0 <= j < |ii| :: Mapped(v, ii[j])
    ensures OthersKept(v, ii, v', ii', i, i)
  {
    hide IsDir, Names, Contents, Mapped, SameFiles, FirstNamed, Splice;
    OthersOfSame(v, ii, v', ii', i, i, i);
  }

  /** The parent's part of `sys_unlink`: the entry goes, and with a subdirectory one link. */
  method CutName(log: Log, cache: IC.InodeCache, k: nat, ghost ki: nat, ghost name: Name, off: nat, dir: bool,
                 ghost dp: nat, ghost ip: nat, ghost lay: Layout, ghost ii: seq<Dinode>, ghost owner: seq<Owner>)
    returns (ghost ii': seq<Dinode>, ghost owner': seq<Owner>)
    requires Working(log, cache, lay, ii, owner, BaseOf(lay, dp, ip), SLACK, |ii|) && Locked(cache, ii, k, dp) &&
      Locked(cache, ii, ki, ip) && dp != ip
    requires var ns := NodesOf(log.View(), ii);
      !Dots(name) && name in ns[dp].dir && ns[dp].dir[name] == ip && dir == (ns[ip].typ == T_DIR) && ns[dp].nlink > 0 &&
        (dir ==> ns[dp].nlink > 1)
    requires IsDir(log.View(), ii[dp]) && Whole(Contents(log.View(), ii[dp])) &&
      off == DESIZE * FirstNamed(Contents(log.View(), ii[dp]), name, 0)
    modifies log`lh, log`slot, log.bc, cache
    ensures |ii'| == |ii| && Working(log, cache, lay, ii', owner', BaseOf(lay, dp, ip), SLACK - 2, |ii|) &&
      Locked(cache, ii', ki, ip)
    ensures NodesOf(log.View(), ii') == Severed(NodesOf(old(log.View()), ii), dp, name)
    ensures forall j: nat :: cache.Ref(j) == old(cache.Ref(j)) - if j == dp then 1 else 0
    ensures Removed(old(log.View()), ii, owner, log.View(), ii', owner', dp, ip, false)
  {
    hide Log.Valid, Log.View, Trans, FitBut, IsDir, Contents, Whole, FirstNamed, Layout.Bitmaps, NodesOf, Rewritten,
      Cleared, Dots, IC.InodeCache.Empty, IC.Placed;
    hide Severed, Dropped, Dec16, Inc16, SameContents, SameFiles;
    ghost var base, ns, v := BaseOf(lay, dp, ip), NodesOf(log.View(), ii), log.View();
    TransFacts(log, lay, ii, owner, base, SLACK);
    ghost var ii1, owner1 := ClearName(log, cache, k, name, off, dp, lay, ii, owner, base, SLACK, |ii|);
    ghost var ns1, v1, ii2 := NodesOf(log.View(), ii1), log.View(), ii1;
    TransFacts(log, lay, ii1, owner1, base, SLACK - 2);
    ClearedOthers(v, ii, v1, ii1, dp, name);
    OthersSelf(v1, ii1, dp, dp);
    if dir {
      ii2 := StepLinks(log, cache, k, false, dp, lay, ii1, owner1, base, SLACK - 2, |ii|);
      OthersOfRewrite(v1, ii1, log.View(), ii2, lay, dp, ii2[dp], dp, dp);
    }
    OthersTwice(v, ii, v1, ii1, log.View(), ii2, dp, dp);
    SeveredSteps(ns, dp, name, ns1, NodesOf(log.View(), ii2), cache.Ref(dp) == 1);
    SeveredLinks(ns, dp, name);
    NodeFacts(log, lay, ii2, owner1, base, SLACK - 2, dp);
    ii', owner' := InodePut(log, cache, k, dp, lay, ii2, owner1, base, SLACK - 2, |ii|);
    OthersWiden(v, ii, log.View(), ii', dp, ip);
  }

  lemma {:induction false} SeveredTarget(ns: seq<Node>, dp: nat, s: Name)
    requires dp < |ns| && s in ns[dp].dir && ns[dp].dir[s] < |ns| && ns[dp].dir[s] != dp
    ensures Severed(ns, dp, s)[ns[dp].dir[s]] == ns[ns[dp].dir[s]]
  {
  }

  /** A link fewer for `ip` is still nothing removed. */
  lemma {:induction false} Lowered(v: Disk, ii: seq<Dinode>, owner: seq<Owner>, v1: Disk, ii1: seq<Dinode>,
                                   owner1: seq<Owner>, v2: Disk, ii2: seq<Dinode>, lay: Layout, dp: nat, ip: nat)
    requires Removed(v, ii, owner, v1, ii1, owner1, dp, ip, false) && dp != ip && |ii2| == |ii1|
    requires Rewritten(v1, ii1, v2, ii2, lay, ip, ii2[ip]) && ii2[ip].typ == ii1[ip].typ && ii2[ip].size == ii1[ip].size
    requires forall j | 0 <= j < |ii1| :: Mapped(v1, ii1[j])
    ensures Removed(v, ii, owner, v2, ii2, owner1, dp, ip, false)
  {
    hide SameContents, Rewritten, Mapped;
    OthersOfRewrite(v1, ii1, v2, ii2, lay, ip, ii2[ip], dp, ip);
    OthersTwice(v, ii, v1, ii1, v2, ii2, dp, ip);
    SameTwice(v, ii[ip], v1, ii1[ip], v2, ii2[ip]);
  }

  /** Putting `ip` back, which may take it out of use. */
  lemma {:induction false} PutAway(v: Disk, ii: seq<Dinode>, owner: seq<Owner>, v1: Disk, ii1: seq<Dinode>,
                                   owner1: seq<Owner>, v2: Disk, ii2: seq<Dinode>, owner2: seq<Owner>, dp: nat, ip: nat,
                                   gone: bool)
    requires Removed(v, ii, owner, v1, ii1, owner1, dp, ip, false) && |ii2| == |ii1|
    requires SameFiles(v1, ii1, v2, ii2, ip) && forall j | 0 <= j < |ii1| :: Mapped(v1, ii1[j])
    requires if gone then OutOfUse(ii2[ip]) && owner2 == Disown(owner1, ip)
      else v2 == v1 && ii2 == ii1 && owner2 == owner1
    ensures Removed(v, ii, owner, v2, ii2, owner2, dp, ip, gone)
  {
    hide SameContents, SameFiles, Mapped, Disown;
    OthersOfSame(v1, ii1, v2, ii2, ip, dp, ip);
    OthersTwice(v, ii, v1, ii1, v2, ii2, dp, ip);
  }

  lemma {:induction false} RemovedNone(v: Disk, ii: seq<Dinode>, owner: seq<Owner>, dp: nat)
    requires dp < |ii| && forall j | 0 <= j < |ii| :: Mapped(v, ii[j])
    ensures Removed(v, ii, owner, v, ii, owner, dp, dp, false)
  {
    hide Mapped;
    OthersSelf(v, ii, dp, dp);
  }

  /** The end of `sys_unlink`, with both inodes locked. */
  method RemoveEntry(log: Log, cache: IC.InodeCache, k: nat, ki: nat, ghost name: Name, off: nat, ghost dp: nat,
                     ghost ip: nat, ghost lay: Layout, ghost ii: seq<Dinode>, ghost owner: seq<Owner>,
                     ghost home: seq<Home>)
    returns (ghost ii': seq<Dinode>, ghost owner': seq<Owner>)
    requires Working(log, cache, lay, ii, owner, BaseOf(lay, dp, ip), SLACK, |ii|) && TreeOk(log.View(), ii, home)
    requires Locked(cache, ii, k, dp) && Locked(cache, ii, ki, ip) && ii[dp].typ == T_DIR
    requires Unlinkable(NodesOf(log.View(), ii), dp, name) && NodesOf(log.View(), ii)[dp].dir[name] == ip
    requires IsDir(log.View(), ii[dp]) && Whole(Contents(log.View(), ii[dp])) &&
      off == DESIZE * FirstNamed(Contents(log.View(), ii[dp]), name, 0)
    modifies log`lh, log`slot, log.bc, cache
    ensures |ii'| == |ii| && Working(log, cache, lay, ii', owner', BaseOf(lay, dp, ip), SLACK - 2, |ii|) &&
      TreeOk(log.View(), ii', home)
    ensures NodesOf(log.View(), ii') ==
      Dropped(Unlinked(NodesOf(old(log.View()), ii), dp, name), ip, old(cache.Ref(ip)) == 1)
    ensures forall j: nat :: cache.Ref(j) == old(cache.Ref(j)) - if j == dp || j == ip then 1 else 0
    ensures Removed(old(log.View()), ii, owner, log.View(), ii', owner', dp, ip,
      NodesOf(old(log.View()), ii)[ip].nlink == 1 && old(cache.Ref(ip)) == 1)
  {
    hide Log.Valid, Log.View, Trans, FitBut, AllFit, Shaped, LinksOk, IsDir, Contents, Whole, FirstNamed,
      Layout.Bitmaps, NodesOf, Rewritten, Unlinked, Severed, Dots;
    hide IC.InodeCache.Empty, IC.Placed, SameContents, SameFiles, Disown, FreesExactly, Dropped;
    ghost var ns, base, v := NodesOf(log.View(), ii), BaseOf(lay, dp, ip), log.View();
    NodeFacts(log, lay, ii, owner, base, SLACK, dp);
    NodeFacts(log, lay, ii, owner, base, SLACK, ip);
    UnlinkFacts(ns, home, dp, name);
    assert IC.CopyOk(cache.slots[ki], ii);
    SeveredThenLowered(ns, dp, name);
    ghost var ii1, owner1 :=
      CutName(log, cache, k, ki, name, off, cache.slots[ki].d.typ == T_DIR, dp, ip, lay, ii, owner);
    ghost var v1 := log.View();
    TransFacts(log, lay, ii1, owner1, base, SLACK - 2);
    SeveredTarget(ns, dp, name);
    NodeFacts(log, lay, ii1, owner1, base, SLACK - 2, ip);
    ghost var ii2 := StepLinks(log, cache, ki, false, ip, lay, ii1, owner1, base, SLACK - 2, |ii|);
    ghost var v2 := log.View();
    TransFacts(log, lay, ii2, owner1, base, SLACK - 2);
    Lowered(v, ii, owner, v1, ii1, owner1, v2, ii2, lay, dp, ip);
    DroppedOk(Unlinked(ns, dp, name), home, ip, cache.Ref(ip) == 1);
    ii', owner' := InodePut(log, cache, ki, ip, lay, ii2, owner1, base, SLACK - 2, |ii|);
    PutAway(v, ii, owner, v2, ii2, owner1, log.View(), ii', owner', dp, ip, ns[ip].nlink == 1 &&
      old(cache.Ref(ip)) == 1);
    AllFitIs(log.View(), ii');
  }

  /** The inode found under the name, referred to and locked; `done` unless it is a directory with names left. */
  method HoldChild(log: Log, cache: IC.InodeCache, k: nat, inum: nat, ghost dp: nat, ghost ns: seq<Node>,
                   ghost lay: Layout, ghost ii: seq<Dinode>, ghost owner: seq<Owner>, ghost base: set<nat>)
    returns (ki: nat, done: bool)
    requires Working(log, cache, lay, ii, owner, base, SLACK, |ii|) && AllFit(log.View(), ii)
    requires Locked(cache, ii, k, dp) && inum < |ii| && inum != dp && ii[inum].typ != 0 && cache.Empty() > 0
    requires ns == NodesOf(log.View(), ii)
    modifies log`lh, log`slot, log.bc, cache
    ensures Working(log, cache, lay, ii, owner, base, SLACK, |ii|) && log.View() == old(log.View())
    ensures Locked(cache, ii, k, dp) && Locked(cache, ii, ki, inum) && ki != k
    ensures done <==> (ns[inum].typ == T_DIR ==> forall x | x in ns[inum].dir :: Dots(x))
    ensures forall j: nat :: cache.Ref(j) == old(cache.Ref(j)) + if j == inum then 1 else 0
  {
    hide Log.Valid, Log.View, Trans, FitBut, AllFit, NodesOf, Dots, IC.InodeCache.Empty, IC.Placed;
    NodeFacts(log, lay, ii, owner, base, SLACK, inum);
    ki := GetInode(log, cache, inum, lay, ii, owner, base, SLACK, |ii|, k, dp);
    var ok := Lock(log, cache, ki, inum, lay, ii, owner, base, SLACK, |ii|);
    done := true;
    if cache.slots[ki].d.typ == T_DIR {
      FitAt(log.View(), ii, inum);
      done := IsEmpty(log, cache, ki, inum, lay, ii, owner, base, SLACK);
    }
  }

  /** `sys_unlink` once the name is found: unless it is of a directory with names left, it goes. */
  method UnlinkChild(log: Log, cache: IC.InodeCache, k: nat, inum: nat, ghost name: Name, off: nat, ghost dp: nat,
                     ghost lay: Layout, ghost ii: seq<Dinode>, ghost owner: seq<Owner>, ghost home: seq<Home>)
    returns (done: bool, ghost ii': seq<Dinode>, ghost owner': seq<Owner>)
    requires Working(log, cache, lay, ii, owner, BaseOf(lay, dp, inum), SLACK, |ii|) && TreeOk(log.View(), ii, home)
    requires Locked(cache, ii, k, dp) && ii[dp].typ == T_DIR && cache.Empty() > 0
    requires !Dots(name) && name in NodesOf(log.View(), ii)[dp].dir && NodesOf(log.View(), ii)[dp].dir[name] == inum
    requires IsDir(log.View(), ii[dp]) && Whole(Contents(log.View(), ii[dp])) &&
      off == DESIZE * FirstNamed(Contents(log.View(), ii[dp]), name, 0)
    modifies log`lh, log`slot, log.bc, cache
    ensures inum < |ii| && done == Unlinkable(NodesOf(old(log.View()), ii), dp, name)
    ensures |ii'| == |ii| && Working(log, cache, lay, ii', owner', BaseOf(lay, dp, inum), SLACK - 2, |ii|) &&
      TreeOk(log.View(), ii', home)
    ensures done ==>
      NodesOf(log.View(), ii') ==
      Dropped(Unlinked(NodesOf(old(log.View()), ii), dp, name), inum, old(cache.Ref(inum)) == 0)
    ensures done ==> forall j: nat :: cache.Ref(j) == old(cache.Ref(j)) - if j == dp then 1 else 0
    ensures done ==>
      Removed(old(log.View()), ii, owner, log.View(), ii', owner', dp, inum,
        NodesOf(old(log.View()), ii)[inum].nlink == 1 && old(cache.Ref(inum)) == 0)
    ensures !done ==>
      log.View() == old(log.View()) && ii' == ii && owner' == owner && Locked(cache, ii, k, dp) && forall j: nat ::
      cache.Ref(j) == old(cache.Ref(j))
  {
    hide Log.Valid, Log.View, FitBut, AllFit, Shaped, LinksOk, IsDir, Contents, Whole, FirstNamed, Layout.Bitmaps,
      NodesOf, Unlinked, Dots, IC.InodeCache.Empty, IC.Placed;
    hide Trans;
    ghost var ns, base := NodesOf(log.View(), ii), BaseOf(lay, dp, inum);
    NodeFacts(log, lay, ii, owner, base, SLACK, dp);
    NamedIsLinked(ns, home, dp, name);
    NotSelf(ns, home, dp, name);
    NodeFacts(log, lay, ii, owner, base, SLACK, inum);
    var ki;
    ki, done := HoldChild(log, cache, k, inum, dp, ns, lay, ii, owner, base);
    if done {
      ii', owner' := RemoveEntry(log, cache, k, ki, name, off, dp, inum, lay, ii, owner, home);
    } else {
      ii', owner' := InodePut(log, cache, ki, inum, lay, ii, owner, base, SLACK, |ii|);
      LessSlack(log, cache, lay, ii, owner, base, SLACK, SLACK - 2, |ii|);
    }
  }

  /** The transaction of `sys_unlink`, on the directory that holds the name. */
  method UnlinkIn(log: Log, cache: IC.InodeCache, k: nat, name: Name, ghost dp: nat, ghost lay: Layout,
                  ghost ii: seq<Dinode>, ghost owner: seq<Owner>, ghost home: seq<Home>)
    returns (r: int, ghost ii': seq<Dinode>, ghost owner': seq<Owner>, ghost base: set<nat>)
    requires Opened(log, cache, lay, ii, owner) && TreeOk(log.View(), ii, home)
    requires Refers(cache, ii, k, dp) && ii[dp].typ == T_DIR && cache.Empty() > 0 && IsString(name) && Cut(name) == name
    modifies log`lh, log`slot, log.bc, cache
    ensures |ii'| == |ii| && Working(log, cache, lay, ii', owner', base, 0, |ii|) && TreeOk(log.View(), ii', home)
    ensures forall j: nat :: cache.Ref(j) == old(cache.Ref(j)) - if j == dp then 1 else 0
    ensures var ns := NodesOf(old(log.View()), ii);
      if Unlinkable(ns, dp, name) then r == 0 && ns[dp].dir[name] != dp &&
        NodesOf(log.View(), ii') ==
        Dropped(Unlinked(ns, dp, name), ns[dp].dir[name], old(cache.Ref(ns[dp].dir[name])) == 0)
      else r == -1 && NodesOf(log.View(), ii') == Dropped(ns, dp, old(cache.Ref(dp)) == 1)
    ensures var ns := NodesOf(old(log.View()), ii);
      if Unlinkable(ns, dp, name) then
        Removed(old(log.View()), ii, owner, log.View(), ii', owner', dp, ns[dp].dir[name],
          ns[ns[dp].dir[name]].nlink == 1 && old(cache.Ref(ns[dp].dir[name])) == 0)
      else
        Removed(old(log.View()), ii, owner, log.View(), ii', owner', dp, dp,
          ns[dp].nlink == 0 && old(cache.Ref(dp)) == 1)
  {
    hide Log.Valid, Log.View, FitBut, AllFit, Shaped, LinksOk, IsDir, Contents, Whole, FirstNamed, Layout.Bitmaps,
      NodesOf, Unlinked, IC.InodeCache.Empty, IC.Placed;
    hide Removed, Mapped, Trans, Opened, IsString, Cut, SameContents, SameFiles, Disown, FreesExactly, Dropped;
    ghost var ns, v := NodesOf(log.View(), ii), log.View();
    ghost var ip := if name in ns[dp].dir then ns[dp].dir[name] else dp;
    base := BaseOf(lay, dp, ip);
    OpenedWorking(log, cache, lay, ii, owner, dp, ip);
    FitAt(log.View(), ii, dp);
    ghost var slack := SLACK;
    var ok := Lock(log, cache, k, dp, lay, ii, owner, base, slack, |ii|);
    r, ii', owner' := -1, ii, owner;
    if name != DOT && name != DOTDOT {
      var inum, off := Lookup(log, cache, k, name, dp, lay, ii, owner, base, slack);
      if inum != 0 {
        var done;
        done, ii', owner' := UnlinkChild(log, cache, k, inum, name, off, dp, lay, ii, owner, home);
        slack := SLACK - 2;
        if done {
          LessSlack(log, cache, lay, ii', owner', base, slack, 0, |ii|);
          return 0, ii', owner', base;
        }
      }
    }
    DroppedOk(ns, home, dp, cache.Ref(dp) == 1);
    TransFacts(log, lay, ii, owner, base, slack);
    NodeFacts(log, lay, ii, owner, base, slack, dp);
    RemovedNone(v, ii, owner, dp);
    ii', owner' := InodePut(log, cache, k, dp, lay, ii', owner', base, slack, |ii|);
    PutAway(v, ii, owner, v, ii, owner, log.View(), ii', owner', dp, dp, ns[dp].nlink == 0 && old(cache.Ref(dp)) == 1);
    LessSlack(log, cache, lay, ii', owner', base, slack, 0, |ii|);
    AllFitIs(log.View(), ii');
  }

  /** What `sys_unlink` of name `s` in directory `dp` makes of the tree. */
  ghost function UnlinkTree(ns: seq<Node>, refs: seq<nat>, dp: nat, s: Name): seq<Node>
    requires dp < |ns| == |refs|
  {
    if Unlinkable(ns, dp, s) then Dropped(Unlinked(ns, dp, s), ns[dp].dir[s], refs[ns[dp].dir[s]] == 0)
      else Dropped(ns, dp, refs[dp] == 0)
  }

  /** The inode that `sys_unlink` of name `s` in `dp` may take out of use, and when it does. */
  function Target(ns: seq<Node>, dp: nat, s: Name): (i: nat)
    requires dp < |ns|
    ensures i < |ns|
  {
    if Unlinkable(ns, dp, s) then ns[dp].dir[s] else dp
  }

  predicate TargetGoes(ns: seq<Node>, refs: seq<nat>, dp: nat, s: Name)
    requires dp < |ns| == |refs|
  {
    var i := Target(ns, dp, s);
    refs[i] == 0 && ns[i].nlink == if Unlinkable(ns, dp, s) then 1 else 0
  }

  /**
   * What a user of the tree sees of `sys_unlink`: the name is gone and no other is touched, the path from a linked
   * inode leads nowhere, and the inode is out of use exactly if this was its last name and nobody refers to it.
   */
  ghost predicate NameGone(ns: seq<Node>, refs: seq<nat>, ns': seq<Node>, start: nat, es: seq<Name>, dp: nat) {
    && |ns| == |refs| == |ns'| && dp < |ns| && es != []
    && var s := Clip(es[|es| - 1]);
    && s in ns[dp].dir && s !in ns'[dp].dir && ns[dp].dir[s] < |ns|
    && var ip := ns[dp].dir[s];
    && (ns'[ip].typ == 0 <==> ns[ip].nlink == 1 && refs[ip] == 0)
    && SameNamesBut(ns, ns', dp, s, if ns'[ip].typ == 0 then ip else |ns|)
    && (start < |ns| && ns'[start].nlink > 0 ==> Resolve(ns', refs, start, es, false) == Lost)
  }

  lemma {:induction false} UnlinkNames(ns: seq<Node>, home: seq<Home>, refs: seq<nat>, start: nat, es: seq<Name>,
                                       dp: nat)
    requires Shaped(ns, home) && LinksOk(ns) && |refs| == |ns| && Resolve(ns, refs, start, es, true) == At(dp)
    requires es != [] && dp < |ns| && Unlinkable(ns, dp, Clip(es[|es| - 1]))
    ensures NameGone(ns, refs, UnlinkTree(ns, refs, dp, Clip(es[|es| - 1])), start, es, dp)
  {
    hide Shaped, LinksOk, Resolve, Clip;
    ParentTrail(ns, refs, start, es, dp);
    var s := Clip(es[|es| - 1]);
    var ns', ip := UnlinkTree(ns, refs, dp, s), ns[dp].dir[s];
    UnlinkFacts(ns, home, dp, s);
    NamedIsLinked(ns, home, dp, s);
    DroppedOk(Unlinked(ns, dp, s), home, ip, refs[ip] == 0);
    if start < |ns| && ns'[start].nlink > 0 { PathGone(ns, ns', home, refs, start, es, dp); }
  }

  /** Whether or not the name goes, no inode is left in use that nothing leads to. */
  lemma {:induction false} UnlinkOrphans(ns: seq<Node>, home: seq<Home>, refs: seq<nat>, dp: nat, s: Name)
    requires Shaped(ns, home) && LinksOk(ns) && dp < |ns| == |refs| && ns[dp].typ == T_DIR
    ensures NoNewOrphan(ns, refs, UnlinkTree(ns, refs, dp, s), refs)
  {
    hide Shaped, LinksOk;
    if Unlinkable(ns, dp, s) { UnlinkFacts(ns, home, dp, s); }
  }

  lemma {:induction false} UnlinkSeen(v: Disk, ii: seq<Dinode>, home: seq<Home>, refs: seq<nat>, start: nat,
                                      es: seq<Name>, dp: nat, ns': seq<Node>)
    requires TreeOk(v, ii, home) && |refs| == |ii| && Resolve(NodesOf(v, ii), refs, start, es, true) == At(dp)
    requires es != [] && dp < |ii| && ns' == UnlinkTree(NodesOf(v, ii), refs, dp, Clip(es[|es| - 1]))
    ensures NoNewOrphan(NodesOf(v, ii), refs, ns', refs)
    ensures if Unlinkable(NodesOf(v, ii), dp, Clip(es[|es| - 1])) then
      NameGone(NodesOf(v, ii), refs, ns', start, es, dp)
      else NodesOf(v, ii)[dp].nlink > 0 ==> ns' == NodesOf(v, ii)
  {
    if !Unlinkable(NodesOf(v, ii), dp, Clip(es[|es| - 1])) && NodesOf(v, ii)[dp].nlink > 0 {
      assert ns' == NodesOf(v, ii);
    }
    hide Shaped, LinksOk, NodesOf, Resolve, Clip, Unlinkable, UnlinkTree, NameGone, NoNewOrphan;
    var ns, s := NodesOf(v, ii), Clip(es[|es| - 1]);
    ParentTrail(ns, refs, start, es, dp);
    UnlinkOrphans(ns, home, refs, dp, s);
    if Unlinkable(ns, dp, s) { UnlinkNames(ns, home, refs, start, es, dp); }
  }

  /** `sys_unlink` from the directory on: one reference to it is given back. */
  method UnlinkAt(log: Log, cache: IC.InodeCache, k: nat, name: Name, ghost dp: nat, ghost lay: Layout,
                  ghost ii: seq<Dinode>, ghost owner: seq<Owner>, ghost home: seq<Home>, ghost refs: seq<nat>,
                  ghost room: nat)
    returns (r: int, ghost ii': seq<Dinode>, ghost owner': seq<Owner>)
    requires Quiet(log, lay, ii, owner) && lay.size < BPB && TreeOk(log.View(), ii, home) && Refers(cache, ii, k, dp) &&
      |refs| == |ii|
    requires ii[dp].typ == T_DIR && Holding(cache, refs, dp, room) && room >= 2 && IsString(name) && Cut(name) == name
    modifies log, log.bc, cache
    ensures |ii'| == |ii| && Settled(log, cache, lay, ii', owner', home, refs) && cache.Empty() == room
    ensures NodesOf(log.View(), ii') == UnlinkTree(NodesOf(old(log.View()), ii), refs, dp, name) &&
      (r == 0 <==> Unlinkable(NodesOf(old(log.View()), ii), dp, name))
    ensures EitherWay(log.bc.a.trace, old(log.bc.a.trace), log.start, old(log.View()), log.View())
    ensures var ns := NodesOf(old(log.View()), ii);
      Removed(old(log.View()), ii, owner, log.View(), ii', owner', dp, Target(ns, dp, name),
        TargetGoes(ns, refs, dp, name))
    ensures FreesTheGone(old(log.View()), log.View(), owner, ii', lay)
  {
    hide Log.Valid, Log.View, FsOk, Table, AllFit, Shaped, LinksOk, NodesOf, IsString, Cut, IC.Copies, IC.Placed,
      IC.RefAt, IC.EmptyCount, RefIs, Dropped, Unlinked, Working, EitherWay, Removed, FreesTheGone;
    ghost var slots, at, v, ns := cache.slots, cache.at, log.View(), NodesOf(log.View(), ii);
    RefsOf(cache, refs, dp, room);
    BeginTree(log, cache, lay, ii, owner);
    ghost var base;
    r, ii', owner', base := UnlinkIn(log, cache, k, name, dp, lay, ii, owner, home);
    CacheOf(log, cache, lay, ii', owner', base, 0, |ii|);
    CommitTree(log, cache, lay, ii', owner', base);
    HoldingAgain(cache, refs, slots, at, dp);
    RemovedFrees(v, ii, owner, log.View(), ii', owner', lay, dp, Target(ns, dp, name), TargetGoes(ns, refs, dp, name));
  }

  /**
   * `sys_unlink`.  The tree afterwards is in order again, references and all; a crash on the way
   * leaves the tree before or after.  `ok` is false if the path leads out of the tree.
   */
  method Unlink(log: Log, cache: IC.InodeCache, path: Name, cwd: nat, ghost lay: Layout, ghost ii: seq<Dinode>,
                ghost owner: seq<Owner>, ghost home: seq<Home>, ghost refs: seq<nat>)
    returns (ok: bool, r: int, ghost ii': seq<Dinode>, ghost owner': seq<Owner>)
    requires Settled(log, cache, lay, ii, owner, home, refs) && IsString(path) && cache.Empty() >= 2 &&
      cwd < IC.NINODE && cache.slots[cwd].ref > 0
    modifies log, log.bc, cache
    ensures var ns, es := NodesOf(old(log.View()), ii), Elements(path, 0);
      match Resolve(ns, refs, StartOf(path, old(cache.slots[cwd].inum)), es, true)
      case Stuck => !ok && log.View() == old(log.View())
      case Lost => ok && r == -1 && log.View() == old(log.View()) && ii' == ii
      case At(dp) =>
        ok && dp < |ns| && es != [] && NodesOf(log.View(), ii') == UnlinkTree(ns, refs, dp, Clip(es[|es| - 1])) &&
        (r == 0 <==> Unlinkable(ns, dp, Clip(es[|es| - 1])))
    ensures ok ==> Settled(log, cache, lay, ii', owner', home, refs) && cache.Empty() == old(cache.Empty())
    ensures ok ==> EitherWay(log.bc.a.trace, old(log.bc.a.trace), log.start, old(log.View()), log.View())
    ensures var ns, es := NodesOf(old(log.View()), ii), Elements(path, 0);
      var p := Resolve(ns, refs, StartOf(path, old(cache.slots[cwd].inum)), es, true);
      p.At? ==>
        && FreesTheGone(old(log.View()), log.View(), owner, ii', lay)
        && Removed(old(log.View()), ii, owner, log.View(), ii', owner', p.inum, Target(ns, p.inum, LastName(path)),
           TargetGoes(ns, refs, p.inum, LastName(path)))
    ensures var ns, ns', es := NodesOf(old(log.View()), ii), NodesOf(log.View(), ii'), Elements(path, 0);
      var start := StartOf(path, old(cache.slots[cwd].inum));
      var p := Resolve(ns, refs, start, es, true);
      p.At? ==>
        && p.inum < |ns| && NoNewOrphan(ns, refs, ns', refs)
        && (r == 0 ==> NameGone(ns, refs, ns', start, es, p.inum))
        && (r != 0 && ns[p.inum].nlink > 0 ==> ns' == ns)
  {
    hide Removed, FreesTheGone, Target, TargetGoes, NameGone, NoNewOrphan;
    hide Log.Valid, Log.View, FsOk, Table, TreeOk, NodesOf, Elements, Resolve, Clip, Cut, IsString, IC.Copies,
      IC.SlotOk, IC.PlaceOk, IC.InodeCache.Empty, Unlinkable, UnlinkTree, Holding;
    ghost var v, room := log.View(), cache.Empty();
    RefsOf(cache, refs, NOWHERE, room);
    Browsable(log, lay, ii, owner, home);
    ParentIsDir(NodesOf(v, ii), refs, StartOf(path, cache.slots[cwd].inum), Elements(path, 0));
    ghost var p;
    var k, name;
    ok, k, name, p := NameX(log, cache, path, true, cwd, lay, ii, owner, refs);
    r, ii', owner' := -1, ii, owner;
    if ok && k != -1 {
      ClippedName(path, 0, |Elements(path, 0)| - 1);
      r, ii', owner' := UnlinkAt(log, cache, k, name, p.inum, lay, ii, owner, home, refs, room);
      UnlinkSeen(v, ii, home, refs, StartOf(path, old(cache.slots[cwd].inum)), Elements(path, 0), p.inum,
        NodesOf(log.View(), ii'));
    } else if ok {
      RefsOf(cache, refs, NOWHERE, room);
    }
  }
}
