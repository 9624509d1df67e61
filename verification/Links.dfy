/** Creating, linking and unlinking: the updates of inodes and directories, and the link counts they keep. */
module Links {
  import opened DirSpec
  import opened LinkSpec

  function DotsOf(ip: nat, dp: nat): map<Name, nat> {
    map[DOT := ip, DOTDOT := dp]
  }

  /** `create` under a new name. */
  function Created(ns: seq<Node>, dp: nat, s: Name, ip: nat, typ: nat): (r: seq<Node>)
    requires dp < |ns| && ip < |ns|
    ensures |r| == |ns|
  {
    var child := Node(typ, 1, if typ == T_DIR then DotsOf(ip, dp) else map[]);
    var parent := Node(ns[dp].typ, if typ == T_DIR then Inc16(ns[dp].nlink) else ns[dp].nlink, ns[dp].dir[s := ip]);
    ns[ip := child][dp := parent]
  }

  /** One more name in directory `dp`. */
  function WithName(ns: seq<Node>, dp: nat, s: Name, i: nat): (r: seq<Node>)
    requires dp < |ns|
    ensures |r| == |ns|
  {
    ns[dp := ns[dp].(dir := ns[dp].dir[s := i])]
  }

  /** `sys_link` that goes through. */
  function Linked(ns: seq<Node>, ip: nat, dp: nat, s: Name): (r: seq<Node>)
    requires dp < |ns| && ip < |ns|
    ensures |r| == |ns|
  {
    ns[ip := ns[ip].(nlink := Inc16(ns[ip].nlink))][dp := ns[dp].(dir := ns[dp].dir[s := ip])]
  }

  /** `sys_unlink` that goes through. */
  function Unlinked(ns: seq<Node>, dp: nat, s: Name): (r: seq<Node>)
    requires dp < |ns| && s in ns[dp].dir && ns[dp].dir[s] < |ns|
    ensures |r| == |ns|
  {
    var ip := ns[dp].dir[s];
    var parent := Node(ns[dp].typ, ns[dp].nlink - (if ns[ip].typ == T_DIR then 1 else 0), ns[dp].dir - {s});
    ns[dp := parent][ip := ns[ip].(nlink := ns[ip].nlink - 1)]
  }

  lemma {:induction false} DotsPart(ip: nat, dp: nat, i: nat)
    ensures |Naming(DotsOf(ip, dp), i)| == if i == dp then 1 else 0
  {
    assert DOT != DOTDOT by { assert |DOT| != |DOTDOT|; }
    assert Naming(DotsOf(ip, dp), i) == if i == dp then {DOTDOT} else {};
  }

  /** Counts after a creation in a live directory. */
  lemma {:induction false} CreatedLink(ns: seq<Node>, dp: nat, s: Name, ip: nat, typ: nat, i: nat)
    requires LinksOk(ns) && dp < |ns| && ip < |ns| && i < |ns| && dp != ip && ns[dp].Live() && s !in ns[dp].dir &&
      s != DOT
    requires ns[ip].typ == 0 && ns[ip].nlink == 0 && (typ == T_DIR ==> ns[dp].nlink < MAXLINK)
    ensures LinkOk(Created(ns, dp, s, ip, typ), i)
  {
    assert LinkOk(ns, i);
    var child := Created(ns, dp, s, ip, typ)[ip];
    var parent := Created(ns, dp, s, ip, typ)[dp];
    CountUpdate(ns, ip, child, i, |ns|);
    CountUpdate(ns[ip := child], dp, parent, i, |ns|);
    NamingAdd(ns[dp].dir, s, ip, i);
    DotsPart(ip, dp, i);
    assert Naming(map[], i) == {};
  }

  lemma {:induction false} LinkedLink(ns: seq<Node>, ip: nat, dp: nat, s: Name, i: nat)
    requires LinksOk(ns) && dp < |ns| && ip < |ns| && i < |ns| && dp != ip && ns[dp].Live() && ns[ip].typ != T_DIR &&
      s !in ns[dp].dir && s != DOT
    requires ns[ip].nlink < MAXLINK
    ensures LinkOk(Linked(ns, ip, dp, s), i)
  {
    assert LinkOk(ns, i);
    var target, parent := Linked(ns, ip, dp, s)[ip], Linked(ns, ip, dp, s)[dp];
    CountUpdate(ns, ip, target, i, |ns|);
    CountUpdate(ns[ip := target], dp, parent, i, |ns|);
    NamingAdd(ns[dp].dir, s, ip, i);
  }

  lemma {:induction false} UnlinkedLink(ns: seq<Node>, dp: nat, s: Name, i: nat)
    requires LinksOk(ns) && dp < |ns| && s in ns[dp].dir && !Dots(s) && i < |ns| && ns[dp].Live()
    requires var ip := ns[dp].dir[s];
      && ip < |ns| && ip != dp && ns[ip].nlink > 0
      && (ns[ip].typ == T_DIR ==> ns[dp].nlink > 1 && ns[ip].nlink == 1 && ns[ip].dir == DotsOf(ip, dp))
    ensures LinkOk(Unlinked(ns, dp, s), i)
  {
    assert LinkOk(ns, i);
    var ip := ns[dp].dir[s];
    var target, parent := Unlinked(ns, dp, s)[ip], Unlinked(ns, dp, s)[dp];
    CountUpdate(ns, dp, parent, i, |ns|);
    CountUpdate(ns[dp := parent], ip, target, i, |ns|);
    NamingRemove(ns[dp].dir, s, i);
    DotsPart(ip, dp, i);
  }

  // Shape

  lemma {:induction false} CreatedEntry(ns: seq<Node>, home: seq<Home>, dp: nat, s: Name, ip: nat, typ: nat, e: nat,
                                        x: Name)
    requires |ns| == |home| && ROOT < |ns| && dp < |ns| && ip < |ns| && e < |ns| && dp != ip && e != ip && ip != ROOT &&
      ns[dp].typ != 0
    requires ns[ip].typ == 0 && (typ == T_DIR || typ == T_FILE) && x in Created(ns, dp, s, ip, typ)[e].dir
    requires !(e == dp && x == s) ==> x in ns[e].dir && EntryShape(ns, home, e, x)
    ensures EntryShape(Created(ns, dp, s, ip, typ), home[ip := Home(dp, s, home[dp].depth + 1)], e, x)
  {
  }

  lemma {:induction false} CreatedDir(ns: seq<Node>, home: seq<Home>, dp: nat, s: Name, ip: nat, typ: nat, e: nat)
    requires |ns| == |home| && ROOT < |ns| && dp < |ns| && ip < |ns| && e < |ns| && dp != ip && ip != ROOT && !Dots(s)
    requires ns[ip].typ == 0 && ns[dp].Live() && s !in ns[dp].dir && DirShape(ns, home, e) &&
      (typ == T_DIR ==> ns[dp].nlink < MAXLINK)
    ensures DirShape(Created(ns, dp, s, ip, typ), home[ip := Home(dp, s, home[dp].depth + 1)], e)
  {
    assert DOT != DOTDOT by { assert |DOT| != |DOTDOT|; }
  }

  lemma {:induction false} CreatedShape(ns: seq<Node>, home: seq<Home>, dp: nat, s: Name, ip: nat, typ: nat, e: nat)
    requires Shaped(ns, home) && dp < |ns| && ip < |ns| && e < |ns| && ns[dp].Live() && s !in ns[dp].dir
    requires ns[ip].typ == 0 && (typ == T_DIR || typ == T_FILE) && (typ == T_DIR ==> ns[dp].nlink < MAXLINK)
    ensures dp != ip && ip != ROOT && !Dots(s) &&
      NodeShape(Created(ns, dp, s, ip, typ), home[ip := Home(dp, s, home[dp].depth + 1)], e)
  {
    assert NodeShape(ns, home, e) && NodeShape(ns, home, dp);
    var ns', home' := Created(ns, dp, s, ip, typ), home[ip := Home(dp, s, home[dp].depth + 1)];
    CreatedDir(ns, home, dp, s, ip, typ, e);
    if ns'[e].Live() {
      forall x | x in ns'[e].dir
        ensures EntryShape(ns', home', e, x)
      {
        if e != ip {
          if !(e == dp && x == s) { assert EntryShape(ns, home, e, x); }
          CreatedEntry(ns, home, dp, s, ip, typ, e, x);
        }
      }
    }
    hide DirShape, EntryShape;
  }

  lemma {:induction false} LinkedShape(ns: seq<Node>, home: seq<Home>, ip: nat, dp: nat, s: Name, e: nat)
    requires Shaped(ns, home) && dp < |ns| && ip < |ns| && e < |ns| && ns[dp].Live() && s !in ns[dp].dir
    requires ns[ip].typ != T_DIR && ns[ip].typ != 0
    ensures !Dots(s) && NodeShape(Linked(ns, ip, dp, s), home, e)
  {
    assert NodeShape(ns, home, e) && NodeShape(ns, home, dp);
    var ns' := Linked(ns, ip, dp, s);
    if ns[e].Live() {
      forall x | x in ns'[e].dir
        ensures EntryShape(ns', home, e, x)
      {
        if e != dp || x != s { assert EntryShape(ns, home, e, x); }
      }
    }
  }

  /** The parent of an empty directory is linked at least twice. */
  lemma {:induction false} ParentCount(ns: seq<Node>, home: seq<Home>, dp: nat, s: Name)
    requires Shaped(ns, home) && LinksOk(ns) && dp < |ns| && ns[dp].Live() && s in ns[dp].dir && !Dots(s)
    requires var ip := ns[dp].dir[s]; ip < |ns| && ns[ip].typ == T_DIR && forall x | x in ns[ip].dir :: Dots(x)
    ensures ns[dp].nlink > 1
  {
    var ip := ns[dp].dir[s];
    EmptyDirCount(ns, home, dp, s);
    assert NodeShape(ns, home, dp) && NodeShape(ns, home, ip) && LinkOk(ns, dp);
    NamingHas(ns[ip].dir, DOTDOT);
    if dp == ROOT {
      NamingHas(ns[dp].dir, DOTDOT);
      CountTwo(ns, dp, |ns|, dp, ip);
    } else {
      NamingHas(ns[home[dp].parent].dir, home[dp].name);
      CountTwo(ns, dp, |ns|, home[dp].parent, ip);
    }
  }

  /** An empty directory holds its dots and nothing else. */
  lemma {:induction false} EmptyDir(ns: seq<Node>, home: seq<Home>, dp: nat, s: Name)
    requires Shaped(ns, home) && LinksOk(ns) && dp < |ns| && ns[dp].Live() && s in ns[dp].dir && !Dots(s)
    requires var ip := ns[dp].dir[s]; ip < |ns| && ns[ip].typ == T_DIR && forall x | x in ns[ip].dir :: Dots(x)
    ensures ns[ns[dp].dir[s]].dir == DotsOf(ns[dp].dir[s], dp)
  {
    var ip := ns[dp].dir[s];
    EmptyDirCount(ns, home, dp, s);
    assert NodeShape(ns, home, ip);
  }

  lemma {:induction false} UnlinkedDir(ns: seq<Node>, home: seq<Home>, dp: nat, s: Name, e: nat)
    requires Shaped(ns, home) && dp < |ns| && ns[dp].Live() && s in ns[dp].dir && !Dots(s) && e < |ns|
    requires var ip := ns[dp].dir[s];
      ip < |ns| && ip != dp && ns[ip].nlink > 0 &&
        (ns[ip].typ == T_DIR ==> ns[dp].nlink > 1 && ip != ROOT && ns[ip].nlink == 1 && ns[ip].dir == DotsOf(ip, dp))
    ensures DirShape(Unlinked(ns, dp, s), home, e)
  {
    var ip, ns' := ns[dp].dir[s], Unlinked(ns, dp, s);
    assert NodeShape(ns, home, e);
    if ns'[e].Live() && e != ROOT && ns[ip].typ == T_DIR { EmptyHasNoChild(ns, home, ip, e); }
    hide Shaped, NodeShape, EntryShape;
  }

  lemma {:induction false} UnlinkedShape(ns: seq<Node>, home: seq<Home>, dp: nat, s: Name, e: nat)
    requires Shaped(ns, home) && LinksOk(ns) && dp < |ns| && ns[dp].Live() && s in ns[dp].dir && !Dots(s) && e < |ns|
    requires var ip := ns[dp].dir[s];
      ip < |ns| && ip != dp && ns[ip].nlink > 0 &&
        (ns[ip].typ == T_DIR ==> ns[dp].nlink > 1 && ip != ROOT && ns[ip].nlink == 1 && ns[ip].dir == DotsOf(ip, dp))
    ensures NodeShape(Unlinked(ns, dp, s), home, e)
  {
    var ip, ns' := ns[dp].dir[s], Unlinked(ns, dp, s);
    assert NodeShape(ns, home, e) && NodeShape(ns, home, ip);
    UnlinkedDir(ns, home, dp, s, e);
    hide DirShape;
    if ns'[e].Live() {
      forall x | x in ns'[e].dir
        ensures EntryShape(ns', home, e, x)
      {
        assert EntryShape(ns, home, e, x);
      }
    }
  }

  lemma {:induction false} FreedShape(ns: seq<Node>, home: seq<Home>, ip: nat, e: nat)
    requires Shaped(ns, home) && LinksOk(ns) && ip < |ns| && e < |ns| && ns[ip].nlink == 0
    ensures NodeShape(ns[ip := Node(0, 0, map[])], home, e)
  {
    var ns' := ns[ip := Node(0, 0, map[])];
    assert NodeShape(ns, home, e) && LinkOk(ns, ip);
    if ns'[e].Live() {
      forall x | x in ns'[e].dir
        ensures EntryShape(ns', home, e, x)
      {
        assert EntryShape(ns, home, e, x);
        if x != DOT && ns[e].dir[x] == ip {
          NamingHas(ns[e].dir, x);
          CountAtLeast(ns, ip, |ns|, e);
        }
      }
    }
  }

  // Failure in a directory that is no longer linked

  /** Creating in a directory that has been unlinked leaves some link count wrong. */
  lemma {:induction false} CreatedInDead(ns: seq<Node>, home: seq<Home>, dp: nat, s: Name, ip: nat, typ: nat)
    requires Shaped(ns, home) && LinksOk(ns) && dp < |ns| && ip < |ns| && ns[dp].typ == T_DIR && ns[dp].nlink == 0 &&
      s !in ns[dp].dir
    requires ns[ip].typ == 0 && (typ == T_DIR || typ == T_FILE)
    ensures dp != ip && !LinksOk(Created(ns, dp, s, ip, typ))
  {
    assert NodeShape(ns, home, dp) && NodeShape(ns, home, ip);
    var ns' := Created(ns, dp, s, ip, typ);
    var i := if typ == T_DIR then ns[dp].dir[DOTDOT] else ip;
    CountUpdate(ns, ip, ns'[ip], i, |ns|);
    CountUpdate(ns[ip := ns'[ip]], dp, ns'[dp], i, |ns|);
    assert LinkOk(ns, i);
    if typ == T_DIR {
      NamingAdd(ns[dp].dir, s, ip, i);
      NamingHas(ns[dp].dir, DOTDOT);
      DotsPart(ip, dp, i);
      assert !LinkOk(ns', i);
    } else {
      assert !LinkOk(ns', i);
    }
  }

  lemma {:induction false} LinkedInDead(ns: seq<Node>, ip: nat, dp: nat, s: Name)
    requires LinksOk(ns) && dp < |ns| && ip < |ns| && ns[dp].typ == T_DIR && ns[dp].nlink == 0 && ns[ip].typ != T_DIR
    ensures !LinksOk(Linked(ns, ip, dp, s))
  {
    var ns' := Linked(ns, ip, dp, s);
    CountUpdate(ns, ip, ns'[ip], ip, |ns|);
    CountUpdate(ns[ip := ns'[ip]], dp, ns'[dp], ip, |ns|);
    assert LinkOk(ns, ip) && !LinkOk(ns', ip);
  }

  lemma {:induction false} RootOnly(n: nat)
    requires n > ROOT
    ensures var ns, home :=
      seq(n, _ => Node(0, 0, map[]))[ROOT := Node(T_DIR, 1, DotsOf(ROOT, ROOT))], seq(n, _ => Home(ROOT, [], 0));
      Shaped(ns, home) && LinksOk(ns)
  {
    var ns, home :=
      seq(n, _ => Node(0, 0, map[]))[ROOT := Node(T_DIR, 1, DotsOf(ROOT, ROOT))], seq(n, _ => Home(ROOT, [], 0));
    assert DOT != DOTDOT by { assert |DOT| != |DOTDOT|; }
    forall i: nat | i < n
      ensures LinkOk(ns, i)
    {
      DotsPart(ROOT, ROOT, i);
      CountOne(ns, i, n, ROOT);
    }
    forall e: nat | e < n
      ensures NodeShape(ns, home, e)
    {
      if e == ROOT {
        forall x | x in ns[e].dir
          ensures EntryShape(ns, home, e, x)
        {
        }
      }
    }
  }

  lemma {:induction false} CreatedOk(ns: seq<Node>, home: seq<Home>, dp: nat, s: Name, ip: nat, typ: nat)
    requires Shaped(ns, home) && LinksOk(ns) && dp < |ns| && ip < |ns| && ns[dp].Live() && s !in ns[dp].dir
    requires ip != 0 && ns[ip].typ == 0 && (typ == T_DIR || typ == T_FILE) && (typ == T_DIR ==> ns[dp].nlink < MAXLINK)
    ensures Shaped(Created(ns, dp, s, ip, typ), home[ip := Home(dp, s, home[dp].depth + 1)]) &&
      LinksOk(Created(ns, dp, s, ip, typ))
  {
    var ns', home' := Created(ns, dp, s, ip, typ), home[ip := Home(dp, s, home[dp].depth + 1)];
    assert NodeShape(ns, home, ip);
    CreatedShape(ns, home, dp, s, ip, typ, 0);
    hide NodeShape, LinkOk;
    forall e: nat | e < |ns|
      ensures NodeShape(ns', home', e) && LinkOk(ns', e)
    {
      CreatedShape(ns, home, dp, s, ip, typ, e);
      CreatedLink(ns, dp, s, ip, typ, e);
    }
  }

  /** The counts are right after a creation exactly when the directory is linked and its count does not overflow. */
  lemma {:induction false} CreatedExact(ns: seq<Node>, home: seq<Home>, dp: nat, s: Name, ip: nat, typ: nat)
    requires Shaped(ns, home) && LinksOk(ns) && dp < |ns| && ip < |ns| && ns[dp].typ == T_DIR && s !in ns[dp].dir
    requires ip != 0 && ns[ip].typ == 0 && (typ == T_DIR || typ == T_FILE) && ns[dp].nlink <= MAXLINK
    ensures var ns' := Created(ns, dp, s, ip, typ);
      && (LinksOk(ns') <==> ns[dp].Live() && (typ == T_DIR ==> ns[dp].nlink < MAXLINK))
      && (LinksOk(ns') ==> Shaped(ns', home[ip := Home(dp, s, home[dp].depth + 1)]))
  {
    assert LinkOk(ns, dp);
    if !ns[dp].Live() {
      CreatedInDead(ns, home, dp, s, ip, typ);
    } else if typ == T_DIR && ns[dp].nlink == MAXLINK {
      assert NodeShape(ns, home, dp) && !LinkOk(Created(ns, dp, s, ip, typ), dp);
    } else {
      CreatedOk(ns, home, dp, s, ip, typ);
    }
  }

  lemma {:induction false} LinkedOk(ns: seq<Node>, home: seq<Home>, ip: nat, dp: nat, s: Name)
    requires Shaped(ns, home) && LinksOk(ns) && dp < |ns| && ip < |ns| && ns[dp].Live() && s !in ns[dp].dir
    requires ns[ip].typ != T_DIR && ns[ip].typ != 0 && ns[ip].nlink < MAXLINK
    ensures Shaped(Linked(ns, ip, dp, s), home) && LinksOk(Linked(ns, ip, dp, s))
  {
    hide NodeShape, LinkOk;
    forall e: nat | e < |ns|
      ensures NodeShape(Linked(ns, ip, dp, s), home, e) && LinkOk(Linked(ns, ip, dp, s), e)
    {
      LinkedShape(ns, home, ip, dp, s, e);
      LinkedLink(ns, ip, dp, s, e);
    }
  }

  /** The counts are right after a link exactly when the directory is linked and the inode's count does not overflow. */
  lemma {:induction false} LinkedExact(ns: seq<Node>, home: seq<Home>, ip: nat, dp: nat, s: Name)
    requires Shaped(ns, home) && LinksOk(ns) && dp < |ns| && ip < |ns| && ns[dp].typ == T_DIR && s !in ns[dp].dir
    requires ns[ip].typ != T_DIR && ns[ip].typ != 0 && ns[ip].nlink <= MAXLINK
    ensures var ns' := Linked(ns, ip, dp, s);
      (LinksOk(ns') <==> ns[dp].Live() && ns[ip].nlink < MAXLINK) && (LinksOk(ns') ==> Shaped(ns', home))
  {
    assert LinkOk(ns, dp) && LinkOk(ns, ip);
    if ns[ip].nlink == MAXLINK {
      assert !LinkOk(Linked(ns, ip, dp, s), ip);
    } else if !ns[dp].Live() {
      LinkedInDead(ns, ip, dp, s);
    } else {
      LinkedOk(ns, home, ip, dp, s);
    }
  }

  lemma {:induction false} UnlinkedOk(ns: seq<Node>, home: seq<Home>, dp: nat, s: Name)
    requires Shaped(ns, home) && LinksOk(ns) && dp < |ns| && ns[dp].Live() && s in ns[dp].dir && !Dots(s)
    requires var ip := ns[dp].dir[s];
      ip < |ns| && ns[ip].nlink > 0 && (ns[ip].typ == T_DIR ==> forall x | x in ns[ip].dir :: Dots(x))
    ensures ns[ns[dp].dir[s]].typ == T_DIR ==> ns[dp].nlink > 1
    ensures ns[dp].dir[s] != dp && Shaped(Unlinked(ns, dp, s), home) && LinksOk(Unlinked(ns, dp, s))
  {
    var ip := ns[dp].dir[s];
    if ns[ip].typ == T_DIR {
      EmptyDirCount(ns, home, dp, s);
      ParentCount(ns, home, dp, s);
      EmptyDir(ns, home, dp, s);
    }
    assert ip != dp;
    hide NodeShape, LinkOk;
    forall e: nat | e < |ns|
      ensures NodeShape(Unlinked(ns, dp, s), home, e) && LinkOk(Unlinked(ns, dp, s), e)
    {
      UnlinkedShape(ns, home, dp, s, e);
      UnlinkedLink(ns, dp, s, e);
    }
  }

  /** What dropping a reference does to the tree: at the last one, an inode without links goes out of use. */
  function Dropped(ns: seq<Node>, i: nat, last: bool): (r: seq<Node>)
    requires i < |ns|
    ensures |r| == |ns|
  {
    if last && ns[i].nlink == 0 then ns[i := Node(0, 0, map[])] else ns
  }

  /** Dropping a reference makes no link count right or wrong, and leaves no name dangling. */
  lemma {:induction false} DroppedOk(ns: seq<Node>, home: seq<Home>, i: nat, last: bool)
    requires i < |ns|
    ensures LinksOk(Dropped(ns, i, last)) <==> LinksOk(ns)
    ensures Shaped(ns, home) && LinksOk(ns) ==> Shaped(Dropped(ns, i, last), home)
  {
    var ns' := Dropped(ns, i, last);
    if last && ns[i].nlink == 0 {
      forall j: nat | j < |ns|
        ensures LinkOk(ns', j) <==> LinkOk(ns, j)
      {
        CountUpdate(ns, i, Node(0, 0, map[]), j, |ns|);
      }
      if LinksOk(ns) {
        forall j: nat | j < |ns|
          ensures LinkOk(ns', j)
        {
          assert LinkOk(ns, j);
        }
      }
      if LinksOk(ns') {
        forall j: nat | j < |ns|
          ensures LinkOk(ns, j)
        {
          assert LinkOk(ns', j);
        }
      }
      if Shaped(ns, home) && LinksOk(ns) {
        forall e: nat | e < |ns|
          ensures NodeShape(ns', home, e)
        {
          FreedShape(ns, home, i, e);
        }
      }
    }
  }
}
