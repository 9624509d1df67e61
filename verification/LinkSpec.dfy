/**
 * Link counts.  Inodes with their type, link count and, for directories, the
 * map from names to inodes.  A directory is live while its link count is
 * positive; a link count is right when it equals the number of entries in
 * live directories, other than ".", that name the inode.
 */
module LinkSpec {
  import opened DirSpec

  const ROOT := 1
  const DOT: Name := [46]
  const DOTDOT: Name := [46, 46]

  /** Link counts are signed 16-bit numbers. */
  const MAXLINK := 32767

  function Inc16(n: int): int {
    if n == MAXLINK then -MAXLINK - 1 else n + 1
  }

  datatype Node = Node(typ: nat, nlink: int, dir: map<Name, nat>) {
    predicate Live() {
      typ == T_DIR && nlink > 0
    }
  }

  predicate Dots(s: Name) {
    s == DOT || s == DOTDOT
  }

  /** The names under which a map leads to `i`, "." aside. */
  ghost function Naming(m: map<Name, nat>, i: nat): set<Name> {
    set s | s in m && s != DOT && m[s] == i
  }

  /** What one inode adds to the count of `i`. */
  ghost function Part(n: Node, i: nat): nat {
    if n.Live() then |Naming(n.dir, i)| else 0
  }

  ghost function Count(ns: seq<Node>, i: nat, n: nat): nat
    requires n <= |ns|
  {
    if n == 0 then 0 else Count(ns, i, n - 1) + Part(ns[n - 1], i)
  }

  ghost predicate LinkOk(ns: seq<Node>, i: nat)
    requires i < |ns|
  {
    ns[i].nlink == Count(ns, i, |ns|)
  }

  ghost predicate LinksOk(ns: seq<Node>) {
    forall i: nat | i < |ns| :: LinkOk(ns, i)
  }

  lemma {:induction false} CountUpdate(ns: seq<Node>, k: nat, x: Node, i: nat, n: nat)
    requires n <= |ns| && k < |ns|
    ensures Count(ns[k := x], i, n) == Count(ns, i, n) + if k < n then Part(x, i) - Part(ns[k], i) else 0
  {
    if n > 0 { CountUpdate(ns, k, x, i, n - 1); }
  }

  lemma {:induction false} CountAtLeast(ns: seq<Node>, i: nat, n: nat, k: nat)
    requires k < n <= |ns|
    ensures Count(ns, i, n) >= Part(ns[k], i)
  {
    if k < n - 1 { CountAtLeast(ns, i, n - 1, k); }
  }

  lemma {:induction false} CountTwo(ns: seq<Node>, i: nat, n: nat, j: nat, k: nat)
    requires j < n <= |ns| && k < n && j != k
    ensures Count(ns, i, n) >= Part(ns[j], i) + Part(ns[k], i)
  {
    if j < n - 1 && k < n - 1 {
      CountTwo(ns, i, n - 1, j, k);
    } else {
      CountAtLeast(ns, i, n - 1, if j == n - 1 then k else j);
    }
  }

  /** If only one inode names `i`, the count is its part. */
  lemma {:induction false} CountOne(ns: seq<Node>, i: nat, n: nat, k: nat)
    requires n <= |ns| && k < |ns| && forall j | 0 <= j < |ns| && j != k :: Part(ns[j], i) == 0
    ensures Count(ns, i, n) == if k < n then Part(ns[k], i) else 0
  {
    if n > 0 { CountOne(ns, i, n - 1, k); }
  }

  lemma {:induction false} NamingAdd(m: map<Name, nat>, s: Name, v: nat, i: nat)
    requires s !in m
    ensures |Naming(m[s := v], i)| == |Naming(m, i)| + if s != DOT && v == i then 1 else 0
  {
    if s != DOT && v == i {
      assert Naming(m[s := v], i) == Naming(m, i) + {s};
    } else {
      assert Naming(m[s := v], i) == Naming(m, i);
    }
  }

  lemma {:induction false} NamingRemove(m: map<Name, nat>, s: Name, i: nat)
    requires s in m
    ensures |Naming(m - {s}, i)| == |Naming(m, i)| - if s != DOT && m[s] == i then 1 else 0
  {
    var m' := m - {s};
    NamingAdd(m', s, m[s], i);
    assert m'[s := m[s]] == m;
  }

  lemma {:induction false} NamingHas(m: map<Name, nat>, s: Name)
    requires s in m && s != DOT
    ensures |Naming(m, m[s])| >= 1
  {
    assert s in Naming(m, m[s]);
  }

  // The shape of the tree

  /** Where a directory hangs: its parent, its name there, and how far below the root it is. */
  datatype Home = Home(parent: nat, name: Name, depth: nat)

  /** A live directory has its dots, and hangs at its home; the root is its own parent. */
  ghost predicate DirShape(ns: seq<Node>, home: seq<Home>, d: nat)
    requires d < |ns| == |home|
  {
    ns[d].Live() ==>
      && DOT in ns[d].dir && ns[d].dir[DOT] == d && DOTDOT in ns[d].dir
      && (d == ROOT ==> ns[d].dir[DOTDOT] == ROOT)
      && (d != ROOT ==>
          var h := home[d];
          && h.parent < |ns| && ns[h.parent].Live() && !Dots(h.name) && h.name in ns[h.parent].dir
          && ns[h.parent].dir[h.name] == d && ns[d].dir[DOTDOT] == h.parent && h.depth == home[h.parent].depth + 1)
  }

  /** Entry `s` of directory `e` names an inode in use, and a directory only from that directory's home. */
  ghost predicate EntryShape(ns: seq<Node>, home: seq<Home>, e: nat, s: Name)
    requires e < |ns| == |home| && s in ns[e].dir
  {
    var t := ns[e].dir[s];
    t < |ns| && ns[t].typ != 0 &&
      (!Dots(s) && ns[t].typ == T_DIR ==> t != ROOT && home[t].parent == e && home[t].name == s)
  }

  ghost predicate NodeShape(ns: seq<Node>, home: seq<Home>, e: nat)
    requires e < |ns| == |home|
  {
    && DirShape(ns, home, e)
    && (ns[e].Live() ==> forall s | s in ns[e].dir :: EntryShape(ns, home, e, s))
    && (!ns[e].Live() && ns[e].typ == T_DIR ==> forall s | s in ns[e].dir :: Dots(s))
    && (ns[e].typ == 0 ==> ns[e].nlink == 0)
    && (ns[e].typ == T_DIR ==> DOT in ns[e].dir && ns[e].dir[DOT] == e && DOTDOT in ns[e].dir)
    && (ns[e].typ == T_DIR && !ns[e].Live() ==> ns[e].dir[DOTDOT] < |ns| && ns[e].dir[DOTDOT] != e)
  }

  /** Inode 0 is never used, the root is there, and every inode is in shape. */
  ghost predicate Shaped(ns: seq<Node>, home: seq<Home>) {
    |ns| == |home| && ROOT < |ns| && ns[0].typ == 0 && ns[ROOT].Live() && forall e: nat | e < |ns| ::
      NodeShape(ns, home, e)
  }

  /** An inode that a live directory names has a positive count: the "nlink < 1" panic cannot be reached. */
  lemma {:induction false} NamedIsLinked(ns: seq<Node>, home: seq<Home>, e: nat, s: Name)
    requires Shaped(ns, home) && LinksOk(ns) && e < |ns| && ns[e].typ == T_DIR && s in ns[e].dir && !Dots(s)
    ensures ns[e].Live() && ns[e].dir[s] < |ns| && ns[ns[e].dir[s]].typ != 0 && ns[ns[e].dir[s]].nlink >= 1
  {
    assert NodeShape(ns, home, e);
    assert EntryShape(ns, home, e, s);
    var t := ns[e].dir[s];
    NamingHas(ns[e].dir, s);
    CountAtLeast(ns, t, |ns|, e);
    assert LinkOk(ns, t);
  }

  /** No directory names itself, other than by its dots: `sys_unlink` never locks the same inode twice. */
  lemma {:induction false} NotSelf(ns: seq<Node>, home: seq<Home>, e: nat, s: Name)
    requires Shaped(ns, home) && e < |ns| && ns[e].typ == T_DIR && s in ns[e].dir && !Dots(s)
    ensures ns[e].dir[s] != e
  {
    assert NodeShape(ns, home, e);
  }

  /** No live directory has inode `i` as its parent when `i` has only its dots. */
  lemma {:induction false} EmptyHasNoChild(ns: seq<Node>, home: seq<Home>, i: nat, k: nat)
    requires Shaped(ns, home) && i < |ns| && i != ROOT && k < |ns| && ns[k].Live() && forall s | s in ns[i].dir ::
      Dots(s)
    ensures DOTDOT in ns[k].dir && ns[k].dir[DOTDOT] != i
  {
    assert NodeShape(ns, home, k) && NodeShape(ns, home, i);
  }

  /** An empty directory is named once, from its home. */
  lemma {:induction false} EmptyDirCount(ns: seq<Node>, home: seq<Home>, e: nat, s: Name)
    requires Shaped(ns, home) && LinksOk(ns) && e < |ns| && ns[e].Live() && s in ns[e].dir && !Dots(s)
    requires var i := ns[e].dir[s]; i < |ns| && ns[i].typ == T_DIR && forall x | x in ns[i].dir :: Dots(x)
    ensures var i := ns[e].dir[s];
      i != ROOT && i != e && ns[i].nlink == 1 && DOTDOT in ns[i].dir && ns[i].dir[DOTDOT] == e
  {
    var i := ns[e].dir[s];
    assert NodeShape(ns, home, e) && NodeShape(ns, home, i);
    assert EntryShape(ns, home, e, s);
    forall k | 0 <= k < |ns| && k != e
      ensures Part(ns[k], i) == 0
    {
      OnlyHomeNames(ns, home, e, s, k);
    }
    CountOne(ns, i, |ns|, e);
    OnlyHomeNames(ns, home, e, s, e);
    assert LinkOk(ns, i);
  }

  lemma {:induction false} OnlyHomeNames(ns: seq<Node>, home: seq<Home>, e: nat, s: Name, k: nat)
    requires Shaped(ns, home) && e < |ns| && ns[e].Live() && s in ns[e].dir && !Dots(s) && k < |ns|
    requires var i := ns[e].dir[s]; i < |ns| && ns[i].typ == T_DIR && forall x | x in ns[i].dir :: Dots(x)
    ensures Part(ns[k], ns[e].dir[s]) == if k == e then 1 else 0
  {
    var i := ns[e].dir[s];
    assert NodeShape(ns, home, e) && NodeShape(ns, home, k);
    assert EntryShape(ns, home, e, s);
    if ns[k].Live() {
      EmptyHasNoChild(ns, home, i, k);
      forall x | x in Naming(ns[k].dir, i)
        ensures k == e && x == s
      {
        assert EntryShape(ns, home, k, x);
      }
      assert Naming(ns[k].dir, i) == if k == e then {s} else {};
    }
  }
}
