/**
 * Where a path leads, in the tree of inodes and names.  A walk can also end
 * badly: a directory that was unlinked while in use still has its "..", and
 * the inode this names may be gone by now.
 */
module Walks {
  import opened DirSpec
  import opened PathSpec
  import opened LinkSpec

  /** The end of a walk: an inode, nowhere, or an inode that cannot be entered and left again. */
  datatype Place = At(inum: nat) | Lost | Stuck

  /** Inode `i` is not in use, or only until it is next put back: it has no link, and no reference but the walk's. */
  predicate Loose(ns: seq<Node>, refs: seq<nat>, i: nat) {
    i >= |ns| || ns[i].typ == 0 || (ns[i].nlink == 0 && (i < |refs| ==> refs[i] == 0))
  }

  /** A directory without links that someone still refers to. */
  predicate Kept(ns: seq<Node>, refs: seq<nat>, i: nat) {
    i < |ns| && ns[i].typ == T_DIR && ns[i].nlink == 0 && i < |refs| && refs[i] > 0
  }

  /** Looking up `s` in inode `i` locks an inode not in use, or puts back one that goes out of use. */
  predicate Trap(ns: seq<Node>, refs: seq<nat>, i: nat, s: Name) {
    Loose(ns, refs, i) && !(i < |ns| && ns[i].typ == T_DIR && s in ns[i].dir && ns[i].dir[s] == i)
  }

  /** One round of the loop in `namex`. */
  function Next(ns: seq<Node>, refs: seq<nat>, p: Place, s: Name): Place {
    match p
    case At(i) =>
      if Trap(ns, refs, i, s) then Stuck
      else if ns[i].typ != T_DIR || s !in ns[i].dir then Lost
      else At(ns[i].dir[s])
    case _ => p
  }

  /** Where the first `n` elements lead from inode `i`. */
  function Walk(ns: seq<Node>, refs: seq<nat>, i: nat, es: seq<Name>, n: nat): Place
    requires n <= |es|
  {
    if n == 0 then At(i) else Next(ns, refs, Walk(ns, refs, i, es, n - 1), Clip(es[n - 1]))
  }

  /** The directory that a walk to a parent ends in: it is locked, but not put back. */
  function Enter(ns: seq<Node>, refs: seq<nat>, p: Place): Place {
    match p
    case At(i) =>
      if i >= |ns| || ns[i].typ == 0 then Stuck
      else if ns[i].typ == T_DIR then p
      else if Loose(ns, refs, i) then Stuck
      else Lost
    case _ => p
  }

  /** What `namex` answers: the end of the walk, or with `parent` the directory one element before it. */
  function Resolve(ns: seq<Node>, refs: seq<nat>, i: nat, es: seq<Name>, parent: bool): Place {
    if !parent then Walk(ns, refs, i, es, |es|)
    else if es == [] then Lost
    else Enter(ns, refs, Walk(ns, refs, i, es, |es| - 1))
  }

  lemma {:induction false} ParentIsDir(ns: seq<Node>, refs: seq<nat>, i: nat, es: seq<Name>)
    ensures var p := Resolve(ns, refs, i, es, true); p.At? ==> es != [] && p.inum < |ns| && ns[p.inum].typ == T_DIR
  {
  }

  /** A walk that has ended early stays ended. */
  lemma {:induction false} WalkEnded(ns: seq<Node>, refs: seq<nat>, i: nat, es: seq<Name>, m: nat, n: nat)
    requires m <= n <= |es| && !Walk(ns, refs, i, es, m).At?
    ensures Walk(ns, refs, i, es, n) == Walk(ns, refs, i, es, m)
  {
    if m < n { WalkEnded(ns, refs, i, es, m, n - 1); }
  }

  /** From an inode with links, a walk is never stuck: it meets only inodes with links. */
  lemma {:induction false} LinkedWalk(ns: seq<Node>, home: seq<Home>, refs: seq<nat>, i: nat, es: seq<Name>, n: nat)
    requires Shaped(ns, home) && LinksOk(ns) && i < |ns| && ns[i].nlink > 0 && n <= |es|
    ensures match Walk(ns, refs, i, es, n)
            case At(x) => x < |ns| && ns[x].typ != 0 && ns[x].nlink > 0
            case Lost => true
            case Stuck => false
  {
    if n == 0 {
      assert NodeShape(ns, home, i);
    } else {
      LinkedWalk(ns, home, refs, i, es, n - 1);
      var p, s := Walk(ns, refs, i, es, n - 1), Clip(es[n - 1]);
      if p.At? && ns[p.inum].typ == T_DIR && s in ns[p.inum].dir { LinkedChild(ns, home, p.inum, s); }
    }
  }

  lemma {:induction false} LinkedChild(ns: seq<Node>, home: seq<Home>, e: nat, s: Name)
    requires Shaped(ns, home) && LinksOk(ns) && e < |ns| && ns[e].Live() && s in ns[e].dir
    ensures ns[e].dir[s] < |ns| && ns[ns[e].dir[s]].typ != 0 && ns[ns[e].dir[s]].nlink > 0
  {
    assert NodeShape(ns, home, e);
    assert EntryShape(ns, home, e, s);
    if s != DOT {
      NamingHas(ns[e].dir, s);
      CountAtLeast(ns, ns[e].dir[s], |ns|, e);
      assert LinkOk(ns, ns[e].dir[s]);
    }
  }

  lemma {:induction false} LinkedResolve(ns: seq<Node>, home: seq<Home>, refs: seq<nat>, i: nat, es: seq<Name>,
                                         parent: bool)
    requires Shaped(ns, home) && LinksOk(ns) && i < |ns| && ns[i].nlink > 0
    ensures match Resolve(ns, refs, i, es, parent)
            case At(x) => x < |ns| && ns[x].typ != 0 && ns[x].nlink > 0 && (parent ==> ns[x].Live())
            case Lost => true
            case Stuck => false
  {
    LinkedWalk(ns, home, refs, i, es, if parent && es != [] then |es| - 1 else |es|);
  }

  // Trails: where a path leads, told by the inodes on the way

  /** Directory `x` holds inode `y` under the name that element `e` is cut to. */
  ghost predicate StepsTo(ns: seq<Node>, x: nat, e: Name, y: nat) {
    x < |ns| && ns[x].typ == T_DIR && exists t :: IsCut(e, t) && t in ns[x].dir && ns[x].dir[t] == y
  }

  /** The inodes that the elements `es` lead through, from the first of `xs` to the last. */
  ghost predicate Trail(ns: seq<Node>, xs: seq<nat>, es: seq<Name>) {
    |xs| == |es| + 1 && forall k: nat | k < |es| :: StepsTo(ns, xs[k], es[k], xs[k + 1])
  }

  lemma {:induction false} StepsClip(ns: seq<Node>, x: nat, e: Name, y: nat)
    ensures StepsTo(ns, x, e, y) <==> x < |ns| && ns[x].typ == T_DIR && Clip(e) in ns[x].dir && ns[x].dir[Clip(e)] == y
  {
    assert IsCut(e, Clip(e));
    if t :| IsCut(e, t) && x < |ns| && t in ns[x].dir && ns[x].dir[t] == y { CutUnique(e, t); }
    if StepsTo(ns, x, e, y) {
      var t :| IsCut(e, t) && t in ns[x].dir && ns[x].dir[t] == y;
      CutUnique(e, t);
    }
  }

  ghost predicate TrailTo(ns: seq<Node>, xs: seq<nat>, es: seq<Name>, i: nat, x: nat) {
    |xs| == |es| + 1 && Trail(ns, xs, es) && xs[0] == i && xs[|es|] == x
  }

  /** There is a trail of the elements from `i` to `x`. */
  ghost predicate Arrives(ns: seq<Node>, i: nat, es: seq<Name>, x: nat) {
    exists xs :: TrailTo(ns, xs, es, i, x)
  }

  /** Two trails of the same elements from the same inode are one. */
  lemma {:induction false} TrailUnique(ns: seq<Node>, xs: seq<nat>, ys: seq<nat>, es: seq<Name>, n: nat)
    requires Trail(ns, xs, es) && Trail(ns, ys, es) && xs[0] == ys[0] && n <= |es|
    ensures xs[n] == ys[n]
  {
    if n > 0 {
      TrailUnique(ns, xs, ys, es, n - 1);
      assert StepsTo(ns, xs[n - 1], es[n - 1], xs[n]) && StepsTo(ns, ys[n - 1], es[n - 1], ys[n]);
      StepsClip(ns, xs[n - 1], es[n - 1], xs[n]);
      StepsClip(ns, ys[n - 1], es[n - 1], ys[n]);
    }
  }

  /** A walk that arrives has left a trail. */
  lemma {:induction false} WalkTrail(ns: seq<Node>, refs: seq<nat>, i: nat, es: seq<Name>,
                                     n: nat) returns (xs: seq<nat>)
    requires n <= |es| && Walk(ns, refs, i, es, n).At?
    ensures Trail(ns, xs, es[..n]) && xs[0] == i && xs[n] == Walk(ns, refs, i, es, n).inum
  {
    if n == 0 {
      xs := [i];
    } else {
      var ys := WalkTrail(ns, refs, i, es, n - 1);
      var x, y := Walk(ns, refs, i, es, n - 1).inum, Walk(ns, refs, i, es, n).inum;
      xs := ys + [y];
      StepsClip(ns, x, es[n - 1], y);
      forall k: nat | k < n
        ensures StepsTo(ns, xs[k], es[..n][k], xs[k + 1])
      {
        if k < n - 1 { assert StepsTo(ns, ys[k], es[..n - 1][k], ys[k + 1]); }
      }
    }
  }

  /** From an inode with links, the walk follows every trail. */
  lemma {:induction false} TrailWalk(ns: seq<Node>, home: seq<Home>, refs: seq<nat>, xs: seq<nat>, es: seq<Name>,
                                     n: nat)
    requires Shaped(ns, home) && LinksOk(ns) && n <= |es| && Trail(ns, xs, es[..n])
    requires xs[0] < |ns| && ns[xs[0]].nlink > 0
    ensures Walk(ns, refs, xs[0], es, n) == At(xs[n])
  {
    if n > 0 {
      forall k: nat | k < n - 1
        ensures StepsTo(ns, xs[..n][k], es[..n - 1][k], xs[..n][k + 1])
      {
        assert StepsTo(ns, xs[k], es[..n][k], xs[k + 1]);
      }
      TrailWalk(ns, home, refs, xs[..n], es, n - 1);
      LinkedWalk(ns, home, refs, xs[0], es, n - 1);
      assert StepsTo(ns, xs[n - 1], es[..n][n - 1], xs[n]);
      StepsClip(ns, xs[n - 1], es[n - 1], xs[n]);
    }
  }

  /**
   * Where a path leads, without a word of how: from an inode with links, it leads to `x` exactly when there is a
   * trail of its elements, each cut to 13 bytes, to `x`; and otherwise nowhere.
   */
  lemma {:induction false} LeadsExactly(ns: seq<Node>, home: seq<Home>, refs: seq<nat>, i: nat, es: seq<Name>)
    requires Shaped(ns, home) && LinksOk(ns) && i < |ns| && ns[i].nlink > 0
    ensures forall x: nat :: Resolve(ns, refs, i, es, false) == At(x) <==> Arrives(ns, i, es, x)
    ensures Resolve(ns, refs, i, es, false) == Lost <==> forall x: nat :: !Arrives(ns, i, es, x)
  {
    hide Shaped, LinksOk, Walk, Trail;
    LinkedResolve(ns, home, refs, i, es, false);
    assert es[..|es|] == es;
    forall x: nat, xs | TrailTo(ns, xs, es, i, x)
      ensures Walk(ns, refs, i, es, |es|) == At(x)
    {
      TrailWalk(ns, home, refs, xs, es, |es|);
    }
    if Walk(ns, refs, i, es, |es|).At? {
      var xs := WalkTrail(ns, refs, i, es, |es|);
      assert TrailTo(ns, xs, es, i, Walk(ns, refs, i, es, |es|).inum);
    }
  }

  /** The same with each directory holding the next under the element itself. */
  ghost predicate PlainTrail(ns: seq<Node>, xs: seq<nat>, es: seq<Name>) {
    |xs| == |es| + 1 && forall k: nat | k < |es| :: PlainStep(ns, xs[k], es[k], xs[k + 1])
  }

  predicate PlainStep(ns: seq<Node>, x: nat, e: Name, y: nat) {
    x < |ns| && ns[x].typ == T_DIR && e in ns[x].dir && ns[x].dir[e] == y
  }

  /** A path whose elements have at most 13 bytes each leads where the elements themselves lead. */
  lemma {:induction false} ShortLeads(ns: seq<Node>, home: seq<Home>, refs: seq<nat>, i: nat, es: seq<Name>, x: nat)
    requires Shaped(ns, home) && LinksOk(ns) && i < |ns| && ns[i].nlink > 0
    requires forall k | 0 <= k < |es| :: |es[k]| < DIRSIZ
    ensures Resolve(ns, refs, i, es, false) == At(x) <==>
      exists xs :: PlainTrail(ns, xs, es) && xs[0] == i && xs[|es|] == x
  {
    hide Shaped, LinksOk, Resolve;
    LeadsExactly(ns, home, refs, i, es);
    forall xs
      ensures TrailTo(ns, xs, es, i, x) <==> PlainTrail(ns, xs, es) && xs[0] == i && xs[|es|] == x
    {
      ShortTrail(ns, xs, es);
    }
  }

  lemma {:induction false} ShortTrail(ns: seq<Node>, xs: seq<nat>, es: seq<Name>)
    requires forall k | 0 <= k < |es| :: |es[k]| < DIRSIZ
    ensures Trail(ns, xs, es) <==> PlainTrail(ns, xs, es)
  {
    if |xs| == |es| + 1 {
      hide StepsTo, Clip, PlainStep;
      forall k: nat | k < |es|
        ensures StepsTo(ns, xs[k], es[k], xs[k + 1]) <==> PlainStep(ns, xs[k], es[k], xs[k + 1])
      {
        ShortStep(ns, xs[k], es[k], xs[k + 1]);
      }
    }
  }

  lemma {:induction false} ShortStep(ns: seq<Node>, x: nat, e: Name, y: nat)
    requires |e| < DIRSIZ
    ensures StepsTo(ns, x, e, y) <==> PlainStep(ns, x, e, y)
  {
    StepsClip(ns, x, e, y);
    CutUnique(e, Clip(e));
  }

  /** And the parent of a path: the directory that all but the last element lead to. */
  lemma {:induction false} ParentExactly(ns: seq<Node>, home: seq<Home>, refs: seq<nat>, i: nat, es: seq<Name>)
    requires Shaped(ns, home) && LinksOk(ns) && i < |ns| && ns[i].nlink > 0
    ensures forall x: nat :: Resolve(ns, refs, i, es, true) == At(x) <==>
      es != [] && x < |ns| && ns[x].typ == T_DIR && Arrives(ns, i, es[..|es| - 1], x)
    ensures Resolve(ns, refs, i, es, true) != Stuck
  {
    hide Shaped, LinksOk, Walk, Arrives;
    LinkedResolve(ns, home, refs, i, es, true);
    if es != [] {
      var front := es[..|es| - 1];
      LeadsExactly(ns, home, refs, i, front);
      LinkedResolve(ns, home, refs, i, front, false);
      WalkPrefix(ns, refs, i, front, es, |es| - 1);
    }
  }

  lemma {:induction false} WalkPrefix(ns: seq<Node>, refs: seq<nat>, i: nat, front: seq<Name>, es: seq<Name>, n: nat)
    requires n <= |front| <= |es| && front == es[..|front|]
    ensures Walk(ns, refs, i, front, n) == Walk(ns, refs, i, es, n)
  {
    if n > 0 { WalkPrefix(ns, refs, i, front, es, n - 1); }
  }

  // From a directory without links

  /** The inode that `m` steps up lead to. */
  function Climb(ns: seq<Node>, i: nat, m: nat): nat {
    if m == 0 then i
    else
      var x := Climb(ns, i, m - 1);
      if x < |ns| && DOTDOT in ns[x].dir then ns[x].dir[DOTDOT] else x
  }

  /** How many of the first `n` elements are "..". */
  function Ups(es: seq<Name>, n: nat): nat
    requires n <= |es|
  {
    if n == 0 then 0 else Ups(es, n - 1) + if Clip(es[n - 1]) == DOTDOT then 1 else 0
  }

  ghost predicate AllDots(es: seq<Name>, n: nat)
    requires n <= |es|
  {
    forall j | 0 <= j < n :: Dots(Clip(es[j]))
  }

  ghost predicate KeptBelow(ns: seq<Node>, refs: seq<nat>, i: nat, m: nat) {
    forall j: nat | j < m :: Kept(ns, refs, Climb(ns, i, j))
  }

  /**
   * The first `m` elements are dots, and lead up through unlinked directories to where the next one cannot be looked
   * up.
   */
  ghost predicate LeadsOut(ns: seq<Node>, refs: seq<nat>, i: nat, es: seq<Name>, m: nat) {
    m < |es| && AllDots(es, m) && KeptBelow(ns, refs, i, Ups(es, m)) &&
      Trap(ns, refs, Climb(ns, i, Ups(es, m)), Clip(es[m]))
  }

  lemma {:induction false} WalkSplit(ns: seq<Node>, refs: seq<nat>, i: nat, es: seq<Name>, n: nat, m: nat)
    requires n <= m <= |es| && Walk(ns, refs, i, es, n).At?
    ensures Walk(ns, refs, i, es, m) == Walk(ns, refs, Walk(ns, refs, i, es, n).inum, es[n..], m - n)
  {
    if n < m { WalkSplit(ns, refs, i, es, n, m - 1); }
  }

  lemma {:induction false} UpsSplit(es: seq<Name>, m: nat)
    requires 0 < m <= |es|
    ensures Ups(es, m) == Ups(es[1..], m - 1) + if Clip(es[0]) == DOTDOT then 1 else 0
  {
    if m > 1 { UpsSplit(es, m - 1); }
  }

  lemma {:induction false} ClimbSplit(ns: seq<Node>, i: nat, m: nat)
    requires 0 < m
    ensures Climb(ns, i, m) == Climb(ns, Climb(ns, i, 1), m - 1)
  {
    if m > 1 { ClimbSplit(ns, i, m - 1); }
  }

  lemma {:induction false} KeptSplit(ns: seq<Node>, refs: seq<nat>, i: nat, m: nat)
    requires Kept(ns, refs, i) && 0 < m
    ensures KeptBelow(ns, refs, i, m) <==> KeptBelow(ns, refs, Climb(ns, i, 1), m - 1)
  {
    hide Kept;
    var p := Climb(ns, i, 1);
    if KeptBelow(ns, refs, i, m) {
      forall j: nat | j < m - 1
        ensures Kept(ns, refs, Climb(ns, p, j))
      {
        ClimbSplit(ns, i, j + 1);
      }
    }
    if KeptBelow(ns, refs, p, m - 1) {
      forall j: nat | j < m
        ensures Kept(ns, refs, Climb(ns, i, j))
      {
        if j > 0 { ClimbSplit(ns, i, j); }
      }
    }
  }

  /** From an unlinked directory a dot leads on, to itself or up. */
  lemma {:induction false} LeadsOn(ns: seq<Node>, refs: seq<nat>, i: nat, es: seq<Name>, m: nat)
    requires 0 < m <= |es| && Dots(Clip(es[0])) && (Kept(ns, refs, i) || Clip(es[0]) == DOT)
    ensures LeadsOut(ns, refs, i, es, m) <==>
      LeadsOut(ns, refs, Climb(ns, i, if Clip(es[0]) == DOTDOT then 1 else 0), es[1..], m - 1)
  {
    hide Kept, Trap, Climb, Clip, KeptBelow;
    var u := if Clip(es[0]) == DOTDOT then 1 else 0;
    UpsSplit(es, m);
    assert Climb(ns, i, 0) == i by { ClimbNone(ns, i); }
    if u == 1 {
      KeptSplit(ns, refs, i, Ups(es, m));
      ClimbSplit(ns, i, Ups(es, m));
    }
    assert AllDots(es, m) <==> AllDots(es[1..], m - 1) by {
      forall j | 0 <= j < m - 1
        ensures es[1..][j] == es[j + 1]
      {
      }
      if AllDots(es[1..], m - 1) {
        forall j | 0 <= j < m
          ensures Dots(Clip(es[j]))
        {
          if j > 0 { assert Dots(Clip(es[1..][j - 1])); }
        }
      }
    }
  }

  lemma {:induction false} ClimbNone(ns: seq<Node>, i: nat)
    ensures Climb(ns, i, 0) == i
  {
  }

  /** An inode that keeps its links or is no directory leads nowhere loose. */
  lemma {:induction false} NotOut(ns: seq<Node>, home: seq<Home>, refs: seq<nat>, i: nat, es: seq<Name>, n: nat)
    requires Shaped(ns, home) && LinksOk(ns) && n <= |es| && !Loose(ns, refs, i) && !Kept(ns, refs, i)
    ensures Walk(ns, refs, i, es, n) != Stuck && forall m: nat | m < n :: !LeadsOut(ns, refs, i, es, m)
  {
    assert LinkOk(ns, i);
    if ns[i].nlink > 0 {
      LinkedWalk(ns, home, refs, i, es, n);
    } else if n > 0 {
      assert Walk(ns, refs, i, es, 1) == Lost;
      WalkEnded(ns, refs, i, es, 1, n);
    }
    forall m: nat | m < n
      ensures !LeadsOut(ns, refs, i, es, m)
    {
      assert !Kept(ns, refs, Climb(ns, i, 0));
    }
  }

  /**
   * A walk is stuck exactly when a run of dots leads up through unlinked directories to an
   * inode that is not in use, or that nothing but the walk keeps in use, with an element to spare.
   */
  lemma {:induction false} StuckExactly(ns: seq<Node>, home: seq<Home>, refs: seq<nat>, i: nat, es: seq<Name>, n: nat)
    requires Shaped(ns, home) && LinksOk(ns) && n <= |es|
    ensures Walk(ns, refs, i, es, n) == Stuck <==> exists m: nat :: m < n && LeadsOut(ns, refs, i, es, m)
    decreases n
  {
    if n == 0 {
    } else if Trap(ns, refs, i, Clip(es[0])) {
      assert Walk(ns, refs, i, es, 0) == At(i) && Walk(ns, refs, i, es, 1) == Stuck;
      WalkEnded(ns, refs, i, es, 1, n);
      assert LeadsOut(ns, refs, i, es, 0);
    } else if Loose(ns, refs, i) || Kept(ns, refs, i) {
      OutStuck(ns, home, refs, i, es, n);
    } else {
      NotOut(ns, home, refs, i, es, n);
    }
  }

  /** The first step from an unlinked directory. */
  lemma {:induction false} OutStep(ns: seq<Node>, home: seq<Home>, refs: seq<nat>, i: nat, es: seq<Name>)
    requires Shaped(ns, home) && 0 < |es| && (Kept(ns, refs, i) || Loose(ns, refs, i)) &&
      !Trap(ns, refs, i, Clip(es[0]))
    ensures Walk(ns, refs, i, es, 1) == if Dots(Clip(es[0])) then
      At(Climb(ns, i, if Clip(es[0]) == DOTDOT then 1 else 0)) else Lost
    ensures Dots(Clip(es[0])) ==> Kept(ns, refs, i) || Clip(es[0]) == DOT
  {
    hide Clip;
    assert NodeShape(ns, home, i);
    assert DOT != DOTDOT by { assert |DOT| != |DOTDOT|; }
    assert Climb(ns, i, 0) == i && Climb(ns, i, 1) == ns[i].dir[DOTDOT];
    assert Walk(ns, refs, i, es, 0) == At(i);
  }

  lemma {:induction false} OutStuck(ns: seq<Node>, home: seq<Home>, refs: seq<nat>, i: nat, es: seq<Name>, n: nat)
    requires Shaped(ns, home) && LinksOk(ns) && 0 < n <= |es| && (Kept(ns, refs, i) || Loose(ns, refs, i)) &&
      !Trap(ns, refs, i, Clip(es[0]))
    ensures Walk(ns, refs, i, es, n) == Stuck <==> exists m: nat :: m < n && LeadsOut(ns, refs, i, es, m)
    decreases n, 0
  {
    hide AllDots, Ups, KeptBelow, Next, NodeShape, LinkOk, Walk, LeadsOut, Kept, Loose, Trap, Shaped, LinksOk, Climb,
      Clip, Dots;
    var s := Clip(es[0]);
    OutStep(ns, home, refs, i, es);
    NotTrapped(ns, refs, i, es);
    if !Dots(s) {
      WalkEnded(ns, refs, i, es, 1, n);
      forall m: nat | m < n
        ensures !LeadsOut(ns, refs, i, es, m)
      {
        if m > 0 { NotDots(ns, refs, i, es, m); }
      }
    } else {
      var x := Climb(ns, i, if s == DOTDOT then 1 else 0);
      WalkSplit(ns, refs, i, es, 1, n);
      StuckExactly(ns, home, refs, x, es[1..], n - 1);
      forall m: nat | 0 < m < n
        ensures LeadsOut(ns, refs, i, es, m) <==> LeadsOut(ns, refs, x, es[1..], m - 1)
      {
        LeadsOn(ns, refs, i, es, m);
      }
      if m: nat :| m < n && LeadsOut(ns, refs, i, es, m) { assert LeadsOut(ns, refs, x, es[1..], m - 1); }
      if m: nat :| m < n - 1 && LeadsOut(ns, refs, x, es[1..], m) { assert LeadsOut(ns, refs, i, es, m + 1); }
    }
  }

  lemma {:induction false} NotTrapped(ns: seq<Node>, refs: seq<nat>, i: nat, es: seq<Name>)
    requires 0 < |es| && !Trap(ns, refs, i, Clip(es[0]))
    ensures !LeadsOut(ns, refs, i, es, 0)
  {
  }

  lemma {:induction false} NotDots(ns: seq<Node>, refs: seq<nat>, i: nat, es: seq<Name>, m: nat)
    requires 0 < m && es != [] && !Dots(Clip(es[0]))
    ensures !LeadsOut(ns, refs, i, es, m)
  {
  }

  lemma {:induction false} LeadsTo(ns: seq<Node>, home: seq<Home>, refs: seq<nat>, i: nat, es: seq<Name>, m: nat)
    requires Shaped(ns, home) && m <= |es| && AllDots(es, m) && KeptBelow(ns, refs, i, Ups(es, m)) &&
      Walk(ns, refs, i, es, m).At?
    ensures Walk(ns, refs, i, es, m) == At(Climb(ns, i, Ups(es, m)))
  {
    if m > 0 {
      LeadsTo(ns, home, refs, i, es, m - 1);
      assert NodeShape(ns, home, Climb(ns, i, Ups(es, m - 1)));
      assert Dots(Clip(es[m - 1]));
    }
  }

  /** The directory a path's last element is looked up in, if dots lead there, is not in use or no directory. */
  ghost predicate LeadsToNone(ns: seq<Node>, refs: seq<nat>, i: nat, es: seq<Name>, m: nat) {
    LeadsOut(ns, refs, i, es, m) && var x := Climb(ns, i, Ups(es, m)); !(x < |ns| && ns[x].typ == T_DIR)
  }

  lemma {:induction false} ParentStuck(ns: seq<Node>, home: seq<Home>, refs: seq<nat>, i: nat, es: seq<Name>, n: nat)
    requires Shaped(ns, home) && LinksOk(ns) && n < |es|
    ensures Enter(ns, refs, Walk(ns, refs, i, es, n)) == Stuck <==>
      LeadsToNone(ns, refs, i, es, n) || exists m: nat :: m < n && LeadsOut(ns, refs, i, es, m)
  {
    StuckExactly(ns, home, refs, i, es, n);
    StuckExactly(ns, home, refs, i, es, n + 1);
    assert Walk(ns, refs, i, es, n + 1) == Next(ns, refs, Walk(ns, refs, i, es, n), Clip(es[n]));
    if LeadsOut(ns, refs, i, es, n) && Walk(ns, refs, i, es, n).At? { LeadsTo(ns, home, refs, i, es, n); }
    hide Walk, LeadsOut, Clip, Shaped, LinksOk, Climb, Ups;
    if m: nat :| m < n + 1 && LeadsOut(ns, refs, i, es, m) { assert m < n || m == n; }
  }

  /** Resolving a path is stuck exactly when dots lead out of the tree before its end. */
  lemma {:induction false} ResolveStuckExactly(ns: seq<Node>, home: seq<Home>, refs: seq<nat>, i: nat, es: seq<Name>,
                                               parent: bool)
    requires Shaped(ns, home) && LinksOk(ns)
    ensures !parent ==>
      (Resolve(ns, refs, i, es, parent) == Stuck <==> exists m: nat :: m < |es| && LeadsOut(ns, refs, i, es, m))
    ensures parent ==> (Resolve(ns, refs, i, es, parent) == Stuck <==>
      es != [] &&
        (LeadsToNone(ns, refs, i, es, |es| - 1) || exists m: nat :: m < |es| - 1 && LeadsOut(ns, refs, i, es, m)))
  {
    hide LeadsOut, LeadsToNone, Walk, Enter;
    StuckExactly(ns, home, refs, i, es, |es|);
    if es != [] { ParentStuck(ns, home, refs, i, es, |es| - 1); }
  }
}
