/**
 * What a call may do to the tree of names, told by what a user of the tree sees: the names in directories, the
 * trails of paths, and the inodes that nothing leads to any more.
 */
module TreeLaws {
  import opened DirSpec
  import opened LinkSpec
  import opened Links
  import opened PathSpec
  import opened Walks

  /** Every name of every directory of `ns` is there in `ns'`, for the same inode. */
  ghost predicate KeepsNames(ns: seq<Node>, ns': seq<Node>) {
    |ns| == |ns'| && forall x: nat, s | x < |ns| && s in ns[x].dir :: KeepsName(ns, ns', x, s)
  }

  predicate KeepsName(ns: seq<Node>, ns': seq<Node>, x: nat, s: Name)
    requires x < |ns| == |ns'| && s in ns[x].dir
  {
    ns[x].typ == T_DIR ==> ns'[x].typ == T_DIR && s in ns'[x].dir && ns'[x].dir[s] == ns[x].dir[s]
  }

  /** The two trees have the same names, but for `s` in directory `dp` and whatever is in `i`. */
  ghost predicate SameNamesBut(ns: seq<Node>, ns': seq<Node>, dp: nat, s: Name, i: nat) {
    |ns| == |ns'| && forall x: nat, t | x < |ns| && x != i && !(x == dp && t == s) :: SameName(ns, ns', x, t)
  }

  predicate SameName(ns: seq<Node>, ns': seq<Node>, x: nat, t: Name)
    requires x < |ns| == |ns'|
  {
    && ns'[x].typ == ns[x].typ && (t in ns'[x].dir <==> t in ns[x].dir)
    && (t in ns[x].dir && t in ns'[x].dir ==> ns'[x].dir[t] == ns[x].dir[t])
  }

  /** Where names are kept, trails are. */
  lemma {:induction false} TrailKept(ns: seq<Node>, ns': seq<Node>, xs: seq<nat>, es: seq<Name>)
    requires KeepsNames(ns, ns') && Trail(ns, xs, es)
    ensures Trail(ns', xs, es)
  {
    forall k: nat | k < |es|
      ensures StepsTo(ns', xs[k], es[k], xs[k + 1])
    {
      assert StepsTo(ns, xs[k], es[k], xs[k + 1]);
      StepsClip(ns, xs[k], es[k], xs[k + 1]);
      assert KeepsName(ns, ns', xs[k], Clip(es[k]));
      StepsClip(ns', xs[k], es[k], xs[k + 1]);
    }
  }

  /** One more element at the end of a trail. */
  lemma {:induction false} TrailMore(ns: seq<Node>, xs: seq<nat>, es: seq<Name>, e: Name, y: nat)
    requires Trail(ns, xs, es) && StepsTo(ns, xs[|es|], e, y)
    ensures Trail(ns, xs + [y], es + [e])
  {
    hide StepsTo;
    forall k: nat | k < |es + [e]|
      ensures StepsTo(ns, (xs + [y])[k], (es + [e])[k], (xs + [y])[k + 1])
    {
      if k < |es| { assert StepsTo(ns, xs[k], es[k], xs[k + 1]); }
    }
  }

  lemma {:induction false} TrailLess(ns: seq<Node>, xs: seq<nat>, es: seq<Name>)
    requires Trail(ns, xs, es) && es != []
    ensures Trail(ns, xs[..|es|], es[..|es| - 1]) && StepsTo(ns, xs[|es| - 1], es[|es| - 1], xs[|es|])
  {
    hide StepsTo;
    forall k: nat | k < |es| - 1
      ensures StepsTo(ns, xs[..|es|][k], es[..|es| - 1][k], xs[..|es|][k + 1])
    {
      assert StepsTo(ns, xs[k], es[k], xs[k + 1]);
    }
  }

  /** A parent that a path resolves to has a trail. */
  lemma {:induction false} ParentTrail(ns: seq<Node>, refs: seq<nat>, i: nat, es: seq<Name>, dp: nat)
    requires Resolve(ns, refs, i, es, true) == At(dp)
    ensures es != [] && dp < |ns| && ns[dp].typ == T_DIR && Arrives(ns, i, es[..|es| - 1], dp)
  {
    var xs := WalkTrail(ns, refs, i, es, |es| - 1);
    assert TrailTo(ns, xs, es[..|es| - 1], i, dp);
  }

  /** A name put where a path's parent is, in a tree that keeps the names it had, is where the path leads. */
  lemma {:induction false} PathFound(ns: seq<Node>, ns': seq<Node>, home': seq<Home>, refs': seq<nat>, start: nat,
                                     es: seq<Name>, dp: nat)
    requires Shaped(ns', home') && LinksOk(ns') && KeepsNames(ns, ns') && start < |ns'| && ns'[start].nlink > 0
    requires es != [] && Arrives(ns, start, es[..|es| - 1], dp) && dp < |ns'| && ns'[dp].typ == T_DIR &&
      Clip(es[|es| - 1]) in ns'[dp].dir
    ensures Resolve(ns', refs', start, es, false) == At(ns'[dp].dir[Clip(es[|es| - 1])])
  {
    hide Shaped, LinksOk, Resolve, Clip;
    var front, e := es[..|es| - 1], es[|es| - 1];
    var i := ns'[dp].dir[Clip(e)];
    var xs :| TrailTo(ns, xs, front, start, dp);
    hide Trail;
    TrailKept(ns, ns', xs, front);
    StepsClip(ns', dp, e, i);
    TrailMore(ns', xs, front, e, i);
    assert front + [e] == es;
    assert TrailTo(ns', xs + [i], es, start, i);
    LeadsExactly(ns', home', refs', start, es);
    assert Arrives(ns', start, es, i);
  }

  /**
   * A name taken from where a path's parent is, in a tree with no names it did not have, leaves the path nowhere to
   * lead.
   */
  lemma {:induction false} PathGone(ns: seq<Node>, ns': seq<Node>, home': seq<Home>, refs': seq<nat>, start: nat,
                                    es: seq<Name>, dp: nat)
    requires Shaped(ns', home') && LinksOk(ns') && KeepsNames(ns', ns) && start < |ns'| && ns'[start].nlink > 0
    requires es != [] && Arrives(ns, start, es[..|es| - 1], dp) && dp < |ns'| && Clip(es[|es| - 1]) !in ns'[dp].dir
    ensures Resolve(ns', refs', start, es, false) == Lost
  {
    hide Shaped, LinksOk, Resolve, Clip;
    LeadsExactly(ns', home', refs', start, es);
    var ys :| TrailTo(ns, ys, es[..|es| - 1], start, dp);
    forall x: nat
      ensures !Arrives(ns', start, es, x)
    {
      if Arrives(ns', start, es, x) {
        var xs :| TrailTo(ns', xs, es, start, x);
        NoTrail(ns, ns', xs, ys, es, dp);
      }
    }
  }

  lemma {:induction false} NoTrail(ns: seq<Node>, ns': seq<Node>, xs: seq<nat>, ys: seq<nat>, es: seq<Name>, dp: nat)
    requires KeepsNames(ns', ns) && es != [] && Trail(ns, ys, es[..|es| - 1]) && ys[|es| - 1] == dp < |ns'|
    requires Clip(es[|es| - 1]) !in ns'[dp].dir
    ensures Trail(ns', xs, es) ==> xs[0] != ys[0]
  {
    var front := es[..|es| - 1];
    if Trail(ns', xs, es) && xs[0] == ys[0] {
      TrailLess(ns', xs, es);
      TrailKept(ns', ns, xs[..|es|], front);
      TrailUnique(ns, xs[..|es|], ys, front, |es| - 1);
      StepsClip(ns', dp, es[|es| - 1], xs[|es|]);
      assert false;
    }
  }

  /**
   * What a user of the tree sees of a name made for inode `i`: it is there and no other is touched, but in `j`, and
   * the path from a linked inode now leads to `i`.
   */
  ghost predicate NameMade(ns: seq<Node>, ns': seq<Node>, refs': seq<nat>, start: nat, es: seq<Name>, dp: nat, i: nat,
                           j: nat) {
    && |ns| == |ns'| && dp < |ns| && es != []
    && var s := Clip(es[|es| - 1]);
    && s !in ns[dp].dir && s in ns'[dp].dir && ns'[dp].dir[s] == i
    && SameNamesBut(ns, ns', dp, s, j)
    && (start < |ns| && ns'[start].nlink > 0 ==> Resolve(ns', refs', start, es, false) == At(i))
  }

  // Inodes that nothing leads to

  /** In use, with no link and no reference: nothing will ever take it out of use. */
  predicate Orphan(ns: seq<Node>, refs: seq<nat>, i: nat) {
    i < |ns| && i < |refs| && ns[i].typ != 0 && ns[i].nlink == 0 && refs[i] == 0
  }

  /** A call makes no orphan. */
  ghost predicate NoNewOrphan(ns: seq<Node>, refs: seq<nat>, ns': seq<Node>, refs': seq<nat>) {
    forall i: nat | Orphan(ns', refs', i) :: Orphan(ns, refs, i)
  }

  /** Giving back a reference makes no orphan: the last one to an unlinked inode takes it out of use. */
  lemma {:induction false} DroppedOrphans(ns: seq<Node>, refs: seq<nat>, i: nat)
    requires i < |ns| == |refs|
    ensures NoNewOrphan(ns, refs, Dropped(ns, i, refs[i] == 0), refs) && !Orphan(Dropped(ns, i, refs[i] == 0), refs, i)
  {
  }
}
