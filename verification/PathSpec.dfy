/** Path strings: splitting at slashes, and the elements `skipelem` takes off one by one. */
module PathSpec {
  import opened Sectors
  import opened DirSpec

  const SLASH: byte := 47

  /** The first index at or after `k` that is not a slash, or the end. */
  function PastSlashes(p: Name, k: nat): (r: nat)
    requires k <= |p|
    ensures k <= r <= |p| && (r < |p| ==> p[r] != SLASH) && forall i | k <= i < r :: p[i] == SLASH
    decreases |p| - k
  {
    if k == |p| || p[k] != SLASH then k else PastSlashes(p, k + 1)
  }

  /** The first slash at or after `k`, or the end. */
  function NextSlash(p: Name, k: nat): (r: nat)
    requires k <= |p|
    ensures k <= r <= |p| && (r < |p| ==> p[r] == SLASH) && forall i | k <= i < r :: p[i] != SLASH
    decreases |p| - k
  {
    if k == |p| || p[k] == SLASH then k else NextSlash(p, k + 1)
  }

  /** The string cut at every slash, empty pieces included. */
  function Pieces(p: Name, k: nat): (r: seq<Name>)
    requires k <= |p|
    ensures |r| > 0
    decreases |p| - k
  {
    var e := NextSlash(p, k);
    if e == |p| then [p[k..]] else [p[k..e]] + Pieces(p, e + 1)
  }

  function Joined(ps: seq<Name>): Name
    requires |ps| > 0
  {
    if |ps| == 1 then ps[0] else ps[0] + [SLASH] + Joined(ps[1..])
  }

  /** Joining the pieces gives the string back, and none of them has a slash. */
  lemma {:induction false} JoinedPieces(p: Name, k: nat)
    requires k <= |p|
    ensures Joined(Pieces(p, k)) == p[k..]
    ensures forall i | 0 <= i < |Pieces(p, k)| :: SLASH !in Pieces(p, k)[i]
    decreases |p| - k
  {
    var e := NextSlash(p, k);
    if e < |p| {
      JoinedPieces(p, e + 1);
      var rest := Pieces(p, e + 1);
      assert Pieces(p, k)[1..] == rest;
      assert p[k..e] + [SLASH] + p[e + 1..] == p[k..];
    }
  }

  function NonEmpty(ps: seq<Name>): seq<Name> {
    if ps == [] then [] else (if ps[0] == [] then [] else [ps[0]]) + NonEmpty(ps[1..])
  }

  /** The elements found by skipping slashes and reading up to the next, from `k` on. */
  function Elements(p: Name, k: nat): seq<Name>
    requires k <= |p|
    decreases |p| - k
  {
    var s := PastSlashes(p, k);
    if s == |p| then [] else [p[s..NextSlash(p, s)]] + Elements(p, NextSlash(p, s))
  }

  lemma {:induction false} ElementsCons(p: Name, k: nat)
    requires k <= |p|
    ensures var s := PastSlashes(p, k);
      if s == |p| then Elements(p, k) == []
      else s < NextSlash(p, s) && |Elements(p, k)| > 0 && Elements(p, k)[0] == p[s..NextSlash(p, s)] &&
           Elements(p, k)[1..] == Elements(p, NextSlash(p, s))
  {
  }

  lemma {:induction false} ElementsSkip(p: Name, k: nat)
    requires k <= |p|
    ensures Elements(p, PastSlashes(p, k)) == Elements(p, k)
  {
    assert PastSlashes(p, PastSlashes(p, k)) == PastSlashes(p, k);
  }

  lemma {:induction false} NonEmptyCons(x: Name, ps: seq<Name>)
    ensures NonEmpty([x] + ps) == (if x == [] then [] else [x]) + NonEmpty(ps)
  {
    assert ([x] + ps)[1..] == ps;
  }

  lemma {:induction false} AfterSlash(p: Name, e: nat)
    requires e < |p| && p[e] == SLASH
    ensures Elements(p, e) == Elements(p, e + 1)
  {
    assert PastSlashes(p, e) == PastSlashes(p, e + 1);
  }

  lemma {:induction false} AtElement(p: Name, k: nat)
    requires k <= |p|
    ensures var e := NextSlash(p, k); Elements(p, k) == (if k == e then [] else [p[k..e]]) + Elements(p, e)
  {
    if k < NextSlash(p, k) { assert PastSlashes(p, k) == k; }
  }

  lemma {:induction false} LastPiece(p: Name, k: nat)
    requires k <= |p| && NextSlash(p, k) == |p|
    ensures NonEmpty(Pieces(p, k)) == (if k == |p| then [] else [p[k..|p|]]) + Elements(p, |p|)
  {
    assert p[k..|p|] == p[k..];
    assert Pieces(p, k) == [p[k..]] + [];
    NonEmptyCons(p[k..], []);
  }

  /** The elements are exactly the non-empty pieces between slashes. */
  lemma {:induction false} ElementsArePieces(p: Name, k: nat)
    requires k <= |p|
    ensures Elements(p, k) == NonEmpty(Pieces(p, k))
    decreases |p| - k
  {
    var e := NextSlash(p, k);
    AtElement(p, k);
    if e == |p| {
      LastPiece(p, k);
      hide Elements, Pieces, NonEmpty;
    } else {
      assert Pieces(p, k) == [p[k..e]] + Pieces(p, e + 1);
      AfterSlash(p, e);
      hide Elements, Pieces, NonEmpty;
      ElementsArePieces(p, e + 1);
      NonEmptyCons(p[k..e], Pieces(p, e + 1));
    }
  }

  /** `t` is what is left of `s` with at most 13 bytes. */
  predicate IsCut(s: Name, t: Name) {
    t <= s && |t| == if |s| < DIRSIZ - 1 then |s| else DIRSIZ - 1
  }

  /** An element as `skipelem` hands it out: at most 13 bytes. */
  function Clip(s: Name): (t: Name)
    ensures IsCut(s, t)
  {
    if |s| >= DIRSIZ then s[..DIRSIZ - 1] else s
  }

  /** There is one such name; a short element is its own. */
  lemma {:induction false} CutUnique(s: Name, t: Name)
    requires IsCut(s, t)
    ensures t == Clip(s) && (|s| < DIRSIZ ==> t == s)
  {
    assert t == s[..|t|];
  }

  lemma {:induction false} ClipSlice(path: Name, s: nat, e: nat)
    requires s <= e <= |path|
    ensures Clip(path[s..e]) == if e - s >= DIRSIZ then path[s..s + DIRSIZ - 1] else path[s..e]
  {
  }

  /** `skipelem`: the next element, and where the one after it starts; -1 if there is none. */
  method SkipElem(path: Name, k: nat) returns (next: int, name: Name)
    requires k <= |path|
    ensures next == -1 <==> Elements(path, k) == []
    ensures next != -1 ==>
      && k < next <= |path| && Elements(path, k) != [] && name == Clip(Elements(path, k)[0])
      && name <= Elements(path, k)[0]
      && |name| == (if |Elements(path, k)[0]| < DIRSIZ - 1 then |Elements(path, k)[0]| else DIRSIZ - 1)
      && Elements(path, next) == Elements(path, k)[1..]
      && (next < |path| ==> path[next] != SLASH) && (next == |path| <==> |Elements(path, k)| == 1)
  {
    ElementsCons(path, k);
    ghost var p := PastSlashes(path, k);
    hide Elements, Clip;
    var s := k;
    while s < |path| && path[s] == SLASH
      invariant k <= s <= |path| && PastSlashes(path, s) == p
    {
      s := s + 1;
    }
    if s == |path| { return -1, []; }
    var e := s;
    while e < |path| && path[e] != SLASH
      invariant s <= e <= |path| && NextSlash(path, e) == NextSlash(path, s)
    {
      e := e + 1;
    }
    name := if e - s >= DIRSIZ then path[s..s + DIRSIZ - 1] else path[s..e];
    ClipSlice(path, s, e);
    ElementsSkip(path, e);
    ElementsCons(path, e);
    next := e;
    while next < |path| && path[next] == SLASH
      invariant e <= next <= |path| && PastSlashes(path, next) == PastSlashes(path, e)
    {
      next := next + 1;
    }
  }

  /** A clipped element is a name that a directory field can hold whole. */
  lemma {:induction false} ClippedName(path: Name, k: nat, n: nat)
    requires k <= |path| && IsString(path) && n < |Elements(path, k)|
    ensures IsString(Clip(Elements(path, k)[n])) && Cut(Clip(Elements(path, k)[n])) == Clip(Elements(path, k)[n]) &&
      Elements(path, k)[n] != []
    decreases |path| - k
  {
    var s := PastSlashes(path, k);
    if n > 0 { ClippedName(path, NextSlash(path, s), n - 1); }
  }
}
