/**
 * Directories as bytes: a directory's contents are 16-byte entries, each an
 * inode number and a name of up to 14 bytes, and stand for a finite map from
 * names to inode numbers.
 */
module DirSpec {
  import opened Sectors
  import opened FsSteps

  const DIRSIZ := 14
  const DESIZE := 16
  const T_DIR := 1
  const T_FILE := 2

  type Name = seq<byte>

  /** A string argument: its bytes up to the terminating zero. */
  predicate IsString(s: Name) {
    forall k | 0 <= k < |s| :: s[k] != 0
  }

  /** The length of the string in a name field: up to a zero, or the whole field. */
  function StringEnd(f: seq<byte>, k: nat): (r: nat)
    requires k <= |f|
    ensures k <= r <= |f| && (r < |f| ==> f[r] == 0) && forall i | k <= i < r :: f[i] != 0
    decreases |f| - k
  {
    if k == |f| || f[k] == 0 then k else StringEnd(f, k + 1)
  }

  function FieldName(f: seq<byte>): Name {
    f[..StringEnd(f, 0)]
  }

  /** A name as a field can hold it. */
  function Cut(s: Name): (t: Name)
    ensures t <= s && |t| == if |s| < DIRSIZ then |s| else DIRSIZ
  {
    if |s| > DIRSIZ then s[..DIRSIZ] else s
  }

  /** `dir_namecmp` from byte `k` on: the string and the field agree up to the end of either. */
  predicate SameName(s: Name, f: seq<byte>, k: nat)
    requires k <= DIRSIZ == |f| && k <= |s|
    decreases DIRSIZ - k
  {
    if k == DIRSIZ then true
    else if k == |s| then f[k] == 0
    else s[k] == f[k] && SameName(s, f, k + 1)
  }

  lemma {:induction false} SameNameIs(s: Name, f: seq<byte>, k: nat)
    requires IsString(s) && k <= DIRSIZ == |f| && k <= |s| && forall i | 0 <= i < k :: s[i] == f[i]
    ensures SameName(s, f, k) <==> Cut(s) == FieldName(f)
    decreases DIRSIZ - k
  {
    var e := StringEnd(f, 0);
    if k == DIRSIZ {
      assert e == DIRSIZ;
    } else if k == |s| {
      assert f[k] == 0 ==> e == k;
    } else if s[k] == f[k] {
      SameNameIs(s, f, k + 1);
    } else {
      assert Cut(s)[k] == s[k];
      assert k < e ==> FieldName(f)[k] == f[k];
    }
  }

  /** `strncpy` of a name into a field. */
  function NameField(s: Name): (f: seq<byte>)
    ensures |f| == DIRSIZ
  {
    if |s| >= DIRSIZ then s[..DIRSIZ] else s + seq(DIRSIZ - |s|, _ => 0)
  }

  lemma {:induction false} NameFieldHolds(s: Name)
    requires IsString(s)
    ensures FieldName(NameField(s)) == Cut(s)
  {
    var f := NameField(s);
    var e := StringEnd(f, 0);
    if |s| < DIRSIZ {
      assert f[|s|] == 0;
      assert e == |s|;
    } else {
      assert e == DIRSIZ;
    }
  }

  // Entries

  predicate IsEntry(e: seq<byte>) {
    |e| == DESIZE
  }

  function Inum(e: seq<byte>): nat
    requires IsEntry(e)
  {
    e[0] as nat + 256 * e[1] as nat
  }

  function EntryName(e: seq<byte>): Name
    requires IsEntry(e)
  {
    FieldName(e[2..])
  }

  function NewEntry(s: Name, inum: nat): (e: seq<byte>)
    requires inum < U16
    ensures IsEntry(e)
  {
    [inum % 256, inum / 256] + NameField(s)
  }

  lemma {:induction false} NewEntryIs(s: Name, inum: nat)
    requires inum < U16 && IsString(s)
    ensures Inum(NewEntry(s, inum)) == inum && EntryName(NewEntry(s, inum)) == Cut(s)
  {
    NameFieldHolds(s);
    assert NewEntry(s, inum)[2..] == NameField(s);
  }

  function NoEntry(): seq<byte> {
    seq(DESIZE, _ => 0)
  }

  predicate Whole(c: seq<byte>) {
    |c| % DESIZE == 0
  }

  function EntryCount(c: seq<byte>): nat {
    |c| / DESIZE
  }

  function EntryAt(c: seq<byte>, k: nat): (e: seq<byte>)
    requires DESIZE * k + DESIZE <= |c|
    ensures IsEntry(e)
  {
    c[DESIZE * k..DESIZE * k + DESIZE]
  }

  predicate LiveAt(c: seq<byte>, k: nat)
    requires DESIZE * k + DESIZE <= |c|
  {
    Inum(EntryAt(c, k)) != 0
  }

  /** Entry `k` is live and has name `s`. */
  predicate NamedAt(c: seq<byte>, k: nat, s: Name)
    requires DESIZE * k + DESIZE <= |c|
  {
    LiveAt(c, k) && EntryName(EntryAt(c, k)) == s
  }

  /** Live entries have different names. */
  ghost predicate DirOk(c: seq<byte>) {
    && Whole(c)
    && forall j: nat, k: nat, s: Name | j < k < EntryCount(c) && NamedAt(c, j, s) :: !NamedAt(c, k, s)
  }

  /** The map that the first `n` entries stand for. */
  ghost function DirMap(c: seq<byte>, n: nat): map<Name, nat>
    requires DESIZE * n <= |c|
  {
    if n == 0 then map[]
    else if LiveAt(c, n - 1) then DirMap(c, n - 1)[EntryName(EntryAt(c, n - 1)) := Inum(EntryAt(c, n - 1))]
    else DirMap(c, n - 1)
  }

  ghost function Names(c: seq<byte>): map<Name, nat>
    requires Whole(c)
  {
    DirMap(c, EntryCount(c))
  }

  lemma {:induction false} OneNamed(c: seq<byte>, j: nat, k: nat, s: Name)
    requires DirOk(c) && j < EntryCount(c) && k < EntryCount(c) && NamedAt(c, j, s) && NamedAt(c, k, s)
    ensures j == k
  {
  }

  lemma {:induction false} InMap(c: seq<byte>, n: nat, k: nat, s: Name)
    requires DirOk(c) && k < n <= EntryCount(c) && NamedAt(c, k, s)
    ensures s in DirMap(c, n) && DirMap(c, n)[s] == Inum(EntryAt(c, k))
  {
    if k < n - 1 {
      InMap(c, n - 1, k, s);
      assert !NamedAt(c, n - 1, s);
    }
  }

  lemma {:induction false} FromMap(c: seq<byte>, n: nat, s: Name) returns (k: nat)
    requires DESIZE * n <= |c| && s in DirMap(c, n)
    ensures k < n && NamedAt(c, k, s)
  {
    if NamedAt(c, n - 1, s) { k := n - 1; } else { k := FromMap(c, n - 1, s); }
  }

  /** The first entry at or after `k` that is live and named `s`, or the number of entries. */
  function FirstNamed(c: seq<byte>, s: Name, k: nat): (r: nat)
    requires k <= EntryCount(c)
    ensures k <= r <= EntryCount(c) && (r < EntryCount(c) ==> NamedAt(c, r, s)) && forall i | k <= i < r ::
      !NamedAt(c, i, s)
    decreases EntryCount(c) - k
  {
    if k == EntryCount(c) || NamedAt(c, k, s) then k else FirstNamed(c, s, k + 1)
  }

  lemma {:induction false} FirstNamedStep(c: seq<byte>, s: Name, k: nat)
    requires k < EntryCount(c)
    ensures FirstNamed(c, s, k) == if Inum(EntryAt(c, k)) != 0 && EntryName(EntryAt(c, k)) == s then k
      else FirstNamed(c, s, k + 1)
  {
  }

  /** The first dead entry at or after `k`, or the number of entries. */
  function FirstDead(c: seq<byte>, k: nat): (r: nat)
    requires k <= EntryCount(c)
    ensures k <= r <= EntryCount(c) && (r < EntryCount(c) ==> !LiveAt(c, r)) && forall i | k <= i < r :: LiveAt(c, i)
    decreases EntryCount(c) - k
  {
    if k == EntryCount(c) || !LiveAt(c, k) then k else FirstDead(c, k + 1)
  }

  /** The first live entry at or after `k`, or the number of entries. */
  function FirstLive(c: seq<byte>, k: nat): (r: nat)
    requires k <= EntryCount(c)
    ensures k <= r <= EntryCount(c) && (r < EntryCount(c) ==> LiveAt(c, r)) && forall i | k <= i < r :: !LiveAt(c, i)
    decreases EntryCount(c) - k
  {
    if k == EntryCount(c) || LiveAt(c, k) then k else FirstLive(c, k + 1)
  }

  /** Searching the entries is looking the name up in the map. */
  lemma {:induction false} SearchIsLookup(c: seq<byte>, s: Name)
    requires DirOk(c)
    ensures var k := FirstNamed(c, s, 0);
      if k < EntryCount(c) then s in Names(c) && Names(c)[s] == Inum(EntryAt(c, k)) else s !in Names(c)
  {
    var k := FirstNamed(c, s, 0);
    if k < EntryCount(c) {
      InMap(c, EntryCount(c), k, s);
    } else if s in Names(c) {
      var j := FromMap(c, EntryCount(c), s);
    }
  }

  lemma {:induction false} SpliceEntry(c: seq<byte>, k: nat, e: seq<byte>, j: nat)
    requires Whole(c) && k <= EntryCount(c) && IsEntry(e)
    ensures var c' := Splice(c, DESIZE * k, e);
      && Whole(c') && EntryCount(c') == (if k == EntryCount(c) then k + 1 else EntryCount(c))
      && (j < EntryCount(c') ==> EntryAt(c', j) == if j == k then e else EntryAt(c, j))
  {
    var c' := Splice(c, DESIZE * k, e);
    assert |c'| == if k == EntryCount(c) then |c| + DESIZE else |c|;
    if j < EntryCount(c') && j != k {
      forall x | 0 <= x < DESIZE
        ensures EntryAt(c', j)[x] == EntryAt(c, j)[x]
      {
        assert c'[DESIZE * j + x] == c[DESIZE * j + x];
      }
    }
  }

  /** Putting an entry with a name of its own, or a dead one, where none is live or at `k` keeps names apart. */
  lemma {:induction false} PutKeepsOk(c: seq<byte>, k: nat, e: seq<byte>)
    requires DirOk(c) && k <= EntryCount(c) && IsEntry(e)
    requires Inum(e) != 0 ==> forall j | 0 <= j < EntryCount(c) :: !NamedAt(c, j, EntryName(e))
    ensures DirOk(Splice(c, DESIZE * k, e))
  {
    var c' := Splice(c, DESIZE * k, e);
    SpliceEntry(c, k, e, 0);
    forall i: nat, j: nat, n: Name | i < j < EntryCount(c') && NamedAt(c', i, n)
      ensures !NamedAt(c', j, n)
    {
      assert Whole(c);
      hide DirOk;
      SpliceEntry(c, k, e, i);
      SpliceEntry(c, k, e, j);
      if i == k {
        assert n == EntryName(e) && !NamedAt(c, j, n);
      } else if j == k {
        assert NamedAt(c, i, n);
      } else if NamedAt(c', j, n) {
        OneNamed(c, i, j, n);
      }
    }
  }

  /** Adding an entry under a new name adds one pair to the map. */
  lemma {:induction false} LinkMap(c: seq<byte>, k: nat, s: Name, inum: nat)
    requires DirOk(c) && k <= EntryCount(c) && (k < EntryCount(c) ==> !LiveAt(c, k)) && IsString(s) && 0 < inum < U16 &&
      Cut(s) !in Names(c)
    ensures var c' := Splice(c, DESIZE * k, NewEntry(s, inum)); DirOk(c') && Names(c') == Names(c)[Cut(s) := inum]
  {
    var e := NewEntry(s, inum);
    var c', want := Splice(c, DESIZE * k, e), Names(c)[Cut(s) := inum];
    NewEntryIs(s, inum);
    SpliceEntry(c, k, e, 0);
    forall j | 0 <= j < EntryCount(c)
      ensures !NamedAt(c, j, Cut(s))
    {
      if NamedAt(c, j, Cut(s)) { InMap(c, EntryCount(c), j, Cut(s)); }
    }
    PutKeepsOk(c, k, e);
    hide DirOk, NewEntry, Splice, DirMap;
    forall n | n in want
      ensures n in Names(c') && Names(c')[n] == want[n]
    {
      var j := k;
      if n != Cut(s) { j := FromMap(c, EntryCount(c), n); InMap(c, EntryCount(c), j, n); }
      SpliceEntry(c, k, e, j);
      InMap(c', EntryCount(c'), j, n);
    }
    forall n | n in Names(c')
      ensures n in want
    {
      var j := FromMap(c', EntryCount(c'), n);
      SpliceEntry(c, k, e, j);
      if j != k { InMap(c, EntryCount(c), j, n); }
    }
  }

  /** Clearing an entry takes its name out of the map. */
  lemma {:induction false} UnlinkMap(c: seq<byte>, k: nat, s: Name)
    requires DirOk(c) && k < EntryCount(c) && NamedAt(c, k, s)
    ensures var c' := Splice(c, DESIZE * k, NoEntry()); DirOk(c') && Names(c') == Names(c) - {s}
  {
    var e := NoEntry();
    var c', want := Splice(c, DESIZE * k, e), Names(c) - {s};
    SpliceEntry(c, k, e, 0);
    PutKeepsOk(c, k, e);
    assert Inum(e) == 0;
    hide DirOk, NoEntry, Splice, DirMap;
    forall n | n in want
      ensures n in Names(c') && Names(c')[n] == want[n]
    {
      var j := FromMap(c, EntryCount(c), n);
      InMap(c, EntryCount(c), j, n);
      SpliceEntry(c, k, e, j);
      InMap(c', EntryCount(c'), j, n);
    }
    forall n | n in Names(c')
      ensures n in want
    {
      var j := FromMap(c', EntryCount(c'), n);
      SpliceEntry(c, k, e, j);
      InMap(c, EntryCount(c), j, n);
      if n == s { OneNamed(c, j, k, s); }
    }
  }

  /** The only names are those of the first two entries. */
  ghost predicate OnlyFirstTwo(c: seq<byte>)
    requires Whole(c) && 2 <= EntryCount(c)
  {
    Names(c).Keys == {EntryName(EntryAt(c, 0)), EntryName(EntryAt(c, 1))}
  }

  /** `isdirempty` finds only dead entries past the first two exactly when the map has no names but theirs. */
  lemma {:induction false} EmptyMeansTwoNames(c: seq<byte>)
    requires DirOk(c) && 2 <= EntryCount(c) && LiveAt(c, 0) && LiveAt(c, 1)
    ensures FirstLive(c, 2) == EntryCount(c) <==> OnlyFirstTwo(c)
  {
    var n0, n1 := EntryName(EntryAt(c, 0)), EntryName(EntryAt(c, 1));
    InMap(c, EntryCount(c), 0, n0);
    InMap(c, EntryCount(c), 1, n1);
    var k := FirstLive(c, 2);
    if k == EntryCount(c) {
      forall n | n in Names(c)
        ensures n in {n0, n1}
      {
        var j := FromMap(c, EntryCount(c), n);
      }
    } else {
      var n := EntryName(EntryAt(c, k));
      InMap(c, EntryCount(c), k, n);
      assert n in Names(c).Keys;
      if n == n0 { OneNamed(c, 0, k, n); }
      if n == n1 { OneNamed(c, 1, k, n); }
    }
  }
}
