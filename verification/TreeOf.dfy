/** The tree of inodes and names that a file system on disk stands for. */
module TreeOf {
  import opened Sectors
  import opened FsSpec
  import opened FsInv
  import opened FsSteps
  import opened DirSpec
  import opened Dirs
  import opened LinkSpec

  /** A link count as the signed number it is in memory. */
  function Signed(n: nat): int {
    if n <= MAXLINK then n else n - U16
  }

  ghost function NodeOf(v: Disk, d: Dinode): Node {
    Node(d.typ, Signed(d.nlink), if IsDir(v, d) then Names(Contents(v, d)) else map[])
  }

  ghost function NodesOf(v: Disk, ii: seq<Dinode>): (ns: seq<Node>)
    ensures |ns| == |ii| && forall i | 0 <= i < |ii| :: ns[i] == NodeOf(v, ii[i])
  {
    seq(|ii|, i requires 0 <= i < |ii| => NodeOf(v, ii[i]))
  }

  /** Inode `d` is no directory, or its entries are sound and name inodes of the table. */
  ghost predicate DirSound(v: Disk, d: Dinode, n: nat) {
    d.typ == T_DIR ==> IsDir(v, d) && forall s | s in Names(Contents(v, d)) :: Names(Contents(v, d))[s] < n
  }

  ghost predicate DirsSound(v: Disk, ii: seq<Dinode>) {
    forall i | 0 <= i < |ii| :: DirSound(v, ii[i], |ii|)
  }

  /** An operation on one file changes one node of the tree. */
  lemma {:induction false} OneNode(v: Disk, ii: seq<Dinode>, v': Disk, ii': seq<Dinode>, i: nat)
    requires SameFiles(v, ii, v', ii', i) && i < |ii| == |ii'| && forall j | 0 <= j < |ii| :: Mapped(v, ii[j])
    ensures NodesOf(v', ii') == NodesOf(v, ii)[i := NodeOf(v', ii'[i])]
  {
    hide Mapped, Contents, DirOk, Names;
    forall j | 0 <= j < |ii| && j != i
      ensures NodeOf(v', ii'[j]) == NodeOf(v, ii[j])
    {
      assert SameFile(v, ii[j], v', ii'[j]);
    }
  }
}
