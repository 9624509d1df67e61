/**
 * Open files.  A write is cut into chunks, one transaction each, so that a
 * chunk never outgrows the log; a crash leaves a whole number of chunks.
 */
module Files {
  import opened Sectors
  import opened FsSpec
  import opened FsInv
  import opened FsSteps
  import opened LogSpec
  import opened Log
  import opened Blocks
  import opened BlockMap
  import opened Inodes

  /** Bytes per chunk: half of what the log holds after inode, indirect block and two blocks of slop. */
  const MAXCHUNK := (LOGSIZE - 1 - 1 - 2) / 2 * 512

  /** An in-memory inode. */
  class Inode {
    const inum: nat
    var d: Dinode

    constructor (inum: nat, d: Dinode)
      ensures this.inum == inum && this.d == d
    {
      this.inum, this.d := inum, d;
    }
  }

  /** No transaction is open, nothing is held or pinned, and the disk is a sound file system. */
  ghost predicate Quiet(log: Log, lay: Layout, ii: seq<Dinode>, owner: seq<Owner>)
    reads log, log.bc
  {
    && Ready(log, lay) && !log.busy && log.bc.a.held == {} && log.bc.a.pinned == {}
    && FsOk(log.View(), ii, owner, lay) && Table(log.View(), ii, lay)
  }

  /** The blocks of a file from `lo` up to `hi`. */
  ghost function BlocksIn(v: Disk, d: Dinode, lo: nat, hi: nat): (r: set<nat>)
    requires d.Ok() && hi <= MAXFILE
    ensures |r| <= if lo < hi then hi - lo else 0
    ensures forall bn: nat | lo <= bn < hi :: Addr(v, d, SlotOf(bn)) in r
  {
    if lo >= hi then {} else BlocksIn(v, d, lo, hi - 1) + {Addr(v, d, SlotOf(hi - 1))}
  }

  function Ceil(n: nat): nat {
    (n + BSIZE - 1) / BSIZE
  }

  /** The sectors a write from `off` to `end` may log, other than those it allocates. */
  ghost function WriteSet(v: Disk, d: Dinode, lay: Layout, i: nat, off: nat, end: nat): set<nat>
    requires d.Ok() && off <= d.size <= MAXFILE * BSIZE
  {
    lay.Bitmaps() + {lay.IBlock(i)} + (if d.addrs[NDIRECT] != 0 then {d.addrs[NDIRECT]} else {})
    + BlocksIn(v, d, off / BSIZE, Ceil(if d.size < end then d.size else end))
  }

  lemma {:induction false} OneBitmap(lay: Layout)
    requires lay.size < BPB
    ensures lay.Bitmaps() == {lay.BBlock(0)}
  {
    var bm := lay.Bitmaps();
    assert lay.BBlock(0 * BPB) in bm;
    forall b | b in bm
      ensures b == lay.BBlock(0)
    {
      var j: nat :| j <= lay.size / BPB && b == lay.BBlock(j * BPB);
      assert j == 0;
    }
  }

  lemma {:induction false} UnionBound(a: set<nat>, b: set<nat>)
    ensures |a + b| <= |a| + |b|
  {
    assert a + b == a + (b - a);
  }

  /**
   * Blocks touched and blocks added by a chunk come to at most four, and the indirect block is one of these or not new.
   */
  lemma {:induction false} ChunkBlocks(size: nat, off: nat, n: nat)
    requires off <= size && n <= MAXCHUNK
    ensures SlotCount(size) <= SlotCount(Max(size, off + n))
    ensures var had := Ceil(if size < off + n then size else off + n) - off / BSIZE;
      (if had > 0 then had else 0) + (SlotCount(Max(size, off + n)) - SlotCount(size)) <= 4 +
        (if size > BSIZE * NDIRECT then 0 else 1)
  {
  }

  /**
   * With one bitmap block, a chunk logs at most CAP sectors: bitmap, inode, indirect
   * block, and the at most four blocks that MAXCHUNK bytes can straddle.
   */
  lemma {:induction false} ChunkFits(v: Disk, d: Dinode, lay: Layout, i: nat, off: nat, n: nat)
    requires Mapped(v, d) && lay.size < BPB && off <= d.size && n <= MAXCHUNK
    ensures SlotCount(d.size) <= SlotCount(Max(d.size, off + n))
    ensures Room({}, WriteSet(v, d, lay, i, off, off + n), SlotCount(Max(d.size, off + n)) - SlotCount(d.size))
  {
    assert Addr(v, d, NDIRECT) == d.addrs[NDIRECT];
    hide Addr, SlotCount, Layout.Bitmaps;
    var end := off + n;
    var bm, ib := lay.Bitmaps(), {lay.IBlock(i)};
    var ind := if d.addrs[NDIRECT] != 0 then {d.addrs[NDIRECT]} else {};
    var bs := BlocksIn(v, d, off / BSIZE, Ceil(if d.size < end then d.size else end));
    assert MappedSlot(v, d, NDIRECT);
    OneBitmap(lay);
    ChunkBlocks(d.size, off, n);
    UnionBound(bm, ib);
    UnionBound(bm + ib, ind);
    UnionBound(bm + ib + ind, bs);
    assert |bm| == |ib| == 1 && |ind| == if d.size > BSIZE * NDIRECT then 1 else 0;
    var all := WriteSet(v, d, lay, i, off, end);
    assert {} + all == all == bm + ib + ind + bs;
  }

  /** The write set of a chunk covers what `inode_write` asks for. */
  lemma {:induction false} ChunkReady(log: Log, lay: Layout, ii: seq<Dinode>, owner: seq<Owner>, i: nat, off: nat,
                                      n: nat)
    requires Quiet(log, lay, ii, owner) && i < |ii| && lay.size < BPB && n <= MAXCHUNK && off <= ii[i].size
    ensures lay.Ok() && |log.View()| == lay.Start() && ii[i].Ok() && ii[i].size <= MAXFILE * BSIZE &&
      SlotCount(ii[i].size) <= SlotCount(Max(ii[i].size, off + n))
    ensures var fixed, extra :=
      WriteSet(log.View(), ii[i], lay, i, off, off + n), SlotCount(Max(ii[i].size, off + n)) - SlotCount(ii[i].size);
      && Room({}, fixed, extra) && lay.Bitmaps() <= fixed && lay.IBlock(i) in fixed
      && (ii[i].addrs[NDIRECT] != 0 ==> ii[i].addrs[NDIRECT] in fixed)
      && BlocksAllowed(log.View(), ii[i], off, off + n, {}, fixed)
  {
    hide Log.Valid, Log.View, Addr, SlotCount, FsOwn, Table, Layout.Bitmaps, Room;
    ShapeOf(log.View(), ii, owner, lay);
    ChunkFits(log.View(), ii[i], lay, i, off, n);
    var v, d, end := log.View(), ii[i], off + n;
    forall bn: nat | off / BSIZE <= bn < MAXFILE && BSIZE * bn < d.size && BSIZE * bn < end
      ensures Addr(v, d, SlotOf(bn)) in WriteSet(v, d, lay, i, off, end)
    {
      assert bn < Ceil(if d.size < end then d.size else end);
    }
  }

  /** One chunk: a transaction that writes `src` at `off`, or changes nothing. */
  method WriteChunk(log: Log, ip: Inode, src: seq<byte>, off: nat, ghost lay: Layout, ghost ii: seq<Dinode>,
                    ghost owner: seq<Owner>)
    returns (r: int, ghost ii': seq<Dinode>, ghost owner': seq<Owner>)
    requires Quiet(log, lay, ii, owner) && lay.size < BPB && |src| <= MAXCHUNK && off < U32
    requires ip.inum < |ii| && ip.d == ii[ip.inum]
    requires off <= ip.d.size && off + |src| <= MAXFILE * BSIZE ==>
      SlotCount(Max(ip.d.size, off + |src|)) - SlotCount(ip.d.size) <= |FreeBlocks(log.View(), lay)|
    modifies log, log.bc, ip
    ensures Quiet(log, lay, ii', owner') && |ii'| == |ii| && ip.d == ii'[ip.inum]
    ensures r == if off <= old(ip.d.size) && off + |src| <= MAXFILE * BSIZE then |src| else -1
    ensures r < 0 ==> log.View() == old(log.View()) && ii' == ii && owner' == owner
    ensures r >= 0 ==> Wrote(old(log.View()), ii, log.View(), ii', ip.inum, off, src)
    ensures r >= 0 ==>
      |FreeBlocks(log.View(), lay)| ==
        |FreeBlocks(old(log.View()), lay)| - (SlotCount(Max(old(ip.d.size), off + |src|)) - SlotCount(old(ip.d.size)))
    ensures EitherWay(log.bc.a.trace, old(log.bc.a.trace), log.start, old(log.View()), log.View())
  {
    hide Log.Valid, Log.View, SlotCount, FsOwn, Table, Layout.Bitmaps, Room, Mapped, FreeBlocks, Wrote, StandsFor,
      BlocksAllowed, WriteSet;
    ghost var i := ip.inum;
    ghost var v, d := log.View(), ip.d;
    ghost var fixed, extra := {}, 0;
    if !BadWrite(d.size, off, |src|) {
      ChunkReady(log, lay, ii, owner, i, off, |src|);
      fixed, extra := WriteSet(v, d, lay, i, off, off + |src|), SlotCount(Max(d.size, off + |src|)) - SlotCount(d.size);
    }
    log.Begin();
    var d';
    r, d', ii', owner' := InodeWrite(log, ip.inum, ip.d, src, off, lay, ii, owner, fixed, extra);
    ip.d := d';
    if r >= 0 {
      RoomWithin(log.bc.a.pinned, fixed, extra - (SlotCount(Max(d.size, off + |src|)) - SlotCount(d.size)), {}, 0);
      RoomEmpty(log.bc.a.pinned);
    }
    ghost var m := log.Commit();
  }

  /** Every disk since `before` stands for one of two contents. */
  ghost predicate EitherWay(trace: seq<Disk>, before: seq<Disk>, start: nat, v: Disk, v': Disk) {
    before <= trace && forall k | |before| <= k < |trace| ::
      StandsFor(trace[k], start, v) || StandsFor(trace[k], start, v')
  }

  class OpenFile {
    const ip: Inode
    const readable: bool
    const writable: bool
    var off: nat

    constructor (ip: Inode, readable: bool, writable: bool)
      ensures this.ip == ip && this.readable == readable && this.writable == writable && off == 0
    {
      this.ip, this.readable, this.writable, off := ip, readable, writable, 0;
    }
  }

  /** A byte count at which `file_write` is between chunks. */
  predicate Boundary(j: nat, n: nat) {
    j % MAXCHUNK == 0 || j == n
  }

  /** The first `j` bytes of `src` have gone into file `i` at `off`; a write past the end puts in nothing. */
  ghost predicate Progress(v: Disk, ii: seq<Dinode>, v': Disk, ii': seq<Dinode>, i: nat, off: nat, src: seq<byte>,
                           j: nat) {
    && i < |ii| && j <= |src| && Boundary(j, |src|)
    && if off <= ii[i].size then Wrote(v, ii, v', ii', i, off, src[..j]) else j == 0 && v' == v && ii' == ii
  }

  ghost predicate Sound(v: Disk, ii: seq<Dinode>, owner: seq<Owner>, lay: Layout) {
    FsOk(v, ii, owner, lay) && Table(v, ii, lay)
  }

  /** An inode not in use: all zeros. */
  function Unused(): Dinode {
    Dinode(0, 0, 0, 0, 0, seq(NDIRECT + 1, _ => 0))
  }

  /**
   * After a crash that leaves the disk `d`, recovery yields a sound file system in which whole chunks of `src` were
   * written.
   */
  ghost predicate Survives(d: Disk, lay: Layout, v: Disk, ii: seq<Dinode>, i: nat, off: nat, src: seq<byte>) {
    && lay.Start() >= 0 && HeaderOk(d, lay.Start())
    && exists j: nat, ii', owner' ::
       Sound(Logical(d, lay.Start()), ii', owner', lay) && Progress(v, ii, Logical(d, lay.Start()), ii', i, off, src, j)
  }

  lemma {:induction false} ProgressNone(v: Disk, ii: seq<Dinode>, i: nat, off: nat, src: seq<byte>)
    requires i < |ii| && Mapped(v, ii[i])
    ensures Progress(v, ii, v, ii, i, off, src, 0)
  {
    hide Mapped, Contents;
    if off <= ii[i].size {
      assert src[..0] == [] && Splice(Contents(v, ii[i]), off, []) == Contents(v, ii[i]);
    }
  }

  lemma {:induction false} BoundaryNext(j: nat, m: nat, n: nat)
    requires Boundary(j, n) && 0 < m && j + m <= n && (m == MAXCHUNK || j + m == n)
    ensures Boundary(j + m, n)
  {
    if m == MAXCHUNK {
      var q := j / MAXCHUNK;
      assert j == MAXCHUNK * q;
      assert j + m == MAXCHUNK * (q + 1);
    }
  }

  lemma {:induction false} ProgressStep(v: Disk, ii: seq<Dinode>, v1: Disk, ii1: seq<Dinode>, v2: Disk,
                                        ii2: seq<Dinode>, i: nat, off: nat, src: seq<byte>, j: nat, m: nat)
    requires Progress(v, ii, v1, ii1, i, off, src, j) && j + m <= |src| &&
      Wrote(v1, ii1, v2, ii2, i, off + j, src[j..j + m])
    requires 0 < m && (m == MAXCHUNK || j + m == |src|)
    ensures Progress(v, ii, v2, ii2, i, off, src, j + m) && Boundary(j + m, |src|) && off <= ii[i].size
  {
    hide Mapped, Contents, Splice, SameFiles, Boundary;
    BoundaryNext(j, m, |src|);
    if off <= ii[i].size {
      SpliceTwice(Contents(v, ii[i]), off, src[..j], src[j..j + m]);
      assert src[..j] + src[j..j + m] == src[..j + m];
      SameFilesTrans(v, ii, v1, ii1, v2, ii2, i);
    }
  }

  /** Every disk since `before` survives a crash. */
  ghost predicate AllSurvive(trace: seq<Disk>, before: seq<Disk>, lay: Layout, v: Disk, ii: seq<Dinode>, i: nat,
                             off: nat, src: seq<byte>) {
    before <= trace && forall k | |before| <= k < |trace| :: Survives(trace[k], lay, v, ii, i, off, src)
  }

  lemma {:induction false} ChunkSurvives(trace: seq<Disk>, mid: seq<Disk>, before: seq<Disk>, lay: Layout, v: Disk,
                                         ii: seq<Dinode>, i: nat, off: nat, src: seq<byte>, v1: Disk, ii1: seq<Dinode>,
                                         owner1: seq<Owner>, j1: nat, v2: Disk, ii2: seq<Dinode>, owner2: seq<Owner>,
                                         j2: nat)
    requires lay.Start() >= 0 && EitherWay(trace, mid, lay.Start(), v1, v2) &&
      AllSurvive(mid, before, lay, v, ii, i, off, src)
    requires Sound(v1, ii1, owner1, lay) && Progress(v, ii, v1, ii1, i, off, src, j1)
    requires Sound(v2, ii2, owner2, lay) && Progress(v, ii, v2, ii2, i, off, src, j2)
    ensures AllSurvive(trace, before, lay, v, ii, i, off, src)
  {
    hide Sound, Progress, Logical, HeaderOk;
    forall k | |before| <= k < |trace|
      ensures Survives(trace[k], lay, v, ii, i, off, src)
    {
      if k >= |mid| {
        var c := Logical(trace[k], lay.Start());
        if c == v1 {
          assert Sound(c, ii1, owner1, lay) && Progress(v, ii, c, ii1, i, off, src, j1);
        } else {
          assert Sound(c, ii2, owner2, lay) && Progress(v, ii, c, ii2, i, off, src, j2);
        }
      }
    }
  }

  lemma {:induction false} WroteSize(v: Disk, ii: seq<Dinode>, v': Disk, ii': seq<Dinode>, i: nat, off: nat,
                                     src: seq<byte>)
    requires Wrote(v, ii, v', ii', i, off, src)
    ensures off <= ii[i].size && ii'[i].size == Max(ii[i].size, off + |src|)
  {
  }

  /** A chunk that is not refused needs no more blocks than the whole write still does. */
  lemma {:induction false} ChunkBudget(size: nat, off: nat, n: nat, end: nat)
    requires size <= MAXFILE * BSIZE && (off + n <= end || end == MAXFILE * BSIZE) && n <= MAXCHUNK &&
      off <= size && off + n <= MAXFILE * BSIZE
    ensures off + n <= MAXFILE * BSIZE < U32 && Max(Max(size, off + n), end) == Max(size, end)
    ensures SlotCount(size) <= SlotCount(Max(size, off + n)) <= SlotCount(Max(size, end))
  {
    SlotCountMono(size, Max(size, off + n));
    SlotCountMono(Max(size, off + n), Max(size, end));
  }

  /** What a run of `file_write` that began in `v`, `ii` at offset `off` has done once `tot` bytes are in. */
  ghost predicate Midway(log: Log, f: OpenFile, lay: Layout, v: Disk, ii: seq<Dinode>, off: nat, src: seq<byte>,
                         tot: nat, ii': seq<Dinode>, owner': seq<Owner>, before: seq<Disk>)
    reads log, log.bc, f, f.ip
  {
    && tot <= |src| && Boundary(tot, |src|) && f.off == off + tot < U32
    && Quiet(log, lay, ii', owner') && lay.size < BPB && f.ip.inum < |ii'| == |ii| && f.ip.d == ii'[f.ip.inum]
    && |log.View()| == lay.Start()
    && Progress(v, ii, log.View(), ii', f.ip.inum, off, src, tot)
    && SlotCount(Max(f.ip.d.size,
       Min(off + |src|, MAXFILE * BSIZE))) - SlotCount(f.ip.d.size) <= |FreeBlocks(log.View(), lay)|
    && AllSurvive(log.bc.a.trace, before, lay, v, ii, f.ip.inum, off, src)
  }

  /** One round of the loop in `file_write`. */
  method WriteNext(log: Log, f: OpenFile, src: seq<byte>, tot: nat, n: nat, ghost lay: Layout, ghost v: Disk,
                   ghost ii: seq<Dinode>, ghost off: nat, ghost ii1: seq<Dinode>, ghost owner1: seq<Owner>,
                   ghost before: seq<Disk>)
    returns (r: int, ghost ii': seq<Dinode>, ghost owner': seq<Owner>)
    requires Midway(log, f, lay, v, ii, off, src, tot, ii1, owner1, before) && 0 < n <= MAXCHUNK && tot + n <= |src|
    requires n == MAXCHUNK || tot + n == |src|
    modifies log, log.bc, f, f.ip
    ensures r == if old(f.off) <= old(f.ip.d.size) && old(f.off) + n <= MAXFILE * BSIZE then n else -1
    ensures r == n ==>
      Midway(log, f, lay, v, ii, off, src, tot + n, ii', owner', before) &&
      f.ip.d.size == Max(old(f.ip.d.size), old(f.off) + n)
    ensures r == -1 ==>
      Midway(log, f, lay, v, ii, off, src, tot, ii', owner', before) && f.ip.d.size == old(f.ip.d.size)
  {
    hide Log.Valid, Log.View, SlotCount, FsOk, Table, Mapped, FreeBlocks, Wrote, AllSurvive, Ready, Progress, EitherWay,
      Sound, Boundary;
    ghost var v1, trace1, i, size1 := log.View(), log.bc.a.trace, f.ip.inum, f.ip.d.size;
    QuietMapped(log, lay, ii1, owner1, i);
    if f.off <= size1 && f.off + n <= MAXFILE * BSIZE {
      ChunkBudget(size1, f.off, n, Min(off + |src|, MAXFILE * BSIZE));
    }
    r, ii', owner' := WriteChunk(log, f.ip, src[tot..tot + n], f.off, lay, ii1, owner1);
    QuietMapped(log, lay, ii', owner', i);
    if r > 0 {
      ProgressStep(v, ii, v1, ii1, log.View(), ii', i, off, src, tot, n);
      WroteSize(v1, ii1, log.View(), ii', i, f.off, src[tot..tot + n]);
      f.off := f.off + r;
    }
    ChunkSurvives(log.bc.a.trace, trace1, before, lay, v, ii, i, off, src, v1, ii1, owner1, tot, log.View(), ii',
      owner', if r > 0 then tot + n else tot);
  }

  /**
   * `file_write`.  Writes chunk by chunk from the file's offset until done or refused.
   * At every point of the run, the disk is one from which recovery finds a sound
   * file system with a whole number of chunks written.
   */
  method FileWrite(log: Log, f: OpenFile, src: seq<byte>, n: int, ghost lay: Layout, ghost ii: seq<Dinode>,
                   ghost owner: seq<Owner>)
    returns (r: int, ghost done: nat, ghost ii': seq<Dinode>, ghost owner': seq<Owner>)
    requires Quiet(log, lay, ii, owner) && lay.size < BPB && f.off < U32 && (n >= 0 ==> |src| == n < U32)
    requires f.ip.inum < |ii| && f.ip.d == ii[f.ip.inum]
    requires SlotCount(Max(f.ip.d.size,
      Min(f.off + |src|, MAXFILE * BSIZE))) - SlotCount(f.ip.d.size) <= |FreeBlocks(log.View(), lay)|
    modifies log, log.bc, f, f.ip
    ensures Quiet(log, lay, ii', owner') && |ii'| == |ii| && f.ip.d == ii'[f.ip.inum]
    ensures f.off == old(f.off) + done &&
      Progress(old(log.View()), ii, log.View(), ii', f.ip.inum, old(f.off), src, done)
    ensures r == if f.writable && n >= 0 && done == n then n else -1
    ensures f.writable && n > 0 ==>
      (r == n <==> old(f.off) <= old(f.ip.d.size) && old(f.off) + n <= MAXFILE * BSIZE)
    ensures f.writable && done < n ==>
      if old(f.off) > old(f.ip.d.size) then done == 0
      else f.off <= MAXFILE * BSIZE < f.off + Min(n - done, MAXCHUNK) && done % MAXCHUNK == 0
    ensures !f.writable || n < 0 ==> done == 0
    ensures AllSurvive(log.bc.a.trace, old(log.bc.a.trace), lay, old(log.View()), ii, f.ip.inum, old(f.off), src)
  {
    hide Log.Valid, Log.View, SlotCount, FsOk, Table, Mapped, FreeBlocks, Survives, Ready, Progress;
    ghost var v, off0, size0 := log.View(), f.off, f.ip.d.size;
    done, ii', owner' := 0, ii, owner;
    QuietMapped(log, lay, ii, owner, f.ip.inum);
    ProgressNone(v, ii, f.ip.inum, off0, src);
    if !f.writable { return -1, done, ii', owner'; }
    var tot := 0;
    while tot < n
      invariant tot == done <= |src| && (n < 0 ==> tot == 0) &&
        Midway(log, f, lay, v, ii, off0, src, tot, ii', owner', old(log.bc.a.trace))
      invariant if tot == 0 then f.ip.d.size == size0
                else off0 <= size0 && f.off <= MAXFILE * BSIZE && f.ip.d.size == Max(size0, f.off)
    {
      var n1 := n - tot;
      if n1 > MAXCHUNK { n1 := MAXCHUNK; }
      r, ii', owner' := WriteNext(log, f, src, tot, n1, lay, v, ii, off0, ii', owner', old(log.bc.a.trace));
      if r < 0 {
        break;
      }
      tot := tot + r;
      done := tot;
    }
    r := if tot == n then n else -1;
  }

  lemma {:induction false} QuietMapped(log: Log, lay: Layout, ii: seq<Dinode>, owner: seq<Owner>, i: nat)
    requires Quiet(log, lay, ii, owner) && i < |ii|
    ensures Mapped(log.View(), ii[i]) && ii[i].size <= MAXFILE * BSIZE && |log.View()| == lay.Start() && lay.Ok() &&
      log.start == lay.Start() && Sound(log.View(), ii, owner, lay)
  {
    hide Log.Valid, Log.View, Table, MappedSlot, OwnsSlot, OwnedOk;
  }

  /**
   * Crash safety end to end.  Stop `file_write` at any of its sector writes, then let recovery
   * be cut off any number of times: the attempt that completes leaves an empty log over a
   * sound file system that holds a whole number of chunks and every other file as it was.
   */
  lemma {:induction false} WriteSurvives(d: Disk, lay: Layout, v: Disk, ii: seq<Dinode>, i: nat, off: nat,
                                         src: seq<byte>, crashes: seq<nat>)
    requires Survives(d, lay, v, ii, i, off, src)
    ensures var start := lay.Start() as nat; var last := AfterCrashes(d, start, crashes);
      var r := Recovering(last, start, Word(last[start], 0) + 1);
      && Word(r[start], 0) == 0
      && exists j: nat, ii', owner' ::
         Sound(r[..start], ii', owner', lay) && Progress(v, ii, r[..start], ii', i, off, src, j)
  {
    hide Sound, Progress, Logical, HeaderOk;
    RecoveryIdempotent(d, lay.Start(), crashes);
  }

  /** What was written is what is read back at the same offset. */
  lemma {:induction false} ReadBack(v: Disk, ii: seq<Dinode>, v': Disk, ii': seq<Dinode>, i: nat, off: nat,
                                    src: seq<byte>)
    requires Progress(v, ii, v', ii', i, off, src, |src|) && off <= ii[i].size
    ensures Mapped(v', ii'[i]) && off + |src| <= ii'[i].size && Contents(v', ii'[i])[off..off + |src|] == src
  {
    hide Mapped, Contents, SameFiles;
    assert src[..|src|] == src;
  }

  /** `file_read`: the clipped slice at the file's offset, which moves past it; the disk is left alone. */
  method FileRead(log: Log, f: OpenFile, n: int, ghost lay: Layout, ghost ii: seq<Dinode>, ghost owner: seq<Owner>)
    returns (r: int, dst: seq<byte>)
    requires Quiet(log, lay, ii, owner) && f.off < U32 && f.ip.inum < |ii| && f.ip.d == ii[f.ip.inum]
    modifies log`lh, log`slot, log.bc, f
    ensures Quiet(log, lay, ii, owner) && log.View() == old(log.View()) && log.bc.a.trace == old(log.bc.a.trace)
    ensures !f.readable || old(f.off) > f.ip.d.size || old(f.off) + n % U32 >= U32 ==>
      r == -1 && dst == [] && f.off == old(f.off)
    ensures f.readable && old(f.off) <= f.ip.d.size && old(f.off) + n % U32 < U32 ==>
      && r == |dst| == Min(n % U32, f.ip.d.size - old(f.off)) && f.off == old(f.off) + r && Mapped(log.View(), f.ip.d)
      && dst == Contents(log.View(), f.ip.d)[old(f.off)..f.off]
  {
    hide Log.Valid, Log.View, FsOk, Table, Contents, Mapped, Ready;
    if !f.readable { return -1, []; }
    r, dst := InodeRead(log, f.ip.d, f.off, n % U32, lay, ii, owner, f.ip.inum);
    if r > 0 { f.off := f.off + r; }
  }
}
