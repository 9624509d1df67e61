/**
 * What an on-disk redo log means.  A disk is `start` home sectors, a header
 * sector, and the log blocks.  Its logical contents are the home sectors with
 * the blocks the header names laid over them: recovery turns any disk into its
 * logical contents, and a transaction commits by changing the header alone.
 */
module LogSpec {
  import opened Sectors

  const LOGSIZE := 10

  type Disk = seq<Sector>

  /** The first `n` sector numbers of a header sector. */
  function Entries(h: Sector, n: nat): (r: seq<nat>)
    requires n <= LOGSIZE
    ensures |r| == n && forall i | 0 <= i < n :: r[i] == Word(h, i + 1)
  {
    seq(n, i requires 0 <= i < n <= LOGSIZE => Word(h, i + 1))
  }

  ghost predicate EntriesFit(lh: seq<nat>) {
    |lh| <= LOGSIZE && forall i | 0 <= i < |lh| :: lh[i] < U32
  }

  /** The header `write_head` leaves in a buffer that held `h`. */
  ghost function HeaderWith(h: Sector, lh: seq<nat>): Sector
    requires EntriesFit(lh)
  {
    PutEntries(SetWord(h, 0, |lh|), lh, |lh|)
  }

  ghost function PutEntries(h: Sector, lh: seq<nat>, k: nat): Sector
    requires EntriesFit(lh) && k <= |lh|
  {
    if k == 0 then h else SetWord(PutEntries(h, lh, k - 1), k, lh[k - 1])
  }

  lemma {:induction false} PutEntriesWord(h: Sector, lh: seq<nat>, k: nat, j: nat)
    requires EntriesFit(lh) && k <= |lh| && j < 128
    ensures Word(PutEntries(h, lh, k), j) == if 1 <= j <= k then lh[j - 1] else Word(h, j)
  {
    if k > 0 {
      PutEntriesWord(h, lh, k - 1, j);
      WordOfSetWord(PutEntries(h, lh, k - 1), k, lh[k - 1], j);
    }
  }

  /** A header written is a header read. */
  lemma {:induction false} HeaderRoundTrip(h: Sector, lh: seq<nat>)
    requires EntriesFit(lh)
    ensures var h' := HeaderWith(h, lh); Word(h', 0) == |lh| && Entries(h', |lh|) == lh
  {
    var h0 := SetWord(h, 0, |lh|);
    PutEntriesWord(h0, lh, |lh|, 0);
    WordOfSetWord(h, 0, |lh|, 0);
    forall i | 0 <= i < |lh|
      ensures Word(HeaderWith(h, lh), i + 1) == lh[i]
    {
      PutEntriesWord(h0, lh, |lh|, i + 1);
    }
  }

  ghost predicate LogFits<D>(d: seq<D>, lh: seq<nat>, start: nat) {
    start + 1 + |lh| <= |d| && forall i | 0 <= i < |lh| :: lh[i] < start
  }

  /** The disk after copying log block `i` to home sector `lh[i]`, for the first `k` entries in order. */
  ghost function Replay<D>(d: seq<D>, lh: seq<nat>, start: nat, k: nat): (r: seq<D>)
    requires LogFits(d, lh, start) && k <= |lh|
    ensures |r| == |d|
    ensures forall s | start <= s < |d| :: r[s] == d[s]
  {
    if k == 0 then d else Replay(d, lh, start, k - 1)[lh[k - 1] := d[start + k]]
  }

  /** Replay reads only the log blocks and the home sectors it does not overwrite. */
  lemma {:induction false} ReplayAgree<D>(d: seq<D>, d': seq<D>, lh: seq<nat>, start: nat, k: nat, more: set<nat>)
    requires LogFits(d, lh, start) && |d| == |d'| && k <= |lh|
    requires forall s | start <= s < |d| :: d[s] == d'[s]
    requires forall s | 0 <= s < start && s !in lh[..k] && s !in more :: d[s] == d'[s]
    ensures forall s | 0 <= s < |d| && s !in more :: Replay(d, lh, start, k)[s] == Replay(d', lh, start, k)[s]
  {
    if k > 0 {
      assert lh[..k] == lh[..k - 1] + [lh[k - 1]];
      ReplayAgree(d, d', lh, start, k - 1, more + {lh[k - 1]});
    }
  }

  /** A log that supplies the right value of every sector it names replays to `want`. */
  lemma {:induction false} ReplayIs<D>(d: seq<D>, lh: seq<nat>, start: nat, k: nat, want: seq<D>)
    requires LogFits(d, lh, start) && |want| == start && k <= |lh|
    requires forall s | 0 <= s < start && s !in lh[..k] :: d[s] == want[s]
    requires forall i | 0 <= i < |lh| :: d[start + 1 + i] == want[lh[i]]
    ensures Replay(d, lh, start, k)[..start] == want
    decreases k
  {
    if k > 0 {
      var d' := d[lh[k - 1] := want[lh[k - 1]]];
      assert lh[..k] == lh[..k - 1] + [lh[k - 1]];
      ReplayIs(d', lh, start, k - 1, want);
      ReplayAgree(d', d, lh, start, k - 1, {lh[k - 1]});
    }
  }

  lemma {:induction false} ReplayKeeps<D>(d: seq<D>, lh: seq<nat>, start: nat, k: nat, s: nat)
    requires LogFits(d, lh, start) && k <= |lh| && s < |d| && s !in lh[..k]
    ensures Replay(d, lh, start, k)[s] == d[s]
  {
    if k > 0 {
      assert lh[..k] == lh[..k - 1] + [lh[k - 1]];
      ReplayKeeps(d, lh, start, k - 1, s);
    }
  }

  /** Home sectors already partly (or wholly) installed still replay to the same contents. */
  lemma {:induction false} ReplayTwice<D>(d: seq<D>, lh: seq<nat>, start: nat, k: nat)
    requires LogFits(d, lh, start) && k <= |lh|
    ensures Replay(Replay(d, lh, start, k), lh, start, |lh|) == Replay(d, lh, start, |lh|)
  {
    var d' := Replay(d, lh, start, k);
    assert lh[..|lh|] == lh;
    forall s: nat | s < start && s !in lh
      ensures d'[s] == d[s]
    {
      ReplayKeeps(d, lh, start, k, s);
    }
    ReplayAgree(d', d, lh, start, |lh|, {});
  }

  ghost predicate HeaderOk(d: Disk, start: nat)
  {
    && start < |d|
    && var n := Word(d[start], 0);
    && n <= LOGSIZE && LogFits(d, Entries(d[start], n), start)
  }

  ghost function Header(d: Disk, start: nat): (lh: seq<nat>)
    requires HeaderOk(d, start)
    ensures LogFits(d, lh, start) && |lh| == Word(d[start], 0)
  {
    Entries(d[start], Word(d[start], 0))
  }

  /** The contents a disk stands for: its home sectors, with a committed log replayed over them. */
  ghost function Logical(d: Disk, start: nat): (r: Disk)
    requires HeaderOk(d, start)
    ensures |r| == start
  {
    Replay(d, Header(d, start), start, Word(d[start], 0))[..start]
  }

  ghost predicate StandsFor(d: Disk, start: nat, contents: Disk)
  {
    HeaderOk(d, start) && Logical(d, start) == contents
  }

  /** The disk after `k` of recovery's sector writes: one per log block, then the cleared header. */
  ghost function Recovering(d: Disk, start: nat, k: nat): (r: Disk)
    requires HeaderOk(d, start)
    ensures |r| == |d|
  {
    var lh := Header(d, start);
    if k <= |lh| then Replay(d, lh, start, k) else Replay(d, lh, start, |lh|)[start := HeaderWith(d[start], [])]
  }

  /** Write `k` of recovery installs log block `k`, and the one after the last block clears the header. */
  lemma {:induction false} RecoveringNext(d: Disk, start: nat, k: nat)
    requires HeaderOk(d, start) && k <= Word(d[start], 0)
    ensures Recovering(d, start, 0) == d
    ensures var lh, r := Header(d, start), Recovering(d, start, k);
      && (forall s | start <= s < |d| :: r[s] == d[s])
      && Recovering(d, start, k + 1) == if k < |lh| then r[lh[k] := d[start + 1 + k]]
         else r[start := HeaderWith(d[start], [])]
  {
  }

  /** No write of recovery changes what the disk stands for; the last one leaves it in the home sectors. */
  lemma {:induction false} RecoveryStep(d: Disk, start: nat, k: nat)
    requires HeaderOk(d, start)
    ensures StandsFor(Recovering(d, start, k), start, Logical(d, start))
    ensures k > Word(d[start], 0) ==>
      Word(Recovering(d, start, k)[start], 0) == 0 && Recovering(d, start, k)[..start] == Logical(d, start)
  {
    var lh := Header(d, start);
    if k <= |lh| {
      ReplayTwice(d, lh, start, k);
    } else {
      HeaderRoundTrip(d[start], []);
    }
  }

  /** With an empty header a disk stands for its home sectors. */
  lemma {:induction false} EmptyHeader(d: Disk, start: nat)
    requires start < |d| && Word(d[start], 0) == 0
    ensures StandsFor(d, start, d[..start])
  {
  }

  /** Writing the header over an empty one commits exactly the logged blocks. */
  lemma {:induction false} CommitPoint(d: Disk, start: nat, lh: seq<nat>, want: Disk)
    requires EntriesFit(lh) && LogFits(d, lh, start) && |want| == start
    requires forall s | 0 <= s < start && s !in lh :: d[s] == want[s]
    requires forall i | 0 <= i < |lh| :: d[start + 1 + i] == want[lh[i]]
    ensures var d1 := d[start := HeaderWith(d[start], lh)]; StandsFor(d1, start, want) && Header(d1, start) == lh
  {
    var d1 := d[start := HeaderWith(d[start], lh)];
    HeaderRoundTrip(d[start], lh);
    assert lh[..|lh|] == lh;
    ReplayIs(d1, lh, start, |lh|, want);
  }

  /** The disk after a series of recovery attempts, attempt `i` cut off by a crash after `crashes[i]` writes. */
  ghost function AfterCrashes(d: Disk, start: nat, crashes: seq<nat>): (r: Disk)
    requires HeaderOk(d, start)
    ensures HeaderOk(r, start)
    decreases |crashes|
  {
    if crashes == [] then d
    else
      RecoveryStep(d, start, crashes[0]);
      AfterCrashes(Recovering(d, start, crashes[0]), start, crashes[1..])
  }

  lemma {:induction false} CrashesKeepContents(d: Disk, start: nat, crashes: seq<nat>)
    requires HeaderOk(d, start)
    ensures Logical(AfterCrashes(d, start, crashes), start) == Logical(d, start)
    decreases |crashes|
  {
    if crashes != [] {
      var d' := Recovering(d, start, crashes[0]);
      RecoveryStep(d, start, crashes[0]);
      CrashesKeepContents(d', start, crashes[1..]);
    }
  }

  /**
   * Recovery survives any number of crashes at any points: the attempt that
   * completes leaves an empty log and, in the home sectors, the contents the
   * disk stood for at the first crash.
   */
  lemma {:induction false} RecoveryIdempotent(d: Disk, start: nat, crashes: seq<nat>)
    requires HeaderOk(d, start)
    ensures var last := AfterCrashes(d, start, crashes);
      var r := Recovering(last, start, Word(last[start], 0) + 1);
      && HeaderOk(r, start) && Word(r[start], 0) == 0 && r[..start] == Logical(d, start) == Logical(r, start)
  {
    CrashesKeepContents(d, start, crashes);
    var last := AfterCrashes(d, start, crashes);
    RecoveryStep(last, start, Word(last[start], 0) + 1);
  }
}
