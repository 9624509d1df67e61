/**
 * The redo log over the buffer cache.  Between transactions and while one is
 * being built, the on-disk header is empty, so the disk stands for its home
 * sectors; the transaction lives in the log blocks and in pinned buffers.
 */
module Log {
  import opened Sectors
  import opened LogSpec
  import BC = BufCache

  ghost predicate Slotted(lh: seq<nat>, slot: seq<int>, i: nat)
    requires i < |lh|
  {
    lh[i] < |slot| && slot[lh[i]] == i
  }

  /** Home sector `s` is as on the disk, or is pinned and its log block equals the view. */
  ghost predicate Logged<D>(disk: seq<D>, view: seq<D>, pinned: set<nat>, lh: seq<nat>, slot: seq<int>, start: nat,
                            s: nat)
    requires |slot| == start < |disk| == |view| && s < start
  {
    if slot[s] < 0 then s !in pinned && view[s] == disk[s]
    else
      && s in pinned && slot[s] < |lh| && lh[slot[s]] == s
      && start + 1 + slot[s] < |disk| && disk[start + 1 + slot[s]] == view[s]
  }

  /**
   * The invariant outside commit.  `slot` inverts the in-memory header `lh`: sector
   * `s` is in log block `slot[s]`, or is not part of the transaction when that is
   * negative.  Exactly the logged sectors are pinned.
   */
  ghost predicate Building<D>(a: BC.Abs<D>, lh: seq<nat>, slot: seq<int>, start: nat, size: nat)
  {
    && |a.disk| == |a.view| == start + size && 1 < size && start < U32
    && |lh| <= LOGSIZE && |lh| < size && |slot| == start && |a.pinned| == |lh|
    && (forall i: nat | i < |lh| :: Slotted(lh, slot, i))
    && (forall s: nat | s < start :: Logged(a.disk, a.view, a.pinned, lh, slot, start, s))
    && (forall s | s in a.held || s in a.pinned :: s < start)
  }

  /** Logging sector `s` with contents `d`: a log block is written, the view changes, the home sectors do not. */
  lemma {:induction false} Append<D>(a: BC.Abs<D>, lh: seq<nat>, slot: seq<int>, start: nat, size: nat, s: nat, i: nat,
                                     d: D, a': BC.Abs<D>, lh': seq<nat>)
    requires Building(a, lh, slot, start, size) && s < start && |lh| < LOGSIZE && |lh| < size - 1
    requires i == if slot[s] < 0 then |lh| else slot[s]
    requires lh' == if i == |lh| then lh + [s] else lh
    requires i <= |lh| && a'.disk == a.disk[start + 1 + i := d] && a'.view == a.view[s := d][start + 1 + i := d]
    requires a'.held == a.held && a'.pinned == a.pinned + {s}
    ensures Building(a', lh', slot[s := i], start, size)
    ensures a'.disk[..start] == a.disk[..start] && a'.disk[start] == a.disk[start]
    ensures a'.view[..start] == a.view[..start][s := d]
  {
    var slot' := slot[s := i];
    assert Logged(a.disk, a.view, a.pinned, lh, slot, start, s);
    assert s in a.pinned ==> a'.pinned == a.pinned;
    forall t: nat | t < start
      ensures Logged(a'.disk, a'.view, a'.pinned, lh', slot', start, t)
    {
      assert Logged(a.disk, a.view, a.pinned, lh, slot, start, t);
    }
    forall j: nat | j < |lh'|
      ensures Slotted(lh', slot', j)
    {
      if j < |lh| {
        assert Slotted(lh, slot, j);
      }
    }
  }

  lemma {:induction false} BuildingSize<D>(a: BC.Abs<D>, lh: seq<nat>, slot: seq<int>, start: nat, size: nat)
    requires Building(a, lh, slot, start, size)
    ensures |a.pinned| == |lh| && |a.disk| == |a.view| == start + size && 1 < size
  {
  }

  /** The search loop of `log_write` stops at the sector's slot, whose log block nobody holds. */
  lemma {:induction false} SlotFound<D>(a: BC.Abs<D>, lh: seq<nat>, slot: seq<int>, start: nat, size: nat, s: nat,
                                        i: nat)
    requires Building(a, lh, slot, start, size) && |lh| < size - 1 && s in a.held && i <= |lh|
    requires (forall j | 0 <= j < i :: lh[j] != s) && (i < |lh| ==> lh[i] == s)
    ensures s < start == |slot| && i == (if slot[s] < 0 then |lh| else slot[s]) && (i < |lh| <==> s in a.pinned)
    ensures start + 1 + i < |a.disk| == |a.view| && start + 1 + i !in a.held && start + 1 + i !in a.pinned
  {
    assert Logged(a.disk, a.view, a.pinned, lh, slot, start, s) && (i < |lh| ==> Slotted(lh, slot, i));
  }

  /** Nothing is pinned, or exactly the sectors from log block `k` on, which are distinct. */
  ghost predicate Pins(pinned: set<nat>, lh: seq<nat>, k: nat)
    requires k <= |lh|
  {
    pinned == {} ||
      ((forall s :: s in pinned <==> s in lh[k..]) && forall i: nat, j: nat | k <= i < j < |lh| :: Differ(lh, i, j))
  }

  ghost predicate Differ(lh: seq<nat>, i: nat, j: nat)
    requires i < |lh| && j < |lh|
  {
    lh[i] != lh[j]
  }

  /** `trace` continues `before` with the first `n` disks of a recovery of `d`. */
  ghost predicate Extends(trace: seq<Disk>, before: seq<Disk>, d: Disk, start: nat, n: nat)
    requires HeaderOk(d, start)
  {
    && |trace| == |before| + n && before <= trace
    && forall j | |before| <= j < |trace| :: trace[j] == Recovering(d, start, j + 1 - |before|)
  }

  lemma {:induction false} PinsStep(pinned: set<nat>, lh: seq<nat>, k: nat)
    requires k < |lh| && Pins(pinned, lh, k)
    ensures pinned == {} || lh[k] in pinned
    ensures Pins(pinned - {lh[k]}, lh, k + 1)
  {
    if pinned != {} {
      assert lh[k..] == [lh[k]] + lh[k + 1..];
      var rest := lh[k + 1..];
      forall s | s in rest
        ensures s != lh[k]
      {
        var j: nat :| j < |rest| && rest[j] == s;
        assert Differ(lh, k, k + 1 + j);
      }
    }
  }

  lemma {:induction false} ExtendsStep(trace: seq<Disk>, before: seq<Disk>, d: Disk, start: nat, n: nat, d': Disk)
    requires HeaderOk(d, start) && Extends(trace, before, d, start, n) && d' == Recovering(d, start, n + 1)
    ensures Extends(trace + [d'], before, d, start, n + 1)
  {
  }

  /** Where `install_trans` stands after `k` rounds over the disk `d`. */
  ghost predicate Installing(a: BC.Abs<Sector>, lh: seq<nat>, d: Disk, before: seq<Disk>, start: nat, k: nat)
  {
    && HeaderOk(d, start) && lh == Header(d, start) && k <= |lh| && a.disk == Recovering(d, start, k)
    && a.held == {} && |a.pinned| < BC.NBUF && Pins(a.pinned, lh, k) && Extends(a.trace, before, d, start, k)
  }

  lemma {:induction false} InstallStart(a: BC.Abs<Sector>, lh: seq<nat>, start: nat)
    requires HeaderOk(a.disk, start) && lh == Header(a.disk, start)
    requires a.held == {} && |a.pinned| < BC.NBUF && Pins(a.pinned, lh, 0)
    ensures Installing(a, lh, a.disk, a.trace, start, 0)
  {
    RecoveringNext(a.disk, start, 0);
  }

  lemma {:induction false} InstallReady(a: BC.Abs<Sector>, lh: seq<nat>, d: Disk, before: seq<Disk>, start: nat, k: nat)
    requires Installing(a, lh, d, before, start, k) && k < |lh|
    ensures start + 1 + k < |a.disk| && lh[k] < start
    ensures (a.pinned == {} || lh[k] in a.pinned) && start + 1 + k !in a.pinned
  {
    PinsStep(a.pinned, lh, k);
  }

  lemma {:induction false} InstallDone(a: BC.Abs<Sector>, lh: seq<nat>, d: Disk, before: seq<Disk>, start: nat)
    requires Installing(a, lh, d, before, start, |lh|)
    ensures a.held == a.pinned == {} && a.disk == Recovering(d, start, |lh|) && Extends(a.trace, before, d, start, |lh|)
  {
    assert lh[|lh|..] == [];
  }

  lemma {:induction false} InstallStep(a: BC.Abs<Sector>, a': BC.Abs<Sector>, lh: seq<nat>, d: Disk, before: seq<Disk>,
                                       start: nat, k: nat)
    requires Installing(a, lh, d, before, start, k) && k < |lh|
    requires lh[k] < start < start + 1 + k < |a.disk| && a'.disk == a.disk[lh[k] := a.disk[start + 1 + k]]
    requires a'.trace == a.trace + [a'.disk] && a'.held == {} && a'.pinned == a.pinned - {lh[k]}
    ensures Installing(a', lh, d, before, start, k + 1)
  {
    RecoveringNext(d, start, k);
    PinsStep(a.pinned, lh, k);
    ExtendsStep(a.trace, before, d, start, k, a'.disk);
  }

  /** What `commit_trans` finds: the header can be written, and writing it commits exactly the view. */
  lemma {:induction false} CommitReady(c: BC.Cache<Sector>, a: BC.Abs<Sector>, lh: seq<nat>, slot: seq<int>, start: nat,
                                       size: nat)
    requires BC.Rep(c, a) && Building(a, lh, slot, start, size)
    ensures |a.disk| == |a.view| == start + size && 1 < size && start < U32 && |lh| <= LOGSIZE && |a.pinned| == |lh|
    ensures a.view[start] == a.disk[start] && start !in a.pinned
    ensures EntriesFit(lh) && Pins(a.pinned, lh, 0)
    ensures var d := a.disk[start := HeaderWith(a.disk[start], lh)];
      HeaderOk(d, start) && Logical(d, start) == a.view[..start] && StandsFor(d, start, a.view[..start]) &&
        Header(d, start) == lh
  {
    BC.SeenAs(c, a, start);
    forall i: nat | i < |lh|
      ensures lh[i] < start && lh[i] in a.pinned && a.disk[start + 1 + i] == a.view[lh[i]]
    {
      assert Slotted(lh, slot, i) && Logged(a.disk, a.view, a.pinned, lh, slot, start, lh[i]);
    }
    forall s: nat | s < start && s !in lh
      ensures a.disk[s] == a.view[s] && s !in a.pinned
    {
      assert Logged(a.disk, a.view, a.pinned, lh, slot, start, s);
    }
    forall i: nat, j: nat | i < j < |lh|
      ensures Differ(lh, i, j)
    {
      assert Slotted(lh, slot, i) && Slotted(lh, slot, j);
    }
    assert lh[0..] == lh;
    CommitPoint(a.disk, start, lh, a.view[..start]);
    HeaderRoundTrip(a.disk[start], lh);
  }

  /** With nothing pinned, the home sectors are seen as on the disk. */
  lemma {:induction false} NothingPinned(a: BC.Abs<Sector>, lh: seq<nat>, slot: seq<int>, start: nat, size: nat)
    requires Building(a, lh, slot, start, size) && a.pinned == {}
    ensures a.view[..start] == a.disk[..start] && lh == []
  {
    forall s: nat | s < start
      ensures a.view[s] == a.disk[s]
    {
      assert Logged(a.disk, a.view, a.pinned, lh, slot, start, s);
    }
  }

  lemma NoPins(pinned: set<nat>)
    requires |pinned| == 0
    ensures pinned == {}
  {
  }

  lemma {:induction false} NothingLogged(a: BC.Abs<Sector>, start: nat, size: nat)
    requires |a.disk| == start + size && 1 < size && start < U32
    requires a.view == a.disk && a.held == a.pinned == {}
    ensures Building(a, [], seq(start, _ => -1), start, size)
  {
  }

  /** `trace` continues `past` with disks that all stand for `contents`. */
  ghost predicate Continues(trace: seq<Disk>, past: seq<Disk>, start: nat, contents: Disk)
  {
    past <= trace && forall k | |past| <= k < |trace| :: StandsFor(trace[k], start, contents)
  }

  lemma {:induction false} ContinuesTo(trace: seq<Disk>, past: seq<Disk>, start: nat, contents: Disk, d: Disk,
                                       trace': seq<Disk>)
    requires Continues(trace, past, start, contents) && StandsFor(d, start, contents)
    requires Continues(trace', trace + [d], start, contents)
    ensures Continues(trace', past, start, contents)
  {
    forall k | |past| <= k < |trace'|
      ensures StandsFor(trace'[k], start, contents)
    {
      if k < |trace| { assert trace'[k] == trace[k]; } else if k == |trace| { assert trace'[k] == d; }
    }
  }

  /** The writes of a recovery all stand for what the disk stood for, and the last has it at home. */
  lemma {:induction false} AllStand(trace: seq<Disk>, before: seq<Disk>, d: Disk, start: nat, n: nat)
    requires HeaderOk(d, start) && Extends(trace, before, d, start, n) && n == |Header(d, start)| + 1
    ensures Continues(trace, before, start, Logical(d, start))
    ensures var r := Recovering(d, start, n); |r| == |d| && Word(r[start], 0) == 0 && r[..start] == Logical(d, start)
  {
    forall k | |before| <= k < |trace|
      ensures StandsFor(trace[k], start, Logical(d, start))
    {
      RecoveryStep(d, start, k + 1 - |before|);
    }
    RecoveryStep(d, start, n);
  }

  /** The stores of `write_head` into the buffer. */
  method FillHead(h0: Sector, lh: seq<nat>) returns (h: Sector)
    requires EntriesFit(lh)
    ensures h == HeaderWith(h0, lh)
  {
    h := SetWord(h0, 0, |lh|);
    var i := 0;
    while i < |lh|
      invariant 0 <= i <= |lh| && h == PutEntries(SetWord(h0, 0, |lh|), lh, i)
    {
      h := SetWord(h, i + 1, lh[i]);
      i := i + 1;
    }
  }

  class Log {
    const bc: BC.BufCache<Sector>
    const start: nat
    const size: nat
    var busy: bool
    var lh: seq<nat>
    ghost var slot: seq<int>
    ghost var past: seq<Disk>  // the trace when the current transaction began
    ghost var base: Disk       // the home sectors when it began

    ghost predicate Valid()
      reads this, bc
    {
      && bc.Valid() && Building(bc.a, lh, slot, start, size) && Word(bc.a.disk[start], 0) == 0
      && (busy ==> bc.a.disk[..start] == base && Continues(bc.a.trace, past, start, base))
    }

    /** The home sectors as the file system sees them inside the transaction. */
    ghost function View(): Disk
      reads this, bc
    {
      if start <= |bc.a.view| then bc.a.view[..start] else []
    }

    constructor (bc: BC.BufCache<Sector>, start: nat, size: nat)
      ensures this.bc == bc && this.start == start && this.size == size && !busy && lh == [] &&
        slot == seq(start, _ => -1)
    {
      this.bc, this.start, this.size, busy, lh, slot := bc, start, size, false, [], seq(start, _ => -1);
      past, base := [], [];
    }

    /** Start a transaction; the caller has waited for the previous one to end. */
    method Begin()
      requires Valid() && !busy && bc.a.pinned == {}
      modifies this`busy, this`past, this`base
      ensures Valid() && busy && past == bc.a.trace && base == View() == old(View()) == bc.a.disk[..start]
    {
      busy := true;
      past, base := bc.a.trace, bc.a.disk[..start];
      NothingPinned(bc.a, lh, slot, start, size);
    }

    /** `bufcache_read` of a home sector, by a thread that does not hold it. */
    method Read(s: nat) returns (b: nat, data: Sector)
      requires Valid() && s < start && s !in bc.a.held && |bc.a.pinned| + |bc.a.held| < BC.NBUF
      modifies bc
      ensures Valid() && View() == old(View()) && bc.a.Same(old(bc.a)) && bc.a.held == old(bc.a.held) + {s}
      ensures bc.a.Holding(b, s) && s < |View()| && data == View()[s] && bc.a.KeepsHeld(old(bc.a))
    {
      BC.PinnedBound(bc.c, bc.a);
      var r := bc.Read(s);
      b := r.value;
      data := bc.c.bufs[b].data;
    }

    method Release(b: nat, ghost s: nat)
      requires Valid() && bc.a.Holding(b, s)
      modifies bc
      ensures Valid() && View() == old(View()) && bc.a.Same(old(bc.a)) && bc.a.held == old(bc.a.held) - {s} &&
        bc.a.KeepsHeld(old(bc.a))
    {
      assert Logged(bc.a.disk, bc.a.view, bc.a.pinned, lh, slot, start, s);
      bc.Release(b, s);
    }

    /** Read a sector and let it go. */
    method Peek(s: nat) returns (data: Sector)
      requires Valid() && s < start && s !in bc.a.held && |bc.a.pinned| + |bc.a.held| < BC.NBUF
      modifies bc
      ensures Valid() && View() == old(View()) && bc.a.Same(old(bc.a)) && bc.a.held == old(bc.a.held)
      ensures s < |View()| && data == View()[s] && bc.a.KeepsHeld(old(bc.a))
    {
      hide Valid, View;
      var b;
      b, data := Read(s);
      Release(b, s);
      assert bc.a.held == old(bc.a.held);
    }

    /** The log slot of a sector already logged, or the next one. */
    method FindEntry(sector: nat) returns (i: nat)
      ensures i <= |lh| && (forall j | 0 <= j < i :: lh[j] != sector) && (i < |lh| ==> lh[i] == sector)
    {
      i := 0;
      while i < |lh| && lh[i] != sector
        invariant 0 <= i <= |lh| && forall j | 0 <= j < i :: lh[j] != sector
      {
        i := i + 1;
      }
    }

    /**
     * The caller has stored `data` in a buffer it holds: append it to the log.
     * Costs one sector write, and that write leaves what the disk stands for alone.
     */
    method LogWrite(b: nat, data: Sector, ghost s: nat)
      requires Valid() && busy && bc.a.Holding(b, s)
      requires |bc.a.pinned| < LOGSIZE && |bc.a.pinned| < size - 1 && |bc.a.pinned| + |bc.a.held| < BC.NBUF
      modifies this`lh, this`slot, bc
      ensures Valid() && bc.a.pinned == old(bc.a.pinned) + {s}
      ensures bc.a.Holding(b, s) && s < |old(View())| && View() == old(View())[s := data]
      ensures bc.a.held == old(bc.a.held) && bc.a.KeepsHeld(old(bc.a))
      ensures bc.a.trace == old(bc.a.trace) + [bc.a.disk] && lh == if s in old(bc.a.pinned) then old(lh)
        else old(lh) + [s]
    {
      hide BC.Rep, Building, StandsFor, Continues, Word;
      BuildingSize(bc.a, lh, slot, start, size);
      BC.HeldBuffer(bc.c, bc.a, b, s);
      var sector := bc.c.bufs[b].sector;
      var i := FindEntry(sector);
      SlotFound(bc.a, lh, slot, start, size, s, i);
      CopyToLog(b, data, i, s);
      if i == |lh| { lh := lh + [sector]; }
      slot := slot[s := i];
      Append(old(bc.a), old(lh), old(slot), start, size, s, i, data, bc.a, lh);
      EmptyHeader(bc.a.disk, start);
      ContinuesTo(old(bc.a.trace), past, start, base, bc.a.disk, bc.a.trace);
    }

    /** The block goes to log slot `i`, and its buffer is kept from eviction. */
    method CopyToLog(b: nat, data: Sector, i: nat, ghost s: nat)
      requires bc.Valid() && bc.a.Holding(b, s) && s < start && |bc.a.pinned| + |bc.a.held| < BC.NBUF
      requires start + 1 + i < |bc.a.disk| == |bc.a.view| && start + 1 + i !in bc.a.held &&
        start + 1 + i !in bc.a.pinned
      modifies bc
      ensures bc.Valid() && bc.a.Holding(b, s) && bc.a.held == old(bc.a.held) && bc.a.KeepsHeld(old(bc.a)) &&
        bc.a.pinned == old(bc.a.pinned) + {s}
      ensures bc.a.disk == old(bc.a.disk)[start + 1 + i := data] && bc.a.trace == old(bc.a.trace) + [bc.a.disk]
      ensures s < |old(bc.a.view)| && bc.a.view == old(bc.a.view)[s := data][start + 1 + i := data]
    {
      hide BC.Rep;
      bc.Modify(b, data, s);
      BC.HeldBuffer(bc.c, bc.a, b, s);
      bc.Store(start + i + 1, bc.c.bufs[b].data);
      bc.Pin(b, s);
    }

    /** Log a held buffer and let it go. */
    method Put(b: nat, data: Sector, ghost s: nat)
      requires Valid() && busy && bc.a.Holding(b, s)
      requires |bc.a.pinned| < LOGSIZE && |bc.a.pinned| < size - 1 && |bc.a.pinned| + |bc.a.held| < BC.NBUF
      modifies this`lh, this`slot, bc
      ensures Valid() && bc.a.pinned == old(bc.a.pinned) + {s} && s < |View()| && View() == old(View())[s := data]
      ensures bc.a.held == old(bc.a.held) - {s} && bc.a.KeepsHeld(old(bc.a))
    {
      hide Valid, View;
      LogWrite(b, data, s);
      Release(b, s);
    }

    /** Copy the in-memory header over the on-disk one: a single sector write. */
    method WriteHead()
      requires bc.Valid() && start < |bc.a.disk| && bc.a.view[start] == bc.a.disk[start] && bc.a.held == {}
      requires |bc.a.pinned| < BC.NBUF && start !in bc.a.pinned
      requires EntriesFit(lh)
      modifies bc
      ensures bc.Valid() && |old(bc.a.view)| == |old(bc.a.disk)|
      ensures bc.a.disk == old(bc.a.disk)[start := HeaderWith(old(bc.a.disk)[start], lh)]
      ensures bc.a.view == old(bc.a.view)[start := HeaderWith(old(bc.a.disk)[start], lh)]
      ensures bc.a.trace == old(bc.a.trace) + [bc.a.disk] && bc.a.held == {} && bc.a.pinned == old(bc.a.pinned)
    {
      hide BC.Rep, SetWord, PutEntries;
      BC.Sized(bc.c, bc.a);
      BC.PinnedBound(bc.c, bc.a);
      var r := bc.Read(start);
      var b := r.value;
      BC.HeldBuffer(bc.c, bc.a, b, start);
      var h := FillHead(bc.c.bufs[b].data, lh);
      bc.Modify(b, h, start);
      bc.Write(b, start);
      bc.Release(b, start);
      assert bc.a.held == old(bc.a.held) && bc.a.pinned == old(bc.a.pinned);
    }

    /** The in-memory header becomes the on-disk one. */
    method ReadHead()
      requires bc.Valid() && HeaderOk(bc.a.disk, start) && bc.a.view == bc.a.disk && bc.a.held == bc.a.pinned == {}
      modifies this`lh, bc
      ensures bc.Valid() && bc.a.Same(old(bc.a)) && bc.a.held == {} && HeaderOk(bc.a.disk, start) &&
        lh == Header(bc.a.disk, start)
    {
      BC.PinnedBound(bc.c, bc.a);
      var r := bc.Read(start);
      var b := r.value;
      var h := bc.c.bufs[b].data;
      var entries, i := [], 0;
      while i < Word(h, 0)
        invariant 0 <= i <= Word(h, 0) && entries == Entries(h, i)
      {
        entries := entries + [Word(h, i + 1)];
        i := i + 1;
      }
      lh := entries;
      bc.Release(b, start);
      assert bc.a.held == {};
    }

    /** Copy the logged blocks to their home sectors, one sector write each, as recovery does. */
    method InstallTrans()
      requires bc.Valid() && HeaderOk(bc.a.disk, start) && lh == Header(bc.a.disk, start)
      requires bc.a.held == {} && |bc.a.pinned| < BC.NBUF && Pins(bc.a.pinned, lh, 0)
      modifies bc
      ensures bc.Valid() && bc.a.held == bc.a.pinned == {} && bc.a.disk == Recovering(old(bc.a.disk), start, |lh|)
      ensures Extends(bc.a.trace, old(bc.a.trace), old(bc.a.disk), start, |lh|)
    {
      hide BC.Rep, HeaderOk, Header, Recovering, Pins, Extends;
      var tail := 0;
      InstallStart(bc.a, lh, start);
      while tail < |lh|
        invariant tail <= |lh| && bc.Valid()
        invariant Installing(bc.a, lh, old(bc.a.disk), old(bc.a.trace), start, tail)
      {
        ghost var a := bc.a;
        InstallReady(a, lh, old(bc.a.disk), old(bc.a.trace), start, tail);
        InstallOne(start + tail + 1, lh[tail]);
        InstallStep(a, bc.a, lh, old(bc.a.disk), old(bc.a.trace), start, tail);
        tail := tail + 1;
      }
      InstallDone(bc.a, lh, old(bc.a.disk), old(bc.a.trace), start);
    }

    /** One round of the install loop. */
    method InstallOne(from: nat, to: nat)
      requires bc.Valid() && bc.a.held == {} && |bc.a.pinned| < BC.NBUF && to < start < from < |bc.a.disk|
      requires (bc.a.pinned == {} || to in bc.a.pinned) && from !in bc.a.pinned
      modifies bc
      ensures bc.Valid() && bc.a.held == {} && bc.a.pinned == old(bc.a.pinned) - {to}
      ensures bc.a.disk == old(bc.a.disk)[to := old(bc.a.disk)[from]] && bc.a.trace == old(bc.a.trace) + [bc.a.disk]
    {
      hide BC.Rep;
      BC.Sized(bc.c, bc.a);
      BC.SeenAs(bc.c, bc.a, from);
      BC.SeenAs(bc.c, bc.a, to);
      BC.PinnedBound(bc.c, bc.a);
      var r := bc.Read(from);
      var lbuf := r.value;
      if bc.a.pinned == {} {
        BC.PinnedBound(bc.c, bc.a);
      } else {
        BC.SeenAs(bc.c, bc.a, to);
      }
      r := bc.Read(to);
      var dbuf := r.value;
      BC.HeldBuffer(bc.c, bc.a, lbuf, from);
      bc.Modify(dbuf, bc.c.bufs[lbuf].data, to);
      bc.Write(dbuf, to);
      bc.Release(lbuf, from);
      bc.Release(dbuf, to);
      assert bc.a.held == {};
    }

    /** Install the logged blocks and clear the header: recovery's writes, all of them. */
    method InstallAndClear()
      requires bc.Valid() && HeaderOk(bc.a.disk, start) && lh == Header(bc.a.disk, start)
      requires bc.a.held == {} && |bc.a.pinned| < BC.NBUF && Pins(bc.a.pinned, lh, 0)
      modifies this`lh, bc
      ensures bc.Valid() && bc.a.held == bc.a.pinned == {} && lh == []
      ensures bc.a.disk == bc.a.view == Recovering(old(bc.a.disk), start, |old(lh)| + 1)
      ensures Extends(bc.a.trace, old(bc.a.trace), old(bc.a.disk), start, |old(lh)| + 1)
      ensures Word(bc.a.disk[start], 0) == 0 && bc.a.disk[..start] == Logical(old(bc.a.disk), start)
      ensures Continues(bc.a.trace, old(bc.a.trace), start, Logical(old(bc.a.disk), start))
    {
      hide BC.Rep, HeaderOk, Header, Recovering, Pins, Extends;
      ghost var d := bc.a.disk;
      InstallTrans();
      RecoveringNext(d, start, |lh|);
      assert start < |d|;
      BC.AllSeen(bc.c, bc.a);
      ghost var trace := bc.a.trace;
      lh := [];
      WriteHead();
      ExtendsStep(trace, old(bc.a.trace), d, start, |old(lh)|, bc.a.disk);
      AllStand(bc.a.trace, old(bc.a.trace), d, start, |old(lh)| + 1);
    }

    /** Bring a disk back after a crash: every write is one of recovery's, and the log ends up empty. */
    method Recover()
      requires bc.Valid() && |bc.a.disk| == start + size && 1 < size && start < U32 && !busy
      requires HeaderOk(bc.a.disk, start) && bc.a.held == bc.a.pinned == {} && bc.a.view == bc.a.disk
      modifies this`lh, this`slot, bc
      ensures Valid() && lh == [] && bc.a.held == bc.a.pinned == {}
      ensures View() == bc.a.disk[..start] == Logical(old(bc.a.disk), start)
      ensures Extends(bc.a.trace, old(bc.a.trace), old(bc.a.disk), start, Word(old(bc.a.disk)[start], 0) + 1)
    {
      ghost var d := bc.a.disk;
      hide BC.Rep, HeaderOk, Header, Logical, StandsFor, Extends, Recovering;
      ReadHead();
      InstallAndClear();
      slot := seq(start, _ => -1);
      NothingLogged(bc.a, start, size);
    }

    /**
     * Commit.  Up to trace position `m` the disk stands for the home sectors the
     * transaction began with, from `m` on for everything it wrote; the last write
     * leaves an empty log with the home sectors up to date.
     */
    method Commit() returns (ghost m: nat)
      requires Valid() && busy && bc.a.held == {} && |bc.a.pinned| < BC.NBUF
      modifies this`lh, this`slot, this`busy, bc
      ensures Valid() && !busy && bc.a.held == bc.a.pinned == {}
      ensures View() == old(View()) == bc.a.disk[..start]
      ensures past <= bc.a.trace && |past| <= m <= |bc.a.trace|
      ensures forall k | |past| <= k < m :: StandsFor(bc.a.trace[k], start, base)
      ensures forall k | m <= k < |bc.a.trace| :: StandsFor(bc.a.trace[k], start, View())
    {
      hide BC.Rep, StandsFor;
      m := |bc.a.trace|;
      if |lh| > 0 {
        CommitWrites();
      } else {
        NoPins(bc.a.pinned);
        BC.AllSeen(bc.c, bc.a);
      }
      slot := seq(start, _ => -1);
      NothingLogged(bc.a, start, size);
      busy := false;
    }

    method CommitWrites()
      requires Valid() && bc.a.held == {} && |lh| < BC.NBUF
      modifies this`lh, bc
      ensures bc.Valid() && bc.a.held == bc.a.pinned == {} && lh == [] && bc.a.view == bc.a.disk
      ensures |bc.a.disk| == start + size && Word(bc.a.disk[start], 0) == 0 && bc.a.disk[..start] == old(View())
      ensures Continues(bc.a.trace, old(bc.a.trace), start, old(View()))
    {
      ghost var want := View();
      hide BC.Rep, HeaderOk, Header, HeaderWith, Entries, Recovering, Pins, Extends, Building, Continues, Word,
        StandsFor, Logical;
      CommitReady(bc.c, bc.a, lh, slot, start, size);
      WriteHead();
      ghost var d := bc.a.disk;
      InstallAndClear();
      ContinuesTo(old(bc.a.trace), old(bc.a.trace), start, want, d, bc.a.trace);
    }
  }
}
