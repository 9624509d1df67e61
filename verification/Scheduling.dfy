/**
 * The round-robin scheduler as a state machine: the ready queue, the current
 * thread, thread states and sleep channels, and the tick counter.
 */
module Scheduling {
  import opened ThreadQueues

  const SCHED_SLICE := 5

  datatype TState = Ready | Run | Sleep | Dead

  datatype Sched = Sched(ready: seq<nat>, cur: nat, state: seq<TState>, chan: seq<nat>, ticks: nat)

  /** One lock-protected section of the scheduler; `Tidy` is what a thread does first on waking. */
  datatype Event = Spawn(pid: nat) | Yield | Tick | GoToSleep(ch: nat) | Wakeup(ch: nat) | Tidy

  predicate Fits(s: Sched) {
    s.cur < NUM_IDS == |s.state| == |s.chan| && forall k | 0 <= k < |s.ready| :: s.ready[k] < NUM_IDS
  }

  predicate Enabled(s: Sched, e: Event) {
    && Fits(s)
    && match e
       case Spawn(p) => p < NUM_IDS && s.state[p] == Dead
       case GoToSleep(_) => s.ready != []
       case _ => true
  }

  function MakeReady(s: Sched, p: nat): Sched
    requires Fits(s) && p < NUM_IDS
  {
    s.(state := s.state[p := Ready], ready := s.ready + [p])
  }

  function Dispatch(s: Sched): Sched
    requires Fits(s) && s.ready != []
  {
    s.(ready := s.ready[1..], cur := s.ready[0], state := s.state[s.ready[0] := Run])
  }

  /** Threads below `n` asleep on `ch` have been made ready, in order. */
  function Woken(s: Sched, ch: nat, n: nat): (r: Sched)
    requires Fits(s) && n <= NUM_IDS
    ensures Fits(r)
  {
    if n == 0 then s
    else
      var t := Woken(s, ch, n - 1);
      if s.state[n - 1] == Sleep && s.chan[n - 1] == ch then MakeReady(t, n - 1) else t
  }

  function Next(s: Sched, e: Event): Sched {
    if !Enabled(s, e) then s
    else match e
      case Spawn(p) => MakeReady(s, p)
      case Yield => Dispatch(MakeReady(s, s.cur))
      case Tick =>
        if s.ticks + 1 > SCHED_SLICE then Dispatch(MakeReady(s.(ticks := 0), s.cur)) else s.(ticks := s.ticks + 1)
      case GoToSleep(ch) => Dispatch(s.(chan := s.chan[s.cur := ch], state := s.state[s.cur := Sleep]))
      case Wakeup(ch) => Woken(s, ch, NUM_IDS)
      case Tidy => s.(chan := s.chan[s.cur := 0])
  }

  ghost predicate StateOk(s: Sched, p: nat)
    requires Fits(s) && p < NUM_IDS
  {
    (s.state[p] == Ready <==> p in s.ready) && (p != 0 ==> (s.state[p] == Run <==> p == s.cur))
  }

  /**
   * The ready queue holds exactly the ready threads, each once; the current
   * thread runs, and apart from the boot thread nobody else does.
   */
  ghost predicate Sane(s: Sched) {
    && Fits(s) && s.state[s.cur] == Run && s.ticks <= SCHED_SLICE
    && (forall p: nat | p < NUM_IDS :: StateOk(s, p))
    && (forall j, k | 0 <= j < k < |s.ready| :: s.ready[j] != s.ready[k])
  }

  lemma {:induction false} MakeReadyKeeps(s: Sched, p: nat, q: nat)
    requires Fits(s) && p < NUM_IDS && q < NUM_IDS && StateOk(s, q) && s.state[p] != Ready && StateOk(s, p)
    requires p != 0 ==> s.state[p] != Run
    ensures StateOk(MakeReady(s, p), q)
  {
  }

  lemma {:induction false} WokenKeeps(s: Sched, ch: nat, n: nat)
    requires Sane(s) && n <= NUM_IDS
    ensures Sane(Woken(s, ch, n)) && s.ready <= Woken(s, ch, n).ready && Woken(s, ch, n).cur == s.cur
    ensures forall p: nat | p < NUM_IDS ::
      Woken(s, ch, n).state[p] == if p < n && s.state[p] == Sleep && s.chan[p] == ch then Ready else s.state[p]
  {
    if n > 0 {
      WokenKeeps(s, ch, n - 1);
      var t := Woken(s, ch, n - 1);
      if s.state[n - 1] == Sleep && s.chan[n - 1] == ch {
        assert StateOk(t, n - 1);
        var u := MakeReady(t, n - 1);
        forall q: nat | q < NUM_IDS
          ensures StateOk(u, q)
        {
          MakeReadyKeeps(t, n - 1, q);
        }
      }
    }
  }

  lemma {:induction false} DispatchKeeps(s: Sched)
    requires Fits(s) && s.ready != [] && s.ticks <= SCHED_SLICE
    requires forall p: nat | p < NUM_IDS :: (s.state[p] == Ready <==> p in s.ready) && (p != 0 ==> s.state[p] != Run)
    requires forall j, k | 0 <= j < k < |s.ready| :: s.ready[j] != s.ready[k]
    ensures Sane(Dispatch(s))
  {
    var t := Dispatch(s);
    forall p: nat | p < NUM_IDS
      ensures StateOk(t, p)
    {
      if p in s.ready && p != s.ready[0] {
        var k :| 0 <= k < |s.ready| && s.ready[k] == p;
        assert t.ready[k - 1] == p;
      }
    }
  }

  lemma {:induction false} YieldKeeps(s: Sched)
    requires Sane(s)
    ensures Sane(Dispatch(MakeReady(s, s.cur)))
  {
    var t := MakeReady(s, s.cur);
    forall p: nat | p < NUM_IDS
      ensures (t.state[p] == Ready <==> p in t.ready) && (p != 0 ==> t.state[p] != Run)
    {
      assert StateOk(s, p);
    }
    assert StateOk(s, s.cur);
    DispatchKeeps(t);
  }

  /** Every step of the scheduler keeps its invariant. */
  lemma {:induction false} StepKeeps(s: Sched, e: Event)
    requires Sane(s) && Enabled(s, e)
    ensures Sane(Next(s, e))
  {
    match e
    case Spawn(p) =>
      assert StateOk(s, p);
      forall q: nat | q < NUM_IDS
        ensures StateOk(MakeReady(s, p), q)
      {
        MakeReadyKeeps(s, p, q);
      }
    case Yield => YieldKeeps(s);
    case Tick =>
      var t := s.(ticks := if s.ticks + 1 > SCHED_SLICE then 0 else s.ticks + 1);
      forall p: nat | p < NUM_IDS
        ensures StateOk(t, p)
      {
        assert StateOk(s, p);
      }
      YieldKeeps(t);
    case GoToSleep(ch) =>
      var t := s.(chan := s.chan[s.cur := ch], state := s.state[s.cur := Sleep]);
      forall p: nat | p < NUM_IDS
        ensures (t.state[p] == Ready <==> p in t.ready) && (p != 0 ==> t.state[p] != Run)
      {
        assert StateOk(s, p);
      }
      DispatchKeeps(t);
    case Wakeup(ch) => WokenKeeps(s, ch, NUM_IDS);
    case Tidy =>
      forall p: nat | p < NUM_IDS
        ensures StateOk(Next(s, Tidy), p)
      {
        assert StateOk(s, p);
      }
  }

  /** The boot thread, once it has handed over, runs for ever in name and is never scheduled. */
  lemma {:induction false} BootThreadStays(s: Sched, e: Event)
    requires Sane(s) && Enabled(s, e) && s.cur != 0 && s.state[0] == Run
    ensures Next(s, e).cur != 0 && Next(s, e).state[0] == Run
  {
    assert StateOk(s, 0);
    if e.Wakeup? { WokenKeeps(s, e.ch, NUM_IDS); }
  }

  /** A thread that never sleeps. */
  predicate Awake(s: Sched, idle: nat) {
    Fits(s) && 0 < idle < NUM_IDS && (s.state[idle] == Run || s.state[idle] == Ready)
  }

  /** While the idle thread never sleeps, every other thread may, whatever happens. */
  lemma {:induction false} IdleAllowsSleep(s: Sched, e: Event, idle: nat)
    requires Sane(s) && Awake(s, idle)
    ensures s.cur != idle ==> s.ready != []
    ensures Enabled(s, e) && !(e.GoToSleep? && s.cur == idle) ==> Awake(Next(s, e), idle)
  {
    assert StateOk(s, idle);
    if Enabled(s, e) {
      StepKeeps(s, e);
      if e.Wakeup? { WokenKeeps(s, e.ch, NUM_IDS); }
    }
  }

  /** The threads that take turns: the current one and those behind it, in order. */
  function Ring(s: Sched): (r: seq<nat>)
    ensures |r| == 1 + |s.ready|
  {
    [s.cur] + s.ready
  }

  /**
   * The ring under every step: a spawned or woken thread joins at the back, a switch moves the front to the back, and
   * a thread that falls asleep leaves from the front.  Those woken are all that sleep on the channel, by number.
   */
  lemma {:induction false} RingStep(s: Sched, e: Event)
    requires Sane(s) && Enabled(s, e)
    ensures var r, t := Ring(s), Next(s, e);
      match e
      case Spawn(p) => Ring(t) == r + [p]
      case Yield => Ring(t) == r[1..] + [s.cur]
      case Tick => Ring(t) == if s.ticks < SCHED_SLICE then r else r[1..] + [s.cur]
      case GoToSleep(_) => Ring(t) == r[1..]
      case Wakeup(ch) => r <= Ring(t) && Joined(s, ch, NUM_IDS, Ring(t)[|r|..])
      case Tidy => Ring(t) == r
  {
    if e.Wakeup? {
      WokenRing(s, e.ch, NUM_IDS);
      assert Ring(Next(s, e))[|Ring(s)|..] == Next(s, e).ready[|s.ready|..];
    }
  }

  /** The threads of `w` are those below `n` that sleep on `ch`, in ascending order. */
  ghost predicate Joined(s: Sched, ch: nat, n: nat, w: seq<nat>)
    requires Fits(s)
  {
    && (forall p: nat :: p in w <==> p < n && p < NUM_IDS && s.state[p] == Sleep && s.chan[p] == ch)
    && (forall j, k | 0 <= j < k < |w| :: w[j] < w[k])
  }

  lemma {:induction false} WokenRing(s: Sched, ch: nat, n: nat)
    requires Fits(s) && n <= NUM_IDS
    ensures s.ready <= Woken(s, ch, n).ready && Woken(s, ch, n).cur == s.cur
    ensures Joined(s, ch, n, Woken(s, ch, n).ready[|s.ready|..])
  {
    if n > 0 {
      WokenRing(s, ch, n - 1);
      var t, u := Woken(s, ch, n - 1), Woken(s, ch, n);
      var w := t.ready[|s.ready|..];
      if s.state[n - 1] == Sleep && s.chan[n - 1] == ch {
        assert forall j | 0 <= j < |w| :: w[j] in w;
        assert u.ready[|s.ready|..] == w + [n - 1];
      }
    }
  }

  predicate Asleep(s: Sched, p: nat, ch: nat) {
    Fits(s) && p < NUM_IDS && s.state[p] == Sleep && s.chan[p] == ch
  }

  /**
   * What a step can do to one thread: the dead come to life only by being spawned and the living never die, a thread
   * falls asleep only by its own call, with that call's channel, and a sleeper stays on its channel until a wakeup on
   * that very channel makes it ready.
   */
  lemma {:induction false} ThreadStep(s: Sched, e: Event, p: nat)
    requires Sane(s) && Enabled(s, e) && p < NUM_IDS
    ensures Fits(Next(s, e)) && (s.state[p] == Dead ==> Next(s, e).state[p] == if e == Spawn(p) then Ready else Dead)
    ensures s.state[p] != Dead ==> Next(s, e).state[p] != Dead
    ensures s.state[p] != Sleep && Next(s, e).state[p] == Sleep ==> e.GoToSleep? && p == s.cur
    ensures e.GoToSleep? && p == s.cur ==> Asleep(Next(s, e), p, e.ch)
    ensures forall ch | Asleep(s, p, ch) ::
      if e == Wakeup(ch) then Next(s, e).state[p] == Ready && p in Next(s, e).ready else Asleep(Next(s, e), p, ch)
  {
    assert StateOk(s, p);
    if e.Wakeup? {
      WokenKeeps(s, e.ch, NUM_IDS);
      WokenChan(s, e.ch, NUM_IDS);
      assert StateOk(Next(s, e), p);
    }
  }

  lemma {:induction false} WokenChan(s: Sched, ch: nat, n: nat)
    requires Fits(s) && n <= NUM_IDS
    ensures Woken(s, ch, n).chan == s.chan
  {
    if n > 0 { WokenChan(s, ch, n - 1); }
  }

  // Runs

  function RunTo(s: Sched, es: seq<Event>, n: nat): Sched
    requires n <= |es|
  {
    if n == 0 then s else Next(RunTo(s, es, n - 1), es[n - 1])
  }

  ghost predicate Legal(s: Sched, es: seq<Event>) {
    forall n | 0 <= n < |es| :: Enabled(RunTo(s, es, n), es[n])
  }

  /** The event takes the processor from the current thread. */
  predicate Switches(s: Sched, e: Event) {
    e.Yield? || e.GoToSleep? || (e.Tick? && s.ticks + 1 > SCHED_SLICE)
  }

  function SwitchCount(s: Sched, es: seq<Event>, n: nat): nat
    requires n <= |es|
  {
    if n == 0 then 0 else SwitchCount(s, es, n - 1) + if Switches(RunTo(s, es, n - 1), es[n - 1]) then 1 else 0
  }

  function TickCount(es: seq<Event>, n: nat): nat
    requires n <= |es|
  {
    if n == 0 then 0 else TickCount(es, n - 1) + if es[n - 1].Tick? then 1 else 0
  }

  lemma {:induction false} RunKeeps(s: Sched, es: seq<Event>, n: nat)
    requires Sane(s) && Legal(s, es) && n <= |es|
    ensures Sane(RunTo(s, es, n))
  {
    hide Sane, Enabled, Next;
    if n > 0 {
      RunKeeps(s, es, n - 1);
      StepKeeps(RunTo(s, es, n - 1), es[n - 1]);
    }
  }

  lemma {:induction false} ReadyNotCurrent(s: Sched, k: nat)
    requires Sane(s) && k < |s.ready|
    ensures s.ready[k] != s.cur
  {
    assert StateOk(s, s.cur);
  }

  /** A waiting thread moves up one place at each switch and at nothing else. */
  lemma {:induction false} WaitStep(s: Sched, e: Event, k: nat)
    requires Sane(s) && Enabled(s, e) && k < |s.ready|
    ensures var t := Next(s, e);
      if !Switches(s, e) then k < |t.ready| && t.ready[k] == s.ready[k] && t.cur == s.cur
      else if k == 0 then t.cur == s.ready[0]
      else k - 1 < |t.ready| && t.ready[k - 1] == s.ready[k]
  {
    if e.Wakeup? { WokenKeeps(s, e.ch, NUM_IDS); }
  }

  /**
   * Bounded waiting.  A thread at position `k` of the ready queue is still waiting, at
   * position `k - c`, after `c <= k` switches, and the switch numbered `k + 1` makes it current.
   */
  lemma {:induction false} BoundedWaiting(s: Sched, es: seq<Event>, k: nat, n: nat)
    requires Sane(s) && Legal(s, es) && k < |s.ready| && n <= |es|
    ensures var t, c := RunTo(s, es, n), SwitchCount(s, es, n);
      && (c <= k ==> k - c < |t.ready| && t.ready[k - c] == s.ready[k] && t.cur != s.ready[k])
      && (n > 0 && c == k + 1 == SwitchCount(s, es, n - 1) + 1 ==> t.cur == s.ready[k])
  {
    hide Sane, Enabled, Next, Switches;
    RunKeeps(s, es, n);
    if n > 0 {
      BoundedWaiting(s, es, k, n - 1);
      RunKeeps(s, es, n - 1);
      var c := SwitchCount(s, es, n - 1);
      if c <= k { WaitStep(RunTo(s, es, n - 1), es[n - 1], k - c); }
    }
    var t, c := RunTo(s, es, n), SwitchCount(s, es, n);
    if c <= k { ReadyNotCurrent(t, k - c); }
  }

  /** The timer alone forces a switch every SCHED_SLICE + 1 ticks. */
  lemma {:induction false} TicksForceSwitches(s: Sched, es: seq<Event>, n: nat)
    requires Sane(s) && Legal(s, es) && n <= |es|
    ensures s.ticks + TickCount(es, n) <= RunTo(s, es, n).ticks + (SCHED_SLICE + 1) * SwitchCount(s, es, n)
  {
    hide Sane, Enabled, Next, Switches;
    if n > 0 {
      TicksForceSwitches(s, es, n - 1);
      RunKeeps(s, es, n - 1);
      TickStep(RunTo(s, es, n - 1), es[n - 1]);
    }
  }

  lemma {:induction false} TickStep(s: Sched, e: Event)
    requires Sane(s) && Enabled(s, e)
    ensures s.ticks + (if e.Tick? then 1 else 0) == Next(s, e).ticks + if e.Tick? && Switches(s, e) then SCHED_SLICE + 1
      else 0
  {
    if e.Wakeup? { WokenTicks(s, e.ch, NUM_IDS); }
  }

  lemma {:induction false} WokenTicks(s: Sched, ch: nat, n: nat)
    requires Fits(s) && n <= NUM_IDS
    ensures Woken(s, ch, n).ticks == s.ticks
  {
    if n > 0 { WokenTicks(s, ch, n - 1); }
  }

  lemma {:induction false} SwitchNumbered(s: Sched, es: seq<Event>, n: nat, c: nat) returns (m: nat)
    requires n <= |es| && 0 < c <= SwitchCount(s, es, n)
    ensures 0 < m <= n && SwitchCount(s, es, m) == c == SwitchCount(s, es, m - 1) + 1
  {
    if c <= SwitchCount(s, es, n - 1) { m := SwitchNumbered(s, es, n - 1, c); } else { m := n; }
  }

  /**
   * A ready thread at position `k` has been current by the time 6(k + 1) ticks have passed, whatever else happens
   * between.
   */
  lemma {:induction false} RunsWithinTicks(s: Sched, es: seq<Event>, k: nat) returns (m: nat)
    requires Sane(s) && Legal(s, es) && k < |s.ready| && TickCount(es, |es|) >= 6 * (k + 1)
    ensures 0 < m <= |es| && SwitchCount(s, es, m) == k + 1 && RunTo(s, es, m).cur == s.ready[k]
  {
    TicksForceSwitches(s, es, |es|);
    RunKeeps(s, es, |es|);
    assert RunTo(s, es, |es|).ticks <= SCHED_SLICE;
    hide Sane, Enabled, Next, Switches;
    m := SwitchNumbered(s, es, |es|, k + 1);
    BoundedWaiting(s, es, k, m);
  }

  /** Event `m` of the run wakes channel `ch`. */
  predicate Wakes(es: seq<Event>, m: nat, ch: nat) {
    m < |es| && es[m] == Wakeup(ch)
  }

  /** A thread asleep on `ch` stays so through every run without a wakeup on `ch`. */
  lemma {:induction false} StaysAsleep(s: Sched, es: seq<Event>, n: nat, p: nat, ch: nat)
    requires Sane(s) && Legal(s, es) && n <= |es| && Asleep(s, p, ch) && forall m: nat | m < n :: !Wakes(es, m, ch)
    ensures Asleep(RunTo(s, es, n), p, ch)
  {
    hide Sane, Next, Enabled, Legal;
    if n > 0 {
      StaysAsleep(s, es, n - 1, p, ch);
      assert !Wakes(es, n - 1, ch);
      RunKeeps(s, es, n - 1);
      LegalAt(s, es, n - 1);
      assert p < NUM_IDS;
      ThreadStep(RunTo(s, es, n - 1), es[n - 1], p);
    }
  }

  lemma {:induction false} LegalAt(s: Sched, es: seq<Event>, n: nat)
    requires Legal(s, es) && n < |es|
    ensures Enabled(RunTo(s, es, n), es[n])
  {
  }

  /** What is left of a legal run after its first step is one. */
  lemma {:induction false} LegalRest(s: Sched, es: seq<Event>)
    requires Legal(s, es) && es != []
    ensures Enabled(s, es[0]) && Legal(Next(s, es[0]), es[1..])
  {
    assert RunTo(s, es, 0) == s;
    hide Next, Enabled;
    forall m | 0 <= m < |es[1..]|
      ensures Enabled(RunTo(Next(s, es[0]), es[1..], m), es[1..][m])
    {
      RunShift(s, es, m + 1);
    }
  }

  lemma {:induction false} AsleepOnly(s: Sched, p: nat, ch: nat)
    requires Sane(s) && Asleep(s, p, ch)
    ensures p !in s.ready && p != s.cur
  {
    assert StateOk(s, p);
  }

  /** The first step of a run puts the current thread to sleep on `ch`, and up to `n` nothing wakes `ch`. */
  predicate SleepsThrough(s: Sched, es: seq<Event>, n: nat, ch: nat) {
    1 <= n <= |es| && es[0] == GoToSleep(ch) && forall m: nat | 1 <= m < n :: !Wakes(es, m, ch)
  }

  lemma {:induction false} AsleepAll(s: Sched, es: seq<Event>, n: nat, ch: nat)
    requires Sane(s) && Legal(s, es) && SleepsThrough(s, es, n, ch)
    ensures Asleep(RunTo(s, es, n), s.cur, ch)
  {
    hide Sane, Next, Enabled, Legal, RunTo, Asleep;
    CurFits(s);
    LegalRest(s, es);
    StepKeeps(s, es[0]);
    ThreadStep(s, es[0], s.cur);
    RunShift(s, es, n);
    forall m: nat | m < n - 1
      ensures !Wakes(es[1..], m, ch)
    {
      assert !Wakes(es, m + 1, ch);
    }
    StaysAsleep(Next(s, es[0]), es[1..], n - 1, s.cur, ch);
  }

  lemma {:induction false} CurFits(s: Sched)
    requires Sane(s)
    ensures Fits(s) && s.cur < NUM_IDS
  {
  }

  /**
   * Sleep and wakeup over whole runs.  The thread that calls sleep on `ch` is asleep on it, not ready and not current,
   * at every point of every run until the first wakeup on `ch`; that wakeup makes it ready, and on the ready queue.
   */
  lemma {:induction false} SleepsUntilWoken(s: Sched, es: seq<Event>, n: nat, ch: nat)
    requires Sane(s) && Legal(s, es) && SleepsThrough(s, es, n, ch)
    ensures var t := RunTo(s, es, n); Asleep(t, s.cur, ch) && s.cur !in t.ready && s.cur != t.cur
    ensures Wakes(es, n, ch) ==>
      var t := RunTo(s, es, n + 1); Fits(t) && t.state[s.cur] == Ready && s.cur in t.ready
  {
    hide Sane, Next, Enabled, Legal, RunTo, Asleep;
    CurFits(s);
    AsleepAll(s, es, n, ch);
    RunKeeps(s, es, n);
    AsleepOnly(RunTo(s, es, n), s.cur, ch);
    if Wakes(es, n, ch) {
      LegalAt(s, es, n);
      ThreadStep(RunTo(s, es, n), es[n], s.cur);
      RunMore(s, es, n);
    }
  }

  lemma {:induction false} RunMore(s: Sched, es: seq<Event>, n: nat)
    requires n < |es|
    ensures RunTo(s, es, n + 1) == Next(RunTo(s, es, n), es[n])
  {
  }

  lemma {:induction false} RunShift(s: Sched, es: seq<Event>, n: nat)
    requires 1 <= n <= |es|
    ensures RunTo(s, es, n) == RunTo(Next(s, es[0]), es[1..], n - 1)
  {
    hide Next;
    if n > 1 { RunShift(s, es, n - 1); }
  }
}
