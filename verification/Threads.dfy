/**
 * Threads: the scheduler over the index-linked queues.  Each method is one
 * section under the scheduler lock, and takes the step of the scheduling
 * machine that it stands for.
 */
module Threads {
  import opened ThreadQueues
  import opened Scheduling

  class Scheduler {
    const tq: TQueue
    var state: seq<TState>
    var chan: seq<nat>
    var cur: nat
    var ticks: nat

    ghost function Abs(): Sched
      reads this, tq
    {
      Sched(if |tq.a.q| > READYQ then tq.a.q[READYQ] else [], cur, state, chan, ticks)
    }

    /** Threads are queued exactly when ready, and then on the ready queue. */
    ghost predicate Homed()
      reads this, tq
    {
      && tq.Valid() && |state| == NUM_IDS
      && forall p: nat | p < NUM_IDS :: tq.a.at[p] == if state[p] == Ready then READYQ else -1
    }

    ghost predicate Valid()
      reads this, tq
    {
      Homed() && Sane(Abs())
    }

    /** `thread_init`: every thread dead but the boot thread, which runs. */
    constructor ()
      ensures Valid() && fresh(tq) && cur == 0 && ticks == 0 && Abs().ready == [] &&
        state == seq(NUM_IDS, _ => Dead)[0 := Run]
    {
      tq := new TQueue();
      chan, cur, ticks := seq(NUM_IDS, _ => 0), 0, 0;
      state := seq(NUM_IDS, _ => Dead)[0 := Run];
      new;
      assert forall p: nat | p < NUM_IDS :: StateOk(Abs(), p);
    }

    /** `thread_spawn`, once the new thread's context exists. */
    method Spawn(pid: nat)
      requires Valid() && Enabled(Abs(), Event.Spawn(pid))
      modifies this, tq
      ensures Valid() && Abs() == Next(old(Abs()), Event.Spawn(pid))
      ensures state[pid] == Ready && Ring(Abs()) == Ring(old(Abs())) + [pid]
    {
      hide Ring, Joined;
      StepKeeps(Abs(), Event.Spawn(pid));
      RingStep(Abs(), Event.Spawn(pid));
      hide Rep, Sane;
      state := state[pid := Ready];
      tq.Enqueue(READYQ, pid);
    }

    /** `thread_yield`: the current thread goes to the back, and the front of the queue runs. */
    method Yield()
      requires Valid()
      modifies this, tq
      ensures Valid() && Abs() == Next(old(Abs()), Event.Yield)
      ensures Ring(Abs()) == Ring(old(Abs()))[1..] + [old(cur)]
    {
      hide Ring, Joined;
      StepKeeps(Abs(), Event.Yield);
      RingStep(Abs(), Event.Yield);
      hide Rep, Sane;
      Requeue();
    }

    method Requeue()
      requires Homed() && Fits(Abs()) && state[cur] == Run
      modifies this, tq
      ensures Homed() && Abs() == Dispatch(MakeReady(old(Abs()), old(cur)))
    {
      assert |tq.a.q| == NUM_IDS + 1 && |tq.a.at| == NUM_IDS;
      hide Rep;
      var oldCur := cur;
      state := state[oldCur := Ready];
      tq.Enqueue(READYQ, oldCur);
      var newCur := tq.Dequeue(READYQ);
      state := state[newCur := Run];
      cur := newCur;
    }

    /** `sched_update`: a timer tick; a thread that has had more than its slice yields. */
    method Update()
      requires Valid()
      modifies this, tq
      ensures Valid() && Abs() == Next(old(Abs()), Tick)
      ensures Ring(Abs()) == if old(ticks) < SCHED_SLICE then Ring(old(Abs())) else Ring(old(Abs()))[1..] + [old(cur)]
    {
      hide Ring, Joined;
      StepKeeps(Abs(), Tick);
      RingStep(Abs(), Tick);
      hide Rep, Sane;
      ticks := ticks + 1;
      if ticks > SCHED_SLICE {
        ticks := 0;
        Requeue();
      }
    }

    /** `thread_sleep` up to the context switch. */
    method Sleep(ch: nat)
      requires Valid() && Enabled(Abs(), GoToSleep(ch))
      modifies this, tq
      ensures Valid() && Abs() == Next(old(Abs()), GoToSleep(ch))
      ensures Asleep(Abs(), old(cur), ch) && Ring(Abs()) == Ring(old(Abs()))[1..]
    {
      hide Ring, Joined;
      StepKeeps(Abs(), GoToSleep(ch));
      RingStep(Abs(), GoToSleep(ch));
      ThreadStep(Abs(), GoToSleep(ch), cur);
      hide Rep, Sane;
      chan := chan[cur := ch];
      state := state[cur := TState.Sleep];
      var newCur := tq.Dequeue(READYQ);
      state := state[newCur := Run];
      cur := newCur;
    }

    /** `thread_sleep` once it runs again. */
    method Resume()
      requires Valid()
      modifies this
      ensures Valid() && Abs() == Next(old(Abs()), Tidy)
      ensures chan == old(chan)[cur := 0] && state == old(state) && Ring(Abs()) == Ring(old(Abs()))
    {
      StepKeeps(Abs(), Tidy);
      hide Rep, Sane;
      chan := chan[cur := 0];
    }

    /** `thread_wakeup`: every thread asleep on the channel becomes ready, in order of its number. */
    method Wakeup(ch: nat)
      requires Valid()
      modifies this, tq
      ensures Valid() && Abs() == Next(old(Abs()), Event.Wakeup(ch))
      ensures forall p: nat | p < NUM_IDS ::
        state[p] == if old(state)[p] == TState.Sleep && old(chan)[p] == ch then Ready else old(state)[p]
      ensures Ring(old(Abs())) <= Ring(Abs()) && Joined(old(Abs()), ch, NUM_IDS, Ring(Abs())[|Ring(old(Abs()))|..])
    {
      hide Rep, Ring, Joined, Next, Woken, Sane;
      QueueSizes(tq);
      ghost var s := Abs();
      WokenFacts(s, ch);
      WokenNone(s, ch);
      var pid := 0;
      while pid < NUM_IDS
        invariant pid <= NUM_IDS && Homed() && Abs() == Woken(s, ch, pid) && chan == s.chan
        invariant |tq.a.q| == NUM_IDS + 1 && |tq.a.at| == NUM_IDS && forall p | pid <= p < NUM_IDS ::
          state[p] == s.state[p]
      {
        WokenMore(s, ch, pid);
        if state[pid] == TState.Sleep && chan[pid] == ch {
          state := state[pid := Ready];
          tq.Enqueue(READYQ, pid);
        }
        pid := pid + 1;
      }
    }

    /** The end of `kern_main`: the boot thread hands the processor to the idle thread it has spawned. */
    method HandOver(pid: nat)
      requires Valid() && cur == 0 && 0 < pid < NUM_IDS && state[pid] == Ready
      modifies this, tq
      ensures Valid() && cur == pid && state == old(state)[pid := Run] && chan == old(chan) && state[0] == Run
      ensures exists k ::
        0 <= k < |old(Abs().ready)| && old(Abs().ready)[k] == pid &&
        Abs().ready == old(Abs().ready)[..k] + old(Abs().ready)[k + 1..]
    {
      ghost var s, k := Abs(), tq.a.pos[pid];
      tq.Remove(READYQ, pid);
      state := state[pid := Run];
      cur := pid;
      TakenOut(s, Abs(), pid, k);
    }
  }

  lemma {:induction false} QueueSizes(tq: TQueue)
    requires tq.Valid()
    ensures |tq.a.q| == NUM_IDS + 1 && |tq.a.at| == NUM_IDS
  {
  }

  lemma {:induction false} WokenNone(s: Sched, ch: nat)
    requires Fits(s)
    ensures Woken(s, ch, 0) == s
  {
  }

  lemma {:induction false} WokenMore(s: Sched, ch: nat, n: nat)
    requires Fits(s) && n < NUM_IDS
    ensures Woken(s, ch, n + 1) == if s.state[n] == TState.Sleep && s.chan[n] == ch then MakeReady(Woken(s, ch, n), n)
      else Woken(s, ch, n)
  {
  }

  lemma {:induction false} WokenFacts(s: Sched, ch: nat)
    requires Sane(s)
    ensures Fits(s)
    ensures var t := Next(s, Wakeup(ch));
      && Sane(t) && t == Woken(s, ch, NUM_IDS)
      && (forall p: nat | p < NUM_IDS ::
         t.state[p] == if s.state[p] == TState.Sleep && s.chan[p] == ch then Ready else s.state[p])
      && Ring(s) <= Ring(t) && Joined(s, ch, NUM_IDS, Ring(t)[|Ring(s)|..])
  {
    StepKeeps(s, Wakeup(ch));
    WokenKeeps(s, ch, NUM_IDS);
    RingStep(s, Wakeup(ch));
  }

  lemma {:induction false} TakenOut(s: Sched, t: Sched, pid: nat, k: nat)
    requires Sane(s) && s.cur == 0 && 0 < pid < NUM_IDS && k < |s.ready| && s.ready[k] == pid
    requires t == s.(ready := s.ready[..k] + s.ready[k + 1..], cur := pid, state := s.state[pid := Run])
    ensures Sane(t)
  {
    assert forall j | 0 <= j < |t.ready| :: t.ready[j] == s.ready[if j < k then j else j + 1];
    forall p: nat | p < NUM_IDS
      ensures StateOk(t, p)
    {
      assert StateOk(s, p);
      if p in s.ready && p != pid {
        var j :| 0 <= j < |s.ready| && s.ready[j] == p;
        assert t.ready[if j < k then j else j - 1] == p;
      }
    }
  }
}
