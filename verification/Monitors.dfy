/**
 * Sleeping and waking under spinlocks, one lock operation or protected
 * section at a time, for any number of agents interleaved in any way.
 *
 * A resource is the log (busy flag, waited for in `begin_trans`), an inode
 * (I_BUSY, waited for in `inode_lock`), a buffer (B_BUSY, waited for in
 * `bufcache_get`, which then looks for one anew), or a disk request (a
 * buffer on the IDE queue, waited for in `ide_rw`).  All wait in the same
 * loop and are released by clearing the condition and calling
 * `thread_wakeup`.  What is slept on is a channel: a buffer and the disk
 * request on it share one, so that the end of the request also wakes those
 * who wait for the buffer.
 */
module Monitors {
  /**
   * `guard[r]` is the spinlock of resource `r`, and `exclusive[r]` tells resources that are taken
   * from disk requests, which are awaited under the lock `ide`.  A request can be made only by
   * an agent that has taken its buffer, `buffer[r]`.  Agents waiting for `r` sleep on `channel[r]`.
   */
  datatype Config = Config(agents: nat, locks: nat, guard: seq<nat>, exclusive: seq<bool>, buffer: seq<nat>,
    channel: seq<nat>, ide: nat)

  /** Where an agent stands; the comments name the locks it holds. */
  datatype PC =
    | Out
    | Seek(r: nat)      // about to acquire the guard
    | Post(r: nat)      // about to acquire the guard, to submit a request
    | Posting(r: nat)   // guard
    | Test(r: nat)      // guard; at the loop condition
    | Doze(r: nat)      // guard; in `thread_sleep`, about to acquire the scheduler lock
    | Drowse(r: nat)    // guard and scheduler lock
    | Nod(r: nat)       // scheduler lock; about to be put to sleep
    | Asleep(r: nat)
    | Roused(r: nat)    // made ready by a wakeup
    | Tidying(r: nat)   // scheduler lock
    | Leave(r: nat)     // guard; past the loop
    | Drop(r: nat)      // about to acquire the guard, to release the resource
    | Dropping(r: nat)  // guard
    | Call(r: nat)      // guard; condition cleared, in `thread_wakeup`
    | Waking(r: nat)    // guard and scheduler lock
    | Done(r: nat)      // guard
    | Enter             // a disk interrupt, about to acquire the lock `ide`
    | Inside            // lock `ide`
  {
    predicate OnResource() {
      !Out? && !Enter? && !Inside?
    }

    /** The spinlock this agent holds or is about to acquire, besides the scheduler's. */
    function Lock(c: Config): nat
      requires OnResource() ==> r < |c.guard|
    {
      if OnResource() then c.guard[r] else c.ide
    }

    predicate HasGuard() {
      Inside? || Posting? || Test? || Doze? || Drowse? || Leave? || Dropping? || Call? || Waking? || Done?
    }

    predicate HasSched() {
      Drowse? || Nod? || Tidying? || Waking?
    }

    predicate WantsGuard() {
      Enter? || Seek? || Post? || Drop?
    }

    /** In the waiting loop for `x`. */
    predicate Waits(x: nat) {
      (Seek? || Test? || Doze? || Drowse? || Nod? || Asleep? || Roused? || Tidying?) && r == x
    }

    /** Between making a request and leaving with it done. */
    predicate Engaged() {
      Post? || Posting? || Leave? || (OnResource() && Waits(r))
    }

    predicate Releases() {
      Drop? || Dropping? || Call? || Waking? || Done? || Enter? || Inside?
    }

    predicate WantsSched() {
      Doze? || Roused? || Call?
    }
  }

  const FREE := -1

  /** `queue` is the IDE queue, oldest request first. */
  datatype State = State(holder: seq<int>, sched: int, pending: seq<bool>, queue: seq<nat>, owned: seq<set<nat>>,
    pc: seq<PC>)

  datatype Move = Take(r: nat) | Instead(r: nat) | Submit(r: nat) | Release(r: nat) | Interrupt | Go

  predicate ConfigOk(c: Config) {
    && |c.guard| == |c.exclusive| == |c.buffer| == |c.channel| && c.ide < c.locks
    && (forall r | 0 <= r < |c.guard| :: c.guard[r] < c.locks)
    && (forall r | 0 <= r < |c.guard| :: !c.exclusive[r] ==> c.guard[r] == c.ide)
  }

  predicate Shape(c: Config, s: State) {
    && ConfigOk(c) && |s.holder| == c.locks && |s.pending| == |c.guard| && |s.owned| == |s.pc| == c.agents
    && forall a | 0 <= a < c.agents :: s.pc[a].OnResource() ==> s.pc[a].r < |c.guard|
  }

  function Init(c: Config): State {
    State(seq(c.locks, _ => FREE), FREE, seq(|c.guard|, _ => false), [], seq(c.agents, _ => {}),
      seq(c.agents, _ => Out))
  }

  /**
   * Agents start only what the code lets them: a taken resource is released by its taker alone, a request is made on a
   * buffer taken.
   */
  predicate Enabled(c: Config, s: State, a: nat, m: Move) {
    && Shape(c, s) && a < c.agents
    && match m
       case Take(r) => s.pc[a].Out? && r < |c.guard| && c.exclusive[r]
       case Instead(r) =>
         s.pc[a].Test? && c.exclusive[s.pc[a].r] && r < |c.guard| && c.exclusive[r] && c.guard[r] == c.guard[s.pc[a].r]
       case Submit(r) => s.pc[a].Out? && r < |c.guard| && !c.exclusive[r] && c.buffer[r] in s.owned[a]
       case Release(r) => s.pc[a].Out? && r in s.owned[a] && r < |c.guard|
       case Interrupt => s.pc[a].Out?
       case Go =>
         && !s.pc[a].Out? && !s.pc[a].Asleep?
         && (s.pc[a].WantsGuard() ==> s.holder[s.pc[a].Lock(c)] == FREE)
         && (s.pc[a].WantsSched() ==> s.sched == FREE)
  }

  /** The agent sleeps on the channel of `r`. */
  predicate SleepsWith(c: Config, pc: PC, r: nat) {
    pc.Asleep? && pc.r < |c.channel| && r < |c.channel| && c.channel[pc.r] == c.channel[r]
  }

  /** `thread_wakeup` on the channel of `r`. */
  function Rouse(c: Config, pc: seq<PC>, r: nat): (p: seq<PC>)
    ensures |p| == |pc| && forall a | 0 <= a < |pc| ::
      p[a] == if SleepsWith(c, pc[a], r) then Roused(pc[a].r) else pc[a]
  {
    seq(|pc|, a requires 0 <= a < |pc| => if SleepsWith(c, pc[a], r) then Roused(pc[a].r) else pc[a])
  }

  /** A step into, through or out of the waiting loop. */
  function Waiting(c: Config, s: State, a: nat): State
    requires Shape(c, s) && a < c.agents && s.pc[a].OnResource()
  {
    var r, g := s.pc[a].r, c.guard[s.pc[a].r];
    match s.pc[a]
    case Seek(_) => s.(holder := s.holder[g := a], pc := s.pc[a := Test(r)])
    case Post(_) => s.(holder := s.holder[g := a], pc := s.pc[a := Posting(r)])
    case Posting(_) => s.(pending := s.pending[r := true], queue := s.queue + [r], pc := s.pc[a := Test(r)])
    case Test(_) =>
      if s.pending[r] then s.(pc := s.pc[a := Doze(r)])
      else if !c.exclusive[r] then s.(pc := s.pc[a := Leave(r)])
      else s.(pending := s.pending[r := true], owned := s.owned[a := s.owned[a] + {r}], pc := s.pc[a := Leave(r)])
    case Leave(_) => s.(holder := s.holder[g := FREE], pc := s.pc[a := Out])
    case Doze(_) => s.(sched := a, pc := s.pc[a := Drowse(r)])
    case Drowse(_) => s.(holder := s.holder[g := FREE], pc := s.pc[a := Nod(r)])
    case Nod(_) => s.(sched := FREE, pc := s.pc[a := Asleep(r)])
    case Roused(_) => s.(sched := a, pc := s.pc[a := Tidying(r)])
    case Tidying(_) => s.(sched := FREE, pc := s.pc[a := Seek(r)])
    case _ => s
  }

  /** A step towards releasing a resource and waking those who wait for it. */
  function Releasing(c: Config, s: State, a: nat): State
    requires Shape(c, s) && a < c.agents && s.pc[a].Releases()
  {
    var r, g := if s.pc[a].OnResource() then s.pc[a].r else 0, s.pc[a].Lock(c);
    match s.pc[a]
    case Drop(_) => s.(holder := s.holder[g := a], pc := s.pc[a := Dropping(r)])
    case Dropping(_) =>
      if c.exclusive[r] then
        s.(pending := s.pending[r := false], owned := s.owned[a := s.owned[a] - {r}], pc := s.pc[a := Call(r)])
      else s.(pending := s.pending[r := false], queue := if s.queue == [] then []
           else s.queue[1..], pc := s.pc[a := Call(r)])
    case Call(_) => s.(sched := a, pc := s.pc[a := Waking(r)])
    case Waking(_) => s.(sched := FREE, pc := Rouse(c, s.pc, r)[a := Done(r)])
    case Done(_) => s.(holder := s.holder[g := FREE], pc := s.pc[a := Out])
    case Enter => s.(holder := s.holder[g := a], pc := s.pc[a := Inside])
    case Inside =>
      if s.queue == [] || s.queue[0] >= |c.guard| then s.(holder := s.holder[g := FREE], pc := s.pc[a := Out])
      else s.(pc := s.pc[a := Dropping(s.queue[0])])
    case _ => s
  }

  function Next(c: Config, s: State, a: nat, m: Move): State {
    if !Enabled(c, s, a, m) then s
    else match m
      case Take(r) => s.(pc := s.pc[a := Seek(r)])
      case Instead(r) => s.(pc := s.pc[a := Test(r)])
      case Submit(r) => s.(pc := s.pc[a := Post(r)])
      case Release(r) => s.(pc := s.pc[a := Drop(r)])
      case Interrupt => s.(pc := s.pc[a := Enter])
      case Go => if s.pc[a].Releases() then Releasing(c, s, a) else Waiting(c, s, a)
  }

  /** Some agent has cleared the condition of `r`, holds its guard, and is bound to wake its sleepers. */
  predicate WakerAt(c: Config, s: State, r: nat)
    requires Shape(c, s) && r < |c.guard|
  {
    var b := s.holder[c.guard[r]];
    0 <= b < c.agents && (s.pc[b] == Call(r) || s.pc[b] == Waking(r))
  }

  ghost predicate AgentOk(c: Config, s: State, a: nat)
    requires Shape(c, s) && a < c.agents
  {
    var pc := s.pc[a];
    && (pc.HasGuard() ==> s.holder[pc.Lock(c)] == a)
    && (pc.HasSched() ==> s.sched == a)
    && (pc.Doze? || pc.Drowse? ==> s.pending[pc.r])
    && (pc.Nod? || pc.Asleep? ==> s.pending[pc.r] || WakerAt(c, s, pc.r))
    && (pc.Drop? ==> c.exclusive[pc.r] && pc.r in s.owned[a])
    && (pc.Dropping? ==> if c.exclusive[pc.r] then pc.r in s.owned[a] else s.queue != [] && s.queue[0] == pc.r)
    && (pc.Posting? || pc.Post? ==> !c.exclusive[pc.r])
    && (pc.Engaged() && !c.exclusive[pc.r] ==> c.buffer[pc.r] in s.owned[a])
    && (pc.Leave? ==> if c.exclusive[pc.r] then pc.r in s.owned[a] else !s.pending[pc.r])
    && ((pc.Call? || pc.Waking? || pc.Done?) && c.exclusive[pc.r] ==> pc.r !in s.owned[a])
    && OwnsOk(c, s, a)
  }

  /** What an agent has taken stays taken. */
  ghost predicate OwnsOk(c: Config, s: State, a: nat)
    requires Shape(c, s) && a < c.agents
  {
    forall r | r in s.owned[a] :: r < |c.guard| && c.exclusive[r] && s.pending[r]
  }

  ghost predicate OwnedApart(s: State, a: nat, b: nat)
    requires a < |s.owned| && b < |s.owned|
  {
    a != b ==> s.owned[a] !! s.owned[b]
  }

  /** What is on the queue is unfinished, and there once. */
  predicate QueueOk(c: Config, s: State)
    requires Shape(c, s)
  {
    && (forall k | 0 <= k < |s.queue| :: s.queue[k] < |c.guard| && !c.exclusive[s.queue[k]] && s.pending[s.queue[k]])
    && (forall j, k | 0 <= j < k < |s.queue| :: s.queue[j] != s.queue[k])
  }

  /** An unfinished request is on the queue, and some agent waits for it. */
  ghost predicate RequestOk(c: Config, s: State, r: nat)
    requires Shape(c, s) && r < |c.guard|
  {
    !c.exclusive[r] && s.pending[r] ==> r in s.queue && exists b: nat :: b < c.agents && s.pc[b].Waits(r)
  }

  ghost predicate Inv(c: Config, s: State) {
    && Shape(c, s) && QueueOk(c, s)
    && (forall r: nat | r < |c.guard| :: RequestOk(c, s, r))
    && (forall a: nat | a < c.agents :: AgentOk(c, s, a))
    && (forall a: nat, b: nat | a < c.agents && b < c.agents :: OwnedApart(s, a, b))
  }

  lemma {:induction false} ShapeKeeps(c: Config, s: State, a: nat, m: Move)
    requires Enabled(c, s, a, m)
    ensures Shape(c, Next(c, s, a, m))
  {
  }

  lemma {:induction false} SelfKeeps(c: Config, s: State, a: nat, m: Move)
    requires Enabled(c, s, a, m) && AgentOk(c, s, a) && QueueOk(c, s) && Shape(c, Next(c, s, a, m))
    ensures AgentOk(c, Next(c, s, a, m), a)
  {
    if m.Go? {
      if s.pc[a].Releases() { SelfReleasing(c, s, a); } else { SelfWaiting(c, s, a); }
    }
    hide Waiting, Releasing, QueueOk;
  }

  lemma {:induction false} SelfWaiting(c: Config, s: State, a: nat)
    requires Enabled(c, s, a, Go) && AgentOk(c, s, a) && !s.pc[a].Releases() && Shape(c, Waiting(c, s, a))
    ensures AgentOk(c, Waiting(c, s, a), a)
  {
    if s.pc[a].Test? {
      hide Waiting;
      SelfTesting(c, s, a);
    }
  }

  lemma {:induction false} SelfTesting(c: Config, s: State, a: nat)
    requires Enabled(c, s, a, Go) && AgentOk(c, s, a) && s.pc[a].Test? && Shape(c, Waiting(c, s, a))
    ensures AgentOk(c, Waiting(c, s, a), a)
  {
  }

  lemma {:induction false} SelfReleasing(c: Config, s: State, a: nat)
    requires Enabled(c, s, a, Go) && AgentOk(c, s, a) && QueueOk(c, s) && s.pc[a].Releases() &&
      Shape(c, Releasing(c, s, a))
    ensures AgentOk(c, Releasing(c, s, a), a)
  {
    hide QueueOk;
    if s.pc[a].Inside? && s.queue != [] { HeadIsRequest(c, s); }
  }

  lemma {:induction false} HeadIsRequest(c: Config, s: State)
    requires Shape(c, s) && QueueOk(c, s) && s.queue != []
    ensures s.queue[0] < |c.guard| && !c.exclusive[s.queue[0]]
  {
  }

  /** What a step of `a` leaves alone, seen by another agent that holds, owns or waits for resources. */
  lemma {:induction false} OtherSees(c: Config, s: State, a: nat, m: Move, b: nat, g: nat)
    requires Enabled(c, s, a, m) && AgentOk(c, s, a) && a != b && b < c.agents && g < c.locks &&
      Shape(c, Next(c, s, a, m))
    ensures var t := Next(c, s, a, m);
      && t.owned[b] == s.owned[b] && (t.pc[b] == s.pc[b] || (s.pc[b].Asleep? && t.pc[b] == Roused(s.pc[b].r)))
      && (s.sched == b ==> t.sched == b)
      && (s.holder[g] == b ==> t.holder[g] == b)
      && (s.holder[c.ide] == b ==> t.queue == s.queue)
  {
  }

  /** Nobody else changes the condition of a resource whose guard `b` holds, or which `b` has taken. */
  lemma {:induction false} OtherKeepsPending(c: Config, s: State, a: nat, m: Move, b: nat, r: nat)
    requires Enabled(c, s, a, m) && AgentOk(c, s, a) && a != b && b < c.agents && AgentOk(c, s, b) &&
      OwnedApart(s, a, b) && r < |c.guard|
    requires s.holder[c.guard[r]] == b || (r in s.owned[b] && c.exclusive[r])
    ensures Next(c, s, a, m).pending[r] == s.pending[r]
  {
  }

  /** Whoever clears a condition is bound to wake those who wait for it. */
  lemma {:induction false} ClearedByWaker(c: Config, s: State, a: nat, m: Move, r: nat)
    requires Enabled(c, s, a, m) && AgentOk(c, s, a) && Shape(c, Next(c, s, a, m)) && r < |c.guard| && s.pending[r]
    ensures Next(c, s, a, m).pending[r] || WakerAt(c, Next(c, s, a, m), r)
  {
  }

  /** A waker's own step keeps it the waker, or wakes. */
  lemma {:induction false} WakerMoves(c: Config, s: State, a: nat, m: Move, r: nat)
    requires Enabled(c, s, a, m) && AgentOk(c, s, a) && Shape(c, Next(c, s, a, m)) && r < |c.guard| &&
      WakerAt(c, s, r) && s.holder[c.guard[r]] == a
    ensures WakerAt(c, Next(c, s, a, m), r) ||
      (s.pc[a] == Waking(r) && forall b | 0 <= b < c.agents :: Next(c, s, a, m).pc[b] != Asleep(r))
  {
  }

  /** A sleeper's condition stays unmet until a waker is on its way, and the waker stays until it has woken. */
  lemma {:induction false} SleeperKeeps(c: Config, s: State, a: nat, m: Move, b: nat)
    requires Enabled(c, s, a, m) && AgentOk(c, s, a) && a != b && b < c.agents && AgentOk(c, s, b) &&
      Shape(c, Next(c, s, a, m))
    requires (s.pc[b].Nod? || s.pc[b].Asleep?) && Next(c, s, a, m).pc[b] == s.pc[b]
    ensures var t := Next(c, s, a, m); t.pending[s.pc[b].r] || WakerAt(c, t, s.pc[b].r)
  {
    hide Next;
    var r := s.pc[b].r;
    if s.pending[r] {
      ClearedByWaker(c, s, a, m, r);
    } else if s.holder[c.guard[r]] == a {
      WakerMoves(c, s, a, m, r);
    } else {
      OtherSees(c, s, a, m, s.holder[c.guard[r]], c.guard[r]);
    }
  }

  lemma {:induction false} OtherKeeps(c: Config, s: State, a: nat, m: Move, b: nat)
    requires Enabled(c, s, a, m) && a != b && b < c.agents && Shape(c, Next(c, s, a, m))
    requires AgentOk(c, s, a) && AgentOk(c, s, b) && OwnedApart(s, a, b)
    ensures AgentOk(c, Next(c, s, a, m), b)
  {
    hide Next;
    var t := Next(c, s, a, m);
    var pc := s.pc[b];
    OtherSees(c, s, a, m, b, pc.Lock(c));
    if pc.HasGuard() && pc.OnResource() { OtherKeepsPending(c, s, a, m, b, pc.r); }
    forall r | r in s.owned[b]
      ensures t.pending[r]
    {
      OtherKeepsPending(c, s, a, m, b, r);
    }
    if (pc.Nod? || pc.Asleep?) && t.pc[b] == pc { SleeperKeeps(c, s, a, m, b); }
  }

  /** A request being made is not on the queue yet: whoever waits for it would have to have taken the same buffer. */
  lemma {:induction false} NotYetPending(c: Config, s: State, a: nat)
    requires Inv(c, s) && a < c.agents && s.pc[a].Posting?
    ensures !s.pending[s.pc[a].r]
  {
    var r := s.pc[a].r;
    assert AgentOk(c, s, a) && RequestOk(c, s, r);
    forall b: nat | b < c.agents
      ensures !s.pc[b].Waits(r)
    {
      assert AgentOk(c, s, b) && OwnedApart(s, a, b);
    }
  }

  lemma {:induction false} QueueKeeps(c: Config, s: State, a: nat, m: Move)
    requires Enabled(c, s, a, m) && AgentOk(c, s, a) && QueueOk(c, s) && Shape(c, Next(c, s, a, m))
    requires s.pc[a].Posting? ==> !s.pending[s.pc[a].r]
    ensures QueueOk(c, Next(c, s, a, m))
  {
    var t := Next(c, s, a, m);
    if t.queue == s.queue && t.pending != s.pending {
      forall k | 0 <= k < |s.queue|
        ensures t.pending[s.queue[k]]
      {
        assert !c.exclusive[s.queue[k]];
      }
    }
  }

  /** A request stays on the queue until it is finished. */
  lemma {:induction false} StaysQueued(c: Config, s: State, a: nat, m: Move, r: nat)
    requires Enabled(c, s, a, m) && AgentOk(c, s, a) && Shape(c, Next(c, s, a, m)) && r < |c.guard|
    requires r in s.queue && Next(c, s, a, m).pending[r]
    ensures r in Next(c, s, a, m).queue
  {
    var t := Next(c, s, a, m);
    var k :| 0 <= k < |s.queue| && s.queue[k] == r;
    if |t.queue| < |s.queue| {
      assert t.queue[k - 1] == r;
    } else {
      assert t.queue[k] == r;
    }
  }

  lemma {:induction false} RequestKeeps(c: Config, s: State, a: nat, m: Move, r: nat)
    requires Enabled(c, s, a, m) && AgentOk(c, s, a) && Shape(c, Next(c, s, a, m)) && r < |c.guard| &&
      RequestOk(c, s, r)
    ensures RequestOk(c, Next(c, s, a, m), r)
  {
    var t := Next(c, s, a, m);
    if !c.exclusive[r] && t.pending[r] {
      if s.pending[r] {
        var b: nat :| b < c.agents && s.pc[b].Waits(r);
        StaysQueued(c, s, a, m, r);
        if b != a {
          OtherSees(c, s, a, m, b, c.ide);
          hide Next;
        }
        assert t.pc[b].Waits(r);
      } else {
        assert t.pc[a].Waits(r) && t.queue[|s.queue|] == r;
      }
    }
  }

  /** Every step of every agent keeps the invariant. */
  lemma {:induction false} StepKeeps(c: Config, s: State, a: nat, m: Move)
    requires Inv(c, s) && Enabled(c, s, a, m)
    ensures Inv(c, Next(c, s, a, m))
  {
    var t := Next(c, s, a, m);
    ShapeKeeps(c, s, a, m);
    assert AgentOk(c, s, a);
    if s.pc[a].Posting? { NotYetPending(c, s, a); }
    QueueKeeps(c, s, a, m);
    forall r: nat | r < |c.guard|
      ensures RequestOk(c, t, r)
    {
      assert RequestOk(c, s, r);
      RequestKeeps(c, s, a, m, r);
    }
    forall b: nat | b < c.agents
      ensures AgentOk(c, t, b)
    {
      assert AgentOk(c, s, b) && OwnedApart(s, a, b);
      if b == a { SelfKeeps(c, s, a, m); } else { OtherKeeps(c, s, a, m, b); }
    }
    forall b: nat, d: nat | b < c.agents && d < c.agents
      ensures OwnedApart(t, b, d)
    {
      assert OwnedApart(s, b, d) && AgentOk(c, s, b) && AgentOk(c, s, d);
      ApartKeeps(c, s, a, m, b, d);
    }
  }

  lemma {:induction false} ApartKeeps(c: Config, s: State, a: nat, m: Move, b: nat, d: nat)
    requires Enabled(c, s, a, m) && b < c.agents && d < c.agents && AgentOk(c, s, b) && AgentOk(c, s, d) &&
      OwnedApart(s, b, d)
    requires Shape(c, Next(c, s, a, m))
    ensures OwnedApart(Next(c, s, a, m), b, d)
  {
    OwnedStep(c, s, a, m);
    hide Next, Enabled;
  }

  /** An agent comes to own only what was not taken, and changes nobody else's. */
  lemma {:induction false} OwnedStep(c: Config, s: State, a: nat, m: Move)
    requires Enabled(c, s, a, m) && Shape(c, Next(c, s, a, m))
    ensures var t := Next(c, s, a, m);
      && (forall b | 0 <= b < c.agents && b != a :: t.owned[b] == s.owned[b])
      && forall r | r in t.owned[a] :: r in s.owned[a] || (r < |c.guard| && !s.pending[r])
  {
  }

  datatype Step = Step(agent: nat, move: Move)

  function RunTo(c: Config, run: seq<Step>, n: nat): State
    requires n <= |run|
  {
    if n == 0 then Init(c) else Next(c, RunTo(c, run, n - 1), run[n - 1].agent, run[n - 1].move)
  }

  lemma {:induction false} RunKeeps(c: Config, run: seq<Step>, n: nat)
    requires ConfigOk(c) && n <= |run|
    ensures Inv(c, RunTo(c, run, n))
  {
    if n > 0 {
      RunKeeps(c, run, n - 1);
      hide Inv, Next;
      var s, step := RunTo(c, run, n - 1), run[n - 1];
      NextOf(c, s, step);
    }
  }

  lemma {:induction false} NextOf(c: Config, s: State, step: Step)
    requires Inv(c, s)
    ensures Inv(c, Next(c, s, step.agent, step.move))
  {
    if Enabled(c, s, step.agent, step.move) { StepKeeps(c, s, step.agent, step.move); }
  }

  /**
   * No wakeup is lost.  At every point of every run, an agent asleep on a resource whose
   * guard is free is waiting for something that has not happened yet; and if the
   * condition is already clear, the holder of the guard is about to wake it.
   */
  lemma {:induction false} NoLostWakeup(c: Config, run: seq<Step>, n: nat, a: nat)
    requires ConfigOk(c) && n <= |run| && a < c.agents
    ensures var s := RunTo(c, run, n);
      && Shape(c, s)
      && (s.pc[a].Asleep? && s.holder[c.guard[s.pc[a].r]] == FREE ==> s.pending[s.pc[a].r])
      && (s.pc[a].Asleep? && !s.pending[s.pc[a].r] ==> WakerAt(c, s, s.pc[a].r))
  {
    RunKeeps(c, run, n);
    assert AgentOk(c, RunTo(c, run, n), a);
  }

  /**
   * A thread asleep in `ide_rw` has its request on the IDE queue, unless the interrupt that took it off is about to
   * wake the thread.
   */
  lemma {:induction false} SleeperIsQueued(c: Config, run: seq<Step>, n: nat, a: nat)
    requires ConfigOk(c) && n <= |run| && a < c.agents
    ensures var s := RunTo(c, run, n);
      && Shape(c, s)
      && (s.pc[a].Asleep? && !c.exclusive[s.pc[a].r] ==> s.pc[a].r in s.queue || WakerAt(c, s, s.pc[a].r))
      && (s.pc[a].Asleep? && !c.exclusive[s.pc[a].r] && s.holder[c.ide] == FREE ==> s.pc[a].r in s.queue)
  {
    NoLostWakeup(c, run, n, a);
    RunKeeps(c, run, n);
    var s := RunTo(c, run, n);
    if s.pc[a].Asleep? { assert RequestOk(c, s, s.pc[a].r); }
  }

  /** The waker leaves nobody asleep on the channel of what it has released. */
  lemma {:induction false} WakerWakesAll(c: Config, s: State, a: nat, b: nat)
    requires Inv(c, s) && a < c.agents && b < c.agents && s.pc[a].Waking? && SleepsWith(c, s.pc[b], s.pc[a].r)
    ensures Enabled(c, s, a, Go) && Next(c, s, a, Go).pc[b] == Roused(s.pc[b].r)
  {
  }

  /** At most one agent is between taking an exclusive resource and releasing it: one transaction at a time. */
  lemma {:induction false} MutualExclusion(c: Config, run: seq<Step>, n: nat, a: nat, b: nat, r: nat)
    requires ConfigOk(c) && n <= |run| && a < c.agents && b < c.agents
    ensures var s := RunTo(c, run, n);
      Shape(c, s) && (r in s.owned[a] && r in s.owned[b] ==> a == b && r < |c.guard| && s.pending[r])
  {
    RunKeeps(c, run, n);
    assert OwnedApart(RunTo(c, run, n), a, b) && AgentOk(c, RunTo(c, run, n), a);
  }

  /**
   * What the waiting loop is for.  An agent past it has the resource it took, marked as taken, and nobody else has it;
   * or it has made a request, and the request is finished.  One that has released a resource no longer has it.
   */
  lemma {:induction false} LoopDelivers(c: Config, run: seq<Step>, n: nat, a: nat)
    requires ConfigOk(c) && n <= |run| && a < c.agents
    ensures var s := RunTo(c, run, n);
      && Shape(c, s)
      && (s.pc[a].Leave? && c.exclusive[s.pc[a].r] ==>
         && s.pc[a].r in s.owned[a] && s.pending[s.pc[a].r]
         && forall b | 0 <= b < c.agents && b != a :: s.pc[a].r !in s.owned[b])
      && (s.pc[a].Leave? && !c.exclusive[s.pc[a].r] ==> !s.pending[s.pc[a].r] && s.pc[a].r !in s.queue)
      && ((s.pc[a].Call? || s.pc[a].Waking? || s.pc[a].Done?) && c.exclusive[s.pc[a].r] ==>
         s.pc[a].r !in s.owned[a])
  {
    RunKeeps(c, run, n);
    var s := RunTo(c, run, n);
    assert AgentOk(c, s, a);
    forall b | 0 <= b < c.agents && b != a
      ensures s.owned[a] !! s.owned[b]
    {
      assert OwnedApart(s, a, b);
    }
  }

  // Progress

  /** A lock that is not free is held by an agent that stands where it is held. */
  predicate HeldBy(c: Config, s: State, g: nat)
    requires Shape(c, s) && g < c.locks
  {
    var b := s.holder[g];
    b == FREE || (0 <= b < c.agents && s.pc[b].HasGuard() && s.pc[b].Lock(c) == g)
  }

  predicate SchedHeld(c: Config, s: State)
    requires Shape(c, s)
  {
    s.sched == FREE || (0 <= s.sched < c.agents && s.pc[s.sched].HasSched())
  }

  ghost predicate HasOwner(c: Config, s: State, r: nat)
    requires Shape(c, s) && r < |c.guard|
  {
    c.exclusive[r] && s.pending[r] ==> exists a: nat :: a < c.agents && r in s.owned[a]
  }

  ghost predicate Accounted(c: Config, s: State) {
    && Inv(c, s) && SchedHeld(c, s)
    && (forall g: nat | g < c.locks :: HeldBy(c, s, g))
    && (forall r: nat | r < |c.guard| :: HasOwner(c, s, r))
  }

  lemma {:induction false} HeldKeeps(c: Config, s: State, a: nat, m: Move, g: nat)
    requires Inv(c, s) && Enabled(c, s, a, m) && Shape(c, Next(c, s, a, m)) && g < c.locks && HeldBy(c, s, g)
    ensures HeldBy(c, Next(c, s, a, m), g)
  {
    assert AgentOk(c, s, a);
    if 0 <= s.holder[g] != a {
      OtherSees(c, s, a, m, s.holder[g], g);
      hide Next;
    } else {
      if s.queue != [] { HeadIsRequest(c, s); }
      HeldBySelf(c, s, a, m, g);
      hide Next;
    }
  }

  lemma {:induction false} HeldBySelf(c: Config, s: State, a: nat, m: Move, g: nat)
    requires Enabled(c, s, a, m) && Shape(c, Next(c, s, a, m)) && g < c.locks && HeldBy(c, s, g) &&
      (s.holder[g] == FREE || s.holder[g] == a)
    requires s.queue != [] ==> s.queue[0] < |c.guard| && !c.exclusive[s.queue[0]]
    ensures HeldBy(c, Next(c, s, a, m), g)
  {
  }

  lemma {:induction false} SchedKeeps(c: Config, s: State, a: nat, m: Move)
    requires Inv(c, s) && Enabled(c, s, a, m) && Shape(c, Next(c, s, a, m)) && SchedHeld(c, s)
    ensures SchedHeld(c, Next(c, s, a, m))
  {
    assert AgentOk(c, s, a);
  }

  lemma {:induction false} OwnerKeeps(c: Config, s: State, a: nat, m: Move, r: nat)
    requires Inv(c, s) && Enabled(c, s, a, m) && Shape(c, Next(c, s, a, m)) && r < |c.guard| && HasOwner(c, s, r)
    ensures HasOwner(c, Next(c, s, a, m), r)
  {
    var t := Next(c, s, a, m);
    assert AgentOk(c, s, a);
    if c.exclusive[r] && t.pending[r] {
      if s.pending[r] {
        var b: nat :| b < c.agents && r in s.owned[b];
        assert r in t.owned[b];
      } else {
        assert r in t.owned[a];
      }
    }
  }

  lemma {:induction false} RunAccounted(c: Config, run: seq<Step>, n: nat)
    requires ConfigOk(c) && n <= |run|
    ensures Accounted(c, RunTo(c, run, n))
  {
    if n > 0 {
      RunAccounted(c, run, n - 1);
      var s, a, m := RunTo(c, run, n - 1), run[n - 1].agent, run[n - 1].move;
      var t := Next(c, s, a, m);
      if Enabled(c, s, a, m) {
        StepKeeps(c, s, a, m);
        hide Inv, Next, HeldBy, SchedHeld, HasOwner;
        assert Shape(c, s) && Shape(c, t) by { RunKeeps(c, run, n); NoLostShape(c, s); NoLostShape(c, t); }
        SchedKeeps(c, s, a, m);
        forall g: nat | g < c.locks
          ensures HeldBy(c, t, g)
        {
          HeldKeeps(c, s, a, m, g);
        }
        forall r: nat | r < |c.guard|
          ensures HasOwner(c, t, r)
        {
          OwnerKeeps(c, s, a, m, r);
        }
      }
    }
  }

  lemma {:induction false} NoLostShape(c: Config, s: State)
    requires Inv(c, s)
    ensures Shape(c, s)
  {
  }

  /** The locks cannot deadlock: if any agent is on its way through, some agent can take its next step. */
  lemma {:induction false} NoDeadlock(c: Config, s: State, a: nat) returns (b: nat)
    requires Accounted(c, s) && a < c.agents && !s.pc[a].Out? && !s.pc[a].Asleep?
    ensures Enabled(c, s, b, Go)
  {
    b := a;
    if s.pc[b].WantsGuard() && s.holder[s.pc[b].Lock(c)] != FREE {
      assert HeldBy(c, s, s.pc[b].Lock(c));
      b := s.holder[s.pc[b].Lock(c)];
    }
    if s.pc[b].WantsSched() && s.sched != FREE { b := s.sched; }
  }

  /**
   * When every agent is outside or asleep, whoever sleeps on an exclusive resource
   * sleeps because some agent has taken it and not yet released it.
   */
  lemma {:induction false} SleeperHasOwner(c: Config, s: State, a: nat) returns (b: nat)
    requires Accounted(c, s) && a < c.agents && s.pc[a].Asleep? && c.exclusive[s.pc[a].r]
    requires forall b: nat | b < c.agents :: s.pc[b].Out? || s.pc[b].Asleep?
    ensures b < c.agents && s.pc[a].r in s.owned[b]
  {
    var r := s.pc[a].r;
    assert AgentOk(c, s, a) && HeldBy(c, s, c.guard[r]) && HasOwner(c, s, r);
    b :| b < c.agents && r in s.owned[b];
  }
}
