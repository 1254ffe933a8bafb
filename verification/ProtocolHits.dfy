/** What a call reads from the cache: a hit finishes it at once, whatever the workers, the queue
    and `Stop` do, and every outcome was in the call's slot while the call ran. */
module ProtocolHits {
  import opened Base
  import opened SyncCacheModel
  import opened Protocol
  import opened ProtocolInvariant
  import opened ProtocolSoundness
  import opened ProtocolBudget
  import opened ProtocolProgress

  // --------------------------------------------------------------------------- hits

  /** The places where a call looks for data before it waits for anything. */
  predicate Looks(pc: CallPc) {
    pc.AtGet? || pc.GotTicket? || pc.GotClose?
  }

  /** The entry of `k` holds data `d`. */
  predicate Holding(s: State, k: Slot, d: Data) {
    k in s.cache && s.cache[k].data == Some(d)
  }

  /** Until the call takes its next step, nobody deletes the data of its slot or replaces it. */
  ghost predicate Kept(states: seq<State>, m: nat, n: nat, i: nat, pc: CallPc, k: Slot, d: Data)
    requires n < |states|
  {
    forall x :: m <= x <= n && i < |states[x].calls| && states[x].calls[i] == pc ==> Holding(states[x], k, d)
  }

  /** The worker that takes step `st`, if it is one. */
  function Actor(s: State, st: Step): WorkerPc {
    if st.WorkerStep? && st.w < |s.workers| then s.workers[st.w] else WIdle
  }

  /** What a step of somebody else can do to a call: begin it, time it out, answer it with a ticket
      or a close while it waits, and wake it when it is parked on the ticket of the worker that
      broadcasts, and then it does. */
  lemma OtherStepPc(c: Config, s: State, st: Step, i: nat)
    requires Shape(c, s) && Enabled(c, s, st) && st != CallStep(i) && i < |s.calls|
    ensures i < |Apply(c, s, st).calls|
    ensures var pc, pc' := s.calls[i], Apply(c, s, st).calls[i];
      match pc
      case Idle => pc' == if st == Begin(i) then AtGet(0) else pc
      case Waiting(a, _) =>
        || pc' == pc || (st == Timeout(i) && pc' == Done(TimedOut))
        || (Actor(s, st).WSend? && Actor(s, st).item == Item(i, a) && pc' == GotTicket(a, Actor(s, st).t))
        || (Actor(s, st).WClose? && Actor(s, st).item.call == i && pc' == Waiting(a, true))
      case Parked(a, t) => pc' == if st == WorkerStep(t) && Actor(s, st).WBroadcast? then AtLock(a, t) else pc
      case _ => pc' == pc
  {
    if st.CallStep? {
      OwnCallEvolves(c, s, st.i);
    } else if st.WorkerStep? {
      OtherWorkerPc(c, s, st.w, i);
    }
  }

  lemma OtherWorkerPc(c: Config, s: State, w: nat, i: nat)
    requires Shape(c, s) && 1 <= w < |s.workers| && WorkerEnabled(s, w, s.workers[w]) && i < |s.calls|
    ensures i < |ApplyWorker(c, s, w).calls|
    ensures var pc, pc', actor := s.calls[i], ApplyWorker(c, s, w).calls[i], s.workers[w];
      match pc
      case Waiting(a, _) =>
        || pc' == pc
        || (actor.WSend? && actor.item == Item(i, a) && pc' == GotTicket(a, actor.t))
        || (actor.WClose? && actor.item.call == i && pc' == Waiting(a, true))
      case Parked(a, t) => pc' == if w == t && actor.WBroadcast? then AtLock(a, t) else pc
      case _ => pc' == pc
  {
  }

  /** One step of anybody, while the call looks into a slot with data. */
  lemma HitStep(c: Config, s: State, st: Step, i: nat, d: Data)
    requires Shape(c, s) && Enabled(c, s, st) && i < |s.calls| && Looks(s.calls[i])
    requires Holding(s, ClientSlot(c, c.reqs[i]), d)
    ensures i < |Apply(c, s, st).calls|
    ensures Apply(c, s, st).calls[i] == if st == CallStep(i) then Done(Returned(d)) else s.calls[i]
  {
    if st != CallStep(i) { OtherStepPc(c, s, st, i); }
  }

  lemma FinishedStays(c: Config, s: State, st: Step, i: nat)
    requires Shape(c, s) && Enabled(c, s, st) && i < |s.calls| && s.calls[i].Done?
    ensures i < |Apply(c, s, st).calls| && Apply(c, s, st).calls[i] == s.calls[i]
  {
    CallEvolves(c, s, st, i);
  }

  /** The same along a run. */
  lemma HitNext(c: Config, states: seq<State>, steps: seq<Step>, p: nat, i: nat, k: Slot, d: Data)
    requires Behavior(c, states, steps) && p < |steps| && i < |states[p].calls| && i < |c.reqs|
    requires k == ClientSlot(c, c.reqs[i])
    requires states[p].calls[i].Done? || (Looks(states[p].calls[i]) && Holding(states[p], k, d))
    ensures i < |states[p + 1].calls|
    ensures states[p + 1].calls[i] ==
      if states[p].calls[i].Done? || steps[p] != CallStep(i) then states[p].calls[i] else Done(Returned(d))
  {
    assert Next(c, states[p], steps[p], states[p + 1]);
    if states[p].calls[i].Done? {
      FinishedStays(c, states[p], steps[p], i);
    } else {
      HitStep(c, states[p], steps[p], i, d);
    }
  }

  /** Call `i` takes a step between states `m` and `n`. */
  ghost predicate Moves(steps: seq<Step>, m: nat, n: nat, i: nat)
    requires n <= |steps|
  {
    exists x :: m <= x < n && steps[x] == CallStep(i)
  }

  lemma MovesSnoc(steps: seq<Step>, m: nat, n: nat, i: nat)
    requires m <= n < |steps|
    ensures Moves(steps, m, n + 1, i) <==> Moves(steps, m, n, i) || steps[n] == CallStep(i)
  {
  }

  /** A hit: a call that looks into a slot with data `d` stays where it is until its next step, and
      that step finishes it with exactly this data. */
  lemma {:induction false} CacheHit(c: Config, states: seq<State>, steps: seq<Step>, m: nat, n: nat, i: nat, d: Data)
    requires Behavior(c, states, steps) && m <= n < |states| && i < |states[m].calls| && i < |c.reqs|
    requires Looks(states[m].calls[i]) && Kept(states, m, n, i, states[m].calls[i], ClientSlot(c, c.reqs[i]), d)
    ensures i < |states[n].calls|
    ensures states[n].calls[i] == if Moves(steps, m, n, i) then Done(Returned(d)) else states[m].calls[i]
    decreases n
  {
    if m < n {
      var p := n - 1;
      assert Kept(states, m, p, i, states[m].calls[i], ClientSlot(c, c.reqs[i]), d);
      CacheHit(c, states, steps, m, p, i, d);
      MovesSnoc(steps, m, p, i);
      HitNext(c, states, steps, p, i, ClientSlot(c, c.reqs[i]), d);
    }
  }

  /** And it can take that step in every state until then. */
  lemma LookerCanMove(c: Config, states: seq<State>, steps: seq<Step>, n: nat, i: nat)
    requires Behavior(c, states, steps) && n < |states| && i < |states[n].calls| && Looks(states[n].calls[i])
    ensures Shape(c, states[n]) && Enabled(c, states[n], CallStep(i))
  {
    ReachableInv(c, states, steps, n);
  }

  /** The call has left the lookup with which attempt `a` starts. */
  predicate Left(pc: CallPc, a: nat) {
    pc.Done? || (Active(pc) && (pc.a > a || (pc.a == a && !pc.AtGet?)))
  }

  lemma LeftStays(c: Config, s: State, st: Step, i: nat, a: nat)
    requires Shape(c, s) && Enabled(c, s, st) && i < |s.calls| && Left(s.calls[i], a)
    ensures i < |Apply(c, s, st).calls| && Left(Apply(c, s, st).calls[i], a)
  {
    CallEvolves(c, s, st, i);
    if st != CallStep(i) { OtherStepPc(c, s, st, i); }
  }

  lemma {:induction false} LeftForever(c: Config, states: seq<State>, steps: seq<Step>, m: nat, n: nat, i: nat, a: nat)
    requires Behavior(c, states, steps) && m <= n < |states| && i < |states[m].calls| && Left(states[m].calls[i], a)
    ensures i < |states[n].calls| && Left(states[n].calls[i], a)
    decreases n
  {
    if m < n {
      LeftForever(c, states, steps, m, n - 1, i, a);
      assert Next(c, states[n - 1], steps[n - 1], states[n - 1 + 1]);
      LeftStays(c, states[n - 1], steps[n - 1], i, a);
    }
  }

  /** No item of an attempt that starts with a hit is in the queue, before, then or later. */
  lemma HitNeverQueued(c: Config, states: seq<State>, steps: seq<Step>, m: nat, n: nat, i: nat, a: nat, d: Data, x: nat)
    requires Behavior(c, states, steps) && m <= n < |states| && i < |states[m].calls| && i < |c.reqs|
    requires states[m].calls[i] == AtGet(a) && Kept(states, m, n, i, AtGet(a), ClientSlot(c, c.reqs[i]), d)
    requires x <= n
    ensures Item(i, a) !in states[x].queue
  {
    if Item(i, a) in states[x].queue {
      assert ItemsAwaited(states[x]) by { ReachableInv(c, states, steps, x); }
      assert Awaited(states[x], Item(i, a));
      if x < m {
        LeftForever(c, states, steps, x, m, i, a);
      } else {
        assert Kept(states, m, x, i, AtGet(a), ClientSlot(c, c.reqs[i]), d);
        CacheHit(c, states, steps, m, x, i, d);
      }
    }
  }

  /** Such a call never hangs: in a run that has come to its end, stopped or not, with all
      workers blocked or not and the queue full or not, it has returned the data. */
  lemma CachedCallCompletes(c: Config, states: seq<State>, steps: seq<Step>, m: nat, i: nat, d: Data)
    requires Behavior(c, states, steps) && m < |states| && i < |states[m].calls| && i < |c.reqs|
    requires Looks(states[m].calls[i])
    requires Kept(states, m, |steps|, i, states[m].calls[i], ClientSlot(c, c.reqs[i]), d)
    requires Stuck(c, states[|steps|])
    ensures i < |states[|steps|].calls| && states[|steps|].calls[i] == Done(Returned(d))
    ensures !Hung(states[|steps|], i)
  {
    CacheHit(c, states, steps, m, |steps|, i, d);
    if !Moves(steps, m, |steps|, i) { LookerCanMove(c, states, steps, |steps|, i); }
    assert Internal(CallStep(i));
  }

  // ------------------------------------------------------------------ where outcomes come from

  /** How a call gets to where it holds what it read. */
  lemma UnlockFrom(c: Config, states: seq<State>, steps: seq<Step>, p: nat, i: nat)
    requires Behavior(c, states, steps) && p < |steps| && i < |states[p + 1].calls| && i < |c.reqs|
    requires states[p + 1].calls[i].AtUnlock?
    ensures i < |states[p].calls|
    ensures if steps[p] == CallStep(i)
      then states[p].calls[i].AtLoopGet?
           && states[p + 1].calls[i].got == Lookup(states[p].cache, ClientSlot(c, c.reqs[i]))
      else states[p].calls[i] == states[p + 1].calls[i]
  {
    assert Next(c, states[p], steps[p], states[p + 1]);
    CallEvolves(c, states[p], steps[p], i);
    if steps[p] != CallStep(i) { OtherStepPc(c, states[p], steps[p], i); }
  }

  /** What a call holds on to until it has unlocked its ticket is what it read under the lock. */
  lemma {:induction false} UnlockRead(c: Config, states: seq<State>, steps: seq<Step>, n: nat, i: nat) returns (p: nat)
    requires Behavior(c, states, steps) && n < |states| && i < |states[n].calls| && i < |c.reqs|
    requires states[n].calls[i].AtUnlock?
    ensures p < n && steps[p] == CallStep(i) && i < |states[p].calls| && states[p].calls[i].AtLoopGet?
    ensures states[n].calls[i].got == Lookup(states[p].cache, ClientSlot(c, c.reqs[i]))
    decreases n
  {
    assert n > 0;
    UnlockFrom(c, states, steps, n - 1, i);
    if steps[n - 1] == CallStep(i) {
      p := n - 1;
    } else {
      p := UnlockRead(c, states, steps, n - 1, i);
    }
  }

  /** Data or an error that a call returns was in its slot at some step `p` of the call itself: an
      error only if the call read it under its ticket's lock, and there the error has precedence
      over data; data on its own also at one of the earlier looks. */
  lemma {:induction false} OutcomeWasRead(c: Config, states: seq<State>, steps: seq<Step>, n: nat, i: nat)
    returns (p: nat, e: Entry)
    requires Behavior(c, states, steps) && n < |states| && i < |states[n].calls| && i < |c.reqs|
    requires states[n].calls[i].Done?
    requires states[n].calls[i].outcome.Returned? || states[n].calls[i].outcome.Failed?
    ensures p < n && steps[p] == CallStep(i) && i < |states[p].calls|
    ensures Lookup(states[p].cache, ClientSlot(c, c.reqs[i])) == Some(e)
    ensures match states[n].calls[i].outcome
      case Failed(err) => states[p].calls[i].AtLoopGet? && e.err == Some(err)
      case Returned(d) =>
        e.data == Some(d) && (Looks(states[p].calls[i]) || (states[p].calls[i].AtLoopGet? && e.err.None?))
      case _ => true
    decreases n
  {
    assert n > 0;
    var s := states[n - 1];
    assert Next(c, s, steps[n - 1], states[n - 1 + 1]);
    CallEvolves(c, s, steps[n - 1], i);
    if steps[n - 1] != CallStep(i) {
      OtherStepPc(c, s, steps[n - 1], i);
      p, e := OutcomeWasRead(c, states, steps, n - 1, i);
    } else if s.calls[i].AtUnlock? {
      p := UnlockRead(c, states, steps, n - 1, i);
      e := Lookup(states[p].cache, ClientSlot(c, c.reqs[i])).value;
    } else {
      p, e := n - 1, Lookup(s.cache, ClientSlot(c, c.reqs[i])).value;
    }
  }

  // ----------------------------------------------------------------------- after Stop

  /** A call that begins after `Stop` returns data that is cached, or panics at the closed queue:
      it never waits for anything. */
  lemma {:induction false} AfterStop(c: Config, states: seq<State>, steps: seq<Step>, m: nat, n: nat, i: nat)
    requires Behavior(c, states, steps) && m <= n < |states| && i < |states[m].calls|
    requires states[m].stopped && states[m].calls[i] == Idle
    ensures states[n].stopped && i < |states[n].calls|
    ensures states[n].calls[i] in {Idle, AtGet(0), AtEnqueue(0), Done(Panicked)}
      || (states[n].calls[i].Done? && states[n].calls[i].outcome.Returned?)
    ensures Active(states[n].calls[i]) ==> Shape(c, states[n]) && Enabled(c, states[n], CallStep(i))
    decreases n
  {
    assert Shape(c, states[n]) by { ReachableInv(c, states, steps, n); }
    if m < n {
      var p := n - 1;
      AfterStop(c, states, steps, m, p, i);
      assert Next(c, states[p], steps[p], states[p + 1]);
      CallEvolves(c, states[p], steps[p], i);
      if steps[p] != CallStep(i) { OtherStepPc(c, states[p], steps[p], i); }
    }
  }

  /** Calls panic after `Stop` only. */
  lemma {:induction false} PanicMeansStopped(c: Config, states: seq<State>, steps: seq<Step>, n: nat, i: nat)
    requires Behavior(c, states, steps) && n < |states| && i < |states[n].calls| && states[n].calls[i] == Done(Panicked)
    ensures states[n].stopped
    decreases n
  {
    assert n > 0;
    var s, st := states[n - 1], steps[n - 1];
    assert Next(c, s, st, states[n - 1 + 1]);
    CallEvolves(c, s, st, i);
    if s.calls[i] == Done(Panicked) {
      PanicMeansStopped(c, states, steps, n - 1, i);
    } else if st != CallStep(i) {
      OtherStepPc(c, s, st, i);
    }
  }
}
