/** Progress of the protocol: unless a worker is sending its ticket to a call that has timed
    out, no unfinished call can be stuck, before or after `Stop`. Every run is bounded, so every
    maximal run of this kind completes every call. */
module ProtocolProgress {
  import opened Base
  import opened SyncCacheModel
  import opened Protocol
  import opened ProtocolInvariant

  /** The steps that calls and workers take on their own: no new call, no timeout, no
      `ClearCache`, no `Stop`. */
  predicate Internal(st: Step) {
    st.CallStep? || st.WorkerStep? || st.Answer?
  }

  predicate Unfinished(pc: CallPc) {
    !pc.Idle? && !pc.Done?
  }

  /** Worker `w` is blocked on the response channel of a call that has timed out. */
  predicate Blocked(s: State, w: nat) {
    && w < |s.workers| && s.workers[w].WSend?
    && s.workers[w].item.call < |s.calls| && s.calls[s.workers[w].item.call] == Done(TimedOut)
  }

  /** No worker is blocked. Calls may have timed out. */
  ghost predicate Undisturbed(s: State) {
    forall w :: 0 <= w < |s.workers| ==> !Blocked(s, w)
  }

  /** Workers exit only once the stopped queue is drained, and nothing is queued after that. */
  ghost predicate StopInv(s: State) {
    forall w :: 0 <= w < |s.workers| && s.workers[w].WExited? ==> s.stopped && s.queue == []
  }

  lemma {:induction false} ReachableStopInv(c: Config, states: seq<State>, steps: seq<Step>, n: nat)
    requires Behavior(c, states, steps) && n < |states|
    ensures StopInv(states[n])
  {
    if n > 0 {
      ReachableStopInv(c, states, steps, n - 1);
      assert Next(c, states[n - 1], steps[n - 1], states[n - 1 + 1]);
    }
  }

  function SomeData(k: Kind): (d: Data)
    ensures WellTyped(k, d)
  {
    match k
    case ReadFile => FileData([])
    case ReadDir => DirData([])
    case DecryptName => NameData([])
  }

  // ---------------------------------------------------------------- no deadlock

  lemma HolderCanMove(c: Config, s: State, t: nat) returns (st: Step)
    requires Inv(c, s) && t < |s.locks| && s.locks[t] != Free
    ensures Internal(st) && Enabled(c, s, st)
  {
    if s.locks[t].ByCall? {
      st := CallStep(s.locks[t].i);
    } else {
      assert HoldsOwnTicket(s.workers[t]);
      if s.workers[t].WRequest? {
        st := Answer(t, SomeData(c.reqs[s.workers[t].item.call].kind), None);
      } else {
        st := WorkerStep(t);
      }
    }
  }

  lemma WorkerCanMove(c: Config, s: State, w: nat) returns (st: Step)
    requires Inv(c, s) && 1 <= w < |s.workers| && !Blocked(s, w) && !s.workers[w].WExited?
    requires s.workers[w].WIdle? ==> |s.queue| > 0 || s.stopped
    ensures Internal(st) && Enabled(c, s, st)
  {
    if HoldsOwnTicket(s.workers[w]) || (s.workers[w].WLock? && s.locks[w] != Free) {
      st := HolderCanMove(c, s, w);
    } else {
      st := WorkerStep(w);
      if s.workers[w].WSend? { assert Awaited(s, s.workers[w].item); }
    }
  }

  ghost predicate AllBlocked(s: State) {
    forall w :: 1 <= w < |s.workers| ==> Blocked(s, w)
  }

  /** What it takes for call `i` to hang: it is parked on the ticket of a blocked worker, or all
      workers are blocked while it waits for room in an open queue, or for its item to be taken. */
  ghost predicate Hung(s: State, i: nat)
    requires i < |s.calls|
  {
    match s.calls[i]
    case Parked(_, t) => Blocked(s, t)
    case AtEnqueue(_) => !s.stopped && AllBlocked(s)
    case Waiting(a, _) => Item(i, a) in s.queue && AllBlocked(s)
    case _ => false
  }

  /** No deadlock: while a call is unfinished and not hung, some call or worker can step. */
  lemma NoDeadlock(c: Config, s: State, i: nat) returns (st: Step)
    requires Inv(c, s) && StopInv(s) && c.numWorkers >= 1
    requires i < |s.calls| && Unfinished(s.calls[i]) && !Hung(s, i)
    ensures Internal(st) && Enabled(c, s, st)
  {
    var pc := s.calls[i];
    if CallEnabled(s, pc) {
      st := CallStep(i);
    } else if pc.AtLock? {
      st := HolderCanMove(c, s, pc.t);
    } else if pc.Parked? {
      assert BeforeBroadcast(c, s.workers[pc.t], ClientSlot(c, c.reqs[i]));
      st := WorkerCanMove(c, s, pc.t);
    } else if pc.AtEnqueue? || Item(i, pc.a) in s.queue {
      var w :| 1 <= w < |s.workers| && !Blocked(s, w);
      st := WorkerCanMove(c, s, w);
    } else {
      assert Pending(s, Item(i, pc.a));
      var w :| 0 <= w < |s.workers| && Owes(s.workers[w]) && s.workers[w].item == Item(i, pc.a);
      st := WorkerCanMove(c, s, w);
    }
  }

  /** No call and no worker can take a step. */
  ghost predicate Stuck(c: Config, s: State) {
    Shape(c, s) && forall st :: Internal(st) ==> !Enabled(c, s, st)
  }

  /** The exact condition: when nothing can move any more, the unfinished calls are the hung
      ones, and no others. */
  lemma HangsExactly(c: Config, states: seq<State>, steps: seq<Step>, n: nat, i: nat)
    requires Behavior(c, states, steps) && n < |states| && c.numWorkers >= 1
    requires Stuck(c, states[n]) && i < |states[n].calls|
    ensures Unfinished(states[n].calls[i]) <==> Hung(states[n], i)
  {
    ReachableInv(c, states, steps, n);
    ReachableStopInv(c, states, steps, n);
    if Unfinished(states[n].calls[i]) && !Hung(states[n], i) {
      var st := NoDeadlock(c, states[n], i);
    }
  }

  /** When nothing can move any more, every worker is blocked, or idle at an empty queue, or
      has exited after `Stop` with the queue drained. */
  lemma StuckWorker(c: Config, states: seq<State>, steps: seq<Step>, n: nat, w: nat)
    requires Behavior(c, states, steps) && n < |states| && Stuck(c, states[n])
    requires 1 <= w < |states[n].workers|
    ensures var s := states[n];
      Blocked(s, w) || (s.queue == [] && s.workers[w] == if s.stopped then WExited else WIdle)
  {
    var s := states[n];
    ReachableInv(c, states, steps, n);
    ReachableStopInv(c, states, steps, n);
    if !Blocked(s, w) && !(s.queue == [] && s.workers[w] == if s.stopped then WExited else WIdle) {
      var st := WorkerCanMove(c, states[n], w);
    }
  }

  // --------------------------------------------------------------- termination

  function Sum(xs: seq<nat>): nat {
    if xs == [] then 0 else Sum(xs[..|xs| - 1]) + xs[|xs| - 1]
  }

  lemma {:induction false} SumUpdate(xs: seq<nat>, i: nat, x: nat)
    requires i < |xs|
    ensures Sum(xs[i := x]) == Sum(xs) - xs[i] + x
  {
    var ys := xs[i := x];
    var m := |xs| - 1;
    if i == m {
      assert ys[..m] == xs[..m];
    } else {
      assert ys[..m] == xs[..m][i := x];
      SumUpdate(xs[..m], i, x);
    }
  }

  lemma {:induction false} SumBounded(xs: seq<nat>, ys: seq<nat>, d: nat)
    requires |xs| == |ys|
    requires forall i :: 0 <= i < |xs| ==> ys[i] <= xs[i] + d
    ensures Sum(ys) <= Sum(xs) + |xs| * d
  {
    if xs != [] {
      var m := |xs| - 1;
      SumBounded(xs[..m], ys[..m], d);
      assert |xs| * d == m * d + d;
    }
  }

  /** What one queued item still costs: the worker steps it triggers, and the wakeup
      of up to `n` parked calls. */
  function ItemCost(n: nat): nat {
    3 * n + 8
  }

  function QueueCost(n: nat, length: nat): nat {
    if length == 0 then 0 else QueueCost(n, length - 1) + ItemCost(n)
  }

  function AttemptCost(n: nat): nat {
    ItemCost(n) + 11
  }

  function LaterAttempts(n: nat, a: nat): nat {
    if a == 0 then 2 * AttemptCost(n) else if a == 1 then AttemptCost(n) else 0
  }

  function CallRank(n: nat, pc: CallPc): nat {
    match pc
    case Idle => 3 * AttemptCost(n)
    case AtGet(a) => LaterAttempts(n, a) + 10 + ItemCost(n)
    case AtEnqueue(a) => LaterAttempts(n, a) + 9 + ItemCost(n)
    case Waiting(a, chanClosed) => LaterAttempts(n, a) + if chanClosed then 7 else 8
    case GotTicket(a, _) => LaterAttempts(n, a) + 6
    case GotClose(a) => LaterAttempts(n, a) + 6
    case AtDelete(a) => LaterAttempts(n, a) + 5
    case AtLock(a, _) => LaterAttempts(n, a) + 5
    case AtLoopGet(a, _) => LaterAttempts(n, a) + 4
    case AtWait(a, _) => LaterAttempts(n, a) + 3
    case Parked(a, _) => LaterAttempts(n, a) + 2
    case AtUnlock(a, _, _) => LaterAttempts(n, a) + 1
    case Done(_) => 0
  }

  function WorkerRank(n: nat, pc: WorkerPc): nat {
    match pc
    case WGot(_) => 3 * n + 8
    case WSend(_, _, _) => 3 * n + 7
    case WLock(_) => 3 * n + 6
    case WRequest(_) => 3 * n + 5
    case WSet(_, _) => 3 * n + 4
    case WBroadcast(_) => 3 * n + 3
    case WClose(_) => 2
    case WUnlock(_) => 2
    case WIdle => 1
    case WExited => 0
  }

  function ClearRank(pc: ClearPc): nat {
    match pc
    case ClearIdle => 7
    case Collecting(k) => if k == ReadFile then 6 else if k == ReadDir then 4 else 2
    case Wiping(k, _) => if k == ReadFile then 5 else if k == ReadDir then 3 else 1
    case ClearDone => 0
  }

  function CallRanks(n: nat, calls: seq<CallPc>): seq<nat> {
    seq(|calls|, i requires 0 <= i < |calls| => CallRank(n, calls[i]))
  }

  function WorkerRanks(n: nat, workers: seq<WorkerPc>): seq<nat> {
    seq(|workers|, w requires 0 <= w < |workers| => WorkerRank(n, workers[w]))
  }

  function ClearRanks(clears: seq<ClearPc>): seq<nat> {
    seq(|clears|, j requires 0 <= j < |clears| => ClearRank(clears[j]))
  }

  /** An upper bound on the number of steps that can still happen. */
  function Budget(c: Config, s: State): nat {
    var n := |c.reqs|;
    Sum(CallRanks(n, s.calls)) + Sum(WorkerRanks(n, s.workers)) + Sum(ClearRanks(s.clears))
    + QueueCost(n, |s.queue|) + (if s.stopped then 0 else 1)
  }

  lemma CallRankUpdate(n: nat, calls: seq<CallPc>, i: nat, pc: CallPc)
    requires i < |calls|
    ensures Sum(CallRanks(n, calls[i := pc])) == Sum(CallRanks(n, calls)) - CallRank(n, calls[i]) + CallRank(n, pc)
  {
    assert CallRanks(n, calls[i := pc]) == CallRanks(n, calls)[i := CallRank(n, pc)];
    SumUpdate(CallRanks(n, calls), i, CallRank(n, pc));
  }

  lemma WorkerRankUpdate(n: nat, workers: seq<WorkerPc>, w: nat, pc: WorkerPc)
    requires w < |workers|
    ensures Sum(WorkerRanks(n, workers[w := pc]))
         == Sum(WorkerRanks(n, workers)) - WorkerRank(n, workers[w]) + WorkerRank(n, pc)
  {
    assert WorkerRanks(n, workers[w := pc]) == WorkerRanks(n, workers)[w := WorkerRank(n, pc)];
    SumUpdate(WorkerRanks(n, workers), w, WorkerRank(n, pc));
  }

  lemma ClearRankUpdate(clears: seq<ClearPc>, j: nat, pc: ClearPc)
    requires j < |clears|
    ensures Sum(ClearRanks(clears[j := pc])) == Sum(ClearRanks(clears)) - ClearRank(clears[j]) + ClearRank(pc)
  {
    assert ClearRanks(clears[j := pc]) == ClearRanks(clears)[j := ClearRank(pc)];
    SumUpdate(ClearRanks(clears), j, ClearRank(pc));
  }

  lemma RetryRank(n: nat, a: nat)
    requires a < RETRY_ATTEMPTS
    ensures CallRank(n, Retry(a)) <= LaterAttempts(n, a)
  {
  }

  lemma CallStepRank(c: Config, s: State, i: nat)
    requires Shape(c, s) && i < |s.calls| && CallEnabled(s, s.calls[i])
    requires !s.calls[i].AtEnqueue?
    ensures CallRank(|c.reqs|, ApplyCall(c, s, i).calls[i]) < CallRank(|c.reqs|, s.calls[i])
  {
    RetryRank(|c.reqs|, s.calls[i].a);
  }

  lemma CallStepSpends(c: Config, s: State, i: nat)
    requires Shape(c, s) && i < |s.calls| && CallEnabled(s, s.calls[i])
    ensures Budget(c, ApplyCall(c, s, i)) < Budget(c, s)
  {
    var s' := ApplyCall(c, s, i);
    assert s'.calls == s.calls[i := s'.calls[i]] && s'.workers == s.workers && s'.clears == s.clears;
    CallRankUpdate(|c.reqs|, s.calls, i, s'.calls[i]);
    if !s.calls[i].AtEnqueue? {
      assert s'.queue == s.queue;
      CallStepRank(c, s, i);
    }
  }

  lemma BroadcastSpends(c: Config, s: State, w: nat)
    requires Shape(c, s) && 1 <= w < |s.workers| && s.workers[w].WBroadcast?
    ensures Budget(c, ApplyWorker(c, s, w)) < Budget(c, s)
  {
    var s' := ApplyWorker(c, s, w);
    var n := |c.reqs|;
    WorkerRankUpdate(n, s.workers, w, s'.workers[w]);
    assert Sum(CallRanks(n, s'.calls)) <= Sum(CallRanks(n, s.calls)) + n * 3 by {
      SumBounded(CallRanks(n, s.calls), CallRanks(n, s'.calls), 3);
    }
  }

  /** A worker step other than a broadcast lowers the rank of the worker, counting the
      item it takes from the queue, and raises no call's rank. */
  lemma WorkerStepRank(c: Config, s: State, w: nat)
    requires Shape(c, s) && 1 <= w < |s.workers| && WorkerEnabled(s, w, s.workers[w])
    requires !s.workers[w].WBroadcast?
    ensures var s' := ApplyWorker(c, s, w); var n := |c.reqs|;
      && s'.workers == s.workers[w := s'.workers[w]]
      && s'.clears == s.clears && s'.stopped == s.stopped
      && WorkerRank(n, s'.workers[w]) + QueueCost(n, |s'.queue|) < WorkerRank(n, s.workers[w]) + QueueCost(n, |s.queue|)
  {
  }

  lemma AnsweredCallRank(c: Config, s: State, w: nat)
    requires Shape(c, s) && 1 <= w < |s.workers| && WorkerEnabled(s, w, s.workers[w])
    requires !s.workers[w].WBroadcast?
    ensures Sum(CallRanks(|c.reqs|, ApplyWorker(c, s, w).calls)) <= Sum(CallRanks(|c.reqs|, s.calls))
  {
    if s.workers[w].WSend? || s.workers[w].WClose? {
      var s' := ApplyWorker(c, s, w);
      var i := s.workers[w].item.call;
      assert s'.calls == s.calls[i := s'.calls[i]];
      CallRankUpdate(|c.reqs|, s.calls, i, s'.calls[i]);
    }
  }

  lemma WorkerStepSpends(c: Config, s: State, w: nat)
    requires Shape(c, s) && 1 <= w < |s.workers| && WorkerEnabled(s, w, s.workers[w])
    ensures Budget(c, ApplyWorker(c, s, w)) < Budget(c, s)
  {
    if s.workers[w].WBroadcast? {
      BroadcastSpends(c, s, w);
    } else {
      WorkerStepRank(c, s, w);
      AnsweredCallRank(c, s, w);
      WorkerRankUpdate(|c.reqs|, s.workers, w, ApplyWorker(c, s, w).workers[w]);
    }
  }

  lemma ClearStepSpends(c: Config, s: State, j: nat)
    requires j < |s.clears| && s.clears[j] != ClearDone
    ensures Budget(c, ApplyClear(s, j)) < Budget(c, s)
  {
    ClearRankUpdate(s.clears, j, ApplyClear(s, j).clears[j]);
  }

  /** Every step of every kind spends some of the budget. */
  lemma StepSpends(c: Config, s: State, st: Step)
    requires Shape(c, s) && Enabled(c, s, st)
    ensures Budget(c, Apply(c, s, st)) < Budget(c, s)
  {
    match st
    case Begin(i) => CallRankUpdate(|c.reqs|, s.calls, i, AtGet(0));
    case CallStep(i) => CallStepSpends(c, s, i);
    case Timeout(i) => CallRankUpdate(|c.reqs|, s.calls, i, Done(TimedOut));
    case WorkerStep(w) => WorkerStepSpends(c, s, w);
    case Answer(w, _, _) => WorkerRankUpdate(|c.reqs|, s.workers, w, Apply(c, s, st).workers[w]);
    case ClearStep(j) => ClearStepSpends(c, s, j);
    case Stop =>
  }

  /** No run, whatever its interleaving, is longer than the initial budget. */
  lemma {:induction false} RunsAreBounded(c: Config, states: seq<State>, steps: seq<Step>, n: nat)
    requires Behavior(c, states, steps) && n < |states|
    ensures n + Budget(c, states[n]) <= Budget(c, Init(c))
  {
    if n > 0 {
      RunsAreBounded(c, states, steps, n - 1);
      assert Next(c, states[n - 1], steps[n - 1], states[n - 1 + 1]);
      StepSpends(c, states[n - 1], steps[n - 1]);
    }
  }

  /** Completion: a run that cannot be extended by any call or worker has finished every call it
      began, unless the call hangs on a blocked worker; in particular all of them, if it ends
      undisturbed. Since runs are bounded, every run reaches such a state. */
  lemma MaximalRunsComplete(c: Config, states: seq<State>, steps: seq<Step>, i: nat)
    requires Behavior(c, states, steps) && c.numWorkers >= 1
    requires var s := states[|steps|]; Stuck(c, s) && i < |s.calls|
    ensures var s := states[|steps|];
      && (s.calls[i].Idle? || s.calls[i].Done? <==> !Hung(s, i))
      && (Undisturbed(s) ==> s.calls[i].Idle? || s.calls[i].Done?)
    ensures |steps| <= Budget(c, Init(c))
  {
    RunsAreBounded(c, states, steps, |steps|);
    HangsExactly(c, states, steps, |steps|, i);
    if Undisturbed(states[|steps|]) { UndisturbedNotHung(c, states[|steps|], i); }
  }

  lemma UndisturbedNotHung(c: Config, s: State, i: nat)
    requires Shape(c, s) && Undisturbed(s) && c.numWorkers >= 1 && i < |s.calls|
    ensures !Hung(s, i)
  {
    assert !Blocked(s, 1);
  }
}
