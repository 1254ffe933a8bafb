/** Calls on a failing slot, one after the other: over a whole run in which they do not overlap,
    there is exactly one backend request per call. */
module ProtocolSequence {
  import opened Base
  import opened SyncCacheModel
  import opened Protocol
  import opened ProtocolInvariant
  import opened ProtocolSoundness
  import opened ProtocolBudget
  import opened ProtocolHits
  import opened ProtocolSolo

  predicate OnSlot(c: Config, i: nat, k: Slot) {
    i < |c.reqs| && ClientSlot(c, c.reqs[i]) == k
  }

  predicate ActiveOn(c: Config, calls: seq<CallPc>, i: int, k: Slot) {
    0 <= i < |calls| && OnSlot(c, i, k) && Active(calls[i])
  }

  /** The calls on `k` do not overlap, none has timed out or met a stopped queue, and no
      `ClearCache` is under way. */
  ghost predicate Orderly(c: Config, s: State, k: Slot) {
    && NoOverlap(c, s.calls, k)
    && (forall i :: 0 <= i < |s.calls| && OnSlot(c, i, k) ==>
          s.calls[i] != Done(TimedOut) && s.calls[i] != Done(Panicked))
    && (forall j :: 0 <= j < |s.clears| ==> s.clears[j] == ClearIdle || s.clears[j] == ClearDone)
  }

  ghost predicate Quiet(c: Config, s: State, k: Slot) {
    forall i :: !ActiveOn(c, s.calls, i, k)
  }

  // ------------------------------------------------------------------------- counting

  /** How many calls on `k` have finished. */
  function FinishedOn(c: Config, calls: seq<CallPc>, k: Slot): nat {
    if calls == [] then 0
    else
      var n := |calls| - 1;
      FinishedOn(c, calls[..n], k) + if OnSlot(c, n, k) && calls[n].Done? then 1 else 0
  }

  lemma {:induction false} SameFinished(c: Config, calls: seq<CallPc>, calls': seq<CallPc>, k: Slot)
    requires |calls'| == |calls|
    requires forall i :: 0 <= i < |calls| && OnSlot(c, i, k) ==> calls'[i].Done? == calls[i].Done?
    ensures FinishedOn(c, calls', k) == FinishedOn(c, calls, k)
    decreases |calls|
  {
    if calls != [] { SameFinished(c, calls[..|calls| - 1], calls'[..|calls| - 1], k); }
  }

  lemma {:induction false} OneMoreFinished(c: Config, calls: seq<CallPc>, calls': seq<CallPc>, k: Slot, i: nat)
    requires |calls'| == |calls| && i < |calls| && OnSlot(c, i, k) && !calls[i].Done? && calls'[i].Done?
    requires forall j :: 0 <= j < |calls| && j != i && OnSlot(c, j, k) ==> calls'[j].Done? == calls[j].Done?
    ensures FinishedOn(c, calls', k) == FinishedOn(c, calls, k) + 1
    decreases |calls|
  {
    var n := |calls| - 1;
    if i == n {
      SameFinished(c, calls[..n], calls'[..n], k);
    } else {
      OneMoreFinished(c, calls[..n], calls'[..n], k, i);
    }
  }

  // ------------------------------------------------------------------------ one step

  lemma OrderlyAlone(c: Config, s: State, k: Slot, i: nat)
    requires Shape(c, s) && Orderly(c, s, k) && i < |s.calls| && OnSlot(c, i, k)
    requires forall j :: j != i ==> !ActiveOn(c, s.calls, j, k)
    ensures Alone(c, s, k, i)
  {
    forall j | 0 <= j < |s.calls| && j != i && ClientSlot(c, c.reqs[j]) == k
      ensures s.calls[j].Idle? || (s.calls[j].Done? && s.calls[j].outcome != TimedOut)
    {
      assert OnSlot(c, j, k) && !ActiveOn(c, s.calls, j, k);
    }
  }

  /** While call `i` on `k` is active, no other call on `k` begins or ends. */
  lemma OthersRest(c: Config, s: State, st: Step, k: Slot, i: nat, j: nat)
    requires Shape(c, s) && Enabled(c, s, st) && Orderly(c, s, k) && Orderly(c, Apply(c, s, st), k)
    requires ActiveOn(c, s.calls, i, k) && j < |s.calls| && j != i && OnSlot(c, j, k)
    ensures |Apply(c, s, st).calls| == |s.calls|
    ensures !Active(s.calls[j]) && Apply(c, s, st).calls[j] == s.calls[j]
  {
    CallEvolves(c, s, st, j);
    assert st == Begin(j) ==> Apply(c, s, st).calls[i] == s.calls[i];
    assert s.calls[j].Idle? ==> Apply(c, s, st).calls[j] == if st == Begin(j) then AtGet(0) else Idle by {
      if st != CallStep(j) { OtherStepPc(c, s, st, j); }
    }
    OneActive(c, s.calls, Apply(c, s, st).calls, k, i, j);
  }

  ghost predicate NoOverlap(c: Config, calls: seq<CallPc>, k: Slot) {
    forall i, j :: ActiveOn(c, calls, i, k) && ActiveOn(c, calls, j, k) ==> i == j
  }

  lemma OneActive(c: Config, calls: seq<CallPc>, calls': seq<CallPc>, k: Slot, i: nat, j: nat)
    requires NoOverlap(c, calls, k) && NoOverlap(c, calls', k) && |calls'| == |calls|
    requires ActiveOn(c, calls, i, k) && j < |calls| && j != i && OnSlot(c, j, k)
    requires PcEvolves(calls[j], calls'[j])
    requires calls[j].Idle? && calls'[j] != Idle ==> calls'[i] == calls[i]
    ensures !Active(calls[j]) && calls'[j] == calls[j]
  {
    assert !ActiveOn(c, calls, j, k);
    assert !(ActiveOn(c, calls', i, k) && ActiveOn(c, calls', j, k));
  }

  /** Nothing is asked for on a quiet slot. */
  lemma QuietStep(c: Config, s: State, st: Step, k: Slot)
    requires Shape(c, s) && ItemsAwaited(s) && Enabled(c, s, st) && KeysMatch(c)
    requires Quiet(c, s, k) && Orderly(c, s, k) && NoFlight(c, s, k)
    ensures NoFlight(c, Apply(c, s, st), k) && CallsOn(c, Apply(c, s, st).log, k) == CallsOn(c, s.log, k)
  {
    if st.WorkerStep? {
      QuietWorkerStep(c, s, st.w, k);
    } else if st.Answer? {
      CallsOnSnoc(c, s.log, Apply(c, s, st).log[|s.log|], k);
      assert !InFlight(c, s.workers[st.w], k);
    } else if st.CallStep? {
      assert ApplyCall(c, s, st.i).workers == s.workers && ApplyCall(c, s, st.i).log == s.log;
    }
  }

  lemma QuietWorkerStep(c: Config, s: State, w: nat, k: Slot)
    requires Shape(c, s) && ItemsAwaited(s) && KeysMatch(c) && 1 <= w < |s.workers| && WorkerEnabled(s, w, s.workers[w])
    requires Quiet(c, s, k) && Orderly(c, s, k) && NoFlight(c, s, k)
    ensures NoFlight(c, ApplyWorker(c, s, w), k) && ApplyWorker(c, s, w).log == s.log
  {
    WorkerStepCalls(c, s, w);
    assert !InFlight(c, s.workers[w], k);
    if s.workers[w].WGot? {
      assert Awaited(s, s.workers[w].item);
      assert !ActiveOn(c, s.calls, s.workers[w].item.call, k);
    }
  }

  // ----------------------------------------------------------------------- the invariant

  ghost predicate SequenceInv(c: Config, s: State, k: Slot) {
    && Shape(c, s)
    && (Quiet(c, s, k) ==> NoFlight(c, s, k) && CallsOn(c, s.log, k) == FinishedOn(c, s.calls, k))
    && (forall i :: ActiveOn(c, s.calls, i, k) ==> Solo(c, s, k, i, FinishedOn(c, s.calls, k)))
    && (forall i :: 0 <= i < |s.calls| && OnSlot(c, i, k) && s.calls[i].Done? ==> s.calls[i].outcome.Failed?)
  }

  /** What the steps need to know about the states before and after. */
  ghost predicate Ready(c: Config, s: State, st: Step, k: Slot) {
    && KeysMatch(c) && Shape(c, s) && ChannelInv(c, s) && InFlightInv(c, s) && SoundInv(c, s)
    && Enabled(c, s, st) && Orderly(c, s, k)
    && var s' := Apply(c, s, st);
    && Shape(c, s') && ChannelInv(c, s') && InFlightInv(c, s') && SoundInv(c, s')
    && Orderly(c, s', k) && Failing(c, s.log, k) && Failing(c, s'.log, k)
  }

  /** Call `i` is the one that moves. */
  ghost predicate OnlyMoves(c: Config, calls: seq<CallPc>, calls': seq<CallPc>, k: Slot, i: nat) {
    && |calls'| == |calls| && ActiveOn(c, calls, i, k) && !calls'[i].Idle?
    && forall j :: 0 <= j < |calls| && j != i && OnSlot(c, j, k) ==> !Active(calls[j]) && calls'[j] == calls[j]
  }

  lemma ActiveMoves(c: Config, s: State, st: Step, k: Slot, i: nat, base: nat)
    requires Ready(c, s, st, k) && ActiveOn(c, s.calls, i, k) && Solo(c, s, k, i, base)
    ensures OnlyMoves(c, s.calls, Apply(c, s, st).calls, k, i) && Solo(c, Apply(c, s, st), k, i, base)
  {
    var s' := Apply(c, s, st);
    CallEvolves(c, s, st, i);
    forall j | 0 <= j < |s.calls| && j != i && OnSlot(c, j, k)
      ensures !Active(s.calls[j]) && s'.calls[j] == s.calls[j]
    {
      OthersRest(c, s, st, k, i, j);
    }
    OrderlyAlone(c, s, k, i);
    OrderlyAlone(c, s', k, i);
    NextSolo(c, s, st, k, i, base);
  }

  /** The call goes on, or it is done and has cost one request. */
  lemma ActiveCounts(c: Config, s: State, s': State, k: Slot, i: nat)
    requires SequenceInv(c, s, k) && Shape(c, s') && OnlyMoves(c, s.calls, s'.calls, k, i)
    requires Solo(c, s', k, i, FinishedOn(c, s.calls, k))
    ensures SequenceInv(c, s', k)
  {
    if s'.calls[i].Done? {
      OneMoreFinished(c, s.calls, s'.calls, k, i);
    } else {
      SameFinished(c, s.calls, s'.calls, k);
      assert ActiveOn(c, s'.calls, i, k);
    }
  }

  /** Calls that begin on a quiet slot are the only ones to move. */
  ghost predicate OnlyBegins(c: Config, calls: seq<CallPc>, calls': seq<CallPc>, k: Slot) {
    && |calls'| == |calls|
    && forall j :: 0 <= j < |calls| && OnSlot(c, j, k) ==>
         calls'[j] == calls[j] || (calls[j].Idle? && calls'[j] == AtGet(0))
  }

  lemma QuietMoves(c: Config, s: State, st: Step, k: Slot)
    requires Shape(c, s) && Enabled(c, s, st) && Quiet(c, s, k)
    ensures OnlyBegins(c, s.calls, Apply(c, s, st).calls, k)
  {
    CallEvolvesLength(c, s, st);
    forall j | 0 <= j < |s.calls| && OnSlot(c, j, k)
      ensures var pc, pc' := s.calls[j], Apply(c, s, st).calls[j]; pc' == pc || (pc.Idle? && pc' == AtGet(0))
    {
      assert !ActiveOn(c, s.calls, j, k);
      CallEvolves(c, s, st, j);
    }
  }

  lemma QuietCounts(c: Config, s: State, s': State, k: Slot)
    requires SequenceInv(c, s, k) && Quiet(c, s, k) && OnlyBegins(c, s.calls, s'.calls, k)
    requires Shape(c, s') && ChannelInv(c, s') && InFlightInv(c, s') && SoundInv(c, s') && Failing(c, s'.log, k)
    requires NoFlight(c, s', k) && CallsOn(c, s'.log, k) == CallsOn(c, s.log, k)
    ensures SequenceInv(c, s', k)
  {
    SameFinished(c, s.calls, s'.calls, k);
    forall i | ActiveOn(c, s'.calls, i, k) ensures Solo(c, s', k, i, FinishedOn(c, s'.calls, k)) {
      assert !ActiveOn(c, s.calls, i, k);
      StartsBefore(c, s', k, i);
    }
  }

  lemma CallEvolvesLength(c: Config, s: State, st: Step)
    requires Shape(c, s) && Enabled(c, s, st)
    ensures |Apply(c, s, st).calls| == |s.calls|
  {
    if |s.calls| > 0 { CallEvolves(c, s, st, 0); }
  }

  lemma NextSequence(c: Config, s: State, st: Step, k: Slot)
    requires Ready(c, s, st, k) && SequenceInv(c, s, k)
    ensures SequenceInv(c, Apply(c, s, st), k)
  {
    if i :| ActiveOn(c, s.calls, i, k) {
      ActiveMoves(c, s, st, k, i, FinishedOn(c, s.calls, k));
      ActiveCounts(c, s, Apply(c, s, st), k, i);
    } else {
      QuietStep(c, s, st, k);
      QuietMoves(c, s, st, k);
      QuietCounts(c, s, Apply(c, s, st), k);
    }
  }

  lemma InitSequence(c: Config, k: Slot)
    ensures SequenceInv(c, Init(c), k)
  {
    var s := Init(c);
    SameFinished(c, s.calls, s.calls, k);
    NoneFinished(c, s.calls, k);
  }

  lemma {:induction false} NoneFinished(c: Config, calls: seq<CallPc>, k: Slot)
    requires forall i :: 0 <= i < |calls| ==> !calls[i].Done?
    ensures FinishedOn(c, calls, k) == 0
    decreases |calls|
  {
    if calls != [] { NoneFinished(c, calls[..|calls| - 1], k); }
  }

  // ------------------------------------------------------------------------- the theorem

  ghost predicate OrderlyRun(c: Config, states: seq<State>, n: nat, k: Slot)
    requires n < |states|
  {
    forall x :: 0 <= x <= n ==> Orderly(c, states[x], k)
  }

  lemma IsReady(c: Config, states: seq<State>, steps: seq<Step>, n: nat, k: Slot)
    requires Behavior(c, states, steps) && n < |steps| && KeysMatch(c)
    requires Orderly(c, states[n], k) && Orderly(c, states[n + 1], k) && Failing(c, states[n + 1].log, k)
    ensures Ready(c, states[n], steps[n], k) && states[n + 1] == Apply(c, states[n], steps[n])
  {
    assert Next(c, states[n], steps[n], states[n + 1]);
    ReachableInv(c, states, steps, n);
    ReachableInv(c, states, steps, n + 1);
    ReachableSound(c, states, steps, n);
    ReachableSound(c, states, steps, n + 1);
    FailingBefore(c, states, steps, n, k);
  }

  lemma {:induction false} ReachableSequence(c: Config, states: seq<State>, steps: seq<Step>, n: nat, k: Slot)
    requires Behavior(c, states, steps) && n < |states| && KeysMatch(c)
    requires OrderlyRun(c, states, n, k) && Failing(c, states[n].log, k)
    ensures SequenceInv(c, states[n], k)
    decreases n
  {
    if n == 0 {
      InitSequence(c, k);
    } else {
      var p := n - 1;
      assert Orderly(c, states[p], k) && Orderly(c, states[p + 1], k);
      IsReady(c, states, steps, p, k);
      ReachableSequence(c, states, steps, p, k);
      NextSequence(c, states[p], steps[p], k);
    }
  }

  /** One backend request per call: if the calls on a failing slot never overlap and no
      `ClearCache` runs, all of them return a backend error, and the number of backend requests
      is the number of finished calls, plus at most one while a call is active. */
  lemma RequestsEqualCalls(c: Config, states: seq<State>, steps: seq<Step>, n: nat, k: Slot)
    requires Behavior(c, states, steps) && n < |states| && KeysMatch(c)
    requires OrderlyRun(c, states, n, k) && Failing(c, states[n].log, k)
    ensures forall i :: 0 <= i < |states[n].calls| && OnSlot(c, i, k) && states[n].calls[i].Done? ==>
      states[n].calls[i].outcome.Failed?
    ensures var f := FinishedOn(c, states[n].calls, k); var r := CallsOn(c, states[n].log, k);
      f <= r <= f + 1 && (Quiet(c, states[n], k) ==> r == f)
  {
    ReachableSequence(c, states, steps, n, k);
    var s := states[n];
    if i :| ActiveOn(c, s.calls, i, k) {
      assert Solo(c, s, k, i, FinishedOn(c, s.calls, k));
    }
  }
}
