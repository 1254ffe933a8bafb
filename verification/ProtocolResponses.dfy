/** Responses: every queued item is answered exactly once, by a ticket or by closing its
    channel. */
module ProtocolResponses {
  import opened Base
  import opened SyncCacheModel
  import opened Protocol
  import opened ProtocolInvariant
  import opened ProtocolBudget
  import opened ProtocolProgress

  /** The step answers item `it`: a worker sends it a ticket or closes its channel. */
  predicate Responds(s: State, st: Step, it: Item) {
    && st.WorkerStep? && st.w < |s.workers|
    && (s.workers[st.w].WSend? || s.workers[st.w].WClose?) && s.workers[st.w].item == it
  }

  // --------------------------------------------------------------------- at most one

  /** The call is past waiting for the response to its attempt `a`. */
  predicate Past(pc: CallPc, a: nat) {
    pc.Done? || (Active(pc) && (pc.a > a || (pc.a == a && !pc.AtGet? && !pc.AtEnqueue? && pc != Waiting(a, false))))
  }

  ghost predicate NotOwed(s: State, it: Item) {
    it !in s.queue && forall w :: 0 <= w < |s.workers| && Owes(s.workers[w]) ==> s.workers[w].item != it
  }

  /** Item `it` has been answered. */
  ghost predicate Settled(s: State, it: Item) {
    it.call < |s.calls| && Past(s.calls[it.call], it.attempt) && NotOwed(s, it)
  }

  lemma OwnPastStays(c: Config, s: State, i: nat, a: nat)
    requires Shape(c, s) && i < |s.calls| && CallEnabled(s, s.calls[i]) && Past(s.calls[i], a)
    ensures Past(ApplyCall(c, s, i).calls[i], a)
  {
  }

  lemma PastStays(c: Config, s: State, st: Step, i: nat, a: nat)
    requires Shape(c, s) && Enabled(c, s, st) && i < |s.calls| && Past(s.calls[i], a)
    ensures i < |Apply(c, s, st).calls| && Past(Apply(c, s, st).calls[i], a)
  {
    CallEvolves(c, s, st, i);
    if st == CallStep(i) {
      OwnPastStays(c, s, i, a);
    } else if st.CallStep? {
      OwnCallEvolves(c, s, st.i);
    }
  }

  /** Only a call that is about to wait puts an item into the queue. */
  lemma NotOwedStays(c: Config, s: State, st: Step, it: Item)
    requires Shape(c, s) && Enabled(c, s, st) && Settled(s, it)
    ensures NotOwed(Apply(c, s, st), it)
  {
    if st.WorkerStep? {
      WorkerNotOwed(c, s, st.w, it);
    } else if st.CallStep? {
      var s' := ApplyCall(c, s, st.i);
      assert s'.workers == s.workers;
      assert s'.queue == s.queue || (s.calls[st.i].AtEnqueue? && s'.queue == s.queue + [Item(st.i, s.calls[st.i].a)]);
    }
  }

  lemma WorkerNotOwed(c: Config, s: State, w: nat, it: Item)
    requires Shape(c, s) && 1 <= w < |s.workers| && WorkerEnabled(s, w, s.workers[w]) && NotOwed(s, it)
    ensures NotOwed(ApplyWorker(c, s, w), it)
  {
    if s.workers[w].WIdle? && |s.queue| > 0 { assert s.queue[0] in s.queue; }
  }

  lemma SettledStays(c: Config, s: State, st: Step, it: Item)
    requires Shape(c, s) && Enabled(c, s, st) && Settled(s, it)
    ensures Settled(Apply(c, s, st), it) && !Responds(s, st, it)
  {
    PastStays(c, s, st, it.call, it.attempt);
    NotOwedStays(c, s, st, it);
  }

  /** A response settles its item. */
  lemma ResponseSettles(c: Config, s: State, st: Step, it: Item)
    requires Shape(c, s) && ChannelInv(c, s) && Enabled(c, s, st) && Responds(s, st, it)
    ensures Settled(Apply(c, s, st), it)
  {
    var w, s' := st.w, ApplyWorker(c, s, st.w);
    assert Awaited(s, it);
    AnswerStep(c, s, w);
    forall p | 0 <= p < |s.queue| ensures s.queue[p] != it {
      assert s.queue[p].call != s.workers[w].item.call;
    }
    forall v | 0 <= v < |s'.workers| && Owes(s'.workers[v]) ensures s'.workers[v].item != it {
      assert s'.workers[v] == s.workers[v] && s.workers[v].item.call != s.workers[w].item.call;
    }
  }

  /** Once answered, never answered again: not in any later state of any run. */
  lemma {:induction false} SettledForever(c: Config, states: seq<State>, steps: seq<Step>, n: nat, m: nat, it: Item)
    requires Behavior(c, states, steps) && n < |steps| && Responds(states[n], steps[n], it) && n < m < |states|
    ensures Settled(states[m], it)
    decreases m
  {
    var p := m - 1;
    assert Next(c, states[p], steps[p], states[p + 1]);
    if p == n {
      assert ChannelInv(c, states[n]) by { ReachableInv(c, states, steps, n); }
      ResponseSettles(c, states[n], steps[n], it);
    } else {
      SettledForever(c, states, steps, n, p, it);
      SettledStays(c, states[p], steps[p], it);
    }
  }

  /** No item is answered twice, in any run at all. */
  lemma AtMostOneResponse(c: Config, states: seq<State>, steps: seq<Step>, n: nat, m: nat, it: Item)
    requires Behavior(c, states, steps) && n < |steps| && m < |steps|
    requires Responds(states[n], steps[n], it) && Responds(states[m], steps[m], it)
    ensures n == m
  {
    if n < m {
      SettledForever(c, states, steps, n, m, it);
    } else if m < n {
      SettledForever(c, states, steps, m, n, it);
    }
  }

  // -------------------------------------------------------------------- at least one

  /** An item stays queued or owed until it is answered. */
  lemma PendingStays(c: Config, s: State, st: Step, it: Item)
    requires Shape(c, s) && Enabled(c, s, st) && Pending(s, it) && !Responds(s, st, it)
    ensures Pending(Apply(c, s, st), it)
  {
    if st.WorkerStep? {
      WorkerPendingStays(c, s, st.w, it);
    } else {
      var s' := Apply(c, s, st);
      if it in s.queue {
        assert it in s'.queue;
      } else {
        var v :| 0 <= v < |s.workers| && Owes(s.workers[v]) && s.workers[v].item == it;
        OthersStay(c, s, st, v);
        assert Owes(s'.workers[v]);
      }
    }
  }

  lemma WorkerPendingStays(c: Config, s: State, w: nat, it: Item)
    requires Shape(c, s) && 1 <= w < |s.workers| && WorkerEnabled(s, w, s.workers[w])
    requires Pending(s, it) && !Responds(s, WorkerStep(w), it)
    ensures Pending(ApplyWorker(c, s, w), it)
  {
    var s' := ApplyWorker(c, s, w);
    if it in s.queue {
      if s.workers[w].WIdle? && s.queue[0] == it { assert Owes(s'.workers[w]); }
    } else {
      var v :| 0 <= v < |s.workers| && Owes(s.workers[v]) && s.workers[v].item == it;
      assert Owes(s'.workers[v]) && s'.workers[v].item == it;
    }
  }

  /** An item that is pending now and not at the end has been answered in between. */
  lemma {:induction false} AnsweredBetween(c: Config, states: seq<State>, steps: seq<Step>, m: nat, e: nat,
      it: Item) returns (n: nat)
    requires Behavior(c, states, steps) && m <= e < |states| && Pending(states[m], it) && !Pending(states[e], it)
    ensures m <= n < e && Responds(states[n], steps[n], it)
    decreases e - m
  {
    assert Next(c, states[m], steps[m], states[m + 1]);
    if Responds(states[m], steps[m], it) {
      n := m;
    } else {
      PendingStays(c, states[m], steps[m], it);
      n := AnsweredBetween(c, states, steps, m + 1, e, it);
    }
  }

  /** In any run, an item that was queued has been answered if and only if it is not pending at
      the end. */
  lemma AnsweredExactly(c: Config, states: seq<State>, steps: seq<Step>, m: nat, it: Item)
    requires Behavior(c, states, steps) && m < |states| && it in states[m].queue
    ensures (exists n :: m <= n < |steps| && Responds(states[n], steps[n], it)) <==> !Pending(states[|steps|], it)
  {
    if Pending(states[|steps|], it) {
      forall n | m <= n < |steps| ensures !Responds(states[n], steps[n], it) {
        if Responds(states[n], steps[n], it) { SettledForever(c, states, steps, n, |steps|, it); }
      }
    } else {
      var n := AnsweredBetween(c, states, steps, m, |steps|, it);
    }
  }

  /** Nothing is pending when nothing can move and no worker is blocked. */
  lemma NothingPending(c: Config, states: seq<State>, steps: seq<Step>, n: nat, it: Item)
    requires Behavior(c, states, steps) && n < |states| && c.numWorkers >= 1
    requires Undisturbed(states[n]) && Stuck(c, states[n])
    ensures !Pending(states[n], it)
  {
    var s := states[n];
    forall w | 1 <= w < |s.workers| ensures s.queue == [] && !Owes(s.workers[w]) {
      StuckWorker(c, states, steps, n, w);
      assert !Blocked(s, w);
    }
    assert !Owes(s.workers[1]);
  }

  /** Exactly one response: in a run that has come to its end undisturbed, every item that was
      ever queued is answered once, at some step after it was seen in the queue, and at no other
      step of the run. That includes items of calls that have timed out. */
  lemma ExactlyOneResponse(c: Config, states: seq<State>, steps: seq<Step>, m: nat, it: Item) returns (n: nat)
    requires Behavior(c, states, steps) && m < |states| && it in states[m].queue && c.numWorkers >= 1
    requires Undisturbed(states[|steps|]) && Stuck(c, states[|steps|])
    ensures m <= n < |steps| && Responds(states[n], steps[n], it)
    ensures forall x :: 0 <= x < |steps| && Responds(states[x], steps[x], it) ==> x == n
  {
    NothingPending(c, states, steps, |steps|, it);
    n := AnsweredBetween(c, states, steps, m, |steps|, it);
    forall x | 0 <= x < |steps| && Responds(states[x], steps[x], it) ensures x == n {
      AtMostOneResponse(c, states, steps, n, x, it);
    }
  }
}
