/** A call that runs alone on a slot whose backend requests always fail: it returns the
    error of exactly one new backend request, even when an older error is still cached. */
module ProtocolSolo {
  import opened Base
  import opened SyncCacheModel
  import opened Protocol
  import opened ProtocolInvariant
  import opened ProtocolSoundness
  import opened ProtocolBudget

  /** Every backend answer on slot `k` so far is an error without data. */
  ghost predicate Failing(c: Config, log: seq<BackendCall>, k: Slot) {
    forall n :: 0 <= n < |log| && WorkerSlot(c, log[n].req) == k ==> Size(log[n].data) == 0 && log[n].err.Some?
  }

  ghost predicate NoFlight(c: Config, s: State, k: Slot) {
    forall w :: 0 <= w < |s.workers| ==> !InFlight(c, s.workers[w], k)
  }

  /** Call `i` overlaps no other call on `k`, no `ClearCache`, no timeout and no `Stop`. */
  ghost predicate Alone(c: Config, s: State, k: Slot, i: nat)
    requires Shape(c, s)
  {
    && i < |s.calls|
    && (forall j :: 0 <= j < |s.calls| && j != i && ClientSlot(c, c.reqs[j]) == k ==>
          s.calls[j].Idle? || (s.calls[j].Done? && s.calls[j].outcome != TimedOut))
    && s.calls[i] != Done(TimedOut) && s.calls[i] != Done(Panicked)
    && (forall j :: 0 <= j < |s.clears| ==> s.clears[j] == ClearIdle || s.clears[j] == ClearDone)
  }

  predicate Stale(look: Option<Entry>) {
    look.Some? && look.value.data.None? && look.value.err.Some? && look.value.locker == 0
  }

  predicate Answers(pc: WorkerPc, i: nat) {
    Owes(pc) && pc.item.call == i
  }

  /** Nothing asked yet; an older error may still be cached, but only in the first attempt. */
  ghost predicate Before(c: Config, s: State, k: Slot, i: nat, base: nat)
    requires Shape(c, s) && i < |s.calls|
  {
    var look := Lookup(s.cache, k);
    var pc := s.calls[i];
    && NoFlight(c, s, k) && CallsOn(c, s.log, k) == base
    && (pc.AtGet? || pc.AtEnqueue? || pc.Waiting? || pc.GotClose? || pc.AtDelete?)
    && (if look.None? then !pc.GotClose? && !pc.AtDelete? && !(pc.Waiting? && pc.chanClosed)
        else Stale(look) && pc.a == 0)
    && (forall w :: 0 <= w < |s.workers| && Answers(s.workers[w], i) ==>
          s.workers[w].WGot? || (s.workers[w].WClose? && Stale(look)))
  }

  /** The call's own request is in flight at worker `w`, and nobody else's on `k` is. */
  ghost predicate During(c: Config, s: State, k: Slot, i: nat, base: nat, w: nat)
    requires Shape(c, s) && i < |s.calls|
  {
    && 1 <= w < |s.workers| && Lookup(s.cache, k) == Some(Entry(None, None, w))
    && InFlight(c, s.workers[w], k) && s.workers[w].item.call == i
    && (forall v :: 0 <= v < |s.workers| && InFlight(c, s.workers[v], k) ==> v == w)
    && CallsOn(c, s.log, k) == base + (if s.workers[w].WSet? then 1 else 0)
    && (if s.workers[w].WSend?
        then s.workers[w].t == w && s.calls[i] == Waiting(s.workers[w].item.attempt, false)
        else HasTicket(s.calls[i]) && !s.calls[i].AtUnlock? && s.calls[i].t == w)
  }

  /** The one request has failed and its error is what the call reads. */
  ghost predicate After(c: Config, s: State, k: Slot, i: nat, base: nat)
    requires Shape(c, s) && i < |s.calls|
  {
    var pc := s.calls[i];
    && Stale(Lookup(s.cache, k)) && NoFlight(c, s, k) && CallsOn(c, s.log, k) == base + 1
    && (HasTicket(pc) || pc.Done?)
    && (pc.AtUnlock? ==> Stale(pc.got))
    && (pc.Done? ==> pc.outcome.Failed?)
  }

  ghost predicate Solo(c: Config, s: State, k: Slot, i: nat, base: nat)
    requires Shape(c, s) && i < |s.calls|
  {
    || Before(c, s, k, i, base)
    || (k in s.cache && During(c, s, k, i, base, s.cache[k].locker))
    || After(c, s, k, i, base)
  }

  // ------------------------------------------------------------ steps that do not matter

  lemma SoloFrame(c: Config, s: State, s': State, k: Slot, i: nat, base: nat)
    requires Shape(c, s) && Shape(c, s') && i < |s.calls| && Solo(c, s, k, i, base)
    requires s'.calls[i] == s.calls[i] && Lookup(s'.cache, k) == Lookup(s.cache, k)
    requires CallsOn(c, s'.log, k) == CallsOn(c, s.log, k)
    requires forall w :: 0 <= w < |s.workers| ==>
      || s'.workers[w] == s.workers[w]
      || (&& !InFlight(c, s.workers[w], k) && !Answers(s.workers[w], i)
          && !InFlight(c, s'.workers[w], k) && !Answers(s'.workers[w], i))
    ensures Solo(c, s', k, i, base)
  {
  }

  lemma OtherCallSolo(c: Config, s: State, st: Step, k: Slot, i: nat, base: nat)
    requires Shape(c, s) && Alone(c, s, k, i) && Solo(c, s, k, i, base) && Enabled(c, s, st)
    requires Shape(c, Apply(c, s, st)) && Alone(c, Apply(c, s, st), k, i)
    requires !st.WorkerStep? && !st.Answer? && st != CallStep(i)
    ensures Solo(c, Apply(c, s, st), k, i, base)
  {
    OtherCallFrame(c, s, st, k, i);
    SoloFrame(c, s, Apply(c, s, st), k, i, base);
  }

  lemma OtherCallFrame(c: Config, s: State, st: Step, k: Slot, i: nat)
    requires Shape(c, s) && Alone(c, s, k, i) && Enabled(c, s, st)
    requires Shape(c, Apply(c, s, st)) && Alone(c, Apply(c, s, st), k, i)
    requires !st.WorkerStep? && !st.Answer? && st != CallStep(i) && st != Begin(i)
    ensures var s' := Apply(c, s, st);
      && s'.workers == s.workers && s'.log == s.log && Lookup(s'.cache, k) == Lookup(s.cache, k)
      && s'.calls[i] == s.calls[i]
  {
    if st.CallStep? { OwnCallEvolves(c, s, st.i); }
  }

  // ------------------------------------------------------------------ the call's own steps

  lemma OwnStepBefore(c: Config, s: State, i: nat, k: Slot, base: nat)
    requires Shape(c, s) && i < |s.calls| && CallEnabled(s, s.calls[i]) && ClientSlot(c, c.reqs[i]) == k
    requires Before(c, s, k, i, base) && ChannelInv(c, s)
    requires Shape(c, ApplyCall(c, s, i)) && ApplyCall(c, s, i).calls[i] != Done(Panicked)
    ensures Before(c, ApplyCall(c, s, i), k, i, base)
  {
    var s' := ApplyCall(c, s, i);
    assert s'.workers == s.workers && s'.log == s.log;
    if s.calls[i].AtDelete? {
      assert forall w :: 0 <= w < |s.workers| && Answers(s.workers[w], i) ==> Awaited(s, s.workers[w].item);
    }
  }

  lemma OwnStepLater(c: Config, s: State, i: nat, k: Slot, base: nat)
    requires Shape(c, s) && i < |s.calls| && CallEnabled(s, s.calls[i]) && ClientSlot(c, c.reqs[i]) == k
    requires !Before(c, s, k, i, base) && Solo(c, s, k, i, base)
    requires Shape(c, ApplyCall(c, s, i))
    ensures Solo(c, ApplyCall(c, s, i), k, i, base)
  {
    var s' := ApplyCall(c, s, i);
    assert s'.workers == s.workers && s'.log == s.log && s'.cache == s.cache;
  }

  // ----------------------------------------------------------------------- worker steps

  lemma ReceiveSolo(c: Config, s: State, w: nat, k: Slot, i: nat, base: nat)
    requires Shape(c, s) && Alone(c, s, k, i) && Solo(c, s, k, i, base) && ChannelInv(c, s)
    requires 1 <= w < |s.workers| && s.workers[w] == WIdle && WorkerEnabled(s, w, WIdle)
    requires Shape(c, ApplyWorker(c, s, w))
    ensures Solo(c, ApplyWorker(c, s, w), k, i, base)
  {
    var s' := ApplyWorker(c, s, w);
    assert s'.workers == s.workers[w := s'.workers[w]] && s'.cache == s.cache && s'.calls == s.calls && s'.log == s.log;
    if |s.queue| > 0 && s.queue[0].call == i {
      assert Awaited(s, s.queue[0]);
      assert forall v :: 0 <= v < |s.workers| && Owes(s.workers[v]) ==> s.queue[0].call != s.workers[v].item.call;
      assert Before(c, s', k, i, base);
    } else {
      SoloFrame(c, s, s', k, i, base);
    }
  }

  /** The slot of another call's item is not `k`. */
  lemma OtherItem(c: Config, s: State, w: nat, k: Slot, i: nat)
    requires Shape(c, s) && Alone(c, s, k, i) && ChannelInv(c, s) && KeysMatch(c)
    requires w < |s.workers| && Owes(s.workers[w]) && s.workers[w].item.call != i
    ensures WorkerSlot(c, c.reqs[s.workers[w].item.call]) != k
  {
    assert Awaited(s, s.workers[w].item);
  }

  lemma LookupSolo(c: Config, s: State, w: nat, k: Slot, i: nat, base: nat)
    requires Shape(c, s) && Alone(c, s, k, i) && Solo(c, s, k, i, base) && ChannelInv(c, s) && KeysMatch(c)
    requires 1 <= w < |s.workers| && s.workers[w].WGot? && Shape(c, ApplyWorker(c, s, w))
    requires ClientSlot(c, c.reqs[i]) == k
    ensures Solo(c, ApplyWorker(c, s, w), k, i, base)
  {
    var s' := ApplyWorker(c, s, w);
    assert s'.workers == s.workers[w := s'.workers[w]] && s'.calls == s.calls && s'.log == s.log;
    if s.workers[w].item.call != i {
      OtherItem(c, s, w, k, i);
      SoloFrame(c, s, s', k, i, base);
    } else {
      OwnLookupSolo(c, s, w, k, i, base);
    }
  }

  lemma OwnLookupSolo(c: Config, s: State, w: nat, k: Slot, i: nat, base: nat)
    requires Shape(c, s) && i < |s.calls| && Solo(c, s, k, i, base) && ChannelInv(c, s) && KeysMatch(c)
    requires 1 <= w < |s.workers| && s.workers[w].WGot? && Shape(c, ApplyWorker(c, s, w))
    requires s.calls[i] != Done(TimedOut)
    requires ClientSlot(c, c.reqs[i]) == k && s.workers[w].item.call == i
    ensures Solo(c, ApplyWorker(c, s, w), k, i, base)
  {
    var s' := ApplyWorker(c, s, w);
    assert s'.workers == s.workers[w := s'.workers[w]] && s'.calls == s.calls && s'.log == s.log;
    assert Awaited(s, s.workers[w].item);
    assert WorkerSlot(c, c.reqs[i]) == k;
    assert Before(c, s, k, i, base);
    if k in s.cache { assert Before(c, s', k, i, base); } else { assert During(c, s', k, i, base, w); }
  }

  lemma AnswerSolo(c: Config, s: State, w: nat, k: Slot, i: nat, base: nat)
    requires Shape(c, s) && Alone(c, s, k, i) && Solo(c, s, k, i, base) && ChannelInv(c, s) && KeysMatch(c)
    requires 1 <= w < |s.workers| && (s.workers[w].WSend? || s.workers[w].WClose?)
    requires WorkerEnabled(s, w, s.workers[w]) && Shape(c, ApplyWorker(c, s, w))
    ensures Solo(c, ApplyWorker(c, s, w), k, i, base)
  {
    if s.workers[w].item.call != i {
      OtherItem(c, s, w, k, i);
      SoloFrame(c, s, ApplyWorker(c, s, w), k, i, base);
    } else {
      OwnAnswerSolo(c, s, w, k, i, base);
    }
  }

  lemma OwnAnswerSolo(c: Config, s: State, w: nat, k: Slot, i: nat, base: nat)
    requires Shape(c, s) && i < |s.calls| && Solo(c, s, k, i, base) && ChannelInv(c, s)
    requires 1 <= w < |s.workers| && (s.workers[w].WSend? || s.workers[w].WClose?) && s.workers[w].item.call == i
    requires WorkerEnabled(s, w, s.workers[w]) && Shape(c, ApplyWorker(c, s, w)) && s.calls[i] != Done(TimedOut)
    ensures Solo(c, ApplyWorker(c, s, w), k, i, base)
  {
    var s' := ApplyWorker(c, s, w);
    assert s'.workers == s.workers[w := s'.workers[w]] && s'.cache == s.cache && s'.log == s.log;
    assert Awaited(s, s.workers[w].item);
    if s.workers[w].WSend? {
      assert During(c, s', k, i, base, w);
    } else {
      assert Before(c, s', k, i, base);
    }
  }

  /** Locking and publishing by the worker in flight on `k`, or by a worker elsewhere. */
  lemma FlightSolo(c: Config, s: State, w: nat, k: Slot, i: nat, base: nat)
    requires Shape(c, s) && i < |s.calls| && Solo(c, s, k, i, base)
    requires 1 <= w < |s.workers| && (s.workers[w].WLock? || s.workers[w].WSet?)
    requires WorkerEnabled(s, w, s.workers[w]) && Shape(c, ApplyWorker(c, s, w))
    requires s.workers[w].WSet? && InFlight(c, s.workers[w], k) ==> Stale(Some(s.workers[w].entry))
    ensures Solo(c, ApplyWorker(c, s, w), k, i, base)
  {
    var s' := ApplyWorker(c, s, w);
    assert s'.workers == s.workers[w := s'.workers[w]] && s'.calls == s.calls && s'.log == s.log;
    if !InFlight(c, s.workers[w], k) {
      SoloFrame(c, s, s', k, i, base);
    } else if s.workers[w].WLock? {
      assert During(c, s', k, i, base, w);
    } else {
      assert After(c, s', k, i, base);
    }
  }

  lemma BroadcastSolo(c: Config, s: State, w: nat, k: Slot, i: nat, base: nat)
    requires Shape(c, s) && i < |s.calls| && Solo(c, s, k, i, base)
    requires 1 <= w < |s.workers| && (s.workers[w].WBroadcast? || s.workers[w].WUnlock?)
    requires Shape(c, ApplyWorker(c, s, w))
    ensures Solo(c, ApplyWorker(c, s, w), k, i, base)
  {
    var s' := ApplyWorker(c, s, w);
    assert s'.workers == s.workers[w := s'.workers[w]] && s'.cache == s.cache && s'.log == s.log;
    if s'.calls[i] == s.calls[i] {
      SoloFrame(c, s, s', k, i, base);
    } else {
      assert After(c, s', k, i, base);
    }
  }

  lemma ErrorSolo(c: Config, s: State, st: Step, k: Slot, i: nat, base: nat)
    requires Shape(c, s) && i < |s.calls| && Solo(c, s, k, i, base)
    requires Enabled(c, s, st) && st.Answer? && Shape(c, Apply(c, s, st))
    ensures Solo(c, Apply(c, s, st), k, i, base)
  {
    var s' := Apply(c, s, st);
    assert s'.workers == s.workers[st.w := s'.workers[st.w]] && s'.cache == s.cache && s'.calls == s.calls;
    CallsOnSnoc(c, s.log, s'.log[|s.log|], k);
    if InFlight(c, s.workers[st.w], k) {
      OwnErrorSolo(c, s, s', st.w, k, i, base);
    } else {
      SoloFrame(c, s, s', k, i, base);
    }
  }

  /** The backend answers the worker in flight on `k`. */
  lemma OwnErrorSolo(c: Config, s: State, s': State, w: nat, k: Slot, i: nat, base: nat)
    requires Shape(c, s) && i < |s.calls| && Solo(c, s, k, i, base) && Shape(c, s')
    requires 1 <= w < |s.workers| && s.workers[w].WRequest? && InFlight(c, s.workers[w], k)
    requires s'.workers == s.workers[w := s'.workers[w]] && s'.workers[w].WSet?
    requires s'.workers[w].item == s.workers[w].item
    requires s'.cache == s.cache && s'.calls == s.calls && CallsOn(c, s'.log, k) == CallsOn(c, s.log, k) + 1
    ensures Solo(c, s', k, i, base)
  {
    assert During(c, s', k, i, base, w);
  }

  lemma FailingSlotEntry(c: Config, s: State, w: nat, k: Slot)
    requires Shape(c, s) && SoundInv(c, s) && Failing(c, s.log, k) && w < |s.workers|
    ensures s.workers[w].WSet? && InFlight(c, s.workers[w], k) ==> Stale(Some(s.workers[w].entry))
  {
    assert WorkerSound(c, s.log, s.workers[w]);
  }

  lemma NextSolo(c: Config, s: State, st: Step, k: Slot, i: nat, base: nat)
    requires Shape(c, s) && ChannelInv(c, s) && SoundInv(c, s) && KeysMatch(c) && Failing(c, s.log, k)
    requires Alone(c, s, k, i) && Solo(c, s, k, i, base) && ClientSlot(c, c.reqs[i]) == k
    requires Enabled(c, s, st) && Shape(c, Apply(c, s, st)) && Alone(c, Apply(c, s, st), k, i)
    ensures Solo(c, Apply(c, s, st), k, i, base)
  {
    if st == CallStep(i) {
      if Before(c, s, k, i, base) { OwnStepBefore(c, s, i, k, base); } else { OwnStepLater(c, s, i, k, base); }
    } else if st.Answer? {
      ErrorSolo(c, s, st, k, i, base);
    } else if st.WorkerStep? {
      WorkerSolo(c, s, st.w, k, i, base);
    } else {
      OtherCallSolo(c, s, st, k, i, base);
    }
  }

  lemma WorkerSolo(c: Config, s: State, w: nat, k: Slot, i: nat, base: nat)
    requires Shape(c, s) && ChannelInv(c, s) && SoundInv(c, s) && KeysMatch(c) && Failing(c, s.log, k)
    requires Alone(c, s, k, i) && Solo(c, s, k, i, base) && ClientSlot(c, c.reqs[i]) == k
    requires 1 <= w < |s.workers| && WorkerEnabled(s, w, s.workers[w]) && Shape(c, ApplyWorker(c, s, w))
    ensures Solo(c, ApplyWorker(c, s, w), k, i, base)
  {
    var pc := s.workers[w];
    if pc.WIdle? {
      ReceiveSolo(c, s, w, k, i, base);
    } else if pc.WGot? {
      LookupSolo(c, s, w, k, i, base);
    } else if pc.WSend? || pc.WClose? {
      AnswerSolo(c, s, w, k, i, base);
    } else if pc.WLock? || pc.WSet? {
      FailingSlotEntry(c, s, w, k);
      FlightSolo(c, s, w, k, i, base);
    } else {
      BroadcastSolo(c, s, w, k, i, base);
    }
  }

  // ------------------------------------------------------------------------- the theorem

  /** Call `i` has just begun and no worker is in flight on `k`. */
  ghost predicate StartsQuietly(c: Config, s: State, k: Slot, i: nat) {
    i < |s.calls| && s.calls[i] == AtGet(0) && NoFlight(c, s, k)
  }

  ghost predicate AloneAt(c: Config, s: State, k: Slot, i: nat) {
    Shape(c, s) && Alone(c, s, k, i)
  }

  ghost predicate RunsAlone(c: Config, states: seq<State>, m: nat, n: nat, k: Slot, i: nat)
    requires n < |states|
  {
    forall x :: m <= x <= n ==> AloneAt(c, states[x], k, i)
  }

  lemma StartsBefore(c: Config, s: State, k: Slot, i: nat)
    requires Shape(c, s) && ChannelInv(c, s) && SoundInv(c, s) && InFlightInv(c, s) && Failing(c, s.log, k)
    requires i < |s.calls| && s.calls[i] == AtGet(0) && NoFlight(c, s, k)
    ensures Before(c, s, k, i, CallsOn(c, s.log, k))
  {
    assert k in s.cache ==> EntrySound(c, s.log, k, s.cache[k]);
    assert forall w :: 0 <= w < |s.workers| && Answers(s.workers[w], i) ==> Awaited(s, s.workers[w].item);
  }

  lemma FailingGrows(c: Config, s: State, st: Step, k: Slot)
    requires Shape(c, s) && Enabled(c, s, st) && Failing(c, Apply(c, s, st).log, k)
    ensures Failing(c, s.log, k)
  {
    var log' := Apply(c, s, st).log;
    assert forall n :: 0 <= n < |s.log| ==> log'[n] == s.log[n];
  }

  ghost predicate SoloAt(c: Config, s: State, k: Slot, i: nat, base: nat) {
    Shape(c, s) && i < |s.calls| && Solo(c, s, k, i, base)
  }

  lemma SoloStep(c: Config, states: seq<State>, steps: seq<Step>, n: nat, i: nat, k: Slot, base: nat)
    requires Behavior(c, states, steps) && n < |steps| && KeysMatch(c) && i < |c.reqs| && ClientSlot(c, c.reqs[i]) == k
    requires SoloAt(c, states[n], k, i, base) && Failing(c, states[n].log, k)
    requires AloneAt(c, states[n], k, i) && AloneAt(c, states[n + 1], k, i)
    ensures SoloAt(c, states[n + 1], k, i, base)
  {
    var s := states[n];
    assert Next(c, s, steps[n], states[n + 1]);
    assert ChannelInv(c, s) by { ReachableInv(c, states, steps, n); }
    assert SoundInv(c, s) by { ReachableSound(c, states, steps, n); }
    NextSolo(c, s, steps[n], k, i, base);
  }

  lemma FailingBefore(c: Config, states: seq<State>, steps: seq<Step>, n: nat, k: Slot)
    requires Behavior(c, states, steps) && n < |steps| && Failing(c, states[n + 1].log, k)
    ensures Failing(c, states[n].log, k)
  {
    assert Next(c, states[n], steps[n], states[n + 1]);
    FailingGrows(c, states[n], steps[n], k);
  }

  lemma SoloStart(c: Config, states: seq<State>, steps: seq<Step>, n: nat, i: nat, k: Slot)
    requires Behavior(c, states, steps) && n < |states| && StartsQuietly(c, states[n], k, i)
    requires AloneAt(c, states[n], k, i) && Failing(c, states[n].log, k)
    ensures SoloAt(c, states[n], k, i, CallsOn(c, states[n].log, k))
  {
    ReachableInv(c, states, steps, n);
    ReachableSound(c, states, steps, n);
    StartsBefore(c, states[n], k, i);
  }

  lemma {:induction false} SoloRun(c: Config, states: seq<State>, steps: seq<Step>, m: nat, n: nat, i: nat, k: Slot)
    requires Behavior(c, states, steps) && m <= n < |states| && KeysMatch(c) && i < |c.reqs|
    requires ClientSlot(c, c.reqs[i]) == k
    requires StartsQuietly(c, states[m], k, i) && RunsAlone(c, states, m, n, k, i)
    requires Failing(c, states[n].log, k)
    ensures SoloAt(c, states[n], k, i, CallsOn(c, states[m].log, k))
    decreases n
  {
    if m == n {
      SoloStart(c, states, steps, n, i, k);
    } else {
      var p := n - 1;
      assert AloneAt(c, states[p], k, i) && AloneAt(c, states[p + 1], k, i);
      FailingBefore(c, states, steps, p, k);
      SoloRun(c, states, steps, m, p, i, k);
      SoloStep(c, states, steps, p, i, k, CallsOn(c, states[m].log, k));
    }
  }

  /** One backend request per failing call: a call that starts at state `m` with nothing in
      flight on its slot, and runs alone on it until it is done at state `n`, returns a
      backend error, has caused exactly one backend request, and leaves nothing in flight,
      so the next call starts the same way. */
  lemma OneRequestPerFailingCall(c: Config, states: seq<State>, steps: seq<Step>, m: nat, n: nat, i: nat, k: Slot)
    requires Behavior(c, states, steps) && m <= n < |states| && KeysMatch(c) && i < |c.reqs|
    requires ClientSlot(c, c.reqs[i]) == k
    requires StartsQuietly(c, states[m], k, i) && RunsAlone(c, states, m, n, k, i)
    requires Failing(c, states[n].log, k) && i < |states[n].calls| && states[n].calls[i].Done?
    ensures states[n].calls[i].outcome.Failed?
    ensures CallsOn(c, states[n].log, k) == CallsOn(c, states[m].log, k) + 1
    ensures NoFlight(c, states[n], k)
  {
    SoloRun(c, states, steps, m, n, i, k);
  }
}
