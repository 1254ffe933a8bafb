/** What every reachable state of the protocol keeps: lock ownership, one response
    per queued item, in-flight entries, and the absence of lost wakeups. */
module ProtocolInvariant {
  import opened Base
  import opened SyncCacheModel
  import opened Protocol

  predicate HoldsTicket(pc: CallPc) {
    pc.AtLoopGet? || pc.AtWait? || pc.AtUnlock?
  }

  predicate HoldsOwnTicket(pc: WorkerPc) {
    pc.WRequest? || pc.WSet? || pc.WBroadcast? || pc.WUnlock?
  }

  /** A worker that still owes its item's response channel a ticket or a close. */
  predicate Owes(pc: WorkerPc) {
    pc.WGot? || pc.WSend? || pc.WClose?
  }

  /** A worker that inserted the entry for `k` and has not written the answer yet. */
  predicate InFlight(c: Config, pc: WorkerPc, k: Slot) {
    && ((pc.WSend? && pc.own) || pc.WLock? || pc.WRequest? || pc.WSet?)
    && pc.item.call < |c.reqs|
    && WorkerSlot(c, c.reqs[pc.item.call]) == k
  }

  predicate BeforeBroadcast(c: Config, pc: WorkerPc, k: Slot) {
    || InFlight(c, pc, k)
    || (pc.WBroadcast? && pc.item.call < |c.reqs| && WorkerSlot(c, c.reqs[pc.item.call]) == k)
  }

  /** Each ticket lock is held by exactly the call or worker inside its critical section. */
  ghost predicate LocksInv(c: Config, s: State)
    requires Shape(c, s)
  {
    && (forall t :: 0 <= t < |s.locks| && s.locks[t].ByCall? ==>
          && s.locks[t].i < |s.calls|
          && HoldsTicket(s.calls[s.locks[t].i]) && s.calls[s.locks[t].i].t == t)
    && (forall t :: 0 <= t < |s.locks| && s.locks[t].ByWorker? ==> HoldsOwnTicket(s.workers[t]))
    && (forall i :: 0 <= i < |s.calls| && HoldsTicket(s.calls[i]) ==> s.locks[s.calls[i].t] == ByCall(i))
    && (forall w :: 0 <= w < |s.workers| && HoldsOwnTicket(s.workers[w]) ==> s.locks[w] == ByWorker)
  }

  predicate Awaited(s: State, it: Item) {
    && it.call < |s.calls|
    && (s.calls[it.call] == Waiting(it.attempt, false) || s.calls[it.call] == Done(TimedOut))
  }

  ghost predicate Pending(s: State, it: Item) {
    it in s.queue || exists w :: 0 <= w < |s.workers| && Owes(s.workers[w]) && s.workers[w].item == it
  }

  /** Queued and owed items are awaited by their own call. */
  ghost predicate ItemsAwaited(s: State) {
    && (forall p :: 0 <= p < |s.queue| ==> Awaited(s, s.queue[p]))
    && (forall w :: 0 <= w < |s.workers| && Owes(s.workers[w]) ==> Awaited(s, s.workers[w].item))
  }

  /** No call has two queued or owed items. */
  ghost predicate OneItemPerCall(s: State) {
    && (forall p, q :: 0 <= p < q < |s.queue| ==> s.queue[p].call != s.queue[q].call)
    && (forall p, w :: 0 <= p < |s.queue| && 0 <= w < |s.workers| && Owes(s.workers[w]) ==>
          s.queue[p].call != s.workers[w].item.call)
    && (forall v, w :: 0 <= v < w < |s.workers| && Owes(s.workers[v]) && Owes(s.workers[w]) ==>
          s.workers[v].item.call != s.workers[w].item.call)
  }

  /** A call that waits has an item that is queued or owed. */
  ghost predicate WaitersPending(s: State) {
    forall i :: 0 <= i < |s.calls| && s.calls[i].Waiting? && !s.calls[i].chanClosed ==>
      Pending(s, Item(i, s.calls[i].a))
  }

  ghost predicate ChannelInv(c: Config, s: State)
    requires Shape(c, s)
  {
    ItemsAwaited(s) && OneItemPerCall(s) && WaitersPending(s)
  }

  /** An entry with locker `w != 0` has neither data nor error, and worker `w` is in
      flight on exactly that slot. */
  ghost predicate InFlightInv(c: Config, s: State)
    requires Shape(c, s)
  {
    forall k :: k in s.cache && s.cache[k].locker != 0 ==>
      !Available(s.cache[k]) && InFlight(c, s.workers[s.cache[k].locker], k)
  }

  /** No lost wakeup: a parked call's worker has yet to broadcast, and it works on the
      slot the call waits for. */
  ghost predicate ParkInv(c: Config, s: State)
    requires Shape(c, s)
  {
    && (forall i :: 0 <= i < |s.calls| && s.calls[i].Parked? ==>
          BeforeBroadcast(c, s.workers[s.calls[i].t], ClientSlot(c, c.reqs[i])))
    && (forall i :: 0 <= i < |s.calls| && s.calls[i].AtWait? ==>
          InFlight(c, s.workers[s.calls[i].t], ClientSlot(c, c.reqs[i])))
  }

  ghost predicate CoreInv(c: Config, s: State) {
    Shape(c, s) && LocksInv(c, s) && InFlightInv(c, s) && ParkInv(c, s)
  }

  ghost predicate Inv(c: Config, s: State) {
    CoreInv(c, s) && ChannelInv(c, s)
  }

  lemma InitInv(c: Config)
    ensures Inv(c, Init(c))
  {
  }

  // ------------------------------------------ locks, in-flight entries, parking

  /** A step that leaves cache, queue, calls, workers and locks alone. */
  lemma CoreUnchanged(c: Config, s: State, s': State)
    requires CoreInv(c, s)
    requires s'.cache == s.cache && s'.queue == s.queue && s'.calls == s.calls
    requires s'.workers == s.workers && s'.locks == s.locks
    requires |s'.marks| == |s.marks| && |s'.clears| == |s.clears|
    ensures CoreInv(c, s')
  {
  }

  /** A step of call `i` that takes or releases no lock. */
  lemma CallMove(c: Config, s: State, i: nat, pc: CallPc)
    requires CoreInv(c, s) && i < |s.calls| && CallShape(c, pc)
    requires HoldsTicket(pc) == HoldsTicket(s.calls[i])
    requires HoldsTicket(pc) ==> pc.t == s.calls[i].t
    requires !pc.Parked?
    requires pc.AtWait? ==> InFlight(c, s.workers[pc.t], ClientSlot(c, c.reqs[i]))
    ensures CoreInv(c, s.(calls := s.calls[i := pc]))
  {
  }

  lemma CallAcquires(c: Config, s: State, i: nat)
    requires CoreInv(c, s) && i < |s.calls| && s.calls[i].AtLock? && s.locks[s.calls[i].t] == Free
    ensures CoreInv(c, ApplyCall(c, s, i))
  {
  }

  /** `Wait` and `Unlock`: the call leaves the critical section of its ticket. */
  lemma CallReleases(c: Config, s: State, i: nat, pc: CallPc)
    requires CoreInv(c, s) && i < |s.calls| && CallShape(c, pc)
    requires s.calls[i].AtWait? || s.calls[i].AtUnlock?
    requires !HoldsTicket(pc)
    requires pc.Parked? ==> s.calls[i].AtWait? && pc.t == s.calls[i].t
    ensures CoreInv(c, s.(calls := s.calls[i := pc], locks := s.locks[s.calls[i].t := Free]))
  {
  }

  lemma QueueChanges(c: Config, s: State, queue: seq<Item>)
    requires CoreInv(c, s)
    requires forall p :: 0 <= p < |queue| ==> ItemShape(c, queue[p])
    ensures CoreInv(c, s.(queue := queue))
  {
  }

  lemma CacheShrinks(c: Config, s: State, gone: set<Slot>)
    requires CoreInv(c, s)
    ensures CoreInv(c, s.(cache := s.cache - gone))
  {
  }

  /** A step of worker `w` that takes or releases no lock and finishes nothing. */
  lemma WorkerMove(c: Config, s: State, w: nat, pc: WorkerPc)
    requires CoreInv(c, s) && 1 <= w < |s.workers| && WorkerShape(c, pc)
    requires HoldsOwnTicket(pc) == HoldsOwnTicket(s.workers[w])
    requires forall k :: InFlight(c, s.workers[w], k) ==> InFlight(c, pc, k)
    requires !s.workers[w].WBroadcast?
    ensures CoreInv(c, s.(workers := s.workers[w := pc]))
  {
  }

  lemma WorkerInserts(c: Config, s: State, w: nat, k: Slot)
    requires CoreInv(c, s) && 1 <= w < |s.workers| && s.workers[w].WGot?
    requires k == WorkerSlot(c, c.reqs[s.workers[w].item.call]) && k !in s.cache
    ensures CoreInv(c, s.(cache := s.cache[k := Entry(None, None, w)],
                          workers := s.workers[w := WSend(s.workers[w].item, w, true)]))
  {
  }

  lemma WorkerLocks(c: Config, s: State, w: nat)
    requires CoreInv(c, s) && 1 <= w < |s.workers| && s.workers[w].WLock? && s.locks[w] == Free
    ensures CoreInv(c, ApplyWorker(c, s, w))
  {
  }

  lemma WorkerPublishes(c: Config, s: State, w: nat)
    requires CoreInv(c, s) && 1 <= w < |s.workers| && s.workers[w].WSet?
    ensures CoreInv(c, ApplyWorker(c, s, w))
  {
  }

  lemma WorkerBroadcasts(c: Config, s: State, w: nat)
    requires CoreInv(c, s) && 1 <= w < |s.workers| && s.workers[w].WBroadcast?
    ensures CoreInv(c, ApplyWorker(c, s, w))
  {
  }

  lemma WorkerUnlocks(c: Config, s: State, w: nat)
    requires CoreInv(c, s) && 1 <= w < |s.workers| && s.workers[w].WUnlock?
    ensures CoreInv(c, ApplyWorker(c, s, w))
  {
  }

  // ------------------------------------------------------- response channels

  lemma StillPending(s: State, s': State, it: Item)
    requires Pending(s, it) && |s'.workers| == |s.workers|
    requires it in s.queue ==>
      it in s'.queue || exists w :: 0 <= w < |s'.workers| && Owes(s'.workers[w]) && s'.workers[w].item == it
    requires forall w :: 0 <= w < |s.workers| && Owes(s.workers[w]) && s.workers[w].item == it ==>
      Owes(s'.workers[w]) && s'.workers[w].item == it
    ensures Pending(s', it)
  {
    if it !in s.queue {
      var w :| 0 <= w < |s.workers| && Owes(s.workers[w]) && s.workers[w].item == it;
      assert Owes(s'.workers[w]);
    }
  }

  predicate Awaits(pc: CallPc) {
    (pc.Waiting? && !pc.chanClosed) || pc == Done(TimedOut)
  }

  /** A step that neither queues, takes nor answers an item. */
  lemma ChannelUnchanged(c: Config, s: State, s': State)
    requires Shape(c, s) && Shape(c, s') && ChannelInv(c, s)
    requires s'.queue == s.queue
    requires forall w :: 0 <= w < |s.workers| ==>
      && Owes(s'.workers[w]) == Owes(s.workers[w])
      && (Owes(s.workers[w]) ==> s'.workers[w].item == s.workers[w].item)
    requires forall i :: 0 <= i < |s.calls| ==>
      || s'.calls[i] == s.calls[i]
      || (!Awaits(s.calls[i]) && !Awaits(s'.calls[i]))
      || s'.calls[i] == Done(TimedOut)
    ensures ChannelInv(c, s')
  {
    forall i | 0 <= i < |s'.calls| && s'.calls[i].Waiting? && !s'.calls[i].chanClosed
      ensures Pending(s', Item(i, s'.calls[i].a))
    {
      StillPending(s, s', Item(i, s.calls[i].a));
    }
  }

  /** No item belongs to a call that is not waiting and has not timed out. */
  lemma NothingOwed(s: State, i: nat)
    requires ItemsAwaited(s) && i < |s.calls| && !Awaits(s.calls[i])
    ensures forall p :: 0 <= p < |s.queue| ==> s.queue[p].call != i
    ensures forall w :: 0 <= w < |s.workers| && Owes(s.workers[w]) ==> s.workers[w].item.call != i
  {
    forall p | 0 <= p < |s.queue| ensures s.queue[p].call != i { assert Awaited(s, s.queue[p]); }
  }

  /** The state after call `i` has put its item into the queue. */
  function Enqueued(s: State, i: nat, a: nat): State
    requires i < |s.calls|
  {
    s.(calls := s.calls[i := Waiting(a, false)], queue := s.queue + [Item(i, a)])
  }

  lemma EnqueueAwaited(s: State, i: nat, a: nat)
    requires ItemsAwaited(s) && i < |s.calls| && !Awaits(s.calls[i])
    ensures ItemsAwaited(Enqueued(s, i, a))
  {
    var s' := Enqueued(s, i, a);
    NothingOwed(s, i);
    forall p | 0 <= p < |s'.queue| ensures Awaited(s', s'.queue[p]) {
      if p < |s.queue| { assert Awaited(s, s.queue[p]); }
    }
    forall w | 0 <= w < |s'.workers| && Owes(s'.workers[w]) ensures Awaited(s', s'.workers[w].item) {
      assert Awaited(s, s.workers[w].item);
    }
  }

  lemma EnqueueOnce(s: State, i: nat, a: nat)
    requires ItemsAwaited(s) && OneItemPerCall(s) && i < |s.calls| && !Awaits(s.calls[i])
    ensures OneItemPerCall(Enqueued(s, i, a))
  {
    NothingOwed(s, i);
  }

  lemma EnqueuePending(s: State, i: nat, a: nat)
    requires WaitersPending(s) && i < |s.calls|
    ensures WaitersPending(Enqueued(s, i, a))
  {
    var s' := Enqueued(s, i, a);
    forall j | 0 <= j < |s'.calls| && s'.calls[j].Waiting? && !s'.calls[j].chanClosed
      ensures Pending(s', Item(j, s'.calls[j].a))
    {
      if j == i {
        assert s'.queue[|s.queue|] == Item(i, a);
      } else {
        StillPending(s, s', Item(j, s.calls[j].a));
      }
    }
  }

  lemma ChannelEnqueue(c: Config, s: State, i: nat)
    requires Shape(c, s) && ChannelInv(c, s) && i < |s.calls| && s.calls[i].AtEnqueue?
    ensures var s' := Enqueued(s, i, s.calls[i].a); Shape(c, s') && ChannelInv(c, s')
  {
    EnqueueAwaited(s, i, s.calls[i].a);
    EnqueueOnce(s, i, s.calls[i].a);
    EnqueuePending(s, i, s.calls[i].a);
  }

  lemma ChannelReceive(c: Config, s: State, w: nat)
    requires Shape(c, s) && ChannelInv(c, s) && 1 <= w < |s.workers| && s.workers[w] == WIdle && |s.queue| > 0
    ensures Shape(c, ApplyWorker(c, s, w)) && ChannelInv(c, ApplyWorker(c, s, w))
  {
    var s' := ApplyWorker(c, s, w);
    forall i | 0 <= i < |s'.calls| && s'.calls[i].Waiting? && !s'.calls[i].chanClosed
      ensures Pending(s', Item(i, s'.calls[i].a))
    {
      assert Owes(s'.workers[w]);
      StillPending(s, s', Item(i, s.calls[i].a));
    }
  }

  /** Worker `w` has answered its item: it owes nothing any more, and the call it answered
      no longer waits for it. */
  ghost predicate AnsweredBy(s: State, s': State, w: nat)
    requires w < |s.workers| && !s.workers[w].WIdle? && !s.workers[w].WExited?
  {
    && s'.queue == s.queue && |s'.workers| == |s.workers| && |s'.calls| == |s.calls| && !Owes(s'.workers[w])
    && (forall v :: 0 <= v < |s.workers| && v != w ==> s'.workers[v] == s.workers[v])
    && (forall i :: 0 <= i < |s.calls| ==>
          s'.calls[i] == s.calls[i] || (i == s.workers[w].item.call && !Awaits(s'.calls[i])))
  }

  lemma AnswerAwaited(s: State, s': State, w: nat)
    requires ItemsAwaited(s) && OneItemPerCall(s) && w < |s.workers| && Owes(s.workers[w]) && AnsweredBy(s, s', w)
    ensures ItemsAwaited(s')
  {
    forall p | 0 <= p < |s'.queue| ensures Awaited(s', s'.queue[p]) {
      assert Awaited(s, s.queue[p]);
    }
    forall v | 0 <= v < |s'.workers| && Owes(s'.workers[v]) ensures Awaited(s', s'.workers[v].item) {
      assert Awaited(s, s.workers[v].item);
    }
  }

  lemma AnswerOnce(s: State, s': State, w: nat)
    requires OneItemPerCall(s) && w < |s.workers| && Owes(s.workers[w]) && AnsweredBy(s, s', w)
    ensures OneItemPerCall(s')
  {
  }

  lemma AnswerPending(s: State, s': State, w: nat)
    requires WaitersPending(s) && w < |s.workers| && Owes(s.workers[w]) && AnsweredBy(s, s', w)
    requires var i := s.workers[w].item.call; i < |s.calls| ==> !Awaits(s'.calls[i]) || s'.calls[i].Done?
    ensures WaitersPending(s')
  {
    forall i | 0 <= i < |s'.calls| && s'.calls[i].Waiting? && !s'.calls[i].chanClosed
      ensures Pending(s', Item(i, s'.calls[i].a))
    {
      StillPending(s, s', Item(i, s.calls[i].a));
    }
  }

  lemma AnswerStep(c: Config, s: State, w: nat)
    requires Shape(c, s) && ItemsAwaited(s) && 1 <= w < |s.workers|
    requires s.workers[w].WSend? || s.workers[w].WClose?
    requires WorkerEnabled(s, w, s.workers[w])
    ensures var s' := ApplyWorker(c, s, w); var i := s.workers[w].item.call;
      && Shape(c, s') && AnsweredBy(s, s', w) && (!Awaits(s'.calls[i]) || s'.calls[i].Done?)
  {
    assert Awaited(s, s.workers[w].item);
  }

  lemma ChannelAnswer(c: Config, s: State, w: nat)
    requires Shape(c, s) && ChannelInv(c, s) && 1 <= w < |s.workers|
    requires s.workers[w].WSend? || s.workers[w].WClose?
    requires WorkerEnabled(s, w, s.workers[w])
    ensures Shape(c, ApplyWorker(c, s, w)) && ChannelInv(c, ApplyWorker(c, s, w))
  {
    var s' := ApplyWorker(c, s, w);
    AnswerStep(c, s, w);
    AnswerAwaited(s, s', w);
    AnswerOnce(s, s', w);
    AnswerPending(s, s', w);
  }

  // --------------------------------------------------------------- every step

  lemma CallStepCore(c: Config, s: State, i: nat)
    requires CoreInv(c, s) && i < |s.calls| && CallEnabled(s, s.calls[i])
    ensures CoreInv(c, ApplyCall(c, s, i))
  {
    var s' := ApplyCall(c, s, i);
    var pc := s.calls[i];
    if pc.AtLock? {
      CallAcquires(c, s, i);
    } else if pc.AtWait? || pc.AtUnlock? {
      CallReleases(c, s, i, s'.calls[i]);
    } else {
      UnlockedCallStep(c, s, i);
    }
  }

  /** A call step that touches no lock. */
  lemma UnlockedCallStep(c: Config, s: State, i: nat)
    requires CoreInv(c, s) && i < |s.calls| && CallEnabled(s, s.calls[i])
    requires !s.calls[i].AtLock? && !s.calls[i].AtWait? && !s.calls[i].AtUnlock?
    ensures CoreInv(c, ApplyCall(c, s, i))
  {
    if s.calls[i].AtDelete? {
      DeleteCore(c, s, i);
    } else {
      var s' := ApplyCall(c, s, i);
      CallMove(c, s, i, s'.calls[i]);
      if s.calls[i].AtEnqueue? { QueueChanges(c, s.(calls := s'.calls), s'.queue); }
    }
  }

  lemma DeleteCore(c: Config, s: State, i: nat)
    requires CoreInv(c, s) && i < |s.calls| && s.calls[i].AtDelete?
    ensures CoreInv(c, ApplyCall(c, s, i))
  {
    var s' := ApplyCall(c, s, i);
    CallMove(c, s, i, s'.calls[i]);
    CacheShrinks(c, s.(calls := s'.calls), {ClientSlot(c, c.reqs[i])});
    CoreUnchanged(c, s'.(dels := s.dels), s');
  }

  lemma WorkerStepCore(c: Config, s: State, w: nat)
    requires CoreInv(c, s) && 1 <= w < |s.workers| && WorkerEnabled(s, w, s.workers[w])
    ensures CoreInv(c, ApplyWorker(c, s, w))
  {
    var s' := ApplyWorker(c, s, w);
    match s.workers[w]
    case WIdle =>
      WorkerMove(c, s, w, s'.workers[w]);
      QueueChanges(c, s.(workers := s'.workers), s'.queue);
    case WGot(it) =>
      var k := WorkerSlot(c, c.reqs[it.call]);
      if k in s.cache { WorkerMove(c, s, w, s'.workers[w]); } else { WorkerInserts(c, s, w, k); }
    case WSend(it, t, own) =>
      WorkerMove(c, s, w, s'.workers[w]);
      CallMove(c, s.(workers := s'.workers), it.call, s'.calls[it.call]);
    case WClose(it) =>
      WorkerMove(c, s, w, s'.workers[w]);
      if s.calls[it.call].Waiting? {
        CallMove(c, s.(workers := s'.workers), it.call, s'.calls[it.call]);
      }
    case WLock(_) => WorkerLocks(c, s, w);
    case WSet(_, _) => WorkerPublishes(c, s, w);
    case WBroadcast(_) => WorkerBroadcasts(c, s, w);
    case WUnlock(_) => WorkerUnlocks(c, s, w);
  }

  /** The steps of nobody in particular: a call begins or times out, the backend answers, a
      clear goes on, `Stop`. */
  lemma OtherStepCore(c: Config, s: State, st: Step)
    requires CoreInv(c, s) && Enabled(c, s, st) && !st.CallStep? && !st.WorkerStep?
    ensures CoreInv(c, Apply(c, s, st))
  {
    var s' := Apply(c, s, st);
    match st
    case Begin(i) =>
      CallMove(c, s, i, AtGet(0));
      CoreUnchanged(c, s'.(marks := s.marks), s');
    case Timeout(i) => CallMove(c, s, i, Done(TimedOut));
    case Answer(w, raw, err) =>
      WorkerMove(c, s, w, s'.workers[w]);
      CoreUnchanged(c, s'.(log := s.log), s');
    case ClearStep(j) => ClearCore(c, s, j);
    case Stop => CoreUnchanged(c, s, s');
  }

  lemma ClearCore(c: Config, s: State, j: nat)
    requires CoreInv(c, s) && j < |s.clears| && s.clears[j] != ClearDone
    ensures CoreInv(c, ApplyClear(s, j))
  {
    if s.clears[j].Wiping? { CacheShrinks(c, s, s.clears[j].slots); }
    CoreUnchanged(c, s.(cache := ApplyClear(s, j).cache), ApplyClear(s, j));
  }

  lemma NextCore(c: Config, s: State, st: Step)
    requires CoreInv(c, s) && Enabled(c, s, st)
    ensures CoreInv(c, Apply(c, s, st))
  {
    if st.CallStep? {
      CallStepCore(c, s, st.i);
    } else if st.WorkerStep? {
      WorkerStepCore(c, s, st.w);
    } else {
      OtherStepCore(c, s, st);
    }
  }

  lemma CallStepChannel(c: Config, s: State, i: nat)
    requires Shape(c, s) && ChannelInv(c, s) && i < |s.calls| && CallEnabled(s, s.calls[i])
    requires Shape(c, ApplyCall(c, s, i))
    ensures ChannelInv(c, ApplyCall(c, s, i))
  {
    if s.calls[i].AtEnqueue? && !s.stopped {
      ChannelEnqueue(c, s, i);
    } else {
      var s' := ApplyCall(c, s, i);
      assert s'.workers == s.workers && s'.queue == s.queue && s'.calls == s.calls[i := s'.calls[i]];
      ChannelUnchanged(c, s, s');
    }
  }

  lemma WorkerStepChannel(c: Config, s: State, w: nat)
    requires Shape(c, s) && ChannelInv(c, s) && 1 <= w < |s.workers| && WorkerEnabled(s, w, s.workers[w])
    requires Shape(c, ApplyWorker(c, s, w))
    ensures ChannelInv(c, ApplyWorker(c, s, w))
  {
    if s.workers[w].WIdle? && |s.queue| > 0 {
      ChannelReceive(c, s, w);
    } else if s.workers[w].WSend? || s.workers[w].WClose? {
      ChannelAnswer(c, s, w);
    } else {
      var s' := ApplyWorker(c, s, w);
      assert s'.queue == s.queue && s'.workers == s.workers[w := s'.workers[w]];
      ChannelUnchanged(c, s, s');
    }
  }

  lemma NextChannel(c: Config, s: State, st: Step)
    requires Inv(c, s) && Enabled(c, s, st) && CoreInv(c, Apply(c, s, st))
    ensures ChannelInv(c, Apply(c, s, st))
  {
    if st.CallStep? {
      CallStepChannel(c, s, st.i);
    } else if st.WorkerStep? {
      WorkerStepChannel(c, s, st.w);
    } else {
      ChannelUnchanged(c, s, Apply(c, s, st));
    }
  }

  lemma NextInv(c: Config, s: State, st: Step)
    requires Inv(c, s) && Enabled(c, s, st)
    ensures Inv(c, Apply(c, s, st))
  {
    NextCore(c, s, st);
    NextChannel(c, s, st);
  }

  /** Every state of every run satisfies the invariant. */
  lemma {:induction false} ReachableInv(c: Config, states: seq<State>, steps: seq<Step>, n: nat)
    requires Behavior(c, states, steps) && n < |states|
    ensures Inv(c, states[n])
  {
    if n == 0 {
      InitInv(c);
    } else {
      ReachableInv(c, states, steps, n - 1);
      assert Next(c, states[n - 1], steps[n - 1], states[n - 1 + 1]);
      NextInv(c, states[n - 1], steps[n - 1]);
    }
  }
}
