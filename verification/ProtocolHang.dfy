/** What the 20 second branch can do: a call that leaves early can block its worker for good,
    and with it every call that waits for that worker's broadcast. */
module ProtocolHang {
  import opened Base
  import opened SyncCacheModel
  import opened Protocol
  import opened ProtocolBudget
  import opened ProtocolProgress
  import opened ProtocolSchedule

  // -------------------------------------------------------------- blocked is for ever

  lemma BlockedStep(c: Config, s: State, st: Step, w: nat)
    requires Shape(c, s) && Enabled(c, s, st) && Blocked(s, w)
    ensures Blocked(Apply(c, s, st), w) && st != WorkerStep(w)
  {
    OthersStay(c, s, st, w);
    CallEvolves(c, s, st, s.workers[w].item.call);
  }

  lemma ParkedStep(c: Config, s: State, st: Step, w: nat, i: nat)
    requires Shape(c, s) && Enabled(c, s, st) && Blocked(s, w)
    requires i < |s.calls| && s.calls[i].Parked? && s.calls[i].t == w
    ensures i < |Apply(c, s, st).calls| && Apply(c, s, st).calls[i] == s.calls[i]
  {
    BlockedStep(c, s, st, w);
    if st.CallStep? { OwnCallEvolves(c, s, st.i); }
  }

  /** A blocked worker stays blocked, and a call parked on its ticket stays parked, in every
      continuation of every run. */
  lemma {:induction false} ParkedForever(c: Config, states: seq<State>, steps: seq<Step>, n: nat, m: nat, w: nat,
                                         i: nat)
    requires Behavior(c, states, steps) && n <= m < |states| && Blocked(states[n], w)
    requires i < |states[n].calls| && states[n].calls[i].Parked? && states[n].calls[i].t == w
    ensures Blocked(states[m], w) && i < |states[m].calls| && states[m].calls[i] == states[n].calls[i]
    decreases m
  {
    if n < m {
      var p := m - 1;
      ParkedForever(c, states, steps, n, p, w, i);
      assert Next(c, states[p], steps[p], states[p + 1]);
      BlockedStep(c, states[p], steps[p], w);
      ParkedStep(c, states[p], steps[p], w, i);
    }
  }

  // ----------------------------------------------------------------- where it is decided

  /** The call leaves while worker `w` is about to send it the ticket. */
  predicate LeavesSender(s: State, st: Step, w: nat)
    requires w < |s.workers|
  {
    st.Timeout? && s.workers[w].WSend? && s.workers[w].item.call == st.i
  }

  /** Worker `w` looks up the item of a call that has left, and the answer is not there yet. */
  predicate ServesLeaver(c: Config, s: State, st: Step, w: nat)
    requires Shape(c, s) && w < |s.workers|
  {
    && st == WorkerStep(w) && s.workers[w].WGot? && s.calls[s.workers[w].item.call] == Done(TimedOut)
    && var k := WorkerSlot(c, c.reqs[s.workers[w].item.call]);
       !(k in s.cache && Available(s.cache[k]))
  }

  lemma ServingBlocks(c: Config, s: State, w: nat)
    requires Shape(c, s) && 1 <= w < |s.workers| && WorkerEnabled(s, w, s.workers[w]) && !Blocked(s, w)
    ensures Blocked(ApplyWorker(c, s, w), w) <==> ServesLeaver(c, s, WorkerStep(w), w)
  {
  }

  lemma OnlyTimeoutTimesOut(c: Config, s: State, st: Step, i: nat)
    requires Shape(c, s) && Enabled(c, s, st) && i < |s.calls| && s.calls[i] != Done(TimedOut)
    ensures i < |Apply(c, s, st).calls|
    ensures Apply(c, s, st).calls[i] == Done(TimedOut) <==> st == Timeout(i)
  {
    if st.CallStep? {
      OwnCallEvolves(c, s, st.i);
      assert ApplyCall(c, s, st.i).calls[st.i] != Done(TimedOut);
    }
  }

  /** A step blocks worker `w` if and only if it makes a call leave that the worker is sending
      to, or makes the worker serve a call that has left and whose answer is not cached. */
  lemma BlocksExactly(c: Config, s: State, st: Step, w: nat)
    requires Shape(c, s) && Enabled(c, s, st) && 1 <= w < |s.workers| && !Blocked(s, w)
    ensures Blocked(Apply(c, s, st), w) <==> LeavesSender(s, st, w) || ServesLeaver(c, s, st, w)
  {
    if st == WorkerStep(w) {
      ServingBlocks(c, s, w);
    } else if !(st.Answer? && st.w == w) {
      OthersStay(c, s, st, w);
      if s.workers[w].WSend? { OnlyTimeoutTimesOut(c, s, st, s.workers[w].item.call); }
    }
  }

  // ------------------------------------------------------------------ how it comes about

  /** Two calls for the same file, two workers. */
  function Example(path: Bytes, hash: Bytes -> nat): Config {
    Config(2, [Request(ReadFile, path, []), Request(ReadFile, path, [])], 0, hash)
  }

  function At(pc0: CallPc, pc1: CallPc, w1: WorkerPc, w2: WorkerPc, cache: map<Slot, Entry>, queue: seq<Item>,
              lock: Owner): State {
    State(cache, queue, [pc0, pc1], [WIdle, w1, w2], [Free, lock, Free], [], false,
          [], [], [], [Mark(0, 0), Mark(0, 0)])
  }

  ghost predicate Fits(c: Config, pc0: CallPc, pc1: CallPc, w1: WorkerPc, w2: WorkerPc, cache: map<Slot, Entry>,
                       queue: seq<Item>) {
    && CallShape(c, pc0) && CallShape(c, pc1) && WorkerShape(c, w1) && WorkerShape(c, w2)
    && (forall x :: x in cache ==> cache[x].locker <= 2) && (forall p :: 0 <= p < |queue| ==> ItemShape(c, queue[p]))
  }

  lemma AtShape(c: Config, pc0: CallPc, pc1: CallPc, w1: WorkerPc, w2: WorkerPc, cache: map<Slot, Entry>,
                queue: seq<Item>, lock: Owner)
    requires |c.reqs| == 2 && c.numWorkers == 2 && c.numClears == 0 && Fits(c, pc0, pc1, w1, w2, cache, queue)
    ensures Shape(c, At(pc0, pc1, w1, w2, cache, queue, lock))
  {
  }

  /** The first call asks. */
  lemma FirstAsks(c: Config, path: Bytes, hash: Bytes -> nat)
    requires c == Example(path, hash)
    ensures RunFrom(c, Init(c), [Begin(0), CallStep(0), CallStep(0), WorkerStep(1)])
      == Some(At(Waiting(0, false), Idle, WGot(Item(0, 0)), WIdle, map[], [], Free))
  {
    var s0 := At(Idle, Idle, WIdle, WIdle, map[], [], Free);
    var s1 := At(AtGet(0), Idle, WIdle, WIdle, map[], [], Free);
    var s2 := At(AtEnqueue(0), Idle, WIdle, WIdle, map[], [], Free);
    var s3 := At(Waiting(0, false), Idle, WIdle, WIdle, map[], [Item(0, 0)], Free);
    var s4 := At(Waiting(0, false), Idle, WGot(Item(0, 0)), WIdle, map[], [], Free);
    assert Init(c) == s0;
    assert Next(c, s0, Begin(0), s1) by { AtShape(c, Idle, Idle, WIdle, WIdle, map[], [], Free); }
    assert Next(c, s1, CallStep(0), s2) by { AtShape(c, AtGet(0), Idle, WIdle, WIdle, map[], [], Free); }
    assert Next(c, s2, CallStep(0), s3) by { AtShape(c, AtEnqueue(0), Idle, WIdle, WIdle, map[], [], Free); }
    assert Next(c, s3, WorkerStep(1), s4) by {
      AtShape(c, Waiting(0, false), Idle, WIdle, WIdle, map[], [Item(0, 0)], Free);
    }
    Four(c, s0, Begin(0), s1, CallStep(0), s2, CallStep(0), s3, WorkerStep(1), s4);
  }

  /** Its worker inserts the entry, and the call times out before the ticket is sent. */
  lemma FirstLeaves(c: Config, path: Bytes, hash: Bytes -> nat, k: Slot)
    requires c == Example(path, hash) && k == Slot(ReadFile, path)
    ensures var w1 := WSend(Item(0, 0), 1, true); var m := map[k := Entry(None, None, 1)];
      RunFrom(c, At(Waiting(0, false), Idle, WGot(Item(0, 0)), WIdle, map[], [], Free),
              [WorkerStep(1), Timeout(0), Begin(1), CallStep(1)])
      == Some(At(Done(TimedOut), AtEnqueue(0), w1, WIdle, m, [], Free))
  {
    var w1, m := WSend(Item(0, 0), 1, true), map[k := Entry(None, None, 1)];
    var s0 := At(Waiting(0, false), Idle, WGot(Item(0, 0)), WIdle, map[], [], Free);
    var s1 := At(Waiting(0, false), Idle, w1, WIdle, m, [], Free);
    var s2 := At(Done(TimedOut), Idle, w1, WIdle, m, [], Free);
    var s3 := At(Done(TimedOut), AtGet(0), w1, WIdle, m, [], Free);
    var s4 := At(Done(TimedOut), AtEnqueue(0), w1, WIdle, m, [], Free);
    assert Next(c, s0, WorkerStep(1), s1) by {
      AtShape(c, Waiting(0, false), Idle, WGot(Item(0, 0)), WIdle, map[], [], Free);
    }
    assert Next(c, s1, Timeout(0), s2) by { AtShape(c, Waiting(0, false), Idle, w1, WIdle, m, [], Free); }
    assert Next(c, s2, Begin(1), s3) by { AtShape(c, Done(TimedOut), Idle, w1, WIdle, m, [], Free); }
    assert Next(c, s3, CallStep(1), s4) by { AtShape(c, Done(TimedOut), AtGet(0), w1, WIdle, m, [], Free); }
    Four(c, s0, WorkerStep(1), s1, Timeout(0), s2, Begin(1), s3, CallStep(1), s4);
  }

  /** The second call gets the blocked worker's ticket from the other worker. */
  lemma SecondAsks(c: Config, path: Bytes, hash: Bytes -> nat, k: Slot)
    requires c == Example(path, hash) && k == Slot(ReadFile, path)
    ensures var w1 := WSend(Item(0, 0), 1, true); var m := map[k := Entry(None, None, 1)];
      RunFrom(c, At(Done(TimedOut), AtEnqueue(0), w1, WIdle, m, [], Free),
              [CallStep(1), WorkerStep(2), WorkerStep(2), WorkerStep(2)])
      == Some(At(Done(TimedOut), GotTicket(0, 1), w1, WIdle, m, [], Free))
  {
    var w1, m, it := WSend(Item(0, 0), 1, true), map[k := Entry(None, None, 1)], Item(1, 0);
    var s0 := At(Done(TimedOut), AtEnqueue(0), w1, WIdle, m, [], Free);
    var s1 := At(Done(TimedOut), Waiting(0, false), w1, WIdle, m, [it], Free);
    var s2 := At(Done(TimedOut), Waiting(0, false), w1, WGot(it), m, [], Free);
    var s3 := At(Done(TimedOut), Waiting(0, false), w1, WSend(it, 1, false), m, [], Free);
    var s4 := At(Done(TimedOut), GotTicket(0, 1), w1, WIdle, m, [], Free);
    assert Next(c, s0, CallStep(1), s1) by { AtShape(c, Done(TimedOut), AtEnqueue(0), w1, WIdle, m, [], Free); }
    assert Next(c, s1, WorkerStep(2), s2) by {
      AtShape(c, Done(TimedOut), Waiting(0, false), w1, WIdle, m, [it], Free);
    }
    assert Next(c, s2, WorkerStep(2), s3) by {
      AtShape(c, Done(TimedOut), Waiting(0, false), w1, WGot(it), m, [], Free);
    }
    assert Next(c, s3, WorkerStep(2), s4) by {
      AtShape(c, Done(TimedOut), Waiting(0, false), w1, WSend(it, 1, false), m, [], Free);
    }
    Four(c, s0, CallStep(1), s1, WorkerStep(2), s2, WorkerStep(2), s3, WorkerStep(2), s4);
  }

  /** It finds the entry in flight and parks. */
  lemma SecondParks(c: Config, path: Bytes, hash: Bytes -> nat, k: Slot)
    requires c == Example(path, hash) && k == Slot(ReadFile, path)
    ensures var w1 := WSend(Item(0, 0), 1, true); var m := map[k := Entry(None, None, 1)];
      RunFrom(c, At(Done(TimedOut), GotTicket(0, 1), w1, WIdle, m, [], Free),
              [CallStep(1), CallStep(1), CallStep(1), CallStep(1)])
      == Some(At(Done(TimedOut), Parked(0, 1), w1, WIdle, m, [], Free))
  {
    var w1, m := WSend(Item(0, 0), 1, true), map[k := Entry(None, None, 1)];
    var s0 := At(Done(TimedOut), GotTicket(0, 1), w1, WIdle, m, [], Free);
    var s1 := At(Done(TimedOut), AtLock(0, 1), w1, WIdle, m, [], Free);
    var s2 := At(Done(TimedOut), AtLoopGet(0, 1), w1, WIdle, m, [], ByCall(1));
    var s3 := At(Done(TimedOut), AtWait(0, 1), w1, WIdle, m, [], ByCall(1));
    var s4 := At(Done(TimedOut), Parked(0, 1), w1, WIdle, m, [], Free);
    assert Next(c, s0, CallStep(1), s1) by { AtShape(c, Done(TimedOut), GotTicket(0, 1), w1, WIdle, m, [], Free); }
    assert Next(c, s1, CallStep(1), s2) by { AtShape(c, Done(TimedOut), AtLock(0, 1), w1, WIdle, m, [], Free); }
    assert Next(c, s2, CallStep(1), s3) by { AtShape(c, Done(TimedOut), AtLoopGet(0, 1), w1, WIdle, m, [], ByCall(1)); }
    assert Next(c, s3, CallStep(1), s4) by { AtShape(c, Done(TimedOut), AtWait(0, 1), w1, WIdle, m, [], ByCall(1)); }
    Four(c, s0, CallStep(1), s1, CallStep(1), s2, CallStep(1), s3, CallStep(1), s4);
  }

  /** The state of the hang. */
  function Hung(k: Slot): State {
    At(Done(TimedOut), Parked(0, 1), WSend(Item(0, 0), 1, true), WIdle, map[k := Entry(None, None, 1)], [], Free)
  }

  lemma HungIsStuck(c: Config, path: Bytes, hash: Bytes -> nat, k: Slot)
    requires c == Example(path, hash)
    ensures Shape(c, Hung(k)) && forall st :: Internal(st) ==> !Enabled(c, Hung(k), st)
  {
    var w1, m := WSend(Item(0, 0), 1, true), map[k := Entry(None, None, 1)];
    AtShape(c, Done(TimedOut), Parked(0, 1), w1, WIdle, m, [], Free);
  }

  lemma HangRuns(c: Config, path: Bytes, hash: Bytes -> nat, k: Slot) returns (steps: seq<Step>)
    requires c == Example(path, hash) && k == Slot(ReadFile, path)
    ensures RunFrom(c, Init(c), steps) == Some(Hung(k))
  {
    var a, b := [Begin(0), CallStep(0), CallStep(0), WorkerStep(1)], [WorkerStep(1), Timeout(0), Begin(1), CallStep(1)];
    var d := [CallStep(1), WorkerStep(2), WorkerStep(2), WorkerStep(2)];
    var e := [CallStep(1), CallStep(1), CallStep(1), CallStep(1)];
    FirstAsks(c, path, hash);
    FirstLeaves(c, path, hash, k);
    SecondAsks(c, path, hash, k);
    SecondParks(c, path, hash, k);
    RunAppend(c, Init(c), a, b);
    RunAppend(c, Init(c), a + b, d);
    RunAppend(c, Init(c), a + b + d, e);
    steps := a + b + d + e;
  }

  /** The hang is reachable, for every path: after one timeout, an unfinished call is parked on
      a blocked worker, and no call and no worker can take a step. */
  lemma TimeoutCanHang(path: Bytes, hash: Bytes -> nat) returns (states: seq<State>, steps: seq<Step>)
    ensures var c := Example(path, hash);
      && Behavior(c, states, steps)
      && var s := states[|steps|];
      && Shape(c, s) && !s.stopped && Blocked(s, 1) && |s.calls| == 2 && s.calls[1] == Parked(0, 1)
      && (forall st :: Internal(st) ==> !Enabled(c, s, st))
  {
    var c, k := Example(path, hash), Slot(ReadFile, path);
    steps := HangRuns(c, path, hash, k);
    states := RunIsBehavior(c, Init(c), steps);
    HungIsStuck(c, path, hash, k);
  }
}
