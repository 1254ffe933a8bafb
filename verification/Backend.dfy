/** Connection ownership in backend/provider.go and backend/pool.go: concurrent provider calls
    over a bounded pool of connections, as a state machine with one step per pool operation
    or network request. Connections are numbered in the order they are dialled. */
module Backend {
  datatype Kind = ReadFile | ReadDir | Stat

  /** Where a call is. `Opened` is `ReadFile` between opening the file and its deferred `Put`. */
  datatype CallPc =
    | Start
    | Holding(conn: nat)
    | Opened(conn: nat)
    | Pinging(conn: nat)
    | Returning(conn: nat)
    | Done

  /** `pool` is the buffered channel; `released` counts, for each call, how often it has put
      back or closed a connection, and `acquired` how many it has got. */
  datatype State = State(pool: seq<nat>, closed: set<nat>, dialled: nat, calls: seq<CallPc>, acquired: seq<nat>,
                         released: seq<nat>)

  datatype Config = Config(capacity: nat, kinds: seq<Kind>)

  datatype Step =
    | Take(i: nat)
    | Dial(i: nat, ok: bool)
    | Request(i: nat, ok: bool)
    | Transfer(i: nat, ok: bool)
    | Ping(i: nat, ok: bool)
    | Release(i: nat)

  function Init(c: Config): State {
    State([], {}, 0, seq(|c.kinds|, _ => Start), seq(|c.kinds|, _ => 0), seq(|c.kinds|, _ => 0))
  }

  ghost predicate Shape(c: Config, s: State) {
    |s.calls| == |c.kinds| && |s.acquired| == |c.kinds| && |s.released| == |c.kinds|
  }

  /** The receive in `Get` dials only when the channel is empty. */
  predicate Enabled(c: Config, s: State, step: Step) {
    && step.i < |s.calls|
    && match step
       case Take(i) => s.calls[i] == Start && s.pool != []
       case Dial(i, _) => s.calls[i] == Start && s.pool == []
       case Request(i, _) => s.calls[i].Holding?
       case Transfer(i, _) => s.calls[i].Opened?
       case Ping(i, _) => s.calls[i].Pinging?
       case Release(i) => s.calls[i].Returning?
  }

  function Get(s: State, i: nat, conn: nat): State
    requires i < |s.calls| == |s.acquired|
  {
    s.(calls := s.calls[i := Holding(conn)], acquired := s.acquired[i := s.acquired[i] + 1])
  }

  function Finish(s: State, i: nat): State
    requires i < |s.calls| == |s.released|
  {
    s.(calls := s.calls[i := Done], released := s.released[i := s.released[i] + 1])
  }

  function Apply(c: Config, s: State, step: Step): State
    requires Shape(c, s) && Enabled(c, s, step)
  {
    var i := step.i;
    match step
    case Take(_) => Get(s.(pool := s.pool[1..]), i, s.pool[0])
    case Dial(_, ok) => if ok then Get(s.(dialled := s.dialled + 1), i, s.dialled) else s.(calls := s.calls[i := Done])
    case Request(_, ok) =>
      var conn := s.calls[i].conn;
      var next := if !ok then Pinging(conn) else if c.kinds[i] == ReadFile then Opened(conn) else Returning(conn);
      s.(calls := s.calls[i := next])
    case Transfer(_, _) => s.(calls := s.calls[i := Returning(s.calls[i].conn)])
    case Ping(_, ok) =>
      if ok then s.(calls := s.calls[i := Returning(s.calls[i].conn)])
      else Finish(s.(closed := s.closed + {s.calls[i].conn}), i)
    case Release(_) =>
      if |s.pool| < c.capacity then Finish(s.(pool := s.pool + [s.calls[i].conn]), i)
      else Finish(s.(closed := s.closed + {s.calls[i].conn}), i)
  }

  ghost predicate Behavior(c: Config, states: seq<State>, steps: seq<Step>) {
    && |states| == |steps| + 1 && states[0] == Init(c)
    && forall n :: 0 <= n < |steps| ==> Moves(c, states[n], steps[n], states[n + 1])
  }

  ghost predicate Moves(c: Config, s: State, step: Step, s': State) {
    Shape(c, s) && Enabled(c, s, step) && s' == Apply(c, s, step)
  }

  // ------------------------------------------------------------------------ ownership

  predicate Holds(pc: CallPc, conn: nat) {
    !pc.Start? && !pc.Done? && pc.conn == conn
  }

  ghost predicate Held(calls: seq<CallPc>, conn: nat) {
    exists i :: 0 <= i < |calls| && Holds(calls[i], conn)
  }

  /** Every dialled connection is in exactly one place, at most once. */
  ghost predicate Owned(s: State, conn: nat) {
    && (conn < s.dialled <==> conn in s.pool || Held(s.calls, conn) || conn in s.closed)
    && !(conn in s.pool && Held(s.calls, conn))
    && !(conn in s.pool && conn in s.closed)
    && !(Held(s.calls, conn) && conn in s.closed)
  }

  ghost predicate Unshared(calls: seq<CallPc>) {
    forall i, j, conn | 0 <= i < |calls| && 0 <= j < |calls| ::
      Holds(calls[i], conn) && Holds(calls[j], conn) ==> i == j
  }

  /** No connection twice in the pool, and none shared by two calls. */
  ghost predicate Exclusive(s: State) {
    && (forall k, l :: 0 <= k < l < |s.pool| ==> s.pool[k] != s.pool[l])
    && Unshared(s.calls)
  }

  /** A call has released what it acquired, or still holds it. */
  ghost predicate Balanced(s: State, i: nat)
    requires i < |s.calls| == |s.acquired| == |s.released|
  {
    match s.calls[i]
    case Start => s.acquired[i] == 0 && s.released[i] == 0
    case Done => s.acquired[i] == s.released[i] <= 1
    case _ => s.acquired[i] == 1 && s.released[i] == 0
  }

  ghost predicate Inv(c: Config, s: State) {
    && Shape(c, s) && |s.pool| <= c.capacity && Exclusive(s)
    && (forall conn: nat :: Owned(s, conn))
    && (forall i :: 0 <= i < |s.calls| ==> Balanced(s, i))
  }

  lemma InitInv(c: Config)
    ensures Inv(c, Init(c))
  {
    var s := Init(c);
    forall conn: nat ensures Owned(s, conn) {}
  }

  /** Who holds a connection after call `i` has moved to `pc`. */
  lemma HeldAfter(calls: seq<CallPc>, i: nat, pc: CallPc, conn: nat)
    requires Unshared(calls) && i < |calls|
    ensures Held(calls[i := pc], conn) <==> Holds(pc, conn) || (Held(calls, conn) && !Holds(calls[i], conn))
  {
    var calls' := calls[i := pc];
    if Holds(pc, conn) { assert Holds(calls'[i], conn); }
    if Held(calls', conn) && !Holds(pc, conn) {
      var j :| 0 <= j < |calls'| && Holds(calls'[j], conn);
      assert Holds(calls[j], conn);
    }
    if Held(calls, conn) && !Holds(calls[i], conn) {
      var j :| 0 <= j < |calls| && Holds(calls[j], conn);
      assert Holds(calls'[j], conn);
    }
  }

  lemma UnsharedAfter(calls: seq<CallPc>, i: nat, pc: CallPc)
    requires Unshared(calls) && i < |calls|
    requires forall conn :: Holds(pc, conn) && Held(calls, conn) ==> Holds(calls[i], conn)
    ensures Unshared(calls[i := pc])
  {
  }

  /** A step that gives call `i` a connection no one holds: from the pool, or a new one. */
  lemma AcquireInv(c: Config, s: State, s': State, i: nat, conn: nat)
    requires Inv(c, s) && i < |s.calls| && s.calls[i] == Start
    requires s'.calls == s.calls[i := Holding(conn)] && s'.acquired == s.acquired[i := s.acquired[i] + 1]
    requires s'.released == s.released && s'.closed == s.closed
    requires (s.pool != [] && conn == s.pool[0] && s'.pool == s.pool[1..] && s'.dialled == s.dialled)
             || (conn == s.dialled && s'.pool == s.pool && s'.dialled == s.dialled + 1)
    ensures Inv(c, s')
  {
    assert Owned(s, conn);
    UnsharedAfter(s.calls, i, Holding(conn));
    forall x: nat ensures Owned(s', x) {
      assert Owned(s, x);
      HeldAfter(s.calls, i, Holding(conn), x);
      if s.pool != [] { assert x in s.pool <==> x == s.pool[0] || x in s.pool[1..]; }
    }
    forall j | 0 <= j < |s'.calls| ensures Balanced(s', j) { assert Balanced(s, j); }
  }

  /** A step in which call `i` keeps its connection. */
  lemma KeepInv(c: Config, s: State, i: nat, pc: CallPc)
    requires Inv(c, s) && i < |s.calls| && !s.calls[i].Start? && !s.calls[i].Done?
    requires !pc.Start? && !pc.Done? && pc.conn == s.calls[i].conn
    ensures Inv(c, s.(calls := s.calls[i := pc]))
  {
    var s' := s.(calls := s.calls[i := pc]);
    UnsharedAfter(s.calls, i, pc);
    forall x: nat ensures Owned(s', x) {
      assert Owned(s, x);
      HeldAfter(s.calls, i, pc, x);
    }
    forall j | 0 <= j < |s'.calls| ensures Balanced(s', j) { assert Balanced(s, j); }
  }

  /** A step in which call `i` gives up its connection, to the pool or for good. */
  lemma LoseInv(c: Config, s: State, s': State, i: nat, conn: nat)
    requires Inv(c, s) && i < |s.calls| && Holds(s.calls[i], conn)
    requires s'.calls == s.calls[i := Done] && s'.released == s.released[i := s.released[i] + 1]
    requires s'.acquired == s.acquired && s'.dialled == s.dialled
    requires (|s.pool| < c.capacity && s'.pool == s.pool + [conn] && s'.closed == s.closed)
             || (s'.pool == s.pool && s'.closed == s.closed + {conn})
    ensures Inv(c, s')
  {
    assert Held(s.calls, conn);
    assert Owned(s, conn);
    UnsharedAfter(s.calls, i, Done);
    forall x: nat ensures Owned(s', x) {
      assert Owned(s, x);
      HeldAfter(s.calls, i, Done, x);
    }
    forall j | 0 <= j < |s'.calls| ensures Balanced(s', j) { assert Balanced(s, j); }
  }

  lemma FailInv(c: Config, s: State, i: nat)
    requires Inv(c, s) && i < |s.calls| && s.calls[i] == Start
    ensures Inv(c, s.(calls := s.calls[i := Done]))
  {
    var s' := s.(calls := s.calls[i := Done]);
    UnsharedAfter(s.calls, i, Done);
    forall x: nat ensures Owned(s', x) {
      assert Owned(s, x);
      HeldAfter(s.calls, i, Done, x);
    }
    forall j | 0 <= j < |s'.calls| ensures Balanced(s', j) { assert Balanced(s, j); }
  }

  lemma StepInv(c: Config, s: State, step: Step)
    requires Inv(c, s) && Enabled(c, s, step)
    ensures Inv(c, Apply(c, s, step))
  {
    var i, s' := step.i, Apply(c, s, step);
    match step
    case Take(_) => AcquireInv(c, s, s', i, s.pool[0]);
    case Dial(_, ok) => if ok { AcquireInv(c, s, s', i, s.dialled); } else { FailInv(c, s, i); }
    case Request(_, _) => KeepInv(c, s, i, s'.calls[i]);
    case Transfer(_, _) => KeepInv(c, s, i, s'.calls[i]);
    case Ping(_, ok) => if ok { KeepInv(c, s, i, s'.calls[i]); } else { LoseInv(c, s, s', i, s.calls[i].conn); }
    case Release(_) => LoseInv(c, s, s', i, s.calls[i].conn);
  }

  /** Every reachable state: each connection in exactly one place, no two calls sharing one,
      the pool within its capacity, and every finished call's books balanced. */
  lemma {:induction false} ReachableInv(c: Config, states: seq<State>, steps: seq<Step>, n: nat)
    requires Behavior(c, states, steps) && n < |states|
    ensures Inv(c, states[n])
    decreases n
  {
    if n == 0 {
      InitInv(c);
    } else {
      ReachableInv(c, states, steps, n - 1);
      assert Moves(c, states[n - 1], steps[n - 1], states[n]);
      StepInv(c, states[n - 1], steps[n - 1]);
    }
  }

  /** A connection that is closed is never used again: what a call gets is open. */
  lemma NeverReopened(c: Config, states: seq<State>, steps: seq<Step>, n: nat, m: nat, conn: nat)
    requires Behavior(c, states, steps) && n <= m < |states| && conn in states[n].closed
    ensures conn in states[m].closed && conn !in states[m].pool && !Held(states[m].calls, conn)
  {
    StaysClosed(c, states, steps, n, m, conn);
    ReachableInv(c, states, steps, m);
    assert Owned(states[m], conn);
  }

  lemma {:induction false} StaysClosed(c: Config, states: seq<State>, steps: seq<Step>, n: nat, m: nat, conn: nat)
    requires Behavior(c, states, steps) && n <= m < |states| && conn in states[n].closed
    ensures conn in states[m].closed
    decreases m
  {
    if n < m {
      StaysClosed(c, states, steps, n, m - 1, conn);
      assert Moves(c, states[m - 1], steps[m - 1], states[m]);
    }
  }

  /** A connection whose ping has failed is closed from then on: no call gets it again. */
  lemma FailedPingCloses(c: Config, states: seq<State>, steps: seq<Step>, n: nat, m: nat, i: nat)
    requires Behavior(c, states, steps) && n < m < |states| && steps[n] == Ping(i, false)
    ensures i < |states[n].calls| && states[n].calls[i].Pinging?
    ensures var conn := states[n].calls[i].conn;
      conn in states[m].closed && conn !in states[m].pool && !Held(states[m].calls, conn)
  {
    assert Moves(c, states[n], steps[n], states[n + 1]);
    NeverReopened(c, states, steps, n + 1, m, states[n].calls[i].conn);
  }

  /** What closes a connection: a failed ping, or its return to a full pool, and nothing else. */
  lemma WhyClosed(c: Config, states: seq<State>, steps: seq<Step>, n: nat, conn: nat)
    requires Behavior(c, states, steps) && n < |steps| && conn !in states[n].closed
    ensures var s, i := states[n], steps[n].i; conn in states[n + 1].closed <==>
      i < |s.calls| && ((steps[n] == Ping(i, false) && s.calls[i] == Pinging(conn))
                        || (steps[n] == Release(i) && s.calls[i] == Returning(conn) && |s.pool| == c.capacity))
  {
    assert Moves(c, states[n], steps[n], states[n + 1]);
    ReachableInv(c, states, steps, n);
  }

  /** A call that has returned to the caller after a failed request has pinged its connection. */
  lemma {:induction false} FailedRequestIsPinged(c: Config, states: seq<State>, steps: seq<Step>, n: nat, m: nat,
                                               i: nat) returns (p: nat, ok: bool)
    requires Behavior(c, states, steps) && n < m < |states| && steps[n] == Request(i, false)
    requires i < |states[m].calls| && !states[m].calls[i].Pinging?
    ensures n < p < m && steps[p] == Ping(i, ok) && i < |states[n].calls| && i < |states[p].calls|
    ensures states[n].calls[i].Holding? && states[p].calls[i] == Pinging(states[n].calls[i].conn)
    decreases m
  {
    var q := m - 1;
    assert Moves(c, states[n], steps[n], states[n + 1]);
    assert Moves(c, states[q], steps[q], states[q + 1]);
    assert n < q;
    if states[q].calls[i].Pinging? {
      p, ok := q, steps[q].ok;
      PingedStays(c, states, steps, n, q, i);
    } else {
      p, ok := FailedRequestIsPinged(c, states, steps, n, q, i);
    }
  }

  /** As long as it is pinging, it is the same connection. */
  lemma {:induction false} PingedStays(c: Config, states: seq<State>, steps: seq<Step>, n: nat, m: nat, i: nat)
    requires Behavior(c, states, steps) && n < m < |states| && steps[n] == Request(i, false)
    requires i < |states[m].calls| && states[m].calls[i].Pinging?
    ensures i < |states[n].calls| && states[n].calls[i].Holding?
    ensures states[m].calls[i] == Pinging(states[n].calls[i].conn)
    decreases m
  {
    var q := m - 1;
    assert Moves(c, states[n], steps[n], states[n + 1]);
    if n < q {
      assert Moves(c, states[q], steps[q], states[q + 1]);
      FailedOnce(c, states, steps, n, q, i);
      PingedStays(c, states, steps, n, q, i);
    }
  }

  /** A call makes one request: after a failed one it is pinging, returning or done. */
  lemma {:induction false} FailedOnce(c: Config, states: seq<State>, steps: seq<Step>, n: nat, m: nat, i: nat)
    requires Behavior(c, states, steps) && n < m < |states| && steps[n] == Request(i, false)
    ensures i < |states[m].calls|
    ensures states[m].calls[i].Pinging? || states[m].calls[i].Returning? || states[m].calls[i].Done?
    decreases m
  {
    var q := m - 1;
    assert Moves(c, states[n], steps[n], states[n + 1]);
    if n < q {
      FailedOnce(c, states, steps, n, q, i);
      assert Moves(c, states[q], steps[q], states[q + 1]);
    }
  }

  /** Nothing leaks: once all calls have returned, every connection is pooled or closed. */
  lemma NoLeak(c: Config, states: seq<State>, steps: seq<Step>, n: nat, conn: nat)
    requires Behavior(c, states, steps) && n < |states|
    requires forall i :: 0 <= i < |states[n].calls| ==> states[n].calls[i] == Done
    ensures conn < states[n].dialled <==> conn in states[n].pool || conn in states[n].closed
  {
    ReachableInv(c, states, steps, n);
    assert Owned(states[n], conn);
  }
}
