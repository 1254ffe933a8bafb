/** The retry budget cannot be improved: a run in which three `ClearCache` calls make one
    request fail although no backend answer was bad. */
module ProtocolTight {
  import opened Base
  import opened SyncCacheModel
  import opened Protocol
  import opened ProtocolBudget
  import opened ProtocolSchedule

  // --------------------------------------------------------------------- the example

  /** One request, three workers, three `ClearCache` calls. */
  function Example(path: Bytes, hash: Bytes -> nat): Config {
    Config(3, [Request(ReadFile, path, [])], 3, hash)
  }

  /** In attempt `a`, the workers of earlier attempts have sent their tickets and not taken
      their locks, and earlier clears have wiped the file cache. */
  function Workers(a: nat, w: WorkerPc): seq<WorkerPc> {
    seq(4, x => if x <= 0 || x > a + 1 then WIdle else if x == a + 1 then w else WLock(Item(0, x - 1)))
  }

  function Clears(a: nat, j: ClearPc): seq<ClearPc> {
    seq(3, x => if x < a then Collecting(ReadDir) else if x == a then j else ClearIdle)
  }

  function Dels(k: Slot, n: nat): seq<Deletion> {
    if n == 0 then [] else Dels(k, n - 1) + [Deletion({k}, AClear(n - 1))]
  }

  function During(k: Slot, a: nat, pc: CallPc, w: WorkerPc, j: ClearPc, cache: map<Slot, Entry>, queue: seq<Item>,
                  n: nat): State {
    State(cache, queue, [pc], Workers(a, w), [Free, Free, Free, Free], Clears(a, j), false,
          [], [], Dels(k, n), [Mark(0, 0)])
  }

  lemma Updates(a: nat, w: WorkerPc, w': WorkerPc, j: ClearPc, j': ClearPc)
    requires a < 3
    ensures Workers(a, w)[a + 1 := w'] == Workers(a, w') && Workers(a, w)[a + 1] == w && |Workers(a, w)| == 4
    ensures Clears(a, j)[a := j'] == Clears(a, j') && Clears(a, j)[a] == j && |Clears(a, j)| == 3
  {
  }

  lemma DuringShape(c: Config, k: Slot, a: nat, pc: CallPc, w: WorkerPc, j: ClearPc, cache: map<Slot, Entry>,
                    queue: seq<Item>, n: nat)
    requires |c.reqs| == 1 && c.numWorkers == 3 && c.numClears == 3 && a < 3 && CallShape(c, pc) && WorkerShape(c, w)
    requires forall x :: x in cache ==> cache[x].locker <= 3
    requires forall p :: 0 <= p < |queue| ==> ItemShape(c, queue[p])
    ensures Shape(c, During(k, a, pc, w, j, cache, queue, n))
  {
  }

  /** The call misses, queues its item, and a worker takes it. */
  lemma Ask(c: Config, path: Bytes, hash: Bytes -> nat, k: Slot, a: nat)
    requires c == Example(path, hash) && k == Slot(ReadFile, path) && a < 3
    ensures RunFrom(c, During(k, a, AtGet(a), WIdle, ClearIdle, map[], [], a),
                    [CallStep(0), CallStep(0), WorkerStep(a + 1)])
      == Some(During(k, a, Waiting(a, false), WGot(Item(0, a)), ClearIdle, map[], [], a))
  {
    var it := Item(0, a);
    var s0 := During(k, a, AtGet(a), WIdle, ClearIdle, map[], [], a);
    var s1 := During(k, a, AtEnqueue(a), WIdle, ClearIdle, map[], [], a);
    var s2 := During(k, a, Waiting(a, false), WIdle, ClearIdle, map[], [it], a);
    var s3 := During(k, a, Waiting(a, false), WGot(it), ClearIdle, map[], [], a);
    DuringShape(c, k, a, AtGet(a), WIdle, ClearIdle, map[], [], a);
    DuringShape(c, k, a, AtEnqueue(a), WIdle, ClearIdle, map[], [], a);
    DuringShape(c, k, a, Waiting(a, false), WIdle, ClearIdle, map[], [it], a);
    Updates(a, WIdle, WGot(it), ClearIdle, ClearIdle);
    assert Apply(c, s0, CallStep(0)) == s1;
    assert Apply(c, s1, CallStep(0)) == s2;
    assert Apply(c, s2, WorkerStep(a + 1)) == s3;
    Three(c, s0, CallStep(0), s1, CallStep(0), s2, WorkerStep(a + 1), s3);
  }

  /** The worker inserts its entry, and `ClearCache` sees the key. */
  lemma Insert(c: Config, path: Bytes, hash: Bytes -> nat, k: Slot, a: nat)
    requires c == Example(path, hash) && k == Slot(ReadFile, path) && a < 3
    ensures RunFrom(c, During(k, a, Waiting(a, false), WGot(Item(0, a)), ClearIdle, map[], [], a),
                    [WorkerStep(a + 1), ClearStep(a), ClearStep(a)])
      == Some(During(k, a, Waiting(a, false), WSend(Item(0, a), a + 1, true), Wiping(ReadFile, {k}),
                     map[k := Entry(None, None, a + 1)], [], a))
  {
    var it, e := Item(0, a), Entry(None, None, a + 1);
    var pc, w := Waiting(a, false), WSend(it, a + 1, true);
    var s0 := During(k, a, pc, WGot(it), ClearIdle, map[], [], a);
    var s1 := During(k, a, pc, w, ClearIdle, map[k := e], [], a);
    var s2 := During(k, a, pc, w, Collecting(ReadFile), map[k := e], [], a);
    var s3 := During(k, a, pc, w, Wiping(ReadFile, {k}), map[k := e], [], a);
    DuringShape(c, k, a, pc, WGot(it), ClearIdle, map[], [], a);
    DuringShape(c, k, a, pc, w, ClearIdle, map[k := e], [], a);
    DuringShape(c, k, a, pc, w, Collecting(ReadFile), map[k := e], [], a);
    Updates(a, WGot(it), w, ClearIdle, Collecting(ReadFile));
    Updates(a, w, w, Collecting(ReadFile), Wiping(ReadFile, {k}));
    assert Apply(c, s0, WorkerStep(a + 1)) == s1;
    assert Apply(c, s1, ClearStep(a)) == s2;
    assert (set x | x in s2.cache && x.kind == ReadFile) == {k};
    assert Apply(c, s2, ClearStep(a)) == s3;
    Three(c, s0, WorkerStep(a + 1), s1, ClearStep(a), s2, ClearStep(a), s3);
  }

  /** The ticket arrives, the entry is wiped, and the call finds nothing. */
  lemma Lose(c: Config, path: Bytes, hash: Bytes -> nat, k: Slot, a: nat)
    requires c == Example(path, hash) && k == Slot(ReadFile, path) && a < 3
    ensures RunFrom(c, During(k, a, Waiting(a, false), WSend(Item(0, a), a + 1, true), Wiping(ReadFile, {k}),
                              map[k := Entry(None, None, a + 1)], [], a),
                    [WorkerStep(a + 1), ClearStep(a), CallStep(0)])
      == Some(During(k, a, Retry(a), WLock(Item(0, a)), Collecting(ReadDir), map[], [], a + 1))
  {
    var it, m := Item(0, a), map[k := Entry(None, None, a + 1)];
    var s0 := During(k, a, Waiting(a, false), WSend(it, a + 1, true), Wiping(ReadFile, {k}), m, [], a);
    var s1 := During(k, a, GotTicket(a, a + 1), WLock(it), Wiping(ReadFile, {k}), m, [], a);
    var s2 := During(k, a, GotTicket(a, a + 1), WLock(it), Collecting(ReadDir), map[], [], a + 1);
    var s3 := During(k, a, Retry(a), WLock(it), Collecting(ReadDir), map[], [], a + 1);
    DuringShape(c, k, a, Waiting(a, false), WSend(it, a + 1, true), Wiping(ReadFile, {k}), m, [], a);
    DuringShape(c, k, a, GotTicket(a, a + 1), WLock(it), Wiping(ReadFile, {k}), m, [], a);
    DuringShape(c, k, a, GotTicket(a, a + 1), WLock(it), Collecting(ReadDir), map[], [], a + 1);
    Updates(a, WSend(it, a + 1, true), WLock(it), Wiping(ReadFile, {k}), Collecting(ReadDir));
    assert Apply(c, s0, WorkerStep(a + 1)) == s1;
    assert m - {k} == map[] && {k} * m.Keys == {k};
    assert Apply(c, s1, ClearStep(a)) == s2;
    assert Apply(c, s2, CallStep(0)) == s3;
    Three(c, s0, WorkerStep(a + 1), s1, ClearStep(a), s2, CallStep(0), s3);
  }

  function AttemptSteps(a: nat): seq<Step> {
    [CallStep(0), CallStep(0), WorkerStep(a + 1)] + [WorkerStep(a + 1), ClearStep(a), ClearStep(a)]
    + [WorkerStep(a + 1), ClearStep(a), CallStep(0)]
  }

  lemma Attempt(c: Config, path: Bytes, hash: Bytes -> nat, k: Slot, a: nat)
    requires c == Example(path, hash) && k == Slot(ReadFile, path) && a < 3
    ensures RunFrom(c, During(k, a, AtGet(a), WIdle, ClearIdle, map[], [], a), AttemptSteps(a))
      == Some(During(k, a, Retry(a), WLock(Item(0, a)), Collecting(ReadDir), map[], [], a + 1))
  {
    var s := During(k, a, AtGet(a), WIdle, ClearIdle, map[], [], a);
    var x, y := [CallStep(0), CallStep(0), WorkerStep(a + 1)], [WorkerStep(a + 1), ClearStep(a), ClearStep(a)];
    var z := [WorkerStep(a + 1), ClearStep(a), CallStep(0)];
    Ask(c, path, hash, k, a);
    Insert(c, path, hash, k, a);
    Lose(c, path, hash, k, a);
    RunAppend(c, s, x, y);
    RunAppend(c, s, x + y, z);
  }

  /** The next attempt starts where this one ends. */
  lemma NextAttempt(k: Slot, a: nat)
    requires a < 2
    ensures During(k, a, Retry(a), WLock(Item(0, a)), Collecting(ReadDir), map[], [], a + 1)
      == During(k, a + 1, AtGet(a + 1), WIdle, ClearIdle, map[], [], a + 1)
  {
    assert Workers(a, WLock(Item(0, a))) == Workers(a + 1, WIdle);
    assert Clears(a, Collecting(ReadDir)) == Clears(a + 1, ClearIdle);
  }

  lemma Begins(c: Config, path: Bytes, hash: Bytes -> nat, k: Slot)
    requires c == Example(path, hash)
    ensures RunFrom(c, Init(c), [Begin(0)]) == Some(During(k, 0, AtGet(0), WIdle, ClearIdle, map[], [], 0))
  {
    var s, s' := Init(c), During(k, 0, AtGet(0), WIdle, ClearIdle, map[], [], 0);
    assert s.calls == [Idle] && s.marks == [Mark(0, 0)] && s.locks == s'.locks;
    assert s.workers == s'.workers && s.clears == s'.clears;
    assert Shape(c, s) && Enabled(c, s, Begin(0)) && Apply(c, s, Begin(0)) == s';
    assert [Begin(0)][1..] == [];
    assert RunFrom(c, s', []) == Some(s');
  }

  /** With three deletions of its entry by others, a call can fail although no answer was bad:
      the bound of `RetryBudget` is exact, for every path. */
  lemma BudgetIsTight(path: Bytes, hash: Bytes -> nat) returns (states: seq<State>, steps: seq<Step>)
    ensures var c := Example(path, hash); var k := Slot(ReadFile, path);
      && Behavior(c, states, steps) && KeysMatch(c)
      && var s := states[|steps|];
      && |s.calls| == 1 == |s.marks| && s.calls[0] == Done(Exhausted)
      && GoodAnswers(c, states, steps, |steps|, k) && ForeignSince(s, k, 0) == RETRY_ATTEMPTS == 3
  {
    var c, k := Example(path, hash), Slot(ReadFile, path);
    Begins(c, path, hash, k);
    Attempt(c, path, hash, k, 0);
    Attempt(c, path, hash, k, 1);
    Attempt(c, path, hash, k, 2);
    NextAttempt(k, 0);
    NextAttempt(k, 1);
    var b, x, y, z := [Begin(0)], AttemptSteps(0), AttemptSteps(1), AttemptSteps(2);
    RunAppend(c, Init(c), b, x);
    RunAppend(c, Init(c), b + x, y);
    RunAppend(c, Init(c), b + x + y, z);
    steps := b + x + y + z;
    states := RunIsBehavior(c, Init(c), steps);
    ThreeForeign(k);
    GoodLog(c, states, steps, |steps|, k);
  }

  lemma ThreeForeign(k: Slot)
    ensures Foreign(Dels(k, 3), 0, k, 0) == 3
  {
    ForeignSnoc(Dels(k, 0), Deletion({k}, AClear(0)), 0, k, 0);
    ForeignSnoc(Dels(k, 1), Deletion({k}, AClear(1)), 0, k, 0);
    ForeignSnoc(Dels(k, 2), Deletion({k}, AClear(2)), 0, k, 0);
  }
}
