/** What `ClearCache` does in a run: it removes every slot that is not inserted anew meanwhile, and
    a call that begins on a removed slot gets an answer that the backend gives after that. */
module ProtocolClear {
  import opened Base
  import opened SyncCacheModel
  import opened Protocol
  import opened ProtocolHistory
  import opened ProtocolInvariant
  import opened ProtocolSoundness
  import opened ProtocolBudget
  import opened ProtocolHits

  // ------------------------------------------------------------------------ clearing

  function Order(k: Kind): nat {
    match k
    case ReadFile => 0
    case ReadDir => 1
    case DecryptName => 2
  }

  /** The clear has finished with the cache of `k`. */
  predicate PastKind(pc: ClearPc, k: Kind) {
    match pc
    case ClearIdle => false
    case Collecting(x) => Order(x) > Order(k)
    case Wiping(x, _) => Order(x) > Order(k)
    case ClearDone => true
  }

  /** Slot `k` is inserted in step `x`. */
  predicate Appears(states: seq<State>, x: nat, k: Slot)
    requires x + 1 < |states|
  {
    k !in states[x].cache && k in states[x + 1].cache
  }

  /** What a clear knows of a slot that does not appear while it runs. */
  predicate ClearKnows(s: State, pc: ClearPc, k: Slot) {
    && (PastKind(pc, k.kind) ==> k !in s.cache)
    && (pc.Wiping? && pc.kind == k.kind && k in s.cache ==> k in pc.slots)
  }

  lemma ClearStepKnows(c: Config, s: State, st: Step, j: nat, k: Slot)
    requires Shape(c, s) && Enabled(c, s, st) && j < |s.clears| && ClearKnows(s, s.clears[j], k)
    requires k in Apply(c, s, st).cache ==> k in s.cache
    ensures j < |Apply(c, s, st).clears| && ClearKnows(Apply(c, s, st), Apply(c, s, st).clears[j], k)
  {
    if st.CallStep? {
      assert ApplyCall(c, s, st.i).clears == s.clears;
    } else if st.WorkerStep? {
      assert ApplyWorker(c, s, st.w).clears == s.clears;
    }
  }

  lemma {:induction false} ClearKnowsAlong(c: Config, states: seq<State>, steps: seq<Step>, m: nat, n: nat, j: nat,
                                         k: Slot)
    requires Behavior(c, states, steps) && m <= n < |states|
    requires j < |states[m].clears| && states[m].clears[j] == ClearIdle
    requires forall x :: m <= x < n ==> !Appears(states, x, k)
    ensures j < |states[n].clears| && ClearKnows(states[n], states[n].clears[j], k)
    decreases n
  {
    if m < n {
      var p := n - 1;
      ClearKnowsAlong(c, states, steps, m, p, j, k);
      assert !Appears(states, p, k);
      assert Next(c, states[p], steps[p], states[p + 1]);
      ClearStepKnows(c, states[p], steps[p], j, k);
    }
  }

  /** `ClearCache` clears: a slot of any kind that is not inserted while the clear runs, from its
      start in state `m` to its end in state `n`, is not cached when it is done. */
  lemma ClearWipes(c: Config, states: seq<State>, steps: seq<Step>, m: nat, n: nat, j: nat, k: Slot)
    requires Behavior(c, states, steps) && m <= n < |states|
    requires j < |states[m].clears| && states[m].clears[j] == ClearIdle
    requires j < |states[n].clears| && states[n].clears[j] == ClearDone
    requires forall x :: m <= x < n ==> !Appears(states, x, k)
    ensures k !in states[n].cache
  {
    ClearKnowsAlong(c, states, steps, m, n, j, k);
  }

  /** What removes an entry: its own call's delete, or a clear that has listed it. */
  lemma RemovedBy(c: Config, s: State, st: Step, k: Slot)
    requires Shape(c, s) && Enabled(c, s, st) && k in s.cache && k !in Apply(c, s, st).cache
    ensures match st
      case CallStep(i) => s.calls[i].AtDelete? && ClientSlot(c, c.reqs[i]) == k
      case ClearStep(j) => s.clears[j].Wiping? && k in s.clears[j].slots
      case _ => false
  {
  }

  lemma {:induction false} ListedBefore(c: Config, states: seq<State>, steps: seq<Step>, n: nat, j: nat, k: Slot)
    returns (q: nat)
    requires Behavior(c, states, steps) && n < |states| && j < |states[n].clears|
    requires states[n].clears[j].Wiping? && k in states[n].clears[j].slots
    ensures q < n && steps[q] == ClearStep(j) && j < |states[q].clears| && states[q].clears[j] == Collecting(k.kind)
    ensures k in states[q].cache
    decreases n
  {
    assert n > 0;
    var s, st := states[n - 1], steps[n - 1];
    assert Next(c, s, st, states[n - 1 + 1]);
    if st == ClearStep(j) {
      q := n - 1;
    } else {
      assert states[n].clears[j] == s.clears[j] by {
        if st.CallStep? {
          assert ApplyCall(c, s, st.i).clears == s.clears;
        } else if st.WorkerStep? {
          assert ApplyWorker(c, s, st.w).clears == s.clears;
        }
      }
      q := ListedBefore(c, states, steps, n - 1, j, k);
    }
  }

  /** A clear removes only what it found when it listed that cache: an entry that was not there
      then stays, although its cache is wiped later. */
  lemma ClearSparesNew(c: Config, states: seq<State>, steps: seq<Step>, p: nat, j: nat, k: Slot) returns (q: nat)
    requires Behavior(c, states, steps) && p < |steps| && steps[p] == ClearStep(j)
    requires k in states[p].cache && k !in states[p + 1].cache
    ensures q < p && steps[q] == ClearStep(j) && j < |states[q].clears| && states[q].clears[j] == Collecting(k.kind)
    ensures k in states[q].cache
  {
    assert Next(c, states[p], steps[p], states[p + 1]);
    RemovedBy(c, states[p], steps[p], k);
    q := ListedBefore(c, states, steps, p, j, k);
  }

  /** How many steps a clear has taken. */
  function Progress(pc: ClearPc): nat {
    match pc
    case ClearIdle => 0
    case Collecting(k) => 2 * Order(k) + 1
    case Wiping(k, _) => 2 * Order(k) + 2
    case ClearDone => 7
  }

  lemma {:induction false} AloneProgress(c: Config, states: seq<State>, steps: seq<Step>, m: nat, n: nat, j: nat)
    requires Behavior(c, states, steps) && m <= n < |states|
    requires j < |states[m].clears| && states[m].clears[j] == ClearIdle
    requires forall x :: m <= x < n ==> steps[x] == ClearStep(j)
    ensures j < |states[n].clears| && Progress(states[n].clears[j]) == n - m
    ensures forall x, k :: m <= x < n ==> !Appears(states, x, k)
    decreases n
  {
    if m < n {
      var p := n - 1;
      AloneProgress(c, states, steps, m, p, j);
      assert Next(c, states[p], steps[p], states[p + 1]);
      assert states[p + 1].cache.Keys <= states[p].cache.Keys;
    }
  }

  /** A clear that runs alone is done after seven steps and leaves all three caches empty. */
  lemma ClearAlone(c: Config, states: seq<State>, steps: seq<Step>, m: nat, j: nat)
    requires Behavior(c, states, steps) && m + 7 < |states|
    requires j < |states[m].clears| && states[m].clears[j] == ClearIdle
    requires forall x :: m <= x < m + 7 ==> steps[x] == ClearStep(j)
    ensures j < |states[m + 7].clears| && states[m + 7].clears[j] == ClearDone && states[m + 7].cache == map[]
  {
    AloneProgress(c, states, steps, m, m + 7, j);
    var left := states[m + 7].cache;
    if left.Keys != {} {
      var k :| k in left.Keys;
      ClearWipes(c, states, steps, m, m + 7, j, k);
    }
  }

  // ---------------------------------------------------------------- new requests after that

  /** Everything that can reach call `i` through slot `k` is from log entries `start` onwards. */
  ghost predicate SinceInv(c: Config, s: State, k: Slot, i: nat, start: nat)
    requires Shape(c, s)
  {
    && start <= |s.log| && i < |s.calls|
    && (k in s.cache ==> EntrySound(c, s.log[start..], k, s.cache[k]))
    && (forall w :: 0 <= w < |s.workers| && InFlight(c, s.workers[w], k) ==>
          WorkerSound(c, s.log[start..], s.workers[w]))
    && CallSound(c, s.log[start..], k, s.calls[i])
  }

  lemma AnswerSince(c: Config, s: State, st: Step, k: Slot, i: nat, start: nat)
    requires Shape(c, s) && SinceInv(c, s, k, i, start) && Enabled(c, s, st) && st.Answer?
    requires Shape(c, Apply(c, s, st))
    ensures SinceInv(c, Apply(c, s, st), k, i, start)
  {
    var s' := Apply(c, s, st);
    var b := s'.log[|s.log|];
    assert s'.log[start..] == s.log[start..] + [b];
    if k in s.cache { EntrySoundGrows(c, s.log[start..], b, k, s.cache[k]); }
    CallSoundGrows(c, s.log[start..], b, k, s.calls[i]);
    forall w | 0 <= w < |s'.workers| && InFlight(c, s'.workers[w], k)
      ensures WorkerSound(c, s'.log[start..], s'.workers[w])
    {
      if w == st.w {
        assert s'.log[start..][|s.log| - start] == b;
      } else {
        WorkerSoundGrows(c, s.log[start..], b, s.workers[w]);
      }
    }
  }

  lemma WorkerSince(c: Config, s: State, w: nat, k: Slot, i: nat, start: nat)
    requires Shape(c, s) && SinceInv(c, s, k, i, start) && 1 <= w < |s.workers| && WorkerEnabled(s, w, s.workers[w])
    requires Shape(c, ApplyWorker(c, s, w))
    ensures SinceInv(c, ApplyWorker(c, s, w), k, i, start)
  {
    var s' := ApplyWorker(c, s, w);
    WorkerStepCalls(c, s, w);
    assert CallSound(c, s.log[start..], k, s'.calls[i]);
    assert !s'.workers[w].WSet?;
    assert k in s'.cache ==> EntrySound(c, s.log[start..], k, s'.cache[k]);
  }

  lemma NextSince(c: Config, s: State, st: Step, k: Slot, i: nat, start: nat)
    requires Shape(c, s) && SinceInv(c, s, k, i, start) && Enabled(c, s, st) && Shape(c, Apply(c, s, st))
    requires i < |c.reqs| && ClientSlot(c, c.reqs[i]) == k
    ensures SinceInv(c, Apply(c, s, st), k, i, start)
  {
    if st.Answer? {
      AnswerSince(c, s, st, k, i, start);
    } else if st.WorkerStep? {
      WorkerSince(c, s, st.w, k, i, start);
    } else {
      var s' := Apply(c, s, st);
      assert s'.workers == s.workers && s'.log == s.log && s'.cache.Keys <= s.cache.Keys by {
        if st.CallStep? {
          var t := ApplyCall(c, s, st.i);
          assert t.workers == s.workers && t.log == s.log && t.cache.Keys <= s.cache.Keys;
        }
      }
      assert k in s'.cache ==> s'.cache[k] == s.cache[k];
      if st != CallStep(i) { OtherStepPc(c, s, st, i); }
    }
  }

  ghost predicate SinceAt(c: Config, s: State, k: Slot, i: nat, start: nat) {
    Shape(c, s) && SinceInv(c, s, k, i, start)
  }

  lemma SinceStart(c: Config, states: seq<State>, steps: seq<Step>, m: nat, k: Slot, i: nat)
    requires Behavior(c, states, steps) && m < |states| && i < |states[m].calls| && states[m].calls[i] == Idle
    requires k !in states[m].cache && NothingPending(c, states[m], k)
    ensures SinceAt(c, states[m], k, i, |states[m].log|)
  {
    ReachableInv(c, states, steps, m);
  }

  lemma SinceNext(c: Config, states: seq<State>, steps: seq<Step>, p: nat, k: Slot, i: nat, start: nat)
    requires Behavior(c, states, steps) && p < |steps| && i < |c.reqs| && ClientSlot(c, c.reqs[i]) == k
    requires SinceAt(c, states[p], k, i, start)
    ensures SinceAt(c, states[p + 1], k, i, start)
  {
    assert Next(c, states[p], steps[p], states[p + 1]);
    assert Shape(c, states[p + 1]) by { ReachableInv(c, states, steps, p + 1); }
    NextSince(c, states[p], steps[p], k, i, start);
  }

  lemma {:induction false} SinceAlong(c: Config, states: seq<State>, steps: seq<Step>, m: nat, n: nat, k: Slot, i: nat)
    requires Behavior(c, states, steps) && m <= n < |states| && i < |c.reqs| && ClientSlot(c, c.reqs[i]) == k
    requires i < |states[m].calls| && states[m].calls[i] == Idle && k !in states[m].cache
    requires NothingPending(c, states[m], k)
    ensures SinceAt(c, states[n], k, i, |states[m].log|)
    decreases n
  {
    if m < n {
      SinceAlong(c, states, steps, m, n - 1, k, i);
      SinceNext(c, states, steps, n - 1, k, i, |states[m].log|);
    } else {
      SinceStart(c, states, steps, m, k, i);
    }
  }

  /** No worker has an answer for `k` that it has not written yet. */
  ghost predicate NothingPending(c: Config, s: State, k: Slot) {
    forall w :: 0 <= w < |s.workers| && s.workers[w].WSet? ==> !InFlight(c, s.workers[w], k)
  }

  /** A call that begins while its slot is not cached, and no old answer is about to be written,
      gets its data or error from an answer that the backend gives afterwards, in step `p`. */
  lemma AnsweredAfterwards(c: Config, states: seq<State>, steps: seq<Step>, m: nat, n: nat, i: nat) returns (p: nat)
    requires Behavior(c, states, steps) && m <= n < |states| && i < |c.reqs| && i < |states[m].calls|
    requires states[m].calls[i] == Idle && ClientSlot(c, c.reqs[i]) !in states[m].cache
    requires NothingPending(c, states[m], ClientSlot(c, c.reqs[i]))
    requires i < |states[n].calls| && states[n].calls[i].Done?
    requires states[n].calls[i].outcome.Returned? || states[n].calls[i].outcome.Failed?
    ensures m <= p < n && SaidOn(c, states[p], steps[p], ClientSlot(c, c.reqs[i]))
    ensures match states[n].calls[i].outcome
      case Returned(d) => steps[p].raw == d && Size(d) > 0
      case Failed(e) => steps[p].err == Some(e)
      case _ => true
  {
    var k, o, start := ClientSlot(c, c.reqs[i]), states[n].calls[i].outcome, |states[m].log|;
    SinceAlong(c, states, steps, m, n, k, i);
    var log := states[n].log[start..];
    assert CallSound(c, log, k, states[n].calls[i]);
    var x: nat;
    if o.Returned? {
      x :| 0 <= x < |log| && WorkerSlot(c, log[x].req) == k && log[x].data == o.data && Size(o.data) > 0;
    } else {
      x :| 0 <= x < |log| && WorkerSlot(c, log[x].req) == k && log[x].err == Some(o.err);
    }
    p := LogEntryStep(c, states, steps, n, start + x);
    if p < m { AnswerStaysLogged(c, states, steps, p, m); }
  }

  /** After `ClearCache`: a call that begins once the clear is done, on a slot that was not
      inserted meanwhile, gets an answer to a new backend request. */
  lemma NewRequestAfterClear(c: Config, states: seq<State>, steps: seq<Step>, l: nat, m: nat, n: nat, j: nat, i: nat)
    returns (p: nat)
    requires Behavior(c, states, steps) && l <= m <= n < |states| && i < |c.reqs| && i < |states[m].calls|
    requires j < |states[l].clears| && states[l].clears[j] == ClearIdle
    requires j < |states[m].clears| && states[m].clears[j] == ClearDone
    requires forall x :: l <= x < m ==> !Appears(states, x, ClientSlot(c, c.reqs[i]))
    requires states[m].calls[i] == Idle && NothingPending(c, states[m], ClientSlot(c, c.reqs[i]))
    requires i < |states[n].calls| && states[n].calls[i].Done?
    requires states[n].calls[i].outcome.Returned? || states[n].calls[i].outcome.Failed?
    ensures m <= p < n && SaidOn(c, states[p], steps[p], ClientSlot(c, c.reqs[i]))
    ensures match states[n].calls[i].outcome
      case Returned(d) => steps[p].raw == d
      case Failed(e) => steps[p].err == Some(e)
      case _ => true
  {
    ClearWipes(c, states, steps, l, m, j, ClientSlot(c, c.reqs[i]));
    p := AnsweredAfterwards(c, states, steps, m, n, i);
  }
}
