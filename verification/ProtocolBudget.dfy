/** The retry budget and single flight: on a slot whose backend answers are non-empty and
    error-free, every failed attempt contains a deletion of the entry by somebody else. */
module ProtocolBudget {
  import opened Base
  import opened SyncCacheModel
  import opened Protocol
  import opened ProtocolHistory
  import opened ProtocolInvariant
  import opened ProtocolSoundness

  /** Every backend answer on slot `k` so far is non-empty and error-free. */
  ghost predicate Good(c: Config, log: seq<BackendCall>, k: Slot) {
    forall n :: 0 <= n < |log| && WorkerSlot(c, log[n].req) == k ==> Size(log[n].data) > 0 && log[n].err.None?
  }

  /** Every answer on slot `k` in the first `n` steps is non-empty and error-free. */
  ghost predicate GoodAnswers(c: Config, states: seq<State>, steps: seq<Step>, n: nat, k: Slot)
    requires n <= |steps| && n <= |states|
  {
    forall p :: 0 <= p < n && SaidOn(c, states[p], steps[p], k) ==> Size(steps[p].raw) > 0 && steps[p].err.None?
  }

  lemma GoodLog(c: Config, states: seq<State>, steps: seq<Step>, n: nat, k: Slot)
    requires Behavior(c, states, steps) && n < |states|
    ensures GoodAnswers(c, states, steps, n, k) <==> Good(c, states[n].log, k)
  {
    if GoodAnswers(c, states, steps, n, k) {
      forall x | 0 <= x < |states[n].log| && WorkerSlot(c, states[n].log[x].req) == k
        ensures Size(states[n].log[x].data) > 0 && states[n].log[x].err.None?
      {
        var p := LogEntryStep(c, states, steps, n, x);
        assert SaidOn(c, states[p], steps[p], k);
      }
    } else {
      var p :| 0 <= p < n && SaidOn(c, states[p], steps[p], k) && !(Size(steps[p].raw) > 0 && steps[p].err.None?);
      AnswerStaysLogged(c, states, steps, p, n);
    }
  }

  ghost predicate KeysMatch(c: Config) {
    forall i :: 0 <= i < |c.reqs| ==> ClientSlot(c, c.reqs[i]) == WorkerSlot(c, c.reqs[i])
  }

  /** How many of the deletions `dels[start..]` removed `k` and were not made by call `i`. */
  function Foreign(dels: seq<Deletion>, start: nat, k: Slot, i: nat): nat {
    if |dels| <= start then 0
    else
      var last := dels[|dels| - 1];
      Foreign(dels[..|dels| - 1], start, k, i) + if k in last.slots && last.actor != ACall(i) then 1 else 0
  }

  /** Deletions of `k` by others since call `i` began. */
  function ForeignSince(s: State, k: Slot, i: nat): nat
    requires i < |s.marks|
  {
    Foreign(s.dels, s.marks[i].dels, k, i)
  }

  lemma ForeignSnoc(dels: seq<Deletion>, d: Deletion, start: nat, k: Slot, i: nat)
    requires start <= |dels|
    ensures Foreign(dels + [d], start, k, i) ==
      Foreign(dels, start, k, i) + if k in d.slots && d.actor != ACall(i) then 1 else 0
  {
    assert (dels + [d])[..|dels|] == dels;
  }

  // --------------------------------------------------------- one call and one slot

  predicate HasData(look: Option<Entry>) {
    look.Some? && look.value.data.Some?
  }

  /** The entry a ticket was handed out for is still there, or already answered. */
  predicate Present(look: Option<Entry>, t: nat) {
    look.Some? && (look.value.data.Some? || look.value.locker == t)
  }

  predicate GoodLook(look: Option<Entry>) {
    look.Some? ==> look.value.err.None? && (look.value.locker == 0 ==> look.value.data.Some?)
  }

  /** What a call at `pc` can count on: `look` is its slot's entry and `f` the number of
      foreign deletions it has seen. Attempt `a` starts with `f >= a`. */
  predicate CallBudget(look: Option<Entry>, f: nat, pc: CallPc) {
    match pc
    case Idle => true
    case AtGet(a) => f >= a
    case AtEnqueue(a) => f >= a
    case Waiting(a, chanClosed) => f >= a && (chanClosed ==> f > a || HasData(look))
    case GotClose(a) => f >= a && (f > a || HasData(look))
    case AtDelete(a) => f > a
    case AtUnlock(a, t, got) => f >= a && (f > a || HasData(got))
    case Done(o) => o == Exhausted ==> f >= RETRY_ATTEMPTS
    case _ => f >= pc.a && (f > pc.a || Present(look, pc.t))
  }

  predicate OwedBudget(look: Option<Entry>, f: nat, pc: WorkerPc) {
    match pc
    case WSend(it, t, _) => f > it.attempt || Present(look, t)
    case WClose(it) => f > it.attempt || HasData(look)
    case _ => true
  }

  /** How a slot and a call's deletion count can change in one step. */
  predicate Evolves(look: Option<Entry>, f: nat, look': Option<Entry>, f': nat) {
    f' >= f && (look' == look || look.None? || HasData(look') || f' > f)
  }

  lemma CallBudgetFrame(look: Option<Entry>, f: nat, look': Option<Entry>, f': nat, pc: CallPc)
    requires Evolves(look, f, look', f') && CallBudget(look, f, pc)
    ensures CallBudget(look', f', pc)
  {
  }

  lemma CallStepBudget(c: Config, s: State, i: nat, f: nat)
    requires Shape(c, s) && i < |s.calls| && CallEnabled(s, s.calls[i])
    requires var look := Lookup(s.cache, ClientSlot(c, c.reqs[i])); GoodLook(look) && CallBudget(look, f, s.calls[i])
    ensures CallBudget(Lookup(s.cache, ClientSlot(c, c.reqs[i])), f, ApplyCall(c, s, i).calls[i])
    ensures s.calls[i].AtDelete? ==>
      CallBudget(Lookup(ApplyCall(c, s, i).cache, ClientSlot(c, c.reqs[i])), f, ApplyCall(c, s, i).calls[i])
  {
  }

  // ---------------------------------------------------------------- one call over time

  predicate Active(pc: CallPc) {
    !pc.Idle? && !pc.Done?
  }

  /** How a call moves: it begins, stays in its attempt, retries, or finishes, and then stays
      finished. Only its last attempt gives up. */
  predicate PcEvolves(pc: CallPc, pc': CallPc) {
    || pc' == pc
    || (pc.Idle? && pc' == AtGet(0))
    || (Active(pc) && Active(pc') && pc'.a == pc.a)
    || (Active(pc) && (pc' == Retry(pc.a) || (pc'.Done? && pc' != Done(Exhausted))))
  }

  lemma OwnCallEvolves(c: Config, s: State, i: nat)
    requires Shape(c, s) && i < |s.calls| && CallEnabled(s, s.calls[i])
    ensures var s' := ApplyCall(c, s, i);
      && |s'.calls| == |s.calls| && PcEvolves(s.calls[i], s'.calls[i])
      && forall j :: 0 <= j < |s.calls| && j != i ==> s'.calls[j] == s.calls[j]
  {
  }

  lemma WorkerCallEvolves(c: Config, s: State, w: nat, i: nat)
    requires Shape(c, s) && i < |s.calls| && 1 <= w < |s.workers| && WorkerEnabled(s, w, s.workers[w])
    ensures var s' := ApplyWorker(c, s, w); |s'.calls| == |s.calls| && PcEvolves(s.calls[i], s'.calls[i])
  {
  }

  lemma CallEvolves(c: Config, s: State, st: Step, i: nat)
    requires Shape(c, s) && Enabled(c, s, st) && i < |s.calls|
    ensures var s' := Apply(c, s, st); |s'.calls| == |s.calls| && PcEvolves(s.calls[i], s'.calls[i])
  {
    if st.CallStep? {
      OwnCallEvolves(c, s, st.i);
    } else if st.WorkerStep? {
      WorkerCallEvolves(c, s, st.w, i);
    }
  }

  // ------------------------------------------------------------------ the invariant

  /** Deletions of `k` by others since deletion number `start`, on top of `a`. */
  function Paid(s: State, k: Slot, i: nat, start: nat, a: nat): nat {
    Foreign(s.dels, start, k, i) + a
  }

  /** Worker `w` owes a response to call `i`, which waits for it. */
  predicate OwesTo(s: State, w: nat, i: nat)
    requires w < |s.workers| && i < |s.calls|
  {
    Owes(s.workers[w]) && s.workers[w].item.call == i && s.calls[i].Waiting?
  }

  /** Attempt `a` of call `i` began after `start` deletions: ever since, the call's budget
      counts only the deletions made after that. */
  ghost predicate BudgetFrom(c: Config, s: State, k: Slot, i: nat, start: nat, a: nat)
    requires Shape(c, s) && i < |s.calls|
  {
    && start <= |s.dels| && !s.calls[i].Idle?
    && CallBudget(Lookup(s.cache, k), Paid(s, k, i, start, a), s.calls[i])
    && forall w :: 0 <= w < |s.workers| && OwesTo(s, w, i) ==>
         OwedBudget(Lookup(s.cache, k), Paid(s, k, i, start, a), s.workers[w])
  }

  lemma GoodSlotLook(c: Config, s: State, k: Slot)
    requires Shape(c, s) && SoundInv(c, s) && Good(c, s.log, k)
    ensures GoodLook(Lookup(s.cache, k))
  {
    if k in s.cache { assert EntrySound(c, s.log, k, s.cache[k]); }
  }

  lemma GoodGrows(c: Config, s: State, st: Step, k: Slot)
    requires Shape(c, s) && Enabled(c, s, st) && Good(c, Apply(c, s, st).log, k)
    ensures Good(c, s.log, k)
  {
    var log' := Apply(c, s, st).log;
    assert forall n :: 0 <= n < |s.log| ==> log'[n] == s.log[n];
  }

  lemma CallSlotEvolves(c: Config, s: State, j: nat, k: Slot, i: nat, start: nat, a: nat)
    requires Shape(c, s) && j < |s.calls| && CallEnabled(s, s.calls[j]) && start <= |s.dels|
    requires j == i ==> !s.calls[j].AtDelete?
    ensures var s' := ApplyCall(c, s, j);
      && start <= |s'.dels|
      && Evolves(Lookup(s.cache, k), Paid(s, k, i, start, a), Lookup(s'.cache, k), Paid(s', k, i, start, a))
  {
    var s' := ApplyCall(c, s, j);
    if s.calls[j].AtDelete? {
      ForeignSnoc(s.dels, s'.dels[|s.dels|], start, k, i);
    } else {
      assert s'.dels == s.dels && s'.cache == s.cache;
    }
  }

  lemma WorkerSlotEvolves(c: Config, s: State, w: nat, k: Slot)
    requires Shape(c, s) && SoundInv(c, s) && Good(c, s.log, k) && 1 <= w < |s.workers|
    requires WorkerEnabled(s, w, s.workers[w])
    ensures var s' := ApplyWorker(c, s, w); var look, look' := Lookup(s.cache, k), Lookup(s'.cache, k);
      s'.dels == s.dels && (look' == look || look.None? || HasData(look'))
  {
    assert WorkerSound(c, s.log, s.workers[w]);
  }

  lemma ClearSlotEvolves(s: State, j: nat, k: Slot, i: nat, start: nat, a: nat)
    requires j < |s.clears| && s.clears[j] != ClearDone && start <= |s.dels|
    ensures var s' := ApplyClear(s, j);
      && start <= |s'.dels|
      && Evolves(Lookup(s.cache, k), Paid(s, k, i, start, a), Lookup(s'.cache, k), Paid(s', k, i, start, a))
  {
    if s.clears[j].Wiping? {
      ForeignSnoc(s.dels, ApplyClear(s, j).dels[|s.dels|], start, k, i);
    }
  }

  /** Every step moves every slot and every other call's count as `Evolves` says. */
  lemma SlotEvolves(c: Config, s: State, st: Step, k: Slot, i: nat, start: nat, a: nat)
    requires Shape(c, s) && SoundInv(c, s) && Enabled(c, s, st) && start <= |s.dels| && i < |s.calls|
    requires Good(c, s.log, k) && (st == CallStep(i) ==> !s.calls[i].AtDelete?)
    ensures var s' := Apply(c, s, st);
      && start <= |s'.dels|
      && Evolves(Lookup(s.cache, k), Paid(s, k, i, start, a), Lookup(s'.cache, k), Paid(s', k, i, start, a))
  {
    match st
    case CallStep(j) => CallSlotEvolves(c, s, j, k, i, start, a);
    case WorkerStep(w) => WorkerSlotEvolves(c, s, w, k);
    case ClearStep(j) => ClearSlotEvolves(s, j, k, i, start, a);
    case _ =>
  }

  lemma OwnStepBudget(c: Config, s: State, i: nat, k: Slot, start: nat, a: nat)
    requires Shape(c, s) && SoundInv(c, s) && Good(c, s.log, k) && i < |s.calls| && BudgetFrom(c, s, k, i, start, a)
    requires CallEnabled(s, s.calls[i]) && ClientSlot(c, c.reqs[i]) == k
    ensures var s' := ApplyCall(c, s, i);
      start <= |s'.dels| && CallBudget(Lookup(s'.cache, k), Paid(s', k, i, start, a), s'.calls[i])
  {
    var s' := ApplyCall(c, s, i);
    var f := Paid(s, k, i, start, a);
    assert Paid(s', k, i, start, a) == f by {
      if s.calls[i].AtDelete? { ForeignSnoc(s.dels, s'.dels[|s.dels|], start, k, i); }
    }
    assert s.calls[i].AtDelete? || s'.cache == s.cache;
    GoodSlotLook(c, s, k);
    CallStepBudget(c, s, i, f);
  }

  /** A worker's step keeps what the call can count on. */
  lemma WorkerStepBudget(c: Config, s: State, w: nat, k: Slot, i: nat, start: nat, a: nat)
    requires Shape(c, s) && ChannelInv(c, s) && i < |s.calls| && BudgetFrom(c, s, k, i, start, a)
    requires 1 <= w < |s.workers| && WorkerEnabled(s, w, s.workers[w])
    ensures |ApplyWorker(c, s, w).calls| == |s.calls|
    ensures CallBudget(Lookup(s.cache, k), Paid(s, k, i, start, a), ApplyWorker(c, s, w).calls[i])
  {
    var pc := s.workers[w];
    if (pc.WSend? || pc.WClose?) && pc.item.call == i && s.calls[i].Waiting? {
      assert OwesTo(s, w, i);
      assert Awaited(s, pc.item);
    }
  }

  /** A step that is not the call's own keeps its budget, up to what the step does to the slot. */
  lemma CallKeepsBudget(c: Config, s: State, st: Step, k: Slot, i: nat, start: nat, a: nat)
    requires Shape(c, s) && ChannelInv(c, s) && Enabled(c, s, st) && st != CallStep(i)
    requires i < |s.calls| && BudgetFrom(c, s, k, i, start, a)
    ensures var s' := Apply(c, s, st);
      |s'.calls| == |s.calls| && CallBudget(Lookup(s.cache, k), Paid(s, k, i, start, a), s'.calls[i])
  {
    if st.WorkerStep? {
      WorkerStepBudget(c, s, st.w, k, i, start, a);
    } else if st.CallStep? {
      OwnCallEvolves(c, s, st.i);
    }
  }

  lemma CallNextBudget(c: Config, s: State, st: Step, k: Slot, i: nat, start: nat, a: nat)
    requires Shape(c, s) && ChannelInv(c, s) && SoundInv(c, s) && Enabled(c, s, st) && Good(c, s.log, k)
    requires i < |s.calls| && ClientSlot(c, c.reqs[i]) == k && BudgetFrom(c, s, k, i, start, a)
    ensures var s' := Apply(c, s, st);
      && |s'.calls| == |s.calls| && start <= |s'.dels| && !s'.calls[i].Idle?
      && CallBudget(Lookup(s'.cache, k), Paid(s', k, i, start, a), s'.calls[i])
  {
    CallEvolves(c, s, st, i);
    if st == CallStep(i) {
      OwnStepBudget(c, s, i, k, start, a);
    } else {
      var s' := Apply(c, s, st);
      CallKeepsBudget(c, s, st, k, i, start, a);
      SlotEvolves(c, s, st, k, i, start, a);
      CallBudgetFrame(Lookup(s.cache, k), Paid(s, k, i, start, a),
                      Lookup(s'.cache, k), Paid(s', k, i, start, a), s'.calls[i]);
    }
  }

  /** A worker that has just looked up the slot owes a response the slot supports. */
  lemma LookupBudget(c: Config, s: State, w: nat, k: Slot, f: nat)
    requires Shape(c, s) && KeysMatch(c) && GoodLook(Lookup(s.cache, k))
    requires 1 <= w < |s.workers| && s.workers[w].WGot?
    requires ClientSlot(c, c.reqs[s.workers[w].item.call]) == k
    ensures OwedBudget(Lookup(ApplyWorker(c, s, w).cache, k), f, ApplyWorker(c, s, w).workers[w])
  {
    assert WorkerSlot(c, c.reqs[s.workers[w].item.call]) == k;
  }

  /** Only a worker's own step changes its program counter. */
  lemma OthersStay(c: Config, s: State, st: Step, w: nat)
    requires Shape(c, s) && Enabled(c, s, st) && w < |s.workers|
    requires st != WorkerStep(w) && !(st.Answer? && st.w == w)
    ensures Apply(c, s, st).workers[w] == s.workers[w]
  {
    if st.WorkerStep? {
      WorkerStepCalls(c, s, st.w);
    } else if st.CallStep? {
      assert ApplyCall(c, s, st.i).workers == s.workers;
    }
  }

  lemma OwedBudgetFrame(look: Option<Entry>, f: nat, look': Option<Entry>, f': nat, pc: WorkerPc)
    requires Evolves(look, f, look', f') && OwedBudget(look, f, pc) && (Owes(pc) ==> f >= pc.item.attempt)
    ensures OwedBudget(look', f', pc)
  {
  }

  /** A call that a worker owes and that waits after a step of others has waited before. */
  lemma OwedBefore(c: Config, s: State, w: nat, i: nat, pc': CallPc)
    requires Shape(c, s) && ChannelInv(c, s) && w < |s.workers| && i < |s.calls|
    requires Owes(s.workers[w]) && s.workers[w].item.call == i && pc'.Waiting? && PcEvolves(s.calls[i], pc')
    ensures s.calls[i] == Waiting(s.workers[w].item.attempt, false)
  {
    assert Awaited(s, s.workers[w].item);
  }

  lemma OwedNextBudget(c: Config, s: State, st: Step, k: Slot, w: nat, i: nat, start: nat, a: nat)
    requires Shape(c, s) && ChannelInv(c, s) && SoundInv(c, s) && Enabled(c, s, st) && Good(c, s.log, k)
    requires KeysMatch(c) && i < |s.calls| && ClientSlot(c, c.reqs[i]) == k && BudgetFrom(c, s, k, i, start, a)
    requires Shape(c, Apply(c, s, st)) && w < |s.workers| && OwesTo(Apply(c, s, st), w, i)
    ensures var s' := Apply(c, s, st);
      OwedBudget(Lookup(s'.cache, k), Paid(s', k, i, start, a), s'.workers[w])
  {
    var s' := Apply(c, s, st);
    if st == WorkerStep(w) {
      if s.workers[w].WGot? {
        GoodSlotLook(c, s, k);
        LookupBudget(c, s, w, k, Paid(s', k, i, start, a));
      }
    } else if !st.Answer? || st.w != w {
      OwedStays(c, s, st, k, w, i, start, a);
      SlotEvolves(c, s, st, k, i, start, a);
      OwedBudgetFrame(Lookup(s.cache, k), Paid(s, k, i, start, a),
                      Lookup(s'.cache, k), Paid(s', k, i, start, a), s.workers[w]);
    }
  }

  /** A step that is not the worker's own leaves what it owes alone. */
  lemma OwedStays(c: Config, s: State, st: Step, k: Slot, w: nat, i: nat, start: nat, a: nat)
    requires Shape(c, s) && ChannelInv(c, s) && Enabled(c, s, st) && i < |s.calls| && w < |s.workers|
    requires BudgetFrom(c, s, k, i, start, a) && st != WorkerStep(w) && !(st.Answer? && st.w == w)
    requires Shape(c, Apply(c, s, st)) && OwesTo(Apply(c, s, st), w, i)
    ensures Apply(c, s, st).workers[w] == s.workers[w] && Owes(s.workers[w])
    ensures OwedBudget(Lookup(s.cache, k), Paid(s, k, i, start, a), s.workers[w])
    ensures Paid(s, k, i, start, a) >= s.workers[w].item.attempt
  {
    OthersStay(c, s, st, w);
    CallEvolves(c, s, st, i);
    OwedBefore(c, s, w, i, Apply(c, s, st).calls[i]);
    assert OwesTo(s, w, i);
  }

  lemma NextBudget(c: Config, s: State, st: Step, k: Slot, i: nat, start: nat, a: nat)
    requires Shape(c, s) && ChannelInv(c, s) && SoundInv(c, s) && Enabled(c, s, st) && Good(c, s.log, k)
    requires KeysMatch(c) && i < |s.calls| && ClientSlot(c, c.reqs[i]) == k && BudgetFrom(c, s, k, i, start, a)
    requires Shape(c, Apply(c, s, st))
    ensures BudgetFrom(c, Apply(c, s, st), k, i, start, a)
  {
    var s' := Apply(c, s, st);
    CallNextBudget(c, s, st, k, i, start, a);
    forall w | 0 <= w < |s'.workers| && OwesTo(s', w, i)
      ensures OwedBudget(Lookup(s'.cache, k), Paid(s', k, i, start, a), s'.workers[w])
    {
      OwedNextBudget(c, s, st, k, w, i, start, a);
    }
  }

  /** The budget of attempt `a`, which starts in state `m`, in every later state `n`. */
  lemma {:induction false} BudgetSince(
    c: Config, states: seq<State>, steps: seq<Step>, m: nat, n: nat, i: nat, a: nat, k: Slot)
    requires Behavior(c, states, steps) && m <= n < |states| && KeysMatch(c)
    requires i < |c.reqs| && ClientSlot(c, c.reqs[i]) == k && Good(c, states[n].log, k)
    requires i < |states[m].calls| && states[m].calls[i] == AtGet(a)
    ensures Shape(c, states[n]) && i < |states[n].calls|
    ensures BudgetFrom(c, states[n], k, i, |states[m].dels|, a)
    decreases n
  {
    assert Shape(c, states[n]) by { ReachableInv(c, states, steps, n); }
    if m < n {
      var p := n - 1;
      assert Next(c, states[p], steps[p], states[p + 1]);
      GoodGrows(c, states[p], steps[p], k);
      BudgetSince(c, states, steps, m, p, i, a, k);
      assert SoundInv(c, states[p]) by { ReachableSound(c, states, steps, p); }
      assert ChannelInv(c, states[p]) by { ReachableInv(c, states, steps, p); }
      NextBudget(c, states[p], steps[p], k, i, |states[m].dels|, a);
    }
  }

  // -------------------------------------------------------------------- what is paid

  /** Attempts are paid for one by one: counting only from the start of attempt `a`, a call
      that has gone `d` attempts further has seen `d` deletions of its entry by others, and
      one that gives up has seen one for each attempt it had left. */
  lemma AttemptsArePaidFor(c: Config, states: seq<State>, steps: seq<Step>, m: nat, n: nat, i: nat, a: nat)
    requires Behavior(c, states, steps) && m <= n < |states| && KeysMatch(c)
    requires i < |c.reqs| && GoodAnswers(c, states, steps, n, ClientSlot(c, c.reqs[i]))
    requires i < |states[m].calls| && states[m].calls[i] == AtGet(a)
    ensures i < |states[n].calls|
    ensures var pc := states[n].calls[i];
      var f := Foreign(states[n].dels, |states[m].dels|, ClientSlot(c, c.reqs[i]), i);
      && (!pc.Idle? && !pc.Done? ==> a + f >= pc.a)
      && (pc.AtDelete? ==> a + f > pc.a)
      && (pc == Done(Exhausted) ==> a + f >= RETRY_ATTEMPTS)
  {
    GoodLog(c, states, steps, n, ClientSlot(c, c.reqs[i]));
    BudgetSince(c, states, steps, m, n, i, a, ClientSlot(c, c.reqs[i]));
  }

  /** Every failed attempt contains its own deletion: between the state in which attempt `a`
      starts and the one in which the call goes on to the next attempt or gives up, somebody
      else has deleted the entry. */
  lemma FailedAttemptHasOwnDeletion(c: Config, states: seq<State>, steps: seq<Step>, m: nat, n: nat, i: nat, a: nat)
    requires Behavior(c, states, steps) && m <= n < |states| && KeysMatch(c)
    requires i < |c.reqs| && GoodAnswers(c, states, steps, n, ClientSlot(c, c.reqs[i]))
    requires i < |states[m].calls| && states[m].calls[i] == AtGet(a)
    requires i < |states[n].calls| && states[n].calls[i] == Retry(a)
    ensures Foreign(states[n].dels, |states[m].dels|, ClientSlot(c, c.reqs[i]), i) >= 1
  {
    AttemptsArePaidFor(c, states, steps, m, n, i, a);
    assert Shape(c, states[m]) by { ReachableInv(c, states, steps, m); }
    assert CallShape(c, states[m].calls[i]);
  }

  /** The call has started attempt `a`. */
  predicate Started(pc: CallPc, a: nat) {
    (!pc.Idle? && !pc.Done? && pc.a >= a) || pc == Done(Exhausted)
  }

  lemma StartsInOrder(pc: CallPc, pc': CallPc, a: nat)
    requires PcEvolves(pc, pc') && a < RETRY_ATTEMPTS && Started(pc', a)
    ensures Started(pc, a) || pc' == AtGet(a)
  {
  }

  /** Every attempt has a state in which it starts. */
  lemma {:induction false} AttemptStart(c: Config, states: seq<State>, steps: seq<Step>, n: nat, i: nat,
                                        a: nat) returns (m: nat)
    requires Behavior(c, states, steps) && n < |states| && i < |states[n].calls| && a < RETRY_ATTEMPTS
    requires Started(states[n].calls[i], a)
    ensures m <= n && i < |states[m].calls| && states[m].calls[i] == AtGet(a)
    decreases n
  {
    if states[n].calls[i] == AtGet(a) {
      m := n;
    } else {
      assert n > 0;
      var p := n - 1;
      assert Next(c, states[p], steps[p], states[p + 1]);
      CallEvolves(c, states[p], steps[p], i);
      StartsInOrder(states[p].calls[i], states[n].calls[i], a);
      m := AttemptStart(c, states, steps, p, i, a);
    }
  }

  /** A call that gives up ran three attempts one after the other, and somebody else deleted
      its entry in each of them. */
  lemma ThreeDisjointDeletions(c: Config, states: seq<State>, steps: seq<Step>, n: nat, i: nat)
    returns (m0: nat, m1: nat, m2: nat)
    requires Behavior(c, states, steps) && n < |states| && KeysMatch(c)
    requires i < |states[n].calls| && i < |c.reqs| && states[n].calls[i] == Done(Exhausted)
    requires GoodAnswers(c, states, steps, n, ClientSlot(c, c.reqs[i]))
    ensures m0 < m1 < m2 < n
    ensures var k := ClientSlot(c, c.reqs[i]);
      && Foreign(states[m1].dels, |states[m0].dels|, k, i) >= 1
      && Foreign(states[m2].dels, |states[m1].dels|, k, i) >= 1
      && Foreign(states[n].dels, |states[m2].dels|, k, i) >= 1
  {
    var k := ClientSlot(c, c.reqs[i]);
    m2 := AttemptStart(c, states, steps, n, i, 2);
    m1 := AttemptStart(c, states, steps, m2, i, 1);
    m0 := AttemptStart(c, states, steps, m1, i, 0);
    FailedAttemptHasOwnDeletion(c, states, steps, m0, m1, i, 0);
    FailedAttemptHasOwnDeletion(c, states, steps, m1, m2, i, 1);
    FailedAttemptHasOwnDeletion(c, states, steps, m2, n, i, 2);
  }

  /** A call that has begun did so in some state, and its mark says which. */
  lemma {:induction false} CallBegan(c: Config, states: seq<State>, steps: seq<Step>, n: nat, i: nat) returns (m: nat)
    requires Behavior(c, states, steps) && n < |states| && i < |states[n].calls| && i < |states[n].marks|
    requires !states[n].calls[i].Idle?
    ensures m <= n && i < |states[m].calls| && states[m].calls[i] == AtGet(0)
    ensures Mark(|states[m].pubs|, |states[m].dels|) == states[n].marks[i]
    decreases n
  {
    assert n > 0;
    var p := n - 1;
    assert Next(c, states[p], steps[p], states[p + 1]);
    if steps[p] == Begin(i) {
      m := n;
    } else {
      m := CallBegan(c, states, steps, p, i);
    }
  }

  /** Retry budget: on a slot with only good answers, a call that is done returned data,
      unless others deleted its entry at least three times while it ran. */
  lemma RetryBudget(c: Config, states: seq<State>, steps: seq<Step>, n: nat, i: nat)
    requires Behavior(c, states, steps) && n < |states| && KeysMatch(c)
    requires i < |states[n].calls| && i < |c.reqs| && i < |states[n].marks|
    requires GoodAnswers(c, states, steps, n, ClientSlot(c, c.reqs[i]))
    requires states[n].calls[i].Done? && states[n].calls[i].outcome !in {TimedOut, Panicked}
    requires ForeignSince(states[n], ClientSlot(c, c.reqs[i]), i) < RETRY_ATTEMPTS
    ensures states[n].calls[i].outcome.Returned?
  {
    var m := CallBegan(c, states, steps, n, i);
    AttemptsArePaidFor(c, states, steps, m, n, i, 0);
    GoodLog(c, states, steps, n, ClientSlot(c, c.reqs[i]));
    ReachableSound(c, states, steps, n);
    assert CallSound(c, states[n].log, ClientSlot(c, c.reqs[i]), states[n].calls[i]);
  }

  // ------------------------------------------------------------------- single flight

  /** The number of backend requests on slot `k`. */
  function CallsOn(c: Config, log: seq<BackendCall>, k: Slot): nat {
    if log == [] then 0
    else CallsOn(c, log[..|log| - 1], k) + if WorkerSlot(c, log[|log| - 1].req) == k then 1 else 0
  }

  lemma CallsOnSnoc(c: Config, log: seq<BackendCall>, b: BackendCall, k: Slot)
    ensures CallsOn(c, log + [b], k) == CallsOn(c, log, k) + if WorkerSlot(c, b.req) == k then 1 else 0
  {
    assert (log + [b])[..|log|] == log;
  }

  ghost predicate NoClearStarted(s: State) {
    forall j :: 0 <= j < |s.clears| ==> s.clears[j] == ClearIdle
  }

  ghost predicate NeverDeleted(s: State, k: Slot) {
    forall n :: 0 <= n < |s.dels| ==> k !in s.dels[n].slots
  }

  lemma {:induction false} NeverDeletedForeign(dels: seq<Deletion>, start: nat, k: Slot, i: nat)
    requires forall n :: 0 <= n < |dels| ==> k !in dels[n].slots
    ensures Foreign(dels, start, k, i) == 0
  {
    if |dels| > start { NeverDeletedForeign(dels[..|dels| - 1], start, k, i); }
  }

  /** The entry of a slot that is never deleted records exactly whether its one backend
      request is still to come, in flight, or done. */
  ghost predicate FlightInv(c: Config, s: State, k: Slot)
    requires Shape(c, s)
  {
    && (forall w :: 0 <= w < |s.workers| && InFlight(c, s.workers[w], k) ==> k in s.cache && s.cache[k].locker == w)
    && CallsOn(c, s.log, k) ==
       if k !in s.cache then 0
       else if s.cache[k].locker == 0 || s.workers[s.cache[k].locker].WSet? then 1 else 0
  }

  lemma NoDeletion(c: Config, s: State, st: Step, k: Slot)
    requires Shape(c, s) && Enabled(c, s, st) && NeverDeleted(s, k) && NoClearStarted(s)
    requires st.CallStep? && ClientSlot(c, c.reqs[st.i]) == k ==> !s.calls[st.i].AtDelete?
    ensures NeverDeleted(Apply(c, s, st), k)
    ensures k in s.cache ==> k in Apply(c, s, st).cache
  {
  }

  /** On a slot that was never deleted, no call is about to delete. */
  lemma NobodyDeletes(c: Config, states: seq<State>, steps: seq<Step>, n: nat, i: nat)
    requires Behavior(c, states, steps) && n < |states| && KeysMatch(c) && i < |states[n].calls| && i < |c.reqs|
    requires var k := ClientSlot(c, c.reqs[i]); GoodAnswers(c, states, steps, n, k) && NeverDeleted(states[n], k)
    ensures !states[n].calls[i].AtDelete? && states[n].calls[i] != Done(Exhausted)
  {
    if states[n].calls[i].AtDelete? || states[n].calls[i] == Done(Exhausted) {
      var m := AttemptStart(c, states, steps, n, i, 0);
      AttemptsArePaidFor(c, states, steps, m, n, i, 0);
      NeverDeletedForeign(states[n].dels, |states[m].dels|, ClientSlot(c, c.reqs[i]), i);
    }
  }

  lemma InsertFlight(c: Config, s: State, w: nat, k: Slot)
    requires Shape(c, s) && FlightInv(c, s, k) && 1 <= w < |s.workers| && s.workers[w].WGot?
    requires Shape(c, ApplyWorker(c, s, w))
    ensures FlightInv(c, ApplyWorker(c, s, w), k)
  {
  }

  lemma PublishFlight(c: Config, s: State, w: nat, k: Slot)
    requires Shape(c, s) && FlightInv(c, s, k) && 1 <= w < |s.workers| && s.workers[w].WSet?
    requires InFlightInv(c, s) && Shape(c, ApplyWorker(c, s, w))
    ensures FlightInv(c, ApplyWorker(c, s, w), k)
  {
  }

  lemma MoveFlight(c: Config, s: State, s': State, w: nat, k: Slot)
    requires Shape(c, s) && Shape(c, s') && FlightInv(c, s, k) && 1 <= w < |s.workers|
    requires s'.log == s.log && s'.cache == s.cache && s'.workers == s.workers[w := s'.workers[w]]
    requires InFlight(c, s'.workers[w], k) ==> InFlight(c, s.workers[w], k)
    requires !s.workers[w].WSet? && !s'.workers[w].WSet?
    ensures FlightInv(c, s', k)
  {
  }

  lemma WorkerFlight(c: Config, s: State, w: nat, k: Slot)
    requires Shape(c, s) && FlightInv(c, s, k) && 1 <= w < |s.workers| && WorkerEnabled(s, w, s.workers[w])
    requires InFlightInv(c, s) && Shape(c, ApplyWorker(c, s, w))
    ensures FlightInv(c, ApplyWorker(c, s, w), k)
  {
    if s.workers[w].WGot? {
      InsertFlight(c, s, w, k);
    } else if s.workers[w].WSet? {
      PublishFlight(c, s, w, k);
    } else {
      var s' := ApplyWorker(c, s, w);
      assert s'.log == s.log && s'.cache == s.cache && s'.workers == s.workers[w := s'.workers[w]];
      MoveFlight(c, s, s', w, k);
    }
  }

  lemma AnswerFlight(c: Config, s: State, st: Step, k: Slot)
    requires Shape(c, s) && FlightInv(c, s, k) && Enabled(c, s, st) && st.Answer? && Shape(c, Apply(c, s, st))
    requires InFlightInv(c, s)
    ensures FlightInv(c, Apply(c, s, st), k)
  {
    CallsOnSnoc(c, s.log, Apply(c, s, st).log[|s.log|], k);
  }

  lemma FlightFrame(c: Config, s: State, s': State, k: Slot)
    requires Shape(c, s) && Shape(c, s') && FlightInv(c, s, k) && s'.workers == s.workers && s'.log == s.log
    requires Lookup(s'.cache, k) == Lookup(s.cache, k)
    ensures FlightInv(c, s', k)
  {
  }

  /** A step that is not a worker's leaves an entry alone that it does not delete. */
  lemma OtherStepKeeps(c: Config, s: State, st: Step, k: Slot)
    requires Shape(c, s) && Enabled(c, s, st) && !st.WorkerStep? && !st.Answer?
    requires k in s.cache ==> k in Apply(c, s, st).cache
    ensures var s' := Apply(c, s, st);
      s'.workers == s.workers && s'.log == s.log && Lookup(s'.cache, k) == Lookup(s.cache, k)
  {
    if st.CallStep? {
      var s' := ApplyCall(c, s, st.i);
      assert s'.workers == s.workers && s'.log == s.log;
    }
  }

  lemma NextFlight(c: Config, s: State, st: Step, k: Slot)
    requires Shape(c, s) && InFlightInv(c, s) && FlightInv(c, s, k) && Enabled(c, s, st) && Shape(c, Apply(c, s, st))
    requires k in s.cache ==> k in Apply(c, s, st).cache
    ensures FlightInv(c, Apply(c, s, st), k)
  {
    if st.WorkerStep? {
      WorkerFlight(c, s, st.w, k);
    } else if st.Answer? {
      AnswerFlight(c, s, st, k);
    } else {
      OtherStepKeeps(c, s, st, k);
      FlightFrame(c, s, Apply(c, s, st), k);
    }
  }

  lemma ClearsWereIdle(c: Config, s: State, st: Step)
    requires Shape(c, s) && Enabled(c, s, st)
    ensures NoClearStarted(Apply(c, s, st)) ==> NoClearStarted(s)
  {
    var s' := Apply(c, s, st);
    forall j | 0 <= j < |s.clears| && s.clears[j] != ClearIdle
      ensures s'.clears[j] != ClearIdle
    {
    }
  }

  lemma {:induction false} ReachableFlight(c: Config, states: seq<State>, steps: seq<Step>, n: nat, k: Slot)
    requires Behavior(c, states, steps) && n < |states| && KeysMatch(c)
    requires GoodAnswers(c, states, steps, n, k) && NoClearStarted(states[n])
    ensures Shape(c, states[n]) && FlightInv(c, states[n], k) && NeverDeleted(states[n], k)
  {
    assert Shape(c, states[n]) by { ReachableInv(c, states, steps, n); }
    if n > 0 {
      var s, st := states[n - 1], steps[n - 1];
      assert Next(c, s, st, states[n - 1 + 1]);
      ClearsWereIdle(c, s, st);
      ReachableFlight(c, states, steps, n - 1, k);
      if st.CallStep? && ClientSlot(c, c.reqs[st.i]) == k { NobodyDeletes(c, states, steps, n - 1, st.i); }
      NoDeletion(c, s, st, k);
      ReachableInv(c, states, steps, n - 1);
      NextFlight(c, s, st, k);
    }
  }

  /** The log counts the `Answer` steps one by one. */
  lemma TwoAnswers(c: Config, states: seq<State>, steps: seq<Step>, n: nat, k: Slot, p: nat, q: nat)
    requires Behavior(c, states, steps) && p < q < n < |states|
    requires SaidOn(c, states[p], steps[p], k) && SaidOn(c, states[q], steps[q], k)
    ensures CallsOn(c, states[n].log, k) >= 2
  {
    CallsOnAfter(c, states, steps, p, k);
    CallsOnAfter(c, states, steps, q, k);
    CallsOnGrows(c, states, steps, p + 1, q, k);
    CallsOnGrows(c, states, steps, q + 1, n, k);
  }

  lemma CallsOnAfter(c: Config, states: seq<State>, steps: seq<Step>, p: nat, k: Slot)
    requires Behavior(c, states, steps) && p < |steps| && SaidOn(c, states[p], steps[p], k)
    ensures CallsOn(c, states[p + 1].log, k) == CallsOn(c, states[p].log, k) + 1
  {
    assert Next(c, states[p], steps[p], states[p + 1]);
    AnswerLogged(c, states[p], steps[p]);
    CallsOnSnoc(c, states[p].log, Said(c, states[p], steps[p]).value, k);
  }

  lemma {:induction false} PrefixCalls(c: Config, a: seq<BackendCall>, b: seq<BackendCall>, k: Slot)
    requires a <= b
    ensures CallsOn(c, a, k) <= CallsOn(c, b, k)
    decreases |b|
  {
    if |a| < |b| {
      PrefixCalls(c, a, b[..|b| - 1], k);
    } else {
      assert a == b;
    }
  }

  lemma CallsOnGrows(c: Config, states: seq<State>, steps: seq<Step>, m: nat, n: nat, k: Slot)
    requires Behavior(c, states, steps) && m <= n < |states|
    ensures CallsOn(c, states[m].log, k) <= CallsOn(c, states[n].log, k)
  {
    LogGrowsAlong(c, states, steps, m, n);
    PrefixCalls(c, states[m].log, states[n].log, k);
  }

  /** Single flight: without `ClearCache`, the backend answers at most once on a slot whose
      answers are non-empty and error-free, however many calls want it. */
  lemma SingleFlight(c: Config, states: seq<State>, steps: seq<Step>, n: nat, k: Slot)
    requires Behavior(c, states, steps) && n < |states| && KeysMatch(c)
    requires GoodAnswers(c, states, steps, n, k) && NoClearStarted(states[n])
    ensures forall p, q | 0 <= p < n && 0 <= q < n ::
      SaidOn(c, states[p], steps[p], k) && SaidOn(c, states[q], steps[q], k) ==> p == q
    ensures forall i :: 0 <= i < |states[n].calls| && i < |c.reqs| && ClientSlot(c, c.reqs[i]) == k ==>
      states[n].calls[i] != Done(Exhausted)
  {
    ReachableFlight(c, states, steps, n, k);
    forall p, q | 0 <= p < q < n && SaidOn(c, states[p], steps[p], k) && SaidOn(c, states[q], steps[q], k)
      ensures false
    {
      TwoAnswers(c, states, steps, n, k, p, q);
    }
    forall i | 0 <= i < |states[n].calls| && i < |c.reqs| && ClientSlot(c, c.reqs[i]) == k
      ensures states[n].calls[i] != Done(Exhausted)
    {
      NobodyDeletes(c, states, steps, n, i);
    }
  }

  // ------------------------------------------------------------------------ deletions

  /** In step `p`, somebody other than call `i` removes the entry of `k`. */
  predicate RemovedByOther(states: seq<State>, steps: seq<Step>, p: nat, k: Slot, i: nat)
    requires p < |steps| && p + 1 < |states|
  {
    k in states[p].cache && k !in states[p + 1].cache && steps[p] != CallStep(i)
  }

  /** How often that happens from state `m` to state `n`. */
  function RemovalsByOthers(states: seq<State>, steps: seq<Step>, m: nat, n: nat, k: Slot, i: nat): nat
    requires n <= |steps| && n < |states|
    decreases n
  {
    if n <= m then 0
    else
      RemovalsByOthers(states, steps, m, n - 1, k, i) + if RemovedByOther(states, steps, n - 1, k, i) then 1 else 0
  }

  lemma DeletionRecorded(c: Config, s: State, st: Step, k: Slot, i: nat, start: nat)
    requires Shape(c, s) && Enabled(c, s, st) && start <= |s.dels|
    ensures var s' := Apply(c, s, st);
      && |s.dels| <= |s'.dels|
      && Foreign(s'.dels, start, k, i) == Foreign(s.dels, start, k, i)
           + if k in s.cache && k !in s'.cache && st != CallStep(i) then 1 else 0
  {
    if st.CallStep? {
      CallDeletion(c, s, st.i);
    } else if st.WorkerStep? {
      assert ApplyWorker(c, s, st.w).dels == s.dels;
    }
    var s' := Apply(c, s, st);
    if |s'.dels| > |s.dels| {
      ForeignSnoc(s.dels, s'.dels[|s.dels|], start, k, i);
    }
  }

  lemma CallDeletion(c: Config, s: State, i: nat)
    requires Shape(c, s) && i < |s.calls| && CallEnabled(s, s.calls[i])
    ensures var s' := ApplyCall(c, s, i);
      if s.calls[i].AtDelete?
      then var k := ClientSlot(c, c.reqs[i]);
        s'.cache == s.cache - {k} && s'.dels == s.dels + [Deletion({k} * s.cache.Keys, ACall(i))]
      else s'.cache == s.cache && s'.dels == s.dels
  {
  }

  /** The counted deletions are the steps that remove the entry. */
  lemma {:induction false} DeletionsAreRemovals(c: Config, states: seq<State>, steps: seq<Step>, m: nat, n: nat,
                                                k: Slot, i: nat)
    requires Behavior(c, states, steps) && m <= n < |states|
    ensures |states[m].dels| <= |states[n].dels|
    ensures Foreign(states[n].dels, |states[m].dels|, k, i) == RemovalsByOthers(states, steps, m, n, k, i)
    decreases n
  {
    if m < n {
      DeletionsAreRemovals(c, states, steps, m, n - 1, k, i);
      assert Next(c, states[n - 1], steps[n - 1], states[n - 1 + 1]);
      DeletionRecorded(c, states[n - 1], steps[n - 1], k, i, |states[m].dels|);
    }
  }
}
