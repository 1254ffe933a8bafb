/** Backend errors are fresh: an error that a call returns was published after the call began. */
module ProtocolErrors {
  import opened Base
  import opened SyncCacheModel
  import opened Protocol
  import opened ProtocolHistory
  import opened ProtocolInvariant
  import opened ProtocolSoundness
  import opened ProtocolBudget

  // ---------------------------------------------------------------- freshness

  /** Error `e` was written to slot `k` by one of the publications `pubs[start..]`. */
  ghost predicate PublishedSince(pubs: seq<Publication>, start: nat, k: Slot, e: Error) {
    exists m :: start <= m < |pubs| && pubs[m].slot == k && pubs[m].entry.err == Some(e)
  }

  ghost predicate FreshLook(pubs: seq<Publication>, start: nat, k: Slot, look: Option<Entry>) {
    look.Some? && look.value.err.Some? ==> PublishedSince(pubs, start, k, look.value.err.value)
  }

  ghost predicate CallFresh(pubs: seq<Publication>, start: nat, k: Slot, look: Option<Entry>, pc: CallPc) {
    && (HasTicket(pc) && !pc.AtUnlock? ==> FreshLook(pubs, start, k, look))
    && (pc.AtUnlock? ==> FreshLook(pubs, start, k, pc.got))
    && (pc.Done? && pc.outcome.Failed? ==> PublishedSince(pubs, start, k, pc.outcome.err))
  }

  ghost predicate MarkInv(s: State) {
    forall i :: 0 <= i < |s.marks| ==> s.marks[i].dels <= |s.dels| && s.marks[i].pubs <= |s.pubs|
  }

  ghost predicate FreshInv(c: Config, s: State)
    requires Shape(c, s)
  {
    && MarkInv(s)
    && (forall i :: 0 <= i < |s.calls| ==>
          var k := ClientSlot(c, c.reqs[i]);
          CallFresh(s.pubs, s.marks[i].pubs, k, Lookup(s.cache, k), s.calls[i]))
    && (forall w :: 0 <= w < |s.workers| && s.workers[w].WSend? && Unanswered(s, s.workers[w].item) ==>
          var k := ClientSlot(c, c.reqs[s.workers[w].item.call]);
          FreshLook(s.pubs, s.marks[s.workers[w].item.call].pubs, k, Lookup(s.cache, k)))
  }

  predicate Unanswered(s: State, it: Item) {
    it.call < |s.calls| && s.calls[it.call].Waiting?
  }

  /** No step makes a stale error appear in a slot. */
  lemma FreshnessKept(c: Config, s: State, st: Step, k: Slot, start: nat)
    requires Shape(c, s) && Enabled(c, s, st) && start <= |s.pubs|
    ensures var s' := Apply(c, s, st);
      && (forall e :: PublishedSince(s.pubs, start, k, e) ==> PublishedSince(s'.pubs, start, k, e))
      && (FreshLook(s.pubs, start, k, Lookup(s.cache, k)) ==> FreshLook(s'.pubs, start, k, Lookup(s'.cache, k)))
  {
    var s' := Apply(c, s, st);
    if s'.pubs != s.pubs {
      assert s'.pubs == s.pubs + [s'.pubs[|s.pubs|]];
      forall e | PublishedSince(s.pubs, start, k, e) ensures PublishedSince(s'.pubs, start, k, e) {
        var m :| start <= m < |s.pubs| && s.pubs[m].slot == k && s.pubs[m].entry.err == Some(e);
        assert s'.pubs[m] == s.pubs[m];
      }
      assert Lookup(s'.cache, k) == Lookup(s.cache, k)
        || (s'.pubs[|s.pubs|].slot == k && Lookup(s'.cache, k) == Some(s'.pubs[|s.pubs|].entry));
    }
  }

  lemma OwnStepFresh(c: Config, s: State, i: nat, pubs: seq<Publication>, start: nat)
    requires Shape(c, s) && i < |s.calls| && CallEnabled(s, s.calls[i])
    requires var k := ClientSlot(c, c.reqs[i]); CallFresh(pubs, start, k, Lookup(s.cache, k), s.calls[i])
    ensures var k := ClientSlot(c, c.reqs[i]); var s' := ApplyCall(c, s, i);
      CallFresh(pubs, start, k, Lookup(s'.cache, k), s'.calls[i])
  {
  }

  /** A worker's step keeps the freshness of what each call relies on. */
  lemma WorkerStepFresh(c: Config, s: State, w: nat, i: nat)
    requires Shape(c, s) && FreshInv(c, s) && i < |s.calls| && 1 <= w < |s.workers| && WorkerEnabled(s, w, s.workers[w])
    ensures var k := ClientSlot(c, c.reqs[i]);
      && |ApplyWorker(c, s, w).calls| == |s.calls|
      && CallFresh(s.pubs, s.marks[i].pubs, k, Lookup(s.cache, k), ApplyWorker(c, s, w).calls[i])
  {
    var k := ClientSlot(c, c.reqs[i]);
    assert CallFresh(s.pubs, s.marks[i].pubs, k, Lookup(s.cache, k), s.calls[i]);
    assert s.workers[w].WSend? ==> Unanswered(s, s.workers[w].item);
  }

  lemma CallNextFresh(c: Config, s: State, st: Step, i: nat)
    requires Shape(c, s) && FreshInv(c, s) && Enabled(c, s, st) && Shape(c, Apply(c, s, st)) && i < |s.calls|
    ensures var s' := Apply(c, s, st); var k := ClientSlot(c, c.reqs[i]);
      CallFresh(s'.pubs, s'.marks[i].pubs, k, Lookup(s'.cache, k), s'.calls[i])
  {
    var k := ClientSlot(c, c.reqs[i]);
    if st == CallStep(i) {
      assert CallFresh(s.pubs, s.marks[i].pubs, k, Lookup(s.cache, k), s.calls[i]);
      OwnStepFresh(c, s, i, s.pubs, s.marks[i].pubs);
    } else if st != Begin(i) {
      OthersFresh(c, s, st, i);
      FreshnessKept(c, s, st, k, s.marks[i].pubs);
    }
  }

  lemma OthersFresh(c: Config, s: State, st: Step, i: nat)
    requires Shape(c, s) && FreshInv(c, s) && Enabled(c, s, st) && i < |s.calls| && st != CallStep(i) && st != Begin(i)
    ensures var s' := Apply(c, s, st); var k := ClientSlot(c, c.reqs[i]);
      && i < |s'.calls| && i < |s'.marks| && s'.marks[i] == s.marks[i]
      && CallFresh(s.pubs, s.marks[i].pubs, k, Lookup(s.cache, k), s'.calls[i])
  {
    var k := ClientSlot(c, c.reqs[i]);
    assert CallFresh(s.pubs, s.marks[i].pubs, k, Lookup(s.cache, k), s.calls[i]);
    if st.WorkerStep? {
      WorkerStepFresh(c, s, st.w, i);
    } else if st.CallStep? {
      OwnCallEvolves(c, s, st.i);
    }
  }

  lemma SendFrame(c: Config, s: State, st: Step, w: nat)
    requires Shape(c, s) && ChannelInv(c, s) && FreshInv(c, s) && Enabled(c, s, st) && Shape(c, Apply(c, s, st))
    requires w < |s.workers| && Apply(c, s, st).workers[w] == s.workers[w] && s.workers[w].WSend?
    requires Unanswered(Apply(c, s, st), s.workers[w].item)
    ensures var s' := Apply(c, s, st); var i := s.workers[w].item.call; var k := ClientSlot(c, c.reqs[i]);
      FreshLook(s'.pubs, s'.marks[i].pubs, k, Lookup(s'.cache, k))
  {
    var i := s.workers[w].item.call;
    CallEvolves(c, s, st, i);
    OwedBefore(c, s, w, i, Apply(c, s, st).calls[i]);
    assert Apply(c, s, st).marks[i] == s.marks[i];
    FreshnessKept(c, s, st, ClientSlot(c, c.reqs[i]), s.marks[i].pubs);
  }

  lemma SendNextFresh(c: Config, s: State, st: Step, w: nat)
    requires Shape(c, s) && ChannelInv(c, s) && FreshInv(c, s) && Enabled(c, s, st) && KeysMatch(c)
    requires Shape(c, Apply(c, s, st)) && w < |s.workers|
    requires Apply(c, s, st).workers[w].WSend? && Unanswered(Apply(c, s, st), Apply(c, s, st).workers[w].item)
    ensures var s' := Apply(c, s, st); var i := s'.workers[w].item.call; var k := ClientSlot(c, c.reqs[i]);
      FreshLook(s'.pubs, s'.marks[i].pubs, k, Lookup(s'.cache, k))
  {
    if st != WorkerStep(w) && !(st.Answer? && st.w == w) {
      OthersStay(c, s, st, w);
      SendFrame(c, s, st, w);
    } else if st.WorkerStep? {
      LookupFresh(c, s, w);
    }
  }

  /** A worker that goes on to send a ticket has found no error in the slot, or none at all. */
  lemma LookupFresh(c: Config, s: State, w: nat)
    requires Shape(c, s) && KeysMatch(c) && 1 <= w < |s.workers| && WorkerEnabled(s, w, s.workers[w])
    requires ApplyWorker(c, s, w).workers[w].WSend?
    ensures var s' := ApplyWorker(c, s, w); var i := s'.workers[w].item.call;
      && i < |c.reqs|
      && var look := Lookup(s'.cache, ClientSlot(c, c.reqs[i])); look.Some? && look.value.err.None?
  {
    var r := c.reqs[s.workers[w].item.call];
    assert WorkerSlot(c, r) == ClientSlot(c, r);
  }

  lemma MarksStay(c: Config, s: State, st: Step)
    requires Shape(c, s) && Enabled(c, s, st) && MarkInv(s)
    ensures MarkInv(Apply(c, s, st))
  {
    var s' := Apply(c, s, st);
    assert |s'.dels| >= |s.dels| && |s'.pubs| >= |s.pubs|;
  }

  lemma NextFresh(c: Config, s: State, st: Step)
    requires Shape(c, s) && ChannelInv(c, s) && FreshInv(c, s) && Enabled(c, s, st) && KeysMatch(c)
    requires Shape(c, Apply(c, s, st))
    ensures FreshInv(c, Apply(c, s, st))
  {
    var s' := Apply(c, s, st);
    MarksStay(c, s, st);
    forall i | 0 <= i < |s'.calls|
      ensures var k := ClientSlot(c, c.reqs[i]);
        CallFresh(s'.pubs, s'.marks[i].pubs, k, Lookup(s'.cache, k), s'.calls[i])
    {
      CallNextFresh(c, s, st, i);
    }
    forall w | 0 <= w < |s'.workers| && s'.workers[w].WSend? && Unanswered(s', s'.workers[w].item)
      ensures var k := ClientSlot(c, c.reqs[s'.workers[w].item.call]);
        FreshLook(s'.pubs, s'.marks[s'.workers[w].item.call].pubs, k, Lookup(s'.cache, k))
    {
      SendNextFresh(c, s, st, w);
    }
  }

  lemma {:induction false} ReachableFresh(c: Config, states: seq<State>, steps: seq<Step>, n: nat)
    requires Behavior(c, states, steps) && n < |states| && KeysMatch(c)
    ensures Shape(c, states[n]) && FreshInv(c, states[n])
  {
    assert Shape(c, states[n]) by { ReachableInv(c, states, steps, n); }
    if n > 0 {
      ReachableFresh(c, states, steps, n - 1);
      assert Next(c, states[n - 1], steps[n - 1], states[n - 1 + 1]);
      assert ChannelInv(c, states[n - 1]) by { ReachableInv(c, states, steps, n - 1); }
      NextFresh(c, states[n - 1], steps[n - 1]);
    }
  }

  /** A backend error that a call returns was written to the call's slot after the call
      began, in step `p` by worker `w`: no call ever returns an error left over from an earlier one. */
  lemma ErrorsAreFresh(c: Config, states: seq<State>, steps: seq<Step>, n: nat, i: nat)
    returns (b: nat, p: nat, w: nat, e: Entry)
    requires Behavior(c, states, steps) && n < |states| && KeysMatch(c)
    requires i < |states[n].calls| && i < |c.reqs|
    requires states[n].calls[i].Done? && states[n].calls[i].outcome.Failed?
    ensures b <= p < n && i < |states[b].calls| && states[b].calls[i] == AtGet(0)
    ensures Publishes(c, states[p], steps[p], w, ClientSlot(c, c.reqs[i]), e)
    ensures e.err == Some(states[n].calls[i].outcome.err)
  {
    var s, k := states[n], ClientSlot(c, c.reqs[i]);
    ReachableFresh(c, states, steps, n);
    assert CallFresh(s.pubs, s.marks[i].pubs, k, Lookup(s.cache, k), s.calls[i]);
    var m :| s.marks[i].pubs <= m < |s.pubs| && s.pubs[m].slot == k
      && s.pubs[m].entry.err == Some(s.calls[i].outcome.err);
    b := CallBegan(c, states, steps, n, i);
    p, w := PublicationStep(c, states, steps, n, m);
    e := s.pubs[m].entry;
    if p < b { PubsGrowAlong(c, states, steps, p + 1, b); }
  }
}
