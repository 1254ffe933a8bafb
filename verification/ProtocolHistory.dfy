/** The histories in the state are what the steps of the run did, in order, no more and no less.
    Statements about the backend can therefore speak of the `Answer` steps themselves. */
module ProtocolHistory {
  import opened Base
  import opened SyncCacheModel
  import opened Protocol

  // --------------------------------------------------------------- backend answers

  /** What the backend answers in step `st`, and to which request. */
  function Said(c: Config, s: State, st: Step): Option<BackendCall> {
    if st.Answer? && st.w < |s.workers| && s.workers[st.w].WRequest? && s.workers[st.w].item.call < |c.reqs|
    then Some(BackendCall(c.reqs[s.workers[st.w].item.call], st.raw, st.err))
    else None
  }

  predicate SaidOn(c: Config, s: State, st: Step, k: Slot) {
    Said(c, s, st).Some? && WorkerSlot(c, Said(c, s, st).value.req) == k
  }

  /** Everything the backend has answered in the first `n` steps. */
  function Transcript(c: Config, states: seq<State>, steps: seq<Step>, n: nat): seq<BackendCall>
    requires n <= |steps| && n <= |states|
  {
    if n == 0 then []
    else
      var b := Said(c, states[n - 1], steps[n - 1]);
      Transcript(c, states, steps, n - 1) + if b.Some? then [b.value] else []
  }

  lemma AnswerLogged(c: Config, s: State, st: Step)
    requires Shape(c, s) && Enabled(c, s, st)
    ensures var b := Said(c, s, st); Apply(c, s, st).log == s.log + if b.Some? then [b.value] else []
    ensures st.Answer? ==> Said(c, s, st).Some?
  {
    assert s.log + [] == s.log;
    if st.CallStep? {
      assert ApplyCall(c, s, st.i).log == s.log;
    } else if st.WorkerStep? {
      assert ApplyWorker(c, s, st.w).log == s.log;
    }
  }

  /** The log is the transcript of the `Answer` steps. */
  lemma {:induction false} LogIsTranscript(c: Config, states: seq<State>, steps: seq<Step>, n: nat)
    requires Behavior(c, states, steps) && n < |states|
    ensures states[n].log == Transcript(c, states, steps, n)
  {
    if n > 0 {
      LogIsTranscript(c, states, steps, n - 1);
      assert Next(c, states[n - 1], steps[n - 1], states[n - 1 + 1]);
      AnswerLogged(c, states[n - 1], steps[n - 1]);
    }
  }

  /** The step that a log entry comes from. */
  lemma {:induction false} LogEntryStep(c: Config, states: seq<State>, steps: seq<Step>, n: nat, x: nat)
    returns (p: nat)
    requires Behavior(c, states, steps) && n < |states| && x < |states[n].log|
    ensures p < n && Said(c, states[p], steps[p]) == Some(states[n].log[x]) && |states[p].log| == x
    decreases n
  {
    assert n > 0;
    var s := states[n - 1];
    assert Next(c, s, steps[n - 1], states[n - 1 + 1]);
    AnswerLogged(c, s, steps[n - 1]);
    if x < |s.log| {
      p := LogEntryStep(c, states, steps, n - 1, x);
    } else {
      p := n - 1;
    }
  }

  lemma {:induction false} LogGrowsAlong(c: Config, states: seq<State>, steps: seq<Step>, m: nat, n: nat)
    requires Behavior(c, states, steps) && m <= n < |states|
    ensures states[m].log <= states[n].log
    decreases n
  {
    if m < n {
      LogGrowsAlong(c, states, steps, m, n - 1);
      assert Next(c, states[n - 1], steps[n - 1], states[n - 1 + 1]);
      AnswerLogged(c, states[n - 1], steps[n - 1]);
    }
  }

  /** Every answer is in the log from then on. */
  lemma AnswerStaysLogged(c: Config, states: seq<State>, steps: seq<Step>, p: nat, n: nat)
    requires Behavior(c, states, steps) && p < n < |states| && Said(c, states[p], steps[p]).Some?
    ensures |states[p].log| < |states[n].log|
    ensures states[n].log[|states[p].log|] == Said(c, states[p], steps[p]).value
  {
    assert Next(c, states[p], steps[p], states[p + 1]);
    AnswerLogged(c, states[p], steps[p]);
    LogGrowsAlong(c, states, steps, p + 1, n);
  }

  // ------------------------------------------------------------------- publications

  /** Worker `w` writes entry `e` to slot `k` in step `st`. */
  predicate Publishes(c: Config, s: State, st: Step, w: nat, k: Slot, e: Entry) {
    && st == WorkerStep(w) && w < |s.workers| && s.workers[w].WSet? && s.workers[w].entry == e
    && s.workers[w].item.call < |c.reqs| && WorkerSlot(c, c.reqs[s.workers[w].item.call]) == k
  }

  lemma PublicationRecorded(c: Config, s: State, st: Step)
    requires Shape(c, s) && Enabled(c, s, st)
    ensures var s' := Apply(c, s, st);
      if st.WorkerStep? && s.workers[st.w].WSet?
      then |s'.pubs| == |s.pubs| + 1 && s.pubs <= s'.pubs
           && var b := s'.pubs[|s.pubs|];
              Publishes(c, s, st, st.w, b.slot, b.entry) && Lookup(s'.cache, b.slot) == Some(b.entry)
      else s'.pubs == s.pubs
  {
    if st.CallStep? { assert ApplyCall(c, s, st.i).pubs == s.pubs; }
  }

  /** The step that a publication comes from. */
  lemma {:induction false} PublicationStep(c: Config, states: seq<State>, steps: seq<Step>, n: nat, x: nat)
    returns (p: nat, w: nat)
    requires Behavior(c, states, steps) && n < |states| && x < |states[n].pubs|
    ensures p < n && |states[p].pubs| == x < |states[p + 1].pubs|
    ensures var b := states[n].pubs[x];
      Publishes(c, states[p], steps[p], w, b.slot, b.entry) && Lookup(states[p + 1].cache, b.slot) == Some(b.entry)
    decreases n
  {
    assert n > 0;
    var s := states[n - 1];
    assert Next(c, s, steps[n - 1], states[n - 1 + 1]);
    PublicationRecorded(c, s, steps[n - 1]);
    if x < |s.pubs| {
      p, w := PublicationStep(c, states, steps, n - 1, x);
    } else {
      p, w := n - 1, steps[n - 1].w;
    }
  }

  lemma {:induction false} PubsGrowAlong(c: Config, states: seq<State>, steps: seq<Step>, m: nat, n: nat)
    requires Behavior(c, states, steps) && m <= n < |states|
    ensures states[m].pubs <= states[n].pubs
    decreases n
  {
    if m < n {
      PubsGrowAlong(c, states, steps, m, n - 1);
      assert Next(c, states[n - 1], steps[n - 1], states[n - 1 + 1]);
      PublicationRecorded(c, states[n - 1], steps[n - 1]);
    }
  }

  // ---------------------------------------------------------------------- the queue

  /** The item that step `st` puts into the queue. */
  function Put(s: State, st: Step): seq<Item> {
    if st.CallStep? && st.i < |s.calls| && s.calls[st.i].AtEnqueue? && !s.stopped
    then [Item(st.i, s.calls[st.i].a)] else []
  }

  /** The item that a worker takes from the queue in step `st`. */
  function Taken(s: State, st: Step, s': State): seq<Item> {
    if st.WorkerStep? && st.w < |s.workers| && st.w < |s'.workers| && s.workers[st.w].WIdle? && s'.workers[st.w].WGot?
    then [s'.workers[st.w].item] else []
  }

  function AllPut(states: seq<State>, steps: seq<Step>, n: nat): seq<Item>
    requires n <= |steps| && n <= |states|
  {
    if n == 0 then [] else AllPut(states, steps, n - 1) + Put(states[n - 1], steps[n - 1])
  }

  function AllTaken(states: seq<State>, steps: seq<Step>, n: nat): seq<Item>
    requires n <= |steps| && n < |states|
  {
    if n == 0 then [] else AllTaken(states, steps, n - 1) + Taken(states[n - 1], steps[n - 1], states[n])
  }

  lemma WorkerQueueStep(c: Config, s: State, w: nat)
    requires Shape(c, s) && 1 <= w < |s.workers| && WorkerEnabled(s, w, s.workers[w])
    ensures var s' := ApplyWorker(c, s, w); s.queue == Taken(s, WorkerStep(w), s') + s'.queue
  {
    if s.workers[w].WIdle? && |s.queue| > 0 {
      assert s.queue == [s.queue[0]] + s.queue[1..];
    } else {
      assert ApplyWorker(c, s, w).queue == s.queue;
    }
  }

  lemma QueueStep(c: Config, s: State, st: Step)
    requires Shape(c, s) && Enabled(c, s, st)
    ensures var s' := Apply(c, s, st); s.queue + Put(s, st) == Taken(s, st, s') + s'.queue
  {
    var s' := Apply(c, s, st);
    if st.CallStep? {
      assert s'.queue == s.queue + Put(s, st);
    } else if st.WorkerStep? {
      WorkerQueueStep(c, s, st.w);
    }
  }

  lemma Regroup(all: seq<Item>, queue: seq<Item>, put: seq<Item>, taken: seq<Item>, queue': seq<Item>)
    requires queue + put == taken + queue'
    ensures all + queue + put == all + taken + queue'
  {
    assert all + queue + put == all + (queue + put);
    assert all + taken + queue' == all + (taken + queue');
  }

  lemma QueueBound(c: Config, s: State, st: Step)
    requires Shape(c, s) && Enabled(c, s, st) && |s.queue| <= WORK_QUEUE_SIZE
    ensures |Apply(c, s, st).queue| <= WORK_QUEUE_SIZE
  {
  }

  /** First in, first out: what workers have taken, followed by what is still queued, is what
      calls have put in, in the same order. */
  lemma {:induction false} QueueIsFifo(c: Config, states: seq<State>, steps: seq<Step>, n: nat)
    requires Behavior(c, states, steps) && n < |states|
    ensures AllPut(states, steps, n) == AllTaken(states, steps, n) + states[n].queue
    ensures |states[n].queue| <= WORK_QUEUE_SIZE == 1000
  {
    if n > 0 {
      var p := n - 1;
      QueueIsFifo(c, states, steps, p);
      assert Next(c, states[p], steps[p], states[p + 1]);
      QueueStep(c, states[p], steps[p]);
      QueueBound(c, states[p], steps[p]);
      Regroup(AllTaken(states, steps, p), states[p].queue, Put(states[p], steps[p]),
              Taken(states[p], steps[p], states[n]), states[n].queue);
    }
  }
}
