/** What calls return: data and errors come from backend requests on the same slot, and slots
    tell requests apart. */
module ProtocolSoundness {
  import opened Base
  import opened SyncCacheModel
  import opened Protocol
  import opened ProtocolHistory
  import opened ProtocolInvariant

  // ------------------------------------------------------------ where values come from

  /** The entry `e` holds what the backend answered: its error, and its data unless empty. */
  predicate Holds(e: Entry, b: BackendCall) {
    e.err == b.err && e.data == if Size(b.data) > 0 then Some(b.data) else None
  }

  /** `e` is what some finished backend request on slot `k` answered. */
  ghost predicate FromLog(c: Config, log: seq<BackendCall>, k: Slot, e: Entry) {
    exists n :: 0 <= n < |log| && WorkerSlot(c, log[n].req) == k && Holds(e, log[n])
  }

  ghost predicate Answered(c: Config, log: seq<BackendCall>, k: Slot, d: Data) {
    exists n :: 0 <= n < |log| && WorkerSlot(c, log[n].req) == k && log[n].data == d && Size(d) > 0
  }

  ghost predicate Refused(c: Config, log: seq<BackendCall>, k: Slot, e: Error) {
    exists n :: 0 <= n < |log| && WorkerSlot(c, log[n].req) == k && log[n].err == Some(e)
  }

  ghost predicate EntrySound(c: Config, log: seq<BackendCall>, k: Slot, e: Entry) {
    if e.locker == 0 then FromLog(c, log, k, e) else !Available(e)
  }

  ghost predicate CallSound(c: Config, log: seq<BackendCall>, k: Slot, pc: CallPc) {
    && (pc.AtUnlock? && pc.got.Some? ==> EntrySound(c, log, k, pc.got.value))
    && (pc.Done? && pc.outcome.Returned? ==> Answered(c, log, k, pc.outcome.data))
    && (pc.Done? && pc.outcome.Failed? ==> Refused(c, log, k, pc.outcome.err))
  }

  ghost predicate WorkerSound(c: Config, log: seq<BackendCall>, pc: WorkerPc) {
    pc.WSet? ==> pc.item.call < |c.reqs| && FromLog(c, log, WorkerSlot(c, c.reqs[pc.item.call]), pc.entry)
  }

  ghost predicate LogSound(c: Config, log: seq<BackendCall>) {
    forall n :: 0 <= n < |log| ==> log[n].req in c.reqs && WellTyped(log[n].req.kind, log[n].data)
  }

  ghost predicate SoundInv(c: Config, s: State)
    requires Shape(c, s)
  {
    && LogSound(c, s.log)
    && (forall k :: k in s.cache ==> EntrySound(c, s.log, k, s.cache[k]))
    && (forall w :: 0 <= w < |s.workers| ==> WorkerSound(c, s.log, s.workers[w]))
    && (forall i :: 0 <= i < |s.calls| ==> CallSound(c, s.log, ClientSlot(c, c.reqs[i]), s.calls[i]))
  }

  lemma CallStepSound(c: Config, s: State, i: nat)
    requires Shape(c, s) && SoundInv(c, s) && i < |s.calls| && CallEnabled(s, s.calls[i])
    ensures CallSound(c, s.log, ClientSlot(c, c.reqs[i]), ApplyCall(c, s, i).calls[i])
  {
    var k := ClientSlot(c, c.reqs[i]);
    assert k in s.cache ==> EntrySound(c, s.log, k, s.cache[k]);
    assert CallSound(c, s.log, k, s.calls[i]);
  }

  lemma FromLogGrows(c: Config, log: seq<BackendCall>, b: BackendCall, k: Slot, e: Entry)
    requires FromLog(c, log, k, e)
    ensures FromLog(c, log + [b], k, e)
  {
    var n :| 0 <= n < |log| && WorkerSlot(c, log[n].req) == k && Holds(e, log[n]);
    assert (log + [b])[n] == log[n];
  }

  lemma AnsweredGrows(c: Config, log: seq<BackendCall>, b: BackendCall, k: Slot, d: Data)
    requires Answered(c, log, k, d)
    ensures Answered(c, log + [b], k, d)
  {
    var n :| 0 <= n < |log| && WorkerSlot(c, log[n].req) == k && log[n].data == d && Size(d) > 0;
    assert (log + [b])[n] == log[n];
  }

  lemma RefusedGrows(c: Config, log: seq<BackendCall>, b: BackendCall, k: Slot, e: Error)
    requires Refused(c, log, k, e)
    ensures Refused(c, log + [b], k, e)
  {
    var n :| 0 <= n < |log| && WorkerSlot(c, log[n].req) == k && log[n].err == Some(e);
    assert (log + [b])[n] == log[n];
  }

  lemma EntrySoundGrows(c: Config, log: seq<BackendCall>, b: BackendCall, k: Slot, e: Entry)
    requires EntrySound(c, log, k, e)
    ensures EntrySound(c, log + [b], k, e)
  {
    if e.locker == 0 { FromLogGrows(c, log, b, k, e); }
  }

  lemma CallSoundGrows(c: Config, log: seq<BackendCall>, b: BackendCall, k: Slot, pc: CallPc)
    requires CallSound(c, log, k, pc)
    ensures CallSound(c, log + [b], k, pc)
  {
    if pc.AtUnlock? && pc.got.Some? { EntrySoundGrows(c, log, b, k, pc.got.value); }
    if pc.Done? && pc.outcome.Returned? { AnsweredGrows(c, log, b, k, pc.outcome.data); }
    if pc.Done? && pc.outcome.Failed? { RefusedGrows(c, log, b, k, pc.outcome.err); }
  }

  lemma WorkerSoundGrows(c: Config, log: seq<BackendCall>, b: BackendCall, pc: WorkerPc)
    requires WorkerSound(c, log, pc)
    ensures WorkerSound(c, log + [b], pc)
  {
    if pc.WSet? { FromLogGrows(c, log, b, WorkerSlot(c, c.reqs[pc.item.call]), pc.entry); }
  }

  /** The backend's answer `b` to worker `w`. */
  lemma LogGrows(c: Config, s: State, w: nat, b: BackendCall, e: Entry)
    requires Shape(c, s) && SoundInv(c, s) && 1 <= w < |s.workers| && s.workers[w].WRequest?
    requires b.req == c.reqs[s.workers[w].item.call]
    requires WellTyped(b.req.kind, b.data) && Holds(e, b) && e.locker == 0
    ensures var pc := WSet(s.workers[w].item, e);
      var s' := s.(workers := s.workers[w := pc], log := s.log + [b]);
      Shape(c, s') && SoundInv(c, s')
  {
    var log', pc := s.log + [b], WSet(s.workers[w].item, e);
    assert WorkerSound(c, log', pc) by { assert log'[|s.log|] == b; }
    forall k | k in s.cache ensures EntrySound(c, log', k, s.cache[k]) {
      EntrySoundGrows(c, s.log, b, k, s.cache[k]);
    }
    forall v | 0 <= v < |s.workers| ensures WorkerSound(c, log', s.workers[v]) {
      WorkerSoundGrows(c, s.log, b, s.workers[v]);
    }
    forall i | 0 <= i < |s.calls| ensures CallSound(c, log', ClientSlot(c, c.reqs[i]), s.calls[i]) {
      CallSoundGrows(c, s.log, b, ClientSlot(c, c.reqs[i]), s.calls[i]);
    }
  }

  lemma AnswerStepSound(c: Config, s: State, w: nat, raw: Data, err: Option<Error>)
    requires Shape(c, s) && SoundInv(c, s) && Enabled(c, s, Answer(w, raw, err))
    ensures var s' := Apply(c, s, Answer(w, raw, err)); Shape(c, s') && SoundInv(c, s')
  {
    LogGrows(c, s, w, BackendCall(c.reqs[s.workers[w].item.call], raw, err), Entry(NilIfEmpty(raw), err, 0));
  }

  lemma WorkerStepCalls(c: Config, s: State, w: nat)
    requires Shape(c, s) && 1 <= w < |s.workers| && WorkerEnabled(s, w, s.workers[w])
    ensures var s' := ApplyWorker(c, s, w);
      && |s'.calls| == |s.calls| && s'.log == s.log && s'.workers == s.workers[w := s'.workers[w]]
      && (forall i :: 0 <= i < |s.calls| ==>
            s'.calls[i] == s.calls[i] || s'.calls[i].GotTicket? || s'.calls[i].Waiting? || s'.calls[i].AtLock?)
  {
  }

  lemma WorkerStepSound(c: Config, s: State, w: nat)
    requires Shape(c, s) && SoundInv(c, s) && 1 <= w < |s.workers| && WorkerEnabled(s, w, s.workers[w])
    requires Shape(c, ApplyWorker(c, s, w))
    ensures SoundInv(c, ApplyWorker(c, s, w))
  {
    var s' := ApplyWorker(c, s, w);
    assert WorkerSound(c, s.log, s.workers[w]);
    WorkerStepCalls(c, s, w);
    assert forall k :: k in s'.cache ==> EntrySound(c, s.log, k, s'.cache[k]);
  }

  lemma NextSound(c: Config, s: State, st: Step)
    requires Shape(c, s) && SoundInv(c, s) && Enabled(c, s, st) && Shape(c, Apply(c, s, st))
    ensures SoundInv(c, Apply(c, s, st))
  {
    match st
    case CallStep(i) => CallStepSound(c, s, i);
    case WorkerStep(w) => WorkerStepSound(c, s, w);
    case Answer(w, raw, err) => AnswerStepSound(c, s, w, raw, err);
    case _ =>
  }

  lemma InitSound(c: Config)
    ensures Shape(c, Init(c)) && SoundInv(c, Init(c))
  {
  }

  lemma {:induction false} ReachableSound(c: Config, states: seq<State>, steps: seq<Step>, n: nat)
    requires Behavior(c, states, steps) && n < |states|
    ensures Shape(c, states[n]) && SoundInv(c, states[n])
  {
    assert Shape(c, states[n]) by { ReachableInv(c, states, steps, n); }
    if n == 0 {
      InitSound(c);
    } else {
      ReachableSound(c, states, steps, n - 1);
      assert Next(c, states[n - 1], steps[n - 1], states[n - 1 + 1]);
      NextSound(c, states[n - 1], steps[n - 1]);
    }
  }

  // ----------------------------------------------------------------------- cache keys

  lemma {:induction false} HexDigitsOnly(n: nat)
    ensures PLUS !in Hex(n) && |Hex(n)| > 0
  {
    if n >= 16 { HexDigitsOnly(n / 16); }
  }

  lemma {:induction false} HexInjective(a: nat, b: nat)
    requires Hex(a) == Hex(b)
    ensures a == b
  {
    HexDigitsOnly(a / 16);
    HexDigitsOnly(b / 16);
    var h := Hex(a);
    assert h[|h| - 1] == HexDigit(a % 16) == HexDigit(b % 16);
    if a >= 16 && b >= 16 {
      assert Hex(a / 16) == h[..|h| - 1] == Hex(b / 16);
      HexInjective(a / 16, b / 16);
    }
  }

  /** The last `+` of a complex key separates the string from the hash. */
  lemma ComplexKeyInjective(c: Config, s1: Bytes, b1: Bytes, s2: Bytes, b2: Bytes)
    ensures ComplexKey(c, s1, b1) == ComplexKey(c, s2, b2) <==> s1 == s2 && c.hash(b1) == c.hash(b2)
  {
    var h1, h2 := Hex(c.hash(b1)), Hex(c.hash(b2));
    HexDigitsOnly(c.hash(b1));
    HexDigitsOnly(c.hash(b2));
    if s1 + [PLUS] + h1 == s2 + [PLUS] + h2 {
      var whole := s1 + [PLUS] + h1;
      assert whole[|s1|] == PLUS && whole[|s2|] == PLUS;
      assert |s1| == |s2|;
      assert s1 == whole[..|s1|] == s2;
      assert h1 == whole[|s1| + 1..] == h2;
      HexInjective(c.hash(b1), c.hash(b2));
    }
  }

  /** The client and the worker use the same key exactly when names come with an IV and
      paths without one. `DecryptName` with an empty IV breaks this. */
  lemma KeysAgree(c: Config, r: Request)
    ensures ClientSlot(c, r) == WorkerSlot(c, r) <==> (r.kind == DecryptName <==> |r.arg2| > 0)
  {
    assert |ComplexKey(c, r.arg1, r.arg2)| > |r.arg1|;
  }

  /** Paths carry no second argument (requester/readfile.go, requester/readdir.go), names
      carry an IV, and no two IVs of the run have the same hash. */
  ghost predicate WellKeyed(c: Config) {
    && (forall i :: 0 <= i < |c.reqs| ==> (c.reqs[i].kind == DecryptName <==> |c.reqs[i].arg2| > 0))
    && (forall i, j | 0 <= i < |c.reqs| && 0 <= j < |c.reqs| && c.reqs[i].kind == c.reqs[j].kind == DecryptName ::
          c.hash(c.reqs[i].arg2) == c.hash(c.reqs[j].arg2) ==> c.reqs[i].arg2 == c.reqs[j].arg2)
  }

  lemma SlotsSeparate(c: Config, r1: Request, r2: Request)
    requires WellKeyed(c) && r1 in c.reqs && r2 in c.reqs
    ensures WorkerSlot(c, r1) == WorkerSlot(c, r2) <==> r1 == r2
  {
    ComplexKeyInjective(c, r1.arg1, r1.arg2, r2.arg1, r2.arg2);
  }

  // -------------------------------------------------------------------- what is returned

  /** Data returned by a call answers a backend request on the very same arguments, and
      has the type of the request, so the assertions of the typed wrappers cannot fail. */
  lemma ReturnedDataIsAnAnswer(c: Config, states: seq<State>, steps: seq<Step>, n: nat, i: nat) returns (m: nat)
    requires Behavior(c, states, steps) && n < |states| && i < |states[n].calls|
    requires states[n].calls[i].Done? && states[n].calls[i].outcome.Returned?
    ensures i < |c.reqs| && m < |states[n].log|
    ensures states[n].log[m].data == states[n].calls[i].outcome.data && Size(states[n].log[m].data) > 0
    ensures WorkerSlot(c, states[n].log[m].req) == ClientSlot(c, c.reqs[i])
    ensures WellTyped(c.reqs[i].kind, states[n].calls[i].outcome.data)
    ensures WellKeyed(c) ==> states[n].log[m].req == c.reqs[i]
  {
    var s := states[n];
    ReachableSound(c, states, steps, n);
    var k := ClientSlot(c, c.reqs[i]);
    assert CallSound(c, s.log, k, s.calls[i]);
    m :| 0 <= m < |s.log| && WorkerSlot(c, s.log[m].req) == k && s.log[m].data == s.calls[i].outcome.data
      && Size(s.log[m].data) > 0;
    if WellKeyed(c) {
      KeysAgree(c, c.reqs[i]);
      SlotsSeparate(c, s.log[m].req, c.reqs[i]);
    }
  }

  /** Over a backend whose answers are fixed by `snap`, a call that returns data returns
      exactly the snapshot's data for its request, and never an empty answer. */
  lemma SnapshotAgreement(c: Config, states: seq<State>, steps: seq<Step>, n: nat, i: nat, snap: Request -> Data)
    requires Behavior(c, states, steps) && n < |states| && i < |states[n].calls| && WellKeyed(c)
    requires forall p :: 0 <= p < n && Said(c, states[p], steps[p]).Some? ==>
      steps[p].raw == snap(Said(c, states[p], steps[p]).value.req)
    requires states[n].calls[i].Done? && states[n].calls[i].outcome.Returned?
    ensures i < |c.reqs| && states[n].calls[i].outcome.data == snap(c.reqs[i]) && Size(snap(c.reqs[i])) > 0
  {
    var m := ReturnedDataIsAnAnswer(c, states, steps, n, i);
    var p := LogEntryStep(c, states, steps, n, m);
  }

  /** If every answer on a call's slot is empty and error-free (in particular if there is
      none), the call never returns data or a backend error: it uses up its attempts. */
  lemma EmptyAnswersExhaust(c: Config, states: seq<State>, steps: seq<Step>, n: nat, i: nat)
    requires Behavior(c, states, steps) && n < |states| && i < |states[n].calls| && i < |c.reqs|
    requires forall p :: 0 <= p < n && SaidOn(c, states[p], steps[p], ClientSlot(c, c.reqs[i])) ==>
      Size(steps[p].raw) == 0 && steps[p].err.None?
    ensures states[n].calls[i].Done? ==>
      states[n].calls[i].outcome in {Exhausted, TimedOut, Panicked}
  {
    var k := ClientSlot(c, c.reqs[i]);
    ReachableSound(c, states, steps, n);
    assert CallSound(c, states[n].log, k, states[n].calls[i]);
    forall x | 0 <= x < |states[n].log| && WorkerSlot(c, states[n].log[x].req) == k
      ensures Size(states[n].log[x].data) == 0 && states[n].log[x].err.None?
    {
      var p := LogEntryStep(c, states, steps, n, x);
      assert SaidOn(c, states[p], steps[p], k);
    }
  }

  /** `DecryptName` with an empty IV looks where no worker stores: unless its ciphertext
      name happens to be another request's complex key, it can never succeed. */
  lemma EmptyIvNeverSucceeds(c: Config, states: seq<State>, steps: seq<Step>, n: nat, i: nat)
    requires Behavior(c, states, steps) && n < |states| && i < |states[n].calls| && i < |c.reqs|
    requires c.reqs[i].kind == DecryptName && c.reqs[i].arg2 == []
    requires forall r :: r in c.reqs && r.kind == DecryptName ==> ComplexKey(c, r.arg1, r.arg2) != c.reqs[i].arg1
    ensures states[n].calls[i].Done? ==> states[n].calls[i].outcome in {Exhausted, TimedOut, Panicked}
  {
    forall p | 0 <= p < n && Said(c, states[p], steps[p]).Some?
      ensures !SaidOn(c, states[p], steps[p], ClientSlot(c, c.reqs[i]))
    {
      assert Said(c, states[p], steps[p]).value.req in c.reqs;
    }
    EmptyAnswersExhaust(c, states, steps, n, i);
  }
}
