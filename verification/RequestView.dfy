/** The request layer seen from above: over a backend that does not change, a call that
    completes gives exactly the answer that `TreeView` works with. */
module RequestView {
  import opened Base
  import opened SyncCacheModel
  import opened Protocol
  import opened ProtocolHistory
  import opened ProtocolSoundness
  import opened ProtocolBudget
  import NameCodec
  import TreeView

  /** The backend's answer `raw` and `err`, as a snapshot gives it: data or an error, never both. */
  predicate AnswersAs(raw: Data, err: Option<Error>, answer: Result<Data>) {
    if answer.Ok? then raw == answer.value && err.None? else Size(raw) == 0 && err == Some(answer.error)
  }

  /** Each of the first `n` steps that answers a request answers it as `snap` does. */
  ghost predicate Snapshot(c: Config, states: seq<State>, steps: seq<Step>, n: nat, snap: Request -> Result<Data>)
    requires n <= |steps| && n <= |states|
  {
    forall p :: 0 <= p < n && Said(c, states[p], steps[p]).Some? ==>
      AnswersAs(steps[p].raw, steps[p].err, snap(Said(c, states[p], steps[p]).value.req))
  }

  /** The answers on a call's slot are answers to its own request. */
  lemma SlotAnswers(c: Config, states: seq<State>, steps: seq<Step>, n: nat, snap: Request -> Result<Data>, r: Request,
                    p: nat)
    requires Behavior(c, states, steps) && n < |states| && WellKeyed(c) && r in c.reqs
    requires Snapshot(c, states, steps, n, snap) && p < n && SaidOn(c, states[p], steps[p], ClientSlot(c, r))
    ensures AnswersAs(steps[p].raw, steps[p].err, snap(r))
  {
    KeysAgree(c, r);
    SlotsSeparate(c, Said(c, states[p], steps[p]).value.req, r);
  }

  lemma WellKeyedMatch(c: Config)
    requires WellKeyed(c)
    ensures KeysMatch(c)
  {
    forall i | 0 <= i < |c.reqs| ensures ClientSlot(c, c.reqs[i]) == WorkerSlot(c, c.reqs[i]) {
      KeysAgree(c, c.reqs[i]);
    }
  }

  /** A finished call that saw fewer than three deletions by others, over a fixed backend: it
      returns the backend's data if and only if that is not empty, it gives up if and only if
      the answer is empty, and on a backend error it returns that error or gives up. */
  lemma CallSeesSnapshot(c: Config, states: seq<State>, steps: seq<Step>, n: nat, i: nat, snap: Request -> Result<Data>)
    requires Behavior(c, states, steps) && n < |states| && WellKeyed(c) && Snapshot(c, states, steps, n, snap)
    requires i < |states[n].calls| && i < |c.reqs| && i < |states[n].marks|
    requires states[n].calls[i].Done? && states[n].calls[i].outcome !in {TimedOut, Panicked}
    requires ForeignSince(states[n], ClientSlot(c, c.reqs[i]), i) < RETRY_ATTEMPTS
    ensures var o := states[n].calls[i].outcome;
      match snap(c.reqs[i])
      case Ok(d) => o == if Size(d) > 0 then Returned(d) else Exhausted
      case Err(e) => o == Failed(e) || o == Exhausted
  {
    var s, r := states[n], c.reqs[i];
    forall p | 0 <= p < n && SaidOn(c, states[p], steps[p], ClientSlot(c, r))
      ensures AnswersAs(steps[p].raw, steps[p].err, snap(r))
    {
      SlotAnswers(c, states, steps, n, snap, r, p);
    }
    if snap(r).Ok? && Size(snap(r).value) > 0 {
      WellKeyedMatch(c);
      RetryBudget(c, states, steps, n, i);
      var m := ReturnedDataIsAnAnswer(c, states, steps, n, i);
      var p := LogEntryStep(c, states, steps, n, m);
    } else if snap(r).Ok? {
      EmptyAnswersExhaust(c, states, steps, n, i);
    } else {
      ErrorOutcome(c, states, steps, n, i, snap(r).error);
    }
  }

  /** If all answers on a call's slot are the same error, the call returns it or gives up. */
  lemma ErrorOutcome(c: Config, states: seq<State>, steps: seq<Step>, n: nat, i: nat, e: Error)
    requires Behavior(c, states, steps) && n < |states| && i < |states[n].calls| && i < |c.reqs|
    requires states[n].calls[i].Done? && states[n].calls[i].outcome !in {TimedOut, Panicked}
    requires forall p :: 0 <= p < n && SaidOn(c, states[p], steps[p], ClientSlot(c, c.reqs[i])) ==>
      Size(steps[p].raw) == 0 && steps[p].err == Some(e)
    ensures states[n].calls[i].outcome in {Failed(e), Exhausted}
  {
    var s, k := states[n], ClientSlot(c, c.reqs[i]);
    ReachableSound(c, states, steps, n);
    assert CallSound(c, s.log, k, s.calls[i]);
    forall x | 0 <= x < |s.log| && WorkerSlot(c, s.log[x].req) == k
      ensures Size(s.log[x].data) == 0 && s.log[x].err == Some(e)
    {
      var p := LogEntryStep(c, states, steps, n, x);
      assert SaidOn(c, states[p], steps[p], k);
    }
  }

  // --------------------------------------------------------------- the view's requests

  function Wrap<T>(r: Result<T>, f: T -> Data): Result<Data> {
    if r.Ok? then Ok(f(r.value)) else Err(r.error)
  }

  /** What the backend and the name cipher of a view say to a request. */
  function Backing(v: TreeView.View, r: Request): Result<Data> {
    match r.kind
    case ReadFile => Wrap(v.backend.readFile(r.arg1), (b: Bytes) => FileData(b))
    case ReadDir => Wrap(v.backend.readDir(r.arg1), (l: seq<FileInfo>) => DirData(l))
    case DecryptName => Wrap(NameCodec.DecryptName(v.names, r.arg1, r.arg2), (b: Bytes) => NameData(b))
  }

  /** What `TreeView` takes the answer to be. */
  function Expected(v: TreeView.View, r: Request): Result<Data> {
    match r.kind
    case ReadFile => Wrap(TreeView.Answer(v.backend.readFile(r.arg1)), (b: Bytes) => FileData(b))
    case ReadDir => Wrap(TreeView.Answer(v.backend.readDir(r.arg1)), (l: seq<FileInfo>) => DirData(l))
    case DecryptName => Wrap(TreeView.RequestName(v, r.arg1, r.arg2), (b: Bytes) => NameData(b))
  }

  /** The bridge between the two layers: a call returns the data that `TreeView` expects where
      it expects data, and fails where it expects an error. */
  lemma CallSeesView(c: Config, states: seq<State>, steps: seq<Step>, n: nat, i: nat, v: TreeView.View)
    requires Behavior(c, states, steps) && n < |states| && WellKeyed(c)
    requires Snapshot(c, states, steps, n, r => Backing(v, r))
    requires i < |states[n].calls| && i < |c.reqs| && i < |states[n].marks|
    requires states[n].calls[i].Done? && states[n].calls[i].outcome !in {TimedOut, Panicked}
    requires ForeignSince(states[n], ClientSlot(c, c.reqs[i]), i) < RETRY_ATTEMPTS
    ensures var o := states[n].calls[i].outcome; var want := Expected(v, c.reqs[i]);
      if want.Ok? then o == Returned(want.value) else o.Failed? || o == Exhausted
  {
    CallSeesSnapshot(c, states, steps, n, i, r => Backing(v, r));
  }
}
