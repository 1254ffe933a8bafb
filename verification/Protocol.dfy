/** The single-flight protocol of requester/makerequest.go and requester/requester.go
    as a step machine. Calls of `makeRequest`, numbered workers, the bounded work
    queue, the three caches, the per-worker ticket locks with their condition
    variables, `ClearCache`, `Stop` and the 20 second timeout all interleave freely. */
module Protocol {
  import opened Base
  import opened SyncCacheModel

  // ---------------------------------------------------------------- requests

  datatype Kind = ReadFile | ReadDir | DecryptName

  datatype Request = Request(kind: Kind, arg1: Bytes, arg2: Bytes)

  /** One key of one of the three caches. */
  datatype Slot = Slot(kind: Kind, key: Bytes)

  /** A run's parameters: one request per call of `makeRequest`, the number of
      `ClearCache` calls, and the hash that `complexKey` uses. */
  datatype Config = Config(
    numWorkers: nat, reqs: seq<Request>, numClears: nat, hash: Bytes -> nat)

  const RETRY_ATTEMPTS := 3
  const WORK_QUEUE_SIZE := 1000
  const PLUS: byte := 43

  function HexDigit(d: nat): byte
    requires d < 16
  {
    if d < 10 then 48 + d else 87 + d
  }

  function Hex(n: nat): Bytes {
    if n < 16 then [HexDigit(n)] else Hex(n / 16) + [HexDigit(n % 16)]
  }

  function ComplexKey(c: Config, s: Bytes, b: Bytes): Bytes {
    s + [PLUS] + Hex(c.hash(b))
  }

  /** The cache key the client looks under. */
  function ClientSlot(c: Config, r: Request): Slot {
    Slot(r.kind, if |r.arg2| > 0 then ComplexKey(c, r.arg1, r.arg2) else r.arg1)
  }

  /** The cache key the worker stores under. */
  function WorkerSlot(c: Config, r: Request): Slot {
    Slot(r.kind, if r.kind == DecryptName then ComplexKey(c, r.arg1, r.arg2) else r.arg1)
  }

  // ------------------------------------------------------------------- state

  /** How a call of `makeRequest` ends. `Panicked` is the send on a stopped queue. */
  datatype Outcome =
    | Returned(data: Data) | Failed(err: Error) | Exhausted | TimedOut | Panicked

  /** The program counter of one call; `a` is the attempt, `t` the ticket number. */
  datatype CallPc =
    | Idle
    | AtGet(a: nat)
    | AtEnqueue(a: nat)
    | Waiting(a: nat, chanClosed: bool)
    | GotTicket(a: nat, t: nat)
    | GotClose(a: nat)
    | AtDelete(a: nat)
    | AtLock(a: nat, t: nat)
    | AtLoopGet(a: nat, t: nat)
    | AtWait(a: nat, t: nat)
    | Parked(a: nat, t: nat)
    | AtUnlock(a: nat, t: nat, got: Option<Entry>)
    | Done(outcome: Outcome)

  /** A queued `work` value: the response channel belongs to one attempt of one call. */
  datatype Item = Item(call: nat, attempt: nat)

  datatype WorkerPc =
    | WIdle
    | WGot(item: Item)
    | WSend(item: Item, t: nat, own: bool)
    | WClose(item: Item)
    | WLock(item: Item)
    | WRequest(item: Item)
    | WSet(item: Item, entry: Entry)
    | WBroadcast(item: Item)
    | WUnlock(item: Item)
    | WExited

  datatype Owner = Free | ByCall(i: nat) | ByWorker

  datatype ClearPc =
    | ClearIdle
    | Collecting(kind: Kind)
    | Wiping(kind: Kind, slots: set<Slot>)
    | ClearDone

  datatype Actor = ACall(i: nat) | AClear(j: nat)

  /** History only: what the backend answered to a request, a value written to a cache, and
      the slots one delete operation really removed. `ProtocolHistory` ties it to the steps. */
  datatype BackendCall = BackendCall(req: Request, data: Data, err: Option<Error>)
  datatype Publication = Publication(slot: Slot, entry: Entry)
  datatype Deletion = Deletion(slots: set<Slot>, actor: Actor)

  /** Where the publication and deletion histories stood when a call began. */
  datatype Mark = Mark(pubs: nat, dels: nat)

  datatype State = State(
    cache: map<Slot, Entry>,
    queue: seq<Item>,
    calls: seq<CallPc>,
    workers: seq<WorkerPc>,
    locks: seq<Owner>,
    clears: seq<ClearPc>,
    stopped: bool,
    log: seq<BackendCall>,
    pubs: seq<Publication>,
    dels: seq<Deletion>,
    marks: seq<Mark>)

  /** `New` followed by `Start`; worker and locker 0 are never used. */
  function Init(c: Config): State {
    State(map[], [], seq(|c.reqs|, _ => Idle), seq(c.numWorkers + 1, _ => WIdle),
          seq(c.numWorkers + 1, _ => Free), seq(c.numClears, _ => ClearIdle), false,
          [], [], [], seq(|c.reqs|, _ => Mark(0, 0)))
  }

  predicate Shape(c: Config, s: State) {
    && |s.calls| == |c.reqs| == |s.marks|
    && |s.workers| == |s.locks| == c.numWorkers + 1
    && |s.clears| == c.numClears
    && (forall i :: 0 <= i < |s.calls| ==> CallShape(c, s.calls[i]))
    && (forall w :: 0 <= w < |s.workers| ==> WorkerShape(c, s.workers[w]))
    && (forall p :: 0 <= p < |s.queue| ==> ItemShape(c, s.queue[p]))
    && (forall k :: k in s.cache ==> s.cache[k].locker <= c.numWorkers)
    && s.workers[0] == WIdle
  }

  predicate ItemShape(c: Config, it: Item) {
    it.call < |c.reqs| && it.attempt < RETRY_ATTEMPTS
  }

  predicate CallShape(c: Config, pc: CallPc) {
    && (!pc.Idle? && !pc.Done? ==> pc.a < RETRY_ATTEMPTS)
    && (HasTicket(pc) ==> pc.t <= c.numWorkers)
  }

  predicate WorkerShape(c: Config, pc: WorkerPc) {
    && (!pc.WIdle? && !pc.WExited? ==> ItemShape(c, pc.item))
    && (pc.WSend? ==> pc.t <= c.numWorkers)
    && (pc.WSet? ==> pc.entry.locker == 0)
  }

  predicate HasTicket(pc: CallPc) {
    pc.GotTicket? || pc.AtLock? || pc.AtLoopGet? || pc.AtWait? || pc.Parked? || pc.AtUnlock?
  }

  // ------------------------------------------------------------------- steps

  /** `Answer` is the return of the backend with any well-typed data and any error. */
  datatype Step =
    | Begin(i: nat)
    | CallStep(i: nat)
    | Timeout(i: nat)
    | WorkerStep(w: nat)
    | Answer(w: nat, raw: Data, err: Option<Error>)
    | ClearStep(j: nat)
    | Stop

  predicate WellTyped(k: Kind, d: Data) {
    match k
    case ReadFile => d.FileData?
    case ReadDir => d.DirData?
    case DecryptName => d.NameData?
  }

  /** The request closures of `worker` turn data of length 0 into nil. */
  function NilIfEmpty(d: Data): Option<Data> {
    match d
    case FileData(b) => if |b| > 0 then Some(d) else None
    case DirData(l) => if |l| > 0 then Some(d) else None
    case NameData(n) => if |n| > 0 then Some(d) else None
  }

  predicate Enabled(c: Config, s: State, st: Step)
    requires Shape(c, s)
  {
    match st
    case Begin(i) => i < |s.calls| && s.calls[i] == Idle
    case CallStep(i) => i < |s.calls| && CallEnabled(s, s.calls[i])
    case Timeout(i) => i < |s.calls| && s.calls[i].Waiting?
    case WorkerStep(w) => 1 <= w < |s.workers| && WorkerEnabled(s, w, s.workers[w])
    case Answer(w, raw, err) =>
      && 1 <= w < |s.workers| && s.workers[w].WRequest?
      && WellTyped(c.reqs[s.workers[w].item.call].kind, raw)
    case ClearStep(j) => j < |s.clears| && s.clears[j] != ClearDone
    case Stop => !s.stopped
  }

  predicate CallEnabled(s: State, pc: CallPc)
    requires HasTicket(pc) ==> pc.t < |s.locks|
  {
    match pc
    case Idle => false
    case AtEnqueue(_) => s.stopped || |s.queue| < WORK_QUEUE_SIZE
    case Waiting(_, chanClosed) => chanClosed
    case AtLock(_, t) => s.locks[t] == Free
    case Parked(_, _) => false
    case Done(_) => false
    case _ => true
  }

  predicate WorkerEnabled(s: State, w: nat, pc: WorkerPc)
    requires w < |s.locks|
    requires !pc.WIdle? && !pc.WExited? ==> pc.item.call < |s.calls|
  {
    match pc
    case WIdle => |s.queue| > 0 || s.stopped
    case WSend(it, _, _) => s.calls[it.call] == Waiting(it.attempt, false)
    case WLock(_) => s.locks[w] == Free
    case WRequest(_) => false
    case WExited => false
    case _ => true
  }

  function Apply(c: Config, s: State, st: Step): State
    requires Shape(c, s) && Enabled(c, s, st)
  {
    match st
    case Begin(i) =>
      s.(calls := s.calls[i := AtGet(0)], marks := s.marks[i := Mark(|s.pubs|, |s.dels|)])
    case CallStep(i) => ApplyCall(c, s, i)
    case Timeout(i) => s.(calls := s.calls[i := Done(TimedOut)])
    case WorkerStep(w) => ApplyWorker(c, s, w)
    case Answer(w, raw, err) =>
      var it := s.workers[w].item;
      s.(workers := s.workers[w := WSet(it, Entry(NilIfEmpty(raw), err, 0))],
         log := s.log + [BackendCall(c.reqs[it.call], raw, err)])
    case ClearStep(j) => ApplyClear(s, j)
    case Stop => s.(stopped := true)
  }

  /** `continue`: the next attempt, or the final error once the attempts are used up. */
  function Retry(a: nat): CallPc {
    if a + 1 < RETRY_ATTEMPTS then AtGet(a + 1) else Done(Exhausted)
  }

  /** What the client does with what it read before unlocking the ticket. */
  function AfterUnlock(a: nat, got: Option<Entry>): CallPc {
    if got.None? || !Available(got.value) then Retry(a)
    else if got.value.err.Some? then Done(Failed(got.value.err.value))
    else Done(Returned(got.value.data.value))
  }

  predicate MustWait(t: nat, got: Option<Entry>) {
    got.Some? && !Available(got.value) && t != 0 && got.value.locker == t
  }

  function ApplyCall(c: Config, s: State, i: nat): State
    requires Shape(c, s) && i < |s.calls| && CallEnabled(s, s.calls[i])
  {
    var slot := ClientSlot(c, c.reqs[i]);
    var got := Lookup(s.cache, slot);
    match s.calls[i]
    case AtGet(a) =>
      s.(calls := s.calls[i :=
        if got.Some? && got.value.data.Some? then Done(Returned(got.value.data.value)) else AtEnqueue(a)])
    case AtEnqueue(a) =>
      if s.stopped then s.(calls := s.calls[i := Done(Panicked)])
      else s.(calls := s.calls[i := Waiting(a, false)], queue := s.queue + [Item(i, a)])
    case Waiting(a, _) => s.(calls := s.calls[i := GotClose(a)])
    case GotTicket(a, t) =>
      s.(calls := s.calls[i :=
        if got.None? then Retry(a)
        else if got.value.data.Some? then Done(Returned(got.value.data.value))
        else AtLock(a, t)])
    case GotClose(a) =>
      s.(calls := s.calls[i :=
        if got.None? then Retry(a)
        else if got.value.data.Some? then Done(Returned(got.value.data.value))
        else AtDelete(a)])
    case AtDelete(a) =>
      s.(calls := s.calls[i := Retry(a)], cache := Remove(s.cache, {slot}),
         dels := s.dels + [Deletion({slot} * s.cache.Keys, ACall(i))])
    case AtLock(a, t) => s.(calls := s.calls[i := AtLoopGet(a, t)], locks := s.locks[t := ByCall(i)])
    case AtLoopGet(a, t) =>
      s.(calls := s.calls[i := if MustWait(t, got) then AtWait(a, t) else AtUnlock(a, t, got)])
    case AtWait(a, t) => s.(calls := s.calls[i := Parked(a, t)], locks := s.locks[t := Free])
    case AtUnlock(a, t, read) => s.(calls := s.calls[i := AfterUnlock(a, read)], locks := s.locks[t := Free])
  }

  /** `Broadcast` on ticket `w`: every parked call goes back to taking the lock. */
  function Wake(pc: CallPc, w: nat): CallPc {
    if pc.Parked? && pc.t == w then AtLock(pc.a, pc.t) else pc
  }

  function ApplyWorker(c: Config, s: State, w: nat): State
    requires Shape(c, s) && 1 <= w < |s.workers| && WorkerEnabled(s, w, s.workers[w])
  {
    match s.workers[w]
    case WIdle =>
      if |s.queue| > 0
      then s.(workers := s.workers[w := WGot(s.queue[0])], queue := s.queue[1..])
      else s.(workers := s.workers[w := WExited])
    case WGot(it) =>
      var slot := WorkerSlot(c, c.reqs[it.call]);
      var got := Lookup(s.cache, slot);
      s.(cache := InsertIfAbsent(s.cache, slot, Entry(None, None, w)),
         workers := s.workers[w :=
           if got.None? then WSend(it, w, true)
           else if Available(got.value) then WClose(it)
           else WSend(it, got.value.locker, false)])
    case WSend(it, t, own) =>
      s.(calls := s.calls[it.call := GotTicket(it.attempt, t)],
         workers := s.workers[w := if own then WLock(it) else WIdle])
    case WClose(it) =>
      s.(calls := if s.calls[it.call].Waiting?
                  then s.calls[it.call := Waiting(s.calls[it.call].a, true)] else s.calls,
         workers := s.workers[w := WIdle])
    case WLock(it) => s.(workers := s.workers[w := WRequest(it)], locks := s.locks[w := ByWorker])
    case WSet(it, e) =>
      var slot := WorkerSlot(c, c.reqs[it.call]);
      s.(workers := s.workers[w := WBroadcast(it)], cache := Overwrite(s.cache, slot, e),
         pubs := s.pubs + [Publication(slot, e)])
    case WBroadcast(it) =>
      s.(workers := s.workers[w := WUnlock(it)],
         calls := seq(|s.calls|, i requires 0 <= i < |s.calls| => Wake(s.calls[i], w)))
    case WUnlock(it) => s.(workers := s.workers[w := WIdle], locks := s.locks[w := Free])
  }

  function NextClear(k: Kind): ClearPc {
    match k
    case ReadFile => Collecting(ReadDir)
    case ReadDir => Collecting(DecryptName)
    case DecryptName => ClearDone
  }

  /** `ClearCache`: per cache, collect the keys under the read lock, then delete them
      under the write lock. */
  function ApplyClear(s: State, j: nat): State
    requires j < |s.clears| && s.clears[j] != ClearDone
  {
    match s.clears[j]
    case ClearIdle => s.(clears := s.clears[j := Collecting(ReadFile)])
    case Collecting(k) =>
      s.(clears := s.clears[j := Wiping(k, set x | x in s.cache && x.kind == k)])
    case Wiping(k, slots) =>
      s.(clears := s.clears[j := NextClear(k)], cache := Remove(s.cache, slots),
         dels := s.dels + [Deletion(slots * s.cache.Keys, AClear(j))])
  }

  // -------------------------------------------------------------------- runs

  /** A finite run from the initial state. */
  ghost predicate Behavior(c: Config, states: seq<State>, steps: seq<Step>) {
    && |states| == |steps| + 1
    && states[0] == Init(c)
    && (forall n :: 0 <= n < |steps| ==> Next(c, states[n], steps[n], states[n + 1]))
  }

  ghost predicate Next(c: Config, s: State, st: Step, s': State) {
    Shape(c, s) && Enabled(c, s, st) && s' == Apply(c, s, st)
  }
}
