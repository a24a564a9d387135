/**
 src/reader/reader.c as a labelled transition system: one step per critical section of the pool mutex,
 with the history needed to state what callers observe.
 */
module PoolModel {

  import opened CBytes

  /** What a callback reports. */
  datatype Outcome = Done | Canceled | FileNotFound | ReadingFile | FileTooLarge | NotRegularFile

  /** The counter that accounts for an outcome. */
  datatype Kind = Completion | Failure | Cancellation

  function KindOf(outcome: Outcome): Kind {
    if outcome == Done then Completion else if outcome == Canceled then Cancellation else Failure
  }

  datatype Callback = Callback(id: nat, outcome: Outcome)

  /** A `PendingFile` that a worker slot points to. */
  datatype Pending = Pending(id: nat, canceled: bool)

  /** Where a worker thread is: before its next critical section, in `cond_wait`, reading, or gone. */
  datatype Phase = Ready | Asleep | Busy(id: nat) | Exited

  /** How stat and read of an open file turn out. */
  datatype ReadResult = StatMissing | StatFailed | NotRegular | TooLarge | BadDescriptor | ReadError | Bytes

  datatype Code = Ok | NotFound | Shutdown | MaxRequestsExceeded | InvalidParameter

  datatype Pool = Pool(
    maxRequests: nat,
    requests: seq<nat>,           // queued request ids, newest first
    requestCount: int,
    pendingTasks: int,
    completed: int,
    failed: int,
    canceled: int,
    total: int,
    shutdown: bool,
    slots: seq<Option<Pending>>,  // worker_requests, one cell per worker
    phases: seq<Phase>,
    log: seq<Callback>,           // history: callbacks made
    accepted: set<nat>,           // history: ids handed out by QueueFile
    queuedCancels: multiset<nat>, // history: CancelFile calls that found their request still queued
    stopped: set<nat>)            // history: ids that CancelFile found in a worker slot

  datatype Event =
    | QueueFile(id: nat, valid: bool)
    | CancelFile(id: nat)
    | GracefulShutdown
    | Take(worker: nat, openOk: bool)
    | Finish(worker: nat, result: ReadResult)
    | SpuriousWakeup(worker: nat)

  function Init(maxRequests: nat, workerCount: nat): Pool {
    Pool(maxRequests, [], 0, 0, 0, 0, 0, 0, false, seq(workerCount, _ => None), seq(workerCount, _ => Ready),
         [], {}, multiset{}, {})
  }

  /** `pthread_cond_broadcast`. */
  function Broadcast(phases: seq<Phase>): (r: seq<Phase>)
    ensures |r| == |phases|
  {
    seq(|phases|, w requires 0 <= w < |phases| => if phases[w] == Asleep then Ready else phases[w])
  }

  // ---- The critical sections ----

  function QueueCode(p: Pool, valid: bool): Code {
    if !valid then InvalidParameter
    else if p.shutdown then Shutdown
    else if p.requestCount >= p.maxRequests then MaxRequestsExceeded
    else Ok
  }

  /** `QueueFile`, with the fresh id that `uuid_generate` returned. */
  function Queue(p: Pool, id: nat, valid: bool): Pool {
    if QueueCode(p, valid) != Ok then p
    else p.(requests := [id] + p.requests,
            requestCount := p.requestCount + 1,
            pendingTasks := p.pendingTasks + 1,
            total := p.total + 1,
            phases := if p.requests == [] then Broadcast(p.phases) else p.phases,
            accepted := p.accepted + {id})
  }

  /** The first slot that points to a `PendingFile` with this id, or |slots|. */
  function SlotOf(slots: seq<Option<Pending>>, id: nat): (w: nat)
    ensures w <= |slots|
    ensures w < |slots| ==> slots[w].Some? && slots[w].value.id == id
    ensures forall v :: 0 <= v < w ==> slots[v] == None || slots[v].value.id != id
  {
    if slots == [] || (slots[0].Some? && slots[0].value.id == id) then 0 else 1 + SlotOf(slots[1..], id)
  }

  function CancelCode(p: Pool, id: nat): Code {
    if p.shutdown then Shutdown
    else if id in p.requests || SlotOf(p.slots, id) < |p.slots| then Ok
    else NotFound
  }

  /**
   `_CancelFile` on a queued request: it gets its callback but stays queued, because the success code of
   `_SendCancel` is taken for a failure.
   */
  function CancelQueued(p: Pool, id: nat): Pool {
    p.(log := p.log + [Callback(id, Canceled)], queuedCancels := p.queuedCancels + multiset{id})
  }

  /** `_CancelPendingFile`: the request in slot `w` is marked. */
  function CancelPending(p: Pool, id: nat, w: nat): Pool
    requires w < |p.slots|
  {
    p.(slots := p.slots[w := Some(Pending(id, true))], stopped := p.stopped + {id})
  }

  /** `CancelFile`. */
  function Cancel(p: Pool, id: nat): Pool {
    if p.shutdown then p
    else if id in p.requests then CancelQueued(p, id)
    else
      var w := SlotOf(p.slots, id);
      if w < |p.slots| then CancelPending(p, id, w) else p
  }

  /** `GracefullyShutdownFileReaderPool`, up to the joins. */
  function Stop(p: Pool): Pool {
    p.(shutdown := true, phases := Broadcast(p.phases))
  }

  /** The head of `_FileReaderWorker`: leave, sleep, or extract the newest request and open its file. */
  function TakeNext(p: Pool, w: nat, openOk: bool): Pool
    requires w < |p.phases| == |p.slots|
  {
    if p.requestCount == 0 then
      p.(phases := p.phases[w := if p.shutdown then Exited else Asleep])
    else if p.requests == [] then p
    else
      var id := p.requests[0];
      var q := p.(requests := p.requests[1..], requestCount := p.requestCount - 1);
      if openOk then
        q.(slots := q.slots[w := Some(Pending(id, false))], phases := q.phases[w := Busy(id)])
      else
        q.(log := q.log + [Callback(id, FileNotFound)], failed := q.failed + 1, pendingTasks := q.pendingTasks - 1)
  }

  function OutcomeOf(result: ReadResult, canceled: bool): Outcome {
    match result
    case StatMissing => FileNotFound
    case StatFailed => ReadingFile
    case NotRegular => NotRegularFile
    case TooLarge => FileTooLarge
    case BadDescriptor => Outcome.Canceled
    case ReadError => ReadingFile
    case Bytes => if canceled then Outcome.Canceled else Done
  }

  /** The errors found before `read` leave the slot pointing to the finished `PendingFile`. */
  predicate KeepsSlot(result: ReadResult) {
    result.StatMissing? || result.StatFailed? || result.NotRegular? || result.TooLarge?
  }

  /** The tail of `_FileReaderWorker`: report the outcome of the request in the worker's slot. */
  function FinishRead(p: Pool, w: nat, result: ReadResult): Pool
    requires w < |p.phases| == |p.slots| && p.slots[w].Some?
  {
    var pending := p.slots[w].value;
    var outcome := OutcomeOf(result, pending.canceled);
    p.(log := p.log + [Callback(pending.id, outcome)],
       completed := p.completed + if KindOf(outcome) == Completion then 1 else 0,
       canceled := p.canceled + if KindOf(outcome) == Cancellation then 1 else 0,
       failed := p.failed + if KindOf(outcome) == Failure then 1 else 0,
       pendingTasks := p.pendingTasks - 1,
       slots := if KeepsSlot(result) then p.slots else p.slots[w := None],
       phases := p.phases[w := Ready])
  }

  predicate Enabled(p: Pool, e: Event) {
    && |p.phases| == |p.slots|
    && match e
       case QueueFile(id, _) => id !in p.accepted
       case CancelFile(_) => true
       case GracefulShutdown => true
       case Take(w, _) => w < |p.phases| && p.phases[w] == Ready
       case Finish(w, _) => w < |p.phases| && p.phases[w].Busy? && p.slots[w].Some?
       case SpuriousWakeup(w) => w < |p.phases| && p.phases[w] == Asleep
  }

  function Step(p: Pool, e: Event): Pool
    requires Enabled(p, e)
  {
    match e
    case QueueFile(id, valid) => Queue(p, id, valid)
    case CancelFile(id) => Cancel(p, id)
    case GracefulShutdown => Stop(p)
    case Take(w, openOk) => TakeNext(p, w, openOk)
    case Finish(w, result) => FinishRead(p, w, result)
    case SpuriousWakeup(w) => p.(phases := p.phases[w := Ready])
  }

  // ---- Runs ----

  predicate CanRun(p: Pool, es: seq<Event>)
    decreases |es|
  {
    es == [] || (Enabled(p, es[0]) && CanRun(Step(p, es[0]), es[1..]))
  }

  function Run(p: Pool, es: seq<Event>): Pool
    requires CanRun(p, es)
    decreases |es|
  {
    if es == [] then p else Run(Step(p, es[0]), es[1..])
  }
}
