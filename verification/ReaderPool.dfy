/**
 src/reader/reader.c in its own imperative form. Every method is one critical section of the pool mutex
 and performs exactly one step of PoolModel, so that what PoolInvariant and PoolTheorems prove about runs
 of steps holds of every sequence of these calls.
 */
module ReaderPool {
  import opened CBytes
  import opened PoolModel
  import opened PoolInvariant

  datatype Stats = Stats(completed: int, failed: int, canceled: int, total: int, pending: int)

  class FileReaderPool {
    const maxRequests: nat
    const workerCount: nat
    /** The linked list of queued requests, from its head. */
    var requests: seq<nat>
    var requestCount: int
    var pendingTasks: int
    var completedRequests: int
    var failedRequests: int
    var canceledRequests: int
    var totalRequests: int
    var shutdown: bool
    /** `worker_requests`: it has one cell for each allowed request, and workers index it by their number. */
    const workerRequests: array<Option<Pending>>
    ghost var phases: seq<Phase>
    ghost var log: seq<Callback>
    ghost var accepted: set<nat>
    ghost var queuedCancels: multiset<nat>
    ghost var stopped: set<nat>

    ghost predicate Shape()
      reads this
    {
      |phases| == workerCount <= maxRequests == workerRequests.Length
    }

    ghost function State(): Pool
      requires Shape()
      reads this, workerRequests
    {
      Pool(maxRequests, requests, requestCount, pendingTasks, completedRequests, failedRequests,
           canceledRequests, totalRequests, shutdown, workerRequests[..workerCount], phases,
           log, accepted, queuedCancels, stopped)
    }

    constructor (maxRequests: nat, workerCount: nat)
      requires 0 < workerCount <= maxRequests
      ensures Shape() && State() == Init(maxRequests, workerCount) && Inv(State())
    {
      this.maxRequests, this.workerCount := maxRequests, workerCount;
      requests, requestCount, pendingTasks := [], 0, 0;
      completedRequests, failedRequests, canceledRequests, totalRequests := 0, 0, 0, 0;
      shutdown := false;
      workerRequests := new Option<Pending>[maxRequests](_ => None);
      phases := seq(workerCount, _ => Ready);
      log, accepted, queuedCancels, stopped := [], {}, multiset{}, {};
      new;
      InitInv(maxRequests, workerCount);
      assert State() == Init(maxRequests, workerCount);
    }

    /** `QueueFile`; `id` is what `uuid_generate` returned, `valid` is the parameter check. */
    method QueueFile(id: nat, valid: bool) returns (code: Code)
      requires Shape() && id !in accepted
      modifies this
      ensures Shape()
      ensures code == QueueCode(old(State()), valid) && State() == Queue(old(State()), id, valid)
    {
      if !valid {
        code := InvalidParameter;
      } else if shutdown {
        code := Shutdown;
      } else if requestCount >= maxRequests {
        code := MaxRequestsExceeded;
      } else {
        var list := requests;
        requests := [id] + requests;
        requestCount := requestCount + 1;
        pendingTasks := pendingTasks + 1;
        totalRequests := totalRequests + 1;
        accepted := accepted + {id};
        if list == [] {
          phases := Broadcast(phases);
        }
        code := Ok;
      }
    }

    /** `_CancelFile`: the walk over the list. The entry that is found gets its callback and stays. */
    method CancelQueuedFile(id: nat) returns (code: Code)
      requires Shape()
      modifies this`log, this`queuedCancels
      ensures Shape()
      ensures code == if id in requests then Ok else NotFound
      ensures State() == if id in requests then CancelQueued(old(State()), id) else old(State())
    {
      var i := 0;
      while i < |requests|
        invariant 0 <= i <= |requests|
        invariant id !in requests[..i]
      {
        if requests[i] == id {
          log := log + [Callback(id, Canceled)];
          queuedCancels := queuedCancels + multiset{id};
          return Ok;
        }
        i := i + 1;
      }
      code := NotFound;
    }

    /** `_CancelPendingFile`: the scan over the worker slots. */
    method CancelPendingFile(id: nat) returns (code: Code)
      requires Shape()
      modifies this`stopped, workerRequests
      ensures Shape()
      ensures var oldSlots, w := old(State()).slots, SlotOf(old(State()).slots, id);
              && code == (if w < |oldSlots| then Ok else NotFound)
              && State() == if w < |oldSlots| then CancelPending(old(State()), id, w) else old(State())
    {
      ghost var slots := workerRequests[..workerCount];
      var i := 0;
      while i < workerCount
        invariant 0 <= i <= workerCount
        invariant forall v :: 0 <= v < i ==> slots[v] == None || slots[v].value.id != id
      {
        if workerRequests[i].Some? && workerRequests[i].value.id == id {
          workerRequests[i] := Some(Pending(id, true));
          stopped := stopped + {id};
          assert workerRequests[..workerCount] == slots[i := Some(Pending(id, true))];
          return Ok;
        }
        i := i + 1;
      }
      code := NotFound;
    }

    /** `CancelFile`. */
    method CancelFile(id: nat) returns (code: Code)
      requires Shape()
      modifies this`log, this`queuedCancels, this`stopped, workerRequests
      ensures Shape()
      ensures code == CancelCode(old(State()), id) && State() == Cancel(old(State()), id)
    {
      if shutdown {
        return Shutdown;
      }
      code := CancelQueuedFile(id);
      if code == NotFound {
        code := CancelPendingFile(id);
      }
    }

    /** `GracefullyShutdownFileReaderPool`, up to the joins. */
    method GracefullyShutdown()
      requires Shape()
      modifies this`shutdown, this`phases
      ensures Shape() && State() == Stop(old(State()))
    {
      shutdown := true;
      phases := Broadcast(phases);
    }

    /** `GetReaderPoolStats`: the snapshot always balances. */
    method GetStats() returns (stats: Stats)
      requires Shape() && Inv(State())
      ensures stats == Stats(completedRequests, failedRequests, canceledRequests, totalRequests, pendingTasks)
      ensures stats.total == stats.completed + stats.failed + stats.canceled + stats.pending
      ensures stats.pending == |requests| + BusyCount(phases)
    {
      stats := Stats(completedRequests, failedRequests, canceledRequests, totalRequests, pendingTasks);
    }

    /** The head of `_FileReaderWorker`, from taking the mutex to waiting on it or giving it back. */
    method TakeRequest(w: nat, openOk: bool)
      requires Shape() && w < workerCount && phases[w] == Ready
      modifies this, workerRequests
      ensures Shape() && State() == TakeNext(old(State()), w, openOk)
    {
      ghost var slots := workerRequests[..workerCount];
      if shutdown && requestCount == 0 {
        phases := phases[w := Exited];
        return;
      }
      if !shutdown && requestCount == 0 {
        phases := phases[w := Asleep];
        return;
      }
      if requests == [] {
        return;
      }
      var entry := requests[0];
      requests := requests[1..];
      requestCount := requestCount - 1;
      if !openOk {
        log := log + [Callback(entry, FileNotFound)];
        failedRequests := failedRequests + 1;
        pendingTasks := pendingTasks - 1;
        return;
      }
      workerRequests[w] := Some(Pending(entry, false));
      phases := phases[w := Busy(entry)];
      assert workerRequests[..workerCount] == slots[w := Some(Pending(entry, false))];
    }

    /** The tail of `_FileReaderWorker`, after `fstat` and `read` have turned out as `result`. */
    method FinishRequest(w: nat, result: ReadResult)
      requires Shape() && w < workerCount && phases[w].Busy? && workerRequests[w].Some?
      modifies this, workerRequests
      ensures Shape() && State() == FinishRead(old(State()), w, result)
    {
      ghost var slots := workerRequests[..workerCount];
      var pending := workerRequests[w].value;
      phases := phases[w := Ready];
      pendingTasks := pendingTasks - 1;
      if result.StatMissing? || result.StatFailed? || result.NotRegular? || result.TooLarge? {
        var error := if result.StatMissing? then FileNotFound else if result.StatFailed? then ReadingFile
                     else if result.NotRegular? then NotRegularFile else FileTooLarge;
        log := log + [Callback(pending.id, error)];
        failedRequests := failedRequests + 1;
        return;
      }
      workerRequests[w] := None;
      assert workerRequests[..workerCount] == slots[w := None];
      if result.BadDescriptor? || (result.Bytes? && pending.canceled) {
        log := log + [Callback(pending.id, Canceled)];
        canceledRequests := canceledRequests + 1;
      } else if result.ReadError? {
        log := log + [Callback(pending.id, ReadingFile)];
        failedRequests := failedRequests + 1;
      } else {
        log := log + [Callback(pending.id, Done)];
        completedRequests := completedRequests + 1;
      }
    }

    /** `pthread_cond_wait` returns without a broadcast. */
    method Awaken(w: nat)
      requires Shape() && w < workerCount && phases[w] == Asleep
      modifies this`phases
      ensures Shape() && State() == old(State()).(phases := old(phases)[w := Ready])
    {
      phases := phases[w := Ready];
    }

    /** One critical section, by whichever thread gets the mutex next. */
    method Perform(e: Event)
      requires Shape() && Enabled(State(), e)
      modifies this, workerRequests
      ensures Shape() && State() == Step(old(State()), e)
    {
      match e {
        case QueueFile(id, valid) => var _ := QueueFile(id, valid);
        case CancelFile(id) => var _ := CancelFile(id);
        case GracefulShutdown => GracefullyShutdown();
        case Take(w, openOk) => TakeRequest(w, openOk);
        case Finish(w, result) =>
          assert workerRequests[w] == State().slots[w];
          FinishRequest(w, result);
        case SpuriousWakeup(w) => Awaken(w);
      }
    }

    /** Any interleaving of critical sections is a run of the model, so what holds of all runs holds of it. */
    method Interleave(es: seq<Event>)
      requires Shape() && CanRun(State(), es)
      modifies this, workerRequests
      ensures Shape() && State() == Run(old(State()), es)
      ensures old(Inv(State())) ==> Inv(State())
    {
      ghost var start := State();
      var i := 0;
      while i < |es|
        invariant 0 <= i <= |es| && Shape()
        invariant CanRun(State(), es[i..]) && Run(State(), es[i..]) == Run(start, es)
      {
        assert es[i..][0] == es[i] && es[i..][1..] == es[i + 1..];
        Perform(es[i]);
        i := i + 1;
      }
      if Inv(start) {
        InvRun(start, es);
      }
    }
  }
}
