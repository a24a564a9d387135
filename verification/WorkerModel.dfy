/**
 src/server/worker.c as a labelled transition system. The worker thread holds its mutex from the loop head
 to `pselect` and during the whole sweep after it; a sweep is cut into the points between which the callback
 of a file read, which takes no mutex of the worker, may run.
 */
module WorkerModel {

  /** `HttpRequestState`. */
  datatype State = Connect | Read | Waiting | Write | Done | Error

  /** `id` stands for the address of the request; its socket number may be used again after it is closed. */
  datatype Request = Request(id: nat, fd: nat, state: State)

  /** Where the sweep is with its current entry: before the read test, inside QueueFile, before the write test. */
  datatype Stage = AtRead | Fetched | AtWrite

  datatype Phase =
    | Top
    | Asleep
    | Woken
    | Selecting(readFds: set<nat>, writeFds: set<nat>)
    | Sweeping(readFds: set<nat>, writeFds: set<nat>, todo: nat, stage: Stage)
    | Exited
    | Crashed

  datatype Worker = Worker(
    maxRequests: nat,
    requests: seq<Request>,   // newest first
    currentRequests: int,
    shutdown: bool,
    phase: Phase,
    fetching: set<nat>,       // ids whose file read has been queued and has not called back
    accepted: set<nat>,       // history: ids of all accepted requests
    closed: seq<nat>)         // history: ids of the requests whose socket was closed, in order

  /**
   What `_ReadRequest` comes to: more bytes are needed; the read, the parse or a resource failed; the response
   is ready; or the file has to be fetched first.
   */
  datatype Reading = Incomplete | Broken | Answered | Fetch

  /** What `pselect` returns. */
  datatype Selected = Ready(readable: set<nat>, writable: set<nat>) | Interrupted | Failed

  datatype Code = Ok | Shutdown | MaxRequestsExceeded

  datatype Event =
    | AddRequest(id: nat, fd: nat)
    | GracefulShutdown
    | LoopTop
    | SpuriousWakeup
    | Resume
    | Select(selected: Selected)
    | ReadCurrent(reading: Reading)
    | MarkWaiting
    | WriteCurrent(complete: bool)
    | EndSweep
    | Callback(id: nat, ok: bool)

  function Init(maxRequests: nat): Worker {
    Worker(maxRequests, [], 0, false, Top, {}, {}, [])
  }

  function Ids(requests: seq<Request>): (ids: seq<nat>)
    ensures |ids| == |requests| && forall i :: 0 <= i < |ids| ==> ids[i] == requests[i].id
  {
    seq(|requests|, i requires 0 <= i < |requests| => requests[i].id)
  }

  function Fds(requests: seq<Request>): set<nat> {
    set r | r in requests :: r.fd
  }

  predicate Ended(r: Request) {
    r.state == Done || r.state == Error
  }

  /** The mutex is free: the worker is asleep, in `pselect`, between two rounds, or gone. */
  predicate Unlocked(w: Worker) {
    !w.phase.Sweeping?
  }

  // ---- The critical sections ----

  function AddCode(w: Worker): Code {
    if w.shutdown then Shutdown else if w.currentRequests >= w.maxRequests then MaxRequestsExceeded else Ok
  }

  function Signaled(phase: Phase): Phase {
    if phase == Asleep then Woken else phase
  }

  /** `AddRequest`: the condition is signaled only when the list was empty. */
  function Add(w: Worker, id: nat, fd: nat): Worker {
    if AddCode(w) != Ok then w
    else w.(requests := [Request(id, fd, Connect)] + w.requests,
            currentRequests := w.currentRequests + 1,
            accepted := w.accepted + {id},
            phase := if w.currentRequests == 0 then Signaled(w.phase) else w.phase)
  }

  /** `GracefullyShutdownWorker`, up to the join. */
  function Stop(w: Worker): Worker {
    w.(shutdown := true, phase := Signaled(w.phase))
  }

  function Connected(r: Request): Request {
    if r.state == Connect then r.(state := Read) else r
  }

  function FdsIn(requests: seq<Request>, state: State): set<nat> {
    set r | r in requests && r.state == state :: r.fd
  }

  /** The walk that connects new requests and registers the sockets of those that read or write. */
  function Register(w: Worker): Worker {
    w.(requests := seq(|w.requests|, i requires 0 <= i < |w.requests| => Connected(w.requests[i])),
       phase := Selecting(FdsIn(w.requests, Read), FdsIn(w.requests, Write)))
  }

  /** The head of the loop, from locking the mutex to `pthread_cond_wait` or `pselect`. */
  function LoopHead(w: Worker): Worker {
    if w.currentRequests == 0 then w.(phase := if w.shutdown then Exited else Asleep) else Register(w)
  }

  /** After `pthread_cond_wait` only the shutdown is tested again. */
  function AfterWait(w: Worker): Worker {
    if w.shutdown && w.currentRequests == 0 then w.(phase := Exited) else Register(w)
  }

  function AfterSelect(w: Worker, selected: Selected): Worker {
    match selected
    case Ready(readable, writable) => w.(phase := Sweeping(readable, writable, |w.requests|, AtRead))
    case Interrupted => w.(phase := Top)
    case Failed => w.(phase := Crashed)
  }

  /** The sweep has a current entry. */
  predicate HasCurrent(w: Worker) {
    w.phase.Sweeping? && 0 < w.phase.todo <= |w.requests|
  }

  function Current(w: Worker): (i: nat)
    requires HasCurrent(w)
    ensures i < |w.requests|
  {
    |w.requests| - w.phase.todo
  }

  function SetState(w: Worker, i: nat, state: State): Worker
    requires i < |w.requests|
  {
    w.(requests := w.requests[i := w.requests[i].(state := state)])
  }

  /** The read test of the sweep and `_ReadRequest`, up to the call of QueueFile when the file is not cached. */
  function ReadEntry(w: Worker, reading: Reading): Worker
    requires HasCurrent(w)
  {
    var i := Current(w);
    if w.requests[i].fd !in w.phase.readFds then w.(phase := w.phase.(stage := AtWrite))
    else match reading
      case Incomplete => SetState(w, i, Read).(phase := w.phase.(stage := AtWrite))
      case Broken => SetState(w, i, Error).(phase := w.phase.(stage := AtWrite))
      case Answered => SetState(w, i, Write).(phase := w.phase.(stage := AtWrite))
      case Fetch => SetState(w, i, Read).(phase := w.phase.(stage := Fetched),
                                          fetching := w.fetching + {w.requests[i].id})
  }

  /** The assignment after QueueFile. */
  function Mark(w: Worker): Worker
    requires HasCurrent(w)
  {
    SetState(w, Current(w), Waiting).(phase := w.phase.(stage := AtWrite))
  }

  function Written(r: Request, writeFds: set<nat>, complete: bool): Request {
    if r.fd in writeFds then r.(state := if complete then Done else Write) else r
  }

  /** The write test of the sweep, and the removal of a request that has ended. */
  function WriteEntry(w: Worker, complete: bool): Worker
    requires HasCurrent(w)
  {
    var i := Current(w);
    var r := Written(w.requests[i], w.phase.writeFds, complete);
    var v := w.(phase := w.phase.(stage := AtRead, todo := w.phase.todo - 1));
    if Ended(r) then
      v.(requests := w.requests[..i] + w.requests[i + 1..], currentRequests := w.currentRequests - 1,
         closed := w.closed + [r.id])
    else v.(requests := w.requests[i := r])
  }

  /** `_ReadFileCallback`: a failed read is answered with a response too, unless preparing it fails. */
  function CallBack(w: Worker, id: nat, ok: bool): Worker {
    w.(requests := seq(|w.requests|, i requires 0 <= i < |w.requests| =>
                         if w.requests[i].id == id then w.requests[i].(state := if ok then Write else Error)
                         else w.requests[i]),
       fetching := w.fetching - {id})
  }

  // ---- Steps and runs ----

  predicate Enabled(w: Worker, e: Event) {
    match e
    case AddRequest(id, fd) => Unlocked(w) && id !in w.accepted && fd !in Fds(w.requests)
    case GracefulShutdown => Unlocked(w)
    case LoopTop => w.phase == Top
    case SpuriousWakeup => w.phase == Asleep
    case Resume => w.phase == Woken
    case Select(s) =>
      w.phase.Selecting? && (s.Ready? ==> s.readable <= w.phase.readFds && s.writable <= w.phase.writeFds)
    case ReadCurrent(_) => HasCurrent(w) && w.phase.stage == AtRead
    case MarkWaiting => HasCurrent(w) && w.phase.stage == Fetched
    case WriteCurrent(_) => HasCurrent(w) && w.phase.stage == AtWrite
    case EndSweep => w.phase.Sweeping? && w.phase.todo == 0
    case Callback(id, _) => id in w.fetching
  }

  function Step(w: Worker, e: Event): Worker
    requires Enabled(w, e)
  {
    match e
    case AddRequest(id, fd) => Add(w, id, fd)
    case GracefulShutdown => Stop(w)
    case LoopTop => LoopHead(w)
    case SpuriousWakeup => w.(phase := Woken)
    case Resume => AfterWait(w)
    case Select(s) => AfterSelect(w, s)
    case ReadCurrent(reading) => ReadEntry(w, reading)
    case MarkWaiting => Mark(w)
    case WriteCurrent(complete) => WriteEntry(w, complete)
    case EndSweep => w.(phase := Top)
    case Callback(id, ok) => CallBack(w, id, ok)
  }

  predicate CanRun(w: Worker, es: seq<Event>)
    decreases |es|
  {
    es == [] || (Enabled(w, es[0]) && CanRun(Step(w, es[0]), es[1..]))
  }

  function Run(w: Worker, es: seq<Event>): Worker
    requires CanRun(w, es)
    decreases |es|
  {
    if es == [] then w else Run(Step(w, es[0]), es[1..])
  }

  lemma {:induction false} RunConcat(w: Worker, es: seq<Event>, fs: seq<Event>)
    requires CanRun(w, es) && CanRun(Run(w, es), fs)
    ensures CanRun(w, es + fs) && Run(w, es + fs) == Run(Run(w, es), fs)
    decreases |es|
  {
    if es == [] {
      assert es + fs == fs;
    } else {
      assert (es + fs)[1..] == es[1..] + fs;
      RunConcat(Step(w, es[0]), es[1..], fs);
    }
  }

  lemma RunOne(w: Worker, e: Event, es: seq<Event>)
    requires Enabled(w, e) && CanRun(Step(w, e), es)
    ensures CanRun(w, [e] + es) && Run(w, [e] + es) == Run(Step(w, e), es)
  {
    assert ([e] + es)[1..] == es;
  }
}
