/** The whole pool as a state machine: workers, posters, a canceller and the
    event loops, interleaved at the granularity of the source's critical
    sections. */
module ThreadPoolSteps {
  import opened Wrappers
  import opened Sequences
  import opened ThreadPool

  /** Where a worker is outside the global mutex. */
  datatype Pc =
    | Ready(finishedSlow: bool)  // about to lock the mutex; finishedSlow: must decrement slow_io_work_running
    | Asleep                     // in uv_cond_wait, signalled or not
    | Taken(id: Id, slow: bool)  // unlocked the mutex with a request in hand
    | Worked(id: Id, slow: bool) // the submitted function has returned
    | Exited

  /** Values of w->work: the submitted function, NULL, or uv__cancelled. */
  datatype Fn = Submitted | Null | Cancelled

  datatype Status = Ok | ECanceled

  /** Where a request is; kept beside the queues, never consulted by a step. */
  datatype Place =
    | InWq | InPending | AtWorker(t: Tid)
    | AtCanceller(l: LoopId) | InLoopWq(l: LoopId) | InMoved(l: LoopId)
    | Finished

  /** A request: the fields of struct uv__work, and what has happened to it. */
  datatype Request = Request(
    loop: LoopId,
    kind: Kind,
    work: Fn,
    selfLinked: bool,   // QUEUE_EMPTY(&w->wq)
    place: Place,
    runs: nat,          // calls of the work function
    cancels: nat,       // successful uv__work_cancel calls
    dones: seq<Status>) // done calls, with their status

  /** An event loop: its queue of finished requests, the local list of a running
      uv__work_done, the request a running uv__work_cancel holds, and whether its
      async handle has been sent. */
  datatype Loop = Loop(wq: seq<Id>, moved: seq<Id>, cancelling: Option<Id>, async: bool)

  datatype State = State(
    n: nat,                      // nthreads
    sh: Shared,
    pcs: seq<Pc>,
    requests: map<Id, Request>,
    loops: map<LoopId, Loop>)

  datatype Action =
    | Submit(id: Id, loop: LoopId, kind: Kind, pick: Tid)
    | PostExit(pick: Tid)
    | Section(t: Tid, pick: Tid)   // a worker gets the mutex
    | SpuriousWakeup(t: Tid)
    | RunWork(t: Tid)
    | Publish(t: Tid)
    | CancelTest(id: Id)
    | CancelPublish(loop: LoopId)
    | MoveDone(loop: LoopId)       // uv__work_done takes the loop's queue
    | CallDone(loop: LoopId)       // one iteration of its loop

  ghost predicate Initial(s: State) {
    && s.n >= 1
    && s.sh == Shared([], [], 0, 0, {}, {})
    && |s.pcs| == s.n && (forall t :: 0 <= t < s.n ==> s.pcs[t] == Ready(false))
    && s.requests == map[]
    && forall l :: l in s.loops ==> s.loops[l] == Loop([], [], None, false)
  }

  /** The test of uv__work_cancel, made under both mutexes. */
  predicate Cancellable(r: Request) {
    !r.selfLinked && r.work != Null
  }

  /** May the step be taken? Cancelling is done by the thread of the request's
      loop and before the done call; that thread is not in the middle of another
      cancel, and uv__work_done is not re-entered. */
  predicate Enabled(s: State, a: Action) {
    match a
    case Submit(id, loop, kind, pick) => id !in s.requests && loop in s.loops && Chosen(s.sh, pick)
    case PostExit(pick) => ExitMessage !in s.sh.wq && Chosen(s.sh, pick)
    case Section(t, pick) =>
      t < |s.pcs| && (s.pcs[t].Ready? || t in s.sh.woken) && Chosen(s.sh, pick)
    case SpuriousWakeup(t) => t in s.sh.waiting
    case RunWork(t) => t < |s.pcs| && s.pcs[t].Taken? && s.pcs[t].id in s.requests
    case Publish(t) =>
      && t < |s.pcs| && s.pcs[t].Worked? && s.pcs[t].id in s.requests
      && s.requests[s.pcs[t].id].loop in s.loops
    case CancelTest(id) =>
      && id in s.requests && s.requests[id].dones == []
      && s.requests[id].loop in s.loops && s.loops[s.requests[id].loop].cancelling.None?
    case CancelPublish(loop) =>
      loop in s.loops && s.loops[loop].cancelling.Some? && s.loops[loop].cancelling.value in s.requests
    case MoveDone(loop) =>
      loop in s.loops && s.loops[loop].async && s.loops[loop].cancelling.None? && s.loops[loop].moved == []
    case CallDone(loop) =>
      && loop in s.loops && s.loops[loop].cancelling.None? && s.loops[loop].moved != []
      && s.loops[loop].moved[0] in s.requests
  }

  /** What a worker holds on entry to its critical section. */
  function Entering(s: State, t: Tid): Shared
    requires t < |s.pcs|
  {
    if t in s.sh.woken then
      s.sh.(woken := s.sh.woken - {t}, idle := if s.sh.idle > 0 then s.sh.idle - 1 else 0)
    else if s.pcs[t] == Ready(true) then
      s.sh.(slowRunning := if s.sh.slowRunning > 0 then s.sh.slowRunning - 1 else 0)
    else
      s.sh
  }

  function NextPc(o: Outcome): Pc {
    match o
    case Sleep => Asleep
    case Quit => Exited
    case Execute(id, slow) => Taken(id, slow)
  }

  function LeaveSection(s: State, t: Tid, sh: Shared, o: Outcome): State
    requires t < |s.pcs|
  {
    s.(sh := sh, pcs := s.pcs[t := NextPc(o)],
       requests := if o.Execute? && o.id in s.requests
                   then s.requests[o.id := s.requests[o.id].(selfLinked := true, place := AtWorker(t))]
                   else s.requests)
  }

  function ApplySection(s: State, t: Tid, pick: Tid): State
    requires t < |s.pcs| && Distinct(s.sh.wq)
  {
    var (sh, o) := Decide(s.n, Entering(s, t), t, pick);
    LeaveSection(s, t, sh, o)
  }

  function ApplySubmit(s: State, id: Id, loop: LoopId, kind: Kind, pick: Tid): State {
    s.(sh := Post(s.sh, Item(id), kind, pick),
       requests := s.requests[id := Request(loop, kind, Submitted, false,
                                            if kind.SlowIo? then InPending else InWq, 0, 0, [])])
  }

  /** QUEUE_REMOVE(&w->wq): out of whichever list the request is linked in. */
  function Unlink(s: State, id: Id, l: LoopId): State
    requires l in s.loops
  {
    s.(sh := s.sh.(wq := Without(s.sh.wq, Item(id)), pending := Without(s.sh.pending, id)),
       loops := s.loops[l := s.loops[l].(wq := Without(s.loops[l].wq, id),
                                         moved := Without(s.loops[l].moved, id))])
  }

  function ApplyCancelTest(s: State, id: Id): State
    requires Enabled(s, CancelTest(id))
  {
    var r := s.requests[id];
    if !Cancellable(r) then s  // UV_EBUSY
    else
      var u := Unlink(s, id, r.loop);
      u.(requests := s.requests[id := r.(place := AtCanceller(r.loop), cancels := r.cancels + 1)],
         loops := u.loops[r.loop := u.loops[r.loop].(cancelling := Some(id))])
  }

  function ApplyCancelPublish(s: State, l: LoopId): State
    requires Enabled(s, CancelPublish(l))
  {
    var id := s.loops[l].cancelling.value;
    s.(requests := s.requests[id := s.requests[id].(work := Cancelled, place := InLoopWq(l))],
       loops := s.loops[l := s.loops[l].(wq := s.loops[l].wq + [id], cancelling := None, async := true)])
  }

  function ApplyRunWork(s: State, t: Tid): State
    requires Enabled(s, RunWork(t))
  {
    var id := s.pcs[t].id;
    s.(pcs := s.pcs[t := Worked(id, s.pcs[t].slow)],
       requests := s.requests[id := s.requests[id].(runs := s.requests[id].runs + 1)])
  }

  function ApplyPublish(s: State, t: Tid): State
    requires Enabled(s, Publish(t))
  {
    var id := s.pcs[t].id;
    var l := s.requests[id].loop;
    s.(pcs := s.pcs[t := Ready(s.pcs[t].slow)],
       requests := s.requests[id := s.requests[id].(work := Null, selfLinked := false, place := InLoopWq(l))],
       loops := s.loops[l := s.loops[l].(wq := s.loops[l].wq + [id], async := true)])
  }

  function ApplyMoveDone(s: State, l: LoopId): State
    requires Enabled(s, MoveDone(l))
  {
    var ids := s.loops[l].wq;
    s.(requests := map id | id in s.requests ::
                     if id in ids then s.requests[id].(place := InMoved(l)) else s.requests[id],
       loops := s.loops[l := s.loops[l].(wq := [], moved := ids, async := false)])
  }

  function ApplyCallDone(s: State, l: LoopId): State
    requires Enabled(s, CallDone(l))
  {
    var id := s.loops[l].moved[0];
    var r := s.requests[id];
    s.(requests := s.requests[id := r.(place := Finished,
                                       dones := r.dones + [if r.work == Cancelled then ECanceled else Ok])],
       loops := s.loops[l := s.loops[l].(moved := s.loops[l].moved[1..])])
  }

  function Apply(s: State, a: Action): State
    requires Enabled(s, a) && Distinct(s.sh.wq)
  {
    match a
    case Submit(id, loop, kind, pick) => ApplySubmit(s, id, loop, kind, pick)
    case PostExit(pick) => s.(sh := Post(s.sh, ExitMessage, Cpu, pick))
    case Section(t, pick) => ApplySection(s, t, pick)
    case SpuriousWakeup(t) => s.(sh := Signal(s.sh, t))
    case RunWork(t) => ApplyRunWork(s, t)
    case Publish(t) => ApplyPublish(s, t)
    case CancelTest(id) => ApplyCancelTest(s, id)
    case CancelPublish(loop) => ApplyCancelPublish(s, loop)
    case MoveDone(loop) => ApplyMoveDone(s, loop)
    case CallDone(loop) => ApplyCallDone(s, loop)
  }
}
