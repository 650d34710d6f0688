/** libuv's thread pool: what the mutex protects, the critical sections of post()
    and worker(), and the whole pool with its workers, event loops and requests
    as a state machine of atomic steps. */
module ThreadPool {
  import opened Sequences

  type Id = nat      // a work request, struct uv__work
  type Tid = nat     // a worker thread
  type LoopId = nat  // an event loop

  datatype Kind = Cpu | FastIo | SlowIo

  datatype Message = Item(id: Id) | RunSlowWork | ExitMessage

  /** QUEUE_REMOVE of a node that is linked at most once. */
  function Without<T(==)>(q: seq<T>, x: T): seq<T> {
    if q == [] then [] else if q[0] == x then q[1..] else [q[0]] + Without(q[1..], x)
  }

  lemma {:induction false} WithoutExact<T>(q: seq<T>, x: T)
    requires Distinct(q)
    ensures Distinct(Without(q, x))
    ensures forall y :: y in Without(q, x) <==> y in q && y != x
    ensures |Without(q, x)| == |q| - if x in q then 1 else 0
  {
    if q != [] {
      assert q == [q[0]] + q[1..];
      WithoutExact(q[1..], x);
      assert q[0] !in q[1..];
      if q[0] != x {
        DistinctCons(q[0], Without(q[1..], x));
      }
    }
  }

  // ---------- What the mutex protects ----------

  /** waiting holds the workers blocked on the condition variable; woken the ones
      that were signalled and still have to get the mutex back. */
  datatype Shared = Shared(
    wq: seq<Message>,
    pending: seq<Id>,   // slow_io_pending_wq
    slowRunning: nat,   // slow_io_work_running
    idle: nat,          // idle_threads
    waiting: set<Tid>,
    woken: set<Tid>)

  function Threshold(n: nat): nat {
    (n + 1) / 2
  }

  /** The negation of worker()'s wait condition. */
  predicate Runnable(n: nat, sh: Shared) {
    sh.wq != [] && !(sh.wq == [RunSlowWork] && sh.slowRunning >= Threshold(n))
  }

  /** uv_cond_signal: wakes `pick`, the scheduler's choice among the waiting. */
  function Signal(sh: Shared, pick: Tid): Shared {
    if pick in sh.waiting then sh.(waiting := sh.waiting - {pick}, woken := sh.woken + {pick}) else sh
  }

  predicate Chosen(sh: Shared, pick: Tid) {
    sh.waiting == {} || pick in sh.waiting
  }

  function Enqueue(sh: Shared, m: Message, pick: Tid): Shared {
    var sh := sh.(wq := sh.wq + [m]);
    if sh.idle > 0 then Signal(sh, pick) else sh
  }

  /** The critical section of post(). */
  function Post(sh: Shared, m: Message, kind: Kind, pick: Tid): Shared
    requires kind.SlowIo? ==> m.Item?
  {
    if kind.SlowIo? then
      var sh := sh.(pending := sh.pending + [m.id]);
      if RunSlowWork in sh.wq then sh else Enqueue(sh, RunSlowWork, pick)
    else
      Enqueue(sh, m, pick)
  }

  datatype Outcome = Sleep | Quit | Execute(id: Id, slow: bool)

  /** The critical section of worker(), from the wait condition until the worker
      sleeps, exits or leaves with a request to run. */
  function Decide(n: nat, sh: Shared, t: Tid, pick: Tid): (r: (Shared, Outcome))
    requires Distinct(sh.wq)
    decreases |sh.wq|, if sh.wq != [] && sh.wq[0].RunSlowWork? then 1 else 0
  {
    if !Runnable(n, sh) then
      (sh.(idle := sh.idle + 1, waiting := sh.waiting + {t}), Sleep)
    else
      var q, rest := sh.wq[0], sh.(wq := sh.wq[1..]);
      DistinctTail(sh.wq);
      match q
      case ExitMessage => (Signal(sh, pick), Quit)
      case Item(id) => (rest, Execute(id, false))
      case RunSlowWork =>
        if sh.slowRunning >= Threshold(n) then
          DistinctSnoc(rest.wq, q);
          assert rest.wq != [] && rest.wq[0] != RunSlowWork;
          Decide(n, rest.(wq := rest.wq + [q]), t, pick)
        else if sh.pending == [] then
          Decide(n, rest, t, pick)
        else
          var sh' := rest.(slowRunning := sh.slowRunning + 1, pending := sh.pending[1..]);
          (if sh'.pending != [] then Enqueue(sh', RunSlowWork, pick) else sh', Execute(sh.pending[0], true))
  }

  /** The pool once a worker has taken the first pending slow request; if there are
      more, the slow-work message goes back to the queue for the others. */
  function TookPending(sh: Shared, pick: Tid): Shared
    requires sh.pending != []
  {
    var sh' := sh.(slowRunning := sh.slowRunning + 1, pending := sh.pending[1..]);
    if sh'.pending != [] then Enqueue(sh', RunSlowWork, pick) else sh'
  }

  function TookSlow(sh: Shared, pick: Tid): Shared
    requires sh.wq != [] && sh.pending != []
  {
    TookPending(sh.(wq := sh.wq[1..]), pick)
  }

  /** Decide, case by case. */
  lemma DecideIs(n: nat, sh: Shared, t: Tid, pick: Tid)
    requires Distinct(sh.wq)
    ensures !Runnable(n, sh) ==>
      Decide(n, sh, t, pick) == (sh.(idle := sh.idle + 1, waiting := sh.waiting + {t}), Sleep)
    ensures Runnable(n, sh) ==> sh.wq != []
    ensures Runnable(n, sh) && sh.wq[0].ExitMessage? ==> Decide(n, sh, t, pick) == (Signal(sh, pick), Quit)
    ensures Runnable(n, sh) && sh.wq[0].Item? ==>
      Decide(n, sh, t, pick) == (sh.(wq := sh.wq[1..]), Execute(sh.wq[0].id, false))
    ensures Runnable(n, sh) && sh.wq[0].RunSlowWork? && sh.slowRunning >= Threshold(n) ==>
      && Distinct(sh.wq[1..] + [RunSlowWork])
      && Decide(n, sh, t, pick) == Decide(n, sh.(wq := sh.wq[1..] + [RunSlowWork]), t, pick)
    ensures Runnable(n, sh) && sh.wq[0].RunSlowWork? && sh.slowRunning < Threshold(n) && sh.pending == [] ==>
      && Distinct(sh.wq[1..])
      && Decide(n, sh, t, pick) == Decide(n, sh.(wq := sh.wq[1..]), t, pick)
    ensures Runnable(n, sh) && sh.wq[0].RunSlowWork? && sh.slowRunning < Threshold(n) && sh.pending != [] ==>
      Decide(n, sh, t, pick) == (TookSlow(sh, pick), Execute(sh.pending[0], true))
  {
    hide Distinct, Signal, Enqueue;
    if sh.wq != [] {
      DistinctTail(sh.wq);
      if sh.wq[0].RunSlowWork? {
        DistinctSnoc(sh.wq[1..], RunSlowWork);
      }
    }
  }

  lemma HeadGoes(q: seq<Message>)
    requires Distinct(q) && q != []
    ensures Distinct(q[1..])
    ensures |q| > 1 ==> (q[1..] + [q[0]])[0] != q[0]
  {
    DistinctTail(q);
  }

  /** The same state as the static variables it is in the source. */
  class Pool {
    const nthreads: nat
    var wq: seq<Message>
    var slowIoPendingWq: seq<Id>
    var slowIoWorkRunning: nat
    var idleThreads: nat
    ghost var waiting: set<Tid>
    ghost var woken: set<Tid>

    constructor (n: nat)
      ensures nthreads == n && Contents() == Shared([], [], 0, 0, {}, {})
    {
      nthreads := n;
      wq, slowIoPendingWq, slowIoWorkRunning, idleThreads := [], [], 0, 0;
      waiting, woken := {}, {};
    }

    ghost function Contents(): Shared
      reads this
    {
      Shared(wq, slowIoPendingWq, slowIoWorkRunning, idleThreads, waiting, woken)
    }

    method CondSignal(ghost pick: Tid)
      modifies this`waiting, this`woken
      ensures Contents() == Signal(old(Contents()), pick)
    {
      if pick in waiting {
        waiting, woken := waiting - {pick}, woken + {pick};
      }
    }

    method PostMessage(m: Message, kind: Kind, ghost pick: Tid)
      requires kind.SlowIo? ==> m.Item?
      modifies this
      ensures Contents() == Post(old(Contents()), m, kind, pick)
    {
      var q := m;
      if kind == SlowIo {
        slowIoPendingWq := slowIoPendingWq + [m.id];
        if RunSlowWork in wq {
          return;
        }
        q := RunSlowWork;
      }
      wq := wq + [q];
      if idleThreads > 0 {
        CondSignal(pick);
      }
    }

    /** The part of worker() that takes a slow request off slow_io_pending_wq. */
    method TakePending(ghost pick: Tid) returns (id: Id)
      requires slowIoPendingWq != []
      modifies this
      ensures id == old(slowIoPendingWq)[0] && Contents() == TookPending(old(Contents()), pick)
    {
      slowIoWorkRunning := slowIoWorkRunning + 1;
      id := slowIoPendingWq[0];
      slowIoPendingWq := slowIoPendingWq[1..];
      if slowIoPendingWq != [] {
        wq := wq + [RunSlowWork];
        if idleThreads > 0 {
          CondSignal(pick);
        }
      }
    }

    /** worker() with the mutex held, until it would release it. */
    method WorkerSection(ghost t: Tid, ghost pick: Tid) returns (r: Outcome)
      requires Distinct(wq)
      modifies this
      ensures (Contents(), r) == Decide(nthreads, old(Contents()), t, pick)
    {
      while true
        invariant Distinct(wq)
        invariant Decide(nthreads, Contents(), t, pick) == Decide(nthreads, old(Contents()), t, pick)
        decreases |wq|, if wq != [] && wq[0].RunSlowWork? then 1 else 0
      {
        hide Decide, TookPending, Signal, Enqueue, Distinct;
        DecideIs(nthreads, Contents(), t, pick);
        if wq == [] || (wq[0] == RunSlowWork && |wq| == 1 && slowIoWorkRunning >= (nthreads + 1) / 2) {
          idleThreads := idleThreads + 1;
          waiting := waiting + {t};
          return Sleep;
        }
        var q := wq[0];
        if q == ExitMessage {
          CondSignal(pick);
          return Quit;
        }
        ghost var head := Contents();
        HeadGoes(wq);
        wq := wq[1..];
        if q != RunSlowWork {
          return Execute(q.id, false);
        }
        if slowIoWorkRunning >= (nthreads + 1) / 2 {
          wq := wq + [q];
          assert Contents() == head.(wq := head.wq[1..] + [RunSlowWork]);
          continue;
        }
        if slowIoPendingWq == [] {
          continue;
        }
        var id := TakePending(pick);
        return Execute(id, true);
      }
    }
  }
}
