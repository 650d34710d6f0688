/** Shutting the pool down: once the exit message is queued every worker exits, whatever
    the schedule. Which requests still run is fixed by the two queues at that time, but for
    the first pending one, for which see ThreadPoolStranded. */
module ThreadPoolShutdown {
  import opened Sequences
  import opened ThreadPool
  import opened ThreadPoolSteps
  import opened ThreadPoolWorkers
  import opened ThreadPoolRequests
  import opened ThreadPoolProgress

  /** The messages in front of the exit message, and those behind it. */
  function Front(q: seq<Message>): (f: seq<Message>)
    ensures f <= q
  {
    if q == [] || q[0] == ExitMessage then [] else [q[0]] + Front(q[1..])
  }

  function Rear(q: seq<Message>): seq<Message> {
    if q == [] then [] else if q[0] == ExitMessage then q[1..] else Rear(q[1..])
  }

  lemma {:induction false} FrontAndRear(q: seq<Message>)
    requires ExitMessage in q
    ensures q == Front(q) + [ExitMessage] + Rear(q)
  {
    if q[0] != ExitMessage {
      assert q == [q[0]] + q[1..];
      FrontAndRear(q[1..]);
    }
  }

  lemma {:induction false} SnocBehindExit(q: seq<Message>, m: Message)
    requires ExitMessage in q
    ensures Front(q + [m]) == Front(q) && Rear(q + [m]) == Rear(q) + [m]
  {
    assert (q + [m])[1..] == q[1..] + [m];
    if q[0] != ExitMessage {
      assert q == [q[0]] + q[1..];
      SnocBehindExit(q[1..], m);
    }
  }

  lemma {:induction false} SnocExit(q: seq<Message>)
    requires ExitMessage !in q
    ensures Front(q + [ExitMessage]) == q && Rear(q + [ExitMessage]) == []
  {
    if q != [] {
      assert (q + [ExitMessage])[1..] == q[1..] + [ExitMessage];
      assert q == [q[0]] + q[1..];
      SnocExit(q[1..]);
    }
  }

  /** What a section does to a queue that holds the exit message: the worker does not
      sleep; nothing gets in front of the message, and behind it only the slow-work
      message comes or goes; the worker leaves only if nothing is in front. */
  ghost predicate Closes(sh: Shared, sh': Shared, o: Outcome) {
    && ExitMessage in sh'.wq && !o.Sleep?
    && (forall m :: m in Front(sh'.wq) ==> m in Front(sh.wq))
    && (forall x :: Item(x) in Rear(sh'.wq) <==> Item(x) in Rear(sh.wq))
    && (Front(sh.wq) == [] ==> o.Quit?)
    && (o.Quit? ==> Front(sh'.wq) == [])
    && (if o.Execute? && o.slow
        then RunSlowWork in Front(sh.wq) && RunSlowWork !in Front(sh'.wq) && sh.pending == [o.id] + sh'.pending
        else sh'.pending == sh.pending)
  }

  lemma ClosesHead(sh: Shared, pick: Tid)
    requires Distinct(sh.wq) && ExitMessage in sh.wq && !sh.wq[0].RunSlowWork?
    ensures sh.wq[0].ExitMessage? ==> Closes(sh, Signal(sh, pick), Quit)
    ensures sh.wq[0].Item? ==> Closes(sh, sh.(wq := sh.wq[1..]), Execute(sh.wq[0].id, false))
  {
    DistinctTail(sh.wq);
  }

  lemma FrontOfSlow(q: seq<Message>)
    requires Distinct(q) && ExitMessage in q && q[0] == RunSlowWork
    ensures ExitMessage in q[1..] && Front(q) == [RunSlowWork] + Front(q[1..]) && RunSlowWork !in q[1..]
    ensures Rear(q) == Rear(q[1..]) && RunSlowWork !in Front(q[1..])
    ensures Front(q[1..] + [RunSlowWork]) == Front(q[1..]) && Rear(q[1..] + [RunSlowWork]) == Rear(q[1..]) + [RunSlowWork]
  {
    DistinctTail(q);
    SnocBehindExit(q[1..], RunSlowWork);
  }

  lemma ClosesSlow(sh: Shared, pick: Tid)
    requires Distinct(sh.wq) && ExitMessage in sh.wq && sh.wq[0].RunSlowWork? && sh.pending != []
    ensures Closes(sh, TookSlow(sh, pick), Execute(sh.pending[0], true))
  {
    hide *;
    FrontOfSlow(sh.wq);
    TookSlowIs(sh, pick);
    SlowTaken(sh, TookSlow(sh, pick));
  }

  lemma SlowTaken(sh: Shared, sh': Shared)
    requires sh.wq != [] && sh.pending != [] && ExitMessage in sh.wq[1..] && sh'.pending == sh.pending[1..]
    requires Front(sh.wq) == [RunSlowWork] + Front(sh.wq[1..]) && RunSlowWork !in Front(sh.wq[1..])
    requires Rear(sh.wq) == Rear(sh.wq[1..])
    requires || sh'.wq == sh.wq[1..]
             || (sh'.wq == sh.wq[1..] + [RunSlowWork] && Front(sh'.wq) == Front(sh.wq[1..])
                 && Rear(sh'.wq) == Rear(sh.wq[1..]) + [RunSlowWork])
    ensures Closes(sh, sh', Execute(sh.pending[0], true))
  {
    hide Front, Rear;
  }

  lemma TookSlowIs(sh: Shared, pick: Tid)
    requires sh.wq != [] && sh.pending != []
    ensures TookSlow(sh, pick).wq == if |sh.pending| > 1 then sh.wq[1..] + [RunSlowWork] else sh.wq[1..]
    ensures TookSlow(sh, pick).pending == sh.pending[1..]
  {
  }

  lemma ClosesFrom(sh1: Shared, sh: Shared, sh': Shared, o: Outcome)
    requires Distinct(sh.wq) && ExitMessage in sh.wq && sh.wq[0].RunSlowWork?
    requires sh1 == sh.(wq := sh.wq[1..]) || sh1 == sh.(wq := sh.wq[1..] + [RunSlowWork])
    requires Closes(sh1, sh', o)
    ensures Closes(sh, sh', o)
  {
    FrontOfSlow(sh.wq);
  }

  lemma {:induction false} DecideCloses(n: nat, sh: Shared, t: Tid, pick: Tid)
    requires Distinct(sh.wq) && ExitMessage in sh.wq
    ensures Closes(sh, Decide(n, sh, t, pick).0, Decide(n, sh, t, pick).1)
    decreases |sh.wq|, if sh.wq != [] && sh.wq[0].RunSlowWork? then 1 else 0
  {
    hide Closes, Front, Rear;
    DecideIs(n, sh, t, pick);
    hide Decide, TookSlow;
    if !sh.wq[0].RunSlowWork? {
      ClosesHead(sh, pick);
    } else {
      FrontOfSlow(sh.wq);
      if sh.slowRunning >= Threshold(n) {
        var sh1 := sh.(wq := sh.wq[1..] + [RunSlowWork]);
        DecideCloses(n, sh1, t, pick);
        ClosesFrom(sh1, sh, Decide(n, sh1, t, pick).0, Decide(n, sh1, t, pick).1);
      } else if sh.pending == [] {
        var sh1 := sh.(wq := sh.wq[1..]);
        DecideCloses(n, sh1, t, pick);
        ClosesFrom(sh1, sh, Decide(n, sh1, t, pick).0, Decide(n, sh1, t, pick).1);
      } else {
        ClosesSlow(sh, pick);
      }
    }
  }

  // ---------- The pool ----------

  /** The exit message is queued, and if a worker left, nothing is in front of it. */
  ghost predicate Closing(s: State) {
    && ExitMessage in s.sh.wq
    && ((exists t :: 0 <= t < |s.pcs| && s.pcs[t].Exited?) ==> Front(s.sh.wq) == [])
  }

  /** What a pool that is closing keeps of the state s0 that it closed in: the requests
      behind the exit message, and the pending ones but for the first, which may have
      been taken on account of a slow-work message in front of the exit message. */
  ghost predicate Keeps(s0: State, s: State) {
    && s.requests.Keys == s0.requests.Keys
    && (forall x :: Item(x) in Rear(s.sh.wq) <==> Item(x) in Rear(s0.sh.wq))
    && (RunSlowWork in Front(s.sh.wq) ==> RunSlowWork in Front(s0.sh.wq) && s.sh.pending == s0.sh.pending)
    && (s.sh.pending == s0.sh.pending
        || (RunSlowWork in Front(s0.sh.wq) && s0.sh.pending != [] && s.sh.pending == s0.sh.pending[1..]))
  }

  lemma SectionKeeps(s0: State, s: State, t: Tid, pick: Tid)
    requires Inv(s) && Closing(s) && Keeps(s0, s) && Enabled(s, Section(t, pick))
    ensures Closing(ApplySection(s, t, pick)) && Keeps(s0, ApplySection(s, t, pick))
  {
    var sh := Entering(s, t);
    DecideCloses(s.n, sh, t, pick);
    hide Decide, Front, Rear;
    var (sh', o) := Decide(s.n, sh, t, pick);
    assert ApplySection(s, t, pick) == LeaveSection(s, t, sh', o);
    LeavingKeeps(s0, s, t, sh, sh', o);
  }

  lemma LeavingKeeps(s0: State, s: State, t: Tid, sh: Shared, sh': Shared, o: Outcome)
    requires t < |s.pcs| && Closing(s) && Keeps(s0, s) && Closes(sh, sh', o)
    requires sh.wq == s.sh.wq && sh.pending == s.sh.pending
    ensures var s' := LeaveSection(s, t, sh', o); Closing(s') && Keeps(s0, s')
  {
    hide Front, Rear;
    var s' := LeaveSection(s, t, sh', o);
    assert Front(sh'.wq) != [] ==> Front(sh'.wq)[0] in Front(sh.wq);
    assert s'.requests.Keys == s.requests.Keys;
  }

  lemma OtherStep(s: State, a: Action)
    requires Enabled(s, a) && Distinct(s.sh.wq) && Working(a) && !a.Section?
    ensures var s' := Apply(s, a);
            && s'.sh == s.sh && s'.requests.Keys == s.requests.Keys && |s'.pcs| == |s.pcs|
            && forall t :: 0 <= t < |s.pcs| && s'.pcs[t].Exited? ==> s.pcs[t].Exited?
  {
  }

  lemma UntouchedKeeps(s0: State, s: State, s': State)
    requires Closing(s) && Keeps(s0, s)
    requires s'.sh == s.sh && s'.requests.Keys == s.requests.Keys && |s'.pcs| == |s.pcs|
    requires forall t :: 0 <= t < |s.pcs| && s'.pcs[t].Exited? ==> s.pcs[t].Exited?
    ensures Closing(s') && Keeps(s0, s')
  {
    hide Front, Rear;
  }

  lemma WorkingKeeps(s0: State, s: State, a: Action)
    requires Inv(s) && Closing(s) && Keeps(s0, s) && Enabled(s, a) && Working(a)
    ensures Closing(Apply(s, a)) && Keeps(s0, Apply(s, a))
  {
    assert Distinct(s.sh.wq);
    if a.Section? {
      hide Closing, Keeps, Inv;
      SectionKeeps(s0, s, a.t, a.pick);
    } else {
      hide *;
      OtherStep(s, a);
      UntouchedKeeps(s0, s, Apply(s, a));
    }
  }

  /** All workers have left. What was behind the exit message is still queued, what is
      still pending is all but possibly the first of what was, and every other request
      is finished. */
  ghost predicate Stopped(s0: State, s: State) {
    && (forall t :: 0 <= t < |s.pcs| ==> s.pcs[t].Exited?)
    && Keeps(s0, s)
    && forall id :: id in s.requests ==>
         s.requests[id].place ==
           if Item(id) in Rear(s0.sh.wq) then InWq else if id in s.sh.pending then InPending else Finished
  }

  lemma StuckWorkersLeft(s: State)
    requires Inv(s) && Closing(s) && Stuck(s)
    ensures (forall t :: 0 <= t < |s.pcs| ==> s.pcs[t].Exited?) && Front(s.sh.wq) == []
  {
    var pick: Tid := if s.sh.waiting != {} then (var p :| p in s.sh.waiting; p) else 0;
    forall t: Tid | t < |s.pcs| ensures (s.pcs[t].Asleep? || s.pcs[t].Exited?) && t !in s.sh.woken {
      WorkerCanStep(s, t, pick);
      assert Working(Section(t, pick)) && Working(RunWork(t)) && Working(Publish(t));
    }
    assert forall t: Tid :: t in s.sh.waiting + s.sh.woken ==> t < |s.pcs|;
    assert s.sh.woken <= s.sh.waiting + s.sh.woken;
    assert s.sh.woken == {};
    if s.sh.waiting != {} {
      assert Demand(s.n, s.sh) <= 0;
      TwoMessages(s.sh.wq);
    }
    assert s.pcs[0].Exited?;
  }

  lemma TwoMessages(q: seq<Message>)
    requires ExitMessage in q && RunSlowWork in q
    ensures |q| >= 2
  {
  }

  lemma StuckMeansStopped(s0: State, s: State)
    requires Inv(s) && Closing(s) && Keeps(s0, s) && Stuck(s)
    ensures Stopped(s0, s)
  {
    StuckWorkersLeft(s);
    FrontAndRear(s.sh.wq);
    forall id | id in s.requests
      ensures s.requests[id].place ==
              if Item(id) in Rear(s0.sh.wq) then InWq else if id in s.sh.pending then InPending else Finished
    {
      StuckRequest(s, id);
    }
  }

  /** Where a request can be once no step is left. */
  lemma StuckRequest(s: State, id: Id)
    requires Inv(s) && Stuck(s) && id in s.requests && forall t :: 0 <= t < |s.pcs| ==> s.pcs[t].Exited?
    ensures s.requests[id].place ==
            if Item(id) in s.sh.wq then InWq else if id in s.sh.pending then InPending else Finished
  {
    var p := s.requests[id].place;
    assert Found(s, p, id) <==> Placed(s, p, id);
    assert Found(s, InWq, id) <==> Placed(s, InWq, id);
    assert Found(s, InPending, id) <==> Placed(s, InPending, id);
    match p
    case AtCanceller(l) => StuckLoopDone(s, l);
    case InLoopWq(l) => StuckLoopDone(s, l);
    case InMoved(l) => StuckLoopDone(s, l);
    case _ =>
  }

  /** Whatever working steps the scheduler picks, the pool stops. */
  ghost predicate Stops(s0: State, s: State)
    requires Inv(s)
    decreases RequestWork(s), ThreadWork(s)
  {
    if Stuck(s) then Stopped(s0, s)
    else forall a | Working(a) && Enabled(s, a) ::
      (StepKeepsInv(s, a); WorkingStepCloser(s, a); Stops(s0, Apply(s, a)))
  }

  lemma {:induction false} EveryScheduleStops(s0: State, s: State)
    requires Inv(s) && Closing(s) && Keeps(s0, s)
    ensures Stops(s0, s)
    decreases RequestWork(s), ThreadWork(s)
  {
    if Stuck(s) {
      StuckMeansStopped(s0, s);
    } else {
      hide Closing, Keeps, Stopped;
      forall a | Working(a) && Enabled(s, a)
        ensures Inv(Apply(s, a)) && Closer(s, Apply(s, a)) && Stops(s0, Apply(s, a))
      {
        StepKeepsInv(s, a);
        WorkingStepCloser(s, a);
        WorkingKeeps(s0, s, a);
        EveryScheduleStops(s0, Apply(s, a));
      }
    }
  }

  /** Posting the exit message to a running pool: nothing is behind it, so that every
      request is finished except pending ones, of which at most the first still runs. */
  lemma ShutdownStops(s: State, pick: Tid)
    requires Inv(s) && Running(s) && Enabled(s, PostExit(pick))
    ensures var s0 := Apply(s, PostExit(pick));
            Inv(s0) && Stops(s0, s0) && Rear(s0.sh.wq) == [] && s0.sh.pending == s.sh.pending
  {
    var s0 := Apply(s, PostExit(pick));
    StepKeepsInv(s, PostExit(pick));
    SnocExit(s.sh.wq);
    assert s0.sh.wq == s.sh.wq + [ExitMessage];
    EveryScheduleStops(s0, s0);
  }
}
