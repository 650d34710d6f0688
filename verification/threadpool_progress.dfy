/** Every schedule of the pool drains it: once nothing is submitted, cancelled or
    spuriously woken any more, each remaining step brings the end closer, and the
    pool can only stop with every request finished. */
module ThreadPoolProgress {
  import opened Wrappers
  import opened Sequences
  import opened ThreadPool
  import opened ThreadPoolSteps
  import opened ThreadPoolWorkers
  import opened ThreadPoolRequests

  /** The steps by which the pool and the loops work off what was submitted. */
  predicate Working(a: Action) {
    a.Section? || a.RunWork? || a.Publish? || a.CancelPublish? || a.MoveDone? || a.CallDone?
  }

  /** How far a request is from its done call. */
  function Stage(r: Request): nat {
    match r.place
    case InWq => 6
    case InPending => 6
    case AtWorker(_) => if r.runs == 0 then 5 else 4
    case AtCanceller(_) => 3
    case InLoopWq(_) => 2
    case InMoved(_) => 1
    case Finished => 0
  }

  ghost function Total(ids: set<Id>, m: map<Id, Request>): nat
    requires ids <= m.Keys
  {
    if ids == {} then 0 else
      var x :| x in ids;
      Stage(m[x]) + Total(ids - {x}, m)
  }

  lemma {:induction false} TotalExtract(ids: set<Id>, m: map<Id, Request>, x: Id)
    requires ids <= m.Keys && x in ids
    ensures Total(ids, m) == Stage(m[x]) + Total(ids - {x}, m)
    decreases ids
  {
    var y :| y in ids && Total(ids, m) == Stage(m[y]) + Total(ids - {y}, m);
    if y != x {
      TotalExtract(ids - {y}, m, x);
      TotalExtract(ids - {x}, m, y);
      assert ids - {y} - {x} == ids - {x} - {y};
    }
  }

  lemma {:induction false} TotalMonotone(ids: set<Id>, m: map<Id, Request>, m': map<Id, Request>)
    requires ids <= m.Keys && ids <= m'.Keys
    requires forall x :: x in ids ==> Stage(m'[x]) <= Stage(m[x])
    ensures Total(ids, m') <= Total(ids, m)
    ensures (exists x :: x in ids && Stage(m'[x]) < Stage(m[x])) ==> Total(ids, m') < Total(ids, m)
    decreases ids
  {
    if ids != {} {
      var x :| x in ids && ((exists y :: y in ids && Stage(m'[y]) < Stage(m[y])) ==> Stage(m'[x]) < Stage(m[x]));
      TotalExtract(ids, m, x);
      TotalExtract(ids, m', x);
      TotalMonotone(ids - {x}, m, m');
    }
  }

  function ReadyWorkers(pcs: seq<Pc>): nat {
    if pcs == [] then 0 else (if pcs[0].Ready? then 1 else 0) + ReadyWorkers(pcs[1..])
  }

  lemma {:induction false} ReadyUpdate(pcs: seq<Pc>, t: nat, pc: Pc)
    requires t < |pcs|
    ensures ReadyWorkers(pcs[t := pc]) + (if pcs[t].Ready? then 1 else 0)
            == ReadyWorkers(pcs) + (if pc.Ready? then 1 else 0)
  {
    if t > 0 {
      assert pcs[t := pc][1..] == pcs[1..][t - 1 := pc];
      ReadyUpdate(pcs[1..], t - 1, pc);
    } else {
      assert pcs[t := pc][1..] == pcs[1..];
    }
  }

  ghost function AsyncLoops(loops: map<LoopId, Loop>): set<LoopId> {
    set l | l in loops && loops[l].async
  }

  /** Work left in the requests, then in the threads. */
  ghost function RequestWork(s: State): nat {
    Total(s.requests.Keys, s.requests)
  }

  ghost function ThreadWork(s: State): nat {
    |s.sh.waiting| + 2 * |s.sh.woken| + 2 * ReadyWorkers(s.pcs) + |AsyncLoops(s.loops)|
  }

  ghost predicate Closer(s: State, s': State) {
    RequestWork(s') < RequestWork(s) || (RequestWork(s') == RequestWork(s) && ThreadWork(s') < ThreadWork(s))
  }

  lemma OneRequestAdvances(s: State, s': State, id: Id)
    requires s'.requests.Keys == s.requests.Keys && id in s.requests
    requires forall x :: x in s.requests && x != id ==> s'.requests[x] == s.requests[x]
    requires Stage(s'.requests[id]) < Stage(s.requests[id])
    ensures Closer(s, s')
  {
    TotalMonotone(s.requests.Keys, s.requests, s'.requests);
  }

  /** How the sleepers change in a section that ends without a request to run. */
  lemma {:induction false} DecideSleepers(n: nat, sh: Shared, t: Tid, pick: Tid)
    requires SharedInv(n, sh) && t !in sh.waiting + sh.woken
    ensures var (sh', o) := Decide(n, sh, t, pick);
            && (o.Sleep? ==> sh'.waiting == sh.waiting + {t} && sh'.woken == sh.woken)
            && (o.Quit? ==> sh' == Signal(sh, pick).(wq := sh'.wq))
    decreases |sh.wq|, if sh.wq != [] && sh.wq[0].RunSlowWork? then 1 else 0
  {
    if Runnable(n, sh) && sh.wq[0].RunSlowWork? {
      if sh.slowRunning >= Threshold(n) {
        Requeue(n, sh);
        DecideSleepers(n, sh.(wq := sh.wq[1..] + [RunSlowWork]), t, pick);
      } else if sh.pending == [] {
        DropSlow(n, sh);
        DecideSleepers(n, sh.(wq := sh.wq[1..]), t, pick);
      }
    }
  }

  lemma SectionCloser(s: State, t: Tid, pick: Tid)
    requires Inv(s) && Enabled(s, Section(t, pick))
    ensures Closer(s, ApplySection(s, t, pick))
  {
    EnteringFacts(s, t, pick);
    var sh := Entering(s, t);
    hide Decide, Closer, Signal, SharedInv, SectionTakes, Inv, Entering, LeaveSection;
    var (sh', o) := Decide(s.n, sh, t, pick);
    DecideTakes(s.n, sh, t, pick);
    DecideSleepers(s.n, sh, t, pick);
    if o.Execute? {
      TakesSame(s.sh, sh, sh', o);
      TakingCloser(s, t, sh', o);
    } else {
      SleepersLess(s.sh, sh, sh', t, pick, o, s.pcs[t].Ready?);
      LeavingCloser(s, t, sh', o);
    }
  }

  /** What a worker that enters finds, and that it is no sleeper any more. */
  lemma EnteringFacts(s: State, t: Tid, pick: Tid)
    requires Inv(s) && Enabled(s, Section(t, pick))
    ensures var sh := Entering(s, t);
            && SharedInv(s.n, sh) && Distinct(sh.wq) && sh.wq == s.sh.wq && sh.pending == s.sh.pending
            && sh.waiting == s.sh.waiting && sh.woken == s.sh.woken - {t}
            && t !in sh.waiting + sh.woken && sh.waiting !! sh.woken && s.pcs[t].Ready? == (t !in s.sh.woken)
  {
    EnteringKeeps(s, t, pick);
    hide Demand, NoLostWakeup, RequestsInv, SlowWorkers;
    assert t in s.sh.woken ==> t in s.sh.waiting + s.sh.woken;
  }

  lemma TakesSame(sh0: Shared, sh: Shared, sh': Shared, o: Outcome)
    requires SectionTakes(sh, sh', o) && sh.wq == sh0.wq && sh.pending == sh0.pending
    ensures SectionTakes(sh0, sh', o)
  {
  }

  lemma TakingCloser(s: State, t: Tid, sh': Shared, o: Outcome)
    requires Inv(s) && t < |s.pcs| && SectionTakes(s.sh, sh', o) && o.Execute?
    ensures Closer(s, LeaveSection(s, t, sh', o))
  {
    assert Found(s, if o.slow then InPending else InWq, o.id);
    assert RequestOk(s, o.id);
    OneRequestAdvances(s, LeaveSection(s, t, sh', o), o.id);
  }

  lemma LeavingCloser(s: State, t: Tid, sh': Shared, o: Outcome)
    requires t < |s.pcs| && !o.Execute?
    requires |sh'.waiting| + 2 * |sh'.woken| < |s.sh.waiting| + 2 * |s.sh.woken| + if s.pcs[t].Ready? then 2 else 0
    ensures Closer(s, LeaveSection(s, t, sh', o))
  {
    ReadyUpdate(s.pcs, t, NextPc(o));
  }

  lemma SleepersLess(sh0: Shared, sh: Shared, sh': Shared, t: Tid, pick: Tid, o: Outcome, ready: bool)
    requires sh.waiting == sh0.waiting && sh.woken == sh0.woken - {t} && ready == (t !in sh0.woken)
    requires t !in sh.waiting && sh.waiting !! sh.woken
    requires o.Sleep? ==> sh'.waiting == sh.waiting + {t} && sh'.woken == sh.woken
    requires o.Quit? ==> sh'.waiting == Signal(sh, pick).waiting && sh'.woken == Signal(sh, pick).woken
    requires !o.Execute?
    ensures |sh'.waiting| + 2 * |sh'.woken| < |sh0.waiting| + 2 * |sh0.woken| + if ready then 2 else 0
  {
    if !ready {
      assert |sh0.woken - {t}| == |sh0.woken| - 1;
    } else {
      assert sh0.woken - {t} == sh0.woken;
    }
    if pick in sh.waiting {
      assert |sh.waiting - {pick}| == |sh.waiting| - 1;
      assert |sh.woken + {pick}| == |sh.woken| + 1;
    }
    assert |sh.waiting + {t}| == |sh.waiting| + 1;
  }

  lemma MoveDoneRequests(s: State, l: LoopId)
    requires Inv(s) && Enabled(s, MoveDone(l))
    ensures RequestWork(ApplyMoveDone(s, l)) <= RequestWork(s)
  {
    var s' := ApplyMoveDone(s, l);
    forall x | x in s.requests ensures Stage(s'.requests[x]) <= Stage(s.requests[x]) {
      assert Found(s, InLoopWq(l), x) <==> Placed(s, InLoopWq(l), x);
    }
    assert s'.requests.Keys == s.requests.Keys;
    TotalMonotone(s.requests.Keys, s.requests, s'.requests);
  }

  lemma MoveDoneCloser(s: State, l: LoopId)
    requires Inv(s) && Enabled(s, MoveDone(l))
    ensures Closer(s, ApplyMoveDone(s, l))
  {
    MoveDoneRequests(s, l);
    AsyncCleared(s.loops, l, ApplyMoveDone(s, l).loops[l]);
  }

  lemma AsyncCleared(loops: map<LoopId, Loop>, l: LoopId, loop: Loop)
    requires l in loops && loops[l].async && !loop.async
    ensures |AsyncLoops(loops[l := loop])| < |AsyncLoops(loops)|
  {
    assert AsyncLoops(loops[l := loop]) == AsyncLoops(loops) - {l};
    assert |AsyncLoops(loops) - {l}| == |AsyncLoops(loops)| - 1;
  }

  lemma WorkerStepCloser(s: State, t: Tid)
    requires Inv(s)
    ensures Enabled(s, RunWork(t)) ==> Closer(s, ApplyRunWork(s, t))
    ensures Enabled(s, Publish(t)) ==> Closer(s, ApplyPublish(s, t))
  {
    if t < |s.pcs| && (s.pcs[t].Taken? || s.pcs[t].Worked?) {
      var id := s.pcs[t].id;
      assert Found(s, AtWorker(t), id);
      assert RequestOk(s, id);
      if Enabled(s, RunWork(t)) { OneRequestAdvances(s, ApplyRunWork(s, t), id); }
      if Enabled(s, Publish(t)) { OneRequestAdvances(s, ApplyPublish(s, t), id); }
    }
  }

  lemma CancelPublishCloser(s: State, l: LoopId)
    requires Inv(s) && Enabled(s, CancelPublish(l))
    ensures Closer(s, ApplyCancelPublish(s, l))
  {
    var id := s.loops[l].cancelling.value;
    assert Found(s, AtCanceller(l), id);
    OneRequestAdvances(s, ApplyCancelPublish(s, l), id);
  }

  lemma CallDoneCloser(s: State, l: LoopId)
    requires Inv(s) && Enabled(s, CallDone(l))
    ensures Closer(s, ApplyCallDone(s, l))
  {
    var id := s.loops[l].moved[0];
    assert Found(s, InMoved(l), id);
    OneRequestAdvances(s, ApplyCallDone(s, l), id);
  }

  /** Every working step brings the pool closer to the end. */
  lemma WorkingStepCloser(s: State, a: Action)
    requires Inv(s) && Enabled(s, a) && Working(a)
    ensures Closer(s, Apply(s, a))
  {
    match a
    case Section(t, pick) => SectionCloser(s, t, pick);
    case RunWork(t) => WorkerStepCloser(s, t);
    case Publish(t) => WorkerStepCloser(s, t);
    case CancelPublish(l) => CancelPublishCloser(s, l);
    case MoveDone(l) => MoveDoneCloser(s, l);
    case CallDone(l) => CallDoneCloser(s, l);
    case _ =>
  }

  /** The pool is not being shut down. */
  ghost predicate Running(s: State) {
    ExitMessage !in s.sh.wq && forall t :: 0 <= t < |s.pcs| ==> !s.pcs[t].Exited?
  }

  lemma WorkingKeepsRunning(s: State, a: Action)
    requires Inv(s) && Running(s) && Enabled(s, a) && Working(a)
    ensures Running(Apply(s, a))
  {
    if a.Section? {
      EnteringKeeps(s, a.t, a.pick);
      DecideTakes(s.n, Entering(s, a.t), a.t, a.pick);
    }
  }

  ghost predicate Stuck(s: State) {
    forall a :: Working(a) ==> !Enabled(s, a)
  }

  ghost predicate AllFinished(s: State) {
    forall id :: id in s.requests ==> s.requests[id].place == Finished
  }

  /** A worker that is awake and not exited can step, and so can a loop that holds
      anything. */
  lemma WorkerCanStep(s: State, t: Tid, pick: Tid)
    requires Inv(s) && t < |s.pcs| && Chosen(s.sh, pick)
    ensures s.pcs[t].Ready? || t in s.sh.woken ==> Enabled(s, Section(t, pick))
    ensures s.pcs[t].Taken? ==> Enabled(s, RunWork(t))
    ensures s.pcs[t].Worked? ==> Enabled(s, Publish(t))
    ensures t in s.sh.waiting + s.sh.woken <==> s.pcs[t].Asleep?
  {
    if s.pcs[t].Taken? || s.pcs[t].Worked? {
      assert Found(s, AtWorker(t), s.pcs[t].id);
      assert RequestOk(s, s.pcs[t].id);
    }
  }

  lemma LoopCanStep(s: State, l: LoopId)
    requires Inv(s) && l in s.loops
    ensures s.loops[l].cancelling.Some? ==> Enabled(s, CancelPublish(l))
    ensures s.loops[l].cancelling.None? && s.loops[l].moved != [] ==> Enabled(s, CallDone(l))
    ensures s.loops[l].cancelling.None? && s.loops[l].moved == [] && s.loops[l].wq != [] ==> Enabled(s, MoveDone(l))
  {
    assert LoopOk(s.loops[l]);
    if s.loops[l].cancelling.Some? {
      assert Found(s, AtCanceller(l), s.loops[l].cancelling.value);
    }
    if s.loops[l].moved != [] {
      assert Found(s, InMoved(l), s.loops[l].moved[0]);
    }
  }

  lemma StuckWorkersSleep(s: State)
    requires Inv(s) && Running(s) && Stuck(s)
    ensures s.sh.woken == {} && s.sh.waiting != {} && forall t :: 0 <= t < |s.pcs| ==> s.pcs[t].Asleep?
  {
    var pick: Tid := if s.sh.waiting != {} then (var p :| p in s.sh.waiting; p) else 0;
    forall t: Tid | t < |s.pcs| ensures s.pcs[t].Asleep? && t !in s.sh.woken {
      WorkerCanStep(s, t, pick);
      assert Working(Section(t, pick)) && Working(RunWork(t)) && Working(Publish(t));
    }
    WorkerCanStep(s, 0, pick);
    assert forall t: Tid :: t in s.sh.waiting + s.sh.woken ==> t < |s.pcs|;
    assert s.sh.woken <= s.sh.waiting + s.sh.woken;
  }

  lemma StuckQueuesEmpty(s: State)
    requires Inv(s) && Running(s) && Stuck(s)
    ensures s.sh.wq == [] && s.sh.pending == []
  {
    StuckWorkersSleep(s);
    assert Demand(s.n, s.sh) <= 0;
    if s.sh.wq != [] {
      assert s.sh.slowRunning >= Threshold(s.n) >= 1;
      var t := SomeSlowWorker(s.pcs);
    }
  }

  lemma StuckLoopDone(s: State, l: LoopId)
    requires Inv(s) && Stuck(s) && l in s.loops
    ensures s.loops[l].wq == [] && s.loops[l].moved == [] && s.loops[l].cancelling == None
  {
    LoopCanStep(s, l);
    assert Working(CancelPublish(l)) && Working(CallDone(l)) && Working(MoveDone(l));
  }

  /** A pool that can take no working step has finished every request: no
      deadlock, no forgotten request. */
  lemma StuckMeansFinished(s: State)
    requires Inv(s) && Running(s) && Stuck(s)
    ensures AllFinished(s)
  {
    StuckWorkersSleep(s);
    StuckQueuesEmpty(s);
    forall id | id in s.requests ensures s.requests[id].place == Finished {
      var p := s.requests[id].place;
      assert Found(s, p, id) <==> Placed(s, p, id);
      match p
      case AtCanceller(l) => StuckLoopDone(s, l);
      case InLoopWq(l) => StuckLoopDone(s, l);
      case InMoved(l) => StuckLoopDone(s, l);
      case _ =>
    }
  }

  /** Whatever working steps the scheduler picks, the pool gets to a state in which
      it can take none, with every request finished. */
  ghost predicate Drains(s: State)
    requires Inv(s)
    decreases RequestWork(s), ThreadWork(s)
  {
    if Stuck(s) then AllFinished(s)
    else forall a | Working(a) && Enabled(s, a) ::
      (StepKeepsInv(s, a); WorkingStepCloser(s, a); Drains(Apply(s, a)))
  }

  lemma {:induction false} EveryScheduleDrains(s: State)
    requires Inv(s) && Running(s)
    ensures Drains(s)
    decreases RequestWork(s), ThreadWork(s)
  {
    if Stuck(s) {
      StuckMeansFinished(s);
    } else {
      forall a | Working(a) && Enabled(s, a)
        ensures Inv(Apply(s, a)) && Closer(s, Apply(s, a)) && Drains(Apply(s, a))
      {
        StepKeepsInv(s, a);
        WorkingStepCloser(s, a);
        WorkingKeepsRunning(s, a);
        EveryScheduleDrains(Apply(s, a));
      }
    }
  }
}
