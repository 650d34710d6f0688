/** What every critical section of the pool keeps: the thread accounting, the
    bound on slow work, the scheduling of slow work, and no lost wakeup. */
module ThreadPoolWorkers {
  import opened Sequences
  import opened ThreadPool
  import opened ThreadPoolSteps

  predicate InSlowWork(pc: Pc) {
    match pc
    case Ready(finishedSlow) => finishedSlow
    case Taken(_, slow) => slow
    case Worked(_, slow) => slow
    case _ => false
  }

  /** The number of workers inside a slow request. */
  function SlowWorkers(pcs: seq<Pc>): nat {
    if pcs == [] then 0 else (if InSlowWork(pcs[0]) then 1 else 0) + SlowWorkers(pcs[1..])
  }

  lemma {:induction false} SlowWorkersUpdate(pcs: seq<Pc>, t: nat, pc: Pc)
    requires t < |pcs|
    ensures SlowWorkers(pcs[t := pc]) + (if InSlowWork(pcs[t]) then 1 else 0)
            == SlowWorkers(pcs) + (if InSlowWork(pc) then 1 else 0)
  {
    if t > 0 {
      assert pcs[t := pc][1..] == pcs[1..][t - 1 := pc];
      SlowWorkersUpdate(pcs[1..], t - 1, pc);
    } else {
      assert pcs[t := pc][1..] == pcs[1..];
    }
  }

  lemma {:induction false} NoSlowWorkers(pcs: seq<Pc>)
    requires forall t :: 0 <= t < |pcs| ==> !InSlowWork(pcs[t])
    ensures SlowWorkers(pcs) == 0
  {
    if pcs != [] {
      NoSlowWorkers(pcs[1..]);
    }
  }

  lemma {:induction false} SomeSlowWorker(pcs: seq<Pc>) returns (t: nat)
    requires SlowWorkers(pcs) > 0
    ensures t < |pcs| && InSlowWork(pcs[t])
  {
    if InSlowWork(pcs[0]) {
      t := 0;
    } else {
      t := SomeSlowWorker(pcs[1..]);
      t := t + 1;
    }
  }

  /** Entries of wq that a worker could act on now: all of them, except the
      slow-work message while slow work is at its threshold. */
  function Demand(n: nat, sh: Shared): int {
    |sh.wq| - if RunSlowWork in sh.wq && sh.slowRunning >= Threshold(n) then 1 else 0
  }

  /** While a worker sleeps unsignalled, every entry that could be acted on has
      its own woken worker. */
  ghost predicate NoLostWakeup(n: nat, sh: Shared) {
    sh.waiting != {} ==> Demand(n, sh) <= |sh.woken|
  }

  ghost predicate SharedInv(n: nat, sh: Shared) {
    && Distinct(sh.wq)
    && (sh.pending != [] ==> RunSlowWork in sh.wq)
    && sh.slowRunning <= Threshold(n)
    && sh.waiting !! sh.woken
    && sh.idle == |sh.waiting| + |sh.woken|
  }

  ghost predicate WorkersOk(n: nat, sh: Shared, pcs: seq<Pc>) {
    && n >= 1 && |pcs| == n
    && SharedInv(n, sh)
    && NoLostWakeup(n, sh)
    && (forall t: Tid :: t in sh.waiting + sh.woken <==> t < |pcs| && pcs[t].Asleep?)
    && sh.slowRunning == SlowWorkers(pcs)
  }

  ghost predicate WorkersInv(s: State) {
    WorkersOk(s.n, s.sh, s.pcs)
  }

  lemma SignalKeeps(n: nat, sh: Shared, pick: Tid)
    requires SharedInv(n, sh) && Chosen(sh, pick)
    ensures var sh' := Signal(sh, pick);
            && SharedInv(n, sh')
            && sh'.waiting + sh'.woken == sh.waiting + sh.woken
            && (sh'.waiting != {} ==> |sh'.woken| == |sh.woken| + 1)
            && |sh'.woken| >= |sh.woken|
  {
    if pick in sh.waiting {
      assert |sh.waiting - {pick}| == |sh.waiting| - 1;
      assert |sh.woken + {pick}| == |sh.woken| + 1;
      assert sh.waiting - {pick} + (sh.woken + {pick}) == sh.waiting + sh.woken;
    }
  }

  /** Adding an entry signals a sleeper for it. */
  lemma EnqueueKeeps(n: nat, sh: Shared, m: Message, pick: Tid)
    requires Distinct(sh.wq) && (sh.pending != [] ==> RunSlowWork in sh.wq || m == RunSlowWork)
    requires sh.slowRunning <= Threshold(n) && sh.waiting !! sh.woken && sh.idle == |sh.waiting| + |sh.woken|
    requires Chosen(sh, pick) && m !in sh.wq
    ensures var sh' := Enqueue(sh, m, pick);
            && SharedInv(n, sh')
            && sh'.waiting + sh'.woken == sh.waiting + sh.woken
            && sh'.wq == sh.wq + [m]
            && (sh'.waiting != {} ==> Demand(n, sh') - |sh'.woken| <= Demand(n, sh) - |sh.woken|)
            && (sh'.waiting != {} ==> sh.waiting != {})
  {
    DistinctSnoc(sh.wq, m);
    var sh1 := sh.(wq := sh.wq + [m]);
    SignalKeeps(n, sh1, pick);
    if sh.waiting != {} {
      assert |sh.waiting| > 0;
    }
  }

  lemma PostKeeps(n: nat, sh: Shared, m: Message, kind: Kind, pick: Tid)
    requires SharedInv(n, sh) && NoLostWakeup(n, sh) && Chosen(sh, pick)
    requires m !in sh.wq && m != RunSlowWork && (kind.SlowIo? ==> m.Item?)
    ensures var sh' := Post(sh, m, kind, pick);
            && SharedInv(n, sh') && NoLostWakeup(n, sh')
            && sh'.waiting + sh'.woken == sh.waiting + sh.woken
            && sh'.slowRunning == sh.slowRunning
  {
    if kind.SlowIo? {
      var sh1 := sh.(pending := sh.pending + [m.id]);
      if RunSlowWork !in sh.wq {
        EnqueueKeeps(n, sh1, RunSlowWork, pick);
      }
    } else {
      EnqueueKeeps(n, sh, m, pick);
    }
  }

  /** What one critical section of worker t does, for t not asleep. The last
      clause pays for the section: the demand drops by one, or a sleeper is woken
      for it. */
  ghost predicate SectionResult(n: nat, demand: int, sh: Shared, t: Tid, sh': Shared, o: Outcome) {
    && SharedInv(n, sh')
    && sh'.waiting + sh'.woken == sh.waiting + sh.woken + (if o.Sleep? then {t} else {})
    && sh'.slowRunning == sh.slowRunning + (if o.Execute? && o.slow then 1 else 0)
    && (o.Sleep? ==> Demand(n, sh') == 0)
    && (!o.Sleep? && sh'.waiting != {} ==>
          sh.waiting != {} && Demand(n, sh') - |sh'.woken| <= demand - 1 - |sh.woken|)
  }

  /** The result does not depend on the order of the queue the section found. */
  lemma SectionResultFrom(n: nat, demand: int, sh1: Shared, sh: Shared, t: Tid, sh': Shared, o: Outcome)
    requires SectionResult(n, demand, sh1, t, sh', o)
    requires sh1 == sh.(wq := sh1.wq) && demand <= Demand(n, sh)
    ensures SectionResult(n, Demand(n, sh), sh, t, sh', o)
  {
  }

  lemma SleepResult(n: nat, sh: Shared, t: Tid)
    requires SharedInv(n, sh) && t !in sh.waiting + sh.woken && !Runnable(n, sh)
    ensures SectionResult(n, Demand(n, sh), sh, t, sh.(idle := sh.idle + 1, waiting := sh.waiting + {t}), Sleep)
  {
    assert |sh.waiting + {t}| == |sh.waiting| + 1;
    assert sh.waiting + {t} + sh.woken == sh.waiting + sh.woken + {t};
  }

  lemma HeadResult(n: nat, sh: Shared, t: Tid, pick: Tid)
    requires SharedInv(n, sh) && Chosen(sh, pick) && sh.wq != [] && !sh.wq[0].RunSlowWork?
    ensures sh.wq[0].ExitMessage? ==> SectionResult(n, Demand(n, sh), sh, t, Signal(sh, pick), Quit)
    ensures sh.wq[0].Item? ==> SectionResult(n, Demand(n, sh), sh, t, sh.(wq := sh.wq[1..]), Execute(sh.wq[0].id, false))
  {
    SignalKeeps(n, sh, pick);
    DistinctTail(sh.wq);
  }

  lemma SlowResult(n: nat, sh: Shared, t: Tid, pick: Tid)
    requires SharedInv(n, sh) && Chosen(sh, pick) && sh.wq != [] && sh.wq[0].RunSlowWork?
    requires sh.slowRunning < Threshold(n) && sh.pending != []
    ensures SectionResult(n, Demand(n, sh), sh, t, TookSlow(sh, pick), Execute(sh.pending[0], true))
  {
    var sh1 := sh.(wq := sh.wq[1..], slowRunning := sh.slowRunning + 1, pending := sh.pending[1..]);
    DistinctTail(sh.wq);
    if sh1.pending != [] {
      EnqueueKeeps(n, sh1, RunSlowWork, pick);
    }
  }

  /** The slow-work message at its threshold goes to the tail: nothing changes
      but the order, and another entry is now at the head. */
  lemma Requeue(n: nat, sh: Shared)
    requires SharedInv(n, sh) && Runnable(n, sh) && sh.wq[0] == RunSlowWork && sh.slowRunning >= Threshold(n)
    ensures var again := sh.(wq := sh.wq[1..] + [RunSlowWork]);
            && SharedInv(n, again) && Demand(n, again) == Demand(n, sh)
            && |again.wq| == |sh.wq| && again.wq[0] != RunSlowWork
  {
    DistinctTail(sh.wq);
    DistinctSnoc(sh.wq[1..], RunSlowWork);
  }

  /** The slow-work message is dropped when all slow requests were cancelled. */
  lemma DropSlow(n: nat, sh: Shared)
    requires SharedInv(n, sh) && sh.wq != [] && sh.wq[0] == RunSlowWork
    requires sh.pending == [] && sh.slowRunning < Threshold(n)
    ensures var rest := sh.(wq := sh.wq[1..]);
            SharedInv(n, rest) && Demand(n, rest) == Demand(n, sh) - 1
  {
    DistinctTail(sh.wq);
  }

  lemma {:induction false} DecideKeeps(n: nat, sh: Shared, t: Tid, pick: Tid)
    requires SharedInv(n, sh) && Chosen(sh, pick) && t !in sh.waiting + sh.woken
    ensures SectionResult(n, Demand(n, sh), sh, t, Decide(n, sh, t, pick).0, Decide(n, sh, t, pick).1)
    decreases |sh.wq|, if sh.wq != [] && sh.wq[0].RunSlowWork? then 1 else 0
  {
    assert Distinct(sh.wq);
    DecideIs(n, sh, t, pick);
    hide *;
    if !Runnable(n, sh) {
      SleepResult(n, sh, t);
    } else if !sh.wq[0].RunSlowWork? {
      HeadResult(n, sh, t, pick);
    } else if sh.slowRunning >= Threshold(n) {
      Requeue(n, sh);
      DecideAgain(n, sh, sh.(wq := sh.wq[1..] + [RunSlowWork]), t, pick);
    } else if sh.pending == [] {
      DropSlow(n, sh);
      DecideAgain(n, sh, sh.(wq := sh.wq[1..]), t, pick);
    } else {
      SlowResult(n, sh, t, pick);
    }
  }

  lemma {:induction false} DecideAgain(n: nat, sh: Shared, sh1: Shared, t: Tid, pick: Tid)
    requires SharedInv(n, sh1) && Chosen(sh, pick) && t !in sh.waiting + sh.woken
    requires sh1 == sh.(wq := sh1.wq) && Demand(n, sh1) <= Demand(n, sh)
    requires |sh1.wq| < |sh.wq| || (0 < |sh1.wq| == |sh.wq| && sh.wq[0] == RunSlowWork != sh1.wq[0])
    ensures SectionResult(n, Demand(n, sh), sh, t, Decide(n, sh1, t, pick).0, Decide(n, sh1, t, pick).1)
    decreases |sh.wq|, if sh.wq != [] && sh.wq[0].RunSlowWork? then 1 else 0, 0
  {
    DecideKeeps(n, sh1, t, pick);
    SectionResultFrom(n, Demand(n, sh1), sh1, sh, t, Decide(n, sh1, t, pick).0, Decide(n, sh1, t, pick).1);
  }

  // ---------- Every step of the pool ----------

  /** A worker may enter its critical section: one unit of demand may still be
      uncovered, and the section will pay for it. */
  ghost predicate MayEnter(n: nat, sh: Shared, t: Tid, pick: Tid) {
    && SharedInv(n, sh) && Chosen(sh, pick) && t !in sh.waiting + sh.woken
    && (sh.waiting != {} ==> Demand(n, sh) - 1 <= |sh.woken|)
  }

  lemma EnterWoken(n: nat, sh: Shared, t: Tid, pick: Tid)
    requires SharedInv(n, sh) && NoLostWakeup(n, sh) && Chosen(sh, pick) && t in sh.woken
    ensures sh.idle > 0
    ensures var sh1 := sh.(woken := sh.woken - {t}, idle := sh.idle - 1);
            MayEnter(n, sh1, t, pick) && sh1.waiting + sh1.woken == sh.waiting + sh.woken - {t}
  {
    assert |sh.woken - {t}| == |sh.woken| - 1;
    assert sh.waiting + (sh.woken - {t}) == sh.waiting + sh.woken - {t};
  }

  lemma EnterReady(n: nat, sh: Shared, slowRunning: nat, t: Tid, pick: Tid)
    requires SharedInv(n, sh) && NoLostWakeup(n, sh) && Chosen(sh, pick) && t !in sh.waiting + sh.woken
    requires slowRunning <= sh.slowRunning
    ensures MayEnter(n, sh.(slowRunning := slowRunning), t, pick)
  {
  }

  lemma EnteringKeeps(s: State, t: Tid, pick: Tid)
    requires WorkersInv(s) && Enabled(s, Section(t, pick))
    ensures var sh := Entering(s, t);
            && MayEnter(s.n, sh, t, pick)
            && sh.waiting + sh.woken == s.sh.waiting + s.sh.woken - {t}
            && sh.slowRunning == s.sh.slowRunning - (if InSlowWork(s.pcs[t]) then 1 else 0)
  {
    if t in s.sh.woken {
      EnterWoken(s.n, s.sh, t, pick);
      assert t in s.sh.waiting + s.sh.woken;
    } else {
      SlowWorkersUpdate(s.pcs, t, Exited);
      assert t !in s.sh.waiting + s.sh.woken;
      EnterReady(s.n, s.sh, Entering(s, t).slowRunning, t, pick);
      assert s.sh.waiting + s.sh.woken - {t} == s.sh.waiting + s.sh.woken;
    }
  }

  lemma DecideCovers(n: nat, sh: Shared, t: Tid, pick: Tid)
    requires MayEnter(n, sh, t, pick)
    ensures var (sh', o) := Decide(n, sh, t, pick);
            && SharedInv(n, sh') && NoLostWakeup(n, sh')
            && sh'.waiting + sh'.woken == sh.waiting + sh.woken + (if o.Sleep? then {t} else {})
            && sh'.slowRunning == sh.slowRunning + (if o.Execute? && o.slow then 1 else 0)
  {
    DecideKeeps(n, sh, t, pick);
  }

  lemma SleepersKept(pcs: seq<Pc>, idle: set<Tid>, t: Tid, o: Outcome, idle': set<Tid>)
    requires t < |pcs| && idle' == idle - {t} + (if o.Sleep? then {t} else {})
    requires forall u: Tid :: u in idle <==> u < |pcs| && pcs[u].Asleep?
    ensures forall u: Tid :: u in idle' <==> u < |pcs| && pcs[t := NextPc(o)][u].Asleep?
  {
  }

  lemma SectionOk(s: State, sh: Shared, t: Tid, pick: Tid, sh': Shared, o: Outcome)
    requires WorkersInv(s) && Enabled(s, Section(t, pick))
    requires sh == Entering(s, t) && Distinct(sh.wq) && (sh', o) == Decide(s.n, sh, t, pick)
    ensures WorkersOk(s.n, sh', s.pcs[t := NextPc(o)])
  {
    assert t < |s.pcs|;
    WorkersParts(s);
    hide *;
    EnteringKeeps(s, t, pick);
    DecideCovers(s.n, sh, t, pick);
    SlowWorkersUpdate(s.pcs, t, NextPc(o));
    SleepersKept(s.pcs, s.sh.waiting + s.sh.woken, t, o, sh'.waiting + sh'.woken);
    SlowAfter(o);
    PartsAreOk(s.n, sh', s.pcs[t := NextPc(o)]);
  }

  lemma WorkersParts(s: State)
    requires WorkersInv(s)
    ensures s.n >= 1 && |s.pcs| == s.n && s.sh.slowRunning == SlowWorkers(s.pcs)
    ensures forall u: Tid :: u in s.sh.waiting + s.sh.woken <==> u < |s.pcs| && s.pcs[u].Asleep?
  {
  }

  lemma PartsAreOk(n: nat, sh: Shared, pcs: seq<Pc>)
    requires n >= 1 && |pcs| == n && SharedInv(n, sh) && NoLostWakeup(n, sh)
    requires forall u: Tid :: u in sh.waiting + sh.woken <==> u < |pcs| && pcs[u].Asleep?
    requires sh.slowRunning == SlowWorkers(pcs)
    ensures WorkersOk(n, sh, pcs)
  {
  }

  lemma SlowAfter(o: Outcome)
    ensures InSlowWork(NextPc(o)) <==> o.Execute? && o.slow
  {
  }

  lemma SectionKeepsWorkers(s: State, t: Tid, pick: Tid)
    requires WorkersInv(s) && Enabled(s, Section(t, pick))
    ensures WorkersInv(ApplySection(s, t, pick))
  {
    var sh := Entering(s, t);
    var (sh', o) := Decide(s.n, sh, t, pick);
    SectionOk(s, sh, t, pick, sh', o);
  }

  lemma WorkStepKeepsWorkers(s: State, t: Tid)
    requires WorkersInv(s)
    ensures Enabled(s, RunWork(t)) ==> WorkersInv(ApplyRunWork(s, t))
    ensures Enabled(s, Publish(t)) ==> WorkersInv(ApplyPublish(s, t))
  {
    if Enabled(s, RunWork(t)) {
      SlowWorkersUpdate(s.pcs, t, ApplyRunWork(s, t).pcs[t]);
    }
    if Enabled(s, Publish(t)) {
      SlowWorkersUpdate(s.pcs, t, ApplyPublish(s, t).pcs[t]);
    }
  }

  lemma UnlinkKeepsWorkers(n: nat, sh: Shared, id: Id)
    requires SharedInv(n, sh) && NoLostWakeup(n, sh) && Distinct(sh.pending)
    ensures var sh' := sh.(wq := Without(sh.wq, Item(id)), pending := Without(sh.pending, id));
            SharedInv(n, sh') && NoLostWakeup(n, sh')
  {
    WithoutExact(sh.wq, Item(id));
    WithoutExact(sh.pending, id);
    var pending' := Without(sh.pending, id);
    if pending' != [] {
      assert pending'[0] in sh.pending;
    }
  }

  lemma WakeupKeeps(n: nat, sh: Shared, t: Tid)
    requires SharedInv(n, sh) && NoLostWakeup(n, sh) && t in sh.waiting
    ensures var sh' := Signal(sh, t);
            && SharedInv(n, sh') && NoLostWakeup(n, sh')
            && sh'.waiting + sh'.woken == sh.waiting + sh.woken && sh'.slowRunning == sh.slowRunning
  {
    SignalKeeps(n, sh, t);
  }

  /** A step that only changes what the mutex protects. */
  lemma SharedStepOk(n: nat, sh: Shared, sh': Shared, pcs: seq<Pc>)
    requires WorkersOk(n, sh, pcs) && SharedInv(n, sh') && NoLostWakeup(n, sh')
    requires sh'.waiting + sh'.woken == sh.waiting + sh.woken && sh'.slowRunning == sh.slowRunning
    ensures WorkersOk(n, sh', pcs)
  {
  }

  lemma PostStepKeepsWorkers(s: State, m: Message, kind: Kind, pick: Tid)
    requires WorkersInv(s) && Chosen(s.sh, pick) && m !in s.sh.wq && m != RunSlowWork && (kind.SlowIo? ==> m.Item?)
    ensures WorkersOk(s.n, Post(s.sh, m, kind, pick), s.pcs)
  {
    PostKeeps(s.n, s.sh, m, kind, pick);
    hide SharedInv, NoLostWakeup, Post;
    SharedStepOk(s.n, s.sh, Post(s.sh, m, kind, pick), s.pcs);
  }

  /** Every step keeps the worker invariant. */
  lemma LoopStepKeepsWorkers(s: State, a: Action)
    requires WorkersInv(s) && Enabled(s, a) && (a.CancelPublish? || a.MoveDone? || a.CallDone?) && Distinct(s.sh.wq)
    ensures WorkersInv(Apply(s, a))
  {
    hide WorkersOk, Decide;
  }

  lemma WakeupStepKeepsWorkers(s: State, t: Tid)
    requires WorkersInv(s) && Enabled(s, SpuriousWakeup(t)) && Distinct(s.sh.wq)
    ensures WorkersInv(Apply(s, SpuriousWakeup(t)))
  {
    assert SharedInv(s.n, s.sh) && NoLostWakeup(s.n, s.sh);
    hide SharedInv, NoLostWakeup, WorkersOk, Signal, Distinct, ApplySection;
    WakeupKeeps(s.n, s.sh, t);
    SharedStepOk(s.n, s.sh, Apply(s, SpuriousWakeup(t)).sh, s.pcs);
  }

  lemma CancelStepKeepsWorkers(s: State, id: Id)
    requires WorkersInv(s) && Enabled(s, CancelTest(id)) && Distinct(s.sh.pending)
    ensures WorkersInv(ApplyCancelTest(s, id))
  {
    assert SharedInv(s.n, s.sh) && NoLostWakeup(s.n, s.sh);
    hide SharedInv, NoLostWakeup, WorkersOk, Without, Distinct;
    UnlinkKeepsWorkers(s.n, s.sh, id);
    SharedStepOk(s.n, s.sh, ApplyCancelTest(s, id).sh, s.pcs);
  }

  lemma StepKeepsWorkers(s: State, a: Action)
    requires WorkersInv(s) && Enabled(s, a)
    requires a.Submit? ==> Item(a.id) !in s.sh.wq
    requires a.CancelTest? ==> Distinct(s.sh.pending)
    ensures WorkersInv(Apply(s, a))
  {
    assert Distinct(s.sh.wq);
    hide SharedInv, NoLostWakeup, WorkersOk, SlowWorkers, Post, Signal, Without, Decide, Distinct;
    match a
    case Submit(id, loop, kind, pick) => PostStepKeepsWorkers(s, Item(id), kind, pick);
    case PostExit(pick) => PostStepKeepsWorkers(s, ExitMessage, Cpu, pick);
    case Section(t, pick) => SectionKeepsWorkers(s, t, pick);
    case SpuriousWakeup(t) => WakeupStepKeepsWorkers(s, t);
    case RunWork(t) => WorkStepKeepsWorkers(s, t);
    case Publish(t) => WorkStepKeepsWorkers(s, t);
    case CancelTest(id) => CancelStepKeepsWorkers(s, id);
    case CancelPublish(_) => LoopStepKeepsWorkers(s, a);
    case MoveDone(_) => LoopStepKeepsWorkers(s, a);
    case CallDone(_) => LoopStepKeepsWorkers(s, a);
  }

  lemma InitialWorkers(s: State)
    requires Initial(s)
    ensures WorkersInv(s)
  {
    NoSlowWorkers(s.pcs);
  }
}
