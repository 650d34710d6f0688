/** What a pool that was told to exit does with the slow requests that are pending: whether
    the first of them still runs depends on how many slow requests are running. */
module ThreadPoolStranded {
  import opened Wrappers
  import opened Sequences
  import opened ThreadPool
  import opened ThreadPoolSteps
  import opened ThreadPoolWorkers
  import opened ThreadPoolRequests
  import opened ThreadPoolProgress
  import opened ThreadPoolShutdown

  // ---------- One section ----------

  /** Below the threshold the slow-work message is not requeued: it stays in front of the
      exit message until it makes a worker take the first pending request. */
  ghost predicate TakesFirst(sh: Shared, sh': Shared, o: Outcome) {
    && sh.pending != [] && o.Execute?
    && (o == Execute(sh.pending[0], true)
        || (!o.slow && RunSlowWork in Front(sh'.wq) && sh'.pending == sh.pending && sh'.slowRunning == sh.slowRunning))
  }

  lemma DecideTakesFirst(n: nat, sh: Shared, t: Tid, pick: Tid)
    requires Distinct(sh.wq) && RunSlowWork in Front(sh.wq) && sh.pending != [] && sh.slowRunning < (n + 1) / 2
    ensures TakesFirst(sh, Decide(n, sh, t, pick).0, Decide(n, sh, t, pick).1)
  {
    DecideIs(n, sh, t, pick);
    hide Decide, TookSlow;
    assert sh.wq != [] && !sh.wq[0].ExitMessage? && (sh.wq == [RunSlowWork] ==> Runnable(n, sh));
  }

  /** At the threshold no slow request is taken. */
  ghost predicate TakesNoSlow(sh: Shared, sh': Shared, o: Outcome) {
    && sh'.pending == sh.pending && sh'.slowRunning == sh.slowRunning
    && (o.Quit? || (o.Execute? && !o.slow))
  }

  lemma {:induction false} DecideTakesNoSlow(n: nat, sh: Shared, t: Tid, pick: Tid)
    requires Distinct(sh.wq) && ExitMessage in sh.wq && sh.slowRunning >= (n + 1) / 2
    ensures TakesNoSlow(sh, Decide(n, sh, t, pick).0, Decide(n, sh, t, pick).1)
    decreases |sh.wq|, if sh.wq != [] && sh.wq[0].RunSlowWork? then 1 else 0
  {
    DecideIs(n, sh, t, pick);
    hide Decide;
    if sh.wq[0].RunSlowWork? {
      HeadGoes(sh.wq);
      DistinctTail(sh.wq);
      DecideTakesNoSlow(n, sh.(wq := sh.wq[1..] + [RunSlowWork]), t, pick);
    }
  }

  // ---------- Schedules ----------

  ghost predicate Served(s: State, id: Id) {
    id in s.requests && s.requests[id].place == Finished && s.requests[id].runs == 1
  }

  /** Under every schedule the request runs and gets its done call. */
  ghost predicate AlwaysRuns(s: State, id: Id)
    requires Inv(s)
    decreases RequestWork(s), ThreadWork(s)
  {
    if Stuck(s) then Served(s, id)
    else forall a | Working(a) && Enabled(s, a) ::
      (StepKeepsInv(s, a); WorkingStepCloser(s, a); AlwaysRuns(Apply(s, a), id))
  }

  /** There is a schedule at the end of which the request is still pending. */
  ghost predicate MayStrand(s: State, id: Id)
    requires Inv(s)
    decreases RequestWork(s), ThreadWork(s)
  {
    if Stuck(s) then id in s.sh.pending
    else exists a | Working(a) && Enabled(s, a) ::
      (StepKeepsInv(s, a); WorkingStepCloser(s, a); MayStrand(Apply(s, a), id))
  }

  lemma PendingIsNotServed(s: State, id: Id)
    requires Inv(s)
    ensures id in s.sh.pending ==> !Served(s, id)
  {
    assert Found(s, InPending, id) <==> Placed(s, InPending, id);
  }

  lemma {:induction false} NotBoth(s: State, id: Id)
    requires Inv(s) && AlwaysRuns(s, id)
    ensures !MayStrand(s, id)
    decreases RequestWork(s), ThreadWork(s)
  {
    if Stuck(s) {
      hide Inv, Served;
      PendingIsNotServed(s, id);
    } else {
      hide Served;
      forall a | Working(a) && Enabled(s, a)
        ensures Inv(Apply(s, a)) && Closer(s, Apply(s, a)) && !MayStrand(Apply(s, a), id)
      {
        StepKeepsInv(s, a);
        WorkingStepCloser(s, a);
        NotBoth(Apply(s, a), id);
      }
    }
  }

  // ---------- Where it is taken ----------

  ghost predicate WillTake(s: State, id: Id) {
    && s.sh.pending != [] && s.sh.pending[0] == id && RunSlowWork in Front(s.sh.wq)
    && (s.sh.slowRunning < Threshold(s.n) || s.n == 1)
  }

  ghost predicate WasTaken(s: State, id: Id) {
    id in s.requests && !Found(s, InWq, id) && !Found(s, InPending, id) && s.requests[id].cancels == 0
  }

  /** A worker that enters leaves the slow work it was in, so that a lone worker always
      finds room. */
  lemma RoomOnEntry(s: State, t: Tid, pick: Tid)
    requires Inv(s) && Enabled(s, Section(t, pick)) && (s.sh.slowRunning < Threshold(s.n) || s.n == 1)
    ensures Entering(s, t).slowRunning < Threshold(s.n)
  {
    EnteringKeeps(s, t, pick);
    if s.n == 1 {
      assert s.pcs[1..] == [];
      assert SlowWorkers(s.pcs) == if InSlowWork(s.pcs[0]) then 1 else 0;
    }
  }

  lemma PendingRecord(s: State, id: Id)
    requires Inv(s) && id in s.sh.pending
    ensures id in s.requests && !Found(s, InWq, id) && s.requests[id].cancels == 0
  {
    assert Found(s, InPending, id) <==> Placed(s, InPending, id);
    assert Found(s, InWq, id) <==> Placed(s, InWq, id);
    assert RequestOk(s, id);
  }

  lemma TakingKeeps(s: State, t: Tid, id: Id, sh: Shared, sh': Shared, o: Outcome)
    requires Inv(s) && t < |s.pcs| && WillTake(s, id) && sh.wq == s.sh.wq && sh.pending == s.sh.pending
    requires sh.slowRunning < Threshold(s.n) && TakesFirst(sh, sh', o) && SectionTakes(sh, sh', o)
    ensures var s' := LeaveSection(s, t, sh', o); WillTake(s', id) || WasTaken(s', id)
  {
    hide Front;
    PendingRecord(s, id);
    DistinctTail(s.sh.pending);
  }

  lemma SectionTakesFirst(s: State, id: Id, t: Tid, pick: Tid)
    requires Inv(s) && Closing(s) && WillTake(s, id) && Enabled(s, Section(t, pick))
    ensures WillTake(ApplySection(s, t, pick), id) || WasTaken(ApplySection(s, t, pick), id)
  {
    var sh := Entering(s, t);
    RoomOnEntry(s, t, pick);
    EnteringKeeps(s, t, pick);
    DecideTakesFirst(s.n, sh, t, pick);
    DecideTakes(s.n, sh, t, pick);
    hide Decide, Front, WillTake, WasTaken, TakesFirst, SectionTakes, Inv;
    var (sh', o) := Decide(s.n, sh, t, pick);
    TakingKeeps(s, t, id, sh, sh', o);
  }

  lemma SectionKeepsTaken(s: State, id: Id, t: Tid, pick: Tid)
    requires Inv(s) && WasTaken(s, id) && Enabled(s, Section(t, pick))
    ensures WasTaken(ApplySection(s, t, pick), id)
  {
    var sh := Entering(s, t);
    EnteringKeeps(s, t, pick);
    DecideTakes(s.n, sh, t, pick);
    hide Decide, WasTaken, SectionTakes, Inv;
    var (sh', o) := Decide(s.n, sh, t, pick);
    LeavingKeepsTaken(s, id, t, sh, sh', o);
  }

  lemma LeavingKeepsTaken(s: State, id: Id, t: Tid, sh: Shared, sh': Shared, o: Outcome)
    requires WasTaken(s, id) && t < |s.pcs| && sh.wq == s.sh.wq && sh.pending == s.sh.pending && SectionTakes(sh, sh', o)
    ensures WasTaken(LeaveSection(s, t, sh', o), id)
  {
  }

  lemma OtherKeepsCancels(s: State, a: Action, id: Id)
    requires Enabled(s, a) && Distinct(s.sh.wq) && Working(a) && !a.Section? && id in s.requests
    ensures var s' := Apply(s, a);
            s'.sh == s.sh && s'.n == s.n && id in s'.requests && s'.requests[id].cancels == s.requests[id].cancels
  {
  }

  lemma WorkingKeepsTaking(s: State, a: Action, id: Id)
    requires Inv(s) && Closing(s) && Enabled(s, a) && Working(a) && (WillTake(s, id) || WasTaken(s, id))
    ensures WillTake(Apply(s, a), id) || WasTaken(Apply(s, a), id)
  {
    assert Distinct(s.sh.wq);
    if WillTake(s, id) {
      PendingRecord(s, id);
    }
    if !a.Section? {
      OtherKeepsCancels(s, a, id);
      hide Front, Apply, Inv;
    } else {
      hide Front, Inv, ApplySection;
      if WillTake(s, id) {
        SectionTakesFirst(s, id, a.t, a.pick);
      } else {
        SectionKeepsTaken(s, id, a.t, a.pick);
      }
    }
  }

  lemma StuckIsServed(s: State, id: Id)
    requires Inv(s) && Closing(s) && Stuck(s) && (WillTake(s, id) || WasTaken(s, id))
    ensures Served(s, id)
  {
    StuckWorkersLeft(s);
    StuckRequest(s, id);
    assert RequestOk(s, id);
  }

  lemma {:induction false} TakenUnderEverySchedule(s: State, id: Id)
    requires Inv(s) && Closing(s) && (WillTake(s, id) || WasTaken(s, id))
    ensures AlwaysRuns(s, id)
    decreases RequestWork(s), ThreadWork(s)
  {
    if Stuck(s) {
      StuckIsServed(s, id);
    } else {
      hide Closing, WillTake, WasTaken, Served;
      forall a | Working(a) && Enabled(s, a)
        ensures Inv(Apply(s, a)) && Closer(s, Apply(s, a)) && AlwaysRuns(Apply(s, a), id)
      {
        StepKeepsInv(s, a);
        WorkingStepCloser(s, a);
        WorkingKeepsTaking(s, a, id);
        ClosingStays(s, a);
        TakenUnderEverySchedule(Apply(s, a), id);
      }
    }
  }

  lemma ClosingStays(s: State, a: Action)
    requires Inv(s) && Closing(s) && Enabled(s, a) && Working(a)
    ensures Closing(Apply(s, a)) && Keeps(s, Apply(s, a))
  {
    assert Keeps(s, s);
    hide Closing, Keeps, Inv;
    WorkingKeeps(s, s, a);
  }

  // ---------- Where it is stranded ----------

  ghost predicate Lost(s: State, id: Id) {
    id in s.sh.pending && RunSlowWork !in Front(s.sh.wq)
  }

  lemma LostStays(s: State, a: Action, id: Id)
    requires Inv(s) && Closing(s) && Lost(s, id) && Enabled(s, a) && Working(a)
    ensures Lost(Apply(s, a), id)
  {
    ClosingStays(s, a);
    hide Front, Apply;
  }

  lemma {:induction false} LostIsStranded(s: State, id: Id)
    requires Inv(s) && Closing(s) && Lost(s, id)
    ensures MayStrand(s, id)
    decreases RequestWork(s), ThreadWork(s)
  {
    if !Stuck(s) {
      hide Closing, Lost, Apply;
      var a :| Working(a) && Enabled(s, a);
      StepKeepsInv(s, a);
      WorkingStepCloser(s, a);
      ClosingStays(s, a);
      LostStays(s, a, id);
      LostIsStranded(Apply(s, a), id);
    }
  }

  /** A worker outside slow work that is not waiting to be signalled. */
  ghost predicate Roams(s: State, t: Tid) {
    t < |s.pcs| && !InSlowWork(s.pcs[t]) && !s.pcs[t].Exited? && t !in s.sh.waiting
  }

  lemma {:induction false} SomeOtherWorker(pcs: seq<Pc>) returns (t: nat)
    requires SlowWorkers(pcs) < |pcs|
    ensures t < |pcs| && !InSlowWork(pcs[t])
  {
    if !InSlowWork(pcs[0]) {
      t := 0;
    } else {
      t := SomeOtherWorker(pcs[1..]);
      t := t + 1;
    }
  }

  /** From two workers on there is such a worker. */
  lemma Roamer(s: State) returns (t: Tid)
    requires Inv(s) && Closing(s) && s.n >= 2 && RunSlowWork in Front(s.sh.wq)
    ensures Roams(s, t)
  {
    if s.sh.woken != {} {
      t :| t in s.sh.woken;
      assert t in s.sh.waiting + s.sh.woken;
    } else {
      FrontAndRear(s.sh.wq);
      TwoMessages(s.sh.wq);
      assert Demand(s.n, s.sh) > 0;
      assert s.sh.waiting == {};
      t := SomeOtherWorker(s.pcs);
    }
  }

  /** What that worker does next. */
  function NextOf(s: State, t: Tid, pick: Tid): Action
    requires t < |s.pcs|
  {
    if s.pcs[t].Taken? then RunWork(t) else if s.pcs[t].Worked? then Publish(t) else Section(t, pick)
  }

  lemma LeavingRoams(s: State, t: Tid, sh: Shared, sh': Shared, o: Outcome, id: Id)
    requires t < |s.pcs| && id in sh.pending && TakesNoSlow(sh, sh', o) && Closes(sh, sh', o)
    requires sh.slowRunning == s.sh.slowRunning
    ensures var s' := LeaveSection(s, t, sh', o);
            id in s'.sh.pending && s'.sh.slowRunning == s.sh.slowRunning
            && (Lost(s', id) || (s'.pcs[t].Taken? && !s'.pcs[t].slow))
  {
    hide Front, Rear;
  }

  lemma RoamingSection(s: State, t: Tid, pick: Tid, id: Id)
    requires Inv(s) && Closing(s) && id in s.sh.pending && s.sh.slowRunning == Threshold(s.n)
    requires Roams(s, t) && Enabled(s, Section(t, pick))
    ensures var s' := ApplySection(s, t, pick);
            id in s'.sh.pending && s'.sh.slowRunning == s.sh.slowRunning
            && (Lost(s', id) || (s'.pcs[t].Taken? && !s'.pcs[t].slow))
  {
    var sh := Entering(s, t);
    EnteringKeeps(s, t, pick);
    DecideTakesNoSlow(s.n, sh, t, pick);
    DecideCloses(s.n, sh, t, pick);
    hide Decide, Front, Closes, TakesNoSlow, Lost, LeaveSection, Inv;
    var (sh', o) := Decide(s.n, sh, t, pick);
    LeavingRoams(s, t, sh, sh', o, id);
  }

  lemma AwakeRoams(s: State, t: Tid)
    requires Inv(s) && t < |s.pcs| && (s.pcs[t].Taken? || s.pcs[t].Worked? || s.pcs[t].Ready?) && !InSlowWork(s.pcs[t])
    ensures Roams(s, t)
  {
    assert t in s.sh.waiting + s.sh.woken <==> s.pcs[t].Asleep?;
  }

  lemma RoamingStep(s: State, t: Tid, pick: Tid, id: Id)
    requires Inv(s) && Closing(s) && id in s.sh.pending && s.sh.slowRunning == Threshold(s.n)
    requires Roams(s, t) && Chosen(s.sh, pick)
    ensures var a := NextOf(s, t, pick);
            && Working(a) && Enabled(s, a)
            && var s' := Apply(s, a);
            && id in s'.sh.pending && s'.sh.slowRunning == Threshold(s'.n) && (Lost(s', id) || Roams(s', t))
  {
    var a := NextOf(s, t, pick);
    WorkerCanStep(s, t, pick);
    StepKeepsInv(s, a);
    if a.Section? {
      hide ApplySection, Front, Inv;
      RoamingSection(s, t, pick, id);
      if !Lost(Apply(s, a), id) {
        AwakeRoams(Apply(s, a), t);
      }
      SameThreads(s, a);
    } else {
      hide Inv;
      AwakeRoams(Apply(s, a), t);
    }
  }

  lemma SameThreads(s: State, a: Action)
    requires Enabled(s, a) && Distinct(s.sh.wq)
    ensures Apply(s, a).n == s.n && |Apply(s, a).pcs| == |s.pcs|
  {
    hide Decide;
  }

  /** While the slow workers stand still, the other one works its way to the slow-work
      message and puts it behind the exit message. */
  lemma {:induction false} RoamerStrands(s: State, t: Tid, id: Id)
    requires Inv(s) && Closing(s) && id in s.sh.pending && s.sh.slowRunning == Threshold(s.n) && Roams(s, t)
    ensures MayStrand(s, id)
    decreases RequestWork(s), ThreadWork(s)
  {
    if Lost(s, id) {
      LostIsStranded(s, id);
    } else {
      var pick: Tid := if s.sh.waiting != {} then (var p :| p in s.sh.waiting; p) else 0;
      var a := NextOf(s, t, pick);
      RoamingStep(s, t, pick, id);
      hide Closing, Lost, Apply, Roams, NextOf;
      StepKeepsInv(s, a);
      WorkingStepCloser(s, a);
      ClosingStays(s, a);
      if Lost(Apply(s, a), id) {
        LostIsStranded(Apply(s, a), id);
      } else {
        RoamerStrands(Apply(s, a), t, id);
      }
    }
  }

  // ---------- The exact condition ----------

  /** In a pool that is closing, the first pending request runs under every schedule exactly
      if the slow-work message is in front of the exit message and either fewer slow
      requests are running than may, or there is only one worker. Otherwise some schedule
      leaves it pending for ever. */
  lemma FirstPendingRunsExactly(s: State)
    requires Inv(s) && Closing(s) && s.sh.pending != []
    ensures var ok := RunSlowWork in Front(s.sh.wq) && (s.sh.slowRunning < (s.n + 1) / 2 || s.n == 1);
            && (AlwaysRuns(s, s.sh.pending[0]) <==> ok)
            && (MayStrand(s, s.sh.pending[0]) <==> !ok)
  {
    var id := s.sh.pending[0];
    assert s.sh.slowRunning <= Threshold(s.n) && s.n >= 1;
    if WillTake(s, id) {
      TakenUnderEverySchedule(s, id);
      NotBoth(s, id);
    } else {
      if RunSlowWork !in Front(s.sh.wq) {
        LostIsStranded(s, id);
      } else {
        var t := Roamer(s);
        RoamerStrands(s, t, id);
      }
      if AlwaysRuns(s, id) {
        NotBoth(s, id);
      }
    }
  }

  /** For a running pool that is told to exit, only the number of slow requests that are
      running decides. */
  lemma ShutdownStrandsExactly(s: State, pick: Tid)
    requires Inv(s) && Running(s) && Enabled(s, PostExit(pick)) && s.sh.pending != []
    ensures var s0 := Apply(s, PostExit(pick));
            var ok := s.sh.slowRunning < (s.n + 1) / 2 || s.n == 1;
            && Inv(s0) && s0.sh.pending == s.sh.pending
            && (AlwaysRuns(s0, s.sh.pending[0]) <==> ok)
            && (MayStrand(s0, s.sh.pending[0]) <==> !ok)
  {
    var s0 := Apply(s, PostExit(pick));
    StepKeepsInv(s, PostExit(pick));
    SnocExit(s.sh.wq);
    assert s0.sh.wq == s.sh.wq + [ExitMessage];
    FirstPendingRunsExactly(s0);
  }

  // ---------- Such a pool ----------

  function Slow(l: LoopId, linked: bool, place: Place): Request {
    Request(l, SlowIo, Submitted, linked, place, 0, 0, [])
  }

  /** The states of a pool of two workers to which two slow requests are submitted, the
      second after a worker took the first. */
  function Filling(l: LoopId, i: nat): State {
    var loops := map[l := Loop([], [], None, false)];
    var ready := [Ready(false), Ready(false)];
    var taken := [Taken(0, true), Ready(false)];
    if i == 0 then
      State(2, Shared([], [], 0, 0, {}, {}), ready, map[], loops)
    else if i == 1 then
      State(2, Shared([RunSlowWork], [0], 0, 0, {}, {}), ready, map[0 := Slow(l, false, InPending)], loops)
    else if i == 2 then
      State(2, Shared([], [], 1, 0, {}, {}), taken, map[0 := Slow(l, true, AtWorker(0))], loops)
    else
      State(2, Shared([RunSlowWork], [1], 1, 0, {}, {}), taken,
            map[0 := Slow(l, true, AtWorker(0)), 1 := Slow(l, false, InPending)], loops)
  }

  function FillingSteps(l: LoopId): seq<Action> {
    [Submit(0, l, SlowIo, 0), Section(0, 0), Submit(1, l, SlowIo, 0)]
  }

  lemma SubmitsFill(l: LoopId, i: nat)
    requires i == 0 || i == 2
    ensures var s, a := Filling(l, i), FillingSteps(l)[i];
            Distinct(s.sh.wq) && Enabled(s, a) && Filling(l, i + 1) == Apply(s, a)
  {
  }

  lemma SectionFills(l: LoopId)
    ensures var s, a := Filling(l, 1), FillingSteps(l)[1];
            Distinct(s.sh.wq) && Enabled(s, a) && Filling(l, 2) == Apply(s, a)
  {
    var s := Filling(l, 1);
    DecideIs(2, s.sh, 0, 0);
    assert s.sh.wq[1..] == [] && s.sh.pending[1..] == [];
    hide Decide;
  }

  /** Told to exit, this pool may strand the request that is pending. */
  lemma FullPool(l: LoopId) returns (states: seq<State>, actions: seq<Action>)
    ensures Run(states, actions) && |states| == 4
    ensures var s := states[3];
            && s.sh.pending == [1] && Inv(s) && Running(s) && Enabled(s, PostExit(0))
            && Inv(Apply(s, PostExit(0))) && MayStrand(Apply(s, PostExit(0)), 1)
  {
    states, actions := [Filling(l, 0), Filling(l, 1), Filling(l, 2), Filling(l, 3)], FillingSteps(l);
    FilledRun(l);
    RunKeepsInv(states, actions, 3);
    FilledFacts(l);
    hide *;
    ShutdownStrandsExactly(Filling(l, 3), 0);
  }

  lemma FilledFacts(l: LoopId)
    ensures var s := Filling(l, 3);
            && s.sh.pending == [1] && s.n == 2 && s.sh.slowRunning == Threshold(s.n)
            && Running(s) && Enabled(s, PostExit(0))
  {
  }

  lemma FilledRun(l: LoopId)
    ensures Run([Filling(l, 0), Filling(l, 1), Filling(l, 2), Filling(l, 3)], FillingSteps(l))
  {
    SubmitsFill(l, 0);
    SectionFills(l);
    SubmitsFill(l, 2);
    assert Initial(Filling(l, 0)) && |FillingSteps(l)| == 3;
    hide *;
    RunOfThree([Filling(l, 0), Filling(l, 1), Filling(l, 2), Filling(l, 3)], FillingSteps(l));
  }

  lemma RunOfThree(states: seq<State>, actions: seq<Action>)
    requires |states| == 4 && |actions| == 3 && Initial(states[0])
    requires Distinct(states[0].sh.wq) && Enabled(states[0], actions[0]) && states[1] == Apply(states[0], actions[0])
    requires Distinct(states[1].sh.wq) && Enabled(states[1], actions[1]) && states[2] == Apply(states[1], actions[1])
    requires Distinct(states[2].sh.wq) && Enabled(states[2], actions[2]) && states[3] == Apply(states[2], actions[2])
    ensures Run(states, actions)
  {
    hide Initial, Distinct, Enabled, Apply;
  }
}
