/** Every request is in exactly one place, runs at most once and gets at most one
    done call, whose status tells whether it was cancelled: over every run. */
module ThreadPoolRequests {
  import opened Wrappers
  import opened Sequences
  import opened ThreadPool
  import opened ThreadPoolSteps
  import opened ThreadPoolWorkers

  predicate Carries(pc: Pc, id: Id) {
    (pc.Taken? || pc.Worked?) && pc.id == id
  }

  /** Is the request found at this place? Read off the queues, the workers and the
      loops, not off the record kept beside them. */
  predicate Found(s: State, p: Place, id: Id) {
    match p
    case InWq => Item(id) in s.sh.wq
    case InPending => id in s.sh.pending
    case AtWorker(t) => t < |s.pcs| && Carries(s.pcs[t], id)
    case AtCanceller(l) => l in s.loops && s.loops[l].cancelling == Some(id)
    case InLoopWq(l) => l in s.loops && id in s.loops[l].wq
    case InMoved(l) => l in s.loops && id in s.loops[l].moved
    case Finished => id in s.requests && s.requests[id].dones != []
  }

  predicate Placed(s: State, p: Place, id: Id) {
    id in s.requests && s.requests[id].place == p
  }

  ghost predicate LoopOk(l: Loop) {
    && Distinct(l.wq) && Distinct(l.moved)
    && (l.wq != [] ==> l.async)
  }

  ghost predicate QueuesOk(s: State) {
    && Distinct(s.sh.wq) && Distinct(s.sh.pending)
    && forall l :: l in s.loops ==> LoopOk(s.loops[l])
  }

  /** The record of a request agrees with where it is. */
  ghost predicate RequestOk(s: State, id: Id)
    requires id in s.requests
  {
    var r := s.requests[id];
    && r.loop in s.loops
    && match r.place
       case InWq => r.kind != SlowIo && Fresh(r)
       case InPending => r.kind == SlowIo && Fresh(r)
       case AtWorker(t) =>
         && t < |s.pcs| && Carries(s.pcs[t], id)
         && (s.pcs[t].slow <==> r.kind == SlowIo)
         && r.selfLinked && r.work == Submitted && r.cancels == 0 && r.dones == []
         && r.runs == (if s.pcs[t].Worked? then 1 else 0)
       case AtCanceller(l) => l == r.loop && !r.selfLinked && r.work != Null && r.cancels > 0 && r.runs == 0 && r.dones == []
       case InLoopWq(l) => l == r.loop && Settled(r) && r.dones == []
       case InMoved(l) => l == r.loop && Settled(r) && r.dones == []
       case Finished => Settled(r) && r.dones == [if r.cancels > 0 then ECanceled else Ok]
  }

  predicate Fresh(r: Request) {
    !r.selfLinked && r.work == Submitted && r.runs == 0 && r.cancels == 0 && r.dones == []
  }

  /** Either it was cancelled and did not run, or it ran once. */
  predicate Settled(r: Request) {
    && !r.selfLinked
    && (if r.cancels > 0 then r.work == Cancelled && r.runs == 0 else r.work == Null && r.runs == 1)
  }

  ghost predicate RequestsInv(s: State) {
    && QueuesOk(s)
    && (forall p, id :: Found(s, p, id) <==> Placed(s, p, id))
    && (forall id :: id in s.requests ==> RequestOk(s, id))
  }

  // ---------- The steps ----------

  lemma SubmitPlaces(s: State, a: Action, p: Place, x: Id)
    requires RequestsInv(s) && Enabled(s, a) && a.Submit? && QueuesOk(s)
    requires !Found(s, InWq, a.id) && !Found(s, InPending, a.id)
    ensures Found(Apply(s, a), p, x) <==> Placed(Apply(s, a), p, x)
  {
    assert Found(s, p, x) <==> Placed(s, p, x);
  }

  lemma SubmitQueues(s: State, a: Action)
    requires RequestsInv(s) && Enabled(s, a) && a.Submit?
    requires !Found(s, InWq, a.id) && !Found(s, InPending, a.id)
    ensures QueuesOk(Apply(s, a))
  {
  }

  lemma SubmitRecords(s: State, a: Action, x: Id)
    requires RequestsInv(s) && Enabled(s, a) && a.Submit? && QueuesOk(s) && x in Apply(s, a).requests
    ensures RequestOk(Apply(s, a), x)
  {
    if x != a.id { assert RequestOk(s, x); }
  }

  lemma SubmitKeeps(s: State, a: Action)
    requires RequestsInv(s) && Enabled(s, a) && a.Submit?
    ensures RequestsInv(Apply(s, a))
  {
    assert QueuesOk(s);
    assert !Found(s, InWq, a.id) && !Found(s, InPending, a.id);
    hide Found, Placed, QueuesOk, RequestOk, Enabled, Apply;
    var s' := Apply(s, a);
    SubmitQueues(s, a);
    forall p, x ensures Found(s', p, x) <==> Placed(s', p, x) {
      SubmitPlaces(s, a, p, x);
    }
    forall x | x in s'.requests ensures RequestOk(s', x) {
      SubmitRecords(s, a, x);
    }
  }

  lemma RunWorkKeeps(s: State, t: Tid)
    requires RequestsInv(s) && Enabled(s, RunWork(t))
    ensures RequestsInv(ApplyRunWork(s, t))
  {
    var s' := ApplyRunWork(s, t);
    var id := s.pcs[t].id;
    assert Found(s, AtWorker(t), id);
    forall p, x ensures Found(s', p, x) <==> Placed(s', p, x) {
      assert Found(s, p, x) <==> Placed(s, p, x);
    }
    forall x | x in s'.requests ensures RequestOk(s', x) {
      assert RequestOk(s, x);
    }
  }

  lemma PublishKeeps(s: State, t: Tid)
    requires RequestsInv(s) && Enabled(s, Publish(t))
    ensures RequestsInv(ApplyPublish(s, t))
  {
    var s' := ApplyPublish(s, t);
    var id := s.pcs[t].id;
    var l := s.requests[id].loop;
    assert Found(s, AtWorker(t), id);
    assert !Found(s, InLoopWq(l), id);
    assert LoopOk(s.loops[l]);
    DistinctSnoc(s.loops[l].wq, id);
    forall p, x ensures Found(s', p, x) <==> Placed(s', p, x) {
      assert Found(s, p, x) <==> Placed(s, p, x);
    }
    forall x | x in s'.requests ensures RequestOk(s', x) {
      assert RequestOk(s, x);
    }
  }

  lemma CancelPublishKeeps(s: State, l: LoopId)
    requires RequestsInv(s) && Enabled(s, CancelPublish(l))
    ensures RequestsInv(ApplyCancelPublish(s, l))
  {
    var s' := ApplyCancelPublish(s, l);
    var id := s.loops[l].cancelling.value;
    assert Found(s, AtCanceller(l), id);
    assert !Found(s, InLoopWq(l), id);
    assert LoopOk(s.loops[l]);
    DistinctSnoc(s.loops[l].wq, id);
    forall p, x ensures Found(s', p, x) <==> Placed(s', p, x) {
      assert Found(s, p, x) <==> Placed(s, p, x);
    }
    forall x | x in s'.requests ensures RequestOk(s', x) {
      assert RequestOk(s, x);
    }
  }

  lemma MoveDoneKeeps(s: State, l: LoopId)
    requires RequestsInv(s) && Enabled(s, MoveDone(l))
    ensures RequestsInv(ApplyMoveDone(s, l))
  {
    var s' := ApplyMoveDone(s, l);
    assert LoopOk(s.loops[l]);
    forall p, x ensures Found(s', p, x) <==> Placed(s', p, x) {
      assert Found(s, p, x) <==> Placed(s, p, x);
      assert Found(s, InLoopWq(l), x) <==> Placed(s, InLoopWq(l), x);
    }
    forall x | x in s'.requests ensures RequestOk(s', x) {
      assert RequestOk(s, x);
      assert Found(s, InLoopWq(l), x) <==> Placed(s, InLoopWq(l), x);
    }
  }

  lemma CallDoneKeeps(s: State, l: LoopId)
    requires RequestsInv(s) && Enabled(s, CallDone(l))
    ensures RequestsInv(ApplyCallDone(s, l))
  {
    var s' := ApplyCallDone(s, l);
    var id := s.loops[l].moved[0];
    assert Found(s, InMoved(l), id);
    assert LoopOk(s.loops[l]);
    DistinctTail(s.loops[l].moved);
    forall p, x ensures Found(s', p, x) <==> Placed(s', p, x) {
      assert Found(s, p, x) <==> Placed(s, p, x);
    }
    forall x | x in s'.requests ensures RequestOk(s', x) {
      assert RequestOk(s, x);
    }
  }

  /** What a critical section does to the two queues. */
  ghost predicate SectionTakes(sh: Shared, sh': Shared, o: Outcome) {
    && Distinct(sh'.wq)
    && (o.Execute? && !o.slow ==> Item(o.id) in sh.wq)
    && (forall x :: Item(x) in sh'.wq <==> Item(x) in sh.wq && o != Execute(x, false))
    && (ExitMessage in sh'.wq <==> ExitMessage in sh.wq)
    && (o.Quit? ==> ExitMessage in sh.wq)
    && (if o.Execute? && o.slow then sh.pending == [o.id] + sh'.pending else sh'.pending == sh.pending)
  }

  lemma TakesHead(n: nat, sh: Shared, pick: Tid)
    requires SharedInv(n, sh) && sh.wq != [] && !sh.wq[0].RunSlowWork?
    ensures sh.wq[0].ExitMessage? ==> SectionTakes(sh, Signal(sh, pick), Quit)
    ensures sh.wq[0].Item? ==> SectionTakes(sh, sh.(wq := sh.wq[1..]), Execute(sh.wq[0].id, false))
  {
    DistinctTail(sh.wq);
  }

  lemma TakesSlow(n: nat, sh: Shared, pick: Tid)
    requires SharedInv(n, sh) && sh.wq != [] && sh.wq[0].RunSlowWork? && sh.pending != []
    ensures SectionTakes(sh, TookSlow(sh, pick), Execute(sh.pending[0], true))
  {
    DistinctTail(sh.wq);
    DistinctSnoc(sh.wq[1..], RunSlowWork);
  }

  /** The slow-work message moves or goes; the requests stay. */
  lemma TakesLater(n: nat, sh: Shared, wq: seq<Message>, sh': Shared, o: Outcome)
    requires SharedInv(n, sh) && sh.wq != [] && sh.wq[0].RunSlowWork? && (wq == sh.wq[1..] || wq == sh.wq[1..] + [RunSlowWork])
    requires SectionTakes(sh.(wq := wq), sh', o)
    ensures SectionTakes(sh, sh', o)
  {
    DistinctTail(sh.wq);
    hide Distinct;
    assert forall m: Message :: m.Item? || m.ExitMessage? ==> (m in wq <==> m in sh.wq);
  }

  lemma {:induction false} DecideTakes(n: nat, sh: Shared, t: Tid, pick: Tid)
    requires SharedInv(n, sh)
    ensures SectionTakes(sh, Decide(n, sh, t, pick).0, Decide(n, sh, t, pick).1)
    decreases |sh.wq|, if sh.wq != [] && sh.wq[0].RunSlowWork? then 1 else 0
  {
    DecideIs(n, sh, t, pick);
    if !Runnable(n, sh) {
    } else if !sh.wq[0].RunSlowWork? {
      TakesHead(n, sh, pick);
    } else {
      hide Decide, SectionTakes, SharedInv, Demand, Distinct, Signal, Enqueue;
      if sh.slowRunning >= Threshold(n) {
        var wq := sh.wq[1..] + [RunSlowWork];
        Requeue(n, sh);
        DecideTakes(n, sh.(wq := wq), t, pick);
        TakesLater(n, sh, wq, Decide(n, sh, t, pick).0, Decide(n, sh, t, pick).1);
      } else if sh.pending == [] {
        DropSlow(n, sh);
        DecideTakes(n, sh.(wq := sh.wq[1..]), t, pick);
        TakesLater(n, sh, sh.wq[1..], Decide(n, sh, t, pick).0, Decide(n, sh, t, pick).1);
      } else {
        TakesSlow(n, sh, pick);
      }
    }
  }

  lemma LeaveKeeps(s: State, t: Tid, sh: Shared, o: Outcome)
    requires RequestsInv(s) && t < |s.pcs| && !s.pcs[t].Taken? && !s.pcs[t].Worked?
    requires SectionTakes(s.sh, sh, o)
    ensures RequestsInv(LeaveSection(s, t, sh, o))
  {
    var s' := LeaveSection(s, t, sh, o);
    if o.Execute? {
      assert Found(s, if o.slow then InPending else InWq, o.id);
      assert RequestOk(s, o.id);
      if o.slow {
        DistinctTail(s.sh.pending);
      }
    }
    LeavePlaces(s, t, sh, o);
    forall x | x in s'.requests ensures RequestOk(s', x) {
      assert RequestOk(s, x);
    }
  }

  lemma LeavePlaces(s: State, t: Tid, sh: Shared, o: Outcome)
    requires RequestsInv(s) && t < |s.pcs| && !s.pcs[t].Taken? && !s.pcs[t].Worked?
    requires SectionTakes(s.sh, sh, o)
    requires o.Execute? ==> Found(s, if o.slow then InPending else InWq, o.id)
    requires o.Execute? && o.slow ==> forall x :: x in sh.pending <==> x in s.sh.pending && x != o.id
    ensures var s' := LeaveSection(s, t, sh, o); forall p, x :: Found(s', p, x) <==> Placed(s', p, x)
  {
    var s' := LeaveSection(s, t, sh, o);
    forall p, x ensures Found(s', p, x) <==> Placed(s', p, x) {
      assert Found(s, p, x) <==> Placed(s, p, x);
      assert Found(s, AtWorker(t), x) <==> Placed(s, AtWorker(t), x);
    }
  }

  lemma SectionKeeps(s: State, t: Tid, pick: Tid)
    requires WorkersInv(s) && RequestsInv(s) && Enabled(s, Section(t, pick))
    ensures RequestsInv(ApplySection(s, t, pick))
  {
    EnteringKeeps(s, t, pick);
    var sh := Entering(s, t);
    DecideTakes(s.n, sh, t, pick);
    var (sh', o) := Decide(s.n, sh, t, pick);
    assert SectionTakes(s.sh, sh', o);
    assert t in s.sh.woken ==> t in s.sh.waiting + s.sh.woken;
    LeaveKeeps(s, t, sh', o);
  }

  lemma UnlinkQueues(s: State, id: Id, l: LoopId)
    requires QueuesOk(s) && l in s.loops
    ensures QueuesOk(Unlink(s, id, l))
  {
    var u := Unlink(s, id, l);
    WithoutExact(s.sh.wq, Item(id));
    WithoutExact(s.sh.pending, id);
    WithoutExact(s.loops[l].wq, id);
    WithoutExact(s.loops[l].moved, id);
    forall m | m in u.loops ensures LoopOk(u.loops[m]) {
      assert LoopOk(s.loops[m]);
      if m == l && u.loops[l].wq != [] {
        assert u.loops[l].wq[0] in s.loops[l].wq;
      }
    }
  }

  /** Unlinking takes a request out of wherever it is linked, and only it. */
  lemma UnlinkExact(s: State, id: Id, l: LoopId, p: Place, x: Id)
    requires QueuesOk(s) && l in s.loops
    ensures Found(Unlink(s, id, l), p, x) <==>
              Found(s, p, x) && !(x == id && p in {InWq, InPending, InLoopWq(l), InMoved(l)})
  {
    assert LoopOk(s.loops[l]);
    WithoutExact(s.sh.wq, Item(id));
    WithoutExact(s.sh.pending, id);
    WithoutExact(s.loops[l].wq, id);
    WithoutExact(s.loops[l].moved, id);
    hide Distinct, Without;
  }

  lemma CancelPlaces(s: State, id: Id, p: Place, x: Id)
    requires RequestsInv(s) && Enabled(s, CancelTest(id)) && Cancellable(s.requests[id])
    ensures Found(ApplyCancelTest(s, id), p, x) <==> Placed(ApplyCancelTest(s, id), p, x)
  {
    var r := s.requests[id];
    var l := r.loop;
    assert QueuesOk(s) && RequestOk(s, id);
    assert !Found(s, AtCanceller(l), id);
    assert r.place in {InWq, InPending, InLoopWq(l), InMoved(l)};
    assert Found(s, p, x) <==> Placed(s, p, x);
    UnlinkExact(s, id, l, p, x);
    hide QueuesOk, RequestOk, RequestsInv, Without;
  }

  lemma CancelRecords(s: State, id: Id, x: Id)
    requires RequestsInv(s) && Enabled(s, CancelTest(id)) && Cancellable(s.requests[id])
    requires x in ApplyCancelTest(s, id).requests
    ensures RequestOk(ApplyCancelTest(s, id), x)
  {
    assert RequestOk(s, x) && RequestOk(s, id);
    hide Found, Placed, QueuesOk, Without, RequestsInv;
  }

  lemma CancelTestKeeps(s: State, id: Id)
    requires RequestsInv(s) && Enabled(s, CancelTest(id))
    ensures RequestsInv(ApplyCancelTest(s, id))
  {
    if Cancellable(s.requests[id]) {
      var s' := ApplyCancelTest(s, id);
      assert QueuesOk(s) && RequestOk(s, id);
      UnlinkQueues(s, id, s.requests[id].loop);
      assert QueuesOk(s');
      forall p, x ensures Found(s', p, x) <==> Placed(s', p, x) {
        CancelPlaces(s, id, p, x);
      }
      forall x | x in s'.requests ensures RequestOk(s', x) {
        CancelRecords(s, id, x);
      }
    }
  }

  lemma SharedStepKeeps(s: State, sh: Shared)
    requires RequestsInv(s)
    requires Distinct(sh.wq) && sh.pending == s.sh.pending && forall x :: Item(x) in sh.wq <==> Item(x) in s.sh.wq
    ensures RequestsInv(s.(sh := sh))
  {
    var s' := s.(sh := sh);
    forall p, x ensures Found(s', p, x) <==> Placed(s', p, x) {
      assert Found(s, p, x) <==> Placed(s, p, x);
    }
    forall x | x in s'.requests ensures RequestOk(s', x) {
      assert RequestOk(s, x);
    }
  }

  // ---------- Every run ----------

  ghost predicate Inv(s: State) {
    WorkersInv(s) && RequestsInv(s)
  }

  lemma InitialInv(s: State)
    requires Initial(s)
    ensures Inv(s)
  {
    InitialWorkers(s);
  }

  lemma StepKeepsInv(s: State, a: Action)
    requires Inv(s) && Enabled(s, a)
    ensures Inv(Apply(s, a))
  {
    if a.Submit? {
      assert !Found(s, InWq, a.id);
    }
    StepKeepsWorkers(s, a);
    match a
    case Submit(_, _, _, _) => SubmitKeeps(s, a);
    case PostExit(pick) =>
      DistinctSnoc(s.sh.wq, ExitMessage);
      SharedStepKeeps(s, Apply(s, a).sh);
    case Section(t, pick) => SectionKeeps(s, t, pick);
    case SpuriousWakeup(t) => SharedStepKeeps(s, Apply(s, a).sh);
    case RunWork(t) => RunWorkKeeps(s, t);
    case Publish(t) => PublishKeeps(s, t);
    case CancelTest(id) => CancelTestKeeps(s, id);
    case CancelPublish(l) => CancelPublishKeeps(s, l);
    case MoveDone(l) => MoveDoneKeeps(s, l);
    case CallDone(l) => CallDoneKeeps(s, l);
  }

  /** A run: the states passed through, one enabled action between neighbours. */
  ghost predicate Run(states: seq<State>, actions: seq<Action>) {
    && |states| == |actions| + 1
    && Initial(states[0])
    && forall i :: 0 <= i < |actions| ==>
         Distinct(states[i].sh.wq) && Enabled(states[i], actions[i]) && states[i + 1] == Apply(states[i], actions[i])
  }

  lemma {:induction false} RunKeepsInv(states: seq<State>, actions: seq<Action>, i: nat)
    requires Run(states, actions) && i < |states|
    ensures Inv(states[i])
  {
    if i == 0 {
      InitialInv(states[0]);
    } else {
      RunKeepsInv(states, actions, i - 1);
      StepKeepsInv(states[i - 1], actions[i - 1]);
    }
  }

  /** Safety, in any state of any run: a request that was submitted is in one place
      and no other, no queue holds it twice, and it gets at most one done call. */
  lemma ExactlyOnePlace(states: seq<State>, actions: seq<Action>, i: nat, id: Id)
    requires Run(states, actions) && i < |states| && id in states[i].requests
    ensures QueuesOk(states[i])
    ensures exists p :: Found(states[i], p, id) && forall p' :: Found(states[i], p', id) ==> p' == p
    ensures |states[i].requests[id].dones| <= 1
  {
    RunKeepsInv(states, actions, i);
    var s := states[i];
    assert RequestOk(s, id);
    assert Found(s, s.requests[id].place, id) <==> Placed(s, s.requests[id].place, id);
  }

  // ---------- The history of a request ----------

  /** The steps at which the request's function is called, at which a cancel of it
      succeeds, and at which it gets a done call. */
  predicate RunsIt(s: State, a: Action, id: Id) {
    a.RunWork? && a.t < |s.pcs| && s.pcs[a.t].Taken? && s.pcs[a.t].id == id
  }

  predicate CancelsIt(s: State, a: Action, id: Id) {
    a == CancelTest(id) && id in s.requests && Cancellable(s.requests[id])
  }

  predicate FinishesIt(s: State, a: Action, id: Id) {
    a.CallDone? && a.loop in s.loops && s.loops[a.loop].moved != [] && s.loops[a.loop].moved[0] == id
  }

  function Count(states: seq<State>, actions: seq<Action>, step: (State, Action) -> bool, i: nat): nat
    requires i <= |actions| <= |states|
  {
    if i == 0 then 0
    else Count(states, actions, step, i - 1) + if step(states[i - 1], actions[i - 1]) then 1 else 0
  }

  /** The counters in a request's record count the steps of the run. */
  lemma {:induction false} RecordCountsSteps(states: seq<State>, actions: seq<Action>, i: nat, id: Id)
    requires Run(states, actions) && i < |states|
    ensures var s := states[i];
            && Count(states, actions, (s, a) => RunsIt(s, a, id), i) == (if id in s.requests then s.requests[id].runs else 0)
            && Count(states, actions, (s, a) => CancelsIt(s, a, id), i) == (if id in s.requests then s.requests[id].cancels else 0)
            && Count(states, actions, (s, a) => FinishesIt(s, a, id), i) == (if id in s.requests then |s.requests[id].dones| else 0)
  {
    hide Apply, Enabled, Inv, RunsIt, CancelsIt, FinishesIt;
    if i > 0 {
      RecordCountsSteps(states, actions, i - 1, id);
      RunKeepsInv(states, actions, i - 1);
      var s, a := states[i - 1], actions[i - 1];
      assert states[i] == Apply(s, a);
      StepCounts(s, a, id);
    }
  }

  lemma StepCounts(s: State, a: Action, id: Id)
    requires Inv(s) && Enabled(s, a)
    ensures var s' := Apply(s, a);
            && (id in s.requests ==> id in s'.requests)
            && (id !in s.requests ==> !RunsIt(s, a, id) && !CancelsIt(s, a, id) && !FinishesIt(s, a, id))
            && (id in s'.requests ==>
                  var r := if id in s.requests then s.requests[id] else Request(0, Cpu, Null, false, InWq, 0, 0, []);
                  var r' := s'.requests[id];
                  && r'.runs == r.runs + (if RunsIt(s, a, id) then 1 else 0)
                  && r'.cancels == r.cancels + (if CancelsIt(s, a, id) then 1 else 0)
                  && |r'.dones| == |r.dones| + (if FinishesIt(s, a, id) then 1 else 0))
  {
    if RunsIt(s, a, id) {
      assert Found(s, AtWorker(a.t), id);
    }
    if FinishesIt(s, a, id) {
      assert Found(s, InMoved(a.loop), id);
    }
  }

  /** At the step that gives a request its done call: the status is ECANCELED
      exactly if a cancel of it succeeded before, and then its function was never
      called; otherwise the function was called exactly once before. It is the
      first done call of the request. */
  lemma DoneCallReportsHistory(states: seq<State>, actions: seq<Action>, i: nat, id: Id)
    requires Run(states, actions) && i < |actions| && FinishesIt(states[i], actions[i], id)
    ensures id in states[i + 1].requests && |states[i + 1].requests[id].dones| == 1
    ensures var status := states[i + 1].requests[id].dones[0];
            var cancels := Count(states, actions, (s, a) => CancelsIt(s, a, id), i);
            var runs := Count(states, actions, (s, a) => RunsIt(s, a, id), i);
            && (status == ECanceled <==> cancels > 0)
            && (status == ECanceled ==> runs == 0)
            && (status == Ok ==> runs == 1)
    ensures Count(states, actions, (s, a) => FinishesIt(s, a, id), i) == 0
  {
    RunKeepsInv(states, actions, i);
    RecordCountsSteps(states, actions, i, id);
    var s := states[i];
    assert Found(s, InMoved(actions[i].loop), id);
    assert RequestOk(s, id);
    assert states[i + 1] == Apply(s, actions[i]);
  }

  /** No worker ever calls uv__cancelled, which would abort. */
  lemma NeverRunsCancelled(states: seq<State>, actions: seq<Action>, i: nat, t: Tid)
    requires Run(states, actions) && i < |states| && Enabled(states[i], RunWork(t))
    ensures states[i].requests[states[i].pcs[t].id].work == Submitted
  {
    RunKeepsInv(states, actions, i);
    assert Found(states[i], AtWorker(t), states[i].pcs[t].id);
    assert RequestOk(states[i], states[i].pcs[t].id);
  }

  /** When a cancel succeeds: exactly for a request that no worker has taken. */
  lemma CancelSucceedsExactly(states: seq<State>, actions: seq<Action>, i: nat, id: Id)
    requires Run(states, actions) && i < |states| && Enabled(states[i], CancelTest(id))
    ensures var s := states[i];
            Cancellable(s.requests[id]) <==>
              Found(s, InWq, id) || Found(s, InPending, id) || s.requests[id].cancels > 0
  {
    RunKeepsInv(states, actions, i);
    var s := states[i];
    assert RequestOk(s, id);
    assert Found(s, InWq, id) <==> Placed(s, InWq, id);
    assert Found(s, InPending, id) <==> Placed(s, InPending, id);
  }

  /** Slow work: the counter is the number of workers inside slow requests, at
      most half of the threads rounded up, and waiting slow work is scheduled. */
  lemma SlowWorkBounded(states: seq<State>, actions: seq<Action>, i: nat)
    requires Run(states, actions) && i < |states|
    ensures var s := states[i];
            && s.sh.slowRunning == SlowWorkers(s.pcs) <= (s.n + 1) / 2
            && (s.sh.pending != [] ==>
                  exists k :: 0 <= k < |s.sh.wq| && s.sh.wq[k] == RunSlowWork
                              && forall j :: 0 <= j < |s.sh.wq| && s.sh.wq[j] == RunSlowWork ==> j == k)
  {
    RunKeepsInv(states, actions, i);
  }

  /** No lost wakeup: with runnable work and a live worker, some live worker is not
      sleeping unsignalled; indeed, while any sleeps, each entry that could be
      acted on has a woken worker of its own. */
  lemma NoWorkStranded(states: seq<State>, actions: seq<Action>, i: nat, live: Tid)
    requires Run(states, actions) && i < |states|
    requires Runnable(states[i].n, states[i].sh)
    requires live < |states[i].pcs| && !states[i].pcs[live].Exited?
    ensures exists t: Tid :: t < |states[i].pcs| && !states[i].pcs[t].Exited? && t !in states[i].sh.waiting
    ensures NoLostWakeup(states[i].n, states[i].sh)
  {
    RunKeepsInv(states, actions, i);
    var s := states[i];
    if live in s.sh.waiting {
      assert |s.sh.woken| > 0;
      var t :| t in s.sh.woken;
      assert t in s.sh.waiting + s.sh.woken;
    }
  }
}
