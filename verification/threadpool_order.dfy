/** First in, first out, over every run: slow requests wait in the order in which they
    were submitted, so do the others, and finished requests in the order in which they
    came back to their loop. */
module ThreadPoolOrder {
  import opened Wrappers
  import opened Sequences
  import opened ThreadPool
  import opened ThreadPoolSteps
  import opened ThreadPoolWorkers
  import opened ThreadPoolRequests

  // ---------- Queues that follow a history ----------

  /** What is left of the history: those that are still in the queue. */
  function Left(h: seq<Id>, q: seq<Id>): seq<Id> {
    if h == [] then [] else (if h[0] in q then [h[0]] else []) + Left(h[1..], q)
  }

  /** The queue holds its entries in the order of the history. */
  predicate Follows(q: seq<Id>, h: seq<Id>) {
    q == Left(h, q)
  }

  /** x comes in the sequence, and not y before it. */
  predicate Before(h: seq<Id>, x: Id, y: Id) {
    h != [] && h[0] != y && (h[0] == x || Before(h[1..], x, y))
  }

  lemma {:induction false} LeftAgrees(h: seq<Id>, q: seq<Id>, q': seq<Id>)
    requires forall x :: x in h ==> (x in q <==> x in q')
    ensures Left(h, q) == Left(h, q')
  {
    if h != [] {
      LeftAgrees(h[1..], q, q');
    }
  }

  lemma {:induction false} LeftSnoc(h: seq<Id>, x: Id, q: seq<Id>)
    requires x in q
    ensures Left(h + [x], q) == Left(h, q) + [x]
  {
    if h != [] {
      assert (h + [x])[1..] == h[1..] + [x];
      LeftSnoc(h[1..], x, q);
    }
  }

  lemma {:induction false} LeftWithin(h: seq<Id>, q: seq<Id>, x: Id)
    ensures x in Left(h, q) <==> x in h && x in q
  {
    if h != [] {
      assert x in h <==> x == h[0] || x in h[1..];
      LeftWithin(h[1..], q, x);
    }
  }

  /** Without an entry that is not in the queue, the history leaves the same. */
  lemma {:induction false} LeftForgets(h: seq<Id>, q: seq<Id>, x: Id)
    requires x !in q
    ensures Left(Without(h, x), q) == Left(h, q)
  {
    if h != [] && h[0] != x {
      assert Without(h, x)[1..] == Without(h[1..], x);
      LeftForgets(h[1..], q, x);
    }
  }

  lemma {:induction false} LeftWithout(h: seq<Id>, q: seq<Id>, x: Id)
    requires Distinct(q) && Distinct(h)
    ensures Left(h, Without(q, x)) == Without(Left(h, q), x)
  {
    WithoutExact(q, x);
    if h != [] {
      DistinctTail(h);
      assert [] + Left(h[1..], q) == Left(h[1..], q) && [] + Left(h[1..], Without(q, x)) == Left(h[1..], Without(q, x));
      if h[0] == x {
        LeftAgrees(h[1..], q, Without(q, x));
        LeftWithin(h[1..], q, x);
        WithoutAbsent(Left(h[1..], q), x);
        WithoutHead(x, Left(h[1..], q));
      } else {
        LeftWithout(h[1..], q, x);
        WithoutOther(h[0], Left(h[1..], q), x);
      }
    }
  }

  lemma WithoutHead<T>(x: T, q: seq<T>)
    ensures Without([x] + q, x) == q
  {
    assert ([x] + q)[1..] == q;
  }

  lemma WithoutOther<T>(y: T, q: seq<T>, x: T)
    requires x != y
    ensures Without([y] + q, x) == [y] + Without(q, x)
  {
    assert ([y] + q)[1..] == q;
  }

  lemma {:induction false} WithoutAbsent<T>(q: seq<T>, x: T)
    requires x !in q
    ensures Without(q, x) == q
  {
    if q != [] {
      WithoutAbsent(q[1..], x);
    }
  }

  /** An entry comes to the tail, of the queue and of the history. */
  lemma EntryFollows(q: seq<Id>, h: seq<Id>, x: Id)
    requires Follows(q, h) && x !in q && Distinct(h)
    ensures Follows(q + [x], Without(h, x) + [x]) && Distinct(Without(h, x) + [x])
  {
    WithoutExact(h, x);
    LeftForgets(h, q, x);
    LeftAgrees(Without(h, x), q, q + [x]);
    LeftSnoc(Without(h, x), x, q + [x]);
    DistinctSnoc(Without(h, x), x);
  }

  /** An entry leaves the queue from wherever it is. */
  lemma LeavingFollows(q: seq<Id>, h: seq<Id>, x: Id)
    requires Follows(q, h) && Distinct(q) && Distinct(h)
    ensures Follows(Without(q, x), h)
  {
    LeftWithout(h, q, x);
  }

  lemma {:induction false} SnocBefore(h: seq<Id>, x: Id, y: Id)
    requires x in h && y !in h
    ensures Before(h, x, y)
  {
    if h[0] != x {
      SnocBefore(h[1..], x, y);
    }
  }

  lemma {:induction false} AppendBefore(h: seq<Id>, more: seq<Id>, x: Id, y: Id)
    requires Before(h, x, y)
    ensures Before(h + more, x, y)
  {
    assert (h + more)[1..] == h[1..] + more;
    if h[0] != x {
      AppendBefore(h[1..], more, x, y);
    }
  }

  lemma {:induction false} WithoutBefore(h: seq<Id>, z: Id, x: Id, y: Id)
    requires Before(h, x, y) && z != x
    ensures Before(Without(h, z), x, y)
  {
    if h[0] != z && h[0] != x {
      WithoutBefore(h[1..], z, x, y);
      assert Without(h, z)[1..] == Without(h[1..], z);
    } else if h[0] == z {
      assert Without(h, z) == h[1..];
    }
  }

  /** The head of a queue that follows its history is not y while x, which came before
      it, is in the queue. */
  lemma {:induction false} HeadIsEarlier(h: seq<Id>, q: seq<Id>, x: Id, y: Id)
    requires Before(h, x, y) && x in q
    ensures Left(h, q) != [] && Left(h, q)[0] != y
  {
    if h[0] !in q {
      HeadIsEarlier(h[1..], q, x, y);
    }
  }

  // ---------- What a critical section takes ----------

  /** The requests in wq. */
  function Items(wq: seq<Message>): seq<Id> {
    if wq == [] then [] else (if wq[0].Item? then [wq[0].id] else []) + Items(wq[1..])
  }

  lemma {:induction false} ItemsSnoc(wq: seq<Message>, m: Message)
    ensures Items(wq + [m]) == Items(wq) + if m.Item? then [m.id] else []
  {
    if wq != [] {
      assert (wq + [m])[1..] == wq[1..] + [m];
      ItemsSnoc(wq[1..], m);
    }
  }

  lemma {:induction false} ItemsWithin(wq: seq<Message>, x: Id)
    ensures x in Items(wq) <==> Item(x) in wq
  {
    if wq != [] {
      assert Item(x) in wq <==> Item(x) == wq[0] || Item(x) in wq[1..];
      ItemsWithin(wq[1..], x);
    }
  }

  lemma {:induction false} ItemsDistinct(wq: seq<Message>)
    requires Distinct(wq)
    ensures Distinct(Items(wq))
  {
    if wq != [] {
      DistinctTail(wq);
      ItemsDistinct(wq[1..]);
      if wq[0].Item? {
        ItemsWithin(wq[1..], wq[0].id);
        DistinctCons(wq[0].id, Items(wq[1..]));
      }
    }
  }

  lemma {:induction false} ItemsWithout(wq: seq<Message>, x: Id)
    requires Distinct(wq)
    ensures Items(Without(wq, Item(x))) == Without(Items(wq), x)
  {
    if wq != [] {
      DistinctTail(wq);
      assert [] + Items(wq[1..]) == Items(wq[1..]);
      if wq[0] == Item(x) {
        WithoutHead(x, Items(wq[1..]));
      } else {
        ItemsWithout(wq[1..], x);
        assert Without(wq, Item(x))[1..] == Without(wq[1..], Item(x));
        assert [] + Items(Without(wq[1..], Item(x))) == Items(Without(wq[1..], Item(x)));
        if wq[0].Item? {
          WithoutOther(wq[0].id, Items(wq[1..]), x);
        }
      }
    }
  }

  /** A section takes a request from the head of its queue and leaves the others in
      their order. */
  ghost predicate TakesHeads(sh: Shared, sh': Shared, o: Outcome) {
    && Items(sh.wq) == (if o.Execute? && !o.slow then [o.id] else []) + Items(sh'.wq)
    && sh.pending == (if o.Execute? && o.slow then [o.id] else []) + sh'.pending
  }

  lemma SignalTakes(sh: Shared, pick: Tid)
    ensures Signal(sh, pick).wq == sh.wq && Signal(sh, pick).pending == sh.pending
  {
  }

  lemma TookSlowTakes(sh: Shared, pick: Tid)
    requires sh.wq != [] && sh.wq[0].RunSlowWork? && sh.pending != []
    ensures TakesHeads(sh, TookSlow(sh, pick), Execute(sh.pending[0], true))
  {
    ItemsSnoc(sh.wq[1..], RunSlowWork);
  }

  lemma {:induction false} DecideTakesHeads(n: nat, sh: Shared, t: Tid, pick: Tid)
    requires Distinct(sh.wq)
    ensures TakesHeads(sh, Decide(n, sh, t, pick).0, Decide(n, sh, t, pick).1)
    decreases |sh.wq|, if sh.wq != [] && sh.wq[0].RunSlowWork? then 1 else 0
  {
    DecideIs(n, sh, t, pick);
    SignalTakes(sh, pick);
    hide Decide, Signal, Enqueue, TookSlow, Threshold, Distinct;
    if Runnable(n, sh) && sh.wq[0].RunSlowWork? {
      ItemsSnoc(sh.wq[1..], RunSlowWork);
      HeadGoes(sh.wq);
      if sh.slowRunning >= Threshold(n) {
        DecideTakesHeads(n, sh.(wq := sh.wq[1..] + [RunSlowWork]), t, pick);
      } else if sh.pending == [] {
        DecideTakesHeads(n, sh.(wq := sh.wq[1..]), t, pick);
      } else {
        TookSlowTakes(sh, pick);
      }
    }
  }

  // ---------- The steps ----------

  predicate SubmitsSlow(a: Action) {
    a.Submit? && a.kind.SlowIo?
  }

  predicate SubmitsOther(a: Action) {
    a.Submit? && !a.kind.SlowIo?
  }

  /** x comes to the tail; or at most one entry goes, the head or x. */
  ghost predicate Moves(q: seq<Id>, q': seq<Id>, enters: bool, x: Id) {
    if enters then x !in q && q' == q + [x] else q' == q || q' == Without(q, x) || (q != [] && q' == q[1..])
  }

  lemma EnqueueItems(sh: Shared, m: Message, pick: Tid)
    ensures Enqueue(sh, m, pick).pending == sh.pending
    ensures Items(Enqueue(sh, m, pick).wq) == Items(sh.wq) + if m.Item? then [m.id] else []
  {
    ItemsSnoc(sh.wq, m);
  }

  lemma PostMoves(sh: Shared, m: Message, kind: Kind, pick: Tid)
    requires kind.SlowIo? ==> m.Item?
    ensures var sh' := Post(sh, m, kind, pick);
            && sh'.pending == sh.pending + (if kind.SlowIo? then [m.id] else [])
            && Items(sh'.wq) == Items(sh.wq) + if m.Item? && !kind.SlowIo? then [m.id] else []
  {
    hide Enqueue;
    if kind.SlowIo? {
      EnqueueItems(sh.(pending := sh.pending + [m.id]), RunSlowWork, pick);
    } else {
      EnqueueItems(sh, m, pick);
    }
  }

  /** The request that is submitted or cancelled. */
  function Subject(a: Action): Id {
    if a.Submit? || a.CancelTest? then a.id else 0
  }

  ghost predicate StepMoves(s: State, a: Action, s': State) {
    && Moves(s.sh.pending, s'.sh.pending, SubmitsSlow(a), Subject(a))
    && Moves(Items(s.sh.wq), Items(s'.sh.wq), SubmitsOther(a), Subject(a))
  }

  lemma SectionMoves(s: State, t: Tid, pick: Tid)
    requires Distinct(s.sh.wq) && Enabled(s, Section(t, pick))
    ensures StepMoves(s, Section(t, pick), ApplySection(s, t, pick))
  {
    var sh := Entering(s, t);
    assert sh.wq == s.sh.wq && sh.pending == s.sh.pending;
    DecideTakesHeads(s.n, sh, t, pick);
    hide Decide, Items, Entering, Distinct;
    var (sh', o) := Decide(s.n, sh, t, pick);
    assert o.Execute? && !o.slow ==> Items(sh.wq)[1..] == Items(sh'.wq);
    assert o.Execute? && o.slow ==> sh.pending[1..] == sh'.pending;
  }

  lemma SubmitMoves(s: State, a: Action)
    requires Inv(s) && Enabled(s, a) && a.Submit?
    ensures StepMoves(s, a, Apply(s, a))
  {
    assert !Found(s, InWq, a.id) && !Found(s, InPending, a.id);
    ItemsWithin(s.sh.wq, a.id);
    PostMoves(s.sh, Item(a.id), a.kind, a.pick);
    hide Post, Items;
  }

  lemma CancelMoves(s: State, id: Id)
    requires Distinct(s.sh.wq) && Enabled(s, CancelTest(id))
    ensures StepMoves(s, CancelTest(id), ApplyCancelTest(s, id))
  {
    ItemsWithout(s.sh.wq, id);
    hide Items, Without, Distinct;
  }

  lemma StepKeepsOrder(s: State, a: Action)
    requires Inv(s) && Enabled(s, a)
    ensures StepMoves(s, a, Apply(s, a))
  {
    match a
    case Submit(_, _, _, _) => SubmitMoves(s, a);
    case PostExit(pick) => PostMoves(s.sh, ExitMessage, Cpu, pick);
    case Section(t, pick) => SectionMoves(s, t, pick);
    case SpuriousWakeup(t) => SignalTakes(s.sh, t);
    case RunWork(t) =>
    case Publish(t) =>
    case CancelTest(id) => CancelMoves(s, id);
    case CancelPublish(l) =>
    case MoveDone(l) =>
    case CallDone(l) =>
  }

  // ---------- Every run ----------

  /** The requests of the first i actions that were submitted as slow, or as not slow, in
      the order of their submission. */
  function Submitted(actions: seq<Action>, slow: bool, i: nat): seq<Id>
    requires i <= |actions|
  {
    if i == 0 then []
    else
      var a := actions[i - 1];
      Submitted(actions, slow, i - 1) + if a.Submit? && a.kind.SlowIo? == slow then [a.id] else []
  }

  lemma {:induction false} SubmittedKnown(states: seq<State>, actions: seq<Action>, slow: bool, i: nat)
    requires Run(states, actions) && i < |states|
    ensures Distinct(Submitted(actions, slow, i))
    ensures forall x :: x in Submitted(actions, slow, i) ==> x in states[i].requests
  {
    if i > 0 {
      SubmittedKnown(states, actions, slow, i - 1);
      RequestsStay(states[i - 1], actions[i - 1]);
      hide Apply;
      var a := actions[i - 1];
      if a.Submit? && a.kind.SlowIo? == slow {
        DistinctSnoc(Submitted(actions, slow, i - 1), a.id);
      }
    }
  }

  lemma RequestsStay(s: State, a: Action)
    requires Enabled(s, a) && Distinct(s.sh.wq)
    ensures forall x :: x in s.requests ==> x in Apply(s, a).requests
    ensures a.Submit? ==> a.id in Apply(s, a).requests
  {
  }

  lemma MovesFollow(q: seq<Id>, q': seq<Id>, enters: bool, x: Id, h: seq<Id>, h': seq<Id>)
    requires Moves(q, q', enters, x) && Follows(q, h) && Distinct(q) && Distinct(h)
    requires h' == if enters then Without(h, x) + [x] else h
    ensures Follows(q', h')
  {
    if enters {
      EntryFollows(q, h, x);
    } else {
      hide Follows, Without;
      LeavingFollows(q, h, x);
      if q != [] {
        LeavingFollows(q, h, q[0]);
        assert [q[0]] + q[1..] == q;
        WithoutHead(q[0], q[1..]);
      }
    }
  }

  /** In every state of every run, the slow requests that wait are in the order of their
      submission, and so are the others in wq. */
  lemma {:induction false} QueuesFollowSubmits(states: seq<State>, actions: seq<Action>, i: nat)
    requires Run(states, actions) && i < |states|
    ensures Follows(states[i].sh.pending, Submitted(actions, true, i))
    ensures Follows(Items(states[i].sh.wq), Submitted(actions, false, i))
  {
    hide *;
    if i == 0 {
      NothingWaits(states, actions);
    } else {
      QueuesFollowSubmits(states, actions, i - 1);
      RunKeepsInv(states, actions, i - 1);
      OneMoreStep(states, actions, i);
      var s, a := states[i - 1], actions[i - 1];
      StepKeepsOrder(s, a);
      QueuesDistinct(s);
      SubmittedKnown(states, actions, true, i - 1);
      SubmittedKnown(states, actions, false, i - 1);
      QueueStepFollows(s, a, states[i], Submitted(actions, true, i - 1), Submitted(actions, false, i - 1));
    }
  }

  lemma NothingWaits(states: seq<State>, actions: seq<Action>)
    requires Run(states, actions)
    ensures |states| > 0
    ensures Follows(states[0].sh.pending, Submitted(actions, true, 0))
    ensures Follows(Items(states[0].sh.wq), Submitted(actions, false, 0))
  {
  }

  lemma OneMoreStep(states: seq<State>, actions: seq<Action>, i: nat)
    requires Run(states, actions) && 0 < i < |states|
    ensures |states| == |actions| + 1
    ensures var s, a := states[i - 1], actions[i - 1];
            && Distinct(s.sh.wq) && Enabled(s, a) && states[i] == Apply(s, a)
            && Submitted(actions, true, i) == Submitted(actions, true, i - 1) + (if SubmitsSlow(a) then [a.id] else [])
            && Submitted(actions, false, i) == Submitted(actions, false, i - 1) + (if SubmitsOther(a) then [a.id] else [])
            && (a.Submit? ==> a.id !in s.requests)
  {
    hide Apply;
    var s, a := states[i - 1], actions[i - 1];
    assert states[i] == Apply(s, a);
  }

  lemma QueuesDistinct(s: State)
    requires Inv(s)
    ensures Distinct(s.sh.pending) && Distinct(Items(s.sh.wq))
  {
    assert QueuesOk(s);
    ItemsDistinct(s.sh.wq);
  }

  lemma QueueStepFollows(s: State, a: Action, s': State, slow: seq<Id>, other: seq<Id>)
    requires StepMoves(s, a, s') && Distinct(s.sh.pending) && Distinct(Items(s.sh.wq))
    requires Distinct(slow) && Distinct(other) && Follows(s.sh.pending, slow) && Follows(Items(s.sh.wq), other)
    requires a.Submit? ==> a.id !in slow && a.id !in other
    ensures Follows(s'.sh.pending, slow + if SubmitsSlow(a) then [a.id] else [])
    ensures Follows(Items(s'.sh.wq), other + if SubmitsOther(a) then [a.id] else [])
  {
    hide Moves, Follows, Items, Distinct, Without;
    if a.Submit? {
      WithoutAbsent(slow, a.id);
      WithoutAbsent(other, a.id);
    }
    MovesFollow(s.sh.pending, s'.sh.pending, SubmitsSlow(a), Subject(a), slow, slow + if SubmitsSlow(a) then [a.id] else []);
    MovesFollow(Items(s.sh.wq), Items(s'.sh.wq), SubmitsOther(a), Subject(a), other,
                other + if SubmitsOther(a) then [a.id] else []);
  }

  lemma {:induction false} SubmittedAppends(actions: seq<Action>, slow: bool, i: nat, j: nat, x: Id, y: Id)
    requires i <= j <= |actions| && Before(Submitted(actions, slow, i), x, y)
    ensures Before(Submitted(actions, slow, j), x, y)
    decreases j
  {
    if i < j {
      SubmittedAppends(actions, slow, i, j - 1, x, y);
      var a := actions[j - 1];
      AppendBefore(Submitted(actions, slow, j - 1), if a.Submit? && a.kind.SlowIo? == slow then [a.id] else [], x, y);
    }
  }

  lemma {:induction false} SubmittedIsThere(actions: seq<Action>, slow: bool, a: nat, b: nat)
    requires a < b <= |actions| && actions[a].Submit? && actions[a].kind.SlowIo? == slow
    ensures actions[a].id in Submitted(actions, slow, b)
    decreases b
  {
    if a + 1 < b {
      SubmittedIsThere(actions, slow, a, b - 1);
    }
  }

  lemma EarlierIsBefore(states: seq<State>, actions: seq<Action>, slow: bool, a: nat, b: nat, i: nat)
    requires Run(states, actions) && a < b < i <= |actions| && actions[a].Submit? && actions[b].Submit?
    requires actions[a].kind.SlowIo? == slow == actions[b].kind.SlowIo?
    ensures Before(Submitted(actions, slow, i), actions[a].id, actions[b].id)
  {
    SubmittedKnown(states, actions, slow, b);
    SubmittedIsThere(actions, slow, a, b);
    SnocBefore(Submitted(actions, slow, b), actions[a].id, actions[b].id);
    SubmittedAppends(actions, slow, b, i, actions[a].id, actions[b].id);
  }

  /** The request leaves its queue for a worker. */
  ghost predicate TakenAt(s: State, s': State, id: Id) {
    && id in s.requests && (s.requests[id].place.InPending? || s.requests[id].place.InWq?)
    && id in s'.requests && s'.requests[id].place.AtWorker?
  }

  /** A request that is taken was the head of its queue. */
  lemma TakenIsHead(s: State, a: Action, y: Id)
    requires Inv(s) && Enabled(s, a) && TakenAt(s, Apply(s, a), y)
    ensures s.requests[y].place.InPending? ==> s.sh.pending != [] && s.sh.pending[0] == y
    ensures s.requests[y].place.InWq? ==> Items(s.sh.wq) != [] && Items(s.sh.wq)[0] == y
  {
    OnlySectionsTake(s, a, y);
    var sh := Entering(s, a.t);
    var o := Decide(s.n, sh, a.t, a.pick).1;
    DecideTakesHeads(s.n, sh, a.t, a.pick);
    ItemsWithin(s.sh.wq, y);
    assert Found(s, InWq, y) <==> Placed(s, InWq, y);
    assert Found(s, InPending, y) <==> Placed(s, InPending, y);
    hide Decide, Items, Inv;
    assert sh.wq == s.sh.wq && sh.pending == s.sh.pending;
  }

  lemma OnlySectionsTake(s: State, a: Action, y: Id)
    requires Inv(s) && Enabled(s, a) && TakenAt(s, Apply(s, a), y)
    ensures a.Section? && a.t < |s.pcs|
    ensures var o := Decide(s.n, Entering(s, a.t), a.t, a.pick).1; o.Execute? && o.id == y
  {
    hide Decide, Post;
  }

  lemma {:induction false} KindStays(states: seq<State>, actions: seq<Action>, a: nat, i: nat)
    requires Run(states, actions) && a < i <= |actions| && actions[a].Submit?
    ensures actions[a].id in states[i].requests && states[i].requests[actions[a].id].kind == actions[a].kind
    decreases i
  {
    var s := states[i - 1];
    assert states[i] == Apply(s, actions[i - 1]);
    hide Decide, Post;
    if a < i - 1 {
      KindStays(states, actions, a, i - 1);
    }
  }

  /** First in, first out: of two requests that are both slow, or both not, no step gives
      the one submitted later to a worker while the one submitted earlier waits. */
  lemma FirstInFirstOut(states: seq<State>, actions: seq<Action>, a: nat, b: nat, i: nat)
    requires Run(states, actions) && a < b < i < |actions| && actions[a].Submit? && actions[b].Submit?
    requires actions[a].kind.SlowIo? == actions[b].kind.SlowIo?
    requires var x := actions[a].id;
             x in states[i].requests && (states[i].requests[x].place.InPending? || states[i].requests[x].place.InWq?)
    ensures !TakenAt(states[i], states[i + 1], actions[b].id)
  {
    var slow, x, y, s := actions[a].kind.SlowIo?, actions[a].id, actions[b].id, states[i];
    RunKeepsInv(states, actions, i);
    EarlierIsBefore(states, actions, slow, a, b, i);
    QueuesFollowSubmits(states, actions, i);
    KindStays(states, actions, a, i);
    KindStays(states, actions, b, i);
    assert RequestOk(s, x) && RequestOk(s, y);
    assert Found(s, s.requests[x].place, x);
    ItemsWithin(s.sh.wq, x);
    assert states[i + 1] == Apply(s, actions[i]);
    hide Apply, Before, Left;
    HeadIsEarlier(Submitted(actions, slow, i), if slow then s.sh.pending else Items(s.sh.wq), x, y);
    if TakenAt(s, states[i + 1], y) {
      TakenIsHead(s, actions[i], y);
    }
  }

  // ---------- Done calls ----------

  /** The finished requests that a loop still has to call back: those on the list of its
      running uv__work_done and those in its queue. */
  function Back(s: State, l: LoopId): seq<Id> {
    if l in s.loops then s.loops[l].moved + s.loops[l].wq else []
  }

  /** The request that comes back to the loop at this step, if any. */
  function Comes(s: State, a: Action, l: LoopId): Option<Id>
    requires Enabled(s, a)
  {
    match a
    case Publish(t) => if s.requests[s.pcs[t].id].loop == l then Some(s.pcs[t].id) else None
    case CancelPublish(m) => if m == l then s.loops[l].cancelling else None
    case _ => None
  }

  /** The requests that came back to the loop in the first i steps, in that order; one that
      came back, was cancelled and came back again counts from the last time. */
  ghost function Returned(states: seq<State>, actions: seq<Action>, l: LoopId, i: nat): seq<Id>
    requires Run(states, actions) && i <= |actions|
  {
    if i == 0 then []
    else
      var h := Returned(states, actions, l, i - 1);
      match Comes(states[i - 1], actions[i - 1], l)
      case None => h
      case Some(x) => Without(h, x) + [x]
  }

  ghost predicate BackMoves(s: State, a: Action, l: LoopId, s': State)
    requires Enabled(s, a)
  {
    var x := Comes(s, a, l);
    Moves(Back(s, l), Back(s', l), x.Some?, if x.Some? then x.value else Subject(a))
  }

  lemma BackDistinct(s: State, l: LoopId)
    requires Inv(s)
    ensures Distinct(Back(s, l))
  {
    if l in s.loops {
      assert LoopOk(s.loops[l]);
      forall x | x in s.loops[l].moved ensures x !in s.loops[l].wq {
        NotTwice(s, l, x);
      }
      DistinctParts(s.loops[l].moved, s.loops[l].wq);
    }
  }

  lemma DistinctParts(a: seq<Id>, b: seq<Id>)
    requires Distinct(a) && Distinct(b) && forall x :: x in a ==> x !in b
    ensures Distinct(a + b)
  {
    forall i, j | 0 <= i < j < |a + b| ensures (a + b)[i] != (a + b)[j] {
      if i < |a| <= j {
        assert (a + b)[i] in a && (a + b)[j] in b;
      }
    }
  }

  lemma NotTwice(s: State, l: LoopId, x: Id)
    requires Inv(s) && l in s.loops
    ensures !(x in s.loops[l].moved && x in s.loops[l].wq)
  {
    assert Found(s, InMoved(l), x) <==> Placed(s, InMoved(l), x);
    assert Found(s, InLoopWq(l), x) <==> Placed(s, InLoopWq(l), x);
  }

  /** What comes back was held by a worker or a canceller, not by the loop. */
  lemma ComesFresh(s: State, a: Action, l: LoopId, x: Id)
    requires Inv(s) && Enabled(s, a) && Comes(s, a, l) == Some(x)
    ensures l in s.loops && x !in Back(s, l)
    ensures x in s.requests && (s.requests[x].place.AtWorker? || s.requests[x].place.AtCanceller?)
  {
    if a.Publish? {
      assert Found(s, AtWorker(a.t), x);
      assert Placed(s, AtWorker(a.t), x);
    } else {
      assert Found(s, AtCanceller(l), x);
      assert Placed(s, AtCanceller(l), x);
    }
    assert !Found(s, InMoved(l), x) && !Found(s, InLoopWq(l), x);
  }

  lemma {:induction false} WithoutParts(a: seq<Id>, b: seq<Id>, x: Id)
    requires !(x in a && x in b)
    ensures Without(a, x) + Without(b, x) == Without(a + b, x)
  {
    if a == [] {
      assert a + b == b;
    } else {
      assert (a + b)[1..] == a[1..] + b;
      if a[0] == x {
        WithoutAbsent(b, x);
      } else {
        WithoutParts(a[1..], b, x);
      }
    }
  }

  lemma CancelBack(s: State, id: Id, l: LoopId)
    requires Inv(s) && Enabled(s, CancelTest(id))
    ensures BackMoves(s, CancelTest(id), l, ApplyCancelTest(s, id))
  {
    if l in s.loops {
      NotTwice(s, l, id);
      WithoutParts(s.loops[l].moved, s.loops[l].wq, id);
    }
  }

  lemma ComingBack(s: State, a: Action, l: LoopId)
    requires Inv(s) && Enabled(s, a) && (a.Publish? || a.CancelPublish?)
    ensures BackMoves(s, a, l, Apply(s, a))
  {
    if Comes(s, a, l).Some? {
      ComesFresh(s, a, l, Comes(s, a, l).value);
    }
  }

  lemma StepKeepsBack(s: State, a: Action, l: LoopId)
    requires Inv(s) && Enabled(s, a)
    ensures BackMoves(s, a, l, Apply(s, a))
  {
    match a
    case Publish(t) => ComingBack(s, a, l);
    case CancelPublish(m) => ComingBack(s, a, l);
    case CancelTest(id) => CancelBack(s, id, l);
    case MoveDone(m) => DoneBack(s, a, l);
    case CallDone(m) => DoneBack(s, a, l);
    case Section(t, pick) =>
    case Submit(_, _, _, _) => hide Post;
    case _ =>
  }

  lemma DoneBack(s: State, a: Action, l: LoopId)
    requires Inv(s) && Enabled(s, a) && (a.MoveDone? || a.CallDone?)
    ensures BackMoves(s, a, l, Apply(s, a))
  {
    if l == a.loop && a.CallDone? {
      assert (s.loops[l].moved + s.loops[l].wq)[1..] == s.loops[l].moved[1..] + s.loops[l].wq;
    }
  }

  lemma {:induction false} ReturnedDistinct(states: seq<State>, actions: seq<Action>, l: LoopId, i: nat)
    requires Run(states, actions) && i <= |actions|
    ensures Distinct(Returned(states, actions, l, i))
  {
    if i > 0 {
      ReturnedDistinct(states, actions, l, i - 1);
      var h, x := Returned(states, actions, l, i - 1), Comes(states[i - 1], actions[i - 1], l);
      if x.Some? {
        WithoutExact(h, x.value);
        DistinctSnoc(Without(h, x.value), x.value);
      }
    }
  }

  /** The history after one more step. */
  lemma OneMoreReturned(states: seq<State>, actions: seq<Action>, l: LoopId, i: nat)
    requires Run(states, actions) && 0 < i < |states|
    ensures |states| == |actions| + 1 && Enabled(states[i - 1], actions[i - 1]) && Inv(states[i - 1])
    ensures Distinct(states[i - 1].sh.wq) && states[i] == Apply(states[i - 1], actions[i - 1])
    ensures Distinct(Returned(states, actions, l, i - 1))
    ensures var h, z := Returned(states, actions, l, i - 1), Comes(states[i - 1], actions[i - 1], l);
            Returned(states, actions, l, i) == if z.Some? then Without(h, z.value) + [z.value] else h
  {
    RunKeepsInv(states, actions, i - 1);
    ReturnedDistinct(states, actions, l, i - 1);
    assert states[i] == Apply(states[i - 1], actions[i - 1]);
    hide Inv, Apply, Comes, Enabled, Distinct, Without;
  }

  /** In every state of every run, what a loop still has to call back is in the order in
      which it came back. */
  lemma {:induction false} BackFollowsReturns(states: seq<State>, actions: seq<Action>, l: LoopId, i: nat)
    requires Run(states, actions) && i < |states|
    ensures Follows(Back(states[i], l), Returned(states, actions, l, i))
  {
    hide *;
    if i == 0 {
      NothingBack(states, actions, l);
    } else {
      BackFollowsReturns(states, actions, l, i - 1);
      OneMoreReturned(states, actions, l, i);
      var s, a := states[i - 1], actions[i - 1];
      StepKeepsBack(s, a, l);
      BackDistinct(s, l);
      BackStepFollows(s, a, l, states[i], Returned(states, actions, l, i - 1), Returned(states, actions, l, i));
    }
  }

  lemma NothingBack(states: seq<State>, actions: seq<Action>, l: LoopId)
    requires Run(states, actions)
    ensures |states| > 0 && Follows(Back(states[0], l), Returned(states, actions, l, 0))
  {
  }

  lemma BackStepFollows(s: State, a: Action, l: LoopId, s': State, h: seq<Id>, h': seq<Id>)
    requires Enabled(s, a) && BackMoves(s, a, l, s') && Distinct(Back(s, l)) && Distinct(h) && Follows(Back(s, l), h)
    requires var x := Comes(s, a, l); h' == if x.Some? then Without(h, x.value) + [x.value] else h
    ensures Follows(Back(s', l), h')
  {
    hide Enabled, Moves, Follows, Back, Distinct, Comes, Without;
    var x := Comes(s, a, l);
    MovesFollow(Back(s, l), Back(s', l), x.Some?, if x.Some? then x.value else Subject(a), h, h');
  }

  /** The request waits for its done call. */
  predicate Waits(s: State, l: LoopId, x: Id) {
    x in s.requests && (s.requests[x].place == InLoopWq(l) || s.requests[x].place == InMoved(l))
  }

  lemma {:induction false} ReturnedIsThere(states: seq<State>, actions: seq<Action>, l: LoopId, a: nat, x: Id, i: nat)
    requires Run(states, actions) && a < i < |states| && Comes(states[a], actions[a], l) == Some(x)
    ensures x in Returned(states, actions, l, i)
    decreases i
  {
    hide *;
    OneMoreReturned(states, actions, l, i);
    if a < i - 1 {
      ReturnedIsThere(states, actions, l, a, x, i - 1);
      var z := Comes(states[i - 1], actions[i - 1], l);
      if z.Some? {
        WithoutExact(Returned(states, actions, l, i - 1), z.value);
      }
    }
  }

  lemma WaitsAtLoop(s: State, l: LoopId, x: Id, z: Id)
    requires Waits(s, l, x) && z in s.requests && (s.requests[z].place.AtWorker? || s.requests[z].place.AtCanceller?)
    ensures x != z
  {
  }

  /** While both wait, the one that came back first stays before the other. */
  lemma {:induction false} ReturnedStays(states: seq<State>, actions: seq<Action>, l: LoopId, a: nat, b: nat, i: nat,
                                         x: Id, y: Id)
    requires Run(states, actions) && a < b < i < |states|
    requires Comes(states[a], actions[a], l) == Some(x) && Comes(states[b], actions[b], l) == Some(y)
    requires forall k :: a < k < i ==> Waits(states[k], l, x)
    requires forall k :: b < k < i ==> Waits(states[k], l, y)
    ensures Before(Returned(states, actions, l, i), x, y)
    decreases i
  {
    hide *;
    OneMoreReturned(states, actions, l, i);
    var h, z := Returned(states, actions, l, i - 1), Comes(states[i - 1], actions[i - 1], l);
    if z.Some? {
      ComesFresh(states[i - 1], actions[i - 1], l, z.value);
      WaitsAtLoop(states[i - 1], l, x, z.value);
    }
    if b == i - 1 {
      ReturnedIsThere(states, actions, l, a, x, b);
      WithoutExact(h, y);
      SnocBefore(Without(h, y), x, y);
      AppendBefore(Without(h, y), [y], x, y);
    } else {
      ReturnedStays(states, actions, l, a, b, i - 1, x, y);
      if z.Some? {
        WithoutBefore(h, z.value, x, y);
        AppendBefore(Without(h, z.value), [z.value], x, y);
      }
    }
  }

  /** Done calls are made in the order in which requests came back: while the one that came
      back earlier waits, the other gets none. */
  lemma DoneInOrder(states: seq<State>, actions: seq<Action>, l: LoopId, a: nat, b: nat, i: nat, x: Id, y: Id)
    requires Run(states, actions) && a < b < i < |actions|
    requires Comes(states[a], actions[a], l) == Some(x) && Comes(states[b], actions[b], l) == Some(y)
    requires forall k :: a < k <= i ==> Waits(states[k], l, x)
    requires forall k :: b < k <= i ==> Waits(states[k], l, y)
    ensures !FinishesIt(states[i], actions[i], y)
  {
    var s := states[i];
    RunKeepsInv(states, actions, i);
    ReturnedStays(states, actions, l, a, b, i, x, y);
    BackFollowsReturns(states, actions, l, i);
    WaitsInBack(s, l, x);
    WaitsInBack(s, l, y);
    hide Before, Left;
    HeadIsEarlier(Returned(states, actions, l, i), Back(s, l), x, y);
    if FinishesIt(s, actions[i], y) {
      FinishesHead(s, actions[i], l, y);
    }
  }

  lemma WaitsInBack(s: State, l: LoopId, x: Id)
    requires Inv(s) && Waits(s, l, x)
    ensures l in s.loops && x in Back(s, l)
  {
    assert Found(s, s.requests[x].place, x) <==> Placed(s, s.requests[x].place, x);
  }

  lemma FinishesHead(s: State, a: Action, l: LoopId, y: Id)
    requires Inv(s) && Waits(s, l, y) && FinishesIt(s, a, y)
    ensures Back(s, l) != [] && Back(s, l)[0] == y
  {
    assert Found(s, InMoved(a.loop), y) <==> Placed(s, InMoved(a.loop), y);
  }
}
