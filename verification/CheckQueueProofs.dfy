/** What every interleaving of the check queue's critical sections keeps, and what follows for
    the thread that waits. */
module CheckQueueProofs {
  import opened CheckQueues

  /** Each check that was added is queued, in somebody's hands, or done. */
  ghost predicate Conserved<T>(s: System<T>)
  {
    s.added == multiset(s.shared.queue) + multiset(InFlight(s.threads)) + s.done
  }

  /** The counters are right, and the flag tells whether something that is done has failed. */
  ghost predicate Counted<T(!new)>(c: Config<T>, s: System<T>)
  {
    && |s.threads| > 0 && Counts(s)
    && s.shared.nTodo == |s.shared.queue| + |InFlight(s.threads)|
    && (forall t :: 0 <= t < |s.threads| ==> ThreadOk(s.threads[t], s.shared.fAllOk))
    && (s.shared.fAllOk <==> forall x :: x in s.done ==> c.verify(x))
    && (IsWaiting(s.threads[0]) ==> s.shared.queue == [])
    && (s.threads[0].Blocked? ==> s.shared.nTodo > 0)
  }

  ghost predicate Inv<T(!new)>(c: Config<T>, s: System<T>)
  {
    Conserved(s) && Counted(c, s)
  }

  predicate ThreadOk<T>(th: Thread<T>, fAllOk: bool)
  {
    th.Working? ==> th.batch != [] && (!th.fOk ==> !fAllOk)
  }

  // ---------- one thread changes ----------

  lemma {:induction false} CountsChanged<T>(threads: seq<Thread<T>>, t: nat, x: Thread<T>)
    requires t < |threads|
    ensures Started(threads[t := x]) == Started(threads) - (if threads[t].Outside? then 0 else 1) + if x.Outside? then 0
        else 1
    ensures Waiting(threads[t := x]) == Waiting(threads) - (if IsWaiting(threads[t]) then 1 else 0) + if IsWaiting(x)
        then 1 else 0
    decreases |threads|
  {
    var last := |threads| - 1;
    var changed := threads[t := x];
    if t < last {
      CountsChanged(threads[..last], t, x);
      assert changed[..last] == threads[..last][t := x];
    } else {
      assert changed[..last] == threads[..last];
    }
  }

  lemma FlightLast<T>(threads: seq<Thread<T>>)
    requires threads != []
    ensures InFlight(threads) == InFlight(threads[..|threads| - 1]) + Batch(threads[|threads| - 1])
  {
  }

  lemma NoneInFlight<T>(threads: seq<Thread<T>>)
    requires threads == []
    ensures InFlight(threads) == []
  {
  }

  lemma Joined<T>(a: seq<T>, b: seq<T>, c: seq<T>)
    ensures a + (b + c) == (a + b) + c
  {
  }

  lemma {:induction false} FlightSplit<T>(a: seq<Thread<T>>, b: seq<Thread<T>>)
    ensures InFlight(a + b) == InFlight(a) + InFlight(b)
    decreases |b|
  {
    hide InFlight, Batch;
    if b == [] {
      assert a + b == a;
      NoneInFlight(b);
    } else {
      var last := |b| - 1;
      FlightSplit(a, b[..last]);
      assert (a + b)[..|a + b| - 1] == a + b[..last] && (a + b)[|a + b| - 1] == b[last];
      FlightLast(a + b);
      FlightLast(b);
      Joined(InFlight(a), InFlight(b[..last]), Batch(b[last]));
    }
  }

  lemma FlightAround<T>(threads: seq<Thread<T>>, t: nat, x: Thread<T>)
    requires t < |threads|
    ensures InFlight(threads[t := x]) == InFlight(threads[..t]) + (Batch(x) + InFlight(threads[t + 1..]))
  {
    hide InFlight, Batch;
    FlightOne(x);
    FlightSplit([x], threads[t + 1..]);
    FlightSplit(threads[..t], [x] + threads[t + 1..]);
    assert threads[t := x] == threads[..t] + ([x] + threads[t + 1..]);
  }

  lemma FlightOne<T>(x: Thread<T>)
    ensures InFlight([x]) == Batch(x)
  {
    assert [x][..0] == [];
    assert [] + Batch(x) == Batch(x);
  }

  lemma FlightChanged<T>(threads: seq<Thread<T>>, t: nat, x: Thread<T>)
    requires t < |threads|
    ensures multiset(InFlight(threads[t := x])) + multiset(Batch(threads[t]))
        == multiset(InFlight(threads)) + multiset(Batch(x))
    ensures |InFlight(threads[t := x])| + |Batch(threads[t])| == |InFlight(threads)| + |Batch(x)|
  {
    hide InFlight, Batch;
    FlightAround(threads, t, x);
    FlightAround(threads, t, threads[t]);
    assert threads[t := threads[t]] == threads;
  }

  lemma FlightSizeChanged<T>(threads: seq<Thread<T>>, t: nat, x: Thread<T>)
    requires t < |threads|
    ensures |InFlight(threads[t := x])| + |Batch(threads[t])| == |InFlight(threads)| + |Batch(x)|
  {
    FlightChanged(threads, t, x);
  }

  /** Waking a thread changes what none of the counters and bags see. */
  lemma {:induction false} Woken<T>(threads: seq<Thread<T>>, next: seq<Thread<T>>)
    requires |next| == |threads|
    requires forall i :: 0 <= i < |threads| ==> next[i] == threads[i] || (threads[i].Blocked? && next[i].Notified?)
    ensures InFlight(next) == InFlight(threads) && Started(next) == Started(threads)
        && Waiting(next) == Waiting(threads)
    decreases |threads|
  {
    if threads != [] {
      var last := |threads| - 1;
      Woken(threads[..last], next[..last]);
    }
  }

  lemma {:induction false} TakenBag<T>(queue: seq<T>, n: nat)
    requires n <= |queue|
    ensures multiset(queue) == multiset(queue[..|queue| - n]) + multiset(Taken(queue, n))
    decreases n
  {
    if n == 0 {
      assert queue[..|queue|] == queue;
    } else {
      var rest, x := queue[..|queue| - 1], queue[|queue| - 1];
      hide Taken;
      TakenBag(rest, n - 1);
      assert rest[..|rest| - (n - 1)] == queue[..|queue| - n];
      TakenOne(queue, n);
      OneMore(multiset(queue), multiset(rest), x, multiset(queue[..|queue| - n]), multiset(Taken(rest, n - 1)),
              multiset(Taken(queue, n)));
    }
  }

  lemma OneMore<T>(queue: multiset<T>, rest: multiset<T>, x: T, left: multiset<T>, some: multiset<T>,
      taken: multiset<T>)
    requires queue == rest + multiset{x} && rest == left + some && taken == multiset{x} + some
    ensures queue == left + taken
  {
  }

  lemma TakenOne<T>(queue: seq<T>, n: nat)
    requires 1 <= n <= |queue|
    ensures var rest, x := queue[..|queue| - 1], queue[|queue| - 1];
            && multiset(queue) == multiset(rest) + multiset{x}
            && multiset(Taken(queue, n)) == multiset{x} + multiset(Taken(rest, n - 1))
  {
    assert queue == queue[..|queue| - 1] + [queue[|queue| - 1]];
  }

  function ThreadFor<T>(outcome: Outcome<T>): Thread<T>
  {
    match outcome
    case Left(_) => Outside
    case Waits => Blocked
    case Works(batch, fOk) => Working(batch, fOk)
  }

  lemma AfterBags<T>(threads: seq<Thread<T>>, t: nat, outcome: Outcome<T>, notifyMaster: bool)
    requires t < |threads|
    ensures var next := After(threads, t, outcome, notifyMaster);
            && |next| == |threads|
            && InFlight(next) == InFlight(threads[t := ThreadFor(outcome)])
            && Started(next) == Started(threads[t := ThreadFor(outcome)])
            && Waiting(next) == Waiting(threads[t := ThreadFor(outcome)])
            && (forall i :: 0 <= i < |next| ==>
                  next[i] == threads[t := ThreadFor(outcome)][i]
                  || (i == 0 && notifyMaster && threads[t := ThreadFor(outcome)][0].Blocked? && next[0].Notified?))
            && (notifyMaster ==> !next[0].Blocked?)
  {
    Woken(threads[t := ThreadFor(outcome)], After(threads, t, outcome, notifyMaster));
  }

  // ---------- the middle of a critical section ----------

  lemma Cancel<T>(added: multiset<T>, batch: multiset<T>, queue: multiset<T>, flight: multiset<T>, done: multiset<T>,
      next: multiset<T>)
    requires added + batch == queue + flight + done && next + batch == flight + multiset{}
    ensures added == queue + next + done
  {
    Moved(added, batch, queue, flight, done, next, queue, multiset{});
  }

  /** A thread gave back one batch and took another from the queue. */
  lemma Moved<T>(added: multiset<T>, batch: multiset<T>, queue: multiset<T>, flight: multiset<T>, done: multiset<T>,
                 next: multiset<T>, rest: multiset<T>, taken: multiset<T>)
    requires added + batch == queue + flight + done && queue == rest + taken && next + batch == flight + taken
    ensures added == rest + next + done
  {
    forall x
      ensures added[x] == (rest + next + done)[x]
    {
      assert (added + batch)[x] == (queue + flight + done)[x] && (next + batch)[x] == (flight + taken)[x];
      assert queue[x] == (rest + taken)[x];
    }
  }

  /** Nothing is lost when thread t has the mutex and has given back its batch. */
  ghost predicate MidConserved<T>(s: System<T>, t: nat, entered: Shared<T>, done: multiset<T>)
  {
    && t < |s.threads|
    && s.added + multiset(Batch(s.threads[t])) == multiset(entered.queue) + multiset(InFlight(s.threads)) + done
  }

  /** What else holds when thread t has the mutex and is about to look at the queue. */
  ghost predicate Mid<T(!new)>(c: Config<T>, s: System<T>, t: nat, entered: Shared<T>, notifyMaster: bool,
      done: multiset<T>)
  {
    && t < |s.threads|
    && entered.nTotal == Started(s.threads) + (if s.threads[t].Outside? then 1 else 0)
    && entered.nIdle == Waiting(s.threads) - (if IsWaiting(s.threads[t]) then 1 else 0)
    && entered.nTodo == |entered.queue| + |InFlight(s.threads)| - |Batch(s.threads[t])|
    && (forall i :: 0 <= i < |s.threads| && i != t ==> ThreadOk(s.threads[i], entered.fAllOk))
    && (entered.fAllOk <==> forall x :: x in done ==> c.verify(x))
    && (t != 0 && IsWaiting(s.threads[0]) ==> entered.queue == [])
    && (t != 0 && s.threads[0].Blocked? && !notifyMaster ==> entered.nTodo > 0)
    && (t == 0 ==> !notifyMaster)
  }

  lemma ConservedAfter<T(!new)>(c: Config<T>, s: System<T>, t: nat, entered: Shared<T>, notifyMaster: bool,
      done: multiset<T>)
    requires MidConserved(s, t, entered, done) && Mid(c, s, t, entered, notifyMaster, done)
    requires entered.nTotal + entered.nIdle + 1 > 0
    ensures Conserved(Continue(c, s, t, entered, notifyMaster, done))
  {
    hide Taken, InFlight, Started, Waiting, BatchSize, After, ThreadOk, IsWaiting;
    var (shared, outcome) := Top(entered, t == 0, c.fQuit, c.nBatchSize);
    var next := After(s.threads, t, outcome, notifyMaster);
    var before, flight := multiset(Batch(s.threads[t])), multiset(InFlight(s.threads));
    FlightChanged(s.threads, t, ThreadFor(outcome));
    AfterBags(s.threads, t, outcome, notifyMaster);
    if outcome.Works? {
      TakenBag(entered.queue, |outcome.batch|);
      Moved(s.added, before, multiset(entered.queue), flight, done, multiset(InFlight(next)), multiset(shared.queue),
            multiset(outcome.batch));
    } else {
      Cancel(s.added, before, multiset(entered.queue), flight, done, multiset(InFlight(next)));
    }
    if outcome.Left? {
      assert |InFlight(next)| == 0;
      assert InFlight(next) == [];
    }
  }

  lemma CountedAfter<T(!new)>(c: Config<T>, s: System<T>, t: nat, entered: Shared<T>, notifyMaster: bool,
      done: multiset<T>)
    requires Mid(c, s, t, entered, notifyMaster, done) && entered.nTotal + entered.nIdle + 1 > 0
    ensures Counted(c, Continue(c, s, t, entered, notifyMaster, done))
  {
    hide Taken, InFlight, Started, Waiting, BatchSize, After;
    var (shared, outcome) := Top(entered, t == 0, c.fQuit, c.nBatchSize);
    var next := After(s.threads, t, outcome, notifyMaster);
    CountsChanged(s.threads, t, ThreadFor(outcome));
    FlightSizeChanged(s.threads, t, ThreadFor(outcome));
    AfterBags(s.threads, t, outcome, notifyMaster);
    if outcome.Left? {
      EmptyFlight(next);
      assert forall i :: 0 <= i < |next| && next[i].Working? ==> Batch(next[i]) == next[i].batch;
    }
  }

  lemma MidInv<T(!new)>(c: Config<T>, s: System<T>, t: nat, entered: Shared<T>, notifyMaster: bool, done: multiset<T>)
    requires MidConserved(s, t, entered, done) && Mid(c, s, t, entered, notifyMaster, done)
    requires entered.nTotal + entered.nIdle + 1 > 0
    ensures Inv(c, Continue(c, s, t, entered, notifyMaster, done))
  {
    hide MidConserved, Mid, Conserved, Counted, Continue;
    ConservedAfter(c, s, t, entered, notifyMaster, done);
    CountedAfter(c, s, t, entered, notifyMaster, done);
  }

  /** Nothing in anybody's hands. */
  lemma {:induction false} EmptyFlight<T>(threads: seq<Thread<T>>)
    ensures |InFlight(threads)| == 0 ==> forall i :: 0 <= i < |threads| ==> Batch(threads[i]) == []
    decreases |threads|
  {
    if threads != [] {
      EmptyFlight(threads[..|threads| - 1]);
    }
  }

  // ---------- events ----------

  lemma EnteredMid<T(!new)>(c: Config<T>, s: System<T>, e: Event<T>)
    requires Inv(c, s) && Enabled(s, e) && !e.AddChecks?
    ensures Entered(c, s, e).nTotal + Entered(c, s, e).nIdle + 1 > 0
    ensures var entered := Entered(c, s, e);
            match e
            case BeginLoop(t) => Mid(c, s, t, entered, false, s.done) && MidConserved(s, t, entered, s.done)
            case FinishBatch(t) =>
              var done := s.done + multiset(s.threads[t].batch);
              Mid(c, s, t, entered, entered.nTodo == 0 && t != 0, done) && MidConserved(s, t, entered, done)
            case WakeUp(t) => Mid(c, s, t, entered, false, s.done) && MidConserved(s, t, entered, s.done)
  {
    hide InFlight, Started, Waiting;
    if e.WakeUp? {
      SomeWaiting(s.threads, e.t);
    }
    if e.FinishBatch? {
      FlightChanged(s.threads, e.t, Outside);
      Regroup(s.added, multiset(s.shared.queue), multiset(InFlight(s.threads)), s.done, multiset(s.threads[e.t].batch));
      BatchDone(c, s.threads[e.t].batch, s.threads[e.t].fOk, s.shared.fAllOk, s.done);
    }
  }

  lemma Regroup<T>(added: multiset<T>, queue: multiset<T>, flight: multiset<T>, done: multiset<T>, batch: multiset<T>)
    requires added == queue + flight + done
    ensures added + batch == queue + flight + (done + batch)
  {
  }

  /** The flag after a batch tells about what was done before and the batch. */
  lemma BatchDone<T(!new)>(c: Config<T>, batch: seq<T>, fOk: bool, fAllOk: bool, done: multiset<T>)
    requires (fAllOk <==> forall x :: x in done ==> c.verify(x)) && (!fOk ==> !fAllOk)
    ensures (fAllOk && BatchOk(c.verify, batch, fOk)) <==> forall x :: x in done + multiset(batch) ==> c.verify(x)
  {
    assert forall i :: 0 <= i < |batch| ==> batch[i] in multiset(batch);
  }

  lemma AddInv<T(!new)>(c: Config<T>, s: System<T>, checks: seq<T>, woken: set<nat>)
    requires Inv(c, s) && Enabled(s, AddChecks(checks, woken))
    ensures Inv(c, Step(c, s, AddChecks(checks, woken)))
  {
    hide InFlight, Started, Waiting, Conserved;
    Woken(s.threads, Wake(s.threads, woken));
    AddConserves(c, s, checks, woken);
  }

  lemma AddConserves<T(!new)>(c: Config<T>, s: System<T>, checks: seq<T>, woken: set<nat>)
    requires Conserved(s) && Counts(s) && Enabled(s, AddChecks(checks, woken))
    ensures Conserved(Step(c, s, AddChecks(checks, woken)))
  {
    hide InFlight, Started, Waiting;
    Woken(s.threads, Wake(s.threads, woken));
    assert multiset(s.shared.queue + checks) == multiset(s.shared.queue) + multiset(checks);
  }

  /** Every critical section of every thread keeps the invariant. */
  lemma StepInv<T(!new)>(c: Config<T>, s: System<T>, e: Event<T>)
    requires Inv(c, s) && Enabled(s, e)
    ensures Inv(c, Step(c, s, e))
  {
    hide Inv, Mid, MidConserved, InFlight, Started, Waiting;
    match e
    case AddChecks(checks, woken) => AddInv(c, s, checks, woken);
    case BeginLoop(t) =>
      EnteredMid(c, s, e);
      MidInv(c, s, t, Entered(c, s, e), false, s.done);
    case FinishBatch(t) =>
      EnteredMid(c, s, e);
      var entered := Entered(c, s, e);
      MidInv(c, s, t, entered, entered.nTodo == 0 && t != 0, s.done + multiset(s.threads[t].batch));
    case WakeUp(t) =>
      EnteredMid(c, s, e);
      MidInv(c, s, t, Entered(c, s, e), false, s.done);
  }

  // ---------- runs ----------

  /** A queue nobody has touched yet. */
  ghost predicate Initial<T>(s: System<T>)
  {
    && |s.threads| > 0 && s.shared == Shared([], 0, 0, true, 0) && s.added == multiset{} && s.done == multiset{}
    && forall i :: 0 <= i < |s.threads| ==> s.threads[i].Outside?
  }

  lemma {:induction false} NobodyStarted<T>(threads: seq<Thread<T>>)
    requires forall i :: 0 <= i < |threads| ==> threads[i].Outside?
    ensures InFlight(threads) == [] && Started(threads) == 0 && Waiting(threads) == 0
    decreases |threads|
  {
    if threads != [] {
      NobodyStarted(threads[..|threads| - 1]);
    }
  }

  /** A run: states and the events between them, in any order the threads take the mutex. */
  ghost predicate Run<T(!new)>(c: Config<T>, states: seq<System<T>>, events: seq<Event<T>>)
  {
    && |states| == |events| + 1 && Initial(states[0])
    && forall i :: 0 <= i < |events| ==>
         Enabled(states[i], events[i]) && Counts(states[i]) && states[i + 1] == Step(c, states[i], events[i])
  }

  lemma {:induction false} RunInv<T(!new)>(c: Config<T>, states: seq<System<T>>, events: seq<Event<T>>, n: nat)
    requires Run(c, states, events) && n < |states|
    ensures Inv(c, states[n])
  {
    hide Inv, Step, Enabled, Counts;
    if n == 0 {
      NobodyStarted(states[0].threads);
      InitialInv(c, states[0]);
    } else {
      RunInv(c, states, events, n - 1);
      StepInv(c, states[n - 1], events[n - 1]);
    }
  }

  lemma InitialInv<T(!new)>(c: Config<T>, s: System<T>)
    requires Initial(s)
    ensures Inv(c, s)
  {
    NobodyStarted(s.threads);
  }

  // ---------- what it means for the master ----------

  function Master<T>(s: System<T>): Thread<T>
  {
    if s.threads == [] then Outside else s.threads[0]
  }

  /** The verdict an event of the master returns, if it is the one with which Wait ends. */
  function Verdict<T>(c: Config<T>, s: System<T>, e: Event<T>): (r: Outcome<T>)
    requires Enabled(s, e) && Counts(s) && !e.AddChecks?
  {
    var entered := Entered(c, s, e);
    if e.WakeUp? then SomeWaiting(s.threads, e.t); Top(entered, e.t == 0, c.fQuit, c.nBatchSize).1
    else Top(entered, e.t == 0, c.fQuit, c.nBatchSize).1
  }

  /** In every run Wait returns whether all checks added since the last Wait verify. */
  lemma WaitReturnsAll<T(!new)>(c: Config<T>, states: seq<System<T>>, events: seq<Event<T>>, n: nat)
    requires Run(c, states, events) && n < |events| && !events[n].AddChecks? && events[n].t == 0
    requires Verdict(c, states[n], events[n]).Left?
    ensures Verdict(c, states[n], events[n]).result <==> forall x :: x in states[n].added ==> c.verify(x)
    ensures states[n + 1].added == multiset{} && Master(states[n + 1]).Outside?
  {
    RunInv(c, states, events, n);
    LeftMeansDone(c, states[n], events[n]);
  }

  lemma LeftMeansDone<T(!new)>(c: Config<T>, s: System<T>, e: Event<T>)
    requires Inv(c, s) && Enabled(s, e) && !e.AddChecks? && e.t == 0 && Verdict(c, s, e).Left?
    ensures Verdict(c, s, e).result <==> forall x :: x in s.added ==> c.verify(x)
    ensures Step(c, s, e).added == multiset{} && Master(Step(c, s, e)).Outside?
  {
    hide Inv, Mid, MidConserved, InFlight, Started, Waiting;
    EnteredMid(c, s, e);
    var done := if e.FinishBatch? then s.done + multiset(s.threads[0].batch) else s.done;
    NothingLeft(c, s, Entered(c, s, e), done);
  }

  /** Once nothing is queued and nothing is to be done, all that was added is done. */
  lemma NothingLeft<T(!new)>(c: Config<T>, s: System<T>, entered: Shared<T>, done: multiset<T>)
    requires MidConserved(s, 0, entered, done) && Mid(c, s, 0, entered, false, done) && entered.queue == []
        && entered.nTodo == 0
    ensures done == s.added && (entered.fAllOk <==> forall x :: x in s.added ==> c.verify(x))
  {
    hide InFlight, Started, Waiting;
    FlightChanged(s.threads, 0, Outside);
    var rest := InFlight(s.threads[0 := Outside]);
    assert rest == [];
    Cancel(s.added, multiset(Batch(s.threads[0])), multiset(entered.queue), multiset(InFlight(s.threads)), done,
        multiset(rest));
  }

  /** In every run, while the master waits and has not been notified, some worker holds a batch. */
  lemma BlockedMasterHasWorker<T(!new)>(c: Config<T>, states: seq<System<T>>, events: seq<Event<T>>, n: nat)
    requires Run(c, states, events) && n < |states| && Master(states[n]).Blocked?
    ensures exists t :: 0 < t < |states[n].threads| && states[n].threads[t].Working? && states[n].threads[t].batch != []
  {
    RunInv(c, states, events, n);
    var threads := states[n].threads;
    FlightSomewhere(threads);
    var t :| 0 <= t < |threads| && Batch(threads[t]) != [];
    assert threads[t].Working?;
  }

  lemma {:induction false} FlightSomewhere<T>(threads: seq<Thread<T>>)
    requires |InFlight(threads)| > 0
    ensures exists t :: 0 <= t < |threads| && Batch(threads[t]) != []
    decreases |threads|
  {
    var last := |threads| - 1;
    if Batch(threads[last]) == [] {
      FlightSomewhere(threads[..last]);
      var t :| 0 <= t < last && Batch(threads[..last][t]) != [];
      assert Batch(threads[t]) != [];
    }
  }

  /** In every run, from when Wait has returned until something is added, the queue is idle,
      whatever the workers do: every started worker waits. */
  lemma IdleBetweenRounds<T(!new)>(c: Config<T>, states: seq<System<T>>, events: seq<Event<T>>, n: nat)
    requires Run(c, states, events) && n < |states| && Master(states[n]).Outside? && states[n].added == multiset{}
    ensures Idle(states[n].shared)
    ensures forall t ::
        0 <= t < |states[n].threads| ==> states[n].threads[t].Outside? || IsWaiting(states[n].threads[t])
  {
    RunInv(c, states, events, n);
    var s := states[n];
    EmptyBags(multiset(s.shared.queue), multiset(InFlight(s.threads)), s.done);
    assert |multiset(s.shared.queue)| == |s.shared.queue| && |multiset(InFlight(s.threads))| == |InFlight(s.threads)|;
    EmptyFlight(s.threads);
    assert forall i :: 0 <= i < |s.threads| && s.threads[i].Working? ==> Batch(s.threads[i]) == s.threads[i].batch;
    AllWait(s.threads);
  }

  lemma EmptyBags<T>(a: multiset<T>, b: multiset<T>, d: multiset<T>)
    requires a + b + d == multiset{}
    ensures a == multiset{} && b == multiset{} && d == multiset{}
  {
    assert |a + b + d| == |a| + |b| + |d|;
  }

  lemma {:induction false} AllWait<T>(threads: seq<Thread<T>>)
    requires forall i :: 0 <= i < |threads| ==> threads[i].Outside? || IsWaiting(threads[i])
    ensures Started(threads) == Waiting(threads)
    decreases |threads|
  {
    if threads != [] {
      AllWait(threads[..|threads| - 1]);
    }
  }

  /** In every run each check that was added is in one place: queued, in the hands of one
      thread, or done; and nTodo counts those not done. */
  lemma EachCheckOnce<T(!new)>(c: Config<T>, states: seq<System<T>>, events: seq<Event<T>>, n: nat, x: T)
    requires Run(c, states, events) && n < |states|
    ensures var s := states[n];
            && s.added[x] == multiset(s.shared.queue)[x] + multiset(InFlight(s.threads))[x] + s.done[x]
            && s.shared.nTodo == |s.shared.queue| + |InFlight(s.threads)| == |s.added| - |s.done|
  {
    RunInv(c, states, events, n);
    var s := states[n];
    assert |s.added| == |multiset(s.shared.queue)| + |multiset(InFlight(s.threads))| + |s.done|;
  }
}
