/** A queue of checks worked off by worker threads and, while it waits, by the master thread:
    the critical sections under the one mutex, and every interleaving of them. */
module CheckQueues {

  /** What the mutex protects. */
  datatype Shared<T> = Shared(queue: seq<T>, nIdle: int, nTotal: int, fAllOk: bool, nTodo: int)

  /** How a critical section of the loop ends: the thread leaves, waits, or goes to work. */
  datatype Outcome<T> = Left(result: bool) | Waits | Works(batch: seq<T>, fOk: bool)

  function Min(a: int, b: int): int
  {
    if a < b then a else b
  }

  lemma Share(queued: nat, parts: int, n: int)
    requires parts > 0
    ensures n <= queued / parts ==> n * parts <= queued
    ensures queued / parts <= n ==> queued < (n + 1) * parts
  {
    var share := queued / parts;
    assert queued == share * parts + queued % parts;
    if n <= share {
      Scaled(n, share, parts);
    }
    if share <= n {
      Scaled(share + 1, n + 1, parts);
    }
  }

  lemma Scaled(x: int, y: int, z: int)
    requires x <= y && z > 0
    ensures x * z <= y * z
  {
  }

  /** How many checks to take at once. */
  function BatchSize(nBatchSize: nat, queued: nat, nTotal: int, nIdle: int): (n: int)
    requires nTotal + nIdle + 1 > 0
    ensures queued > 0 ==> 1 <= n <= queued
    ensures nBatchSize > 0 ==> n <= nBatchSize
    ensures n > 1 ==> n * (nTotal + nIdle + 1) <= queued
    ensures n >= nBatchSize || queued < (n + 1) * (nTotal + nIdle + 1)
  {
    var n := Min(nBatchSize, queued / (nTotal + nIdle + 1));
    assert queued / (nTotal + nIdle + 1) <= queued;
    Share(queued, nTotal + nIdle + 1, if n < 1 then 1 else n);
    if n < 1 then 1 else n
  }

  /** The last n checks, last first. */
  function Taken<T>(queue: seq<T>, n: nat): (r: seq<T>)
    requires n <= |queue|
    ensures |r| == n
    ensures forall i :: 0 <= i < n ==> r[i] == queue[|queue| - 1 - i]
  {
    if n == 0 then [] else [queue[|queue| - 1]] + Taken(queue[..|queue| - 1], n - 1)
  }

  /** The part of the loop from where the queue is looked at. */
  function Top<T>(s: Shared<T>, fMaster: bool, fQuit: bool, nBatchSize: nat): (Shared<T>, Outcome<T>)
    requires s.nTotal + s.nIdle + 1 > 0
  {
    if s.queue == [] then
      if (fMaster || fQuit) && s.nTodo == 0 then
        (s.(nTotal := s.nTotal - 1, fAllOk := if fMaster then true else s.fAllOk), Left(s.fAllOk))
      else (s.(nIdle := s.nIdle + 1), Waits)
    else
      var n := BatchSize(nBatchSize, |s.queue|, s.nTotal, s.nIdle);
      (s.(queue := s.queue[..|s.queue| - n]), Works(Taken(s.queue, n), s.fAllOk))
  }

  /** The verdict on a batch: once something failed nothing more is verified. */
  function BatchOk<T>(verify: T -> bool, batch: seq<T>, fOk: bool): bool
  {
    fOk && forall i :: 0 <= i < |batch| ==> verify(batch[i])
  }

  // ---------- the queue object ----------

  class CheckQueue<T(==)> {
    var queue: seq<T>
    var nIdle: int
    var nTotal: int
    var fAllOk: bool
    var nTodo: int
    const fQuit: bool
    const nBatchSize: nat
    const verify: T -> bool

    constructor (nBatchSize: nat, verify: T -> bool)
      ensures this.nBatchSize == nBatchSize && this.verify == verify && !fQuit
      ensures State() == Shared([], 0, 0, true, 0)
    {
      this.nBatchSize, this.verify, fQuit := nBatchSize, verify, false;
      queue, nIdle, nTotal, fAllOk, nTodo := [], 0, 0, true, 0;
    }

    function State(): Shared<T>
      reads this
    {
      Shared(queue, nIdle, nTotal, fAllOk, nTodo)
    }

    /** Under the mutex: leave, wait, or take a batch. */
    method LoopTop(fMaster: bool) returns (outcome: Outcome<T>)
      requires nTotal + nIdle + 1 > 0
      modifies this
      ensures (State(), outcome) == Top(old(State()), fMaster, fQuit, nBatchSize)
      ensures outcome.Works? <==> old(queue) != []
      ensures outcome.Left? <==> old(queue) == [] && old(nTodo) == 0 && (fMaster || fQuit)
      ensures outcome.Left? ==> outcome.result == old(fAllOk) && nTotal == old(nTotal) - 1
      ensures fAllOk == ((outcome.Left? && fMaster) || old(fAllOk))
      ensures outcome.Works? ==>
                && outcome.fOk == old(fAllOk) && 1 <= |outcome.batch| <= |old(queue)|
                && queue == old(queue)[..|old(queue)| - |outcome.batch|]
                && forall i :: 0 <= i < |outcome.batch| ==> outcome.batch[i] == old(queue)[|old(queue)| - 1 - i]
    {
      if queue == [] {
        if (fMaster || fQuit) && nTodo == 0 {
          nTotal := nTotal - 1;
          var fRet := fAllOk;
          if fMaster {
            fAllOk := true;
          }
          return Left(fRet);
        }
        nIdle := nIdle + 1;
        return Waits;
      }
      var nNow := BatchSize(nBatchSize, |queue|, nTotal, nIdle);
      var vChecks: seq<T> := [];
      for i := 0 to nNow
        invariant queue == old(queue)[..|old(queue)| - i]
        invariant nIdle == old(nIdle) && nTotal == old(nTotal) && fAllOk == old(fAllOk) && nTodo == old(nTodo)
        invariant |vChecks| == i && forall j :: 0 <= j < i ==> vChecks[j] == old(queue)[|old(queue)| - 1 - j]
      {
        vChecks := vChecks + [queue[|queue| - 1]];
        queue := queue[..|queue| - 1];
      }
      assert vChecks == Taken(old(queue), nNow);
      return Works(vChecks, fAllOk);
    }

    /** A thread enters the loop. */
    method Begin(fMaster: bool) returns (outcome: Outcome<T>)
      requires nTotal >= 0 && nIdle >= 0
      modifies this
      ensures (State(), outcome) == Top(old(State()).(nTotal := old(nTotal) + 1), fMaster, fQuit, nBatchSize)
    {
      nTotal := nTotal + 1;
      outcome := LoopTop(fMaster);
    }

    /** A thread comes back from its batch. The master has to be woken if nothing is left. */
    method Finish(fMaster: bool, nNow: int, fOk: bool) returns (outcome: Outcome<T>, notifyMaster: bool)
      requires nTotal >= 0 && nIdle >= 0 && nNow > 0
      modifies this
      ensures var s := old(State()).(fAllOk := old(fAllOk) && fOk, nTodo := old(nTodo) - nNow);
              (State(), outcome) == Top(s, fMaster, fQuit, nBatchSize) && (notifyMaster <==> s.nTodo == 0 && !fMaster)
    {
      fAllOk := fAllOk && fOk;
      nTodo := nTodo - nNow;
      notifyMaster := nTodo == 0 && !fMaster;
      outcome := LoopTop(fMaster);
    }

    /** A waiting thread gets the mutex again. */
    method Resume(fMaster: bool) returns (outcome: Outcome<T>)
      requires nTotal >= 0 && nIdle > 0
      modifies this
      ensures (State(), outcome) == Top(old(State()).(nIdle := old(nIdle) - 1), fMaster, fQuit, nBatchSize)
    {
      nIdle := nIdle - 1;
      outcome := LoopTop(fMaster);
    }

    /** Outside the mutex: the work itself. */
    method Work(vChecks: seq<T>, fOkIn: bool) returns (fOk: bool)
      ensures fOk == BatchOk(verify, vChecks, fOkIn)
    {
      fOk := fOkIn;
      for i := 0 to |vChecks|
        invariant fOk == (fOkIn && forall j :: 0 <= j < i ==> verify(vChecks[j]))
      {
        if fOk {
          fOk := verify(vChecks[i]);
        }
      }
    }

    method Add(vChecks: seq<T>) returns (notified: nat)
      modifies this
      ensures State() == old(State()).(queue := old(queue) + vChecks, nTodo := old(nTodo) + |vChecks|)
      ensures notified == if |vChecks| == 0 then 0 else if |vChecks| == 1 then 1 else 2
    {
      for i := 0 to |vChecks|
        invariant queue == old(queue) + vChecks[..i]
        invariant nIdle == old(nIdle) && nTotal == old(nTotal) && fAllOk == old(fAllOk) && nTodo == old(nTodo)
      {
        queue := queue + [vChecks[i]];
        assert vChecks[..i + 1] == vChecks[..i] + [vChecks[i]];
      }
      assert vChecks[..|vChecks|] == vChecks;
      nTodo := nTodo + |vChecks|;
      return if |vChecks| == 1 then 1 else if |vChecks| > 1 then 2 else 0;
    }

    method IsIdle() returns (idle: bool)
      ensures idle <==> nTotal == nIdle && nTodo == 0 && fAllOk
      ensures idle == Idle(State())
    {
      return nTotal == nIdle && nTodo == 0 && fAllOk == true;
    }
  }

  predicate Idle<T>(s: Shared<T>)
  {
    s.nTotal == s.nIdle && s.nTodo == 0 && s.fAllOk
  }

  // ---------- every interleaving ----------

  /** Where a thread is between two critical sections. */
  datatype Thread<T> = Outside | Blocked | Notified | Working(batch: seq<T>, fOk: bool)

  /** All threads, the master first; what was added since the last wait, and of that what is
      done. */
  datatype System<T> = System(shared: Shared<T>, threads: seq<Thread<T>>, added: multiset<T>, done: multiset<T>)

  datatype Event<T> =
    | BeginLoop(t: nat)
    | FinishBatch(t: nat)
    | WakeUp(t: nat)
    | AddChecks(checks: seq<T>, woken: set<nat>)

  datatype Config<!T> = Config(verify: T -> bool, nBatchSize: nat, fQuit: bool)

  function Batch<T>(th: Thread<T>): seq<T>
  {
    if th.Working? then th.batch else []
  }

  /** All checks in the hands of threads. */
  function InFlight<T>(threads: seq<Thread<T>>): seq<T>
  {
    if threads == [] then [] else InFlight(threads[..|threads| - 1]) + Batch(threads[|threads| - 1])
  }

  function Started<T>(threads: seq<Thread<T>>): nat
  {
    if threads == [] then 0
    else Started(threads[..|threads| - 1]) + if threads[|threads| - 1].Outside? then 0 else 1
  }

  predicate IsWaiting<T>(th: Thread<T>)
  {
    th.Blocked? || th.Notified?
  }

  function Waiting<T>(threads: seq<Thread<T>>): nat
  {
    if threads == [] then 0
    else Waiting(threads[..|threads| - 1]) + if IsWaiting(threads[|threads| - 1]) then 1 else 0
  }

  /** The threads after a critical section of one of them. */
  function After<T>(threads: seq<Thread<T>>, t: nat, outcome: Outcome<T>, notifyMaster: bool): seq<Thread<T>>
    requires t < |threads|
  {
    var th := match outcome
      case Left(_) => Outside
      case Waits => Blocked
      case Works(batch, fOk) => Working(batch, fOk);
    var next := threads[t := th];
    if notifyMaster && next[0].Blocked? then next[0 := Notified] else next
  }

  function Wake<T>(threads: seq<Thread<T>>, woken: set<nat>): (r: seq<Thread<T>>)
    ensures |r| == |threads|
    ensures forall i :: 0 <= i < |threads| ==> r[i] == if i in woken && threads[i].Blocked? then Notified
        else threads[i]
  {
    if threads == [] then []
    else
      var last := |threads| - 1;
      Wake(threads[..last], woken) + [if last in woken && threads[last].Blocked? then Notified else threads[last]]
  }

  /** Whether an event can happen: only the master adds, and not while it waits; one check
      wakes one worker at most. */
  predicate Enabled<T>(s: System<T>, e: Event<T>)
  {
    match e
    case BeginLoop(t) => t < |s.threads| && s.threads[t].Outside?
    case FinishBatch(t) => t < |s.threads| && s.threads[t].Working?
    case WakeUp(t) => t < |s.threads| && IsWaiting(s.threads[t])
    case AddChecks(checks, woken) =>
      && 0 < |s.threads| && s.threads[0].Outside? && 0 !in woken
      && (|checks| == 0 ==> woken == {}) && (|checks| == 1 ==> |woken| <= 1)
  }

  /** The counters allow the critical sections to be entered. */
  predicate Counts<T>(s: System<T>)
  {
    s.shared.nTotal == Started(s.threads) && s.shared.nIdle == Waiting(s.threads)
  }

  /** The critical section of an event, up to the look at the queue. */
  function Entered<T>(c: Config<T>, s: System<T>, e: Event<T>): Shared<T>
    requires Enabled(s, e)
  {
    match e
    case BeginLoop(t) => s.shared.(nTotal := s.shared.nTotal + 1)
    case FinishBatch(t) =>
      s.shared.(fAllOk := s.shared.fAllOk && BatchOk(c.verify, s.threads[t].batch, s.threads[t].fOk),
                nTodo := s.shared.nTodo - |s.threads[t].batch|)
    case WakeUp(t) => s.shared.(nIdle := s.shared.nIdle - 1)
    case AddChecks(checks, woken) => s.shared.(queue := s.shared.queue + checks, nTodo := s.shared.nTodo + |checks|)
  }

  /** The rest of a critical section, once it looks at the queue. A master that leaves begins
      a new round. */
  function Continue<T>(c: Config<T>, s: System<T>, t: nat, entered: Shared<T>, notifyMaster: bool,
      done: multiset<T>): System<T>
    requires t < |s.threads| && entered.nTotal + entered.nIdle + 1 > 0
  {
    var (shared, outcome) := Top(entered, t == 0, c.fQuit, c.nBatchSize);
    var threads := After(s.threads, t, outcome, notifyMaster);
    if outcome.Left? && t == 0 then System(shared, threads, multiset{}, multiset{})
    else System(shared, threads, s.added, done)
  }

  lemma {:induction false} SomeWaiting<T>(threads: seq<Thread<T>>, t: nat)
    requires t < |threads| && IsWaiting(threads[t])
    ensures Waiting(threads) >= 1
  {
    if t < |threads| - 1 {
      SomeWaiting(threads[..|threads| - 1], t);
    }
  }

  function Step<T>(c: Config<T>, s: System<T>, e: Event<T>): System<T>
    requires Enabled(s, e) && Counts(s)
  {
    var entered := Entered(c, s, e);
    match e
    case BeginLoop(t) => Continue(c, s, t, entered, false, s.done)
    case FinishBatch(t) => Continue(c, s, t, entered, entered.nTodo == 0 && t != 0,
        s.done + multiset(s.threads[t].batch))
    case WakeUp(t) => SomeWaiting(s.threads, t); Continue(c, s, t, entered, false, s.done)
    case AddChecks(checks, woken) => System(entered, Wake(s.threads, woken), s.added + multiset(checks), s.done)
  }
}
