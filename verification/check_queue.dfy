/** The script check queue: one master and any number of workers sharing a stack of checks under a
    mutex and two condition variables.  The shared fields and what one critical section does to
    them come first, then the system of all threads and what every run of it keeps. */
module CheckQueues {

  /** A check, with the verdict that running it gives. */
  datatype Check = Check(id: nat, passes: bool)

  predicate AllPass(s: seq<Check>) { forall i :: 0 <= i < |s| ==> s[i].passes }

  /** How a thread arrives at a critical section of Loop: for the first time, having worked off a
      batch, or woken from its condition variable. */
  datatype Arrival = First | Finished(nNow: nat, fOk: bool) | Woken

  /** How it leaves: it goes to sleep, returns, or has taken a batch. */
  datatype Departure = Sleep | Return(fRet: bool) | Work(batch: seq<Check>, fOk: bool)

  /** Whom Add notifies through the workers' condition variable. */
  datatype Notice = Nobody | OneWorker | AllWorkers

  /** The fields protected by the mutex. */
  datatype Shared = Shared(queue: seq<Check>, nIdle: int, nTotal: int, fAllOk: bool, nTodo: int, fQuit: bool,
                           nBatchSize: nat)

  function Min(a: int, b: int): int { if a < b then a else b }
  function Max(a: int, b: int): int { if a < b then b else a }

  /** The size of the next batch. */
  function BatchSize(q: Shared): (n: nat)
    requires q.nTotal + q.nIdle + 1 > 0 && q.queue != []
    ensures 1 <= n <= |q.queue| && n <= Max(1, q.nBatchSize)
  {
    BatchBound(|q.queue|, q.nTotal + q.nIdle + 1);
    Max(1, Min(q.nBatchSize, |q.queue| / (q.nTotal + q.nIdle + 1)))
  }

  lemma {:induction false} BatchBound(size: nat, threads: nat)
    requires threads > 0
    ensures 0 <= size / threads <= size
  {
    var d, r := size / threads, size % threads;
    assert size == threads * d + r;
    Grows(threads, d);
  }

  lemma {:induction false} Grows(k: int, d: int)
    requires k > 0
    ensures d >= 0 ==> k * d >= d
    ensures d < 0 ==> k * d <= -k
  {
  }

  /** The last `n` checks in the order in which they are popped. */
  function Popped(queue: seq<Check>, n: nat): (batch: seq<Check>)
    requires n <= |queue|
    ensures |batch| == n
    ensures forall i :: 0 <= i < n ==> batch[i] == queue[|queue| - 1 - i]
  {
    seq(n, i requires 0 <= i < n => queue[|queue| - 1 - i])
  }

  /** The bookkeeping at the start of a critical section. */
  function Arrive(q: Shared, arrival: Arrival): Shared {
    match arrival
    case First => q.(nTotal := q.nTotal + 1)
    case Finished(n, fOk) => q.(fAllOk := q.fAllOk && fOk, nTodo := q.nTodo - n)
    case Woken => q.(nIdle := q.nIdle - 1)
  }

  /** One critical section of Loop: the new shared fields, how the thread leaves, and whether the
      master's condition variable is notified. */
  function Section(q: Shared, fMaster: bool, arrival: Arrival): (Shared, Departure, bool)
    requires Arrive(q, arrival).nTotal + Arrive(q, arrival).nIdle + 1 > 0
  {
    var q1 := Arrive(q, arrival);
    var notify := arrival.Finished? && q1.nTodo == 0 && !fMaster;
    if q1.queue == [] then
      if (fMaster || q1.fQuit) && q1.nTodo == 0 then
        (q1.(nTotal := q1.nTotal - 1, fAllOk := if fMaster then true else q1.fAllOk), Return(q1.fAllOk), notify)
      else (q1.(nIdle := q1.nIdle + 1), Sleep, notify)
    else
      var n := BatchSize(q1);
      (q1.(queue := q1.queue[..|q1.queue| - n]), Work(Popped(q1.queue, n), q1.fAllOk), notify)
  }

  // ------------------------------------------------------------ the object

  class CheckQueue {
    var queue: seq<Check>
    var nIdle: int
    var nTotal: int
    var fAllOk: bool
    var nTodo: int
    var fQuit: bool
    const nBatchSize: nat

    constructor (nBatchSizeIn: nat)
      ensures Value() == Shared([], 0, 0, true, 0, false, nBatchSizeIn)
    {
      queue, nIdle, nTotal, fAllOk, nTodo, fQuit, nBatchSize := [], 0, 0, true, 0, false, nBatchSizeIn;
    }

    ghost function Value(): Shared
      reads this
    {
      Shared(queue, nIdle, nTotal, fAllOk, nTodo, fQuit, nBatchSize)
    }

    /** CCheckQueue::Add; the result says which workers are notified. */
    method Add(vChecks: seq<Check>) returns (notice: Notice)
      modifies this
      ensures notice == match |vChecks| case 0 => Nobody case 1 => OneWorker case _ => AllWorkers
      ensures Value() == old(Value()).(queue := old(queue) + vChecks, nTodo := old(nTodo) + |vChecks|)
    {
      for i := 0 to |vChecks|
        invariant queue == old(queue) + vChecks[..i]
        invariant Value() == old(Value()).(queue := queue)
      {
        queue := queue + [vChecks[i]];
      }
      nTodo := nTodo + |vChecks|;
      notice := if |vChecks| == 1 then OneWorker else if |vChecks| > 1 then AllWorkers else Nobody;
    }

    /** One critical section of CCheckQueue::Loop, from taking the mutex to releasing it. */
    method LoopSection(fMaster: bool, arrival: Arrival) returns (departure: Departure, notify: bool)
      requires Arrive(Value(), arrival).nTotal + Arrive(Value(), arrival).nIdle + 1 > 0
      modifies this
      ensures Section(old(Value()), fMaster, arrival) == (Value(), departure, notify)
    {
      notify := false;
      match arrival {
        case Finished(nNow, fOk) =>
          fAllOk := fAllOk && fOk;
          nTodo := nTodo - nNow;
          if nTodo == 0 && !fMaster { notify := true; }
        case First => nTotal := nTotal + 1;
        case Woken => nIdle := nIdle - 1;
      }
      if queue == [] {
        if (fMaster || fQuit) && nTodo == 0 {
          nTotal := nTotal - 1;
          departure := Return(fAllOk);
          if fMaster { fAllOk := true; }
          return;
        }
        nIdle := nIdle + 1;
        return Sleep, notify;
      }
      var nNow := BatchSize(Shared(queue, nIdle, nTotal, fAllOk, nTodo, fQuit, nBatchSize));
      var batch := TakeBatch(nNow);
      departure := Work(batch, fAllOk);
    }

    /** The loop that swaps checks from the back of the queue into the local batch. */
    method TakeBatch(nNow: nat) returns (vChecks: seq<Check>)
      requires nNow <= |queue|
      modifies `queue
      ensures vChecks == Popped(old(queue), nNow) && queue == old(queue)[..|old(queue)| - nNow]
    {
      vChecks := [];
      for i := 0 to nNow
        invariant |vChecks| == i && queue == old(queue)[..|old(queue)| - i]
        invariant forall j :: 0 <= j < i ==> vChecks[j] == old(queue)[|old(queue)| - 1 - j]
      {
        vChecks := vChecks + [queue[|queue| - 1]];
        queue := queue[..|queue| - 1];
      }
    }
  }

  // ------------------------------------------------------------ all threads together

  /** Where a thread is while it does not hold the mutex. */
  datatype Thread =
    | Outside
    | Entering
    | Sleeping(notified: bool)
    | Working(batch: seq<Check>, done: nat, fOk: bool)

  const MASTER: nat := 0

  /** The whole system.  `added` are the checks added since the last return of Wait, `results` what
      each Wait returned, with the checks it was about. */
  datatype System = System(q: Shared, threads: map<nat, Thread>, added: seq<Check>, results: seq<(seq<Check>, bool)>)

  function Initial(nBatchSize: nat, workers: set<nat>): System {
    System(Shared([], 0, 0, true, 0, false, nBatchSize), map t | t in workers + {MASTER} :: Outside, [], [])
  }

  datatype Step =
    | StepAdd(vChecks: seq<Check>, wake: set<nat>)
    | StepEnter(t: nat)
    | StepSection(t: nat)
    | StepRun(t: nat)

  function ArrivalOf(th: Thread): Arrival
    requires th.Entering? || th.Sleeping? || th.Working?
  {
    match th
    case Entering => First
    case Sleeping(_) => Woken
    case Working(batch, _, fOk) => Finished(|batch|, fOk)
  }

  function Wake(threads: map<nat, Thread>, wake: set<nat>): map<nat, Thread> {
    map t | t in threads :: if t in wake && threads[t].Sleeping? then Sleeping(true) else threads[t]
  }

  /** When a step can be taken.  Only the master adds, and only between Wait calls; which sleepers a
      notification reaches is open, and a sleeper may also wake without one. */
  predicate Enabled(s: System, step: Step) {
    match step
    case StepAdd(_, wake) => MASTER in s.threads && s.threads[MASTER].Outside? && MASTER !in wake
    case StepEnter(t) => t in s.threads && s.threads[t].Outside?
    case StepSection(t) =>
      t in s.threads && (s.threads[t].Entering? || s.threads[t].Sleeping? ||
                         (s.threads[t].Working? && s.threads[t].done == |s.threads[t].batch|))
      && var q1 := Arrive(s.q, ArrivalOf(s.threads[t])); q1.nTotal + q1.nIdle + 1 > 0
    case StepRun(t) => t in s.threads && s.threads[t].Working? && s.threads[t].done < |s.threads[t].batch|
  }

  function Next(s: System, step: Step): System
    requires Enabled(s, step)
  {
    match step
    case StepAdd(vChecks, wake) =>
      s.(q := s.q.(queue := s.q.queue + vChecks, nTodo := s.q.nTodo + |vChecks|),
         threads := Wake(s.threads, wake), added := s.added + vChecks)
    case StepEnter(t) => s.(threads := s.threads[t := Entering])
    case StepRun(t) =>
      var th := s.threads[t];
      s.(threads := s.threads[t := th.(done := th.done + 1, fOk := th.fOk && th.batch[th.done].passes)])
    case StepSection(t) => AfterSection(s, t)
  }

  function AfterSection(s: System, t: nat): System
    requires Enabled(s, StepSection(t))
  {
    var (q, departure, notify) := Section(s.q, t == MASTER, ArrivalOf(s.threads[t]));
    var th := match departure
              case Sleep => Sleeping(false)
              case Return(_) => Outside
              case Work(batch, fOk) => Working(batch, 0, fOk);
    var threads := s.threads[t := th];
    var woken := if notify then Wake(threads, {MASTER}) else threads;
    if departure.Return? && t == MASTER
    then System(q, woken, [], s.results + [(s.added, departure.fRet)])
    else s.(q := q, threads := woken)
  }

  // ------------------------------------------------------------ counting threads

  /** Sum of a weight over all threads. */
  ghost function Sum(threads: map<nat, Thread>, f: Thread -> nat): nat
    decreases |threads|
  {
    if threads == map[] then 0
    else var t :| t in threads; f(threads[t]) + Sum(threads - {t}, f)
  }

  lemma {:induction false} SumRemove(threads: map<nat, Thread>, f: Thread -> nat, t: nat)
    requires t in threads
    ensures Sum(threads, f) == f(threads[t]) + Sum(threads - {t}, f)
    decreases |threads|
  {
    var u :| u in threads && Sum(threads, f) == f(threads[u]) + Sum(threads - {u}, f);
    if u != t {
      SumRemove(threads - {u}, f, t);
      SumRemove(threads - {t}, f, u);
      assert threads - {u} - {t} == threads - {t} - {u};
    }
  }

  lemma {:induction false} SumUpdate(threads: map<nat, Thread>, f: Thread -> nat, t: nat, th: Thread)
    requires t in threads
    ensures Sum(threads[t := th], f) == Sum(threads, f) - f(threads[t]) + f(th)
  {
    SumRemove(threads, f, t);
    SumRemove(threads[t := th], f, t);
    assert threads[t := th] - {t} == threads - {t};
  }

  lemma {:induction false} SumSame(a: map<nat, Thread>, b: map<nat, Thread>, f: Thread -> nat)
    requires a.Keys == b.Keys && forall t :: t in a ==> f(a[t]) == f(b[t])
    ensures Sum(a, f) == Sum(b, f)
    decreases |a|
  {
    if a == map[] {
      assert b == map[];
    } else {
      var t :| t in a;
      SumRemove(a, f, t);
      SumRemove(b, f, t);
      SumSame(a - {t}, b - {t}, f);
    }
  }

  function IdleWeight(): Thread -> nat { (th: Thread) => if th.Sleeping? then 1 else 0 }
  function BusyWeight(): Thread -> nat { (th: Thread) => if th.Working? then 1 else 0 }
  function LoadWeight(): Thread -> nat { (th: Thread) => if th.Working? then |th.batch| else 0 }

  // ------------------------------------------------------------ what every step keeps

  /** The counters are exact. */
  ghost predicate Counted(s: System) {
    && s.q.nTodo == |s.q.queue| + Sum(s.threads, LoadWeight())
    && s.q.nIdle == Sum(s.threads, IdleWeight())
    && s.q.nTotal == s.q.nIdle + Sum(s.threads, BusyWeight())
    && s.q.nTodo <= |s.added|
  }

  /** A batch in flight is not empty, and its running verdict is that of the part run so far, unless
      a failure has already been recorded. */
  ghost predicate BatchOk(th: Thread, fAllOk: bool) {
    th.Working? ==>
      && 1 <= |th.batch| && th.done <= |th.batch|
      && (th.fOk ==> AllPass(th.batch[..th.done]))
      && (!th.fOk ==> !AllPass(th.batch[..th.done]) || !fAllOk)
  }

  ghost predicate BatchesPass(threads: map<nat, Thread>) {
    forall t :: t in threads && threads[t].Working? ==> AllPass(threads[t].batch)
  }

  /** All checks of the round pass exactly when no failure is recorded and everything that is still
      queued or in flight passes. */
  ghost predicate Accounted(s: System) {
    AllPass(s.added) <==> s.q.fAllOk && AllPass(s.q.queue) && BatchesPass(s.threads)
  }

  /** A master that sleeps and has not been notified waits for work in flight. */
  ghost predicate MasterSafe(s: System)
    requires MASTER in s.threads
  {
    s.threads[MASTER] == Sleeping(false) ==> s.q.queue == [] && s.q.nTodo > 0
  }

  ghost predicate ResultsRight(s: System) {
    forall i :: 0 <= i < |s.results| ==> (s.results[i].1 <==> AllPass(s.results[i].0))
  }

  /** The counters and verdicts part of the invariant. */
  ghost predicate Core(s: System) {
    && Counted(s) && Accounted(s)
    && forall t :: t in s.threads ==> BatchOk(s.threads[t], s.q.fAllOk)
  }

  ghost predicate Inv(s: System) {
    MASTER in s.threads && !s.q.fQuit && Core(s) && MasterSafe(s) && ResultsRight(s)
  }

  lemma {:induction false} InitialInv(nBatchSize: nat, workers: set<nat>)
    ensures Inv(Initial(nBatchSize, workers))
  {
    var s := Initial(nBatchSize, workers);
    NothingCounted(s.threads, LoadWeight());
    NothingCounted(s.threads, IdleWeight());
    NothingCounted(s.threads, BusyWeight());
  }

  lemma {:induction false} NothingCounted(threads: map<nat, Thread>, f: Thread -> nat)
    requires forall t :: t in threads ==> f(threads[t]) == 0
    ensures Sum(threads, f) == 0
    decreases |threads|
  {
    if threads != map[] {
      var t :| t in threads;
      SumRemove(threads, f, t);
      NothingCounted(threads - {t}, f);
    }
  }

  lemma {:induction false} AllPassConcat(a: seq<Check>, b: seq<Check>)
    ensures AllPass(a + b) <==> AllPass(a) && AllPass(b)
  {
    assert forall i :: 0 <= i < |a| ==> (a + b)[i] == a[i];
    assert forall i :: 0 <= i < |b| ==> (a + b)[|a| + i] == b[i];
  }

  lemma {:induction false} AllPassPopped(queue: seq<Check>, n: nat)
    requires n <= |queue|
    ensures AllPass(queue) <==> AllPass(queue[..|queue| - n]) && AllPass(Popped(queue, n))
  {
    var k := |queue| - n;
    if AllPass(queue[..k]) && AllPass(Popped(queue, n)) {
      forall i | 0 <= i < |queue| ensures queue[i].passes {
        if i < k { assert queue[..k][i] == queue[i]; }
        else { assert Popped(queue, n)[|queue| - 1 - i] == queue[i]; }
      }
    }
  }

  /** Notifying sleepers changes nothing that the invariant counts. */
  lemma {:induction false} WakeCounts(threads: map<nat, Thread>, wake: set<nat>)
    ensures Sum(Wake(threads, wake), LoadWeight()) == Sum(threads, LoadWeight())
    ensures Sum(Wake(threads, wake), IdleWeight()) == Sum(threads, IdleWeight())
    ensures Sum(Wake(threads, wake), BusyWeight()) == Sum(threads, BusyWeight())
    ensures BatchesPass(Wake(threads, wake)) <==> BatchesPass(threads)
  {
    var w := Wake(threads, wake);
    SumSame(w, threads, LoadWeight());
    SumSame(w, threads, IdleWeight());
    SumSame(w, threads, BusyWeight());
    assert forall t :: t in threads ==> (w[t].Working? <==> threads[t].Working?);
    assert forall t :: t in threads && threads[t].Working? ==> w[t] == threads[t];
  }

  lemma {:induction false} AddKeepsInv(s: System, vChecks: seq<Check>, wake: set<nat>)
    requires Inv(s) && Enabled(s, StepAdd(vChecks, wake))
    ensures Inv(Next(s, StepAdd(vChecks, wake)))
  {
    WakeCounts(s.threads, wake);
    AllPassConcat(s.added, vChecks);
    AllPassConcat(s.q.queue, vChecks);
  }

  /** Replacing the state of one thread. */
  lemma {:induction false} ThreadCounts(threads: map<nat, Thread>, t: nat, th: Thread)
    requires t in threads
    ensures Sum(threads[t := th], LoadWeight()) == Sum(threads, LoadWeight()) - LoadWeight()(threads[t]) +
              LoadWeight()(th)
    ensures Sum(threads[t := th], IdleWeight()) == Sum(threads, IdleWeight()) - IdleWeight()(threads[t]) +
              IdleWeight()(th)
    ensures Sum(threads[t := th], BusyWeight()) == Sum(threads, BusyWeight()) - BusyWeight()(threads[t]) +
              BusyWeight()(th)
    ensures Sum(threads, LoadWeight()) >= LoadWeight()(threads[t])
    ensures Sum(threads, IdleWeight()) >= IdleWeight()(threads[t])
  {
    SumUpdate(threads, LoadWeight(), t, th);
    SumUpdate(threads, IdleWeight(), t, th);
    SumUpdate(threads, BusyWeight(), t, th);
    SumRemove(threads, LoadWeight(), t);
    SumRemove(threads, IdleWeight(), t);
  }

  /** The batches of all other threads. */
  ghost predicate OthersPass(threads: map<nat, Thread>, t: nat) {
    forall u :: u in threads && u != t && threads[u].Working? ==> AllPass(threads[u].batch)
  }

  lemma {:induction false} BatchesPassSplit(threads: map<nat, Thread>, t: nat, th: Thread)
    requires t in threads
    ensures BatchesPass(threads) <==> OthersPass(threads, t) && (threads[t].Working? ==> AllPass(threads[t].batch))
    ensures BatchesPass(threads[t := th]) <==> OthersPass(threads, t) && (th.Working? ==> AllPass(th.batch))
  {
    var updated := threads[t := th];
    assert updated[t] == th;
    forall u | u in updated && u != t ensures u in threads && updated[u] == threads[u] {}
    forall u | u in threads ensures u in updated && (u != t ==> updated[u] == threads[u]) {}
    assert OthersPass(updated, t) <==> OthersPass(threads, t);
    assert BatchesPass(updated) <==> OthersPass(updated, t) && (th.Working? ==> AllPass(th.batch));
  }

  lemma {:induction false} EnterKeepsInv(s: System, t: nat)
    requires Inv(s) && Enabled(s, StepEnter(t))
    ensures Inv(Next(s, StepEnter(t)))
  {
    ThreadCounts(s.threads, t, Entering);
    BatchesPassSplit(s.threads, t, Entering);
  }

  lemma {:induction false} RunKeepsInv(s: System, t: nat)
    requires Inv(s) && Enabled(s, StepRun(t))
    ensures Inv(Next(s, StepRun(t)))
  {
    var th := s.threads[t];
    var th' := th.(done := th.done + 1, fOk := th.fOk && th.batch[th.done].passes);
    BatchRuns(th, s.q.fAllOk);
    SameBatchCore(s, t, th');
    hide Core; hide AllPass;
  }

  /** A thread that only gets on with its batch does not change the counts. */
  lemma {:induction false} SameBatchCore(s: System, t: nat, th: Thread)
    requires Core(s) && t in s.threads && s.threads[t].Working? && th.Working? && th.batch == s.threads[t].batch
    requires BatchOk(th, s.q.fAllOk)
    ensures Core(s.(threads := s.threads[t := th]))
  {
    hide BatchOk; hide AllPass; hide Sum;
    var threads := s.threads[t := th];
    ThreadCounts(s.threads, t, th);
    BatchesPassSplit(s.threads, t, th);
    forall u | u in threads ensures BatchOk(threads[u], s.q.fAllOk) {}
  }

  lemma {:induction false} BatchRuns(th: Thread, fAllOk: bool)
    requires th.Working? && th.done < |th.batch| && BatchOk(th, fAllOk)
    ensures BatchOk(th.(done := th.done + 1, fOk := th.fOk && th.batch[th.done].passes), fAllOk)
  {
  }

  /** A critical section can always be entered: the divisor of the batch size is positive. */
  lemma {:induction false} SectionEnabled(s: System, t: nat)
    requires Inv(s) && t in s.threads
    requires s.threads[t].Entering? || s.threads[t].Sleeping? ||
              (s.threads[t].Working? && s.threads[t].done == |s.threads[t].batch|)
    ensures Enabled(s, StepSection(t))
  {
    ThreadCounts(s.threads, t, Outside);
  }

  /** The state inside a critical section, after the bookkeeping of the arriving thread, which now
      counts towards nTotal only. */
  ghost predicate Inside(q: Shared, threads: map<nat, Thread>, added: seq<Check>) {
    && q.nTodo == |q.queue| + Sum(threads, LoadWeight())
    && q.nIdle == Sum(threads, IdleWeight())
    && q.nTotal == q.nIdle + Sum(threads, BusyWeight()) + 1
    && q.nTodo <= |added| && !q.fQuit
    && (forall u :: u in threads ==> BatchOk(threads[u], q.fAllOk))
    && (AllPass(added) <==> q.fAllOk && AllPass(q.queue) && BatchesPass(threads))
  }

  lemma {:induction false} ArriveKeeps(s: System, t: nat)
    requires Inv(s) && Enabled(s, StepSection(t))
    ensures Inside(Arrive(s.q, ArrivalOf(s.threads[t])), s.threads[t := Entering], s.added)
  {
    var th := s.threads[t];
    ThreadCounts(s.threads, t, Entering);
    BatchesPassSplit(s.threads, t, Entering);
    assert BatchOk(th, s.q.fAllOk);
    if th.Working? { assert th.batch[..th.done] == th.batch; }
    hide AllPass; hide BatchesPass; hide OthersPass;
    var q1 := Arrive(s.q, ArrivalOf(th));
    var threads := s.threads[t := Entering];
    forall u | u in threads ensures BatchOk(threads[u], q1.fAllOk) {
      if u != t { assert BatchOk(s.threads[u], s.q.fAllOk); }
    }
  }

  lemma {:induction false} SleepKeeps(q: Shared, threads: map<nat, Thread>, added: seq<Check>, t: nat)
    requires Inside(q, threads, added) && t in threads && threads[t] == Entering && q.queue == []
    ensures var s := System(q.(nIdle := q.nIdle + 1), threads[t := Sleeping(false)], added, []);
            Core(s)
  {
    ThreadCounts(threads, t, Sleeping(false));
    BatchesPassSplit(threads, t, Sleeping(false));
  }

  lemma {:induction false} ReturnKeeps(q: Shared, threads: map<nat, Thread>, added: seq<Check>, t: nat)
    requires Inside(q, threads, added) && t in threads && threads[t] == Entering && q.queue == [] && q.nTodo == 0
    ensures q.fAllOk <==> AllPass(added)
    ensures var s := System(q.(nTotal := q.nTotal - 1, fAllOk := true), threads[t := Outside], [], []);
            Core(s)
  {
    ThreadCounts(threads, t, Outside);
    BatchesPassSplit(threads, t, Outside);
    NoLoadNoWork(threads, q.fAllOk);
  }

  /** Without load no thread holds a batch. */
  lemma {:induction false} NoLoadNoWork(threads: map<nat, Thread>, fAllOk: bool)
    requires Sum(threads, LoadWeight()) == 0 && forall u :: u in threads ==> BatchOk(threads[u], fAllOk)
    ensures (forall u :: u in threads ==> !threads[u].Working?) && BatchesPass(threads)
    ensures Sum(threads, BusyWeight()) == 0
  {
    forall u | u in threads ensures !threads[u].Working? {
      SumRemove(threads, LoadWeight(), u);
      assert BatchOk(threads[u], fAllOk);
    }
    NothingCounted(threads, BusyWeight());
  }

  lemma {:induction false} WorkKeeps(q: Shared, threads: map<nat, Thread>, added: seq<Check>, t: nat)
    requires Inside(q, threads, added) && t in threads && threads[t] == Entering && q.queue != []
    requires q.nTotal + q.nIdle + 1 > 0
    ensures var n := BatchSize(q);
            var s := System(q.(queue := q.queue[..|q.queue| - n]),
              threads[t := Working(Popped(q.queue, n), 0, q.fAllOk)], added, []);
            Core(s)
  {
    var n := BatchSize(q);
    var th := Working(Popped(q.queue, n), 0, q.fAllOk);
    ThreadCounts(threads, t, th);
    BatchesPassSplit(threads, t, th);
    AllPassPopped(q.queue, n);
    assert th.batch[..0] == [];
  }

  /** Waking sleepers keeps everything but the sleepers' notification flags. */
  lemma {:induction false} WakeKeeps(s: System, wake: set<nat>)
    requires Core(s)
    ensures var w := s.(threads := Wake(s.threads, wake));
            Core(w)
  {
    WakeCounts(s.threads, wake);
  }

  /** Core speaks about the present round only. */
  lemma {:induction false} CoreIgnoresResults(s: System, results: seq<(seq<Check>, bool)>)
    requires Core(s)
    ensures Core(s.(results := results))
  {
  }

  lemma {:induction false} SectionCore(s: System, t: nat)
    requires Inv(s) && Enabled(s, StepSection(t))
    ensures Core(AfterSection(s, t))
    ensures t == MASTER && s.q.nTodo >= 0 ==> ResultsRight(AfterSection(s, t))
  {
    hide Core; hide Sum; hide AllPass;
    var q1, threads := Arrive(s.q, ArrivalOf(s.threads[t])), s.threads[t := Entering];
    ArriveKeeps(s, t);
    var (q, departure, notify) := Section(s.q, t == MASTER, ArrivalOf(s.threads[t]));
    var th := match departure
              case Sleep => Sleeping(false)
              case Return(_) => Outside
              case Work(batch, fOk) => Working(batch, 0, fOk);
    assert threads[t := th] == s.threads[t := th];
    var bare := System(q, s.threads[t := th], if departure.Return? then [] else s.added, []);
    match departure {
      case Sleep => SleepKeeps(q1, threads, s.added, t);
      case Return(_) => ReturnKeeps(q1, threads, s.added, t);
      case Work(_, _) => WorkKeeps(q1, threads, s.added, t);
    }
    hide Core;
    WakeKeeps(bare, {MASTER});
    var r := AfterSection(s, t);
    CoreIgnoresResults(if notify then bare.(threads := Wake(bare.threads, {MASTER})) else bare, r.results);
  }

  lemma {:induction false} SectionKeepsInv(s: System, t: nat)
    requires Inv(s) && Enabled(s, StepSection(t))
    ensures Inv(Next(s, StepSection(t)))
  {
    SectionCore(s, t);
    hide Sum; hide AllPass; hide BatchOk;
    var r := AfterSection(s, t);
    assert r.q.nTodo >= 0;
    hide Core;
    assert t != MASTER ==> r.results == s.results;
    assert MasterSafe(r) by {
      if r.threads[MASTER] == Sleeping(false) && t != MASTER {
        assert s.threads[MASTER] == Sleeping(false);
      }
    }
  }

  lemma {:induction false} StepKeepsInv(s: System, step: Step)
    requires Inv(s) && Enabled(s, step)
    ensures Inv(Next(s, step))
  {
    match step {
      case StepAdd(vChecks, wake) => AddKeepsInv(s, vChecks, wake);
      case StepEnter(t) => EnterKeepsInv(s, t);
      case StepRun(t) => RunKeepsInv(s, t);
      case StepSection(t) => SectionKeepsInv(s, t);
    }
  }

  // ------------------------------------------------------------ runs

  /** A run: any interleaving of enabled steps of any number of threads. */
  ghost predicate IsRun(states: seq<System>, steps: seq<Step>, nBatchSize: nat, workers: set<nat>) {
    && |states| == |steps| + 1 && states[0] == Initial(nBatchSize, workers)
    && forall i :: 0 <= i < |steps| ==> Enabled(states[i], steps[i]) && states[i + 1] == Next(states[i], steps[i])
  }

  /** Everything the master has added so far. */
  function AllAdded(steps: seq<Step>): seq<Check> {
    if steps == [] then []
    else
      var last := steps[|steps| - 1];
      AllAdded(steps[..|steps| - 1]) + if last.StepAdd? then last.vChecks else []
  }

  /** Everything the Wait calls so far were about. */
  function AllWaited(results: seq<(seq<Check>, bool)>): seq<Check> {
    if results == [] then [] else AllWaited(results[..|results| - 1]) + results[|results| - 1].0
  }

  lemma {:induction false} NextAccounts(s: System, step: Step)
    requires Enabled(s, step)
    ensures AllWaited(Next(s, step).results) + Next(s, step).added ==
            AllWaited(s.results) + s.added + if step.StepAdd? then step.vChecks else []
  {
    var r := Next(s, step);
    if r.results != s.results {
      assert r.results == s.results + [(s.added, r.results[|s.results|].1)];
      assert r.results[..|s.results|] == s.results;
    }
  }

  /** In every state of every run: the counters are exact, every Wait has returned exactly the
      conjunction of the checks added since the Wait before it, and the rounds partition the checks
      in the order in which they were added, so that nothing leaks from one round into another. */
  lemma {:induction false} EveryRun(states: seq<System>, steps: seq<Step>, nBatchSize: nat, workers: set<nat>, i: nat)
    requires IsRun(states, steps, nBatchSize, workers) && i < |states|
    ensures Inv(states[i])
    ensures forall k :: 0 <= k < |states[i].results| ==> (states[i].results[k].1 <==> AllPass(states[i].results[k].0))
    ensures AllWaited(states[i].results) + states[i].added == AllAdded(steps[..i])
  {
    if i == 0 {
      InitialInv(nBatchSize, workers);
    } else {
      EveryRun(states, steps, nBatchSize, workers, i - 1);
      StepKeepsInv(states[i - 1], steps[i - 1]);
      NextAccounts(states[i - 1], steps[i - 1]);
      assert steps[..i][..i - 1] == steps[..i - 1];
    }
  }

  /** What CCheckQueueControl asserts holds whenever nothing has been added since the last Wait. */
  lemma {:induction false} ControlAssertionsHold(s: System)
    requires Inv(s) && s.added == []
    ensures s.q.nTotal == s.q.nIdle && s.q.nTodo == 0 && s.q.fAllOk
  {
    NoLoadNoWork(s.threads, s.q.fAllOk);
  }

  /** nTotal - nIdle is the number of threads that hold a batch. */
  lemma {:induction false} BusyThreads(s: System)
    requires Inv(s)
    ensures s.q.nTotal - s.q.nIdle == |BusySet(s.threads)|
  {
    CountIsSum(s.threads);
  }

  function BusySet(threads: map<nat, Thread>): set<nat> { set t | t in threads && threads[t].Working? }

  lemma {:induction false} CountIsSum(threads: map<nat, Thread>)
    ensures Sum(threads, BusyWeight()) == |BusySet(threads)|
    decreases |threads|
  {
    if threads == map[] {
      assert BusySet(threads) == {};
    } else {
      hide Sum;
      var t :| t in threads;
      SumRemove(threads, BusyWeight(), t);
      CountIsSum(threads - {t});
      BusyRemove(threads, t);
    }
  }

  lemma {:induction false} BusyRemove(threads: map<nat, Thread>, t: nat)
    requires t in threads
    ensures |BusySet(threads)| == |BusySet(threads - {t})| + BusyWeight()(threads[t])
  {
    assert BusySet(threads) == BusySet(threads - {t}) + if threads[t].Working? then {t} else {};
  }

  /** A master that sleeps without having been notified has a worker that still holds a batch, and
      nothing is left in the queue. */
  lemma {:induction false} SleepingMasterHasWorker(s: System)
    requires Inv(s) && s.threads[MASTER] == Sleeping(false)
    ensures s.q.queue == [] && exists t :: t in s.threads && t != MASTER && s.threads[t].Working?
  {
    if !exists t :: t in s.threads && t != MASTER && s.threads[t].Working? {
      NothingCounted(s.threads, LoadWeight());
      assert false;
    }
  }

  /** The worker that reports the last outstanding check notifies the master. */
  lemma {:induction false} LastWorkerSignals(s: System, t: nat)
    requires Inv(s) && s.threads[MASTER].Sleeping? && t in s.threads && t != MASTER
    requires s.threads[t].Working? && s.threads[t].done == |s.threads[t].batch| == s.q.nTodo
    ensures Enabled(s, StepSection(t)) && Next(s, StepSection(t)).threads[MASTER] == Sleeping(true)
  {
    SectionEnabled(s, t);
  }

  // ------------------------------------------------------------ Wait returns

  /** A step that is not an idle wake-up: a thread enters, runs a check, or passes through a critical
      section for a reason other than waking without having been notified. */
  predicate Proper(s: System, step: Step) {
    Enabled(s, step) && !step.StepAdd? && (step.StepSection? ==> s.threads[step.t] != Sleeping(false))
  }

  predicate Waiting(s: System) { MASTER in s.threads && !s.threads[MASTER].Outside? }

  /** What a thread can still do by itself before it sleeps. */
  function EffortWeight(): Thread -> nat {
    (th: Thread) =>
      match th
      case Outside => 2
      case Entering => 1
      case Sleeping(notified) => if notified then 1 else 0
      case Working(batch, done, _) => 2 + if done < |batch| then |batch| - done else 0
  }

  /** A bound on the proper steps until Wait returns. */
  ghost function Effort(s: System): nat { 3 * |s.q.queue| + Sum(s.threads, EffortWeight()) }

  /** While Wait is running, some proper step can be taken: no deadlock. */
  lemma {:induction false} CanProceed(s: System) returns (step: Step)
    requires Inv(s) && Waiting(s)
    ensures Proper(s, step)
  {
    var t := MASTER;
    if s.threads[MASTER] == Sleeping(false) {
      SleepingMasterHasWorker(s);
      t :| t in s.threads && t != MASTER && s.threads[t].Working?;
    }
    assert BatchOk(s.threads[t], s.q.fAllOk);
    if s.threads[t].Working? && s.threads[t].done < |s.threads[t].batch| {
      step := StepRun(t);
    } else {
      SectionEnabled(s, t);
      step := StepSection(t);
    }
  }

  /** Notifying the master adds at most one. */
  lemma {:induction false} WakeEffort(threads: map<nat, Thread>)
    ensures Sum(Wake(threads, {MASTER}), EffortWeight()) <= Sum(threads, EffortWeight()) + 1
  {
    var w := Wake(threads, {MASTER});
    if MASTER in threads && threads[MASTER].Sleeping? {
      SumUpdate(threads, EffortWeight(), MASTER, Sleeping(true));
      assert w == threads[MASTER := Sleeping(true)];
    } else {
      assert w == threads;
    }
  }

  /** A critical section either lets Wait return or uses up effort. */
  lemma {:induction false} SectionEffort(s: System, t: nat)
    requires Inv(s) && Waiting(s) && Proper(s, StepSection(t))
    ensures var r := AfterSection(s, t);
            if Waiting(r) then Effort(r) < Effort(s) else |r.results| == |s.results| + 1
  {
    hide Sum; hide AllPass; hide Core;
    var (q, departure, notify) := Section(s.q, t == MASTER, ArrivalOf(s.threads[t]));
    var th := match departure
              case Sleep => Sleeping(false)
              case Return(_) => Outside
              case Work(batch, fOk) => Working(batch, 0, fOk);
    SumUpdate(s.threads, EffortWeight(), t, th);
    WakeEffort(s.threads[t := th]);
    assert EffortWeight()(s.threads[t]) >= 1;
  }

  lemma {:induction false} StepEffort(s: System, step: Step)
    requires Inv(s) && Waiting(s) && Proper(s, step)
    ensures var r := Next(s, step);
            if Waiting(r) then Effort(r) < Effort(s) else |r.results| == |s.results| + 1
  {
    hide Sum; hide Core; hide AfterSection; hide MasterSafe; hide ResultsRight;
    match step {
      case StepSection(t) => SectionEffort(s, t);
      case StepEnter(t) => SumUpdate(s.threads, EffortWeight(), t, Entering);
      case StepRun(t) =>
        var th := s.threads[t];
        SumUpdate(s.threads, EffortWeight(), t, th.(done := th.done + 1, fOk := th.fOk && th.batch[th.done].passes));
    }
  }

  /** A schedule of proper steps during one Wait. */
  ghost predicate IsWait(states: seq<System>, steps: seq<Step>) {
    && |states| == |steps| + 1
    && forall i :: 0 <= i < |steps| ==>
         Waiting(states[i]) && Proper(states[i], steps[i]) && states[i + 1] == Next(states[i], steps[i])
  }

  /** Wait returns: from every reachable state with a waiting master, however the threads are scheduled
      and whichever workers slept through their notifications, after at most Effort + 1 proper steps
      the master has its result; until then there always is a proper step to take. */
  lemma {:induction false} WaitReturns(states: seq<System>, steps: seq<Step>)
    requires IsWait(states, steps) && Inv(states[0]) && Waiting(states[0])
    ensures |steps| <= Effort(states[0]) + 1
    ensures var last := states[|steps|];
            && Inv(last)
            && if Waiting(last) then |steps| + Effort(last) <= Effort(states[0]) && exists step :: Proper(last, step)
               else |steps| > 0 && |last.results| == |states[|steps| - 1].results| + 1
    decreases |steps|
  {
    hide Inv; hide Effort; hide Proper; hide Next;
    var n := |steps|;
    if n > 0 {
      assert IsWait(states[..n], steps[..n - 1]);
      WaitReturns(states[..n], steps[..n - 1]);
      ProperEnabled(states[n - 1], steps[n - 1]);
      StepKeepsInv(states[n - 1], steps[n - 1]);
      StepEffort(states[n - 1], steps[n - 1]);
    }
    if Waiting(states[n]) { var step := CanProceed(states[n]); }
  }

  lemma {:induction false} ProperEnabled(s: System, step: Step)
    requires Proper(s, step)
    ensures Enabled(s, step)
  {
  }

  // ------------------------------------------------------------ batches

  /** The size of a batch: no more than nBatchSize, and no more than an equal share of the queue among all
      threads there are and one more, but at least one check; and the largest such. */
  lemma {:induction false} FairShare(q: Shared)
    requires q.nTotal + q.nIdle + 1 > 0 && q.queue != []
    ensures var n, share := BatchSize(q), q.nTotal + q.nIdle + 1;
            && (n == 1 || (n <= q.nBatchSize && n * share <= |q.queue|))
            && (n >= q.nBatchSize || (n + 1) * share > |q.queue|)
  {
    BatchBound(|q.queue|, q.nTotal + q.nIdle + 1);
    Shares(|q.queue|, q.nTotal + q.nIdle + 1, q.nBatchSize, BatchSize(q));
  }

  lemma {:induction false} Shares(size: nat, share: nat, most: nat, n: nat)
    requires share > 0 && n == Max(1, Min(most, size / share))
    ensures n == 1 || (n <= most && n * share <= size)
    ensures n >= most || (n + 1) * share > size
  {
    var d, r := size / share, size % share;
    assert size == share * d + r && r < share;
    if n > 1 { MoreShares(d, n, share); }
    if n < most {
      MoreShares(n + 1, d + 1, share);
      assert (d + 1) * share == d * share + share;
    }
  }

  lemma {:induction false} MoreShares(a: int, b: int, share: nat)
    requires a >= b
    ensures a * share >= b * share
  {
  }

  /** No thread holds more than the batch size allows. */
  ghost predicate BatchesBounded(s: System) {
    forall t :: t in s.threads && s.threads[t].Working? ==> |s.threads[t].batch| <= Max(1, s.q.nBatchSize)
  }

  lemma {:induction false} StepKeepsBound(s: System, step: Step)
    requires Enabled(s, step) && BatchesBounded(s)
    ensures BatchesBounded(Next(s, step)) && Next(s, step).q.nBatchSize == s.q.nBatchSize
  {
    hide Sum;
  }

  /** In every state of every run no batch exceeds the batch size the queue was made with. */
  lemma {:induction false} EveryBatchBounded(states: seq<System>, steps: seq<Step>, nBatchSize: nat, workers: set<nat>,
                                             i: nat)
    requires IsRun(states, steps, nBatchSize, workers) && i < |states|
    ensures states[i].q.nBatchSize == nBatchSize
    ensures forall t :: t in states[i].threads && states[i].threads[t].Working? ==>
              |states[i].threads[t].batch| <= Max(1, nBatchSize)
  {
    hide Enabled; hide Next;
    BoundedSoFar(states, steps, nBatchSize, workers, i);
  }

  lemma {:induction false} BoundedSoFar(states: seq<System>, steps: seq<Step>, nBatchSize: nat, workers: set<nat>,
                                        i: nat)
    requires IsRun(states, steps, nBatchSize, workers) && i < |states|
    ensures states[i].q.nBatchSize == nBatchSize && BatchesBounded(states[i])
  {
    hide Enabled; hide Next;
    if i > 0 {
      BoundedSoFar(states, steps, nBatchSize, workers, i - 1);
      StepKeepsBound(states[i - 1], steps[i - 1]);
    }
  }
}
