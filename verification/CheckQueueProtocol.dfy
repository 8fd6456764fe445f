// All interleavings of the script-check queue.  Thread 0 is the master; it
// adds batches while it is outside the loop and then waits inside it.
module CheckQueueProtocol {
  import opened Basics
  import opened CheckQueue

  /** Where a thread is. */
  datatype Pc =
    | Outside
    | Working(batch: seq<Check>, next: nat, ok: bool)
    | Waiting
    | Woken

  {
    predicate Inside()
    {
      !Outside?
    }

    predicate Idle()
    {
      Waiting? || Woken?
    }
  }

  datatype Round = Round(verdict: bool, checks: multiset<Check>)

  /**
   * `added` and `finished` are the checks added, and the checks credited to
   * `nTodo`, since the master last returned; `rounds` records each return.
   */
  datatype Sys = Sys(q: Shared, threads: seq<Pc>, limit: nat,
                     added: multiset<Check>, finished: multiset<Check>, rounds: seq<Round>)

  datatype Step =
    | Add(checks: seq<Check>, woken: set<nat>)
    | Begin(t: nat)
    | Exec(t: nat)
    | Finish(t: nat)
    | Resume(t: nat)
    | Spurious(t: nat)

  // ----- the steps -----

  function Wake(threads: seq<Pc>, woken: set<nat>): seq<Pc>
  {
    seq(|threads|, i requires 0 <= i < |threads| => if i in woken && threads[i].Waiting? then Woken else threads[i])
  }

  predicate IsWaitingWorker(s: Sys, t: nat)
  {
    0 < t < |s.threads| && s.threads[t].Waiting?
  }

  /** `notify_one` wakes one waiting worker if there is any, `notify_all` all of them. */
  predicate NotifyOk(s: Sys, n: nat, woken: set<nat>)
  {
    && (forall t :: t in woken ==> IsWaitingWorker(s, t))
    && (n == 0 ==> woken == {})
    && (n == 1 ==> if exists t: nat :: t < |s.threads| && IsWaitingWorker(s, t) then |woken| == 1 else woken == {})
    && (n > 1 ==> forall t: nat :: t < |s.threads| && IsWaitingWorker(s, t) ==> t in woken)
  }

  predicate Enabled(s: Sys, step: Step)
  {
    match step
    case Add(checks, woken) => |s.threads| > 0 && s.threads[0].Outside? && NotifyOk(s, |checks|, woken)
    case Begin(t) => t < |s.threads| && s.threads[t].Outside?
    case Exec(t) => t < |s.threads| && s.threads[t].Working? && s.threads[t].next < |s.threads[t].batch|
    case Finish(t) => t < |s.threads| && s.threads[t].Working? && s.threads[t].next >= |s.threads[t].batch|
    case Resume(t) => t < |s.threads| && s.threads[t].Woken?
    case Spurious(t) => t < |s.threads| && s.threads[t].Waiting?
  }

  /** The state after thread `t` scanned the queue, starting from the fields `q`. */
  function AfterScan(s: Sys, t: nat, q: Shared): Sys
    requires t < |s.threads| && q.nTotal + q.nIdle + 1 > 0
  {
    var (q', outcome) := Scan(q, t == 0, s.limit);
    match outcome
    case Return(verdict) =>
      s.(q := q', threads := s.threads[t := Outside],
         added := multiset{}, finished := multiset{}, rounds := s.rounds + [Round(verdict, s.added)])
    case Sleep => s.(q := q', threads := s.threads[t := Waiting])
    case Take(batch, ok) => s.(q := q', threads := s.threads[t := Working(batch, 0, ok)])
  }

  /** The batch of `t` is credited, and the master is notified if a worker finished the last check. */
  function WithBatchDone(s: Sys, t: nat): Sys
    requires Enabled(s, Finish(t))
  {
    var q := Credited(s.q, |s.threads[t].batch|, s.threads[t].ok);
    s.(finished := s.finished + multiset(s.threads[t].batch),
       threads := if q.nTodo == 0 && t != 0 then Wake(s.threads, {0}) else s.threads)
  }

  /** The divisor of the batch size is positive. */
  predicate CanScan(s: Sys, step: Step)
  {
    s.q.nTotal >= 0 && s.q.nIdle >= 0 && (step.Resume? ==> s.q.nTotal + s.q.nIdle > 0)
  }

  function Next(s: Sys, step: Step): Sys
    requires Enabled(s, step) && CanScan(s, step)
  {
    match step
    case Add(checks, woken) =>
      s.(q := s.q.(queue := s.q.queue + checks, nTodo := s.q.nTodo + |checks|),
         threads := Wake(s.threads, woken), added := s.added + multiset(checks))
    case Begin(t) => AfterScan(s, t, Joined(s.q))
    case Exec(t) =>
      var w := s.threads[t];
      s.(threads := s.threads[t := w.(next := w.next + 1, ok := w.ok && w.batch[w.next].passes)])
    case Finish(t) =>
      AfterScan(WithBatchDone(s, t), t, Credited(s.q, |s.threads[t].batch|, s.threads[t].ok))
    case Resume(t) => AfterScan(s, t, Roused(s.q))
    case Spurious(t) => s.(threads := s.threads[t := Woken])
  }

  // ----- sums over threads -----

  function Weigh(threads: seq<Pc>, f: Pc -> int): int
  {
    if threads == [] then 0 else Weigh(threads[..|threads| - 1], f) + f(threads[|threads| - 1])
  }

  function BatchOf(pc: Pc): multiset<Check>
  {
    if pc.Working? then multiset(pc.batch) else multiset{}
  }

  function InFlight(threads: seq<Pc>): multiset<Check>
  {
    if threads == [] then multiset{}
    else InFlight(threads[..|threads| - 1]) + BatchOf(threads[|threads| - 1])
  }

  lemma {:induction false} WeighUpdate(threads: seq<Pc>, f: Pc -> int, t: nat, pc: Pc)
    requires t < |threads|
    ensures Weigh(threads[t := pc], f) == Weigh(threads, f) - f(threads[t]) + f(pc)
  {
    var k := |threads| - 1;
    if t == k {
      assert threads[t := pc][..k] == threads[..k];
    } else {
      WeighUpdate(threads[..k], f, t, pc);
      assert threads[t := pc][..k] == threads[..k][t := pc];
    }
  }

  lemma AddToBoth(a: multiset<Check>, b: multiset<Check>, c: multiset<Check>, d: multiset<Check>, e: multiset<Check>)
    requires a + b == c + d
    ensures (a + e) + b == (c + e) + d
  {
    assert (a + e) + b == (a + b) + e;
  }

  lemma SwapLast(a: multiset<Check>, b: multiset<Check>, c: multiset<Check>)
    ensures (a + b) + c == (a + c) + b
  {
  }

  lemma InFlightLast(threads: seq<Pc>)
    requires threads != []
    ensures InFlight(threads) == InFlight(threads[..|threads| - 1]) + BatchOf(threads[|threads| - 1])
  {
  }

  lemma {:induction false} InFlightUpdate(threads: seq<Pc>, t: nat, pc: Pc)
    requires t < |threads|
    ensures InFlight(threads[t := pc]) + BatchOf(threads[t]) == InFlight(threads) + BatchOf(pc)
  {
    hide InFlight, BatchOf;
    var k := |threads| - 1;
    InFlightLast(threads);
    InFlightLast(threads[t := pc]);
    if t == k {
      assert threads[t := pc][..k] == threads[..k];
      SwapLast(InFlight(threads[..k]), BatchOf(pc), BatchOf(threads[k]));
    } else {
      InFlightUpdate(threads[..k], t, pc);
      assert threads[t := pc][..k] == threads[..k][t := pc];
      AddToBoth(InFlight(threads[..k][t := pc]), BatchOf(threads[t]), InFlight(threads[..k]), BatchOf(pc), BatchOf(threads[k]));
    }
  }

  // Waking threads changes nothing that does not tell sleeping from waking.
  lemma {:induction false} WeighWake(threads: seq<Pc>, f: Pc -> int, woken: set<nat>)
    requires f(Waiting) == f(Woken)
    ensures Weigh(Wake(threads, woken), f) == Weigh(threads, f)
  {
    if threads != [] {
      var k := |threads| - 1;
      WeighWake(threads[..k], f, woken);
      assert Wake(threads, woken)[..k] == Wake(threads[..k], woken);
    }
  }

  ghost predicate SameFlight(a: seq<Pc>, b: seq<Pc>)
  {
    InFlight(a) == InFlight(b)
  }

  lemma SameFlightLast(a: seq<Pc>, b: seq<Pc>)
    requires a != [] && b != [] && SameFlight(a[..|a| - 1], b[..|b| - 1]) && BatchOf(a[|a| - 1]) == BatchOf(b[|b| - 1])
    ensures SameFlight(a, b)
  {
    InFlightLast(a);
    InFlightLast(b);
  }

  lemma SameFlightSelf(threads: seq<Pc>)
    ensures SameFlight(threads, threads)
  {
  }

  lemma {:induction false} InFlightWake(threads: seq<Pc>, woken: set<nat>)
    ensures SameFlight(Wake(threads, woken), threads)
  {
    hide SameFlight;
    if threads == [] {
      assert Wake(threads, woken) == threads;
      SameFlightSelf(threads);
    } else {
      var k := |threads| - 1;
      InFlightWake(threads[..k], woken);
      assert Wake(threads, woken)[..k] == Wake(threads[..k], woken);
      SameFlightLast(Wake(threads, woken), threads);
    }
  }

  lemma {:induction false} WeighBounds(threads: seq<Pc>, f: Pc -> int, t: nat)
    requires forall pc :: f(pc) >= 0
    ensures Weigh(threads, f) >= 0
    ensures t < |threads| ==> f(threads[t]) <= Weigh(threads, f)
  {
    if threads != [] {
      WeighBounds(threads[..|threads| - 1], f, t);
    }
  }

  // ----- the invariant -----

  function InsideOf(pc: Pc): int
  {
    if pc.Inside() then 1 else 0
  }

  function IdleOf(pc: Pc): int
  {
    if pc.Idle() then 1 else 0
  }

  function LoadOf(pc: Pc): int
  {
    if pc.Working? then |pc.batch| else 0
  }

  predicate AllPass(checks: multiset<Check>)
  {
    forall c :: c in checks ==> c.passes
  }

  predicate ThreadOk(s: Sys, t: nat)
    requires t < |s.threads|
  {
    var pc := s.threads[t];
    pc.Working? ==>
      && pc.batch != [] && pc.next <= |pc.batch|
      && (pc.ok ==> forall i :: 0 <= i < pc.next ==> pc.batch[i].passes)
      && (!pc.ok ==> !AllPass(s.added))
  }

  /** The counters are what their comments say. */
  ghost predicate Counted(s: Sys)
  {
    && s.q.nTotal == Weigh(s.threads, InsideOf)
    && s.q.nIdle == Weigh(s.threads, IdleOf)
    && s.q.nTodo == |s.q.queue| + Weigh(s.threads, LoadOf)
  }

  ghost predicate Inv(s: Sys)
  {
    && |s.threads| > 0
    && Counted(s)
    // Every check added is in the queue, with one thread, or done: none is lost or popped twice.
    && s.added == multiset(s.q.queue) + InFlight(s.threads) + s.finished
    && (if s.q.allOk then AllPass(s.finished) else !AllPass(s.added))
    && (forall t :: 0 <= t < |s.threads| ==> ThreadOk(s, t))
    // The master sleeps only while checks are still being carried out elsewhere.
    && (s.threads[0].Idle() ==> s.q.queue == [])
    && (s.threads[0].Waiting? ==> s.q.nTodo > 0)
    && (forall i :: 0 <= i < |s.rounds| ==> (s.rounds[i].verdict <==> AllPass(s.rounds[i].checks)))
  }

  // ----- every step keeps the invariant -----

  lemma {:induction false} InFlightSize(threads: seq<Pc>)
    ensures |InFlight(threads)| == Weigh(threads, LoadOf)
  {
    if threads != [] {
      InFlightSize(threads[..|threads| - 1]);
    }
  }

  /** Thread `t` holds the mutex, counted as inside and awake, with nothing in hand, and the fields are `q`. */
  ghost predicate PreScan(s: Sys, t: nat, q: Shared)
  {
    && t < |s.threads|
    && q.nTotal == Weigh(s.threads[t := Outside], InsideOf) + 1
    && q.nIdle == Weigh(s.threads[t := Outside], IdleOf)
    && q.nTodo == |q.queue| + Weigh(s.threads[t := Outside], LoadOf)
    && s.added == multiset(q.queue) + InFlight(s.threads[t := Outside]) + s.finished
    && (if q.allOk then AllPass(s.finished) else !AllPass(s.added))
    && (forall u :: 0 <= u < |s.threads| && u != t ==> ThreadOk(s, u))
    && (t != 0 && s.threads[0].Idle() ==> q.queue == [])
    && (t != 0 && s.threads[0].Waiting? ==> q.nTodo > 0)
    && (forall i :: 0 <= i < |s.rounds| ==> (s.rounds[i].verdict <==> AllPass(s.rounds[i].checks)))
  }

  lemma CountersNonNegative(threads: seq<Pc>)
    ensures Weigh(threads, InsideOf) >= 0 && Weigh(threads, IdleOf) >= 0 && Weigh(threads, LoadOf) >= 0
  {
    WeighBounds(threads, InsideOf, 0);
    WeighBounds(threads, IdleOf, 0);
    WeighBounds(threads, LoadOf, 0);
  }

  // With nothing left to do, no thread has a batch in hand.
  lemma NothingInFlight(threads: seq<Pc>)
    requires Weigh(threads, LoadOf) == 0
    ensures InFlight(threads) == multiset{}
    ensures forall u :: 0 <= u < |threads| && threads[u].Working? ==> threads[u].batch == []
  {
    InFlightSize(threads);
    forall u | 0 <= u < |threads| && threads[u].Working?
      ensures threads[u].batch == []
    {
      WeighBounds(threads, LoadOf, u);
    }
  }

  lemma SetThread(s: Sys, t: nat, pc: Pc)
    requires t < |s.threads|
    ensures var before, after := s.threads[t := Outside], s.threads[t := pc];
            && Weigh(after, InsideOf) == Weigh(before, InsideOf) + InsideOf(pc)
            && Weigh(after, IdleOf) == Weigh(before, IdleOf) + IdleOf(pc)
            && Weigh(after, LoadOf) == Weigh(before, LoadOf) + LoadOf(pc)
            && InFlight(after) == InFlight(before) + BatchOf(pc)
  {
    var before := s.threads[t := Outside];
    assert before[t := pc] == s.threads[t := pc];
    WeighUpdate(before, InsideOf, t, pc);
    WeighUpdate(before, IdleOf, t, pc);
    WeighUpdate(before, LoadOf, t, pc);
    InFlightUpdate(before, t, pc);
  }

  lemma ReturnKeepsInv(s: Sys, t: nat, q: Shared)
    requires PreScan(s, t, q) && q.queue == [] && t == 0 && q.nTodo == 0
    requires q.nTotal + q.nIdle + 1 > 0
    ensures Inv(AfterScan(s, t, q))
  {
    SetThread(s, t, Outside);
    NothingInFlight(s.threads[t := Outside]);
    assert s.added == s.finished;
    var s' := AfterScan(s, t, q);
    forall u | 0 <= u < |s'.threads| ensures ThreadOk(s', u) {
      assert s'.threads[u] == s.threads[t := Outside][u];
      assert u != t ==> ThreadOk(s, u);
    }
  }

  // The others go on as before.
  lemma ThreadsStayOk(s: Sys, s': Sys, t: nat, pc: Pc)
    requires t < |s.threads| && s'.threads == s.threads[t := pc] && s'.added == s.added && ThreadOk(s', t)
    requires forall u :: 0 <= u < |s.threads| && u != t ==> ThreadOk(s, u)
    ensures forall u :: 0 <= u < |s'.threads| ==> ThreadOk(s', u)
  {
    hide AllPass;
    forall u | 0 <= u < |s'.threads| ensures ThreadOk(s', u) {
      assert u != t ==> ThreadOk(s, u);
    }
  }

  lemma SleepKeepsInv(s: Sys, t: nat, q: Shared)
    requires PreScan(s, t, q) && q.queue == [] && (t != 0 || q.nTodo != 0)
    requires q.nTotal + q.nIdle + 1 > 0
    ensures Inv(AfterScan(s, t, q))
  {
    hide Weigh, InFlight, AllPass;
    SetThread(s, t, Waiting);
    CountersNonNegative(s.threads[t := Outside]);
    ThreadsStayOk(s, AfterScan(s, t, q), t, Waiting);
    hide ThreadOk;
  }

  lemma TakenFromQueue(queue: seq<Check>, left: nat)
    requires left <= |queue|
    ensures multiset(queue) == multiset(queue[..left]) + multiset(Reversed(queue[left..]))
  {
    ReversedSame(queue[left..]);
    assert queue == queue[..left] + queue[left..];
  }

  lemma MoveToBatch(added: multiset<Check>, left: multiset<Check>, batch: multiset<Check>, rest: multiset<Check>, finished: multiset<Check>)
    requires added == left + batch + rest + finished
    ensures added == left + (rest + batch) + finished
  {
  }

  lemma TakeKeepsInv(s: Sys, t: nat, q: Shared)
    requires PreScan(s, t, q) && q.queue != []
    requires q.nTotal + q.nIdle + 1 > 0
    ensures Inv(AfterScan(s, t, q))
  {
    hide Weigh, InFlight, AllPass, Reversed;
    var left := |q.queue| - BatchSize(q, s.limit);
    var batch := Reversed(q.queue[left..]);
    var rest := s.threads[t := Outside];
    SetThread(s, t, Working(batch, 0, q.allOk));
    TakenFromQueue(q.queue, left);
    MoveToBatch(s.added, multiset(q.queue[..left]), multiset(batch), InFlight(rest), s.finished);
    ThreadsStayOk(s, AfterScan(s, t, q), t, Working(batch, 0, q.allOk));
    hide ThreadOk;
  }

  lemma ScanKeepsInv(s: Sys, t: nat, q: Shared)
    requires PreScan(s, t, q)
    ensures q.nTotal + q.nIdle + 1 > 0 && Inv(AfterScan(s, t, q))
  {
    CountersNonNegative(s.threads[t := Outside]);
    if q.queue != [] {
      TakeKeepsInv(s, t, q);
    } else if t == 0 && q.nTodo == 0 {
      ReturnKeepsInv(s, t, q);
    } else {
      SleepKeepsInv(s, t, q);
    }
  }

  lemma BeginKeepsInv(s: Sys, t: nat)
    requires Inv(s) && Enabled(s, Begin(t))
    ensures PreScan(s, t, Joined(s.q))
  {
    hide Weigh, InFlight, AllPass;
    assert s.threads[t := Outside] == s.threads;
  }

  lemma ResumeKeepsInv(s: Sys, t: nat)
    requires Inv(s) && Enabled(s, Resume(t))
    ensures s.q.nTotal > 0 && PreScan(s, t, Roused(s.q))
  {
    hide Weigh, InFlight, AllPass;
    SetThread(s, t, Woken);
    assert s.threads[t := Woken] == s.threads;
    CountersNonNegative(s.threads[t := Outside]);
  }

  lemma MoveToFinished(added: multiset<Check>, queue: multiset<Check>, rest: multiset<Check>, batch: multiset<Check>, finished: multiset<Check>)
    requires added == queue + (rest + batch) + finished
    ensures added == queue + rest + (finished + batch)
  {
  }

  lemma FinishCounters(s: Sys, t: nat)
    requires Inv(s) && Enabled(s, Finish(t))
    ensures var s1, q := WithBatchDone(s, t), Credited(s.q, |s.threads[t].batch|, s.threads[t].ok);
            var rest := s1.threads[t := Outside];
            && q.nTotal == Weigh(rest, InsideOf) + 1
            && q.nIdle == Weigh(rest, IdleOf)
            && q.nTodo == |q.queue| + Weigh(rest, LoadOf)
            && s1.added == multiset(q.queue) + InFlight(rest) + s1.finished
  {
    hide Weigh, InFlight, AllPass;
    var w := s.threads[t];
    var s1 := WithBatchDone(s, t);
    SetThread(s, t, w);
    assert s.threads[t := w] == s.threads;
    var rest := s.threads[t := Outside];
    if s1.threads != s.threads {
      assert s1.threads[t := Outside] == Wake(rest, {0});
      WeighWake(rest, InsideOf, {0});
      WeighWake(rest, IdleOf, {0});
      WeighWake(rest, LoadOf, {0});
      InFlightWake(rest, {0});
    }
    MoveToFinished(s.added, multiset(s.q.queue), InFlight(rest), multiset(w.batch), s.finished);
  }

  lemma AllPassUnion(finished: multiset<Check>, batch: multiset<Check>)
    ensures AllPass(finished + batch) <==> AllPass(finished) && AllPass(batch)
  {
    if AllPass(finished + batch) {
      assert forall c :: c in finished ==> c in finished + batch;
      assert forall c :: c in batch ==> c in finished + batch;
    }
  }

  lemma FinishVerdict(s: Sys, t: nat)
    requires Inv(s) && Enabled(s, Finish(t))
    ensures var s1, q := WithBatchDone(s, t), Credited(s.q, |s.threads[t].batch|, s.threads[t].ok);
            if q.allOk then AllPass(s1.finished) else !AllPass(s1.added)
  {
    hide Weigh, InFlight;
    var w := s.threads[t];
    assert ThreadOk(s, t);
    AllPassUnion(s.finished, multiset(w.batch));
    assert w.ok ==> AllPass(multiset(w.batch));
  }

  lemma FinishKeepsInv(s: Sys, t: nat)
    requires Inv(s) && Enabled(s, Finish(t))
    ensures PreScan(WithBatchDone(s, t), t, Credited(s.q, |s.threads[t].batch|, s.threads[t].ok))
  {
    hide Weigh, InFlight, AllPass;
    FinishCounters(s, t);
    FinishVerdict(s, t);
    var s1 := WithBatchDone(s, t);
    assert |s1.threads| == |s.threads| && 0 in {0};
    assert s1.threads[0].Idle() <==> s.threads[0].Idle();
    assert s.q.nTodo - |s.threads[t].batch| == 0 && t != 0 ==> !s1.threads[0].Waiting?;
    assert Weigh(s1.threads[t := Outside], LoadOf) >= 0 by {
      CountersNonNegative(s1.threads[t := Outside]);
    }
    forall u | 0 <= u < |s1.threads| && u != t ensures ThreadOk(s1, u) {
      assert ThreadOk(s, u);
    }
  }

  lemma AddedToQueue(added: multiset<Check>, queue: seq<Check>, rest: multiset<Check>, finished: multiset<Check>, checks: seq<Check>)
    requires added == multiset(queue) + rest + finished
    ensures added + multiset(checks) == multiset(queue + checks) + rest + finished
  {
  }

  lemma AddKeepsInv(s: Sys, checks: seq<Check>, woken: set<nat>)
    requires Inv(s) && Enabled(s, Add(checks, woken)) && CanScan(s, Add(checks, woken))
    ensures Inv(Next(s, Add(checks, woken)))
  {
    hide Weigh, InFlight, NotifyOk;
    CountersNonNegative(s.threads);
    var s' := Next(s, Add(checks, woken));
    WeighWake(s.threads, InsideOf, woken);
    WeighWake(s.threads, IdleOf, woken);
    WeighWake(s.threads, LoadOf, woken);
    InFlightWake(s.threads, woken);
    AddedToQueue(s.added, s.q.queue, InFlight(s.threads), s.finished, checks);
    AllPassUnion(s.added, multiset(checks));
    forall u | 0 <= u < |s'.threads| ensures ThreadOk(s', u) {
      assert ThreadOk(s, u);
    }
  }

  /** The threads count the same and hold the same checks. */
  ghost predicate SameWork(threads: seq<Pc>, threads': seq<Pc>)
  {
    && Weigh(threads', InsideOf) == Weigh(threads, InsideOf) && Weigh(threads', IdleOf) == Weigh(threads, IdleOf)
    && Weigh(threads', LoadOf) == Weigh(threads, LoadOf) && InFlight(threads') == InFlight(threads)
  }

  // Carrying out a check moves no counter.
  lemma ExecWeights(s: Sys, t: nat)
    requires Enabled(s, Exec(t)) && CanScan(s, Exec(t))
    ensures SameWork(s.threads, Next(s, Exec(t)).threads)
  {
    hide Weigh, InFlight;
    var threads' := Next(s, Exec(t)).threads;
    SetThread(s, t, s.threads[t]);
    SetThread(s, t, threads'[t]);
    assert s.threads[t := s.threads[t]] == s.threads && s.threads[t := threads'[t]] == threads';
  }

  // A failing check of the batch was added, so not all that was added passes.
  lemma ExecThreads(s: Sys, t: nat)
    requires Enabled(s, Exec(t)) && CanScan(s, Exec(t)) && BatchOf(s.threads[t]) <= s.added
    requires forall u :: 0 <= u < |s.threads| ==> ThreadOk(s, u)
    ensures forall u :: 0 <= u < |s.threads| ==> ThreadOk(Next(s, Exec(t)), u)
  {
    var w, s' := s.threads[t], Next(s, Exec(t));
    assert w.batch[w.next] in multiset(w.batch);
    forall u | 0 <= u < |s.threads| ensures ThreadOk(s', u) {
      assert ThreadOk(s, u);
    }
  }

  lemma BatchIsAdded(s: Sys, t: nat)
    requires Inv(s) && t < |s.threads|
    ensures BatchOf(s.threads[t]) <= s.added
  {
    InFlightUpdate(s.threads, t, Outside);
    assert InFlight(s.threads) == InFlight(s.threads[t := Outside]) + BatchOf(s.threads[t]);
  }

  lemma ExecKeepsInv(s: Sys, t: nat)
    requires Inv(s) && Enabled(s, Exec(t)) && CanScan(s, Exec(t))
    ensures Inv(Next(s, Exec(t)))
  {
    hide Weigh, InFlight, AllPass, ThreadOk;
    ExecWeights(s, t);
    BatchIsAdded(s, t);
    ExecThreads(s, t);
  }

  lemma SpuriousKeepsInv(s: Sys, t: nat)
    requires Inv(s) && Enabled(s, Spurious(t)) && CanScan(s, Spurious(t))
    ensures Inv(Next(s, Spurious(t)))
  {
    hide Weigh, InFlight, AllPass;
    CountersNonNegative(s.threads);
    var s' := Next(s, Spurious(t));
    SetThread(s, t, Waiting);
    SetThread(s, t, Woken);
    assert s.threads[t := Waiting] == s.threads;
    forall u | 0 <= u < |s'.threads| ensures ThreadOk(s', u) {
      assert ThreadOk(s, u);
    }
  }

  lemma InvCounters(s: Sys)
    requires Inv(s)
    ensures s.q.nTotal >= 0 && s.q.nIdle >= 0
  {
    CountersNonNegative(s.threads);
  }

  lemma StepKeepsInv(s: Sys, step: Step)
    requires Inv(s) && Enabled(s, step)
    ensures CanScan(s, step) && Inv(Next(s, step))
  {
    hide Inv, PreScan, AfterScan, WithBatchDone;
    InvCounters(s);
    match step
    case Add(checks, woken) => AddKeepsInv(s, checks, woken);
    case Begin(t) => BeginKeepsInv(s, t); ScanKeepsInv(s, t, Joined(s.q));
    case Exec(t) => ExecKeepsInv(s, t);
    case Finish(t) =>
      FinishKeepsInv(s, t);
      ScanKeepsInv(WithBatchDone(s, t), t, Credited(s.q, |s.threads[t].batch|, s.threads[t].ok));
    case Resume(t) => ResumeKeepsInv(s, t); ScanKeepsInv(s, t, Roused(s.q));
    case Spurious(t) => SpuriousKeepsInv(s, t);
  }

  // ----- runs -----

  function Init(workers: nat, limit: nat): Sys
  {
    Sys(Shared([], 0, 0, true, 0), seq(workers + 1, _ => Outside), limit, multiset{}, multiset{}, [])
  }

  lemma {:induction false} NobodyInside(threads: seq<Pc>)
    requires forall t :: 0 <= t < |threads| ==> threads[t].Outside?
    ensures Weigh(threads, InsideOf) == Weigh(threads, IdleOf) == Weigh(threads, LoadOf) == 0
    ensures InFlight(threads) == multiset{}
  {
    if threads != [] {
      NobodyInside(threads[..|threads| - 1]);
    }
  }

  lemma InitInv(workers: nat, limit: nat)
    ensures Inv(Init(workers, limit))
  {
    NobodyInside(Init(workers, limit).threads);
  }

  ghost predicate StepsTo(s: Sys, step: Step, s': Sys)
  {
    && Enabled(s, step) && CanScan(s, step)
    && s' == Next(s, step)
  }

  /** `run` is a run of the queue: each state follows from the one before by an enabled step. */
  ghost predicate IsRun(run: seq<Sys>, steps: seq<Step>)
  {
    && |run| == |steps| + 1
    && forall i :: 0 <= i < |steps| ==> StepsTo(run[i], steps[i], run[i + 1])
  }

  lemma {:induction false} RunKeepsInv(run: seq<Sys>, steps: seq<Step>, n: nat)
    requires IsRun(run, steps) && Inv(run[0]) && n <= |steps|
    ensures Inv(run[n])
  {
    hide Inv, Next, Enabled;
    if n > 0 {
      RunKeepsInv(run, steps, n - 1);
      assert StepsTo(run[n - 1], steps[n - 1], run[n]);
      StepKeepsInv(run[n - 1], steps[n - 1]);
    }
  }

  // For any number of workers and any interleaving: the counters are exact at
  // every release of the mutex, no check is lost or carried out twice, the
  // master never sleeps with nothing left to do, and each `wait()` answered
  // true exactly when every check added since the last answer passes.
  lemma EveryRunIsRight(workers: nat, limit: nat, run: seq<Sys>, steps: seq<Step>, n: nat)
    requires IsRun(run, steps) && run[0] == Init(workers, limit) && n <= |steps|
    ensures var s := run[n];
            && Counted(s) && |s.threads| > 0
            && s.added == multiset(s.q.queue) + InFlight(s.threads) + s.finished
            && (s.threads[0].Waiting? ==> s.q.nTodo > 0)
            && forall i :: 0 <= i < |s.rounds| ==> (s.rounds[i].verdict <==> AllPass(s.rounds[i].checks))
  {
    InitInv(workers, limit);
    RunKeepsInv(run, steps, n);
  }

  // ----- the idle queue -----

  // Threads inside the loop sleep, have been woken, or have a batch in hand.
  lemma {:induction false} InsideIsIdleOrWorking(threads: seq<Pc>)
    ensures Weigh(threads, InsideOf) >= Weigh(threads, IdleOf)
    ensures Weigh(threads, InsideOf) == Weigh(threads, IdleOf) <==> forall t :: 0 <= t < |threads| ==> !threads[t].Working?
  {
    if threads != [] {
      InsideIsIdleOrWorking(threads[..|threads| - 1]);
    }
  }

  lemma {:induction false} NoBatchNoLoad(threads: seq<Pc>)
    requires forall t :: 0 <= t < |threads| ==> !threads[t].Working?
    ensures Weigh(threads, LoadOf) == 0
  {
    if threads != [] {
      NoBatchNoLoad(threads[..|threads| - 1]);
    }
  }

  // The test answers true exactly when nothing is queued, no thread has a
  // batch in hand, and no check has failed in this round.
  lemma IdleMeans(s: Sys)
    requires Inv(s)
    ensures LooksIdle(s.q) <==>
              s.q.queue == [] && s.q.allOk && forall t :: 0 <= t < |s.threads| ==> !s.threads[t].Working?
  {
    InsideIsIdleOrWorking(s.threads);
    CountersNonNegative(s.threads);
    if forall t :: 0 <= t < |s.threads| ==> !s.threads[t].Working? {
      NoBatchNoLoad(s.threads);
    }
  }

  // In every run, whenever no check was added since the master last returned,
  // the queue is idle: the next user may take it over.
  lemma IdleBetweenRounds(workers: nat, limit: nat, run: seq<Sys>, steps: seq<Step>, n: nat)
    requires IsRun(run, steps) && run[0] == Init(workers, limit) && n <= |steps|
    requires run[n].added == multiset{}
    ensures LooksIdle(run[n].q)
  {
    InitInv(workers, limit);
    RunKeepsInv(run, steps, n);
    var s := run[n];
    assert s.q.queue == [] && InFlight(s.threads) == multiset{} by {
      assert |s.added| == |multiset(s.q.queue)| + |InFlight(s.threads)| + |s.finished|;
    }
    InFlightSize(s.threads);
    NothingInFlight(s.threads);
    forall t | 0 <= t < |s.threads| ensures !s.threads[t].Working? {
      assert ThreadOk(s, t);
    }
    IdleMeans(s);
  }

  // ----- waiting always ends -----

  /** How much a thread can still do before it sleeps. */
  function CostOf(pc: Pc): int
  {
    match pc
    case Outside => 1
    case Woken => 1
    case Waiting => 0
    case Working(batch, next, _) => 4 + if next < |batch| then |batch| - next else 0
  }

  function Effort(s: Sys): int
  {
    5 * |s.q.queue| + Weigh(s.threads, CostOf)
  }

  lemma EffortNonNegative(s: Sys)
    ensures Effort(s) >= 0
  {
    WeighBounds(s.threads, CostOf, 0);
  }

  // Scanning the queue costs nothing, unless the master returns.
  lemma ScanEffort(s: Sys, t: nat, q: Shared)
    requires PreScan(s, t, q) && q.nTotal + q.nIdle + 1 > 0
    requires AfterScan(s, t, q).rounds == s.rounds
    ensures Effort(AfterScan(s, t, q)) <= 5 * |q.queue| + Weigh(s.threads[t := Waiting], CostOf)
  {
    var s' := AfterScan(s, t, q);
    assert s.threads[t := Waiting][t := s'.threads[t]] == s'.threads;
    WeighUpdate(s.threads[t := Waiting], CostOf, t, s'.threads[t]);
  }

  lemma {:induction false} WakeOneCost(threads: seq<Pc>)
    ensures Weigh(Wake(threads, {0}), CostOf) <= Weigh(threads, CostOf) + 1
  {
    if threads != [] {
      var k := |threads| - 1;
      assert Wake(threads, {0})[..k] == Wake(threads[..k], {0});
      if k == 0 {
        assert threads[..0] == [] && Wake(threads[..0], {0}) == [];
      } else {
        WakeOneCost(threads[..k]);
      }
    }
  }

  predicate IsProgress(step: Step)
  {
    !step.Add? && !step.Spurious?
  }

  lemma FinishEffort(s: Sys, t: nat)
    requires Inv(s) && Enabled(s, Finish(t)) && CanScan(s, Finish(t))
    requires Next(s, Finish(t)).rounds == s.rounds
    ensures Effort(Next(s, Finish(t))) < Effort(s)
  {
    hide Inv, PreScan, AfterScan, Weigh, InFlight;
    var s1 := WithBatchDone(s, t);
    FinishKeepsInv(s, t);
    ScanKeepsInv(s1, t, Credited(s.q, |s.threads[t].batch|, s.threads[t].ok));
    ScanEffort(s1, t, Credited(s.q, |s.threads[t].batch|, s.threads[t].ok));
    WeighUpdate(s.threads, CostOf, t, Waiting);
    if s1.threads != s.threads {
      assert s1.threads[t := Waiting] == Wake(s.threads[t := Waiting], {0});
      WakeOneCost(s.threads[t := Waiting]);
    }
  }

  // Every step of a thread, short of the master's return, uses up effort.
  lemma ProgressUsesEffort(s: Sys, step: Step)
    requires Inv(s) && Enabled(s, step) && CanScan(s, step)
    requires IsProgress(step) && Next(s, step).rounds == s.rounds
    ensures Effort(Next(s, step)) < Effort(s)
  {
    hide Inv, PreScan, AfterScan, Weigh, InFlight, WithBatchDone;
    match step
    case Begin(t) =>
      BeginKeepsInv(s, t);
      ScanKeepsInv(s, t, Joined(s.q));
      ScanEffort(s, t, Joined(s.q));
      WeighUpdate(s.threads, CostOf, t, Waiting);
    case Exec(t) =>
      WeighUpdate(s.threads, CostOf, t, Next(s, step).threads[t]);
    case Finish(t) =>
      FinishEffort(s, t);
    case Resume(t) =>
      ResumeKeepsInv(s, t);
      ScanKeepsInv(s, t, Roused(s.q));
      ScanEffort(s, t, Roused(s.q));
      WeighUpdate(s.threads, CostOf, t, Waiting);
  }

  lemma {:induction false} SomeLoad(threads: seq<Pc>) returns (t: nat)
    requires Weigh(threads, LoadOf) > 0
    ensures t < |threads| && threads[t].Working?
  {
    var k := |threads| - 1;
    if threads[k].Working? {
      t := k;
    } else {
      t := SomeLoad(threads[..k]);
    }
  }

  // While the master is inside, some thread can always go on: no wake-up is lost.
  lemma SomeThreadCanGoOn(s: Sys)
    requires Inv(s) && s.threads[0].Inside()
    ensures exists step :: IsProgress(step) && Enabled(s, step)
  {
    var t: nat := 0;
    if s.threads[0].Waiting? {
      t := SomeLoad(s.threads);
    }
    var pc := s.threads[t];
    var step := if pc.Woken? then Resume(t) else if pc.next < |pc.batch| then Exec(t) else Finish(t);
    assert IsProgress(step) && Enabled(s, step);
  }

  function SpuriousCount(steps: seq<Step>): nat
  {
    if steps == [] then 0
    else SpuriousCount(steps[..|steps| - 1]) + if steps[|steps| - 1].Spurious? then 1 else 0
  }

  lemma SpuriousEffort(s: Sys, step: Step)
    requires Enabled(s, step) && CanScan(s, step) && step.Spurious?
    ensures Effort(Next(s, step)) == Effort(s) + 1
  {
    WeighUpdate(s.threads, CostOf, step.t, Woken);
  }

  // From any point at which the master waits: the number of steps until it
  // returns is bounded, apart from wake-ups without a notification.
  lemma {:induction false} WaitIsBounded(run: seq<Sys>, steps: seq<Step>, n: nat)
    requires IsRun(run, steps) && Inv(run[0]) && n <= |steps|
    requires forall i :: 0 <= i < |steps| ==> !steps[i].Add?
    requires forall i :: 0 <= i <= |steps| ==> run[i].rounds == run[0].rounds
    ensures Effort(run[n]) + n <= Effort(run[0]) + 2 * SpuriousCount(steps[..n])
    ensures n <= Effort(run[0]) + 2 * SpuriousCount(steps[..n])
  {
    hide Inv, Enabled, Effort, CanScan;
    EffortNonNegative(run[n]);
    if n > 0 {
      WaitIsBounded(run, steps, n - 1);
      assert StepsTo(run[n - 1], steps[n - 1], run[n]);
      assert steps[..n][..n - 1] == steps[..n - 1];
      RunKeepsInv(run, steps, n - 1);
      if steps[n - 1].Spurious? {
        SpuriousEffort(run[n - 1], steps[n - 1]);
      } else {
        ProgressUsesEffort(run[n - 1], steps[n - 1]);
      }
    }
  }
}
