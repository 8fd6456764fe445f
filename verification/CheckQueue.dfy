// The queue of script checks: one master and any number of workers, a mutex,
// and two condition variables.  Between two points where a thread gives up the
// mutex nothing else runs, so each stretch under the mutex is one step.
module CheckQueue {
  import opened Wrappers
  import opened Basics
  import opened Nonlinear

  /** A check and the verdict it gives when it is carried out. */
  datatype Check = Check(id: nat, passes: bool)

  // ----- the fields under the mutex -----

  datatype Shared = Shared(queue: seq<Check>, nIdle: int, nTotal: int, allOk: bool, nTodo: int)

  /** How a stretch under the mutex ends. */
  datatype Outcome = Return(verdict: bool) | Sleep | Take(batch: seq<Check>, ok: bool)

  lemma DivisionShrinks(n: nat, d: int)
    requires d > 0
    ensures 0 <= n / d <= n
  {
    var q, r := n / d, n % d;
    assert n == d * q + r;
    if q > 0 {
      assert d * q >= q;
    }
  }

  /** How many checks to take: fewer towards the end, never none. */
  function BatchSize(s: Shared, limit: nat): (n: int)
    requires s.queue != [] && s.nTotal + s.nIdle + 1 > 0
    ensures 1 <= n <= |s.queue| && n <= Max(1, limit)
  {
    DivisionShrinks(|s.queue|, s.nTotal + s.nIdle + 1);
    Max(1, Min(limit, |s.queue| / (s.nTotal + s.nIdle + 1)))
  }

  /** The part of the loop from the test of the queue on. */
  function Scan(s: Shared, isMaster: bool, limit: nat): (Shared, Outcome)
    requires s.nTotal + s.nIdle + 1 > 0
  {
    if s.queue == [] then
      if isMaster && s.nTodo == 0 then (s.(nTotal := s.nTotal - 1, allOk := true), Return(s.allOk))
      else (s.(nIdle := s.nIdle + 1), Sleep)
    else
      var left := |s.queue| - BatchSize(s, limit);
      (s.(queue := s.queue[..left]), Take(Reversed(s.queue[left..]), s.allOk))
  }

  function Joined(s: Shared): Shared
  {
    s.(nTotal := s.nTotal + 1)
  }

  function Credited(s: Shared, n: nat, ok: bool): Shared
  {
    s.(allOk := s.allOk && ok, nTodo := s.nTodo - n)
  }

  function Roused(s: Shared): Shared
  {
    s.(nIdle := s.nIdle - 1)
  }

  /** The test for an idle queue. */
  predicate LooksIdle(s: Shared)
  {
    s.nTotal == s.nIdle && s.nTodo == 0 && s.allOk
  }

  // A share of the queue for every thread and one more, as large as it can be, but
  // at least one check and at most the limit.
  lemma BatchIsAShare(s: Shared, limit: nat)
    requires s.queue != [] && s.nTotal + s.nIdle + 1 > 0
    ensures var n, shares := BatchSize(s, limit), s.nTotal + s.nIdle + 1;
            && (n == 1 || n * shares <= |s.queue|)
            && (n >= limit || (n + 1) * shares > |s.queue|)
  {
    var shares, n := s.nTotal + s.nIdle + 1, BatchSize(s, limit);
    var q := |s.queue| / shares;
    QuotientBounds(|s.queue|, shares);
    if n < limit {
      assert n >= q;
      assert (n + 1) * shares >= (q + 1) * shares;
    }
    if n > 1 {
      assert n <= q;
      assert n * shares <= q * shares;
    }
  }

  // A batch is taken from the end of the queue, the last check first.
  lemma TakesTheEnd(s: Shared, isMaster: bool, limit: nat)
    requires s.queue != [] && s.nTotal + s.nIdle + 1 > 0
    ensures var (s', r) := Scan(s, isMaster, limit);
            && r.Take? && |r.batch| == BatchSize(s, limit) && r.ok == s.allOk
            && s.queue == s'.queue + Reversed(r.batch) && s' == s.(queue := s'.queue)
  {
    ReversedTwice(s.queue[|s.queue| - BatchSize(s, limit)..]);
  }

  // ----- the object itself -----

  lemma {:induction false} ReversedGrows(s: seq<Check>)
    requires s != []
    ensures Reversed(s) == Reversed(s[1..]) + [s[0]]
  {
    if |s| > 1 {
      var k := |s| - 1;
      ReversedGrows(s[..k]);
      assert s[..k][1..] == s[1..][..k - 1];
    }
  }

  class Queue {
    var queue: seq<Check>
    var nIdle: int
    var nTotal: int
    var allOk: bool
    var nTodo: int
    const nBatchSize: nat

    function State(): Shared
      reads this
    {
      Shared(queue, nIdle, nTotal, allOk, nTodo)
    }

    constructor (nBatchSize: nat)
      ensures State() == Shared([], 0, 0, true, 0) && this.nBatchSize == nBatchSize
    {
      queue, nIdle, nTotal, allOk, nTodo := [], 0, 0, true, 0;
      this.nBatchSize := nBatchSize;
    }

    method Add(checks: seq<Check>)
      modifies this
      ensures State() == old(State()).(queue := old(queue) + checks, nTodo := old(nTodo) + |checks|)
    {
      for i := 0 to |checks|
        invariant State() == old(State()).(queue := old(queue) + checks[..i])
      {
        queue := queue + [checks[i]];
      }
      nTodo := nTodo + |checks|;
    }

    /** Takes checks off the end, one by one. */
    method PopBatch(nNow: nat) returns (batch: seq<Check>)
      requires nNow <= |queue|
      modifies this`queue
      ensures queue == old(queue)[..|old(queue)| - nNow]
      ensures batch == Reversed(old(queue)[|old(queue)| - nNow..])
    {
      batch := [];
      ghost var all := queue;
      for i := 0 to nNow
        invariant queue == all[..|all| - i] && batch == Reversed(all[|all| - i..])
      {
        ReversedGrows(all[|all| - i - 1..]);
        assert all[|all| - i - 1..][1..] == all[|all| - i..];
        batch := batch + [queue[|queue| - 1]];
        queue := queue[..|queue| - 1];
      }
    }

    method ScanQueue(isMaster: bool) returns (r: Outcome)
      requires nTotal + nIdle + 1 > 0
      modifies this
      ensures (State(), r) == Scan(old(State()), isMaster, nBatchSize)
    {
      if queue == [] {
        if isMaster && nTodo == 0 {
          nTotal := nTotal - 1;
          r := Return(allOk);
          if isMaster {
            allOk := true;
          }
          return;
        }
        nIdle := nIdle + 1;
        return Sleep;
      }
      DivisionShrinks(|queue|, nTotal + nIdle + 1);
      var nNow := Max(1, Min(nBatchSize, |queue| / (nTotal + nIdle + 1)));
      var batch := PopBatch(nNow);
      r := Take(batch, allOk);
    }

    /** One stretch under the mutex: after a batch of `nNow` checks, or on first entry with `nNow == 0`. */
    method Locked(isMaster: bool, nNow: nat, ok: bool) returns (r: Outcome, notifyMaster: bool)
      requires nTotal + nIdle + 1 > 0
      modifies this
      ensures (State(), r) == Scan(if nNow > 0 then Credited(old(State()), nNow, ok) else Joined(old(State())),
                                   isMaster, nBatchSize)
      ensures notifyMaster <==> nNow > 0 && old(nTodo) == nNow && !isMaster
    {
      notifyMaster := false;
      if nNow > 0 {
        allOk := allOk && ok;
        nTodo := nTodo - nNow;
        if nTodo == 0 && !isMaster {
          notifyMaster := true;
        }
      } else {
        nTotal := nTotal + 1;
      }
      r := ScanQueue(isMaster);
    }

    /** The stretch after waking up on a condition variable. */
    method LockedAfterWait(isMaster: bool) returns (r: Outcome)
      requires nTotal + nIdle > 0
      modifies this
      ensures (State(), r) == Scan(Roused(old(State())), isMaster, nBatchSize)
    {
      nIdle := nIdle - 1;
      r := ScanQueue(isMaster);
    }
  }

  lemma {:induction false} ReversedSame(s: seq<Check>)
    ensures multiset(Reversed(s)) == multiset(s)
  {
    if s != [] {
      ReversedSame(s[..|s| - 1]);
      assert s == s[..|s| - 1] + [s[|s| - 1]];
    }
  }

  /** Carrying out a batch; once a check fails, the rest is skipped. */
  method Execute(batch: seq<Check>, ok: bool) returns (r: bool)
    ensures r <==> ok && forall i :: 0 <= i < |batch| ==> batch[i].passes
  {
    r := ok;
    for i := 0 to |batch|
      invariant r <==> ok && forall j :: 0 <= j < i ==> batch[j].passes
    {
      if r {
        r := batch[i].passes;
      }
    }
  }
}
