/**
 * The check queue object.  Each method is the code of one critical section,
 * or the work between two, proved to be the corresponding half step of the
 * protocol.
 */
module CheckQueueObject {
  import opened CheckQueue

  /** How a critical section of the loop ends. */
  datatype Outcome = Return(ok: bool) | Block | Run(batch: seq<Check>, startOk: bool)

  /** Which of the workers that wait are notified. */
  datatype Notice = NoWorker | OneWorker | AllWorkers

  class Queue {
    var queue: seq<Check>
    var nIdle: int
    var nTotal: int
    var allOk: bool
    var nTodo: int
    const batchMax: nat

    constructor (batchMax: nat)
      ensures Fields() == Initial().sh && this.batchMax == batchMax
    {
      queue, nIdle, nTotal, allOk, nTodo := [], 0, 0, true, 0;
      this.batchMax := batchMax;
    }

    ghost function Fields(): Shared
      reads this
    {
      Shared(queue, nIdle, nTotal, allOk, nTodo)
    }

    method Add(checks: seq<Check>, ghost s: State, ghost who: nat) returns (notice: Notice)
      requires s.sh == Fields() && s.threads != []
      modifies this
      ensures Fields() == Added(s, checks, who).sh
      ensures Added(s, checks, who).threads ==
              match notice
              case NoWorker => s.threads
              case OneWorker => if Sleeping(s, who) then s.threads[who := Waiting(true)] else s.threads
              case AllWorkers => Notified(s.threads)
    {
      for k := 0 to |checks|
        invariant Fields() == s.sh.(queue := s.sh.queue + checks[..k])
      {
        queue := queue + [checks[k]];
        assert s.sh.queue + checks[..k + 1] == s.sh.queue + checks[..k] + [checks[k]];
      }
      assert checks[..|checks|] == checks;
      nTodo := nTodo + |checks|;
      notice := if |checks| == 1 then OneWorker else if |checks| > 1 then AllWorkers else NoWorker;
    }

    /** A thread's first critical section begins. */
    method Enter(ghost s: State, i: nat)
      requires s.sh == Fields() && i < |s.threads|
      modifies this
      ensures Fields() == Entered(s, i).sh
    {
      nTotal := nTotal + 1;
    }

    /** A wait is over. */
    method Wake(ghost s: State, i: nat)
      requires s.sh == Fields() && i < |s.threads|
      modifies this
      ensures Fields() == Woken(s, i).sh
    {
      nIdle := nIdle - 1;
    }

    /** Hand back a batch of n checks; says whether to notify the master. */
    method Report(n: nat, ok: bool, ghost s: State, i: nat) returns (notify: bool)
      requires s.sh == Fields() && i < |s.threads| && s.threads[i].Working?
      requires n == |s.threads[i].batch| && ok == (s.threads[i].startOk && AllPass(s.threads[i].batch))
      modifies this
      ensures Fields() == Reported(s, i).sh
      ensures Reported(s, i).threads == if notify then NotifyMaster(s.threads[i := Outside]) else s.threads[i := Outside]
    {
      allOk := allOk && ok;
      nTodo := nTodo - n;
      notify := nTodo == 0 && i != 0;
    }

    /** The rest of a critical section, up to the release of the lock. */
    method Continue(ghost s: State, i: nat) returns (outcome: Outcome)
      requires s.sh == Fields() && i < |s.threads| && s.threads[i].Outside? && nTotal >= 0 && nIdle >= 0
      modifies this
      ensures Fields() == Proceed(s, i, batchMax).sh
      ensures match outcome
              case Return(ok) =>
                && Proceed(s, i, batchMax).threads == s.threads
                && Proceed(s, i, batchMax).verdicts == s.verdicts + [Verdict(s.added, s.ran, ok)]
              case Block => Proceed(s, i, batchMax).threads == s.threads[i := Waiting(false)]
              case Run(batch, startOk) => Proceed(s, i, batchMax).threads == s.threads[i := Working(batch, startOk)]
    {
      if queue == [] {
        if i == 0 && nTodo == 0 {
          nTotal := nTotal - 1;
          outcome := Return(allOk);
          allOk := true;
        } else {
          nIdle := nIdle + 1;
          outcome := Block;
        }
        return;
      }
      var n := BatchSize(batchMax, Shared(queue, nIdle, nTotal, allOk, nTodo));
      var batch := Take(n);
      outcome := Run(batch, allOk);
    }

    method Take(n: nat) returns (batch: seq<Check>)
      requires n <= |queue|
      modifies this`queue
      ensures queue == old(queue)[..|old(queue)| - n] && batch == TakeBack(old(queue), n)
    {
      batch := [];
      for k := 0 to n
        invariant |queue| == |old(queue)| - k && queue == old(queue)[..|queue|]
        invariant TakeBack(old(queue), n) == batch + TakeBack(queue, n - k)
      {
        batch := batch + [queue[|queue| - 1]];
        queue := queue[..|queue| - 1];
      }
    }

    /** Is there nothing to do, and nothing that went wrong? */
    method IsIdle(ghost s: State) returns (idle: bool)
      requires s.sh == Fields() && Inv(s)
      ensures idle <==>
              queue == [] && (forall i | 0 <= i < |s.threads| :: !s.threads[i].Working?) && AllPass(s.added)
    {
      IdleMeans(s);
      idle := nTotal == nIdle && nTodo == 0 && allOk;
    }
  }

  /** The work between two critical sections: stop calling checks after the first failure. */
  method RunBatch(batch: seq<Check>, startOk: bool) returns (ok: bool, executed: seq<Check>)
    ensures ok == (startOk && AllPass(batch)) && executed == Executed(batch, startOk)
  {
    ok, executed := startOk, [];
    for k := 0 to |batch|
      invariant ok == (startOk && AllPass(batch[..k]))
      invariant Executed(batch, startOk) == executed + Executed(batch[k..], ok)
    {
      if ok {
        executed := executed + [batch[k]];
        ok := batch[k].passes;
      }
      assert batch[..k + 1] == batch[..k] + [batch[k]];
      assert !batch[k].passes ==> !AllPass(batch[..k + 1]);
    }
    assert batch[..|batch|] == batch;
  }
}
