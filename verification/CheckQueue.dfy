/**
 * The parallel check queue: one master adds checks and waits for the verdict,
 * any number of workers take batches.  A step is one critical section (with
 * the work done before it), taken by any thread at any time; a waiting thread
 * may also wake up for no reason.
 */
module CheckQueue {
  datatype Check = Check(id: int, passes: bool)

  /** The fields guarded by the mutex. */
  datatype Shared = Shared(queue: seq<Check>, nIdle: int, nTotal: int, allOk: bool, nTodo: int)

  /** Where a thread is between two critical sections. */
  datatype Thread =
    | Outside                                       // not in the loop
    | Waiting(signalled: bool)                      // blocked on its condition, or notified and not yet running
    | Working(batch: seq<Check>, startOk: bool)     // holds a batch and the verdict it read when taking it

  /**
   * Thread 0 is the master.  The last four fields are not in the program:
   * what was added since the last verdict, what has been handed back of it,
   * what has been executed of it, and the verdicts given, each with the
   * checks it was about and the checks executed for it.
   */
  datatype State = State(
    sh: Shared,
    threads: seq<Thread>,
    added: seq<Check>,
    finished: seq<Check>,
    ran: seq<Check>,
    verdicts: seq<Verdict>)

  datatype Verdict = Verdict(checks: seq<Check>, executed: seq<Check>, ok: bool)

  ghost predicate AllPass(checks: seq<Check>) {
    forall c | c in checks :: c.passes
  }

  /******* Weighing checks: conservation is stated for every weight *******/

  type Weight = Check -> nat

  const EACH: Weight := (c: Check) => 1
  const FAILING: Weight := (c: Check) => if c.passes then 0 else 1

  ghost function Mass(w: Weight, q: seq<Check>): nat {
    if q == [] then 0 else Mass(w, q[..|q| - 1]) + w(q[|q| - 1])
  }

  lemma {:induction false} MassAppend(w: Weight, a: seq<Check>, b: seq<Check>)
    ensures Mass(w, a + b) == Mass(w, a) + Mass(w, b)
  {
    if b == [] {
      assert a + b == a;
    } else {
      MassAppend(w, a, b[..|b| - 1]);
      assert (a + b)[..|a + b| - 1] == a + b[..|b| - 1];
    }
  }

  lemma {:induction false} MassOfEach(q: seq<Check>)
    ensures Mass(EACH, q) == |q|
  {
    if q != [] {
      MassOfEach(q[..|q| - 1]);
    }
  }

  lemma {:induction false} MassOfFailing(q: seq<Check>)
    ensures Mass(FAILING, q) == 0 <==> AllPass(q)
  {
    if q != [] {
      MassOfFailing(q[..|q| - 1]);
      assert q == q[..|q| - 1] + [q[|q| - 1]];
    }
  }

  /******* Batches *******/

  lemma ShareIs(queued: nat, threads: nat)
    requires threads > 0
    ensures var share := queued / threads; share * threads <= queued < (share + 1) * threads
  {
  }

  function BatchSize(batchMax: nat, sh: Shared): (n: nat)
    requires sh.queue != [] && sh.nTotal >= 0 && sh.nIdle >= 0
    ensures 1 <= n <= |sh.queue|
  {
    var share := |sh.queue| / (sh.nTotal + sh.nIdle + 1);
    assert share <= |sh.queue|;
    var capped := if share < batchMax then share else batchMax;
    if capped < 1 then 1 else capped
  }

  /** The largest number that leaves every thread its share, within the maximum, but at least one. */
  lemma BatchSizeIs(batchMax: nat, sh: Shared)
    requires sh.queue != [] && sh.nTotal >= 0 && sh.nIdle >= 0
    ensures var n, threads := BatchSize(batchMax, sh), sh.nTotal + sh.nIdle + 1;
            && (n > 1 ==> n <= batchMax && n * threads <= |sh.queue|)
            && (n < batchMax ==> |sh.queue| < (n + 1) * threads)
  {
    var queued, threads := |sh.queue|, sh.nTotal + sh.nIdle + 1;
    var share, n := queued / threads, BatchSize(batchMax, sh);
    ShareIs(queued, threads);
    assert n == if share < 1 || batchMax < 1 then 1 else if share < batchMax then share else batchMax;
    if n > 1 {
      Fewer(n, share, threads);
    }
    if n < batchMax {
      Fewer(share + 1, n + 1, threads);
    }
  }

  lemma Fewer(a: nat, b: nat, c: nat)
    requires a <= b
    ensures a * c <= b * c
  {
  }

  /** The last n elements, last first. */
  function TakeBack(q: seq<Check>, n: nat): (batch: seq<Check>)
    requires n <= |q|
    ensures |batch| == n
  {
    if n == 0 then [] else [q[|q| - 1]] + TakeBack(q[..|q| - 1], n - 1)
  }

  lemma {:induction false} TakeBackAt(q: seq<Check>, n: nat, i: nat)
    requires i < n <= |q|
    ensures TakeBack(q, n)[i] == q[|q| - 1 - i]
  {
    if i > 0 {
      TakeBackAt(q[..|q| - 1], n - 1, i - 1);
    }
  }

  lemma {:induction false} TakeBackKeepsAll(w: Weight, q: seq<Check>, n: nat)
    requires n <= |q|
    ensures Mass(w, q) == Mass(w, q[..|q| - n]) + Mass(w, TakeBack(q, n))
  {
    if n == 0 {
      assert q[..|q|] == q;
    } else {
      var front := q[..|q| - 1];
      TakeBackKeepsAll(w, front, n - 1);
      assert front[..|front| - (n - 1)] == q[..|q| - n];
      MassAppend(w, [q[|q| - 1]], TakeBack(front, n - 1));
    }
  }

  /** What is executed of a batch: nothing after the first failure, nothing at all once a check has failed. */
  function Executed(batch: seq<Check>, startOk: bool): (r: seq<Check>)
  {
    if !startOk || batch == [] then [] else [batch[0]] + Executed(batch[1..], batch[0].passes)
  }

  lemma {:induction false} ExecutedAll(batch: seq<Check>, startOk: bool)
    ensures startOk && AllPass(batch) ==> Executed(batch, startOk) == batch
  {
    if startOk && batch != [] && AllPass(batch) {
      assert batch == [batch[0]] + batch[1..];
      ExecutedAll(batch[1..], batch[0].passes);
    }
  }

  /** What is executed is part of the batch, and if a check fails then one that is executed does. */
  lemma {:induction false} ExecutedSome(batch: seq<Check>, startOk: bool, w: Weight)
    ensures Mass(w, Executed(batch, startOk)) <= Mass(w, batch)
    ensures startOk ==> (AllPass(Executed(batch, startOk)) <==> AllPass(batch))
  {
    if startOk && batch != [] {
      var first, rest := batch[0], batch[1..];
      assert batch == [first] + rest;
      ExecutedSome(rest, first.passes, w);
      MassAppend(w, [first], rest);
      MassAppend(w, [first], Executed(rest, first.passes));
    }
  }

  /** Weighing with every weight tells how often each check occurs. */
  lemma {:induction false} MassOfOne(q: seq<Check>, c: Check)
    ensures Mass((x: Check) => if x == c then 1 else 0, q) == multiset(q)[c]
  {
    if q != [] {
      var n := |q| - 1;
      assert q == q[..n] + [q[n]];
      MassOfOne(q[..n], c);
    }
  }

  lemma SameMassSameChecks(a: seq<Check>, b: seq<Check>)
    requires forall w :: Mass(w, a) == Mass(w, b)
    ensures multiset(a) == multiset(b)
  {
    forall c ensures multiset(a)[c] == multiset(b)[c] {
      MassOfOne(a, c);
      MassOfOne(b, c);
    }
  }

  lemma LessMassFewerChecks(a: seq<Check>, b: seq<Check>)
    requires forall w :: Mass(w, a) <= Mass(w, b)
    ensures multiset(a) <= multiset(b)
  {
    forall c ensures multiset(a)[c] <= multiset(b)[c] {
      MassOfOne(a, c);
      MassOfOne(b, c);
    }
  }

  /******* Summing over threads *******/

  ghost function Held(w: Weight, t: Thread): nat {
    if t.Working? then Mass(w, t.batch) else 0
  }

  ghost function InFlight(w: Weight, threads: seq<Thread>): nat {
    if threads == [] then 0
    else InFlight(w, threads[..|threads| - 1]) + Held(w, threads[|threads| - 1])
  }

  ghost function Count(p: Thread -> bool, threads: seq<Thread>): nat {
    if threads == [] then 0
    else Count(p, threads[..|threads| - 1]) + if p(threads[|threads| - 1]) then 1 else 0
  }

  lemma {:induction false} InFlightUpdate(w: Weight, threads: seq<Thread>, i: nat, t: Thread)
    requires i < |threads|
    ensures InFlight(w, threads[i := t]) == InFlight(w, threads) - Held(w, threads[i]) + Held(w, t)
  {
    var n := |threads| - 1;
    if i < n {
      InFlightUpdate(w, threads[..n], i, t);
      assert threads[i := t][..n] == threads[..n][i := t];
    } else {
      assert threads[i := t][..n] == threads[..n];
    }
  }

  lemma {:induction false} CountUpdate(p: Thread -> bool, threads: seq<Thread>, i: nat, t: Thread)
    requires i < |threads|
    ensures Count(p, threads[i := t]) ==
            Count(p, threads) - (if p(threads[i]) then 1 else 0) + if p(t) then 1 else 0
  {
    var n := |threads| - 1;
    if i < n {
      CountUpdate(p, threads[..n], i, t);
      assert threads[i := t][..n] == threads[..n][i := t];
    } else {
      assert threads[i := t][..n] == threads[..n];
    }
  }

  /** Something in flight is held by somebody. */
  lemma {:induction false} SomebodyHolds(w: Weight, threads: seq<Thread>)
    requires InFlight(w, threads) != 0
    ensures exists i :: 0 <= i < |threads| && threads[i].Working?
  {
    var n := |threads| - 1;
    if !threads[n].Working? {
      SomebodyHolds(w, threads[..n]);
      var i :| 0 <= i < n && threads[..n][i].Working?;
      assert threads[i].Working?;
    }
  }

  const IS_WAITING := (t: Thread) => t.Waiting?
  const IS_WORKING := (t: Thread) => t.Working?
  const IS_SIGNALLED := (t: Thread) => t.Waiting? && t.signalled

  /******* The invariant *******/

  ghost function Pending(w: Weight, s: State): nat {
    Mass(w, s.sh.queue) + InFlight(w, s.threads)
  }

  /** The counters are exact; extra counts the one thread that is inside a critical section. */
  ghost predicate Balanced(s: State, extra: nat) {
    && s.sh.nIdle == Count(IS_WAITING, s.threads)
    && s.sh.nTotal == s.sh.nIdle + Count(IS_WORKING, s.threads) + extra
    && s.sh.nTodo == Pending(EACH, s)
  }

  /** No check is lost or doubled: each one added is queued, in some batch, or handed back. */
  ghost predicate Conserved(s: State) {
    forall w :: Mass(w, s.added) == Pending(w, s) + Mass(w, s.finished)
  }

  /**
   * The running verdict is about exactly what was handed back, and about what
   * was executed; while it holds nothing was skipped.
   */
  ghost predicate Faithful(s: State) {
    && (s.sh.allOk <==> AllPass(s.finished))
    && (s.sh.allOk <==> AllPass(s.ran))
    && (s.sh.allOk ==> s.ran == s.finished)
    && (forall i | 0 <= i < |s.threads| && s.threads[i].Working? ::
          s.threads[i].batch != [] && (s.threads[i].startOk || !s.sh.allOk))
  }

  /** No check is executed twice. */
  ghost predicate NoneTwice(s: State) {
    forall w :: Mass(w, s.ran) <= Mass(w, s.finished)
  }

  ghost predicate Active(t: Thread) {
    t.Working? || (t.Waiting? && t.signalled)
  }

  /** Queued work with workers around: one of them is at work or about to run. */
  ghost predicate WorkerAwake(s: State) {
    s.sh.queue != [] && |s.threads| > 1 ==> exists i :: 0 < i < |s.threads| && Active(s.threads[i])
  }

  /** A waiting master has nothing to take, and unless notified there is work it waits for. */
  ghost predicate MasterRight(s: State) {
    s.threads != [] && (s.threads[0].Waiting? ==> s.sh.queue == [] && (s.threads[0].signalled || s.sh.nTodo > 0))
  }

  /** Workers never leave; thread `but` may be inside a critical section. */
  ghost predicate WorkersInside(s: State, but: int) {
    forall i | 0 < i < |s.threads| && i != but :: !s.threads[i].Outside?
  }

  /**
   * The verdict is the conjunction of its checks, and of those executed for
   * it.  None was executed twice, and for a good verdict none was skipped.
   */
  ghost predicate Right(v: Verdict) {
    && (v.ok <==> AllPass(v.checks))
    && (v.ok <==> AllPass(v.executed))
    && multiset(v.executed) <= multiset(v.checks)
    && (v.ok ==> multiset(v.executed) == multiset(v.checks))
  }

  ghost predicate VerdictsRight(s: State) {
    forall v | v in s.verdicts :: Right(v)
  }

  ghost predicate Inv(s: State) {
    && Balanced(s, 0) && Conserved(s) && Faithful(s) && NoneTwice(s) && WorkerAwake(s) && MasterRight(s)
    && WorkersInside(s, 0) && VerdictsRight(s)
  }

  /** In the middle of thread i's critical section. */
  ghost predicate Mid(s: State, i: nat) {
    && i < |s.threads| && s.threads[i].Outside?
    && Balanced(s, 1) && Conserved(s) && Faithful(s) && NoneTwice(s) && (i > 0 || WorkerAwake(s)) && MasterRight(s)
    && WorkersInside(s, i) && VerdictsRight(s)
  }

  /******* Steps *******/

  /** No worker yet, nothing added. */
  ghost function Initial(): (s: State)
    ensures Inv(s)
  {
    var s := State(Shared([], 0, 0, true, 0), [Outside], [], [], [], []);
    InitialInv(s);
    s
  }

  lemma InitialInv(s: State)
    requires s == State(Shared([], 0, 0, true, 0), [Outside], [], [], [], [])
    ensures Inv(s)
  {
    assert s.threads[..0] == [];
    forall w ensures Mass(w, s.added) == Pending(w, s) + Mass(w, s.finished) {
    }
  }

  /** The second half of a critical section: return a verdict, wait, or take a batch. */
  ghost function Proceed(s: State, i: nat, batchMax: nat): (r: State)
    requires i < |s.threads| && s.sh.nTotal >= 0 && s.sh.nIdle >= 0
  {
    var sh := s.sh;
    if sh.queue == [] then
      if i == 0 && sh.nTodo == 0
      then State(sh.(nTotal := sh.nTotal - 1, allOk := true), s.threads, [], [], [],
                 s.verdicts + [Verdict(s.added, s.ran, sh.allOk)])
      else s.(sh := sh.(nIdle := sh.nIdle + 1), threads := s.threads[i := Waiting(false)])
    else
      var n := BatchSize(batchMax, sh);
      s.(sh := sh.(queue := sh.queue[..|sh.queue| - n]),
         threads := s.threads[i := Working(TakeBack(sh.queue, n), sh.allOk)])
  }

  lemma ProceedPending(s: State, i: nat, batchMax: nat, w: Weight)
    requires i < |s.threads| && s.threads[i].Outside? && s.sh.nTotal >= 0 && s.sh.nIdle >= 0
    ensures Pending(w, Proceed(s, i, batchMax)) == Pending(w, s)
  {
    var r := Proceed(s, i, batchMax);
    InFlightUpdate(w, s.threads, i, r.threads[i]);
    assert r.threads == s.threads[i := r.threads[i]];
    if s.sh.queue != [] {
      TakeBackKeepsAll(w, s.sh.queue, BatchSize(batchMax, s.sh));
    }
  }

  lemma NothingPending(s: State, w: Weight)
    requires Pending(EACH, s) == 0
    requires forall i | 0 <= i < |s.threads| && s.threads[i].Working? :: s.threads[i].batch != []
    ensures Pending(w, s) == 0
  {
    MassOfEach(s.sh.queue);
    NobodyHolds(s.threads, w);
  }

  lemma {:induction false} NobodyHolds(threads: seq<Thread>, w: Weight)
    requires InFlight(EACH, threads) == 0
    requires forall i | 0 <= i < |threads| && threads[i].Working? :: threads[i].batch != []
    ensures InFlight(w, threads) == 0
  {
    if threads != [] {
      var n := |threads| - 1;
      NobodyHolds(threads[..n], w);
      HoldsNothing(threads[n], w);
    }
  }

  lemma HoldsNothing(t: Thread, w: Weight)
    requires t.Working? ==> t.batch != []
    ensures Held(EACH, t) == 0 ==> Held(w, t) == 0
  {
    if t.Working? {
      MassOfEach(t.batch);
    }
  }

  lemma ProceedBalanced(s: State, i: nat, batchMax: nat)
    requires i < |s.threads| && s.threads[i].Outside? && Balanced(s, 1)
    ensures Balanced(Proceed(s, i, batchMax), 0)
  {
    var r := Proceed(s, i, batchMax);
    ProceedPending(s, i, batchMax, EACH);
    CountUpdate(IS_WAITING, s.threads, i, r.threads[i]);
    CountUpdate(IS_WORKING, s.threads, i, r.threads[i]);
    assert r.threads == s.threads[i := r.threads[i]];
  }

  /** The verdict the master returns is right. */
  lemma VerdictRight(s: State)
    requires Balanced(s, 1) && Conserved(s) && Faithful(s) && NoneTwice(s) && s.sh.nTodo == 0
    ensures Right(Verdict(s.added, s.ran, s.sh.allOk))
  {
    forall w ensures Mass(w, s.added) == Mass(w, s.finished) {
      NothingPending(s, w);
    }
    MassOfFailing(s.added);
    MassOfFailing(s.finished);
    LessMassFewerChecks(s.ran, s.added);
    if s.sh.allOk {
      SameMassSameChecks(s.ran, s.added);
    }
  }

  lemma NothingTodo(s: State, w: Weight)
    requires Balanced(s, 1) && Faithful(s) && s.sh.nTodo == 0
    ensures Pending(w, s) == 0
  {
    NothingPending(s, w);
  }

  lemma {:induction false} NoBatch(threads: seq<Thread>, i: nat)
    requires i < |threads| && InFlight(EACH, threads) == 0
    ensures threads[i].Working? ==> threads[i].batch == []
  {
    var n := |threads| - 1;
    if i < n {
      NoBatch(threads[..n], i);
    } else if threads[i].Working? {
      MassOfEach(threads[i].batch);
    }
  }

  lemma NobodyWorks(s: State)
    requires Balanced(s, 1) && Faithful(s) && s.sh.nTodo == 0
    ensures forall i | 0 <= i < |s.threads| :: !s.threads[i].Working?
  {
    forall i | 0 <= i < |s.threads| ensures !s.threads[i].Working? {
      NoBatch(s.threads, i);
    }
  }

  lemma ProceedKeepsInv(s: State, i: nat, batchMax: nat)
    requires Mid(s, i)
    ensures Inv(Proceed(s, i, batchMax))
  {
    hide Balanced, Right;
    assert s.sh.nTotal >= 0 && s.sh.nIdle >= 0 by {
      CountersNonNegative(s);
    }
    ProceedBalanced(s, i, batchMax);
    var r := Proceed(s, i, batchMax);
    forall w ensures Mass(w, r.added) == Pending(w, r) + Mass(w, r.finished) {
      ProceedPending(s, i, batchMax, w);
      if s.sh.queue == [] && i == 0 && s.sh.nTodo == 0 {
        NothingTodo(s, w);
      }
    }
    if s.sh.queue == [] && i == 0 && s.sh.nTodo == 0 {
      VerdictRight(s);
      NobodyWorks(s);
    }
    assert WorkerAwake(r) by {
      if r.sh.queue != [] && |r.threads| > 1 {
        if i == 0 {
          var j :| 0 < j < |s.threads| && Active(s.threads[j]);
          assert Active(r.threads[j]);
        } else {
          assert Active(r.threads[i]);
        }
      }
    }
  }

  lemma CountersNonNegative(s: State)
    requires Balanced(s, 1)
    ensures s.sh.nTotal >= 1 && s.sh.nIdle >= 0
  {
  }

  /** The first half of a critical section. */

  ghost function Entered(s: State, i: nat): State
    requires i < |s.threads|
  {
    s.(sh := s.sh.(nTotal := s.sh.nTotal + 1), threads := s.threads[i := Outside])
  }

  ghost function Woken(s: State, i: nat): State
    requires i < |s.threads|
  {
    s.(sh := s.sh.(nIdle := s.sh.nIdle - 1), threads := s.threads[i := Outside])
  }

  ghost function NotifyMaster(threads: seq<Thread>): seq<Thread>
    requires threads != []
  {
    if threads[0].Waiting? then threads[0 := Waiting(true)] else threads
  }

  /** Hand a batch back; a worker that handed back the last one notifies the master. */
  ghost function Reported(s: State, i: nat): (r: State)
    requires i < |s.threads| && s.threads[i].Working?
  {
    var t := s.threads[i];
    var todo := s.sh.nTodo - |t.batch|;
    var threads := s.threads[i := Outside];
    State(s.sh.(allOk := s.sh.allOk && t.startOk && AllPass(t.batch), nTodo := todo),
          if todo == 0 && i != 0 then NotifyMaster(threads) else threads,
          s.added, s.finished + t.batch, s.ran + Executed(t.batch, t.startOk), s.verdicts)
  }

  lemma EnteredMid(s: State, i: nat)
    requires Inv(s) && i < |s.threads| && s.threads[i].Outside?
    ensures Mid(Entered(s, i), i)
  {
    assert s.threads[i := Outside] == s.threads;
    assert i == 0;
    forall w ensures Pending(w, Entered(s, i)) == Pending(w, s) {
    }
  }

  /** A new worker thread starts. */
  lemma StartedMid(s: State)
    requires Inv(s)
    ensures var n := |s.threads|; Mid(Entered(s.(threads := s.threads + [Outside]), n), n)
  {
    var n := |s.threads|;
    var r := Entered(s.(threads := s.threads + [Outside]), n);
    assert r.threads == s.threads + [Outside] && r.threads[..n] == s.threads;
    forall w ensures Pending(w, r) == Pending(w, s) {
    }
    assert forall i | 0 <= i < n :: r.threads[i] == s.threads[i];
  }

  lemma WokenMid(s: State, i: nat)
    requires Inv(s) && i < |s.threads| && s.threads[i].Waiting?
    ensures Mid(Woken(s, i), i)
  {
    var r := Woken(s, i);
    CountUpdate(IS_WAITING, s.threads, i, Outside);
    CountUpdate(IS_WORKING, s.threads, i, Outside);
    forall w ensures Pending(w, r) == Pending(w, s) {
      InFlightUpdate(w, s.threads, i, Outside);
    }
  }

  lemma ReportedSums(s: State, i: nat, w: Weight)
    requires i < |s.threads| && s.threads[i].Working?
    ensures Pending(w, Reported(s, i)) == Pending(w, s) - Mass(w, s.threads[i].batch)
    ensures Count(IS_WAITING, Reported(s, i).threads) == Count(IS_WAITING, s.threads)
    ensures Count(IS_WORKING, Reported(s, i).threads) == Count(IS_WORKING, s.threads) - 1
  {
    var mid := s.threads[i := Outside];
    InFlightUpdate(w, s.threads, i, Outside);
    CountUpdate(IS_WAITING, s.threads, i, Outside);
    CountUpdate(IS_WORKING, s.threads, i, Outside);
    if mid[0].Waiting? {
      InFlightUpdate(w, mid, 0, Waiting(true));
      CountUpdate(IS_WAITING, mid, 0, Waiting(true));
      CountUpdate(IS_WORKING, mid, 0, Waiting(true));
    }
  }

  lemma ReportedFaithful(s: State, i: nat)
    requires Faithful(s) && i < |s.threads| && s.threads[i].Working?
    ensures Faithful(Reported(s, i))
  {
    var t := s.threads[i];
    ExecutedAll(t.batch, t.startOk);
    ExecutedSome(t.batch, t.startOk, EACH);
    var e := Executed(t.batch, t.startOk);
    assert AllPass(s.ran + e) <==> AllPass(s.ran) && AllPass(e) by {
      assert forall c :: c in s.ran + e <==> c in s.ran || c in e;
    }
    assert AllPass(s.finished + t.batch) <==> AllPass(s.finished) && AllPass(t.batch) by {
      assert forall c :: c in s.finished + t.batch <==> c in s.finished || c in t.batch;
    }
  }

  lemma ReportedConserved(s: State, i: nat)
    requires Conserved(s) && i < |s.threads| && s.threads[i].Working?
    ensures Conserved(Reported(s, i))
  {
    hide AllPass, Pending;
    var r := Reported(s, i);
    forall w ensures Mass(w, r.added) == Pending(w, r) + Mass(w, r.finished) {
      ReportedSums(s, i, w);
      MassAppend(w, s.finished, s.threads[i].batch);
    }
  }

  lemma ReportedNoneTwice(s: State, i: nat)
    requires NoneTwice(s) && i < |s.threads| && s.threads[i].Working?
    ensures NoneTwice(Reported(s, i))
  {
    hide AllPass;
    var t := s.threads[i];
    forall w ensures Mass(w, s.ran + Executed(t.batch, t.startOk)) <= Mass(w, s.finished + t.batch) {
      ExecutedSome(t.batch, t.startOk, w);
      MassAppend(w, s.ran, Executed(t.batch, t.startOk));
      MassAppend(w, s.finished, t.batch);
    }
  }

  lemma ReportedBalanced(s: State, i: nat)
    requires Balanced(s, 0) && i < |s.threads| && s.threads[i].Working?
    ensures Balanced(Reported(s, i), 1)
  {
    hide AllPass, Pending;
    ReportedSums(s, i, EACH);
    MassOfEach(s.threads[i].batch);
  }

  lemma ReportedMid(s: State, i: nat)
    requires Inv(s) && i < |s.threads| && s.threads[i].Working?
    ensures Mid(Reported(s, i), i)
  {
    hide AllPass, Balanced, Conserved, Faithful, Pending, NoneTwice;
    var r := Reported(s, i);
    ReportedNoneTwice(s, i);
    ReportedBalanced(s, i);
    ReportedConserved(s, i);
    ReportedFaithful(s, i);
    assert r.sh.nTodo >= 0 by {
      TodoNonNegative(r, 1);
    }
    if i == 0 && r.sh.queue != [] && |r.threads| > 1 {
      var j :| 0 < j < |s.threads| && Active(s.threads[j]);
      assert Active(r.threads[j]);
    }
  }

  lemma TodoNonNegative(s: State, extra: nat)
    requires Balanced(s, extra)
    ensures s.sh.nTodo >= 0
  {
  }

  /******* Adding *******/

  ghost predicate Sleeping(s: State, i: int) {
    0 < i < |s.threads| && s.threads[i] == Waiting(false)
  }

  ghost function Notified(threads: seq<Thread>): (r: seq<Thread>)
    requires threads != []
    ensures |r| == |threads|
  {
    seq(|threads|, i requires 0 <= i < |threads| =>
      if i > 0 && threads[i].Waiting? then Waiting(true) else threads[i])
  }

  /** The master adds checks and notifies one worker, or all of them. */
  ghost function Added(s: State, checks: seq<Check>, who: nat): (r: State)
    requires s.threads != []
  {
    s.(sh := s.sh.(queue := s.sh.queue + checks, nTodo := s.sh.nTodo + |checks|),
       threads := if |checks| == 1 then (if Sleeping(s, who) then s.threads[who := Waiting(true)] else s.threads)
                  else if |checks| > 1 then Notified(s.threads) else s.threads,
       added := s.added + checks)
  }

  lemma {:induction false} SameSums(a: seq<Thread>, b: seq<Thread>, w: Weight)
    requires |a| == |b|
    requires forall i | 0 <= i < |a| :: a[i] == b[i] || (a[i].Waiting? && b[i].Waiting?)
    ensures InFlight(w, a) == InFlight(w, b)
    ensures Count(IS_WAITING, a) == Count(IS_WAITING, b) && Count(IS_WORKING, a) == Count(IS_WORKING, b)
  {
    if a != [] {
      var n := |a| - 1;
      SameSums(a[..n], b[..n], w);
    }
  }

  lemma AddedAwake(s: State, checks: seq<Check>, who: nat)
    requires WorkerAwake(s) && WorkersInside(s, 0) && s.threads != []
    requires |checks| == 1 ==> Sleeping(s, who) || forall i :: !Sleeping(s, i)
    ensures WorkerAwake(Added(s, checks, who))
  {
    var r := Added(s, checks, who);
    if r.sh.queue != [] && |r.threads| > 1 {
      if |checks| == 1 && Sleeping(s, who) {
        assert Active(r.threads[who]);
      } else if |checks| == 0 {
        assert r.sh.queue == s.sh.queue;
      } else {
        assert !Sleeping(s, 1) || |checks| > 1;
        assert Active(r.threads[1]);
      }
    }
  }

  lemma AddedKeepsInv(s: State, checks: seq<Check>, who: nat)
    requires Inv(s) && s.threads[0].Outside?
    requires |checks| == 1 ==> Sleeping(s, who) || forall i :: !Sleeping(s, i)
    ensures Inv(Added(s, checks, who))
  {
    var r := Added(s, checks, who);
    SameSums(r.threads, s.threads, EACH);
    MassAppend(EACH, s.sh.queue, checks);
    MassOfEach(checks);
    forall w ensures Mass(w, r.added) == Pending(w, r) + Mass(w, r.finished) {
      SameSums(r.threads, s.threads, w);
      MassAppend(w, s.added, checks);
      MassAppend(w, s.sh.queue, checks);
    }
    AddedAwake(s, checks, who);
  }

  /******* Runs *******/

  datatype Op =
    | OpStart                                // a new worker thread
    | OpAdd(checks: seq<Check>, who: nat)    // the master adds; who is notified if only one is
    | OpWait                                 // the master begins to wait
    | OpWake(i: nat)                         // a waiting thread runs again, notified or not
    | OpReport(i: nat)                       // a thread has worked off its batch

  ghost predicate Enabled(s: State, op: Op) {
    match op
    case OpStart => true
    case OpAdd(checks, who) =>
      s.threads != [] && s.threads[0].Outside? && (|checks| == 1 ==> Sleeping(s, who) || forall i :: !Sleeping(s, i))
    case OpWait => s.threads != [] && s.threads[0].Outside?
    case OpWake(i) => i < |s.threads| && s.threads[i].Waiting?
    case OpReport(i) => i < |s.threads| && s.threads[i].Working?
  }

  ghost function Step(s: State, op: Op, batchMax: nat): (r: State)
    requires Inv(s) && Enabled(s, op)
    ensures Inv(r)
  {
    match op
    case OpStart =>
      var n := |s.threads|;
      StartedMid(s);
      Go(Entered(s.(threads := s.threads + [Outside]), n), n, batchMax)
    case OpAdd(checks, who) => AddedKeepsInv(s, checks, who); Added(s, checks, who)
    case OpWait => EnteredMid(s, 0); Go(Entered(s, 0), 0, batchMax)
    case OpWake(i) => WokenMid(s, i); Go(Woken(s, i), i, batchMax)
    case OpReport(i) => ReportedMid(s, i); Go(Reported(s, i), i, batchMax)
  }

  ghost function Go(s: State, i: nat, batchMax: nat): (r: State)
    requires Mid(s, i)
    ensures Inv(r) && r == Proceed(s, i, batchMax)
  {
    ProceedKeepsInv(s, i, batchMax);
    Proceed(s, i, batchMax)
  }

  /** Some run of enabled steps leads from s to r. */
  ghost predicate Reaches(s: State, ops: seq<Op>, r: State, batchMax: nat)
    requires Inv(s)
    decreases |ops|
  {
    if ops == [] then r == s
    else Enabled(s, ops[0]) && Reaches(Step(s, ops[0], batchMax), ops[1..], r, batchMax)
  }

  lemma {:induction false} RunKeepsInv(s: State, ops: seq<Op>, r: State, batchMax: nat)
    requires Inv(s) && Reaches(s, ops, r, batchMax)
    ensures Inv(r)
    decreases |ops|
  {
    if ops != [] {
      RunKeepsInv(Step(s, ops[0], batchMax), ops[1..], r, batchMax);
    }
  }

  /** All checks that a run adds, in order. */
  ghost function AddedBy(ops: seq<Op>): seq<Check> {
    if ops == [] then [] else (if ops[0].OpAdd? then ops[0].checks else []) + AddedBy(ops[1..])
  }

  /** The checks of all verdicts, in order. */
  ghost function Judged(verdicts: seq<Verdict>): seq<Check> {
    if verdicts == [] then [] else Judged(verdicts[..|verdicts| - 1]) + verdicts[|verdicts| - 1].checks
  }

  lemma StepJudges(s: State, op: Op, batchMax: nat)
    requires Inv(s) && Enabled(s, op)
    ensures var r := Step(s, op, batchMax);
            Judged(r.verdicts) + r.added == Judged(s.verdicts) + s.added + if op.OpAdd? then op.checks else []
  {
    hide Inv;
    var r := Step(s, op, batchMax);
    if op.OpAdd? {
      assert Judged(s.verdicts) + (s.added + op.checks) == Judged(s.verdicts) + s.added + op.checks;
    } else if |r.verdicts| > |s.verdicts| {
      assert r.verdicts[..|s.verdicts|] == s.verdicts;
    }
  }

  /** The verdicts split the stream of added checks: none is judged twice, none is left out. */
  lemma {:induction false} RunJudges(s: State, ops: seq<Op>, r: State, batchMax: nat)
    requires Inv(s) && Reaches(s, ops, r, batchMax)
    ensures Judged(r.verdicts) + r.added == Judged(s.verdicts) + s.added + AddedBy(ops)
    decreases |ops|
  {
    hide Inv, Step;
    if ops != [] {
      var m := Step(s, ops[0], batchMax);
      StepJudges(s, ops[0], batchMax);
      RunJudges(m, ops[1..], r, batchMax);
      var a := if ops[0].OpAdd? then ops[0].checks else [];
      assert Judged(s.verdicts) + s.added + a + AddedBy(ops[1..]) == Judged(s.verdicts) + s.added + (a + AddedBy(ops[1..]));
    }
  }

  ghost predicate IsIdle(sh: Shared) {
    sh.nTotal == sh.nIdle && sh.nTodo == 0 && sh.allOk
  }

  /** The queue is idle from a verdict until the next check is added. */
  lemma IdleUntilAdd(s: State)
    requires Inv(s) && s.added == []
    ensures IsIdle(s.sh)
  {
    MassOfEach(s.finished);
    assert Mass(EACH, s.added) == 0;
    assert s.finished == [];
    NoneWorking(s.threads);
  }

  /**
   * The queue calls itself idle exactly when nothing is queued, no thread
   * holds a batch, and all that was added since the last verdict has passed.
   */
  lemma IdleMeans(s: State)
    requires Inv(s)
    ensures IsIdle(s.sh) <==>
            s.sh.queue == [] && (forall i | 0 <= i < |s.threads| :: !s.threads[i].Working?) && AllPass(s.added)
  {
    MassOfEach(s.sh.queue);
    if s.sh.nTodo == 0 {
      forall i | 0 <= i < |s.threads| ensures !s.threads[i].Working? {
        NoBatch(s.threads, i);
      }
      NoneWorking(s.threads);
      NothingPending(s, FAILING);
      MassOfFailing(s.added);
      MassOfFailing(s.finished);
      assert Mass(FAILING, s.added) == Pending(FAILING, s) + Mass(FAILING, s.finished);
    } else if s.sh.queue == [] {
      SomebodyHolds(EACH, s.threads);
    }
  }

  lemma {:induction false} NoneWorking(threads: seq<Thread>)
    requires InFlight(EACH, threads) == 0
    requires forall i | 0 <= i < |threads| && threads[i].Working? :: threads[i].batch != []
    ensures Count(IS_WORKING, threads) == 0
  {
    if threads != [] {
      var n := |threads| - 1;
      NoneWorking(threads[..n]);
      NoBatch(threads, n);
    }
  }

  /** While the master is in Wait, some thread is at work or has been notified. */
  lemma NeverStuck(s: State)
    requires Inv(s) && !s.threads[0].Outside?
    ensures exists i :: 0 <= i < |s.threads| && Active(s.threads[i])
  {
    if !Active(s.threads[0]) {
      assert Mass(EACH, s.sh.queue) == 0;
      SomebodyHolds(EACH, s.threads);
      var i :| 0 <= i < |s.threads| && s.threads[i].Working?;
      assert Active(s.threads[i]);
    } else {
      assert Active(s.threads[0]);
    }
  }

  /**
   * What holds after any run of any number of threads: verdicts are right and
   * split the stream of checks, counters are exact, no wake-up is lost, and
   * the queue is idle from a verdict to the next check.
   */
  lemma EveryRun(ops: seq<Op>, s: State, batchMax: nat)
    requires Reaches(Initial(), ops, s, batchMax)
    ensures forall v | v in s.verdicts :: Right(v)
    ensures Judged(s.verdicts) + s.added == AddedBy(ops)
    ensures s.sh.nTodo == Pending(EACH, s) && s.sh.nTotal - s.sh.nIdle == Count(IS_WORKING, s.threads)
    ensures s.threads != [] && (s.threads[0] == Waiting(false) ==> s.sh.nTodo > 0)
    ensures s.threads != [] && !s.threads[0].Outside? ==> exists i :: 0 <= i < |s.threads| && Active(s.threads[i])
    ensures s.added == [] ==> IsIdle(s.sh)
  {
    RunKeepsInv(Initial(), ops, s, batchMax);
    RunJudges(Initial(), ops, s, batchMax);
    if s.added == [] {
      IdleUntilAdd(s);
    }
    if !s.threads[0].Outside? {
      NeverStuck(s);
    }
  }

  /******* Progress *******/

  ghost function Remaining(s: State): int {
    2 * s.sh.nTodo + |s.sh.queue| + Count(IS_SIGNALLED, s.threads)
  }

  /** A wake-up without a notification and with nothing to do. */
  ghost predicate IdleWake(s: State, op: Op) {
    op.OpWake? && op.i < |s.threads| && s.threads[op.i] == Waiting(false) && s.sh.queue == []
  }

  lemma IdleWakeChangesNothing(s: State, op: Op, batchMax: nat)
    requires Inv(s) && Enabled(s, op) && IdleWake(s, op)
    ensures Step(s, op, batchMax) == s
  {
    assert s.threads[op.i := Outside][op.i := Waiting(false)] == s.threads;
  }

  lemma ProceedRemaining(s: State, i: nat, batchMax: nat)
    requires Mid(s, i)
    ensures Remaining(Proceed(s, i, batchMax)) <= Remaining(s)
    ensures s.sh.queue != [] ==> Remaining(Proceed(s, i, batchMax)) < Remaining(s)
  {
    var r := Proceed(s, i, batchMax);
    CountUpdate(IS_SIGNALLED, s.threads, i, r.threads[i]);
    assert r.threads == s.threads[i := r.threads[i]];
  }

  lemma WakeProgress(s: State, i: nat, batchMax: nat)
    requires Inv(s) && Enabled(s, OpWake(i)) && !IdleWake(s, OpWake(i))
    ensures Remaining(Step(s, OpWake(i), batchMax)) < Remaining(s)
  {
    hide Inv, Mid;
    WokenMid(s, i);
    CountUpdate(IS_SIGNALLED, s.threads, i, Outside);
    ProceedRemaining(Woken(s, i), i, batchMax);
  }

  lemma ReportProgress(s: State, i: nat, batchMax: nat)
    requires Inv(s) && Enabled(s, OpReport(i))
    ensures Remaining(Step(s, OpReport(i), batchMax)) < Remaining(s)
  {
    ReportedMid(s, i);
    var mid := s.threads[i := Outside];
    CountUpdate(IS_SIGNALLED, s.threads, i, Outside);
    CountUpdate(IS_SIGNALLED, mid, 0, Waiting(true));
    ProceedRemaining(Reported(s, i), i, batchMax);
  }

  lemma StartProgress(s: State, batchMax: nat)
    requires Inv(s)
    ensures Remaining(Step(s, OpStart, batchMax)) <= Remaining(s)
  {
    var n := |s.threads|;
    StartedMid(s);
    var m := Entered(s.(threads := s.threads + [Outside]), n);
    assert m.threads == s.threads + [Outside] && m.threads[..n] == s.threads;
    ProceedRemaining(m, n, batchMax);
  }

  /** How many steps of a run do something: take, hand back, or consume a notification. */
  ghost function Doings(s: State, ops: seq<Op>, batchMax: nat): nat
    requires Inv(s)
    decreases |ops|
  {
    if ops == [] || !Enabled(s, ops[0]) then 0
    else (if ops[0].OpReport? || (ops[0].OpWake? && !IdleWake(s, ops[0])) then 1 else 0)
         + Doings(Step(s, ops[0], batchMax), ops[1..], batchMax)
  }

  /** A step counts exactly if it hands a batch back, or is a wake-up that is notified or finds work. */
  lemma DoingIs(s: State, op: Op, batchMax: nat)
    requires Inv(s) && Enabled(s, op)
    ensures Doings(s, [op], batchMax) ==
            if op.OpReport? || (op.OpWake? && (s.threads[op.i].signalled || s.sh.queue != [])) then 1 else 0
  {
    hide Inv, Step;
    assert Doings(Step(s, op, batchMax), [], batchMax) == 0;
    assert [op][1..] == [];
  }

  ghost predicate Within(ops: seq<Op>) {
    forall op | op in ops :: !op.OpAdd? && !op.OpWait?
  }

  /** Between one call of the master and the next only so many steps can do anything. */
  lemma {:induction false} WaitIsBounded(s: State, ops: seq<Op>, r: State, batchMax: nat)
    requires Inv(s) && Reaches(s, ops, r, batchMax) && Within(ops)
    ensures Doings(s, ops, batchMax) + Remaining(r) <= Remaining(s)
    decreases |ops|
  {
    hide Inv, Step, Remaining, IdleWake;
    if ops != [] {
      var op := ops[0];
      var m := Step(s, op, batchMax);
      match op {
        case OpStart => StartProgress(s, batchMax);
        case OpWake(i) =>
          if IdleWake(s, op) { IdleWakeChangesNothing(s, op, batchMax); } else { WakeProgress(s, i, batchMax); }
        case OpReport(i) => ReportProgress(s, i, batchMax);
        case _ =>
      }
      WaitIsBounded(m, ops[1..], r, batchMax);
    }
  }

  lemma StepVerdicts(s: State, op: Op, batchMax: nat)
    requires Inv(s) && Enabled(s, op) && !op.OpAdd? && !op.OpWait?
    ensures var r := Step(s, op, batchMax);
            && |r.threads| >= |s.threads| >= 1
            && |r.verdicts| >= |s.verdicts|
            && (!s.threads[0].Outside? && r.threads[0].Outside? ==> |r.verdicts| > |s.verdicts|)
            && (s.threads[0].Outside? ==> r.threads[0].Outside?)
  {
    hide Balanced, Conserved, Faithful, NoneTwice, VerdictsRight, WorkerAwake, WorkersInside, AllPass, Mass, InFlight, Count;
  }

  /** The master comes out of Wait only with a verdict. */
  lemma {:induction false} OutWithVerdict(s: State, ops: seq<Op>, r: State, batchMax: nat)
    requires Inv(s) && Inv(r) && Reaches(s, ops, r, batchMax) && Within(ops)
    ensures |r.verdicts| >= |s.verdicts|
    ensures !s.threads[0].Outside? && r.threads[0].Outside? ==> |r.verdicts| > |s.verdicts|
    decreases |ops|
  {
    hide Step, Balanced, Conserved, Faithful, NoneTwice, VerdictsRight, WorkerAwake;
    if ops != [] {
      StepVerdicts(s, ops[0], batchMax);
      OutWithVerdict(Step(s, ops[0], batchMax), ops[1..], r, batchMax);
    }
  }

  /** A step that does something can be taken. */
  ghost predicate CanDo(s: State) {
    exists op :: Enabled(s, op) && (op.OpReport? || (op.OpWake? && !IdleWake(s, op)))
  }

  /**
   * Every call of Wait returns: after Remaining steps that do something it has
   * given its verdict, and until then there is always such a step to take.
   */
  lemma WaitReturns(s: State, ops: seq<Op>, r: State, batchMax: nat)
    requires Inv(s) && !s.threads[0].Outside? && Reaches(s, ops, r, batchMax) && Within(ops)
    ensures Doings(s, ops, batchMax) >= Remaining(s) ==> |r.verdicts| > |s.verdicts|
    ensures |r.verdicts| == |s.verdicts| ==> CanDo(r)
  {
    hide Step, Balanced, Conserved, Faithful, NoneTwice, VerdictsRight, WorkerAwake, Remaining, CanDo;
    RunKeepsInv(s, ops, r, batchMax);
    WaitIsBounded(s, ops, r, batchMax);
    OutWithVerdict(s, ops, r, batchMax);
    if !r.threads[0].Outside? {
      NeverStuck(r);
      ActiveCanDo(r);
    }
  }

  lemma ActiveCanDo(s: State)
    requires Inv(s) && exists i :: 0 <= i < |s.threads| && Active(s.threads[i])
    ensures CanDo(s) && Remaining(s) > 0
  {
    hide Conserved, Faithful, NoneTwice, VerdictsRight, WorkerAwake, MasterRight, WorkersInside;
    var i :| 0 <= i < |s.threads| && Active(s.threads[i]);
    if s.threads[i].Working? {
      assert Enabled(s, OpReport(i));
      SomeoneWorking(s, i);
    } else {
      assert Enabled(s, OpWake(i)) && !IdleWake(s, OpWake(i));
      CountUpdate(IS_SIGNALLED, s.threads, i, Outside);
    }
  }

  lemma SomeoneWorking(s: State, i: nat)
    requires Inv(s) && i < |s.threads| && s.threads[i].Working?
    ensures s.sh.nTodo > 0
  {
    if s.sh.nTodo == 0 {
      NoBatch(s.threads, i);
    }
  }
}
