/** The verification queue: one master and any number of workers share a stack of checks under a mutex
    with two condition variables. Each step is what one thread does between taking and releasing the
    mutex, or the run of one check outside it. */
module CheckQueue {

  /** A check and what running it answers. */
  datatype Check = Check(id: nat, ok: bool)

  type Checks = multiset<Check>

  predicate AllOk(m: Checks) {
    forall c :: c in m ==> c.ok
  }

  /** Where a thread is: not in Loop, blocked on its condition variable, or running its local batch
      outside the mutex. Of the batch, `done` checks have been passed and the first `executed` were run. */
  datatype Thread =
    | Outside
    | Waiting(notified: bool)
    | Working(batch: seq<Check>, done: nat, executed: nat, fOk: bool)

  /** What a finished Wait was about: the checks added since the last one, those run, and its answer. */
  datatype Outcome = Outcome(added: Checks, ran: Checks, ok: bool)

  /** The shared fields, the threads (thread 0 is the master), and the history since the last Wait. */
  datatype State = State(
    queue: seq<Check>, nIdle: int, nTotal: int, fAllOk: bool, nTodo: int, nBatchSize: nat,
    threads: seq<Thread>,
    added: Checks, finished: Checks, finishedRan: Checks, outcomes: seq<Outcome>)

  const MASTER: nat := 0

  /** What threads contribute to the counters and to the history. */
  function Idle(t: Thread): nat { if t.Waiting? then 1 else 0 }
  function Inside(t: Thread): nat { if t.Outside? then 0 else 1 }
  function Load(t: Thread): nat { if t.Working? then |t.batch| else 0 }
  function Holds(t: Thread): Checks { if t.Working? then multiset(t.batch) else multiset{} }
  function HasRun(t: Thread): Checks {
    if t.Working? && t.executed <= |t.batch| then multiset(t.batch[..t.executed]) else multiset{}
  }

  function Count(ts: seq<Thread>, f: Thread -> nat): nat {
    if ts == [] then 0 else Count(ts[..|ts| - 1], f) + f(ts[|ts| - 1])
  }

  function Gather(ts: seq<Thread>, f: Thread -> Checks): Checks {
    if ts == [] then multiset{} else Gather(ts[..|ts| - 1], f) + f(ts[|ts| - 1])
  }

  lemma {:induction false} CountUpdate(ts: seq<Thread>, f: Thread -> nat, i: nat, t: Thread)
    requires i < |ts|
    ensures Count(ts[i := t], f) == Count(ts, f) - f(ts[i]) + f(t)
    ensures f(ts[i]) <= Count(ts, f)
    decreases |ts|
  {
    var n := |ts| - 1;
    if i < n {
      CountUpdate(ts[..n], f, i, t);
      assert ts[i := t][..n] == ts[..n][i := t];
    } else {
      assert ts[i := t][..n] == ts[..n];
    }
  }

  lemma {:induction false} GatherUpdate(ts: seq<Thread>, f: Thread -> Checks, i: nat, t: Thread)
    requires i < |ts|
    ensures f(ts[i]) <= Gather(ts, f)
    ensures Gather(ts[i := t], f) == Gather(ts, f) - f(ts[i]) + f(t)
    decreases |ts|
  {
    var n := |ts| - 1;
    if i < n {
      GatherUpdate(ts[..n], f, i, t);
      assert ts[i := t][..n] == ts[..n][i := t];
    } else {
      assert ts[i := t][..n] == ts[..n];
    }
  }

  // ---------------------------------------------------------------------
  // Steps

  function Min(a: nat, b: nat): nat { if a <= b then a else b }
  function Max(a: nat, b: nat): nat { if a >= b then a else b }

  function BatchCount(s: State): (n: nat)
    requires s.queue != [] && s.nTotal >= 0 && s.nIdle >= 0
    ensures 1 <= n <= |s.queue|
  {
    DivideAtMost(|s.queue|, s.nTotal + s.nIdle + 1);
    Max(1, Min(s.nBatchSize, |s.queue| / (s.nTotal + s.nIdle + 1)))
  }

  /** A batch is as large as it can be without exceeding the batch size or an equal share of the queue for every
      thread, idle ones counted twice, and one more; but never empty. */
  lemma BatchIsShare(s: State)
    requires s.queue != [] && s.nTotal >= 0 && s.nIdle >= 0
    ensures var n, shares := BatchCount(s), s.nTotal + s.nIdle + 1;
      && (n > 1 ==> n <= s.nBatchSize && n * shares <= |s.queue|)
      && (n < s.nBatchSize ==> (n + 1) * shares > |s.queue|)
  {
    Share(|s.queue|, s.nTotal + s.nIdle + 1, BatchCount(s));
  }

  lemma Share(total: nat, shares: nat, n: nat)
    requires shares >= 1
    ensures n <= total / shares ==> n * shares <= total
    ensures n >= total / shares ==> (n + 1) * shares > total
  {
    var q := total / shares;
    assert total == q * shares + total % shares;
    if n <= q {
      Times(n, q, shares);
    }
    if n >= q {
      Times(q + 1, n + 1, shares);
    }
  }

  lemma Times(a: nat, b: nat, c: nat)
    requires a <= b
    ensures a * c <= b * c
  {
  }

  lemma DivideAtMost(a: nat, b: nat)
    requires b >= 1
    ensures 0 <= a / b <= a
  {
  }

  /** The local batch: the last checks of the queue, from the back. */
  function FromBack(queue: seq<Check>, n: nat): (b: seq<Check>)
    requires n <= |queue|
    ensures |b| == n && multiset(b) + multiset(queue[..|queue| - n]) == multiset(queue)
  {
    if n == 0 then
      assert queue[..|queue|] == queue;
      []
    else
      var k := |queue| - 1;
      var rest := FromBack(queue[..k], n - 1);
      assert queue == queue[..k] + [queue[k]];
      assert queue[..k][..k - (n - 1)] == queue[..|queue| - n];
      [queue[k]] + rest
  }

  /** A thread that holds the mutex and has accounted for its last batch. */
  const LOCKED: Thread := Working([], 0, 0, true)

  /** The head of the loop: leave (master, nothing left to do), wait, or take a batch. */
  function Decide(s: State, t: nat): State
    requires t < |s.threads| && s.nTotal >= 0 && s.nIdle >= 0
  {
    if s.queue == [] then
      if t == MASTER && s.nTodo == 0 then
        s.(nTotal := s.nTotal - 1, fAllOk := true, threads := s.threads[t := Outside],
           added := multiset{}, finished := multiset{}, finishedRan := multiset{},
           outcomes := s.outcomes + [Outcome(s.added, s.finishedRan, s.fAllOk)])
      else
        s.(nIdle := s.nIdle + 1, threads := s.threads[t := Waiting(false)])
    else
      var n := BatchCount(s);
      s.(queue := s.queue[..|s.queue| - n],
         threads := s.threads[t := Working(FromBack(s.queue, n), 0, 0, s.fAllOk)])
  }

  datatype Action =
    | Enter(t: nat)                       // a worker starts, or the master calls Wait
    | Wake(t: nat)                        // a blocked thread resumes, notified or spuriously
    | Execute(t: nat)                     // one check of the local batch
    | Finish(t: nat)                      // the batch is complete: account for it
    | Add(checks: seq<Check>, whom: nat)  // the master adds checks; `whom` gets a notify_one

  predicate Enabled(s: State, a: Action) {
    match a
    case Enter(t) => t < |s.threads| && s.threads[t].Outside?
    case Wake(t) => t < |s.threads| && s.threads[t].Waiting?
    case Execute(t) => t < |s.threads| && s.threads[t].Working? && s.threads[t].done < |s.threads[t].batch|
    case Finish(t) => t < |s.threads| && s.threads[t].Working? && s.threads[t].done >= |s.threads[t].batch|
    case Add(_, _) => 0 < |s.threads| && s.threads[MASTER].Outside?
  }

  function Notify(t: Thread): Thread {
    if t.Waiting? then Waiting(true) else t
  }

  function NotifyWorkers(ts: seq<Thread>): seq<Thread> {
    seq(|ts|, i requires 0 <= i < |ts| => if i == MASTER then ts[i] else Notify(ts[i]))
  }

  /** The thread is accounted for and about to decide, still holding the mutex. */
  function Settle(s: State, a: Action): State
    requires Enabled(s, a) && !a.Add? && !a.Execute?
  {
    match a
    case Enter(t) => s.(nTotal := s.nTotal + 1, threads := s.threads[t := LOCKED])
    case Wake(t) => s.(nIdle := s.nIdle - 1, threads := s.threads[t := LOCKED])
    case Finish(t) =>
      var me := s.threads[t];
      var todo := s.nTodo - |me.batch|;
      var ts := s.threads[t := LOCKED];
      s.(fAllOk := s.fAllOk && me.fOk, nTodo := todo,
         threads := if todo == 0 && t != MASTER then ts[MASTER := Notify(ts[MASTER])] else ts,
         finished := s.finished + Holds(me), finishedRan := s.finishedRan + HasRun(me))
  }

  function ExecuteStep(me: Thread): Thread
    requires me.Working? && me.done < |me.batch|
  {
    if me.fOk then Working(me.batch, me.done + 1, me.done + 1, me.batch[me.done].ok)
    else me.(done := me.done + 1)
  }

  function AddStep(s: State, checks: seq<Check>, whom: nat): State
    requires 0 < |s.threads|
  {
    s.(queue := s.queue + checks, nTodo := s.nTodo + |checks|, added := s.added + multiset(checks),
       threads :=
         if |checks| > 1 then NotifyWorkers(s.threads)
         else if |checks| == 1 && whom != MASTER && whom < |s.threads| then
           s.threads[whom := Notify(s.threads[whom])]
         else s.threads)
  }

  ghost function Next(s: State, a: Action): State
    requires Inv(s) && Enabled(s, a)
  {
    match a
    case Execute(t) => s.(threads := s.threads[t := ExecuteStep(s.threads[t])])
    case Add(checks, whom) => AddStep(s, checks, whom)
    case _ =>
      SettleInv(s, a);
      Decide(Settle(s, a), a.t)
  }

  // ---------------------------------------------------------------------
  // The invariant

  ghost predicate ThreadOk(s: State, i: nat)
    requires i < |s.threads|
  {
    var t := s.threads[i];
    t.Working? ==>
      && t.executed <= t.done <= |t.batch|
      && (t.fOk ==> t.executed == t.done && forall k :: 0 <= k < t.done ==> t.batch[k].ok)
      && (!t.fOk ==> !AllOk(s.added))
  }

  /** The counters are exact: nTodo is queued plus in-flight checks. */
  ghost predicate CountersOk(s: State) {
    && s.nIdle == Count(s.threads, Idle)
    && s.nTotal == Count(s.threads, Inside)
    && s.nTodo == |s.queue| + Count(s.threads, Load)
  }

  /** Every added check is queued, in one batch, or finished; the verdict is about the finished ones. */
  ghost predicate ChecksOk(s: State) {
    && s.added == multiset(s.queue) + Gather(s.threads, Holds) + s.finished
    && s.finishedRan <= s.finished
    && (s.fAllOk ==> AllOk(s.finished) && s.finishedRan == s.finished)
    && (!s.fAllOk ==> !AllOk(s.added))
  }

  ghost predicate ThreadsOk(s: State, locked: int) {
    && (forall i :: 0 <= i < |s.threads| ==> ThreadOk(s, i))
    && (forall i :: 0 <= i < |s.threads| && i != locked && s.threads[i].Working? ==> |s.threads[i].batch| > 0)
  }

  /** No wake-up of the master is lost: if it is blocked without a notification there is work in flight. */
  ghost predicate MasterOk(s: State) {
    && 0 < |s.threads|
    && (s.threads[MASTER].Waiting? ==> s.queue == [])
    && (s.threads[MASTER] == Waiting(false) ==> s.nTodo > 0)
  }

  /** The invariant while thread `locked` (if any) holds the mutex with its batch accounted for. */
  ghost predicate InvWith(s: State, locked: int) {
    && MasterOk(s)
    && CountersOk(s)
    && ChecksOk(s)
    && ThreadsOk(s, locked)
    && forall o :: o in s.outcomes ==> OutcomeOk(o)
  }

  /** A Wait answered with the conjunction of the checks added for it; no check ran twice, and none was
      left out of a positive answer. */
  ghost predicate OutcomeOk(o: Outcome) {
    && (o.ok <==> AllOk(o.added))
    && o.ran <= o.added
    && (o.ok ==> o.ran == o.added)
  }

  ghost predicate Inv(s: State) {
    InvWith(s, -1)
  }

  // ---------------------------------------------------------------------
  // Every step keeps it

  /** What replacing one thread does to the sums over all threads. */
  lemma Replace(ts: seq<Thread>, i: nat, t: Thread)
    requires i < |ts|
    ensures Count(ts[i := t], Idle) == Count(ts, Idle) - Idle(ts[i]) + Idle(t)
    ensures Count(ts[i := t], Inside) == Count(ts, Inside) - Inside(ts[i]) + Inside(t)
    ensures Count(ts[i := t], Load) == Count(ts, Load) - Load(ts[i]) + Load(t)
    ensures Gather(ts[i := t], Holds) == Gather(ts, Holds) - Holds(ts[i]) + Holds(t)
    ensures Holds(ts[i]) <= Gather(ts, Holds)
  {
    CountUpdate(ts, Idle, i, t);
    CountUpdate(ts, Inside, i, t);
    CountUpdate(ts, Load, i, t);
    GatherUpdate(ts, Holds, i, t);
  }

  lemma EnterInv(s: State, a: Action)
    requires Inv(s) && (a.Enter? || a.Wake?) && Enabled(s, a)
    ensures InvWith(Settle(s, a), a.t)
  {
    EnterSums(s, a);
    SameThreads(s, Settle(s, a), a.t, a.t);
    hide ThreadsOk, CountersOk, Count, Gather, AllOk;
  }

  lemma EnterSums(s: State, a: Action)
    requires Inv(s) && (a.Enter? || a.Wake?) && Enabled(s, a)
    ensures CountersOk(Settle(s, a)) && Gather(Settle(s, a).threads, Holds) == Gather(s.threads, Holds)
  {
    hide ThreadsOk, ChecksOk, OutcomeOk;
    Replace(s.threads, a.t, LOCKED);
  }

  lemma HasRunAtMost(t: Thread)
    ensures HasRun(t) <= Holds(t)
    ensures t.Working? && t.executed == |t.batch| ==> HasRun(t) == Holds(t)
  {
    if t.Working? && t.executed <= |t.batch| {
      assert t.batch == t.batch[..t.executed] + t.batch[t.executed..];
      assert t.executed == |t.batch| ==> t.batch[..t.executed] == t.batch;
    }
  }

  /** Accounting for a batch moves its checks from the thread to the finished ones and keeps the verdict. */
  lemma FinishVerdict(s: State, t: nat)
    requires Inv(s) && Enabled(s, Finish(t))
    ensures var me := s.threads[t];
            var finished, finishedRan, ok := s.finished + Holds(me), s.finishedRan + HasRun(me), s.fAllOk && me.fOk;
            && finishedRan <= finished
            && (ok ==> AllOk(finished) && finishedRan == finished)
            && (!ok ==> !AllOk(s.added))
  {
    assert ThreadOk(s, t);
    var me := s.threads[t];
    HasRunAtMost(me);
    if s.fAllOk && me.fOk {
      assert forall c :: c in Holds(me) ==> c in me.batch;
    }
  }

  lemma MoveChecks(queue: Checks, held: Checks, mine: Checks, finished: Checks)
    requires mine <= held
    ensures queue + (held - mine) + (finished + mine) == queue + held + finished
  {
  }

  lemma FinishSums(s: State, t: nat)
    requires Inv(s) && Enabled(s, Finish(t))
    ensures var ts := Settle(s, Finish(t)).threads;
            && CountersOk(Settle(s, Finish(t)))
            && Gather(ts, Holds) == Gather(s.threads, Holds) - Holds(s.threads[t])
            && Holds(s.threads[t]) <= Gather(s.threads, Holds)
  {
    var ts := s.threads[t := LOCKED];
    Replace(s.threads, t, LOCKED);
    NotifyWorkersSums(ts, Settle(s, Finish(t)).threads);
  }

  lemma FinishCounts(s: State, t: nat)
    requires Inv(s) && Enabled(s, Finish(t))
    ensures CountersOk(Settle(s, Finish(t))) && ChecksOk(Settle(s, Finish(t)))
  {
    FinishSums(s, t);
    FinishVerdict(s, t);
    MoveChecks(multiset(s.queue), Gather(s.threads, Holds), Holds(s.threads[t]), s.finished);
  }

  lemma SameThreads(s: State, s': State, t: nat, locked: int)
    requires ThreadsOk(s, -1) && |s'.threads| == |s.threads| && t < |s.threads| && s'.added == s.added
    requires forall i :: 0 <= i < |s.threads| && i != t ==>
               s'.threads[i] == s.threads[i] || s'.threads[i] == Notify(s.threads[i])
    requires ThreadOk(s', t) && (s'.threads[t].Working? && t != locked ==> |s'.threads[t].batch| > 0)
    ensures ThreadsOk(s', locked)
  {
    forall i | 0 <= i < |s.threads|
      ensures ThreadOk(s', i)
    {
      assert ThreadOk(s, i);
    }
  }

  lemma FinishInv(s: State, t: nat)
    requires Inv(s) && Enabled(s, Finish(t))
    ensures InvWith(Settle(s, Finish(t)), t)
    ensures Settle(s, Finish(t)).threads[t] == LOCKED
  {
    assert ThreadOk(s, t);
    FinishCounts(s, t);
    SameThreads(s, Settle(s, Finish(t)), t, t);
  }

  lemma SettleInv(s: State, a: Action)
    requires Inv(s) && Enabled(s, a) && !a.Add? && !a.Execute?
    ensures InvWith(Settle(s, a), a.t) && Settle(s, a).threads[a.t] == LOCKED
    ensures Settle(s, a).nTotal >= 0 && Settle(s, a).nIdle >= 0
  {
    if a.Finish? {
      FinishInv(s, a.t);
    } else {
      EnterInv(s, a);
    }
  }

  lemma {:induction false} NoLoadNoChecks(ts: seq<Thread>)
    requires Count(ts, Load) == 0
    ensures Gather(ts, Holds) == multiset{}
    ensures forall i :: 0 <= i < |ts| ==> Load(ts[i]) == 0
    decreases |ts|
  {
    if ts != [] {
      NoLoadNoChecks(ts[..|ts| - 1]);
      assert forall i :: 0 <= i < |ts| - 1 ==> ts[i] == ts[..|ts| - 1][i];
    }
  }

  lemma LeaveInv(s: State)
    requires InvWith(s, MASTER) && s.threads[MASTER] == LOCKED && s.nTotal >= 0 && s.nIdle >= 0
    requires s.queue == [] && s.nTodo == 0
    ensures Inv(Decide(s, MASTER))
    ensures OutcomeOk(Outcome(s.added, s.finishedRan, s.fAllOk))
  {
    NoLoadNoChecks(s.threads);
    Replace(s.threads, MASTER, Outside);
    var s' := Decide(s, MASTER);
    assert s.added == s.finished;
    forall i | 0 <= i < |s'.threads|
      ensures ThreadOk(s', i) && !s'.threads[i].Working?
    {
      if i != MASTER {
        assert s'.threads[i] == s.threads[i] && Load(s.threads[i]) == 0;
      }
    }
  }

  lemma BlockSums(s: State, t: nat)
    requires t < |s.threads| && CountersOk(s) && ChecksOk(s) && s.threads[t] == LOCKED && s.nTotal >= 0 && s.nIdle >= 0
    requires s.queue == [] && !(t == MASTER && s.nTodo == 0)
    ensures CountersOk(Decide(s, t)) && ChecksOk(Decide(s, t))
    ensures t == MASTER ==> s.nTodo > 0
  {
    Replace(s.threads, t, Waiting(false));
  }

  lemma BlockInv(s: State, t: nat)
    requires t < |s.threads| && InvWith(s, t) && s.threads[t] == LOCKED && s.nTotal >= 0 && s.nIdle >= 0
    requires s.queue == [] && !(t == MASTER && s.nTodo == 0)
    ensures Inv(Decide(s, t))
  {
    hide CountersOk, ChecksOk;
    BlockSums(s, t);
    var s' := Decide(s, t);
    forall i | 0 <= i < |s'.threads|
      ensures ThreadOk(s', i)
    {
      assert ThreadOk(s, i);
    }
  }

  lemma TakeCounters(s: State, t: nat)
    requires t < |s.threads| && CountersOk(s) && s.threads[t] == LOCKED && s.nTotal >= 0 && s.nIdle >= 0
    requires s.queue != []
    ensures CountersOk(Decide(s, t))
  {
    var n := BatchCount(s);
    var me := Working(FromBack(s.queue, n), 0, 0, s.fAllOk);
    CountUpdate(s.threads, Idle, t, me);
    CountUpdate(s.threads, Inside, t, me);
    CountUpdate(s.threads, Load, t, me);
  }

  lemma TakeSplit(queue: Checks, rest: Checks, batch: Checks, held: Checks)
    requires batch + rest == queue
    ensures rest + (held - multiset{} + batch) == queue + held
  {
  }

  lemma DecideTakes(s: State, t: nat)
    requires t < |s.threads| && s.nTotal >= 0 && s.nIdle >= 0 && s.queue != []
    ensures var n := BatchCount(s);
            && Decide(s, t).queue == s.queue[..|s.queue| - n]
            && Decide(s, t).threads == s.threads[t := Working(FromBack(s.queue, n), 0, 0, s.fAllOk)]
  {
  }

  lemma HoldsBatch(batch: seq<Check>, fOk: bool)
    ensures Holds(Working(batch, 0, 0, fOk)) == multiset(batch)
    ensures Holds(LOCKED) == multiset{}
  {
  }

  lemma TakeChecks(s: State, t: nat)
    requires t < |s.threads| && s.threads[t] == LOCKED && s.nTotal >= 0 && s.nIdle >= 0
    requires s.queue != []
    ensures multiset(Decide(s, t).queue) + Gather(Decide(s, t).threads, Holds) ==
            multiset(s.queue) + Gather(s.threads, Holds)
  {
    hide *;
    var n := BatchCount(s);
    var batch := FromBack(s.queue, n);
    DecideTakes(s, t);
    HoldsBatch(batch, s.fAllOk);
    GatherUpdate(s.threads, Holds, t, Working(batch, 0, 0, s.fAllOk));
    TakeSplit(multiset(s.queue), multiset(s.queue[..|s.queue| - n]), multiset(batch), Gather(s.threads, Holds));
  }

  lemma TakeInv(s: State, t: nat)
    requires t < |s.threads| && InvWith(s, t) && s.threads[t] == LOCKED && s.nTotal >= 0 && s.nIdle >= 0
    requires s.queue != []
    ensures Inv(Decide(s, t))
  {
    TakeCounters(s, t);
    TakeChecks(s, t);
    var s' := Decide(s, t);
    forall i | 0 <= i < |s'.threads|
      ensures ThreadOk(s', i)
    {
      assert ThreadOk(s, i);
    }
  }

  lemma ExecuteThread(s: State, t: nat, s': State)
    requires Inv(s) && Enabled(s, Execute(t))
    requires s' == s.(threads := s.threads[t := ExecuteStep(s.threads[t])])
    ensures ThreadOk(s', t)
  {
    var me := s.threads[t];
    assert ThreadOk(s, t);
    if me.fOk && !me.batch[me.done].ok {
      GatherUpdate(s.threads, Holds, t, me);
      assert me.batch[me.done] in Holds(me);
      assert me.batch[me.done] in s.added;
    }
  }

  lemma ExecuteSums(s: State, t: nat)
    requires CountersOk(s) && ChecksOk(s) && Enabled(s, Execute(t))
    ensures var s' := s.(threads := s.threads[t := ExecuteStep(s.threads[t])]); CountersOk(s') && ChecksOk(s')
  {
    Replace(s.threads, t, ExecuteStep(s.threads[t]));
  }

  lemma ExecuteInv(s: State, t: nat)
    requires Inv(s) && Enabled(s, Execute(t))
    ensures Inv(s.(threads := s.threads[t := ExecuteStep(s.threads[t])]))
  {
    hide CountersOk, ChecksOk;
    var s' := s.(threads := s.threads[t := ExecuteStep(s.threads[t])]);
    ExecuteSums(s, t);
    ExecuteThread(s, t, s');
    SameThreads(s, s', t, -1);
  }

  lemma {:induction false} NotifyWorkersSums(ts: seq<Thread>, ts': seq<Thread>)
    requires |ts'| == |ts| && forall i :: 0 <= i < |ts| ==> ts'[i] == ts[i] || ts'[i] == Notify(ts[i])
    ensures Count(ts', Idle) == Count(ts, Idle) && Count(ts', Inside) == Count(ts, Inside)
    ensures Count(ts', Load) == Count(ts, Load) && Gather(ts', Holds) == Gather(ts, Holds)
    decreases |ts|
  {
    if ts != [] {
      NotifyWorkersSums(ts[..|ts| - 1], ts'[..|ts| - 1]);
    }
  }

  lemma AddInv(s: State, checks: seq<Check>, whom: nat)
    requires Inv(s) && Enabled(s, Add(checks, whom))
    ensures Inv(AddStep(s, checks, whom))
  {
    var s' := AddStep(s, checks, whom);
    NotifyWorkersSums(s.threads, s'.threads);
    forall i | 0 <= i < |s'.threads|
      ensures ThreadOk(s', i)
    {
      assert ThreadOk(s, i);
    }
  }

  lemma NextInv(s: State, a: Action)
    requires Inv(s) && Enabled(s, a)
    ensures Inv(Next(s, a))
  {
    match a
    case Execute(t) => ExecuteInv(s, t);
    case Add(checks, whom) => AddInv(s, checks, whom);
    case _ =>
      SettleInv(s, a);
      var m := Settle(s, a);
      if m.queue != [] {
        TakeInv(m, a.t);
      } else if a.t == MASTER && m.nTodo == 0 {
        LeaveInv(m);
      } else {
        BlockInv(m, a.t);
      }
  }

  // ---------------------------------------------------------------------
  // Whole runs

  /** The state the constructor leaves, before any thread has entered. */
  function Initial(threads: nat, nBatchSize: nat): State {
    State([], 0, 0, true, 0, nBatchSize, seq(threads, _ => Outside), multiset{}, multiset{}, multiset{}, [])
  }

  lemma {:induction false} OutsideSums(n: nat)
    ensures var ts := seq(n, _ => Outside);
            Count(ts, Idle) == Count(ts, Inside) == Count(ts, Load) == 0 && Gather(ts, Holds) == multiset{}
  {
    if n > 0 {
      OutsideSums(n - 1);
      assert seq(n, _ => Outside)[..n - 1] == seq(n - 1, _ => Outside);
    }
  }

  lemma InitialInv(threads: nat, nBatchSize: nat)
    requires threads > 0
    ensures Inv(Initial(threads, nBatchSize))
  {
    OutsideSums(threads);
  }

  /** The actions can be taken in this order from `s`. */
  ghost predicate IsRun(s: State, acts: seq<Action>)
    requires Inv(s)
    decreases |acts|
  {
    acts == [] || (Enabled(s, acts[0]) && (NextInv(s, acts[0]); IsRun(Next(s, acts[0]), acts[1..])))
  }

  ghost function After(s: State, acts: seq<Action>): State
    requires Inv(s) && IsRun(s, acts)
    decreases |acts|
  {
    if acts == [] then s
    else
      NextInv(s, acts[0]);
      After(Next(s, acts[0]), acts[1..])
  }

  lemma {:induction false} AfterInv(s: State, acts: seq<Action>)
    requires Inv(s) && IsRun(s, acts)
    ensures Inv(After(s, acts))
    decreases |acts|
  {
    if acts != [] {
      NextInv(s, acts[0]);
      AfterInv(Next(s, acts[0]), acts[1..]);
    }
  }

  lemma {:induction false} RanAtMostHeld(ts: seq<Thread>)
    ensures Gather(ts, HasRun) <= Gather(ts, Holds)
    decreases |ts|
  {
    if ts != [] {
      RanAtMostHeld(ts[..|ts| - 1]);
      HasRunAtMost(ts[|ts| - 1]);
    }
  }

  /** A queue as its constructor leaves it. */
  ghost function Start(threads: nat, nBatchSize: nat): (s: State)
    requires threads > 0
    ensures Inv(s) && s == Initial(threads, nBatchSize)
  {
    InitialInv(threads, nBatchSize);
    Initial(threads, nBatchSize)
  }

  /** In every state any schedule can reach: the counters are exact, every Wait so far answered with the
      conjunction of exactly the checks added for it, and no check has run twice. */
  lemma SafeRun(threads: nat, nBatchSize: nat, acts: seq<Action>)
    requires threads > 0 && IsRun(Start(threads, nBatchSize), acts)
    ensures var s := After(Start(threads, nBatchSize), acts);
            && CountersOk(s)
            && (forall o :: o in s.outcomes ==> OutcomeOk(o))
            && s.finishedRan + Gather(s.threads, HasRun) <= s.added
  {
    AfterInv(Start(threads, nBatchSize), acts);
    RanAtMostHeld(After(Start(threads, nBatchSize), acts).threads);
  }

  predicate MasterOut(s: State) {
    0 < |s.threads| && s.threads[MASTER].Outside?
  }

  /** The queue is as new: nothing queued, held or pending, and the verdict reset. */
  ghost predicate AsNew(s: State) {
    && s.queue == [] && s.nTodo == 0 && s.fAllOk && s.added == multiset{}
    && forall i :: 0 <= i < |s.threads| ==> !s.threads[i].Working?
  }

  lemma LeaveReturns(m: State)
    requires InvWith(m, MASTER) && m.threads[MASTER] == LOCKED && m.nTotal >= 0 && m.nIdle >= 0
    requires m.queue == [] && m.nTodo == 0
    ensures AsNew(Decide(m, MASTER))
    ensures m.fAllOk == AllOk(m.added)
  {
    LeaveInv(m);
    NoLoadNoChecks(m.threads);
  }

  /** When Wait returns it has recorded the conjunction of what was added, and the queue is as new. */
  lemma WaitReturns(s: State, a: Action)
    requires Inv(s) && Enabled(s, a) && (a.Enter? || a.Wake? || a.Finish?) && a.t == MASTER
    requires MasterOut(Next(s, a))
    ensures AsNew(Next(s, a))
    ensures |Next(s, a).outcomes| == |s.outcomes| + 1
    ensures var o := Next(s, a).outcomes[|s.outcomes|];
            o.added == s.added && o.ok == AllOk(s.added) && OutcomeOk(o)
  {
    SettleInv(s, a);
    LeaveReturns(Settle(s, a));
    LeaveInv(Settle(s, a));
  }

  // ---------------------------------------------------------------------
  // Wait ends

  /** A wake-up nobody asked for. */
  predicate Spurious(s: State, a: Action)
    requires Enabled(s, a)
  {
    a.Wake? && s.threads[a.t] == Waiting(false)
  }

  /** A step of a thread inside the queue, or of a worker entering it. */
  predicate Progress(s: State, a: Action) {
    Enabled(s, a) && !a.Add? && a != Enter(MASTER) && !Spurious(s, a)
  }

  /** While the master is inside Wait, some thread can make a step that is no spurious wake-up. */
  lemma NoDeadlock(s: State) returns (a: Action)
    requires Inv(s) && !MasterOut(s)
    ensures Progress(s, a)
  {
    var t := MASTER;
    if s.threads[MASTER] == Waiting(false) {
      t := Loaded(s.threads);
      assert s.threads[t].Working?;
    }
    match s.threads[t]
    case Waiting(_) => a := Wake(t);
    case Working(batch, done, _, _) => a := if done < |batch| then Execute(t) else Finish(t);
  }

  lemma {:induction false} Loaded(ts: seq<Thread>) returns (i: nat)
    requires Count(ts, Load) > 0
    ensures i < |ts| && Load(ts[i]) > 0
    decreases |ts|
  {
    if Load(ts[|ts| - 1]) > 0 {
      i := |ts| - 1;
    } else {
      i := Loaded(ts[..|ts| - 1]);
    }
  }

  function Cost(t: Thread): nat {
    match t
    case Outside => 1
    case Waiting(notified) => if notified then 2 else 0
    case Working(batch, done, _, _) => if done <= |batch| then 4 * |batch| - done else 3 * |batch|
  }

  /** Work that is left, counting what every queued or held check and every notification still costs. */
  function Remaining(s: State): nat {
    5 * |s.queue| + Count(s.threads, Cost)
  }

  lemma DecideCost(s: State, t: nat)
    requires t < |s.threads| && s.threads[t] == LOCKED && s.nTotal >= 0 && s.nIdle >= 0
    ensures Remaining(Decide(s, t)) <= Remaining(s) + if t == MASTER && s.nTodo == 0 then 1 else 0
    ensures s.queue != [] ==> Remaining(Decide(s, t)) < Remaining(s)
  {
    CountUpdate(s.threads, Cost, t, Decide(s, t).threads[t]);
  }

  lemma SettleCost(s: State, a: Action)
    requires Inv(s) && Progress(s, a) && !a.Execute?
    ensures Remaining(Settle(s, a)) + (if a.t == MASTER then 2 else 1) <= Remaining(s)
  {
    var ts := s.threads[a.t := LOCKED];
    CountUpdate(s.threads, Cost, a.t, LOCKED);
    CountUpdate(ts, Cost, MASTER, Notify(ts[MASTER]));
    assert ThreadOk(s, a.t);
  }

  lemma ExecuteCost(s: State, t: nat)
    requires Enabled(s, Execute(t))
    ensures Remaining(s.(threads := s.threads[t := ExecuteStep(s.threads[t])])) < Remaining(s)
  {
    CountUpdate(s.threads, Cost, t, ExecuteStep(s.threads[t]));
  }

  /** Every such step uses up some of the work that is left. */
  lemma ProgressCosts(s: State, a: Action)
    requires Inv(s) && Progress(s, a)
    ensures Remaining(Next(s, a)) < Remaining(s)
  {
    hide Inv, Remaining, InvWith;
    if a.Execute? {
      ExecuteCost(s, a.t);
    } else {
      SettleInv(s, a);
      SettleCost(s, a);
      DecideCost(Settle(s, a), a.t);
    }
  }

  ghost predicate ProgressRun(s: State, acts: seq<Action>)
    requires Inv(s)
    decreases |acts|
  {
    acts == [] || (Progress(s, acts[0]) && (NextInv(s, acts[0]); ProgressRun(Next(s, acts[0]), acts[1..])))
  }

  /** Wait always comes to an end: a schedule of such steps is no longer than the work that was left, and
      when no such step remains the master is out. */
  lemma {:induction false} WaitEnds(s: State, acts: seq<Action>)
    requires Inv(s) && ProgressRun(s, acts)
    ensures |acts| <= Remaining(s)
    ensures IsRun(s, acts)
    ensures (forall a :: !Progress(After(s, acts), a)) ==> MasterOut(After(s, acts))
    decreases |acts|
  {
    if acts == [] {
      if !MasterOut(s) {
        var a := NoDeadlock(s);
      }
    } else {
      NextInv(s, acts[0]);
      ProgressCosts(s, acts[0]);
      WaitEnds(Next(s, acts[0]), acts[1..]);
    }
  }
}
