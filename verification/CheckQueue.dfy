/**
 The check queue shared by one master and any number of workers, as a state
 machine.  Each critical section is one step, and so is the visit of one check
 of a thread's own batch.  Threads sleep on condition variables and may wake
 without having been notified.
 */
module CheckQueue {

  /** A verification and the result it evaluates to. */
  datatype Check = Check(name: nat, ok: bool)

  /**
   Where a thread is when the mutex is free: not in the loop; asleep on its condition
   variable; or holding a batch, of which `visited` checks have been passed over and the
   first `executed` have really been run.
   */
  datatype Phase =
    | Outside
    | Asleep(notified: bool)
    | Busy(batch: seq<Check>, visited: nat, executed: nat, fOk: bool)

  /** Thread 0 is the master. */
  const MASTER: nat := 0

  /** What has happened since the master's last `Wait` returned. */
  datatype History = History(added: multiset<Check>, completed: multiset<Check>, ran: multiset<Check>, completedRan: multiset<Check>)

  const NO_HISTORY := History(multiset{}, multiset{}, multiset{}, multiset{})

  datatype State = State(
    queue: seq<Check>,
    nIdle: int,
    nTotal: int,
    fAllOk: bool,
    nTodo: int,
    fQuit: bool,
    nBatchSize: nat,
    threads: seq<Phase>,
    history: History)

  datatype Step =
    | Add(checks: seq<Check>, waker: nat)
    | Enter(t: nat)
    | Visit(t: nat)
    | Finish(t: nat)
    | Wake(t: nat)

  datatype Outcome = Nothing | Verdict(allOk: bool)

  /** A new queue, with the master and `n` workers. */
  function Init(nBatchSize: nat, fQuit: bool, n: nat): State {
    State([], 0, 0, true, 0, fQuit, nBatchSize, seq(n + 1, _ => Outside), NO_HISTORY)
  }

  /** How many checks a thread takes at once. */
  function BatchSize(s: State): (n: int)
    requires s.queue != [] && s.nTotal >= 0 && s.nIdle >= 0
    ensures 1 <= n <= |s.queue|
  {
    var share := |s.queue| / (s.nTotal + s.nIdle + 1);
    assert share <= |s.queue|;
    var capped := if s.nBatchSize < share then s.nBatchSize else share;
    if capped < 1 then 1 else capped
  }

  /** That is as many as the batch size and a fair share among the threads allow, but one at least. */
  lemma {:induction false} BatchIsFair(s: State)
    requires s.queue != [] && s.nTotal >= 0 && s.nIdle >= 0
    ensures var n, threads := BatchSize(s), s.nTotal + s.nIdle + 1;
      && (n == 1 || (n <= s.nBatchSize && n * threads <= |s.queue|))
      && (n >= s.nBatchSize || (n + 1) * threads > |s.queue|)
  {
    var n, threads := BatchSize(s), s.nTotal + s.nIdle + 1;
    var share := |s.queue| / threads;
    Share(|s.queue|, threads);
    if n <= share { Times(n, share, threads); }
    if share <= n { Times(share + 1, n + 1, threads); }
  }

  lemma Share(n: nat, threads: nat)
    requires threads > 0
    ensures n / threads * threads <= n < (n / threads + 1) * threads
  {
  }

  lemma Times(a: nat, b: nat, c: nat)
    requires a <= b
    ensures a * c <= b * c
  {
  }

  /** The last `n` checks of the queue, last first. */
  function Popped(queue: seq<Check>, n: nat): seq<Check>
    requires n <= |queue|
  {
    seq(n, i requires 0 <= i < n => queue[|queue| - 1 - i])
  }

  /** Whether a thread that finds the queue empty leaves the loop. */
  predicate Leaves(s: State, t: nat) {
    s.queue == [] && (t == MASTER || s.fQuit) && s.nTodo == 0
  }

  /** The rest of the critical section, from the test for an empty queue on. */
  function Continue(s: State, t: nat): State
    requires t < |s.threads| && s.nTotal >= 0 && s.nIdle >= 0
  {
    if Leaves(s, t) then
      var u := s.(nTotal := s.nTotal - 1, threads := s.threads[t := Outside]);
      if t == MASTER then u.(fAllOk := true, history := NO_HISTORY) else u
    else if s.queue == [] then
      s.(nIdle := s.nIdle + 1, threads := s.threads[t := Asleep(false)])
    else
      var n := BatchSize(s);
      s.(queue := s.queue[..|s.queue| - n],
         threads := s.threads[t := Busy(Popped(s.queue, n), 0, 0, s.fAllOk)])
  }

  /** Notify the master, if it is asleep. */
  function NotifyMaster(ts: seq<Phase>): seq<Phase> {
    if |ts| > 0 && ts[MASTER].Asleep? then ts[MASTER := Asleep(true)] else ts
  }

  function NotifyOne(ts: seq<Phase>, w: nat): seq<Phase> {
    if w < |ts| && w != MASTER && ts[w].Asleep? then ts[w := Asleep(true)] else ts
  }

  function NotifyAll(ts: seq<Phase>): (r: seq<Phase>) {
    seq(|ts|, i requires 0 <= i < |ts| => if i != MASTER && ts[i].Asleep? then Asleep(true) else ts[i])
  }

  /** The checks of a batch that have been accounted for, before the rest of the critical section. */
  function Settled(s: State, t: nat): State
    requires t < |s.threads| && s.threads[t].Busy?
  {
    var p := s.threads[t];
    var nTodo := s.nTodo - |p.batch|;
    s.(fAllOk := s.fAllOk && p.fOk,
       nTodo := nTodo,
       threads := (if nTodo == 0 && t != MASTER then NotifyMaster(s.threads) else s.threads)[t := Outside],
       history := s.history.(completed := s.history.completed + multiset(p.batch),
                             completedRan := s.history.completedRan + multiset(p.batch[..if p.executed <= |p.batch| then p.executed else 0])))
  }

  /** A check is run only while all before it in the batch, and in the queue so far, passed. */
  function VisitedPhase(p: Phase): Phase
    requires p.Busy? && p.visited < |p.batch|
  {
    if p.fOk then Busy(p.batch, p.visited + 1, p.visited + 1, p.batch[p.visited].ok) else p.(visited := p.visited + 1)
  }

  predicate Enabled(s: State, step: Step) {
    && s.nTotal >= 0 && s.nIdle >= 0 && |s.threads| > 0
    && match step
       case Add(_, _) => s.threads[MASTER].Outside?
       case Enter(t) => t < |s.threads| && s.threads[t].Outside?
       case Visit(t) => t < |s.threads| && s.threads[t].Busy? && s.threads[t].visited < |s.threads[t].batch|
       case Finish(t) => t < |s.threads| && s.threads[t].Busy? && s.threads[t].visited == |s.threads[t].batch|
       case Wake(t) => t < |s.threads| && s.threads[t].Asleep? && s.nIdle > 0
  }

  function Next(s: State, step: Step): State
    requires Enabled(s, step)
  {
    match step
    case Add(checks, waker) =>
      s.(queue := s.queue + checks,
         nTodo := s.nTodo + |checks|,
         threads := if |checks| == 1 then NotifyOne(s.threads, waker)
                    else if |checks| > 1 then NotifyAll(s.threads) else s.threads,
         history := s.history.(added := s.history.added + multiset(checks)))
    case Enter(t) => Continue(s.(nTotal := s.nTotal + 1), t)
    case Visit(t) =>
      var p := s.threads[t];
      var check := p.batch[p.visited];
      s.(threads := s.threads[t := VisitedPhase(p)],
         history := if p.fOk then s.history.(ran := s.history.ran + multiset{check}) else s.history)
    case Finish(t) => Continue(Settled(s, t), t)
    case Wake(t) => Continue(s.(nIdle := s.nIdle - 1, threads := s.threads[t := Outside]), t)
  }

  /** The state in which a step reaches the test for an empty queue. */
  function AtTest(s: State, step: Step): State
    requires Enabled(s, step) && (step.Enter? || step.Finish? || step.Wake?)
  {
    match step
    case Enter(t) => s.(nTotal := s.nTotal + 1)
    case Finish(t) => Settled(s, t)
    case Wake(t) => s.(nIdle := s.nIdle - 1, threads := s.threads[t := Outside])
  }

  /** What `Wait` returns, on the step on which it returns. */
  function Result(s: State, step: Step): Outcome
    requires Enabled(s, step)
  {
    if (step.Enter? || step.Finish? || step.Wake?) && step.t == MASTER && Leaves(AtTest(s, step), MASTER)
    then Verdict(AtTest(s, step).fAllOk) else Nothing
  }

  // ---------------------------------------------------------------- invariant

  function BatchOf(p: Phase): multiset<Check> { if p.Busy? then multiset(p.batch) else multiset{} }

  function ExecutedOf(p: Phase): multiset<Check> {
    if p.Busy? && p.executed <= |p.batch| then multiset(p.batch[..p.executed]) else multiset{}
  }

  /** All threads' shares together. */
  ghost function Together(ts: seq<Phase>, share: Phase -> multiset<Check>): multiset<Check> {
    if ts == [] then multiset{} else share(ts[0]) + Together(ts[1..], share)
  }

  ghost function CountAsleep(ts: seq<Phase>): nat {
    if ts == [] then 0 else (if ts[0].Asleep? then 1 else 0) + CountAsleep(ts[1..])
  }

  ghost function CountBusy(ts: seq<Phase>): nat {
    if ts == [] then 0 else (if ts[0].Busy? then 1 else 0) + CountBusy(ts[1..])
  }

  ghost predicate SomeFails(m: multiset<Check>) { exists c :: c in m && !c.ok }

  ghost predicate AllPass(m: multiset<Check>) { forall c :: c in m ==> c.ok }

  ghost predicate PhaseOk(s: State, p: Phase) {
    p.Busy? ==>
      && 1 <= |p.batch| && p.executed <= p.visited <= |p.batch|
      && (p.fOk ==> p.executed == p.visited && AllPass(multiset(p.batch[..p.executed])))
      && (!p.fOk ==> SomeFails(s.history.added))
  }

  /** What holds whenever the mutex is free, for the master and all workers. */
  ghost predicate Inv(s: State) {
    && |s.threads| > 0
    && Counters(s)
    && Accounts(s)
    && (forall i :: 0 <= i < |s.threads| ==> PhaseOk(s, s.threads[i]))
    && (s.threads[MASTER].Asleep? ==> s.queue == [] && (s.threads[MASTER].notified || s.nTodo > 0))
  }

  /** The counters: who is idle, who works, and how much is left to do. */
  ghost predicate Counters(s: State) {
    && s.nIdle == CountAsleep(s.threads)
    && s.nTotal - s.nIdle == CountBusy(s.threads)
    && s.nTodo == |s.queue| + |Together(s.threads, BatchOf)|
  }

  /** Every added check is queued, in one batch, or completed; and what ran is accounted for. */
  ghost predicate Accounts(s: State) {
    var h := s.history;
    && h.added == multiset(s.queue) + Together(s.threads, BatchOf) + h.completed
    && h.ran == h.completedRan + Together(s.threads, ExecutedOf)
    && h.completedRan <= h.completed
    && (s.fAllOk ==> h.completedRan == h.completed && AllPass(h.completed))
    && (!s.fAllOk ==> SomeFails(h.added))
  }

  // ---------------------------------------------------------------- sums over threads

  lemma {:induction false} TogetherUpdate(ts: seq<Phase>, i: nat, p: Phase, share: Phase -> multiset<Check>)
    requires i < |ts|
    ensures share(ts[i]) <= Together(ts, share)
    ensures Together(ts[i := p], share) == Together(ts, share) - share(ts[i]) + share(p)
  {
    if i == 0 {
      assert ts[i := p][1..] == ts[1..];
    } else {
      assert ts[i := p][1..] == ts[1..][i - 1 := p];
      TogetherUpdate(ts[1..], i - 1, p, share);
      assert Together(ts[i := p], share) == share(ts[0]) + (Together(ts[1..], share) - share(ts[i]) + share(p));
    }
  }

  /** The effect on all sums of giving one thread, so far without a batch, a new phase. */
  lemma SetPhase(ts: seq<Phase>, i: nat, p: Phase)
    requires i < |ts| && !ts[i].Busy?
    ensures var us := ts[i := p];
      && CountAsleep(us) == CountAsleep(ts) - (if ts[i].Asleep? then 1 else 0) + (if p.Asleep? then 1 else 0)
      && CountBusy(us) == CountBusy(ts) + (if p.Busy? then 1 else 0)
      && Together(us, BatchOf) == Together(ts, BatchOf) + BatchOf(p)
      && Together(us, ExecutedOf) == Together(ts, ExecutedOf) + ExecutedOf(p)
  {
    CountUpdate(ts, i, p);
    TogetherSet(ts, i, p, BatchOf);
    TogetherSet(ts, i, p, ExecutedOf);
  }

  lemma TogetherSet(ts: seq<Phase>, i: nat, p: Phase, share: Phase -> multiset<Check>)
    requires i < |ts| && share(ts[i]) == multiset{}
    ensures Together(ts[i := p], share) == Together(ts, share) + share(p)
  {
    TogetherUpdate(ts, i, p, share);
    assert Together(ts, share) - multiset{} == Together(ts, share);
  }

  lemma Regroup(q: multiset<Check>, a: multiset<Check>, b: multiset<Check>, c: multiset<Check>)
    requires q == a + b
    ensures a + (c + b) == q + c && |a| + |c + b| == |q| + |c|
  {
  }

  lemma {:induction false} CountUpdate(ts: seq<Phase>, i: nat, p: Phase)
    requires i < |ts|
    ensures CountAsleep(ts[i := p]) == CountAsleep(ts) - (if ts[i].Asleep? then 1 else 0) + (if p.Asleep? then 1 else 0)
    ensures CountBusy(ts[i := p]) == CountBusy(ts) - (if ts[i].Busy? then 1 else 0) + (if p.Busy? then 1 else 0)
  {
    if i == 0 {
      assert ts[i := p][1..] == ts[1..];
    } else {
      assert ts[i := p][1..] == ts[1..][i - 1 := p];
      CountUpdate(ts[1..], i - 1, p);
    }
  }

  lemma {:induction false} TogetherHas(ts: seq<Phase>, i: nat, share: Phase -> multiset<Check>)
    requires i < |ts|
    ensures share(ts[i]) <= Together(ts, share)
  {
    if i > 0 { TogetherHas(ts[1..], i - 1, share); }
  }

  /** What is in some thread's share is in one thread's share. */
  lemma {:induction false} TogetherFind(ts: seq<Phase>, share: Phase -> multiset<Check>, c: Check) returns (i: nat)
    requires c in Together(ts, share)
    ensures i < |ts| && c in share(ts[i])
  {
    if c in share(ts[0]) {
      i := 0;
    } else {
      i := TogetherFind(ts[1..], share, c);
      i := i + 1;
    }
  }

  lemma {:induction false} ExecutedWithin(ts: seq<Phase>)
    ensures Together(ts, ExecutedOf) <= Together(ts, BatchOf)
  {
    if ts != [] {
      ExecutedWithin(ts[1..]);
      var p := ts[0];
      if p.Busy? && p.executed <= |p.batch| { assert p.batch == p.batch[..p.executed] + p.batch[p.executed..]; }
    }
  }

  /** Waking changes nobody's share and nobody's being asleep. */
  lemma {:induction false} NotifiedSame(ts: seq<Phase>, us: seq<Phase>)
    requires |us| == |ts| && forall i :: 0 <= i < |ts| ==> us[i] == ts[i] || (us[i].Asleep? && ts[i].Asleep?)
    ensures CountAsleep(us) == CountAsleep(ts) && CountBusy(us) == CountBusy(ts)
    ensures Together(us, BatchOf) == Together(ts, BatchOf) && Together(us, ExecutedOf) == Together(ts, ExecutedOf)
  {
    if ts != [] { NotifiedSame(ts[1..], us[1..]); }
  }

  lemma {:induction false} PoppedMultiset(queue: seq<Check>, n: nat)
    requires n <= |queue|
    ensures multiset(queue) == multiset(queue[..|queue| - n]) + multiset(Popped(queue, n))
  {
    if n == 0 {
      assert queue[..|queue|] == queue && Popped(queue, 0) == [];
    } else {
      var rest := queue[..|queue| - 1];
      assert queue == rest + [queue[|queue| - 1]];
      assert Popped(queue, n) == [queue[|queue| - 1]] + Popped(rest, n - 1);
      assert rest[..|rest| - (n - 1)] == queue[..|queue| - n];
      PoppedMultiset(rest, n - 1);
    }
  }

  // ---------------------------------------------------------------- preservation

  /** The invariant inside a critical section: thread `t` is counted in, but neither idle nor busy. */
  ghost predicate Mid(s: State, t: nat) {
    && t < |s.threads| && s.threads[t].Outside?
    && s.nIdle == CountAsleep(s.threads)
    && s.nTotal - s.nIdle == CountBusy(s.threads) + 1
    && s.nTodo == |s.queue| + |Together(s.threads, BatchOf)|
    && Accounts(s)
    && (forall i :: 0 <= i < |s.threads| ==> PhaseOk(s, s.threads[i]))
    && (s.threads[MASTER].Asleep? ==> s.queue == [] && (s.threads[MASTER].notified || s.nTodo > 0))
  }

  /** With nothing left to do, nobody holds a batch. */
  lemma NobodyBusy(s: State)
    requires s.nTodo == 0 == |s.queue| + |Together(s.threads, BatchOf)|
    requires forall i :: 0 <= i < |s.threads| ==> PhaseOk(s, s.threads[i])
    ensures Together(s.threads, BatchOf) == multiset{} && Together(s.threads, ExecutedOf) == multiset{}
    ensures forall i :: 0 <= i < |s.threads| ==> !s.threads[i].Busy?
  {
    ExecutedWithin(s.threads);
    forall i | 0 <= i < |s.threads| ensures !s.threads[i].Busy? {
      TogetherHas(s.threads, i, BatchOf);
    }
  }

  lemma ContinueLeaves(s: State, t: nat)
    requires Mid(s, t) && Leaves(s, t)
    ensures Inv(Continue(s, t))
    ensures t == MASTER ==> s.history.added == s.history.completed && s.history.ran == s.history.completedRan
  {
    NobodyBusy(s);
    assert s.threads[t := Outside] == s.threads;
  }

  lemma ContinueSleeps(s: State, t: nat)
    requires Mid(s, t) && s.queue == [] && !Leaves(s, t)
    ensures Inv(Continue(s, t))
  {
    var u := Continue(s, t);
    SetPhase(s.threads, t, Asleep(false));
    assert Together(u.threads, BatchOf) == Together(s.threads, BatchOf);
    assert Together(u.threads, ExecutedOf) == Together(s.threads, ExecutedOf);
    forall i | 0 <= i < |u.threads| ensures PhaseOk(u, u.threads[i]) { assert i != t ==> PhaseOk(s, s.threads[i]); }
  }

  lemma ContinueTakes(s: State, t: nat)
    requires Mid(s, t) && s.queue != []
    ensures Inv(Continue(s, t))
  {
    var u := Continue(s, t);
    var n := BatchSize(s);
    var p := u.threads[t];
    SetPhase(s.threads, t, p);
    TakeAccounts(s, u, p, n);
    forall i | 0 <= i < |u.threads| ensures PhaseOk(u, u.threads[i]) { if i != t { assert PhaseOk(s, s.threads[i]); } else { assert p.batch[..0] == []; } }
  }

  lemma TakeAccounts(s: State, u: State, p: Phase, n: nat)
    requires Accounts(s) && n <= |s.queue| && p == Busy(Popped(s.queue, n), 0, 0, s.fAllOk)
    requires u.queue == s.queue[..|s.queue| - n] && u.history == s.history && u.fAllOk == s.fAllOk
    requires Together(u.threads, BatchOf) == Together(s.threads, BatchOf) + BatchOf(p)
    requires Together(u.threads, ExecutedOf) == Together(s.threads, ExecutedOf) + ExecutedOf(p)
    ensures Accounts(u)
    ensures |u.queue| + |Together(u.threads, BatchOf)| == |s.queue| + |Together(s.threads, BatchOf)|
  {
    hide Together, Popped;
    PoppedMultiset(s.queue, n);
    assert p.batch[..0] == [];
    Regroup(multiset(s.queue), multiset(u.queue), multiset(p.batch), Together(s.threads, BatchOf));
    assert Together(u.threads, ExecutedOf) == Together(s.threads, ExecutedOf);
  }

  lemma ContinueInv(s: State, t: nat)
    requires Mid(s, t)
    ensures Inv(Continue(s, t))
  {
    hide Mid, Inv;
    if Leaves(s, t) { ContinueLeaves(s, t); }
    else if s.queue == [] { ContinueSleeps(s, t); }
    else { ContinueTakes(s, t); }
  }

  lemma WakeMid(s: State, t: nat)
    requires Inv(s) && Enabled(s, Wake(t))
    ensures Mid(AtTest(s, Wake(t)), t)
  {
    hide Together, CountAsleep, CountBusy;
    var u := AtTest(s, Wake(t));
    SetPhase(s.threads, t, Outside);
    assert Together(u.threads, BatchOf) == Together(s.threads, BatchOf);
    assert Together(u.threads, ExecutedOf) == Together(s.threads, ExecutedOf);
    forall i | 0 <= i < |u.threads| ensures PhaseOk(u, u.threads[i]) { assert i != t ==> PhaseOk(s, s.threads[i]); }
  }

  lemma EnterMid(s: State, t: nat)
    requires Inv(s) && Enabled(s, Enter(t))
    ensures Mid(AtTest(s, Enter(t)), t)
  {
    var u := AtTest(s, Enter(t));
    forall i | 0 <= i < |u.threads| ensures PhaseOk(u, u.threads[i]) { assert PhaseOk(s, s.threads[i]); }
  }

  lemma SettledMid(s: State, t: nat)
    requires Inv(s) && Enabled(s, Finish(t))
    ensures Mid(Settled(s, t), t)
  {
    hide Together, CountAsleep, CountBusy, Accounts, PhaseOk;
    var u := Settled(s, t);
    var p := s.threads[t];
    var woken := if u.nTodo == 0 && t != MASTER then NotifyMaster(s.threads) else s.threads;
    NotifiedSame(s.threads, woken);
    CountUpdate(woken, t, Outside);
    SettledShares(s.threads, woken, t);
    BatchIsFull(s, t);
    SettledAccounts(s, u, p);
    SettledPhases(s, u, woken, t);
  }

  lemma BatchIsFull(s: State, t: nat)
    requires t < |s.threads| && s.threads[t].Busy? && PhaseOk(s, s.threads[t])
    ensures 1 <= |s.threads[t].batch| && s.threads[t].executed <= |s.threads[t].batch|
  {
  }

  lemma {:induction false} SettledShares(ts: seq<Phase>, woken: seq<Phase>, t: nat)
    requires t < |ts| == |woken| && woken[t] == ts[t]
    requires Together(woken, BatchOf) == Together(ts, BatchOf) && Together(woken, ExecutedOf) == Together(ts, ExecutedOf)
    ensures BatchOf(ts[t]) <= Together(ts, BatchOf) && ExecutedOf(ts[t]) <= Together(ts, ExecutedOf)
    ensures Together(woken[t := Outside], BatchOf) == Together(ts, BatchOf) - BatchOf(ts[t]) + BatchOf(Outside)
    ensures Together(woken[t := Outside], ExecutedOf) == Together(ts, ExecutedOf) - ExecutedOf(ts[t]) + ExecutedOf(Outside)
  {
    hide Together, BatchOf, ExecutedOf;
    TogetherUpdate(woken, t, Outside, BatchOf);
    TogetherUpdate(woken, t, Outside, ExecutedOf);
  }

  lemma SettledPhases(s: State, u: State, woken: seq<Phase>, t: nat)
    requires t < |s.threads| == |woken| && u.threads == woken[t := Outside] && u.history.added == s.history.added
    requires forall i :: 0 <= i < |s.threads| ==> PhaseOk(s, s.threads[i]) && (woken[i] == s.threads[i] || woken[i].Asleep?)
    ensures forall i :: 0 <= i < |u.threads| ==> PhaseOk(u, u.threads[i])
  {
    forall i | 0 <= i < |u.threads| ensures PhaseOk(u, u.threads[i]) { assert i != t ==> PhaseOk(s, s.threads[i]); }
  }

  lemma {:induction false} SettledAccounts(s: State, u: State, p: Phase)
    requires Accounts(s) && PhaseOk(s, p) && p.Busy? && p.visited == |p.batch|
    requires u.queue == s.queue && u.fAllOk == (s.fAllOk && p.fOk)
    requires u.history == s.history.(completed := s.history.completed + multiset(p.batch),
                                     completedRan := s.history.completedRan + multiset(p.batch[..p.executed]))
    requires BatchOf(p) <= Together(s.threads, BatchOf) && ExecutedOf(p) <= Together(s.threads, ExecutedOf)
    requires Together(u.threads, BatchOf) == Together(s.threads, BatchOf) - BatchOf(p) + BatchOf(Outside)
    requires Together(u.threads, ExecutedOf) == Together(s.threads, ExecutedOf) - ExecutedOf(p) + ExecutedOf(Outside)
    ensures Accounts(u)
    ensures |Together(u.threads, BatchOf)| == |Together(s.threads, BatchOf)| - |p.batch|
  {
    hide Together, AllPass, SomeFails;
    var h := s.history;
    Transfer(multiset(s.queue), Together(s.threads, BatchOf), h.completed, multiset(p.batch));
    Transfer(multiset{}, Together(s.threads, ExecutedOf), h.completedRan, multiset(p.batch[..p.executed]));
    PartOf(p.batch, p.executed);
    if u.fAllOk { BothPass(h.completed, p.batch, p.executed); }
  }

  lemma PartOf(batch: seq<Check>, n: nat)
    requires n <= |batch|
    ensures multiset(batch[..n]) <= multiset(batch) && (n == |batch| ==> multiset(batch[..n]) == multiset(batch))
  {
    assert batch == batch[..n] + batch[n..];
    assert n == |batch| ==> batch[..n] == batch;
  }

  lemma BothPass(done: multiset<Check>, batch: seq<Check>, n: nat)
    requires AllPass(done) && n == |batch| && AllPass(multiset(batch[..n]))
    ensures AllPass(done + multiset(batch))
  {
    assert batch[..n] == batch;
  }

  /** Moving a share from one account to another changes no total. */
  lemma Transfer(q: multiset<Check>, a: multiset<Check>, b: multiset<Check>, x: multiset<Check>)
    requires x <= a
    ensures q + (a - x + multiset{}) + (b + x) == q + a + b && (b + x) + (a - x + multiset{}) == b + a
    ensures |a - x + multiset{}| == |a| - |x|
  {
    assert a == (a - x) + x;
  }

  lemma AddInv(s: State, checks: seq<Check>, waker: nat)
    requires Inv(s) && Enabled(s, Add(checks, waker))
    ensures Inv(Next(s, Add(checks, waker)))
  {
    var u := Next(s, Add(checks, waker));
    NotifiedSame(s.threads, u.threads);
    assert multiset(s.queue + checks) == multiset(s.queue) + multiset(checks);
    forall i | 0 <= i < |u.threads| ensures PhaseOk(u, u.threads[i]) { assert PhaseOk(s, s.threads[i]); }
  }

  lemma VisitInv(s: State, t: nat)
    requires Inv(s) && Enabled(s, Visit(t))
    ensures Inv(Next(s, Visit(t)))
  {
    hide Together, CountAsleep, CountBusy, AllPass, SomeFails;
    var u := Next(s, Visit(t));
    var p, p' := s.threads[t], u.threads[t];
    assert PhaseOk(s, p);
    VisitShares(s.threads, t, p');
    BatchWasAdded(s, t);
    VisitPhase(s, u, p, p');
    forall i | 0 <= i < |u.threads| && i != t ensures PhaseOk(u, u.threads[i]) { assert PhaseOk(s, s.threads[i]); }
  }

  lemma BatchWasAdded(s: State, t: nat)
    requires Accounts(s) && t < |s.threads|
    ensures BatchOf(s.threads[t]) <= s.history.added
  {
    TogetherHas(s.threads, t, BatchOf);
  }

  /** Visiting a check leaves the batches alone and adds at most that check to what has run. */
  lemma VisitShares(ts: seq<Phase>, t: nat, p': Phase)
    requires t < |ts| && ts[t].Busy? && ts[t].visited < |ts[t].batch|
    requires p' == VisitedPhase(ts[t]) && (ts[t].fOk ==> ts[t].executed == ts[t].visited)
    ensures CountAsleep(ts[t := p']) == CountAsleep(ts) && CountBusy(ts[t := p']) == CountBusy(ts)
    ensures Together(ts[t := p'], BatchOf) == Together(ts, BatchOf)
    ensures Together(ts[t := p'], ExecutedOf) == Together(ts, ExecutedOf) + (if ts[t].fOk then multiset{ts[t].batch[ts[t].visited]} else multiset{})
  {
    hide Together;
    CountUpdate(ts, t, p');
    VisitBatches(ts, t, p');
    VisitExecuted(ts, t, p');
  }

  lemma VisitBatches(ts: seq<Phase>, t: nat, p': Phase)
    requires t < |ts| && BatchOf(p') == BatchOf(ts[t])
    ensures Together(ts[t := p'], BatchOf) == Together(ts, BatchOf)
  {
    hide Together, BatchOf;
    TogetherUpdate(ts, t, p', BatchOf);
    Replace(Together(ts, BatchOf), BatchOf(ts[t]), multiset{});
  }

  lemma {:induction false} VisitExecuted(ts: seq<Phase>, t: nat, p': Phase)
    requires t < |ts| && ts[t].Busy? && ts[t].visited < |ts[t].batch|
    requires p' == VisitedPhase(ts[t]) && (ts[t].fOk ==> ts[t].executed == ts[t].visited)
    ensures Together(ts[t := p'], ExecutedOf) == Together(ts, ExecutedOf) + (if ts[t].fOk then multiset{ts[t].batch[ts[t].visited]} else multiset{})
  {
    hide Together;
    var p := ts[t];
    var more := if p.fOk then multiset{p.batch[p.visited]} else multiset{};
    TogetherUpdate(ts, t, p', ExecutedOf);
    assert p.batch[..p.visited + 1] == p.batch[..p.visited] + [p.batch[p.visited]];
    assert ExecutedOf(p') == ExecutedOf(p) + more;
    Replace(Together(ts, ExecutedOf), ExecutedOf(p), more);
  }

  lemma VisitPhase(s: State, u: State, p: Phase, p': Phase)
    requires PhaseOk(s, p) && p.Busy? && p.visited < |p.batch| && BatchOf(p) <= u.history.added && u.history.added == s.history.added
    requires p' == VisitedPhase(p)
    ensures PhaseOk(u, p')
  {
    var c := p.batch[p.visited];
    assert p.batch[..p.visited + 1] == p.batch[..p.visited] + [c];
    assert c in multiset(p.batch) && c in u.history.added;
  }

  lemma Replace(a: multiset<Check>, x: multiset<Check>, y: multiset<Check>)
    requires x <= a
    ensures a - x + (x + y) == a + y && a - x + x == a
  {
  }

  /** Every step of every thread keeps the invariant. */
  lemma {:induction false} NextInv(s: State, step: Step)
    requires Inv(s) && Enabled(s, step)
    ensures Inv(Next(s, step))
  {
    hide Inv, Mid;
    match step
    case Add(checks, waker) => AddInv(s, checks, waker);
    case Visit(t) => VisitInv(s, t);
    case Enter(t) => EnterMid(s, t); ContinueInv(AtTest(s, step), t);
    case Finish(t) => SettledMid(s, t); ContinueInv(AtTest(s, step), t);
    case Wake(t) => WakeMid(s, t); ContinueInv(AtTest(s, step), t);
  }

  // ---------------------------------------------------------------- runs

  lemma {:induction false} AllOutside(ts: seq<Phase>)
    requires forall i :: 0 <= i < |ts| ==> ts[i].Outside?
    ensures CountAsleep(ts) == 0 && CountBusy(ts) == 0
    ensures Together(ts, BatchOf) == multiset{} && Together(ts, ExecutedOf) == multiset{}
  {
    if ts != [] { AllOutside(ts[1..]); }
  }

  lemma InitInv(nBatchSize: nat, fQuit: bool, n: nat)
    ensures Inv(Init(nBatchSize, fQuit, n))
  {
    AllOutside(Init(nBatchSize, fQuit, n).threads);
  }

  /** A schedule: each step is enabled where it is taken. */
  ghost predicate Legal(s: State, steps: seq<Step>)
    decreases |steps|
  {
    steps == [] || (Enabled(s, steps[0]) && Legal(Next(s, steps[0]), steps[1..]))
  }

  ghost function Run(s: State, steps: seq<Step>): State
    requires Legal(s, steps)
    decreases |steps|
  {
    if steps == [] then s else Run(Next(s, steps[0]), steps[1..])
  }

  /** The checks handed in since `Wait` last returned, read off the schedule; `sofar` are those from before it. */
  ghost function AddedSince(s: State, steps: seq<Step>, sofar: multiset<Check>): multiset<Check>
    requires Legal(s, steps)
    decreases |steps|
  {
    if steps == [] then sofar
    else AddedSince(Next(s, steps[0]), steps[1..],
      if Result(s, steps[0]).Verdict? then multiset{} else sofar + (if steps[0].Add? then multiset(steps[0].checks) else multiset{}))
  }

  /** The check a step really runs, if any. */
  function RunBy(s: State, step: Step): multiset<Check>
    requires Enabled(s, step)
  {
    if step.Visit? && s.threads[step.t].fOk then multiset{s.threads[step.t].batch[s.threads[step.t].visited]} else multiset{}
  }

  /** The checks really run since `Wait` last returned, read off the schedule. */
  ghost function RanSince(s: State, steps: seq<Step>, sofar: multiset<Check>): multiset<Check>
    requires Legal(s, steps)
    decreases |steps|
  {
    if steps == [] then sofar
    else RanSince(Next(s, steps[0]), steps[1..], if Result(s, steps[0]).Verdict? then multiset{} else sofar + RunBy(s, steps[0]))
  }

  lemma NextHistory(s: State, step: Step)
    requires Enabled(s, step)
    ensures var h := Next(s, step).history;
      if Result(s, step).Verdict? then h == NO_HISTORY
      else h.added == s.history.added + (if step.Add? then multiset(step.checks) else multiset{}) && h.ran == s.history.ran + RunBy(s, step)
  {
  }

  lemma {:induction false} RunInv(s: State, steps: seq<Step>)
    requires Inv(s) && Legal(s, steps)
    ensures var u := Run(s, steps);
      Inv(u) && u.history.added == AddedSince(s, steps, s.history.added) && u.history.ran == RanSince(s, steps, s.history.ran)
    decreases |steps|
  {
    hide Inv, Next, Result, Enabled;
    if steps != [] {
      NextInv(s, steps[0]);
      NextHistory(s, steps[0]);
      RunInv(Next(s, steps[0]), steps[1..]);
    }
  }

  /** The step on which `Wait` returns, seen from the state before it. */
  lemma VerdictIsRight(s: State, step: Step)
    requires Inv(s) && Enabled(s, step) && Result(s, step).Verdict?
    ensures Result(s, step).allOk <==> AllPass(s.history.added)
    ensures Result(s, step).allOk ==> s.history.ran == s.history.added
    ensures IsIdle(Next(s, step))
  {
    hide Inv, Mid, AllPass;
    var m := AtTest(s, step);
    match step {
      case Enter(t) => EnterMid(s, t);
      case Finish(t) => SettledMid(s, t);
      case Wake(t) => WakeMid(s, t);
    }
    MidVerdict(m);
    assert Next(s, step) == Continue(m, MASTER);
  }

  lemma MidVerdict(m: State)
    requires Mid(m, MASTER) && Leaves(m, MASTER)
    ensures m.fAllOk <==> AllPass(m.history.added)
    ensures m.fAllOk ==> m.history.ran == m.history.added
    ensures IsIdle(Continue(m, MASTER))
  {
    NobodyBusy(m);
    NoneBusy(m.threads);
    assert m.history.added == m.history.completed && m.history.ran == m.history.completedRan;
  }

  /** What a new controller of the queue asserts. */
  predicate IsIdle(s: State) {
    s.nTotal == s.nIdle && s.nTodo == 0 && s.fAllOk
  }

  /** No check is ever run twice. */
  lemma RanAtMostOnce(s: State)
    requires Inv(s)
    ensures s.history.ran <= s.history.added
  {
    ExecutedWithin(s.threads);
  }

  /** With the master outside and nothing handed in, the queue is idle. */
  lemma IdleBetweenBatches(s: State)
    requires Inv(s) && s.threads[MASTER].Outside? && s.history.added == multiset{}
    ensures IsIdle(s)
  {
    var all := multiset(s.queue) + Together(s.threads, BatchOf) + s.history.completed;
    assert |all| == |s.queue| + |Together(s.threads, BatchOf)| + |s.history.completed|;
    NobodyBusy(s);
    NoneBusy(s.threads);
  }

  lemma {:induction false} NoneBusy(ts: seq<Phase>)
    requires forall i :: 0 <= i < |ts| ==> !ts[i].Busy?
    ensures CountBusy(ts) == 0
  {
    if ts != [] { NoneBusy(ts[1..]); }
  }

  /**
   In every interleaving of the master and any number of workers: `Wait` returns true
   exactly when every check handed in since it last returned evaluates to true; then each
   of them has been run exactly once; and the queue is idle afterwards.
   */
  lemma {:induction false} WaitIsCorrect(nBatchSize: nat, fQuit: bool, workers: nat, steps: seq<Step>, last: Step)
    requires Legal(Init(nBatchSize, fQuit, workers), steps)
    requires Enabled(Run(Init(nBatchSize, fQuit, workers), steps), last)
    requires Result(Run(Init(nBatchSize, fQuit, workers), steps), last).Verdict?
    ensures var init := Init(nBatchSize, fQuit, workers); var s := Run(init, steps); var r := Result(s, last).allOk;
      var added, ran := AddedSince(init, steps, multiset{}), RanSince(init, steps, multiset{});
      && (r <==> forall c :: c in added ==> c.ok)
      && (r ==> ran == added) && ran <= added
      && IsIdle(Next(s, last))
  {
    hide Inv, Enabled, Next, Result;
    InitInv(nBatchSize, fQuit, workers);
    var init := Init(nBatchSize, fQuit, workers);
    RunInv(init, steps);
    VerdictIsRight(Run(init, steps), last);
    RanAtMostOnce(Run(init, steps));
  }

  /**
   At every moment of every interleaving the counters are exact, a new controller finds an
   unused queue idle, and a master asleep and not notified is owed work by a busy thread.
   */
  lemma CountersAreExact(nBatchSize: nat, fQuit: bool, workers: nat, steps: seq<Step>)
    requires Legal(Init(nBatchSize, fQuit, workers), steps)
    ensures var init := Init(nBatchSize, fQuit, workers); var s := Run(init, steps);
      && s.nTodo == |s.queue| + |Together(s.threads, BatchOf)|
      && s.nIdle == CountAsleep(s.threads) && s.nTotal - s.nIdle == CountBusy(s.threads)
      && |s.threads| > 0
      && (s.threads[MASTER].Outside? && AddedSince(init, steps, multiset{}) == multiset{} ==> IsIdle(s))
      && (s.threads[MASTER] == Asleep(false) ==> exists t :: 0 <= t < |s.threads| && t != MASTER && s.threads[t].Busy?)
  {
    hide Enabled, Next, Result, Legal;
    InitInv(nBatchSize, fQuit, workers);
    var init := Init(nBatchSize, fQuit, workers);
    RunInv(init, steps);
    var s := Run(init, steps);
    if s.threads[MASTER].Outside? && s.history.added == multiset{} { IdleBetweenBatches(s); }
    if s.threads[MASTER] == Asleep(false) { var t := SomebodyBusy(s); }
  }

  // ---------------------------------------------------------------- no lost wake-up

  /** A master asleep without a pending notification always has some worker holding a batch. */
  lemma SomebodyBusy(s: State) returns (t: nat)
    requires Inv(s) && s.nTodo > 0 && s.queue == []
    ensures t < |s.threads| && s.threads[t].Busy?
  {
    var c :| c in Together(s.threads, BatchOf);
    t := TogetherFind(s.threads, BatchOf, c);
  }

  /** Nothing but threads at work on their batches: nobody enters, adds or wakes. */
  predicate OnlyWork(steps: seq<Step>) { forall i :: 0 <= i < |steps| ==> steps[i].Visit? || steps[i].Finish? }

  /** Let a busy thread visit the rest of its batch. */
  lemma {:induction false} Drain(s: State, t: nat) returns (steps: seq<Step>)
    requires Inv(s) && t < |s.threads| && s.threads[t].Busy?
    ensures Legal(s, steps)
    ensures var u := Run(s, steps);
      && Inv(u) && u.nTodo == s.nTodo && |u.threads| == |s.threads| > 0 && Enabled(u, Finish(t))
      && (u.threads[MASTER].Outside? ==> s.threads[MASTER].Outside?)
    ensures OnlyWork(steps) && (forall i :: 0 <= i < |steps| ==> steps[i] == Visit(t)) && Run(s, steps).queue == s.queue
    decreases |s.threads[t].batch| - s.threads[t].visited
  {
    hide Inv, Continue, Settled;
    BatchBounds(s, t);
    if s.threads[t].visited == |s.threads[t].batch| {
      steps := [];
    } else {
      NextInv(s, Visit(t));
      steps := Drain(Next(s, Visit(t)), t);
      steps := [Visit(t)] + steps;
    }
  }

  lemma {:induction false} RunConcat(s: State, a: seq<Step>, b: seq<Step>)
    requires Legal(s, a) && Legal(Run(s, a), b)
    ensures Legal(s, a + b) && Run(s, a + b) == Run(Run(s, a), b)
    decreases |a|
  {
    if a == [] {
      assert a + b == b;
    } else {
      assert (a + b)[1..] == a[1..] + b;
      RunConcat(Next(s, a[0]), a[1..], b);
    }
  }

  lemma NothingLeft(s: State)
    requires Inv(s) && !s.threads[MASTER].Outside? && s.nTodo == 0
    ensures Enabled(s, Wake(MASTER)) && Result(s, Wake(MASTER)).Verdict? && s.threads[MASTER] == Asleep(true)
  {
    NobodyBusy(s);
    AsleepCounts(s.threads, MASTER);
  }

  lemma {:induction false} FinishProgress(u: State, t: nat)
    requires Inv(u) && Enabled(u, Finish(t)) && !u.threads[MASTER].Outside?
    ensures Inv(Next(u, Finish(t))) && Next(u, Finish(t)).nTodo < u.nTodo
    ensures Result(u, Finish(t)).Verdict? || !Next(u, Finish(t)).threads[MASTER].Outside?
  {
    hide Inv, Settled, Continue, Leaves;
    NextInv(u, Finish(t));
    BatchBounds(u, t);
    SettledMaster(u, t);
    ContinueMaster(Settled(u, t), t);
  }

  lemma SettledMaster(s: State, t: nat)
    requires t < |s.threads| && s.threads[t].Busy? && !s.threads[MASTER].Outside?
    ensures var u := Settled(s, t);
      && u.nTodo == s.nTodo - |s.threads[t].batch| && |u.threads| == |s.threads| && u.nTotal == s.nTotal && u.nIdle == s.nIdle
      && (t != MASTER ==> !u.threads[MASTER].Outside?)
  {
  }

  lemma ContinueMaster(s: State, t: nat)
    requires t < |s.threads| && s.nTotal >= 0 && s.nIdle >= 0
    ensures var u := Continue(s, t);
      && u.nTodo == s.nTodo && |u.threads| == |s.threads|
      && (t != MASTER ==> u.threads[MASTER] == s.threads[MASTER])
      && (t == MASTER && !Leaves(s, t) ==> !u.threads[MASTER].Outside?)
  {
    hide Popped;
  }

  lemma BatchBounds(s: State, t: nat)
    requires Inv(s) && t < |s.threads| && s.threads[t].Busy?
    ensures 1 <= |s.threads[t].batch| && s.threads[t].visited <= |s.threads[t].batch|
    ensures s.nTotal >= 0 && s.nIdle >= 0
  {
    assert PhaseOk(s, s.threads[t]);
  }

  lemma StepThen(u: State, step: Step, rest: seq<Step>)
    requires Enabled(u, step) && Legal(Next(u, step), rest)
    ensures Legal(u, [step] + rest) && Run(u, [step] + rest) == Run(Next(u, step), rest)
  {
    assert ([step] + rest)[1..] == rest;
  }

  /** Some thread holds a batch while the master is in `Wait` and checks are left. */
  lemma BusyThread(s: State) returns (t: nat)
    requires Inv(s) && !s.threads[MASTER].Outside? && s.nTodo > 0
    ensures t < |s.threads| && s.threads[t].Busy?
  {
    t := MASTER;
    if s.threads[MASTER].Asleep? { t := SomebodyBusy(s); }
  }

  lemma TodoNotNegative(s: State)
    requires Inv(s)
    ensures s.nTodo >= 0 && |s.threads| > 0
  {
  }

  /**
   No deadlock: from every reachable state in which the master is in `Wait`, some schedule
   makes `Wait` return. In it threads only work off their batches; the master wakes at most in
   the last step, and then because it was notified.
   */
  lemma {:induction false} WaitCanReturn(s: State) returns (steps: seq<Step>, last: Step)
    requires Inv(s) && !s.threads[MASTER].Outside?
    ensures Legal(s, steps) && Enabled(Run(s, steps), last) && Result(Run(s, steps), last).Verdict?
    ensures OnlyWork(steps) && (last.Finish? || (last == Wake(MASTER) && Run(s, steps).threads[MASTER] == Asleep(true)))
    decreases s.nTodo
  {
    TodoNotNegative(s);
    hide Inv, Next, Enabled, Result, OnlyWork, Run, Legal;
    NoSteps(s);
    if s.nTodo == 0 {
      NothingLeft(s);
      return [], Wake(MASTER);
    }
    var t := BusyThread(s);
    var drain := Drain(s, t);
    var u := Run(s, drain);
    FinishProgress(u, t);
    if Result(u, Finish(t)).Verdict? {
      return drain, Finish(t);
    }
    var rest;
    rest, last := WaitCanReturn(Next(u, Finish(t)));
    StepThen(u, Finish(t), rest);
    RunConcat(s, drain, [Finish(t)] + rest);
    WorkJoined(drain, t, rest);
    steps := drain + ([Finish(t)] + rest);
  }

  lemma NoSteps(s: State)
    ensures Legal(s, []) && Run(s, []) == s && OnlyWork([])
  {
  }

  lemma WorkJoined(a: seq<Step>, t: nat, b: seq<Step>)
    requires OnlyWork(a) && OnlyWork(b)
    ensures OnlyWork(a + ([Finish(t)] + b))
  {
  }

  lemma {:induction false} AsleepCounts(ts: seq<Phase>, i: nat)
    requires i < |ts| && ts[i].Asleep?
    ensures CountAsleep(ts) > 0
  {
    if i > 0 { AsleepCounts(ts[1..], i - 1); }
  }
}
