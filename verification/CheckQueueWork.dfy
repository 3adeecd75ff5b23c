/**
 Who is notified when checks are added or finished, and that those notified do the work.
 */
module CheckQueueWork {
  import opened CheckQueue

  /** Adding one check notifies one worker, adding more all of them; nobody else is, and the master never. */
  lemma AddNotifies(s: State, checks: seq<Check>, waker: nat, i: nat)
    requires Enabled(s, Add(checks, waker)) && i < |s.threads|
    ensures var u := Next(s, Add(checks, waker));
      && |u.threads| == |s.threads| && u.queue == s.queue + checks && u.nTodo == s.nTodo + |checks|
      && u.threads[i] ==
         if s.threads[i].Asleep? && i != 0 && (|checks| >= 2 || (|checks| == 1 && i == waker)) then Asleep(true) else s.threads[i]
  {
  }

  /** A worker that finishes the last check notifies the master; no other end of a batch notifies anyone. */
  lemma FinishNotifies(s: State, t: nat, i: nat)
    requires Enabled(s, Finish(t)) && i < |s.threads| && i != t && |s.threads[t].batch| > 0
    ensures var u := Next(s, Finish(t));
      && u.nTodo == s.nTodo - |s.threads[t].batch|
      && |u.threads| == |s.threads|
      && u.threads[i] == if i == 0 && s.threads[i].Asleep? && s.nTodo == |s.threads[t].batch| then Asleep(true) else s.threads[i]
  {
    hide Popped;
  }

  /** All the steps are one thread's own. */
  predicate By(steps: seq<Step>, t: nat) { forall i :: 0 <= i < |steps| ==> steps[i] == Visit(t) || steps[i] == Finish(t) }

  /** A thread at work, left alone, works until the queue is empty. */
  lemma {:induction false} WorksItOff(s: State, t: nat) returns (steps: seq<Step>)
    requires Inv(s) && t < |s.threads| && s.threads[t].Busy?
    ensures Legal(s, steps) && By(steps, t) && Run(s, steps).queue == []
    decreases |s.queue|
  {
    hide Inv, Next, Enabled, Settled, Continue;
    var drain := Drain(s, t);
    var u := Run(s, drain);
    NextInv(u, Finish(t));
    var v := Next(u, Finish(t));
    TakesNext(u, t);
    if v.queue == [] {
      StepThen(u, Finish(t), []);
      RunConcat(s, drain, [Finish(t)]);
      steps := drain + [Finish(t)];
      assert [Finish(t)] + [] == [Finish(t)];
    } else {
      var rest := WorksItOff(v, t);
      StepThen(u, Finish(t), rest);
      RunConcat(s, drain, [Finish(t)] + rest);
      steps := drain + ([Finish(t)] + rest);
    }
  }

  /** After a batch a thread takes another, as long as there are checks. */
  lemma TakesNext(u: State, t: nat)
    requires Inv(u) && Enabled(u, Finish(t))
    ensures var v := Next(u, Finish(t));
      && |v.threads| == |u.threads|
      && (u.queue == [] ==> v.queue == [])
      && (u.queue != [] ==> |v.queue| < |u.queue| && v.threads[t].Busy?)
  {
    hide Popped;
  }

  /** A worker that wakes up to a queue with checks takes a batch. */
  lemma WakesToWork(s: State, t: nat)
    requires Inv(s) && Enabled(s, Wake(t)) && s.queue != []
    ensures t < |Next(s, Wake(t)).threads| && Next(s, Wake(t)).threads[t].Busy?
  {
    hide Popped;
  }

  /**
   Checks added while a worker sleeps need no master to be run: a worker that Add notifies
   wakes up for that and works the queue off, alone if need be.
   */
  lemma {:induction false} AddedIsWorkedOff(s: State, checks: seq<Check>, waker: nat, w: nat) returns (steps: seq<Step>)
    requires Inv(s) && Enabled(s, Add(checks, waker)) && w != MASTER && w < |s.threads| && s.threads[w].Asleep?
    requires |checks| >= 2 || (|checks| == 1 && w == waker)
    ensures var u := Next(s, Add(checks, waker));
      && u.threads[w] == Asleep(true) && Legal(u, [Wake(w)] + steps) && By(steps, w) && Run(u, [Wake(w)] + steps).queue == []
  {
    hide Inv, Next, Enabled;
    var u := Next(s, Add(checks, waker));
    AddNotifies(s, checks, waker, w);
    NextInv(s, Add(checks, waker));
    CanWake(u, w);
    WakesToWork(u, w);
    NextInv(u, Wake(w));
    steps := WorksItOff(Next(u, Wake(w)), w);
    StepThen(u, Wake(w), steps);
  }

  lemma CanWake(s: State, w: nat)
    requires Inv(s) && w < |s.threads| && s.threads[w].Asleep?
    ensures Enabled(s, Wake(w))
  {
    AsleepCounts(s.threads, w);
  }
}
