/** Wait returns: how many steps the threads can take before it does. */
module CheckQueueProgress {
  import opened CheckQueue

  /** The steps a thread can still take on what it holds, before it sleeps un-notified. */
  function Weight(l: Local): nat {
    match l
    case Out => 4
    case Entering(_, _) => 3
    case Deciding => 0
    case Waiting(notified) => if notified then 1 else 0
    case Working(batch, i, _) => if i <= |batch| then 4 + |batch| - i else 4
  }

  function Potential(w: World): nat {
    5 * |w.shared.queue| + Sum(Weight, w.threads)
  }

  /** A wait that ends although nobody notified the thread. */
  predicate Spurious(w: World, step: Step)
    requires Enabled(w, step)
  {
    step.Wake? && w.threads[step.t] == Waiting(false)
  }

  lemma {:induction false} SettleWorks(w: World, t: nat)
    requires t < |w.threads| && w.threads[t] == Deciding && w.shared.nTotal + w.shared.nIdle + 1 > 0
    requires !Decide(w.shared, t == 0).1.Return?
    ensures Potential(Settle(w, t)) <= Potential(w)
  {
    var (s, d) := Decide(w.shared, t == 0);
    if d.Take? {
      BatchFits(w.shared);
      SumUpdate(Weight, w.threads, t, Working(d.batch, 0, s.fAllOk));
    } else {
      SumUpdate(Weight, w.threads, t, Waiting(false));
    }
  }

  /** Reporting a batch gains more than notifying the master costs. */
  lemma {:induction false} CleanedWorks(w: World, t: nat)
    requires |w.threads| > 0 && t < |w.threads| && w.threads[t].Entering?
    ensures Potential(Cleaned(w, t)) < Potential(w)
  {
    var told := w.threads[0 := Notified(w.threads[0])];
    SumUpdate(Weight, w.threads, 0, Notified(w.threads[0]));
    SumUpdate(Weight, w.threads, t, Deciding);
    if t > 0 {
      SumUpdate(Weight, told, t, Deciding);
    }
  }

  lemma {:induction false} AwakeWorks(w: World, t: nat)
    requires t < |w.threads| && w.threads[t] == Waiting(true)
    ensures Potential(Awake(w, t)) < Potential(w)
  {
    SumUpdate(Weight, w.threads, t, Deciding);
  }

  /** Until Wait returns, every step that is no spurious wakeup brings its return closer. */
  lemma {:induction false} StepWorks(w: World, step: Step)
    requires |w.threads| > 0 && !w.threads[0].Out? && CanStep(w, step) && !Spurious(w, step)
    requires Returned(w, step).None?
    ensures Potential(Next(w, step)) < Potential(w)
  {
    match step
    case Start(t) => SumUpdate(Weight, w.threads, t, Entering(0, true));
    case Enter(t) =>
      CleanedWorks(w, t);
      SettleWorks(Cleaned(w, t), t);
    case Wake(t) =>
      AwakeWorks(w, t);
      SettleWorks(Awake(w, t), t);
    case Exec(t) => SumUpdate(Weight, w.threads, t, Next(w, step).threads[t]);
    case Finish(t) => SumUpdate(Weight, w.threads, t, Next(w, step).threads[t]);
  }

  /** A spurious wakeup does not put its return off. */
  lemma {:induction false} SpuriousHarmless(w: World, step: Step)
    requires CanStep(w, step) && Spurious(w, step) && Returned(w, step).None?
    ensures Potential(Next(w, step)) <= Potential(w)
  {
    SumUpdate(Weight, w.threads, step.t, Deciding);
    SettleWorks(Awake(w, step.t), step.t);
  }

  /** No thread is left inside a critical section. */
  ghost predicate AtRest(w: World) {
    forall t :: 0 <= t < |w.threads| ==> !w.threads[t].Deciding?
  }

  lemma {:induction false} SettleRests(w: World, t: nat, k: nat)
    requires t < |w.threads| && w.shared.nTotal + w.shared.nIdle + 1 > 0
    requires k < |w.threads| && (k == t || !w.threads[k].Deciding?)
    ensures !Settle(w, t).threads[k].Deciding?
    ensures t == 0 && Decide(w.shared, true).1.Return? ==> Settle(w, t).threads[0].Out?
  {
  }

  lemma {:induction false} NextRestsAt(w: World, step: Step, k: nat)
    requires AtRest(w) && CanStep(w, step) && k < |w.threads|
    ensures |Next(w, step).threads| == |w.threads| && !Next(w, step).threads[k].Deciding?
  {
    match step
    case Enter(t) => SettleRests(Cleaned(w, t), t, k);
    case Wake(t) => SettleRests(Awake(w, t), t, k);
    case _ =>
  }

  /** Wait is over where it returns. */
  lemma {:induction false} ReturnedIsOut(w: World, step: Step)
    requires CanStep(w, step) && Returned(w, step).Some?
    ensures |w.threads| > 0 && Next(w, step).threads != [] && Next(w, step).threads[0].Out?
  {
    if step.Enter? {
      SettleRests(Cleaned(w, step.t), step.t, step.t);
    } else {
      SettleRests(Awake(w, step.t), step.t, step.t);
    }
  }

  lemma {:induction false} NextRests(w: World, step: Step)
    requires AtRest(w) && CanStep(w, step)
    ensures AtRest(Next(w, step))
  {
    var w' := Next(w, step);
    forall k | 0 <= k < |w'.threads|
      ensures !w'.threads[k].Deciding?
    {
      NextRestsAt(w, step, k);
    }
  }

  lemma {:induction false} EveryRunRests(steps: seq<Step>, worlds: seq<World>, nBatchSize: nat, workers: nat, n: nat)
    requires IsRun(steps, worlds) && worlds[0] == Fresh(nBatchSize, workers) && n <= |steps|
    ensures AtRest(worlds[n])
  {
    if n > 0 {
      EveryRunRests(steps, worlds, nBatchSize, workers, n - 1);
      EveryRunSafe(steps, worlds, nBatchSize, workers, n - 1);
      assert RunStep(steps, worlds, n - 1);
      NextRests(worlds[n - 1], steps[n - 1]);
    }
  }

  /** In every reachable world where Wait has been called and has not returned, a thread can go on by itself. */
  lemma {:induction false} EveryRunGoesOn(
    steps: seq<Step>, worlds: seq<World>, nBatchSize: nat, workers: nat, n: nat) returns (step: Step)
    requires IsRun(steps, worlds) && worlds[0] == Fresh(nBatchSize, workers) && n <= |steps|
    requires worlds[n].threads != [] && !worlds[n].threads[0].Out?
    ensures Enabled(worlds[n], step) && !step.Start? && !step.Add? && !Spurious(worlds[n], step)
  {
    EveryRunRests(steps, worlds, nBatchSize, workers, n);
    EveryRunSafe(steps, worlds, nBatchSize, workers, n);
    step := NeverStuck(worlds[n]);
  }

  /** Step `k` is taken while Wait is running and does not end it. */
  ghost predicate Waits(steps: seq<Step>, worlds: seq<World>, k: nat)
    requires k < |steps| && |worlds| == |steps| + 1
  {
    && worlds[k].threads != [] && !worlds[k].threads[0].Out?
    && worlds[k + 1].threads != [] && !worlds[k + 1].threads[0].Out?
  }

  /** How many steps from `m` up to `n` are no spurious wakeups. */
  ghost function Proper(steps: seq<Step>, worlds: seq<World>, m: nat, n: nat): nat
    requires IsRun(steps, worlds) && m <= n <= |steps|
    decreases n
  {
    if m == n then 0 else
      assert RunStep(steps, worlds, n - 1);
      Proper(steps, worlds, m, n - 1) + if Spurious(worlds[n - 1], steps[n - 1]) then 0 else 1
  }

  /** Wait returns: whatever spurious wakeups occur, the other steps taken while it runs are bounded by the work there
      is when they begin. */
  lemma {:induction false} EveryWaitReturns(
    steps: seq<Step>, worlds: seq<World>, nBatchSize: nat, workers: nat, m: nat, n: nat)
    requires IsRun(steps, worlds) && worlds[0] == Fresh(nBatchSize, workers) && m <= n <= |steps|
    requires forall k :: m <= k < n ==> Waits(steps, worlds, k)
    ensures Proper(steps, worlds, m, n) + Potential(worlds[n]) <= Potential(worlds[m])
    decreases n
  {
    if m < n {
      EveryWaitReturns(steps, worlds, nBatchSize, workers, m, n - 1);
      EveryRunSafe(steps, worlds, nBatchSize, workers, n - 1);
      assert RunStep(steps, worlds, n - 1) && Waits(steps, worlds, n - 1);
      WaitStep(worlds[n - 1], steps[n - 1]);
    }
  }

  lemma {:induction false} WaitStep(w: World, step: Step)
    requires |w.threads| > 0 && !w.threads[0].Out? && CanStep(w, step)
    requires Next(w, step).threads != [] && !Next(w, step).threads[0].Out?
    ensures Potential(Next(w, step)) + (if Spurious(w, step) then 0 else 1) <= Potential(w)
  {
    if Returned(w, step).Some? {
      ReturnedIsOut(w, step);
      assert false;
    }
    if Spurious(w, step) {
      SpuriousHarmless(w, step);
    } else {
      StepWorks(w, step);
    }
  }
}
