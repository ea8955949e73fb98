/** The script-check queue of checkqueue.h: one master and any number of workers, interleaved by critical sections. */
module CheckQueue {
  import opened Collections
  import opened Numbers

  /** A verification and what its operator() returns. */
  datatype Check = Check(id: nat, ok: bool)

  /** What the mutex protects. */
  datatype Shared = Shared(queue: seq<Check>, nIdle: int, nTotal: int, fAllOk: bool, nTodo: int, nBatchSize: nat)

  /** Where a thread stands; those that are neither Out nor Waiting hold nNow checks that count as unfinished. */
  datatype Local =
    | Out
    | Entering(nNow: nat, fOk: bool)
    | Deciding    // holding the lock, in the inner loop
    | Waiting(notified: bool)
    | Working(batch: seq<Check>, i: nat, fOk: bool)

  // ----- the critical sections -----

  /** The clean-up of the previous loop run, or the first iteration. */
  function CleanUp(s: Shared, nNow: nat, fOk: bool): Shared {
    if nNow > 0 then s.(fAllOk := s.fAllOk && fOk, nTodo := s.nTodo - nNow) else s.(nTotal := s.nTotal + 1)
  }

  /** Whether the clean-up notifies the master. */
  predicate TellsMaster(s: Shared, fMaster: bool, nNow: nat) {
    nNow > 0 && s.nTodo - nNow == 0 && !fMaster
  }

  datatype Decision =
    | Return(result: bool)
    | Sleep
    | Take(batch: seq<Check>)

  function BatchSize(s: Shared): int
    requires s.nTotal + s.nIdle + 1 > 0
  {
    Max(1, Min(s.nBatchSize, |s.queue| / (s.nTotal + s.nIdle + 1)))
  }

  lemma {:induction false} BatchFits(s: Shared)
    requires s.nTotal + s.nIdle + 1 > 0 && s.queue != []
    ensures 1 <= BatchSize(s) <= |s.queue|
  {
    var d := s.nTotal + s.nIdle + 1;
    assert |s.queue| / d <= |s.queue|;
  }

  /** A batch larger than one check is within nBatchSize, and so small that as many for every thread inside, every idle
      one again and one more fit into the queue; no larger batch below nBatchSize is. */
  lemma {:induction false} BatchShare(s: Shared, n: int)
    requires s.queue != [] && n == s.nTotal + s.nIdle + 1 && n > 0
    ensures BatchSize(s) > 1 ==> BatchSize(s) <= s.nBatchSize && BatchSize(s) * n <= |s.queue|
    ensures BatchSize(s) < s.nBatchSize ==> (BatchSize(s) + 1) * n > |s.queue|
  {
    var q, b := |s.queue| / n, BatchSize(s);
    Division(|s.queue|, n);
    MulAway(q - b, n);
    assert (q - b) * n == q * n - b * n;
    MulAway(b - q, n);
    assert (q + 1) * n == q * n + n && (b + 1) * n == b * n + n;
    assert (b - q) * n == b * n - q * n;
  }

  /** The last `n` elements of the queue, the last one first. */
  function Popped(queue: seq<Check>, n: nat): (batch: seq<Check>)
    requires n <= |queue|
    ensures |batch| == n
  {
    if n == 0 then [] else [queue[|queue| - 1]] + Popped(queue[..|queue| - 1], n - 1)
  }

  /** The inner loop up to the first wait, return or batch. */
  function Decide(s: Shared, fMaster: bool): (Shared, Decision)
    requires s.nTotal + s.nIdle + 1 > 0
  {
    if s.queue == [] then
      if fMaster && s.nTodo == 0 then (s.(nTotal := s.nTotal - 1, fAllOk := true), Return(s.fAllOk))
      else (s.(nIdle := s.nIdle + 1), Sleep)
    else
      BatchFits(s);
      var nNow := BatchSize(s);
      (s.(queue := s.queue[..|s.queue| - nNow]), Take(Popped(s.queue, nNow)))
  }

  function Added(s: Shared, vChecks: seq<Check>): Shared {
    s.(queue := s.queue + vChecks, nTodo := s.nTodo + |vChecks|)
  }

  // ----- the machine -----

  /**
   * The shared state, every thread (the master is the first), and, since the last return of Wait,
   * the checks added, those run, and those passed over because a failure was known.
   */
  datatype World = World(shared: Shared, threads: seq<Local>, added: multiset<Check>, ran: multiset<Check>,
    skipped: multiset<Check>)

  datatype Step =
    | Start(t: nat)             // Thread or Wait is called
    | Enter(t: nat)             // the critical section at the top of the loop
    | Wake(t: nat)              // a wait ends, notified or not
    | Exec(t: nat)              // one check of the batch
    | Finish(t: nat)            // the batch is done
    | Add(vChecks: seq<Check>, pick: nat)

  predicate Enabled(w: World, step: Step) {
    match step
    case Start(t) => t < |w.threads| && w.threads[t].Out?
    case Enter(t) => t < |w.threads| && w.threads[t].Entering?
    case Wake(t) => t < |w.threads| && w.threads[t].Waiting?
    case Exec(t) => t < |w.threads| && w.threads[t].Working? && w.threads[t].i < |w.threads[t].batch|
    case Finish(t) => t < |w.threads| && w.threads[t].Working? && w.threads[t].i >= |w.threads[t].batch|
    case Add(_, _) => |w.threads| > 0 && w.threads[0].Out?
  }

  function Notified(l: Local): Local {
    if l.Waiting? then Waiting(true) else l
  }

  /** notify_one or notify_all on condWorker; `pick` is the worker that notify_one reaches, if it waits. */
  function NotifyWorkers(threads: seq<Local>, n: nat, pick: nat): seq<Local>
    requires |threads| > 0
  {
    seq(|threads|, t requires 0 <= t < |threads| => if t > 0 && (n > 1 || (n == 1 && t == pick))
      then Notified(threads[t]) else threads[t])
  }

  /** What a decision of thread `t` does to the world. */
  function Settle(w: World, t: nat): World
    requires t < |w.threads| && w.shared.nTotal + w.shared.nIdle + 1 > 0
  {
    var (s, d) := Decide(w.shared, t == 0);
    match d
    case Return(_) => World(s, w.threads[t := Out], multiset{}, multiset{}, multiset{})
    case Sleep => w.(shared := s, threads := w.threads[t := Waiting(false)])
    case Take(batch) => w.(shared := s, threads := w.threads[t := Working(batch, 0, s.fAllOk)])
  }

  /** The world of thread `t` after its clean-up, with the thread where it decides. */
  function Cleaned(w: World, t: nat): World
    requires t < |w.threads| && w.threads[t].Entering?
  {
    var l := w.threads[t];
    var told := if TellsMaster(w.shared, t == 0, l.nNow) then w.threads[0 := Notified(w.threads[0])] else w.threads;
    w.(shared := CleanUp(w.shared, l.nNow, l.fOk), threads := told[t := Deciding])
  }

  /** The world of thread `t` as its wait ends. */
  function Awake(w: World, t: nat): World
    requires t < |w.threads|
  {
    w.(shared := w.shared.(nIdle := w.shared.nIdle - 1), threads := w.threads[t := Deciding])
  }

  function Next(w: World, step: Step): World
    requires Enabled(w, step)
    requires step.Enter? ==> var s := Cleaned(w, step.t).shared; s.nTotal + s.nIdle + 1 > 0
    requires step.Wake? ==> var s := Awake(w, step.t).shared; s.nTotal + s.nIdle + 1 > 0
  {
    match step
    case Start(t) => w.(threads := w.threads[t := Entering(0, true)])
    case Enter(t) => Settle(Cleaned(w, t), t)
    case Wake(t) => Settle(Awake(w, t), t)
    case Exec(t) =>
      var l := w.threads[t];
      var check := l.batch[l.i];
      if l.fOk then w.(threads := w.threads[t := l.(i := l.i + 1, fOk := check.ok)], ran := w.ran + multiset{check})
      else w.(threads := w.threads[t := l.(i := l.i + 1)], skipped := w.skipped + multiset{check})
    case Finish(t) =>
      var l := w.threads[t];
      w.(threads := w.threads[t := Entering(|l.batch|, l.fOk)])
    case Add(vChecks, pick) =>
      World(Added(w.shared, vChecks), NotifyWorkers(w.threads, |vChecks|, pick), w.added + multiset(vChecks), w.ran,
        w.skipped)
  }

  /** All checks added are queued. More than one leave no worker asleep without a notification, and a single one
      notifies the worker picked; nobody else is touched, the master included. */
  lemma {:induction false} AddWakes(w: World, vChecks: seq<Check>, pick: nat, t: nat)
    requires Enabled(w, Add(vChecks, pick)) && t < |w.threads|
    ensures var w' := Next(w, Add(vChecks, pick));
      && w'.shared.queue == w.shared.queue + vChecks && w'.added == w.added + multiset(vChecks) && w'.ran == w.ran
      && |w'.threads| == |w.threads| && w'.threads[0] == w.threads[0]
      && (|vChecks| > 1 && t > 0 ==> w'.threads[t] != Waiting(false))
      && (|vChecks| == 1 && t > 0 && t == pick ==> w'.threads[t] != Waiting(false))
      && (!w.threads[t].Waiting? || |vChecks| == 0 || (|vChecks| == 1 && t != pick) ==> w'.threads[t] == w.threads[t])
  {
  }

  /** Once a failure is known, a thread that takes a batch passes over all its checks. */
  lemma {:induction false} FailureStops(w: World, step: Step)
    requires Enabled(w, step) && (step.Enter? || step.Wake? || step.Exec?)
    requires step.Enter? ==> var s := Cleaned(w, step.t).shared; s.nTotal + s.nIdle + 1 > 0
    requires step.Wake? ==> var s := Awake(w, step.t).shared; s.nTotal + s.nIdle + 1 > 0
    ensures var w' := Next(w, step);
      && ((step.Enter? || step.Wake?) && !w'.shared.fAllOk && w'.threads[step.t].Working? ==> !w'.threads[step.t].fOk)
      && (step.Exec? && !w.threads[step.t].fOk ==>
           w'.ran == w.ran && w'.threads[step.t].Working? && !w'.threads[step.t].fOk)
  {
  }

  // ----- sums over the threads -----

  function InFlight(l: Local): nat {
    match l
    case Entering(n, _) => n
    case Working(batch, _, _) => |batch|
    case _ => 0
  }

  function Asleep(l: Local): nat {
    if l.Waiting? then 1 else 0
  }

  /** Counted in nTotal: past the first entry to the loop. */
  function Inside(l: Local): nat {
    match l
    case Out => 0
    case Entering(n, _) => if n > 0 then 1 else 0
    case _ => 1
  }

  /** A batch is never empty. */
  function Hollow(l: Local): nat {
    if l.Working? && |l.batch| == 0 then 1 else 0
  }

  function Unrun(l: Local): multiset<Check> {
    if l.Working? && l.i <= |l.batch| then multiset(l.batch[l.i..]) else multiset{}
  }

  function Sum(f: Local -> nat, threads: seq<Local>): nat {
    if threads == [] then 0 else f(threads[0]) + Sum(f, threads[1..])
  }

  function Pending(threads: seq<Local>): multiset<Check> {
    if threads == [] then multiset{} else Unrun(threads[0]) + Pending(threads[1..])
  }

  lemma {:induction false} SumUpdate(f: Local -> nat, threads: seq<Local>, t: nat, l: Local)
    requires t < |threads|
    ensures Sum(f, threads[t := l]) == Sum(f, threads) - f(threads[t]) + f(l)
    ensures Sum(f, threads) >= f(threads[t])
  {
    if t == 0 {
      assert threads[0 := l][1..] == threads[1..];
    } else {
      assert threads[t := l][1..] == threads[1..][t - 1 := l];
      SumUpdate(f, threads[1..], t - 1, l);
    }
  }

  lemma {:induction false} PendingUpdate(threads: seq<Local>, t: nat, l: Local)
    requires t < |threads|
    ensures Pending(threads[t := l]) + Unrun(threads[t]) == Pending(threads) + Unrun(l)
  {
    if t == 0 {
      assert threads[0 := l][1..] == threads[1..];
      assert Unrun(l) + Pending(threads[1..]) + Unrun(threads[0]) ==
        Unrun(threads[0]) + Pending(threads[1..]) + Unrun(l);
    } else {
      var updated := threads[1..][t - 1 := l];
      assert threads[t := l][1..] == updated;
      PendingUpdate(threads[1..], t - 1, l);
      MultisetShift(Unrun(threads[0]), Pending(updated), Unrun(threads[t]), Pending(threads[1..]), Unrun(l));
    }
  }

  /** A positive sum has a positive term. */
  lemma {:induction false} SumPositive(f: Local -> nat, threads: seq<Local>) returns (t: nat)
    requires Sum(f, threads) > 0
    ensures t < |threads| && f(threads[t]) > 0
  {
    if f(threads[0]) > 0 {
      t := 0;
    } else {
      t := SumPositive(f, threads[1..]);
      t := t + 1;
    }
  }

  lemma {:induction false} PendingNone(threads: seq<Local>)
    requires Sum(InFlight, threads) == 0
    ensures Pending(threads) == multiset{}
  {
    if threads != [] {
      PendingNone(threads[1..]);
    }
  }

  // ----- the invariant -----

  /** nTodo is queued plus in-flight checks; nIdle and nTotal count the threads asleep and inside the loop. */
  ghost predicate Counted(w: World) {
    && w.shared.nTodo == |w.shared.queue| + Sum(InFlight, w.threads)
    && w.shared.nIdle == Sum(Asleep, w.threads)
    && w.shared.nTotal == Sum(Inside, w.threads)
    && Sum(Hollow, w.threads) == 0
  }

  /** Every check added is queued, in a batch, run or passed over, once. */
  ghost predicate Accounted(w: World) {
    w.added == multiset(w.shared.queue) + Pending(w.threads) + (w.ran + w.skipped)
  }

  ghost predicate AllOk(ran: multiset<Check>) {
    forall c :: c in ran ==> c.ok
  }

  /** Whether a thread knows of a failure: one it has not reported yet, or one reported when it took its batch. */
  function Knows(l: Local): nat {
    match l
    case Entering(n, fOk) => if n > 0 && !fOk then 1 else 0
    case Working(batch, _, fOk) => if |batch| > 0 && !fOk then 1 else 0
    case _ => 0
  }

  /** A failure is known, in fAllOk or to some thread, exactly if a check failed; checks are passed over only then. */
  ghost predicate FailuresKnown(w: World) {
    && (AllOk(w.ran) <==> w.shared.fAllOk && Sum(Knows, w.threads) == 0)
    && (AllOk(w.ran) ==> w.skipped == multiset{})
  }

  /** A master that sleeps un-notified has nothing queued, but checks to wait for. */
  ghost predicate MasterSafe(w: World) {
    && |w.threads| > 0
    && (w.threads[0] == Waiting(false) ==> w.shared.queue == [] && w.shared.nTodo > 0)
  }

  ghost predicate Inv(w: World) {
    Counted(w) && Accounted(w) && FailuresKnown(w) && MasterSafe(w)
  }

  /** The effect on all sums of changing one thread. */
  lemma {:induction false} ThreadUpdate(threads: seq<Local>, t: nat, l: Local)
    requires t < |threads|
    ensures Sum(InFlight, threads[t := l]) == Sum(InFlight, threads) - InFlight(threads[t]) + InFlight(l)
    ensures Sum(Asleep, threads[t := l]) == Sum(Asleep, threads) - Asleep(threads[t]) + Asleep(l)
    ensures Sum(Inside, threads[t := l]) == Sum(Inside, threads) - Inside(threads[t]) + Inside(l)
    ensures Sum(Knows, threads[t := l]) == Sum(Knows, threads) - Knows(threads[t]) + Knows(l)
    ensures Sum(Hollow, threads[t := l]) == Sum(Hollow, threads) - Hollow(threads[t]) + Hollow(l)
    ensures Sum(Hollow, threads) >= Hollow(threads[t])
    ensures Sum(InFlight, threads) >= InFlight(threads[t]) && Sum(Knows, threads) >= Knows(threads[t])
    ensures Unrun(l) == Unrun(threads[t]) ==> Pending(threads[t := l]) == Pending(threads)
  {
    SumUpdate(InFlight, threads, t, l);
    SumUpdate(Asleep, threads, t, l);
    SumUpdate(Inside, threads, t, l);
    SumUpdate(Knows, threads, t, l);
    SumUpdate(Hollow, threads, t, l);
    PendingUpdate(threads, t, l);
    if Unrun(l) == Unrun(threads[t]) {
      MultisetCancel(Pending(threads[t := l]), Pending(threads), Unrun(l));
    }
  }

  lemma {:induction false} StartKeeps(w: World, t: nat)
    requires Inv(w) && Enabled(w, Start(t))
    ensures Inv(Next(w, Start(t)))
  {
    ThreadUpdate(w.threads, t, Entering(0, true));
  }

  lemma {:induction false} FinishKeeps(w: World, t: nat)
    requires Inv(w) && Enabled(w, Finish(t))
    ensures Inv(Next(w, Finish(t)))
  {
    var l := w.threads[t];
    if l.i == |l.batch| {
      assert l.batch[l.i..] == [];
    }
    ThreadUpdate(w.threads, t, Entering(|l.batch|, l.fOk));
  }

  lemma {:induction false} AllOkPlus(ran: multiset<Check>, c: Check)
    ensures AllOk(ran + multiset{c}) <==> AllOk(ran) && c.ok
  {
    if AllOk(ran + multiset{c}) {
      assert c in ran + multiset{c};
      forall x | x in ran
        ensures x.ok
      {
        assert x in ran + multiset{c};
      }
    }
  }

  /** The batch of thread `t` after its next check. */
  function Executed(l: Local): Local
    requires l.Working? && l.i < |l.batch|
  {
    l.(i := l.i + 1, fOk := l.fOk && l.batch[l.i].ok)
  }

  lemma {:induction false} ExecAccounted(w: World, t: nat)
    requires Inv(w) && Enabled(w, Exec(t))
    ensures Accounted(Next(w, Exec(t)))
  {
    var l := w.threads[t];
    UnrunNext(l.batch, l.i);
    PendingUpdate(w.threads, t, Executed(l));
    Moved(multiset(w.shared.queue), Pending(w.threads[t := Executed(l)]), Unrun(Executed(l)), Pending(w.threads),
      l.batch[l.i], w.ran, w.skipped);
  }

  lemma {:induction false} ExecCounted(w: World, t: nat)
    requires Counted(w) && MasterSafe(w) && Enabled(w, Exec(t))
    ensures Counted(Next(w, Exec(t))) && MasterSafe(Next(w, Exec(t)))
  {
    ThreadUpdate(w.threads, t, Executed(w.threads[t]));
  }

  lemma {:induction false} ExecFailures(w: World, t: nat)
    requires FailuresKnown(w) && Enabled(w, Exec(t))
    ensures FailuresKnown(Next(w, Exec(t)))
  {
    SumUpdate(Knows, w.threads, t, Executed(w.threads[t]));
    AllOkPlus(w.ran, w.threads[t].batch[w.threads[t].i]);
  }

  /** Running, or passing over, the next check of a batch. */
  lemma {:induction false} ExecKeeps(w: World, t: nat)
    requires Inv(w) && Enabled(w, Exec(t))
    ensures Inv(Next(w, Exec(t)))
  {
    ExecAccounted(w, t);
    ExecCounted(w, t);
    ExecFailures(w, t);
  }

  lemma {:induction false} UnrunNext(batch: seq<Check>, i: nat)
    requires i < |batch|
    ensures multiset(batch[i..]) == multiset(batch[i + 1..]) + multiset{batch[i]}
  {
    assert batch[i..] == [batch[i]] + batch[i + 1..];
  }

  /** A check leaves the pending ones and joins those run or passed over. */
  lemma {:induction false} Moved(
    q: multiset<Check>, p': multiset<Check>, u: multiset<Check>, p: multiset<Check>, c: Check, ran: multiset<Check>,
    skipped: multiset<Check>)
    requires p' + (u + multiset{c}) == p + u
    ensures q + p + (ran + skipped) == q + p' + (ran + multiset{c} + skipped) ==
      q + p' + (ran + (skipped + multiset{c}))
  {
    assert p' + multiset{c} + u == p' + (u + multiset{c});
    MultisetCancel(p' + multiset{c}, p, u);
  }

  /** Notifying threads that wait. */
  lemma {:induction false} ToldKeeps(w: World, threads: seq<Local>)
    requires Inv(w) && |threads| == |w.threads|
    requires forall t :: 0 <= t < |threads| ==>
      threads[t] == w.threads[t] || (w.threads[t].Waiting? && threads[t] == Waiting(true))
    ensures Inv(w.(threads := threads))
  {
    NotifyKeepsSums(w.threads, threads);
  }

  /** The clean-up itself, once the master is told. */
  function Reported(w: World, t: nat): World
    requires t < |w.threads| && w.threads[t].Entering?
  {
    w.(shared := CleanUp(w.shared, w.threads[t].nNow, w.threads[t].fOk), threads := w.threads[t := Deciding])
  }

  lemma {:induction false} ReportedCounted(w: World, t: nat)
    requires Counted(w) && Enabled(w, Enter(t))
    ensures Counted(Reported(w, t))
  {
    ThreadUpdate(w.threads, t, Deciding);
  }

  lemma {:induction false} ReportedFailures(w: World, t: nat)
    requires FailuresKnown(w) && Accounted(w) && Enabled(w, Enter(t))
    ensures FailuresKnown(Reported(w, t)) && Accounted(Reported(w, t))
  {
    ThreadUpdate(w.threads, t, Deciding);
  }

  lemma {:induction false} CleanedKeeps(w: World, t: nat)
    requires Inv(w) && Enabled(w, Enter(t))
    ensures Inv(Cleaned(w, t)) && Cleaned(w, t).threads[t] == Deciding
  {
    var w' := if TellsMaster(w.shared, t == 0, w.threads[t].nNow)
      then w.(threads := w.threads[0 := Notified(w.threads[0])]) else w;
    ToldKeeps(w, w'.threads);
    ReportedCounted(w', t);
    ReportedFailures(w', t);
    assert Cleaned(w, t) == Reported(w', t);
    MasterTold(w, t);
  }

  lemma {:induction false} MasterTold(w: World, t: nat)
    requires Counted(w) && MasterSafe(w) && Enabled(w, Enter(t))
    ensures MasterSafe(Cleaned(w, t))
  {
    SumUpdate(InFlight, w.threads, t, Deciding);
  }

  lemma {:induction false} AwakeKeeps(w: World, t: nat)
    requires Inv(w) && Enabled(w, Wake(t))
    ensures Inv(Awake(w, t)) && Awake(w, t).threads[t] == Deciding
  {
    ThreadUpdate(w.threads, t, Deciding);
  }

  lemma {:induction false} PoppedParts(queue: seq<Check>, n: nat)
    requires n <= |queue|
    ensures multiset(queue) == multiset(queue[..|queue| - n]) + multiset(Popped(queue, n))
  {
    if n == 0 {
      TakeAll(queue);
    } else {
      var m := |queue| - 1;
      PoppedParts(queue[..m], n - 1);
      TakeTake(queue, |queue| - n, m);
      OneMorePopped(queue, queue[..m], queue[..|queue| - n], Popped(queue[..m], n - 1));
    }
  }

  lemma {:induction false} OneMorePopped(queue: seq<Check>, init: seq<Check>, rest: seq<Check>, batch: seq<Check>)
    requires queue != [] && init == queue[..|queue| - 1] && multiset(init) == multiset(rest) + multiset(batch)
    ensures multiset(queue) == multiset(rest) + multiset([queue[|queue| - 1]] + batch)
  {
    var last := queue[|queue| - 1];
    LastOff(queue);
    FirstOn(last, batch);
    PopStep(multiset(queue), multiset(init), multiset{last}, multiset(rest), multiset(batch),
      multiset([last] + batch));
  }

  lemma {:induction false} PopStep(
    all: multiset<Check>, init: multiset<Check>, last: multiset<Check>, rest: multiset<Check>, batch0: multiset<Check>,
    batch: multiset<Check>)
    requires all == init + last && init == rest + batch0 && batch == last + batch0
    ensures all == rest + batch
  {
  }

  lemma {:induction false} LastOff(s: seq<Check>)
    requires s != []
    ensures multiset(s) == multiset(s[..|s| - 1]) + multiset{s[|s| - 1]}
  {
    assert s == s[..|s| - 1] + [s[|s| - 1]];
  }

  lemma {:induction false} FirstOn(c: Check, s: seq<Check>)
    ensures multiset([c] + s) == multiset{c} + multiset(s)
  {
  }

  lemma {:induction false} PendingTake(threads: seq<Local>, t: nat, batch: seq<Check>, fOk: bool)
    requires t < |threads| && threads[t] == Deciding
    ensures Pending(threads[t := Working(batch, 0, fOk)]) + multiset{} == Pending(threads) + multiset(batch)
  {
    PendingUpdate(threads, t, Working(batch, 0, fOk));
    EmptyAppend(batch);
  }

  lemma {:induction false} TakeAccounted(w: World, t: nat, rest: seq<Check>, batch: seq<Check>)
    requires Accounted(w) && t < |w.threads| && w.threads[t] == Deciding
    requires multiset(w.shared.queue) == multiset(rest) + multiset(batch)
    ensures w.added ==
      multiset(rest) + Pending(w.threads[t := Working(batch, 0, w.shared.fAllOk)]) + (w.ran + w.skipped)
  {
    PendingTake(w.threads, t, batch, w.shared.fAllOk);
    TakeStep(w.added, multiset(w.shared.queue), Pending(w.threads), w.ran + w.skipped,
             multiset(rest), multiset(batch), Pending(w.threads[t := Working(batch, 0, w.shared.fAllOk)]));
  }

  lemma {:induction false} TakeStep(
    added: multiset<Check>, q: multiset<Check>, p: multiset<Check>, done: multiset<Check>, rest: multiset<Check>,
    batch: multiset<Check>, p': multiset<Check>)
    requires added == q + p + done && q == rest + batch && p' + multiset{} == p + batch
    ensures added == rest + p' + done
  {
    assert rest + batch + p == rest + (p + batch) == rest + p';
  }

  /** Taking a batch. */
  lemma {:induction false} TakeKeeps(w: World, t: nat)
    requires Inv(w) && t < |w.threads| && w.threads[t] == Deciding && w.shared.queue != []
    ensures Inv(Settle(w, t))
  {
    BatchFits(w.shared);
    var nNow := BatchSize(w.shared);
    PoppedParts(w.shared.queue, nNow);
    TakeAccounted(w, t, w.shared.queue[..|w.shared.queue| - nNow], Popped(w.shared.queue, nNow));
    TakeCounted(w, t);
  }

  lemma {:induction false} TakeCounted(w: World, t: nat)
    requires Counted(w) && FailuresKnown(w) && MasterSafe(w)
    requires t < |w.threads| && w.threads[t] == Deciding && w.shared.queue != []
    ensures Counted(Settle(w, t)) && FailuresKnown(Settle(w, t)) && MasterSafe(Settle(w, t))
  {
    BatchFits(w.shared);
    ThreadUpdate(w.threads, t, Working(Popped(w.shared.queue, BatchSize(w.shared)), 0, w.shared.fAllOk));
  }

  /** Wait returns true exactly if every check added since the last Wait ran and succeeded. */
  lemma {:induction false} ReturnCorrect(w: World)
    requires Inv(w) && w.threads[0] == Deciding && w.shared.queue == [] && w.shared.nTodo == 0
    ensures w.shared.fAllOk <==> w.ran == w.added && AllOk(w.added)
    ensures !w.shared.fAllOk ==> exists c :: c in w.ran && !c.ok
  {
    NothingInFlight(w);
    assert w.added == w.ran + w.skipped;
  }

  /** With nothing left to do, no thread knows of a failure that fAllOk does not show. */
  lemma {:induction false} NothingInFlight(w: World)
    requires Inv(w) && w.shared.queue == [] && w.shared.nTodo == 0
    ensures Sum(InFlight, w.threads) == Sum(Knows, w.threads) == 0 && Pending(w.threads) == multiset{}
  {
    PendingNone(w.threads);
    if Sum(Knows, w.threads) > 0 {
      var t := SumPositive(Knows, w.threads);
      SumUpdate(InFlight, w.threads, t, Out);
    }
  }

  lemma {:induction false} ReturnKeeps(w: World)
    requires Inv(w) && w.threads[0] == Deciding && w.shared.queue == [] && w.shared.nTodo == 0
    ensures Inv(Settle(w, 0))
  {
    NothingInFlight(w);
    ThreadUpdate(w.threads, 0, Out);
  }

  lemma {:induction false} SettleKeeps(w: World, t: nat)
    requires Inv(w) && t < |w.threads| && w.threads[t] == Deciding
    ensures Inv(Settle(w, t))
  {
    if w.shared.queue != [] {
      TakeKeeps(w, t);
    } else if t == 0 && w.shared.nTodo == 0 {
      ReturnKeeps(w);
    } else {
      ThreadUpdate(w.threads, t, Waiting(false));
    }
  }

  lemma {:induction false} NotifyKeepsSums(threads: seq<Local>, threads': seq<Local>)
    requires |threads| == |threads'|
    requires forall t :: 0 <= t < |threads| ==>
      threads'[t] == threads[t] || (threads[t].Waiting? && threads'[t].Waiting?)
    ensures Sum(InFlight, threads') == Sum(InFlight, threads) && Sum(Asleep, threads') == Sum(Asleep, threads)
    ensures Sum(Inside, threads') == Sum(Inside, threads) && Sum(Knows, threads') == Sum(Knows, threads)
    ensures Pending(threads') == Pending(threads) && Sum(Hollow, threads') == Sum(Hollow, threads)
  {
    if threads != [] {
      NotifyKeepsSums(threads[1..], threads'[1..]);
    }
  }

  lemma {:induction false} AddKeeps(w: World, vChecks: seq<Check>, pick: nat)
    requires Inv(w) && Enabled(w, Add(vChecks, pick))
    ensures Inv(Next(w, Add(vChecks, pick)))
  {
    NotifyKeepsSums(w.threads, NotifyWorkers(w.threads, |vChecks|, pick));
    var q, p, r, v := multiset(w.shared.queue), Pending(w.threads), w.ran + w.skipped, multiset(vChecks);
    assert q + p + r + v == (q + v) + p + r;
  }

  /** Every enabled step can be taken and keeps the invariant. */
  lemma {:induction false} NextKeeps(w: World, step: Step)
    requires Inv(w) && Enabled(w, step)
    ensures step.Enter? ==> var s := Cleaned(w, step.t).shared; s.nTotal + s.nIdle + 1 > 0
    ensures step.Wake? ==> var s := Awake(w, step.t).shared; s.nTotal + s.nIdle + 1 > 0
    ensures Inv(Next(w, step))
  {
    match step
    case Start(t) => StartKeeps(w, t);
    case Enter(t) => CleanedKeeps(w, t); SettleKeeps(Cleaned(w, t), t);
    case Wake(t) => AwakeKeeps(w, t); SettleKeeps(Awake(w, t), t);
    case Exec(t) => ExecKeeps(w, t);
    case Finish(t) => FinishKeeps(w, t);
    case Add(vChecks, pick) => AddKeeps(w, vChecks, pick);
  }

  // ----- runs -----

  /** What Wait returns in this step, if it returns. */
  function Returned(w: World, step: Step): Option<bool>
    requires Enabled(w, step)
    requires step.Enter? ==> var s := Cleaned(w, step.t).shared; s.nTotal + s.nIdle + 1 > 0
    requires step.Wake? ==> var s := Awake(w, step.t).shared; s.nTotal + s.nIdle + 1 > 0
  {
    if !step.Enter? && !step.Wake? then None else
      var s := if step.Enter? then Cleaned(w, step.t).shared else Awake(w, step.t).shared;
      var d := Decide(s, step.t == 0).1;
      if d.Return? then Some(d.result) else None
  }

  /** Wait returns true exactly if every check added since it last returned has run and succeeded. */
  lemma {:induction false} WaitCorrect(w: World, step: Step)
    requires Inv(w) && Enabled(w, step)
    requires step.Enter? ==> var s := Cleaned(w, step.t).shared; s.nTotal + s.nIdle + 1 > 0
    requires step.Wake? ==> var s := Awake(w, step.t).shared; s.nTotal + s.nIdle + 1 > 0
    ensures Returned(w, step).Some? ==> (Returned(w, step).value <==> w.ran == w.added && AllOk(w.added))
    ensures Returned(w, step) == Some(false) ==> exists c :: c in w.ran && !c.ok
  {
    if Returned(w, step).Some? {
      if step.Enter? {
        CleanedKeeps(w, step.t);
        ReturnCorrect(Cleaned(w, step.t));
      } else {
        AwakeKeeps(w, step.t);
        ReturnCorrect(Awake(w, step.t));
      }
    }
  }

  /** No lost wakeup: a master asleep and un-notified has a worker to wait for, which holds unfinished checks. */
  lemma {:induction false} NoLostWakeup(w: World) returns (t: nat)
    requires Inv(w) && w.threads[0] == Waiting(false)
    ensures 0 < t < |w.threads| && InFlight(w.threads[t]) > 0 && !w.threads[t].Waiting?
  {
    t := SumPositive(InFlight, w.threads);
  }

  /** While Wait has not returned, some thread can go on without being woken for no reason. */
  lemma {:induction false} NeverStuck(w: World) returns (step: Step)
    requires Inv(w) && !w.threads[0].Out? && !w.threads[0].Deciding?
    ensures Enabled(w, step) && !step.Add? && !step.Start? && (step.Wake? ==> w.threads[step.t] == Waiting(true))
  {
    var t := 0;
    if w.threads[0] == Waiting(false) {
      t := NoLostWakeup(w);
    }
    var l := w.threads[t];
    step := if l.Entering? then Enter(t)
      else if l.Waiting? then Wake(t)
      else if l.i < |l.batch| then Exec(t)
      else Finish(t);
  }

  ghost predicate CanStep(w: World, step: Step) {
    && Enabled(w, step)
    && (step.Enter? ==> var s := Cleaned(w, step.t).shared; s.nTotal + s.nIdle + 1 > 0)
    && (step.Wake? ==> var s := Awake(w, step.t).shared; s.nTotal + s.nIdle + 1 > 0)
  }

  ghost predicate RunStep(steps: seq<Step>, worlds: seq<World>, i: nat)
    requires i < |steps| && |worlds| == |steps| + 1
  {
    Enabled(worlds[i], steps[i]) && (CanStep(worlds[i], steps[i]) ==> worlds[i + 1] == Next(worlds[i], steps[i]))
  }

  ghost predicate IsRun(steps: seq<Step>, worlds: seq<World>) {
    && |worlds| == |steps| + 1
    && forall i {:trigger RunStep(steps, worlds, i)} :: 0 <= i < |steps| ==> RunStep(steps, worlds, i)
  }

  /** A new queue, the master and `workers` threads not yet started. */
  function Fresh(nBatchSize: nat, workers: nat): World {
    World(Shared([], 0, 0, true, 0, nBatchSize), seq(workers + 1, _ => Out), multiset{}, multiset{}, multiset{})
  }

  lemma {:induction false} AllOut(threads: seq<Local>)
    requires forall t :: 0 <= t < |threads| ==> threads[t].Out?
    ensures Sum(InFlight, threads) == Sum(Asleep, threads) == Sum(Inside, threads) == 0
    ensures Sum(Knows, threads) == Sum(Hollow, threads) == 0 && Pending(threads) == multiset{}
  {
    if threads != [] {
      AllOut(threads[1..]);
    }
  }

  /** In every interleaving of the master and the workers. */
  lemma {:induction false} EveryRunSafe(steps: seq<Step>, worlds: seq<World>, nBatchSize: nat, workers: nat, n: nat)
    requires IsRun(steps, worlds) && worlds[0] == Fresh(nBatchSize, workers) && n <= |steps|
    ensures Inv(worlds[n])
    ensures n < |steps| ==>
      && CanStep(worlds[n], steps[n])
      && var r := Returned(worlds[n], steps[n]);
        r.Some? ==> (r.value <==> worlds[n].ran == worlds[n].added && AllOk(worlds[n].added))
  {
    if n == 0 {
      AllOut(worlds[0].threads);
    } else {
      EveryRunSafe(steps, worlds, nBatchSize, workers, n - 1);
      assert RunStep(steps, worlds, n - 1);
      NextKeeps(worlds[n - 1], steps[n - 1]);
    }
    if n < |steps| {
      assert RunStep(steps, worlds, n);
      NextKeeps(worlds[n], steps[n]);
      WaitCorrect(worlds[n], steps[n]);
    }
  }

  // ----- the queue object -----

  /** The critical sections, changing the shared fields while the mutex is held. */
  class CCheckQueue {
    const nBatchSize: nat
    var queue: seq<Check>
    var nIdle: int
    var nTotal: int
    var fAllOk: bool
    var nTodo: int

    constructor (nBatchSizeIn: nat)
      ensures Value() == Fresh(nBatchSizeIn, 0).shared
    {
      nBatchSize, queue, nIdle, nTotal, fAllOk, nTodo := nBatchSizeIn, [], 0, 0, true, 0;
    }

    ghost function Value(): Shared
      reads this
    {
      Shared(queue, nIdle, nTotal, fAllOk, nTodo, nBatchSize)
    }

    method Report(fMaster: bool, nNow: nat, fOk: bool) returns (notifyMaster: bool)
      modifies this
      ensures Value() == CleanUp(old(Value()), nNow, fOk) && notifyMaster == TellsMaster(old(Value()), fMaster, nNow)
    {
      notifyMaster := false;
      if nNow > 0 {
        fAllOk := fAllOk && fOk;
        nTodo := nTodo - nNow;
        if nTodo == 0 && !fMaster {
          notifyMaster := true;
        }
      } else {
        nTotal := nTotal + 1;
      }
    }

    /** The inner loop until it waits, returns or has a batch. */
    method Proceed(fMaster: bool) returns (d: Decision)
      requires nTotal + nIdle + 1 > 0
      modifies this
      ensures (Value(), d) == Decide(old(Value()), fMaster)
    {
      if queue == [] {
        if fMaster && nTodo == 0 {
          nTotal := nTotal - 1;
          var fRet := fAllOk;
          fAllOk := true;
          return Return(fRet);
        }
        nIdle := nIdle + 1;
        return Sleep;
      }
      BatchFits(Value());
      var nNow := Max(1, Min(nBatchSize, |queue| / (nTotal + nIdle + 1)));
      var vChecks := PopBatch(nNow);
      return Take(vChecks);
    }

    method PopBatch(nNow: nat) returns (vChecks: seq<Check>)
      requires nNow <= |queue|
      modifies this`queue
      ensures queue == old(queue)[..|old(queue)| - nNow] && vChecks == Popped(old(queue), nNow)
    {
      vChecks := [];
      var i := 0;
      TakeAll(queue);
      EmptyAppend(Popped(queue, nNow));
      while i < nNow
        invariant 0 <= i <= nNow && queue == old(queue)[..|old(queue)| - i]
        invariant vChecks + Popped(queue, nNow - i) == Popped(old(queue), nNow)
      {
        var last := |queue| - 1;
        Assoc(vChecks, [queue[last]], Popped(queue[..last], nNow - i - 1));
        TakeTake(old(queue), last, |queue|);
        vChecks := vChecks + [queue[last]];
        queue := queue[..last];
        i := i + 1;
      }
      EmptyAppend(vChecks);
    }

    /** The critical section at the top of the loop, up to the wait, the return or the end of the section. */
    method Enter(fMaster: bool, nNow: nat, fOk: bool) returns (notifyMaster: bool, d: Decision)
      requires var s := CleanUp(Value(), nNow, fOk); s.nTotal + s.nIdle + 1 > 0
      modifies this
      ensures (Value(), d) == Decide(CleanUp(old(Value()), nNow, fOk), fMaster)
      ensures notifyMaster == TellsMaster(old(Value()), fMaster, nNow)
    {
      notifyMaster := Report(fMaster, nNow, fOk);
      d := Proceed(fMaster);
    }

    /** The rest of the critical section, once a wait has ended. */
    method Resume(fMaster: bool) returns (d: Decision)
      requires nTotal + nIdle > 0
      modifies this
      ensures (Value(), d) == Decide(old(Value()).(nIdle := old(nIdle) - 1), fMaster)
    {
      nIdle := nIdle - 1;
      d := Proceed(fMaster);
    }

    method Add(vChecks: seq<Check>)
      modifies this
      ensures Value() == Added(old(Value()), vChecks)
    {
      var i := 0;
      while i < |vChecks|
        invariant 0 <= i <= |vChecks| && queue == old(queue) + vChecks[..i]
        invariant Value() == old(Value()).(queue := queue)
      {
        AppendTake(old(queue), vChecks, i);
        queue := queue + [vChecks[i]];
        i := i + 1;
      }
      TakeAll(vChecks);
      nTodo := nTodo + |vChecks|;
    }

    /** The work outside the lock: checks run until one fails, and count as done either way. */
    static method RunBatch(vChecks: seq<Check>, known: bool) returns (fOk: bool, nRun: nat)
      ensures fOk <==> known && forall c :: c in vChecks ==> c.ok
      ensures nRun <= |vChecks| && (fOk ==> nRun == |vChecks|)
      ensures known && !fOk ==> nRun > 0 && !vChecks[nRun - 1].ok && forall k :: 0 <= k < nRun - 1 ==> vChecks[k].ok
    {
      fOk, nRun := known, 0;
      var i := 0;
      while i < |vChecks|
        invariant 0 <= i <= |vChecks| && nRun <= i
        invariant fOk <==> known && forall k :: 0 <= k < i ==> vChecks[k].ok
        invariant fOk ==> nRun == i
        invariant known && !fOk ==> nRun > 0 && !vChecks[nRun - 1].ok && forall k :: 0 <= k < nRun - 1 ==> vChecks[k].ok
      {
        if fOk {
          fOk := vChecks[i].ok;
          nRun := nRun + 1;
        }
        i := i + 1;
      }
    }
  }
}
