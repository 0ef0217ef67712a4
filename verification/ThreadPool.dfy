/** The thread pool's protocol. The mutex makes every critical section one step; what happens outside of it
    (running a task, notifying after a launch, waking up) are steps of their own, in any order. */
module ThreadPool {

  /** A worker sleeps on the queue's condition variable, is about to look at the queue, runs a task, or has
      left its loop. */
  datatype Worker = Asleep | Awake | Running(task: nat) | Stopped

  /** A caller of the pool: between calls, about to notify after a launch, running a task that found the
      backlog full, asleep in `Wait`, or about to look at the counters in `Wait`. */
  datatype Caller = Idle | Notifying | Inline(task: nat) | Waiting | Checking

  datatype Pool = Pool(backlog: nat, queue: seq<nat>, scheduled: nat, completed: nat, done: bool,
                       workers: seq<Worker>, callers: seq<Caller>, started: seq<nat>, next: nat)

  datatype Step =
    | Launch(caller: nat)               // with the next task number
    | Notify(caller: nat, worker: nat)  // wakes one sleeping worker, if there is any
    | InlineDone(caller: nat)
    | Wait(caller: nat)
    | Check(caller: nat)
    | Look(worker: nat)
    | Finish(worker: nat)
    | SpuriousWorker(worker: nat)
    | SpuriousCaller(caller: nat)
    | Destroy

  function Start(threads: nat, backlog: nat, callers: nat): Pool {
    Pool(backlog, [], 0, 0, false, seq(threads, _ => Awake), seq(callers, _ => Idle), [], 0)
  }

  predicate HasSleeper(workers: seq<Worker>) {
    exists i :: 0 <= i < |workers| && workers[i].Asleep?
  }

  predicate Enabled(p: Pool, s: Step) {
    match s
    case Launch(c) => c < |p.callers| && p.callers[c].Idle? && !p.done
    case Notify(c, w) =>
      && c < |p.callers| && p.callers[c].Notifying?
      && (HasSleeper(p.workers) ==> w < |p.workers| && p.workers[w].Asleep?)
    case InlineDone(c) => c < |p.callers| && p.callers[c].Inline?
    case Wait(c) => c < |p.callers| && p.callers[c].Idle? && !p.done
    case Check(c) => c < |p.callers| && p.callers[c].Checking?
    case Look(w) => w < |p.workers| && p.workers[w].Awake?
    case Finish(w) => w < |p.workers| && p.workers[w].Running?
    case SpuriousWorker(w) => w < |p.workers| && p.workers[w].Asleep?
    case SpuriousCaller(c) => c < |p.callers| && p.callers[c].Waiting?
    case Destroy => !p.done
  }

  function SetCaller(p: Pool, c: nat, state: Caller): Pool
    requires c < |p.callers|
  {
    p.(callers := p.callers[c := state])
  }

  function SetWorker(p: Pool, w: nat, state: Worker): Pool
    requires w < |p.workers|
  {
    p.(workers := p.workers[w := state])
  }

  /** The loop of a worker from the check of its condition on, the lock being held. */
  function NextTask(p: Pool, w: nat): Pool
    requires w < |p.workers|
  {
    if p.done then SetWorker(p, w, Stopped)
    else if p.queue == [] then SetWorker(p, w, Asleep)
    else SetWorker(p, w, Running(p.queue[0])).(queue := p.queue[1..], started := p.started + [p.queue[0]])
  }

  function WakeWorkers(workers: seq<Worker>): (r: seq<Worker>)
    ensures |r| == |workers|
    ensures forall i :: 0 <= i < |r| ==> r[i] == if workers[i].Asleep? then Awake else workers[i]
  {
    seq(|workers|, i requires 0 <= i < |workers| => if workers[i].Asleep? then Awake else workers[i])
  }

  function WakeCallers(callers: seq<Caller>): (r: seq<Caller>)
    ensures |r| == |callers|
    ensures forall i :: 0 <= i < |r| ==> r[i] == if callers[i].Waiting? then Checking else callers[i]
  {
    seq(|callers|, i requires 0 <= i < |callers| => if callers[i].Waiting? then Checking else callers[i])
  }

  function Complete(p: Pool): Pool {
    var q := p.(completed := p.completed + 1);
    if q.completed == q.scheduled then q.(callers := WakeCallers(q.callers)) else q
  }

  function Apply(p: Pool, s: Step): Pool
    requires Enabled(p, s)
  {
    match s
    case Launch(c) =>
      var q := p.(next := p.next + 1);
      if |p.queue| >= p.backlog then SetCaller(q, c, Inline(p.next)).(started := p.started + [p.next])
      else SetCaller(q, c, Notifying).(queue := p.queue + [p.next], scheduled := p.scheduled + 1)
    case Notify(c, w) =>
      var q := SetCaller(p, c, Idle);
      if HasSleeper(p.workers) then SetWorker(q, w, Awake) else q
    case InlineDone(c) => SetCaller(p, c, Idle)
    case Wait(c) => SetCaller(p, c, if p.completed == p.scheduled then Idle else Waiting)
    case Check(c) => SetCaller(p, c, if p.completed == p.scheduled then Idle else Waiting)
    case Look(w) => NextTask(p, w)
    case Finish(w) => NextTask(Complete(p), w)
    case SpuriousWorker(w) => SetWorker(p, w, Awake)
    case SpuriousCaller(c) => SetCaller(p, c, Checking)
    case Destroy => p.(done := true, workers := WakeWorkers(p.workers))
  }

  // ---------- What every step keeps ----------

  /** How many workers run a task. */
  function RunningCount(workers: seq<Worker>): nat {
    if workers == [] then 0
    else RunningCount(workers[..|workers| - 1]) + if workers[|workers| - 1].Running? then 1 else 0
  }

  lemma {:induction false} RunningUpdate(workers: seq<Worker>, w: nat, state: Worker)
    requires w < |workers|
    ensures RunningCount(workers[w := state]) ==
            RunningCount(workers) - (if workers[w].Running? then 1 else 0) + if state.Running? then 1 else 0
  {
    var n := |workers| - 1;
    var next := workers[w := state];
    if w < n {
      RunningUpdate(workers[..n], w, state);
      assert next[..n] == workers[..n][w := state];
    } else {
      assert next[..n] == workers[..n];
    }
  }

  lemma {:induction false} RunningWake(workers: seq<Worker>)
    ensures RunningCount(WakeWorkers(workers)) == RunningCount(workers)
  {
    if workers != [] {
      var n := |workers| - 1;
      RunningWake(workers[..n]);
      assert WakeWorkers(workers)[..n] == WakeWorkers(workers[..n]);
    }
  }

  predicate Distinct(s: seq<nat>) {
    forall i, j :: 0 <= i < j < |s| ==> s[i] != s[j]
  }

  /** Every scheduled task is completed, queued or running. */
  ghost predicate Balanced(p: Pool) {
    p.scheduled == p.completed + |p.queue| + RunningCount(p.workers)
  }

  /** No task is started twice, and no queued task has been started. */
  ghost predicate StartedOnce(p: Pool) {
    && Distinct(p.started + p.queue)
    && forall i :: 0 <= i < |p.started + p.queue| ==> (p.started + p.queue)[i] < p.next
  }

  ghost predicate HasNotifier(p: Pool) {
    exists c :: 0 <= c < |p.callers| && p.callers[c].Notifying?
  }

  ghost predicate HasActive(p: Pool) {
    exists w :: 0 <= w < |p.workers| && (p.workers[w].Awake? || p.workers[w].Running?)
  }

  /** No wakeup is lost: before shutdown, a task in the queue means that a worker is up or about to be notified. */
  ghost predicate NoLostTask(p: Pool) {
    !p.done && p.queue != [] && p.workers != [] ==> HasActive(p) || HasNotifier(p)
  }

  /** Whoever sleeps in `Wait` has something to wait for. */
  ghost predicate NoLostWaiter(p: Pool) {
    forall c :: 0 <= c < |p.callers| && p.callers[c].Waiting? ==> p.completed != p.scheduled
  }

  /** Workers stop only after shutdown, and none sleeps after it. */
  ghost predicate Shutdown(p: Pool) {
    forall w :: 0 <= w < |p.workers| ==> if p.done then !p.workers[w].Asleep? else !p.workers[w].Stopped?
  }

  ghost predicate Inv(p: Pool) {
    && Balanced(p) && |p.queue| <= p.backlog && StartedOnce(p)
    && NoLostTask(p) && NoLostWaiter(p) && Shutdown(p)
  }

  lemma StartIsFine(threads: nat, backlog: nat, callers: nat)
    ensures Inv(Start(threads, backlog, callers))
  {
    NoneRunning(threads);
  }

  lemma {:induction false} NoneRunning(threads: nat)
    ensures RunningCount(seq(threads, _ => Awake)) == 0
  {
    if threads > 0 {
      var s: seq<Worker> := seq(threads, _ => Awake);
      assert s[..threads - 1] == seq(threads - 1, _ => Awake);
      NoneRunning(threads - 1);
    }
  }

  lemma CompleteKeeps(p: Pool, w: nat)
    requires Inv(p) && w < |p.workers| && p.workers[w].Running?
    ensures var q := Complete(p);
            && q.scheduled == q.completed + |q.queue| + RunningCount(q.workers) - 1
            && q.workers == p.workers && q.queue == p.queue && q.done == p.done && q.started == p.started
            && q.next == p.next && q.backlog == p.backlog
            && NoLostWaiter(q) && StartedOnce(q) && Shutdown(q)
            && (HasNotifier(p) <==> HasNotifier(q))
  {
    hide Distinct, RunningCount;
    var q := Complete(p);
    if HasNotifier(p) {
      var c :| 0 <= c < |p.callers| && p.callers[c].Notifying?;
      assert q.callers[c].Notifying?;
    }
    if HasNotifier(q) {
      var c :| 0 <= c < |q.callers| && q.callers[c].Notifying?;
      assert p.callers[c].Notifying?;
    }
  }

  /** The end of both worker steps. */
  lemma NextTaskKeeps(p: Pool, w: nat)
    requires w < |p.workers| && (p.workers[w].Awake? || p.workers[w].Running?)
    requires p.scheduled == p.completed + |p.queue| + RunningCount(p.workers) - if p.workers[w].Running? then 1 else 0
    requires |p.queue| <= p.backlog && StartedOnce(p) && NoLostWaiter(p) && Shutdown(p)
    ensures Inv(NextTask(p, w))
  {
    hide RunningCount, Distinct;
    var q := NextTask(p, w);
    RunningUpdate(p.workers, w, q.workers[w]);
    if !p.done && p.queue != [] {
      assert p.started + p.queue == q.started + q.queue;
      assert q.workers[w].Running?;
    } else {
      assert q.started + q.queue == p.started + p.queue;
    }
  }

  lemma LaunchKeeps(p: Pool, c: nat)
    requires Inv(p) && Enabled(p, Launch(c))
    ensures Inv(Apply(p, Launch(c)))
  {
    hide RunningCount;
    var q := Apply(p, Launch(c));
    var old_, new_ := p.started + p.queue, q.started + q.queue;
    if |p.queue| >= p.backlog {
      assert new_ == p.started + [p.next] + p.queue;
      forall i, j | 0 <= i < j < |new_| ensures new_[i] != new_[j] {
        var k := |p.started|;
        var a, b := if i < k then i else i - 1, if j < k then j else j - 1;
        assert i != k ==> new_[i] == old_[a];
        assert j != k ==> new_[j] == old_[b];
      }
      forall i | 0 <= i < |new_| ensures new_[i] < q.next {
        assert i < |p.started| ==> new_[i] == old_[i];
        assert i > |p.started| ==> new_[i] == old_[i - 1];
      }
      if HasNotifier(p) {
        var d :| 0 <= d < |p.callers| && p.callers[d].Notifying?;
        assert q.callers[d].Notifying?;
      }
      if HasActive(p) {
        var w :| 0 <= w < |p.workers| && (p.workers[w].Awake? || p.workers[w].Running?);
        assert q.workers[w] == p.workers[w];
      }
    } else {
      assert new_ == old_ + [p.next];
      assert q.callers[c].Notifying?;
    }
  }

  lemma NotifyKeeps(p: Pool, c: nat, w: nat)
    requires Inv(p) && Enabled(p, Notify(c, w))
    ensures Inv(Apply(p, Notify(c, w)))
  {
    hide RunningCount, Distinct;
    var q := Apply(p, Notify(c, w));
    if HasSleeper(p.workers) {
      RunningUpdate(p.workers, w, Awake);
      assert q.workers[w].Awake?;
    } else if !p.done && p.workers != [] {
      assert !p.workers[0].Asleep? && !p.workers[0].Stopped?;
      assert HasActive(q);
    }
  }

  lemma CallerKeeps(p: Pool, c: nat, state: Caller)
    requires Inv(p) && c < |p.callers| && !p.callers[c].Notifying?
    requires state.Waiting? ==> p.completed != p.scheduled
    ensures Inv(SetCaller(p, c, state))
  {
    hide RunningCount, Distinct;
    var q := SetCaller(p, c, state);
    if HasNotifier(p) {
      var d :| 0 <= d < |p.callers| && p.callers[d].Notifying?;
      assert q.callers[d].Notifying?;
    }
    if HasActive(p) {
      var w :| 0 <= w < |p.workers| && (p.workers[w].Awake? || p.workers[w].Running?);
      assert q.workers[w] == p.workers[w];
    }
  }

  /** Every step keeps the invariant. */
  lemma StepKeeps(p: Pool, s: Step)
    requires Inv(p) && Enabled(p, s)
    ensures Inv(Apply(p, s))
  {
    hide Inv, Complete, NextTask, SetCaller;
    match s {
      case Launch(c) => LaunchKeeps(p, c);
      case Notify(c, w) => NotifyKeeps(p, c, w);
      case InlineDone(c) => CallerKeeps(p, c, Idle);
      case Wait(c) => CallerKeeps(p, c, if p.completed == p.scheduled then Idle else Waiting);
      case Check(c) => CallerKeeps(p, c, if p.completed == p.scheduled then Idle else Waiting);
      case Look(w) =>
        Parts(p);
        NextTaskKeeps(p, w);
      case Finish(w) =>
        Parts(p);
        CompleteKeeps(p, w);
        NextTaskKeeps(Complete(p), w);
      case SpuriousWorker(w) => SpuriousKeeps(p, w);
      case SpuriousCaller(c) => CallerKeeps(p, c, Checking);
      case Destroy => DestroyKeeps(p);
    }
  }

  lemma Parts(p: Pool)
    requires Inv(p)
    ensures Balanced(p) && |p.queue| <= p.backlog && StartedOnce(p) && NoLostWaiter(p) && Shutdown(p)
  {
  }

  lemma SpuriousKeeps(p: Pool, w: nat)
    requires Inv(p) && Enabled(p, SpuriousWorker(w))
    ensures Inv(Apply(p, SpuriousWorker(w)))
  {
    hide RunningCount, Distinct;
    var q := Apply(p, SpuriousWorker(w));
    RunningUpdate(p.workers, w, Awake);
    assert q.workers[w].Awake?;
  }

  lemma DestroyKeeps(p: Pool)
    requires Inv(p) && Enabled(p, Destroy)
    ensures Inv(Apply(p, Destroy))
  {
    hide RunningCount, Distinct;
    RunningWake(p.workers);
  }

  // ---------- Runs ----------

  ghost predicate IsRun(p: Pool, steps: seq<Step>, q: Pool)
    decreases |steps|
  {
    if steps == [] then q == p
    else Enabled(p, steps[0]) && IsRun(Apply(p, steps[0]), steps[1..], q)
  }

  /** Every interleaving, from a new pool on: tasks are conserved, the queue stays within the backlog, no
      task starts twice, and no wakeup is lost. */
  lemma {:induction false} EveryRun(p: Pool, steps: seq<Step>, q: Pool)
    requires Inv(p) && IsRun(p, steps, q)
    ensures Inv(q)
    decreases |steps|
  {
    if steps != [] {
      hide Inv, Apply, Enabled;
      StepKeeps(p, steps[0]);
      EveryRun(Apply(p, steps[0]), steps[1..], q);
    }
  }

  lemma RunsOfNewPool(threads: nat, backlog: nat, callers: nat, steps: seq<Step>, q: Pool)
    requires IsRun(Start(threads, backlog, callers), steps, q)
    ensures Inv(q)
  {
    hide Inv;
    StartIsFine(threads, backlog, callers);
    EveryRun(Start(threads, backlog, callers), steps, q);
  }

  lemma {:induction false} NoRunning(workers: seq<Worker>)
    ensures RunningCount(workers) == 0 <==> forall i :: 0 <= i < |workers| ==> !workers[i].Running?
  {
    if workers != [] {
      NoRunning(workers[..|workers| - 1]);
    }
  }

  /** A call of `Wait` returns only when no task is queued or running. */
  lemma WaitReturns(p: Pool, c: nat, s: Step)
    requires Inv(p) && (s == Wait(c) || s == Check(c)) && Enabled(p, s)
    ensures Apply(p, s).callers[c].Idle? <==>
            p.queue == [] && forall i :: 0 <= i < |p.workers| ==> !p.workers[i].Running?
  {
    hide RunningCount, Distinct;
    NoRunning(p.workers);
  }

  // ---------- Order ----------

  /** Each task launched so far has been started or waits in the queue, and the queue is in the order of the
      launches. */
  ghost predicate InLaunchOrder(p: Pool) {
    && (forall t: nat :: t < p.next <==> t in p.started || t in p.queue)
    && (forall i, j :: 0 <= i < j < |p.queue| ==> p.queue[i] < p.queue[j])
  }

  lemma NextTaskInOrder(p: Pool, w: nat)
    requires w < |p.workers| && InLaunchOrder(p)
    ensures InLaunchOrder(NextTask(p, w))
  {
    var q := NextTask(p, w);
    if !p.done && p.queue != [] {
      assert q.queue == p.queue[1..] && q.started == p.started + [p.queue[0]] && q.next == p.next;
      forall t: nat ensures t < q.next <==> t in q.started || t in q.queue {
        HeadMoves(p.started, p.queue, t);
        assert t < p.next <==> t in p.started || t in p.queue;
      }
    } else {
      SameTasks(p, q);
    }
  }

  lemma HeadMoves(started: seq<nat>, queue: seq<nat>, t: nat)
    requires queue != []
    ensures t in started + [queue[0]] || t in queue[1..] <==> t in started || t in queue
  {
    assert queue == [queue[0]] + queue[1..];
  }

  lemma LaunchInOrder(p: Pool, c: nat)
    requires InLaunchOrder(p) && Enabled(p, Launch(c))
    ensures InLaunchOrder(Apply(p, Launch(c)))
  {
    var q := Apply(p, Launch(c));
    assert forall t :: t in q.started <==> t in p.started || (t == p.next && q.started != p.started);
    assert forall t :: t in q.queue <==> t in p.queue || (t == p.next && q.queue != p.queue);
    forall i | 0 <= i < |p.queue| ensures p.queue[i] < p.next {
      assert p.queue[i] in p.queue;
    }
  }

  lemma StepInOrder(p: Pool, s: Step)
    requires InLaunchOrder(p) && Enabled(p, s)
    ensures InLaunchOrder(Apply(p, s))
  {
    if s.Launch? {
      LaunchInOrder(p, s.caller);
    } else {
      hide InLaunchOrder, NextTask;
      if s.Look? {
        NextTaskInOrder(p, s.worker);
      } else if s.Finish? {
        SameTasks(p, Complete(p));
        NextTaskInOrder(Complete(p), s.worker);
      } else {
        SameTasks(p, Apply(p, s));
      }
    }
  }

  lemma SameTasks(p: Pool, q: Pool)
    requires p.queue == q.queue && p.started == q.started && p.next == q.next
    ensures InLaunchOrder(p) <==> InLaunchOrder(q)
  {
  }

  lemma {:induction false} EveryRunInOrder(p: Pool, steps: seq<Step>, q: Pool)
    requires InLaunchOrder(p) && IsRun(p, steps, q)
    ensures InLaunchOrder(q)
    decreases |steps|
  {
    if steps != [] {
      hide InLaunchOrder, Apply, Enabled;
      StepInOrder(p, steps[0]);
      EveryRunInOrder(Apply(p, steps[0]), steps[1..], q);
    }
  }

  /** In every interleaving from a new pool, no launched task is lost. */
  lemma NoTaskIsLost(threads: nat, backlog: nat, callers: nat, steps: seq<Step>, q: Pool)
    requires IsRun(Start(threads, backlog, callers), steps, q)
    ensures InLaunchOrder(q)
  {
    EveryRunInOrder(Start(threads, backlog, callers), steps, q);
  }

  /** A worker that finds tasks takes the one that was launched first. */
  lemma OldestFirst(p: Pool, w: nat, s: Step)
    requires InLaunchOrder(p) && Enabled(p, s) && (s == Look(w) || s == Finish(w))
    ensures var q := Apply(p, s);
            if p.done || p.queue == [] then q.queue == p.queue && q.started == p.started && !q.workers[w].Running?
            else
              exists t :: t in p.queue && (forall u :: u in p.queue ==> t <= u)
                && q.started == p.started + [t] && q.workers[w] == Running(t)
                && forall u :: u in q.queue <==> u in p.queue && u != t
  {
    if !p.done && p.queue != [] {
      var q := Apply(p, s);
      var t := p.queue[0];
      assert p.queue == [t] + p.queue[1..];
      assert forall u :: u in p.queue <==> u == t || u in p.queue[1..];
      forall u | u in p.queue[1..] ensures t < u {
        var i :| 0 <= i < |p.queue| - 1 && p.queue[1..][i] == u;
        assert p.queue[0] < p.queue[i + 1];
      }
      assert q.queue == p.queue[1..] && t in p.queue;
    }
  }

  /** The caller runs a task itself exactly when as many tasks wait as the backlog allows; otherwise the task
      is queued and a worker is told. */
  lemma FullQueueRunsInline(p: Pool, c: nat)
    requires Enabled(p, Launch(c))
    ensures var q := Apply(p, Launch(c));
            && q.next == p.next + 1
            && (|p.queue| < p.backlog ==>
                  q.queue == p.queue + [p.next] && q.started == p.started && q.callers[c] == Notifying)
            && (|p.queue| >= p.backlog ==>
                  q.queue == p.queue && q.started == p.started + [p.next] && q.callers[c] == Inline(p.next))
  {
  }

  // ---------- Progress ----------

  /** The steps of the pool itself. */
  predicate IsInternal(s: Step) {
    s.Notify? || s.Look? || s.Finish?
  }

  function WorkerWeight(workers: seq<Worker>): nat {
    if workers == [] then 0
    else
      var w := workers[|workers| - 1];
      WorkerWeight(workers[..|workers| - 1]) + if w.Running? then 2 else if w.Awake? then 1 else 0
  }

  function CallerWeight(callers: seq<Caller>): nat {
    if callers == [] then 0
    else CallerWeight(callers[..|callers| - 1]) + if callers[|callers| - 1].Notifying? then 2 else 0
  }

  lemma {:induction false} WorkerWeightUpdate(workers: seq<Worker>, w: nat, state: Worker)
    requires w < |workers|
    ensures WorkerWeight(workers[w := state]) ==
            WorkerWeight(workers) - (if workers[w].Running? then 2 else if workers[w].Awake? then 1 else 0)
            + if state.Running? then 2 else if state.Awake? then 1 else 0
  {
    var n := |workers| - 1;
    var next := workers[w := state];
    if w < n {
      WorkerWeightUpdate(workers[..n], w, state);
      assert next[..n] == workers[..n][w := state];
    } else {
      assert next[..n] == workers[..n];
    }
  }

  lemma {:induction false} CallerWeightUpdate(callers: seq<Caller>, c: nat, state: Caller)
    requires c < |callers|
    ensures CallerWeight(callers[c := state]) ==
            CallerWeight(callers) - (if callers[c].Notifying? then 2 else 0) + if state.Notifying? then 2 else 0
  {
    var n := |callers| - 1;
    var next := callers[c := state];
    if c < n {
      CallerWeightUpdate(callers[..n], c, state);
      assert next[..n] == callers[..n][c := state];
    } else {
      assert next[..n] == callers[..n];
    }
  }

  lemma {:induction false} CallerWeightWake(callers: seq<Caller>)
    ensures CallerWeight(WakeCallers(callers)) == CallerWeight(callers)
  {
    if callers != [] {
      var n := |callers| - 1;
      CallerWeightWake(callers[..n]);
      assert WakeCallers(callers)[..n] == WakeCallers(callers[..n]);
    }
  }

  /** How much work the pool has left to do by itself. */
  function Work(p: Pool): nat {
    3 * |p.queue| + WorkerWeight(p.workers) + CallerWeight(p.callers)
  }

  /** Every step of the pool itself brings it closer to rest. */
  lemma InternalStepsEnd(p: Pool, s: Step)
    requires Enabled(p, s) && IsInternal(s)
    ensures Work(Apply(p, s)) < Work(p)
  {
    hide WorkerWeight, CallerWeight, HasSleeper;
    match s {
      case Notify(c, w) =>
        CallerWeightUpdate(p.callers, c, Idle);
        if HasSleeper(p.workers) {
          WorkerWeightUpdate(p.workers, w, Awake);
        }
      case Look(w) =>
        WorkerWeightUpdate(p.workers, w, NextTask(p, w).workers[w]);
      case Finish(w) =>
        var q := Complete(p);
        CallerWeightWake(p.callers);
        WorkerWeightUpdate(q.workers, w, NextTask(q, w).workers[w]);
    }
  }

  /** As long as tasks are queued or running, a pool with threads can move by itself before shutdown: there
      is no deadlock. So when it comes to rest, everything that was scheduled is completed. */
  lemma NoDeadlock(p: Pool)
    requires Inv(p) && !p.done && p.workers != [] && p.completed != p.scheduled
    ensures exists s :: IsInternal(s) && Enabled(p, s)
  {
    hide RunningCount, Distinct;
    NoRunning(p.workers);
    if w :| 0 <= w < |p.workers| && p.workers[w].Running? {
      assert IsInternal(Finish(w)) && Enabled(p, Finish(w));
    } else {
      assert p.queue != [];
      if HasActive(p) {
        var w :| 0 <= w < |p.workers| && (p.workers[w].Awake? || p.workers[w].Running?);
        assert IsInternal(Look(w)) && Enabled(p, Look(w));
      } else {
        var c :| 0 <= c < |p.callers| && p.callers[c].Notifying?;
        NotifyIsEnabled(p, c);
      }
    }
  }

  lemma NotifyIsEnabled(p: Pool, c: nat)
    requires c < |p.callers| && p.callers[c].Notifying?
    ensures exists s :: IsInternal(s) && Enabled(p, s)
  {
    if w :| 0 <= w < |p.workers| && p.workers[w].Asleep? {
      assert IsInternal(Notify(c, w)) && Enabled(p, Notify(c, w));
    } else {
      assert IsInternal(Notify(c, 0)) && Enabled(p, Notify(c, 0));
    }
  }

  ghost predicate IsInternalRun(p: Pool, steps: seq<Step>, q: Pool) {
    IsRun(p, steps, q) && forall i :: 0 <= i < |steps| ==> IsInternal(steps[i])
  }

  lemma FirstOfRun(p: Pool, steps: seq<Step>, q: Pool)
    requires IsInternalRun(p, steps, q) && steps != []
    ensures IsInternal(steps[0]) && Enabled(p, steps[0]) && IsInternalRun(Apply(p, steps[0]), steps[1..], q)
  {
    hide Apply, Enabled;
  }

  lemma OneMoreFirst(p: Pool, s: Step, steps: seq<Step>, q: Pool)
    requires IsInternal(s) && Enabled(p, s) && IsInternalRun(Apply(p, s), steps, q)
    ensures IsInternalRun(p, [s] + steps, q)
  {
    hide Apply, Enabled;
    assert ([s] + steps)[1..] == steps;
  }

  lemma InternalKeepsAlive(p: Pool, s: Step)
    requires IsInternal(s) && Enabled(p, s)
    ensures Apply(p, s).done == p.done && |Apply(p, s).workers| == |p.workers|
  {
  }

  /** In whatever order the pool steps by itself, it takes no more steps than it has work left; and where
      it can take none, everything that was scheduled is completed and no caller waits for it. */
  lemma {:induction false} ComesToRest(p: Pool, steps: seq<Step>, q: Pool)
    requires Inv(p) && !p.done && p.workers != [] && IsInternalRun(p, steps, q)
    ensures |steps| + Work(q) <= Work(p)
    ensures (forall s :: IsInternal(s) ==> !Enabled(q, s)) ==>
              q.completed == q.scheduled && forall c :: 0 <= c < |q.callers| ==> !q.callers[c].Waiting?
    decreases |steps|
  {
    hide *;
    if steps == [] {
      RunOfNothing(p, q);
      if p.completed != p.scheduled {
        NoDeadlock(p);
      } else {
        NobodyWaits(p);
      }
    } else {
      FirstOfRun(p, steps, q);
      StepKeeps(p, steps[0]);
      InternalKeepsAlive(p, steps[0]);
      InternalStepsEnd(p, steps[0]);
      ComesToRest(Apply(p, steps[0]), steps[1..], q);
    }
  }

  lemma NobodyWaits(p: Pool)
    requires Inv(p) && p.completed == p.scheduled
    ensures forall c :: 0 <= c < |p.callers| ==> !p.callers[c].Waiting?
  {
    hide RunningCount, Distinct;
  }

  lemma RunOfNothing(p: Pool, q: Pool)
    ensures IsInternalRun(p, [], q) <==> q == p
  {
  }

  /** And from every state it can get there. */
  lemma {:induction false} CanComeToRest(p: Pool) returns (steps: seq<Step>, q: Pool)
    requires Inv(p) && !p.done && p.workers != []
    ensures IsInternalRun(p, steps, q) && q.completed == q.scheduled
    ensures forall c :: 0 <= c < |q.callers| ==> !q.callers[c].Waiting?
    decreases Work(p)
  {
    hide *;
    if p.completed == p.scheduled {
      steps, q := [], p;
      RunOfNothing(p, q);
      NobodyWaits(p);
    } else {
      NoDeadlock(p);
      var s :| IsInternal(s) && Enabled(p, s);
      StepKeeps(p, s);
      InternalKeepsAlive(p, s);
      InternalStepsEnd(p, s);
      var rest;
      rest, q := CanComeToRest(Apply(p, s));
      steps := [s] + rest;
      OneMoreFirst(p, s, rest, q);
    }
  }

  /** After shutdown every worker that has not stopped can step, and its next step stops it, so that joining
      the threads ends; tasks still in the queue are not run. */
  lemma WorkersStop(p: Pool, w: nat)
    requires Inv(p) && p.done && w < |p.workers| && !p.workers[w].Stopped?
    ensures (p.workers[w].Awake? && Enabled(p, Look(w)) && Apply(p, Look(w)).workers[w].Stopped?)
            || (p.workers[w].Running? && Enabled(p, Finish(w)) && Apply(p, Finish(w)).workers[w].Stopped?)
  {
    hide RunningCount, Distinct;
  }

  /** Shutdown happens once and for good: it wakes every sleeping worker, and afterwards no task is launched or
      waited for. */
  lemma ShutdownIsFinal(p: Pool, s: Step)
    ensures Enabled(p, Destroy) <==> !p.done
    ensures Enabled(p, Destroy) ==> Apply(p, Destroy).done && forall w :: 0 <= w < |p.workers| ==>
              Apply(p, Destroy).workers[w] == if p.workers[w] == Asleep then Awake else p.workers[w]
    ensures Enabled(p, s) && s != Destroy ==> Apply(p, s).done == p.done
    ensures Enabled(p, s) && p.done ==> !s.Launch? && !s.Wait?
  {
  }

  /** With no worker threads nothing leaves the queue in any run, and nothing is completed. */
  lemma {:induction false} WithoutThreads(p: Pool, steps: seq<Step>, q: Pool)
    requires p.workers == [] && IsRun(p, steps, q)
    ensures q.workers == [] && q.completed == p.completed && p.queue <= q.queue
    decreases |steps|
  {
    if steps != [] {
      WithoutThreads(Apply(p, steps[0]), steps[1..], q);
    }
  }

  /** So a task that was put into the queue is not run, and a call that waits does not return. */
  lemma WaitNeverReturns(p: Pool, steps: seq<Step>, q: Pool, c: nat)
    requires Inv(p) && p.workers == [] && p.queue != [] && IsRun(p, steps, q)
    ensures p.queue[0] in q.queue && p.queue[0] !in q.started
    ensures forall s :: (s == Wait(c) || s == Check(c)) && Enabled(q, s) ==> Apply(q, s).callers[c].Waiting?
  {
    hide Distinct;
    EveryRun(p, steps, q);
    WithoutThreads(p, steps, q);
    assert q.queue[0] == p.queue[0];
    QueuedIsNotStarted(q);
  }

  lemma QueuedIsNotStarted(p: Pool)
    requires StartedOnce(p) && p.queue != []
    ensures p.queue[0] !in p.started
  {
    var all, n := p.started + p.queue, |p.started|;
    forall i | 0 <= i < n ensures p.started[i] != p.queue[0] {
      assert all[i] == p.started[i] && all[n] == p.queue[0] && all[i] != all[n];
    }
  }

  /** The first launch on a new pool without threads is such a task. */
  lemma LaunchWithoutThreads(backlog: nat, callers: nat, c: nat)
    requires backlog > 0 && c < callers
    ensures var p := Start(0, backlog, callers);
            Enabled(p, Launch(c)) && Inv(Apply(p, Launch(c)))
            && Apply(p, Launch(c)).workers == [] && Apply(p, Launch(c)).queue == [0]
  {
    StartIsFine(0, backlog, callers);
    StepKeeps(Start(0, backlog, callers), Launch(c));
  }
}
