/**
  The counting semaphore as a step system over any number of tasks. Every
  section under the wait-queue lock is one step; blocking is the step that
  enqueues and releases the lock, and the later retry is a step of its own.
 */
module SemaphoreProtocol {
  import opened WaitQueueModel

  /** Where a task is: running, parked in the queue, or woken and about to re-check. */
  datatype Pc = Idle | Queued | Woken

  datatype Sem = Sem(count: int, queue: seq<Task>, pc: map<Task, Pc>)

  datatype Step = Wait(t: Task) | Retry(t: Task) | TryWait(t: Task) | Post | Abort(t: Task)

  predicate Enabled(s: Sem, step: Step) {
    match step
    case Wait(t) => t in s.pc && s.pc[t] == Idle
    case Retry(t) => t in s.pc && s.pc[t] == Woken
    case TryWait(t) => t in s.pc && s.pc[t] == Idle
    case Post => true
    case Abort(t) => t in s.pc
  }

  /** The loop body under the lock: take a unit, or enqueue and park. */
  function Acquire(s: Sem, t: Task): Sem {
    if s.count > 0 then s.(count := s.count - 1, pc := s.pc[t := Idle])
    else s.(queue := s.queue + [t], pc := s.pc[t := Queued])
  }

  function Apply(s: Sem, step: Step): Sem
    requires Enabled(s, step)
  {
    match step
    case Wait(t) => Acquire(s, t)
    case Retry(t) => Acquire(s, t)
    case TryWait(t) => if s.count > 0 then Acquire(s, t) else s
    case Post =>
      var s1 := s.(count := s.count + 1);
      if s.queue == [] then s1 else s1.(queue := s.queue[1..], pc := s.pc[s.queue[0] := Woken])
    case Abort(t) =>
      if t in s.queue then s.(queue := Without(s.queue, t), pc := s.pc[t := Woken]) else s
  }

  predicate Init(s: Sem, initial: int) {
    && s.count == initial && s.queue == []
    && forall t :: t in s.pc ==> s.pc[t] == Idle
  }

  function WokenTasks(pc: map<Task, Pc>): set<Task> {
    set t | t in pc && pc[t] == Woken
  }

  ghost predicate QueueOk(s: Sem) {
    && NoDuplicates(s.queue)
    && (forall t :: t in s.queue <==> t in s.pc && s.pc[t] == Queued)
  }

  /** Waiters are only left behind when there is a woken task for every available unit. */
  ghost predicate Inv(s: Sem) {
    && QueueOk(s)
    && (s.queue != [] ==> s.count <= |WokenTasks(s.pc)|)
  }

  lemma WokenAfter(pc: map<Task, Pc>, t: Task, v: Pc)
    requires t in pc
    ensures v == Woken ==> WokenTasks(pc[t := v]) == WokenTasks(pc) + {t}
    ensures v != Woken ==> WokenTasks(pc[t := v]) == WokenTasks(pc) - {t}
    ensures |WokenTasks(pc[t := v])| == |WokenTasks(pc)| + (if v == Woken then 1 else 0) - (if pc[t] == Woken then 1 else 0)
  {
    if v == Woken {
      assert WokenTasks(pc[t := v]) == WokenTasks(pc) + {t};
    } else {
      assert WokenTasks(pc[t := v]) == WokenTasks(pc) - {t};
    }
  }

  lemma StepKeepsQueue(s: Sem, step: Step)
    requires QueueOk(s) && Enabled(s, step)
    ensures QueueOk(Apply(s, step))
  {
    if step.Abort? {
      WithoutKeepsDistinct(s.queue, step.t);
    } else if step.Post? && s.queue != [] {
      assert forall t :: t in s.queue[1..] <==> t in s.queue && t != s.queue[0];
    }
  }

  lemma StepKeepsInv(s: Sem, step: Step)
    requires Inv(s) && Enabled(s, step)
    ensures Inv(Apply(s, step)) && (s.count >= 0 ==> Apply(s, step).count >= 0)
  {
    StepKeepsQueue(s, step);
    match step {
      case Wait(t) => AcquireCounts(s, t);
      case Retry(t) => AcquireCounts(s, t);
      case TryWait(t) => if s.count > 0 { AcquireCounts(s, t); }
      case Post => PostCounts(s);
      case Abort(t) =>
        hide QueueOk;
        WokenAfter(s.pc, t, Woken);
    }
  }

  /** A unit taken by a woken or arriving task, or a task parked because there is none. */
  lemma AcquireCounts(s: Sem, t: Task)
    requires Inv(s) && t in s.pc && s.pc[t] != Queued && QueueOk(Acquire(s, t))
    ensures Inv(Acquire(s, t))
  {
    hide QueueOk;
    WokenAfter(s.pc, t, Idle);
    WokenAfter(s.pc, t, Queued);
    hide WokenTasks;
  }

  lemma PostCounts(s: Sem)
    requires Inv(s) && QueueOk(Apply(s, Post))
    ensures Inv(Apply(s, Post))
  {
    if s.queue != [] {
      HeadIsQueued(s);
      hide QueueOk;
      WokenAfter(s.pc, s.queue[0], Woken);
      hide WokenTasks;
    }
  }

  lemma HeadIsQueued(s: Sem)
    requires QueueOk(s) && s.queue != []
    ensures s.queue[0] in s.pc && s.pc[s.queue[0]] == Queued
  {
    assert s.queue[0] in s.queue;
  }

  ghost predicate Run(ss: seq<Sem>, steps: seq<Step>, initial: int) {
    && |ss| == |steps| + 1 && Init(ss[0], initial)
    && forall i {:trigger steps[i]} :: 0 <= i < |steps| ==> Enabled(ss[i], steps[i]) && ss[i + 1] == Apply(ss[i], steps[i])
  }

  /** Every interleaving keeps the queue sound and never strands a waiter. */
  lemma {:induction false} RunKeepsInv(ss: seq<Sem>, steps: seq<Step>, initial: int, i: nat)
    requires Run(ss, steps, initial) && i < |ss|
    ensures Inv(ss[i]) && (initial >= 0 ==> ss[i].count >= 0)
    decreases i
  {
    if i > 0 {
      RunKeepsInv(ss, steps, initial, i - 1);
      var step := steps[i - 1];
      StepKeepsInv(ss[i - 1], step);
    }
  }

  // --- What the steps of a run do ---

  predicate At(s: Sem, t: Task, p: Pc) {
    t in s.pc && s.pc[t] == p
  }

  /** Every task except `t` is where it was. */
  ghost predicate OthersStay(s: Sem, s': Sem, t: Task) {
    s'.pc.Keys == s.pc.Keys && forall u :: u in s.pc && u != t ==> s'.pc[u] == s.pc[u]
  }

  /**
    A post adds one unit whatever the queue holds, and wakes the task that is
    first in the queue and nobody else.
   */
  lemma PostWakesFirst(ss: seq<Sem>, steps: seq<Step>, initial: int, i: nat)
    requires Run(ss, steps, initial) && i < |steps| && steps[i] == Post
    ensures ss[i + 1].count == ss[i].count + 1
    ensures ss[i].queue == [] ==> ss[i + 1].queue == [] && ss[i + 1].pc == ss[i].pc
    ensures forall t, rest :: ss[i].queue == [t] + rest ==>
              At(ss[i], t, Queued) && At(ss[i + 1], t, Woken) && ss[i + 1].queue == rest && OthersStay(ss[i], ss[i + 1], t)
  {
    RunKeepsInv(ss, steps, initial, i);
    assert steps[i] == Post;
    var q := ss[i].queue;
    if q != [] { HeadIsQueued(ss[i]); }
  }

  /** The steps that ask for a unit. */
  predicate Asks(step: Step, t: Task) {
    step == Wait(t) || step == Retry(t) || step == TryWait(t)
  }

  /**
    A wait, first try or retry, returns exactly when there was a unit, and takes
    it; otherwise its task is parked behind everybody queued. A failing try-wait
    changes nothing. Nobody else moves.
   */
  lemma ReturnsIffUnit(ss: seq<Sem>, steps: seq<Step>, initial: int, i: nat, t: Task)
    requires Run(ss, steps, initial) && i < |steps| && Asks(steps[i], t)
    ensures ss[i].count > 0 ==>
              At(ss[i + 1], t, Idle) && ss[i + 1].count == ss[i].count - 1 && ss[i + 1].queue == ss[i].queue
    ensures ss[i].count <= 0 && steps[i] == TryWait(t) ==> ss[i + 1] == ss[i]
    ensures ss[i].count <= 0 && steps[i] != TryWait(t) ==>
              At(ss[i + 1], t, Queued) && ss[i + 1].count == ss[i].count && ss[i + 1].queue == ss[i].queue + [t]
    ensures OthersStay(ss[i], ss[i + 1], t)
  {
    assert Asks(steps[i], t);
  }

  /** Aborting a wait wakes the task where it stands in the queue, and is nothing for a task that is not queued. */
  lemma AbortTakesOut(ss: seq<Sem>, steps: seq<Step>, initial: int, i: nat, t: Task)
    requires Run(ss, steps, initial) && i < |steps| && steps[i] == Abort(t)
    ensures !At(ss[i], t, Queued) ==> ss[i + 1] == ss[i]
    ensures forall front, back :: ss[i].queue == front + [t] + back ==>
              ss[i + 1].queue == front + back && At(ss[i + 1], t, Woken)
    ensures ss[i + 1].count == ss[i].count && OthersStay(ss[i], ss[i + 1], t)
  {
    RunKeepsInv(ss, steps, initial, i);
    assert steps[i] == Abort(t);
    forall front, back | ss[i].queue == front + [t] + back
      ensures ss[i + 1].queue == front + back && At(ss[i + 1], t, Woken)
    {
      var q := ss[i].queue;
      assert q[|front|] == t;
      assert t !in q[..|front|];
      WithoutAt(q, t, |front|);
    }
  }

  function Posts(steps: seq<Step>): nat {
    if steps == [] then 0 else Posts(steps[..|steps| - 1]) + if steps[|steps| - 1] == Post then 1 else 0
  }

  /** Step `k` of a run hands a unit to the task that asked. */
  ghost predicate Hands(ss: seq<Sem>, steps: seq<Step>, k: nat)
    requires k < |ss| && k < |steps|
  {
    ss[k].count > 0 && (steps[k].Wait? || steps[k].Retry? || steps[k].TryWait?)
  }

  /** How many of the first `i` steps handed out a unit. */
  ghost function Handed(ss: seq<Sem>, steps: seq<Step>, i: nat): nat
    requires i <= |ss| && i <= |steps|
  {
    if i == 0 then 0 else Handed(ss, steps, i - 1) + if Hands(ss, steps, i - 1) then 1 else 0
  }

  /** Conservation of units: the counter is the initial value plus every post minus every unit handed out. */
  lemma {:induction false} UnitsConserved(ss: seq<Sem>, steps: seq<Step>, initial: int, i: nat)
    requires Run(ss, steps, initial) && i < |ss|
    ensures ss[i].count == initial + Posts(steps[..i]) - Handed(ss, steps, i)
    decreases i
  {
    if i > 0 {
      UnitsConserved(ss, steps, initial, i - 1);
      assert steps[..i][..i - 1] == steps[..i - 1];
      StepMovesUnits(ss, steps, initial, i - 1);
    }
  }

  lemma StepMovesUnits(ss: seq<Sem>, steps: seq<Step>, initial: int, k: nat)
    requires Run(ss, steps, initial) && k < |steps|
    ensures ss[k + 1].count ==
            ss[k].count + (if steps[k] == Post then 1 else 0) - (if Hands(ss, steps, k) then 1 else 0)
  {
    match steps[k] {
      case Post => PostWakesFirst(ss, steps, initial, k);
      case Abort(t) => AbortTakesOut(ss, steps, initial, k, t);
      case Wait(t) => ReturnsIffUnit(ss, steps, initial, k, t);
      case Retry(t) => ReturnsIffUnit(ss, steps, initial, k, t);
      case TryWait(t) => ReturnsIffUnit(ss, steps, initial, k, t);
    }
  }

  /** The step finds no unit and parks its task. */
  predicate Parks(s: Sem, step: Step) {
    s.count <= 0 && (step.Wait? || step.Retry?)
  }

  /** The step is a post with somebody waiting. */
  predicate Wakes(s: Sem, step: Step) {
    s.queue != [] && step.Post?
  }

  /** The tasks that the first `i` steps parked, in that order. */
  ghost function Parked(ss: seq<Sem>, steps: seq<Step>, i: nat): seq<Task>
    requires i <= |ss| && i <= |steps|
  {
    if i == 0 then [] else Parked(ss, steps, i - 1) + if Parks(ss[i - 1], steps[i - 1]) then [steps[i - 1].t] else []
  }

  /** How many of the first `i` steps were posts with somebody waiting. */
  ghost function Wakeups(ss: seq<Sem>, steps: seq<Step>, i: nat): nat
    requires i <= |ss| && i <= |steps|
  {
    if i == 0 then 0 else Wakeups(ss, steps, i - 1) + if Wakes(ss[i - 1], steps[i - 1]) then 1 else 0
  }

  /** First parked, first woken: while no wait is aborted, the queue is what was parked without the first wakeups. */
  lemma {:induction false} WokenInOrder(ss: seq<Sem>, steps: seq<Step>, initial: int, i: nat)
    requires Run(ss, steps, initial) && i < |ss|
    requires forall k :: 0 <= k < i ==> !steps[k].Abort?
    ensures Wakeups(ss, steps, i) <= |Parked(ss, steps, i)|
    ensures ss[i].queue == Parked(ss, steps, i)[Wakeups(ss, steps, i)..]
    decreases i
  {
    if i > 0 {
      WokenInOrder(ss, steps, initial, i - 1);
      QueueMoves(ss, steps, initial, i - 1);
      hide Enabled, Apply, Init, Parks, Wakes;
    }
  }

  lemma QueueMoves(ss: seq<Sem>, steps: seq<Step>, initial: int, k: nat)
    requires Run(ss, steps, initial) && k < |steps| && !steps[k].Abort?
    ensures Parks(ss[k], steps[k]) ==> !Wakes(ss[k], steps[k]) && ss[k + 1].queue == ss[k].queue + [steps[k].t]
    ensures Wakes(ss[k], steps[k]) ==> ss[k].queue != [] && ss[k + 1].queue == ss[k].queue[1..]
    ensures !Parks(ss[k], steps[k]) && !Wakes(ss[k], steps[k]) ==> ss[k + 1].queue == ss[k].queue
  {
    var q := ss[k].queue;
    match steps[k] {
      case Post =>
        PostWakesFirst(ss, steps, initial, k);
        assert q != [] ==> q == [q[0]] + q[1..];
      case Wait(t) => ReturnsIffUnit(ss, steps, initial, k, t);
      case Retry(t) => ReturnsIffUnit(ss, steps, initial, k, t);
      case TryWait(t) => ReturnsIffUnit(ss, steps, initial, k, t);
    }
  }

  /** A task that is not parked can always go on: to ask for a unit, or to ask again after being woken. */
  lemma UnlessParkedGoesOn(ss: seq<Sem>, steps: seq<Step>, initial: int, i: nat, t: Task)
    requires Run(ss, steps, initial) && i < |ss| && t in ss[i].pc
    ensures t !in ss[i].queue ==> exists step :: Asks(step, t) && Enabled(ss[i], step)
  {
    RunKeepsInv(ss, steps, initial, i);
    assert Asks(Wait(t), t) && Asks(Retry(t), t);
  }

  /** A unit with waiters left means some woken task will take it when it retries. */
  lemma NoStrandedWaiter(s: Sem)
    requires Inv(s) && s.queue != [] && s.count > 0
    ensures exists t :: Enabled(s, Retry(t)) && Apply(s, Retry(t)).count == s.count - 1 && At(Apply(s, Retry(t)), t, Idle)
  {
    assert |WokenTasks(s.pc)| > 0;
    var t :| t in WokenTasks(s.pc);
    assert Enabled(s, Retry(t));
  }

  /** The queue never outgrows the number of tasks, so the fixed array suffices. */
  lemma QueueNeverOverflows(s: Sem)
    requires QueueOk(s)
    ensures |s.queue| <= |s.pc|
  {
    QueueFits(s.queue, s.pc.Keys);
  }
}
