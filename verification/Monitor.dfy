/**
  A mutex and a condition variable used with it, as one step system over any
  number of tasks. A section under the mutex's wait-queue lock is one step; the
  condition variable's own lock is explicit because a waiter holds it across
  the release of the mutex.
 */
module MonitorProtocol {
  import opened Basics
  import opened WaitQueueModel

  /** Where a task is. `waiting` says whether it is inside `condvar_wait`. */
  datatype Pc =
    | Idle
    | Owner
    | MutexQueued(waiting: bool)
    | MutexWoken(waiting: bool)
    | CvLocked
    | CvReleased
    | CvQueued
    | CvWoken
    | Relock

  const NO_OWNER: int := -1

  /**
    `mq` and `cq` are the wait queues of mutex and condition variable, `cvLock`
    the holder of the latter's lock. `released` records, oldest first, who has
    released the mutex inside `condvar_wait` and has not been woken since.
   */
  datatype Mon = Mon(locked: bool, owner: int, mq: seq<Task>, cvLock: Option<Task>, cq: seq<Task>,
                     released: seq<Task>, pc: map<Task, Pc>)

  datatype Step =
    | Lock(t: Task) | TryLock(t: Task) | Unlock(t: Task) | MutexRetry(t: Task)
    | CvBegin(t: Task) | CvRelease(t: Task) | CvPark(t: Task) | CvSpurious(t: Task)
    | CvReturn(t: Task) | CvRelock(t: Task)
    | Signal | Broadcast

  predicate At(s: Mon, t: Task, p: Pc) {
    t in s.pc && s.pc[t] == p
  }

  predicate Enabled(s: Mon, step: Step) {
    match step
    case Lock(t) => At(s, t, Idle)
    case TryLock(t) => At(s, t, Idle)
    case Unlock(t) => At(s, t, Owner)
    case MutexRetry(t) => t in s.pc && s.pc[t].MutexWoken?
    case CvBegin(t) => At(s, t, Owner) && s.cvLock == None
    case CvRelease(t) => At(s, t, CvLocked)
    case CvPark(t) => At(s, t, CvReleased)
    case CvSpurious(t) => At(s, t, CvReleased)
    case CvReturn(t) => At(s, t, CvWoken) && s.cvLock == None
    case CvRelock(t) => At(s, t, Relock)
    case Signal => s.cvLock == None
    case Broadcast => s.cvLock == None
  }

  /** The loop of `mutex_lock` under the lock: take the mutex, or enqueue and park. */
  function Acquire(s: Mon, t: Task, waiting: bool): Mon {
    if !s.locked then s.(locked := true, owner := t, pc := s.pc[t := Owner])
    else s.(mq := s.mq + [t], pc := s.pc[t := MutexQueued(waiting)])
  }

  /** `mutex_unlock` by `t`, which then is at `after`. */
  function Release(s: Mon, t: Task, after: Pc): Mon {
    var s1 := s.(locked := false, owner := NO_OWNER, pc := s.pc[t := after]);
    if s.mq == [] then s1
    else
      var h := s.mq[0];
      s1.(mq := s.mq[1..], pc := s1.pc[h := MutexWoken(h in s.pc && s.pc[h].MutexQueued? && s.pc[h].waiting)])
  }

  function Apply(s: Mon, step: Step): Mon
    requires Enabled(s, step)
  {
    match step
    case Lock(t) => Acquire(s, t, false)
    case TryLock(t) => if !s.locked then Acquire(s, t, false) else s
    case Unlock(t) => Release(s, t, Idle)
    case MutexRetry(t) => Acquire(s, t, s.pc[t].waiting)
    case CvBegin(t) => s.(cvLock := Some(t), pc := s.pc[t := CvLocked])
    case CvRelease(t) => Release(s, t, CvReleased).(released := s.released + [t])
    case CvPark(t) => s.(cq := s.cq + [t], cvLock := None, pc := s.pc[t := CvQueued])
    case CvSpurious(t) => s.(cvLock := None, pc := s.pc[t := Relock], released := Without(s.released, t))
    case CvReturn(t) => s.(pc := s.pc[t := Relock])
    case CvRelock(t) => Acquire(s, t, true)
    case Signal =>
      if s.cq == [] then s
      else s.(cq := s.cq[1..], released := Without(s.released, s.cq[0]), pc := s.pc[s.cq[0] := CvWoken])
    case Broadcast =>
      s.(cq := [], released := [], pc := map t | t in s.pc :: if t in s.cq then CvWoken else s.pc[t])
  }

  predicate Init(s: Mon) {
    && !s.locked && s.owner == NO_OWNER && s.mq == [] && s.cvLock == None && s.cq == [] && s.released == []
    && forall t :: t in s.pc ==> s.pc[t] == Idle
  }

  predicate Owns(p: Pc) {
    p == Owner || p == CvLocked
  }

  /** Exactly the owner owns, and only while locked. */
  ghost predicate OwnerOk(s: Mon) {
    && (forall t :: t in s.pc ==> (Owns(s.pc[t]) <==> s.locked && s.owner == t))
    && (s.locked ==> s.owner >= 0 && s.owner in s.pc)
    && (!s.locked ==> s.owner == NO_OWNER)
  }

  ghost predicate QueuesOk(s: Mon) {
    && NoDuplicates(s.mq) && NoDuplicates(s.cq)
    && (forall t :: t in s.mq <==> t in s.pc && s.pc[t].MutexQueued?)
    && (forall t :: t in s.cq <==> t in s.pc && s.pc[t] == CvQueued)
  }

  /** The condition variable's lock is held exactly from taking it to parking. */
  ghost predicate CvLockOk(s: Mon) {
    && (forall t :: t in s.pc ==> (s.cvLock == Some(t) <==> s.pc[t] == CvLocked || s.pc[t] == CvReleased))
    && (s.cvLock.Some? ==> s.cvLock.value in s.pc)
  }

  /** Whoever released the mutex is in the queue, in that order, except for the holder of the lock. */
  ghost predicate ReleasedOk(s: Mon) {
    s.released == s.cq + if s.cvLock.Some? && At(s, s.cvLock.value, CvReleased) then [s.cvLock.value] else []
  }

  /** Waiters for the mutex always have somebody who will wake them. */
  ghost predicate MutexProgress(s: Mon) {
    s.mq != [] ==> s.locked || exists t :: t in s.pc && s.pc[t].MutexWoken?
  }

  ghost predicate Inv(s: Mon) {
    OwnerOk(s) && QueuesOk(s) && CvLockOk(s) && ReleasedOk(s) && MutexProgress(s)
  }

  lemma HeadGone(q: seq<Task>)
    requires NoDuplicates(q) && q != []
    ensures forall t :: t in q[1..] <==> t in q && t != q[0]
    ensures NoDuplicates(q[1..]) && q[0] in q
  {
    assert forall t :: t in q <==> t == q[0] || t in q[1..];
  }

  lemma AcquireQueues(s: Mon, t: Task, waiting: bool)
    requires QueuesOk(s) && t in s.pc && !s.pc[t].MutexQueued? && s.pc[t] != CvQueued
    ensures QueuesOk(Acquire(s, t, waiting))
  {
  }

  lemma ReleaseQueues(s: Mon, t: Task, after: Pc, released: seq<Task>)
    requires QueuesOk(s) && t in s.pc && Owns(s.pc[t]) && !after.MutexQueued? && after != CvQueued
    ensures QueuesOk(Release(s, t, after).(released := released))
  {
    if s.mq != [] { HeadGone(s.mq); }
  }

  lemma CvQueues(s: Mon, step: Step)
    requires QueuesOk(s) && Enabled(s, step)
    requires step.CvBegin? || step.CvPark? || step.CvSpurious? || step.CvReturn? || step.Signal? || step.Broadcast?
    ensures QueuesOk(Apply(s, step))
  {
    match step {
      case CvPark(t) => ParkQueues(s, t);
      case Signal => if s.cq != [] { HeadGone(s.cq); }
      case _ =>
    }
  }

  lemma ParkQueues(s: Mon, t: Task)
    requires QueuesOk(s) && At(s, t, CvReleased)
    ensures QueuesOk(Apply(s, CvPark(t)))
  {
  }

  lemma StepKeepsQueues(s: Mon, step: Step)
    requires OwnerOk(s) && QueuesOk(s) && Enabled(s, step)
    ensures QueuesOk(Apply(s, step))
  {
    hide QueuesOk, Acquire, Release, OwnerOk;
    match step {
      case Lock(t) => AcquireQueues(s, t, false);
      case TryLock(t) => AcquireQueues(s, t, false);
      case MutexRetry(t) => AcquireQueues(s, t, s.pc[t].waiting);
      case CvRelock(t) => AcquireQueues(s, t, true);
      case Unlock(t) =>
        ReleaseQueues(s, t, Idle, s.released);
        ReleaseKeepsRecord(s, t, Idle);
      case CvRelease(t) => ReleaseQueues(s, t, CvReleased, s.released + [t]);
      case _ => CvQueues(s, step);
    }
  }

  lemma ReleaseKeepsRecord(s: Mon, t: Task, after: Pc)
    ensures Release(s, t, after).released == s.released
    ensures Release(s, t, after).(released := s.released) == Release(s, t, after)
  {
  }

  lemma AcquireOwner(s: Mon, t: Task, waiting: bool)
    requires OwnerOk(s) && t in s.pc && !Owns(s.pc[t])
    ensures OwnerOk(Acquire(s, t, waiting))
  {
  }

  lemma ReleaseOwner(s: Mon, t: Task, after: Pc, released: seq<Task>)
    requires OwnerOk(s) && QueuesOk(s) && t in s.pc && Owns(s.pc[t]) && !Owns(after)
    ensures OwnerOk(Release(s, t, after).(released := released))
  {
    if s.mq != [] { HeadGone(s.mq); }
  }

  lemma CvOwner(s: Mon, step: Step)
    requires OwnerOk(s) && QueuesOk(s) && Enabled(s, step)
    requires step.CvBegin? || step.CvPark? || step.CvSpurious? || step.CvReturn? || step.Signal? || step.Broadcast?
    ensures OwnerOk(Apply(s, step))
  {
    if step.Signal? && s.cq != [] { HeadGone(s.cq); }
  }

  lemma StepKeepsOwner(s: Mon, step: Step)
    requires OwnerOk(s) && QueuesOk(s) && Enabled(s, step)
    ensures OwnerOk(Apply(s, step))
  {
    hide QueuesOk, Acquire, Release, OwnerOk;
    match step {
      case Lock(t) => AcquireOwner(s, t, false);
      case TryLock(t) => AcquireOwner(s, t, false);
      case MutexRetry(t) => AcquireOwner(s, t, s.pc[t].waiting);
      case CvRelock(t) => AcquireOwner(s, t, true);
      case Unlock(t) =>
        ReleaseOwner(s, t, Idle, s.released);
        ReleaseKeepsRecord(s, t, Idle);
      case CvRelease(t) => ReleaseOwner(s, t, CvReleased, s.released + [t]);
      case _ => CvOwner(s, step);
    }
  }

  lemma ReleaseCvLock(s: Mon, t: Task, after: Pc, released: seq<Task>)
    requires QueuesOk(s) && CvLockOk(s) && t in s.pc
    requires (s.pc[t] == Owner && after == Idle) || (s.pc[t] == CvLocked && after == CvReleased)
    ensures CvLockOk(Release(s, t, after).(released := released))
  {
    if s.mq != [] { HeadGone(s.mq); }
  }

  lemma OtherCvLock(s: Mon, step: Step)
    requires QueuesOk(s) && CvLockOk(s) && Enabled(s, step) && !step.Unlock? && !step.CvRelease?
    ensures CvLockOk(Apply(s, step))
  {
    if step.Signal? && s.cq != [] { HeadGone(s.cq); }
  }

  lemma StepKeepsCvLock(s: Mon, step: Step)
    requires OwnerOk(s) && QueuesOk(s) && CvLockOk(s) && Enabled(s, step)
    ensures CvLockOk(Apply(s, step))
  {
    hide QueuesOk, CvLockOk, Acquire, Release, OwnerOk;
    match step {
      case Unlock(t) =>
        ReleaseCvLock(s, t, Idle, s.released);
        ReleaseKeepsRecord(s, t, Idle);
      case CvRelease(t) => ReleaseCvLock(s, t, CvReleased, s.released + [t]);
      case _ => OtherCvLock(s, step);
    }
  }

  lemma StepKeepsReleased(s: Mon, step: Step)
    requires OwnerOk(s) && QueuesOk(s) && CvLockOk(s) && ReleasedOk(s) && Enabled(s, step)
    ensures ReleasedOk(Apply(s, step))
  {
    hide OwnerOk;
    match step {
      case Unlock(t) => ReleaseReleased(s, t, Idle, s.released);
      case CvRelease(t) => ReleaseReleased(s, t, CvReleased, s.released + [t]);
      case CvSpurious(t) =>
        assert s.released == s.cq + [t] && t !in s.cq;
        WithoutAt(s.released, t, |s.cq|);
      case Signal =>
        if s.cq != [] { WithoutAt(s.released, s.cq[0], 0); }
      case _ =>
    }
  }

  lemma ReleaseReleased(s: Mon, t: Task, after: Pc, released: seq<Task>)
    requires QueuesOk(s) && CvLockOk(s) && ReleasedOk(s) && t in s.pc
    requires (s.pc[t] == Owner && after == Idle && released == s.released)
          || (s.pc[t] == CvLocked && after == CvReleased && released == s.released + [t])
    ensures ReleasedOk(Release(s, t, after).(released := released))
  {
    if s.mq != [] { HeadGone(s.mq); }
  }

  lemma StepKeepsProgress(s: Mon, step: Step)
    requires OwnerOk(s) && QueuesOk(s) && MutexProgress(s) && Enabled(s, step)
    ensures MutexProgress(Apply(s, step))
  {
    var s' := Apply(s, step);
    if (step.Unlock? || step.CvRelease?) && s.mq != [] {
      assert s'.pc[s.mq[0]].MutexWoken?;
    } else if s.mq != [] && !s.locked {
      var t :| t in s.pc && s.pc[t].MutexWoken?;
      if step.Signal? && s.cq != [] { HeadGone(s.cq); }
      assert s'.locked || (t in s'.pc && s'.pc[t].MutexWoken?);
    }
  }

  lemma StepKeepsInv(s: Mon, step: Step)
    requires Inv(s) && Enabled(s, step)
    ensures Inv(Apply(s, step))
  {
    hide OwnerOk, QueuesOk, CvLockOk, ReleasedOk, MutexProgress;
    StepKeepsOwner(s, step);
    StepKeepsQueues(s, step);
    StepKeepsCvLock(s, step);
    StepKeepsReleased(s, step);
    StepKeepsProgress(s, step);
  }

  ghost predicate Run(ss: seq<Mon>, steps: seq<Step>) {
    && |ss| == |steps| + 1 && Init(ss[0])
    && forall i {:trigger steps[i]} :: 0 <= i < |steps| ==> Enabled(ss[i], steps[i]) && ss[i + 1] == Apply(ss[i], steps[i])
  }

  /** Every interleaving, with barging lockers, try-locks and spurious returns, keeps the invariant. */
  lemma {:induction false} RunKeepsInv(ss: seq<Mon>, steps: seq<Step>, i: nat)
    requires Run(ss, steps) && i < |ss|
    ensures Inv(ss[i])
    decreases i
  {
    if i > 0 {
      RunKeepsInv(ss, steps, i - 1);
      var step := steps[i - 1];
      StepKeepsInv(ss[i - 1], step);
    }
  }

  /** At most one task owns the mutex, and `owner` names it. */
  lemma MutualExclusion(ss: seq<Mon>, steps: seq<Step>, i: nat, t: Task, u: Task)
    requires Run(ss, steps) && i < |ss|
    requires t in ss[i].pc && u in ss[i].pc && Owns(ss[i].pc[t]) && Owns(ss[i].pc[u])
    ensures t == u && ss[i].locked && ss[i].owner == t
  {
    RunKeepsInv(ss, steps, i);
  }

  /** A free mutex with waiters has a woken task whose retry will get it. */
  lemma NoStrandedLocker(ss: seq<Mon>, steps: seq<Step>, i: nat)
    requires Run(ss, steps) && i < |ss| && ss[i].mq != [] && !ss[i].locked
    ensures exists t :: Enabled(ss[i], MutexRetry(t)) && Apply(ss[i], MutexRetry(t)).owner == t
  {
    RunKeepsInv(ss, steps, i);
    var t :| t in ss[i].pc && ss[i].pc[t].MutexWoken?;
    assert Enabled(ss[i], MutexRetry(t));
  }

  /**
    No lost signal: when a signal or broadcast runs, nobody is between releasing
    the mutex and being enqueued. A signal wakes exactly the waiter that released
    the mutex first, a broadcast wakes all that have released it.
   */
  lemma SignalIsNotLost(ss: seq<Mon>, steps: seq<Step>, i: nat)
    requires Run(ss, steps) && i < |steps| && (steps[i] == Signal || steps[i] == Broadcast)
    ensures forall t :: t in ss[i].pc ==> ss[i].pc[t] != CvReleased
    ensures ss[i].released == ss[i].cq
    ensures steps[i] == Signal && ss[i].released != [] ==>
              At(ss[i + 1], ss[i].released[0], CvWoken) && ss[i + 1].released == ss[i].released[1..]
    ensures steps[i] == Broadcast ==>
              ss[i + 1].released == [] && forall t :: t in ss[i].released ==> At(ss[i + 1], t, CvWoken)
  {
    RunKeepsInv(ss, steps, i);
    RunKeepsInv(ss, steps, i + 1);
    var step := steps[i];
  }

  // --- What the steps of a run do ---

  /** Every task outside `moved` is where it was. */
  ghost predicate OthersStay(s: Mon, s': Mon, moved: set<Task>) {
    s'.pc.Keys == s.pc.Keys && forall u :: u in s.pc && u !in moved ==> s'.pc[u] == s.pc[u]
  }

  /** The condition variable is as it was. */
  predicate CvSame(s: Mon, s': Mon) {
    s'.cvLock == s.cvLock && s'.cq == s.cq && s'.released == s.released
  }

  /** The mutex is as it was. */
  predicate MutexSame(s: Mon, s': Mon) {
    s'.locked == s.locked && s'.owner == s.owner && s'.mq == s.mq
  }

  /** Whoever is first in the mutex's queue is woken, and keeps its place in or outside `condvar_wait`. */
  ghost predicate FirstWoken(s: Mon, s': Mon) {
    && (s.mq == [] ==> s'.mq == [])
    && forall h, rest :: s.mq == [h] + rest ==>
         s'.mq == rest && h in s.pc && s.pc[h].MutexQueued? && At(s', h, MutexWoken(s.pc[h].waiting))
  }

  /**
    Releasing the mutex, by unlocking or at the start of `condvar_wait`, leaves it
    free and without an owner and wakes exactly the task that has queued longest.
   */
  lemma ReleaseFrees(ss: seq<Mon>, steps: seq<Step>, i: nat, t: Task)
    requires Run(ss, steps) && i < |steps| && (steps[i] == Unlock(t) || steps[i] == CvRelease(t))
    ensures ss[i].locked && ss[i].owner == t
    ensures !ss[i + 1].locked && ss[i + 1].owner == -1 && FirstWoken(ss[i], ss[i + 1])
    ensures OthersStay(ss[i], ss[i + 1], {t} + (if ss[i].mq == [] then {} else {ss[i].mq[0]}))
    ensures steps[i] == Unlock(t) ==> At(ss[i + 1], t, Idle) && CvSame(ss[i], ss[i + 1])
    ensures steps[i] == CvRelease(t) ==>
              At(ss[i + 1], t, CvReleased) && ss[i + 1].released == ss[i].released + [t]
              && ss[i + 1].cvLock == ss[i].cvLock == Some(t) && ss[i + 1].cq == ss[i].cq
  {
    RunKeepsInv(ss, steps, i);
    hide CvLockOk, ReleasedOk, MutexProgress, Init;
    var s, s' := ss[i], ss[i + 1];
    assert s' == Apply(s, steps[i]) && Enabled(s, steps[i]);
    ReleaseWakes(s, t, if steps[i].Unlock? then Idle else CvReleased);
    if steps[i].CvRelease? { HolderIs(ss, steps, i, t); }
  }

  lemma HolderIs(ss: seq<Mon>, steps: seq<Step>, i: nat, t: Task)
    requires Run(ss, steps) && i < |ss| && (At(ss[i], t, CvLocked) || At(ss[i], t, CvReleased))
    ensures ss[i].cvLock == Some(t)
  {
    RunKeepsInv(ss, steps, i);
  }

  lemma ReleaseWakes(s: Mon, t: Task, after: Pc)
    requires QueuesOk(s) && t in s.pc && Owns(s.pc[t])
    ensures var s' := Release(s, t, after);
            FirstWoken(s, s') && At(s', t, after)
            && OthersStay(s, s', {t} + (if s.mq == [] then {} else {s.mq[0]}))
  {
    if s.mq != [] { HeadGone(s.mq); }
  }

  /** The steps that ask for the mutex; `waiting` says whether from inside `condvar_wait`. */
  predicate Asks(s: Mon, step: Step, t: Task, waiting: bool) {
    || (step == Lock(t) && !waiting) || (step == TryLock(t) && !waiting)
    || (step == MutexRetry(t) && At(s, t, MutexWoken(waiting))) || (step == CvRelock(t) && waiting)
  }

  /**
    Whoever asks for the mutex owns it afterwards if and only if it was free;
    otherwise a try-lock changes nothing and everybody else is queued last.
   */
  lemma OwnsIffFree(ss: seq<Mon>, steps: seq<Step>, i: nat, t: Task, waiting: bool)
    requires Run(ss, steps) && i < |steps| && Asks(ss[i], steps[i], t, waiting)
    ensures !ss[i].locked ==> ss[i + 1].locked && ss[i + 1].owner == t && At(ss[i + 1], t, Owner) && ss[i + 1].mq == ss[i].mq
    ensures ss[i].locked && steps[i] == TryLock(t) ==> ss[i + 1] == ss[i]
    ensures ss[i].locked && steps[i] != TryLock(t) ==>
              ss[i + 1].locked && ss[i + 1].owner == ss[i].owner != t
              && At(ss[i + 1], t, MutexQueued(waiting)) && ss[i + 1].mq == ss[i].mq + [t]
    ensures OthersStay(ss[i], ss[i + 1], {t}) && CvSame(ss[i], ss[i + 1])
  {
    RunKeepsInv(ss, steps, i);
    hide CvLockOk, ReleasedOk, MutexProgress, Init, QueuesOk;
    assert Asks(ss[i], steps[i], t, waiting);
  }

  /** The rest of `condvar_wait` moves its own task, in order, and never the mutex. */
  lemma WaitSteps(ss: seq<Mon>, steps: seq<Step>, i: nat, t: Task)
    requires Run(ss, steps) && i < |steps|
    requires steps[i] in {CvBegin(t), CvPark(t), CvSpurious(t), CvReturn(t)}
    ensures MutexSame(ss[i], ss[i + 1]) && OthersStay(ss[i], ss[i + 1], {t})
    ensures steps[i] == CvBegin(t) ==>
              ss[i].cvLock == None && ss[i + 1].cvLock == Some(t) && At(ss[i + 1], t, CvLocked)
              && ss[i + 1].cq == ss[i].cq && ss[i + 1].released == ss[i].released
    ensures steps[i] == CvPark(t) ==>
              ss[i].cvLock == Some(t) && ss[i + 1].cvLock == None && At(ss[i + 1], t, CvQueued)
              && ss[i + 1].cq == ss[i].cq + [t] && ss[i + 1].released == ss[i].released
    ensures steps[i] == CvSpurious(t) ==>
              ss[i].cvLock == Some(t) && ss[i + 1].cvLock == None && At(ss[i + 1], t, Relock)
              && ss[i + 1].cq == ss[i].cq && ss[i].released == ss[i + 1].released + [t]
    ensures steps[i] == CvReturn(t) ==> At(ss[i + 1], t, Relock) && CvSame(ss[i], ss[i + 1])
  {
    RunKeepsInv(ss, steps, i);
    hide OwnerOk, MutexProgress, Init;
    assert Enabled(ss[i], steps[i]);
    if steps[i] == CvPark(t) || steps[i] == CvSpurious(t) {
      HolderIs(ss, steps, i, t);
      assert ss[i].released == ss[i].cq + [t] && t !in ss[i].cq;
      WithoutAt(ss[i].released, t, |ss[i].cq|);
    }
  }

  /** A signal moves the first waiter and nobody else, a broadcast the waiters and nobody else; neither touches the mutex. */
  lemma SignalMovesWaiters(ss: seq<Mon>, steps: seq<Step>, i: nat)
    requires Run(ss, steps) && i < |steps| && (steps[i] == Signal || steps[i] == Broadcast)
    ensures MutexSame(ss[i], ss[i + 1]) && ss[i + 1].cvLock == None
    ensures steps[i] == Signal && ss[i].cq == [] ==> ss[i + 1] == ss[i]
    ensures steps[i] == Signal ==> forall h, rest :: ss[i].cq == [h] + rest ==>
              ss[i + 1].cq == rest && At(ss[i + 1], h, CvWoken) && OthersStay(ss[i], ss[i + 1], {h})
    ensures steps[i] == Broadcast ==> ss[i + 1].cq == [] && OthersStay(ss[i], ss[i + 1], set t | t in ss[i].cq)
  {
    RunKeepsInv(ss, steps, i);
    hide OwnerOk, MutexProgress, CvLockOk, ReleasedOk, Init;
    assert Enabled(ss[i], steps[i]);
    if steps[i] == Signal && ss[i].cq != [] { HeadGone(ss[i].cq); }
  }

  /** The step finds the mutex taken and has to queue for it. */
  predicate LinesUp(s: Mon, step: Step) {
    s.locked && (step.Lock? || step.MutexRetry? || step.CvRelock?)
  }

  /** The step releases the mutex with somebody queued for it. */
  predicate Wakes(s: Mon, step: Step) {
    s.mq != [] && (step.Unlock? || step.CvRelease?)
  }

  /** The tasks that the first `i` steps put into the mutex's queue, in that order. */
  ghost function Lined(ss: seq<Mon>, steps: seq<Step>, i: nat): seq<Task>
    requires i <= |ss| && i <= |steps|
  {
    if i == 0 then [] else Lined(ss, steps, i - 1) + if LinesUp(ss[i - 1], steps[i - 1]) then [steps[i - 1].t] else []
  }

  /** How many of the first `i` steps released the mutex with somebody queued for it. */
  ghost function Wakeups(ss: seq<Mon>, steps: seq<Step>, i: nat): nat
    requires i <= |ss| && i <= |steps|
  {
    if i == 0 then 0 else Wakeups(ss, steps, i - 1) + if Wakes(ss[i - 1], steps[i - 1]) then 1 else 0
  }

  /** First queued, first woken: the mutex's queue is everybody who was ever queued without the first wakeups. */
  lemma {:induction false} LockersInOrder(ss: seq<Mon>, steps: seq<Step>, i: nat)
    requires Run(ss, steps) && i < |ss|
    ensures Wakeups(ss, steps, i) <= |Lined(ss, steps, i)|
    ensures ss[i].mq == Lined(ss, steps, i)[Wakeups(ss, steps, i)..]
    decreases i
  {
    hide Enabled, Apply, LinesUp, Wakes;
    if i > 0 {
      LockersInOrder(ss, steps, i - 1);
      MutexQueueMoves(ss, steps, i - 1);
    }
  }

  lemma MutexQueueMoves(ss: seq<Mon>, steps: seq<Step>, k: nat)
    requires Run(ss, steps) && k < |steps|
    ensures LinesUp(ss[k], steps[k]) ==> ss[k + 1].mq == ss[k].mq + [steps[k].t]
    ensures Wakes(ss[k], steps[k]) ==> ss[k].mq != [] && !LinesUp(ss[k], steps[k]) && ss[k + 1].mq == ss[k].mq[1..]
    ensures !LinesUp(ss[k], steps[k]) && !Wakes(ss[k], steps[k]) ==> ss[k + 1].mq == ss[k].mq
  {
    var s := ss[k];
    assert Enabled(s, steps[k]);
    match steps[k] {
      case Lock(t) => OwnsIffFree(ss, steps, k, t, false);
      case TryLock(t) => OwnsIffFree(ss, steps, k, t, false);
      case MutexRetry(t) => OwnsIffFree(ss, steps, k, t, s.pc[t].waiting);
      case CvRelock(t) => OwnsIffFree(ss, steps, k, t, true);
      case Unlock(t) => ReleaseFrees(ss, steps, k, t); assert s.mq != [] ==> s.mq == [s.mq[0]] + s.mq[1..];
      case CvRelease(t) => ReleaseFrees(ss, steps, k, t); assert s.mq != [] ==> s.mq == [s.mq[0]] + s.mq[1..];
      case CvBegin(t) => WaitSteps(ss, steps, k, t);
      case CvPark(t) => WaitSteps(ss, steps, k, t);
      case CvSpurious(t) => WaitSteps(ss, steps, k, t);
      case CvReturn(t) => WaitSteps(ss, steps, k, t);
      case Signal => SignalMovesWaiters(ss, steps, k);
      case Broadcast => SignalMovesWaiters(ss, steps, k);
    }
  }

  /** The steps a task takes by itself. */
  predicate StepOf(step: Step, t: Task) {
    !step.Signal? && !step.Broadcast? && step.t == t
  }

  /** The step the holder of the condition variable's lock takes next. */
  function HolderStep(s: Mon, t: Task): Step {
    if At(s, t, CvLocked) then CvRelease(t) else CvPark(t)
  }

  /**
    No deadlock among the locks themselves: a task that is not parked has a step to
    take, or waits for the condition variable's lock, whose holder has one.
   */
  lemma UnlessParkedGoesOn(ss: seq<Mon>, steps: seq<Step>, i: nat, t: Task)
    requires Run(ss, steps) && i < |ss| && t in ss[i].pc && t !in ss[i].mq && t !in ss[i].cq
    ensures (exists step :: StepOf(step, t) && Enabled(ss[i], step))
            || exists h, step :: ss[i].cvLock == Some(h) && StepOf(step, h) && Enabled(ss[i], step)
    ensures At(ss[i], t, Idle) ==> Enabled(ss[i], Lock(t)) && Enabled(ss[i], TryLock(t))
    ensures At(ss[i], t, Owner) ==> Enabled(ss[i], Unlock(t)) && (ss[i].cvLock == None ==> Enabled(ss[i], CvBegin(t)))
  {
    RunKeepsInv(ss, steps, i);
    var s := ss[i];
    match s.pc[t] {
      case Idle => assert StepOf(Lock(t), t);
      case Owner => assert StepOf(Unlock(t), t);
      case MutexWoken(_) => assert StepOf(MutexRetry(t), t);
      case CvLocked => assert StepOf(CvRelease(t), t);
      case CvReleased => assert StepOf(CvPark(t), t);
      case CvWoken =>
        if s.cvLock == None {
          assert StepOf(CvReturn(t), t);
        } else {
          var h := s.cvLock.value;
          assert StepOf(HolderStep(s, h), h) && Enabled(s, HolderStep(s, h));
        }
      case Relock => assert StepOf(CvRelock(t), t);
      case _ =>
    }
  }

  predicate InWait(p: Pc) {
    match p
    case MutexQueued(waiting) => waiting
    case MutexWoken(waiting) => waiting
    case Idle => false
    case Owner => false
    case _ => true
  }

  lemma ReleaseStaysInWait(s: Mon, u: Task, after: Pc, released: seq<Task>, t: Task)
    requires QueuesOk(s) && u in s.pc && t in s.pc && InWait(s.pc[t])
    requires (s.pc[u] == Owner && after == Idle) || (s.pc[u] == CvLocked && after == CvReleased)
    ensures var s' := Release(s, u, after).(released := released);
            t in s'.pc && InWait(s'.pc[t])
  {
    if s.mq != [] { HeadGone(s.mq); }
  }

  lemma StepReturnsOwning(s: Mon, step: Step, t: Task)
    requires OwnerOk(s) && QueuesOk(s) && Enabled(s, step) && t in s.pc && InWait(s.pc[t])
    ensures var s' := Apply(s, step);
            t in s'.pc && (InWait(s'.pc[t]) || (s'.pc[t] == Owner && s'.locked && s'.owner == t))
  {
    hide OwnerOk;
    if step.Unlock? {
      ReleaseStaysInWait(s, step.t, Idle, s.released, t);
    } else if step.CvRelease? {
      ReleaseStaysInWait(s, step.t, CvReleased, s.released + [step.t], t);
    } else if step.Signal? && s.cq != [] {
      HeadGone(s.cq);
    }
  }

  /** `condvar_wait` returns only to the owner of the mutex. */
  lemma WaitReturnsOwning(ss: seq<Mon>, steps: seq<Step>, i: nat, t: Task)
    requires Run(ss, steps) && i < |steps| && t in ss[i].pc && InWait(ss[i].pc[t])
    ensures t in ss[i + 1].pc
    ensures !InWait(ss[i + 1].pc[t]) ==> ss[i + 1].pc[t] == Owner && ss[i + 1].locked && ss[i + 1].owner == t
  {
    RunKeepsInv(ss, steps, i);
    hide OwnerOk, QueuesOk, CvLockOk, ReleasedOk, MutexProgress, Init;
    StepReturnsOwning(ss[i], steps[i], t);
  }

  /** Neither queue outgrows the number of tasks, so the fixed arrays suffice. */
  lemma QueuesNeverOverflow(s: Mon)
    requires QueuesOk(s)
    ensures |s.mq| <= |s.pc| && |s.cq| <= |s.pc|
  {
    QueueFits(s.mq, s.pc.Keys);
    QueueFits(s.cq, s.pc.Keys);
  }
}
