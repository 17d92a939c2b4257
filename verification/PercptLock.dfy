/**
  The private/exclusive partition lock of lnet/lnet/lock.c, as a transition system with one
  step per spinlock operation and per access to the shared flag `pcl_locked`. Any number of
  threads run cfs_percpt_lock and cfs_percpt_unlock; a thread calls lock only when idle.
*/
module PercptLock {
  import opened Collections

  /** CFS_PERCPT_LOCK_EX, the index that asks for exclusive ownership. */
  const EX := -1

  /** No thread holds this spinlock. */
  const FREE := -1

  /** Where a thread is inside lock or unlock. */
  datatype Pc =
    | Idle
    | Spinning(index: int)    // about to test pcl_locked
    | Wanting(cpt: nat)       // past the test, about to take private lock cpt
    | Private(cpt: nat)       // owns private lock cpt
    | Gathering(next: nat)    // exclusive request: holds locks below next, about to take next
    | Flagging                // exclusive request: holds lock 0, about to set pcl_locked
    | Exclusive               // owns every lock
    | Releasing(next: nat)    // exclusive release: holds locks up to next, next goes first
    | Unflagged               // exclusive release: flag cleared, about to release lock 0

  datatype State = State(ncpt: nat, pcs: seq<Pc>, locked: bool, owner: seq<int>)

  datatype Step =
    | Call(t: nat, index: int)
    | Pass(t: nat)
    | TakePrivate(t: nat)
    | DropPrivate(t: nat)
    | Take(t: nat)
    | SetFlag(t: nat)
    | Unlock(t: nat)
    | Release(t: nat)
    | ClearFlag(t: nat)
    | ReleaseFirst(t: nat)

  predicate Init(s: State) {
    && s.ncpt >= 1
    && !s.locked
    && |s.owner| == s.ncpt
    && (forall i | 0 <= i < s.ncpt :: s.owner[i] == FREE)
    && (forall t | 0 <= t < |s.pcs| :: s.pcs[t] == Idle)
  }

  /** The spinlocks a thread at pc holds. */
  predicate Holds(pc: Pc, i: nat) {
    match pc
    case Private(cpt) => i == cpt
    case Gathering(next) => i < next
    case Flagging => i == 0
    case Exclusive => true
    case Releasing(next) => i <= next
    case Unflagged => i == 0
    case _ => false
  }

  /** The thread set pcl_locked and has not cleared it yet. */
  predicate SetsFlag(pc: Pc) {
    (pc.Gathering? && pc.next >= 1) || pc.Exclusive? || pc.Releasing?
  }

  predicate Shaped(pc: Pc, ncpt: nat) {
    match pc
    case Spinning(index) => EX <= index < ncpt && ncpt > 1
    case Wanting(cpt) => cpt < ncpt
    case Private(cpt) => cpt < ncpt
    case Gathering(next) => next < ncpt && ncpt > 1
    case Releasing(next) => next < ncpt && ncpt > 1
    case Idle => true
    case _ => ncpt > 1
  }

  /** Sizes and program counters fit the number of partitions. */
  predicate WellFormed(s: State) {
    && s.ncpt >= 1
    && |s.owner| == s.ncpt
    && (forall t | 0 <= t < |s.pcs| :: Shaped(s.pcs[t], s.ncpt))
  }

  predicate Enabled(s: State, step: Step)
    requires WellFormed(s)
  {
    && step.t < |s.pcs|
    && var pc := s.pcs[step.t];
       match step
       case Call(t, index) => pc.Idle? && EX <= index < s.ncpt
       case Pass(t) => pc.Spinning? && !s.locked
       case TakePrivate(t) => pc.Wanting? && s.owner[pc.cpt] == FREE
       case DropPrivate(t) => pc.Private?
       case Take(t) => pc.Gathering? && s.owner[pc.next] == FREE
       case SetFlag(t) => pc.Flagging?
       case Unlock(t) => pc.Exclusive?
       case Release(t) => pc.Releasing? && pc.next > 0
       case ClearFlag(t) => pc.Releasing? && pc.next == 0
       case ReleaseFirst(t) => pc.Unflagged?
  }

  function Goto(s: State, t: nat, pc: Pc): State
    requires t < |s.pcs|
  {
    s.(pcs := s.pcs[t := pc])
  }

  function Apply(s: State, step: Step): State
    requires WellFormed(s) && Enabled(s, step)
  {
    var t := step.t;
    var pc := s.pcs[t];
    match step
    case Call(_, index) =>
      // With one partition the index becomes 0 and the flag is never tested.
      if s.ncpt == 1 then Goto(s, t, Wanting(0)) else Goto(s, t, Spinning(index))
    case Pass(_) =>
      if pc.index == EX then Goto(s, t, Gathering(0)) else Goto(s, t, Wanting(pc.index))
    case TakePrivate(_) => Goto(s, t, Private(pc.cpt)).(owner := s.owner[pc.cpt := t])
    case DropPrivate(_) => Goto(s, t, Idle).(owner := s.owner[pc.cpt := FREE])
    case Take(_) =>
      var to := if pc.next == 0 then Flagging
                else if pc.next + 1 == s.ncpt then Exclusive
                else Gathering(pc.next + 1);
      Goto(s, t, to).(owner := s.owner[pc.next := t])
    case SetFlag(_) => Goto(s, t, Gathering(1)).(locked := true)
    case Unlock(_) => Goto(s, t, Releasing(s.ncpt - 1))
    case Release(_) => Goto(s, t, Releasing(pc.next - 1)).(owner := s.owner[pc.next := FREE])
    case ClearFlag(_) => Goto(s, t, Unflagged).(locked := false)
    case ReleaseFirst(_) => Goto(s, t, Idle).(owner := s.owner[0 := FREE])
  }

  /** The steps can be taken one after the other from s. */
  predicate Feasible(s: State, steps: seq<Step>)
    requires WellFormed(s)
    decreases |steps|
  {
    steps != [] ==>
      && Enabled(s, steps[0])
      && WellFormed(Apply(s, steps[0]))
      && Feasible(Apply(s, steps[0]), steps[1..])
  }

  /** Where an execution from s ends. */
  function Exec(s: State, steps: seq<Step>): (r: State)
    requires WellFormed(s) && Feasible(s, steps)
    ensures WellFormed(r)
    decreases |steps|
  {
    if steps == [] then s else Exec(Apply(s, steps[0]), steps[1..])
  }

  // ----- safety

  /** Every held spinlock is held by the thread it names. */
  ghost predicate OwnersHold(s: State)
    requires WellFormed(s)
  {
    forall i | 0 <= i < s.ncpt && s.owner[i] != FREE ::
      0 <= s.owner[i] < |s.pcs| && Holds(s.pcs[s.owner[i]], i)
  }

  /** Every thread owns the spinlocks its program counter says it holds. */
  ghost predicate HoldersOwn(s: State)
    requires WellFormed(s)
  {
    forall t, i | 0 <= t < |s.pcs| && 0 <= i < s.ncpt && Holds(s.pcs[t], i) :: s.owner[i] == t
  }

  ghost predicate Inv(s: State) {
    && WellFormed(s)
    && OwnersHold(s)
    && HoldersOwn(s)
    && (s.locked <==> s.owner[0] != FREE && SetsFlag(s.pcs[s.owner[0]]))
  }

  lemma Owns(s: State, t: nat, i: nat)
    requires Inv(s) && t < |s.pcs| && i < s.ncpt && Holds(s.pcs[t], i)
    ensures s.owner[i] == t
  {}

  /** A lock that keeps its owner is still held by it. */
  lemma OwnerHolds(s: State, step: Step, i: nat)
    requires Inv(s) && Enabled(s, step) && WellFormed(Apply(s, step)) && i < s.ncpt && s.owner[i] != FREE
    requires Apply(s, step).owner[i] == s.owner[i]
    ensures 0 <= s.owner[i] < |s.pcs| && Holds(Apply(s, step).pcs[s.owner[i]], i)
  {
    assert Holds(s.pcs[s.owner[i]], i);
  }

  lemma OwnersHoldPreserved(s: State, step: Step)
    requires Inv(s) && Enabled(s, step) && WellFormed(Apply(s, step))
    ensures OwnersHold(Apply(s, step))
  {
    var s' := Apply(s, step);
    forall i | 0 <= i < s'.ncpt && s'.owner[i] != FREE
      ensures 0 <= s'.owner[i] < |s'.pcs| && Holds(s'.pcs[s'.owner[i]], i)
    {
      if s'.owner[i] == s.owner[i] {
        OwnerHolds(s, step, i);
      }
    }
  }

  lemma HoldersOwnPreserved(s: State, step: Step)
    requires Inv(s) && Enabled(s, step) && WellFormed(Apply(s, step))
    ensures HoldersOwn(Apply(s, step))
  {
    var s' := Apply(s, step);
    var t := step.t;
    forall u, i | 0 <= u < |s'.pcs| && 0 <= i < s'.ncpt && Holds(s'.pcs[u], i)
      ensures s'.owner[i] == u
    {
      if u != t {
        Owns(s, u, i);
        assert s.owner[i] == u;
      } else if Holds(s.pcs[t], i) {
        Owns(s, t, i);
      }
    }
  }

  /** The flag follows the thread that holds lock 0. */
  lemma FlagPreserved(s: State, step: Step)
    requires Inv(s) && Enabled(s, step) && WellFormed(Apply(s, step)) && OwnersHold(Apply(s, step))
    ensures var s' := Apply(s, step); s'.locked <==> s'.owner[0] != FREE && SetsFlag(s'.pcs[s'.owner[0]])
  {
    if Holds(s.pcs[step.t], 0) {
      Owns(s, step.t, 0);
    }
  }

  lemma InvPreserved(s: State, step: Step)
    requires Inv(s) && Enabled(s, step)
    ensures Inv(Apply(s, step))
  {
    OwnersHoldPreserved(s, step);
    HoldersOwnPreserved(s, step);
    FlagPreserved(s, step);
  }

  lemma {:induction false} ExecInv(s: State, steps: seq<Step>)
    requires Inv(s) && Feasible(s, steps)
    ensures Inv(Exec(s, steps))
    decreases |steps|
  {
    if steps != [] {
      InvPreserved(s, steps[0]);
      ExecInv(Apply(s, steps[0]), steps[1..]);
    }
  }

  /** What lock.h promises its users, and the two LASSERTs on pcl_locked. */
  ghost predicate Safe(s: State) {
    // the exclusive owner is alone: nobody else holds any of the locks
    && (forall t, u | 0 <= t < |s.pcs| && 0 <= u < |s.pcs| && t != u && s.pcs[t].Exclusive? ::
          forall i | 0 <= i < s.ncpt :: !Holds(s.pcs[u], i))
    // a private lock has one owner; with one partition this is the exclusive case too
    && (forall t, u | 0 <= t < |s.pcs| && 0 <= u < |s.pcs| && s.pcs[t].Private? && s.pcs[u] == s.pcs[t] :: t == u)
    // the flag is up only while a thread between its set and its clear holds lock 0
    && (s.locked ==> exists t | 0 <= t < |s.pcs| :: SetsFlag(s.pcs[t]) && Holds(s.pcs[t], 0))
    // LASSERT(!pcl_locked) before setting it, LASSERT(pcl_locked) before clearing it
    && (forall t | 0 <= t < |s.pcs| :: s.pcs[t].Flagging? ==> !s.locked)
    && (forall t | 0 <= t < |s.pcs| :: s.pcs[t] == Releasing(0) ==> s.locked)
  }

  /** Every state of every execution is safe. */
  lemma Safety(s0: State, steps: seq<Step>)
    requires Init(s0) && Feasible(s0, steps)
    ensures Safe(Exec(s0, steps))
  {
    ExecInv(s0, steps);
    InvSafe(Exec(s0, steps));
  }

  lemma InvSafe(s: State)
    requires Inv(s)
    ensures Safe(s)
  {
    forall t, u | 0 <= t < |s.pcs| && 0 <= u < |s.pcs| && t != u && s.pcs[t].Exclusive?
      ensures forall i | 0 <= i < s.ncpt :: !Holds(s.pcs[u], i)
    {
      forall i | 0 <= i < s.ncpt
        ensures !Holds(s.pcs[u], i)
      {
        Owns(s, t, i);
      }
    }
    forall t, u | 0 <= t < |s.pcs| && 0 <= u < |s.pcs| && s.pcs[t].Private? && s.pcs[u] == s.pcs[t]
      ensures t == u
    {
      assert Shaped(s.pcs[t], s.ncpt);
      Owns(s, t, s.pcs[t].cpt);
      Owns(s, u, s.pcs[t].cpt);
    }
    forall t | 0 <= t < |s.pcs|
      ensures s.pcs[t].Flagging? ==> !s.locked
      ensures s.pcs[t] == Releasing(0) ==> s.locked
    {
      if Holds(s.pcs[t], 0) {
        Owns(s, t, 0);
      }
    }
  }

  // ----- what a caller gets

  /** The index thread t asked for in its last call of lock, if it has called. */
  function Asked(was: Option<int>, steps: seq<Step>, t: nat): Option<int>
    decreases |steps|
  {
    if steps == [] then was
    else Asked(if steps[0].Call? && steps[0].t == t then Some(steps[0].index) else was, steps[1..], t)
  }

  /** A thread at pc is serving a request for `asked`. */
  predicate Serves(pc: Pc, ncpt: nat, asked: Option<int>) {
    match pc
    case Idle => true
    case Spinning(index) => asked == Some(index)
    case Wanting(cpt) => asked.Some? && if ncpt == 1 then cpt == 0 else asked.value == cpt
    case Private(cpt) => asked.Some? && if ncpt == 1 then cpt == 0 else asked.value == cpt
    case _ => ncpt > 1 && asked == Some(EX)
  }

  lemma {:induction false} ServesAlways(s: State, was: Option<int>, steps: seq<Step>, t: nat)
    requires WellFormed(s) && Feasible(s, steps) && t < |s.pcs| && Serves(s.pcs[t], s.ncpt, was)
    ensures var s' := Exec(s, steps); |s'.pcs| == |s.pcs| && s'.ncpt == s.ncpt && Serves(s'.pcs[t], s.ncpt, Asked(was, steps, t))
    decreases |steps|
  {
    if steps != [] {
      assert Shaped(s.pcs[t], s.ncpt);
      ServesAlways(Apply(s, steps[0]), if steps[0].Call? && steps[0].t == t then Some(steps[0].index) else was, steps[1..], t);
    }
  }

  /**
    A thread that has returned from lock holds what it last asked for: every lock if it asked for
    exclusive ownership, the private lock it named otherwise, and the only lock if there is one.
  */
  lemma GrantedAsAsked(s0: State, steps: seq<Step>, t: nat)
    requires Init(s0) && Feasible(s0, steps) && t < |s0.pcs|
    requires t < |Exec(s0, steps).pcs| && (Exec(s0, steps).pcs[t].Private? || Exec(s0, steps).pcs[t].Exclusive?)
    ensures var s := Exec(s0, steps); var asked := Asked(None, steps, t);
            && s.ncpt == s0.ncpt && asked.Some?
            && (if s.ncpt == 1 then s.pcs[t] == Private(0)
                else if asked.value == EX then s.pcs[t] == Exclusive && forall i | 0 <= i < s.ncpt :: s.owner[i] == t
                else s.pcs[t].Private? && s.pcs[t].cpt == asked.value && s.owner[s.pcs[t].cpt] == t)
  {
    ServesAlways(s0, None, steps, t);
    ExecInv(s0, steps);
    var s := Exec(s0, steps);
    assert Shaped(s.pcs[t], s.ncpt);
    if s.pcs[t].Private? {
      Owns(s, t, s.pcs[t].cpt);
    } else {
      forall i | 0 <= i < s.ncpt
        ensures s.owner[i] == t
      {
        Owns(s, t, i);
      }
    }
  }

  // ----- progress

  /** Thread t can move now, or the owner of the spinlock it waits for can. */
  lemma OwnerMoves(s: State, t: nat) returns (step: Step)
    requires Inv(s) && t < |s.pcs| && !s.pcs[t].Idle? && !s.pcs[t].Spinning?
    ensures Enabled(s, step) && !step.Call?
  {
    match s.pcs[t]
    case Private(_) => step := DropPrivate(t);
    case Flagging => step := SetFlag(t);
    case Exclusive => step := Unlock(t);
    case Releasing(next) => step := if next == 0 then ClearFlag(t) else Release(t);
    case Unflagged => step := ReleaseFirst(t);
    case Wanting(cpt) =>
      if s.owner[cpt] == FREE {
        step := TakePrivate(t);
      } else {
        step := HolderMoves(s, cpt);
      }
    case Gathering(next) =>
      if s.owner[next] == FREE {
        step := Take(t);
      } else {
        step := HolderMoves(s, next);
      }
  }

  /** If spinlock i is held, some thread that is inside lock or unlock can move. */
  lemma HolderMoves(s: State, i: nat) returns (step: Step)
    requires Inv(s) && i < s.ncpt && s.owner[i] != FREE
    ensures Enabled(s, step) && !step.Call?
  {
    var u := s.owner[i];
    match s.pcs[u]
    case Private(_) => step := DropPrivate(u);
    case Flagging => step := SetFlag(u);
    case Exclusive => step := Unlock(u);
    case Releasing(next) => step := if next == 0 then ClearFlag(u) else Release(u);
    case Unflagged => step := ReleaseFirst(u);
    case Gathering(next) =>
      if s.owner[next] == FREE {
        step := Take(u);
      } else {
        // u owns lock 0, so whoever owns `next` is not a second exclusive requester
        var v := s.owner[next];
        assert Holds(s.pcs[u], 0) && Holds(s.pcs[v], next) && !Holds(s.pcs[u], next);
        assert !Holds(s.pcs[v], 0);
        assert s.pcs[v].Private?;
        step := DropPrivate(v);
      }
  }

  /** No reachable state is stuck: if any thread is inside lock or unlock, some such thread can move. */
  lemma DeadlockFree(s0: State, steps: seq<Step>, t: nat) returns (step: Step)
    requires Init(s0) && Feasible(s0, steps)
    requires t < |Exec(s0, steps).pcs| && !Exec(s0, steps).pcs[t].Idle?
    ensures Enabled(Exec(s0, steps), step) && !step.Call?
  {
    ExecInv(s0, steps);
    var s := Exec(s0, steps);
    if !s.pcs[t].Spinning? {
      step := OwnerMoves(s, t);
    } else if s.locked {
      step := HolderMoves(s, 0);
    } else {
      step := Pass(t);
    }
  }

  /** An exclusive requester has raised the flag and is still collecting locks. */
  predicate Pending(s: State)
    requires WellFormed(s)
  {
    s.locked && 0 <= s.owner[0] < |s.pcs| && s.pcs[s.owner[0]].Gathering?
  }

  /** Steps a thread can still take while an exclusive request is pending. */
  function Weight(pc: Pc, ncpt: nat): nat {
    match pc
    case Idle => 1
    case Wanting(_) => 3
    case Private(_) => 2
    case Gathering(next) => if 1 <= next <= ncpt then ncpt - next else 0
    case _ => 0
  }

  function Total(pcs: seq<Pc>, ncpt: nat): nat {
    if pcs == [] then 0 else Weight(pcs[0], ncpt) + Total(pcs[1..], ncpt)
  }

  lemma {:induction false} TotalUpdate(pcs: seq<Pc>, ncpt: nat, t: nat, pc: Pc)
    requires t < |pcs|
    ensures Total(pcs[t := pc], ncpt) == Total(pcs, ncpt) - Weight(pcs[t], ncpt) + Weight(pc, ncpt)
  {
    if t == 0 {
      assert pcs[t := pc][1..] == pcs[1..];
    } else {
      assert pcs[t := pc][1..] == pcs[1..][t - 1 := pc];
      TotalUpdate(pcs[1..], ncpt, t - 1, pc);
    }
  }

  lemma PendingStep(s: State, step: Step)
    requires Inv(s) && Enabled(s, step) && Pending(s)
    requires WellFormed(Apply(s, step)) && Pending(Apply(s, step))
    ensures Total(Apply(s, step).pcs, s.ncpt) == Total(s.pcs, s.ncpt) - 1
  {
    var t := step.t;
    TotalUpdate(s.pcs, s.ncpt, t, Apply(s, step).pcs[t]);
    assert Holds(s.pcs[s.owner[0]], 0);
    assert forall i | 0 <= i < s.ncpt && Holds(s.pcs[t], i) :: s.owner[i] == t;
    if t != s.owner[0] {
      assert !Holds(s.pcs[t], 0);
    }
  }

  /** The exclusive request stays pending from s to the end of the execution. */
  predicate StaysPending(s: State, steps: seq<Step>)
    requires WellFormed(s) && Feasible(s, steps)
    decreases |steps|
  {
    Pending(s) && (steps != [] ==> StaysPending(Apply(s, steps[0]), steps[1..]))
  }

  lemma {:induction false} PendingSteps(s: State, steps: seq<Step>)
    requires Inv(s) && Feasible(s, steps) && StaysPending(s, steps)
    ensures |steps| <= Total(s.pcs, s.ncpt)
    decreases |steps|
  {
    if steps != [] {
      var s' := Apply(s, steps[0]);
      InvPreserved(s, steps[0]);
      PendingStep(s, steps[0]);
      PendingSteps(s', steps[1..]);
    }
  }

  lemma {:induction false} OwnerWeight(pcs: seq<Pc>, ncpt: nat, e: int)
    requires forall t | 0 <= t < |pcs| && t != e :: Weight(pcs[t], ncpt) <= 3
    requires 0 <= e < |pcs| ==> Weight(pcs[e], ncpt) <= ncpt
    ensures Total(pcs, ncpt) <= 3 * |pcs| + if 0 <= e then ncpt else 0
  {
    if pcs != [] {
      forall t | 0 <= t < |pcs[1..]| && t != e - 1
        ensures Weight(pcs[1..][t], ncpt) <= 3
      {
        assert pcs[1..][t] == pcs[t + 1];
      }
      OwnerWeight(pcs[1..], ncpt, e - 1);
    }
  }

  /**
    Once an exclusive requester has raised the flag, no schedule can keep it waiting for more
    than 3 steps per thread plus one per partition; by DeadlockFree some step is always left.
  */
  lemma ExclusiveGrantBound(s0: State, prefix: seq<Step>, steps: seq<Step>)
    requires Init(s0) && Feasible(s0, prefix)
    requires Feasible(Exec(s0, prefix), steps) && StaysPending(Exec(s0, prefix), steps)
    ensures |steps| <= 3 * |Exec(s0, prefix).pcs| + Exec(s0, prefix).ncpt
  {
    ExecInv(s0, prefix);
    var s := Exec(s0, prefix);
    PendingSteps(s, steps);
    assert Holds(s.pcs[s.owner[0]], 0);
    forall t | 0 <= t < |s.pcs| && t != s.owner[0]
      ensures Weight(s.pcs[t], s.ncpt) <= 3
    {
      assert !Holds(s.pcs[t], 0);
    }
    OwnerWeight(s.pcs, s.ncpt, s.owner[0]);
  }

  /** Threads already past the test of pcl_locked. */
  function PastTest(pcs: seq<Pc>): nat {
    if pcs == [] then 0 else (if pcs[0].Wanting? then 1 else 0) + PastTest(pcs[1..])
  }

  lemma {:induction false} PastTestUpdate(pcs: seq<Pc>, t: nat, pc: Pc)
    requires t < |pcs|
    ensures PastTest(pcs[t := pc]) == PastTest(pcs) - (if pcs[t].Wanting? then 1 else 0) + (if pc.Wanting? then 1 else 0)
  {
    if t == 0 {
      assert pcs[t := pc][1..] == pcs[1..];
    } else {
      assert pcs[t := pc][1..] == pcs[1..][t - 1 := pc];
      PastTestUpdate(pcs[1..], t - 1, pc);
    }
  }

  function PrivateGrants(steps: seq<Step>): nat {
    if steps == [] then 0 else (if steps[0].TakePrivate? then 1 else 0) + PrivateGrants(steps[1..])
  }

  /** The flag is up before every one of the steps. */
  predicate StaysLocked(s: State, steps: seq<Step>)
    requires WellFormed(s) && Feasible(s, steps)
    decreases |steps|
  {
    steps != [] ==> s.locked && StaysLocked(Apply(s, steps[0]), steps[1..])
  }

  /** While the flag is up, no step lets a thread past the test. */
  lemma OvertakingStep(s: State, step: Step)
    requires Inv(s) && Enabled(s, step) && s.locked
    ensures PastTest(Apply(s, step).pcs) + (if step.TakePrivate? then 1 else 0) <= PastTest(s.pcs)
  {
    assert s.ncpt > 1 by {
      assert SetsFlag(s.pcs[s.owner[0]]) && Shaped(s.pcs[s.owner[0]], s.ncpt);
    }
    PastTestUpdate(s.pcs, step.t, Apply(s, step).pcs[step.t]);
  }

  /** While the flag is up, private locks are granted only to threads that were already past the test. */
  lemma OvertakingBound(s0: State, prefix: seq<Step>, steps: seq<Step>)
    requires Init(s0) && Feasible(s0, prefix)
    requires Feasible(Exec(s0, prefix), steps) && StaysLocked(Exec(s0, prefix), steps)
    ensures PrivateGrants(steps) <= PastTest(Exec(s0, prefix).pcs)
  {
    ExecInv(s0, prefix);
    OvertakingSteps(Exec(s0, prefix), steps);
  }

  lemma {:induction false} OvertakingSteps(s: State, steps: seq<Step>)
    requires Inv(s) && Feasible(s, steps) && StaysLocked(s, steps)
    ensures PrivateGrants(steps) <= PastTest(s.pcs)
    decreases |steps|
  {
    if steps != [] {
      InvPreserved(s, steps[0]);
      OvertakingStep(s, steps[0]);
      OvertakingSteps(Apply(s, steps[0]), steps[1..]);
    }
  }
}
