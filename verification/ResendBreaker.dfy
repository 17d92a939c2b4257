/**
  The resend queue of one partition and the worker slots that keep resending from recursing
  (lnet_attempt_msg_resend, lnet_check_finalize_recursion_locked in lnet/lnet/lib-msg.c).

  A thread that fails to send a message queues it; if it gets a slot it drains the queue under the
  partition lock. Giving a send credit back may release the lock for a while, and then the same
  thread or any other may come in with further messages.
*/
module ResendBreaker {
  import opened Collections

  datatype Pc = Outside | Draining(slot: nat, locked: bool)

  /** `limit` is lnet_retry_count. */
  datatype State = State(holder: Option<nat>, queue: seq<nat>, slots: seq<Option<nat>>, pcs: seq<Pc>,
                         retry: seq<nat>, limit: nat)

  datatype Step =
    | Attempt(t: nat, m: nat)   // lnet_attempt_msg_resend up to the drain loop
    | Pop(t: nat)               // one turn of the drain loop
    | Drop(t: nat)              // the lock is released while a credit is given back
    | Retake(t: nat)
    | Finish(t: nat)            // the queue is empty: clear the slot and unlock

  /** The first free slot at or after i. */
  function FirstFree(slots: seq<Option<nat>>, i: nat): (k: Option<nat>)
    requires i <= |slots|
    ensures k.Some? ==> i <= k.value < |slots| && slots[k.value].None?
    decreases |slots| - i
  {
    if i == |slots| then None else if slots[i].None? then Some(i) else FirstFree(slots, i + 1)
  }

  /** The slot thread t gets: none if it has one already or all are taken. */
  function Claim(slots: seq<Option<nat>>, t: nat): Option<nat> {
    if Some(t) in slots then None else FirstFree(slots, 0)
  }

  predicate Enabled(s: State, step: Step) {
    match step
    case Attempt(t, m) =>
      && t < |s.pcs| && m < |s.retry| && s.holder.None? && m !in s.queue
      && (s.pcs[t].Outside? || !s.pcs[t].locked)
    case Pop(t) => t < |s.pcs| && s.pcs[t].Draining? && s.pcs[t].locked && s.queue != [] && s.queue[0] < |s.retry|
    case Drop(t) => t < |s.pcs| && s.pcs[t].Draining? && s.pcs[t].locked
    case Retake(t) => t < |s.pcs| && s.pcs[t].Draining? && !s.pcs[t].locked && s.holder.None?
    case Finish(t) =>
      t < |s.pcs| && s.pcs[t].Draining? && s.pcs[t].locked && s.queue == [] && s.pcs[t].slot < |s.slots|
  }

  function Apply(s: State, step: Step): State
    requires Enabled(s, step)
  {
    match step
    case Attempt(t, m) =>
      if s.retry[m] >= s.limit then s
      else
        var s1 := s.(queue := s.queue + [m]);
        var k := Claim(s.slots, t);
        if k.None? then s1
        else s1.(slots := s.slots[k.value := Some(t)], pcs := s.pcs[t := Draining(k.value, true)], holder := Some(t))
    case Pop(t) =>
      var m := s.queue[0];
      s.(queue := s.queue[1..], retry := s.retry[m := s.retry[m] + 1])
    case Drop(t) => s.(pcs := s.pcs[t := s.pcs[t].(locked := false)], holder := None)
    case Retake(t) => s.(pcs := s.pcs[t := s.pcs[t].(locked := true)], holder := Some(t))
    case Finish(t) => s.(slots := s.slots[s.pcs[t].slot := None], pcs := s.pcs[t := Outside], holder := None)
  }

  /** Nothing queued, all slots free; lnet_msg_container_setup gives at least one slot. */
  predicate Init(s: State) {
    && s.holder.None? && s.queue == [] && |s.slots| >= 1
    && (forall k | 0 <= k < |s.slots| :: s.slots[k].None?)
    && (forall t | 0 <= t < |s.pcs| :: s.pcs[t].Outside?)
    && (forall m | 0 <= m < |s.retry| :: s.retry[m] == 0)
  }

  predicate Feasible(s: State, steps: seq<Step>)
    decreases |steps|
  {
    steps != [] ==> Enabled(s, steps[0]) && Feasible(Apply(s, steps[0]), steps[1..])
  }

  function Exec(s: State, steps: seq<Step>): State
    requires Feasible(s, steps)
    decreases |steps|
  {
    if steps == [] then s else Exec(Apply(s, steps[0]), steps[1..])
  }

  // ----- slot search

  lemma {:induction false} FirstFreeSpec(slots: seq<Option<nat>>, i: nat)
    requires i <= |slots|
    ensures var k := FirstFree(slots, i);
            if k.None? then forall j | i <= j < |slots| :: slots[j].Some?
            else forall j | i <= j < k.value :: slots[j].Some?
    decreases |slots| - i
  {
    if i < |slots| && slots[i].Some? {
      FirstFreeSpec(slots, i + 1);
    }
  }

  // ----- the invariant

  /** A slot names the thread that drains through it, and the other way round. */
  ghost predicate SlotsOk(s: State) {
    && (forall k | 0 <= k < |s.slots| && s.slots[k].Some? ::
          s.slots[k].value < |s.pcs| && s.pcs[s.slots[k].value].Draining? && s.pcs[s.slots[k].value].slot == k)
    && (forall t | 0 <= t < |s.pcs| && s.pcs[t].Draining? ::
          s.pcs[t].slot < |s.slots| && s.slots[s.pcs[t].slot] == Some(t))
  }

  ghost predicate LockOk(s: State) {
    && (forall t | 0 <= t < |s.pcs| && s.pcs[t].Draining? && s.pcs[t].locked :: s.holder == Some(t))
    && (s.holder.Some? ==> s.holder.value < |s.pcs| && s.pcs[s.holder.value].Draining? && s.pcs[s.holder.value].locked)
  }

  ghost predicate QueueOk(s: State) {
    && NoDup(s.queue)
    && (forall i | 0 <= i < |s.queue| :: s.queue[i] < |s.retry| && s.retry[s.queue[i]] < s.limit)
    && (forall m | 0 <= m < |s.retry| :: s.retry[m] <= s.limit)
  }

  ghost predicate Drained(s: State) {
    s.queue != [] ==> exists k | 0 <= k < |s.slots| :: s.slots[k].Some?
  }

  ghost predicate Inv(s: State) {
    |s.slots| >= 1 && SlotsOk(s) && LockOk(s) && QueueOk(s) && Drained(s)
  }

  lemma AttemptKeeps(s: State, step: Step)
    requires Inv(s) && Enabled(s, step) && step.Attempt?
    ensures Inv(Apply(s, step))
  {
    var t := step.t;
    FirstFreeSpec(s.slots, 0);
    if s.retry[step.m] < s.limit {
      if s.pcs[t].Outside? {
        assert Some(t) !in s.slots;
        if FirstFree(s.slots, 0).None? {
          assert s.slots[0].Some?;
        } else {
          assert Apply(s, step).slots[FirstFree(s.slots, 0).value].Some?;
        }
      } else {
        assert s.slots[s.pcs[t].slot] == Some(t);
      }
    }
  }

  lemma PopKeeps(s: State, step: Step)
    requires Inv(s) && Enabled(s, step) && step.Pop?
    ensures Inv(Apply(s, step))
  {
    var s' := Apply(s, step);
    assert forall i | 0 <= i < |s'.queue| :: s'.queue[i] == s.queue[i + 1] && s'.queue[i] != s.queue[0];
  }

  lemma InvPreserved(s: State, step: Step)
    requires Inv(s) && Enabled(s, step)
    ensures Inv(Apply(s, step))
  {
    match step
    case Attempt(_, _) => AttemptKeeps(s, step);
    case Pop(_) => PopKeeps(s, step);
    case Drop(_) =>
    case Retake(_) =>
    case Finish(_) =>
  }

  lemma {:induction false} ExecInv(s: State, steps: seq<Step>)
    requires Inv(s) && Feasible(s, steps)
    ensures Inv(Exec(s, steps))
    decreases |steps|
  {
    if steps != [] {
      InvPreserved(s, steps[0]);
      ExecInv(Apply(s, steps[0]), steps[1..]);
    }
  }

  // ----- main results, over every run

  /**
    When the partition lock is free and messages wait, some slot is occupied, by a thread that is
    still in the drain loop and may take the lock again.
  */
  lemma NeverStranded(s0: State, steps: seq<Step>)
    requires Init(s0) && Feasible(s0, steps)
    requires Exec(s0, steps).holder.None? && Exec(s0, steps).queue != []
    ensures var s := Exec(s0, steps);
            exists k | 0 <= k < |s.slots| :: s.slots[k].Some? && Enabled(s, Retake(s.slots[k].value))
  {
    ExecInv(s0, steps);
    var s := Exec(s0, steps);
    var k :| 0 <= k < |s.slots| && s.slots[k].Some?;
    assert Enabled(s, Retake(s.slots[k].value));
  }

  /** No thread occupies two slots. */
  lemma OneSlotEach(s0: State, steps: seq<Step>)
    requires Init(s0) && Feasible(s0, steps)
    ensures var s := Exec(s0, steps);
            forall j, k | 0 <= j < k < |s.slots| && s.slots[j].Some? :: s.slots[j] != s.slots[k]
  {
    ExecInv(s0, steps);
  }

  /** A thread that comes back while it drains only queues its message: recursion stops there. */
  lemma NoRecursion(s0: State, steps: seq<Step>, t: nat, m: nat)
    requires Init(s0) && Feasible(s0, steps) && Enabled(Exec(s0, steps), Attempt(t, m))
    requires Exec(s0, steps).pcs[t].Draining?
    ensures var s := Exec(s0, steps); var s' := Apply(s, Attempt(t, m));
            && s'.pcs == s.pcs && s'.slots == s.slots && s'.holder.None?
            && s'.queue == if s.retry[m] < s.limit then s.queue + [m] else s.queue
  {
    ExecInv(s0, steps);
    var s := Exec(s0, steps);
    assert s.slots[s.pcs[t].slot] == Some(t);
  }

  /** How often message m is resent along a run. */
  function Resends(s: State, steps: seq<Step>, m: nat): nat
    requires Feasible(s, steps)
    decreases |steps|
  {
    if steps == [] then 0
    else (if steps[0].Pop? && s.queue[0] == m then 1 else 0) + Resends(Apply(s, steps[0]), steps[1..], m)
  }

  lemma {:induction false} ResendsCounted(s: State, steps: seq<Step>, m: nat)
    requires Inv(s) && Feasible(s, steps) && m < |s.retry|
    ensures |Exec(s, steps).retry| == |s.retry| && Exec(s, steps).limit == s.limit
    ensures Exec(s, steps).retry[m] == s.retry[m] + Resends(s, steps, m)
    decreases |steps|
  {
    if steps != [] {
      InvPreserved(s, steps[0]);
      ResendsCounted(Apply(s, steps[0]), steps[1..], m);
    }
  }

  /** With a fixed lnet_retry_count each message is resent at most that many times. */
  lemma ResentAtMost(s0: State, steps: seq<Step>, m: nat)
    requires Init(s0) && Feasible(s0, steps) && m < |s0.retry|
    ensures Resends(s0, steps, m) <= s0.limit
  {
    ExecInv(s0, steps);
    ResendsCounted(s0, steps, m);
  }

  /** Resends still allowed to the messages of the partition. */
  function Budget(retry: seq<nat>, limit: nat): int {
    if retry == [] then 0 else limit - retry[0] + Budget(retry[1..], limit)
  }

  lemma {:induction false} BudgetUpdate(retry: seq<nat>, limit: nat, m: nat, x: nat)
    requires m < |retry|
    ensures Budget(retry[m := x], limit) == Budget(retry, limit) + retry[m] - x
  {
    if m == 0 {
      assert retry[m := x][1..] == retry[1..];
    } else {
      assert retry[m := x][1..] == retry[1..][m - 1 := x];
      BudgetUpdate(retry[1..], limit, m - 1, x);
    }
  }

  lemma {:induction false} BudgetBounds(retry: seq<nat>, limit: nat)
    requires forall m | 0 <= m < |retry| :: retry[m] <= limit
    ensures 0 <= Budget(retry, limit) <= |retry| * limit
  {
    if retry != [] {
      BudgetBounds(retry[1..], limit);
    }
  }

  function Pops(steps: seq<Step>): nat {
    if steps == [] then 0 else (if steps[0].Pop? then 1 else 0) + Pops(steps[1..])
  }

  lemma {:induction false} PopsSpendBudget(s: State, steps: seq<Step>)
    requires Inv(s) && Feasible(s, steps)
    ensures Pops(steps) == Budget(s.retry, s.limit) - Budget(Exec(s, steps).retry, s.limit)
    ensures Exec(s, steps).limit == s.limit && |Exec(s, steps).retry| == |s.retry|
    decreases |steps|
  {
    if steps != [] {
      if steps[0].Pop? {
        var m := s.queue[0];
        BudgetUpdate(s.retry, s.limit, m, s.retry[m] + 1);
      }
      InvPreserved(s, steps[0]);
      PopsSpendBudget(Apply(s, steps[0]), steps[1..]);
    }
  }

  /** However the threads interleave, the drain loops turn a bounded number of times in all. */
  lemma DrainBounded(s0: State, steps: seq<Step>)
    requires Init(s0) && Feasible(s0, steps)
    ensures Pops(steps) <= |s0.retry| * s0.limit
  {
    ExecInv(s0, steps);
    PopsSpendBudget(s0, steps);
    BudgetBounds(s0.retry, s0.limit);
    BudgetBounds(Exec(s0, steps).retry, s0.limit);
  }

  // ----- nothing is lost

  /** The message a step queues: one brought in before its retries are used up. */
  function Joins(s: State, step: Step): seq<nat>
    requires Enabled(s, step)
  {
    if step.Attempt? && s.retry[step.m] < s.limit then [step.m] else []
  }

  /** The message a step resends. */
  function Leaves(s: State, step: Step): seq<nat>
    requires Enabled(s, step)
  {
    if step.Pop? then [s.queue[0]] else []
  }

  /** The messages queued along a run, in order. */
  function Accepted(s: State, steps: seq<Step>): seq<nat>
    requires Feasible(s, steps)
    decreases |steps|
  {
    if steps == [] then [] else Joins(s, steps[0]) + Accepted(Apply(s, steps[0]), steps[1..])
  }

  /** The messages resent along a run, in order. */
  function Resent(s: State, steps: seq<Step>): seq<nat>
    requires Feasible(s, steps)
    decreases |steps|
  {
    if steps == [] then [] else Leaves(s, steps[0]) + Resent(Apply(s, steps[0]), steps[1..])
  }

  lemma QueueStep(s: State, step: Step)
    requires Enabled(s, step)
    ensures s.queue + Joins(s, step) == Leaves(s, step) + Apply(s, step).queue
  {
  }

  lemma {:induction false} FirstInFirstOut(s: State, steps: seq<Step>)
    requires Feasible(s, steps)
    ensures s.queue + Accepted(s, steps) == Resent(s, steps) + Exec(s, steps).queue
    ensures |Resent(s, steps)| == Pops(steps)
    decreases |steps|
  {
    if steps != [] {
      var s', tail := Apply(s, steps[0]), steps[1..];
      QueueStep(s, steps[0]);
      FirstInFirstOut(s', tail);
      Regroup(s.queue, Joins(s, steps[0]), Accepted(s', tail), Leaves(s, steps[0]), s'.queue, Resent(s', tail), Exec(s', tail).queue);
    }
  }

  lemma Regroup(q: seq<nat>, a: seq<nat>, b: seq<nat>, c: seq<nat>, q': seq<nat>, d: seq<nat>, q'': seq<nat>)
    requires q + a == c + q' && q' + b == d + q''
    ensures q + (a + b) == (c + d) + q''
  {
    assert q + (a + b) == (q + a) + b;
    assert (c + q') + b == c + (q' + b);
    assert c + (d + q'') == (c + d) + q'';
  }

  /**
    The queue holds the messages accepted, in order, without as many at the front as were popped:
    those have been resent, in that order, and once the queue is empty all of them have.
  */
  lemma AllResentInOrder(s0: State, steps: seq<Step>)
    requires Init(s0) && Feasible(s0, steps)
    ensures var accepted := Accepted(s0, steps);
            && Pops(steps) <= |accepted|
            && Exec(s0, steps).queue == accepted[Pops(steps)..]
            && Resent(s0, steps) == accepted[..Pops(steps)]
            && (Exec(s0, steps).queue == [] ==> Resent(s0, steps) == accepted)
  {
    FirstInFirstOut(s0, steps);
    assert s0.queue + Accepted(s0, steps) == Accepted(s0, steps);
    assert Accepted(s0, steps)[..Pops(steps)] == Resent(s0, steps);
  }

  // ----- the slot search as it runs

  class Container {
    var resending: seq<nat>
    const workers: array<Option<nat>>

    constructor (nworkers: nat)
      ensures resending == [] && fresh(workers) && workers.Length == (if nworkers == 0 then 1 else nworkers)
      ensures forall k | 0 <= k < workers.Length :: workers[k].None?
    {
      resending := [];
      workers := new Option<nat>[if nworkers == 0 then 1 else nworkers](_ => None);
    }

    /** lnet_check_finalize_recursion_locked. */
    method CheckRecursion(m: nat, current: nat) returns (slot: int)
      modifies this, workers
      ensures resending == old(resending) + [m]
      ensures var k := Claim(old(workers[..]), current);
              if k.None? then slot == -1 && workers[..] == old(workers[..])
              else k.value < workers.Length && slot == k.value && workers[..] == old(workers[..])[k.value := Some(current)]
    {
      resending := resending + [m];
      slot := -1;
      FirstFreeSpec(workers[..], 0);
      var i := 0;
      while i < workers.Length && workers[i] != Some(current)
        invariant 0 <= i <= workers.Length
        invariant forall j | 0 <= j < i :: workers[j] != Some(current)
        invariant slot == -1 ==> forall j | 0 <= j < i :: workers[j].Some?
        invariant slot != -1 ==> 0 <= slot < i && workers[slot].None? && forall j | 0 <= j < slot :: workers[j].Some?
      {
        if slot < 0 && workers[i].None? {
          slot := i;
        }
        i := i + 1;
      }
      if i < workers.Length || slot < 0 {
        assert i < workers.Length ==> workers[..][i] == Some(current);
        return -1;
      }
      workers[slot] := Some(current);
    }
  }
}
