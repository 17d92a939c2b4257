/** When the portal protocol may drop a message, and that it loses none. */
module PortalOutcomes {
  import opened Collections
  import opened Matching
  import opened MatchTables
  import opened PortalProtocol
  import opened PortalSafety
  import opened PortalTheorems
  import opened PortalSteps

  // ----- who was refused

  /** A thread whose message is off the stealing list without a descriptor: the message was refused. */
  ghost predicate StrayRefused(s: State, m: nat)
    requires m < |s.pcs| == |s.owner|
  {
    s.pcs[m].Stealing? && s.pcs[m].i > 0 && m !in s.stealing && s.owner[m].None? ==> m in s.refused
  }

  ghost predicate StraysRefused(s: State)
    requires |s.pcs| == |s.owner|
  {
    forall m | 0 <= m < |s.pcs| :: StrayRefused(s, m)
  }

  /** Table c has a descriptor that accepts message m, has no room for it and does not truncate. */
  ghost predicate TooBigIn(s: State, c: nat, m: nat) {
    c < |s.tables| && m < |s.infos| &&
    exists p: nat, k: nat :: FirstInLine(s.tables[c], p, k, s.infos[m]) &&
                   TryMatch(s.tables[c].heads[p][k].me, s.tables[c].heads[p][k].md.value, s.infos[m]).TooBig?
  }

  /** So has the descriptor that is being attached at c, by the time waiter j, which is m, is offered to it. */
  ghost predicate TooBigFor(s: State, c: nat, m: nat)
    requires WellFormed(s)
  {
    c < |s.locks| && s.locks[c].Attaching? && m < |s.infos| &&
    exists j: nat :: j < |Waiters(s)| && Waiters(s)[j] == m && TryMatch(EntryOf(s, c), MdAt(s, c, j), s.infos[m]).TooBig?
  }

  /** The step has a descriptor refuse message m. */
  ghost predicate Refuses(s: State, step: Step, m: nat)
    requires WellFormed(s)
  {
    match step
    case Arrive(x, c, _) => x == m && TooBigIn(s, c, m)
    case Visit(x) => x == m && m < |s.pcs| && s.pcs[m].Stealing? && TooBigIn(s, Round(s.pcs[m].first, s.pcs[m].i, |s.tables|), m)
    case LockAndScan(c) => TooBigFor(s, c, m)
    case _ => false
  }

  lemma SearchRefuses(s: State, s': State, c: nat, m: nat)
    requires WellFormed(s) && c < |s.tables| && m < |s.infos| && SearchedFor(s, s', c, m)
    ensures forall x | x in s'.refused && x !in s.refused :: x == m && TooBigIn(s, c, m)
    ensures s.refused <= s'.refused && |s'.owner| == |s.owner|
    ensures Takeable(s.tables[c], s.infos[m]) && m < |s'.owner| && s.owner[m].None? && s'.owner[m].None? ==> m in s'.refused
    ensures forall x | 0 <= x < |s.owner| && x != m :: s'.owner[x] == s.owner[x]
  {
    if Takeable(s.tables[c], s.infos[m]) {
      var p: nat, k: nat :| FirstInLine(s.tables[c], p, k, s.infos[m]) && DecidedBy(s, s', c, p, k, m);
      assert Takes(s.tables[c].heads[p][k], s.infos[m]);
    }
  }

  lemma ScanRefuses(s: State, c: nat, x: nat)
    requires Inv(s) && Enabled(s, LockAndScan(c)) && x < |s.pcs|
    ensures x in DoScan(s, c).refused && x !in s.refused ==> TooBigFor(s, c, x)
    ensures x in s.refused ==> x in DoScan(s, c).refused
    ensures x in s.stealing && x !in DoScan(s, c).stealing && DoScan(s, c).owner[x].None? ==> x in DoScan(s, c).refused
    ensures x !in s.stealing ==> x !in DoScan(s, c).stealing
    ensures !s.pcs[x].DoneDrop? && DoScan(s, c).pcs[x].DoneDrop? ==> x in DoScan(s, c).refused
    ensures DoScan(s, c).pcs[x] == s.pcs[x] || (s.pcs[x].Parked? && Done(DoScan(s, c).pcs[x]))
  {
    assert PlaceOk(s.pcs[x], s.owner[x].Some?, x in s.stealing, x in s.delayed, s.mover == Some(x));
    if x in Waiters(s) {
      var j: nat :| j < |Waiters(s)| && Waiters(s)[j] == x;
      ScanResumes(s, c, j);
      assert TryMatch(EntryOf(s, c), MdAt(s, c, j), s.infos[x]).TooBig? ==> TooBigFor(s, c, x);
    } else {
      ScanSpares(s, c, x);
    }
  }

  // ----- every step

  /** What a step may do to message m with respect to dropping. */
  ghost predicate FairStep(s: State, step: Step, s': State, m: nat)
    requires WellFormed(s) && m < |s.pcs|
  {
    && |s'.pcs| == |s'.owner| == |s.pcs|
    && (m in s'.refused && m !in s.refused ==> Refuses(s, step, m))
    && (m in s.refused ==> m in s'.refused)
    && StrayRefused(s', m)
    && (!s.pcs[m].DoneDrop? && s'.pcs[m].DoneDrop? ==>
          !s.lazy || (step.DropDelayed? && m in step.which) || m in s'.refused)
  }

  lemma ArriveFair(s: State, step: Step, m: nat)
    requires Inv(s) && StraysRefused(s) && step.Arrive? && Enabled(s, step) && m < |s.pcs|
    ensures FairStep(s, step, Apply(s, step), m)
  {
    var Arrive(x, c, ready) := step;
    ArriveExact(s, step);
    SearchRefuses(s, Apply(s, step), c, x);
    assert PlaceOk(s.pcs[x], s.owner[x].Some?, x in s.stealing, x in s.delayed, s.mover == Some(x));
    assert StrayRefused(s, m);
  }

  lemma VisitFair(s: State, x: nat, m: nat)
    requires Inv(s) && StraysRefused(s) && CanVisit(s, x) && m < |s.pcs|
    ensures FairStep(s, Visit(x), DoVisit(s, x), m)
  {
    if x in Queue(s, x, s.pcs[x].i) {
      VisitExact(s, x);
      RoundFair(s, DoVisit(s, x), Round(s.pcs[x].first, s.pcs[x].i, |s.tables|), x, m);
    } else {
      assert StrayRefused(s, m) && StrayRefused(s, x);
      QueueSpec(s, x);
      StrayExact(s, x);
    }
  }

  lemma RoundFair(s: State, s': State, c: nat, x: nat, m: nat)
    requires Inv(s) && StraysRefused(s) && CanVisit(s, x) && m < |s.pcs| && x in Queue(s, x, s.pcs[x].i)
    requires c == Round(s.pcs[x].first, s.pcs[x].i, |s.tables|)
    requires SearchedFor(s, s', c, x) && RoundLists(s, s', x, c)
    requires if Takeable(s.tables[c], s.infos[x]) then Answered(s, s', x) else s'.pcs == s.pcs[x := AfterRoundMiss(s, s', x)]
    ensures FairStep(s, Visit(x), s', m)
  {
    assert StrayRefused(s, m) && StrayRefused(s, x);
    QueueSpec(s, x);
    SearchRefuses(s, s', c, x);
    MinusSpec(Queue(s, x, s.pcs[x].i), {x});
  }

  lemma ScanFair(s: State, c: nat, m: nat)
    requires Inv(s) && StraysRefused(s) && Enabled(s, LockAndScan(c)) && m < |s.pcs|
    ensures FairStep(s, LockAndScan(c), DoScan(s, c), m)
  {
    ScanRefuses(s, c, m);
    assert StrayRefused(s, m);
    assert PlaceOk(s.pcs[m], s.owner[m].Some?, m in s.stealing, m in s.delayed, s.mover == Some(m));
  }

  lemma OtherFair(s: State, step: Step, m: nat)
    requires Inv(s) && StraysRefused(s) && Enabled(s, step) && m < |s.pcs| && !step.Arrive? && !step.Visit? && !step.LockAndScan?
    ensures FairStep(s, step, Apply(s, step), m)
  {
    assert StrayRefused(s, m);
  }

  lemma StepFair(s: State, step: Step, m: nat)
    requires Inv(s) && StraysRefused(s) && Enabled(s, step) && m < |s.pcs|
    ensures FairStep(s, step, Apply(s, step), m)
  {
    match step
    case Arrive(_, _, _) => ArriveFair(s, step, m);
    case Visit(x) => VisitFair(s, x, m);
    case LockAndScan(c) => ScanFair(s, c, m);
    case _ => OtherFair(s, step, m);
  }

  lemma StraysStep(s: State, step: Step)
    requires Inv(s) && StraysRefused(s) && Enabled(s, step)
    ensures var s' := Apply(s, step); |s'.pcs| == |s'.owner| == |s.pcs| && StraysRefused(s')
  {
    SameMessages(s, step);
    forall m | 0 <= m < |s.pcs|
      ensures StrayRefused(Apply(s, step), m)
    {
      StepFair(s, step, m);
    }
  }

  lemma SameMessages(s: State, step: Step)
    requires Inv(s) && Enabled(s, step)
    ensures |Apply(s, step).pcs| == |Apply(s, step).owner| == |s.pcs|
  {
    if step.Arrive? {
      ArriveExact(s, step);
    } else if step.Visit? {
      VisitSame(s, step.m);
    } else {
      OtherSame(s, step);
    }
  }

  lemma OtherSame(s: State, step: Step)
    requires WellFormed(s) && Enabled(s, step) && !step.Arrive? && !step.Visit?
    ensures |Apply(s, step).pcs| == |Apply(s, step).owner| == |s.pcs|
  {
  }

  lemma VisitSame(s: State, m: nat)
    requires Inv(s) && CanVisit(s, m)
    ensures |DoVisit(s, m).pcs| == |DoVisit(s, m).owner| == |s.pcs|
  {
    if m in Queue(s, m, s.pcs[m].i) {
      VisitExact(s, m);
      SearchRefuses(s, DoVisit(s, m), Round(s.pcs[m].first, s.pcs[m].i, |s.tables|), m);
    }
  }

  lemma {:induction false} StraysAlways(s: State, steps: seq<Step>)
    requires Inv(s) && StraysRefused(s) && Feasible(s, steps)
    ensures Inv(Exec(s, steps)) && StraysRefused(Exec(s, steps)) && |Exec(s, steps).pcs| == |s.pcs|
    decreases |steps|
  {
    if steps != [] {
      InvPreserved(s, steps[0]);
      StraysStep(s, steps[0]);
      StraysAlways(Apply(s, steps[0]), steps[1..]);
    }
  }

  // ----- main results, over every run

  /**
    A step that drops message m finds the portal not lazy, or is told to drop it, or m was refused by
    a descriptor that accepts it but has no room for it.
  */
  lemma DroppedOnlyIf(s0: State, steps: seq<Step>, step: Step, m: nat)
    requires Init(s0) && WellFormed(s0) && Feasible(s0, steps) && Enabled(Exec(s0, steps), step) && m < |s0.pcs|
    ensures var s := Exec(s0, steps); var s' := Apply(s, step);
            && |s.pcs| == |s'.pcs| == |s0.pcs|
            && (!s.pcs[m].DoneDrop? && s'.pcs[m].DoneDrop? ==>
                  !s.lazy || (step.DropDelayed? && m in step.which) || m in s'.refused)
            && (m in s'.refused && m !in s.refused ==> Refuses(s, step, m))
  {
    InitInv(s0);
    StraysAlways(s0, steps);
    StepFair(Exec(s0, steps), step, m);
  }

  /** The portal is lazy all along and nobody tells it to drop m. */
  predicate StaysLazy(s: State, steps: seq<Step>, m: nat)
    requires WellFormed(s) && Feasible(s, steps)
    decreases |steps|
  {
    s.lazy && (steps != [] ==> !(steps[0].DropDelayed? && m in steps[0].which) && StaysLazy(Apply(s, steps[0]), steps[1..], m))
  }

  /**
    On a portal that stays lazy no message is lost: once its delivery has returned, a message that no
    descriptor refused has a descriptor or is on the delayed queue.
  */
  lemma NoneLost(s0: State, steps: seq<Step>, m: nat)
    requires Init(s0) && WellFormed(s0) && Feasible(s0, steps) && StaysLazy(s0, steps, m) && m < |s0.pcs|
    requires m !in Exec(s0, steps).refused
    ensures var s := Exec(s0, steps);
            && m < |s.pcs| == |s.owner| && !s.pcs[m].DoneDrop?
            && (Done(s.pcs[m]) || s.pcs[m].Parked? ==> s.owner[m].Some? || m in s.delayed)
  {
    InitInv(s0);
    NeverDropped(s0, steps, m);
    ExecInv(s0, steps);
    var s := Exec(s0, steps);
    assert PlaceOk(s.pcs[m], s.owner[m].Some?, m in s.stealing, m in s.delayed, s.mover == Some(m));
  }

  lemma {:induction false} NeverDropped(s: State, steps: seq<Step>, m: nat)
    requires Inv(s) && StraysRefused(s) && Feasible(s, steps) && StaysLazy(s, steps, m) && m < |s.pcs| && !s.pcs[m].DoneDrop?
    ensures m < |Exec(s, steps).pcs| && (m !in Exec(s, steps).refused ==> !Exec(s, steps).pcs[m].DoneDrop?)
    decreases |steps|
  {
    if steps != [] {
      var s' := Apply(s, steps[0]);
      StepFair(s, steps[0], m);
      InvPreserved(s, steps[0]);
      StraysStep(s, steps[0]);
      if s'.pcs[m].DoneDrop? {
        RefusedStays(s', steps[1..], m);
      } else {
        NeverDropped(s', steps[1..], m);
      }
    }
  }

  lemma {:induction false} RefusedStays(s: State, steps: seq<Step>, m: nat)
    requires Inv(s) && StraysRefused(s) && Feasible(s, steps) && m < |s.pcs| && m in s.refused
    ensures m in Exec(s, steps).refused && |Exec(s, steps).pcs| == |s.pcs|
    decreases |steps|
  {
    StraysAlways(s, steps);
    if steps != [] {
      StepFair(s, steps[0], m);
      InvPreserved(s, steps[0]);
      StraysStep(s, steps[0]);
      RefusedStays(Apply(s, steps[0]), steps[1..], m);
    }
  }

  /** The step looks for a descriptor for message m in table c. */
  predicate LooksIn(s: State, step: Step, m: nat, c: nat)
    requires WellFormed(s)
  {
    && m < |s.pcs| && c < |s.tables|
    && match step
       case Arrive(x, b, _) => x == m && b == c
       case Visit(x) =>
         x == m && s.pcs[m].Stealing? && m in Queue(s, m, s.pcs[m].i) && c == Round(s.pcs[m].first, s.pcs[m].i, |s.tables|)
       case _ => false
  }

  lemma LookFinds(s: State, step: Step, m: nat, c: nat)
    requires Inv(s) && Enabled(s, step) && LooksIn(s, step, m, c) && Takeable(s.tables[c], s.infos[m])
    ensures SearchedFor(s, Apply(s, step), c, m) && Answered(s, Apply(s, step), m)
  {
    match step
    case Arrive(_, _, _) => ArriveExact(s, step);
    case Visit(_) => VisitExact(s, m);
  }

  lemma FoundOrRefused(s: State, s': State, m: nat, c: nat)
    requires WellFormed(s) && m < |s.pcs| && c < |s.tables| && Takeable(s.tables[c], s.infos[m])
    requires SearchedFor(s, s', c, m) && Answered(s, s', m)
    ensures Done(s'.pcs[m]) && (s'.owner[m].Some? || TooBigIn(s, c, m))
  {
    var p: nat, k: nat :| FirstInLine(s.tables[c], p, k, s.infos[m]) && DecidedBy(s, s', c, p, k, m);
    assert Takes(s.tables[c].heads[p][k], s.infos[m]);
  }

  /** A message that finds a descriptor willing to take it gets one, or is refused by the first in line. */
  lemma TakenWhenWanted(s0: State, steps: seq<Step>, step: Step, m: nat, c: nat)
    requires Init(s0) && WellFormed(s0) && Feasible(s0, steps) && Enabled(Exec(s0, steps), step)
    requires LooksIn(Exec(s0, steps), step, m, c) && Takeable(Exec(s0, steps).tables[c], Exec(s0, steps).infos[m])
    ensures var s := Exec(s0, steps); var s' := Apply(s, step);
            m < |s'.pcs| && m < |s'.owner| && Done(s'.pcs[m]) && (s'.owner[m].Some? || TooBigIn(s, c, m))
  {
    InitInv(s0);
    ExecInv(s0, steps);
    LookFinds(Exec(s0, steps), step, m, c);
    FoundOrRefused(Exec(s0, steps), Apply(Exec(s0, steps), step), m, c);
  }
}
