/** The results about whole executions of the portal protocol. */
module PortalTheorems {
  import opened Collections
  import opened Matching
  import opened MatchTables
  import opened QueueScan
  import opened PortalProtocol
  import opened PortalSafety
  import opened PortalIdentity

  /** Message m waits on the delayed queue although table c, whose lock is free, has a descriptor that wants it. */
  ghost predicate MissedWakeup(s: State, m: nat, c: nat, id: nat)
    requires WellFormed(s)
  {
    m < |s.infos| && m in s.delayed && c < |s.tables| && s.locks[c].Free? && TakenBy(s.tables[c], id, s.infos[m])
  }

  /** An attaching thread leaves without scanning although it overlooked a message in transit that it wants. */
  predicate Races(s: State, step: Step)
    requires WellFormed(s) && Enabled(s, step)
  {
    step.TestBit? && s.locks[step.c].stage.blind.Some? && !s.tables[step.c].bits[s.locks[step.c].p]
  }

  predicate RaceFree(s: State, steps: seq<Step>)
    requires WellFormed(s) && Feasible(s, steps)
    decreases |steps|
  {
    steps != [] ==> !Races(s, steps[0]) && RaceFree(Apply(s, steps[0]), steps[1..])
  }

  /** A wakeup is missed only by a pair that raced. */
  lemma MissedOnlyByRace(s0: State, steps: seq<Step>, m: nat, c: nat, id: nat)
    requires Init(s0) && WellFormed(s0) && Feasible(s0, steps)
    requires MissedWakeup(Exec(s0, steps), m, c, id)
    ensures (m, id) in Exec(s0, steps).raced
  {
    InitInv(s0);
    ExecInv(s0, steps);
  }

  lemma OnlyRacesAddPairs(s: State, step: Step)
    requires WellFormed(s) && Enabled(s, step) && !Races(s, step)
    ensures Apply(s, step).raced == s.raced
  {
    match step
    case Arrive(m, c, ready) =>
      var (t, out) := Search(s.tables[c], s.infos[m]);
      FirstRaced(AfterSearch(s, c, t, out == Missed(true)), m, out, ready);
    case Visit(m) =>
      var c := Round(s.pcs[m].first, s.pcs[m].i, |s.tables|);
      if m in Queue(s, m, s.pcs[m].i) {
        var (t, out) := Search(s.tables[c], s.infos[m]);
        RoundRaced(AfterSearch(s, c, t, out == Missed(true)), m, c, out);
      }
    case _ => OtherRaced(s, step);
  }

  lemma OtherRaced(s: State, step: Step)
    requires WellFormed(s) && Enabled(s, step) && !Races(s, step) && !step.Arrive? && !step.Visit?
    ensures Apply(s, step).raced == s.raced
  {
  }

  lemma FirstRaced(s: State, m: nat, out: Outcome, ready: bool)
    requires m < |s.pcs| == |s.owner|
    ensures AfterFirst(s, m, out, ready).raced == s.raced
  {
  }

  lemma RoundRaced(s: State, m: nat, c: nat, out: Outcome)
    requires m < |s.pcs| == |s.owner| && s.pcs[m].Stealing? && c < |s.locks|
    ensures AfterRound(s, m, c, out).raced == s.raced
  {
  }

  lemma {:induction false} NoRaceNoPair(s: State, steps: seq<Step>)
    requires Inv(s) && Feasible(s, steps) && RaceFree(s, steps)
    ensures Exec(s, steps).raced == s.raced
    decreases |steps|
  {
    if steps != [] {
      InvPreserved(s, steps[0]);
      OnlyRacesAddPairs(s, steps[0]);
      NoRaceNoPair(Apply(s, steps[0]), steps[1..]);
    }
  }

  /**
    No missed wakeup: in every execution in which no attaching thread overlooks a message in
    transit, no delayed message is wanted by a descriptor of a table whose lock is free.
  */
  lemma NoMissedWakeup(s0: State, steps: seq<Step>, m: nat, c: nat, id: nat)
    requires Init(s0) && WellFormed(s0) && Feasible(s0, steps) && RaceFree(s0, steps)
    ensures !MissedWakeup(Exec(s0, steps), m, c, id)
  {
    InitInv(s0);
    ExecInv(s0, steps);
    NoRaceNoPair(s0, steps);
    var s := Exec(s0, steps);
    assert Waiting(s, m) && c < |s.tables| && TakenBy(s.tables[c], id, s.infos[m]) ==> (m, id) in s.raced;
  }

  /** The thread at c has seen both lists empty and finds its bucket's bit clear: it will leave. */
  predicate WillLeave(s: State, c: nat)
    requires WellFormed(s)
  {
    && c < |s.locks| && s.locks[c].Attaching? && s.locks[c].stage.SawNoDelayed?
    && !s.tables[c].bits[s.locks[c].p]
  }

  /** It leaves; if message m is still in transit, m then goes on the delayed queue. */
  function Leaving(s: State, m: nat, c: nat): seq<Step> {
    if s.mover == Some(m) then [TestBit(c), Park(m)] else [TestBit(c)]
  }

  /**
    The condition is exact. Let the thread at c be about to leave while message m waits, in transit
    or on the delayed queue. Once it has left and m is queued, the wakeup of m by the new descriptor
    is missed if and only if m is the message the thread overlooked.
  */
  lemma RaceMissesWakeup(s0: State, prefix: seq<Step>, m: nat, c: nat)
    requires Init(s0) && WellFormed(s0) && Feasible(s0, prefix)
    requires Waiting(Exec(s0, prefix), m) && WillLeave(Exec(s0, prefix), c)
    ensures var s := Exec(s0, prefix);
            && Feasible(s, Leaving(s, m, c))
            && (MissedWakeup(Exec(s, Leaving(s, m, c)), m, c, s.locks[c].md.id) <==> s.locks[c].stage.blind == Some(m))
  {
    InitInv(s0);
    InitIds(s0);
    ExecInv(s0, prefix);
    ExecIds(s0, prefix);
    RaceAt(Exec(s0, prefix), m, c);
  }

  /** The thread that will leave wants a waiting message exactly when it overlooked it. */
  lemma OverlookedIsWanted(s: State, m: nat, c: nat)
    requires Inv(s) && Waiting(s, m) && WillLeave(s, c)
    ensures WantsAt(s, c, m) <==> s.locks[c].stage.blind == Some(m)
  {
    assert AttacherOk(s, c);
  }

  /** Once the thread at c has left, its descriptor takes exactly what it wanted. */
  lemma LeftTakes(s: State, m: nat, c: nat)
    requires Inv(s) && FreshIds(s) && WillLeave(s, c) && m < |s.infos|
    ensures var s' := Apply(s, TestBit(c));
            && s'.locks[c].Free? && s'.mover == s.mover && s'.pcs == s.pcs && s'.delayed == s.delayed && s'.infos == s.infos
            && (TakenBy(s'.tables[c], s.locks[c].md.id, s.infos[m]) <==> WantsAt(s, c, m))
  {
    var Attaching(_, p, k, md) := s.locks[c];
    var t' := Settled(s.tables[c], p, k, md);
    assert Apply(s, TestBit(c)).tables[c] == t';
    assert NewAt(s, c);
    if TakenBy(t', md.id, s.infos[m]) {
      SettledTakes(s.tables[c], p, k, md, md.id, s.infos[m]);
    }
    if WantsAt(s, c, m) {
      SettledWants(s.tables[c], p, k, md, s.infos[m]);
    }
  }

  lemma RaceAt(s: State, m: nat, c: nat)
    requires Inv(s) && FreshIds(s) && Waiting(s, m) && WillLeave(s, c)
    ensures Feasible(s, Leaving(s, m, c))
    ensures MissedWakeup(Exec(s, Leaving(s, m, c)), m, c, s.locks[c].md.id) <==> s.locks[c].stage.blind == Some(m)
  {
    OverlookedIsWanted(s, m, c);
    LeftTakes(s, m, c);
    InvPreserved(s, TestBit(c));
    var s1 := Apply(s, TestBit(c));
    if s.mover == Some(m) {
      MoverHoldsLock(s, m);
      InvPreserved(s1, Park(m));
      TwoSteps(s, TestBit(c), Park(m));
      assert s1.pcs[m].cpt != c ==> Apply(s1, Park(m)).locks[c] == s1.locks[c];
    } else {
      OneStep(s, TestBit(c));
    }
  }

  lemma OneStep(s: State, a: Step)
    requires WellFormed(s) && Enabled(s, a) && WellFormed(Apply(s, a))
    ensures Feasible(s, [a]) && Exec(s, [a]) == Apply(s, a)
  {
    assert [a][1..] == [];
    assert Feasible(Apply(s, a), []);
  }

  lemma TwoSteps(s: State, a: Step, b: Step)
    requires WellFormed(s) && Enabled(s, a) && WellFormed(Apply(s, a)) && Enabled(Apply(s, a), b)
    requires WellFormed(Apply(Apply(s, a), b))
    ensures Feasible(s, [a, b]) && Exec(s, [a, b]) == Apply(Apply(s, a), b)
  {
    assert [a, b][1..] == [b] && [b][1..] == [];
    assert Feasible(Apply(Apply(s, a), b), []);
    assert Exec(Apply(s, a), [b]) == Apply(Apply(s, a), b);
  }

  lemma SettledWants(t: Table, p: nat, k: nat, md: Md, info: Info)
    requires p < |t.heads| && k < |t.heads[p]| && Wants(t.heads[p][k].me, md, info)
    ensures TakenBy(Settled(t, p, k, md), md.id, info)
  {
    var t' := Settled(t, p, k, md);
    assert t'.heads[p][k] == Entry(t.heads[p][k].me, Some(md));
    assert Takes(t'.heads[p][k], info) && t'.heads[p][k].md.value.id == md.id;
  }

  lemma MoverHoldsLock(s: State, m: nat)
    requires Inv(s) && s.mover == Some(m)
    ensures m < |s.pcs| && s.pcs[m].Moving? && s.pcs[m].cpt < |s.locks|
  {
    assert PlaceOk(s.pcs[m], s.owner[m].Some?, m in s.stealing, m in s.delayed, s.mover == Some(m));
  }

  // ----- one outcome per message

  /** Steps the thread may still take, for n tables. */
  function Rank(pc: Pc, n: nat): nat {
    match pc
    case Fresh => n + 3
    case Delaying => n + 2
    case Stealing(_, i) => if i <= n then n + 1 - i else 0
    case Moving(_) => 1
    case _ => 0
  }

  predicate Done(pc: Pc) {
    pc.DoneOk? || pc.DoneDrop?
  }

  /**
    At any time a message is on at most one list, at most once; when its thread has returned it is
    with one descriptor, dropped with none, or on the delayed queue, and only one of these.
  */
  lemma OneOutcome(s0: State, steps: seq<Step>, m: nat)
    requires Init(s0) && WellFormed(s0) && Feasible(s0, steps) && m < |s0.pcs|
    ensures var s := Exec(s0, steps);
            && |s.owner| == |s.pcs| == |s0.pcs|
            && NoDup(s.stealing) && NoDup(s.delayed)
            && !(m in s.stealing && m in s.delayed)
            && (m in s.stealing || m in s.delayed || s.mover == Some(m) ==> s.owner[m].None?)
            && (m in s.delayed <==> s.pcs[m].Parked?)
            && (s.pcs[m].DoneOk? ==> s.owner[m].Some? && m !in s.stealing && s.mover != Some(m))
            && (s.pcs[m].DoneDrop? ==> s.owner[m].None? && m !in s.stealing && s.mover != Some(m))
  {
    InitInv(s0);
    ExecInv(s0, steps);
    OutcomeFinal(s0, steps, m);
    var s := Exec(s0, steps);
    assert PlaceOk(s.pcs[m], s.owner[m].Some?, m in s.stealing, m in s.delayed, s.mover == Some(m));
  }

  /** Who has message m, and a finished thread, stay as they are. */
  ghost predicate Kept(s: State, s': State, m: nat) {
    && m < |s'.pcs| == |s.pcs| == |s'.owner| == |s.owner|
    && (s.owner[m].Some? ==> s'.owner[m] == s.owner[m])
    && (Done(s.pcs[m]) ==> s'.pcs[m] == s.pcs[m] && s'.owner[m] == s.owner[m])
  }

  lemma ScanFinal(s: State, c: nat, m: nat)
    requires Inv(s) && Enabled(s, LockAndScan(c)) && m < |s.pcs|
    ensures Kept(s, Apply(s, LockAndScan(c)), m)
  {
    assert PlaceOk(s.pcs[m], s.owner[m].Some?, m in s.stealing, m in s.delayed, s.mover == Some(m));
    var Attaching(_, p, k, md) := s.locks[c];
    ScanBothSpec(s, s.tables[c].heads[p][k].me, md);
  }

  lemma OtherFinal(s: State, step: Step, m: nat)
    requires Inv(s) && Enabled(s, step) && m < |s.pcs| && !step.Visit? && !step.Arrive? && !step.LockAndScan?
    ensures Kept(s, Apply(s, step), m)
  {
    assert PlaceOk(s.pcs[m], s.owner[m].Some?, m in s.stealing, m in s.delayed, s.mover == Some(m));
  }

  lemma FinalStep(s: State, step: Step, m: nat)
    requires Inv(s) && Enabled(s, step) && m < |s.pcs|
    ensures Kept(s, Apply(s, step), m)
  {
    match step
    case LockAndScan(c) => ScanFinal(s, c, m);
    case Visit(x) => VisitFinal(s, x, m);
    case Arrive(_, _, _) => ArriveFinal(s, step, m);
    case _ => OtherFinal(s, step, m);
  }

  /** A round changes nobody else's message, and its own message has no owner yet. */
  ghost predicate OwnOnly(s: State, s': State, x: nat, m: nat) {
    && m < |s'.pcs| == |s.pcs| == |s'.owner| == |s.owner| && x < |s.pcs| && |s'.tables| == |s.tables|
    && (x != m ==> s'.pcs[m] == s.pcs[m] && s'.owner[m] == s.owner[m])
    && (s.owner[x].Some? ==> s'.owner[x] == s.owner[x])
    && Rank(s'.pcs[x], |s.tables|) < Rank(s.pcs[x], |s.tables|)
  }

  lemma RoundFinal(s: State, x: nat, c: nat, out: Outcome, m: nat)
    requires x < |s.pcs| == |s.owner| && s.pcs[x].Stealing? && c < |s.locks| && m < |s.pcs|
    requires s.pcs[x].i < |s.tables| && s.owner[x].None?
    ensures OwnOnly(s, AfterRound(s, x, c, out), x, m)
  {}

  lemma VisitFinal(s: State, x: nat, m: nat)
    requires Inv(s) && CanVisit(s, x) && m < |s.pcs|
    ensures OwnOnly(s, DoVisit(s, x), x, m)
  {
    QueueSpec(s, x);
    assert ShapedPc(s.pcs[x], |s.tables|);
    if x in Queue(s, x, s.pcs[x].i) {
      var c := Round(s.pcs[x].first, s.pcs[x].i, |s.tables|);
      var (t, out) := Search(s.tables[c], s.infos[x]);
      RoundFinal(AfterSearch(s, c, t, out == Missed(true)), x, c, out, m);
    }
  }

  lemma FirstFinal(s: State, x: nat, out: Outcome, ready: bool, m: nat)
    requires x < |s.pcs| == |s.owner| && s.pcs[x].Fresh? && m < |s.pcs| && s.owner[x].None?
    ensures var s' := AfterFirst(s, x, out, ready);
            && (s' != s ==> OwnOnly(s, s', x, m))
            && (ready ==> s' != s)
  {}

  lemma ArriveFinal(s: State, step: Step, m: nat)
    requires Inv(s) && step.Arrive? && Enabled(s, step) && m < |s.pcs|
    ensures var s' := Apply(s, step);
            && m < |s'.pcs| == |s.pcs| == |s'.owner| == |s.owner| && |s'.tables| == |s.tables|
            && (OwnOnly(s, s', step.m, m) || (!step.ready && s'.pcs == s.pcs && s'.owner == s.owner))
  {
    var x := step.m;
    assert PlaceOk(s.pcs[x], s.owner[x].Some?, x in s.stealing, x in s.delayed, s.mover == Some(x));
    var (t, out) := Search(s.tables[step.c], s.infos[x]);
    FirstFinal(AfterSearch(s, step.c, t, out == Missed(true)), x, out, step.ready, m);
  }

  /** A message is never matched twice, and a finished one stays finished. */
  lemma MatchedOnce(s0: State, prefix: seq<Step>, steps: seq<Step>, m: nat)
    requires Init(s0) && WellFormed(s0) && Feasible(s0, prefix)
    requires Feasible(Exec(s0, prefix), steps) && m < |Exec(s0, prefix).pcs|
    ensures Kept(Exec(s0, prefix), Exec(Exec(s0, prefix), steps), m)
  {
    InitInv(s0);
    ExecInv(s0, prefix);
    OutcomeFinal(Exec(s0, prefix), steps, m);
  }

  lemma {:induction false} OutcomeFinal(s: State, steps: seq<Step>, m: nat)
    requires Inv(s) && Feasible(s, steps) && m < |s.pcs|
    ensures Kept(s, Exec(s, steps), m)
    decreases |steps|
  {
    if steps != [] {
      InvPreserved(s, steps[0]);
      FinalStep(s, steps[0], m);
      OutcomeFinal(Apply(s, steps[0]), steps[1..], m);
    }
  }

  // ----- the delivering thread always returns

  /** The step is taken by the thread that delivers m, with the message ready to be delayed. */
  predicate OwnStep(step: Step, m: nat) {
    match step
    case Arrive(x, _, ready) => x == m && ready
    case EnterDelay(x, _) => x == m
    case Skip(x) => x == m
    case Visit(x) => x == m
    case Park(x) => x == m
    case _ => false
  }

  function OwnSteps(steps: seq<Step>, m: nat): nat {
    if steps == [] then 0 else (if OwnStep(steps[0], m) then 1 else 0) + OwnSteps(steps[1..], m)
  }

  /** s' is no further from the end than s, and a step nearer if it was the thread's own. */
  ghost predicate Nearer(s: State, s': State, m: nat, own: bool) {
    && m < |s'.pcs| == |s.pcs| && |s'.tables| == |s.tables|
    && Rank(s'.pcs[m], |s.tables|) + (if own then 1 else 0) <= Rank(s.pcs[m], |s.tables|)
  }

  lemma OtherNearer(s: State, step: Step, m: nat)
    requires Inv(s) && Enabled(s, step) && m < |s.pcs| && !step.Visit? && !step.Arrive? && !step.LockAndScan?
    ensures Nearer(s, Apply(s, step), m, OwnStep(step, m))
  {
    assert ShapedPc(s.pcs[m], |s.tables|);
  }

  lemma VisitNearer(s: State, x: nat, m: nat)
    requires Inv(s) && Enabled(s, Visit(x)) && m < |s.pcs|
    ensures Nearer(s, Apply(s, Visit(x)), m, x == m)
  {
    VisitFinal(s, x, m);
  }

  lemma ArriveNearer(s: State, step: Step, m: nat)
    requires Inv(s) && step.Arrive? && Enabled(s, step) && m < |s.pcs|
    ensures Nearer(s, Apply(s, step), m, OwnStep(step, m))
  {
    ArriveFinal(s, step, m);
  }

  /** A scan ends the delivery of a message or leaves its thread where it is. */
  lemma ScanPcs(s: State, c: nat, m: nat)
    requires WellFormed(s) && c < |s.locks| && s.locks[c].Attaching? && m < |s.pcs|
    ensures var s' := DoScan(s, c);
            && |s'.pcs| == |s.pcs| && |s'.tables| == |s.tables| && (s'.pcs[m] == s.pcs[m] || Done(s'.pcs[m]))
  {
  }

  lemma ScanNearer(s: State, c: nat, m: nat)
    requires WellFormed(s) && Enabled(s, LockAndScan(c)) && m < |s.pcs|
    ensures Nearer(s, Apply(s, LockAndScan(c)), m, false)
  {
    ScanPcs(s, c, m);
  }

  lemma RankStep(s: State, step: Step, m: nat)
    requires Inv(s) && Enabled(s, step) && m < |s.pcs|
    ensures Nearer(s, Apply(s, step), m, OwnStep(step, m))
  {
    match step
    case Visit(x) => VisitNearer(s, x, m);
    case Arrive(_, _, _) => ArriveNearer(s, step, m);
    case LockAndScan(c) => ScanNearer(s, c, m);
    case _ => OtherNearer(s, step, m);
  }

  /** The loop in lnet_ptl_match_delay always exits: with n tables a thread takes at most n + 3 steps. */
  lemma AlwaysReturns(s0: State, steps: seq<Step>, m: nat)
    requires Init(s0) && WellFormed(s0) && Feasible(s0, steps) && m < |s0.pcs|
    ensures OwnSteps(steps, m) <= |s0.tables| + 3
  {
    InitInv(s0);
    DeliveryBounded(s0, steps, m);
  }

  lemma {:induction false} DeliveryBounded(s: State, steps: seq<Step>, m: nat)
    requires Inv(s) && Feasible(s, steps) && m < |s.pcs|
    ensures OwnSteps(steps, m) <= Rank(s.pcs[m], |s.tables|) <= |s.tables| + 3
    decreases |steps|
  {
    if steps != [] {
      InvPreserved(s, steps[0]);
      RankStep(s, steps[0], m);
      DeliveryBounded(Apply(s, steps[0]), steps[1..], m);
    }
    assert ShapedPc(s.pcs[m], |s.tables|);
  }

  // ----- the tables behind the search

  /**
    In every state: a set exhausted bit covers a bucket without a usable descriptor, a table out of
    use has all bits set, the map lists the tables in use in increasing order, and a message on the
    stealing list is wanted by no table that its thread has visited.
  */
  lemma TablesInOrder(s0: State, steps: seq<Step>)
    requires Init(s0) && WellFormed(s0) && Feasible(s0, steps)
    ensures var s := Exec(s0, steps);
            && (forall c | 0 <= c < |s.tables| :: Sound(s.tables[c]))
            && PortalMaps.StrictlySorted(s.maps)
            && (forall c: nat :: c in s.maps <==> c < |s.tables| && s.tables[c].enabled)
            && Covered(s)
  {
    InitInv(s0);
    ExecInv(s0, steps);
  }
}
