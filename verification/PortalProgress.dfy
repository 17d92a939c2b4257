/** Progress of the portal protocol: somebody can always move, and not for ever. */
module PortalProgress {
  import opened Collections
  import opened MatchTables
  import opened PortalProtocol
  import opened PortalSafety
  import opened PortalIdentity
  import opened PortalTheorems

  /** The step belongs to the delivery of some message or to a thread that is attaching. */
  predicate GoesOn(step: Step) {
    match step
    case Arrive(_, _, ready) => ready
    case EnterDelay(_, _) => true
    case Skip(_) => true
    case Visit(_) => true
    case Park(_) => true
    case ReadStealing(_) => true
    case ReadDelayed(_) => true
    case TestBit(_) => true
    case LockAndScan(_) => true
    case _ => false
  }

  /** The next step of the thread that holds table c's lock as an attacher. */
  function AttacherStep(s: State, c: nat): Step
    requires c < |s.locks| && s.locks[c].Attaching?
  {
    match s.locks[c].stage
    case Entered => ReadStealing(c)
    case SawNoStealing => ReadDelayed(c)
    case SawNoDelayed(_) => TestBit(c)
    case WillLock => LockAndScan(c)
  }

  /**
    No deadlock: as long as the thread of some message has not returned, it, or the thread whose
    lock it would need, can take a step.
  */
  lemma NoDeadlock(s0: State, steps: seq<Step>, m: nat) returns (step: Step)
    requires Init(s0) && WellFormed(s0) && Feasible(s0, steps)
    requires var pcs := Exec(s0, steps).pcs; m < |pcs| && !Done(pcs[m]) && !pcs[m].Parked?
    ensures Enabled(Exec(s0, steps), step) && GoesOn(step)
  {
    InitInv(s0);
    ExecInv(s0, steps);
    step := SomeoneMoves(Exec(s0, steps), m);
  }

  lemma SomeoneMoves(s: State, m: nat) returns (step: Step)
    requires Inv(s) && m < |s.pcs| && !Done(s.pcs[m]) && !s.pcs[m].Parked?
    ensures Enabled(s, step) && GoesOn(step)
  {
    if s.mover.Some? {
      MoverHoldsLock(s, s.mover.value);
      step := Park(s.mover.value);
    } else if c: nat :| c < |s.locks| && s.locks[c].Attaching? {
      step := AttacherStep(s, c);
    } else {
      step := DeliveryStep(s, m);
    }
  }

  lemma DeliveryStep(s: State, m: nat) returns (step: Step)
    requires Inv(s) && m < |s.pcs| && !Done(s.pcs[m]) && !s.pcs[m].Parked?
    requires s.mover.None? && forall c: nat | c < |s.locks| :: !s.locks[c].Attaching?
    ensures Enabled(s, step) && GoesOn(step)
  {
    assert PlaceOk(s.pcs[m], s.owner[m].Some?, m in s.stealing, m in s.delayed, s.mover == Some(m));
    assert ShapedPc(s.pcs[m], |s.tables|);
    assert forall c: nat | c < |s.locks| :: s.locks[c].Free?;
    step := match s.pcs[m]
            case Fresh => Arrive(m, 0, true)
            case Delaying => EnterDelay(m, 0)
            case _ => Visit(m);
  }

  // ----- and only boundedly many steps are needed

  function RankSum(pcs: seq<Pc>, n: nat): nat {
    if pcs == [] then 0 else Rank(pcs[0], n) + RankSum(pcs[1..], n)
  }

  lemma {:induction false} RankSumDrops(pcs: seq<Pc>, pcs': seq<Pc>, n: nat, own: nat)
    requires |pcs'| == |pcs|
    requires forall m | 0 <= m < |pcs| :: Rank(pcs'[m], n) + (if m == own then 1 else 0) <= Rank(pcs[m], n)
    ensures RankSum(pcs', n) + (if own < |pcs| then 1 else 0) <= RankSum(pcs, n)
  {
    if pcs != [] {
      RankSumDrops(pcs[1..], pcs'[1..], n, if own == 0 then |pcs| else own - 1);
    }
  }

  /** Steps an attaching thread may still take. */
  function LockRank(l: ResLock): nat {
    if !l.Attaching? then 0
    else match l.stage
         case Entered => 4
         case SawNoStealing => 3
         case SawNoDelayed(_) => 2
         case WillLock => 1
  }

  function LockSum(locks: seq<ResLock>): nat {
    if locks == [] then 0 else LockRank(locks[0]) + LockSum(locks[1..])
  }

  lemma {:induction false} LockSumUpdate(locks: seq<ResLock>, c: nat, l: ResLock)
    requires c < |locks|
    ensures LockSum(locks[c := l]) == LockSum(locks) - LockRank(locks[c]) + LockRank(l)
  {
    if c == 0 {
      assert locks[c := l][1..] == locks[1..];
    } else {
      assert locks[c := l][1..] == locks[1..][c - 1 := l];
      LockSumUpdate(locks[1..], c - 1, l);
    }
  }

  lemma {:induction false} LockSumSame(locks: seq<ResLock>, locks': seq<ResLock>)
    requires |locks'| == |locks|
    requires forall c: nat | c < |locks| && locks'[c].Attaching? :: locks'[c] == locks[c]
    ensures LockSum(locks') <= LockSum(locks)
  {
    if locks != [] {
      LockSumSame(locks[1..], locks'[1..]);
    }
  }

  function Work(s: State): nat {
    RankSum(s.pcs, |s.tables|) + LockSum(s.locks)
  }

  /** The message whose thread takes the step, or none. */
  function Deliverer(s: State, step: Step): nat {
    match step
    case Arrive(m, _, _) => m
    case EnterDelay(m, _) => m
    case Skip(m) => m
    case Visit(m) => m
    case Park(m) => m
    case _ => |s.pcs|
  }

  lemma MessagesNearer(s: State, step: Step)
    requires Inv(s) && Enabled(s, step) && GoesOn(step)
    ensures var s' := Apply(s, step);
            && |s'.tables| == |s.tables|
            && RankSum(s'.pcs, |s.tables|) + (if Deliverer(s, step) < |s.pcs| then 1 else 0) <= RankSum(s.pcs, |s.tables|)
  {
    var s', own := Apply(s, step), Deliverer(s, step);
    if |s.pcs| > 0 {
      RankStep(s, step, 0);
    }
    InvPreserved(s, step);
    forall m: nat | m < |s.pcs|
      ensures |s'.pcs| == |s.pcs| && |s'.tables| == |s.tables|
      ensures Rank(s'.pcs[m], |s.tables|) + (if m == own then 1 else 0) <= Rank(s.pcs[m], |s.tables|)
    {
      RankStep(s, step, m);
    }
    StepLocks(s, step);
    RankSumDrops(s.pcs, s'.pcs, |s.tables|, own);
  }

  lemma AttachersNearer(s: State, step: Step)
    requires Inv(s) && Enabled(s, step) && GoesOn(step)
    ensures LockSum(Apply(s, step).locks) + (if Deliverer(s, step) < |s.pcs| then 0 else 1) <= LockSum(s.locks)
  {
    match step
    case Arrive(m, c, ready) =>
      var (t, out) := Search(s.tables[c], s.infos[m]);
      FirstLocks(AfterSearch(s, c, t, out == Missed(true)), m, out, ready);
    case Visit(m) =>
      VisitLocks(s, m);
      LockSumSame(s.locks, DoVisit(s, m).locks);
    case Park(m) =>
      MoverHoldsLock(s, m);
      LockSumUpdate(s.locks, s.pcs[m].cpt, Free);
    case EnterDelay(_, _) =>
    case Skip(_) =>
    case _ =>
      StageDrops(s, step);
  }

  lemma StageDrops(s: State, step: Step)
    requires Inv(s) && Enabled(s, step) && (step.ReadStealing? || step.ReadDelayed? || step.TestBit? || step.LockAndScan?)
    ensures LockSum(Apply(s, step).locks) + 1 <= LockSum(s.locks)
  {
    var c := step.c;
    LockSumUpdate(s.locks, c, Apply(s, step).locks[c]);
    assert Apply(s, step).locks == s.locks[c := Apply(s, step).locks[c]];
  }

  predicate AllGoOn(steps: seq<Step>) {
    forall i | 0 <= i < |steps| :: GoesOn(steps[i])
  }

  lemma {:induction false} WorkSpent(s: State, steps: seq<Step>)
    requires Inv(s) && Feasible(s, steps) && AllGoOn(steps)
    ensures |steps| <= Work(s)
    decreases |steps|
  {
    if steps != [] {
      MessagesNearer(s, steps[0]);
      AttachersNearer(s, steps[0]);
      InvPreserved(s, steps[0]);
      WorkSpent(Apply(s, steps[0]), steps[1..]);
    }
  }

  lemma {:induction false} WorkBound(pcs: seq<Pc>, locks: seq<ResLock>, n: nat)
    requires forall m | 0 <= m < |pcs| :: ShapedPc(pcs[m], n)
    ensures RankSum(pcs, n) <= |pcs| * (n + 3) && LockSum(locks) <= 4 * |locks|
    decreases |pcs| + |locks|
  {
    if pcs != [] {
      WorkBound(pcs[1..], locks, n);
      assert ShapedPc(pcs[0], n);
      assert |pcs| * (n + 3) == |pcs[1..]| * (n + 3) + (n + 3);
    } else if locks != [] {
      WorkBound(pcs, locks[1..], n);
    }
  }

  /**
    From any reachable state, deliveries and attaches under way take at most n + 3 steps per message
    and four per table, in any order, unless new attaches begin; by NoDeadlock a step is always left
    until every message is delivered, dropped or delayed.
  */
  lemma DeliveriesEnd(s0: State, prefix: seq<Step>, steps: seq<Step>)
    requires Init(s0) && WellFormed(s0) && Feasible(s0, prefix)
    requires Feasible(Exec(s0, prefix), steps) && AllGoOn(steps)
    ensures var s := Exec(s0, prefix); |steps| <= |s.pcs| * (|s.tables| + 3) + 4 * |s.tables|
  {
    InitInv(s0);
    ExecInv(s0, prefix);
    DeliveriesEndFrom(Exec(s0, prefix), steps);
  }

  lemma DeliveriesEndFrom(s: State, steps: seq<Step>)
    requires Inv(s) && Feasible(s, steps) && AllGoOn(steps)
    ensures |steps| <= |s.pcs| * (|s.tables| + 3) + 4 * |s.tables|
  {
    WorkSpent(s, steps);
    WorkBound(s.pcs, s.locks, |s.tables|);
  }
}
