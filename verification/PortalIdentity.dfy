/**
  Descriptors keep identities of their own: the one a thread is attaching is not yet known to any
  entry of its table.
*/
module PortalIdentity {
  import opened Collections
  import opened Matching
  import opened MatchTables
  import opened PortalProtocol
  import opened PortalSafety

  /** Identities in use are below nextId, and an attaching thread's is not in its table yet. */
  ghost predicate FreshIds(s: State)
    requires WellFormed(s)
  {
    && (forall c: nat, id: nat, info | c < |s.tables| && TakenBy(s.tables[c], id, info) :: id < s.nextId)
    && (forall c: nat | c < |s.locks| && s.locks[c].Attaching? :: NewAt(s, c))
  }

  ghost predicate NewAt(s: State, c: nat)
    requires WellFormed(s) && c < |s.locks| && s.locks[c].Attaching?
  {
    s.locks[c].md.id < s.nextId && forall info :: !TakenBy(s.tables[c], s.locks[c].md.id, info)
  }

  /** The step ends the attach at table c with the descriptor in the table. */
  predicate Joins(s: State, step: Step, c: nat)
    requires WellFormed(s) && Enabled(s, step)
  {
    (step == TestBit(c) && !s.tables[c].bits[s.locks[c].p]) || step == LockAndScan(c)
  }

  lemma AddEntryTakes(s: State, step: Step, id: nat, info: Info)
    requires Inv(s) && step.AddEntry? && Enabled(s, step) && TakenBy(Apply(s, step).tables[step.c], id, info)
    ensures TakenBy(s.tables[step.c], id, info)
  {
    BareEntryTakes(s.tables[step.c], Home(step.me), step.me, step.atTail, id, info);
  }

  lemma BareEntryTakes(t: Table, p: nat, me: Me, atTail: bool, id: nat, info: Info)
    requires Shaped(t) && p < BUCKETS
    requires var e := Entry(me, None);
             TakenBy(t.(heads := t.heads[p := if atTail then t.heads[p] + [e] else [e] + t.heads[p]]), id, info)
    ensures TakenBy(t, id, info)
  {
    var e := Entry(me, None);
    BucketTakes(t, p, if atTail then t.heads[p] + [e] else [e] + t.heads[p], e, id, info);
  }

  lemma UnlinkTakes(s: State, step: Step, id: nat, info: Info)
    requires Inv(s) && step.Unlink? && Enabled(s, step) && TakenBy(Apply(s, step).tables[step.c], id, info)
    ensures TakenBy(s.tables[step.c], id, info)
  {
    var Unlink(c, p, k, dropEntry) := step;
    var t := s.tables[c];
    var e := t.heads[p][k].(md := None);
    BucketTakes(t, p, if dropEntry then t.heads[p][..k] + t.heads[p][k + 1..] else t.heads[p][k := e], e, id, info);
  }

  lemma SearchTakes(s: State, c: nat, info: Info, id: nat, other: Info)
    requires Inv(s) && c < |s.tables|
    requires var (t, out) := Search(s.tables[c], info);
             TakenBy(AfterSearch(s, c, t, out == Missed(true)).tables[c], id, other)
    ensures TakenBy(s.tables[c], id, other)
  {
    var (t, out) := Search(s.tables[c], info);
    var t' := AfterSearch(s, c, t, out == Missed(true)).tables[c];
    assert t'.heads == t.heads;
    assert TakenBy(t, id, other);
    SearchMonotone(s.tables[c], info, id, other);
  }

  /** The tables after the step are those after a search of table c, or as they were. */
  ghost predicate Searched(s: State, s': State, c: nat, info: Info)
    requires WellFormed(s) && c < |s.tables|
  {
    var (t, out) := Search(s.tables[c], info);
    s'.tables == s.tables || s'.tables == AfterSearch(s, c, t, out == Missed(true)).tables
  }

  lemma SearchedTakes(s: State, s': State, a: nat, sought: Info, c: nat, id: nat, info: Info)
    requires Inv(s) && a < |s.tables| && Searched(s, s', a, sought)
    requires c < |s'.tables| == |s.tables| && TakenBy(s'.tables[c], id, info)
    ensures TakenBy(s.tables[c], id, info)
  {
    if c == a && s'.tables != s.tables {
      SearchTakes(s, a, sought, id, info);
    }
  }

  lemma ArriveSearches(s: State, step: Step)
    requires Inv(s) && step.Arrive? && Enabled(s, step)
    ensures Searched(s, Apply(s, step), step.c, s.infos[step.m])
  {
    var (t, out) := Search(s.tables[step.c], s.infos[step.m]);
    FirstTables(AfterSearch(s, step.c, t, out == Missed(true)), step.m, out, step.ready);
  }

  lemma FirstTables(s: State, m: nat, out: Outcome, ready: bool)
    requires m < |s.pcs| == |s.owner|
    ensures AfterFirst(s, m, out, ready).tables == s.tables
  {
  }

  lemma VisitSearches(s: State, m: nat)
    requires Inv(s) && CanVisit(s, m)
    ensures Searched(s, DoVisit(s, m), Round(s.pcs[m].first, s.pcs[m].i, |s.tables|), s.infos[m])
  {
    var c := Round(s.pcs[m].first, s.pcs[m].i, |s.tables|);
    if m in Queue(s, m, s.pcs[m].i) {
      var (t, out) := Search(s.tables[c], s.infos[m]);
      RoundTables(AfterSearch(s, c, t, out == Missed(true)), m, c, out);
    }
  }

  lemma RoundTables(s: State, m: nat, c: nat, out: Outcome)
    requires m < |s.pcs| == |s.owner| && s.pcs[m].Stealing? && c < |s.locks|
    ensures AfterRound(s, m, c, out).tables == s.tables
  {
  }

  lemma ScanTakes(s: State, c: nat, id: nat, info: Info)
    requires Inv(s) && Enabled(s, LockAndScan(c)) && TakenBy(Apply(s, LockAndScan(c)).tables[c], id, info)
    ensures TakenBy(s.tables[c], id, info) || id == s.locks[c].md.id
  {
    var Attaching(_, p, k, md) := s.locks[c];
    var (r1, r2) := ScanBoth(s.tables[c].heads[p][k].me, md, s);
    ScanBothSpec(s, s.tables[c].heads[p][k].me, md);
    SettledAfterScanTakes(s.tables[c], p, k, r2, id, info);
  }

  lemma TestBitTakes(s: State, a: nat, c: nat, id: nat, info: Info)
    requires Inv(s) && Enabled(s, TestBit(a)) && c < |s.tables|
    requires TakenBy(DoTestBit(s, a).tables[c], id, info)
    ensures TakenBy(s.tables[c], id, info) || (Joins(s, TestBit(a), c) && id == s.locks[c].md.id)
  {
    var Attaching(_, p, k, md) := s.locks[a];
    if a == c && !s.tables[a].bits[p] {
      SettledTakes(s.tables[a], p, k, md, id, info);
    }
  }

  /** Steps that leave the tables alone. */
  lemma OtherTables(s: State, step: Step)
    requires WellFormed(s) && Enabled(s, step)
    requires !step.AddEntry? && !step.Unlink? && !step.Arrive? && !step.Visit? && !step.TestBit? && !step.LockAndScan?
    ensures Apply(s, step).tables == s.tables
  {
  }

  /** Steps on the entries or the descriptor of one table leave the others alone. */
  lemma OneTable(s: State, step: Step, c: nat)
    requires WellFormed(s) && Enabled(s, step) && (step.AddEntry? || step.Unlink? || step.LockAndScan?)
    requires c < |s.tables| && c != step.c
    ensures c < |Apply(s, step).tables| && Apply(s, step).tables[c] == s.tables[c]
  {
  }

  /** Table c takes nothing new but with the descriptor that joins it. */
  ghost predicate NothingNew(s: State, step: Step, c: nat, id: nat, info: Info)
    requires WellFormed(s) && Enabled(s, step) && c < |s.tables| && c < |s.locks|
  {
    TakenBy(s.tables[c], id, info) || (Joins(s, step, c) && id == s.locks[c].md.id)
  }

  /** Steps on the entries or the descriptor of one table. */
  lemma EntryStepTakes(s: State, step: Step, c: nat, id: nat, info: Info)
    requires Inv(s) && Enabled(s, step) && (step.AddEntry? || step.Unlink? || step.LockAndScan?)
    requires c < |Apply(s, step).tables| == |s.tables| && TakenBy(Apply(s, step).tables[c], id, info)
    ensures NothingNew(s, step, c, id, info)
  {
    if step.c != c {
      OneTable(s, step, c);
    } else {
      match step
      case AddEntry(_, _, _) => AddEntryTakes(s, step, id, info);
      case Unlink(_, _, _, _) => UnlinkTakes(s, step, id, info);
      case LockAndScan(_) => ScanTakes(s, c, id, info);
    }
  }

  /** Steps that search a table. */
  lemma SearchStepTakes(s: State, step: Step, c: nat, id: nat, info: Info)
    requires Inv(s) && Enabled(s, step) && (step.Arrive? || step.Visit?)
    requires c < |Apply(s, step).tables| == |s.tables| && TakenBy(Apply(s, step).tables[c], id, info)
    ensures TakenBy(s.tables[c], id, info)
  {
    match step
    case Arrive(m, a, _) =>
      ArriveSearches(s, step);
      SearchedTakes(s, Apply(s, step), a, s.infos[m], c, id, info);
    case Visit(m) =>
      VisitSearches(s, m);
      SearchedTakes(s, Apply(s, step), Round(s.pcs[m].first, s.pcs[m].i, |s.tables|), s.infos[m], c, id, info);
  }

  lemma StepTakes(s: State, step: Step, c: nat, id: nat, info: Info)
    requires Inv(s) && Enabled(s, step) && c < |Apply(s, step).tables| == |s.tables|
    requires TakenBy(Apply(s, step).tables[c], id, info)
    ensures NothingNew(s, step, c, id, info)
  {
    if step.AddEntry? || step.Unlink? || step.LockAndScan? {
      EntryStepTakes(s, step, c, id, info);
    } else if step.Arrive? || step.Visit? {
      SearchStepTakes(s, step, c, id, info);
    } else if step.TestBit? {
      TestBitTakes(s, step.c, c, id, info);
    } else {
      OtherTables(s, step);
    }
  }

  /** The thread attaches descriptor md at entry k of bucket p. */
  predicate SameAttach(l: ResLock, p: nat, k: nat, md: Md) {
    l.Attaching? && l.p == p && l.k == k && l.md == md
  }

  /** What a step does to the holder of a lock and to the counter of identities. */
  ghost predicate LocksMove(s: State, s': State, step: Step) {
    && |s'.locks| == |s.locks| && s.nextId <= s'.nextId
    && (forall c: nat | c < |s'.locks| && s'.locks[c].Attaching? ::
          || (step.BeginAttach? && step.c == c && SameAttach(s'.locks[c], step.p, step.k, step.md) &&
              step.md.id == s.nextId && s'.nextId == s.nextId + 1)
          || (s.locks[c].Attaching? && SameAttach(s'.locks[c], s.locks[c].p, s.locks[c].k, s.locks[c].md) && step != LockAndScan(c)))
  }

  /** The steps of an attaching thread. */
  lemma AttacherLocks(s: State, step: Step)
    requires WellFormed(s) && Enabled(s, step)
    requires step.BeginAttach? || step.ReadStealing? || step.ReadDelayed?
    ensures LocksMove(s, Apply(s, step), step)
  {
  }

  lemma LeavingLocks(s: State, c: nat)
    requires WellFormed(s)
    ensures Enabled(s, TestBit(c)) ==> LocksMove(s, Apply(s, TestBit(c)), TestBit(c))
    ensures Enabled(s, LockAndScan(c)) ==> LocksMove(s, Apply(s, LockAndScan(c)), LockAndScan(c))
  {
  }

  /** Steps on entries, and those of a delivering thread that searches nothing. */
  lemma OtherLocks(s: State, step: Step)
    requires WellFormed(s) && Enabled(s, step)
    requires step.AddEntry? || step.Unlink? || step.EnterDelay? || step.Skip? || step.Park? || step.DropDelayed? || step.SetLazy?
    ensures LocksMove(s, Apply(s, step), step)
  {
  }

  lemma StepLocks(s: State, step: Step)
    requires Inv(s) && Enabled(s, step)
    ensures LocksMove(s, Apply(s, step), step)
  {
    if step.Arrive? {
      ArriveLocks(s, step);
    } else if step.Visit? {
      VisitLocks(s, step.m);
    } else if step.BeginAttach? || step.ReadStealing? || step.ReadDelayed? {
      AttacherLocks(s, step);
    } else if step.TestBit? || step.LockAndScan? {
      LeavingLocks(s, step.c);
    } else {
      OtherLocks(s, step);
    }
  }

  lemma ArriveLocks(s: State, step: Step)
    requires WellFormed(s) && step.Arrive? && Enabled(s, step)
    ensures LocksMove(s, Apply(s, step), step)
  {
    var (t, out) := Search(s.tables[step.c], s.infos[step.m]);
    FirstLocks(AfterSearch(s, step.c, t, out == Missed(true)), step.m, out, step.ready);
  }

  lemma FirstLocks(s: State, m: nat, out: Outcome, ready: bool)
    requires m < |s.pcs| == |s.owner|
    ensures var s' := AfterFirst(s, m, out, ready); s'.locks == s.locks && s'.nextId == s.nextId
  {
  }

  lemma VisitLocks(s: State, m: nat)
    requires Inv(s) && CanVisit(s, m)
    ensures var s' := DoVisit(s, m);
            && |s'.locks| == |s.locks| && s'.nextId == s.nextId
            && (forall c: nat | c < |s.locks| && s'.locks[c].Attaching? :: s'.locks[c] == s.locks[c])
  {
    var c := Round(s.pcs[m].first, s.pcs[m].i, |s.tables|);
    if m in Queue(s, m, s.pcs[m].i) {
      var (t, out) := Search(s.tables[c], s.infos[m]);
      RoundLocks(AfterSearch(s, c, t, out == Missed(true)), m, c, out);
    }
  }

  lemma RoundLocks(s: State, m: nat, c: nat, out: Outcome)
    requires m < |s.pcs| == |s.owner| && s.pcs[m].Stealing? && c < |s.locks|
    ensures var s' := AfterRound(s, m, c, out);
            && |s'.locks| == |s.locks| && s'.nextId == s.nextId
            && (forall a: nat | a < |s.locks| && s'.locks[a].Attaching? :: s'.locks[a] == s.locks[a])
  {
  }

  /** A thread that leaves without scanning lets go of its lock. */
  lemma JoinsEnds(s: State, step: Step, c: nat)
    requires Inv(s) && Enabled(s, step) && c < |s.locks| && Joins(s, step, c)
    ensures c < |Apply(s, step).locks| && Apply(s, step).locks[c].Free?
  {
  }

  lemma IdsPreserved(s: State, step: Step)
    requires Inv(s) && FreshIds(s) && Enabled(s, step)
    ensures WellFormed(Apply(s, step)) && FreshIds(Apply(s, step))
  {
    InvPreserved(s, step);
    StepLocks(s, step);
    var s' := Apply(s, step);
    assert |s'.tables| == |s'.locks| == |s.locks| == |s.tables|;
    forall c: nat, id: nat, info | c < |s'.tables| && TakenBy(s'.tables[c], id, info)
      ensures id < s'.nextId
    {
      IdsBelow(s, step, c, id, info);
    }
    forall c: nat | c < |s'.locks| && s'.locks[c].Attaching?
      ensures NewAt(s', c)
    {
      StillNew(s, step, c);
    }
  }

  lemma IdsBelow(s: State, step: Step, c: nat, id: nat, info: Info)
    requires Inv(s) && FreshIds(s) && Enabled(s, step) && WellFormed(Apply(s, step))
    requires LocksMove(s, Apply(s, step), step) && c < |Apply(s, step).tables| == |s.tables| && TakenBy(Apply(s, step).tables[c], id, info)
    ensures id < Apply(s, step).nextId
  {
    StepTakes(s, step, c, id, info);
    assert s.locks[c].Attaching? ==> NewAt(s, c);
  }

  lemma StillNew(s: State, step: Step, c: nat)
    requires Inv(s) && FreshIds(s) && Enabled(s, step) && WellFormed(Apply(s, step))
    requires LocksMove(s, Apply(s, step), step) && c < |Apply(s, step).locks| && Apply(s, step).locks[c].Attaching?
    ensures NewAt(Apply(s, step), c)
  {
    var s' := Apply(s, step);
    assert s.locks[c].Attaching? ==> NewAt(s, c);
    forall info
      ensures !TakenBy(s'.tables[c], s'.locks[c].md.id, info)
    {
      if TakenBy(s'.tables[c], s'.locks[c].md.id, info) {
        StepTakes(s, step, c, s'.locks[c].md.id, info);
        if Joins(s, step, c) {
          JoinsEnds(s, step, c);
        }
      }
    }
  }

  lemma {:induction false} ExecIds(s: State, steps: seq<Step>)
    requires Inv(s) && FreshIds(s) && Feasible(s, steps)
    ensures FreshIds(Exec(s, steps))
    decreases |steps|
  {
    if steps != [] {
      InvPreserved(s, steps[0]);
      IdsPreserved(s, steps[0]);
      ExecIds(Apply(s, steps[0]), steps[1..]);
    }
  }

  lemma InitIds(s: State)
    requires Init(s) && WellFormed(s)
    ensures FreshIds(s)
  {
    forall c: nat, id: nat, info | c < |s.tables|
      ensures !TakenBy(s.tables[c], id, info)
    {
      assert forall p | 0 <= p < BUCKETS :: s.tables[c].heads[p] == [];
    }
  }
}
