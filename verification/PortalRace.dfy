/**
  A concrete execution of the portal protocol that misses a wakeup: two tables, each with a
  descriptor that does not want the message; while the message is in transit a third descriptor,
  which wants it, is attached to a bucket whose bit is clear.
*/
module PortalRace {
  import opened Collections
  import opened Matching
  import opened MatchTables
  import opened QueueScan
  import opened PortalProtocol
  import opened PortalSafety
  import opened PortalTheorems
  import opened PortalProgress
  import PortalMaps

  const PUT := Info(1, 0, 0, true, 0, 0)
  const OTHER := Me(0, 2, NID_ANY, PID_ANY, false)
  const WANTED := Me(1, 2, NID_ANY, PID_ANY, false)

  function Buffer(id: nat): Md {
    Md(id, true, false, false, false, false, 0, 16, 0, THRESH_INF, false)
  }

  /** A table with the given entries in the ignore-bits bucket and nothing elsewhere. */
  function Only(es: seq<Entry>, bit: bool): Table {
    Table(seq(BUCKETS, _ => [])[IGNORE := es], seq(BUCKETS, _ => true)[IGNORE := bit], !bit)
  }

  function Start(): State {
    State([PUT], [Fresh], [None], [Only([], true), Only([], true)], [Free, Free], [], true, [], [], None, 0, {}, map[], {})
  }

  lemma Criteria(id: nat)
    ensures !Takes(Entry(OTHER, Some(Buffer(id))), PUT) && !EntrySpent(Entry(OTHER, Some(Buffer(id))))
    ensures Takes(Entry(WANTED, Some(Buffer(id))), PUT)
    ensures Home(OTHER) == IGNORE && Home(WANTED) == IGNORE
  {}

  /** A table whose bucket holds a live descriptor that does not want the PUT is searched in vain. */
  lemma VainSearch(es: seq<Entry>)
    requires es != [] && es[0].md.Some? && es[0] == Entry(OTHER, Some(Buffer(es[0].md.value.id)))
    requires forall i | 1 <= i < |es| :: es[i].md.None?
    ensures Search(Only(es, false), PUT) == (Only(es, false), Missed(false))
  {
    Criteria(es[0].md.value.id);
    var t := Only(es, false);
    var q := Bucket(PUT.mbits);
    assert t.heads[IGNORE] == es && t.heads[q] == [];
    var k := FirstTaker(es, PUT);
    assert k == |es|;
    assert !AllSpent(es) by {
      assert !EntrySpent(es[0]);
    }
    assert Pass(t, IGNORE, PUT) == (t, Missed(false));
    assert !t.bits[IGNORE];
    assert Mark(t, q) == t by {
      assert t.bits[q := true] == t.bits;
    }
    assert Pass(t, q, PUT) == (t, Missed(false));
  }

  /** The steps lead from s to s'. */
  ghost predicate Leads(s: State, steps: seq<Step>, s': State) {
    WellFormed(s) && Feasible(s, steps) && Exec(s, steps) == s'
  }

  lemma {:induction false} LeadsOn(s: State, steps: seq<Step>, mid: State, more: seq<Step>, s': State)
    requires Leads(s, steps, mid) && Leads(mid, more, s')
    ensures Leads(s, steps + more, s')
    decreases |steps|
  {
    if steps == [] {
      assert steps + more == more;
    } else {
      assert (steps + more)[1..] == steps[1..] + more;
      LeadsOn(Apply(s, steps[0]), steps[1..], mid, more, s');
    }
  }

  /** One more step. */
  lemma Then(s: State, steps: seq<Step>, mid: State, step: Step)
    requires Leads(s, steps, mid) && Inv(mid) && Enabled(mid, step)
    ensures Leads(s, steps + [step], Apply(mid, step)) && Inv(Apply(mid, step))
  {
    InvPreserved(mid, step);
    assert [step][1..] == [];
    assert Feasible(Apply(mid, step), []);
    LeadsOn(s, steps, mid, [step], Apply(mid, step));
  }

  /** A thread is attaching md at entry k of table c's ignore-bits bucket. */
  function At(s: State, c: nat, k: nat, md: Md, stage: Stage): State
    requires c < |s.locks|
  {
    s.(locks := s.locks[c := Attaching(stage, IGNORE, k, md)], nextId := s.nextId + 1)
  }

  ghost predicate CanAttach(s: State, c: nat, k: nat, md: Md) {
    && Inv(s) && c < |s.tables| && s.locks[c].Free? && s.stealing == [] && s.delayed == []
    && k < |s.tables[c].heads[IGNORE]| && s.tables[c].heads[IGNORE][k].md.None? && md.id == s.nextId
  }

  /** The thread enters and finds both lists empty. */
  lemma SeesNoStealing(s: State, c: nat, k: nat, md: Md) returns (steps: seq<Step>)
    requires CanAttach(s, c, k, md)
    ensures var s' := At(s, c, k, md, SawNoStealing); Leads(s, steps, s') && Inv(s')
  {
    assert Feasible(s, []);
    Then(s, [], s, BeginAttach(c, IGNORE, k, md));
    var s1 := At(s, c, k, md, Entered);
    assert s1 == Apply(s, BeginAttach(c, IGNORE, k, md));
    steps := [] + [BeginAttach(c, IGNORE, k, md)];
    Then(s, steps, s1, ReadStealing(c));
    assert At(s, c, k, md, SawNoStealing) == Apply(s1, ReadStealing(c));
    steps := steps + [ReadStealing(c)];
  }

  lemma SeesNothing(s: State, c: nat, k: nat, md: Md) returns (steps: seq<Step>)
    requires CanAttach(s, c, k, md)
    ensures var s' := At(s, c, k, md, SawNoDelayed(Blind(s, s.tables[c].heads[IGNORE][k].me, md)));
            Leads(s, steps, s') && Inv(s')
  {
    steps := SeesNoStealing(s, c, k, md);
    var s2 := At(s, c, k, md, SawNoStealing);
    Then(s, steps, s2, ReadDelayed(c));
    assert Apply(s2, ReadDelayed(c)) == At(s, c, k, md, SawNoDelayed(Blind(s, s.tables[c].heads[IGNORE][k].me, md)));
    steps := steps + [ReadDelayed(c)];
  }

  /** The table once md is attached and its bit is clear. */
  function Opened(t: Table, k: nat, md: Md): Table
    requires Shaped(t) && k < |t.heads[IGNORE]|
  {
    Settled(t, IGNORE, k, md).(bits := t.bits[IGNORE := false], enabled := true)
  }

  /** Attaching to a quiet portal: the bit is set, so the thread scans two empty lists. */
  lemma QuietAttach(s: State, c: nat, k: nat, md: Md) returns (steps: seq<Step>)
    requires CanAttach(s, c, k, md) && s.mover.None? && s.tables[c].bits[IGNORE] && !s.tables[c].enabled
    ensures var s' := s.(tables := s.tables[c := Opened(s.tables[c], k, md)],
                         maps := PortalMaps.Insert(s.maps, c), nextId := s.nextId + 1);
            Leads(s, steps, s') && Inv(s')
  {
    steps := SeesNothing(s, c, k, md);
    var s3 := At(s, c, k, md, SawNoDelayed(Blind(s, s.tables[c].heads[IGNORE][k].me, md)));
    Then(s, steps, s3, TestBit(c));
    assert At(s, c, k, md, WillLock) == Apply(s3, TestBit(c));
    steps := QuietScan(s, steps + [TestBit(c)], c, k, md);
  }

  lemma QuietScan(s: State, before: seq<Step>, c: nat, k: nat, md: Md) returns (steps: seq<Step>)
    requires CanAttach(s, c, k, md) && s.mover.None? && !s.tables[c].enabled
    requires Leads(s, before, At(s, c, k, md, WillLock)) && Inv(At(s, c, k, md, WillLock))
    ensures var s' := s.(tables := s.tables[c := Opened(s.tables[c], k, md)],
                         maps := PortalMaps.Insert(s.maps, c), nextId := s.nextId + 1);
            Leads(s, steps, s') && Inv(s')
  {
    var s1 := At(s, c, k, md, WillLock);
    Then(s, before, s1, LockAndScan(c));
    steps := before + [LockAndScan(c)];
    EmptyScan(s1, c, md);
    assert s1.locks[c := Free] == s.locks;
  }

  lemma EmptyScan(s: State, c: nat, md: Md)
    requires WellFormed(s) && c < |s.tables| && s.stealing == [] && s.delayed == []
    requires s.locks[c].Attaching? && s.locks[c].md == md && s.locks[c].p < BUCKETS && !s.tables[c].enabled
    ensures var p, k := s.locks[c].p, s.locks[c].k;
            DoScan(s, c) == s.(
              tables := s.tables[c := Settled(s.tables[c], p, k, md).(
                                   bits := s.tables[c].bits[p := false], enabled := true)],
              maps := PortalMaps.Insert(s.maps, c), locks := s.locks[c := Free])
  {
    assert DoScan(s, c).owner == s.owner;
    assert DoScan(s, c).pcs == s.pcs;
  }

  function Ready(): State {
    Start().(tables := [Only([Entry(OTHER, Some(Buffer(0))), Entry(WANTED, None)], false),
                        Only([Entry(OTHER, Some(Buffer(1)))], false)],
             maps := [0, 1], nextId := 2)
  }

  lemma OnlyAdd(es: seq<Entry>, e: Entry)
    ensures var t := Only(es, true);
            t.(heads := t.heads[IGNORE := t.heads[IGNORE] + [e]]) == Only(es + [e], true)
  {}

  lemma OnlyOpened(es: seq<Entry>, k: nat, md: Md)
    requires k < |es|
    ensures Opened(Only(es, true), k, md) == Only(es[k := es[k].(md := Some(md))], false)
  {
    var t := Only(es, true);
    assert t.heads[IGNORE] == es;
    assert Opened(t, k, md).heads == Only(es[k := es[k].(md := Some(md))], false).heads;
    assert Opened(t, k, md).bits == Only(es, false).bits;
  }

  /** Two tables, no descriptors. */
  function Bare(es0: seq<Entry>, es1: seq<Entry>): State {
    Start().(tables := [Only(es0, true), Only(es1, true)])
  }

  lemma AddTo(es0: seq<Entry>, es1: seq<Entry>, me: Me)
    requires Home(me) == IGNORE && Inv(Bare(es0, es1))
    ensures Apply(Bare(es0, es1), AddEntry(0, me, true)) == Bare(es0 + [Entry(me, None)], es1)
    ensures Apply(Bare(es0, es1), AddEntry(1, me, true)) == Bare(es0, es1 + [Entry(me, None)])
  {
    var s, e := Bare(es0, es1), Entry(me, None);
    OnlyAdd(es0, e);
    OnlyAdd(es1, e);
    assert s.tables[0 := Only(es0 + [e], true)] == [Only(es0 + [e], true), Only(es1, true)];
    assert s.tables[1 := Only(es1 + [e], true)] == [Only(es0, true), Only(es1 + [e], true)];
  }

  lemma ThenAdd(steps: seq<Step>, es0: seq<Entry>, es1: seq<Entry>, me: Me)
    requires Leads(Start(), steps, Bare(es0, es1)) && Inv(Bare(es0, es1)) && Home(me) == IGNORE
    ensures Leads(Start(), steps + [AddEntry(0, me, true)], Bare(es0 + [Entry(me, None)], es1))
    ensures Leads(Start(), steps + [AddEntry(1, me, true)], Bare(es0, es1 + [Entry(me, None)]))
    ensures Inv(Bare(es0 + [Entry(me, None)], es1)) && Inv(Bare(es0, es1 + [Entry(me, None)]))
  {
    AddTo(es0, es1, me);
    Then(Start(), steps, Bare(es0, es1), AddEntry(0, me, true));
    Then(Start(), steps, Bare(es0, es1), AddEntry(1, me, true));
  }

  lemma StartOk()
    ensures Bare([], []) == Start() && Init(Start()) && Inv(Start()) && Leads(Start(), [], Start())
  {
    InitInv(Start());
    assert Feasible(Start(), []);
  }

  /** Entries for two descriptors that do not want the message, and one that does. */
  lemma ReachOne() returns (steps: seq<Step>)
    ensures Init(Start()) && Leads(Start(), steps, Bare([Entry(OTHER, None)], [])) && Inv(Bare([Entry(OTHER, None)], []))
  {
    StartOk();
    Criteria(0);
    ThenAdd([], [], [], OTHER);
    assert [] + [Entry(OTHER, None)] == [Entry(OTHER, None)];
    steps := [] + [AddEntry(0, OTHER, true)];
  }

  lemma ReachTwo() returns (steps: seq<Step>)
    ensures var s := Bare([Entry(OTHER, None), Entry(WANTED, None)], []);
            Init(Start()) && Leads(Start(), steps, s) && Inv(s)
  {
    var a, b := Entry(OTHER, None), Entry(WANTED, None);
    steps := ReachOne();
    Criteria(0);
    ThenAdd(steps, [a], [], WANTED);
    assert [a] + [b] == [a, b];
    steps := steps + [AddEntry(0, WANTED, true)];
  }

  lemma ReachBare() returns (steps: seq<Step>)
    ensures var s := Bare([Entry(OTHER, None), Entry(WANTED, None)], [Entry(OTHER, None)]);
            Init(Start()) && Leads(Start(), steps, s) && Inv(s)
  {
    steps := ReachTwo();
    Criteria(0);
    ThenAdd(steps, [Entry(OTHER, None), Entry(WANTED, None)], [], OTHER);
    assert [] + [Entry(OTHER, None)] == [Entry(OTHER, None)];
    steps := steps + [AddEntry(1, OTHER, true)];
  }

  /** As Ready, but nothing is attached to table 1 yet. */
  function Half(): State {
    Ready().(tables := [Ready().tables[0], Only([Entry(OTHER, None)], true)], maps := [0], nextId := 1)
  }

  lemma OpenFirst() returns (steps: seq<Step>)
    requires Inv(Bare([Entry(OTHER, None), Entry(WANTED, None)], [Entry(OTHER, None)]))
    ensures Leads(Bare([Entry(OTHER, None), Entry(WANTED, None)], [Entry(OTHER, None)]), steps, Half())
    ensures Inv(Half())
  {
    var es := [Entry(OTHER, None), Entry(WANTED, None)];
    var s := Bare(es, [Entry(OTHER, None)]);
    steps := QuietAttach(s, 0, 0, Buffer(0));
    OnlyOpened(es, 0, Buffer(0));
    assert es[0 := es[0].(md := Some(Buffer(0)))] == [Entry(OTHER, Some(Buffer(0))), Entry(WANTED, None)];
    assert s.tables[0 := Half().tables[0]] == Half().tables;
    assert PortalMaps.Insert([], 0) == [0];
  }

  lemma OpenSecond() returns (steps: seq<Step>)
    requires Inv(Half())
    ensures Leads(Half(), steps, Ready()) && Inv(Ready())
  {
    var es := [Entry(OTHER, None)];
    var s := Half();
    steps := QuietAttach(s, 1, 0, Buffer(1));
    OnlyOpened(es, 0, Buffer(1));
    assert es[0 := es[0].(md := Some(Buffer(1)))] == [Entry(OTHER, Some(Buffer(1)))];
    assert s.tables[1 := Ready().tables[1]] == Ready().tables;
    assert PortalMaps.Insert([], 1) == [1];
    assert PortalMaps.Insert([0], 1) == [0, 1];
  }

  /** One descriptor that does not want the message is attached to each table. */
  lemma ReachReady() returns (steps: seq<Step>)
    ensures Init(Start()) && Leads(Start(), steps, Ready()) && Inv(Ready())
  {
    steps := ReachBare();
    var more := OpenFirst();
    LeadsOn(Start(), steps, Bare([Entry(OTHER, None), Entry(WANTED, None)], [Entry(OTHER, None)]), more, Half());
    steps := steps + more;
    more := OpenSecond();
    LeadsOn(Start(), steps, Half(), more, Ready());
    steps := steps + more;
  }

  function Transit(): State {
    Ready().(pcs := [Moving(1)], mover := Some(0), locks := [Free, Mover])
  }

  /** Neither table has a taker for the message. */
  lemma VainSearches(s: State, c: nat)
    requires s.tables == Ready().tables && s.infos == [PUT] && c < 2
    ensures Search(s.tables[c], s.infos[0]) == (s.tables[c], Missed(false))
    ensures AfterSearch(s, c, s.tables[c], false) == s
  {
    VainSearch([Entry(OTHER, Some(Buffer(0))), Entry(WANTED, None)]);
    VainSearch([Entry(OTHER, Some(Buffer(1)))]);
    assert s.tables[c := s.tables[c]] == s.tables;
  }

  lemma FirstVisit(s: State)
    requires s == Ready().(pcs := [Stealing(0, 0)]) && Inv(s)
    ensures Enabled(s, Visit(0)) && Apply(s, Visit(0)) == Ready().(pcs := [Stealing(0, 1)], stealing := [0])
  {
    VainSearches(s, 0);
    assert Round(0, 0, 2) == 0;
    assert Queue(s, 0, 0) == [0];
  }

  lemma SecondVisit(s: State)
    requires s == Ready().(pcs := [Stealing(0, 1)], stealing := [0]) && Inv(s)
    ensures Enabled(s, Visit(0)) && Apply(s, Visit(0)) == Transit()
  {
    VainSearches(s, 1);
    assert Round(0, 1, 2) == 1;
    assert Queue(s, 0, 1) == [0];
    assert Minus([0], {0}) == [];
  }

  lemma Arrival(s: State)
    requires s == Ready() && Inv(s)
    ensures Enabled(s, Arrive(0, 0, true)) && Apply(s, Arrive(0, 0, true)) == Ready().(pcs := [Delaying])
  {
    VainSearches(s, 0);
  }

  /** The message finds no taker in the first table and enters the stealing loop. */
  lemma ReachStealing() returns (steps: seq<Step>)
    ensures var s := Ready().(pcs := [Stealing(0, 0)]);
            Init(Start()) && Leads(Start(), steps, s) && Inv(s)
  {
    steps := ReachReady();
    Arrival(Ready());
    Then(Start(), steps, Ready(), Arrive(0, 0, true));
    steps := steps + [Arrive(0, 0, true)];
    var s1 := Ready().(pcs := [Delaying]);
    Then(Start(), steps, s1, EnterDelay(0, 0));
    steps := steps + [EnterDelay(0, 0)];
    assert Apply(s1, EnterDelay(0, 0)) == Ready().(pcs := [Stealing(0, 0)]);
  }

  /** It finds none in either table and is taken off the stealing list. */
  lemma ReachTransit() returns (steps: seq<Step>)
    ensures Init(Start()) && Leads(Start(), steps, Transit()) && Inv(Transit())
  {
    steps := ReachStealing();
    var s2 := Ready().(pcs := [Stealing(0, 0)]);
    FirstVisit(s2);
    Then(Start(), steps, s2, Visit(0));
    var s3 := Ready().(pcs := [Stealing(0, 1)], stealing := [0]);
    steps := steps + [Visit(0)];
    SecondVisit(s3);
    Then(Start(), steps, s3, Visit(0));
    steps := steps + [Visit(0)];
  }

  /** A thread about to leave without having seen the message in transit that it wants. */
  lemma RaceReachable() returns (s0: State, prefix: seq<Step>)
    ensures Init(s0) && WellFormed(s0) && Feasible(s0, prefix)
    ensures Waiting(Exec(s0, prefix), 0) && WillLeave(Exec(s0, prefix), 0)
    ensures var s := Exec(s0, prefix); s.mover == Some(0) && s.locks[0].stage.blind == Some(0) && s.locks[0].md.id == 2
  {
    s0 := Start();
    prefix := ReachTransit();
    var s := Transit();
    Criteria(2);
    assert CanAttach(s, 0, 1, Buffer(2));
    var more := SeesNothing(s, 0, 1, Buffer(2));
    LeadsOn(s0, prefix, s, more, At(s, 0, 1, Buffer(2), SawNoDelayed(Some(0))));
    prefix := prefix + more;
  }

  /** The delivery in transit there has not returned. */
  lemma NotReturned(s: State, m: nat)
    requires Inv(s) && s.mover == Some(m) && m < |s.pcs|
    ensures !Done(s.pcs[m]) && !s.pcs[m].Parked?
  {
    assert PlaceOk(s.pcs[m], s.owner[m].Some?, m in s.stealing, m in s.delayed, s.mover == Some(m));
  }

  /** In that state some thread can go on, and such steps come to an end. */
  lemma RaceGoesOn() returns (s0: State, prefix: seq<Step>, step: Step)
    ensures Init(s0) && WellFormed(s0) && Feasible(s0, prefix)
    ensures Enabled(Exec(s0, prefix), step) && GoesOn(step) && Feasible(Exec(s0, prefix), [step])
  {
    s0, prefix := RaceReachable();
    step := GoOn(s0, prefix, 0);
    DeliveriesEnd(s0, prefix, [step]);
  }

  lemma GoOn(s0: State, prefix: seq<Step>, m: nat) returns (step: Step)
    requires Init(s0) && WellFormed(s0) && Feasible(s0, prefix) && Waiting(Exec(s0, prefix), m)
    requires Exec(s0, prefix).mover == Some(m)
    ensures Enabled(Exec(s0, prefix), step) && GoesOn(step) && Feasible(Exec(s0, prefix), [step])
  {
    InitInv(s0);
    ExecInv(s0, prefix);
    var s := Exec(s0, prefix);
    NotReturned(s, m);
    step := NoDeadlock(s0, prefix, m);
    InvPreserved(s, step);
    OneStep(s, step);
  }

  /** The protocol, as the code has it, can miss a wakeup. */
  lemma WakeupCanBeMissed() returns (s0: State, steps: seq<Step>)
    ensures Init(s0) && WellFormed(s0) && Feasible(s0, steps)
    ensures MissedWakeup(Exec(s0, steps), 0, 0, 2)
  {
    s0, steps := RaceReachable();
    RaceMissesWakeup(s0, steps, 0, 0);
    var s := Exec(s0, steps);
    var last := Leaving(s, 0, 0);
    LeadsOn(s0, steps, s, last, Exec(s, last));
    steps := steps + last;
  }
}
