/**
  The concurrent protocol of a wildcard portal on two or more partitions: threads that deliver
  incoming PUTs, steal buffers from other tables and delay messages (lnet_ptl_match_md,
  lnet_ptl_match_delay), against threads that attach descriptors (lnet_ptl_attach_md).

  One step is one critical section or one read made without the lock it would need. The section
  that moves a message from the stealing list to the delayed queue is two steps, because the
  attaching threads look at both lists without the portal lock. The lists of a table are read
  only under that table's resource lock, so a descriptor being attached joins its table when the
  attaching thread lets go of the lock.
*/
module PortalProtocol {
  import opened Collections
  import opened Matching
  import opened MatchTables
  import opened QueueScan
  import PortalMaps

  /** Where the thread delivering a message is. */
  datatype Pc =
    | Fresh                            // lnet_ptl_match_md not called, or to be called again
    | Delaying                         // first search missed; entering lnet_ptl_match_delay
    | Stealing(first: nat, i: nat)     // about to do round i of the stealing loop
    | Moving(cpt: nat)                 // off the stealing list, not yet on the delayed queue
    | Parked                           // returned: the message is on the delayed queue
    | DoneOk                           // returned: a descriptor has the message
    | DoneDrop                         // returned: dropped

  /** How far lnet_ptl_attach_md has come. */
  datatype Stage =
    | Entered
    | SawNoStealing                    // found the stealing list empty
    | SawNoDelayed(blind: Option<nat>) // then found the delayed queue empty; see ReadDelayed
    | WillLock                         // going to take the portal lock and scan both lists

  /** The resource lock of a table, with the local state of its holder. */
  datatype ResLock =
    | Free
    | Attaching(stage: Stage, p: nat, k: nat, md: Md)
    | Mover

  datatype State = State(
    infos: seq<Info>,            // the messages
    pcs: seq<Pc>,
    owner: seq<Option<nat>>,     // msg_md: the descriptor that has the message
    tables: seq<Table>,
    locks: seq<ResLock>,
    maps: seq<nat>,
    lazy: bool,
    stealing: seq<nat>,
    delayed: seq<nat>,
    mover: Option<nat>,          // the message in transit; its thread holds the portal lock
    nextId: nat,
    raced: set<(nat, nat)>,      // history: (message, descriptor) pairs that missed each other
    slices: map<nat, Slice>,     // msg_offset and msg_wanted of the messages that have a descriptor
    refused: set<nat>)           // history: messages found too big by a descriptor that accepts them

  datatype Step =
    | AddEntry(c: nat, me: Me, atTail: bool)
    | Unlink(c: nat, p: nat, k: nat, dropEntry: bool)
    | BeginAttach(c: nat, p: nat, k: nat, md: Md)
    | ReadStealing(c: nat)
    | ReadDelayed(c: nat)
    | TestBit(c: nat)
    | LockAndScan(c: nat)
    | Arrive(m: nat, c: nat, ready: bool)
    | EnterDelay(m: nat, first: nat)
    | Skip(m: nat)
    | Visit(m: nat)
    | Park(m: nat)
    | DropDelayed(which: set<nat>, clear: bool)
    | SetLazy

  // ----- the steps

  predicate ShapedLock(l: ResLock, t: Table) {
    l.Attaching? ==> l.p < |t.heads| && l.k < |t.heads[l.p]|
  }

  predicate ShapedPc(pc: Pc, n: nat) {
    (pc.Stealing? ==> pc.first < n && pc.i < n) && (pc.Moving? ==> pc.cpt < n)
  }

  predicate WellFormed(s: State) {
    && |s.tables| >= 2
    && |s.locks| == |s.tables|
    && |s.pcs| == |s.infos| == |s.owner|
    && Valid(s.stealing, s.infos)
    && Valid(s.delayed, s.infos)
    && (forall c | 0 <= c < |s.tables| :: Shaped(s.tables[c]) && ShapedLock(s.locks[c], s.tables[c]))
    && (forall m | 0 <= m < |s.pcs| :: ShapedPc(s.pcs[m], |s.tables|))
  }

  /** The table that round i of a stealing loop looks at. */
  function Round(first: nat, i: nat, n: nat): (c: nat)
    requires n > 0
    ensures c < n
  {
    (first + i) % n
  }

  predicate AllFree(s: State) {
    s.mover.None? && forall c | 0 <= c < |s.locks| :: s.locks[c].Free?
  }

  predicate CanVisit(s: State, m: nat)
    requires WellFormed(s)
  {
    m < |s.pcs| && s.pcs[m].Stealing? && s.mover.None? &&
    s.locks[Round(s.pcs[m].first, s.pcs[m].i, |s.tables|)].Free?
  }

  predicate Enabled(s: State, step: Step)
    requires WellFormed(s)
  {
    match step
    case AddEntry(c, _, _) => c < |s.locks| && s.locks[c].Free?
    case Unlink(c, p, k, _) => c < |s.locks| && s.locks[c].Free? && p < BUCKETS && k < |s.tables[c].heads[p]|
    case BeginAttach(c, p, k, md) =>
      c < |s.locks| && s.locks[c].Free? && p < BUCKETS && k < |s.tables[c].heads[p]| &&
      s.tables[c].heads[p][k].md.None? && md.id == s.nextId
    case ReadStealing(c) => c < |s.locks| && s.locks[c].Attaching? && s.locks[c].stage.Entered?
    case ReadDelayed(c) => c < |s.locks| && s.locks[c].Attaching? && s.locks[c].stage.SawNoStealing?
    case TestBit(c) => c < |s.locks| && s.locks[c].Attaching? && s.locks[c].stage.SawNoDelayed?
    case LockAndScan(c) =>
      c < |s.locks| && s.locks[c].Attaching? && s.locks[c].stage.WillLock? && s.mover.None?
    case Arrive(m, c, _) =>
      m < |s.pcs| && s.pcs[m].Fresh? && c < |s.locks| && s.locks[c].Free? &&
      // disabling the table needs the portal lock
      (Search(s.tables[c], s.infos[m]).1 == Missed(true) && s.tables[c].enabled ==> s.mover.None?)
    case EnterDelay(m, first) => m < |s.pcs| && s.pcs[m].Delaying? && first < |s.tables|
    case Skip(m) =>
      m < |s.pcs| && s.pcs[m].Stealing? && 0 < s.pcs[m].i < |s.tables| - 1 &&
      !s.tables[Round(s.pcs[m].first, s.pcs[m].i, |s.tables|)].enabled
    case Visit(m) => CanVisit(s, m)
    case Park(m) => m < |s.pcs| && s.mover == Some(m) && s.pcs[m].Moving?
    case DropDelayed(which, clear) =>
      AllFree(s) && s.lazy && (forall m | m in which :: m in s.delayed) &&
      (clear ==> forall m | m in s.delayed :: m in which)
    case SetLazy => AllFree(s)
  }

  /** Install the searched table; an exhausted table leaves the active ones. */
  function AfterSearch(s: State, c: nat, t: Table, spent: bool): State
    requires c < |s.tables|
  {
    if spent && t.enabled
    then s.(tables := s.tables[c := t.(enabled := false)], maps := PortalMaps.Remove(s.maps, c))
    else s.(tables := s.tables[c := t])
  }

  function Goto(s: State, m: nat, pc: Pc): State
    requires m < |s.pcs|
  {
    s.(pcs := s.pcs[m := pc])
  }

  /** The thread of message m has its answer. */
  function Finish(s: State, m: nat, out: Outcome): State
    requires m < |s.pcs| == |s.owner|
  {
    if out.Attached?
    then Goto(s, m, DoneOk).(owner := s.owner[m := Some(out.id)], slices := s.slices[m := Slice(out.offset, out.mlength)])
    else Goto(s, m, DoneDrop).(refused := s.refused + {m})
  }

  /** What lnet_ptl_match_md does once it has searched the first table. */
  function AfterFirst(s: State, m: nat, out: Outcome, ready: bool): State
    requires m < |s.pcs| == |s.owner|
  {
    if !out.Missed? then Finish(s, m, out)
    else if !s.lazy then Goto(s, m, DoneDrop)
    else if ready then Goto(s, m, Delaying)
    else s
  }

  function DoArrive(s: State, m: nat, c: nat, ready: bool): State
    requires WellFormed(s) && m < |s.pcs| && c < |s.tables|
  {
    var (t, out) := Search(s.tables[c], s.infos[m]);
    AfterFirst(AfterSearch(s, c, t, out == Missed(true)), m, out, ready)
  }

  /** The stealing list as round i sees it: the first round puts the message on it. */
  function Queue(s: State, m: nat, i: nat): seq<nat> {
    if i == 0 then s.stealing + [m] else s.stealing
  }

  /** What a round does with a message on the stealing list once its table c is searched. */
  function AfterRound(s: State, m: nat, c: nat, out: Outcome): State
    requires m < |s.pcs| == |s.owner| && s.pcs[m].Stealing? && c < |s.locks|
  {
    var Stealing(first, i) := s.pcs[m];
    var q := Queue(s, m, i);
    if !out.Missed? then Finish(s, m, out).(stealing := Minus(q, {m}))
    else if !s.lazy then Goto(s, m, DoneDrop).(stealing := Minus(q, {m}))
    else if i == |s.tables| - 1 || s.maps == [] || s.maps == [c]
    then Goto(s, m, Moving(c)).(stealing := Minus(q, {m}), mover := Some(m), locks := s.locks[c := Mover])
    else Goto(s, m, Stealing(first, i + 1)).(stealing := q)
  }

  /** One round of the loop in lnet_ptl_match_delay, up to the point where a message is moved. */
  function DoVisit(s: State, m: nat): State
    requires WellFormed(s) && CanVisit(s, m)
  {
    var Stealing(first, i) := s.pcs[m];
    var c := Round(first, i, |s.tables|);
    if m !in Queue(s, m, i) then Goto(s, m, if s.owner[m].None? then DoneDrop else DoneOk)
    else
      var (t, out) := Search(s.tables[c], s.infos[m]);
      AfterRound(AfterSearch(s, c, t, out == Missed(true)), m, c, out)
  }

  /** The table once the attaching thread is done with its entry. */
  function Settled(t: Table, p: nat, k: nat, md: Md): Table
    requires p < |t.heads| && k < |t.heads[p]|
  {
    t.(heads := t.heads[p := t.heads[p][k := t.heads[p][k].(md := Some(md))]])
  }

  function SettledAfterScan(t: Table, p: nat, k: nat, r: Scanned): Table
    requires Shaped(t) && p < BUCKETS && k < |t.heads[p]|
  {
    var t1 := if !r.unlinked then Settled(t, p, k, r.md)
              else if t.heads[p][k].me.unlink then t.(heads := t.heads[p := t.heads[p][..k] + t.heads[p][k + 1..]])
              else t;
    if r.spent then t1 else t1.(bits := t1.bits[p := false], enabled := true)
  }

  /** Both scans: the delayed queue is looked at only if the descriptor survives the stealing list. */
  function ScanBoth(me: Me, md: Md, s: State): (Scanned, Scanned)
    requires WellFormed(s)
  {
    ScanTwo(Offering(me, s.infos), md, s.stealing, s.delayed)
  }

  function DoScan(s: State, c: nat): State
    requires WellFormed(s) && c < |s.locks| && s.locks[c].Attaching?
  {
    var Attaching(_, p, k, md) := s.locks[c];
    var (r1, r2) := ScanBoth(s.tables[c].heads[p][k].me, md, s);
    s.(stealing := r1.rest,
       delayed := r2.rest,
       owner := seq(|s.owner|, m requires 0 <= m < |s.owner| =>
                  if m in r1.ok || m in r2.ok then Some(md.id) else s.owner[m]),
       pcs := seq(|s.pcs|, m requires 0 <= m < |s.pcs| =>
                if m in r2.ok then DoneOk else if m in r2.refused then DoneDrop else s.pcs[m]),
       tables := s.tables[c := SettledAfterScan(s.tables[c], p, k, r2)],
       maps := if r2.spent || s.tables[c].enabled then s.maps else PortalMaps.Insert(s.maps, c),
       locks := s.locks[c := Free],
       slices := s.slices + r1.slices + r2.slices,
       refused := s.refused + r1.refused + r2.refused)
  }

  function DoTestBit(s: State, c: nat): State
    requires WellFormed(s) && c < |s.locks| && s.locks[c].Attaching? && s.locks[c].stage.SawNoDelayed?
  {
    var Attaching(stage, p, k, md) := s.locks[c];
    if s.tables[c].bits[p] then s.(locks := s.locks[c := Attaching(WillLock, p, k, md)])
    else s.(tables := s.tables[c := Settled(s.tables[c], p, k, md)],
            locks := s.locks[c := Free],
            raced := s.raced + if stage.blind.Some? then {(stage.blind.value, md.id)} else {})
  }

  /** The message in transit, if the new descriptor wants it: a reader of both lists cannot see it. */
  function Blind(s: State, me: Me, md: Md): Option<nat> {
    if s.mover.Some? && s.mover.value < |s.infos| && Wants(me, md, s.infos[s.mover.value]) then s.mover else None
  }

  function SetStage(s: State, c: nat, stage: Stage): State
    requires c < |s.locks| && s.locks[c].Attaching?
  {
    s.(locks := s.locks[c := s.locks[c].(stage := stage)])
  }

  function Apply(s: State, step: Step): State
    requires WellFormed(s) && Enabled(s, step)
  {
    match step
    case AddEntry(c, me, atTail) =>
      var t := s.tables[c];
      var p := Home(me);
      var es := if atTail then t.heads[p] + [Entry(me, None)] else [Entry(me, None)] + t.heads[p];
      s.(tables := s.tables[c := t.(heads := t.heads[p := es])])
    case Unlink(c, p, k, dropEntry) =>
      var t := s.tables[c];
      var es := t.heads[p];
      var es' := if dropEntry then es[..k] + es[k + 1..] else es[k := es[k].(md := None)];
      s.(tables := s.tables[c := t.(heads := t.heads[p := es'])])
    case BeginAttach(c, p, k, md) =>
      s.(locks := s.locks[c := Attaching(Entered, p, k, md)], nextId := s.nextId + 1)
    case ReadStealing(c) => SetStage(s, c, if s.stealing == [] then SawNoStealing else WillLock)
    case ReadDelayed(c) =>
      var Attaching(_, p, k, md) := s.locks[c];
      SetStage(s, c, if s.delayed != [] then WillLock
                     else SawNoDelayed(Blind(s, s.tables[c].heads[p][k].me, md)))
    case TestBit(c) => DoTestBit(s, c)
    case LockAndScan(c) => DoScan(s, c)
    case Arrive(m, c, ready) => DoArrive(s, m, c, ready)
    case EnterDelay(m, first) => Goto(s, m, Stealing(first, 0))
    case Skip(m) => Goto(s, m, Stealing(s.pcs[m].first, s.pcs[m].i + 1))
    case Visit(m) => DoVisit(s, m)
    case Park(m) =>
      Goto(s, m, Parked).(delayed := s.delayed + [m], mover := None, locks := s.locks[s.pcs[m].cpt := Free])
    case DropDelayed(which, clear) =>
      s.(delayed := Minus(s.delayed, which),
         pcs := seq(|s.pcs|, m requires 0 <= m < |s.pcs| => if m in which then DoneDrop else s.pcs[m]),
         lazy := !clear)
    case SetLazy => s.(lazy := true)
  }

  predicate Init(s: State) {
    && |s.tables| >= 2
    && |s.locks| == |s.tables|
    && |s.pcs| == |s.infos| == |s.owner|
    && AllFree(s)
    && s.maps == [] && s.stealing == [] && s.delayed == [] && s.raced == {}
    && s.slices == map[] && s.refused == {}
    && (forall c | 0 <= c < |s.tables| ::
          Shaped(s.tables[c]) && AllBits(s.tables[c]) && !s.tables[c].enabled &&
          forall p | 0 <= p < BUCKETS :: s.tables[c].heads[p] == [])
    && (forall m | 0 <= m < |s.pcs| :: s.pcs[m].Fresh? && s.owner[m].None? && s.infos[m].put)
  }

  predicate Feasible(s: State, steps: seq<Step>)
    requires WellFormed(s)
    decreases |steps|
  {
    steps != [] ==>
      && Enabled(s, steps[0])
      && WellFormed(Apply(s, steps[0]))
      && Feasible(Apply(s, steps[0]), steps[1..])
  }

  function Exec(s: State, steps: seq<Step>): (r: State)
    requires WellFormed(s) && Feasible(s, steps)
    ensures WellFormed(r)
    decreases |steps|
  {
    if steps == [] then s else Exec(Apply(s, steps[0]), steps[1..])
  }
}
