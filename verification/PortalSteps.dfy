/**
  What the steps of the portal protocol do, said in terms of descriptors and requests: who gets a
  message and with which slice, what is left of the descriptor, and that nothing else changes.
*/
module PortalSteps {
  import opened Collections
  import opened Matching
  import opened MatchTables
  import opened QueueScan
  import opened PortalProtocol
  import opened PortalSafety
  import opened PortalIdentity
  import PortalMaps

  // ----- a message looks for a descriptor in one table

  /** Entry k of bucket p of table c decides message m: it hands out a slice, or refuses. */
  ghost predicate DecidedBy(s: State, s': State, c: nat, p: nat, k: nat, m: nat)
    requires c < |s.tables| && m < |s.infos| && FirstInLine(s.tables[c], p, k, s.infos[m])
  {
    && c < |s'.tables| && |s'.tables[c].heads| == |s.tables[c].heads| && m < |s.owner|
    && (forall q | 0 <= q < |s.tables[c].heads| && q != p :: s'.tables[c].heads[q] == s.tables[c].heads[q])
    && var e := s.tables[c].heads[p][k];
       match TryMatch(e.me, e.md.value, s.infos[m])
       case Match(md, offset, mlength) =>
         && Gave(s.tables[c].heads[p], s'.tables[c].heads[p], k, md)
         && s'.owner == s.owner[m := Some(md.id)] && s'.slices == s.slices[m := Slice(offset, mlength)] && s'.refused == s.refused
       case _ =>
         && s'.tables[c].heads[p] == s.tables[c].heads[p]
         && s'.owner == s.owner && s'.slices == s.slices && s'.refused == s.refused + {m}
  }

  /** Nobody in table c takes message m, and no descriptor changes. */
  ghost predicate NobodyTakes(s: State, s': State, c: nat, m: nat)
    requires c < |s.tables| && m < |s.infos|
  {
    && !Takeable(s.tables[c], s.infos[m])
    && c < |s'.tables| && s'.tables[c].heads == s.tables[c].heads
    && s'.owner == s.owner && s'.slices == s.slices && s'.refused == s.refused
  }

  /** The rest of the state that a search in table c has nothing to do with. */
  ghost predicate Elsewhere(s: State, s': State, c: nat) {
    && |s'.tables| == |s.tables| && s'.infos == s.infos && s'.delayed == s.delayed && s'.lazy == s.lazy
    && s'.nextId == s.nextId && s'.raced == s.raced
    && (forall b | 0 <= b < |s.tables| && b != c :: s'.tables[b] == s.tables[b])
  }

  /** How the search for m in table c went: by the first descriptor in line, or in vain. */
  ghost predicate SearchedFor(s: State, s': State, c: nat, m: nat)
    requires c < |s.tables| && m < |s.infos|
  {
    if Takeable(s.tables[c], s.infos[m])
    then exists p: nat, k: nat :: FirstInLine(s.tables[c], p, k, s.infos[m]) && DecidedBy(s, s', c, p, k, m)
    else NobodyTakes(s, s', c, m)
  }

  /** The thread's answer once m has a descriptor or was refused. */
  ghost predicate Answered(s: State, s': State, m: nat) {
    && m < |s.pcs| && m < |s'.owner|
    && s'.pcs == s.pcs[m := if s'.owner[m].Some? then DoneOk else DoneDrop]
  }

  lemma SearchedHeads(s: State, c: nat, info: Info)
    requires WellFormed(s) && c < |s.tables| && Sound(s.tables[c])
    ensures var (t, out) := Search(s.tables[c], info); var s1 := AfterSearch(s, c, t, out == Missed(true));
            && (out.Missed? <==> !Takeable(s.tables[c], info))
            && s1 == s.(tables := s1.tables, maps := s1.maps) && Elsewhere(s, s1, c) && s1.tables[c].heads == t.heads
            && (out.Missed? ==> t.heads == s.tables[c].heads)
  {
    SearchAgreesWithScan(s.tables[c], info);
    if !Takeable(s.tables[c], info) {
      MissMarks(s.tables[c], info);
    }
  }

  lemma FinishDecides(s: State, c: nat, m: nat)
    requires WellFormed(s) && c < |s.tables| && Sound(s.tables[c]) && m < |s.infos| && Takeable(s.tables[c], s.infos[m])
    requires s.owner[m].None?
    ensures var (t, out) := Search(s.tables[c], s.infos[m]);
            var s' := Finish(AfterSearch(s, c, t, out == Missed(true)), m, out);
            SearchedFor(s, s', c, m) && Answered(s, s', m)
  {
    var (t, out) := Search(s.tables[c], s.infos[m]);
    SearchedHeads(s, c, s.infos[m]);
    var p, k := SearchHandles(s.tables[c], s.infos[m]);
    var s' := Finish(AfterSearch(s, c, t, out == Missed(true)), m, out);
    assert DecidedBy(s, s', c, p, k, m);
  }

  /** What the delivering thread does after its first search found nothing. */
  function AfterMiss(s: State, m: nat, ready: bool): Pc
    requires m < |s.pcs|
  {
    if !s.lazy then DoneDrop else if ready then Delaying else s.pcs[m]
  }

  lemma FirstExact(s: State, m: nat, c: nat, ready: bool)
    requires WellFormed(s) && m < |s.pcs| && c < |s.tables| && Sound(s.tables[c]) && s.owner[m].None?
    ensures var s' := DoArrive(s, m, c, ready);
            && SearchedFor(s, s', c, m) && Elsewhere(s, s', c)
            && s'.stealing == s.stealing && s'.mover == s.mover && s'.locks == s.locks
            && (if Takeable(s.tables[c], s.infos[m]) then Answered(s, s', m)
                else s'.pcs == s.pcs[m := AfterMiss(s, m, ready)])
  {
    SearchedHeads(s, c, s.infos[m]);
    if Takeable(s.tables[c], s.infos[m]) {
      FinishDecides(s, c, m);
    }
  }

  /** lnet_ptl_match_md: the first search. */
  lemma ArriveExact(s: State, step: Step)
    requires Inv(s) && step.Arrive? && Enabled(s, step)
    ensures var Arrive(m, c, ready) := step; var s' := Apply(s, step);
            && SearchedFor(s, s', c, m) && Elsewhere(s, s', c)
            && s'.stealing == s.stealing && s'.mover == s.mover && s'.locks == s.locks
            && (if Takeable(s.tables[c], s.infos[m]) then Answered(s, s', m)
                else s'.pcs == s.pcs[m := AfterMiss(s, m, ready)])
  {
    var Arrive(m, c, ready) := step;
    assert PlaceOk(s.pcs[m], s.owner[m].Some?, m in s.stealing, m in s.delayed, s.mover == Some(m));
    FirstExact(s, m, c, ready);
  }

  /** No table but c is in use. */
  ghost predicate OnlyInUse(tables: seq<Table>, c: nat) {
    forall b | 0 <= b < |tables| && b != c :: !tables[b].enabled
  }

  /** Where the thread goes after a round i at table c that found nothing. */
  ghost function AfterRoundMiss(s: State, s': State, m: nat): Pc
    requires m < |s.pcs| && s.pcs[m].Stealing? && |s.tables| > 0
  {
    var Stealing(first, i) := s.pcs[m];
    var c := Round(first, i, |s.tables|);
    if !s.lazy then DoneDrop
    else if i == |s.tables| - 1 || OnlyInUse(s'.tables, c) then Moving(c)
    else Stealing(first, i + 1)
  }

  /** The lists and locks after a round of m's thread at table c. */
  ghost predicate RoundLists(s: State, s': State, m: nat, c: nat)
    requires m < |s.pcs| && s.pcs[m].Stealing? && c < |s.locks|
  {
    && m < |s'.pcs|
    && s'.stealing == (if s.pcs[m].i > 0 then if s'.pcs[m].Stealing? then s.stealing else Minus(s.stealing, {m})
                       else if s'.pcs[m].Stealing? then s.stealing + [m] else Minus(s.stealing + [m], {m}))
    && s'.mover == (if s'.pcs[m].Moving? then Some(m) else s.mover)
    && s'.locks == (if s'.pcs[m].Moving? then s.locks[c := Mover] else s.locks)
  }

  lemma RoundMisses(s: State, m: nat, c: nat, out: Outcome)
    requires WellFormed(s) && m < |s.pcs| && s.pcs[m].Stealing? && c == Round(s.pcs[m].first, s.pcs[m].i, |s.tables|)
    requires out.Missed? && (s.maps == [] || s.maps == [c] <==> OnlyInUse(s.tables, c))
    ensures var s' := AfterRound(s, m, c, out);
            && s'.tables == s.tables && s'.owner == s.owner && s'.slices == s.slices && s'.refused == s.refused && Elsewhere(s, s', c)
            && s'.pcs == s.pcs[m := AfterRoundMiss(s, s', m)] && RoundLists(s, s', m, c)
  {
  }

  lemma RoundFinds(s: State, m: nat, c: nat, out: Outcome)
    requires m < |s.pcs| == |s.owner| && s.pcs[m].Stealing? && c < |s.locks| && !out.Missed?
    ensures var s' := AfterRound(s, m, c, out);
            s' == Finish(s, m, out).(stealing := s'.stealing) && RoundLists(s, s', m, c)
  {
  }

  /** One round of the stealing loop for a message that is still on the list. */
  lemma VisitExact(s: State, m: nat)
    requires Inv(s) && CanVisit(s, m) && m in Queue(s, m, s.pcs[m].i)
    ensures var c := Round(s.pcs[m].first, s.pcs[m].i, |s.tables|); var s' := DoVisit(s, m);
            && SearchedFor(s, s', c, m) && Elsewhere(s, s', c) && RoundLists(s, s', m, c)
            && (if Takeable(s.tables[c], s.infos[m]) then Answered(s, s', m)
                else s'.pcs == s.pcs[m := AfterRoundMiss(s, s', m)])
  {
    QueueSpec(s, m);
    if Takeable(s.tables[Round(s.pcs[m].first, s.pcs[m].i, |s.tables|)], s.infos[m]) {
      VisitFinds(s, m);
    } else {
      VisitMisses(s, m);
    }
  }

  lemma VisitFinds(s: State, m: nat)
    requires Inv(s) && CanVisit(s, m) && m in Queue(s, m, s.pcs[m].i) && s.owner[m].None?
    requires Takeable(s.tables[Round(s.pcs[m].first, s.pcs[m].i, |s.tables|)], s.infos[m])
    ensures var c := Round(s.pcs[m].first, s.pcs[m].i, |s.tables|); var s' := DoVisit(s, m);
            SearchedFor(s, s', c, m) && Elsewhere(s, s', c) && RoundLists(s, s', m, c) && Answered(s, s', m)
  {
    var c := Round(s.pcs[m].first, s.pcs[m].i, |s.tables|);
    var (t, out) := Search(s.tables[c], s.infos[m]);
    var s1 := AfterSearch(s, c, t, out == Missed(true));
    SearchedHeads(s, c, s.infos[m]);
    FinishDecides(s, c, m);
    RoundFinds(s1, m, c, out);
    SameSearch(s, Finish(s1, m, out), DoVisit(s, m), c, m);
  }

  /** The stealing list does not matter. */
  lemma SameSearch(s: State, s1: State, s2: State, c: nat, m: nat)
    requires c < |s.tables| && m < |s.infos| && s2 == s1.(stealing := s2.stealing) && SearchedFor(s, s1, c, m)
    ensures SearchedFor(s, s2, c, m)
  {
    if Takeable(s.tables[c], s.infos[m]) {
      var p: nat, k: nat :| FirstInLine(s.tables[c], p, k, s.infos[m]) && DecidedBy(s, s1, c, p, k, m);
      assert DecidedBy(s, s2, c, p, k, m);
    }
  }

  lemma VisitMisses(s: State, m: nat)
    requires Inv(s) && CanVisit(s, m) && m in Queue(s, m, s.pcs[m].i)
    requires !Takeable(s.tables[Round(s.pcs[m].first, s.pcs[m].i, |s.tables|)], s.infos[m])
    ensures var c := Round(s.pcs[m].first, s.pcs[m].i, |s.tables|); var s' := DoVisit(s, m);
            && NobodyTakes(s, s', c, m) && Elsewhere(s, s', c) && RoundLists(s, s', m, c)
            && s'.pcs == s.pcs[m := AfterRoundMiss(s, s', m)]
  {
    var c := Round(s.pcs[m].first, s.pcs[m].i, |s.tables|);
    var (t, out) := Search(s.tables[c], s.infos[m]);
    InUseAfterSearch(s, c, s.infos[m]);
    SearchedHeads(s, c, s.infos[m]);
    MissedRound(s, AfterSearch(s, c, t, out == Missed(true)), m, c, out);
  }

  lemma MissedRound(s: State, s1: State, m: nat, c: nat, out: Outcome)
    requires WellFormed(s) && WellFormed(s1) && m < |s.pcs| && s.pcs[m].Stealing?
    requires c == Round(s.pcs[m].first, s.pcs[m].i, |s.tables|) && !Takeable(s.tables[c], s.infos[m])
    requires s1 == s.(tables := s1.tables, maps := s1.maps) && Elsewhere(s, s1, c) && s1.tables[c].heads == s.tables[c].heads
    requires out.Missed? && (s1.maps == [] || s1.maps == [c] <==> OnlyInUse(s1.tables, c))
    ensures var s' := AfterRound(s1, m, c, out);
            && NobodyTakes(s, s', c, m) && Elsewhere(s, s', c) && RoundLists(s, s', m, c)
            && s'.pcs == s.pcs[m := AfterRoundMiss(s, s', m)]
  {
    RoundMisses(s1, m, c, out);
  }

  lemma InUseAfterSearch(s: State, c: nat, info: Info)
    requires Inv(s) && c < |s.tables| && s.locks[c].Free?
    ensures var (t, out) := Search(s.tables[c], info); var s1 := AfterSearch(s, c, t, out == Missed(true));
            WellFormed(s1) && (s1.maps == [] || s1.maps == [c] <==> OnlyInUse(s1.tables, c))
  {
    var (t, out) := Search(s.tables[c], info);
    SearchKeeps(s, c, info);
    var s1 := AfterSearch(s, c, t, out == Missed(true));
    InUseAlone(s1.tables, s1.maps, c);
  }

  /** The map has nothing but c in it exactly if no other table is in use. */
  lemma InUseAlone(tables: seq<Table>, maps: seq<nat>, c: nat)
    requires TablesOk(tables, maps) && c < |tables|
    ensures maps == [] || maps == [c] <==> OnlyInUse(tables, c)
  {
    if OnlyInUse(tables, c) {
      assert forall i | 0 <= i < |maps| :: maps[i] in maps;
      AllSame(maps, c);
    } else {
      var b: nat :| b < |tables| && b != c && tables[b].enabled;
      assert b in maps;
    }
  }

  lemma AllSame(maps: seq<nat>, c: nat)
    requires PortalMaps.StrictlySorted(maps) && forall i | 0 <= i < |maps| :: maps[i] == c
    ensures maps == [] || maps == [c]
  {
    if |maps| >= 2 {
      FirstTwo(maps);
      assert false;
    }
  }

  lemma FirstTwo(maps: seq<nat>)
    requires PortalMaps.StrictlySorted(maps) && |maps| >= 2
    ensures maps[0] < maps[1]
  {
  }

  /** A round for a message that an attaching thread has taken off the list. */
  lemma StrayExact(s: State, m: nat)
    requires WellFormed(s) && CanVisit(s, m) && m !in Queue(s, m, s.pcs[m].i)
    ensures var s' := DoVisit(s, m); Answered(s, s', m) && s' == s.(pcs := s'.pcs)
  {
  }

  // ----- a new descriptor is offered what waits

  /** What an attaching thread does with message x when the descriptor, as it then is, answers so. */
  ghost predicate Resumed(s: State, s': State, id: nat, attempt: Try, x: nat)
    requires x < |s.pcs| == |s.owner|
  {
    && |s'.pcs| == |s.pcs| && |s'.owner| == |s.owner|
    && match attempt
       case Match(_, offset, mlength) =>
         && s'.owner[x] == Some(id) && x in s'.slices && s'.slices[x] == Slice(offset, mlength)
         && x !in s'.stealing && x !in s'.delayed && (x in s'.refused <==> x in s.refused)
         && s'.pcs[x] == if x in s.delayed then DoneOk else s.pcs[x]
       case TooBig =>
         && s'.owner[x] == s.owner[x] && x in s'.refused && x !in s'.stealing && x !in s'.delayed
         && s'.pcs[x] == if x in s.delayed then DoneDrop else s.pcs[x]
       case _ => Untouched(s, s', x)
  }

  ghost predicate Untouched(s: State, s': State, x: nat)
    requires x < |s.pcs| == |s.owner|
  {
    && |s'.pcs| == |s.pcs| && |s'.owner| == |s.owner|
    && s'.owner[x] == s.owner[x] && s'.pcs[x] == s.pcs[x]
    && (x in s'.stealing <==> x in s.stealing) && (x in s'.delayed <==> x in s.delayed)
    && (x in s'.refused <==> x in s.refused) && (x in s'.slices <==> x in s.slices)
    && (x in s.slices ==> s'.slices[x] == s.slices[x])
  }

  /** The messages a new descriptor is offered, in order: those being stolen for, then those delayed. */
  function Waiters(s: State): seq<nat> {
    s.stealing + s.delayed
  }

  /** The entry at which the thread at c attaches. */
  function EntryOf(s: State, c: nat): Me
    requires WellFormed(s) && c < |s.locks| && s.locks[c].Attaching?
  {
    s.tables[c].heads[s.locks[c].p][s.locks[c].k].me
  }

  /** The descriptor being attached at c, before waiter j is offered to it. */
  function MdAt(s: State, c: nat, j: nat): Md
    requires WellFormed(s) && c < |s.locks| && s.locks[c].Attaching? && j <= |Waiters(s)|
  {
    MdBefore(Offering(EntryOf(s, c), s.infos), s.locks[c].md, Waiters(s), j)
  }

  /** lnet_ptl_attach_md under the portal lock: what becomes of waiter j. */
  lemma ScanResumes(s: State, c: nat, j: nat)
    requires Inv(s) && Enabled(s, LockAndScan(c)) && j < |Waiters(s)|
    ensures Waiters(s)[j] < |s.infos|
    ensures var x := Waiters(s)[j];
            Resumed(s, DoScan(s, c), s.locks[c].md.id, TryMatch(EntryOf(s, c), MdAt(s, c, j), s.infos[x]), x)
  {
    var x := Waiters(s)[j];
    assert x == if j < |s.stealing| then s.stealing[j] else s.delayed[j - |s.stealing|];
    assert x in s.stealing || x in s.delayed;
    assert PlaceOk(s.pcs[x], s.owner[x].Some?, x in s.stealing, x in s.delayed, s.mover == Some(x));
    var me, md := EntryOf(s, c), s.locks[c].md;
    var (r1, r2) := ScanBoth(me, md, s);
    OfferingSteady(me, s.infos);
    TwoDecide(Offering(me, s.infos), md, s.stealing, s.delayed, j);
    TwoSplit(Offering(me, s.infos), md, s.stealing, s.delayed);
    assert Offering(me, s.infos)(MdAt(s, c, j), x) == TryMatch(me, MdAt(s, c, j), s.infos[x]);
    DecidedResumes(s, c, r1, r2, x, TryMatch(me, MdAt(s, c, j), s.infos[x]));
  }

  lemma DecidedResumes(s: State, c: nat, r1: Scanned, r2: Scanned, x: nat, attempt: Try)
    requires WellFormed(s) && c < |s.locks| && s.locks[c].Attaching? && (r1, r2) == ScanBoth(EntryOf(s, c), s.locks[c].md, s)
    requires BothOk(s.stealing, s.delayed, (r1, r2)) && x < |s.pcs| && (x in s.stealing) != (x in s.delayed)
    requires Decided(attempt, x, if x in s.stealing then r1 else r2)
    ensures Resumed(s, DoScan(s, c), s.locks[c].md.id, attempt, x)
  {
  }

  /** Nobody else is touched, and what stays on the lists keeps its order. */
  lemma ScanSpares(s: State, c: nat, x: nat)
    requires Inv(s) && Enabled(s, LockAndScan(c)) && x < |s.pcs| && x !in Waiters(s)
    ensures Untouched(s, DoScan(s, c), x)
  {
    TwoSplit(Offering(EntryOf(s, c), s.infos), s.locks[c].md, s.stealing, s.delayed);
    assert x !in s.stealing && x !in s.delayed;
  }

  lemma ScanOrder(s: State, c: nat)
    requires Inv(s) && Enabled(s, LockAndScan(c))
    ensures exists gone :: DoScan(s, c).stealing == Minus(s.stealing, gone)
    ensures exists gone :: DoScan(s, c).delayed == Minus(s.delayed, gone)
  {
    var me, md := EntryOf(s, c), s.locks[c].md;
    var offer := Offering(me, s.infos);
    var (r1, r2) := ScanBoth(me, md, s);
    ScanKeepsOrder(offer, md, s.stealing);
    assert DoScan(s, c).stealing == Minus(s.stealing, r1.ok + r1.refused);
    if r1.spent {
      NothingGone(s.delayed, {});
      assert DoScan(s, c).delayed == Minus(s.delayed, {});
    } else {
      ScanKeepsOrder(offer, r1.md, s.delayed);
      assert DoScan(s, c).delayed == Minus(s.delayed, r2.ok + r2.refused);
    }
  }

  /** The table and the descriptor in it once the attaching thread has let go. */
  ghost predicate Joined(s: State, s': State, c: nat, md: Md)
    requires WellFormed(s) && c < |s.locks| && s.locks[c].Attaching?
  {
    var Attaching(_, p, k, given) := s.locks[c];
    var es := s.tables[c].heads[p];
    && |s'.tables| == |s.tables| && |s'.tables[c].heads| == |s.tables[c].heads| && |s'.tables[c].bits| == |s.tables[c].bits|
    && (forall b | 0 <= b < |s.tables| && b != c :: s'.tables[b] == s.tables[b])
    && (forall q | 0 <= q < |s.tables[c].heads| && q != p :: s'.tables[c].heads[q] == s.tables[c].heads[q])
    && (forall q | 0 <= q < |s.tables[c].bits| && q != p :: s'.tables[c].bits[q] == s.tables[c].bits[q])
    && (if Exhausted(given) then s'.tables[c].heads[p] == es[k := Entry(es[k].me, Some(md))]
        else Gave(es, s'.tables[c].heads[p], k, md))
    && s'.locks == s.locks[c := Free]
  }

  /**
    The descriptor joins its table as the waiters have left it, unless it is used up and unlinks
    itself; if it can still take something, its bucket is marked so and its table is in use.
  */
  lemma ScanJoins(s: State, c: nat)
    requires Inv(s) && Enabled(s, LockAndScan(c))
    ensures var q := Waiters(s); var md := MdAt(s, c, |q|); var s' := DoScan(s, c); var p := s.locks[c].p;
            && Joined(s, s', c, md)
            && (if q != [] && Exhausted(md)
                then s'.tables[c].bits == s.tables[c].bits && s'.tables[c].enabled == s.tables[c].enabled
                else p < |s'.tables[c].bits| && !s'.tables[c].bits[p] && s'.tables[c].enabled)
  {
    var Attaching(_, p, k, given) := s.locks[c];
    var offer := Offering(EntryOf(s, c), s.infos);
    OfferingSteady(EntryOf(s, c), s.infos);
    TwoLeave(offer, given, s.stealing, s.delayed);
    var r2 := ScanTwo(offer, given, s.stealing, s.delayed).1;
    assert s.tables[c].heads[p][k].md.None?;
    if Waiters(s) == [] {
      assert MdAt(s, c, 0) == given;
    }
    SettledJoins(s.tables[c], p, k, given, r2, Waiters(s) != []);
  }

  lemma SettledJoins(t: Table, p: nat, k: nat, given: Md, r: Scanned, some: bool)
    requires Shaped(t) && p < BUCKETS && k < |t.heads[p]| && t.heads[p][k].md.None?
    requires (r.spent <==> some && Exhausted(r.md)) && (r.unlinked <==> r.spent && !Exhausted(given) && r.md.autoUnlink)
    requires !some ==> r.md == given
    ensures var t' := SettledAfterScan(t, p, k, r); var es := t.heads[p];
            && |t'.heads| == |t.heads| && |t'.bits| == |t.bits|
            && (forall q | 0 <= q < |t.heads| && q != p :: t'.heads[q] == t.heads[q])
            && (forall q | 0 <= q < |t.bits| && q != p :: t'.bits[q] == t.bits[q])
            && (if Exhausted(given) then t'.heads[p] == es[k := Entry(es[k].me, Some(r.md))] else Gave(es, t'.heads[p], k, r.md))
            && (if some && Exhausted(r.md) then t'.bits == t.bits && t'.enabled == t.enabled else !t'.bits[p] && t'.enabled)
  {
  }

  /** A thread that leaves without scanning leaves its descriptor as it was given. */
  lemma LeavingJoins(s: State, c: nat)
    requires Inv(s) && Enabled(s, TestBit(c)) && !s.tables[c].bits[s.locks[c].p]
    ensures var s' := DoTestBit(s, c); var Attaching(_, p, k, md) := s.locks[c];
            && s'.tables == s.tables[c := Settled(s.tables[c], p, k, md)] && s'.locks == s.locks[c := Free]
            && s' == s.(tables := s'.tables, locks := s'.locks, raced := s'.raced)
            && s'.tables[c].heads[p][k] == Entry(s.tables[c].heads[p][k].me, Some(md))
            && (forall i | 0 <= i < |s.tables[c].heads[p]| && i != k :: s'.tables[c].heads[p][i] == s.tables[c].heads[p][i])
  {
  }

  // ----- entries, queues and the lazy option

  /** LNetMEAttach: a new entry without a descriptor, last or first of the bucket its requests are looked for in. */
  lemma EntryAdded(s: State, step: Step)
    requires WellFormed(s) && step.AddEntry? && Enabled(s, step)
    ensures var AddEntry(c, me, atTail) := step; var s' := Apply(s, step);
            var p := if me.ignoreBits != 0 then IGNORE else Bucket(me.matchBits);
            var es, es' := s.tables[c].heads[p], s'.tables[c].heads[p];
            && s' == s.(tables := s'.tables) && s'.tables == s.tables[c := s'.tables[c]]
            && s'.tables[c] == s.tables[c].(heads := s.tables[c].heads[p := es'])
            && |es'| == |es| + 1
            && (if atTail then es'[..|es|] == es && es'[|es|] == Entry(me, None) else es'[1..] == es && es'[0] == Entry(me, None))
  {
  }

  /** LNetMDUnlink or LNetMEUnlink: the descriptor goes, and its entry if that is asked for. */
  lemma DescriptorUnlinked(s: State, step: Step)
    requires WellFormed(s) && step.Unlink? && Enabled(s, step)
    ensures var Unlink(c, p, k, dropEntry) := step; var s' := Apply(s, step);
            var es, es' := s.tables[c].heads[p], s'.tables[c].heads[p];
            && s' == s.(tables := s'.tables) && s'.tables == s.tables[c := s'.tables[c]]
            && s'.tables[c] == s.tables[c].(heads := s.tables[c].heads[p := es'])
            && (if dropEntry then es' == es[..k] + es[k + 1..] else es' == es[k := Entry(es[k].me, None)])
  {
  }

  /** A message taken into transit is delayed behind all others, and its thread lets go of its locks. */
  lemma ParkedLast(s: State, m: nat)
    requires Inv(s) && Enabled(s, Park(m))
    ensures var s' := Apply(s, Park(m));
            && s'.delayed == s.delayed + [m] && s'.mover.None? && s'.pcs == s.pcs[m := Parked]
            && |s'.locks| == |s.locks| && (forall c | 0 <= c < |s.locks| :: s'.locks[c] == if s.locks[c].Mover? then Free else s.locks[c])
            && s' == s.(delayed := s'.delayed, mover := None, pcs := s'.pcs, locks := s'.locks)
  {
    assert MoverOk(s);
  }

  lemma {:induction false} MinusAll(q: seq<nat>, gone: set<nat>)
    requires forall j | 0 <= j < |q| :: q[j] in gone
    ensures Minus(q, gone) == []
  {
    if q != [] {
      MinusAll(q[1..], gone);
    }
  }

  /** LNetSetLazyPortal and LNetClearLazyPortal: the option changes, and clearing drops what is delayed. */
  lemma LazyChanges(s: State, step: Step)
    requires Inv(s) && Enabled(s, step)
    ensures var s' := Apply(s, step);
            s'.lazy == if step.SetLazy? then true else if step.DropDelayed? && step.clear then false else s.lazy
    ensures step.DropDelayed? && step.clear ==> Apply(s, step).delayed == []
  {
    if step.Arrive? {
      ArriveExact(s, step);
    } else if step.Visit? {
      VisitLazy(s, step.m);
    } else if step.DropDelayed? && step.clear {
      MinusAll(s.delayed, step.which);
    }
  }

  lemma VisitLazy(s: State, m: nat)
    requires Inv(s) && CanVisit(s, m)
    ensures DoVisit(s, m).lazy == s.lazy
  {
    if m in Queue(s, m, s.pcs[m].i) {
      VisitExact(s, m);
    }
  }

  /** What an attaching thread has seen decides whether it must scan; meanwhile it changes nothing. */
  lemma AttachLooks(s: State, step: Step)
    requires WellFormed(s) && (step.ReadStealing? || step.ReadDelayed?) && Enabled(s, step)
    ensures var c := step.c; var s' := Apply(s, step);
            && s' == s.(locks := s.locks[c := s'.locks[c]]) && SameAttach(s'.locks[c], s.locks[c].p, s.locks[c].k, s.locks[c].md)
            && (s'.locks[c].stage.WillLock? <==> if step.ReadStealing? then s.stealing != [] else s.delayed != [])
            && (step.ReadStealing? && s.stealing == [] ==> s'.locks[c].stage.SawNoStealing?)
            && (step.ReadDelayed? && s.delayed == [] ==> s'.locks[c].stage.SawNoDelayed?)
  {
  }

  /** The entry and the descriptor that the last attach at table c was called with. */
  function Given(was: Option<(nat, nat, Md)>, steps: seq<Step>, c: nat): Option<(nat, nat, Md)>
    decreases |steps|
  {
    if steps == [] then was else Given(GivenBy(was, steps[0], c), steps[1..], c)
  }

  function GivenBy(was: Option<(nat, nat, Md)>, step: Step, c: nat): Option<(nat, nat, Md)> {
    if step.BeginAttach? && step.c == c then Some((step.p, step.k, step.md)) else was
  }

  ghost predicate AttachesAs(l: ResLock, given: Option<(nat, nat, Md)>) {
    l.Attaching? ==> given == Some((l.p, l.k, l.md))
  }

  lemma AttachesStep(s: State, s': State, was: Option<(nat, nat, Md)>, step: Step, c: nat)
    requires LocksMove(s, s', step) && c < |s.locks| && AttachesAs(s.locks[c], was)
    requires step.BeginAttach? && step.c == c ==> s.locks[c].Free?
    ensures c < |s'.locks| && AttachesAs(s'.locks[c], GivenBy(was, step, c))
  {
  }

  lemma {:induction false} AttachesAlways(s: State, was: Option<(nat, nat, Md)>, steps: seq<Step>, c: nat)
    requires Inv(s) && Feasible(s, steps) && c < |s.locks| && AttachesAs(s.locks[c], was)
    ensures c < |Exec(s, steps).locks| && AttachesAs(Exec(s, steps).locks[c], Given(was, steps, c))
    decreases |steps|
  {
    if steps != [] {
      InvPreserved(s, steps[0]);
      StepLocks(s, steps[0]);
      AttachesStep(s, Apply(s, steps[0]), was, steps[0], c);
      AttachesAlways(Apply(s, steps[0]), GivenBy(was, steps[0], c), steps[1..], c);
    }
  }

  /** In every run an attaching thread is at work on the entry and with the descriptor it was called with. */
  lemma AttachesAsAsked(s0: State, steps: seq<Step>, c: nat)
    requires Init(s0) && WellFormed(s0) && Feasible(s0, steps) && c < |s0.locks|
    ensures c < |Exec(s0, steps).locks| && AttachesAs(Exec(s0, steps).locks[c], Given(None, steps, c))
  {
    InitInv(s0);
    AttachesAlways(s0, None, steps, c);
  }

  // ----- the rounds of a delivery

  /** Where the stealing loop for message m began, and how many rounds it has done or skipped. */
  function LoopOf(was: Option<(nat, nat)>, steps: seq<Step>, m: nat): Option<(nat, nat)>
    decreases |steps|
  {
    if steps == [] then was else LoopOf(LoopBy(was, steps[0], m), steps[1..], m)
  }

  function LoopBy(was: Option<(nat, nat)>, step: Step, m: nat): Option<(nat, nat)> {
    match step
    case EnterDelay(x, first) => if x == m then Some((first, 0)) else was
    case Skip(x) => if x == m && was.Some? then Some((was.value.0, was.value.1 + 1)) else was
    case Visit(x) => if x == m && was.Some? then Some((was.value.0, was.value.1 + 1)) else was
    case _ => was
  }

  ghost predicate LoopsAs(pc: Pc, loop: Option<(nat, nat)>) {
    pc.Stealing? ==> loop == Some((pc.first, pc.i))
  }

  /** A visit moves its own thread on by one round, if at all. */
  lemma VisitMoves(s: State, x: nat)
    requires Inv(s) && CanVisit(s, x)
    ensures var s' := DoVisit(s, x);
            && x < |s'.pcs| && s'.pcs == s.pcs[x := s'.pcs[x]]
            && (s'.pcs[x].Stealing? ==> s'.pcs[x] == Stealing(s.pcs[x].first, s.pcs[x].i + 1))
  {
    if x in Queue(s, x, s.pcs[x].i) {
      VisitExact(s, x);
    } else {
      StrayExact(s, x);
    }
  }

  lemma VisitLoops(s: State, pcs: seq<Pc>, x: nat, m: nat, was: Option<(nat, nat)>)
    requires m < |s.pcs| && x < |s.pcs| && s.pcs[x].Stealing? && LoopsAs(s.pcs[m], was) && x < |pcs|
    requires pcs == s.pcs[x := pcs[x]] && (pcs[x].Stealing? ==> pcs[x] == Stealing(s.pcs[x].first, s.pcs[x].i + 1))
    ensures m < |pcs| && LoopsAs(pcs[m], LoopBy(was, Visit(x), m))
  {
  }

  lemma StepLoops(s: State, step: Step, m: nat, was: Option<(nat, nat)>)
    requires Inv(s) && Enabled(s, step) && m < |s.pcs| && LoopsAs(s.pcs[m], was)
    ensures m < |Apply(s, step).pcs| && LoopsAs(Apply(s, step).pcs[m], LoopBy(was, step, m))
  {
    if step.Arrive? {
      ArriveLoops(s, step, m, was);
    } else if step.Visit? {
      VisitMoves(s, step.m);
      VisitLoops(s, DoVisit(s, step.m).pcs, step.m, m, was);
    } else {
      OtherLoops(s, step, m, was);
    }
  }

  lemma ArriveLoops(s: State, step: Step, m: nat, was: Option<(nat, nat)>)
    requires Inv(s) && step.Arrive? && Enabled(s, step) && m < |s.pcs| && LoopsAs(s.pcs[m], was)
    ensures m < |Apply(s, step).pcs| && LoopsAs(Apply(s, step).pcs[m], LoopBy(was, step, m))
  {
    ArriveExact(s, step);
  }

  lemma OtherLoops(s: State, step: Step, m: nat, was: Option<(nat, nat)>)
    requires WellFormed(s) && Enabled(s, step) && m < |s.pcs| && LoopsAs(s.pcs[m], was) && !step.Arrive? && !step.Visit?
    ensures m < |Apply(s, step).pcs| && LoopsAs(Apply(s, step).pcs[m], LoopBy(was, step, m))
  {
  }

  lemma {:induction false} LoopsAlways(s: State, was: Option<(nat, nat)>, steps: seq<Step>, m: nat)
    requires Inv(s) && Feasible(s, steps) && m < |s.pcs| && LoopsAs(s.pcs[m], was)
    ensures m < |Exec(s, steps).pcs| && LoopsAs(Exec(s, steps).pcs[m], LoopOf(was, steps, m))
    decreases |steps|
  {
    if steps != [] {
      InvPreserved(s, steps[0]);
      StepLoops(s, steps[0], m, was);
      LoopsAlways(Apply(s, steps[0]), LoopBy(was, steps[0], m), steps[1..], m);
    }
  }

  /**
    In every run a delivery that steals has done or skipped one round for each table from the one it
    began at, in turn: the next one it visits, if it does, is that many tables further on.
  */
  lemma RoundsInTurn(s0: State, steps: seq<Step>, m: nat)
    requires Init(s0) && WellFormed(s0) && Feasible(s0, steps) && m < |s0.pcs|
    ensures m < |Exec(s0, steps).pcs| && LoopsAs(Exec(s0, steps).pcs[m], LoopOf(None, steps, m))
  {
    InitInv(s0);
    LoopsAlways(s0, None, steps, m);
  }
}
