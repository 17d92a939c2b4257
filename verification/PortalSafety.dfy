/**
  What every execution of the portal protocol keeps: each message has one outcome, and no message
  is left on the delayed queue while a descriptor wants it, except for the pairs that raced.
*/
module PortalSafety {
  import opened Collections
  import opened Matching
  import opened MatchTables
  import opened QueueScan
  import opened PortalProtocol
  import PortalMaps

  // ----- the invariant

  /** A table in use has a bucket that is not marked as exhausted. */
  ghost predicate Active(t: Table) {
    t.enabled ==> Shaped(t) && !AllBits(t)
  }

  /** Tables are sound and the active ones are listed in order. */
  ghost predicate TablesOk(tables: seq<Table>, maps: seq<nat>) {
    && (forall c | 0 <= c < |tables| :: Sound(tables[c]))
    && (forall c | 0 <= c < |tables| :: Active(tables[c]))
    && PortalMaps.StrictlySorted(maps)
    && (forall c: nat :: c in maps <==> c < |tables| && tables[c].enabled)
  }

  /** An attaching thread's entry has no descriptor yet. */
  ghost predicate SlotsOk(s: State)
    requires WellFormed(s)
  {
    forall c | 0 <= c < |s.tables| && s.locks[c].Attaching? ::
      ShapedLock(s.locks[c], s.tables[c]) && s.tables[c].heads[s.locks[c].p][s.locks[c].k].md.None?
  }

  /** One message: where its thread is, which lists it is on, and who has it. */
  ghost predicate PlaceOk(pc: Pc, has: bool, stealing: bool, delayed: bool, moving: bool) {
    match pc
    case Fresh => !has && !stealing && !delayed && !moving
    case Delaying => !has && !stealing && !delayed && !moving
    case Stealing(_, i) => !delayed && !moving && (has ==> !stealing) && (i == 0 ==> !has && !stealing)
    case Moving(_) => !has && !stealing && !delayed && moving
    case Parked => !has && !stealing && delayed && !moving
    case DoneOk => has && !stealing && !delayed && !moving
    case DoneDrop => !has && !stealing && !delayed && !moving
  }

  ghost predicate PlacesOk(s: State)
    requires |s.pcs| == |s.owner|
  {
    && NoDup(s.stealing)
    && NoDup(s.delayed)
    && (s.mover.Some? ==> s.mover.value < |s.pcs|)
    && forall m | 0 <= m < |s.pcs| ::
         PlaceOk(s.pcs[m], s.owner[m].Some?, m in s.stealing, m in s.delayed, s.mover == Some(m))
  }

  /** The thread in transit, and nobody else, holds its resource lock as a mover. */
  ghost predicate MoverOk(s: State)
    requires |s.pcs| == |s.owner| && PlacesOk(s)
  {
    forall c | 0 <= c < |s.locks| ::
      s.locks[c].Mover? <==> s.mover.Some? && s.pcs[s.mover.value] == Moving(c)
  }

  ghost predicate Visited(pc: Pc, c: nat, n: nat)
    requires n > 0
  {
    pc.Stealing? && exists j: nat | j < pc.i :: Round(pc.first, j, n) == c
  }

  /** No table already visited takes a message that is still on the stealing list. */
  ghost predicate Covered(s: State)
    requires WellFormed(s)
  {
    forall m, c | m in s.stealing && 0 <= c < |s.tables| && Visited(s.pcs[m], c, |s.tables|) ::
      !Takeable(s.tables[c], s.infos[m])
  }

  ghost predicate Waiting(s: State, m: nat) {
    m < |s.infos| && (m in s.delayed || s.mover == Some(m))
  }

  /** A descriptor that wants a delayed message has raced with it. */
  ghost predicate Noticed(s: State)
    requires WellFormed(s)
  {
    forall m: nat, c, id: nat | Waiting(s, m) && 0 <= c < |s.tables| && TakenBy(s.tables[c], id, s.infos[m]) ::
      (m, id) in s.raced
  }

  /** The entry being filled by the thread that holds lock c wants message m. */
  ghost predicate WantsAt(s: State, c: nat, m: nat)
    requires WellFormed(s) && c < |s.locks| && s.locks[c].Attaching? && m < |s.infos|
  {
    Wants(s.tables[c].heads[s.locks[c].p][s.locks[c].k].me, s.locks[c].md, s.infos[m])
  }

  /**
    The attaching thread at c may go without scanning: then a stealing message it wants has yet
    to come by, and the only waiting message it wants is the one it could not see.
  */
  ghost predicate AttacherOk(s: State, c: nat)
    requires WellFormed(s) && c < |s.locks| && s.locks[c].Attaching?
  {
    var stage := s.locks[c].stage;
    !s.tables[c].bits[s.locks[c].p] ==>
      && (stage.SawNoStealing? || stage.SawNoDelayed? ==>
            forall m: nat | m in s.stealing && WantsAt(s, c, m) :: !Visited(s.pcs[m], c, |s.tables|))
      && (stage.SawNoDelayed? ==>
            forall m: nat | Waiting(s, m) && WantsAt(s, c, m) :: stage.blind == Some(m))
      && (stage.SawNoDelayed? && stage.blind.Some? ==>
            stage.blind.value < |s.infos| && WantsAt(s, c, stage.blind.value))
  }

  ghost predicate AttachersOk(s: State)
    requires WellFormed(s)
  {
    forall c | 0 <= c < |s.locks| && s.locks[c].Attaching? :: AttacherOk(s, c)
  }

  ghost predicate Inv(s: State) {
    && WellFormed(s)
    && TablesOk(s.tables, s.maps)
    && SlotsOk(s)
    && PlacesOk(s)
    && MoverOk(s)
    && Covered(s)
    && Noticed(s)
    && AttachersOk(s)
  }

  lemma InitInv(s: State)
    requires Init(s)
    ensures Inv(s)
  {
    forall c | 0 <= c < |s.tables|
      ensures Sound(s.tables[c])
    {
      assert forall p | 0 <= p < BUCKETS :: s.tables[c].heads[p] == [];
    }
  }

  // ----- how the steps change what a table takes

  /** Replacing a bucket adds at most what the entry e takes. */
  lemma BucketTakes(t: Table, p: nat, es: seq<Entry>, e: Entry, id: nat, info: Info)
    requires p < |t.heads|
    requires forall i | 0 <= i < |es| :: es[i].md.None? || es[i] in t.heads[p] || es[i] == e
    requires TakenBy(t.(heads := t.heads[p := es]), id, info)
    ensures TakenBy(t, id, info) || (Takes(e, info) && e.md.value.id == id)
  {
    var t' := t.(heads := t.heads[p := es]);
    var q, i :| 0 <= q < |t'.heads| && 0 <= i < |t'.heads[q]| &&
                Takes(t'.heads[q][i], info) && t'.heads[q][i].md.value.id == id;
    if q != p {
      assert Takes(t.heads[q][i], info);
    } else if es[i] in t.heads[p] {
      var j :| 0 <= j < |t.heads[p]| && t.heads[p][j] == es[i];
      assert Takes(t.heads[p][j], info);
    }
  }

  lemma SettledTakes(t: Table, p: nat, k: nat, md: Md, id: nat, info: Info)
    requires p < |t.heads| && k < |t.heads[p]|
    requires TakenBy(Settled(t, p, k, md), id, info)
    ensures TakenBy(t, id, info) || (Wants(t.heads[p][k].me, md, info) && md.id == id)
  {
    BucketTakes(t, p, t.heads[p][k := t.heads[p][k].(md := Some(md))], Entry(t.heads[p][k].me, Some(md)), id, info);
  }

  lemma SettledAfterScanTakes(t: Table, p: nat, k: nat, r: Scanned, id: nat, info: Info)
    requires Shaped(t) && p < BUCKETS && k < |t.heads[p]|
    requires TakenBy(SettledAfterScan(t, p, k, r), id, info)
    ensures TakenBy(t, id, info) || (Wants(t.heads[p][k].me, r.md, info) && r.md.id == id)
  {
    var t' := SettledAfterScan(t, p, k, r);
    if !r.unlinked {
      assert TakenBy(Settled(t, p, k, r.md), id, info) by {
        assert t'.heads == Settled(t, p, k, r.md).heads;
      }
      SettledTakes(t, p, k, r.md, id, info);
    } else if t.heads[p][k].me.unlink {
      var es := t.heads[p][..k] + t.heads[p][k + 1..];
      assert TakenBy(t.(heads := t.heads[p := es]), id, info) by {
        assert t'.heads == t.heads[p := es];
      }
      BucketTakes(t, p, es, Entry(t.heads[p][k].me, None), id, info);
    } else {
      assert t'.heads == t.heads;
    }
  }

  // ----- changes to one table

  /** The table takes no more than it did, and is as sound as it was. */
  ghost predicate Shrunk(t: Table, was: Table) {
    && Sound(t)
    && forall id: nat, info | TakenBy(t, id, info) :: TakenBy(was, id, info)
  }

  lemma TableKeeps(s: State, c: nat, t: Table, maps: seq<nat>)
    requires Inv(s) && c < |s.tables| && s.locks[c].Free? && Shrunk(t, s.tables[c])
    requires TablesOk(s.tables[c := t], maps)
    ensures Inv(s.(tables := s.tables[c := t], maps := maps))
  {
    var s' := s.(tables := s.tables[c := t], maps := maps);
    assert SlotsOk(s');
    forall a | 0 <= a < |s'.locks| && s'.locks[a].Attaching?
      ensures AttacherOk(s', a)
    {
      assert AttacherOk(s, a);
    }
  }

  lemma SameEnabled(s: State, c: nat, t: Table)
    requires Inv(s) && c < |s.tables| && Sound(t) && Active(t) && t.enabled == s.tables[c].enabled
    ensures TablesOk(s.tables[c := t], s.maps)
  {}

  lemma AddEntryKeeps(s: State, step: Step)
    requires Inv(s) && step.AddEntry? && Enabled(s, step)
    ensures Inv(Apply(s, step))
  {
    var AddEntry(c, me, atTail) := step;
    var t, p := s.tables[c], Home(me);
    var e := Entry(me, None);
    var es := if atTail then t.heads[p] + [e] else [e] + t.heads[p];
    var t' := t.(heads := t.heads[p := es]);
    forall i | 0 <= i < |es|
      ensures es[i] in t.heads[p] || es[i] == e
    {}
    BucketSound(t, p, es, e);
    forall id: nat, info | TakenBy(t', id, info)
      ensures TakenBy(t, id, info)
    {
      BucketTakes(t, p, es, e, id, info);
    }
    SameEnabled(s, c, t');
    TableKeeps(s, c, t', s.maps);
    assert Apply(s, step) == s.(tables := s.tables[c := t'], maps := s.maps);
  }

  /** A bucket of known entries and one spent newcomer stays sound. */
  lemma BucketSound(t: Table, p: nat, es: seq<Entry>, e: Entry)
    requires Sound(t) && p < BUCKETS && Home(e.me) == p && EntrySpent(e)
    requires forall i | 0 <= i < |es| :: es[i] in t.heads[p] || es[i] == e
    ensures Sound(t.(heads := t.heads[p := es]))
  {
    forall i | 0 <= i < |es|
      ensures Home(es[i].me) == p
      ensures t.bits[p] ==> EntrySpent(es[i])
    {
      if es[i] != e {
        var j :| 0 <= j < |t.heads[p]| && t.heads[p][j] == es[i];
        assert Home(t.heads[p][j].me) == p;
      }
    }
  }

  lemma UnlinkKeeps(s: State, step: Step)
    requires Inv(s) && step.Unlink? && Enabled(s, step)
    ensures Inv(Apply(s, step))
  {
    var Unlink(c, p, k, dropEntry) := step;
    var t := s.tables[c];
    var e := t.heads[p][k].(md := None);
    assert Home(t.heads[p][k].me) == p;
    var es := if dropEntry then t.heads[p][..k] + t.heads[p][k + 1..] else t.heads[p][k := e];
    var t' := t.(heads := t.heads[p := es]);
    BucketSound(t, p, es, e);
    forall id: nat, info | TakenBy(t', id, info)
      ensures TakenBy(t, id, info)
    {
      BucketTakes(t, p, es, e, id, info);
    }
    SameEnabled(s, c, t');
    TableKeeps(s, c, t', s.maps);
    assert Apply(s, step) == s.(tables := s.tables[c := t'], maps := s.maps);
  }

  /** Searching a table whose lock is free keeps the invariant. */
  lemma SearchKeeps(s: State, c: nat, info: Info)
    requires Inv(s) && c < |s.tables| && s.locks[c].Free?
    ensures var (t, out) := Search(s.tables[c], info);
            Inv(AfterSearch(s, c, t, out == Missed(true)))
  {
    var (t, out) := Search(s.tables[c], info);
    SearchAgreesWithScan(s.tables[c], info);
    SearchLeavesClear(s.tables[c], info);
    forall id: nat, other | TakenBy(t, id, other)
      ensures TakenBy(s.tables[c], id, other)
    {
      SearchMonotone(s.tables[c], info, id, other);
    }
    if out == Missed(true) && t.enabled {
      var t' := t.(enabled := false);
      assert Sound(t');
      assert forall id: nat, other :: TakenBy(t', id, other) <==> TakenBy(t, id, other) by {
        assert t'.heads == t.heads;
      }
      PortalMaps.RemoveSorted(s.maps, c);
      TableKeeps(s, c, t', PortalMaps.Remove(s.maps, c));
    } else {
      SameEnabled(s, c, t);
      TableKeeps(s, c, t, s.maps);
      assert AfterSearch(s, c, t, out == Missed(true)) == s.(tables := s.tables[c := t], maps := s.maps);
    }
  }

  /** A search that missed leaves a table that does not take the message. */
  lemma MissLeavesNothing(s: State, c: nat, info: Info)
    requires Inv(s) && c < |s.tables| && Search(s.tables[c], info).1.Missed?
    ensures var (t, out) := Search(s.tables[c], info);
            !Takeable(AfterSearch(s, c, t, out == Missed(true)).tables[c], info)
  {
    var (t, out) := Search(s.tables[c], info);
    SearchAgreesWithScan(s.tables[c], info);
    assert AfterSearch(s, c, t, out == Missed(true)).tables[c].heads == t.heads;
    forall id: nat
      ensures !TakenBy(t, id, info)
    {
      if TakenBy(t, id, info) {
        SearchMonotone(s.tables[c], info, id, info);
      }
    }
    var t' := AfterSearch(s, c, t, out == Missed(true)).tables[c];
    assert forall id: nat :: TakenBy(t', id, info) <==> TakenBy(t, id, info);
  }

  // ----- changes to one message

  lemma {:induction false} MinusSpec(q: seq<nat>, gone: set<nat>)
    ensures forall m :: m in Minus(q, gone) <==> m in q && m !in gone
    ensures NoDup(q) ==> NoDup(Minus(q, gone))
  {
    if q != [] {
      assert q == [q[0]] + q[1..];
      MinusSpec(q[1..], gone);
    }
  }

  /** s' is s with message m taken off the stealing list, at pc, perhaps with a new owner. */
  ghost predicate Removed(s: State, s': State, m: nat) {
    && m < |s.pcs| == |s.owner| == |s.infos| == |s'.pcs| == |s'.owner|
    && s' == s.(pcs := s'.pcs, owner := s'.owner, stealing := s'.stealing, slices := s'.slices, refused := s'.refused)
    && s'.pcs == s.pcs[m := s'.pcs[m]]
    && s'.owner == s.owner[m := s'.owner[m]]
    && (forall x :: x in s'.stealing <==> x in s.stealing && x != m)
    && NoDup(s'.stealing)
  }

  lemma RemovedKeeps(s: State, s': State, m: nat)
    requires Inv(s) && Removed(s, s', m)
    requires m !in s.delayed && s.mover != Some(m)
    requires !s'.pcs[m].Stealing? && PlaceOk(s'.pcs[m], s'.owner[m].Some?, false, false, false)
    ensures Inv(s')
  {
    assert Valid(s'.stealing, s'.infos) by {
      forall j | 0 <= j < |s'.stealing|
        ensures s'.stealing[j] < |s'.infos|
      {
        assert s'.stealing[j] in s'.stealing;
        assert s'.stealing[j] in s.stealing;
      }
    }
    assert WellFormed(s');
    forall x | 0 <= x < |s'.pcs|
      ensures PlaceOk(s'.pcs[x], s'.owner[x].Some?, x in s'.stealing, x in s'.delayed, s'.mover == Some(x))
    {
      assert PlaceOk(s.pcs[x], s.owner[x].Some?, x in s.stealing, x in s.delayed, s.mover == Some(x));
    }
    assert SlotsOk(s') && MoverOk(s') && Noticed(s');
    forall a | 0 <= a < |s'.locks| && s'.locks[a].Attaching?
      ensures AttacherOk(s', a)
    {
      assert AttacherOk(s, a);
    }
  }

  /** The thread of a message that is on no list goes on to pc. */
  lemma FreshGoesOn(s: State, m: nat, s': State)
    requires Inv(s) && m < |s.pcs| && s.pcs[m].Fresh? && m < |s'.pcs| && m < |s'.owner|
    requires !s'.pcs[m].Stealing? && PlaceOk(s'.pcs[m], s'.owner[m].Some?, false, false, false)
    requires s' == s.(pcs := s.pcs[m := s'.pcs[m]], owner := s.owner[m := s'.owner[m]], slices := s'.slices, refused := s'.refused)
    ensures Inv(s')
  {
    assert PlaceOk(s.pcs[m], s.owner[m].Some?, m in s.stealing, m in s.delayed, s.mover == Some(m));
    assert Removed(s, s', m);
    RemovedKeeps(s, s', m);
  }

  lemma FirstKeeps(s: State, m: nat, out: Outcome, ready: bool)
    requires Inv(s) && m < |s.pcs| && s.pcs[m].Fresh?
    ensures Inv(AfterFirst(s, m, out, ready))
  {
    assert PlaceOk(s.pcs[m], s.owner[m].Some?, m in s.stealing, m in s.delayed, s.mover == Some(m));
    assert s.owner[m := None] == s.owner;
    if !out.Missed? || !s.lazy || ready {
      FreshGoesOn(s, m, AfterFirst(s, m, out, ready));
    }
  }

  lemma ArriveKeeps(s: State, step: Step)
    requires Inv(s) && step.Arrive? && Enabled(s, step)
    ensures Inv(Apply(s, step))
  {
    var Arrive(m, c, ready) := step;
    var (t, out) := Search(s.tables[c], s.infos[m]);
    SearchKeeps(s, c, s.infos[m]);
    FirstKeeps(AfterSearch(s, c, t, out == Missed(true)), m, out, ready);
  }

  lemma QueueSpec(s: State, m: nat)
    requires Inv(s) && m < |s.pcs| && s.pcs[m].Stealing?
    ensures NoDup(Queue(s, m, s.pcs[m].i)) && Valid(Queue(s, m, s.pcs[m].i), s.infos)
    ensures forall x :: x in Queue(s, m, s.pcs[m].i) <==> x in s.stealing || (s.pcs[m].i == 0 && x == m)
    ensures m !in s.delayed && s.mover != Some(m)
    ensures m in Queue(s, m, s.pcs[m].i) ==> s.owner[m].None?
  {
    assert PlaceOk(s.pcs[m], s.owner[m].Some?, m in s.stealing, m in s.delayed, s.mover == Some(m));
  }

  /** The message stays on the stealing list for another round. */
  function NextRound(s: State, m: nat): State
    requires m < |s.pcs| && s.pcs[m].Stealing?
  {
    Goto(s, m, Stealing(s.pcs[m].first, s.pcs[m].i + 1)).(stealing := Queue(s, m, s.pcs[m].i))
  }

  ghost predicate CanStay(s: State, m: nat) {
    && Inv(s) && m < |s.pcs| && s.pcs[m].Stealing? && s.pcs[m].i + 1 < |s.tables|
    && m in Queue(s, m, s.pcs[m].i)
    && var c := Round(s.pcs[m].first, s.pcs[m].i, |s.tables|);
       !Takeable(s.tables[c], s.infos[m]) && NotBlindAt(s, c)
  }

  lemma NextRoundKeeps(s: State, m: nat)
    requires CanStay(s, m)
    ensures Inv(NextRound(s, m))
  {
    var s' := NextRound(s, m);
    NextRoundPlaces(s, m);
    NextRoundCovered(s, m);
    assert SlotsOk(s') && MoverOk(s') && Noticed(s');
    forall a | 0 <= a < |s'.locks| && s'.locks[a].Attaching?
      ensures AttacherOk(s', a)
    {
      NextRoundAttacher(s, m, a);
    }
  }

  lemma NextRoundPlaces(s: State, m: nat)
    requires CanStay(s, m)
    ensures WellFormed(NextRound(s, m)) && PlacesOk(NextRound(s, m))
  {
    var s' := NextRound(s, m);
    QueueSpec(s, m);
    forall x | 0 <= x < |s'.pcs|
      ensures PlaceOk(s'.pcs[x], s'.owner[x].Some?, x in s'.stealing, x in s'.delayed, s'.mover == Some(x))
    {
      assert PlaceOk(s.pcs[x], s.owner[x].Some?, x in s.stealing, x in s.delayed, s.mover == Some(x));
    }
  }

  lemma NextRoundCovered(s: State, m: nat)
    requires CanStay(s, m) && WellFormed(NextRound(s, m))
    ensures Covered(NextRound(s, m))
  {
    var s' := NextRound(s, m);
    QueueSpec(s, m);
    forall x, b | x in s'.stealing && 0 <= b < |s'.tables| && Visited(s'.pcs[x], b, |s'.tables|)
      ensures !Takeable(s'.tables[b], s'.infos[x])
    {
      if x == m {
        VisitedNext(s.pcs[m].first, s.pcs[m].i, b, |s.tables|);
      }
    }
  }

  lemma VisitedNext(first: nat, i: nat, b: nat, n: nat)
    requires n > 0
    ensures Visited(Stealing(first, i + 1), b, n) <==> Visited(Stealing(first, i), b, n) || b == Round(first, i, n)
  {
    if Visited(Stealing(first, i + 1), b, n) {
      var j: nat :| j < i + 1 && Round(first, j, n) == b;
    }
  }

  lemma NextRoundAttacher(s: State, m: nat, a: nat)
    requires CanStay(s, m) && a < |s.locks| && s.locks[a].Attaching?
    ensures WellFormed(NextRound(s, m)) && AttacherOk(NextRound(s, m), a)
  {
    var s' := NextRound(s, m);
    QueueSpec(s, m);
    VisitedNext(s.pcs[m].first, s.pcs[m].i, a, |s.tables|);
    assert AttacherOk(s, a);
    assert forall x: nat | x < |s.infos| :: WantsAt(s', a, x) <==> WantsAt(s, a, x);
  }

  /** No thread is about to leave table c without scanning. */
  ghost predicate NotBlindAt(s: State, c: nat)
    requires WellFormed(s) && c < |s.locks|
  {
    s.locks[c].Attaching? ==> s.tables[c].bits[s.locks[c].p]
  }

  lemma SkipKeeps(s: State, step: Step)
    requires Inv(s) && step.Skip? && Enabled(s, step)
    ensures Inv(Apply(s, step))
  {
    var m := step.m;
    var c := Round(s.pcs[m].first, s.pcs[m].i, |s.tables|);
    NothingLeft(s.tables[c], s.infos[m]);
    assert PlaceOk(s.pcs[m], s.owner[m].Some?, m in s.stealing, m in s.delayed, s.mover == Some(m));
    if m in s.stealing {
      NextRoundKeeps(s, m);
      assert Apply(s, step) == NextRound(s, m);
    } else {
      StrayKeeps(s, m, Stealing(s.pcs[m].first, s.pcs[m].i + 1));
    }
  }

  /** A thread whose message another thread took off the stealing list moves on. */
  lemma StrayKeeps(s: State, m: nat, pc: Pc)
    requires Inv(s) && m < |s.pcs| && m !in s.stealing && m !in s.delayed && s.mover != Some(m)
    requires ShapedPc(pc, |s.tables|) && PlaceOk(pc, s.owner[m].Some?, false, false, false)
    ensures Inv(Goto(s, m, pc))
  {
    var s' := Goto(s, m, pc);
    forall x | 0 <= x < |s'.pcs|
      ensures PlaceOk(s'.pcs[x], s'.owner[x].Some?, x in s'.stealing, x in s'.delayed, s'.mover == Some(x))
    {
      assert PlaceOk(s.pcs[x], s.owner[x].Some?, x in s.stealing, x in s.delayed, s.mover == Some(x));
    }
    assert SlotsOk(s') && MoverOk(s') && Noticed(s');
    forall a | 0 <= a < |s'.locks| && s'.locks[a].Attaching?
      ensures AttacherOk(s', a)
    {
      assert AttacherOk(s, a);
    }
  }

  /** The state in which the message is in transit. */
  function InTransit(s: State, m: nat, c: nat, q: seq<nat>): State
    requires m < |s.pcs| && c < |s.locks|
  {
    Goto(s, m, Moving(c)).(stealing := Minus(q, {m}), mover := Some(m), locks := s.locks[c := Mover])
  }

  lemma TransitPlaces(s: State, m: nat, c: nat)
    requires Inv(s) && m < |s.pcs| && s.pcs[m].Stealing? && s.mover.None?
    requires c < |s.locks| && s.locks[c].Free? && m in Queue(s, m, s.pcs[m].i)
    ensures var s' := InTransit(s, m, c, Queue(s, m, s.pcs[m].i));
            && WellFormed(s') && PlacesOk(s') && SlotsOk(s') && MoverOk(s')
            && (forall x :: x in s'.stealing ==> x in s.stealing && x != m)
  {
    var q := Queue(s, m, s.pcs[m].i);
    var s' := InTransit(s, m, c, q);
    QueueSpec(s, m);
    MinusSpec(q, {m});
    assert Valid(s'.stealing, s'.infos) by {
      forall j | 0 <= j < |s'.stealing|
        ensures s'.stealing[j] < |s'.infos|
      {
        assert s'.stealing[j] in s'.stealing;
        assert s'.stealing[j] in s.stealing;
      }
    }
    forall x | 0 <= x < |s'.pcs|
      ensures PlaceOk(s'.pcs[x], s'.owner[x].Some?, x in s'.stealing, x in s'.delayed, s'.mover == Some(x))
    {
      TransitPlace(s, m, c, x);
    }
  }

  lemma TransitPlace(s: State, m: nat, c: nat, x: nat)
    requires Inv(s) && m < |s.pcs| && s.pcs[m].Stealing? && s.mover.None? && x < |s.pcs|
    requires c < |s.locks| && m in Queue(s, m, s.pcs[m].i)
    ensures var s' := InTransit(s, m, c, Queue(s, m, s.pcs[m].i));
            PlaceOk(s'.pcs[x], s'.owner[x].Some?, x in s'.stealing, x in s'.delayed, s'.mover == Some(x))
  {
    QueueSpec(s, m);
    MinusSpec(Queue(s, m, s.pcs[m].i), {m});
    assert PlaceOk(s.pcs[x], s.owner[x].Some?, x in s.stealing, x in s.delayed, s.mover == Some(x));
  }

  /** Taking the message into transit is safe if no table takes it and no blind attacher wants it. */
  lemma TransitKeeps(s: State, m: nat, c: nat)
    requires Inv(s) && m < |s.pcs| && s.pcs[m].Stealing? && s.mover.None?
    requires c < |s.locks| && s.locks[c].Free? && m in Queue(s, m, s.pcs[m].i)
    requires forall b | 0 <= b < |s.tables| :: !Takeable(s.tables[b], s.infos[m])
    requires forall b | 0 <= b < |s.locks| && s.locks[b].Attaching? && s.locks[b].stage.SawNoDelayed? &&
               !s.tables[b].bits[s.locks[b].p] :: !WantsAt(s, b, m)
    ensures Inv(InTransit(s, m, c, Queue(s, m, s.pcs[m].i)))
  {
    var s' := InTransit(s, m, c, Queue(s, m, s.pcs[m].i));
    TransitPlaces(s, m, c);
    assert Covered(s');
    assert Noticed(s');
    forall a | 0 <= a < |s'.locks| && s'.locks[a].Attaching?
      ensures AttacherOk(s', a)
    {
      assert AttacherOk(s, a);
      AttacherStays(s, s', m, a);
    }
  }

  /** An attaching thread is not disturbed by a message that moves between the lists and does not bother it. */
  lemma AttacherStays(s: State, s': State, m: nat, a: nat)
    requires WellFormed(s) && WellFormed(s') && a < |s.locks| == |s'.locks| && s.locks[a].Attaching? && AttacherOk(s, a)
    requires s'.locks[a] == s.locks[a] && s'.tables == s.tables && s'.infos == s.infos
    requires forall x: nat | x in s'.stealing :: x in s.stealing && x != m && x < |s.pcs| && x < |s'.pcs| && s'.pcs[x] == s.pcs[x]
    requires forall x: nat | Waiting(s', x) :: Waiting(s, x) || x == m
    requires m < |s.infos|
    requires Waiting(s', m) && !Waiting(s, m) && s.locks[a].stage.SawNoDelayed? && !s.tables[a].bits[s.locks[a].p] ==>
               !WantsAt(s, a, m)
    ensures AttacherOk(s', a)
  {
    assert forall x: nat | x < |s.infos| :: WantsAt(s', a, x) <==> WantsAt(s, a, x);
  }

  lemma ModOnce(a: nat, n: nat)
    requires 0 < n <= a < 2 * n
    ensures a % n == a - n
  {
    var q := a / n;
    assert a == n * q + a % n;
    assert q == 0 ==> n * q == 0;
    assert q >= 2 ==> n * q >= n * 2;
  }

  /** The rounds of a stealing loop reach every table. */
  lemma RoundsReachAll(first: nat, b: nat, n: nat) returns (j: nat)
    requires first < n && b < n
    ensures j < n && Round(first, j, n) == b
  {
    if b >= first {
      j := b - first;
    } else {
      j := b + n - first;
      ModOnce(b + n, n);
    }
  }

  /** When a stealing loop gives up, it has looked at every table that could have helped. */
  ghost predicate GivesUp(s: State, m: nat, c: nat) {
    && Inv(s) && m < |s.pcs| && s.pcs[m].Stealing? && c == Round(s.pcs[m].first, s.pcs[m].i, |s.tables|)
    && m in Queue(s, m, s.pcs[m].i)
    && s.locks[c].Free? && !Takeable(s.tables[c], s.infos[m])
    && (s.pcs[m].i == |s.tables| - 1 || s.maps == [] || s.maps == [c])
  }

  lemma LastRoundVisitedRest(s: State, m: nat, c: nat, b: nat)
    requires GivesUp(s, m, c) && s.pcs[m].i == |s.tables| - 1 && b < |s.tables| && b != c
    ensures m in s.stealing && Visited(s.pcs[m], b, |s.tables|)
  {
    var j := RoundsReachAll(s.pcs[m].first, b, |s.tables|);
    assert j < s.pcs[m].i && Round(s.pcs[m].first, j, |s.tables|) == b;
  }

  lemma GivingUpIsSafe(s: State, m: nat, c: nat, b: nat)
    requires GivesUp(s, m, c) && b < |s.tables|
    ensures !Takeable(s.tables[b], s.infos[m])
    ensures s.locks[b].Attaching? && s.locks[b].stage.SawNoDelayed? && !s.tables[b].bits[s.locks[b].p] ==>
              !WantsAt(s, b, m)
  {
    if b != c {
      if s.pcs[m].i == |s.tables| - 1 {
        LastRoundVisitedRest(s, m, c, b);
        assert s.locks[b].Attaching? ==> AttacherOk(s, b);
      } else {
        assert b !in s.maps;
        NothingLeft(s.tables[b], s.infos[m]);
      }
    }
  }

  lemma VisitKeeps(s: State, step: Step)
    requires Inv(s) && step.Visit? && Enabled(s, step)
    ensures Inv(Apply(s, step))
  {
    var m := step.m;
    var Stealing(first, i) := s.pcs[m];
    var c := Round(first, i, |s.tables|);
    var q := Queue(s, m, i);
    QueueSpec(s, m);
    if m !in q {
      StrayKeeps(s, m, if s.owner[m].None? then DoneDrop else DoneOk);
    } else {
      var (t, out) := Search(s.tables[c], s.infos[m]);
      var s1 := AfterSearch(s, c, t, out == Missed(true));
      SearchKeeps(s, c, s.infos[m]);
      if out.Missed? {
        MissLeavesNothing(s, c, s.infos[m]);
      }
      AfterRoundKeeps(s1, m, c, out);
    }
  }

  /** What a round does once it has searched its table. */
  lemma AfterRoundKeeps(s: State, m: nat, c: nat, out: Outcome)
    requires Inv(s) && CanVisit(s, m) && m in Queue(s, m, s.pcs[m].i)
    requires c == Round(s.pcs[m].first, s.pcs[m].i, |s.tables|)
    requires out.Missed? ==> !Takeable(s.tables[c], s.infos[m])
    ensures Inv(AfterRound(s, m, c, out))
  {
    var i, s' := s.pcs[m].i, AfterRound(s, m, c, out);
    if !out.Missed? || !s.lazy {
      AnsweredKeeps(s, m, c, out);
    } else if i == |s.tables| - 1 || s.maps == [] || s.maps == [c] {
      assert GivesUp(s, m, c);
      GivingUpKeeps(s, m, c);
      assert s' == InTransit(s, m, c, Queue(s, m, i));
    } else {
      assert CanStay(s, m);
      NextRoundKeeps(s, m);
      assert s' == NextRound(s, m);
    }
  }

  lemma AnsweredKeeps(s: State, m: nat, c: nat, out: Outcome)
    requires Inv(s) && CanVisit(s, m) && m in Queue(s, m, s.pcs[m].i) && c < |s.locks| && (!out.Missed? || !s.lazy)
    ensures Inv(AfterRound(s, m, c, out))
  {
    var s' := AfterRound(s, m, c, out);
    QueueSpec(s, m);
    MinusSpec(Queue(s, m, s.pcs[m].i), {m});
    assert Removed(s, s', m);
    RemovedKeeps(s, s', m);
  }

  lemma GivingUpKeeps(s: State, m: nat, c: nat)
    requires GivesUp(s, m, c) && s.mover.None?
    ensures Inv(InTransit(s, m, c, Queue(s, m, s.pcs[m].i)))
  {
    forall b | 0 <= b < |s.tables|
      ensures !Takeable(s.tables[b], s.infos[m])
      ensures s.locks[b].Attaching? && s.locks[b].stage.SawNoDelayed? && !s.tables[b].bits[s.locks[b].p] ==>
                !WantsAt(s, b, m)
    {
      GivingUpIsSafe(s, m, c, b);
    }
    TransitKeeps(s, m, c);
  }

  // ----- the attaching thread

  /** Only the holder of lock c changes, and it holds the lock as an attacher before and after. */
  lemma LockKeeps(s: State, c: nat, l: ResLock, nextId: nat)
    requires Inv(s) && c < |s.locks| && (s.locks[c].Free? || s.locks[c].Attaching?) && l.Attaching?
    requires ShapedLock(l, s.tables[c]) && s.tables[c].heads[l.p][l.k].md.None?
    requires var s' := s.(locks := s.locks[c := l], nextId := nextId); WellFormed(s') && AttacherOk(s', c)
    ensures Inv(s.(locks := s.locks[c := l], nextId := nextId))
  {
    var s' := s.(locks := s.locks[c := l], nextId := nextId);
    assert Covered(s') && Noticed(s');
    forall a | 0 <= a < |s'.locks| && s'.locks[a].Attaching?
      ensures AttacherOk(s', a)
    {
      if a != c {
        assert AttacherOk(s, a);
        assert forall x: nat | x < |s.infos| :: WantsAt(s', a, x) <==> WantsAt(s, a, x);
      }
    }
  }

  lemma AttachStagesKeep(s: State, step: Step)
    requires Inv(s) && (step.BeginAttach? || step.ReadStealing? || step.ReadDelayed?) && Enabled(s, step)
    ensures Inv(Apply(s, step))
  {
    var c, s' := step.c, Apply(s, step);
    assert WellFormed(s');
    if step.ReadDelayed? && s.delayed == [] {
      assert AttacherOk(s, c);
      assert forall x: nat | x < |s.infos| :: WantsAt(s', c, x) <==> WantsAt(s, c, x);
    }
    assert AttacherOk(s', c);
    assert s' == s.(locks := s.locks[c := s'.locks[c]], nextId := s'.nextId);
    LockKeeps(s, c, s'.locks[c], s'.nextId);
  }

  /** Joining a bucket whose bit is clear keeps the table sound. */
  lemma SettledSound(t: Table, p: nat, k: nat, md: Md)
    requires Sound(t) && p < BUCKETS && k < |t.heads[p]| && (t.bits[p] ==> Exhausted(md))
    ensures Sound(Settled(t, p, k, md))
  {
    var t' := Settled(t, p, k, md);
    forall q, i | 0 <= q < BUCKETS && 0 <= i < |t'.heads[q]|
      ensures Home(t'.heads[q][i].me) == q
      ensures t'.bits[q] ==> EntrySpent(t'.heads[q][i])
    {
      assert Home(t.heads[q][i].me) == q;
      assert t.bits[q] ==> EntrySpent(t.heads[q][i]);
    }
  }

  /** The state after the thread at c leaves with table t and lets go of its lock. */
  function Left(s: State, c: nat, t: Table, maps: seq<nat>, raced: set<(nat, nat)>): State
    requires c < |s.tables| == |s.locks|
  {
    s.(tables := s.tables[c := t], locks := s.locks[c := Free], maps := maps, raced := raced)
  }

  /**
    The thread at c leaves behind table t, which takes no more than before plus what md wants:
    none of that is on the stealing list, and what is waiting has raced.
  */
  lemma LeavingKeeps(s: State, c: nat, t: Table, maps: seq<nat>, raced: set<(nat, nat)>, me: Me, md: Md)
    requires Inv(s) && c < |s.tables| && s.locks[c].Attaching? && Sound(t) && s.raced <= raced
    requires TablesOk(s.tables[c := t], maps)
    requires forall id: nat, info | TakenBy(t, id, info) ::
               TakenBy(s.tables[c], id, info) || (Wants(me, md, info) && md.id == id)
    requires forall m: nat | m in s.stealing && Wants(me, md, s.infos[m]) :: !Visited(s.pcs[m], c, |s.tables|)
    requires forall m: nat | Waiting(s, m) && Wants(me, md, s.infos[m]) :: (m, md.id) in raced
    ensures Inv(Left(s, c, t, maps, raced))
  {
    var s' := Left(s, c, t, maps, raced);
    assert WellFormed(s') && SlotsOk(s') && PlacesOk(s') && MoverOk(s');
    assert Covered(s');
    assert Noticed(s');
    forall a | 0 <= a < |s'.locks| && s'.locks[a].Attaching?
      ensures AttacherOk(s', a)
    {
      assert AttacherOk(s, a);
      assert forall x: nat | x < |s.infos| :: WantsAt(s', a, x) <==> WantsAt(s, a, x);
    }
  }

  lemma TestBitKeeps(s: State, step: Step)
    requires Inv(s) && step.TestBit? && Enabled(s, step)
    ensures Inv(Apply(s, step))
  {
    var c, s' := step.c, Apply(s, step);
    var Attaching(stage, p, k, md) := s.locks[c];
    if s.tables[c].bits[p] {
      assert WellFormed(s');
      LockKeeps(s, c, Attaching(WillLock, p, k, md), s.nextId);
    } else {
      var t := s.tables[c];
      var me := t.heads[p][k].me;
      assert AttacherOk(s, c);
      SettledSound(t, p, k, md);
      forall id: nat, info | TakenBy(Settled(t, p, k, md), id, info)
        ensures TakenBy(t, id, info) || (Wants(me, md, info) && md.id == id)
      {
        SettledTakes(t, p, k, md, id, info);
      }
      SameEnabled(s, c, Settled(t, p, k, md));
      assert forall m: nat | m in s.stealing && Wants(me, md, s.infos[m]) :: WantsAt(s, c, m);
      assert forall m: nat | Waiting(s, m) && Wants(me, md, s.infos[m]) :: WantsAt(s, c, m);
      LeavingKeeps(s, c, Settled(t, p, k, md), s.maps, s'.raced, me, md);
    }
  }

  // ----- scanning

  /** The queues and messages after both scans; the thread still holds its lock. */
  function Taken(s: State, id: nat, r1: Scanned, r2: Scanned): State
    requires |s.pcs| == |s.owner|
  {
    s.(stealing := r1.rest,
       delayed := r2.rest,
       owner := seq(|s.owner|, m requires 0 <= m < |s.owner| =>
                  if m in r1.ok || m in r2.ok then Some(id) else s.owner[m]),
       pcs := seq(|s.pcs|, m requires 0 <= m < |s.pcs| =>
                if m in r2.ok then DoneOk else if m in r2.refused then DoneDrop else s.pcs[m]),
       slices := s.slices + r1.slices + r2.slices,
       refused := s.refused + r1.refused + r2.refused)
  }

  /** What ScanSpec says of both scans together. */
  ghost predicate Split(s: State, r1: Scanned, r2: Scanned) {
    && Splits(s.stealing, r1) && Splits(s.delayed, r2)
    && (forall m: nat | m in r1.rest || m in r2.rest :: m < |s.infos|)
  }

  lemma ScanBothSpec(s: State, me: Me, md: Md)
    requires Inv(s)
    ensures var (r1, r2) := ScanBoth(me, md, s);
            && Split(s, r1, r2)
            && r2.md.id == md.id
            && (r2.spent ==> Exhausted(r2.md))
            && (r2.unlinked ==> r2.spent)
            && (forall m: nat | m in r1.rest || m in r2.rest :: !Wants(me, r2.md, s.infos[m]))
  {
    ScanSpec(me, md, s.stealing, s.infos);
    var (r1, r2) := ScanBoth(me, md, s);
    if r1.spent {
      assert forall m | m in s.delayed :: m < |s.infos|;
    } else {
      ScanSpec(me, r1.md, s.delayed, s.infos);
      forall m: nat | m in r1.rest
        ensures !Wants(me, r2.md, s.infos[m])
      {
        assert !Wants(me, r1.md, s.infos[m]);
        assert Accepts(me, r1.md, s.infos[m]) <==> Accepts(me, r2.md, s.infos[m]);
        if Exhausted(r1.md) {
          StillExhausted(me, r1.md, s.delayed, s.infos);
        }
      }
    }
  }

  /** A scan does not revive an exhausted descriptor. */
  lemma StillExhausted(me: Me, md: Md, queue: seq<nat>, infos: seq<Info>)
    requires Valid(queue, infos) && Exhausted(md)
    ensures Scan(me, md, queue, infos).md == md
  {
    OfferingSteady(me, infos);
    ScanLeaves(Offering(me, infos), md, queue);
    MdBeforeExhausted(Offering(me, infos), md, queue, |queue|);
  }

  lemma TakenKeeps(s: State, id: nat, r1: Scanned, r2: Scanned)
    requires Inv(s) && Split(s, r1, r2)
    ensures Inv(Taken(s, id, r1, r2))
  {
    var s' := Taken(s, id, r1, r2);
    TakenPlaces(s, id, r1, r2);
    assert forall m | m in s'.stealing :: s'.pcs[m] == s.pcs[m] by {
      forall m | m in s'.stealing
        ensures s'.pcs[m] == s.pcs[m]
      {
        assert PlaceOk(s.pcs[m], s.owner[m].Some?, m in s.stealing, m in s.delayed, s.mover == Some(m));
      }
    }
    assert SlotsOk(s') && Covered(s') && Noticed(s');
    assert MoverOk(s') by {
      if s.mover.Some? {
        var m := s.mover.value;
        assert PlaceOk(s.pcs[m], s.owner[m].Some?, m in s.stealing, m in s.delayed, s.mover == Some(m));
      }
    }
    forall a | 0 <= a < |s'.locks| && s'.locks[a].Attaching?
      ensures AttacherOk(s', a)
    {
      assert AttacherOk(s, a);
      assert forall x: nat | x < |s.infos| :: WantsAt(s', a, x) <==> WantsAt(s, a, x);
    }
  }

  lemma TakenPlaces(s: State, id: nat, r1: Scanned, r2: Scanned)
    requires Inv(s) && Split(s, r1, r2)
    ensures WellFormed(Taken(s, id, r1, r2)) && PlacesOk(Taken(s, id, r1, r2))
  {
    var s' := Taken(s, id, r1, r2);
    assert forall j | 0 <= j < |r1.rest| :: r1.rest[j] in r1.rest;
    assert forall j | 0 <= j < |r2.rest| :: r2.rest[j] in r2.rest;
    forall x | 0 <= x < |s'.pcs|
      ensures PlaceOk(s'.pcs[x], s'.owner[x].Some?, x in s'.stealing, x in s'.delayed, s'.mover == Some(x))
      ensures ShapedPc(s'.pcs[x], |s'.tables|)
    {
      assert PlaceOk(s.pcs[x], s.owner[x].Some?, x in s.stealing, x in s.delayed, s.mover == Some(x));
      assert ShapedPc(s.pcs[x], |s.tables|);
    }
  }

  lemma SettledAfterScanSound(t: Table, p: nat, k: nat, r: Scanned)
    requires Sound(t) && Active(t) && p < BUCKETS && k < |t.heads[p]| && t.heads[p][k].md.None?
    requires (r.spent ==> Exhausted(r.md)) && (r.unlinked ==> r.spent)
    ensures Sound(SettledAfterScan(t, p, k, r)) && Active(SettledAfterScan(t, p, k, r))
  {
    if r.unlinked {
      assert Home(t.heads[p][k].me) == p;
      BucketSound(t, p, t.heads[p][..k] + t.heads[p][k + 1..], t.heads[p][k]);
    } else if r.spent {
      SettledSound(t, p, k, r.md);
    } else {
      SettledSound(t.(bits := t.bits[p := false], enabled := true), p, k, r.md);
      assert SettledAfterScan(t, p, k, r) == Settled(t.(bits := t.bits[p := false], enabled := true), p, k, r.md);
    }
  }

  lemma LockAndScanKeeps(s: State, step: Step)
    requires Inv(s) && step.LockAndScan? && Enabled(s, step)
    ensures Inv(Apply(s, step))
  {
    var c := step.c;
    var Attaching(_, p, k, md) := s.locks[c];
    var t := s.tables[c];
    var me := t.heads[p][k].me;
    var (r1, r2) := ScanBoth(me, md, s);
    ScanBothSpec(s, me, md);
    TakenKeeps(s, md.id, r1, r2);
    var s1 := Taken(s, md.id, r1, r2);
    var t' := SettledAfterScan(t, p, k, r2);
    var maps := if r2.spent || t.enabled then s.maps else PortalMaps.Insert(s.maps, c);
    SettledAfterScanSound(t, p, k, r2);
    MapsAfterScan(s, c, t', maps, r2);
    forall id: nat, info | TakenBy(t', id, info)
      ensures TakenBy(t, id, info) || (Wants(me, r2.md, info) && r2.md.id == id)
    {
      SettledAfterScanTakes(t, p, k, r2, id, info);
    }
    LeavingKeeps(s1, c, t', maps, s.raced, me, r2.md);
    assert Apply(s, step) == Left(s1, c, t', maps, s.raced);
  }

  lemma MapsAfterScan(s: State, c: nat, t': Table, maps: seq<nat>, r: Scanned)
    requires Inv(s) && c < |s.tables| && Sound(t') && Active(t')
    requires t'.enabled == (if r.spent then s.tables[c].enabled else true)
    requires maps == if r.spent || s.tables[c].enabled then s.maps else PortalMaps.Insert(s.maps, c)
    ensures TablesOk(s.tables[c := t'], maps)
  {
    if r.spent || s.tables[c].enabled {
      TableReplaced(s.tables, c, t', s.maps);
    } else {
      PortalMaps.InsertSorted(s.maps, c);
    }
  }

  lemma TableReplaced(tables: seq<Table>, c: nat, t': Table, maps: seq<nat>)
    requires TablesOk(tables, maps) && c < |tables| && Sound(t') && Active(t') && t'.enabled == tables[c].enabled
    ensures TablesOk(tables[c := t'], maps)
  {
  }

  // ----- the rest

  lemma ParkPlaces(s: State, m: nat)
    requires Inv(s) && Enabled(s, Park(m))
    ensures var s' := Apply(s, Park(m)); WellFormed(s') && SlotsOk(s') && PlacesOk(s') && MoverOk(s')
    ensures m !in s.stealing && forall x: nat :: Waiting(Apply(s, Park(m)), x) <==> Waiting(s, x)
  {
    var s' := Apply(s, Park(m));
    assert PlaceOk(s.pcs[m], s.owner[m].Some?, m in s.stealing, m in s.delayed, s.mover == Some(m));
    forall x | 0 <= x < |s'.pcs|
      ensures PlaceOk(s'.pcs[x], s'.owner[x].Some?, x in s'.stealing, x in s'.delayed, s'.mover == Some(x))
    {
      assert PlaceOk(s.pcs[x], s.owner[x].Some?, x in s.stealing, x in s.delayed, s.mover == Some(x));
    }
  }

  lemma ParkKeeps(s: State, step: Step)
    requires Inv(s) && step.Park? && Enabled(s, step)
    ensures Inv(Apply(s, step))
  {
    var m, s' := step.m, Apply(s, step);
    ParkPlaces(s, m);
    assert Covered(s') && Noticed(s');
    forall a | 0 <= a < |s'.locks| && s'.locks[a].Attaching?
      ensures AttacherOk(s', a)
    {
      assert AttacherOk(s, a);
      AttacherStays(s, s', m, a);
    }
  }

  lemma DropDelayedKeeps(s: State, step: Step)
    requires Inv(s) && step.DropDelayed? && Enabled(s, step)
    ensures Inv(Apply(s, step))
  {
    var which, s' := step.which, Apply(s, step);
    MinusSpec(s.delayed, which);
    assert forall j | 0 <= j < |s'.delayed| :: s'.delayed[j] in s'.delayed;
    assert forall m | m in s'.delayed :: m in s.delayed && m < |s.infos|;
    forall x | 0 <= x < |s'.pcs|
      ensures PlaceOk(s'.pcs[x], s'.owner[x].Some?, x in s'.stealing, x in s'.delayed, s'.mover == Some(x))
      ensures ShapedPc(s'.pcs[x], |s'.tables|)
    {
      assert PlaceOk(s.pcs[x], s.owner[x].Some?, x in s.stealing, x in s.delayed, s.mover == Some(x));
      assert ShapedPc(s.pcs[x], |s.tables|);
    }
    forall m | m in s'.stealing
      ensures s'.pcs[m] == s.pcs[m]
    {
      assert PlaceOk(s.pcs[m], s.owner[m].Some?, m in s.stealing, m in s.delayed, s.mover == Some(m));
    }
    assert WellFormed(s') && SlotsOk(s') && PlacesOk(s') && MoverOk(s') && Covered(s') && Noticed(s');
  }

  lemma SmallStepsKeep(s: State, step: Step)
    requires Inv(s) && (step.EnterDelay? || step.SetLazy?) && Enabled(s, step)
    ensures Inv(Apply(s, step))
  {
    var s' := Apply(s, step);
    if step.EnterDelay? {
      var m := step.m;
      assert PlaceOk(s.pcs[m], s.owner[m].Some?, m in s.stealing, m in s.delayed, s.mover == Some(m));
      StrayKeeps(s, m, Stealing(step.first, 0));
    } else {
      assert WellFormed(s') && SlotsOk(s') && PlacesOk(s') && MoverOk(s') && Covered(s') && Noticed(s');
    }
  }

  lemma InvPreserved(s: State, step: Step)
    requires Inv(s) && Enabled(s, step)
    ensures Inv(Apply(s, step))
  {
    match step
    case AddEntry(_, _, _) => AddEntryKeeps(s, step);
    case Unlink(_, _, _, _) => UnlinkKeeps(s, step);
    case BeginAttach(_, _, _, _) => AttachStagesKeep(s, step);
    case ReadStealing(_) => AttachStagesKeep(s, step);
    case ReadDelayed(_) => AttachStagesKeep(s, step);
    case TestBit(_) => TestBitKeeps(s, step);
    case LockAndScan(_) => LockAndScanKeeps(s, step);
    case Arrive(_, _, _) => ArriveKeeps(s, step);
    case EnterDelay(_, _) => SmallStepsKeep(s, step);
    case Skip(_) => SkipKeeps(s, step);
    case Visit(_) => VisitKeeps(s, step);
    case Park(_) => ParkKeeps(s, step);
    case DropDelayed(_, _) => DropDelayedKeeps(s, step);
    case SetLazy => SmallStepsKeep(s, step);
  }

  lemma {:induction false} ExecInv(s: State, steps: seq<Step>)
    requires Inv(s) && Feasible(s, steps)
    ensures Inv(Exec(s, steps))
    decreases |steps|
  {
    if steps != [] {
      InvPreserved(s, steps[0]);
      ExecInv(Apply(s, steps[0]), steps[1..]);
    }
  }
}
