/**
  Commit and decommit of messages over two partitions (lnet_msg_commit, lnet_msg_decommit and
  lnet_resend_msg_locked in lnet/lnet/lib-msg.c).

  Each step is a stretch of code that runs under one partition lock; `Section` names that lock.
  list_del is modelled as it is in the source: it takes the message off whatever list holds it,
  without being told which one that is.
*/
module MsgCommit {
  import opened Collections

  /** Progress of a multi-section operation on a message. */
  datatype Stage =
    | Ready
    | Leaving       // decommitted for sending, on the way to the receive section
    | Resending     // off the active list, the send credit not yet given back

  /**
    `forwards` is msg_routing || msg_type == LNET_MSG_REPLY: exactly these are sent while they are
    still committed for receiving.
  */
  datatype Msg = Msg(tx: Option<nat>, rx: Option<nat>, onActive: bool, forwards: bool, stage: Stage)

  /** `unlinked[c]` counts the resend unlinks that leave lcc_msgs_alloc of partition c alone. */
  datatype State = State(msgs: seq<Msg>, active: seq<seq<nat>>, alloc: seq<int>, unlinked: seq<nat>)

  datatype Step =
    | Prepare(m: nat, forwards: bool)
    | CommitTx(m: nat, c: nat)
    | CommitRx(m: nat, c: nat)
    | DecommitTx(m: nat)        // the send section of lnet_msg_decommit
    | DecommitRx(m: nat)        // its receive section, under that partition's lock
    | Resend(m: nat)            // lnet_resend_msg_locked up to the return of the credit
    | ResendEnd(m: nat)

  /** The queue without m: list_del of m, if it is there. */
  function Without(q: seq<nat>, m: nat): (r: seq<nat>)
    ensures m !in r
    ensures forall x | x != m :: x in q <==> x in r
  {
    if q == [] then []
    else if q[0] == m then Without(q[1..], m)
    else
      assert q == [q[0]] + q[1..];
      [q[0]] + Without(q[1..], m)
  }

  function ListDel(active: seq<seq<nat>>, m: nat): (r: seq<seq<nat>>)
    ensures |r| == |active|
    ensures forall c | 0 <= c < |r| :: r[c] == Without(active[c], m)
  {
    seq(|active|, c requires 0 <= c < |active| => Without(active[c], m))
  }

  predicate WellFormed(s: State) {
    && |s.alloc| == |s.active| == |s.unlinked|
    && (forall m | 0 <= m < |s.msgs| && s.msgs[m].tx.Some? :: s.msgs[m].tx.value < |s.active|)
    && (forall m | 0 <= m < |s.msgs| && s.msgs[m].rx.Some? :: s.msgs[m].rx.value < |s.active|)
  }

  predicate Enabled(s: State, step: Step) {
    && WellFormed(s)
    && step.m < |s.msgs|
    && var msg := s.msgs[step.m];
       match step
       case Prepare(_, _) => msg.stage.Ready? && msg.tx.None? && (msg.rx.Some? ==> step.forwards)
       case CommitTx(_, c) => msg.stage.Ready? && c < |s.active| && msg.tx.None? && (msg.rx.Some? <==> msg.forwards)
       case CommitRx(_, c) => msg.stage.Ready? && c < |s.active| && msg.tx.None? && msg.rx.None?
       case DecommitTx(_) => msg.stage.Ready? && msg.tx.Some?
       // after the send section, or at once if there is nothing to decommit for sending
       case DecommitRx(_) => (msg.stage.Leaving? || (msg.stage.Ready? && msg.tx.None?)) && msg.rx.Some?
       case Resend(_) => msg.stage.Ready? && msg.tx.Some?
       case ResendEnd(_) => msg.stage.Resending?
  }

  /** The partition whose lock the step runs under; Prepare needs none. */
  function Section(s: State, step: Step): Option<nat>
    requires Enabled(s, step)
  {
    var msg := s.msgs[step.m];
    match step
    case Prepare(_, _) => None
    case CommitTx(_, c) => Some(c)
    case CommitRx(_, c) => Some(c)
    case DecommitTx(_) => msg.tx
    case DecommitRx(_) => msg.rx
    case Resend(_) => msg.tx
    case ResendEnd(_) => msg.tx
  }

  /** list_del and the counter of partition c, at the end of lnet_msg_decommit. */
  function Unlink(s: State, m: nat, c: nat, msg: Msg): State
    requires WellFormed(s) && m < |s.msgs| && c < |s.active|
  {
    s.(msgs := s.msgs[m := msg.(onActive := false, stage := Ready)],
       active := ListDel(s.active, m),
       alloc := s.alloc[c := s.alloc[c] - 1])
  }

  /** list_add_tail and the counter, at the end of lnet_msg_commit. */
  function Link(s: State, m: nat, c: nat, msg: Msg): State
    requires WellFormed(s) && m < |s.msgs| && c < |s.active|
  {
    s.(msgs := s.msgs[m := msg.(onActive := true)],
       active := s.active[c := s.active[c] + [m]],
       alloc := s.alloc[c := s.alloc[c] + 1])
  }

  function Apply(s: State, step: Step): State
    requires Enabled(s, step)
  {
    var m, msg := step.m, s.msgs[step.m];
    match step
    case Prepare(_, forwards) => s.(msgs := s.msgs[m := msg.(forwards := forwards)])
    case CommitTx(_, c) =>
      if msg.rx.Some? then s.(msgs := s.msgs[m := msg.(tx := Some(c))])
      else Link(s, m, c, msg.(tx := Some(c)))
    case CommitRx(_, c) => Link(s, m, c, msg.(rx := Some(c)))
    case DecommitTx(_) =>
      if msg.rx.Some? then s.(msgs := s.msgs[m := msg.(tx := None, stage := Leaving)])
      else Unlink(s, m, msg.tx.value, msg.(tx := None))
    case DecommitRx(_) => Unlink(s, m, msg.rx.value, msg.(rx := None))
    case Resend(_) =>
      if msg.forwards then s.(msgs := s.msgs[m := msg.(stage := Resending)])
      else s.(msgs := s.msgs[m := msg.(onActive := false, stage := Resending)],
              active := ListDel(s.active, m),
              unlinked := s.unlinked[msg.tx.value := s.unlinked[msg.tx.value] + 1])
    case ResendEnd(_) => s.(msgs := s.msgs[m := msg.(tx := None, stage := Ready)])
  }

  predicate Init(s: State) {
    && WellFormed(s)
    && (forall m | 0 <= m < |s.msgs| :: s.msgs[m] == Msg(None, None, false, s.msgs[m].forwards, Ready))
    && (forall c | 0 <= c < |s.active| :: s.active[c] == [] && s.alloc[c] == 0 && s.unlinked[c] == 0)
  }

  predicate Feasible(s: State, steps: seq<Step>)
    decreases |steps|
  {
    steps != [] ==> Enabled(s, steps[0]) && Feasible(Apply(s, steps[0]), steps[1..])
  }

  function Exec(s: State, steps: seq<Step>): State
    requires Feasible(s, steps)
    decreases |steps|
  {
    if steps == [] then s else Exec(Apply(s, steps[0]), steps[1..])
  }

  // ----- the invariant

  /** The partition a message must be listed in: the receive one, else the send one. */
  function Home(msg: Msg): Option<nat> {
    if msg.rx.Some? then msg.rx else msg.tx
  }

  ghost predicate MsgOk(msg: Msg) {
    && (msg.tx.Some? ==> (msg.rx.Some? <==> msg.forwards))
    && match msg.stage
       case Ready => msg.onActive <==> (msg.tx.Some? || msg.rx.Some?)
       case Leaving => msg.tx.None? && msg.rx.Some? && msg.onActive
       case Resending =>
         // a reply or a routed message keeps its place, the others have left the list
         msg.tx.Some? && (msg.onActive <==> msg.forwards)
  }

  /** On the list of its home partition when flagged, on no list otherwise. */
  ghost predicate PlaceOk(s: State, m: nat, c: nat)
    requires m < |s.msgs| && c < |s.active|
  {
    m in s.active[c] <==> s.msgs[m].onActive && Home(s.msgs[m]) == Some(c)
  }

  ghost predicate ListsOk(s: State) {
    && (forall c, i | 0 <= c < |s.active| && 0 <= i < |s.active[c]| :: s.active[c][i] < |s.msgs|)
    && (forall c | 0 <= c < |s.active| :: NoDup(s.active[c]))
  }

  ghost predicate CountOk(s: State)
    requires WellFormed(s)
  {
    forall c | 0 <= c < |s.active| :: s.alloc[c] == |s.active[c]| + s.unlinked[c]
  }

  ghost predicate Inv(s: State) {
    && WellFormed(s)
    && (forall m | 0 <= m < |s.msgs| :: MsgOk(s.msgs[m]))
    && (forall m, c | 0 <= m < |s.msgs| && 0 <= c < |s.active| :: PlaceOk(s, m, c))
    && ListsOk(s)
    && CountOk(s)
  }

  lemma {:induction false} WithoutShrinks(q: seq<nat>, m: nat)
    requires NoDup(q)
    ensures NoDup(Without(q, m)) && |Without(q, m)| == |q| - (if m in q then 1 else 0)
  {
    if q != [] {
      assert q == [q[0]] + q[1..];
      assert NoDup(q[1..]);
      WithoutShrinks(q[1..], m);
      var r := Without(q[1..], m);
      if q[0] == m {
        assert m !in q[1..];
      } else {
        assert q[0] !in q[1..];
        assert q[0] !in r;
      }
    }
  }

  lemma DelKeepsLists(s: State, m: nat)
    requires ListsOk(s) && m < |s.msgs|
    ensures ListsOk(s.(active := ListDel(s.active, m)))
    ensures forall c | 0 <= c < |s.active| ::
              |ListDel(s.active, m)[c]| == |s.active[c]| - (if m in s.active[c] then 1 else 0)
  {
    var r := ListDel(s.active, m);
    forall c | 0 <= c < |r|
      ensures NoDup(r[c]) && |r[c]| == |s.active[c]| - (if m in s.active[c] then 1 else 0)
    {
      WithoutShrinks(s.active[c], m);
    }
    forall c, i | 0 <= c < |r| && 0 <= i < |r[c]|
      ensures r[c][i] < |s.msgs|
    {
      assert r[c][i] in s.active[c];
    }
  }

  lemma UnlinkKeeps(s: State, m: nat, c: nat, msg: Msg)
    requires Inv(s) && m < |s.msgs| && s.msgs[m].onActive && Home(s.msgs[m]) == Some(c)
    requires msg.tx.None? && msg.rx.None?
    ensures Inv(Unlink(s, m, c, msg))
  {
    var s' := Unlink(s, m, c, msg);
    DelKeepsLists(s, m);
    forall k | 0 <= k < |s.active|
      ensures s'.alloc[k] == |s'.active[k]| + s'.unlinked[k]
    {
      assert PlaceOk(s, m, k);
    }
    forall x, k | 0 <= x < |s.msgs| && 0 <= k < |s.active|
      ensures PlaceOk(s', x, k)
    {
      assert PlaceOk(s, x, k);
    }
  }

  lemma LinkKeeps(s: State, m: nat, c: nat, msg: Msg)
    requires Inv(s) && m < |s.msgs| && c < |s.active| && !s.msgs[m].onActive
    requires Home(msg) == Some(c) && msg.stage.Ready? && MsgOk(msg.(onActive := true)) && (msg.tx.None? || msg.rx.None?)
    ensures Inv(Link(s, m, c, msg))
  {
    var s' := Link(s, m, c, msg);
    forall x, k | 0 <= x < |s.msgs| && 0 <= k < |s.active|
      ensures PlaceOk(s', x, k)
    {
      assert PlaceOk(s, x, k);
    }
    assert PlaceOk(s, m, c);
    assert NoDup(s'.active[c]);
  }

  /** A step that only changes flags of m leaves the lists right if home and flag stay. */
  lemma FlagsKeep(s: State, m: nat, msg: Msg)
    requires Inv(s) && m < |s.msgs| && MsgOk(msg)
    requires msg.onActive == s.msgs[m].onActive && (msg.onActive ==> Home(msg) == Home(s.msgs[m]))
    requires msg.tx.Some? ==> msg.tx.value < |s.active|
    requires msg.rx.Some? ==> msg.rx.value < |s.active|
    ensures Inv(s.(msgs := s.msgs[m := msg]))
  {
    var s' := s.(msgs := s.msgs[m := msg]);
    forall x, k | 0 <= x < |s.msgs| && 0 <= k < |s.active|
      ensures PlaceOk(s', x, k)
    {
      assert PlaceOk(s, x, k);
    }
  }

  lemma ResendKeeps(s: State, step: Step)
    requires Inv(s) && Enabled(s, step) && step.Resend? && !s.msgs[step.m].forwards
    ensures Inv(Apply(s, step))
  {
    var m, s' := step.m, Apply(s, step);
    DelKeepsLists(s, m);
    forall k | 0 <= k < |s.active|
      ensures s'.alloc[k] == |s'.active[k]| + s'.unlinked[k]
    {
      assert PlaceOk(s, m, k);
    }
    forall x, k | 0 <= x < |s.msgs| && 0 <= k < |s.active|
      ensures PlaceOk(s', x, k)
    {
      assert PlaceOk(s, x, k);
    }
  }

  lemma InvPreserved(s: State, step: Step)
    requires Inv(s) && Enabled(s, step)
    ensures Inv(Apply(s, step))
  {
    var m, msg := step.m, s.msgs[step.m];
    assert MsgOk(msg);
    match step
    case Prepare(_, forwards) => FlagsKeep(s, m, msg.(forwards := forwards));
    case CommitTx(_, c) =>
      if msg.rx.Some? {
        FlagsKeep(s, m, msg.(tx := Some(c)));
      } else {
        LinkKeeps(s, m, c, msg.(tx := Some(c)));
      }
    case CommitRx(_, c) => LinkKeeps(s, m, c, msg.(rx := Some(c)));
    case DecommitTx(_) =>
      if msg.rx.Some? {
        FlagsKeep(s, m, msg.(tx := None, stage := Leaving));
      } else {
        UnlinkKeeps(s, m, msg.tx.value, msg.(tx := None));
      }
    case DecommitRx(_) => UnlinkKeeps(s, m, msg.rx.value, msg.(rx := None));
    case Resend(_) =>
      if msg.forwards {
        FlagsKeep(s, m, msg.(stage := Resending));
      } else {
        ResendKeeps(s, step);
      }
    case ResendEnd(_) => FlagsKeep(s, m, msg.(tx := None, stage := Ready));
  }

  lemma {:induction false} ExecInv(s: State, steps: seq<Step>)
    requires Inv(s) && Feasible(s, steps)
    ensures Inv(Exec(s, steps))
    decreases |steps|
  {
    if steps != [] {
      InvPreserved(s, steps[0]);
      ExecInv(Apply(s, steps[0]), steps[1..]);
    }
  }

  // ----- main results, over every run

  lemma InitInv(s: State)
    requires Init(s)
    ensures Inv(s)
  {
  }

  /**
    msg_onactivelist holds exactly when the message is on an active list; that is one list only, of
    the receive partition if it is committed for receiving and else of the send partition.
  */
  lemma OnHomeListOnly(s0: State, steps: seq<Step>, m: nat)
    requires Init(s0) && Feasible(s0, steps) && m < |Exec(s0, steps).msgs|
    ensures var s := Exec(s0, steps);
            && (s.msgs[m].onActive <==> exists c | 0 <= c < |s.active| :: m in s.active[c])
            && (forall c | 0 <= c < |s.active| && m in s.active[c] ::
                  if s.msgs[m].rx.Some? then s.msgs[m].rx.value == c else s.msgs[m].tx == Some(c))
  {
    InitInv(s0);
    ExecInv(s0, steps);
    var s := Exec(s0, steps);
    forall c | 0 <= c < |s.active|
      ensures m in s.active[c] <==> s.msgs[m].onActive && Home(s.msgs[m]) == Some(c)
    {
      assert PlaceOk(s, m, c);
    }
    assert MsgOk(s.msgs[m]);
    if s.msgs[m].onActive {
      assert m in s.active[Home(s.msgs[m]).value];
    }
  }

  /** Absent counter resets, lcc_msgs_alloc is the list length plus the unlinks of resends. */
  lemma AllocConserved(s0: State, steps: seq<Step>, c: nat)
    requires Init(s0) && Feasible(s0, steps) && c < |Exec(s0, steps).active|
    ensures var s := Exec(s0, steps);
            |s.alloc| == |s.unlinked| == |s.active| && s.alloc[c] == |s.active[c]| + s.unlinked[c]
  {
    InitInv(s0);
    ExecInv(s0, steps);
  }

  /** A step that takes a message off a list, or puts it on one, runs under that list's lock. */
  lemma ListedUnderLock(s0: State, steps: seq<Step>, step: Step, m: nat, c: nat)
    requires Init(s0) && Feasible(s0, steps) && Enabled(Exec(s0, steps), step)
    requires var s := Exec(s0, steps); m < |s.msgs| && c < |s.active|
    requires var s := Exec(s0, steps); m in s.active[c] <==> m !in Apply(s, step).active[c]
    ensures Section(Exec(s0, steps), step) == Some(c) && step.m == m
  {
    InitInv(s0);
    ExecInv(s0, steps);
    var s := Exec(s0, steps);
    assert PlaceOk(s, m, c);
    assert MsgOk(s.msgs[m]);
  }

  /**
    The LASSERTs on the way of a step: the list flag, the lock held for sending, and that nothing is
    committed for sending any more when the receive commitment goes.
  */
  predicate AssertsHold(s: State, step: Step)
    requires Enabled(s, step)
  {
    var msg := s.msgs[step.m];
    match step
    case CommitTx(_, _) => if msg.rx.Some? then msg.onActive else !msg.onActive
    case CommitRx(_, _) => !msg.onActive
    case DecommitTx(_) => msg.onActive && Section(s, step) == msg.tx
    case DecommitRx(_) => msg.onActive && msg.tx.None?
    case ResendEnd(_) => msg.tx.Some?
    case _ => true
  }

  lemma AssertsNeverFire(s0: State, steps: seq<Step>, step: Step)
    requires Init(s0) && Feasible(s0, steps) && Enabled(Exec(s0, steps), step)
    ensures AssertsHold(Exec(s0, steps), step)
  {
    InitInv(s0);
    ExecInv(s0, steps);
    assert MsgOk(Exec(s0, steps).msgs[step.m]);
  }

  /** A step that gives up the receive commitment finds the send commitment gone already. */
  lemma TxBeforeRx(s0: State, steps: seq<Step>, step: Step, m: nat)
    requires Init(s0) && Feasible(s0, steps) && Enabled(Exec(s0, steps), step)
    requires var s := Exec(s0, steps);
             m < |s.msgs| && s.msgs[m].rx.Some? && Apply(s, step).msgs[m].rx.None?
    ensures Exec(s0, steps).msgs[m].tx.None? && Apply(Exec(s0, steps), step).msgs[m].tx.None?
  {
    InitInv(s0);
    ExecInv(s0, steps);
    assert MsgOk(Exec(s0, steps).msgs[m]);
  }

  /**
    The counter alone does not tell the list length: one resend of a message that is not
    forwarded leaves the list empty and the counter at one.
  */
  lemma ResendLeavesCount()
    ensures var s0 := State([Msg(None, None, false, false, Ready)], [[]], [0], [0]);
            var steps := [CommitTx(0, 0), Resend(0), ResendEnd(0)];
            Init(s0) && Feasible(s0, steps) && Exec(s0, steps).active[0] == [] && Exec(s0, steps).alloc[0] == 1
  {
    var s0 := State([Msg(None, None, false, false, Ready)], [[]], [0], [0]);
    var steps := [CommitTx(0, 0), Resend(0), ResendEnd(0)];
    var s1 := Apply(s0, steps[0]);
    assert s1.active[0] == [0] && s1.alloc == [1];
    var s2 := Apply(s1, steps[1]);
    assert Without([0], 0) == [];
    assert s2.active[0] == [] && s2.alloc == [1];
    assert steps[1..] == [Resend(0), ResendEnd(0)];
    assert steps[1..][1..] == [ResendEnd(0)];
    assert steps[1..][1..][1..] == [];
  }

  // ----- which partitions a message is committed to

  /** The partition m was last committed to for sending, if that has not been undone since. */
  function TxOf(was: Option<nat>, steps: seq<Step>, m: nat): Option<nat>
    decreases |steps|
  {
    if steps == [] then was
    else if steps[0].m != m then TxOf(was, steps[1..], m)
    else
      var now := match steps[0]
                 case CommitTx(_, c) => Some(c)
                 case DecommitTx(_) => None
                 case ResendEnd(_) => None
                 case _ => was;
      TxOf(now, steps[1..], m)
  }

  /** The same for receiving. */
  function RxOf(was: Option<nat>, steps: seq<Step>, m: nat): Option<nat>
    decreases |steps|
  {
    if steps == [] then was
    else if steps[0].m != m then RxOf(was, steps[1..], m)
    else
      var now := match steps[0]
                 case CommitRx(_, c) => Some(c)
                 case DecommitRx(_) => None
                 case _ => was;
      RxOf(now, steps[1..], m)
  }

  lemma {:induction false} CommitsFollow(s: State, steps: seq<Step>, m: nat)
    requires Feasible(s, steps) && m < |s.msgs|
    ensures var s' := Exec(s, steps);
            && |s'.msgs| == |s.msgs| && |s'.active| == |s.active|
            && s'.msgs[m].tx == TxOf(s.msgs[m].tx, steps, m) && s'.msgs[m].rx == RxOf(s.msgs[m].rx, steps, m)
    decreases |steps|
  {
    if steps != [] {
      CommitsFollow(Apply(s, steps[0]), steps[1..], m);
    }
  }

  /** A message is committed to exactly the partitions it was last committed to and not yet decommitted from. */
  lemma CommittedAsAsked(s0: State, steps: seq<Step>, m: nat)
    requires Init(s0) && Feasible(s0, steps) && m < |s0.msgs|
    ensures var s := Exec(s0, steps);
            && |s.msgs| == |s0.msgs| && s.msgs[m].tx == TxOf(None, steps, m) && s.msgs[m].rx == RxOf(None, steps, m)
  {
    CommitsFollow(s0, steps, m);
  }

  // ----- what a step does to a list

  /** Removing the only m from a list leaves the others in their places. */
  lemma {:induction false} WithoutAt(q: seq<nat>, m: nat, i: nat)
    requires NoDup(q) && i < |q| && q[i] == m
    ensures Without(q, m) == q[..i] + q[i + 1..]
  {
    if i == 0 {
      assert m !in q[1..];
      WithoutNone(q[1..], m);
    } else {
      assert NoDup(q[1..]) && q[1..][i - 1] == m;
      WithoutAt(q[1..], m, i - 1);
      assert q[0] != m;
      assert [q[0]] + (q[1..][..i - 1] + q[1..][i..]) == q[..i] + q[i + 1..];
    }
  }

  lemma {:induction false} WithoutNone(q: seq<nat>, m: nat)
    requires m !in q
    ensures Without(q, m) == q
  {
    if q != [] {
      WithoutNone(q[1..], m);
    }
  }

  /** m was put at the end of the list, or taken out of its place in it. */
  ghost predicate OneMoved(q: seq<nat>, q': seq<nat>, m: nat) {
    q' == q + [m] || exists i: nat :: i < |q| && q[i] == m && q' == q[..i] + q[i + 1..]
  }

  /** A step changes a list only by putting its message last or taking it out. */
  lemma ListsInOrder(s0: State, steps: seq<Step>, step: Step, c: nat)
    requires Init(s0) && Feasible(s0, steps) && Enabled(Exec(s0, steps), step) && c < |Exec(s0, steps).active|
    ensures var q, q' := Exec(s0, steps).active[c], Apply(Exec(s0, steps), step).active[c];
            if step.m in q <==> step.m in q' then q' == q else OneMoved(q, q', step.m)
  {
    InitInv(s0);
    ExecInv(s0, steps);
    var s, m := Exec(s0, steps), step.m;
    assert PlaceOk(s, m, c) && MsgOk(s.msgs[m]);
    var q := s.active[c];
    if m in q {
      var i: nat :| i < |q| && q[i] == m;
      WithoutAt(q, m, i);
    } else {
      WithoutNone(q, m);
    }
  }

  // ----- the count that resends leave behind

  /** The resends along a run that take a message off the list of partition c. */
  function ResendUnlinks(s: State, steps: seq<Step>, c: nat): nat
    requires Feasible(s, steps)
    decreases |steps|
  {
    if steps == [] then 0
    else
      var msg := s.msgs[steps[0].m];
      (if steps[0].Resend? && !msg.forwards && msg.tx == Some(c) then 1 else 0) + ResendUnlinks(Apply(s, steps[0]), steps[1..], c)
  }

  lemma {:induction false} UnlinksCounted(s: State, steps: seq<Step>, c: nat)
    requires Feasible(s, steps) && WellFormed(s) && c < |s.active|
    ensures |Exec(s, steps).unlinked| == |s.unlinked| && Exec(s, steps).unlinked[c] == s.unlinked[c] + ResendUnlinks(s, steps, c)
    decreases |steps|
  {
    if steps != [] {
      if steps[1..] != [] {
        assert WellFormed(Apply(s, steps[0]));
        UnlinksCounted(Apply(s, steps[0]), steps[1..], c);
      }
    }
  }

  /** lcc_msgs_alloc counts too many by exactly the resends of messages that are not forwarded. */
  lemma CounterExcess(s0: State, steps: seq<Step>, c: nat)
    requires Init(s0) && Feasible(s0, steps) && c < |s0.active|
    ensures var s := Exec(s0, steps);
            c < |s.alloc| && c < |s.active| && s.alloc[c] == |s.active[c]| + ResendUnlinks(s0, steps, c)
  {
    InitInv(s0);
    ExecInv(s0, steps);
    UnlinksCounted(s0, steps, c);
  }
}
