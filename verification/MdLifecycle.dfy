/**
  The life of one memory descriptor (lnet/lnet/lib-md.c, lnet/lnet/lib-msg.c): messages attach to
  it and detach from it, its event handler runs without the lock, and LNetMDUnlink may come at any
  time. One step is one critical section under the resource lock, or the start or the end of a
  handler call.
*/
module MdLifecycle {
  import opened Collections
  import opened Machine
  import M = Matching

  /** The mutable part of the descriptor; `frees` counts calls of lnet_md_free. */
  datatype Md = Md(refcount: int, threshold: int, full: bool, zombie: bool, handling: bool, aborted: bool,
                   hashed: bool, listed: bool, frees: nat)

  datatype Event = Event(unlinked: bool, status: int)

  /** Where a message is with respect to the descriptor. */
  datatype MsgPc =
    | Unattached
    | Held                      // msg_md is the descriptor: the message owns a reference
    | ToCall(ev: Event)         // detached; the lock is released, the handler not yet called
    | InHandler(ev: Event)
    | Finished

  /** A thread in LNetMDUnlink. */
  datatype UnlinkPc = Outside | UToCall | UInHandler | Returned(found: bool, called: bool)

  datatype State = State(md: Md, auto: bool, handler: bool, msgs: seq<MsgPc>, unlinkers: seq<UnlinkPc>,
                         log: seq<Event>)

  /** Who attaches: a portal match, a handle lookup, or the reply to an optimized GET. */
  datatype How = Match(fills: bool) | Lookup | Reply

  datatype Step =
    | Attach(m: nat, how: How)
    | Detach(m: nat, status: int)
    | Start(m: nat)
    | End(m: nat)
    | MDUnlink(u: nat)
    | UStart(u: nat)
    | UEnd(u: nat)

  /** lnet_md_exhausted; `full` stands for the test on offset and max_size. */
  predicate Exhausted(md: Md) {
    md.threshold == 0 || md.full
  }

  /** lnet_md_unlinkable. */
  predicate Unlinkable(md: Md, auto: bool) {
    md.refcount == 0 && (md.zombie || (auto && Exhausted(md)))
  }

  /** lnet_md_unlink. */
  function Unlink(md: Md): Md {
    var md1 := if md.zombie then md else md.(zombie := true, hashed := false);
    if md1.refcount != 0 then md1 else md1.(listed := false, frees := md1.frees + 1)
  }

  /** lnet_msg_attach_md. */
  function Referenced(md: Md): Md {
    md.(refcount := md.refcount + 1,
        threshold := if md.threshold == M.THRESH_INF then M.THRESH_INF else md.threshold - 1)
  }

  function AttachMd(md: Md, auto: bool, how: How): Md {
    var md1 := Referenced(md).(full := md.full || (how.Match? && how.fills));
    if how.Match? && Exhausted(md1) && auto then Unlink(md1) else md1
  }

  /** The critical section of lnet_msg_detach_md. */
  function DetachMd(md: Md, auto: bool, handler: bool): Md {
    var md1 := md.(refcount := md.refcount - 1);
    if Unlinkable(md1, auto) then Unlink(md1) else md1.(handling := handler)
  }

  function DetachEvent(md: Md, auto: bool, status: int): Event {
    Event(Unlinkable(md.(refcount := md.refcount - 1), auto),
          if md.aborted && status == 0 then ETIMEDOUT else status)
  }

  predicate Enabled(s: State, step: Step) {
    var md := s.md;
    match step
    case Attach(m, how) =>
      && m < |s.msgs| && s.msgs[m].Unattached? && md.frees == 0 && md.threshold != 0
      && (match how
          case Match(_) => !md.zombie && !Exhausted(md)
          case Lookup => md.hashed
          case Reply => md.refcount > 0)
    case Detach(m, _) => m < |s.msgs| && s.msgs[m].Held? && !md.handling
    case Start(m) => m < |s.msgs| && s.msgs[m].ToCall?
    case End(m) => m < |s.msgs| && s.msgs[m].InHandler?
    case MDUnlink(u) => u < |s.unlinkers| && s.unlinkers[u].Outside? && !(md.hashed && md.refcount == 0 && md.handling)
    case UStart(u) => u < |s.unlinkers| && s.unlinkers[u].UToCall?
    case UEnd(u) => u < |s.unlinkers| && s.unlinkers[u].UInHandler?
  }

  function Apply(s: State, step: Step): State
    requires Enabled(s, step)
  {
    match step
    case Attach(m, how) => s.(md := AttachMd(s.md, s.auto, how), msgs := s.msgs[m := Held])
    case Detach(m, status) =>
      s.(md := DetachMd(s.md, s.auto, s.handler),
         msgs := s.msgs[m := if s.handler then ToCall(DetachEvent(s.md, s.auto, status)) else Finished])
    case Start(m) => s.(msgs := s.msgs[m := InHandler(s.msgs[m].ev)], log := s.log + [s.msgs[m].ev])
    case End(m) =>
      s.(msgs := s.msgs[m := Finished], md := if s.msgs[m].ev.unlinked then s.md else s.md.(handling := false))
    case MDUnlink(u) =>
      if !s.md.hashed then s.(unlinkers := s.unlinkers[u := Returned(false, false)])
      else s.(md := Unlink(s.md.(aborted := true)),
              unlinkers := s.unlinkers[u := if s.handler && s.md.refcount == 0 then UToCall else Returned(true, false)])
    case UStart(u) => s.(unlinkers := s.unlinkers[u := UInHandler], log := s.log + [Event(true, 0)])
    case UEnd(u) => s.(unlinkers := s.unlinkers[u := Returned(true, true)])
  }

  /** A descriptor just linked (lnet_md_build, lnet_md_link). */
  predicate Init(s: State) {
    && (s.md.threshold == M.THRESH_INF || s.md.threshold >= 0)
    && s.md == Md(0, s.md.threshold, s.md.full, false, false, false, true, true, 0)
    && (forall m | 0 <= m < |s.msgs| :: s.msgs[m].Unattached?)
    && (forall u | 0 <= u < |s.unlinkers| :: s.unlinkers[u].Outside?)
    && s.log == []
  }

  predicate Feasible(s: State, steps: seq<Step>)
    decreases |steps|
  {
    steps != [] ==> Enabled(s, steps[0]) && Feasible(Apply(s, steps[0]), steps[1..])
  }

  function Exec(s: State, steps: seq<Step>): State
    requires Feasible(s, steps)
    decreases |steps|
  {
    if steps == [] then s else Exec(Apply(s, steps[0]), steps[1..])
  }

  // ----- what is counted

  predicate Holds(pc: MsgPc) { pc.Held? }
  predicate Used(pc: MsgPc) { !pc.Unattached? }
  /** The message is between setting and clearing LNET_MD_FLAG_HANDLING. */
  predicate Handles(pc: MsgPc) { (pc.ToCall? || pc.InHandler?) && !pc.ev.unlinked }
  predicate LastToCall(pc: MsgPc) { pc.ToCall? && pc.ev.unlinked }
  predicate LastRuns(pc: MsgPc) { pc.InHandler? && pc.ev.unlinked }
  predicate ULast(pc: UnlinkPc) { pc.UToCall? }
  predicate URuns(pc: UnlinkPc) { pc.UInHandler? }
  predicate IsLast(ev: Event) { ev.unlinked }

  /** Last events sent or about to be sent. */
  function LastEvents(s: State): nat {
    Count(s.msgs, LastToCall) + Count(s.unlinkers, ULast) + Count(s.log, IsLast)
  }

  // ----- the invariant

  ghost predicate MdOk(md: Md) {
    && md.frees <= 1
    && (md.zombie <==> !md.hashed)
    && (md.listed <==> md.frees == 0)
    && (md.frees == 1 <==> md.zombie && md.refcount == 0)
    && (md.frees == 1 ==> !md.handling)
    && md.refcount >= 0
    && (md.threshold == M.THRESH_INF || md.threshold >= 0)
  }

  ghost predicate CountsOk(s: State) {
    && s.md.refcount == Count(s.msgs, Holds)
    && Count(s.msgs, Handles) == (if s.md.handling then 1 else 0)
    && LastEvents(s) == (if s.handler && s.md.frees == 1 then 1 else 0)
    && Count(s.msgs, LastRuns) + Count(s.unlinkers, URuns) <= Count(s.log, IsLast)
  }

  ghost predicate LogOk(s: State) {
    forall i | 0 <= i < |s.log| - 1 :: !s.log[i].unlinked
  }

  ghost predicate Inv(s: State) {
    MdOk(s.md) && CountsOk(s) && LogOk(s)
  }

  lemma InitInv(s: State)
    requires Init(s)
    ensures Inv(s)
  {
    CountZero(s.msgs, Holds);
    CountZero(s.msgs, Handles);
    CountZero(s.msgs, LastToCall);
    CountZero(s.msgs, LastRuns);
    CountZero(s.unlinkers, ULast);
    CountZero(s.unlinkers, URuns);
  }

  /** How the counts change when message m moves. */
  lemma MsgCounts(s: State, m: nat, pc: MsgPc)
    requires m < |s.msgs|
    ensures var msgs, was := s.msgs[m := pc], s.msgs[m];
            && Count(msgs, Holds) == Count(s.msgs, Holds) - (if was.Held? then 1 else 0) + (if pc.Held? then 1 else 0)
            && Count(msgs, Handles) == Count(s.msgs, Handles) - (if Handles(was) then 1 else 0) + (if Handles(pc) then 1 else 0)
            && Count(msgs, LastToCall) == Count(s.msgs, LastToCall) - (if LastToCall(was) then 1 else 0) + (if LastToCall(pc) then 1 else 0)
            && Count(msgs, LastRuns) == Count(s.msgs, LastRuns) - (if LastRuns(was) then 1 else 0) + (if LastRuns(pc) then 1 else 0)
            && (was.Held? ==> Count(s.msgs, Holds) > 0)
            && (Handles(was) ==> Count(s.msgs, Handles) > 0)
  {
    CountUpdate(s.msgs, Holds, m, pc);
    CountUpdate(s.msgs, Handles, m, pc);
    CountUpdate(s.msgs, LastToCall, m, pc);
    CountUpdate(s.msgs, LastRuns, m, pc);
  }

  lemma UnlinkCounts(s: State, u: nat, pc: UnlinkPc)
    requires u < |s.unlinkers|
    ensures var us, was := s.unlinkers[u := pc], s.unlinkers[u];
            && Count(us, ULast) == Count(s.unlinkers, ULast) - (if was.UToCall? then 1 else 0) + (if pc.UToCall? then 1 else 0)
            && Count(us, URuns) == Count(s.unlinkers, URuns) - (if was.UInHandler? then 1 else 0) + (if pc.UInHandler? then 1 else 0)
  {
    CountUpdate(s.unlinkers, ULast, u, pc);
    CountUpdate(s.unlinkers, URuns, u, pc);
  }

  /** The LASSERTs a step passes through. */
  predicate AssertsHold(s: State, step: Step)
    requires Enabled(s, step)
  {
    match step
    // lnet_msg_attach_md: a finite threshold is positive
    case Attach(_, _) => s.md.threshold != M.THRESH_INF ==> s.md.threshold > 0
    // lnet_msg_detach_md: the count stays non-negative; lnet_md_unlink: listed, no handler running
    case Detach(_, _) =>
      && s.md.refcount - 1 >= 0
      && (Unlinkable(s.md.(refcount := s.md.refcount - 1), s.auto) ==> s.md.listed && !s.md.handling)
    case MDUnlink(_) => s.md.hashed && s.md.refcount == 0 ==> s.md.listed && !s.md.handling
    case _ => true
  }

  // ----- preservation

  lemma AttachKeeps(s: State, step: Step)
    requires Inv(s) && Enabled(s, step) && step.Attach?
    ensures Inv(Apply(s, step)) && AssertsHold(s, step)
  {
    MsgCounts(s, step.m, Held);
  }

  lemma DetachKeeps(s: State, step: Step)
    requires Inv(s) && Enabled(s, step) && step.Detach?
    ensures Inv(Apply(s, step)) && AssertsHold(s, step)
  {
    MsgCounts(s, step.m, Apply(s, step).msgs[step.m]);
  }

  lemma CallKeeps(s: State, step: Step)
    requires Inv(s) && Enabled(s, step) && (step.Start? || step.End?)
    ensures Inv(Apply(s, step)) && AssertsHold(s, step)
  {
    MsgCounts(s, step.m, Apply(s, step).msgs[step.m]);
    CountUpdate(s.msgs, LastToCall, step.m, Finished);
    CountUpdate(s.msgs, Handles, step.m, Finished);
    if step.Start? {
      CountAppend(s.log, IsLast, s.msgs[step.m].ev);
      NoneLast(s);
    }
  }

  /** While an event is still to come, none of those delivered was the last. */
  lemma NoneLast(s: State)
    ensures Count(s.log, IsLast) == 0 <==> forall i | 0 <= i < |s.log| :: !s.log[i].unlinked
  {
    CountZero(s.log, IsLast);
  }

  lemma UnlinkKeeps(s: State, step: Step)
    requires Inv(s) && Enabled(s, step) && (step.MDUnlink? || step.UStart? || step.UEnd?)
    ensures Inv(Apply(s, step)) && AssertsHold(s, step)
  {
    UnlinkCounts(s, step.u, Apply(s, step).unlinkers[step.u]);
    CountUpdate(s.unlinkers, ULast, step.u, Outside);
    if step.UStart? {
      CountAppend(s.log, IsLast, Event(true, 0));
      NoneLast(s);
    }
  }

  /** Every step keeps the invariant and passes its assertions. */
  lemma InvPreserved(s: State, step: Step)
    requires Inv(s) && Enabled(s, step)
    ensures Inv(Apply(s, step)) && AssertsHold(s, step)
  {
    match step
    case Attach(_, _) => AttachKeeps(s, step);
    case Detach(_, _) => DetachKeeps(s, step);
    case Start(_) => CallKeeps(s, step);
    case End(_) => CallKeeps(s, step);
    case MDUnlink(_) => UnlinkKeeps(s, step);
    case UStart(_) => UnlinkKeeps(s, step);
    case UEnd(_) => UnlinkKeeps(s, step);
  }

  lemma {:induction false} ExecInv(s: State, steps: seq<Step>)
    requires Inv(s) && Feasible(s, steps)
    ensures Inv(Exec(s, steps))
    decreases |steps|
  {
    if steps != [] {
      InvPreserved(s, steps[0]);
      ExecInv(Apply(s, steps[0]), steps[1..]);
    }
  }

  // ----- main results, over every run

  /** Message m is inside a handler call that will still touch the descriptor. */
  predicate Touches(pc: MsgPc) {
    pc.Held? || Handles(pc)
  }

  /** Nothing is attached and no handler call is pending or running. */
  predicate Quiescent(s: State) {
    && (forall m | 0 <= m < |s.msgs| :: s.msgs[m].Unattached? || s.msgs[m].Finished?)
    && (forall u | 0 <= u < |s.unlinkers| :: s.unlinkers[u].Outside? || s.unlinkers[u].Returned?)
  }

  /**
    The descriptor is freed at most once, never while a message refers to it or a handler call that
    is not the last one is under way; a zombie that nobody refers to has been freed; and whatever
    step comes next passes its assertions.
  */
  lemma FreedOnce(s0: State, steps: seq<Step>)
    requires Init(s0) && Feasible(s0, steps)
    ensures var s := Exec(s0, steps);
            && s.md.frees <= 1
            && (s.md.frees == 1 ==> forall m | 0 <= m < |s.msgs| :: !Touches(s.msgs[m]))
            && (s.md.zombie && (forall m | 0 <= m < |s.msgs| :: !s.msgs[m].Held?) ==> s.md.frees == 1)
            && (forall step | Enabled(s, step) :: AssertsHold(s, step))
  {
    InitInv(s0);
    ExecInv(s0, steps);
    var s := Exec(s0, steps);
    CountZero(s.msgs, Holds);
    CountZero(s.msgs, Handles);
    forall step | Enabled(s, step)
      ensures AssertsHold(s, step)
    {
      InvPreserved(s, step);
    }
  }

  /** Only the last event delivered can be marked `unlinked`, and then the descriptor is gone. */
  lemma UnlinkedIsLast(s0: State, steps: seq<Step>)
    requires Init(s0) && Feasible(s0, steps)
    ensures var s := Exec(s0, steps);
            forall i | 0 <= i < |s.log| && s.log[i].unlinked :: i == |s.log| - 1 && s.md.frees == 1
  {
    InitInv(s0);
    ExecInv(s0, steps);
    NoneLast(Exec(s0, steps));
  }

  /** Once unlinked and left alone, a descriptor with a handler has delivered one `unlinked` event. */
  lemma UnlinkedDelivered(s0: State, steps: seq<Step>)
    requires Init(s0) && Feasible(s0, steps) && s0.handler
    requires Exec(s0, steps).md.zombie && Quiescent(Exec(s0, steps))
    ensures var s := Exec(s0, steps);
            && Count(s.log, IsLast) == 1
            && s.log != [] && s.log[|s.log| - 1].unlinked
  {
    InitInv(s0);
    ExecInv(s0, steps);
    HandlerConst(s0, steps);
    var s := Exec(s0, steps);
    CountZero(s.msgs, Holds);
    CountZero(s.msgs, LastToCall);
    CountZero(s.unlinkers, ULast);
    NoneLast(s);
  }

  lemma {:induction false} HandlerConst(s: State, steps: seq<Step>)
    requires Feasible(s, steps)
    ensures Exec(s, steps).handler == s.handler
    decreases |steps|
  {
    if steps != [] {
      HandlerConst(Apply(s, steps[0]), steps[1..]);
    }
  }

  /** No event follows the one marked `unlinked`. */
  lemma NothingAfterUnlinked(s0: State, prefix: seq<Step>, steps: seq<Step>)
    requires Init(s0) && Feasible(s0, prefix) && Feasible(Exec(s0, prefix), steps)
    requires var log := Exec(s0, prefix).log; log != [] && log[|log| - 1].unlinked
    ensures Exec(Exec(s0, prefix), steps).log == Exec(s0, prefix).log
  {
    InitInv(s0);
    ExecInv(s0, prefix);
    NoEventAfterUnlinked(Exec(s0, prefix), steps);
  }

  lemma {:induction false} NoEventAfterUnlinked(s: State, steps: seq<Step>)
    requires Inv(s) && Feasible(s, steps)
    requires s.log != [] && s.log[|s.log| - 1].unlinked
    ensures Exec(s, steps).log == s.log
    decreases |steps|
  {
    if steps != [] {
      var step := steps[0];
      NoneLast(s);
      if step.Start? {
        CountUpdate(s.msgs, LastToCall, step.m, Finished);
        CountUpdate(s.msgs, Handles, step.m, Finished);
      }
      if step.UStart? {
        CountUpdate(s.unlinkers, ULast, step.u, Outside);
      }
      InvPreserved(s, step);
      NoEventAfterUnlinked(Apply(s, step), steps[1..]);
    }
  }

  predicate Inside(pc: MsgPc) {
    pc.InHandler?
  }

  lemma {:induction false} CountSplit(msgs: seq<MsgPc>)
    ensures Count(msgs, Inside) <= Count(msgs, Handles) + Count(msgs, LastRuns)
  {
    if msgs != [] {
      CountSplit(msgs[1..]);
    }
  }

  /** Handler calls for one descriptor never overlap. */
  lemma HandlerCallsDisjoint(s0: State, steps: seq<Step>)
    requires Init(s0) && Feasible(s0, steps)
    ensures var s := Exec(s0, steps); Count(s.msgs, Inside) + Count(s.unlinkers, URuns) <= 1
  {
    InitInv(s0);
    ExecInv(s0, steps);
    CountSplit(Exec(s0, steps).msgs);
  }

  /** The step that frees the descriptor finds no handler call pending or running. */
  lemma FreedWhenIdle(s0: State, steps: seq<Step>, step: Step)
    requires Init(s0) && Feasible(s0, steps) && Enabled(Exec(s0, steps), step)
    requires Apply(Exec(s0, steps), step).md.frees > Exec(s0, steps).md.frees
    ensures var s := Exec(s0, steps);
            && !s.md.handling
            && (forall m | 0 <= m < |s.msgs| :: !s.msgs[m].ToCall? && !s.msgs[m].InHandler?)
            && (forall u | 0 <= u < |s.unlinkers| :: !s.unlinkers[u].UToCall? && !s.unlinkers[u].UInHandler?)
  {
    InitInv(s0);
    ExecInv(s0, steps);
    var s := Exec(s0, steps);
    InvPreserved(s, step);
    CountZero(s.msgs, Handles);
    CountZero(s.msgs, LastToCall);
    CountZero(s.msgs, LastRuns);
    CountZero(s.unlinkers, ULast);
    CountZero(s.unlinkers, URuns);
  }

  // ----- when a descriptor is unlinked

  /** An LNetMDUnlink found the descriptor. */
  predicate Found(pc: UnlinkPc) {
    pc.UToCall? || pc.UInHandler? || (pc.Returned? && pc.found)
  }

  /** Aborted by LNetMDUnlink and by nothing else; unlinked by it, or for being used up; used up and idle, it is unlinked. */
  ghost predicate UnlinkOk(s: State) {
    && (s.md.aborted <==> exists u | 0 <= u < |s.unlinkers| :: Found(s.unlinkers[u]))
    && (s.md.zombie ==> s.md.aborted || (s.auto && Exhausted(s.md)))
    && (s.md.aborted ==> s.md.zombie)
    && (s.auto && Exhausted(s.md) && s.md.refcount == 0 && Count(s.msgs, Used) > 0 ==> s.md.zombie)
  }

  lemma UnlinkOkMsg(s: State, step: Step)
    requires Inv(s) && UnlinkOk(s) && Enabled(s, step) && (step.Attach? || step.Detach? || step.Start? || step.End?)
    ensures UnlinkOk(Apply(s, step))
  {
    var s' := Apply(s, step);
    CountUpdate(s.msgs, Used, step.m, s'.msgs[step.m]);
    CountUpdate(s.msgs, Holds, step.m, s'.msgs[step.m]);
    assert s'.unlinkers == s.unlinkers;
  }

  /** Who has found the descriptor has found it for good. */
  lemma FoundKept(s: State, step: Step)
    requires Enabled(s, step) && (step.MDUnlink? || step.UStart? || step.UEnd?)
    ensures var s' := Apply(s, step);
            (exists u | 0 <= u < |s'.unlinkers| :: Found(s'.unlinkers[u])) <==>
            (exists u | 0 <= u < |s.unlinkers| :: Found(s.unlinkers[u])) || (step.MDUnlink? && s.md.hashed)
  {
    var s' := Apply(s, step);
    if u :| 0 <= u < |s.unlinkers| && Found(s.unlinkers[u]) {
      assert Found(s'.unlinkers[u]);
    }
    if step.MDUnlink? && s.md.hashed {
      assert Found(s'.unlinkers[step.u]);
    }
    if u :| 0 <= u < |s'.unlinkers| && Found(s'.unlinkers[u]) {
      assert Found(s.unlinkers[u]) || (u == step.u && step.MDUnlink? && s.md.hashed);
    }
  }

  lemma UnlinkOkStep(s: State, step: Step)
    requires Inv(s) && UnlinkOk(s) && Enabled(s, step)
    ensures UnlinkOk(Apply(s, step)) && Apply(s, step).auto == s.auto
  {
    if step.MDUnlink? || step.UStart? || step.UEnd? {
      FoundKept(s, step);
    } else {
      UnlinkOkMsg(s, step);
    }
  }

  lemma {:induction false} UnlinkOkAlways(s: State, steps: seq<Step>)
    requires Inv(s) && UnlinkOk(s) && Feasible(s, steps)
    ensures UnlinkOk(Exec(s, steps)) && Exec(s, steps).auto == s.auto
    decreases |steps|
  {
    if steps != [] {
      UnlinkOkStep(s, steps[0]);
      InvPreserved(s, steps[0]);
      UnlinkOkAlways(Apply(s, steps[0]), steps[1..]);
    }
  }

  predicate WasUsed(s: State) {
    exists m | 0 <= m < |s.msgs| :: !s.msgs[m].Unattached?
  }

  predicate NoneHeld(s: State) {
    forall m | 0 <= m < |s.msgs| :: !s.msgs[m].Held?
  }

  /**
    A descriptor that unlinks itself is gone once its operations or its room are used up, it was used
    and no message refers to it; and it is unlinked for no other reason than that or LNetMDUnlink.
  */
  lemma UnlinkedExactly(s0: State, steps: seq<Step>)
    requires Init(s0) && Feasible(s0, steps)
    ensures var s := Exec(s0, steps);
            && (s0.auto && (s.md.threshold == 0 || s.md.full) && WasUsed(s) && NoneHeld(s) ==> s.md.zombie && s.md.frees == 1)
            && (s.md.zombie ==>
                  || (exists u | 0 <= u < |s.unlinkers| :: Found(s.unlinkers[u]))
                  || (s0.auto && (s.md.threshold == 0 || s.md.full)))
            && ((exists u | 0 <= u < |s.unlinkers| :: Found(s.unlinkers[u])) ==> s.md.zombie)
  {
    InitInv(s0);
    CountZero(s0.msgs, Used);
    UnlinkOkAlways(s0, steps);
    ExecInv(s0, steps);
    var s := Exec(s0, steps);
    CountZero(s.msgs, Holds);
    CountZero(s.msgs, Used);
  }

  /** LNetMDUnlink finds a descriptor exactly if it is not unlinked yet, and then aborts it. */
  lemma UnlinkFinds(s0: State, steps: seq<Step>, u: nat)
    requires Init(s0) && Feasible(s0, steps) && Enabled(Exec(s0, steps), MDUnlink(u))
    ensures var s := Exec(s0, steps); var s' := Apply(s, MDUnlink(u));
            && u < |s'.unlinkers| && (Found(s'.unlinkers[u]) <==> !s.md.zombie) && s'.md.zombie
            && (!s.md.zombie ==> s'.md.aborted)
            && (s.md.zombie ==> s'.md == s.md && s'.unlinkers[u] == Returned(false, false))
            && (s'.unlinkers[u].UToCall? <==> !s.md.zombie && s.handler && NoneHeld(s))
  {
    InitInv(s0);
    ExecInv(s0, steps);
    CountZero(Exec(s0, steps).msgs, Holds);
  }

  // ----- what is reported

  predicate Called(pc: MsgPc) {
    pc.InHandler? || pc.Finished?
  }

  predicate UCalled(pc: UnlinkPc) {
    pc.UInHandler? || (pc.Returned? && pc.called)
  }

  ghost predicate LogCounts(s: State) {
    |s.log| == if s.handler then Count(s.msgs, Called) + Count(s.unlinkers, UCalled) else 0
  }

  ghost predicate NoCalls(s: State) {
    !s.handler ==>
      && (forall m | 0 <= m < |s.msgs| :: !s.msgs[m].ToCall? && !s.msgs[m].InHandler?)
      && (forall u | 0 <= u < |s.unlinkers| :: !s.unlinkers[u].UToCall? && !s.unlinkers[u].UInHandler?)
  }

  lemma LogStep(s: State, step: Step)
    requires Enabled(s, step) && LogCounts(s) && NoCalls(s)
    ensures LogCounts(Apply(s, step)) && NoCalls(Apply(s, step))
  {
    var s' := Apply(s, step);
    if step.Attach? || step.Detach? || step.Start? || step.End? {
      CountUpdate(s.msgs, Called, step.m, s'.msgs[step.m]);
    } else {
      CountUpdate(s.unlinkers, UCalled, step.u, s'.unlinkers[step.u]);
    }
  }

  lemma {:induction false} LogAlways(s: State, steps: seq<Step>)
    requires Feasible(s, steps) && LogCounts(s) && NoCalls(s)
    ensures LogCounts(Exec(s, steps))
    decreases |steps|
  {
    if steps != [] {
      LogStep(s, steps[0]);
      LogAlways(Apply(s, steps[0]), steps[1..]);
    }
  }

  /** With a handler every message that is done with the descriptor has had one event; without one there are none. */
  lemma OneEventEach(s0: State, steps: seq<Step>)
    requires Init(s0) && Feasible(s0, steps)
    ensures var s := Exec(s0, steps);
            |s.log| == if s0.handler then Count(s.msgs, Called) + Count(s.unlinkers, UCalled) else 0
  {
    CountZero(s0.msgs, Called);
    CountZero(s0.unlinkers, UCalled);
    LogAlways(s0, steps);
    HandlerConst(s0, steps);
  }

  /**
    A message that detaches from a descriptor with a handler is followed by a call for it that reports
    the status it ended with; only success turns into a timeout, exactly if LNetMDUnlink was there first.
  */
  lemma StatusReported(s0: State, steps: seq<Step>, m: nat, status: int)
    requires Init(s0) && Feasible(s0, steps) && Enabled(Exec(s0, steps), Detach(m, status)) && s0.handler
    ensures var s := Exec(s0, steps); var s' := Apply(s, Detach(m, status));
            && m < |s'.msgs| && s'.msgs[m].ToCall?
            && s'.msgs[m].ev.status == (if status == 0 && (exists u | 0 <= u < |s.unlinkers| :: Found(s.unlinkers[u]))
                                        then ETIMEDOUT else status)
            && (s'.msgs[m].ev.unlinked <==> s'.md.frees == 1)
            && Apply(s', Start(m)).log == s'.log + [s'.msgs[m].ev]
  {
    InitInv(s0);
    ExecInv(s0, steps);
    CountZero(s0.msgs, Used);
    UnlinkOkAlways(s0, steps);
    HandlerConst(s0, steps);
    var s := Exec(s0, steps);
    MsgCounts(s, m, Finished);
  }

  lemma ThresholdStep(s: State, step: Step)
    requires Inv(s) && Enabled(s, step)
    ensures Spent(s, Apply(s, step))
  {
    if step.Attach? || step.Detach? || step.Start? || step.End? {
      CountUpdate(s.msgs, Used, step.m, Apply(s, step).msgs[step.m]);
    }
  }

  /** A finite threshold is used up one message at a time, and never below zero. */
  lemma ThresholdSpent(s0: State, steps: seq<Step>)
    requires Init(s0) && Feasible(s0, steps)
    ensures var s := Exec(s0, steps);
            if s0.md.threshold == M.THRESH_INF then s.md.threshold == M.THRESH_INF
            else s.md.threshold >= 0 && s.md.threshold + Count(s.msgs, Used) == s0.md.threshold
  {
    InitInv(s0);
    CountZero(s0.msgs, Used);
    ThresholdSteps(s0, steps);
  }

  /** What is left of a threshold after the messages attached between two states. */
  ghost predicate Spent(s: State, t: State) {
    if s.md.threshold == M.THRESH_INF then t.md.threshold == M.THRESH_INF
    else t.md.threshold >= 0 && t.md.threshold + Count(t.msgs, Used) == s.md.threshold + Count(s.msgs, Used)
  }

  lemma {:induction false} ThresholdSteps(s: State, steps: seq<Step>)
    requires Inv(s) && Feasible(s, steps)
    ensures Spent(s, Exec(s, steps))
    decreases |steps|
  {
    if steps != [] {
      ThresholdStep(s, steps[0]);
      InvPreserved(s, steps[0]);
      ThresholdSteps(Apply(s, steps[0]), steps[1..]);
    }
  }

  predicate NoSuccess(pc: MsgPc) {
    pc.Held? || pc.Finished? || ((pc.ToCall? || pc.InHandler?) && pc.ev.status != 0)
  }

  lemma AbortedStep(s: State, step: Step, m: nat)
    requires Enabled(s, step) && m < |s.msgs| && s.md.aborted && NoSuccess(s.msgs[m])
    ensures var t := Apply(s, step); t.md.aborted && |t.msgs| == |s.msgs| && NoSuccess(t.msgs[m])
  {
    if step.Detach? && step.m == m {
      assert DetachEvent(s.md, s.auto, step.status).status != 0;
    }
  }

  /** A message still attached when LNetMDUnlink aborts the descriptor never reports success. */
  lemma {:induction false} AbortedNeverSucceeds(s: State, steps: seq<Step>, m: nat)
    requires Feasible(s, steps) && m < |s.msgs| && s.md.aborted && NoSuccess(s.msgs[m])
    ensures |Exec(s, steps).msgs| == |s.msgs| && NoSuccess(Exec(s, steps).msgs[m])
    decreases |steps|
  {
    if steps != [] {
      AbortedStep(s, steps[0], m);
      AbortedNeverSucceeds(Apply(s, steps[0]), steps[1..], m);
    }
  }

  /**
    A detach or an LNetMDUnlink waits only for a handler call of another message, and that call can
    always go on.
  */
  lemma WaitsForHandler(s0: State, steps: seq<Step>) returns (step: Step)
    requires Init(s0) && Feasible(s0, steps) && Exec(s0, steps).md.handling
    ensures step.Start? || step.End?
    ensures Enabled(Exec(s0, steps), step) && Handles(Exec(s0, steps).msgs[step.m])
  {
    InitInv(s0);
    ExecInv(s0, steps);
    var s := Exec(s0, steps);
    CountZero(s.msgs, Handles);
    var m :| 0 <= m < |s.msgs| && Handles(s.msgs[m]);
    step := if s.msgs[m].ToCall? then Start(m) else End(m);
  }

  /** The handler call that ends is the one that set the flag: another detach may go ahead. */
  lemma HandlerReleases(s: State, m: nat)
    requires Inv(s) && Enabled(s, End(m)) && Handles(s.msgs[m])
    ensures s.md.handling && !Apply(s, End(m)).md.handling
  {
    MsgCounts(s, m, Finished);
  }

  // ----- the descriptor as it is updated in place

  class LibMd {
    var refcount: int
    var threshold: int
    var full: bool
    var zombie: bool
    var handling: bool
    var aborted: bool
    var hashed: bool
    var listed: bool
    ghost var frees: nat
    const auto: bool
    const handler: bool

    ghost function Abs(): Md
      reads this
    {
      Md(refcount, threshold, full, zombie, handling, aborted, hashed, listed, frees)
    }

    constructor (threshold: int, auto: bool, handler: bool, full: bool)
      ensures Abs() == Md(0, threshold, full, false, false, false, true, true, 0)
      ensures this.auto == auto && this.handler == handler
    {
      this.refcount, this.threshold, this.full := 0, threshold, full;
      this.zombie, this.handling, this.aborted := false, false, false;
      this.hashed, this.listed, this.frees := true, true, 0;
      this.auto, this.handler := auto, handler;
    }

    /** lnet_md_unlink; `freed` tells whether the memory was returned. */
    method UnlinkMd() returns (freed: bool)
      modifies this
      ensures Abs() == Unlink(old(Abs()))
      ensures freed <==> frees == old(frees) + 1
    {
      if !zombie {
        zombie := true;
        hashed := false;
      }
      if refcount != 0 {
        return false;
      }
      listed := false;
      frees := frees + 1;
      return true;
    }

    /** lnet_msg_attach_md with the unlink that follows a match. */
    method AttachMsg(how: How)
      modifies this
      ensures Abs() == AttachMd(old(Abs()), auto, how)
    {
      refcount := refcount + 1;
      if threshold != M.THRESH_INF {
        threshold := threshold - 1;
      }
      if how.Match? {
        if how.fills {
          full := true;
        }
        if (threshold == 0 || full) && auto {
          var _ := UnlinkMd();
        }
      }
    }

    /** The critical section of lnet_msg_detach_md; returns the event the handler will see. */
    method DetachMsg(status: int) returns (ev: Event)
      requires !handling
      modifies this
      ensures Abs() == DetachMd(old(Abs()), auto, handler)
      ensures ev == DetachEvent(old(Abs()), auto, status)
    {
      refcount := refcount - 1;
      var unlink := refcount == 0 && (zombie || (auto && (threshold == 0 || full)));
      ev := Event(unlink, if aborted && status == 0 then ETIMEDOUT else status);
      if handler {
        handling := !unlink;
      }
      if unlink {
        var _ := UnlinkMd();
      }
    }
  }
}
