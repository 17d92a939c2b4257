/**
  The loop of lnet_ptl_attach_md (lnet/lnet/lib-ptl.c) that offers the messages of one list to a new
  descriptor, in order.
*/
module QueueScan {
  import opened Collections
  import opened Matching
  import opened MatchTables

  /** The descriptor afterwards, the messages left, taken (with their slices) and refused. */
  datatype Scanned = Scanned(md: Md, rest: seq<nat>, ok: set<nat>, refused: set<nat>, slices: map<nat, Slice>,
                             spent: bool, unlinked: bool)

  predicate Valid(queue: seq<nat>, infos: seq<Info>) {
    forall j | 0 <= j < |queue| :: queue[j] < |infos|
  }

  /** The test of a message against the descriptor as it is. */
  type Offer = (Md, nat) -> Try

  /** lnet_try_match_md through entry me. */
  function Offering(me: Me, infos: seq<Info>): Offer {
    (md: Md, m: nat) => if m < |infos| then TryMatch(me, md, infos[m]) else if Exhausted(md) then Spent else Mismatch
  }

  /** The descriptor after an attempt. */
  function After(md: Md, attempt: Try): Md {
    if attempt.Match? then attempt.md else md
  }

  /** The loop over one list. */
  function ScanWith(offer: Offer, md: Md, queue: seq<nat>): Scanned
    decreases |queue|
  {
    if queue == [] then Scanned(md, [], {}, {}, map[], false, false)
    else
      var m, tail := queue[0], queue[1..];
      match offer(md, m)
      case Spent => Scanned(md, queue, {}, {}, map[], true, false)
      case Mismatch =>
        var r := ScanWith(offer, md, tail);
        r.(rest := [m] + r.rest)
      case TooBig =>
        var r := ScanWith(offer, md, tail);
        r.(refused := {m} + r.refused)
      case Match(md', offset, mlength) =>
        var slice := map[m := Slice(offset, mlength)];
        if Exhausted(md') then Scanned(md', tail, {m}, {}, slice, true, md'.autoUnlink)
        else
          var r := ScanWith(offer, md', tail);
          r.(ok := {m} + r.ok, slices := slice + r.slices)
  }

  function Scan(me: Me, md: Md, queue: seq<nat>, infos: seq<Info>): Scanned {
    ScanWith(Offering(me, infos), md, queue)
  }

  /** The new descriptor would take the message. */
  predicate Wants(me: Me, md: Md, info: Info) {
    Takes(Entry(me, Some(md)), info)
  }

  /** Both descriptors have the same identity and the same criteria. */
  ghost predicate SameCriteria(me: Me, md: Md, md': Md) {
    md.id == md'.id && forall info :: Accepts(me, md, info) <==> Accepts(me, md', info)
  }

  lemma MatchSame(me: Me, md: Md, info: Info)
    requires TryMatch(me, md, info).Match?
    ensures SameCriteria(me, md, TryMatch(me, md, info).md)
  {
    forall other
      ensures Accepts(me, md, other) <==> Accepts(me, TryMatch(me, md, info).md, other)
    {
      MatchKeepsCriteria(me, md, info, other);
    }
  }

  /** Exhausted descriptors and no others are spent; what does not match now will not match later. */
  ghost predicate Steady(offer: Offer) {
    && (forall md: Md, m: nat {:trigger offer(md, m)} :: offer(md, m).Spent? <==> Exhausted(md))
    && (forall md: Md, m: nat, x: nat | offer(md, x).Match? && offer(md, m).Mismatch? ::
          offer(offer(md, x).md, m).Mismatch? || offer(offer(md, x).md, m).Spent?)
  }

  /** The descriptor takes or refuses the message. */
  predicate Concerned(offer: Offer, md: Md, m: nat) {
    offer(md, m).Match? || offer(md, m).TooBig?
  }

  lemma OfferingSteady(me: Me, infos: seq<Info>)
    ensures Steady(Offering(me, infos))
  {
    var offer := Offering(me, infos);
    forall md: Md, m: nat, x: nat | offer(md, x).Match? && offer(md, m).Mismatch?
      ensures offer(offer(md, x).md, m).Mismatch? || offer(offer(md, x).md, m).Spent?
    {
      if m < |infos| {
        MatchKeepsCriteria(me, md, infos[x], infos[m]);
      }
    }
  }

  // ----- who is taken, refused and left

  /** Every message of the queue is in exactly one of what stays, what was taken and what was refused. */
  ghost predicate Splits(queue: seq<nat>, r: Scanned) {
    && NoDup(r.rest)
    && (forall m :: m in queue <==> m in r.rest || m in r.ok || m in r.refused)
    && (forall m :: m in r.rest ==> m !in r.ok && m !in r.refused)
    && r.ok !! r.refused
  }

  lemma SplitsMore(m: nat, tail: seq<nat>, r: Scanned, slices: map<nat, Slice>)
    requires Splits(tail, r) && m !in tail
    ensures Splits([m] + tail, r.(rest := [m] + r.rest)) && Splits([m] + tail, r.(refused := {m} + r.refused))
    ensures Splits([m] + tail, r.(ok := {m} + r.ok, slices := slices))
  {
  }

  /** A scan splits its queue, each message going to exactly one part. */
  lemma {:induction false} ScanSplits(offer: Offer, md: Md, queue: seq<nat>)
    requires NoDup(queue)
    ensures Splits(queue, ScanWith(offer, md, queue))
    decreases |queue|
  {
    if queue != [] {
      var m, tail, attempt := queue[0], queue[1..], offer(md, queue[0]);
      assert queue == [m] + tail && m !in tail;
      if !attempt.Spent? && !(attempt.Match? && Exhausted(attempt.md)) {
        ScanSplits(offer, After(md, attempt), tail);
        SplitsMore(m, tail, ScanWith(offer, After(md, attempt), tail), ScanWith(offer, md, queue).slices);
      }
    }
  }

  /** The descriptor before message j of the queue is offered to it. */
  function MdBefore(offer: Offer, md: Md, queue: seq<nat>, j: nat): Md
    requires j <= |queue|
  {
    if j == 0 then md
    else
      var was := MdBefore(offer, md, queue, j - 1);
      After(was, offer(was, queue[j - 1]))
  }

  lemma {:induction false} MdBeforeTail(offer: Offer, md: Md, queue: seq<nat>, j: nat)
    requires 1 <= j <= |queue|
    ensures MdBefore(offer, md, queue, j) == MdBefore(offer, After(md, offer(md, queue[0])), queue[1..], j - 1)
  {
    if j > 1 {
      MdBeforeTail(offer, md, queue, j - 1);
    } else {
      assert MdBefore(offer, md, queue, 0) == md;
    }
  }

  /** The queue may be cut in two. */
  lemma {:induction false} MdBeforeConcat(offer: Offer, md: Md, a: seq<nat>, b: seq<nat>, j: nat)
    requires j <= |b|
    ensures MdBefore(offer, md, a, |a|) == MdBefore(offer, md, a + b, |a|)
    ensures MdBefore(offer, MdBefore(offer, md, a, |a|), b, j) == MdBefore(offer, md, a + b, |a| + j)
    decreases j
  {
    MdBeforePrefix(offer, md, a, b, |a|);
    if j > 0 {
      MdBeforeConcat(offer, md, a, b, j - 1);
      assert (a + b)[|a| + j - 1] == b[j - 1];
    }
  }

  lemma {:induction false} MdBeforePrefix(offer: Offer, md: Md, a: seq<nat>, b: seq<nat>, j: nat)
    requires j <= |a|
    ensures MdBefore(offer, md, a, j) == MdBefore(offer, md, a + b, j)
  {
    if j > 0 {
      MdBeforePrefix(offer, md, a, b, j - 1);
      assert (a + b)[j - 1] == a[j - 1];
    }
  }

  /** An exhausted descriptor stays as it is. */
  lemma {:induction false} MdBeforeExhausted(offer: Offer, md: Md, queue: seq<nat>, j: nat)
    requires Steady(offer) && j <= |queue| && Exhausted(md)
    ensures MdBefore(offer, md, queue, j) == md
  {
    if j > 0 {
      MdBeforeExhausted(offer, md, queue, j - 1);
      assert offer(md, queue[j - 1]).Spent?;
    }
  }

  /** What becomes of message m when the descriptor answers so: taken with its slice, refused or left. */
  ghost predicate Decided(attempt: Try, m: nat, r: Scanned) {
    match attempt
    case Match(_, offset, mlength) => m in r.ok && m in r.slices && r.slices[m] == Slice(offset, mlength)
    case TooBig => m in r.refused
    case _ => m in r.rest
  }

  /** Each message is decided by the descriptor as the messages before it have left it. */
  lemma {:induction false} ScanExact(offer: Offer, md: Md, queue: seq<nat>, j: nat)
    requires Steady(offer) && NoDup(queue) && j < |queue|
    ensures Decided(offer(MdBefore(offer, md, queue, j), queue[j]), queue[j], ScanWith(offer, md, queue))
    decreases |queue|
  {
    var m, tail, attempt := queue[0], queue[1..], offer(md, queue[0]);
    var md1 := After(md, attempt);
    if j == 0 {
      FirstDecided(offer, md, queue);
    } else {
      MdBeforeTail(offer, md, queue, j);
      assert queue[j] == tail[j - 1] && m != queue[j];
      if Exhausted(md1) {
        MdBeforeExhausted(offer, md1, tail, j - 1);
        assert offer(md1, queue[j]).Spent?;
        assert attempt.Spent? || attempt.Match?;
      } else {
        ScanExact(offer, md1, tail, j - 1);
      }
    }
  }

  lemma FirstDecided(offer: Offer, md: Md, queue: seq<nat>)
    requires NoDup(queue) && queue != []
    ensures Decided(offer(md, queue[0]), queue[0], ScanWith(offer, md, queue))
  {
    var m, tail, attempt := queue[0], queue[1..], offer(md, queue[0]);
    if attempt.Match? && !Exhausted(attempt.md) {
      assert m !in tail;
      SlicesOfTaken(offer, attempt.md, tail);
      ScanSplits(offer, attempt.md, tail);
    }
  }

  /** Slices are recorded for the messages taken and for no others. */
  lemma {:induction false} SlicesOfTaken(offer: Offer, md: Md, queue: seq<nat>)
    ensures var r := ScanWith(offer, md, queue); r.slices.Keys == r.ok
    decreases |queue|
  {
    if queue != [] {
      var attempt := offer(md, queue[0]);
      if !attempt.Spent? {
        SlicesOfTaken(offer, After(md, attempt), queue[1..]);
      }
    }
  }

  /** The descriptor a scan leaves behind, and whether it is used up and unlinks itself. */
  lemma {:induction false} ScanLeaves(offer: Offer, md: Md, queue: seq<nat>)
    requires Steady(offer)
    ensures var r := ScanWith(offer, md, queue);
            && r.md == MdBefore(offer, md, queue, |queue|)
            && (r.spent <==> queue != [] && Exhausted(r.md))
            && (r.unlinked <==> r.spent && !Exhausted(md) && r.md.autoUnlink)
    decreases |queue|
  {
    if queue != [] {
      var attempt := offer(md, queue[0]);
      var md1 := After(md, attempt);
      MdBeforeTail(offer, md, queue, |queue|);
      if Exhausted(md1) {
        MdBeforeExhausted(offer, md1, queue[1..], |queue| - 1);
        assert attempt.Spent? || attempt.Match?;
      } else {
        ScanLeaves(offer, md1, queue[1..]);
      }
    }
  }

  /** What stays, the descriptor as it is afterwards is not concerned with. */
  lemma {:induction false} LeftUnwanted(offer: Offer, md: Md, queue: seq<nat>, m: nat)
    requires Steady(offer) && m in ScanWith(offer, md, queue).rest
    ensures !Concerned(offer, ScanWith(offer, md, queue).md, m)
    decreases |queue|
  {
    var attempt := offer(md, queue[0]);
    var md1 := After(md, attempt);
    if !Exhausted(md1) {
      if attempt.Mismatch? && m == queue[0] {
        StaysUnwanted(offer, md, queue[1..], m);
      } else {
        LeftUnwanted(offer, md1, queue[1..], m);
      }
    } else {
      assert offer(md1, m).Spent?;
      assert attempt.Spent? || attempt.Match?;
    }
  }

  lemma {:induction false} StaysUnwanted(offer: Offer, md: Md, queue: seq<nat>, m: nat)
    requires Steady(offer) && !Concerned(offer, md, m)
    ensures !Concerned(offer, ScanWith(offer, md, queue).md, m)
    decreases |queue|
  {
    if queue != [] {
      var attempt := offer(md, queue[0]);
      if !attempt.Spent? {
        assert offer(md, m).Mismatch? || offer(md, m).Spent?;
        assert !Concerned(offer, After(md, attempt), m);
        StaysUnwanted(offer, After(md, attempt), queue[1..], m);
      }
    }
  }

  /** What stays keeps its order. */
  lemma {:induction false} ScanKeepsOrder(offer: Offer, md: Md, queue: seq<nat>)
    requires NoDup(queue)
    ensures var r := ScanWith(offer, md, queue); r.rest == Minus(queue, r.ok + r.refused)
    decreases |queue|
  {
    if queue != [] {
      var m, tail, attempt := queue[0], queue[1..], offer(md, queue[0]);
      var r := ScanWith(offer, md, queue);
      ScanSplits(offer, md, queue);
      if attempt.Spent? {
        NothingGone(queue, r.ok + r.refused);
      } else if attempt.Match? && Exhausted(attempt.md) {
        NothingGone(tail, r.ok + r.refused);
      } else {
        var r1 := ScanWith(offer, After(md, attempt), tail);
        ScanKeepsOrder(offer, After(md, attempt), tail);
        OneMoreGone(tail, r1.ok + r1.refused, m);
        if attempt.Mismatch? {
          assert m in r.rest && r.ok + r.refused == r1.ok + r1.refused;
        } else {
          assert r.ok + r.refused == r1.ok + r1.refused + {m};
        }
      }
    }
  }

  /** q without the messages in `gone`. */
  function Minus(q: seq<nat>, gone: set<nat>): seq<nat> {
    if q == [] then [] else if q[0] in gone then Minus(q[1..], gone) else [q[0]] + Minus(q[1..], gone)
  }

  lemma {:induction false} NothingGone(q: seq<nat>, gone: set<nat>)
    requires forall m | m in gone :: m !in q
    ensures Minus(q, gone) == q
  {
    if q != [] {
      assert q == [q[0]] + q[1..];
      NothingGone(q[1..], gone);
    }
  }

  lemma {:induction false} OneMoreGone(q: seq<nat>, gone: set<nat>, m: nat)
    requires m !in q
    ensures Minus(q, gone + {m}) == Minus(q, gone)
  {
    if q != [] {
      assert q == [q[0]] + q[1..];
      OneMoreGone(q[1..], gone, m);
    }
  }

  // ----- two lists in a row

  /** Both lists: the second is looked at only if the descriptor survives the first. */
  function ScanTwo(offer: Offer, md: Md, a: seq<nat>, b: seq<nat>): (Scanned, Scanned) {
    var r := ScanWith(offer, md, a);
    (r, if r.spent then r.(rest := b, ok := {}, refused := {}, slices := map[]) else ScanWith(offer, r.md, b))
  }

  /** Both lists are split, and there are slices for what was taken. */
  ghost predicate BothOk(a: seq<nat>, b: seq<nat>, r: (Scanned, Scanned)) {
    Splits(a, r.0) && Splits(b, r.1) && r.0.slices.Keys == r.0.ok && r.1.slices.Keys == r.1.ok
  }

  lemma TwoSplit(offer: Offer, md: Md, a: seq<nat>, b: seq<nat>)
    requires NoDup(a) && NoDup(b)
    ensures BothOk(a, b, ScanTwo(offer, md, a, b))
  {
    var r := ScanWith(offer, md, a);
    ScanSplits(offer, md, a);
    SlicesOfTaken(offer, md, a);
    if !r.spent {
      ScanSplits(offer, r.md, b);
      SlicesOfTaken(offer, r.md, b);
    }
  }

  /** Every message of both lists is decided by the descriptor as those before it have left it. */
  lemma TwoDecide(offer: Offer, md: Md, a: seq<nat>, b: seq<nat>, j: nat)
    requires Steady(offer) && NoDup(a) && NoDup(b) && j < |a + b|
    ensures var (r1, r2) := ScanTwo(offer, md, a, b); var x := (a + b)[j];
            Decided(offer(MdBefore(offer, md, a + b, j), x), x, if j < |a| then r1 else r2)
  {
    if j < |a| {
      MdBeforePrefix(offer, md, a, b, j);
      ScanExact(offer, md, a, j);
    } else {
      var r, i := ScanWith(offer, md, a), j - |a|;
      ScanLeaves(offer, md, a);
      MdBeforeConcat(offer, md, a, b, i);
      if r.spent {
        MdBeforeExhausted(offer, r.md, b, i);
        assert offer(r.md, b[i]).Spent?;
      } else {
        ScanExact(offer, r.md, b, i);
      }
    }
  }

  /** The descriptor both scans leave behind. */
  lemma TwoLeave(offer: Offer, md: Md, a: seq<nat>, b: seq<nat>)
    requires Steady(offer)
    ensures var r := ScanTwo(offer, md, a, b).1;
            && r.md == MdBefore(offer, md, a + b, |a + b|)
            && (r.spent <==> a + b != [] && Exhausted(r.md))
            && (r.unlinked <==> r.spent && !Exhausted(md) && r.md.autoUnlink)
  {
    var r := ScanWith(offer, md, a);
    ScanLeaves(offer, md, a);
    MdBeforeConcat(offer, md, a, b, |b|);
    if r.spent {
      MdBeforeExhausted(offer, r.md, b, |b|);
    } else {
      ScanLeaves(offer, r.md, b);
      if a != [] && Exhausted(md) {
        MdBeforeExhausted(offer, md, a, |a|);
      }
    }
  }

  // ----- with the test of lnet_try_match_md

  lemma {:induction false} CriteriaKept(me: Me, md: Md, queue: seq<nat>, infos: seq<Info>, j: nat)
    requires j <= |queue|
    ensures SameCriteria(me, md, MdBefore(Offering(me, infos), md, queue, j))
  {
    if j > 0 {
      CriteriaKept(me, md, queue, infos, j - 1);
      var was := MdBefore(Offering(me, infos), md, queue, j - 1);
      if Offering(me, infos)(was, queue[j - 1]).Match? {
        MatchSame(me, was, infos[queue[j - 1]]);
      }
    }
  }

  /**
    A scan splits its queue into what stays, what the descriptor took and what it refused, each
    message exactly once; and what stays, the descriptor as it is afterwards does not want.
  */
  lemma ScanSpec(me: Me, md: Md, queue: seq<nat>, infos: seq<Info>)
    requires Valid(queue, infos) && NoDup(queue)
    ensures var r := Scan(me, md, queue, infos);
            && Splits(queue, r)
            && SameCriteria(me, md, r.md)
            && (forall m | m in r.rest :: m < |infos| && !Wants(me, r.md, infos[m]))
            && (r.spent ==> Exhausted(r.md))
            && (r.unlinked ==> r.spent)
  {
    var offer, r := Offering(me, infos), Scan(me, md, queue, infos);
    OfferingSteady(me, infos);
    ScanSplits(offer, md, queue);
    ScanLeaves(offer, md, queue);
    CriteriaKept(me, md, queue, infos, |queue|);
    forall m | m in r.rest
      ensures m < |infos| && !Wants(me, r.md, infos[m])
    {
      assert m in queue;
      LeftUnwanted(offer, md, queue, m);
      NotConcerned(me, r.md, m, infos);
    }
  }

  lemma NotConcerned(me: Me, md: Md, m: nat, infos: seq<Info>)
    requires m < |infos|
    ensures Concerned(Offering(me, infos), md, m) <==> Wants(me, md, infos[m])
  {
  }

  // ----- the loop as it runs

  /** A scan's result, behind what earlier rounds of the loop decided. */
  function Behind(kept: seq<nat>, ok: set<nat>, refused: set<nat>, slices: map<nat, Slice>, r: Scanned): Scanned {
    r.(rest := kept + r.rest, ok := ok + r.ok, refused := refused + r.refused, slices := slices + r.slices)
  }

  lemma BehindOne(kept: seq<nat>, ok: set<nat>, refused: set<nat>, slices: map<nat, Slice>, m: nat, slice: Slice, r: Scanned)
    ensures Behind(kept, ok, refused, slices, r.(rest := [m] + r.rest)) == Behind(kept + [m], ok, refused, slices, r)
    ensures Behind(kept, ok, refused, slices, r.(refused := {m} + r.refused)) == Behind(kept, ok, refused + {m}, slices, r)
    ensures Behind(kept, ok, refused, slices, r.(ok := {m} + r.ok, slices := map[m := slice] + r.slices)) ==
            Behind(kept, ok + {m}, refused, slices[m := slice], r)
  {
    assert kept + ([m] + r.rest) == kept + [m] + r.rest;
    assert refused + ({m} + r.refused) == refused + {m} + r.refused;
    assert ok + ({m} + r.ok) == ok + {m} + r.ok;
    assert slices + (map[m := slice] + r.slices) == slices[m := slice] + r.slices;
  }

  /** The loop of lnet_ptl_attach_md over one list. */
  method ScanQueue(offer: Offer, md: Md, queue: seq<nat>) returns (r: Scanned)
    ensures r == ScanWith(offer, md, queue)
  {
    var cur, kept, ok, refused, slices := md, [], {}, {}, map[];
    assert queue[0..] == queue;
    var i := 0;
    while i < |queue|
      invariant 0 <= i <= |queue|
      invariant ScanWith(offer, md, queue) == Behind(kept, ok, refused, slices, ScanWith(offer, cur, queue[i..]))
    {
      var m := queue[i];
      assert queue[i..][1..] == queue[i + 1..];
      var attempt := offer(cur, m);
      if attempt.Spent? {
        return Scanned(cur, kept + queue[i..], ok, refused, slices, true, false);
      }
      var slice := if attempt.Match? then Slice(attempt.offset, attempt.mlength) else Slice(0, 0);
      if attempt.Match? && Exhausted(attempt.md) {
        return Scanned(attempt.md, kept + queue[i + 1..], ok + {m}, refused, slices[m := slice], true, attempt.md.autoUnlink);
      }
      cur := if attempt.Match? then attempt.md else cur;
      BehindOne(kept, ok, refused, slices, m, slice, ScanWith(offer, cur, queue[i + 1..]));
      match attempt {
        case Mismatch => kept := kept + [m];
        case TooBig => refused := refused + {m};
        case Match(_, _, _) => ok, slices := ok + {m}, slices[m := slice];
      }
      i := i + 1;
    }
    return Scanned(cur, kept, ok, refused, slices, false, false);
  }
}
