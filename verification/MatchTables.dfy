/**
  Hashed match tables of lnet/lnet/lib-ptl.c on a wildcard portal: buckets of match entries, the
  bitmap of exhausted buckets, and the search for the descriptor that takes an incoming request.
*/
module MatchTables {
  import opened Collections
  import opened Matching

  /** LNET_MT_HASH_SIZE hash buckets, then the bucket of entries with ignore bits. */
  const HASH_SIZE := 256
  const IGNORE := HASH_SIZE
  const BUCKETS := HASH_SIZE + 1
  /** Five 64-bit words; the bits past the last bucket stay set. */
  const BITMAP_BITS := 320

  datatype Entry = Entry(me: Me, md: Option<Md>)

  datatype Table = Table(heads: seq<seq<Entry>>, bits: seq<bool>, enabled: bool)

  /** lnet_mt_match_head on a wildcard portal. */
  function Bucket(mbits: bv64): (p: nat)
    ensures p < HASH_SIZE
  {
    (mbits & 0xFF) as nat
  }

  /** Match bits share a bucket exactly if their low eight bits agree. */
  lemma SameBucket(a: bv64, b: bv64)
    ensures Bucket(a) == Bucket(b) <==> a & 0xFF == b & 0xFF
  {
  }

  /** The bucket LNetMEAttach puts an entry in. */
  function Home(me: Me): (p: nat)
    ensures p < BUCKETS
  {
    if me.ignoreBits != 0 then IGNORE else Bucket(me.matchBits)
  }

  /** The entry's descriptor can still take the request. */
  predicate Takes(e: Entry, info: Info) {
    e.md.Some? && !Exhausted(e.md.value) && Accepts(e.me, e.md.value, info)
  }

  predicate EntrySpent(e: Entry) {
    e.md.Some? ==> Exhausted(e.md.value)
  }

  predicate AllSpent(es: seq<Entry>) {
    forall i | 0 <= i < |es| :: EntrySpent(es[i])
  }

  predicate Shaped(t: Table) {
    |t.heads| == BUCKETS && |t.bits| == BUCKETS
  }

  /** Every entry is in its own bucket. */
  ghost predicate Placed(t: Table)
    requires Shaped(t)
  {
    forall p, i | 0 <= p < BUCKETS && 0 <= i < |t.heads[p]| :: Home(t.heads[p][i].me) == p
  }

  /** A set bit means that no descriptor of the bucket can take anything. */
  ghost predicate BitsSound(t: Table)
    requires Shaped(t)
  {
    forall p | 0 <= p < BUCKETS && t.bits[p] :: AllSpent(t.heads[p])
  }

  predicate AllBits(t: Table)
    requires Shaped(t)
  {
    forall p | 0 <= p < BUCKETS :: t.bits[p]
  }

  /** The invariant of a table between critical sections. */
  ghost predicate Sound(t: Table) {
    Shaped(t) && Placed(t) && BitsSound(t) && (!t.enabled ==> AllBits(t))
  }

  /** A plain scan: some entry of the table takes the request with descriptor `id`. */
  ghost predicate TakenBy(t: Table, id: nat, info: Info) {
    exists p, i | 0 <= p < |t.heads| && 0 <= i < |t.heads[p]| ::
      Takes(t.heads[p][i], info) && t.heads[p][i].md.value.id == id
  }

  ghost predicate Takeable(t: Table, info: Info) {
    exists id: nat :: TakenBy(t, id, info)
  }

  // ----- the search

  /** What a search reports; `spent` is LNET_MATCHMD_EXHAUSTED. */
  datatype Outcome =
    | Missed(spent: bool)
    | Refused                                            // too big for the matching descriptor
    | Attached(id: nat, offset: nat, mlength: nat)

  /** Index of the first entry that takes the request, or the length of the list. */
  function FirstTaker(es: seq<Entry>, info: Info): (k: nat)
    ensures k <= |es|
    ensures k < |es| ==> Takes(es[k], info)
    ensures forall i | 0 <= i < k :: !Takes(es[i], info)
  {
    if es == [] then 0
    else if Takes(es[0], info) then 0
    else
      var k := FirstTaker(es[1..], info);
      assert forall i | 1 <= i < k + 1 :: es[i] == es[1..][i - 1];
      k + 1
  }

  /** The list after entry k took the request; an exhausted auto-unlink descriptor leaves at once. */
  function AfterHit(es: seq<Entry>, k: nat, info: Info): (r: (seq<Entry>, Outcome))
    requires k < |es| && Takes(es[k], info)
    ensures !r.1.Missed?
  {
    var e := es[k];
    match TryMatch(e.me, e.md.value, info)
    case Match(md, offset, mlength) =>
      var es' := if !(Exhausted(md) && md.autoUnlink) then es[k := e.(md := Some(md))]
                 else if e.me.unlink then es[..k] + es[k + 1..]
                 else es[k := e.(md := None)];
      (es', Attached(md.id, offset, mlength))
    case _ => (es, Refused)
  }

  function HitAt(t: Table, p: nat, k: nat, info: Info): (Table, Outcome)
    requires p < |t.heads| && k < |t.heads[p]| && Takes(t.heads[p][k], info)
  {
    var (es, out) := AfterHit(t.heads[p], k, info);
    (t.(heads := t.heads[p := es]), out)
  }

  /** Set the bucket's bit if its list turned out to be exhausted. */
  function Mark(t: Table, p: nat): Table
    requires Shaped(t) && p < BUCKETS
  {
    if AllSpent(t.heads[p]) then t.(bits := t.bits[p := true]) else t
  }

  /** One pass over bucket p. */
  function Pass(t: Table, p: nat, info: Info): (Table, Outcome)
    requires Shaped(t) && p < BUCKETS
  {
    var k := FirstTaker(t.heads[p], info);
    if k < |t.heads[p]| then HitAt(t, p, k, info)
    else (Mark(t, p), Missed(AllSpent(t.heads[p]) && AllBits(Mark(t, p))))
  }

  /** lnet_mt_match_md for a PUT on a lazy wildcard portal. */
  function Search(t: Table, info: Info): (Table, Outcome)
    requires Shaped(t)
  {
    var q := Bucket(info.mbits);
    if t.heads[IGNORE] == [] then Pass(t, q, info)
    else
      var (t1, out) := Pass(t, IGNORE, info);
      if out == Missed(false) then Pass(t1, q, info) else (t1, out)
  }

  // ----- the hashed search agrees with the scan

  lemma HomeOfTaker(e: Entry, info: Info)
    requires Takes(e, info)
    ensures Home(e.me) == IGNORE || Home(e.me) == Bucket(info.mbits)
  {
    if e.me.ignoreBits == 0 {
      EqualBits(e.me.matchBits, info.mbits, e.me.ignoreBits);
    }
  }

  lemma EqualBits(a: bv64, b: bv64, ignore: bv64)
    requires ignore == 0 && BitsMatch(a, ignore, b)
    ensures a == b
  {}

  /** What a pass over bucket p leaves behind. */
  lemma PassSpec(t: Table, p: nat, info: Info)
    requires Shaped(t) && Placed(t) && BitsSound(t) && p < BUCKETS
    ensures var (t', out) := Pass(t, p, info);
            && Shaped(t') && Placed(t') && BitsSound(t') && t'.enabled == t.enabled
            && (out.Missed? <==> forall i | 0 <= i < |t.heads[p]| :: !Takes(t.heads[p][i], info))
            && (out.Missed? ==> t'.heads == t.heads && (out.spent ==> AllBits(t')))
            && (forall q | 0 <= q < BUCKETS && t.bits[q] :: t'.bits[q])
            && (!out.Missed? ==> exists i | 0 <= i < |t.heads[p]| ::
                  Takes(t.heads[p][i], info) && (out.Attached? ==> out.id == t.heads[p][i].md.value.id))
  {
    var k := FirstTaker(t.heads[p], info);
    if k < |t.heads[p]| {
      var e := t.heads[p][k];
      var es := AfterHit(t.heads[p], k, info).0;
      var t' := Pass(t, p, info).0;
      assert Takes(t.heads[p][k], info);
      assert !t.bits[p] by {
        assert !EntrySpent(t.heads[p][k]);
      }
      HitKeeps(t.heads[p], k, info);
      forall r, i | 0 <= r < BUCKETS && 0 <= i < |t'.heads[r]|
        ensures Home(t'.heads[r][i].me) == r
      {
        if r == p {
          var j :| 0 <= j < |t.heads[p]| && t.heads[p][j].me == es[i].me;
          assert Home(t.heads[p][j].me) == p;
        } else {
          assert Home(t.heads[r][i].me) == r;
        }
      }
    }
  }

  /** A hit adds nothing to its list: each entry left was there, and takes no more than before. */
  lemma HitKeeps(es: seq<Entry>, k: nat, info: Info)
    requires k < |es| && Takes(es[k], info)
    ensures var es' := AfterHit(es, k, info).0;
            forall i | 0 <= i < |es'| :: exists j ::
              0 <= j < |es| && es[j].me == es'[i].me && NoMore(es'[i], es[j])
  {
    var es' := AfterHit(es, k, info).0;
    var md := es[k].md.value;
    var attempt := TryMatch(es[k].me, md, info);
    if attempt.Match? {
      assert attempt.md.id == md.id;
      assert forall other :: Accepts(es[k].me, attempt.md, other) <==> Accepts(es[k].me, md, other) by {
        forall other ensures Accepts(es[k].me, attempt.md, other) <==> Accepts(es[k].me, md, other) {
          MatchKeepsCriteria(es[k].me, md, info, other);
        }
      }
    }
    forall i | 0 <= i < |es'|
      ensures exists j :: 0 <= j < |es| && es[j].me == es'[i].me && NoMore(es'[i], es[j])
    {
      var j := if |es'| < |es| && i >= k then i + 1 else i;
      assert es[j].me == es'[i].me && NoMore(es'[i], es[j]);
    }
  }

  /** Whatever the first entry takes, the second takes with the same descriptor. */
  ghost predicate NoMore(e: Entry, was: Entry) {
    forall info | Takes(e, info) :: Takes(was, info) && was.md.value.id == e.md.value.id
  }

  /** A search never makes a table take more than it took before. */
  lemma PassMonotone(t: Table, p: nat, info: Info, id: nat, other: Info)
    requires Shaped(t) && p < BUCKETS && TakenBy(Pass(t, p, info).0, id, other)
    ensures TakenBy(t, id, other)
  {
    var t' := Pass(t, p, info).0;
    var r, i :| 0 <= r < |t'.heads| && 0 <= i < |t'.heads[r]| &&
                Takes(t'.heads[r][i], other) && t'.heads[r][i].md.value.id == id;
    var k := FirstTaker(t.heads[p], info);
    if r == p && k < |t.heads[p]| {
      HitKeeps(t.heads[p], k, info);
      var j :| 0 <= j < |t.heads[p]| && t.heads[p][j].me == t'.heads[p][i].me && NoMore(t'.heads[p][i], t.heads[p][j]);
      assert Takes(t.heads[p][j], other) && t.heads[p][j].md.value.id == id;
    } else {
      assert t'.heads[r] == t.heads[r];
      assert Takes(t.heads[r][i], other);
    }
  }

  lemma SearchMonotone(t: Table, info: Info, id: nat, other: Info)
    requires Shaped(t) && TakenBy(Search(t, info).0, id, other)
    ensures TakenBy(t, id, other)
  {
    var q := Bucket(info.mbits);
    if t.heads[IGNORE] == [] {
      PassMonotone(t, q, info, id, other);
    } else {
      var (t1, out) := Pass(t, IGNORE, info);
      if out == Missed(false) {
        PassMonotone(t1, q, info, id, other);
      }
      PassMonotone(t, IGNORE, info, id, other);
    }
  }

  /**
    The search with its bitmap and its two buckets finds a descriptor exactly when a scan of the
    whole table would, keeps the table sound, and reports `spent` only with all bits set.
  */
  lemma SearchAgreesWithScan(t: Table, info: Info)
    requires Sound(t)
    ensures var (t', out) := Search(t, info);
            && Sound(t') && t'.enabled == t.enabled
            && (out.Missed? <==> !Takeable(t, info))
            && (out.Attached? ==> TakenBy(t, out.id, info))
            && (out.Missed? && out.spent ==> AllBits(t'))
  {
    var q := Bucket(info.mbits);
    var p := if t.heads[IGNORE] == [] then q else IGNORE;
    var (t1, out) := Pass(t, p, info);
    PassSpec(t, p, info);
    if !out.Missed? {
      FoundInBucket(t, p, info);
    } else if out.spent {
      assert BitsSound(t1);
      NothingLeft(t, info);
    } else if p == IGNORE {
      PassSpec(t1, q, info);
      if Pass(t1, q, info).1.Missed? {
        NotInBuckets(t, info);
      } else {
        FoundInBucket(t, q, info);
      }
    } else {
      NotInBuckets(t, info);
    }
  }

  lemma FoundInBucket(t: Table, p: nat, info: Info)
    requires Shaped(t) && p < BUCKETS && exists i | 0 <= i < |t.heads[p]| :: Takes(t.heads[p][i], info)
    ensures Takeable(t, info)
    ensures forall i | 0 <= i < |t.heads[p]| && Takes(t.heads[p][i], info) :: TakenBy(t, t.heads[p][i].md.value.id, info)
  {
    var i :| 0 <= i < |t.heads[p]| && Takes(t.heads[p][i], info);
    assert TakenBy(t, t.heads[p][i].md.value.id, info);
  }

  lemma NotInBuckets(t: Table, info: Info)
    requires Shaped(t) && Placed(t)
    requires forall p, i | (p == IGNORE || p == Bucket(info.mbits)) && 0 <= i < |t.heads[p]| :: !Takes(t.heads[p][i], info)
    ensures !Takeable(t, info)
  {
    forall p, i | 0 <= p < BUCKETS && 0 <= i < |t.heads[p]|
      ensures !Takes(t.heads[p][i], info)
    {
      assert Home(t.heads[p][i].me) == p;
      if Takes(t.heads[p][i], info) {
        HomeOfTaker(t.heads[p][i], info);
      }
    }
  }

  /** A table whose lists are all spent takes nothing. */
  lemma NothingLeft(t: Table, info: Info)
    requires Shaped(t) && forall p | 0 <= p < BUCKETS :: AllSpent(t.heads[p])
    ensures !Takeable(t, info)
  {
    forall p, i | 0 <= p < BUCKETS && 0 <= i < |t.heads[p]|
      ensures !Takes(t.heads[p][i], info)
    {
      assert EntrySpent(t.heads[p][i]);
    }
  }

  // ----- which descriptor it is, and what becomes of the table

  /** Entry k of bucket p is the one that gets the request: the first that takes it, ignore bits before others. */
  ghost predicate FirstInLine(t: Table, p: nat, k: nat, info: Info) {
    && p < |t.heads| && k < |t.heads[p]| && Takes(t.heads[p][k], info)
    && (forall i | 0 <= i < k :: !Takes(t.heads[p][i], info))
    && (p == IGNORE ||
        (p == Bucket(info.mbits) && IGNORE < |t.heads| && forall i | 0 <= i < |t.heads[IGNORE]| :: !Takes(t.heads[IGNORE][i], info)))
  }

  /**
    The list es' is es after entry k gave a slice and became md: nothing else has changed; a used up
    descriptor that unlinks itself is gone, with its entry if that is to go too.
  */
  ghost predicate Gave(es: seq<Entry>, es': seq<Entry>, k: nat, md: Md)
    requires k < |es|
  {
    if Exhausted(md) && md.autoUnlink && es[k].me.unlink then es' == es[..k] + es[k + 1..]
    else
      && |es'| == |es|
      && (forall i | 0 <= i < |es| && i != k :: es'[i] == es[i])
      && es'[k] == Entry(es[k].me, if Exhausted(md) && md.autoUnlink then None else Some(md))
  }

  /** What a search reports and leaves behind when entry k of bucket p is first in line. */
  ghost predicate Handled(t: Table, t': Table, out: Outcome, p: nat, k: nat, info: Info)
    requires p < |t.heads| && k < |t.heads[p]| && t.heads[p][k].md.Some?
  {
    && |t'.heads| == |t.heads|
    && (forall q | 0 <= q < |t.heads| && q != p :: t'.heads[q] == t.heads[q])
    && match TryMatch(t.heads[p][k].me, t.heads[p][k].md.value, info)
       case Match(md, offset, mlength) => out == Attached(md.id, offset, mlength) && Gave(t.heads[p], t'.heads[p], k, md)
       case _ => out == Refused && t'.heads[p] == t.heads[p]
  }

  lemma PassHandles(t: Table, p: nat, info: Info)
    requires Shaped(t) && p < BUCKETS && !Pass(t, p, info).1.Missed?
    ensures var k := FirstTaker(t.heads[p], info);
            k < |t.heads[p]| && Handled(t, Pass(t, p, info).0, Pass(t, p, info).1, p, k, info)
            && Pass(t, p, info).0.bits == t.bits
  {
  }

  /** The first descriptor in line gets the request; the rest of the table stays as it is. */
  lemma SearchHandles(t: Table, info: Info) returns (p: nat, k: nat)
    requires Sound(t) && Takeable(t, info)
    ensures FirstInLine(t, p, k, info)
    ensures var (t', out) := Search(t, info); Handled(t, t', out, p, k, info)
  {
    var t1: Table;
    p, t1 := SearchWhere(t, info);
    PassHandles(t1, p, info);
    k := FirstTaker(t.heads[p], info);
  }

  /** The pass that finds something, over the table the pass before it has left. */
  lemma SearchWhere(t: Table, info: Info) returns (p: nat, t1: Table)
    requires Sound(t) && Takeable(t, info)
    ensures p < BUCKETS && Shaped(t1) && t1.heads == t.heads && Search(t, info) == Pass(t1, p, info)
    ensures !Pass(t1, p, info).1.Missed?
    ensures p == IGNORE || (p == Bucket(info.mbits) && forall i | 0 <= i < |t.heads[IGNORE]| :: !Takes(t.heads[IGNORE][i], info))
  {
    SearchAgreesWithScan(t, info);
    p, t1 := if t.heads[IGNORE] == [] then Bucket(info.mbits) else IGNORE, t;
    PassSpec(t, p, info);
    if Pass(t, p, info).1.Missed? {
      p, t1 := Bucket(info.mbits), Pass(t, IGNORE, info).0;
    }
  }

  /**
    A search that finds nothing sets the bits of the buckets it looked at exactly if they are
    exhausted, changes nothing else, and reports exhaustion exactly if all bits are then set.
  */
  lemma MissMarks(t: Table, info: Info)
    requires Sound(t) && !Takeable(t, info)
    ensures var (t', out) := Search(t, info); var q := Bucket(info.mbits);
            && out == Missed(AllBits(t')) && Shaped(t') && t'.heads == t.heads && t'.enabled == t.enabled
            && (t'.bits[q] <==> AllSpent(t.heads[q]))
            && (t.heads[IGNORE] != [] ==> (t'.bits[IGNORE] <==> AllSpent(t.heads[IGNORE])))
            && (forall p | 0 <= p < BUCKETS && p != q && p != IGNORE :: t'.bits[p] == t.bits[p])
  {
    SearchAgreesWithScan(t, info);
    var q := Bucket(info.mbits);
    PassSpec(t, IGNORE, info);
    if t.heads[IGNORE] == [] {
      PassMarks(t, q, info);
    } else {
      PassMarks(t, IGNORE, info);
      var t1 := Pass(t, IGNORE, info).0;
      if Pass(t, IGNORE, info).1 == Missed(false) {
        PassMarks(t1, q, info);
      }
    }
  }

  /** Unless the search reports exhaustion, some bit is clear afterwards. */
  lemma SearchLeavesClear(t: Table, info: Info)
    requires Sound(t)
    ensures var (t', out) := Search(t, info); out != Missed(true) ==> Shaped(t') && !AllBits(t')
  {
    SearchAgreesWithScan(t, info);
    if Takeable(t, info) {
      var p, k := SearchHandles(t, info);
      assert !EntrySpent(t.heads[p][k]);
      assert !t.bits[p];
      SearchKeepsBit(t, p, k, info);
    } else {
      MissMarks(t, info);
    }
  }

  lemma SearchKeepsBit(t: Table, p: nat, k: nat, info: Info)
    requires Sound(t) && FirstInLine(t, p, k, info)
    ensures Shaped(Search(t, info).0) && Search(t, info).0.bits[p] == t.bits[p]
  {
    var q := Bucket(info.mbits);
    if t.heads[IGNORE] == [] {
      PassHandles(t, q, info);
    } else if p == IGNORE {
      PassHandles(t, IGNORE, info);
    } else {
      PassMarks(t, IGNORE, info);
      var t1 := Pass(t, IGNORE, info).0;
      assert Takes(t1.heads[q][k], info);
      assert !EntrySpent(t.heads[q][k]);
      PassHandles(t1, q, info);
    }
  }

  lemma PassMarks(t: Table, p: nat, info: Info)
    requires Shaped(t) && BitsSound(t) && p < BUCKETS && Pass(t, p, info).1.Missed?
    ensures var (t', out) := Pass(t, p, info);
            && Shaped(t') && BitsSound(t') && t'.heads == t.heads && t'.enabled == t.enabled && out == Missed(AllBits(t'))
            && t'.bits == t.bits[p := AllSpent(t.heads[p])]
  {
    assert AllSpent(t.heads[p]) || !t.bits[p];
    assert t.bits[p := t.bits[p]] == t.bits;
  }

  // ----- the table as the code keeps it, updated in place

  class MatchTable {
    const heads: array<seq<Entry>>
    const exhausted: array<bool>
    var enabled: bool

    ghost predicate Valid()
      reads heads, exhausted
    {
      && heads.Length == BUCKETS
      && exhausted.Length == BITMAP_BITS
      && forall p | BUCKETS <= p < BITMAP_BITS :: exhausted[p]
    }

    ghost function Abs(): Table
      requires Valid()
      reads this, heads, exhausted
    {
      Table(heads[..], exhausted[..BUCKETS], enabled)
    }

    /** lnet_ptl_setup: no entries, all bits set, disabled. */
    constructor ()
      ensures Valid() && fresh(heads) && fresh(exhausted)
      ensures Sound(Abs()) && !enabled
      ensures forall p | 0 <= p < BUCKETS :: Abs().heads[p] == []
    {
      heads := new seq<Entry>[BUCKETS](_ => []);
      exhausted := new bool[BITMAP_BITS](_ => true);
      enabled := false;
    }

    /** lnet_mt_test_exhausted: one bucket, or the whole bitmap if pos < 0. */
    method TestExhausted(pos: int) returns (r: bool)
      requires Valid() && pos < BUCKETS
      ensures pos >= 0 ==> r == Abs().bits[pos]
      ensures pos < 0 ==> r == AllBits(Abs())
    {
      if pos >= 0 {
        return exhausted[pos];
      }
      for i := 0 to BITMAP_BITS
        invariant forall j | 0 <= j < i :: exhausted[j]
      {
        if !exhausted[i] {
          assert !Abs().bits[i];
          return false;
        }
      }
      return true;
    }

    /** lnet_mt_set_exhausted. */
    method SetExhausted(pos: nat, flag: bool)
      requires Valid() && pos < BUCKETS
      modifies exhausted
      ensures Valid() && Abs() == old(Abs()).(bits := old(Abs()).bits[pos := flag])
    {
      exhausted[pos] := flag;
    }

    /** The list_for_each_entry_safe loop over bucket p and the bookkeeping after it. */
    method ScanBucket(p: nat, info: Info) returns (out: Outcome)
      requires Valid() && p < BUCKETS
      modifies heads, exhausted
      ensures Valid() && (Abs(), out) == Pass(old(Abs()), p, info)
    {
      var spent := true;
      var es := heads[p];
      var i := 0;
      while i < |es|
        invariant 0 <= i <= |es| && es == heads[p] && Abs() == old(Abs()) && Valid()
        invariant forall j | 0 <= j < i :: !Takes(es[j], info)
        invariant spent <==> AllSpent(es[..i])
      {
        assert es[..i + 1] == es[..i] + [es[i]];
        if es[i].md.Some? {
          var md := es[i].md.value;
          var attempt := TryMatch(es[i].me, md, info);
          if !attempt.Spent? {
            spent := false;
          }
          if attempt.Match? || attempt.TooBig? {
            FirstTakerUnique(es, i, info);
            heads[p], out := AfterHit(es, i, info).0, AfterHit(es, i, info).1;
            return;
          }
        }
        i := i + 1;
      }
      assert es[..i] == es;
      assert FirstTaker(es, info) == |es|;
      if spent {
        SetExhausted(p, true);
        spent := TestExhausted(-1);
      }
      return Missed(spent);
    }

    /** lnet_mt_match_md. */
    method MatchMd(info: Info) returns (out: Outcome)
      requires Valid()
      modifies heads, exhausted
      ensures Valid() && (Abs(), out) == Search(old(Abs()), info)
    {
      var head := if heads[IGNORE] != [] then IGNORE else Bucket(info.mbits);
      out := ScanBucket(head, info);
      if out == Missed(false) && head == IGNORE {
        out := ScanBucket(Bucket(info.mbits), info);
      }
    }
  }

  lemma FirstTakerUnique(es: seq<Entry>, k: nat, info: Info)
    requires k < |es| && Takes(es[k], info) && forall i | 0 <= i < k :: !Takes(es[i], info)
    ensures FirstTaker(es, info) == k
  {}
}
