/**
  cfs_ip_ar_min_max (lib/libcfs/nidstrings.c): when the addresses of a range are the integers from a
  minimum to a maximum, and when the check of the source says so.
*/
module Contiguity {
  import opened Machine
  import opened AddrRange

  /** What cfs_ip_ar_min_max demands of one expression, given that a ranged octet came before. */
  function CheckExpr(e: Expr, expectFull: bool): int {
    if expectFull && (e.lo != 0 || e.hi != 255) then ERANGE
    else if e.stride != 1 then ERANGE
    else if e.lo > e.hi then EINVAL
    else 0
  }

  /** Some octet before k is a proper range. */
  predicate RangedBefore(octets: Octets, k: nat)
    requires k <= |octets|
  {
    exists j | 0 <= j < k :: |octets[j]| == 1 && octets[j][0].lo != octets[j][0].hi
  }

  /** The first k octets pass. */
  ghost predicate Passed(octets: Octets, k: nat)
    requires k <= |octets|
  {
    forall j | 0 <= j < k :: |octets[j]| <= 1 && (|octets[j]| == 1 ==> CheckExpr(octets[j][0], RangedBefore(octets, j)) == 0)
  }

  ghost predicate Small(es: seq<Expr>) {
    forall i | 0 <= i < |es| :: es[i].lo <= 255 && es[i].hi <= 255
  }

  function LoOf(es: seq<Expr>): nat {
    if es == [] then 0 else es[0].lo
  }

  function HiOf(es: seq<Expr>): nat {
    if es == [] then 0 else es[0].hi
  }

  function Los(octets: Octets): (r: seq<nat>)
    requires |octets| == 4
    ensures |r| == 4 && forall k | 0 <= k < 4 :: r[k] == LoOf(octets[k])
  {
    [LoOf(octets[0]), LoOf(octets[1]), LoOf(octets[2]), LoOf(octets[3])]
  }

  function His(octets: Octets): (r: seq<nat>)
    requires |octets| == 4
    ensures |r| == 4 && forall k | 0 <= k < 4 :: r[k] == HiOf(octets[k])
  {
    [HiOf(octets[0]), HiOf(octets[1]), HiOf(octets[2]), HiOf(octets[3])]
  }

  /** cfs_ip_ar_min_max. */
  method IpArMinMax(octets: Octets) returns (rc: int, min: nat, max: nat)
    requires |octets| == 4 && forall k | 0 <= k < 4 :: Small(octets[k])
    ensures rc == 0 <==> Passed(octets, 4)
    ensures rc == 0 ==> min == Value(Los(octets)) && max == Value(His(octets))
  {
    var minIp, maxIp := new nat[4](_ => 0), new nat[4](_ => 0);
    var expectFull := false;
    rc, min, max := 0, 0, 0;
    for cur := 0 to 4
      invariant Passed(octets, cur) && (expectFull <==> RangedBefore(octets, cur))
      invariant forall j | 0 <= j < cur :: minIp[j] == LoOf(octets[j]) && maxIp[j] == HiOf(octets[j])
      invariant forall j | cur <= j < 4 :: minIp[j] == 0 && maxIp[j] == 0
    {
      if |octets[cur]| >= 1 {
        var e := octets[cur][0];
        rc := CheckExpr(e, expectFull);
        if rc != 0 {
          return;
        }
        if e.lo != e.hi {
          expectFull := true;
        }
        minIp[cur], maxIp[cur] := e.lo, e.hi;
        if |octets[cur]| > 1 {
          rc := EINVAL;
          return;
        }
      }
    }
    Digits4([minIp[0], minIp[1], minIp[2], minIp[3]]);
    Digits4([maxIp[0], maxIp[1], maxIp[2], maxIp[3]]);
    min := minIp[0] * 0x100_0000 + minIp[1] * 0x1_0000 + minIp[2] * 0x100 + minIp[3];
    max := maxIp[0] * 0x100_0000 + maxIp[1] * 0x1_0000 + maxIp[2] * 0x100 + maxIp[3];
  }

  /** Bounds with the same head: the head is fixed and the rest lies between the rests. */
  lemma SameHead(w: int, o: int, l: int, r: int, s: int, t: int)
    requires w == 0x100_0000 || w == 0x1_0000 || w == 0x100
    requires 0 <= r < w && 0 <= s < w && 0 <= t < w
    ensures l * w + s <= o * w + r <= l * w + t <==> o == l && s <= r <= t
  {
  }

  /** Bounds whose rests are all zeros and all ones: only the head matters. */
  lemma FullTail(w: int, o: int, l: int, h: int, r: int)
    requires w == 0x100_0000 || w == 0x1_0000 || w == 0x100
    requires 0 <= r < w
    ensures l * w <= o * w + r <= h * w + (w - 1) <==> l <= o <= h
  {
  }

  ghost predicate Within(o: seq<nat>, l: seq<nat>, h: seq<nat>) {
    |o| == |l| == |h| == 4 && l[0] <= o[0] <= h[0] && l[1] <= o[1] <= h[1] && l[2] <= o[2] <= h[2] && l[3] <= o[3] <= h[3]
  }

  /** Digits between bounds that agree before j and are 0 and 255 after it: the numbers in between. */
  lemma Interval(j: nat, o: seq<nat>, l: seq<nat>, h: seq<nat>)
    requires |o| == |l| == |h| == 4 && j <= 3
    requires forall k | 0 <= k < 4 :: o[k] <= 255 && l[k] <= 255 && h[k] <= 255
    requires forall k | 0 <= k < j :: l[k] == h[k]
    requires forall k | j < k < 4 :: l[k] == 0 && h[k] == 255
    ensures Within(o, l, h) <==> Value(l) <= Value(o) <= Value(h)
  {
    Digits4(o);
    Digits4(l);
    Digits4(h);
    var o2, l2, h2 := o[2] * 0x100 + o[3], l[2] * 0x100 + l[3], h[2] * 0x100 + h[3];
    var o1, l1, h1 := o[1] * 0x1_0000 + o2, l[1] * 0x1_0000 + l2, h[1] * 0x1_0000 + h2;
    if j == 0 {
      FullTail(0x100_0000, o[0], l[0], h[0], o1);
    } else {
      SameHead(0x100_0000, o[0], l[0], o1, l1, h1);
      if j == 1 {
        FullTail(0x1_0000, o[1], l[1], h[1], o2);
      } else {
        SameHead(0x1_0000, o[1], l[1], o2, l2, h2);
        if j == 2 {
          FullTail(0x100, o[2], l[2], h[2], o[3]);
        } else {
          SameHead(0x100, o[2], l[2], o[3], l[3], h[3]);
        }
      }
    }
  }

  lemma SingleHit(e: Expr, v: nat)
    requires e.stride == 1
    ensures HitSome([e], v) <==> e.lo <= v <= e.hi
  {
    assert HitSome([e], v) <==> Hit([e][0], v);
    assert v >= e.lo ==> (v - e.lo) % 1 == 0;
  }

  function OctetsOf(addr: nat): (r: seq<nat>)
    ensures |r| == 4 && forall k | 0 <= k < 4 :: r[k] == Octet(addr, k) && r[k] <= 255
  {
    [Octet(addr, 0), Octet(addr, 1), Octet(addr, 2), Octet(addr, 3)]
  }

  lemma OctetsValue(addr: nat)
    requires addr < TWO_32
    ensures Value(OctetsOf(addr)) == addr
  {
    Digits4(OctetsOf(addr));
    Spelled(addr);
  }

  /** One expression with stride 1 in every octet. */
  ghost predicate Plain(octets: Octets) {
    && |octets| == 4
    && (forall k | 0 <= k < 4 :: |octets[k]| == 1 && octets[k][0].stride == 1 && octets[k][0].lo <= octets[k][0].hi <= 255)
  }

  lemma PlainHit(octets: Octets, k: nat, v: nat)
    requires Plain(octets) && k < 4
    ensures HitSome(octets[k], v) <==> LoOf(octets[k]) <= v <= HiOf(octets[k])
  {
    SingleHit(octets[k][0], v);
    assert octets[k] == [octets[k][0]];
  }

  lemma PlainMatches(octets: Octets, addr: nat)
    requires Plain(octets)
    ensures Matches(addr, octets) <==> Within(OctetsOf(addr), Los(octets), His(octets))
  {
    forall k: nat | k < 4
      ensures HitSome(octets[k], Octet(addr, k)) <==> LoOf(octets[k]) <= Octet(addr, k) <= HiOf(octets[k])
    {
      PlainHit(octets, k, Octet(addr, k));
    }
  }

  /** The octet from which on a range that passed is ranged. */
  lemma Pivot(octets: Octets) returns (j: nat)
    requires Plain(octets) && Passed(octets, 4)
    ensures j <= 3
    ensures forall k | 0 <= k < j :: LoOf(octets[k]) == HiOf(octets[k])
    ensures forall k | j < k < 4 :: LoOf(octets[k]) == 0 && HiOf(octets[k]) == 255
  {
    j := 0;
    while j < 3 && LoOf(octets[j]) == HiOf(octets[j])
      invariant j <= 3 && forall k | 0 <= k < j :: LoOf(octets[k]) == HiOf(octets[k])
    {
      j := j + 1;
    }
    if j < 3 {
      forall k | j < k < 4
        ensures LoOf(octets[k]) == 0 && HiOf(octets[k]) == 255
      {
        assert octets[j][0].lo != octets[j][0].hi;
        assert RangedBefore(octets, k);
        assert CheckExpr(octets[k][0], true) == 0;
      }
    }
  }

  lemma PassedIsInterval(octets: Octets, addr: nat)
    requires Plain(octets) && Passed(octets, 4) && addr < TWO_32
    ensures HitsUp(addr, octets) <==> Value(Los(octets)) <= addr <= Value(His(octets))
  {
    MatchesUp(addr, octets);
    PlainMatches(octets, addr);
    var j := Pivot(octets);
    Interval(j, OctetsOf(addr), Los(octets), His(octets));
    OctetsValue(addr);
  }

  lemma BoundsOrdered(octets: Octets)
    requires |octets| == 4 && OctetsOk(octets) && Passed(octets, 4)
    ensures Value(Los(octets)) <= Value(His(octets)) < TWO_32
  {
    forall k | 0 <= k < 4
      ensures LoOf(octets[k]) <= HiOf(octets[k]) <= 255
    {
      assert OctetOk(octets[k]);
    }
    Digits4(Los(octets));
    Digits4(His(octets));
  }

  /**
    When the check succeeds, the addresses the matcher accepts are the integers from min to max if
    and only if no octet list is empty.
  */
  lemma ContiguityExact(octets: Octets)
    requires |octets| == 4 && OctetsOk(octets) && Passed(octets, 4)
    ensures (forall addr: nat | addr < TWO_32 ::
               HitsUp(addr, octets) <==> Value(Los(octets)) <= addr <= Value(His(octets)))
            <==> forall k | 0 <= k < 4 :: octets[k] != []
  {
    if forall k | 0 <= k < 4 :: octets[k] != [] {
      forall k | 0 <= k < 4
        ensures |octets[k]| == 1 && octets[k][0].stride == 1 && octets[k][0].lo <= octets[k][0].hi <= 255
      {
        assert OctetOk(octets[k]);
      }
      forall addr: nat | addr < TWO_32
        ensures HitsUp(addr, octets) <==> Value(Los(octets)) <= addr <= Value(His(octets))
      {
        PassedIsInterval(octets, addr);
      }
    } else {
      var k :| 0 <= k < 4 && octets[k] == [];
      BoundsOrdered(octets);
      var min := Value(Los(octets));
      MatchesUp(min, octets);
      assert !HitSome(octets[k], Octet(min, k));
    }
  }

  // ----- refused ranges really have a gap

  lemma SpelledMatches(octets: Octets, vs: seq<nat>)
    requires Plain(octets) && |vs| == 4 && forall k | 0 <= k < 4 :: vs[k] <= 255
    ensures Value(vs) < TWO_32 && (HitsUp(Value(vs), octets) <==> Within(vs, Los(octets), His(octets)))
  {
    Digits4(vs);
    Digits(vs[0], vs[1], vs[2], vs[3]);
    assert OctetsOf(Value(vs)) == vs;
    MatchesUp(Value(vs), octets);
    PlainMatches(octets, Value(vs));
  }

  function Weight(k: nat): nat {
    match k
    case 0 => 0x100_0000
    case 1 => 0x1_0000
    case 2 => 0x100
    case _ => 1
  }

  lemma DigitUpdate(vs: seq<nat>, k: nat, v: nat)
    requires |vs| == 4 && k < 4
    ensures Value(vs[k := v]) == Value(vs) + (v - vs[k]) * Weight(k)
  {
    Digits4(vs);
    Digits4(vs[k := v]);
  }

  /** Octet j is ranged, a later octet k does not start at 0: its values below lo are missing. */
  lemma GapBelow(octets: Octets, j: nat, k: nat) returns (x: nat, y: nat, z: nat)
    requires Plain(octets) && j < k < 4 && LoOf(octets[j]) < HiOf(octets[j]) && LoOf(octets[k]) > 0
    ensures x < y < z < TWO_32
    ensures HitsUp(x, octets) && !HitsUp(y, octets) && HitsUp(z, octets)
  {
    var los := Los(octets);
    var up := los[j := los[j] + 1];
    SpelledMatches(octets, los);
    SpelledMatches(octets, up);
    SpelledMatches(octets, up[k := los[k] - 1]);
    DigitUpdate(los, j, los[j] + 1);
    DigitUpdate(up, k, los[k] - 1);
    x, y, z := Value(los), Value(up[k := los[k] - 1]), Value(up);
    assert y == z - Weight(k) && z == x + Weight(j);
  }

  lemma Carry(hi: int, j: nat, k: nat)
    requires j < k < 4 && 0 <= hi < 255
    ensures (hi - 0) * Weight(k) < (hi + 1 - 0) * Weight(k) < Weight(j)
  {
    if k == 1 {
      assert j == 0;
    } else if k == 2 {
      assert Weight(j) >= 0x1_0000;
    } else {
      assert Weight(j) >= 0x100;
    }
  }

  /** Or it stops short of 255: the values above hi are missing. */
  lemma GapAbove(octets: Octets, j: nat, k: nat) returns (x: nat, y: nat, z: nat)
    requires Plain(octets) && j < k < 4 && LoOf(octets[j]) < HiOf(octets[j])
    requires LoOf(octets[k]) == 0 && HiOf(octets[k]) < 255
    ensures x < y < z < TWO_32
    ensures HitsUp(x, octets) && !HitsUp(y, octets) && HitsUp(z, octets)
  {
    var los, hi := Los(octets), HiOf(octets[k]);
    var up := los[j := los[j] + 1];
    SpelledMatches(octets, los[k := hi]);
    SpelledMatches(octets, los[k := hi + 1]);
    SpelledMatches(octets, up);
    x, y, z := Value(los[k := hi]), Value(los[k := hi + 1]), Value(up);
    Counting(los, hi, j, k);
  }

  /** One more in an earlier octet counts for more than any value of a later one. */
  lemma Counting(vs: seq<nat>, hi: nat, j: nat, k: nat)
    requires |vs| == 4 && j < k < 4 && vs[k] == 0 && hi < 255
    ensures Value(vs[k := hi]) < Value(vs[k := hi + 1]) < Value(vs[j := vs[j] + 1])
  {
    DigitUpdate(vs, k, hi);
    DigitUpdate(vs, k, hi + 1);
    DigitUpdate(vs, j, vs[j] + 1);
    assert Value(vs[j := vs[j] + 1]) == Value(vs) + Weight(j);
    Carry(hi, j, k);
  }

  /**
    A range of plain octets that the check refuses is not contiguous: an address outside it lies
    between two addresses inside it.
  */
  lemma RefusedHasGap(octets: Octets) returns (x: nat, y: nat, z: nat)
    requires Plain(octets) && !Passed(octets, 4)
    ensures x < y < z < TWO_32
    ensures HitsUp(x, octets) && !HitsUp(y, octets) && HitsUp(z, octets)
  {
    var k :| 0 <= k < 4 && CheckExpr(octets[k][0], RangedBefore(octets, k)) != 0;
    var j :| 0 <= j < k && octets[j][0].lo != octets[j][0].hi;
    if LoOf(octets[k]) > 0 {
      x, y, z := GapBelow(octets, j, k);
    } else {
      x, y, z := GapAbove(octets, j, k);
    }
  }

  // ----- exactly when a range is an interval

  /** The addresses that match have no gap. */
  ghost predicate Contiguous(octets: Octets) {
    forall x: nat, y: nat, z: nat | x < y < z < TWO_32 && HitsUp(x, octets) && HitsUp(z, octets) :: HitsUp(y, octets)
  }

  /** The values an octet list hits have no gap. */
  ghost predicate NoGap(es: seq<Expr>) {
    forall u: nat, v: nat, w: nat | u < v < w && HitSome(es, u) && HitSome(es, w) :: HitSome(es, v)
  }

  /** The least value hit at or above v, 256 if there is none up to 255. */
  function Least(es: seq<Expr>, v: nat): (r: nat)
    ensures r >= v && (r < 256 ==> HitSome(es, r)) && forall u | v <= u < r && u < 256 :: !HitSome(es, u)
    decreases 256 - v
  {
    if v >= 256 || HitSome(es, v) then v else Least(es, v + 1)
  }

  /** The greatest value hit at or below v, 0 if there is none. */
  function Greatest(es: seq<Expr>, v: nat): (r: nat)
    ensures r <= v && forall u | r < u <= v :: !HitSome(es, u)
    ensures HitSome(es, r) || r == 0
  {
    if v == 0 || HitSome(es, v) then v else Greatest(es, v - 1)
  }

  /** The octet as one plain expression from its least to its greatest value. */
  function Normal(es: seq<Expr>): seq<Expr> {
    [Expr(Least(es, 0), Greatest(es, 255), 1)]
  }

  function NormalOctets(octets: Octets): (r: Octets)
    requires |octets| == 4
    ensures |r| == 4 && forall k | 0 <= k < 4 :: r[k] == Normal(octets[k])
  {
    [Normal(octets[0]), Normal(octets[1]), Normal(octets[2]), Normal(octets[3])]
  }

  /** The list hits some value. */
  ghost predicate HitsAny(es: seq<Expr>) {
    exists v: nat :: HitSome(es, v)
  }

  lemma HitsBelow256(es: seq<Expr>, v: nat)
    requires OctetOk(es) && HitSome(es, v)
    ensures v <= 255
  {
  }

  lemma Ends(es: seq<Expr>)
    requires OctetOk(es) && HitsAny(es)
    ensures var lo, hi := Least(es, 0), Greatest(es, 255);
            && lo <= hi <= 255 && HitSome(es, lo) && HitSome(es, hi)
            && forall v: nat | HitSome(es, v) :: lo <= v <= hi
  {
    var v: nat :| HitSome(es, v);
    HitsBelow256(es, v);
    forall u: nat | HitSome(es, u)
      ensures Least(es, 0) <= u <= Greatest(es, 255)
    {
      HitsBelow256(es, u);
    }
  }

  /** What the normal form of a list is, from the values it hits. */
  lemma NormalIs(es: seq<Expr>, lo: nat, hi: nat)
    requires OctetOk(es) && HitSome(es, lo) && HitSome(es, hi) && forall v: nat | HitSome(es, v) :: lo <= v <= hi
    ensures Normal(es) == [Expr(lo, hi, 1)]
  {
    Ends(es);
  }

  /** Without a gap, the octet and its normal form hit the same values. */
  lemma NormalHits(es: seq<Expr>, v: nat)
    requires OctetOk(es) && HitsAny(es) && NoGap(es)
    ensures HitSome(Normal(es), v) <==> HitSome(es, v)
  {
    Ends(es);
    SingleHit(Normal(es)[0], v);
    var lo, hi := Least(es, 0), Greatest(es, 255);
    if lo < v < hi {
      assert HitSome(es, lo) && HitSome(es, hi);
    }
  }

  lemma NormalPlain(octets: Octets)
    requires |octets| == 4 && OctetsOk(octets) && forall k | 0 <= k < 4 :: HitsAny(octets[k])
    ensures Plain(NormalOctets(octets))
  {
    forall k | 0 <= k < 4
      ensures NormalOctets(octets)[k][0].lo <= NormalOctets(octets)[k][0].hi <= 255
    {
      assert OctetOk(octets[k]) && HitsAny(octets[k]);
      Ends(octets[k]);
    }
  }

  lemma NormalMatches(octets: Octets, addr: nat)
    requires |octets| == 4 && OctetsOk(octets) && forall k | 0 <= k < 4 :: HitsAny(octets[k]) && NoGap(octets[k])
    ensures HitsUp(addr, NormalOctets(octets)) <==> HitsUp(addr, octets)
  {
    MatchesUp(addr, octets);
    MatchesUp(addr, NormalOctets(octets));
    forall k: nat | k < 4
      ensures HitSome(NormalOctets(octets)[k], Octet(addr, k)) <==> HitSome(octets[k], Octet(addr, k))
    {
      assert OctetOk(octets[k]) && HitsAny(octets[k]) && NoGap(octets[k]);
      NormalHits(octets[k], Octet(addr, k));
    }
  }

  /** An address spelled by digits matches exactly when each digit hits. */
  lemma SpelledHits(octets: Octets, vs: seq<nat>)
    requires |octets| == 4 && |vs| == 4 && forall k | 0 <= k < 4 :: vs[k] <= 255
    ensures Value(vs) < TWO_32 && (HitsUp(Value(vs), octets) <==> HitsAll(octets, vs))
  {
    Digits4(vs);
    Digits(vs[0], vs[1], vs[2], vs[3]);
    MatchesUp(Value(vs), octets);
    assert forall k | 0 <= k < 4 :: Octet(Value(vs), k) == vs[k];
  }

  lemma Larger(a: int, b: int, k: nat)
    requires a < b && k < 4
    ensures a * Weight(k) < b * Weight(k)
  {
    if k == 0 {
    } else if k == 1 {
    } else if k == 2 {
    }
  }

  /** Digits that hit, with one place changed to a value that misses between two that hit. */
  lemma DigitGap(octets: Octets, base: seq<nat>, k: nat, u: nat, v: nat, w: nat)
    requires |octets| == 4 && k < 4 && u < v < w <= 255
    requires HitSome(octets[k], u) && HitSome(octets[k], w) && !HitSome(octets[k], v)
    requires |base| == 4 && forall j | 0 <= j < 4 :: base[j] <= 255 && HitSome(octets[j], base[j])
    ensures !Contiguous(octets)
  {
    var x, y, z := base[k := u], base[k := v], base[k := w];
    SpelledHits(octets, x);
    SpelledHits(octets, y);
    SpelledHits(octets, z);
    assert !HitSome(octets[k], y[k]);
    assert Value(x) < Value(y) < Value(z) by {
      DigitUpdate(base, k, u);
      DigitUpdate(base, k, v);
      DigitUpdate(base, k, w);
      Larger(u - base[k], v - base[k], k);
      Larger(v - base[k], w - base[k], k);
    }
  }

  /** A gap in one octet is a gap in the range. */
  lemma OctetGap(octets: Octets, k: nat)
    requires |octets| == 4 && OctetsOk(octets) && k < 4 && !NoGap(octets[k])
    requires forall j | 0 <= j < 4 :: HitsAny(octets[j])
    ensures !Contiguous(octets)
  {
    var u: nat, v: nat, w: nat :| u < v < w && HitSome(octets[k], u) && HitSome(octets[k], w) && !HitSome(octets[k], v);
    assert OctetOk(octets[k]);
    HitsBelow256(octets[k], w);
    var base := SomeDigits(octets);
    DigitGap(octets, base, k, u, v, w);
  }

  /** Some digits that hit. */
  lemma SomeDigits(octets: Octets) returns (base: seq<nat>)
    requires |octets| == 4 && OctetsOk(octets) && forall j | 0 <= j < 4 :: HitsAny(octets[j])
    ensures |base| == 4 && forall j | 0 <= j < 4 :: base[j] <= 255 && HitSome(octets[j], base[j])
  {
    base := [Least(octets[0], 0), Least(octets[1], 0), Least(octets[2], 0), Least(octets[3], 0)];
    forall j: nat | j < 4
      ensures base[j] <= 255 && HitSome(octets[j], base[j])
    {
      assert OctetOk(octets[j]) && HitsAny(octets[j]);
      Ends(octets[j]);
    }
  }

  lemma NothingHit(octets: Octets, k: nat)
    requires |octets| == 4 && k < 4 && !HitsAny(octets[k])
    ensures forall addr: nat :: !HitsUp(addr, octets)
  {
    forall addr: nat
      ensures !HitsUp(addr, octets)
    {
      MatchesUp(addr, octets);
      assert !HitSome(octets[k], Octet(addr, k));
    }
  }

  /** Some octet hits nothing, or none has a gap and the octets as one plain expression each pass the check. */
  ghost predicate Regular(octets: Octets)
    requires |octets| == 4
  {
    || (exists k | 0 <= k < 4 :: !HitsAny(octets[k]))
    || ((forall k | 0 <= k < 4 :: NoGap(octets[k])) && Passed(NormalOctets(octets), 4))
  }

  /**
    Whatever its lists, a range is an interval if and only if it is regular. So a refusal is right
    exactly for a range that is not regular.
  */
  lemma IntervalExact(octets: Octets)
    requires |octets| == 4 && OctetsOk(octets)
    ensures Contiguous(octets) <==> Regular(octets)
  {
    if k: nat :| k < 4 && !HitsAny(octets[k]) {
      NothingHit(octets, k);
    } else {
      HitIntervalExact(octets);
    }
  }

  lemma HitIntervalExact(octets: Octets)
    requires |octets| == 4 && OctetsOk(octets) && forall k | 0 <= k < 4 :: HitsAny(octets[k])
    ensures Contiguous(octets) <==> (forall k | 0 <= k < 4 :: NoGap(octets[k])) && Passed(NormalOctets(octets), 4)
  {
    if k: nat :| k < 4 && !NoGap(octets[k]) {
      OctetGap(octets, k);
    } else {
      forall addr: nat
        ensures HitsUp(addr, NormalOctets(octets)) <==> HitsUp(addr, octets)
      {
        NormalMatches(octets, addr);
      }
      NormalPlain(octets);
      PlainExact(NormalOctets(octets));
    }
  }

  /** For plain octets the check itself is exact. */
  lemma PlainExact(octets: Octets)
    requires Plain(octets)
    ensures Contiguous(octets) <==> Passed(octets, 4)
  {
    if Passed(octets, 4) {
      forall x: nat, y: nat, z: nat | x < y < z < TWO_32 && HitsUp(x, octets) && HitsUp(z, octets)
        ensures HitsUp(y, octets)
      {
        PassedIsInterval(octets, x);
        PassedIsInterval(octets, y);
        PassedIsInterval(octets, z);
      }
    } else {
      var x, y, z := RefusedHasGap(octets);
    }
  }

  // ----- one expression per octet, with any stride

  /** The expression hits one value only. */
  predicate HitsOne(e: Expr) {
    e.lo + e.stride > e.hi
  }

  /** The plain expression for a stride that does not matter. */
  function Shrunk(e: Expr): Expr {
    if e.stride == 1 then e else Expr(e.lo, e.lo, 1)
  }

  ghost predicate Singles(octets: Octets) {
    && |octets| == 4
    && (forall k | 0 <= k < 4 :: |octets[k]| == 1 && octets[k][0].lo <= octets[k][0].hi <= 255 && octets[k][0].stride >= 1)
  }

  lemma HitFirst(e: Expr, v: nat)
    ensures HitSome([e], v) <==> Hit(e, v)
  {
    assert HitSome([e], v) <==> Hit([e][0], v);
  }

  lemma SingleOk(e: Expr)
    requires e.lo <= e.hi <= 255 && e.stride >= 1
    ensures OctetOk([e]) && HitSome([e], e.lo) && HitsAny([e])
  {
    HitFirst(e, e.lo);
  }

  /** Stride one: all values from lo to hi. */
  lemma UnitStride(e: Expr)
    requires e.lo <= e.hi <= 255 && e.stride == 1
    ensures NoGap([e]) && Normal([e]) == [e]
  {
    forall v: nat
      ensures HitSome([e], v) <==> e.lo <= v <= e.hi
    {
      SingleHit(e, v);
    }
    SingleOk(e);
    NormalIs([e], e.lo, e.hi);
  }

  lemma OneValue(e: Expr)
    requires e.lo <= e.hi <= 255 && e.stride >= 1 && HitsOne(e)
    ensures NoGap([e]) && Normal([e]) == [Expr(e.lo, e.lo, 1)]
  {
    OnlyLow(e);
    forall v: nat
      ensures HitSome([e], v) <==> v == e.lo
    {
      HitFirst(e, v);
    }
    SingleOk(e);
    NormalIs([e], e.lo, e.lo);
  }

  lemma SeveralValues(e: Expr)
    requires e.lo <= e.hi <= 255 && e.stride >= 2 && !HitsOne(e)
    ensures !NoGap([e])
  {
    NextHit(e);
    SingleOk(e);
    HitFirst(e, e.lo + 1);
    HitFirst(e, e.lo + e.stride);
  }

  lemma SingleEnds(e: Expr)
    requires e.lo <= e.hi <= 255 && e.stride >= 1
    ensures OctetOk([e]) && HitsAny([e])
    ensures NoGap([e]) <==> e.stride == 1 || HitsOne(e)
    ensures NoGap([e]) ==> Normal([e]) == [Shrunk(e)]
  {
    SingleOk(e);
    if e.stride == 1 {
      UnitStride(e);
    } else if HitsOne(e) {
      OneValue(e);
    } else {
      SeveralValues(e);
    }
  }

  lemma OnlyLow(e: Expr)
    requires e.lo <= e.hi && e.stride >= 1 && HitsOne(e)
    ensures forall v: nat :: Hit(e, v) <==> v == e.lo
  {
    forall v: nat | e.lo < v <= e.hi
      ensures !Hit(e, v)
    {
      Remainder(v - e.lo, e.stride);
    }
  }

  lemma NextHit(e: Expr)
    requires e.stride >= 2 && !HitsOne(e)
    ensures Hit(e, e.lo + e.stride) && !Hit(e, e.lo + 1)
  {
    Remainder(1, e.stride);
  }

  lemma Remainder(a: nat, n: nat)
    requires a < n
    ensures a % n == a
  {
  }

  /**
    With one expression in each octet the range is an interval if and only if every stride is one or
    does not matter, because one value is hit, and the check passes the octets without those strides.
  */
  lemma SinglesExact(octets: Octets)
    requires Singles(octets)
    ensures Contiguous(octets) <==>
            && (forall k | 0 <= k < 4 :: octets[k][0].stride == 1 || HitsOne(octets[k][0]))
            && Passed([[Shrunk(octets[0][0])], [Shrunk(octets[1][0])], [Shrunk(octets[2][0])], [Shrunk(octets[3][0])]], 4)
  {
    forall k: nat | k < 4
      ensures OctetOk(octets[k]) && HitsAny(octets[k])
      ensures NoGap(octets[k]) <==> octets[k][0].stride == 1 || HitsOne(octets[k][0])
      ensures NoGap(octets[k]) ==> Normal(octets[k]) == [Shrunk(octets[k][0])]
    {
      assert octets[k] == [octets[k][0]];
      SingleEnds(octets[k][0]);
    }
    HitIntervalExact(octets);
  }

  // ----- intervals that the check refuses

  /** 10.0.0.5 with stride 2, and 10.0.0.1 to 10.0.0.5 with stride 9: one address each. */
  lemma StrideRefused(e: Expr)
    requires e == Expr(5, 5, 2) || e == Expr(1, 5, 9)
    ensures var octets := [[Expr(10, 10, 1)], [Expr(0, 0, 1)], [Expr(0, 0, 1)], [e]];
            Singles(octets) && Contiguous(octets) && !Passed(octets, 4)
  {
    var octets := [[Expr(10, 10, 1)], [Expr(0, 0, 1)], [Expr(0, 0, 1)], [e]];
    assert CheckExpr(octets[3][0], RangedBefore(octets, 3)) == ERANGE;
    SinglesExact(octets);
  }

  /** 10.0.0.[5,6]: two addresses in a row, refused for its two expressions. */
  lemma ListRefused(es: seq<Expr>)
    requires es == [Expr(5, 5, 1), Expr(6, 6, 1)]
    ensures var octets := [[Expr(10, 10, 1)], [Expr(0, 0, 1)], [Expr(0, 0, 1)], es];
            OctetsOk(octets) && Contiguous(octets) && !Passed(octets, 4)
  {
    var a, b := Expr(10, 10, 1), Expr(0, 0, 1);
    var octets := [[a], [b], [b], es];
    FiveAndSix(es);
    SingleEnds(a);
    SingleEnds(b);
    var normal := [[a], [b], [b], [Expr(5, 6, 1)]];
    FixedButLast(normal);
    FourLists(octets, normal);
    assert |octets[3]| == 2;
  }

  /** The list hits something, has no gap, and `normal` is its normal form. */
  ghost predicate Smooth(es: seq<Expr>, normal: seq<Expr>) {
    OctetOk(es) && HitsAny(es) && NoGap(es) && Normal(es) == normal
  }

  /** Lists without gaps whose normal forms pass the check are an interval. */
  lemma FourLists(octets: Octets, normal: Octets)
    requires |octets| == |normal| == 4 && Passed(normal, 4)
    requires Smooth(octets[0], normal[0]) && Smooth(octets[1], normal[1])
    requires Smooth(octets[2], normal[2]) && Smooth(octets[3], normal[3])
    ensures OctetsOk(octets) && Contiguous(octets)
  {
    assert forall k | 0 <= k < 4 :: Smooth(octets[k], normal[k]);
    assert NormalOctets(octets) == normal;
    HitIntervalExact(octets);
  }

  /** One expression in each octet, and a range in the last one only. */
  lemma FixedButLast(octets: Octets)
    requires |octets| == 4 && forall k | 0 <= k < 4 :: |octets[k]| == 1 && octets[k][0].stride == 1
    requires (forall k | 0 <= k < 3 :: octets[k][0].lo == octets[k][0].hi) && octets[3][0].lo <= octets[3][0].hi
    ensures Passed(octets, 4)
  {
    forall j: nat | j < 4
      ensures |octets[j]| <= 1 && CheckExpr(octets[j][0], RangedBefore(octets, j)) == 0
    {
      assert !RangedBefore(octets, j);
    }
  }

  lemma FiveAndSix(es: seq<Expr>)
    requires es == [Expr(5, 5, 1), Expr(6, 6, 1)]
    ensures OctetOk(es) && HitsAny(es) && NoGap(es) && Normal(es) == [Expr(5, 6, 1)]
  {
    forall v: nat
      ensures HitSome(es, v) <==> v == 5 || v == 6
    {
      HitSomeCons(es, v);
      HitFirst(es[1], v);
      assert es[1..] == [es[1]];
    }
    NormalIs(es, 5, 6);
  }
}
