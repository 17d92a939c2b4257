/**
  IPv4 address ranges (lib/libcfs/nidstrings.c): an address is four octets, each given by a list of
  range expressions. The matcher, the enumerator and the contiguity check read the same lists.
*/
module AddrRange {

  /** cfs_range_expr. */
  datatype Expr = Expr(lo: nat, hi: nat, stride: nat)

  type Octets = seq<seq<Expr>>

  /** What the parser delivers for an octet: values up to 255; strides that are not zero. */
  ghost predicate OctetOk(es: seq<Expr>) {
    forall i | 0 <= i < |es| :: es[i].hi <= 255 && es[i].stride >= 1
  }

  ghost predicate OctetsOk(octets: Octets) {
    forall k | 0 <= k < |octets| :: OctetOk(octets[k])
  }

  // ----- the matcher

  predicate Hit(e: Expr, v: nat) {
    e.lo <= v <= e.hi && e.stride >= 1 && (v - e.lo) % e.stride == 0
  }

  predicate HitSome(es: seq<Expr>, v: nat) {
    exists i | 0 <= i < |es| :: Hit(es[i], v)
  }

  /** cfs_expr_list_match. */
  method ExprListMatch(value: nat, es: seq<Expr>) returns (r: bool)
    requires forall i | 0 <= i < |es| :: es[i].stride >= 1
    ensures r <==> HitSome(es, value)
  {
    for i := 0 to |es|
      invariant forall j | 0 <= j < i :: !Hit(es[j], value)
    {
      if value >= es[i].lo && value <= es[i].hi && (value - es[i].lo) % es[i].stride == 0 {
        return true;
      }
    }
    return false;
  }

  /** The octets of `addr`, taken from the last list backwards, hit their lists. */
  predicate HitsUp(addr: nat, octets: Octets) {
    octets == [] ||
    (HitSome(octets[|octets| - 1], addr % 256) && HitsUp(addr / 256, octets[..|octets| - 1]))
  }

  /** cfs_ip_addr_match. */
  method IpAddrMatch(addr: nat, octets: Octets) returns (r: bool)
    requires OctetsOk(octets)
    ensures r <==> HitsUp(addr, octets) && |octets| == 4
  {
    var rest, i, k := addr, 0, |octets|;
    assert octets[..k] == octets;
    while k > 0
      invariant 0 <= k <= |octets| && i == |octets| - k
      invariant HitsUp(addr, octets) <==> HitsUp(rest, octets[..k])
    {
      assert octets[..k][..k - 1] == octets[..k - 1];
      var hit := ExprListMatch(rest % 256, octets[k - 1]);
      if !hit {
        return false;
      }
      rest, i, k := rest / 256, i + 1, k - 1;
    }
    return i == 4;
  }

  /** One octet of a 32-bit address, counted from the left. */
  function Octet(addr: nat, k: nat): nat {
    match k
    case 0 => addr / 0x100_0000 % 256
    case 1 => addr / 0x1_0000 % 256
    case 2 => addr / 0x100 % 256
    case _ => addr % 256
  }

  /** An address is in the range when each of its octets hits the list in the same place. */
  predicate Matches(addr: nat, octets: Octets) {
    |octets| == 4 && forall k | 0 <= k < 4 :: HitSome(octets[k], Octet(addr, k))
  }

  lemma MatchesUp(addr: nat, octets: Octets)
    requires |octets| == 4
    ensures HitsUp(addr, octets) <==> Matches(addr, octets)
  {
    var o3, o2, o1 := octets[..3], octets[..2], octets[..1];
    assert o3[..2] == o2 && o2[..1] == o1 && o1[..0] == [];
    assert addr / 256 / 256 == addr / 0x1_0000;
    assert addr / 256 / 256 / 256 == addr / 0x100_0000;
    assert HitsUp(addr / 256, o3) <==> HitSome(octets[2], Octet(addr, 2)) && HitsUp(addr / 0x1_0000, o2);
    assert HitsUp(addr / 0x1_0000, o2) <==> HitSome(octets[1], Octet(addr, 1)) && HitsUp(addr / 0x100_0000, o1);
    assert HitsUp(addr / 0x100_0000, o1) <==> HitSome(octets[0], Octet(addr, 0));
  }

  // ----- the enumerator

  function Pow256(n: nat): (p: nat)
    ensures p >= 1
  {
    if n == 0 then 1 else 256 * Pow256(n - 1)
  }

  /** The addresses under one value of the first octet list of `octets`. */
  function Under(rest: Octets, shift: nat, value: nat): seq<nat>
    decreases |rest|, 1, 0
  {
    if rest == [] then [value] else Combos(rest, if shift == 0 then 0 else shift - 1, value)
  }

  /** The addresses for values i and up of one expression. */
  function FromRange(e: Expr, i: nat, rest: Octets, shift: nat, result: nat): seq<nat>
    decreases |rest|, 2, if i <= e.hi then e.hi - i + 1 else 0
  {
    if i > e.hi then []
    else (if Hit(e, i) then Under(rest, shift, result + i * Pow256(shift)) else [])
         + FromRange(e, i + 1, rest, shift, result)
  }

  function FromExprs(es: seq<Expr>, rest: Octets, shift: nat, result: nat): seq<nat>
    decreases |rest|, 3, |es|
  {
    if es == [] then [] else FromRange(es[0], es[0].lo, rest, shift, result) + FromExprs(es[1..], rest, shift, result)
  }

  /** All combinations of octet values, in the order the recursion visits them. */
  function Combos(octets: Octets, shift: nat, result: nat): seq<nat>
    requires octets != []
    decreases |octets|, 0, 0
  {
    FromExprs(octets[0], octets[1..], shift, result)
  }

  /** The number with the given base-256 digits. */
  function Value(vs: seq<nat>): nat {
    if vs == [] then 0 else vs[0] * Pow256(|vs| - 1) + Value(vs[1..])
  }

  /** Each digit hits the list in its place. */
  predicate HitsAll(octets: Octets, vs: seq<nat>) {
    |vs| == |octets| && forall k | 0 <= k < |vs| :: HitSome(octets[k], vs[k])
  }

  /** a is in the list of one expression exactly when it comes from a value that is hit. */
  /** Some value from i on is hit and has the address under it. */
  ghost predicate UnderSome(e: Expr, i: nat, rest: Octets, shift: nat, result: nat, a: nat) {
    exists v: nat :: i <= v && Hit(e, v) && a in Under(rest, shift, result + v * Pow256(shift))
  }

  lemma UnderNext(e: Expr, i: nat, rest: Octets, shift: nat, result: nat, a: nat)
    ensures UnderSome(e, i, rest, shift, result, a) <==>
            (Hit(e, i) && a in Under(rest, shift, result + i * Pow256(shift))) || UnderSome(e, i + 1, rest, shift, result, a)
  {
    if v: nat :| i <= v && Hit(e, v) && a in Under(rest, shift, result + v * Pow256(shift)) {
      assert v == i || i + 1 <= v;
    }
  }

  lemma {:induction false} InRange(e: Expr, i: nat, rest: Octets, shift: nat, result: nat, a: nat)
    ensures a in FromRange(e, i, rest, shift, result) <==> UnderSome(e, i, rest, shift, result, a)
    decreases if i <= e.hi then e.hi - i + 1 else 0
  {
    if i <= e.hi {
      InRange(e, i + 1, rest, shift, result, a);
      UnderNext(e, i, rest, shift, result, a);
    }
  }

  lemma {:induction false} InExprs(es: seq<Expr>, rest: Octets, shift: nat, result: nat, a: nat)
    ensures a in FromExprs(es, rest, shift, result) <==> UnderAny(es, rest, shift, result, a)
    decreases |es|
  {
    if es != [] {
      InRange(es[0], es[0].lo, rest, shift, result, a);
      InExprs(es[1..], rest, shift, result, a);
      UnderCons(es, rest, shift, result, a);
    }
  }

  /** Some value that the list hits has the address under it. */
  ghost predicate UnderAny(es: seq<Expr>, rest: Octets, shift: nat, result: nat, a: nat) {
    exists v: nat :: HitSome(es, v) && a in Under(rest, shift, result + v * Pow256(shift))
  }

  lemma UnderCons(es: seq<Expr>, rest: Octets, shift: nat, result: nat, a: nat)
    requires es != []
    ensures UnderAny(es, rest, shift, result, a) <==>
            UnderSome(es[0], es[0].lo, rest, shift, result, a) || UnderAny(es[1..], rest, shift, result, a)
  {
    forall v: nat
      ensures HitSome(es, v) <==> Hit(es[0], v) || HitSome(es[1..], v)
    {
      HitSomeCons(es, v);
    }
  }

  lemma HitSomeCons(es: seq<Expr>, v: nat)
    requires es != []
    ensures HitSome(es, v) <==> Hit(es[0], v) || HitSome(es[1..], v)
  {
    if i :| 0 <= i < |es| && Hit(es[i], v) {
      if i > 0 {
        assert Hit(es[1..][i - 1], v);
      }
    }
    if i :| 0 <= i < |es| - 1 && Hit(es[1..][i], v) {
      assert Hit(es[i + 1], v);
    }
  }

  /** Every enumerated address is made of digits that hit. */
  lemma {:induction false} CombosSound(octets: Octets, n: nat, result: nat, a: nat) returns (vs: seq<nat>)
    requires |octets| == n + 1 && a in Combos(octets, n, result)
    ensures HitsAll(octets, vs) && a == result + Value(vs)
    decreases n
  {
    InExprs(octets[0], octets[1..], n, result, a);
    var v: nat :| HitSome(octets[0], v) && a in Under(octets[1..], n, result + v * Pow256(n));
    if n == 0 {
      vs := [v];
    } else {
      var rest := CombosSound(octets[1..], n - 1, result + v * Pow256(n), a);
      vs := [v] + rest;
      assert vs[1..] == rest;
      forall k | 0 <= k < |vs|
        ensures HitSome(octets[k], vs[k])
      {
        assert k > 0 ==> HitSome(octets[1..][k - 1], rest[k - 1]);
      }
    }
  }

  /** Digits that hit are enumerated. */
  lemma {:induction false} CombosComplete(octets: Octets, n: nat, result: nat, vs: seq<nat>)
    requires |octets| == n + 1 && HitsAll(octets, vs)
    ensures result + Value(vs) in Combos(octets, n, result)
    decreases n
  {
    var a := result + Value(vs);
    var next := result + vs[0] * Pow256(n);
    InExprs(octets[0], octets[1..], n, result, a);
    if n == 0 {
      assert Value(vs[1..]) == 0;
      assert a in Under(octets[1..], n, next);
    } else {
      forall k | 0 <= k < |vs| - 1
        ensures HitSome(octets[1..][k], vs[1..][k])
      {
        assert HitSome(octets[k + 1], vs[k + 1]);
      }
      CombosComplete(octets[1..], n - 1, next, vs[1..]);
      assert a == next + Value(vs[1..]);
    }
  }

  lemma High(q: nat, r: nat)
    ensures r < 0x100_0000 ==> (q * 0x100_0000 + r) / 0x100_0000 == q
    ensures r < 0x1_0000 ==> (q * 0x1_0000 + r) / 0x1_0000 == q
    ensures r < 0x100 ==> (q * 0x100 + r) / 0x100 == q && (q * 0x100 + r) % 0x100 == r
  {
  }

  lemma Digits(v0: nat, v1: nat, v2: nat, v3: nat)
    requires v0 <= 255 && v1 <= 255 && v2 <= 255 && v3 <= 255
    ensures var a := v0 * 0x100_0000 + v1 * 0x1_0000 + v2 * 0x100 + v3;
            Octet(a, 0) == v0 && Octet(a, 1) == v1 && Octet(a, 2) == v2 && Octet(a, 3) == v3
  {
    High(v0, v1 * 0x1_0000 + v2 * 0x100 + v3);
    High(v0 * 0x100 + v1, v2 * 0x100 + v3);
    High(v0, v1);
    High(v0 * 0x1_0000 + v1 * 0x100 + v2, v3);
    High(v0 * 0x100 + v1, v2);
  }

  /** An address is the number its octets spell. */
  lemma Spelled(addr: nat)
    requires addr < 0x1_0000_0000
    ensures addr == Octet(addr, 0) * 0x100_0000 + Octet(addr, 1) * 0x1_0000 + Octet(addr, 2) * 0x100 + Octet(addr, 3)
  {
    var q1 := addr / 256;
    var q2 := q1 / 256;
    var q3 := q2 / 256;
    assert q2 == addr / 0x1_0000 && q3 == addr / 0x100_0000;
    assert q3 <= 255;
  }

  lemma Digits4(vs: seq<nat>)
    requires |vs| == 4
    ensures Value(vs) == vs[0] * 0x100_0000 + vs[1] * 0x1_0000 + vs[2] * 0x100 + vs[3]
  {
    assert Pow256(1) == 256 && Pow256(2) == 0x1_0000 && Pow256(3) == 0x100_0000;
    assert vs[1..][1..] == vs[2..] && vs[2..][1..] == vs[3..] && vs[3..][1..] == [];
    assert Value(vs[3..]) == vs[3];
    assert Value(vs[2..]) == vs[2] * 256 + vs[3];
    assert Value(vs[1..]) == vs[1] * 0x1_0000 + Value(vs[2..]);
  }

  lemma HitBound(octets: Octets, vs: seq<nat>)
    requires OctetsOk(octets) && HitsAll(octets, vs)
    ensures forall k | 0 <= k < |vs| :: vs[k] <= 255
  {
    forall k | 0 <= k < |vs|
      ensures vs[k] <= 255
    {
      assert OctetOk(octets[k]) && HitSome(octets[k], vs[k]);
    }
  }

  lemma Enumerated(octets: Octets, addr: nat)
    requires |octets| == 4 && OctetsOk(octets) && addr in Combos(octets, 3, 0)
    ensures Matches(addr, octets) && addr < 0x1_0000_0000
  {
    var vs := CombosSound(octets, 3, 0, addr);
    HitBound(octets, vs);
    Digits4(vs);
    Digits(vs[0], vs[1], vs[2], vs[3]);
    assert forall k | 0 <= k < 4 :: HitSome(octets[k], vs[k]);
  }

  lemma Matched(octets: Octets, addr: nat)
    requires Matches(addr, octets) && addr < 0x1_0000_0000
    ensures addr in Combos(octets, 3, 0)
  {
    var vs := [Octet(addr, 0), Octet(addr, 1), Octet(addr, 2), Octet(addr, 3)];
    assert forall k | 0 <= k < 4 :: HitSome(octets[k], Octet(addr, k));
    CombosComplete(octets, 3, 0, vs);
    Digits4(vs);
    Spelled(addr);
  }

  /** The enumerator produces an address exactly when the matcher accepts it. */
  lemma EnumeratorAgrees(octets: Octets, addr: nat)
    requires |octets| == 4 && OctetsOk(octets)
    ensures addr in Combos(octets, 3, 0) <==> HitsUp(addr, octets) && addr < 0x1_0000_0000
  {
    MatchesUp(addr, octets);
    if addr in Combos(octets, 3, 0) {
      Enumerated(octets, addr);
    }
    if addr < 0x1_0000_0000 && Matches(addr, octets) {
      Matched(octets, addr);
    }
  }

  // ----- how many combinations there are

  function RangeCount(e: Expr, i: nat): nat
    decreases if i <= e.hi then e.hi - i + 1 else 0
  {
    if i > e.hi then 0 else (if Hit(e, i) then 1 else 0) + RangeCount(e, i + 1)
  }

  function ListCount(es: seq<Expr>): nat {
    if es == [] then 0 else RangeCount(es[0], es[0].lo) + ListCount(es[1..])
  }

  /** The product of the octet list sizes. */
  function Combinations(octets: Octets): nat {
    if octets == [] then 1 else ListCount(octets[0]) * Combinations(octets[1..])
  }

  lemma {:induction false} UnderCount(rest: Octets, shift: nat, value: nat)
    ensures |Under(rest, shift, value)| == Combinations(rest)
    decreases |rest|, 0
  {
    if rest != [] {
      ExprsCount(rest[0], rest[1..], if shift == 0 then 0 else shift - 1, value);
    }
  }

  lemma {:induction false} ExprsCount(es: seq<Expr>, rest: Octets, shift: nat, result: nat)
    ensures |FromExprs(es, rest, shift, result)| == ListCount(es) * Combinations(rest)
    decreases |rest|, 2, |es|
  {
    if es != [] {
      FromRangeCount(es[0], es[0].lo, rest, shift, result);
      ExprsCount(es[1..], rest, shift, result);
      Distribute(RangeCount(es[0], es[0].lo), ListCount(es[1..]), Combinations(rest));
    }
  }

  lemma {:induction false} FromRangeCount(e: Expr, i: nat, rest: Octets, shift: nat, result: nat)
    ensures |FromRange(e, i, rest, shift, result)| == RangeCount(e, i) * Combinations(rest)
    decreases |rest|, 1, if i <= e.hi then e.hi - i + 1 else 0
  {
    if i <= e.hi {
      UnderCount(rest, shift, result + i * Pow256(shift));
      FromRangeCount(e, i + 1, rest, shift, result);
      Distribute(1, RangeCount(e, i + 1), Combinations(rest));
    }
  }

  lemma Distribute(a: nat, b: nat, c: nat)
    ensures (a + b) * c == a * c + b * c
  {
  }

  // ----- filling the caller's array from its end

  /** The first |out| places below idx, going down, hold `out`. */
  ghost predicate Written(s: seq<nat>, idx: int, out: seq<nat>) {
    && |out| <= idx + 1 <= |s|
    && forall j | 0 <= j < |out| :: s[idx - j] == out[j]
  }

  /** What a call leaves behind: as much of `all` as there is room for. */
  ghost predicate Filled(s0: seq<nat>, s: seq<nat>, idx: int, idx': int, rc: int, all: seq<nat>) {
    && |s0| == |s| && -1 <= idx < |s|
    && (forall k | idx < k < |s| :: s[k] == s0[k])
    && (if |all| <= idx + 1 then rc == 0 && idx' == idx - |all| && Written(s, idx, all)
        else rc == -1 && idx' == -1 && Written(s, idx, all[..idx + 1]))
  }

  /** Two fills in a row, when the first one did not run out of room. */
  lemma FilledTwice(s0: seq<nat>, s1: seq<nat>, s2: seq<nat>, idx: int, mid: int, end: int, rc: int,
                    out: seq<nat>, more: seq<nat>)
    requires Filled(s0, s1, idx, mid, 0, out) && Filled(s1, s2, mid, end, rc, more)
    ensures Filled(s0, s2, idx, end, rc, out + more)
  {
    var all := out + more;
    var n := if |all| <= idx + 1 then |all| else idx + 1;
    forall j | 0 <= j < n
      ensures s2[idx - j] == all[j]
    {
      if j < |out| {
        assert s2[idx - j] == s1[idx - j];
      } else {
        assert idx - j == mid - (j - |out|);
      }
    }
  }

  /** A fill goes on; once out of room, what would have come later makes no difference. */
  lemma FillGoesOn(s0: seq<nat>, s1: seq<nat>, s2: seq<nat>, idx: int, mid: int, end: int, rc: int,
                   out: seq<nat>, more: seq<nat>, later: seq<nat>, all: seq<nat>)
    requires Filled(s0, s1, idx, mid, 0, out) && Filled(s1, s2, mid, end, rc, more)
    requires all == out + (more + later)
    ensures all == (out + more) + later
    ensures rc == -1 ==> Filled(s0, s2, idx, end, -1, all)
    ensures rc != -1 ==> rc == 0 && Filled(s0, s2, idx, end, 0, out + more)
  {
    FilledTwice(s0, s1, s2, idx, mid, end, rc, out, more);
    assert all == (out + more) + later;
    if rc == -1 {
      assert all[..idx + 1] == (out + more)[..idx + 1];
    }
  }

  /** A leaf stores its address; another octet is enumerated below the value. */
  method Emit(a: array<nat>, idx: int, rest: Octets, shift: nat, value: nat) returns (rc: int, idx': int)
    requires -1 <= idx < a.Length && OctetsOk(rest)
    modifies a
    ensures Filled(old(a[..]), a[..], idx, idx', rc, Under(rest, shift, value))
    decreases |rest|, 1
  {
    if rest != [] {
      rc, idx' := GenRecurse(a, idx, rest, if shift == 0 then 0 else shift - 1, value);
    } else if idx == -1 {
      rc, idx' := -1, -1;
    } else {
      a[idx] := value;
      rc, idx' := 0, idx - 1;
    }
  }

  /** The addresses under value i, none if it is not hit. */
  function UnderValue(e: Expr, i: nat, rest: Octets, shift: nat, result: nat): seq<nat> {
    if Hit(e, i) then Under(rest, shift, result + i * Pow256(shift)) else []
  }

  lemma RangeStep(e: Expr, i: nat, rest: Octets, shift: nat, result: nat)
    requires e.lo <= i <= e.hi
    ensures FromRange(e, i, rest, shift, result) ==
            UnderValue(e, i, rest, shift, result) + FromRange(e, i + 1, rest, shift, result)
  {
  }

  /** One value of an expression. */
  method GenValue(a: array<nat>, idx: int, e: Expr, i: nat, rest: Octets, shift: nat, result: nat) returns (rc: int, idx': int)
    requires -1 <= idx < a.Length && e.lo <= i <= e.hi && e.stride >= 1 && OctetsOk(rest)
    modifies a
    ensures Filled(old(a[..]), a[..], idx, idx', rc, UnderValue(e, i, rest, shift, result))
    decreases |rest|, 2
  {
    rc, idx' := 0, idx;
    if (i - e.lo) % e.stride == 0 {
      rc, idx' := Emit(a, idx, rest, shift, result + i * Pow256(shift));
    }
  }

  /** The values of one expression. */
  method GenRange(a: array<nat>, idx: int, e: Expr, rest: Octets, shift: nat, result: nat) returns (rc: int, idx': int)
    requires -1 <= idx < a.Length && e.stride >= 1 && OctetsOk(rest)
    modifies a
    ensures Filled(old(a[..]), a[..], idx, idx', rc, FromRange(e, e.lo, rest, shift, result))
    decreases |rest|, 3
  {
    rc, idx' := 0, idx;
    ghost var s0, out, all := a[..], [], FromRange(e, e.lo, rest, shift, result);
    var i := e.lo;
    while i <= e.hi && rc == 0
      invariant i >= e.lo
      invariant rc == -1 ==> Filled(s0, a[..], idx, idx', -1, all)
      invariant rc != -1 ==> rc == 0 && Filled(s0, a[..], idx, idx', 0, out) && all == out + FromRange(e, i, rest, shift, result)
      decreases e.hi + 1 - i
    {
      RangeStep(e, i, rest, shift, result);
      ghost var s1, mid, more := a[..], idx', UnderValue(e, i, rest, shift, result);
      rc, idx' := GenValue(a, idx', e, i, rest, shift, result);
      FillGoesOn(s0, s1, a[..], idx, mid, idx', rc, out, more, FromRange(e, i + 1, rest, shift, result), all);
      out, i := out + more, i + 1;
    }
  }

  /** cfs_ip_addr_range_gen_recurse. */
  method GenRecurse(a: array<nat>, idx: int, octets: Octets, shift: nat, result: nat) returns (rc: int, idx': int)
    requires -1 <= idx < a.Length && octets != [] && OctetsOk(octets)
    modifies a
    ensures Filled(old(a[..]), a[..], idx, idx', rc, Combos(octets, shift, result))
    decreases |octets|, 0
  {
    var es, rest := octets[0], octets[1..];
    rc, idx' := 0, idx;
    ghost var s0, out, all := a[..], [], Combos(octets, shift, result);
    var x := 0;
    while x < |es| && rc == 0
      invariant 0 <= x <= |es|
      invariant rc == -1 ==> Filled(s0, a[..], idx, idx', -1, all)
      invariant rc != -1 ==> rc == 0 && Filled(s0, a[..], idx, idx', 0, out) && all == out + FromExprs(es[x..], rest, shift, result)
    {
      assert es[x..][1..] == es[x + 1..];
      ghost var s1, mid := a[..], idx';
      ghost var more := FromRange(es[x], es[x].lo, rest, shift, result);
      rc, idx' := GenRange(a, idx', es[x], rest, shift, result);
      FillGoesOn(s0, s1, a[..], idx, mid, idx', rc, out, more, FromExprs(es[x + 1..], rest, shift, result), all);
      out, x := out + more, x + 1;
    }
  }

  /** cfs_ip_addr_range_gen: the index below the last address stored, -1 when the array is full. */
  method RangeGen(a: array<nat>, octets: Octets) returns (idx: int)
    requires |octets| == 4 && OctetsOk(octets)
    modifies a
    ensures var all := Combos(octets, 3, 0);
            if |all| <= a.Length then idx == a.Length - 1 - |all| && Written(a[..], a.Length - 1, all)
            else idx == -1 && Written(a[..], a.Length - 1, all[..a.Length])
  {
    var _, end := GenRecurse(a, a.Length - 1, octets, 3, 0);
    idx := end;
  }

  lemma SameAddresses(s: seq<nat>, all: seq<nat>, addr: nat)
    requires Written(s, |s| - 1, all)
    ensures addr in s[|s| - |all|..] <==> addr in all
  {
    var tail := s[|s| - |all|..];
    if addr in all {
      var j :| 0 <= j < |all| && all[j] == addr;
      assert tail[|all| - 1 - j] == addr;
    }
    if addr in tail {
      var i :| 0 <= i < |tail| && tail[i] == addr;
      assert s[|s| - |all| + i] == all[|all| - 1 - i];
    }
  }

  /**
    libcfs_ip_addr_range_expand: the number of combinations if it is below the room given, and then
    the addresses stored are those the matcher accepts; -1 otherwise.
  */
  method RangeExpand(a: array<nat>, octets: Octets) returns (n: int)
    requires |octets| == 4 && OctetsOk(octets)
    modifies a
    ensures n == if Combinations(octets) < a.Length then Combinations(octets) else -1
    ensures n >= 0 ==> forall addr :: addr in a[a.Length - n..] <==> HitsUp(addr, octets) && addr < 0x1_0000_0000
  {
    var rc := RangeGen(a, octets);
    ExprsCount(octets[0], octets[1..], 3, 0);
    if rc == -1 {
      return -1;
    }
    n := a.Length - rc - 1;
    forall addr: nat
      ensures addr in a[a.Length - n..] <==> HitsUp(addr, octets) && addr < 0x1_0000_0000
    {
      SameAddresses(a[..], Combos(octets, 3, 0), addr);
      EnumeratorAgrees(octets, addr);
    }
  }
}
