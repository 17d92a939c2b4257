/**
  The array of active match tables of a wildcard portal (`ptl_mt_maps`, `ptl_mt_nmaps`) and the
  per-table `mt_enabled` flags: lnet_ptl_enable_mt and lnet_ptl_disable_mt of lnet/lnet/lib-ptl.c.
*/
module PortalMaps {

  predicate StrictlySorted(maps: seq<nat>) {
    forall i, j | 0 <= i < j < |maps| :: maps[i] < maps[j]
  }

  /** maps with cpt added in order. */
  function Insert(maps: seq<nat>, cpt: nat): seq<nat> {
    if maps == [] || cpt < maps[0] then [cpt] + maps else [maps[0]] + Insert(maps[1..], cpt)
  }

  /** maps without cpt. */
  function Remove(maps: seq<nat>, cpt: nat): seq<nat> {
    if maps == [] then [] else if maps[0] == cpt then maps[1..] else [maps[0]] + Remove(maps[1..], cpt)
  }

  lemma {:induction false} InsertAt(maps: seq<nat>, cpt: nat, k: nat)
    requires k <= |maps|
    requires forall i | 0 <= i < k :: maps[i] < cpt
    requires forall i | k <= i < |maps| :: cpt < maps[i]
    ensures Insert(maps, cpt) == maps[..k] + [cpt] + maps[k..]
  {
    if k > 0 {
      InsertAt(maps[1..], cpt, k - 1);
      assert maps == [maps[0]] + maps[1..];
    }
  }

  lemma {:induction false} RemoveAt(maps: seq<nat>, cpt: nat, k: nat)
    requires k < |maps| && maps[k] == cpt && forall i | 0 <= i < k :: maps[i] != cpt
    ensures Remove(maps, cpt) == maps[..k] + maps[k + 1..]
  {
    if k > 0 {
      RemoveAt(maps[1..], cpt, k - 1);
      assert maps == [maps[0]] + maps[1..];
    }
  }

  lemma {:induction false} InsertSorted(maps: seq<nat>, cpt: nat)
    requires StrictlySorted(maps) && cpt !in maps
    ensures StrictlySorted(Insert(maps, cpt))
    ensures forall c: nat :: c in Insert(maps, cpt) <==> c == cpt || c in maps
  {
    if maps != [] && cpt >= maps[0] {
      assert maps == [maps[0]] + maps[1..];
      assert maps[0] in maps;
      InsertSorted(maps[1..], cpt);
      var rest := Insert(maps[1..], cpt);
      forall j | 0 <= j < |rest|
        ensures maps[0] < rest[j]
      {
        assert rest[j] in rest;
      }
    }
  }

  lemma {:induction false} RemoveSorted(maps: seq<nat>, cpt: nat)
    requires StrictlySorted(maps)
    ensures StrictlySorted(Remove(maps, cpt))
    ensures forall c: nat :: c in Remove(maps, cpt) <==> c != cpt && c in maps
  {
    if maps != [] {
      assert maps == [maps[0]] + maps[1..];
      if maps[0] != cpt {
        RemoveSorted(maps[1..], cpt);
        var rest := Remove(maps[1..], cpt);
        forall j | 0 <= j < |rest|
          ensures maps[0] < rest[j]
        {
          assert rest[j] in rest;
        }
      }
    }
  }

  /** Every slot, in use or not, names a partition: the reads made without the lock rely on it. */
  predicate InRange(maps: seq<nat>, ncpt: nat) {
    forall i | 0 <= i < |maps| :: maps[i] < ncpt
  }

  /** lnet_ptl_enable_mt: the array stays the sorted list of active tables. */
  method EnableMt(maps: array<nat>, nmaps: nat, cpt: nat) returns (n: nat)
    requires nmaps <= maps.Length && cpt < maps.Length && InRange(maps[..], maps.Length)
    requires StrictlySorted(maps[..nmaps]) && cpt !in maps[..nmaps]
    modifies maps
    ensures n == nmaps + 1 <= maps.Length && InRange(maps[..], maps.Length)
    ensures maps[..n] == Insert(old(maps[..nmaps]), cpt)
  {
    ghost var was, k := maps[..nmaps], Rank(maps[..nmaps], cpt);
    InsertedAt(was, maps.Length, cpt, k);
    InsertInOrder(maps, nmaps, cpt, k);
    return nmaps + 1;
  }

  /** lnet_ptl_disable_mt: the only table of a one-partition system is never disabled. */
  method DisableMt(maps: array<nat>, nmaps: nat, cpt: nat) returns (n: nat)
    requires nmaps <= maps.Length && InRange(maps[..], maps.Length)
    requires StrictlySorted(maps[..nmaps]) && cpt in maps[..nmaps]
    modifies maps
    ensures n <= maps.Length && InRange(maps[..], maps.Length)
    ensures maps[..n] == if maps.Length == 1 then old(maps[..nmaps]) else Remove(old(maps[..nmaps]), cpt)
  {
    if maps.Length == 1 {
      return nmaps;
    }
    ghost var was, k := maps[..nmaps], Rank(maps[..nmaps], cpt);
    assert was[k] == cpt by {
      var i :| 0 <= i < |was| && was[i] == cpt;
    }
    RemoveAt(was, cpt, k);
    assert forall j | 0 <= j < nmaps :: maps[j] == was[j];
    RemoveInOrder(maps, nmaps - 1, cpt, k);
    return nmaps - 1;
  }

  /** Where cpt belongs in a strictly sorted list. */
  ghost function Rank(maps: seq<nat>, cpt: nat): (k: nat)
    requires StrictlySorted(maps)
    ensures k <= |maps|
    ensures forall j | 0 <= j < k :: maps[j] < cpt
    ensures forall j | k <= j < |maps| :: cpt <= maps[j]
  {
    if maps == [] || maps[|maps| - 1] < cpt then |maps| else Rank(maps[..|maps| - 1], cpt)
  }

  /** The insertion loop of lnet_ptl_enable_mt; its LASSERT is the assert below. */
  method InsertInOrder(maps: array<nat>, n: nat, cpt: nat, ghost k: nat)
    requires k <= n < maps.Length && cpt < maps.Length && InRange(maps[..], maps.Length)
    requires forall j | 0 <= j < k :: maps[j] < cpt
    requires forall j | k <= j < n :: cpt < maps[j]
    modifies maps
    ensures maps[..n + 1] == old(maps[..n])[..k] + [cpt] + old(maps[..n])[k..]
    ensures InRange(maps[..], maps.Length)
  {
    ghost var was := maps[..];
    maps[n] := cpt;
    var i: int := n - 1;
    while i >= 0
      invariant k - 1 <= i < n
      invariant forall j | 0 <= j <= i :: maps[j] == was[j]
      invariant maps[i + 1] == cpt
      invariant forall j | i + 1 < j <= n :: maps[j] == was[j - 1]
      invariant forall j | 0 <= j < maps.Length :: maps[j] < maps.Length
    {
      assert maps[i] != cpt;
      if maps[i] < cpt {
        break;
      }
      maps[i + 1] := maps[i];
      maps[i] := cpt;
      i := i - 1;
    }
  }

  /** The overwriting loop of lnet_ptl_disable_mt; n is the count after the decrement. */
  method RemoveInOrder(maps: array<nat>, n: nat, cpt: nat, ghost k: nat)
    requires k <= n < maps.Length && maps[k] == cpt && InRange(maps[..], maps.Length)
    requires forall j | 0 <= j < k :: maps[j] < cpt
    requires forall j | k < j <= n :: cpt < maps[j]
    modifies maps
    ensures maps[..n] == old(maps[..n + 1])[..k] + old(maps[..n + 1])[k + 1..]
    ensures InRange(maps[..], maps.Length)
  {
    ghost var was := maps[..];
    assert forall j | 0 <= j < k :: was[j] < cpt;
    assert forall j | k <= j <= n :: was[j] >= cpt;
    for i := 0 to n
      invariant forall j | 0 <= j < i && j < k :: maps[j] == was[j]
      invariant forall j | k <= j < i :: maps[j] == was[j + 1]
      invariant forall j | i <= j <= n :: maps[j] == was[j]
      invariant forall j | 0 <= j < maps.Length :: maps[j] < maps.Length
    {
      if maps[i] >= cpt {
        maps[i] := maps[i + 1];
      }
    }
  }

  /** A strictly sorted list of partitions that misses one has room for it. */
  lemma SortedRoom(maps: seq<nat>, ncpt: nat, cpt: nat)
    requires StrictlySorted(maps) && (forall i | 0 <= i < |maps| :: maps[i] < ncpt)
    requires cpt < ncpt && cpt !in maps
    ensures |maps| < ncpt
  {
    InsertSorted(maps, cpt);
    var all := Insert(maps, cpt);
    forall i | 0 <= i < |all|
      ensures all[i] < ncpt
    {
      assert all[i] in all;
    }
    SortedBound(all, ncpt);
    InsertLength(maps, cpt);
  }

  /** What adding cpt at its rank gives. */
  lemma InsertedAt(maps: seq<nat>, ncpt: nat, cpt: nat, k: nat)
    requires StrictlySorted(maps) && (forall i | 0 <= i < |maps| :: maps[i] < ncpt)
    requires cpt < ncpt && cpt !in maps && k == Rank(maps, cpt)
    ensures |maps| < ncpt
    ensures forall j | k <= j < |maps| :: cpt < maps[j]
    ensures Insert(maps, cpt) == maps[..k] + [cpt] + maps[k..]
    ensures StrictlySorted(Insert(maps, cpt))
    ensures forall c: nat :: c in Insert(maps, cpt) <==> c == cpt || c in maps
  {
    assert forall j | k <= j < |maps| :: maps[j] in maps;
    SortedRoom(maps, ncpt, cpt);
    InsertSorted(maps, cpt);
    InsertAt(maps, cpt, k);
  }

  lemma {:induction false} InsertLength(maps: seq<nat>, cpt: nat)
    ensures |Insert(maps, cpt)| == |maps| + 1
  {
    if maps != [] {
      InsertLength(maps[1..], cpt);
    }
  }

  lemma {:induction false} SortedBound(maps: seq<nat>, n: nat)
    requires StrictlySorted(maps) && forall i | 0 <= i < |maps| :: maps[i] < n
    ensures |maps| <= n
  {
    if maps != [] {
      SortedBound(maps[..|maps| - 1], maps[|maps| - 1]);
    }
  }
}
