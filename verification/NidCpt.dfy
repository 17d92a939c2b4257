/**
  Which partition serves a NID (lnet/lnet/api-ni.c), and the count of nets bound to some partitions
  only that lets the lookup skip the lock (lnet/lnet/config.c).
*/
module NidCpt {
  import opened Collections
  import opened Machine

  /** A null CPT list (None) means all partitions; then ni_ncpts is their number. */
  datatype Ni = Ni(cpts: Option<seq<nat>>, ncpts: nat)

  datatype Net = Net(id: nat, cpts: Option<seq<nat>>, ncpts: nat, nis: seq<Ni>)

  predicate Restricted(net: Net) {
    net.cpts.Some?
  }

  // ----- what the operations do to one net

  /** The entries of cpts that the net has already: in_array answers false for those. */
  function Repeated(cpts: seq<nat>, have: seq<nat>): seq<nat> {
    if cpts == [] then []
    else (if cpts[0] in have then [cpts[0]] else []) + Repeated(cpts[1..], have)
  }

  /** The loop that collects them. */
  method CollectRepeated(cpts: seq<nat>, have: seq<nat>) returns (added: seq<nat>)
    ensures added == Repeated(cpts, have)
  {
    added := [];
    for j := 0 to |cpts|
      invariant added + Repeated(cpts[j..], have) == Repeated(cpts, have)
    {
      assert cpts[j..][1..] == cpts[j + 1..];
      if cpts[j] in have {
        added := added + [cpts[j]];
      }
    }
    assert added + [] == added;
  }

  /** lnet_net_append_cpts on n partitions; `alloc` tells whether memory could be had. */
  function Appended(net: Net, cpts: Option<seq<nat>>, n: nat, alloc: bool): (Net, int) {
    if net.ncpts == n then (net, 0)
    else if cpts.None? then (net.(cpts := None, ncpts := n), 0)
    else if !alloc then (net, ENOMEM)
    else if net.cpts.None? then (net.(cpts := cpts, ncpts := |cpts.value|), 0)
    else
      var all := net.cpts.value + Repeated(cpts.value, net.cpts.value);
      (if |all| == |net.cpts.value| then net else net.(cpts := Some(all), ncpts := |all|), 0)
  }

  /** The rebuilding loop of lnet_net_remove_cpts; on failure the net falls back to all partitions. */
  function Rebuilt(net: Net, nis: seq<Ni>, n: nat, alloc: seq<bool>): Net
    requires |alloc| == |nis|
    decreases |nis|
  {
    if nis == [] then net
    else
      var r := Appended(net, nis[0].cpts, n, alloc[0]);
      if r.1 != 0 then Fallback(r.0, n) else Rebuilt(r.0, nis[1..], n, alloc[1..])
  }

  function Fallback(net: Net, n: nat): Net {
    if net.cpts.Some? then net.(cpts := None, ncpts := n) else net
  }

  predicate SomeOnAll(nis: seq<Ni>, n: nat) {
    exists k | 0 <= k < |nis| :: nis[k].ncpts == n
  }

  /** lnet_net_remove_cpts for an NI that had ncpts partitions and is off the list already. */
  function Removed(net: Net, ncpts: nat, n: nat, alloc: seq<bool>): Net
    requires |alloc| == |net.nis|
  {
    if ncpts == 0 || (ncpts == n && SomeOnAll(net.nis, n)) then net
    else Rebuilt(net.(cpts := None), net.nis, n, alloc)
  }

  // ----- lists that can be used

  /** A CPT list names at least one partition, and only partitions there are. */
  predicate Usable(cpts: Option<seq<nat>>, n: nat) {
    cpts.Some? ==> cpts.value != [] && forall k | 0 <= k < |cpts.value| :: cpts.value[k] < n
  }

  predicate Counted(cpts: Option<seq<nat>>, ncpts: nat) {
    cpts.Some? ==> ncpts == |cpts.value|
  }

  predicate UsableNis(nis: seq<Ni>, n: nat) {
    forall k | 0 <= k < |nis| :: Usable(nis[k].cpts, n)
  }

  predicate UsableNet(net: Net, n: nat) {
    Usable(net.cpts, n) && Counted(net.cpts, net.ncpts) && UsableNis(net.nis, n)
  }

  lemma {:induction false} RepeatedWithin(cpts: seq<nat>, have: seq<nat>, n: nat)
    requires forall k | 0 <= k < |cpts| :: cpts[k] < n
    ensures forall k | 0 <= k < |Repeated(cpts, have)| :: Repeated(cpts, have)[k] < n
  {
    if cpts != [] {
      RepeatedWithin(cpts[1..], have, n);
    }
  }

  lemma AppendedUsable(net: Net, cpts: Option<seq<nat>>, n: nat, alloc: bool)
    requires UsableNet(net, n) && Usable(cpts, n)
    ensures UsableNet(Appended(net, cpts, n, alloc).0, n) && Appended(net, cpts, n, alloc).0.nis == net.nis
  {
    if cpts.Some? && net.cpts.Some? {
      RepeatedWithin(cpts.value, net.cpts.value, n);
    }
  }

  lemma {:induction false} RebuiltUsable(net: Net, nis: seq<Ni>, n: nat, alloc: seq<bool>)
    requires |alloc| == |nis| && UsableNet(net, n) && UsableNis(nis, n)
    ensures UsableNet(Rebuilt(net, nis, n, alloc), n)
    decreases |nis|
  {
    if nis != [] {
      var r := Appended(net, nis[0].cpts, n, alloc[0]);
      AppendedUsable(net, nis[0].cpts, n, alloc[0]);
      assert UsableNis(nis[1..], n);
      if r.1 == 0 {
        RebuiltUsable(r.0, nis[1..], n, alloc[1..]);
      }
    }
  }

  /** The nets and ln_cpt_restricted_count. */
  class Lnet {
    const number: nat
    var nets: seq<Net>
    var restricted: int

    /** The counter is the number of nets with a CPT list, and every list can be used. */
    ghost predicate Valid()
      reads this
    {
      restricted == Count(nets, Restricted) && forall i | 0 <= i < |nets| :: UsableNet(nets[i], number)
    }

    constructor (number: nat)
      ensures Valid() && nets == [] && this.number == number
    {
      this.number := number;
      nets, restricted := [], 0;
    }

    /** Writes a net back; the counter is right afterwards if it is moved by `delta`. */
    method Put(i: nat, net: Net, delta: int)
      requires Valid() && i < |nets| && UsableNet(net, number)
      requires delta == (if net.cpts.Some? then 1 else 0) - (if nets[i].cpts.Some? then 1 else 0)
      modifies this
      ensures Valid() && nets == old(nets)[i := net]
    {
      CountUpdate(nets, Restricted, i, net);
      nets := nets[i := net];
      restricted := restricted + delta;
    }

    /** lnet_net_append_cpts. */
    method AppendCpts(i: nat, cpts: Option<seq<nat>>, alloc: bool) returns (rc: int)
      requires Valid() && i < |nets| && Usable(cpts, number)
      modifies this
      ensures Valid()
      ensures |nets| == |old(nets)|
      ensures (nets[i], rc) == Appended(old(nets)[i], cpts, number, alloc) && nets == old(nets)[i := nets[i]]
    {
      var net := nets[i];
      AppendedUsable(net, cpts, number, alloc);
      if net.ncpts == number {
        return 0;
      }
      if cpts.None? {
        // from restricted to unrestricted, if it was restricted
        Put(i, net.(cpts := None, ncpts := number), if net.cpts.Some? then -1 else 0);
        return 0;
      }
      if !alloc {
        return ENOMEM;
      }
      if net.cpts.None? {
        // from unrestricted to restricted
        Put(i, net.(cpts := cpts, ncpts := |cpts.value|), 1);
        return 0;
      }
      var added := CollectRepeated(cpts.value, net.cpts.value);
      if |added| > 0 {
        var all := net.cpts.value + added;
        Put(i, net.(cpts := Some(all), ncpts := |all|), 0);
      }
      return 0;
    }

    /** lnet_net_remove_cpts. */
    method RemoveCpts(i: nat, ncpts: nat, alloc: seq<bool>)
      requires Valid() && i < |nets| && |alloc| == |nets[i].nis|
      modifies this
      ensures Valid() && nets == old(nets)[i := Removed(old(nets)[i], ncpts, number, alloc)]
    {
      var nis := nets[i].nis;
      if ncpts == 0 {
        return;
      }
      if ncpts == number {
        for k := 0 to |nis|
          invariant forall j | 0 <= j < k :: nis[j].ncpts != number
        {
          if nis[k].ncpts == number {
            return;
          }
        }
      }
      if nets[i].cpts.Some? {
        Put(i, nets[i].(cpts := None), -1);
      }
      Rebuild(i, alloc);
    }

    /** The loop that appends the partitions of every remaining NI. */
    method Rebuild(i: nat, alloc: seq<bool>)
      requires Valid() && i < |nets| && |alloc| == |nets[i].nis|
      modifies this
      ensures Valid() && nets == old(nets)[i := Rebuilt(old(nets)[i], old(nets)[i].nis, number, alloc)]
    {
      var nis := nets[i].nis;
      for k := 0 to |nis|
        invariant Valid() && |nets| == |old(nets)| && nets == old(nets)[i := nets[i]]
        invariant Rebuilt(nets[i], nis[k..], number, alloc[k..]) == Rebuilt(old(nets)[i], nis, number, alloc)
      {
        assert nis[k..][1..] == nis[k + 1..] && alloc[k..][1..] == alloc[k + 1..];
        var rc := AppendCpts(i, nis[k].cpts, alloc[k]);
        if rc != 0 {
          if nets[i].cpts.Some? {
            Put(i, nets[i].(cpts := None, ncpts := number), -1);
          }
          return;
        }
      }
    }

    /** An NI that has started joins its net. */
    method NiStarted(i: nat, ni: Ni)
      requires Valid() && i < |nets| && Usable(ni.cpts, number)
      modifies this
      ensures Valid() && nets == old(nets)[i := old(nets)[i].(nis := old(nets)[i].nis + [ni])]
    {
      Put(i, nets[i].(nis := nets[i].nis + [ni]), 0);
    }

    /** lnet_ni_free of the k-th NI, off the list before. */
    method NiFree(i: nat, k: nat, alloc: seq<bool>)
      requires Valid() && i < |nets| && k < |nets[i].nis| && |alloc| == |nets[i].nis| - 1
      modifies this
      ensures Valid()
      ensures var net := old(nets)[i];
              nets == old(nets)[i := Removed(net.(nis := net.nis[..k] + net.nis[k + 1..]), net.nis[k].ncpts, number, alloc)]
    {
      var net := nets[i];
      Put(i, net.(nis := net.nis[..k] + net.nis[k + 1..]), 0);
      RemoveCpts(i, net.nis[k].ncpts, alloc);
    }

    /** The end of lnet_net_free: the net goes, and with it its place in the count. */
    method NetFree(i: nat)
      requires Valid() && i < |nets|
      modifies this
      ensures Valid() && nets == old(nets)[..i] + old(nets)[i + 1..]
    {
      CountRemove(nets, Restricted, i);
      if nets[i].cpts.Some? {
        restricted := restricted - 1;
      }
      nets := nets[..i] + nets[i + 1..];
    }

    /** lnet_net_alloc: a new net is bound to no partition; one that is there already stays as it is. */
    method NetAlloc(id: nat)
      requires Valid()
      modifies this
      ensures Valid() && nets == if Lookup(old(nets), id).Some? then old(nets) else old(nets) + [Net(id, None, 0, [])]
    {
      if Lookup(nets, id).Some? {
        return;
      }
      CountAppend(nets, Restricted, Net(id, None, 0, []));
      nets := nets + [Net(id, None, 0, [])];
    }
  }

  lemma {:induction false} CountRemove<T>(xs: seq<T>, p: T -> bool, i: nat)
    requires i < |xs|
    ensures Count(xs[..i] + xs[i + 1..], p) == Count(xs, p) - if p(xs[i]) then 1 else 0
  {
    if i == 0 {
      assert xs[..0] + xs[1..] == xs[1..];
    } else {
      assert (xs[..i] + xs[i + 1..])[1..] == xs[1..][..i - 1] + xs[1..][i..];
      CountRemove(xs[1..], p, i - 1);
    }
  }

  // ----- looking a NID up

  function Lookup(nets: seq<Net>, id: nat): (r: Option<Net>)
    ensures r.Some? ==> r.value in nets
  {
    if nets == [] then None else if nets[0].id == id then Some(nets[0]) else Lookup(nets[1..], id)
  }

  function At(cpts: seq<nat>, i: nat): nat {
    if i < |cpts| then cpts[i] else 0
  }

  /** lnet_cpt_of_nid_locked; `hash` is lnet_nid_cpt_hash. */
  function CptOfNidLocked(nets: seq<Net>, number: nat, hash: (nat, nat) -> nat, nid: nat, id: nat, ni: Option<Ni>): nat {
    if number == 1 then 0
    else if ni.Some? then
      if ni.value.cpts.Some? then At(ni.value.cpts.value, hash(nid, ni.value.ncpts)) else hash(nid, number)
    else
      var net := Lookup(nets, id);
      if net.Some? && net.value.cpts.Some? then At(net.value.cpts.value, hash(nid, net.value.ncpts)) else hash(nid, number)
  }

  /** The net found for the identifier. */
  predicate FirstNet(nets: seq<Net>, id: nat, k: nat) {
    k < |nets| && nets[k].id == id && forall j | 0 <= j < k :: nets[j].id != id
  }

  lemma {:induction false} LookupFinds(nets: seq<Net>, id: nat, k: nat)
    requires FirstNet(nets, id, k)
    ensures Lookup(nets, id) == Some(nets[k])
  {
    if k > 0 {
      assert forall j | 0 <= j < k - 1 :: nets[1..][j] == nets[j + 1];
      LookupFinds(nets[1..], id, k - 1);
    }
  }

  lemma {:induction false} LookupFound(nets: seq<Net>, id: nat) returns (k: nat)
    ensures if Lookup(nets, id).Some? then FirstNet(nets, id, k) else k == |nets| && forall j | 0 <= j < k :: nets[j].id != id
  {
    if nets == [] || nets[0].id == id {
      return 0;
    }
    k := LookupFound(nets[1..], id);
    assert forall j | 1 <= j < |nets| :: nets[j] == nets[1..][j - 1];
    k := k + 1;
  }

  /** hash is lnet_nid_cpt_hash, which stays below the number it is given. */
  ghost predicate Hashes(hash: (nat, nat) -> nat, nid: nat) {
    forall m: nat | m >= 1 :: hash(nid, m) < m
  }

  /** r is the entry of the list, or of all partitions, that the hash over their number selects. */
  ghost predicate Selected(cpts: Option<seq<nat>>, number: nat, hash: (nat, nat) -> nat, nid: nat, r: nat) {
    if cpts.None? then r == hash(nid, number)
    else hash(nid, |cpts.value|) < |cpts.value| && r == cpts.value[hash(nid, |cpts.value|)]
  }

  /**
    With usable lists about, a NID is served by the partition its hash selects from the NI's list, or
    without an NI from the list of the first net with its identifier, or from all partitions; that
    partition exists.
  */
  lemma LookupExact(nets: seq<Net>, number: nat, hash: (nat, nat) -> nat, nid: nat, id: nat, ni: Option<Ni>)
    requires number >= 1 && Hashes(hash, nid) && (forall k | 0 <= k < |nets| :: UsableNet(nets[k], number))
    requires ni.Some? ==> Usable(ni.value.cpts, number) && Counted(ni.value.cpts, ni.value.ncpts)
    ensures var r := CptOfNidLocked(nets, number, hash, nid, id, ni);
            && r < number
            && (number > 1 && ni.Some? ==> Selected(ni.value.cpts, number, hash, nid, r))
            && (number > 1 && ni.None? ==>
                  && (forall k: nat | FirstNet(nets, id, k) :: Selected(nets[k].cpts, number, hash, nid, r))
                  && ((forall k | 0 <= k < |nets| :: nets[k].id != id) ==> Selected(None, number, hash, nid, r)))
  {
    var k := LookupFound(nets, id);
    forall j: nat | FirstNet(nets, id, j)
      ensures Lookup(nets, id) == Some(nets[j])
    {
      LookupFinds(nets, id, j);
    }
  }

  /** lnet_nid2cpt: the paths without the lock first. */
  function Nid2Cpt(nets: seq<Net>, restricted: int, number: nat, hash: (nat, nat) -> nat, nid: nat, id: nat, ni: Option<Ni>): nat {
    if number == 1 then 0
    else if ni.Some? then
      if ni.value.cpts.Some? then At(ni.value.cpts.value, hash(nid, ni.value.ncpts)) else hash(nid, number)
    else if restricted == 0 then hash(nid, number)
    else CptOfNidLocked(nets, number, hash, nid, id, ni)
  }

  /** While the counter is right, the lookup without the lock gives what the locked one would. */
  lemma FastLookupAgrees(nets: seq<Net>, restricted: int, number: nat, hash: (nat, nat) -> nat, nid: nat, id: nat,
                         ni: Option<Ni>)
    requires restricted == Count(nets, Restricted)
    ensures Nid2Cpt(nets, restricted, number, hash, nid, id, ni) == CptOfNidLocked(nets, number, hash, nid, id, ni)
  {
    CountZero(nets, Restricted);
    if restricted == 0 && Lookup(nets, id).Some? {
      assert !Restricted(Lookup(nets, id).value);
    }
  }

  /** If the counter were zero with a restricted net about, the two lookups could differ. */
  lemma CounterNeeded()
    ensures var nets := [Net(7, Some([1]), 1, [])];
            var hash := (nid: nat, n: nat) => if n == 0 then 0 else nid % n;
            Nid2Cpt(nets, 0, 2, hash, 4, 7, None) != CptOfNidLocked(nets, 2, hash, 4, 7, None)
  {
  }

  /**
    An update writes a net before it moves the counter. A lookup without the lock in that window
    returns what a locked lookup returns before the update, or what it returns after it.
  */
  lemma LookupInWindow(nets: seq<Net>, i: nat, net: Net, restricted: int, number: nat, hash: (nat, nat) -> nat,
                       nid: nat, id: nat, ni: Option<Ni>)
    requires i < |nets| && restricted == Count(nets, Restricted)
    ensures var found := Nid2Cpt(nets[i := net], restricted, number, hash, nid, id, ni);
            || found == CptOfNidLocked(nets, number, hash, nid, id, ni)
            || found == CptOfNidLocked(nets[i := net], number, hash, nid, id, ni)
  {
    FastLookupAgrees(nets, restricted, number, hash, nid, id, ni);
  }

  // ----- when a net is bound again after an NI has left it

  /** A net that counts all partitions is left alone by the rebuilding loop. */
  lemma {:induction false} FullStays(net: Net, nis: seq<Ni>, n: nat, alloc: seq<bool>)
    requires |alloc| == |nis| && net.ncpts == n
    ensures Rebuilt(net, nis, n, alloc) == net
    decreases |nis|
  {
    if nis != [] {
      FullStays(net, nis[1..], n, alloc[1..]);
    }
  }

  /** The list made from the first k NIs: the first one's, and every repetition in the others. */
  function Gathered(nis: seq<Ni>, k: nat): seq<nat>
    requires k <= |nis|
  {
    if k == 0 then []
    else
      var have := Gathered(nis, k - 1);
      if nis[k - 1].cpts.None? then have
      else if k == 1 then nis[0].cpts.value
      else have + Repeated(nis[k - 1].cpts.value, have)
  }

  lemma {:induction false} RepeatedNames(more: seq<nat>, have: seq<nat>)
    ensures forall x :: x in Repeated(more, have) <==> x in more && x in have
  {
    if more != [] {
      RepeatedNames(more[1..], have);
      assert more == [more[0]] + more[1..];
    }
  }

  /** Only repetitions are added: the list names the partitions of the first NI, whatever the others have. */
  lemma {:induction false} GatheredNames(nis: seq<Ni>, k: nat)
    requires 1 <= k <= |nis| && forall j | 0 <= j < k :: nis[j].cpts.Some?
    ensures forall x :: x in Gathered(nis, k) <==> x in nis[0].cpts.value
  {
    if k > 1 {
      GatheredNames(nis, k - 1);
      RepeatedNames(nis[k - 1].cpts.value, Gathered(nis, k - 1));
    }
  }

  /** How many NIs are looked at: up to the one at which the list reaches length n. */
  function LookedAt(nis: seq<Ni>, n: nat, k: nat): (r: nat)
    requires k <= |nis|
    ensures k <= r <= |nis| && (nis != [] ==> r >= 1)
    decreases |nis| - k
  {
    if k == |nis| || (k > 0 && |Gathered(nis, k)| == n) then k else LookedAt(nis, n, k + 1)
  }

  /** Every NI that is looked at has a list, and memory for it. */
  ghost predicate AllListed(nis: seq<Ni>, n: nat, alloc: seq<bool>, k: nat)
    requires |alloc| == |nis| && k <= |nis|
  {
    forall j | k <= j < LookedAt(nis, n, k) :: nis[j].cpts.Some? && alloc[j]
  }

  lemma {:induction false} RebuiltFrom(net: Net, nis: seq<Ni>, k: nat, n: nat, alloc: seq<bool>)
    requires |alloc| == |nis| && 1 <= k <= |nis|
    requires net.cpts == Some(Gathered(nis, k)) && net.ncpts == |Gathered(nis, k)|
    ensures Rebuilt(net, nis[k..], n, alloc[k..]).cpts ==
            if AllListed(nis, n, alloc, k) then Some(Gathered(nis, LookedAt(nis, n, k))) else None
    decreases |nis| - k
  {
    if k < |nis| {
      assert nis[k..][1..] == nis[k + 1..] && alloc[k..][1..] == alloc[k + 1..];
      if net.ncpts == n {
        FullStays(net, nis[k..], n, alloc[k..]);
      } else {
        var r := Appended(net, nis[k].cpts, n, alloc[k]);
        if nis[k].cpts.None? {
          FullStays(r.0, nis[k + 1..], n, alloc[k + 1..]);
          assert !AllListed(nis, n, alloc, k);
        } else if alloc[k] {
          var have := Gathered(nis, k);
          assert Gathered(nis, k + 1) == have + Repeated(nis[k].cpts.value, have);
          assert |Gathered(nis, k + 1)| == |have| ==> Gathered(nis, k + 1) == have;
          RebuiltFrom(r.0, nis, k + 1, n, alloc);
          assert AllListed(nis, n, alloc, k) <==> AllListed(nis, n, alloc, k + 1);
        } else {
          assert !AllListed(nis, n, alloc, k);
        }
      }
    }
  }

  /**
    The rebuilding loop binds the net again if and only if there is an NI left, the net's count was
    not that of all partitions, and every NI up to the one that fills the count has a list and memory
    for it; the list is then the one gathered from those, and names the partitions of the first NI.
  */
  lemma RebuiltExact(net: Net, nis: seq<Ni>, n: nat, alloc: seq<bool>)
    requires |alloc| == |nis| && net.cpts.None?
    ensures Rebuilt(net, nis, n, alloc).cpts ==
            if nis != [] && net.ncpts != n && AllListed(nis, n, alloc, 0) then Some(Gathered(nis, LookedAt(nis, n, 0)))
            else None
    ensures Rebuilt(net, nis, n, alloc).cpts.Some? ==>
            forall x :: x in Rebuilt(net, nis, n, alloc).cpts.value <==> x in nis[0].cpts.value
  {
    RebuiltList(net, nis, n, alloc);
    if Rebuilt(net, nis, n, alloc).cpts.Some? {
      assert forall j | 0 <= j < LookedAt(nis, n, 0) :: nis[j].cpts.Some?;
      GatheredNames(nis, LookedAt(nis, n, 0));
    }
  }

  lemma RebuiltList(net: Net, nis: seq<Ni>, n: nat, alloc: seq<bool>)
    requires |alloc| == |nis| && net.cpts.None?
    ensures Rebuilt(net, nis, n, alloc).cpts ==
            if nis != [] && net.ncpts != n && AllListed(nis, n, alloc, 0) then Some(Gathered(nis, LookedAt(nis, n, 0)))
            else None
  {
    if nis != [] {
      if net.ncpts == n {
        FullStays(net, nis, n, alloc);
      } else {
        var r := Appended(net, nis[0].cpts, n, alloc[0]);
        if nis[0].cpts.None? {
          FullStays(r.0, nis[1..], n, alloc[1..]);
          assert !AllListed(nis, n, alloc, 0);
        } else if alloc[0] {
          assert Gathered(nis, 1) == nis[0].cpts.value;
          RebuiltFrom(r.0, nis, 1, n, alloc);
          assert AllListed(nis, n, alloc, 0) <==> AllListed(nis, n, alloc, 1);
        } else {
          assert !AllListed(nis, n, alloc, 0);
        }
      }
    }
  }

  /** Every NI of the net is bound to some partitions. */
  predicate AllBound(nis: seq<Ni>) {
    forall k | 0 <= k < |nis| :: nis[k].cpts.Some?
  }

  predicate AllTrue(alloc: seq<bool>) {
    forall k | 0 <= k < |alloc| :: alloc[k]
  }

  /**
    With memory at hand a net should be bound exactly when all its remaining NIs are. After a removal
    that rebuilds the list this is so if and only if a net whose NIs are all bound did not count all
    partitions, and one with an unbound NI did, or has such an NI among those looked at.
  */
  lemma RemovalExact(net: Net, ncpts: nat, n: nat, alloc: seq<bool>)
    requires |alloc| == |net.nis| && net.nis != [] && AllTrue(alloc)
    requires ncpts != 0 && !(ncpts == n && SomeOnAll(net.nis, n))
    ensures (Removed(net, ncpts, n, alloc).cpts.Some? <==> AllBound(net.nis)) <==>
            if AllBound(net.nis) then net.ncpts != n
            else net.ncpts == n || !AllBound(net.nis[..LookedAt(net.nis, n, 0)])
  {
    RebuiltExact(net.(cpts := None), net.nis, n, alloc);
    var seen := net.nis[..LookedAt(net.nis, n, 0)];
    assert AllListed(net.nis, n, alloc, 0) <==> AllBound(seen) by {
      if AllBound(seen) {
        assert forall j | 0 <= j < |seen| :: net.nis[j] == seen[j];
      }
    }
    assert AllBound(net.nis) ==> AllBound(seen);
  }

  ghost predicate Within(a: seq<nat>, b: seq<nat>) {
    forall x | x in a :: x in b
  }

  /** Partition x is one of some NI's. */
  ghost predicate Served(nis: seq<Ni>, x: nat) {
    exists k | 0 <= k < |nis| :: nis[k].cpts.Some? && x in nis[k].cpts.value
  }

  /** The list names exactly the partitions of the NIs. */
  ghost predicate NamesAll(cpts: seq<nat>, nis: seq<Ni>) {
    forall x :: x in cpts <==> Served(nis, x)
  }

  /** A net should have a list exactly when all its NIs do, and then one that names their partitions. */
  ghost predicate BoundAsNis(cpts: Option<seq<nat>>, nis: seq<Ni>) {
    if AllBound(nis) then cpts.Some? && NamesAll(cpts.value, nis) else cpts.None?
  }

  /** Every NI has a list within that of the first. */
  ghost predicate AllWithinFirst(nis: seq<Ni>)
    requires nis != [] && AllBound(nis)
  {
    forall k | 0 <= k < |nis| :: Within(nis[k].cpts.value, nis[0].cpts.value)
  }

  /** The partitions of the first NI are those of all of them exactly if no NI has another one. */
  lemma FirstNamesAll(cpts: seq<nat>, nis: seq<Ni>)
    requires nis != [] && AllBound(nis) && forall x :: x in cpts <==> x in nis[0].cpts.value
    ensures NamesAll(cpts, nis) <==> AllWithinFirst(nis)
  {
    forall x | x in cpts
      ensures Served(nis, x)
    {
      assert nis[0].cpts.Some? && x in nis[0].cpts.value;
    }
    if NamesAll(cpts, nis) {
      forall k, x | 0 <= k < |nis| && x in nis[k].cpts.value
        ensures x in nis[0].cpts.value
      {
        assert Served(nis, x);
      }
    } else {
      var x :| Served(nis, x) && x !in cpts;
      var k :| 0 <= k < |nis| && x in nis[k].cpts.value;
      assert !Within(nis[k].cpts.value, nis[0].cpts.value);
    }
  }

  /**
    With memory at hand, a removal that rebuilds the list leaves the net bound to the partitions of
    its remaining NIs if and only if: with all of them bound, the net did not count all partitions and
    no NI is on a partition the first one is not on; else the net did, or an NI without a list is
    among those looked at.
  */
  lemma RemovalNames(net: Net, ncpts: nat, n: nat, alloc: seq<bool>)
    requires |alloc| == |net.nis| && net.nis != [] && AllTrue(alloc)
    requires ncpts != 0 && !(ncpts == n && SomeOnAll(net.nis, n))
    ensures BoundAsNis(Removed(net, ncpts, n, alloc).cpts, net.nis) <==>
            if AllBound(net.nis) then net.ncpts != n && AllWithinFirst(net.nis)
            else net.ncpts == n || !AllBound(net.nis[..LookedAt(net.nis, n, 0)])
  {
    RemovalExact(net, ncpts, n, alloc);
    RebuiltExact(net.(cpts := None), net.nis, n, alloc);
    var cpts := Removed(net, ncpts, n, alloc).cpts;
    if AllBound(net.nis) && cpts.Some? {
      FirstNamesAll(cpts.value, net.nis);
    }
  }

  // ----- repetitions

  predicate NoDup(s: seq<nat>) {
    forall i, j | 0 <= i < j < |s| :: s[i] != s[j]
  }

  /** An NI's list names some partition, and none twice. */
  predicate ProperLists(nis: seq<Ni>) {
    forall k | 0 <= k < |nis| :: nis[k].cpts.Some? && nis[k].cpts.value != [] && NoDup(nis[k].cpts.value)
  }

  /** A second NI within the first one's partitions is all repetitions. */
  lemma SecondRepeats(nis: seq<Ni>, k: nat)
    requires 2 <= k <= |nis| && ProperLists(nis) && AllWithinFirst(nis)
    ensures !NoDup(Gathered(nis, k))
  {
    SecondAdds(nis);
    SecondKept(nis, k);
    var all, two, first := Gathered(nis, k), Gathered(nis, 2), nis[0].cpts.value;
    var x := two[|first|];
    RepeatedNames(nis[1].cpts.value, first);
    assert x in Repeated(nis[1].cpts.value, first);
    var i :| 0 <= i < |first| && first[i] == x;
    assert all[i] == x && all[|first|] == x;
  }

  lemma SecondAdds(nis: seq<Ni>)
    requires 2 <= |nis| && ProperLists(nis) && AllWithinFirst(nis)
    ensures Gathered(nis, 1) == nis[0].cpts.value
    ensures Gathered(nis, 2) == nis[0].cpts.value + Repeated(nis[1].cpts.value, nis[0].cpts.value)
    ensures Repeated(nis[1].cpts.value, nis[0].cpts.value) != []
  {
    var first, second := nis[0].cpts.value, nis[1].cpts.value;
    assert Gathered(nis, 1) == first;
    RepeatedNames(second, first);
    assert second[0] in second && Within(second, first);
    assert second[0] in Repeated(second, first);
  }

  lemma {:induction false} SecondKept(nis: seq<Ni>, k: nat)
    requires 2 <= k <= |nis|
    ensures Gathered(nis, 2) <= Gathered(nis, k)
  {
    if k > 2 {
      SecondKept(nis, k - 1);
    }
  }

  /**
    The list that is expected, every partition of the remaining NIs once, comes out if and only if the
    net did not count all partitions and either one NI is left, or the first one is on all of them.
  */
  lemma ExpectedExact(net: Net, ncpts: nat, n: nat, alloc: seq<bool>)
    requires |alloc| == |net.nis| && net.nis != [] && AllTrue(alloc) && ProperLists(net.nis)
    requires ncpts != 0 && !(ncpts == n && SomeOnAll(net.nis, n))
    ensures var cpts := Removed(net, ncpts, n, alloc).cpts;
            cpts.Some? && NamesAll(cpts.value, net.nis) && NoDup(cpts.value) <==>
            && net.ncpts != n
            && (|net.nis| == 1 || (|net.nis[0].cpts.value| == n && AllWithinFirst(net.nis)))
  {
    RemovalNames(net, ncpts, n, alloc);
    RebuiltExact(net.(cpts := None), net.nis, n, alloc);
    var nis := net.nis;
    assert Gathered(nis, 1) == nis[0].cpts.value;
    assert LookedAt(nis, n, 0) == LookedAt(nis, n, 1);
    if LookedAt(nis, n, 0) > 1 && AllWithinFirst(nis) {
      SecondRepeats(nis, LookedAt(nis, n, 0));
    }
  }

  /** The NI on both partitions has left, the other is on one: the net should be bound and is not. */
  lemma LeftUnbound()
    ensures var net := Net(7, None, 2, [Ni(Some([0]), 1)]);
            AllBound(net.nis) && Removed(net, 2, 2, [true]).cpts.None?
  {
    FullStays(Net(7, None, 2, [Ni(Some([0]), 1)]), [Ni(Some([0]), 1)], 2, [true]);
  }

  /** Two NIs on different partitions are left, and the second one's is lost. */
  lemma PartitionLost()
    ensures var net := Net(7, Some([2]), 1, [Ni(Some([0]), 1), Ni(Some([1]), 1)]);
            AllBound(net.nis) && Served(net.nis, 1) && Removed(net, 1, 3, [true, true]).cpts == Some([0])
  {
    var nis := [Ni(Some([0]), 1), Ni(Some([1]), 1)];
    assert nis[1].cpts.Some? && 1 in nis[1].cpts.value;
    RebuiltExact(Net(7, None, 1, nis), nis, 3, [true, true]);
    assert Gathered(nis, 1) == [0];
    assert Repeated([1], [0]) == [] + Repeated([], [0]);
    assert Gathered(nis, 2) == [0];
    assert LookedAt(nis, 3, 1) == 2;
    assert LookedAt(nis, 3, 0) == 2;
    assert AllListed(nis, 3, [true, true], 0);
  }

  /** Two NIs on the same partition fill the count, and the third, on all of them, is ignored. */
  lemma LeftBound()
    ensures var net := Net(7, Some([0]), 1, [Ni(Some([0]), 1), Ni(Some([0]), 1), Ni(None, 2)]);
            !AllBound(net.nis) && Removed(net, 1, 2, [true, true, true]).cpts == Some([0, 0])
  {
    var nis := [Ni(Some([0]), 1), Ni(Some([0]), 1), Ni(None, 2)];
    var net := Net(7, Some([0]), 1, nis);
    assert nis[2].cpts.None?;
    RebuiltExact(net.(cpts := None), nis, 2, [true, true, true]);
    assert Gathered(nis, 1) == [0];
    assert Repeated([0], [0]) == [0] + Repeated([], [0]);
    assert Gathered(nis, 2) == [0, 0];
    assert LookedAt(nis, 2, 2) == 2;
    assert LookedAt(nis, 2, 1) == 2;
    assert LookedAt(nis, 2, 0) == 2;
    assert AllListed(nis, 2, [true, true, true], 0);
  }
}
