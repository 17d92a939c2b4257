/**
  Building a CPU partition table over all online CPUs (lnet/lnet/lib-cpt.c: cfs_cpt_num_estimate,
  cfs_cpt_choose_ncpus, cfs_cpt_table_create).
*/
module CptCreate {
  import opened CptTable
  import opened Machine

  /** Hardware layout: hyper-thread siblings, the CPUs of a socket, the CPUs of a node. */
  datatype Layout = Layout(siblings: seq<set<nat>>, sockets: seq<set<nat>>, nodeCpus: seq<set<nat>>)
  {
    /** Each sibling and socket mask contains its own CPU; the masks name existing CPUs. */
    ghost predicate Valid(topo: Topology) {
      && |siblings| == |sockets| == topo.ncpus
      && (forall cpu | 0 <= cpu < topo.ncpus :: cpu in siblings[cpu] && cpu in sockets[cpu])
      && (forall n, cpu | 0 <= n < |nodeCpus| && cpu in nodeCpus[n] :: cpu < topo.ncpus)
    }
  }

  /** Siblings of a core and CPUs of a socket name each other, and a core lies in one socket. */
  ghost predicate Grouped(layout: Layout, topo: Topology) {
    && |layout.siblings| == |layout.sockets| == topo.ncpus
    && (forall a, b | 0 <= a < topo.ncpus && b in layout.siblings[a] && b < topo.ncpus :: layout.siblings[b] == layout.siblings[a])
    && (forall a, b | 0 <= a < topo.ncpus && b in layout.sockets[a] && b < topo.ncpus :: layout.sockets[b] == layout.sockets[a])
    && (forall a | 0 <= a < topo.ncpus :: layout.siblings[a] <= layout.sockets[a])
  }

  /** Of every group other than `last`, either all CPUs in the mask were taken or none. */
  ghost predicate WholeBut(groups: seq<set<nat>>, mask: set<nat>, left: set<nat>, last: set<nat>) {
    forall x, y {:trigger x in mask, y in groups[x]} |
      x in mask && x !in left && x < |groups| && groups[x] != last && y in groups[x] && y in mask :: y !in left
  }

  ghost predicate Whole(groups: seq<set<nat>>, mask: set<nat>, left: set<nat>) {
    forall x, y {:trigger x in mask, y in groups[x]} | x in mask && x !in left && x < |groups| && y in groups[x] && y in mask :: y !in left
  }

  /** Only the group that was being taken when the number was reached is split. */
  ghost predicate AtMostOneSplit(groups: seq<set<nat>>, mask: set<nat>, left: set<nat>, number: int) {
    if number > 0 then Whole(groups, mask, left) else exists last :: WholeBut(groups, mask, left, last)
  }

  /** Taking CPUs of the group of `cpu` splits no other group. */
  lemma GroupTaken(groups: seq<set<nat>>, topo: Topology, mask: set<nat>, left: set<nat>, left': set<nat>, cpu: nat, number: int)
    requires |groups| == topo.ncpus && cpu < topo.ncpus && forall x | x in mask :: x < topo.ncpus
    requires forall a, b | 0 <= a < topo.ncpus && b in groups[a] && b < topo.ncpus :: groups[b] == groups[a]
    requires Whole(groups, mask, left) && left' <= left && left - groups[cpu] <= left'
    requires number > 0 ==> left' !! groups[cpu]
    ensures WholeBut(groups, mask, left', groups[cpu]) && AtMostOneSplit(groups, mask, left', number)
  {
  }

  /** The lowest of one group is below all of the other. */
  ghost predicate Leads(a: set<nat>, b: set<nat>) {
    exists x | x in a :: forall y | y in b :: x < y
  }

  /** The order of CPUs in the mask: by the lowest of their socket, the lowest of their core, their number. */
  ghost predicate Before(layout: Layout, mask: set<nat>, x: nat, y: nat)
    requires x < |layout.sockets| == |layout.siblings| && y < |layout.sockets|
  {
    if layout.sockets[x] != layout.sockets[y] then Leads(layout.sockets[x] * mask, layout.sockets[y] * mask)
    else if layout.siblings[x] != layout.siblings[y] then Leads(layout.siblings[x] * mask, layout.siblings[y] * mask)
    else x < y
  }

  /** Where sockets and cores are proper groups, every CPU taken comes before every CPU left. */
  ghost predicate InOrder(layout: Layout, topo: Topology, mask: set<nat>, left: set<nat>) {
    Grouped(layout, topo) ==>
      forall x, y | x in mask && x !in left && y in left && x < topo.ncpus && y < topo.ncpus :: Before(layout, mask, x, y)
  }

  /** cpumask_first. */
  method First(mask: set<nat>, ncpus: nat) returns (cpu: nat)
    requires mask != {} && forall x | x in mask :: x < ncpus
    ensures cpu in mask && forall x | x in mask :: cpu <= x
  {
    var x :| x in mask;
    cpu := 0;
    while cpu !in mask
      invariant forall y | y in mask :: cpu <= y
      decreases x - cpu
    {
      cpu := cpu + 1;
    }
  }

  /** The online CPUs taken out of `mask` so far, when `left` remains. */
  function Taken(topo: Topology, mask: set<nat>, left: set<nat>): set<nat> {
    (mask - left) * topo.online
  }

  /** Since `was`, exactly the online CPUs taken out of the mask went to partition cpt. */
  ghost predicate Moved(topo: Topology, was: seq<int>, now: seq<int>, cpt: nat, mask: set<nat>, left: set<nat>) {
    && |was| == |now| == topo.ncpus && left <= mask
    && (forall cpu {:trigger now[cpu]} | 0 <= cpu < topo.ncpus ::
          now[cpu] == if cpu in Taken(topo, mask, left) then cpt else was[cpu])
  }

  ghost predicate Unassigned(topo: Topology, cpu2cpt: seq<int>, mask: set<nat>) {
    && |cpu2cpt| == topo.ncpus
    && (forall cpu {:trigger cpu in mask} | cpu in mask :: cpu < topo.ncpus && cpu2cpt[cpu] == -1)
  }

  /** CPUs have moved, and `number` more of the `total` wanted are missing. */
  ghost predicate Progress(topo: Topology, was: seq<int>, now: seq<int>, cpt: nat, mask: set<nat>, left: set<nat>,
                           number: int, total: int) {
    && Unassigned(topo, was, mask)
    && Moved(topo, was, now, cpt, mask, left)
    && number + |Taken(topo, mask, left)| == total
  }

  lemma TakeOne(topo: Topology, was: seq<int>, now: seq<int>, cpt: nat, mask: set<nat>, left: set<nat>,
                number: int, total: int, cpu: nat)
    requires Progress(topo, was, now, cpt, mask, left, number, total) && cpu in left
    ensures cpu < topo.ncpus && now[cpu] == -1
    ensures cpu in topo.online ==> Progress(topo, was, now[cpu := cpt], cpt, mask, left - {cpu}, number - 1, total)
    ensures cpu !in topo.online ==> Progress(topo, was, now, cpt, mask, left - {cpu}, number, total)
  {
    assert cpu in mask;
    if cpu in topo.online {
      assert Taken(topo, mask, left - {cpu}) == Taken(topo, mask, left) + {cpu};
    } else {
      assert Taken(topo, mask, left - {cpu}) == Taken(topo, mask, left);
    }
  }

  lemma Bounds(topo: Topology, was: seq<int>, mask: set<nat>, left: set<nat>, some: set<nat>)
    requires Unassigned(topo, was, mask) && some <= left <= mask
    ensures forall x | x in some :: x < topo.ncpus
  {
    assert forall x | x in some :: x in mask;
  }

  /** Clears the CPU in the mask and, if it is online, assigns it. */
  method TakeCpu(t: Table, cpt: nat, mask: set<nat>, left: set<nat>, cpu: nat, number: int,
                 ghost was: seq<int>, ghost total: int)
    returns (ok: bool, number': int)
    requires t.Valid() && cpt < t.nparts && cpu in left
    requires Progress(t.topo, was, t.cpu2cpt, cpt, mask, left, number, total)
    modifies t
    ensures t.Valid() && ok
    ensures Progress(t.topo, was, t.cpu2cpt, cpt, mask, left - {cpu}, number', total)
    ensures number - 1 <= number' <= number
  {
    TakeOne(t.topo, was, t.cpu2cpt, cpt, mask, left, number, total, cpu);
    ok, number' := true, number;
    if cpu in t.topo.online {
      ok := t.SetCpu(cpt, cpu);
      number' := number - 1;
    }
  }

  /** The branch of cfs_cpt_choose_ncpus that takes the whole mask. */
  method TakeAll(t: Table, cpt: nat, mask: set<nat>, total: int) returns (rc: int, left: set<nat>)
    requires t.Valid() && cpt < t.nparts
    requires Progress(t.topo, t.cpu2cpt, t.cpu2cpt, cpt, mask, mask, total, total)
    modifies t
    ensures t.Valid() && rc == 0 && left == {}
    ensures exists n :: Progress(t.topo, old(t.cpu2cpt), t.cpu2cpt, cpt, mask, {}, n, total)
  {
    left, rc := mask, 0;
    var n := total;
    while left != {} && rc == 0
      invariant t.Valid() && rc == 0
      invariant Progress(t.topo, old(t.cpu2cpt), t.cpu2cpt, cpt, mask, left, n, total)
      decreases left
    {
      Bounds(t.topo, old(t.cpu2cpt), mask, left, left);
      var cpu := First(left, t.topo.ncpus);
      var ok;
      ok, n := TakeCpu(t, cpt, mask, left, cpu, n, old(t.cpu2cpt), total);
      left := left - {cpu};
      rc := if ok then 0 else EINVAL;
    }
  }

  /** The for_each_cpu loop over one core; stops as soon as `number` CPUs have been assigned. */
  method TakeCore(t: Table, cpt: nat, mask: set<nat>, left: set<nat>, core: set<nat>, number: nat,
                  ghost was: seq<int>, ghost total: int)
    returns (ok: bool, left': set<nat>, number': nat)
    requires t.Valid() && cpt < t.nparts && number > 0 && core <= left
    requires Progress(t.topo, was, t.cpu2cpt, cpt, mask, left, number, total)
    modifies t
    ensures t.Valid() && ok && left' <= left
    ensures Progress(t.topo, was, t.cpu2cpt, cpt, mask, left', number', total)
    ensures number' == 0 || left' == left - core
    ensures left - core <= left'
    ensures core != {} ==> left' < left
    ensures AllBelow(left - left', left' * core)
  {
    ok, left', number' := true, left, number;
    var todo := core;
    while todo != {} && ok && number' > 0
      invariant t.Valid() && ok
      invariant todo <= left' <= left && left' - todo == left - core
      invariant left' < left || (todo == core && number' == number)
      invariant todo <= core && AllBelow(core - todo, todo)
      invariant Progress(t.topo, was, t.cpu2cpt, cpt, mask, left', number', total)
      decreases todo
    {
      Bounds(t.topo, was, mask, left', todo);
      var i := First(todo, t.topo.ncpus);
      ok, number' := TakeCpu(t, cpt, mask, left', i, number', was, total);
      OneLess(left, core, left', todo, i);
      LowestGone(core, todo, i);
      left', todo := left' - {i}, todo - {i};
    }
    WhatWent(left, core, left', todo);
  }

  /** All of the one are below all of the other. */
  ghost predicate AllBelow(a: set<nat>, b: set<nat>) {
    forall x, y | x in a && y in b :: x < y
  }

  /** The CPU is the lowest of the group. */
  predicate Lowest(group: set<nat>, cpu: nat) {
    cpu in group && forall x | x in group :: cpu <= x
  }

  lemma LowestGone(core: set<nat>, todo: set<nat>, i: nat)
    requires AllBelow(core - todo, todo) && Lowest(todo, i)
    ensures AllBelow(core - (todo - {i}), todo - {i})
  {
    forall x, y | x in core - (todo - {i}) && y in todo - {i}
      ensures x < y
    {
      assert x == i || x in core - todo;
    }
  }

  lemma WhatWent(left: set<nat>, core: set<nat>, left': set<nat>, todo: set<nat>)
    requires todo <= left' <= left && left' - todo == left - core && todo <= core <= left && AllBelow(core - todo, todo)
    ensures AllBelow(left - left', left' * core)
  {
    assert forall x | x in left && x !in core :: x in left' - todo;
    assert left - left' <= core - todo;
    assert forall x | x in left' && x !in todo :: x in left - core;
    assert left' * core <= todo;
  }

  /** One CPU of the core is taken out of both. */
  lemma OneLess(left: set<nat>, core: set<nat>, left': set<nat>, todo: set<nat>, i: nat)
    requires todo <= left' <= left && left' - todo == left - core && i in todo
    ensures todo - {i} <= left' - {i} < left && (left' - {i}) - (todo - {i}) == left - core
  {
    assert i in left && i !in left' - {i};
  }

  /**
    cfs_cpt_choose_ncpus: moves `number` online CPUs from the mask to partition cpt, or all of them
    when the mask runs out first. Returns the CPUs still in the mask.
  */
  method ChooseNcpus(t: Table, layout: Layout, cpt: nat, mask: set<nat>, number: nat) returns (rc: int, left: set<nat>)
    requires t.Valid() && cpt < t.nparts && layout.Valid(t.topo) && number > 0
    requires Unassigned(t.topo, t.cpu2cpt, mask)
    modifies t
    ensures t.Valid() && rc >= 0
    ensures Moved(t.topo, old(t.cpu2cpt), t.cpu2cpt, cpt, mask, left)
    ensures |Taken(t.topo, mask, left)| <= number
    ensures left == {} || |Taken(t.topo, mask, left)| == number
    ensures Grouped(layout, t.topo) ==>
              && (exists last :: WholeBut(layout.siblings, mask, left, last))
              && (exists last :: WholeBut(layout.sockets, mask, left, last))
    ensures InOrder(layout, t.topo, mask, left)
  {
    assert Taken(t.topo, mask, mask) == {};
    if number >= |mask| {
      rc, left := TakeAll(t, cpt, mask, number);
      TakenBound(t.topo, mask, left);
      assert WholeBut(layout.siblings, mask, left, {}) && WholeBut(layout.sockets, mask, left, {});
    } else {
      rc, left := TakeSockets(t, layout, cpt, mask, number);
    }
  }

  /** The branch that prefers CPUs of one core, then of one socket. */
  method TakeSockets(t: Table, layout: Layout, cpt: nat, mask: set<nat>, number: nat) returns (rc: int, left: set<nat>)
    requires t.Valid() && cpt < t.nparts && layout.Valid(t.topo) && number > 0
    requires Progress(t.topo, t.cpu2cpt, t.cpu2cpt, cpt, mask, mask, number, number)
    modifies t
    ensures t.Valid() && rc >= 0
    ensures exists n: nat :: Progress(t.topo, old(t.cpu2cpt), t.cpu2cpt, cpt, mask, left, n, number) && (n == 0 || left == {})
    ensures Grouped(layout, t.topo) ==>
              && (exists last :: WholeBut(layout.siblings, mask, left, last))
              && (exists last :: WholeBut(layout.sockets, mask, left, last))
    ensures InOrder(layout, t.topo, mask, left)
  {
    left, rc := mask, 0;
    var n := number;
    while left != {} && n > 0
      invariant t.Valid() && rc >= 0
      invariant Progress(t.topo, old(t.cpu2cpt), t.cpu2cpt, cpt, mask, left, n, number)
      invariant Split(layout, t.topo, mask, left, n) && InOrder(layout, t.topo, mask, left)
      decreases left
    {
      Bounds(t.topo, old(t.cpu2cpt), mask, left, left);
      var cpu := First(left, t.topo.ncpus);
      rc, left, n := TakeSocket(t, layout, cpt, mask, left, cpu, n, old(t.cpu2cpt), number);
    }
    if Grouped(layout, t.topo) {
      SplitEnd(layout, t.topo, mask, left, n);
    }
  }

  /** Cores and sockets: at most one of each is split. */
  ghost predicate Split(layout: Layout, topo: Topology, mask: set<nat>, left: set<nat>, number: int) {
    Grouped(layout, topo) ==>
      AtMostOneSplit(layout.siblings, mask, left, number) && AtMostOneSplit(layout.sockets, mask, left, number)
  }

  lemma SplitEnd(layout: Layout, topo: Topology, mask: set<nat>, left: set<nat>, number: int)
    requires Split(layout, topo, mask, left, number) && Grouped(layout, topo)
    ensures exists last :: WholeBut(layout.siblings, mask, left, last)
    ensures exists last :: WholeBut(layout.sockets, mask, left, last)
  {
    if number > 0 {
      assert WholeBut(layout.siblings, mask, left, {}) && WholeBut(layout.sockets, mask, left, {});
    }
  }

  /** The loop over the cores of the socket that `first` is in. */
  method TakeSocket(t: Table, layout: Layout, cpt: nat, mask: set<nat>, left: set<nat>, first: nat, number: nat,
                    ghost was: seq<int>, ghost total: int)
    returns (rc: int, left': set<nat>, number': nat)
    requires t.Valid() && cpt < t.nparts && layout.Valid(t.topo) && number > 0 && Lowest(left, first)
    requires Progress(t.topo, was, t.cpu2cpt, cpt, mask, left, number, total) && Split(layout, t.topo, mask, left, number)
    requires InOrder(layout, t.topo, mask, left)
    modifies t
    ensures t.Valid() && rc >= 0 && left' < left
    ensures Progress(t.topo, was, t.cpu2cpt, cpt, mask, left', number', total) && Split(layout, t.topo, mask, left', number')
    ensures InOrder(layout, t.topo, mask, left')
  {
    Bounds(t.topo, was, mask, left, left);
    Bounds(t.topo, was, mask, mask, mask);
    var cpu := first;
    var socket := layout.sockets[cpu] * left;
    rc, left', number' := 0, left, number;
    while socket != {} && number' > 0
      invariant t.Valid() && rc >= 0
      invariant socket <= left' <= left && (socket != {} ==> Lowest(socket, cpu))
      invariant left' < left || (left' == left && socket != {} && number' > 0)
      invariant Progress(t.topo, was, t.cpu2cpt, cpt, mask, left', number', total)
      invariant OneSocket(layout, t.topo, mask, left, left', socket, first, number') && InOrder(layout, t.topo, mask, left')
      decreases left'
    {
      Bounds(t.topo, was, mask, left', left');
      var core := layout.siblings[cpu] * left';
      ghost var before := left';
      assert cpu in core;
      var ok;
      ok, left', number' := TakeCore(t, cpt, mask, left', core, number', was, total);
      rc := if ok then 1 else EINVAL;
      CoreOrdered(layout, t.topo, mask, left, before, left', socket, first, cpu);
      CoreTaken(layout, t.topo, mask, left, before, left', socket, first, cpu, number');
      if number' > 0 {
        assert left' == before - core;
        socket := socket - core;
        if socket != {} {
          Bounds(t.topo, was, mask, left', socket);
          cpu := First(socket, t.topo.ncpus);
        }
      } else {
        socket := {};
      }
    }
    SocketTaken(layout, t.topo, mask, left, left', socket, first, number');
  }

  /** Inside the loop over a socket: only CPUs of that socket have gone, and no core is split yet. */
  ghost predicate OneSocket(layout: Layout, topo: Topology, mask: set<nat>, left: set<nat>, left': set<nat>, socket: set<nat>,
                            first: nat, number: int) {
    Grouped(layout, topo) && first < topo.ncpus ==>
      && Whole(layout.sockets, mask, left) && left - layout.sockets[first] <= left' <= left
      && (number > 0 ==> socket == layout.sockets[first] * left')
      && AtMostOneSplit(layout.siblings, mask, left', number)
  }

  lemma CoreTaken(layout: Layout, topo: Topology, mask: set<nat>, left: set<nat>, before: set<nat>, left': set<nat>,
                  socket: set<nat>, first: nat, cpu: nat, number: int)
    requires layout.Valid(topo) && cpu < topo.ncpus && first < topo.ncpus && forall x | x in mask :: x < topo.ncpus
    requires OneSocket(layout, topo, mask, left, before, socket, first, 1) && cpu in socket
    requires left' <= before && before - layout.siblings[cpu] * before <= left'
    requires number > 0 ==> left' == before - layout.siblings[cpu] * before
    ensures OneSocket(layout, topo, mask, left, left', if number > 0 then socket - layout.siblings[cpu] * before else {}, first, number)
  {
    if Grouped(layout, topo) {
      GroupTaken(layout.siblings, topo, mask, before, left', cpu, number);
      assert layout.sockets[cpu] == layout.sockets[first];
    }
  }

  lemma CoreOrdered(layout: Layout, topo: Topology, mask: set<nat>, left: set<nat>, before: set<nat>, left': set<nat>,
                    socket: set<nat>, first: nat, cpu: nat)
    requires layout.Valid(topo) && cpu < topo.ncpus && first < topo.ncpus && forall x | x in mask :: x < topo.ncpus
    requires OneSocket(layout, topo, mask, left, before, socket, first, 1) && Lowest(socket, cpu) && Lowest(left, first) && left <= mask
    requires left' <= before <= left && before - layout.siblings[cpu] * before <= left' && InOrder(layout, topo, mask, before)
    requires AllBelow(before - left', left' * (layout.siblings[cpu] * before))
    ensures InOrder(layout, topo, mask, left')
  {
    if Grouped(layout, topo) {
      forall x, y | x in mask && x !in left' && y in left' && x < topo.ncpus && y < topo.ncpus
        ensures Before(layout, mask, x, y)
      {
        if x in before {
          assert x in before - left';
          assert y in layout.siblings[cpu] * before ==> y in left' * (layout.siblings[cpu] * before);
          NewlyBefore(layout, topo, mask, left, before, left', socket, first, cpu, x, y);
        }
      }
    }
  }

  lemma NewlyBefore(layout: Layout, topo: Topology, mask: set<nat>, left: set<nat>, before: set<nat>, left': set<nat>,
                    socket: set<nat>, first: nat, cpu: nat, x: nat, y: nat)
    requires layout.Valid(topo) && cpu < topo.ncpus && first < topo.ncpus && x < topo.ncpus && y < topo.ncpus
    requires Grouped(layout, topo) && left' <= before <= left <= mask && Lowest(socket, cpu) && Lowest(left, first)
    requires OneSocket(layout, topo, mask, left, before, socket, first, 1)
    requires before - layout.siblings[cpu] * before <= left' && x in before && x !in left' && y in left'
    requires (y in layout.siblings[cpu] * before ==> x < y) && forall b | b in mask :: b < topo.ncpus
    ensures Before(layout, mask, x, y)
  {
    assert x in layout.siblings[cpu] && layout.siblings[x] == layout.siblings[cpu];
    assert x in layout.sockets[cpu] && layout.sockets[x] == layout.sockets[cpu] == layout.sockets[first];
    if layout.sockets[y] != layout.sockets[first] {
      assert first in layout.sockets[first] * mask;
      forall b | b in layout.sockets[y] * mask
        ensures first < b
      {
        assert layout.sockets[b] == layout.sockets[y] && y in layout.sockets[b];
        assert b in left;
      }
    } else if layout.siblings[y] != layout.siblings[cpu] {
      assert cpu in layout.siblings[cpu] * mask;
      forall b | b in layout.siblings[y] * mask
        ensures cpu < b
      {
        assert layout.siblings[b] == layout.siblings[y] && y in layout.siblings[b];
        assert b in before;
        assert b in layout.sockets[first] * before;
      }
    }
  }

  lemma SocketTaken(layout: Layout, topo: Topology, mask: set<nat>, left: set<nat>, left': set<nat>, socket: set<nat>,
                    first: nat, number: int)
    requires layout.Valid(topo) && first < topo.ncpus && forall x | x in mask :: x < topo.ncpus
    requires OneSocket(layout, topo, mask, left, left', socket, first, number) && (number > 0 ==> socket == {})
    ensures Split(layout, topo, mask, left', number)
  {
    if Grouped(layout, topo) {
      if number > 0 {
        assert forall x | x in left' && x in layout.sockets[first] :: x in socket;
      }
      GroupTaken(layout.sockets, topo, mask, left, left', first, number);
    }
  }

  lemma TakenBound(topo: Topology, mask: set<nat>, left: set<nat>)
    ensures |Taken(topo, mask, left)| <= |mask|
  {
    CardSubset(Taken(topo, mask, left), mask);
  }

  lemma {:induction false} CardSubset(a: set<nat>, b: set<nat>)
    requires a <= b
    ensures |a| <= |b|
    ensures |a| == |b| ==> a == b
  {
    if a != {} {
      var x :| x in a;
      CardSubset(a - {x}, b - {x});
      if |a| == |b| {
        assert a == (a - {x}) + {x} && b == (b - {x}) + {x};
      }
    }
  }

  // ----- the number of partitions

  const WEIGHT_MIN: nat := 4

  /** The count before divisors are considered: the least that leaves 2 * nthr CPUs per partition. */
  ghost predicate Suggested(ncpu: nat, nthr: nat, m: nat) {
    var w := 2 * nthr;
    if ncpu <= WEIGHT_MIN then m == 1 else m >= 2 && ncpu <= w * m && (m == 2 || ncpu > w * (m - 1))
  }

  lemma {:induction false} MulMono(a: nat, b: nat, n: nat)
    requires a <= b
    ensures a * n <= b * n
  {
    if a < b {
      MulMono(a, b - 1, n);
      assert b * n == (b - 1) * n + n;
    }
  }

  method NumSuggest(ncpu: nat, nthr: nat) returns (ncpt: nat)
    requires nthr >= 1
    ensures Suggested(ncpu, nthr, ncpt) && ncpt >= 1
  {
    ncpt := 1;
    if ncpu > WEIGHT_MIN {
      var w := 2 * nthr;
      ncpt := 2;
      while ncpu > w * ncpt
        invariant ncpt >= 2 && (ncpt == 2 || ncpu > w * (ncpt - 1))
        decreases ncpu - w * ncpt
      {
        assert w * (ncpt + 1) == w * ncpt + w;
        ncpt := ncpt + 1;
      }
    }
  }

  /** ncpt is the largest divisor of the CPU count that is not above the suggestion. */
  ghost predicate Estimated(ncpu: nat, nthr: nat, ncpt: nat)
    requires nthr >= 1
  {
    && ncpt >= 1 && ncpu % ncpt == 0
    && exists m :: Suggested(ncpu, nthr, m) && ncpt <= m && NoDivisor(ncpu, ncpt, m)
  }

  /** No number above lo and up to hi divides the CPU count. */
  ghost predicate NoDivisor(ncpu: nat, lo: nat, hi: nat) {
    forall d | lo < d <= hi :: ncpu % d != 0
  }

  lemma DivisorBound(ncpu: nat, ncpt: nat)
    requires ncpu >= 1 && ncpt >= 1 && ncpu % ncpt == 0
    ensures ncpt <= ncpu
  {
  }

  /** cfs_cpt_num_estimate: the largest divisor of the CPU count that is not above the suggestion. */
  method NumEstimate(ncpu: nat, nthr: nat) returns (ncpt: nat)
    requires ncpu >= 1 && nthr >= 1
    ensures 1 <= ncpt <= ncpu && Estimated(ncpu, nthr, ncpt)
  {
    ncpt := NumSuggest(ncpu, nthr);
    ghost var m := ncpt;
    while ncpu % ncpt != 0
      invariant 1 <= ncpt <= m && NoDivisor(ncpu, ncpt, m)
      decreases ncpt
    {
      OneDivides(ncpu);
      ncpt := ncpt - 1;
    }
    DivisorBound(ncpu, ncpt);
  }

  lemma OneDivides(n: nat)
    ensures n % 1 == 0
  {
  }

  // ----- counting CPUs over partitions

  function SumTo(parts: seq<set<nat>>, j: nat): nat
    requires j <= |parts|
  {
    if j == 0 then 0 else SumTo(parts, j - 1) + |parts[j - 1]|
  }

  /** The CPUs of the first j partitions. */
  function Below(cpu2cpt: seq<int>, j: nat): set<nat> {
    set cpu | 0 <= cpu < |cpu2cpt| && 0 <= cpu2cpt[cpu] < j
  }

  lemma {:induction false} SumBelow(topo: Topology, cpu2cpt: seq<int>, cpumask: set<nat>, parts: seq<set<nat>>, j: nat)
    requires CpusOk(topo, cpu2cpt, cpumask, parts) && j <= |parts|
    ensures |Below(cpu2cpt, j)| == SumTo(parts, j)
  {
    if j == 0 {
      assert Below(cpu2cpt, 0) == {};
    } else {
      SumBelow(topo, cpu2cpt, cpumask, parts, j - 1);
      assert CpusOf(topo, cpu2cpt, j - 1, parts[j - 1]);
      assert Below(cpu2cpt, j) == Below(cpu2cpt, j - 1) + parts[j - 1];
      assert Below(cpu2cpt, j - 1) !! parts[j - 1];
    }
  }

  /** How many CPUs partition c is to get. */
  function Target(num: nat, rem: nat, c: nat): nat {
    num + if c < rem then 1 else 0
  }

  lemma {:induction false} SumTargets(parts: seq<set<nat>>, num: nat, rem: nat, j: nat)
    requires j <= |parts| && forall c | 0 <= c < j :: |parts[c]| == Target(num, rem, c)
    ensures SumTo(parts, j) == j * num + if j < rem then j else rem
  {
    if j > 0 {
      SumTargets(parts, num, rem, j - 1);
      assert j * num == (j - 1) * num + num;
    }
  }

  lemma {:induction false} SumEmpty(parts: seq<set<nat>>, i: nat, j: nat)
    requires i <= j <= |parts| && forall c | i <= c < j :: parts[c] == {}
    ensures SumTo(parts, j) == SumTo(parts, i)
  {
    if i < j {
      SumEmpty(parts, i, j - 1);
    }
  }

  /** Partitions before cpt are full, cpt is not, those after it are empty. */
  ghost predicate Filling(parts: seq<set<nat>>, cpt: nat, num: nat, rem: nat) {
    && cpt <= |parts|
    && (forall c | 0 <= c < cpt :: |parts[c]| == Target(num, rem, c))
    && (cpt < |parts| ==> |parts[cpt]| < Target(num, rem, cpt))
    && (forall c | cpt < c < |parts| :: parts[c] == {})
  }

  /** If every online CPU is assigned, all partitions are full; if all are full, every one is. */
  lemma FullIffAll(topo: Topology, cpu2cpt: seq<int>, cpumask: set<nat>, parts: seq<set<nat>>, cpt: nat, num: nat, rem: nat)
    requires CpusOk(topo, cpu2cpt, cpumask, parts) && Filling(parts, cpt, num, rem)
    requires |parts| * num + rem == |topo.online| && rem < |parts|
    ensures cpt == |parts| <==> cpumask == topo.online
  {
    var k := |parts|;
    SumBelow(topo, cpu2cpt, cpumask, parts, k);
    assert Below(cpu2cpt, k) == cpumask;
    SumTargets(parts, num, rem, cpt);
    if cpt == k {
      CardSubset(cpumask, topo.online);
    } else {
      SumEmpty(parts, cpt + 1, k);
      assert SumTo(parts, cpt + 1) == SumTo(parts, cpt) + |parts[cpt]|;
      Steps(k, cpt, num, rem);
    }
  }

  lemma Steps(k: nat, cpt: nat, num: nat, rem: nat)
    requires cpt < k && rem < k
    ensures cpt * num + (if cpt < rem then cpt else rem) + Target(num, rem, cpt) <= k * num + rem
  {
    assert (cpt + 1) * num == cpt * num + num;
    MulMono(cpt + 1, k, num);
  }

  // ----- cfs_cpt_table_create

  /** The node masks are disjoint and cover the online CPUs. */
  ghost predicate NodesPartition(topo: Topology, layout: Layout) {
    && (forall cpu | cpu in topo.online :: cpu < topo.ncpus)
    && (forall cpu | cpu in topo.online :: exists n | 0 <= n < |layout.nodeCpus| :: cpu in layout.nodeCpus[n])
    && (forall m, n | 0 <= m < n < |layout.nodeCpus| :: layout.nodeCpus[m] !! layout.nodeCpus[n])
  }

  /** All online CPUs of the mask have a partition. */
  ghost predicate Assigned(topo: Topology, cpu2cpt: seq<int>, mask: set<nat>) {
    forall cpu | cpu in mask && cpu in topo.online :: cpu < |cpu2cpt| && cpu2cpt[cpu] != -1
  }

  /** Before node n, with `left` of that node's CPUs still to hand out. */
  ghost predicate Sweep(topo: Topology, nodes: seq<set<nat>>, cpu2cpt: seq<int>, n: nat, left: set<nat>, full: bool)
    requires n < |nodes|
  {
    && left <= nodes[n]
    && (full || forall m | 0 <= m < n :: Assigned(topo, cpu2cpt, nodes[m]))
    && Assigned(topo, cpu2cpt, nodes[n] - left)
    && Unassigned(topo, cpu2cpt, left)
    && (forall m | n < m < |nodes| :: Unassigned(topo, cpu2cpt, nodes[m]))
  }

  /** Handing CPUs of node n to partition cpt goes on with the sweep. */
  lemma SweepOn(topo: Topology, nodes: seq<set<nat>>, was: seq<int>, now: seq<int>, n: nat, left: set<nat>, left': set<nat>,
                cpt: nat, full: bool)
    requires n < |nodes| && Sweep(topo, nodes, was, n, left, full)
    requires forall m | n < m < |nodes| :: nodes[n] !! nodes[m]
    requires Moved(topo, was, now, cpt, left, left')
    ensures Sweep(topo, nodes, now, n, left', full)
  {
    forall m | n < m < |nodes|
      ensures Unassigned(topo, now, nodes[m])
    {
      assert Unassigned(topo, was, nodes[m]);
      forall cpu | cpu in nodes[m]
        ensures cpu < topo.ncpus && now[cpu] == -1
      {
        assert cpu !in nodes[n];
      }
    }
    forall m | 0 <= m < n && !full
      ensures Assigned(topo, now, nodes[m])
    {
      assert Assigned(topo, was, nodes[m]);
    }
    forall cpu | cpu in left'
      ensures cpu < topo.ncpus && now[cpu] == -1
    {
      assert cpu in left;
    }
    forall cpu | cpu in nodes[n] - left' && cpu in topo.online
      ensures cpu < |now| && now[cpu] != -1
    {
      assert cpu in left ==> cpu in Taken(topo, left, left');
      assert cpu !in left ==> cpu in nodes[n] - left;
    }
  }

  /** CPUs of an earlier node are in partitions that do not come after those of a later node. */
  ghost predicate NodesInOrder(nodes: seq<set<nat>>, cpu2cpt: seq<int>) {
    forall m, n, a, b {:trigger a in nodes[m], b in nodes[n]} |
      0 <= m < n < |nodes| && a in nodes[m] && b in nodes[n] && a < |cpu2cpt| && b < |cpu2cpt| && cpu2cpt[a] != -1 && cpu2cpt[b] != -1 ::
      cpu2cpt[a] <= cpu2cpt[b]
  }

  /** No CPU is in a partition behind cpt. */
  ghost predicate UpTo(cpu2cpt: seq<int>, cpt: nat) {
    forall cpu | 0 <= cpu < |cpu2cpt| :: cpu2cpt[cpu] <= cpt
  }

  lemma OrderOn(topo: Topology, nodes: seq<set<nat>>, was: seq<int>, now: seq<int>, n: nat, left: set<nat>, left': set<nat>, cpt: nat)
    requires n < |nodes| && Sweep(topo, nodes, was, n, left, false) && NodesInOrder(nodes, was) && UpTo(was, cpt)
    requires forall i, j | 0 <= i < j < |nodes| :: nodes[i] !! nodes[j]
    requires Moved(topo, was, now, cpt, left, left')
    ensures NodesInOrder(nodes, now)
  {
    forall i, j, a, b | 0 <= i < j < |nodes| && a in nodes[i] && b in nodes[j] && a < |now| && b < |now| && now[a] != -1 && now[b] != -1
      ensures now[a] <= now[b]
    {
      var taken := Taken(topo, left, left');
      assert forall cpu | cpu in taken :: cpu in nodes[n];
      assert n < j ==> Unassigned(topo, was, nodes[j]);
      assert a in taken ==> i == n;
      assert b in taken ==> j == n;
    }
  }

  lemma FilledUpTo(topo: Topology, cpu2cpt: seq<int>, cpumask: set<nat>, parts: seq<set<nat>>, cpt: nat, num: nat, rem: nat)
    requires CpusOk(topo, cpu2cpt, cpumask, parts) && Filling(parts, cpt, num, rem)
    ensures UpTo(cpu2cpt, cpt)
  {
    forall cpu | 0 <= cpu < |cpu2cpt|
      ensures cpu2cpt[cpu] <= cpt
    {
      var c := cpu2cpt[cpu];
      assert 0 <= c ==> CpusOf(topo, cpu2cpt, c, parts[c]) && cpu in parts[c];
    }
  }

  /** What the move did to the partition masks. */
  lemma MovedMasks(topo: Topology, was: seq<int>, now: seq<int>, mask0: set<nat>, mask1: set<nat>,
                   parts0: seq<set<nat>>, parts1: seq<set<nat>>, cpt: nat, mask: set<nat>, left: set<nat>)
    requires CpusOk(topo, was, mask0, parts0) && CpusOk(topo, now, mask1, parts1)
    requires |parts0| == |parts1| && cpt < |parts0|
    requires Unassigned(topo, was, mask) && Moved(topo, was, now, cpt, mask, left)
    ensures |parts1[cpt]| == |parts0[cpt]| + |Taken(topo, mask, left)|
    ensures forall c | 0 <= c < |parts0| && c != cpt :: parts1[c] == parts0[c]
  {
    var taken := Taken(topo, mask, left);
    forall c | 0 <= c < |parts0|
      ensures parts1[c] == if c == cpt then parts0[c] + taken else parts0[c]
    {
      assert CpusOf(topo, was, c, parts0[c]) && CpusOf(topo, now, c, parts1[c]);
      assert forall cpu | cpu in taken :: cpu in mask;
    }
    assert CpusOf(topo, was, cpt, parts0[cpt]);
    assert forall cpu | cpu in taken :: cpu in mask && cpu !in parts0[cpt];
    assert parts0[cpt] !! taken;
  }

  /** One call of cfs_cpt_choose_ncpus from cfs_cpt_table_create. */
  method FillStep(t: Table, layout: Layout, n: nat, cpt: nat, left: set<nat>, number: nat) returns (rc: int, left': set<nat>)
    requires t.Valid() && layout.Valid(t.topo) && cpt < t.nparts && number > 0 && n < |layout.nodeCpus|
    requires Sweep(t.topo, layout.nodeCpus, t.cpu2cpt, n, left, false)
    requires NodesInOrder(layout.nodeCpus, t.cpu2cpt) && UpTo(t.cpu2cpt, cpt)
    requires forall i, j | 0 <= i < j < |layout.nodeCpus| :: layout.nodeCpus[i] !! layout.nodeCpus[j]
    modifies t
    ensures t.Valid() && rc >= 0
    ensures Sweep(t.topo, layout.nodeCpus, t.cpu2cpt, n, left', false) && NodesInOrder(layout.nodeCpus, t.cpu2cpt)
    ensures |t.partCpus[cpt]| <= |old(t.partCpus)[cpt]| + number
    ensures left' == {} || |t.partCpus[cpt]| == |old(t.partCpus)[cpt]| + number
    ensures forall c | 0 <= c < t.nparts && c != cpt :: t.partCpus[c] == old(t.partCpus)[c]
  {
    ghost var was, mask0, parts0 := t.cpu2cpt, t.cpumask, t.partCpus;
    rc, left' := ChooseNcpus(t, layout, cpt, left, number);
    SweepOn(t.topo, layout.nodeCpus, was, t.cpu2cpt, n, left, left', cpt, false);
    OrderOn(t.topo, layout.nodeCpus, was, t.cpu2cpt, n, left, left', cpt);
    MovedMasks(t.topo, was, t.cpu2cpt, mask0, t.cpumask, parts0, t.partCpus, cpt, left, left');
  }

  lemma FillingOn(parts0: seq<set<nat>>, parts1: seq<set<nat>>, cpt: nat, num: nat, rem: nat)
    requires Filling(parts0, cpt, num, rem) && |parts0| == |parts1| && cpt < |parts0| && num >= 1
    requires |parts1[cpt]| <= Target(num, rem, cpt)
    requires forall c | 0 <= c < |parts0| && c != cpt :: parts1[c] == parts0[c]
    ensures Filling(parts1, if |parts1[cpt]| == Target(num, rem, cpt) then cpt + 1 else cpt, num, rem)
  {
  }

  /** The loop over the CPUs of one node. */
  method FillNode(t: Table, layout: Layout, n: nat, cpt: nat, num: nat, rem: int, ghost extra: nat)
    returns (rc: int, cpt': nat, rem': int, left: set<nat>)
    requires t.Valid() && layout.Valid(t.topo) && n < |layout.nodeCpus| && num >= 1
    requires Filling(t.partCpus, cpt, num, extra) && rem == extra - cpt
    requires Sweep(t.topo, layout.nodeCpus, t.cpu2cpt, n, layout.nodeCpus[n], cpt == t.nparts)
    requires NodesInOrder(layout.nodeCpus, t.cpu2cpt)
    requires forall i, j | 0 <= i < j < |layout.nodeCpus| :: layout.nodeCpus[i] !! layout.nodeCpus[j]
    modifies t
    ensures NodesInOrder(layout.nodeCpus, t.cpu2cpt)
    ensures t.Valid() && rc >= 0
    ensures Filling(t.partCpus, cpt', num, extra) && rem' == extra - cpt'
    ensures Sweep(t.topo, layout.nodeCpus, t.cpu2cpt, n, left, cpt' == t.nparts)
    ensures cpt' == t.nparts || left == {}
  {
    rc, cpt', rem', left := 0, cpt, rem, layout.nodeCpus[n];
    while cpt' < t.nparts && left != {} && rc >= 0
      invariant t.Valid() && rc >= 0
      invariant Filling(t.partCpus, cpt', num, extra) && rem' == extra - cpt'
      invariant Sweep(t.topo, layout.nodeCpus, t.cpu2cpt, n, left, cpt' == t.nparts)
      invariant NodesInOrder(layout.nodeCpus, t.cpu2cpt)
      decreases t.nparts - cpt', left
    {
      ghost var parts0 := t.partCpus;
      var target := num + if rem' > 0 then 1 else 0;
      FilledUpTo(t.topo, t.cpu2cpt, t.cpumask, t.partCpus, cpt', num, extra);
      rc, left := FillStep(t, layout, n, cpt', left, target - |t.partCpus[cpt']|);
      FillingOn(parts0, t.partCpus, cpt', num, extra);
      if |t.partCpus[cpt']| == target {
        cpt', rem' := cpt' + 1, rem' - 1;
      }
    }
  }

  /** Between two nodes: those before n are handed out, unless all partitions are full; the rest is free. */
  ghost predicate Swept(topo: Topology, nodes: seq<set<nat>>, cpu2cpt: seq<int>, n: nat, full: bool) {
    && |cpu2cpt| == topo.ncpus && n <= |nodes|
    && (full || forall m | 0 <= m < n :: Assigned(topo, cpu2cpt, nodes[m]))
    && (forall m | n <= m < |nodes| :: Unassigned(topo, cpu2cpt, nodes[m]))
  }

  lemma NodeBegins(topo: Topology, nodes: seq<set<nat>>, cpu2cpt: seq<int>, n: nat, full: bool)
    requires Swept(topo, nodes, cpu2cpt, n, full) && n < |nodes|
    ensures Sweep(topo, nodes, cpu2cpt, n, nodes[n], full)
  {
  }

  lemma NodeEnds(topo: Topology, nodes: seq<set<nat>>, cpu2cpt: seq<int>, n: nat, left: set<nat>, full: bool)
    requires n < |nodes| && Sweep(topo, nodes, cpu2cpt, n, left, full) && (full || left == {})
    ensures Swept(topo, nodes, cpu2cpt, n + 1, full)
  {
    if !full {
      assert nodes[n] - left == nodes[n];
    }
  }

  lemma AllAssigned(topo: Topology, layout: Layout, cpu2cpt: seq<int>, cpumask: set<nat>, parts: seq<set<nat>>)
    requires NodesPartition(topo, layout) && CpusOk(topo, cpu2cpt, cpumask, parts)
    requires Swept(topo, layout.nodeCpus, cpu2cpt, |layout.nodeCpus|, false)
    ensures cpumask == topo.online
  {
    forall cpu | cpu in topo.online
      ensures cpu in cpumask
    {
      var n :| 0 <= n < |layout.nodeCpus| && cpu in layout.nodeCpus[n];
      assert Assigned(topo, cpu2cpt, layout.nodeCpus[n]);
    }
  }

  /** Every online CPU is in exactly one partition; the first `rem` partitions have one CPU more. */
  ghost predicate Balanced(t: Table)
    reads t
  {
    && |t.cpu2cpt| == t.topo.ncpus && |t.partCpus| == t.nparts && t.nparts >= 1
    && (forall cpu | 0 <= cpu < t.topo.ncpus :: if cpu in t.topo.online then 0 <= t.cpu2cpt[cpu] < t.nparts else t.cpu2cpt[cpu] == -1)
    && (forall c, cpu | 0 <= c < t.nparts && 0 <= cpu < t.topo.ncpus :: cpu in t.partCpus[c] <==> t.cpu2cpt[cpu] == c)
    && (forall c | 0 <= c < t.nparts ::
          |t.partCpus[c]| == |t.topo.online| / t.nparts + if c < |t.topo.online| % t.nparts then 1 else 0)
  }

  /** After the last node every partition is full and every online CPU assigned. */
  lemma SweptAll(topo: Topology, layout: Layout, cpu2cpt: seq<int>, cpumask: set<nat>, parts: seq<set<nat>>, cpt: nat)
    requires |parts| >= 1 && NodesPartition(topo, layout) && CpusOk(topo, cpu2cpt, cpumask, parts)
    requires Filling(parts, cpt, |topo.online| / |parts|, |topo.online| % |parts|)
    requires Swept(topo, layout.nodeCpus, cpu2cpt, |layout.nodeCpus|, cpt == |parts|)
    ensures cpt == |parts| && cpumask == topo.online
  {
    var num, rem := |topo.online| / |parts|, |topo.online| % |parts|;
    assert |parts| * num + rem == |topo.online|;
    if cpt != |parts| {
      AllAssigned(topo, layout, cpu2cpt, cpumask, parts);
    }
    FullIffAll(topo, cpu2cpt, cpumask, parts, cpt, num, rem);
  }

  lemma BalancedAtEnd(t: Table, layout: Layout, cpt: nat)
    requires t.Valid() && t.nparts >= 1 && NodesPartition(t.topo, layout)
    requires Filling(t.partCpus, cpt, |t.topo.online| / t.nparts, |t.topo.online| % t.nparts)
    requires Swept(t.topo, layout.nodeCpus, t.cpu2cpt, |layout.nodeCpus|, cpt == t.nparts)
    ensures Balanced(t)
  {
    SweptAll(t.topo, layout, t.cpu2cpt, t.cpumask, t.partCpus, cpt);
    forall c, cpu | 0 <= c < t.nparts && 0 <= cpu < t.topo.ncpus
      ensures cpu in t.partCpus[c] <==> t.cpu2cpt[cpu] == c
    {
      assert CpusOf(t.topo, t.cpu2cpt, c, t.partCpus[c]);
    }
    forall cpu | 0 <= cpu < t.topo.ncpus
      ensures if cpu in t.topo.online then 0 <= t.cpu2cpt[cpu] < t.nparts else t.cpu2cpt[cpu] == -1
    {
      assert cpu in t.topo.online <==> cpu in t.cpumask;
    }
  }

  /** The loop over all nodes, filling an empty table. */
  method FillTable(t: Table, layout: Layout) returns (rc: int)
    requires t.Valid() && layout.Valid(t.topo) && NodesPartition(t.topo, layout) && 1 <= t.nparts <= |t.topo.online|
    requires forall cpu | 0 <= cpu < t.topo.ncpus :: t.cpu2cpt[cpu] == -1
    modifies t
    ensures rc >= 0 && t.Valid() && Balanced(t) && NodesInOrder(layout.nodeCpus, t.cpu2cpt)
  {
    var online := |t.topo.online|;
    var num, rem, cpt := online / t.nparts, online % t.nparts, 0;
    assert num >= 1;
    EmptyFilling(t, num, rem);
    ghost var extra := rem;
    rc := 0;
    for n := 0 to |layout.nodeCpus|
      invariant t.Valid() && rc >= 0 && Filling(t.partCpus, cpt, num, extra) && rem == extra - cpt
      invariant Swept(t.topo, layout.nodeCpus, t.cpu2cpt, n, cpt == t.nparts) && NodesInOrder(layout.nodeCpus, t.cpu2cpt)
    {
      NodeBegins(t.topo, layout.nodeCpus, t.cpu2cpt, n, cpt == t.nparts);
      var left;
      rc, cpt, rem, left := FillNode(t, layout, n, cpt, num, rem, extra);
      NodeEnds(t.topo, layout.nodeCpus, t.cpu2cpt, n, left, cpt == t.nparts);
    }
    BalancedAtEnd(t, layout, cpt);
  }

  lemma EmptyFilling(t: Table, num: nat, rem: nat)
    requires t.Valid() && num >= 1 && forall cpu | 0 <= cpu < t.topo.ncpus :: t.cpu2cpt[cpu] == -1
    ensures Filling(t.partCpus, 0, num, rem)
  {
    forall c | 0 <= c < t.nparts
      ensures t.partCpus[c] == {}
    {
      assert CpusOf(t.topo, t.cpu2cpt, c, t.partCpus[c]);
    }
  }

  /**
    cfs_cpt_table_create: refuses more partitions than online CPUs; otherwise the table is
    balanced over all of them.
  */
  method TableCreate(topo: Topology, layout: Layout, wanted: int, nthr: nat) returns (rc: int, t: Table?)
    requires topo.Valid() && layout.Valid(topo) && NodesPartition(topo, layout) && topo.online != {} && nthr >= 1
    ensures rc == (if wanted > |topo.online| then EINVAL else 0)
    ensures t == null <==> rc != 0
    ensures t != null ==> fresh(t) && t.topo == topo && t.Valid() && Balanced(t) && NodesInOrder(layout.nodeCpus, t.cpu2cpt)
    ensures t != null && wanted > 0 ==> t.nparts == wanted
    ensures t != null && wanted <= 0 ==> Estimated(|topo.online|, nthr, t.nparts)
  {
    var ncpt := NumEstimate(|topo.online|, nthr);
    if wanted > 0 {
      ncpt := wanted;
    }
    if ncpt > |topo.online| {
      return EINVAL, null;
    }
    t := NewTable(topo, layout, ncpt);
    return 0, t;
  }

  /** A table of ncpt partitions, filled. */
  method NewTable(topo: Topology, layout: Layout, ncpt: nat) returns (t: Table)
    requires topo.Valid() && layout.Valid(topo) && NodesPartition(topo, layout) && 1 <= ncpt <= |topo.online|
    ensures fresh(t) && t.topo == topo && t.nparts == ncpt && t.Valid() && Balanced(t) && NodesInOrder(layout.nodeCpus, t.cpu2cpt)
  {
    t := new Table(topo, ncpt);
    var filled := FillTable(t, layout);
  }
}
