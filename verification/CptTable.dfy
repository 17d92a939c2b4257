/**
  The CPU partition table (lnet/lnet/lib-cpt.c): cfs_cpt_set_cpu and cfs_cpt_unset_cpu keep masks,
  reverse maps and NUMA distances cached. Valid() says that every cached field equals what a
  recomputation from ctb_cpu2cpt would give.
*/
module CptTable {

  const CPT_ANY: int := -1
  /** What memset(-1) leaves in an unsigned distance. */
  const UNSET_DISTANCE: nat := 0xFFFF_FFFF

  /** The machine: which CPUs are online, the node of a CPU, the distance of two nodes. */
  datatype Topology = Topology(ncpus: nat, nnodes: nat, online: set<nat>, nodes: seq<nat>, dists: seq<seq<nat>>)
  {
    ghost predicate Valid() {
      && |nodes| == ncpus && |dists| == nnodes
      && (forall cpu | 0 <= cpu < ncpus :: nodes[cpu] < nnodes)
      && (forall n | 0 <= n < nnodes :: |dists[n]| == nnodes)
    }

    /** cpu_to_node. */
    function Node(cpu: nat): nat {
      if cpu < |nodes| then nodes[cpu] else 0
    }

    /** node_distance. */
    function Dist(from: nat, to: nat): nat {
      if from < |dists| && to < |dists[from]| then dists[from][to] else 0
    }

    /** Some CPU of the mask belongs to node n. */
    ghost predicate Holds(cpus: set<nat>, n: nat) {
      exists cpu | cpu in cpus :: Node(cpu) == n
    }

    /** d is the largest distance from a node of `from` to a node of `to`, zero if there is none. */
    ghost predicate IsMax(from: set<nat>, to: set<nat>, d: nat) {
      && (forall x, y {:trigger Dist(x, y)} | x in from && y in to :: Dist(x, y) <= d)
      && (d == 0 || exists x, y {:trigger Dist(x, y)} | x in from && y in to :: Dist(x, y) == d)
    }
  }

  lemma MaxUnique(topo: Topology, from: set<nat>, to: set<nat>, d: nat, e: nat)
    requires topo.IsMax(from, to, d) && topo.IsMax(from, to, e)
    ensures d == e
  {
  }

  lemma HoldsAdd(topo: Topology, cpus: set<nat>, cpu: nat, n: nat)
    ensures topo.Holds(cpus + {cpu}, n) <==> topo.Holds(cpus, n) || n == topo.Node(cpu)
  {
    if topo.Holds(cpus, n) {
      var x :| x in cpus && topo.Node(x) == n;
      assert x in cpus + {cpu};
    }
    assert cpu in cpus + {cpu};
  }

  lemma HoldsDel(topo: Topology, cpus: set<nat>, cpu: nat, n: nat)
    requires n != topo.Node(cpu)
    ensures topo.Holds(cpus - {cpu}, n) <==> topo.Holds(cpus, n)
  {
    if topo.Holds(cpus, n) {
      var x :| x in cpus && topo.Node(x) == n;
      assert x in cpus - {cpu};
    }
  }

  /** cfs_cpt_distance_calculate. */
  method DistanceCalculate(topo: Topology, from: set<nat>, to: set<nat>) returns (maximum: nat)
    requires forall n | n in from :: n < topo.nnodes
    requires forall n | n in to :: n < topo.nnodes
    ensures topo.IsMax(from, to, maximum)
  {
    maximum := 0;
    for f := 0 to topo.nnodes
      invariant forall x, y | x in from && y in to && x < f :: topo.Dist(x, y) <= maximum
      invariant maximum == 0 || exists x, y | x in from && y in to :: topo.Dist(x, y) == maximum
    {
      if f in from {
        for t := 0 to topo.nnodes
          invariant forall x, y | x in from && y in to && x < f :: topo.Dist(x, y) <= maximum
          invariant forall y | y in to && y < t :: topo.Dist(f, y) <= maximum
          invariant maximum == 0 || exists x, y | x in from && y in to :: topo.Dist(x, y) == maximum
        {
          if t in to && maximum < topo.Dist(f, t) {
            maximum := topo.Dist(f, t);
          }
        }
      }
    }
  }

  /** The for_each_cpu loops of cfs_cpt_del_node. */
  method FindCpuOnNode(topo: Topology, cpus: set<nat>, node: nat) returns (found: bool)
    requires forall cpu | cpu in cpus :: cpu < topo.ncpus
    ensures found <==> topo.Holds(cpus, node)
  {
    for cpu := 0 to topo.ncpus
      invariant forall x | x in cpus && x < cpu :: topo.Node(x) != node
    {
      if cpu in cpus && topo.Node(cpu) == node {
        return true;
      }
    }
    return false;
  }

  // ----- what the cached fields must be, given the assignment

  /** The mask holds exactly the CPUs assigned to partition c. */
  ghost predicate CpusOf(topo: Topology, cpu2cpt: seq<int>, c: nat, cpus: set<nat>)
    requires |cpu2cpt| == topo.ncpus
  {
    forall cpu :: cpu in cpus <==> 0 <= cpu < topo.ncpus && cpu2cpt[cpu] == c
  }

  /** CPU masks are disjoint, inside the online CPUs, and inverse to cpu2cpt. */
  ghost predicate CpusOk(topo: Topology, cpu2cpt: seq<int>, cpumask: set<nat>, partCpus: seq<set<nat>>) {
    && |cpu2cpt| == topo.ncpus
    && (forall cpu | 0 <= cpu < topo.ncpus :: -1 <= cpu2cpt[cpu] < |partCpus|)
    && (forall cpu :: cpu in cpumask <==> 0 <= cpu < topo.ncpus && cpu2cpt[cpu] != -1)
    && (forall c | 0 <= c < |partCpus| :: CpusOf(topo, cpu2cpt, c, partCpus[c]))
    && cpumask <= topo.online
  }

  /** The node mask is the set of nodes of the CPUs in the CPU mask. */
  ghost predicate NodesOf(topo: Topology, cpus: set<nat>, nodes: set<nat>) {
    forall n {:trigger topo.Holds(cpus, n)} :: n in nodes <==> topo.Holds(cpus, n)
  }

  ghost predicate PartNodesOk(topo: Topology, partCpus: seq<set<nat>>, partNodes: seq<set<nat>>) {
    && |partCpus| == |partNodes|
    && (forall c | 0 <= c < |partCpus| :: NodesOf(topo, partCpus[c], partNodes[c]))
  }

  /** node2cpt names a partition that holds the node, and is -1 for nodes outside the table. */
  ghost predicate NodeMapOk(topo: Topology, nodemask: set<nat>, node2cpt: seq<int>, partNodes: seq<set<nat>>) {
    && |node2cpt| == topo.nnodes
    && (forall n | 0 <= n < topo.nnodes ::
          if n in nodemask then 0 <= node2cpt[n] < |partNodes| && n in partNodes[node2cpt[n]] else node2cpt[n] == -1)
  }

  ghost predicate Square(partDist: seq<seq<nat>>) {
    forall a | 0 <= a < |partDist| :: |partDist[a]| == |partDist|
  }

  ghost predicate PairOk(topo: Topology, partNodes: seq<set<nat>>, partDist: seq<seq<nat>>, touched: set<nat>,
                         a: nat, b: nat)
    requires Square(partDist) && |partNodes| == |partDist| && a < |partDist| && b < |partDist|
  {
    if a in touched || b in touched then topo.IsMax(partNodes[a], partNodes[b], partDist[a][b])
    else partDist[a][b] == UNSET_DISTANCE
  }

  /** A pair distance is the recomputed maximum once either side held a CPU, and unset before. */
  ghost predicate PairsOk(topo: Topology, partNodes: seq<set<nat>>, partDist: seq<seq<nat>>, touched: set<nat>) {
    && Square(partDist) && |partNodes| == |partDist|
    && (forall a, b | 0 <= a < |partDist| && 0 <= b < |partDist| :: PairOk(topo, partNodes, partDist, touched, a, b))
    && (forall c | 0 <= c < |partNodes| && c !in touched :: partNodes[c] == {})
  }

  ghost predicate Bounded(topo: Topology, nodes: set<nat>) {
    forall n | n in nodes :: n < topo.nnodes
  }

  ghost predicate PartsBounded(topo: Topology, partNodes: seq<set<nat>>) {
    forall c | 0 <= c < |partNodes| :: Bounded(topo, partNodes[c])
  }

  /** Row and column `cpt` of the distances are computed, the rest is as in `was`. */
  ghost predicate Refreshed(topo: Topology, partNodes: seq<set<nat>>, was: seq<seq<nat>>, now: seq<seq<nat>>,
                            cpt: nat, done: nat) {
    && Square(was) && Square(now) && |was| == |now| == |partNodes| && cpt < |now| && done <= |now|
    && (forall b | 0 <= b < done :: topo.IsMax(partNodes[cpt], partNodes[b], now[cpt][b]))
    && (forall a | 0 <= a < done :: topo.IsMax(partNodes[a], partNodes[cpt], now[a][cpt]))
    && (forall a, b | 0 <= a < |now| && 0 <= b < |now| && a != cpt && b != cpt :: now[a][b] == was[a][b])
  }

  lemma PairsAfterRefresh(topo: Topology, partNodes0: seq<set<nat>>, dist0: seq<seq<nat>>, touched: set<nat>,
                          partNodes: seq<set<nat>>, dist: seq<seq<nat>>, cpt: nat)
    requires PairsOk(topo, partNodes0, dist0, touched)
    requires |partNodes| == |partNodes0| && cpt < |partNodes|
    requires forall c | 0 <= c < |partNodes| && c != cpt :: partNodes[c] == partNodes0[c]
    requires Refreshed(topo, partNodes, dist0, dist, cpt, |dist|)
    ensures PairsOk(topo, partNodes, dist, touched + {cpt})
  {
    forall a, b | 0 <= a < |dist| && 0 <= b < |dist|
      ensures PairOk(topo, partNodes, dist, touched + {cpt}, a, b)
    {
      assert PairOk(topo, partNodes0, dist0, touched, a, b);
    }
  }

  lemma NodesBounded(topo: Topology, cpus: set<nat>, nodes: set<nat>)
    requires topo.Valid() && NodesOf(topo, cpus, nodes) && forall cpu | cpu in cpus :: cpu < topo.ncpus
    ensures Bounded(topo, nodes)
  {
    forall n | n in nodes
      ensures n < topo.nnodes
    {
      assert topo.Holds(cpus, n);
      var cpu :| cpu in cpus && topo.Node(cpu) == n;
    }
  }

  lemma NodesAfterAdd(topo: Topology, cpus: set<nat>, nodes: set<nat>, cpu: nat)
    requires NodesOf(topo, cpus, nodes)
    ensures NodesOf(topo, cpus + {cpu}, nodes + {topo.Node(cpu)})
  {
    forall n
      ensures n in nodes + {topo.Node(cpu)} <==> topo.Holds(cpus + {cpu}, n)
    {
      HoldsAdd(topo, cpus, cpu, n);
    }
  }

  lemma NodesAfterDel(topo: Topology, cpus: set<nat>, nodes: set<nat>, cpu: nat)
    requires NodesOf(topo, cpus, nodes)
    ensures var left := cpus - {cpu}; var node := topo.Node(cpu);
            NodesOf(topo, left, if topo.Holds(left, node) then nodes else nodes - {node})
  {
    var left, node := cpus - {cpu}, topo.Node(cpu);
    if topo.Holds(left, node) {
      assert topo.Holds(cpus, node);
    }
    forall n | n != node
      ensures topo.Holds(left, n) <==> topo.Holds(cpus, n)
    {
      HoldsDel(topo, cpus, cpu, n);
    }
  }

  lemma PartNodesUpdate(topo: Topology, partCpus: seq<set<nat>>, partNodes: seq<set<nat>>, c: nat,
                        cpus: set<nat>, nodes: set<nat>)
    requires PartNodesOk(topo, partCpus, partNodes) && c < |partCpus| && NodesOf(topo, cpus, nodes)
    ensures PartNodesOk(topo, partCpus[c := cpus], partNodes[c := nodes])
  {
  }

  lemma NodeMapAfterAdd(topo: Topology, nodemask: set<nat>, node2cpt: seq<int>, partNodes: seq<set<nat>>,
                        cpt: nat, node: nat)
    requires NodeMapOk(topo, nodemask, node2cpt, partNodes) && cpt < |partNodes| && node < topo.nnodes
    ensures NodeMapOk(topo, nodemask + {node}, if node in nodemask then node2cpt else node2cpt[node := cpt],
                      partNodes[cpt := partNodes[cpt] + {node}])
  {
  }

  /** A node is somewhere in the table exactly when some partition has it. */
  lemma TableNodesSplit(topo: Topology, cpu2cpt: seq<int>, cpumask: set<nat>, partCpus: seq<set<nat>>, n: nat)
    requires CpusOk(topo, cpu2cpt, cpumask, partCpus)
    ensures topo.Holds(cpumask, n) <==> exists c | 0 <= c < |partCpus| :: topo.Holds(partCpus[c], n)
  {
    if topo.Holds(cpumask, n) {
      var cpu :| cpu in cpumask && topo.Node(cpu) == n;
      assert CpusOf(topo, cpu2cpt, cpu2cpt[cpu], partCpus[cpu2cpt[cpu]]);
      assert topo.Holds(partCpus[cpu2cpt[cpu]], n);
    }
    if c :| 0 <= c < |partCpus| && topo.Holds(partCpus[c], n) {
      assert CpusOf(topo, cpu2cpt, c, partCpus[c]);
      var cpu :| cpu in partCpus[c] && topo.Node(cpu) == n;
      assert cpu in cpumask;
    }
  }

  function NodeTo(node2cpt: seq<int>, node: nat, cpt: int): seq<int> {
    if node < |node2cpt| then node2cpt[node := cpt] else node2cpt
  }

  /** Partition c is the last one that has the node. */
  ghost predicate LastWith(partNodes: seq<set<nat>>, node: nat, c: int) {
    0 <= c < |partNodes| && node in partNodes[c] && forall d | c < d < |partNodes| :: node !in partNodes[d]
  }

  /** Only the entry of this node changes. */
  ghost predicate SameBut(was: seq<int>, now: seq<int>, node: nat) {
    |now| == |was| && forall n | 0 <= n < |was| && n != node :: now[n] == was[n]
  }

  class Table {
    const topo: Topology
    const nparts: nat
    var cpu2cpt: seq<int>
    var cpumask: set<nat>
    var nodemask: set<nat>
    var node2cpt: seq<int>
    var distance: nat
    var partCpus: seq<set<nat>>
    var partNodes: seq<set<nat>>
    var partDist: seq<seq<nat>>
    /** The partitions that ever held a CPU. */
    ghost var touched: set<nat>

    ghost predicate Valid()
      reads this
    {
      && topo.Valid() && |partCpus| == nparts && |partDist| == nparts
      && CpusOk(topo, cpu2cpt, cpumask, partCpus)
      && NodesOf(topo, cpumask, nodemask)
      && PartNodesOk(topo, partCpus, partNodes)
      && NodeMapOk(topo, nodemask, node2cpt, partNodes)
      && topo.IsMax(nodemask, nodemask, distance)
      && PairsOk(topo, partNodes, partDist, touched)
    }

    /** cfs_cpt_table_alloc. */
    constructor (topo: Topology, nparts: nat)
      requires topo.Valid()
      ensures Valid() && this.topo == topo && this.nparts == nparts
      ensures touched == {} && forall cpu | 0 <= cpu < topo.ncpus :: cpu2cpt[cpu] == -1
    {
      this.topo, this.nparts := topo, nparts;
      cpu2cpt := seq(topo.ncpus, _ => -1);
      node2cpt := seq(topo.nnodes, _ => -1);
      cpumask, nodemask, distance := {}, {}, 0;
      partCpus := seq(nparts, _ => {});
      partNodes := seq(nparts, _ => {});
      partDist := seq(nparts, _ => seq(nparts, _ => UNSET_DISTANCE));
      touched := {};
    }

    /** Row and column `cpt` of the pair distances, computed afresh. */
    method RefreshPairs(cpt: nat)
      requires Square(partDist) && |partDist| == |partNodes| == nparts && cpt < nparts && PartsBounded(topo, partNodes)
      modifies `partDist
      ensures Refreshed(topo, partNodes, old(partDist), partDist, cpt, nparts)
    {
      for cpt2 := 0 to nparts
        invariant Refreshed(topo, partNodes, old(partDist), partDist, cpt, cpt2)
      {
        var there := DistanceCalculate(topo, partNodes[cpt], partNodes[cpt2]);
        partDist := partDist[cpt := partDist[cpt][cpt2 := there]];
        var back := DistanceCalculate(topo, partNodes[cpt2], partNodes[cpt]);
        if cpt2 == cpt {
          MaxUnique(topo, partNodes[cpt], partNodes[cpt], there, back);
        }
        partDist := partDist[cpt2 := partDist[cpt2][cpt := back]];
      }
    }

    /** cfs_cpt_add_cpu. */
    method AddCpu(cpt: nat, cpu: nat)
      requires CpusOk(topo, cpu2cpt, cpumask, partCpus) && cpt < |partCpus|
      requires cpu < topo.ncpus && cpu in topo.online && cpu2cpt[cpu] == -1
      modifies `cpu2cpt, `cpumask, `partCpus
      ensures CpusOk(topo, cpu2cpt, cpumask, partCpus)
      ensures cpu2cpt == old(cpu2cpt)[cpu := cpt]
      ensures cpumask == old(cpumask) + {cpu}
      ensures partCpus == old(partCpus)[cpt := old(partCpus)[cpt] + {cpu}]
    {
      cpu2cpt := cpu2cpt[cpu := cpt];
      cpumask := cpumask + {cpu};
      partCpus := partCpus[cpt := partCpus[cpt] + {cpu}];
    }

    /** cfs_cpt_del_cpu. */
    method DelCpu(cpt: nat, cpu: nat)
      requires CpusOk(topo, cpu2cpt, cpumask, partCpus) && cpt < |partCpus|
      requires cpu < topo.ncpus && cpu2cpt[cpu] == cpt
      modifies `cpu2cpt, `cpumask, `partCpus
      ensures CpusOk(topo, cpu2cpt, cpumask, partCpus)
      ensures cpu2cpt == old(cpu2cpt)[cpu := -1]
      ensures cpumask == old(cpumask) - {cpu}
      ensures partCpus == old(partCpus)[cpt := old(partCpus)[cpt] - {cpu}]
    {
      partCpus := partCpus[cpt := partCpus[cpt] - {cpu}];
      cpumask := cpumask - {cpu};
      cpu2cpt := cpu2cpt[cpu := -1];
    }

    /** The first half of cfs_cpt_add_node: the node joins the table. */
    method NodeJoinsTable(cpt: nat, node: nat)
      requires Bounded(topo, nodemask) && topo.IsMax(nodemask, nodemask, distance)
      requires |node2cpt| == topo.nnodes && node < topo.nnodes
      modifies `nodemask, `node2cpt, `distance
      ensures nodemask == old(nodemask) + {node}
      ensures node2cpt == if node in old(nodemask) then old(node2cpt) else old(node2cpt)[node := cpt]
      ensures topo.IsMax(nodemask, nodemask, distance)
    {
      if node !in nodemask {
        nodemask := nodemask + {node};
        node2cpt := node2cpt[node := cpt];
        distance := DistanceCalculate(topo, nodemask, nodemask);
      } else {
        assert nodemask == nodemask + {node};
      }
    }

    /** The second half of cfs_cpt_add_node: the node joins the partition. */
    method NodeJoinsPart(cpt: nat, node: nat)
      requires PairsOk(topo, partNodes, partDist, touched) && |partDist| == nparts
      requires PartsBounded(topo, partNodes) && cpt < nparts && node < topo.nnodes
      modifies `partNodes, `partDist, `touched
      ensures partNodes == old(partNodes)[cpt := old(partNodes)[cpt] + {node}]
      ensures touched == old(touched) + {cpt}
      ensures PairsOk(topo, partNodes, partDist, touched)
    {
      if node !in partNodes[cpt] {
        partNodes := partNodes[cpt := partNodes[cpt] + {node}];
        assert forall c | 0 <= c < |partNodes| :: Bounded(topo, old(partNodes)[c]);
        RefreshPairs(cpt);
        PairsAfterRefresh(topo, old(partNodes), old(partDist), touched, partNodes, partDist, cpt);
        touched := touched + {cpt};
      } else {
        assert touched == touched + {cpt};
        assert partNodes[cpt] == partNodes[cpt] + {node};
      }
    }

    /** The partition loop of cfs_cpt_del_node that finds the node another partition. */
    method ReassignNode(node: nat)
      requires |node2cpt| == topo.nnodes && node < topo.nnodes && |partNodes| == nparts
      modifies `node2cpt
      ensures SameBut(old(node2cpt), node2cpt, node)
      ensures if exists c | 0 <= c < nparts :: node in partNodes[c] then LastWith(partNodes, node, node2cpt[node])
              else node2cpt[node] == old(node2cpt[node])
    {
      for cpt2 := 0 to nparts
        invariant SameBut(old(node2cpt), node2cpt, node)
        invariant if exists c | 0 <= c < cpt2 :: node in partNodes[c]
                  then 0 <= node2cpt[node] < cpt2 && node in partNodes[node2cpt[node]] &&
                       forall d | node2cpt[node] < d < cpt2 :: node !in partNodes[d]
                  else node2cpt[node] == old(node2cpt[node])
      {
        if node in partNodes[cpt2] {
          node2cpt := node2cpt[node := cpt2];
        }
      }
    }

    /** The first half of cfs_cpt_del_node: the node leaves the partition if no CPU keeps it there. */
    method NodeLeavesPart(cpt: nat, node: nat)
      requires PairsOk(topo, partNodes, partDist, touched) && |partDist| == nparts && |partCpus| == nparts
      requires PartsBounded(topo, partNodes) && cpt < nparts && cpt in touched && node in partNodes[cpt]
      requires |node2cpt| == topo.nnodes && node < topo.nnodes
      requires forall cpu | cpu in partCpus[cpt] :: cpu < topo.ncpus
      modifies `partNodes, `partDist, `node2cpt
      ensures partNodes == old(partNodes)[cpt := if topo.Holds(partCpus[cpt], node) then old(partNodes)[cpt]
                                                 else old(partNodes)[cpt] - {node}]
      ensures PairsOk(topo, partNodes, partDist, touched)
      ensures SameBut(old(node2cpt), node2cpt, node)
      ensures if !topo.Holds(partCpus[cpt], node) && exists c | 0 <= c < nparts :: node in partNodes[c]
              then LastWith(partNodes, node, node2cpt[node])
              else node2cpt[node] == old(node2cpt[node])
    {
      var found := FindCpuOnNode(topo, partCpus[cpt], node);
      if !found && node in partNodes[cpt] {
        partNodes := partNodes[cpt := partNodes[cpt] - {node}];
        assert forall c | 0 <= c < |partNodes| :: Bounded(topo, old(partNodes)[c]);
        ReassignNode(node);
        RefreshPairs(cpt);
        PairsAfterRefresh(topo, old(partNodes), old(partDist), touched, partNodes, partDist, cpt);
        assert touched == touched + {cpt};
      }
    }

    /** The second half: the node leaves the table if no CPU keeps it there. */
    method NodeLeavesTable(node: nat)
      requires Bounded(topo, nodemask) && topo.IsMax(nodemask, nodemask, distance)
      requires |node2cpt| == topo.nnodes && node < topo.nnodes && node in nodemask
      requires forall cpu | cpu in cpumask :: cpu < topo.ncpus
      modifies `nodemask, `node2cpt, `distance
      ensures nodemask == if topo.Holds(cpumask, node) then old(nodemask) else old(nodemask) - {node}
      ensures node2cpt == if topo.Holds(cpumask, node) then old(node2cpt) else old(node2cpt)[node := -1]
      ensures topo.IsMax(nodemask, nodemask, distance)
    {
      var found := FindCpuOnNode(topo, cpumask, node);
      if !found && node in nodemask {
        nodemask := nodemask - {node};
        node2cpt := node2cpt[node := -1];
        distance := DistanceCalculate(topo, nodemask, nodemask);
      }
    }

    lemma AllBounded()
      requires Valid()
      ensures PartsBounded(topo, partNodes) && Bounded(topo, nodemask)
    {
      NodesBounded(topo, cpumask, nodemask);
      forall c | 0 <= c < nparts
        ensures Bounded(topo, partNodes[c])
      {
        assert CpusOf(topo, cpu2cpt, c, partCpus[c]);
        NodesBounded(topo, partCpus[c], partNodes[c]);
      }
    }

    /**
      cfs_cpt_set_cpu: takes an online CPU that is in no partition; every cached field then agrees
      with the new assignment.
    */
    method SetCpu(cpt: nat, cpu: int) returns (ok: bool)
      requires Valid() && cpt < nparts
      modifies this
      ensures Valid()
      ensures ok <==> 0 <= cpu < topo.ncpus && cpu in topo.online && old(cpu2cpt)[cpu] == -1
      ensures ok ==> cpu2cpt == old(cpu2cpt)[cpu := cpt] && touched == old(touched) + {cpt}
      ensures ok ==> node2cpt == if topo.Node(cpu) in old(nodemask) then old(node2cpt) else NodeTo(old(node2cpt), topo.Node(cpu), cpt)
      ensures !ok ==> unchanged(this)
    {
      ok := 0 <= cpu < topo.ncpus && cpu in topo.online;
      if ok {
        ok := cpu2cpt[cpu] == -1 && cpu !in cpumask && cpu !in partCpus[cpt];
      }
      if ok {
        InsertCpu(cpt, cpu);
      }
    }

    /** Every field but those of the partition's nodes, which are to follow. */
    ghost predicate AlmostValid(newNodes: seq<set<nat>>)
      reads this
    {
      && topo.Valid() && |partCpus| == nparts && |partDist| == nparts
      && CpusOk(topo, cpu2cpt, cpumask, partCpus)
      && NodesOf(topo, cpumask, nodemask)
      && PartNodesOk(topo, partCpus, newNodes)
      && NodeMapOk(topo, nodemask, node2cpt, newNodes)
      && topo.IsMax(nodemask, nodemask, distance)
    }

    /** What the masks will be once `cpu` is in partition `cpt`. */
    ghost predicate CanJoin(cpt: nat, cpu: nat)
      reads this
    {
      var node := topo.Node(cpu);
      && cpt < |partCpus| && cpt < |partNodes|
      && NodesOf(topo, cpumask + {cpu}, nodemask + {node})
      && PartNodesOk(topo, partCpus[cpt := partCpus[cpt] + {cpu}], partNodes[cpt := partNodes[cpt] + {node}])
      && NodeMapOk(topo, nodemask + {node}, if node in nodemask then node2cpt else NodeTo(node2cpt, node, cpt),
                   partNodes[cpt := partNodes[cpt] + {node}])
    }

    lemma JoinPrepared(cpt: nat, cpu: nat)
      requires Valid() && cpt < nparts && cpu < topo.ncpus
      ensures CanJoin(cpt, cpu)
    {
      NodesAfterAdd(topo, cpumask, nodemask, cpu);
      NodesAfterAdd(topo, partCpus[cpt], partNodes[cpt], cpu);
      var node := topo.Node(cpu);
      PartNodesUpdate(topo, partCpus, partNodes, cpt, partCpus[cpt] + {cpu}, partNodes[cpt] + {node});
      NodeMapAfterAdd(topo, nodemask, node2cpt, partNodes, cpt, node);
    }

    method CpuJoinsTable(cpt: nat, cpu: nat)
      requires topo.Valid() && |partCpus| == nparts && |partDist| == nparts && CanJoin(cpt, cpu)
      requires CpusOk(topo, cpu2cpt, cpumask, partCpus) && topo.IsMax(nodemask, nodemask, distance)
      requires Bounded(topo, nodemask) && |node2cpt| == topo.nnodes
      requires cpu < topo.ncpus && cpu in topo.online && cpu2cpt[cpu] == -1
      modifies `cpu2cpt, `cpumask, `partCpus, `nodemask, `node2cpt, `distance
      ensures AlmostValid(partNodes[cpt := partNodes[cpt] + {topo.Node(cpu)}])
      ensures cpu2cpt == old(cpu2cpt)[cpu := cpt]
      ensures node2cpt == if topo.Node(cpu) in old(nodemask) then old(node2cpt) else NodeTo(old(node2cpt), topo.Node(cpu), cpt)
    {
      AddCpu(cpt, cpu);
      NodeJoinsTable(cpt, topo.Node(cpu));
    }

    method InsertCpu(cpt: nat, cpu: nat)
      requires Valid() && cpt < nparts && cpu < topo.ncpus && cpu in topo.online && cpu2cpt[cpu] == -1
      modifies this
      ensures Valid() && touched == old(touched) + {cpt} && cpu2cpt == old(cpu2cpt)[cpu := cpt]
      ensures node2cpt == if topo.Node(cpu) in old(nodemask) then old(node2cpt) else NodeTo(old(node2cpt), topo.Node(cpu), cpt)
    {
      AllBounded();
      JoinPrepared(cpt, cpu);
      CpuJoinsTable(cpt, cpu);
      NodeJoinsPart(cpt, topo.Node(cpu));
    }

    lemma PartTouched(c: nat, cpu: nat)
      requires Valid() && c < nparts && cpu < topo.ncpus && cpu2cpt[cpu] == c
      ensures c in touched && cpu in partCpus[c] && cpu in cpumask
      ensures topo.Node(cpu) in partNodes[c] && topo.Node(cpu) in nodemask && topo.Node(cpu) < topo.nnodes
    {
      assert CpusOf(topo, cpu2cpt, c, partCpus[c]);
      assert topo.Holds(partCpus[c], topo.Node(cpu));
      assert topo.Holds(cpumask, topo.Node(cpu));
      AllBounded();
    }

    /** cfs_cpt_unset_cpu: takes the CPU out of its partition, or of any if cpt is CPT_ANY. */
    method UnsetCpu(cpt: int, cpu: int)
      requires Valid() && (cpt == CPT_ANY || 0 <= cpt < nparts)
      modifies this
      ensures Valid() && touched == old(touched)
      ensures var there := 0 <= cpu < topo.ncpus && old(cpu2cpt)[cpu] != -1 && (cpt == CPT_ANY || cpt == old(cpu2cpt)[cpu]);
              if there then cpu2cpt == old(cpu2cpt)[cpu := -1] && NodeLeft(old(node2cpt), old(cpu2cpt)[cpu], topo.Node(cpu))
              else unchanged(this)
    {
      if 0 <= cpu < topo.ncpus {
        var part := if cpt == CPT_ANY then cpu2cpt[cpu] else cpt;
        if part >= 0 && part == cpu2cpt[cpu] {
          // both assertions of the source
          PartTouched(part, cpu);
          assert cpu in partCpus[part] && cpu in cpumask;
          RemoveCpu(part, cpu);
        }
      }
    }

    /** Some partition other than `part` has the node. */
    ghost predicate Elsewhere(part: nat, node: nat)
      reads this
    {
      exists c | 0 <= c < |partNodes| && c != part :: node in partNodes[c]
    }

    /**
      node2cpt after a CPU of the node left partition `part`: the node keeps its partition while `part`
      still has it, then goes to the last partition that has it, and to none when it leaves the table.
    */
    ghost predicate NodeLeft(was: seq<int>, part: nat, node: nat)
      reads this
    {
      && SameBut(was, node2cpt, node) && part < |partCpus| && node < |was|
      && (if !topo.Holds(cpumask, node) then node2cpt[node] == -1
          else if topo.Holds(partCpus[part], node) then node2cpt[node] == was[node]
          else LastWith(partNodes, node, node2cpt[node]))
    }

    /** cfs_cpt_del_node. */
    method DelNode(part: nat, node: nat)
      requires |partDist| == nparts && |partCpus| == nparts && part < nparts && part in touched && node < topo.nnodes
      requires PairsOk(topo, partNodes, partDist, touched) && PartsBounded(topo, partNodes)
      requires Bounded(topo, nodemask) && topo.IsMax(nodemask, nodemask, distance)
      requires node in partNodes[part] && node in nodemask
      requires forall cpu | cpu in partCpus[part] :: cpu < topo.ncpus
      requires forall cpu | cpu in cpumask :: cpu < topo.ncpus
      requires NodeMapOk(topo, nodemask, node2cpt, partNodes)
      requires topo.Holds(cpumask, node) ==> topo.Holds(partCpus[part], node) || Elsewhere(part, node)
      modifies `partNodes, `partDist, `nodemask, `node2cpt, `distance
      ensures partNodes == old(partNodes)[part := if topo.Holds(partCpus[part], node) then old(partNodes)[part]
                                                  else old(partNodes)[part] - {node}]
      ensures nodemask == if topo.Holds(cpumask, node) then old(nodemask) else old(nodemask) - {node}
      ensures NodeMapOk(topo, nodemask, node2cpt, partNodes)
      ensures NodeLeft(old(node2cpt), part, node)
      ensures topo.IsMax(nodemask, nodemask, distance)
      ensures PairsOk(topo, partNodes, partDist, touched)
    {
      ghost var other: nat := part;
      if Elsewhere(part, node) {
        other :| 0 <= other < |partNodes| && other != part && node in partNodes[other];
      }
      NodeLeavesPart(part, node);
      assert other != part ==> node in partNodes[other];
      NodeLeavesTable(node);
    }

    method RemoveCpu(part: nat, cpu: nat)
      requires Valid() && part < nparts && cpu < topo.ncpus && cpu2cpt[cpu] == part
      modifies this
      ensures Valid() && touched == old(touched) && cpu2cpt == old(cpu2cpt)[cpu := -1]
      ensures NodeLeft(old(node2cpt), part, topo.Node(cpu))
    {
      var node := topo.Node(cpu);
      AllBounded();
      PartTouched(part, cpu);
      NodesAfterDel(topo, cpumask, nodemask, cpu);
      NodesAfterDel(topo, partCpus[part], partNodes[part], cpu);
      DelCpu(part, cpu);
      assert CpusOf(topo, cpu2cpt, part, partCpus[part]);
      StillThere(part, node);
      DelNode(part, node);
    }

    lemma StillThere(part: nat, node: nat)
      requires CpusOk(topo, cpu2cpt, cpumask, partCpus) && |partNodes| == |partCpus|
      requires forall c | 0 <= c < |partCpus| && c != part :: NodesOf(topo, partCpus[c], partNodes[c])
      requires part < |partCpus|
      ensures topo.Holds(cpumask, node) ==> topo.Holds(partCpus[part], node) || Elsewhere(part, node)
    {
      TableNodesSplit(topo, cpu2cpt, cpumask, partCpus, node);
    }
  }

  lemma SameNodes(topo: Topology, cpus: set<nat>, a: set<nat>, b: set<nat>)
    requires NodesOf(topo, cpus, a) && NodesOf(topo, cpus, b)
    ensures a == b
  {
    forall n
      ensures n in a <==> n in b
    {
      assert topo.Holds(cpus, n) || !topo.Holds(cpus, n);
    }
  }

  lemma SamePairs(topo: Topology, partNodes: seq<set<nat>>, d: seq<seq<nat>>, e: seq<seq<nat>>, touched: set<nat>)
    requires PairsOk(topo, partNodes, d, touched) && PairsOk(topo, partNodes, e, touched)
    ensures d == e
  {
    forall a, b | 0 <= a < |d| && 0 <= b < |d|
      ensures d[a][b] == e[a][b]
    {
      assert PairOk(topo, partNodes, d, touched, a, b);
      assert PairOk(topo, partNodes, e, touched, a, b);
      if a in touched || b in touched {
        MaxUnique(topo, partNodes[a], partNodes[b], d[a][b], e[a][b]);
      }
    }
    assert forall a | 0 <= a < |d| :: d[a] == e[a];
  }

  /**
    Everything a table caches, but for the choice in node2cpt, is fixed by the assignment and by
    which partitions ever held a CPU: the order of the calls that led there leaves no trace.
  */
  lemma CacheDetermined(t: Table, u: Table)
    requires t.Valid() && u.Valid() && t.topo == u.topo && t.nparts == u.nparts
    requires t.cpu2cpt == u.cpu2cpt && t.touched == u.touched
    ensures t.cpumask == u.cpumask && t.partCpus == u.partCpus
    ensures t.nodemask == u.nodemask && t.partNodes == u.partNodes
    ensures t.distance == u.distance && t.partDist == u.partDist
  {
    forall c | 0 <= c < t.nparts
      ensures t.partCpus[c] == u.partCpus[c] && t.partNodes[c] == u.partNodes[c]
    {
      assert CpusOf(t.topo, t.cpu2cpt, c, t.partCpus[c]);
      assert CpusOf(t.topo, t.cpu2cpt, c, u.partCpus[c]);
      assert t.partCpus[c] == u.partCpus[c];
      SameNodes(t.topo, t.partCpus[c], t.partNodes[c], u.partNodes[c]);
    }
    assert t.partCpus == u.partCpus && t.partNodes == u.partNodes;
    assert t.cpumask == u.cpumask;
    SameNodes(t.topo, t.cpumask, t.nodemask, u.nodemask);
    MaxUnique(t.topo, t.nodemask, t.nodemask, t.distance, u.distance);
    SamePairs(t.topo, t.partNodes, t.partDist, u.partDist, t.touched);
  }
}
