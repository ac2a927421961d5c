/** Which nodes get the IPs when there are not enough of them: those enabled first, which are the first by
    name only under an exact condition. */
module PoolNameOrder {
  import opened Options
  import opened RetrySchedules
  import opened OrderedQueues
  import opened PoolState
  import opened PoolAgreement
  import opened PoolConservation
  import opened PoolAssignment
  import opened PoolDns

  // ----- names -----

  /** Go's order of strings. */
  predicate Before(a: string, b: string) {
    b != [] && (a == [] || a[0] < b[0] || (a[0] == b[0] && Before(a[1..], b[1..])))
  }

  lemma {:induction false} BeforeIsTotal(a: string, b: string)
    ensures Before(a, b) || Before(b, a) || a == b
    ensures !(Before(a, b) && Before(b, a))
    decreases |a|
  {
    if a != [] && b != [] {
      BeforeIsTotal(a[1..], b[1..]);
      assert a == [a[0]] + a[1..] && b == [b[0]] + b[1..];
    }
  }

  lemma {:induction false} BeforeIsTransitive(a: string, b: string, c: string)
    requires Before(a, b) && Before(b, c)
    ensures Before(a, c)
    decreases |a|
  {
    if a != [] && a[0] == b[0] == c[0] {
      BeforeIsTransitive(a[1..], b[1..], c[1..]);
    }
  }

  ghost predicate DistinctNames(nodes: seq<NodeRef>) {
    forall i, j :: 0 <= i < j < |nodes| ==> nodes[i].name != nodes[j].name
  }

  ghost predicate InNameOrder(nodes: seq<NodeRef>) {
    forall i, j :: 0 <= i < j < |nodes| ==> Before(nodes[i].name, nodes[j].name)
  }

  function Inserted(node: NodeRef, nodes: seq<NodeRef>): seq<NodeRef> {
    if nodes == [] || Before(node.name, nodes[0].name) then [node] + nodes
    else [nodes[0]] + Inserted(node, nodes[1..])
  }

  /** The candidates sorted by name. */
  function ByName(nodes: seq<NodeRef>): seq<NodeRef> {
    if nodes == [] then [] else Inserted(nodes[0], ByName(nodes[1..]))
  }

  lemma {:induction false} InsertedInOrder(node: NodeRef, nodes: seq<NodeRef>)
    requires InNameOrder(nodes) && forall x :: x in nodes ==> x.name != node.name
    ensures var r := Inserted(node, nodes);
      InNameOrder(r) && |r| == |nodes| + 1 && forall x :: x in r <==> x == node || x in nodes
  {
    if nodes != [] {
      var rest := nodes[1..];
      assert nodes == [nodes[0]] + rest;
      BeforeIsTotal(node.name, nodes[0].name);
      if Before(node.name, nodes[0].name) {
        forall x | x in nodes
          ensures Before(node.name, x.name)
        {
          if x != nodes[0] {
            BeforeIsTransitive(node.name, nodes[0].name, x.name);
          }
        }
      } else {
        InsertedInOrder(node, rest);
        assert forall x :: x in rest ==> Before(nodes[0].name, x.name);
      }
    }
  }

  lemma {:induction false} ByNameSorts(nodes: seq<NodeRef>)
    requires DistinctNames(nodes)
    ensures InNameOrder(ByName(nodes)) && |ByName(nodes)| == |nodes| && forall x :: x in ByName(nodes) <==> x in nodes
  {
    if nodes != [] {
      assert nodes == [nodes[0]] + nodes[1..];
      ByNameSorts(nodes[1..]);
      InsertedInOrder(nodes[0], ByName(nodes[1..]));
    }
  }

  // ----- the first n -----

  /** The first n come before all the others by name. */
  ghost predicate FirstPrecede(nodes: seq<NodeRef>, n: nat) {
    forall i, j :: 0 <= i < n <= j < |nodes| ==> Before(nodes[i].name, nodes[j].name)
  }

  ghost predicate SameNodes(a: seq<NodeRef>, b: seq<NodeRef>) {
    forall x :: x in a <==> x in b
  }

  ghost function NodeSet(nodes: seq<NodeRef>): set<NodeRef> {
    set x | x in nodes
  }

  lemma {:induction false} DistinctSize(nodes: seq<NodeRef>)
    requires DistinctNames(nodes)
    ensures |NodeSet(nodes)| == |nodes|
  {
    if nodes != [] {
      var init, last := nodes[..|nodes| - 1], nodes[|nodes| - 1];
      DistinctSize(init);
      assert nodes == init + [last];
      assert NodeSet(nodes) == NodeSet(init) + {last};
    }
  }

  /** As many distinct nodes, none of them outside: they are the same. */
  lemma SubsetIsAll(a: seq<NodeRef>, b: seq<NodeRef>)
    requires DistinctNames(a) && DistinctNames(b) && |a| == |b| && forall x :: x in b ==> x in a
    ensures SameNodes(a, b)
  {
    DistinctSize(a);
    DistinctSize(b);
    assert NodeSet(b) <= NodeSet(a);
    if x :| x in a && x !in b {
      assert NodeSet(b) <= NodeSet(a) - {x};
      assert |NodeSet(b)| <= |NodeSet(a) - {x}| by {
        SubsetIsSmaller(NodeSet(b), NodeSet(a) - {x});
      }
    }
  }

  lemma {:induction false} SubsetIsSmaller(a: set<NodeRef>, b: set<NodeRef>)
    requires a <= b
    ensures |a| <= |b|
  {
    if x :| x in a {
      SubsetIsSmaller(a - {x}, b - {x});
    }
  }

  lemma SortedAreDistinct(nodes: seq<NodeRef>)
    requires InNameOrder(nodes)
    ensures DistinctNames(nodes)
  {
    forall i, j | 0 <= i < j < |nodes|
      ensures nodes[i].name != nodes[j].name
    {
      BeforeIsTotal(nodes[i].name, nodes[j].name);
    }
  }

  lemma LaterIndex(nodes: seq<NodeRef>, n: nat, x: NodeRef) returns (k: nat)
    requires n <= |nodes| && x in nodes && x !in nodes[..n]
    ensures n <= k < |nodes| && nodes[k] == x
  {
    assert nodes == nodes[..n] + nodes[n..];
    var m :| 0 <= m < |nodes[n..]| && nodes[n..][m] == x;
    k := n + m;
  }

  /** One node of the sorted first n, if the first n given precede the others. */
  lemma FirstByNameIsFirst(nodes: seq<NodeRef>, n: nat, x: NodeRef)
    requires DistinctNames(nodes) && n <= |nodes| && FirstPrecede(nodes, n) && x in nodes[..n]
    requires |ByName(nodes)| == |nodes|
    ensures x in ByName(nodes)[..n]
  {
    var sorted := ByName(nodes);
    ByNameSorts(nodes);
    if x !in sorted[..n] {
      assert x in nodes;
      var k := LaterIndex(sorted, n, x);
      SortedAreDistinct(sorted);
      forall y | y in sorted[..n]
        ensures y in nodes[..n]
      {
        SmallerIsFirst(nodes, n, x, y, k);
      }
      SubsetIsAll(nodes[..n], sorted[..n]);
      assert false;
    }
  }

  lemma SmallerIsFirst(nodes: seq<NodeRef>, n: nat, x: NodeRef, y: NodeRef, k: nat)
    requires n <= k < |nodes| == |ByName(nodes)| && InNameOrder(ByName(nodes)) && FirstPrecede(nodes, n) && x in nodes[..n]
    requires ByName(nodes)[k] == x && y in ByName(nodes)[..n] && y in nodes
    ensures y in nodes[..n]
  {
    var m :| 0 <= m < n && ByName(nodes)[..n][m] == y;
    assert Before(y.name, x.name);
    var j :| 0 <= j < |nodes| && nodes[j] == y;
    var i :| 0 <= i < n && nodes[..n][i] == x;
    if j >= n {
      assert Before(nodes[i].name, nodes[j].name);
      BeforeIsTotal(x.name, y.name);
    } else {
      assert nodes[..n][j] == y;
    }
  }

  lemma FirstByNamePrecedes(nodes: seq<NodeRef>, n: nat, x: NodeRef, y: NodeRef)
    requires InNameOrder(ByName(nodes)) && n <= |ByName(nodes)| && x in ByName(nodes)[..n]
    requires y in ByName(nodes) && y !in ByName(nodes)[..n]
    ensures Before(x.name, y.name)
  {
    var sorted := ByName(nodes);
    var a :| 0 <= a < n && sorted[..n][a] == x;
    var b := LaterIndex(sorted, n, y);
    assert Before(sorted[a].name, sorted[b].name);
  }

  lemma SplitAt(nodes: seq<NodeRef>, n: nat, i: nat, j: nat)
    requires DistinctNames(nodes) && i < n <= j < |nodes|
    ensures nodes[i] in nodes[..n] && nodes[j] !in nodes[..n]
  {
    assert nodes[..n][i] == nodes[i];
  }

  /** The first n given are the first n by name exactly if they precede all the others. */
  lemma FirstByNameExactlyWhen(nodes: seq<NodeRef>, n: nat)
    requires DistinctNames(nodes) && n <= |nodes|
    ensures |ByName(nodes)| == |nodes|
    ensures SameNodes(nodes[..n], ByName(nodes)[..n]) <==> FirstPrecede(nodes, n)
  {
    var sorted := ByName(nodes);
    ByNameSorts(nodes);
    if FirstPrecede(nodes, n) {
      forall x | x in nodes[..n]
        ensures x in sorted[..n]
      {
        FirstByNameIsFirst(nodes, n, x);
      }
      SortedAreDistinct(sorted);
      SubsetIsAll(sorted[..n], nodes[..n]);
    }
    if SameNodes(nodes[..n], sorted[..n]) {
      forall i, j | 0 <= i < n <= j < |nodes|
        ensures Before(nodes[i].name, nodes[j].name)
      {
        SplitAt(nodes, n, i, j);
        FirstByNamePrecedes(nodes, n, nodes[i], nodes[j]);
      }
    }
  }

  // ----- enabling -----

  function IDs(nodes: seq<NodeRef>): (ids: seq<string>)
    ensures |ids| == |nodes| && forall i :: 0 <= i < |ids| ==> ids[i] == nodes[i].providerID
  {
    seq(|nodes|, i requires 0 <= i < |nodes| => nodes[i].providerID)
  }

  function NodesOf(visits: seq<Visit>): (nodes: seq<NodeRef>)
    ensures |nodes| == |visits| && forall i :: 0 <= i < |nodes| ==> nodes[i] == visits[i].node
  {
    seq(|visits|, i requires 0 <= i < |visits| => visits[i].node)
  }

  ghost predicate OnlyEnables(steps: seq<Step>) {
    forall step :: step in steps ==> step.EnableStep?
  }

  /** The visits of a run of EnableNodes calls, one after the other. */
  ghost function AllVisits(steps: seq<Step>): seq<Visit>
    requires OnlyEnables(steps)
  {
    if steps == [] then [] else steps[0].visits + AllVisits(steps[1..])
  }

  lemma {:induction false} EnableJoined(s: Pool, a: seq<Visit>, b: seq<Visit>)
    ensures EnableNodes(s, a + b) == EnableNodes(EnableNodes(s, a), b)
    decreases |a|
  {
    if a == [] {
      assert a + b == b;
    } else {
      assert (a + b)[1..] == a[1..] + b;
      EnableJoined(EnableNode(s, a[0]), a[1..], b);
    }
  }

  lemma {:induction false} CrashedStays(s: Pool, visits: seq<Visit>)
    requires s.crashed
    ensures EnableNodes(s, visits) == s
    decreases |visits|
  {
    if visits != [] {
      CrashedStays(s, visits[1..]);
    }
  }

  lemma {:induction false} RunOfEnables(s: Pool, steps: seq<Step>)
    requires OnlyEnables(steps)
    ensures Run(s, steps) == EnableNodes(s, AllVisits(steps)) && AllowedRun(s, steps)
    decreases |steps|
  {
    if steps != [] {
      assert steps[0] in steps;
      if s.crashed {
        CrashedStays(s, steps[0].visits);
      }
      RunOfEnables(Apply(s, steps[0]), steps[1..]);
      EnableJoined(s, steps[0].visits, AllVisits(steps[1..]));
    }
  }

  /** Nodes that have not been enabled yet and hold nothing. */
  ghost predicate NewNodes(s: Pool, nodes: seq<NodeRef>) {
    && NoDup(IDs(nodes)) && DistinctNames(nodes)
    && forall node :: node in nodes ==>
         node.providerID != "" && node.providerID !in s.active && ClaimOf(s, node.providerID) == ""
  }

  lemma OneNewEnabled(s: Pool, v: Visit)
    requires !s.crashed && NewNodes(s, [v.node]) && v.node.providerID !in s.nodeQueue
    ensures EnableNode(s, v) ==
      s.(active := s.active[v.node.providerID := v.node.name], nodeQueue := s.nodeQueue + [v.node.providerID])
  {
    assert v.node in [v.node];
  }

  lemma HeadOfVisits(visits: seq<Visit>)
    requires visits != []
    ensures NodesOf(visits[1..]) == NodesOf(visits)[1..]
    ensures IDs(NodesOf(visits)) == [visits[0].node.providerID] + IDs(NodesOf(visits[1..]))
  {
  }

  lemma HeadIsNew(s: Pool, nodes: seq<NodeRef>)
    requires nodes != [] && NewNodes(s, nodes)
    ensures NewNodes(s, [nodes[0]])
  {
    assert nodes[0] in nodes;
  }

  /** New nodes join the queue in the order in which they are enabled, and nothing else moves. */
  lemma {:induction false} EnabledInOrder(s: Pool, visits: seq<Visit>)
    requires !s.crashed && NewNodes(s, NodesOf(visits)) && forall id :: id in s.nodeQueue ==> id in s.active
    ensures var t := EnableNodes(s, visits);
      t == s.(active := t.active, nodeQueue := s.nodeQueue + IDs(NodesOf(visits)))
    decreases |visits|
  {
    if visits != [] {
      var u, rest := EnableNode(s, visits[0]), visits[1..];
      HeadOfVisits(visits);
      HeadIsNew(s, NodesOf(visits));
      OneNewEnabled(s, visits[0]);
      RestIsNew(s, u, NodesOf(visits));
      EnabledInOrder(u, rest);
      QueueJoined(s.nodeQueue, visits[0].node.providerID, IDs(NodesOf(rest)));
    } else {
      assert s.nodeQueue + IDs(NodesOf(visits)) == s.nodeQueue;
    }
  }

  lemma QueueJoined(q: seq<string>, id: string, rest: seq<string>)
    ensures q + [id] + rest == q + ([id] + rest)
  {
  }

  lemma RestIsNew(s: Pool, u: Pool, nodes: seq<NodeRef>)
    requires nodes != [] && NewNodes(s, nodes) && u.claims == s.claims
    requires u.active == s.active[nodes[0].providerID := nodes[0].name]
    ensures NewNodes(u, nodes[1..])
  {
    var rest := nodes[1..];
    forall node | node in rest
      ensures node.providerID !in u.active && node in nodes
    {
      var i :| 0 <= i < |rest| && rest[i] == node;
      assert nodes[i + 1] == node && IDs(nodes)[0] != IDs(nodes)[i + 1];
    }
    assert forall i :: 0 <= i < |rest| ==> IDs(rest)[i] == IDs(nodes)[i + 1];
  }

  // ----- who is assigned -----

  lemma SameIDs(nodes: seq<NodeRef>, a: seq<NodeRef>, b: seq<NodeRef>)
    requires NoDup(IDs(nodes)) && (forall x :: x in a ==> x in nodes) && (forall x :: x in b ==> x in nodes)
    ensures ToSet(IDs(a)) == ToSet(IDs(b)) <==> SameNodes(a, b)
  {
    forall x | x in nodes
      ensures (x.providerID in ToSet(IDs(a)) <==> x in a) && (x.providerID in ToSet(IDs(b)) <==> x in b)
    {
      InItsIDs(nodes, a, x);
      InItsIDs(nodes, b, x);
    }
    if SameNodes(a, b) {
      forall id
        ensures id in ToSet(IDs(a)) <==> id in ToSet(IDs(b))
      {
        if id in IDs(a) {
          var i :| 0 <= i < |a| && IDs(a)[i] == id;
          assert a[i] in a;
        }
        if id in IDs(b) {
          var i :| 0 <= i < |b| && IDs(b)[i] == id;
          assert b[i] in b;
        }
      }
    }
  }

  lemma InItsIDs(nodes: seq<NodeRef>, a: seq<NodeRef>, x: NodeRef)
    requires NoDup(IDs(nodes)) && (forall y :: y in a ==> y in nodes) && x in nodes
    ensures x.providerID in IDs(a) <==> x in a
  {
    if x in a {
      var i :| 0 <= i < |a| && a[i] == x;
      assert IDs(a)[i] == x.providerID;
    }
    if x.providerID in IDs(a) {
      var i :| 0 <= i < |a| && IDs(a)[i] == x.providerID;
      assert a[i] in nodes;
      var j :| 0 <= j < |nodes| && nodes[j] == a[i];
      var k :| 0 <= k < |nodes| && nodes[k] == x;
      assert IDs(nodes)[j] == IDs(nodes)[k];
    }
  }

  lemma ChosenExactlyWhen(nodes: seq<NodeRef>, n: nat)
    requires NoDup(IDs(nodes)) && DistinctNames(nodes) && n <= |nodes|
    ensures |ByName(nodes)| == |nodes|
    ensures ToSet(IDs(nodes[..n])) == ToSet(IDs(ByName(nodes)[..n])) <==> FirstPrecede(nodes, n)
  {
    FirstByNameExactlyWhen(nodes, n);
    ByNameSorts(nodes);
    SameIDs(nodes, nodes[..n], ByName(nodes)[..n]);
  }

  lemma EnabledQueue(s: Pool, steps: seq<Step>)
    requires Agreement(s) && s.nodeQueue == [] && OnlyEnables(steps) && NewNodes(s, NodesOf(AllVisits(steps)))
    ensures var u := Run(s, steps);
      Agreement(u) && u.nodeQueue == IDs(NodesOf(AllVisits(steps))) && u.ipQueue == s.ipQueue && u.log == s.log
  {
    var visits := AllVisits(steps);
    RunOfEnables(s, steps);
    EnabledInOrder(s, visits);
    EnableNodesKeeps(s, visits);
    assert s.nodeQueue + IDs(NodesOf(visits)) == IDs(NodesOf(visits));
  }

  /** "Sorted by name": with an empty node queue, new nodes enabled in any batches, nothing in the way and
      every call succeeding, the nodes assigned are those enabled first. They are the first by name exactly
      if these precede all the other candidates by name. */
  lemma AssignsFirstByNameExactlyWhen(s: Pool, steps: seq<Step>, ticks: nat -> AssignTick)
    requires Agreement(s) && s.nodeQueue == [] && OnlyEnables(steps) && NewNodes(s, NodesOf(AllVisits(steps)))
    requires NothingWaits(Run(s, steps)) && AllSucceed(0, ticks)
    ensures var u, nodes := Run(s, steps), NodesOf(AllVisits(steps));
      var t, n := ReconcileAssignment(u, ticks), Min(|s.ipQueue|, |nodes|);
      && |ByName(nodes)| == |nodes| && u.nodeQueue == IDs(nodes)
      && AssignedNodes(t.log) == AssignedNodes(s.log) + IDs(nodes[..n])
      && (ToSet(IDs(nodes[..n])) == ToSet(IDs(ByName(nodes)[..n])) <==> FirstPrecede(nodes, n))
  {
    var nodes := NodesOf(AllVisits(steps));
    var n := Min(|s.ipQueue|, |nodes|);
    EnabledQueue(s, steps);
    AssignsAllItCan(Run(s, steps), ticks);
    assert IDs(nodes)[..n] == IDs(nodes[..n]);
    ChosenExactlyWhen(nodes, n);
  }

  /** A batch sorted by name, as the first one is, always meets the condition. */
  lemma SortedBatchPrecedes(nodes: seq<NodeRef>, n: nat)
    requires InNameOrder(nodes)
    ensures FirstPrecede(nodes, n) && ByName(nodes) == nodes
  {
    SortedStays(nodes);
  }

  lemma {:induction false} SortedStays(nodes: seq<NodeRef>)
    requires InNameOrder(nodes)
    ensures ByName(nodes) == nodes
  {
    if nodes != [] {
      SortedStays(nodes[1..]);
      assert nodes == [nodes[0]] + nodes[1..];
    }
  }

  // ----- a later node that comes first by name -----

  /** A pass in which the one IP turns out to be free and everything succeeds. */
  ghost predicate AllGoesWell(env: ReconcileEnv) {
    && env.start == 0 && !env.create.cancelled && env.create.delay == 0 && !env.pendingCancelled
    && (forall k :: env.status(k) == StatusTick(false, 0, Owner(""), 0))
    && (forall k :: env.assign(k) == AssignTick(false, 0, None, 0, 0))
  }

  /** One IP in the spec, two nodes enabled one after the other, in reverse name order, then the pass. */
  ghost function OneIPTwoNodes(env: ReconcileEnv): seq<Step> {
    [SpecStep([ONE_IP], 0, []), EnableStep([Visit(NodeRef("id-b", "node-b"), 0)]),
     EnableStep([Visit(NodeRef("id-a", "node-a"), 0)]), ReconcileStep(env)]
  }

  /** Queue order decides, not names: of two nodes enabled b before a, the one IP goes to b. */
  lemma FirstEnabledNotFirstNamed(env: ReconcileEnv)
    requires AllGoesWell(env)
    ensures AllowedRun(NewPool(1), OneIPTwoNodes(env))
    ensures var t := Run(NewPool(1), OneIPTwoNodes(env)); AssignedNodes(t.log) == ["id-b"] && t.nodeQueue == ["id-a"]
  {
    TwoNodesRun(env);
    TwoNodesAgree();
    OneFreeIP(TwoNodesOneIP(), env);
    FirstOfTwo("id-b", "id-a");
  }

  lemma FirstOfTwo(a: string, b: string)
    ensures [a, b][..1] == [a] && [a, b][1..] == [b]
  {
  }

  lemma TwoNodesAgree()
    ensures Agreement(TwoNodesOneIP()) && AssignedNodes(TwoNodesOneIP().log) == []
  {
    assert "id-b" != "id-a";
  }

  ghost function TwoNodesOneIP(): Pool {
    NewPool(1).(ips := [ONE_IP], dnsDirty := true, active := map["id-b" := "node-b", "id-a" := "node-a"],
                nodeQueue := ["id-b", "id-a"])
  }

  lemma TwoNodesRun(env: ReconcileEnv)
    requires AllGoesWell(env)
    ensures AllowedRun(NewPool(1), OneIPTwoNodes(env))
    ensures Run(NewPool(1), OneIPTwoNodes(env)) == Reconcile(TwoNodesOneIP(), env)
  {
    var steps := OneIPTwoNodes(env);
    TwoNodesEnabled(steps[1].visits[0], steps[2].visits[0]);
    RunOfFour(NewPool(1), steps[0], steps[1], steps[2], steps[3]);
    assert Allowed(TwoNodesOneIP(), steps[3]);
  }

  lemma TwoNodesEnabled(v: Visit, w: Visit)
    requires v.node == NodeRef("id-b", "node-b") && w.node == NodeRef("id-a", "node-a")
    ensures var spec := SpecStep([ONE_IP], 0, []);
      && Allowed(NewPool(1), spec)
      && Apply(Apply(Apply(NewPool(1), spec), EnableStep([v])), EnableStep([w])) == TwoNodesOneIP()
  {
    OneEnabled(v);
    AnotherEnabled(Apply(Apply(NewPool(1), SpecStep([ONE_IP], 0, [])), EnableStep([v])), w);
  }

  lemma RunOfFour(s: Pool, a: Step, b: Step, c: Step, d: Step)
    ensures Run(s, [a, b, c, d]) == Apply(Apply(Apply(Apply(s, a), b), c), d)
    ensures AllowedRun(s, [a, b, c, d]) <==>
      && Allowed(s, a) && Allowed(Apply(s, a), b) && Allowed(Apply(Apply(s, a), b), c)
      && Allowed(Apply(Apply(Apply(s, a), b), c), d)
  {
    assert [a] + [b, c, d] == [a, b, c, d];
    RunFirst(s, a, [b, c, d]);
    AllowedFirst(s, a, [b, c, d]);
    RunOfThree(Apply(s, a), b, c, d);
  }

  lemma AnotherEnabled(s: Pool, v: Visit)
    requires !s.crashed && v.node.providerID != "" && v.node.providerID !in s.active && v.node.providerID !in s.claims
    requires v.node.providerID !in s.nodeQueue
    ensures Apply(s, EnableStep([v])) ==
      s.(active := s.active[v.node.providerID := v.node.name], nodeQueue := s.nodeQueue + [v.node.providerID])
  {
    assert EnableNodes(EnableNode(s, v), [v][1..]) == EnableNode(s, v);
  }

  /** Everything but the poll and the assignment leaves the pool alone. */
  lemma OnlyPollAndAssignment(s: Pool, env: ReconcileEnv)
    requires AllGoesWell(env) && s.clock > 0 && s.pendingIPs == [] && s.desiredIPs == 0 && s.createNextRetry == 0
    ensures ReconcileToDNS(s, env) == ReconcileAssignment(ReconcileIPStatus(ReconcileStart(s, env), env.status), env.assign)
    ensures ReconcileToDNS(s, env).dns == None ==> Reconcile(s, env) == ReconcileToDNS(s, env)
  {
    assert BeforePoll(s, env) == ReconcileStart(s, env);
  }

  lemma OneFreeAssigned(u: Pool, ticks: nat -> AssignTick)
    requires Agreement(u) && NothingWaits(u) && |u.ipQueue| == 1 && |u.nodeQueue| == 2 && AssignedNodes(u.log) == []
    requires u.dns == None && AllSucceed(0, ticks)
    ensures var t := ReconcileAssignment(u, ticks);
      AssignedNodes(t.log) == u.nodeQueue[..1] && t.nodeQueue == u.nodeQueue[1..] && t.dns == None
  {
    AssignsAllItCan(u, ticks);
    AssignmentFrame(Loop(u, [], []), 0, ticks);
  }

  lemma OneFreeIP(s: Pool, env: ReconcileEnv)
    requires AllGoesWell(env) && Agreement(s) && s.ips == [ONE_IP] && s.status == map[] && s.ipQueue == []
    requires s.pendingIPs == [] && s.desiredIPs == 0 && s.createNextRetry == 0 && s.coolOff == 0
    requires s.nodeRetry == map[] && s.dns == None && |s.nodeQueue| == 2 && AssignedNodes(s.log) == []
    ensures var t := Reconcile(s, env); AssignedNodes(t.log) == s.nodeQueue[..1] && t.nodeQueue == s.nodeQueue[1..]
  {
    var s1 := ReconcileStart(s, env);
    OneFreePolled(s1, env);
    OneFreeAssigned(ReconcileIPStatus(s1, env.status), env.assign);
    OnlyPollAndAssignment(s, env);
  }

  lemma OneFreePolled(s: Pool, env: ReconcileEnv)
    requires AllGoesWell(env) && Agreement(s) && s.ips == [ONE_IP] && s.status == map[] && s.ipQueue == []
    requires s.coolOff == 0 && s.nodeRetry == map[]
    ensures var t := ReconcileIPStatus(s, env.status);
      && Agreement(t) && NothingWaits(t) && t.ipQueue == s.ips && t.nodeQueue == s.nodeQueue && t.dns == s.dns
      && AssignedNodes(t.log) == AssignedNodes(s.log)
  {
    var t := CheckIP(s, ONE_IP, env.status(0));
    assert s.ips[1..] == [];
    assert ReconcileIPStatus(s, env.status) == CheckIPs(t, [], 1, env.status) == t;
    CheckIPKeeps(s, ONE_IP, env.status(0));
    assert t.ipQueue == [ONE_IP] && t.status[ONE_IP].state == Unassigned;
    LogGrows(s.log, t.log[|s.log|]);
    assert t.log == s.log + [t.log[|s.log|]];
  }
}
