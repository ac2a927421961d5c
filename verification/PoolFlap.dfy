/** Nodes that are disabled and enabled again before the next reconcile keep their IPs. */
module PoolFlap {
  import opened RetrySchedules
  import opened OrderedQueues
  import opened PoolState
  import opened PoolAgreement
  import opened PoolConservation

  /** The visited nodes and their names. */
  function NodesOf(visits: seq<Visit>): map<string, string> {
    if visits == [] then map[]
    else NodesOf(visits[1..])[visits[0].node.providerID := visits[0].node.name]
  }

  ghost predicate DistinctNodes(visits: seq<Visit>) {
    visits == [] || (visits[0].node.providerID !in NodesOf(visits[1..]) && DistinctNodes(visits[1..]))
  }

  /** The IPs the visited nodes claim, in visiting order. */
  function Held(claims: map<string, string>, visits: seq<Visit>): seq<string>
    requires NodesOf(visits).Keys <= claims.Keys
  {
    if visits == [] then []
    else [claims[visits[0].node.providerID]] + Held(claims, visits[1..])
  }

  lemma {:induction false} HeldMembers(claims: map<string, string>, visits: seq<Visit>)
    requires NodesOf(visits).Keys <= claims.Keys
    ensures forall x :: x in Held(claims, visits) <==> exists p :: p in NodesOf(visits) && claims[p] == x
  {
    if visits != [] {
      HeldMembers(claims, visits[1..]);
      var p0 := visits[0].node.providerID;
      forall x
        ensures x in Held(claims, visits) <==> exists p :: p in NodesOf(visits) && claims[p] == x
      {
        if x == claims[p0] {
          assert p0 in NodesOf(visits);
        }
      }
    }
  }

  /** Deleting several values, one by one. */
  function WithoutAll(q: seq<string>, vs: seq<string>): (r: seq<string>)
    ensures forall x :: x in r <==> x in q && x !in vs
    decreases |vs|
  {
    if vs == [] then q
    else
      assert vs == [vs[0]] + vs[1..];
      WithoutAll(Without(q, vs[0]), vs[1..])
  }

  lemma {:induction false} WithoutAllConcat(a: seq<string>, b: seq<string>, vs: seq<string>)
    requires forall x :: x in vs ==> x !in a
    ensures WithoutAll(a + b, vs) == a + WithoutAll(b, vs)
    decreases |vs|
  {
    if vs != [] {
      assert vs == [vs[0]] + vs[1..];
      WithoutConcat(a, b, vs[0]);
      WithoutAllConcat(a, Without(b, vs[0]), vs[1..]);
    }
  }

  lemma {:induction false} NoneLeft(q: seq<string>, vs: seq<string>)
    requires forall x :: x in q ==> x in vs
    ensures WithoutAll(q, vs) == []
    decreases |vs|
  {
    if vs != [] {
      assert vs == [vs[0]] + vs[1..];
      NoneLeft(Without(q, vs[0]), vs[1..]);
    } else {
      SomeMember(q);
    }
  }

  /** Adding values at the back and deleting them all, in whatever order, restores the queue. */
  lemma AddAllDeleteAll(q: seq<string>, added: seq<string>, deleted: seq<string>)
    requires forall x :: x in deleted ==> x !in q
    requires forall x :: x in added ==> x in deleted
    ensures WithoutAll(q + added, deleted) == q
  {
    WithoutAllConcat(q, added, deleted);
    NoneLeft(added, deleted);
    assert q + [] == q;
  }

  ghost predicate SameOwners(s: map<string, IpStatus>, t: map<string, IpStatus>) {
    s.Keys == t.Keys && forall ip :: ip in s ==> t[ip].node == s[ip].node
  }

  /** The visited nodes all hold IPs. */
  ghost predicate Holders(claims: map<string, string>, status: map<string, IpStatus>, visits: seq<Visit>) {
    && DistinctNodes(visits) && ClaimsAgree(claims, status) && "" !in claims
    && NodesOf(visits).Keys <= claims.Keys
    && (forall p :: p in NodesOf(visits) ==> claims[p] != "")
  }

  lemma HoldersTail(claims: map<string, string>, status: map<string, IpStatus>, after: map<string, IpStatus>, visits: seq<Visit>)
    requires Holders(claims, status, visits) && SameOwners(status, after) && visits != []
    ensures Holders(claims, after, visits[1..])
    ensures claims[visits[0].node.providerID] !in Held(claims, visits[1..])
  {
    assert NodesOf(visits[1..]).Keys <= NodesOf(visits).Keys;
    HeldMembers(claims, visits[1..]);
    var p0 := visits[0].node.providerID;
    assert p0 in NodesOf(visits);
  }

  /** t is s after the visits were disabled. */
  ghost predicate AllReleased(s: Pool, t: Pool, visits: seq<Visit>)
    requires NodesOf(visits).Keys <= s.claims.Keys
  {
    && t.claims == s.claims && t.nodeQueue == s.nodeQueue && SameOwners(s.status, t.status) && !t.crashed
    && t.active == s.active - NodesOf(visits).Keys
    && t.ipQueue == s.ipQueue + Held(s.claims, visits)
  }

  /** t is s after the visits were enabled. */
  ghost predicate AllRegained(s: Pool, t: Pool, visits: seq<Visit>)
    requires NodesOf(visits).Keys <= s.claims.Keys
  {
    && t.claims == s.claims && t.nodeQueue == s.nodeQueue && SameOwners(s.status, t.status) && !t.crashed
    && t.active == s.active + NodesOf(visits)
    && t.ipQueue == WithoutAll(s.ipQueue, Held(s.claims, visits))
  }

  lemma DisableHolder(s: Pool, v: Visit)
    requires var p := v.node.providerID;
      !s.crashed && p in s.active && p != "" && p !in s.nodeQueue && ClaimOf(s, p) != "" &&
      ClaimOf(s, p) !in s.ipQueue && ClaimOf(s, p) in s.status
    ensures AllReleased(s, DisableNode(s, v), [v])
  {
  }

  lemma EnableHolder(s: Pool, v: Visit)
    requires var p := v.node.providerID;
      !s.crashed && p !in s.active && p != "" && ClaimOf(s, p) != "" &&
      ClaimOf(s, p) in s.status && s.status[ClaimOf(s, p)].node == p
    ensures AllRegained(s, EnableNode(s, v), [v])
  {
  }

  lemma OneThenRest(claims: map<string, string>, visits: seq<Visit>)
    requires visits != [] && DistinctNodes(visits) && NodesOf(visits).Keys <= claims.Keys
    ensures NodesOf([visits[0]]) == map[visits[0].node.providerID := visits[0].node.name]
    ensures NodesOf(visits) == NodesOf([visits[0]]) + NodesOf(visits[1..])
    ensures Held(claims, [visits[0]]) == [claims[visits[0].node.providerID]]
    ensures Held(claims, visits) == Held(claims, [visits[0]]) + Held(claims, visits[1..])
  {
  }

  lemma ReleasedTrans(s: Pool, s1: Pool, t: Pool, visits: seq<Visit>)
    requires visits != [] && DistinctNodes(visits) && NodesOf(visits).Keys <= s.claims.Keys
    requires NodesOf([visits[0]]).Keys <= s.claims.Keys && NodesOf(visits[1..]).Keys <= s1.claims.Keys
    requires AllReleased(s, s1, [visits[0]]) && AllReleased(s1, t, visits[1..])
    ensures AllReleased(s, t, visits)
  {
    ReleasedParts(s.claims, s.ipQueue, s.active, visits);
  }

  lemma ReleasedParts(claims: map<string, string>, queue: seq<string>, active: map<string, string>, visits: seq<Visit>)
    requires visits != [] && DistinctNodes(visits) && NodesOf(visits).Keys <= claims.Keys
    ensures NodesOf([visits[0]]).Keys <= claims.Keys && NodesOf(visits[1..]).Keys <= claims.Keys
    ensures queue + Held(claims, [visits[0]]) + Held(claims, visits[1..]) == queue + Held(claims, visits)
    ensures active - NodesOf([visits[0]]).Keys - NodesOf(visits[1..]).Keys == active - NodesOf(visits).Keys
  {
  }

  lemma RegainedTrans(s: Pool, s1: Pool, t: Pool, visits: seq<Visit>)
    requires visits != [] && DistinctNodes(visits) && NodesOf(visits).Keys <= s.claims.Keys
    requires NodesOf([visits[0]]).Keys <= s.claims.Keys && NodesOf(visits[1..]).Keys <= s1.claims.Keys
    requires AllRegained(s, s1, [visits[0]]) && AllRegained(s1, t, visits[1..])
    ensures AllRegained(s, t, visits)
  {
    RegainedParts(s.claims, s.ipQueue, s.active, visits);
  }

  lemma RegainedParts(claims: map<string, string>, queue: seq<string>, active: map<string, string>, visits: seq<Visit>)
    requires visits != [] && DistinctNodes(visits) && NodesOf(visits).Keys <= claims.Keys
    ensures NodesOf([visits[0]]).Keys <= claims.Keys && NodesOf(visits[1..]).Keys <= claims.Keys
    ensures WithoutAll(WithoutAll(queue, Held(claims, [visits[0]])), Held(claims, visits[1..])) ==
            WithoutAll(queue, Held(claims, visits))
    ensures active + NodesOf([visits[0]]) + NodesOf(visits[1..]) == active + NodesOf(visits)
  {
  }

  lemma {:induction false} DisableHolders(s: Pool, visits: seq<Visit>)
    requires !s.crashed && Holders(s.claims, s.status, visits)
    requires forall p :: p in NodesOf(visits) ==> p in s.active && p !in s.nodeQueue && s.claims[p] !in s.ipQueue
    ensures AllReleased(s, DisableNodes(s, visits), visits)
    decreases |visits|
  {
    if visits == [] {
      assert s.ipQueue + [] == s.ipQueue && s.active - {} == s.active;
    } else {
      var s1 := DisableNode(s, visits[0]);
      OneThenRest(s.claims, visits);
      assert visits[0].node.providerID in NodesOf(visits);
      DisableHolder(s, visits[0]);
      HoldersTail(s.claims, s.status, s1.status, visits);
      DisableHolders(s1, visits[1..]);
      ReleasedTrans(s, s1, DisableNodes(s1, visits[1..]), visits);
    }
  }

  lemma {:induction false} EnableHolders(s: Pool, visits: seq<Visit>)
    requires !s.crashed && Holders(s.claims, s.status, visits) && NodesOf(visits).Keys !! s.active.Keys
    ensures AllRegained(s, EnableNodes(s, visits), visits)
    decreases |visits|
  {
    if visits == [] {
      assert s.active + map[] == s.active;
    } else {
      var s1 := EnableNode(s, visits[0]);
      OneThenRest(s.claims, visits);
      assert visits[0].node.providerID in NodesOf(visits);
      EnableHolder(s, visits[0]);
      HoldersTail(s.claims, s.status, s1.status, visits);
      EnableHolders(s1, visits[1..]);
      RegainedTrans(s, s1, EnableNodes(s1, visits[1..]), visits);
    }
  }

  lemma FlapBack(s: Pool, u: Pool, t: Pool, off: seq<Visit>, on: seq<Visit>)
    requires NodesOf(off) == NodesOf(on) && NodesOf(off).Keys <= s.claims.Keys
    requires forall p :: p in NodesOf(off) ==>
      p in s.active && s.active[p] == NodesOf(off)[p] && s.claims[p] !in s.ipQueue
    requires AllReleased(s, u, off) && AllRegained(u, t, on)
    ensures t.claims == s.claims && t.active == s.active && SameOwners(s.status, t.status)
    ensures t.ipQueue == s.ipQueue && t.nodeQueue == s.nodeQueue
  {
    FlapParts(s.claims, s.ipQueue, s.active, off, on);
  }

  lemma FlapParts(claims: map<string, string>, queue: seq<string>, active: map<string, string>, off: seq<Visit>, on: seq<Visit>)
    requires NodesOf(off) == NodesOf(on) && NodesOf(off).Keys <= claims.Keys
    requires forall p :: p in NodesOf(off) ==> p in active && active[p] == NodesOf(off)[p] && claims[p] !in queue
    ensures WithoutAll(queue + Held(claims, off), Held(claims, on)) == queue
    ensures active - NodesOf(off).Keys + NodesOf(on) == active
  {
    HeldMembers(claims, off);
    HeldMembers(claims, on);
    AddAllDeleteAll(queue, Held(claims, off), Held(claims, on));
  }

  lemma FlapOfHolders(s: Pool, off: seq<Visit>, on: seq<Visit>)
    requires !s.crashed && Holders(s.claims, s.status, off) && Holders(s.claims, s.status, on) && NodesOf(off) == NodesOf(on)
    requires forall p :: p in NodesOf(off) ==>
      p in s.active && s.active[p] == NodesOf(off)[p] && p !in s.nodeQueue && s.claims[p] !in s.ipQueue
    ensures var t := EnableNodes(DisableNodes(s, off), on);
      && t.claims == s.claims && t.active == s.active && SameOwners(s.status, t.status)
      && t.ipQueue == s.ipQueue && t.nodeQueue == s.nodeQueue
  {
    DisableHolders(s, off);
    var u := DisableNodes(s, off);
    EnableHolders(u, on);
    FlapBack(s, u, EnableNodes(u, on), off, on);
  }

  /** Flap retention: disabling any IP-holding active nodes and enabling them again, in any order,
      before the next reconcile restores the claims, the owners, the active set and both queues,
      order included. */
  lemma FlapRestores(s: Pool, off: seq<Visit>, on: seq<Visit>)
    requires Conserved(s) && DistinctNodes(off) && DistinctNodes(on) && NodesOf(off) == NodesOf(on)
    requires forall p :: p in NodesOf(off) ==> p in s.active && s.active[p] == NodesOf(off)[p] && ClaimOf(s, p) != ""
    ensures var t := EnableNodes(DisableNodes(s, off), on);
      && t.claims == s.claims && t.active == s.active && SameOwners(s.status, t.status)
      && t.ipQueue == s.ipQueue && t.nodeQueue == s.nodeQueue
  {
    HoldersQueueNothing(s, off);
    FlapOfHolders(s, off, on);
  }

  /** An active node that holds an IP is not queued, and neither is its IP. */
  lemma HoldersQueueNothing(s: Pool, visits: seq<Visit>)
    requires Conserved(s) && forall p :: p in NodesOf(visits) ==> p in s.active && ClaimOf(s, p) != ""
    ensures forall p :: p in NodesOf(visits) ==> p in s.claims && p !in s.nodeQueue && s.claims[p] !in s.ipQueue
  {
  }
}
