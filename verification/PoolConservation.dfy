/** Conservation: under an exact condition on the provider's answers, every active node either holds
    an IP or queues for one, and every known IP is held by an active node or up for assignment. */
module PoolConservation {
  import opened Options
  import opened RetrySchedules
  import opened OrderedQueues
  import opened PoolState
  import opened PoolAgreement

  /** An owner on record holds the claim: together with ClaimsAgree, claims and owners are inverse. */
  ghost predicate OwnersClaim(claims: map<string, string>, status: map<string, IpStatus>) {
    forall ip :: ip in status && status[ip].node != "" ==>
      status[ip].node in claims && claims[status[ip].node] == ip
  }

  /** An active node holds a claim or is queued, never both and never neither. */
  ghost predicate NodesSettled(claims: map<string, string>, active: map<string, string>, queued: set<string>) {
    forall p :: p in active ==> ((p in claims && claims[p] != "") <==> p !in queued)
  }

  /** No owner, and the next status check will decide. */
  predicate AwaitsCheck(st: IpStatus) {
    st.node == "" && (st.state == Error || st.state == InProgress)
  }

  /** A known IP is owned by an active node, or queued, or awaits a status check; the first two
      never hold together. */
  ghost predicate IPSettled(st: IpStatus, active: map<string, string>, queued: bool) {
    if queued then st.node !in active else st.node in active || AwaitsCheck(st)
  }

  ghost predicate IPsSettled(status: map<string, IpStatus>, active: map<string, string>, queued: set<string>) {
    forall ip :: ip in status ==> IPSettled(status[ip], active, ip in queued)
  }

  /** An IP reported active is owned by an active node. */
  ghost predicate ActiveOwned(status: map<string, IpStatus>, active: map<string, string>) {
    forall ip :: ip in status && status[ip].state == Active ==> status[ip].node in active
  }

  /** Conservation with the queues given as sets. */
  ghost predicate Settled(claims: map<string, string>, status: map<string, IpStatus>, active: map<string, string>,
                          ipQueue: set<string>, nodeQueue: set<string>) {
    && OwnersClaim(claims, status)
    && NodesSettled(claims, active, nodeQueue)
    && IPsSettled(status, active, ipQueue)
    && ActiveOwned(status, active)
  }

  ghost predicate Conserved(s: Pool) {
    Agreement(s) && Settled(s.claims, s.status, s.active, ToSet(s.ipQueue), ToSet(s.nodeQueue))
  }

  /** Settled but for one IP, which is about to be given another status. */
  ghost predicate SettledBut(s: Pool, ip: string) {
    && OwnersClaim(s.claims, s.status) && ActiveOwned(s.status, s.active)
    && NodesSettled(s.claims, s.active, ToSet(s.nodeQueue))
    && (forall x :: x in s.status && x != ip ==> IPSettled(s.status[x], s.active, x in s.ipQueue))
  }

  // ----- which answers keep it -----

  /** A foreign owner of a known IP that the queues happen to agree with. */
  ghost predicate Absorbs(s: Pool, ip: string, owner: string) {
    if owner in s.active then ip !in s.ipQueue && owner !in s.nodeQueue else ip in s.ipQueue
  }

  /** The answers the controller can take in: a first look, the recorded owner, no owner, or a
      foreign owner that is absorbed. */
  ghost predicate Acceptable(s: Pool, ip: string, answer: Answer) {
    answer.Owner? && ip in s.status ==>
      answer.node == s.status[ip].node || answer.node == "" || Absorbs(s, ip, answer.node)
  }

  /** A provider that names only the recorded owner, nobody, or an error for an IP it was asked
      about before. */
  ghost predicate Faithful(s: Pool, ip: string, answer: Answer) {
    answer.Owner? && ip in s.status ==> answer.node == s.status[ip].node || answer.node == ""
  }

  predicate Due(s: Pool, ip: string, t: StatusTick) {
    StatusFor(s, ip).nextRetry <= s.clock + t.delay
  }

  // ----- polling -----

  lemma SeeConserves(s: Pool, ip: string, delay: nat)
    requires Conserved(s) && ip in s.ips && ip in s.status
    ensures Conserved(See(s, ip, delay)) && See(s, ip, delay).status == s.status
  {
  }

  /** A check that fails keeps the owner on record. */
  lemma FailedSettles(claims: map<string, string>, status: map<string, IpStatus>, active: map<string, string>,
                      ips: set<string>, nodes: set<string>, ip: string, st: IpStatus)
    requires Settled(claims, status, active, ips, nodes) && ip in status
    requires st.node == status[ip].node && (st.state == Error || st.state == InProgress)
    ensures Settled(claims, status[ip := st], active, ips, nodes)
  {
  }

  /** An IP the provider does not know loses its owner: an active owner queues again, and without one
      the IP leaves the queue. */
  lemma DisownedSettles(claims: map<string, string>, status: map<string, IpStatus>, active: map<string, string>,
                        ips: set<string>, nodes: set<string>, ip: string, st: IpStatus)
    requires Settled(claims, status, active, ips, nodes) && ClaimsAgree(claims, status) && ip in status
    requires "" !in claims && st.node == "" && st.state == Error
    ensures var node := status[ip].node;
      Settled(claims - {node}, status[ip := st], active,
              if node in active then ips else ips - {ip}, if node in active then nodes + {node} else nodes)
  {
  }

  lemma ErrorIs(s: Pool, ip: string, st: IpStatus, err: ProviderError, stamp: nat)
    ensures var t := StatusError(s, ip, st, err, stamp);
      && t.active == s.active && t.status == s.status[ip := ErrorStatus(st, err, s.clock + stamp)]
      && t.claims == (if err == NotFound then s.claims - {st.node} else s.claims)
      && t.nodeQueue == AddIf(err == NotFound && st.node in s.active, s.nodeQueue, st.node, true)
      && t.ipQueue == DeleteIf(err == NotFound && st.node !in s.active, s.ipQueue, ip)
  {
  }

  lemma ErrorConserves(s: Pool, ip: string, err: ProviderError, stamp: nat)
    requires Conserved(s) && ip in s.status
    ensures Conserved(StatusError(s, ip, s.status[ip], err, stamp))
  {
    StatusErrorKeeps(s, ip, err, stamp);
    ErrorIs(s, ip, s.status[ip], err, stamp);
    SetIncluding(s.nodeQueue, s.status[ip].node, true);
    SetWithout(s.ipQueue, ip);
    var st := ErrorStatus(s.status[ip], err, s.clock + stamp);
    if err == NotFound {
      DisownedSettles(s.claims, s.status, s.active, ToSet(s.ipQueue), ToSet(s.nodeQueue), ip, st);
    } else {
      FailedSettles(s.claims, s.status, s.active, ToSet(s.ipQueue), ToSet(s.nodeQueue), ip, st);
    }
  }

  /** The recorded owner is confirmed. */
  lemma SameOwnerConserves(s: Pool, ip: string, stamp: nat)
    requires Conserved(s) && ip in s.status
    ensures Conserved(StatusOk(s, ip, true, s.status[ip], s.status[ip].node, stamp))
  {
    StatusOkKeeps(s, ip, true, s.status[ip].node, stamp);
  }

  lemma AdoptOwners(s: Pool, ip: string, known: bool, owner: string, st: IpStatus)
    requires ClaimsAgree(s.claims, s.status) && OwnersClaim(s.claims, s.status)
    requires ip in s.status && s.status[ip].node != owner == st.node && "" !in s.status
    ensures var t := Adopt(s, ip, known, s.status[ip].node, owner);
      OwnersClaim(t.claims, t.status[ip := st])
  {
  }

  lemma AdoptActive(s: Pool, ip: string, known: bool, owner: string, st: IpStatus)
    requires ActiveOwned(s.status, s.active)
    requires ip in s.status && owner == st.node && (st.state == Active ==> owner in s.active)
    ensures var t := Adopt(s, ip, known, s.status[ip].node, owner);
      ActiveOwned(t.status[ip := st], s.active)
  {
  }

  /** Nodes stay settled exactly if the new owner, when active, was not waiting for an IP
      (or is taken off the queue, on a first look). */
  lemma AdoptNodes(s: Pool, ip: string, known: bool, owner: string)
    requires Agreement(s) && OwnersClaim(s.claims, s.status)
    requires NodesSettled(s.claims, s.active, ToSet(s.nodeQueue))
    requires ip in s.status && s.status[ip].node != owner && ip != ""
    ensures var t := Adopt(s, ip, known, s.status[ip].node, owner);
      NodesSettled(t.claims, s.active, ToSet(t.nodeQueue)) <==>
      (known && owner in s.active ==> owner !in s.nodeQueue)
  {
  }

  /** IPs stay settled exactly if the IP ends up queued just when its new owner is not active. */
  lemma AdoptIPs(s: Pool, ip: string, known: bool, owner: string, st: IpStatus)
    requires Agreement(s)
    requires forall x :: x in s.status && x != ip ==> IPSettled(s.status[x], s.active, x in s.ipQueue)
    requires ip in s.status && owner == st.node && !AwaitsCheck(st)
    ensures var t := Adopt(s, ip, known, s.status[ip].node, owner);
      IPsSettled(t.status[ip := st], s.active, ToSet(t.ipQueue)) <==>
      (owner in s.active <==> !(ip in s.ipQueue || (!known && owner !in s.active)))
  {
    var t := Adopt(s, ip, known, s.status[ip].node, owner);
    var status := t.status[ip := st];
    assert forall x :: x in status && x != ip ==> IPSettled(status[x], s.active, x in ToSet(t.ipQueue));
    assert IPsSettled(status, s.active, ToSet(t.ipQueue)) <==> IPSettled(st, s.active, ip in ToSet(t.ipQueue));
  }

  lemma AdoptSettles(s: Pool, ip: string, known: bool, owner: string, st: IpStatus)
    requires Agreement(s) && ip in s.status && s.status[ip].node != owner == st.node
    requires SettledBut(s, ip)
    requires !AwaitsCheck(st) && (st.state == Active ==> owner in s.active)
    requires owner == "" ==> ip in s.ipQueue
    ensures var t := Adopt(s, ip, known, s.status[ip].node, owner);
      Settled(t.claims, t.status[ip := st], s.active, ToSet(t.ipQueue), ToSet(t.nodeQueue)) <==>
      (owner == "" || if known then Absorbs(s, ip, owner) else owner in s.active ==> ip !in s.ipQueue)
  {
    AdoptOwners(s, ip, known, owner, st);
    AdoptActive(s, ip, known, owner, st);
    AdoptNodes(s, ip, known, owner);
    AdoptIPs(s, ip, known, owner, st);
  }

  lemma FrontKeeps(s: Pool, when: bool, ip: string)
    requires Agreement(s) && ip in s.status
    ensures Agreement(s.(ipQueue := AddIf(when, s.ipQueue, ip, true)))
  {
  }

  /** A successful answer that changes the owner, on a first look or later. */
  lemma NewOwnerConserves(s: Pool, ip: string, known: bool, owner: string, stamp: nat)
    requires Agreement(s) && ip in s.status && s.status[ip].node != owner
    requires SettledBut(s, ip)
    ensures Conserved(StatusOk(s, ip, known, s.status[ip], owner, stamp)) <==>
      (owner == "" || if known then Absorbs(s, ip, owner) else owner in s.active ==> ip !in s.ipQueue)
  {
    var t, st := StatusOk(s, ip, known, s.status[ip], owner, stamp), HealthyStatus(s.active, owner, s.clock + stamp);
    assert Agreement(t) by {
      StatusOkKeeps(s, ip, known, owner, stamp);
    }
    StatusOkFrame(s, ip, known, s.status[ip], owner, stamp);
    FrontKeeps(s, owner == "", ip);
    var s1 := s.(ipQueue := AddIf(owner == "", s.ipQueue, ip, true));
    AdoptSettles(s1, ip, known, owner, st);
  }

  /** What a first look starts from: a status without owner, and nothing queued for it. */
  lemma SeenSettled(s: Pool, ip: string, delay: nat)
    requires Conserved(s) && ip in s.ips && ip !in s.status
    ensures var u := See(s, ip, delay);
      Agreement(u) && SettledBut(u, ip) && ip !in u.ipQueue && ip in u.status && u.status[ip] == NEW_STATUS
  {
    FirstSeenKeeps(s, ip, delay);
    assert forall x :: x in s.status ==> See(s, ip, delay).status[x] == s.status[x];
  }

  /** A first look settles whatever the answer. */
  lemma FirstLookConserves(s: Pool, ip: string, t: StatusTick)
    requires Conserved(s) && ip in s.ips && ip !in s.status && Due(s, ip, t)
    ensures Conserved(CheckIP(s, ip, t))
  {
    var s1 := See(s, ip, t.delay);
    SeenSettled(s, ip, t.delay);
    match t.answer
    case Failed(err) => FirstErrorConserves(s1, ip, err, t.stamp);
    case Owner(owner) =>
      if owner == "" {
        UnownedConserves(s1, ip, t.stamp);
      } else {
        NewOwnerConserves(s1, ip, false, owner, t.stamp);
      }
  }

  lemma FirstErrorConserves(s: Pool, ip: string, err: ProviderError, stamp: nat)
    requires Agreement(s) && ip in s.status && s.status[ip] == NEW_STATUS && ip !in s.ipQueue
    requires SettledBut(s, ip)
    ensures Conserved(StatusError(s, ip, NEW_STATUS, err, stamp))
  {
    StatusErrorKeeps(s, ip, err, stamp);
    ErrorIs(s, ip, NEW_STATUS, err, stamp);
    var st := ErrorStatus(NEW_STATUS, err, s.clock + stamp);
    assert AwaitsCheck(st) && s.claims - {""} == s.claims;
    NewStatusSettles(s, ip, st, ToSet(s.ipQueue));
  }

  /** An IP without owner that ends up queued, or awaits a check and is not. */
  lemma NewStatusSettles(s: Pool, ip: string, st: IpStatus, queued: set<string>)
    requires SettledBut(s, ip) && "" !in s.active && ip in s.status && s.status[ip].node == st.node == ""
    requires st.state != Active && (ip in queued || AwaitsCheck(st))
    requires forall x :: x != ip ==> (x in queued <==> x in s.ipQueue)
    ensures Settled(s.claims, s.status[ip := st], s.active, queued, ToSet(s.nodeQueue))
  {
  }

  lemma UnownedConserves(s: Pool, ip: string, stamp: nat)
    requires Agreement(s) && ip in s.status && s.status[ip].node == ""
    requires SettledBut(s, ip)
    ensures Conserved(StatusOk(s, ip, false, s.status[ip], "", stamp))
  {
    StatusOkKeeps(s, ip, false, "", stamp);
    var t, st := StatusOk(s, ip, false, s.status[ip], "", stamp), HealthyStatus(s.active, "", s.clock + stamp);
    assert t.claims == s.claims && t.nodeQueue == s.nodeQueue && t.active == s.active && t.status == s.status[ip := st];
    NewStatusSettles(s, ip, st, ToSet(t.ipQueue));
  }

  lemma KnownAnswerConserves(s: Pool, ip: string, t: StatusTick)
    requires Conserved(s) && ip in s.ips && ip in s.status && Due(s, ip, t)
    ensures Conserved(CheckIP(s, ip, t)) <==> Acceptable(s, ip, t.answer)
  {
    SeeConserves(s, ip, t.delay);
    var s1 := See(s, ip, t.delay);
    match t.answer
    case Failed(err) => ErrorConserves(s1, ip, err, t.stamp);
    case Owner(owner) =>
      if owner == s.status[ip].node {
        SameOwnerConserves(s1, ip, t.stamp);
      } else {
        NewOwnerConserves(s1, ip, true, owner, t.stamp);
      }
  }

  /** Polling one due IP conserves exactly when the answer is acceptable. */
  lemma AnswerConserves(s: Pool, ip: string, t: StatusTick)
    requires Conserved(s) && ip in s.ips && Due(s, ip, t)
    ensures Conserved(CheckIP(s, ip, t)) <==> Acceptable(s, ip, t.answer)
  {
    if ip in s.status {
      KnownAnswerConserves(s, ip, t);
    } else {
      FirstLookConserves(s, ip, t);
    }
  }

  lemma NotDueConserves(s: Pool, ip: string, t: StatusTick)
    requires Conserved(s) && ip in s.ips && !Due(s, ip, t)
    ensures Conserved(CheckIP(s, ip, t))
  {
  }

  /** The poll's answers are acceptable where they are asked for. */
  ghost predicate AcceptablePoll(s: Pool, ips: seq<string>, k: nat, ticks: nat -> StatusTick)
    decreases |ips|
  {
    ips != [] && !ticks(k).cancelled ==>
      && (Due(s, ips[0], ticks(k)) ==> Acceptable(s, ips[0], ticks(k).answer))
      && AcceptablePoll(CheckIP(s, ips[0], ticks(k)), ips[1..], k + 1, ticks)
  }

  lemma {:induction false} CheckIPsConserves(s: Pool, ips: seq<string>, k: nat, ticks: nat -> StatusTick)
    requires Conserved(s) && AcceptablePoll(s, ips, k, ticks)
    requires forall ip :: ip in ips ==> ip in s.ips
    ensures Conserved(CheckIPs(s, ips, k, ticks))
    decreases |ips|
  {
    if ips != [] && !ticks(k).cancelled {
      CheckIPKeeps(s, ips[0], ticks(k));
      if Due(s, ips[0], ticks(k)) {
        AnswerConserves(s, ips[0], ticks(k));
      } else {
        NotDueConserves(s, ips[0], ticks(k));
      }
      CheckIPsConserves(CheckIP(s, ips[0], ticks(k)), ips[1..], k + 1, ticks);
    }
  }

  // ----- the other steps -----

  lemma ForgetConserves(s: Pool, ip: string)
    requires ip in s.status && "" !in s.claims && "" !in s.status
    requires ClaimsAgree(s.claims, s.status)
    requires Settled(s.claims, s.status, s.active, ToSet(s.ipQueue), ToSet(s.nodeQueue))
    ensures var t := Forget(s, ip);
      Settled(t.claims, t.status, t.active, ToSet(t.ipQueue), ToSet(t.nodeQueue))
  {
  }

  lemma {:induction false} ForgetUnwantedConserves(s: Pool, wanted: seq<string>, order: seq<string>)
    requires ClaimsAgree(s.claims, s.status) && "" !in s.claims && "" !in s.status
    requires QueueKnown(s.ipQueue, s.status.Keys) && QueueKnown(s.nodeQueue, s.active.Keys)
    requires Settled(s.claims, s.status, s.active, ToSet(s.ipQueue), ToSet(s.nodeQueue))
    ensures var t := ForgetUnwanted(s, wanted, order);
      Settled(t.claims, t.status, t.active, ToSet(t.ipQueue), ToSet(t.nodeQueue))
    decreases |order|
  {
    if order != [] {
      var s1 := s;
      if order[0] in s.status && order[0] !in wanted {
        ForgetKeeps(s, order[0]);
        ForgetConserves(s, order[0]);
        s1 := Forget(s, order[0]);
      }
      ForgetUnwantedConserves(s1, wanted, order[1..]);
    }
  }

  lemma UpdateIPsConserves(s: Pool, ips: seq<string>, desiredIPs: nat, order: seq<string>)
    requires Conserved(s) && IterationOrder(order, s.status.Keys) && SpecAllowed(s, ips)
    ensures Conserved(UpdateIPs(s, ips, desiredIPs, order))
  {
    UpdateIPsKeeps(s, ips, desiredIPs, order);
    ForgetUnwantedConserves(s.(dnsDirty := true), Enabled(ips, desiredIPs), order);
  }

  /** A disabled holder keeps its claim and its IP is queued. */
  lemma ReleasedSettles(claims: map<string, string>, status: map<string, IpStatus>, active: map<string, string>,
                        ips: set<string>, nodes: set<string>, ip: string, p: string, st: IpStatus)
    requires Settled(claims, status, active, ips, nodes) && ClaimsAgree(claims, status)
    requires p != "" && p in active && p in claims && claims[p] == ip != ""
    requires ip in status && st.node == p && st.state == NoMatch
    ensures Settled(claims, status[ip := st], active - {p}, ips + {ip}, nodes - {p})
  {
  }

  /** A disabled node without an IP just leaves. */
  lemma LeaverSettles(claims: map<string, string>, status: map<string, IpStatus>, active: map<string, string>,
                      ips: set<string>, nodes: set<string>, p: string)
    requires Settled(claims, status, active, ips, nodes) && "" !in status
    requires p != "" && p in active && (p in claims ==> claims[p] == "")
    ensures Settled(claims, status, active - {p}, ips, nodes - {p})
  {
  }

  lemma DisableNodeSettles(s: Pool, v: Visit)
    requires ClaimsAgree(s.claims, s.status) && "" !in s.active && "" !in s.status
    requires Settled(s.claims, s.status, s.active, ToSet(s.ipQueue), ToSet(s.nodeQueue))
    ensures var t := DisableNode(s, v);
      Settled(t.claims, t.status, t.active, ToSet(t.ipQueue), ToSet(t.nodeQueue))
  {
    var p := v.node.providerID;
    var ip := ClaimOf(s, p);
    if !s.crashed && p != "" && p in s.active {
      SetWithout(s.nodeQueue, p);
      if ip == "" {
        LeaverSettles(s.claims, s.status, s.active, ToSet(s.ipQueue), ToSet(s.nodeQueue), p);
      } else {
        SetIncluding(s.ipQueue, ip, false);
        ReleasedSettles(s.claims, s.status, s.active, ToSet(s.ipQueue), ToSet(s.nodeQueue), ip, p,
                        Released(s.status[ip], s.clock + v.delay));
      }
    }
  }

  lemma DisableNodeConserves(s: Pool, v: Visit)
    requires Conserved(s)
    ensures Conserved(DisableNode(s, v))
  {
    DisableNodeKeeps(s, v);
    DisableNodeSettles(s, v);
  }

  lemma {:induction false} DisableNodesConserves(s: Pool, visits: seq<Visit>)
    requires Conserved(s)
    ensures Conserved(DisableNodes(s, visits))
    decreases |visits|
  {
    if visits != [] {
      DisableNodeConserves(s, visits[0]);
      DisableNodesConserves(DisableNode(s, visits[0]), visits[1..]);
    }
  }

  /** A node enabled again takes its IP back off the queue. */
  lemma RegainedSettles(claims: map<string, string>, status: map<string, IpStatus>, active: map<string, string>,
                        ips: set<string>, nodes: set<string>, ip: string, p: string, name: string, st: IpStatus)
    requires Settled(claims, status, active, ips, nodes) && ClaimsAgree(claims, status) && p !in nodes
    requires p != "" && p !in active && p in claims && claims[p] == ip != ""
    requires ip in status && st.node == p && st.state == InProgress
    ensures Settled(claims, status[ip := st], active[p := name], ips - {ip}, nodes)
  {
  }

  /** A node enabled without a claim queues. */
  lemma NewcomerSettles(claims: map<string, string>, status: map<string, IpStatus>, active: map<string, string>,
                        ips: set<string>, nodes: set<string>, p: string, name: string)
    requires Settled(claims, status, active, ips, nodes) && "" !in status && p != ""
    requires p !in active && (p in claims ==> claims[p] == "")
    ensures Settled(claims, status, active[p := name], ips, nodes + {p})
  {
  }

  lemma EnableNodeSettles(s: Pool, v: Visit)
    requires ClaimsAgree(s.claims, s.status) && "" !in s.active && "" !in s.status
    requires QueueKnown(s.nodeQueue, s.active.Keys)
    requires Settled(s.claims, s.status, s.active, ToSet(s.ipQueue), ToSet(s.nodeQueue))
    ensures var t := EnableNode(s, v);
      Settled(t.claims, t.status, t.active, ToSet(t.ipQueue), ToSet(t.nodeQueue))
  {
    var p := v.node.providerID;
    var ip := ClaimOf(s, p);
    if !s.crashed && p != "" && p !in s.active {
      if ip == "" {
        SetIncluding(s.nodeQueue, p, false);
        NewcomerSettles(s.claims, s.status, s.active, ToSet(s.ipQueue), ToSet(s.nodeQueue), p, v.node.name);
      } else {
        SetWithout(s.ipQueue, ip);
        RegainedSettles(s.claims, s.status, s.active, ToSet(s.ipQueue), ToSet(s.nodeQueue), ip, p, v.node.name,
                        Regained(s.status[ip], p, s.clock + v.delay));
      }
    }
  }

  lemma EnableNodeConserves(s: Pool, v: Visit)
    requires Conserved(s)
    ensures Conserved(EnableNode(s, v))
  {
    EnableNodeKeeps(s, v);
    EnableNodeSettles(s, v);
  }

  lemma {:induction false} EnableNodesConserves(s: Pool, visits: seq<Visit>)
    requires Conserved(s)
    ensures Conserved(EnableNodes(s, visits))
    decreases |visits|
  {
    if visits != [] {
      EnableNodeConserves(s, visits[0]);
      EnableNodesConserves(EnableNode(s, visits[0]), visits[1..]);
    }
  }

  lemma AdoptOneConserves(s: Pool, ip: string)
    requires "" !in s.active && ip !in s.status
    requires Settled(s.claims, s.status, s.active, ToSet(s.ipQueue), ToSet(s.nodeQueue))
    ensures var t := AdoptOne(s, ip);
      Settled(t.claims, t.status, t.active, ToSet(t.ipQueue), ToSet(t.nodeQueue))
  {
  }

  lemma {:induction false} AdoptPendingConserves(s: Pool, pending: seq<string>)
    requires "" !in s.active && NoDup(pending) && forall ip :: ip in pending ==> ip !in s.status
    requires Settled(s.claims, s.status, s.active, ToSet(s.ipQueue), ToSet(s.nodeQueue))
    ensures var t := AdoptPending(s, pending);
      Settled(t.claims, t.status, t.active, ToSet(t.ipQueue), ToSet(t.nodeQueue))
    decreases |pending|
  {
    if pending != [] {
      HeadGone(pending);
      AdoptOneConserves(s, pending[0]);
      AdoptPendingConserves(AdoptOne(s, pending[0]), pending[1..]);
    }
  }

  lemma PendingIPsConserves(s: Pool, cancelled: bool, persisted: bool)
    requires Conserved(s)
    ensures Conserved(ReconcilePendingIPs(s, cancelled, persisted))
  {
    PendingIPsKeeps(s, cancelled, persisted);
    if !cancelled && s.pendingIPs != [] && persisted {
      AdoptPendingConserves(s.(dnsDirty := true, log := s.log + [Persisted(s.pendingIPs)]), s.pendingIPs);
    }
  }

  lemma {:induction false} CreateIPsFrame(s: Pool, k: nat, results: nat -> CreateResult)
    ensures var t := CreateIPs(s, k, results);
      && t.claims == s.claims && t.status == s.status && t.active == s.active
      && t.ipQueue == s.ipQueue && t.nodeQueue == s.nodeQueue && t.ips == s.ips
    decreases s.desiredIPs - |s.ips| - |s.pendingIPs|
  {
    if |s.ips| + |s.pendingIPs| < s.desiredIPs && results(k).NewIP? {
      var ip := results(k).ip;
      CreateIPsFrame(s.(dnsDirty := true, pendingIPs := s.pendingIPs + [ip], createAttempts := 0,
                       log := s.log + [Created(ip)]), k + 1, results);
    }
  }

  lemma DesiredIPsConserves(s: Pool, env: CreateEnv)
    requires Conserved(s) && FreshCreates(Tick(s, env.delay), 0, env.results)
    ensures Conserved(ReconcileDesiredIPs(s, env))
  {
    DesiredIPsKeeps(s, env);
    CreateIPsFrame(Tick(s, env.delay), 0, env.results);
  }

  // ----- assignment -----

  /** Settled, counting the retry lists as queued. */
  ghost predicate LoopConserved(l: Loop) {
    && LoopAgreement(l)
    && Settled(l.s.claims, l.s.status, l.s.active,
               ToSet(l.s.ipQueue) + ToSet(l.retryIPs), ToSet(l.s.nodeQueue) + ToSet(l.retryNodes))
  }

  /** An attempt takes the pair out of the queued sets when it succeeds, and leaves them queued when
      it is refused. */
  lemma AttemptSettles(s: Pool, ip: string, node: string, t: AssignTick, ips: set<string>, nodes: set<string>)
    requires ClaimsAgree(s.claims, s.status) && "" !in s.active && "" !in s.status
    requires Settled(s.claims, s.status, s.active, ips, nodes)
    requires ip in s.status && ip in ips && node in s.active && node in nodes
    ensures var u := Attempt(s, ip, node, t);
      if Succeeds(t.result) then Settled(u.claims, u.status, u.active, ips - {ip}, nodes - {node})
      else Settled(u.claims, u.status, u.active, ips, nodes)
  {
  }

  lemma HeadToRetry(q: seq<string>, retry: seq<string>)
    requires NoDup(q) && q != [] && q[0] !in retry
    ensures ToSet(q[1..]) + ToSet(retry) == ToSet(q) + ToSet(retry) - {q[0]}
    ensures ToSet(q[1..]) + ToSet(retry + [q[0]]) == ToSet(q) + ToSet(retry)
  {
  }

  lemma TryHeadsSettles(l: Loop, t: AssignTick)
    requires ClaimsAgree(l.s.claims, l.s.status) && "" !in l.s.active && "" !in l.s.status
    requires QueueKnown(l.s.ipQueue, l.s.status.Keys) && QueueKnown(l.s.nodeQueue, l.s.active.Keys)
    requires l.s.ipQueue != [] && l.s.ipQueue[0] !in l.retryIPs
    requires l.s.nodeQueue != [] && l.s.nodeQueue[0] !in l.retryNodes
    requires Settled(l.s.claims, l.s.status, l.s.active,
                     ToSet(l.s.ipQueue) + ToSet(l.retryIPs), ToSet(l.s.nodeQueue) + ToSet(l.retryNodes))
    ensures var u := TryHeads(l, t);
      Settled(u.s.claims, u.s.status, u.s.active,
              ToSet(u.s.ipQueue) + ToSet(u.retryIPs), ToSet(u.s.nodeQueue) + ToSet(u.retryNodes))
  {
    var s := l.s;
    var ip, node := s.ipQueue[0], s.nodeQueue[0];
    HeadToRetry(s.ipQueue, l.retryIPs);
    if !HeadIPWaits(s) {
      HeadToRetry(s.nodeQueue, l.retryNodes);
      if !HeadNodeWaits(s) {
        var s2 := s.(ipQueue := s.ipQueue[1..], nodeQueue := s.nodeQueue[1..]);
        AttemptSettles(s2, ip, node, t,
                       ToSet(s.ipQueue) + ToSet(l.retryIPs), ToSet(s.nodeQueue) + ToSet(l.retryNodes));
        AttemptFrame(s2, ip, node, t);
      }
    }
  }

  lemma AssignLoopConserves(l: Loop, k: nat, ticks: nat -> AssignTick)
    requires LoopConserved(l)
    ensures LoopConserved(AssignLoop(l, k, ticks))
  {
    var inv := (u: Loop) => LoopConserved(u);
    forall u: Loop, delay: nat | inv(u)
      ensures inv(u.(s := Tick(u.s, delay)))
    {
      LoopTicks(u, delay);
    }
    forall u: Loop | inv(u)
      ensures inv(u.(s := WakeBy(u.s, u.s.nextAssignment)))
    {
      LoopTicks(u, 0);
    }
    forall u: Loop, t: AssignTick | inv(u) && TakesTurn(u)
      ensures inv(TryHeads(u, t))
    {
      TryHeadsKeeps(u, t);
      TryHeadsSettles(u, t);
    }
    AssignLoopKeepsAny(inv, l, k, ticks);
  }

  lemma AssignmentConserves(s: Pool, ticks: nat -> AssignTick)
    requires Conserved(s)
    ensures Conserved(ReconcileAssignment(s, ticks))
  {
    var l := Loop(s, [], []);
    assert ToSet(s.ipQueue) + ToSet([]) == ToSet(s.ipQueue) && ToSet(s.nodeQueue) + ToSet([]) == ToSet(s.nodeQueue);
    AssignLoopConserves(l, 0, ticks);
    AssignmentKeeps(s, ticks);
    var e := AssignLoop(l, 0, ticks);
    assert ToSet(IncludingAll(e.s.ipQueue, e.retryIPs)) == ToSet(e.s.ipQueue) + ToSet(e.retryIPs);
    assert ToSet(IncludingAll(e.s.nodeQueue, e.retryNodes)) == ToSet(e.s.nodeQueue) + ToSet(e.retryNodes);
  }

  // ----- runs -----

  ghost predicate AcceptableStep(s: Pool, step: Step) {
    step.ReconcileStep? ==>
      AcceptablePoll(BeforePoll(s, step.env), BeforePoll(s, step.env).ips, 0, step.env.status)
  }

  ghost predicate AcceptableRun(s: Pool, steps: seq<Step>)
    decreases |steps|
  {
    steps == [] ||
    (Allowed(s, steps[0]) && AcceptableStep(s, steps[0]) && AcceptableRun(Apply(s, steps[0]), steps[1..]))
  }

  lemma ReconcileToDNSConserves(s: Pool, env: ReconcileEnv)
    requires Conserved(s) && Allowed(s, ReconcileStep(env)) && AcceptableStep(s, ReconcileStep(env))
    ensures Conserved(ReconcileToDNS(s, env))
  {
    var s0 := ReconcileStart(s, env);
    assert Conserved(s0);
    DesiredIPsConserves(s0, env.create);
    PendingIPsConserves(ReconcileDesiredIPs(s0, env.create), env.pendingCancelled, env.persisted);
    var s2 := BeforePoll(s, env);
    CheckIPsConserves(s2, s2.ips, 0, env.status);
    AssignmentConserves(ReconcileIPStatus(s2, env.status), env.assign);
  }

  ghost predicate ConservedOrCrash(s: Pool) {
    Conserved(s.(crashed := false))
  }

  lemma NothingLost(s: Pool, t: Pool)
    requires Conserved(s) && AgreementOrCrash(t)
    requires t.claims == s.claims && t.status == s.status && t.active == s.active
    requires t.ipQueue == s.ipQueue && t.nodeQueue == s.nodeQueue
    ensures ConservedOrCrash(t)
  {
  }

  lemma ApplyConserves(s: Pool, step: Step)
    requires Conserved(s) && Allowed(s, step) && AcceptableStep(s, step)
    ensures ConservedOrCrash(Apply(s, step))
  {
    ApplyKeeps(s, step);
    match step {
      case ProvidersStep(provider, region, coolOff) =>
        ProvidersConserve(s, provider, region, coolOff);
      case SpecStep(ips, desiredIPs, order) => UpdateIPsConserves(s, ips, desiredIPs, order);
      case DnsStep(_) => NothingLost(s, Apply(s, step));
      case DisableStep(visits) => DisableNodesConserves(s, visits);
      case EnableStep(visits) => EnableNodesConserves(s, visits);
      case ReconcileStep(env) =>
        ReconcileToDNSConserves(s, env);
        ReconcileToDNSKeeps(s, env);
        NothingLost(ReconcileToDNS(s, env), Apply(s, step));
    }
    if !step.ReconcileStep? {
      var t := Apply(s, step);
      assert t.(crashed := false) == t;
    }
  }

  lemma ProvidersConserve(s: Pool, provider: string, region: string, coolOff: nat)
    requires Conserved(s)
    ensures Conserved(UpdateProviders(s, provider, region, coolOff))
  {
  }

  /** Conservation over every run whose status answers are acceptable. */
  lemma {:induction false} RunConserves(s: Pool, steps: seq<Step>)
    requires ConservedOrCrash(s) && AcceptableRun(s, steps)
    ensures ConservedOrCrash(Run(s, steps))
    decreases |steps|
  {
    if steps != [] {
      if s.crashed {
        RunConserves(s, steps[1..]);
      } else {
        assert s == s.(crashed := false);
        ApplyConserves(s, steps[0]);
        RunConserves(Apply(s, steps[0]), steps[1..]);
      }
    }
  }

  // ----- a faithful provider -----

  /** The provider is faithful wherever the poll asks it. */
  ghost predicate FaithfulPoll(s: Pool, ips: seq<string>, k: nat, ticks: nat -> StatusTick)
    decreases |ips|
  {
    ips != [] && !ticks(k).cancelled ==>
      && (Due(s, ips[0], ticks(k)) ==> Faithful(s, ips[0], ticks(k).answer))
      && FaithfulPoll(CheckIP(s, ips[0], ticks(k)), ips[1..], k + 1, ticks)
  }

  ghost predicate FaithfulRun(s: Pool, steps: seq<Step>)
    decreases |steps|
  {
    steps == [] ||
    (&& Allowed(s, steps[0])
     && (steps[0].ReconcileStep? ==>
           FaithfulPoll(BeforePoll(s, steps[0].env), BeforePoll(s, steps[0].env).ips, 0, steps[0].env.status))
     && FaithfulRun(Apply(s, steps[0]), steps[1..]))
  }

  lemma {:induction false} FaithfulPollIsAcceptable(s: Pool, ips: seq<string>, k: nat, ticks: nat -> StatusTick)
    requires FaithfulPoll(s, ips, k, ticks)
    ensures AcceptablePoll(s, ips, k, ticks)
    decreases |ips|
  {
    if ips != [] && !ticks(k).cancelled {
      FaithfulPollIsAcceptable(CheckIP(s, ips[0], ticks(k)), ips[1..], k + 1, ticks);
    }
  }

  lemma {:induction false} FaithfulRunIsAcceptable(s: Pool, steps: seq<Step>)
    requires FaithfulRun(s, steps)
    ensures AcceptableRun(s, steps)
    decreases |steps|
  {
    if steps != [] {
      if steps[0].ReconcileStep? {
        var s2 := BeforePoll(s, steps[0].env);
        FaithfulPollIsAcceptable(s2, s2.ips, 0, steps[0].env.status);
      }
      FaithfulRunIsAcceptable(Apply(s, steps[0]), steps[1..]);
    }
  }

  /** Conservation under provider fidelity, over every run from an empty pool. */
  lemma FaithfulRunsConserve(clock: Time, steps: seq<Step>)
    requires clock > 0 && FaithfulRun(NewPool(clock), steps)
    ensures ConservedOrCrash(Run(NewPool(clock), steps))
  {
    FaithfulRunIsAcceptable(NewPool(clock), steps);
    RunConserves(NewPool(clock), steps);
  }

  // ----- an answer that breaks it -----

  /** A pass in which every lookup fails and nothing else happens. */
  ghost predicate LookupsFail(env: ReconcileEnv) {
    && env.start == 0 && !env.create.cancelled && env.create.delay == 0 && !env.pendingCancelled
    && (forall k :: env.status(k) == StatusTick(false, 0, Failed(Opaque("timeout")), 0))
  }

  const ONE_IP := "192.0.2.1"

  /** One IP in the spec and one node enabled, then the pass. */
  ghost function OneIPOneNode(env: ReconcileEnv): seq<Step> {
    [SpecStep([ONE_IP], 0, []), EnableStep([Visit(NodeRef("n", "node"), 0)]), ReconcileStep(env)]
  }

  /** Conservation breaks on a reachable state: the first look at an IP fails, and the next one finds
      it on an active node that was queued meanwhile. The node then holds the IP and stays queued. */
  lemma LateOwnerBreaks(env: ReconcileEnv)
    requires LookupsFail(env)
    ensures AllowedRun(NewPool(1), OneIPOneNode(env))
    ensures var s, t := Run(NewPool(1), OneIPOneNode(env)), StatusTick(false, MINUTE, Owner("n"), 0);
      && ONE_IP in s.ips && Conserved(s) && Due(s, ONE_IP, t)
      && ClaimOf(CheckIP(s, ONE_IP, t), "n") == ONE_IP && "n" in CheckIP(s, ONE_IP, t).nodeQueue
      && !Conserved(CheckIP(s, ONE_IP, t))
  {
    FailedRun(env);
    QueuedOwner(Run(NewPool(1), OneIPOneNode(env)));
  }

  lemma FailedRun(env: ReconcileEnv)
    requires LookupsFail(env)
    ensures AllowedRun(NewPool(1), OneIPOneNode(env))
    ensures AfterFailure(Run(NewPool(1), OneIPOneNode(env)))
  {
    var steps, v := OneIPOneNode(env), Visit(NodeRef("n", "node"), 0);
    OneEnabled(v);
    var s2 := Apply(Apply(NewPool(1), steps[0]), steps[1]);
    RunOfThree(NewPool(1), steps[0], steps[1], steps[2]);
    assert Allowed(s2, steps[2]);
    FailedPass(s2, env);
  }

  lemma OneEnabled(v: Visit)
    requires v.node.providerID != ""
    ensures var spec := SpecStep([ONE_IP], 0, []);
      && Allowed(NewPool(1), spec)
      && Apply(Apply(NewPool(1), spec), EnableStep([v])) == NewPool(1).(ips := [ONE_IP], dnsDirty := true,
           active := map[v.node.providerID := v.node.name], nodeQueue := [v.node.providerID])
  {
    var s1 := Apply(NewPool(1), SpecStep([ONE_IP], 0, []));
    assert s1 == NewPool(1).(ips := [ONE_IP], dnsDirty := true);
    assert EnableNodes(EnableNode(s1, v), [v][1..]) == EnableNode(s1, v);
  }

  /** The IP's first look failed; the node waits for an IP. */
  ghost predicate AfterFailure(s: Pool) {
    && Conserved(s) && s.ips == [ONE_IP] && s.ipQueue == [] && s.nodeQueue == ["n"]
    && s.active == map["n" := "node"] && s.claims == map[]
    && s.status == map[ONE_IP := ErrorStatus(NEW_STATUS, Opaque("timeout"), s.clock)]
  }

  lemma QueuedOwner(s: Pool)
    requires AfterFailure(s)
    ensures var t := StatusTick(false, MINUTE, Owner("n"), 0);
      && Due(s, ONE_IP, t)
      && ClaimOf(CheckIP(s, ONE_IP, t), "n") == ONE_IP && "n" in CheckIP(s, ONE_IP, t).nodeQueue
      && !Conserved(CheckIP(s, ONE_IP, t))
  {
    AnswerConserves(s, ONE_IP, StatusTick(false, MINUTE, Owner("n"), 0));
  }

  lemma FailedPass(s: Pool, env: ReconcileEnv)
    requires LookupsFail(env) && s.ips == [ONE_IP] && s.status == map[] && s.ipQueue == []
    requires s.active == map["n" := "node"] && s.nodeQueue == ["n"] && s.claims == map[] && s.dns == None
    requires s.pendingIPs == [] && s.clock > 0 && !s.crashed && s.desiredIPs == 0 && s.createNextRetry == 0
    ensures AfterFailure(Reconcile(s, env))
  {
    var s1 := ReconcileStart(s, env);
    assert BeforePoll(s, env) == s1;
    FailedPoll(s1, env);
    var s2 := ReconcileIPStatus(s1, env.status);
    assert AssignLoop(Loop(s2, [], []), 0, env.assign) == Loop(s2, [], []);
    assert Reconcile(s, env) == s2;
  }

  lemma FailedPoll(s: Pool, env: ReconcileEnv)
    requires LookupsFail(env) && s.ips == [ONE_IP] && s.status == map[] && s.ipQueue == []
    requires s.active == map["n" := "node"] && s.nodeQueue == ["n"] && s.claims == map[]
    requires s.pendingIPs == [] && s.clock > 0 && !s.crashed
    ensures var t := ReconcileIPStatus(s, env.status);
      AfterFailure(t) && t.dns == s.dns && !t.crashed
  {
    var t := CheckIP(s, ONE_IP, env.status(0));
    assert s.ips[1..] == [];
    assert ReconcileIPStatus(s, env.status) == CheckIPs(t, [], 1, env.status) == t;
    assert t.status == map[ONE_IP := ErrorStatus(NEW_STATUS, Opaque("timeout"), s.clock)];
  }
}
