/** Claim agreement: what holds of the controller's indexes in every reachable state, whatever the
    provider answers. */
module PoolAgreement {
  import opened Options
  import opened RetrySchedules
  import opened OrderedQueues
  import opened PoolState

  /** A claimed IP is on record as owned by the claiming node. */
  ghost predicate ClaimsAgree(claims: map<string, string>, status: map<string, IpStatus>) {
    forall p :: p in claims && claims[p] != "" ==> claims[p] in status && status[claims[p]].node == p
  }

  /** A work queue repeats nothing and holds known values only. */
  ghost predicate QueueKnown(queue: seq<string>, known: set<string>) {
    NoDup(queue) && forall x :: x in queue ==> x in known
  }

  ghost predicate SpecListed(ips: seq<string>, known: set<string>) {
    NoDup(ips) && "" !in ips && forall ip :: ip in known ==> ip in ips
  }

  ghost predicate PendingFresh(pending: seq<string>, ips: seq<string>, known: set<string>) {
    NoDup(pending) && forall ip :: ip in pending ==> ip !in ips && ip !in known && ip != ""
  }

  ghost predicate Agreement(s: Pool) {
    && ClaimsAgree(s.claims, s.status)
    && QueueKnown(s.ipQueue, s.status.Keys)
    && QueueKnown(s.nodeQueue, s.active.Keys)
    && "" !in s.active && "" !in s.claims
    && SpecListed(s.ips, s.status.Keys)
    && PendingFresh(s.pendingIPs, s.ips, s.status.Keys)
    && s.clock > 0
    && !s.crashed
  }

  // ----- what the environment promises -----

  /** `order` is one way of iterating over the map's keys. */
  ghost predicate IterationOrder(order: seq<string>, keys: set<string>) {
    NoDup(order) && forall x :: x in order <==> x in keys
  }

  /** Spec IPs are distinct and non-empty, and do not list an IP that is still pending. */
  ghost predicate SpecAllowed(s: Pool, ips: seq<string>) {
    NoDup(ips) && "" !in ips && forall ip :: ip in ips ==> ip !in s.pendingIPs
  }

  /** CreateIP returns addresses the controller has not seen. */
  ghost predicate FreshCreates(s: Pool, k: nat, results: nat -> CreateResult)
    decreases s.desiredIPs - |s.ips| - |s.pendingIPs|
  {
    |s.ips| + |s.pendingIPs| < s.desiredIPs && results(k).NewIP? ==>
      var ip := results(k).ip;
      && ip != "" && ip !in s.ips && ip !in s.pendingIPs && ip !in s.status
      && FreshCreates(s.(dnsDirty := true, pendingIPs := s.pendingIPs + [ip], createAttempts := 0,
                         log := s.log + [Created(ip)]), k + 1, results)
  }

  ghost predicate Allowed(s: Pool, step: Step) {
    match step
    case SpecStep(ips, _, order) => IterationOrder(order, s.status.Keys) && SpecAllowed(s, ips)
    case ReconcileStep(env) => FreshCreates(Tick(ReconcileStart(s, env), env.create.delay), 0, env.create.results)
    case _ => true
  }

  ghost predicate AllowedRun(s: Pool, steps: seq<Step>)
    decreases |steps|
  {
    steps == [] || (Allowed(s, steps[0]) && AllowedRun(Apply(s, steps[0]), steps[1..]))
  }

  lemma AllowedFirst(s: Pool, step: Step, rest: seq<Step>)
    ensures AllowedRun(s, [step] + rest) <==> Allowed(s, step) && AllowedRun(Apply(s, step), rest)
  {
  }

  lemma RunOfThree(s: Pool, a: Step, b: Step, c: Step)
    ensures Run(s, [a, b, c]) == Apply(Apply(Apply(s, a), b), c)
    ensures AllowedRun(s, [a, b, c]) <==>
      Allowed(s, a) && Allowed(Apply(s, a), b) && Allowed(Apply(Apply(s, a), b), c)
  {
    var s1 := Apply(s, a);
    var s2 := Apply(s1, b);
    assert [a] + [b, c] == [a, b, c] && [b] + [c] == [b, c] && [c] + [] == [c];
    RunFirst(s, a, [b, c]);
    RunFirst(s1, b, [c]);
    RunFirst(s2, c, []);
    AllowedFirst(s, a, [b, c]);
    AllowedFirst(s1, b, [c]);
    AllowedFirst(s2, c, []);
  }

  // ----- one step at a time -----

  lemma ForgetKeeps(s: Pool, ip: string)
    requires ClaimsAgree(s.claims, s.status) && "" !in s.claims && ip in s.status
    requires QueueKnown(s.ipQueue, s.status.Keys) && QueueKnown(s.nodeQueue, s.active.Keys)
    ensures var t := Forget(s, ip);
      && ClaimsAgree(t.claims, t.status) && "" !in t.claims && t.status == s.status - {ip}
      && QueueKnown(t.ipQueue, t.status.Keys) && QueueKnown(t.nodeQueue, t.active.Keys)
      && t.active == s.active && t.crashed == s.crashed && t.ips == s.ips && t.pendingIPs == s.pendingIPs
      && t.clock == s.clock
  {
  }

  lemma {:induction false} ForgetUnwantedKeeps(s: Pool, wanted: seq<string>, order: seq<string>)
    requires ClaimsAgree(s.claims, s.status) && "" !in s.claims
    requires QueueKnown(s.ipQueue, s.status.Keys) && QueueKnown(s.nodeQueue, s.active.Keys)
    ensures var t := ForgetUnwanted(s, wanted, order);
      && ClaimsAgree(t.claims, t.status) && "" !in t.claims
      && QueueKnown(t.ipQueue, t.status.Keys) && QueueKnown(t.nodeQueue, t.active.Keys)
      && t.active == s.active && t.crashed == s.crashed && t.ips == s.ips && t.pendingIPs == s.pendingIPs
      && t.clock == s.clock
      && (forall ip :: ip in t.status <==> ip in s.status && (ip in wanted || ip !in order))
    decreases |order|
  {
    if order != [] {
      assert order == [order[0]] + order[1..];
      var s1 := s;
      if order[0] in s.status && order[0] !in wanted {
        ForgetKeeps(s, order[0]);
        s1 := Forget(s, order[0]);
      }
      ForgetUnwantedKeeps(s1, wanted, order[1..]);
    }
  }

  /** A spec that replaces the old one once the known IPs it leaves out are forgotten. */
  lemma NewSpecKeeps(s: Pool, wanted: seq<string>, desiredIPs: nat, order: seq<string>)
    requires Agreement(s) && IterationOrder(order, s.status.Keys) && SpecAllowed(s, wanted)
    ensures Agreement(ForgetUnwanted(s.(dnsDirty := true), wanted, order).(ips := wanted, desiredIPs := desiredIPs))
  {
    ForgetUnwantedKeeps(s.(dnsDirty := true), wanted, order);
  }

  lemma EnabledAllowed(s: Pool, ips: seq<string>, desiredIPs: nat)
    requires SpecAllowed(s, ips)
    ensures SpecAllowed(s, Enabled(ips, desiredIPs))
  {
    assert forall ip :: ip in Enabled(ips, desiredIPs) ==> ip in ips;
  }

  lemma UpdateIPsKeeps(s: Pool, ips: seq<string>, desiredIPs: nat, order: seq<string>)
    requires Agreement(s) && IterationOrder(order, s.status.Keys) && SpecAllowed(s, ips)
    ensures Agreement(UpdateIPs(s, ips, desiredIPs, order))
  {
    EnabledAllowed(s, ips, desiredIPs);
    NewSpecKeeps(s, Enabled(ips, desiredIPs), desiredIPs, order);
  }

  lemma DisableNodeKeeps(s: Pool, v: Visit)
    requires Agreement(s)
    ensures Agreement(DisableNode(s, v))
  {
  }

  lemma {:induction false} DisableNodesKeeps(s: Pool, visits: seq<Visit>)
    requires Agreement(s)
    ensures Agreement(DisableNodes(s, visits))
    decreases |visits|
  {
    if visits != [] {
      DisableNodeKeeps(s, visits[0]);
      DisableNodesKeeps(DisableNode(s, visits[0]), visits[1..]);
    }
  }

  /** The owner EnableNodes writes back is the one already on record. */
  lemma EnableNodeKeeps(s: Pool, v: Visit)
    requires Agreement(s)
    ensures Agreement(EnableNode(s, v))
    ensures forall ip :: ip in s.status ==>
      ip in EnableNode(s, v).status && EnableNode(s, v).status[ip].node == s.status[ip].node
  {
  }

  lemma {:induction false} EnableNodesKeeps(s: Pool, visits: seq<Visit>)
    requires Agreement(s)
    ensures Agreement(EnableNodes(s, visits))
    decreases |visits|
  {
    if visits != [] {
      EnableNodeKeeps(s, visits[0]);
      EnableNodesKeeps(EnableNode(s, visits[0]), visits[1..]);
    }
  }

  lemma {:induction false} CreateIPsKeeps(s: Pool, k: nat, results: nat -> CreateResult)
    requires Agreement(s) && FreshCreates(s, k, results)
    ensures Agreement(CreateIPs(s, k, results))
    decreases s.desiredIPs - |s.ips| - |s.pendingIPs|
  {
    if |s.ips| + |s.pendingIPs| < s.desiredIPs && results(k).NewIP? {
      var ip := results(k).ip;
      CreateIPsKeeps(s.(dnsDirty := true, pendingIPs := s.pendingIPs + [ip], createAttempts := 0,
                        log := s.log + [Created(ip)]), k + 1, results);
    }
  }

  lemma {:induction false} AdoptPendingKeeps(s: Pool, pending: seq<string>)
    requires ClaimsAgree(s.claims, s.status) && QueueKnown(s.ipQueue, s.status.Keys) && NoDup(pending)
    requires forall ip :: ip in pending ==> ip !in s.status && ip != ""
    ensures var t := AdoptPending(s, pending);
      && ClaimsAgree(t.claims, t.status) && QueueKnown(t.ipQueue, t.status.Keys) && t.nodeQueue == s.nodeQueue
      && t.active == s.active && t.claims == s.claims && t.crashed == s.crashed && t.clock == s.clock
      && (forall ip :: ip in t.status <==> ip in s.status || ip in pending)
    decreases |pending|
  {
    if pending != [] {
      assert pending == [pending[0]] + pending[1..];
      HeadGone(pending);
      AdoptPendingKeeps(AdoptOne(s, pending[0]), pending[1..]);
    }
  }

  lemma PendingIPsKeeps(s: Pool, cancelled: bool, persisted: bool)
    requires Agreement(s)
    ensures Agreement(ReconcilePendingIPs(s, cancelled, persisted))
  {
    if !cancelled && s.pendingIPs != [] && persisted {
      Joined(s.ips, s.pendingIPs);
      AdoptPendingKeeps(s.(dnsDirty := true, log := s.log + [Persisted(s.pendingIPs)]), s.pendingIPs);
    }
  }

  lemma AdoptKeeps(s: Pool, ip: string, known: bool, expected: string, owner: string)
    requires ClaimsAgree(s.claims, s.status) && "" !in s.claims
    requires ip in s.status && s.status[ip].node == expected != owner
    ensures var t := Adopt(s, ip, known, expected, owner);
      && (forall st: IpStatus :: st.node == owner ==> ClaimsAgree(t.claims, t.status[ip := st]))
      && "" !in t.claims && t.status.Keys == s.status.Keys
  {
  }

  lemma AdoptKeepsQueues(s: Pool, ip: string, known: bool, expected: string, owner: string)
    requires ClaimsAgree(s.claims, s.status) && ip in s.status
    requires QueueKnown(s.ipQueue, s.status.Keys) && QueueKnown(s.nodeQueue, s.active.Keys)
    ensures var t := Adopt(s, ip, known, expected, owner);
      && QueueKnown(t.ipQueue, s.status.Keys) && QueueKnown(t.nodeQueue, s.active.Keys)
  {
  }

  lemma StatusErrorKeeps(s: Pool, ip: string, err: ProviderError, stamp: nat)
    requires Agreement(s) && ip in s.status
    ensures Agreement(StatusError(s, ip, s.status[ip], err, stamp))
    ensures StatusError(s, ip, s.status[ip], err, stamp).status.Keys == s.status.Keys
  {
  }

  lemma StatusOkFrame(s: Pool, ip: string, known: bool, st: IpStatus, owner: string, stamp: nat)
    requires ip in s.status
    ensures var t, s1 := StatusOk(s, ip, known, st, owner, stamp), s.(ipQueue := AddIf(owner == "", s.ipQueue, ip, true));
      var a := if st.node != owner then Adopt(s1, ip, known, st.node, owner) else s1;
      && t.claims == a.claims && t.ipQueue == a.ipQueue && t.nodeQueue == a.nodeQueue
      && t.status == a.status[ip := HealthyStatus(s.active, owner, s.clock + stamp)]
      && t.active == s.active && t.ips == s.ips && t.pendingIPs == s.pendingIPs && t.crashed == s.crashed
      && t.clock == s.clock + stamp
  {
  }

  lemma StatusOkKeeps(s: Pool, ip: string, known: bool, owner: string, stamp: nat)
    requires Agreement(s) && ip in s.status
    ensures Agreement(StatusOk(s, ip, known, s.status[ip], owner, stamp))
    ensures StatusOk(s, ip, known, s.status[ip], owner, stamp).status.Keys == s.status.Keys
  {
    var expected := s.status[ip].node;
    var s1 := s.(ipQueue := AddIf(owner == "", s.ipQueue, ip, true));
    StatusOkFrame(s, ip, known, s.status[ip], owner, stamp);
    if expected != owner {
      AdoptKeeps(s1, ip, known, expected, owner);
      AdoptKeepsQueues(s1, ip, known, expected, owner);
    }
    var t := StatusOk(s, ip, known, s.status[ip], owner, stamp);
    assert t.status.Keys == s.status.Keys;
  }

  /** An IP's first status is one without an owner, so no claim is affected. */
  lemma FirstSeenKeeps(s: Pool, ip: string, delay: nat)
    requires Agreement(s) && ip in s.ips
    ensures Agreement(See(s, ip, delay))
    ensures See(s, ip, delay).status.Keys == s.status.Keys + {ip}
  {
  }

  lemma CheckIPIs(s: Pool, ip: string, t: StatusTick)
    ensures var s1, u := See(s, ip, t.delay), CheckIP(s, ip, t);
      var st := s1.status[ip];
      && ip in s1.status && u.ips == s.ips
      && (if st.nextRetry > s1.clock then u == WakeBy(s1, st.nextRetry)
          else if t.answer.Failed? then u == StatusError(s1, ip, st, t.answer.error, t.stamp)
          else u == StatusOk(s1, ip, ip in s.status, st, t.answer.node, t.stamp))
  {
  }

  lemma CheckIPKeeps(s: Pool, ip: string, t: StatusTick)
    requires Agreement(s) && ip in s.ips
    ensures Agreement(CheckIP(s, ip, t))
    ensures CheckIP(s, ip, t).status.Keys == s.status.Keys + {ip}
    ensures CheckIP(s, ip, t).ips == s.ips
  {
    var s1 := See(s, ip, t.delay);
    FirstSeenKeeps(s, ip, t.delay);
    CheckIPIs(s, ip, t);
    if s1.status[ip].nextRetry > s1.clock {
      WakeKeeps(s1, s1.status[ip].nextRetry);
    } else if t.answer.Failed? {
      StatusErrorKeeps(s1, ip, t.answer.error, t.stamp);
    } else {
      StatusOkKeeps(s1, ip, ip in s.status, t.answer.node, t.stamp);
    }
  }

  lemma WakeKeeps(s: Pool, next: Time)
    requires Agreement(s)
    ensures Agreement(WakeBy(s, next)) && WakeBy(s, next).status == s.status
  {
  }

  lemma {:induction false} CheckIPsKeeps(s: Pool, ips: seq<string>, k: nat, ticks: nat -> StatusTick)
    requires Agreement(s) && forall ip :: ip in ips ==> ip in s.ips
    ensures Agreement(CheckIPs(s, ips, k, ticks))
    decreases |ips|
  {
    if ips != [] && !ticks(k).cancelled {
      CheckIPKeeps(s, ips[0], ticks(k));
      CheckIPsKeeps(CheckIP(s, ips[0], ticks(k)), ips[1..], k + 1, ticks);
    }
  }

  /** The assignment loop's state: the retry lists hold what is in neither queue. */
  ghost predicate LoopAgreement(l: Loop) {
    && Agreement(l.s)
    && NoDup(l.retryIPs) && NoDup(l.retryNodes)
    && (forall ip :: ip in l.retryIPs ==> ip in l.s.status && ip !in l.s.ipQueue)
    && (forall p :: p in l.retryNodes ==> p in l.s.active && p !in l.s.nodeQueue)
  }

  lemma AttemptFrame(s: Pool, ip: string, node: string, t: AssignTick)
    requires ip in s.status
    ensures var u := Attempt(s, ip, node, t);
      && u.status.Keys == s.status.Keys && u.active == s.active && u.ipQueue == s.ipQueue && u.nodeQueue == s.nodeQueue
      && u.ips == s.ips && u.pendingIPs == s.pendingIPs && u.desiredIPs == s.desiredIPs && u.coolOff == s.coolOff
      && u.dns == s.dns && u.dnsDirty && u.crashed == s.crashed
  {
  }

  lemma AttemptKeeps(s: Pool, ip: string, node: string, t: AssignTick)
    requires Agreement(s) && ip in s.status && node in s.active
    ensures Agreement(Attempt(s, ip, node, t))
    ensures Attempt(s, ip, node, t).status.Keys == s.status.Keys
    ensures Attempt(s, ip, node, t).active == s.active
    ensures Attempt(s, ip, node, t).ipQueue == s.ipQueue
    ensures Attempt(s, ip, node, t).nodeQueue == s.nodeQueue
  {
  }

  lemma TryHeadsKeeps(l: Loop, t: AssignTick)
    requires LoopAgreement(l) && l.s.ipQueue != [] && l.s.nodeQueue != []
    ensures LoopAgreement(TryHeads(l, t))
  {
    var s := l.s;
    HeadGone(s.ipQueue);
    HeadGone(s.nodeQueue);
    Appended(l.retryIPs, s.ipQueue[0]);
    Appended(l.retryNodes, s.nodeQueue[0]);
    var s1 := s.(ipQueue := s.ipQueue[1..]);
    var s2 := s1.(nodeQueue := s.nodeQueue[1..]);
    assert Agreement(s1) && Agreement(s2);
    if !HeadIPWaits(s) && !HeadNodeWaits(s) {
      AttemptKeeps(s2, s.ipQueue[0], s.nodeQueue[0], t);
    }
  }

  lemma LoopTicks(l: Loop, delay: nat)
    requires LoopAgreement(l)
    ensures LoopAgreement(l.(s := Tick(l.s, delay)))
    ensures LoopAgreement(l.(s := WakeBy(l.s, l.s.nextAssignment)))
  {
  }

  /** The assignment loop goes on with the heads of both queues. */
  predicate TakesTurn(l: Loop) {
    l.s.ipQueue != [] && l.s.nodeQueue != [] && !CoolingOff(l.s)
  }

  /** A property that knows the queued IPs and that clock readings and turns keep. */
  ghost predicate LoopInvariant(inv: Loop -> bool) {
    && (forall u: Loop :: inv(u) && u.s.ipQueue != [] ==> u.s.ipQueue[0] in u.s.status)
    && (forall u: Loop, delay: nat :: inv(u) ==> inv(u.(s := Tick(u.s, delay))))
    && (forall u: Loop :: inv(u) ==> inv(u.(s := WakeBy(u.s, u.s.nextAssignment))))
    && (forall u: Loop, t: AssignTick :: inv(u) && TakesTurn(u) ==> inv(TryHeads(u, t)))
  }

  lemma TurnPops(l: Loop, t: AssignTick)
    requires TakesTurn(l) && l.s.ipQueue[0] in l.s.status
    ensures |TryHeads(l, t).s.ipQueue| < |l.s.ipQueue|
  {
    if !HeadIPWaits(l.s) && !HeadNodeWaits(l.s) {
      AttemptFrame(l.s.(ipQueue := l.s.ipQueue[1..], nodeQueue := l.s.nodeQueue[1..]), l.s.ipQueue[0], l.s.nodeQueue[0], t);
    }
  }

  /** The assignment loop keeps every such property. */
  lemma {:induction false} AssignLoopKeepsAny(inv: Loop -> bool, l: Loop, k: nat, ticks: nat -> AssignTick)
    requires LoopInvariant(inv) && inv(l)
    ensures inv(AssignLoop(l, k, ticks))
    decreases |l.s.ipQueue|
  {
    if l.s.ipQueue != [] && l.s.nodeQueue != [] && !ticks(k).cancelled {
      var l1 := l.(s := Tick(l.s, ticks(k).delay));
      assert inv(l1) && l1.s.ipQueue[0] in l1.s.status;
      if CoolingOff(l1.s) {
        assert inv(l1.(s := WakeBy(l1.s, l1.s.nextAssignment)));
      } else {
        var u := TryHeads(l1, ticks(k));
        TurnPops(l1, ticks(k));
        assert TakesTurn(l1) && inv(u);
        AssignLoopKeepsAny(inv, u, k + 1, ticks);
        assert AssignLoop(l, k, ticks) == AssignLoop(u, k + 1, ticks);
      }
    }
  }

  lemma AssignLoopKeeps(l: Loop, k: nat, ticks: nat -> AssignTick)
    requires LoopAgreement(l)
    ensures LoopAgreement(AssignLoop(l, k, ticks))
  {
    var inv := (u: Loop) => LoopAgreement(u);
    forall u: Loop, delay: nat | inv(u)
      ensures inv(u.(s := Tick(u.s, delay)))
    {
      LoopTicks(u, delay);
    }
    forall u: Loop | inv(u)
      ensures inv(u.(s := WakeBy(u.s, u.s.nextAssignment)))
    {
      LoopTicks(u, 0);
    }
    forall u: Loop, t: AssignTick | inv(u) && TakesTurn(u)
      ensures inv(TryHeads(u, t))
    {
      TryHeadsKeeps(u, t);
    }
    AssignLoopKeepsAny(inv, l, k, ticks);
  }

  lemma AssignmentKeeps(s: Pool, ticks: nat -> AssignTick)
    requires Agreement(s)
    ensures Agreement(ReconcileAssignment(s, ticks))
  {
    AssignLoopKeeps(Loop(s, [], []), 0, ticks);
  }

  lemma DesiredIPsKeeps(s: Pool, env: CreateEnv)
    requires Agreement(s) && FreshCreates(Tick(s, env.delay), 0, env.results)
    ensures Agreement(ReconcileDesiredIPs(s, env))
  {
    var s1 := Tick(s, env.delay);
    assert Agreement(s1);
    CreateIPsKeeps(s1, 0, env.results);
  }

  /** None of the status lookups up to reconcileDNS can miss. */
  lemma ReconcileToDNSKeeps(s: Pool, env: ReconcileEnv)
    requires Agreement(s) && Allowed(s, ReconcileStep(env))
    ensures Agreement(ReconcileToDNS(s, env))
    ensures Reconcile(s, env) == ReconcileDNS(ReconcileToDNS(s, env), env.published)
  {
    var s0 := ReconcileStart(s, env);
    assert Agreement(s0);
    DesiredIPsKeeps(s0, env.create);
    var s1 := ReconcileDesiredIPs(s0, env.create);
    PendingIPsKeeps(s1, env.pendingCancelled, env.persisted);
    var s2 := ReconcilePendingIPs(s1, env.pendingCancelled, env.persisted);
    CheckIPsKeeps(s2, s2.ips, 0, env.status);
    AssignmentKeeps(ReconcileIPStatus(s2, env.status), env.assign);
  }

  /** The agreement, but for a crash. */
  ghost predicate AgreementOrCrash(s: Pool) {
    Agreement(s.(crashed := false))
  }

  lemma DNSKeeps(s: Pool, published: bool)
    requires Agreement(s)
    ensures AgreementOrCrash(ReconcileDNS(s, published))
    ensures ReconcileDNS(s, published).status == s.status
  {
    var t := ReconcileDNS(s, published);
    assert t.claims == s.claims && t.status == s.status && t.active == s.active;
    assert t.ipQueue == s.ipQueue && t.nodeQueue == s.nodeQueue && t.ips == s.ips && t.pendingIPs == s.pendingIPs;
  }

  lemma ProvidersKeeps(s: Pool, provider: string, region: string, coolOff: nat)
    requires Agreement(s)
    ensures Agreement(UpdateProviders(s, provider, region, coolOff))
  {
  }

  lemma DNSSpecKeeps(s: Pool, dns: Option<DnsSpec>)
    requires Agreement(s)
    ensures Agreement(UpdateDNSSpec(s, dns))
  {
  }

  lemma ApplyKeeps(s: Pool, step: Step)
    requires Agreement(s) && Allowed(s, step)
    ensures AgreementOrCrash(Apply(s, step))
    ensures !step.ReconcileStep? ==> Agreement(Apply(s, step))
  {
    match step {
      case ProvidersStep(provider, region, coolOff) => ProvidersKeeps(s, provider, region, coolOff);
      case SpecStep(ips, desiredIPs, order) => UpdateIPsKeeps(s, ips, desiredIPs, order);
      case DnsStep(dns) => DNSSpecKeeps(s, dns);
      case DisableStep(visits) => DisableNodesKeeps(s, visits);
      case EnableStep(visits) => EnableNodesKeeps(s, visits);
      case ReconcileStep(env) =>
        ReconcileToDNSKeeps(s, env);
        DNSKeeps(ReconcileToDNS(s, env), env.published);
    }
    if !step.ReconcileStep? {
      NotCrashed(Apply(s, step));
    }
  }

  lemma NotCrashed(s: Pool)
    requires Agreement(s)
    ensures AgreementOrCrash(s)
  {
  }

  /** Every reachable state: claims agree with owners, so no two nodes claim one IP; queued IPs have
      a status and queued nodes are active. A crash leaves even the crashed state agreeing. */
  lemma {:induction false} RunKeeps(s: Pool, steps: seq<Step>)
    requires AgreementOrCrash(s) && AllowedRun(s, steps)
    ensures AgreementOrCrash(Run(s, steps))
    decreases |steps|
  {
    if steps != [] {
      if s.crashed {
        RunKeeps(s, steps[1..]);
      } else {
        assert s == s.(crashed := false);
        ApplyKeeps(s, steps[0]);
        RunKeeps(Apply(s, steps[0]), steps[1..]);
      }
    }
  }

  lemma NoTwoNodesClaimOneIP(clock: Time, steps: seq<Step>, p: string, q: string)
    requires clock > 0 && AllowedRun(NewPool(clock), steps)
    requires var s := Run(NewPool(clock), steps);
      p in s.claims && q in s.claims && s.claims[p] == s.claims[q] != ""
    ensures p == q
  {
    RunKeeps(NewPool(clock), steps);
  }
}
