/** Configuration: what the controller makes of the provider, the list of IPs, the DNS record and the nodes that
    it is given, by one step and over whole runs. */
module PoolConfiguration {
  import opened Options
  import opened RetrySchedules
  import opened OrderedQueues
  import opened PoolState
  import opened PoolAgreement

  /** t has the provider, record and nodes of s. */
  ghost predicate SameHome(s: Pool, t: Pool) {
    t.provider == s.provider && t.region == s.region && t.coolOff == s.coolOff && t.dns == s.dns && t.active == s.active
  }

  /** And its target: the whole configuration. */
  ghost predicate Same(s: Pool, t: Pool) {
    SameHome(s, t) && t.desiredIPs == s.desiredIPs
  }

  // ----- the list of IPs -----

  /** The spec is cut to its first `desiredIPs` addresses, 0 meaning no limit; what was known of those that stay is
      kept, everything else is forgotten. DNS becomes due exactly if the list changes, or the target changes to
      another number than that of the IPs listed without one. */
  lemma SpecIsCut(s: Pool, ips: seq<string>, desiredIPs: nat, order: seq<string>)
    requires Agreement(s) && IterationOrder(order, s.status.Keys) && SpecAllowed(s, ips)
    ensures var t := UpdateIPs(s, ips, desiredIPs, order);
      && t.desiredIPs == desiredIPs && SameHome(s, t)
      && t.ips <= ips && |t.ips| == (if 0 < desiredIPs < |ips| then desiredIPs else |ips|)
      && (forall ip :: ip in t.status <==> ip in s.status && ip in t.ips)
      && (forall ip :: ip in t.status ==> t.status[ip] == s.status[ip])
      && (t.dnsDirty <==> s.dnsDirty || t.ips != s.ips ||
                          (desiredIPs != 0 && desiredIPs != if s.desiredIPs == 0 then |s.ips| else s.desiredIPs))
  {
    var wanted, s1 := Enabled(ips, desiredIPs), s.(dnsDirty := true);
    ForgetUnwantedKeeps(s1, wanted, order);
    ForgetLeaves(s1, wanted, order);
  }

  lemma {:induction false} ForgetLeaves(s: Pool, wanted: seq<string>, order: seq<string>)
    ensures var t := ForgetUnwanted(s, wanted, order);
      && t.dnsDirty == s.dnsDirty && t.desiredIPs == s.desiredIPs && SameHome(s, t)
      && forall ip :: ip in t.status ==> ip in s.status && t.status[ip] == s.status[ip]
    decreases |order|
  {
    if order != [] {
      ForgetLeaves(if order[0] in s.status && order[0] !in wanted then Forget(s, order[0]) else s, wanted, order[1..]);
    }
  }

  // ----- the DNS record -----

  /** A record with a zone and a name is taken as it is, but for a TTL of 0, which means a minute; there is no
      record to publish without them. */
  predicate Takes(given: Option<DnsSpec>, kept: Option<DnsSpec>) {
    if given.Some? && given.value.zone != "" && given.value.recordName != "" then
      && kept.Some? && kept.value.zone == given.value.zone && kept.value.recordName == given.value.recordName
      && kept.value.ttl == if given.value.ttl == 0 then 60 else given.value.ttl
    else
      kept == None
  }

  /** A record that was taken before. */
  predicate Whole(dns: Option<DnsSpec>) {
    Takes(dns, dns)
  }

  lemma RecordIsTaken(s: Pool, dns: Option<DnsSpec>)
    requires Whole(s.dns)
    ensures var t := UpdateDNSSpec(s, dns);
      && Takes(dns, t.dns) && Whole(t.dns)
      && t == s.(dns := t.dns, dnsDirty := if dns == s.dns then s.dnsDirty else t.dns.Some?)
  {
  }

  /** The record given once more changes nothing, unless its TTL was left out: then DNS is due again. */
  lemma SameRecordAgain(s: Pool, dns: Option<DnsSpec>)
    requires Takes(dns, s.dns) && s.dns.Some?
    ensures UpdateDNSSpec(s, dns) == if dns.value.ttl == 0 then s.(dnsDirty := true) else s
  {
  }

  // ----- who changes what -----

  lemma SameTrans(s: Pool, t: Pool, u: Pool)
    requires Same(s, t) && Same(t, u)
    ensures Same(s, u)
  {
  }

  lemma {:induction false} CreateIPsSame(s: Pool, k: nat, results: nat -> CreateResult)
    ensures Same(s, CreateIPs(s, k, results))
    decreases s.desiredIPs - |s.ips| - |s.pendingIPs|
  {
    if |s.ips| + |s.pendingIPs| < s.desiredIPs && results(k).NewIP? {
      var ip := results(k).ip;
      CreateIPsSame(s.(dnsDirty := true, pendingIPs := s.pendingIPs + [ip], createAttempts := 0,
                       log := s.log + [Created(ip)]), k + 1, results);
    }
  }

  lemma {:induction false} AdoptPendingSame(s: Pool, pending: seq<string>)
    ensures Same(s, AdoptPending(s, pending))
    decreases |pending|
  {
    if pending != [] {
      AdoptPendingSame(AdoptOne(s, pending[0]), pending[1..]);
    }
  }

  lemma BeforePollSame(s: Pool, env: ReconcileEnv)
    ensures Same(s, BeforePoll(s, env))
  {
    var s0 := ReconcileStart(s, env);
    var s1 := ReconcileDesiredIPs(s0, env.create);
    CreateIPsSame(Tick(s0, env.create.delay), 0, env.create.results);
    assert Same(s, s1);
    AdoptPendingSame(s1.(dnsDirty := true, log := s1.log + [Persisted(s1.pendingIPs)]), s1.pendingIPs);
  }

  lemma FoundSame(s: Pool, ip: string, known: bool, st: IpStatus, owner: string, stamp: nat)
    ensures Same(s, StatusOk(s, ip, known, st, owner, stamp))
  {
    var s1 := s.(ipQueue := AddIf(owner == "", s.ipQueue, ip, true));
    assert Same(s1, Adopt(s1, ip, known, st.node, owner));
  }

  lemma CheckIPSame(s: Pool, ip: string, t: StatusTick)
    ensures Same(s, CheckIP(s, ip, t))
  {
    CheckIPIs(s, ip, t);
    if t.answer.Owner? {
      FoundSame(See(s, ip, t.delay), ip, ip in s.status, StatusFor(s, ip), t.answer.node, t.stamp);
    }
  }

  lemma {:induction false} CheckIPsSame(s: Pool, ips: seq<string>, k: nat, ticks: nat -> StatusTick)
    ensures Same(s, CheckIPs(s, ips, k, ticks))
    decreases |ips|
  {
    if ips != [] && !ticks(k).cancelled {
      CheckIPSame(s, ips[0], ticks(k));
      CheckIPsSame(CheckIP(s, ips[0], ticks(k)), ips[1..], k + 1, ticks);
    }
  }

  lemma AttemptSame(s: Pool, ip: string, node: string, t: AssignTick)
    requires ip in s.status
    ensures Same(s, Attempt(s, ip, node, t))
  {
  }

  lemma TryHeadsSame(l: Loop, t: AssignTick)
    requires l.s.ipQueue != [] && l.s.nodeQueue != [] && l.s.ipQueue[0] in l.s.status
    ensures Same(l.s, TryHeads(l, t).s)
  {
    if !HeadIPWaits(l.s) && !HeadNodeWaits(l.s) {
      AttemptSame(l.s.(ipQueue := l.s.ipQueue[1..], nodeQueue := l.s.nodeQueue[1..]), l.s.ipQueue[0], l.s.nodeQueue[0], t);
    }
  }

  lemma {:induction false} AssignLoopSame(l: Loop, k: nat, ticks: nat -> AssignTick)
    ensures Same(l.s, AssignLoop(l, k, ticks).s)
    decreases |l.s.ipQueue|
  {
    if l.s.ipQueue != [] && l.s.nodeQueue != [] && !ticks(k).cancelled {
      var l1 := l.(s := Tick(l.s, ticks(k).delay));
      if !CoolingOff(l1.s) && l1.s.ipQueue[0] in l1.s.status {
        TurnPops(l1, ticks(k));
        TryHeadsSame(l1, ticks(k));
        AssignLoopSame(TryHeads(l1, ticks(k)), k + 1, ticks);
        assert AssignLoop(l, k, ticks) == AssignLoop(TryHeads(l1, ticks(k)), k + 1, ticks);
      }
    }
  }

  lemma AssignmentSame(s: Pool, ticks: nat -> AssignTick)
    ensures Same(s, ReconcileAssignment(s, ticks))
  {
    AssignLoopSame(Loop(s, [], []), 0, ticks);
  }

  lemma DNSSame(s: Pool, published: bool)
    ensures Same(s, ReconcileDNS(s, published))
  {
  }

  /** A pass changes no configuration. */
  lemma PassSame(s: Pool, env: ReconcileEnv)
    ensures Same(s, Reconcile(s, env))
  {
    BeforePollSame(s, env);
    var s2 := BeforePoll(s, env);
    CheckIPsSame(s2, s2.ips, 0, env.status);
    var s3 := ReconcileIPStatus(s2, env.status);
    SameTrans(s, s2, s3);
    AssignmentSame(s3, env.assign);
    SameTrans(s, s3, ReconcileToDNS(s, env));
    DNSSame(ReconcileToDNS(s, env), env.published);
  }

  /** Another home, and everything learned from the provider is forgotten; what was configured or created stays. */
  lemma HomeIsTaken(s: Pool, provider: string, region: string, coolOff: nat)
    ensures var t := UpdateProviders(s, provider, region, coolOff);
      && t.provider == provider && t.region == region && t.coolOff == coolOff
      && (if provider == s.provider && region == s.region
          then t == s.(coolOff := coolOff, nextAssignment := t.nextAssignment)
          else t.log == s.log + [Reset] &&
               t == NewPool(s.clock).(provider := provider, region := region, coolOff := coolOff,
                                      nextAssignment := t.nextAssignment, desiredIPs := s.desiredIPs,
                                      ips := s.ips, pendingIPs := s.pendingIPs, wakeAt := s.wakeAt,
                                      createAttempts := s.createAttempts, createNextRetry := s.createNextRetry,
                                      dns := s.dns, dnsDirty := s.dnsDirty, log := t.log, crashed := s.crashed))
  {
  }

  // ----- nodes -----

  /** The name under which the first visit to the node enables it; none without a provider ID. */
  function FirstName(visits: seq<Visit>, p: string): Option<string> {
    if visits == [] || p == "" then None
    else if visits[0].node.providerID == p then Some(visits[0].node.name)
    else FirstName(visits[1..], p)
  }

  function NameIn(active: map<string, string>, p: string): Option<string> {
    if p in active then Some(active[p]) else None
  }

  lemma OneDisabled(s: Pool, v: Visit, p: string)
    requires Agreement(s)
    ensures NameIn(DisableNode(s, v).active, p) == if v.node.providerID == p then None else NameIn(s.active, p)
    ensures Same(s.(active := map[]), DisableNode(s, v).(active := map[]))
  {
  }

  lemma OneEnabled(s: Pool, v: Visit, p: string)
    requires Agreement(s)
    ensures NameIn(EnableNode(s, v).active, p) ==
      if p !in s.active && v.node.providerID == p != "" then Some(v.node.name) else NameIn(s.active, p)
    ensures Same(s.(active := map[]), EnableNode(s, v).(active := map[]))
  {
  }

  /** Every node visited is disabled, and no other. */
  lemma {:induction false} DisabledExactly(s: Pool, visits: seq<Visit>, p: string)
    requires Agreement(s)
    ensures NameIn(DisableNodes(s, visits).active, p) == if FirstName(visits, p).Some? then None else NameIn(s.active, p)
    ensures Same(s.(active := map[]), DisableNodes(s, visits).(active := map[]))
    decreases |visits|
  {
    if visits != [] {
      DisableNodeKeeps(s, visits[0]);
      OneDisabled(s, visits[0], p);
      DisabledExactly(DisableNode(s, visits[0]), visits[1..], p);
    }
  }

  /** A node not active yet is enabled under the name it is first given. */
  lemma {:induction false} EnabledExactly(s: Pool, visits: seq<Visit>, p: string)
    requires Agreement(s)
    ensures NameIn(EnableNodes(s, visits).active, p) == if p in s.active then Some(s.active[p]) else FirstName(visits, p)
    ensures Same(s.(active := map[]), EnableNodes(s, visits).(active := map[]))
    decreases |visits|
  {
    if visits != [] {
      EnableNodeKeeps(s, visits[0]);
      OneEnabled(s, visits[0], p);
      EnabledExactly(EnableNode(s, visits[0]), visits[1..], p);
    }
  }

  // ----- runs -----

  /** The provider, region and cool-off given last. */
  function LastHome(steps: seq<Step>): (string, string, nat) {
    if steps == [] then ("", "", 0)
    else
      match steps[|steps| - 1]
      case ProvidersStep(provider, region, coolOff) => (provider, region, coolOff)
      case _ => LastHome(steps[..|steps| - 1])
  }

  /** The target given last. */
  function LastTarget(steps: seq<Step>): nat {
    if steps == [] then 0
    else if steps[|steps| - 1].SpecStep? then steps[|steps| - 1].desiredIPs
    else LastTarget(steps[..|steps| - 1])
  }

  /** The record given last. */
  function LastRecord(steps: seq<Step>): Option<DnsSpec> {
    if steps == [] then None
    else if steps[|steps| - 1].DnsStep? then steps[|steps| - 1].dns
    else LastRecord(steps[..|steps| - 1])
  }

  /** The name of an enabled node: the first one since it was disabled, or the home changed. */
  function NameOf(steps: seq<Step>, p: string): Option<string> {
    if steps == [] then None
    else
      var init := steps[..|steps| - 1];
      match steps[|steps| - 1]
      case DisableStep(visits) => if FirstName(visits, p).Some? then None else NameOf(init, p)
      case EnableStep(visits) => if NameOf(init, p).Some? then NameOf(init, p) else FirstName(visits, p)
      case ProvidersStep(provider, region, _) =>
        if (provider, region) == (LastHome(init).0, LastHome(init).1) then NameOf(init, p) else None
      case _ => NameOf(init, p)
  }

  ghost predicate Configured(s: Pool, steps: seq<Step>) {
    && (s.provider, s.region, s.coolOff) == LastHome(steps)
    && s.desiredIPs == LastTarget(steps)
    && Takes(LastRecord(steps), s.dns) && Whole(s.dns)
    && forall p :: NameIn(s.active, p) == NameOf(steps, p)
  }

  lemma {:induction false} RunLast(s: Pool, steps: seq<Step>, last: Step)
    ensures Run(s, steps + [last]) == Apply(Run(s, steps), last)
    ensures AllowedRun(s, steps + [last]) <==> AllowedRun(s, steps) && Allowed(Run(s, steps), last)
    decreases |steps|
  {
    if steps == [] {
      assert [last] == [last] + [] && steps + [last] == [last];
      RunFirst(s, last, []);
      AllowedFirst(s, last, []);
    } else {
      assert (steps + [last])[1..] == steps[1..] + [last];
      RunLast(Apply(s, steps[0]), steps[1..], last);
    }
  }

  lemma StepConfigures(s: Pool, init: seq<Step>, steps: seq<Step>)
    requires Agreement(s) && Configured(s, init) && |steps| == |init| + 1 && steps[..|init|] == init
    requires Allowed(s, steps[|init|])
    ensures Configured(Apply(s, steps[|init|]), steps)
  {
    match steps[|init|]
    case ProvidersStep(provider, region, coolOff) => HomeIsTaken(s, provider, region, coolOff);
    case SpecStep(ips, desiredIPs, order) => SpecIsCut(s, ips, desiredIPs, order);
    case DnsStep(dns) => RecordIsTaken(s, dns);
    case DisableStep(visits) => NodesConfigure(s, init, steps, visits);
    case EnableStep(visits) => NodesConfigure(s, init, steps, visits);
    case ReconcileStep(env) => PassSame(s, env);
  }

  lemma NodesConfigure(s: Pool, init: seq<Step>, steps: seq<Step>, visits: seq<Visit>)
    requires Agreement(s) && Configured(s, init) && |steps| == |init| + 1 && steps[..|init|] == init
    requires steps[|init|] == DisableStep(visits) || steps[|init|] == EnableStep(visits)
    ensures Configured(Apply(s, steps[|init|]), steps)
  {
    forall p
      ensures NameIn(Apply(s, steps[|init|]).active, p) == NameOf(steps, p)
    {
      DisabledExactly(s, visits, p);
      EnabledExactly(s, visits, p);
    }
    DisabledExactly(s, visits, "");
    EnabledExactly(s, visits, "");
  }

  /** Over any run, the configuration is the one given last: the home with its cool-off, the target, the record,
      and just the nodes that are enabled, each under its name. */
  lemma {:induction false} ConfigurationOverRuns(clock: Time, steps: seq<Step>)
    requires clock > 0 && AllowedRun(NewPool(clock), steps) && !Run(NewPool(clock), steps).crashed
    ensures var s := Run(NewPool(clock), steps);
      && (s.provider, s.region, s.coolOff) == LastHome(steps)
      && s.desiredIPs == LastTarget(steps)
      && Takes(LastRecord(steps), s.dns)
      && forall p :: NameOf(steps, p) == if p in s.active then Some(s.active[p]) else None
  {
    ConfiguredOverRuns(clock, steps);
    forall p
      ensures NameOf(steps, p) == NameIn(Run(NewPool(clock), steps).active, p)
    {
    }
  }

  lemma {:induction false} ConfiguredOverRuns(clock: Time, steps: seq<Step>)
    requires clock > 0 && AllowedRun(NewPool(clock), steps) && !Run(NewPool(clock), steps).crashed
    ensures Configured(Run(NewPool(clock), steps), steps)
    decreases |steps|
  {
    if steps != [] {
      var init, last := steps[..|steps| - 1], steps[|steps| - 1];
      assert steps == init + [last];
      RunLast(NewPool(clock), init, last);
      RunKeeps(NewPool(clock), init);
      var s := Run(NewPool(clock), init);
      assert s == s.(crashed := false);
      ConfiguredOverRuns(clock, init);
      StepConfigures(s, init, steps);
    }
  }
}
