/** Freshness of DNS over whole runs: when no update is due, the last one published just what is active now,
    under an exact condition on the provider's answers. */
module PoolFreshness {
  import opened Options
  import opened RetrySchedules
  import opened OrderedQueues
  import opened PoolState
  import opened PoolAgreement
  import opened PoolConservation
  import opened PoolDns
  import opened PoolCrash
  import opened PoolConvergence
  import opened PoolTimer

  /** The last update that went out. */
  function LastPublished(log: seq<Call>): Option<(DnsSpec, seq<string>)> {
    if log == [] then None
    else if log[|log| - 1].Published? then Some((log[|log| - 1].dns, log[|log| - 1].ips))
    else LastPublished(log[..|log| - 1])
  }

  /** If nothing is due, the record wanted was last published with exactly the IPs that are active now; or
      everything was forgotten with a provider and nothing was learned since. */
  ghost predicate Fresh(s: Pool) {
    s.dns.Some? && !s.dnsDirty ==>
      s.status == map[] || LastPublished(s.log) == Some((s.dns.value, ActiveIPs(s, s.ips)))
  }

  predicate CountsAsActive(s: Pool, ip: string) {
    ip in s.status && s.status[ip].state == Active
  }

  lemma {:induction false} SameActiveIPs(s: Pool, t: Pool, ips: seq<string>)
    requires forall ip :: ip in ips ==> (CountsAsActive(s, ip) <==> CountsAsActive(t, ip))
    ensures ActiveIPs(s, ips) == ActiveIPs(t, ips)
  {
    if ips != [] {
      assert ips == [ips[0]] + ips[1..];
      assert CountsAsActive(s, ips[0]) <==> CountsAsActive(t, ips[0]);
      SameActiveIPs(s, t, ips[1..]);
    }
  }

  /** A call after which an update is always due. */
  predicate Notable(c: Call) {
    c.Created? || c.CreateFailed? || c.Persisted? || c.Assigned? || c.Refused? || c.Parked? || c.Resumed? || c.Forgot?
  }

  /** The log goes on without an update and without such a call. */
  ghost predicate NothingOfNote(log: seq<Call>, longer: seq<Call>) {
    log <= longer && forall i :: |log| <= i < |longer| ==> !longer[i].Published? && !Notable(longer[i])
  }

  lemma {:induction false} SamePublished(log: seq<Call>, longer: seq<Call>)
    requires NothingOfNote(log, longer)
    ensures LastPublished(longer) == LastPublished(log)
    decreases |longer|
  {
    if |longer| > |log| {
      SamePublished(log, longer[..|longer| - 1]);
    } else {
      assert longer == log;
    }
  }

  /** Nothing that DNS depends on changes, or else an update is due. */
  ghost predicate Noticed(s: Pool, t: Pool) {
    t.dnsDirty ||
    (&& t.dns == s.dns && !s.dnsDirty && t.ips == s.ips && NothingOfNote(s.log, t.log)
     && (t.status == map[] || (s.status != map[] && forall ip :: ip in s.ips ==> (CountsAsActive(s, ip) <==> CountsAsActive(t, ip)))))
  }

  lemma NoticedIsFresh(s: Pool, t: Pool)
    requires Fresh(s) && Noticed(s, t)
    ensures Fresh(t)
  {
    if !t.dnsDirty && t.status != map[] {
      SameActiveIPs(s, t, s.ips);
      SamePublished(s.log, t.log);
    }
  }

  /** A step that touches neither statuses, nor IPs, nor DNS, nor the log. */
  lemma NothingTouched(s: Pool, t: Pool)
    requires Fresh(s) && t.status == s.status && t.ips == s.ips && t.dns == s.dns && t.log == s.log && t.dnsDirty == s.dnsDirty
    ensures Fresh(t)
  {
    SameActiveIPs(s, t, s.ips);
  }

  // ----- lookups -----

  /** The answer takes the node of another IP that counts as active, while the IP's own report stays what it is. */
  predicate EvictsUnnoticed(s: Pool, ip: string, t: StatusTick) {
    && t.answer.Owner?
    && var st, other := StatusFor(s, ip), ClaimOf(s, t.answer.node);
    && Evicts(s, ip, t, other) && CountsAsActive(s, other)
    && st.message == NoMessage && st.state == ReportFor(s, t.answer.node)
  }

  /** How an IP with this owner is to be reported. */
  function ReportFor(s: Pool, owner: string): (state: IPState)
    ensures "" !in s.active ==> StateFits(state, s.active, owner)
  {
    if owner in s.active && s.active[owner] != "" then Active else if owner == "" then Unassigned else NoMatch
  }

  lemma FoundFrame(s: Pool, ip: string, known: bool, st: IpStatus, owner: string, stamp: nat)
    requires ip in s.status && "" !in s.active
    ensures var u := StatusOk(s, ip, known, st, owner, stamp);
      && u.ips == s.ips && u.dns == s.dns && NothingOfNote(s.log, u.log) && ip in u.status
      && u.status[ip].message == NoMessage && u.status[ip].state == ReportFor(s, owner)
      && (u.dnsDirty <==> s.dnsDirty || st.state != ReportFor(s, owner) || st.message != NoMessage)
  {
    var s1 := s.(ipQueue := AddIf(owner == "", s.ipQueue, ip, true));
    var a := Adopt(s1, ip, known, st.node, owner);
    assert a.ips == s.ips && a.dns == s.dns && NothingOfNote(s.log, a.log);
  }

  /** Which IPs count as active after an answer. */
  lemma FoundActive(s: Pool, ip: string, t: StatusTick, x: string)
    requires Agreement(s) && ip in s.ips && x in s.status && x != ip
    ensures CountsAsActive(CheckIP(s, ip, t), x) <==> CountsAsActive(s, x) && !Evicts(s, ip, t, x)
  {
    CheckIPOthers(s, ip, t, x);
  }

  /** A lookup makes an update due exactly if it changes the state or the message of its IP. */
  lemma OwnReport(s: Pool, ip: string, t: StatusTick)
    requires Agreement(s) && ip in s.ips
    ensures var u, st := CheckIP(s, ip, t), StatusFor(s, ip);
      && u.ips == s.ips && u.dns == s.dns && NothingOfNote(s.log, u.log) && ip in u.status
      && (u.dnsDirty <==> s.dnsDirty || ip !in s.status ||
                          (s.status[ip].state, s.status[ip].message) != (u.status[ip].state, u.status[ip].message))
      && (Due(s, ip, t) && t.answer.Owner? ==>
            u.status[ip].state == ReportFor(s, t.answer.node) && u.status[ip].message == NoMessage)
  {
    CheckIPIs(s, ip, t);
    FirstSeenKeeps(s, ip, t.delay);
    var s1, st := See(s, ip, t.delay), StatusFor(s, ip);
    if st.nextRetry <= s1.clock {
      if t.answer.Owner? {
        FoundFrame(s1, ip, ip in s.status, st, t.answer.node, t.stamp);
      } else {
        ErrorReport(s1, ip, st, t.answer.error, t.stamp);
      }
    }
  }

  lemma ErrorReport(s: Pool, ip: string, st: IpStatus, err: ProviderError, stamp: nat)
    ensures var u := StatusError(s, ip, st, err, stamp);
      && u.ips == s.ips && u.dns == s.dns && NothingOfNote(s.log, u.log) && ip in u.status
      && u.status[ip].state in {Error, InProgress} && (u.dnsDirty <==> s.dnsDirty || Changed(st, u.status[ip]))
  {
  }

  /** Polling one IP keeps DNS fresh exactly unless it evicts an active IP unnoticed while nothing is due. */
  lemma AnswerKeepsFresh(s: Pool, ip: string, t: StatusTick)
    requires Agreement(s) && Fresh(s) && ip in s.ips
    ensures Fresh(CheckIP(s, ip, t)) <==> !(s.dns.Some? && !s.dnsDirty && EvictsUnnoticed(s, ip, t))
  {
    var u := CheckIP(s, ip, t);
    OwnReport(s, ip, t);
    if u.dns.Some? && !u.dnsDirty {
      forall x | x in s.status && x != ip
        ensures CountsAsActive(u, x) <==> CountsAsActive(s, x) && !Evicts(s, ip, t, x)
      {
        FoundActive(s, ip, t, x);
      }
      if EvictsUnnoticed(s, ip, t) {
        StaleAfterEviction(s, u, ClaimOf(s, t.answer.node));
      } else {
        NothingEvicted(s, ip, t);
      }
    }
  }

  lemma StaleAfterEviction(s: Pool, u: Pool, other: string)
    requires Agreement(s) && Fresh(s) && s.dns.Some? && !s.dnsDirty && CountsAsActive(s, other)
    requires u.ips == s.ips && u.dns == s.dns && NothingOfNote(s.log, u.log) && !u.dnsDirty && u.status != map[]
    requires !CountsAsActive(u, other)
    ensures !Fresh(u)
  {
    ActiveIPsExact(s, s.ips);
    ActiveIPsExact(u, s.ips);
    SamePublished(s.log, u.log);
    assert other in ActiveIPs(s, s.ips) && other !in ActiveIPs(u, u.ips);
  }

  lemma NothingEvicted(s: Pool, ip: string, t: StatusTick)
    requires Agreement(s) && Fresh(s) && ip in s.ips && !EvictsUnnoticed(s, ip, t)
    requires !CheckIP(s, ip, t).dnsDirty
    ensures Fresh(CheckIP(s, ip, t))
  {
    var u := CheckIP(s, ip, t);
    OwnReport(s, ip, t);
    CheckIPKeeps(s, ip, t);
    forall x | x in s.ips
      ensures CountsAsActive(s, x) <==> CountsAsActive(u, x)
    {
      if x != ip && x in s.status {
        FoundActive(s, ip, t, x);
      }
    }
    NoticedIsFresh(s, u);
  }

  /** No lookup of the poll does that. */
  ghost predicate NoticedPoll(s: Pool, ips: seq<string>, k: nat, ticks: nat -> StatusTick)
    decreases |ips|
  {
    ips != [] && !ticks(k).cancelled ==>
      !EvictsUnnoticed(s, ips[0], ticks(k)) && NoticedPoll(CheckIP(s, ips[0], ticks(k)), ips[1..], k + 1, ticks)
  }

  lemma {:induction false} PollFresh(s: Pool, ips: seq<string>, k: nat, ticks: nat -> StatusTick)
    requires Agreement(s) && Fresh(s) && NoticedPoll(s, ips, k, ticks) && forall ip :: ip in ips ==> ip in s.ips
    ensures Fresh(CheckIPs(s, ips, k, ticks))
    decreases |ips|
  {
    if ips != [] && !ticks(k).cancelled {
      CheckIPKeeps(s, ips[0], ticks(k));
      AnswerKeepsFresh(s, ips[0], ticks(k));
      PollFresh(CheckIP(s, ips[0], ticks(k)), ips[1..], k + 1, ticks);
    }
  }

  // ----- the other steps -----

  lemma TryHeadsFresh(l: Loop, t: AssignTick)
    requires l.s.ipQueue != [] && l.s.nodeQueue != [] && l.s.ipQueue[0] in l.s.status && Fresh(l.s)
    ensures Fresh(TryHeads(l, t).s)
  {
    if HeadIPWaits(l.s) || HeadNodeWaits(l.s) {
      NothingTouched(l.s, TryHeads(l, t).s);
    } else {
      var s2 := l.s.(ipQueue := l.s.ipQueue[1..], nodeQueue := l.s.nodeQueue[1..]);
      AttemptFrame(s2, l.s.ipQueue[0], l.s.nodeQueue[0], t);
    }
  }

  lemma AssignmentFresh(s: Pool, ticks: nat -> AssignTick)
    requires Agreement(s) && Fresh(s)
    ensures Fresh(ReconcileAssignment(s, ticks))
  {
    var inv := (u: Loop) => LoopAgreement(u) && Fresh(u.s);
    forall u: Loop, delay: nat | inv(u)
      ensures inv(u.(s := Tick(u.s, delay)))
    {
      LoopTicks(u, delay);
      NothingTouched(u.s, Tick(u.s, delay));
    }
    forall u: Loop | inv(u)
      ensures inv(u.(s := WakeBy(u.s, u.s.nextAssignment)))
    {
      LoopTicks(u, 0);
      NothingTouched(u.s, WakeBy(u.s, u.s.nextAssignment));
    }
    forall u: Loop, t: AssignTick | inv(u) && TakesTurn(u)
      ensures inv(TryHeads(u, t))
    {
      TryHeadsKeeps(u, t);
      TryHeadsFresh(u, t);
    }
    AssignLoopKeepsAny(inv, Loop(s, [], []), 0, ticks);
    NothingTouched(AssignLoop(Loop(s, [], []), 0, ticks).s, ReconcileAssignment(s, ticks));
  }

  lemma {:induction false} CreateIPsFresh(s: Pool, k: nat, results: nat -> CreateResult)
    ensures CreateIPs(s, k, results) == s || CreateIPs(s, k, results).dnsDirty
    decreases s.desiredIPs - |s.ips| - |s.pendingIPs|
  {
    if |s.ips| + |s.pendingIPs| < s.desiredIPs && results(k).NewIP? {
      var ip := results(k).ip;
      CreateIPsFresh(s.(dnsDirty := true, pendingIPs := s.pendingIPs + [ip], createAttempts := 0,
                        log := s.log + [Created(ip)]), k + 1, results);
    }
  }

  lemma DesiredIPsFresh(s: Pool, env: CreateEnv)
    requires Fresh(s)
    ensures Fresh(ReconcileDesiredIPs(s, env))
  {
    var s1 := Tick(s, env.delay);
    NothingTouched(s, s1);
    NothingTouched(s1, WakeBy(s1, s1.createNextRetry));
    CreateIPsFresh(s1, 0, env.results);
  }

  lemma BeforePollFresh(s: Pool, env: ReconcileEnv)
    requires Fresh(s)
    ensures Fresh(BeforePoll(s, env))
  {
    var s0 := ReconcileStart(s, env);
    NothingTouched(s, s0);
    DesiredIPsFresh(s0, env.create);
    var s1 := ReconcileDesiredIPs(s0, env.create);
    AdoptPendingSame(s1.(dnsDirty := true, log := s1.log + [Persisted(s1.pendingIPs)]), s1.pendingIPs);
  }

  lemma DNSFresh(s: Pool, published: bool)
    requires Fresh(s)
    ensures Fresh(ReconcileDNS(s, published))
  {
    var t := ReconcileDNS(s, published);
    if t.log != s.log {
      SameActiveIPs(s, t, s.ips);
    } else {
      NothingTouched(s, s.(crashed := true));
    }
  }

  lemma ReconcileFresh(s: Pool, env: ReconcileEnv)
    requires Agreement(s) && Fresh(s) && Allowed(s, ReconcileStep(env))
    requires NoticedPoll(BeforePoll(s, env), BeforePoll(s, env).ips, 0, env.status)
    ensures Fresh(Reconcile(s, env))
  {
    ReconcileToDNSKeeps(s, env);
    BeforePollFresh(s, env);
    BeforePollAgrees(s, env);
    var s2 := BeforePoll(s, env);
    PollFresh(s2, s2.ips, 0, env.status);
    CheckIPsKeeps(s2, s2.ips, 0, env.status);
    AssignmentFresh(ReconcileIPStatus(s2, env.status), env.assign);
    DNSFresh(ReconcileToDNS(s, env), env.published);
  }

  lemma NodeFresh(s: Pool, v: Visit)
    requires Fresh(s)
    ensures Fresh(DisableNode(s, v)) && Fresh(EnableNode(s, v))
  {
    if !DisableNode(s, v).dnsDirty {
      NothingTouched(s, DisableNode(s, v));
    }
    if !EnableNode(s, v).dnsDirty {
      NothingTouched(s, EnableNode(s, v));
    }
  }

  lemma {:induction false} NodesFresh(s: Pool, visits: seq<Visit>)
    requires Fresh(s)
    ensures Fresh(DisableNodes(s, visits)) && Fresh(EnableNodes(s, visits))
    decreases |visits|
  {
    if visits != [] {
      NodeFresh(s, visits[0]);
      NodesFresh(DisableNode(s, visits[0]), visits[1..]);
      NodesFresh(EnableNode(s, visits[0]), visits[1..]);
    }
  }

  lemma ConfigurationFresh(s: Pool, step: Step)
    requires Fresh(s) && (step.ProvidersStep? || step.SpecStep? || step.DnsStep?)
    ensures Fresh(Apply(s, step))
  {
    match step
    case ProvidersStep(provider, region, coolOff) =>
      var t := UpdateProviders(s, provider, region, coolOff);
      if t.log == s.log && t.status == s.status {
        NothingTouched(s, t);
      }
    case SpecStep(ips, desiredIPs, order) =>
      ForgetUnwantedDirty(s.(dnsDirty := true), Enabled(ips, desiredIPs), order);
      if !UpdateIPs(s, ips, desiredIPs, order).dnsDirty {
        NothingTouched(s, UpdateIPs(s, ips, desiredIPs, order));
      }
    case DnsStep(dns) =>
      if UpdateDNSSpec(s, dns) != s {
        assert dns != s.dns;
      }
  }

  // ----- runs -----

  ghost predicate NoticedStep(s: Pool, step: Step) {
    step.ReconcileStep? ==> NoticedPoll(BeforePoll(s, step.env), BeforePoll(s, step.env).ips, 0, step.env.status)
  }

  ghost predicate NoticedRun(s: Pool, steps: seq<Step>)
    decreases |steps|
  {
    steps == [] || (Allowed(s, steps[0]) && NoticedStep(s, steps[0]) && NoticedRun(Apply(s, steps[0]), steps[1..]))
  }

  lemma ApplyFresh(s: Pool, step: Step)
    requires Agreement(s) && Fresh(s) && Allowed(s, step) && NoticedStep(s, step)
    ensures Fresh(Apply(s, step))
  {
    match step
    case DisableStep(visits) => NodesFresh(s, visits);
    case EnableStep(visits) => NodesFresh(s, visits);
    case ReconcileStep(env) => ReconcileFresh(s, env);
    case _ => ConfigurationFresh(s, step);
  }

  /** Over every run without an unnoticed eviction: when no update is due, DNS has what is active. */
  lemma {:induction false} StaysFresh(s: Pool, steps: seq<Step>)
    requires AgreementOrCrash(s) && Fresh(s) && NoticedRun(s, steps)
    ensures Fresh(Run(s, steps))
    decreases |steps|
  {
    if steps != [] {
      if s.crashed {
        StaysFresh(s, steps[1..]);
      } else {
        assert s == s.(crashed := false);
        ApplyKeeps(s, steps[0]);
        ApplyFresh(s, steps[0]);
        StaysFresh(Apply(s, steps[0]), steps[1..]);
      }
    }
  }

  // ----- a faithful provider -----

  lemma FaithfulIsNoticed(s: Pool, ip: string, t: StatusTick)
    requires Agreement(s) && (Due(s, ip, t) ==> Faithful(s, ip, t.answer))
    ensures !EvictsUnnoticed(s, ip, t)
  {
  }

  lemma {:induction false} FaithfulPollIsNoticed(s: Pool, ips: seq<string>, k: nat, ticks: nat -> StatusTick)
    requires Agreement(s) && FaithfulPoll(s, ips, k, ticks) && forall ip :: ip in ips ==> ip in s.ips
    ensures NoticedPoll(s, ips, k, ticks)
    decreases |ips|
  {
    if ips != [] && !ticks(k).cancelled {
      FaithfulIsNoticed(s, ips[0], ticks(k));
      CheckIPKeeps(s, ips[0], ticks(k));
      FaithfulPollIsNoticed(CheckIP(s, ips[0], ticks(k)), ips[1..], k + 1, ticks);
    }
  }

  lemma {:induction false} FaithfulRunIsFresh(s: Pool, steps: seq<Step>)
    requires AgreementOrCrash(s) && Fresh(s) && FaithfulRun(s, steps)
    ensures Fresh(Run(s, steps))
    decreases |steps|
  {
    if steps != [] {
      if s.crashed {
        FaithfulRunIsFresh(s, steps[1..]);
      } else {
        assert s == s.(crashed := false);
        if steps[0].ReconcileStep? {
          BeforePollAgrees(s, steps[0].env);
          var s2 := BeforePoll(s, steps[0].env);
          FaithfulPollIsNoticed(s2, s2.ips, 0, steps[0].env.status);
        }
        ApplyKeeps(s, steps[0]);
        ApplyFresh(s, steps[0]);
        FaithfulRunIsFresh(Apply(s, steps[0]), steps[1..]);
      }
    }
  }

  /** Freshness over every run with a faithful provider: with a record wanted and no update due, the last one
      went out for that record with exactly the IPs active now, unless everything was forgotten with a provider. */
  lemma FreshOverRuns(clock: Time, steps: seq<Step>)
    requires clock > 0 && FaithfulRun(NewPool(clock), steps)
    ensures var s := Run(NewPool(clock), steps);
      s.dns.Some? && !s.dnsDirty ==>
        s.status == map[] || LastPublished(s.log) == Some((s.dns.value, ActiveIPs(s, s.ips)))
  {
    assert Agreement(NewPool(clock)) && NewPool(clock).(crashed := false) == NewPool(clock);
    FaithfulRunIsFresh(NewPool(clock), steps);
  }

  // ----- an eviction that goes unnoticed -----

  /** Two IPs, each on its node, confirmed and published. */
  ghost function TwoPublished(dns: DnsSpec): Pool {
    NewPool(1).(ips := ["192.0.2.1", "192.0.2.2"], active := map["a" := "node-a", "b" := "node-b"],
                claims := map["a" := "192.0.2.1", "b" := "192.0.2.2"],
                status := map["192.0.2.1" := HealthyStatus(map["a" := "node-a"], "a", 1),
                              "192.0.2.2" := HealthyStatus(map["b" := "node-b"], "b", 1)],
                dns := Some(dns), log := [Published(dns, ["192.0.2.1", "192.0.2.2"])])
  }

  /** Once it is due again, the second IP is found on the first one's node: the first no longer counts as active,
      and is still published, with no update due. */
  lemma EvictedStaysPublished(dns: DnsSpec)
    ensures var s, t := TwoPublished(dns), StatusTick(false, 6 * MINUTE, Owner("a"), 0);
      && Conserved(s) && Fresh(s) && Due(s, "192.0.2.2", t)
      && !CheckIP(s, "192.0.2.2", t).dnsDirty && !Fresh(CheckIP(s, "192.0.2.2", t))
  {
    var s, t := TwoPublished(dns), StatusTick(false, 6 * MINUTE, Owner("a"), 0);
    TwoAreConserved(dns);
    TwoAreFresh(dns);
    TwoCollide(dns);
    AnswerKeepsFresh(s, "192.0.2.2", t);
    OwnReport(s, "192.0.2.2", t);
  }

  lemma TwoCollide(dns: DnsSpec)
    ensures var s, ip, t := TwoPublished(dns), "192.0.2.2", StatusTick(false, 6 * MINUTE, Owner("a"), 0);
      && ip in s.ips && ip in s.status && Due(s, ip, t) && EvictsUnnoticed(s, ip, t) && s.dns.Some? && !s.dnsDirty
      && s.status[ip].state == ReportFor(s, "a") && s.status[ip].message == NoMessage
  {
  }

  lemma TwoAreConserved(dns: DnsSpec)
    ensures Conserved(TwoPublished(dns))
  {
    assert "192.0.2.1" != "192.0.2.2" && "a" != "b";
  }

  lemma TwoAreFresh(dns: DnsSpec)
    ensures Fresh(TwoPublished(dns))
  {
    var s := TwoPublished(dns);
    assert s.ips[1..] == ["192.0.2.2"] && ["192.0.2.2"][1..] == [];
    assert CountsAsActive(s, "192.0.2.1") && CountsAsActive(s, "192.0.2.2");
    assert ActiveIPs(s, ["192.0.2.2"]) == ["192.0.2.2"];
    assert ActiveIPs(s, s.ips) == ["192.0.2.1"] + ActiveIPs(s, ["192.0.2.2"]) == s.ips;
    assert s.log[|s.log| - 1].Published? && LastPublished(s.log) == Some((dns, s.ips));
  }
}
