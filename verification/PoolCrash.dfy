/** When, exactly, a reconcile pass dereferences a missing status, told from what is known before the
    poll: in every reachable state, an IP without a status means that DNS is due, or that nothing was
    polled since the last reset. */
module PoolCrash {
  import opened Options
  import opened RetrySchedules
  import opened OrderedQueues
  import opened PoolState
  import opened PoolAgreement
  import opened PoolDns

  ghost predicate Missing(s: Pool) {
    exists n :: 0 <= n < |s.ips| && s.ips[n] !in s.status
  }

  ghost predicate MissingIsDue(s: Pool) {
    s.dns.Some? && !s.dnsDirty && Missing(s) ==> s.status == map[]
  }

  lemma SameIsDue(s: Pool, t: Pool)
    requires SameForDns(s, t) && MissingIsDue(s)
    ensures MissingIsDue(t)
  {
    if !t.dnsDirty && Missing(t) {
      var n :| 0 <= n < |t.ips| && t.ips[n] !in t.status;
      assert s.ips[n] !in s.status;
    }
  }

  lemma {:induction false} DisableNodesSame(s: Pool, visits: seq<Visit>)
    ensures SameForDns(s, DisableNodes(s, visits))
    decreases |visits|
  {
    if visits != [] {
      assert SameForDns(s, DisableNode(s, visits[0]));
      DisableNodesSame(DisableNode(s, visits[0]), visits[1..]);
    }
  }

  lemma {:induction false} EnableNodesSame(s: Pool, visits: seq<Visit>)
    ensures SameForDns(s, EnableNodes(s, visits))
    decreases |visits|
  {
    if visits != [] {
      assert SameForDns(s, EnableNode(s, visits[0]));
      EnableNodesSame(EnableNode(s, visits[0]), visits[1..]);
    }
  }

  lemma {:induction false} CreateIPsSame(s: Pool, k: nat, results: nat -> CreateResult)
    ensures SameForDns(s, CreateIPs(s, k, results))
    decreases s.desiredIPs - |s.ips| - |s.pendingIPs|
  {
    if |s.ips| + |s.pendingIPs| < s.desiredIPs && results(k).NewIP? {
      var ip := results(k).ip;
      CreateIPsSame(s.(dnsDirty := true, pendingIPs := s.pendingIPs + [ip], createAttempts := 0,
                       log := s.log + [Created(ip)]), k + 1, results);
    }
  }

  lemma {:induction false} AdoptPendingSame(s: Pool, pending: seq<string>)
    ensures AdoptPending(s, pending).dns == s.dns && AdoptPending(s, pending).dnsDirty == s.dnsDirty
    decreases |pending|
  {
    if pending != [] {
      AdoptPendingSame(AdoptOne(s, pending[0]), pending[1..]);
    }
  }

  lemma PendingIPsDue(s: Pool, cancelled: bool, persisted: bool)
    requires MissingIsDue(s)
    ensures MissingIsDue(ReconcilePendingIPs(s, cancelled, persisted))
  {
    AdoptPendingSame(s.(dnsDirty := true, log := s.log + [Persisted(s.pendingIPs)]), s.pendingIPs);
  }

  lemma BeforePollDue(s: Pool, env: ReconcileEnv)
    requires MissingIsDue(s)
    ensures MissingIsDue(BeforePoll(s, env))
  {
    var s0 := ReconcileStart(s, env);
    var s1 := ReconcileDesiredIPs(s0, env.create);
    CreateIPsSame(Tick(s0, env.create.delay), 0, env.create.results);
    SameIsDue(s, s1);
    PendingIPsDue(s1, env.pendingCancelled, env.persisted);
  }

  lemma ErrorSame(s: Pool, ip: string, st: IpStatus, err: ProviderError, stamp: nat)
    requires ip in s.status
    ensures var u := StatusError(s, ip, st, err, stamp); SameForDns(s, u) && (st == NEW_STATUS ==> u.dnsDirty)
  {
  }

  lemma OkSame(s: Pool, ip: string, known: bool, st: IpStatus, owner: string, stamp: nat)
    requires ip in s.status && (ClaimOf(s, owner) != "" ==> ClaimOf(s, owner) in s.status)
    ensures var u := StatusOk(s, ip, known, st, owner, stamp); SameForDns(s, u) && (st == NEW_STATUS ==> u.dnsDirty)
  {
    var s1 := s.(ipQueue := AddIf(owner == "", s.ipQueue, ip, true));
    assert SameForDns(s1, Adopt(s1, ip, known, st.node, owner));
  }

  /** A first look at an IP always changes its state, and so makes DNS due. */
  lemma CheckIPDue(s: Pool, ip: string, t: StatusTick)
    requires ClaimsAgree(s.claims, s.status) && s.clock > 0
    ensures var u := CheckIP(s, ip, t);
      && u.ips == s.ips && u.dns == s.dns && (s.dnsDirty ==> u.dnsDirty)
      && (ip !in s.status ==> u.dnsDirty) && (ip in s.status ==> u.status.Keys == s.status.Keys)
  {
    var st, s1 := StatusFor(s, ip), See(s, ip, t.delay);
    if st.nextRetry <= s1.clock {
      match t.answer
      case Failed(err) => ErrorSame(s1, ip, st, err, t.stamp);
      case Owner(owner) => OkSame(s1, ip, ip in s.status, st, owner, t.stamp);
    }
  }

  lemma {:induction false} CheckIPsDue(s: Pool, ips: seq<string>, k: nat, ticks: nat -> StatusTick)
    requires Agreement(s) && forall ip :: ip in ips ==> ip in s.ips
    ensures var u := CheckIPs(s, ips, k, ticks);
      && u.ips == s.ips && u.dns == s.dns && (s.dnsDirty ==> u.dnsDirty)
      && (u.dnsDirty || u.status.Keys == s.status.Keys)
      && (ips != [] && ips[0] !in s.status && !ticks(k).cancelled ==> u.dnsDirty)
    decreases |ips|
  {
    if ips != [] && !ticks(k).cancelled {
      var s1 := CheckIP(s, ips[0], ticks(k));
      CheckIPDue(s, ips[0], ticks(k));
      CheckIPKeeps(s, ips[0], ticks(k));
      CheckIPsDue(s1, ips[1..], k + 1, ticks);
      assert CheckIPs(s, ips, k, ticks) == CheckIPs(s1, ips[1..], k + 1, ticks);
    }
  }

  lemma AssignmentSame(s: Pool, ticks: nat -> AssignTick)
    requires Agreement(s)
    ensures SameForDns(s, ReconcileAssignment(s, ticks))
    ensures ticks(0).cancelled ==> ReconcileAssignment(s, ticks).dnsDirty == s.dnsDirty
  {
    AssignmentFrame(Loop(s, [], []), 0, ticks);
  }

  lemma DNSDue(s: Pool, published: bool)
    requires MissingIsDue(s)
    ensures MissingIsDue(ReconcileDNS(s, published))
  {
  }

  lemma PollStates(s: Pool, env: ReconcileEnv)
    requires Agreement(s) && Allowed(s, ReconcileStep(env))
    ensures Agreement(BeforePoll(s, env)) && Agreement(ReconcileIPStatus(BeforePoll(s, env), env.status))
  {
    var s0 := ReconcileStart(s, env);
    assert Agreement(s0);
    DesiredIPsKeeps(s0, env.create);
    PendingIPsKeeps(ReconcileDesiredIPs(s0, env.create), env.pendingCancelled, env.persisted);
    var s2 := BeforePoll(s, env);
    CheckIPsKeeps(s2, s2.ips, 0, env.status);
  }

  lemma ReconcileToDNSDue(s: Pool, env: ReconcileEnv)
    requires Agreement(s) && Allowed(s, ReconcileStep(env)) && MissingIsDue(s)
    ensures MissingIsDue(ReconcileToDNS(s, env))
  {
    PollStates(s, env);
    BeforePollDue(s, env);
    var s2 := BeforePoll(s, env);
    var s3 := ReconcileIPStatus(s2, env.status);
    CheckIPsDue(s2, s2.ips, 0, env.status);
    if !s3.dnsDirty {
      SameIsDue(s2, s3);
    }
    AssignmentSame(s3, env.assign);
    SameIsDue(s3, ReconcileToDNS(s, env));
  }

  lemma ApplyDue(s: Pool, step: Step)
    requires Agreement(s) && Allowed(s, step) && MissingIsDue(s)
    ensures MissingIsDue(Apply(s, step))
  {
    match step
    case ProvidersStep(provider, region, coolOff) =>
      if s.provider == provider && s.region == region {
        SameIsDue(s, UpdateProviders(s, provider, region, coolOff));
      }
    case SpecStep(ips, desiredIPs, order) =>
      UpdateIPsDue(s, ips, desiredIPs, order);
    case DnsStep(dns) =>
      if dns == s.dns {
        SameIsDue(s, UpdateDNSSpec(s, dns));
      }
    case DisableStep(visits) =>
      DisableNodesSame(s, visits);
      SameIsDue(s, DisableNodes(s, visits));
    case EnableStep(visits) =>
      EnableNodesSame(s, visits);
      SameIsDue(s, EnableNodes(s, visits));
    case ReconcileStep(env) =>
      ReconcileToDNSDue(s, env);
      DNSDue(ReconcileToDNS(s, env), env.published);
  }

  lemma UpdateIPsDue(s: Pool, ips: seq<string>, desiredIPs: nat, order: seq<string>)
    requires MissingIsDue(s)
    ensures MissingIsDue(UpdateIPs(s, ips, desiredIPs, order))
  {
    var t := UpdateIPs(s, ips, desiredIPs, order);
    ForgetUnwantedDirty(s.(dnsDirty := true), Enabled(ips, desiredIPs), order);
    if t == s.(desiredIPs := desiredIPs) {
      SameIsDue(s, t);
    }
  }

  lemma {:induction false} ForgetUnwantedDirty(s: Pool, wanted: seq<string>, order: seq<string>)
    ensures ForgetUnwanted(s, wanted, order).dnsDirty == s.dnsDirty
    decreases |order|
  {
    if order != [] {
      var s1 := if order[0] in s.status && order[0] !in wanted then Forget(s, order[0]) else s;
      ForgetUnwantedDirty(s1, wanted, order[1..]);
    }
  }

  lemma {:induction false} RunDue(s: Pool, steps: seq<Step>)
    requires AgreementOrCrash(s) && AllowedRun(s, steps) && MissingIsDue(s)
    ensures MissingIsDue(Run(s, steps))
    decreases |steps|
  {
    if steps != [] {
      if s.crashed {
        RunDue(s, steps[1..]);
      } else {
        assert s == s.(crashed := false);
        ApplyKeeps(s, steps[0]);
        ApplyDue(s, steps[0]);
        RunDue(Apply(s, steps[0]), steps[1..]);
      }
    }
  }

  // ----- the crash -----

  /** One context for the whole pass: once canceled, it stays so, through a poll of so many IPs. */
  ghost predicate OneContext(env: ReconcileEnv, polled: nat) {
    && (env.create.cancelled ==> env.pendingCancelled)
    && (env.pendingCancelled ==> env.status(0).cancelled)
    && (forall j: nat, k: nat :: j <= k && env.status(j).cancelled ==> env.status(k).cancelled)
    && (forall j: nat, k: nat :: j < polled && env.status(j).cancelled ==> env.assign(k).cancelled)
  }

  /** After any run, a pass crashes exactly when a DNS record is wanted, the context is canceled before
      the poll reaches some IP without a status, and DNS was due before the poll or the poll got to look
      at one IP at least. */
  lemma CrashesFromBeforePoll(clock: Time, steps: seq<Step>, env: ReconcileEnv)
    requires clock > 0 && AllowedRun(NewPool(clock), steps)
    requires var s := Run(NewPool(clock), steps);
      !s.crashed && Allowed(s, ReconcileStep(env)) && OneContext(env, |BeforePoll(s, env).ips|)
    ensures var s := Run(NewPool(clock), steps);
      var s2 := BeforePoll(s, env);
      Reconcile(s, env).crashed <==>
      && s2.dns.Some? && (s2.dnsDirty || !env.status(0).cancelled)
      && exists n :: 0 <= n < |s2.ips| && s2.ips[n] !in s2.status && !Reached(0, n, env.status)
  {
    var s := Run(NewPool(clock), steps);
    RunKeeps(NewPool(clock), steps);
    RunDue(NewPool(clock), steps);
    assert s == s.(crashed := false);
    CrashesExactlyWhen(s, env);
    var s2 := BeforePoll(s, env);
    if n :| 0 <= n < |s2.ips| && s2.ips[n] !in s2.status && !Reached(0, n, env.status) {
      DueAtTheCut(s, env, n);
    }
  }

  lemma DueAtTheCut(s: Pool, env: ReconcileEnv, n: nat)
    requires Agreement(s) && Allowed(s, ReconcileStep(env)) && MissingIsDue(s)
    requires OneContext(env, |BeforePoll(s, env).ips|)
    requires var s2 := BeforePoll(s, env);
      n < |s2.ips| && s2.ips[n] !in s2.status && !Reached(0, n, env.status)
    ensures var s2, t := BeforePoll(s, env), ReconcileToDNS(s, env);
      && t.ips == s2.ips && t.dns == s2.dns
      && (s2.dns.Some? ==> (t.dnsDirty <==> s2.dnsDirty || !env.status(0).cancelled))
  {
    PollStates(s, env);
    BeforePollDue(s, env);
    var s2 := BeforePoll(s, env);
    var s3 := ReconcileIPStatus(s2, env.status);
    CheckIPsDue(s2, s2.ips, 0, env.status);
    AssignmentSame(s3, env.assign);
    assert Missing(s2);
    var j :| 0 <= j <= n && env.status(j).cancelled;
    assert env.assign(0).cancelled;
  }
}
