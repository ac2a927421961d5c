/** What makes a DNS update due: over every run, whatever the provider answers, nothing but lookups that were
    taken notice of happened since the last update, or one is due. */
module PoolUpdates {
  import opened Options
  import opened RetrySchedules
  import opened OrderedQueues
  import opened PoolState
  import opened PoolAgreement
  import opened PoolCrash
  import opened PoolTimer
  import opened PoolFreshness

  /** The log has an update with only lookups, evictions and resets after it. */
  ghost predicate QuietSinceUpdate(log: seq<Call>) {
    log != [] && (log[|log| - 1].Published? || (!Notable(log[|log| - 1]) && QuietSinceUpdate(log[..|log| - 1])))
  }

  lemma {:induction false} QuietGrows(log: seq<Call>, longer: seq<Call>)
    requires QuietSinceUpdate(log) && NothingOfNote(log, longer)
    ensures QuietSinceUpdate(longer)
    decreases |longer|
  {
    if |longer| > |log| {
      QuietGrows(log, longer[..|longer| - 1]);
    } else {
      assert longer == log;
    }
  }

  ghost predicate Attended(s: Pool) {
    s.dns.Some? && !s.dnsDirty ==> QuietSinceUpdate(s.log)
  }

  /** An update is due, or nothing of note happened. */
  ghost predicate Minor(s: Pool, t: Pool) {
    t.dnsDirty || (t.dns == s.dns && !s.dnsDirty && NothingOfNote(s.log, t.log))
  }

  lemma MinorAttended(s: Pool, t: Pool)
    requires Attended(s) && Minor(s, t)
    ensures Attended(t)
  {
    if t.dns.Some? && !t.dnsDirty {
      QuietGrows(s.log, t.log);
    }
  }

  lemma {:induction false} NodesAttended(s: Pool, visits: seq<Visit>)
    requires Attended(s)
    ensures Attended(DisableNodes(s, visits)) && Attended(EnableNodes(s, visits))
    decreases |visits|
  {
    if visits != [] {
      assert Attended(DisableNode(s, visits[0]));
      assert Attended(EnableNode(s, visits[0]));
      NodesAttended(DisableNode(s, visits[0]), visits[1..]);
      NodesAttended(EnableNode(s, visits[0]), visits[1..]);
    }
  }

  lemma {:induction false} PollAttended(s: Pool, ips: seq<string>, k: nat, ticks: nat -> StatusTick)
    requires Agreement(s) && Attended(s) && forall ip :: ip in ips ==> ip in s.ips
    ensures Attended(CheckIPs(s, ips, k, ticks))
    decreases |ips|
  {
    if ips != [] && !ticks(k).cancelled {
      CheckIPKeeps(s, ips[0], ticks(k));
      OwnReport(s, ips[0], ticks(k));
      MinorAttended(s, CheckIP(s, ips[0], ticks(k)));
      PollAttended(CheckIP(s, ips[0], ticks(k)), ips[1..], k + 1, ticks);
    }
  }

  lemma TryHeadsAttended(l: Loop, t: AssignTick)
    requires l.s.ipQueue != [] && l.s.nodeQueue != [] && l.s.ipQueue[0] in l.s.status && Attended(l.s)
    ensures Attended(TryHeads(l, t).s)
  {
    if !HeadIPWaits(l.s) && !HeadNodeWaits(l.s) {
      var s2 := l.s.(ipQueue := l.s.ipQueue[1..], nodeQueue := l.s.nodeQueue[1..]);
      AttemptFrame(s2, l.s.ipQueue[0], l.s.nodeQueue[0], t);
    }
  }

  lemma AssignmentAttended(s: Pool, ticks: nat -> AssignTick)
    requires Agreement(s) && Attended(s)
    ensures Attended(ReconcileAssignment(s, ticks))
  {
    var inv := (u: Loop) => LoopAgreement(u) && Attended(u.s);
    forall u: Loop, delay: nat | inv(u)
      ensures inv(u.(s := Tick(u.s, delay)))
    {
      LoopTicks(u, delay);
    }
    forall u: Loop | inv(u)
      ensures inv(u.(s := WakeBy(u.s, u.s.nextAssignment)))
    {
      LoopTicks(u, 0);
    }
    forall u: Loop, t: AssignTick | inv(u) && TakesTurn(u)
      ensures inv(TryHeads(u, t))
    {
      TryHeadsKeeps(u, t);
      TryHeadsAttended(u, t);
    }
    AssignLoopKeepsAny(inv, Loop(s, [], []), 0, ticks);
  }

  lemma BeforePollAttended(s: Pool, env: ReconcileEnv)
    requires Attended(s)
    ensures Attended(BeforePoll(s, env))
  {
    var s0 := ReconcileStart(s, env);
    CreateIPsFresh(Tick(s0, env.create.delay), 0, env.create.results);
    var s1 := ReconcileDesiredIPs(s0, env.create);
    assert Attended(s1);
    AdoptPendingSame(s1.(dnsDirty := true, log := s1.log + [Persisted(s1.pendingIPs)]), s1.pendingIPs);
  }

  lemma DNSAttended(s: Pool, published: bool)
    requires Attended(s)
    ensures Attended(ReconcileDNS(s, published))
  {
  }

  lemma ReconcileAttended(s: Pool, env: ReconcileEnv)
    requires Agreement(s) && Attended(s) && Allowed(s, ReconcileStep(env))
    ensures Attended(Reconcile(s, env))
  {
    ReconcileToDNSKeeps(s, env);
    BeforePollAttended(s, env);
    BeforePollAgrees(s, env);
    var s2 := BeforePoll(s, env);
    PollAttended(s2, s2.ips, 0, env.status);
    CheckIPsKeeps(s2, s2.ips, 0, env.status);
    AssignmentAttended(ReconcileIPStatus(s2, env.status), env.assign);
    DNSAttended(ReconcileToDNS(s, env), env.published);
  }

  lemma ApplyAttended(s: Pool, step: Step)
    requires Agreement(s) && Attended(s) && Allowed(s, step)
    ensures Attended(Apply(s, step))
  {
    match step
    case ProvidersStep(provider, region, coolOff) =>
      if !s.dnsDirty {
        MinorAttended(s, UpdateProviders(s, provider, region, coolOff));
      }
    case SpecStep(ips, desiredIPs, order) =>
      ForgetUnwantedDirty(s.(dnsDirty := true), Enabled(ips, desiredIPs), order);
    case DnsStep(dns) =>
    case DisableStep(visits) => NodesAttended(s, visits);
    case EnableStep(visits) => NodesAttended(s, visits);
    case ReconcileStep(env) => ReconcileAttended(s, env);
  }

  lemma {:induction false} RunAttended(s: Pool, steps: seq<Step>)
    requires AgreementOrCrash(s) && Attended(s) && AllowedRun(s, steps)
    ensures Attended(Run(s, steps))
    decreases |steps|
  {
    if steps != [] {
      if s.crashed {
        RunAttended(s, steps[1..]);
      } else {
        assert s == s.(crashed := false);
        ApplyKeeps(s, steps[0]);
        ApplyAttended(s, steps[0]);
        RunAttended(Apply(s, steps[0]), steps[1..]);
      }
    }
  }

  /** Over every run, whatever the provider answers: with a record wanted, either an update is due, or one went
      out and since then no IP was created, persisted, assigned, refused, forgotten, or lost or regained its node. */
  lemma UpdateDueOverRuns(clock: Time, steps: seq<Step>)
    requires clock > 0 && AllowedRun(NewPool(clock), steps)
    ensures var s := Run(NewPool(clock), steps);
      s.dns.Some? && !s.dnsDirty ==>
        exists i :: 0 <= i < |s.log| && s.log[i].Published? && forall j :: i < j < |s.log| ==> !Notable(s.log[j])
  {
    assert Agreement(NewPool(clock)) && NewPool(clock).(crashed := false) == NewPool(clock);
    RunAttended(NewPool(clock), steps);
    var s := Run(NewPool(clock), steps);
    if s.dns.Some? && !s.dnsDirty {
      var i := UpdateAt(s.log);
    }
  }

  lemma {:induction false} UpdateAt(log: seq<Call>) returns (i: nat)
    requires QuietSinceUpdate(log)
    ensures i < |log| && log[i].Published? && forall j :: i < j < |log| ==> !Notable(log[j])
    decreases |log|
  {
    i := |log| - 1;
    if !log[i].Published? {
      i := UpdateAt(log[..i]);
    }
  }
}
