/** Time over whole runs: the cool-off between assignments, and the backoff after refused ones. Both
    are read off the log of calls. */
module PoolTiming {
  import opened Options
  import opened RetrySchedules
  import opened OrderedQueues
  import opened PoolState
  import opened PoolAgreement

  // ----- reading the log -----

  /** The successful assignments, oldest first. */
  function Assignments(log: seq<Call>): (r: seq<Call>)
    ensures forall c :: c in r ==> c.Assigned?
  {
    if log == [] then []
    else Assignments(log[..|log| - 1]) + if log[|log| - 1].Assigned? then [log[|log| - 1]] else []
  }

  /** The retry record the log implies for a node: every refusal advances it, on the schedule of the
      first one; success, a lost claim and a reset clear it. */
  function NodeBlock(log: seq<Call>, p: string): Option<Retry> {
    if log == [] then None
    else
      var before := NodeBlock(log[..|log| - 1], p);
      match log[|log| - 1]
      case Refused(_, node, _, _, err, nodeUntil, _, _) =>
        if node != p then before
        else if before.None? then Some(Retry(1, nodeUntil, ErrorToRetrySchedule(err)))
        else Some(Retry(before.value.attempts + 1, nodeUntil, before.value.schedule))
      case Assigned(_, node, _, _, _, _, _) => if node == p then None else before
      case Forgot(_, node) => if node == p then None else before
      case Reset => None
      case _ => before
  }

  /** The deadline the log implies for an IP. */
  function IpBlock(log: seq<Call>, ip: string): Option<Time> {
    if log == [] then None
    else
      var before := IpBlock(log[..|log| - 1], ip);
      match log[|log| - 1]
      case Refused(i, _, _, _, _, _, _, ipUntil) => if i == ip then Some(ipUntil) else before
      case Assigned(i, _, _, _, _, _, _) => if i == ip then None else before
      case Forgot(i, _) => if i == ip then None else before
      case Reset => None
      case _ => before
  }

  /** An AssignIP call made after `log` respects both deadlines, and a refused node's next one is as
      far away as its schedule says for that many refusals in a row. */
  ghost predicate Timely(log: seq<Call>, c: Call) {
    c.Assigned? || c.Refused? ==>
      && (NodeBlock(log, c.node).Some? ==> NodeBlock(log, c.node).value.nextRetry <= c.at)
      && (IpBlock(log, c.ip).Some? ==> IpBlock(log, c.ip).value <= c.at)
      && (c.Refused? ==>
           c.at <= c.failedAt &&
           c.nodeUntil == c.failedAt +
             (match NodeBlock(log, c.node)
              case None => After(ErrorToRetrySchedule(c.error), 0)
              case Some(r) => After(r.schedule, r.attempts)))
  }

  ghost predicate HonorsBackoff(log: seq<Call>) {
    log == [] || (HonorsBackoff(log[..|log| - 1]) && Timely(log[..|log| - 1], log[|log| - 1]))
  }

  /** Each success comes strictly more than the cool-off in force after the one before. */
  ghost predicate Spaced(a: seq<Call>) {
    && (forall i :: 0 <= i < |a| ==> a[i].Assigned? && a[i].at <= a[i].done)
    && (forall i :: 0 < i < |a| && a[i].coolOff != 0 ==> a[i - 1].done + a[i].coolOff < a[i].at)
  }

  // ----- the invariant -----

  ghost predicate CoolOffKept(log: seq<Call>, nextAssignment: Time, coolOff: nat, clock: Time) {
    var a := Assignments(log);
    && Spaced(a)
    && (a == [] ==> nextAssignment == 0)
    && (a != [] ==> 0 < a[|a| - 1].done <= clock && nextAssignment == a[|a| - 1].done + coolOff)
  }

  ghost predicate NodesBlocked(log: seq<Call>, nodeRetry: map<string, Retry>) {
    forall p :: p != "" ==> NodeBlock(log, p) == if p in nodeRetry then Some(nodeRetry[p]) else None
  }

  /** Still in backoff: no owner, in error, and the recorded deadline ahead. */
  ghost predicate Waiting(status: map<string, IpStatus>, ip: string, until: Time) {
    ip in status && status[ip].state == Error && status[ip].node == "" && status[ip].nextRetry == until
  }

  ghost predicate IPsBlocked(log: seq<Call>, status: map<string, IpStatus>, clock: Time) {
    forall ip :: IpBlock(log, ip).Some? && clock < IpBlock(log, ip).value ==> Waiting(status, ip, IpBlock(log, ip).value)
  }

  ghost predicate Timed(s: Pool) {
    && CoolOffKept(s.log, s.nextAssignment, s.coolOff, s.clock)
    && HonorsBackoff(s.log)
    && NodesBlocked(s.log, s.nodeRetry)
    && IPsBlocked(s.log, s.status, s.clock)
  }

  // ----- steps that neither assign nor forget -----

  predicate Background(c: Call) {
    !c.Assigned? && !c.Refused? && !c.Forgot? && !c.Reset?
  }

  ghost predicate WaitersKept(s: map<string, IpStatus>, t: map<string, IpStatus>, clock: Time) {
    forall ip, until :: Waiting(s, ip, until) && clock < until ==> Waiting(t, ip, until)
  }

  ghost predicate Calm(s: Pool, t: Pool) {
    && s.log <= t.log && (forall i :: |s.log| <= i < |t.log| ==> Background(t.log[i]))
    && t.nodeRetry == s.nodeRetry && t.nextAssignment == s.nextAssignment && t.coolOff == s.coolOff
    && s.clock <= t.clock
    && WaitersKept(s.status, t.status, t.clock)
  }

  lemma CalmTrans(s: Pool, t: Pool, u: Pool)
    requires Calm(s, t) && Calm(t, u)
    ensures Calm(s, u)
  {
  }

  lemma BackgroundCall(log: seq<Call>, c: Call)
    requires Background(c)
    ensures Assignments(log + [c]) == Assignments(log)
    ensures forall p :: NodeBlock(log + [c], p) == NodeBlock(log, p)
    ensures forall ip :: IpBlock(log + [c], ip) == IpBlock(log, ip)
    ensures HonorsBackoff(log) ==> HonorsBackoff(log + [c])
  {
  }

  lemma {:induction false} BackgroundCalls(log: seq<Call>, t: seq<Call>)
    requires log <= t && forall i :: |log| <= i < |t| ==> Background(t[i])
    ensures Assignments(t) == Assignments(log)
    ensures forall p :: NodeBlock(t, p) == NodeBlock(log, p)
    ensures forall ip :: IpBlock(t, ip) == IpBlock(log, ip)
    ensures HonorsBackoff(log) ==> HonorsBackoff(t)
    decreases |t|
  {
    if |t| > |log| {
      var init, last := t[..|t| - 1], t[|t| - 1];
      assert t == init + [last];
      BackgroundCalls(log, init);
      BackgroundCall(init, last);
    } else {
      assert t == log;
    }
  }

  lemma CalmKeeps(s: Pool, t: Pool)
    requires Timed(s) && Calm(s, t)
    ensures Timed(t)
  {
    BackgroundCalls(s.log, t.log);
  }

  lemma DisableNodeCalm(s: Pool, v: Visit)
    requires Agreement(s)
    ensures Calm(s, DisableNode(s, v))
  {
  }

  lemma EnableNodeCalm(s: Pool, v: Visit)
    requires Agreement(s)
    ensures Calm(s, EnableNode(s, v))
  {
  }

  lemma {:induction false} DisableNodesCalm(s: Pool, visits: seq<Visit>)
    requires Agreement(s)
    ensures Calm(s, DisableNodes(s, visits))
    decreases |visits|
  {
    if visits != [] {
      DisableNodeKeeps(s, visits[0]);
      DisableNodeCalm(s, visits[0]);
      DisableNodesCalm(DisableNode(s, visits[0]), visits[1..]);
      CalmTrans(s, DisableNode(s, visits[0]), DisableNodes(s, visits));
    }
  }

  lemma {:induction false} EnableNodesCalm(s: Pool, visits: seq<Visit>)
    requires Agreement(s)
    ensures Calm(s, EnableNodes(s, visits))
    decreases |visits|
  {
    if visits != [] {
      EnableNodeKeeps(s, visits[0]);
      EnableNodeCalm(s, visits[0]);
      EnableNodesCalm(EnableNode(s, visits[0]), visits[1..]);
      CalmTrans(s, EnableNode(s, visits[0]), EnableNodes(s, visits));
    }
  }

  lemma {:induction false} CreateIPsCalm(s: Pool, k: nat, results: nat -> CreateResult)
    ensures Calm(s, CreateIPs(s, k, results))
    decreases s.desiredIPs - |s.ips| - |s.pendingIPs|
  {
    if |s.ips| + |s.pendingIPs| < s.desiredIPs && results(k).NewIP? {
      var ip := results(k).ip;
      var s1 := s.(dnsDirty := true, pendingIPs := s.pendingIPs + [ip], createAttempts := 0,
                   log := s.log + [Created(ip)]);
      CreateIPsCalm(s1, k + 1, results);
      CalmTrans(s, s1, CreateIPs(s, k, results));
    }
  }

  lemma DesiredIPsCalm(s: Pool, env: CreateEnv)
    ensures Calm(s, ReconcileDesiredIPs(s, env))
  {
    CreateIPsCalm(Tick(s, env.delay), 0, env.results);
  }

  lemma {:induction false} AdoptPendingCalm(s: Pool, pending: seq<string>)
    requires forall ip :: ip in pending ==> ip !in s.status
    requires NoDup(pending)
    ensures Calm(s, AdoptPending(s, pending))
    decreases |pending|
  {
    if pending != [] {
      HeadGone(pending);
      AdoptPendingCalm(AdoptOne(s, pending[0]), pending[1..]);
      CalmTrans(s, AdoptOne(s, pending[0]), AdoptPending(s, pending));
    }
  }

  lemma PendingIPsCalm(s: Pool, cancelled: bool, persisted: bool)
    requires Agreement(s)
    ensures Calm(s, ReconcilePendingIPs(s, cancelled, persisted))
  {
    if !cancelled && s.pendingIPs != [] && persisted {
      var s1 := s.(dnsDirty := true, log := s.log + [Persisted(s.pendingIPs)]);
      AdoptPendingCalm(s1, s.pendingIPs);
      CalmTrans(s, s1, AdoptPending(s1, s.pendingIPs));
    }
  }

  lemma SeeCalm(s: Pool, ip: string, delay: nat)
    ensures Calm(s, See(s, ip, delay))
  {
  }

  lemma StatusErrorCalm(s: Pool, ip: string, err: ProviderError, stamp: nat)
    requires ip in s.status && s.status[ip].nextRetry <= s.clock
    ensures Calm(s, StatusError(s, ip, s.status[ip], err, stamp))
  {
  }

  /** Only an IP that some node claims can be evicted, and a waiting one is not claimed. */
  lemma AdoptCalm(s: Pool, ip: string, known: bool, owner: string)
    requires ClaimsAgree(s.claims, s.status) && "" !in s.claims && ip in s.status
    ensures var u := Adopt(s, ip, known, s.status[ip].node, owner);
      && s.log <= u.log && (forall i :: |s.log| <= i < |u.log| ==> Background(u.log[i]))
      && u.nodeRetry == s.nodeRetry && u.nextAssignment == s.nextAssignment && u.coolOff == s.coolOff
      && WaitersKept(s.status, u.status, s.clock)
  {
  }

  lemma StatusOkCalm(s: Pool, ip: string, known: bool, owner: string, stamp: nat)
    requires ClaimsAgree(s.claims, s.status) && "" !in s.claims
    requires ip in s.status && s.status[ip].nextRetry <= s.clock
    ensures Calm(s, StatusOk(s, ip, known, s.status[ip], owner, stamp))
  {
    AdoptCalm(s.(ipQueue := AddIf(owner == "", s.ipQueue, ip, true)), ip, known, owner);
  }

  /** A waiting IP is not even looked up, and looking up another one does not disturb it. */
  lemma CheckIPCalm(s: Pool, ip: string, t: StatusTick)
    requires Agreement(s) && ip in s.ips
    ensures Calm(s, CheckIP(s, ip, t))
  {
    var s1 := See(s, ip, t.delay);
    FirstSeenKeeps(s, ip, t.delay);
    SeeCalm(s, ip, t.delay);
    if s1.status[ip].nextRetry <= s1.clock {
      match t.answer
      case Failed(err) =>
        StatusErrorCalm(s1, ip, err, t.stamp);
        CalmTrans(s, s1, StatusError(s1, ip, s1.status[ip], err, t.stamp));
      case Owner(owner) =>
        StatusOkCalm(s1, ip, ip in s.status, owner, t.stamp);
        CalmTrans(s, s1, StatusOk(s1, ip, ip in s.status, s1.status[ip], owner, t.stamp));
    }
  }

  lemma {:induction false} CheckIPsCalm(s: Pool, ips: seq<string>, k: nat, ticks: nat -> StatusTick)
    requires Agreement(s) && forall ip :: ip in ips ==> ip in s.ips
    ensures Calm(s, CheckIPs(s, ips, k, ticks))
    decreases |ips|
  {
    if ips != [] && !ticks(k).cancelled {
      CheckIPKeeps(s, ips[0], ticks(k));
      CheckIPCalm(s, ips[0], ticks(k));
      CheckIPsCalm(CheckIP(s, ips[0], ticks(k)), ips[1..], k + 1, ticks);
      CalmTrans(s, CheckIP(s, ips[0], ticks(k)), CheckIPs(s, ips, k, ticks));
    }
  }

  // ----- forgetting -----

  lemma ForgottenCall(log: seq<Call>, ip: string, node: string)
    ensures var t := log + [Forgot(ip, node)];
      && Assignments(t) == Assignments(log)
      && (forall p :: NodeBlock(t, p) == if p == node then None else NodeBlock(log, p))
      && (forall i :: IpBlock(t, i) == if i == ip then None else IpBlock(log, i))
      && (HonorsBackoff(log) ==> HonorsBackoff(t))
  {
  }

  lemma ForgetTimed(s: Pool, ip: string)
    requires Timed(s) && ip in s.status
    ensures Timed(Forget(s, ip))
  {
    ForgottenCall(s.log, ip, s.status[ip].node);
  }

  lemma {:induction false} ForgetUnwantedTimed(s: Pool, wanted: seq<string>, order: seq<string>)
    requires Timed(s)
    ensures Timed(ForgetUnwanted(s, wanted, order))
    decreases |order|
  {
    if order != [] {
      if order[0] in s.status && order[0] !in wanted {
        ForgetTimed(s, order[0]);
        ForgetUnwantedTimed(Forget(s, order[0]), wanted, order[1..]);
      } else {
        ForgetUnwantedTimed(s, wanted, order[1..]);
      }
    }
  }

  lemma UpdateIPsTimed(s: Pool, ips: seq<string>, desiredIPs: nat, order: seq<string>)
    requires Timed(s)
    ensures Timed(UpdateIPs(s, ips, desiredIPs, order))
  {
    ForgetUnwantedTimed(s.(dnsDirty := true), Enabled(ips, desiredIPs), order);
  }

  lemma ResetCall(log: seq<Call>)
    ensures var t := log + [Reset];
      && Assignments(t) == Assignments(log)
      && (forall p :: NodeBlock(t, p) == None) && (forall i :: IpBlock(t, i) == None)
      && (HonorsBackoff(log) ==> HonorsBackoff(t))
  {
  }

  /** A changed cool-off moves the next assignment along, a reset forgets every backoff. */
  lemma ProvidersTimed(s: Pool, provider: string, region: string, coolOff: nat)
    requires Timed(s)
    ensures Timed(UpdateProviders(s, provider, region, coolOff))
  {
    ResetCall(s.log);
  }

  // ----- assigning -----

  lemma AssignedCall(log: seq<Call>, c: Call)
    requires c.Assigned?
    ensures var t := log + [c];
      && Assignments(t) == Assignments(log) + [c]
      && (forall p :: NodeBlock(t, p) == if p == c.node then None else NodeBlock(log, p))
      && (forall i :: IpBlock(t, i) == if i == c.ip then None else IpBlock(log, i))
      && (HonorsBackoff(log) && Timely(log, c) ==> HonorsBackoff(t))
  {
  }

  /** What lets the loop call AssignIP: the cool-off is over and neither side is in backoff. */
  ghost predicate MayAttempt(s: Pool, ip: string, node: string) {
    && s.clock > 0 && ip in s.status && node != ""
    && (s.coolOff == 0 || s.nextAssignment < s.clock)
    && (s.status[ip].state != Error || s.status[ip].nextRetry <= s.clock)
    && (node in s.nodeRetry ==> s.nodeRetry[node].nextRetry <= s.clock)
  }

  lemma SuccessTimed(s: Pool, ip: string, node: string, t: AssignTick)
    requires Timed(s) && MayAttempt(s, ip, node) && Succeeds(t.result)
    ensures Timed(Attempt(s, ip, node, t))
  {
    var u := Attempt(s, ip, node, t);
    var c := u.log[|s.log|];
    assert u.log == s.log + [c];
    AssignedCall(s.log, c);
    assert NodesBlocked(u.log, u.nodeRetry);
    assert IPsBlocked(u.log, u.status, u.clock);
    SpacedGrows(Assignments(s.log), c);
  }

  lemma SpacedGrows(a: seq<Call>, c: Call)
    requires Spaced(a) && c.Assigned? && c.at <= c.done
    requires a != [] && c.coolOff != 0 ==> a[|a| - 1].done + c.coolOff < c.at
    ensures Spaced(a + [c])
  {
  }

  lemma RefusalTimed(s: Pool, ip: string, node: string, t: AssignTick)
    requires Timed(s) && MayAttempt(s, ip, node) && !Succeeds(t.result)
    ensures Timed(Attempt(s, ip, node, t))
  {
  }

  lemma TickTimed(s: Pool, delay: nat)
    requires Timed(s)
    ensures Timed(Tick(s, delay))
  {
  }

  lemma WakeTimed(s: Pool, at: Time)
    requires Timed(s)
    ensures Timed(WakeBy(s, at))
  {
  }

  lemma AssignLoopTimed(l: Loop, k: nat, ticks: nat -> AssignTick)
    requires LoopAgreement(l) && Timed(l.s)
    ensures Timed(AssignLoop(l, k, ticks).s)
  {
    var inv := (u: Loop) => LoopAgreement(u) && Timed(u.s);
    forall u: Loop, delay: nat | inv(u)
      ensures inv(u.(s := Tick(u.s, delay)))
    {
      LoopTicks(u, delay);
      TickTimed(u.s, delay);
    }
    forall u: Loop | inv(u)
      ensures inv(u.(s := WakeBy(u.s, u.s.nextAssignment)))
    {
      LoopTicks(u, 0);
      WakeTimed(u.s, u.s.nextAssignment);
    }
    forall u: Loop, t: AssignTick | inv(u) && TakesTurn(u)
      ensures inv(TryHeads(u, t))
    {
      TryHeadsKeeps(u, t);
      TryHeadsTimed(u, t);
    }
    AssignLoopKeepsAny(inv, l, k, ticks);
  }

  lemma TryHeadsTimed(l: Loop, t: AssignTick)
    requires LoopAgreement(l) && Timed(l.s) && l.s.ipQueue != [] && l.s.nodeQueue != [] && !CoolingOff(l.s)
    ensures Timed(TryHeads(l, t).s)
  {
    var s := l.s;
    if HeadIPWaits(s) || HeadNodeWaits(s) {
      CalmKeeps(s, TryHeads(l, t).s);
    } else {
      var s2 := s.(ipQueue := s.ipQueue[1..], nodeQueue := s.nodeQueue[1..]);
      CalmKeeps(s, s2);
      assert s.nodeQueue[0] in s.active;
      if Succeeds(t.result) {
        SuccessTimed(s2, s.ipQueue[0], s.nodeQueue[0], t);
      } else {
        RefusalTimed(s2, s.ipQueue[0], s.nodeQueue[0], t);
      }
    }
  }

  lemma AssignmentTimed(s: Pool, ticks: nat -> AssignTick)
    requires Agreement(s) && Timed(s)
    ensures Timed(ReconcileAssignment(s, ticks))
  {
    AssignLoopTimed(Loop(s, [], []), 0, ticks);
    CalmKeeps(AssignLoop(Loop(s, [], []), 0, ticks).s, ReconcileAssignment(s, ticks));
  }

  // ----- runs -----

  lemma ReconcileTimed(s: Pool, env: ReconcileEnv)
    requires Agreement(s) && Timed(s) && Allowed(s, ReconcileStep(env))
    ensures Timed(Reconcile(s, env))
  {
    ReconcileToDNSKeeps(s, env);
    var s0 := ReconcileStart(s, env);
    assert Agreement(s0);
    CalmKeeps(s, s0);
    DesiredIPsKeeps(s0, env.create);
    DesiredIPsCalm(s0, env.create);
    var s1 := ReconcileDesiredIPs(s0, env.create);
    CalmKeeps(s0, s1);
    PendingIPsKeeps(s1, env.pendingCancelled, env.persisted);
    PendingIPsCalm(s1, env.pendingCancelled, env.persisted);
    var s2 := ReconcilePendingIPs(s1, env.pendingCancelled, env.persisted);
    CalmKeeps(s1, s2);
    CheckIPsKeeps(s2, s2.ips, 0, env.status);
    CheckIPsCalm(s2, s2.ips, 0, env.status);
    var s3 := ReconcileIPStatus(s2, env.status);
    CalmKeeps(s2, s3);
    AssignmentTimed(s3, env.assign);
    DNSCalm(ReconcileToDNS(s, env), env.published);
    CalmKeeps(ReconcileToDNS(s, env), Reconcile(s, env));
  }

  lemma DNSCalm(s: Pool, published: bool)
    ensures Calm(s, ReconcileDNS(s, published))
  {
  }

  lemma ApplyTimed(s: Pool, step: Step)
    requires Agreement(s) && Timed(s) && Allowed(s, step)
    ensures Timed(Apply(s, step))
  {
    match step
    case ProvidersStep(provider, region, coolOff) => ProvidersTimed(s, provider, region, coolOff);
    case SpecStep(ips, desiredIPs, order) => UpdateIPsTimed(s, ips, desiredIPs, order);
    case DnsStep(dns) => CalmKeeps(s, UpdateDNSSpec(s, dns));
    case DisableStep(visits) =>
      DisableNodesCalm(s, visits);
      CalmKeeps(s, DisableNodes(s, visits));
    case EnableStep(visits) =>
      EnableNodesCalm(s, visits);
      CalmKeeps(s, EnableNodes(s, visits));
    case ReconcileStep(env) => ReconcileTimed(s, env);
  }

  lemma {:induction false} RunTimed(s: Pool, steps: seq<Step>)
    requires AgreementOrCrash(s) && Timed(s) && AllowedRun(s, steps)
    ensures Timed(Run(s, steps))
    decreases |steps|
  {
    if steps != [] {
      if s.crashed {
        RunTimed(s, steps[1..]);
      } else {
        assert s == s.(crashed := false);
        ApplyKeeps(s, steps[0]);
        ApplyTimed(s, steps[0]);
        RunTimed(Apply(s, steps[0]), steps[1..]);
      }
    }
  }

  // ----- what it means -----

  lemma TimedFromStart(clock: Time, steps: seq<Step>)
    requires clock > 0 && AllowedRun(NewPool(clock), steps)
    ensures Timed(Run(NewPool(clock), steps))
  {
    assert Agreement(NewPool(clock)) && NewPool(clock).(crashed := false) == NewPool(clock);
    RunTimed(NewPool(clock), steps);
  }

  /** Cool-off over whole runs: the next assignment is always due one current cool-off after the last
      success, and each success came strictly later than the cool-off then in force allowed. */
  lemma CoolOffOverRuns(clock: Time, steps: seq<Step>)
    requires clock > 0 && AllowedRun(NewPool(clock), steps)
    ensures var s := Run(NewPool(clock), steps);
      var a := Assignments(s.log);
      && s.nextAssignment == (if a == [] then 0 else a[|a| - 1].done + s.coolOff)
      && forall i :: 0 < i < |a| && a[i].coolOff != 0 ==> a[i - 1].done + a[i].coolOff < a[i].at <= a[i].done
  {
    TimedFromStart(clock, steps);
  }

  lemma {:induction false} SpacedWindow(a: seq<Call>, i: nat, j: nat, coolOff: nat)
    requires Spaced(a) && i < j < |a| && coolOff > 0
    requires forall k :: i < k <= j ==> a[k].coolOff == coolOff
    ensures (j - i) * coolOff < a[j].at - a[i].done
  {
    if j > i + 1 {
      SpacedWindow(a, i, j - 1, coolOff);
    }
  }

  /** Over any run, under a constant cool-off, n further successes take more than n cool-offs: this bounds
      the successes in any window of time. */
  lemma SuccessesInWindow(clock: Time, steps: seq<Step>, i: nat, j: nat, coolOff: nat)
    requires clock > 0 && AllowedRun(NewPool(clock), steps) && coolOff > 0
    requires var a := Assignments(Run(NewPool(clock), steps).log);
      i < j < |a| && forall k :: i < k <= j ==> a[k].coolOff == coolOff
    ensures var a := Assignments(Run(NewPool(clock), steps).log);
      (j - i) * coolOff < a[j].at - a[i].done
  {
    TimedFromStart(clock, steps);
    SpacedWindow(Assignments(Run(NewPool(clock), steps).log), i, j, coolOff);
  }

  lemma {:induction false} HonoredAt(log: seq<Call>, j: nat)
    requires HonorsBackoff(log) && j < |log|
    ensures Timely(log[..j], log[j])
    decreases |log|
  {
    var init := log[..|log| - 1];
    if j < |log| - 1 {
      HonoredAt(init, j);
      assert init[..j] == log[..j];
    }
  }

  /** Between calls i and j nothing cleared node p's backoff. */
  ghost predicate NodeUncleared(log: seq<Call>, i: nat, j: nat, p: string) {
    forall k :: i < k < j && k < |log| ==>
      !log[k].Reset? && !(log[k].Forgot? && log[k].node == p) &&
      !((log[k].Assigned? || log[k].Refused?) && log[k].node == p)
  }

  ghost predicate IpUncleared(log: seq<Call>, i: nat, j: nat, ip: string) {
    forall k :: i < k < j && k < |log| ==>
      !log[k].Reset? && !(log[k].Forgot? && log[k].ip == ip) &&
      !((log[k].Assigned? || log[k].Refused?) && log[k].ip == ip)
  }

  lemma {:induction false} BlockLasts(log: seq<Call>, i: nat, j: nat)
    requires i < j <= |log| && log[i].Refused?
    ensures NodeUncleared(log, i, j, log[i].node) ==>
      NodeBlock(log[..j], log[i].node).Some? && NodeBlock(log[..j], log[i].node).value.nextRetry == log[i].nodeUntil
    ensures IpUncleared(log, i, j, log[i].ip) ==> IpBlock(log[..j], log[i].ip) == Some(log[i].ipUntil)
    decreases j
  {
    assert log[..j][..j - 1] == log[..j - 1] && log[..j][j - 1] == log[j - 1];
    if j > i + 1 {
      BlockLasts(log, i, j - 1);
    }
  }

  /** Backoff over whole runs: after a refused call, the next call for the same node, or for the same
      IP, comes no earlier than the deadline recorded then, unless a spec change or a reset cleared it
      in between. */
  lemma BackoffOverRuns(clock: Time, steps: seq<Step>, i: nat, j: nat)
    requires clock > 0 && AllowedRun(NewPool(clock), steps)
    requires var log := Run(NewPool(clock), steps).log;
      i < j < |log| && log[i].Refused? && (log[j].Assigned? || log[j].Refused?)
    ensures var log := Run(NewPool(clock), steps).log;
      && (log[j].node == log[i].node && NodeUncleared(log, i, j, log[i].node) ==> log[i].nodeUntil <= log[j].at)
      && (log[j].ip == log[i].ip && IpUncleared(log, i, j, log[i].ip) ==> log[i].ipUntil <= log[j].at)
  {
    TimedFromStart(clock, steps);
    var log := Run(NewPool(clock), steps).log;
    HonoredAt(log, j);
    BlockLasts(log, i, j);
  }

  lemma BackoffGrows(log: seq<Call>, i: nat, j: nat)
    requires HonorsBackoff(log) && i < j < |log| && log[i].Refused? && log[j].Refused?
    requires log[i].node == log[j].node && NodeUncleared(log, i, j, log[i].node)
    requires NodeBlock(log[..j], log[i].node).Some? ==>
      NonDecreasing(NodeBlock(log[..j], log[i].node).value.schedule)
    ensures NodeBlock(log[..j], log[i].node).Some?
    ensures var schedule := NodeBlock(log[..j], log[i].node).value.schedule;
      log[i].nodeUntil - log[i].failedAt <= log[j].nodeUntil - log[j].failedAt <= schedule[|schedule| - 1]
  {
    HonoredAt(log, i);
    HonoredAt(log, j);
    BlockLasts(log, i, j);
    BlockAdvances(log, i, j);
    var r := NodeBlock(log[..j], log[i].node).value;
    DelaysGrowToCap(r.schedule, r.attempts - 1, r.attempts);
  }

  /** Over any run, a node refused again on a sorted schedule, with nothing cleared in between, waits at least
      as long as before, and at most the schedule's last entry. */
  lemma NodeBackoffGrows(clock: Time, steps: seq<Step>, i: nat, j: nat)
    requires clock > 0 && AllowedRun(NewPool(clock), steps)
    requires var log := Run(NewPool(clock), steps).log;
      && i < j < |log| && log[i].Refused? && log[j].Refused?
      && log[i].node == log[j].node && NodeUncleared(log, i, j, log[i].node)
      && (NodeBlock(log[..j], log[i].node).Some? ==> NonDecreasing(NodeBlock(log[..j], log[i].node).value.schedule))
    ensures var log := Run(NewPool(clock), steps).log;
      && NodeBlock(log[..j], log[i].node).Some?
      && var schedule := NodeBlock(log[..j], log[i].node).value.schedule;
      log[i].nodeUntil - log[i].failedAt <= log[j].nodeUntil - log[j].failedAt <= schedule[|schedule| - 1]
  {
    TimedFromStart(clock, steps);
    BackoffGrows(Run(NewPool(clock), steps).log, i, j);
  }

  lemma {:induction false} BlockAdvances(log: seq<Call>, i: nat, j: nat)
    requires i < j <= |log| && log[i].Refused? && NodeUncleared(log, i, j, log[i].node)
    ensures NodeBlock(log[..j], log[i].node) ==
      Some(match NodeBlock(log[..i], log[i].node)
           case None => Retry(1, log[i].nodeUntil, ErrorToRetrySchedule(log[i].error))
           case Some(r) => Retry(r.attempts + 1, log[i].nodeUntil, r.schedule))
    decreases j
  {
    assert log[..j][..j - 1] == log[..j - 1] && log[..j][j - 1] == log[j - 1];
    if j > i + 1 {
      BlockAdvances(log, i, j - 1);
    }
  }
}
