/** Deadlines over whole runs: every one is the delay that the retry schedule in force gives for the failures
    in a row so far, nobody is asked before his deadline, and no IP counts as active but on the provider's
    last word. All of it is read off the log. */
module PoolSchedules {
  import opened Options
  import opened RetrySchedules
  import opened OrderedQueues
  import opened PoolState
  import opened PoolAgreement
  import opened PoolTiming

  // ----- reading the log -----

  /** What the log says about one IP since it is known: the lookups that failed in a row, the deadline set last,
      and the last thing that was done. */
  datatype Notes = Notes(failures: nat, deadline: Time, last: Option<Call>)

  const NO_NOTES := Notes(0, 0, None)

  function Noted(n: Notes, c: Call, ip: string): Notes {
    match c
    case Looked(i, answer, _, _, until) =>
      if i != ip then n else Notes(if answer.Failed? then n.failures + 1 else 0, until, Some(c))
    case Assigned(i, _, _, _, _, _, until) => if i != ip then n else Notes(0, until, Some(c))
    case Refused(i, _, _, _, _, _, _, until) => if i != ip then n else Notes(n.failures, until, Some(c))
    case Parked(i, _, until) => if i != ip then n else Notes(0, until, Some(c))
    case Resumed(i, _, until) => if i != ip then n else Notes(0, until, Some(c))
    case Evicted(i) => if i != ip then n else Notes(0, 0, Some(c))
    case Forgot(i, _) => if i != ip then n else NO_NOTES
    case Reset => NO_NOTES
    case _ => n
  }

  function NotesOn(log: seq<Call>, ip: string): Notes {
    if log == [] then NO_NOTES else Noted(NotesOn(log[..|log| - 1], ip), log[|log| - 1], ip)
  }

  /** The creations that failed in a row, and the deadline set by the last failure ever. */
  function Creations(log: seq<Call>): (r: (nat, Time)) {
    if log == [] then (0, 0)
    else
      var before := Creations(log[..|log| - 1]);
      match log[|log| - 1]
      case Created(_) => (0, before.1)
      case CreateFailed(_, _, until) => (before.0 + 1, until)
      case _ => before
  }

  /** The deadline that a call sets is the right delay after the clock was read; and a lookup is not early. */
  predicate Scheduled(log: seq<Call>, c: Call) {
    match c
    case Looked(ip, answer, at, stampedAt, until) =>
      && NotesOn(log, ip).deadline <= at <= stampedAt
      && until == stampedAt + (if answer.Failed? then After(ErrorToRetrySchedule(answer.error), NotesOn(log, ip).failures)
                               else 5 * MINUTE)
    case Assigned(_, _, at, done, _, stampedAt, until) => at <= done <= stampedAt && until == stampedAt + SECOND
    case Refused(ip, _, at, failedAt, error, _, stampedAt, until) =>
      at <= failedAt <= stampedAt && until == stampedAt + After(ErrorToRetrySchedule(error), NotesOn(log, ip).failures)
    case Parked(_, at, until) => until == at + MINUTE
    case Resumed(_, at, until) => until == at + SECOND
    case CreateFailed(error, failedAt, until) => until == failedAt + After(ErrorToRetrySchedule(error), Creations(log).0)
    case _ => true
  }

  ghost predicate OnSchedule(log: seq<Call>) {
    log == [] || (OnSchedule(log[..|log| - 1]) && Scheduled(log[..|log| - 1], log[|log| - 1]))
  }

  lemma OneMoreNote(log: seq<Call>, c: Call)
    ensures forall ip :: NotesOn(log + [c], ip) == Noted(NotesOn(log, ip), c, ip)
    ensures Creations(log + [c]) == (match c
                                     case Created(_) => (0, Creations(log).1)
                                     case CreateFailed(_, _, until) => (Creations(log).0 + 1, until)
                                     case _ => Creations(log))
    ensures OnSchedule(log + [c]) <==> OnSchedule(log) && Scheduled(log, c)
  {
    assert (log + [c])[..|log|] == log;
  }

  lemma {:induction false} ScheduledAt(log: seq<Call>, i: nat)
    requires OnSchedule(log) && i < |log|
    ensures Scheduled(log[..i], log[i])
    decreases |log|
  {
    var init := log[..|log| - 1];
    if i < |log| - 1 {
      ScheduledAt(init, i);
      assert init[..i] == log[..i];
    }
  }

  // ----- the invariant -----

  /** The state, message and owner on record tell the last thing that happened to the IP. */
  predicate Explained(st: IpStatus, last: Option<Call>) {
    match last
    case None => (st.state == Unset || st.state == Unassigned) && st.message == NoMessage && st.node == ""
    case Some(Looked(_, Owner(node), _, _, _)) =>
      && st.node == node && st.message == NoMessage && (st.state == Unassigned <==> node == "")
      && (st.state == Active || st.state == NoMatch || st.state == Unassigned)
    case Some(Looked(_, Failed(err), _, _, _)) =>
      && (if err == StillInProgress then st.state == InProgress && st.message == NoMessage
          else st.state == Error && st.message == LookupFailed(err))
      && (err == NotFound ==> st.node == "")
    case Some(Assigned(_, node, _, _, _, _, _)) => st.state == InProgress && st.message == NoMessage && st.node == node
    case Some(Refused(_, _, _, _, err, _, _, _)) => st.state == Error && st.message == AssignFailed(err) && st.node == ""
    case Some(Parked(_, _, _)) => st.state == NoMatch && st.message == NoMessage
    case Some(Resumed(_, _, _)) => st.state == InProgress && st.message == NoMessage
    case Some(Evicted(_)) => st.state == Error && st.message == CacheMismatch && st.node == ""
    case _ => false
  }

  ghost predicate Fits(st: IpStatus, n: Notes) {
    st.attempts == n.failures && st.nextRetry == n.deadline && Explained(st, n.last)
  }

  /** The statuses say what the log says, and there is nothing to say of other IPs. */
  ghost predicate StatusesNoted(status: map<string, IpStatus>, log: seq<Call>) {
    forall ip :: if ip in status then Fits(status[ip], NotesOn(log, ip)) else NotesOn(log, ip) == NO_NOTES
  }

  ghost predicate CreationsNoted(s: Pool) {
    s.createAttempts == Creations(s.log).0 && s.createNextRetry == Creations(s.log).1
  }

  ghost predicate Recorded(s: Pool) {
    OnSchedule(s.log) && StatusesNoted(s.status, s.log) && CreationsNoted(s)
  }

  /** A step that records nothing. */
  lemma NothingRecorded(s: Pool, t: Pool)
    requires Recorded(s) && t.log == s.log && t.status == s.status
    requires t.createAttempts == s.createAttempts && t.createNextRetry == s.createNextRetry
    ensures Recorded(t)
  {
  }

  /** One more thing done, to one IP, which then has another status. */
  lemma OneRecorded(s: Pool, t: Pool, c: Call, ip: string)
    requires Recorded(s) && Scheduled(s.log, c) && t.log == s.log + [c] && !c.Created? && !c.CreateFailed? && !c.Reset?
    requires t.createAttempts == s.createAttempts && t.createNextRetry == s.createNextRetry
    requires ip in t.status && t.status == s.status[ip := t.status[ip]] && Fits(t.status[ip], Noted(NotesOn(s.log, ip), c, ip))
    requires forall x :: x != ip ==> Noted(NotesOn(s.log, x), c, x) == NotesOn(s.log, x)
    ensures Recorded(t)
  {
    OneMoreNote(s.log, c);
  }

  // ----- lookups -----

  lemma SeeRecorded(s: Pool, ip: string, delay: nat)
    requires Recorded(s)
    ensures Recorded(See(s, ip, delay))
  {
  }

  lemma ErrorRecorded(s: Pool, ip: string, err: ProviderError, stamp: nat)
    requires Recorded(s) && ip in s.status && s.status[ip].nextRetry <= s.clock
    ensures Recorded(StatusError(s, ip, s.status[ip], err, stamp))
  {
    var t := StatusError(s, ip, s.status[ip], err, stamp);
    OneRecorded(s, t, t.log[|s.log|], ip);
  }

  /** The other IP is put back; what is left is to record the answer. */
  lemma AdoptRecorded(s: Pool, ip: string, known: bool, expected: string, owner: string)
    requires Recorded(s) && ip in s.status && ClaimsAgree(s.claims, s.status)
    ensures var t := Adopt(s, ip, known, expected, owner);
      && Recorded(t) && t.clock == s.clock && ip in t.status && t.status[ip] == s.status[ip]
      && NotesOn(t.log, ip) == NotesOn(s.log, ip)
  {
    var t, other := Adopt(s, ip, known, expected, owner), ClaimOf(s, owner);
    if other != "" && other != ip {
      OneRecorded(s, t, Evicted(other), other);
      OneMoreNote(s.log, Evicted(other));
    }
  }

  lemma FoundIs(s: Pool, ip: string, known: bool, st: IpStatus, owner: string, stamp: nat)
    ensures var s1, t := s.(ipQueue := AddIf(owner == "", s.ipQueue, ip, true)), StatusOk(s, ip, known, st, owner, stamp);
      var s2 := if st.node != owner then Adopt(s1, ip, known, st.node, owner) else s1;
      var st' := HealthyStatus(s.active, owner, s.clock + stamp);
      && t.log == s2.log + [Looked(ip, Owner(owner), s.clock, s.clock + stamp, st'.nextRetry)]
      && t.status == s2.status[ip := st']
      && t.createAttempts == s2.createAttempts && t.createNextRetry == s2.createNextRetry
  {
  }

  lemma FoundRecorded(s: Pool, ip: string, known: bool, owner: string, stamp: nat)
    requires Recorded(s) && ip in s.status && s.status[ip].nextRetry <= s.clock && ClaimsAgree(s.claims, s.status)
    ensures Recorded(StatusOk(s, ip, known, s.status[ip], owner, stamp))
  {
    var expected := s.status[ip].node;
    var s1 := s.(ipQueue := AddIf(owner == "", s.ipQueue, ip, true));
    NothingRecorded(s, s1);
    FoundIs(s, ip, known, s.status[ip], owner, stamp);
    var s2 := s1;
    if expected != owner {
      AdoptRecorded(s1, ip, known, expected, owner);
      s2 := Adopt(s1, ip, known, expected, owner);
    }
    var st' := HealthyStatus(s.active, owner, s.clock + stamp);
    OneRecorded(s2, StatusOk(s, ip, known, s.status[ip], owner, stamp),
                Looked(ip, Owner(owner), s.clock, s.clock + stamp, st'.nextRetry), ip);
  }

  lemma CheckIPRecorded(s: Pool, ip: string, t: StatusTick)
    requires Agreement(s) && Recorded(s) && ip in s.ips
    ensures Recorded(CheckIP(s, ip, t))
  {
    var s1 := See(s, ip, t.delay);
    FirstSeenKeeps(s, ip, t.delay);
    SeeRecorded(s, ip, t.delay);
    CheckIPIs(s, ip, t);
    if s1.status[ip].nextRetry > s1.clock {
      NothingRecorded(s1, WakeBy(s1, s1.status[ip].nextRetry));
    } else if t.answer.Failed? {
      ErrorRecorded(s1, ip, t.answer.error, t.stamp);
    } else {
      FoundRecorded(s1, ip, ip in s.status, t.answer.node, t.stamp);
    }
  }

  lemma {:induction false} CheckIPsRecorded(s: Pool, ips: seq<string>, k: nat, ticks: nat -> StatusTick)
    requires Agreement(s) && Recorded(s) && forall ip :: ip in ips ==> ip in s.ips
    ensures Recorded(CheckIPs(s, ips, k, ticks))
    decreases |ips|
  {
    if ips != [] && !ticks(k).cancelled {
      CheckIPKeeps(s, ips[0], ticks(k));
      CheckIPRecorded(s, ips[0], ticks(k));
      CheckIPsRecorded(CheckIP(s, ips[0], ticks(k)), ips[1..], k + 1, ticks);
    }
  }

  // ----- assignments -----

  lemma AttemptRecorded(s: Pool, ip: string, node: string, t: AssignTick)
    requires Recorded(s) && ip in s.status
    ensures Recorded(Attempt(s, ip, node, t))
  {
    var u := Attempt(s, ip, node, t);
    OneRecorded(s, u, u.log[|s.log|], ip);
  }

  lemma TryHeadsRecorded(l: Loop, t: AssignTick)
    requires Recorded(l.s) && l.s.ipQueue != [] && l.s.nodeQueue != [] && l.s.ipQueue[0] in l.s.status
    ensures Recorded(TryHeads(l, t).s)
  {
    var s2 := l.s.(ipQueue := l.s.ipQueue[1..], nodeQueue := l.s.nodeQueue[1..]);
    NothingRecorded(l.s, s2);
    if HeadIPWaits(l.s) || HeadNodeWaits(l.s) {
      NothingRecorded(l.s, TryHeads(l, t).s);
    } else {
      AttemptRecorded(s2, l.s.ipQueue[0], l.s.nodeQueue[0], t);
    }
  }

  lemma AssignmentRecorded(s: Pool, ticks: nat -> AssignTick)
    requires Agreement(s) && Recorded(s)
    ensures Recorded(ReconcileAssignment(s, ticks))
  {
    var inv := (u: Loop) => LoopAgreement(u) && Recorded(u.s);
    forall u: Loop, delay: nat | inv(u)
      ensures inv(u.(s := Tick(u.s, delay)))
    {
      LoopTicks(u, delay);
      NothingRecorded(u.s, Tick(u.s, delay));
    }
    forall u: Loop | inv(u)
      ensures inv(u.(s := WakeBy(u.s, u.s.nextAssignment)))
    {
      LoopTicks(u, 0);
      NothingRecorded(u.s, WakeBy(u.s, u.s.nextAssignment));
    }
    forall u: Loop, t: AssignTick | inv(u) && TakesTurn(u)
      ensures inv(TryHeads(u, t))
    {
      TryHeadsKeeps(u, t);
      TryHeadsRecorded(u, t);
    }
    AssignLoopKeepsAny(inv, Loop(s, [], []), 0, ticks);
    NothingRecorded(AssignLoop(Loop(s, [], []), 0, ticks).s, ReconcileAssignment(s, ticks));
  }

  // ----- creations -----

  /** Something done that is not about any one IP. */
  predicate AboutNoIP(c: Call) {
    c.Created? || c.CreateFailed? || c.Persisted? || c.Published?
  }

  lemma CallRecorded(s: Pool, t: Pool, c: Call)
    requires Recorded(s) && t.status == s.status && t.log == s.log + [c] && Scheduled(s.log, c) && AboutNoIP(c)
    requires (t.createAttempts, t.createNextRetry) ==
      (match c
       case Created(_) => (0, s.createNextRetry)
       case CreateFailed(_, _, until) => (s.createAttempts + 1, until)
       case _ => (s.createAttempts, s.createNextRetry))
    ensures Recorded(t)
  {
    OneMoreNote(s.log, c);
  }

  lemma FailureRecorded(s: Pool, k: nat, results: nat -> CreateResult)
    requires Recorded(s) && |s.ips| + |s.pendingIPs| < s.desiredIPs && results(k).NoIP?
    ensures Recorded(CreateIPs(s, k, results))
  {
    var failedAt := s.clock + results(k).delay;
    var until := failedAt + After(ErrorToRetrySchedule(results(k).error), s.createAttempts);
    CallRecorded(s, CreateIPs(s, k, results), CreateFailed(results(k).error, failedAt, until));
  }

  lemma {:induction false} CreateIPsRecorded(s: Pool, k: nat, results: nat -> CreateResult)
    requires Recorded(s)
    ensures Recorded(CreateIPs(s, k, results))
    decreases s.desiredIPs - |s.ips| - |s.pendingIPs|
  {
    if |s.ips| + |s.pendingIPs| < s.desiredIPs {
      if results(k).NoIP? {
        FailureRecorded(s, k, results);
      } else {
        var ip := results(k).ip;
        var s1 := s.(dnsDirty := true, pendingIPs := s.pendingIPs + [ip], createAttempts := 0, log := s.log + [Created(ip)]);
        CallRecorded(s, s1, Created(ip));
        CreateIPsRecorded(s1, k + 1, results);
        assert CreateIPs(s, k, results) == CreateIPs(s1, k + 1, results);
      }
    }
  }

  lemma {:induction false} AdoptPendingRecorded(s: Pool, pending: seq<string>)
    requires Recorded(s) && NoDup(pending) && forall ip :: ip in pending ==> ip !in s.status
    ensures Recorded(AdoptPending(s, pending))
    decreases |pending|
  {
    if pending != [] {
      HeadGone(pending);
      assert Recorded(AdoptOne(s, pending[0]));
      AdoptPendingRecorded(AdoptOne(s, pending[0]), pending[1..]);
    }
  }

  lemma PendingIPsRecorded(s: Pool, cancelled: bool, persisted: bool)
    requires Agreement(s) && Recorded(s)
    ensures Recorded(ReconcilePendingIPs(s, cancelled, persisted))
  {
    if !cancelled && s.pendingIPs != [] && persisted {
      var s1 := s.(dnsDirty := true, log := s.log + [Persisted(s.pendingIPs)]);
      CallRecorded(s, s1, Persisted(s.pendingIPs));
      AdoptPendingRecorded(s1, s.pendingIPs);
      NothingRecorded(AdoptPending(s1, s.pendingIPs), ReconcilePendingIPs(s, cancelled, persisted));
    }
  }

  lemma DesiredIPsRecorded(s: Pool, env: CreateEnv)
    requires Recorded(s)
    ensures Recorded(ReconcileDesiredIPs(s, env))
  {
    var s1 := Tick(s, env.delay);
    NothingRecorded(s, s1);
    if s1.createNextRetry > s1.clock {
      NothingRecorded(s1, WakeBy(s1, s1.createNextRetry));
    } else {
      CreateIPsRecorded(s1, 0, env.results);
    }
  }

  // ----- nodes and configuration -----

  lemma DisableChanges(s: Pool, v: Visit)
    ensures var t, p := DisableNode(s, v), v.node.providerID;
      var ip, until := ClaimOf(s, p), s.clock + v.delay + After(RETRY_SLOW, 0);
      && t.createAttempts == s.createAttempts && t.createNextRetry == s.createNextRetry
      && ((t.log == s.log && t.status == s.status) ||
          (ip in s.status && t.log == s.log + [Parked(ip, s.clock + v.delay, until)]
           && t.status == s.status[ip := Released(s.status[ip], s.clock + v.delay)]))
  {
  }

  lemma EnableChanges(s: Pool, v: Visit)
    ensures var t, p := EnableNode(s, v), v.node.providerID;
      var ip, until := ClaimOf(s, p), s.clock + v.delay + After(RETRY_FAST, 0);
      && t.createAttempts == s.createAttempts && t.createNextRetry == s.createNextRetry
      && ((t.log == s.log && t.status == s.status) ||
          (ip in s.status && t.log == s.log + [Resumed(ip, s.clock + v.delay, until)]
           && t.status == s.status[ip := Regained(s.status[ip], p, s.clock + v.delay)]))
  {
  }

  lemma DisableNodeRecorded(s: Pool, v: Visit)
    requires Recorded(s)
    ensures Recorded(DisableNode(s, v))
  {
    DisableChanges(s, v);
    var t, ip := DisableNode(s, v), ClaimOf(s, v.node.providerID);
    if t.log == s.log {
      NothingRecorded(s, t);
    } else {
      OneRecorded(s, t, Parked(ip, s.clock + v.delay, s.clock + v.delay + After(RETRY_SLOW, 0)), ip);
    }
  }

  lemma EnableNodeRecorded(s: Pool, v: Visit)
    requires Recorded(s)
    ensures Recorded(EnableNode(s, v))
  {
    EnableChanges(s, v);
    var t, ip := EnableNode(s, v), ClaimOf(s, v.node.providerID);
    if t.log == s.log {
      NothingRecorded(s, t);
    } else {
      OneRecorded(s, t, Resumed(ip, s.clock + v.delay, s.clock + v.delay + After(RETRY_FAST, 0)), ip);
    }
  }

  lemma {:induction false} NodesRecorded(s: Pool, visits: seq<Visit>)
    requires Recorded(s)
    ensures Recorded(DisableNodes(s, visits)) && Recorded(EnableNodes(s, visits))
    decreases |visits|
  {
    if visits != [] {
      DisableNodeRecorded(s, visits[0]);
      EnableNodeRecorded(s, visits[0]);
      NodesRecorded(DisableNode(s, visits[0]), visits[1..]);
      NodesRecorded(EnableNode(s, visits[0]), visits[1..]);
    }
  }

  lemma ForgetRecorded(s: Pool, ip: string)
    requires Recorded(s) && ip in s.status
    ensures Recorded(Forget(s, ip))
  {
    OneMoreNote(s.log, Forgot(ip, s.status[ip].node));
  }

  lemma {:induction false} ForgetUnwantedRecorded(s: Pool, wanted: seq<string>, order: seq<string>)
    requires Recorded(s)
    ensures Recorded(ForgetUnwanted(s, wanted, order))
    decreases |order|
  {
    if order != [] {
      if order[0] in s.status && order[0] !in wanted {
        ForgetRecorded(s, order[0]);
        ForgetUnwantedRecorded(Forget(s, order[0]), wanted, order[1..]);
      } else {
        ForgetUnwantedRecorded(s, wanted, order[1..]);
      }
    }
  }

  lemma ProvidersRecorded(s: Pool, provider: string, region: string, coolOff: nat)
    requires Recorded(s)
    ensures Recorded(UpdateProviders(s, provider, region, coolOff))
  {
    OneMoreNote(s.log, Reset);
  }

  lemma UpdateIPsRecorded(s: Pool, ips: seq<string>, desiredIPs: nat, order: seq<string>)
    requires Recorded(s)
    ensures Recorded(UpdateIPs(s, ips, desiredIPs, order))
  {
    NothingRecorded(s, s.(dnsDirty := true));
    ForgetUnwantedRecorded(s.(dnsDirty := true), Enabled(ips, desiredIPs), order);
  }

  // ----- runs -----

  lemma DNSRecorded(s: Pool, published: bool)
    requires Recorded(s)
    ensures Recorded(ReconcileDNS(s, published))
  {
    var t := ReconcileDNS(s, published);
    if t.log == s.log {
      NothingRecorded(s, t);
    } else {
      CallRecorded(s, t, t.log[|s.log|]);
    }
  }

  lemma ReconcileRecorded(s: Pool, env: ReconcileEnv)
    requires Agreement(s) && Recorded(s) && Allowed(s, ReconcileStep(env))
    ensures Recorded(Reconcile(s, env))
  {
    ReconcileToDNSKeeps(s, env);
    var s0 := ReconcileStart(s, env);
    assert Agreement(s0);
    NothingRecorded(s, s0);
    DesiredIPsKeeps(s0, env.create);
    DesiredIPsRecorded(s0, env.create);
    var s1 := ReconcileDesiredIPs(s0, env.create);
    PendingIPsKeeps(s1, env.pendingCancelled, env.persisted);
    PendingIPsRecorded(s1, env.pendingCancelled, env.persisted);
    var s2 := BeforePoll(s, env);
    CheckIPsKeeps(s2, s2.ips, 0, env.status);
    CheckIPsRecorded(s2, s2.ips, 0, env.status);
    AssignmentRecorded(ReconcileIPStatus(s2, env.status), env.assign);
    DNSRecorded(ReconcileToDNS(s, env), env.published);
  }

  lemma ApplyRecorded(s: Pool, step: Step)
    requires Agreement(s) && Recorded(s) && Allowed(s, step)
    ensures Recorded(Apply(s, step))
  {
    match step
    case ProvidersStep(provider, region, coolOff) => ProvidersRecorded(s, provider, region, coolOff);
    case SpecStep(ips, desiredIPs, order) => UpdateIPsRecorded(s, ips, desiredIPs, order);
    case DnsStep(dns) => NothingRecorded(s, UpdateDNSSpec(s, dns));
    case DisableStep(visits) => NodesRecorded(s, visits);
    case EnableStep(visits) => NodesRecorded(s, visits);
    case ReconcileStep(env) => ReconcileRecorded(s, env);
  }

  lemma {:induction false} RunRecorded(s: Pool, steps: seq<Step>)
    requires AgreementOrCrash(s) && Recorded(s) && AllowedRun(s, steps)
    ensures Recorded(Run(s, steps))
    decreases |steps|
  {
    if steps != [] {
      if s.crashed {
        RunRecorded(s, steps[1..]);
      } else {
        assert s == s.(crashed := false);
        ApplyKeeps(s, steps[0]);
        ApplyRecorded(s, steps[0]);
        RunRecorded(Apply(s, steps[0]), steps[1..]);
      }
    }
  }

  lemma RecordedFromStart(clock: Time, steps: seq<Step>)
    requires clock > 0 && AllowedRun(NewPool(clock), steps)
    ensures Recorded(Run(NewPool(clock), steps))
  {
    assert Agreement(NewPool(clock)) && NewPool(clock).(crashed := false) == NewPool(clock);
    RunRecorded(NewPool(clock), steps);
  }

  // ----- what it means -----

  /** Over any run, whatever was done at i was on schedule: no IP is looked up before its deadline, and every
      deadline is the delay for the failures in a row before it, on the schedule of its error. */
  lemma OnScheduleOverRuns(clock: Time, steps: seq<Step>, i: nat)
    requires clock > 0 && AllowedRun(NewPool(clock), steps) && i < |Run(NewPool(clock), steps).log|
    ensures var log := Run(NewPool(clock), steps).log; Scheduled(log[..i], log[i])
  {
    RecordedFromStart(clock, steps);
    ScheduledAt(Run(NewPool(clock), steps).log, i);
  }

  /** Over any run, the records of an IP are those deadlines and failure counts, and what is reported of it tells
      the last thing that happened to it: active, for one, only on the provider's last word, naming its node. */
  lemma StatusOverRuns(clock: Time, steps: seq<Step>, ip: string)
    requires clock > 0 && AllowedRun(NewPool(clock), steps)
    requires ip in Run(NewPool(clock), steps).status
    ensures var s := Run(NewPool(clock), steps);
      var st, n := s.status[ip], NotesOn(s.log, ip);
      && st.attempts == n.failures && st.nextRetry == n.deadline && Explained(st, n.last)
      && (st.state == Active ==> n.last.Some? && n.last.value.Looked? && n.last.value.answer == Owner(st.node))
  {
    RecordedFromStart(clock, steps);
  }

  /** Over any run, the creation records are the failures in a row and the deadline that the last one set. */
  lemma CreationOverRuns(clock: Time, steps: seq<Step>)
    requires clock > 0 && AllowedRun(NewPool(clock), steps)
    ensures var s := Run(NewPool(clock), steps);
      s.createAttempts == Creations(s.log).0 && s.createNextRetry == Creations(s.log).1
  {
    RecordedFromStart(clock, steps);
  }

  /** Over any run, an IP refused with an error whose schedule is sorted is held back by at least the schedule's
      first delay, a minute for the built-in errors: unless a spec change or a reset cleared it, AssignIP is not
      called for it before. */
  lemma RefusedIPWaits(clock: Time, steps: seq<Step>, i: nat, j: nat)
    requires clock > 0 && AllowedRun(NewPool(clock), steps)
    requires var log := Run(NewPool(clock), steps).log;
      && i < j < |log| && log[i].Refused? && (log[j].Assigned? || log[j].Refused?)
      && log[j].ip == log[i].ip && IpUncleared(log, i, j, log[i].ip) && NonDecreasing(ErrorToRetrySchedule(log[i].error))
    ensures var log := Run(NewPool(clock), steps).log;
      && log[i].ipUntil == log[i].stampedAt + After(ErrorToRetrySchedule(log[i].error), NotesOn(log[..i], log[i].ip).failures)
      && log[i].failedAt + ErrorToRetrySchedule(log[i].error)[0] <= log[i].ipUntil <= log[j].at
      && (!log[i].error.Retryable? && log[i].error != StillInProgress ==> log[i].failedAt + MINUTE <= log[j].at)
  {
    var log := Run(NewPool(clock), steps).log;
    OnScheduleOverRuns(clock, steps, i);
    BackoffOverRuns(clock, steps, i, j);
    DelaysGrowToCap(ErrorToRetrySchedule(log[i].error), 0, NotesOn(log[..i], log[i].ip).failures);
  }
}
