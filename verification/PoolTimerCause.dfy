/** Why the run loop's timer fires when it does: a pass leaves it at the end of a minute, or at a deadline that
    was set and is on the log, or at the next assignment while the cool-off lasts. */
module PoolTimerCause {
  import opened Options
  import opened RetrySchedules
  import opened OrderedQueues
  import opened PoolState
  import opened PoolAgreement
  import opened PoolCreation
  import opened PoolTiming
  import opened PoolTimer
  import opened PoolSchedules

  /** The call set this deadline. */
  predicate Sets(c: Call, until: Time) {
    match c
    case CreateFailed(_, _, t) => t == until
    case Looked(_, _, _, _, t) => t == until
    case Assigned(_, _, _, _, _, _, t) => t == until
    case Refused(_, _, _, _, _, nodeUntil, _, ipUntil) => nodeUntil == until || ipUntil == until
    case Parked(_, _, t) => t == until
    case Resumed(_, _, t) => t == until
    case _ => false
  }

  predicate OnLog(log: seq<Call>, until: Time) {
    exists i :: 0 <= i < |log| && Sets(log[i], until)
  }

  lemma OnLongerLog(log: seq<Call>, longer: seq<Call>, until: Time)
    requires log <= longer && OnLog(log, until)
    ensures OnLog(longer, until)
  {
    var i :| 0 <= i < |log| && Sets(log[i], until);
    assert longer[i] == log[i];
  }

  lemma LastOnLog(log: seq<Call>, until: Time)
    requires log != [] && (Sets(log[|log| - 1], until) || OnLog(log[..|log| - 1], until))
    ensures OnLog(log, until)
  {
    if !Sets(log[|log| - 1], until) {
      OnLongerLog(log[..|log| - 1], log, until);
    }
  }

  lemma {:induction false} NotedOnLog(log: seq<Call>, ip: string)
    ensures NotesOn(log, ip).deadline != 0 ==> OnLog(log, NotesOn(log, ip).deadline)
  {
    if log != [] && NotesOn(log, ip).deadline != 0 {
      NotedOnLog(log[..|log| - 1], ip);
      LastOnLog(log, NotesOn(log, ip).deadline);
    }
  }

  lemma {:induction false} CreationOnLog(log: seq<Call>)
    ensures Creations(log).1 != 0 ==> OnLog(log, Creations(log).1)
  {
    if log != [] && Creations(log).1 != 0 {
      CreationOnLog(log[..|log| - 1]);
      LastOnLog(log, Creations(log).1);
    }
  }

  lemma {:induction false} BlockOnLog(log: seq<Call>, p: string)
    ensures NodeBlock(log, p).Some? ==> OnLog(log, NodeBlock(log, p).value.nextRetry)
  {
    if log != [] && NodeBlock(log, p).Some? {
      BlockOnLog(log[..|log| - 1], p);
      LastOnLog(log, NodeBlock(log, p).value.nextRetry);
    }
  }

  // ----- the steps of a pass -----

  /** The timer stands at the end of the minute, or at a deadline on the log. */
  predicate Caused(s: Pool, start: Time) {
    s.wakeAt == start + MINUTE || OnLog(s.log, s.wakeAt)
  }

  /** The timer was lowered to a deadline that is on the log now, or to none. */
  lemma LoweredIsCaused(s: Pool, t: Pool, start: Time, until: Time)
    requires Caused(s, start) && s.log <= t.log && (t.wakeAt == s.wakeAt || t.wakeAt == Sooner(s.wakeAt, until))
    requires t.wakeAt != s.wakeAt ==> OnLog(t.log, until)
    ensures Caused(t, start)
  {
    if t.wakeAt == s.wakeAt && s.wakeAt != start + MINUTE {
      OnLongerLog(s.log, t.log, s.wakeAt);
    }
  }

  lemma {:induction false} CreationCaused(s: Pool, k: nat, results: nat -> CreateResult, start: Time)
    requires Caused(s, start)
    ensures Caused(CreateIPs(s, k, results), start)
    decreases s.desiredIPs - |s.ips| - |s.pendingIPs|
  {
    if |s.ips| + |s.pendingIPs| < s.desiredIPs {
      match results(k)
      case NewIP(ip) =>
        var s1 := s.(dnsDirty := true, pendingIPs := s.pendingIPs + [ip], createAttempts := 0, log := s.log + [Created(ip)]);
        LoweredIsCaused(s, s1, start, 0);
        CreationCaused(s1, k + 1, results, start);
      case NoIP(err, delay) =>
        var t := CreateIPs(s, k, results);
        LastOnLog(t.log, t.createNextRetry);
        LoweredIsCaused(s, t, start, t.createNextRetry);
    }
  }

  lemma BeforePollCaused(s: Pool, env: ReconcileEnv)
    requires s.clock > 0 && CreationsNoted(s)
    ensures Caused(BeforePoll(s, env), s.clock + env.start)
  {
    var start, s0 := s.clock + env.start, ReconcileStart(s, env);
    var r, s1 := Tick(s0, env.create.delay), ReconcileDesiredIPs(s0, env.create);
    assert Caused(s0, start) && Caused(r, start);
    CreationCaused(r, 0, env.create.results, start);
    CreationOnLog(r.log);
    if r.createNextRetry > r.clock {
      LoweredIsCaused(r, WakeBy(r, r.createNextRetry), start, r.createNextRetry);
    }
    assert Caused(s1, start);
    var s' := s1.(dnsDirty := true, log := s1.log + [Persisted(s1.pendingIPs)]);
    LoweredIsCaused(s1, s', start, 0);
    AdoptPendingTimer(s', s1.pendingIPs);
    AdoptPendingLog(s', s1.pendingIPs);
  }

  lemma LookCaused(s: Pool, ip: string, t: StatusTick, start: Time)
    requires Agreement(s) && Recorded(s) && ip in s.ips && Caused(s, start)
    ensures Caused(CheckIP(s, ip, t), start)
  {
    CheckIPIs(s, ip, t);
    CheckIPCreates(s, ip, t);
    var s1, u := See(s, ip, t.delay), CheckIP(s, ip, t);
    var st := s1.status[ip];
    if st.nextRetry > s1.clock {
      NotedOnLog(s.log, ip);
      LoweredIsCaused(s, u, start, st.nextRetry);
    } else if t.answer.Failed? {
      var until := ErrorStatus(st, t.answer.error, s1.clock + t.stamp).nextRetry;
      assert u.log[|u.log| - 1].Looked? && u.log[|u.log| - 1].until == until;
      LastOnLog(u.log, until);
      LoweredIsCaused(s, u, start, until);
    } else {
      StatusOkTimer(s1, ip, ip in s.status, st, t.answer.node, t.stamp);
      LoweredIsCaused(s, u, start, 0);
    }
  }

  lemma {:induction false} PollCaused(s: Pool, ips: seq<string>, k: nat, ticks: nat -> StatusTick, start: Time)
    requires Agreement(s) && Recorded(s) && Caused(s, start) && forall ip :: ip in ips ==> ip in s.ips
    ensures Caused(CheckIPs(s, ips, k, ticks), start)
    decreases |ips|
  {
    if ips != [] && !ticks(k).cancelled {
      CheckIPKeeps(s, ips[0], ticks(k));
      CheckIPRecorded(s, ips[0], ticks(k));
      LookCaused(s, ips[0], ticks(k), start);
      PollCaused(CheckIP(s, ips[0], ticks(k)), ips[1..], k + 1, ticks, start);
    }
  }

  lemma AttemptWakes(s: Pool, ip: string, node: string, t: AssignTick) returns (c: Call)
    requires ip in s.status
    ensures var u := Attempt(s, ip, node, t);
      && u.log == s.log + [c]
      && (if Succeeds(t.result) then c.Assigned? && u.wakeAt == Sooner(s.wakeAt, c.until)
          else c.Refused? && u.wakeAt == Sooner(Sooner(s.wakeAt, c.nodeUntil), c.ipUntil))
  {
    c := Attempt(s, ip, node, t).log[|s.log|];
  }

  lemma AttemptCaused(s: Pool, ip: string, node: string, t: AssignTick, start: Time)
    requires ip in s.status && Caused(s, start)
    ensures Caused(Attempt(s, ip, node, t), start)
  {
    var c := AttemptWakes(s, ip, node, t);
    CallCaused(s, Attempt(s, ip, node, t), c, start);
  }

  lemma CallCaused(s: Pool, u: Pool, c: Call, start: Time)
    requires Caused(s, start) && u.log == s.log + [c] && (c.Assigned? || c.Refused?)
    requires u.wakeAt == if c.Assigned? then Sooner(s.wakeAt, c.until) else Sooner(Sooner(s.wakeAt, c.nodeUntil), c.ipUntil)
    ensures Caused(u, start)
  {
    if c.Assigned? {
      LastOnLog(u.log, c.until);
      LoweredIsCaused(s, u, start, c.until);
    } else {
      LastOnLog(u.log, c.nodeUntil);
      LastOnLog(u.log, c.ipUntil);
      var v := u.(wakeAt := Sooner(s.wakeAt, c.nodeUntil));
      LoweredIsCaused(s, v, start, c.nodeUntil);
      LoweredIsCaused(v, u, start, c.ipUntil);
    }
  }

  lemma TurnCaused(l: Loop, t: AssignTick, start: Time)
    requires LoopAgreement(l) && Recorded(l.s) && Timed(l.s) && Caused(l.s, start) && TakesTurn(l)
    ensures Caused(TryHeads(l, t).s, start)
  {
    var s, u := l.s, TryHeads(l, t).s;
    var ip, node := s.ipQueue[0], s.nodeQueue[0];
    assert node in s.active;
    if HeadIPWaits(s) {
      NotedOnLog(s.log, ip);
      LoweredIsCaused(s, u, start, s.status[ip].nextRetry);
    } else if HeadNodeWaits(s) {
      BlockOnLog(s.log, node);
      LoweredIsCaused(s, u, start, s.nodeRetry[node].nextRetry);
    } else {
      AttemptCaused(s.(ipQueue := s.ipQueue[1..], nodeQueue := s.nodeQueue[1..]), ip, node, t, start);
    }
  }

  /** Why the timer stands where it does after a pass that began at `start`. */
  predicate HasCause(s: Pool, start: Time) {
    Caused(s, start) || (s.wakeAt == s.nextAssignment && s.coolOff != 0 && s.clock <= s.nextAssignment)
  }

  lemma {:induction false} LoopCaused(l: Loop, k: nat, ticks: nat -> AssignTick, start: Time)
    requires LoopAgreement(l) && Recorded(l.s) && Timed(l.s) && Caused(l.s, start)
    ensures HasCause(AssignLoop(l, k, ticks).s, start)
    decreases |l.s.ipQueue|
  {
    if l.s.ipQueue != [] && l.s.nodeQueue != [] && !ticks(k).cancelled {
      var l1 := l.(s := Tick(l.s, ticks(k).delay));
      LoopTicks(l, ticks(k).delay);
      if !CoolingOff(l1.s) {
        TickTimed(l.s, ticks(k).delay);
        NothingRecorded(l.s, l1.s);
        TryHeadsKeeps(l1, ticks(k));
        TryHeadsRecorded(l1, ticks(k));
        TryHeadsTimed(l1, ticks(k));
        TurnCaused(l1, ticks(k), start);
        TurnPops(l1, ticks(k));
        LoopCaused(TryHeads(l1, ticks(k)), k + 1, ticks, start);
        assert AssignLoop(l, k, ticks) == AssignLoop(TryHeads(l1, ticks(k)), k + 1, ticks);
      }
    }
  }

  // ----- the whole pass -----

  /** The state before the assignment keeps all the records. */
  lemma RecordsBeforeAssignment(s: Pool, env: ReconcileEnv)
    requires Agreement(s) && Recorded(s) && Timed(s) && Allowed(s, ReconcileStep(env))
    ensures var s2 := BeforePoll(s, env);
      var s3 := ReconcileIPStatus(s2, env.status);
      Agreement(s2) && Recorded(s2) && Agreement(s3) && Recorded(s3) && Timed(s3)
  {
    BeforePollAgrees(s, env);
    var s0 := ReconcileStart(s, env);
    assert Agreement(s0);
    NothingRecorded(s, s0);
    CalmKeeps(s, s0);
    DesiredIPsKeeps(s0, env.create);
    DesiredIPsRecorded(s0, env.create);
    DesiredIPsCalm(s0, env.create);
    var s1 := ReconcileDesiredIPs(s0, env.create);
    CalmKeeps(s0, s1);
    PendingIPsRecorded(s1, env.pendingCancelled, env.persisted);
    PendingIPsCalm(s1, env.pendingCancelled, env.persisted);
    var s2 := BeforePoll(s, env);
    CalmKeeps(s1, s2);
    CheckIPsKeeps(s2, s2.ips, 0, env.status);
    CheckIPsRecorded(s2, s2.ips, 0, env.status);
    CheckIPsCalm(s2, s2.ips, 0, env.status);
    CalmKeeps(s2, ReconcileIPStatus(s2, env.status));
  }

  lemma DNSCaused(s: Pool, published: bool, start: Time)
    requires HasCause(s, start)
    ensures HasCause(ReconcileDNS(s, published), start)
  {
    var t := ReconcileDNS(s, published);
    DNSTimer(s, published);
    assert t.coolOff == s.coolOff && t.clock == s.clock;
    if Caused(s, start) {
      LoweredIsCaused(s, t, start, 0);
    }
  }

  /** After any run, a pass leaves the timer at the end of a minute, or at a deadline that some call on the log
      set, or, while the cool-off lasts, at the next assignment: it never fires without a cause. */
  lemma TimerHasCause(clock: Time, steps: seq<Step>, env: ReconcileEnv)
    requires clock > 0 && AllowedRun(NewPool(clock), steps)
    requires !Run(NewPool(clock), steps).crashed && Allowed(Run(NewPool(clock), steps), ReconcileStep(env))
    ensures var s := Run(NewPool(clock), steps);
      var t := Reconcile(s, env);
      || t.wakeAt == s.clock + env.start + MINUTE
      || OnLog(t.log, t.wakeAt)
      || (t.wakeAt == t.nextAssignment && t.coolOff != 0 && t.clock <= t.nextAssignment)
  {
    var s, start := Run(NewPool(clock), steps), Run(NewPool(clock), steps).clock + env.start;
    RunKeeps(NewPool(clock), steps);
    assert s == s.(crashed := false);
    RecordedFromStart(clock, steps);
    TimedFromStart(clock, steps);
    RecordsBeforeAssignment(s, env);
    BeforePollCaused(s, env);
    var s2 := BeforePoll(s, env);
    PollCaused(s2, s2.ips, 0, env.status, start);
    LoopCaused(Loop(ReconcileIPStatus(s2, env.status), [], []), 0, env.assign, start);
    DNSCaused(ReconcileToDNS(s, env), env.published, start);
    ReconcileToDNSKeeps(s, env);
  }
}
