/** The run loop's timer: after a pass it fires within a period and no later than the deadlines the pass
    recorded, but for one kind of IP. */
module PoolTimer {
  import opened Options
  import opened RetrySchedules
  import opened OrderedQueues
  import opened PoolState
  import opened PoolAgreement
  import opened PoolConservation
  import opened PoolAssignment
  import opened PoolDns
  import opened PoolTiming

  // ----- delays that are not negative -----

  ghost predicate Patient(r: Schedule) {
    forall i :: 0 <= i < |r| ==> r[i] >= 0
  }

  ghost predicate PatientError(err: ProviderError) {
    Patient(ErrorToRetrySchedule(err))
  }

  /** No error of the pass asks for a retry in the past. */
  ghost predicate PatientEnv(env: ReconcileEnv) {
    && (forall k :: env.create.results(k).NoIP? ==> PatientError(env.create.results(k).error))
    && PatientTicks(env.status)
    && PatientCalls(env.assign)
  }

  ghost predicate PatientTicks(ticks: nat -> StatusTick) {
    forall k :: ticks(k).answer.Failed? ==> PatientError(ticks(k).answer.error)
  }

  ghost predicate PatientCalls(ticks: nat -> AssignTick) {
    forall k :: ticks(k).result.Some? ==> PatientError(ticks(k).result.value)
  }

  ghost predicate PatientNodes(retries: map<string, Retry>) {
    forall p :: p in retries && p != "" ==> Patient(retries[p].schedule)
  }

  /** No refusal so far did. */
  ghost predicate PatientLog(log: seq<Call>) {
    forall i :: 0 <= i < |log| && log[i].Refused? ==> PatientError(log[i].error)
  }

  lemma {:induction false} BlockIsPatient(log: seq<Call>, p: string)
    requires PatientLog(log)
    ensures NodeBlock(log, p).Some? ==> Patient(NodeBlock(log, p).value.schedule)
  {
    if log != [] {
      BlockIsPatient(log[..|log| - 1], p);
    }
  }

  // ----- the timer -----

  /** The timer is set, and fires within a period of the start of the pass. */
  predicate Set(s: Pool, start: Time) {
    0 < start <= s.clock && 0 < s.wakeAt <= start + RECONCILE_PERIOD
  }

  lemma SoonerHeeds(wakeAt: Time, next: Time)
    requires wakeAt > 0 && next > 0
    ensures 0 < Sooner(wakeAt, next) <= wakeAt && Sooner(wakeAt, next) <= next
  {
  }

  // ----- polling -----

  /** The poll finds the IP on a node that claimed the other one, which is put back for immediate retry. */
  predicate Evicts(s: Pool, ip: string, t: StatusTick, other: string) {
    && Due(s, ip, t) && t.answer.Owner? && t.answer.node != StatusFor(s, ip).node
    && other != "" && other != ip && ClaimOf(s, t.answer.node) == other
  }

  lemma CheckIPSets(s: Pool, ip: string, t: StatusTick, start: Time)
    requires Agreement(s) && ip in s.ips && Set(s, start) && (t.answer.Failed? ==> PatientError(t.answer.error))
    ensures var u := CheckIP(s, ip, t);
      Set(u, start) && u.wakeAt <= s.wakeAt && ip in u.status && u.wakeAt <= u.status[ip].nextRetry
  {
    CheckIPIs(s, ip, t);
    var s1 := See(s, ip, t.delay);
    var st := s1.status[ip];
    if st.nextRetry > s1.clock {
      SoonerHeeds(s1.wakeAt, st.nextRetry);
    } else if t.answer.Failed? {
      var st' := ErrorStatus(st, t.answer.error, s1.clock + t.stamp);
      SoonerHeeds(s1.wakeAt, st'.nextRetry);
      ErrorIs(s1, ip, st, t.answer.error, t.stamp);
    } else {
      StatusOkTimer(s1, ip, ip in s.status, st, t.answer.node, t.stamp);
      StatusOkFrame(s1, ip, ip in s.status, st, t.answer.node, t.stamp);
    }
  }

  lemma AdoptTimer(s: Pool, ip: string, known: bool, expected: string, owner: string)
    ensures Adopt(s, ip, known, expected, owner).wakeAt == s.wakeAt
  {
  }

  lemma StatusOkTimer(s: Pool, ip: string, known: bool, st: IpStatus, owner: string, stamp: nat)
    ensures StatusOk(s, ip, known, st, owner, stamp).wakeAt == s.wakeAt
  {
    AdoptTimer(s.(ipQueue := AddIf(owner == "", s.ipQueue, ip, true)), ip, known, st.node, owner);
  }

  lemma FoundOthers(s: Pool, ip: string, known: bool, st: IpStatus, owner: string, stamp: nat, x: string)
    requires ip in s.status && x in s.status && x != ip && ClaimsAgree(s.claims, s.status)
    ensures var u := StatusOk(s, ip, known, st, owner, stamp);
      && x in u.status
      && u.status[x] == if st.node != owner && x != "" && ClaimOf(s, owner) == x then EVICTED_STATUS else s.status[x]
  {
    StatusOkFrame(s, ip, known, st, owner, stamp);
  }

  lemma CheckIPOthers(s: Pool, ip: string, t: StatusTick, x: string)
    requires Agreement(s) && ip in s.ips && x in s.status && x != ip
    ensures var u := CheckIP(s, ip, t);
      x in u.status && u.status[x] == if Evicts(s, ip, t, x) then EVICTED_STATUS else s.status[x]
  {
    CheckIPIs(s, ip, t);
    FirstSeenKeeps(s, ip, t.delay);
    var s1 := See(s, ip, t.delay);
    var st := s1.status[ip];
    assert ClaimsAgree(s1.claims, s1.status) && s1.status[x] == s.status[x];
    if st.nextRetry <= s1.clock {
      if t.answer.Failed? {
        ErrorIs(s1, ip, st, t.answer.error, t.stamp);
      } else {
        FoundOthers(s1, ip, ip in s.status, st, t.answer.node, t.stamp, x);
      }
    }
  }

  /** Some IP that is polled evicts x. */
  predicate EvictedIn(s: Pool, ips: seq<string>, k: nat, ticks: nat -> StatusTick, x: string)
    decreases |ips|
  {
    && ips != [] && !ticks(k).cancelled
    && (Evicts(s, ips[0], ticks(k), x) || EvictedIn(CheckIP(s, ips[0], ticks(k)), ips[1..], k + 1, ticks, x))
  }

  /** Some IP that is polled after x evicts it. */
  predicate EvictedAfterPoll(s: Pool, ips: seq<string>, k: nat, ticks: nat -> StatusTick, x: string)
    decreases |ips|
  {
    && ips != [] && !ticks(k).cancelled
    && var u := CheckIP(s, ips[0], ticks(k));
    if ips[0] == x then EvictedIn(u, ips[1..], k + 1, ticks, x) else EvictedAfterPoll(u, ips[1..], k + 1, ticks, x)
  }

  lemma {:induction false} PollSets(s: Pool, ips: seq<string>, k: nat, ticks: nat -> StatusTick, start: Time)
    requires Agreement(s) && Set(s, start) && PatientTicks(ticks) && forall ip :: ip in ips ==> ip in s.ips
    ensures var t := CheckIPs(s, ips, k, ticks); Set(t, start) && t.wakeAt <= s.wakeAt
    decreases |ips|
  {
    if ips != [] && !ticks(k).cancelled {
      CheckIPKeeps(s, ips[0], ticks(k));
      CheckIPSets(s, ips[0], ticks(k), start);
      PollSets(CheckIP(s, ips[0], ticks(k)), ips[1..], k + 1, ticks, start);
    }
  }

  lemma {:induction false} PollOthers(s: Pool, ips: seq<string>, k: nat, ticks: nat -> StatusTick, x: string)
    requires Agreement(s) && x in s.status && x !in ips && forall ip :: ip in ips ==> ip in s.ips
    ensures var t := CheckIPs(s, ips, k, ticks);
      x in t.status && t.status[x] == if EvictedIn(s, ips, k, ticks, x) then EVICTED_STATUS else s.status[x]
    decreases |ips|
  {
    if ips != [] && !ticks(k).cancelled {
      CheckIPKeeps(s, ips[0], ticks(k));
      CheckIPOthers(s, ips[0], ticks(k), x);
      PollOthers(CheckIP(s, ips[0], ticks(k)), ips[1..], k + 1, ticks, x);
    }
  }

  /** A polled IP ends up with a deadline the timer heeds, or evicted with none. */
  lemma {:induction false} PolledIsHeeded(s: Pool, ips: seq<string>, k: nat, ticks: nat -> StatusTick, start: Time, x: string)
    requires Agreement(s) && Set(s, start) && PatientTicks(ticks) && NoDup(ips) && Polled(x, ips, k, ticks)
    requires forall ip :: ip in ips ==> ip in s.ips
    ensures var t := CheckIPs(s, ips, k, ticks);
      && x in t.status
      && if EvictedAfterPoll(s, ips, k, ticks, x) then t.status[x] == EVICTED_STATUS else t.wakeAt <= t.status[x].nextRetry
    decreases |ips|
  {
    PolledFirst(x, ips, k, ticks);
    var u := CheckIP(s, ips[0], ticks(k));
    CheckIPKeeps(s, ips[0], ticks(k));
    CheckIPSets(s, ips[0], ticks(k), start);
    HeadGone(ips);
    if x == ips[0] {
      PollSets(u, ips[1..], k + 1, ticks, start);
      PollOthers(u, ips[1..], k + 1, ticks, x);
    } else {
      PolledIsHeeded(u, ips[1..], k + 1, ticks, start, x);
    }
  }

  // ----- assigning -----

  /** AssignIP was called for the IP after the first `base` calls. */
  predicate Attempted(x: string, log: seq<Call>, base: nat) {
    exists i :: base <= i < |log| && (log[i].Assigned? || log[i].Refused?) && log[i].ip == x
  }

  /** The log goes on without a call to AssignIP. */
  ghost predicate NoCalls(log: seq<Call>, longer: seq<Call>) {
    log <= longer && forall i :: |log| <= i < |longer| ==> !longer[i].Assigned? && !longer[i].Refused?
  }

  /** A node's backoff is the old one, or the timer heeds it. */
  ghost predicate NodesHeeded(before: map<string, Retry>, after: map<string, Retry>, wakeAt: Time) {
    forall p :: p in after ==> (p in before && after[p] == before[p]) || wakeAt <= after[p].nextRetry
  }

  /** An IP's status is the old one, or AssignIP was called for it and the timer heeds its deadline. */
  ghost predicate CallsHeeded(s: Pool, u: Pool) {
    && u.status.Keys == s.status.Keys && s.log <= u.log
    && forall x :: x in s.status ==>
         if Attempted(x, u.log, |s.log|) then u.wakeAt <= u.status[x].nextRetry else u.status[x] == s.status[x]
  }

  ghost predicate Heeds(s: Pool, u: Pool, start: Time) {
    && Set(u, start) && u.wakeAt <= s.wakeAt && PatientNodes(u.nodeRetry)
    && NodesHeeded(s.nodeRetry, u.nodeRetry, u.wakeAt) && CallsHeeded(s, u)
  }

  lemma AttemptedTrans(x: string, log: seq<Call>, base: nat, middle: nat)
    requires base <= middle <= |log|
    ensures Attempted(x, log, base) <==> Attempted(x, log[..middle], base) || Attempted(x, log, middle)
  {
    if i :| base <= i < |log| && (log[i].Assigned? || log[i].Refused?) && log[i].ip == x {
      if i < middle {
        assert log[..middle][i] == log[i];
      }
    }
    if i :| base <= i < |log[..middle]| && (log[..middle][i].Assigned? || log[..middle][i].Refused?) && log[..middle][i].ip == x {
      assert log[i] == log[..middle][i];
    }
  }

  lemma HeedsTrans(s: Pool, t: Pool, u: Pool, start: Time)
    requires Heeds(s, t, start) && Heeds(t, u, start)
    ensures Heeds(s, u, start)
  {
    forall x | x in s.status
      ensures if Attempted(x, u.log, |s.log|) then u.wakeAt <= u.status[x].nextRetry else u.status[x] == s.status[x]
    {
      AttemptedTrans(x, u.log, |s.log|, |t.log|);
      assert u.log[..|t.log|] == t.log;
    }
  }

  lemma NothingCalled(s: Pool, u: Pool, start: Time)
    requires Set(u, start) && u.wakeAt <= s.wakeAt && PatientNodes(s.nodeRetry)
    requires u.nodeRetry == s.nodeRetry && u.status == s.status && u.log == s.log
    ensures Heeds(s, u, start)
  {
  }

  lemma AttemptTimer(s: Pool, ip: string, node: string, t: AssignTick, start: Time)
    requires ip in s.status && node != "" && Set(s, start) && PatientNodes(s.nodeRetry)
    requires t.result.Some? ==> PatientError(t.result.value)
    ensures var u := Attempt(s, ip, node, t);
      && Set(u, start) && u.wakeAt <= s.wakeAt && PatientNodes(u.nodeRetry)
      && NodesHeeded(s.nodeRetry, u.nodeRetry, u.wakeAt) && u.wakeAt <= u.status[ip].nextRetry
  {
    var done := s.clock + t.done;
    if Succeeds(t.result) {
      SoonerHeeds(s.wakeAt, AssignedStatus(node, done + t.stamp).nextRetry);
    } else {
      var backoff := NodeBackoff(s.nodeRetry, node, t.result.value, done);
      SoonerHeeds(s.wakeAt, backoff.nextRetry);
      SoonerHeeds(Sooner(s.wakeAt, backoff.nextRetry), RefusedStatus(s.status[ip], t.result.value, done + t.stamp).nextRetry);
    }
  }

  lemma AttemptCalls(s: Pool, ip: string, node: string, t: AssignTick)
    requires ip in s.status
    ensures var u := Attempt(s, ip, node, t);
      && s.log <= u.log && u.status.Keys == s.status.Keys
      && forall x :: (Attempted(x, u.log, |s.log|) <==> x == ip) && (x in s.status && x != ip ==> u.status[x] == s.status[x])
  {
    var u := Attempt(s, ip, node, t);
    var c := u.log[|s.log|];
    assert (c.Assigned? || c.Refused?) && c.ip == ip && |u.log| == |s.log| + 1;
  }

  lemma AttemptHeeds(s: Pool, ip: string, node: string, t: AssignTick, start: Time)
    requires ip in s.status && node != "" && Set(s, start) && PatientNodes(s.nodeRetry)
    requires t.result.Some? ==> PatientError(t.result.value)
    ensures Heeds(s, Attempt(s, ip, node, t), start)
  {
    AttemptTimer(s, ip, node, t, start);
    AttemptCalls(s, ip, node, t);
  }

  lemma TryHeadsHeeds(l: Loop, t: AssignTick, start: Time)
    requires l.s.ipQueue != [] && l.s.nodeQueue != [] && l.s.ipQueue[0] in l.s.status
    requires l.s.nodeQueue[0] != "" && Set(l.s, start) && PatientNodes(l.s.nodeRetry)
    requires t.result.Some? ==> PatientError(t.result.value)
    ensures Heeds(l.s, TryHeads(l, t).s, start)
  {
    var s := l.s;
    var s1 := s.(ipQueue := s.ipQueue[1..]);
    var s2 := s1.(nodeQueue := s.nodeQueue[1..]);
    if HeadIPWaits(s) {
      SoonerHeeds(s.wakeAt, s.status[s.ipQueue[0]].nextRetry);
      NothingCalled(s, TryHeads(l, t).s, start);
    } else if HeadNodeWaits(s) {
      SoonerHeeds(s.wakeAt, s.nodeRetry[s.nodeQueue[0]].nextRetry);
      NothingCalled(s, TryHeads(l, t).s, start);
    } else {
      NothingCalled(s, s2, start);
      AttemptHeeds(s2, s.ipQueue[0], s.nodeQueue[0], t, start);
      HeedsTrans(s, s2, TryHeads(l, t).s, start);
    }
  }

  lemma TurnHeeds(l: Loop, t: AssignTick, start: Time)
    requires LoopAgreement(l) && Set(l.s, start) && PatientNodes(l.s.nodeRetry) && (t.result.Some? ==> PatientError(t.result.value))
    requires l.s.ipQueue != [] && l.s.nodeQueue != [] && TakesTurn(l.(s := Tick(l.s, t.delay)))
    ensures var u := TryHeads(l.(s := Tick(l.s, t.delay)), t);
      LoopAgreement(u) && Heeds(l.s, u.s, start) && |u.s.ipQueue| < |l.s.ipQueue|
  {
    var l1 := l.(s := Tick(l.s, t.delay));
    LoopTicks(l, t.delay);
    NothingCalled(l.s, l1.s, start);
    assert l1.s.nodeQueue[0] in l1.s.active;
    TryHeadsKeeps(l1, t);
    TryHeadsHeeds(l1, t, start);
    TurnPops(l1, t);
    HeedsTrans(l.s, l1.s, TryHeads(l1, t).s, start);
  }

  lemma {:induction false} LoopHeeds(l: Loop, k: nat, ticks: nat -> AssignTick, start: Time)
    requires LoopAgreement(l) && Set(l.s, start) && PatientNodes(l.s.nodeRetry) && PatientCalls(ticks)
    ensures Heeds(l.s, AssignLoop(l, k, ticks).s, start)
    decreases |l.s.ipQueue|
  {
    if l.s.ipQueue == [] || l.s.nodeQueue == [] || ticks(k).cancelled {
      NothingCalled(l.s, l.s, start);
    } else {
      var s1 := Tick(l.s, ticks(k).delay);
      if CoolingOff(s1) {
        SoonerHeeds(s1.wakeAt, s1.nextAssignment);
        NothingCalled(l.s, WakeBy(s1, s1.nextAssignment), start);
      } else {
        var u := TryHeads(l.(s := s1), ticks(k));
        TurnHeeds(l, ticks(k), start);
        LoopHeeds(u, k + 1, ticks, start);
        assert AssignLoop(l, k, ticks) == AssignLoop(u, k + 1, ticks);
        HeedsTrans(l.s, u.s, AssignLoop(u, k + 1, ticks).s, start);
      }
    }
  }

  lemma AssignmentHeeds(s: Pool, ticks: nat -> AssignTick, start: Time)
    requires Agreement(s) && Set(s, start) && PatientNodes(s.nodeRetry) && PatientCalls(ticks)
    ensures Heeds(s, ReconcileAssignment(s, ticks), start)
  {
    var e := AssignLoop(Loop(s, [], []), 0, ticks);
    LoopHeeds(Loop(s, [], []), 0, ticks, start);
    NothingCalled(e.s, Requeue(e), start);
    HeedsTrans(s, e.s, Requeue(e), start);
  }

  ghost predicate NeverCancelled(k: nat, ticks: nat -> AssignTick) {
    forall j :: k <= j ==> !ticks(j).cancelled
  }

  /** What is left in both queues waits for the next assignment, and the timer with it. */
  predicate LeftToCool(s: Pool) {
    s.ipQueue != [] && s.nodeQueue != [] ==> CoolingOff(s) && s.wakeAt <= s.nextAssignment
  }

  lemma CoolTurn(l: Loop, k: nat, ticks: nat -> AssignTick)
    requires LoopAgreement(l) && l.s.ipQueue != [] && l.s.nodeQueue != [] && !ticks(k).cancelled
    ensures var l1 := l.(s := Tick(l.s, ticks(k).delay));
      && LoopAgreement(l1)
      && if CoolingOff(l1.s) then LeftToCool(AssignLoop(l, k, ticks).s)
         else
           && LoopAgreement(TryHeads(l1, ticks(k))) && |TryHeads(l1, ticks(k)).s.ipQueue| < |l.s.ipQueue|
           && AssignLoop(l, k, ticks) == AssignLoop(TryHeads(l1, ticks(k)), k + 1, ticks)
  {
    var l1 := l.(s := Tick(l.s, ticks(k).delay));
    LoopTicks(l, ticks(k).delay);
    if !CoolingOff(l1.s) {
      TryHeadsKeeps(l1, ticks(k));
      TurnPops(l1, ticks(k));
    }
  }

  /** The loop leaves an IP and a node queued only to cool off, and then the timer heeds the next assignment. */
  lemma {:induction false} LoopCools(l: Loop, k: nat, ticks: nat -> AssignTick)
    requires LoopAgreement(l) && NeverCancelled(k, ticks)
    ensures LeftToCool(AssignLoop(l, k, ticks).s)
    decreases |l.s.ipQueue|
  {
    if l.s.ipQueue != [] && l.s.nodeQueue != [] {
      var l1 := l.(s := Tick(l.s, ticks(k).delay));
      CoolTurn(l, k, ticks);
      if !CoolingOff(l1.s) {
        LoopCools(TryHeads(l1, ticks(k)), k + 1, ticks);
      }
    }
  }

  // ----- who is put aside -----

  predicate IPHeeded(st: IpStatus, clock: Time, wakeAt: Time) {
    st.state == Error && st.nextRetry > clock ==> wakeAt <= st.nextRetry
  }

  /** The timer heeds the deadlines of the IPs and nodes that were skipped or refused. */
  ghost predicate AsideHeeded(l: Loop) {
    && (forall p :: p in l.retryNodes ==> p in l.s.nodeRetry && l.s.wakeAt <= l.s.nodeRetry[p].nextRetry)
    && (forall ip :: ip in l.retryIPs ==> ip in l.s.status && IPHeeded(l.s.status[ip], l.s.clock, l.s.wakeAt))
  }

  /** Those put aside earlier are not touched by a call for others. */
  lemma AsideStays(l: Loop, s: Pool, start: Time)
    requires AsideHeeded(l) && Heeds(l.s, s, start) && l.s.clock <= s.clock
    requires forall p :: p in l.retryNodes ==> p in s.nodeRetry
    ensures AsideHeeded(l.(s := s))
  {
  }

  lemma OneMoreAside(l: Loop, ips: seq<string>, nodes: seq<string>)
    requires AsideHeeded(l)
    requires forall ip :: ip in ips ==> ip in l.s.status && IPHeeded(l.s.status[ip], l.s.clock, l.s.wakeAt)
    requires forall p :: p in nodes ==> p in l.s.nodeRetry && l.s.wakeAt <= l.s.nodeRetry[p].nextRetry
    ensures AsideHeeded(l.(retryIPs := l.retryIPs + ips, retryNodes := l.retryNodes + nodes))
  {
  }

  lemma AttemptBackoff(s: Pool, ip: string, node: string, t: AssignTick)
    requires ip in s.status && s.wakeAt > 0 && node != "" && PatientNodes(s.nodeRetry) && s.clock > 0
    requires t.result.Some? ==> PatientError(t.result.value)
    ensures var u := Attempt(s, ip, node, t);
      && s.clock <= u.clock && (forall p :: p in s.nodeRetry && p != node ==> p in u.nodeRetry)
      && (!Succeeds(t.result) ==> node in u.nodeRetry && u.wakeAt <= u.nodeRetry[node].nextRetry)
  {
    if !Succeeds(t.result) {
      var done := s.clock + t.done;
      var backoff := NodeBackoff(s.nodeRetry, node, t.result.value, done);
      SoonerHeeds(s.wakeAt, backoff.nextRetry);
      SoonerHeeds(Sooner(s.wakeAt, backoff.nextRetry), RefusedStatus(s.status[ip], t.result.value, done + t.stamp).nextRetry);
    }
  }

  lemma CalledAside(l: Loop, t: AssignTick, start: Time)
    requires LoopAgreement(l) && l.s.ipQueue != [] && l.s.nodeQueue != [] && !HeadIPWaits(l.s) && !HeadNodeWaits(l.s)
    requires Set(l.s, start) && PatientNodes(l.s.nodeRetry) && (t.result.Some? ==> PatientError(t.result.value))
    requires AsideHeeded(l)
    ensures AsideHeeded(TryHeads(l, t))
  {
    var ip, node := l.s.ipQueue[0], l.s.nodeQueue[0];
    var s2 := l.s.(ipQueue := l.s.ipQueue[1..], nodeQueue := l.s.nodeQueue[1..]);
    var u := Attempt(s2, ip, node, t);
    assert node in l.s.active && node !in l.retryNodes;
    NothingCalled(l.s, s2, start);
    AttemptHeeds(s2, ip, node, t, start);
    HeedsTrans(l.s, s2, u, start);
    AttemptBackoff(s2, ip, node, t);
    AttemptTimer(s2, ip, node, t, start);
    AsideStays(l, u, start);
    AttemptFrame(s2, ip, node, t);
    if !Succeeds(t.result) {
      OneMoreAside(l.(s := u), [ip], [node]);
    }
  }

  lemma SkippedAside(l: Loop, t: AssignTick, start: Time)
    requires LoopAgreement(l) && l.s.ipQueue != [] && l.s.nodeQueue != [] && (HeadIPWaits(l.s) || HeadNodeWaits(l.s))
    requires Set(l.s, start) && PatientNodes(l.s.nodeRetry) && AsideHeeded(l)
    ensures AsideHeeded(TryHeads(l, t))
  {
    var s, u := l.s, TryHeads(l, t).s;
    var ip, node := s.ipQueue[0], s.nodeQueue[0];
    if HeadIPWaits(s) {
      SoonerHeeds(s.wakeAt, s.status[ip].nextRetry);
      NothingCalled(s, u, start);
      AsideStays(l, u, start);
      OneMoreAside(l.(s := u), [ip], []);
      assert l.retryNodes + [] == l.retryNodes;
    } else {
      SoonerHeeds(s.wakeAt, s.nodeRetry[node].nextRetry);
      NothingCalled(s, u, start);
      AsideStays(l, u, start);
      OneMoreAside(l.(s := u), [ip], [node]);
    }
  }

  lemma ReadingAside(l: Loop, delay: nat, start: Time)
    requires LoopAgreement(l) && Set(l.s, start) && PatientNodes(l.s.nodeRetry) && AsideHeeded(l)
    ensures var l1 := l.(s := Tick(l.s, delay));
      && LoopAgreement(l1) && Set(l1.s, start) && AsideHeeded(l1)
      && (CoolingOff(l1.s) ==> AsideHeeded(l1.(s := WakeBy(l1.s, l1.s.nextAssignment))))
  {
    var l1 := l.(s := Tick(l.s, delay));
    LoopTicks(l, delay);
    NothingCalled(l.s, l1.s, start);
    AsideStays(l, l1.s, start);
    if CoolingOff(l1.s) {
      SoonerHeeds(l1.s.wakeAt, l1.s.nextAssignment);
      NothingCalled(l1.s, WakeBy(l1.s, l1.s.nextAssignment), start);
      AsideStays(l1, WakeBy(l1.s, l1.s.nextAssignment), start);
    }
  }

  lemma {:induction false} LoopAside(l: Loop, k: nat, ticks: nat -> AssignTick, start: Time)
    requires LoopAgreement(l) && Set(l.s, start) && PatientNodes(l.s.nodeRetry) && PatientCalls(ticks) && AsideHeeded(l)
    ensures AsideHeeded(AssignLoop(l, k, ticks))
    decreases |l.s.ipQueue|
  {
    if l.s.ipQueue != [] && l.s.nodeQueue != [] && !ticks(k).cancelled {
      var l1 := l.(s := Tick(l.s, ticks(k).delay));
      ReadingAside(l, ticks(k).delay, start);
      if !CoolingOff(l1.s) {
        TurnAside(l1, ticks(k), start);
        LoopAside(TryHeads(l1, ticks(k)), k + 1, ticks, start);
        assert AssignLoop(l, k, ticks) == AssignLoop(TryHeads(l1, ticks(k)), k + 1, ticks);
      }
    }
  }

  lemma TurnAside(l: Loop, t: AssignTick, start: Time)
    requires LoopAgreement(l) && TakesTurn(l) && AsideHeeded(l)
    requires Set(l.s, start) && PatientNodes(l.s.nodeRetry) && (t.result.Some? ==> PatientError(t.result.value))
    ensures var u := TryHeads(l, t);
      && LoopAgreement(u) && AsideHeeded(u) && Set(u.s, start) && PatientNodes(u.s.nodeRetry)
      && |u.s.ipQueue| < |l.s.ipQueue|
  {
    assert l.s.nodeQueue[0] in l.s.active;
    TryHeadsKeeps(l, t);
    TryHeadsHeeds(l, t, start);
    TurnPops(l, t);
    if HeadIPWaits(l.s) || HeadNodeWaits(l.s) {
      SkippedAside(l, t, start);
    } else {
      CalledAside(l, t, start);
    }
  }

  // ----- creating -----

  lemma {:induction false} CreateSets(s: Pool, k: nat, results: nat -> CreateResult, start: Time)
    requires Set(s, start) && forall j :: results(j).NoIP? ==> PatientError(results(j).error)
    ensures var t := CreateIPs(s, k, results);
      Set(t, start) && (t.createNextRetry == s.createNextRetry || t.wakeAt <= t.createNextRetry)
    decreases s.desiredIPs - |s.ips| - |s.pendingIPs|
  {
    if |s.ips| + |s.pendingIPs| < s.desiredIPs {
      match results(k)
      case NewIP(ip) =>
        CreateSets(s.(dnsDirty := true, pendingIPs := s.pendingIPs + [ip], createAttempts := 0, log := s.log + [Created(ip)]),
                   k + 1, results, start);
      case NoIP(err, delay) =>
        SoonerHeeds(s.wakeAt, s.clock + delay + After(ErrorToRetrySchedule(err), s.createAttempts));
    }
  }

  lemma {:induction false} AdoptPendingTimer(s: Pool, pending: seq<string>)
    ensures var t := AdoptPending(s, pending);
      t.wakeAt == s.wakeAt && t.clock == s.clock && t.createNextRetry == s.createNextRetry && t.nodeRetry == s.nodeRetry
    decreases |pending|
  {
    if pending != [] {
      AdoptPendingTimer(AdoptOne(s, pending[0]), pending[1..]);
    }
  }

  /** Up to the poll the timer is set, and heeds a failed creation. */
  lemma BeforePollSets(s: Pool, env: ReconcileEnv)
    requires s.clock > 0 && PatientEnv(env)
    ensures var s2 := BeforePoll(s, env);
      && Set(s2, s.clock + env.start) && s2.nodeRetry == s.nodeRetry
      && (s2.createNextRetry == s.createNextRetry || s2.wakeAt <= s2.createNextRetry)
      && (!env.create.cancelled && s.createNextRetry > s.clock + env.start + env.create.delay ==> s2.wakeAt <= s2.createNextRetry)
  {
    var start := s.clock + env.start;
    var s0 := ReconcileStart(s, env);
    var s1 := ReconcileDesiredIPs(s0, env.create);
    if !env.create.cancelled {
      var r := Tick(s0, env.create.delay);
      if r.createNextRetry > r.clock {
        SoonerHeeds(r.wakeAt, r.createNextRetry);
      } else {
        CreateSets(r, 0, env.create.results, start);
      }
    }
    DesiredIPsCalm(s0, env.create);
    AdoptPendingTimer(s1.(dnsDirty := true, log := s1.log + [Persisted(s1.pendingIPs)]), s1.pendingIPs);
  }

  // ----- the whole pass -----

  /** The pass from the poll on. */
  lemma PollThenAssignment(s: Pool, env: ReconcileEnv)
    requires Agreement(s) && Allowed(s, ReconcileStep(env)) && PatientEnv(env) && PatientNodes(s.nodeRetry)
    ensures var s2 := BeforePoll(s, env);
      var s3 := ReconcileIPStatus(s2, env.status);
      && Agreement(s2) && Set(s2, s.clock + env.start)
      && s3.wakeAt <= s2.wakeAt && NoCalls(s2.log, s3.log) && s3.nodeRetry == s.nodeRetry && s3.createNextRetry == s2.createNextRetry
      && Heeds(s3, ReconcileToDNS(s, env), s.clock + env.start)
      && ReconcileToDNS(s, env).createNextRetry == s2.createNextRetry
  {
    var start := s.clock + env.start;
    BeforePollSets(s, env);
    BeforePollAgrees(s, env);
    var s2 := BeforePoll(s, env);
    PollSets(s2, s2.ips, 0, env.status, start);
    CheckIPsKeeps(s2, s2.ips, 0, env.status);
    CheckIPsCalm(s2, s2.ips, 0, env.status);
    PollCreates(s2, s2.ips, 0, env.status);
    AssignmentHeeds(ReconcileIPStatus(s2, env.status), env.assign, start);
    AssignCreates(Loop(ReconcileIPStatus(s2, env.status), [], []), 0, env.assign);
  }

  lemma BeforePollAgrees(s: Pool, env: ReconcileEnv)
    requires Agreement(s) && Allowed(s, ReconcileStep(env))
    ensures Agreement(BeforePoll(s, env))
  {
    var s0 := ReconcileStart(s, env);
    assert Agreement(s0);
    DesiredIPsKeeps(s0, env.create);
    PendingIPsKeeps(ReconcileDesiredIPs(s0, env.create), env.pendingCancelled, env.persisted);
  }

  lemma CheckIPCreates(s: Pool, ip: string, t: StatusTick)
    ensures CheckIP(s, ip, t).createNextRetry == s.createNextRetry && NoCalls(s.log, CheckIP(s, ip, t).log)
  {
    CheckIPIs(s, ip, t);
    var s1 := See(s, ip, t.delay);
    if t.answer.Owner? {
      OkCreates(s1, ip, ip in s.status, s1.status[ip], t.answer.node, t.stamp);
    }
  }

  lemma OkCreates(s: Pool, ip: string, known: bool, st: IpStatus, owner: string, stamp: nat)
    ensures var u := StatusOk(s, ip, known, st, owner, stamp); u.createNextRetry == s.createNextRetry && NoCalls(s.log, u.log)
  {
    var s1 := s.(ipQueue := AddIf(owner == "", s.ipQueue, ip, true));
    var a := Adopt(s1, ip, known, st.node, owner);
    assert a.createNextRetry == s.createNextRetry && NoCalls(s.log, a.log);
  }

  lemma {:induction false} PollCreates(s: Pool, ips: seq<string>, k: nat, ticks: nat -> StatusTick)
    ensures var t := CheckIPs(s, ips, k, ticks); t.createNextRetry == s.createNextRetry && NoCalls(s.log, t.log)
    decreases |ips|
  {
    if ips != [] && !ticks(k).cancelled {
      CheckIPCreates(s, ips[0], ticks(k));
      PollCreates(CheckIP(s, ips[0], ticks(k)), ips[1..], k + 1, ticks);
    }
  }

  lemma TryHeadsCreates(l: Loop, t: AssignTick)
    requires l.s.ipQueue != [] && l.s.nodeQueue != [] && l.s.ipQueue[0] in l.s.status
    ensures TryHeads(l, t).s.createNextRetry == l.s.createNextRetry
  {
  }

  lemma AssignCreates(l: Loop, k: nat, ticks: nat -> AssignTick)
    requires LoopAgreement(l)
    ensures AssignLoop(l, k, ticks).s.createNextRetry == l.s.createNextRetry
  {
    var inv := (u: Loop) => LoopAgreement(u) && u.s.createNextRetry == l.s.createNextRetry;
    forall u: Loop, delay: nat | inv(u)
      ensures inv(u.(s := Tick(u.s, delay)))
    {
      LoopTicks(u, delay);
    }
    forall u: Loop | inv(u)
      ensures inv(u.(s := WakeBy(u.s, u.s.nextAssignment)))
    {
      LoopTicks(u, 0);
    }
    forall u: Loop, t: AssignTick | inv(u) && TakesTurn(u)
      ensures inv(TryHeads(u, t))
    {
      TryHeadsKeeps(u, t);
      TryHeadsCreates(u, t);
    }
    AssignLoopKeepsAny(inv, l, k, ticks);
  }

  lemma DNSTimer(s: Pool, published: bool)
    ensures var t := ReconcileDNS(s, published);
      && t.wakeAt == s.wakeAt && t.nextAssignment == s.nextAssignment && t.createNextRetry == s.createNextRetry
      && t.status == s.status && t.nodeRetry == s.nodeRetry
      && NoCalls(s.log, t.log)
  {
  }

  /** What the history says about a pool that a run has reached. */
  lemma RunIsPatient(clock: Time, steps: seq<Step>)
    requires clock > 0 && AllowedRun(NewPool(clock), steps) && PatientLog(Run(NewPool(clock), steps).log)
    requires !Run(NewPool(clock), steps).crashed
    ensures var s := Run(NewPool(clock), steps); Agreement(s) && PatientNodes(s.nodeRetry)
  {
    var s := Run(NewPool(clock), steps);
    RunKeeps(NewPool(clock), steps);
    assert s == s.(crashed := false);
    TimedFromStart(clock, steps);
    forall p | p in s.nodeRetry && p != ""
      ensures Patient(s.nodeRetry[p].schedule)
    {
      BlockIsPatient(s.log, p);
    }
  }

  /** After any run, a pass leaves the timer set to fire within a period of its start, and no later than the
      node backoffs it recorded, the creation retry it recorded or found running, and the next assignment if
      the cool-off kept it from assigning all it could. */
  lemma TimerHeedsPass(clock: Time, steps: seq<Step>, env: ReconcileEnv)
    requires clock > 0 && AllowedRun(NewPool(clock), steps)
    requires var s := Run(NewPool(clock), steps);
      !s.crashed && PatientLog(s.log) && Allowed(s, ReconcileStep(env)) && PatientEnv(env)
    ensures var s := Run(NewPool(clock), steps);
      var t := Reconcile(s, env);
      && 0 < t.wakeAt <= s.clock + env.start + MINUTE
      && (t.createNextRetry != s.createNextRetry ==> t.wakeAt <= t.createNextRetry)
      && (!env.create.cancelled && s.createNextRetry > s.clock + env.start + env.create.delay ==> t.wakeAt <= t.createNextRetry)
      && NodesHeeded(s.nodeRetry, t.nodeRetry, t.wakeAt)
      && var e := AssignLoop(Loop(ReconcileIPStatus(BeforePoll(s, env), env.status), [], []), 0, env.assign).s;
      NeverCancelled(0, env.assign) && e.ipQueue != [] && e.nodeQueue != [] ==> t.wakeAt <= t.nextAssignment
  {
    var s := Run(NewPool(clock), steps);
    RunIsPatient(clock, steps);
    BeforePollSets(s, env);
    PollThenAssignment(s, env);
    if NeverCancelled(0, env.assign) {
      PassCools(s, env);
    }
    DNSTimer(ReconcileToDNS(s, env), env.published);
  }

  lemma PassCools(s: Pool, env: ReconcileEnv)
    requires Agreement(s) && Allowed(s, ReconcileStep(env)) && NeverCancelled(0, env.assign)
    ensures var s3 := ReconcileIPStatus(BeforePoll(s, env), env.status);
      var e, t := AssignLoop(Loop(s3, [], []), 0, env.assign).s, ReconcileToDNS(s, env);
      e.ipQueue != [] && e.nodeQueue != [] ==> t.wakeAt <= t.nextAssignment
  {
    BeforePollAgrees(s, env);
    var s2 := BeforePoll(s, env);
    CheckIPsKeeps(s2, s2.ips, 0, env.status);
    LoopCools(Loop(ReconcileIPStatus(s2, env.status), [], []), 0, env.assign);
  }

  /** What the loop put aside is back at the end of the queues, and the timer heeds it. */
  ghost predicate QueuesHeeded(t: Pool, e: Loop) {
    && t.ipQueue == e.s.ipQueue + e.retryIPs && t.nodeQueue == e.s.nodeQueue + e.retryNodes
    && (forall p :: p in e.retryNodes ==> p in t.nodeRetry && t.wakeAt <= t.nodeRetry[p].nextRetry)
    && (forall ip :: ip in e.retryIPs ==> ip in t.status && IPHeeded(t.status[ip], t.clock, t.wakeAt))
  }

  lemma AssignmentAside(s: Pool, ticks: nat -> AssignTick, start: Time)
    requires Agreement(s) && Set(s, start) && PatientNodes(s.nodeRetry) && PatientCalls(ticks)
    ensures QueuesHeeded(ReconcileAssignment(s, ticks), AssignLoop(Loop(s, [], []), 0, ticks))
  {
    LoopAside(Loop(s, [], []), 0, ticks, start);
    RequeueAppends(s, ticks);
  }

  /** After any run, a pass leaves no IP and no node that it skipped or was refused waiting beyond the timer. */
  lemma TimerHeedsQueues(clock: Time, steps: seq<Step>, env: ReconcileEnv)
    requires clock > 0 && AllowedRun(NewPool(clock), steps)
    requires var s := Run(NewPool(clock), steps);
      !s.crashed && PatientLog(s.log) && Allowed(s, ReconcileStep(env)) && PatientEnv(env)
    ensures var s := Run(NewPool(clock), steps);
      QueuesHeeded(Reconcile(s, env), AssignLoop(Loop(ReconcileIPStatus(BeforePoll(s, env), env.status), [], []), 0, env.assign))
  {
    var s := Run(NewPool(clock), steps);
    RunIsPatient(clock, steps);
    PassAside(s, env);
    DNSQueues(ReconcileToDNS(s, env), env.published);
    DNSTimer(ReconcileToDNS(s, env), env.published);
  }

  lemma PassAside(s: Pool, env: ReconcileEnv)
    requires Agreement(s) && Allowed(s, ReconcileStep(env)) && PatientEnv(env) && PatientNodes(s.nodeRetry)
    ensures QueuesHeeded(ReconcileToDNS(s, env),
                         AssignLoop(Loop(ReconcileIPStatus(BeforePoll(s, env), env.status), [], []), 0, env.assign))
  {
    PollThenAssignment(s, env);
    var s2 := BeforePoll(s, env);
    CheckIPsKeeps(s2, s2.ips, 0, env.status);
    PollSets(s2, s2.ips, 0, env.status, s.clock + env.start);
    AssignmentAside(ReconcileIPStatus(s2, env.status), env.assign, s.clock + env.start);
  }

  lemma DNSQueues(s: Pool, published: bool)
    ensures var t := ReconcileDNS(s, published); t.ipQueue == s.ipQueue && t.nodeQueue == s.nodeQueue && t.clock == s.clock
  {
  }

  lemma NoCallsNotAttempted(x: string, log: seq<Call>, longer: seq<Call>, base: nat)
    requires NoCalls(log, longer) && base <= |log|
    ensures Attempted(x, longer, base) <==> Attempted(x, log, base)
  {
    AttemptedTrans(x, longer, base, |log|);
    assert longer[..|log|] == log;
  }

  /** No call was made before the assignment. */
  lemma AttemptedLater(x: string, before: seq<Call>, polled: seq<Call>, after: seq<Call>)
    requires NoCalls(before, polled) && polled <= after
    ensures Attempted(x, after, |before|) <==> Attempted(x, after, |polled|)
  {
    AttemptedTrans(x, after, |before|, |polled|);
    assert after[..|polled|] == polled;
    NoCallsNotAttempted(x, before, polled, |before|);
  }

  lemma PassMisses(s: Pool, env: ReconcileEnv, x: string)
    requires Agreement(s) && Allowed(s, ReconcileStep(env)) && PatientEnv(env) && PatientNodes(s.nodeRetry)
    requires Polled(x, BeforePoll(s, env).ips, 0, env.status)
    ensures var s2, t := BeforePoll(s, env), ReconcileToDNS(s, env);
      && x in t.status && s2.log <= t.log
      && (t.wakeAt > t.status[x].nextRetry <==>
          EvictedAfterPoll(s2, s2.ips, 0, env.status, x) && !Attempted(x, t.log, |s2.log|))
  {
    PollThenAssignment(s, env);
    var s2 := BeforePoll(s, env);
    PolledIsHeeded(s2, s2.ips, 0, env.status, s.clock + env.start, x);
    AttemptedLater(x, s2.log, ReconcileIPStatus(s2, env.status).log, ReconcileToDNS(s, env).log);
  }

  /** After any run, the timer is too late for an IP that the pass polled exactly if another IP, polled later in
      the same pass, took its node, and no assignment was attempted for it since: it was to be retried at once. */
  lemma TimerMissesExactlyWhen(clock: Time, steps: seq<Step>, env: ReconcileEnv, x: string)
    requires clock > 0 && AllowedRun(NewPool(clock), steps)
    requires var s := Run(NewPool(clock), steps);
      && !s.crashed && PatientLog(s.log) && Allowed(s, ReconcileStep(env)) && PatientEnv(env)
      && Polled(x, BeforePoll(s, env).ips, 0, env.status)
    ensures var s := Run(NewPool(clock), steps);
      var s2, t := BeforePoll(s, env), Reconcile(s, env);
      && x in t.status
      && (t.wakeAt > t.status[x].nextRetry <==>
          EvictedAfterPoll(s2, s2.ips, 0, env.status, x) && !Attempted(x, t.log, |s2.log|))
  {
    var s := Run(NewPool(clock), steps);
    RunIsPatient(clock, steps);
    PassMisses(s, env, x);
    DNSTimer(ReconcileToDNS(s, env), env.published);
    NoCallsNotAttempted(x, ReconcileToDNS(s, env).log, Reconcile(s, env).log, |BeforePoll(s, env).log|);
  }

  // ----- an IP that has to wait -----

  /** A pass whose lookups all name one node, and in which nothing else happens. */
  ghost predicate OneNodeAnswers(env: ReconcileEnv) {
    && env.start == 0 && !env.create.cancelled && env.create.delay == 0 && !env.pendingCancelled
    && (forall k :: env.status(k) == StatusTick(false, 0, Owner("n"), 0))
  }

  ghost function TwoIPs(): seq<Step> {
    [SpecStep(["192.0.2.1", "192.0.2.2"], 0, [])]
  }

  /** Marked for immediate retry, an evicted IP waits for a whole period. */
  lemma EvictedMustWait(env: ReconcileEnv)
    requires OneNodeAnswers(env)
    ensures AllowedRun(NewPool(1), TwoIPs() + [ReconcileStep(env)])
    ensures var ip, t := "192.0.2.1", Reconcile(Run(NewPool(1), TwoIPs()), env);
      ip in t.status && t.status[ip] == EVICTED_STATUS && t.wakeAt == 1 + RECONCILE_PERIOD
  {
    TwoIPsRun(env);
    TwoLooks(Run(NewPool(1), TwoIPs()), "192.0.2.1", "192.0.2.2", env);
  }

  lemma TwoIPsListed(spec: Step)
    requires spec == SpecStep(["192.0.2.1", "192.0.2.2"], 0, [])
    ensures Allowed(NewPool(1), spec)
    ensures Apply(NewPool(1), spec) == NewPool(1).(ips := ["192.0.2.1", "192.0.2.2"], dnsDirty := true)
  {
  }

  lemma RunOfTwo(s: Pool, a: Step, b: Step)
    ensures Run(s, [a]) == Apply(s, a)
    ensures AllowedRun(s, [a] + [b]) <==> Allowed(s, a) && Allowed(Apply(s, a), b)
  {
    assert [a] == [a] + [] && [b] == [b] + [];
    RunFirst(s, a, []);
    AllowedFirst(s, a, [b]);
    AllowedFirst(Apply(s, a), b, []);
  }

  lemma TwoIPsRun(env: ReconcileEnv)
    ensures AllowedRun(NewPool(1), TwoIPs() + [ReconcileStep(env)])
    ensures Run(NewPool(1), TwoIPs()) == NewPool(1).(ips := ["192.0.2.1", "192.0.2.2"], dnsDirty := true)
  {
    var spec := TwoIPs()[0];
    assert TwoIPs() == [spec];
    TwoIPsListed(spec);
    RunOfTwo(NewPool(1), spec, ReconcileStep(env));
  }

  lemma TwoLooks(s: Pool, ip: string, other: string, env: ReconcileEnv)
    requires OneNodeAnswers(env) && s == NewPool(1).(ips := [ip, other], dnsDirty := true) && ip != other && ip != ""
    ensures var t := Reconcile(s, env);
      ip in t.status && t.status[ip] == EVICTED_STATUS && t.wakeAt == 1 + RECONCILE_PERIOD
  {
    var s0 := ReconcileStart(s, env);
    assert BeforePoll(s, env) == s0;
    var u := CheckIP(s0, ip, env.status(0));
    FirstLook(s0, ip, env.status(0));
    var v := CheckIP(u, other, env.status(1));
    SecondLook(u, ip, other, env.status(1));
    TwoPolled(s0, ip, other, env.status);
    assert AssignLoop(Loop(v, [], []), 0, env.assign) == Loop(v, [], []);
    assert ReconcileToDNS(s, env) == Requeue(Loop(v, [], []));
    DNSTimer(ReconcileToDNS(s, env), env.published);
  }

  lemma TwoPolled(s: Pool, a: string, b: string, ticks: nat -> StatusTick)
    requires s.ips == [a, b] && !ticks(0).cancelled && !ticks(1).cancelled
    ensures ReconcileIPStatus(s, ticks) == CheckIP(CheckIP(s, a, ticks(0)), b, ticks(1))
  {
    var u := CheckIP(s, a, ticks(0));
    assert [a, b][1..] == [b] && [b][1..] == [];
    assert CheckIPs(s, [a, b], 0, ticks) == CheckIPs(u, [b], 1, ticks);
    assert CheckIPs(u, [b], 1, ticks) == CheckIP(u, b, ticks(1));
  }

  lemma FirstLook(s: Pool, ip: string, t: StatusTick)
    requires s.clock == 1 && s.wakeAt == 1 + RECONCILE_PERIOD && s.status == map[] && s.claims == map[] && s.active == map[]
    requires s.nodeQueue == [] && t == StatusTick(false, 0, Owner("n"), 0)
    ensures var u := CheckIP(s, ip, t);
      && u.clock == 1 && u.wakeAt == 1 + RECONCILE_PERIOD && u.status.Keys == {ip} && u.claims == map["n" := ip]
      && u.active == map[] && u.nodeQueue == []
  {
    CheckIPIs(s, ip, t);
    StatusOkTimer(See(s, ip, 0), ip, false, NEW_STATUS, "n", 0);
    StatusOkFrame(See(s, ip, 0), ip, false, NEW_STATUS, "n", 0);
  }

  lemma SecondLook(s: Pool, ip: string, other: string, t: StatusTick)
    requires s.clock == 1 && s.wakeAt == 1 + RECONCILE_PERIOD && s.status.Keys == {ip} && s.claims == map["n" := ip]
    requires s.active == map[] && s.nodeQueue == [] && t == StatusTick(false, 0, Owner("n"), 0) && ip != other && ip != ""
    ensures var u := CheckIP(s, other, t);
      u.wakeAt == 1 + RECONCILE_PERIOD && ip in u.status && u.status[ip] == EVICTED_STATUS && u.nodeQueue == []
  {
    CheckIPIs(s, other, t);
    StatusOkTimer(See(s, other, 0), other, false, NEW_STATUS, "n", 0);
    StatusOkFrame(See(s, other, 0), other, false, NEW_STATUS, "n", 0);
  }
}
