/** Created IPs are conserved: nothing CreateIP returned is lost, repeated or created in excess. */
module PoolCreation {
  import opened RetrySchedules
  import opened OrderedQueues
  import opened PoolState
  import opened PoolAgreement

  /** The addresses CreateIP returned, in order. */
  function CreatedBy(log: seq<Call>): seq<string> {
    if log == [] then []
    else CreatedBy(log[..|log| - 1]) + if log[|log| - 1].Created? then [log[|log| - 1].ip] else []
  }

  /** The addresses accepted by the spec update, in order. */
  function PersistedBy(log: seq<Call>): seq<string> {
    if log == [] then []
    else PersistedBy(log[..|log| - 1]) + if log[|log| - 1].Persisted? then log[|log| - 1].ips else []
  }

  lemma OneMore(log: seq<Call>, c: Call)
    ensures CreatedBy(log + [c]) == CreatedBy(log) + if c.Created? then [c.ip] else []
    ensures PersistedBy(log + [c]) == PersistedBy(log) + if c.Persisted? then c.ips else []
  {
  }

  /** Nothing but this: what was created is what was persisted, then what is pending. */
  ghost predicate CreationKept(s: Pool) {
    CreatedBy(s.log) == PersistedBy(s.log) + s.pendingIPs
  }

  function Held(s: Pool): nat {
    |s.ips| + |s.pendingIPs|
  }

  /** A step that neither creates nor persists. */
  ghost predicate Quiet(s: Pool, t: Pool) {
    && t.pendingIPs == s.pendingIPs && t.ips == s.ips && t.desiredIPs == s.desiredIPs
    && s.log <= t.log && forall i :: |s.log| <= i < |t.log| ==> !t.log[i].Created? && !t.log[i].Persisted?
  }

  lemma {:induction false} QuietLog(log: seq<Call>, t: seq<Call>)
    requires log <= t && forall i :: |log| <= i < |t| ==> !t[i].Created? && !t[i].Persisted?
    ensures CreatedBy(t) == CreatedBy(log) && PersistedBy(t) == PersistedBy(log)
    decreases |t|
  {
    if |t| > |log| {
      assert t == t[..|t| - 1] + [t[|t| - 1]];
      QuietLog(log, t[..|t| - 1]);
      OneMore(t[..|t| - 1], t[|t| - 1]);
    } else {
      assert t == log;
    }
  }

  // ----- the quiet steps -----

  lemma {:induction false} NodesQuiet(s: Pool, visits: seq<Visit>)
    ensures Quiet(s, DisableNodes(s, visits)) && Quiet(s, EnableNodes(s, visits))
    decreases |visits|
  {
    if visits != [] {
      assert Quiet(s, DisableNode(s, visits[0])) && Quiet(s, EnableNode(s, visits[0]));
      NodesQuiet(DisableNode(s, visits[0]), visits[1..]);
      NodesQuiet(EnableNode(s, visits[0]), visits[1..]);
    }
  }

  lemma StatusOkQuiet(s: Pool, ip: string, known: bool, st: IpStatus, owner: string, stamp: nat)
    ensures Quiet(s, StatusOk(s, ip, known, st, owner, stamp))
  {
    var s1 := s.(ipQueue := AddIf(owner == "", s.ipQueue, ip, true));
    assert Quiet(s, Adopt(s1, ip, known, st.node, owner));
  }

  lemma StatusErrorQuiet(s: Pool, ip: string, st: IpStatus, err: ProviderError, stamp: nat)
    ensures Quiet(s, StatusError(s, ip, st, err, stamp))
  {
  }

  lemma CheckIPQuiet(s: Pool, ip: string, t: StatusTick)
    ensures Quiet(s, CheckIP(s, ip, t))
  {
    CheckIPIs(s, ip, t);
    var s1 := See(s, ip, t.delay);
    if t.answer.Failed? {
      StatusErrorQuiet(s1, ip, StatusFor(s, ip), t.answer.error, t.stamp);
    } else {
      StatusOkQuiet(s1, ip, ip in s.status, StatusFor(s, ip), t.answer.node, t.stamp);
    }
  }

  lemma {:induction false} CheckIPsQuiet(s: Pool, ips: seq<string>, k: nat, ticks: nat -> StatusTick)
    ensures Quiet(s, CheckIPs(s, ips, k, ticks))
    decreases |ips|
  {
    if ips != [] && !ticks(k).cancelled {
      CheckIPQuiet(s, ips[0], ticks(k));
      CheckIPsQuiet(CheckIP(s, ips[0], ticks(k)), ips[1..], k + 1, ticks);
    }
  }

  lemma AttemptQuiet(s: Pool, ip: string, node: string, t: AssignTick)
    requires ip in s.status
    ensures Quiet(s, Attempt(s, ip, node, t))
  {
  }

  lemma TryHeadsQuiet(l: Loop, t: AssignTick)
    requires l.s.ipQueue != [] && l.s.nodeQueue != [] && l.s.ipQueue[0] in l.s.status
    ensures Quiet(l.s, TryHeads(l, t).s)
  {
    if !HeadIPWaits(l.s) && !HeadNodeWaits(l.s) {
      var s2 := l.s.(ipQueue := l.s.ipQueue[1..], nodeQueue := l.s.nodeQueue[1..]);
      AttemptQuiet(s2, l.s.ipQueue[0], l.s.nodeQueue[0], t);
    }
  }

  lemma {:induction false} AssignLoopQuiet(l: Loop, k: nat, ticks: nat -> AssignTick)
    ensures Quiet(l.s, AssignLoop(l, k, ticks).s)
    decreases |l.s.ipQueue|
  {
    if l.s.ipQueue != [] && l.s.nodeQueue != [] && !ticks(k).cancelled {
      var s := Tick(l.s, ticks(k).delay);
      if !CoolingOff(s) && s.ipQueue[0] in s.status {
        TryHeadsQuiet(l.(s := s), ticks(k));
        var u := TryHeads(l.(s := s), ticks(k));
        AssignLoopQuiet(u, k + 1, ticks);
        assert AssignLoop(l, k, ticks) == AssignLoop(u, k + 1, ticks);
      }
    }
  }

  lemma {:induction false} ForgetQuiet(s: Pool, wanted: seq<string>, order: seq<string>)
    ensures Quiet(s, ForgetUnwanted(s, wanted, order))
    decreases |order|
  {
    if order != [] {
      var s1 := if order[0] in s.status && order[0] !in wanted then Forget(s, order[0]) else s;
      assert Quiet(s, s1);
      ForgetQuiet(s1, wanted, order[1..]);
    }
  }

  // ----- creating and persisting -----

  /** From s to t some addresses were created and appended to those pending, up to the target. */
  ghost predicate CreatedTo(s: Pool, t: Pool) {
    && CreationKept(t) && t.ips == s.ips && t.desiredIPs == s.desiredIPs && s.pendingIPs <= t.pendingIPs
    && |CreatedBy(t.log)| - |CreatedBy(s.log)| == Held(t) - Held(s)
    && (if Held(s) >= s.desiredIPs then t == s else Held(t) <= s.desiredIPs)
  }

  lemma OneCreated(s: Pool, s1: Pool, ip: string)
    requires CreationKept(s) && s1.pendingIPs == s.pendingIPs + [ip] && s1.log == s.log + [Created(ip)]
    ensures CreationKept(s1) && |CreatedBy(s1.log)| == |CreatedBy(s.log)| + 1
  {
    OneMore(s.log, Created(ip));
    assert PersistedBy(s.log) + (s.pendingIPs + [ip]) == PersistedBy(s.log) + s.pendingIPs + [ip];
  }

  lemma {:induction false} CreateIPsConserve(s: Pool, k: nat, results: nat -> CreateResult)
    requires CreationKept(s)
    ensures CreatedTo(s, CreateIPs(s, k, results))
    decreases s.desiredIPs - |s.ips| - |s.pendingIPs|
  {
    if Held(s) < s.desiredIPs && results(k).NewIP? {
      var ip := results(k).ip;
      var s1 := s.(dnsDirty := true, pendingIPs := s.pendingIPs + [ip], createAttempts := 0,
                   log := s.log + [Created(ip)]);
      OneCreated(s, s1, ip);
      CreateIPsConserve(s1, k + 1, results);
      assert CreateIPs(s, k, results) == CreateIPs(s1, k + 1, results);
    }
  }

  /** The addresses that the first n calls return. */
  function Returned(k: nat, n: nat, results: nat -> CreateResult): seq<string>
    requires forall j :: k <= j < k + n ==> results(j).NewIP?
  {
    seq(n, j requires 0 <= j < n => results(k + j).ip)
  }

  /** From s to t, n calls created an IP each, and then the target was reached or the next call failed. */
  ghost predicate CreatesUpTo(s: Pool, t: Pool, k: nat, n: nat, results: nat -> CreateResult) {
    && (forall j :: k <= j < k + n ==> results(j).NewIP?)
    && t.pendingIPs == s.pendingIPs + Returned(k, n, results) && t.ips == s.ips && t.desiredIPs == s.desiredIPs
    && (Held(t) < s.desiredIPs ==> results(k + n).NoIP?)
    && (n > 0 ==> Held(t) <= s.desiredIPs)
  }

  lemma OneMoreReturned(s: Pool, s1: Pool, t: Pool, k: nat, n: nat, results: nat -> CreateResult)
    requires results(k).NewIP? && CreatesUpTo(s1, t, k + 1, n, results) && Held(s) < s.desiredIPs
    requires s1.pendingIPs == s.pendingIPs + [results(k).ip] && s1.ips == s.ips && s1.desiredIPs == s.desiredIPs
    ensures CreatesUpTo(s, t, k, n + 1, results)
  {
    assert Returned(k, n + 1, results) == [results(k).ip] + Returned(k + 1, n, results);
    assert s.pendingIPs + ([results(k).ip] + Returned(k + 1, n, results)) == s1.pendingIPs + Returned(k + 1, n, results);
  }

  lemma {:induction false} CreateIPsCreate(s: Pool, k: nat, results: nat -> CreateResult) returns (n: nat)
    ensures CreatesUpTo(s, CreateIPs(s, k, results), k, n, results)
    decreases s.desiredIPs - |s.ips| - |s.pendingIPs|
  {
    if Held(s) < s.desiredIPs && results(k).NewIP? {
      var ip := results(k).ip;
      var s1 := s.(dnsDirty := true, pendingIPs := s.pendingIPs + [ip], createAttempts := 0,
                   log := s.log + [Created(ip)]);
      var m := CreateIPsCreate(s1, k + 1, results);
      OneMoreReturned(s, s1, CreateIPs(s1, k + 1, results), k, m, results);
      n := m + 1;
    } else {
      n := 0;
      assert Returned(k, 0, results) == [];
      assert s.pendingIPs + [] == s.pendingIPs;
    }
  }

  /** Missing IPs are created: unless it is cancelled or a creation is in backoff, a pass ends with the larger
      of the target and what was held, or right after a failed call; what the calls before it returned is
      pending, in order. Otherwise it creates nothing. */
  lemma CreatesAllMissing(s: Pool, env: CreateEnv)
    ensures var t, n := ReconcileDesiredIPs(s, env), Held(ReconcileDesiredIPs(s, env)) - Held(s);
      && n >= 0 && (forall j :: 0 <= j < n ==> env.results(j).NewIP?)
      && t.pendingIPs == s.pendingIPs + Returned(0, n, env.results)
      && (!env.cancelled && s.createNextRetry <= s.clock + env.delay ==>
            Held(t) == (if Held(s) >= s.desiredIPs then Held(s) else s.desiredIPs)
            || (Held(t) < s.desiredIPs && env.results(n).NoIP?))
      && (env.cancelled || s.createNextRetry > s.clock + env.delay ==> n == 0)
  {
    var s1 := Tick(s, env.delay);
    assert Returned(0, 0, env.results) == [] && s.pendingIPs + [] == s.pendingIPs;
    if !env.cancelled && s1.createNextRetry <= s1.clock {
      var n := CreateIPsCreate(s1, 0, env.results);
      assert |Returned(0, n, env.results)| == n;
    }
  }

  lemma {:induction false} AdoptPendingLog(s: Pool, pending: seq<string>)
    ensures var t := AdoptPending(s, pending);
      t.log == s.log && t.desiredIPs == s.desiredIPs
    decreases |pending|
  {
    if pending != [] {
      AdoptPendingLog(AdoptOne(s, pending[0]), pending[1..]);
    }
  }

  /** Persisting moves all pending addresses to the spec, in order; when it fails, nothing changes. */
  lemma PersistConserves(s: Pool, cancelled: bool, persisted: bool)
    requires CreationKept(s)
    ensures var t := ReconcilePendingIPs(s, cancelled, persisted);
      && CreationKept(t) && t.ips + t.pendingIPs == s.ips + s.pendingIPs && t.desiredIPs == s.desiredIPs
      && CreatedBy(t.log) == CreatedBy(s.log)
      && (cancelled || !persisted ==> t == s)
      && (!cancelled && persisted ==> t.ips == s.ips + s.pendingIPs && t.pendingIPs == [])
  {
    if !cancelled && s.pendingIPs != [] && persisted {
      var c := Persisted(s.pendingIPs);
      OneMore(s.log, c);
      AdoptPendingLog(s.(dnsDirty := true, log := s.log + [c]), s.pendingIPs);
    }
  }

  // ----- runs -----

  /** From s to t, without a spec change: as many addresses were created as are held more, and the
      target is not overshot. */
  ghost predicate CreatedWithin(s: Pool, t: Pool) {
    && CreationKept(t)
    && t.desiredIPs == s.desiredIPs
    && |CreatedBy(t.log)| - |CreatedBy(s.log)| == Held(t) - Held(s)
    && Held(s) <= Held(t) <= (if Held(s) >= s.desiredIPs then Held(s) else s.desiredIPs)
  }

  lemma QuietWithin(s: Pool, t: Pool)
    requires CreationKept(s) && Quiet(s, t)
    ensures CreatedWithin(s, t)
  {
    QuietLog(s.log, t.log);
  }

  lemma WithinTrans(s: Pool, t: Pool, u: Pool)
    requires CreatedWithin(s, t) && CreatedWithin(t, u)
    ensures CreatedWithin(s, u)
  {
  }

  lemma DesiredIPsWithin(s: Pool, env: CreateEnv)
    requires CreationKept(s)
    ensures CreatedWithin(s, ReconcileDesiredIPs(s, env))
  {
    var s1 := Tick(s, env.delay);
    QuietWithin(s, s1);
    if env.cancelled || s1.createNextRetry > s1.clock {
      QuietWithin(s, ReconcileDesiredIPs(s, env));
    } else {
      CreateIPsConserve(s1, 0, env.results);
      CreatedToWithin(s1, CreateIPs(s1, 0, env.results));
      WithinTrans(s, s1, CreateIPs(s1, 0, env.results));
    }
  }

  lemma CreatedToWithin(s: Pool, t: Pool)
    requires CreatedTo(s, t)
    ensures CreatedWithin(s, t)
  {
  }

  /** The part of a pass after the pending IPs were dealt with. */
  function Rest(s: Pool, env: ReconcileEnv): Pool {
    var t := ReconcileAssignment(ReconcileIPStatus(s, env.status), env.assign);
    if t.crashed then t else ReconcileDNS(t, env.published)
  }

  lemma QuietTrans(s: Pool, t: Pool, u: Pool)
    requires Quiet(s, t) && Quiet(t, u)
    ensures Quiet(s, u)
  {
  }

  lemma AssignmentQuiet(s: Pool, ticks: nat -> AssignTick)
    ensures Quiet(s, ReconcileAssignment(s, ticks))
  {
    AssignLoopQuiet(Loop(s, [], []), 0, ticks);
  }

  lemma DNSQuiet(s: Pool, published: bool)
    ensures Quiet(s, ReconcileDNS(s, published))
  {
  }

  lemma RestQuiet(s: Pool, env: ReconcileEnv)
    ensures Quiet(s, Rest(s, env))
  {
    CheckIPsQuiet(s, s.ips, 0, env.status);
    var s3 := ReconcileIPStatus(s, env.status);
    AssignmentQuiet(s3, env.assign);
    var s4 := ReconcileAssignment(s3, env.assign);
    QuietTrans(s, s3, s4);
    DNSQuiet(s4, env.published);
    QuietTrans(s, s4, Rest(s, env));
  }

  lemma PersistWithin(s: Pool, cancelled: bool, persisted: bool)
    requires CreationKept(s)
    ensures CreatedWithin(s, ReconcilePendingIPs(s, cancelled, persisted))
  {
    PersistConserves(s, cancelled, persisted);
    var t := ReconcilePendingIPs(s, cancelled, persisted);
    assert |t.ips + t.pendingIPs| == Held(t) && |s.ips + s.pendingIPs| == Held(s);
  }

  lemma ReconcileWithin(s: Pool, env: ReconcileEnv)
    requires CreationKept(s)
    ensures CreatedWithin(s, Reconcile(s, env))
  {
    var s0 := ReconcileStart(s, env);
    QuietWithin(s, s0);
    DesiredIPsWithin(s0, env.create);
    var s1 := ReconcileDesiredIPs(s0, env.create);
    WithinTrans(s, s0, s1);
    PersistWithin(s1, env.pendingCancelled, env.persisted);
    var s2 := ReconcilePendingIPs(s1, env.pendingCancelled, env.persisted);
    WithinTrans(s, s1, s2);
    RestQuiet(s2, env);
    QuietWithin(s2, Rest(s2, env));
    assert Reconcile(s, env) == Rest(s2, env);
    WithinTrans(s, s2, Rest(s2, env));
  }

  lemma ApplyWithin(s: Pool, step: Step)
    requires CreationKept(s) && !step.SpecStep?
    ensures CreatedWithin(s, Apply(s, step))
  {
    if step.ReconcileStep? && !s.crashed {
      ReconcileWithin(s, step.env);
    } else {
      match step {
        case DisableStep(visits) => NodesQuiet(s, visits);
        case EnableStep(visits) => NodesQuiet(s, visits);
        case _ =>
      }
      QuietWithin(s, Apply(s, step));
    }
  }

  lemma SpecConserves(s: Pool, ips: seq<string>, desiredIPs: nat, order: seq<string>)
    requires CreationKept(s)
    ensures CreationKept(UpdateIPs(s, ips, desiredIPs, order))
    ensures UpdateIPs(s, ips, desiredIPs, order).pendingIPs == s.pendingIPs
  {
    ForgetQuiet(s.(dnsDirty := true), Enabled(ips, desiredIPs), order);
    QuietLog(s.log, UpdateIPs(s, ips, desiredIPs, order).log);
  }

  /** Over any run, the addresses CreateIP returned are, in order, those accepted by the spec update
      followed by those pending. */
  lemma {:induction false} CreatedOverRuns(s: Pool, steps: seq<Step>)
    requires CreationKept(s)
    ensures CreationKept(Run(s, steps))
    decreases |steps|
  {
    if steps != [] {
      if steps[0].SpecStep? {
        SpecConserves(s, steps[0].ips, steps[0].desiredIPs, steps[0].order);
      } else {
        ApplyWithin(s, steps[0]);
      }
      CreatedOverRuns(Apply(s, steps[0]), steps[1..]);
    }
  }

  /** Between spec changes, every address created is still held, and their number never exceeds the
      larger of the target and what was held at the start, however often persisting fails. */
  lemma {:induction false} NoExcessBetweenSpecChanges(s: Pool, steps: seq<Step>)
    requires CreationKept(s) && forall step :: step in steps ==> !step.SpecStep?
    ensures CreatedWithin(s, Run(s, steps))
    decreases |steps|
  {
    if steps != [] {
      assert steps[0] in steps;
      ApplyWithin(s, steps[0]);
      NoExcessBetweenSpecChanges(Apply(s, steps[0]), steps[1..]);
      WithinTrans(s, Apply(s, steps[0]), Run(s, steps));
    }
  }
}
