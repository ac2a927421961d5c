/** What the controller publishes in DNS, and when reconcileDNS dereferences a missing status. */
module PoolDns {
  import opened Options
  import opened RetrySchedules
  import opened OrderedQueues
  import opened PoolState
  import opened PoolAgreement
  import opened PoolConservation

  /** ActiveIPs lists exactly the spec's IPs in state active, in spec order. */
  lemma {:induction false} ActiveIPsExact(s: Pool, ips: seq<string>)
    ensures forall ip :: ip in ActiveIPs(s, ips) <==> ip in ips && ip in s.status && s.status[ip].state == Active
    ensures NoDup(ips) ==> NoDup(ActiveIPs(s, ips))
    ensures Subsequence(ActiveIPs(s, ips), ips)
  {
    if ips != [] {
      assert ips == [ips[0]] + ips[1..];
      ActiveIPsExact(s, ips[1..]);
      if NoDup(ips) {
        HeadGone(ips);
      }
      if ips[0] in s.status && s.status[ips[0]].state == Active {
        assert ActiveIPs(s, ips)[1..] == ActiveIPs(s, ips[1..]);
      } else {
        SubsequenceOfTail(ActiveIPs(s, ips), ips);
      }
    }
  }

  /** a is b with some elements left out. */
  ghost predicate Subsequence(a: seq<string>, b: seq<string>) {
    a == [] || (b != [] && (if a[0] == b[0] then Subsequence(a[1..], b[1..]) else Subsequence(a, b[1..])))
  }

  lemma SubsequenceOfTail(a: seq<string>, b: seq<string>)
    requires b != [] && Subsequence(a, b[1..])
    ensures Subsequence(a, b)
    decreases |b|, 0
  {
    if a != [] && a[0] == b[0] {
      DropHead(a, b[1..]);
    }
  }

  lemma {:induction false} DropHead(a: seq<string>, b: seq<string>)
    requires a != [] && Subsequence(a, b)
    ensures Subsequence(a[1..], b)
    decreases |b|, 1
  {
    if a[0] == b[0] {
      SubsequenceOfTail(a[1..], b);
    } else {
      DropHead(a, b[1..]);
      SubsequenceOfTail(a[1..], b);
    }
  }

  /** DNS publishes only live addresses: on a conserved state, what goes out is the non-empty list of
      the spec's active IPs, in spec order, each owned by a different active node. */
  lemma PublishesLiveAddresses(s: Pool, published: bool)
    requires Conserved(s)
    ensures var t := ReconcileDNS(s, published);
      t.log == s.log ||
      exists list ::
        && s.dns.Some? && t == s.(dnsDirty := false, log := s.log + [Published(s.dns.value, list)])
        && list != [] && NoDup(list) && Subsequence(list, s.ips)
        && (forall ip :: ip in list <==> ip in s.status && s.status[ip].state == Active)
        && (forall ip :: ip in list ==> s.status[ip].node in s.active && ClaimOf(s, s.status[ip].node) == ip)
  {
    var list := ActiveIPs(s, s.ips);
    ActiveIPsExact(s, s.ips);
    if ReconcileDNS(s, published).log != s.log {
      assert ReconcileDNS(s, published) == s.(dnsDirty := false, log := s.log + [Published(s.dns.value, list)]);
    }
  }

  /** An update is made, and makes DNS due no more, exactly when a record is wanted, DNS is due, some spec IP is
      active and the provider goes along; it is for the record wanted, with just the active IPs. */
  lemma PublishesExactlyWhen(s: Pool, published: bool)
    requires forall ip :: ip in s.ips ==> ip in s.status
    ensures var goes := s.dns.Some? && s.dnsDirty && published && exists ip :: ip in s.ips && s.status[ip].state == Active;
      ReconcileDNS(s, published) ==
        if goes then s.(dnsDirty := false, log := s.log + [Published(s.dns.value, ActiveIPs(s, s.ips))]) else s
  {
    ActiveIPsExact(s, s.ips);
    SomeMember(ActiveIPs(s, s.ips));
  }

  /** Over whole runs: what the next pass publishes after a run with a faithful provider is a non-empty,
      duplicate-free list of addresses that are each on an active node at that moment. */
  lemma PublishesLiveOverRuns(clock: Time, steps: seq<Step>, env: ReconcileEnv)
    requires clock > 0 && FaithfulRun(NewPool(clock), steps) && !Run(NewPool(clock), steps).crashed
    requires FaithfulRun(Run(NewPool(clock), steps), [ReconcileStep(env)])
    ensures var s := Run(NewPool(clock), steps);
      var u, t := ReconcileToDNS(s, env), Reconcile(s, env);
      t.log == u.log ||
      exists list ::
        && u.dns.Some? && t.log == u.log + [Published(u.dns.value, list)] && list != [] && NoDup(list) && Subsequence(list, u.ips)
        && forall ip :: ip in list ==>
             ip in u.status && u.status[ip].node in u.active && ClaimOf(u, u.status[ip].node) == ip
  {
    var s := Run(NewPool(clock), steps);
    FaithfulRunsConserve(clock, steps);
    assert s == s.(crashed := false);
    FaithfulRunIsAcceptable(s, [ReconcileStep(env)]);
    ReconcileToDNSConserves(s, env);
    ReconcileToDNSKeeps(s, env);
    PublishesLiveAddresses(ReconcileToDNS(s, env), env.published);
  }

  /** Nothing goes out, and the zone keeps what it has, while no IP is active. */
  lemma NothingActiveNothingPublished(s: Pool, published: bool)
    requires Agreement(s) && forall ip :: ip in s.status ==> s.status[ip].state != Active
    ensures ReconcileDNS(s, published).log == s.log && ReconcileDNS(s, published).dnsDirty == s.dnsDirty
  {
    ActiveIPsExact(s, s.ips);
    SomeMember(ActiveIPs(s, s.ips));
  }

  // ----- the crash -----

  /** The poll reaches its n-th IP: none of the context tests up to it stops the loop. */
  ghost predicate Reached(k: nat, n: nat, ticks: nat -> StatusTick) {
    forall j :: k <= j <= k + n ==> !ticks(j).cancelled
  }

  /** x is one of the IPs and the poll reaches it. */
  ghost predicate Polled(x: string, ips: seq<string>, k: nat, ticks: nat -> StatusTick) {
    exists n :: 0 <= n < |ips| && ips[n] == x && Reached(k, n, ticks)
  }

  lemma PolledFirst(x: string, ips: seq<string>, k: nat, ticks: nat -> StatusTick)
    ensures Polled(x, ips, k, ticks) <==>
      ips != [] && !ticks(k).cancelled && (x == ips[0] || Polled(x, ips[1..], k + 1, ticks))
  {
    if Polled(x, ips, k, ticks) {
      var n :| 0 <= n < |ips| && ips[n] == x && Reached(k, n, ticks);
      assert n > 0 ==> ips[1..][n - 1] == x && Reached(k + 1, n - 1, ticks);
    }
    if ips != [] && !ticks(k).cancelled {
      if x == ips[0] {
        assert ips[0] == x && Reached(k, 0, ticks);
      } else if Polled(x, ips[1..], k + 1, ticks) {
        var n :| 0 <= n < |ips[1..]| && ips[1..][n] == x && Reached(k + 1, n, ticks);
        assert ips[n + 1] == x && Reached(k, n + 1, ticks);
      }
    }
  }

  lemma {:induction false} PolledKeys(s: Pool, ips: seq<string>, k: nat, ticks: nat -> StatusTick)
    requires Agreement(s) && forall ip :: ip in ips ==> ip in s.ips
    ensures CheckIPs(s, ips, k, ticks).ips == s.ips
    ensures forall x :: x in CheckIPs(s, ips, k, ticks).status <==> x in s.status || Polled(x, ips, k, ticks)
    decreases |ips|
  {
    if ips != [] && !ticks(k).cancelled {
      CheckIPKeeps(s, ips[0], ticks(k));
      PolledKeys(CheckIP(s, ips[0], ticks(k)), ips[1..], k + 1, ticks);
    }
    forall x
      ensures x in CheckIPs(s, ips, k, ticks).status <==> x in s.status || Polled(x, ips, k, ticks)
    {
      PolledFirst(x, ips, k, ticks);
    }
  }

  lemma TryHeadsFrame(l: Loop, t: AssignTick)
    requires l.s.ipQueue != [] && l.s.nodeQueue != [] && l.s.ipQueue[0] in l.s.status
    ensures SameForDns(l.s, TryHeads(l, t).s)
  {
    if !HeadIPWaits(l.s) && !HeadNodeWaits(l.s) {
      var s2 := l.s.(ipQueue := l.s.ipQueue[1..], nodeQueue := l.s.nodeQueue[1..]);
      AttemptFrame(s2, l.s.ipQueue[0], l.s.nodeQueue[0], t);
    }
  }

  /** What the assignment loop leaves alone. */
  ghost predicate SameForDns(s: Pool, t: Pool) {
    t.ips == s.ips && t.status.Keys == s.status.Keys && t.dns == s.dns && (s.dnsDirty ==> t.dnsDirty)
  }

  lemma AssignmentFrame(l: Loop, k: nat, ticks: nat -> AssignTick)
    requires LoopAgreement(l)
    ensures SameForDns(l.s, AssignLoop(l, k, ticks).s)
  {
    var inv := (u: Loop) => LoopAgreement(u) && SameForDns(l.s, u.s);
    forall u: Loop, delay: nat | inv(u)
      ensures inv(u.(s := Tick(u.s, delay)))
    {
      LoopTicks(u, delay);
    }
    forall u: Loop | inv(u)
      ensures inv(u.(s := WakeBy(u.s, u.s.nextAssignment)))
    {
      LoopTicks(u, 0);
    }
    forall u: Loop, t: AssignTick | inv(u) && TakesTurn(u)
      ensures inv(TryHeads(u, t))
    {
      TryHeadsKeeps(u, t);
      TryHeadsFrame(u, t);
    }
    AssignLoopKeepsAny(inv, l, k, ticks);
  }

  /** After the poll, the IPs without status are those without one before that the poll did not reach. */
  lemma MissingAfterPoll(s: Pool, ticks: nat -> StatusTick, n: nat)
    requires Agreement(s) && n < |s.ips|
    ensures s.ips[n] !in ReconcileIPStatus(s, ticks).status <==> s.ips[n] !in s.status && !Reached(0, n, ticks)
  {
    PolledKeys(s, s.ips, 0, ticks);
    if s.ips[n] in ReconcileIPStatus(s, ticks).status && s.ips[n] !in s.status {
      var m :| 0 <= m < |s.ips| && s.ips[m] == s.ips[n] && Reached(0, m, ticks);
      assert m == n;
    }
  }

  /** The rest of the pass adds no status and takes none away. */
  lemma SameAfterPoll(s: Pool, env: ReconcileEnv)
    requires Agreement(s) && Allowed(s, ReconcileStep(env))
    ensures var s2, t := BeforePoll(s, env), ReconcileToDNS(s, env);
      Agreement(s2) && t.ips == s2.ips && t.status.Keys == ReconcileIPStatus(s2, env.status).status.Keys
  {
    var s0 := ReconcileStart(s, env);
    assert Agreement(s0);
    DesiredIPsKeeps(s0, env.create);
    PendingIPsKeeps(ReconcileDesiredIPs(s0, env.create), env.pendingCancelled, env.persisted);
    var s2 := BeforePoll(s, env);
    PolledKeys(s2, s2.ips, 0, env.status);
    CheckIPsKeeps(s2, s2.ips, 0, env.status);
    AssignmentFrame(Loop(ReconcileIPStatus(s2, env.status), [], []), 0, env.assign);
  }

  /** A reconcile pass crashes exactly when it goes on to update DNS although the context was
      cancelled before the poll reached an IP that has no status yet. */
  lemma CrashesExactlyWhen(s: Pool, env: ReconcileEnv)
    requires Agreement(s) && Allowed(s, ReconcileStep(env))
    ensures var s2 := BeforePoll(s, env);
      Reconcile(s, env).crashed <==>
      && !DnsIdle(ReconcileToDNS(s, env))
      && exists n :: 0 <= n < |s2.ips| && s2.ips[n] !in s2.status && !Reached(0, n, env.status)
  {
    ReconcileToDNSKeeps(s, env);
    SameAfterPoll(s, env);
    var s2, t := BeforePoll(s, env), ReconcileToDNS(s, env);
    forall n | 0 <= n < |s2.ips|
      ensures t.ips[n] !in t.status <==> s2.ips[n] !in s2.status && !Reached(0, n, env.status)
    {
      MissingAfterPoll(s2, env.status, n);
    }
  }

  /** So a pass whose poll is not cut short never crashes. */
  lemma UncancelledPassSurvives(s: Pool, env: ReconcileEnv)
    requires Agreement(s) && Allowed(s, ReconcileStep(env))
    requires forall k :: !env.status(k).cancelled
    ensures Agreement(Reconcile(s, env))
  {
    CrashesExactlyWhen(s, env);
    ApplyKeeps(s, ReconcileStep(env));
    var t := Reconcile(s, env);
    assert t.(crashed := false) == t;
  }

  /** The crash is reachable: a new pool with one IP and a DNS record, cancelled right away. */
  lemma CancelledStartCrashes(clock: Time, dns: DnsSpec, env: ReconcileEnv)
    requires clock > 0 && dns.recordName != "" && dns.zone != ""
    requires env.create.cancelled && env.pendingCancelled && forall k :: env.status(k).cancelled
    ensures var steps := [SpecStep(["192.0.2.1"], 0, []), DnsStep(Some(dns)), ReconcileStep(env)];
      AllowedRun(NewPool(clock), steps) && Run(NewPool(clock), steps).crashed
  {
    var spec, record, pass := SpecStep(["192.0.2.1"], 0, []), DnsStep(Some(dns)), ReconcileStep(env);
    var s0 := NewPool(clock);
    var s1 := Apply(s0, spec);
    assert s1 == s0.(ips := ["192.0.2.1"], dnsDirty := true);
    var s2 := Apply(s1, record);
    var s3 := Apply(s2, pass);
    assert s2.ips == ["192.0.2.1"] && s2.dns.Some? && s2.dnsDirty && s2.status == map[] && !s2.crashed;
    assert ReconcileToDNS(s2, env) == ReconcileStart(s2, env);
    assert s2.ips[0] !in s2.status;
    RunOfThree(s0, spec, record, pass);
  }
}
