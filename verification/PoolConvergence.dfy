/** One polling pass brings the controller's records to the provider's truth. */
module PoolConvergence {
  import opened Options
  import opened RetrySchedules
  import opened OrderedQueues
  import opened PoolState
  import opened PoolAgreement
  import opened PoolConservation
  import opened PoolConfiguration
  import opened PoolDns

  /** Claims and owners are mutually inverse. */
  ghost predicate Inverse(s: Pool) {
    Agreement(s) && OwnersClaim(s.claims, s.status)
  }

  /** At most one IP per node. */
  ghost predicate OneIPPerNode(ips: seq<string>, truth: string -> string) {
    forall a, b :: a in ips && b in ips && a != b && truth(a) == truth(b) ==> truth(a) == ""
  }

  /** Every poll of the pass is live and answers with the truth. */
  ghost predicate Truthful(ips: seq<string>, ticks: nat -> StatusTick, truth: string -> string) {
    forall n: nat :: n < |ips| ==> !ticks(n).cancelled && ticks(n).answer == Owner(truth(ips[n]))
  }

  /** Reported active on an active node with a name, unassigned without an owner, and no match otherwise. */
  ghost predicate StateFits(state: IPState, active: map<string, string>, owner: string) {
    && (state == Active <==> owner != "" && owner in active && active[owner] != "")
    && (state == Unassigned <==> owner == "")
    && (state == Active || state == Unassigned || state == NoMatch)
  }

  /** The record agrees with the provider, and the reported state with the record. */
  ghost predicate Converged(s: Pool, ip: string, truth: string -> string) {
    && ip in s.status
    && s.status[ip].node == truth(ip)
    && StateFits(s.status[ip].state, s.active, truth(ip))
    && s.status[ip].message == NoMessage
  }

  /** t is s after the provider named `owner` for ip: at most one other IP, which claimed the same
      node, is put back to an immediately due status. */
  ghost predicate Corrected(s: Pool, t: Pool, ip: string, owner: string) {
    && OwnersClaim(t.claims, t.status) && t.active == s.active && t.ips == s.ips && t.clock >= s.clock
    && ip in t.status && t.status[ip] == HealthyStatus(s.active, owner, t.clock)
    && (forall x :: x in s.status && x != ip ==>
         x in t.status &&
         (t.status[x] == s.status[x] ||
          (owner != "" && s.status[x].node == owner && t.status[x] == EVICTED_STATUS)))
  }

  lemma SameOwnerCorrects(s: Pool, ip: string, known: bool, stamp: nat)
    requires OwnersClaim(s.claims, s.status) && ip in s.status
    ensures Corrected(s, StatusOk(s, ip, known, s.status[ip], s.status[ip].node, stamp), ip, s.status[ip].node)
  {
  }

  lemma NewOwnerCorrects(s: Pool, ip: string, known: bool, owner: string, stamp: nat)
    requires Inverse(s) && ip in s.status && s.status[ip].node != owner
    ensures Corrected(s, StatusOk(s, ip, known, s.status[ip], owner, stamp), ip, owner)
  {
    var s1 := s.(ipQueue := AddIf(owner == "", s.ipQueue, ip, true));
    StatusOkFrame(s, ip, known, s.status[ip], owner, stamp);
    AdoptOwners(s1, ip, known, owner, HealthyStatus(s.active, owner, s.clock + stamp));
    EvictsOnlyTheClaimant(s1, ip, known, owner);
  }

  lemma SeeKeepsInverse(s: Pool, ip: string, delay: nat)
    requires Inverse(s) && ip in s.ips
    ensures Inverse(See(s, ip, delay))
    ensures forall x :: x in s.status ==> x in See(s, ip, delay).status && See(s, ip, delay).status[x] == s.status[x]
  {
  }

  lemma TruthfulCheck(s: Pool, ip: string, owner: string, t: StatusTick)
    requires Inverse(s) && ip in s.ips && Due(s, ip, t) && t.answer == Owner(owner)
    ensures OwnersClaim(CheckIP(s, ip, t).claims, CheckIP(s, ip, t).status)
    ensures Corrected(s, CheckIP(s, ip, t), ip, owner)
  {
    SeeKeepsInverse(s, ip, t.delay);
    var s1 := See(s, ip, t.delay);
    var u := StatusOk(s1, ip, ip in s.status, s1.status[ip], owner, t.stamp);
    assert CheckIP(s, ip, t) == u;
    if s1.status[ip].node != owner {
      NewOwnerCorrects(s1, ip, ip in s.status, owner, t.stamp);
    } else {
      SameOwnerCorrects(s1, ip, ip in s.status, t.stamp);
    }
  }

  lemma EvictsOnlyTheClaimant(s: Pool, ip: string, known: bool, owner: string)
    requires ClaimsAgree(s.claims, s.status) && "" !in s.claims && ip in s.status
    ensures var u := Adopt(s, ip, known, s.status[ip].node, owner);
      forall x :: x in s.status && x != ip ==>
        x in u.status &&
        (u.status[x] == s.status[x] || (owner != "" && s.status[x].node == owner && u.status[x] == EVICTED_STATUS))
  {
  }

  /** n IPs polled: those agree with the provider, the others are still due. */
  ghost predicate PolledUpTo(s: Pool, n: nat, truth: string -> string) {
    && n <= |s.ips|
    && Inverse(s)
    && (forall i :: 0 <= i < n ==> Converged(s, s.ips[i], truth))
    && (forall i :: n <= i < |s.ips| && s.ips[i] in s.status ==> s.status[s.ips[i]].nextRetry <= s.clock)
  }

  lemma CorrectedIsPolled(s: Pool, u: Pool, n: nat, truth: string -> string)
    requires PolledUpTo(s, n, truth) && n < |s.ips| && OneIPPerNode(s.ips, truth)
    requires Corrected(s, u, s.ips[n], truth(s.ips[n])) && Inverse(u)
    requires u.status.Keys == s.status.Keys + {s.ips[n]}
    ensures PolledUpTo(u, n + 1, truth)
  {
    forall i | 0 <= i < n
      ensures Converged(u, s.ips[i], truth)
    {
      assert s.ips[i] != s.ips[n] && Converged(s, s.ips[i], truth);
    }
    forall i | n + 1 <= i < |s.ips| && s.ips[i] in u.status
      ensures u.status[s.ips[i]].nextRetry <= u.clock
    {
      assert s.ips[i] != s.ips[n];
    }
  }

  lemma PollOne(s: Pool, n: nat, t: StatusTick, truth: string -> string)
    requires PolledUpTo(s, n, truth) && n < |s.ips| && OneIPPerNode(s.ips, truth)
    requires t.answer == Owner(truth(s.ips[n]))
    ensures PolledUpTo(CheckIP(s, s.ips[n], t), n + 1, truth)
    ensures CheckIP(s, s.ips[n], t).ips == s.ips
  {
    assert Due(s, s.ips[n], t);
    CheckIPKeeps(s, s.ips[n], t);
    TruthfulCheck(s, s.ips[n], truth(s.ips[n]), t);
    CorrectedIsPolled(s, CheckIP(s, s.ips[n], t), n, truth);
  }

  lemma {:induction false} PassConverges(s: Pool, n: nat, ticks: nat -> StatusTick, truth: string -> string)
    requires PolledUpTo(s, n, truth) && OneIPPerNode(s.ips, truth) && Truthful(s.ips, ticks, truth)
    ensures var u := CheckIPs(s, s.ips[n..], n, ticks);
      u.ips == s.ips && PolledUpTo(u, |s.ips|, truth)
    decreases |s.ips| - n
  {
    if n < |s.ips| {
      PollOne(s, n, ticks(n), truth);
      PassConverges(CheckIP(s, s.ips[n], ticks(n)), n + 1, ticks, truth);
      assert s.ips[n..][1..] == s.ips[n + 1..];
    }
  }

  /** Owners on record are the provider's, and the claims are exactly their inverse. */
  ghost predicate AgreesWith(s: Pool, truth: string -> string) {
    && (forall ip :: ip in s.status <==> ip in s.ips)
    && (forall ip :: ip in s.ips ==> s.status[ip].node == truth(ip) && StateFits(s.status[ip].state, s.active, truth(ip)))
    && (forall p, ip :: ip != "" ==> (ClaimOf(s, p) == ip <==> ip in s.ips && truth(ip) == p != ""))
  }

  lemma PolledAgrees(s: Pool, truth: string -> string)
    requires PolledUpTo(s, |s.ips|, truth)
    ensures AgreesWith(s, truth)
  {
  }

  /** One-pass convergence, for any spec order and any truth, swaps and cycles of owners included. */
  lemma OnePassConverges(s: Pool, ticks: nat -> StatusTick, truth: string -> string)
    requires Inverse(s)
    requires forall ip :: ip in s.status ==> s.status[ip].nextRetry <= s.clock
    requires OneIPPerNode(s.ips, truth) && Truthful(s.ips, ticks, truth)
    ensures ReconcileIPStatus(s, ticks).ips == s.ips
    ensures Inverse(ReconcileIPStatus(s, ticks)) && AgreesWith(ReconcileIPStatus(s, ticks), truth)
  {
    assert s.ips[0..] == s.ips;
    PassConverges(s, 0, ticks, truth);
    PolledAgrees(ReconcileIPStatus(s, ticks), truth);
  }

  /** A later pass with the same truth, once everything is due again, moves no claim. */
  lemma ConvergedIsStable(s: Pool, ticks: nat -> StatusTick, truth: string -> string)
    requires Inverse(s) && AgreesWith(s, truth)
    requires forall ip :: ip in s.status ==> s.status[ip].nextRetry <= s.clock
    requires OneIPPerNode(s.ips, truth) && Truthful(s.ips, ticks, truth)
    ensures forall p :: ClaimOf(ReconcileIPStatus(s, ticks), p) == ClaimOf(s, p)
  {
    OnePassConverges(s, ticks, truth);
    var u := ReconcileIPStatus(s, ticks);
    forall p
      ensures ClaimOf(u, p) == ClaimOf(s, p)
    {
      assert ClaimOf(u, p) != "" ==> ClaimOf(s, p) == ClaimOf(u, p);
    }
  }

  // ----- what DNS gets -----

  /** The IPs that the provider has on an active node with a name, in order. */
  function OnActiveNodes(ips: seq<string>, active: map<string, string>, truth: string -> string): (r: seq<string>)
    ensures forall ip :: ip in r <==> ip in ips && truth(ip) != "" && truth(ip) in active && active[truth(ip)] != ""
  {
    if ips == [] then []
    else
      var rest := OnActiveNodes(ips[1..], active, truth);
      assert ips == [ips[0]] + ips[1..];
      if truth(ips[0]) != "" && truth(ips[0]) in active && active[truth(ips[0])] != "" then [ips[0]] + rest else rest
  }

  lemma {:induction false} ActiveAreOnActiveNodes(s: Pool, ips: seq<string>, truth: string -> string)
    requires forall ip :: ip in ips ==> ip in s.status && StateFits(s.status[ip].state, s.active, truth(ip))
    ensures ActiveIPs(s, ips) == OnActiveNodes(ips, s.active, truth)
  {
    if ips != [] {
      ActiveAreOnActiveNodes(s, ips[1..], truth);
    }
  }

  /** After the pass the active IPs are exactly those that the provider has on an active node; when DNS is due
      and the update goes through, exactly they are published, and DNS is due no more. */
  lemma PublishesTheTruth(s: Pool, ticks: nat -> StatusTick, truth: string -> string)
    requires Inverse(s)
    requires forall ip :: ip in s.status ==> s.status[ip].nextRetry <= s.clock
    requires OneIPPerNode(s.ips, truth) && Truthful(s.ips, ticks, truth)
    ensures var t, list := ReconcileIPStatus(s, ticks), OnActiveNodes(s.ips, s.active, truth);
      && ActiveIPs(t, t.ips) == list
      && (s.dns.Some? && t.dnsDirty && list != [] ==>
            ReconcileDNS(t, true) == t.(dnsDirty := false, log := t.log + [Published(s.dns.value, list)]))
  {
    OnePassConverges(s, ticks, truth);
    CheckIPsSame(s, s.ips, 0, ticks);
    var t := ReconcileIPStatus(s, ticks);
    ActiveAreOnActiveNodes(t, t.ips, truth);
    PublishesExactlyWhen(t, true);
  }
}
