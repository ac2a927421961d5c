/** The two work queues: who goes to the head, who to the back, and which pair is called first. */
module PoolQueues {
  import opened Options
  import opened RetrySchedules
  import opened OrderedQueues
  import opened PoolState
  import opened PoolAgreement
  import opened PoolConservation
  import opened PoolCreation

  // ----- positions -----

  ghost predicate Before(q: seq<string>, a: string, b: string) {
    exists i, j :: 0 <= i < j < |q| && q[i] == a && q[j] == b
  }

  lemma BeforeInTail(v: string, q: seq<string>, a: string, b: string)
    ensures Before([v] + q, a, b) <==> (a == v && b in q) || Before(q, a, b)
  {
    var r := [v] + q;
    if i, j :| 0 <= i < j < |r| && r[i] == a && r[j] == b {
      assert r[j] == q[j - 1] && (i > 0 ==> r[i] == q[i - 1]);
    }
    if a == v && b in q {
      var j :| 0 <= j < |q| && q[j] == b;
      assert r[0] == a && r[j + 1] == b;
    }
    if i, j :| 0 <= i < j < |q| && q[i] == a && q[j] == b {
      assert r[i + 1] == a && r[j + 1] == b;
    }
  }

  lemma {:induction false} BeforeWithout(q: seq<string>, v: string, a: string, b: string)
    ensures Before(Without(q, v), a, b) <==> a != v && b != v && Before(q, a, b)
  {
    if q != [] {
      assert q == [q[0]] + q[1..];
      BeforeWithout(q[1..], v, a, b);
      BeforeInTail(q[0], q[1..], a, b);
      if q[0] != v {
        BeforeInTail(q[0], Without(q[1..], v), a, b);
      }
    }
  }

  /** Who is added at the front stands before all others, which keep their order. */
  lemma BeforeIncluding(q: seq<string>, v: string, a: string, b: string)
    ensures Before(Including(q, v, true), a, b) <==>
      if a == v then b in q && b != v else b != v && Before(q, a, b)
  {
    BeforeInTail(v, Without(q, v), a, b);
    BeforeWithout(q, v, a, b);
  }

  // ----- nodes that lose their IP to a spec change -----

  /** An active node owns an IP that the new spec leaves out. */
  ghost predicate Loses(s: Pool, wanted: seq<string>, order: seq<string>, p: string) {
    p in s.active && exists i :: 0 <= i < |order| && order[i] in s.status && order[i] !in wanted && s.status[order[i]].node == p
  }

  lemma LosesFirst(s: Pool, wanted: seq<string>, order: seq<string>, p: string)
    requires order != [] && NoDup(order) && "" !in s.active
    ensures var ip := order[0];
      var leaves := ip in s.status && ip !in wanted;
      Loses(s, wanted, order, p) <==>
        || (leaves && p in s.active && s.status[ip].node == p)
        || Loses(if leaves then Forget(s, ip) else s, wanted, order[1..], p)
  {
    var s1 := if order[0] in s.status && order[0] !in wanted then Forget(s, order[0]) else s;
    if Loses(s, wanted, order, p) {
      var i :| 0 <= i < |order| && order[i] in s.status && order[i] !in wanted && s.status[order[i]].node == p;
      assert i > 0 ==> order[1..][i - 1] == order[i] && order[i] != order[0];
    }
    if Loses(s1, wanted, order[1..], p) {
      var i :| 0 <= i < |order[1..]| && order[1..][i] in s1.status && order[1..][i] !in wanted && s1.status[order[1..][i]].node == p;
      assert order[i + 1] == order[1..][i] && order[i + 1] != order[0];
    }
  }

  /** b is queued already, or lost its IP; those who lost theirs go first, the others keep their order. */
  ghost predicate LosersFirst(before: seq<string>, after: seq<string>, a: string, b: string, aLoses: bool, bLoses: bool) {
    && (b in after <==> b in before || bLoses)
    && (!bLoses && b in before ==> (Before(after, a, b) <==> aLoses || Before(before, a, b)))
    && (bLoses && !aLoses ==> !Before(after, a, b))
  }

  lemma ForgetQueues(s: Pool, ip: string, a: string, b: string)
    requires ip in s.status && "" !in s.active
    ensures var node := s.status[ip].node;
      LosersFirst(s.nodeQueue, Forget(s, ip).nodeQueue, a, b, a == node && a in s.active, b == node && b in s.active)
  {
    BeforeIncluding(s.nodeQueue, s.status[ip].node, a, b);
  }

  lemma {:induction false} LosersGoFirst(s: Pool, wanted: seq<string>, order: seq<string>, a: string, b: string)
    requires NoDup(order) && "" !in s.active
    ensures LosersFirst(s.nodeQueue, ForgetUnwanted(s, wanted, order).nodeQueue, a, b,
                        Loses(s, wanted, order, a), Loses(s, wanted, order, b))
    decreases |order|
  {
    if order != [] {
      var ip := order[0];
      LosesFirst(s, wanted, order, a);
      LosesFirst(s, wanted, order, b);
      if ip in s.status && ip !in wanted {
        ForgetQueues(s, ip, a, b);
        LosersGoFirst(Forget(s, ip), wanted, order[1..], a, b);
      } else {
        LosersGoFirst(s, wanted, order[1..], a, b);
      }
    }
  }

  /** From s to t an active node loses its IP. */
  ghost predicate LosesIP(s: Pool, t: Pool, p: string) {
    p in s.active && exists ip :: ip in s.status && ip !in t.status && s.status[ip].node == p
  }

  /** A spec change queues just the active nodes whose IPs it removes, ahead of all others, which keep their order. */
  lemma LostNodesGoFirst(s: Pool, ips: seq<string>, desiredIPs: nat, order: seq<string>, a: string, b: string)
    requires Agreement(s) && IterationOrder(order, s.status.Keys) && SpecAllowed(s, ips)
    ensures var t := UpdateIPs(s, ips, desiredIPs, order);
      && (b in t.nodeQueue <==> b in s.nodeQueue || LosesIP(s, t, b))
      && (b in s.nodeQueue && !LosesIP(s, t, b) ==>
            (Before(t.nodeQueue, a, b) <==> LosesIP(s, t, a) || Before(s.nodeQueue, a, b)))
      && (LosesIP(s, t, b) && !LosesIP(s, t, a) ==> !Before(t.nodeQueue, a, b))
  {
    var t, s1, wanted := UpdateIPs(s, ips, desiredIPs, order), s.(dnsDirty := true), Enabled(ips, desiredIPs);
    ForgetUnwantedKeeps(s1, wanted, order);
    LosersGoFirst(s1, wanted, order, a, b);
    if t.nodeQueue == s.nodeQueue && t.status == s.status {
      assert !LosesIP(s, t, a) && !LosesIP(s, t, b);
    } else {
      LosesEither(s, t, wanted, order, a);
      LosesEither(s, t, wanted, order, b);
    }
  }

  lemma LosesEither(s: Pool, t: Pool, wanted: seq<string>, order: seq<string>, p: string)
    requires IterationOrder(order, s.status.Keys)
    requires forall ip :: ip in t.status <==> ip in s.status && ip in wanted
    ensures LosesIP(s, t, p) <==> Loses(s.(dnsDirty := true), wanted, order, p)
  {
    if LosesIP(s, t, p) {
      var ip :| ip in s.status && ip !in t.status && s.status[ip].node == p;
      assert ip in order;
    }
    if Loses(s.(dnsDirty := true), wanted, order, p) {
      var i :| 0 <= i < |order| && order[i] in s.status && order[i] !in wanted && s.status[order[i]].node == p;
      assert order[i] in s.status && order[i] !in t.status;
    }
  }

  // ----- new IPs, and IPs of disabled nodes -----

  function Reversed(q: seq<string>): seq<string> {
    if q == [] then [] else Reversed(q[1..]) + [q[0]]
  }

  lemma {:induction false} AdoptedQueues(s: Pool, pending: seq<string>)
    requires NoDup(pending) && forall ip :: ip in pending ==> ip !in s.ipQueue
    ensures AdoptPending(s, pending).ipQueue == Reversed(pending) + s.ipQueue
    decreases |pending|
  {
    if pending == [] {
      assert [] + s.ipQueue == s.ipQueue;
    } else {
      HeadGone(pending);
      AdoptedQueues(AdoptOne(s, pending[0]), pending[1..]);
      ConcatAssociates(Reversed(pending[1..]), [pending[0]], s.ipQueue);
    }
  }

  /** IPs just created go ahead of all others. */
  lemma NewIPsGoFirst(s: Pool, cancelled: bool, persisted: bool)
    requires Agreement(s)
    ensures var t := ReconcilePendingIPs(s, cancelled, persisted);
      t.ipQueue == if !cancelled && persisted then Reversed(s.pendingIPs) + s.ipQueue else s.ipQueue
  {
    if !cancelled && s.pendingIPs != [] && persisted {
      AdoptedQueues(s.(dnsDirty := true, log := s.log + [Persisted(s.pendingIPs)]), s.pendingIPs);
    } else {
      assert Reversed([]) + s.ipQueue == s.ipQueue;
    }
  }

  /** The IPs of disabled nodes go behind all others. */
  lemma {:induction false} ParkedIPsGoLast(s: Pool, visits: seq<Visit>)
    ensures s.ipQueue <= DisableNodes(s, visits).ipQueue
    decreases |visits|
  {
    if visits != [] {
      ParkedIPsGoLast(DisableNode(s, visits[0]), visits[1..]);
      assert s.ipQueue <= DisableNode(s, visits[0]).ipQueue;
    }
  }

  // ----- after an answer -----

  /** What an answer does to the queues: an IP without an owner goes first, and so does a node that lost its IP;
      an IP found on a node that is not active goes last, and after it the one that was thought to be there. */
  lemma AnswerQueues(s: Pool, ip: string, t: StatusTick)
    requires Agreement(s) && ip in s.ips && Due(s, ip, t)
    ensures var u, owner := CheckIP(s, ip, t), StatusFor(s, ip).node;
      match t.answer
      case Failed(err) =>
        && u.nodeQueue == (if err == NotFound && owner in s.active then Fronted(s.nodeQueue, owner) else s.nodeQueue)
        && u.ipQueue == (if err == NotFound && owner !in s.active then Without(s.ipQueue, ip) else s.ipQueue)
      case Owner(found) =>
        var late := ClaimOf(s, found);
        && u.nodeQueue == (if found == owner then s.nodeQueue
                           else if owner in s.active then Fronted(s.nodeQueue, owner)
                           else if ip !in s.status then Without(s.nodeQueue, found)
                           else s.nodeQueue)
        && u.ipQueue ==
             if found == "" then Fronted(s.ipQueue, ip)
             else if found == owner then s.ipQueue
             else s.ipQueue + (if ip !in s.status && found !in s.active then [ip] else [])
                  + if late != "" && late != ip && late !in s.ipQueue then [late] else []
  {
    CheckIPIs(s, ip, t);
    FirstSeenKeeps(s, ip, t.delay);
    var s1, owner := See(s, ip, t.delay), StatusFor(s, ip).node;
    match t.answer
    case Failed(err) => ErrorIs(s1, ip, StatusFor(s, ip), err, t.stamp);
    case Owner(found) =>
      StatusOkFrame(s1, ip, ip in s.status, StatusFor(s, ip), found, t.stamp);
      if found != owner {
        AdoptQueues(s1.(ipQueue := AddIf(found == "", s.ipQueue, ip, true)), ip, ip in s.status, owner, found);
      }
  }

  function Fronted(q: seq<string>, v: string): seq<string> {
    [v] + Without(q, v)
  }

  lemma AdoptQueues(s: Pool, ip: string, known: bool, expected: string, owner: string)
    requires owner != expected && "" !in s.claims && "" !in s.active
    requires !known ==> ip !in s.ipQueue || owner == ""
    requires !known ==> expected == ""
    requires QueueKnown(s.nodeQueue, s.active.Keys)
    ensures var u, late := Adopt(s, ip, known, expected, owner), ClaimOf(s, owner);
      && u.nodeQueue == (if expected in s.active then Fronted(s.nodeQueue, expected)
                         else if !known then Without(s.nodeQueue, owner) else s.nodeQueue)
      && u.ipQueue ==
           if owner == "" then s.ipQueue
           else s.ipQueue + (if !known && owner !in s.active then [ip] else [])
                + if late != "" && late != ip && late !in s.ipQueue then [late] else []
  {
    assert s.ipQueue + [] == s.ipQueue && s.ipQueue + [ip] + [] == s.ipQueue + [ip];
  }

  // ----- the first call -----

  /** An IP in error whose deadline is ahead. */
  predicate IPWaits(status: map<string, IpStatus>, ip: string, now: Time) {
    ip in status && status[ip].state == Error && status[ip].nextRetry > now
  }

  predicate NodeWaits(retries: map<string, Retry>, node: string, now: Time) {
    node in retries && retries[node].nextRetry > now
  }

  /** From turn k on, the first one whose IP need not wait, and the clock at it. */
  function FirstReady(status: map<string, IpStatus>, q: seq<string>, now: Time, k: nat, ticks: nat -> AssignTick): (nat, Time)
    decreases |q|
  {
    var at := now + ticks(k).delay;
    if q != [] && IPWaits(status, q[0], at) then FirstReady(status, q[1..], at, k + 1, ticks) else (k, at)
  }

  /** The log goes on with this call, which counts as a success without an error or if it is still in progress. */
  ghost predicate Calls(log: seq<Call>, longer: seq<Call>, ip: string, node: string, at: Time, result: Option<ProviderError>) {
    && log < longer && (longer[|log|].Assigned? || longer[|log|].Refused?)
    && longer[|log|].ip == ip && longer[|log|].node == node && longer[|log|].at == at
    && (longer[|log|].Assigned? <==> result == None || result == Some(StillInProgress))
    && (longer[|log|].Refused? ==> result == Some(longer[|log|].error))
  }

  lemma HeadsCalled(l: Loop, t: AssignTick)
    requires l.s.ipQueue != [] && l.s.nodeQueue != [] && l.s.ipQueue[0] in l.s.status
    requires !IPWaits(l.s.status, l.s.ipQueue[0], l.s.clock) && !NodeWaits(l.s.nodeRetry, l.s.nodeQueue[0], l.s.clock)
    ensures Calls(l.s.log, TryHeads(l, t).s.log, l.s.ipQueue[0], l.s.nodeQueue[0], l.s.clock, t.result)
  {
    var s2 := l.s.(ipQueue := l.s.ipQueue[1..], nodeQueue := l.s.nodeQueue[1..]);
    var u := Attempt(s2, l.s.ipQueue[0], l.s.nodeQueue[0], t);
    assert |u.log| == |l.s.log| + 1;
  }

  lemma CallsAtOnce(l: Loop, k: nat, ticks: nat -> AssignTick, e: Loop)
    requires e == AssignLoop(l, k, ticks) && LoopAgreement(l) && TakesTurn(l.(s := Tick(l.s, ticks(k).delay))) && !ticks(k).cancelled
    requires !IPWaits(l.s.status, l.s.ipQueue[0], l.s.clock + ticks(k).delay)
    requires !NodeWaits(l.s.nodeRetry, l.s.nodeQueue[0], l.s.clock + ticks(k).delay)
    ensures Calls(l.s.log, e.s.log, l.s.ipQueue[0], l.s.nodeQueue[0], l.s.clock + ticks(k).delay, ticks(k).result)
  {
    var l1 := l.(s := Tick(l.s, ticks(k).delay));
    var u := TryHeads(l1, ticks(k));
    HeadsCalled(l1, ticks(k));
    AssignLoopQuiet(u, k + 1, ticks);
    assert AssignLoop(l, k, ticks) == AssignLoop(u, k + 1, ticks);
  }

  lemma OneAside(l: Loop, k: nat, ticks: nat -> AssignTick) returns (u: Loop)
    requires LoopAgreement(l) && TakesTurn(l.(s := Tick(l.s, ticks(k).delay))) && !ticks(k).cancelled
    requires IPWaits(l.s.status, l.s.ipQueue[0], l.s.clock + ticks(k).delay)
    ensures LoopAgreement(u) && AssignLoop(l, k, ticks) == AssignLoop(u, k + 1, ticks)
    ensures u.s.clock == l.s.clock + ticks(k).delay && u.s.log == l.s.log && u.s.ipQueue == l.s.ipQueue[1..]
    ensures u.s.nodeQueue == l.s.nodeQueue && u.s.status == l.s.status && u.s.nodeRetry == l.s.nodeRetry
    ensures u.s.coolOff == l.s.coolOff && u.s.nextAssignment == l.s.nextAssignment
    ensures FirstReady(u.s.status, u.s.ipQueue, u.s.clock, k + 1, ticks) == FirstReady(l.s.status, l.s.ipQueue, l.s.clock, k, ticks)
  {
    var l1 := l.(s := Tick(l.s, ticks(k).delay));
    u := TryHeads(l1, ticks(k));
    LoopTicks(l, ticks(k).delay);
    TryHeadsKeeps(l1, ticks(k));
  }

  /** The loop gets to the turn of that IP. */
  lemma {:induction false} AllAside(l: Loop, k: nat, ticks: nat -> AssignTick, n: nat, at: Time, e: Loop) returns (u: Loop)
    requires LoopAgreement(l) && (n, at) == FirstReady(l.s.status, l.s.ipQueue, l.s.clock, k, ticks) && n < k + |l.s.ipQueue|
    requires l.s.nodeQueue != [] && (forall j :: k <= j <= n ==> !ticks(j).cancelled) && e == AssignLoop(l, k, ticks)
    requires l.s.coolOff == 0 || l.s.nextAssignment < l.s.clock + ticks(k).delay
    ensures LoopAgreement(u) && e == AssignLoop(u, n, ticks)
    ensures k <= n < k + |l.s.ipQueue| && u.s.ipQueue == l.s.ipQueue[n - k..] && at == u.s.clock + ticks(n).delay
    ensures !IPWaits(u.s.status, u.s.ipQueue[0], at) && (u.s.coolOff == 0 || u.s.nextAssignment < at)
    ensures u.s.log == l.s.log && u.s.nodeQueue == l.s.nodeQueue && u.s.nodeRetry == l.s.nodeRetry
    decreases |l.s.ipQueue|
  {
    ReadyLater(l.s.status, l.s.ipQueue, l.s.clock, k, ticks);
    if IPWaits(l.s.status, l.s.ipQueue[0], l.s.clock + ticks(k).delay) {
      var v := OneAside(l, k, ticks);
      u := AllAside(v, k + 1, ticks, n, at, e);
      assert v.s.ipQueue[n - k - 1..] == l.s.ipQueue[n - k..];
    } else {
      u := l;
    }
  }

  lemma {:induction false} ReadyLater(status: map<string, IpStatus>, q: seq<string>, now: Time, k: nat, ticks: nat -> AssignTick)
    ensures k <= FirstReady(status, q, now, k, ticks).0 <= k + |q|
    decreases |q|
  {
    if q != [] && IPWaits(status, q[0], now + ticks(k).delay) {
      ReadyLater(status, q[1..], now + ticks(k).delay, k + 1, ticks);
    }
  }

  /** With the cool-off over, the first IP in the queue that need not wait is assigned to the first node in the
      queue if that need not wait either, however many IPs before it have to. */
  lemma FirstReadyIsCalled(s: Pool, ticks: nat -> AssignTick)
    requires Agreement(s) && s.nodeQueue != [] && (s.coolOff == 0 || s.nextAssignment < s.clock + ticks(0).delay)
    requires var (n, at) := FirstReady(s.status, s.ipQueue, s.clock, 0, ticks);
      && n < |s.ipQueue| && (forall j :: 0 <= j <= n ==> !ticks(j).cancelled) && !NodeWaits(s.nodeRetry, s.nodeQueue[0], at)
    ensures var (n, at) := FirstReady(s.status, s.ipQueue, s.clock, 0, ticks);
      Calls(s.log, ReconcileAssignment(s, ticks).log, s.ipQueue[n], s.nodeQueue[0], at, ticks(n).result)
  {
    var (n, at) := FirstReady(s.status, s.ipQueue, s.clock, 0, ticks);
    var e := AssignLoop(Loop(s, [], []), 0, ticks);
    var u := AllAside(Loop(s, [], []), 0, ticks, n, at, e);
    CallsAtOnce(u, n, ticks, e);
  }

  lemma OneCallAtMost(l: Loop, t: AssignTick)
    requires l.s.ipQueue != [] && l.s.nodeQueue != [] && l.s.ipQueue[0] in l.s.status
    ensures |TryHeads(l, t).s.log| <= |l.s.log| + 1
  {
    if !HeadIPWaits(l.s) && !HeadNodeWaits(l.s) {
      var s2 := l.s.(ipQueue := l.s.ipQueue[1..], nodeQueue := l.s.nodeQueue[1..]);
      assert |Attempt(s2, l.s.ipQueue[0], l.s.nodeQueue[0], t).log| == |l.s.log| + 1;
    }
  }

  predicate GoesOn(l: Loop, k: nat, ticks: nat -> AssignTick) {
    !ticks(k).cancelled && TakesTurn(l.(s := Tick(l.s, ticks(k).delay))) && l.s.ipQueue[0] in l.s.status
  }

  lemma OneTurn(l: Loop, k: nat, ticks: nat -> AssignTick) returns (u: Loop)
    requires GoesOn(l, k, ticks)
    ensures AssignLoop(l, k, ticks) == AssignLoop(u, k + 1, ticks)
    ensures |u.s.log| <= |l.s.log| + 1 && |u.s.ipQueue| < |l.s.ipQueue|
  {
    var l1 := l.(s := Tick(l.s, ticks(k).delay));
    u := TryHeads(l1, ticks(k));
    OneCallAtMost(l1, ticks(k));
    TurnPops(l1, ticks(k));
  }

  lemma NoTurn(l: Loop, k: nat, ticks: nat -> AssignTick)
    requires !GoesOn(l, k, ticks)
    ensures AssignLoop(l, k, ticks).s.log == l.s.log
  {
  }

  lemma {:induction false} StopsAt(l: Loop, k: nat, n: nat, ticks: nat -> AssignTick)
    requires k <= n && ticks(n).cancelled
    ensures |AssignLoop(l, k, ticks).s.log| <= |l.s.log| + n - k
    decreases |l.s.ipQueue|
  {
    if GoesOn(l, k, ticks) {
      var u := OneTurn(l, k, ticks);
      StopsAt(u, k + 1, n, ticks);
    } else {
      NoTurn(l, k, ticks);
    }
  }

  /** Once the context is canceled, nothing more is assigned: one call at most for each turn before. */
  lemma CanceledCallsNoMore(s: Pool, n: nat, ticks: nat -> AssignTick)
    requires ticks(n).cancelled
    ensures |ReconcileAssignment(s, ticks).log| <= |s.log| + n
  {
    StopsAt(Loop(s, [], []), 0, n, ticks);
  }
}
