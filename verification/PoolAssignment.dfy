/** Assignment accounting: what one run of the assignment loop does with the two work queues. */
module PoolAssignment {
  import opened Options
  import opened RetrySchedules
  import opened OrderedQueues
  import opened PoolState
  import opened PoolAgreement
  import opened PoolConservation

  /** The IPs, and the nodes, of the successful assignments in a log. */
  function AssignedIPs(log: seq<Call>): seq<string> {
    if log == [] then []
    else AssignedIPs(log[..|log| - 1]) + if log[|log| - 1].Assigned? then [log[|log| - 1].ip] else []
  }

  function AssignedNodes(log: seq<Call>): (nodes: seq<string>)
    ensures |nodes| == |AssignedIPs(log)|
  {
    if log == [] then []
    else AssignedNodes(log[..|log| - 1]) + if log[|log| - 1].Assigned? then [log[|log| - 1].node] else []
  }

  lemma LogGrows(log: seq<Call>, call: Call)
    ensures AssignedIPs(log + [call]) == AssignedIPs(log) + if call.Assigned? then [call.ip] else []
    ensures AssignedNodes(log + [call]) == AssignedNodes(log) + if call.Assigned? then [call.node] else []
  {
  }

  function QueuedIPs(l: Loop): set<string> {
    (set x | x in l.s.ipQueue) + (set x | x in l.retryIPs)
  }

  function QueuedNodes(l: Loop): set<string> {
    (set x | x in l.s.nodeQueue) + (set x | x in l.retryNodes)
  }

  /** `all` is the disjoint union of what is still queued and what is done, each done once. */
  ghost predicate Split(all: set<string>, queued: set<string>, done: seq<string>) {
    && NoDup(done)
    && (forall x :: x in all <==> x in queued || x in done)
    && (forall x :: x in done ==> x !in queued)
  }

  lemma SplitMoves(all: set<string>, queued: set<string>, done: seq<string>, x: string)
    requires Split(all, queued, done) && x in queued
    ensures Split(all, queued - {x}, done + [x])
  {
  }

  ghost predicate AllPaired(s: Pool, ips: seq<string>, nodes: seq<string>) {
    |ips| == |nodes| && forall i :: 0 <= i < |ips| ==> Paired(s, ips[i], nodes[i])
  }

  /** The calls since `base` account for what is no longer queued: every IP and node that was queued
      still is, or was assigned, exactly one of the two; and the assigned ones are paired up in the
      claims. */
  ghost predicate Accounted(ips: set<string>, nodes: set<string>, base: seq<Call>, l: Loop) {
    && base <= l.s.log
    && var calls := l.s.log[|base|..];
    && Split(ips, QueuedIPs(l), AssignedIPs(calls))
    && Split(nodes, QueuedNodes(l), AssignedNodes(calls))
    && AllPaired(l.s, AssignedIPs(calls), AssignedNodes(calls))
  }

  ghost predicate Paired(s: Pool, ip: string, node: string) {
    node in s.active && node in s.claims && s.claims[node] == ip && ip in s.status && s.status[ip].node == node
  }

  lemma AttemptPairs(s: Pool, ip: string, node: string, t: AssignTick)
    requires ip in s.status && node in s.active && s.status[ip].node !in s.active
    ensures var u := Attempt(s, ip, node, t);
      && |u.log| == |s.log| + 1 && u.log[..|s.log|] == s.log
      && (if Succeeds(t.result)
          then u.log[|s.log|].Assigned? && u.log[|s.log|].ip == ip && u.log[|s.log|].node == node && Paired(u, ip, node)
          else u.log[|s.log|].Refused?)
      && (forall x, p :: Paired(s, x, p) && x != ip && p != node ==> Paired(u, x, p))
  {
  }

  /** A turn that skips a head moves it to a retry list and calls nobody. */
  lemma SkipAccounts(ips: set<string>, nodes: set<string>, base: seq<Call>, l: Loop, t: AssignTick)
    requires LoopConserved(l) && l.s.ipQueue != [] && l.s.nodeQueue != []
    requires HeadIPWaits(l.s) || HeadNodeWaits(l.s)
    requires Accounted(ips, nodes, base, l)
    ensures Accounted(ips, nodes, base, TryHeads(l, t))
  {
    var u := TryHeads(l, t);
    assert u.s.log == l.s.log;
    HeadToRetry(l.s.ipQueue, l.retryIPs);
    HeadToRetry(l.s.nodeQueue, l.retryNodes);
    assert QueuedIPs(u) == QueuedIPs(l) && QueuedNodes(u) == QueuedNodes(l);
    assert forall x, p :: Paired(l.s, x, p) ==> Paired(u.s, x, p);
  }

  /** The heads of the queues are ready for a call: the IP has no active owner and the node is active. */
  lemma HeadsReady(l: Loop)
    requires LoopConserved(l) && l.s.ipQueue != [] && l.s.nodeQueue != []
    ensures var ip, node := l.s.ipQueue[0], l.s.nodeQueue[0];
      ip in l.s.status && l.s.status[ip].node !in l.s.active && node in l.s.active
  {
    assert l.s.ipQueue[0] in ToSet(l.s.ipQueue) + ToSet(l.retryIPs);
  }

  /** What a call that is made writes to the log and to the claims. */
  lemma CallPairs(l: Loop, t: AssignTick)
    requires l.s.ipQueue != [] && l.s.nodeQueue != [] && l.s.ipQueue[0] in l.s.status
    requires l.s.nodeQueue[0] in l.s.active && l.s.status[l.s.ipQueue[0]].node !in l.s.active
    requires !HeadIPWaits(l.s) && !HeadNodeWaits(l.s)
    ensures var u, ip, node := TryHeads(l, t).s, l.s.ipQueue[0], l.s.nodeQueue[0];
      && |u.log| == |l.s.log| + 1 && u.log[..|l.s.log|] == l.s.log
      && (if Succeeds(t.result)
          then u.log[|l.s.log|].Assigned? && u.log[|l.s.log|].ip == ip && u.log[|l.s.log|].node == node && Paired(u, ip, node)
          else u.log[|l.s.log|].Refused?)
      && (forall x, p :: Paired(l.s, x, p) && x != ip && p != node ==> Paired(u, x, p))
  {
    var s2 := l.s.(ipQueue := l.s.ipQueue[1..], nodeQueue := l.s.nodeQueue[1..]);
    AttemptPairs(s2, l.s.ipQueue[0], l.s.nodeQueue[0], t);
    assert TryHeads(l, t).s == Attempt(s2, l.s.ipQueue[0], l.s.nodeQueue[0], t);
    assert forall x, p :: Paired(l.s, x, p) ==> Paired(s2, x, p);
  }

  lemma OneMoreCall(before: seq<Call>, after: seq<Call>, base: seq<Call>)
    requires base <= before && |after| == |before| + 1 && after[..|before|] == before
    ensures base <= after && after[|base|..] == before[|base|..] + [after[|before|]]
  {
    assert after == before + [after[|before|]];
  }

  lemma CallSettlesLog(l: Loop, t: AssignTick, base: seq<Call>)
    requires l.s.ipQueue != [] && l.s.nodeQueue != [] && l.s.ipQueue[0] in l.s.status
    requires l.s.nodeQueue[0] in l.s.active && l.s.status[l.s.ipQueue[0]].node !in l.s.active
    requires !HeadIPWaits(l.s) && !HeadNodeWaits(l.s) && base <= l.s.log
    ensures var u, calls := TryHeads(l, t), l.s.log[|base|..];
      var done, served := AssignedIPs(calls), AssignedNodes(calls);
      && base <= u.s.log
      && AssignedIPs(u.s.log[|base|..]) == (if Succeeds(t.result) then done + [l.s.ipQueue[0]] else done)
      && AssignedNodes(u.s.log[|base|..]) == (if Succeeds(t.result) then served + [l.s.nodeQueue[0]] else served)
  {
    CallPairs(l, t);
    var log := TryHeads(l, t).s.log;
    OneMoreCall(l.s.log, log, base);
    LogGrows(l.s.log[|base|..], log[|l.s.log|]);
  }

  lemma CallSettlesQueues(l: Loop, t: AssignTick)
    requires LoopAgreement(l) && l.s.ipQueue != [] && l.s.nodeQueue != []
    requires !HeadIPWaits(l.s) && !HeadNodeWaits(l.s)
    ensures var u := TryHeads(l, t);
      && QueuedIPs(u) == (if Succeeds(t.result) then QueuedIPs(l) - {l.s.ipQueue[0]} else QueuedIPs(l))
      && QueuedNodes(u) == (if Succeeds(t.result) then QueuedNodes(l) - {l.s.nodeQueue[0]} else QueuedNodes(l))
      && l.s.ipQueue[0] in QueuedIPs(l) && l.s.nodeQueue[0] in QueuedNodes(l)
  {
    var s2 := l.s.(ipQueue := l.s.ipQueue[1..], nodeQueue := l.s.nodeQueue[1..]);
    AttemptFrame(s2, l.s.ipQueue[0], l.s.nodeQueue[0], t);
    HeadToRetry(l.s.ipQueue, l.retryIPs);
    HeadToRetry(l.s.nodeQueue, l.retryNodes);
  }

  lemma StillPaired(s: Pool, u: Pool, ips: seq<string>, nodes: seq<string>, ip: string, node: string)
    requires AllPaired(s, ips, nodes) && ip !in ips && node !in nodes
    requires forall x, p :: Paired(s, x, p) && x != ip && p != node ==> Paired(u, x, p)
    ensures AllPaired(u, ips, nodes)
    ensures Paired(u, ip, node) ==> AllPaired(u, ips + [ip], nodes + [node])
  {
  }

  /** A turn that calls AssignIP assigns the two heads or puts both on the retry lists. */
  lemma CallAccounts(ips: set<string>, nodes: set<string>, base: seq<Call>, l: Loop, t: AssignTick)
    requires LoopConserved(l) && l.s.ipQueue != [] && l.s.nodeQueue != []
    requires !HeadIPWaits(l.s) && !HeadNodeWaits(l.s)
    requires Accounted(ips, nodes, base, l)
    ensures Accounted(ips, nodes, base, TryHeads(l, t))
  {
    var calls := l.s.log[|base|..];
    HeadsReady(l);
    CallPairs(l, t);
    CallSettlesLog(l, t, base);
    CallSettlesQueues(l, t);
    if Succeeds(t.result) {
      SplitMoves(ips, QueuedIPs(l), AssignedIPs(calls), l.s.ipQueue[0]);
      SplitMoves(nodes, QueuedNodes(l), AssignedNodes(calls), l.s.nodeQueue[0]);
    }
    StillPaired(l.s, TryHeads(l, t).s, AssignedIPs(calls), AssignedNodes(calls), l.s.ipQueue[0], l.s.nodeQueue[0]);
  }

  lemma LoopAccounts(ips: set<string>, nodes: set<string>, base: seq<Call>, l: Loop, k: nat, ticks: nat -> AssignTick)
    requires LoopConserved(l) && Accounted(ips, nodes, base, l)
    ensures Accounted(ips, nodes, base, AssignLoop(l, k, ticks))
  {
    var inv := (u: Loop) => LoopConserved(u) && Accounted(ips, nodes, base, u);
    forall u: Loop, delay: nat | inv(u)
      ensures inv(u.(s := Tick(u.s, delay)))
    {
      TickAccounts(ips, nodes, base, u, delay);
    }
    forall u: Loop | inv(u)
      ensures inv(u.(s := WakeBy(u.s, u.s.nextAssignment)))
    {
      WakeAccounts(ips, nodes, base, u);
    }
    forall u: Loop, t: AssignTick | inv(u) && TakesTurn(u)
      ensures inv(TryHeads(u, t))
    {
      TurnAccounts(ips, nodes, base, u, t);
    }
    AssignLoopKeepsAny(inv, l, k, ticks);
  }

  lemma TurnAccounts(ips: set<string>, nodes: set<string>, base: seq<Call>, l: Loop, t: AssignTick)
    requires LoopConserved(l) && Accounted(ips, nodes, base, l) && TakesTurn(l)
    ensures LoopConserved(TryHeads(l, t)) && Accounted(ips, nodes, base, TryHeads(l, t))
  {
    if HeadIPWaits(l.s) || HeadNodeWaits(l.s) {
      SkipAccounts(ips, nodes, base, l, t);
    } else {
      CallAccounts(ips, nodes, base, l, t);
    }
    TryHeadsKeeps(l, t);
    TryHeadsSettles(l, t);
  }

  lemma TickAccounts(ips: set<string>, nodes: set<string>, base: seq<Call>, l: Loop, delay: nat)
    requires LoopConserved(l) && Accounted(ips, nodes, base, l)
    ensures var u := l.(s := Tick(l.s, delay)); LoopConserved(u) && Accounted(ips, nodes, base, u)
  {
  }

  lemma WakeAccounts(ips: set<string>, nodes: set<string>, base: seq<Call>, l: Loop)
    requires LoopConserved(l) && Accounted(ips, nodes, base, l)
    ensures var u := l.(s := WakeBy(l.s, l.s.nextAssignment)); LoopConserved(u) && Accounted(ips, nodes, base, u)
  {
  }

  /** Assignment accounting: after the deferred requeue, the old queues are the disjoint union of the
      new queues and the assigned IPs and nodes, and the assigned ones are paired one to one in the
      claims and the owners on record. */
  lemma AssignmentAccounts(s: Pool, ticks: nat -> AssignTick)
    requires Conserved(s)
    ensures var t := ReconcileAssignment(s, ticks);
      && s.log <= t.log
      && var calls := t.log[|s.log|..];
      && Split(ToSet(s.ipQueue), ToSet(t.ipQueue), AssignedIPs(calls))
      && Split(ToSet(s.nodeQueue), ToSet(t.nodeQueue), AssignedNodes(calls))
      && AllPaired(t, AssignedIPs(calls), AssignedNodes(calls))
  {
    var l := Loop(s, [], []);
    StartAccounts(s);
    LoopAccounts(ToSet(s.ipQueue), ToSet(s.nodeQueue), s.log, l, 0, ticks);
    RequeueAccounts(AssignLoop(l, 0, ticks));
  }

  lemma StartAccounts(s: Pool)
    requires Conserved(s)
    ensures LoopConserved(Loop(s, [], [])) && Accounted(ToSet(s.ipQueue), ToSet(s.nodeQueue), s.log, Loop(s, [], []))
  {
    assert s.log[|s.log|..] == [];
    assert ToSet(s.ipQueue) + ToSet([]) == ToSet(s.ipQueue) && ToSet(s.nodeQueue) + ToSet([]) == ToSet(s.nodeQueue);
  }

  lemma RequeueAccounts(e: Loop)
    ensures var t := Requeue(e);
      && QueuedIPs(e) == ToSet(t.ipQueue) && QueuedNodes(e) == ToSet(t.nodeQueue) && t.log == e.s.log
      && forall x, p :: Paired(e.s, x, p) ==> Paired(t, x, p)
  {
  }

  /** Requeued values go to the back, in the order they were skipped or refused. */
  lemma RequeueAppends(s: Pool, ticks: nat -> AssignTick)
    requires Agreement(s)
    ensures var e, t := AssignLoop(Loop(s, [], []), 0, ticks), ReconcileAssignment(s, ticks);
      t.ipQueue == e.s.ipQueue + e.retryIPs && t.nodeQueue == e.s.nodeQueue + e.retryNodes
  {
    AssignLoopKeeps(Loop(s, [], []), 0, ticks);
    var e := AssignLoop(Loop(s, [], []), 0, ticks);
    Joined(e.s.ipQueue, e.retryIPs);
    Joined(e.s.nodeQueue, e.retryNodes);
    IncludingAllAppends(e.s.ipQueue, e.retryIPs);
    IncludingAllAppends(e.s.nodeQueue, e.retryNodes);
  }

  // ----- when nothing stands in the way -----

  /** No cool-off, no IP or node in backoff. */
  ghost predicate NothingWaits(s: Pool) {
    && s.coolOff == 0
    && (forall ip :: ip in s.ipQueue && ip in s.status ==> s.status[ip].state != Error || s.status[ip].nextRetry <= s.clock)
    && (forall p :: p in s.nodeQueue && p in s.nodeRetry ==> s.nodeRetry[p].nextRetry <= s.clock)
  }

  lemma FreeTurn(l: Loop, t: AssignTick)
    requires LoopAgreement(l) && l.s.ipQueue != [] && l.s.nodeQueue != [] && NothingWaits(l.s) && Succeeds(t.result)
    ensures !HeadIPWaits(l.s) && !HeadNodeWaits(l.s)
    ensures var u := TryHeads(l, t);
      && NothingWaits(u.s) && u.s.ipQueue == l.s.ipQueue[1..] && u.s.nodeQueue == l.s.nodeQueue[1..]
      && u.retryIPs == l.retryIPs && u.retryNodes == l.retryNodes
      && |u.s.log| == |l.s.log| + 1 && u.s.log[..|l.s.log|] == l.s.log
      && u.s.log[|l.s.log|].Assigned? && u.s.log[|l.s.log|].ip == l.s.ipQueue[0]
      && u.s.log[|l.s.log|].node == l.s.nodeQueue[0]
  {
  }

  function Min(a: nat, b: nat): nat { if a < b then a else b }

  /** From l to e the loop assigned as many pairs as it could, heads first. */
  ghost predicate TakesAll(l: Loop, e: Loop) {
    var n := Min(|l.s.ipQueue|, |l.s.nodeQueue|);
    && e.retryIPs == l.retryIPs && e.retryNodes == l.retryNodes
    && e.s.ipQueue == l.s.ipQueue[n..] && e.s.nodeQueue == l.s.nodeQueue[n..]
    && AssignedIPs(e.s.log) == AssignedIPs(l.s.log) + l.s.ipQueue[..n]
    && AssignedNodes(e.s.log) == AssignedNodes(l.s.log) + l.s.nodeQueue[..n]
  }

  /** From l to u the loop assigned its two heads. */
  ghost predicate TakesHeads(l: Loop, u: Loop) {
    && l.s.ipQueue != [] && l.s.nodeQueue != []
    && u.retryIPs == l.retryIPs && u.retryNodes == l.retryNodes
    && u.s.ipQueue == l.s.ipQueue[1..] && u.s.nodeQueue == l.s.nodeQueue[1..]
    && AssignedIPs(u.s.log) == AssignedIPs(l.s.log) + [l.s.ipQueue[0]]
    && AssignedNodes(u.s.log) == AssignedNodes(l.s.log) + [l.s.nodeQueue[0]]
  }

  lemma HeadsThenRest(l: Loop, u: Loop, e: Loop)
    requires TakesHeads(l, u) && TakesAll(u, e)
    ensures TakesAll(l, e)
  {
    HeadFirst(AssignedIPs(l.s.log), l.s.ipQueue, Min(|l.s.ipQueue|, |l.s.nodeQueue|));
    HeadFirst(AssignedNodes(l.s.log), l.s.nodeQueue, Min(|l.s.ipQueue|, |l.s.nodeQueue|));
  }

  lemma NothingTaken(before: seq<string>, q: seq<string>)
    ensures before + q[..0] == before && q[0..] == q
  {
  }

  lemma HeadFirst(before: seq<string>, q: seq<string>, n: nat)
    requires 0 < n <= |q|
    ensures q[n..] == q[1..][n - 1..]
    ensures before + q[..n] == (before + [q[0]]) + q[1..][..n - 1]
  {
  }

  lemma FreeStep(l: Loop, k: nat, ticks: nat -> AssignTick) returns (u: Loop)
    requires LoopAgreement(l) && NothingWaits(l.s) && l.s.ipQueue != [] && l.s.nodeQueue != []
    requires !ticks(k).cancelled && Succeeds(ticks(k).result)
    ensures LoopAgreement(u) && NothingWaits(u.s) && TakesHeads(l, u)
    ensures AssignLoop(l, k, ticks) == AssignLoop(u, k + 1, ticks)
  {
    var l1 := l.(s := Tick(l.s, ticks(k).delay));
    TickFree(l, ticks(k).delay);
    FreeTurn(l1, ticks(k));
    TryHeadsKeeps(l1, ticks(k));
    u := TryHeads(l1, ticks(k));
    var call := u.s.log[|l.s.log|];
    assert u.s.log == l.s.log + [call];
    LogGrows(l.s.log, call);
  }

  ghost predicate AllSucceed(k: nat, ticks: nat -> AssignTick) {
    forall j :: k <= j ==> !ticks(j).cancelled && Succeeds(ticks(j).result)
  }

  lemma {:induction false} FreeLoop(l: Loop, k: nat, ticks: nat -> AssignTick)
    requires LoopAgreement(l) && NothingWaits(l.s) && AllSucceed(k, ticks)
    ensures TakesAll(l, AssignLoop(l, k, ticks))
    decreases |l.s.ipQueue|
  {
    if l.s.ipQueue == [] || l.s.nodeQueue == [] {
      NothingTaken(AssignedIPs(l.s.log), l.s.ipQueue);
      NothingTaken(AssignedNodes(l.s.log), l.s.nodeQueue);
    } else {
      var u := FreeStep(l, k, ticks);
      FreeLoop(u, k + 1, ticks);
      HeadsThenRest(l, u, AssignLoop(u, k + 1, ticks));
    }
  }

  lemma TickFree(l: Loop, delay: nat)
    requires LoopAgreement(l) && NothingWaits(l.s)
    ensures LoopAgreement(l.(s := Tick(l.s, delay))) && NothingWaits(Tick(l.s, delay))
  {
  }

  /** If nothing waits and every call succeeds, exactly min(IPs, nodes) pairs are assigned, head with
      head in queue order, and the rest stays queued as it was. */
  lemma AssignsAllItCan(s: Pool, ticks: nat -> AssignTick)
    requires Agreement(s) && NothingWaits(s)
    requires AllSucceed(0, ticks)
    ensures var t, n := ReconcileAssignment(s, ticks), Min(|s.ipQueue|, |s.nodeQueue|);
      && AssignedIPs(t.log) == AssignedIPs(s.log) + s.ipQueue[..n]
      && AssignedNodes(t.log) == AssignedNodes(s.log) + s.nodeQueue[..n]
      && t.ipQueue == s.ipQueue[n..] && t.nodeQueue == s.nodeQueue[n..]
  {
    FreeLoop(Loop(s, [], []), 0, ticks);
  }
}
