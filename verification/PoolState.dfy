/** The floating IP controller as a state machine on values: its fields, and what each of its
    methods does to them. The environment (clock, provider answers, context cancellation, map
    iteration order) appears as arguments. */
module PoolState {
  import opened Options
  import opened RetrySchedules
  import opened OrderedQueues

  datatype IPState = Unset | Active | InProgress | Error | NoMatch | Unassigned

  datatype Message =
    | NoMessage
    | LookupFailed(lookup: ProviderError)
    | AssignFailed(assign: ProviderError)
    | CacheMismatch

  /** What is known about one IP. node is the provider ID of its owner, "" for none. */
  datatype IpStatus = IpStatus(
    attempts: nat,
    nextRetry: Time,
    schedule: Schedule,
    message: Message,
    node: string,
    state: IPState)

  datatype Retry = Retry(attempts: nat, nextRetry: Time, schedule: Schedule)

  datatype DnsSpec = DnsSpec(zone: string, recordName: string, ttl: int)

  datatype NodeRef = NodeRef(providerID: string, name: string)

  /** What the provider says about an IP: its owner, "" for none, or an error. */
  datatype Answer = Owner(node: string) | Failed(error: ProviderError)

  /** What was done, oldest first. Times are the clock readings the code took; `until` is a deadline set. */
  datatype Call =
    | Created(ip: string)
    | CreateFailed(error: ProviderError, failedAt: Time, until: Time)
    | Persisted(ips: seq<string>)
    | Looked(ip: string, answer: Answer, at: Time, stampedAt: Time, until: Time)
    | Evicted(ip: string)
    | Assigned(ip: string, node: string, at: Time, done: Time, coolOff: nat, stampedAt: Time, until: Time)
    | Refused(ip: string, node: string, at: Time, failedAt: Time, error: ProviderError, nodeUntil: Time,
              stampedAt: Time, ipUntil: Time)
    | Parked(ip: string, at: Time, until: Time)       // its node was disabled
    | Resumed(ip: string, at: Time, until: Time)      // its node was enabled again
    | Forgot(ip: string, node: string)
    | Reset
    | Published(dns: DnsSpec, ips: seq<string>)

  datatype Pool = Pool(
    provider: string,                  // "" until a provider was set
    region: string,
    coolOff: nat,
    desiredIPs: nat,
    ips: seq<string>,
    pendingIPs: seq<string>,
    wakeAt: Time,                      // when the run loop's timer fires next
    createAttempts: nat,
    createNextRetry: Time,
    nextAssignment: Time,
    status: map<string, IpStatus>,     // by IP
    claims: map<string, string>,       // node -> IP; "" when the claim was taken back
    active: map<string, string>,       // active node -> its name
    nodeRetry: map<string, Retry>,
    ipQueue: seq<string>,
    nodeQueue: seq<string>,
    dns: Option<DnsSpec>,
    dnsDirty: bool,
    clock: Time,                       // the latest clock reading
    log: seq<Call>,
    crashed: bool)                     // a nil status was dereferenced

  const RECONCILE_PERIOD: Duration := MINUTE
  const DEFAULT_TTL := 60

  /** The status a first-seen IP starts from. */
  const NEW_STATUS := IpStatus(0, 0, RETRY_FAST, NoMessage, "", Unset)

  /** The status an IP is put back to when its node turns out to hold another one. */
  const EVICTED_STATUS := IpStatus(0, 0, RETRY_FAST, CacheMismatch, "", Error)

  const CREATED_STATUS := IpStatus(0, 0, HEALTHY_RETRY, NoMessage, "", Unassigned)

  function ClaimOf(s: Pool, node: string): string {
    if node in s.claims then s.claims[node] else ""
  }

  /** Every time reading moves the clock forward by some non-negative delay. */
  function Tick(s: Pool, delay: nat): Pool {
    s.(clock := s.clock + delay)
  }

  /** The run loop's timer, lowered to `next` if that is sooner. */
  function Sooner(wakeAt: Time, next: Time): Time {
    if wakeAt == 0 || wakeAt > next then next else wakeAt
  }

  function WakeBy(s: Pool, next: Time): Pool {
    s.(wakeAt := Sooner(s.wakeAt, next))
  }

  predicate Changed(before: IpStatus, after: IpStatus) {
    before.state != after.state || before.message != after.message
  }

  /** q with v added when `when` holds. */
  function AddIf(when: bool, q: seq<string>, v: string, front: bool): seq<string> {
    if when then Including(q, v, front) else q
  }

  /** q with v deleted when `when` holds. */
  function DeleteIf(when: bool, q: seq<string>, v: string): seq<string> {
    if when then Without(q, v) else q
  }

  // ----- configuration -----

  function NewPool(clock: Time): Pool {
    Pool("", "", 0, 0, [], [], 0, 0, 0, 0, map[], map[], map[], map[], [], [], None, false, clock, [], false)
  }

  /** Another provider or region starts from nothing known; another cool-off moves the next assignment. */
  function UpdateProviders(s: Pool, provider: string, region: string, coolOff: nat): Pool {
    var moved := s.provider != provider || s.region != region;
    s.(status := if moved then map[] else s.status,
       claims := if moved then map[] else s.claims,
       active := if moved then map[] else s.active,
       nodeRetry := if moved then map[] else s.nodeRetry,
       ipQueue := if moved then [] else s.ipQueue,
       nodeQueue := if moved then [] else s.nodeQueue,
       provider := provider,
       region := region,
       log := if moved then s.log + [Reset] else s.log,
       nextAssignment := if s.nextAssignment != 0 then s.nextAssignment + (coolOff - s.coolOff) else 0,
       coolOff := coolOff)
  }

  /** One IP leaves the spec; its node loses the claim and, if active, wants another IP first. */
  function Forget(s: Pool, ip: string): Pool
    requires ip in s.status
  {
    var node := s.status[ip].node;
    s.(nodeQueue := AddIf(node != "" && node in s.active, s.nodeQueue, node, true),
       claims := if node != "" then s.claims[node := ""] else s.claims,
       nodeRetry := if node != "" then s.nodeRetry - {node} else s.nodeRetry,
       ipQueue := Without(s.ipQueue, ip),
       status := s.status - {ip},
       log := s.log + [Forgot(ip, node)])
  }

  /** Forgets the known IPs in `order` that are not wanted. */
  function ForgetUnwanted(s: Pool, wanted: seq<string>, order: seq<string>): Pool
    decreases |order|
  {
    if order == [] then s
    else
      var s1 := if order[0] in s.status && order[0] !in wanted then Forget(s, order[0]) else s;
      ForgetUnwanted(s1, wanted, order[1..])
  }

  function Enabled(ips: seq<string>, desiredIPs: nat): seq<string> {
    if desiredIPs != 0 && |ips| > desiredIPs then ips[..desiredIPs] else ips
  }

  /** order: the order in which the status map happens to be iterated. */
  function UpdateIPs(s: Pool, ips: seq<string>, desiredIPs: nat, order: seq<string>): Pool {
    var wanted := Enabled(ips, desiredIPs);
    if wanted == s.ips &&
       (s.desiredIPs == desiredIPs || desiredIPs == 0 || (s.desiredIPs == 0 && desiredIPs == |wanted|))
    then s.(desiredIPs := desiredIPs)
    else ForgetUnwanted(s.(dnsDirty := true), wanted, order).(ips := wanted, desiredIPs := desiredIPs)
  }

  predicate Publishable(dns: Option<DnsSpec>) {
    dns.Some? && dns.value.recordName != "" && dns.value.zone != ""
  }

  function WithDefaultTTL(dns: DnsSpec): DnsSpec {
    if dns.ttl == 0 then dns.(ttl := DEFAULT_TTL) else dns
  }

  /** None stands for a nil spec. */
  function UpdateDNSSpec(s: Pool, dns: Option<DnsSpec>): Pool {
    s.(dns := if dns == s.dns then s.dns else if Publishable(dns) then Some(WithDefaultTTL(dns.value)) else None,
       dnsDirty := if dns == s.dns then s.dnsDirty else Publishable(dns))
  }

  // ----- nodes -----

  /** A node handed to EnableNodes or DisableNodes, and how long its turn waits for the clock. */
  datatype Visit = Visit(node: NodeRef, delay: nat)

  function Released(st: IpStatus, now: Time): IpStatus {
    st.(state := NoMatch, attempts := 0, message := NoMessage, schedule := RETRY_SLOW,
        nextRetry := now + After(RETRY_SLOW, 0))
  }

  /** A node that holds an IP keeps the claim, but the IP may now go to another node. */
  function DisableNode(s: Pool, v: Visit): Pool {
    var p := v.node.providerID;
    var ip := ClaimOf(s, p);
    if s.crashed || p == "" || p !in s.active then s
    else if ip == "" then
      s.(active := s.active - {p}, nodeQueue := Without(s.nodeQueue, p))
    else if ip !in s.status then
      s.(active := s.active - {p}, ipQueue := Including(s.ipQueue, ip, false), crashed := true)
    else
      s.(active := s.active - {p},
         ipQueue := Including(s.ipQueue, ip, false),
         status := s.status[ip := Released(s.status[ip], s.clock + v.delay)],
         clock := s.clock + v.delay,
         dnsDirty := true,
         nodeQueue := Without(s.nodeQueue, p),
         log := s.log + [Parked(ip, s.clock + v.delay, s.clock + v.delay + After(RETRY_SLOW, 0))])
  }

  function DisableNodes(s: Pool, visits: seq<Visit>): Pool
    decreases |visits|
  {
    if visits == [] then s else DisableNodes(DisableNode(s, visits[0]), visits[1..])
  }

  function Regained(st: IpStatus, node: string, now: Time): IpStatus {
    st.(node := node, state := InProgress, message := NoMessage, schedule := RETRY_FAST, attempts := 0,
        nextRetry := now + After(RETRY_FAST, 0))
  }

  function EnableNode(s: Pool, v: Visit): Pool {
    var p := v.node.providerID;
    var ip := ClaimOf(s, p);
    if s.crashed || p == "" || p in s.active then s
    else if ip == "" then
      s.(active := s.active[p := v.node.name], nodeQueue := Including(s.nodeQueue, p, false))
    else if ip !in s.status then
      s.(active := s.active[p := v.node.name], crashed := true)
    else
      s.(active := s.active[p := v.node.name],
         status := s.status[ip := Regained(s.status[ip], p, s.clock + v.delay)],
         clock := s.clock + v.delay,
         ipQueue := Without(s.ipQueue, ip),
         dnsDirty := true,
         log := s.log + [Resumed(ip, s.clock + v.delay, s.clock + v.delay + After(RETRY_FAST, 0))])
  }

  function EnableNodes(s: Pool, visits: seq<Visit>): Pool
    decreases |visits|
  {
    if visits == [] then s else EnableNodes(EnableNode(s, visits[0]), visits[1..])
  }

  // ----- reconcile: creating IPs -----

  datatype CreateResult = NewIP(ip: string) | NoIP(error: ProviderError, delay: nat)

  datatype CreateEnv = CreateEnv(cancelled: bool, delay: nat, results: nat -> CreateResult)

  function CreateIPs(s: Pool, k: nat, results: nat -> CreateResult): Pool
    decreases s.desiredIPs - |s.ips| - |s.pendingIPs|
  {
    if |s.ips| + |s.pendingIPs| >= s.desiredIPs then s
    else
      var s1 := s.(dnsDirty := true);
      match results(k)
      case NewIP(ip) =>
        CreateIPs(s1.(pendingIPs := s1.pendingIPs + [ip], createAttempts := 0, log := s1.log + [Created(ip)]),
                  k + 1, results)
      case NoIP(err, delay) =>
        var next := s.clock + delay + After(ErrorToRetrySchedule(err), s.createAttempts);
        s1.(clock := s.clock + delay, createAttempts := s.createAttempts + 1, createNextRetry := next,
            wakeAt := Sooner(s.wakeAt, next), log := s.log + [CreateFailed(err, s.clock + delay, next)])
  }

  function ReconcileDesiredIPs(s: Pool, env: CreateEnv): Pool {
    if env.cancelled then s
    else
      var s1 := Tick(s, env.delay);
      if s1.createNextRetry > s1.clock then WakeBy(s1, s1.createNextRetry)
      else CreateIPs(s1, 0, env.results)
  }

  /** A created IP has no owner and goes to the head of the queue. */
  function AdoptOne(s: Pool, ip: string): Pool {
    s.(status := s.status[ip := CREATED_STATUS], ipQueue := Including(s.ipQueue, ip, true))
  }

  function AdoptPending(s: Pool, pending: seq<string>): Pool
    decreases |pending|
  {
    if pending == [] then s
    else AdoptPending(AdoptOne(s, pending[0]), pending[1..])
  }

  /** persisted: the spec update with the new IPs went through (or there is no callback to fail). */
  function ReconcilePendingIPs(s: Pool, cancelled: bool, persisted: bool): Pool {
    if cancelled || s.pendingIPs == [] || !persisted then s
    else
      AdoptPending(s.(dnsDirty := true, log := s.log + [Persisted(s.pendingIPs)]), s.pendingIPs)
      .(ips := s.ips + s.pendingIPs, pendingIPs := [])
  }

  // ----- reconcile: polling the provider -----

  /** One turn of the polling loop: is the context cancelled, the clock reading, the provider's
      answer, and the reading that stamps the next check. */
  datatype StatusTick = StatusTick(cancelled: bool, delay: nat, answer: Answer, stamp: nat)

  function ErrorStatus(st: IpStatus, err: ProviderError, now: Time): IpStatus {
    var schedule := ErrorToRetrySchedule(err);
    IpStatus(
      st.attempts + 1,
      now + After(schedule, st.attempts),
      schedule,
      if err == StillInProgress then NoMessage else LookupFailed(err),
      if err == NotFound then "" else st.node,
      if err == StillInProgress then InProgress else Error)
  }

  /** The lookup failed. When the provider does not know the IP, the IP loses its owner. */
  function StatusError(s: Pool, ip: string, st: IpStatus, err: ProviderError, stamp: nat): Pool {
    var st' := ErrorStatus(st, err, s.clock + stamp);
    var ownerActive := st.node in s.active;
    s.(claims := if err == NotFound then s.claims - {st.node} else s.claims,
       nodeQueue := AddIf(err == NotFound && ownerActive, s.nodeQueue, st.node, true),
       ipQueue := DeleteIf(err == NotFound && !ownerActive, s.ipQueue, ip),
       clock := s.clock + stamp,
       status := s.status[ip := st'],
       wakeAt := Sooner(s.wakeAt, st'.nextRetry),
       dnsDirty := s.dnsDirty || Changed(st, st'),
       log := s.log + [Looked(ip, Failed(err), s.clock, s.clock + stamp, st'.nextRetry)])
  }

  /** The provider names another owner than the one expected. */
  function Adopt(s: Pool, ip: string, known: bool, expected: string, owner: string): Pool {
    var other := ClaimOf(s, owner);
    var evicts := other != "" && other != ip;
    s.(nodeQueue :=
         AddIf(expected in s.active,
               DeleteIf(!known && owner in s.active, s.nodeQueue, owner),
               expected, true),
       ipQueue :=
         AddIf(evicts,
               AddIf(!known && owner !in s.active, s.ipQueue, ip, false),
               other, false),
       status := if evicts then s.status[other := EVICTED_STATUS] else s.status,
       claims := (if owner != "" then s.claims[owner := ip] else s.claims) - {expected},
       log := if evicts then s.log + [Evicted(other)] else s.log)
  }

  function StateOf(active: map<string, string>, owner: string): IPState {
    if owner == "" then Unassigned
    else if owner in active && active[owner] != "" then Active
    else NoMatch
  }

  function HealthyStatus(active: map<string, string>, owner: string, now: Time): IpStatus {
    IpStatus(0, now + After(HEALTHY_RETRY, 0), HEALTHY_RETRY, NoMessage, owner, StateOf(active, owner))
  }

  function StatusOk(s: Pool, ip: string, known: bool, st: IpStatus, owner: string, stamp: nat): Pool {
    var st' := HealthyStatus(s.active, owner, s.clock + stamp);
    var s1 := s.(ipQueue := AddIf(owner == "", s.ipQueue, ip, true));
    var s2 := if st.node != owner then Adopt(s1, ip, known, st.node, owner) else s1;
    s2.(clock := s.clock + stamp,
        status := s2.status[ip := st'],
        dnsDirty := s.dnsDirty || Changed(st, st'),
        log := s2.log + [Looked(ip, Owner(owner), s.clock, s.clock + stamp, st'.nextRetry)])
  }

  /** The status the polling loop works on; a first-seen IP gets a new one. */
  function StatusFor(s: Pool, ip: string): IpStatus {
    if ip in s.status then s.status[ip] else NEW_STATUS
  }

  /** The polling loop looks up (or creates) the IP's status and reads the clock. */
  function See(s: Pool, ip: string, delay: nat): Pool {
    s.(status := s.status[ip := StatusFor(s, ip)], clock := s.clock + delay)
  }

  /** The body of the polling loop for one IP. */
  function CheckIP(s: Pool, ip: string, t: StatusTick): Pool {
    var st := StatusFor(s, ip);
    var s1 := See(s, ip, t.delay);
    if st.nextRetry > s1.clock then WakeBy(s1, st.nextRetry)
    else
      match t.answer
      case Failed(err) => StatusError(s1, ip, st, err, t.stamp)
      case Owner(owner) => StatusOk(s1, ip, ip in s.status, st, owner, t.stamp)
  }

  /** Polls the given IPs; ticks(k) belongs to the first of them. */
  function CheckIPs(s: Pool, ips: seq<string>, k: nat, ticks: nat -> StatusTick): Pool
    decreases |ips|
  {
    if ips == [] || ticks(k).cancelled then s
    else CheckIPs(CheckIP(s, ips[0], ticks(k)), ips[1..], k + 1, ticks)
  }

  function ReconcileIPStatus(s: Pool, ticks: nat -> StatusTick): Pool {
    CheckIPs(s, s.ips, 0, ticks)
  }

  // ----- reconcile: assigning IPs to nodes -----

  /** One turn of the assignment loop. result None is success; Some(StillInProgress) counts as one. */
  datatype AssignTick = AssignTick(cancelled: bool, delay: nat, result: Option<ProviderError>, done: nat, stamp: nat)

  predicate Succeeds(result: Option<ProviderError>) {
    result == None || result == Some(StillInProgress)
  }

  /** The retry record a failing node gets: its own one advanced, or a new one on the error's schedule. */
  function NodeBackoff(retries: map<string, Retry>, node: string, err: ProviderError, now: Time): Retry {
    var r := if node in retries then retries[node] else Retry(0, 0, ErrorToRetrySchedule(err));
    Retry(r.attempts + 1, now + After(r.schedule, r.attempts), r.schedule)
  }

  function AssignedStatus(node: string, now: Time): IpStatus {
    IpStatus(0, now + After(RETRY_FAST, 0), RETRY_FAST, NoMessage, node, InProgress)
  }

  function RefusedStatus(st: IpStatus, err: ProviderError, now: Time): IpStatus {
    var schedule := ErrorToRetrySchedule(err);
    IpStatus(st.attempts, now + After(schedule, st.attempts), schedule, AssignFailed(err), "", Error)
  }

  /** Calls AssignIP for an IP and a node already taken off their queues. */
  function Attempt(s: Pool, ip: string, node: string, t: AssignTick): Pool
    requires ip in s.status
  {
    var st := s.status[ip];
    var done := s.clock + t.done;
    if Succeeds(t.result) then
      var st' := AssignedStatus(node, done + t.stamp);
      s.(claims := (s.claims - {st.node})[node := ip],
         status := s.status[ip := st'],
         nodeRetry := s.nodeRetry - {node},
         nextAssignment := done + s.coolOff,
         clock := done + t.stamp,
         wakeAt := Sooner(s.wakeAt, st'.nextRetry),
         dnsDirty := true,
         log := s.log + [Assigned(ip, node, s.clock, done, s.coolOff, done + t.stamp, st'.nextRetry)])
    else
      var err := t.result.value;
      var backoff := NodeBackoff(s.nodeRetry, node, err, done);
      var st' := RefusedStatus(st, err, done + t.stamp);
      s.(claims := s.claims - {st.node} - {node},
         status := s.status[ip := st'],
         nodeRetry := s.nodeRetry[node := backoff],
         clock := done + t.stamp,
         wakeAt := Sooner(Sooner(s.wakeAt, backoff.nextRetry), st'.nextRetry),
         dnsDirty := true,
         log := s.log + [Refused(ip, node, s.clock, done, err, backoff.nextRetry, done + t.stamp, st'.nextRetry)])
  }

  /** The assignment loop's variables: the pool and the two retry lists. */
  datatype Loop = Loop(s: Pool, retryIPs: seq<string>, retryNodes: seq<string>)

  predicate CoolingOff(s: Pool) {
    s.coolOff != 0 && s.clock <= s.nextAssignment
  }

  /** The IP at the head of the queue was refused and is still waiting. */
  predicate HeadIPWaits(s: Pool)
    requires s.ipQueue != [] && s.ipQueue[0] in s.status
  {
    var st := s.status[s.ipQueue[0]];
    st.state == Error && st.nextRetry > s.clock
  }

  /** The node at the head of the queue failed and is still waiting. */
  predicate HeadNodeWaits(s: Pool)
    requires s.nodeQueue != []
  {
    s.nodeQueue[0] in s.nodeRetry && s.nodeRetry[s.nodeQueue[0]].nextRetry > s.clock
  }

  /** The body of the assignment loop after its cancellation and cool-off tests. */
  function TryHeads(l: Loop, t: AssignTick): Loop
    requires l.s.ipQueue != [] && l.s.nodeQueue != [] && l.s.ipQueue[0] in l.s.status
  {
    var s := l.s;
    var ip, node := s.ipQueue[0], s.nodeQueue[0];
    var s1 := s.(ipQueue := s.ipQueue[1..]);
    if HeadIPWaits(s) then
      Loop(WakeBy(s1, s.status[ip].nextRetry), l.retryIPs + [ip], l.retryNodes)
    else
      var s2 := s1.(nodeQueue := s.nodeQueue[1..]);
      if HeadNodeWaits(s) then
        Loop(WakeBy(s2, s.nodeRetry[node].nextRetry), l.retryIPs + [ip], l.retryNodes + [node])
      else if Succeeds(t.result) then
        Loop(Attempt(s2, ip, node, t), l.retryIPs, l.retryNodes)
      else
        Loop(Attempt(s2, ip, node, t), l.retryIPs + [ip], l.retryNodes + [node])
  }

  function AssignLoop(l: Loop, k: nat, ticks: nat -> AssignTick): Loop
    decreases |l.s.ipQueue|
  {
    if l.s.ipQueue == [] || l.s.nodeQueue == [] || ticks(k).cancelled then l
    else
      var s := Tick(l.s, ticks(k).delay);
      if CoolingOff(s) then l.(s := WakeBy(s, s.nextAssignment))
      else if s.ipQueue[0] !in s.status then l.(s := s.(crashed := true))
      else AssignLoop(TryHeads(l.(s := s), ticks(k)), k + 1, ticks)
  }

  function Requeue(l: Loop): Pool {
    l.s.(ipQueue := IncludingAll(l.s.ipQueue, l.retryIPs), nodeQueue := IncludingAll(l.s.nodeQueue, l.retryNodes))
  }

  function ReconcileAssignment(s: Pool, ticks: nat -> AssignTick): Pool {
    Requeue(AssignLoop(Loop(s, [], []), 0, ticks))
  }

  // ----- reconcile: DNS, and the whole pass -----

  function ActiveIPs(s: Pool, ips: seq<string>): seq<string> {
    if ips == [] then []
    else if ips[0] in s.status && s.status[ips[0]].state == Active then [ips[0]] + ActiveIPs(s, ips[1..])
    else ActiveIPs(s, ips[1..])
  }

  predicate DnsIdle(s: Pool) {
    s.ips == [] || s.dns == None || !s.dnsDirty
  }

  /** published: EnsureDNSARecordSet went through. */
  function ReconcileDNS(s: Pool, published: bool): Pool {
    if DnsIdle(s) then s
    else if exists i :: 0 <= i < |s.ips| && s.ips[i] !in s.status then s.(crashed := true)
    else
      var active := ActiveIPs(s, s.ips);
      if active == [] || !published then s
      else s.(dnsDirty := false, log := s.log + [Published(s.dns.value, active)])
  }

  datatype ReconcileEnv = ReconcileEnv(
    start: nat,
    create: CreateEnv,
    pendingCancelled: bool,
    persisted: bool,
    status: nat -> StatusTick,
    assign: nat -> AssignTick,
    published: bool)

  function ReconcileStart(s: Pool, env: ReconcileEnv): Pool {
    var s1 := Tick(s, env.start);
    s1.(wakeAt := s1.clock + RECONCILE_PERIOD)
  }

  /** The state the poll of this pass starts from. */
  function BeforePoll(s: Pool, env: ReconcileEnv): Pool {
    ReconcilePendingIPs(ReconcileDesiredIPs(ReconcileStart(s, env), env.create), env.pendingCancelled, env.persisted)
  }

  /** The pass up to reconcileDNS. */
  function ReconcileToDNS(s: Pool, env: ReconcileEnv): Pool {
    ReconcileAssignment(ReconcileIPStatus(BeforePoll(s, env), env.status), env.assign)
  }

  function Reconcile(s: Pool, env: ReconcileEnv): Pool {
    var t := ReconcileToDNS(s, env);
    if t.crashed then t else ReconcileDNS(t, env.published)
  }

  // ----- runs -----

  datatype Step =
    | ProvidersStep(provider: string, region: string, coolOff: nat)
    | SpecStep(ips: seq<string>, desiredIPs: nat, order: seq<string>)
    | DnsStep(dns: Option<DnsSpec>)
    | DisableStep(visits: seq<Visit>)
    | EnableStep(visits: seq<Visit>)
    | ReconcileStep(env: ReconcileEnv)

  function Apply(s: Pool, step: Step): Pool {
    if s.crashed then s
    else
      match step
      case ProvidersStep(provider, region, coolOff) => UpdateProviders(s, provider, region, coolOff)
      case SpecStep(ips, desiredIPs, order) => UpdateIPs(s, ips, desiredIPs, order)
      case DnsStep(dns) => UpdateDNSSpec(s, dns)
      case DisableStep(visits) => DisableNodes(s, visits)
      case EnableStep(visits) => EnableNodes(s, visits)
      case ReconcileStep(env) => Reconcile(s, env)
  }

  function Run(s: Pool, steps: seq<Step>): Pool
    decreases |steps|
  {
    if steps == [] then s else Run(Apply(s, steps[0]), steps[1..])
  }

  lemma RunFirst(s: Pool, step: Step, rest: seq<Step>)
    ensures Run(s, [step] + rest) == Run(Apply(s, step), rest)
  {
  }
}
