/** The floating IP controller itself: an object whose methods update its fields in place. Each method
    is proved to take the controller's snapshot where the pool's step function says. The two work
    queues are held by their contents; OrderedSets shows the linked structure that implements them. */
module IpControllers {
  import opened Options
  import opened RetrySchedules
  import opened OrderedQueues
  import opened PoolState
  import opened PoolAgreement

  /** A failed lookup changes these fields and no others. */
  lemma ErrorFields(s: Pool, ip: string, st: IpStatus, err: ProviderError, stamp: nat)
    ensures var st', ownerActive := ErrorStatus(st, err, s.clock + stamp), st.node in s.active;
      StatusError(s, ip, st, err, stamp) ==
        s.(status := s.status[ip := st'],
           claims := if err == NotFound then s.claims - {st.node} else s.claims,
           nodeQueue := AddIf(err == NotFound && ownerActive, s.nodeQueue, st.node, true),
           ipQueue := DeleteIf(err == NotFound && !ownerActive, s.ipQueue, ip),
           wakeAt := Sooner(s.wakeAt, st'.nextRetry), clock := s.clock + stamp,
           dnsDirty := s.dnsDirty || Changed(st, st'),
           log := s.log + [Looked(ip, Failed(err), s.clock, s.clock + stamp, st'.nextRetry)])
  {
  }

  /** An answer changes these fields and no others. */
  lemma FoundFields(s: Pool, ip: string, known: bool, st: IpStatus, owner: string, stamp: nat, statuses: map<string, IpStatus>,
                    claims: map<string, string>, nodes: seq<string>, queue: seq<string>, log: seq<Call>)
    requires var s1 := s.(ipQueue := AddIf(owner == "", s.ipQueue, ip, true));
      var a := if st.node != owner then Adopt(s1, ip, known, st.node, owner) else s1;
      var until := HealthyStatus(s.active, owner, s.clock + stamp).nextRetry;
      && statuses == a.status && claims == a.claims && nodes == a.nodeQueue && queue == a.ipQueue
      && log == a.log + [Looked(ip, Owner(owner), s.clock, s.clock + stamp, until)]
    ensures var st' := HealthyStatus(s.active, owner, s.clock + stamp);
      StatusOk(s, ip, known, st, owner, stamp) ==
        s.(status := statuses[ip := st'], claims := claims, nodeQueue := nodes, ipQueue := queue, clock := s.clock + stamp,
           dnsDirty := s.dnsDirty || Changed(st, st'), log := log)
  {
  }

  class IpController {
    var provider: string
    var region: string
    var assignmentCoolOff: nat
    var desiredIPs: nat
    var ips: seq<string>
    var pendingIPs: seq<string>
    var nextRetry: Time
    var createAttempts: nat
    var createNextRetry: Time
    var nextAssignment: Time
    var ipToStatus: map<string, IpStatus>
    var providerIDToIP: map<string, string>
    var providerIDToNodeName: map<string, string>
    var providerIDToRetry: map<string, Retry>
    var assignableIPs: seq<string>
    var assignableNodes: seq<string>
    var dns: Option<DnsSpec>
    var dnsDirty: bool
    var now: Time           // what the clock last said
    var crashed: bool       // a nil status was dereferenced
    ghost var log: seq<Call>

    /** The controller's state as a value. */
    ghost function Snapshot(): Pool
      reads this
    {
      Pool(provider, region, assignmentCoolOff, desiredIPs, ips, pendingIPs, nextRetry, createAttempts, createNextRetry,
           nextAssignment, ipToStatus, providerIDToIP, providerIDToNodeName, providerIDToRetry,
           assignableIPs, assignableNodes, dns, dnsDirty, now, log, crashed)
    }

    constructor (clock: Time)
      ensures Snapshot() == NewPool(clock)
    {
      provider, region, assignmentCoolOff, desiredIPs := "", "", 0, 0;
      ips, pendingIPs := [], [];
      nextRetry, createAttempts, createNextRetry, nextAssignment := 0, 0, 0, 0;
      ipToStatus, providerIDToIP, providerIDToNodeName, providerIDToRetry := map[], map[], map[], map[];
      assignableIPs, assignableNodes := [], [];
      dns, dnsDirty, now, crashed, log := None, false, clock, false, [];
    }

    // ----- configuration -----

    method Reset()
      modifies `ipToStatus, `providerIDToRetry, `providerIDToIP, `providerIDToNodeName, `assignableIPs, `assignableNodes
      ensures ipToStatus == map[] && providerIDToRetry == map[] && providerIDToIP == map[] && providerIDToNodeName == map[]
      ensures assignableIPs == [] && assignableNodes == []
    {
      ipToStatus := map[];
      providerIDToRetry := map[];
      providerIDToIP := map[];
      providerIDToNodeName := map[];
      assignableIPs := [];
      assignableNodes := [];
    }

    method UpdateProviders(prov: string, reg: string, newCoolOff: nat) returns (change: bool)
      modifies this
      ensures Snapshot() == PoolState.UpdateProviders(old(Snapshot()), prov, reg, newCoolOff)
      ensures change == (old(provider) != prov || old(region) != reg || old(assignmentCoolOff) != newCoolOff)
    {
      var moved := SetHome(prov, reg);
      var recooled := SetCoolOff(newCoolOff);
      change := moved || recooled;
    }

    method SetHome(prov: string, reg: string) returns (change: bool)
      modifies this
      ensures change == (old(provider) != prov || old(region) != reg)
      ensures Snapshot() == PoolState.UpdateProviders(old(Snapshot()), prov, reg, old(assignmentCoolOff))
    {
      change := provider != prov || region != reg;
      if change {
        Move(prov, reg);
      }
    }

    method Move(prov: string, reg: string)
      modifies `provider, `region, `log, `ipToStatus, `providerIDToRetry, `providerIDToIP, `providerIDToNodeName,
        `assignableIPs, `assignableNodes
      ensures provider == prov && region == reg && log == old(log) + [Call.Reset]
      ensures ipToStatus == map[] && providerIDToRetry == map[] && providerIDToIP == map[] && providerIDToNodeName == map[]
      ensures assignableIPs == [] && assignableNodes == []
    {
      Reset();
      region := reg;
      provider := prov;
      log := log + [Call.Reset];
    }

    method SetCoolOff(newCoolOff: nat) returns (change: bool)
      modifies `nextAssignment, `assignmentCoolOff
      ensures change == (old(assignmentCoolOff) != newCoolOff) && assignmentCoolOff == newCoolOff
      ensures nextAssignment ==
              if old(nextAssignment) != 0 then old(nextAssignment) + (newCoolOff - old(assignmentCoolOff)) else 0
    {
      change := false;
      if assignmentCoolOff != newCoolOff {
        if nextAssignment != 0 {
          var coolOffAdjustment := newCoolOff - assignmentCoolOff;
          nextAssignment := nextAssignment + coolOffAdjustment;
        }
        assignmentCoolOff := newCoolOff;
        change := true;
      }
    }

    /** order is the order in which the status map happened to be ranged over. */
    method UpdateIPs(specIPs: seq<string>, desired: nat) returns (ghost order: seq<string>)
      modifies this
      ensures IterationOrder(order, old(ipToStatus).Keys)
      ensures Snapshot() == PoolState.UpdateIPs(old(Snapshot()), specIPs, desired, order)
    {
      var wanted := specIPs;
      if desired != 0 && |specIPs| > desired {
        wanted := specIPs[..desired];
      }
      if wanted == ips &&
         (desiredIPs == desired || desired == 0 || (desiredIPs == 0 && desired == |wanted|)) {
        order := AnyOrder(ipToStatus.Keys);
        desiredIPs := desired;
      } else {
        order := ReplaceIPs(wanted);
        desiredIPs := desired;
      }
    }

    method ReplaceIPs(wanted: seq<string>) returns (ghost order: seq<string>)
      modifies this
      ensures IterationOrder(order, old(ipToStatus).Keys)
      ensures Snapshot() == ForgetUnwanted(old(Snapshot()).(dnsDirty := true), wanted, order).(ips := wanted)
    {
      dnsDirty := true;
      var knownIPs := KnownAmong(wanted);
      order := ForgetAllBut(wanted, knownIPs);
      ips := wanted;
    }

    method KnownAmong(wanted: seq<string>) returns (knownIPs: set<string>)
      ensures knownIPs == set x | x in wanted && x in ipToStatus
    {
      knownIPs := {};
      for i := 0 to |wanted|
        invariant knownIPs == set x | x in wanted[..i] && x in ipToStatus
      {
        if wanted[i] in ipToStatus {
          knownIPs := knownIPs + {wanted[i]};
        }
        assert wanted[..i + 1] == wanted[..i] + [wanted[i]];
      }
      assert wanted[..|wanted|] == wanted;
    }

    method ForgetAllBut(wanted: seq<string>, knownIPs: set<string>) returns (ghost order: seq<string>)
      requires knownIPs == set x | x in wanted && x in ipToStatus
      modifies this
      ensures IterationOrder(order, old(ipToStatus).Keys)
      ensures Snapshot() == ForgetUnwanted(old(Snapshot()), wanted, order)
    {
      ghost var s0 := Snapshot();
      ghost var keys := ipToStatus.Keys;
      var todo := ipToStatus.Keys;
      order := [];
      while todo != {}
        invariant NoDup(order) && forall x :: x in order <==> x in keys && x !in todo
        invariant todo <= keys && todo <= ipToStatus.Keys
        invariant Snapshot() == ForgetUnwanted(s0, wanted, order)
        decreases todo
      {
        var ip :| ip in todo;
        todo := todo - {ip};
        ForgetOneMore(s0, wanted, order, ip);
        Appended(order, ip);
        order := order + [ip];
        if ip !in knownIPs {
          ForgetIP(ip);
        }
      }
    }

    method ForgetFields(ip: string)
      requires ip in ipToStatus
      modifies `ipToStatus, `providerIDToIP, `providerIDToRetry, `assignableIPs, `assignableNodes, `log
      ensures var t := Forget(old(Snapshot()), ip);
        && ipToStatus == t.status && providerIDToIP == t.claims && providerIDToRetry == t.nodeRetry
        && assignableIPs == t.ipQueue && assignableNodes == t.nodeQueue && log == t.log
    {
      var node := ipToStatus[ip].node;
      var nodes, claims, retries := assignableNodes, providerIDToIP, providerIDToRetry;
      if node != "" {
        if node in providerIDToNodeName {
          nodes := Including(nodes, node, true);  // this node needs reassigning first
        }
        claims := claims[node := ""];
        retries := retries - {node};
      }
      assignableNodes, providerIDToIP, providerIDToRetry := nodes, claims, retries;
      assignableIPs := Without(assignableIPs, ip);
      ipToStatus := ipToStatus - {ip};
      log := log + [Forgot(ip, node)];
    }

    method ForgetIP(ip: string)
      requires ip in ipToStatus
      modifies this
      ensures Snapshot() == Forget(old(Snapshot()), ip)
    {
      ForgetFields(ip);
    }

    method UpdateDNSSpec(spec: Option<DnsSpec>)
      modifies this
      ensures Snapshot() == PoolState.UpdateDNSSpec(old(Snapshot()), spec)
    {
      if spec == dns {
        return;
      }
      dns := None;
      dnsDirty := false;
      if spec == None {
        return;
      }
      if spec.value.recordName == "" || spec.value.zone == "" {
        return;
      }
      dns := spec;
      if dns.value.ttl == 0 {
        dns := Some(dns.value.(ttl := DEFAULT_TTL));
      }
      dnsDirty := true;
    }

    // ----- nodes -----

    method DisableNodes(visits: seq<Visit>)
      modifies this
      ensures Snapshot() == PoolState.DisableNodes(old(Snapshot()), visits)
    {
      for i := 0 to |visits|
        invariant PoolState.DisableNodes(old(Snapshot()), visits) == PoolState.DisableNodes(Snapshot(), visits[i..])
      {
        assert visits[i..][1..] == visits[i + 1..];
        DisableOne(visits[i]);
      }
    }

    method DisableOne(v: Visit)
      modifies this
      ensures Snapshot() == DisableNode(old(Snapshot()), v)
    {
      var providerID := v.node.providerID;
      if !crashed && providerID != "" && providerID in providerIDToNodeName {
        DisableActive(v);
      }
    }

    method DisableActive(v: Visit)
      requires !crashed && v.node.providerID != "" && v.node.providerID in providerIDToNodeName
      modifies this
      ensures Snapshot() == DisableNode(old(Snapshot()), v)
    {
      NodeFieldsOnly(Snapshot(), v);
      DisableFields(v);
    }

    method DisableFields(v: Visit)
      requires !crashed && v.node.providerID != "" && v.node.providerID in providerIDToNodeName
      modifies `providerIDToNodeName, `assignableIPs, `ipToStatus, `assignableNodes, `dnsDirty, `crashed, `now, `log
      ensures var t := DisableNode(old(Snapshot()), v);
        && providerIDToNodeName == t.active && assignableIPs == t.ipQueue && ipToStatus == t.status
        && assignableNodes == t.nodeQueue && dnsDirty == t.dnsDirty && crashed == t.crashed
        && now == t.clock && log == t.log
    {
      var providerID := v.node.providerID;
      var ip := if providerID in providerIDToIP then providerIDToIP[providerID] else "";
      if ip != "" {
        // At the back of the queue, so that the node can get it back if it recovers.
        assignableIPs := Including(assignableIPs, ip, false);
        ReleaseIP(ip, v.delay);
      }
      if !crashed {
        assignableNodes := Without(assignableNodes, providerID);
      }
      providerIDToNodeName := providerIDToNodeName - {providerID};
    }

    method ReleaseIP(ip: string, delay: nat)
      requires !crashed
      modifies `ipToStatus, `dnsDirty, `crashed, `now, `log
      ensures crashed == (ip !in old(ipToStatus))
      ensures crashed ==> ipToStatus == old(ipToStatus) && dnsDirty == old(dnsDirty) && now == old(now) && log == old(log)
      ensures !crashed ==>
        && ipToStatus == old(ipToStatus)[ip := Released(old(ipToStatus)[ip], old(now) + delay)]
        && dnsDirty && now == old(now) + delay && log == old(log) + [Parked(ip, now, now + After(RETRY_SLOW, 0))]
    {
      if ip in ipToStatus {
        now := now + delay;
        ipToStatus := ipToStatus[ip := Released(ipToStatus[ip], now)];
        log := log + [Parked(ip, now, ipToStatus[ip].nextRetry)];
        dnsDirty := true;
      } else {
        crashed := true;
      }
    }

    method EnableNodes(visits: seq<Visit>)
      modifies this
      ensures Snapshot() == PoolState.EnableNodes(old(Snapshot()), visits)
    {
      for i := 0 to |visits|
        invariant PoolState.EnableNodes(old(Snapshot()), visits) == PoolState.EnableNodes(Snapshot(), visits[i..])
      {
        assert visits[i..][1..] == visits[i + 1..];
        EnableOne(visits[i]);
      }
    }

    method EnableOne(v: Visit)
      modifies this
      ensures Snapshot() == EnableNode(old(Snapshot()), v)
    {
      var providerID := v.node.providerID;
      if !crashed && providerID != "" && providerID !in providerIDToNodeName {
        EnableInactive(v);
      }
    }

    method EnableInactive(v: Visit)
      requires !crashed && v.node.providerID != "" && v.node.providerID !in providerIDToNodeName
      modifies this
      ensures Snapshot() == EnableNode(old(Snapshot()), v)
    {
      NodeFieldsOnly(Snapshot(), v);
      EnableFields(v);
    }

    method EnableFields(v: Visit)
      requires !crashed && v.node.providerID != "" && v.node.providerID !in providerIDToNodeName
      modifies `providerIDToNodeName, `assignableIPs, `ipToStatus, `assignableNodes, `dnsDirty, `crashed, `now, `log
      ensures var t := EnableNode(old(Snapshot()), v);
        && providerIDToNodeName == t.active && assignableIPs == t.ipQueue && ipToStatus == t.status
        && assignableNodes == t.nodeQueue && dnsDirty == t.dnsDirty && crashed == t.crashed
        && now == t.clock && log == t.log
    {
      var providerID := v.node.providerID;
      providerIDToNodeName := providerIDToNodeName[providerID := v.node.name];
      var ip := if providerID in providerIDToIP then providerIDToIP[providerID] else "";
      if ip == "" {
        assignableNodes := Including(assignableNodes, providerID, false);
      } else {
        RegainIP(ip, providerID, v.delay);
      }
    }

    method RegainIP(ip: string, providerID: string, delay: nat)
      requires !crashed
      modifies `assignableIPs, `ipToStatus, `dnsDirty, `crashed, `now, `log
      ensures crashed == (ip !in old(ipToStatus))
      ensures crashed ==>
        && ipToStatus == old(ipToStatus) && assignableIPs == old(assignableIPs) && dnsDirty == old(dnsDirty) && now == old(now)
        && log == old(log)
      ensures !crashed ==>
        && ipToStatus == old(ipToStatus)[ip := Regained(old(ipToStatus)[ip], providerID, old(now) + delay)]
        && assignableIPs == Without(old(assignableIPs), ip) && dnsDirty && now == old(now) + delay
        && log == old(log) + [Resumed(ip, now, now + After(RETRY_FAST, 0))]
    {
      if ip in ipToStatus {
        now := now + delay;
        ipToStatus := ipToStatus[ip := Regained(ipToStatus[ip], providerID, now)];
        log := log + [Resumed(ip, now, ipToStatus[ip].nextRetry)];
        assignableIPs := Without(assignableIPs, ip);
        dnsDirty := true;
      } else {
        crashed := true;
      }
    }

    // ----- reconcile -----

    method ReconcileDesiredIPs(env: CreateEnv)
      modifies this
      ensures Snapshot() == PoolState.ReconcileDesiredIPs(old(Snapshot()), env)
    {
      if env.cancelled {
        return;
      }
      now := now + env.delay;
      if createNextRetry > now {
        nextRetry := Sooner(nextRetry, createNextRetry);
        return;
      }
      CreateMissing(env.results);
    }

    method CreateMissing(results: nat -> CreateResult)
      modifies this
      ensures Snapshot() == CreateIPs(old(Snapshot()), 0, results)
    {
      ghost var s0 := Snapshot();
      var k, failed := 0, false;
      while !failed && |ips| + |pendingIPs| < desiredIPs
        invariant CreateIPs(s0, 0, results) == if failed then Snapshot() else CreateIPs(Snapshot(), k, results)
        decreases !failed, desiredIPs - |ips| - |pendingIPs|
      {
        failed := CreateOne(results(k));
        k := k + 1;
      }
    }

    method CreateFields(result: CreateResult) returns (failed: bool)
      modifies `dnsDirty, `pendingIPs, `createAttempts, `createNextRetry, `nextRetry, `now, `log
      ensures failed == result.NoIP? && dnsDirty
      ensures match result
        case NewIP(ip) =>
          && pendingIPs == old(pendingIPs) + [ip] && log == old(log) + [Created(ip)] && createAttempts == 0
          && createNextRetry == old(createNextRetry) && nextRetry == old(nextRetry) && now == old(now)
        case NoIP(err, delay) =>
          && pendingIPs == old(pendingIPs) && createAttempts == old(createAttempts) + 1
          && now == old(now) + delay
          && createNextRetry == now + After(ErrorToRetrySchedule(err), old(createAttempts))
          && nextRetry == Sooner(old(nextRetry), createNextRetry)
          && log == old(log) + [CreateFailed(err, now, createNextRetry)]
    {
      dnsDirty := true;
      match result {
        case NewIP(ip) =>
          log := log + [Created(ip)];
          pendingIPs := pendingIPs + [ip];
          createAttempts := 0;
          failed := false;
        case NoIP(err, delay) =>
          now := now + delay;
          createNextRetry := now + After(ErrorToRetrySchedule(err), createAttempts);
          createAttempts := createAttempts + 1;
          nextRetry := Sooner(nextRetry, createNextRetry);
          log := log + [CreateFailed(err, now, createNextRetry)];
          failed := true;
      }
    }

    method CreateOne(result: CreateResult) returns (failed: bool)
      modifies this
      ensures Snapshot() == (
        var s := old(Snapshot()).(dnsDirty := true);
        match result
        case NewIP(ip) => s.(pendingIPs := s.pendingIPs + [ip], createAttempts := 0, log := s.log + [Created(ip)])
        case NoIP(err, delay) =>
          var next := s.clock + delay + After(ErrorToRetrySchedule(err), s.createAttempts);
          s.(clock := s.clock + delay, createAttempts := s.createAttempts + 1, createNextRetry := next,
             wakeAt := Sooner(s.wakeAt, next), log := s.log + [CreateFailed(err, s.clock + delay, next)]))
      ensures failed == result.NoIP?
    {
      failed := CreateFields(result);
    }

    method ReconcilePendingIPs(cancelled: bool, persisted: bool)
      modifies this
      ensures Snapshot() == PoolState.ReconcilePendingIPs(old(Snapshot()), cancelled, persisted)
    {
      if !cancelled && |pendingIPs| > 0 && persisted {
        AdoptPersisted();
      }
    }

    method AdoptPersisted()
      requires pendingIPs != []
      modifies this
      ensures Snapshot() == PoolState.ReconcilePendingIPs(old(Snapshot()), false, true)
    {
      var statuses, queue := AdoptAll();
      AcceptPending(statuses, queue);
    }

    /** The status map and the queue with the pending IPs in them. */
    method AdoptAll() returns (statuses: map<string, IpStatus>, queue: seq<string>)
      ensures var s := Snapshot().(dnsDirty := true, log := log + [Persisted(pendingIPs)]);
        AdoptPending(s, pendingIPs) == s.(status := statuses, ipQueue := queue)
    {
      ghost var s0 := Snapshot().(dnsDirty := true, log := log + [Persisted(pendingIPs)]);
      statuses, queue := ipToStatus, assignableIPs;
      for i := 0 to |pendingIPs|
        invariant AdoptPending(s0, pendingIPs) ==
                  AdoptPending(s0.(status := statuses, ipQueue := queue), pendingIPs[i..])
      {
        assert pendingIPs[i..][1..] == pendingIPs[i + 1..];
        // An empty IP is a priority for assignment.
        statuses := statuses[pendingIPs[i] := CREATED_STATUS];
        queue := Including(queue, pendingIPs[i], true);
      }
    }

    method AcceptPending(statuses: map<string, IpStatus>, queue: seq<string>)
      requires pendingIPs != []
      requires var s := Snapshot().(dnsDirty := true, log := log + [Persisted(pendingIPs)]);
        AdoptPending(s, pendingIPs) == s.(status := statuses, ipQueue := queue)
      modifies `log, `dnsDirty, `ipToStatus, `assignableIPs, `ips, `pendingIPs
      ensures var u := PoolState.ReconcilePendingIPs(old(Snapshot()), false, true);
        && log == u.log && dnsDirty == u.dnsDirty && ipToStatus == u.status && assignableIPs == u.ipQueue
        && ips == u.ips && pendingIPs == u.pendingIPs
        && u == old(Snapshot()).(log := u.log, dnsDirty := u.dnsDirty, status := u.status, ipQueue := u.ipQueue,
                                 ips := u.ips, pendingIPs := u.pendingIPs)
    {
      log := log + [Persisted(pendingIPs)];
      dnsDirty := true;
      ipToStatus, assignableIPs := statuses, queue;
      ips := ips + pendingIPs;
      pendingIPs := [];
    }

    method ReconcileIPStatus(ticks: nat -> StatusTick)
      modifies this
      ensures Snapshot() == PoolState.ReconcileIPStatus(old(Snapshot()), ticks)
    {
      ghost var s0 := Snapshot();
      var polled := ips;
      for k := 0 to |polled|
        invariant CheckIPs(s0, polled, 0, ticks) == CheckIPs(Snapshot(), polled[k..], k, ticks)
      {
        if ticks(k).cancelled {
          return;
        }
        assert polled[k..][1..] == polled[k + 1..];
        CheckStatus(polled[k], ticks(k));
      }
    }

    /** The loop body of ReconcileIPStatus. */
    method CheckStatus(ip: string, t: StatusTick)
      modifies this
      ensures Snapshot() == CheckIP(old(Snapshot()), ip, t)
    {
      ghost var s1 := See(Snapshot(), ip, t.delay);
      var ipInitialized, status := Look(ip, t.delay);
      assert Snapshot() == s1;
      if status.nextRetry > now {
        Defer(status.nextRetry);
      } else {
        CheckDue(ip, ipInitialized, status, t);
      }
    }

    method Defer(next: Time)
      modifies `nextRetry
      ensures Snapshot() == WakeBy(old(Snapshot()), next)
    {
      nextRetry := Sooner(nextRetry, next);
    }

    method Look(ip: string, delay: nat) returns (ipInitialized: bool, status: IpStatus)
      modifies `ipToStatus, `now
      ensures ipInitialized == (ip in old(ipToStatus))
      ensures status == if ip in old(ipToStatus) then old(ipToStatus)[ip] else NEW_STATUS
      ensures ipToStatus == old(ipToStatus)[ip := status] && now == old(now) + delay
    {
      ipInitialized := ip in ipToStatus;
      status := if ipInitialized then ipToStatus[ip] else NEW_STATUS;
      ipToStatus := ipToStatus[ip := status];
      now := now + delay;
    }

    method CheckDue(ip: string, ipInitialized: bool, status: IpStatus, t: StatusTick)
      modifies this
      ensures Snapshot() ==
        match t.answer
        case Failed(err) => StatusError(old(Snapshot()), ip, status, err, t.stamp)
        case Owner(owner) => StatusOk(old(Snapshot()), ip, ipInitialized, status, owner, t.stamp)
    {
      match t.answer {
        case Failed(err) => StatusFailed(ip, status, err, t.stamp);
        case Owner(providerID) => StatusFound(ip, ipInitialized, status, providerID, t.stamp);
      }
    }

    method FailedFields(ip: string, found: IpStatus, err: ProviderError, stamp: nat) returns (until: Time)
      modifies `ipToStatus, `providerIDToIP, `assignableIPs, `assignableNodes, `nextRetry, `dnsDirty, `now
      ensures var st := ErrorStatus(found, err, old(now) + stamp);
        var lost, ownerActive := err == NotFound, found.node in providerIDToNodeName;
        && ipToStatus == old(ipToStatus)[ip := st]
        && providerIDToIP == (if lost then old(providerIDToIP) - {found.node} else old(providerIDToIP))
        && assignableNodes == AddIf(lost && ownerActive, old(assignableNodes), found.node, true)
        && assignableIPs == DeleteIf(lost && !ownerActive, old(assignableIPs), ip)
        && nextRetry == Sooner(old(nextRetry), st.nextRetry)
        && dnsDirty == (old(dnsDirty) || Changed(found, st))
        && now == old(now) + stamp && until == st.nextRetry
    {
      var claims, nodes, queue := Disowned(err == NotFound, ip, found.node);
      var status := FailedRecord(found, err, now + stamp);
      now := now + stamp;
      providerIDToIP, assignableNodes, assignableIPs := claims, nodes, queue;
      ipToStatus := ipToStatus[ip := status];
      until := status.nextRetry;
      nextRetry := Sooner(nextRetry, until);
      NoteChange(found, status);
    }

    static method FailedRecord(found: IpStatus, err: ProviderError, at: Time) returns (status: IpStatus)
      ensures status == ErrorStatus(found, err, at)
    {
      status := found.(schedule := ErrorToRetrySchedule(err));
      if err == NotFound {
        status := status.(node := "");
      }
      if err == StillInProgress {
        status := status.(state := InProgress, message := NoMessage);
      } else {
        status := status.(state := Error, message := LookupFailed(err));
      }
      status := status.(nextRetry := at + After(status.schedule, status.attempts));
      status := status.(attempts := status.attempts + 1);
    }

    /** Claims and queues after an IP was lost: its owner wants another one, or it is not assignable. */
    method Disowned(lost: bool, ip: string, owner: string)
        returns (claims: map<string, string>, nodes: seq<string>, queue: seq<string>)
      ensures claims == if lost then providerIDToIP - {owner} else providerIDToIP
      ensures nodes == AddIf(lost && owner in providerIDToNodeName, assignableNodes, owner, true)
      ensures queue == DeleteIf(lost && owner !in providerIDToNodeName, assignableIPs, ip)
    {
      claims, nodes, queue := providerIDToIP, assignableNodes, assignableIPs;
      if lost {
        claims := claims - {owner};
        if owner in providerIDToNodeName {
          nodes := Including(nodes, owner, true);
        } else {
          queue := Without(queue, ip);
        }
      }
    }

    method StatusFailed(ip: string, found: IpStatus, err: ProviderError, stamp: nat)
      modifies this
      ensures Snapshot() == StatusError(old(Snapshot()), ip, found, err, stamp)
    {
      ghost var s := Snapshot();
      var until := FailedFields(ip, found, err, stamp);
      log := log + [Looked(ip, Failed(err), s.clock, now, until)];
      ErrorFields(s, ip, found, err, stamp);
    }

    method StatusFound(ip: string, ipInitialized: bool, found: IpStatus, providerID: string, stamp: nat)
      modifies this
      ensures Snapshot() == StatusOk(old(Snapshot()), ip, ipInitialized, found, providerID, stamp)
    {
      ghost var s := Snapshot();
      var status := HealthyRecord(providerID, now + stamp);
      var statuses, claims, nodes, queue := Reconciled(ip, ipInitialized, found.node, providerID);
      ghost var entries := LookEntries(ip, ipInitialized, found.node, providerID, stamp, status.nextRetry);
      FoundFields(s, ip, ipInitialized, found, providerID, stamp, statuses, claims, nodes, queue, entries);
      Healthy(status, statuses, claims, nodes, queue, ip, found, stamp, entries);
    }

    ghost method LookEntries(ip: string, ipInitialized: bool, expectedProviderID: string, providerID: string, stamp: nat,
                             until: Time) returns (entries: seq<Call>)
      ensures var s1 := Snapshot().(ipQueue := AddIf(providerID == "", assignableIPs, ip, true));
        var t := if expectedProviderID != providerID then Adopt(s1, ip, ipInitialized, expectedProviderID, providerID) else s1;
        entries == t.log + [Looked(ip, Owner(providerID), now, now + stamp, until)]
    {
      var other := if providerID in providerIDToIP then providerIDToIP[providerID] else "";
      entries := if expectedProviderID != providerID && other != "" && other != ip then log + [Evicted(other)] else log;
      entries := entries + [Looked(ip, Owner(providerID), now, now + stamp, until)];
    }

    method Healthy(status: IpStatus, statuses: map<string, IpStatus>, claims: map<string, string>, nodes: seq<string>,
                   queue: seq<string>, ip: string, found: IpStatus, stamp: nat, ghost entries: seq<Call>)
      modifies this
      ensures Snapshot() ==
        old(Snapshot()).(status := statuses[ip := status], claims := claims, nodeQueue := nodes, ipQueue := queue,
                         clock := old(now) + stamp, dnsDirty := old(dnsDirty) || Changed(found, status), log := entries)
    {
      HealthyFields(statuses[ip := status], claims, nodes, queue, stamp, entries);
      NoteChange(found, status);
    }

    method HealthyFields(statuses: map<string, IpStatus>, claims: map<string, string>, nodes: seq<string>,
                         queue: seq<string>, stamp: nat, ghost entries: seq<Call>)
      modifies `ipToStatus, `providerIDToIP, `assignableIPs, `assignableNodes, `now, `log
      ensures ipToStatus == statuses && providerIDToIP == claims && assignableNodes == nodes && assignableIPs == queue
      ensures now == old(now) + stamp && log == entries
    {
      now := now + stamp;
      log := entries;
      ipToStatus, providerIDToIP, assignableNodes, assignableIPs := statuses, claims, nodes, queue;
    }

    /** Another state or message makes DNS due. */
    method NoteChange(found: IpStatus, status: IpStatus)
      modifies `dnsDirty
      ensures dnsDirty == (old(dnsDirty) || Changed(found, status))
    {
      dnsDirty := dnsDirty || found.state != status.state || found.message != status.message;
    }

    /** The records after an answer, before the IP's own status is replaced. */
    method Reconciled(ip: string, ipInitialized: bool, expectedProviderID: string, providerID: string)
        returns (statuses: map<string, IpStatus>, claims: map<string, string>, nodes: seq<string>, queue: seq<string>)
      ensures var s1 := Snapshot().(ipQueue := AddIf(providerID == "", assignableIPs, ip, true));
        var t := if expectedProviderID != providerID then Adopt(s1, ip, ipInitialized, expectedProviderID, providerID) else s1;
        statuses == t.status && claims == t.claims && nodes == t.nodeQueue && queue == t.ipQueue
    {
      queue := if providerID == "" then Including(assignableIPs, ip, true) else assignableIPs;
      statuses, claims, nodes := ipToStatus, providerIDToIP, assignableNodes;
      if expectedProviderID != providerID {
        statuses, claims, nodes, queue := CorrectOwner(queue, ip, ipInitialized, expectedProviderID, providerID);
      }
    }

    method HealthyRecord(providerID: string, at: Time) returns (status: IpStatus)
      ensures status == HealthyStatus(providerIDToNodeName, providerID, at)
    {
      var state;
      if providerID != "" && providerID in providerIDToNodeName && providerIDToNodeName[providerID] != "" {
        state := Active;
      } else if providerID != "" {
        state := NoMatch;
      } else {
        state := Unassigned;
      }
      status := IpStatus(0, at + After(HEALTHY_RETRY, 0), HEALTHY_RETRY, NoMessage, providerID, state);
    }

    /** The queues without what a first look has just found: an active owner has its IP, and an inactive
        one cannot keep it. */
    method FirstSeen(queue0: seq<string>, ip: string, ipInitialized: bool, providerID: string)
        returns (nodes: seq<string>, queue: seq<string>)
      ensures nodes == DeleteIf(!ipInitialized && providerID in providerIDToNodeName, assignableNodes, providerID)
      ensures queue == AddIf(!ipInitialized && providerID !in providerIDToNodeName, queue0, ip, false)
    {
      nodes, queue := assignableNodes, queue0;
      if !ipInitialized {
        if providerID in providerIDToNodeName {
          nodes := Without(nodes, providerID);
        } else {
          queue := Including(queue, ip, false);
        }
      }
    }

    /** Puts back the IP that the node was thought to hold, if it was another one. */
    method Evict(queue0: seq<string>, ip: string, providerID: string) returns (statuses: map<string, IpStatus>, queue: seq<string>)
      ensures var other := ClaimOf(Snapshot(), providerID);
        var evicts := other != "" && other != ip;
        && queue == AddIf(evicts, queue0, other, false)
        && statuses == if evicts then ipToStatus[other := EVICTED_STATUS] else ipToStatus
    {
      statuses, queue := ipToStatus, queue0;
      var expectedIP := if providerID in providerIDToIP then providerIDToIP[providerID] else "";
      if expectedIP != "" && expectedIP != ip {
        queue := Including(queue, expectedIP, false);
        statuses := statuses[expectedIP := EVICTED_STATUS];
      }
    }

    /** The records that reflect the provider: statuses, claims and both queues. */
    method CorrectOwner(queue0: seq<string>, ip: string, ipInitialized: bool, expectedProviderID: string, providerID: string)
        returns (statuses: map<string, IpStatus>, claims: map<string, string>, nodes: seq<string>, queue: seq<string>)
      ensures var t := Adopt(Snapshot().(ipQueue := queue0), ip, ipInitialized, expectedProviderID, providerID);
        statuses == t.status && claims == t.claims && nodes == t.nodeQueue && queue == t.ipQueue
    {
      nodes, queue := FirstSeen(queue0, ip, ipInitialized, providerID);
      statuses, queue := Evict(queue, ip, providerID);
      claims := providerIDToIP;
      if providerID != "" {
        claims := claims[providerID := ip];
      }
      claims := claims - {expectedProviderID};
      if expectedProviderID in providerIDToNodeName {
        nodes := Including(nodes, expectedProviderID, true);
      }
    }

    method ReconcileAssignment(ticks: nat -> AssignTick)
      modifies this
      ensures Snapshot() == PoolState.ReconcileAssignment(old(Snapshot()), ticks)
    {
      ghost var l0 := Loop(Snapshot(), [], []);
      var retryIPs: seq<string>, retryProviders: seq<string> := [], [];
      var k, stop := 0, false;
      while !stop && |assignableIPs| != 0 && |assignableNodes| != 0
        invariant var l := Loop(Snapshot(), retryIPs, retryProviders);
          AssignLoop(l0, 0, ticks) == if stop then l else AssignLoop(l, k, ticks)
        decreases !stop, |assignableIPs|
      {
        ghost var l := Loop(Snapshot(), retryIPs, retryProviders);
        var skippedIP, skippedProvider;
        stop, skippedIP, skippedProvider := AssignTurn(ticks(k), retryIPs, retryProviders);
        retryIPs := retryIPs + skippedIP;
        retryProviders := retryProviders + skippedProvider;
        TurnIsLoopBody(l, k, ticks);
        k := k + 1;
      }
      // Requeue anything skipped or refused.
      assignableIPs := IncludingAll(assignableIPs, retryIPs);
      assignableNodes := IncludingAll(assignableNodes, retryProviders);
    }

    /** One turn of the loop: whether to stop, and what to requeue. */
    method AssignTurn(t: AssignTick, ghost retryIPs: seq<string>, ghost retryProviders: seq<string>)
        returns (stop: bool, skippedIP: seq<string>, skippedProvider: seq<string>)
      requires assignableIPs != [] && assignableNodes != []
      modifies this
      ensures Turn(Loop(old(Snapshot()), retryIPs, retryProviders), t) ==
              (Loop(Snapshot(), retryIPs + skippedIP, retryProviders + skippedProvider), stop)
      ensures stop || |assignableIPs| < old(|assignableIPs|)
    {
      stop := TurnStops(t);
      if stop {
        assert retryIPs + [] == retryIPs && retryProviders + [] == retryProviders;
        return true, [], [];
      }
      skippedIP, skippedProvider := AssignHeads(t, retryIPs, retryProviders);
    }

    /** The tests at the top of the loop, and the panic on an IP without a status. */
    method TurnStops(t: AssignTick) returns (stop: bool)
      requires assignableIPs != [] && assignableNodes != []
      modifies `now, `nextRetry, `crashed
      ensures var s := Tick(old(Snapshot()), t.delay);
        && stop == (t.cancelled || CoolingOff(s) || s.ipQueue[0] !in s.status)
        && Snapshot() == if t.cancelled then old(Snapshot())
                         else if CoolingOff(s) then WakeBy(s, s.nextAssignment)
                         else if stop then s.(crashed := true) else s
    {
      if t.cancelled {
        return true;
      }
      now := now + t.delay;
      if assignmentCoolOff != 0 && !(now > nextAssignment) {
        nextRetry := Sooner(nextRetry, nextAssignment);
        return true;
      }
      if assignableIPs[0] !in ipToStatus {
        crashed := true;
        return true;
      }
      return false;
    }

    method AssignHeads(t: AssignTick, ghost retryIPs: seq<string>, ghost retryProviders: seq<string>)
        returns (skippedIP: seq<string>, skippedProvider: seq<string>)
      requires assignableIPs != [] && assignableNodes != [] && assignableIPs[0] in ipToStatus
      modifies this
      ensures TryHeads(Loop(old(Snapshot()), retryIPs, retryProviders), t) ==
              Loop(Snapshot(), retryIPs + skippedIP, retryProviders + skippedProvider)
      ensures |assignableIPs| < old(|assignableIPs|)
    {
      var ip := assignableIPs[0];
      assignableIPs := assignableIPs[1..];
      var status := ipToStatus[ip];
      if status.state == Error && status.nextRetry > now {
        nextRetry := Sooner(nextRetry, status.nextRetry);
        assert retryProviders + [] == retryProviders;
        return [ip], [];
      }
      var providerID, ok := AssignNode(ip, t);
      if ok {
        assert retryIPs + [] == retryIPs && retryProviders + [] == retryProviders;
        return [], [];
      }
      return [ip], [providerID];
    }

    /** An IP off its queue meets the node at the head of the other queue. */
    method AssignNode(ip: string, t: AssignTick) returns (providerID: string, ok: bool)
      requires assignableNodes != [] && ip in ipToStatus
      modifies this
      ensures var s, node := old(Snapshot()), old(assignableNodes)[0];
        var s2 := s.(nodeQueue := s.nodeQueue[1..]);
        && providerID == node && ok == (!HeadNodeWaits(s) && Succeeds(t.result))
        && Snapshot() == if HeadNodeWaits(s) then WakeBy(s2, s.nodeRetry[node].nextRetry) else Attempt(s2, ip, node, t)
      ensures assignableIPs == old(assignableIPs)
    {
      providerID := assignableNodes[0];
      assignableNodes := assignableNodes[1..];
      if providerID in providerIDToRetry && providerIDToRetry[providerID].nextRetry > now {
        nextRetry := Sooner(nextRetry, providerIDToRetry[providerID].nextRetry);
        return providerID, false;
      }
      ok := Assign(ip, providerID, t);
    }

    method Assign(ip: string, providerID: string, t: AssignTick) returns (ok: bool)
      requires ip in ipToStatus
      modifies this
      ensures Snapshot() == Attempt(old(Snapshot()), ip, providerID, t)
      ensures assignableIPs == old(assignableIPs)
      ensures ok == Succeeds(t.result)
    {
      ok := t.result == None || t.result == Some(StillInProgress);
      if ok {
        Accepted(ip, providerID, t);
      } else {
        Rejected(ip, providerID, t);
      }
    }

    method Accepted(ip: string, providerID: string, t: AssignTick)
      requires ip in ipToStatus && Succeeds(t.result)
      modifies this
      ensures Snapshot() == Attempt(old(Snapshot()), ip, providerID, t)
      ensures assignableIPs == old(assignableIPs)
    {
      RecordAssigned(ip, providerID, t);
    }

    method Rejected(ip: string, providerID: string, t: AssignTick)
      requires ip in ipToStatus && !Succeeds(t.result)
      modifies this
      ensures Snapshot() == Attempt(old(Snapshot()), ip, providerID, t)
      ensures assignableIPs == old(assignableIPs)
    {
      RecordRefused(ip, providerID, t.result.value, t);
    }

    method RecordAssigned(ip: string, providerID: string, t: AssignTick)
      requires ip in ipToStatus
      modifies `ipToStatus, `providerIDToIP, `providerIDToRetry, `nextAssignment, `nextRetry, `dnsDirty, `now, `log
      ensures var done := old(now) + t.done;
        var st := AssignedStatus(providerID, done + t.stamp);
        && ipToStatus == old(ipToStatus)[ip := st]
        && providerIDToIP == (old(providerIDToIP) - {old(ipToStatus)[ip].node})[providerID := ip]
        && providerIDToRetry == old(providerIDToRetry) - {providerID}
        && nextAssignment == done + assignmentCoolOff && now == done + t.stamp && dnsDirty
        && nextRetry == Sooner(old(nextRetry), st.nextRetry)
        && log == old(log) + [Assigned(ip, providerID, old(now), done, assignmentCoolOff, done + t.stamp, st.nextRetry)]
    {
      var status, done := ipToStatus[ip], now + t.done;
      providerIDToIP := (providerIDToIP - {status.node})[providerID := ip];
      status := status.(node := providerID);
      status := status.(message := NoMessage, state := InProgress, schedule := RETRY_FAST, attempts := 0);
      providerIDToRetry := providerIDToRetry - {providerID};
      nextAssignment := done + assignmentCoolOff;
      status := status.(nextRetry := done + t.stamp + After(status.schedule, status.attempts));
      log := log + [Assigned(ip, providerID, now, done, assignmentCoolOff, done + t.stamp, status.nextRetry)];
      now := done + t.stamp;
      dnsDirty := true;
      ipToStatus := ipToStatus[ip := status];
      nextRetry := Sooner(nextRetry, status.nextRetry);
    }

    method RefusedNode(providerID: string, schedule: Schedule, at: Time, ghost err: ProviderError) returns (nRetry: Retry)
      requires schedule == ErrorToRetrySchedule(err)
      ensures nRetry == NodeBackoff(providerIDToRetry, providerID, err, at)
    {
      nRetry := if providerID in providerIDToRetry then providerIDToRetry[providerID] else Retry(0, 0, schedule);
      nRetry := Retry(nRetry.attempts + 1, at + After(nRetry.schedule, nRetry.attempts), nRetry.schedule);
    }

    method RefusedRecord(ip: string, providerID: string, err: ProviderError, at: Time) returns (status: IpStatus)
      requires ip in ipToStatus
      ensures status == RefusedStatus(ipToStatus[ip], err, at)
    {
      status := ipToStatus[ip].(node := providerID);
      status := status.(state := Error, schedule := ErrorToRetrySchedule(err), message := AssignFailed(err));
      status := status.(node := "", nextRetry := at + After(status.schedule, status.attempts));
    }

    /** The claims once the one recorded before the call is rolled back. */
    method RolledBack(ip: string, providerID: string) returns (claims: map<string, string>)
      requires ip in ipToStatus
      ensures claims == providerIDToIP - {ipToStatus[ip].node} - {providerID}
    {
      claims := (providerIDToIP - {ipToStatus[ip].node})[providerID := ip];
      claims := claims - {providerID};
    }

    method RecordRefused(ip: string, providerID: string, err: ProviderError, t: AssignTick)
      requires ip in ipToStatus && !Succeeds(t.result) && err == t.result.value
      modifies `ipToStatus, `providerIDToIP, `providerIDToRetry, `nextRetry, `dnsDirty, `now, `log
      ensures var u := Attempt(old(Snapshot()), ip, providerID, t);
        && ipToStatus == u.status && providerIDToIP == u.claims && providerIDToRetry == u.nodeRetry
        && now == u.clock && dnsDirty && nextRetry == u.wakeAt && log == u.log
    {
      var done := now + t.done;
      var claims := RolledBack(ip, providerID);
      var nRetry := RefusedNode(providerID, ErrorToRetrySchedule(err), done, err);
      var status := RefusedRecord(ip, providerID, err, done + t.stamp);
      providerIDToRetry := providerIDToRetry[providerID := nRetry];
      providerIDToIP := claims;
      log := log + [Refused(ip, providerID, now, done, err, nRetry.nextRetry, done + t.stamp, status.nextRetry)];
      now := done + t.stamp;
      dnsDirty := true;
      ipToStatus := ipToStatus[ip := status];
      nextRetry := Sooner(Sooner(nextRetry, nRetry.nextRetry), status.nextRetry);
    }

    method ReconcileDNS(published: bool)
      modifies this
      ensures Snapshot() == PoolState.ReconcileDNS(old(Snapshot()), published)
    {
      if |ips| == 0 || dns == None || !dnsDirty {
        return;
      }
      var missing, assignedIPs := CollectActive();
      if missing {
        crashed := true;
        return;
      }
      if |assignedIPs| == 0 || !published {
        return;
      }
      log := log + [Published(dns.value, assignedIPs)];
      dnsDirty := false;
    }

    /** Reads the state of every spec IP, unless one has no status. */
    method CollectActive() returns (missing: bool, assignedIPs: seq<string>)
      ensures missing == exists i :: 0 <= i < |ips| && ips[i] !in ipToStatus
      ensures !missing ==> assignedIPs == ActiveIPs(Snapshot(), ips)
    {
      assignedIPs := [];
      for i := 0 to |ips|
        invariant forall j :: 0 <= j < i ==> ips[j] in ipToStatus
        invariant assignedIPs + ActiveIPs(Snapshot(), ips[i..]) == ActiveIPs(Snapshot(), ips)
      {
        if ips[i] !in ipToStatus {
          return true, [];
        }
        assert ips[i..][1..] == ips[i + 1..];
        if ipToStatus[ips[i]].state == Active {
          assignedIPs := assignedIPs + [ips[i]];
        }
      }
      missing := false;
    }

    method Reconcile(env: ReconcileEnv)
      modifies this
      ensures Snapshot() == PoolState.Reconcile(old(Snapshot()), env)
    {
      AcquireIPs(env);
      ReconcileIPStatus(env.status);
      ReconcileAssignment(env.assign);
      if crashed {
        return;
      }
      ReconcileDNS(env.published);
    }

    method AcquireIPs(env: ReconcileEnv)
      modifies this
      ensures Snapshot() == BeforePoll(old(Snapshot()), env)
    {
      now := now + env.start;
      nextRetry := now + RECONCILE_PERIOD;
      ReconcileDesiredIPs(env.create);
      ReconcilePendingIPs(env.pendingCancelled, env.persisted);
    }
  }

  /** What enabling and disabling a node may touch. */
  ghost predicate NodeFields(s: Pool, t: Pool) {
    t == s.(active := t.active, ipQueue := t.ipQueue, status := t.status, nodeQueue := t.nodeQueue, dnsDirty := t.dnsDirty,
            crashed := t.crashed, clock := t.clock, log := t.log)
  }

  lemma NodeFieldsOnly(s: Pool, v: Visit)
    ensures NodeFields(s, DisableNode(s, v)) && NodeFields(s, EnableNode(s, v))
  {
  }

  /** One turn of the assignment loop on values, and whether the loop ends with it. */
  function Turn(l: Loop, t: AssignTick): (Loop, bool)
    requires l.s.ipQueue != [] && l.s.nodeQueue != []
  {
    var s := Tick(l.s, t.delay);
    if t.cancelled then (l, true)
    else if CoolingOff(s) then (l.(s := WakeBy(s, s.nextAssignment)), true)
    else if s.ipQueue[0] !in s.status then (l.(s := s.(crashed := true)), true)
    else (TryHeads(l.(s := s), t), false)
  }

  lemma TurnIsLoopBody(l: Loop, k: nat, ticks: nat -> AssignTick)
    requires l.s.ipQueue != [] && l.s.nodeQueue != []
    ensures AssignLoop(l, k, ticks) ==
            if Turn(l, ticks(k)).1 then Turn(l, ticks(k)).0 else AssignLoop(Turn(l, ticks(k)).0, k + 1, ticks)
  {
  }

  /** Some enumeration of a finite set. */
  ghost function AnyOrder(keys: set<string>): (order: seq<string>)
    ensures IterationOrder(order, keys)
  {
    if keys == {} then []
    else
      var x :| x in keys;
      [x] + AnyOrder(keys - {x})
  }

  lemma {:induction false} ForgetOneMore(s: Pool, wanted: seq<string>, order: seq<string>, ip: string)
    ensures var t := ForgetUnwanted(s, wanted, order);
      ForgetUnwanted(s, wanted, order + [ip]) == if ip in t.status && ip !in wanted then Forget(t, ip) else t
    decreases |order|
  {
    if order == [] {
      assert ([] + [ip])[1..] == [];
    } else {
      var s1 := if order[0] in s.status && order[0] !in wanted then Forget(s, order[0]) else s;
      assert (order + [ip])[1..] == order[1..] + [ip];
      ForgetOneMore(s1, wanted, order[1..], ip);
    }
  }
}
