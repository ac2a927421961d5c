/** EnsureDNSARecordSet, for DigitalOcean and Cloudflare: turning any zone into one with exactly the
    wanted records, reusing records in place. The methods return the writes they made; Zones lists the
    zone before and after each of them. */
module DnsRecordSets {
  import opened DnsZones

  function ToSet(ips: seq<string>): set<string> {
    set ip | ip in ips
  }

  function Max(a: nat, b: nat): nat { if a < b then b else a }

  ghost predicate Distinct(ids: seq<nat>) {
    forall i, j :: 0 <= i < j < |ids| ==> ids[i] != ids[j]
  }

  /** The zone has a record of the set with this id. */
  ghost predicate Has(z: Zone, name: string, id: nat) {
    exists r :: r in z && r.id == id && Ours(r, name)
  }

  /** A record of the set that is there to stay. */
  ghost predicate Settled(z: Zone, name: string, toDelete: seq<nat>, r: Record) {
    r in z && Ours(r, name) && r.id !in toDelete
  }

  /** Between listing and the end: the records there to stay publish exactly the wanted addresses that
      are not `missing`, once each and with the right TTL. */
  ghost predicate Settling(z: Zone, name: string, wanted: set<string>, ttl: int, toDelete: seq<nat>, missing: set<string>) {
    && UniqueIds(z) && Distinct(toDelete) && missing <= wanted
    && (forall d :: d in toDelete ==> Has(z, name, d))
    && (forall r :: Settled(z, name, toDelete, r) ==> r.content in wanted && r.content !in missing && r.ttl == ttl)
    && (forall r, q :: Settled(z, name, toDelete, r) && Settled(z, name, toDelete, q) && r.content == q.content ==> r == q)
    && (forall ip :: ip in wanted && ip !in missing ==> exists r :: Settled(z, name, toDelete, r) && r.content == ip)
  }

  /** Nothing that was published is missing, and if anything was, something still is or can be reused. */
  ghost predicate NothingLost(z0: Zone, name: string, wanted: set<string>, toDelete: seq<nat>, missing: set<string>) {
    && missing !! Shown(z0, name)
    && (wanted != {} && Shown(z0, name) != {} ==> missing != wanted || toDelete != [])
  }

  lemma SettlingIsSafe(z0: Zone, z: Zone, name: string, wanted: set<string>, ttl: int, toDelete: seq<nat>, missing: set<string>)
    requires Settling(z, name, wanted, ttl, toDelete, missing) && NothingLost(z0, name, wanted, toDelete, missing)
    requires SameOthers(z0, z, name)
    ensures Safe(z0, z, name, wanted)
  {
    forall ip | ip in wanted && ip !in missing
      ensures ip in Shown(z, name)
    {
      var r :| Settled(z, name, toDelete, r) && r.content == ip;
    }
    if wanted != {} && Shown(z0, name) != {} {
      if missing != wanted {
        var ip :| ip in wanted && ip !in missing;
        assert ip in Shown(z, name);
      } else {
        assert Has(z, name, toDelete[0]);
        var r :| r in z && r.id == toDelete[0] && Ours(r, name);
        assert r.content in Shown(z, name);
      }
    }
  }

  /** Pointing an unneeded record at a missing address. */
  lemma ReuseSettles(z: Zone, name: string, wanted: set<string>, ttl: int, toDelete: seq<nat>, missing: set<string>, ip: string)
    requires Settling(z, name, wanted, ttl, toDelete, missing) && ip in missing && toDelete != []
    ensures var t := EditRecord(z, toDelete[0], name, ip, ttl);
      Settling(t, name, wanted, ttl, toDelete[1..], missing - {ip}) && SameOthers(z, t, name)
  {
    var t := EditRecord(z, toDelete[0], name, ip, ttl);
    EditKeepsIds(z, toDelete[0], name, ip, ttl);
    assert Has(z, name, toDelete[0]);
    var spare :| spare in z && spare.id == toDelete[0] && Ours(spare, name);
    var reused := Edited(spare, name, ip, ttl);
    assert toDelete == [toDelete[0]] + toDelete[1..];
    assert toDelete[0] !in toDelete[1..];
    forall q | q in z && q.id == toDelete[0]
      ensures q == spare
    {
      InZone(z, q, spare);
    }
    assert forall r :: Settled(t, name, toDelete[1..], r) <==> Settled(z, name, toDelete, r) || r == reused;
    forall d | d in toDelete[1..]
      ensures Has(t, name, d)
    {
      assert d in toDelete && Has(z, name, d);
      var r :| r in z && r.id == d && Ours(r, name);
      assert r in t;
    }
  }

  /** Creating a record when there is nothing to reuse. */
  lemma CreateSettles(z: Zone, name: string, wanted: set<string>, ttl: int, missing: set<string>, ip: string)
    requires Settling(z, name, wanted, ttl, [], missing) && ip in missing
    ensures var t := CreateRecord(z, name, ip, ttl);
      Settling(t, name, wanted, ttl, [], missing - {ip}) && SameOthers(z, t, name)
  {
  }

  /** Deleting an unneeded record once nothing is missing. */
  lemma DeleteSettles(z: Zone, name: string, wanted: set<string>, ttl: int, toDelete: seq<nat>)
    requires Settling(z, name, wanted, ttl, toDelete, {}) && toDelete != []
    ensures var t := DeleteRecord(z, toDelete[0]);
      Settling(t, name, wanted, ttl, toDelete[1..], {}) && SameOthers(z, t, name)
  {
    var t := DeleteRecord(z, toDelete[0]);
    assert toDelete == [toDelete[0]] + toDelete[1..];
    assert toDelete[0] !in toDelete[1..];
    assert Has(z, name, toDelete[0]);
    var gone :| gone in z && gone.id == toDelete[0] && Ours(gone, name);
    forall q | q in z && q.id == toDelete[0]
      ensures q == gone
    {
      InZone(z, q, gone);
    }
    assert forall r :: Settled(t, name, toDelete[1..], r) <==> Settled(z, name, toDelete, r);
    forall d | d in toDelete[1..]
      ensures Has(t, name, d)
    {
      assert d in toDelete && Has(z, name, d);
      var r :| r in z && r.id == d && Ours(r, name);
      assert r in t;
    }
  }

  lemma SettledIsExact(z: Zone, name: string, wanted: set<string>, ttl: int)
    requires Settling(z, name, wanted, ttl, [], {})
    ensures Exact(z, name, wanted, ttl)
  {
  }

  /** One write more: the new zone is as far as the shorter lists say, and still safe. */
  ghost predicate Underway(z0: Zone, name: string, wanted: set<string>, ttl: int,
                           trace: seq<Zone>, toDelete: seq<nat>, missing: set<string>) {
    && |trace| > 0
    && Settling(trace[|trace| - 1], name, wanted, ttl, toDelete, missing)
    && NothingLost(z0, name, wanted, toDelete, missing)
    && SameOthers(z0, trace[|trace| - 1], name)
    && SafeUpdate(z0, trace, name, wanted)
  }

  lemma OneMoreWrite(z0: Zone, w: Write, name: string, wanted: set<string>, ttl: int, trace: seq<Zone>,
                     toDelete: seq<nat>, missing: set<string>, toDelete': seq<nat>, missing': set<string>)
    requires Underway(z0, name, wanted, ttl, trace, toDelete, missing)
    requires var t := Written(trace[|trace| - 1], w);
      Settling(t, name, wanted, ttl, toDelete', missing') && SameOthers(trace[|trace| - 1], t, name)
    requires missing' <= missing && (missing' == missing ==> missing == {} || toDelete' != [])
    ensures Underway(z0, name, wanted, ttl, trace + [Written(trace[|trace| - 1], w)], toDelete', missing')
  {
    assert NothingLost(z0, name, wanted, toDelete', missing');
    SettlingIsSafe(z0, Written(trace[|trace| - 1], w), name, wanted, ttl, toDelete', missing');
    SafeOneMore(z0, trace, Written(trace[|trace| - 1], w), name, wanted);
  }

  lemma ReuseUnderway(z0: Zone, name: string, wanted: set<string>, ttl: int, trace: seq<Zone>,
                      toDelete: seq<nat>, missing: set<string>, ip: string)
    requires Underway(z0, name, wanted, ttl, trace, toDelete, missing) && ip in missing && toDelete != []
    ensures Underway(z0, name, wanted, ttl, trace + [Written(trace[|trace| - 1], Edit(toDelete[0], name, ip, ttl))],
                     toDelete[1..], missing - {ip})
  {
    ReuseSettles(trace[|trace| - 1], name, wanted, ttl, toDelete, missing, ip);
    OneMoreWrite(z0, Edit(toDelete[0], name, ip, ttl), name, wanted, ttl, trace, toDelete, missing, toDelete[1..], missing - {ip});
  }

  lemma CreateUnderway(z0: Zone, name: string, wanted: set<string>, ttl: int, trace: seq<Zone>, missing: set<string>, ip: string)
    requires Underway(z0, name, wanted, ttl, trace, [], missing) && ip in missing
    ensures Underway(z0, name, wanted, ttl, trace + [Written(trace[|trace| - 1], Create(name, ip, ttl))], [], missing - {ip})
  {
    CreateSettles(trace[|trace| - 1], name, wanted, ttl, missing, ip);
    OneMoreWrite(z0, Create(name, ip, ttl), name, wanted, ttl, trace, [], missing, [], missing - {ip});
  }

  lemma DeleteUnderway(z0: Zone, name: string, wanted: set<string>, ttl: int, trace: seq<Zone>, unneeded: seq<nat>, i: nat)
    requires i < |unneeded| && Underway(z0, name, wanted, ttl, trace, unneeded[i..], {})
    ensures Underway(z0, name, wanted, ttl, trace + [Written(trace[|trace| - 1], Delete(unneeded[i]))], unneeded[i + 1..], {})
  {
    assert unneeded[i..][0] == unneeded[i] && unneeded[i..][1..] == unneeded[i + 1..];
    DeleteSettles(trace[|trace| - 1], name, wanted, ttl, unneeded[i..]);
    OneMoreWrite(z0, Delete(unneeded[i]), name, wanted, ttl, trace, unneeded[i..], {}, unneeded[i + 1..], {});
  }

  // ----- the second half, for one order of ranging over the missing addresses -----

  /** Ranging over a set: its members, in whatever order. */
  ghost predicate Ranges(order: seq<string>, ips: set<string>) {
    ToSet(order) == ips && |order| == |ips| && NoRepeats(order)
  }

  ghost predicate NoRepeats(order: seq<string>) {
    forall i, j :: 0 <= i < j < |order| ==> order[i] != order[j]
  }

  method AnyOrder(ips: set<string>) returns (order: seq<string>)
    ensures Ranges(order, ips)
  {
    order := [];
    var left := ips;
    while left != {}
      invariant left <= ips && Ranges(order, ips - left)
      decreases |left|
    {
      var ip :| ip in left;
      assert ip !in ToSet(order);
      assert ips - (left - {ip}) == ips - left + {ip};
      order, left := order + [ip], left - {ip};
    }
    assert ips - left == ips;
  }

  lemma OneMoreRanged(order: seq<string>, i: nat)
    requires i < |order| && NoRepeats(order)
    ensures order[i] in ToSet(order[i..]) && ToSet(order[i..]) - {order[i]} == ToSet(order[i + 1..])
  {
    assert order[i..] == [order[i]] + order[i + 1..];
  }

  /** The i-th write: a missing address reuses an unneeded record while there is one, else gets a new
      one; unneeded records left over are deleted. */
  function SettleWrite(name: string, ttl: int, order: seq<string>, unneeded: seq<nat>, i: nat): Write
    requires i < Max(|order|, |unneeded|)
  {
    if i >= |order| then Delete(unneeded[i])
    else if i < |unneeded| then Edit(unneeded[i], name, order[i], ttl)
    else Create(name, order[i], ttl)
  }

  function SettleWrites(name: string, ttl: int, order: seq<string>, unneeded: seq<nat>, n: nat): (ws: seq<Write>)
    requires n <= Max(|order|, |unneeded|)
    ensures |ws| == n
  {
    if n == 0 then [] else SettleWrites(name, ttl, order, unneeded, n - 1) + [SettleWrite(name, ttl, order, unneeded, n - 1)]
  }

  /** What is left of a list after its first n elements were used. */
  function Unused<T>(list: seq<T>, n: nat): seq<T> {
    if n < |list| then list[n..] else []
  }

  /** The address at position i gets its write. */
  lemma PublishUnderway(z0: Zone, name: string, wanted: set<string>, ttl: int, trace: seq<Zone>,
                        unneeded: seq<nat>, order: seq<string>, i: nat)
    requires i < |order| && NoRepeats(order)
    requires Underway(z0, name, wanted, ttl, trace, Unused(unneeded, i), ToSet(order[i..]))
    ensures Underway(z0, name, wanted, ttl, trace + [Written(trace[|trace| - 1], SettleWrite(name, ttl, order, unneeded, i))],
                     Unused(unneeded, i + 1), ToSet(order[i + 1..]))
  {
    OneMoreRanged(order, i);
    if i < |unneeded| {
      assert Unused(unneeded, i)[0] == unneeded[i] && Unused(unneeded, i)[1..] == Unused(unneeded, i + 1);
      ReuseUnderway(z0, name, wanted, ttl, trace, Unused(unneeded, i), ToSet(order[i..]), order[i]);
    } else {
      CreateUnderway(z0, name, wanted, ttl, trace, ToSet(order[i..]), order[i]);
    }
  }

  /** Whatever the order, the update is underway after each write, and the lists run empty. */
  lemma {:induction false} SettleUnderway(z0: Zone, z: Zone, name: string, wanted: set<string>, ttl: int,
                                          order: seq<string>, unneeded: seq<nat>, n: nat)
    requires NoRepeats(order) && n <= Max(|order|, |unneeded|)
    requires Underway(z0, name, wanted, ttl, [z], unneeded, ToSet(order))
    ensures Underway(z0, name, wanted, ttl, Zones(z, SettleWrites(name, ttl, order, unneeded, n)),
                     Unused(unneeded, n), ToSet(Unused(order, n)))
  {
    if n == 0 {
      assert Unused(unneeded, 0) == unneeded && Unused(order, 0) == order;
    } else {
      SettleUnderway(z0, z, name, wanted, ttl, order, unneeded, n - 1);
      var ws := SettleWrites(name, ttl, order, unneeded, n - 1);
      ZonesOneMore(z, ws, SettleWrite(name, ttl, order, unneeded, n - 1));
      UnderwayOneMore(z0, name, wanted, ttl, Zones(z, ws), unneeded, order, n - 1);
    }
  }

  lemma UnderwayOneMore(z0: Zone, name: string, wanted: set<string>, ttl: int, trace: seq<Zone>,
                        unneeded: seq<nat>, order: seq<string>, i: nat)
    requires i < Max(|order|, |unneeded|) && NoRepeats(order)
    requires Underway(z0, name, wanted, ttl, trace, Unused(unneeded, i), ToSet(Unused(order, i)))
    ensures Underway(z0, name, wanted, ttl, trace + [Written(trace[|trace| - 1], SettleWrite(name, ttl, order, unneeded, i))],
                     Unused(unneeded, i + 1), ToSet(Unused(order, i + 1)))
  {
    if i < |order| {
      assert Unused(order, i) == order[i..] && Unused(order, i + 1) == order[i + 1..];
      PublishUnderway(z0, name, wanted, ttl, trace, unneeded, order, i);
    } else {
      NothingLeft(order, i);
      assert Unused(unneeded, i) == unneeded[i..] && Unused(unneeded, i + 1) == unneeded[i + 1..];
      DeleteUnderway(z0, name, wanted, ttl, trace, unneeded, i);
    }
  }

  lemma NothingLeft(order: seq<string>, i: nat)
    requires i >= |order|
    ensures ToSet(Unused(order, i)) == {} && ToSet(Unused(order, i + 1)) == {}
  {
  }

  /** So the second half is safe all along, and in the end the record set is exact. */
  lemma SettleIsExact(z0: Zone, z: Zone, name: string, wanted: set<string>, ttl: int,
                      order: seq<string>, unneeded: seq<nat>, n: nat)
    requires NoRepeats(order) && n <= Max(|order|, |unneeded|)
    requires Underway(z0, name, wanted, ttl, [z], unneeded, ToSet(order))
    ensures var trace := Zones(z, SettleWrites(name, ttl, order, unneeded, n));
      && SafeUpdate(z0, trace, name, wanted)
      && (n == Max(|order|, |unneeded|) ==> Exact(trace[n], name, wanted, ttl))
  {
    SettleUnderway(z0, z, name, wanted, ttl, order, unneeded, n);
    if n == Max(|order|, |unneeded|) {
      NothingLeft(order, n);
      assert Unused(unneeded, n) == [];
      SettledIsExact(Zones(z, SettleWrites(name, ttl, order, unneeded, n))[n], name, wanted, ttl);
    }
  }

  // ----- the calls -----

  /** The writes from the first number up to the second went through. */
  predicate Succeeded(writeFails: nat -> bool, first: nat, next: nat)
  {
    next <= first || (!writeFails(next - 1) && Succeeded(writeFails, first, next - 1))
  }

  lemma {:induction false} NoneFailed(writeFails: nat -> bool, first: nat, next: nat)
    ensures Succeeded(writeFails, first, next) <==> forall k :: first <= k < next ==> !writeFails(k)
  {
    if first < next {
      NoneFailed(writeFails, first, next - 1);
    }
  }

  lemma {:induction false} BothSucceeded(writeFails: nat -> bool, first: nat, middle: nat, next: nat)
    requires Succeeded(writeFails, first, middle) && Succeeded(writeFails, middle, next) && first <= middle <= next
    ensures Succeeded(writeFails, first, next)
  {
    if middle < next {
      BothSucceeded(writeFails, first, middle, next - 1);
    }
  }

  /** Reuses or creates a record for every missing address, in whatever order the set is ranged over. */
  method PublishMissing(name: string, ttl: int, missing: set<string>, unneeded: seq<nat>, done: nat, writeFails: nat -> bool)
      returns (err: bool, writes: seq<Write>, toDelete: seq<nat>, ghost order: seq<string>)
    ensures Ranges(order, missing) && |writes| <= |order|
    ensures writes == SettleWrites(name, ttl, order, unneeded, |writes|)
    ensures Succeeded(writeFails, done, done + |writes|)
    ensures err ==> |writes| < |order| && writeFails(done + |writes|)
    ensures !err ==> |writes| == |order| && toDelete == Unused(unneeded, |order|)
  {
    var ips := AnyOrder(missing);
    order, toDelete, writes := ips, unneeded, [];
    for i := 0 to |ips|
      invariant |writes| == i && writes == SettleWrites(name, ttl, order, unneeded, i)
      invariant toDelete == Unused(unneeded, i) && Succeeded(writeFails, done, done + i)
    {
      if writeFails(done + i) {
        return true, writes, toDelete, order;
      }
      if |toDelete| > 0 {
        writes := writes + [Edit(toDelete[0], name, ips[i], ttl)];
        toDelete := toDelete[1..];
      } else {
        writes := writes + [Create(name, ips[i], ttl)];
      }
    }
    err := false;
  }

  /** Deletes what was not reused. */
  method DeleteUnneeded(name: string, ttl: int, ghost order: seq<string>, ghost unneeded: seq<nat>,
                        published: seq<Write>, toDelete: seq<nat>, done: nat, writeFails: nat -> bool)
      returns (err: bool, writes: seq<Write>)
    requires published == SettleWrites(name, ttl, order, unneeded, |order|) && toDelete == Unused(unneeded, |order|)
    requires Succeeded(writeFails, done, done + |order|)
    ensures |order| <= |writes| <= Max(|order|, |unneeded|)
    ensures writes == SettleWrites(name, ttl, order, unneeded, |writes|)
    ensures Succeeded(writeFails, done, done + |writes|)
    ensures err ==> |writes| < Max(|order|, |unneeded|) && writeFails(done + |writes|)
    ensures !err ==> |writes| == Max(|order|, |unneeded|)
  {
    writes := published;
    for i := 0 to |toDelete|
      invariant |writes| == |order| + i && writes == SettleWrites(name, ttl, order, unneeded, |order| + i)
      invariant Succeeded(writeFails, done, done + |order| + i)
    {
      if writeFails(done + |writes|) {
        return true, writes;
      }
      writes := writes + [Delete(toDelete[i])];
    }
    err := false;
  }

  /** The second half of the algorithm, from the end of the listing on. */
  method Settle(name: string, ttl: int, missing: set<string>, unneeded: seq<nat>, done: nat, writeFails: nat -> bool)
      returns (err: bool, writes: seq<Write>, ghost order: seq<string>)
    ensures Ranges(order, missing) && |writes| <= Max(|order|, |unneeded|)
    ensures writes == SettleWrites(name, ttl, order, unneeded, |writes|)
    ensures Succeeded(writeFails, done, done + |writes|)
    ensures err ==> |writes| < Max(|order|, |unneeded|) && writeFails(done + |writes|)
    ensures !err ==> |writes| == Max(|order|, |unneeded|)
  {
    var toDelete;
    err, writes, toDelete, order := PublishMissing(name, ttl, missing, unneeded, done, writeFails);
    if !err {
      err, writes := DeleteUnneeded(name, ttl, order, unneeded, writes, toDelete, done, writeFails);
    }
  }

  // ----- listing -----

  /** The zone with the wanted TTL set on some records. */
  function Retimed(z: Zone, ids: set<nat>, ttl: int): (r: Zone)
    ensures |r| == |z|
    ensures forall i :: 0 <= i < |z| ==> r[i] == if z[i].id in ids then z[i].(ttl := ttl) else z[i]
  {
    seq(|z|, i requires 0 <= i < |z| => if z[i].id in ids then z[i].(ttl := ttl) else z[i])
  }

  /** Every record of the set is either kept or to be deleted, and nothing else is. */
  ghost predicate SortedOut(seen: Zone, name: string, kept: set<nat>, toDelete: seq<nat>) {
    && Distinct(toDelete)
    && (forall r :: r in seen && Ours(r, name) ==> (r.id in kept <==> r.id !in toDelete))
    && (forall d :: d in toDelete ==> Has(seen, name, d))
    && (forall k :: k in kept ==> Has(seen, name, k))
  }

  /** Exactly one record is kept for each wanted address seen. */
  ghost predicate KeepsOneEach(seen: Zone, name: string, wanted: set<string>, kept: set<nat>) {
    && (forall r :: r in seen && r.id in kept ==> r.content in wanted)
    && (forall r, q :: r in seen && q in seen && r.id in kept && q.id in kept && r.content == q.content ==> r == q)
    && (forall ip :: ip in wanted && ip in Shown(seen, name) ==> exists r :: r in seen && r.id in kept && r.content == ip)
  }

  /** The records seen so far, classified: the first one of each wanted address is kept, the others
      are to be deleted, and ipSet holds the wanted addresses not seen. */
  ghost predicate Classified(seen: Zone, name: string, wanted: set<string>, kept: set<nat>,
                             toDelete: seq<nat>, ipSet: set<string>) {
    && UniqueIds(seen)
    && SortedOut(seen, name, kept, toDelete)
    && KeepsOneEach(seen, name, wanted, kept)
    && ipSet == wanted - Shown(seen, name)
  }

  lemma KeptAreOurs(seen: Zone, name: string, kept: set<nat>, toDelete: seq<nat>)
    requires UniqueIds(seen) && SortedOut(seen, name, kept, toDelete)
    ensures forall r :: r in seen && (r.id in kept || r.id in toDelete) ==> Ours(r, name)
  {
  }

  /** What one more listed record adds. */
  lemma SeeOneMore(seen: Zone, r: Record, name: string)
    requires UniqueIds(seen + [r])
    ensures UniqueIds(seen) && forall q :: q in seen ==> q.id != r.id
    ensures forall q :: q in seen + [r] <==> q in seen || q == r
    ensures Shown(seen + [r], name) == Shown(seen, name) + if Ours(r, name) then {r.content} else {}
    ensures OurIds(seen + [r], name) == OurIds(seen, name) + if Ours(r, name) then {r.id} else {}
    ensures r.id !in OurIds(seen, name)
  {
    var t := seen + [r];
    assert forall i :: 0 <= i < |seen| ==> t[i] == seen[i];
    assert t[|seen|] == r && r in t;
  }

  lemma NewIsUnsorted(seen: Zone, r: Record, name: string, kept: set<nat>, toDelete: seq<nat>)
    requires UniqueIds(seen + [r]) && SortedOut(seen, name, kept, toDelete)
    ensures r.id !in kept && r.id !in toDelete
  {
    SeeOneMore(seen, r, name);
    forall id | id in kept || id in toDelete
      ensures id != r.id
    {
      assert Has(seen, name, id);
      var q :| q in seen && q.id == id && Ours(q, name);
    }
  }

  lemma SortOneMore(seen: Zone, r: Record, name: string, kept: set<nat>, toDelete: seq<nat>, keep: bool)
    requires UniqueIds(seen + [r]) && SortedOut(seen, name, kept, toDelete)
    ensures Ours(r, name) && keep ==> SortedOut(seen + [r], name, kept + {r.id}, toDelete)
    ensures Ours(r, name) && !keep ==> SortedOut(seen + [r], name, kept, toDelete + [r.id])
    ensures !Ours(r, name) ==> SortedOut(seen + [r], name, kept, toDelete)
  {
    SeeOneMore(seen, r, name);
    NewIsUnsorted(seen, r, name, kept, toDelete);
    forall id | Has(seen, name, id)
      ensures Has(seen + [r], name, id)
    {
      var q :| q in seen && q.id == id && Ours(q, name);
      assert q in seen + [r];
    }
    if Ours(r, name) {
      assert r in seen + [r];
      assert Has(seen + [r], name, r.id);
    }
  }

  lemma KeepOneMore(seen: Zone, r: Record, name: string, wanted: set<string>, kept: set<nat>)
    requires UniqueIds(seen + [r]) && KeepsOneEach(seen, name, wanted, kept) && r.id !in kept
    requires forall q :: q in seen && q.id in kept ==> Ours(q, name)
    ensures Ours(r, name) && r.content in wanted && r.content !in Shown(seen, name) ==>
      KeepsOneEach(seen + [r], name, wanted, kept + {r.id})
    ensures !Ours(r, name) || r.content !in wanted || r.content in Shown(seen, name) ==>
      KeepsOneEach(seen + [r], name, wanted, kept)
  {
    SeeOneMore(seen, r, name);
    var t := seen + [r];
    forall ip | ip in wanted && ip in Shown(seen, name)
      ensures exists q :: q in t && q.id in kept && q.content == ip
    {
      var q :| q in seen && q.id in kept && q.content == ip;
      assert q in t;
    }
    assert forall q :: q in seen && q.id in kept ==> q.content in Shown(seen, name);
    assert r in t;
  }

  /** How many records are to be deleted: all but one for each wanted address seen. */
  ghost predicate Counted(seen: Zone, name: string, wanted: set<string>, toDelete: seq<nat>, ipSet: set<string>) {
    ipSet == wanted - Shown(seen, name) && |toDelete| + |wanted| - |ipSet| == |OurIds(seen, name)|
  }

  lemma CountOneMore(seen: Zone, r: Record, name: string, wanted: set<string>, toDelete: seq<nat>, ipSet: set<string>)
    requires UniqueIds(seen + [r]) && Counted(seen, name, wanted, toDelete, ipSet)
    ensures !Ours(r, name) ==> Counted(seen + [r], name, wanted, toDelete, ipSet)
    ensures Ours(r, name) && r.content in ipSet ==> Counted(seen + [r], name, wanted, toDelete, ipSet - {r.content})
    ensures Ours(r, name) && r.content !in ipSet ==> Counted(seen + [r], name, wanted, toDelete + [r.id], ipSet)
  {
    SeeOneMore(seen, r, name);
    if Ours(r, name) {
      LeftOneLess(wanted, Shown(seen, name), r.content);
      assert |OurIds(seen, name) + {r.id}| == |OurIds(seen, name)| + 1;
      assert r.content in ipSet ==> |ipSet - {r.content}| == |ipSet| - 1;
    }
  }

  lemma LeftOneLess(wanted: set<string>, shown: set<string>, ip: string)
    ensures wanted - (shown + {ip}) == if ip in wanted - shown then wanted - shown - {ip} else wanted - shown
  {
  }

  /** Where one more record goes, and what is left of ipSet. */
  lemma ClassifyOneMore(seen: Zone, r: Record, name: string, wanted: set<string>, kept: set<nat>,
                        toDelete: seq<nat>, ipSet: set<string>)
    requires UniqueIds(seen + [r]) && Classified(seen, name, wanted, kept, toDelete, ipSet)
    ensures !Ours(r, name) ==> Classified(seen + [r], name, wanted, kept, toDelete, ipSet)
    ensures Ours(r, name) && r.content in ipSet ==>
      Classified(seen + [r], name, wanted, kept + {r.id}, toDelete, ipSet - {r.content})
    ensures Ours(r, name) && r.content !in ipSet ==> Classified(seen + [r], name, wanted, kept, toDelete + [r.id], ipSet)
  {
    KeptAreOurs(seen, name, kept, toDelete);
    NewIsUnsorted(seen, r, name, kept, toDelete);
    SortOneMore(seen, r, name, kept, toDelete, r.content in ipSet);
    KeepOneMore(seen, r, name, wanted, kept);
    SeeOneMore(seen, r, name);
    LeftOneLess(wanted, Shown(seen, name), r.content);
  }

  lemma RetimeOne(z: Zone, name: string, kept: set<nat>, r: Record, ttl: int)
    requires UniqueIds(z) && r in z && Ours(r, name)
    ensures EditRecord(Retimed(z, kept, ttl), r.id, name, r.content, ttl) == Retimed(z, kept + {r.id}, ttl)
    ensures r.ttl == ttl ==> Retimed(z, kept + {r.id}, ttl) == Retimed(z, kept, ttl)
  {
  }

  /** Setting TTLs within the set changes neither its addresses nor the other records. */
  lemma RetimedIsSafe(z: Zone, name: string, wanted: set<string>, kept: set<nat>, ttl: int)
    requires forall r :: r in z && r.id in kept ==> Ours(r, name)
    ensures SameOthers(z, Retimed(z, kept, ttl), name) && Shown(Retimed(z, kept, ttl), name) == Shown(z, name)
    ensures Safe(z, Retimed(z, kept, ttl), name, wanted)
  {
  }

  /** The zone so far: the TTLs of the kept records are right, and every step was safe. */
  ghost predicate Traced(z: Zone, name: string, wanted: set<string>, ttl: int, kept: set<nat>, trace: seq<Zone>) {
    && |trace| > 0 && trace[0] == z && trace[|trace| - 1] == Retimed(z, kept, ttl)
    && SafeUpdate(z, trace, name, wanted)
  }

  lemma TraceOneMore(z: Zone, name: string, wanted: set<string>, ttl: int, kept: set<nat>, trace: seq<Zone>, r: Record)
    requires UniqueIds(z) && r in z && Ours(r, name) && Traced(z, name, wanted, ttl, kept, trace)
    requires forall q :: q in z && q.id in kept + {r.id} ==> Ours(q, name)
    ensures var t := EditRecord(trace[|trace| - 1], r.id, name, r.content, ttl);
      Traced(z, name, wanted, ttl, kept + {r.id}, trace + [t])
    ensures r.ttl == ttl ==> Traced(z, name, wanted, ttl, kept + {r.id}, trace)
  {
    RetimeOne(z, name, kept, r, ttl);
    RetimedIsSafe(z, name, wanted, kept + {r.id}, ttl);
    SafeOneMore(z, trace, EditRecord(trace[|trace| - 1], r.id, name, r.content, ttl), name, wanted);
  }

  lemma KeptInZone(z: Zone, seen: Zone, name: string, kept: set<nat>, toDelete: seq<nat>)
    requires UniqueIds(z) && UniqueIds(seen) && (forall r :: r in seen ==> r in z) && SortedOut(seen, name, kept, toDelete)
    ensures forall r :: r in z && (r.id in kept || r.id in toDelete) ==> r in seen && Ours(r, name)
  {
  }

  // ----- what the listing has found -----

  /** The first record listed for a wanted address is kept. */
  predicate Keeps(before: Zone, r: Record, name: string, wanted: set<string>) {
    Ours(r, name) && r.content in wanted - Shown(before, name)
  }

  function KeptIds(seen: Zone, name: string, wanted: set<string>): set<nat> {
    if seen == [] then {}
    else
      var before, r := seen[..|seen| - 1], seen[|seen| - 1];
      var kept := KeptIds(before, name, wanted);
      if Keeps(before, r, name, wanted) then kept + {r.id} else kept
  }

  /** The other records of the set, in listing order. */
  function SurplusIds(seen: Zone, name: string, wanted: set<string>): seq<nat> {
    if seen == [] then []
    else
      var before, r := seen[..|seen| - 1], seen[|seen| - 1];
      var surplus := SurplusIds(before, name, wanted);
      if Ours(r, name) && !Keeps(before, r, name, wanted) then surplus + [r.id] else surplus
  }

  /** A wanted record is updated when its TTL is wrong and, on Cloudflare, when it is proxied. */
  predicate Stale(r: Record, ttl: int, unproxy: bool) {
    r.ttl != ttl || (unproxy && r.proxied)
  }

  /** How many of the records kept are stale. */
  function StaleKept(seen: Zone, name: string, wanted: set<string>, ttl: int, unproxy: bool): nat {
    if seen == [] then 0
    else
      var before, r := seen[..|seen| - 1], seen[|seen| - 1];
      StaleKept(before, name, wanted, ttl, unproxy) +
      if Keeps(before, r, name, wanted) && Stale(r, ttl, unproxy) then 1 else 0
  }

  /** The writes of the listing: one for every stale record kept. */
  function StaleWrites(seen: Zone, name: string, wanted: set<string>, ttl: int, unproxy: bool): (ws: seq<Write>)
    ensures |ws| == StaleKept(seen, name, wanted, ttl, unproxy)
  {
    if seen == [] then []
    else
      var before, r := seen[..|seen| - 1], seen[|seen| - 1];
      var ws := StaleWrites(before, name, wanted, ttl, unproxy);
      if Keeps(before, r, name, wanted) && Stale(r, ttl, unproxy) then ws + [Edit(r.id, name, r.content, ttl)] else ws
  }

  /** Seeing more records can only add writes. */
  lemma {:induction false} StaleWritesGrow(part: Zone, seen: Zone, name: string, wanted: set<string>, ttl: int, unproxy: bool)
    requires part <= seen
    ensures StaleKept(part, name, wanted, ttl, unproxy) <= StaleKept(seen, name, wanted, ttl, unproxy)
  {
    if part != seen {
      StaleWritesGrow(part, seen[..|seen| - 1], name, wanted, ttl, unproxy);
    }
  }

  lemma FoundOneMore(seen: Zone, r: Record, name: string, wanted: set<string>)
    ensures var kept := KeptIds(seen, name, wanted);
      KeptIds(seen + [r], name, wanted) == if Keeps(seen, r, name, wanted) then kept + {r.id} else kept
    ensures var surplus := SurplusIds(seen, name, wanted);
      SurplusIds(seen + [r], name, wanted) ==
      if Ours(r, name) && !Keeps(seen, r, name, wanted) then surplus + [r.id] else surplus
  {
    assert (seen + [r])[..|seen|] == seen;
  }

  lemma StaleOneMore(seen: Zone, r: Record, name: string, wanted: set<string>, ttl: int, unproxy: bool)
    ensures StaleKept(seen + [r], name, wanted, ttl, unproxy) ==
      StaleKept(seen, name, wanted, ttl, unproxy) + if Keeps(seen, r, name, wanted) && Stale(r, ttl, unproxy) then 1 else 0
    ensures var ws := StaleWrites(seen, name, wanted, ttl, unproxy);
      StaleWrites(seen + [r], name, wanted, ttl, unproxy) ==
      if Keeps(seen, r, name, wanted) && Stale(r, ttl, unproxy) then ws + [Edit(r.id, name, r.content, ttl)] else ws
  {
    assert (seen + [r])[..|seen|] == seen;
  }

  /** What was found is sorted out as it should be. */
  ghost predicate Found(seen: Zone, name: string, wanted: set<string>) {
    Classified(seen, name, wanted, KeptIds(seen, name, wanted), SurplusIds(seen, name, wanted), wanted - Shown(seen, name))
  }

  lemma ClassifyNext(seen: Zone, r: Record, name: string, wanted: set<string>, kept: set<nat>, toDelete: seq<nat>, ipSet: set<string>,
                     kept': set<nat>, toDelete': seq<nat>, ipSet': set<string>)
    requires UniqueIds(seen + [r]) && Classified(seen, name, wanted, kept, toDelete, ipSet)
    requires kept' == if Ours(r, name) && r.content in ipSet then kept + {r.id} else kept
    requires toDelete' == if Ours(r, name) && r.content !in ipSet then toDelete + [r.id] else toDelete
    requires ipSet' == if Ours(r, name) then ipSet - {r.content} else ipSet
    ensures Classified(seen + [r], name, wanted, kept', toDelete', ipSet')
  {
    ClassifyOneMore(seen, r, name, wanted, kept, toDelete, ipSet);
    assert r.content !in ipSet ==> ipSet - {r.content} == ipSet;
  }

  lemma NothingFound(name: string, wanted: set<string>)
    ensures Found([], name, wanted)
  {
    assert Shown([], name) == {} && OurIds([], name) == {};
  }

  lemma {:induction false} FoundIsClassified(seen: Zone, name: string, wanted: set<string>)
    requires UniqueIds(seen)
    ensures Found(seen, name, wanted)
  {
    if seen == [] {
      NothingFound(name, wanted);
    } else {
      var before, r := seen[..|seen| - 1], seen[|seen| - 1];
      assert seen == before + [r];
      FoundIsClassified(before, name, wanted);
      FoundOneMore(before, r, name, wanted);
      SeeOneMore(before, r, name);
      LeftOneLess(wanted, Shown(before, name), r.content);
      ClassifyNext(before, r, name, wanted,
                   KeptIds(before, name, wanted), SurplusIds(before, name, wanted), wanted - Shown(before, name),
                   KeptIds(seen, name, wanted), SurplusIds(seen, name, wanted), wanted - Shown(seen, name));
    }
  }

  lemma {:induction false} FoundIsCounted(seen: Zone, name: string, wanted: set<string>)
    requires UniqueIds(seen)
    ensures Counted(seen, name, wanted, SurplusIds(seen, name, wanted), wanted - Shown(seen, name))
  {
    if seen == [] {
      assert Shown([], name) == {} && OurIds([], name) == {};
    } else {
      var before, r := seen[..|seen| - 1], seen[|seen| - 1];
      assert seen == before + [r];
      SeeOneMore(before, r, name);
      FoundIsCounted(before, name, wanted);
      FoundOneMore(before, r, name, wanted);
      CountOneMore(before, r, name, wanted, SurplusIds(before, name, wanted), wanted - Shown(before, name));
      LeftOneLess(wanted, Shown(before, name), r.content);
    }
  }

  /** The whole record set was seen. */
  ghost predicate Covers(seen: Zone, z: Zone, name: string) {
    forall r :: Ours(r, name) ==> (r in z <==> r in seen)
  }

  /** Once the whole set was listed: what is missing, and how many records are left over. */
  lemma ListedCounts(z: Zone, seen: Zone, name: string, wanted: set<string>, toDelete: seq<nat>, ipSet: set<string>)
    requires Counted(seen, name, wanted, toDelete, ipSet)
    requires Covers(seen, z, name)
    ensures ipSet == wanted - Shown(z, name)
    ensures |toDelete| == |OurIds(z, name)| - |wanted * Shown(z, name)|
  {
    assert Shown(z, name) == Shown(seen, name) && OurIds(z, name) == OurIds(seen, name);
    assert wanted - ipSet == wanted * Shown(z, name);
    assert |wanted - ipSet| == |wanted| - |ipSet|;
  }

  /** Once the whole set was listed, the second half can start. */
  lemma ListedIsUnderway(z: Zone, seen: Zone, name: string, wanted: set<string>, ttl: int, kept: set<nat>,
                         toDelete: seq<nat>, ipSet: set<string>)
    requires UniqueIds(z) && (forall r :: r in seen ==> r in z) && Classified(seen, name, wanted, kept, toDelete, ipSet)
    requires forall r :: r in z && Ours(r, name) ==> r in seen
    ensures Underway(z, name, wanted, ttl, [Retimed(z, kept, ttl)], toDelete, ipSet)
  {
    KeptInZone(z, seen, name, kept, toDelete);
    RetimedIsSafe(z, name, wanted, kept, ttl);
    SafeAlone(z, Retimed(z, kept, ttl), name, wanted);
    RetimedSettles(z, seen, name, wanted, ttl, kept, toDelete, ipSet);
  }

  /** The records there to stay are the kept ones, with the wanted TTL. */
  lemma SettledAreKept(z: Zone, seen: Zone, name: string, kept: set<nat>, toDelete: seq<nat>, ttl: int)
    requires UniqueIds(z) && UniqueIds(seen) && (forall r :: r in seen ==> r in z) && SortedOut(seen, name, kept, toDelete)
    requires forall r :: r in z && Ours(r, name) ==> r in seen
    ensures forall r :: Settled(Retimed(z, kept, ttl), name, toDelete, r) ==>
      exists q :: q in seen && q.id in kept && r == q.(ttl := ttl)
    ensures forall q :: q in seen && q.id in kept ==> Settled(Retimed(z, kept, ttl), name, toDelete, q.(ttl := ttl))
    ensures forall d :: d in toDelete ==> Has(Retimed(z, kept, ttl), name, d)
  {
  }

  lemma RetimedSettles(z: Zone, seen: Zone, name: string, wanted: set<string>, ttl: int, kept: set<nat>,
                       toDelete: seq<nat>, ipSet: set<string>)
    requires UniqueIds(z) && (forall r :: r in seen ==> r in z) && Classified(seen, name, wanted, kept, toDelete, ipSet)
    requires forall r :: r in z && Ours(r, name) ==> r in seen
    ensures Settling(Retimed(z, kept, ttl), name, wanted, ttl, toDelete, ipSet)
    ensures NothingLost(z, name, wanted, toDelete, ipSet)
  {
    var t := Retimed(z, kept, ttl);
    assert UniqueIds(t);
    SettledAreKept(z, seen, name, kept, toDelete, ttl);
    KeptAreOurs(seen, name, kept, toDelete);
    assert forall r :: r in seen && r.id in kept ==> r.content in Shown(seen, name);
    forall ip | ip in wanted && ip !in ipSet
      ensures exists r :: Settled(t, name, toDelete, r) && r.content == ip
    {
      var q :| q in seen && q.id in kept && q.content == ip;
      assert Settled(t, name, toDelete, q.(ttl := ttl));
    }
    NothingIsLost(z, seen, name, wanted, kept, toDelete, ipSet);
  }

  lemma NothingIsLost(z: Zone, seen: Zone, name: string, wanted: set<string>, kept: set<nat>, toDelete: seq<nat>, ipSet: set<string>)
    requires Classified(seen, name, wanted, kept, toDelete, ipSet)
    requires forall r :: r in seen ==> r in z
    requires forall r :: r in z && Ours(r, name) ==> r in seen
    ensures NothingLost(z, name, wanted, toDelete, ipSet)
  {
    assert Shown(z, name) == Shown(seen, name);
    if wanted != {} && Shown(z, name) != {} {
      var ip :| ip in Shown(z, name);
      var r :| r in seen && Ours(r, name) && r.content == ip;
      if r.id in kept {
        assert r.content in wanted && r.content !in ipSet;
      } else {
        assert r.id in toDelete;
      }
    }
  }

  // ----- the two providers -----

  /** Which calls fail: listing a page, a page without links, the k-th write. */
  datatype Calls = Calls(listFails: nat -> bool, badLinks: nat -> bool, writeFails: nat -> bool)

  /** The page cannot be had, or comes without links. */
  predicate PageFails(calls: Calls, page: nat) {
    calls.listFails(page) || calls.badLinks(page)
  }

  /** How many pages a listing asks for: at least the first one. */
  function PageCount(size: nat, perPage: nat): (pages: nat)
    requires perPage > 0
    ensures pages > 0
  {
    if size <= perPage then 1 else 1 + PageCount(size - perPage, perPage)
  }

  /** Some page that the listing asks for fails. */
  ghost predicate SomePageFails(calls: Calls, pages: nat) {
    exists page :: 1 <= page <= pages && PageFails(calls, page)
  }

  /** The records of the page that starts after `start` records. */
  function Page(z: Zone, start: nat, perPage: nat): (page: Zone)
    requires start <= |z|
    ensures |page| == if start + perPage <= |z| then perPage else |z| - start
    ensures forall i :: 0 <= i < |page| ==> page[i] == z[start + i]
  {
    seq(if start + perPage <= |z| then perPage else |z| - start, i requires 0 <= i && start + i < |z| => z[start + i])
  }

  /** The listing has got through the first records of the zone. */
  ghost predicate Through(z: Zone, seen: Zone) {
    |seen| <= |z| && forall i :: 0 <= i < |seen| ==> seen[i] == z[i]
  }

  /** The state of the listing loop after the records seen. */
  ghost predicate Listing(seen: Zone, name: string, wanted: set<string>, ttl: int, unproxy: bool,
                          toDelete: seq<nat>, ipSet: set<string>, writes: seq<Write>) {
    && toDelete == SurplusIds(seen, name, wanted)
    && ipSet == wanted - Shown(seen, name)
    && writes == StaleWrites(seen, name, wanted, ttl, unproxy)
  }

  /** All the records seen are the zone's. */
  ghost predicate Within(seen: Zone, z: Zone) {
    UniqueIds(z) && UniqueIds(seen) && forall r :: r in seen ==> r in z
  }

  lemma VisitTraced(z: Zone, seen: Zone, r: Record, name: string, wanted: set<string>, ttl: int, trace: seq<Zone>)
    requires Within(seen + [r], z) && Keeps(seen, r, name, wanted)
    requires Traced(z, name, wanted, ttl, KeptIds(seen, name, wanted), trace)
    ensures var t := EditRecord(trace[|trace| - 1], r.id, name, r.content, ttl);
      Traced(z, name, wanted, ttl, KeptIds(seen + [r], name, wanted), trace + [t])
    ensures r.ttl == ttl ==> Traced(z, name, wanted, ttl, KeptIds(seen + [r], name, wanted), trace)
  {
    FoundOneMore(seen, r, name, wanted);
    FoundIsClassified(seen + [r], name, wanted);
    KeptInZone(z, seen + [r], name, KeptIds(seen + [r], name, wanted), SurplusIds(seen + [r], name, wanted));
    assert r in seen + [r];
    TraceOneMore(z, name, wanted, ttl, KeptIds(seen, name, wanted), trace, r);
  }

  /** Whatever was seen of a zone, the writes so far were safe and set just the TTLs of the records kept. */
  lemma {:induction false} ListingIsTraced(z: Zone, seen: Zone, name: string, wanted: set<string>, ttl: int, unproxy: bool)
    requires Within(seen, z)
    ensures Traced(z, name, wanted, ttl, KeptIds(seen, name, wanted), Zones(z, StaleWrites(seen, name, wanted, ttl, unproxy)))
  {
    if seen == [] {
      NothingTraced(z, name, wanted, ttl);
    } else {
      var before, r := seen[..|seen| - 1], seen[|seen| - 1];
      assert seen == before + [r];
      SeeOneMore(before, r, name);
      ListingIsTraced(z, before, name, wanted, ttl, unproxy);
      FoundOneMore(before, r, name, wanted);
      StaleOneMore(before, r, name, wanted, ttl, unproxy);
      if Keeps(before, r, name, wanted) {
        var ws := StaleWrites(before, name, wanted, ttl, unproxy);
        VisitTraced(z, before, r, name, wanted, ttl, Zones(z, ws));
        ZonesOneMore(z, ws, Edit(r.id, name, r.content, ttl));
      }
    }
  }

  lemma NothingTraced(z: Zone, name: string, wanted: set<string>, ttl: int)
    ensures Traced(z, name, wanted, ttl, {}, [z])
  {
    assert Retimed(z, {}, ttl) == z;
  }

  /** The body of the listing loop. */
  method VisitRecord(ghost seen: Zone, r: Record, name: string, ghost wanted: set<string>, ttl: int, unproxy: bool,
                     toDelete: seq<nat>, ipSet: set<string>, writes: seq<Write>, writeFails: nat -> bool)
      returns (err: bool, toDelete': seq<nat>, ipSet': set<string>, writes': seq<Write>)
    requires Listing(seen, name, wanted, ttl, unproxy, toDelete, ipSet, writes)
    requires Succeeded(writeFails, 0, |writes|)
    ensures err ==> writes' == writes && writeFails(|writes|)
    ensures err ==> |writes| < StaleKept(seen + [r], name, wanted, ttl, unproxy)
    ensures Succeeded(writeFails, 0, |writes'|)
    ensures !err ==> Listing(seen + [r], name, wanted, ttl, unproxy, toDelete', ipSet', writes')
  {
    err, toDelete', ipSet', writes' := false, toDelete, ipSet, writes;
    FoundOneMore(seen, r, name, wanted);
    StaleOneMore(seen, r, name, wanted, ttl, unproxy);
    ShowOneMore(seen, r, name);
    LeftOneLess(wanted, Shown(seen, name), r.content);
    if !Ours(r, name) {
      return;
    }
    if r.content in ipSet {
      if Stale(r, ttl, unproxy) {
        if writeFails(|writes|) {
          err := true;
          return;
        }
        writes' := writes + [Edit(r.id, name, r.content, ttl)];
      }
      ipSet' := ipSet - {r.content};
    } else {
      toDelete' := toDelete + [r.id];
    }
  }

  lemma ShowOneMore(seen: Zone, r: Record, name: string)
    ensures Shown(seen + [r], name) == if Ours(r, name) then Shown(seen, name) + {r.content} else Shown(seen, name)
  {
    assert r in seen + [r];
  }

  /** The writes of a whole update: one per stale record that is kept, and those the set needs. */
  function UpdateCost(z: Zone, listing: Zone, name: string, wanted: set<string>, ttl: int, unproxy: bool): int {
    StaleKept(listing, name, wanted, ttl, unproxy) + WritesNeeded(z, name, wanted)
  }

  /** What a completed update achieves, and with how many writes. */
  ghost predicate Completed(z: Zone, listing: Zone, name: string, wanted: set<string>, ttl: int, unproxy: bool, writes: seq<Write>) {
    && Exact(Zones(z, writes)[|writes|], name, wanted, ttl)
    && |writes| == UpdateCost(z, listing, name, wanted, ttl, unproxy)
  }

  lemma CompletedCount(z: Zone, seen: Zone, name: string, wanted: set<string>, toDelete: seq<nat>, ipSet: set<string>)
    requires Counted(seen, name, wanted, toDelete, ipSet)
    requires Covers(seen, z, name)
    ensures Max(|ipSet|, |toDelete|) == WritesNeeded(z, name, wanted)
  {
    ListedCounts(z, seen, name, wanted, toDelete, ipSet);
  }

  /** The listing is over and the second half can start. */
  lemma ListingDone(z: Zone, seen: Zone, name: string, wanted: set<string>, ttl: int, unproxy: bool)
    requires Within(seen, z) && Covers(seen, z, name)
    ensures var ws := StaleWrites(seen, name, wanted, ttl, unproxy);
      Underway(z, name, wanted, ttl, [Zones(z, ws)[|ws|]], SurplusIds(seen, name, wanted), wanted - Shown(seen, name))
  {
    ListingIsTraced(z, seen, name, wanted, ttl, unproxy);
    FoundIsClassified(seen, name, wanted);
    ListedIsUnderway(z, seen, name, wanted, ttl, KeptIds(seen, name, wanted), SurplusIds(seen, name, wanted),
                     wanted - Shown(seen, name));
  }

  /** What the whole update went through, for one order of ranging over the missing addresses. */
  lemma UpdateIsSafe(z: Zone, seen: Zone, name: string, wanted: set<string>, ttl: int, unproxy: bool,
                     toDelete: seq<nat>, ipSet: set<string>, listed: seq<Write>, order: seq<string>, n: nat)
    requires Listing(seen, name, wanted, ttl, unproxy, toDelete, ipSet, listed) && Within(seen, z)
    requires Covers(seen, z, name)
    requires Ranges(order, ipSet) && n <= Max(|order|, |toDelete|)
    ensures var writes := listed + SettleWrites(name, ttl, order, toDelete, n);
      && SafeUpdate(z, Zones(z, writes), name, wanted)
      && (n == Max(|order|, |toDelete|) ==> Exact(Zones(z, writes)[|writes|], name, wanted, ttl))
  {
    var middle, tail := Zones(z, listed)[|listed|], SettleWrites(name, ttl, order, toDelete, n);
    ListingDone(z, seen, name, wanted, ttl, unproxy);
    SettleIsExact(z, middle, name, wanted, ttl, order, toDelete, n);
    ListingIsTraced(z, seen, name, wanted, ttl, unproxy);
    SafeJoined(z, Zones(z, listed), Zones(middle, tail), name, wanted);
    ZonesJoined(z, listed, tail);
  }

  /** From the end of the listing to the end of the update. */
  method Finish(ghost z: Zone, ghost seen: Zone, name: string, ghost wanted: set<string>, ttl: int, ghost unproxy: bool,
                toDelete: seq<nat>, ipSet: set<string>, listed: seq<Write>, writeFails: nat -> bool)
      returns (err: bool, writes: seq<Write>)
    requires Listing(seen, name, wanted, ttl, unproxy, toDelete, ipSet, listed) && Within(seen, z)
    requires Covers(seen, z, name)
    requires Succeeded(writeFails, 0, |listed|)
    ensures SafeUpdate(z, Zones(z, writes), name, wanted)
    ensures Succeeded(writeFails, 0, |writes|)
    ensures err ==> |writes| < UpdateCost(z, seen, name, wanted, ttl, unproxy) && writeFails(|writes|)
    ensures !err ==> Completed(z, seen, name, wanted, ttl, unproxy, writes)
  {
    var tail;
    ghost var order;
    err, tail, order := Settle(name, ttl, ipSet, toDelete, |listed|, writeFails);
    writes := listed + tail;
    assert |writes| == |listed| + |tail|;
    BothSucceeded(writeFails, 0, |listed|, |writes|);
    UpdateIsSafe(z, seen, name, wanted, ttl, unproxy, toDelete, ipSet, listed, order, |tail|);
    UpdateCount(z, seen, name, wanted, toDelete, ipSet);
  }

  lemma UpdateCount(z: Zone, seen: Zone, name: string, wanted: set<string>, toDelete: seq<nat>, ipSet: set<string>)
    requires toDelete == SurplusIds(seen, name, wanted) && ipSet == wanted - Shown(seen, name) && UniqueIds(seen)
    requires Covers(seen, z, name)
    ensures Max(|ipSet|, |toDelete|) == WritesNeeded(z, name, wanted)
  {
    FoundIsCounted(seen, name, wanted);
    CompletedCount(z, seen, name, wanted, toDelete, ipSet);
  }

  method CollectIPs(ips: seq<string>) returns (ipSet: set<string>)
    ensures ipSet == ToSet(ips)
  {
    ipSet := {};
    for i := 0 to |ips|
      invariant ipSet == ToSet(ips[..i])
    {
      ipSet := ipSet + {ips[i]};
      assert ips[..i + 1] == ips[..i] + [ips[i]];
    }
    assert ips[..|ips|] == ips;
  }

  /** The listing loop over some records. */
  method ListRecords(ghost z: Zone, ghost seen: Zone, records: Zone, name: string, ghost wanted: set<string>, ttl: int, unproxy: bool,
                     toDelete0: seq<nat>, ipSet0: set<string>, writes0: seq<Write>, writeFails: nat -> bool)
      returns (err: bool, toDelete: seq<nat>, ipSet: set<string>, writes: seq<Write>)
    requires Listing(seen, name, wanted, ttl, unproxy, toDelete0, ipSet0, writes0) && Within(seen + records, z)
    requires Succeeded(writeFails, 0, |writes0|)
    ensures SafeUpdate(z, Zones(z, writes), name, wanted)
    ensures Succeeded(writeFails, 0, |writes|)
    ensures err ==> |writes| < StaleKept(seen + records, name, wanted, ttl, unproxy) && writeFails(|writes|)
    ensures !err ==> Listing(seen + records, name, wanted, ttl, unproxy, toDelete, ipSet, writes)
  {
    toDelete, ipSet, writes := toDelete0, ipSet0, writes0;
    assert seen + records[..0] == seen;
    for j := 0 to |records|
      invariant Listing(seen + records[..j], name, wanted, ttl, unproxy, toDelete, ipSet, writes)
      invariant Succeeded(writeFails, 0, |writes|)
    {
      NextRecord(z, seen, records, j);
      err, toDelete, ipSet, writes :=
        VisitRecord(seen + records[..j], records[j], name, wanted, ttl, unproxy, toDelete, ipSet, writes, writeFails);
      if err {
        ListingIsTraced(z, seen + records[..j], name, wanted, ttl, unproxy);
        StaleWritesGrow(seen + records[..j + 1], seen + records, name, wanted, ttl, unproxy);
        return;
      }
    }
    assert seen + records[..|records|] == seen + records;
    ListingIsTraced(z, seen + records, name, wanted, ttl, unproxy);
    err := false;
  }

  lemma NextRecord(z: Zone, seen: Zone, records: Zone, j: nat)
    requires j < |records| && Within(seen + records, z)
    ensures seen + records[..j] + [records[j]] == seen + records[..j + 1]
    ensures Within(seen + records[..j], z)
  {
    var t, u := seen + records, seen + records[..j];
    forall a | 0 <= a < |u|
      ensures u[a] == t[a] && u[a] in t
    {
    }
  }

  /** No record after those seen is kept. */
  lemma LaterNotKept(z: Zone, seen: Zone, name: string, wanted: set<string>, i: nat)
    requires UniqueIds(z) && Through(z, seen) && |seen| <= i < |z|
    ensures z[i].id !in KeptIds(seen, name, wanted)
  {
    ThroughIsWithin(z, seen);
    KeptIdsSeen(seen, name, wanted);
    forall id | id in KeptIds(seen, name, wanted)
      ensures id != z[i].id
    {
      var q :| q in seen && q.id == id;
      var n :| 0 <= n < |seen| && seen[n] == q;
    }
  }

  lemma {:induction false} KeptIdsSeen(seen: Zone, name: string, wanted: set<string>)
    ensures forall id :: id in KeptIds(seen, name, wanted) ==> exists r :: r in seen && r.id == id
  {
    if seen != [] {
      var before, r := seen[..|seen| - 1], seen[|seen| - 1];
      KeptIdsSeen(before, name, wanted);
      forall id | id in KeptIds(seen, name, wanted)
        ensures exists r :: r in seen && r.id == id
      {
        if id in KeptIds(before, name, wanted) {
          var q :| q in before && q.id == id;
          assert q in seen;
        } else {
          assert r in seen;
        }
      }
    }
  }

  /** The page was fetched from an edited zone, but what it shows is the records as they were. */
  lemma PageShowsOriginal(z: Zone, seen: Zone, name: string, wanted: set<string>, ttl: int, perPage: nat)
    requires UniqueIds(z) && Through(z, seen)
    ensures Through(z, seen + Page(Retimed(z, KeptIds(seen, name, wanted), ttl), |seen|, perPage))
  {
    var edited := Retimed(z, KeptIds(seen, name, wanted), ttl);
    forall i | |seen| <= i < |z|
      ensures edited[i] == z[i]
    {
      LaterNotKept(z, seen, name, wanted, i);
    }
    ThroughExtends(z, seen, Page(edited, |seen|, perPage));
  }

  lemma ThroughExtends(z: Zone, seen: Zone, page: Zone)
    requires Through(z, seen) && |seen| + |page| <= |z|
    requires forall i :: 0 <= i < |page| ==> page[i] == z[|seen| + i]
    ensures Through(z, seen + page)
  {
  }

  lemma ThroughIsWithin(z: Zone, seen: Zone)
    requires UniqueIds(z) && Through(z, seen)
    ensures Within(seen, z) && (|seen| == |z| ==> seen == z)
  {
  }

  lemma NextPage(z: Zone, seen: Zone, name: string, wanted: set<string>, ttl: int, writes: seq<Write>, perPage: nat)
    requires UniqueIds(z) && Through(z, seen) && writes == StaleWrites(seen, name, wanted, ttl, false)
    ensures var now := Zones(z, writes)[|writes|];
      |now| == |z| && Through(z, seen + Page(now, |seen|, perPage)) && Within(seen + Page(now, |seen|, perPage), z)
  {
    ThroughIsWithin(z, seen);
    ListingIsTraced(z, seen, name, wanted, ttl, false);
    PageShowsOriginal(z, seen, name, wanted, ttl, perPage);
    ThroughIsWithin(z, seen + Page(Zones(z, writes)[|writes|], |seen|, perPage));
  }

  /** One page of the zone as it is now. */
  method ListPage(z: Zone, ghost seen: Zone, start: nat, perPage: nat, name: string, ghost wanted: set<string>, ttl: int,
                  toDelete0: seq<nat>, ipSet0: set<string>, writes0: seq<Write>, writeFails: nat -> bool)
      returns (err: bool, ghost seen': Zone, toDelete: seq<nat>, ipSet: set<string>, writes: seq<Write>)
    requires UniqueIds(z) && Through(z, seen) && |seen| == start
    requires Listing(seen, name, wanted, ttl, false, toDelete0, ipSet0, writes0)
    requires Succeeded(writeFails, 0, |writes0|)
    ensures SafeUpdate(z, Zones(z, writes), name, wanted)
    ensures Succeeded(writeFails, 0, |writes|)
    ensures err ==> |writes| < StaleKept(seen', name, wanted, ttl, false) && writeFails(|writes|)
    ensures Through(z, seen') && |seen'| == if start + perPage <= |z| then start + perPage else |z|
    ensures !err ==> Listing(seen', name, wanted, ttl, false, toDelete, ipSet, writes)
  {
    NextPage(z, seen, name, wanted, ttl, writes0, perPage);
    var records := Page(Zones(z, writes0)[|writes0|], start, perPage);
    seen' := seen + records;
    err, toDelete, ipSet, writes := ListRecords(z, seen, records, name, wanted, ttl, false, toDelete0, ipSet0, writes0, writeFails);
  }

  /** What was seen is the first part of the zone, so it took no more writes than all of it. */
  lemma ThroughGrows(z: Zone, seen: Zone, name: string, wanted: set<string>, ttl: int)
    requires Through(z, seen)
    ensures StaleKept(seen, name, wanted, ttl, false) <= StaleKept(z, name, wanted, ttl, false)
  {
    StaleWritesGrow(seen, z, name, wanted, ttl, false);
  }

  /** The calls for one page: the listing, its edits, and the links that lead on. */
  method VisitPage(z: Zone, ghost seen: Zone, page: nat, start: nat, perPage: nat, name: string, ghost wanted: set<string>,
                   ttl: int, toDelete0: seq<nat>, ipSet0: set<string>, writes0: seq<Write>, calls: Calls)
      returns (err: bool, ghost seen': Zone, toDelete: seq<nat>, ipSet: set<string>, writes: seq<Write>)
    requires UniqueIds(z) && Through(z, seen) && |seen| == start
    requires Listing(seen, name, wanted, ttl, false, toDelete0, ipSet0, writes0)
    requires Succeeded(calls.writeFails, 0, |writes0|)
    ensures SafeUpdate(z, Zones(z, writes), name, wanted)
    ensures Succeeded(calls.writeFails, 0, |writes|)
    ensures err ==> (|writes| < StaleKept(z, name, wanted, ttl, false) && calls.writeFails(|writes|)) || PageFails(calls, page)
    ensures !err ==> !PageFails(calls, page) && Listing(seen', name, wanted, ttl, false, toDelete, ipSet, writes)
    ensures !err ==> Through(z, seen') && |seen'| == if start + perPage <= |z| then start + perPage else |z|
    ensures |writes| <= StaleKept(z, name, wanted, ttl, false)
  {
    seen', toDelete, ipSet, writes := seen, toDelete0, ipSet0, writes0;
    if calls.listFails(page) {
      ThroughIsWithin(z, seen);
      ListingIsTraced(z, seen, name, wanted, ttl, false);
      ThroughGrows(z, seen, name, wanted, ttl);
      err := true;
      return;
    }
    err, seen', toDelete, ipSet, writes :=
      ListPage(z, seen, start, perPage, name, wanted, ttl, toDelete, ipSet, writes, calls.writeFails);
    ThroughGrows(z, seen', name, wanted, ttl);
    if !err {
      err := calls.badLinks(page);
    }
  }

  /** The listing loop over all the pages of the zone, which is edited meanwhile. */
  method ListPages(z: Zone, perPage: nat, name: string, ghost wanted: set<string>, ttl: int, ips: set<string>, calls: Calls)
      returns (err: bool, toDelete: seq<nat>, ipSet: set<string>, writes: seq<Write>)
    requires UniqueIds(z) && perPage > 0 && ips == wanted
    ensures SafeUpdate(z, Zones(z, writes), name, wanted)
    ensures Succeeded(calls.writeFails, 0, |writes|)
    ensures err ==>
      || (|writes| < StaleKept(z, name, wanted, ttl, false) && calls.writeFails(|writes|))
      || SomePageFails(calls, PageCount(|z|, perPage))
    ensures !err ==> Listing(z, name, wanted, ttl, false, toDelete, ipSet, writes)
    ensures !err ==> !SomePageFails(calls, PageCount(|z|, perPage))
    ensures |writes| <= StaleKept(z, name, wanted, ttl, false)
  {
    ghost var seen: Zone := [];
    toDelete, ipSet, writes := [], ips, [];
    ListingStarts(name, wanted, ttl, false);
    NothingTraced(z, name, wanted, ttl);
    var page, start := 1, 0;
    while true
      invariant Through(z, seen) && |seen| == start && page > 0
      invariant Listing(seen, name, wanted, ttl, false, toDelete, ipSet, writes)
      invariant Succeeded(calls.writeFails, 0, |writes|)
      invariant PageCount(|z|, perPage) == page - 1 + PageCount(|z| - start, perPage)
      invariant !SomePageFails(calls, page - 1)
      decreases |z| - start
    {
      err, seen, toDelete, ipSet, writes :=
        VisitPage(z, seen, page, start, perPage, name, wanted, ttl, toDelete, ipSet, writes, calls);
      if err {
        return;
      }
      if start + perPage >= |z| {
        break;
      }
      page, start := page + 1, start + perPage;
    }
    ThroughIsWithin(z, seen);
  }

  lemma ListingStarts(name: string, wanted: set<string>, ttl: int, unproxy: bool)
    ensures Listing([], name, wanted, ttl, unproxy, [], wanted, [])
  {
    assert Shown([], name) == {};
  }

  /** EnsureDNSARecordSet on DigitalOcean: the whole zone is listed page by page, and records are
      edited while the listing goes on. For any zone, page size and failing calls. */
  method EnsureDigitalOcean(z: Zone, name: string, ips: seq<string>, ttl: int, perPage: nat, calls: Calls)
      returns (err: bool, writes: seq<Write>)
    requires UniqueIds(z) && perPage > 0
    ensures SafeUpdate(z, Zones(z, writes), name, ToSet(ips))
    ensures forall k :: 0 <= k < |writes| ==> !calls.writeFails(k)
    ensures err ==>
      || (|writes| < UpdateCost(z, z, name, ToSet(ips), ttl, false) && calls.writeFails(|writes|))
      || SomePageFails(calls, PageCount(|z|, perPage))
    ensures !err ==> !SomePageFails(calls, PageCount(|z|, perPage))
    ensures !err ==> Completed(z, z, name, ToSet(ips), ttl, false, writes)
    ensures |writes| <= UpdateCost(z, z, name, ToSet(ips), ttl, false)
  {
    var ipSet := CollectIPs(ips);
    var toDelete;
    err, toDelete, ipSet, writes := ListPages(z, perPage, name, ToSet(ips), ttl, ipSet, calls);
    if !err {
      err, writes := Finish(z, z, name, ToSet(ips), ttl, false, toDelete, ipSet, writes, calls.writeFails);
    }
    NoneFailed(calls.writeFails, 0, |writes|);
    SomeNeeded(z, name, ToSet(ips));
  }

  lemma SomeNeeded(z: Zone, name: string, wanted: set<string>)
    ensures WritesNeeded(z, name, wanted) >= 0
  {
  }

  /** EnsureDNSARecordSet on Cloudflare: the matching records are listed once, in whatever order. */
  method EnsureCloudflare(z: Zone, existing: Zone, name: string, ips: seq<string>, ttl: int, calls: Calls)
      returns (err: bool, writes: seq<Write>)
    requires UniqueIds(z) && UniqueIds(existing) && forall r :: r in existing <==> r in z && Ours(r, name)
    ensures SafeUpdate(z, Zones(z, writes), name, ToSet(ips))
    ensures forall k :: 0 <= k < |writes| ==> !calls.writeFails(k)
    ensures err ==>
      || (|writes| < UpdateCost(z, existing, name, ToSet(ips), ttl, true) && calls.writeFails(|writes|))
      || calls.listFails(1)
    ensures !err ==> !calls.listFails(1) && Completed(z, existing, name, ToSet(ips), ttl, true, writes)
    ensures |writes| <= UpdateCost(z, existing, name, ToSet(ips), ttl, true)
  {
    var ipSet := CollectIPs(ips);
    ListingStarts(name, ipSet, ttl, true);
    if calls.listFails(1) {
      NothingTraced(z, name, ipSet, ttl);
      SomeNeeded(z, name, ipSet);
      return true, [];
    }
    var toDelete;
    assert [] + existing == existing;
    err, toDelete, ipSet, writes := ListRecords(z, [], existing, name, ipSet, ttl, true, [], ipSet, [], calls.writeFails);
    if !err {
      err, writes := Finish(z, existing, name, ToSet(ips), ttl, true, toDelete, ipSet, writes, calls.writeFails);
    }
    NoneFailed(calls.writeFails, 0, |writes|);
    SomeNeeded(z, name, ToSet(ips));
  }
}
