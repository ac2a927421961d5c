/** How few writes can turn a zone into one with exactly the wanted records, and when the updates of
    DnsRecordSets use no more; running an update again on its own result. */
module DnsMinimality {
  import opened DnsZones
  import opened DnsRecordSets

  /** The wanted addresses that have a record with the wanted TTL. */
  function Right(z: Zone, name: string, wanted: set<string>, ttl: int): set<string> {
    set r | r in z && Ours(r, name) && r.content in wanted && r.ttl == ttl :: r.content
  }

  /** Every record beyond the right ones must go or change, and every other wanted address needs a
      record to be created or changed. */
  function LeastWrites(z: Zone, name: string, wanted: set<string>, ttl: int): int {
    Max(|wanted|, |OurIds(z, name)|) - |Right(z, name, wanted, ttl)|
  }

  /** Any change to one record, whatever its fields become: at least what any write can do. */
  ghost predicate OneRecordApart(z: Zone, t: Zone) {
    UniqueIds(z) && UniqueIds(t) && exists id :: SameBut(z, t, id)
  }

  ghost predicate SameBut(z: Zone, t: Zone, id: nat) {
    forall r: Record :: r.id != id ==> (r in z <==> r in t)
  }

  ghost predicate Changes(trace: seq<Zone>) {
    |trace| > 0 && forall j, k :: 0 <= j < k < |trace| && k == j + 1 ==> OneRecordApart(trace[j], trace[k])
  }

  // ----- no sequence of single-record changes is shorter -----

  lemma WithoutRecord(z: Zone, name: string, wanted: set<string>, ttl: int, id: nat)
    requires UniqueIds(z)
    ensures var rest := DeleteRecord(z, id);
      && OurIds(z, name) in {OurIds(rest, name), OurIds(rest, name) + {id}}
      && id !in OurIds(rest, name)
      && Right(rest, name, wanted, ttl) <= Right(z, name, wanted, ttl)
      && (OurIds(z, name) == OurIds(rest, name) ==> Right(z, name, wanted, ttl) == Right(rest, name, wanted, ttl))
      && |Right(z, name, wanted, ttl)| <= |Right(rest, name, wanted, ttl)| + 1
  {
    var rest := DeleteRecord(z, id);
    if r :| r in z && r.id == id && Ours(r, name) {
      forall q | q in z && q.id == id
        ensures q == r
      {
        InZone(z, q, r);
      }
      assert OurIds(z, name) == OurIds(rest, name) + {id};
      assert Right(z, name, wanted, ttl) <= Right(rest, name, wanted, ttl) + {r.content};
      SubsetSize(Right(z, name, wanted, ttl), Right(rest, name, wanted, ttl) + {r.content});
    } else {
      assert OurIds(z, name) == OurIds(rest, name);
      assert Right(z, name, wanted, ttl) == Right(rest, name, wanted, ttl);
    }
  }

  lemma SubsetSize<T>(a: set<T>, b: set<T>)
    requires a <= b
    ensures |a| <= |b|
    ensures a == b <==> |a| == |b|
  {
    assert b == a + (b - a);
    assert |b| == |a| + |b - a|;
  }

  lemma SameWithout(z: Zone, t: Zone, id: nat, name: string, wanted: set<string>, ttl: int)
    requires SameBut(z, t, id)
    ensures OurIds(DeleteRecord(z, id), name) == OurIds(DeleteRecord(t, id), name)
    ensures Right(DeleteRecord(z, id), name, wanted, ttl) == Right(DeleteRecord(t, id), name, wanted, ttl)
  {
  }

  lemma OneChangeGainsOne(z: Zone, t: Zone, name: string, wanted: set<string>, ttl: int)
    requires OneRecordApart(z, t)
    ensures LeastWrites(z, name, wanted, ttl) <= LeastWrites(t, name, wanted, ttl) + 1
  {
    var id :| SameBut(z, t, id);
    SameWithout(z, t, id, name, wanted, ttl);
    WithoutRecord(z, name, wanted, ttl, id);
    WithoutRecord(t, name, wanted, ttl, id);
    SubsetSize(Right(DeleteRecord(z, id), name, wanted, ttl), Right(z, name, wanted, ttl));
    SubsetSize(Right(DeleteRecord(t, id), name, wanted, ttl), Right(t, name, wanted, ttl));
  }

  /** The records of the set compared with the right ones among them. */
  lemma {:induction false} IdsAndRight(z: Zone, name: string, wanted: set<string>, ttl: int)
    requires UniqueIds(z)
    ensures |Right(z, name, wanted, ttl)| <= |OurIds(z, name)|
    ensures |Right(z, name, wanted, ttl)| == |OurIds(z, name)| <==> AllRight(z, name, wanted, ttl) && OneEach(z, name)
  {
    if z == [] {
      assert Right(z, name, wanted, ttl) == {} && OurIds(z, name) == {};
    } else {
      var before, r := z[..|z| - 1], z[|z| - 1];
      assert z == before + [r];
      SeeOneMore(before, r, name);
      IdsAndRight(before, name, wanted, ttl);
      RightOneMore(before, r, name, wanted, ttl);
      AllRightOneMore(before, r, name, wanted, ttl);
    }
  }

  ghost predicate AllRight(z: Zone, name: string, wanted: set<string>, ttl: int) {
    forall r :: r in z && Ours(r, name) ==> r.content in wanted && r.ttl == ttl
  }

  ghost predicate OneEach(z: Zone, name: string) {
    forall r, q :: r in z && q in z && Ours(r, name) && Ours(q, name) && r.content == q.content ==> r == q
  }

  lemma RightOneMore(z: Zone, r: Record, name: string, wanted: set<string>, ttl: int)
    ensures Right(z + [r], name, wanted, ttl) ==
      Right(z, name, wanted, ttl) + if Ours(r, name) && r.content in wanted && r.ttl == ttl then {r.content} else {}
  {
  }

  lemma AllRightOneMore(z: Zone, r: Record, name: string, wanted: set<string>, ttl: int)
    requires UniqueIds(z + [r])
    ensures AllRight(z + [r], name, wanted, ttl) && OneEach(z + [r], name) <==>
      && AllRight(z, name, wanted, ttl) && OneEach(z, name)
      && (Ours(r, name) ==> r.content in wanted && r.ttl == ttl && r.content !in Right(z, name, wanted, ttl))
  {
    SeeOneMore(z, r, name);
  }

  /** No writes are needed exactly when the zone is right already. */
  lemma NothingNeeded(z: Zone, name: string, wanted: set<string>, ttl: int)
    requires UniqueIds(z)
    ensures LeastWrites(z, name, wanted, ttl) >= 0
    ensures LeastWrites(z, name, wanted, ttl) == 0 <==> Exact(z, name, wanted, ttl)
  {
    var right := Right(z, name, wanted, ttl);
    IdsAndRight(z, name, wanted, ttl);
    SubsetSize(right, wanted);
    if AllRight(z, name, wanted, ttl) {
      if right == wanted {
        forall ip | ip in wanted
          ensures exists r :: r in z && Ours(r, name) && r.content == ip
        {
          assert ip in right;
        }
      }
      if Exact(z, name, wanted, ttl) {
        assert wanted <= right;
      }
    }
  }

  /** However the records are changed, one at a time, it takes at least that many writes. */
  lemma {:induction false} NoShorterUpdate(trace: seq<Zone>, name: string, wanted: set<string>, ttl: int)
    requires Changes(trace) && UniqueIds(trace[0]) && Exact(trace[|trace| - 1], name, wanted, ttl)
    ensures |trace| - 1 >= LeastWrites(trace[0], name, wanted, ttl)
  {
    if |trace| == 1 {
      NothingNeeded(trace[0], name, wanted, ttl);
    } else {
      var rest := trace[1..];
      assert OneRecordApart(trace[0], trace[1]);
      assert forall k :: 0 <= k < |rest| ==> rest[k] == trace[k + 1];
      NoShorterUpdate(rest, name, wanted, ttl);
      OneChangeGainsOne(trace[0], trace[1], name, wanted, ttl);
    }
  }

  // ----- and there is one that long -----

  /** A record of the set that the right addresses do not depend on. */
  ghost predicate Spare(z: Zone, name: string, wanted: set<string>, ttl: int, s: Record) {
    s in z && Ours(s, name) && Right(DeleteRecord(z, s.id), name, wanted, ttl) == Right(z, name, wanted, ttl)
  }

  lemma SomeSpare(z: Zone, name: string, wanted: set<string>, ttl: int) returns (s: Record)
    requires UniqueIds(z) && |OurIds(z, name)| > |Right(z, name, wanted, ttl)|
    ensures Spare(z, name, wanted, ttl, s)
  {
    IdsAndRight(z, name, wanted, ttl);
    var keeper: Record;
    if !AllRight(z, name, wanted, ttl) {
      s :| s in z && Ours(s, name) && !(s.content in wanted && s.ttl == ttl);
      keeper := s;
    } else {
      s, keeper :| s in z && keeper in z && Ours(s, name) && Ours(keeper, name) && s.content == keeper.content && s != keeper;
    }
    forall ip | ip in Right(z, name, wanted, ttl)
      ensures ip in Right(DeleteRecord(z, s.id), name, wanted, ttl)
    {
      var r :| r in z && Ours(r, name) && r.content in wanted && r.ttl == ttl && r.content == ip;
      var q := if r == s then keeper else r;
      if q.id == s.id {
        InZone(z, q, s);
      }
      assert q in DeleteRecord(z, s.id);
    }
  }

  lemma Reusing(z: Zone, s: Record, name: string, wanted: set<string>, ttl: int, ip: string)
    requires UniqueIds(z) && Spare(z, name, wanted, ttl, s) && ip in wanted
    ensures var t := EditRecord(z, s.id, name, ip, ttl);
      && UniqueIds(t) && SameBut(z, t, s.id) && OurIds(t, name) == OurIds(z, name)
      && Right(t, name, wanted, ttl) == Right(z, name, wanted, ttl) + {ip}
  {
  }

  lemma Deleting(z: Zone, s: Record, name: string, wanted: set<string>, ttl: int)
    requires UniqueIds(z) && Spare(z, name, wanted, ttl, s)
    ensures var t := DeleteRecord(z, s.id);
      && UniqueIds(t) && SameBut(z, t, s.id) && |OurIds(t, name)| == |OurIds(z, name)| - 1
  {
    WithoutRecord(z, name, wanted, ttl, s.id);
    assert s.id in OurIds(z, name);
  }

  lemma Creating(z: Zone, name: string, wanted: set<string>, ttl: int, ip: string)
    requires UniqueIds(z) && ip in wanted
    ensures var t := CreateRecord(z, name, ip, ttl);
      && UniqueIds(t) && SameBut(z, t, FreshId(z)) && |OurIds(t, name)| == |OurIds(z, name)| + 1
      && Right(t, name, wanted, ttl) == Right(z, name, wanted, ttl) + {ip}
  {
    CreateKeepsIds(z, name, ip, ttl);
    var created := Record(FreshId(z), name, A_RECORD, ip, ttl, false);
    RightOneMore(z, created, name, wanted, ttl);
    SeeOneMore(z, created, name);
  }

  /** Any zone that is not right yet is one write away from a zone that needs one write less. */
  lemma OneWriteCloser(z: Zone, name: string, wanted: set<string>, ttl: int) returns (w: Write)
    requires UniqueIds(z) && LeastWrites(z, name, wanted, ttl) > 0
    ensures OneRecordApart(z, Written(z, w))
    ensures LeastWrites(Written(z, w), name, wanted, ttl) == LeastWrites(z, name, wanted, ttl) - 1
  {
    var right := Right(z, name, wanted, ttl);
    IdsAndRight(z, name, wanted, ttl);
    SubsetSize(right, wanted);
    if |OurIds(z, name)| > |right| {
      var s := SomeSpare(z, name, wanted, ttl);
      if right != wanted {
        var ip :| ip in wanted && ip !in right;
        Reusing(z, s, name, wanted, ttl, ip);
        w := Edit(s.id, name, ip, ttl);
      } else {
        Deleting(z, s, name, wanted, ttl);
        w := Delete(s.id);
      }
    } else {
      var ip :| ip in wanted && ip !in right;
      Creating(z, name, wanted, ttl, ip);
      w := Create(name, ip, ttl);
    }
  }

  lemma {:induction false} SomeUpdateIsShortest(z: Zone, name: string, wanted: set<string>, ttl: int) returns (ws: seq<Write>)
    requires UniqueIds(z)
    ensures Exact(Zones(z, ws)[|ws|], name, wanted, ttl) && |ws| == LeastWrites(z, name, wanted, ttl)
    decreases LeastWrites(z, name, wanted, ttl)
  {
    NothingNeeded(z, name, wanted, ttl);
    if LeastWrites(z, name, wanted, ttl) == 0 {
      ws := [];
    } else {
      var w := OneWriteCloser(z, name, wanted, ttl);
      var rest := SomeUpdateIsShortest(Written(z, w), name, wanted, ttl);
      ws := [w] + rest;
      ZonesJoined(z, [w], rest);
      assert Zones(z, [w]) == [z, Written(z, w)] by {
        assert [w][..0] == [];
      }
    }
  }

  // ----- when EnsureDNSARecordSet needs no more -----

  /** For every wanted address that has a record with the wanted TTL, the first one listed has it. */
  ghost predicate FirstsAreRight(listing: Zone, name: string, wanted: set<string>, ttl: int) {
    forall i ::
      && 0 <= i < |listing| && Keeps(listing[..i], listing[i], name, wanted)
      && listing[i].content in Right(listing, name, wanted, ttl)
      ==> listing[i].ttl == ttl
  }

  lemma {:induction false} FirstListed(listing: Zone, name: string, wanted: set<string>, ip: string) returns (i: nat)
    requires ip in wanted && ip in Shown(listing, name)
    ensures i < |listing| && Keeps(listing[..i], listing[i], name, wanted) && listing[i].content == ip
  {
    var last := |listing| - 1;
    var before, r := listing[..last], listing[last];
    assert listing == before + [r];
    if ip in Shown(before, name) {
      i := FirstListed(before, name, wanted, ip);
      assert before[..i] == listing[..i];
    } else {
      i := last;
    }
  }

  /** How many of the kept records are right as they are. */
  function KeptRight(listing: Zone, name: string, wanted: set<string>, ttl: int): int {
    |wanted * Shown(listing, name)| - StaleKept(listing, name, wanted, ttl, false)
  }

  lemma KeptRightOneMore(seen: Zone, r: Record, name: string, wanted: set<string>, ttl: int)
    requires UniqueIds(seen + [r])
    ensures KeptRight(seen + [r], name, wanted, ttl) ==
      KeptRight(seen, name, wanted, ttl) + if Keeps(seen, r, name, wanted) && r.ttl == ttl then 1 else 0
  {
    SeeOneMore(seen, r, name);
    StaleOneMore(seen, r, name, wanted, ttl, false);
    ShownOneMore(wanted, Shown(seen, name), r.content);
  }

  lemma ShownOneMore(wanted: set<string>, shown: set<string>, ip: string)
    ensures |wanted * (shown + {ip})| == |wanted * shown| + if ip in wanted - shown then 1 else 0
  {
    if ip in wanted - shown {
      assert wanted * (shown + {ip}) == wanted * shown + {ip};
    } else {
      assert wanted * (shown + {ip}) == wanted * shown;
    }
  }

  lemma FirstsBefore(seen: Zone, r: Record, name: string, wanted: set<string>, ttl: int)
    requires UniqueIds(seen + [r]) && FirstsAreRight(seen + [r], name, wanted, ttl)
    ensures FirstsAreRight(seen, name, wanted, ttl)
  {
    var t := seen + [r];
    RightOneMore(seen, r, name, wanted, ttl);
    forall i | 0 <= i < |seen| && Keeps(seen[..i], seen[i], name, wanted) && seen[i].content in Right(seen, name, wanted, ttl)
      ensures seen[i].ttl == ttl
    {
      assert t[..i] == seen[..i] && t[i] == seen[i];
      assert Keeps(t[..i], t[i], name, wanted);
    }
  }

  /** A right record that is not kept comes after the first one of its address. */
  lemma RightTooLate(seen: Zone, r: Record, name: string, wanted: set<string>, ttl: int)
    requires UniqueIds(seen + [r]) && !Keeps(seen, r, name, wanted)
    requires Right(seen + [r], name, wanted, ttl) != Right(seen, name, wanted, ttl)
    ensures !FirstsAreRight(seen + [r], name, wanted, ttl)
  {
    var t := seen + [r];
    RightOneMore(seen, r, name, wanted, ttl);
    var i := FirstListed(seen, name, wanted, r.content);
    assert t[..i] == seen[..i] && t[i] == seen[i] && seen[i] in seen;
    assert Keeps(t[..i], t[i], name, wanted) && t[i].content in Right(t, name, wanted, ttl);
  }

  lemma FirstsAfter(seen: Zone, r: Record, name: string, wanted: set<string>, ttl: int)
    requires UniqueIds(seen + [r]) && FirstsAreRight(seen, name, wanted, ttl)
    requires Right(seen + [r], name, wanted, ttl) == Right(seen, name, wanted, ttl) || Keeps(seen, r, name, wanted)
    ensures FirstsAreRight(seen + [r], name, wanted, ttl)
  {
    var t := seen + [r];
    RightOneMore(seen, r, name, wanted, ttl);
    forall i | 0 <= i < |t| && Keeps(t[..i], t[i], name, wanted) && t[i].content in Right(t, name, wanted, ttl)
      ensures t[i].ttl == ttl
    {
      if i < |seen| {
        assert t[..i] == seen[..i] && t[i] == seen[i] && seen[i] in seen;
        assert Keeps(seen[..i], seen[i], name, wanted);
      } else {
        assert t[..i] == seen;
      }
    }
  }

  lemma FirstsOneMore(seen: Zone, r: Record, name: string, wanted: set<string>, ttl: int)
    requires UniqueIds(seen + [r])
    ensures FirstsAreRight(seen + [r], name, wanted, ttl) <==>
      && FirstsAreRight(seen, name, wanted, ttl)
      && (Right(seen + [r], name, wanted, ttl) == Right(seen, name, wanted, ttl) || Keeps(seen, r, name, wanted))
  {
    if Right(seen + [r], name, wanted, ttl) != Right(seen, name, wanted, ttl) && !Keeps(seen, r, name, wanted) {
      RightTooLate(seen, r, name, wanted, ttl);
    } else if FirstsAreRight(seen, name, wanted, ttl) {
      FirstsAfter(seen, r, name, wanted, ttl);
    } else if FirstsAreRight(seen + [r], name, wanted, ttl) {
      FirstsBefore(seen, r, name, wanted, ttl);
    }
  }

  /** The right addresses whose first record listed is not right. */
  function LateRight(listing: Zone, name: string, wanted: set<string>, ttl: int): int {
    |Right(listing, name, wanted, ttl)| - KeptRight(listing, name, wanted, ttl)
  }

  lemma LateRightOneMore(seen: Zone, r: Record, name: string, wanted: set<string>, ttl: int)
    requires UniqueIds(seen + [r])
    ensures LateRight(seen + [r], name, wanted, ttl) == LateRight(seen, name, wanted, ttl) +
      if Right(seen + [r], name, wanted, ttl) == Right(seen, name, wanted, ttl) || Keeps(seen, r, name, wanted) then 0 else 1
  {
    KeptRightOneMore(seen, r, name, wanted, ttl);
    RightOneMore(seen, r, name, wanted, ttl);
    assert Keeps(seen, r, name, wanted) ==> r.content !in Right(seen, name, wanted, ttl);
  }

  lemma {:induction false} LateRightMeans(listing: Zone, name: string, wanted: set<string>, ttl: int)
    requires UniqueIds(listing)
    ensures LateRight(listing, name, wanted, ttl) >= 0
    ensures LateRight(listing, name, wanted, ttl) == 0 <==> FirstsAreRight(listing, name, wanted, ttl)
  {
    if listing == [] {
      assert Shown([], name) == {} && Right([], name, wanted, ttl) == {};
    } else {
      var before, r := listing[..|listing| - 1], listing[|listing| - 1];
      assert listing == before + [r];
      LateRightMeans(before, name, wanted, ttl);
      LateRightOneMore(before, r, name, wanted, ttl);
      FirstsOneMore(before, r, name, wanted, ttl);
    }
  }

  /** The listing shows the record set of the zone, as those of both providers do. */
  ghost predicate Lists(listing: Zone, z: Zone, name: string) {
    UniqueIds(z) && UniqueIds(listing) && forall r :: Ours(r, name) ==> (r in z <==> r in listing)
  }

  lemma ProxyAside(listing: Zone, name: string, wanted: set<string>, ttl: int, unproxy: bool)
    requires unproxy ==> forall r :: r in listing ==> !r.proxied
    ensures StaleKept(listing, name, wanted, ttl, unproxy) == StaleKept(listing, name, wanted, ttl, false)
  {
  }

  /** A completed update used the least number of writes exactly when it met the right records first. */
  lemma LeastExactlyWhen(z: Zone, listing: Zone, name: string, wanted: set<string>, ttl: int, unproxy: bool, writes: seq<Write>)
    requires Lists(listing, z, name) && Completed(z, listing, name, wanted, ttl, unproxy, writes)
    requires unproxy ==> forall r :: r in listing ==> !r.proxied
    ensures |writes| == LeastWrites(z, name, wanted, ttl) <==> FirstsAreRight(listing, name, wanted, ttl)
  {
    ProxyAside(listing, name, wanted, ttl, unproxy);
    LateRightMeans(listing, name, wanted, ttl);
    assert Right(listing, name, wanted, ttl) == Right(z, name, wanted, ttl);
    assert Shown(listing, name) == Shown(z, name);
    MissingOrSurplus(z, name, wanted);
  }

  lemma MissingOrSurplus(z: Zone, name: string, wanted: set<string>)
    ensures WritesNeeded(z, name, wanted) == Max(|wanted|, |OurIds(z, name)|) - |wanted * Shown(z, name)|
  {
  }

  /** With every TTL right already, that is the number of addresses missing or of records left over. */
  lemma LeastWithRightTtls(z: Zone, name: string, wanted: set<string>, ttl: int)
    requires UniqueIds(z) && forall r :: r in z && Ours(r, name) ==> r.ttl == ttl
    ensures LeastWrites(z, name, wanted, ttl) == WritesNeeded(z, name, wanted)
  {
    MissingOrSurplus(z, name, wanted);
    assert Right(z, name, wanted, ttl) == wanted * Shown(z, name);
  }

  /** Two records of one address, the one listed first with the wrong TTL: two writes where one would do. */
  lemma WrongFirstCostsOneMore(name: string, ip: string, ttl: int) returns (z: Zone)
    ensures UniqueIds(z) && LeastWrites(z, name, {ip}, ttl) == 1
    ensures StaleKept(z, name, {ip}, ttl, false) + WritesNeeded(z, name, {ip}) == 2
  {
    var wrong, right := Record(0, name, A_RECORD, ip, ttl + 1, false), Record(1, name, A_RECORD, ip, ttl, false);
    z := [wrong, right];
    assert z[..1] == [wrong] && [wrong][..0] == [];
    assert wrong in z && right in z;
    assert Shown([], name) == {};
    assert StaleKept([wrong], name, {ip}, ttl, false) == 1 && ip in Shown([wrong], name);
    assert OurIds(z, name) == {0, 1};
    assert Right(z, name, {ip}, ttl) == {ip} && {ip} * Shown(z, name) == {ip};
    MissingOrSurplus(z, name, {ip});
  }

  // ----- running again -----

  /** Every write changes one record, so no writes fewer than LeastWrites are enough. */
  lemma {:induction false} WritesAreChanges(z: Zone, ws: seq<Write>)
    requires UniqueIds(z)
    ensures Changes(Zones(z, ws)) && UniqueIds(Zones(z, ws)[|ws|])
  {
    if ws != [] {
      var before := Zones(z, ws[..|ws| - 1]);
      WritesAreChanges(z, ws[..|ws| - 1]);
      WriteChangesOne(before[|ws| - 1], ws[|ws| - 1]);
    }
  }

  lemma WriteChangesOne(z: Zone, w: Write)
    requires UniqueIds(z)
    ensures OneRecordApart(z, Written(z, w))
    ensures (forall r :: r in z ==> !r.proxied) ==> forall r :: r in Written(z, w) ==> !r.proxied
  {
    match w
    case Edit(id, name, content, ttl) =>
      EditKeepsIds(z, id, name, content, ttl);
      assert SameBut(z, Written(z, w), id);
    case Create(name, content, ttl) =>
      CreateKeepsIds(z, name, content, ttl);
      assert SameBut(z, Written(z, w), FreshId(z));
    case Delete(id) =>
      assert SameBut(z, Written(z, w), id);
  }

  lemma {:induction false} StaleCount(listing: Zone, name: string, wanted: set<string>, ttl: int, unproxy: bool)
    requires forall r :: r in listing && Ours(r, name) ==> r.content in wanted
    requires OneEach(listing, name) && UniqueIds(listing)
    ensures StaleKept(listing, name, wanted, ttl, unproxy) == 0 <==>
      forall r :: r in listing && Ours(r, name) ==> !Stale(r, ttl, unproxy)
  {
    if listing != [] {
      var before, r := listing[..|listing| - 1], listing[|listing| - 1];
      assert listing == before + [r];
      SeeOneMore(before, r, name);
      StaleCount(before, name, wanted, ttl, unproxy);
    }
  }

  /** What an update of an exact zone costs: nothing, unless it tries to fix records that are proxied. */
  lemma ExactCosts(z: Zone, listing: Zone, name: string, wanted: set<string>, ttl: int, unproxy: bool)
    requires Lists(listing, z, name) && Exact(z, name, wanted, ttl)
    ensures WritesNeeded(z, name, wanted) == 0
    ensures StaleKept(listing, name, wanted, ttl, unproxy) == 0 <==> !unproxy || forall r :: r in z && Ours(r, name) ==> !r.proxied
  {
    NothingNeeded(z, name, wanted, ttl);
    MissingOrSurplus(z, name, wanted);
    assert Right(z, name, wanted, ttl) == wanted * Shown(z, name);
    StaleCount(listing, name, wanted, ttl, unproxy);
  }

  /** Running an update again on its own result writes nothing, unless it keeps trying to fix records
      that are proxied, which an edit cannot change. */
  lemma RunningAgain(z: Zone, listing: Zone, name: string, wanted: set<string>, ttl: int, unproxy: bool, writes: seq<Write>)
    requires Lists(listing, z, name) && Exact(z, name, wanted, ttl)
    requires Completed(z, listing, name, wanted, ttl, unproxy, writes)
    ensures writes == [] <==> !unproxy || forall r :: r in z && Ours(r, name) ==> !r.proxied
  {
    ExactCosts(z, listing, name, wanted, ttl, unproxy);
  }

  /** A zone without proxied records stays so, and so a second update of it writes nothing. */
  lemma {:induction false} NeverProxied(z: Zone, ws: seq<Write>)
    requires UniqueIds(z) && forall r :: r in z ==> !r.proxied
    ensures forall r :: r in Zones(z, ws)[|ws|] ==> !r.proxied
  {
    if ws != [] {
      NeverProxied(z, ws[..|ws| - 1]);
      WritesAreChanges(z, ws[..|ws| - 1]);
      WriteChangesOne(Zones(z, ws[..|ws| - 1])[|ws| - 1], ws[|ws| - 1]);
    }
  }

  /** The same update twice on DigitalOcean: once the first has succeeded, the second writes nothing, whatever
      fails, and fails only if a page of its listing does. */
  method UpdateTwiceDigitalOcean(z: Zone, name: string, ips: seq<string>, ttl: int, perPage: nat, calls: Calls, later: Calls)
      returns (err: bool, writes: seq<Write>, again: bool, rewrites: seq<Write>)
    requires UniqueIds(z) && perPage > 0
    ensures !err ==> rewrites == []
    ensures !err ==> Exact(Zones(z, writes)[|writes|], name, ToSet(ips), ttl)
    ensures !err ==> (again <==> SomePageFails(later, PageCount(|Zones(z, writes)[|writes|]|, perPage)))
  {
    err, writes := EnsureDigitalOcean(z, name, ips, ttl, perPage, calls);
    again, rewrites := false, [];
    if !err {
      var z1 := Zones(z, writes)[|writes|];
      WritesAreChanges(z, writes);
      ExactCosts(z1, z1, name, ToSet(ips), ttl, false);
      again, rewrites := EnsureDigitalOcean(z1, name, ips, ttl, perPage, later);
    }
  }

  /** The same update twice on Cloudflare, which lists the record set in whatever order: if both succeed,
      the second writes nothing exactly if no record of the set is proxied, and so if none was at first. */
  method UpdateTwiceCloudflare(z: Zone, name: string, ips: seq<string>, ttl: int, list: Zone -> Zone, calls: Calls, later: Calls)
      returns (err: bool, writes: seq<Write>, again: bool, rewrites: seq<Write>)
    requires UniqueIds(z)
    requires forall t: Zone :: UniqueIds(t) ==> UniqueIds(list(t)) && forall r :: r in list(t) <==> r in t && Ours(r, name)
    ensures var z1 := Zones(z, writes)[|writes|];
      && (!err && !again ==> (rewrites == [] <==> forall r :: r in z1 && Ours(r, name) ==> !r.proxied))
      && (!err && (forall r :: r in z1 && Ours(r, name) ==> !r.proxied) ==> rewrites == [])
    ensures !err && (forall r :: r in z ==> !r.proxied) ==> rewrites == []
  {
    err, writes := EnsureCloudflare(z, list(z), name, ips, ttl, calls);
    again, rewrites := false, [];
    if !err {
      var z1 := Zones(z, writes)[|writes|];
      WritesAreChanges(z, writes);
      ExactCosts(z1, list(z1), name, ToSet(ips), ttl, true);
      if forall r :: r in z ==> !r.proxied {
        NeverProxied(z, writes);
      }
      again, rewrites := EnsureCloudflare(z1, list(z1), name, ips, ttl, later);
    }
  }
}
