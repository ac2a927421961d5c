/** DNS zones, the single-record calls a provider offers on them, and what a published record set is. */
module DnsZones {

  const A_RECORD := "A"

  datatype Record = Record(id: nat, name: string, rtype: string, content: string, ttl: int, proxied: bool)

  /** A zone in listing order. */
  type Zone = seq<Record>

  ghost predicate UniqueIds(z: Zone) {
    forall i, j :: 0 <= i < j < |z| ==> z[i].id != z[j].id
  }

  /** The record belongs to the record set called `name`. */
  predicate Ours(r: Record, name: string) {
    r.name == name && r.rtype == A_RECORD
  }

  // ----- calls -----

  /** What an edit request sends: everything but the proxied flag, which it leaves alone. */
  function Edited(r: Record, name: string, content: string, ttl: int): Record {
    r.(name := name, rtype := A_RECORD, content := content, ttl := ttl)
  }

  function EditRecord(z: Zone, id: nat, name: string, content: string, ttl: int): (r: Zone)
    ensures |r| == |z|
    ensures forall i :: 0 <= i < |z| ==> r[i] == if z[i].id == id then Edited(z[i], name, content, ttl) else z[i]
  {
    seq(|z|, i requires 0 <= i < |z| => if z[i].id == id then Edited(z[i], name, content, ttl) else z[i])
  }

  /** An id no record has. */
  function FreshId(z: Zone): (id: nat)
    ensures forall r :: r in z ==> r.id < id
  {
    if z == [] then 0
    else
      var rest := FreshId(z[1..]);
      assert z == [z[0]] + z[1..];
      if z[0].id < rest then rest else z[0].id + 1
  }

  function CreateRecord(z: Zone, name: string, content: string, ttl: int): Zone {
    z + [Record(FreshId(z), name, A_RECORD, content, ttl, false)]
  }

  function DeleteRecord(z: Zone, id: nat): (r: Zone)
    ensures forall x :: x in r <==> x in z && x.id != id
    ensures UniqueIds(z) ==> UniqueIds(r)
  {
    if z == [] then []
    else
      var rest := DeleteRecord(z[1..], id);
      assert z == [z[0]] + z[1..];
      assert UniqueIds(z) ==> UniqueIds(z[1..]) && forall x :: x in z[1..] ==> x.id != z[0].id;
      if z[0].id == id then rest else [z[0]] + rest
  }

  // ----- the record set -----

  /** The addresses published under the name. */
  function Shown(z: Zone, name: string): set<string> {
    set r | r in z && Ours(r, name) :: r.content
  }

  /** Exactly one record per wanted address, with the wanted TTL. */
  ghost predicate Exact(z: Zone, name: string, wanted: set<string>, ttl: int) {
    && (forall r :: r in z && Ours(r, name) ==> r.content in wanted && r.ttl == ttl)
    && (forall r, q :: r in z && q in z && Ours(r, name) && Ours(q, name) && r.content == q.content ==> r == q)
    && (forall ip :: ip in wanted ==> exists r :: r in z && Ours(r, name) && r.content == ip)
  }

  function OurIds(z: Zone, name: string): set<nat> {
    set r | r in z && Ours(r, name) :: r.id
  }

  /** How many writes the set is away from publishing just the wanted addresses, TTLs aside: every
      missing address takes one, and so does every surplus record, but one write can serve both. */
  function WritesNeeded(z: Zone, name: string, wanted: set<string>): int {
    var missing := |wanted - Shown(z, name)|;
    var surplus := |OurIds(z, name)| - |wanted * Shown(z, name)|;
    if missing < surplus then surplus else missing
  }

  /** Records outside the set are the same ones. */
  ghost predicate SameOthers(z: Zone, t: Zone, name: string) {
    forall r :: !Ours(r, name) ==> (r in z <==> r in t)
  }

  /** What must hold at every moment of an update: nothing else changes, wanted addresses that were
      published stay published, and a non-empty set with a wanted address never becomes empty. */
  ghost predicate Safe(z: Zone, t: Zone, name: string, wanted: set<string>) {
    && SameOthers(z, t, name)
    && (forall ip :: ip in wanted && ip in Shown(z, name) ==> ip in Shown(t, name))
    && (wanted != {} && Shown(z, name) != {} ==> Shown(t, name) != {})
  }

  /** One call that changes the zone. */
  datatype Write =
    | Edit(id: nat, name: string, content: string, ttl: int)
    | Create(name: string, content: string, ttl: int)
    | Delete(id: nat)

  function Written(z: Zone, w: Write): Zone {
    match w
    case Edit(id, name, content, ttl) => EditRecord(z, id, name, content, ttl)
    case Create(name, content, ttl) => CreateRecord(z, name, content, ttl)
    case Delete(id) => DeleteRecord(z, id)
  }

  /** The zone before and after each of the writes. */
  function Zones(z: Zone, ws: seq<Write>): (trace: seq<Zone>)
    ensures |trace| == |ws| + 1 && trace[0] == z
  {
    if ws == [] then [z]
    else
      var last := |ws| - 1;
      var trace := Zones(z, ws[..last]);
      trace + [Written(trace[last], ws[last])]
  }

  lemma ZonesOneMore(z: Zone, ws: seq<Write>, w: Write)
    ensures Zones(z, ws + [w]) == Zones(z, ws) + [Written(Zones(z, ws)[|ws|], w)]
  {
    assert (ws + [w])[..|ws|] == ws;
  }

  lemma {:induction false} ZonesJoined(z: Zone, ws: seq<Write>, more: seq<Write>)
    ensures Zones(z, ws + more) == Zones(z, ws) + Zones(Zones(z, ws)[|ws|], more)[1..]
  {
    var middle := Zones(z, ws)[|ws|];
    if more == [] {
      assert ws + more == ws;
    } else {
      var before, w := more[..|more| - 1], more[|more| - 1];
      assert more == before + [w] && ws + more == (ws + before) + [w];
      ZonesJoined(z, ws, before);
      ZonesOneMore(z, ws + before, w);
      ZonesOneMore(middle, before, w);
      JoinedOneMore(Zones(z, ws), Zones(middle, before), Written(Zones(middle, before)[|before|], w));
    }
  }

  lemma JoinedOneMore(trace: seq<Zone>, tail: seq<Zone>, t: Zone)
    requires |trace| > 0 && |tail| > 0 && trace[|trace| - 1] == tail[0]
    ensures trace + (tail + [t])[1..] == trace + tail[1..] + [t]
    ensures (trace + tail[1..])[|trace| + |tail| - 2] == tail[|tail| - 1]
  {
  }

  /** An update of `z` that goes through the zones of the trace is safe all along. */
  ghost predicate SafeUpdate(z: Zone, trace: seq<Zone>, name: string, wanted: set<string>) {
    forall k :: 0 <= k < |trace| ==> Safe(z, trace[k], name, wanted)
  }

  lemma SafeAlone(z: Zone, t: Zone, name: string, wanted: set<string>)
    requires Safe(z, t, name, wanted)
    ensures SafeUpdate(z, [t], name, wanted)
  {
  }

  lemma SafeOneMore(z: Zone, trace: seq<Zone>, t: Zone, name: string, wanted: set<string>)
    requires SafeUpdate(z, trace, name, wanted) && Safe(z, t, name, wanted)
    ensures SafeUpdate(z, trace + [t], name, wanted)
  {
  }

  lemma SafeJoined(z: Zone, trace: seq<Zone>, tail: seq<Zone>, name: string, wanted: set<string>)
    requires SafeUpdate(z, trace, name, wanted) && SafeUpdate(z, tail, name, wanted) && |tail| > 0
    ensures SafeUpdate(z, trace + tail[1..], name, wanted)
  {
  }

  lemma InZone(z: Zone, r: Record, q: Record)
    requires UniqueIds(z) && r in z && q in z && r.id == q.id
    ensures r == q
  {
  }

  lemma EditKeepsIds(z: Zone, id: nat, name: string, content: string, ttl: int)
    requires UniqueIds(z)
    ensures var t := EditRecord(z, id, name, content, ttl);
      && UniqueIds(t)
      && (forall r :: r in t <==> (r in z && r.id != id) || exists q :: q in z && q.id == id && r == Edited(q, name, content, ttl))
  {
  }

  lemma CreateKeepsIds(z: Zone, name: string, content: string, ttl: int)
    requires UniqueIds(z)
    ensures UniqueIds(CreateRecord(z, name, content, ttl))
  {
  }
}
