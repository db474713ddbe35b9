/** The controller's five tables as rows, and the row selections and
    replacements its handlers perform on them.

    A table is a sequence in rowid order, the order SQLite returns rows in
    when a query has no `ORDER BY`. `devices` is keyed by its text id and is
    kept as a map in the controller. */
module Tables {
  import opened Payload

  /** A row of `devices` (its key, `id`, is the map key). */
  datatype Device = Device(
    name: string,
    status: string,
    vlan: Option<int>,
    clients: int,
    traffic: int,
    lastSeen: int)

  /** A row of `clients`; `id` is the AUTOINCREMENT key. */
  datatype ClientRow = ClientRow(id: nat, name: string, apId: string, ip: Option<string>, lastSeen: int)

  /** A row of `vlans`; `id` is the INTEGER PRIMARY KEY, so the table is kept in ascending id order. */
  datatype VlanRow = VlanRow(id: int, ssid: string)

  /** A row of `vlans_aps`. The table has no key, so the same pair may occur more than once. */
  datatype Membership = Membership(vlanId: int, apId: string)

  /** A VLAN as the VLAN listing returns it: its row and the ap ids of its membership rows. */
  datatype VlanView = VlanView(id: int, ssid: string, aps: seq<string>)

  datatype Level = Debug | Info | Warn

  /** The messages the handlers log, one constructor per message kind,
      carrying the values its text shows. */
  datatype Message =
    | ParseError(from: Endpoint)                  // a datagram that did not parse, and its sender
    | MissingId                                   // a parsed payload without an id
    | TelemetryFrom(id: string, from: Endpoint)   // accepted telemetry, its device and sender
    | Adopted(id: string)                         // a manual adoption
    | VlanAssigned(vlan: Option<int>, id: string) // a VLAN assignment, with the raw requested value
    | VlanCreated(vlanId: int)                    // a VLAN created or redefined
    | ControllerStarted                           // the server began listening

  /** A row of `events`; `id` is the AUTOINCREMENT key. */
  datatype Event = Event(id: nat, ts: int, level: Level, msg: Message)

  /** The last known origin of a device's telemetry. */
  datatype Sender = Sender(address: string, port: int, ts: int)

  function EventTime(e: Event): int { e.ts }

  function ClientSeen(c: ClientRow): int { c.lastSeen }

  // ---------------------------------------------------------------- clients

  /** `SELECT * FROM clients WHERE ap_id = ap`, in table order. */
  function ClientsOf(rows: seq<ClientRow>, ap: string): (r: seq<ClientRow>)
    ensures forall c :: c in r <==> c in rows && c.apId == ap
  {
    if rows == [] then []
    else
      assert rows == [rows[0]] + rows[1..];
      (if rows[0].apId == ap then [rows[0]] else []) + ClientsOf(rows[1..], ap)
  }

  /** The rows `DELETE FROM clients WHERE ap_id = ap` leaves, in table order. */
  function WithoutAp(rows: seq<ClientRow>, ap: string): (r: seq<ClientRow>)
    ensures forall c :: c in r <==> c in rows && c.apId != ap
  {
    if rows == [] then []
    else
      assert rows == [rows[0]] + rows[1..];
      (if rows[0].apId != ap then [rows[0]] else []) + WithoutAp(rows[1..], ap)
  }

  /** The rows inserted for a reported `clients_list`: one per entry, in list
      order, name defaulting to "client", ip defaulting to null, row ids
      counting up from `firstId`. */
  function ReportedRows(list: seq<ClientReport>, ap: string, now: int, firstId: nat): seq<ClientRow> {
    seq(|list|, i requires 0 <= i < |list| =>
      ClientRow(firstId + i, OrElse(list[i].name, "client"), ap, OrNull(list[i].ip), now))
  }

  /** Inserting the rows for one more entry of the list appends its row. */
  lemma ReportedRowsExtend(list: seq<ClientReport>, i: nat, ap: string, now: int, firstId: nat)
    requires i < |list|
    ensures ReportedRows(list[..i + 1], ap, now, firstId)
         == ReportedRows(list[..i], ap, now, firstId)
            + [ClientRow(firstId + i, OrElse(list[i].name, "client"), ap, OrNull(list[i].ip), now)]
  {
  }

  /** Row ids strictly increase along the table. */
  predicate IdsIncreasing(rows: seq<ClientRow>) {
    forall i, j :: 0 <= i < j < |rows| ==> rows[i].id < rows[j].id
  }

  /** Every row id lies in [lo, hi). */
  predicate IdsWithin(rows: seq<ClientRow>, lo: int, hi: int) {
    forall c :: c in rows ==> lo <= c.id < hi
  }

  lemma {:induction false} ClientsOfAppend(a: seq<ClientRow>, b: seq<ClientRow>, ap: string)
    ensures ClientsOf(a + b, ap) == ClientsOf(a, ap) + ClientsOf(b, ap)
  {
    if a != [] {
      assert (a + b)[1..] == a[1..] + b;
      ClientsOfAppend(a[1..], b, ap);
    } else {
      assert a + b == b;
    }
  }

  lemma {:induction false} ClientsOfWithoutAp(rows: seq<ClientRow>, ap: string, x: string)
    ensures ClientsOf(WithoutAp(rows, ap), x) == if x == ap then [] else ClientsOf(rows, x)
  {
    if rows != [] {
      ClientsOfWithoutAp(rows[1..], ap, x);
      var head := if rows[0].apId != ap then [rows[0]] else [];
      ClientsOfAppend(head, WithoutAp(rows[1..], ap), x);
    }
  }

  lemma {:induction false} ClientsOfUniform(rows: seq<ClientRow>, ap: string, x: string)
    requires forall c :: c in rows ==> c.apId == ap
    ensures ClientsOf(rows, x) == if x == ap then rows else []
  {
    if rows != [] {
      assert rows[0] in rows;
      assert forall c :: c in rows[1..] ==> c in rows;
      ClientsOfUniform(rows[1..], ap, x);
      assert rows == [rows[0]] + rows[1..];
    }
  }

  /** After the delete-then-insert that replaces an AP's clients, that AP's
      rows are exactly the reported ones and every other AP's rows are as
      before. */
  lemma ClientsAfterReplace(rows: seq<ClientRow>, list: seq<ClientReport>, ap: string, now: int, firstId: nat, x: string)
    ensures ClientsOf(WithoutAp(rows, ap) + ReportedRows(list, ap, now, firstId), x)
         == if x == ap then ReportedRows(list, ap, now, firstId) else ClientsOf(rows, x)
  {
    var added := ReportedRows(list, ap, now, firstId);
    ClientsOfAppend(WithoutAp(rows, ap), added, x);
    ClientsOfWithoutAp(rows, ap, x);
    ClientsOfUniform(added, ap, x);
  }

  /** Deleting rows keeps the remaining row ids in increasing order. */
  lemma {:induction false} WithoutApIncreasing(rows: seq<ClientRow>, ap: string)
    requires IdsIncreasing(rows)
    ensures IdsIncreasing(WithoutAp(rows, ap))
  {
    if rows != [] {
      var tail := rows[1..];
      WithoutApIncreasing(tail, ap);
      var rest := WithoutAp(tail, ap);
      forall k | 0 <= k < |rest| ensures rows[0].id < rest[k].id {
        assert rest[k] in rest;
        var j :| 0 <= j < |tail| && tail[j] == rest[k];
        assert rows[j + 1] == rest[k];
      }
    }
  }

  /** The delete-then-insert keeps row ids unique and increasing, all below
      the advanced AUTOINCREMENT counter. */
  lemma ReplaceKeepsIds(rows: seq<ClientRow>, list: seq<ClientReport>, ap: string, now: int, next: nat)
    requires IdsIncreasing(rows) && IdsWithin(rows, 1, next) && 1 <= next
    ensures IdsIncreasing(WithoutAp(rows, ap) + ReportedRows(list, ap, now, next))
    ensures IdsWithin(WithoutAp(rows, ap) + ReportedRows(list, ap, now, next), 1, next + |list|)
  {
    var kept := WithoutAp(rows, ap);
    var added := ReportedRows(list, ap, now, next);
    WithoutApIncreasing(rows, ap);
    var all := kept + added;
    forall i, j | 0 <= i < j < |all| ensures all[i].id < all[j].id {
      if j < |kept| {
        assert all[i] == kept[i] && all[j] == kept[j];
      } else if i < |kept| {
        assert all[i] in kept;
      } else {
        assert all[i] == added[i - |kept|] && all[j] == added[j - |kept|];
      }
    }
    forall c | c in all ensures 1 <= c.id < next + |list| {
      if c in kept {
        assert c in rows;
      } else {
        var k :| 0 <= k < |added| && added[k] == c;
      }
    }
  }

  // ---------------------------------------------------------------- vlans_aps

  /** `SELECT ap_id FROM vlans_aps WHERE vlan_id = vlan`, in table order. */
  function Members(rows: seq<Membership>, vlan: int): (aps: seq<string>)
    ensures forall a :: a in aps <==> Membership(vlan, a) in rows
  {
    if rows == [] then []
    else
      assert rows == [rows[0]] + rows[1..];
      (if rows[0].vlanId == vlan then [rows[0].apId] else []) + Members(rows[1..], vlan)
  }

  /** The rows `DELETE FROM vlans_aps WHERE vlan_id = vlan` leaves, in table order. */
  function WithoutVlan(rows: seq<Membership>, vlan: int): (r: seq<Membership>)
    ensures forall m :: m in r <==> m in rows && m.vlanId != vlan
  {
    if rows == [] then []
    else
      assert rows == [rows[0]] + rows[1..];
      (if rows[0].vlanId != vlan then [rows[0]] else []) + WithoutVlan(rows[1..], vlan)
  }

  /** The rows inserted for an `aps` array, one per entry, in array order. */
  function MembershipRows(vlan: int, aps: seq<string>): seq<Membership> {
    seq(|aps|, i requires 0 <= i < |aps| => Membership(vlan, aps[i]))
  }

  lemma {:induction false} MembersAppend(a: seq<Membership>, b: seq<Membership>, vlan: int)
    ensures Members(a + b, vlan) == Members(a, vlan) + Members(b, vlan)
  {
    if a != [] {
      assert (a + b)[1..] == a[1..] + b;
      MembersAppend(a[1..], b, vlan);
    } else {
      assert a + b == b;
    }
  }

  lemma {:induction false} MembersWithoutVlan(rows: seq<Membership>, vlan: int, x: int)
    ensures Members(WithoutVlan(rows, vlan), x) == if x == vlan then [] else Members(rows, x)
  {
    if rows != [] {
      MembersWithoutVlan(rows[1..], vlan, x);
      var head := if rows[0].vlanId != vlan then [rows[0]] else [];
      MembersAppend(head, WithoutVlan(rows[1..], vlan), x);
    }
  }

  lemma {:induction false} MembersOfRows(vlan: int, aps: seq<string>, x: int)
    ensures Members(MembershipRows(vlan, aps), x) == if x == vlan then aps else []
  {
    if aps != [] {
      var rows := MembershipRows(vlan, aps);
      assert rows[1..] == MembershipRows(vlan, aps[1..]);
      MembersOfRows(vlan, aps[1..], x);
      assert aps == [aps[0]] + aps[1..];
    }
  }

  /** Replacing a VLAN's membership rows makes its members exactly the given
      ap ids, in order, and leaves every other VLAN's members as they were. */
  lemma MembersAfterReplace(rows: seq<Membership>, vlan: int, aps: seq<string>, x: int)
    ensures Members(WithoutVlan(rows, vlan) + MembershipRows(vlan, aps), x)
         == if x == vlan then aps else Members(rows, x)
  {
    MembersAppend(WithoutVlan(rows, vlan), MembershipRows(vlan, aps), x);
    MembersWithoutVlan(rows, vlan, x);
    MembersOfRows(vlan, aps, x);
  }

  /** Appending one membership row adds its ap id at the end of that VLAN's
      members and nowhere else. */
  lemma MembersAfterInsert(rows: seq<Membership>, vlan: int, ap: string, x: int)
    ensures Members(rows + [Membership(vlan, ap)], x)
         == Members(rows, x) + (if x == vlan then [ap] else [])
  {
    MembersAppend(rows, [Membership(vlan, ap)], x);
    assert [Membership(vlan, ap)][1..] == [];
  }

  // ---------------------------------------------------------------- vlans

  /** Row ids strictly increase along the table, as for an INTEGER PRIMARY KEY. */
  predicate VlanIdsAscending(rows: seq<VlanRow>) {
    forall i, j :: 0 <= i < j < |rows| ==> rows[i].id < rows[j].id
  }

  /** The ssid of the row with id `vlan`, if there is one. */
  function SsidOf(rows: seq<VlanRow>, vlan: int): Option<string> {
    if rows == [] then None
    else if rows[0].id == vlan then Some(rows[0].ssid)
    else SsidOf(rows[1..], vlan)
  }

  /** `INSERT OR REPLACE INTO vlans(id, ssid)`: the row with that id is
      replaced, or a new one is put at its place in id order. */
  function PutVlan(rows: seq<VlanRow>, vlan: int, ssid: string): (r: seq<VlanRow>)
    requires VlanIdsAscending(rows)
    ensures VlanIdsAscending(r)
    ensures forall v :: SsidOf(r, v) == if v == vlan then Some(ssid) else SsidOf(rows, v)
  {
    if rows == [] || vlan < rows[0].id then
      [VlanRow(vlan, ssid)] + rows
    else if rows[0].id == vlan then
      [VlanRow(vlan, ssid)] + rows[1..]
    else
      var rest := PutVlan(rows[1..], vlan, ssid);
      forall k | 0 <= k < |rest| ensures rows[0].id < rest[k].id {
        if rest[k].id != vlan {
          SsidOfRow(rest, k);
          SsidOfBelowFirst(rows[1..], rows[0].id, rest[k].id);
        }
      }
      [rows[0]] + rest
  }

  /** In an ascending table, only ids above a bound `b` that lies below every
      row can be found. */
  lemma {:induction false} SsidOfBelowFirst(rows: seq<VlanRow>, b: int, v: int)
    requires VlanIdsAscending(rows)
    requires forall k :: 0 <= k < |rows| ==> b < rows[k].id
    requires SsidOf(rows, v).Some?
    ensures b < v
  {
    if rows[0].id != v {
      SsidOfBelowFirst(rows[1..], b, v);
    }
  }

  /** In an ascending table each row is the one found under its id. */
  lemma {:induction false} SsidOfRow(rows: seq<VlanRow>, i: nat)
    requires VlanIdsAscending(rows) && i < |rows|
    ensures SsidOf(rows, rows[i].id) == Some(rows[i].ssid)
  {
    if i > 0 {
      assert rows[0].id < rows[i].id;
      SsidOfRow(rows[1..], i - 1);
    }
  }

  /** The VLAN listing: every row of `vlans` in table order, each with the ap
      ids of its membership rows. */
  function VlanListing(rows: seq<VlanRow>, memberships: seq<Membership>): (r: seq<VlanView>)
    requires VlanIdsAscending(rows)
    ensures |r| == |rows|
    ensures forall i, j :: 0 <= i < j < |r| ==> r[i].id < r[j].id
    ensures forall i :: 0 <= i < |r| ==> SsidOf(rows, r[i].id) == Some(r[i].ssid)
    ensures forall i, a :: 0 <= i < |r| ==> (a in r[i].aps <==> Membership(r[i].id, a) in memberships)
    ensures forall i :: 0 <= i < |r| ==> r[i].aps == Members(memberships, r[i].id)
  {
    forall i | 0 <= i < |rows| ensures SsidOf(rows, rows[i].id) == Some(rows[i].ssid) {
      SsidOfRow(rows, i);
    }
    seq(|rows|, i requires 0 <= i < |rows| => VlanView(rows[i].id, rows[i].ssid, Members(memberships, rows[i].id)))
  }
}
