/** The controller's registry: the tables every handler reads and writes, the
    in-memory last-sender map, and one method per handler. Each handler runs
    to completion before the next starts, so each method is one atomic step
    from the state before the request or datagram to the state after it. */
module Server {
  import opened Payload
  import opened Tables
  import opened Ordering

  /** A device last seen more than this many milliseconds before a sweep is marked offline. */
  const OfflineAfter := 30000

  /** The log read returns at most this many events. */
  const LogPage := 200

  /** The outcome of a command. */
  datatype Outcome = Ok | MissingFields | AlreadyExists | NotFound

  /** The HTTP status each outcome is answered with. */
  function StatusCode(o: Outcome): int {
    match o
    case Ok => 200
    case MissingFields => 400
    case AlreadyExists => 400
    case NotFound => 404
  }

  /** Broadcast topics, recorded in the order they are emitted. */
  datatype Topic = EventTopic | DevicesUpdate | VlansUpdate | TelemetryTopic | PushConfig

  /** The `devices` row telemetry for `id` leaves behind: reported fields or
      their defaults, `lastSeen` the arrival time, and the VLAN of an existing
      row kept (a new row has none). */
  function Upserted(prior: Option<Device>, id: string, t: Telemetry, now: int): Device {
    Device(OrElse(t.name, id), OrElse(t.status, "online"),
           if prior.Some? then prior.value.vlan else None,
           OrZero(t.clients), OrZero(t.traffic), now)
  }

  /** Ingesting the same telemetry twice gives the same row as ingesting it
      once, except that `lastSeen` moves to the second arrival. */
  lemma UpsertIdempotent(prior: Option<Device>, id: string, t: Telemetry, first: int, second: int)
    ensures Upserted(Some(Upserted(prior, id, t, first)), id, t, second)
         == Upserted(prior, id, t, first).(lastSeen := second)
  {
  }

  /** Telemetry does not force a device online: a reported status is stored as it is. */
  lemma ReportedStatusKept(prior: Option<Device>, id: string, t: Telemetry, now: int)
    requires Truthy(t.status)
    ensures Upserted(prior, id, t, now).status == t.status.value
  {
  }

  /** `lastSeen` is older than the sweep threshold. */
  predicate Stale(d: Device, now: int) {
    d.lastSeen < now - OfflineAfter
  }

  /** The devices a sweep at `now` marks offline. */
  function StaleIds(devices: map<string, Device>, now: int): set<string> {
    set id | id in devices && Stale(devices[id], now)
  }

  /** `n` copies of one topic. */
  function Repeat(topic: Topic, n: nat): seq<Topic> {
    seq(n, _ => topic)
  }

  class Controller {
    var devices: map<string, Device>
    var clients: seq<ClientRow>
    /** The next id the `clients` AUTOINCREMENT key hands out. */
    var nextClientId: nat
    var vlans: seq<VlanRow>
    var vlanAps: seq<Membership>
    var events: seq<Event>
    var lastSender: map<string, Sender>
    /** Every broadcast so far, by topic. */
    ghost var emitted: seq<Topic>

    /** Client row ids are unique, increasing and below the counter; `vlans`
        is in id order; event ids count 1, 2, 3, ... */
    ghost predicate Valid()
      reads this
    {
      && 1 <= nextClientId
      && IdsIncreasing(clients)
      && IdsWithin(clients, 1, nextClientId)
      && VlanIdsAscending(vlans)
      && forall i :: 0 <= i < |events| ==> events[i].id == i + 1
    }

    /** A controller over empty tables. */
    constructor ()
      ensures Valid()
      ensures devices == map[] && clients == [] && nextClientId == 1
      ensures vlans == [] && vlanAps == [] && events == []
      ensures lastSender == map[] && emitted == []
    {
      devices := map[];
      clients := [];
      nextClientId := 1;
      vlans := [];
      vlanAps := [];
      events := [];
      lastSender := map[];
      emitted := [];
    }

    /** `logEvent`: appends one event stamped `now` and broadcasts it; the
        log is only ever appended to. */
    method LogEvent(level: Level, msg: Message, now: int)
      requires Valid()
      modifies this`events, this`emitted
      ensures Valid()
      ensures events == old(events) + [Event(|old(events)| + 1, now, level, msg)]
      ensures emitted == old(emitted) + [EventTopic]
    {
      events := events + [Event(|events| + 1, now, level, msg)];
      emitted := emitted + [EventTopic];
    }

    /** The listen callback: logs that the controller started. */
    method Start(now: int)
      requires Valid()
      modifies this`events, this`emitted
      ensures Valid()
      ensures events == old(events) + [Event(|old(events)| + 1, now, Info, ControllerStarted)]
      ensures emitted == old(emitted) + [EventTopic]
    {
      LogEvent(Info, ControllerStarted, now);
    }

    /** POST /api/devices/adopt: a missing id or name, or an id already
        present, changes nothing; otherwise exactly one device is added,
        online, with zero counters, no VLAN and `lastSeen` now. */
    method Adopt(id: Option<string>, name: Option<string>, now: int) returns (outcome: Outcome)
      requires Valid()
      modifies this
      ensures Valid()
      ensures outcome == MissingFields <==> !Truthy(id) || !Truthy(name)
      ensures outcome == AlreadyExists <==> Truthy(id) && Truthy(name) && id.value in old(devices)
      ensures outcome == Ok <==> Truthy(id) && Truthy(name) && id.value !in old(devices)
      ensures outcome != Ok ==>
        devices == old(devices) && events == old(events) && emitted == old(emitted)
      ensures outcome == Ok ==>
        && devices == old(devices)[id.value := Device(name.value, "online", None, 0, 0, now)]
        && events == old(events) + [Event(|old(events)| + 1, now, Info, Adopted(id.value))]
        && emitted == old(emitted) + [EventTopic, DevicesUpdate]
      ensures clients == old(clients) && nextClientId == old(nextClientId)
      ensures vlans == old(vlans) && vlanAps == old(vlanAps) && lastSender == old(lastSender)
    {
      if !Truthy(id) || !Truthy(name) {
        return MissingFields;
      }
      if id.value in devices {
        return AlreadyExists;
      }
      devices := devices[id.value := Device(name.value, "online", None, 0, 0, now)];
      LogEvent(Info, Adopted(id.value), now);
      emitted := emitted + [DevicesUpdate];
      return Ok;
    }

    /** POST /api/devices/:id/config: an unknown id changes nothing;
        otherwise only that device's `vlan` (null when the value is falsy) and
        `lastSeen` change, and a membership row is added only for a truthy
        VLAN. Old membership rows of the device are kept. */
    method AssignVlan(id: string, vlan: Option<int>, now: int) returns (outcome: Outcome)
      requires Valid()
      modifies this
      ensures Valid()
      ensures outcome == NotFound <==> id !in old(devices)
      ensures outcome == Ok <==> id in old(devices)
      ensures outcome == NotFound ==>
        devices == old(devices) && vlanAps == old(vlanAps) && events == old(events) && emitted == old(emitted)
      ensures outcome == Ok ==>
        && devices == old(devices)[id := old(devices)[id].(vlan := NumOrNull(vlan), lastSeen := now)]
        && vlanAps == (if TruthyNum(vlan) then old(vlanAps) + [Membership(vlan.value, id)] else old(vlanAps))
        && (forall v :: Members(vlanAps, v)
              == Members(old(vlanAps), v) + (if TruthyNum(vlan) && v == vlan.value then [id] else []))
        && events == old(events) + [Event(|old(events)| + 1, now, Info, VlanAssigned(vlan, id))]
        && emitted == old(emitted) + [EventTopic, DevicesUpdate, PushConfig]
      ensures clients == old(clients) && nextClientId == old(nextClientId)
      ensures vlans == old(vlans) && lastSender == old(lastSender)
    {
      if id !in devices {
        return NotFound;
      }
      devices := devices[id := devices[id].(vlan := NumOrNull(vlan), lastSeen := now)];
      if TruthyNum(vlan) {
        vlanAps := vlanAps + [Membership(vlan.value, id)];
      }
      forall v ensures Members(vlanAps, v)
        == Members(old(vlanAps), v) + (if TruthyNum(vlan) && v == vlan.value then [id] else [])
      {
        if TruthyNum(vlan) {
          MembersAfterInsert(old(vlanAps), vlan.value, id, v);
        }
      }
      LogEvent(Info, VlanAssigned(vlan, id), now);
      emitted := emitted + [DevicesUpdate, PushConfig];
      return Ok;
    }

    /** Replaces the membership rows of `vlan` with one row per entry of `aps`,
        inserted one at a time in array order. */
    method ReplaceMembers(vlan: int, aps: seq<string>)
      modifies this`vlanAps
      ensures vlanAps == WithoutVlan(old(vlanAps), vlan) + MembershipRows(vlan, aps)
    {
      vlanAps := WithoutVlan(vlanAps, vlan);
      ghost var kept := vlanAps;
      var i := 0;
      while i < |aps|
        invariant 0 <= i <= |aps|
        invariant vlanAps == kept + MembershipRows(vlan, aps[..i])
      {
        assert MembershipRows(vlan, aps[..i + 1]) == MembershipRows(vlan, aps[..i]) + [Membership(vlan, aps[i])];
        vlanAps := vlanAps + [Membership(vlan, aps[i])];
        i := i + 1;
      }
      assert aps[..i] == aps;
    }

    /** POST /api/vlan: a missing id or ssid changes nothing; otherwise the
        VLAN's ssid is set and, only when `aps` is an array, its members become
        exactly `aps` while every other VLAN's members stay as they were. */
    method CreateVlan(id: Option<int>, ssid: Option<string>, aps: Option<seq<string>>, now: int)
      returns (outcome: Outcome)
      requires Valid()
      modifies this
      ensures Valid()
      ensures outcome == MissingFields <==> !TruthyNum(id) || !Truthy(ssid)
      ensures outcome == Ok <==> TruthyNum(id) && Truthy(ssid)
      ensures outcome == MissingFields ==>
        vlans == old(vlans) && vlanAps == old(vlanAps) && events == old(events) && emitted == old(emitted)
      ensures outcome == Ok ==>
        && vlans == PutVlan(old(vlans), id.value, ssid.value)
        && SsidOf(vlans, id.value) == Some(ssid.value)
        && (forall v :: v != id.value ==> SsidOf(vlans, v) == SsidOf(old(vlans), v))
        && (aps.None? ==> vlanAps == old(vlanAps))
        && (aps.Some? ==> vlanAps == WithoutVlan(old(vlanAps), id.value) + MembershipRows(id.value, aps.value))
        && (aps.Some? ==> forall v :: Members(vlanAps, v) == if v == id.value then aps.value else Members(old(vlanAps), v))
        && events == old(events) + [Event(|old(events)| + 1, now, Info, VlanCreated(id.value))]
        && emitted == old(emitted) + [EventTopic, VlansUpdate]
      ensures devices == old(devices) && clients == old(clients) && nextClientId == old(nextClientId)
      ensures lastSender == old(lastSender)
    {
      if !TruthyNum(id) || !Truthy(ssid) {
        return MissingFields;
      }
      vlans := PutVlan(vlans, id.value, ssid.value);
      if aps.Some? {
        ReplaceMembers(id.value, aps.value);
        forall v ensures Members(vlanAps, v) == if v == id.value then aps.value else Members(old(vlanAps), v) {
          MembersAfterReplace(old(vlanAps), id.value, aps.value, v);
        }
      }
      LogEvent(Info, VlanCreated(id.value), now);
      emitted := emitted + [VlansUpdate];
      return Ok;
    }

    /** Replaces the client rows of `ap` with one row per reported entry,
        inserted one at a time in list order under fresh AUTOINCREMENT ids. */
    method ReplaceClients(ap: string, list: seq<ClientReport>, now: int)
      requires Valid()
      modifies this`clients, this`nextClientId
      ensures Valid()
      ensures clients == WithoutAp(old(clients), ap) + ReportedRows(list, ap, now, old(nextClientId))
      ensures nextClientId == old(nextClientId) + |list|
      ensures forall x ::
        ClientsOf(clients, x) == if x == ap then ReportedRows(list, ap, now, old(nextClientId)) else ClientsOf(old(clients), x)
    {
      ReplaceKeepsIds(clients, list, ap, now, nextClientId);
      clients := WithoutAp(clients, ap);
      ghost var kept := clients;
      ghost var first := nextClientId;
      var i := 0;
      while i < |list|
        invariant 0 <= i <= |list|
        invariant nextClientId == first + i
        invariant clients == kept + ReportedRows(list[..i], ap, now, first)
      {
        var c := list[i];
        ReportedRowsExtend(list, i, ap, now, first);
        clients := clients + [ClientRow(nextClientId, OrElse(c.name, "client"), ap, OrNull(c.ip), now)];
        nextClientId := nextClientId + 1;
        i := i + 1;
      }
      assert list[..i] == list;
      forall x ensures ClientsOf(clients, x)
        == if x == ap then ReportedRows(list, ap, now, first) else ClientsOf(old(clients), x)
      {
        ClientsAfterReplace(old(clients), list, ap, now, first, x);
      }
    }

    /** The upsert of a telemetry handler: the row for `id` is replaced by, or
        created as, the reported row. */
    method UpsertDevice(id: string, t: Telemetry, now: int)
      modifies this`devices
      ensures devices == old(devices)[id := Upserted(if id in old(devices) then Some(old(devices)[id]) else None, id, t, now)]
    {
      if id in devices {
        devices := devices[id := Upserted(Some(devices[id]), id, t, now)];
      } else {
        devices := devices[id := Upserted(None, id, t, now)];
      }
    }

    /** The UDP `message` handler. A datagram that did not parse, or whose
        payload has no truthy `id`, only appends one `warn` event. Otherwise
        the device is upserted with the reported fields or their defaults (the
        reported status is kept, not forced online) and `lastSeen` now; a
        `clients_list` array replaces that device's client rows and no other
        device's; the sender is recorded; a `debug` event is appended. */
    method Ingest(packet: Option<Telemetry>, from: Endpoint, now: int)
      requires Valid()
      modifies this`devices, this`clients, this`nextClientId, this`lastSender, this`events, this`emitted
      ensures Valid()
      ensures vlans == old(vlans) && vlanAps == old(vlanAps)
      ensures packet.None? ==>
        && devices == old(devices) && clients == old(clients) && nextClientId == old(nextClientId)
        && lastSender == old(lastSender)
        && events == old(events) + [Event(|old(events)| + 1, now, Warn, ParseError(from))]
        && emitted == old(emitted) + [EventTopic]
      ensures packet.Some? && !Truthy(packet.value.id) ==>
        && devices == old(devices) && clients == old(clients) && nextClientId == old(nextClientId)
        && lastSender == old(lastSender)
        && events == old(events) + [Event(|old(events)| + 1, now, Warn, MissingId)]
        && emitted == old(emitted) + [EventTopic]
      ensures packet.Some? && Truthy(packet.value.id) ==>
        var t, id := packet.value, packet.value.id.value;
        && devices == old(devices)[id := Upserted(if id in old(devices) then Some(old(devices)[id]) else None, id, t, now)]
        && devices[id].name == OrElse(t.name, id)
        && devices[id].status == OrElse(t.status, "online")
        && devices[id].clients == OrZero(t.clients)
        && devices[id].traffic == OrZero(t.traffic)
        && devices[id].lastSeen == now
        && devices[id].vlan == (if id in old(devices) then old(devices)[id].vlan else None)
        && lastSender == old(lastSender)[id := Sender(from.address, from.port, now)]
        && events == old(events) + [Event(|old(events)| + 1, now, Debug, TelemetryFrom(id, from))]
        && emitted == old(emitted) + [EventTopic, TelemetryTopic]
      ensures packet.Some? && Truthy(packet.value.id) && packet.value.clientsList.None? ==>
        clients == old(clients) && nextClientId == old(nextClientId)
      ensures packet.Some? && Truthy(packet.value.id) && packet.value.clientsList.Some? ==>
        var list, id := packet.value.clientsList.value, packet.value.id.value;
        && clients == WithoutAp(old(clients), id) + ReportedRows(list, id, now, old(nextClientId))
        && nextClientId == old(nextClientId) + |list|
        && forall x :: ClientsOf(clients, x)
             == if x == id then ReportedRows(list, id, now, old(nextClientId)) else ClientsOf(old(clients), x)
    {
      if packet.None? {
        LogEvent(Warn, ParseError(from), now);
        return;
      }
      var t := packet.value;
      if !Truthy(t.id) {
        LogEvent(Warn, MissingId, now);
        return;
      }
      var id := t.id.value;
      UpsertDevice(id, t, now);
      if t.clientsList.Some? {
        ReplaceClients(id, t.clientsList.value, now);
      }
      lastSender := lastSender[id := Sender(from.address, from.port, now)];
      LogEvent(Debug, TelemetryFrom(id, from), now);
      emitted := emitted + [TelemetryTopic];
    }

    /** One tick of the offline sweep: every device last seen before
        `now - 30000` gets status "offline" (also one already offline), with
        one `devices:update` broadcast each; no other field and no other
        device changes. */
    method Sweep(now: int)
      requires Valid()
      modifies this`devices, this`emitted
      ensures Valid()
      ensures devices.Keys == old(devices).Keys
      ensures forall id :: id in devices ==>
        devices[id] == if Stale(old(devices)[id], now) then old(devices)[id].(status := "offline") else old(devices)[id]
      ensures emitted == old(emitted) + Repeat(DevicesUpdate, |StaleIds(old(devices), now)|)
    {
      var threshold := now - OfflineAfter;
      var pending := devices.Keys;
      ghost var before := devices;
      ghost var marked: set<string> := {};
      while pending != {}
        invariant pending <= before.Keys
        invariant devices.Keys == before.Keys
        invariant forall id :: id in devices ==>
          devices[id] == if id !in pending && Stale(before[id], now)
                         then before[id].(status := "offline") else before[id]
        invariant forall k :: k in marked <==> k in before && k !in pending && Stale(before[k], now)
        invariant emitted == old(emitted) + Repeat(DevicesUpdate, |marked|)
        decreases pending
      {
        var id :| id in pending;
        assert devices[id] == before[id];
        if devices[id].lastSeen < threshold {
          devices := devices[id := devices[id].(status := "offline")];
          assert Repeat(DevicesUpdate, |marked| + 1) == Repeat(DevicesUpdate, |marked|) + [DevicesUpdate];
          emitted := emitted + [DevicesUpdate];
          assert id !in marked;
          marked := marked + {id};
        }
        pending := pending - {id};
      }
      assert marked == StaleIds(before, now);
    }

    /** GET /api/vlans: every VLAN in id order with the ap ids of its
        membership rows. */
    function VlanList(): (r: seq<VlanView>)
      reads this
      requires Valid()
      ensures |r| == |vlans|
      ensures forall i, j :: 0 <= i < j < |r| ==> r[i].id < r[j].id
      ensures forall i :: 0 <= i < |r| ==> SsidOf(vlans, r[i].id) == Some(r[i].ssid)
      ensures forall i, a :: 0 <= i < |r| ==> (a in r[i].aps <==> Membership(r[i].id, a) in vlanAps)
      ensures forall i :: 0 <= i < |r| ==> r[i].aps == Members(vlanAps, r[i].id)
    {
      VlanListing(vlans, vlanAps)
    }

    /** GET /api/logs: at most 200 events, newest first, and no event left
        out is newer than one returned. */
    function Logs(): (r: seq<Event>)
      reads this
      ensures |r| == if |events| < LogPage then |events| else LogPage
      ensures Descending(r, EventTime)
      ensures multiset(r) <= multiset(events)
      ensures forall x, y :: x in multiset(events) - multiset(r) && y in r ==> x.ts <= y.ts
    {
      Newest(events, EventTime, LogPage)
    }

    /** GET /api/clients: every client row, most recently seen first. */
    function ClientList(): (r: seq<ClientRow>)
      reads this
      ensures multiset(r) == multiset(clients)
      ensures Descending(r, ClientSeen)
    {
      SortDescending(clients, ClientSeen)
    }
  }
}
