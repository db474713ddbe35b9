# AP fleet controller registry, modelled in Dafny

`server.js` runs a small controller for wireless access points (APs). It keeps five SQLite tables:
- `devices`: the APs, with name, status, VLAN, client count, traffic and last-seen time.
- `clients`: the clients associated to each AP.
- `vlans`: VLAN id to SSID.
- `vlans_aps`: VLAN membership, as (vlan, ap) rows.
- `events`: an append-only log.

Beside the tables it keeps an in-memory `lastSender` map from device id to the address, port and time of its last datagram. The following change this state:
- UDP telemetry datagrams.
- Three HTTP commands: adopt a device, assign a VLAN to a device, and create or replace a VLAN.
- A periodic sweep that marks silent devices offline.

Node runs each handler to completion before the next one starts. So each handler is one atomic step of a sequential state machine, and that machine is what this project models.

- `payload.dfy` (module `Payload`) holds the values that come in from outside: the parsed telemetry record, the command fields and the datagram's sender. It also holds JavaScript truthiness and the `||` defaulting the handlers apply to them.
- `tables.dfy` (module `Tables`) holds the row types and the row-level operations the handlers run:
  - selecting, deleting and bulk-inserting the clients of one AP;
  - the same for the members of one VLAN;
  - `INSERT OR REPLACE` into `vlans`;
  - the VLAN listing.
  Each comes with its lemmas.
- `ordering.dfy` (module `Ordering`) models `ORDER BY … DESC [LIMIT n]`.
- `server.dfy` (module `Server`) holds the class `Controller`. Its fields are the tables and `lastSender`, it has one method per handler, and the read endpoints are functions over its state.

Tables are sequences in rowid order, which is the order SQLite returns rows in when a query has no `ORDER BY`. `vlans` has an INTEGER primary key, so it is kept in ascending id order. `vlans_aps` has no key, so it may hold the same pair twice. `devices` is a map from its text key. The AUTOINCREMENT keys of `clients` and `events` are modelled as explicit ids. The object invariant `Valid()` keeps client ids unique, increasing and below the next id. It also keeps `vlans` in id order and makes event ids count 1, 2, 3, …

Behaviour a reader might not expect; the model follows the code:
- Telemetry stores the reported `status` (defaulting to "online"). It does not force the device online.
- The sweep marks a stale device offline even when it already is offline. It does not check the device again before writing, so nothing like compare-and-swap guards it.
- `createVlan` without an `aps` array leaves the membership rows alone. It does not empty them.
- Assigning a VLAN never removes the device's old membership rows. Each truthy assignment adds a row, duplicates included. The device's `vlan` field and the membership table can therefore disagree.
- A duplicate adoption is answered with status 400, the same as missing fields. The model tells the two apart as `AlreadyExists` and `MissingFields`, and `StatusCode` maps both to 400.

## Model

| member | source | states |
|---|---|---|
| Server.Controller.constructor | server.js:26-40 | A fresh controller has empty tables, an empty sender map and an AUTOINCREMENT counter at 1, and satisfies the invariant. |
| Server.Controller.LogEvent | server.js:44-47 | The event log only grows: exactly one event, stamped `now` with the next id, is appended, and one `event` broadcast is recorded. Nothing else changes. |
| Server.Controller.Start | server.js:185-188 | Starting appends exactly one info "Controller started" event. |
| Server.Controller.Adopt | server.js:64-74 | A missing or empty id or name gives MissingFields, and an id already present gives AlreadyExists; both change no state. Otherwise exactly one device is added: online, 0 clients, 0 traffic, no VLAN, lastSeen = now. One info event is logged. Clients, VLANs, membership and lastSender stay unchanged. |
| Server.Controller.AssignVlan | server.js:77-92 | An unknown id gives NotFound and changes no state. Otherwise only that device's `vlan` (null when falsy) and `lastSeen` change. A membership row (vlan, id) is appended only for a truthy VLAN, so that VLAN's members gain `id` at the end and every other VLAN's members stay as they were. Old rows are kept. |
| Server.Controller.ReplaceMembers | server.js:99-105 | The insertion loop leaves the membership table as the rows of other VLANs, in order, followed by one row per `aps` entry, in array order. |
| Server.Controller.CreateVlan | server.js:95-109 | A missing id or ssid gives MissingFields and changes no state. Otherwise the VLAN's ssid is set and every other VLAN's ssid is unchanged. With an `aps` array, that VLAN's members become exactly `aps` and every other VLAN's members are unchanged. Without one, membership is untouched. Devices, clients and lastSender stay unchanged. |
| Server.Controller.ReplaceClients | server.js:147-154 | After the delete and the insertion loop, the AP's client rows are exactly the reported entries in order. Each has name defaulting to "client", ip defaulting to null, lastSeen = now and fresh increasing ids. Every other AP's rows are unchanged and the id invariant holds. |
| Server.Controller.UpsertDevice | server.js:138-145 | The row for `id` becomes the reported row; all other devices are unchanged. |
| Server.Controller.Ingest | server.js:128-160 | A parse failure, or a payload without a truthy `id`, appends one warn event and leaves devices, clients, VLANs and lastSender unchanged. Otherwise the device gets name = name or id, status = status or "online", clients/traffic = reported value or 0, and lastSeen = now. An existing device's VLAN is kept; a new device has none; no other device changes. A `clients_list` array replaces that AP's clients and no other AP's. lastSender[id] is overwritten and one debug event is appended. |
| Server.Controller.Sweep | server.js:173-182 | Keeps the same set of devices. Sets status "offline" for exactly the devices with lastSeen < now − 30000, including those already offline. Changes no other field or device. Records one `devices:update` broadcast per such device. |
| Server.Controller.VlanList | server.js:113-120 | One entry per VLAN row, in strictly ascending id order. Each carries its own ssid, and its ap ids are the VLAN's membership rows' ap ids in row order, duplicates included (`Members`); an ap id is listed exactly when a (vlan, ap) membership row exists. |
| Server.Controller.Logs | server.js:121 | Returns min(200, number of events) events, by non-increasing timestamp, all taken from the log. No event left out is newer than one returned. |
| Server.Controller.ClientList | server.js:112 | Returns every client row exactly once (same multiset), by non-increasing lastSeen. |
| Server.UpsertIdempotent | server.js:138-145 | Ingesting the same telemetry twice yields the same device row as ingesting it once, except that lastSeen advances to the second arrival. |
| Server.ReportedStatusKept | server.js:141 | A reported status is stored as reported; telemetry does not force "online". |
| Ordering.Insert | server.js:121 | Inserting one element keeps all old elements and adds that one (multiset). |
| Ordering.InsertKeepsDescending | server.js:121 | Inserting into a sequence sorted by descending key keeps it sorted. |
| Ordering.SortDescending | server.js:112 | `ORDER BY key DESC` returns a permutation of the rows sorted by non-increasing key. |
| Ordering.Newest | server.js:121 | `ORDER BY key DESC LIMIT n` returns min(n, size) rows, sorted, drawn from the input. No row left out has a larger key than a row returned. |
| Ordering.PrefixKeepsLargest | server.js:121 | Cutting a descending sequence leaves behind only keys no larger than those kept. |
| Tables.ClientsOf | server.js:147-154 | A client row is selected for an AP exactly when it is in the table and belongs to that AP. |
| Tables.WithoutAp | server.js:148 | The delete keeps exactly the rows of other APs. |
| Tables.ClientsOfAppend | server.js:149-153 | Selecting an AP's clients distributes over appending rows. |
| Tables.ClientsOfWithoutAp | server.js:148 | After the delete the AP has no clients, and every other AP's clients are unchanged and in the same order. |
| Tables.ClientsOfUniform | server.js:151 | Rows inserted for one AP are all its clients and none of any other AP's. |
| Tables.ClientsAfterReplace | server.js:147-154 | After delete-then-insert, the AP's clients are exactly the reported rows and every other AP's are unchanged. |
| Tables.WithoutApIncreasing | server.js:148 | The delete keeps client ids in increasing order. |
| Tables.ReplaceKeepsIds | server.js:147-153 | Delete-then-insert keeps client ids unique and increasing, and below the advanced AUTOINCREMENT counter. |
| Tables.Members | server.js:116 | An ap id is listed for a VLAN exactly when a (vlan, ap) membership row exists. |
| Tables.WithoutVlan | server.js:101 | The delete keeps exactly the membership rows of other VLANs. |
| Tables.MembersAppend | server.js:102-103 | A VLAN's member list distributes over appending rows. |
| Tables.MembersWithoutVlan | server.js:101 | After the delete the VLAN has no members and every other VLAN's members are unchanged. |
| Tables.MembersOfRows | server.js:102-104 | The rows inserted for `aps` give that VLAN exactly `aps`, in order, and no other VLAN any member. |
| Tables.MembersAfterReplace | server.js:99-105 | Replacing a VLAN's membership makes its members exactly `aps` and leaves every other VLAN's members as they were. |
| Tables.MembersAfterInsert | server.js:84-86 | Appending one (vlan, ap) row adds `ap` at the end of that VLAN's members only. |
| Tables.PutVlan | server.js:98 | `INSERT OR REPLACE` keeps ids ascending, maps the id to the new ssid and leaves every other id's ssid unchanged. |
| Tables.SsidOfBelowFirst | server.js:34-36 | In an id-ordered table, every id that can be found is above any bound lying below all rows. |
| Tables.SsidOfRow | server.js:34-36 | In an id-ordered table, each row is the one found under its own id, so ids are unique. |
| Tables.VlanListing | server.js:113-120 | The listing has one entry per VLAN row, in strictly ascending id order. Each has its own ssid, and its ap ids are the ap ids of the VLAN's membership rows in row order, duplicates included. |

## Left out

- Express routing, body parsing, CORS and static files (server.js:11-20): HTTP plumbing. Command results are the `Outcome` datatype, and `StatusCode` gives the HTTP status of each.
- GET /api/devices and GET /api/devices/:id (server.js:51-61): plain reads of the `devices` map. Because devices are a map, the row order of `SELECT * FROM devices` is not modelled.
- The SQLite engine and SQL text (server.js:22-40). Tables are maps and sequences. `db.transaction` needs nothing, because every handler is atomic in this sequential model. The database is modelled from empty; persistence across restarts is not modelled. Integer columns are unbounded; SQLite's 64-bit limit is not modelled.
- socket.io (server.js:46, 72, 88-90, 107, 159, 167-170). Only the topic of each broadcast is recorded, in the ghost sequence `emitted`. The payloads and the per-connection `ready` message are not modelled.
- UDP socket creation, binding and `JSON.parse` (server.js:124, 131, 162-164). The handler takes the parsed payload, with `None` for a parse failure. Payloads are typed records: a JSON value that is not an object, and fields of other JSON types, are not modelled. Examples are a numeric `id`, a string `clients`, or a non-object `clients_list` entry.
- Command request bodies (server.js:65, 79, 96) are typed like telemetry: `id`, `name` and `ssid` are optional strings, and `vlan` and the VLAN `id` are optional integers. Values of other JSON types are not modelled. For example, `vlan: "0"` is truthy in JavaScript, so server.js:82-86 stores it (the column turns it into 0) and adds a membership row; in the model 0 means no VLAN. Likewise a non-integer VLAN id makes `INSERT OR REPLACE INTO vlans` (server.js:98) fail with a datatype mismatch, answered with status 500 and no state change; `Outcome` has no such case.
- Log message text. Each message is a constructor of `Tables.Message` carrying the values the text interpolates, not a formatted string.
- `Date.now` and `setInterval` (server.js:43, 173-182). Each handler takes one `now` parameter, whereas the source reads the clock several times within one handler. One sweep tick is one `Sweep` call; the 5-second period is left to the caller.
- Concurrency between the sweep, telemetry and commands. Node runs each handler to completion, so there is nothing concurrent to model.
- `server.listen` and console output (server.js:185-188). Only the "Controller started" event is modelled, as `Start`.
