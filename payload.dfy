/** The values that reach the controller from outside: a parsed telemetry
    datagram, the request bodies of the commands, the sender of a datagram,
    and the JavaScript `||` defaulting the handlers apply to them.

    A JSON field that is absent, `null` or `undefined` is `None`. Only the
    field types the device agents send are modelled (strings and integers). */
module Payload {

  datatype Option<+T> = None | Some(value: T)

  /** Source address and port of a datagram. */
  datatype Endpoint = Endpoint(address: string, port: int)

  /** One entry of a `clients_list`. */
  datatype ClientReport = ClientReport(name: Option<string>, ip: Option<string>)

  /** A telemetry object after JSON parsing; `clientsList` is `None` unless
      the field is an array. */
  datatype Telemetry = Telemetry(
    id: Option<string>,
    name: Option<string>,
    status: Option<string>,
    clients: Option<int>,
    traffic: Option<int>,
    clientsList: Option<seq<ClientReport>>)

  /** JavaScript truthiness of an optional string: present and non-empty. */
  predicate Truthy(o: Option<string>) {
    o.Some? && o.value != ""
  }

  /** JavaScript truthiness of an optional number: present and non-zero. */
  predicate TruthyNum(o: Option<int>) {
    o.Some? && o.value != 0
  }

  /** `o || fallback` on strings. */
  function OrElse(o: Option<string>, fallback: string): string {
    if Truthy(o) then o.value else fallback
  }

  /** `o || 0` on numbers. */
  function OrZero(o: Option<int>): int {
    if TruthyNum(o) then o.value else 0
  }

  /** `o || null` on strings. */
  function OrNull(o: Option<string>): Option<string> {
    if Truthy(o) then o else None
  }

  /** `o || null` on numbers. */
  function NumOrNull(o: Option<int>): Option<int> {
    if TruthyNum(o) then o else None
  }
}
