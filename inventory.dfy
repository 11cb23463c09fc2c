/** The client side of the inventory/status HTTP service: the JSON values the
    source sends and reads, and the requests it issues. */
module Inventory {
  import opened Wrappers

  /** A decoded JSON value. */
  datatype Json =
    | JNull
    | JBool(b: bool)
    | JNum(n: int)
    | JStr(s: string)
    | JArr(elems: seq<Json>)
    | JObj(fields: map<string, Json>)

  /** Python truthiness of a decoded JSON value (`if state:`). */
  predicate Truthy(v: Json) {
    match v
    case JNull => false
    case JBool(b) => b
    case JNum(n) => n != 0
    case JStr(s) => s != ""
    case JArr(e) => e != []
    case JObj(f) => f != map[]
  }

  /** A Python `str` or `None` as it is serialised. */
  function OrNull(o: Option<string>): Json {
    match o
    case Some(s) => JStr(s)
    case None => JNull
  }

  /** The inverse of OrNull on the values it produces. */
  function StringOrNone(v: Json): Option<Option<string>> {
    match v
    case JStr(s) => Some(Some(s))
    case JNull => Some(None)
    case _ => None
  }

  datatype Request =
    | Get(url: string)
    | Put(url: string, body: Json)
    | Post(url: string, body: Json)

  const StatusKeys: set<string> := {"os_name", "ip_addr", "state", "message"}

  const FactsKeys: set<string> := {"ip_addr", "serial_number", "hw_model", "os_version", "os_name"}

  /** What the service reads from a status update. */
  datatype StatusFields = StatusFields(osName: string, ipAddr: string, state: Option<string>, message: Option<string>)

  /** The service's reading of a status body: exactly the four keys, the first two strings,
      state and message strings or null. */
  function DecodeStatus(body: Json): Option<StatusFields> {
    if body.JObj? && body.fields.Keys == StatusKeys
       && body.fields["os_name"].JStr? && body.fields["ip_addr"].JStr?
       && StringOrNone(body.fields["state"]).Some? && StringOrNone(body.fields["message"]).Some?
    then Some(StatusFields(body.fields["os_name"].s, body.fields["ip_addr"].s,
                           StringOrNone(body.fields["state"]).value, StringOrNone(body.fields["message"]).value))
    else None
  }

  /** `post_device_status`: a PUT to the status endpoint whose body carries exactly
      os_name, ip_addr, state and message, from which the service reads back what was sent. */
  function StatusUpdate(server: string, osName: string, ipAddr: string, state: Option<string>, message: Option<string>): (r: Request)
    ensures r.Put? && r.url == "http://" + server + "/api/devices/status"
    ensures r.body.JObj? && r.body.fields.Keys == StatusKeys
    ensures DecodeStatus(r.body) == Some(StatusFields(osName, ipAddr, state, message))
  {
    Put("http://" + server + "/api/devices/status",
        JObj(map["os_name" := JStr(osName), "ip_addr" := JStr(ipAddr),
                 "state" := OrNull(state), "message" := OrNull(message)]))
  }

  /** `post_device_facts`: a PUT to the facts endpoint with exactly the five fact keys. */
  function FactsUpdate(server: string, ipAddr: string, serialNumber: string, hwModel: string, osVersion: string, osName: string): (r: Request)
    ensures r.Put? && r.url == "http://" + server + "/api/devices/facts"
    ensures r.body.JObj? && r.body.fields.Keys == FactsKeys
    ensures r.body.fields["ip_addr"] == JStr(ipAddr) && r.body.fields["os_name"] == JStr(osName)
    ensures r.body.fields["serial_number"] == JStr(serialNumber) && r.body.fields["hw_model"] == JStr(hwModel)
            && r.body.fields["os_version"] == JStr(osVersion)
  {
    Put("http://" + server + "/api/devices/facts",
        JObj(map["ip_addr" := JStr(ipAddr), "serial_number" := JStr(serialNumber), "hw_model" := JStr(hwModel),
                 "os_version" := JStr(osVersion), "os_name" := JStr(osName)]))
  }
}
