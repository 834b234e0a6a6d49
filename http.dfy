/**
 * The boundary with the Statuspage REST API. The HTTP call itself is not
 * modelled: each operation builds a `Request`, and what came back is handed
 * in as an `Outcome`.
 */
module Http {
  import opened Outcomes

  /** The JSON values the payloads are made of; an object keeps its members in order. */
  datatype Json = JString(str: string) | JObject(members: seq<(string, Json)>)

  datatype Verb = Get | Post | Patch

  datatype Request = Request(verb: Verb, url: string, body: Option<Json>)

  /**
   * How a `requests` call ended: a response with a status below 400 whose
   * body decoded to `payload`; a response with an error status whose body
   * decoded as JSON, so that `raise_for_status` was reached (`text` is its
   * raw body, `detail` is `str()` of the `HTTPError`); or any other
   * `RequestException`, `detail` being `str()` of it. An error response
   * whose body is not JSON fails in `r.json()` first and is a `Failed`.
   */
  datatype Outcome<+T> = Ok(payload: T) | HttpError(text: string, detail: string) | Failed(detail: string)

  /** One component of an incident, as the API reports it. */
  datatype ComponentInfo = ComponentInfo(name: string, status: string)

  /** The fields of an incident the bot reads; `components` is `None` when the key is absent. */
  datatype IncidentInfo = IncidentInfo(
    id: string, name: string, status: string,
    createdAt: string, updatedAt: string,
    components: Option<seq<ComponentInfo>>)

  const BaseUrl := "https://api.statuspage.io/v1/pages/"

  /** `f"{URL}{PAGE_ID}/incidents"`. */
  function IncidentsUrl(pageId: string): string {
    BaseUrl + pageId + "/incidents"
  }

  function Keys(members: seq<(string, Json)>): seq<string> {
    if members == [] then [] else [members[0].0] + Keys(members[1..])
  }

  /** The value of the first member named `key`. */
  function Member(members: seq<(string, Json)>, key: string): Option<Json> {
    if members == [] then None
    else if members[0].0 == key then Some(members[0].1)
    else Member(members[1..], key)
  }

  /** The value of the first member named `key`, if `j` is an object that has one. */
  function Lookup(j: Json, key: string): Option<Json> {
    match j
    case JString(_) => None
    case JObject(members) => Member(members, key)
  }

  /** `{"incident": {"name": name, "status": status, "body": body}}`, the body of both `create_incident`s. */
  function CreatePayload(name: string, status: string, body: string): (j: Json)
    ensures j.JObject? && Keys(j.members) == ["incident"]
    ensures var inner := Lookup(j, "incident");
      && inner.Some? && inner.value.JObject?
      && Keys(inner.value.members) == ["name", "status", "body"]
      && Lookup(inner.value, "name") == Some(JString(name))
      && Lookup(inner.value, "status") == Some(JString(status))
      && Lookup(inner.value, "body") == Some(JString(body))
  {
    var fields := [("name", JString(name)), ("status", JString(status)), ("body", JString(body))];
    assert fields[1..] == [("status", JString(status)), ("body", JString(body))];
    assert fields[1..][1..] == [("body", JString(body))];
    assert fields[1..][1..][1..] == [];
    assert Keys(fields[1..][1..]) == ["body"];
    assert Keys(fields[1..]) == ["status", "body"];
    assert Member(fields[1..][1..], "body") == Some(JString(body));
    assert Member(fields[1..], "body") == Some(JString(body));
    assert Member(fields[1..], "status") == Some(JString(status));
    assert "name" != "status" && "name" != "body";
    var j := JObject([("incident", JObject(fields))]);
    assert j.members[1..] == [];
    j
  }

  /** `{"incident": {"status": status, "body": body}}`, the body of `update_incident`. */
  function UpdatePayload(status: string, body: string): (j: Json)
    ensures j.JObject? && Keys(j.members) == ["incident"]
    ensures var inner := Lookup(j, "incident");
      && inner.Some? && inner.value.JObject?
      && Keys(inner.value.members) == ["status", "body"]
      && Lookup(inner.value, "status") == Some(JString(status))
      && Lookup(inner.value, "body") == Some(JString(body))
  {
    var fields := [("status", JString(status)), ("body", JString(body))];
    assert fields[1..] == [("body", JString(body))];
    assert fields[1..][1..] == [];
    assert Member(fields[1..], "body") == Some(JString(body));
    assert "status" != "body";
    var j := JObject([("incident", JObject(fields))]);
    assert j.members[1..] == [];
    j
  }

  /** The POST both `create_incident`s send. */
  function CreateIncidentRequest(pageId: string, name: string, status: string, body: string): (r: Request)
    ensures r.verb == Post && r.url == IncidentsUrl(pageId)
    ensures r.body == Some(CreatePayload(name, status, body))
  {
    Request(Post, IncidentsUrl(pageId), Some(CreatePayload(name, status, body)))
  }
}
