/** The Dragon Ball API client (internal/adapters/secondary/dragonballapi/client.go)
    once HTTP is taken away: what remains is the classification of the reply's
    status, the first-exact-match search over the decoded `items` and the field
    copy into a domain record. The reply itself is an input. */
module DragonBallApi {
  import opened Wrappers
  import opened Domain
  import Format

  /** A character as the upstream JSON encodes it. `id` is the literal text of
      the JSON number (Go's `json.Number`), kept verbatim. */
  datatype ApiCharacter = ApiCharacter(id: string, name: string, ki: string, race: string)

  /** What one GET produced: the request failed, or a status with the raw
      body and the outcome of decoding that body into a `T`. */
  datatype Response<T> =
    | TransportError(cause: string)
    | Reply(status: int, body: string, decoded: Result<T, string>)

  const StatusOK := 200
  const StatusNotFound := 404

  /** The client's three errors, and `Foreign`: the error of any other
      implementation of the catalog port, known only by its message. */
  datatype CatalogError =
    | RequestFailed(cause: string)
    | BadStatus(status: int, body: string)
    | DecodeFailed(cause: string)
    | Foreign(text: string)
  {
    function Message(): string
    {
      match this
      case RequestFailed(cause) => "failed to make API request: " + cause
      case BadStatus(status, body) => StatusPrefix + Format.Decimal(status) + ": " + body
      case DecodeFailed(cause) => "failed to decode API response: " + cause
      case Foreign(text) => text
    }
  }

  const StatusPrefix := "the Dragon Ball API returned status "

  /** The status code carried by a bad-status message, read back from its text. */
  function StatusOf(message: string): Option<int>
  {
    if StatusPrefix <= message then Format.ParseInt(message[|StatusPrefix|..]) else None
  }

  /** A bad-status error names the status code: it can be read back from the
      message whatever the body says. */
  lemma BadStatusMessageNamesStatus(status: int, body: string)
    ensures StatusOf(BadStatus(status, body).Message()) == Some(status)
  {
    var m := BadStatus(status, body).Message();
    assert m == StatusPrefix + (Format.Decimal(status) + (": " + body));
    assert m[|StatusPrefix|..] == Format.Decimal(status) + (": " + body);
    Format.DecimalRoundTrip(status, ": " + body);
  }

  /** The domain record built from an upstream item: every field copied, the
      id as the number's own text, the timestamps left at Go's zero value. */
  function ToDomain(a: ApiCharacter): (c: Character)
    ensures c.id == a.id && c.name == a.name && c.ki == a.ki && c.race == a.race
    ensures c.createdAt == ZeroTime && c.updatedAt == ZeroTime
  {
    Character(a.id, a.name, a.ki, a.race, ZeroTime, ZeroTime)
  }

  /** Index of the first item whose name equals `name` exactly (case-sensitive). */
  function FirstMatch(items: seq<ApiCharacter>, name: string): (r: Option<nat>)
    ensures r.Some? ==> r.value < |items| && items[r.value].name == name
    ensures r.Some? ==> forall j :: 0 <= j < r.value ==> items[j].name != name
    ensures r.None? ==> forall j :: 0 <= j < |items| ==> items[j].name != name
  {
    if items == [] then None
    else if items[0].name == name then Some(0)
    else
      match FirstMatch(items[1..], name)
      case None => None
      case Some(k) => Some(k + 1)
  }

  /** `c` is the domain copy of the first item named exactly `name`. */
  ghost predicate IsFirstMatch(items: seq<ApiCharacter>, name: string, c: Character)
  {
    exists i :: 0 <= i < |items| && items[i].name == name && c == ToDomain(items[i])
      && forall j :: 0 <= j < i ==> items[j].name != name
  }

  /** FindCharacterByName: the whole collection is fetched and searched on the
      client side. */
  function FindCharacterByName(resp: Response<seq<ApiCharacter>>, name: string)
    : (r: Result<Option<Character>, CatalogError>)
    ensures resp.TransportError? ==> r == Failure(RequestFailed(resp.cause))
    ensures resp.Reply? && resp.status != StatusOK ==> r == Failure(BadStatus(resp.status, resp.body))
    ensures resp.Reply? && resp.status == StatusOK && resp.decoded.Failure? ==>
      r == Failure(DecodeFailed(resp.decoded.error))
    ensures r.Success? <==> resp.Reply? && resp.status == StatusOK && resp.decoded.Success?
    ensures r.Success? && r.value.None? <==>
      resp.Reply? && resp.status == StatusOK && resp.decoded.Success?
      && forall j :: 0 <= j < |resp.decoded.value| ==> resp.decoded.value[j].name != name
    ensures r.Success? && r.value.Some? ==>
      r.value.value.name == name && IsFirstMatch(resp.decoded.value, name, r.value.value)
  {
    match resp
    case TransportError(cause) => Failure(RequestFailed(cause))
    case Reply(status, body, decoded) =>
      if status != StatusOK then Failure(BadStatus(status, body))
      else
        match decoded
        case Failure(cause) => Failure(DecodeFailed(cause))
        case Success(items) =>
          match FirstMatch(items, name)
          case None => Success(None)
          case Some(i) => Success(Some(ToDomain(items[i])))
  }

  /** FindCharacterByID: 404 means absent, any other status but 200 is an
      error, and a decoded 200 body is copied field for field. */
  function FindCharacterByID(resp: Response<ApiCharacter>): (r: Result<Option<Character>, CatalogError>)
    ensures resp.TransportError? ==> r == Failure(RequestFailed(resp.cause))
    ensures resp.Reply? && resp.status == StatusNotFound ==> r == Success(None)
    ensures resp.Reply? && resp.status != StatusNotFound && resp.status != StatusOK ==>
      r == Failure(BadStatus(resp.status, resp.body))
    ensures resp.Reply? && resp.status == StatusOK && resp.decoded.Failure? ==>
      r == Failure(DecodeFailed(resp.decoded.error))
    ensures resp.Reply? && resp.status == StatusOK && resp.decoded.Success? ==>
      r.Success? && r.value.Some? && r.value.value == ToDomain(resp.decoded.value)
    ensures r.Success? && r.value.None? <==> resp.Reply? && resp.status == StatusNotFound
  {
    match resp
    case TransportError(cause) => Failure(RequestFailed(cause))
    case Reply(status, body, decoded) =>
      if status == StatusNotFound then Success(None)
      else if status != StatusOK then Failure(BadStatus(status, body))
      else
        match decoded
        case Failure(cause) => Failure(DecodeFailed(cause))
        case Success(a) => Success(Some(ToDomain(a)))
  }

  /** Items in front that do not carry the name do not change which item is
      found: its index only shifts by their number. */
  lemma {:induction false} FirstMatchSkipsOthers(prefix: seq<ApiCharacter>, rest: seq<ApiCharacter>, name: string)
    requires forall j :: 0 <= j < |prefix| ==> prefix[j].name != name
    ensures FirstMatch(prefix + rest, name) ==
      match FirstMatch(rest, name)
      case None => None
      case Some(k) => Some(k + |prefix|)
  {
    if prefix == [] {
      assert prefix + rest == rest;
    } else {
      assert (prefix + rest)[0] == prefix[0];
      assert (prefix + rest)[1..] == prefix[1..] + rest;
      FirstMatchSkipsOthers(prefix[1..], rest, name);
    }
  }
}
