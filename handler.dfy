/**
 * The client of the extension's server API (src/handler.ts): `requestAPI`
 * sends one request below the `jupyterlab-genv` namespace and decodes the
 * reply, and the `Handler` wrappers name the four endpoints.
 *
 * The HTTP transport (`ServerConnection.makeRequest`) and `JSON.parse` are
 * foreign calls; they are parameters here: `send` answers a request with a
 * response or a transport failure, `parse` gives the JSON value of a text or
 * nothing when the text is not JSON.
 */
module Handler {
  import opened Wrappers
  import opened JsonValue
  import OrderedMap

  /** An environment as the server lists it. */
  datatype Env = Env(eid: string, name: string, user: string)

  /** A GPU as the server lists it; its position in the list is its index. */
  datatype Device = Device(eid: string)

  /** The request options: absent fields are the fetch defaults (a GET without a body). */
  datatype RequestInit = RequestInit(verb: Option<string>, body: Option<Json>)

  /** `URLExt.join` of the given parts. */
  datatype Url = Joined(parts: seq<string>)

  datatype Request = Request(url: Url, init: RequestInit)

  /** A response: its status and the outcome of `response.text()`, which may reject with a reason. */
  datatype Response = Response(ok: bool, text: Result<string, string>)

  datatype Transport = Delivered(response: Response) | Failed(reason: string)

  datatype ApiError =
    | NetworkError(reason: string)
    /** `ServerConnection.ResponseError` with the message it is given. */
    | ResponseError(message: Json)
    /** Reading `message` of a `null` body throws before any `ResponseError` is built. */
    | TypeError
    /** The rejection of `response.text()`, passed on as it is. */
    | ReadFailed(reason: string)

  /** What `requestAPI` does that a caller or a log can observe, in order. */
  datatype Effect = Sent(request: Request) | BodyRead | ParseTried(text: string) | LoggedNotJson

  const Namespace := "jupyterlab-genv"

  const DefaultInit := RequestInit(None, None)

  /** The value of `data.message` when `data` is an object whose `message` member is truthy. */
  function TruthyMessage(data: Json): (m: Option<Json>)
    ensures m.Some? <==> data.JObject? && OrderedMap.Get(data.fields, "message").Some? &&
                         Truthy(OrderedMap.Get(data.fields, "message").value)
    ensures m.Some? ==> m == OrderedMap.Get(data.fields, "message")
  {
    if data.JObject? then
      match OrderedMap.Get(data.fields, "message")
      case Some(m) => if Truthy(m) then Some(m) else None
      case None => None
    else None
  }

  /**
   * The error a non-ok response raises: `ResponseError(data.message || data)`,
   * or a `TypeError` when `data` is `null`, since `null.message` throws.
   */
  function Rejection(data: Json): (e: ApiError)
    ensures e.TypeError? <==> data == JNull
    ensures e.ResponseError? && TruthyMessage(data).Some? ==> e.message == TruthyMessage(data).value
    ensures e.ResponseError? && TruthyMessage(data).None? ==> e.message == data
    ensures !e.NetworkError? && !e.ReadFailed?
  {
    if data == JNull then TypeError
    else match TruthyMessage(data)
      case Some(m) => ResponseError(m)
      case None => ResponseError(data)
  }

  /**
   * What a delivered body leads to: the read, then, for a non-empty text, the
   * parse attempt and, when the text is not JSON, the log line.
   */
  function BodyEffects(text: string, parse: string -> Option<Json>): seq<Effect> {
    [BodyRead] + (if text == "" then [] else [ParseTried(text)] + (if parse(text).None? then [LoggedNotJson] else []))
  }

  /**
   * Sends one request and decodes the reply. A transport failure becomes a
   * `NetworkError` and nothing is read. Otherwise the body text is read, and a
   * failed read is passed on. An empty body stays `""`; a non-empty one is
   * replaced by its JSON value when it parses and kept as text (with a log
   * line) when it does not. A non-ok status then raises `Rejection` of that
   * data; an ok one returns it.
   */
  method RequestAPI(baseUrl: string, endPoint: string, init: RequestInit,
                    send: Request -> Transport, parse: string -> Option<Json>)
    returns (r: Result<Json, ApiError>, effects: seq<Effect>)
    ensures var request := Request(Joined([baseUrl, Namespace, endPoint]), init);
      && (send(request).Failed? ==> effects == [Sent(request)] && r == Err(NetworkError(send(request).reason)))
      && (send(request).Delivered? && send(request).response.text.Err? ==>
            effects == [Sent(request), BodyRead] && r == Err(ReadFailed(send(request).response.text.error)))
      && (send(request).Delivered? && send(request).response.text.Ok? ==>
            var response := send(request).response;
            var body := response.text.value;
            && effects == [Sent(request)] + BodyEffects(body, parse)
            && (response.ok ==> r.Ok?)
            && (!response.ok ==> r.Err? && !r.error.NetworkError? && !r.error.ReadFailed?)
            && (body == "" && response.ok ==> r == Ok(JString("")))
            && (body != "" && parse(body).Some? && response.ok ==> r == Ok(parse(body).value))
            && (body != "" && parse(body).None? && response.ok ==> r == Ok(JString(body)))
            && (body == "" && !response.ok ==> r == Err(ResponseError(JString(""))))
            && (body != "" && parse(body).Some? && !response.ok ==> r == Err(Rejection(parse(body).value)))
            && (body != "" && parse(body).None? && !response.ok ==> r == Err(ResponseError(JString(body)))))
  {
    var request := Request(Joined([baseUrl, Namespace, endPoint]), init);
    effects := [Sent(request)];
    var response: Response;
    match send(request) {
      case Failed(reason) =>
        return Err(NetworkError(reason)), effects;
      case Delivered(received) =>
        response := received;
    }
    effects := effects + [BodyRead];
    var text: string;
    match response.text {
      case Err(reason) =>
        return Err(ReadFailed(reason)), effects;
      case Ok(t) =>
        text := t;
    }
    var data := JString(text);
    if |text| > 0 {
      effects := effects + [ParseTried(text)];
      match parse(text) {
        case Some(value) =>
          data := value;
        case None =>
          effects := effects + [LoggedNotJson];
      }
    }
    if !response.ok {
      return Err(Rejection(data)), effects;
    }
    r := Ok(data);
  }

  /** An endpoint below the namespace with the options it is requested with. */
  datatype ApiCall = ApiCall(endPoint: string, init: RequestInit)

  /** `Handler.activate`: a POST whose JSON body names the environment and the kernel. */
  function ActivateCall(kernelId: string, eid: string): (c: ApiCall)
    ensures c.endPoint == "activate" && c.init.verb == Some("POST") && c.init.body.Some?
    ensures c.init.body.value.JObject?
    ensures OrderedMap.Keys(c.init.body.value.fields) == ["eid", "kernel_id"]
    ensures OrderedMap.Get(c.init.body.value.fields, "eid") == Some(JString(eid))
    ensures OrderedMap.Get(c.init.body.value.fields, "kernel_id") == Some(JString(kernelId))
  {
    ApiCall("activate", RequestInit(Some("POST"), Some(JObject([("eid", JString(eid)), ("kernel_id", JString(kernelId))]))))
  }

  /** `Handler.devices`: a GET to `devices`. */
  function DevicesCall(): ApiCall {
    ApiCall("devices", DefaultInit)
  }

  /** `Handler.envs`: a GET to `envs`. */
  function EnvsCall(): ApiCall {
    ApiCall("envs", DefaultInit)
  }

  const FindPrefix := "find?kernel_id="

  /** `Handler.find`: the kernel id goes into the query string as it is, unescaped. */
  function FindCall(kernelId: string): (c: ApiCall)
    ensures c.init == DefaultInit
    ensures |c.endPoint| == |FindPrefix| + |kernelId|
    ensures c.endPoint[..|FindPrefix|] == FindPrefix && c.endPoint[|FindPrefix|..] == kernelId
  {
    ApiCall(FindPrefix + kernelId, DefaultInit)
  }

  /** The `|| null` of `Handler.find`: a falsy answer means "not bound". */
  function FindAnswer(data: Json): (eid: Option<Json>)
    ensures eid.None? <==> !Truthy(data)
    ensures eid.Some? ==> eid.value == data && Truthy(eid.value)
  {
    if Truthy(data) then Some(data) else None
  }

  /** The data `requestAPI` gives for a body text that was read: `""`, its JSON value, or the text itself. */
  function Decoded(text: string, parse: string -> Option<Json>): Json {
    if text == "" then JString("")
    else match parse(text)
      case Some(value) => value
      case None => JString(text)
  }

  /**
   * `Handler.find`: `requestAPI` on the `find` endpoint, with a falsy answer
   * turned into "not bound". Errors of the request are passed on.
   */
  method Find(baseUrl: string, kernelId: string, send: Request -> Transport, parse: string -> Option<Json>)
    returns (r: Result<Option<Json>, ApiError>, effects: seq<Effect>)
    ensures var request := Request(Joined([baseUrl, Namespace, FindCall(kernelId).endPoint]), DefaultInit);
      && |effects| >= 1 && effects[0] == Sent(request)
      && (send(request).Failed? ==> r == Err(NetworkError(send(request).reason)))
      && (send(request).Delivered? ==>
            var response := send(request).response;
            && (response.text.Err? ==> r == Err(ReadFailed(response.text.error)))
            && (response.text.Ok? && !response.ok ==> r.Err? && !r.error.NetworkError? && !r.error.ReadFailed?)
            && (response.text.Ok? && response.ok ==> r == Ok(FindAnswer(Decoded(response.text.value, parse)))))
  {
    var call := FindCall(kernelId);
    var data;
    data, effects := RequestAPI(baseUrl, call.endPoint, call.init, send, parse);
    if data.Err? {
      return Err(data.error), effects;
    }
    r := Ok(FindAnswer(data.value));
  }

  /**
   * The four wrappers request four different endpoints, and only `activate`
   * departs from the default options (a GET without a body).
   */
  lemma CallsDiffer(kernelId: string, eid: string)
    ensures var calls := [ActivateCall(kernelId, eid), DevicesCall(), EnvsCall(), FindCall(kernelId)];
      && (forall i, j :: 0 <= i < j < |calls| ==> calls[i].endPoint != calls[j].endPoint)
      && (forall i :: 1 <= i < |calls| ==> calls[i].init == DefaultInit)
      && calls[0].init != DefaultInit
  {
    var calls := [ActivateCall(kernelId, eid), DevicesCall(), EnvsCall(), FindCall(kernelId)];
    assert calls[3].endPoint[0] == 'f';
  }

  /** A 500 reply with body `{"message":"disk full"}` is rejected with "disk full". */
  lemma RejectionCarriesMessage(text: string)
    ensures Rejection(JObject([("message", JString(text))])) ==
      if text != "" then ResponseError(JString(text)) else ResponseError(JObject([("message", JString(""))]))
  {
  }
}
