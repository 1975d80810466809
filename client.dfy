/** The client object: it signs a command, sends it, checks the status and
  * decodes the records the server returns. */
module Client {
  import opened Wrappers
  import opened Primitives
  import opened Errors
  import opened Requests
  import opened Responses
  import Base64
  import Base64Decoding
  import Parameters

  /** The library routines the client relies on and this model does not define. */
  datatype Library = Library(
    /** `URLEncoder.encode(_, "UTF-8")`. */
    urlEncode: string -> string,
    /** `String.getBytes()` in the platform's default charset. */
    getBytes: string -> seq<byte>,
    /** The HMAC-SHA1 digest of a message (second argument) under a key (first). */
    hmacSha1: (seq<byte>, seq<byte>) -> seq<byte>,
    /** `JSONParser.parse`: `None` when the text is not JSON. */
    parseJson: string -> Option<Json>)

  /** What goes over the wire: method, URL, the `X-Gurobi-Signature` and
    * `X-Gurobi-Date` headers and, for a POST, the form body. */
  datatype Request = Request(httpMethod: string, url: string, signature: string, date: string, body: Option<string>)

  /** The status code and the text of the body (or of the error stream). */
  datatype Response = Response(status: int, body: string)

  // ---------------------------------------------------------------------------
  // What a call does, as functions of its inputs
  // ---------------------------------------------------------------------------

  /** The request signature: the standard Base64 text of the HMAC-SHA1 of the
    * message under the secret key. An empty key is refused. */
  function Signature(lib: Library, secretKey: string, message: string): (r: Result<string, Error>)
    ensures r.Failure? <==> |lib.getBytes(secretKey)| == 0
    ensures r.Failure? ==> r.error == SigningError
    ensures r.Success? ==>
      Base64Decoding.Decode(r.value) == lib.hmacSha1(lib.getBytes(secretKey), lib.getBytes(message))
  {
    var key := lib.getBytes(secretKey);
    if |key| == 0 then Failure(SigningError)
    else
      var digest := lib.hmacSha1(key, lib.getBytes(message));
      Base64Decoding.DecodeStandard(digest);
      Success(Base64.Standard(digest))
  }

  /** The request `sendCommand` builds when the keys of the parameters are visited in `order`. */
  function RequestFor(command: string, params: map<string, string>, accessId: string, secretKey: string,
                      now: string, lib: Library, order: seq<string>): (r: Result<Request, Error>)
    requires MethodOf(command).Some? ==> forall i :: 0 <= i < |order| ==> order[i] in WithId(params, accessId)
    ensures MethodOf(command).None? ==> r == Failure(UnknownCommand(command))
    ensures MethodOf(command).Some? ==> (r.Failure? <==> |lib.getBytes(secretKey)| == 0)
    ensures MethodOf(command).Some? && r.Failure? ==> r.error == SigningError
    ensures r.Success? ==>
      && MethodOf(command) == Some(r.value.httpMethod)
      && r.value.date == now
      && |r.value.url| >= |BaseUrl + command| && r.value.url[..|BaseUrl + command|] == BaseUrl + command
      && (r.value.body.Some? ==> r.value.httpMethod == "POST")
  {
    if MethodOf(command).None? then Failure(UnknownCommand(command))
    else
      var httpMethod := MethodOf(command).value;
      var pairs := Pairs(WithId(params, accessId), order, lib.urlEncode);
      match Signature(lib, secretKey, StringToSign(httpMethod, pairs, now))
      case Failure(e) => Failure(e)
      case Success(signature) =>
        Success(Request(httpMethod, Url(command, httpMethod, accessId), signature, now,
                        if httpMethod == "POST" then FormBody(pairs) else None))
  }

  /** Only status 200 gives the body to the caller; any other status is an error carrying status and body. */
  function CheckStatus(response: Response): (r: Result<string, Error>)
    ensures r.Success? <==> response.status == 200
    ensures r.Success? ==> r.value == response.body
    ensures r.Failure? ==> r.error == ServerError(response.status, response.body)
  {
    if response.status == 200 then Success(response.body)
    else Failure(ServerError(response.status, response.body))
  }

  /** The text `sendCommand` returns: the request is sent only if it could be built. */
  function Reply(request: Result<Request, Error>, server: Request -> Response): Result<string, Error>
  {
    match request
    case Failure(e) => Failure(e)
    case Success(req) => CheckStatus(server(req))
  }

  /** The reply parsed as JSON text. */
  function ParsedReply(reply: Result<string, Error>, lib: Library): Result<Json, Error>
  {
    match reply
    case Failure(e) => Failure(e)
    case Success(text) =>
      match lib.parseJson(text)
      case None => Failure(ParseError)
      case Some(json) => Success(json)
  }

  function LicensesReply(reply: Result<string, Error>, lib: Library): Result<seq<License>, Error>
  {
    match ParsedReply(reply, lib)
    case Failure(e) => Failure(e)
    case Success(json) => Licenses(json)
  }

  function MachinesReply(reply: Result<string, Error>, lib: Library): Result<seq<Machine>, Error>
  {
    match ParsedReply(reply, lib)
    case Failure(e) => Failure(e)
    case Success(json) => Machines(json)
  }

  /** The parameters `killMachines` sends. */
  function KillParams(machineIds: seq<string>): map<string, string>
  {
    map["machineIds" := Parameters.IdArrayLiteral(machineIds)]
  }

  // ---------------------------------------------------------------------------
  // The client
  // ---------------------------------------------------------------------------

  class InstantCloudClient {
    var accessId: string
    var secretKey: string
    var verbose: bool

    constructor (accessId: string, secretKey: string)
      ensures this.accessId == accessId && this.secretKey == secretKey && !verbose
    {
      this.accessId := accessId;
      this.secretKey := secretKey;
      verbose := false;
    }

    /** Signs `rawString` with the secret key. */
    method SignRequest(rawString: string, lib: Library) returns (r: Result<string, Error>)
      ensures r == Signature(lib, secretKey, rawString)
    {
      var key := lib.getBytes(secretKey);
      if |key| == 0 {
        return Failure(SigningError);
      }
      var digest := lib.hmacSha1(key, lib.getBytes(rawString));
      var rawHmac := new byte[|digest|](i requires 0 <= i < |digest| => digest[i]);
      assert rawHmac[..] == digest;
      var encoded := Base64.Encode(rawHmac);
      return Success(encoded);
    }

    /** Sends one command: look it up, sign it, send it, check the status. */
    method SendCommand(command: string, params: map<string, string>, now: string, lib: Library,
                       server: Request -> Response)
      returns (r: Result<string, Error>, ghost order: seq<string>)
      ensures MethodOf(command).Some? ==> IsEnumeration(order, WithId(params, accessId).Keys)
      ensures r == Reply(RequestFor(command, params, accessId, secretKey, now, lib, order), server)
      ensures MethodOf(command).None? ==> r == Failure(UnknownCommand(command))
      ensures MethodOf(command).Some? && |lib.getBytes(secretKey)| == 0 ==> r == Failure(SigningError)
      ensures r.Success? ==> MethodOf(command).Some? && |lib.getBytes(secretKey)| > 0
      ensures r.Failure? && r.error.ServerError? ==> r.error.status != 200
    {
      order := [];
      var cmd := FindCommand(command);
      if cmd == 4 {
        r := Failure(UnknownCommand(command));
        return;
      }
      var httpMethod := Methods[cmd];
      var urlStr := BaseUrl + command;
      if httpMethod == "GET" {
        urlStr := urlStr + "?id=" + accessId;
      }
      var requestStr, query;
      requestStr, query, order := Canonicalize(httpMethod, WithId(params, accessId), lib.urlEncode);
      StringToSignAppends(httpMethod, Pairs(WithId(params, accessId), order, lib.urlEncode), now);
      requestStr := requestStr + "&" + now;
      var signature := SignRequest(requestStr, lib);
      if signature.Failure? {
        r := Failure(signature.error);
        return;
      }
      var response := server(Request(httpMethod, urlStr, signature.value, now, query));
      if response.status == 200 {
        r := Success(response.body);
      } else {
        r := Failure(ServerError(response.status, response.body));
      }
    }

    /** The licenses of the account. */
    method GetLicenses(now: string, lib: Library, server: Request -> Response)
      returns (r: Result<array<License>, Error>, ghost order: seq<string>)
      ensures IsEnumeration(order, WithId(map[], accessId).Keys)
      ensures var expected := LicensesReply(Reply(RequestFor("licenses", map[], accessId, secretKey, now, lib, order), server), lib);
              && (r.Success? <==> expected.Success?)
              && (r.Success? ==> fresh(r.value) && r.value[..] == expected.value)
              && (r.Failure? ==> r.error == expected.error)
    {
      var jsonStr;
      jsonStr, order := SendCommand("licenses", map[], now, lib, server);
      if jsonStr.Failure? {
        return Failure(jsonStr.error), order;
      }
      var json := lib.parseJson(jsonStr.value);
      if json.None? {
        return Failure(ParseError), order;
      }
      r := DecodeLicenses(json.value);
    }

    /** The machines of the account. */
    method GetMachines(now: string, lib: Library, server: Request -> Response)
      returns (r: Result<array<Machine>, Error>, ghost order: seq<string>)
      ensures IsEnumeration(order, WithId(map[], accessId).Keys)
      ensures var expected := MachinesReply(Reply(RequestFor("machines", map[], accessId, secretKey, now, lib, order), server), lib);
              && (r.Success? <==> expected.Success?)
              && (r.Success? ==> fresh(r.value) && r.value[..] == expected.value)
              && (r.Failure? ==> r.error == expected.error)
    {
      var jsonStr;
      jsonStr, order := SendCommand("machines", map[], now, lib, server);
      r := ParseMachines(jsonStr, lib);
    }

    /** `parseMachines`, with the failure of the command passed through. */
    method ParseMachines(reply: Result<string, Error>, lib: Library) returns (r: Result<array<Machine>, Error>)
      ensures var expected := MachinesReply(reply, lib);
              && (r.Success? <==> expected.Success?)
              && (r.Success? ==> fresh(r.value) && r.value[..] == expected.value)
              && (r.Failure? ==> r.error == expected.error)
    {
      if reply.Failure? {
        return Failure(reply.error);
      }
      var json := lib.parseJson(reply.value);
      if json.None? {
        return Failure(ParseError);
      }
      r := DecodeMachines(json.value);
    }

    /** Terminates the given machines and returns the machines the server reports. */
    method KillMachines(machineIds: array<string>, now: string, lib: Library, server: Request -> Response)
      returns (r: Result<array<Machine>, Error>, ghost order: seq<string>)
      ensures IsEnumeration(order, WithId(KillParams(machineIds[..]), accessId).Keys)
      ensures var expected := MachinesReply(Reply(RequestFor("kill", KillParams(machineIds[..]), accessId, secretKey, now, lib, order), server), lib);
              && (r.Success? <==> expected.Success?)
              && (r.Success? ==> fresh(r.value) && r.value[..] == expected.value)
              && (r.Failure? ==> r.error == expected.error)
    {
      var machineJson := Parameters.MachineIdsJson(machineIds);
      var params := map["machineIds" := machineJson];
      var jsonStr;
      jsonStr, order := SendCommand("kill", params, now, lib, server);
      r := ParseMachines(jsonStr, lib);
    }

    /** Launches machines with the given settings and returns the machines the server reports. */
    method LaunchMachines(numMachines: int32, licenseType: Option<string>, licenseId: Option<string>,
                          userPassword: Option<string>, region: Option<string>, idleShutdown: int32,
                          machineType: Option<string>, now: string, lib: Library, server: Request -> Response)
      returns (r: Result<array<Machine>, Error>, ghost params: map<string, string>, ghost order: seq<string>)
      ensures Parameters.LaunchParamsFor(params, numMachines, licenseType, licenseId, userPassword, region,
                                         idleShutdown, machineType)
      ensures IsEnumeration(order, WithId(params, accessId).Keys)
      ensures var expected := MachinesReply(Reply(RequestFor("launch", params, accessId, secretKey, now, lib, order), server), lib);
              && (r.Success? <==> expected.Success?)
              && (r.Success? ==> fresh(r.value) && r.value[..] == expected.value)
              && (r.Failure? ==> r.error == expected.error)
    {
      var launchParams := Parameters.LaunchParams(numMachines, licenseType, licenseId, userPassword, region,
                                                  idleShutdown, machineType);
      params := launchParams;
      var jsonStr;
      jsonStr, order := SendCommand("launch", launchParams, now, lib, server);
      r := ParseMachines(jsonStr, lib);
    }
  }

  // ---------------------------------------------------------------------------
  // What the requests and replies look like
  // ---------------------------------------------------------------------------

  /** A read command goes to its URL with the access id, unencoded, as the query;
    * it has no body; its signature covers the method, the encoded pairs and the date. */
  lemma GetRequest(command: string, params: map<string, string>, accessId: string, secretKey: string,
                   now: string, lib: Library, order: seq<string>)
    requires MethodOf(command) == Some("GET")
    requires IsEnumeration(order, WithId(params, accessId).Keys)
    requires |lib.getBytes(secretKey)| > 0
    ensures var request := RequestFor(command, params, accessId, secretKey, now, lib, order);
            && request.Success?
            && request.value.httpMethod == "GET"
            && request.value.url == BaseUrl + command + "?id=" + accessId
            && request.value.body.None?
            && request.value.date == now
            && request.value.signature == Base64.Standard(lib.hmacSha1(lib.getBytes(secretKey),
                 lib.getBytes(StringToSign("GET", Pairs(WithId(params, accessId), order, lib.urlEncode), now))))
  {
  }

  /** A write command goes to its URL without a query; its body always exists
    * (it holds at least the id), and the signature covers `POST&body&date`. */
  lemma PostRequest(command: string, params: map<string, string>, accessId: string, secretKey: string,
                    now: string, lib: Library, order: seq<string>)
    requires MethodOf(command) == Some("POST")
    requires IsEnumeration(order, WithId(params, accessId).Keys)
    requires |lib.getBytes(secretKey)| > 0
    ensures var request := RequestFor(command, params, accessId, secretKey, now, lib, order);
            && request.Success?
            && request.value.httpMethod == "POST"
            && request.value.url == BaseUrl + command
            && request.value.body.Some?
            && request.value.body.value == Text.Join(Pairs(WithId(params, accessId), order, lib.urlEncode), "&")
            && request.value.date == now
            && request.value.signature == Base64.Standard(lib.hmacSha1(lib.getBytes(secretKey),
                 lib.getBytes("POST&" + request.value.body.value + "&" + now)))
  {
    var pairs := Pairs(WithId(params, accessId), order, lib.urlEncode);
    assert "id" in WithId(params, accessId).Keys;
    assert "id" in order;
    assert |pairs| > 0;
    StringToSignAroundBody("POST", pairs, now);
    var body := Text.Join(pairs, "&");
    assert "POST" + "&" + body + "&" + now == "POST&" + body + "&" + now;
  }

  /** A known command fails before it is sent exactly when the key is empty. */
  lemma SigningNeedsKey(command: string, params: map<string, string>, accessId: string, secretKey: string,
                        now: string, lib: Library, order: seq<string>)
    requires MethodOf(command).Some?
    requires IsEnumeration(order, WithId(params, accessId).Keys)
    ensures RequestFor(command, params, accessId, secretKey, now, lib, order).Failure?
            <==> |lib.getBytes(secretKey)| == 0
    ensures RequestFor(command, params, accessId, secretKey, now, lib, order).Failure? ==>
            RequestFor(command, params, accessId, secretKey, now, lib, order).error == SigningError
  {
  }

  /** An unknown command never reaches the server. */
  lemma UnknownCommandNotSent(command: string, params: map<string, string>, accessId: string, secretKey: string,
                              now: string, lib: Library, order: seq<string>, server: Request -> Response)
    requires MethodOf(command).None?
    ensures Reply(RequestFor(command, params, accessId, secretKey, now, lib, order), server)
            == Failure(UnknownCommand(command))
  {
  }

  /** A status other than 200 yields no records, only an error with the status and the body. */
  lemma RefusalYieldsNoRecords(request: Request, server: Request -> Response, lib: Library)
    requires server(request).status != 200
    ensures LicensesReply(Reply(Success(request), server), lib)
            == Failure(ServerError(server(request).status, server(request).body))
    ensures MachinesReply(Reply(Success(request), server), lib)
            == Failure(ServerError(server(request).status, server(request).body))
  {
  }

  /** A 20-byte digest, as HMAC-SHA1 produces, signs as 28 characters: 27 from
    * the alphabet and one `=`. */
  lemma SignatureShape(lib: Library, secretKey: string, message: string)
    requires |lib.getBytes(secretKey)| > 0
    requires |lib.hmacSha1(lib.getBytes(secretKey), lib.getBytes(message))| == 20
    ensures Signature(lib, secretKey, message).Success?
    ensures |Signature(lib, secretKey, message).value| == 28
    ensures Signature(lib, secretKey, message).value[27] == '='
    ensures forall k :: 0 <= k < 27 ==> Signature(lib, secretKey, message).value[k] in Base64.Alphabet
    ensures '=' !in Base64.Alphabet
  {
    var digest := lib.hmacSha1(lib.getBytes(secretKey), lib.getBytes(message));
    Base64.StandardLength(digest);
    Base64.StandardCharacters(digest);
    assert Base64.PadCount(20) == 1;
    var t := Base64.Standard(digest);
    forall k | 0 <= k < 27
      ensures t[k] in Base64.Alphabet
    {
      Base64.AlphabetMembers(t[k]);
    }
    Base64.AlphabetMembers('=');
  }

  /** `getLicenses` sends `GET licenses?id=accessId` signed over `GET&id=Enc(accessId)&date`. */
  lemma LicensesRequest(accessId: string, secretKey: string, now: string, lib: Library, order: seq<string>)
    requires IsEnumeration(order, WithId(map[], accessId).Keys)
    requires |lib.getBytes(secretKey)| > 0
    ensures RequestFor("licenses", map[], accessId, secretKey, now, lib, order)
            == Success(Request("GET", BaseUrl + "licenses?id=" + accessId,
                               Base64.Standard(lib.hmacSha1(lib.getBytes(secretKey),
                                 lib.getBytes("GET&id=" + lib.urlEncode(accessId) + "&" + now))),
                               now, None))
  {
    OnlyIdSigned(accessId, order, lib.urlEncode, now);
    assert BaseUrl + "licenses" + "?id=" + accessId == BaseUrl + "licenses?id=" + accessId;
  }

  /** `killMachines` sends both pairs in its body, in one of the two orders, whichever the hash map yields. */
  lemma KillRequest(machineIds: seq<string>, accessId: string, secretKey: string, now: string,
                    lib: Library, order: seq<string>)
    requires IsEnumeration(order, WithId(KillParams(machineIds), accessId).Keys)
    requires |lib.getBytes(secretKey)| > 0
    ensures var request := RequestFor("kill", KillParams(machineIds), accessId, secretKey, now, lib, order);
            var ids := Pair("machineIds", Parameters.IdArrayLiteral(machineIds), lib.urlEncode);
            var id := Pair("id", accessId, lib.urlEncode);
            && request.Success?
            && request.value.url == BaseUrl + "kill"
            && (request.value.body == Some(ids + "&" + id) || request.value.body == Some(id + "&" + ids))
  {
    var params := WithId(KillParams(machineIds), accessId);
    assert params.Keys == {"machineIds", "id"};
    TwoKeyOrders(order, "machineIds", "id");
    var pairs := Pairs(params, order, lib.urlEncode);
    assert |pairs| == 2;
    assert pairs[..1] == [pairs[0]];
    assert Text.Join(pairs, "&") == pairs[0] + "&" + pairs[1];
    assert params["machineIds"] == Parameters.IdArrayLiteral(machineIds) && params["id"] == accessId;
  }

  /** The signature loses nothing of the digest: two messages signed alike under one key have the same HMAC. */
  lemma SignatureDeterminesDigest(lib: Library, secretKey: string, m1: string, m2: string)
    requires Signature(lib, secretKey, m1).Success?
    requires Signature(lib, secretKey, m1) == Signature(lib, secretKey, m2)
    ensures lib.hmacSha1(lib.getBytes(secretKey), lib.getBytes(m1)) == lib.hmacSha1(lib.getBytes(secretKey), lib.getBytes(m2))
  {
    var key := lib.getBytes(secretKey);
    Base64Decoding.StandardInjective(lib.hmacSha1(key, lib.getBytes(m1)), lib.hmacSha1(key, lib.getBytes(m2)));
  }
}
