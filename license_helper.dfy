/**
 * The license-request envelopes of `LicenseHelper`: the Widevine challenge
 * wrapped in a JSON registration record and base64-encoded twice, the
 * PlayReady registration header, and the unwrapping of a Widevine license
 * reply `{"license": <base64>}` back into raw license bytes.
 */
module LicenseHelper {
  import opened Wrappers
  import opened Bytes
  import Base64
  import Utf8
  import opened Json
  import JsonRoundTrip
  import opened ShakaNet

  /** The JavaScript exceptions the envelope code can raise. */
  datatype JsError =
    | ReferenceError(name: string)   // an identifier that is not declared
    | TypeError                      // a property read on `null`, or `toByteArray` of a non-string
    | InvalidBase64                  // `toByteArray` of a string that is not base64

  /** The DRM system a registration record names. */
  datatype Vendor = Vendor(provider: string, version: string, drmType: string)

  const WidevineVendor := Vendor("Google", "1.4.8.86", "Widevine")
  const PlayReadyVendor := Vendor("Microsoft", "3", "Playready")

  // ---------------------------------------------------------------- registration record

  /**
   * A member whose value may be `undefined`: `JSON.stringify` leaves out a
   * key whose value is `undefined`, so an absent customer or device id
   * contributes nothing.
   */
  function Defined(key: string, value: Option<string>): seq<Member> {
    if value.Some? then [Member(key, JString(value.value))] else []
  }

  /** The `DeviceInfo` object of a registration, keys in source order. */
  function DeviceInfo(v: Vendor): Json {
    JObject([
      Member("FormatVersion", JString("1")),
      Member("DeviceType", JString("Web")),
      Member("OSType", JString("Tizen")),
      Member("OSVersion", JString("0.0.0")),
      Member("DRMProvider", JString(v.provider)),
      Member("DRMVersion", JString(v.version)),
      Member("DRMType", JString(v.drmType)),
      Member("DeviceVendor", JString("Samsung")),
      Member("DeviceModel", JString("Tizen"))])
  }

  /** The `LatensRegistration` object, keys in source order. */
  function Registration(customerId: Option<string>, deviceId: Option<string>, v: Vendor): Json {
    JObject(
      Defined("CustomerName", customerId)
      + ([Member("AccountName", JString("PlayReadyAccount"))]
      + (Defined("PortalId", deviceId)
      + [Member("FriendlyName", JString("ShakaPlayer")), Member("DeviceInfo", DeviceInfo(v))])))
  }

  /** A key looked up in two member lists joined: the later list wins. */
  lemma {:induction false} GetAppend(a: seq<Member>, b: seq<Member>, key: string)
    ensures Get(a + b, key) == if Get(b, key).Some? then Get(b, key) else Get(a, key)
    decreases |a|
  {
    if a == [] {
      assert a + b == b;
    } else {
      assert (a + b)[1..] == a[1..] + b;
      GetAppend(a[1..], b, key);
    }
  }

  lemma {:induction false} WellFormedAppend(a: seq<Member>, b: seq<Member>)
    requires WellFormedMembers(a) && WellFormedMembers(b)
    ensures WellFormedMembers(a + b)
    decreases |a|
  {
    if a == [] {
      assert a + b == b;
    } else {
      assert (a + b)[1..] == a[1..] + b;
      WellFormedAppend(a[1..], b);
    }
  }

  /** Every string-valued member list is well formed. */
  lemma {:induction false} StringMembersWellFormed(ms: seq<Member>)
    requires forall i :: 0 <= i < |ms| ==> ms[i].value.JString?
    ensures WellFormedMembers(ms)
    decreases |ms|
  {
    if ms != [] {
      StringMembersWellFormed(ms[1..]);
    }
  }

  lemma RegistrationWellFormed(customerId: Option<string>, deviceId: Option<string>, v: Vendor)
    ensures WellFormed(Registration(customerId, deviceId, v))
  {
    var info := DeviceInfo(v);
    StringMembersWellFormed(info.members);
    var last := [Member("FriendlyName", JString("ShakaPlayer")), Member("DeviceInfo", info)];
    assert last[1..][1..] == [];
    assert WellFormedMembers(last[1..][1..]);
    assert WellFormed(last[1..][0].value);
    assert WellFormedMembers(last[1..]);
    assert WellFormed(last[0].value);
    StringMembersWellFormed(Defined("PortalId", deviceId));
    StringMembersWellFormed(Defined("CustomerName", customerId));
    StringMembersWellFormed([Member("AccountName", JString("PlayReadyAccount"))]);
    WellFormedAppend(Defined("PortalId", deviceId), last);
    WellFormedAppend([Member("AccountName", JString("PlayReadyAccount"))], Defined("PortalId", deviceId) + last);
    WellFormedAppend(Defined("CustomerName", customerId),
      [Member("AccountName", JString("PlayReadyAccount"))] + (Defined("PortalId", deviceId) + last));
  }

  /** The ids are stored under `CustomerName` and `PortalId`, and only when they are defined. */
  lemma RegistrationIds(customerId: Option<string>, deviceId: Option<string>, v: Vendor)
    ensures var ms := Registration(customerId, deviceId, v).members;
      && Get(ms, "CustomerName") == (if customerId.Some? then Some(JString(customerId.value)) else None)
      && Get(ms, "PortalId") == (if deviceId.Some? then Some(JString(deviceId.value)) else None)
  {
    var account := [Member("AccountName", JString("PlayReadyAccount"))];
    var last := [Member("FriendlyName", JString("ShakaPlayer")), Member("DeviceInfo", DeviceInfo(v))];
    assert Get(last, "CustomerName") == None && Get(last, "PortalId") == None by {
      assert last[1..][1..] == [];
    }
    GetAppend(Defined("PortalId", deviceId), last, "CustomerName");
    GetAppend(Defined("PortalId", deviceId), last, "PortalId");
    GetAppend(account, Defined("PortalId", deviceId) + last, "CustomerName");
    GetAppend(account, Defined("PortalId", deviceId) + last, "PortalId");
    GetAppend(Defined("CustomerName", customerId), account + (Defined("PortalId", deviceId) + last), "CustomerName");
    GetAppend(Defined("CustomerName", customerId), account + (Defined("PortalId", deviceId) + last), "PortalId");
  }

  /** The account name, the friendly name and the device information are the fixed values. */
  lemma RegistrationConstants(customerId: Option<string>, deviceId: Option<string>, v: Vendor)
    ensures var ms := Registration(customerId, deviceId, v).members;
      && Get(ms, "AccountName") == Some(JString("PlayReadyAccount"))
      && Get(ms, "FriendlyName") == Some(JString("ShakaPlayer"))
      && Get(ms, "DeviceInfo") == Some(DeviceInfo(v))
  {
    var account := [Member("AccountName", JString("PlayReadyAccount"))];
    var last := [Member("FriendlyName", JString("ShakaPlayer")), Member("DeviceInfo", DeviceInfo(v))];
    assert Get(last, "AccountName") == None && Get(last, "FriendlyName") == Some(JString("ShakaPlayer"))
        && Get(last, "DeviceInfo") == Some(DeviceInfo(v)) by {
      assert last[1..][1..] == [];
    }
    var tail := Defined("PortalId", deviceId) + last;
    GetAppend(Defined("PortalId", deviceId), last, "AccountName");
    GetAppend(Defined("PortalId", deviceId), last, "FriendlyName");
    GetAppend(Defined("PortalId", deviceId), last, "DeviceInfo");
    GetAppend(account, tail, "AccountName");
    GetAppend(account, tail, "FriendlyName");
    GetAppend(account, tail, "DeviceInfo");
    GetAppend(Defined("CustomerName", customerId), account + tail, "AccountName");
    GetAppend(Defined("CustomerName", customerId), account + tail, "FriendlyName");
    GetAppend(Defined("CustomerName", customerId), account + tail, "DeviceInfo");
  }

  /** The device information names the vendor's provider, version and DRM type. */
  lemma DeviceInfoVendor(v: Vendor)
    ensures var ms := DeviceInfo(v).members;
      && Get(ms, "DRMProvider") == Some(JString(v.provider))
      && Get(ms, "DRMVersion") == Some(JString(v.version))
      && Get(ms, "DRMType") == Some(JString(v.drmType))
  {
    var ms := DeviceInfo(v).members;
    var tail := ms[7..];
    assert tail == [Member("DeviceVendor", JString("Samsung"))] + [Member("DeviceModel", JString("Tizen"))];
    assert Get(tail, "DRMProvider") == None && Get(tail, "DRMVersion") == None && Get(tail, "DRMType") == None;
    assert ms == ms[..4] + ([ms[4]] + ([ms[5]] + ([ms[6]] + tail)));
    GetAppend([ms[6]], tail, "DRMProvider");
    GetAppend([ms[6]], tail, "DRMVersion");
    GetAppend([ms[6]], tail, "DRMType");
    GetAppend([ms[5]], [ms[6]] + tail, "DRMProvider");
    GetAppend([ms[5]], [ms[6]] + tail, "DRMVersion");
    GetAppend([ms[5]], [ms[6]] + tail, "DRMType");
    GetAppend([ms[4]], [ms[5]] + ([ms[6]] + tail), "DRMProvider");
    GetAppend([ms[4]], [ms[5]] + ([ms[6]] + tail), "DRMVersion");
    GetAppend([ms[4]], [ms[5]] + ([ms[6]] + tail), "DRMType");
    GetAppend(ms[..4], [ms[4]] + ([ms[5]] + ([ms[6]] + tail)), "DRMProvider");
    GetAppend(ms[..4], [ms[4]] + ([ms[5]] + ([ms[6]] + tail)), "DRMVersion");
    GetAppend(ms[..4], [ms[4]] + ([ms[5]] + ([ms[6]] + tail)), "DRMType");
  }

  // ---------------------------------------------------------------- JSON behind base64

  /** `fromByteArray(new TextEncoder().encode(JSON.stringify(j)))`. */
  function EncodeJson(j: Json): string {
    Base64.Encode(Utf8.Encode(Serialize(j)))
  }

  /** What a license server does with such text: base64-decode, UTF-8-decode, parse. */
  function DecodeJson(s: string): Option<Json> {
    match Base64.Decode(s)
    case None => None
    case Some(b) =>
      match Utf8.Decode(b)
      case None => None
      case Some(text) => Parse(text)
  }

  /** The server reads back exactly the JSON value that was sent. */
  lemma DecodeEncodeJson(j: Json)
    requires WellFormed(j)
    ensures DecodeJson(EncodeJson(j)) == Some(j)
  {
    var text := Serialize(j);
    Base64.DecodeEncode(Utf8.Encode(text));
    Utf8.DecodeEncode(text);
    JsonRoundTrip.ParseSerialize(j);
  }

  // ---------------------------------------------------------------- Widevine request

  /** The `wrapped` object: the registration, then the challenge in base64 as `Payload`. */
  function WidevineEnvelope(customerId: Option<string>, deviceId: Option<string>, challenge: seq<Byte>): Json {
    JObject([
      Member("LatensRegistration", Registration(customerId, deviceId, WidevineVendor)),
      Member("Payload", JString(Base64.Encode(challenge)))])
  }

  /** The license server's view of a wrapped Widevine body: the registration and the challenge bytes. */
  function UnwrapWidevineBody(body: string): Option<(Json, seq<Byte>)> {
    var j := DecodeJson(body);
    if j.None? || !j.value.JObject? then None
    else
      var registration := Get(j.value.members, "LatensRegistration");
      var payload := Get(j.value.members, "Payload");
      if registration.None? || payload.None? || !payload.value.JString? then None
      else
        var challenge := Base64.Decode(payload.value.s);
        if challenge.None? then None else Some((registration.value, challenge.value))
  }

  /** Unwrapping the body the request builder writes gives back the registration and exactly the original challenge. */
  lemma UnwrapWidevineRequest(customerId: Option<string>, deviceId: Option<string>, challenge: seq<Byte>)
    ensures UnwrapWidevineBody(EncodeJson(WidevineEnvelope(customerId, deviceId, challenge)))
         == Some((Registration(customerId, deviceId, WidevineVendor), challenge))
  {
    var registration := Registration(customerId, deviceId, WidevineVendor);
    var payload := JString(Base64.Encode(challenge));
    var env := WidevineEnvelope(customerId, deviceId, challenge);
    var ms := env.members;
    RegistrationWellFormed(customerId, deviceId, WidevineVendor);
    assert WellFormedMembers(ms) by {
      assert ms[1..][1..] == [];
      assert WellFormed(ms[1..][0].value);
    }
    DecodeEncodeJson(env);
    assert Get(ms, "LatensRegistration") == Some(registration) && Get(ms, "Payload") == Some(payload) by {
      assert ms[1..][1..] == [];
    }
    Base64.DecodeEncode(challenge);
  }

  /**
   * `buildWidevineRequest`: forbids cross-site credentials and replaces the
   * body by the base64 of the UTF-8 of the JSON of the wrapped challenge;
   * the headers are left alone and the same request object is returned.
   */
  method BuildWidevineRequest(customerId: Option<string>, deviceId: Option<string>, request: Request) returns (r: Request)
    requires request.body.Binary?
    modifies request
    ensures r == request
    ensures request.allowCrossSiteCredentials == false
    ensures request.headers == old(request.headers)
    ensures request.body == Text(EncodeJson(WidevineEnvelope(customerId, deviceId, old(request.body).bytes)))
  {
    request.allowCrossSiteCredentials := false;
    var wrapped := WidevineEnvelope(customerId, deviceId, request.body.bytes);
    var wrappedJson := Serialize(wrapped);
    request.body := Text(Base64.Encode(Utf8.Encode(wrappedJson)));
    r := request;
  }

  // ---------------------------------------------------------------- PlayReady request

  /** The `cdata` object: the registration alone. */
  function Cdata(customerId: Option<string>, deviceId: Option<string>): Json {
    JObject([Member("LatensRegistration", Registration(customerId, deviceId, PlayReadyVendor))])
  }

  const ContentType := "text/xml; charset=utf-8"
  const SoapAction := "http://schemas.microsoft.com/DRM/2007/03/protocols/AcquireLicense"

  /** The three headers of a PlayReady license request. */
  function PlayReadyHeaders(customerId: Option<string>, deviceId: Option<string>): (h: map<string, string>)
    ensures h.Keys == {"x-titanium-drm-cdata", "Content-Type", "soapaction"}
    ensures h["Content-Type"] == ContentType && h["soapaction"] == SoapAction
  {
    map["x-titanium-drm-cdata" := EncodeJson(Cdata(customerId, deviceId)),
        "Content-Type" := ContentType,
        "soapaction" := SoapAction]
  }

  /** The `x-titanium-drm-cdata` header decodes back to the PlayReady registration. */
  lemma PlayReadyCdata(customerId: Option<string>, deviceId: Option<string>)
    ensures var h := PlayReadyHeaders(customerId, deviceId)["x-titanium-drm-cdata"];
      DecodeJson(h) == Some(Cdata(customerId, deviceId))
      && Get(Cdata(customerId, deviceId).members, "LatensRegistration") == Some(Registration(customerId, deviceId, PlayReadyVendor))
  {
    var c := Cdata(customerId, deviceId);
    assert PlayReadyHeaders(customerId, deviceId)["x-titanium-drm-cdata"] == EncodeJson(c);
    CdataDecodes(customerId, deviceId);
    assert c.members[1..] == [];
  }

  lemma CdataDecodes(customerId: Option<string>, deviceId: Option<string>)
    ensures DecodeJson(EncodeJson(Cdata(customerId, deviceId))) == Some(Cdata(customerId, deviceId))
  {
    CdataWellFormed(customerId, deviceId);
    DecodeEncodeJson(Cdata(customerId, deviceId));
  }


  lemma CdataWellFormed(customerId: Option<string>, deviceId: Option<string>)
    ensures WellFormed(Cdata(customerId, deviceId))
  {
    var ms := Cdata(customerId, deviceId).members;
    RegistrationWellFormed(customerId, deviceId, PlayReadyVendor);
    assert ms[1..] == [];
    assert WellFormedMembers(ms[1..]);
  }

  // ---------------------------------------------------------------- PlayReady envelope template

  /**
   * The names declared where `buildPlayReadyRequest` evaluates its SOAP
   * template: the module's two imports and its class, the three
   * parameters, the two constants declared before the `try`, and the
   * browser globals the module reads (`JSON`, `TextEncoder`, `Uint8Array`,
   * `console`). Other browser globals are left out; none of them is named
   * `response`, so leaving them out changes no name lookup the template makes.
   */
  const PlayReadyScope: set<string> :=
    {"fromByteArray", "toByteArray", "LicenseHelper", "customerId", "deviceId", "request", "cdata", "cdataBase64",
     "JSON", "TextEncoder", "Uint8Array", "console"}

  /** The identifiers the template's one substitution reads, in evaluation order: as written, `toByteArray(response.body)`. */
  const AsWrittenReads: seq<string> := ["toByteArray", "response"]

  /**
   * The identifiers the substitution evidently meant reads, with the idiom
   * `buildWidevineRequest` uses for its payload: `fromByteArray(new
   * Uint8Array(request.body))`.
   */
  const IntendedReads: seq<string> := ["fromByteArray", "Uint8Array", "request"]

  /** The first of `names` that `scope` does not declare. */
  function FirstUndeclared(names: seq<string>, scope: set<string>): (r: Option<string>)
    ensures r.None? <==> forall i :: 0 <= i < |names| ==> names[i] in scope
    ensures r.Some? ==> exists i :: 0 <= i < |names| && names[i] == r.value && r.value !in scope
                          && forall j :: 0 <= j < i ==> names[j] in scope
  {
    if names == [] then None
    else if names[0] !in scope then Some(names[0])
    else
      var r := FirstUndeclared(names[1..], scope);
      assert forall i :: 1 <= i < |names| ==> names[i] == names[1..][i - 1];
      r
  }

  /**
   * Evaluating the envelope template whose substitution reads `names` in
   * `scope`: reading an undeclared identifier throws a `ReferenceError`
   * naming the first such identifier read, before any text is made; otherwise the result is the fixed
   * text around `substitution`, the string the substitution yields.
   */
  function EvalEnvelope(names: seq<string>, scope: set<string>, substitution: string): (r: Result<string, JsError>)
    ensures r.Failure? <==> exists i :: 0 <= i < |names| && names[i] !in scope
    ensures r.Failure? ==> exists i :: 0 <= i < |names| && names[i] !in scope && r.error == ReferenceError(names[i])
    ensures r.Failure? ==> FirstUndeclared(names, scope).Some? && r.error == ReferenceError(FirstUndeclared(names, scope).value)
    ensures r.Success? ==> |r.value| == |EnvelopeHead| + |substitution| + |EnvelopeTail|
                           && r.value[..|EnvelopeHead|] == EnvelopeHead
                           && r.value[|EnvelopeHead|..|r.value| - |EnvelopeTail|] == substitution
                           && r.value[|r.value| - |EnvelopeTail|..] == EnvelopeTail
    ensures r.Success? ==> EnvelopeChallenge(r.value) == Base64.Decode(substitution)
  {
    match FirstUndeclared(names, scope)
    case Some(name) => Failure(ReferenceError(name))
    case None =>
      var t := EnvelopeHead + substitution + EnvelopeTail;
      assert t[..|EnvelopeHead|] == EnvelopeHead;
      assert t[|EnvelopeHead|..|t| - |EnvelopeTail|] == substitution;
      assert t[|t| - |EnvelopeTail|..] == EnvelopeTail;
      Success(t)
  }

  /**
   * As written, the template throws a `ReferenceError` for `response`,
   * whatever the substitution would have yielded; `toByteArray` itself is
   * declared. `response` is the only undeclared name the template reads:
   * with it in scope, no name lookup fails (whether `toByteArray` would
   * then throw on the body is another matter, outside this evaluation).
   */
  lemma AsWrittenThrows(substitution: string)
    ensures EvalEnvelope(AsWrittenReads, PlayReadyScope, substitution) == Failure(ReferenceError("response"))
    ensures EvalEnvelope(AsWrittenReads, PlayReadyScope + {"response"}, substitution).Success?
  {
    assert "toByteArray" in PlayReadyScope;
    assert "response" !in PlayReadyScope;
    assert FirstUndeclared(AsWrittenReads[1..], PlayReadyScope) == Some("response");
    assert FirstUndeclared(AsWrittenReads, PlayReadyScope + {"response"}) == None;
  }

  /** The intended substitution reads only declared names, so the template yields exactly `PlayReadyEnvelope`. */
  lemma IntendedEvaluates(challenge: seq<Byte>)
    ensures EvalEnvelope(IntendedReads, PlayReadyScope, Base64.Encode(challenge)) == Success(PlayReadyEnvelope(challenge))
  {
    assert FirstUndeclared(IntendedReads, PlayReadyScope) == None;
  }

  /** The body after the `try`: the envelope when the template evaluated, otherwise, the error being only logged, the body as it was. */
  function BodyAfterTry(wrapped: Result<string, JsError>, body: Body): (b: Body)
    ensures wrapped.Success? ==> b == Text(wrapped.value)
    ensures wrapped.Failure? ==> b == body
  {
    match wrapped
    case Success(text) => Text(text)
    case Failure(_) => body
  }

  /**
   * `buildPlayReadyRequest` as written: the template throws before the body
   * is assigned and the `catch` only logs, so the body stays as it was; the
   * headers are replaced by exactly the three PlayReady headers; the same
   * request object is returned.
   */
  method BuildPlayReadyRequest(customerId: Option<string>, deviceId: Option<string>, request: Request) returns (r: Request)
    modifies request
    ensures r == request
    ensures request.body == old(request.body)
    ensures request.headers == PlayReadyHeaders(customerId, deviceId)
    ensures request.allowCrossSiteCredentials == old(request.allowCrossSiteCredentials)
  {
    // The substitution's text is never made: the evaluation throws first.
    AsWrittenThrows("");
    var wrapped := EvalEnvelope(AsWrittenReads, PlayReadyScope, "");
    request.body := BodyAfterTry(wrapped, request.body);
    request.headers := PlayReadyHeaders(customerId, deviceId);
    r := request;
  }

  /** The envelope text before the challenge. */
  const EnvelopeHead: string :=
    "<?xml version=\"1.0\" encoding=\"utf-8\"?>\n"
    + "            <soap:Envelope xmlns:xsi=\"http://www.w3.org/2001/XMLSchema-instance\" xmlns:xsd=\"http://www.w3.org/2001/XMLSchema\" xmlns:soap=\"http://schemas.xmlsoap.org/soap/envelope/\">\n"
    + "                <soap:Body>\n"
    + "                    <AcquireLicense xmlns=\"http://schemas.microsoft.com/DRM/2007/03/protocols\">\n"
    + "                        <challenge>"

  /** The envelope text after the challenge. */
  const EnvelopeTail: string :=
    "</challenge>\n"
    + "                    </AcquireLicense>\n"
    + "                </soap:Body>\n"
    + "            </soap:Envelope>"

  /** The envelope the template evidently means: the challenge bytes in base64 inside `<challenge>`. */
  function PlayReadyEnvelope(challenge: seq<Byte>): string {
    EnvelopeHead + Base64.Encode(challenge) + EnvelopeTail
  }

  /** A license server's reading of an envelope: the bytes whose base64 sits between the fixed head and tail. */
  function EnvelopeChallenge(envelope: string): Option<seq<Byte>> {
    if |envelope| >= |EnvelopeHead| + |EnvelopeTail|
       && envelope[..|EnvelopeHead|] == EnvelopeHead
       && envelope[|envelope| - |EnvelopeTail|..] == EnvelopeTail
    then Base64.Decode(envelope[|EnvelopeHead|..|envelope| - |EnvelopeTail|])
    else None
  }

  /** What a SOAP license server reads as the challenge: only a text body holding an envelope carries one. */
  function ServerChallenge(body: Body): Option<seq<Byte>> {
    if body.Text? then EnvelopeChallenge(body.text) else None
  }

  /**
   * The PlayReady request for the challenge `[1, 2, 3]`, built as written
   * and as corrected: as written the body is still the raw challenge, from
   * which a SOAP server reads no challenge; corrected, the server reads
   * back `[1, 2, 3]`.
   */
  method LostChallengeExample() returns (asWritten: Body, corrected: Body)
    ensures asWritten == Binary([1, 2, 3]) && ServerChallenge(asWritten) == None
    ensures corrected == Text(PlayReadyEnvelope([1, 2, 3])) && ServerChallenge(corrected) == Some([1, 2, 3])
  {
    var request := new Request(Binary([1, 2, 3]), map[], true);
    var built := BuildPlayReadyRequest(None, None, request);
    asWritten := built.body;
    var request' := new Request(Binary([1, 2, 3]), map[], true);
    var built' := BuildPlayReadyRequestCorrected(None, None, request');
    corrected := built'.body;
  }

  /** The corrected envelope carries exactly the challenge: reading it back gives the original bytes. */
  lemma EnvelopeChallengeRoundTrip(challenge: seq<Byte>)
    ensures EnvelopeChallenge(PlayReadyEnvelope(challenge)) == Some(challenge)
  {
    var e := PlayReadyEnvelope(challenge);
    var b := Base64.Encode(challenge);
    assert e[..|EnvelopeHead|] == EnvelopeHead;
    assert e[|e| - |EnvelopeTail|..] == EnvelopeTail;
    assert e[|EnvelopeHead|..|e| - |EnvelopeTail|] == b;
    Base64.DecodeEncode(challenge);
  }

  /**
   * `buildPlayReadyRequest` with the template corrected: the body becomes the
   * envelope holding the base64 of the challenge; headers as before.
   */
  method BuildPlayReadyRequestCorrected(customerId: Option<string>, deviceId: Option<string>, request: Request) returns (r: Request)
    requires request.body.Binary?
    modifies request
    ensures r == request
    ensures request.body == Text(PlayReadyEnvelope(old(request.body).bytes))
    ensures ServerChallenge(request.body) == Some(old(request.body).bytes)
    ensures request.headers == PlayReadyHeaders(customerId, deviceId)
    ensures request.allowCrossSiteCredentials == old(request.allowCrossSiteCredentials)
  {
    var challenge := request.body.bytes;
    EnvelopeChallengeRoundTrip(challenge);
    IntendedEvaluates(challenge);
    var wrapped := EvalEnvelope(IntendedReads, PlayReadyScope, Base64.Encode(challenge));
    request.body := BodyAfterTry(wrapped, request.body);
    request.headers := PlayReadyHeaders(customerId, deviceId);
    r := request;
  }

  // ---------------------------------------------------------------- Widevine response

  /** What `handleWidevineResponse` makes of a reply body. */
  datatype LicenseOutcome =
    | NotJson                       // the text does not parse: the reply passes through
    | Unwrapped(data: seq<Byte>)    // the raw license replaces the reply
    | Thrown(error: JsError)        // reading or decoding `license` throws

  /** `responseJson.license`: `None` for `undefined`; reading a property of `null` throws. */
  function LicenseProperty(j: Json): (r: Result<Option<Json>, JsError>)
    ensures r.Failure? <==> j.JNull?
    ensures r.Failure? ==> r.error == TypeError
    ensures r.Success? ==> (r.value.Some? <==> j.JObject? && exists i :: 0 <= i < |j.members| && j.members[i].key == "license")
  {
    match j
    case JNull => Failure(TypeError)
    case JObject(ms) => Success(Get(ms, "license"))
    case _ => Success(None)
  }

  /** `toByteArray(v)`: the bytes of a base64 string; anything else throws. */
  function ToByteArray(v: Option<Json>): (r: Result<seq<Byte>, JsError>)
    ensures r.Success? <==> v.Some? && v.value.JString? && Base64.Decode(v.value.s).Some?
    ensures r.Success? ==> Base64.Encode(r.value) == v.value.s
  {
    if v.Some? && v.value.JString? then
      var b := Base64.Decode(v.value.s);
      if b.Some? then
        Base64.DecodeIff(b.value, v.value.s);
        Success(b.value)
      else Failure(InvalidBase64)
    else Failure(TypeError)
  }

  /** The reply read one character per byte, parsed, and its `license` base64-decoded. */
  function WidevineLicense(data: seq<Byte>): (r: LicenseOutcome)
    ensures r.NotJson? <==> Parse(Latin1Decode(data)).None?
    ensures r.Unwrapped? ==>
      var j := Parse(Latin1Decode(data)).value;
      j.JObject? && Get(j.members, "license") == Some(JString(Base64.Encode(r.data)))
  {
    var responseJson := Parse(Latin1Decode(data));
    if responseJson.None? then NotJson
    else
      var property := LicenseProperty(responseJson.value);
      if property.Failure? then Thrown(property.error)
      else
        var decoded := ToByteArray(property.value);
        if decoded.Failure? then Thrown(decoded.error) else Unwrapped(decoded.value)
  }

  /** A reply yields license `l` exactly when it parses to an object whose `license` is the base64 of `l`. */
  lemma WidevineLicenseUnwrapped(data: seq<Byte>, l: seq<Byte>)
    ensures var j := Parse(Latin1Decode(data));
      WidevineLicense(data) == Unwrapped(l) <==>
        j.Some? && j.value.JObject? && Get(j.value.members, "license") == Some(JString(Base64.Encode(l)))
  {
    var j := Parse(Latin1Decode(data));
    if j.Some? && j.value.JObject? && Get(j.value.members, "license") == Some(JString(Base64.Encode(l))) {
      Base64.DecodeEncode(l);
      assert ToByteArray(Get(j.value.members, "license")) == Success(l);
    }
  }

  /** A reply that parses throws exactly when it holds no `license` string that decodes as base64. */
  lemma WidevineLicenseThrown(data: seq<Byte>)
    ensures var j := Parse(Latin1Decode(data));
      WidevineLicense(data).Thrown? <==>
        j.Some? && !(j.value.JObject? && ToByteArray(Get(j.value.members, "license")).Success?)
  {
  }


  /** Characters `JSON.stringify` writes as they are. */
  predicate Plain(c: char) {
    c != '"' && c != '\\' && (c as int) >= 0x20
  }

  lemma {:induction false} EscapePlain(s: string)
    requires forall i :: 0 <= i < |s| ==> Plain(s[i])
    ensures EscapeString(s) == s
    decreases |s|
  {
    if s != [] {
      EscapePlain(s[1..]);
      assert [s[0]] + s[1..] == s;
    }
  }

  /** The reply a Widevine license proxy sends: `{"license": <base64 of the license>}`. */
  function LicenseReply(license: seq<Byte>): Json {
    JObject([Member("license", JString(Base64.Encode(license)))])
  }

  /** ASCII text checked one character at a time, so that literals can be evaluated. */
  predicate AsciiChars(s: string)
    decreases |s|
  {
    s == [] || ((s[0] as int) < 128 && AsciiChars(s[1..]))
  }

  lemma {:induction false} AsciiCharsAscii(s: string)
    requires AsciiChars(s)
    ensures IsAscii(s)
    decreases |s|
  {
    if s != [] {
      AsciiCharsAscii(s[1..]);
      assert forall i :: 1 <= i < |s| ==> s[i] == s[1..][i - 1];
    }
  }

  lemma AsciiJoin(a: string, b: string)
    requires IsAscii(a) && IsAscii(b)
    ensures IsAscii(a + b)
  {
    var t := a + b;
    forall i | 0 <= i < |t|
      ensures t[i] as int < 128
    {
      if i < |a| {
        assert t[i] == a[i];
      } else {
        assert t[i] == b[i - |a|];
      }
    }
  }

  lemma InAlphabetPlain(c: char)
    requires Base64.InAlphabet(c)
    ensures Plain(c)
  {
  }

  /** Text needing no escaping, checked one character at a time, so that literals can be evaluated. */
  predicate PlainText(s: string)
    decreases |s|
  {
    s == [] || (Plain(s[0]) && PlainText(s[1..]))
  }

  lemma {:induction false} PlainTextEscape(s: string)
    requires PlainText(s)
    ensures EscapeString(s) == s
    decreases |s|
  {
    if s != [] {
      PlainTextEscape(s[1..]);
      assert [s[0]] + s[1..] == s;
    }
  }

  lemma QuoteLicense()
    ensures Quote("license") == "\"license\""
  {
    assert PlainText("license");
    PlainTextEscape("license");
  }



  /** A one-member object whose value needs no escaping, as JSON text. */
  lemma LicenseReplySerialized(e: string)
    requires forall i :: 0 <= i < |e| ==> Plain(e[i])
    ensures Serialize(JObject([Member("license", JString(e))])) == "{" + "\"license\"" + ":" + "\"" + e + "\"" + "}"
  {
    var ms := [Member("license", JString(e))];
    var key := Quote("license");
    var value := Quote(e);
    assert SerializeMembers(ms) == key + ":" + value;
    assert Serialize(JObject(ms)) == "{" + (key + ":" + value) + "}";
    EscapePlain(e);
    assert value == "\"" + e + "\"";
    QuoteLicense();
    Regroup("{", key, ":", "\"", e, "\"", "}");
  }

  /** Joining seven strings does not depend on the grouping. */
  lemma Regroup(a: string, b: string, c: string, d: string, e: string, f: string, g: string)
    ensures a + (b + c + (d + e + f)) + g == a + b + c + d + e + f + g
  {
  }

  /** Base64 text needs no escaping in a JSON string and is ASCII. */
  lemma EncodePlain(license: seq<Byte>)
    ensures forall i :: 0 <= i < |Base64.Encode(license)| ==> Plain(Base64.Encode(license)[i])
    ensures IsAscii(Base64.Encode(license))
  {
    var e := Base64.Encode(license);
    Base64.EncodeInAlphabet(license);
    forall i | 0 <= i < |e|
      ensures Plain(e[i])
    {
      InAlphabetPlain(e[i]);
    }
  }

  /** The reply text is ASCII whenever the license's text is. */
  lemma LicenseTextAscii(e: string)
    requires IsAscii(e)
    ensures IsAscii("{" + "\"license\"" + ":" + "\"" + e + "\"" + "}")
  {
    assert AsciiChars("\"license\"");
    AsciiCharsAscii("\"license\"");
    AsciiJoin("{", "\"license\"");
    AsciiJoin("{" + "\"license\"", ":");
    AsciiJoin("{" + "\"license\"" + ":", "\"");
    AsciiJoin("{" + "\"license\"" + ":" + "\"", e);
    AsciiJoin("{" + "\"license\"" + ":" + "\"" + e, "\"");
    AsciiJoin("{" + "\"license\"" + ":" + "\"" + e + "\"", "}");
  }

  /** The JSON text of a license reply is ASCII: the key, the punctuation and the base64 alphabet. */
  lemma LicenseReplyText(license: seq<Byte>)
    ensures Serialize(LicenseReply(license)) == "{" + "\"license\"" + ":" + "\"" + Base64.Encode(license) + "\"" + "}"
    ensures IsAscii(Serialize(LicenseReply(license)))
  {
    EncodePlain(license);
    LicenseReplySerialized(Base64.Encode(license));
    LicenseTextAscii(Base64.Encode(license));
  }

  /** A license reply sent as UTF-8 JSON is unwrapped into exactly the license bytes. */
  lemma WidevineLicenseRoundTrip(license: seq<Byte>)
    ensures WidevineLicense(Utf8.Encode(Serialize(LicenseReply(license)))) == Unwrapped(license)
  {
    var j := LicenseReply(license);
    var text := Serialize(j);
    LicenseReplyText(license);
    Utf8.EncodeAscii(text);
    Latin1RoundTrip([], text);
    assert WellFormed(j);
    JsonRoundTrip.ParseSerialize(j);
    Base64.DecodeEncode(license);
  }

  /**
   * `handleWidevineResponse`: a reply that is not JSON is returned as it is;
   * otherwise `data` becomes the decoded license, or the exception propagates
   * and `data` is untouched.
   */
  method HandleWidevineResponse(response: Response) returns (r: Result<Response, JsError>)
    modifies response
    ensures match WidevineLicense(old(response.data))
      case NotJson => r == Success(response) && response.data == old(response.data)
      case Unwrapped(l) => r == Success(response) && response.data == l
      case Thrown(e) => r == Failure(e) && response.data == old(response.data)
  {
    var responseString := Latin1Decode(response.data);
    var responseJson := Parse(responseString);
    if responseJson.None? {
      return Success(response);
    }
    var rawLicenseBase64 := LicenseProperty(responseJson.value);
    if rawLicenseBase64.Failure? {
      return Failure(rawLicenseBase64.error);
    }
    var decoded := ToByteArray(rawLicenseBase64.value);
    if decoded.Failure? {
      return Failure(decoded.error);
    }
    response.data := decoded.value;
    r := Success(response);
  }

  /** `handlePlayReadyResponse`: the reply is handed on untouched. */
  method HandlePlayReadyResponse(response: Response) returns (r: Response)
    ensures r == response && r.data == response.data
  {
    r := response;
  }
}
