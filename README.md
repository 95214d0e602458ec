# DRM license handling of react-native-video (web player) and the Android bitrate cap

This project models, in Dafny, the DRM core of the web `Video` component of
react-native-video on Shaka Player, together with ExoPlayer's bitrate-capped
track selection on Android:

- **License envelopes** (`LicenseHelper`). A Widevine license challenge is
  wrapped for a Latens proxy in several layers. The challenge's base64 goes,
  with a registration record, into a JSON object. That JSON is UTF-8 encoded,
  and those bytes are base64 encoded again. A PlayReady request gets the
  registration as a header and should get a SOAP `AcquireLicense` envelope.
  A Widevine reply `{"license": <base64>}` is unwrapped back into raw
  license bytes.
- **The codecs underneath.** Base64 follows section 4 of RFC 4648 (`Base64`).
  UTF-8 follows section 3 of RFC 3629 (`Utf8`). JSON text follows RFC 8259
  (`Json`), concretely: a value type, the canonical text `JSON.stringify`
  writes, and a parser. Round trips are proved for all three, in `Base64`,
  `Utf8` and `JsonRoundTrip`. One-character-per-byte decoding is in `Bytes`.
- **The `Video` component** (`Video`). Its key robustness starts at
  `HW_SECURE_ALL` and is lowered once to `SW_SECURE_CRYPTO` when the browser
  rejects the key system (Shaka error 6001). Loads interrupted by a new
  stream (7000 and 7001) are swallowed, and every other error goes to the
  `onError` prop. The component also has license request and response
  filters and `arrayBufferToBase64`. The class keeps a history of
  configure-and-load rounds and of error reports. `initPlayer` is a loop
  proved against the function `InitRun`.
- **`buildDefaultShakaConfig`** (`VideoConfig`): the default Shaka
  configuration for a DRM type, a license URL and a robustness.
- **`LimitTrackSelection`**: a track is selectable only if its bitrate is at
  most 2 800 000 bit/s and its speed-scaled bitrate fits the bandwidth.

Shaka's networking engine objects are in `ShakaNet`: the request type, and the
request and response objects that the filters change in place. JavaScript
`undefined` is `None` throughout. A property whose value is `undefined` is
left out of the JSON text, as `JSON.stringify` does.

## Model

| member | source | states |
|---|---|---|
| Bytes.Latin1Decode | web/LicenseHelper.js:75-78 | `String.fromCharCode.apply(String, new Uint8Array(data))`: one character per byte, whose code is the byte |
| Base64.Encode | web/LicenseHelper.js:25 | `fromByteArray`: the RFC 4648 encoding, four characters for every three bytes or part of them |
| Base64.Decode | web/LicenseHelper.js:90 | `toByteArray`, strict: canonical base64 only, whose length is a multiple of four |
| Utf8.Encode | web/LicenseHelper.js:27 | `new TextEncoder().encode(s)`: the UTF-8 bytes of the string, at least one per character |
| Json.Serialize | web/LicenseHelper.js:26 | definition: `JSON.stringify`'s text of a value, with no whitespace and the members in order |
| Json.Parse | web/LicenseHelper.js:81 | definition: `JSON.parse`, one value with whitespace around it and nothing else, `None` where it throws |
| Bytes.Latin1RoundTrip | web/LicenseHelper.js:75-78 | reading bytes as one character each and writing the characters back as bytes gives the same bytes, and the reverse for byte-valued text |
| Base64.DecodeEncode | web/LicenseHelper.js:25 | base64-decoding the base64 of any byte sequence gives exactly that sequence |
| Base64.EncodeDecode | web/LicenseHelper.js:90 | any text the strict decoder accepts is the base64 of what it decodes to |
| Base64.DecodeIff | web/LicenseHelper.js:90 | text `s` decodes to bytes `b` if and only if `s` is the base64 of `b` |
| Base64.EncodeInAlphabet | web/LicenseHelper.js:27 | base64 text is made only of the 64 alphabet characters and `=`, all ASCII |
| Utf8.DecodeEncode | web/LicenseHelper.js:27 | UTF-8-decoding the `TextEncoder` bytes of any string gives that string |
| Utf8.EncodeDecode | web/LicenseHelper.js:27 | any byte sequence the decoder accepts is the UTF-8 of what it decodes to |
| Utf8.EncodeAscii | web/LicenseHelper.js:27 | the UTF-8 of ASCII text is one byte per character, equal to its code |
| Utf8.AsciiDecode | web/LicenseHelper.js:75-78 | on ASCII bytes, UTF-8 decoding and one-character-per-byte decoding agree |
| Json.Get | web/LicenseHelper.js:87 | a property lookup finds a value exactly when some member has that key |
| Json.GetLastWins | web/LicenseHelper.js:87 | the value found is that of a member with the key after which no member has the key: the last duplicate wins |
| JsonRoundTrip.ParseSerialize | web/LicenseHelper.js:26 | parsing the `JSON.stringify` text of any well-formed value gives back that value |
| Json.LoneSurrogateRead | web/LicenseHelper.js:81 | `JSON.parse` accepts a `\u` escape of a surrogate without its partner, read as U+FFFD, and goes on parsing after it |
| Json.LoneHighSurrogate | web/LicenseHelper.js:81 | the text `"\uD800"` parses, to a one-character string |
| LicenseHelper.Registration | web/LicenseHelper.js:7-23 | definition: the `LatensRegistration` object, its members in the source's order, an undefined id leaving its key out |
| LicenseHelper.WidevineEnvelope | web/LicenseHelper.js:6-25 | definition: the `wrapped` object, the registration with the Widevine vendor, then `Payload` holding the challenge's base64 |
| LicenseHelper.Cdata | web/LicenseHelper.js:32-50 | definition: the `cdata` object, the registration with the PlayReady vendor alone |
| LicenseHelper.RegistrationWellFormed | web/LicenseHelper.js:7-23 | the registration object is a well-formed JSON value for any ids |
| LicenseHelper.RegistrationIds | web/LicenseHelper.js:8-10 | `CustomerName` holds the customer id and `PortalId` the device id, and each key is absent when its id is undefined |
| LicenseHelper.RegistrationConstants | web/LicenseHelper.js:9-12 | `AccountName` is `PlayReadyAccount`, `FriendlyName` is `ShakaPlayer`, and `DeviceInfo` is the device record of the vendor |
| LicenseHelper.DeviceInfoVendor | web/LicenseHelper.js:12-22 | the device record names the vendor's DRM provider, version and type |
| LicenseHelper.EncodeJson | web/LicenseHelper.js:26-27 | definition: `fromByteArray(new TextEncoder().encode(JSON.stringify(j)))`, as also at line 51 |
| LicenseHelper.DecodeEncodeJson | web/LicenseHelper.js:26-27 | base64-decoding, UTF-8-decoding and parsing the text of a well-formed JSON value gives that value |
| LicenseHelper.UnwrapWidevineRequest | web/LicenseHelper.js:24-27 | a server unwrapping the new Widevine body finds the registration (Google, 1.4.8.86, Widevine) and exactly the original challenge bytes |
| LicenseHelper.BuildWidevineRequest | web/LicenseHelper.js:4-29 | cross-site credentials are forbidden, the headers are untouched, the body becomes base64(UTF-8(JSON(wrapped))), and the same request is returned |
| LicenseHelper.PlayReadyHeaders | web/LicenseHelper.js:66-70 | exactly three headers are set: the cdata, the XML content type and the AcquireLicense SOAP action |
| LicenseHelper.PlayReadyCdata | web/LicenseHelper.js:32-51 | the `x-titanium-drm-cdata` header decodes back to the cdata, whose registration names Microsoft, 3, Playready |
| LicenseHelper.FirstUndeclared | web/LicenseHelper.js:58 | the name found is one of those read and undeclared, with every name before it declared; no name is found exactly when all are declared |
| LicenseHelper.EvalEnvelope | web/LicenseHelper.js:53-61 | the template throws exactly when it reads an undeclared name, and then a ReferenceError naming one; otherwise the text starts with the fixed head, ends with the fixed tail, holds the substitution between them, and a SOAP server reads from it the bytes the substitution decodes to |
| LicenseHelper.BodyAfterTry | web/LicenseHelper.js:52-65 | definition: the body becomes the envelope text when the template evaluated, and is left as it was when it threw, the error being only logged |
| LicenseHelper.AsWrittenThrows | web/LicenseHelper.js:31-58 | in the scope of `buildPlayReadyRequest` the template throws a ReferenceError for `response`, whatever the substitution would yield, and `response` is the only undeclared name it reads: with it in scope, no name lookup fails |
| LicenseHelper.IntendedEvaluates | web/LicenseHelper.js:31-61 | with `fromByteArray(new Uint8Array(request.body))` substituted, the template evaluates in that scope to the envelope around the challenge's base64 |
| LicenseHelper.BuildPlayReadyRequest | web/LicenseHelper.js:31-72 | the template's ReferenceError is caught, so the body is unchanged; the headers are replaced by exactly the three PlayReady headers; the same request is returned |
| LicenseHelper.LostChallengeExample | web/LicenseHelper.js:31-72 | building the request for the challenge `[1, 2, 3]` as written leaves the raw bytes as the body, from which a SOAP server reads no challenge; built as corrected, the server reads back `[1, 2, 3]` |
| LicenseHelper.EnvelopeChallengeRoundTrip | web/LicenseHelper.js:53-61 | a server reading the corrected envelope finds exactly the original challenge |
| LicenseHelper.BuildPlayReadyRequestCorrected | web/LicenseHelper.js:31-72 | with the template corrected, the body is the envelope that carries the challenge, and the headers are as before |
| LicenseHelper.LicenseProperty | web/LicenseHelper.js:87 | `responseJson.license` throws a TypeError exactly on `null`, and otherwise is defined exactly when the parsed object has a `license` member |
| LicenseHelper.ToByteArray | web/LicenseHelper.js:90 | `toByteArray` succeeds exactly on a base64 string, and the result is what that string encodes |
| LicenseHelper.WidevineLicense | web/LicenseHelper.js:74-90 | the reply passes through exactly when its per-byte text does not parse; an unwrapped license is the one whose base64 is the object's `license` |
| LicenseHelper.WidevineLicenseUnwrapped | web/LicenseHelper.js:81-90 | the reply yields license `l` if and only if it parses to an object whose `license` is the base64 of `l` |
| LicenseHelper.WidevineLicenseThrown | web/LicenseHelper.js:87-90 | a reply throws if and only if it parses but has no `license` string that decodes |
| LicenseHelper.LicenseReplyText | web/LicenseHelper.js:75-81 | the JSON text of a license reply is `{"license":"<base64>"}` and is all ASCII, so the per-byte reading is exact |
| LicenseHelper.WidevineLicenseRoundTrip | web/LicenseHelper.js:74-92 | a proxy reply `{"license": base64(l)}`, sent as UTF-8, is unwrapped into exactly `l` |
| LicenseHelper.HandleWidevineResponse | web/LicenseHelper.js:74-92 | a non-JSON reply is returned unchanged; otherwise `data` becomes the decoded license, or the error propagates and `data` is kept |
| LicenseHelper.HandlePlayReadyResponse | web/LicenseHelper.js:94-96 | the response is returned unchanged |
| VideoConfig.KeySystem | web/Video.config.js:38-61 | only `playready` and `widevine` select a key system, each its own |
| VideoConfig.BuildDefaultShakaConfig | web/Video.config.js:1-37 | the abr, streaming and manifest sections are the same for every input, and the rebuffering goal is at most the buffering goal |
| VideoConfig.DrmSection | web/Video.config.js:30-61 | the DRM type selects one key system; `servers` maps it to the license URL and `advanced` to persistent state with the robustness twice; other types leave `drm` empty |
| VideoConfig.SameKeySystems | web/Video.config.js:38-61 | `servers` and `advanced` are both set or both unset, and they name the same single key system |
| VideoConfig.AdvancedRobustness | web/Video.config.js:42-60 | every advanced entry requires persistent state and has video and audio robustness both equal to the robustness argument |
| VideoConfig.Defaults | web/Video.config.js:1 | omitting the DRM type and the robustness means `playready` and `HW_SECURE_ALL` |
| Video.OnLoadError | web/Video.js:388-399 | a retry happens exactly on 6001 when the robustness is not yet the lowest; a suppress happens exactly on 7000 and 7001 |
| Video.DrmOf | web/Video.js:257 | definition: the `drm` prop, or `{}` when it is absent, every property of which is undefined |
| Video.ErrorJson | web/Video.js:374-375 | definition: `JSON.stringify` of a JavaScript `Error`, `{}`, since it has no enumerable own properties |
| Video.PlayerConfig | web/Video.js:261-309 | definition: the inline configuration, Widevine's license server and the current robustness for video and audio |
| Video.InitRun | web/Video.js:246-405 | definition: one call of `initPlayer` on a non-empty URI, its rounds, the robustness it leaves and the error its outer `catch` reports |
| Video.PlayerConfigIsDefault | web/Video.js:261-309 | the inline configuration equals `buildDefaultShakaConfig` for Widevine, and both robustness fields are the current robustness |
| Video.InitRunRounds | web/Video.js:381-400 | one `initPlayer` call loads once, or twice exactly after a 6001 while the robustness is not yet the lowest; the second round asks for the lowest robustness; every round loads the same URI |
| Video.LowestNeverRetries | web/Video.js:389-393 | starting at the lowest robustness, a call loads once and keeps that robustness |
| Video.InitRunThrows | web/Video.js:394-404 | a call throws to its outer `catch` exactly when its last load is rejected with an error that is neither retried nor swallowed, and it throws that error |
| Video.Btoa | web/Video.js:203 | `btoa` accepts exactly the strings of byte-valued characters |
| Video.Video.constructor | web/Video.js:14-18 | the robustness starts at `HW_SECURE_ALL`, with no reports, no rounds and no filters |
| Video.Video.Reported | web/Video.js:88-99 | the report (title, the error's JSON, the code) reaches the `onError` prop only when there is one |
| Video.Video.ReportedThrown | web/Video.js:401-404 | definition: what the outer `catch` of `initPlayer` reports, the thrown error's JSON text with no code, and nothing when nothing was thrown |
| Video.Video.OnError | web/Video.js:88-99 | one report is appended exactly when an `onError` prop is given, and nothing else changes |
| Video.Video.InitPlayer | web/Video.js:246-405 | an empty URI changes nothing; otherwise the rounds, the final robustness and the single report with null code are those of `InitRun`, and the robustness is lowered at most once in a lifetime |
| Video.Video.ReloadSource | web/Video.js:407-411 | reloading is `initPlayer` again: an empty or missing URI changes nothing, otherwise the state is InitRun's from the current robustness, and a robustness already at the lowest stays there |
| Video.Video.ShutdownPlayer | web/Video.js:233-244 | with a player, both filters are cleared so none closes over a `drm`; without one nothing changes; robustness, rounds and reports are kept |
| Video.Video.RequestFilter | web/Video.js:315-347 | a license request is wrapped exactly as `buildWidevineRequest` wraps it, with the source's ids; any other request is untouched |
| Video.Video.ResponseFilter | web/Video.js:351-378 | a non-JSON license reply passes through; a parsed one has `data` replaced by the license; a failure is reported once with code `TDM_PLAYER_DRM011` instead of thrown; other replies are untouched |
| Video.Video.ArrayBufferToBase64 | web/Video.js:196-204 | one character per byte and then `btoa` gives the section 4 (RFC 4648) base64 of the bytes |
| LimitTrackSelection.IsWithinLimit | android-exoplayer/src/main/java/com/brentvatne/exoplayer/LimitTrackSelection.java:49-51 | definition: `isWithinLimit`, the track bitrate at most 2 800 000 |
| LimitTrackSelection.CanSelectFormat | android-exoplayer/src/main/java/com/brentvatne/exoplayer/LimitTrackSelection.java:53-61 | definition: `canSelectFormat`, the scaled bitrate fits the effective bitrate and the track is within the limit |
| LimitTrackSelection.AboveCapNeverSelected | android-exoplayer/src/main/java/com/brentvatne/exoplayer/LimitTrackSelection.java:49-61 | a track above 2 800 000 bit/s is never selectable, whatever the speed and the bandwidth |
| LimitTrackSelection.WithinCap | android-exoplayer/src/main/java/com/brentvatne/exoplayer/LimitTrackSelection.java:53-61 | within the cap, a format is selectable exactly when its rounded scaled bitrate fits the effective bitrate |
| LimitTrackSelection.MonotoneInBandwidth | android-exoplayer/src/main/java/com/brentvatne/exoplayer/LimitTrackSelection.java:58-60 | a selectable format stays selectable at any higher effective bitrate |
| LimitTrackSelection.MonotoneInBitrate | android-exoplayer/src/main/java/com/brentvatne/exoplayer/LimitTrackSelection.java:49-61 | lowering the track bitrate and the scaled bitrate never makes a selectable format unselectable |
| LimitTrackSelection.FormatIgnored | android-exoplayer/src/main/java/com/brentvatne/exoplayer/LimitTrackSelection.java:54-61 | the answer does not depend on the format |

## Left out

- `toByteArray` of base64-js is modelled by the strict decoder of RFC 4648, which accepts only canonical base64 (padding bits zero, standard alphabet, full padding). The library's code is not part of this model. A license string that is not canonical base64 (`"****"`, or `"AB=="` with nonzero padding bits) makes the model's `toByteArray` throw `InvalidBase64`, so Video.Video.ResponseFilter reports `TDM_PLAYER_DRM011` and keeps the data; where base64-js decodes such a string instead of throwing, the source installs the decoded bytes as the license. On every text that `fromByteArray` produces, the strict decoder returns the encoded bytes (Base64.DecodeEncode).
- LicenseHelper.ToByteArray: a `license` value that is not a string (a number or an object) is modelled as a `TypeError`.
- JavaScript strings are UTF-16 and may hold lone surrogates, which `TextEncoder` writes as U+FFFD. Dafny strings hold Unicode scalar values only, so this case is not representable.
- JSON numbers are kept as their digit strings; the floating-point value, and the way `JSON.stringify` rewrites a parsed number, are not modelled. The parser accepts the grammar of RFC 8259, including a `\u` escape of a lone surrogate, and the round trip is proved for the canonical text.
- LicenseHelper.WidevineLicense: a string in the reply holding a lone surrogate escape is read as U+FFFD, where `JSON.parse` keeps the lone code unit, which a Dafny string cannot hold. Whether the reply is unwrapped, passed through or throws comes out the same, because such a string is never canonical base64.
- LicenseHelper.BuildWidevineRequest and Video.Video.RequestFilter require the license request body to be binary, as Shaka passes it. A body of any other kind is not modelled.
- `JSON.stringify` of a Shaka error object is an input (`PlayerError.json`). `JSON.stringify` of a JavaScript `Error` is `{}`, as `ErrorJson` states.
- Shaka Player itself is not modelled. `configure` and `registerRequestFilter`/`registerResponseFilter` (after `clearAll…Filters`, web/Video.js:314, 350) are recorded as their arguments (`attempts`, `filterDrm`), and the clearing in `shutdownPlayer` as `filterDrm` becoming `None`. `load` is a parameter saying how each round settles. `player.detach` in `shutdownPlayer` is not recorded.
- `buildPlayer` (web/Video.js:206-224) is not modelled: it creates the Shaka player, `attach`es it to the `<video>` element, and calls `initPlayer`, whose own outer `catch` already reports what the load throws.
- The un-awaited re-invocation of `initPlayer` at web/Video.js:392 is modelled as a sequential second round. The asynchronous interleaving with other calls is left out.
- Errors thrown by `configure` or by the networking engine, which reach the outer `catch` of `initPlayer`, are not modelled. Only the load errors are modelled.
- The React lifecycle and the `<video>` element (event listeners, play and pause, seeking, progress timers, `onLoad` payloads, rendering) are out of scope. So are logging (`logMessage`, `console.log`, `Log.d`) and web/PlayerEventListener.js.
- `utf8Encode` and `base64Encode` (web/Video.js:192-194, 419-421) are unused browser idioms and are not modelled.
- LimitTrackSelection.WithinCap: `Math.round(trackBitrate * playbackSpeed)` is float arithmetic. It is an integer input (`scaledBitrate`) of `CanSelectFormat`, because the model has no IEEE floats. The ABR fractions 0.95 and 0.85 are exact reals.
- `buildFactory` and the constructors of `LimitTrackSelection` (LimitTrackSelection.java:18-47) only wire the class into ExoPlayer and are not modelled.
- `String.fromCharCode.apply` on a very large reply can exceed the engine's argument limit and throw. That engine limit is not modelled.
- `reloadSource` (web/Video.js:407-411) does not reset `drmKeyRobustness`, so the robustness is lowered at most once in the component's lifetime, not once per load. `Video.Video.Valid` states this.

## Findings

| source | as written | input that shows it | evidently intended | confidence | as-written member | corrected member |
|---|---|---|---|---|---|---|
| web/LicenseHelper.js:58 | the envelope interpolates `toByteArray(response.body)`; no `response` is in scope there, so the template throws, the `catch` only logs, and the PlayReady request leaves with the SOAP headers but the raw challenge as its body | any PlayReady license request, e.g. the challenge `[1, 2, 3]` | the base64 of the request's challenge, `fromByteArray(new Uint8Array(request.body))` as at line 25, inside `<challenge>` | not executed | LicenseHelper.LostChallengeExample | LicenseHelper.BuildPlayReadyRequestCorrected |
