/**
 * The DRM side of the web `Video` component: the key robustness it asks
 * the browser for, the player initialisation with its one-time robustness
 * downgrade, the license request and response filters it registers with
 * Shaka's networking engine, the error reports it hands to its `onError`
 * prop, and `arrayBufferToBase64`.
 */
module Video {
  import opened Wrappers
  import opened Bytes
  import Base64
  import Utf8
  import Json
  import opened ShakaNet
  import LicenseHelper
  import VideoConfig

  const DefaultKeyRobustness := "HW_SECURE_ALL"
  const LowestKeyRobustness := "SW_SECURE_CRYPTO"
  const DrmErrorCode := "TDM_PLAYER_DRM011"
  const ErrorTitle := "Native player error"

  /** Shaka error codes the load-error handler tests. */
  const RequestedKeySystemConfigUnavailable := 6001
  const LoadInterrupted := 7000
  const OperationAborted := 7001

  /** The `drm` prop of a source; `None` is a missing property. */
  datatype Drm = Drm(customerId: Option<string>, deviceId: Option<string>, licenseUrl: Option<string>)

  /** The `source` prop. */
  datatype Source = Source(uri: Option<string>, drm: Option<Drm>)

  /** `drm || {}`. */
  function DrmOf(source: Source): Drm {
    if source.drm.Some? then source.drm.value else Drm(None, None, None)
  }

  /** A rejection of `player.load`: its `code`, and the text `JSON.stringify` makes of it. */
  datatype PlayerError = PlayerError(code: Option<int>, json: string)

  /** How a `player.load` call settles. */
  datatype LoadOutcome = Loaded | Rejected(error: PlayerError)

  /** The `error` object passed to the `onError` prop. */
  datatype ErrorReport = ErrorReport(title: string, message: string, code: Option<string>)

  /** What the load-error handler does with a rejection. */
  datatype LoadAction = Retry | Suppress | Rethrow

  /**
   * The branch the `catch` around `player.load` takes: retry with the
   * lowest robustness on 6001 unless already there, swallow 7000 and 7001,
   * rethrow everything else.
   */
  function OnLoadError(code: Option<int>, robustness: string): (a: LoadAction)
    ensures a == Retry <==> code == Some(RequestedKeySystemConfigUnavailable) && robustness != LowestKeyRobustness
    ensures a == Suppress <==> code == Some(LoadInterrupted) || code == Some(OperationAborted)
  {
    if code == Some(RequestedKeySystemConfigUnavailable) && robustness != LowestKeyRobustness then Retry
    else if code == Some(LoadInterrupted) || code == Some(OperationAborted) then Suppress
    else Rethrow
  }

  /** `JSON.stringify` of a JavaScript `Error`: it has no enumerable own properties. */
  function ErrorJson(e: LicenseHelper.JsError): string {
    "{}"
  }

  /** The configuration `initPlayer` hands to `player.configure`: Widevine, with the given robustness. */
  function PlayerConfig(licenseUrl: Option<string>, robustness: string): VideoConfig.ShakaConfig {
    VideoConfig.ShakaConfig(
      VideoConfig.AbrConfig(0.95, 0.85, 1200000, true, 10),
      VideoConfig.StreamingConfig(5, 6),
      VideoConfig.DrmConfig(
        Some(map["com.widevine.alpha" := licenseUrl]),
        Some(map["com.widevine.alpha" := VideoConfig.AdvancedDrm(true, robustness, robustness)])),
      VideoConfig.ManifestConfig(VideoConfig.DashConfig(true)))
  }

  /** The inline configuration is `buildDefaultShakaConfig` for Widevine, and both robustness fields are the current one. */
  lemma PlayerConfigIsDefault(licenseUrl: Option<string>, robustness: string)
    ensures PlayerConfig(licenseUrl, robustness)
         == VideoConfig.BuildDefaultShakaConfig(licenseUrl, Some("widevine"), Some(robustness))
    ensures var a := PlayerConfig(licenseUrl, robustness).drm.advanced.value[VideoConfig.WidevineKeySystem];
      a.videoRobustness == robustness && a.audioRobustness == robustness
  {
    VideoConfig.DrmSection(licenseUrl, Some("widevine"), Some(robustness));
  }

  /** One configure-and-load round of `initPlayer`. */
  datatype Attempt = Attempt(config: VideoConfig.ShakaConfig, uri: string)

  /** What a call of `initPlayer` does in all: its rounds, the robustness it leaves, and the error it throws to its outer `catch`. */
  datatype Run = Run(attempts: seq<Attempt>, robustness: string, thrown: Option<PlayerError>)

  /**
   * `initPlayer` on a non-empty URI, as a function of the robustness it
   * starts with and of how each round's `player.load` settles (`load(n)`
   * for round `n`). A retry re-enters with the lowest robustness.
   */
  function InitRun(uri: string, drm: Drm, robustness: string, load: nat -> LoadOutcome, round: nat): Run
    decreases if robustness == LowestKeyRobustness then 0 else 1
  {
    var attempt := Attempt(PlayerConfig(drm.licenseUrl, robustness), uri);
    var outcome := load(round);
    if outcome.Loaded? then Run([attempt], robustness, None)
    else
      var action := OnLoadError(outcome.error.code, robustness);
      if action == Retry then
        var rest := InitRun(uri, drm, LowestKeyRobustness, load, round + 1);
        Run([attempt] + rest.attempts, rest.robustness, rest.thrown)
      else if action == Suppress then Run([attempt], robustness, None)
      else Run([attempt], robustness, Some(outcome.error))
  }

  /**
   * A call of `initPlayer` configures and loads once, or twice when the
   * first load is rejected with 6001 while the robustness is not yet the
   * lowest; the
   * second round asks for the lowest robustness, which is what is left.
   * Every round loads the same URI.
   */
  lemma InitRunRounds(uri: string, drm: Drm, robustness: string, load: nat -> LoadOutcome, round: nat)
    ensures var r := InitRun(uri, drm, robustness, load, round);
      && 1 <= |r.attempts| <= 2
      && (|r.attempts| == 2 <==>
            robustness != LowestKeyRobustness && load(round).Rejected?
            && load(round).error.code == Some(RequestedKeySystemConfigUnavailable))
      && r.attempts[0].config == PlayerConfig(drm.licenseUrl, robustness)
      && (|r.attempts| == 2 ==> r.attempts[1].config == PlayerConfig(drm.licenseUrl, LowestKeyRobustness))
      && (forall i :: 0 <= i < |r.attempts| ==> r.attempts[i].uri == uri)
      && r.robustness == (if |r.attempts| == 2 then LowestKeyRobustness else robustness)
  {
    var outcome := load(round);
    if outcome.Rejected? && OnLoadError(outcome.error.code, robustness) == Retry {
      var rest := InitRun(uri, drm, LowestKeyRobustness, load, round + 1);
      assert |rest.attempts| == 1 && rest.robustness == LowestKeyRobustness;
    }
  }

  /** Once at the lowest robustness, a call never downgrades again: one round, robustness kept. */
  lemma LowestNeverRetries(uri: string, drm: Drm, load: nat -> LoadOutcome, round: nat)
    ensures var r := InitRun(uri, drm, LowestKeyRobustness, load, round);
      |r.attempts| == 1 && r.robustness == LowestKeyRobustness
  {
  }

  /**
   * A call throws to its outer `catch` exactly when its last round is
   * rejected with a code other than 7000 and 7001, and that is not a 6001
   * it could still retry; the thrown error is that rejection.
   */
  lemma InitRunThrows(uri: string, drm: Drm, robustness: string, load: nat -> LoadOutcome, round: nat)
    ensures var r := InitRun(uri, drm, robustness, load, round);
      var last := round + |r.attempts| - 1;
      var before := if |r.attempts| == 2 then LowestKeyRobustness else robustness;
      r.thrown.Some? <==>
        && load(last).Rejected?
        && OnLoadError(load(last).error.code, before) == Rethrow
    ensures var r := InitRun(uri, drm, robustness, load, round);
      r.thrown.Some? ==> r.thrown == Some(load(round + |r.attempts| - 1).error)
  {
    InitRunRounds(uri, drm, robustness, load, round);
    var outcome := load(round);
    if outcome.Rejected? && OnLoadError(outcome.error.code, robustness) == Retry {
      InitRunRounds(uri, drm, LowestKeyRobustness, load, round + 1);
    }
  }

  /** `window.btoa`: the base64 of a string of byte-valued characters; any other character throws. */
  function Btoa(binary: string): (r: Option<string>)
    ensures r.Some? <==> IsBinary(binary)
  {
    if IsBinary(binary) then Some(Base64.Encode(Latin1Encode(binary))) else None
  }

  class Video {
    /** `state.drmKeyRobustness`. */
    var drmKeyRobustness: string
    /** Whether the component was given an `onError` prop. */
    const hasOnError: bool
    /** The argument of every `onError` prop call, oldest first. */
    var errorReports: seq<ErrorReport>
    /** Every configure-and-load round, oldest first. */
    var attempts: seq<Attempt>
    /** The `drm` prop the registered filters closed over; `None` before any filter is registered. */
    var filterDrm: Option<Drm>
    /** How many times the robustness has been lowered. */
    ghost var downgrades: nat

    /** The robustness starts high and is lowered at most once in the component's lifetime. */
    ghost predicate Valid()
      reads this
    {
      || (drmKeyRobustness == DefaultKeyRobustness && downgrades == 0)
      || (drmKeyRobustness == LowestKeyRobustness && downgrades == 1)
    }

    constructor (hasOnError: bool)
      ensures Valid()
      ensures drmKeyRobustness == DefaultKeyRobustness && downgrades == 0
      ensures this.hasOnError == hasOnError
      ensures errorReports == [] && attempts == [] && filterDrm == None
    {
      drmKeyRobustness := DefaultKeyRobustness;
      this.hasOnError := hasOnError;
      errorReports := [];
      attempts := [];
      filterDrm := None;
      downgrades := 0;
    }

    /** The report `onError(error, code)` hands on, if there is a prop to hand it to. */
    function Reported(message: string, code: Option<string>): (r: seq<ErrorReport>)
      reads this
      ensures |r| == (if hasOnError then 1 else 0)
      ensures r != [] ==> r[0].title == ErrorTitle && r[0].message == message && r[0].code == code
    {
      if hasOnError then [ErrorReport(ErrorTitle, message, code)] else []
    }

    /** What the outer `catch` of `initPlayer` reports: the thrown error, with no code. */
    function ReportedThrown(thrown: Option<PlayerError>): seq<ErrorReport>
      reads this
    {
      if thrown.Some? then Reported(thrown.value.json, None) else []
    }

    /** `onError(error, code)`: calls the `onError` prop, if any, with the error's JSON text and the code. */
    method OnError(message: string, code: Option<string>)
      modifies this
      ensures errorReports == old(errorReports) + Reported(message, code)
      ensures drmKeyRobustness == old(drmKeyRobustness) && attempts == old(attempts)
      ensures filterDrm == old(filterDrm) && downgrades == old(downgrades)
    {
      if hasOnError {
        errorReports := errorReports + [ErrorReport(ErrorTitle, message, code)];
      }
    }

    /**
     * `initPlayer(source)`. An empty or missing URI changes nothing.
     * Otherwise each round configures the player with the current
     * robustness, registers the filters over the source's `drm` and loads
     * the URI; on 6001 the robustness is lowered and the call re-enters.
     * An error that is neither retried nor swallowed is reported once,
     * with no code.
     */
    method InitPlayer(source: Source, load: nat -> LoadOutcome)
      requires Valid()
      modifies this
      ensures Valid()
      ensures source.uri.None? || source.uri.value == "" ==>
        && drmKeyRobustness == old(drmKeyRobustness) && downgrades == old(downgrades)
        && attempts == old(attempts) && errorReports == old(errorReports) && filterDrm == old(filterDrm)
      ensures source.uri.Some? && source.uri.value != "" ==>
        var r := InitRun(source.uri.value, DrmOf(source), old(drmKeyRobustness), load, 0);
        && drmKeyRobustness == r.robustness
        && attempts == old(attempts) + r.attempts
        && errorReports == old(errorReports) + ReportedThrown(r.thrown)
        && filterDrm == Some(DrmOf(source))
    {
      if source.uri.None? || source.uri.value == "" {
        return;
      }
      var uri := source.uri.value;
      var drm := DrmOf(source);
      ghost var whole := InitRun(uri, drm, drmKeyRobustness, load, 0);
      ghost var before := attempts;
      var round: nat := 0;
      var done := false;
      while !done
        invariant Valid()
        invariant errorReports == old(errorReports) + (if done then ReportedThrown(whole.thrown) else [])
        invariant done ==> drmKeyRobustness == whole.robustness && attempts == before + whole.attempts
        invariant !done ==>
          var rest := InitRun(uri, drm, drmKeyRobustness, load, round);
          && before + whole.attempts == attempts + rest.attempts
          && whole.robustness == rest.robustness && whole.thrown == rest.thrown
        invariant done ==> filterDrm == Some(drm)
        decreases if done then 0 else if drmKeyRobustness == LowestKeyRobustness then 1 else 2
      {
        var robustness := drmKeyRobustness;
        attempts := attempts + [Attempt(PlayerConfig(drm.licenseUrl, robustness), uri)];
        filterDrm := Some(drm);
        var outcome := load(round);
        if outcome.Loaded? {
          done := true;
        } else {
          var action := OnLoadError(outcome.error.code, robustness);
          if action == Retry {
            drmKeyRobustness := LowestKeyRobustness;
            downgrades := downgrades + 1;
            round := round + 1;
          } else if action == Suppress {
            done := true;
          } else {
            OnError(outcome.error.json, None);
            done := true;
          }
        }
      }
    }

    /** `reloadSource(source)`: `initPlayer` again, without resetting the robustness. */
    method ReloadSource(source: Source, load: nat -> LoadOutcome)
      requires Valid()
      modifies this
      ensures Valid()
      ensures old(drmKeyRobustness) == LowestKeyRobustness ==> drmKeyRobustness == LowestKeyRobustness
      ensures source.uri.None? || source.uri.value == "" ==>
        && drmKeyRobustness == old(drmKeyRobustness) && downgrades == old(downgrades)
        && attempts == old(attempts) && errorReports == old(errorReports) && filterDrm == old(filterDrm)
      ensures source.uri.Some? && source.uri.value != "" ==>
        var r := InitRun(source.uri.value, DrmOf(source), old(drmKeyRobustness), load, 0);
        && drmKeyRobustness == r.robustness
        && attempts == old(attempts) + r.attempts
        && errorReports == old(errorReports) + ReportedThrown(r.thrown)
        && filterDrm == Some(DrmOf(source))
    {
      InitPlayer(source, load);
    }

    /**
     * `shutdownPlayer()`: when a player exists, its request and response
     * filters are cleared, so no registered filter closes over a `drm` any
     * more. Detaching from the `<video>` element is Shaka's and is not
     * recorded. Nothing else changes.
     */
    method ShutdownPlayer(hasPlayer: bool)
      requires Valid()
      modifies this
      ensures Valid()
      ensures filterDrm == (if hasPlayer then None else old(filterDrm))
      ensures drmKeyRobustness == old(drmKeyRobustness) && downgrades == old(downgrades)
      ensures attempts == old(attempts) && errorReports == old(errorReports)
    {
      if hasPlayer {
        filterDrm := None;
      }
    }

    /**
     * The registered request filter: a license request is wrapped for the
     * Widevine proxy exactly as `buildWidevineRequest` does, with the
     * customer and device ids of the source; any other request is left
     * alone.
     */
    method RequestFilter(kind: RequestType, request: Request)
      requires filterDrm.Some?
      requires kind == License ==> request.body.Binary?
      modifies request
      ensures kind != License ==> unchanged(request)
      ensures kind == License ==>
        && request.allowCrossSiteCredentials == false
        && request.headers == old(request.headers)
        && request.body == Text(LicenseHelper.EncodeJson(LicenseHelper.WidevineEnvelope(
             filterDrm.value.customerId, filterDrm.value.deviceId, old(request.body).bytes)))
    {
      if kind == License {
        request.allowCrossSiteCredentials := false;
        var wrapped := LicenseHelper.WidevineEnvelope(filterDrm.value.customerId, filterDrm.value.deviceId, request.body.bytes);
        var wrappedJson := Json.Serialize(wrapped);
        request.body := Text(Base64.Encode(Utf8.Encode(wrappedJson)));
      }
    }

    /**
     * The registered response filter: a license reply that is not JSON
     * passes through, one that is has its `data` replaced by the decoded
     * license, and a failure to read or decode `license` is reported with
     * the DRM error code instead of being thrown. Other replies are left
     * alone.
     */
    method ResponseFilter(kind: RequestType, response: Response)
      modifies this, response
      ensures drmKeyRobustness == old(drmKeyRobustness) && attempts == old(attempts)
      ensures filterDrm == old(filterDrm) && downgrades == old(downgrades)
      ensures kind != License ==> response.data == old(response.data) && errorReports == old(errorReports)
      ensures kind == License ==>
        match LicenseHelper.WidevineLicense(old(response.data))
        case NotJson => response.data == old(response.data) && errorReports == old(errorReports)
        case Unwrapped(l) => response.data == l && errorReports == old(errorReports)
        case Thrown(e) =>
          && response.data == old(response.data)
          && errorReports == old(errorReports) + Reported(ErrorJson(e), Some(DrmErrorCode))
    {
      if kind == License {
        var responseString := Latin1Decode(response.data);
        var responseJson := Json.Parse(responseString);
        if responseJson.None? {
          return;
        }
        var rawLicenseBase64 := LicenseHelper.LicenseProperty(responseJson.value);
        if rawLicenseBase64.Failure? {
          OnError(ErrorJson(rawLicenseBase64.error), Some(DrmErrorCode));
          return;
        }
        var decoded := LicenseHelper.ToByteArray(rawLicenseBase64.value);
        if decoded.Failure? {
          OnError(ErrorJson(decoded.error), Some(DrmErrorCode));
          return;
        }
        response.data := decoded.value;
      }
    }

    /** `arrayBufferToBase64`: one character per byte, in order, then `btoa`; the result is the base64 of the bytes. */
    method ArrayBufferToBase64(buffer: seq<Byte>) returns (s: string)
      ensures s == Base64.Encode(buffer)
    {
      var binary := "";
      var i := 0;
      while i < |buffer|
        invariant 0 <= i <= |buffer|
        invariant binary == Latin1Decode(buffer[..i])
      {
        Latin1DecodeSnoc(buffer[..i], buffer[i]);
        assert buffer[..i + 1] == buffer[..i] + [buffer[i]];
        binary := binary + [buffer[i] as char];
        i := i + 1;
      }
      assert buffer[..i] == buffer;
      Latin1RoundTrip(buffer, "");
      var encoded := Btoa(binary);
      s := encoded.value;
    }
  }
}
