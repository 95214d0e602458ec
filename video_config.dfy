/**
 * `buildDefaultShakaConfig`: the Shaka Player configuration the web player
 * starts from. The adaptation, streaming and manifest sections are fixed;
 * the DRM section names one key system, chosen by the DRM type, with its
 * license server and its key robustness.
 */
module VideoConfig {
  import opened Wrappers

  /** `shaka.extern.AbrConfiguration`: the fields that are set. */
  datatype AbrConfig = AbrConfig(
    bandwidthDowngradeTarget: real,
    bandwidthUpgradeTarget: real,
    defaultBandwidthEstimate: int,
    enabled: bool,
    switchInterval: int)

  /** `shaka.extern.StreamingConfiguration`: the two buffering goals, in seconds. */
  datatype StreamingConfig = StreamingConfig(rebufferingGoal: int, bufferingGoal: int)

  /** `shaka.extern.AdvancedDrmConfiguration`: the fields that are set. */
  datatype AdvancedDrm = AdvancedDrm(persistentStateRequired: bool, videoRobustness: string, audioRobustness: string)

  /**
   * The `drm` section. `None` is a property that was never assigned, so
   * `DrmConfig(None, None)` is the empty object `{}`. A server URL is
   * `None` when `licenseUrl` was `undefined`.
   */
  datatype DrmConfig = DrmConfig(servers: Option<map<string, Option<string>>>, advanced: Option<map<string, AdvancedDrm>>)

  datatype ManifestConfig = ManifestConfig(dash: DashConfig)
  datatype DashConfig = DashConfig(ignoreMinBufferTime: bool)

  datatype ShakaConfig = ShakaConfig(abr: AbrConfig, streaming: StreamingConfig, drm: DrmConfig, manifest: ManifestConfig)

  const PlayReadyKeySystem := "com.microsoft.playready"
  const WidevineKeySystem := "com.widevine.alpha"

  /** The default parameter values of `buildDefaultShakaConfig`. */
  const DefaultDrmType := "playready"
  const DefaultKeyRobustness := "HW_SECURE_ALL"

  const Abr := AbrConfig(0.95, 0.85, 1200000, true, 10)
  const Streaming := StreamingConfig(5, 6)
  const Manifest := ManifestConfig(DashConfig(true))

  /** The key system a DRM type selects, if any. */
  function KeySystem(drmType: string): (k: Option<string>)
    ensures k.Some? <==> drmType == "playready" || drmType == "widevine"
    ensures drmType == "playready" ==> k == Some(PlayReadyKeySystem)
    ensures drmType == "widevine" ==> k == Some(WidevineKeySystem)
  {
    if drmType == "playready" then Some(PlayReadyKeySystem)
    else if drmType == "widevine" then Some(WidevineKeySystem)
    else None
  }

  /** The advanced entry both DRM branches write. */
  function Advanced(robustness: string): AdvancedDrm {
    AdvancedDrm(true, robustness, robustness)
  }

  /**
   * `buildDefaultShakaConfig(licenseUrl, drmType, drmKeyRobustness)`. An
   * argument that is `None` is `undefined` and takes its default. The
   * config starts with an empty `drm`; each of the two `if`s then assigns
   * `servers` and `advanced` for its key system.
   */
  function BuildDefaultShakaConfig(licenseUrl: Option<string>, drmType: Option<string>, drmKeyRobustness: Option<string>): (c: ShakaConfig)
    ensures c.abr == Abr && c.streaming == Streaming && c.manifest == Manifest
    ensures c.streaming.rebufferingGoal <= c.streaming.bufferingGoal
  {
    var drmType := if drmType.Some? then drmType.value else DefaultDrmType;
    var robustness := if drmKeyRobustness.Some? then drmKeyRobustness.value else DefaultKeyRobustness;
    var config := ShakaConfig(Abr, Streaming, DrmConfig(None, None), Manifest);
    var config :=
      if drmType == "playready" then
        config.(drm := config.drm.(
          servers := Some(map[PlayReadyKeySystem := licenseUrl]),
          advanced := Some(map[PlayReadyKeySystem := AdvancedDrm(true, robustness, robustness)])))
      else config;
    var config :=
      if drmType == "widevine" then
        config.(drm := config.drm.(
          servers := Some(map[WidevineKeySystem := licenseUrl]),
          advanced := Some(map[WidevineKeySystem := AdvancedDrm(true, robustness, robustness)])))
      else config;
    config
  }

  /**
   * The DRM section names exactly the key system of the DRM type: one
   * server entry holding the license URL, and under the same key an
   * advanced entry that requires persistent state and copies the
   * robustness into both fields. Any other DRM type leaves `drm` empty.
   */
  lemma DrmSection(licenseUrl: Option<string>, drmType: Option<string>, drmKeyRobustness: Option<string>)
    ensures var c := BuildDefaultShakaConfig(licenseUrl, drmType, drmKeyRobustness);
      var t := if drmType.Some? then drmType.value else DefaultDrmType;
      var r := if drmKeyRobustness.Some? then drmKeyRobustness.value else DefaultKeyRobustness;
      match KeySystem(t)
      case None => c.drm == DrmConfig(None, None)
      case Some(k) =>
        && c.drm.servers == Some(map[k := licenseUrl])
        && c.drm.advanced == Some(map[k := Advanced(r)])
  {
  }

  /** The servers and the advanced settings always name the same key systems. */
  lemma SameKeySystems(licenseUrl: Option<string>, drmType: Option<string>, drmKeyRobustness: Option<string>)
    ensures var d := BuildDefaultShakaConfig(licenseUrl, drmType, drmKeyRobustness).drm;
      d.servers.Some? <==> d.advanced.Some?
    ensures var d := BuildDefaultShakaConfig(licenseUrl, drmType, drmKeyRobustness).drm;
      d.servers.Some? ==> d.servers.value.Keys == d.advanced.value.Keys && |d.servers.value.Keys| == 1
  {
    DrmSection(licenseUrl, drmType, drmKeyRobustness);
  }

  /** Every advanced entry requires persistent state and asks for the same robustness for video and audio. */
  lemma AdvancedRobustness(licenseUrl: Option<string>, drmType: Option<string>, drmKeyRobustness: Option<string>, k: string)
    requires var d := BuildDefaultShakaConfig(licenseUrl, drmType, drmKeyRobustness).drm;
      d.advanced.Some? && k in d.advanced.value
    ensures var a := BuildDefaultShakaConfig(licenseUrl, drmType, drmKeyRobustness).drm.advanced.value[k];
      && a.persistentStateRequired
      && a.videoRobustness == a.audioRobustness
      && a.videoRobustness == (if drmKeyRobustness.Some? then drmKeyRobustness.value else DefaultKeyRobustness)
  {
    DrmSection(licenseUrl, drmType, drmKeyRobustness);
  }

  /** Leaving out the DRM type and the robustness is the same as passing `'playready'` and `'HW_SECURE_ALL'`. */
  lemma Defaults(licenseUrl: Option<string>)
    ensures BuildDefaultShakaConfig(licenseUrl, None, None)
         == BuildDefaultShakaConfig(licenseUrl, Some("playready"), Some("HW_SECURE_ALL"))
    ensures BuildDefaultShakaConfig(licenseUrl, None, None).drm.servers == Some(map[PlayReadyKeySystem := licenseUrl])
  {
  }
}
