/**
 * `LimitTrackSelection`: ExoPlayer's adaptive track selection with a hard
 * cap on the bitrate of any track it may pick.
 */
module LimitTrackSelection {
  /** Java `int`. */
  type Int32 = x: int | -0x8000_0000 <= x < 0x8000_0000
  /** Java `long`. */
  type Int64 = x: int | -0x8000_0000_0000_0000 <= x < 0x8000_0000_0000_0000

  /** `maxBitrate`, in bits per second. */
  const MaxBitrate: Int32 := 2800000

  /** `isWithinLimit`: the track's bitrate is at most the cap. */
  predicate IsWithinLimit(trackBitrate: Int32) {
    trackBitrate <= MaxBitrate
  }

  /**
   * `canSelectFormat`. `scaledBitrate` is `Math.round(trackBitrate *
   * playbackSpeed)`, computed by the caller of this model; the format itself
   * is passed but never looked at.
   */
  predicate CanSelectFormat<F>(format: F, trackBitrate: Int32, scaledBitrate: Int32, effectiveBitrate: Int64) {
    var isWithinLimit := IsWithinLimit(trackBitrate);
    var isSelectable := scaledBitrate <= effectiveBitrate;
    isSelectable && isWithinLimit
  }

  /** A track above the cap is never selectable, whatever the speed and the bandwidth. */
  lemma AboveCapNeverSelected<F>(format: F, trackBitrate: Int32, scaledBitrate: Int32, effectiveBitrate: Int64)
    requires trackBitrate > 2800000
    ensures !CanSelectFormat(format, trackBitrate, scaledBitrate, effectiveBitrate)
  {
  }

  /** Within the cap, the only test left is that the scaled bitrate fits the bandwidth. */
  lemma WithinCap<F>(format: F, trackBitrate: Int32, scaledBitrate: Int32, effectiveBitrate: Int64)
    requires trackBitrate <= 2800000
    ensures CanSelectFormat(format, trackBitrate, scaledBitrate, effectiveBitrate) <==> scaledBitrate <= effectiveBitrate
  {
  }

  /** More bandwidth never makes a selectable format unselectable. */
  lemma MonotoneInBandwidth<F>(format: F, trackBitrate: Int32, scaledBitrate: Int32, e: Int64, e': Int64)
    requires e <= e'
    requires CanSelectFormat(format, trackBitrate, scaledBitrate, e)
    ensures CanSelectFormat(format, trackBitrate, scaledBitrate, e')
  {
  }

  /** A lower bitrate (and a lower scaled bitrate) never makes a selectable format unselectable. */
  lemma MonotoneInBitrate<F>(format: F, b: Int32, s: Int32, b': Int32, s': Int32, e: Int64)
    requires b' <= b && s' <= s
    requires CanSelectFormat(format, b, s, e)
    ensures CanSelectFormat(format, b', s', e)
  {
  }

  /** The answer does not depend on the format. */
  lemma FormatIgnored<F>(f: F, g: F, trackBitrate: Int32, scaledBitrate: Int32, effectiveBitrate: Int64)
    ensures CanSelectFormat(f, trackBitrate, scaledBitrate, effectiveBitrate)
        == CanSelectFormat(g, trackBitrate, scaledBitrate, effectiveBitrate)
  {
  }
}
