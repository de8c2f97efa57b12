/**
 * The slices of the Redux state covered by this model: the two reduced here
 * and the unsupported-browser slice that the route interceptor reads.
 */
module Store {
  import OverlayReducer
  import LibJitsiMeetReducer

  /** The 'features/unsupported-browser' slice, written by code outside this model. */
  datatype UnsupportedBrowserState = UnsupportedBrowserState(isOldBrowser: bool, isPluginRequired: bool)

  /** The state container, keyed by feature name in the source. */
  datatype AppState = AppState(
    overlay: OverlayReducer.OverlayState,                 // 'features/overlay'
    libJitsiMeet: LibJitsiMeetReducer.LibState,           // 'features/base/lib-jitsi-meet'
    unsupportedBrowser: UnsupportedBrowserState)          // 'features/unsupported-browser'
}
