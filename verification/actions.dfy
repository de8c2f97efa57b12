/**
 * The Redux action records consumed by the modelled reducers, and the error
 * constants of the media library that their payloads carry.
 *
 * Redux hands every dispatched action to every registered reducer, so one
 * datatype serves both the overlay reducer and the lib-jitsi-meet reducer;
 * each of them ignores the kinds it does not handle.
 */
module Actions {
  import opened Wrappers

  /**
   * Conference errors of lib-jitsi-meet. The library's constants are external:
   * the two that the overlay whitelists are distinct constructors, and every
   * other error code is `OtherConferenceError`.
   */
  datatype ConferenceError =
    | FocusLeft
    | VideobridgeNotAvailable
    | OtherConferenceError(code: string)

  /**
   * Connection errors of lib-jitsi-meet: the one the overlay singles out as a
   * network failure, and every other error code.
   */
  datatype ConnectionError =
    | ConnectionDroppedError
    | OtherConnectionError(code: string)

  /** The error object lib-jitsi-meet reports when its initialisation fails. */
  datatype LibError = LibError(name: string, message: string)

  /** A JSON-like value of the configuration object handed to JitsiMeetJS#init(). */
  datatype Value =
    | Null
    | Bool(b: bool)
    | Num(n: int)
    | Str(s: string)
    | List(items: seq<Value>)
    | Obj(fields: map<string, Value>)

  /** The dispatched action: its `type` discriminant together with its payload. */
  datatype Action =
    // features/base/conference
    | ConferenceFailed(conferenceError: ConferenceError, errorMessage: Option<string>)
    // features/base/connection
    | ConnectionEstablished
    | ConnectionFailed(connectionError: ConnectionError, errorMessage: Option<string>)
    // features/overlay
    | MediaPermissionPromptVisibilityChanged(browser: Option<string>, isVisible: bool)
    | SuspendDetected
    // features/base/lib-jitsi-meet
    | LibDisposed
    | LibInitError(error: LibError)
    | LibInitialized
    | SetConfig(config: map<string, Value>)
    // any other action type of the application
    | Unrecognized(actionType: string)
}
