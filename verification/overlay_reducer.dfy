/**
 * The reducer of the 'features/overlay' slice: it folds connection and
 * conference failures, permission-prompt changes and suspend events into the
 * flags from which OverlayContainer picks the overlay to show.
 */
module OverlayReducer {
  import opened Wrappers
  import opened Actions

  /**
   * The overlay slice. The slice starts as the empty object, so every field
   * may be `undefined`: an absent boolean reads as false, an absent string as
   * `None`.
   */
  datatype OverlayState = OverlayState(
    connectionEstablished: bool,
    haveToReload: bool,
    isNetworkFailure: bool,
    reason: Option<string>,
    browser: Option<string>,
    isMediaPermissionPromptVisible: bool,
    suspendDetected: bool)

  /** The default `{}` the reducer starts from. */
  const INITIAL_STATE: OverlayState :=
    OverlayState(false, false, false, None, None, false, false)

  /** The prefix of the reload reason recorded for a fatal connection error. */
  const CONNECTION_REASON_PREFIX: string := "xmpp-conn-dropped: "

  /** The two conference errors that require a reload; every other one is ignored. */
  predicate IsReloadConferenceError(error: ConferenceError) {
    error == FocusLeft || error == VideobridgeNotAvailable
  }

  /** How a JavaScript template literal prints an optional string. */
  function Interpolate(s: Option<string>): string {
    s.GetOr("undefined")
  }

  /** `r` differs from `s` at most in the three reload fields. */
  predicate OnlyReloadFieldsChanged(s: OverlayState, r: OverlayState) {
    r == s.(haveToReload := r.haveToReload, isNetworkFailure := r.isNetworkFailure, reason := r.reason)
  }

  /** Reduces CONFERENCE_FAILED: only the whitelisted errors ask for a reload. */
  function ReduceConferenceFailed(s: OverlayState, error: ConferenceError, errorMessage: Option<string>): (r: OverlayState)
    ensures IsReloadConferenceError(error) ==>
              r.haveToReload && !r.isNetworkFailure && r.reason == errorMessage
    ensures OnlyReloadFieldsChanged(s, r)
    ensures !IsReloadConferenceError(error) ==> r == s
  {
    if IsReloadConferenceError(error) then
      s.(haveToReload := true, isNetworkFailure := false, reason := errorMessage)
    else
      s
  }

  /** Reduces CONNECTION_ESTABLISHED. */
  function ReduceConnectionEstablished(s: OverlayState): (r: OverlayState)
    ensures r.connectionEstablished
    ensures r.(connectionEstablished := s.connectionEstablished) == s
  {
    s.(connectionEstablished := true)
  }

  /**
   * Reduces CONNECTION_FAILED: only errors that the library classifies as
   * fatal (`isFatal`) ask for a reload, and of those only a dropped connection
   * counts as a network failure.
   */
  function ReduceConnectionFailed(isFatal: ConnectionError -> bool, s: OverlayState,
                                  error: ConnectionError, errorMessage: Option<string>): (r: OverlayState)
    ensures isFatal(error) ==>
              && r.haveToReload
              && (r.isNetworkFailure <==> error == ConnectionDroppedError)
              && r.reason == Some(CONNECTION_REASON_PREFIX + Interpolate(errorMessage))
    ensures OnlyReloadFieldsChanged(s, r)
    ensures !isFatal(error) ==> r == s
  {
    if isFatal(error) then
      s.(haveToReload := true,
         isNetworkFailure := error == ConnectionDroppedError,
         reason := Some(CONNECTION_REASON_PREFIX + Interpolate(errorMessage)))
    else
      s
  }

  /** Reduces MEDIA_PERMISSION_PROMPT_VISIBILITY_CHANGED, whatever the payload. */
  function ReduceMediaPermissionPromptVisibilityChanged(s: OverlayState, browser: Option<string>, isVisible: bool): (r: OverlayState)
    ensures r.browser == browser && r.isMediaPermissionPromptVisible == isVisible
    ensures r.(browser := s.browser, isMediaPermissionPromptVisible := s.isMediaPermissionPromptVisible) == s
  {
    s.(browser := browser, isMediaPermissionPromptVisible := isVisible)
  }

  /** Reduces SUSPEND_DETECTED. */
  function ReduceSuspendDetected(s: OverlayState): (r: OverlayState)
    ensures r.suspendDetected
    ensures r.(suspendDetected := s.suspendDetected) == s
  {
    s.(suspendDetected := true)
  }

  /** The action types the overlay reducer reacts to. */
  predicate Handles(a: Action) {
    || a.ConferenceFailed?
    || a.ConnectionEstablished?
    || a.ConnectionFailed?
    || a.MediaPermissionPromptVisibilityChanged?
    || a.SuspendDetected?
  }

  /** The registered reducer: dispatches on the action type. */
  function Reduce(isFatal: ConnectionError -> bool, s: OverlayState, a: Action): (r: OverlayState)
    ensures !Handles(a) ==> r == s
    ensures a.ConferenceFailed? || a.ConnectionFailed? ==> OnlyReloadFieldsChanged(s, r)
    ensures CausesReload(isFatal, a) ==> r.haveToReload
    ensures (a.ConferenceFailed? || a.ConnectionFailed?) && !CausesReload(isFatal, a) ==> r == s
    ensures a.ConferenceFailed? && IsReloadConferenceError(a.conferenceError) ==>
              !r.isNetworkFailure && r.reason == a.errorMessage
    ensures a.ConnectionFailed? && isFatal(a.connectionError) ==>
              && (r.isNetworkFailure <==> a.connectionError == ConnectionDroppedError)
              && r.reason == Some(CONNECTION_REASON_PREFIX + Interpolate(a.errorMessage))
    ensures a.ConnectionEstablished? ==>
              r.connectionEstablished && r.(connectionEstablished := s.connectionEstablished) == s
    ensures a.MediaPermissionPromptVisibilityChanged? ==>
              && r.browser == a.browser && r.isMediaPermissionPromptVisible == a.isVisible
              && r.(browser := s.browser, isMediaPermissionPromptVisible := s.isMediaPermissionPromptVisible) == s
    ensures a.SuspendDetected? ==>
              r.suspendDetected && r.(suspendDetected := s.suspendDetected) == s
    // no action clears these three flags once set
    ensures s.connectionEstablished ==> r.connectionEstablished
    ensures s.suspendDetected ==> r.suspendDetected
    ensures s.haveToReload ==> r.haveToReload
  {
    match a
    case ConferenceFailed(error, errorMessage) => ReduceConferenceFailed(s, error, errorMessage)
    case ConnectionEstablished => ReduceConnectionEstablished(s)
    case ConnectionFailed(error, errorMessage) => ReduceConnectionFailed(isFatal, s, error, errorMessage)
    case MediaPermissionPromptVisibilityChanged(browser, isVisible) =>
      ReduceMediaPermissionPromptVisibilityChanged(s, browser, isVisible)
    case SuspendDetected => ReduceSuspendDetected(s)
    case _ => s
  }

  /** The slice after dispatching `actions` in order, starting from `s`. */
  function ReduceAll(isFatal: ConnectionError -> bool, s: OverlayState, actions: seq<Action>): OverlayState
    decreases |actions|
  {
    if actions == [] then s else ReduceAll(isFatal, Reduce(isFatal, s, actions[0]), actions[1..])
  }

  /** The actions that, by themselves, make the reducer ask for a reload. */
  predicate CausesReload(isFatal: ConnectionError -> bool, a: Action) {
    || (a.ConferenceFailed? && IsReloadConferenceError(a.conferenceError))
    || (a.ConnectionFailed? && isFatal(a.connectionError))
  }

  /**
   * The converse of `FlagsHaveCauses`: once a reload-causing action, or
   * CONNECTION_ESTABLISHED, is anywhere in the sequence, the corresponding
   * flag is set at the end.
   */
  lemma {:induction false} CausesSetFlags(isFatal: ConnectionError -> bool, s: OverlayState, actions: seq<Action>)
    ensures var r := ReduceAll(isFatal, s, actions);
            && ((exists k :: 0 <= k < |actions| && CausesReload(isFatal, actions[k])) ==> r.haveToReload)
            && ((exists k :: 0 <= k < |actions| && actions[k].ConnectionEstablished?) ==> r.connectionEstablished)
    decreases |actions|
  {
    if actions != [] {
      var s' := Reduce(isFatal, s, actions[0]);
      CausesSetFlags(isFatal, s', actions[1..]);
      FlagsAreSticky(isFatal, s', actions[1..]);
      forall k | 1 <= k < |actions|
        ensures actions[k] == actions[1..][k - 1]
      {
      }
    }
  }

  /** SUSPEND_DETECTED is idempotent. */
  lemma SuspendDetectedIdempotent(isFatal: ConnectionError -> bool, s: OverlayState)
    ensures Reduce(isFatal, Reduce(isFatal, s, SuspendDetected), SuspendDetected)
         == Reduce(isFatal, s, SuspendDetected)
  {
  }

  /**
   * For a whitelisted error, the reload fields after CONFERENCE_FAILED depend
   * on the error code and message only, not on the prior state.
   */
  lemma ConferenceFailedDependsOnErrorOnly(isFatal: ConnectionError -> bool, s1: OverlayState, s2: OverlayState,
                                           error: ConferenceError, errorMessage: Option<string>)
    requires IsReloadConferenceError(error)
    ensures var r1 := Reduce(isFatal, s1, ConferenceFailed(error, errorMessage));
            var r2 := Reduce(isFatal, s2, ConferenceFailed(error, errorMessage));
            r1.haveToReload == r2.haveToReload
            && r1.isNetworkFailure == r2.isNetworkFailure
            && r1.reason == r2.reason
  {
  }

  /**
   * No sequence of actions clears `connectionEstablished`, `suspendDetected`
   * or `haveToReload` once they are set.
   */
  lemma {:induction false} FlagsAreSticky(isFatal: ConnectionError -> bool, s: OverlayState, actions: seq<Action>)
    ensures var r := ReduceAll(isFatal, s, actions);
            && (s.connectionEstablished ==> r.connectionEstablished)
            && (s.suspendDetected ==> r.suspendDetected)
            && (s.haveToReload ==> r.haveToReload)
    decreases |actions|
  {
    if actions != [] {
      FlagsAreSticky(isFatal, Reduce(isFatal, s, actions[0]), actions[1..]);
    }
  }

  /**
   * Starting from any slice `s`, `haveToReload` ends up set only if it was set
   * in `s` or some dispatched action was a whitelisted conference failure or a fatal
   * connection failure, and `connectionEstablished` only if it was set in `s`
   * or CONNECTION_ESTABLISHED was dispatched.
   */
  lemma {:induction false} FlagsHaveCauses(isFatal: ConnectionError -> bool, s: OverlayState, actions: seq<Action>)
    ensures var r := ReduceAll(isFatal, s, actions);
            && (r.haveToReload ==>
                  s.haveToReload || exists k :: 0 <= k < |actions| && CausesReload(isFatal, actions[k]))
            && (r.connectionEstablished ==>
                  s.connectionEstablished || exists k :: 0 <= k < |actions| && actions[k].ConnectionEstablished?)
    decreases |actions|
  {
    if actions != [] {
      var s' := Reduce(isFatal, s, actions[0]);
      FlagsHaveCauses(isFatal, s', actions[1..]);
      var r := ReduceAll(isFatal, s, actions);
      if r.haveToReload && !s.haveToReload {
        if s'.haveToReload {
          assert CausesReload(isFatal, actions[0]);
        } else {
          var k :| 0 <= k < |actions[1..]| && CausesReload(isFatal, actions[1..][k]);
          assert actions[k + 1] == actions[1..][k];
        }
      }
      if r.connectionEstablished && !s.connectionEstablished {
        if s'.connectionEstablished {
          assert actions[0].ConnectionEstablished?;
        } else {
          var k :| 0 <= k < |actions[1..]| && actions[1..][k].ConnectionEstablished?;
          assert actions[k + 1] == actions[1..][k];
        }
      }
    }
  }
}
