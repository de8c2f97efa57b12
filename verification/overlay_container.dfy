/**
 * OverlayContainer: the component that shows at most one overlay, chosen
 * from the overlay slice with a strict precedence (page reload, then
 * suspended, then media permissions), and that mirrors "an overlay is shown"
 * into the legacy UI.
 */
module OverlayContainer {
  import opened Wrappers
  import opened OverlayReducer
  import opened Store

  /** The component's props, as `_mapStateToProps` names them. */
  datatype Props = Props(
    browser: Option<string>,
    connectionEstablished: bool,
    haveToReload: bool,
    isMediaPermissionPromptVisible: bool,
    isNetworkFailure: bool,
    reason: Option<string>,
    suspendDetected: bool)

  /** The element `render` returns; `NoOverlay` is its `null`. */
  datatype Overlay =
    | NoOverlay
    | PageReloadOverlay(isNetworkFailure: bool, reason: Option<string>)
    | SuspendedOverlay
    | UserMediaPermissionsOverlay(browser: Option<string>)

  /** Reads the slice back out of the props (the inverse of `MapStateToProps`). */
  function SliceOf(p: Props): OverlayState {
    OverlayState(p.connectionEstablished, p.haveToReload, p.isNetworkFailure, p.reason,
                 p.browser, p.isMediaPermissionPromptVisible, p.suspendDetected)
  }

  /** Maps the overlay slice of the state to the props, field for field. */
  function MapStateToProps(state: AppState): (p: Props)
    ensures SliceOf(p) == state.overlay
  {
    var o := state.overlay;
    Props(o.browser, o.connectionEstablished, o.haveToReload, o.isMediaPermissionPromptVisible,
          o.isNetworkFailure, o.reason, o.suspendDetected)
  }

  /** The page-reload overlay is due. */
  predicate ReloadDue(p: Props) {
    p.connectionEstablished && p.haveToReload
  }

  /** Chooses the overlay to render, by strict precedence. */
  function Render(p: Props): (o: Overlay)
    ensures o.PageReloadOverlay? <==> ReloadDue(p)
    ensures o.PageReloadOverlay? ==> o.isNetworkFailure == p.isNetworkFailure && o.reason == p.reason
    ensures o.SuspendedOverlay? <==> !ReloadDue(p) && p.suspendDetected
    ensures o.UserMediaPermissionsOverlay? <==>
              !ReloadDue(p) && !p.suspendDetected && p.isMediaPermissionPromptVisible
    ensures o.UserMediaPermissionsOverlay? ==> o.browser == p.browser
    ensures o.NoOverlay? <==>
              !ReloadDue(p) && !p.suspendDetected && !p.isMediaPermissionPromptVisible
  {
    if ReloadDue(p) then
      PageReloadOverlay(p.isNetworkFailure, p.reason)
    else if p.suspendDetected then
      SuspendedOverlay
    else if p.isMediaPermissionPromptVisible then
      UserMediaPermissionsOverlay(p.browser)
    else
      NoOverlay
  }

  /** The legacy, non-React UI object whose visibility flag the component writes. */
  class LegacyUI {
    var overlayVisible: bool

    constructor ()
      ensures !overlayVisible
    {
      overlayVisible := false;
    }
  }

  /** A mounted OverlayContainer: its current props and the legacy UI it updates. */
  class Container {
    var props: Props
    const ui: LegacyUI

    constructor (props: Props, ui: LegacyUI)
      ensures this.props == props && this.ui == ui
    {
      this.props := props;
      this.ui := ui;
    }

    /** After every update, tells the legacy UI whether an overlay is shown. */
    method ComponentDidUpdate()
      modifies ui
      ensures ui.overlayVisible <==> Render(props) != NoOverlay
    {
      ui.overlayVisible :=
        ReloadDue(props)
        || props.suspendDetected
        || props.isMediaPermissionPromptVisible;
    }
  }

  /** `MapStateToProps` loses nothing: the props determine the slice and back. */
  lemma PropsRoundTrip(state: AppState, p: Props)
    ensures MapStateToProps(state.(overlay := SliceOf(p))) == p
  {
  }

  /** With every flag set, the reload overlay wins. */
  lemma ReloadBeatsAll(p: Props)
    requires p.connectionEstablished && p.haveToReload && p.suspendDetected
    requires p.isMediaPermissionPromptVisible
    ensures Render(p) == PageReloadOverlay(p.isNetworkFailure, p.reason)
  {
  }

  /**
   * Without an established connection `haveToReload` never shows the reload
   * overlay; the choice falls through to suspended, permissions, nothing.
   */
  lemma NoReloadWithoutConnection(p: Props)
    requires !p.connectionEstablished
    ensures Render(p) == Render(p.(haveToReload := false))
    ensures Render(p) == (if p.suspendDetected then SuspendedOverlay
                          else if p.isMediaPermissionPromptVisible then UserMediaPermissionsOverlay(p.browser)
                          else NoOverlay)
  {
  }

  /** The initial overlay slice shows no overlay. */
  lemma InitialStateShowsNothing(state: AppState)
    requires state.overlay == OverlayReducer.INITIAL_STATE
    ensures Render(MapStateToProps(state)) == NoOverlay
  {
  }

  /**
   * Whatever is dispatched to a freshly created overlay slice, the reload
   * overlay shows exactly when CONNECTION_ESTABLISHED and an action that
   * requires a reload were both dispatched, in either order.
   */
  lemma ReloadOverlayHasCauses(isFatal: Actions.ConnectionError -> bool, state: AppState, actions: seq<Actions.Action>)
    requires state.overlay == ReduceAll(isFatal, OverlayReducer.INITIAL_STATE, actions)
    ensures Render(MapStateToProps(state)).PageReloadOverlay? <==>
              && (exists k :: 0 <= k < |actions| && actions[k].ConnectionEstablished?)
              && (exists k :: 0 <= k < |actions| && CausesReload(isFatal, actions[k]))
  {
    FlagsHaveCauses(isFatal, OverlayReducer.INITIAL_STATE, actions);
    CausesSetFlags(isFatal, OverlayReducer.INITIAL_STATE, actions);
  }
}
