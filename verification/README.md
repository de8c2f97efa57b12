# Jitsi Meet overlay, library-initialisation and route-interception logic in Dafny

This project models the state-reduction and view-selection core of the Jitsi Meet web app:

- **Overlay reducer** (`OverlayReducer`, in `overlay_reducer.dfy`). It folds five action kinds into the `features/overlay` slice: conference failure, connection established, connection failure, media-permission prompt visibility changed, and suspend detected.
  - Only two conference errors ask for a reload (focus left, videobridge not available).
  - Connection failures ask for a reload only when the media library calls them fatal.
  - Of those, only a dropped connection counts as a network failure.
- **Overlay container** (`OverlayContainer`, in `overlay_container.dfy`).
  - `Render` picks at most one overlay by strict precedence: page reload, then suspended, then media permissions.
  - `MapStateToProps` copies the slice into the props.
  - `Container.ComponentDidUpdate` writes "an overlay is shown" into the legacy UI object's `overlayVisible` flag.
- **lib-jitsi-meet reducer** (`LibJitsiMeetReducer`, in `lib_reducer.dfy`). It is a three-state machine: uninitialised, failed to initialise, and initialised.
  - Its invariant is that an initialised library carries no error.
  - On SET_CONFIG, three mandatory configuration values always override what the deployment supplies.
- **Route interceptor** (`InterceptComponent`, in `intercept_component.dfy`). It walks an ordered first-match-wins rule list:
  - first the mobile rule;
  - then the old-browser / plugin-required rule;
  - if no rule fires, it falls back to the requested component.
  - The method `InterceptComponent` runs the source's loop. It is proved equal to the function `Intercept`, which is defined by the recursive `FirstMatch`.

Shared definitions:
- `actions.dfy` holds the action datatype that Redux dispatches to every reducer, and the lib-jitsi-meet error constants.
- `store.dfy` holds the state slices that the components read.
- `wrappers.dfy` holds `Option`, used for JavaScript's `undefined` / `null`.

External inputs are parameters:
- The media library's fatality classifier `isFatalJitsiConnectionError` is the function parameter `isFatal`.
- The globals `Platform.OS` and `interfaceConfig.MOBILE_APP_ENABLED` are the `Env` parameter.
- The global `APP.UI` is the `LegacyUI` object passed to the container.

Two points of the code worth stating plainly:
- SET_CONFIG replaces the configuration: it does not merge into the previous one. The new configuration is the action's configuration with the initial mandatory values laid over it, and keys of the previous configuration are dropped (`SetConfigDropsPreviousKeys`).
- The container reads `connectionEstablished` from the overlay slice.

## Model

| member | source | states |
|---|---|---|
| OverlayReducer.ReduceConferenceFailed | react/features/overlay/reducer.js:57-70 | FOCUS_LEFT or VIDEOBRIDGE_NOT_AVAILABLE set haveToReload, clear isNetworkFailure and set reason to the message; every other error leaves the state unchanged; no other field ever changes |
| OverlayReducer.ReduceConnectionEstablished | react/features/overlay/reducer.js:81-83 | connectionEstablished becomes true and nothing else changes |
| OverlayReducer.ReduceConnectionFailed | react/features/overlay/reducer.js:94-115 | a fatal error sets haveToReload, sets isNetworkFailure exactly when the error is CONNECTION_DROPPED_ERROR, and sets reason to "xmpp-conn-dropped: " plus the message; a non-fatal error leaves the state unchanged; no other field ever changes |
| OverlayReducer.ReduceMediaPermissionPromptVisibilityChanged | react/features/overlay/reducer.js:127-132 | browser and isMediaPermissionPromptVisible take the payload's values unconditionally; no other field changes |
| OverlayReducer.ReduceSuspendDetected | react/features/overlay/reducer.js:142-144 | suspendDetected becomes true and nothing else changes |
| OverlayReducer.Reduce | react/features/overlay/reducer.js:27-46 | for each of the five handled types, the fields it sets and that every other field is unchanged: a reload-causing failure sets haveToReload with its isNetworkFailure and reason, any other failure changes nothing, CONNECTION_ESTABLISHED and SUSPEND_DETECTED set their flag, the prompt change copies browser and visibility; actions of any other type leave the slice unchanged; no action clears connectionEstablished, suspendDetected or haveToReload |
| OverlayReducer.CausesSetFlags | react/features/overlay/reducer.js:27-46 | once a reload-causing failure, or CONNECTION_ESTABLISHED, appears anywhere in a sequence of actions, haveToReload, or connectionEstablished, is set at the end |
| OverlayReducer.SuspendDetectedIdempotent | react/features/overlay/reducer.js:142-144 | reducing SUSPEND_DETECTED twice equals reducing it once |
| OverlayReducer.ConferenceFailedDependsOnErrorOnly | react/features/overlay/reducer.js:57-67 | for a whitelisted error, the reload fields after CONFERENCE_FAILED depend only on the error and message, not on the prior state |
| OverlayReducer.FlagsAreSticky | react/features/overlay/reducer.js:27-46 | over any sequence of actions, connectionEstablished, suspendDetected and haveToReload stay set once set |
| OverlayReducer.FlagsHaveCauses | react/features/overlay/reducer.js:27-46 | after a sequence of actions, haveToReload is set only if it was set before or some action was a whitelisted conference failure or a fatal connection failure; likewise connectionEstablished needs a CONNECTION_ESTABLISHED action |
| OverlayContainer.MapStateToProps | react/features/overlay/components/OverlayContainer.js:160-240 | the props carry every field of the overlay slice unchanged (reading the slice back from the props gives the slice) |
| OverlayContainer.PropsRoundTrip | react/features/overlay/components/OverlayContainer.js:160-240 | mapping a slice read from props gives the same props back, so the mapping is a bijection |
| OverlayContainer.Render | react/features/overlay/components/OverlayContainer.js:119-142 | reload overlay (with isNetworkFailure and reason) exactly when connectionEstablished and haveToReload; otherwise suspended exactly when suspendDetected; otherwise permissions overlay (with browser) exactly when the prompt is visible; otherwise nothing |
| OverlayContainer.ReloadBeatsAll | react/features/overlay/components/OverlayContainer.js:119-139 | with every flag set, the reload overlay is chosen |
| OverlayContainer.NoReloadWithoutConnection | react/features/overlay/components/OverlayContainer.js:120-141 | without an established connection, haveToReload has no effect and the choice falls through suspended, permissions, nothing |
| OverlayContainer.InitialStateShowsNothing | react/features/overlay/reducer.js:27 | the initial empty slice renders no overlay |
| OverlayContainer.ReloadOverlayHasCauses | react/features/overlay/components/OverlayContainer.js:120-125 | from the initial slice, the reload overlay shows exactly when CONNECTION_ESTABLISHED and a reload-causing failure were both dispatched, in either order |
| OverlayContainer.Container.ComponentDidUpdate | react/features/overlay/components/OverlayContainer.js:104-110 | the legacy UI's overlayVisible flag becomes true exactly when Render chooses an overlay |
| LibJitsiMeetReducer.PhaseOf | react/features/base/lib-jitsi-meet/reducer.js:45-68 | a valid slice is initialised exactly when initialized holds, failed exactly when it carries an error, uninitialised otherwise |
| LibJitsiMeetReducer.ReduceSetConfig | react/features/base/lib-jitsi-meet/reducer.js:88-100 | the three mandatory keys are true whatever the action's config holds; every other key is present exactly when the action's config has it, with its value; initialized and initializationError are unchanged |
| LibJitsiMeetReducer.Reduce | react/features/base/lib-jitsi-meet/reducer.js:49-76 | LIB_DISPOSED gives INITIAL_STATE; LIB_INIT_ERROR records the error, clears initialized and keeps config; LIB_INITIALIZED sets initialized, clears the error and keeps config; SET_CONFIG keeps the init fields and yields the action's keys plus the mandatory ones, mandatory values true and every other value the action's; other types change nothing; the invariant and the mandatory values are preserved |
| LibJitsiMeetReducer.InitialStateIsValid | react/features/base/lib-jitsi-meet/reducer.js:18-47 | the initial slice satisfies the invariant, holds the mandatory values and is uninitialised |
| LibJitsiMeetReducer.Transitions | react/features/base/lib-jitsi-meet/reducer.js:52-71 | LIB_DISPOSED, LIB_INIT_ERROR and LIB_INITIALIZED lead to the uninitialised, failed and initialised phases; SET_CONFIG keeps the phase |
| LibJitsiMeetReducer.SetConfigDropsPreviousKeys | react/features/base/lib-jitsi-meet/reducer.js:88-99 | a non-mandatory key of the previous config that the action lacks is gone after SET_CONFIG |
| LibJitsiMeetReducer.SetConfigIdempotent | react/features/base/lib-jitsi-meet/reducer.js:88-99 | SET_CONFIG applied twice with the same config equals applying it once |
| LibJitsiMeetReducer.MandatoryKeysOverride | react/features/base/lib-jitsi-meet/reducer.js:88-99 | configs that differ only in the mandatory keys give the same resulting config |
| LibJitsiMeetReducer.ReachableStatesAreValid | react/features/base/lib-jitsi-meet/reducer.js:49-76 | after any sequence of actions from a valid, enforced slice (such as the initial one), the invariant holds and the mandatory values are in force |
| InterceptComponent.Intercept | react/features/base/util/interceptComponent.js:23-60 | on android or ios: UnsupportedMobileBrowser if MOBILE_APP_ENABLED, else NoMobileApp, whatever the browser flags; otherwise UnsupportedDesktopBrowser if the browser is old; else PluginRequiredBrowser if a plugin is required; else the requested component |
| InterceptComponent.FirstMatchIsFirstFiring | react/features/base/util/interceptComponent.js:80-85 | the rule walk returns the result of the first rule that yields a view, and nothing exactly when no rule does |
| InterceptComponent.GetterMatchesSnapshot | react/features/base/util/interceptComponent.js:75-78 | passing a getState function gives the same view as passing the state it returns |
| InterceptComponent.InterceptComponent | react/features/base/util/interceptComponent.js:72-88 | the loop that stops at the first rule yielding a view returns exactly Intercept of the resolved state |

## Left out

- react/features/base/connection/actions.web.js is not part of this model. `connect()` is a promise chain over the application object, the log collector and navigation. `disconnect()` delegates to a hangup routine. `setDomain` only builds an action record.
- react/features/unsupported-browser/components/UnsupportedMobileBrowser.js is not part of this model: it is presentational markup.
- JSX rendering, react-redux `connect`, the prop-type declarations and `ReducerRegistry.register` are left out. Only the functions they wrap are modelled.
- When React calls `componentDidUpdate` is left out. The method models one call.
- The logger call in the connection-failure reducer is left out. It has no effect on state.
- `isFatalJitsiConnectionError` is external. It is the parameter `isFatal`, with no assumption about it.
- The library's error constants are external. They are distinct datatype constructors with a catch-all for every other code.
- `setStateProperties` / `setStateProperty` are treated as record updates. Object identity (whether an unchanged state is the same object) is not modelled.
- JavaScript truthiness of non-boolean payloads is not modelled. Absent booleans are false, absent strings are `None`, and `isVisible` and `MOBILE_APP_ENABLED` are booleans.
- Numeric configuration values are `int` (`Value.Num`), not JavaScript doubles. The reducer only copies them, so nothing here depends on their arithmetic.
- LIB_INIT_ERROR is assumed to carry an error object. The source copies `action.error` as it is, so an action without one would leave the slice uninitialised rather than failed; the model does not cover that case.
- The configuration is a `map`, so the key order of the JavaScript object spread is not modelled.
