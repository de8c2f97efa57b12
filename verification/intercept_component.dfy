/**
 * interceptComponent: before a route component is rendered, an ordered list
 * of rules may substitute an "unsupported browser" view for it; the first rule
 * that yields a view wins, and when none does the requested component stays.
 */
module InterceptComponent {
  import opened Wrappers
  import opened Store

  /**
   * The globals the rules read: `Platform.OS` and
   * `interfaceConfig.MOBILE_APP_ENABLED`.
   */
  datatype Env = Env(os: string, mobileAppEnabled: bool)

  /** The four views a rule may substitute. */
  datatype Substitute =
    | UnsupportedMobileBrowser
    | NoMobileApp
    | UnsupportedDesktopBrowser
    | PluginRequiredBrowser

  /** What gets rendered: a substitute, or the requested component of type `C`. */
  datatype View<C> = Substituted(substitute: Substitute) | Requested(component: C)

  /** The first argument: a state snapshot or a `getState` function. */
  datatype StateSource = Snapshot(state: AppState) | Getter(getState: () -> AppState)

  /** The entries of `_RULES`. */
  datatype Rule = MobileRule | BrowserSupportRule

  /** `_RULES`, in order. */
  const RULES: seq<Rule> := [MobileRule, BrowserSupportRule]

  /** The operating systems the mobile rule recognises. */
  predicate IsMobileOS(os: string) {
    os == "android" || os == "ios"
  }

  /** The state a source stands for. */
  function StateOf(src: StateSource): AppState {
    match src
    case Snapshot(state) => state
    case Getter(getState) => getState()
  }

  /**
   * One rule applied to the state; `None` is the rule returning nothing.
   * The mobile rule suggests the mobile app even where the browser could run
   * the conference.
   */
  function Apply(rule: Rule, env: Env, state: AppState): Option<Substitute> {
    match rule
    case MobileRule =>
      if IsMobileOS(env.os) then
        Some(if env.mobileAppEnabled then UnsupportedMobileBrowser else NoMobileApp)
      else
        None
    case BrowserSupportRule =>
      if state.unsupportedBrowser.isOldBrowser then Some(UnsupportedDesktopBrowser)
      else if state.unsupportedBrowser.isPluginRequired then Some(PluginRequiredBrowser)
      else None
  }

  /** The result of the first rule of `rules` that yields a view. */
  function FirstMatch(rules: seq<Rule>, env: Env, state: AppState): Option<Substitute>
    decreases |rules|
  {
    if rules == [] then None
    else if Apply(rules[0], env, state).Some? then Apply(rules[0], env, state)
    else FirstMatch(rules[1..], env, state)
  }

  /**
   * What interception renders for `component`, stated as the outcome of the
   * rule list; its contract spells out the precedence the list encodes.
   */
  function Intercept<C>(env: Env, state: AppState, component: C): (v: View<C>)
    ensures IsMobileOS(env.os) ==>
              v == Substituted(if env.mobileAppEnabled then UnsupportedMobileBrowser else NoMobileApp)
    ensures !IsMobileOS(env.os) && state.unsupportedBrowser.isOldBrowser ==>
              v == Substituted(UnsupportedDesktopBrowser)
    ensures !IsMobileOS(env.os) && !state.unsupportedBrowser.isOldBrowser
            && state.unsupportedBrowser.isPluginRequired ==>
              v == Substituted(PluginRequiredBrowser)
    ensures !IsMobileOS(env.os) && !state.unsupportedBrowser.isOldBrowser
            && !state.unsupportedBrowser.isPluginRequired ==>
              v == Requested(component)
  {
    assert RULES[1..] == [BrowserSupportRule];
    assert RULES[1..][1..] == [];
    match FirstMatch(RULES, env, state)
    case Some(substitute) => Substituted(substitute)
    case None => Requested(component)
  }

  /**
   * `FirstMatch` returns the result of the first rule that yields a view, and
   * nothing exactly when no rule yields one; rules after the first firing one
   * are never consulted.
   */
  lemma {:induction false} FirstMatchIsFirstFiring(rules: seq<Rule>, env: Env, state: AppState)
    ensures FirstMatch(rules, env, state).None? <==>
              forall j :: 0 <= j < |rules| ==> Apply(rules[j], env, state).None?
    ensures FirstMatch(rules, env, state).Some? ==>
              exists k :: 0 <= k < |rules|
                && FirstMatch(rules, env, state) == Apply(rules[k], env, state)
                && forall j :: 0 <= j < k ==> Apply(rules[j], env, state).None?
    decreases |rules|
  {
    if rules != [] && Apply(rules[0], env, state).None? {
      FirstMatchIsFirstFiring(rules[1..], env, state);
      if FirstMatch(rules, env, state).Some? {
        var k :| 0 <= k < |rules[1..]|
                 && FirstMatch(rules[1..], env, state) == Apply(rules[1..][k], env, state)
                 && forall j :: 0 <= j < k ==> Apply(rules[1..][j], env, state).None?;
        assert rules[k + 1] == rules[1..][k];
        forall j | 0 <= j < k + 1
          ensures Apply(rules[j], env, state).None?
        {
          if j > 0 { assert rules[j] == rules[1..][j - 1]; }
        }
      } else {
        forall j | 0 <= j < |rules|
          ensures Apply(rules[j], env, state).None?
        {
          if j > 0 { assert rules[j] == rules[1..][j - 1]; }
        }
      }
    }
  }

  /**
   * Passing `getState` gives the same view as passing the state it returns.
   * This holds by the definition of `StateOf`; that the method resolves a
   * getter the way `StateOf` does is part of `InterceptComponent`'s contract.
   */
  lemma GetterMatchesSnapshot<C>(env: Env, getState: () -> AppState, component: C)
    ensures Intercept(env, StateOf(Getter(getState)), component)
         == Intercept(env, StateOf(Snapshot(getState())), component)
  {
  }

  /**
   * `interceptComponent`: resolves the state, runs the rules in order until
   * one yields a view, and otherwise keeps the requested component.
   */
  method InterceptComponent<C>(env: Env, stateOrGetState: StateSource, component: C) returns (v: View<C>)
    ensures v == Intercept(env, StateOf(stateOrGetState), component)
  {
    var state := if stateOrGetState.Getter? then stateOrGetState.getState() else stateOrGetState.state;
    var result: Option<Substitute> := None;
    var i := 0;
    while i < |RULES|
      invariant 0 <= i <= |RULES|
      invariant result.None?
      invariant FirstMatch(RULES, env, state) == FirstMatch(RULES[i..], env, state)
    {
      result := Apply(RULES[i], env, state);
      if result.Some? {
        break;
      }
      i := i + 1;
    }
    v := if result.Some? then Substituted(result.value) else Requested(component);
  }
}
