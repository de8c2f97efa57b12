/**
 * The reducer of the 'features/base/lib-jitsi-meet' slice: the
 * initialisation state of the media library and the configuration it is
 * initialised with.
 */
module LibJitsiMeetReducer {
  import opened Wrappers
  import opened Actions

  /** The slice: `initializationError` is `None` where the source holds `null`. */
  datatype LibState = LibState(
    config: map<string, Value>,
    initializationError: Option<LibError>,
    initialized: bool)

  /** The three states the slice moves between. */
  datatype Phase = Uninitialized | FailedToInitialize | Initialized

  /** The configuration keys whose values the application always enforces. */
  const MANDATORY_KEYS: set<string> := {"disableAudioLevels", "disableThirdPartyRequests", "preferH264"}

  /** The initial slice, whose `config` holds the mandatory values. */
  const INITIAL_STATE: LibState := LibState(
    map["disableAudioLevels" := Bool(true),
        "disableThirdPartyRequests" := Bool(true),
        "preferH264" := Bool(true)],
    None,
    false)

  /** The slice invariant: an initialised library carries no initialisation error. */
  predicate Valid(s: LibState) {
    s.initialized ==> s.initializationError == None
  }

  /** Every mandatory key of `config` is present and set to true. */
  predicate Enforced(config: map<string, Value>) {
    forall k :: k in MANDATORY_KEYS ==> k in config && config[k] == Bool(true)
  }

  /** The state of the three-state machine that a valid slice is in. */
  function PhaseOf(s: LibState): (p: Phase)
    requires Valid(s)
    ensures p == Initialized <==> s.initialized
    ensures p == FailedToInitialize <==> s.initializationError.Some?
  {
    if s.initialized then Initialized
    else if s.initializationError.Some? then FailedToInitialize
    else Uninitialized
  }

  /**
   * Reduces SET_CONFIG: the new configuration is the action's, with the
   * mandatory values of the initial configuration laid over it.
   */
  function ReduceSetConfig(s: LibState, config: map<string, Value>): (r: LibState)
    ensures r.initialized == s.initialized && r.initializationError == s.initializationError
    ensures Enforced(r.config)
    ensures r.config.Keys == config.Keys + MANDATORY_KEYS
    ensures forall k :: k in config && k !in MANDATORY_KEYS ==> r.config[k] == config[k]
  {
    s.(config := config + INITIAL_STATE.config)
  }

  /** The action types this reducer reacts to. */
  predicate Handles(a: Action) {
    a.LibDisposed? || a.LibInitError? || a.LibInitialized? || a.SetConfig?
  }

  /** The registered reducer: dispatches on the action type. */
  function Reduce(s: LibState, a: Action): (r: LibState)
    ensures a.LibDisposed? ==> r == INITIAL_STATE
    ensures a.LibInitError? ==>
              && r.initializationError == Some(a.error)
              && !r.initialized
              && r.config == s.config
    ensures a.LibInitialized? ==>
              && r.initializationError == None
              && r.initialized
              && r.config == s.config
    ensures a.SetConfig? ==>
              && r.initialized == s.initialized
              && r.initializationError == s.initializationError
              && r.config.Keys == a.config.Keys + MANDATORY_KEYS
              && (forall k :: k in MANDATORY_KEYS ==> r.config[k] == Bool(true))
              && (forall k :: k in a.config && k !in MANDATORY_KEYS ==> r.config[k] == a.config[k])
    ensures !Handles(a) ==> r == s
    ensures Valid(s) ==> Valid(r)
    ensures Enforced(s.config) ==> Enforced(r.config)
  {
    match a
    case LibDisposed => INITIAL_STATE
    case LibInitError(error) => s.(initializationError := Some(error), initialized := false)
    case LibInitialized => s.(initializationError := None, initialized := true)
    case SetConfig(config) => ReduceSetConfig(s, config)
    case _ => s
  }

  /** The slice after dispatching `actions` in order, starting from `s`. */
  function ReduceAll(s: LibState, actions: seq<Action>): LibState
    decreases |actions|
  {
    if actions == [] then s else ReduceAll(Reduce(s, actions[0]), actions[1..])
  }

  /** The initial slice satisfies the invariant and holds the mandatory values. */
  lemma InitialStateIsValid()
    ensures Valid(INITIAL_STATE) && Enforced(INITIAL_STATE.config)
    ensures PhaseOf(INITIAL_STATE) == Uninitialized
  {
  }

  /** Each action moves the machine to the phase its type names. */
  lemma Transitions(s: LibState, error: LibError, config: map<string, Value>)
    requires Valid(s)
    ensures PhaseOf(Reduce(s, LibDisposed)) == Uninitialized
    ensures PhaseOf(Reduce(s, LibInitError(error))) == FailedToInitialize
    ensures PhaseOf(Reduce(s, LibInitialized)) == Initialized
    ensures PhaseOf(Reduce(s, SetConfig(config))) == PhaseOf(s)
  {
  }

  /**
   * SET_CONFIG replaces the configuration rather than merging into it: keys
   * of the previous configuration that the action does not carry are gone
   * unless they are mandatory.
   */
  lemma SetConfigDropsPreviousKeys(s: LibState, config: map<string, Value>, k: string)
    requires k in s.config && k !in config && k !in MANDATORY_KEYS
    ensures k !in Reduce(s, SetConfig(config)).config
  {
  }

  /** Applying SET_CONFIG twice with the same configuration equals applying it once. */
  lemma SetConfigIdempotent(s: LibState, config: map<string, Value>)
    ensures Reduce(Reduce(s, SetConfig(config)), SetConfig(config)) == Reduce(s, SetConfig(config))
  {
  }

  /**
   * The mandatory values win whatever the supplied configuration holds: two
   * configurations that differ only in the mandatory keys yield the same
   * configuration.
   */
  lemma MandatoryKeysOverride(s: LibState, c1: map<string, Value>, c2: map<string, Value>)
    requires c1 - MANDATORY_KEYS == c2 - MANDATORY_KEYS
    ensures Reduce(s, SetConfig(c1)).config == Reduce(s, SetConfig(c2)).config
  {
    var r1 := Reduce(s, SetConfig(c1)).config;
    var r2 := Reduce(s, SetConfig(c2)).config;
    forall k | k in c1.Keys + MANDATORY_KEYS
      ensures k in c2.Keys + MANDATORY_KEYS
    {
      if k !in MANDATORY_KEYS { assert k in c1 - MANDATORY_KEYS; }
    }
    forall k | k in c2.Keys + MANDATORY_KEYS
      ensures k in c1.Keys + MANDATORY_KEYS
    {
      if k !in MANDATORY_KEYS { assert k in c2 - MANDATORY_KEYS; }
    }
    forall k | k in r1
      ensures r1[k] == r2[k]
    {
      if k !in MANDATORY_KEYS {
        assert (c1 - MANDATORY_KEYS)[k] == (c2 - MANDATORY_KEYS)[k];
      }
    }
  }

  /**
   * Whatever actions are dispatched from the initial slice, the invariant
   * holds and the mandatory configuration values are in force.
   */
  lemma {:induction false} ReachableStatesAreValid(s: LibState, actions: seq<Action>)
    requires Valid(s) && Enforced(s.config)
    ensures Valid(ReduceAll(s, actions)) && Enforced(ReduceAll(s, actions).config)
    decreases |actions|
  {
    if actions != [] {
      ReachableStatesAreValid(Reduce(s, actions[0]), actions[1..]);
    }
  }
}
