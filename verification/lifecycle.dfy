/**
 * The valve's lazily initialised state: its configuration, whether `start`
 * has run, and the `BasicAuthenticator` it found in the pipeline.
 */
module Lifecycle {
  import opened Nullable
  import opened ValveConfig

  /** A valve of the pipeline; only `BasicAuthenticator`s matter to this valve. */
  datatype Valve = BasicAuthenticator(name: string) | OtherValve(name: string)

  /** The fields of the valve object. */
  datatype ValveState = ValveState(config: Config, started: bool, basicAuthenticator: Option<Valve>)

  /** A freshly constructed valve. */
  const InitialState: ValveState := ValveState(InitialConfig, false, None)

  /** `v` is the first `BasicAuthenticator` among `valves`. */
  predicate IsFirstBasicAuthenticator(valves: seq<Valve>, v: Valve) {
    exists i :: 0 <= i < |valves| && valves[i] == v && v.BasicAuthenticator?
      && forall j :: 0 <= j < i ==> !valves[j].BasicAuthenticator?
  }

  /** Some valve of the pipeline is a `BasicAuthenticator`. */
  predicate HasBasicAuthenticator(valves: seq<Valve>) {
    exists i :: 0 <= i < |valves| && valves[i].BasicAuthenticator?
  }

  /** The valve state the rest of the model relies on. */
  predicate StateWf(s: ValveState) {
    && (s.basicAuthenticator.Some? ==> s.basicAuthenticator.value.BasicAuthenticator?)
    && (!s.started ==> s.basicAuthenticator.None?)
  }

  /**
   * `start`: on its first call it records the first `BasicAuthenticator` of
   * the pipeline and marks the valve started; when the pipeline has none,
   * the field keeps whatever it held (null for a fresh valve). Afterwards it
   * does nothing. The configuration is never touched.
   */
  function Start(s: ValveState, valves: seq<Valve>): (r: ValveState)
    ensures r.started && r.config == s.config
    ensures s.started ==> r == s
    ensures !s.started && HasBasicAuthenticator(valves) ==>
              r.basicAuthenticator.Some? && IsFirstBasicAuthenticator(valves, r.basicAuthenticator.value)
    ensures !s.started && !HasBasicAuthenticator(valves) ==> r.basicAuthenticator == s.basicAuthenticator
  {
    if s.started then s
    else
      var found := match FirstIndex(valves, (v: Valve) => v.BasicAuthenticator?)
        case None => s.basicAuthenticator
        case Some(i) => Some(valves[i]);
      s.(basicAuthenticator := found, started := true)
  }

  /** A second `start` changes nothing, whatever pipeline it is given. */
  lemma StartIdempotent(s: ValveState, valves: seq<Valve>, later: seq<Valve>)
    ensures Start(Start(s, valves), later) == Start(s, valves)
  {
  }

  /** `start` keeps the valve state well formed. */
  lemma StartPreservesWf(s: ValveState, valves: seq<Valve>)
    requires StateWf(s)
    ensures StateWf(Start(s, valves))
  {
  }
}
