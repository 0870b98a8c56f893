/**
 * Worked scenarios, each proved as a lemma: a valve configured with one trusted prefix,
 * a default user and password, and a pipeline holding a `BasicAuthenticator`.
 */
module GateScenarios {
  import opened Nullable
  import opened JavaStrings
  import opened ValveConfig
  import opened Requests
  import opened Lifecycle
  import opened AutoLoginGate

  /** The configuration `trustedAddresses="10.0.0" userId="alice" password="secret"`. */
  const ScenarioConfig: Config := Config(["10.0.0"], Some("alice"), Some("secret"), false)

  /** The setters, applied to the attributes in turn, build exactly that configuration. */
  lemma ScenarioConfigFromSetters()
    ensures SetPassword(SetUserId(SetTrustedAddresses(InitialConfig, Some("10.0.0")), Some("alice")), Some("secret"))
         == ScenarioConfig
  {
    assert ';' !in "10.0.0";
    assert IsTrimmed("10.0.0");
    ConvertRenderedList(["10.0.0"], []);
  }

  /** A pipeline whose second valve is the `BasicAuthenticator`. */
  const Pipeline: seq<Valve> := [OtherValve("access-log"), BasicAuthenticator("basic")]

  /** A realm that knows exactly one account. */
  function AliceRealm(username: string, password: string): Option<Principal> {
    if username == "alice" && password == "secret" then Some(Principal("alice")) else None
  }

  /** A request from `addr` with the given parameters, no headers, no session and no principal. */
  function RequestFrom(addr: string, parameters: map<string, string>): Request {
    Request(None, Some(addr), map[], parameters, None)
  }

  /** A trusted address with no overrides logs in the configured user and registers the principal. */
  lemma ScenarioTrustedDefaults()
    ensures var r := Invoke(ValveState(ScenarioConfig, false, None), RequestFrom("10.0.0.5", map[]), Pipeline, AliceRealm);
      && r.1.realmCall == Some(Credentials("alice", "secret"))
      && r.1.registration == Some(Registration(Principal("alice"), "BASIC", "alice", "secret"))
      && r.0.basicAuthenticator == Some(BasicAuthenticator("basic"))
  {
  }

  /** An address outside the trusted prefixes, with no `X-Forwarded-For`, never reaches the realm. */
  lemma ScenarioUntrustedAddress()
    ensures var r := Invoke(ValveState(ScenarioConfig, false, None), RequestFrom("192.168.1.5", map[]), Pipeline, AliceRealm);
      r.1.realmCall.None? && r.1.path == Untrusted
  {
    assert "10.0.0"[1] != "192.168.1.5"[1];
  }

  /** `__autologin__=no` from a trusted address never reaches the realm. */
  lemma ScenarioOptOut()
    ensures var r := Invoke(ValveState(ScenarioConfig, false, None), RequestFrom("10.0.0.5", map["__autologin__" := "no"]), Pipeline, AliceRealm);
      r.1.realmCall.None? && r.1.path == Untrusted
  {
  }

  /** An empty `__autologin__` counts as absent: auto-login stays on. */
  lemma ScenarioEmptyOptOut()
    ensures var r := Invoke(ValveState(ScenarioConfig, false, None), RequestFrom("10.0.0.5", map["__autologin__" := ""]), Pipeline, AliceRealm);
      r.1.realmCall == Some(Credentials("alice", "secret"))
  {
  }

  /** Overridden credentials that the realm rejects leave the request unauthenticated but forwarded. */
  lemma ScenarioRejectedOverride()
    ensures var r := Invoke(ValveState(ScenarioConfig, false, None),
                            RequestFrom("10.0.0.5", map["__userid__" := "bob", "__password__" := "x"]), Pipeline, AliceRealm);
      && r.1.realmCall == Some(Credentials("bob", "x"))
      && r.1.registration.None? && r.1.path == Rejected && r.1.nextInvocations == 1
  {
  }

  /** A request that already carries a principal is passed on untouched, without starting the valve. */
  lemma ScenarioAlreadyAuthenticated()
    ensures var s := ValveState(ScenarioConfig, false, None);
      var r := Invoke(s, Request(Some(Principal("alice")), Some("10.0.0.5"), map[], map[], None), Pipeline, AliceRealm);
      r.0 == s && r.1 == Outcome(AlreadyAuthenticated, None, None, 1)
  {
  }

  /** A session already holding a principal is not logged in again, although trust is still evaluated. */
  lemma ScenarioSessionAuthenticated()
    ensures var req := Request(None, Some("10.0.0.5"), map[], map[], Some(Session(Some(Principal("alice")))));
      var r := Invoke(ValveState(ScenarioConfig, false, None), req, Pipeline, AliceRealm);
      r.1.realmCall.None? && r.1.path == SessionAuthenticated
  {
  }
}
