/**
 * `invoke`: the per-request decision of the auto-login valve. The realm is a
 * function parameter, the pipeline's valves are an input to the lazy
 * `start`, and what the valve does to its collaborators is recorded in an
 * `Outcome` instead of being performed.
 */
module AutoLoginGate {
  import opened Nullable
  import opened ValveConfig
  import opened Requests
  import opened Trust
  import opened Lifecycle

  /** The header that carries the original client address behind a proxy. */
  const FORWARDED_FOR: string := "X-Forwarded-For"
  /** The authentication method handed to `BasicAuthenticator.register`. */
  const AUTH_METHOD: string := "BASIC"

  /** `realm.authenticate(username, credentials)`; `None` is a rejection. */
  type Realm = (string, string) -> Option<Principal>

  /** The arguments of the one call to the realm. */
  datatype Credentials = Credentials(username: string, password: string)

  /** The arguments of the one call to `BasicAuthenticator.register`. */
  datatype Registration = Registration(principal: Principal, authMethod: string, username: string, password: string)

  /** Where the decision ended. */
  datatype Path =
    | AlreadyAuthenticated   // the request carries a principal: nothing is evaluated
    | Untrusted              // neither address is trusted, or `__autologin__` says no
    | SessionAuthenticated   // the session already has a principal
    | MissingCredentials     // the resolved user id or password is null or empty
    | Rejected               // the realm returned no principal
    | NoAuthenticator        // accepted, but there is no `BasicAuthenticator` to register with
    | Registered             // accepted and registered

  /**
   * What one `invoke` did: the path it took, the realm call and the
   * registration it made (each at most once), and how many times it handed
   * the request to the next valve.
   */
  datatype Outcome = Outcome(
    path: Path,
    realmCall: Option<Credentials>,
    registration: Option<Registration>,
    nextInvocations: nat)

  /** The principal of the request's session, or null when there is no session. */
  function SessionPrincipal(req: Request): (r: Option<Principal>)
    ensures r.Some? ==> req.session.Some? && req.session.value.principal == r
    ensures req.session.Some? ==> r == req.session.value.principal
  {
    if req.session.Some? then req.session.value.principal else None
  }

  /** Trust is the OR of `isTrusted` over the remote address and the `X-Forwarded-For` header. */
  predicate TrustedRequest(c: Config, req: Request)
    ensures TrustedRequest(c, req) <==>
              && EffectiveAutologin(req) == YES
              && ((req.remoteAddr.Some? && MatchesSomePrefix(c.trustedAddresses, req.remoteAddr.value))
                  || (FORWARDED_FOR in req.headers && MatchesSomePrefix(c.trustedAddresses, req.headers[FORWARDED_FOR])))
  {
    IsTrusted(c.trustedAddresses, req, req.remoteAddr)
    || IsTrusted(c.trustedAddresses, req, GetHeader(req, FORWARDED_FOR))
  }

  /** The user id auto-login would use: `__userid__`, else the configured one. */
  function ResolvedUserId(c: Config, req: Request): (r: Option<string>)
    ensures PARAMETER_USERID in req.parameters && req.parameters[PARAMETER_USERID] != [] ==>
              r == Some(req.parameters[PARAMETER_USERID])
    ensures PARAMETER_USERID !in req.parameters || req.parameters[PARAMETER_USERID] == [] ==> r == c.userId
  {
    ParameterValue(req, PARAMETER_USERID, c.userId)
  }

  /** The password auto-login would use: `__password__`, else the configured one. */
  function ResolvedPassword(c: Config, req: Request): (r: Option<string>)
    ensures PARAMETER_PASSWORD in req.parameters && req.parameters[PARAMETER_PASSWORD] != [] ==>
              r == Some(req.parameters[PARAMETER_PASSWORD])
    ensures PARAMETER_PASSWORD !in req.parameters || req.parameters[PARAMETER_PASSWORD] == [] ==> r == c.password
  {
    ParameterValue(req, PARAMETER_PASSWORD, c.password)
  }

  /** Every condition under which the valve asks the realm. */
  predicate AttemptsLogin(c: Config, req: Request) {
    && req.userPrincipal.None?
    && TrustedRequest(c, req)
    && SessionPrincipal(req).None?
    && Present(ResolvedUserId(c, req))
    && Present(ResolvedPassword(c, req))
  }

  /** The decision after the request principal has been checked and `start` has run. */
  function Decide(s: ValveState, req: Request, realm: Realm): (o: Outcome)
    requires req.userPrincipal.None?
    ensures o.nextInvocations == 1
    ensures o.realmCall.Some? <==> AttemptsLogin(s.config, req)
    ensures o.path == Untrusted <==> !TrustedRequest(s.config, req)
    ensures o.registration.Some? <==> o.path == Registered
    ensures o.registration.Some? ==> s.basicAuthenticator.Some? && o.realmCall.Some?
  {
    if !TrustedRequest(s.config, req) then Outcome(Untrusted, None, None, 1)
    else if SessionPrincipal(req).Some? then Outcome(SessionAuthenticated, None, None, 1)
    else
      var username := ResolvedUserId(s.config, req);
      var credentials := ResolvedPassword(s.config, req);
      if !(Present(username) && Present(credentials)) then Outcome(MissingCredentials, None, None, 1)
      else
        var call := Some(Credentials(username.value, credentials.value));
        var principal := realm(username.value, credentials.value);
        if principal.None? then Outcome(Rejected, call, None, 1)
        else if s.basicAuthenticator.None? then Outcome(NoAuthenticator, call, None, 1)
        else Outcome(Registered, call, Some(Registration(principal.value, AUTH_METHOD, username.value, credentials.value)), 1)
  }

  /**
   * `invoke`: returns the valve state afterwards and what was done. The realm
   * is asked exactly when `AttemptsLogin` holds, with the resolved user id and
   * password; `register` is called exactly when the realm accepted and a
   * `BasicAuthenticator` is known, with the realm's principal, `"BASIC"` and
   * the same credentials; the next valve is invoked once on every path.
   * `start` runs only for requests without a principal.
   */
  function Invoke(s: ValveState, req: Request, valves: seq<Valve>, realm: Realm): (r: (ValveState, Outcome))
    ensures r.1.nextInvocations == 1
    ensures r.1.realmCall.Some? <==> AttemptsLogin(s.config, req)
    ensures r.1.realmCall.Some? ==>
              r.1.realmCall.value == Credentials(ResolvedUserId(s.config, req).value, ResolvedPassword(s.config, req).value)
    ensures r.1.registration.Some? <==>
              r.1.realmCall.Some? && realm(r.1.realmCall.value.username, r.1.realmCall.value.password).Some?
              && r.0.basicAuthenticator.Some?
    ensures r.1.registration.Some? ==>
              var call := r.1.realmCall.value;
              r.1.registration.value == Registration(realm(call.username, call.password).value, AUTH_METHOD, call.username, call.password)
    ensures r.0.config == s.config
    ensures req.userPrincipal.Some? ==> r.0 == s && r.1.path == AlreadyAuthenticated
    ensures req.userPrincipal.None? ==> r.0 == Start(s, valves)
  {
    if req.userPrincipal.Some? then (s, Outcome(AlreadyAuthenticated, None, None, 1))
    else
      var started := if !s.started then Start(s, valves) else s;
      (started, Decide(started, req, realm))
  }

  /** The valve never blocks a request: every path forwards it exactly once, and only a realm acceptance leads to registration. */
  lemma FailOpen(s: ValveState, req: Request, valves: seq<Valve>, realm: Realm)
    ensures var o := Invoke(s, req, valves, realm).1;
      && o.nextInvocations == 1
      && (o.registration.Some? <==> o.path == Registered)
      && (o.realmCall.Some? <==> o.path in {Rejected, NoAuthenticator, Registered})
  {
  }

  /** When the realm is not asked, the outcome does not depend on the realm at all. */
  lemma RealmIrrelevantWhenNotAsked(s: ValveState, req: Request, valves: seq<Valve>, realm1: Realm, realm2: Realm)
    requires !AttemptsLogin(s.config, req)
    ensures Invoke(s, req, valves, realm1) == Invoke(s, req, valves, realm2)
  {
  }

  /** A session that already holds a principal is never logged in again, whatever the realm or the request asks. */
  lemma SessionPrincipalSkipsRealm(s: ValveState, req: Request, valves: seq<Valve>, realm: Realm)
    requires SessionPrincipal(req).Some?
    ensures Invoke(s, req, valves, realm).1.realmCall.None?
    ensures Invoke(s, req, valves, realm).1.registration.None?
  {
  }

  /** A trusted `X-Forwarded-For` is enough even when the remote address is untrusted. */
  lemma ForwardedForSuffices(s: ValveState, req: Request, valves: seq<Valve>, realm: Realm)
    requires req.userPrincipal.None? && SessionPrincipal(req).None?
    requires !IsTrusted(s.config.trustedAddresses, req, req.remoteAddr)
    requires IsTrusted(s.config.trustedAddresses, req, GetHeader(req, FORWARDED_FOR))
    requires Present(ResolvedUserId(s.config, req)) && Present(ResolvedPassword(s.config, req))
    ensures Invoke(s, req, valves, realm).1.realmCall.Some?
  {
  }

  /** A trusted remote address is enough whatever the `X-Forwarded-For` header says. */
  lemma RemoteAddrSuffices(s: ValveState, req: Request, valves: seq<Valve>, realm: Realm)
    requires req.userPrincipal.None? && SessionPrincipal(req).None?
    requires IsTrusted(s.config.trustedAddresses, req, req.remoteAddr)
    requires Present(ResolvedUserId(s.config, req)) && Present(ResolvedPassword(s.config, req))
    ensures Invoke(s, req, valves, realm).1.realmCall.Some?
  {
  }

  /** A non-empty `__autologin__` other than `"yes"` stops auto-login even from a trusted address. */
  lemma OptOutSkipsRealm(s: ValveState, req: Request, valves: seq<Valve>, realm: Realm)
    requires PARAMETER_AUTOLOGIN in req.parameters
    requires req.parameters[PARAMETER_AUTOLOGIN] != [] && req.parameters[PARAMETER_AUTOLOGIN] != YES
    ensures Invoke(s, req, valves, realm).1.realmCall.None?
  {
  }

  /** Non-empty `__userid__` and `__password__` parameters are what the realm receives, whatever is configured. */
  lemma ParametersOverrideConfiguredCredentials(s: ValveState, req: Request, valves: seq<Valve>, realm: Realm)
    requires PARAMETER_USERID in req.parameters && req.parameters[PARAMETER_USERID] != []
    requires PARAMETER_PASSWORD in req.parameters && req.parameters[PARAMETER_PASSWORD] != []
    requires AttemptsLogin(s.config, req)
    ensures Invoke(s, req, valves, realm).1.realmCall
         == Some(Credentials(req.parameters[PARAMETER_USERID], req.parameters[PARAMETER_PASSWORD]))
  {
  }

  /**
   * The lazy initialisation happens once: after a request without a
   * principal the valve is started, and no later request changes its state.
   */
  lemma InvokeStartsOnce(s: ValveState, first: Request, second: Request, valves: seq<Valve>, later: seq<Valve>, realm1: Realm, realm2: Realm)
    requires first.userPrincipal.None?
    ensures var s1 := Invoke(s, first, valves, realm1).0;
      s1.started && Invoke(s1, second, later, realm2).0 == s1
  {
  }

  /** `invoke` keeps the valve state well formed. */
  lemma InvokePreservesWf(s: ValveState, req: Request, valves: seq<Valve>, realm: Realm)
    requires StateWf(s) && Wf(s.config)
    ensures StateWf(Invoke(s, req, valves, realm).0) && Wf(Invoke(s, req, valves, realm).0.config)
  {
  }
}
