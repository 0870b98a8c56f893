/**
 * The read-only view of a request that the valve consults, and the two-tier
 * precedence between a request parameter and a configured default.
 */
module Requests {
  import opened Nullable

  /** The request parameter that switches auto-login off for one request. */
  const PARAMETER_AUTOLOGIN: string := "__autologin__"
  /** The request parameter that overrides the configured password. */
  const PARAMETER_PASSWORD: string := "__password__"
  /** The request parameter that overrides the configured user id. */
  const PARAMETER_USERID: string := "__userid__"
  /** The only value of `__autologin__` that lets auto-login happen. */
  const YES: string := "yes"

  /** An established identity, as the realm hands it out; the valve never looks inside. */
  datatype Principal = Principal(name: string)

  /** The part of a container session the valve reads: its bound principal. */
  datatype Session = Session(principal: Option<Principal>)

  /**
   * A request as the valve sees it: the principal already on the request,
   * the remote address, headers and parameters (first value per name), and
   * the internal session, if any.
   */
  datatype Request = Request(
    userPrincipal: Option<Principal>,
    remoteAddr: Option<string>,
    headers: map<string, string>,
    parameters: map<string, string>,
    session: Option<Session>)

  /** `request.getParameter(name)`. */
  function GetParameter(req: Request, name: string): (r: Option<string>)
    ensures r.Some? <==> name in req.parameters
    ensures r.Some? ==> r.value == req.parameters[name]
  {
    if name in req.parameters then Some(req.parameters[name]) else None
  }

  /** `request.getHeader(name)`. */
  function GetHeader(req: Request, name: string): (r: Option<string>)
    ensures r.Some? <==> name in req.headers
    ensures r.Some? ==> r.value == req.headers[name]
  {
    if name in req.headers then Some(req.headers[name]) else None
  }

  /**
   * `getParametrValue`: the request parameter when it is present and
   * non-empty, the configured default (possibly null) otherwise.
   */
  function ParameterValue(req: Request, name: string, default: Option<string>): (r: Option<string>)
    ensures Present(GetParameter(req, name)) ==> r == Some(req.parameters[name])
    ensures !Present(GetParameter(req, name)) ==> r == default
  {
    var value := GetParameter(req, name);
    if !Present(value) then default else value
  }

  /** The effective `__autologin__` value; it falls back to `"yes"`, so it is never null. */
  function EffectiveAutologin(req: Request): (r: string)
    ensures r == YES || (PARAMETER_AUTOLOGIN in req.parameters && r == req.parameters[PARAMETER_AUTOLOGIN])
    ensures Present(GetParameter(req, PARAMETER_AUTOLOGIN)) ==> r == req.parameters[PARAMETER_AUTOLOGIN]
    ensures !Present(GetParameter(req, PARAMETER_AUTOLOGIN)) ==> r == YES
  {
    ParameterValue(req, PARAMETER_AUTOLOGIN, Some(YES)).value
  }

  /** A present, non-empty parameter decides on its own: the default is never consulted. */
  lemma OverrideWins(req: Request, name: string, d1: Option<string>, d2: Option<string>)
    requires name in req.parameters && req.parameters[name] != []
    ensures ParameterValue(req, name, d1) == ParameterValue(req, name, d2) == Some(req.parameters[name])
  {
  }

  /** The value is null exactly when the parameter is missing or empty and the default is null. */
  lemma ParameterValueNull(req: Request, name: string, default: Option<string>)
    ensures ParameterValue(req, name, default).None?
        <==> (name !in req.parameters || req.parameters[name] == []) && default.None?
  {
  }

  /** The value is present exactly when the parameter is present or the default is. */
  lemma ParameterValuePresent(req: Request, name: string, default: Option<string>)
    ensures Present(ParameterValue(req, name, default))
        <==> (name in req.parameters && req.parameters[name] != []) || Present(default)
  {
  }

  /** With `__autologin__` missing or empty, auto-login stays on. */
  lemma AutologinDefaultsToYes(req: Request)
    requires PARAMETER_AUTOLOGIN !in req.parameters || req.parameters[PARAMETER_AUTOLOGIN] == []
    ensures EffectiveAutologin(req) == YES
  {
  }
}
