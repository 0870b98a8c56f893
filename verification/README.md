# BasicAutoLoginValve, modelled in Dafny

`BasicAutoLoginValve` is a Tomcat valve that silently logs in callers from
trusted network addresses, so that functional tests can get past HTTP Basic
authentication. On each request it decides whether the caller is trusted
(its remote address or its `X-Forwarded-For` header starts with a configured
prefix, and `__autologin__` is not switched off). It then decides which user
id and password to use (`__userid__` / `__password__` request parameters,
falling back to the configured defaults). If both are non-empty it asks the
realm to authenticate them. When the realm accepts and a `BasicAuthenticator`
was found in the pipeline, it registers the principal with that
authenticator. Whatever happens, the request goes on to the next valve.

This project models that decision procedure as pure functions:

- `nullable.dfy` (`Nullable`): Java `null` as `Option`, the
  "non-null and non-empty" test, and the first-hit search loop used by both
  `start` and `isTrusted`.
- `java_strings.dfy` (`JavaStrings`): `startsWith`, `trim` (characters up to
  U+0020) and `split` on `;` (trailing empty pieces dropped), with `Join` as
  the inverse of splitting.
- `valve_config.dfy` (`ValveConfig`): the configured fields, `convertToList`
  and the four setters.
- `requests.dfy` (`Requests`): the request as the valve reads it, and
  `getParametrValue`.
- `trust.dfy` (`Trust`): `isTrusted`.
- `lifecycle.dfy` (`Lifecycle`): the `started` / `basicAuthenticator` fields
  and `start`.
- `gate.dfy` (`AutoLoginGate`): `invoke`. It returns the new valve state and
  an `Outcome`: the path taken, the realm call made (if any), the
  `register` call made (if any), and how many times the next valve was
  invoked.
- `scenarios.dfy` (`GateScenarios`): worked scenarios, each proved as a lemma,
  for a valve configured with one trusted prefix and a default user.

The collaborators are parameters. The realm is a function from user id and
password to an optional principal. The pipeline's valves are a sequence
given to `start`. The session is the optional `Session` of the request.

The model follows the code. Three facts about that code are easy to miss
from its class comment (lines 21-46):

- The valve never stores the principal on the session itself. The principal
  returned by the realm only reaches `BasicAuthenticator.register`, so
  without a `BasicAuthenticator` a successful login leaves no trace
  (`NoAuthenticator` path).
- Only a principal already on the request skips the evaluation entirely. A
  principal on the session is checked after trust has been evaluated. It still
  prevents the realm call (`SessionPrincipalSkipsRealm`), so the difference is
  visible only in the debug log.
- `setTrustedAddresses` appends to the existing list instead of replacing it
  (`TrustedAddressesAccumulate`).

## Model

| member | source | states |
|---|---|---|
| Nullable.FirstIndex | src/main/java/org/apache/catalina/authenticator/BasicAutoLoginValve.java:69-74 | the loop stops at the first element that satisfies the test: the index returned satisfies it and no earlier one does; no index means no element does |
| JavaStrings.LeadingEnd | src/main/java/org/apache/catalina/authenticator/BasicAutoLoginValve.java:159 | the first loop of `trim` stops at the first character above U+0020 (or the end), and every character before it is at or below U+0020 |
| JavaStrings.TrailingStart | src/main/java/org/apache/catalina/authenticator/BasicAutoLoginValve.java:159 | the second loop of `trim` never goes below the start index, stops after a character above U+0020 (or at the start), and leaves only characters at or below U+0020 after it |
| JavaStrings.StartsWith | src/main/java/org/apache/catalina/authenticator/BasicAutoLoginValve.java:143 | `startsWith` holds exactly when the prefix is no longer than the string and equals its first characters; every string starts with the empty string |
| JavaStrings.Trim | src/main/java/org/apache/catalina/authenticator/BasicAutoLoginValve.java:159 | `trim` returns a slice of its input with only characters at or below U+0020 cut from either end, and the result is empty or starts and ends with a character above U+0020 |
| JavaStrings.TrimKeepsCharacters | src/main/java/org/apache/catalina/authenticator/BasicAutoLoginValve.java:159 | every character of the trimmed string occurs in the input, so trimming a piece never brings in a `;` |
| JavaStrings.TrimFixedPoint | src/main/java/org/apache/catalina/authenticator/BasicAutoLoginValve.java:159 | `trim` leaves a string unchanged exactly when the string is already trimmed |
| JavaStrings.Split | src/main/java/org/apache/catalina/authenticator/BasicAutoLoginValve.java:157 | splitting gives at least one piece and no piece contains the separator |
| JavaStrings.JoinSplit | src/main/java/org/apache/catalina/authenticator/BasicAutoLoginValve.java:157 | joining the pieces of a split with the separator gives the input back, so splitting loses nothing |
| JavaStrings.SplitJoin | src/main/java/org/apache/catalina/authenticator/BasicAutoLoginValve.java:157 | splitting undoes joining when no part contains the separator, the other half of the round trip |
| JavaStrings.DropTrailingEmpty | src/main/java/org/apache/catalina/authenticator/BasicAutoLoginValve.java:157 | the empty pieces at the end are removed: the result is a prefix of the input, everything after it is empty, and the result is empty or ends in a non-empty piece |
| JavaStrings.JavaSplit | src/main/java/org/apache/catalina/authenticator/BasicAutoLoginValve.java:157 | `String.split(";")`: a string without `;` comes back whole; otherwise the pieces are a prefix of the full split, only empty pieces are dropped from its end, and the last piece kept is non-empty |
| ValveConfig.EntryOf | src/main/java/org/apache/catalina/authenticator/BasicAutoLoginValve.java:159-162 | one piece contributes at most one element, none exactly when it trims to nothing, and otherwise its trimmed form |
| ValveConfig.TrimmedEntries | src/main/java/org/apache/catalina/authenticator/BasicAutoLoginValve.java:158-163 | the loop over the pieces keeps exactly the non-empty trimmed forms of the pieces, at most one per piece, and never introduces a `;` |
| ValveConfig.ParseList | src/main/java/org/apache/catalina/authenticator/BasicAutoLoginValve.java:157-163 | the entries one attribute value contributes are all non-empty, trimmed and free of `;` |
| ValveConfig.ConvertToList | src/main/java/org/apache/catalina/authenticator/BasicAutoLoginValve.java:155-168 | a null or empty value leaves the list unchanged; otherwise the old list is kept as a prefix and every appended element is non-empty, trimmed and free of `;` |
| ValveConfig.TrimmedEntriesAppend | src/main/java/org/apache/catalina/authenticator/BasicAutoLoginValve.java:158-163 | the loop over pieces handles each piece on its own: the result for two runs of pieces is the two results concatenated |
| ValveConfig.TrimmedEntriesDropTrailingEmpty | src/main/java/org/apache/catalina/authenticator/BasicAutoLoginValve.java:157-162 | empty pieces at the end contribute nothing, so dropping them leaves the result unchanged |
| ValveConfig.ParseListIgnoresTrailingEmpties | src/main/java/org/apache/catalina/authenticator/BasicAutoLoginValve.java:157-162 | dropping trailing empty pieces, as Java's `split` does, does not change the parsed list |
| ValveConfig.ConvertRenderedList | src/main/java/org/apache/catalina/authenticator/BasicAutoLoginValve.java:155-168 | converting a `;`-joined list of trimmed non-empty entries appends exactly those entries, in order, after the old ones |
| ValveConfig.ParseListCanonical | src/main/java/org/apache/catalina/authenticator/BasicAutoLoginValve.java:155-164 | parsing the `;`-joined result of any parse, an empty one included, gives the same entries again |
| ValveConfig.SetTrustedAddresses | src/main/java/org/apache/catalina/authenticator/BasicAutoLoginValve.java:170-172 | the trusted addresses become the converted list; user id, password and logging flag are unchanged |
| ValveConfig.TrustedAddressesAccumulate | src/main/java/org/apache/catalina/authenticator/BasicAutoLoginValve.java:170-172 | two calls append both values' entries after the original list instead of replacing it, for any values, empty ones included |
| ValveConfig.SetUserId | src/main/java/org/apache/catalina/authenticator/BasicAutoLoginValve.java:174-179 | a null or empty value leaves the whole configuration unchanged; any other value replaces the user id and nothing else |
| ValveConfig.SetPassword | src/main/java/org/apache/catalina/authenticator/BasicAutoLoginValve.java:181-186 | a null or empty value leaves the whole configuration unchanged; any other value replaces the password and nothing else |
| ValveConfig.SetLoggingEnabled | src/main/java/org/apache/catalina/authenticator/BasicAutoLoginValve.java:188-193 | a null value leaves the configuration unchanged; any other value replaces the logging flag and nothing else |
| ValveConfig.LastUserIdWins | src/main/java/org/apache/catalina/authenticator/BasicAutoLoginValve.java:174-179 | after two calls the user id is the last present value, or the original one when neither was present |
| ValveConfig.LastPasswordWins | src/main/java/org/apache/catalina/authenticator/BasicAutoLoginValve.java:181-186 | after two calls the password is the last present value, or the original one when neither was present |
| ValveConfig.SettersPreserveWf | src/main/java/org/apache/catalina/authenticator/BasicAutoLoginValve.java:155-193 | every setter keeps the trusted addresses trimmed, non-empty and free of `;`, and a stored user id or password non-empty |
| Requests.GetParameter | src/main/java/org/apache/catalina/authenticator/BasicAutoLoginValve.java:130 | a parameter is non-null exactly when the request carries it, and then it is the request's value |
| Requests.GetHeader | src/main/java/org/apache/catalina/authenticator/BasicAutoLoginValve.java:91 | a header is non-null exactly when the request carries it, and then it is the request's value |
| Requests.ParameterValue | src/main/java/org/apache/catalina/authenticator/BasicAutoLoginValve.java:129-136 | a non-null, non-empty request parameter is returned as is; otherwise the default is returned, null included |
| Requests.EffectiveAutologin | src/main/java/org/apache/catalina/authenticator/BasicAutoLoginValve.java:144 | the effective `__autologin__` is the request's value when that is non-null and non-empty, and `"yes"` otherwise, so it is never null |
| Requests.OverrideWins | src/main/java/org/apache/catalina/authenticator/BasicAutoLoginValve.java:129-136 | with a non-empty request parameter the result is that parameter, whatever the default |
| Requests.ParameterValueNull | src/main/java/org/apache/catalina/authenticator/BasicAutoLoginValve.java:129-136 | the result is null exactly when the parameter is missing or empty and the default is null |
| Requests.ParameterValuePresent | src/main/java/org/apache/catalina/authenticator/BasicAutoLoginValve.java:129-136 | the result is non-empty exactly when the parameter or the default is non-empty |
| Requests.AutologinDefaultsToYes | src/main/java/org/apache/catalina/authenticator/BasicAutoLoginValve.java:144 | a missing or empty `__autologin__` resolves to `"yes"` |
| Trust.FirstMatchingPrefix | src/main/java/org/apache/catalina/authenticator/BasicAutoLoginValve.java:142-143 | the prefix picked starts the address and no earlier prefix does; none is picked exactly when no prefix starts the address |
| Trust.IsTrusted | src/main/java/org/apache/catalina/authenticator/BasicAutoLoginValve.java:138-153 | an address is trusted exactly when it is non-null, some configured prefix starts it and the effective `__autologin__` is `"yes"`; stopping at the first matching prefix does not change that |
| Trust.UntrustedWithoutAddressOrPrefixes | src/main/java/org/apache/catalina/authenticator/BasicAutoLoginValve.java:139-141 | a null address or an empty prefix list is never trusted |
| Trust.AnyMatchDecides | src/main/java/org/apache/catalina/authenticator/BasicAutoLoginValve.java:143-148 | whichever prefix matches, the result is the `__autologin__` test, so the first match decides as any later one would |
| Trust.OptOutDistrustsEverything | src/main/java/org/apache/catalina/authenticator/BasicAutoLoginValve.java:144-147 | a non-empty `__autologin__` other than `"yes"` (case-sensitive) makes every address untrusted |
| Trust.MorePrefixesTrustMore | src/main/java/org/apache/catalina/authenticator/BasicAutoLoginValve.java:142-149 | appending prefixes never withdraws trust |
| Lifecycle.Start | src/main/java/org/apache/catalina/authenticator/BasicAutoLoginValve.java:64-77 | after `start` the valve is started with its configuration unchanged; a first call records the first `BasicAuthenticator` of the pipeline, and leaves the field as it was when the pipeline has none; a later call changes nothing |
| Lifecycle.StartIdempotent | src/main/java/org/apache/catalina/authenticator/BasicAutoLoginValve.java:64-65 | a second `start`, with any pipeline, leaves the state of the first |
| Lifecycle.StartPreservesWf | src/main/java/org/apache/catalina/authenticator/BasicAutoLoginValve.java:69-75 | the recorded authenticator is always a `BasicAuthenticator`, and none is recorded before `start` |
| AutoLoginGate.SessionPrincipal | src/main/java/org/apache/catalina/authenticator/BasicAutoLoginValve.java:103-108 | with a session the result is that session's principal; without one it is null |
| AutoLoginGate.TrustedRequest | src/main/java/org/apache/catalina/authenticator/BasicAutoLoginValve.java:90-92 | the request is trusted exactly when the effective `__autologin__` is `"yes"` (a missing or empty parameter counts as `"yes"`) and some prefix starts the remote address or the `X-Forwarded-For` value |
| AutoLoginGate.ResolvedUserId | src/main/java/org/apache/catalina/authenticator/BasicAutoLoginValve.java:112 | the user id is the non-empty `__userid__` parameter when there is one, and the configured user id (possibly null) otherwise |
| AutoLoginGate.ResolvedPassword | src/main/java/org/apache/catalina/authenticator/BasicAutoLoginValve.java:113 | the password is the non-empty `__password__` parameter when there is one, and the configured password (possibly null) otherwise |
| AutoLoginGate.Decide | src/main/java/org/apache/catalina/authenticator/BasicAutoLoginValve.java:90-124 | after the request-principal check, the realm is asked exactly when the login conditions hold, the path is `Untrusted` exactly when neither address is trusted, registration happens only on the `Registered` path and needs a known authenticator, and the next valve runs once |
| AutoLoginGate.Invoke | src/main/java/org/apache/catalina/authenticator/BasicAutoLoginValve.java:80-127 | the realm is called exactly when there is no request principal, either address is trusted, the session has no principal and the resolved user id and password are non-empty, and it gets those values; `register` is called exactly when the realm returned a principal and an authenticator is known, with that principal, `"BASIC"` and the same credentials; the next valve runs once; `start` runs only without a request principal |
| AutoLoginGate.FailOpen | src/main/java/org/apache/catalina/authenticator/BasicAutoLoginValve.java:114-126 | every path forwards the request exactly once; registration happens only on the `Registered` path and the realm is called only on the paths after the credential check |
| AutoLoginGate.RealmIrrelevantWhenNotAsked | src/main/java/org/apache/catalina/authenticator/BasicAutoLoginValve.java:114-117 | when the login conditions fail, the outcome is the same for every realm |
| AutoLoginGate.SessionPrincipalSkipsRealm | src/main/java/org/apache/catalina/authenticator/BasicAutoLoginValve.java:104-110 | a session that already holds a principal gets no realm call and no registration |
| AutoLoginGate.ForwardedForSuffices | src/main/java/org/apache/catalina/authenticator/BasicAutoLoginValve.java:91-92 | a trusted `X-Forwarded-For` leads to a realm call even when the remote address is untrusted |
| AutoLoginGate.RemoteAddrSuffices | src/main/java/org/apache/catalina/authenticator/BasicAutoLoginValve.java:90-92 | a trusted remote address leads to a realm call whatever the forwarded header says |
| AutoLoginGate.OptOutSkipsRealm | src/main/java/org/apache/catalina/authenticator/BasicAutoLoginValve.java:144-147 | a non-empty `__autologin__` other than `"yes"` prevents the realm call; an empty one counts as absent |
| AutoLoginGate.ParametersOverrideConfiguredCredentials | src/main/java/org/apache/catalina/authenticator/BasicAutoLoginValve.java:112-117 | non-empty `__userid__` and `__password__` are what the realm receives, whatever is configured |
| AutoLoginGate.InvokeStartsOnce | src/main/java/org/apache/catalina/authenticator/BasicAutoLoginValve.java:83-88 | after a request without a principal the valve is started, and no later request changes its state |
| AutoLoginGate.InvokePreservesWf | src/main/java/org/apache/catalina/authenticator/BasicAutoLoginValve.java:80-127 | `invoke` keeps the configuration and the recorded authenticator well formed |
| GateScenarios.ScenarioConfigFromSetters | src/main/java/org/apache/catalina/authenticator/BasicAutoLoginValve.java:27-34 | the setters applied to `trustedAddresses="10.0.0" userId="alice" password="secret"` give prefix list `["10.0.0"]` and that user and password |
| GateScenarios.ScenarioTrustedDefaults | src/main/java/org/apache/catalina/authenticator/BasicAutoLoginValve.java:101-121 | from `10.0.0.5` with no overrides the realm gets `alice`/`secret` and its principal is registered with `"BASIC"` with the pipeline's `BasicAuthenticator` |
| GateScenarios.ScenarioUntrustedAddress | src/main/java/org/apache/catalina/authenticator/BasicAutoLoginValve.java:41-42 | from `192.168.1.5` with no forwarded header the realm is not called |
| GateScenarios.ScenarioOptOut | src/main/java/org/apache/catalina/authenticator/BasicAutoLoginValve.java:43 | `__autologin__=no` from a trusted address prevents the realm call |
| GateScenarios.ScenarioEmptyOptOut | src/main/java/org/apache/catalina/authenticator/BasicAutoLoginValve.java:129-136 | an empty `__autologin__` from a trusted address counts as absent, so the realm still gets `alice`/`secret` |
| GateScenarios.ScenarioRejectedOverride | src/main/java/org/apache/catalina/authenticator/BasicAutoLoginValve.java:112-126 | overridden credentials `bob`/`x` reach the realm; its rejection registers nothing and the request is still forwarded |
| GateScenarios.ScenarioAlreadyAuthenticated | src/main/java/org/apache/catalina/authenticator/BasicAutoLoginValve.java:82-83 | a request with a principal leaves the valve unstarted and does nothing but forward |
| GateScenarios.ScenarioSessionAuthenticated | src/main/java/org/apache/catalina/authenticator/BasicAutoLoginValve.java:104-110 | a trusted request whose session holds a principal makes no realm call |

## Left out

- `dumpHeaders` and every `containerLog.debug` call are left out: they only log. So `loggingEnabled` is stored but has no effect in the model.
- The `synchronized` on `start` is a concurrency concern. `start` is modelled as a sequential initialiser that runs at most once.
- `IOException` and `ServletException` from the next valve are pipeline plumbing. The model only records that the next valve is invoked once.
- `Realm.authenticate`, `BasicAuthenticator.register`, `Request.getSessionInternal` and the pipeline's `getValves` are Tomcat code outside this model. The realm is a function parameter. The session and the valve list are inputs. A `register` call is recorded, not performed.
- Whether `getSessionInternal` creates a session is decided inside Tomcat. The request's optional session is taken as given.
- A null realm (a `NullPointerException` in Java) is not modelled: the realm parameter is always a function.
- Requests.GetHeader: header names are compared exactly, while Tomcat matches them case-insensitively.
- JavaStrings.JavaSplit: models `split(";")` as a split on the character `;`, without Java's general regular-expression machinery. For this one-character pattern the result is the same.
- Strings are sequences of Dafny characters (Unicode scalar values), while a Java `String` is a sequence of UTF-16 code units. Lone surrogates cannot be represented. `trim`, `startsWith` and `equals` agree on well-formed text.
- Principals are opaque values carrying a name. Nothing about their contents is modelled.
