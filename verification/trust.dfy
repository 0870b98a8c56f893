/** `isTrusted`: whether one candidate client address may be auto-logged in. */
module Trust {
  import opened Nullable
  import opened JavaStrings
  import opened Requests

  /** Some configured prefix starts `addr`. */
  predicate MatchesSomePrefix(prefixes: seq<string>, addr: string) {
    exists j :: 0 <= j < |prefixes| && StartsWith(addr, prefixes[j])
  }

  /** The position of the first configured prefix that starts `addr`, in configured order. */
  function FirstMatchingPrefix(prefixes: seq<string>, addr: string): (r: Option<nat>)
    ensures r.Some? ==> r.value < |prefixes| && StartsWith(addr, prefixes[r.value])
    ensures r.Some? ==> forall j :: 0 <= j < r.value ==> !StartsWith(addr, prefixes[j])
    ensures r.None? <==> !MatchesSomePrefix(prefixes, addr)
  {
    FirstIndex(prefixes, p => StartsWith(addr, p))
  }

  /**
   * `isTrusted`: a null address is never trusted; otherwise the prefixes are
   * tried in order and the first one that starts the address decides, by
   * whether the effective `__autologin__` is exactly `"yes"`. Because that
   * test does not depend on which prefix matched, the result is the same as
   * asking whether any prefix matches.
   */
  function IsTrusted(prefixes: seq<string>, req: Request, addr: Option<string>): (r: bool)
    ensures r <==> addr.Some? && MatchesSomePrefix(prefixes, addr.value) && EffectiveAutologin(req) == YES
  {
    if addr.None? then false
    else
      match FirstMatchingPrefix(prefixes, addr.value)
      case None => false
      case Some(_) => EffectiveAutologin(req) == YES
  }

  /** A null address, or an empty prefix list, is never trusted. */
  lemma UntrustedWithoutAddressOrPrefixes(prefixes: seq<string>, req: Request, addr: Option<string>)
    requires addr.None? || prefixes == []
    ensures !IsTrusted(prefixes, req, addr)
  {
  }

  /**
   * Whichever prefix matches, the verdict is the `__autologin__` test: a
   * later matching prefix would have decided the same way as the first.
   */
  lemma AnyMatchDecides(prefixes: seq<string>, req: Request, addr: string, j: nat)
    requires j < |prefixes| && StartsWith(addr, prefixes[j])
    ensures IsTrusted(prefixes, req, Some(addr)) <==> EffectiveAutologin(req) == YES
  {
  }

  /** A non-empty `__autologin__` other than `"yes"` (compared case-sensitively) turns trust off for every address. */
  lemma OptOutDistrustsEverything(prefixes: seq<string>, req: Request, addr: Option<string>)
    requires PARAMETER_AUTOLOGIN in req.parameters
    requires req.parameters[PARAMETER_AUTOLOGIN] != [] && req.parameters[PARAMETER_AUTOLOGIN] != YES
    ensures !IsTrusted(prefixes, req, addr)
  {
  }

  /** Adding prefixes never withdraws trust. */
  lemma MorePrefixesTrustMore(prefixes: seq<string>, extra: seq<string>, req: Request, addr: Option<string>)
    requires IsTrusted(prefixes, req, addr)
    ensures IsTrusted(prefixes + extra, req, addr)
  {
    var j :| 0 <= j < |prefixes| && StartsWith(addr.value, prefixes[j]);
    assert (prefixes + extra)[j] == prefixes[j];
  }
}
