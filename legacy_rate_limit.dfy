/**
 * The older rate limiter decorator (server/handler/rate_limit.py). It applies
 * the same key, re-seed test and three-way rule as `RateLimit`, but never
 * creates `g.rate_limit`: when the map is absent the first access to it
 * raises `AttributeError` before the handler runs.
 */
module LegacyRateLimit {
  import opened Wrappers
  import opened RateLimit

  /** One call, given `g.rate_limit` (or its absence) and the `key in g` test. */
  function LegacyAdmit(rl: Option<Table>, keyIsAttribute: bool, key: string, now: int, maxRequests: int, timeWindow: int)
    : (Decision, Option<Table>)
  {
    match rl
    case None => (Raised, None)
    case Some(m) =>
      var r := Admit(m, !keyIsAttribute, key, now, maxRequests, timeWindow);
      (r.0, Some(r.1))
  }

  method Check(g: AppGlobals, endpoint: string, remoteAddr: string, now: int, maxRequests: int, timeWindow: int)
    returns (d: Decision)
    modifies g`rateLimit
    ensures var key := Key(endpoint, remoteAddr);
            (d, g.rateLimit) == LegacyAdmit(old(g.rateLimit), key in g.attributes, key, now, maxRequests, timeWindow)
  {
    var key := Key(endpoint, remoteAddr);
    KeyIsNotRateLimit(endpoint, remoteAddr);
    if g.rateLimit.None? {
      // the first access to the absent map raises AttributeError
      return Raised;
    }
    var m := g.rateLimit.value;
    if !g.HasAttribute(key) {
      m := m[key := Counter(0, now)];
      g.rateLimit := Some(m);
    }
    if key !in m {
      return Raised;
    }
    var c := m[key];
    if now - c.lastChecked > timeWindow {
      g.rateLimit := Some(m[key := Counter(1, now)]);
      d := Allowed;
    } else if c.requests >= maxRequests {
      d := TooManyRequests;
    } else {
      g.rateLimit := Some(m[key := Counter(c.requests + 1, c.lastChecked)]);
      d := Allowed;
    }
  }

  /**
   * Without `g.rate_limit` every call raises and nothing is created; the
   * handler never runs.
   */
  lemma MissingMapRaises(keyIsAttribute: bool, key: string, now: int, maxRequests: int, timeWindow: int)
    ensures LegacyAdmit(None, keyIsAttribute, key, now, maxRequests, timeWindow) == (Raised, None)
  {
  }

  /**
   * With the map present, the older decorator decides exactly as the newer
   * one (the same re-seed on every call and the same three-way rule).
   */
  lemma AgreesWithCurrent(m: Table, keyIsAttribute: bool, key: string, now: int, maxRequests: int, timeWindow: int)
    ensures var r := Admit(m, !keyIsAttribute, key, now, maxRequests, timeWindow);
            LegacyAdmit(Some(m), keyIsAttribute, key, now, maxRequests, timeWindow) == (r.0, Some(r.1))
  {
  }

  /**
   * With the map present and the key not an attribute of `g`, every request
   * is allowed (at least one request allowed, non-negative window).
   */
  lemma LegacyAlwaysAllows(m: Table, key: string, now: int, maxRequests: int, timeWindow: int)
    requires maxRequests >= 1 && timeWindow >= 0
    ensures LegacyAdmit(Some(m), false, key, now, maxRequests, timeWindow) == (Allowed, Some(m[key := Counter(1, now)]))
  {
    AsWrittenAlwaysAllows(m, key, now, maxRequests, timeWindow);
  }
}
