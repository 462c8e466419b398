/**
 * The fixed-window rate limiter decorator (server/middlewares/rate_limit.py).
 *
 * Flask's request-global object `g` holds a dictionary `rate_limit` from
 * `"rate_limit:<endpoint>:<address>"` to a pair (requests, window start).
 * Each call reads the pair, decides, and writes it back; a rejection is
 * HTTP 429 (section 4 of RFC 6585). The clock `time()` is the parameter
 * `now`, read once per call.
 *
 * As written, the presence test asks whether the key is an ATTRIBUTE of `g`
 * rather than an entry of `g.rate_limit`, so the entry is re-seeded on every
 * call. `Admit` takes that test's outcome as `reseed`; the class has both the
 * method as written and the method as intended.
 */
module RateLimit {
  import opened Wrappers
  import Text

  /** A stored pair: requests counted in the window, and when the window began. */
  datatype Counter = Counter(requests: int, lastChecked: int)

  /**
   * What the decorator does with the request: call the handler, abort with
   * 429, or fail with an exception before either (a missing map or entry).
   */
  datatype Decision = Allowed | TooManyRequests | Raised

  type Table = map<string, Counter>

  /** The key of one endpoint seen from one remote address. */
  function Key(endpoint: string, remoteAddr: string): string {
    "rate_limit:" + endpoint + ":" + remoteAddr
  }

  /**
   * The window rule, the limit rule and the increment, applied to the pair
   * read from the map.
   */
  function Rule(c: Counter, now: int, maxRequests: int, timeWindow: int): (r: (Decision, Counter)) {
    if now - c.lastChecked > timeWindow then (Allowed, Counter(1, now))
    else if c.requests >= maxRequests then (TooManyRequests, c)
    else (Allowed, Counter(c.requests + 1, c.lastChecked))
  }

  /**
   * One call on an existing map `m`: seed the entry with (0, now) when
   * `reseed` holds, read it (a missing entry raises `KeyError`), and write
   * back what `Rule` decides unless the request is aborted.
   */
  function Admit(m: Table, reseed: bool, key: string, now: int, maxRequests: int, timeWindow: int): (Decision, Table) {
    var seeded := if reseed then m[key := Counter(0, now)] else m;
    if key !in seeded then (Raised, seeded)
    else
      var (d, c) := Rule(seeded[key], now, maxRequests, timeWindow);
      (d, if d == Allowed then seeded[key := c] else seeded)
  }

  /** Every stored count is at most `maxRequests`. */
  predicate WithinLimit(m: Table, maxRequests: int) {
    forall k | k in m :: m[k].requests <= maxRequests
  }

  /**
   * Flask's `g`, taken here as one object that lasts from request to
   * request, so that the map can carry counts between calls. Flask makes a
   * fresh `g` for every request's application context.
   */
  class AppGlobals {
    /** `g.rate_limit`, absent until first set. */
    var rateLimit: Option<Table>
    /** The names of the other attributes of `g`. */
    var attributes: set<string>

    constructor (attributes: set<string>)
      ensures this.rateLimit == None && this.attributes == attributes
    {
      this.rateLimit := None;
      this.attributes := attributes;
    }

    /** `name in g`: whether `g` has an attribute of that name. */
    predicate HasAttribute(name: string)
      reads this
    {
      (name == "rate_limit" && rateLimit.Some?) || name in attributes
    }

    /**
     * The decorator as written: create the map when absent, then re-seed
     * the entry unless the key happens to be an attribute name of `g`.
     */
    method Check(endpoint: string, remoteAddr: string, now: int, maxRequests: int, timeWindow: int)
      returns (d: Decision)
      modifies this`rateLimit
      ensures var key := Key(endpoint, remoteAddr);
              var r := Admit(old(rateLimit).GetOr(map[]), key !in attributes, key, now, maxRequests, timeWindow);
              d == r.0 && rateLimit == Some(r.1)
    {
      if rateLimit.None? {
        rateLimit := Some(map[]);
      }
      var key := Key(endpoint, remoteAddr);
      KeyIsNotRateLimit(endpoint, remoteAddr);
      var m := rateLimit.value;
      if !HasAttribute(key) {
        m := m[key := Counter(0, now)];
        rateLimit := Some(m);
      }
      if key !in m {
        return Raised;
      }
      var c := m[key];
      if now - c.lastChecked > timeWindow {
        rateLimit := Some(m[key := Counter(1, now)]);
        d := Allowed;
      } else if c.requests >= maxRequests {
        d := TooManyRequests;
      } else {
        rateLimit := Some(m[key := Counter(c.requests + 1, c.lastChecked)]);
        d := Allowed;
      }
    }

    /** The decorator as intended: seed the entry only when the map lacks it. */
    method CheckAsIntended(endpoint: string, remoteAddr: string, now: int, maxRequests: int, timeWindow: int)
      returns (d: Decision)
      modifies this`rateLimit
      ensures var key := Key(endpoint, remoteAddr);
              var m := old(rateLimit).GetOr(map[]);
              var r := Admit(m, key !in m, key, now, maxRequests, timeWindow);
              d == r.0 && rateLimit == Some(r.1)
    {
      if rateLimit.None? {
        rateLimit := Some(map[]);
      }
      var key := Key(endpoint, remoteAddr);
      var m := rateLimit.value;
      if key !in m {
        m := m[key := Counter(0, now)];
        rateLimit := Some(m);
      }
      var c := m[key];
      if now - c.lastChecked > timeWindow {
        rateLimit := Some(m[key := Counter(1, now)]);
        d := Allowed;
      } else if c.requests >= maxRequests {
        d := TooManyRequests;
      } else {
        rateLimit := Some(m[key := Counter(c.requests + 1, c.lastChecked)]);
        d := Allowed;
      }
    }
  }

  /** A key is never the attribute name `rate_limit` itself. */
  lemma KeyIsNotRateLimit(endpoint: string, remoteAddr: string)
    ensures Key(endpoint, remoteAddr) != "rate_limit"
  {
    assert |Key(endpoint, remoteAddr)| > |"rate_limit"|;
  }

  /** Splitting at the first `sep` is unique when the head holds no `sep`. */
  lemma SeparatorSplitUnique(x1: string, y1: string, x2: string, y2: string, sep: char)
    requires sep !in x1 && sep !in x2
    requires x1 + [sep] + y1 == x2 + [sep] + y2
    ensures x1 == x2 && y1 == y2
  {
    var s := x1 + [sep] + y1;
    Text.IndexOfAfter(x1, sep, y1);
    Text.IndexOfAfter(x2, sep, y2);
    assert x1 == s[..|x1|] == x2;
    assert y1 == s[|x1| + 1..] == y2;
  }

  /**
   * Distinct (endpoint, address) pairs never share an entry, as long as
   * endpoint names hold no ':' (Flask endpoint names are dotted; an IPv6
   * address may hold ':').
   */
  lemma KeyInjective(e1: string, a1: string, e2: string, a2: string)
    requires ':' !in e1 && ':' !in e2
    requires Key(e1, a1) == Key(e2, a2)
    ensures e1 == e2 && a1 == a2
  {
    var p := "rate_limit:";
    assert Key(e1, a1) == p + (e1 + [':'] + a1);
    assert Key(e2, a2) == p + (e2 + [':'] + a2);
    assert e1 + [':'] + a1 == Key(e1, a1)[|p|..];
    SeparatorSplitUnique(e1, a1, e2, a2, ':');
  }

  /**
   * As written: on a map, whatever it holds, a re-seeded request with at
   * least one allowed request and a non-negative window is always allowed,
   * and the entry ends as (1, now). Other entries are kept.
   */
  lemma AsWrittenAlwaysAllows(m: Table, key: string, now: int, maxRequests: int, timeWindow: int)
    requires maxRequests >= 1 && timeWindow >= 0
    ensures Admit(m, true, key, now, maxRequests, timeWindow) == (Allowed, m[key := Counter(1, now)])
  {
    assert m[key := Counter(0, now)][key := Counter(1, now)] == m[key := Counter(1, now)];
  }

  /** The decisions for successive calls on one key at the given times. */
  function Replay(m: Table, asWritten: bool, key: string, times: seq<int>, maxRequests: int, timeWindow: int): (ds: seq<Decision>)
    ensures |ds| == |times|
    decreases |times|
  {
    if times == [] then []
    else
      var (d, m') := Admit(m, if asWritten then true else key !in m, key, times[0], maxRequests, timeWindow);
      [d] + Replay(m', asWritten, key, times[1..], maxRequests, timeWindow)
  }

  /** As written the limit is never reached: however many calls arrive, all are allowed. */
  lemma {:induction false} AsWrittenNeverLimits(m: Table, key: string, times: seq<int>, maxRequests: int, timeWindow: int)
    requires maxRequests >= 1 && timeWindow >= 0
    ensures forall i | 0 <= i < |times| :: Replay(m, true, key, times, maxRequests, timeWindow)[i] == Allowed
    decreases |times|
  {
    if times != [] {
      AsWrittenAlwaysAllows(m, key, times[0], maxRequests, timeWindow);
      var m' := m[key := Counter(1, times[0])];
      AsWrittenNeverLimits(m', key, times[1..], maxRequests, timeWindow);
    }
  }

  /**
   * A request is rejected exactly when the entry read has a window still
   * open and a count at the limit, and then the (seeded) map is kept.
   */
  lemma AbortKeepsEntry(m: Table, reseed: bool, key: string, now: int, maxRequests: int, timeWindow: int)
    ensures var (d, m') := Admit(m, reseed, key, now, maxRequests, timeWindow);
            d == TooManyRequests ==> m' == (if reseed then m[key := Counter(0, now)] else m)
    ensures var seeded := if reseed then m[key := Counter(0, now)] else m;
            Admit(m, reseed, key, now, maxRequests, timeWindow).0 == TooManyRequests <==>
              key in seeded && now - seeded[key].lastChecked <= timeWindow && seeded[key].requests >= maxRequests
  {
  }

  /**
   * The three-way rule on an existing entry: an expired window restarts at
   * (1, now); a full window aborts; otherwise the count grows by exactly one
   * and the window start is kept. Only `key` changes.
   */
  lemma RuleOnEntry(m: Table, key: string, now: int, maxRequests: int, timeWindow: int)
    requires key in m
    ensures Admit(m, false, key, now, maxRequests, timeWindow).0 != Raised
    ensures Admit(m, false, key, now, maxRequests, timeWindow).1.Keys == m.Keys
    ensures forall k | k in m && k != key :: Admit(m, false, key, now, maxRequests, timeWindow).1[k] == m[k]
    ensures var (d, m') := Admit(m, false, key, now, maxRequests, timeWindow);
            var c := m[key];
            && (now - c.lastChecked > timeWindow ==> d == Allowed && m'[key] == Counter(1, now))
            && (now - c.lastChecked <= timeWindow && c.requests >= maxRequests ==> d == TooManyRequests && m'[key] == c)
            && (now - c.lastChecked <= timeWindow && c.requests < maxRequests ==>
                 d == Allowed && m'[key] == Counter(c.requests + 1, c.lastChecked))
  {
  }

  /** As intended, with a persistent map, no stored count ever exceeds `maxRequests`. */
  lemma IntendedKeepsLimit(m: Table, key: string, now: int, maxRequests: int, timeWindow: int, next: Table)
    requires maxRequests >= 1 && WithinLimit(m, maxRequests)
    requires next == Admit(m, key !in m, key, now, maxRequests, timeWindow).1
    ensures WithinLimit(next, maxRequests)
  {
  }

  /**
   * As intended: a burst of requests from one address within one window
   * that starts with an entry of `count` requests has exactly the first
   * `maxRequests - count` of them allowed, and every later one rejected.
   */
  lemma {:induction false} IntendedBurst(m: Table, key: string, start: int, times: seq<int>, maxRequests: int, timeWindow: int)
    requires key in m && m[key].lastChecked == start && 0 <= m[key].requests <= maxRequests
    requires forall i | 0 <= i < |times| :: times[i] - start <= timeWindow
    ensures forall i | 0 <= i < |times| ::
              Replay(m, false, key, times, maxRequests, timeWindow)[i] == Allowed <==> m[key].requests + i < maxRequests
  {
    if times != [] {
      var c := m[key];
      var (d, m') := Admit(m, false, key, times[0], maxRequests, timeWindow);
      var ds := Replay(m, false, key, times, maxRequests, timeWindow);
      assert ds == [d] + Replay(m', false, key, times[1..], maxRequests, timeWindow);
      if c.requests < maxRequests {
        assert m'[key] == Counter(c.requests + 1, start);
      } else {
        assert m' == m;
      }
      IntendedBurst(m', key, start, times[1..], maxRequests, timeWindow);
      forall i | 0 <= i < |times|
        ensures ds[i] == Allowed <==> c.requests + i < maxRequests
      {
        if i > 0 {
          assert ds[i] == Replay(m', false, key, times[1..], maxRequests, timeWindow)[i - 1];
        }
      }
    }
  }

  /**
   * As intended, from a fresh map: of `n` requests within one window
   * starting at the first one, exactly the first `maxRequests` are allowed.
   */
  lemma IntendedLimitsBurst(key: string, times: seq<int>, maxRequests: int, timeWindow: int)
    requires maxRequests >= 1 && timeWindow >= 0 && times != []
    requires forall i | 0 <= i < |times| :: 0 <= times[i] - times[0] <= timeWindow
    ensures forall i | 0 <= i < |times| ::
              Replay(map[], false, key, times, maxRequests, timeWindow)[i] == Allowed <==> i < maxRequests
  {
    var m: Table := map[];
    var (d, m') := Admit(m, true, key, times[0], maxRequests, timeWindow);
    assert d == Allowed && m'[key] == Counter(1, times[0]);
    var ds := Replay(m, false, key, times, maxRequests, timeWindow);
    assert ds == [d] + Replay(m', false, key, times[1..], maxRequests, timeWindow);
    var rest := Replay(m', false, key, times[1..], maxRequests, timeWindow);
    IntendedBurst(m', key, times[0], times[1..], maxRequests, timeWindow);
    forall i | 0 <= i < |times|
      ensures ds[i] == Allowed <==> i < maxRequests
    {
      if i > 0 {
        assert ds[i] == rest[i - 1];
      }
    }
  }
}
