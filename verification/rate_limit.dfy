/** The fixed-window rate limiter of the API server (`rate_limit`): one
    window per key in a table shared by every decorated endpoint. A window
    admits requests until its count reaches the limit; a request after the
    window's reset time opens a new one. Times are whole seconds. */
module RateLimit {
  import opened Text

  /** `{'count': ..., 'reset': ...}`. */
  datatype Window = Window(count: int, reset: int)

  /** The decorator's defaults. */
  const DefaultLimit: int := 100
  const DefaultWindow: int := 60

  /** `f"{request.remote_addr}_{f.__name__}"`. */
  function Key(addr: string, endpoint: string): string {
    addr + "_" + endpoint
  }

  /** Client addresses hold no `_` (IPv4 and IPv6 addresses are digits, hex
      letters, `.` and `:`), so each client and endpoint gets a window of its
      own. */
  lemma {:induction false} KeysDistinct(a1: string, e1: string, a2: string, e2: string)
    requires '_' !in a1 && '_' !in a2
    ensures Key(a1, e1) == Key(a2, e2) <==> a1 == a2 && e1 == e2
  {
    if Key(a1, e1) == Key(a2, e2) {
      var k := Key(a1, e1);
      assert k[..|a1|] == a1 && k[|a1|] == '_';
      assert k[..|a2|] == a2 && k[|a2|] == '_';
      IndexOfIs(k, '_', |a1|);
      IndexOfIs(k, '_', |a2|);
      assert e1 == k[|a1| + 1..] && e2 == k[|a2| + 1..];
    }
  }

  /** One request for `key` at `now`: the table afterwards, and whether the
      wrapped handler runs (otherwise the reply is 429). */
  function Admit(table: map<string, Window>, key: string, now: int, limit: int, window: int)
    : (r: (map<string, Window>, bool))
    ensures key in r.0 && forall k :: k != key ==> (k in r.0 <==> k in table) && (k in table ==> r.0[k] == table[k])
    ensures !r.1 <==> key in table && now <= table[key].reset && table[key].count >= limit
    ensures !r.1 ==> r.0 == table
    ensures r.1 ==> r.0[key] == if key in table && now <= table[key].reset
                                 then table[key].(count := table[key].count + 1)
                                 else Window(1, now + window)
  {
    if key !in table || now > table[key].reset then (table[key := Window(1, now + window)], true)
    else if table[key].count >= limit then (table, false)
    else (table[key := table[key].(count := table[key].count + 1)], true)
  }

  /** No window's count exceeds the limit (or 1, which the first request of a
      window always reaches even when the limit is below 1). */
  predicate Bounded(table: map<string, Window>, limit: int) {
    forall k :: k in table ==> 1 <= table[k].count <= if limit < 1 then 1 else limit
  }

  lemma AdmitKeepsBound(table: map<string, Window>, key: string, now: int, limit: int, window: int)
    requires Bounded(table, limit)
    ensures Bounded(Admit(table, key, now, limit, window).0, limit)
  {
    var t := Admit(table, key, now, limit, window).0;
    forall k | k in t ensures 1 <= t[k].count <= if limit < 1 then 1 else limit {
      if k != key {
        assert t[k] == table[k];
      }
    }
  }

  /** Requests for `key` at the given times, one after another: the table
      afterwards and how many reached the handler. */
  function Run(table: map<string, Window>, key: string, times: seq<int>, limit: int, window: int)
    : (r: (map<string, Window>, nat))
    ensures r.1 <= |times|
    decreases |times|
  {
    if times == [] then (table, 0)
    else
      var (t, ok) := Admit(table, key, times[0], limit, window);
      var (t', n) := Run(t, key, times[1..], limit, window);
      (t', n + if ok then 1 else 0)
  }

  /** Inside one window (no request after its reset time) the requests
      admitted are exactly those that fit under the limit, and the count
      grows by that many. */
  lemma {:induction false} RunInWindow(table: map<string, Window>, key: string, times: seq<int>, limit: int, window: int)
    requires key in table
    requires forall i :: 0 <= i < |times| ==> times[i] <= table[key].reset
    ensures var room := if limit > table[key].count then limit - table[key].count else 0;
      var (t, n) := Run(table, key, times, limit, window);
      n == (if |times| < room then |times| else room)
      && key in t && t[key] == table[key].(count := table[key].count + n)
    decreases |times|
  {
    if times != [] {
      var (t, ok) := Admit(table, key, times[0], limit, window);
      assert t[key].reset == table[key].reset;
      assert forall i :: 0 <= i < |times| - 1 ==> times[1..][i] == times[i + 1];
      RunInWindow(t, key, times[1..], limit, window);
    }
  }

  /** A key first seen at `t0`, followed by requests up to `t0 + window`:
      the handler runs for at most `limit` of them (at least the first). */
  lemma FreshWindow(table: map<string, Window>, key: string, t0: int, times: seq<int>, limit: int, window: int)
    requires key !in table
    requires forall i :: 0 <= i < |times| ==> times[i] <= t0 + window
    ensures var cap := if limit < 1 then 1 else limit;
      Run(table, key, [t0] + times, limit, window).1 == if 1 + |times| < cap then 1 + |times| else cap
  {
    var t := Admit(table, key, t0, limit, window).0;
    assert t[key] == Window(1, t0 + window);
    assert ([t0] + times)[1..] == times;
    RunInWindow(t, key, times, limit, window);
  }

  /** With the decorator's defaults, a new client gets at most 100 calls of
      an endpoint through in the 60 seconds after its first one. */
  lemma DefaultBurst(table: map<string, Window>, addr: string, endpoint: string, t0: int, times: seq<int>)
    requires Key(addr, endpoint) !in table
    requires forall i :: 0 <= i < |times| ==> t0 <= times[i] <= t0 + DefaultWindow
    ensures Run(table, Key(addr, endpoint), [t0] + times, DefaultLimit, DefaultWindow).1
      == if |times| < DefaultLimit then 1 + |times| else DefaultLimit
  {
    FreshWindow(table, Key(addr, endpoint), t0, times, DefaultLimit, DefaultWindow);
  }

  /** The shared `rate_limits` table. */
  class RateLimiter {
    var table: map<string, Window>

    constructor ()
      ensures table == map[]
    {
      table := map[];
    }

    /** The decorated call from `addr` to `endpoint`: records the request
        and says whether the handler may run. */
    method Check(addr: string, endpoint: string, now: int, limit: int, window: int) returns (allowed: bool)
      modifies this
      ensures (table, allowed) == Admit(old(table), Key(addr, endpoint), now, limit, window)
    {
      var key := Key(addr, endpoint);
      if key !in table {
        table := table[key := Window(1, now + window)];
      } else if now > table[key].reset {
        table := table[key := Window(1, now + window)];
      } else if table[key].count >= limit {
        return false;
      } else {
        table := table[key := table[key].(count := table[key].count + 1)];
      }
      allowed := true;
    }
  }
}
