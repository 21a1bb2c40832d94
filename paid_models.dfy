/**
 * paid_models.py: a Gemini client that rotates to the next API key once the
 * current one has served REQUEST_LIMIT requests, and restarts that key's count.
 */
module PaidModels {
  import opened Wrappers
  import opened ApiKeys

  /** Max requests per API key (per minute, a window the code never resets). */
  const REQUEST_LIMIT: int := 15

  predicate AtLimit(s: Limiter)
    requires s.current in s.usage
  {
    s.usage[s.current] >= REQUEST_LIMIT
  }

  /**
   * One call of `enforce_rate_limit`, given the key the cycle would hand out
   * next: at the limit, switch to that key and count it afresh; then charge
   * one request to the current key.
   */
  function Enforce(s: Limiter, next: string): (r: Limiter)
    requires s.current in s.usage && next in s.usage
    ensures r.usage.Keys == s.usage.Keys
    ensures !AtLimit(s) ==> r.current == s.current && r.usage[r.current] == s.usage[s.current] + 1
    ensures AtLimit(s) ==> r.current == next && r.usage[next] == 1
    ensures forall k :: k in s.usage && k != r.current ==> r.usage[k] == s.usage[k]
  {
    var switched := if AtLimit(s) then Limiter(next, s.usage[next := 0]) else s;
    switched.(usage := switched.usage[switched.current := switched.usage[switched.current] + 1])
  }

  ghost predicate WithinLimit(usage: map<string, int>)
  {
    forall k :: k in usage ==> usage[k] <= REQUEST_LIMIT
  }

  /** No key is ever charged past REQUEST_LIMIT: the bound is kept by every call. */
  lemma EnforceWithinLimit(s: Limiter, next: string)
    requires s.current in s.usage && next in s.usage
    requires WithinLimit(s.usage)
    ensures WithinLimit(Enforce(s, next).usage)
  {
  }

  /** `k` calls of `enforce_rate_limit` that find the key below the limit. */
  function Repeat(s: Limiter, next: string, k: nat): (r: Limiter)
    requires s.current in s.usage && next in s.usage
    ensures r.usage.Keys == s.usage.Keys && r.current in r.usage
  {
    if k == 0 then s else Enforce(Repeat(s, next, k - 1), next)
  }

  /**
   * The current key keeps serving, without consulting the cycle, until its
   * count reaches REQUEST_LIMIT; the call after that switches to `next`, whose
   * count restarts at 1.
   */
  lemma {:induction false} FillsBeforeRotating(s: Limiter, next: string, k: nat)
    requires s.current in s.usage && next in s.usage
    requires s.usage[s.current] + k <= REQUEST_LIMIT
    ensures Repeat(s, next, k).current == s.current
    ensures Repeat(s, next, k).usage == s.usage[s.current := s.usage[s.current] + k]
    ensures s.usage[s.current] + k == REQUEST_LIMIT ==>
              && Enforce(Repeat(s, next, k), next).current == next
              && Enforce(Repeat(s, next, k), next).usage[next] == 1
  {
    if k > 0 {
      FillsBeforeRotating(s, next, k - 1);
    }
  }

  /** The module's globals: the key cycle, `current_api_key` and `api_usage`. */
  class RateLimiter {
    const cycle: KeyCycle
    var current: string
    var usage: map<string, int>

    ghost predicate Valid()
      reads this, cycle
    {
      && cycle.Valid()
      && current in cycle.keys
      && (forall k :: k in usage <==> k in cycle.keys)
    }

    function State(): Limiter
      reads this
    {
      Limiter(current, usage)
    }

    /**
     * Module initialisation for an already filtered, non-empty key list (see
     * `ApiKeys.LoadKeys` for the filter and the error): counts start at 0 and
     * `configure_gemini` takes the first key, advancing the cycle once.
     */
    constructor (keys: seq<string>)
      requires keys != []
      ensures Valid() && fresh(cycle)
      ensures cycle.keys == keys && cycle.calls == 1
      ensures current == keys[0]
      ensures usage == InitialUsage(keys) && WithinLimit(usage)
    {
      var c := new KeyCycle(keys);
      var key := c.Next();
      assert 0 % |keys| == 0;
      cycle := c;
      current := key;
      usage := InitialUsage(keys);
    }

    /** `get_next_api_key`: the k-th call overall (counting from 0) yields `keys[k % |keys|]`. */
    method GetNextApiKey() returns (key: string)
      requires Valid()
      modifies cycle
      ensures Valid() && cycle.calls == old(cycle.calls) + 1
      ensures key == cycle.keys[old(cycle.calls) % |cycle.keys|]
    {
      key := cycle.Next();
    }

    /** `configure_gemini`: takes the next key; `genai.configure` has no state in this model. */
    method ConfigureGemini() returns (key: string)
      requires Valid()
      modifies cycle
      ensures Valid() && cycle.calls == old(cycle.calls) + 1
      ensures key == cycle.keys[old(cycle.calls) % |cycle.keys|]
    {
      key := GetNextApiKey();
    }

    /** `enforce_rate_limit`: the state moves as `Enforce` says; the cycle moves only on a switch. */
    method EnforceRateLimit()
      requires Valid()
      modifies this, cycle
      ensures Valid()
      ensures State() == Enforce(old(State()), old(cycle.Upcoming()))
      ensures cycle.calls == old(cycle.calls) + (if old(AtLimit(State())) then 1 else 0)
      ensures old(WithinLimit(usage)) ==> WithinLimit(usage)
    {
      if usage[current] >= REQUEST_LIMIT {
        current := ConfigureGemini();
        usage := usage[current := 0];
      }
      usage := usage[current := usage[current] + 1];
      if old(WithinLimit(usage)) {
        EnforceWithinLimit(old(State()), old(cycle.Upcoming()));
      }
    }

    /**
     * The key handling of `generate_insight`: it takes the next key from the
     * cycle for its own request, leaving `current_api_key` and `api_usage` alone.
     */
    method GenerateInsight() returns (key: string)
      requires Valid()
      modifies cycle
      ensures Valid() && cycle.calls == old(cycle.calls) + 1
      ensures key == cycle.keys[old(cycle.calls) % |cycle.keys|]
      ensures current == old(current) && usage == old(usage)
    {
      key := ConfigureGemini();
    }
  }
}
