/**
 * gemini.py: the same key cycle and counters as paid_models.py, but the switch
 * to a fresh key in `enforce_rate_limit` is commented out (gemini.py:56-57), so
 * the current key's counter only grows.
 */
module Gemini {
  import opened Wrappers
  import opened ApiKeys

  /** Max requests per API key per minute; only reported, never enforced. */
  const REQUEST_LIMIT: int := 15

  /** One call of `enforce_rate_limit`: charge one request to the current key, whatever its count. */
  function Enforce(s: Limiter): (r: Limiter)
    requires s.current in s.usage
    ensures r.current == s.current
    ensures r.usage.Keys == s.usage.Keys
    ensures r.usage[r.current] == s.usage[s.current] + 1
    ensures forall k :: k in s.usage && k != s.current ==> r.usage[k] == s.usage[k]
  {
    s.(usage := s.usage[s.current := s.usage[s.current] + 1])
  }

  /** `k` consecutive calls of `enforce_rate_limit`. */
  function Repeat(s: Limiter, k: nat): (r: Limiter)
    requires s.current in s.usage
    ensures r.usage.Keys == s.usage.Keys && r.current in r.usage
  {
    if k == 0 then s else Enforce(Repeat(s, k - 1))
  }

  /** `k` calls add exactly `k` to the current key, keep the key, and leave the other counts alone. */
  lemma {:induction false} RepeatCharges(s: Limiter, k: nat)
    requires s.current in s.usage
    ensures Repeat(s, k).current == s.current
    ensures Repeat(s, k).usage == s.usage[s.current := s.usage[s.current] + k]
  {
    if k > 0 {
      RepeatCharges(s, k - 1);
    }
  }

  /**
   * From module initialisation (current key `keys[0]`, every count 0), after
   * `k` calls the first key has count `k`: for `k` past REQUEST_LIMIT the
   * limit is exceeded, so the counts are unbounded.
   */
  lemma CountsAreUnbounded(keys: seq<string>, k: nat)
    requires keys != []
    ensures keys[0] in Repeat(Limiter(keys[0], InitialUsage(keys)), k).usage
    ensures Repeat(Limiter(keys[0], InitialUsage(keys)), k).usage[keys[0]] == k
    ensures k > REQUEST_LIMIT ==> Repeat(Limiter(keys[0], InitialUsage(keys)), k).usage[keys[0]] > REQUEST_LIMIT
  {
    RepeatCharges(Limiter(keys[0], InitialUsage(keys)), k);
  }

  /** The module's globals: the key cycle, `current_api_key` and `api_usage`. */
  class RateLimiter {
    const cycle: KeyCycle
    var current: string
    var usage: map<string, int>

    ghost predicate Valid()
      reads this, cycle
    {
      && cycle.Valid()
      && current in cycle.keys
      && (forall k :: k in usage <==> k in cycle.keys)
    }

    function State(): Limiter
      reads this
    {
      Limiter(current, usage)
    }

    /**
     * Module initialisation for an already filtered, non-empty key list (see
     * `ApiKeys.LoadKeys`): counts start at 0, `configure_gemini` takes the first
     * key and advances the cycle once; the second `genai.configure` at
     * gemini.py:47 reuses that key and does not advance it.
     */
    constructor (keys: seq<string>)
      requires keys != []
      ensures Valid() && fresh(cycle)
      ensures cycle.keys == keys && cycle.calls == 1
      ensures current == keys[0]
      ensures usage == InitialUsage(keys)
    {
      var c := new KeyCycle(keys);
      var key := c.Next();
      assert 0 % |keys| == 0;
      cycle := c;
      current := key;
      usage := InitialUsage(keys);
    }

    /** `get_next_api_key`: the k-th call overall (counting from 0) yields `keys[k % |keys|]`. */
    method GetNextApiKey() returns (key: string)
      requires Valid()
      modifies cycle
      ensures Valid() && cycle.calls == old(cycle.calls) + 1
      ensures key == cycle.keys[old(cycle.calls) % |cycle.keys|]
    {
      key := cycle.Next();
    }

    /** `configure_gemini`: takes the next key; `genai.configure` has no state in this model. */
    method ConfigureGemini() returns (key: string)
      requires Valid()
      modifies cycle
      ensures Valid() && cycle.calls == old(cycle.calls) + 1
      ensures key == cycle.keys[old(cycle.calls) % |cycle.keys|]
    {
      key := GetNextApiKey();
    }

    /** `enforce_rate_limit`: the current key never changes and the cycle is not touched. */
    method EnforceRateLimit()
      requires Valid()
      modifies this
      ensures Valid()
      ensures State() == Enforce(old(State()))
      ensures current == old(current)
    {
      if usage[current] >= REQUEST_LIMIT {
        // the switch of keys is commented out in the source: only a message is printed
      }
      usage := usage[current := usage[current] + 1];
    }

    /**
     * The key handling of `generate_insight`: before any model call it takes the
     * next key from the cycle (and configures it twice, lines 84-85), leaving
     * `current_api_key` and `api_usage` alone.
     */
    method GenerateInsight() returns (key: string)
      requires Valid()
      modifies cycle
      ensures Valid() && cycle.calls == old(cycle.calls) + 1
      ensures key == cycle.keys[old(cycle.calls) % |cycle.keys|]
      ensures current == old(current) && usage == old(usage)
    {
      key := ConfigureGemini();
    }
  }
}
