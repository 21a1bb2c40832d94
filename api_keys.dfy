/**
 * What the two Gemini client modules (paid_models.py and gemini.py) share: the
 * key list read from the environment at import time, the round-robin
 * `itertools.cycle` over it, and the per-key request counters.
 */
module ApiKeys {
  import opened Wrappers
  import opened Builtins

  /** The `ValueError` raised at import when no key survives the filter. */
  datatype KeyError = NoValidKeys

  /**
   * Import-time key loading: `env` holds the values of GOOGLE_API_KEY1..6
   * (`None` when a variable is unset). Missing and empty values are dropped,
   * the rest kept in order; an empty result is an error.
   */
  function LoadKeys(env: seq<Option<string>>): (r: Result<seq<string>, KeyError>)
    ensures r.Failure? <==> forall i :: 0 <= i < |env| ==> !Truthy(env[i])
    ensures r.Success? ==> r.value != [] && r.value == Truthies(env)
  {
    var keys := Truthies(env);
    if keys == [] then
      Failure(NoValidKeys)
    else
      assert keys[0] in keys;
      Success(keys)
  }

  /** `{key: 0 for key in API_KEYS}`: every key starts with no requests counted. */
  function InitialUsage(keys: seq<string>): map<string, int>
  {
    map k | k in keys :: 0
  }

  /** The module globals `current_api_key` and `api_usage`, as one value. */
  datatype Limiter = Limiter(current: string, usage: map<string, int>)

  lemma {:induction false} MulAtLeast(k: int, n: int)
    requires k >= 1 && n > 0
    ensures k * n >= n
  {
    if k > 1 {
      MulAtLeast(k - 1, n);
      assert k * n == (k - 1) * n + n;
    }
  }

  /** Euclidean division has one quotient and one remainder. */
  lemma DivModUnique(a: int, n: int, q: int, r: int)
    requires n > 0 && 0 <= r < n && a == q * n + r
    ensures a / n == q && a % n == r
  {
    var q', r' := a / n, a % n;
    assert a == q' * n + r';
    if q < q' {
      assert (q' - q) * n == q' * n - q * n;
      MulAtLeast(q' - q, n);
      assert false;
    } else if q > q' {
      assert (q - q') * n == q * n - q' * n;
      MulAtLeast(q - q', n);
      assert false;
    }
  }

  /** Position arithmetic of a cycle of length `n`: one more call moves one place, wrapping at the end. */
  lemma CycleStep(calls: nat, n: nat)
    requires n > 0
    ensures (calls + 1) % n == if calls % n + 1 == n then 0 else calls % n + 1
  {
    var q, r := calls / n, calls % n;
    if r + 1 == n {
      DivModUnique(calls + 1, n, q + 1, 0);
    } else {
      DivModUnique(calls + 1, n, q, r + 1);
    }
  }

  /**
   * `itertools.cycle(keys)`: each `next` returns the following key and starts
   * over after the last. The ghost `calls` counts every `next` so far.
   */
  class KeyCycle {
    const keys: seq<string>
    var pos: nat
    ghost var calls: nat

    ghost predicate Valid()
      reads this
    {
      |keys| > 0 && pos == calls % |keys|
    }

    /** The key the next call to `Next` returns. */
    function Upcoming(): (k: string)
      reads this
      requires Valid()
      ensures k == keys[calls % |keys|]
    {
      keys[pos]
    }

    constructor (keys: seq<string>)
      requires keys != []
      ensures Valid() && this.keys == keys && calls == 0
    {
      this.keys := keys;
      pos := 0;
      calls := 0;
    }

    /** `next(api_key_cycle)`: the call numbered `k` (from 0) returns `keys[k % |keys|]`. */
    method Next() returns (key: string)
      requires Valid()
      modifies this
      ensures Valid() && calls == old(calls) + 1
      ensures key == keys[old(calls) % |keys|]
    {
      key := keys[pos];
      CycleStep(calls, |keys|);
      pos := if pos + 1 == |keys| then 0 else pos + 1;
      calls := calls + 1;
    }
  }
}
