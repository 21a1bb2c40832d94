/**
 * The Python built-ins the modelled code leans on, restated over Dafny values:
 * truthiness of an optional string, `str.lower`/`str.upper` on ASCII letters,
 * the ordering `<=` of `str`, and `sorted` on a list of strings.
 */
module Builtins {
  import opened Wrappers

  /** `bool(v)` for a value that is either `None` or a string: `None` and `""` are falsy. */
  predicate Truthy(v: Option<string>)
  {
    v.Some? && v.value != ""
  }

  /** The truthy values of `xs`, in their original order (`[v for v in xs if v]`). */
  function Truthies(xs: seq<Option<string>>): (r: seq<string>)
    ensures |r| <= |xs|
    ensures forall s :: s in r <==> s != "" && Some(s) in xs
    ensures forall s :: s != "" ==> multiset(r)[s] == multiset(xs)[Some(s)]
  {
    if xs == [] then []
    else
      assert xs == [xs[0]] + xs[1..];
      (if Truthy(xs[0]) then [xs[0].value] else []) + Truthies(xs[1..])
  }

  /** Filtering commutes with concatenation, so the order of the kept values is the input order. */
  lemma {:induction false} TruthiesAppend(a: seq<Option<string>>, b: seq<Option<string>>)
    ensures Truthies(a + b) == Truthies(a) + Truthies(b)
  {
    if a == [] {
      assert a + b == b;
    } else {
      assert (a + b)[0] == a[0];
      assert (a + b)[1..] == a[1..] + b;
      TruthiesAppend(a[1..], b);
    }
  }

  /** Filtering a list grown by one element, as a loop that appends does. */
  lemma TruthiesSnoc(xs: seq<Option<string>>, x: Option<string>)
    ensures Truthies(xs + [x]) == Truthies(xs) + (if Truthy(x) then [x.value] else [])
  {
    TruthiesAppend(xs, [x]);
    assert [x][1..] == [];
  }

  function LowerChar(c: char): char
  {
    if 'A' <= c <= 'Z' then (c as int + 32) as char else c
  }

  function UpperChar(c: char): char
  {
    if 'a' <= c <= 'z' then (c as int - 32) as char else c
  }

  /** `s.lower()`, for ASCII letters. */
  function Lower(s: string): string
  {
    seq(|s|, i requires 0 <= i < |s| => LowerChar(s[i]))
  }

  /** `s.upper()`, for ASCII letters. */
  function Upper(s: string): string
  {
    seq(|s|, i requires 0 <= i < |s| => UpperChar(s[i]))
  }

  /** `a <= b` on Python strings: lexicographic by code point, a prefix first. */
  predicate LexLe(a: string, b: string)
  {
    |a| == 0 || (|b| > 0 && (a[0] < b[0] || (a[0] == b[0] && LexLe(a[1..], b[1..]))))
  }

  lemma {:induction false} LexTotal(a: string, b: string)
    ensures LexLe(a, b) || LexLe(b, a)
  {
    if |a| > 0 && |b| > 0 && a[0] == b[0] {
      LexTotal(a[1..], b[1..]);
    }
  }

  lemma {:induction false} LexTransitive(a: string, b: string, c: string)
    requires LexLe(a, b) && LexLe(b, c)
    ensures LexLe(a, c)
  {
    if |a| > 0 && a[0] == b[0] && b[0] == c[0] {
      LexTransitive(a[1..], b[1..], c[1..]);
    }
  }

  predicate Sorted(s: seq<string>)
  {
    forall i, j :: 0 <= i < j < |s| ==> LexLe(s[i], s[j])
  }

  /** Places `x` into the sorted list `s`. */
  function Insert(x: string, s: seq<string>): (r: seq<string>)
    requires Sorted(s)
    ensures Sorted(r)
    ensures multiset(r) == multiset(s) + multiset{x}
  {
    if s == [] then [x]
    else if LexLe(x, s[0]) then
      assert forall j :: 0 <= j < |s| ==> LexLe(x, s[j]) by {
        forall j | 0 <= j < |s|
          ensures LexLe(x, s[j])
        {
          if j > 0 { LexTransitive(x, s[0], s[j]); }
        }
      }
      [x] + s
    else
      LexTotal(x, s[0]);
      assert s == [s[0]] + s[1..];
      var t := Insert(x, s[1..]);
      assert forall y :: y in multiset(t) ==> LexLe(s[0], y) by {
        forall y | y in multiset(t)
          ensures LexLe(s[0], y)
        {
          if y != x {
            assert y in s[1..];
            var j :| 0 <= j < |s[1..]| && s[1..][j] == y;
            assert s[j + 1] == y;
          }
        }
      }
      assert forall j :: 0 <= j < |t| ==> LexLe(s[0], t[j]) by {
        forall j | 0 <= j < |t|
          ensures LexLe(s[0], t[j])
        {
          assert t[j] in multiset(t);
        }
      }
      [s[0]] + t
  }

  /** `sorted(s)` for a list of strings: an ascending permutation of `s`. */
  function Sort(s: seq<string>): (r: seq<string>)
    ensures Sorted(r)
    ensures multiset(r) == multiset(s)
  {
    if s == [] then []
    else
      assert s == [s[0]] + s[1..];
      Insert(s[0], Sort(s[1..]))
  }
}
