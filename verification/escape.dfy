/**
  The quote escape applied to a typed value before it is placed between single
  quotes in a generated `type('…')` command: every `'` becomes `\'`.
*/
module Escape {

  const Quote: char := '\''
  const Backslash: char := '\\'

  /** Number of occurrences of `c` in `s`. */
  function CountChar(c: char, s: string): (n: nat)
    ensures n <= |s|
    ensures n == 0 <==> c !in s
  {
    if s == [] then 0
    else (if s[0] == c then 1 else 0) + CountChar(c, s[1..])
  }

  /** Replaces every quote of `v` by a backslash followed by a quote. */
  function EscapeQuotes(v: string): (e: string)
    ensures |e| == |v| + CountChar(Quote, v)
    ensures Quote !in v ==> e == v
  {
    if v == [] then []
    else (if v[0] == Quote then [Backslash, Quote] else [v[0]]) + EscapeQuotes(v[1..])
  }

  /** In an escaped value every quote directly follows a backslash; in particular it never starts with a quote. */
  lemma {:induction false} EscapedQuotesFollowBackslash(v: string)
    ensures forall i :: 0 <= i < |EscapeQuotes(v)| && EscapeQuotes(v)[i] == Quote ==>
                          0 < i && EscapeQuotes(v)[i - 1] == Backslash
  {
    if v != [] {
      var head := if v[0] == Quote then [Backslash, Quote] else [v[0]];
      var rest := EscapeQuotes(v[1..]);
      var e := EscapeQuotes(v);
      EscapedQuotesFollowBackslash(v[1..]);
      assert e == head + rest;
      forall i | 0 <= i < |e| && e[i] == Quote
        ensures 0 < i && e[i - 1] == Backslash
      {
        if i >= |head| {
          var k := i - |head|;
          assert rest[k] == e[i] == Quote;
          assert 0 < k;
          assert rest[k - 1] == Backslash;
          if i - |head| > 0 {
            assert e[i - 1] == rest[i - |head| - 1];
          }
        } else {
          assert e[i] == head[i];
        }
      }
    }
  }

  /** An escaped value never starts with a quote. */
  lemma EscapeDoesNotStartWithQuote(v: string)
    ensures |EscapeQuotes(v)| > 0 ==> EscapeQuotes(v)[0] != Quote
  {
  }

  /** Reads `e` left to right and turns each `\'` back into `'`; every other character is kept. */
  function UnescapeQuotes(e: string): (v: string)
    ensures |v| <= |e|
  {
    if e == [] then []
    else if |e| >= 2 && e[0] == Backslash && e[1] == Quote then [Quote] + UnescapeQuotes(e[2..])
    else [e[0]] + UnescapeQuotes(e[1..])
  }

  /** Unescaping undoes escaping, for every value. */
  lemma {:induction false} UnescapeEscape(v: string)
    ensures UnescapeQuotes(EscapeQuotes(v)) == v
  {
    if v != [] {
      var rest := EscapeQuotes(v[1..]);
      UnescapeEscape(v[1..]);
      var e := EscapeQuotes(v);
      if v[0] == Quote {
        assert e == [Backslash, Quote] + rest;
        assert e[2..] == rest;
        assert UnescapeQuotes(e) == [Quote] + UnescapeQuotes(rest);
      } else {
        assert e == [v[0]] + rest;
        assert e[1..] == rest;
        EscapeDoesNotStartWithQuote(v[1..]);
        assert UnescapeQuotes(e) == [v[0]] + UnescapeQuotes(rest);
      }
      assert v == [v[0]] + v[1..];
    }
  }

  /** Distinct values have distinct escapes. */
  lemma EscapeInjective(v1: string, v2: string)
    requires EscapeQuotes(v1) == EscapeQuotes(v2)
    ensures v1 == v2
  {
    UnescapeEscape(v1);
    UnescapeEscape(v2);
  }
}
