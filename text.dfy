/**
 * The few string operations the column names of backtester.py depend on:
 * `str.startswith`, `str.strip("_")` and `str()` of an optional integer.
 */
module Text {
  import opened Wrappers

  /** `s.startswith(p)`. */
  predicate StartsWith(s: string, p: string)
  {
    |p| <= |s| && s[..|p|] == p
  }

  /** A prefix of a prefix is a prefix. */
  lemma StartsWithTransitive(s: string, p: string, r: string)
    requires StartsWith(s, p) && StartsWith(p, r)
    ensures StartsWith(s, r)
  {
    assert s[..|r|] == s[..|p|][..|r|];
  }

  /** `s.lstrip("_")`. */
  function TrimStart(s: string): (r: string)
    ensures |r| <= |s| && (|r| > 0 ==> r[0] != '_')
    ensures r == s[|s| - |r|..]
    ensures forall k :: 0 <= k < |s| - |r| ==> s[k] == '_'
  {
    if |s| > 0 && s[0] == '_' then TrimStart(s[1..]) else s
  }

  /** `s.rstrip("_")`. */
  function TrimEnd(s: string): (r: string)
    ensures |r| <= |s| && (|r| > 0 ==> r[|r| - 1] != '_')
    ensures r == s[..|r|]
    ensures forall k :: |r| <= k < |s| ==> s[k] == '_'
  {
    if |s| > 0 && s[|s| - 1] == '_' then TrimEnd(s[..|s| - 1]) else s
  }

  /** `s.strip("_")`: underscores removed from both ends. */
  function Strip(s: string): string
  {
    TrimEnd(TrimStart(s))
  }

  /**
   * Stripping `p + q` keeps `p` whole when `p` neither starts nor ends with
   * an underscore: only a trailing run of `q` can go.
   */
  lemma {:induction false} StripKeepsPrefix(p: string, q: string)
    requires |p| > 0 && p[0] != '_' && p[|p| - 1] != '_'
    ensures StartsWith(Strip(p + q), p)
    decreases |q|
  {
    assert TrimStart(p + q) == p + q;
    TrimEndKeepsPrefix(p, q);
  }

  lemma {:induction false} TrimEndKeepsPrefix(p: string, q: string)
    requires |p| > 0 && p[|p| - 1] != '_'
    ensures StartsWith(TrimEnd(p + q), p)
    decreases |q|
  {
    if q == [] {
      assert p + q == p;
    } else if (p + q)[|p + q| - 1] == '_' {
      assert (p + q)[..|p + q| - 1] == p + q[..|q| - 1];
      TrimEndKeepsPrefix(p, q[..|q| - 1]);
    }
  }

  /** The decimal digit for `d`. */
  function Digit(d: nat): (c: char)
    requires d < 10
    ensures '0' <= c <= '9' && c as int - '0' as int == d
  {
    ('0' as int + d) as char
  }

  /** `str(n)` for a natural number. */
  function NatText(n: nat): (s: string)
    ensures |s| > 0 && (n < 10 <==> |s| == 1)
    ensures forall k :: 0 <= k < |s| ==> '0' <= s[k] <= '9'
  {
    if n < 10 then [Digit(n)] else NatText(n / 10) + [Digit(n % 10)]
  }

  /** `str(k)` for a Python `int`. */
  function IntText(k: int): string
  {
    if k < 0 then "-" + NatText(-k) else NatText(k)
  }

  /** `str(p)` for an optional integer parameter: `None` prints as "None". */
  function OptionText(p: Option<int>): string
  {
    match p
    case None => "None"
    case Some(k) => IntText(k)
  }

  /** Distinct numbers print differently. */
  lemma {:induction false} NatTextInjective(a: nat, b: nat)
    requires NatText(a) == NatText(b)
    ensures a == b
    decreases a
  {
    var s := NatText(a);
    if a >= 10 {
      assert b >= 10;
      assert Digit(a % 10) == s[|s| - 1] == Digit(b % 10);
      assert NatText(a / 10) == s[..|s| - 1] == NatText(b / 10);
      NatTextInjective(a / 10, b / 10);
      assert a == 10 * (a / 10) + a % 10 && b == 10 * (b / 10) + b % 10;
    }
  }

  /** The first character of `str(p)` tells `None`, negative and non-negative apart. */
  lemma OptionTextHead(p: Option<int>)
    ensures |OptionText(p)| > 0
    ensures p.None? <==> OptionText(p)[0] == 'N'
    ensures (p.Some? && p.value < 0) <==> OptionText(p)[0] == '-'
  {
    if p.Some? && p.value >= 0 {
      assert '0' <= NatText(p.value)[0] <= '9';
    }
  }

  /** Distinct optional integers print differently, so they name distinct columns. */
  lemma OptionTextInjective(p: Option<int>, q: Option<int>)
    requires OptionText(p) == OptionText(q)
    ensures p == q
  {
    OptionTextHead(p);
    OptionTextHead(q);
    if p.Some? {
      IntTextInjective(p.value, q.value);
    }
  }

  /** Distinct integers print differently. */
  lemma IntTextInjective(a: int, b: int)
    requires IntText(a) == IntText(b)
    ensures a == b
  {
    OptionTextHead(Some(a));
    OptionTextHead(Some(b));
    if a < 0 {
      NegativeDigits(a);
      NegativeDigits(b);
      NatTextInjective(-a, -b);
    } else {
      NatTextInjective(a, b);
    }
  }

  /** After its minus sign, a negative number prints as its magnitude. */
  lemma NegativeDigits(a: int)
    requires a < 0
    ensures IntText(a)[1..] == NatText(-a)
  {
    assert ("-" + NatText(-a))[1..] == NatText(-a);
  }
}
