/**
 * The string operations the fetcher and the summariser rely on: Python's
 * substring test `t in s`, `s.split('/')[-1]`, `sep.join(xs)`, `s[:n]`,
 * `str(n)` for integers, and Python's ordering of `str` values.
 */
module Text {

  predicate IsPrefix(p: string, s: string)
  {
    |p| <= |s| && s[..|p|] == p
  }

  /** Python's `t in s` on strings. */
  function Contains(s: string, t: string): bool
    decreases |s|
  {
    IsPrefix(t, s) || (s != [] && Contains(s[1..], t))
  }

  /** `Contains` holds exactly when `t` starts at some position of `s`. */
  lemma {:induction false} ContainsIff(s: string, t: string)
    ensures Contains(s, t) <==> exists i :: 0 <= i <= |s| && IsPrefix(t, s[i..])
  {
    if s == [] {
      assert s[0..] == s;
    } else {
      ContainsIff(s[1..], t);
      if Contains(s, t) {
        if IsPrefix(t, s) {
          assert s[0..] == s;
        } else {
          var i :| 0 <= i <= |s[1..]| && IsPrefix(t, s[1..][i..]);
          assert s[1..][i..] == s[i + 1..];
        }
      }
      if exists i :: 0 <= i <= |s| && IsPrefix(t, s[i..]) {
        var i :| 0 <= i <= |s| && IsPrefix(t, s[i..]);
        if i == 0 {
          assert s[0..] == s;
        } else {
          assert s[1..][i - 1..] == s[i..];
        }
      }
    }
  }

  /** A string contains each of its infixes. */
  lemma ContainsInfix(a: string, t: string, b: string)
    ensures Contains(a + t + b, t)
  {
    ContainsIff(a + t + b, t);
    assert (a + t + b)[|a|..][..|t|] == t;
  }

  /** Containment is transitive. */
  lemma ContainsTransitive(s: string, t: string, u: string)
    requires Contains(s, t) && Contains(t, u)
    ensures Contains(s, u)
  {
    ContainsIff(s, t);
    ContainsIff(t, u);
    ContainsIff(s, u);
    var i :| 0 <= i <= |s| && IsPrefix(t, s[i..]);
    var j :| 0 <= j <= |t| && IsPrefix(u, t[j..]);
    forall k | 0 <= k < |u|
      ensures s[i + j..][k] == u[k]
    {
      calc {
        u[k];
        t[j..][k];
        t[j + k];
        s[i..][j + k];
        s[i + j + k];
      }
    }
    assert s[i + j..][..|u|] == u;
  }

  /** What contains a concatenation contains each of its two parts. */
  lemma ContainsPart(s: string, a: string, b: string)
    requires Contains(s, a + b)
    ensures Contains(s, a) && Contains(s, b)
  {
    ContainsInfix("", a, b);
    assert "" + a + b == a + b;
    ContainsTransitive(s, a + b, a);
    ContainsInfix(a, b, "");
    assert a + b + "" == a + b;
    ContainsTransitive(s, a + b, b);
  }

  /** `s.split('/')[-1]`: what follows the last '/' of `s`, or all of `s` when it has none. */
  function LastSegment(s: string): string
    decreases |s|
  {
    if s == [] then []
    else if s[|s| - 1] == '/' then []
    else LastSegment(s[..|s| - 1]) + [s[|s| - 1]]
  }

  /** The last segment holds no '/' and is a suffix of the string. */
  lemma {:induction false} LastSegmentIsSuffix(s: string)
    ensures '/' !in LastSegment(s)
    ensures |LastSegment(s)| <= |s| && LastSegment(s) == s[|s| - |LastSegment(s)|..]
  {
    if s != [] && s[|s| - 1] != '/' {
      var init := s[..|s| - 1];
      LastSegmentIsSuffix(init);
      assert s == init + [s[|s| - 1]];
    }
  }

  /** Splitting on '/' recovers whatever followed a '/', provided that part holds no '/' itself. */
  lemma {:induction false} LastSegmentAfterSlash(p: string, x: string)
    ensures LastSegment(p + "/" + x) == x <==> '/' !in x
  {
    if '/' !in x {
      LastSegmentOfSlashFree(p + "/", x);
    } else {
      LastSegmentIsSuffix(p + "/" + x);
    }
  }

  lemma {:induction false} LastSegmentOfSlashFree(p: string, x: string)
    requires |p| > 0 && p[|p| - 1] == '/'
    requires '/' !in x
    ensures LastSegment(p + x) == x
    decreases |x|
  {
    if x == [] {
      assert p + x == p;
    } else {
      var init := x[..|x| - 1];
      LastSegmentOfSlashFree(p, init);
      assert (p + x)[..|p + x| - 1] == p + init;
    }
  }

  /** `sep.join(xs)`. */
  function Join(xs: seq<string>, sep: string): string
    decreases |xs|
  {
    if xs == [] then ""
    else if |xs| == 1 then xs[0]
    else xs[0] + sep + Join(xs[1..], sep)
  }

  function TotalLength(xs: seq<string>): nat
    decreases |xs|
  {
    if xs == [] then 0 else |xs[0]| + TotalLength(xs[1..])
  }

  /** A joined text is made of its parts plus one separator between each two. */
  lemma {:induction false} JoinLength(xs: seq<string>, sep: string)
    requires xs != []
    ensures |Join(xs, sep)| == TotalLength(xs) + (|xs| - 1) * |sep|
    ensures IsPrefix(xs[0], Join(xs, sep))
    decreases |xs|
  {
    if |xs| > 1 {
      JoinLength(xs[1..], sep);
      assert (xs[0] + sep + Join(xs[1..], sep))[..|xs[0]|] == xs[0];
    }
  }

  /** Python's `s[:n]` for a non-negative `n`. */
  function Take(s: string, n: nat): string
  {
    if |s| <= n then s else s[..n]
  }

  lemma TakeIsPrefix(s: string, n: nat)
    ensures |Take(s, n)| == if |s| <= n then |s| else n
    ensures IsPrefix(Take(s, n), s)
  {
  }

  function DigitChar(d: nat): char
    requires d < 10
  {
    (('0' as int) + d) as char
  }

  /** Decimal digits of `n`, most significant first, without leading zeros (`str(n)`). */
  function NatToString(n: nat): string
    decreases n
  {
    if n < 10 then [DigitChar(n)] else NatToString(n / 10) + [DigitChar(n % 10)]
  }

  /** `str(n)` for any Python int. */
  function IntToString(n: int): string
  {
    if n < 0 then "-" + NatToString(-n) else NatToString(n)
  }

  predicate IsDigit(c: char)
  {
    '0' <= c <= '9'
  }

  function DigitValue(c: char): nat
    requires IsDigit(c)
  {
    (c as int) - ('0' as int)
  }

  /** The reading of a string of decimal digits. */
  function DigitsValue(s: string): nat
    requires forall i :: 0 <= i < |s| ==> IsDigit(s[i])
    decreases |s|
  {
    if s == [] then 0 else DigitsValue(s[..|s| - 1]) * 10 + DigitValue(s[|s| - 1])
  }

  /** `str(n)` is a non-empty run of digits with no leading zero that reads back as `n`. */
  lemma {:induction false} NatToStringRoundTrip(n: nat)
    ensures var s := NatToString(n);
      && |s| >= 1
      && (forall i :: 0 <= i < |s| ==> IsDigit(s[i]))
      && (n > 0 ==> s[0] != '0')
      && DigitsValue(s) == n
    decreases n
  {
    if n >= 10 {
      NatToStringRoundTrip(n / 10);
      var s := NatToString(n);
      assert s[..|s| - 1] == NatToString(n / 10);
      assert DigitValue(s[|s| - 1]) == n % 10;
      assert (n / 10) * 10 + n % 10 == n;
    }
  }

  /**
   * Python's `a <= b` on `str`: lexicographic comparison by code point, a
   * proper prefix coming first.
   */
  predicate LexLe(a: string, b: string)
    decreases |a|
  {
    a == [] || (b != [] && (a[0] < b[0] || (a[0] == b[0] && LexLe(a[1..], b[1..]))))
  }

  lemma {:induction false} LexLeTotal(a: string, b: string)
    ensures LexLe(a, b) || LexLe(b, a)
    decreases |a|
  {
    if a != [] && b != [] && a[0] == b[0] {
      LexLeTotal(a[1..], b[1..]);
    }
  }

  lemma {:induction false} LexLeTransitive(a: string, b: string, c: string)
    requires LexLe(a, b) && LexLe(b, c)
    ensures LexLe(a, c)
    decreases |a|
  {
    if a != [] && a[0] == b[0] && b[0] == c[0] {
      LexLeTransitive(a[1..], b[1..], c[1..]);
    }
  }

  lemma {:induction false} LexLeAntisymmetric(a: string, b: string)
    requires LexLe(a, b) && LexLe(b, a)
    ensures a == b
    decreases |a|
  {
    if a != [] {
      LexLeAntisymmetric(a[1..], b[1..]);
      assert a == [a[0]] + a[1..] && b == [b[0]] + b[1..];
    }
  }
}
