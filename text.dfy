/**
 * String helpers with the meaning of the JavaScript built-ins the source relies on:
 * decimal rendering of numbers, `trim()`, `startsWith`/`endsWith`/`includes`,
 * `slice(0, n)`, `Array.prototype.join` and `replace(/\/+$/, "")`.
 */
module Text {
  import opened Prelude

  /** Decimal digit for `d`. */
  function DigitChar(d: nat): char
    requires d < 10
  {
    "0123456789"[d]
  }

  predicate IsDigit(c: char) { '0' <= c <= '9' }

  /** Canonical decimal rendering of a natural number (no leading zeros). */
  function NatToString(n: nat): (s: string)
    ensures |s| >= 1
    ensures forall i | 0 <= i < |s| :: IsDigit(s[i])
    ensures |s| > 1 ==> s[0] != '0'
    decreases n
  {
    if n < 10 then [DigitChar(n)] else NatToString(n / 10) + [DigitChar(n % 10)]
  }

  /** Reads a string of digits back as a number. */
  function ParseDigits(s: string): nat
    requires forall i | 0 <= i < |s| :: IsDigit(s[i])
  {
    if s == [] then 0
    else
      assert IsDigit(s[|s| - 1]);
      ParseDigits(s[..|s| - 1]) * 10 + ((s[|s| - 1] as int) - ('0' as int))
  }

  lemma {:induction false} ParseNatToString(n: nat)
    ensures ParseDigits(NatToString(n)) == n
    decreases n
  {
    var s := NatToString(n);
    if n >= 10 {
      ParseNatToString(n / 10);
      assert s[..|s| - 1] == NatToString(n / 10);
    }
  }

  /** Distinct numbers render as distinct strings. */
  lemma NatToStringInjective(m: nat, n: nat)
    requires NatToString(m) == NatToString(n)
    ensures m == n
  {
    ParseNatToString(m);
    ParseNatToString(n);
  }

  /** Template-literal rendering of an integer (JavaScript's `${n}` for integral numbers). */
  function IntToString(i: int): (s: string)
    ensures |s| >= 1
  {
    if i < 0 then "-" + NatToString(-i) else NatToString(i)
  }

  /** The characters `String.prototype.trim` removes and `\s` matches: ECMAScript WhiteSpace and LineTerminator. */
  predicate IsJsWhitespace(c: char)
  {
    c == '\t' || c == '\n' || c == '\U{000B}' || c == '\U{000C}' || c == '\r' || c == ' '
    || c == '\U{00A0}' || c == '\U{1680}' || ('\U{2000}' <= c <= '\U{200A}')
    || c == '\U{2028}' || c == '\U{2029}' || c == '\U{202F}' || c == '\U{205F}'
    || c == '\U{3000}' || c == '\U{FEFF}'
  }

  /** Removes the longest suffix of `s` whose characters all satisfy `p`. */
  function StripEnd(s: string, p: char -> bool): (r: string)
    ensures |r| <= |s| && r == s[..|r|]
    ensures r == [] || !p(r[|r| - 1])
    ensures forall i | |r| <= i < |s| :: p(s[i])
  {
    if s != [] && p(s[|s| - 1]) then StripEnd(s[..|s| - 1], p) else s
  }

  /** Removes the longest prefix of `s` whose characters all satisfy `p`. */
  function StripStart(s: string, p: char -> bool): (r: string)
    ensures |r| <= |s| && r == s[|s| - |r|..]
    ensures r == [] || !p(r[0])
    ensures forall i | 0 <= i < |s| - |r| :: p(s[i])
  {
    if s != [] && p(s[0]) then StripStart(s[1..], p) else s
  }

  /** `s.trim()`. */
  function Trim(s: string): string
  {
    StripStart(StripEnd(s, IsJsWhitespace), IsJsWhitespace)
  }

  lemma {:induction false} StripEndPadded(s: string, post: string, p: char -> bool)
    requires forall i | 0 <= i < |post| :: p(post[i])
    ensures StripEnd(s + post, p) == StripEnd(s, p)
    decreases |post|
  {
    if post == [] {
      assert s + post == s;
    } else {
      var n := |post|;
      assert (s + post)[|s + post| - 1] == post[n - 1];
      assert (s + post)[..|s + post| - 1] == s + post[..n - 1];
      StripEndPadded(s, post[..n - 1], p);
    }
  }

  lemma {:induction false} StripEndKeepsPrefix(a: string, b: string, p: char -> bool)
    requires StripEnd(b, p) != []
    ensures StripEnd(a + b, p) == a + StripEnd(b, p)
    decreases |b|
  {
    var n := |b|;
    assert (a + b)[|a + b| - 1] == b[n - 1];
    if p(b[n - 1]) {
      assert (a + b)[..|a + b| - 1] == a + b[..n - 1];
      StripEndKeepsPrefix(a, b[..n - 1], p);
    }
  }

  lemma {:induction false} StripStartPadded(pre: string, s: string, p: char -> bool)
    requires forall i | 0 <= i < |pre| :: p(pre[i])
    ensures StripStart(pre + s, p) == StripStart(s, p)
    decreases |pre|
  {
    if pre == [] {
      assert pre + s == s;
    } else {
      assert (pre + s)[0] == pre[0];
      assert (pre + s)[1..] == pre[1..] + s;
      StripStartPadded(pre[1..], s, p);
    }
  }

  /** `trim()` ignores any whitespace added around the text. */
  lemma TrimPadded(pre: string, s: string, post: string)
    requires forall i | 0 <= i < |pre| :: IsJsWhitespace(pre[i])
    requires forall i | 0 <= i < |post| :: IsJsWhitespace(post[i])
    ensures Trim(pre + s + post) == Trim(s)
  {
    StripEndPadded(pre + s, post, IsJsWhitespace);
    var e := StripEnd(s, IsJsWhitespace);
    if e != [] {
      StripEndKeepsPrefix(pre, s, IsJsWhitespace);
      StripStartPadded(pre, e, IsJsWhitespace);
    } else {
      StripEndPadded(pre, s, IsJsWhitespace);
      StripEndPadded([], pre, IsJsWhitespace);
      assert [] + pre == pre;
    }
  }

  /** `s.replace(/\/+$/, "")`: every trailing `/` removed. */
  function StripTrailingSlashes(s: string): string
  {
    StripEnd(s, c => c == '/')
  }

  predicate StartsWith(s: string, prefix: string)
  {
    |prefix| <= |s| && s[..|prefix|] == prefix
  }

  predicate EndsWith(s: string, suffix: string)
  {
    |suffix| <= |s| && s[|s| - |suffix|..] == suffix
  }

  lemma StartsWithChar(s: string, c: char)
    ensures StartsWith(s, [c]) <==> |s| >= 1 && s[0] == c
  {
    if |s| >= 1 {
      assert s[..1] == [s[0]];
    }
  }

  lemma EndsWithChar(s: string, c: char)
    ensures EndsWith(s, [c]) <==> |s| >= 1 && s[|s| - 1] == c
  {
    if |s| >= 1 {
      assert s[|s| - 1..] == [s[|s| - 1]];
    }
  }

  /** `s.includes(sub)`. */
  predicate Contains(s: string, sub: string)
  {
    exists i | 0 <= i <= |s| - |sub| :: OccursAt(s, sub, i)
  }

  predicate OccursAt(s: string, sub: string, i: int)
  {
    0 <= i <= |s| - |sub| && s[i..i + |sub|] == sub
  }

  /** `s.slice(0, n)` for a non-negative `n`. */
  function Prefix(s: string, n: nat): (r: string)
    ensures |r| == Min(n, |s|)
    ensures r == s[..|r|]
  {
    if n <= |s| then s[..n] else s
  }

  /** `parts.join(sep)`. */
  function Join(parts: seq<string>, sep: string): string
  {
    if parts == [] then ""
    else if |parts| == 1 then parts[0]
    else Join(parts[..|parts| - 1], sep) + sep + parts[|parts| - 1]
  }

  // ---------------------------------------------------------------- de-duplication

  /** The position of the first occurrence of `x`. */
  function FirstIndex(xs: seq<string>, x: string): (i: nat)
    requires x in xs
    ensures i < |xs| && xs[i] == x && x !in xs[..i]
  {
    if xs[0] == x then 0 else 1 + FirstIndex(xs[1..], x)
  }

  lemma {:induction false} FirstIndexOfPrefix(xs: seq<string>, y: string, x: string)
    requires x in xs
    ensures FirstIndex(xs + [y], x) == FirstIndex(xs, x)
  {
    if xs[0] != x {
      assert (xs + [y])[1..] == xs[1..] + [y];
      FirstIndexOfPrefix(xs[1..], y, x);
    }
  }

  /**
   * `Array.from(new Set(arr))`: every element once, in order of first occurrence.
   */
  function Uniq(xs: seq<string>): (r: seq<string>)
    ensures forall i, j | 0 <= i < j < |r| :: r[i] != r[j]
    ensures forall x :: x in r <==> x in xs
    ensures forall i, j | 0 <= i < j < |r| :: FirstIndex(xs, r[i]) < FirstIndex(xs, r[j])
  {
    if xs == [] then []
    else
      var init, last := xs[..|xs| - 1], xs[|xs| - 1];
      assert xs == init + [last];
      var u := Uniq(init);
      forall x | x in init ensures FirstIndex(xs, x) == FirstIndex(init, x) {
        FirstIndexOfPrefix(init, last, x);
      }
      if last in u then u
      else
        assert FirstIndex(xs, last) == |xs| - 1;
        u + [last]
  }
}
