/**
 * The string operations the script applies to service replies and to
 * answers: Python's `str.strip()`, `str.upper()` as far as it can matter
 * when the result is compared with an ASCII token, and `str(n)` for a
 * natural number.
 */
module Text {

  /** Python's `str.isspace()`: exactly the characters `str.strip()` removes. */
  predicate IsSpace(c: char) {
    var k := c as int;
    || (0x09 <= k <= 0x0D)
    || (0x1C <= k <= 0x20)
    || k == 0x85 || k == 0xA0 || k == 0x1680
    || (0x2000 <= k <= 0x200A)
    || k == 0x2028 || k == 0x2029 || k == 0x202F || k == 0x205F || k == 0x3000
  }

  predicate AllSpace(s: string) {
    forall i :: 0 <= i < |s| ==> IsSpace(s[i])
  }

  /** A string that `strip()` leaves alone: empty, or not bordered by white space. */
  predicate Trimmed(s: string) {
    s == [] || (!IsSpace(s[0]) && !IsSpace(s[|s| - 1]))
  }

  /** Number of white-space characters at the front of `s`. */
  function LeadingSpace(s: string): (k: nat)
    ensures k <= |s|
    ensures AllSpace(s[..k])
    ensures k < |s| ==> !IsSpace(s[k])
  {
    if |s| > 0 && IsSpace(s[0]) then
      var k' := LeadingSpace(s[1..]);
      assert s[..1 + k'] == [s[0]] + s[1..][..k'];
      1 + k'
    else
      0
  }

  /** Number of white-space characters at the back of `s`. */
  function TrailingSpace(s: string): (k: nat)
    ensures k <= |s|
    ensures AllSpace(s[|s| - k..])
    ensures k < |s| ==> !IsSpace(s[|s| - 1 - k])
  {
    if |s| > 0 && IsSpace(s[|s| - 1]) then
      var t := s[..|s| - 1];
      var k' := TrailingSpace(t);
      assert AllSpace(s[|s| - (1 + k')..]) by {
        assert s[|s| - (1 + k')..] == t[|t| - k'..] + [s[|s| - 1]];
      }
      assert k' < |t| ==> s[|s| - 1 - (1 + k')] == t[|t| - 1 - k'];
      1 + k'
    else
      0
  }

  /** Python's `s.strip()`. */
  function Strip(s: string): (r: string)
    ensures Trimmed(r)
    ensures r == [] <==> AllSpace(s)
    ensures r != [] ==> LeadingSpace(s) < |s| - TrailingSpace(s)
                        && r == s[LeadingSpace(s)..|s| - TrailingSpace(s)]
  {
    var i := LeadingSpace(s);
    if i == |s| then
      assert s[..i] == s;
      []
    else
      var k := TrailingSpace(s);
      assert i < |s| - k;
      s[i..|s| - k]
  }

  /** White space in front of a non-blank start is exactly what `LeadingSpace` counts. */
  lemma {:induction false} LeadingSpaceOf(p: string, rest: string)
    requires AllSpace(p) && (rest == [] || !IsSpace(rest[0]))
    ensures LeadingSpace(p + rest) == |p|
  {
    if p != [] {
      assert (p + rest)[1..] == p[1..] + rest;
      LeadingSpaceOf(p[1..], rest);
    }
  }

  /** White space after a non-blank end is exactly what `TrailingSpace` counts. */
  lemma {:induction false} TrailingSpaceOf(rest: string, q: string)
    requires AllSpace(q) && (rest == [] || !IsSpace(rest[|rest| - 1]))
    ensures TrailingSpace(rest + q) == |q|
  {
    if q != [] {
      assert (rest + q)[..|rest + q| - 1] == rest + q[..|q| - 1];
      TrailingSpaceOf(rest, q[..|q| - 1]);
    }
  }

  /** `strip()` is determined by its characterisation: blank borders around a trimmed middle. */
  lemma StripUnique(p: string, m: string, q: string)
    requires AllSpace(p) && AllSpace(q) && Trimmed(m)
    ensures Strip(p + m + q) == m
  {
    var s := p + m + q;
    if m == [] {
      assert AllSpace(s) by {
        forall n | 0 <= n < |s| ensures IsSpace(s[n]) {
          if n < |p| { assert s[n] == p[n]; } else { assert s[n] == q[n - |p|]; }
        }
      }
    } else {
      assert s == p + (m + q) && (m + q)[0] == m[0];
      LeadingSpaceOf(p, m + q);
      assert s == (p + m) + q && (p + m)[|p + m| - 1] == m[|m| - 1];
      TrailingSpaceOf(p + m, q);
      assert s[|p|] == m[0];
      assert s[|p|..|p| + |m|] == m;
    }
  }

  /** Stripping twice is stripping once. */
  lemma StripIdempotent(s: string)
    ensures Strip(Strip(s)) == Strip(s)
  {
    var m := Strip(s);
    StripUnique([], m, []);
    assert [] + m + [] == m;
  }

  /**
   * Python's `upper()` on one character, as far as it can produce an ASCII
   * capital: `a`..`z`, U+0131 (dotless i) and U+017F (long s). All other
   * characters are left unchanged.
   */
  function UpperChar(c: char): (u: char)
    ensures IsSpace(c) ==> u == c
  {
    if 'a' <= c <= 'z' then (c as int - 32) as char
    else if c == '\U{0131}' then 'I'
    else if c == '\U{017F}' then 'S'
    else c
  }

  function Upper(s: string): (r: string)
    ensures |r| == |s|
    ensures forall i :: 0 <= i < |s| ==> r[i] == UpperChar(s[i])
  {
    seq(|s|, i requires 0 <= i < |s| => UpperChar(s[i]))
  }

  /** The normalisation applied to a text reply: `reply.strip().upper()`. */
  function Normalize(reply: string): string {
    Upper(Strip(reply))
  }

  /** A reply token: non-empty and made of ASCII capitals, like "VALID" or "UNSAFE". */
  predicate IsToken(tok: string) {
    |tok| > 0 && forall i :: 0 <= i < |tok| ==> 'A' <= tok[i] <= 'Z'
  }

  /** `m` is `tok` written in any letter case that `upper()` folds to it. */
  predicate CaseVariant(m: string, tok: string) {
    |m| == |tok| && forall i :: 0 <= i < |m| ==> UpperChar(m[i]) == tok[i]
  }

  /** `reply` is the token `tok`, in any case, with any white space around it. */
  predicate PaddedToken(reply: string, tok: string) {
    exists i, j :: 0 <= i <= j <= |reply| && AllSpace(reply[..i]) && AllSpace(reply[j..])
                   && CaseVariant(reply[i..j], tok)
  }

  /** A normalised reply equals a token exactly when the raw reply is that token padded and in any case. */
  lemma NormalizeIsToken(reply: string, tok: string)
    requires IsToken(tok)
    ensures Normalize(reply) == tok <==> PaddedToken(reply, tok)
  {
    if Normalize(reply) == tok {
      NormalizedTokenIsPadded(reply, tok);
    }
    if PaddedToken(reply, tok) {
      PaddedTokenNormalizes(reply, tok);
    }
  }

  lemma NormalizedTokenIsPadded(reply: string, tok: string)
    requires Normalize(reply) == tok
    ensures PaddedToken(reply, tok)
  {
    var r := Strip(reply);
    var i, j :| 0 <= i <= j <= |reply| && AllSpace(reply[..i]) && AllSpace(reply[j..]) && r == reply[i..j];
    assert CaseVariant(reply[i..j], tok);
  }

  lemma PaddedTokenNormalizes(reply: string, tok: string)
    requires IsToken(tok) && PaddedToken(reply, tok)
    ensures Normalize(reply) == tok
  {
    var i, j :| 0 <= i <= j <= |reply| && AllSpace(reply[..i]) && AllSpace(reply[j..])
                && CaseVariant(reply[i..j], tok);
    var m := reply[i..j];
    CaseVariantTrimmed(m, tok);
    assert reply == reply[..i] + m + reply[j..];
    StripUnique(reply[..i], m, reply[j..]);
    assert Upper(m) == tok;
  }

  /** A case variant of a token has no white space at its borders. */
  lemma CaseVariantTrimmed(m: string, tok: string)
    requires IsToken(tok) && CaseVariant(m, tok)
    ensures Trimmed(m)
  {
    assert UpperChar(m[0]) == tok[0] && 'A' <= tok[0] <= 'Z';
    assert UpperChar(m[|m| - 1]) == tok[|m| - 1] && 'A' <= tok[|m| - 1] <= 'Z';
  }

  function DigitChar(d: nat): (c: char)
    requires d < 10
    ensures '0' <= c <= '9'
  {
    ('0' as int + d) as char
  }

  predicate AllDigits(s: string) {
    forall i :: 0 <= i < |s| ==> '0' <= s[i] <= '9'
  }

  /** Python's `str(n)` for a natural number. */
  function Decimal(n: nat): (r: string)
    ensures |r| > 0 && AllDigits(r)
    ensures r[0] == '0' ==> n == 0 && r == "0"
  {
    if n < 10 then [DigitChar(n)]
    else
      var front := Decimal(n / 10);
      assert (front + [DigitChar(n % 10)])[0] == front[0];
      front + [DigitChar(n % 10)]
  }

  /** Reads a string of decimal digits back as a number. */
  function ParseDecimal(s: string): nat
    requires AllDigits(s)
  {
    if s == [] then 0
    else 10 * ParseDecimal(s[..|s| - 1]) + (s[|s| - 1] as int - '0' as int)
  }

  /** A digit string without a leading zero reads as a positive number. */
  lemma {:induction false} ParseDecimalPositive(s: string)
    requires s != [] && AllDigits(s) && s[0] != '0'
    ensures ParseDecimal(s) >= 1
  {
    if |s| > 1 {
      ParseDecimalPositive(s[..|s| - 1]);
    }
  }

  /**
   * `str(n)` is the only way to write n in decimal without leading zeros:
   * every such digit string is the `Decimal` of the number it reads as.
   */
  lemma {:induction false} DecimalUnique(s: string)
    requires s != [] && AllDigits(s) && (s[0] == '0' ==> s == "0")
    ensures Decimal(ParseDecimal(s)) == s
  {
    if |s| > 1 {
      var front := s[..|s| - 1];
      assert front[0] == s[0];
      ParseDecimalPositive(front);
      DecimalUnique(front);
      var n := ParseDecimal(s);
      var d := s[|s| - 1] as int - '0' as int;
      assert n / 10 == ParseDecimal(front) && n % 10 == d;
      assert s == front + [DigitChar(d)];
    }
  }

  /** The question numbers written into the transcript can be read back. */
  lemma {:induction false} DecimalRoundTrip(n: nat)
    ensures ParseDecimal(Decimal(n)) == n
  {
    if n >= 10 {
      DecimalRoundTrip(n / 10);
      var r := Decimal(n);
      assert r[..|r| - 1] == Decimal(n / 10);
    }
  }
}
