/** The string operations the harvesting code relies on, written out the
    way Python defines them: substring search (`p in s`), `str.replace`,
    the `http://` to `https://` rewrite of PDF links, and decimal digits
    (`int(...)` of a digit string, `str(n)`). */
module Strings {

  /** `p` occurs in `s` starting at index `i`. */
  predicate OccursAt(s: string, p: string, i: int) {
    0 <= i && i + |p| <= |s| && s[i..i + |p|] == p
  }

  /** Python's `p in s` on strings. */
  predicate Contains(s: string, p: string) {
    exists i | 0 <= i <= |s| - |p| :: OccursAt(s, p, i)
  }

  /** Python's `s.replace(pat, rep)`: scans left to right and replaces every
      non-overlapping occurrence of `pat`. Every pattern the source replaces
      is a non-empty literal. */
  function ReplaceAll(s: string, pat: string, rep: string): string
    requires pat != []
    decreases |s|
  {
    if |s| < |pat| then s
    else if s[..|pat|] == pat then rep + ReplaceAll(s[|pat|..], pat, rep)
    else [s[0]] + ReplaceAll(s[1..], pat, rep)
  }

  /** An occurrence in the tail of `s` is an occurrence in `s`. */
  lemma ContainsTail(s: string, p: string)
    requires |s| > 0 && Contains(s[1..], p)
    ensures Contains(s, p)
  {
    var i :| 0 <= i <= |s[1..]| - |p| && OccursAt(s[1..], p, i);
    assert s[1..][i..i + |p|] == s[i + 1..i + 1 + |p|];
    assert OccursAt(s, p, i + 1);
  }

  lemma ConsSlice(c: char, t: string, i: int, j: int)
    requires 1 <= i <= j <= |t| + 1
    ensures ([c] + t)[i..j] == t[i - 1..j - 1]
  {
  }

  lemma ConsPrefix(c: char, t: string, n: int)
    requires 1 <= n <= |t| + 1
    ensures ([c] + t)[..n] == [c] + t[..n - 1]
  {
  }

  /** `str.replace` leaves a string without occurrences of the pattern as it is. */
  lemma {:induction false} ReplaceAllWithoutMatch(s: string, pat: string, rep: string)
    requires pat != [] && !Contains(s, pat)
    ensures ReplaceAll(s, pat, rep) == s
    decreases |s|
  {
    if |s| >= |pat| {
      assert !OccursAt(s, pat, 0);
      assert Contains(s[1..], pat) ==> Contains(s, pat) by {
        if |s| > 0 && Contains(s[1..], pat) { ContainsTail(s, pat); }
      }
      ReplaceAllWithoutMatch(s[1..], pat, rep);
    }
  }

  /** A pattern with a character that `s` lacks does not occur in `s`. */
  lemma MissingCharMeansNoMatch(s: string, pat: string, k: nat)
    requires k < |pat| && pat[k] !in s
    ensures !Contains(s, pat)
  {
    forall i | 0 <= i <= |s| - |pat| ensures !OccursAt(s, pat, i) {
      assert s[i + k] in s;
      assert s[i..i + |pat|][k] == s[i + k] != pat[k];
    }
  }

  /** Every character of the result of `str.replace` comes from the input or
      from the replacement. */
  lemma {:induction false} ReplaceAllChars(s: string, pat: string, rep: string, c: char)
    requires pat != []
    ensures c in ReplaceAll(s, pat, rep) ==> c in s || c in rep
    decreases |s|
  {
    if |s| < |pat| {
    } else if s[..|pat|] == pat {
      ReplaceAllChars(s[|pat|..], pat, rep, c);
      assert c in s[|pat|..] ==> c in s;
    } else {
      ReplaceAllChars(s[1..], pat, rep, c);
      assert c in s[1..] ==> c in s;
    }
  }

  /** Replacing a single character by a string without it removes it everywhere. */
  lemma {:induction false} ReplaceCharRemoves(s: string, c: char, rep: string)
    requires c !in rep
    ensures c !in ReplaceAll(s, [c], rep)
    decreases |s|
  {
    if |s| > 0 {
      ReplaceCharRemoves(s[1..], c, rep);
      if s[..1] == [c] {
        assert ReplaceAll(s, [c], rep) == rep + ReplaceAll(s[1..], [c], rep);
      } else {
        assert s[0] != c;
        assert ReplaceAll(s, [c], rep) == [s[0]] + ReplaceAll(s[1..], [c], rep);
      }
    }
  }

  /** A leading occurrence of the pattern is replaced. */
  lemma ReplaceAllLeadingMatch(pat: string, s: string, rep: string)
    requires pat != []
    ensures ReplaceAll(pat + s, pat, rep) == rep + ReplaceAll(s, pat, rep)
  {
    assert (pat + s)[..|pat|] == pat;
    assert (pat + s)[|pat|..] == s;
  }

  /** A single occurrence of the pattern, behind a part without its first
      character and before a part without it, is the only one replaced. */
  lemma ReplaceOnlyOccurrence(a: string, b: string, pat: string, rep: string)
    requires pat != [] && pat[0] !in a && !Contains(b, pat)
    ensures ReplaceAll(a + pat + b, pat, rep) == a + rep + b
  {
    assert a + pat + b == a + (pat + b);
    ReplaceAllSkipsHead(a, pat + b, pat, rep);
    ReplaceAllLeadingMatch(pat, b, rep);
    ReplaceAllWithoutMatch(b, pat, rep);
    assert a + (rep + b) == a + rep + b;
  }

  /** A leading part in which the pattern's first character never appears is
      copied unchanged. */
  lemma {:induction false} ReplaceAllSkipsHead(a: string, b: string, pat: string, rep: string)
    requires pat != [] && pat[0] !in a
    ensures ReplaceAll(a + b, pat, rep) == a + ReplaceAll(b, pat, rep)
    decreases |a|
  {
    if |a| > 0 {
      var s := a + b;
      assert s[0] == a[0];
      assert s[1..] == a[1..] + b;
      ReplaceAllSkipsHead(a[1..], b, pat, rep);
      assert a == [a[0]] + a[1..];
      if |s| >= |pat| {
        assert s[..|pat|][0] == a[0] != pat[0];
        calc {
          ReplaceAll(s, pat, rep);
          [s[0]] + ReplaceAll(s[1..], pat, rep);
          [a[0]] + (a[1..] + ReplaceAll(b, pat, rep));
          ([a[0]] + a[1..]) + ReplaceAll(b, pat, rep);
        }
      } else {
        assert ReplaceAll(b, pat, rep) == b;
      }
    } else {
      assert a + b == b;
    }
  }

  // ---------------------------------------------------------------------
  // The scheme rewrite `url.replace('http://', 'https://')`

  const PlainScheme: string := "http://"
  const SecureScheme: string := "https://"

  /** `url.replace('http://', 'https://')`. */
  function UpgradeScheme(url: string): string {
    ReplaceAll(url, PlainScheme, SecureScheme)
  }

  /** If the rewritten string starts with a word free of 'h', the original
      started with the same word: the rewrite only ever emits text at an 'h'. */
  lemma {:induction false} UpgradeKeepsPlainPrefix(t: string, w: string)
    requires 'h' !in w
    ensures |w| <= |UpgradeScheme(t)| && UpgradeScheme(t)[..|w|] == w ==> |w| <= |t| && t[..|w|] == w
    decreases |w|
  {
    if |w| > 0 && |t| >= |PlainScheme| {
      if t[..|PlainScheme|] == PlainScheme {
        assert UpgradeScheme(t) == SecureScheme + UpgradeScheme(t[|PlainScheme|..]);
        assert UpgradeScheme(t)[0] == 'h';
        assert w[0] != 'h';
      } else {
        var r := UpgradeScheme(t[1..]);
        assert UpgradeScheme(t) == [t[0]] + r;
        UpgradeKeepsPlainPrefix(t[1..], w[1..]);
        if |w| <= |UpgradeScheme(t)| && UpgradeScheme(t)[..|w|] == w {
          assert r[..|w| - 1] == UpgradeScheme(t)[1..|w|] == w[1..];
          assert t[1..][..|w| - 1] == w[1..];
          assert t[..|w|] == [t[0]] + t[1..][..|w| - 1];
        }
      }
    }
  }

  /** A `http://` at the front of `[c] + UpgradeScheme(t)` was already at the
      front of `[c] + t`. */
  lemma LeadingPlainSchemeComesFromInput(c: char, t: string)
    ensures OccursAt([c] + UpgradeScheme(t), PlainScheme, 0) ==> OccursAt([c] + t, PlainScheme, 0)
  {
    var rest := UpgradeScheme(t);
    if OccursAt([c] + rest, PlainScheme, 0) {
      UpgradeKeepsPlainPrefix(t, "ttp://");
      ConsPrefix(c, rest, 7);
      assert [c] + rest[..6] == PlainScheme;
      assert rest[..6] == PlainScheme[1..] == "ttp://";
      ConsPrefix(c, t, 7);
    }
  }

  /** After the rewrite no `http://` is left: the rewrite cannot create a new
      occurrence across the boundary of an inserted `https://`. */
  lemma {:induction false} UpgradeRemovesPlainScheme(u: string)
    ensures !Contains(UpgradeScheme(u), PlainScheme)
    decreases |u|
  {
    var r := UpgradeScheme(u);
    if |u| < |PlainScheme| {
      assert r == u;
    } else if u[..|PlainScheme|] == PlainScheme {
      var rest := UpgradeScheme(u[|PlainScheme|..]);
      UpgradeRemovesPlainScheme(u[|PlainScheme|..]);
      assert r == SecureScheme + rest;
      NoPlainSchemeAfterSecure(rest);
    } else {
      var rest := UpgradeScheme(u[1..]);
      UpgradeRemovesPlainScheme(u[1..]);
      assert r == [u[0]] + rest;
      LeadingPlainSchemeComesFromInput(u[0], u[1..]);
      assert u == [u[0]] + u[1..];
      NoPlainSchemeAfterChar(u[0], rest);
    }
  }

  /** `https://` in front of a string without `http://` adds none. */
  lemma NoPlainSchemeAfterSecure(rest: string)
    requires !Contains(rest, PlainScheme)
    ensures !Contains(SecureScheme + rest, PlainScheme)
  {
    var r := SecureScheme + rest;
    forall i | 0 <= i <= |r| - |PlainScheme| ensures !OccursAt(r, PlainScheme, i) {
      if i >= |SecureScheme| {
        assert r[i..i + 7] == rest[i - 8..i - 1];
        assert !OccursAt(rest, PlainScheme, i - 8);
      } else if i == 0 {
        assert r[4] == 's';
        assert r[i..i + 7][4] == 's';
      } else {
        assert r[i] == SecureScheme[i];
        assert r[i..i + 7][0] == r[i];
      }
    }
  }

  /** One character in front of a string without `http://` adds none unless
      it starts one. */
  lemma NoPlainSchemeAfterChar(c: char, rest: string)
    requires !Contains(rest, PlainScheme) && !OccursAt([c] + rest, PlainScheme, 0)
    ensures !Contains([c] + rest, PlainScheme)
  {
    var r := [c] + rest;
    forall i | 1 <= i <= |r| - |PlainScheme| ensures !OccursAt(r, PlainScheme, i) {
      ConsSlice(c, rest, i, i + 7);
      assert !OccursAt(rest, PlainScheme, i - 1);
    }
  }

  /** Rewriting twice is rewriting once. */
  lemma UpgradeIdempotent(u: string)
    ensures UpgradeScheme(UpgradeScheme(u)) == UpgradeScheme(u)
  {
    UpgradeRemovesPlainScheme(u);
    ReplaceAllWithoutMatch(UpgradeScheme(u), PlainScheme, SecureScheme);
  }

  /** A leading `http://` becomes `https://`. */
  lemma UpgradeLeadingScheme(rest: string)
    ensures UpgradeScheme(PlainScheme + rest) == SecureScheme + UpgradeScheme(rest)
  {
    ReplaceAllLeadingMatch(PlainScheme, rest, SecureScheme);
  }

  /** An `https://` URL with no `http://` in it is left as it is. */
  lemma UpgradeKeepsSecureUrl(rest: string)
    requires !Contains(rest, PlainScheme)
    ensures UpgradeScheme(SecureScheme + rest) == SecureScheme + rest
  {
    var s := SecureScheme + rest;
    var tail := "ttps://" + rest;
    assert s[..|PlainScheme|][4] == 's';
    assert s[1..] == tail;
    assert UpgradeScheme(s) == [s[0]] + UpgradeScheme(tail);
    assert 'h' !in "ttps://";
    ReplaceAllSkipsHead("ttps://", rest, PlainScheme, SecureScheme);
    ReplaceAllWithoutMatch(rest, PlainScheme, SecureScheme);
    assert s == [s[0]] + tail;
  }

  // ---------------------------------------------------------------------
  // Decimal digits

  predicate IsDigit(c: char) {
    '0' <= c <= '9'
  }

  predicate AllDigits(s: string) {
    forall i | 0 <= i < |s| :: IsDigit(s[i])
  }

  function DigitValue(c: char): nat
    requires IsDigit(c)
  {
    (c as int) - ('0' as int)
  }

  function DigitChar(d: nat): (c: char)
    requires d < 10
    ensures IsDigit(c) && DigitValue(c) == d
  {
    ('0' as int + d) as char
  }

  /** The number a digit string denotes (Python's `int` on it; the empty
      string is the caller's concern). */
  function DigitsValue(s: string): nat
    requires AllDigits(s)
    decreases |s|
  {
    if |s| == 0 then 0 else 10 * DigitsValue(s[..|s| - 1]) + DigitValue(s[|s| - 1])
  }

  /** The value of a four-digit string, digit by digit. */
  lemma FourDigitsValue(s: string)
    requires |s| == 4 && AllDigits(s)
    ensures DigitsValue(s) == 1000 * DigitValue(s[0]) + 100 * DigitValue(s[1]) + 10 * DigitValue(s[2]) + DigitValue(s[3])
  {
    assert s[..3][..2] == s[..2] && s[..2][..1] == s[..1] && s[..1][..0] == [];
    assert DigitsValue(s[..1]) == DigitValue(s[0]);
    assert DigitsValue(s[..2]) == 10 * DigitValue(s[0]) + DigitValue(s[1]);
    assert DigitsValue(s[..3]) == 100 * DigitValue(s[0]) + 10 * DigitValue(s[1]) + DigitValue(s[2]);
  }

  /** A digit string is its own longest digit prefix. */
  lemma LeadingDigitsOfDigits(s: string)
    requires AllDigits(s)
    ensures LeadingDigits(s) == s
  {
  }

  function Pow10(n: nat): nat {
    if n == 0 then 1 else 10 * Pow10(n - 1)
  }

  /** `k` digits denote a number below 10^k. */
  lemma {:induction false} DigitsValueBound(s: string)
    requires AllDigits(s)
    ensures DigitsValue(s) < Pow10(|s|)
    decreases |s|
  {
    if |s| > 0 {
      DigitsValueBound(s[..|s| - 1]);
    }
  }

  /** The longest prefix of `s` made of digits: what a greedy `[0-9]*` matches. */
  function LeadingDigits(s: string): (d: string)
    ensures AllDigits(d) && |d| <= |s| && d == s[..|d|]
    ensures |d| < |s| ==> !IsDigit(s[|d|])
    decreases |s|
  {
    if |s| == 0 || !IsDigit(s[0]) then "" else [s[0]] + LeadingDigits(s[1..])
  }

  /** Python's `str(n)` for a natural number. */
  function DecimalString(n: nat): (s: string)
    ensures |s| > 0 && AllDigits(s)
  {
    if n < 10 then [DigitChar(n)] else DecimalString(n / 10) + [DigitChar(n % 10)]
  }

  /** `int(str(n)) == n`. */
  lemma {:induction false} DecimalRoundTrip(n: nat)
    ensures DigitsValue(DecimalString(n)) == n
  {
    var s := DecimalString(n);
    if n >= 10 {
      DecimalRoundTrip(n / 10);
      assert s[..|s| - 1] == DecimalString(n / 10);
    }
  }
}
