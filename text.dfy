/**
 * Character classes and string helpers shared by the extraction code:
 * Python's `str.strip`, `str.lower`, substring tests and decimal digits,
 * restricted to the ASCII range.
 */
module Text {

  /** Python's `str.isspace` on ASCII characters (also what `\s` matches there). */
  predicate IsSpace(c: char) {
    c == ' ' || c == '\t' || c == '\n' || c == '\r' || c == '\U{0B}' || c == '\U{0C}'
    || ('\U{1C}' <= c <= '\U{1F}')
  }

  /** What `\d` matches on ASCII. */
  predicate IsDigit(c: char) {
    '0' <= c <= '9'
  }

  predicate AllDigits(s: string) {
    forall k :: 0 <= k < |s| ==> IsDigit(s[k])
  }

  function LowerChar(c: char): char {
    if 'A' <= c <= 'Z' then (c as int + 32) as char else c
  }

  /** Python's `str.lower` on ASCII letters. */
  function Lower(s: string): (r: string)
    ensures |r| == |s|
    ensures forall k :: 0 <= k < |s| ==> r[k] == LowerChar(s[k])
  {
    seq(|s|, k requires 0 <= k < |s| => LowerChar(s[k]))
  }

  predicate StartsWith(s: string, prefix: string) {
    |prefix| <= |s| && s[..|prefix|] == prefix
  }

  /** `t` occurs in `s` starting at index `i`. */
  predicate InfixAt(s: string, i: int, t: string) {
    0 <= i <= |s| - |t| && s[i..i + |t|] == t
  }

  /** Python's `t in s` for strings: `t` occurs in `s`, tried position by position. */
  predicate Contains(s: string, t: string) {
    ContainsFrom(s, t, 0)
  }

  /** `t` occurs in `s` at index `i` or later. */
  predicate ContainsFrom(s: string, t: string, i: nat)
    decreases |s| - i
  {
    i + |t| <= |s| && (s[i..i + |t|] == t || ContainsFrom(s, t, i + 1))
  }

  lemma {:induction false} ContainsFromSpec(s: string, t: string, i: nat)
    ensures ContainsFrom(s, t, i) <==> exists p :: i <= p && InfixAt(s, p, t)
    decreases |s| - i
  {
    if i + |t| <= |s| {
      ContainsFromSpec(s, t, i + 1);
      if ContainsFrom(s, t, i) && s[i..i + |t|] == t {
        assert InfixAt(s, i, t);
      }
      if exists p :: i <= p && InfixAt(s, p, t) {
        var p :| i <= p && InfixAt(s, p, t);
        if p == i {
          assert s[i..i + |t|] == t;
        } else {
          assert i + 1 <= p;
        }
      }
    }
  }

  /** `t in s` holds exactly when `t` occurs in `s` at some index. */
  lemma ContainsSpec(s: string, t: string)
    ensures Contains(s, t) <==> exists p :: InfixAt(s, p, t)
  {
    ContainsFromSpec(s, t, 0);
  }

  /** Python's `any(k in s for k in keys)`, tried key by key. */
  predicate ContainsAny(s: string, keys: seq<string>)
    decreases |keys|
  {
    keys != [] && (Contains(s, keys[0]) || ContainsAny(s, keys[1..]))
  }

  /** `any(k in s for k in keys)` holds exactly when some key occurs in `s`. */
  lemma {:induction false} ContainsAnySpec(s: string, keys: seq<string>)
    ensures ContainsAny(s, keys) <==> exists k :: 0 <= k < |keys| && Contains(s, keys[k])
    decreases |keys|
  {
    if keys != [] {
      ContainsAnySpec(s, keys[1..]);
      if exists k :: 0 <= k < |keys| && Contains(s, keys[k]) {
        var k :| 0 <= k < |keys| && Contains(s, keys[k]);
        if k > 0 {
          assert keys[1..][k - 1] == keys[k];
        }
      }
      if ContainsAny(s, keys[1..]) {
        var k :| 0 <= k < |keys[1..]| && Contains(s, keys[1..][k]);
        assert keys[1..][k] == keys[k + 1];
      }
    }
  }

  /** Index of the first non-space character of `s` at or after `i`, or |s|. */
  function SpaceEnd(s: string, i: nat): (j: nat)
    requires i <= |s|
    ensures i <= j <= |s|
    decreases |s| - i
  {
    if i < |s| && IsSpace(s[i]) then SpaceEnd(s, i + 1) else i
  }

  lemma {:induction false} SpaceEndSpec(s: string, i: nat)
    requires i <= |s|
    ensures forall k :: i <= k < SpaceEnd(s, i) ==> IsSpace(s[k])
    ensures SpaceEnd(s, i) < |s| ==> !IsSpace(s[SpaceEnd(s, i)])
    decreases |s| - i
  {
    if i < |s| && IsSpace(s[i]) {
      SpaceEndSpec(s, i + 1);
    }
  }

  /** Index just past the last non-space character of `s[lo..j]`, or `lo`. */
  function SpaceStart(s: string, lo: nat, j: nat): (e: nat)
    requires lo <= j <= |s|
    ensures lo <= e <= j
    decreases j - lo
  {
    if lo < j && IsSpace(s[j - 1]) then SpaceStart(s, lo, j - 1) else j
  }

  lemma {:induction false} SpaceStartSpec(s: string, lo: nat, j: nat)
    requires lo <= j <= |s|
    ensures forall k :: SpaceStart(s, lo, j) <= k < j ==> IsSpace(s[k])
    ensures SpaceStart(s, lo, j) > lo ==> !IsSpace(s[SpaceStart(s, lo, j) - 1])
    decreases j - lo
  {
    if lo < j && IsSpace(s[j - 1]) {
      SpaceStartSpec(s, lo, j - 1);
    }
  }

  /** Python's `str.lstrip()`. */
  function TrimLeft(s: string): (r: string)
    ensures |r| <= |s| && r == s[|s| - |r|..]
    ensures r == [] || !IsSpace(r[0])
    ensures forall k :: 0 <= k < |s| - |r| ==> IsSpace(s[k])
  {
    SpaceEndSpec(s, 0);
    s[SpaceEnd(s, 0)..]
  }

  /** Python's `str.strip()`. */
  function Strip(s: string): (r: string)
    ensures |r| <= |s|
  {
    var a := SpaceEnd(s, 0);
    s[a..SpaceStart(s, a, |s|)]
  }

  /**
   * `Strip` removes exactly the leading and trailing white space: what is
   * left neither starts nor ends with a space, everything cut off is space,
   * and a string without outer white space is left as it is.
   */
  lemma StripSpec(s: string)
    ensures Strip(s) == [] || (!IsSpace(Strip(s)[0]) && !IsSpace(Strip(s)[|Strip(s)| - 1]))
    ensures exists a ::
      (InfixAt(s, a, Strip(s))
       && (forall k :: 0 <= k < a ==> IsSpace(s[k]))
       && (forall k :: a + |Strip(s)| <= k < |s| ==> IsSpace(s[k])))
    ensures s == [] || (!IsSpace(s[0]) && !IsSpace(s[|s| - 1])) ==> Strip(s) == s
  {
    var a := SpaceEnd(s, 0);
    SpaceEndSpec(s, 0);
    SpaceStartSpec(s, a, |s|);
    assert InfixAt(s, a, Strip(s));
  }

  /** Python's `s.replace(c, '')` for a single character `c`. */
  function RemoveChar(s: string, c: char): (r: string)
    ensures |r| <= |s|
    ensures c !in r
    decreases |s|
  {
    if s == [] then []
    else (if s[0] == c then [] else [s[0]]) + RemoveChar(s[1..], c)
  }

  /** Removing `c` keeps every other character, as often as it occurred. */
  lemma {:induction false} RemoveCharKeepsOthers(s: string, c: char)
    ensures forall d :: d != c ==> multiset(RemoveChar(s, c))[d] == multiset(s)[d]
    decreases |s|
  {
    if s != [] {
      RemoveCharKeepsOthers(s[1..], c);
      assert s == [s[0]] + s[1..];
    }
  }

  /** The characters at `k` and `k + 1` of `s` are digits. */
  predicate DigitPairAt(s: string, k: int) {
    0 <= k < |s| - 1 && IsDigit(s[k]) && IsDigit(s[k + 1])
  }

  /** `re.search(r'\d{2,8}', s)` succeeds: some two adjacent characters are digits. */
  predicate HasDigitPair(s: string) {
    exists k | 0 <= k < |s| - 1 :: DigitPairAt(s, k)
  }

  function DigitValue(c: char): nat
    requires IsDigit(c)
  {
    c as int - '0' as int
  }

  function DigitChar(d: nat): (c: char)
    requires d < 10
    ensures IsDigit(c) && DigitValue(c) == d
  {
    ('0' as int + d) as char
  }

  /** The number a run of decimal digits denotes. */
  function DigitsValue(s: string): nat
    requires AllDigits(s)
    decreases |s|
  {
    if s == [] then 0 else DigitsValue(s[..|s| - 1]) * 10 + DigitValue(s[|s| - 1])
  }

  /** Python's `str(n)` for a natural number. */
  function NatToString(n: nat): (s: string)
    ensures |s| > 0 && AllDigits(s)
    decreases n
  {
    if n < 10 then [DigitChar(n)] else NatToString(n / 10) + [DigitChar(n % 10)]
  }

  /** Reading back the decimal text of `n` gives `n`. */
  lemma {:induction false} NatToStringRoundTrip(n: nat)
    ensures DigitsValue(NatToString(n)) == n
  {
    if n >= 10 {
      NatToStringRoundTrip(n / 10);
      var s := NatToString(n);
      assert s[..|s| - 1] == NatToString(n / 10);
    }
  }

  /** Different numbers have different decimal texts. */
  lemma NatToStringInjective(m: nat, n: nat)
    requires m != n
    ensures NatToString(m) != NatToString(n)
  {
    NatToStringRoundTrip(m);
    NatToStringRoundTrip(n);
  }
}
